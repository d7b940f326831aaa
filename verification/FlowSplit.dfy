/** Splitting flows into subflows, and predicting how many completions a run must wait
    for. Lengths and counts are 32-bit unsigned; the prediction is a 64-bit sum. */
module FlowSplit {
  import opened Sequences

  const WORD := 0x1_0000_0000

  newtype uint32 = x: int | 0 <= x < 0x1_0000_0000

  /** lanes is the lane count in force, at least 1. */
  datatype Setting = Setting(lanes: uint32, chunkBytes: uint32, gateBytes: uint32) {
    predicate ChunkMode() { chunkBytes > 0 && lanes > 1 }
  }

  function AtLeastOne(length: uint32): uint32 {
    if length == 0 then 1 else length
  }

  // ------------------------------------------------------------- reference

  /** All pieces but the last are of the given size. */
  predicate Even(pieces: seq<int>, size: int) {
    forall i | 0 <= i < |pieces| - 1 :: pieces[i] == size
  }

  /** What a flow must be split into, an empty one as if it had one byte. In chunk mode: one
      piece below the gate, otherwise full chunks and a last piece no larger. Else: one piece
      a lane, or a byte, all of the same size with the remainder in the last. */
  predicate IsSplit(c: Setting, length: uint32, pieces: seq<int>) {
    var whole := if length == 0 then 1 else length as int;
    && pieces != []
    && (forall i | 0 <= i < |pieces| :: pieces[i] > 0)
    && Sum(pieces) == whole
    && if c.chunkBytes > 0 && c.lanes > 1 then
         if 0 < c.gateBytes && whole < c.gateBytes as int then |pieces| == 1
         else Even(pieces, c.chunkBytes as int) && pieces[|pieces| - 1] <= c.chunkBytes as int
       else
         && |pieces| <= whole && |pieces| <= c.lanes as int && (|pieces| == whole || |pieces| == c.lanes as int)
         && Even(pieces, whole / |pieces|)
         && pieces[|pieces| - 1] < whole / |pieces| + |pieces|
  }

  function Min(a: uint32, b: uint32): uint32 {
    if a < b then a else b
  }

  lemma {:induction false} EvenSum(pieces: seq<int>, size: int)
    requires pieces != [] && Even(pieces, size)
    ensures Sum(pieces) == (|pieces| - 1) * size + pieces[|pieces| - 1]
  {
    var n := |pieces| - 1;
    var front := pieces[..n];
    if n > 0 {
      EvenSum(front, size);
      assert front[n - 1] == size;
      assert (n - 1) * size + size == n * size;
    }
  }

  lemma {:induction false} EvenFront(pieces: seq<int>, size: int, i: nat)
    requires i < |pieces| && Even(pieces, size)
    ensures Sum(pieces[..i]) == i * size
  {
    if i > 0 {
      EvenFront(pieces, size, i - 1);
      assert pieces[..i][..i - 1] == pieces[..i - 1];
      assert (i - 1) * size + size == i * size;
    }
  }

  /** There is exactly one way to split a flow as required. */
  lemma SplitIsUnique(c: Setting, length: uint32, p: seq<int>, q: seq<int>)
    requires IsSplit(c, length, p) && IsSplit(c, length, q)
    ensures p == q
  {
    if c.ChunkMode() {
      if 0 < c.gateBytes && AtLeastOne(length) < c.gateBytes {
        EvenSum(p, 0);
        EvenSum(q, 0);
      } else {
        EvenSum(p, c.chunkBytes as int);
        EvenSum(q, c.chunkBytes as int);
        SameCount(|p| - 1, p[|p| - 1], |q| - 1, q[|q| - 1], c.chunkBytes as int);
      }
    } else {
      EvenSum(p, AtLeastOne(length) as int / |p|);
      EvenSum(q, AtLeastOne(length) as int / |q|);
    }
  }

  lemma OneLess(a: int, b: int, size: int)
    requires a < b && size >= 0
    ensures a * size + size <= b * size
    decreases b - a
  {
    if a + 1 < b {
      OneLess(a, b - 1, size);
      assert (b - 1) * size + size == b * size;
    } else {
      assert (a + 1) * size == a * size + size;
    }
  }

  lemma NotLess(a: int, x: int, b: int, y: int, size: int)
    requires x <= size && 0 < y && size > 0 && a * size + x == b * size + y
    ensures a >= b
  {
    if a < b {
      OneLess(a, b, size);
    }
  }

  lemma SameCount(a: int, x: int, b: int, y: int, size: int)
    requires 0 < x <= size && 0 < y <= size && a * size + x == b * size + y
    ensures a == b && x == y
  {
    NotLess(a, x, b, y, size);
    NotLess(b, y, a, x, size);
  }

  // ------------------------------------------------------------- operations

  method SplitIntoChunks(c: Setting, targetLength: uint32) returns (pieces: seq<int>)
    requires c.ChunkMode() && targetLength > 0
    ensures IsSplit(c, targetLength, pieces)
  {
    pieces := [];
    var remaining := targetLength;
    var noSplit := c.gateBytes > 0 && targetLength < c.gateBytes;
    while remaining > 0
      invariant Sum(pieces) + remaining as int == targetLength as int
      invariant forall i | 0 <= i < |pieces| :: pieces[i] > 0
      invariant noSplit ==> pieces == [] || (|pieces| == 1 && remaining == 0)
      invariant !noSplit ==> Even(pieces, c.chunkBytes as int)
      invariant !noSplit && pieces != [] ==> pieces[|pieces| - 1] <= c.chunkBytes as int
      invariant !noSplit && pieces != [] && remaining > 0 ==> pieces[|pieces| - 1] == c.chunkBytes as int
      decreases remaining
    {
      var chunkLength := if noSplit then remaining else Min(remaining, c.chunkBytes);
      assert (pieces + [chunkLength as int])[..|pieces|] == pieces;
      pieces := pieces + [chunkLength as int];
      remaining := remaining - chunkLength;
    }
  }

  method SplitIntoLanes(c: Setting, targetLength: uint32) returns (pieces: seq<int>)
    requires c.lanes >= 1 && !c.ChunkMode() && targetLength > 0
    ensures IsSplit(c, targetLength, pieces)
  {
    var subflowCount := c.lanes;
    if subflowCount > targetLength {
      subflowCount := targetLength;
    }
    var baseLength := targetLength / subflowCount;
    var remainder := targetLength % subflowCount;
    BasePositive(targetLength as int, subflowCount as int);
    pieces := [];
    var i: uint32 := 0;
    while i < subflowCount
      invariant 0 <= i <= subflowCount && |pieces| == i as int
      invariant forall k | 0 <= k < |pieces| ::
        pieces[k] == (baseLength as int + if k == subflowCount as int - 1 then remainder as int else 0)
    {
      pieces := pieces + [baseLength as int + if i == subflowCount - 1 then remainder as int else 0];
      i := i + 1;
    }
    EvenSum(pieces, baseLength as int);
    WholeIsParts(targetLength as int, subflowCount as int);
  }

  lemma BasePositive(length: int, count: int)
    requires 0 < count <= length
    ensures 1 <= length / count && 0 <= length % count < count
  {}

  lemma WholeIsParts(length: int, count: int)
    requires 0 < count <= length
    ensures (count - 1) * (length / count) + (length / count + length % count) == length
  {
    assert count * (length / count) + length % count == length;
  }

  /** The subflows of one flow, numbered from 0 in order. */
  method SplitFlow(c: Setting, length: uint32) returns (pieces: seq<int>)
    requires c.lanes >= 1
    ensures IsSplit(c, length, pieces)
  {
    var targetLength := length;
    if targetLength == 0 {
      targetLength := 1;
    }
    if c.ChunkMode() {
      pieces := SplitIntoChunks(c, targetLength);
    } else {
      pieces := SplitIntoLanes(c, targetLength);
    }
  }

  /** The predicted number of subflows of one flow, in 32-bit arithmetic that wraps. */
  function ChunkCount(c: Setting, length: uint32): int {
    var bytes := AtLeastOne(length);
    if !c.ChunkMode() then Min(c.lanes, bytes) as int
    else if c.gateBytes > 0 && bytes < c.gateBytes then 1
    else ((bytes as int + c.chunkBytes as int - 1) % WORD) / c.chunkBytes as int
  }

  /** The rounding up in ChunkCount passes the 32-bit range. */
  predicate Overflows(c: Setting, length: uint32) {
    var whole := if length == 0 then 1 else length as int;
    && c.chunkBytes > 0 && c.lanes > 1 && (c.gateBytes == 0 || whole >= c.gateBytes as int)
    && whole + c.chunkBytes as int - 1 >= WORD
  }

  /** The largest flow overflows with chunks of 64 KiB: the prediction is 0. */
  lemma LargestFlowOverflows()
    ensures Overflows(Setting(2, 0x1_0000, 0), 0xFFFF_FFFF) && ChunkCount(Setting(2, 0x1_0000, 0), 0xFFFF_FFFF) == 0
  {}

  lemma RoundUp(n: int, x: int, size: int)
    requires 0 < x <= size && n >= 0
    ensures (n * size + x + size - 1) / size == n + 1
  {
    var v := n * size + x + size - 1;
    assert v == (v / size) * size + v % size;
    assert v + 1 == (n + 1) * size + x;
    SameCount(n + 1, x, v / size, v % size + 1, size);
  }

  /** The prediction for one flow is right exactly when it does not overflow; then it is
      0 instead. */
  lemma CountIsRight(c: Setting, length: uint32, pieces: seq<int>)
    requires c.lanes >= 1 && IsSplit(c, length, pieces)
    ensures ChunkCount(c, length) == if Overflows(c, length) then 0 else |pieces|
  {
    if c.ChunkMode() && (c.gateBytes == 0 || AtLeastOne(length) >= c.gateBytes) {
      EvenSum(pieces, c.chunkBytes as int);
      RoundUpWraps(|pieces| - 1, pieces[|pieces| - 1], c.chunkBytes as int, AtLeastOne(length) as int);
    }
  }

  lemma RoundUpWraps(n: int, x: int, size: int, bytes: int)
    requires 0 < x <= size < WORD && n >= 0 && bytes == n * size + x < WORD
    ensures ((bytes + size - 1) % WORD) / size == if bytes + size - 1 >= WORD then 0 else n + 1
  {
    Wrapped(bytes + size - 1, size);
    RoundUp(n, x, size);
  }

  lemma Wrapped(v: int, size: int)
    requires 0 < size && 0 <= v < WORD + size
    ensures v < WORD ==> v % WORD == v
    ensures v >= WORD && size < WORD ==> (v % WORD) / size == 0
  {
    if v >= WORD && size < WORD {
      assert v % WORD == v - WORD;
      SmallQuotient(v - WORD, size);
    }
  }

  lemma SmallQuotient(v: int, size: int)
    requires 0 <= v < size
    ensures v / size == 0
  {}

  /** The number of completions to wait for; with one lane, the number of flows. */
  method CalculateTargetCompletionCount(c: Setting, flows: seq<uint32>) returns (target: int)
    requires c.lanes >= 1
    ensures target == if c.lanes == 1 then |flows| else Predicted(c, flows)
  {
    if c.lanes <= 1 {
      return |flows|;
    }
    target := 0;
    for i := 0 to |flows|
      invariant target == Predicted(c, flows[..i])
    {
      assert flows[..i + 1][..i] == flows[..i];
      var targetLength := flows[i];
      if targetLength == 0 {
        targetLength := 1;
      }
      target := target + ChunkCount(c, targetLength);
    }
    assert flows[..|flows|] == flows;
  }

  function Predicted(c: Setting, flows: seq<uint32>): int {
    if flows == [] then 0 else Predicted(c, flows[..|flows| - 1]) + ChunkCount(c, flows[|flows| - 1])
  }

  /** Installs every flow's subflows in turn. */
  method InstallAll(c: Setting, flows: seq<uint32>) returns (installed: seq<seq<int>>)
    requires c.lanes >= 1
    ensures AllSplit(c, flows, installed)
  {
    installed := [];
    for i := 0 to |flows|
      invariant AllSplit(c, flows[..i], installed)
    {
      var pieces := SplitFlow(c, flows[i]);
      installed := installed + [pieces];
    }
    assert flows[..|flows|] == flows;
  }

  predicate AllSplit(c: Setting, flows: seq<uint32>, installed: seq<seq<int>>) {
    |installed| == |flows| && forall i | 0 <= i < |flows| :: IsSplit(c, flows[i], installed[i])
  }

  function CountAll(installed: seq<seq<int>>): int {
    if installed == [] then 0 else CountAll(installed[..|installed| - 1]) + |installed[|installed| - 1]|
  }

  /** The prediction is never too high, and short as soon as one flow overflows. */
  lemma {:induction false} PredictedOrShort(c: Setting, flows: seq<uint32>, installed: seq<seq<int>>)
    requires c.lanes >= 1 && AllSplit(c, flows, installed)
    ensures Predicted(c, flows) <= CountAll(installed)
    ensures Predicted(c, flows) == CountAll(installed) <==> forall i | 0 <= i < |flows| :: !Overflows(c, flows[i])
  {
    if flows != [] {
      var n := |flows| - 1;
      PredictedOrShort(c, flows[..n], installed[..n]);
      CountIsRight(c, flows[n], installed[n]);
      assert forall i | 0 <= i < n :: flows[..n][i] == flows[i];
    }
  }

  /** A flow whose length was not read is counted once, which is never too much. */
  lemma {:induction false} CountedIsShort(c: Setting, flows: seq<uint32>, counted: seq<uint32>,
                                          installed: seq<seq<int>>)
    requires c.lanes >= 1 && AllSplit(c, flows, installed)
    requires |counted| == |flows| && forall i | 0 <= i < |flows| :: counted[i] == flows[i] || counted[i] == 0
    ensures Predicted(c, counted) <= CountAll(installed)
  {
    if flows != [] {
      var n := |flows| - 1;
      CountedIsShort(c, flows[..n], counted[..n], installed[..n]);
      CountIsRight(c, flows[n], installed[n]);
      CountOfNone(c);
    }
  }

  lemma CountOfNone(c: Setting)
    requires c.lanes >= 1
    ensures ChunkCount(c, 0) == 1
  {
    if c.ChunkMode() && c.gateBytes <= 1 {
      RoundUp(0, 1, c.chunkBytes as int);
    }
  }

  lemma {:induction false} OneLaneOnePiece(c: Setting, flows: seq<uint32>, installed: seq<seq<int>>)
    requires c.lanes == 1 && AllSplit(c, flows, installed)
    ensures CountAll(installed) == |flows|
  {
    if flows != [] {
      var n := |flows| - 1;
      OneLaneOnePiece(c, flows[..n], installed[..n]);
    }
  }

  /** The run waits for exactly the subflows it installs if and only if no flow's
      rounding up overflows. */
  method TargetMeetsInstalled(c: Setting, flows: seq<uint32>) returns (target: int, installed: seq<seq<int>>)
    requires c.lanes >= 1
    ensures AllSplit(c, flows, installed)
    ensures target == CountAll(installed) <==> forall i | 0 <= i < |flows| :: !Overflows(c, flows[i])
    ensures target <= CountAll(installed)
  {
    target := CalculateTargetCompletionCount(c, flows);
    installed := InstallAll(c, flows);
    PredictedOrShort(c, flows, installed);
    if c.lanes == 1 {
      OneLaneOnePiece(c, flows, installed);
    }
  }
}
