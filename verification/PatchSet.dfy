/** Writing a patch set as a unified diff and reading it back. */
module PatchSet {
  import opened Wrappers

  /** Which side of the diff a line is on; Unset is a line no setter was called on. */
  datatype Kind = Unset | Removed | Added | Common

  datatype Line = Line(kind: Kind, text: string)

  datatype Chunk = Chunk(srcPos: nat, dstPos: nat, lines: seq<Line>) {
    function SrcLen(): nat { CountSides(lines, Removed) }

    function DstLen(): nat { CountSides(lines, Added) }
  }

  datatype Patch = Patch(src: string, dst: string, chunks: seq<Chunk>)

  function CountSides(lines: seq<Line>, side: Kind): nat {
    if lines == [] then 0
    else
      var last := lines[|lines| - 1].kind;
      CountSides(lines[..|lines| - 1], side) + if last == side || last == Common then 1 else 0
  }

  // --------------------------------------------------------------- decimal

  predicate IsDigit(c: char) { '0' <= c <= '9' }

  predicate AllDigits(s: string) {
    forall i | 0 <= i < |s| :: IsDigit(s[i])
  }

  function Digits(n: nat): (s: string)
    ensures |s| > 0 && AllDigits(s)
  {
    var last := [('0' as int + n % 10) as char];
    if n < 10 then last else Digits(n / 10) + last
  }

  function Number(s: string): nat
    requires AllDigits(s)
  {
    if s == [] then 0 else 10 * Number(s[..|s| - 1]) + (s[|s| - 1] as int - '0' as int)
  }

  lemma {:induction false} NumberOfDigits(n: nat)
    ensures Number(Digits(n)) == n
  {
    if n >= 10 {
      NumberOfDigits(n / 10);
      assert Digits(n)[..|Digits(n)| - 1] == Digits(n / 10);
    }
  }

  /** Zeros in front do not change a number. */
  lemma {:induction false} ZerosInFront(s: string)
    requires AllDigits(s)
    ensures AllDigits("0" + s) && Number("0" + s) == Number(s)
  {
    if s == [] {
      assert "0"[..0] == "" && "0" + s == "0";
    } else {
      var n := |s| - 1;
      ZerosInFront(s[..n]);
      assert ("0" + s)[..n + 1] == "0" + s[..n];
    }
  }

  /** Without zeros in front the digits of a number are its only numeral. */
  lemma {:induction false} DigitsOfNumber(s: string)
    requires s != "" && AllDigits(s) && (s[0] != '0' || |s| == 1)
    ensures Digits(Number(s)) == s && (|s| > 1 ==> Number(s) >= 10)
  {
    var n := |s| - 1;
    var front, last := s[..n], s[n] as int - '0' as int;
    if n == 0 {
      assert Number(front) == 0;
    } else {
      DigitsOfNumber(front);
      assert Number(front) > 0 by {
        if n == 1 {
          assert Number(front[..0]) == 0;
        }
      }
      assert Number(s) / 10 == Number(front) && Number(s) % 10 == last;
      assert s == front + [s[n]];
    }
  }

  /** How many digits a string starts with. */
  function LeadingDigits(s: string): (n: nat)
    ensures n <= |s| && AllDigits(s[..n]) && (n < |s| ==> !IsDigit(s[n]))
  {
    if s == [] || !IsDigit(s[0]) then 0 else 1 + LeadingDigits(s[1..])
  }

  lemma LeadingDigitsOf(n: nat, rest: string)
    requires rest != [] && !IsDigit(rest[0])
    ensures LeadingDigits(Digits(n) + rest) == |Digits(n)|
    ensures (Digits(n) + rest)[..|Digits(n)|] == Digits(n) && (Digits(n) + rest)[|Digits(n)|..] == rest
  {
    LeadingDigitsBefore(Digits(n), rest);
  }

  lemma {:induction false} LeadingDigitsBefore(digits: string, rest: string)
    requires AllDigits(digits) && rest != [] && !IsDigit(rest[0])
    ensures LeadingDigits(digits + rest) == |digits|
    ensures (digits + rest)[..|digits|] == digits && (digits + rest)[|digits|..] == rest
  {
    if digits == [] {
      assert digits + rest == rest;
    } else {
      LeadingDigitsBefore(digits[1..], rest);
      assert (digits + rest)[1..] == digits[1..] + rest;
    }
  }

  // -------------------------------------------------------------- matching

  predicate StartsWith(s: string, prefix: string) {
    |s| >= |prefix| && s[..|prefix|] == prefix
  }

  /** A positive number of digits and what follows them. */
  function TakeNumber(s: string): Option<(nat, string)> {
    var n := LeadingDigits(s);
    if n == 0 then None else Some((Number(s[..n]), s[n..]))
  }

  function TakeText(s: string, prefix: string): Option<string> {
    if StartsWith(s, prefix) then Some(s[|prefix|..]) else None
  }

  /** A number with the given text before it. */
  function TakeField(s: Option<string>, prefix: string): Option<(nat, string)> {
    match s
    case None => None
    case Some(s) =>
      match TakeText(s, prefix)
      case None => None
      case Some(rest) => TakeNumber(rest)
  }

  function Rest(m: Option<(nat, string)>): Option<string> {
    match m
    case None => None
    case Some((_, rest)) => Some(rest)
  }

  /** The two positions of a chunk header; its two lengths are read and ignored. */
  function ChunkHeader(line: string): Option<(nat, nat)> {
    var a := TakeField(Some(line), "@@ -");
    var b := TakeField(Rest(a), ",");
    var c := TakeField(Rest(b), " +");
    var d := TakeField(Rest(c), ",");
    match d
    case None => None
    case Some((_, rest)) =>
      if StartsWith(rest, " @@") && a.Some? && c.Some? then Some((a.value.0, c.value.0)) else None
  }

  /** What a line is read as, in the order the reader tries. */
  datatype Reading =
    | SrcFile(name: string)
    | DstFile(name: string)
    | Header(src: nat, dst: nat)
    | Content(line: Line)
    | Bad

  function Read(line: string): Reading {
    if StartsWith(line, "--- ") then SrcFile(line[4..])
    else if StartsWith(line, "+++ ") then DstFile(line[4..])
    else if ChunkHeader(line).Some? then Header(ChunkHeader(line).value.0, ChunkHeader(line).value.1)
    else if StartsWith(line, "-") then Content(Line(Removed, line[1..]))
    else if StartsWith(line, "+") then Content(Line(Added, line[1..]))
    else if StartsWith(line, " ") then Content(Line(Common, line[1..]))
    else Bad
  }

  // --------------------------------------------------------------- writing

  function Sign(k: Kind): string {
    match k
    case Removed => "-"
    case Added => "+"
    case _ => " "
  }

  function LineText(l: Line): string {
    Sign(l.kind) + l.text
  }

  function HeaderText(c: Chunk): string {
    "@@ -" + (Digits(c.srcPos) + ("," + (Digits(c.SrcLen()) +
      (" +" + (Digits(c.dstPos) + ("," + (Digits(c.DstLen()) + " @@")))))))
  }

  function LineTexts(lines: seq<Line>): seq<string> {
    if lines == [] then [] else LineTexts(lines[..|lines| - 1]) + [LineText(lines[|lines| - 1])]
  }

  function ChunkTexts(chunks: seq<Chunk>): seq<string> {
    if chunks == [] then []
    else
      ChunkTexts(chunks[..|chunks| - 1])
      + ([HeaderText(chunks[|chunks| - 1])] + LineTexts(chunks[|chunks| - 1].lines))
  }

  function PatchTexts(patches: seq<Patch>): seq<string> {
    if patches == [] then []
    else
      var p := patches[|patches| - 1];
      PatchTexts(patches[..|patches| - 1]) + (["--- " + p.src, "+++ " + p.dst] + ChunkTexts(p.chunks))
  }

  // --------------------------------------------------------------- reading

  /** The patches so far, and the chunk that lines are added to: its patch and its place
      there. It need not be in the last patch. */
  datatype State = State(patches: seq<Patch>, current: Option<(nat, nat)>)

  predicate WellPlaced(s: State) {
    s.current.Some? ==> s.current.value.0 < |s.patches| && s.current.value.1 < |s.patches[s.current.value.0].chunks|
  }

  function Step(s: State, line: string): (r: Option<State>)
    requires WellPlaced(s)
    ensures r.Some? ==> WellPlaced(r.value)
  {
    Turn(s, Read(line))
  }

  /** None stands for an exception. */
  function Turn(s: State, reading: Reading): (r: Option<State>)
    requires WellPlaced(s)
    ensures r.Some? ==> WellPlaced(r.value)
  {
    var n := |s.patches|;
    match reading
    case SrcFile(name) => Some(s.(patches := s.patches + [Patch(name, "", [])]))
    case DstFile(name) =>
      if n == 0 then None else Some(s.(patches := s.patches[n - 1 := s.patches[n - 1].(dst := name)]))
    case Header(src, dst) =>
      if n == 0 then None
      else
        var p := s.patches[n - 1];
        Some(State(s.patches[n - 1 := p.(chunks := p.chunks + [Chunk(src, dst, [])])], Some((n - 1, |p.chunks|))))
    case Content(l) =>
      if s.current.None? then None else Some(s.(patches := AddLine(s.patches, s.current.value.0, s.current.value.1, l)))
    case Bad => None
  }

  function AddLine(patches: seq<Patch>, i: nat, k: nat, l: Line): seq<Patch>
    requires i < |patches| && k < |patches[i].chunks|
  {
    var p, c := patches[i], patches[i].chunks[k];
    patches[i := p.(chunks := p.chunks[k := c.(lines := c.lines + [l])])]
  }

  /** Where a line raises: one that cannot be read, a name or a header without a patch to
      put it in, and content without a chunk. */
  predicate Raises(s: State, r: Reading) {
    match r
    case SrcFile(_) => false
    case DstFile(_) => s.patches == []
    case Header(_, _) => s.patches == []
    case Content(_) => s.current.None?
    case Bad => true
  }

  /** From patch p, the i-th of n, a line makes q: it may name the last patch's destination,
      add an empty chunk to the last patch, or add itself to the current chunk, and it
      leaves everything else alone. */
  predicate PatchChanges(r: Reading, current: Option<(nat, nat)>, n: nat, i: nat, p: Patch, q: Patch) {
    && q.src == p.src
    && q.dst == (if r.DstFile? && i + 1 == n then r.name else p.dst)
    && |q.chunks| == |p.chunks| + (if r.Header? && i + 1 == n then 1 else 0)
    && (r.Header? && i + 1 == n ==> q.chunks[|p.chunks|] == Chunk(r.src, r.dst, []))
    && forall k | 0 <= k < |p.chunks| ::
         q.chunks[k] == if r.Content? && current == Some((i, k)) then LineAdded(p.chunks[k], r.line) else p.chunks[k]
  }

  function LineAdded(c: Chunk, l: Line): Chunk {
    c.(lines := c.lines + [l])
  }

  /** What one turn of the reader changes, and what it leaves alone. */
  lemma TurnChanges(s: State, r: Reading)
    requires WellPlaced(s)
    ensures Turn(s, r).None? <==> Raises(s, r)
    ensures Turn(s, r).Some? ==>
      var t, n := Turn(s, r).value, |s.patches|;
      && |t.patches| == n + (if r.SrcFile? then 1 else 0)
      && (r.SrcFile? ==> t.patches[n] == Patch(r.name, "", []))
      && (forall i | 0 <= i < n :: PatchChanges(r, s.current, n, i, s.patches[i], t.patches[i]))
      && t.current == if r.Header? then Some((n - 1, |s.patches[n - 1].chunks|)) else s.current
  {}

  function Parsed(lines: seq<string>): (r: Option<State>)
    ensures r.Some? ==> WellPlaced(r.value)
  {
    if lines == [] then Some(State([], None))
    else
      match Parsed(lines[..|lines| - 1])
      case None => None
      case Some(s) => Step(s, lines[|lines| - 1])
  }

  /** One turn of the reader's loop; ok is false where it raises. */
  method ParseLine(patches: seq<Patch>, chunk: Option<(nat, nat)>, line: string)
    returns (ok: bool, patchset: seq<Patch>, current: Option<(nat, nat)>)
    requires WellPlaced(State(patches, chunk))
    ensures ok == Step(State(patches, chunk), line).Some?
    ensures ok ==> Step(State(patches, chunk), line) == Some(State(patchset, current))
  {
    ok, patchset, current := true, patches, chunk;
    var n := |patchset|;
    match Read(line)
    case SrcFile(name) => patchset := patchset + [Patch(name, "", [])];
    case DstFile(name) =>
      if n == 0 {
        ok := false;
      } else {
        patchset := patchset[n - 1 := patchset[n - 1].(dst := name)];
      }
    case Header(src, dst) =>
      if n == 0 {
        ok := false;
      } else {
        var p := patchset[n - 1];
        patchset := patchset[n - 1 := p.(chunks := p.chunks + [Chunk(src, dst, [])])];
        current := Some((n - 1, |p.chunks|));
      }
    case Content(l) =>
      if current.None? {
        ok := false;
      } else {
        patchset := AddLine(patchset, current.value.0, current.value.1, l);
      }
    case Bad => ok := false;
  }

  method ParsePatchset(lines: seq<string>) returns (r: Option<seq<Patch>>)
    ensures r == match Parsed(lines) case None => None case Some(s) => Some(s.patches)
  {
    var patchset: seq<Patch> := [];
    var current: Option<(nat, nat)> := None;
    for i := 0 to |lines|
      invariant WellPlaced(State(patchset, current))
      invariant Parsed(lines[..i]) == Some(State(patchset, current))
    {
      assert lines[..i + 1][..i] == lines[..i];
      var ok;
      ok, patchset, current := ParseLine(patchset, current, lines[i]);
      if !ok {
        Stuck(lines, i + 1);
        return None;
      }
    }
    assert lines[..|lines|] == lines;
    r := Some(patchset);
  }

  lemma {:induction false} Stuck(lines: seq<string>, i: nat)
    requires i <= |lines| && Parsed(lines[..i]) == None
    ensures Parsed(lines) == None
    decreases |lines|
  {
    if i == |lines| {
      assert lines[..i] == lines;
    } else {
      assert lines[..|lines| - 1][..i] == lines[..i];
      Stuck(lines[..|lines| - 1], i);
    }
  }

  /** The content lines since the last header, whatever file names came in between; None
      before any header. */
  function SinceHeader(lines: seq<string>): Option<seq<Line>> {
    if lines == [] then None else Since(SinceHeader(lines[..|lines| - 1]), Read(lines[|lines| - 1]))
  }

  function Since(before: Option<seq<Line>>, r: Reading): Option<seq<Line>> {
    match r
    case Header(_, _) => Some([])
    case Content(l) => if before.None? then None else Some(before.value + [l])
    case _ => before
  }

  /** What the current chunk holds. */
  function Held(s: State): Option<seq<Line>>
    requires WellPlaced(s)
  {
    if s.current.None? then None else Some(s.patches[s.current.value.0].chunks[s.current.value.1].lines)
  }

  lemma TurnHolds(s: State, r: Reading)
    requires WellPlaced(s) && Turn(s, r).Some?
    ensures Held(Turn(s, r).value) == Since(Held(s), r)
  {
    TurnChanges(s, r);
    if s.current.Some? {
      var i := s.current.value.0;
      assert PatchChanges(r, s.current, |s.patches|, i, s.patches[i], Turn(s, r).value.patches[i]);
    }
  }

  /** At every moment the current chunk is the one whose header was read last, and it holds
      exactly the content lines read since. */
  lemma {:induction false} CurrentHoldsSince(lines: seq<string>)
    requires Parsed(lines).Some?
    ensures Held(Parsed(lines).value) == SinceHeader(lines)
  {
    if lines != [] {
      var n := |lines| - 1;
      CurrentHoldsSince(lines[..n]);
      TurnHolds(Parsed(lines[..n]).value, Read(lines[n]));
    }
  }

  // --------------------------------------------------- reading what is written

  /** A removed line that looks like a source name, or an added one that looks like a
      destination name, once written. */
  predicate Misread(l: Line) {
    (l.kind == Removed && StartsWith(l.text, "-- ")) || (l.kind == Added && StartsWith(l.text, "++ "))
  }

  lemma HeaderStartsWithAt(line: string)
    requires ChunkHeader(line).Some?
    ensures line != [] && line[0] == '@'
  {
    assert TakeText(line, "@@ -").Some?;
    assert line[..4] == "@@ -";
    assert line[0] == line[..4][0];
  }

  lemma ReadLine(l: Line)
    requires l.kind != Unset
    ensures !Misread(l) ==> Read(LineText(l)) == Content(l)
    ensures Misread(l) ==> !Read(LineText(l)).Content?
  {
    var s := LineText(l);
    assert s[0] == Sign(l.kind)[0] && s[1..] == l.text;
    assert |s| >= 4 ==> s[..4] == [s[0]] + l.text[..3];
    if ChunkHeader(s).Some? {
      HeaderStartsWithAt(s);
    }
    assert StartsWith(s, "--- ") <==> s[0] == '-' && StartsWith(l.text, "-- ") by {
      assert "--- " == ['-'] + "-- ";
      assert "--- "[0] == '-' && "--- "[1..] == "-- ";
      if |s| >= 4 {
        assert s[..4][0] == s[0] && s[..4][1..] == l.text[..3];
      }
    }
    assert StartsWith(s, "+++ ") <==> s[0] == '+' && StartsWith(l.text, "++ ") by {
      assert "+++ " == ['+'] + "++ ";
      assert "+++ "[0] == '+' && "+++ "[1..] == "++ ";
      if |s| >= 4 {
        assert s[..4][0] == s[0] && s[..4][1..] == l.text[..3];
      }
    }
  }

  lemma FieldOf(prefix: string, n: nat, rest: string)
    requires rest != [] && !IsDigit(rest[0])
    ensures TakeField(Some(prefix + (Digits(n) + rest)), prefix) == Some((n, rest))
  {
    var s := Digits(n) + rest;
    assert (prefix + s)[..|prefix|] == prefix && (prefix + s)[|prefix|..] == s;
    LeadingDigitsOf(n, rest);
    NumberOfDigits(n);
  }

  // ----------------------------------------------------- every line that is read

  ghost predicate IsNumeral(s: string) {
    s != "" && forall i | 0 <= i < |s| :: '0' <= s[i] <= '9'
  }

  /** The line is a chunk header of these four numerals, whatever follows it. */
  ghost predicate IsHeader(line: string, p: string, q: string, r: string, t: string, rest: string) {
    && IsNumeral(p) && IsNumeral(q) && IsNumeral(r) && IsNumeral(t)
    && line == "@@ -" + (p + ("," + (q + (" +" + (r + ("," + (t + (" @@" + rest))))))))
  }

  lemma FieldIsRead(prefix: string, digits: string, rest: string)
    requires IsNumeral(digits) && rest != [] && !IsDigit(rest[0])
    ensures TakeField(Some(prefix + (digits + rest)), prefix) == Some((Number(digits), rest))
  {
    var s := digits + rest;
    assert (prefix + s)[..|prefix|] == prefix && (prefix + s)[|prefix|..] == s;
    LeadingDigitsBefore(digits, rest);
  }

  lemma FieldWasThere(s: string, prefix: string, n: nat, rest: string) returns (digits: string)
    requires TakeField(Some(s), prefix) == Some((n, rest))
    ensures IsNumeral(digits) && s == prefix + (digits + rest) && n == Number(digits)
  {
    var after := s[|prefix|..];
    digits := after[..LeadingDigits(after)];
    assert s == prefix + after && after == digits + after[LeadingDigits(after)..];
  }

  lemma HeaderIsRead(line: string, p: string, q: string, r: string, t: string, rest: string)
    requires IsHeader(line, p, q, r, t, rest)
    ensures ChunkHeader(line) == Some((Number(p), Number(r)))
  {
    var s4 := " @@" + rest;
    var s3 := "," + (t + s4);
    var s2 := " +" + (r + s3);
    var s1 := "," + (q + s2);
    FieldIsRead("@@ -", p, s1);
    FieldIsRead(",", q, s2);
    FieldIsRead(" +", r, s3);
    FieldIsRead(",", t, s4);
    assert s4[..3] == " @@";
  }

  lemma HeaderFields(line: string) returns (a: (nat, string), b: (nat, string), c: (nat, string), d: (nat, string))
    requires ChunkHeader(line).Some?
    ensures TakeField(Some(line), "@@ -") == Some(a) && TakeField(Some(a.1), ",") == Some(b)
    ensures TakeField(Some(b.1), " +") == Some(c) && TakeField(Some(c.1), ",") == Some(d)
    ensures " @@" <= d.1 && ChunkHeader(line) == Some((a.0, c.0))
  {
    a := TakeField(Some(line), "@@ -").value;
    b := TakeField(Some(a.1), ",").value;
    c := TakeField(Some(b.1), " +").value;
    d := TakeField(Some(c.1), ",").value;
  }

  lemma HeaderWasThere(line: string) returns (p: string, q: string, r: string, t: string, rest: string)
    requires ChunkHeader(line).Some?
    ensures IsHeader(line, p, q, r, t, rest) && ChunkHeader(line) == Some((Number(p), Number(r)))
  {
    var a, b, c, d := HeaderFields(line);
    p := FieldWasThere(line, "@@ -", a.0, a.1);
    q := FieldWasThere(a.1, ",", b.0, b.1);
    r := FieldWasThere(b.1, " +", c.0, c.1);
    t := FieldWasThere(c.1, ",", d.0, d.1);
    rest := d.1[3..];
    assert d.1 == " @@" + rest;
  }

  /** Exactly what each line is read as, written or not: headers with any text after them,
      and names and content only where nothing tried before them fits. */
  lemma ReadMeans(line: string, reading: Reading)
    ensures reading.SrcFile? ==> (Read(line) == reading <==> line == "--- " + reading.name)
    ensures reading.DstFile? ==> (Read(line) == reading <==> line == "+++ " + reading.name)
    ensures reading.Header? ==>
      (Read(line) == reading <==>
        exists p, q, r, t, rest ::
          IsHeader(line, p, q, r, t, rest) && reading.src == Number(p) && reading.dst == Number(r))
    ensures reading.Content? && reading.line.kind == Removed ==>
      (Read(line) == reading <==> line == "-" + reading.line.text && !("-- " <= reading.line.text))
    ensures reading.Content? && reading.line.kind == Added ==>
      (Read(line) == reading <==> line == "+" + reading.line.text && !("++ " <= reading.line.text))
    ensures reading.Content? && reading.line.kind == Common ==>
      (Read(line) == reading <==> line == " " + reading.line.text)
    ensures Read(line).Content? ==> Read(line).line.kind != Unset
  {
    if line != "" {
      var first := line[..1];
      assert line == first + line[1..];
    }
    FourOrMore(line, "--- ");
    FourOrMore(line, "+++ ");
    if reading.Header? {
      HeaderMeans(line, reading);
    } else if ChunkHeader(line).Some? {
      HeaderStartsWithAt(line);
    }
    if reading.Content? && reading.line.kind != Unset {
      ContentMeans(line, reading.line);
    }
  }

  lemma HeaderMeans(line: string, reading: Reading)
    requires reading.Header?
    ensures Read(line) == reading <==>
      exists p, q, r, t, rest ::
        IsHeader(line, p, q, r, t, rest) && reading.src == Number(p) && reading.dst == Number(r)
  {
    if ChunkHeader(line).Some? {
      HeaderStartsWithAt(line);
      var p, q, r, t, rest := HeaderWasThere(line);
      assert !StartsWith(line, "--- ") && !StartsWith(line, "+++ ") by {
        NotPrefix(line, "--- ");
        NotPrefix(line, "+++ ");
      }
    }
    forall p, q, r, t, rest | IsHeader(line, p, q, r, t, rest)
      ensures ChunkHeader(line) == Some((Number(p), Number(r)))
    {
      HeaderIsRead(line, p, q, r, t, rest);
    }
  }

  lemma ContentMeans(line: string, l: Line)
    requires l.kind != Unset
    ensures Read(line) == Content(l) <==> line == LineText(l) && !Misread(l)
  {
    ReadLine(l);
    if Read(line) == Content(l) {
      assert line == line[..1] + line[1..];
    }
  }

  lemma FourOrMore(line: string, prefix: string)
    ensures StartsWith(line, prefix) <==> prefix <= line
    ensures StartsWith(line, prefix) ==> line == prefix + line[|prefix|..]
    ensures forall name: string :: line == prefix + name ==> StartsWith(line, prefix) && line[|prefix|..] == name
  {}

  lemma ReadHeader(c: Chunk)
    ensures Read(HeaderText(c)) == Header(c.srcPos, c.dstPos)
  {
    var s4 := " @@";
    var s3 := "," + (Digits(c.DstLen()) + s4);
    var s2 := " +" + (Digits(c.dstPos) + s3);
    var s1 := "," + (Digits(c.SrcLen()) + s2);
    FieldOf("@@ -", c.srcPos, s1);
    FieldOf(",", c.SrcLen(), s2);
    FieldOf(" +", c.dstPos, s3);
    FieldOf(",", c.DstLen(), s4);
    assert ChunkHeader(HeaderText(c)) == Some((c.srcPos, c.dstPos));
    HeaderStartsWithAt(HeaderText(c));
    assert HeaderText(c)[0] == '@';
    assert "--- "[0] == '-' && "+++ "[0] == '+';
    NotPrefix(HeaderText(c), "--- ");
    NotPrefix(HeaderText(c), "+++ ");
  }

  /** The written header: positions and lengths in their places, a length counting the lines
      of its side and the common ones. */
  lemma HeaderIsWritten(c: Chunk)
    ensures IsHeader(HeaderText(c), Digits(c.srcPos), Digits(c.SrcLen()), Digits(c.dstPos), Digits(c.DstLen()), "")
    ensures c.SrcLen() == |set i: nat | i < |c.lines| && c.lines[i].kind in {Removed, Common}|
    ensures c.DstLen() == |set i: nat | i < |c.lines| && c.lines[i].kind in {Added, Common}|
  {
    assert " @@" + "" == " @@";
    CountsSide(c.lines, Removed);
    CountsSide(c.lines, Added);
    var src, dst := OnSide(c.lines, Removed), OnSide(c.lines, Added);
    assert src == set i: nat | i < |c.lines| && c.lines[i].kind in {Removed, Common};
    assert dst == set i: nat | i < |c.lines| && c.lines[i].kind in {Added, Common};
  }

  ghost function OnSide(lines: seq<Line>, side: Kind): set<nat> {
    set i: nat | i < |lines| && (lines[i].kind == side || lines[i].kind == Common)
  }

  lemma {:induction false} CountsSide(lines: seq<Line>, side: Kind)
    ensures CountSides(lines, side) == |OnSide(lines, side)|
  {
    if lines != [] {
      var n := |lines| - 1;
      CountsSide(lines[..n], side);
      OneMoreOnSide(lines, side);
      assert n !in OnSide(lines[..n], side);
    }
  }

  lemma OneMoreOnSide(lines: seq<Line>, side: Kind)
    requires lines != []
    ensures var n := |lines| - 1;
      OnSide(lines, side) == OnSide(lines[..n], side) +
        if lines[n].kind == side || lines[n].kind == Common then {n} else {}
  {}

  lemma NotPrefix(s: string, prefix: string)
    requires s != [] && prefix != [] && s[0] != prefix[0]
    ensures !StartsWith(s, prefix)
  {
    if |s| >= |prefix| {
      assert s[..|prefix|][0] == s[0];
    }
  }

  lemma ReadNames(name: string)
    ensures Read("--- " + name) == SrcFile(name)
    ensures Read("+++ " + name) == DstFile(name)
  {
    assert ("--- " + name)[..4] == "--- " && ("--- " + name)[4..] == name;
    assert ("+++ " + name)[..4] == "+++ " && ("+++ " + name)[4..] == name;
    assert "--- "[0] == '-' && ("+++ " + name)[0] == '+';
    NotPrefix("+++ " + name, "--- ");
  }

  ghost predicate SetLines(lines: seq<Line>) {
    forall i | 0 <= i < |lines| :: lines[i].kind != Unset
  }

  ghost predicate SetChunks(chunks: seq<Chunk>) {
    forall i | 0 <= i < |chunks| :: SetLines(chunks[i].lines)
  }

  /** Every line was given a side. */
  ghost predicate SetPatches(patches: seq<Patch>) {
    forall i | 0 <= i < |patches| :: SetChunks(patches[i].chunks)
  }

  ghost predicate CleanLines(lines: seq<Line>) {
    forall i | 0 <= i < |lines| :: !Misread(lines[i])
  }

  ghost predicate CleanChunks(chunks: seq<Chunk>) {
    forall i | 0 <= i < |chunks| :: CleanLines(chunks[i].lines)
  }

  /** No removed line begins with "-- " and no added line with "++ ". */
  ghost predicate CleanPatches(patches: seq<Patch>) {
    forall i | 0 <= i < |patches| :: CleanChunks(patches[i].chunks)
  }

  lemma OneMore(before: seq<string>, line: string, s: State)
    requires Parsed(before) == Some(s)
    ensures Parsed(before + [line]) == Step(s, line)
  {
    assert (before + [line])[..|before|] == before;
  }

  /** The state just after a chunk of the last patch has got its first lines. */
  function InChunk(done: seq<Patch>, src: string, dst: string, chunks: seq<Chunk>, a: nat, b: nat,
                   lines: seq<Line>): State
  {
    State(done + [Patch(src, dst, chunks + [Chunk(a, b, lines)])], Some((|done|, |chunks|)))
  }

  lemma {:induction false} LinesComeBack(before: seq<string>, done: seq<Patch>, src: string, dst: string,
                                         chunks: seq<Chunk>, a: nat, b: nat, lines: seq<Line>)
    requires SetLines(lines) && CleanLines(lines)
    requires Parsed(before) == Some(InChunk(done, src, dst, chunks, a, b, []))
    ensures Parsed(before + LineTexts(lines)) == Some(InChunk(done, src, dst, chunks, a, b, lines))
    decreases |lines|
  {
    if lines == [] {
      assert before + LineTexts(lines) == before;
    } else {
      var n := |lines| - 1;
      LinesComeBack(before, done, src, dst, chunks, a, b, lines[..n]);
      LastIsAdded(lines);
      LineComesBack(before + LineTexts(lines[..n]), done, src, dst, chunks, a, b, lines[..n], lines[n], lines);
      LineTextsSplit(before, lines);
    }
  }

  lemma LineTextsSplit(before: seq<string>, lines: seq<Line>)
    requires lines != []
    ensures before + LineTexts(lines)
         == before + LineTexts(lines[..|lines| - 1]) + [LineText(lines[|lines| - 1])]
  {
    Regroup(before, LineTexts(lines[..|lines| - 1]), [LineText(lines[|lines| - 1])]);
  }

  lemma Regroup(a: seq<string>, b: seq<string>, c: seq<string>)
    ensures a + (b + c) == a + b + c
  {}

  lemma LastIsAdded(lines: seq<Line>)
    requires lines != []
    ensures lines == lines[..|lines| - 1] + [lines[|lines| - 1]]
  {}

  lemma LineComesBack(before: seq<string>, done: seq<Patch>, src: string, dst: string, chunks: seq<Chunk>,
                      a: nat, b: nat, lines: seq<Line>, l: Line, more: seq<Line>)
    requires more == lines + [l]
    requires l.kind != Unset && !Misread(l)
    requires Parsed(before) == Some(InChunk(done, src, dst, chunks, a, b, lines))
    ensures Parsed(before + [LineText(l)]) == Some(InChunk(done, src, dst, chunks, a, b, more))
  {
    OneMore(before, LineText(l), InChunk(done, src, dst, chunks, a, b, lines));
    ReadLine(l);
    AddedLine(done, src, dst, chunks, a, b, lines, l);
  }

  lemma AddedLine(done: seq<Patch>, src: string, dst: string, chunks: seq<Chunk>, a: nat, b: nat, lines: seq<Line>,
                  l: Line)
    ensures AddLine(InChunk(done, src, dst, chunks, a, b, lines).patches, |done|, |chunks|, l)
         == InChunk(done, src, dst, chunks, a, b, lines + [l]).patches
  {
    var c := Chunk(a, b, lines + [l]);
    assert (chunks + [Chunk(a, b, lines)])[|chunks| := c] == chunks + [c];
    assert (done + [Patch(src, dst, chunks + [Chunk(a, b, lines)])])[|done| := Patch(src, dst, chunks + [c])]
        == done + [Patch(src, dst, chunks + [c])];
  }

  lemma HeaderComesBack(before: seq<string>, done: seq<Patch>, src: string, dst: string, chunks: seq<Chunk>, c: Chunk)
    requires Parsed(before).Some? && Parsed(before).value.patches == done + [Patch(src, dst, chunks)]
    ensures Parsed(before + [HeaderText(c)]) == Some(InChunk(done, src, dst, chunks, c.srcPos, c.dstPos, []))
  {
    var s := Parsed(before).value;
    OneMore(before, HeaderText(c), s);
    ReadHeader(c);
    var p := Patch(src, dst, chunks + [Chunk(c.srcPos, c.dstPos, [])]);
    assert s.patches[|s.patches| - 1 := p] == done + [p];
  }

  lemma NamesComeBack(before: seq<string>, done: seq<Patch>, src: string, dst: string)
    requires Parsed(before).Some? && Parsed(before).value.patches == done
    ensures var named := before + ["--- " + src] + ["+++ " + dst];
      Parsed(named).Some? && Parsed(named).value.patches == done + [Patch(src, dst, [])]
  {
    var s := Parsed(before).value;
    ReadNames(src);
    OneMore(before, "--- " + src, s);
    var t := s.(patches := done + [Patch(src, "", [])]);
    ReadNames(dst);
    OneMore(before + ["--- " + src], "+++ " + dst, t);
    assert t.patches[|done| := Patch(src, dst, [])] == done + [Patch(src, dst, [])];
  }

  lemma {:induction false} ChunksComeBack(before: seq<string>, done: seq<Patch>, src: string, dst: string,
                                          chunks: seq<Chunk>)
    requires SetChunks(chunks) && CleanChunks(chunks)
    requires Parsed(before).Some? && Parsed(before).value.patches == done + [Patch(src, dst, [])]
    ensures Parsed(before + ChunkTexts(chunks)).Some?
    ensures Parsed(before + ChunkTexts(chunks)).value.patches == done + [Patch(src, dst, chunks)]
    decreases |chunks|
  {
    if chunks == [] {
      assert before + ChunkTexts(chunks) == before;
    } else {
      var front, last := chunks[..|chunks| - 1], chunks[|chunks| - 1];
      assert front + [last] == chunks;
      ChunkTextsSplit(before, front, last);
      ChunksComeBack(before, done, src, dst, front);
      var soFar := before + ChunkTexts(front);
      HeaderComesBack(soFar, done, src, dst, front, last);
      LinesComeBack(soFar + [HeaderText(last)], done, src, dst, front, last.srcPos, last.dstPos, last.lines);
    }
  }

  lemma ChunkTextsSplit(before: seq<string>, front: seq<Chunk>, last: Chunk)
    ensures before + ChunkTexts(front + [last])
         == before + ChunkTexts(front) + [HeaderText(last)] + LineTexts(last.lines)
  {
    assert (front + [last])[..|front|] == front;
  }

  lemma PatchTextsSplit(front: seq<Patch>, p: Patch)
    ensures PatchTexts(front + [p])
         == PatchTexts(front) + ["--- " + p.src] + ["+++ " + p.dst] + ChunkTexts(p.chunks)
  {
    assert (front + [p])[..|front|] == front;
  }

  /** Clean patches come back as they were. */
  lemma {:induction false} PatchesComeBack(patches: seq<Patch>)
    requires SetPatches(patches) && CleanPatches(patches)
    ensures Parsed(PatchTexts(patches)).Some? && Parsed(PatchTexts(patches)).value.patches == patches
    decreases |patches|
  {
    if patches != [] {
      var front, p := patches[..|patches| - 1], patches[|patches| - 1];
      assert front + [p] == patches;
      PatchTextsSplit(front, p);
      PatchesComeBack(front);
      var soFar := PatchTexts(front);
      NamesComeBack(soFar, front, p.src, p.dst);
      var named := soFar + ["--- " + p.src] + ["+++ " + p.dst];
      ChunksComeBack(named, front, p.src, p.dst, p.chunks);
    }
  }

  // ---------------------------------------------------------- the converse

  function LinesIn(chunks: seq<Chunk>): nat {
    if chunks == [] then 0 else LinesIn(chunks[..|chunks| - 1]) + |chunks[|chunks| - 1].lines|
  }

  function LinesOf(patches: seq<Patch>): nat {
    if patches == [] then 0 else LinesOf(patches[..|patches| - 1]) + LinesIn(patches[|patches| - 1].chunks)
  }

  /** Lines read as content. */
  function Contents(lines: seq<string>): nat {
    if lines == [] then 0 else Contents(lines[..|lines| - 1]) + if Read(lines[|lines| - 1]).Content? then 1 else 0
  }

  lemma {:induction false} ContentsAppend(a: seq<string>, b: seq<string>)
    ensures Contents(a + b) == Contents(a) + Contents(b)
    decreases |b|
  {
    if b == [] {
      assert a + b == a;
    } else {
      ContentsAppend(a, b[..|b| - 1]);
      assert (a + b)[..|a + b| - 1] == a + b[..|b| - 1];
    }
  }

  lemma {:induction false} LinesInUpdate(chunks: seq<Chunk>, k: nat, c: Chunk)
    requires k < |chunks|
    ensures LinesIn(chunks[k := c]) == LinesIn(chunks) - |chunks[k].lines| + |c.lines|
    decreases |chunks|
  {
    var n := |chunks| - 1;
    if k < n {
      LinesInUpdate(chunks[..n], k, c);
      assert chunks[k := c][..n] == chunks[..n][k := c];
    } else {
      assert chunks[k := c][..n] == chunks[..n];
    }
  }

  lemma {:induction false} LinesOfUpdate(patches: seq<Patch>, i: nat, p: Patch)
    requires i < |patches|
    ensures LinesOf(patches[i := p]) == LinesOf(patches) - LinesIn(patches[i].chunks) + LinesIn(p.chunks)
    decreases |patches|
  {
    var n := |patches| - 1;
    if i < n {
      LinesOfUpdate(patches[..n], i, p);
      assert patches[i := p][..n] == patches[..n][i := p];
    } else {
      assert patches[i := p][..n] == patches[..n];
    }
  }

  lemma StepCounts(s: State, line: string)
    requires WellPlaced(s) && Step(s, line).Some?
    ensures LinesOf(Step(s, line).value.patches) == LinesOf(s.patches) + if Read(line).Content? then 1 else 0
  {
    var n := |s.patches| - 1;
    match Read(line)
    case SrcFile(name) =>
      assert (s.patches + [Patch(name, "", [])])[..|s.patches|] == s.patches;
    case DstFile(name) => LinesOfUpdate(s.patches, n, s.patches[n].(dst := name));
    case Header(src, dst) =>
      var chunks := s.patches[n].chunks;
      assert (chunks + [Chunk(src, dst, [])])[..|chunks|] == chunks;
      LinesOfUpdate(s.patches, n, s.patches[n].(chunks := chunks + [Chunk(src, dst, [])]));
    case Content(l) =>
      var i, k := s.current.value.0, s.current.value.1;
      var p := s.patches[i];
      var c := p.chunks[k].(lines := p.chunks[k].lines + [l]);
      LinesInUpdate(p.chunks, k, c);
      LinesOfUpdate(s.patches, i, p.(chunks := p.chunks[k := c]));
  }

  /** What was read holds as many lines as were read as content. */
  lemma {:induction false} ParsedCounts(lines: seq<string>)
    requires Parsed(lines).Some?
    ensures LinesOf(Parsed(lines).value.patches) == Contents(lines)
  {
    if lines != [] {
      var front := lines[..|lines| - 1];
      ParsedCounts(front);
      StepCounts(Parsed(front).value, lines[|lines| - 1]);
    }
  }

  lemma ContentsOne(line: string)
    ensures Contents([line]) == if Read(line).Content? then 1 else 0
  {
    assert [line][..0] == [];
  }

  /** Only the lines of a chunk can be content. */
  lemma ChunkContents(c: Chunk)
    requires SetLines(c.lines)
    ensures Contents([HeaderText(c)] + LineTexts(c.lines)) <= |c.lines|
    ensures Contents([HeaderText(c)] + LineTexts(c.lines)) == |c.lines| ==> CleanLines(c.lines)
  {
    ReadHeader(c);
    ContentsOne(HeaderText(c));
    ContentsAppend([HeaderText(c)], LineTexts(c.lines));
    LineTextsCount(c.lines);
  }

  lemma PatchContents(p: Patch)
    requires SetChunks(p.chunks)
    ensures Contents(["--- " + p.src, "+++ " + p.dst] + ChunkTexts(p.chunks)) <= LinesIn(p.chunks)
    ensures Contents(["--- " + p.src, "+++ " + p.dst] + ChunkTexts(p.chunks)) == LinesIn(p.chunks) ==>
      CleanChunks(p.chunks)
  {
    ReadNames(p.src);
    ReadNames(p.dst);
    ContentsOne("--- " + p.src);
    ContentsOne("+++ " + p.dst);
    ContentsAppend(["--- " + p.src], ["+++ " + p.dst]);
    assert ["--- " + p.src] + ["+++ " + p.dst] == ["--- " + p.src, "+++ " + p.dst];
    ContentsAppend(["--- " + p.src, "+++ " + p.dst], ChunkTexts(p.chunks));
    ChunkTextsCount(p.chunks);
  }

  lemma {:induction false} LineTextsCount(lines: seq<Line>)
    requires SetLines(lines)
    ensures Contents(LineTexts(lines)) <= |lines|
    ensures Contents(LineTexts(lines)) == |lines| ==> CleanLines(lines)
  {
    if lines != [] {
      var front, last := lines[..|lines| - 1], lines[|lines| - 1];
      LineTextsCount(front);
      ReadLine(last);
      assert LineTexts(lines)[..|LineTexts(lines)| - 1] == LineTexts(front);
      if CleanLines(front) && !Misread(last) {
        assert forall i | 0 <= i < |lines| :: i < |front| ==> lines[i] == front[i];
      }
    }
  }

  lemma CleanChunksSplit(chunks: seq<Chunk>)
    requires chunks != []
    ensures CleanChunks(chunks[..|chunks| - 1]) && CleanLines(chunks[|chunks| - 1].lines) ==> CleanChunks(chunks)
  {
    var front := chunks[..|chunks| - 1];
    assert forall i | 0 <= i < |chunks| :: i < |front| ==> chunks[i] == front[i];
  }

  lemma CleanPatchesSplit(patches: seq<Patch>)
    requires patches != []
    ensures CleanPatches(patches[..|patches| - 1]) && CleanChunks(patches[|patches| - 1].chunks) ==>
      CleanPatches(patches)
  {
    var front := patches[..|patches| - 1];
    assert forall i | 0 <= i < |patches| :: i < |front| ==> patches[i] == front[i];
  }

  lemma {:induction false} ChunkTextsCount(chunks: seq<Chunk>)
    requires SetChunks(chunks)
    ensures Contents(ChunkTexts(chunks)) <= LinesIn(chunks)
    ensures Contents(ChunkTexts(chunks)) == LinesIn(chunks) ==> CleanChunks(chunks)
  {
    if chunks != [] {
      var front, last := chunks[..|chunks| - 1], chunks[|chunks| - 1];
      ChunkTextsCount(front);
      ChunkContents(last);
      ContentsAppend(ChunkTexts(front), [HeaderText(last)] + LineTexts(last.lines));
      CleanChunksSplit(chunks);
    }
  }

  lemma {:induction false} PatchTextsCount(patches: seq<Patch>)
    requires SetPatches(patches)
    ensures Contents(PatchTexts(patches)) <= LinesOf(patches)
    ensures Contents(PatchTexts(patches)) == LinesOf(patches) ==> CleanPatches(patches)
  {
    if patches != [] {
      var front, p := patches[..|patches| - 1], patches[|patches| - 1];
      PatchTextsCount(front);
      PatchContents(p);
      ContentsAppend(PatchTexts(front), ["--- " + p.src, "+++ " + p.dst] + ChunkTexts(p.chunks));
      CleanPatchesSplit(patches);
    }
  }

  /** A written patch set is read back as it was if and only if no removed line begins
      with "-- " and no added line begins with "++ ". */
  lemma RoundTrip(patches: seq<Patch>)
    requires SetPatches(patches)
    ensures (Parsed(PatchTexts(patches)).Some? && Parsed(PatchTexts(patches)).value.patches == patches)
       <==> CleanPatches(patches)
  {
    if CleanPatches(patches) {
      PatchesComeBack(patches);
    } else {
      PatchTextsCount(patches);
      if Parsed(PatchTexts(patches)).Some? {
        ParsedCounts(PatchTexts(patches));
      }
    }
  }

  // ------------------------------------------------------------------ text

  /** The lines of a file, each ended by a newline. */
  function Joined(lines: seq<string>): string {
    if lines == [] then "" else Joined(lines[..|lines| - 1]) + (lines[|lines| - 1] + "\n")
  }

  /** Reading a file line by line, without the line ends; the last line may lack one. */
  function SplitLines(text: string): seq<string> {
    if text == "" then []
    else
      var n := LineLength(text);
      [text[..n]] + if n < |text| then SplitLines(text[n + 1..]) else []
  }

  function LineLength(text: string): (n: nat)
    ensures n <= |text| && '\n' !in text[..n] && (n < |text| ==> text[n] == '\n')
  {
    if text == "" || text[0] == '\n' then 0 else 1 + LineLength(text[1..])
  }

  lemma {:induction false} SplitFirst(line: string, rest: string)
    requires '\n' !in line
    ensures SplitLines(line + "\n" + rest) == [line] + SplitLines(rest)
  {
    var text := line + "\n" + rest;
    LineLengthIs(line, rest);
    assert text[..|line|] == line && text[|line| + 1..] == rest;
  }

  lemma {:induction false} LineLengthIs(line: string, rest: string)
    requires '\n' !in line
    ensures LineLength(line + "\n" + rest) == |line|
  {
    if line == "" {
      assert (line + "\n" + rest)[0] == '\n';
    } else {
      LineLengthIs(line[1..], rest);
      assert (line + "\n" + rest)[1..] == line[1..] + "\n" + rest;
      assert line[0] in line;
    }
  }

  lemma {:induction false} JoinedAppend(a: seq<string>, b: seq<string>)
    ensures Joined(a + b) == Joined(a) + Joined(b)
    decreases |b|
  {
    if b == [] {
      assert a + b == a;
    } else {
      JoinedAppend(a, b[..|b| - 1]);
      assert (a + b)[..|a + b| - 1] == a + b[..|b| - 1];
    }
  }

  lemma JoinedFirst(lines: seq<string>)
    requires lines != []
    ensures Joined(lines) == lines[0] + "\n" + Joined(lines[1..])
  {
    assert lines == [lines[0]] + lines[1..];
    JoinedAppend([lines[0]], lines[1..]);
    JoinedLast([], lines[0]);
    assert [] + [lines[0]] == [lines[0]];
  }

  /** Splitting undoes joining. */
  lemma {:induction false} SplitJoined(lines: seq<string>)
    requires forall i | 0 <= i < |lines| :: '\n' !in lines[i]
    ensures SplitLines(Joined(lines)) == lines
    decreases |lines|
  {
    if lines != [] {
      JoinedFirst(lines);
      SplitFirst(lines[0], Joined(lines[1..]));
      SplitJoined(lines[1..]);
    }
  }

  /** One line with its sign; None stands for the exception on a line without a side. */
  method WriteLine(l: Line) returns (r: Option<string>)
    ensures r == if l.kind == Unset then None else Some(LineText(l) + "\n")
  {
    match l.kind
    case Removed => r := Some("-" + l.text + "\n");
    case Added => r := Some("+" + l.text + "\n");
    case Common => r := Some(" " + l.text + "\n");
    case Unset => r := None;
  }

  /** One more line, unless it has no side. */
  lemma NextLine(lines: seq<Line>, i: nat)
    requires i < |lines|
    ensures SetLines(lines[..i + 1]) <==> SetLines(lines[..i]) && lines[i].kind != Unset
    ensures lines[i].kind == Unset ==> !SetLines(lines)
  {
    assert lines[..i + 1][i] == lines[i] && forall k | 0 <= k < i :: lines[..i + 1][k] == lines[..i][k];
  }

  lemma NextLineText(lines: seq<Line>, i: nat)
    requires i < |lines|
    ensures Joined(LineTexts(lines[..i + 1])) == Joined(LineTexts(lines[..i])) + (LineText(lines[i]) + "\n")
  {
    assert lines[..i + 1][..i] == lines[..i];
    JoinedLast(LineTexts(lines[..i]), LineText(lines[i]));
  }

  method WriteLines(lines: seq<Line>) returns (r: Option<string>)
    ensures r == if SetLines(lines) then Some(Joined(LineTexts(lines))) else None
  {
    var text := "";
    for i := 0 to |lines|
      invariant SetLines(lines[..i]) && text == Joined(LineTexts(lines[..i]))
    {
      NextLine(lines, i);
      NextLineText(lines, i);
      var l := WriteLine(lines[i]);
      if l.None? {
        return None;
      }
      text := text + l.value;
    }
    assert lines[..|lines|] == lines;
    r := Some(text);
  }

  lemma JoinedLast(lines: seq<string>, line: string)
    ensures Joined(lines + [line]) == Joined(lines) + (line + "\n")
  {
    assert (lines + [line])[..|lines|] == lines;
  }

  lemma JoinedChunk(before: seq<Chunk>, c: Chunk)
    ensures Joined(ChunkTexts(before + [c]))
         == Joined(ChunkTexts(before)) + ChunkText(c)
  {
    var texts := [HeaderText(c)] + LineTexts(c.lines);
    assert (before + [c])[..|before|] == before;
    JoinedAppend(ChunkTexts(before), texts);
    JoinedFirst(texts);
    assert texts[1..] == LineTexts(c.lines);
  }

  /** One more chunk, unless one of its lines has no side. */
  lemma NextChunk(chunks: seq<Chunk>, i: nat)
    requires i < |chunks|
    ensures SetChunks(chunks[..i + 1]) <==> SetChunks(chunks[..i]) && SetLines(chunks[i].lines)
    ensures !SetLines(chunks[i].lines) ==> !SetChunks(chunks)
  {
    assert chunks[..i + 1][i] == chunks[i] && forall k | 0 <= k < i :: chunks[..i + 1][k] == chunks[..i][k];
  }

  lemma NextChunkText(chunks: seq<Chunk>, i: nat)
    requires i < |chunks|
    ensures Joined(ChunkTexts(chunks[..i + 1])) == Joined(ChunkTexts(chunks[..i])) + ChunkText(chunks[i])
  {
    JoinedChunk(chunks[..i], chunks[i]);
    assert chunks[..i + 1] == chunks[..i] + [chunks[i]];
  }

  function ChunkText(c: Chunk): string {
    HeaderText(c) + "\n" + Joined(LineTexts(c.lines))
  }

  /** The text of a chunk, header first. */
  method WriteChunk(c: Chunk) returns (r: Option<string>)
    ensures r == if SetLines(c.lines) then Some(ChunkText(c)) else None
  {
    var lines := WriteLines(c.lines);
    r := if lines.None? then None else Some(HeaderText(c) + "\n" + lines.value);
  }

  method WriteChunks(chunks: seq<Chunk>) returns (r: Option<string>)
    ensures r == if SetChunks(chunks) then Some(Joined(ChunkTexts(chunks))) else None
  {
    var text := "";
    for i := 0 to |chunks|
      invariant SetChunks(chunks[..i]) && text == Joined(ChunkTexts(chunks[..i]))
    {
      NextChunk(chunks, i);
      NextChunkText(chunks, i);
      var c := WriteChunk(chunks[i]);
      if c.None? {
        return None;
      }
      text := text + c.value;
    }
    assert chunks[..|chunks|] == chunks;
    r := Some(text);
  }

  function PatchText(p: Patch): string {
    ("--- " + p.src) + "\n" + (("+++ " + p.dst) + "\n" + Joined(ChunkTexts(p.chunks)))
  }

  lemma JoinedPatch(before: seq<Patch>, p: Patch)
    ensures Joined(PatchTexts(before + [p])) == Joined(PatchTexts(before)) + PatchText(p)
  {
    var texts := ["--- " + p.src, "+++ " + p.dst] + ChunkTexts(p.chunks);
    assert (before + [p])[..|before|] == before;
    JoinedAppend(PatchTexts(before), texts);
    JoinedFirst(texts);
    JoinedFirst(texts[1..]);
    assert texts[1..][1..] == ChunkTexts(p.chunks);
  }

  /** One more patch, unless one of its lines has no side. */
  lemma NextPatch(patches: seq<Patch>, i: nat)
    requires i < |patches|
    ensures SetPatches(patches[..i + 1]) <==> SetPatches(patches[..i]) && SetChunks(patches[i].chunks)
    ensures !SetChunks(patches[i].chunks) ==> !SetPatches(patches)
  {
    assert patches[..i + 1][i] == patches[i] && forall k | 0 <= k < i :: patches[..i + 1][k] == patches[..i][k];
  }

  lemma NextPatchText(patches: seq<Patch>, i: nat)
    requires i < |patches|
    ensures Joined(PatchTexts(patches[..i + 1])) == Joined(PatchTexts(patches[..i])) + PatchText(patches[i])
  {
    JoinedPatch(patches[..i], patches[i]);
    assert patches[..i + 1] == patches[..i] + [patches[i]];
  }

  /** The text of a patch, file names first. */
  method WritePatch(p: Patch) returns (r: Option<string>)
    ensures r == if SetChunks(p.chunks) then Some(PatchText(p)) else None
  {
    var chunks := WriteChunks(p.chunks);
    r := if chunks.None? then None
         else Some(("--- " + p.src) + "\n" + (("+++ " + p.dst) + "\n" + chunks.value));
  }

  method WritePatches(patches: seq<Patch>) returns (r: Option<string>)
    ensures r == if SetPatches(patches) then Some(Joined(PatchTexts(patches))) else None
  {
    var text := "";
    for i := 0 to |patches|
      invariant SetPatches(patches[..i]) && text == Joined(PatchTexts(patches[..i]))
    {
      NextPatch(patches, i);
      NextPatchText(patches, i);
      var p := WritePatch(patches[i]);
      if p.None? {
        return None;
      }
      text := text + p.value;
    }
    assert patches[..|patches|] == patches;
    r := Some(text);
  }

  predicate NoNewline(s: string) { '\n' !in s }

  predicate PlainLines(lines: seq<Line>) {
    forall i | 0 <= i < |lines| :: NoNewline(lines[i].text)
  }

  predicate PlainChunks(chunks: seq<Chunk>) {
    forall i | 0 <= i < |chunks| :: PlainLines(chunks[i].lines)
  }

  /** No name and no line holds a newline. */
  predicate PlainPatches(patches: seq<Patch>) {
    forall i | 0 <= i < |patches| ::
      NoNewline(patches[i].src) && NoNewline(patches[i].dst) && PlainChunks(patches[i].chunks)
  }

  predicate PlainTexts(texts: seq<string>) {
    forall i | 0 <= i < |texts| :: NoNewline(texts[i])
  }

  lemma {:induction false} LinesArePlain(lines: seq<Line>)
    requires PlainLines(lines)
    ensures PlainTexts(LineTexts(lines))
  {
    if lines != [] {
      LinesArePlain(lines[..|lines| - 1]);
    }
  }

  lemma HeaderIsPlain(c: Chunk)
    ensures NoNewline(HeaderText(c))
  {
    forall n: nat
      ensures NoNewline(Digits(n))
    {
      assert forall i | 0 <= i < |Digits(n)| :: IsDigit(Digits(n)[i]);
    }
  }

  lemma {:induction false} ChunksArePlain(chunks: seq<Chunk>)
    requires PlainChunks(chunks)
    ensures PlainTexts(ChunkTexts(chunks))
  {
    if chunks != [] {
      ChunksArePlain(chunks[..|chunks| - 1]);
      HeaderIsPlain(chunks[|chunks| - 1]);
      LinesArePlain(chunks[|chunks| - 1].lines);
    }
  }

  lemma {:induction false} PatchesArePlain(patches: seq<Patch>)
    requires PlainPatches(patches)
    ensures PlainTexts(PatchTexts(patches))
  {
    if patches != [] {
      PatchesArePlain(patches[..|patches| - 1]);
      ChunksArePlain(patches[|patches| - 1].chunks);
    }
  }

  /** Writing a patch set to a file and parsing the file gives it back if and only if no
      removed line begins with "-- " and no added line begins with "++ "; writing raises
      exactly when some line has no side. */
  method WriteAndParse(patches: seq<Patch>) returns (written: Option<string>, r: Option<seq<Patch>>)
    requires PlainPatches(patches)
    ensures written.Some? <==> SetPatches(patches)
    ensures written.Some? ==> (r == Some(patches) <==> CleanPatches(patches))
  {
    written := WritePatches(patches);
    if written.None? {
      return written, None;
    }
    PatchesArePlain(patches);
    SplitJoined(PatchTexts(patches));
    r := ParsePatchset(SplitLines(written.value));
    RoundTrip(patches);
  }
}
