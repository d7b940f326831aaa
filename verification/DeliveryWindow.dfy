/** The data side of the path sensor: bytes committed and completed by the target flow,
    the running minimum that stands for a whole window of backlogs, and the smoothed
    delivery rate. */
module DeliveryWindow {
  import opened Sequences

  // -------------------------------------------------------------- reference

  /** m is the least of the values. */
  predicate IsLeast(m: int, values: seq<int>) {
    m in values && forall v | v in values :: m <= v
  }

  lemma LeastOfMore(m: int, values: seq<int>, v: int)
    requires IsLeast(m, values)
    ensures IsLeast(if v < m then v else m, values + [v])
  {
    assert (values + [v])[|values|] == v;
  }

  /** The smoothed rate after a history of valid raw rates, oldest first: each rate moves it
      by the fraction beta of the way. */
  ghost function Smoothed(beta: real, rates: seq<real>): real
    requires rates != []
  {
    if |rates| == 1 then rates[0]
    else
      var before := Smoothed(beta, rates[..|rates| - 1]);
      before + beta * (rates[|rates| - 1] - before)
  }

  lemma NotNegative(a: real, b: real, product: real)
    requires a >= 0.0 && b >= 0.0 && product == a * b
    ensures product >= 0.0
  {}

  /** Part of the way from x to y does not leave the range of the two. */
  lemma PartOfTheWay(beta: real, x: real, y: real, low: real, high: real)
    requires 0.0 <= beta <= 1.0 && low <= x <= high && low <= y <= high
    ensures low <= x + beta * (y - x) <= high
  {
    MovedBy(beta, x, y);
    NotNegative(beta, y - low, beta * y - beta * low);
    NotNegative(1.0 - beta, x - low, x - beta * x - (low - beta * low));
    NotNegative(beta, high - y, beta * high - beta * y);
    NotNegative(1.0 - beta, high - x, high - beta * high - (x - beta * x));
  }

  ghost function Product(a: real, x: real): real { a * x }

  ghost function Power(x: real, n: nat): real {
    if n == 0 then 1.0 else Product(x, Power(x, n - 1))
  }

  /** What the k-th of n rates weighs: the newest beta, each one before it 1 - beta times the
      next, and the oldest all that is left. */
  ghost function WeightOf(beta: real, n: nat, k: nat): real
    requires k < n
  {
    if k == 0 then Power(1.0 - beta, n - 1) else Product(beta, Power(1.0 - beta, n - 1 - k))
  }

  ghost function Weighted(beta: real, rates: seq<real>): seq<real> {
    seq(|rates|, k requires 0 <= k < |rates| => Product(WeightOf(beta, |rates|, k), rates[k]))
  }

  lemma OlderWeighsLess(beta: real, n: nat, k: nat, rate: real)
    requires k < n
    ensures Product(WeightOf(beta, n + 1, k), rate) == Product(1.0 - beta, Product(WeightOf(beta, n, k), rate))
  {
    var p := Power(1.0 - beta, n - 1 - k);
    assert Power(1.0 - beta, n - k) == Product(1.0 - beta, p);
    if k == 0 {
      Reorder(1.0 - beta, 1.0, p, rate);
    } else {
      Reorder(1.0 - beta, beta, p, rate);
    }
  }

  lemma Reorder(a: real, b: real, p: real, r: real)
    ensures Product(1.0, p) == p
    ensures Product(Product(b, Product(a, p)), r) == Product(a, Product(Product(b, p), r))
    ensures Product(Product(a, p), r) == Product(a, Product(p, r))
  {
    assert (b * (a * p)) * r == a * ((b * p) * r);
  }

  lemma {:induction false} SumOfProducts(a: real, s: seq<real>, t: seq<real>)
    requires |s| == |t| && forall k | 0 <= k < |s| :: t[k] == Product(a, s[k])
    ensures RealSum(t) == Product(a, RealSum(s))
  {
    if s != [] {
      var n := |s| - 1;
      SumOfProducts(a, s[..n], t[..n]);
      Distributes(a, RealSum(s[..n]), s[n]);
    }
  }

  lemma Distributes(a: real, x: real, y: real)
    ensures Product(a, x) + Product(a, y) == Product(a, x + y)
  {}

  lemma NewestWeighsBeta(beta: real, rates: seq<real>)
    requires |rates| > 1
    ensures var n := |rates| - 1;
      RealSum(Weighted(beta, rates))
        == Product(1.0 - beta, RealSum(Weighted(beta, rates[..n]))) + Product(beta, rates[n])
  {
    var n := |rates| - 1;
    var all, front := Weighted(beta, rates), Weighted(beta, rates[..n]);
    forall k | 0 <= k < n
      ensures all[k] == Product(1.0 - beta, front[k])
    {
      OlderWeighsLess(beta, n, k, rates[k]);
    }
    SumOfProducts(1.0 - beta, front, all[..n]);
    NewestWeight(beta, n, rates[n]);
  }

  lemma NewestWeight(beta: real, n: nat, rate: real)
    requires n > 0
    ensures Product(WeightOf(beta, n + 1, n), rate) == Product(beta, rate)
  {
    assert Power(1.0 - beta, 0) == 1.0 && Product(beta, 1.0) == beta;
  }

  lemma MovedBy(beta: real, x: real, y: real)
    ensures x + beta * (y - x) == (1.0 - beta) * x + beta * y
    ensures x + beta * (y - x) == Product(1.0 - beta, x) + Product(beta, y)
  {}

  lemma SmoothedMoves(beta: real, rates: seq<real>)
    requires |rates| > 1
    ensures var n := |rates| - 1;
      Smoothed(beta, rates) == Product(1.0 - beta, Smoothed(beta, rates[..n])) + Product(beta, rates[n])
  {
    var n := |rates| - 1;
    MovedBy(beta, Smoothed(beta, rates[..n]), rates[n]);
  }

  /** The smoothed rate in closed form. */
  lemma {:induction false} SmoothedIsWeighted(beta: real, rates: seq<real>)
    requires rates != []
    ensures Smoothed(beta, rates) == RealSum(Weighted(beta, rates))
  {
    if |rates| == 1 {
      OneRate(beta, rates[0]);
      assert rates == [rates[0]];
    } else {
      var n := |rates| - 1;
      SmoothedIsWeighted(beta, rates[..n]);
      NewestWeighsBeta(beta, rates);
      SmoothedMoves(beta, rates);
    }
  }

  lemma OneRate(beta: real, rate: real)
    ensures RealSum(Weighted(beta, [rate])) == rate
  {
    assert Product(1.0, rate) == rate;
    assert Weighted(beta, [rate]) == [rate] && [rate][..0] == [];
  }

  /** The smoothed rate lies between any two bounds of the valid raw rates, so between
      the least and the greatest of them. */
  lemma {:induction false} SmoothedStaysWithin(beta: real, rates: seq<real>, low: real, high: real)
    requires 0.0 <= beta <= 1.0 && rates != []
    requires forall r | r in rates :: low <= r <= high
    ensures low <= Smoothed(beta, rates) <= high
  {
    assert rates[0] in rates && rates[|rates| - 1] in rates;
    if |rates| > 1 {
      var front := rates[..|rates| - 1];
      assert forall r | r in front :: r in rates;
      SmoothedStaysWithin(beta, front, low, high);
      PartOfTheWay(beta, Smoothed(beta, front), rates[|rates| - 1], low, high);
    }
  }

  /** The bound fails for every weight outside the unit interval. */
  lemma BadWeightLeavesRange(beta: real)
    requires beta < 0.0 || beta > 1.0
    ensures !(0.0 <= Smoothed(beta, [0.0, 1.0]) <= 1.0)
  {
    assert [0.0, 1.0][..1] == [0.0];
  }

  /** rate is the bits per second of delta bytes in one window of so many microseconds. */
  predicate IsRate(rate: real, delta: nat, windowUs: nat) {
    rate * (windowUs as real) == delta as real * 8000000.0
  }

  method RawRate(delta: nat, windowUs: nat) returns (rate: real)
    requires windowUs > 0
    ensures IsRate(rate, delta, windowUs)
  {
    rate := delta as real * 8.0 * 1000000.0 / windowUs as real;
  }

  lemma OneMoreRate(beta: real, rates: seq<real>, r: real)
    ensures Smoothed(beta, rates + [r]) ==
      if rates == [] then r else Smoothed(beta, rates) + beta * (r - Smoothed(beta, rates))
  {
    assert (rates + [r])[..|rates|] == rates;
  }

  lemma OneMoreDelta(deltas: seq<nat>, d: nat)
    ensures Sum(deltas + [d]) == Sum(deltas) + d
  {
    assert (deltas + [d])[..|deltas|] == deltas;
  }

  datatype Sample = Sample(delta: nat, rawRate: real, smoothed: real, valid: bool, windowMin: int, outstanding: int)

  // ------------------------------------------------------------------ class

  class DeliverySensor {
    const beta: real
    const windowUs: nat
    var committed: nat
    var completed: nat
    var previousCompleted: nat
    var windowMin: int
    var threshold: nat
    var frozen: bool
    var targetKnown: bool
    var disrupted: bool
    var smoothedKnown: bool
    var smoothed: real
    /** The backlogs at the previous sample and at every event since. */
    ghost var backlogs: seq<int>
    /** What every sample so far reported. */
    ghost var deltas: seq<nat>
    ghost var validRates: seq<real>

    /** The state after Start, which takes the current backlog as the first window's minimum. */
    constructor (beta: real, windowUs: nat)
      requires windowUs > 0
      ensures Valid() && this.beta == beta && this.windowUs == windowUs
      ensures backlogs == [0] && deltas == [] && validRates == [] && !frozen && !targetKnown
    {
      this.beta, this.windowUs := beta, windowUs;
      committed, completed, previousCompleted, windowMin, threshold := 0, 0, 0, 0, 0;
      frozen, targetKnown, disrupted, smoothedKnown, smoothed := false, false, false, false, 0.0;
      backlogs, deltas, validRates := [0], [], [];
    }

    function Outstanding(): int
      reads this
    {
      committed - completed
    }

    ghost predicate Valid()
      reads this
    {
      && windowUs > 0
      && completed <= committed
      && backlogs != [] && backlogs[|backlogs| - 1] == Outstanding()
      && IsLeast(windowMin, backlogs)
      && previousCompleted == Sum(deltas) <= completed
      && smoothedKnown == (validRates != [])
      && (smoothedKnown ==> smoothed == Smoothed(beta, validRates))
    }

    /** A commit or completion of the target flow; ok is the assertion that completions
        do not overtake commits. */
    method RecordWqeEvent(isCommit: bool, bytes: nat) returns (ok: bool)
      requires Valid()
      modifies this`committed, this`completed, this`windowMin, this`targetKnown, this`backlogs
      ensures ok == (isCommit || old(completed) + bytes <= old(committed))
      ensures ok ==> Valid() && targetKnown && backlogs == old(backlogs) + [Outstanding()]
      ensures ok ==> Outstanding() == old(Outstanding()) + if isCommit then bytes else 0 - bytes
      ensures ok ==> completed == old(completed) + if isCommit then 0 else bytes
    {
      targetKnown := true;
      if isCommit {
        committed := committed + bytes;
      } else {
        if completed + bytes > committed {
          return false;
        }
        completed := completed + bytes;
      }
      LeastOfMore(windowMin, backlogs, Outstanding());
      if Outstanding() < windowMin {
        windowMin := Outstanding();
      }
      backlogs := backlogs + [Outstanding()];
      ok := true;
    }

    method RecordTeardown(isTarget: bool)
      requires Valid()
      modifies this`disrupted
      ensures Valid() && disrupted == (old(disrupted) || (targetKnown && isTarget))
    {
      if targetKnown && isTarget {
        disrupted := true;
      }
    }

    method FreezeThreshold(bytes: nat)
      requires Valid()
      modifies this`threshold, this`frozen
      ensures Valid() && frozen && threshold == bytes
    {
      threshold, frozen := bytes, true;
    }

    method Smooth(rate: real)
      requires smoothedKnown == (validRates != [])
      requires smoothedKnown ==> smoothed == Smoothed(beta, validRates)
      modifies this`smoothedKnown, this`smoothed, this`validRates
      ensures smoothedKnown && validRates == old(validRates) + [rate] && smoothed == Smoothed(beta, validRates)
      ensures if old(smoothedKnown) then smoothed - old(smoothed) == beta * (rate - old(smoothed))
              else smoothed == rate
    {
      OneMoreRate(beta, validRates, rate);
      MovedBy(beta, smoothed, rate);
      if !smoothedKnown {
        smoothed := rate;
        smoothedKnown := true;
      } else {
        smoothed := (1.0 - beta) * smoothed + beta * rate;
      }
      validRates := validRates + [rate];
    }

    /** The bookkeeping at the end of a window. */
    method NextWindow()
      requires completed <= committed && previousCompleted == Sum(deltas) <= completed
      modifies this`previousCompleted, this`windowMin, this`disrupted, this`backlogs, this`deltas
      ensures deltas == old(deltas) + [completed - old(previousCompleted)]
      ensures previousCompleted == Sum(deltas) == completed
      ensures backlogs == [Outstanding()] && windowMin == Outstanding() && !disrupted
    {
      OneMoreDelta(deltas, completed - previousCompleted);
      deltas := deltas + [completed - previousCompleted];
      previousCompleted := completed;
      windowMin := Outstanding();
      backlogs := [Outstanding()];
      disrupted := false;
    }

    /** The backlog was at the threshold or above at every event of the window exactly when
        its least value was. */
    method WindowIsValid() returns (valid: bool)
      requires IsLeast(windowMin, backlogs)
      ensures valid <==> frozen && targetKnown && !disrupted && forall b | b in backlogs :: b >= threshold
    {
      valid := frozen && targetKnown && !disrupted && windowMin >= threshold;
    }

    /** One window: valid exactly when the threshold is known, the target flow is known
        and undisturbed, and the backlog was at the threshold or above at the previous
        sample and at every event since. The deltas reported so far add up to the bytes
        completed, and the smoothed rate follows the valid raw rates. */
    method SampleDeliveryWindow() returns (s: Sample)
      requires Valid()
      modifies this`previousCompleted, this`windowMin, this`disrupted, this`smoothedKnown, this`smoothed,
               this`backlogs, this`deltas, this`validRates
      ensures Valid() && backlogs == [Outstanding()] && !disrupted
      ensures s.valid <==>
        frozen && targetKnown && !old(disrupted) && forall b | b in old(backlogs) :: b >= threshold
      ensures IsLeast(s.windowMin, old(backlogs)) && s.outstanding == Outstanding()
      ensures deltas == old(deltas) + [s.delta] && Sum(deltas) == completed
      ensures IsRate(s.rawRate, s.delta, windowUs)
      ensures validRates == old(validRates) + if s.valid then [s.rawRate] else []
      ensures s.smoothed == if validRates == [] then 0.0 else Smoothed(beta, validRates)
      ensures s.valid && old(smoothedKnown) ==> s.smoothed - old(smoothed) == beta * (s.rawRate - old(smoothed))
      ensures s.valid && !old(smoothedKnown) ==> s.smoothed == s.rawRate
    {
      var delta: nat := completed - previousCompleted;
      var valid := WindowIsValid();
      var rawRate := RawRate(delta, windowUs);
      if valid {
        Smooth(rawRate);
      }
      s := Sample(delta, rawRate, if smoothedKnown then smoothed else 0.0, valid, windowMin, Outstanding());
      NextWindow();
    }
  }
}
