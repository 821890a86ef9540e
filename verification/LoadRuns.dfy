/**
 * The load averages over runs of samples: D-state load against total load, and
 * the number of tasks beyond which 64-bit wrap-around breaks their order.
 */
module LoadRuns {
  import opened Machine
  import opened LoadAvg

  class ContainerDload {
    var avgnrun: (UInt64, UInt64)
    var load: (real, real)
    var avgnuni: (UInt64, UInt64)
    var loaduni: (real, real)

    ghost function Model(): Averages
      reads this
    {
      Averages(avgnrun, avgnuni)
    }

    method UpdateLoad(nrRunning: UInt64, nrUninterruptible: UInt64)
      modifies this
      ensures Model() == Next(old(Model()), Sample(nrRunning, nrUninterruptible))
      ensures load == GetAvenrun(avgnrun, FIXED_1 / 200, 0) && loaduni == GetAvenrun(avgnuni, FIXED_1 / 200, 0)
    {
      avgnrun := CalcLoadavg(avgnrun, (nrRunning + nrUninterruptible) % TWO64);
      load := GetAvenrun(avgnrun, FIXED_1 / 200, 0);
      avgnuni := CalcLoadavg(avgnuni, nrUninterruptible);
      loaduni := GetAvenrun(avgnuni, FIXED_1 / 200, 0);
    }
  }

  datatype Averages = Averages(run: (UInt64, UInt64), uni: (UInt64, UInt64))
  datatype Sample = Sample(running: UInt64, uninterruptible: UInt64)

  function Next(a: Averages, x: Sample): Averages {
    Averages(CalcLoadavg(a.run, (x.running + x.uninterruptible) % TWO64), CalcLoadavg(a.uni, x.uninterruptible))
  }

  function Run(a: Averages, xs: seq<Sample>): Averages
    decreases |xs|
  {
    if xs == [] then a else Run(Next(a, xs[0]), xs[1..])
  }

  predicate Bounded(xs: seq<Sample>, max: nat) {
    forall i | 0 <= i < |xs| :: xs[i].running + xs[i].uninterruptible <= max
  }

  // A load that has only ever been pulled towards at most max tasks from below.
  predicate Under(load: nat, exp: int, max: nat)
    requires Factor(exp)
  {
    load <= max * FIXED_1 && (0 < load ==> load + Band(exp) <= max * FIXED_1)
  }

  lemma UnderFits(load: nat, exp: int, active: nat, max: nat)
    requires Factor(exp) && Under(load, exp, max) && active <= max * FIXED_1 && max <= MAX_TASKS + 1
    ensures Fits(load, exp, active)
  {
  }

  // Rounding keeps such a load a band away from the most it is pulled towards.
  lemma UnderStays(load: nat, exp: int, active: nat, max: nat)
    requires Factor(exp) && Under(load, exp, max) && active <= max * FIXED_1
    ensures Under(Smooth(load, exp, active), exp, max)
  {
    if 0 < max {
      SmoothMonotone(load, max * FIXED_1 - Band(exp), exp, active, max * FIXED_1);
      SmoothMoves(max * FIXED_1 - Band(exp), exp, max * FIXED_1);
    } else {
      SmoothBetween(load, exp, active);
    }
  }

  // The D-state averages stay below the total ones, and both below the most
  // tasks ever seen.
  predicate Ordered(a: Averages, max: nat) {
    a.uni.0 <= a.run.0 && Under(a.run.0, EXP_1, max) && a.uni.1 <= a.run.1 && Under(a.run.1, EXP_5, max)
  }

  lemma LoadOrdered(uni: UInt64, run: UInt64, exp: int, d: nat, total: nat, max: nat)
    requires Factor(exp) && d <= total <= max <= MAX_TASKS + 1 && uni <= run && Under(run, exp, max)
    ensures CalcLoad(uni, exp, d * FIXED_1) <= CalcLoad(run, exp, total * FIXED_1)
    ensures Under(CalcLoad(run, exp, total * FIXED_1), exp, max)
  {
    UnderFits(uni, exp, d * FIXED_1, max);
    UnderFits(run, exp, total * FIXED_1, max);
    hide Fits, CalcLoad, Smooth;
    NoOverflow(uni, exp, d * FIXED_1);
    NoOverflow(run, exp, total * FIXED_1);
    SmoothMonotone(uni, run, exp, d * FIXED_1, total * FIXED_1);
    UnderStays(run, exp, total * FIXED_1, max);
  }

  lemma NextOrdered(a: Averages, x: Sample, max: nat)
    requires Ordered(a, max) && max <= MAX_TASKS + 1 && x.running + x.uninterruptible <= max
    ensures Ordered(Next(a, x), max)
  {
    hide CalcLoad, Under;
    var d, total := x.uninterruptible, x.running + x.uninterruptible;
    SmallMod(total);
    AverageOf(a.run, total);
    AverageOf(a.uni, d);
    LoadOrdered(a.uni.0, a.run.0, EXP_1, d, total, max);
    LoadOrdered(a.uni.1, a.run.1, EXP_5, d, total, max);
  }

  lemma {:induction false} RunOrdered(a: Averages, xs: seq<Sample>, max: nat)
    requires Ordered(a, max) && max <= MAX_TASKS + 1 && Bounded(xs, max)
    ensures Ordered(Run(a, xs), max)
    decreases |xs|
  {
    if xs != [] {
      hide Next, Ordered;
      NextOrdered(a, xs[0], max);
      RunOrdered(Next(a, xs[0]), xs[1..], max);
    }
  }

  const IDLE := Averages((0, 0), (0, 0))

  // From zero, over every run of samples of at most max tasks: D-state load never
  // exceeds total load, stored or displayed, and neither exceeds max.
  lemma UninterruptibleNeverExceeds(xs: seq<Sample>, max: nat)
    requires Bounded(xs, max) && max <= MAX_TASKS + 1
    ensures var end := Run(IDLE, xs);
            Ordered(end, max) &&
            var shown, total := GetAvenrun(end.uni, FIXED_1 / 200, 0), GetAvenrun(end.run, FIXED_1 / 200, 0);
            shown.0 <= total.0 && shown.1 <= total.1
  {
    RunOrdered(IDLE, xs, max);
    var end := Run(IDLE, xs);
    hide Run, Display;
    DisplayMonotone(end.uni.0, end.run.0);
    DisplayMonotone(end.uni.1, end.run.1);
  }

  // --------------------------------------------------------------- constant samples

  lemma {:induction false} RunMore(a: Averages, xs: seq<Sample>, x: Sample)
    ensures Run(a, xs + [x]) == Next(Run(a, xs), x)
    decreases |xs|
  {
    hide Next;
    if xs == [] {
      assert [x][1..] == [] && xs + [x] == [x];
      assert Run(a, [x]) == Run(Next(a, x), []);
    } else {
      assert (xs + [x])[1..] == xs[1..] + [x];
      RunMore(Next(a, xs[0]), xs[1..], x);
    }
  }

  predicate Within(a: Averages, max: nat) {
    a.run.0 <= max * FIXED_1 && a.run.1 <= max * FIXED_1 && a.uni.0 <= max * FIXED_1 && a.uni.1 <= max * FIXED_1
  }

  lemma {:induction false} ConstantRun(a: Averages, x: Sample, n: nat)
    requires x.running + x.uninterruptible < TWO64
    ensures Run(a, seq(n, _ => x)) ==
              Averages(Sampled(a.run, x.running + x.uninterruptible, n), Sampled(a.uni, x.uninterruptible, n))
  {
    if n > 0 {
      hide Run, CalcLoadavg;
      ConstantRun(a, x, n - 1);
      assert seq(n, _ => x) == seq(n - 1, _ => x) + [x];
      RunMore(a, seq(n - 1, _ => x), x);
      SmallMod(x.running + x.uninterruptible);
    } else {
      assert seq(0, _ => x) == [];
    }
  }

  // The same sample long enough: the total load settles at the running and the
  // uninterruptible tasks together, the D-state load at the uninterruptible ones.
  lemma ConstantSamplesSettle(a: Averages, x: Sample, n: nat)
    requires x.running + x.uninterruptible <= MAX_TASKS && Within(a, MAX_TASKS) && MAX_TASKS * FIXED_1 <= n
    ensures var end := Run(a, seq(n, _ => x));
            var total := x.running + x.uninterruptible;
            Distance(end.run.0, total * FIXED_1) <= 6 && Distance(end.run.1, total * FIXED_1) <= 30 &&
            Distance(end.uni.0, x.uninterruptible * FIXED_1) <= 6 &&
            Distance(end.uni.1, x.uninterruptible * FIXED_1) <= 30
  {
    hide Run, Sampled;
    ConstantRun(a, x, n);
    ConstantLoadSettles(a.run, x.running + x.uninterruptible, n);
    ConstantLoadSettles(a.uni, x.uninterruptible, n);
  }

  // ---------------------------------------------------------------- beyond the limit

  ghost predicate NeverExceeds(max: nat) {
    forall xs | Bounded(xs, max) :: InOrder(Run(IDLE, xs))
  }

  predicate InOrder(a: Averages) {
    a.uni.0 <= a.run.0 && a.uni.1 <= a.run.1
  }

  // All tasks but one in D state, one too many in all.
  const CROWD := Sample(1, MAX_TASKS + 1)
  const LOW: nat := (MAX_TASKS + 1) * FIXED_1
  const HIGH: nat := (MAX_TASKS + 2) * FIXED_1

  function Crowded(n: nat): seq<Sample> {
    seq(n, _ => CROWD)
  }

  // The one-minute loads while nothing has wrapped.
  function Total(n: nat): nat {
    Iterate(0, EXP_1, HIGH, n)
  }

  function Stuck(n: nat): nat {
    Iterate(0, EXP_1, LOW, n)
  }

  lemma {:induction false} StuckUnder(n: nat)
    ensures Under(Stuck(n), EXP_1, MAX_TASKS + 1) && Fits(Stuck(n), EXP_1, LOW)
  {
    if n > 0 {
      StuckUnder(n - 1);
      hide Fits;
      UnderStays(Stuck(n - 1), EXP_1, LOW, MAX_TASKS + 1);
    }
    UnderFits(Stuck(n), EXP_1, LOW, MAX_TASKS + 1);
  }

  lemma SmoothClose(load: nat, more: nat)
    requires more <= load + FIXED_1
    ensures Smooth(more, EXP_1, HIGH) <= Smooth(load, EXP_1, LOW) + FIXED_1
  {
  }

  // The two loads stay within a task of each other.
  lemma {:induction false} StaysClose(n: nat)
    ensures Total(n) <= Stuck(n) + FIXED_1 && Total(n) <= HIGH
  {
    if n > 0 {
      StaysClose(n - 1);
      hide Smooth;
      SmoothClose(Stuck(n - 1), Total(n - 1));
      SmoothBetween(Total(n - 1), EXP_1, HIGH);
    }
  }

  lemma {:induction false} FirstWrap(n: nat) returns (w: nat)
    requires !Fits(Total(n), EXP_1, HIGH)
    ensures w <= n && !Fits(Total(w), EXP_1, HIGH) && forall k | 0 <= k < w :: Fits(Total(k), EXP_1, HIGH)
    decreases n
  {
    hide Fits, Total;
    if k :| 0 <= k < n && !Fits(Total(k), EXP_1, HIGH) {
      w := FirstWrap(k);
    } else {
      w := n;
    }
  }

  // Sampled long enough, the total load comes close enough to its input to wrap.
  lemma SomeWrap()
    ensures !Fits(Total(HIGH), EXP_1, HIGH)
  {
    hide Iterate;
    SettlesInBand(0, EXP_1, HIGH, HIGH);
  }

  lemma {:induction false} CrowdedLoads(n: nat)
    requires forall k | 0 <= k < n :: Fits(Total(k), EXP_1, HIGH)
    ensures var a := Run(IDLE, Crowded(n)); a.run.0 == Total(n) && a.uni.0 == Stuck(n)
    decreases n
  {
    if n > 0 {
      CrowdedLoads(n - 1);
      StuckUnder(n - 1);
      CrowdedNext(n - 1);
      hide Fits, Run, CalcLoad, Smooth, Under;
      NoOverflow(Total(n - 1), EXP_1, HIGH);
      NoOverflow(Stuck(n - 1), EXP_1, LOW);
    }
  }

  lemma CrowdedNext(n: nat)
    ensures var a, b := Run(IDLE, Crowded(n)), Run(IDLE, Crowded(n + 1));
            b.run.0 == CalcLoad(a.run.0, EXP_1, HIGH) && b.uni.0 == CalcLoad(a.uni.0, EXP_1, LOW)
  {
    hide Run, CalcLoad;
    assert Crowded(n + 1) == Crowded(n) + [CROWD];
    RunMore(IDLE, Crowded(n), CROWD);
    var a := Run(IDLE, Crowded(n));
    AverageOf(a.run, MAX_TASKS + 2);
    AverageOf(a.uni, MAX_TASKS + 1);
  }

  // The step that wraps leaves next to nothing of the total.
  lemma Wrapped(load: nat, stuck: nat)
    requires !Fits(load, EXP_1, HIGH) && load <= HIGH && load <= stuck + FIXED_1
    requires Fits(stuck, EXP_1, LOW)
    ensures CalcLoad(load, EXP_1, HIGH) < CalcLoad(stuck, EXP_1, LOW)
  {
    NoOverflow(load, EXP_1, HIGH);
    NoOverflow(stuck, EXP_1, LOW);
    var sum := load * EXP_1 + HIGH * (FIXED_1 - EXP_1) + 1024;
    assert TWO64 <= sum < TWO64 + 8_000_000;
    assert sum % TWO64 == sum - TWO64;
  }

  lemma CrowdWraps() returns (xs: seq<Sample>)
    ensures Bounded(xs, MAX_TASKS + 2) && !InOrder(Run(IDLE, xs))
  {
    hide Fits, Run, CalcLoad, Iterate;
    SomeWrap();
    var w := FirstWrap(HIGH);
    CrowdedLoads(w);
    CrowdedNext(w);
    StaysClose(w);
    StuckUnder(w);
    Wrapped(Total(w), Stuck(w));
    xs := Crowded(w + 1);
  }

  // So the order is kept by every run exactly up to that many tasks.
  lemma NeverExceedsExactly(max: nat)
    ensures NeverExceeds(max) <==> max <= MAX_TASKS + 1
  {
    hide Run;
    if max <= MAX_TASKS + 1 {
      forall xs | Bounded(xs, max) ensures InOrder(Run(IDLE, xs)) {
        UninterruptibleNeverExceeds(xs, max);
      }
    } else {
      var xs := CrowdWraps();
      assert Bounded(xs, max);
    }
  }
}
