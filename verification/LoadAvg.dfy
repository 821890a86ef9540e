/**
 * The fixed-point load averages of the dload tracer: 11-bit exponential
 * smoothing with rounding, in 64-bit unsigned arithmetic.
 */
module LoadAvg {
  import opened Machine

  const FIXED_1 := 2048
  const EXP_1 := 1884
  const EXP_5 := 2014

  // The most tasks whose load, smoothed with any load up to it, fits 64 bits.
  const MAX_TASKS: int := 0x3FF_FFFF_FFFF

  predicate Factor(exp: int) {
    exp == EXP_1 || exp == EXP_5
  }

  // One smoothing step as the source computes it, wrapping at 64 bits.
  function CalcLoad(load: UInt64, exp: int, active: UInt64): UInt64
    requires Factor(exp)
  {
    var newload := (load * exp % TWO64 + active * (FIXED_1 - exp) % TWO64) % TWO64;
    (newload + 1024) % TWO64 / FIXED_1
  }

  // The same step over the integers.
  function Smooth(load: nat, exp: int, active: nat): nat
    requires Factor(exp)
  {
    (load * exp + active * (FIXED_1 - exp) + 1024) / FIXED_1
  }

  function CalcLoadavg(avg: (UInt64, UInt64), tasks: UInt64): (UInt64, UInt64) {
    var active := if tasks > 0 then tasks * FIXED_1 % TWO64 else 0;
    (CalcLoad(avg.0, EXP_1, active), CalcLoad(avg.1, EXP_5, active))
  }

  // The weighted sum, with its rounding, is below 2^64.
  predicate Fits(load: nat, exp: int, active: nat) {
    load * exp + active * (FIXED_1 - exp) + 1024 < TWO64
  }

  // The 64-bit step is the integer step exactly when the sum fits.
  lemma NoOverflow(load: UInt64, exp: int, active: UInt64)
    requires Factor(exp)
    ensures CalcLoad(load, exp, active) == Smooth(load, exp, active) <==> Fits(load, exp, active)
    ensures CalcLoad(load, exp, active) ==
              (load * exp + active * (FIXED_1 - exp) + 1024) % TWO64 / FIXED_1
  {
    var a, b := load * exp, active * (FIXED_1 - exp);
    ModSum(a, b);
    ModSum(a + b, 1024);
    SmallMod(1024);
    var sum := a + b + 1024;
    if sum < TWO64 {
      SmallMod(sum);
    } else {
      BigSum(sum);
    }
  }

  lemma ModSum(a: nat, b: nat)
    ensures (a % TWO64 + b % TWO64) % TWO64 == (a + b) % TWO64
  {
  }

  lemma BigSum(sum: nat)
    requires TWO64 <= sum
    ensures sum % TWO64 / FIXED_1 < sum / FIXED_1
  {
    assert sum % TWO64 < TWO64;
    assert sum % TWO64 / FIXED_1 < TWO64 / FIXED_1 <= sum / FIXED_1;
  }

  // It does up to MAX_TASKS tasks, and with one more it may not.
  lemma FitsBelow(load: nat, exp: int, active: nat)
    requires Factor(exp) && load <= MAX_TASKS * FIXED_1 && active <= MAX_TASKS * FIXED_1
    ensures Fits(load, exp, active)
    ensures var more := (MAX_TASKS + 1) * FIXED_1; !Fits(more, exp, more)
  {
  }

  lemma SmallMod(x: int)
    requires 0 <= x < TWO64
    ensures x % TWO64 == x
  {
  }

  // ------------------------------------------------------------- one step exactly

  // The distance at which rounding stops the smoothing.
  function Band(exp: int): nat
    requires Factor(exp)
  {
    if exp == EXP_1 then 6 else 30
  }

  function Distance(a: int, b: int): nat {
    if a <= b then b - a else a - b
  }

  // A step stays between the old load and the input ...
  lemma SmoothBetween(load: nat, exp: int, active: nat)
    requires Factor(exp)
    ensures load <= active ==> load <= Smooth(load, exp, active) <= active
    ensures active <= load ==> active <= Smooth(load, exp, active) <= load
  {
  }

  // ... grows with both ...
  lemma SmoothMonotone(load: nat, load': nat, exp: int, active: nat, active': nat)
    requires Factor(exp) && load <= load' && active <= active'
    ensures Smooth(load, exp, active) <= Smooth(load', exp, active')
  {
  }

  // ... and moves the load towards the input exactly when it is outside the band.
  lemma SmoothMoves(load: nat, exp: int, active: nat)
    requires Factor(exp)
    ensures Distance(load, active) <= Band(exp) <==> Smooth(load, exp, active) == load
    ensures Distance(load, active) > Band(exp) <==>
              Distance(Smooth(load, exp, active), active) < Distance(load, active)
    ensures Distance(load, active) > Band(exp) ==> Distance(Smooth(load, exp, active), active) >= Band(exp)
  {
  }

  // ------------------------------------------------------------------ convergence

  function Iterate(load: nat, exp: int, active: nat, n: nat): nat
    requires Factor(exp)
  {
    if n == 0 then load else Smooth(Iterate(load, exp, active, n - 1), exp, active)
  }

  // Under a constant input the distance never grows, and within as many steps as
  // the distance is wide the load is in the band; there it stays for good.
  lemma {:induction false} Converges(load: nat, exp: int, active: nat, n: nat)
    requires Factor(exp)
    ensures var d := Distance(load, active);
            var here := Distance(Iterate(load, exp, active, n), active);
            here <= d && (here <= Band(exp) || here + n <= d)
    decreases n
  {
    if n > 0 {
      Converges(load, exp, active, n - 1);
      var before := Iterate(load, exp, active, n - 1);
      hide Smooth, Iterate;
      IterateNext(load, exp, active, n);
      SmoothMoves(before, exp, active);
    }
  }

  lemma IterateNext(load: nat, exp: int, active: nat, n: nat)
    requires Factor(exp) && n > 0
    ensures Iterate(load, exp, active, n) == Smooth(Iterate(load, exp, active, n - 1), exp, active)
  {
  }

  lemma {:induction false} StaysPut(load: nat, exp: int, active: nat, n: nat, m: nat)
    requires Factor(exp) && n <= m && Distance(Iterate(load, exp, active, n), active) <= Band(exp)
    ensures Iterate(load, exp, active, m) == Iterate(load, exp, active, n)
    decreases m
  {
    if n < m {
      StaysPut(load, exp, active, n, m - 1);
      SmoothMoves(Iterate(load, exp, active, n), exp, active);
    }
  }

  lemma SettlesInBand(load: nat, exp: int, active: nat, m: nat)
    requires Factor(exp) && Distance(load, active) <= m
    ensures Distance(Iterate(load, exp, active, m), active) <= Band(exp)
    ensures Iterate(load, exp, active, m) == Iterate(load, exp, active, Distance(load, active))
  {
    var d := Distance(load, active);
    Converges(load, exp, active, d);
    StaysPut(load, exp, active, d, m);
  }

  // ---------------------------------------------------------- the rate of convergence

  function Power(base: nat, n: nat): nat {
    if n == 0 then 1 else base * Power(base, n - 1)
  }

  // How far outside the band the load is, scaled to whole numbers.
  function Excess(load: nat, exp: int, active: nat): int {
    (FIXED_1 - exp) * Distance(load, active) - FIXED_1 / 2
  }

  lemma ExcessIsBand(load: nat, exp: int, active: nat)
    requires Factor(exp)
    ensures Excess(load, exp, active) <= 0 <==> Distance(load, active) <= Band(exp)
  {
  }

  lemma StepShrinks(load: nat, exp: int, active: nat)
    requires Factor(exp)
    ensures FIXED_1 * Excess(Smooth(load, exp, active), exp, active) <= exp * Excess(load, exp, active)
  {
  }

  lemma Scaled(p: nat, q: nat, exp: nat, e: int, e': int, first: int)
    requires FIXED_1 * e' <= exp * e && p * e <= q * first
    ensures (FIXED_1 * p) * e' <= (exp * q) * first
  {
    assert p * (FIXED_1 * e') <= p * (exp * e);
    assert exp * (p * e) <= exp * (q * first);
  }

  // Under a constant input the excess shrinks geometrically, by exp / FIXED_1 a
  // step.
  lemma {:induction false} Geometric(load: nat, exp: nat, active: nat, n: nat)
    requires Factor(exp)
    ensures Power(FIXED_1, n) * Excess(Iterate(load, exp, active, n), exp, active)
         <= Power(exp, n) * Excess(load, exp, active)
    decreases n
  {
    if n > 0 {
      hide Smooth, Iterate, Excess;
      Geometric(load, exp, active, n - 1);
      IterateNext(load, exp, active, n);
      var before := Iterate(load, exp, active, n - 1);
      StepShrinks(before, exp, active);
      Scaled(Power(FIXED_1, n - 1), Power(exp, n - 1), exp, Excess(before, exp, active),
             Excess(Iterate(load, exp, active, n), exp, active), Excess(load, exp, active));
    }
  }

  // The samples in which the excess at least halves.
  function HalfLife(exp: int): nat
    requires Factor(exp)
  {
    if exp == EXP_1 then 9 else 42
  }

  lemma {:induction false} PowerPositive(base: nat, n: nat)
    requires 0 < base
    ensures 0 < Power(base, n)
  {
    if n > 0 { PowerPositive(base, n - 1); }
  }

  lemma PowerNext(base: nat, n: nat)
    requires 0 < n
    ensures Power(base, n) == base * Power(base, n - 1)
  {
  }

  lemma Regroup(a: int, b: int, c: int)
    ensures a * (b * c) == b * (a * c)
  {
  }

  lemma {:induction false} PowerMore(base: nat, m: nat, n: nat)
    ensures Power(base, m + n) == Power(base, m) * Power(base, n)
    decreases n
  {
    if n > 0 {
      PowerMore(base, m, n - 1);
      PowerNext(base, m + n);
      PowerNext(base, n);
      hide Power;
      Regroup(Power(base, m), base, Power(base, n - 1));
    }
  }

  lemma Squares(x: nat, y: nat)
    requires 17 * x <= 12 * y
    ensures 2 * (x * x) <= y * y
  {
    assert 289 * (x * x) == (17 * x) * (17 * x) <= (12 * y) * (17 * x) <= (12 * y) * (12 * y) == 144 * (y * y);
  }

  lemma Sevenths()
    ensures Power(2014, 7) == 2014 * 2014 * 2014 * 2014 * 2014 * 2014 * 2014
    ensures Power(2048, 7) == 2048 * 2048 * 2048 * 2048 * 2048 * 2048 * 2048
  {
  }

  lemma RootHalf()
    ensures 17 * Power(2014, 21) <= 12 * Power(2048, 21)
  {
    hide Power;
    Sevenths();
    PowerMore(2014, 7, 7);
    PowerMore(2014, 14, 7);
    PowerMore(2048, 7, 7);
    PowerMore(2048, 14, 7);
  }

  lemma HalfLifeHalves(exp: nat)
    requires Factor(exp)
    ensures 2 * Power(exp, HalfLife(exp)) <= Power(FIXED_1, HalfLife(exp))
  {
    if exp == EXP_1 {
      assert 2 * Power(1884, 9) <= Power(2048, 9);
    } else {
      hide Power;
      RootHalf();
      PowerMore(2014, 21, 21);
      PowerMore(2048, 21, 21);
      Squares(Power(2014, 21), Power(2048, 21));
    }
  }

  lemma TimesGrows(p: nat, a: int, b: int)
    requires 0 < p && a < b
    ensures p * a < p * b
  {
  }

  lemma HalfOf(p: nat, q: nat, e: int, e': int)
    requires 2 * q <= p && 0 < p && p * e' <= q * e && 0 <= e
    ensures 2 * e' <= e
  {
    assert p * (2 * e') == 2 * (p * e') <= (2 * q) * e <= p * e;
    if e < 2 * e' {
      TimesGrows(p, e, 2 * e');
      assert false;
    }
  }

  lemma Halves(load: nat, exp: nat, active: nat)
    requires Factor(exp) && 0 <= Excess(load, exp, active)
    ensures 2 * Excess(Iterate(load, exp, active, HalfLife(exp)), exp, active) <= Excess(load, exp, active)
  {
    hide Power, Iterate, Excess;
    var h := HalfLife(exp);
    Geometric(load, exp, active, h);
    HalfLifeHalves(exp);
    PowerPositive(FIXED_1, h);
    var settled := Iterate(load, exp, active, h);
    HalfOf(Power(FIXED_1, h), Power(exp, h), Excess(load, exp, active), Excess(settled, exp, active));
  }

  lemma {:induction false} IterateMore(load: nat, exp: int, active: nat, m: nat, n: nat)
    requires Factor(exp)
    ensures Iterate(load, exp, active, m + n) == Iterate(Iterate(load, exp, active, m), exp, active, n)
    decreases n
  {
    if n > 0 {
      hide Smooth;
      IterateMore(load, exp, active, m, n - 1);
    }
  }

  // So the load is in the band, for good, after a number of samples that grows
  // only with the logarithm of the distance.
  lemma {:induction false} SettlesFast(load: nat, exp: nat, active: nat, k: nat)
    requires Factor(exp) && Excess(load, exp, active) < Power(2, k)
    ensures Distance(Iterate(load, exp, active, k * HalfLife(exp)), active) <= Band(exp)
    decreases k
  {
    hide Iterate, Excess, Smooth;
    ExcessIsBand(load, exp, active);
    var h := HalfLife(exp);
    if Distance(load, active) <= Band(exp) {
      IterateNone(load, exp, active);
      StaysPut(load, exp, active, 0, k * h);
    } else {
      Halves(load, exp, active);
      SettlesFast(Iterate(load, exp, active, h), exp, active, k - 1);
      IterateMore(load, exp, active, h, (k - 1) * h);
      assert h + (k - 1) * h == k * h;
    }
  }

  lemma IterateNone(load: nat, exp: int, active: nat)
    requires Factor(exp)
    ensures Iterate(load, exp, active, 0) == load
  {
  }

  // The averages after n samples of the same number of tasks.
  function Sampled(avg: (UInt64, UInt64), tasks: UInt64, n: nat): (UInt64, UInt64) {
    if n == 0 then avg else CalcLoadavg(Sampled(avg, tasks, n - 1), tasks)
  }

  lemma AverageOf(avg: (UInt64, UInt64), tasks: nat)
    requires tasks * FIXED_1 < TWO64
    ensures CalcLoadavg(avg, tasks)
         == (CalcLoad(avg.0, EXP_1, tasks * FIXED_1), CalcLoad(avg.1, EXP_5, tasks * FIXED_1))
  {
    hide CalcLoad;
    SmallMod(tasks * FIXED_1);
  }

  lemma {:induction false} IterateBounded(load: nat, exp: int, active: nat, n: nat, max: nat)
    requires Factor(exp) && load <= max && active <= max
    ensures Iterate(load, exp, active, n) <= max
    decreases n
  {
    if n > 0 {
      IterateBounded(load, exp, active, n - 1, max);
      SmoothBetween(Iterate(load, exp, active, n - 1), exp, active);
    }
  }

  lemma {:induction false} SampledIterates(avg: (UInt64, UInt64), tasks: nat, n: nat)
    requires tasks <= MAX_TASKS && avg.0 <= MAX_TASKS * FIXED_1 && avg.1 <= MAX_TASKS * FIXED_1
    ensures var active := tasks * FIXED_1;
            Sampled(avg, tasks, n) == (Iterate(avg.0, EXP_1, active, n), Iterate(avg.1, EXP_5, active, n))
    decreases n
  {
    if n > 0 {
      var active := tasks * FIXED_1;
      hide CalcLoad, CalcLoadavg, Smooth;
      SampledIterates(avg, tasks, n - 1);
      IterateBounded(avg.0, EXP_1, active, n - 1, MAX_TASKS * FIXED_1);
      IterateBounded(avg.1, EXP_5, active, n - 1, MAX_TASKS * FIXED_1);
      var a, b := Iterate(avg.0, EXP_1, active, n - 1), Iterate(avg.1, EXP_5, active, n - 1);
      AverageOf((a, b), tasks);
      FitsBelow(a, EXP_1, active);
      FitsBelow(b, EXP_5, active);
      hide Fits;
      NoOverflow(a, EXP_1, active);
      NoOverflow(b, EXP_5, active);
    }
  }

  // Sampling a constant number of tasks long enough leaves the stored averages
  // within 6/2048 and 30/2048 of it, and unchanged from then on.
  lemma ConstantLoadSettles(avg: (UInt64, UInt64), tasks: nat, n: nat)
    requires tasks <= MAX_TASKS && avg.0 <= MAX_TASKS * FIXED_1 && avg.1 <= MAX_TASKS * FIXED_1
    requires Distance(avg.0, tasks * FIXED_1) <= n && Distance(avg.1, tasks * FIXED_1) <= n
    ensures var end := Sampled(avg, tasks, n);
            Distance(end.0, tasks * FIXED_1) <= 6 && Distance(end.1, tasks * FIXED_1) <= 30 &&
            Sampled(avg, tasks, n + 1) == end
  {
    SampledIterates(avg, tasks, n);
    SampledIterates(avg, tasks, n + 1);
    hide Sampled, Iterate;
    SettlesInBand(avg.0, EXP_1, tasks * FIXED_1, n);
    SettlesInBand(avg.0, EXP_1, tasks * FIXED_1, n + 1);
    SettlesInBand(avg.1, EXP_5, tasks * FIXED_1, n);
    SettlesInBand(avg.1, EXP_5, tasks * FIXED_1, n + 1);
  }

  // ---------------------------------------------------------------- displayed load

  function Pow2(n: nat): nat {
    if n == 0 then 1 else 2 * Pow2(n - 1)
  }

  function LoadInt(x: UInt64): UInt64 {
    x / FIXED_1
  }

  function LoadFrac(x: UInt64): UInt64 {
    LoadInt(x % FIXED_1 * 100)
  }

  function Display(avg: UInt64, offset: UInt64, shift: nat): real {
    var load := (avg + offset) % TWO64 * Pow2(shift) % TWO64;
    LoadInt(load) as real + LoadFrac(load) as real / 100.0
  }

  function GetAvenrun(avg: (UInt64, UInt64), offset: UInt64, shift: nat): (real, real) {
    (Display(avg.0, offset, shift), Display(avg.1, offset, shift))
  }

  // The integer and fraction parts together are the load in hundredths, rounded down.
  lemma DisplayIsFloor(x: UInt64)
    requires x + FIXED_1 / 200 < TWO64
    ensures Display(x, FIXED_1 / 200, 0) == ((100 * (x + 10)) / FIXED_1) as real / 100.0
  {
    var y := x + 10;
    assert FIXED_1 / 200 == 10 && Pow2(0) == 1;
    SmallMod(y);
    SmallMod(y * 1);
    Hundredths(y);
    hide LoadInt, LoadFrac;
    SumOfParts(LoadInt(y), LoadFrac(y));
  }

  lemma Hundredths(y: UInt64)
    ensures 100 * LoadInt(y) + LoadFrac(y) == (100 * y) / FIXED_1
  {
    var q, r := y / FIXED_1, y % FIXED_1;
    assert 100 * y == (100 * q) * FIXED_1 + 100 * r;
  }

  lemma SumOfParts(whole: int, hundredths: int)
    ensures whole as real + hundredths as real / 100.0 == (100 * whole + hundredths) as real / 100.0
  {
    assert (100 * whole + hundredths) as real == 100.0 * whole as real + hundredths as real;
  }

  lemma DisplayMonotone(x: UInt64, y: UInt64)
    requires x <= y && y + FIXED_1 / 200 < TWO64
    ensures Display(x, FIXED_1 / 200, 0) <= Display(y, FIXED_1 / 200, 0)
  {
    DisplayIsFloor(x);
    DisplayIsFloor(y);
    assert (100 * (x + 10)) / FIXED_1 <= (100 * (y + 10)) / FIXED_1;
  }

  // What is shown differs from the exact average by less than 0.0052.
  lemma DisplayClose(x: UInt64)
    requires x + FIXED_1 / 200 < TWO64
    ensures var exact := x as real / FIXED_1 as real;
            -0.0052 < Display(x, FIXED_1 / 200, 0) - exact < 0.0052
  {
    DisplayIsFloor(x);
    var h := (100 * (x + 10)) / FIXED_1;
    assert h * FIXED_1 <= 100 * (x + 10) < (h + 1) * FIXED_1;
    RealBounds(x, h);
  }

  lemma RealBounds(x: int, h: int)
    requires h * FIXED_1 <= 100 * (x + 10) < (h + 1) * FIXED_1
    ensures var exact := x as real / FIXED_1 as real;
            -0.0052 < h as real / 100.0 - exact < 0.0052
  {
    assert (h * FIXED_1) as real == h as real * 2048.0;
    assert (100 * (x + 10)) as real == 100.0 * (x as real + 10.0);
    assert h as real * 2048.0 <= 100.0 * (x as real + 10.0) < (h as real + 1.0) * 2048.0;
  }

  // Of the pair shown, the first is the one-minute average and the second the
  // five-minute one.
  lemma AvenrunClose(avg: (UInt64, UInt64))
    requires avg.0 + FIXED_1 / 200 < TWO64 && avg.1 + FIXED_1 / 200 < TWO64
    ensures var shown := GetAvenrun(avg, FIXED_1 / 200, 0);
            -0.0052 < shown.0 - avg.0 as real / FIXED_1 as real < 0.0052 &&
            -0.0052 < shown.1 - avg.1 as real / FIXED_1 as real < 0.0052
  {
    hide Display;
    DisplayClose(avg.0);
    DisplayClose(avg.1);
  }
}
