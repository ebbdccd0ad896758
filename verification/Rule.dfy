/** The divergence rule: a fixed baseline, the median of the opening window, and a sliding window of eleven readings. */
module Rule {
  import opened Text

  const WINDOW_TICKS: nat := 10
  const SOC_DELTA_MAX_PCT: real := -5.0
  const TEMP_SLOPE_MIN_C: real := 1.5
  const CHARGE_COLLAPSE_RATIO: real := 0.35

  datatype Reading = Reading(unitId: string, tick: int, socPct: real, tempC: real, chargeCurrentA: real)

  /** Rounding to two and to three decimals, as the platform does it. */
  datatype Rounding = Rounding(two: real -> real, three: real -> real)

  datatype Metrics = Metrics(unitId: string, tick: int, socDelta: real, tempSlope: real, chargeRatio: real,
                             nominalCurrent: real, windowTicks: nat)

  datatype Check = Check(name: string, passed: bool, value: Option<real>)

  datatype Evaluation = Evaluation(unitId: string, tick: int, diverged: bool, checks: seq<Check>,
                                   socDelta: Option<real>, tempSlope: Option<real>, chargeRatio: Option<real>,
                                   nominalCurrent: Option<real>, heldBackBy: seq<string>)

  datatype Outcome = NoReadings | SeveralUnits | Evaluated(evaluation: Evaluation)

  // ---- sorting ----

  function Insert(x: real, xs: seq<real>): seq<real> {
    if xs == [] || x <= xs[0] then [x] + xs else [xs[0]] + Insert(x, xs[1..])
  }

  function Sorted(xs: seq<real>): seq<real> {
    if xs == [] then [] else Insert(xs[0], Sorted(xs[1..]))
  }

  ghost predicate Ascending(xs: seq<real>) {
    |xs| >= 2 ==> xs[0] <= xs[1] && Ascending(xs[1..])
  }

  lemma {:induction false} AscendingAt(xs: seq<real>, i: nat, j: nat)
    requires Ascending(xs) && i <= j < |xs|
    ensures xs[i] <= xs[j]
  {
    if i > 0 {
      AscendingAt(xs[1..], i - 1, j - 1);
    } else if j > 0 {
      AscendingAt(xs[1..], 0, j - 1);
    }
  }

  lemma {:induction false} InsertSorts(x: real, xs: seq<real>)
    requires Ascending(xs)
    ensures Ascending(Insert(x, xs))
    ensures Insert(x, xs)[0] == if xs == [] || x <= xs[0] then x else xs[0]
  {
    if xs == [] || x <= xs[0] {
      assert ([x] + xs)[1..] == xs;
    } else {
      InsertSorts(x, xs[1..]);
      assert ([xs[0]] + Insert(x, xs[1..]))[1..] == Insert(x, xs[1..]);
    }
  }

  lemma {:induction false} InsertKeeps(x: real, xs: seq<real>)
    ensures multiset(Insert(x, xs)) == multiset{x} + multiset(xs)
  {
    if xs != [] && x > xs[0] {
      InsertKeeps(x, xs[1..]);
      assert xs == [xs[0]] + xs[1..];
    }
  }

  lemma {:induction false} SortedAscends(xs: seq<real>)
    ensures Ascending(Sorted(xs))
  {
    if xs != [] {
      SortedAscends(xs[1..]);
      InsertSorts(xs[0], Sorted(xs[1..]));
    }
  }

  lemma {:induction false} SortedKeeps(xs: seq<real>)
    ensures multiset(Sorted(xs)) == multiset(xs)
  {
    if xs != [] {
      SortedKeeps(xs[1..]);
      InsertKeeps(xs[0], Sorted(xs[1..]));
      assert xs == [xs[0]] + xs[1..];
    }
  }

  lemma SortedSorts(xs: seq<real>)
    ensures Ascending(Sorted(xs)) && multiset(Sorted(xs)) == multiset(xs)
    ensures |Sorted(xs)| == |xs|
  {
    SortedAscends(xs);
    SortedKeeps(xs);
    SameMultisetSameLength(Sorted(xs), xs);
  }

  lemma SameMultisetSameLength(xs: seq<real>, ys: seq<real>)
    requires multiset(xs) == multiset(ys)
    ensures |xs| == |ys|
  {
    assert |multiset(xs)| == |multiset(ys)|;
  }

  lemma LeastFirst(xs: seq<real>, y: real)
    requires Ascending(xs) && y in multiset(xs)
    ensures xs != [] && xs[0] <= y
  {
  }

  lemma TailMultiset(xs: seq<real>)
    requires xs != []
    ensures multiset(xs[1..]) == multiset(xs) - multiset{xs[0]}
    ensures xs[0] in multiset(xs)
  {
    assert xs == [xs[0]] + xs[1..];
  }

  lemma SameLeast(xs: seq<real>, ys: seq<real>)
    requires Ascending(xs) && Ascending(ys) && multiset(xs) == multiset(ys) && xs != []
    ensures ys != [] && xs[0] == ys[0]
  {
    assert xs[0] in multiset(ys);
    assert ys[0] in multiset(xs);
    LeastFirst(xs, ys[0]);
    LeastFirst(ys, xs[0]);
  }

  lemma {:induction false} AscendingUnique(xs: seq<real>, ys: seq<real>)
    requires Ascending(xs) && Ascending(ys) && multiset(xs) == multiset(ys)
    ensures xs == ys
  {
    SameMultisetSameLength(xs, ys);
    if xs != [] {
      SameLeast(xs, ys);
      assert multiset(xs[1..]) == multiset(ys[1..]) by {
        TailMultiset(xs);
        TailMultiset(ys);
      }
      AscendingUnique(xs[1..], ys[1..]);
      assert xs == [xs[0]] + xs[1..] && ys == [ys[0]] + ys[1..];
    }
  }

  // ---- the rule ----

  function Currents(readings: seq<Reading>): seq<real> {
    seq(|readings|, i requires 0 <= i < |readings| => readings[i].chargeCurrentA)
  }

  /** The middle of the opening window's charge currents. */
  function Nominal(history: seq<Reading>): real
    requires |history| > WINDOW_TICKS
  {
    var opening := Currents(history[..WINDOW_TICKS + 1]);
    SortedSorts(opening);
    Sorted(opening)[|opening| / 2]
  }

  function ComputeMetrics(history: seq<Reading>, rounding: Rounding): Option<Metrics> {
    if |history| <= WINDOW_TICKS then None
    else
      var window := history[|history| - (WINDOW_TICKS + 1)..];
      var first, last := window[0], window[|window| - 1];
      var nominal := Nominal(history);
      Some(Metrics(last.unitId, last.tick,
                   rounding.two(last.socPct - first.socPct),
                   rounding.two(last.tempC - first.tempC),
                   rounding.three(if nominal > 0.0 then last.chargeCurrentA / nominal else 1.0),
                   rounding.two(nominal),
                   WINDOW_TICKS))
  }

  function FailedNames(checks: seq<Check>): seq<string> {
    if checks == [] then [] else (if checks[0].passed then [] else [checks[0].name]) + FailedNames(checks[1..])
  }

  function Evaluate(history: seq<Reading>, rounding: Rounding): Outcome {
    if history == [] then NoReadings
    else if exists r <- history :: r.unitId != history[0].unitId then SeveralUnits
    else
      var latest := history[|history| - 1];
      if |history| <= WINDOW_TICKS then
        Evaluated(Evaluation(latest.unitId, latest.tick, false, [Check("window", false, None)],
                             None, None, None, None, ["window"]))
      else
        var m := ComputeMetrics(history, rounding).value;
        var checks := [Check("soc_delta", m.socDelta < SOC_DELTA_MAX_PCT, Some(m.socDelta)),
                       Check("temp_slope", m.tempSlope > TEMP_SLOPE_MIN_C, Some(m.tempSlope)),
                       Check("charge_current", m.chargeRatio < CHARGE_COLLAPSE_RATIO, Some(m.chargeRatio))];
        Evaluated(Evaluation(latest.unitId, latest.tick, forall c <- checks :: c.passed, checks,
                             Some(rounding.two(m.socDelta)), Some(rounding.two(m.tempSlope)),
                             Some(rounding.three(m.chargeRatio)), Some(rounding.two(m.nominalCurrent)),
                             FailedNames(checks)))
  }

  ghost predicate SingleUnit(history: seq<Reading>) {
    forall r <- history :: r.unitId == history[0].unitId
  }

  /** A full window diverges exactly when nothing holds it back, and each check holds it back exactly when the change
      since the reading ten ticks earlier, or the current against the baseline, misses its threshold. */
  lemma DivergesExactly(history: seq<Reading>, rounding: Rounding)
    requires SingleUnit(history) && |history| >= 11
    ensures var e, now := Evaluate(history, rounding).evaluation, history[|history| - 1];
            var then10 := history[|history| - 11];
            var ratio := if Nominal(history) > 0.0 then now.chargeCurrentA / Nominal(history) else 1.0;
            && (e.diverged <==> e.heldBackBy == [])
            && ("soc_delta" in e.heldBackBy <==> rounding.two(now.socPct - then10.socPct) >= -5.0)
            && ("temp_slope" in e.heldBackBy <==> rounding.two(now.tempC - then10.tempC) <= 1.5)
            && ("charge_current" in e.heldBackBy <==> rounding.three(ratio) >= 0.35)
  {
    hide Nominal;
    var checks := Evaluate(history, rounding).evaluation.checks;
    assert |checks| == 3;
    FailedNamesOfThree(checks);
  }

  /** The numbers an evaluation reports, rounded as often as they are; and what it says of a window not yet full, of no
      readings, and of readings of several units. */
  lemma EvaluationByFields(history: seq<Reading>, rounding: Rounding)
    ensures Evaluate(history, rounding) == NoReadings <==> history == []
    ensures Evaluate(history, rounding) == SeveralUnits
       <==> exists a, b | a in history && b in history :: a.unitId != b.unitId
    ensures history != [] && SingleUnit(history) ==>
              var e, now := Evaluate(history, rounding).evaluation, history[|history| - 1];
              && e.unitId == now.unitId && e.tick == now.tick
              && (|history| < 11 ==> !e.diverged && e.heldBackBy == ["window"] && e.socDelta == None)
              && (|history| >= 11 ==>
                    var then10, nominal := history[|history| - 11], Nominal(history);
                    var ratio := if nominal > 0.0 then now.chargeCurrentA / nominal else 1.0;
                    && e.socDelta == Some(rounding.two(rounding.two(now.socPct - then10.socPct)))
                    && e.tempSlope == Some(rounding.two(rounding.two(now.tempC - then10.tempC)))
                    && e.chargeRatio == Some(rounding.three(rounding.three(ratio)))
                    && e.nominalCurrent == Some(rounding.two(rounding.two(nominal))))
  {
    hide Nominal, FailedNames;
    if a, b :| a in history && b in history && a.unitId != b.unitId {
      assert a.unitId != history[0].unitId || b.unitId != history[0].unitId;
    }
    if r :| r in history && r.unitId != history[0].unitId {
      assert history[0] in history;
    }
  }

  lemma FailedNamesOfThree(checks: seq<Check>)
    requires |checks| == 3
    ensures FailedNames(checks) == (if checks[0].passed then [] else [checks[0].name])
                                   + (if checks[1].passed then [] else [checks[1].name])
                                   + (if checks[2].passed then [] else [checks[2].name])
  {
    var last := checks[2..];
    assert last[1..] == [] && checks[1..][1..] == last;
    assert FailedNames(last) == if checks[2].passed then [] else [checks[2].name];
    assert FailedNames(checks[1..]) == (if checks[1].passed then [] else [checks[1].name]) + FailedNames(last);
  }

  // ---- what it depends on ----

  ghost predicate SameEnds(a: seq<Reading>, b: seq<Reading>) {
    var n := WINDOW_TICKS + 1;
    && |a| >= n && |b| >= n
    && a[..n] == b[..n] && a[|a| - n..] == b[|b| - n..]
  }

  /** Bounded memory: metrics and verdict of a unit depend on its first and its last eleven readings only. */
  lemma DependsOnEndsOnly(a: seq<Reading>, b: seq<Reading>, rounding: Rounding)
    requires SameEnds(a, b)
    ensures ComputeMetrics(a, rounding) == ComputeMetrics(b, rounding)
    ensures SingleUnit(a) && SingleUnit(b) ==> Evaluate(a, rounding) == Evaluate(b, rounding)
  {
  }

  /** The baseline is fixed by the opening window: no later reading moves it. */
  lemma NominalNeverMoves(history: seq<Reading>, more: seq<Reading>)
    requires |history| > WINDOW_TICKS
    ensures Nominal(history + more) == Nominal(history)
  {
    assert (history + more)[..WINDOW_TICKS + 1] == history[..WINDOW_TICKS + 1];
  }

  /** ... nor does the order of the opening window. */
  lemma NominalIgnoresOrder(a: seq<Reading>, b: seq<Reading>)
    requires |a| > WINDOW_TICKS && |b| > WINDOW_TICKS
    requires multiset(Currents(a[..WINDOW_TICKS + 1])) == multiset(Currents(b[..WINDOW_TICKS + 1]))
    ensures Nominal(a) == Nominal(b)
  {
    var x, y := Currents(a[..WINDOW_TICKS + 1]), Currents(b[..WINDOW_TICKS + 1]);
    SortedSorts(x);
    SortedSorts(y);
    AscendingUnique(Sorted(x), Sorted(y));
  }

  function CountIf(xs: seq<real>, p: real -> bool): nat {
    if xs == [] then 0 else (if p(xs[0]) then 1 else 0) + CountIf(xs[1..], p)
  }

  lemma {:induction false} CountIfRemove(xs: seq<real>, p: real -> bool, i: nat)
    requires i < |xs|
    ensures CountIf(xs, p) == (if p(xs[i]) then 1 else 0) + CountIf(xs[..i] + xs[i + 1..], p)
  {
    if i == 0 {
      assert xs[..0] + xs[1..] == xs[1..];
    } else {
      CountIfRemove(xs[1..], p, i - 1);
      var less := xs[..i] + xs[i + 1..];
      assert less[1..] == xs[1..][..i - 1] + xs[1..][i..];
      assert less[0] == xs[0];
    }
  }

  lemma {:induction false} CountIfPermuted(xs: seq<real>, ys: seq<real>, p: real -> bool)
    requires multiset(xs) == multiset(ys)
    ensures CountIf(xs, p) == CountIf(ys, p)
  {
    if xs == [] {
      assert |multiset(ys)| == 0;
    } else {
      assert xs == [xs[0]] + xs[1..];
      assert xs[0] in multiset(ys);
      var i :| 0 <= i < |ys| && ys[i] == xs[0];
      var less := ys[..i] + ys[i + 1..];
      assert ys == ys[..i] + [ys[i]] + ys[i + 1..];
      assert multiset(less) == multiset(ys) - multiset{xs[0]};
      CountIfRemove(ys, p, i);
      CountIfPermuted(xs[1..], less, p);
    }
  }

  lemma {:induction false} CountIfAll(xs: seq<real>, p: real -> bool, lo: nat, hi: nat)
    requires lo <= hi <= |xs| && forall i | lo <= i < hi :: p(xs[i])
    ensures CountIf(xs, p) >= hi - lo
  {
    if xs != [] {
      if lo > 0 {
        CountIfAll(xs[1..], p, lo - 1, hi - 1);
      } else if hi > 0 {
        CountIfAll(xs[1..], p, 0, hi - 1);
      }
    }
  }

  /** The baseline is a true median: a reading of the opening window, with at least six of the eleven at or below
      it and at least six at or above it. */
  lemma NominalIsMedian(history: seq<Reading>)
    requires |history| > WINDOW_TICKS
    ensures var opening, m := Currents(history[..WINDOW_TICKS + 1]), Nominal(history);
            m in opening && CountIf(opening, x => x <= m) >= 6 && CountIf(opening, x => x >= m) >= 6
  {
    var opening, m := Currents(history[..WINDOW_TICKS + 1]), Nominal(history);
    var s := Sorted(opening);
    SortedSorts(opening);
    assert s[5] == m && m in multiset(s);
    forall i | 0 <= i < 11
      ensures i <= 5 ==> s[i] <= m
      ensures i >= 5 ==> s[i] >= m
    {
      AscendingAt(s, if i <= 5 then i else 5, if i <= 5 then 5 else i);
    }
    CountIfAll(s, x => x <= m, 0, 6);
    CountIfAll(s, x => x >= m, 5, 11);
    CountIfPermuted(s, opening, x => x <= m);
    CountIfPermuted(s, opening, x => x >= m);
  }

  /** The price of the fixed baseline: a unit whose current is not below its own baseline does not diverge, so one
      that was collapsed from the start never does while it stays where it is. */
  lemma NoDivergenceAtOwnBaseline(history: seq<Reading>, rounding: Rounding)
    requires |history| > WINDOW_TICKS && SingleUnit(history)
    requires forall x: real, y: real :: x <= y ==> rounding.three(x) <= rounding.three(y)
    requires rounding.three(1.0) == 1.0
    requires history[|history| - 1].chargeCurrentA >= Nominal(history)
    ensures !Evaluate(history, rounding).evaluation.diverged
    ensures "charge_current" in Evaluate(history, rounding).evaluation.heldBackBy
  {
    var m := ComputeMetrics(history, rounding).value;
    var nominal, last := Nominal(history), history[|history| - 1];
    if nominal > 0.0 {
      assert last.chargeCurrentA / nominal >= 1.0;
    }
    assert m.chargeRatio >= 1.0;
    var checks := Evaluate(history, rounding).evaluation.checks;
    assert checks[2] in checks && !checks[2].passed;
    assert FailedNames(checks[2..]) == ["charge_current"] + FailedNames(checks[2..][1..]);
    assert checks[1..][1..] == checks[2..];
    assert "charge_current" in FailedNames(checks[2..]);
    assert "charge_current" in FailedNames(checks[1..]);
  }
}
