/**
  Concrete schedules, run call by call: out-of-order values, the skip
  budget, overshoots, the forced first and last outputs, and the
  `[1, 2, 3, 40, 15]` iterator from the comment in `advance_iter`. Each
  proof lists the state after every call.
 */
module SchedulerExamples {
  import opened Wrappers
  import opened Times
  import opened Scheduler
  import opened ScheduleRun

  function Start(src: Source, saveFirst: bool, saveLast: bool): Sched
  {
    RegisterTimes(Init(saveFirst, saveLast), src)
  }

  /** The state of a running scheduler: iterator position, pending and previous time, exhaustion. */
  function At(src: Source, pos: nat, next: Option<real>, prev: Option<real>, exhausted: bool, saveLast: bool): Sched
  {
    Sched(Some(Cursor(src, pos)), next, prev, exhausted, false, saveLast)
  }

  /** A resolution succeeds with the given time, iterator and warnings. */
  ghost predicate ResolvesTo(r: Result<Resolved, Error>, time: Option<real>, c: Cursor, ws: seq<SkipWarning>)
  {
    r.Ok? && r.value.time == time && r.value.cursor == c && !r.value.saveFirst && r.value.warnings == ws
  }

  /** An advance succeeds with the given time, state and warnings. */
  ghost predicate StepsTo(r: Result<Step, Error>, time: Option<real>, s: Sched, ws: seq<SkipWarning>)
  {
    r.Ok? && r.value.time == time && r.value.sched == s && r.value.warnings == ws
  }

  /** A run of n + 1 calls whose first call is known. */
  lemma Then(s: Sched, stop: real, n: nat, st: Step, times: seq<Option<real>>, last: Sched, ws: seq<SkipWarning>)
    requires StepsTo(Advance(s, stop), st.time, st.sched, st.warnings)
    requires Run(st.sched, stop, n).Ok?
    requires var t := Run(st.sched, stop, n).value; t.times == times && t.sched == last && t.warnings == ws
    ensures Run(s, stop, n + 1).Ok?
    ensures var t := Run(s, stop, n + 1).value;
            t.times == [st.time] + times && t.sched == last && t.warnings == st.warnings + ws
  {
  }

  /** An empty run. */
  lemma Done(s: Sched, stop: real)
    ensures Run(s, stop, 0) == Ok(Trace([], s, []))
  {
  }

  /** An out-of-order 1.5 after 2.0 is skipped with one warning; the stop time is appended. */
  lemma SkipOutOfOrder()
    ensures var t := Run(Start(Floats([1.0, 2.0, 1.5, 5.0]), false, true), 10.0, 5);
            && t.Ok?
            && t.value.times == [Some(1.0), Some(2.0), Some(5.0), Some(10.0), None]
            && t.value.warnings == [SkipWarning(1.5, 2.0)]
            && t.value.sched.prev == Some(10.0) && t.value.sched.exhausted
  {
    var src := Floats([1.0, 2.0, 1.5, 5.0]);
    var s1 := At(src, 1, Some(1.0), None, false, true);
    var s2 := At(src, 2, Some(2.0), Some(1.0), false, true);
    var s3 := At(src, 4, Some(5.0), Some(2.0), false, true);
    var s4 := At(src, 5, Some(10.0), Some(5.0), false, true);
    var s5 := At(src, 5, None, Some(10.0), true, true);
    assert Advance(Start(src, false, true), 10.0) == Ok(Step(Some(1.0), s1, []));
    assert Advance(s1, 10.0) == Ok(Step(Some(2.0), s2, []));
    assert ResolvesTo(Resolve(Cursor(src, 3), false, true, Some(2.0), 10.0, MaxSkips - 1), Some(5.0), Cursor(src, 4), []);
    assert StepsTo(Advance(s2, 10.0), Some(5.0), s3, [SkipWarning(1.5, 2.0)]);
    assert Advance(s3, 10.0) == Ok(Step(Some(10.0), s4, []));
    assert Advance(s4, 10.0) == Ok(Step(None, s5, []));
    Done(s5, 10.0);
    Then(s4, 10.0, 0, Step(None, s5, []), [], s5, []);
    Then(s3, 10.0, 1, Step(Some(10.0), s4, []), [None], s5, []);
    Then(s2, 10.0, 2, Step(Some(5.0), s3, [SkipWarning(1.5, 2.0)]), [Some(10.0), None], s5, []);
    Then(s1, 10.0, 3, Step(Some(2.0), s2, []),
         [Some(5.0), Some(10.0), None], s5, [SkipWarning(1.5, 2.0)]);
    Then(Start(src, false, true), 10.0, 4, Step(Some(1.0), s1, []),
         [Some(2.0), Some(5.0), Some(10.0), None], s5, [SkipWarning(1.5, 2.0)]);
  }

  /** Five regressions after 1.0 are tolerated; the exhausted iterator then yields the stop time. */
  lemma FiveRegressionsTolerated()
    ensures var t := Run(Start(Floats([1.0, 0.9, 0.8, 0.7, 0.6, 0.5]), false, true), 10.0, 3);
            && t.Ok?
            && t.value.times == [Some(1.0), Some(10.0), None]
            && t.value.warnings == [SkipWarning(0.9, 1.0), SkipWarning(0.8, 1.0), SkipWarning(0.7, 1.0),
                                    SkipWarning(0.6, 1.0), SkipWarning(0.5, 1.0)]
  {
    var src := Floats([1.0, 0.9, 0.8, 0.7, 0.6, 0.5]);
    var ws := [SkipWarning(0.9, 1.0), SkipWarning(0.8, 1.0), SkipWarning(0.7, 1.0),
               SkipWarning(0.6, 1.0), SkipWarning(0.5, 1.0)];
    var s1 := At(src, 1, Some(1.0), None, false, true);
    var s2 := At(src, 7, Some(10.0), Some(1.0), false, true);
    var s3 := At(src, 7, None, Some(10.0), true, true);
    assert Advance(Start(src, false, true), 10.0) == Ok(Step(Some(1.0), s1, []));
    assert ResolvesTo(Resolve(Cursor(src, 6), false, true, Some(1.0), 10.0, 0), Some(10.0), Cursor(src, 7), []);
    assert ResolvesTo(Resolve(Cursor(src, 5), false, true, Some(1.0), 10.0, 1), Some(10.0), Cursor(src, 7), ws[4..]);
    assert ResolvesTo(Resolve(Cursor(src, 4), false, true, Some(1.0), 10.0, 2), Some(10.0), Cursor(src, 7), ws[3..]);
    assert ResolvesTo(Resolve(Cursor(src, 3), false, true, Some(1.0), 10.0, 3), Some(10.0), Cursor(src, 7), ws[2..]);
    assert ResolvesTo(Resolve(Cursor(src, 2), false, true, Some(1.0), 10.0, 4), Some(10.0), Cursor(src, 7), ws[1..]);
    assert ResolvesTo(Resolve(Cursor(src, 1), false, true, Some(1.0), 10.0, MaxSkips), Some(10.0), Cursor(src, 7), ws);
    assert StepsTo(Advance(s1, 10.0), Some(10.0), s2, ws);
    assert Advance(s2, 10.0) == Ok(Step(None, s3, []));
    Done(s3, 10.0);
    Then(s2, 10.0, 0, Step(None, s3, []), [], s3, []);
    Then(s1, 10.0, 1, Step(Some(10.0), s2, ws), [None], s3, []);
    Then(Start(src, false, true), 10.0, 2, Step(Some(1.0), s1, []), [Some(10.0), None], s3, ws);
  }

  /** A sixth regression in one advance raises RecursionError. */
  lemma SixRegressionsRaise()
    ensures Run(Start(Floats([1.0, 0.9, 0.8, 0.7, 0.6, 0.5, 0.4]), false, true), 10.0, 2) == Err(TooManySkips)
  {
    var src := Floats([1.0, 0.9, 0.8, 0.7, 0.6, 0.5, 0.4]);
    var s1 := At(src, 1, Some(1.0), None, false, true);
    assert Advance(Start(src, false, true), 10.0) == Ok(Step(Some(1.0), s1, []));
    assert Resolve(Cursor(src, 6), false, true, Some(1.0), 10.0, 0) == Err(TooManySkips);
    assert Resolve(Cursor(src, 5), false, true, Some(1.0), 10.0, 1) == Err(TooManySkips);
    assert Resolve(Cursor(src, 4), false, true, Some(1.0), 10.0, 2) == Err(TooManySkips);
    assert Resolve(Cursor(src, 3), false, true, Some(1.0), 10.0, 3) == Err(TooManySkips);
    assert Resolve(Cursor(src, 2), false, true, Some(1.0), 10.0, 4) == Err(TooManySkips);
    assert Resolve(Cursor(src, 1), false, true, Some(1.0), 10.0, MaxSkips) == Err(TooManySkips);
    assert Advance(s1, 10.0) == Err(TooManySkips);
  }

  /** An interval longer than the run is clamped to the stop time, or dropped without the last output. */
  lemma OvershootClamped()
    ensures var t := Run(Start(Floats([100.0]), false, true), 10.0, 2);
            t.Ok? && t.value.times == [Some(10.0), None]
    ensures var t := Run(Start(Floats([100.0]), false, false), 10.0, 1);
            t.Ok? && t.value.times == [None]
  {
    var src := Floats([100.0]);
    var s1 := At(src, 1, Some(10.0), None, false, true);
    var s2 := At(src, 1, None, Some(10.0), true, true);
    assert Advance(Start(src, false, true), 10.0) == Ok(Step(Some(10.0), s1, []));
    assert Advance(s1, 10.0) == Ok(Step(None, s2, []));
    Done(s2, 10.0);
    Then(s1, 10.0, 0, Step(None, s2, []), [], s2, []);
    Then(Start(src, false, true), 10.0, 1, Step(Some(10.0), s1, []), [None], s2, []);
    var d1 := At(src, 1, None, None, true, false);
    assert Advance(Start(src, false, false), 10.0) == Ok(Step(None, d1, []));
    Done(d1, 10.0);
    Then(Start(src, false, false), 10.0, 0, Step(None, d1, []), [], d1, []);
  }

  /** A source reaching the stop time itself yields it once, and its later values are never pulled. */
  lemma StopTimeOnce()
    ensures var t := Run(Start(Floats([1.0, 10.0, 3.0]), false, true), 10.0, 4);
            && t.Ok?
            && t.value.times == [Some(1.0), Some(10.0), None, None]
            && t.value.sched.times == Some(Cursor(Floats([1.0, 10.0, 3.0]), 2))
  {
    var src := Floats([1.0, 10.0, 3.0]);
    var s1 := At(src, 1, Some(1.0), None, false, true);
    var s2 := At(src, 2, Some(10.0), Some(1.0), false, true);
    var s3 := At(src, 2, None, Some(10.0), true, true);
    assert Advance(Start(src, false, true), 10.0) == Ok(Step(Some(1.0), s1, []));
    assert Advance(s1, 10.0) == Ok(Step(Some(10.0), s2, []));
    assert Advance(s2, 10.0) == Ok(Step(None, s3, []));
    assert Advance(s3, 10.0) == Ok(Step(None, s3, []));
    Done(s3, 10.0);
    Then(s3, 10.0, 0, Step(None, s3, []), [], s3, []);
    Then(s2, 10.0, 1, Step(None, s3, []), [None], s3, []);
    Then(s1, 10.0, 2, Step(Some(10.0), s2, []), [None, None], s3, []);
    Then(Start(src, false, true), 10.0, 3, Step(Some(1.0), s1, []), [Some(10.0), None, None], s3, []);
  }

  /** [1, 2, 3, 40, 15] with stop time 20: 40 overshoots, the stop time is output, 15 is never pulled. */
  lemma OvershootThenGarbage()
    ensures var t := Run(Start(Floats([1.0, 2.0, 3.0, 40.0, 15.0]), false, true), 20.0, 6);
            && t.Ok?
            && t.value.times == [Some(1.0), Some(2.0), Some(3.0), Some(20.0), None, None]
            && t.value.sched.times.value.pos == 4
  {
    var src := Floats([1.0, 2.0, 3.0, 40.0, 15.0]);
    var s1 := At(src, 1, Some(1.0), None, false, true);
    var s2 := At(src, 2, Some(2.0), Some(1.0), false, true);
    var s3 := At(src, 3, Some(3.0), Some(2.0), false, true);
    var s4 := At(src, 4, Some(20.0), Some(3.0), false, true);
    var s5 := At(src, 4, None, Some(20.0), true, true);
    assert Advance(Start(src, false, true), 20.0) == Ok(Step(Some(1.0), s1, []));
    assert Advance(s1, 20.0) == Ok(Step(Some(2.0), s2, []));
    assert Advance(s2, 20.0) == Ok(Step(Some(3.0), s3, []));
    assert Advance(s3, 20.0) == Ok(Step(Some(20.0), s4, []));
    assert Advance(s4, 20.0) == Ok(Step(None, s5, []));
    assert Advance(s5, 20.0) == Ok(Step(None, s5, []));
    Done(s5, 20.0);
    Then(s5, 20.0, 0, Step(None, s5, []), [], s5, []);
    Then(s4, 20.0, 1, Step(None, s5, []), [None], s5, []);
    Then(s3, 20.0, 2, Step(Some(20.0), s4, []), [None, None], s5, []);
    Then(s2, 20.0, 3, Step(Some(3.0), s3, []), [Some(20.0), None, None], s5, []);
    Then(s1, 20.0, 4, Step(Some(2.0), s2, []), [Some(3.0), Some(20.0), None, None], s5, []);
    Then(Start(src, false, true), 20.0, 5, Step(Some(1.0), s1, []),
         [Some(2.0), Some(3.0), Some(20.0), None, None], s5, []);
  }

  /** A forced 0.0 followed by an iterator starting at 0.0: the duplicate zero is skipped silently. */
  lemma ForcedZeroThenZero()
    ensures var t := Run(Start(Floats([0.0, 5.0]), true, true), 10.0, 4);
            && t.Ok?
            && t.value.times == [Some(0.0), Some(5.0), Some(10.0), None]
            && t.value.warnings == []
  {
    var src := Floats([0.0, 5.0]);
    var s1 := At(src, 0, Some(0.0), None, false, true);
    var s2 := At(src, 2, Some(5.0), Some(0.0), false, true);
    var s3 := At(src, 3, Some(10.0), Some(5.0), false, true);
    var s4 := At(src, 3, None, Some(10.0), true, true);
    assert Advance(Start(src, true, true), 10.0) == Ok(Step(Some(0.0), s1, []));
    assert ResolvesTo(Resolve(Cursor(src, 1), false, true, Some(0.0), 10.0, MaxSkips - 1), Some(5.0), Cursor(src, 2), []);
    assert Advance(s1, 10.0) == Ok(Step(Some(5.0), s2, []));
    assert Advance(s2, 10.0) == Ok(Step(Some(10.0), s3, []));
    assert Advance(s3, 10.0) == Ok(Step(None, s4, []));
    Done(s4, 10.0);
    Then(s3, 10.0, 0, Step(None, s4, []), [], s4, []);
    Then(s2, 10.0, 1, Step(Some(10.0), s3, []), [None], s4, []);
    Then(s1, 10.0, 2, Step(Some(5.0), s2, []), [Some(10.0), None], s4, []);
    Then(Start(src, true, true), 10.0, 3, Step(Some(0.0), s1, []), [Some(5.0), Some(10.0), None], s4, []);
  }

  /** A value that is not a float fails the float assertion. */
  lemma NonFloatFails()
    ensures Run(Start(FromSeq([Some(F(1.0)), Some(NotFloat)]), false, true), 10.0, 2) == Err(NotFloatTime)
  {
    var src := FromSeq([Some(F(1.0)), Some(NotFloat)]);
    var s1 := At(src, 1, Some(1.0), None, false, true);
    assert src(0) == Some(F(1.0)) && src(1) == Some(NotFloat);
    assert Advance(Start(src, false, true), 10.0) == Ok(Step(Some(1.0), s1, []));
    assert Advance(s1, 10.0) == Err(NotFloatTime);
  }

  /** With a negative stop time the forced 0.0 lies beyond the run and the next advance fails its assertion. */
  lemma ForcedZeroBeyondNegativeStop()
    ensures var t := Run(Start(Floats([]), true, true), -1.0, 1);
            t.Ok? && t.value.times == [Some(0.0)]
    ensures Run(Start(Floats([]), true, true), -1.0, 2) == Err(PendingBeyondStop)
  {
    var src := Floats([]);
    var s1 := At(src, 0, Some(0.0), None, false, true);
    assert Advance(Start(src, true, true), -1.0) == Ok(Step(Some(0.0), s1, []));
    assert Advance(s1, -1.0) == Err(PendingBeyondStop);
    Done(s1, -1.0);
    Then(Start(src, true, true), -1.0, 0, Step(Some(0.0), s1, []), [], s1, []);
  }
}
