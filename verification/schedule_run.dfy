/**
  Sequences of `advance_iter` calls, as the simulation driver issues them:
  the times they return are strictly increasing, within the run, never
  repeated, and once one call returns None every later call does too.
 */
module ScheduleRun {
  import opened Wrappers
  import opened Times
  import opened Scheduler
  import opened SchedulerProperties

  /** The times returned by n calls, the final state and all warnings issued. */
  datatype Trace = Trace(times: seq<Option<real>>, sched: Sched, warnings: seq<SkipWarning>)

  /** n consecutive calls of `advance_iter`; the first exception aborts the run. */
  function Run(s: Sched, stop: real, n: nat): (r: Result<Trace, Error>)
    ensures r.Ok? ==> |r.value.times| == n
    decreases n
  {
    if n == 0 then
      Ok(Trace([], s, []))
    else
      match Advance(s, stop)
      case Err(e) => Err(e)
      case Ok(st) =>
        match Run(st.sched, stop, n - 1)
        case Err(e) => Err(e)
        case Ok(t) => Ok(Trace([st.time] + t.times, t.sched, st.warnings + t.warnings))
  }

  /** The output ticks among the returned times, in order. */
  function Ticks(ts: seq<Option<real>>): (r: seq<real>)
    ensures |r| <= |ts|
  {
    if ts == [] then []
    else (if ts[0].Some? then [ts[0].value] else []) + Ticks(ts[1..])
  }

  lemma {:induction false} TicksAppend(a: seq<Option<real>>, b: seq<Option<real>>)
    ensures Ticks(a + b) == Ticks(a) + Ticks(b)
  {
    if a == [] {
      assert a + b == b;
    } else {
      var h := if a[0].Some? then [a[0].value] else [];
      assert (a + b)[0] == a[0] && (a + b)[1..] == a[1..] + b;
      assert Ticks(a + b) == h + Ticks(a[1..] + b);
      TicksAppend(a[1..], b);
      ConcatAssoc(h, Ticks(a[1..]), Ticks(b));
    }
  }

  lemma ConcatAssoc<T>(a: seq<T>, b: seq<T>, c: seq<T>)
    ensures a + b + c == a + (b + c)
  {
  }

  predicate StrictlyIncreasing(xs: seq<real>)
  {
    forall i, j :: 0 <= i < j < |xs| ==> xs[i] < xs[j]
  }

  /** Once None is returned, None is returned ever after. */
  predicate NoneAbsorbing(ts: seq<Option<real>>)
  {
    forall i, j :: 0 <= i < j < |ts| && ts[i].None? ==> ts[j].None?
  }

  /**
    The state agrees with the ticks returned so far: they increase strictly
    and stay within the run; the pending time is the last of them and the
    previous output time the one before it, or, with nothing pending, the
    previous output time is the last tick.
   */
  predicate Consistent(s: Sched, ticks: seq<real>, stop: real)
  {
    && StrictlyIncreasing(ticks)
    && (forall i :: 0 <= i < |ticks| ==> ticks[i] <= stop)
    && (s.next.Some? ==>
          |ticks| >= 1 && ticks[|ticks| - 1] == s.next.value
          && s.prev == (if |ticks| >= 2 then Some(ticks[|ticks| - 2]) else None))
    && (s.next.None? ==> s.prev == (if ticks == [] then None else Some(ticks[|ticks| - 1])))
  }

  /** One successful advance extends the ticks by the time it returns, if any. */
  lemma AdvanceExtendsTicks(s: Sched, stop: real, ticks: seq<real>)
    requires Valid(s, stop) && Consistent(s, ticks, stop)
    requires Advance(s, stop).Ok?
    ensures var st := Advance(s, stop).value;
            Consistent(st.sched, ticks + Ticks([st.time]), stop)
  {
    var st := Advance(s, stop).value;
    if st.time.Some? {
      assert Ticks([st.time]) == [st.time.value];
      var t' := ticks + [st.time.value];
      assert s.next.None? ==> s.prev == (if ticks == [] then None else Some(ticks[|ticks| - 1]));
      assert forall i :: 0 <= i < |ticks| ==> ticks[i] <= ticks[|ticks| - 1];
      assert StrictlyIncreasing(t');
    } else {
      assert Ticks([st.time]) == [];
      assert ticks + [] == ticks;
    }
  }

  /** n times None. */
  function Nones(n: nat): (r: seq<Option<real>>)
    ensures |r| == n && forall i :: 0 <= i < n ==> r[i].None?
  {
    if n == 0 then [] else [None] + Nones(n - 1)
  }

  /** From an exhausted state every call returns None and changes nothing. */
  lemma {:induction false} ExhaustedRunIdle(s: Sched, stop: real, n: nat)
    requires s.times.Some? && s.exhausted && Valid(s, stop)
    ensures Run(s, stop, n) == Ok(Trace(Nones(n), s, []))
    decreases n
  {
    if n > 0 {
      assert Advance(s, stop) == Ok(Step(None, s, []));
      ExhaustedRunIdle(s, stop, n - 1);
      assert Run(s, stop, n - 1) == Ok(Trace(Nones(n - 1), s, []));
      var w: seq<SkipWarning> := [];
      assert Run(s, stop, n) == Ok(Trace([None] + Nones(n - 1), s, w + w));
      assert Nones(n) == [None] + Nones(n - 1);
      assert w + w == w;
    }
  }

  /** A run of n > 0 calls is one advance followed by a run of n - 1 calls. */
  lemma RunStep(s: Sched, stop: real, n: nat)
    requires n > 0 && Run(s, stop, n).Ok?
    ensures Advance(s, stop).Ok? && Run(Advance(s, stop).value.sched, stop, n - 1).Ok?
    ensures var st := Advance(s, stop).value;
            var rest := Run(st.sched, stop, n - 1).value;
            Run(s, stop, n).value == Trace([st.time] + rest.times, rest.sched, st.warnings + rest.warnings)
  {
  }

  /** Over any run from a reachable state the state stays reachable and consistent with every tick returned. */
  lemma {:induction false} RunConsistent(s: Sched, stop: real, n: nat, ticks: seq<real>)
    requires s.times.Some? && Valid(s, stop) && Consistent(s, ticks, stop)
    requires Run(s, stop, n).Ok?
    ensures Valid(Run(s, stop, n).value.sched, stop)
    ensures Consistent(Run(s, stop, n).value.sched, ticks + Ticks(Run(s, stop, n).value.times), stop)
    decreases n
  {
    if n == 0 {
      assert ticks + Ticks([]) == ticks;
    } else {
      RunStep(s, stop, n);
      var st := Advance(s, stop).value;
      var rest := Run(st.sched, stop, n - 1).value;
      AdvanceExtendsTicks(s, stop, ticks);
      var ticks' := ticks + Ticks([st.time]);
      RunConsistent(st.sched, stop, n - 1, ticks');
      TicksAppend([st.time], rest.times);
      ConcatAssoc(ticks, Ticks([st.time]), Ticks(rest.times));
    }
  }

  /** Over any run from a reachable state, once a call returns None every later call does too. */
  lemma {:induction false} RunNoneAbsorbing(s: Sched, stop: real, n: nat)
    requires s.times.Some? && Valid(s, stop)
    requires Run(s, stop, n).Ok?
    ensures NoneAbsorbing(Run(s, stop, n).value.times)
    decreases n
  {
    if n > 0 {
      var st := Advance(s, stop).value;
      var rest := Run(st.sched, stop, n - 1).value;
      var ts := Run(s, stop, n).value.times;
      assert ts == [st.time] + rest.times;
      if st.time.None? {
        ExhaustedRunIdle(st.sched, stop, n - 1);
        assert forall j :: 0 <= j < |ts| ==> ts[j].None?;
      } else {
        RunNoneAbsorbing(st.sched, stop, n - 1);
        forall i, j | 0 <= i < j < |ts| && ts[i].None?
          ensures ts[j].None?
        {
          assert i > 0 && rest.times[i - 1].None?;
          assert ts[j] == rest.times[j - 1];
        }
      }
    }
  }

  /**
    The scheduling guarantees of a writer from registration on: the ticks
    returned are strictly increasing (so never repeated) and at most the
    stop time, None is absorbing, the previous output time is the tick
    before the pending one, and with `save_first_timestep` the first tick
    is 0.0.
   */
  lemma Schedule(saveFirst: bool, saveLast: bool, src: Source, stop: real, n: nat)
    requires saveFirst ==> 0.0 <= stop
    requires Run(RegisterTimes(Init(saveFirst, saveLast), src), stop, n).Ok?
    ensures var t := Run(RegisterTimes(Init(saveFirst, saveLast), src), stop, n).value;
            && StrictlyIncreasing(Ticks(t.times))
            && (forall i :: 0 <= i < |Ticks(t.times)| ==> Ticks(t.times)[i] <= stop)
            && NoneAbsorbing(t.times)
            && Consistent(t.sched, Ticks(t.times), stop)
            && (saveFirst && n > 0 ==> t.times[0] == Some(0.0))
  {
    var s := RegisterTimes(Init(saveFirst, saveLast), src);
    RunConsistent(s, stop, n, []);
    RunNoneAbsorbing(s, stop, n);
    assert [] + Ticks(Run(s, stop, n).value.times) == Ticks(Run(s, stop, n).value.times);
    if saveFirst && n > 0 {
      ForcedZero(s, stop);
    }
  }

  /**
    The forced final output: with `save_last_timestep`, a call that finds
    the schedule finished leaves the stop time as the previous output time,
    so the last tick of every run that ends is the stop time.
   */
  lemma LastTickIsStop(s: Sched, stop: real)
    requires s.times.Some? && Valid(s, stop) && !s.exhausted && s.saveLast
    requires Advance(s, stop).Ok? && Advance(s, stop).value.time.None?
    ensures Advance(s, stop).value.sched.prev == Some(stop)
  {
    if !(s.next.Some? && s.next.value == stop) && !s.saveFirst {
      var prev := if s.next.Some? then s.next else s.prev;
      ResolveFirstUnskipped(s.times.value, s.saveLast, prev, stop, MaxSkips);
    }
  }
}
