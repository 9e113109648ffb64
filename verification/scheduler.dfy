/**
  The output-time state machine of a generic output writer: the state it
  keeps between calls, `advance_iter` (Advance) and the bounded skip-and-clamp
  recursion `_advance_iter_recursive` (Resolve).

  Times are reals: the scheduler only compares float values and never
  computes with them, so comparisons of reals give the same answers.
  The model's clock is reduced to its constant stop time, a parameter.
 */
module Scheduler {
  import opened Wrappers
  import opened Times

  /** The skip budget of one advance: `recursion_counter=5`. */
  const MaxSkips: nat := 5

  /** The exceptions the scheduler raises. */
  datatype Error =
    | NotRegistered          // no times iterator registered
    | NotFloatTime           // the iterator produced a value that is not a float
    | TooManySkips           // RecursionError: a sixth consecutive skip
    | PendingAfterExhausted  // assertion: exhausted but a time is pending
    | PendingBeyondStop      // assertion: the pending time exceeds the stop time

  /** An OutputIteratorSkipWarning: the skipped time and the previous output time. */
  datatype SkipWarning = SkipWarning(next: real, prev: real)

  /** The scheduling state of one writer. `saveLast` never changes. */
  datatype Sched = Sched(
    times: Option<Cursor>,
    next: Option<real>,
    prev: Option<real>,
    exhausted: bool,
    saveFirst: bool,
    saveLast: bool)

  /** The state right after construction: nothing registered, nothing pending. */
  function Init(saveFirst: bool, saveLast: bool): (s: Sched)
    ensures s.times.None? && s.next.None? && s.prev.None? && !s.exhausted
    ensures s.saveFirst == saveFirst && s.saveLast == saveLast
  {
    Sched(None, None, None, false, saveFirst, saveLast)
  }

  /** `register_times_iter`: replaces the iterator of output times. */
  function RegisterTimes(s: Sched, src: Source): (s': Sched)
    ensures s'.times == Some(Cursor(src, 0))
    ensures s'.next == s.next && s'.prev == s.prev && s'.exhausted == s.exhausted
    ensures s'.saveFirst == s.saveFirst && s'.saveLast == s.saveLast
  {
    s.(times := Some(Cursor(src, 0)))
  }

  /**
    The forced-final-output rule, applied when the iterator is exhausted or
    overshoots the stop time: the stop time once more if the last output
    time is required and has not yet been reached, otherwise nothing.
   */
  function StopClamp(saveLast: bool, prev: Option<real>, stop: real): (r: Option<real>)
    ensures r.Some? <==> saveLast && (prev.None? || prev.value < stop)
    ensures r.Some? ==> r.value == stop
  {
    if saveLast && (prev.None? || prev.value < stop) then Some(stop) else None
  }

  /** A pulled value is skipped: a float within the run that does not exceed the previous output time. */
  predicate IsSkip(v: Option<TimeVal>, prev: Option<real>, stop: real)
  {
    v.Some? && v.value.F? && v.value.t <= stop && prev.Some? && v.value.t <= prev.value
  }

  /** Whether a skip of `t` after `p` is warned about: every skip except 0 after 0. */
  predicate Warns(t: real, p: real)
  {
    !(p == 0.0 && t == 0.0)
  }

  /**
    What the first value that is not skipped decides, independently of the
    recursion that finds it: exhaustion or overshoot apply the clamp rule,
    anything else is the next output time itself.
   */
  function Decide(v: Option<TimeVal>, prev: Option<real>, saveLast: bool, stop: real): Option<real>
    requires !IsSkip(v, prev, stop) && v != Some(NotFloat)
  {
    if v.None? || v.value.t > stop then StopClamp(saveLast, prev, stop) else Some(v.value.t)
  }

  /**
    The warnings issued for the skipped values pulled at positions lo up to
    (excluding) hi, with `p` the previous output time: one per float value,
    except 0 after 0, in pull order.
   */
  function SkipWarnings(src: Source, lo: nat, hi: nat, p: real): seq<SkipWarning>
    decreases hi - lo
  {
    if hi <= lo then []
    else
      var v := src(lo);
      (if v.Some? && v.value.F? && Warns(v.value.t, p) then [SkipWarning(v.value.t, p)] else [])
      + SkipWarnings(src, lo + 1, hi, p)
  }

  /** The outcome of one resolution: next time, advanced iterator, flag, warnings issued. */
  datatype Resolved = Resolved(time: Option<real>, cursor: Cursor, saveFirst: bool, warnings: seq<SkipWarning>)

  /**
    `_advance_iter_recursive(recursion_counter=budget)`, with `prev` the
    already updated previous output time.
   */
  function Resolve(c: Cursor, saveFirst: bool, saveLast: bool, prev: Option<real>, stop: real, budget: nat)
    : (r: Result<Resolved, Error>)
    decreases budget
    // The forced first output: 0.0, without pulling, and the flag is cleared.
    ensures saveFirst ==> r == Ok(Resolved(Some(0.0), c, false, []))
    ensures r.Ok? ==> !r.value.saveFirst && r.value.cursor.src == c.src
    // Without the forced first output at least one value and at most budget + 1 values are pulled.
    ensures !saveFirst && r.Ok? ==> c.pos < r.value.cursor.pos <= c.pos + budget + 1
    // A returned time strictly exceeds the previous output time and stays within the run.
    ensures !saveFirst && r.Ok? && r.value.time.Some? ==>
              r.value.time.value <= stop && (prev.Some? ==> prev.value < r.value.time.value)
    // At most one warning per skip, each naming a skipped time and the previous output time.
    ensures !saveFirst && r.Ok? ==> |r.value.warnings| <= r.value.cursor.pos - c.pos - 1
    ensures r.Ok? ==> forall w :: w in r.value.warnings ==>
              prev.Some? && w.prev == prev.value && w.next <= w.prev && Warns(w.next, w.prev)
  {
    if saveFirst then
      Ok(Resolved(Some(0.0), c, false, []))
    else
      var (v, c1) := Pull(c);
      match v
      case None =>
        Ok(Resolved(StopClamp(saveLast, prev, stop), c1, false, []))
      case Some(NotFloat) =>
        Err(NotFloatTime)
      case Some(F(t)) =>
        if t > stop then
          Ok(Resolved(StopClamp(saveLast, prev, stop), c1, false, []))
        else if prev.Some? && prev.value >= t then
          if budget > 0 then
            var w := if Warns(t, prev.value) then [SkipWarning(t, prev.value)] else [];
            match Resolve(c1, false, saveLast, prev, stop, budget - 1)
            case Ok(res) => Ok(res.(warnings := w + res.warnings))
            case Err(e) => Err(e)
          else
            Err(TooManySkips)
        else
          Ok(Resolved(Some(t), c1, false, []))
  }

  /** The result of one `advance_iter`: the returned time, the new state, the warnings issued. */
  datatype Step = Step(time: Option<real>, sched: Sched, warnings: seq<SkipWarning>)

  /**
    The states the scheduler can be in between calls, for a given stop time.
    The forced first output needs a non-negative stop time: with a negative
    one, the assertion that the pending time is within the run fails.
   */
  predicate Valid(s: Sched, stop: real)
  {
    && (s.exhausted ==> s.next.None?)
    && (s.next.Some? ==> s.next.value <= stop)
    && (s.prev.Some? ==> s.prev.value <= stop)
    && (s.prev.Some? && s.next.Some? ==> s.prev.value < s.next.value)
    && (s.saveFirst ==> !s.exhausted && s.next.None? && s.prev.None? && 0.0 <= stop)
  }

  /** `advance_iter` with the clock's stop time `stop`. */
  function Advance(s: Sched, stop: real): (r: Result<Step, Error>)
    // Using the scheduler before registering an iterator is an error.
    ensures s.times.None? <==> r == Err(NotRegistered)
    // From a reachable state the two internal assertions never fail.
    ensures Valid(s, stop) ==> r != Err(PendingAfterExhausted) && r != Err(PendingBeyondStop)
    // Exhaustion is idempotent: None, state and iterator untouched, no warnings.
    ensures s.times.Some? && s.exhausted && Valid(s, stop) ==> r == Ok(Step(None, s, []))
    ensures r.Ok? ==> r.value.sched.saveLast == s.saveLast
    ensures r.Ok? && Valid(s, stop) ==> Valid(r.value.sched, stop) && !r.value.sched.saveFirst
    // The returned time is stored as the pending time; None means exhausted from now on.
    ensures r.Ok? ==> r.value.sched.next == r.value.time
    ensures r.Ok? && Valid(s, stop) ==> (r.value.sched.exhausted <==> r.value.time.None?)
    // The pending time, if any, becomes the previous output time.
    ensures r.Ok? ==> r.value.sched.prev == (if s.next.Some? then s.next else s.prev)
    // A returned time strictly exceeds the new previous output time and is within the run.
    ensures r.Ok? && Valid(s, stop) && r.value.time.Some? ==>
              r.value.time.value <= stop
              && (r.value.sched.prev.Some? ==> r.value.sched.prev.value < r.value.time.value)
    // Pulls only move forward through the same iterator.
    ensures r.Ok? && s.times.Some? ==>
              r.value.sched.times.Some? && r.value.sched.times.value.src == s.times.value.src
              && s.times.value.pos <= r.value.sched.times.value.pos <= s.times.value.pos + MaxSkips + 1
  {
    if s.times.None? then
      Err(NotRegistered)
    else if s.exhausted then
      if s.next.Some? then Err(PendingAfterExhausted) else Ok(Step(None, s, []))
    else if s.next.Some? && s.next.value > stop then
      Err(PendingBeyondStop)
    else
      var prev := if s.next.Some? then s.next else s.prev;
      if s.next.Some? && s.next.value == stop then
        // The stop time was the last output; the iterator is not pulled again.
        Ok(Step(None, s.(prev := prev, next := None, exhausted := true), []))
      else
        Proceed(s, prev, stop)
  }

  /** The branch of `advance_iter` that consults the iterator, with `prev` already updated. */
  function Proceed(s: Sched, prev: Option<real>, stop: real): (r: Result<Step, Error>)
    requires s.times.Some?
    ensures r.Err? ==> r.error == NotFloatTime || r.error == TooManySkips
    ensures r.Ok? ==> r.value.sched.saveLast == s.saveLast && !r.value.sched.saveFirst
    ensures r.Ok? ==> r.value.sched.next == r.value.time && r.value.sched.prev == prev
    ensures r.Ok? ==> (r.value.sched.exhausted <==> r.value.time.None?)
    ensures s.saveFirst ==> r.Ok? && r.value.time == Some(0.0)
    ensures r.Ok? && !s.saveFirst && r.value.time.Some? ==>
              r.value.time.value <= stop && (prev.Some? ==> prev.value < r.value.time.value)
    ensures r.Ok? ==>
              r.value.sched.times.Some? && r.value.sched.times.value.src == s.times.value.src
              && s.times.value.pos <= r.value.sched.times.value.pos <= s.times.value.pos + MaxSkips + 1
  {
    match Resolve(s.times.value, s.saveFirst, s.saveLast, prev, stop, MaxSkips)
    case Err(e) => Err(e)
    case Ok(res) =>
      var s' := s.(times := Some(res.cursor), prev := prev, next := res.time,
                   saveFirst := res.saveFirst, exhausted := res.time.None?);
      Ok(Step(res.time, s', res.warnings))
  }
}
