/**
  Properties of one `advance_iter` call: which pulled values are skipped,
  when the retry budget runs out, and the forced first, forced last and
  stop-time policies.
 */
module SchedulerProperties {
  import opened Wrappers
  import opened Times
  import opened Scheduler

  /**
    Without the forced first output, a successful resolution pulls a run of
    skipped values followed by one value that is neither skipped nor a
    non-float, and that last value alone decides the result.
   */
  lemma {:induction false} ResolveFirstUnskipped(c: Cursor, saveLast: bool, prev: Option<real>, stop: real, budget: nat)
    requires Resolve(c, false, saveLast, prev, stop, budget).Ok?
    ensures var res := Resolve(c, false, saveLast, prev, stop, budget).value;
            && (forall k :: c.pos <= k < res.cursor.pos - 1 ==> IsSkip(c.src(k), prev, stop))
            && !IsSkip(c.src(res.cursor.pos - 1), prev, stop)
            && c.src(res.cursor.pos - 1) != Some(NotFloat)
            && res.time == Decide(c.src(res.cursor.pos - 1), prev, saveLast, stop)
            && res.warnings == (if prev.Some? then SkipWarnings(c.src, c.pos, res.cursor.pos - 1, prev.value) else [])
    decreases budget
  {
    var v := c.src(c.pos);
    var c1 := Cursor(c.src, c.pos + 1);
    if v.Some? && v.value.F? && v.value.t <= stop && prev.Some? && prev.value >= v.value.t {
      assert budget > 0;
      ResolveFirstUnskipped(c1, saveLast, prev, stop, budget - 1);
      var res1 := Resolve(c1, false, saveLast, prev, stop, budget - 1).value;
      var w := if Warns(v.value.t, prev.value) then [SkipWarning(v.value.t, prev.value)] else [];
      assert Resolve(c, false, saveLast, prev, stop, budget).value.warnings == w + res1.warnings;
      assert SkipWarnings(c.src, c.pos, res1.cursor.pos - 1, prev.value)
          == w + SkipWarnings(c.src, c1.pos, res1.cursor.pos - 1, prev.value);
    }
  }

  /** RecursionError is raised exactly when budget + 1 consecutive pulled values are skipped. */
  lemma {:induction false} ResolveTooManySkips(c: Cursor, saveLast: bool, prev: Option<real>, stop: real, budget: nat)
    ensures Resolve(c, false, saveLast, prev, stop, budget) == Err(TooManySkips) <==>
            forall k :: c.pos <= k <= c.pos + budget ==> IsSkip(c.src(k), prev, stop)
    decreases budget
  {
    var c1 := Cursor(c.src, c.pos + 1);
    if budget > 0 {
      ResolveTooManySkips(c1, saveLast, prev, stop, budget - 1);
      if forall k :: c1.pos <= k <= c1.pos + (budget - 1) ==> IsSkip(c.src(k), prev, stop) {
        if IsSkip(c.src(c.pos), prev, stop) {
          assert forall k :: c.pos <= k <= c.pos + budget ==> IsSkip(c.src(k), prev, stop) by {
            forall k | c.pos <= k <= c.pos + budget
              ensures IsSkip(c.src(k), prev, stop)
            {
              if k > c.pos {
                assert c1.pos <= k <= c1.pos + (budget - 1);
              }
            }
          }
        }
      }
    }
  }

  /** With the maximum budget, a sixth consecutive skipped value raises and five are tolerated. */
  lemma SixthSkipRaises(c: Cursor, saveLast: bool, prev: Option<real>, stop: real)
    requires forall k :: c.pos <= k <= c.pos + MaxSkips ==> IsSkip(c.src(k), prev, stop)
    ensures Resolve(c, false, saveLast, prev, stop, MaxSkips) == Err(TooManySkips)
  {
    ResolveTooManySkips(c, saveLast, prev, stop, MaxSkips);
  }

  /** A non-float is pulled at position j, after only skipped values from `lo`. */
  predicate NotFloatAfterSkips(src: Source, lo: nat, j: nat, prev: Option<real>, stop: real)
  {
    lo <= j && src(j) == Some(NotFloat) && forall k :: lo <= k < j ==> IsSkip(src(k), prev, stop)
  }

  /** Some non-float is pulled at a position up to `hi`, after only skipped values from `lo`. */
  predicate NotFloatWithin(src: Source, lo: nat, hi: nat, prev: Option<real>, stop: real)
  {
    exists j: nat :: j <= hi && NotFloatAfterSkips(src, lo, j, prev, stop)
  }

  /** One step of the search for a non-float: it is the first value, or it follows a skipped first value. */
  lemma NotFloatWithinStep(src: Source, lo: nat, budget: nat, prev: Option<real>, stop: real)
    ensures NotFloatWithin(src, lo, lo + budget, prev, stop) <==>
            src(lo) == Some(NotFloat)
            || (IsSkip(src(lo), prev, stop) && budget > 0 && NotFloatWithin(src, lo + 1, lo + budget, prev, stop))
  {
    if NotFloatWithin(src, lo, lo + budget, prev, stop) {
      var j: nat :| j <= lo + budget && NotFloatAfterSkips(src, lo, j, prev, stop);
      if j != lo {
        assert IsSkip(src(lo), prev, stop);
        assert NotFloatAfterSkips(src, lo + 1, j, prev, stop);
      }
    }
    if IsSkip(src(lo), prev, stop) && budget > 0 && NotFloatWithin(src, lo + 1, lo + budget, prev, stop) {
      var j: nat :| j <= lo + budget && NotFloatAfterSkips(src, lo + 1, j, prev, stop);
      assert NotFloatAfterSkips(src, lo, j, prev, stop);
    }
    if src(lo) == Some(NotFloat) {
      assert NotFloatAfterSkips(src, lo, lo, prev, stop);
    }
  }

  /** The float assertion fails exactly when a non-float is pulled after fewer than budget + 1 skips. */
  lemma {:induction false} ResolveNotFloat(c: Cursor, saveLast: bool, prev: Option<real>, stop: real, budget: nat)
    ensures Resolve(c, false, saveLast, prev, stop, budget) == Err(NotFloatTime) <==>
            NotFloatWithin(c.src, c.pos, c.pos + budget, prev, stop)
    decreases budget
  {
    var c1 := Cursor(c.src, c.pos + 1);
    NotFloatWithinStep(c.src, c.pos, budget, prev, stop);
    if IsSkip(c.src(c.pos), prev, stop) && budget > 0 {
      ResolveNotFloat(c1, saveLast, prev, stop, budget - 1);
    }
  }

  /** A state that has been registered, is not exhausted and has nothing pending: the first call. */
  predicate Fresh(s: Sched)
  {
    s.times.Some? && !s.exhausted && s.next.None?
  }

  /**
    The forced first output: the first advance returns exactly 0.0 without
    pulling from the iterator, and clears the flag so 0.0 is forced once.
   */
  lemma ForcedZero(s: Sched, stop: real)
    requires Fresh(s) && s.saveFirst
    ensures Advance(s, stop).Ok?
    ensures var st := Advance(s, stop).value;
            && st.time == Some(0.0)
            && st.sched.times == s.times
            && !st.sched.saveFirst
            && st.warnings == []
  {
  }

  /**
    Stop-time termination: when the pending time is the stop time, the next
    advance makes it the previous output time and returns None without
    pulling from the iterator, whatever the iterator would produce.
   */
  lemma StopTermination(s: Sched, stop: real)
    requires s.times.Some? && Valid(s, stop) && s.next == Some(stop)
    ensures Advance(s, stop).Ok?
    ensures var st := Advance(s, stop).value;
            && st.time.None?
            && st.sched.prev == Some(stop)
            && st.sched.exhausted
            && st.sched.times == s.times
  {
  }

  /**
    The clamp rule: when the next value pulled is the end of the iterator or
    overshoots the stop time, the advance returns the stop time if the last
    output is required and the previous output time is before the stop
    time (or there is none), and None otherwise.
   */
  lemma ClampRule(s: Sched, stop: real)
    requires s.times.Some? && Valid(s, stop) && !s.exhausted && !s.saveFirst
    requires s.next.None? || s.next.value < stop
    requires var v := s.times.value.src(s.times.value.pos); v.None? || (v.value.F? && v.value.t > stop)
    ensures Advance(s, stop).Ok?
    ensures var prev := if s.next.Some? then s.next else s.prev;
            var st := Advance(s, stop).value;
            && (st.time == Some(stop) <==> s.saveLast && (prev.None? || prev.value < stop))
            && (st.time.None? <==> !(s.saveLast && (prev.None? || prev.value < stop)))
            && st.sched.times.value.pos == s.times.value.pos + 1
  {
  }

  /** A pulled value that does not exceed the previous output time is never returned by that advance. */
  lemma SkippedValueNotReturned(s: Sched, stop: real)
    requires s.times.Some? && Valid(s, stop) && !s.exhausted && !s.saveFirst
    requires s.next.Some? && s.next.value < stop
    requires Advance(s, stop).Ok?
    ensures var st := Advance(s, stop).value;
            st.time.Some? ==> s.next.value < st.time.value
    ensures var st := Advance(s, stop).value;
            forall k :: s.times.value.pos <= k < st.sched.times.value.pos - 1 ==>
              IsSkip(s.times.value.src(k), s.next, stop)
  {
    ResolveFirstUnskipped(s.times.value, s.saveLast, s.next, stop, MaxSkips);
  }
}
