/**
  The iterator of candidate output times that an output writer registers.

  A Python iterator is modelled as a total function from pull positions to
  what `next(iterator, None)` returns at that position, together with the
  number of values already pulled. A finite iterator returns `None` at every
  position past its end; an infinite one never does.
 */
module Times {
  import opened Wrappers

  /** One value produced by the iterator: a float, or anything else. */
  datatype TimeVal = F(t: real) | NotFloat

  /** What `next(iterator, None)` returns at each pull position. */
  type Source = nat -> Option<TimeVal>

  /** An iterator: its source and the number of values pulled so far. */
  datatype Cursor = Cursor(src: Source, pos: nat)

  /** One call of `next(iterator, None)`: the value and the advanced iterator. */
  function Pull(c: Cursor): (r: (Option<TimeVal>, Cursor))
    ensures r.0 == c.src(c.pos)
    ensures r.1.src == c.src && r.1.pos == c.pos + 1
  {
    (c.src(c.pos), Cursor(c.src, c.pos + 1))
  }

  /** The iterator over a finite list, e.g. `iter([1.0, 2.0])`. */
  function FromSeq(xs: seq<Option<TimeVal>>): Source
  {
    (i: nat) => if i < |xs| then xs[i] else None
  }

  /** The iterator over a finite list of floats. */
  function Floats(ts: seq<real>): (src: Source)
    ensures forall i: nat :: i < |ts| ==> src(i) == Some(F(ts[i]))
    ensures forall i: nat :: |ts| <= i ==> src(i) == None
  {
    (i: nat) => if i < |ts| then Some(F(ts[i])) else None
  }
}
