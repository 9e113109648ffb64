/**
  The list of output files a writer has produced: append-only registration
  without duplicates, filtering by extension, and best-effort deletion.
 */
module Registry {
  import opened Wrappers
  import opened Paths

  type Path = string

  predicate NoDuplicates<T(==)>(xs: seq<T>)
  {
    forall i, j :: 0 <= i < j < |xs| ==> xs[i] != xs[j]
  }

  /** `a` is `b` with some elements left out, the rest kept in order. */
  predicate IsSubsequence<T(==)>(a: seq<T>, b: seq<T>)
    decreases |b|
  {
    a == [] || (b != [] && if a[0] == b[0] then IsSubsequence(a[1..], b[1..]) else IsSubsequence(a, b[1..]))
  }

  lemma {:induction false} SubsequenceNoDuplicates<T>(a: seq<T>, b: seq<T>)
    requires IsSubsequence(a, b) && NoDuplicates(b)
    ensures NoDuplicates(a)
    decreases |b|
  {
    if a != [] {
      if a[0] == b[0] {
        SubsequenceNoDuplicates(a[1..], b[1..]);
        SubsequenceMembers(a[1..], b[1..]);
        forall j | 0 < j < |a|
          ensures a[0] != a[j]
        {
          assert a[j] == a[1..][j - 1];
          assert a[j] in b[1..];
        }
      } else {
        SubsequenceNoDuplicates(a, b[1..]);
      }
    }
  }

  lemma {:induction false} SubsequenceMembers<T>(a: seq<T>, b: seq<T>)
    requires IsSubsequence(a, b)
    ensures forall x :: x in a ==> x in b
    decreases |b|
  {
    if a != [] {
      if a[0] == b[0] {
        SubsequenceMembers(a[1..], b[1..]);
        assert forall x :: x in a ==> x == a[0] || x in a[1..];
      } else {
        SubsequenceMembers(a, b[1..]);
      }
    }
  }

  /** A subsequence of the tail is a subsequence of the whole. */
  lemma {:induction false} SubsequenceSkip<T>(a: seq<T>, b: seq<T>)
    requires b != [] && IsSubsequence(a, b[1..])
    ensures IsSubsequence(a, b)
    decreases |b|, 0
  {
    if a != [] && a[0] == b[0] {
      SubsequenceDropHead(a, b[1..]);
    }
  }

  /** Leaving out the first element of a subsequence keeps it a subsequence. */
  lemma {:induction false} SubsequenceDropHead<T>(a: seq<T>, c: seq<T>)
    requires a != [] && IsSubsequence(a, c)
    ensures IsSubsequence(a[1..], c)
    decreases |c|, 1
  {
    if a[0] != c[0] {
      SubsequenceDropHead(a, c[1..]);
    }
    SubsequenceSkip(a[1..], c);
  }

  /** `is_file_registered`. */
  predicate IsRegistered(paths: seq<Path>, p: Path): (b: bool)
    ensures b <==> exists i :: 0 <= i < |paths| && paths[i] == p
  {
    p in paths
  }

  /**
    `register_output_filepath`: appends `p` unless it is already registered;
    the registry keeps its order and never holds duplicates.
   */
  function Register(paths: seq<Path>, p: Path): (r: seq<Path>)
    ensures IsRegistered(r, p)
    ensures |r| >= |paths| && r[..|paths|] == paths
    ensures |r| == |paths| + (if IsRegistered(paths, p) then 0 else 1)
    ensures forall q :: q in r <==> q in paths || q == p
    ensures NoDuplicates(paths) ==> NoDuplicates(r)
  {
    if IsRegistered(paths, p) then paths else paths + [p]
  }

  /** Registering a path twice is the same as registering it once. */
  lemma RegisterIdempotent(paths: seq<Path>, p: Path)
    ensures Register(Register(paths, p), p) == Register(paths, p)
  {
  }

  /** Registering a list of paths one after another, as a writer does over a run. */
  function RegisterAll(paths: seq<Path>, ps: seq<Path>): (r: seq<Path>)
    decreases |ps|
  {
    if ps == [] then paths else RegisterAll(Register(paths, ps[0]), ps[1..])
  }

  /**
    Over any sequence of registrations the registry starts with what it
    held, holds exactly the registered paths, and holds no duplicates.
   */
  lemma {:induction false} RegisterAllProperties(paths: seq<Path>, ps: seq<Path>)
    requires NoDuplicates(paths)
    ensures var r := RegisterAll(paths, ps);
            && NoDuplicates(r)
            && |r| >= |paths| && r[..|paths|] == paths
            && forall q :: q in r <==> q in paths || q in ps
    decreases |ps|
  {
    if ps != [] {
      var paths' := Register(paths, ps[0]);
      RegisterAllProperties(paths', ps[1..]);
      var r := RegisterAll(paths', ps[1..]);
      assert r[..|paths|] == r[..|paths'|][..|paths|];
      assert forall q :: q in ps <==> q == ps[0] || q in ps[1..];
    }
  }

  /** A path is selected by the filter: no filter, or its extension is the one asked for. */
  predicate Matches(p: Path, only: Option<string>)
  {
    only.None? || Extension(p) == only.value
  }

  /**
    `get_output_filepaths(only_extension)`: the registered paths with the
    requested extension (all of them without a filter), in registration order.
   */
  function Select(paths: seq<Path>, only: Option<string>): (r: seq<Path>)
    ensures IsSubsequence(r, paths)
    ensures forall q :: multiset(r)[q] == if Matches(q, only) then multiset(paths)[q] else 0
    ensures only.None? ==> r == paths
  {
    if paths == [] then []
    else
      var rest := Select(paths[1..], only);
      assert paths == [paths[0]] + paths[1..];
      if Matches(paths[0], only) then
        assert ([paths[0]] + rest)[1..] == rest;
        [paths[0]] + rest
      else
        SubsequenceSkip(rest, paths);
        rest
  }

  /** What removing one file does: it is removed, the OS refuses (the error is caught), or an uncaught error propagates. */
  datatype Removal = Removed | Locked | Raised

  /** A path stays registered after deletion: it is not selected, or the OS refused to remove it. */
  predicate Kept(p: Path, only: Option<string>, remove: Path -> Removal)
  {
    !Matches(p, only) || remove(p) == Locked
  }

  /** Some selected path raises an uncaught error on removal. */
  predicate SomeRaises(paths: seq<Path>, only: Option<string>, remove: Path -> Removal)
  {
    exists i :: 0 <= i < |paths| && Matches(paths[i], only) && remove(paths[i]) == Raised
  }

  lemma SomeRaisesCons(paths: seq<Path>, only: Option<string>, remove: Path -> Removal)
    requires paths != []
    ensures SomeRaises(paths, only, remove) <==>
            (Matches(paths[0], only) && remove(paths[0]) == Raised) || SomeRaises(paths[1..], only, remove)
  {
    if SomeRaises(paths[1..], only, remove) {
      var i :| 0 <= i < |paths[1..]| && Matches(paths[1..][i], only) && remove(paths[1..][i]) == Raised;
      assert paths[i + 1] == paths[1..][i];
    }
    if SomeRaises(paths, only, remove) && !(Matches(paths[0], only) && remove(paths[0]) == Raised) {
      var i :| 0 <= i < |paths| && Matches(paths[i], only) && remove(paths[i]) == Raised;
      assert i > 0 && paths[1..][i - 1] == paths[i];
    }
  }

  /**
    `delete_output_files(only_extension)` with `remove` standing for
    `os.remove`: the new registry is the paths not selected plus the
    selected ones the OS refused to remove, in order; an uncaught error
    aborts the whole call at the first path that raises it.
   */
  function Delete(paths: seq<Path>, only: Option<string>, remove: Path -> Removal): (r: Result<seq<Path>, Path>)
    ensures r.Err? <==> SomeRaises(paths, only, remove)
    ensures r.Err? ==> r.error in paths && Matches(r.error, only) && remove(r.error) == Raised
    ensures r.Ok? ==> IsSubsequence(r.value, paths)
    ensures r.Ok? ==> forall q :: multiset(r.value)[q] == if Kept(q, only, remove) then multiset(paths)[q] else 0
  {
    if paths == [] then Ok([])
    else
      var p := paths[0];
      var rest := Delete(paths[1..], only, remove);
      SomeRaisesCons(paths, only, remove);
      assert paths == [p] + paths[1..];
      if Matches(p, only) && remove(p) == Raised then Err(p)
      else match rest
        case Err(q) => Err(q)
        case Ok(kept) =>
          if Kept(p, only, remove) then
            assert ([p] + kept)[1..] == kept;
            Ok([p] + kept)
          else
            SubsequenceSkip(kept, paths);
            Ok(kept)
  }

  /** An aborted deletion names the first selected path whose removal raises. */
  lemma {:induction false} DeleteErrFirst(paths: seq<Path>, only: Option<string>, remove: Path -> Removal)
    requires Delete(paths, only, remove).Err?
    ensures var q := Delete(paths, only, remove).error;
            exists i :: 0 <= i < |paths| && paths[i] == q && Matches(q, only) && remove(q) == Raised
                        && !SomeRaises(paths[..i], only, remove)
    decreases |paths|
  {
    var q := Delete(paths, only, remove).error;
    var p := paths[0];
    if Matches(p, only) && remove(p) == Raised {
      assert paths[..0] == [];
      assert paths[0] == q;
    } else {
      assert Delete(paths[1..], only, remove).Err? && Delete(paths[1..], only, remove).error == q;
      DeleteErrFirst(paths[1..], only, remove);
      var j :| 0 <= j < |paths[1..]| && paths[1..][j] == q && Matches(q, only) && remove(q) == Raised
               && !SomeRaises(paths[1..][..j], only, remove);
      var pre := paths[..j + 1];
      assert pre[0] == p && pre[1..] == paths[1..][..j];
      SomeRaisesCons(pre, only, remove);
      assert paths[j + 1] == q;
    }
  }

  /**
    After a successful deletion, every file still selected by the same
    filter is one the OS refused to remove, and no unselected file was lost.
   */
  lemma DeleteThenSelect(paths: seq<Path>, only: Option<string>, remove: Path -> Removal)
    requires Delete(paths, only, remove).Ok?
    ensures var kept := Delete(paths, only, remove).value;
            && (forall q :: q in Select(kept, only) ==> remove(q) == Locked)
            && (forall q :: q in paths && !Matches(q, only) ==> q in kept)
  {
    var kept := Delete(paths, only, remove).value;
    forall q | q in Select(kept, only)
      ensures remove(q) == Locked
    {
      assert multiset(Select(kept, only))[q] > 0;
    }
    forall q | q in paths && !Matches(q, only)
      ensures q in kept
    {
      assert multiset(paths)[q] > 0;
    }
  }

  /** When every selected file is removed, the registry keeps exactly the unselected paths. */
  lemma DeleteAllRemoved(paths: seq<Path>, only: Option<string>, remove: Path -> Removal)
    requires forall q :: q in paths && Matches(q, only) ==> remove(q) == Removed
    ensures Delete(paths, only, remove).Ok?
    ensures forall q :: q in Delete(paths, only, remove).value <==> q in paths && !Matches(q, only)
  {
    var r := Delete(paths, only, remove);
    assert !SomeRaises(paths, only, remove) by {
      forall i | 0 <= i < |paths| && Matches(paths[i], only)
        ensures remove(paths[i]) != Raised
      {
        assert paths[i] in paths;
      }
    }
    forall q
      ensures q in r.value <==> q in paths && !Matches(q, only)
    {
      if q in paths && Matches(q, only) {
        assert remove(q) == Removed;
      }
      assert q in r.value <==> multiset(r.value)[q] > 0;
      assert q in paths <==> multiset(paths)[q] > 0;
    }
  }

  /** Filtering and deletion keep the registry free of duplicates. */
  lemma FilteringKeepsNoDuplicates(paths: seq<Path>, only: Option<string>, remove: Path -> Removal)
    requires NoDuplicates(paths)
    ensures NoDuplicates(Select(paths, only))
    ensures Delete(paths, only, remove).Ok? ==> NoDuplicates(Delete(paths, only, remove).value)
  {
    SubsequenceNoDuplicates(Select(paths, only), paths);
    if Delete(paths, only, remove).Ok? {
      SubsequenceNoDuplicates(Delete(paths, only, remove).value, paths);
    }
  }
}
