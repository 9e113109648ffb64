/**
  A generic output writer: its id and name, the scheduler it owns and the
  registry of files it has produced. The process-wide id counter is an
  explicit argument threaded through construction.
 */
module Writer {
  import opened Wrappers
  import opened Times
  import opened Scheduler
  import opened Registry
  import opened Naming
  import opened Strings

  datatype Writer = Writer(id: nat, name: string, sched: Sched, files: seq<Path>)

  /**
    The constructor: takes the next id from the counter, builds the name,
    and starts with no times iterator, nothing pending and no files.
   */
  function NewWriter(counter: nat, name: Option<string>, addId: bool, saveFirst: bool, saveLast: bool)
    : (r: (Writer, nat))
    ensures r.0.id == counter && r.1 == counter + 1
    ensures r.0.sched == Init(saveFirst, saveLast) && r.0.files == []
    ensures r.0.name == WriterName(name, addId, counter)
    ensures |r.0.name| >= |BaseName(name)| && r.0.name[..|BaseName(name)|] == BaseName(name)
    ensures !addId ==> r.0.name == BaseName(name)
    ensures addId ==> AfterLast(r.0.name, '-') == "id" + Decimal(counter)
  {
    (Writer(counter, WriterName(name, addId, counter), Init(saveFirst, saveLast), []), counter + 1)
  }

  /** Two writers built one after the other with `add_id` get different ids and different names. */
  lemma SuccessiveWritersDiffer(counter: nat, name1: Option<string>, name2: Option<string>,
                                f1: bool, l1: bool, f2: bool, l2: bool)
    ensures var (w1, c1) := NewWriter(counter, name1, true, f1, l1);
            var (w2, _) := NewWriter(c1, name2, true, f2, l2);
            w1.id != w2.id && w1.name != w2.name
  {
    DistinctIdsDistinctNames(name1, name2, counter, counter + 1);
  }

  /** `register_times_iter`. */
  function RegisterTimesIter(w: Writer, src: Source): (w': Writer)
    ensures w'.sched == RegisterTimes(w.sched, src)
    ensures w'.sched.times == Some(Cursor(src, 0))
    ensures w'.id == w.id && w'.name == w.name && w'.files == w.files
  {
    w.(sched := RegisterTimes(w.sched, src))
  }

  /** `advance_iter` on the writer's scheduler; the file registry is untouched. */
  function AdvanceIter(w: Writer, stop: real): (r: Result<(Option<real>, Writer), Error>)
    ensures r.Ok? ==> r.value.1.files == w.files && r.value.1.id == w.id && r.value.1.name == w.name
    ensures r.Ok? && Valid(w.sched, stop) ==> Valid(r.value.1.sched, stop)
    ensures r.Ok? && r.value.0.Some? ==> r.value.1.sched.next == r.value.0
    ensures w.sched.times.None? ==> r == Err(NotRegistered)
    // The outcome is that of the scheduler's advance.
    ensures r.Ok? <==> Advance(w.sched, stop).Ok?
    ensures r.Err? ==> r.error == Advance(w.sched, stop).error
    ensures r.Ok? ==> r.value.0 == Advance(w.sched, stop).value.time
                      && r.value.1.sched == Advance(w.sched, stop).value.sched
  {
    match Advance(w.sched, stop)
    case Err(e) => Err(e)
    case Ok(st) => Ok((st.time, w.(sched := st.sched)))
  }

  /** `register_output_filepath`. */
  function RegisterOutputFilepath(w: Writer, p: Path): (w': Writer)
    ensures w'.files == Register(w.files, p)
    ensures IsRegistered(w'.files, p)
    ensures |w'.files| >= |w.files| && w'.files[..|w.files|] == w.files
    ensures NoDuplicates(w.files) ==> NoDuplicates(w'.files)
    ensures w'.sched == w.sched && w'.id == w.id && w'.name == w.name
  {
    w.(files := Register(w.files, p))
  }

  /**
    `delete_output_files`: on success the registry keeps the unselected and
    the refused files; when an uncaught removal error propagates, it names
    the file and the writer is left as it was.
   */
  function DeleteOutputFiles(w: Writer, only: Option<string>, remove: Path -> Removal): (r: (Writer, Option<Path>))
    ensures r.1.Some? <==> SomeRaises(w.files, only, remove)
    ensures r.1.Some? ==> r.0 == w && Matches(r.1.value, only) && remove(r.1.value) == Raised
    ensures r.1.None? ==> Delete(w.files, only, remove) == Ok(r.0.files)
    ensures r.1.None? ==> IsSubsequence(r.0.files, w.files)
                          && forall q :: q in r.0.files <==> q in w.files && Kept(q, only, remove)
    ensures r.0.sched == w.sched && r.0.id == w.id && r.0.name == w.name
  {
    match Delete(w.files, only, remove)
    case Err(p) => (w, Some(p))
    case Ok(kept) =>
      SubsequenceMembers(kept, w.files);
      assert forall q :: q in kept <==> multiset(kept)[q] > 0;
      assert forall q :: q in w.files <==> multiset(w.files)[q] > 0;
      (w.(files := kept), None)
  }
}
