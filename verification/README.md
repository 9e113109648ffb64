# terrainbento output-writer scheduling, in Dafny

This project models the core of terrainbento's `GenericOutputWriter`
(`terrainbento/output_writers/generic_output_writer.py`). That class decides
at which simulated times a writer produces output, and it keeps a registry of
the files the writer has created.

- **Scheduler** (`scheduler.dfy`). The model's state has six parts. The times
  iterator is a `Cursor`: a source `nat -> Option<TimeVal>` plus the number of
  values already pulled. The pending `next` time and the previous output time
  `prev` are kept as in the source. So are the `exhausted` flag, the one-shot
  `saveFirst` flag and the fixed `saveLast` flag. `Advance` is `advance_iter`,
  and `Resolve` is the bounded skip-and-clamp recursion `_advance_iter_recursive`.
  Exceptions are the `Error` values, and each skip warning is a `SkipWarning`
  record.
- **Runs** (`schedule_run.dfy`). `Run` chains n advances, as the simulation
  driver does. The lemmas prove four things about the ticks a run returns:
  they strictly increase, they never exceed the stop time, once None is
  returned it is always returned, and the previous output time is always the
  tick before the pending one.
- **Policies** (`scheduler_properties.dfy`). These lemmas cover the forced 0.0,
  stop-time termination, the clamp rule, the bounded retry and the float
  check.
- **Registry** (`registry.dfy`, `paths.dfy`). File extensions follow POSIX
  `os.path.splitext`. The registry operations are registration without
  duplicates, filtering by extension, and deletion. Deletion takes a removal
  oracle, `Path -> Removal`.
- **Naming** (`naming.dfy`, `writer.dfy`). This covers the writer's name
  (`name or "output-writer"`, plus `-id{id}`), the filename prefix
  `{prefix}_{name}_iter-{iteration:05d}`, and id assignment from an explicit
  counter.
- **Examples** (`scheduler_examples.dfy`). These are concrete schedules,
  evaluated call by call.

Two parts of the environment are parameters rather than state. The model's
clock becomes its constant stop time, an argument of `Advance`. Python floats
become `real`. The scheduler only compares times and never does arithmetic on
them, so every comparison gives the same answer as in Python.

Two behaviours of the code, stated plainly:

- **Skip budget.** One advance tolerates `recursion_counter=5` skipped values
  and raises RecursionError only on the sixth. After 1.0, the source
  `[1.0, 0.9, 0.8, 0.7, 0.6, 0.5]` yields 1.0, then the stop time, then None
  (`SchedulerExamples.FiveRegressionsTolerated`). A sixth regression raises
  (`SchedulerExamples.SixRegressionsRaise`).
- **Strict increase.** Returned times strictly increase. A value equal to the
  previous output time is skipped like a smaller one. A 0.0 that follows a
  forced 0.0 is skipped without a warning
  (`SchedulerExamples.ForcedZeroThenZero`).

## Model

| member | source | states |
|---|---|---|
| `Scheduler.Init` | terrainbento/output_writers/generic_output_writer.py:72-94 | A new writer has no iterator, nothing pending, no previous time, and is not exhausted. It keeps the `save_first_timestep` and `save_last_timestep` flags it was given |
| `Times.Pull` | terrainbento/output_writers/generic_output_writer.py:264 | `next(iterator, None)` gives the value at the current position and moves the same iterator on by exactly one |
| `Scheduler.RegisterTimes` | terrainbento/output_writers/generic_output_writer.py:150-164 | Registering installs a fresh iterator at position 0. The pending time, the previous time and the flags are left unchanged |
| `Scheduler.Resolve` | terrainbento/output_writers/generic_output_writer.py:226-330 | With `save_first_timestep`, the result is 0.0 without a pull, and the flag is cleared. Otherwise the call pulls between 1 and budget+1 values. A returned time is at most the stop time and strictly above the previous time. There is at most one warning per skip, and each warning names a skipped time not above the previous time, other than 0 after 0. The exact warning list is stated by `SchedulerProperties.ResolveFirstUnskipped` |
| `Scheduler.Advance` | terrainbento/output_writers/generic_output_writer.py:166-223 | Advancing without a registered iterator is an error. From a reachable state the assertions at lines 191 and 202 never fail. An exhausted scheduler returns None and changes nothing. The pending time becomes the previous time. The returned time is stored as pending, and exhaustion holds exactly when it is None. Reachable states stay reachable. At most 6 values are pulled per call |
| `Scheduler.Proceed` | terrainbento/output_writers/generic_output_writer.py:213-223 | When the iterator is consulted, the only possible errors are a non-float value and too many skips. The returned time becomes the pending time, and exhaustion holds exactly when it is None. A forced first output is 0.0. Otherwise a returned time is within the run and above the previous time. At most 6 values are pulled |
| `SchedulerProperties.ResolveFirstUnskipped` | terrainbento/output_writers/generic_output_writer.py:291-330 | Every value pulled before the last one was a skip. The last value is neither a skip nor a non-float, and it alone decides the result through `Decide` (clamp or accept). The warnings are exactly one per skipped value, in pull order, each naming the value and the previous time, except 0 after 0 |
| `SchedulerProperties.ResolveTooManySkips` | terrainbento/output_writers/generic_output_writer.py:312-327 | RecursionError happens if and only if budget+1 consecutive pulled values are skips |
| `SchedulerProperties.SixthSkipRaises` | terrainbento/output_writers/generic_output_writer.py:316-327 | With the budget of 5, six consecutive skips raise RecursionError |
| `SchedulerProperties.ResolveNotFloat` | terrainbento/output_writers/generic_output_writer.py:287-289 | The float assertion fails if and only if a non-float is pulled after fewer than budget+1 skips |
| `SchedulerProperties.ForcedZero` | terrainbento/output_writers/generic_output_writer.py:256-261 | The first advance with `save_first_timestep` returns exactly 0.0. It does not pull from the iterator, issues no warning, and clears the flag |
| `SchedulerProperties.StopTermination` | terrainbento/output_writers/generic_output_writer.py:199-212 | When the pending time equals the stop time, the next advance returns None and makes the stop time the previous time. It is then exhausted and has not pulled from the iterator |
| `SchedulerProperties.ClampRule` | terrainbento/output_writers/generic_output_writer.py:268-310 | Suppose the pulled value is the end of the iterator or overshoots the stop time. The advance returns the stop time exactly when `save_last_timestep` holds and the previous time is None or below the stop time. Otherwise it returns None |
| `SchedulerProperties.SkippedValueNotReturned` | terrainbento/output_writers/generic_output_writer.py:312-330 | The returned time exceeds the time that was pending. Every value pulled before the accepted one was a skip |
| `ScheduleRun.AdvanceExtendsTicks` | terrainbento/output_writers/generic_output_writer.py:198-223 | One advance appends its returned time, if any, to the ticks. The state stays consistent with them: the pending time is the last tick and the previous time is the one before it |
| `ScheduleRun.ExhaustedRunIdle` | terrainbento/output_writers/generic_output_writer.py:188-192 | From an exhausted state, every call of any run returns None. The state is unchanged and no warning is issued |
| `ScheduleRun.RunConsistent` | terrainbento/output_writers/generic_output_writer.py:198-223 | Over any run the state stays reachable and consistent with all the ticks returned |
| `ScheduleRun.RunNoneAbsorbing` | terrainbento/output_writers/generic_output_writer.py:217-223 | Once a call returns None, every later call in the run returns None |
| `ScheduleRun.Schedule` | terrainbento/output_writers/generic_output_writer.py:166-330 | From registration on, the returned ticks strictly increase, so none repeats. Every tick is at most the stop time, and None is absorbing. With `save_first_timestep` the first tick is 0.0 |
| `ScheduleRun.LastTickIsStop` | terrainbento/output_writers/generic_output_writer.py:268-310 | With `save_last_timestep`, an advance that ends the schedule leaves the stop time as the previous output time. So the last tick is the stop time |
| `SchedulerExamples.SkipOutOfOrder` | terrainbento/output_writers/generic_output_writer.py:312-330 | Source [1.0, 2.0, 1.5, 5.0] with stop time 10 gives 1, 2, 5, 10, None. Exactly one warning is issued, for 1.5 after 2.0 |
| `SchedulerExamples.FiveRegressionsTolerated` | terrainbento/output_writers/generic_output_writer.py:316-325 | After 1.0, the five regressions 0.9 to 0.5 are skipped with one warning each, naming the value and 1.0. The exhausted iterator then yields the stop time |
| `SchedulerExamples.SixRegressionsRaise` | terrainbento/output_writers/generic_output_writer.py:326-327 | Six regressions after 1.0 raise RecursionError |
| `SchedulerExamples.OvershootClamped` | terrainbento/output_writers/generic_output_writer.py:291-310 | Source [100.0] with stop time 10 gives 10 then None with `save_last_timestep`, and None at once without it |
| `SchedulerExamples.StopTimeOnce` | terrainbento/output_writers/generic_output_writer.py:205-212 | A source that reaches the stop time itself emits it once. Its later values are never pulled |
| `SchedulerExamples.OvershootThenGarbage` | terrainbento/output_writers/generic_output_writer.py:207-212 | Source [1, 2, 3, 40, 15] with stop time 20 gives 1, 2, 3, 20, None. The 15 is never pulled |
| `SchedulerExamples.ForcedZeroThenZero` | terrainbento/output_writers/generic_output_writer.py:256-261 | A forced 0.0 followed by a source that starts at 0.0 gives 0, 5, 10, None with no warning |
| `SchedulerExamples.NonFloatFails` | terrainbento/output_writers/generic_output_writer.py:287-289 | A value that is not a float fails the float assertion |
| `SchedulerExamples.ForcedZeroBeyondNegativeStop` | terrainbento/output_writers/generic_output_writer.py:199-202 | With a negative stop time, the forced 0.0 is returned, and the next advance fails the assertion that the pending time is within the run |
| `Registry.Register` | terrainbento/output_writers/generic_output_writer.py:340-373 | After registration the path is registered. The old registry is a prefix of the new one, which grows by one exactly when the path was new. Its members are the old ones plus the path, and it keeps having no duplicates |
| `Registry.IsRegistered` | terrainbento/output_writers/generic_output_writer.py:340-355 | A path is registered exactly when some entry of the registry equals it |
| `Registry.RegisterIdempotent` | terrainbento/output_writers/generic_output_writer.py:372-373 | Registering a path twice is the same as registering it once |
| `Registry.RegisterAllProperties` | terrainbento/output_writers/generic_output_writer.py:357-373 | Any sequence of registrations keeps the old registry as a prefix and holds exactly the old and the registered paths, with no duplicates |
| `Registry.Select` | terrainbento/output_writers/generic_output_writer.py:407-431 | The result is an order-preserving subsequence of the registry. Each matching path appears as often as in the registry and each other path not at all. Without a filter the result is the whole registry |
| `Registry.Delete` | terrainbento/output_writers/generic_output_writer.py:375-406 | The call aborts exactly when some selected file raises an uncaught error, and it names such a file. On success the result is an order-preserving subsequence holding exactly the unselected paths and the selected paths whose removal was refused |
| `Registry.DeleteErrFirst` | terrainbento/output_writers/generic_output_writer.py:389-395 | An aborted deletion names the first selected path in registry order whose removal raises: no selected path before it raises |
| `Registry.DeleteThenSelect` | terrainbento/output_writers/generic_output_writer.py:375-431 | After a deletion, every file the same filter still selects is one the OS refused to remove. No unselected file is lost |
| `Registry.DeleteAllRemoved` | terrainbento/output_writers/generic_output_writer.py:389-406 | When every selected removal succeeds, the registry keeps exactly the unselected paths |
| `Registry.FilteringKeepsNoDuplicates` | terrainbento/output_writers/generic_output_writer.py:386-431 | Filtering and deletion keep a duplicate-free registry duplicate-free |
| `Paths.SplitExt` | terrainbento/output_writers/generic_output_writer.py:391 | The root and the extension concatenate back to the path. The extension is empty, or it is a dot followed by text with no dot and no slash. A non-empty extension leaves the root's last component with a character other than a dot. `SplitExtOfAppended` and `SplitExtLeadingDots` fix the result on every path |
| `Paths.SplitExtOfAppended` | terrainbento/output_writers/generic_output_writer.py:391 | A path whose last component has a non-dot character, followed by a dot and a dot-free, slash-free (possibly empty) text, splits into exactly those two parts; so `file.` splits into `file` and `.` |
| `Paths.SplitExtLeadingDots` | terrainbento/output_writers/generic_output_writer.py:391 | When the last component has no dot, or only dots before its last dot, the root is the whole path and the extension is empty |
| `Paths.Extension` | terrainbento/output_writers/generic_output_writer.py:391 | The extension has no dot and no slash. When it is non-empty, the path ends with a dot followed by it, and what comes before that dot has a non-dot character in its last component. Together with `ExtensionOfAppended` and `LeadingDotsNoExtension`, this determines the extension of every path |
| `Paths.ExtensionOfAppended` | terrainbento/output_writers/generic_output_writer.py:391 | Appending `.e` to a path whose last component has a non-dot character makes `e` the extension, when `e` has no dot and no slash |
| `Paths.NoDotNoExtension` | terrainbento/output_writers/generic_output_writer.py:390-391 | A last path component without a dot has the empty extension |
| `Paths.LeadingDotsNoExtension` | terrainbento/output_writers/generic_output_writer.py:390-391 | When every character of the last component before its last dot is a dot, as in `.bashrc` or `..nc`, the path has no extension |
| `Paths.NoExtensionExamples` | terrainbento/output_writers/generic_output_writer.py:390-391 | `output/.nc`, `out.d/file` and `file.` all have the empty extension, and `file.` splits into `file` and `.` |
| `Paths.NetcdfExtension` | terrainbento/output_writers/generic_output_writer.py:391 | `output/run_iter-00010.nc` has the extension `nc` |
| `Paths.LastDotExtension` | terrainbento/output_writers/generic_output_writer.py:391 | `a.tar.gz` has the extension `gz`: only the text after the last dot counts |
| `Naming.WriterName` | terrainbento/output_writers/generic_output_writer.py:83-85 | The name starts with the given name, or with `output-writer` when None or empty is given. Without `add_id` it is exactly that. With `add_id` exactly `-id` and the decimal id follow the base name, so the text after the last hyphen is `id` followed by the id |
| `Naming.DistinctIdsDistinctNames` | terrainbento/output_writers/generic_output_writer.py:80-85 | With `add_id`, writers with different ids have different names, whatever names they were given |
| `Naming.Pad5` | terrainbento/output_writers/generic_output_writer.py:120 | The iteration field is all digits and at least five long. It is longer only when the number needs more digits, and it reads back as the iteration |
| `Naming.FilenamePrefix` | terrainbento/output_writers/generic_output_writer.py:115-122 | The prefix is the model prefix, `_`, the writer's name, `_iter-` and the padded iteration, in that order. The text after the last hyphen is the padded iteration, which reads back as the iteration |
| `Naming.DistinctIterationsDistinctPrefixes` | terrainbento/output_writers/generic_output_writer.py:119-122 | Different iterations give different filename prefixes, whichever writers' names are used |
| `Naming.DistinctNamesDistinctPrefixes` | terrainbento/output_writers/generic_output_writer.py:115-122 | Writers with different names never share a filename prefix within one model, at any iterations |
| `Strings.DecimalRoundTrip` | terrainbento/output_writers/generic_output_writer.py:85 | Reading back the decimal digits of a number gives the number |
| `Writer.NewWriter` | terrainbento/output_writers/generic_output_writer.py:72-104 | Construction takes the counter's value as the id and advances the counter. The name is the given name (or `output-writer`), followed by `-id` and the id exactly when `add_id` holds. The scheduler starts in the initial state with the given flags, and the registry is empty |
| `Writer.RegisterTimesIter` | terrainbento/output_writers/generic_output_writer.py:150-164 | Registering an iterator installs it in the scheduler at position 0 and leaves the id, the name and the registry alone |
| `Writer.SuccessiveWritersDiffer` | terrainbento/output_writers/generic_output_writer.py:21-22 | Two writers built one after the other from the shared counter with `add_id` have different ids and different names |
| `Writer.AdvanceIter` | terrainbento/output_writers/generic_output_writer.py:166-223 | The writer's advance succeeds or fails exactly as the scheduler's advance does, with the same error. It returns that advance's time, takes its new state and touches nothing else. Without a registered iterator it fails. From a reachable state it stays reachable |
| `Writer.RegisterOutputFilepath` | terrainbento/output_writers/generic_output_writer.py:357-373 | The registry becomes `Register` of the old one: the old registry stays as a prefix, the path is registered, and no duplicate is added. The scheduler, id and name are unchanged |
| `Writer.DeleteOutputFiles` | terrainbento/output_writers/generic_output_writer.py:375-406 | An uncaught removal error names a selected file whose removal raised, and leaves the writer unchanged. Otherwise the registry becomes the result of `Delete`: in order, exactly the registered files that are unselected or whose removal was refused. The scheduler, id and name are unchanged |

## Left out

- **State after an exception.** When `advance_iter` raises, the model returns
  the `Error` and discards the state. Python would leave partial updates
  behind, such as an already-shifted previous time and consumed iterator
  values. The run aborts in either case. Warnings issued before the exception
  are dropped as well: the `Error` carries no warning list. Python has already
  emitted them (line 323) before it raises at line 288 or 327. For example, five
  warnings precede the RecursionError of `SchedulerExamples.SixRegressionsRaise`.
- **Iterator shape check.** The `hasattr(__next__)` assertion (lines 185-186)
  is not modelled: a `Cursor` can always be pulled.
- **Clock check.** The constructor's check that the model has a clock (lines
  77-78) is not modelled: the stop time is always supplied.
- **Output directory.** Creating the output directory (lines 97-103) and the
  `output_dir` property are file-system effects.
- **Removal.** `os.remove` and the printed file-lock message are replaced by
  the `Removal` oracle. `Locked` stands for the caught `WindowsError`. `Raised`
  stands for any error that propagates. On a system without `WindowsError`,
  every failed removal propagates, because naming the undefined exception
  class itself raises.
- **Warnings.** The `warnings` machinery and the message text (lines 7-16) are
  left out. Each warning of a successful advance is kept as a `SkipWarning`
  value. Warnings of an advance that raises are not kept (see above).
- **`run_one_step`.** The base method (lines 333-337) only raises
  NotImplementedError. Concrete writers and the static-interval adapters are
  not part of this model.
- **NaN and infinities.** Python floats can be NaN or ±infinity. The model
  uses `real`, so it has no such values.
- **Negative iterations.** `Naming.Pad5` takes a non-negative iteration.
  `{n:05d}` of a negative n gives `-` followed by zero-padded digits, and that
  case is not modelled.
- **Windows paths.** `Paths.Extension` follows POSIX `os.path.splitext`, with
  `/` as the only separator. The Windows variant also splits on `\` and is
  not modelled.
- **Global id counter.** The global `itertools.count` becomes an explicit
  counter argument of `Writer.NewWriter`.
