# neurotune candidate evaluation, modelled in Dafny

neurotune tunes the parameters of a neuron model. An optimiser proposes candidate
parameter vectors. The tuner scores each candidate: it runs the candidate through a
NineLine (NEURON) simulation, then hands the recordings to an objective. This project
models the logic around the simulator and proves properties of it. The logic has two
parts.

- **The NineLine simulation wrapper** (`nineline.dfy`, module `NineLine`):
  - Genome keys. A dotted parameter name is used as-is. A bare name gets the default
    segment as a prefix.
  - The recording-request grammar. `None`, `var`, `seg.var` and `seg.comp.var` are
    rewritten in place into `(var, seg, comp)` triples.
  - The cell lifecycle. Only one NEURON cell can exist at a time. So a session with
    exactly one setup builds the cell once and only resets the controller between runs.
    Any other session rebuilds the cell on every run.
  - Candidate application. Each value is set on the cell under its genome key, as
    `10 ** x` for a log-scale parameter.

  The engine is the class `NineLineSimulation`. Its fields are the genome keys, the
  log-scale flags and the setups. The current cell is represented by three things:
  whether it exists, its attributes as a map, and its recorders as an ordered list.
  Two counters record how many times `_prepare` and the controller's `reset` were
  called. Every method's postcondition states the whole new state. For the loops, that
  state is given as a specification function of the old state (`ResolveSetups`,
  `ApplyCandidate`), and lemmas prove what the source promises about those functions.
- **The tuner's evaluation policy** (`tuner.dfy`, module `Tuning`):
  - Scoring one candidate, including saving its recordings under a
    `name=value_..._name=value.pkl` file name.
  - The two failure modes. With `__debug__` the original error is re-raised.
    Otherwise it is wrapped into an `EvaluationException` that carries the objective,
    the candidate, and the recordings (or `None` when the simulation never returned).
  - Evaluating a batch as an order-preserving map that stops at the first exception.
  - `is_master`.

  These are pure functions. The simulation, the file write, the objective and
  `traceback.format_exc` are passed in as function values (`Collaborators`). The one
  side effect, saving the recordings, shows as the `savedTo` part of the result. It is
  the path at which `open` was called. `open` or the pickling after it may have
  raised, so a path does not promise that a file was created.

`common.dfy` holds the shared types. `strings.dfy` models Python's `str.split` and
`str.join` for a one-character separator, with their round-trip laws.

Modelling choices:

- Python's `__debug__` is an explicit `debug` flag. It also decides whether the
  `assert` in `_set_candidate_params` runs at all, because `python -O` removes assert
  statements. Without the assertion, `zip` silently stops at the shorter of the
  candidate and the genome keys, and the model does the same.
- A candidate entry is `Num(real)` or `Text(string)`. This is needed because
  `p.name + '=' + c` succeeds only for a string.
- An already-resolved entry of `record_variables` is a tuple. Resolving it calls
  `.split` on a tuple, which raises `AttributeError`.
- Four or more dot-separated tokens raise `ValueError`, from the tuple unpacking.

### Behaviour of the code worth knowing

- A request with exactly two dots resolves to `(var, seg, comp)`. Three or more dots
  give four or more tokens, and unpacking them into three names raises `ValueError`
  (neurotune/simulation/nineline.py:57-58; `ResolveEntry`, `ParseParts`).
- Resolving the same setups a second time fails as soon as some setup has at least
  one request. A resolved entry is a tuple, and a tuple has no `.split`, so it raises
  `AttributeError`. With no setups, or only empty request lists, the second pass
  succeeds
  (neurotune/simulation/nineline.py:49; `ResolveEntriesNotIdempotent`).
- A batch stops at the first failing candidate in both modes. The list comprehension
  passes that candidate's exception on, whether it is the re-raised original or the
  `EvaluationException` (neurotune/tuner/__init__.py:99; `EvaluateAllAborts`).
- The length check on a candidate is an `assert` inside `simulation.run`, which runs
  inside the `try` (neurotune/simulation/nineline.py:118,
  neurotune/tuner/__init__.py:81-82):
  - With `__debug__` it is re-raised as the original `AssertionError`.
  - Under `python -O` there is no check at all, and `zip` stops at the shorter
    sequence (`ApplyCandidate`, `ApplyCandidateOnlyZipped`).
- The recordings file name concatenates the raw candidate value. A numeric value
  raises `TypeError` inside the `try`, so with saving enabled every evaluation of a
  numeric candidate fails (neurotune/tuner/__init__.py:75; `NumericValueFailsSave`).
- `__init__` creates no `genome_keys` or `log_scales`; only `set_tune_parameters` does.
  Applying a candidate before that raises `AttributeError` at the first use of
  `self.genome_keys`, in both modes (neurotune/simulation/nineline.py:12-32, 118-121;
  `SetCandidateParams`).

## Model

| member | source | states |
|---|---|---|
| `NineLine.GenomeKey` | neurotune/simulation/nineline.py:27-30 | the key contains a `.`; it is the name itself when the name is dotted, and `default_seg + '.' + name` otherwise |
| `NineLine.GenomeKeyIdempotent` | neurotune/simulation/nineline.py:27-30 | deriving a key from a key gives the same key |
| `NineLine.GenomeKeySplits` | neurotune/simulation/nineline.py:27-30 | a bare name under a dot-free segment gives a key that splits on `.` into exactly `[segment, name]` |
| `NineLine.NineLineSimulation.SetTuneParameters` | neurotune/simulation/nineline.py:22-32 | afterwards `genome_keys` and `log_scales` exist, are index-aligned (`Valid`), and have the length of the parameter list, with `genome_keys[i]` the key of parameter i and `log_scales[i]` its flag |
| `Strings.Split` | neurotune/simulation/nineline.py:49 | `str.split` yields one more piece than there are separators, and no piece contains the separator |
| `Strings.Join` | neurotune/tuner/__init__.py:75 | `'_'.join(items)` starts with the first item, followed by the separator when there is a second |
| `Strings.JoinCount` | neurotune/tuner/__init__.py:75 | joining separator-free items puts exactly one separator between each two, so there are one fewer separators than items |
| `Strings.SplitJoin` | neurotune/tuner/__init__.py:75 | splitting a join of separator-free items on the separator gives the items back |
| `Strings.JoinSplit` | neurotune/simulation/nineline.py:49 | joining the pieces of `s.split(sep)` with `sep` gives `s` back |
| `NineLine.ParseParts` | neurotune/simulation/nineline.py:50-58 | unpacking succeeds exactly for one to three tokens, else `ValueError`; the variable is always the last token; there is a component exactly for three tokens |
| `NineLine.ResolveEntry` | neurotune/simulation/nineline.py:43-58 | `None` resolves to `('v', default_seg, None)`; a request resolves exactly when it has at most two dots; an already-resolved tuple raises `AttributeError` |
| `NineLine.ResolveBare` | neurotune/simulation/nineline.py:50-53 | a dot-free request `x` resolves to `(x, default_seg, None)` |
| `NineLine.ResolvePair` | neurotune/simulation/nineline.py:54-56 | `a.b` resolves to `(b, a, None)`: segment first, variable second |
| `NineLine.ResolveTriple` | neurotune/simulation/nineline.py:57-58 | `a.b.c` resolves to `(c, a, b)` |
| `NineLine.ResolveRequestInverse` | neurotune/simulation/nineline.py:49-58 | every successfully resolved request is literally `var`, `seg.var` or `seg.comp.var` of its triple, with dot-free parts |
| `NineLine.ResolveEntries` | neurotune/simulation/nineline.py:42-59 | rewriting a request list keeps its length |
| `NineLine.ResolveEntriesAt` | neurotune/simulation/nineline.py:42-59 | entries before the first failing one are replaced at the same index by their triples, the rest keep their place unchanged, and the outcome is that entry's error or success |
| `NineLine.ResolveEntriesPass` | neurotune/simulation/nineline.py:42-59 | a request list resolves exactly when every entry does |
| `NineLine.ResolveEntriesNotIdempotent` | neurotune/simulation/nineline.py:42-59 | resolving a non-empty, already-resolved list raises `AttributeError` |
| `NineLine.ResolveSetups` | neurotune/simulation/nineline.py:41-59 | rewriting the setups keeps their number |
| `NineLine.ResolveSetupsAt` | neurotune/simulation/nineline.py:41-59 | setups up to and including the first failing one are rewritten, later ones are untouched, and the outcome is the failing setup's |
| `NineLine.ResolveSetupsStep` | neurotune/simulation/nineline.py:41-59 | one pass of the outer loop: rewriting setup j in place either ends the rewrite with that setup's outcome, or leaves setups 0..j rewritten and the rest still to do |
| `NineLine.ResolveSetupsPass` | neurotune/simulation/nineline.py:41-59 | after a successful resolution, every request of every setup is its triple at the same index, and the list lengths and record times are unchanged |
| `NineLine.NineLineSimulation.ResolveRecordVariables` | neurotune/simulation/nineline.py:42-59 | the in-place loop over one setup leaves that setup as `ResolveEntries` of the old one and changes no other setup |
| `NineLine.NineLineSimulation.ResolveAllSetups` | neurotune/simulation/nineline.py:41-59 | the outer loop leaves the setups as `ResolveSetups` of the old ones: every setup before the first bad one is resolved, that one is partly rewritten, the rest are untouched |
| `NineLine.NineLineSimulation.PrepareSimulations` | neurotune/simulation/nineline.py:34-64 | the setups become `ResolveSetups` of the old ones; `_prepare` runs once, on the only setup, exactly when resolution succeeded and there is one setup, and otherwise the cell is untouched |
| `NineLine.NineLineSimulation.Prepare` | neurotune/simulation/nineline.py:94-110 | a fresh cell with no attributes set and one recorder per entry of `record_variables`, in order; the prepare count goes up by one |
| `NineLine.NineLineSimulation.Run` | neurotune/simulation/nineline.py:66-92 | with a setup count other than 1, the cell is prepared anew for the given setup; with exactly 1, only the controller reset count goes up; then the candidate is applied (raising `AttributeError` before `set_tune_parameters`), and the simulator's result is returned unless application or the missing cell raised |
| `NineLine.Effective` | neurotune/simulation/nineline.py:123-124 | a log-scale value becomes `10 ** x` for a number and `TypeError` for a string; any other value is kept as it is |
| `NineLine.ZipLength` | neurotune/simulation/nineline.py:121-122 | the three-way `zip` takes as many steps as the shortest of genome keys, candidate and log-scale flags: no more than any of them, and exactly one of their lengths |
| `NineLine.StepError` | neurotune/simulation/nineline.py:123-125 | the error of a failing iteration: `TypeError` from `10 ** val` takes precedence, since it is evaluated before `setattr` meets the missing cell (`AttributeError`); its properties in use are stated by `ApplyCandidateStopsAt` |
| `NineLine.SetPrefix` | neurotune/simulation/nineline.py:121-125 | the attributes after the first i `setattr` calls, applied in index order; what it holds is stated by `SetPrefixDomain`, `SetPrefixUntouched`, `SetPrefixLast` and `SetPrefixAt` |
| `NineLine.ApplyCandidate` | neurotune/simulation/nineline.py:118-125 | with the assertion active, a length mismatch raises before any attribute is set |
| `NineLine.SetPrefixDomain` | neurotune/simulation/nineline.py:121-125 | after the first i iterations the attributes are the old ones plus exactly the keys of those iterations |
| `NineLine.SetPrefixUntouched` | neurotune/simulation/nineline.py:121-125 | an attribute that none of the first i iterations sets keeps its old value |
| `NineLine.SetPrefixLast` | neurotune/simulation/nineline.py:121-125 | the key of iteration j, when no later iteration among the first i sets it again, holds iteration j's effective value |
| `NineLine.SetPrefixAt` | neurotune/simulation/nineline.py:121-125 | after the first i iterations, a key holds the value of the last iteration that set it; attributes that are not genome keys are unchanged |
| `NineLine.ApplyCandidateSuccess` | neurotune/simulation/nineline.py:118-125 | for distinct genome keys with one log-scale flag per key, a successful application in debug mode had a candidate of the right length; under `python -O`, with a candidate at least as long as the keys, it likewise reaches every key; in both cases it set each genome key to that parameter's effective value and touched no other attribute (with duplicate keys the last write wins, as `SetPrefixAt` states) |
| `NineLine.ApplyCandidateSetsAll` | neurotune/simulation/nineline.py:118-125 | under the same conditions as `ApplyCandidateSuccess`, every genome key, by index, holds its parameter's effective value |
| `NineLine.ApplyCandidateStopsAt` | neurotune/simulation/nineline.py:121-125 | when iteration i is the first that fails, the result is the first i iterations' writes and that iteration's error (`TypeError` from the exponent, else `AttributeError` for the missing cell) |
| `NineLine.ApplyCandidateCompletes` | neurotune/simulation/nineline.py:121-125 | when every zipped iteration succeeds, the result is all their writes and no error |
| `NineLine.ApplyCandidateFailure` | neurotune/simulation/nineline.py:121-125 | an application past the assertion that raises stops at the first failing iteration, with exactly the earlier iterations' keys set |
| `NineLine.ApplyCandidateOnlyZipped` | neurotune/simulation/nineline.py:121-122 | without the assertion, keys beyond the shorter of candidate and genome keys are never touched |
| `NineLine.NineLineSimulation.SetCandidateParams` | neurotune/simulation/nineline.py:112-125 | before `set_tune_parameters` it raises `AttributeError` and sets nothing; afterwards the loop leaves the attributes and the outcome given by `ApplyCandidate` of the old attributes; with distinct genome keys, and under `python -O` a candidate at least as long as them, a success set every genome key to its parameter's effective value |
| `NineLine.NineLineSimulation.constructor` | neurotune/simulation/nineline.py:12-20 | a new engine satisfies `Valid`, has no cell, no `genome_keys` or `log_scales` attributes yet, and zero prepare and reset counts |
| `Tuning.NewEvaluationException` | neurotune/tuner/__init__.py:9-13 | the exception keeps the objective, candidate and recordings; its traceback is `tback` when supplied, and the current formatted traceback otherwise |
| `Tuning.Message` | neurotune/tuner/__init__.py:15-17 | the message is the fixed head, then the shown candidate, then the fixed middle, then the full traceback as its suffix |
| `Tuning.MessageDeterminesTrace` | neurotune/tuner/__init__.py:15-17 | for the same shown candidate, equal messages mean equal tracebacks |
| `Tuning.FilenameItems` | neurotune/tuner/__init__.py:75-76 | building the items succeeds exactly when every zipped candidate value is a string, otherwise `TypeError`; there is one item per zipped pair |
| `Tuning.FilenameItemsAt` | neurotune/tuner/__init__.py:75-76 | item i is `name_i + '=' + value_i` |
| `Tuning.RecordFilename` | neurotune/tuner/__init__.py:75-76 | the name is built exactly when every zipped value is a string, otherwise `TypeError`; it ends in `.pkl` |
| `Tuning.FilenameRoundTrip` | neurotune/tuner/__init__.py:75-76 | when names and values avoid `_` and `=`, splitting the name without `.pkl` on `_`, then each piece on `=`, gives back the parameter names and candidate values |
| `Tuning.PathJoin` | neurotune/tuner/__init__.py:77 | `os.path.join(dir, name)` ends with the name; for a relative name it starts with the directory and inserts a `/` when the directory lacks one |
| `Tuning.Truthy` | neurotune/tuner/__init__.py:74 | `if self.save_recordings:`: `None` and the empty string are falsy, any other directory name truthy; `Save` and `SavedWhenConfigured` state what depends on it |
| `Tuning.Save` | neurotune/tuner/__init__.py:74-78 | nothing is saved unless `save_recordings` is truthy; `open` is called exactly when the name could be built, at the joined path, and the open-and-write call decides the outcome; a name that cannot be built raises `TypeError` |
| `Tuning.Handle` | neurotune/tuner/__init__.py:80-87 | in debug mode the original error is re-raised unchanged; otherwise an `EvaluationException` carries the objective, the candidate, the recordings and the error's formatted traceback |
| `Tuning.EvaluateCandidate` | neurotune/tuner/__init__.py:66-88 | succeeds exactly when the run, the save and the fitness all succeed, returning `fitness(run(candidate))`; a failure is re-raised exactly in debug mode; a wrapped failure carries the objective, the candidate, and the recordings, which are `None` exactly when the run raised |
| `Tuning.DebugReraisesCause` | neurotune/tuner/__init__.py:80-82 | in debug mode the escaping error is the run's, the save's or the objective's own error, from whichever raised first |
| `Tuning.ModesAgree` | neurotune/tuner/__init__.py:72-87 | both modes save the same file and fail on the same candidates; where debug re-raises error e, non-debug raises a wrapper whose traceback is e's |
| `Tuning.SavedWhenConfigured` | neurotune/tuner/__init__.py:74-78 | a successful evaluation saved its recordings exactly when `save_recordings` is truthy |
| `Tuning.NumericValueFailsSave` | neurotune/tuner/__init__.py:74-76 | with saving enabled, a numeric candidate value makes the evaluation fail with `TypeError` before `open` is called, carrying the recordings |
| `Tuning.Collect` | neurotune/tuner/__init__.py:99 | the list comprehension over already-made evaluations: a successful result has one fitness per evaluation |
| `Tuning.CollectAligned` | neurotune/tuner/__init__.py:99 | the collected list succeeds exactly when every evaluation succeeds, and then item i is evaluation i's fitness |
| `Tuning.CollectStops` | neurotune/tuner/__init__.py:99 | the collected list raises the first exception, and evaluations after it change nothing, `open` paths included |
| `Tuning.CollectSavedInOrder` | neurotune/tuner/__init__.py:99 | the collected `open` paths are those of evaluations 0 to k in index order, where k is the first that raised (all evaluations when none did) |
| `Tuning.EvaluateAll` | neurotune/tuner/__init__.py:90-99 | a successful batch has one fitness per candidate |
| `Tuning.EvaluateAllAligned` | neurotune/tuner/__init__.py:99 | the batch succeeds exactly when every candidate does, and then `result[i]` is the fitness of `candidates[i]` |
| `Tuning.EvaluateAllAborts` | neurotune/tuner/__init__.py:99 | the batch raises the first failing candidate's exception; the batch and its `open` paths stay the same whatever follows that candidate, so nothing after it has any effect |
| `Tuning.EvaluateAllSavedInOrder` | neurotune/tuner/__init__.py:99 | the batch's `open` paths are those of the candidates up to and including the first that raised, in candidate order |
| `Tuning.IsMaster` | neurotune/tuner/__init__.py:101-106 | always true |

## Left out

- The simulator itself is not modelled: the cell class built from the 9ml file, `cell.record`, `cell.get_recording`, and the controller's `run` and `reset`. These are foreign calls into NEURON. Building a cell sets a flag and clears the attribute map. `reset` increments a counter. Running and collecting recordings is the `Simulator` function passed to `Run`. Failures inside `cell.record` or inside NEURON's attribute assignment are not modelled. Two edges follow from that. First, `self.cell.record(*rec)` raises `TypeError` for an entry that is still `None`, which happens when `run` is given a setup that was never resolved; `Prepare` copies such an entry into `recorders` without failing. Second, with no cell and a zero-length zip, the source still calls the controller's `run` before `self.cell.get_recording` raises `AttributeError`; `Run` returns that `AttributeError` without calling the `Simulator`.
- The default segment name is read from a cell instance in `__init__`. Here it is a constructor parameter.
- The base class `Simulation` is not part of this model. It fills `_simulation_setups`, which the constructor here takes as a parameter.
- Setups are values held by the engine. The source rewrites setup objects that other code may also hold, and that aliasing is not modelled.
- The conversion of `record_time` to milliseconds and the `neo.core.Segment` wrapping are left out. They involve units and library containers. `Run` returns what the simulator returns.
- The numeric value of `10 ** x` is kept as the symbol `Pow10(x)`. Floating-point overflow is not modelled.
- Candidate entries are reals or strings. Python's other values (ints, bools, arbitrary objects) are not modelled.
- The tuner sees `simulation.run(candidate)` as a function of the candidate. The model does not cover how it dispatches to the two-argument `run` of the NineLine class, or what engine state carries over between evaluations.
- Pickling and file I/O are left out: `EvaluationException.save`, the contents of the recordings file, and `os.mkdir` in `tune`. Writing the file is the `dump` function. Only the path and the file name are modelled.
- `print` and `verbose` output are left out. So is the text of `traceback.format_exc()`, which is the `formatExc` function. The text of `str(candidate)` is a parameter of `Message`.
- `Tuner.set` and `Tuner.tune` are left out. `set` assigns fields, which the `Tuner` value stands for. It registers the parameters with the algorithm, which is external, and with the simulation, which is `SetTuneParameters` here. It also passes `objective.get_recording_requests()` to the base class's `process_requests`, which is not part of this model. `tune` calls the optimiser, which is external.
- `except Exception` does not catch exceptions outside `Exception` (such as `KeyboardInterrupt`). Every collaborator failure is modelled as an `Exception`.
- The unused `args` parameter of `_evaluate_all_candidates` is not modelled.
- `Tuning.EvaluateAll`: the model forms every candidate's evaluation as a value and keeps those up to the first exception. The collaborators are pure functions here, so evaluations after that point have no visible effect, and their `open` paths are not reported. The model does not capture that Python never calls them.
