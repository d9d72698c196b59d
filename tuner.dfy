/** The tuner's candidate-evaluation policy: scoring one candidate through the
    simulation and the objective, the debug and non-debug failure modes, the
    file name under which recordings are saved, and the order-preserving
    evaluation of a batch. */
module Tuning {
  import opened Common
  import Strings

  /** The fields of a `Tuner` that evaluation reads. `debug` stands for Python's
      `__debug__`. */
  datatype Tuner<O> = Tuner(
    tuneParameters: seq<TuneParameter>,
    objective: O,
    saveRecordings: Option<string>,
    /** Read only by the progress `print`, which is not modelled. */
    verbose: bool,
    debug: bool)

  /** The calls evaluation makes into code outside the tuner. */
  datatype Collaborators<!R> = Collaborators(
    /** `simulation.run(candidate)` */
    run: Candidate -> Result<R, Error>,
    /** `open` at a path followed by pickling `(candidate, recordings)` into the
        file; either may raise, `open` included */
    dump: (string, Candidate, R) -> Outcome<Error>,
    /** `objective.fitness(recordings)` */
    fitness: R -> Result<real, Error>,
    /** `traceback.format_exc()` while the given error is being handled */
    formatExc: Error -> string)

  /** An `EvaluationException`; `recordings` is `None` when `simulation.run` never
      returned. */
  datatype EvaluationException<O, R> =
    EvaluationException(objective: O, candidate: Candidate, recordings: Option<R>, traceback: string)

  /** What `_evaluate_candidate` raises: the original error, or the wrapper. */
  datatype Raised<O, R> = Reraised(cause: Error) | Wrapped(exception: EvaluationException<O, R>)

  /** One evaluation: the path at which `open` was called for the recordings,
      if it was, and the fitness or the raised exception. The call may itself
      have raised, so a path does not promise that a file exists. */
  datatype Evaluation<O, R> = Evaluation(savedTo: Option<string>, outcome: Result<real, Raised<O, R>>)

  /** A batch evaluation: the paths at which `open` was called, in call order,
      and the list of fitnesses or the exception that ended the batch. */
  datatype BatchEvaluation<O, R> = BatchEvaluation(savedTo: seq<string>, outcome: Result<seq<real>, Raised<O, R>>)

  /** The saving step: the path at which `open` was called, if any, and whether
      opening or writing raised. */
  datatype SaveStep = SaveStep(savedTo: Option<string>, outcome: Outcome<Error>)

  // ---------------------------------------------------------------------------
  // EvaluationException

  /** `EvaluationException(objective, candidate, recordings, tback)`, where
      `currentTrace` is what `traceback.format_exc()` gives at that moment. */
  function NewEvaluationException<O, R>(objective: O, candidate: Candidate, recordings: Option<R>,
                                        tback: Option<string>, currentTrace: string): (x: EvaluationException<O, R>)
    ensures x.objective == objective && x.candidate == candidate && x.recordings == recordings
    ensures x.traceback == (if tback.Some? then tback.value else currentTrace)
  {
    EvaluationException(objective, candidate, recordings,
                        if tback.Some? then tback.value else currentTrace)
  }

  const MessageHead := "Evaluating candidate "
  const MessageMiddle := " caused the following error:\n\n"

  /** `str(exception)`, where `shown` is the formatted candidate. */
  function Message<O, R>(x: EvaluationException<O, R>, shown: string): (m: string)
    ensures |m| == |MessageHead| + |shown| + |MessageMiddle| + |x.traceback|
    ensures m[..|MessageHead|] == MessageHead
    ensures m[|MessageHead|..|MessageHead| + |shown|] == shown
    ensures m[|MessageHead| + |shown|..|MessageHead| + |shown| + |MessageMiddle|] == MessageMiddle
    ensures m[|MessageHead| + |shown| + |MessageMiddle|..] == x.traceback
  {
    var m := MessageHead + shown + MessageMiddle + x.traceback;
    assert m[|MessageHead|..|MessageHead| + |shown|] == shown;
    assert m[|MessageHead| + |shown|..|MessageHead| + |shown| + |MessageMiddle|] == MessageMiddle;
    m
  }

  /** Two exceptions about the same shown candidate have the same message only if
      they have the same traceback. */
  lemma MessageDeterminesTrace<O, R>(x: EvaluationException<O, R>, y: EvaluationException<O, R>, shown: string)
    requires Message(x, shown) == Message(y, shown)
    ensures x.traceback == y.traceback
  {
    var n := |MessageHead| + |shown| + |MessageMiddle|;
    assert Message(x, shown)[n..] == Message(y, shown)[n..];
  }

  // ---------------------------------------------------------------------------
  // Saving recordings

  /** Truthiness of `save_recordings`: a non-empty directory name. */
  predicate Truthy(dir: Option<string>)
  {
    dir.Some? && dir.value != ""
  }

  /** The `name=value` items of the file name, over the parameters zipped with the
      candidate; a number cannot be concatenated to a string. */
  function FilenameItems(params: seq<TuneParameter>, c: Candidate): (r: Result<seq<string>, Error>)
    ensures r.Success? <==> forall i :: 0 <= i < Min(|params|, |c|) ==> c[i].Text?
    ensures r.Success? ==> |r.value| == Min(|params|, |c|)
    ensures r.Failure? ==> r.error == TypeError
  {
    if params == [] || c == [] then Success([])
    else if c[0].Num? then Failure(TypeError)
    else
      match FilenameItems(params[1..], c[1..])
      case Failure(e) => Failure(e)
      case Success(rest) => Success([params[0].name + "=" + c[0].s] + rest)
  }

  lemma {:induction false} FilenameItemsAt(params: seq<TuneParameter>, c: Candidate, i: nat)
    requires FilenameItems(params, c).Success?
    requires i < Min(|params|, |c|)
    ensures FilenameItems(params, c).value[i] == params[i].name + "=" + c[i].s
  {
    if i > 0 {
      FilenameItemsAt(params[1..], c[1..], i - 1);
    }
  }

  /** The recordings file name: the `name=value` items joined by `_`, then `.pkl`. */
  function RecordFilename(params: seq<TuneParameter>, c: Candidate): (r: Result<string, Error>)
    ensures r.Success? <==> forall i :: 0 <= i < Min(|params|, |c|) ==> c[i].Text?
    ensures r.Failure? ==> r.error == TypeError
    ensures r.Success? ==> |r.value| >= 4 && r.value[|r.value| - 4..] == ".pkl"
  {
    match FilenameItems(params, c)
    case Failure(e) => Failure(e)
    case Success(items) => Success(Strings.Join(items, '_') + ".pkl")
  }

  /** When names and values contain neither `_` nor `=`, the file name can be
      read back into the parameter names and candidate values it was built from. */
  lemma FilenameRoundTrip(params: seq<TuneParameter>, c: Candidate)
    requires |params| >= 1 && |c| >= 1
    requires forall i :: 0 <= i < Min(|params|, |c|) ==>
      c[i].Text? && '_' !in params[i].name && '=' !in params[i].name && '_' !in c[i].s && '=' !in c[i].s
    ensures RecordFilename(params, c).Success?
    ensures var f := RecordFilename(params, c).value;
      var items := Strings.Split(f[..|f| - 4], '_');
      |items| == Min(|params|, |c|) &&
      forall i :: 0 <= i < |items| ==> Strings.Split(items[i], '=') == [params[i].name, c[i].s]
  {
    var items := FilenameItems(params, c).value;
    var f := RecordFilename(params, c).value;
    assert f[..|f| - 4] == Strings.Join(items, '_');
    forall i | 0 <= i < |items|
      ensures items[i] == params[i].name + "=" + c[i].s
      ensures '_' !in items[i]
      ensures Strings.Split(items[i], '=') == [params[i].name, c[i].s]
    {
      FilenameItemsAt(params, c, i);
      Strings.SplitAround(params[i].name, '=', c[i].s);
      Strings.SplitFree(c[i].s, '=');
    }
    Strings.SplitJoin(items, '_');
  }

  /** `os.path.join(a, b)` for POSIX paths. */
  function PathJoin(a: string, b: string): (p: string)
    ensures |p| >= |b| && p[|p| - |b|..] == b
    ensures (b == [] || b[0] != '/') ==> |p| >= |a| && p[..|a|] == a
    ensures (b == [] || b[0] != '/') && a != [] && a[|a| - 1] != '/' ==> |p| > |a| && p[|a|] == '/'
  {
    if b != [] && b[0] == '/' then b
    else if a == [] || a[|a| - 1] == '/' then a + b
    else a + "/" + b
  }

  /** The `if self.save_recordings:` block of the evaluation. */
  function Save<O, R>(t: Tuner<O>, env: Collaborators<R>, c: Candidate, recordings: R): (s: SaveStep)
    ensures !Truthy(t.saveRecordings) ==> s == SaveStep(None, Pass)
    ensures s.savedTo.Some? <==> Truthy(t.saveRecordings) && RecordFilename(t.tuneParameters, c).Success?
    ensures s.savedTo.Some? ==>
      s.savedTo.value == PathJoin(t.saveRecordings.value, RecordFilename(t.tuneParameters, c).value) &&
      s.outcome == env.dump(s.savedTo.value, c, recordings)
    ensures Truthy(t.saveRecordings) && s.savedTo.None? ==> s.outcome == Fail(TypeError)
  {
    if !Truthy(t.saveRecordings) then SaveStep(None, Pass)
    else
      match RecordFilename(t.tuneParameters, c)
      case Failure(e) => SaveStep(None, Fail(e))
      case Success(name) =>
        var path := PathJoin(t.saveRecordings.value, name);
        SaveStep(Some(path), env.dump(path, c, recordings))
  }

  // ---------------------------------------------------------------------------
  // Evaluating candidates

  /** The `except Exception:` clause: re-raise in debug mode, otherwise wrap with
      the objective, the candidate, the recordings if they were obtained, and the
      formatted traceback. */
  function Handle<O, R>(t: Tuner<O>, env: Collaborators<R>, c: Candidate, err: Error, recordings: Option<R>)
    : (x: Raised<O, R>)
    ensures t.debug ==> x == Reraised(err)
    ensures !t.debug ==>
      x == Wrapped(EvaluationException(t.objective, c, recordings, env.formatExc(err)))
  {
    if t.debug then Reraised(err)
    else Wrapped(NewEvaluationException(t.objective, c, recordings, None, env.formatExc(err)))
  }

  /** `_evaluate_candidate`. */
  function EvaluateCandidate<O, R>(t: Tuner<O>, env: Collaborators<R>, c: Candidate): (e: Evaluation<O, R>)
    ensures e.outcome.Success? <==>
      env.run(c).Success? && Save(t, env, c, env.run(c).value).outcome.Pass? &&
      env.fitness(env.run(c).value).Success?
    ensures e.outcome.Success? ==> e.outcome.value == env.fitness(env.run(c).value).value
    ensures e.outcome.Failure? ==> (e.outcome.error.Reraised? <==> t.debug)
    ensures e.outcome.Failure? && !t.debug ==>
      e.outcome.error.exception.objective == t.objective &&
      e.outcome.error.exception.candidate == c &&
      e.outcome.error.exception.recordings == (if env.run(c).Success? then Some(env.run(c).value) else None)
    ensures env.run(c).Failure? ==>
      e == Evaluation(None, Failure(Handle(t, env, c, env.run(c).error, None)))
    ensures env.run(c).Success? ==> e.savedTo == Save(t, env, c, env.run(c).value).savedTo
  {
    match env.run(c)
    case Failure(err) => Evaluation(None, Failure(Handle(t, env, c, err, None)))
    case Success(recordings) =>
      var saved := Save(t, env, c, recordings);
      if saved.outcome.Fail? then
        Evaluation(saved.savedTo, Failure(Handle(t, env, c, saved.outcome.error, Some(recordings))))
      else
        match env.fitness(recordings)
        case Failure(err) => Evaluation(saved.savedTo, Failure(Handle(t, env, c, err, Some(recordings))))
        case Success(f) => Evaluation(saved.savedTo, Success(f))
  }

  /** In debug mode the error that escapes is the one the failing call raised:
      the simulation's, the save's, or the objective's. */
  lemma DebugReraisesCause<O, R>(t: Tuner<O>, env: Collaborators<R>, c: Candidate)
    requires t.debug
    ensures var e := EvaluateCandidate(t, env, c).outcome;
      (env.run(c).Failure? ==> e == Failure(Reraised(env.run(c).error))) &&
      (env.run(c).Success? && Save(t, env, c, env.run(c).value).outcome.Fail? ==>
         e == Failure(Reraised(Save(t, env, c, env.run(c).value).outcome.error))) &&
      (env.run(c).Success? && Save(t, env, c, env.run(c).value).outcome.Pass? &&
       env.fitness(env.run(c).value).Failure? ==>
         e == Failure(Reraised(env.fitness(env.run(c).value).error)))
  {
  }

  /** The two modes fail on the same candidates and save the same files; where
      debug mode re-raises an error, non-debug mode raises a wrapper whose
      traceback is that error's. */
  lemma ModesAgree<O, R>(t: Tuner<O>, env: Collaborators<R>, c: Candidate)
    ensures var d := EvaluateCandidate(t.(debug := true), env, c);
      var n := EvaluateCandidate(t.(debug := false), env, c);
      d.savedTo == n.savedTo &&
      d.outcome.Success? == n.outcome.Success? &&
      (d.outcome.Success? ==> d.outcome.value == n.outcome.value) &&
      (d.outcome.Failure? ==> n.outcome.error.exception.traceback == env.formatExc(d.outcome.error.cause))
  {
  }

  /** Recordings are saved by a successful evaluation exactly when saving is
      configured. */
  lemma SavedWhenConfigured<O, R>(t: Tuner<O>, env: Collaborators<R>, c: Candidate)
    requires EvaluateCandidate(t, env, c).outcome.Success?
    ensures EvaluateCandidate(t, env, c).savedTo.Some? <==> Truthy(t.saveRecordings)
  {
  }

  /** A configured save with a numeric candidate value always fails the
      evaluation, before the objective is consulted. */
  lemma NumericValueFailsSave<O, R>(t: Tuner<O>, env: Collaborators<R>, c: Candidate, i: nat)
    requires Truthy(t.saveRecordings) && env.run(c).Success?
    requires i < |t.tuneParameters| && i < |c| && c[i].Num?
    ensures EvaluateCandidate(t, env, c).savedTo.None?
    ensures EvaluateCandidate(t, env, c).outcome
         == Failure(Handle(t, env, c, TypeError, Some(env.run(c).value)))
  {
  }

  // ---------------------------------------------------------------------------
  // Batches

  function SavedPaths(p: Option<string>): seq<string>
  {
    if p.Some? then [p.value] else []
  }

  /** What the list comprehension yields from the evaluations of the candidates, in
      order: the first exception propagates, and nothing after it contributes. */
  function Collect<O, R>(es: seq<Evaluation<O, R>>): (b: BatchEvaluation<O, R>)
    ensures b.outcome.Success? ==> |b.outcome.value| == |es|
  {
    if es == [] then BatchEvaluation([], Success([]))
    else
      match es[0].outcome
      case Failure(x) => BatchEvaluation(SavedPaths(es[0].savedTo), Failure(x))
      case Success(f) =>
        var rest := Collect(es[1..]);
        BatchEvaluation(SavedPaths(es[0].savedTo) + rest.savedTo,
                        match rest.outcome
                        case Success(fs) => Success([f] + fs)
                        case Failure(x) => Failure(x))
  }

  /** The index of the first evaluation that raised, or `|es|`. */
  function FirstRaised<O, R>(es: seq<Evaluation<O, R>>): (k: nat)
    ensures k <= |es|
    ensures forall i :: 0 <= i < k ==> es[i].outcome.Success?
    ensures k < |es| ==> es[k].outcome.Failure?
  {
    if es == [] || es[0].outcome.Failure? then 0
    else 1 + FirstRaised(es[1..])
  }

  /** A collected batch succeeds exactly when every evaluation does, with one
      result per evaluation at the same index. */
  lemma {:induction false} CollectAligned<O, R>(es: seq<Evaluation<O, R>>)
    ensures Collect(es).outcome.Success? <==> forall i :: 0 <= i < |es| ==> es[i].outcome.Success?
    ensures Collect(es).outcome.Success? ==>
      forall i :: 0 <= i < |es| ==> Collect(es).outcome.value[i] == es[i].outcome.value
  {
    if es != [] {
      CollectAligned(es[1..]);
      if es[0].outcome.Success? {
        assert forall i :: 1 <= i < |es| ==> es[i] == es[1..][i - 1];
      }
    }
  }

  /** A collected batch raises the first exception, and does not depend on what
      comes after it. */
  lemma {:induction false} CollectStops<O, R>(es: seq<Evaluation<O, R>>, later: seq<Evaluation<O, R>>)
    requires FirstRaised(es) < |es|
    ensures var k := FirstRaised(es);
      Collect(es).outcome == Failure(es[k].outcome.error) &&
      Collect(es[..k + 1] + later) == Collect(es)
  {
    var k := FirstRaised(es);
    var ds := es[..k + 1] + later;
    assert ds[0] == es[0];
    if k > 0 {
      assert es[1..][..k] + later == ds[1..];
      CollectStops(es[1..], later);
    }
  }

  /** The paths saved by evaluations `0 .. n-1`, in index order. */
  function SavedUpTo<O, R>(es: seq<Evaluation<O, R>>, n: nat): seq<string>
    requires n <= |es|
  {
    if n == 0 then [] else SavedUpTo(es, n - 1) + SavedPaths(es[n - 1].savedTo)
  }

  lemma {:induction false} SavedPrefixShift<O, R>(es: seq<Evaluation<O, R>>, n: nat)
    requires 0 < |es| && n < |es|
    ensures SavedUpTo(es, n + 1) == SavedPaths(es[0].savedTo) + SavedUpTo(es[1..], n)
  {
    if n > 0 {
      SavedPrefixShift(es, n - 1);
      assert es[1..][n - 1] == es[n];
    }
  }

  /** The collected files are those of the evaluations up to and including the
      first that raised (all of them when none did), in the order the
      evaluations come. */
  lemma {:induction false} CollectSavedInOrder<O, R>(es: seq<Evaluation<O, R>>)
    ensures var k := FirstRaised(es);
      Collect(es).savedTo == SavedUpTo(es, if k < |es| then k + 1 else |es|)
  {
    if es != [] {
      var k := FirstRaised(es);
      if es[0].outcome.Failure? {
        SavedPrefixShift(es, 0);
      } else {
        CollectSavedInOrder(es[1..]);
        var k' := FirstRaised(es[1..]);
        assert k == k' + 1;
        SavedPrefixShift(es, if k' < |es[1..]| then k' + 1 else |es[1..]|);
      }
    }
  }

  /** `f` applied to every element, index by index. */
  function Map<A, B>(f: A -> B, xs: seq<A>): (ys: seq<B>)
    ensures |ys| == |xs| && forall i :: 0 <= i < |xs| ==> ys[i] == f(xs[i])
  {
    seq(|xs|, i requires 0 <= i < |xs| => f(xs[i]))
  }

  lemma MapAppend<A, B>(f: A -> B, a: seq<A>, b: seq<A>)
    ensures Map(f, a + b) == Map(f, a) + Map(f, b)
  {
    var ab := a + b;
    assert forall i :: |a| <= i < |ab| ==> ab[i] == b[i - |a|];
  }

  lemma MapPrefix<A, B>(f: A -> B, xs: seq<A>, n: nat)
    requires n <= |xs|
    ensures Map(f, xs[..n]) == Map(f, xs)[..n]
  {
  }

  /** `_evaluate_candidate` applied to every candidate, index by index. */
  function Evaluations<O, R>(t: Tuner<O>, env: Collaborators<R>, cs: seq<Candidate>): (es: seq<Evaluation<O, R>>)
    ensures |es| == |cs|
  {
    Map(c => EvaluateCandidate(t, env, c), cs)
  }

  /** `_evaluate_all_candidates`: the list comprehension over the candidates. */
  function EvaluateAll<O, R>(t: Tuner<O>, env: Collaborators<R>, cs: seq<Candidate>): (b: BatchEvaluation<O, R>)
    ensures b.outcome.Success? ==> |b.outcome.value| == |cs|
  {
    Collect(Evaluations(t, env, cs))
  }

  /** The batch result is index-aligned with the candidates: it succeeds exactly
      when every candidate does, with `result[i]` the fitness of `cs[i]`. */
  lemma EvaluateAllAligned<O, R>(t: Tuner<O>, env: Collaborators<R>, cs: seq<Candidate>)
    ensures EvaluateAll(t, env, cs).outcome.Success?
        <==> forall i :: 0 <= i < |cs| ==> EvaluateCandidate(t, env, cs[i]).outcome.Success?
    ensures EvaluateAll(t, env, cs).outcome.Success? ==>
      forall i :: 0 <= i < |cs| ==>
        EvaluateAll(t, env, cs).outcome.value[i] == EvaluateCandidate(t, env, cs[i]).outcome.value
  {
    var es := Evaluations(t, env, cs);
    CollectAligned(es);
    assert forall i :: 0 <= i < |cs| ==> es[i] == EvaluateCandidate(t, env, cs[i]);
  }

  /** The first candidate whose evaluation raises ends the batch: every earlier one
      succeeded, its exception is what the batch raises, and the batch, including
      the files it saved, is the same whatever candidates follow it. */
  lemma EvaluateAllAborts<O, R>(t: Tuner<O>, env: Collaborators<R>, cs: seq<Candidate>, k: nat,
                                later: seq<Candidate>)
    requires k < |cs| && EvaluateCandidate(t, env, cs[k]).outcome.Failure?
    requires forall i :: 0 <= i < k ==> EvaluateCandidate(t, env, cs[i]).outcome.Success?
    ensures EvaluateAll(t, env, cs).outcome == Failure(EvaluateCandidate(t, env, cs[k]).outcome.error)
    ensures EvaluateAll(t, env, cs[..k + 1] + later) == EvaluateAll(t, env, cs)
  {
    var es := Evaluations(t, env, cs);
    assert forall i :: 0 <= i < k ==> es[i].outcome.Success?;
    assert es[k].outcome.Failure?;
    assert FirstRaised(es) == k;
    var f := c => EvaluateCandidate(t, env, c);
    MapAppend(f, cs[..k + 1], later);
    MapPrefix(f, cs, k + 1);
    CollectStops(es, Evaluations(t, env, later));
  }

  /** The batch's `open` paths are those of the candidates up to and including
      the first that raised (all of them when none did), in candidate order. */
  lemma EvaluateAllSavedInOrder<O, R>(t: Tuner<O>, env: Collaborators<R>, cs: seq<Candidate>)
    ensures var es := Evaluations(t, env, cs);
      var k := FirstRaised(es);
      EvaluateAll(t, env, cs).savedTo == SavedUpTo(es, if k < |es| then k + 1 else |es|)
  {
    CollectSavedInOrder(Evaluations(t, env, cs));
  }

  /** `is_master`: a single process is always the master. */
  function IsMaster(): (master: bool)
    ensures master
  {
    true
  }
}
