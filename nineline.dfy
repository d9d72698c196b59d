/** The NineLine simulation engine wrapper: genome keys for the tuned parameters,
    the recording-request grammar, the prepare-once lifecycle of the single NEURON
    cell, and the application of a candidate to the cell's attributes. */
module NineLine {
  import opened Common
  import Strings

  /** What `cell.record(var, segname, component)` receives. */
  datatype RecordSite = RecordSite(variable: string, segment: string, component: Option<string>)

  /** One element of `setup.record_variables`: `None`, a request string, or (once
      resolved in place) the `(var, segname, component)` tuple. */
  datatype RecordEntry = Absent | Request(text: string) | Site(site: RecordSite)

  /** A simulation setup: what to record and for how long (the duration's units
      are not modelled). */
  datatype Setup = Setup(recordVariables: seq<RecordEntry>, recordTime: real)

  /** A value assigned to a cell attribute: the candidate entry itself, or
      `10 ** x` for a log-scale parameter, kept symbolic. */
  datatype AttrValue = Plain(value: Scalar) | Pow10(exponent: real)

  /** A fallible rewrite: the (possibly partly) rewritten value and whether it
      completed. */
  datatype Resolution<T> = Resolution(value: T, outcome: Outcome<Error>)

  const LengthMessage := "length of candidate and genome keys do not match"

  // ---------------------------------------------------------------------------
  // Genome keys

  /** The attribute path under which a parameter is set on the cell. */
  function GenomeKey(defaultSeg: string, name: string): (key: string)
    ensures '.' in key
    ensures '.' in name ==> key == name
    ensures '.' !in name ==> key == defaultSeg + "." + name
  {
    if '.' in name then name
    else
      var key := defaultSeg + "." + name;
      assert key[|defaultSeg|] == '.';
      key
  }

  /** Deriving a key from a key changes nothing. */
  lemma GenomeKeyIdempotent(defaultSeg: string, name: string)
    ensures GenomeKey(defaultSeg, GenomeKey(defaultSeg, name)) == GenomeKey(defaultSeg, name)
  {
  }

  /** A bare name becomes a `segment.name` path that splits back into its parts. */
  lemma GenomeKeySplits(defaultSeg: string, name: string)
    requires '.' !in defaultSeg && '.' !in name
    ensures Strings.Split(GenomeKey(defaultSeg, name), '.') == [defaultSeg, name]
  {
    assert Strings.Join([defaultSeg, name], '.') == defaultSeg + "." + name;
    Strings.SplitJoin([defaultSeg, name], '.');
  }

  // ---------------------------------------------------------------------------
  // Recording requests

  /** How the dot-separated tokens of a request are unpacked: one, two or three
      of them, and `ValueError` for more. */
  function ParseParts(parts: seq<string>, defaultSeg: string): (r: Result<RecordSite, Error>)
    requires |parts| >= 1
    ensures r.Success? <==> |parts| <= 3
    ensures r.Failure? ==> r.error == ValueError
    ensures r.Success? ==> r.value.variable == parts[|parts| - 1]
    ensures r.Success? ==> (r.value.component.Some? <==> |parts| == 3)
  {
    if |parts| == 1 then Success(RecordSite(parts[0], defaultSeg, None))
    else if |parts| == 2 then Success(RecordSite(parts[1], parts[0], None))
    else if |parts| == 3 then Success(RecordSite(parts[2], parts[0], Some(parts[1])))
    else Failure(ValueError)
  }

  /** Resolution of one element of `record_variables`. An already resolved
      element is a tuple, which has no `split`. */
  function ResolveEntry(entry: RecordEntry, defaultSeg: string): (r: Result<RecordSite, Error>)
    ensures entry.Absent? ==> r == Success(RecordSite("v", defaultSeg, None))
    ensures entry.Site? ==> r == Failure(AttributeError)
    ensures entry.Request? ==> (r.Success? <==> Strings.Count(entry.text, '.') <= 2)
  {
    match entry
    case Absent => Success(RecordSite("v", defaultSeg, None))
    case Request(s) => ParseParts(Strings.Split(s, '.'), defaultSeg)
    case Site(_) => Failure(AttributeError)
  }

  lemma ResolveBare(x: string, defaultSeg: string)
    requires '.' !in x
    ensures ResolveEntry(Request(x), defaultSeg) == Success(RecordSite(x, defaultSeg, None))
  {
    Strings.SplitFree(x, '.');
  }

  /** `seg.var`: the segment comes first, the variable second. */
  lemma ResolvePair(seg: string, variable: string, defaultSeg: string)
    requires '.' !in seg && '.' !in variable
    ensures ResolveEntry(Request(seg + "." + variable), defaultSeg)
         == Success(RecordSite(variable, seg, None))
  {
    assert Strings.Join([seg, variable], '.') == seg + "." + variable;
    Strings.SplitJoin([seg, variable], '.');
  }

  /** `seg.comp.var`. */
  lemma ResolveTriple(seg: string, comp: string, variable: string, defaultSeg: string)
    requires '.' !in seg && '.' !in comp && '.' !in variable
    ensures ResolveEntry(Request(seg + "." + comp + "." + variable), defaultSeg)
         == Success(RecordSite(variable, seg, Some(comp)))
  {
    var parts := [seg, comp, variable];
    assert Strings.Join(parts[1..], '.') == comp + "." + variable;
    assert Strings.Join(parts, '.') == seg + "." + comp + "." + variable;
    Strings.SplitJoin(parts, '.');
  }

  /** Every resolved request is one of the three written forms, and its parts are
      dot-free. */
  lemma ResolveRequestInverse(s: string, defaultSeg: string)
    requires ResolveEntry(Request(s), defaultSeg).Success?
    ensures var site := ResolveEntry(Request(s), defaultSeg).value;
      '.' !in site.variable &&
      (site.component.None? ==>
         (s == site.variable && site.segment == defaultSeg) ||
         ('.' !in site.segment && s == site.segment + "." + site.variable)) &&
      (site.component.Some? ==>
         '.' !in site.segment && '.' !in site.component.value &&
         s == site.segment + "." + site.component.value + "." + site.variable)
  {
    var parts := Strings.Split(s, '.');
    Strings.JoinSplit(s, '.');
    if |parts| == 2 {
      assert Strings.Join(parts, '.') == parts[0] + "." + parts[1];
    } else if |parts| == 3 {
      assert Strings.Join(parts[1..], '.') == parts[1] + "." + parts[2];
      assert Strings.Join(parts, '.') == parts[0] + "." + parts[1] + "." + parts[2];
    }
  }

  /** The in-place rewrite of one setup's `record_variables`: elements are
      replaced left to right until the first one that fails. */
  function ResolveEntries(es: seq<RecordEntry>, defaultSeg: string): (r: Resolution<seq<RecordEntry>>)
    ensures |r.value| == |es|
  {
    if es == [] then Resolution([], Pass)
    else
      match ResolveEntry(es[0], defaultSeg)
      case Failure(e) => Resolution(es, Fail(e))
      case Success(site) =>
        var rest := ResolveEntries(es[1..], defaultSeg);
        Resolution([Site(site)] + rest.value, rest.outcome)
  }

  /** The index of the first element that cannot be resolved, or `|es|`. */
  function FirstUnresolvable(es: seq<RecordEntry>, defaultSeg: string): (k: nat)
    ensures k <= |es|
    ensures forall i :: 0 <= i < k ==> ResolveEntry(es[i], defaultSeg).Success?
    ensures k < |es| ==> ResolveEntry(es[k], defaultSeg).Failure?
  {
    if es == [] || ResolveEntry(es[0], defaultSeg).Failure? then 0
    else 1 + FirstUnresolvable(es[1..], defaultSeg)
  }

  /** Elements before the first failure are replaced by their triples, the rest
      keep their place unchanged; the failure is that element's error. */
  lemma {:induction false} ResolveEntriesAt(es: seq<RecordEntry>, defaultSeg: string)
    ensures var r := ResolveEntries(es, defaultSeg);
      var k := FirstUnresolvable(es, defaultSeg);
      (forall i :: 0 <= i < k ==> r.value[i] == Site(ResolveEntry(es[i], defaultSeg).value)) &&
      r.value[k..] == es[k..] &&
      r.outcome == (if k < |es| then Fail(ResolveEntry(es[k], defaultSeg).error) else Pass)
  {
    if es != [] && ResolveEntry(es[0], defaultSeg).Success? {
      ResolveEntriesAt(es[1..], defaultSeg);
      var r := ResolveEntries(es, defaultSeg);
      var k := FirstUnresolvable(es, defaultSeg);
      assert r.value[k..] == ResolveEntries(es[1..], defaultSeg).value[k - 1..];
      assert es[k..] == es[1..][k - 1..];
    }
  }

  /** The whole request list resolves exactly when every element does. */
  lemma ResolveEntriesPass(es: seq<RecordEntry>, defaultSeg: string)
    ensures ResolveEntries(es, defaultSeg).outcome == Pass
        <==> forall i :: 0 <= i < |es| ==> ResolveEntry(es[i], defaultSeg).Success?
  {
    ResolveEntriesAt(es, defaultSeg);
  }

  /** Resolving an already resolved, non-empty list fails: the rewrite is not
      idempotent. */
  lemma ResolveEntriesNotIdempotent(es: seq<RecordEntry>, defaultSeg: string)
    requires es != []
    requires ResolveEntries(es, defaultSeg).outcome == Pass
    ensures ResolveEntries(ResolveEntries(es, defaultSeg).value, defaultSeg).outcome == Fail(AttributeError)
  {
    ResolveEntriesAt(es, defaultSeg);
  }

  function Prepend<T>(prefix: seq<T>, r: Resolution<seq<T>>): Resolution<seq<T>>
  {
    Resolution(prefix + r.value, r.outcome)
  }

  /** The rewrite of every setup, in order, stopping at the first failure. */
  function ResolveSetups(ss: seq<Setup>, defaultSeg: string): (r: Resolution<seq<Setup>>)
    ensures |r.value| == |ss|
  {
    if ss == [] then Resolution([], Pass)
    else
      var es := ResolveEntries(ss[0].recordVariables, defaultSeg);
      var head := ss[0].(recordVariables := es.value);
      if es.outcome.Fail? then Resolution([head] + ss[1..], es.outcome)
      else Prepend([head], ResolveSetups(ss[1..], defaultSeg))
  }

  /** One step of `ResolveSetups` on the setups from index `j` on. */
  lemma ResolveSetupsUnfold(ss: seq<Setup>, j: nat, defaultSeg: string)
    requires j < |ss|
    ensures var es := ResolveEntries(ss[j].recordVariables, defaultSeg);
      var head := ss[j].(recordVariables := es.value);
      ResolveSetups(ss[j..], defaultSeg)
        == if es.outcome.Fail? then Resolution([head] + ss[j + 1..], es.outcome)
           else Prepend([head], ResolveSetups(ss[j + 1..], defaultSeg))
  {
    assert ss[j..][0] == ss[j];
    assert ss[j..][1..] == ss[j + 1..];
  }

  /** One iteration of the loop over the setups: rewriting setup `j` in place
      either ends the rewrite with that setup's outcome or moves the boundary
      between rewritten and remaining setups one further. */
  lemma ResolveSetupsStep(orig: seq<Setup>, before: seq<Setup>, after: seq<Setup>, j: nat, defaultSeg: string)
    requires j < |before|
    requires ResolveSetups(orig, defaultSeg) == Prepend(before[..j], ResolveSetups(before[j..], defaultSeg))
    requires var r := ResolveEntries(before[j].recordVariables, defaultSeg);
      after == before[j := before[j].(recordVariables := r.value)]
    ensures var r := ResolveEntries(before[j].recordVariables, defaultSeg);
      (r.outcome.Fail? ==> ResolveSetups(orig, defaultSeg) == Resolution(after, r.outcome)) &&
      (r.outcome.Pass? ==>
         ResolveSetups(orig, defaultSeg) == Prepend(after[..j + 1], ResolveSetups(after[j + 1..], defaultSeg)))
  {
    var r := ResolveEntries(before[j].recordVariables, defaultSeg);
    var head := before[j].(recordVariables := r.value);
    ResolveSetupsUnfold(before, j, defaultSeg);
    assert after[j] == head;
    assert after[j + 1..] == before[j + 1..];
    assert after[..j] == before[..j];
    if r.outcome.Fail? {
      assert ResolveSetups(before[j..], defaultSeg) == Resolution([head] + before[j + 1..], r.outcome);
      assert before[..j] + ([head] + before[j + 1..]) == after;
    } else {
      var later := ResolveSetups(after[j + 1..], defaultSeg);
      assert ResolveSetups(before[j..], defaultSeg) == Resolution([head] + later.value, later.outcome);
      assert before[..j] + ([head] + later.value) == after[..j + 1] + later.value;
    }
  }

  /** The index of the first setup whose requests do not all resolve, or `|ss|`. */
  function FirstFailingSetup(ss: seq<Setup>, defaultSeg: string): (k: nat)
    ensures k <= |ss|
    ensures forall i :: 0 <= i < k ==> ResolveEntries(ss[i].recordVariables, defaultSeg).outcome.Pass?
    ensures k < |ss| ==> ResolveEntries(ss[k].recordVariables, defaultSeg).outcome.Fail?
  {
    if ss == [] || ResolveEntries(ss[0].recordVariables, defaultSeg).outcome.Fail? then 0
    else 1 + FirstFailingSetup(ss[1..], defaultSeg)
  }

  /** Every setup up to and including the failing one is rewritten, the later
      ones are untouched, record times never change, and the outcome is the
      failing setup's. */
  lemma {:induction false} ResolveSetupsAt(ss: seq<Setup>, defaultSeg: string)
    ensures var r := ResolveSetups(ss, defaultSeg);
      var k := FirstFailingSetup(ss, defaultSeg);
      (forall i :: 0 <= i < |ss| && i <= k ==>
         r.value[i] == ss[i].(recordVariables := ResolveEntries(ss[i].recordVariables, defaultSeg).value)) &&
      r.value[k..] == (if k < |ss| then [r.value[k]] + ss[k + 1..] else []) &&
      r.outcome == (if k < |ss| then ResolveEntries(ss[k].recordVariables, defaultSeg).outcome else Pass)
  {
    if ss != [] && ResolveEntries(ss[0].recordVariables, defaultSeg).outcome.Pass? {
      ResolveSetupsAt(ss[1..], defaultSeg);
      var r := ResolveSetups(ss, defaultSeg);
      var k := FirstFailingSetup(ss, defaultSeg);
      assert r.value[1..] == ResolveSetups(ss[1..], defaultSeg).value;
      assert r.value[k..] == ResolveSetups(ss[1..], defaultSeg).value[k - 1..];
      if k < |ss| {
        assert ss[k + 1..] == ss[1..][k..];
      }
    }
  }

  /** In a successful resolution every request of every setup has become its
      triple, at the same index, and nothing else in the setups has changed. */
  lemma ResolveSetupsPass(ss: seq<Setup>, defaultSeg: string, j: nat, i: nat)
    requires ResolveSetups(ss, defaultSeg).outcome == Pass
    requires j < |ss| && i < |ss[j].recordVariables|
    ensures var s := ResolveSetups(ss, defaultSeg).value[j];
      s.recordTime == ss[j].recordTime &&
      |s.recordVariables| == |ss[j].recordVariables| &&
      ResolveEntry(ss[j].recordVariables[i], defaultSeg).Success? &&
      s.recordVariables[i] == Site(ResolveEntry(ss[j].recordVariables[i], defaultSeg).value)
  {
    ResolveSetupsAt(ss, defaultSeg);
    ResolveEntriesAt(ss[j].recordVariables, defaultSeg);
  }

  // ---------------------------------------------------------------------------
  // Candidate application

  /** The value `_set_candidate_params` assigns: `10 ** val` for a log-scale
      parameter (a TypeError for a string), `val` otherwise. */
  function Effective(logScale: bool, v: Scalar): (r: Result<AttrValue, Error>)
    ensures r.Success? <==> (!logScale || v.Num?)
    ensures r.Success? && logScale ==> r.value == Pow10(v.x)
    ensures r.Success? && !logScale ==> r.value == Plain(v)
    ensures r.Failure? ==> r.error == TypeError
  {
    if !logScale then Success(Plain(v))
    else if v.Num? then Success(Pow10(v.x))
    else Failure(TypeError)
  }

  /** How many steps the zip of genome keys, candidate and log-scale flags takes:
      the length of the shortest of the three. */
  function ZipLength(keys: seq<string>, vals: Candidate, logs: seq<bool>): (n: nat)
    ensures n <= |keys| && n <= |vals| && n <= |logs|
    ensures n == |keys| || n == |vals| || n == |logs|
  {
    Min(Min(|keys|, |vals|), |logs|)
  }

  /** One loop iteration succeeds: the value is computed and the cell exists. */
  predicate StepOk(hasCell: bool, logScale: bool, v: Scalar)
  {
    hasCell && Effective(logScale, v).Success?
  }

  /** The error of an iteration that does not succeed: the exponentiation is
      evaluated before `setattr` touches the cell. */
  function StepError(hasCell: bool, logScale: bool, v: Scalar): Error
  {
    if Effective(logScale, v).Failure? then TypeError else AttributeError
  }

  /** The first iteration at or after `i` that fails, or `n`. */
  function FirstBadStep(hasCell: bool, logs: seq<bool>, vals: Candidate, i: nat, n: nat): (k: nat)
    requires i <= n <= |logs| && n <= |vals|
    decreases n - i
    ensures i <= k <= n
    ensures forall j :: i <= j < k ==> StepOk(hasCell, logs[j], vals[j])
    ensures k < n ==> !StepOk(hasCell, logs[k], vals[k])
  {
    if i == n then n
    else if !StepOk(hasCell, logs[i], vals[i]) then i
    else FirstBadStep(hasCell, logs, vals, i + 1, n)
  }

  /** The attributes after the first `i` iterations, in index order. */
  function SetPrefix(m: map<string, AttrValue>, keys: seq<string>, logs: seq<bool>, vals: Candidate, i: nat)
    : map<string, AttrValue>
    requires i <= |keys| && i <= |logs| && i <= |vals|
    requires forall j :: 0 <= j < i ==> Effective(logs[j], vals[j]).Success?
  {
    if i == 0 then m
    else SetPrefix(m, keys, logs, vals, i - 1)[keys[i - 1] := Effective(logs[i - 1], vals[i - 1]).value]
  }

  /** The first `i` iterations add exactly their keys to the attributes. */
  lemma {:induction false} SetPrefixDomain(m: map<string, AttrValue>, keys: seq<string>, logs: seq<bool>,
                                           vals: Candidate, i: nat, key: string)
    requires i <= |keys| && i <= |logs| && i <= |vals|
    requires forall j :: 0 <= j < i ==> Effective(logs[j], vals[j]).Success?
    ensures key in SetPrefix(m, keys, logs, vals, i) <==> key in m || key in keys[..i]
  {
    if i > 0 {
      SetPrefixDomain(m, keys, logs, vals, i - 1, key);
      assert keys[..i] == keys[..i - 1] + [keys[i - 1]];
    }
  }

  /** An attribute that none of the first `i` iterations sets keeps its value. */
  lemma {:induction false} SetPrefixUntouched(m: map<string, AttrValue>, keys: seq<string>, logs: seq<bool>,
                                              vals: Candidate, i: nat, key: string)
    requires i <= |keys| && i <= |logs| && i <= |vals|
    requires forall j :: 0 <= j < i ==> Effective(logs[j], vals[j]).Success?
    requires key !in keys[..i] && key in m
    ensures key in SetPrefix(m, keys, logs, vals, i) && SetPrefix(m, keys, logs, vals, i)[key] == m[key]
  {
    if i > 0 {
      assert keys[..i] == keys[..i - 1] + [keys[i - 1]];
      SetPrefixUntouched(m, keys, logs, vals, i - 1, key);
    }
  }

  /** The key of iteration `j`, when no later one of the first `i` iterations
      sets it again, holds iteration `j`'s value. */
  lemma {:induction false} SetPrefixLast(m: map<string, AttrValue>, keys: seq<string>, logs: seq<bool>,
                                         vals: Candidate, i: nat, j: nat)
    requires i <= |keys| && i <= |logs| && i <= |vals|
    requires forall j :: 0 <= j < i ==> Effective(logs[j], vals[j]).Success?
    requires j < i && keys[j] !in keys[j + 1..i]
    ensures keys[j] in SetPrefix(m, keys, logs, vals, i)
    ensures SetPrefix(m, keys, logs, vals, i)[keys[j]] == Effective(logs[j], vals[j]).value
  {
    if j < i - 1 {
      assert keys[i - 1] == keys[j + 1..i][i - 1 - (j + 1)];
      assert keys[j + 1..i] == keys[j + 1..i - 1] + [keys[i - 1]];
      SetPrefixLast(m, keys, logs, vals, i - 1, j);
    }
  }

  /** After the first `i` iterations a key holds the value of the last iteration
      that set it, and any other attribute is as it was. */
  lemma SetPrefixAt(m: map<string, AttrValue>, keys: seq<string>, logs: seq<bool>,
                    vals: Candidate, i: nat, key: string)
    requires i <= |keys| && i <= |logs| && i <= |vals|
    requires forall j :: 0 <= j < i ==> Effective(logs[j], vals[j]).Success?
    ensures key in SetPrefix(m, keys, logs, vals, i) <==> key in m || key in keys[..i]
    ensures key !in keys[..i] && key in m ==> SetPrefix(m, keys, logs, vals, i)[key] == m[key]
    ensures forall j :: 0 <= j < i && keys[j] == key && key !in keys[j + 1..i] ==>
      SetPrefix(m, keys, logs, vals, i)[key] == Effective(logs[j], vals[j]).value
  {
    SetPrefixDomain(m, keys, logs, vals, i, key);
    if key !in keys[..i] && key in m {
      SetPrefixUntouched(m, keys, logs, vals, i, key);
    }
    forall j | 0 <= j < i && keys[j] == key && key !in keys[j + 1..i]
      ensures SetPrefix(m, keys, logs, vals, i)[key] == Effective(logs[j], vals[j]).value
    {
      SetPrefixLast(m, keys, logs, vals, i, j);
    }
  }

  /** `_set_candidate_params`: the attributes afterwards and whether it raised.
      With `debug` the length assertion runs first; otherwise `zip` stops at the
      shorter sequence. Iterations run in index order and stop at the first that
      raises, keeping what earlier ones set. */
  function ApplyCandidate(m: map<string, AttrValue>, keys: seq<string>, logs: seq<bool>, vals: Candidate,
                          hasCell: bool, debug: bool): (r: Resolution<map<string, AttrValue>>)
    ensures debug && |vals| != |keys| ==> r == Resolution(m, Fail(AssertionError(LengthMessage)))
    ensures r.outcome.Fail? && r.outcome.error.AssertionError? ==> r.value == m
  {
    if debug && |vals| != |keys| then Resolution(m, Fail(AssertionError(LengthMessage)))
    else
      var n := ZipLength(keys, vals, logs);
      var k := FirstBadStep(hasCell, logs, vals, 0, n);
      Resolution(SetPrefix(m, keys, logs, vals, k),
                 if k < n then Fail(StepError(hasCell, logs[k], vals[k])) else Pass)
  }

  predicate Distinct(keys: seq<string>)
  {
    forall i, j :: 0 <= i < j < |keys| ==> keys[i] != keys[j]
  }

  /** A successful application sets every genome key to its effective value, and
      leaves every other attribute as it was. In debug mode the assertion
      guarantees a candidate of the right length; under `python -O` no check runs,
      and a candidate at least as long as the keys reaches every key. */
  lemma ApplyCandidateSuccess(m: map<string, AttrValue>, keys: seq<string>, logs: seq<bool>, vals: Candidate,
                              hasCell: bool, debug: bool, key: string)
    requires |logs| == |keys| && Distinct(keys)
    requires !debug ==> |vals| >= |keys|
    requires ApplyCandidate(m, keys, logs, vals, hasCell, debug).outcome == Pass
    ensures debug ==> |vals| == |keys|
    ensures var a := ApplyCandidate(m, keys, logs, vals, hasCell, debug).value;
      (key in a <==> key in m || key in keys) &&
      (key !in keys && key in m ==> a[key] == m[key]) &&
      (forall i :: 0 <= i < |keys| && keys[i] == key ==>
         Effective(logs[i], vals[i]).Success? && a[key] == Effective(logs[i], vals[i]).value)
  {
    var n := ZipLength(keys, vals, logs);
    assert n == |keys|;
    assert keys[..n] == keys;
    SetPrefixAt(m, keys, logs, vals, n, key);
  }

  /** The loop of `_set_candidate_params` leaving at iteration `i`, the first
      that fails: the attributes are those of the earlier iterations. */
  lemma ApplyCandidateStopsAt(m: map<string, AttrValue>, keys: seq<string>, logs: seq<bool>, vals: Candidate,
                              hasCell: bool, debug: bool, i: nat)
    requires !(debug && |vals| != |keys|)
    requires i < ZipLength(keys, vals, logs)
    requires forall j :: 0 <= j < i ==> StepOk(hasCell, logs[j], vals[j])
    requires !StepOk(hasCell, logs[i], vals[i])
    ensures ApplyCandidate(m, keys, logs, vals, hasCell, debug)
         == Resolution(SetPrefix(m, keys, logs, vals, i), Fail(StepError(hasCell, logs[i], vals[i])))
  {
    var n := ZipLength(keys, vals, logs);
    assert FirstBadStep(hasCell, logs, vals, 0, n) == i;
  }

  /** The loop of `_set_candidate_params` running to the end of the zip. */
  lemma ApplyCandidateCompletes(m: map<string, AttrValue>, keys: seq<string>, logs: seq<bool>, vals: Candidate,
                                hasCell: bool, debug: bool)
    requires !(debug && |vals| != |keys|)
    requires forall j :: 0 <= j < ZipLength(keys, vals, logs) ==> StepOk(hasCell, logs[j], vals[j])
    ensures ApplyCandidate(m, keys, logs, vals, hasCell, debug)
         == Resolution(SetPrefix(m, keys, logs, vals, ZipLength(keys, vals, logs)), Pass)
  {
    var n := ZipLength(keys, vals, logs);
    assert FirstBadStep(hasCell, logs, vals, 0, n) == n;
  }

  /** Every genome key holds the effective value of its parameter. */
  predicate SetsEveryKey(a: map<string, AttrValue>, keys: seq<string>, logs: seq<bool>, vals: Candidate)
  {
    |vals| >= |keys| && |logs| >= |keys| &&
    forall i :: 0 <= i < |keys| ==>
      keys[i] in a && Effective(logs[i], vals[i]).Success? && a[keys[i]] == Effective(logs[i], vals[i]).value
  }

  /** `ApplyCandidateSuccess` for every genome key at once, by index. */
  lemma ApplyCandidateSetsAll(m: map<string, AttrValue>, keys: seq<string>, logs: seq<bool>, vals: Candidate,
                              hasCell: bool, debug: bool)
    requires |logs| == |keys| && Distinct(keys)
    requires !debug ==> |vals| >= |keys|
    requires ApplyCandidate(m, keys, logs, vals, hasCell, debug).outcome == Pass
    ensures SetsEveryKey(ApplyCandidate(m, keys, logs, vals, hasCell, debug).value, keys, logs, vals)
  {
    var a := ApplyCandidate(m, keys, logs, vals, hasCell, debug).value;
    forall i | 0 <= i < |keys|
      ensures keys[i] in a && Effective(logs[i], vals[i]).Success? && a[keys[i]] == Effective(logs[i], vals[i]).value
    {
      ApplyCandidateSuccess(m, keys, logs, vals, hasCell, debug, keys[i]);
    }
  }

  /** A raising application stops at the first iteration that fails: exactly the
      keys of the earlier iterations have been set. */
  lemma ApplyCandidateFailure(m: map<string, AttrValue>, keys: seq<string>, logs: seq<bool>, vals: Candidate,
                              hasCell: bool, debug: bool)
    requires !(debug && |vals| != |keys|)
    requires ApplyCandidate(m, keys, logs, vals, hasCell, debug).outcome.Fail?
    ensures var n := ZipLength(keys, vals, logs);
      var k := FirstBadStep(hasCell, logs, vals, 0, n);
      k < n &&
      (forall j :: 0 <= j < k ==> StepOk(hasCell, logs[j], vals[j])) &&
      !StepOk(hasCell, logs[k], vals[k]) &&
      ApplyCandidate(m, keys, logs, vals, hasCell, debug)
        == Resolution(SetPrefix(m, keys, logs, vals, k), Fail(StepError(hasCell, logs[k], vals[k])))
  {
  }

  /** Without the assertion, an application never touches a key beyond the zipped
      length. */
  lemma ApplyCandidateOnlyZipped(m: map<string, AttrValue>, keys: seq<string>, logs: seq<bool>, vals: Candidate,
                                 hasCell: bool, key: string)
    requires key !in keys[..ZipLength(keys, vals, logs)]
    ensures var a := ApplyCandidate(m, keys, logs, vals, hasCell, false).value;
      (key in a <==> key in m) && (key in m ==> a[key] == m[key])
  {
    var n := ZipLength(keys, vals, logs);
    var k := FirstBadStep(hasCell, logs, vals, 0, n);
    assert keys[..k] <= keys[..n];
    SetPrefixAt(m, keys, logs, vals, k, key);
  }

  // ---------------------------------------------------------------------------
  // The engine

  /** A simulator run: the cell's attributes and recorders, and the setup whose
      record time and requested variables are used. */
  type Simulator<Rec> = (map<string, AttrValue>, seq<RecordEntry>, Setup) -> Result<Rec, Error>

  class NineLineSimulation {
    /** Name of the cell type's source section (read from a cell instance). */
    const defaultSeg: string
    /** Python's `__debug__`: false under `python -O`, which also drops `assert`. */
    const debug: bool

    /** Whether `genome_keys` and `log_scales` exist: `__init__` does not create
        them, only `set_tune_parameters` does. */
    var tuned: bool
    var genomeKeys: seq<string>
    var logScales: seq<bool>
    /** `_simulation_setups`, kept as values. */
    var setups: seq<Setup>

    /** Whether `self.cell` exists, and the current cell's state. */
    var hasCell: bool
    var attributes: map<string, AttrValue>
    var recorders: seq<RecordEntry>

    /** Calls of `_prepare` (each builds a fresh cell) and of the controller's `reset`. */
    var prepareCount: nat
    var resetCount: nat

    /** The genome keys and log-scale flags are index-aligned. */
    ghost predicate Valid()
      reads this
    {
      |genomeKeys| == |logScales|
    }

    /** `_simulation_setups` is filled by the base class from the objective's
        requests; here it is given directly. */
    constructor (defaultSeg: string, debug: bool, setups: seq<Setup>)
      ensures this.defaultSeg == defaultSeg && this.debug == debug && this.setups == setups
      ensures Valid() && !tuned && genomeKeys == [] && logScales == []
      ensures !hasCell && attributes == map[] && recorders == []
      ensures prepareCount == 0 && resetCount == 0
    {
      this.defaultSeg := defaultSeg;
      this.debug := debug;
      this.setups := setups;
      tuned, genomeKeys, logScales := false, [], [];
      hasCell, attributes, recorders := false, map[], [];
      prepareCount, resetCount := 0, 0;
    }

    /** `set_tune_parameters`: one genome key and one log-scale flag per
        parameter, index-aligned with the parameters. */
    method SetTuneParameters(params: seq<TuneParameter>)
      modifies this`tuned, this`genomeKeys, this`logScales
      ensures Valid() && tuned
      ensures |genomeKeys| == |params| && |logScales| == |params|
      ensures forall i :: 0 <= i < |params| ==>
        genomeKeys[i] == GenomeKey(defaultSeg, params[i].name) && logScales[i] == params[i].logScale
    {
      tuned, genomeKeys, logScales := true, [], [];
      for i := 0 to |params|
        invariant tuned && |genomeKeys| == i && |logScales| == i
        invariant forall j :: 0 <= j < i ==>
          genomeKeys[j] == GenomeKey(defaultSeg, params[j].name) && logScales[j] == params[j].logScale
      {
        var key;
        if '.' in params[i].name {
          key := params[i].name;
        } else {
          key := defaultSeg + "." + params[i].name;
        }
        genomeKeys := genomeKeys + [key];
        logScales := logScales + [params[i].logScale];
      }
    }

    /** `prepare_simulations`: resolve every request of every setup in place, then
        build the cell once if there is exactly one setup. */
    method PrepareSimulations() returns (o: Outcome<Error>)
      modifies this
      ensures setups == ResolveSetups(old(setups), defaultSeg).value
      ensures o == ResolveSetups(old(setups), defaultSeg).outcome
      ensures tuned == old(tuned) && genomeKeys == old(genomeKeys) && logScales == old(logScales) && resetCount == old(resetCount)
      ensures if o.Pass? && |setups| == 1 then
          prepareCount == old(prepareCount) + 1 && hasCell && attributes == map[] &&
          recorders == setups[0].recordVariables
        else
          prepareCount == old(prepareCount) && hasCell == old(hasCell) &&
          attributes == old(attributes) && recorders == old(recorders)
    {
      o := ResolveAllSetups();
      if o.Pass? && |setups| == 1 {
        Prepare(setups[0]);
      }
    }

    /** The loop of `prepare_simulations` over the setups. */
    method ResolveAllSetups() returns (o: Outcome<Error>)
      modifies this`setups
      ensures setups == ResolveSetups(old(setups), defaultSeg).value
      ensures o == ResolveSetups(old(setups), defaultSeg).outcome
    {
      var j := 0;
      assert setups[..j] == [] && setups[j..] == setups;
      ghost var all := ResolveSetups(setups, defaultSeg);
      assert [] + all.value == all.value;
      while j < |setups|
        invariant 0 <= j <= |setups| == |old(setups)|
        invariant ResolveSetups(old(setups), defaultSeg) == Prepend(setups[..j], ResolveSetups(setups[j..], defaultSeg))
      {
        ghost var before := setups;
        o := ResolveRecordVariables(j);
        ResolveSetupsStep(old(setups), before, setups, j, defaultSeg);
        if o.Fail? {
          return;
        }
        j := j + 1;
      }
      assert setups[..j] == setups && setups[j..] == [];
      assert setups[..j] + [] == setups;
      o := Pass;
    }

    /** The inner loop of `prepare_simulations`: `record_variables[i]` of setup
        `j` is overwritten with its triple, index by index, until one fails. */
    method ResolveRecordVariables(j: nat) returns (o: Outcome<Error>)
      requires j < |setups|
      modifies this`setups
      ensures var r := ResolveEntries(old(setups)[j].recordVariables, defaultSeg);
        setups == old(setups)[j := old(setups)[j].(recordVariables := r.value)] && o == r.outcome
    {
      ghost var orig := setups[j].recordVariables;
      var i := 0;
      assert orig[..i] == [] && orig[i..] == orig;
      ghost var whole := ResolveEntries(orig, defaultSeg);
      assert [] + whole.value == whole.value;
      while i < |setups[j].recordVariables|
        invariant |setups| == |old(setups)|
        invariant 0 <= i <= |setups[j].recordVariables| == |orig|
        invariant setups == old(setups)[j := old(setups)[j].(recordVariables := setups[j].recordVariables)]
        invariant ResolveEntries(orig, defaultSeg)
               == Prepend(setups[j].recordVariables[..i], ResolveEntries(setups[j].recordVariables[i..], defaultSeg))
      {
        var cur := setups[j].recordVariables;
        var site := ResolveEntry(cur[i], defaultSeg);
        if site.Failure? {
          o := Fail(site.error);
          assert cur[i..][0] == cur[i];
          assert cur[..i] + cur[i..] == cur;
          return;
        }
        var next := cur[i := Site(site.value)];
        assert cur[i..][0] == cur[i] && cur[i..][1..] == next[i + 1..];
        assert next[..i + 1] == cur[..i] + [Site(site.value)];
        ghost var tail := ResolveEntries(next[i + 1..], defaultSeg);
        assert ResolveEntries(cur[i..], defaultSeg) == Resolution([Site(site.value)] + tail.value, tail.outcome);
        assert cur[..i] + ([Site(site.value)] + tail.value) == next[..i + 1] + tail.value;
        setups := setups[j := setups[j].(recordVariables := next)];
        i := i + 1;
      }
      assert setups[j].recordVariables[..i] == setups[j].recordVariables;
      assert setups[j].recordVariables[i..] == [];
      assert ResolveEntries(setups[j].recordVariables[i..], defaultSeg) == Resolution([], Pass);
      assert setups[j].recordVariables[..i] + [] == setups[j].recordVariables;
      o := Pass;
    }

    /** `run`: prepare the cell again unless there is exactly one setup, in which
        case only the controller is reset; then apply the candidate, run and
        collect the recordings. */
    method Run<Rec>(candidate: Candidate, setup: Setup, simulate: Simulator<Rec>) returns (r: Result<Rec, Error>)
      modifies this
      ensures tuned == old(tuned) && genomeKeys == old(genomeKeys) && logScales == old(logScales)
      ensures setups == old(setups)
      ensures |setups| != 1 ==>
        prepareCount == old(prepareCount) + 1 && resetCount == old(resetCount) &&
        hasCell && recorders == setup.recordVariables
      ensures |setups| == 1 ==>
        prepareCount == old(prepareCount) && resetCount == old(resetCount) + 1 &&
        hasCell == old(hasCell) && recorders == old(recorders)
      ensures var start := if |setups| != 1 then map[] else old(attributes);
        var applied := if tuned then ApplyCandidate(start, genomeKeys, logScales, candidate, hasCell, debug)
                       else Resolution(start, Fail(AttributeError));
        attributes == applied.value &&
        r == (if applied.outcome.Fail? then Failure(applied.outcome.error)
              else if !hasCell then Failure(AttributeError)
              else simulate(attributes, recorders, setup))
    {
      if |setups| != 1 {
        Prepare(setup);
      } else {
        resetCount := resetCount + 1;
      }
      var o := SetCandidateParams(candidate);
      if o.Fail? {
        return Failure(o.error);
      }
      if !hasCell {
        return Failure(AttributeError);
      }
      r := simulate(attributes, recorders, setup);
    }

    /** `_prepare`: a fresh cell with one recorder per request, in order. */
    method Prepare(setup: Setup)
      modifies this`hasCell, this`attributes, this`recorders, this`prepareCount
      ensures hasCell && attributes == map[] && recorders == setup.recordVariables
      ensures prepareCount == old(prepareCount) + 1
    {
      hasCell, attributes, recorders := true, map[], [];
      prepareCount := prepareCount + 1;
      for i := 0 to |setup.recordVariables|
        invariant recorders == setup.recordVariables[..i]
        invariant hasCell && attributes == map[] && prepareCount == old(prepareCount) + 1
      {
        recorders := recorders + [setup.recordVariables[i]];
      }
    }

    /** `_set_candidate_params`. Before `set_tune_parameters` the first use of
        `self.genome_keys` raises `AttributeError`, in both modes. */
    method SetCandidateParams(candidate: Candidate) returns (o: Outcome<Error>)
      modifies this`attributes
      ensures !tuned ==> attributes == old(attributes) && o == Fail(AttributeError)
      ensures tuned ==>
        ApplyCandidate(old(attributes), genomeKeys, logScales, candidate, hasCell, debug) == Resolution(attributes, o)
      ensures Valid() && Distinct(genomeKeys) && (!debug ==> |candidate| >= |genomeKeys|) && o.Pass? ==>
        SetsEveryKey(attributes, genomeKeys, logScales, candidate)
    {
      if !tuned {
        return Fail(AttributeError);
      }
      var keys, logs, cell := genomeKeys, logScales, hasCell;
      if debug && |candidate| != |keys| {
        return Fail(AssertionError(LengthMessage));
      }
      var n := ZipLength(keys, candidate, logs);
      ghost var m := attributes;
      for i := 0 to n
        invariant forall j :: 0 <= j < i ==> StepOk(cell, logs[j], candidate[j])
        invariant attributes == SetPrefix(m, keys, logs, candidate, i)
      {
        var v := Effective(logs[i], candidate[i]);
        if v.Failure? {
          ApplyCandidateStopsAt(m, keys, logs, candidate, cell, debug, i);
          return Fail(v.error);
        }
        if !cell {
          ApplyCandidateStopsAt(m, keys, logs, candidate, cell, debug, i);
          return Fail(AttributeError);
        }
        attributes := attributes[keys[i] := v.value];
      }
      ApplyCandidateCompletes(m, keys, logs, candidate, cell, debug);
      o := Pass;
      if |keys| == |logs| && Distinct(keys) && (!debug ==> |candidate| >= |keys|) {
        ApplyCandidateSetsAll(m, keys, logs, candidate, cell, debug);
      }
    }
  }
}
