/** `SceneChecker.run_checks`: walks the selected check records in order, reports progress before
    each one (a callback answering false cancels the run), looks the record's "function" up in the
    module globals, and keeps the results whose "count" is positive. */
module Runner {
  import opened Wrappers
  import opened Records

  /** The progress callback `(current, total, message) -> bool`, or None when none is given. */
  type Progress = Option<(nat, nat, string) -> bool>

  /** The message shown before a check runs. */
  function ProgressMessage(c: CheckRecord): string {
    "チェック中: " + c.name
  }

  /** Whether the run goes on to check `i` (0-based) of `total`: always without a callback, else
      when the callback answers true to `(i + 1, total, message)`. */
  predicate Proceeds(progress: Progress, i: nat, total: nat, c: CheckRecord) {
    progress.None? || progress.value(i + 1, total, ProgressMessage(c))
  }

  /** What calling the record's function gives; a name that is not registered gives nothing. */
  function Contribution(registry: Registry, c: CheckRecord): Outcome {
    if c.functionName in registry then registry[c.functionName](c) else Absent
  }

  /** The entries of a returned list among the first `n` that are present and have findings,
      in list order. */
  function KeptEntries(entries: seq<Option<Report>>, n: nat): (r: seq<Report>)
    requires n <= |entries|
    ensures |r| <= n
    ensures forall k :: 0 <= k < |r| ==> HasFindings(r[k])
  {
    if n == 0 then []
    else
      var e := entries[n - 1];
      KeptEntries(entries, n - 1) + (if e.Some? && HasFindings(e.value) then [e.value] else [])
  }

  /** A list whose entries are all results with findings is kept whole, in order. */
  lemma {:induction false} AllKept(entries: seq<Option<Report>>, n: nat)
    requires n <= |entries|
    requires forall k :: 0 <= k < n ==> entries[k].Some? && HasFindings(entries[k].value)
    ensures |KeptEntries(entries, n)| == n
    ensures forall k :: 0 <= k < n ==> KeptEntries(entries, n)[k] == entries[k].value
  {
    if n > 0 {
      AllKept(entries, n - 1);
    }
  }

  /** An entry is kept exactly when it is present among the first `n` and has findings. */
  lemma {:induction false} KeptEntriesMember(entries: seq<Option<Report>>, n: nat, r: Report)
    requires n <= |entries|
    ensures r in KeptEntries(entries, n) <==> HasFindings(r) && exists k :: 0 <= k < n && entries[k] == Some(r)
  {
    if n > 0 {
      KeptEntriesMember(entries, n - 1, r);
    }
  }

  /** The results one check adds to the run. */
  function Reported(o: Outcome): (r: seq<Report>)
    ensures forall k :: 0 <= k < |r| ==> HasFindings(r[k])
    ensures o.Absent? || o.Raised? ==> r == []
  {
    match o
    case Absent => []
    case One(report) => if HasFindings(report) then [report] else []
    case Many(entries) => KeptEntries(entries, |entries|)
    case Raised(_) => []
  }

  /** Whether a check that gave `o` returned `r`, alone or as an entry of its list. */
  predicate Returns(o: Outcome, r: Report) {
    o == One(r) || (o.Many? && Some(r) in o.entries)
  }

  /** A check adds a result exactly when the result has findings and is the one returned or an
      entry of the list returned. */
  lemma ReportedMember(o: Outcome, r: Report)
    ensures r in Reported(o) <==> HasFindings(r) && Returns(o, r)
  {
    if o.Many? {
      KeptEntriesMember(o.entries, |o.entries|, r);
    }
  }

  /** The results of the first `n` checks, in check order. */
  function Collect(registry: Registry, checks: seq<CheckRecord>, n: nat): (r: seq<Report>)
    requires n <= |checks|
    ensures forall k :: 0 <= k < |r| ==> HasFindings(r[k])
  {
    if n == 0 then []
    else Collect(registry, checks, n - 1) + Reported(Contribution(registry, checks[n - 1]))
  }

  /** A result is collected from the first `n` checks exactly when one of them added it. */
  lemma {:induction false} CollectMember(registry: Registry, checks: seq<CheckRecord>, n: nat, r: Report)
    requires n <= |checks|
    ensures r in Collect(registry, checks, n) <==> exists k :: 0 <= k < n && r in Reported(Contribution(registry, checks[k]))
  {
    if n > 0 {
      CollectMember(registry, checks, n - 1, r);
    }
  }

  /** So a result is collected exactly when it has findings and some check among the first `n`
      returned it, alone or in its list. */
  lemma CollectExactly(registry: Registry, checks: seq<CheckRecord>, n: nat, r: Report)
    requires n <= |checks|
    ensures r in Collect(registry, checks, n)
            <==> HasFindings(r) && exists k :: 0 <= k < n && Returns(Contribution(registry, checks[k]), r)
  {
    CollectMember(registry, checks, n, r);
    forall k | 0 <= k < n
      ensures r in Reported(Contribution(registry, checks[k]))
              <==> HasFindings(r) && Returns(Contribution(registry, checks[k]), r)
    {
      ReportedMember(Contribution(registry, checks[k]), r);
    }
  }

  /** The index of the first check the callback refuses, or `|checks|`. */
  function FirstRefusal(progress: Progress, checks: seq<CheckRecord>, from: nat): (k: nat)
    requires from <= |checks|
    ensures from <= k <= |checks|
    ensures forall j :: from <= j < k ==> Proceeds(progress, j, |checks|, checks[j])
    ensures k < |checks| ==> !Proceeds(progress, k, |checks|, checks[k])
    decreases |checks| - from
  {
    if from == |checks| then from
    else if !Proceeds(progress, from, |checks|, checks[from]) then from
    else FirstRefusal(progress, checks, from + 1)
  }

  /** The index of the first check before `limit` whose function raises, or `limit`. */
  function FirstRaise(registry: Registry, checks: seq<CheckRecord>, from: nat, limit: nat): (k: nat)
    requires from <= limit <= |checks|
    ensures from <= k <= limit
    ensures forall j :: from <= j < k ==> !Contribution(registry, checks[j]).Raised?
    ensures k < limit ==> Contribution(registry, checks[k]).Raised?
    decreases limit - from
  {
    if from == limit then from
    else if Contribution(registry, checks[from]).Raised? then from
    else FirstRaise(registry, checks, from + 1, limit)
  }

  /** The checker's state after `run_checks`, and the key of the `KeyError` that ended it, if any. */
  datatype RunState = RunState(results: seq<Report>, cancelled: bool, raised: Option<string>)

  /** What a run does: it stops before the first refused check; an exception from a check function
      before that point ends it with the results gathered so far. */
  function Run(registry: Registry, checks: seq<CheckRecord>, progress: Progress): RunState {
    var stop := FirstRefusal(progress, checks, 0);
    var fault := FirstRaise(registry, checks, 0, stop);
    if fault < stop then
      RunState(Collect(registry, checks, fault), false, Some(Contribution(registry, checks[fault]).missingKey))
    else
      RunState(Collect(registry, checks, stop), stop < |checks|, None)
  }

  /** The run from check `i` on, with `done` the results gathered before it; the loop of
      `run_checks` step by step. RunFromIsRun relates it to Run. */
  function RunFrom(registry: Registry, checks: seq<CheckRecord>, progress: Progress, i: nat, done: seq<Report>)
    : (s: RunState)
    requires i <= |checks|
    ensures |done| <= |s.results| && s.results[..|done|] == done
    decreases |checks| - i
  {
    if i == |checks| then RunState(done, false, None)
    else if !Proceeds(progress, i, |checks|, checks[i]) then RunState(done, true, None)
    else
      var returned := Contribution(registry, checks[i]);
      if returned.Raised? then RunState(done, false, Some(returned.missingKey))
      else RunFrom(registry, checks, progress, i + 1, done + Reported(returned))
  }

  /** A check the callback lets through moves the refusal point past it. */
  lemma ProceedStep(progress: Progress, checks: seq<CheckRecord>, i: nat)
    requires i < |checks| && i <= FirstRefusal(progress, checks, 0)
    requires Proceeds(progress, i, |checks|, checks[i])
    ensures i + 1 <= FirstRefusal(progress, checks, 0)
  {
  }

  /** A check that does not raise moves the first exception past it. */
  lemma NoRaiseStep(registry: Registry, checks: seq<CheckRecord>, i: nat)
    requires i < |checks| && FirstRaise(registry, checks, 0, i) == i
    requires !Contribution(registry, checks[i]).Raised?
    ensures FirstRaise(registry, checks, 0, i + 1) == i + 1
  {
  }

  /** The run ends cancelled at the first refused check. */
  lemma RunRefused(registry: Registry, checks: seq<CheckRecord>, progress: Progress, i: nat)
    requires i < |checks| && i <= FirstRefusal(progress, checks, 0)
    requires FirstRaise(registry, checks, 0, i) == i
    requires !Proceeds(progress, i, |checks|, checks[i])
    ensures Run(registry, checks, progress) == RunState(Collect(registry, checks, i), true, None)
  {
  }

  /** The run ends with the exception of the first raising check the callback lets through. */
  lemma RunRaised(registry: Registry, checks: seq<CheckRecord>, progress: Progress, i: nat)
    requires i < |checks| && i <= FirstRefusal(progress, checks, 0)
    requires FirstRaise(registry, checks, 0, i) == i
    requires Proceeds(progress, i, |checks|, checks[i])
    requires Contribution(registry, checks[i]).Raised?
    ensures Run(registry, checks, progress)
            == RunState(Collect(registry, checks, i), false, Some(Contribution(registry, checks[i]).missingKey))
  {
    ProceedStep(progress, checks, i);
    var stop := FirstRefusal(progress, checks, 0);
    var fault := FirstRaise(registry, checks, 0, stop);
    assert fault <= i;
    assert fault == i;
  }

  /** A run that gets through every check is not cancelled. */
  lemma RunFinished(registry: Registry, checks: seq<CheckRecord>, progress: Progress)
    requires |checks| <= FirstRefusal(progress, checks, 0)
    requires FirstRaise(registry, checks, 0, |checks|) == |checks|
    ensures Run(registry, checks, progress) == RunState(Collect(registry, checks, |checks|), false, None)
  {
  }

  /** The step-by-step run and the declarative one agree from any point reached without a refusal
      or an exception. */
  lemma {:induction false} RunFromMatchesRun(registry: Registry, checks: seq<CheckRecord>, progress: Progress, i: nat)
    requires i <= |checks| && i <= FirstRefusal(progress, checks, 0)
    requires FirstRaise(registry, checks, 0, i) == i
    ensures RunFrom(registry, checks, progress, i, Collect(registry, checks, i)) == Run(registry, checks, progress)
    decreases |checks| - i
  {
    if i == |checks| {
      RunFinished(registry, checks, progress);
    } else if !Proceeds(progress, i, |checks|, checks[i]) {
      RunRefused(registry, checks, progress, i);
    } else if Contribution(registry, checks[i]).Raised? {
      RunRaised(registry, checks, progress, i);
    } else {
      ProceedStep(progress, checks, i);
      NoRaiseStep(registry, checks, i);
      RunFromMatchesRun(registry, checks, progress, i + 1);
    }
  }

  /** `run_checks` from a fresh start is the declarative run. */
  lemma RunFromIsRun(registry: Registry, checks: seq<CheckRecord>, progress: Progress)
    ensures RunFrom(registry, checks, progress, 0, []) == Run(registry, checks, progress)
  {
    RunFromMatchesRun(registry, checks, progress, 0);
  }

  /** The results of fewer checks are a prefix of the results of more: a check's results come
      after those of every earlier check. */
  lemma {:induction false} CollectPrefix(registry: Registry, checks: seq<CheckRecord>, n: nat, m: nat)
    requires n <= m <= |checks|
    ensures |Collect(registry, checks, n)| <= |Collect(registry, checks, m)|
    ensures Collect(registry, checks, m)[..|Collect(registry, checks, n)|] == Collect(registry, checks, n)
    decreases m - n
  {
    if n < m {
      CollectPrefix(registry, checks, n, m - 1);
      var shorter := Collect(registry, checks, m - 1);
      assert (shorter + Reported(Contribution(registry, checks[m - 1])))[..|shorter|] == shorter;
    }
  }

  /** Without a callback nothing is refused. */
  lemma NoProgressRunsAll(checks: seq<CheckRecord>)
    ensures FirstRefusal(None, checks, 0) == |checks|
  {
  }

  /** A run without a callback is never cancelled. */
  lemma NoProgressNeverCancels(registry: Registry, checks: seq<CheckRecord>)
    ensures !Run(registry, checks, None).cancelled
  {
    NoProgressRunsAll(checks);
  }

  /** The first exception before a later limit is no earlier than the first before an earlier one. */
  lemma FirstRaiseMonotone(registry: Registry, checks: seq<CheckRecord>, limit: nat, limit': nat)
    requires limit <= limit' <= |checks|
    ensures FirstRaise(registry, checks, 0, limit) <= FirstRaise(registry, checks, 0, limit')
  {
  }

  /** A run keeps the results of the checks before its first exception or refusal. */
  lemma RunResults(registry: Registry, checks: seq<CheckRecord>, progress: Progress)
    ensures Run(registry, checks, progress).results
            == Collect(registry, checks, FirstRaise(registry, checks, 0, FirstRefusal(progress, checks, 0)))
  {
  }

  /** Whatever the callback answers, the results are a prefix of those of the same run without
      a callback: cancelling only drops results at the end. */
  lemma CancelKeepsPrefix(registry: Registry, checks: seq<CheckRecord>, progress: Progress)
    ensures |Run(registry, checks, progress).results| <= |Run(registry, checks, None).results|
    ensures Run(registry, checks, None).results[..|Run(registry, checks, progress).results|]
            == Run(registry, checks, progress).results
  {
    NoProgressRunsAll(checks);
    RunResults(registry, checks, progress);
    RunResults(registry, checks, None);
    var stop := FirstRefusal(progress, checks, 0);
    FirstRaiseMonotone(registry, checks, stop, |checks|);
    CollectPrefix(registry, checks, FirstRaise(registry, checks, 0, stop), FirstRaise(registry, checks, 0, |checks|));
  }

  /** A refusal before check `k`, with every earlier check let through and none raising, cancels
      the run with exactly the results of checks `0 .. k - 1`. */
  lemma RefusalAt(registry: Registry, checks: seq<CheckRecord>, progress: Progress, k: nat)
    requires k < |checks|
    requires forall j :: 0 <= j < k ==> Proceeds(progress, j, |checks|, checks[j])
    requires forall j :: 0 <= j < k ==> !Contribution(registry, checks[j]).Raised?
    requires !Proceeds(progress, k, |checks|, checks[k])
    ensures Run(registry, checks, progress) == RunState(Collect(registry, checks, k), true, None)
  {
    assert FirstRefusal(progress, checks, 0) == k;
    RunRefused(registry, checks, progress, k);
  }

  /** The results of the first `k` checks depend on nothing after them. */
  lemma {:induction false} CollectIgnoresLater(registry: Registry, a: seq<CheckRecord>, b: seq<CheckRecord>, k: nat)
    requires k <= |a| && k <= |b| && a[..k] == b[..k]
    ensures Collect(registry, a, k) == Collect(registry, b, k)
    decreases k
  {
    if k > 0 {
      assert a[k - 1] == a[..k][k - 1] == b[..k][k - 1] == b[k - 1];
      assert a[..k - 1] == a[..k][..k - 1];
      assert b[..k - 1] == b[..k][..k - 1];
      CollectIgnoresLater(registry, a, b, k - 1);
    }
  }

  /** A record whose function name is not registered adds nothing and raises nothing; the run
      goes on with the next record. */
  lemma UnregisteredAddsNothing(registry: Registry, checks: seq<CheckRecord>, j: nat)
    requires j < |checks| && checks[j].functionName !in registry
    ensures Collect(registry, checks, j + 1) == Collect(registry, checks, j)
    ensures !Contribution(registry, checks[j]).Raised?
  {
  }

  class SceneChecker {
    var results: seq<Report>
    var cancelled: bool

    constructor()
      ensures results == [] && !cancelled
    {
      results := [];
      cancelled := false;
    }

    /** `cancel()`: only raises the flag. */
    method Cancel()
      modifies this
      ensures cancelled && results == old(results)
    {
      cancelled := true;
    }

    /** `run_checks(selected_checks, progress_callback)`. The new state depends only on the
        arguments, not on the state before the call. A `KeyError` escaping a check function is
        returned as `Failure(key)`; otherwise the result list is returned. */
    method RunChecks(checks: seq<CheckRecord>, registry: Registry, progress: Progress)
      returns (outcome: Result<seq<Report>, string>)
      modifies this
      ensures RunState(results, cancelled, if outcome.Failure? then Some(outcome.error) else None)
              == RunFrom(registry, checks, progress, 0, [])
      ensures outcome.Success? ==> outcome.value == results
    {
      results := [];
      cancelled := false;
      var total := |checks|;
      var i := 0;
      while i < |checks|
        invariant 0 <= i <= |checks|
        invariant !cancelled
        invariant RunFrom(registry, checks, progress, i, results) == RunFrom(registry, checks, progress, 0, [])
      {
        if cancelled {
          break;
        }
        var check := checks[i];
        if progress.Some? {
          var message := ProgressMessage(check);
          var goOn := progress.value(i + 1, total, message);
          if !goOn {
            cancelled := true;
            break;
          }
        }
        var returned := Absent;
        if check.functionName in registry {
          returned := registry[check.functionName](check);
        }
        if returned.Raised? {
          outcome := Failure(returned.missingKey);
          return;
        }
        Append(returned);
        i := i + 1;
      }
      outcome := Success(results);
    }

    /** Adds what one check returned: a result with findings, or the list entries with findings
        in list order. */
    method Append(returned: Outcome)
      modifies this
      ensures results == old(results) + Reported(returned)
      ensures cancelled == old(cancelled)
    {
      match returned {
        case One(report) =>
          if HasFindings(report) {
            results := results + [report];
          }
        case Many(entries) =>
          var j := 0;
          while j < |entries|
            invariant 0 <= j <= |entries|
            invariant results == old(results) + KeptEntries(entries, j)
            invariant cancelled == old(cancelled)
          {
            var entry := entries[j];
            if entry.Some? && HasFindings(entry.value) {
              results := results + [entry.value];
            }
            j := j + 1;
          }
        case Absent =>
        case Raised(_) =>
      }
    }
  }
}
