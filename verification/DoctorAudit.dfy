/** The audit: every check is run, skipped, or turned into an error result, and the results are summed up. */
module DoctorAudit {
  import opened JsText
  import opened Selections
  import opened WorkerPool
  import opened Wrappers

  datatype Severity = Critical | High | Medium | Low

  datatype Status = Passed | Findings | Skipped | Error

  datatype CheckResult = CheckResult(checkName: Text, status: Status, findings: seq<Severity>)

  /** A check, with what its run will deliver: a result, or an exception. */
  datatype Check = Check(name: Text, requiresNexus: bool, run: Outcome<CheckResult>)

  datatype Summary = Summary(
    total: nat, critical: nat, high: nat, medium: nat, low: nat,
    checksRun: nat, checksSkipped: nat, checksFailed: nat)

  datatype Report = Report(checkResults: seq<CheckResult>, summary: Summary, exitCode: int)

  const DEFAULT_CONCURRENCY: int := 4

  function SkippedResult(name: Text): CheckResult {
    CheckResult(name, Skipped, [])
  }

  function ErrorResult(name: Text): CheckResult {
    CheckResult(name, Error, [])
  }

  function ExecuteCheck(check: Check, nexus: bool): CheckResult {
    if check.requiresNexus && !nexus then SkippedResult(check.name)
    else match check.run
      case Fulfilled(result) => result
      case Rejected => ErrorResult(check.name)
  }

  // ---- The summary ----

  function AllFindings(results: seq<CheckResult>): seq<Severity> {
    if results == [] then [] else AllFindings(results[..|results| - 1]) + results[|results| - 1].findings
  }

  function WithStatus(results: seq<CheckResult>, status: Status): nat {
    if results == [] then 0
    else WithStatus(results[..|results| - 1], status) + if results[|results| - 1].status == status then 1 else 0
  }

  ghost predicate Counts(findings: seq<Severity>, critical: nat, high: nat, medium: nat, low: nat) {
    && critical == multiset(findings)[Critical]
    && high == multiset(findings)[High]
    && medium == multiset(findings)[Medium]
    && low == multiset(findings)[Low]
    && critical + high + medium + low == |findings|
  }

  /** Every finding of every result is counted once, under its severity; every result once, as run or as skipped. */
  ghost predicate Summarizes(s: Summary, results: seq<CheckResult>) {
    && Counts(AllFindings(results), s.critical, s.high, s.medium, s.low)
    && s.total == |AllFindings(results)|
    && s.checksSkipped == WithStatus(results, Skipped)
    && s.checksFailed == WithStatus(results, Error)
    && s.checksRun + s.checksSkipped == |results|
  }

  method ComputeSummary(results: seq<CheckResult>) returns (s: Summary)
    ensures Summarizes(s, results)
  {
    s := Summary(0, 0, 0, 0, 0, 0, 0, 0);
    for i := 0 to |results|
      invariant s.total == 0 && Summarizes(s.(total := |AllFindings(results[..i])|), results[..i])
    {
      var result := results[i];
      assert results[..i + 1][..i] == results[..i];
      var (critical, high, medium, low) := (s.critical, s.high, s.medium, s.low);
      ghost var seen := AllFindings(results[..i]);
      assert AllFindings(results[..i + 1]) == seen + result.findings;
      critical, high, medium, low := CountFindings(seen, result.findings, critical, high, medium, low);
      s := s.(critical := critical, high := high, medium := medium, low := low);
      match result.status
      case Skipped => s := s.(checksSkipped := s.checksSkipped + 1);
      case Error => s := s.(checksFailed := s.checksFailed + 1, checksRun := s.checksRun + 1);
      case _ => s := s.(checksRun := s.checksRun + 1);
    }
    assert results[..|results|] == results;
    s := s.(total := s.critical + s.high + s.medium + s.low);
  }

  method CountFindings(ghost seen: seq<Severity>, findings: seq<Severity>, c: nat, h: nat, m: nat, l: nat)
    returns (critical: nat, high: nat, medium: nat, low: nat)
    requires Counts(seen, c, h, m, l)
    ensures Counts(seen + findings, critical, high, medium, low)
  {
    critical, high, medium, low := c, h, m, l;
    assert seen + findings[..0] == seen;
    for j := 0 to |findings|
      invariant Counts(seen + findings[..j], critical, high, medium, low)
    {
      assert seen + findings[..j + 1] == (seen + findings[..j]) + [findings[j]];
      match findings[j]
      case Critical => critical := critical + 1;
      case High => high := high + 1;
      case Medium => medium := medium + 1;
      case Low => low := low + 1;
    }
    assert findings[..|findings|] == findings;
  }

  function ExitCode(s: Summary): int {
    if s.critical > 0 then 2 else if s.high > 0 then 1 else 0
  }

  // ---- The audit ----

  function Active(checks: seq<Check>, disabled: set<Text>): seq<Check> {
    if checks == [] then []
    else (if checks[0].name in disabled then [] else [checks[0]]) + Active(checks[1..], disabled)
  }

  function Inactive(checks: seq<Check>, disabled: set<Text>): seq<Check> {
    if checks == [] then []
    else (if checks[0].name in disabled then [checks[0]] else []) + Inactive(checks[1..], disabled)
  }

  function Executed(checks: seq<Check>, nexus: bool): (r: seq<CheckResult>)
  {
    seq(|checks|, i requires 0 <= i < |checks| => ExecuteCheck(checks[i], nexus))
  }

  function DisabledResults(checks: seq<Check>): (r: seq<CheckResult>)
  {
    seq(|checks|, i requires 0 <= i < |checks| => SkippedResult(checks[i].name))
  }

  /** What an audit reports: with a concurrency below one, no active check at all. */
  function CheckResults(checks: seq<Check>, disabled: set<Text>, nexus: bool, concurrency: int): seq<CheckResult> {
    (if concurrency < 1 then [] else Executed(Active(checks, disabled), nexus)) +
    DisabledResults(Inactive(checks, disabled))
  }

  /** No task of the pool rejects: an exception of a check becomes its result. */
  function Tasks(checks: seq<Check>, nexus: bool): (r: seq<Outcome<CheckResult>>)
  {
    seq(|checks|, i requires 0 <= i < |checks| => Fulfilled(ExecuteCheck(checks[i], nexus)))
  }

  /** The stored results as a list. */
  function InOrder(results: map<nat, CheckResult>): (r: seq<CheckResult>)
    requires results.Keys == Below(|results|)
  {
    seq(|results|, i requires 0 <= i < |results| => results[i])
  }

  method RunAudit(checks: seq<Check>, disabled: set<Text>, nexus: bool, limit: Option<int>) returns (report: Report)
    ensures var concurrency := if limit.None? then DEFAULT_CONCURRENCY else limit.value;
            report.checkResults == CheckResults(checks, disabled, nexus, concurrency)
    ensures Listed(report.checkResults, checks, disabled, nexus,
                   if limit.None? then DEFAULT_CONCURRENCY else limit.value)
    ensures Summarizes(report.summary, report.checkResults)
    ensures report.exitCode == ExitCode(report.summary)
  {
    var concurrency := if limit.None? then DEFAULT_CONCURRENCY else limit.value;
    var active := Active(checks, disabled);
    var tasks := Tasks(active, nexus);
    var results, schedule := RunWithConcurrency(tasks, concurrency);
    assert RejectedBelow(tasks, |tasks|) == {};
    if concurrency >= 1 {
      StoredInOrder(active, nexus, results);
    }
    var activeResults := InOrder(results);
    var checkResults := activeResults + DisabledResults(Inactive(checks, disabled));
    var summary := ComputeSummary(checkResults);
    report := Report(checkResults, summary, ExitCode(summary));
    ResultsListed(checks, disabled, nexus, concurrency);
  }

  lemma {:induction false} StoredInOrder(active: seq<Check>, nexus: bool, results: map<nat, CheckResult>)
    requires Stored(Tasks(active, nexus), results)
    ensures results.Keys == Below(|results|) && InOrder(results) == Executed(active, nexus)
  {
    assert |results.Keys| == |results|;
  }

  /** Every check is either active or disabled, and none is lost or doubled. */
  lemma {:induction false} ChecksPartition(checks: seq<Check>, disabled: set<Text>)
    ensures multiset(Active(checks, disabled)) + multiset(Inactive(checks, disabled)) == multiset(checks)
    ensures |Active(checks, disabled)| + |Inactive(checks, disabled)| == |checks|
  {
    if checks != [] {
      ChecksPartition(checks[1..], disabled);
      assert multiset(checks) == multiset([checks[0]]) + multiset(checks[1..]) by {
        assert checks == [checks[0]] + checks[1..];
      }
    }
  }

  lemma {:induction false} ActiveExactly(checks: seq<Check>, disabled: set<Text>, c: Check)
    ensures c in Active(checks, disabled) <==> c in checks && c.name !in disabled
  {
    if checks != [] {
      ActiveExactly(checks[1..], disabled, c);
    }
  }

  // ---- The report, said check by check ----

  /** What an enabled check reports: skipped without the service it needs, its own result, or an error. */
  predicate ResultOf(r: CheckResult, check: Check, nexus: bool) {
    if check.requiresNexus && !nexus then r.checkName == check.name && r.status == Skipped && r.findings == []
    else match check.run
      case Fulfilled(result) => r == result
      case Rejected => r.checkName == check.name && r.status == Error && r.findings == []
  }

  predicate DisabledResultOf(r: CheckResult, check: Check) {
    r.checkName == check.name && r.status == Skipped && r.findings == []
  }

  /** Whether a check is disabled, or is not. */
  function Being(disabled: set<Text>, off: bool): Check -> bool {
    (check: Check) => check.name in disabled <==> off
  }

  ghost predicate PickedAt(picked: seq<Check>, checks: seq<Check>, at: seq<nat>) {
    |picked| == |at| && forall k | 0 <= k < |at| :: at[k] < |checks| && picked[k] == checks[at[k]]
  }

  lemma {:induction false} PickedCons(picked: seq<Check>, checks: seq<Check>, at: seq<nat>, p: Check -> bool)
    requires checks != [] && PickedAt(picked, checks[1..], at)
    ensures PickedAt((if p(checks[0]) then [checks[0]] else []) + picked, checks, Behind(checks[0], at, p))
  {
    assert forall k | 0 <= k < |at| :: checks[1..][at[k]] == checks[OneLater(at)[k]];
  }

  lemma {:induction false} ActivePicked(checks: seq<Check>, disabled: set<Text>) returns (at: seq<nat>)
    ensures Selects(checks, at, Being(disabled, false)) && PickedAt(Active(checks, disabled), checks, at)
  {
    at := [];
    if checks != [] {
      var rest := ActivePicked(checks[1..], disabled);
      SelectsCons(checks, rest, Being(disabled, false));
      PickedCons(Active(checks[1..], disabled), checks, rest, Being(disabled, false));
      at := Behind(checks[0], rest, Being(disabled, false));
    }
  }

  lemma {:induction false} InactivePicked(checks: seq<Check>, disabled: set<Text>) returns (at: seq<nat>)
    ensures Selects(checks, at, Being(disabled, true)) && PickedAt(Inactive(checks, disabled), checks, at)
  {
    at := [];
    if checks != [] {
      var rest := InactivePicked(checks[1..], disabled);
      SelectsCons(checks, rest, Being(disabled, true));
      PickedCons(Inactive(checks[1..], disabled), checks, rest, Being(disabled, true));
      at := Behind(checks[0], rest, Being(disabled, true));
    }
  }

  /** First the results of the enabled checks in order, if any worker started, then one for each disabled check. */
  ghost predicate ListedAt(results: seq<CheckResult>, checks: seq<Check>, nexus: bool, enabled: seq<nat>,
      off: seq<nat>) {
    && |results| == |enabled| + |off|
    && (forall k | 0 <= k < |enabled| :: enabled[k] < |checks| && ResultOf(results[k], checks[enabled[k]], nexus))
    && (forall k | 0 <= k < |off| ::
          off[k] < |checks| && DisabledResultOf(results[|enabled| + k], checks[off[k]]))
  }

  ghost predicate Listed(results: seq<CheckResult>, checks: seq<Check>, disabled: set<Text>, nexus: bool,
      concurrency: int) {
    exists enabled, off ::
      && (if concurrency >= 1 then Selects(checks, enabled, Being(disabled, false)) else enabled == [])
      && Selects(checks, off, Being(disabled, true))
      && ListedAt(results, checks, nexus, enabled, off)
  }

  lemma {:induction false} ExecutedResult(check: Check, nexus: bool)
    ensures ResultOf(ExecuteCheck(check, nexus), check, nexus) && DisabledResultOf(SkippedResult(check.name), check)
  {
  }

  lemma {:induction false} ListedTogether(checks: seq<Check>, nexus: bool, active: seq<Check>, inactive: seq<Check>,
      enabled: seq<nat>, off: seq<nat>)
    requires PickedAt(active, checks, enabled) && PickedAt(inactive, checks, off)
    ensures ListedAt(Executed(active, nexus) + DisabledResults(inactive), checks, nexus, enabled, off)
  {
    forall k | 0 <= k < |enabled| ensures ResultOf(Executed(active, nexus)[k], checks[enabled[k]], nexus) {
      ExecutedResult(active[k], nexus);
    }
    forall k | 0 <= k < |off| ensures DisabledResultOf(DisabledResults(inactive)[k], checks[off[k]]) {
      ExecutedResult(inactive[k], nexus);
    }
  }

  lemma {:induction false} ResultsListed(checks: seq<Check>, disabled: set<Text>, nexus: bool, concurrency: int)
    ensures Listed(CheckResults(checks, disabled, nexus, concurrency), checks, disabled, nexus, concurrency)
  {
    var enabled := ActivePicked(checks, disabled);
    var off := InactivePicked(checks, disabled);
    if concurrency >= 1 {
      ListedTogether(checks, nexus, Active(checks, disabled), Inactive(checks, disabled), enabled, off);
    } else {
      ListedTogether(checks, nexus, [], Inactive(checks, disabled), [], off);
      assert Executed([], nexus) == [];
    }
  }

  /** The check is reported as skipped: disabled, without the service it needs, or by its own result. */
  predicate Skips(check: Check, disabled: set<Text>, nexus: bool) {
    || check.name in disabled
    || (check.requiresNexus && !nexus)
    || (check.run.Fulfilled? && check.run.value.status == Skipped)
  }

  /** The check is reported as failed: it was run and threw, or reports an error itself. */
  predicate Fails(check: Check, disabled: set<Text>, nexus: bool) {
    && check.name !in disabled
    && (check.requiresNexus ==> nexus)
    && (check.run.Rejected? || check.run.value.status == Error)
  }

  function SkipCount(checks: seq<Check>, disabled: set<Text>, nexus: bool): nat {
    if checks == [] then 0
    else (if Skips(checks[0], disabled, nexus) then 1 else 0) + SkipCount(checks[1..], disabled, nexus)
  }

  function FailCount(checks: seq<Check>, disabled: set<Text>, nexus: bool): nat {
    if checks == [] then 0
    else (if Fails(checks[0], disabled, nexus) then 1 else 0) + FailCount(checks[1..], disabled, nexus)
  }

  lemma {:induction false} WithStatusConcat(a: seq<CheckResult>, b: seq<CheckResult>, status: Status)
    ensures WithStatus(a + b, status) == WithStatus(a, status) + WithStatus(b, status)
  {
    if b == [] {
      assert a + b == a;
    } else {
      assert (a + b)[..|a + b| - 1] == a + b[..|b| - 1];
      WithStatusConcat(a, b[..|b| - 1], status);
    }
  }

  lemma {:induction false} WithStatusOne(r: CheckResult, status: Status)
    ensures WithStatus([r], status) == if r.status == status then 1 else 0
  {
    assert [r][..0] == [];
  }

  lemma {:induction false} OneMoreDisabled(check: Check, inactive: seq<Check>)
    ensures WithStatus(DisabledResults([check] + inactive), Skipped)
            == 1 + WithStatus(DisabledResults(inactive), Skipped)
    ensures WithStatus(DisabledResults([check] + inactive), Error) == WithStatus(DisabledResults(inactive), Error)
  {
    var own, rest := SkippedResult(check.name), DisabledResults(inactive);
    assert DisabledResults([check] + inactive) == [own] + rest;
    WithStatusConcat([own], rest, Skipped);
    WithStatusConcat([own], rest, Error);
    WithStatusOne(own, Skipped);
    WithStatusOne(own, Error);
  }

  lemma {:induction false} OneMoreExecuted(check: Check, active: seq<Check>, nexus: bool, status: Status)
    ensures WithStatus(Executed([check] + active, nexus), status) ==
            (if ExecuteCheck(check, nexus).status == status then 1 else 0) + WithStatus(Executed(active, nexus), status)
  {
    var own, rest := ExecuteCheck(check, nexus), Executed(active, nexus);
    assert Executed([check] + active, nexus) == [own] + rest;
    WithStatusConcat([own], rest, status);
    WithStatusOne(own, status);
  }

  lemma {:induction false} DisabledSkip(inactive: seq<Check>)
    ensures WithStatus(DisabledResults(inactive), Skipped) == |inactive|
    ensures WithStatus(DisabledResults(inactive), Error) == 0
  {
    if inactive != [] {
      DisabledSkip(inactive[1..]);
      OneMoreDisabled(inactive[0], inactive[1..]);
      assert inactive == [inactive[0]] + inactive[1..];
    }
  }

  lemma {:induction false} FailuresCounted(checks: seq<Check>, disabled: set<Text>, nexus: bool)
    ensures WithStatus(Executed(Active(checks, disabled), nexus), Error) == FailCount(checks, disabled, nexus)
  {
    if checks != [] {
      var active := Active(checks[1..], disabled);
      FailuresCounted(checks[1..], disabled, nexus);
      OneMoreExecuted(checks[0], active, nexus, Error);
      assert [] + active == active;
    }
  }

  /** One more check in front: disabled, or executed. */
  lemma {:induction false} OneMoreSkip(checks: seq<Check>, disabled: set<Text>, nexus: bool)
    requires checks != []
    ensures WithStatus(Executed(Active(checks, disabled), nexus), Skipped) + |Inactive(checks, disabled)| ==
            WithStatus(Executed(Active(checks[1..], disabled), nexus), Skipped) + |Inactive(checks[1..], disabled)|
            + if Skips(checks[0], disabled, nexus) then 1 else 0
  {
    var active := Active(checks[1..], disabled);
    if checks[0].name in disabled {
      assert Active(checks, disabled) == [] + active == active;
    } else {
      assert Active(checks, disabled) == [checks[0]] + active;
      OneMoreExecuted(checks[0], active, nexus, Skipped);
    }
  }

  lemma {:induction false} SkipsCounted(checks: seq<Check>, disabled: set<Text>, nexus: bool)
    ensures WithStatus(Executed(Active(checks, disabled), nexus), Skipped) + |Inactive(checks, disabled)|
            == SkipCount(checks, disabled, nexus)
  {
    if checks != [] {
      SkipsCounted(checks[1..], disabled, nexus);
      OneMoreSkip(checks, disabled, nexus);
    }
  }

  /** Skipped and failed checks are counted exactly, when some worker starts; else only the disabled ones are. */
  lemma {:induction false} SkippedAndFailedCounted(checks: seq<Check>, disabled: set<Text>, nexus: bool,
      concurrency: int, s: Summary)
    requires Summarizes(s, CheckResults(checks, disabled, nexus, concurrency))
    ensures concurrency >= 1 ==>
              && s.checksSkipped == SkipCount(checks, disabled, nexus)
              && s.checksFailed == FailCount(checks, disabled, nexus)
    ensures concurrency < 1 ==> s.checksSkipped == |Inactive(checks, disabled)| && s.checksFailed == 0
  {
    var off := DisabledResults(Inactive(checks, disabled));
    DisabledSkip(Inactive(checks, disabled));
    SkipsCounted(checks, disabled, nexus);
    FailuresCounted(checks, disabled, nexus);
    if concurrency >= 1 {
      WithStatusConcat(Executed(Active(checks, disabled), nexus), off, Skipped);
      WithStatusConcat(Executed(Active(checks, disabled), nexus), off, Error);
    } else {
      assert [] + off == off;
    }
  }

  /** The summary covers as many checks as there are exactly when the limit lets some worker start. */
  lemma {:induction false} EveryCheckReported(checks: seq<Check>, disabled: set<Text>, nexus: bool,
      concurrency: int, s: Summary)
    requires Summarizes(s, CheckResults(checks, disabled, nexus, concurrency))
    ensures s.checksRun + s.checksSkipped == |checks| <==> concurrency >= 1 || Active(checks, disabled) == []
  {
    ChecksPartition(checks, disabled);
  }

  lemma {:induction false} FindingsInResults(results: seq<CheckResult>, severity: Severity)
    ensures severity in AllFindings(results) <==> exists i :: 0 <= i < |results| && severity in results[i].findings
  {
    if results != [] {
      FindingsInResults(results[..|results| - 1], severity);
      assert forall i | 0 <= i < |results| - 1 :: results[..|results| - 1][i] == results[i];
    }
  }

  /** Whether a check could run and reports a finding of this severity. */
  predicate Finds(check: Check, disabled: set<Text>, nexus: bool, severity: Severity) {
    && check.name !in disabled
    && (check.requiresNexus ==> nexus)
    && check.run.Fulfilled?
    && severity in check.run.value.findings
  }

  lemma {:induction false} ResultsFind(active: seq<Check>, nexus: bool, severity: Severity)
    ensures severity in AllFindings(Executed(active, nexus)) <==>
            exists i :: 0 <= i < |active| && Reports(active[i], nexus, severity)
  {
    FindingsInResults(Executed(active, nexus), severity);
    assert forall i | 0 <= i < |active| ::
        Reports(active[i], nexus, severity) <==> severity in Executed(active, nexus)[i].findings;
  }

  predicate Reports(check: Check, nexus: bool, severity: Severity) {
    severity in ExecuteCheck(check, nexus).findings
  }

  lemma {:induction false} DisabledFindNothing(results: seq<CheckResult>, inactive: seq<Check>)
    ensures AllFindings(results + DisabledResults(inactive)) == AllFindings(results)
  {
    var all := results + DisabledResults(inactive);
    if inactive == [] {
      assert all == results;
    } else {
      var fewer := inactive[..|inactive| - 1];
      assert all[..|all| - 1] == results + DisabledResults(fewer);
      DisabledFindNothing(results, fewer);
    }
  }

  /** Some check that could run reports a finding of this severity. */
  ghost predicate SomeFinds(checks: seq<Check>, disabled: set<Text>, nexus: bool, severity: Severity) {
    exists check :: check in checks && Finds(check, disabled, nexus, severity)
  }

  lemma {:induction false} ActiveFind(checks: seq<Check>, disabled: set<Text>, nexus: bool, severity: Severity)
    ensures severity in AllFindings(Executed(Active(checks, disabled), nexus)) <==>
            SomeFinds(checks, disabled, nexus, severity)
  {
    var active := Active(checks, disabled);
    ResultsFind(active, nexus, severity);
    if i :| 0 <= i < |active| && Reports(active[i], nexus, severity) {
      ActiveExactly(checks, disabled, active[i]);
      assert Finds(active[i], disabled, nexus, severity);
    }
    if check :| check in checks && Finds(check, disabled, nexus, severity) {
      ActiveExactly(checks, disabled, check);
      var i :| 0 <= i < |active| && active[i] == check;
      assert Reports(active[i], nexus, severity);
    }
  }

  /** The summary counts a severity exactly when some check that could run reports it, and some worker started. */
  lemma {:induction false} SeverityReported(checks: seq<Check>, disabled: set<Text>, nexus: bool, concurrency: int,
      severity: Severity)
    ensures severity in AllFindings(CheckResults(checks, disabled, nexus, concurrency)) <==>
            concurrency >= 1 && SomeFinds(checks, disabled, nexus, severity)
  {
    var results := if concurrency < 1 then [] else Executed(Active(checks, disabled), nexus);
    DisabledFindNothing(results, Inactive(checks, disabled));
    ActiveFind(checks, disabled, nexus, severity);
  }

  /** The exit code tells the worst severity found by any check that could run; with no worker it is always zero. */
  lemma {:induction false} ExitCodeIsWorstFinding(checks: seq<Check>, disabled: set<Text>, nexus: bool,
      concurrency: int, s: Summary)
    requires Summarizes(s, CheckResults(checks, disabled, nexus, concurrency))
    ensures ExitCode(s) == 2 <==> concurrency >= 1 && SomeFinds(checks, disabled, nexus, Critical)
    ensures ExitCode(s) == 0 <==>
            || concurrency < 1
            || !(SomeFinds(checks, disabled, nexus, Critical) || SomeFinds(checks, disabled, nexus, High))
  {
    SeverityReported(checks, disabled, nexus, concurrency, Critical);
    SeverityReported(checks, disabled, nexus, concurrency, High);
    var found := AllFindings(CheckResults(checks, disabled, nexus, concurrency));
    assert s.critical > 0 <==> Critical in found;
    assert s.high > 0 <==> High in found;
  }
}
