/**
 Synthetic tests of a job run (pkg/synthetictests/ocp_synthetic_tests.go). Operators are listed in
 order; a later entry of the same name replaces an earlier one. Maps are ranged over in any order.
 */
module SyntheticTests {

  const Success := "Success"
  const Failure := "Failure"
  const UnknownStatus := "Unknown"

  datatype OperatorState = OperatorState(name: string, state: string)

  /** The tests by what they stand for; the names the program gives them are pairwise different. */
  datatype TestName =
    | Install | InstallTimeout | Infrastructure | FinalOperatorHealth | OpenShiftTests | Upgrade
    | OperatorInstall(operator: string) | OperatorUpgrade(operator: string)

  datatype Counter = Counter(pass: nat, fail: nat)

  const Undecided := Counter(0, 0)
  const Passed := Counter(1, 0)
  const FailedOnce := Counter(0, 1)

  datatype Case = Case(name: TestName, failed: bool)

  datatype OverallResult =
    | JobUnset | JobSucceeded | JobAborted | JobRunning | JobInternalInfrastructureFailure
    | JobExternalInfrastructureFailure | JobInstallFailure | JobUpgradeFailure | JobTestFailure

  /** What is known about a run before the synthetic tests are made. */
  datatype Facts = Facts(
    failed: bool, errored: bool, succeeded: bool, aborted: bool, installStatus: string,
    operators: seq<OperatorState>, upgradeStarted: bool, upgradeForOperators: string,
    upgradeForMachineConfigPools: string, testsStatus: string)

  predicate AllOperatorsOk(operators: seq<OperatorState>) {
    forall i :: 0 <= i < |operators| ==> operators[i].state != Failure
  }

  predicate InstallFailed(f: Facts) {
    f.failed && f.installStatus != Success
  }

  predicate InstallSucceeded(f: Facts) {
    f.succeeded || f.installStatus == Success
  }

  predicate UpgradeChecked(f: Facts) {
    !InstallFailed(f) && f.upgradeStarted
  }

  predicate UpgradeSucceeded(f: Facts) {
    f.upgradeForOperators == Success && f.upgradeForMachineConfigPools == Success
  }

  predicate Listed(operators: seq<OperatorState>, name: string) {
    exists i :: 0 <= i < |operators| && operators[i].name == name
  }

  /** Whether the last entry of the operator reports success. */
  predicate Healthy(operators: seq<OperatorState>, name: string) {
    if operators == [] then false
    else
      var last := operators[|operators| - 1];
      if last.name == name then last.state == Success else Healthy(operators[..|operators| - 1], name)
  }

  datatype Verdict = Pass | Fail | NoVerdict

  function PassIf(b: bool): Verdict {
    if b then Pass else Fail
  }

  /** What each test should report. */
  function Expected(f: Facts, name: TestName): Verdict {
    match name
    case FinalOperatorHealth => if f.operators == [] then NoVerdict else PassIf(AllOperatorsOk(f.operators))
    case Install => if InstallSucceeded(f) then Pass else if f.operators == [] then NoVerdict else Fail
    case OperatorInstall(op) =>
      if !Listed(f.operators, op) then NoVerdict else PassIf(InstallSucceeded(f) || Healthy(f.operators, op))
    case InstallTimeout => PassIf(InstallSucceeded(f) || f.operators == [] || !AllOperatorsOk(f.operators))
    case Infrastructure => PassIf(!InstallFailed(f) || f.operators != [])
    case Upgrade => if UpgradeChecked(f) then PassIf(UpgradeSucceeded(f)) else NoVerdict
    case OperatorUpgrade(op) =>
      if !UpgradeChecked(f) || !Listed(f.operators, op) then NoVerdict
      else PassIf(UpgradeSucceeded(f) || Healthy(f.operators, op))
    case OpenShiftTests =>
      if f.failed && f.testsStatus == Failure then Fail else if f.testsStatus == Success then Pass else NoVerdict
  }

  function VerdictOf(t: Counter): Verdict {
    if t.fail > 0 then Fail else if t.pass > 0 then Pass else NoVerdict
  }

  type Results = map<TestName, Counter>

  /** One verdict at most for each test, and never a pass beside a failure. */
  ghost predicate Decides(results: Results, f: Facts, name: TestName) {
    if name in results then
      results[name] in {Undecided, Passed, FailedOnce} && VerdictOf(results[name]) == Expected(f, name)
    else Expected(f, name) == NoVerdict
  }

  predicate IsOperatorTest(n: TestName, upgrade: bool) {
    if upgrade then n.OperatorUpgrade? else n.OperatorInstall?
  }

  function OperatorTest(op: string, upgrade: bool): TestName {
    if upgrade then OperatorUpgrade(op) else OperatorInstall(op)
  }

  /** The entry a loop over the operators leaves behind for one test. */
  ghost predicate OperatorEntry(results: Results, start: Results, operators: seq<OperatorState>, upgrade: bool,
                                allPass: bool, n: TestName)
  {
    if IsOperatorTest(n, upgrade) && Listed(operators, n.operator)
    then n in results && results[n] == if allPass || Healthy(operators, n.operator) then Passed else FailedOnce
    else (n in results <==> n in start) && (n in results ==> results[n] == start[n])
  }

  lemma ListedStep(operators: seq<OperatorState>, last: OperatorState, op: string)
    ensures Listed(operators + [last], op) <==> Listed(operators, op) || last.name == op
    ensures Healthy(operators + [last], op) == if last.name == op then last.state == Success else Healthy(operators, op)
  {
    var all := operators + [last];
    assert all[..|operators|] == operators && all[|operators|] == last;
    if i :| 0 <= i < |operators| && operators[i].name == op { assert all[i].name == op; }
    if i :| 0 <= i < |all| && all[i].name == op && i < |operators| { assert operators[i].name == op; }
  }

  /** The loops over the final operator states. */
  method TallyOperators(start: Results, operators: seq<OperatorState>, upgrade: bool, allPass: bool)
    returns (results: Results)
    ensures forall n :: OperatorEntry(results, start, operators, upgrade, allPass, n)
  {
    results := start;
    for i := 0 to |operators|
      invariant forall n :: OperatorEntry(results, start, operators[..i], upgrade, allPass, n)
    {
      var op := operators[i];
      var tally := if allPass || op.state == Success then Passed else FailedOnce;
      ghost var before := results;
      results := results[OperatorTest(op.name, upgrade) := tally];
      var upTo := operators[..i + 1];
      assert upTo == operators[..i] + [op];
      forall n ensures OperatorEntry(results, start, upTo, upgrade, allPass, n) {
        assert OperatorEntry(before, start, operators[..i], upgrade, allPass, n);
        if IsOperatorTest(n, upgrade) {
          ListedStep(operators[..i], op, n.operator);
          assert n == OperatorTest(n.operator, upgrade);
        }
      }
    }
    assert operators[..|operators|] == operators;
  }

  method CheckOperators(operators: seq<OperatorState>) returns (ok: bool)
    ensures ok == AllOperatorsOk(operators)
  {
    for i := 0 to |operators|
      invariant AllOperatorsOk(operators[..i])
    {
      if operators[i].state == Failure {
        return false;
      }
    }
    assert operators[..|operators|] == operators;
    return true;
  }

  /** What the map holds once the install status is set. */
  ghost predicate InstallEntry(results: Results, f: Facts, n: TestName) {
    if n.OperatorInstall? || n.FinalOperatorHealth? || n.Install? then Decides(results, f, n)
    else if n.InstallTimeout? || n.Infrastructure? || n.OpenShiftTests? || (n.Upgrade? && f.upgradeStarted)
    then n in results && results[n] == Undecided
    else n !in results
  }

  /** The part of `CreateSyntheticTests` up to the install status. */
  method DecideInstall(f: Facts) returns (results: Results)
    ensures forall n :: InstallEntry(results, f, n)
  {
    results := map[Install := Undecided, InstallTimeout := Undecided, Infrastructure := Undecided,
                   FinalOperatorHealth := Undecided, OpenShiftTests := Undecided];
    if f.upgradeStarted {
      results := results[Upgrade := Undecided];
    }
    var hasFinalOperatorResults := |f.operators| > 0;
    var allOperatorsSuccessful := CheckOperators(f.operators);
    if hasFinalOperatorResults {
      results := results[FinalOperatorHealth := if allOperatorsSuccessful then Passed else FailedOnce];
    }
    var installSucceeded := f.succeeded || f.installStatus == Success;
    ghost var start := results;
    if installSucceeded {
      results := results[Install := Passed];
      start := results;
      results := TallyOperators(results, f.operators, false, true);
    } else if hasFinalOperatorResults {
      results := results[Install := FailedOnce];
      start := results;
      results := TallyOperators(results, f.operators, false, false);
    }
    forall n ensures InstallEntry(results, f, n) {
      assert OperatorEntry(results, start, f.operators, false, installSucceeded, n);
      hide Healthy, Listed;
    }
  }

  /** All decisions of `CreateSyntheticTests`. */
  method Decide(f: Facts) returns (results: Results)
    ensures forall n :: Decides(results, f, n)
  {
    hide Healthy, Listed, AllOperatorsOk;
    results := DecideInstall(f);
    ghost var installed := results;
    assert InstallEntry(installed, f, Upgrade) && InstallEntry(installed, f, OpenShiftTests);
    var hasFinalOperatorResults := |f.operators| > 0;
    var allOperatorsSuccessful := CheckOperators(f.operators);
    var installFailed := f.failed && f.installStatus != Success;
    var installSucceeded := f.succeeded || f.installStatus == Success;
    results := results[InstallTimeout :=
                         if installSucceeded || !hasFinalOperatorResults || !allOperatorsSuccessful then Passed
                         else FailedOnce];
    results := results[Infrastructure := if installFailed && !hasFinalOperatorResults then FailedOnce else Passed];
    ghost var start := results;
    if installFailed {
    } else if !f.upgradeStarted {
    } else if f.upgradeForOperators == Success && f.upgradeForMachineConfigPools == Success {
      results := results[Upgrade := Passed];
      start := results;
      results := TallyOperators(results, f.operators, true, true);
    } else {
      results := results[Upgrade := FailedOnce];
      start := results;
      results := TallyOperators(results, f.operators, true, false);
    }
    ghost var upgraded := results;
    forall n ensures UpgradeChecked(f) ==> OperatorEntry(upgraded, start, f.operators, true, UpgradeSucceeded(f), n) {}
    if f.failed && f.testsStatus == Failure {
      results := results[OpenShiftTests := FailedOnce];
    } else if f.testsStatus == Success {
      results := results[OpenShiftTests := Passed];
    }
    forall n ensures Decides(results, f, n) {
      assert InstallEntry(installed, f, n);
      if UpgradeChecked(f) {
        assert OperatorEntry(upgraded, start, f.operators, true, UpgradeSucceeded(f), n);
      }
    }
  }

  // ---------------------------------------------------------------------------------------
  // Reporting

  predicate UpgradeReportedFailure(f: Facts) {
    f.upgradeForOperators == Failure || f.upgradeForMachineConfigPools == Failure
  }

  /** `jobRunStatus`. */
  function JobRunStatus(f: Facts): OverallResult {
    if f.succeeded then JobSucceeded
    else if f.aborted then JobAborted
    else if f.errored then JobInternalInfrastructureFailure
    else if !f.failed then JobRunning
    else if f.installStatus == Failure then
      if f.operators == [] then JobExternalInfrastructureFailure else JobInstallFailure
    else if f.upgradeStarted && UpgradeReportedFailure(f) then JobUpgradeFailure
    else if f.testsStatus == Failure then JobTestFailure
    else JobInternalInfrastructureFailure
  }

  function Names(cases: seq<Case>, failed: bool): seq<TestName> {
    if cases == [] then []
    else
      var rest := Names(cases[..|cases| - 1], failed);
      if cases[|cases| - 1].failed == failed then rest + [cases[|cases| - 1].name] else rest
  }

  lemma NamesAppend(cases: seq<Case>, c: Case, failed: bool)
    ensures Names(cases + [c], failed) ==
            if c.failed == failed then Names(cases, failed) + [c.name] else Names(cases, failed)
  {
    assert (cases + [c])[..|cases|] == cases;
  }

  ghost predicate OneCaseEach(cases: seq<Case>) {
    forall i, j :: 0 <= i < j < |cases| ==> cases[i].name != cases[j].name
  }

  /** The case a test should have. */
  ghost predicate Reported(cases: seq<Case>, f: Facts, n: TestName) {
    && (Case(n, true) in cases <==> Expected(f, n) == Fail)
    && (Case(n, false) in cases <==> Expected(f, n) == Pass)
  }

  /** `RawJobRunResult`: the facts, and the fields that making the tests updates. */
  class JobRunResult {
    const facts: Facts
    var installStatus: string
    var testFailures: nat
    var failedTestNames: seq<TestName>
    var testResults: seq<TestName>
    var overallResult: OverallResult

    constructor (facts: Facts, testFailures: nat)
      ensures this.facts == facts && installStatus == facts.installStatus && this.testFailures == testFailures
      ensures failedTestNames == [] && testResults == []
    {
      this.facts, installStatus, this.testFailures := facts, facts.installStatus, testFailures;
      failedTestNames, testResults, overallResult := [], [], JobUnset;
    }

    /** The final loop: the counters of the run and one case for each decided test. */
    method Report(results: Results) returns (cases: seq<Case>)
      requires forall n :: Decides(results, facts, n)
      modifies `testFailures, `failedTestNames, `testResults
      ensures OneCaseEach(cases) && forall n :: Reported(cases, facts, n)
      ensures failedTestNames == old(failedTestNames) + Names(cases, true)
      ensures testResults == old(testResults) + Names(cases, false)
      ensures testFailures == old(testFailures) + |Names(cases, true)|
    {
      cases := [];
      NoCases(results, facts);
      hide Names, Expected, OneCaseEach, Reported, VerdictOf, Decides;
      var todo := results.Keys;
      while todo != {}
        invariant todo <= results.Keys && OneCaseEach(cases)
        invariant forall c :: c in cases ==> c.name in results && c.name !in todo
        invariant forall n :: n !in todo ==> Reported(cases, facts, n)
        invariant failedTestNames == old(failedTestNames) + Names(cases, true)
        invariant testResults == old(testResults) + Names(cases, false)
        invariant testFailures == old(testFailures) + |Names(cases, true)|
      {
        var name :| name in todo;
        todo := todo - {name};
        var result := results[name];
        ghost var before := cases;
        if result.fail > 0 {
          testFailures := testFailures + result.fail;
          failedTestNames := failedTestNames + [name];
        } else if result.pass > 0 {
          testResults := testResults + [name];
        }
        if result.pass > 0 {
          cases := cases + [Case(name, false)];
        } else if result.fail > 0 {
          cases := cases + [Case(name, true)];
        }
        CaseAdded(before, cases, facts, name, results);
      }
    }

    /** `CreateSyntheticTests`. */
    method CreateSyntheticTests() returns (cases: seq<Case>, numTests: nat, numFailed: nat)
      requires installStatus == facts.installStatus
      modifies this
      ensures OneCaseEach(cases) && forall n :: Reported(cases, facts, n)
      ensures failedTestNames == old(failedTestNames) + Names(cases, true)
      ensures testResults == old(testResults) + Names(cases, false)
      ensures testFailures == old(testFailures) + |Names(cases, true)|
      ensures numTests == |cases| && numFailed == testFailures
      ensures installStatus == if facts.installStatus == "" then "Unknown" else facts.installStatus
      ensures overallResult == JobRunStatus(facts.(installStatus := installStatus))
    {
      var results := Decide(facts);
      cases := Report(results);
      if installStatus == "" {
        installStatus := UnknownStatus;
      }
      overallResult := JobRunStatus(facts.(installStatus := installStatus));
      numTests, numFailed := |cases|, testFailures;
    }
  }

  lemma NoCases(results: Results, f: Facts)
    requires forall n :: Decides(results, f, n)
    ensures Names([], true) == [] == Names([], false) && OneCaseEach([])
    ensures forall n :: n !in results ==> Reported([], f, n)
  {
    forall n | n !in results ensures Reported([], f, n) { assert Decides(results, f, n); }
  }

  lemma CaseAdded(before: seq<Case>, after: seq<Case>, f: Facts, name: TestName, results: Results)
    requires Decides(results, f, name) && name in results
    requires var result := results[name];
             after == before + if result.pass > 0 then [Case(name, false)]
                               else if result.fail > 0 then [Case(name, true)]
                               else []
    requires OneCaseEach(before) && forall c :: c in before ==> c.name != name
    ensures OneCaseEach(after) && Reported(after, f, name)
    ensures forall n :: n != name && Reported(before, f, n) ==> Reported(after, f, n)
    ensures results[name] in {Undecided, Passed, FailedOnce}
    ensures Names(after, true) == Names(before, true) + if results[name].fail > 0 then [name] else []
    ensures Names(after, false) == Names(before, false) + if results[name].pass > 0 then [name] else []
  {
    hide Names, Expected;
    assert before + [] == before;
    NamesAppend(before, Case(name, false), true);
    NamesAppend(before, Case(name, false), false);
    NamesAppend(before, Case(name, true), true);
    NamesAppend(before, Case(name, true), false);
    assert Case(name, true) !in before && Case(name, false) !in before;
  }

  /**
   What the overall result says of the cases. A run may be marked both succeeded and failed, by its state and
   by its overall test: it succeeds overall, and yet its infrastructure or its tests may have a failing case.
   */
  lemma OverallAgreesWithCases(f: Facts)
    ensures var installStatus := if f.installStatus == "" then UnknownStatus else f.installStatus;
            var overall := JobRunStatus(f.(installStatus := installStatus));
            && (overall == JobSucceeded ==>
                  && Expected(f, Install) == Pass && Expected(f, InstallTimeout) == Pass
                  && Expected(f, Infrastructure) ==
                     (if f.failed && f.installStatus != "Success" && f.operators == [] then Fail else Pass)
                  && (Expected(f, OpenShiftTests) == Fail <==> f.failed && f.testsStatus == "Failure"))
            && (overall == JobExternalInfrastructureFailure ==>
               Expected(f, Infrastructure) == Fail && Expected(f, Install) == NoVerdict)
            && (overall == JobInstallFailure ==> Expected(f, Install) == Fail && Expected(f, Infrastructure) == Pass)
            && (overall == JobTestFailure ==> Expected(f, OpenShiftTests) == Fail)
            && (overall == JobUpgradeFailure ==> (Expected(f, Upgrade) == Fail <==> f.installStatus == Success))
            && (overall == JobUpgradeFailure && f.installStatus != Success ==> Expected(f, Upgrade) == NoVerdict)
  {
  }

  /**
   When each overall result is given, by the marks of the run, the reported statuses and the cases. Exactly one
   of the eight holds; the four kinds of failure divide the runs that only failed.
   */
  lemma OverallIff(f: Facts)
    ensures var installStatus := if f.installStatus == "" then "Unknown" else f.installStatus;
            var overall := JobRunStatus(f.(installStatus := installStatus));
            var onlyFailed := f.failed && !f.succeeded && !f.aborted && !f.errored;
            var installFailure := f.installStatus == "Failure";
            var upgradeFailure :=
            f.upgradeStarted && (f.upgradeForOperators == "Failure" || f.upgradeForMachineConfigPools == "Failure");
            && (overall == JobSucceeded <==> f.succeeded)
            && (overall == JobAborted <==> f.aborted && !f.succeeded)
            && (overall == JobRunning <==> !f.succeeded && !f.aborted && !f.errored && !f.failed)
            && (overall == JobExternalInfrastructureFailure <==>
                  onlyFailed && installFailure && Expected(f, Infrastructure) == Fail)
            && (overall == JobInstallFailure <==> onlyFailed && installFailure && Expected(f, Install) == Fail)
            && (overall == JobUpgradeFailure <==> onlyFailed && !installFailure && upgradeFailure)
            && (overall == JobTestFailure <==>
                  onlyFailed && !installFailure && !upgradeFailure && Expected(f, OpenShiftTests) == Fail)
            && (overall == JobInternalInfrastructureFailure <==>
                  || (f.errored && !f.succeeded && !f.aborted)
                  || (onlyFailed && !installFailure && !upgradeFailure && Expected(f, OpenShiftTests) != Fail))
            && overall != JobUnset
  {
  }

  /** The job's state is a success and its overall test failed: a success with a failing infrastructure case. */
  lemma SuccessWithFailingCase()
    ensures var f := Facts(true, false, true, false, "", [], false, "", "", Failure);
            && JobRunStatus(f.(installStatus := UnknownStatus)) == JobSucceeded
            && Expected(f, Infrastructure) == Fail && Expected(f, OpenShiftTests) == Fail
  {
  }
}
