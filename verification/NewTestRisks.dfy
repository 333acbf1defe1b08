/**
 Risks of tests that a pull request introduces (pkg/sippyserver/pr_new_tests_worker.go).
 Risk records are shared by reference and updated in place. Maps are ranged over in any order.
 */
module NewTestRisks {
  import opened Common

  /** Success and failure together are a flake. */
  datatype NewTest = NewTest(testName: string, success: bool, failure: bool)

  /** The new tests of a run, or the reason it is left out of the comparison. */
  datatype RunResult = Valid(tests: seq<NewTest>) | Excluded

  /** A job of the pull request; no runs at all when none is against the latest commit. */
  datatype Job = Job(name: string, runs: Option<seq<RunResult>>)

  datatype RiskLevel = Unset | NoRisk | Medium | High

  class Risk {
    const testName: string
    const runs: nat
    const anyMissing: bool
    const failures: nat
    const flakes: nat
    var onlyInOne: bool
    var level: RiskLevel

    constructor (testName: string, runs: nat, anyMissing: bool, failures: nat, flakes: nat)
      ensures this.testName == testName && this.runs == runs && this.anyMissing == anyMissing
      ensures this.failures == failures && this.flakes == flakes && !onlyInOne && level == Unset
    {
      this.testName, this.runs, this.anyMissing, this.failures, this.flakes :=
        testName, runs, anyMissing, failures, flakes;
      onlyInOne, level := false, Unset;
    }
  }

  datatype JobRisks = JobRisks(jobName: string, risks: map<string, Risk>)

  // ---------------------------------------------------------------------------------------
  // One job

  function TestsNamed(tests: seq<NewTest>, name: string): seq<NewTest> {
    if tests == [] then []
    else
      var rest := TestsNamed(tests[..|tests| - 1], name);
      if tests[|tests| - 1].testName == name then rest + [tests[|tests| - 1]] else rest
  }

  /** The reports of a test across the valid runs, in order. */
  function Occurrences(runs: seq<RunResult>, name: string): seq<NewTest> {
    if runs == [] then []
    else
      var rest := Occurrences(runs[..|runs| - 1], name);
      match runs[|runs| - 1]
      case Valid(tests) => rest + TestsNamed(tests, name)
      case Excluded => rest
  }

  function Failures(tests: seq<NewTest>): nat {
    if tests == [] then 0
    else Failures(tests[..|tests| - 1]) + if tests[|tests| - 1].failure && !tests[|tests| - 1].success then 1 else 0
  }

  function Flakes(tests: seq<NewTest>): nat {
    if tests == [] then 0
    else Flakes(tests[..|tests| - 1]) + if tests[|tests| - 1].failure && tests[|tests| - 1].success then 1 else 0
  }

  /** The record describes the reports of a test in a job with that many runs. */
  ghost predicate Describes(risk: Risk, name: string, runs: nat, tests: seq<NewTest>) {
    && risk.testName == name && risk.runs == runs
    && (risk.anyMissing <==> |tests| < runs)
    && risk.failures == Failures(tests) && risk.flakes == Flakes(tests)
  }

  /** `makeNewTestRisk`. */
  method MakeNewTestRisk(name: string, jobRuns: nat, tests: seq<NewTest>) returns (risk: Risk)
    ensures fresh(risk) && Describes(risk, name, jobRuns, tests) && !risk.onlyInOne && risk.level == Unset
  {
    var flakes, failures := 0, 0;
    for i := 0 to |tests|
      invariant flakes == Flakes(tests[..i]) && failures == Failures(tests[..i])
    {
      assert tests[..i + 1][..i] == tests[..i];
      if tests[i].failure && tests[i].success {
        flakes := flakes + 1;
      } else if tests[i].failure {
        failures := failures + 1;
      }
    }
    assert tests[..|tests|] == tests;
    risk := new Risk(name, jobRuns, |tests| < jobRuns, failures, flakes);
  }

  predicate SawValidRun(runs: seq<RunResult>) {
    exists i :: 0 <= i < |runs| && runs[i].Valid?
  }

  function Lookup(byName: map<string, seq<NewTest>>, n: string): seq<NewTest> {
    if n in byName then byName[n] else []
  }

  ghost predicate NoneEmpty(byName: map<string, seq<NewTest>>) {
    forall n :: n in byName ==> byName[n] != []
  }

  lemma NamedStep(tests: seq<NewTest>, i: nat, n: string)
    requires i < |tests|
    ensures TestsNamed(tests[..i + 1], n) ==
            TestsNamed(tests[..i], n) + if tests[i].testName == n then [tests[i]] else []
  {
    assert tests[..i + 1][..i] == tests[..i];
  }

  function AddOne(byName: map<string, seq<NewTest>>, t: NewTest): map<string, seq<NewTest>> {
    byName[t.testName := Lookup(byName, t.testName) + [t]]
  }

  lemma AddOneStep(byName: map<string, seq<NewTest>>, before: map<string, seq<NewTest>>, tests: seq<NewTest>, i: nat,
                   n: string)
    requires i < |tests| && Lookup(before, n) == Lookup(byName, n) + TestsNamed(tests[..i], n)
    ensures Lookup(AddOne(before, tests[i]), n) == Lookup(byName, n) + TestsNamed(tests[..i + 1], n)
  {
    NamedStep(tests, i, n);
  }

  /** Adding the tests of one run to the lists by name. */
  method AddRun(byName: map<string, seq<NewTest>>, tests: seq<NewTest>) returns (more: map<string, seq<NewTest>>)
    requires NoneEmpty(byName)
    ensures NoneEmpty(more) && forall n :: Lookup(more, n) == Lookup(byName, n) + TestsNamed(tests, n)
  {
    more := byName;
    assert forall n :: TestsNamed(tests[..0], n) == [];
    hide TestsNamed;
    for i := 0 to |tests|
      invariant NoneEmpty(more) && forall n :: Lookup(more, n) == Lookup(byName, n) + TestsNamed(tests[..i], n)
    {
      var t := tests[i];
      ghost var before := more;
      more := more[t.testName := Lookup(more, t.testName) + [t]];
      assert more == AddOne(before, t);
      forall n ensures Lookup(more, n) == Lookup(byName, n) + TestsNamed(tests[..i + 1], n) {
        AddOneStep(byName, before, tests, i, n);
      }
    }
    assert tests[..|tests|] == tests;
  }

  /** `assessJobRisks`: no map at all when every run was excluded. */
  method AssessJobRisks(jobRuns: seq<RunResult>) returns (r: Option<map<string, Risk>>)
    ensures r.Some? <==> SawValidRun(jobRuns)
    ensures r.Some? ==>
              && (forall n :: n in r.value <==> Occurrences(jobRuns, n) != [])
              && (forall n :: n in r.value ==> fresh(r.value[n]) && !r.value[n].onlyInOne && r.value[n].level == Unset)
              && (forall n :: n in r.value ==> Describes(r.value[n], n, |jobRuns|, Occurrences(jobRuns, n)))
  {
    var byName: map<string, seq<NewTest>>, sawValidRun := map[], false;
    for i := 0 to |jobRuns|
      invariant sawValidRun <==> exists j :: 0 <= j < i && jobRuns[j].Valid?
      invariant NoneEmpty(byName) && forall n :: Lookup(byName, n) == Occurrences(jobRuns[..i], n)
    {
      assert jobRuns[..i + 1][..i] == jobRuns[..i];
      match jobRuns[i] {
        case Excluded =>
        case Valid(tests) =>
          sawValidRun := true;
          byName := AddRun(byName, tests);
      }
    }
    assert jobRuns[..|jobRuns|] == jobRuns;
    if !sawValidRun {
      return None;
    }
    assert forall n :: n in byName <==> Occurrences(jobRuns, n) != [] by {
      forall n ensures n in byName <==> Occurrences(jobRuns, n) != [] {
        assert Lookup(byName, n) == Occurrences(jobRuns, n);
      }
    }
    var risks: map<string, Risk>, todo := map[], byName.Keys;
    while todo != {}
      invariant todo <= byName.Keys && risks.Keys == byName.Keys - todo
      invariant forall n :: n in risks ==> fresh(risks[n]) && Describes(risks[n], n, |jobRuns|, byName[n]) &&
                                           !risks[n].onlyInOne && risks[n].level == Unset
    {
      var n :| n in todo;
      var risk := MakeNewTestRisk(n, |jobRuns|, byName[n]);
      risks := risks[n := risk];
      todo := todo - {n};
    }
    forall n | n in risks ensures byName[n] == Occurrences(jobRuns, n) {
      assert Lookup(byName, n) == Occurrences(jobRuns, n);
    }
    return Some(risks);
  }

  // ---------------------------------------------------------------------------------------
  // Across jobs

  function Objects(jobRisks: seq<JobRisks>): set<Risk> {
    set j, n | 0 <= j < |jobRisks| && n in jobRisks[j].risks :: jobRisks[j].risks[n]
  }

  /** Every record is filed under its own test name. */
  ghost predicate FiledByName(jobRisks: seq<JobRisks>) {
    forall j, n :: 0 <= j < |jobRisks| && n in jobRisks[j].risks ==> jobRisks[j].risks[n].testName == n
  }

  /** How many jobs saw the test. */
  function JobCount(jobRisks: seq<JobRisks>, name: string): nat {
    if jobRisks == [] then 0
    else JobCount(jobRisks[..|jobRisks| - 1], name) + if name in jobRisks[|jobRisks| - 1].risks then 1 else 0
  }

  method CountJobs(jobRisks: seq<JobRisks>) returns (counts: map<string, nat>)
    ensures forall n :: n in counts <==> JobCount(jobRisks, n) > 0
    ensures forall n :: n in counts ==> counts[n] == JobCount(jobRisks, n)
  {
    counts := map[];
    for j := 0 to |jobRisks|
      invariant forall n :: n in counts <==> JobCount(jobRisks[..j], n) > 0
      invariant forall n :: n in counts ==> counts[n] == JobCount(jobRisks[..j], n)
    {
      assert jobRisks[..j + 1][..j] == jobRisks[..j];
      var names := jobRisks[j].risks.Keys;
      var todo := names;
      while todo != {}
        invariant todo <= names
        invariant forall n :: n in counts <==> JobCount(jobRisks[..j], n) > 0 || n in names - todo
        invariant forall n :: n in counts ==>
                  counts[n] == JobCount(jobRisks[..j], n) + if n in names - todo then 1 else 0
      {
        var n :| n in todo;
        counts := counts[n := (if n in counts then counts[n] else 0) + 1];
        todo := todo - {n};
      }
    }
    assert jobRisks[..|jobRisks|] == jobRisks;
  }

  lemma CountedIfFiled(jobRisks: seq<JobRisks>, j: nat, name: string)
    requires j < |jobRisks| && name in jobRisks[j].risks
    ensures JobCount(jobRisks, name) > 0
  {
    if j < |jobRisks| - 1 {
      CountedIfFiled(jobRisks[..|jobRisks| - 1], j, name);
    }
  }

  /** The test is unique to one job of a pull request with at least two. */
  ghost predicate OnlyInOne(jobRisks: seq<JobRisks>, jobs: nat, name: string) {
    jobs >= 2 && JobCount(jobRisks, name) == 1
  }

  /** One job of the marking loop. */
  method MarkUnique(risks: map<string, Risk>, newTestJobCount: map<string, nat>)
    requires risks.Keys <= newTestJobCount.Keys && forall n :: n in risks ==> risks[n].testName == n
    modifies set n | n in risks :: risks[n]
    ensures forall n :: n in risks ==> risks[n].level == old(risks[n].level)
    ensures forall n :: n in risks ==> (risks[n].onlyInOne <==> old(risks[n].onlyInOne) || newTestJobCount[n] == 1)
  {
    var todo := risks.Keys;
    while todo != {}
      invariant todo <= risks.Keys
      invariant forall n :: n in risks ==> risks[n].level == old(risks[n].level)
      invariant forall n :: n in risks ==>
                  (risks[n].onlyInOne <==> old(risks[n].onlyInOne) || (n !in todo && newTestJobCount[n] == 1))
    {
      var n :| n in todo;
      if newTestJobCount[n] == 1 {
        risks[n].onlyInOne := true;
      }
      todo := todo - {n};
    }
  }

  ghost predicate Filed(jobRisks: seq<JobRisks>, j: int, n: string) {
    0 <= j < |jobRisks| && n in jobRisks[j].risks
  }

  /** `assessCrossJobRisks`. */
  method AssessCrossJobRisks(jobRisks: seq<JobRisks>, jobs: nat)
    requires FiledByName(jobRisks) && forall j, n :: Filed(jobRisks, j, n) ==> !jobRisks[j].risks[n].onlyInOne
    modifies Objects(jobRisks)
    ensures forall j, n :: Filed(jobRisks, j, n) ==> (jobRisks[j].risks[n].onlyInOne <==> OnlyInOne(jobRisks, jobs, n))
  {
    if jobs < 2 { return; }
    var newTestJobCount := CountJobs(jobRisks);
    forall j, n | Filed(jobRisks, j, n) ensures n in newTestJobCount { CountedIfFiled(jobRisks, j, n); }
    for j := 0 to |jobRisks|
      invariant forall i, n :: Filed(jobRisks, i, n) && i < j ==>
                (jobRisks[i].risks[n].onlyInOne <==> newTestJobCount[n] == 1)
      invariant forall i, n :: Filed(jobRisks, i, n) ==> (jobRisks[i].risks[n].onlyInOne ==> newTestJobCount[n] == 1)
    {
      var risks := jobRisks[j].risks;
      assert forall n :: n in risks ==> Filed(jobRisks, j, n);
      MarkUnique(risks, newTestJobCount);
    }
  }

  /** The level the three factors lead to. */
  function LevelFor(anyMissing: bool, onlyInOne: bool, failures: nat): RiskLevel {
    if anyMissing || failures > 0 then High else if onlyInOne then Medium else NoRisk
  }

  method AssignLevel(risk: Risk)
    modifies risk`level
    ensures Levelled(risk)
  {
    if risk.anyMissing {
      risk.level := High;
    } else if risk.onlyInOne {
      if risk.failures > 0 { risk.level := High; } else { risk.level := Medium; }
    } else {
      if risk.failures > 0 { risk.level := High; } else { risk.level := NoRisk; }
    }
  }

  function RisksOf(risks: map<string, Risk>): set<Risk> {
    set n | n in risks :: risks[n]
  }

  method AssignJobLevels(risks: map<string, Risk>, ghost others: set<Risk>)
    requires forall r :: r in others ==> Levelled(r)
    modifies RisksOf(risks)`level
    ensures forall r :: r in RisksOf(risks) ==> Levelled(r)
    ensures forall r :: r in others ==> Levelled(r)
  {
    var todo := risks.Keys;
    while todo != {}
      invariant todo <= risks.Keys
      invariant forall n :: n in risks && n !in todo ==> Levelled(risks[n])
      invariant forall r :: r in others ==> Levelled(r)
    {
      var n :| n in todo;
      AssignLevel(risks[n]);
      todo := todo - {n};
    }
  }

  lemma ObjectsStep(jobRisks: seq<JobRisks>, j: nat)
    requires j < |jobRisks|
    ensures Objects(jobRisks[..j + 1]) == Objects(jobRisks[..j]) + RisksOf(jobRisks[j].risks)
    ensures RisksOf(jobRisks[j].risks) <= Objects(jobRisks)
  {
    var upTo := jobRisks[..j + 1];
    assert upTo[j] == jobRisks[j];
    forall i | 0 <= i < j ensures upTo[i] == jobRisks[..j][i] {}
    forall r ensures r in Objects(upTo) <==> r in Objects(jobRisks[..j]) || r in RisksOf(jobRisks[j].risks) {
      if i, n :| 0 <= i < |upTo| && n in upTo[i].risks && upTo[i].risks[n] == r {
        assert i < j ==> jobRisks[..j][i].risks[n] == r;
      }
      if i, n :| 0 <= i < j && n in jobRisks[..j][i].risks && jobRisks[..j][i].risks[n] == r {
        assert upTo[i].risks[n] == r;
      }
      if n :| n in jobRisks[j].risks && jobRisks[j].risks[n] == r {
        assert upTo[j].risks[n] == r;
      }
    }
    forall r | r in RisksOf(jobRisks[j].risks) ensures r in Objects(jobRisks) {
      var n :| n in jobRisks[j].risks && jobRisks[j].risks[n] == r;
    }
  }

  lemma FiledAreObjects(jobRisks: seq<JobRisks>)
    ensures Objects(jobRisks[..0]) == {} && jobRisks[..|jobRisks|] == jobRisks
    ensures forall j, n :: Filed(jobRisks, j, n) ==> jobRisks[j].risks[n] in Objects(jobRisks)
  {
  }

  /** `assignRiskLevels`. */
  method AssignRiskLevels(jobRisks: seq<JobRisks>)
    modifies Objects(jobRisks)`level
    ensures forall j, n :: Filed(jobRisks, j, n) ==> Levelled(jobRisks[j].risks[n])
  {
    hide Objects, RisksOf, Levelled;
    FiledAreObjects(jobRisks);
    for j := 0 to |jobRisks|
      invariant forall r :: r in Objects(jobRisks[..j]) ==> Levelled(r)
    {
      ObjectsStep(jobRisks, j);
      AssignJobLevels(jobRisks[j].risks, Objects(jobRisks[..j]));
    }
  }

  ghost predicate Levelled(r: Risk)
    reads r
  {
    r.level == LevelFor(r.anyMissing, r.onlyInOne, r.failures)
  }

  // ---------------------------------------------------------------------------------------
  // The whole analysis

  predicate Analysed(job: Job) {
    job.runs.Some? && SawValidRun(job.runs.value)
  }

  /** The jobs that take part in the comparison. */
  function AnalysedJobs(jobs: seq<Job>): (r: seq<Job>)
    ensures forall i :: 0 <= i < |r| ==> Analysed(r[i])
  {
    if jobs == [] then []
    else
      var rest := AnalysedJobs(jobs[..|jobs| - 1]);
      if Analysed(jobs[|jobs| - 1]) then rest + [jobs[|jobs| - 1]] else rest
  }

  /** How many of the jobs report the test in a valid run. */
  function Seers(jobs: seq<Job>, name: string): nat {
    if jobs == [] then 0
    else
      Seers(jobs[..|jobs| - 1], name) + if Sees(jobs[|jobs| - 1], name) then 1 else 0
  }

  predicate Sees(job: Job, name: string) {
    job.runs.Some? && Occurrences(job.runs.value, name) != []
  }

  /** The records of a job, before levels are assigned. */
  ghost predicate Assessed(jr: JobRisks, job: Job)
    requires job.runs.Some?
  {
    && jr.jobName == job.name
    && (forall n :: n in jr.risks <==> Occurrences(job.runs.value, n) != [])
    && (forall n :: n in jr.risks ==> Describes(jr.risks[n], n, |job.runs.value|, Occurrences(job.runs.value, n)))
  }

  ghost predicate AllAssessed(jobRisks: seq<JobRisks>, analysed: seq<Job>) {
    && |jobRisks| == |analysed|
    && (forall j :: 0 <= j < |analysed| ==> analysed[j].runs.Some? && Assessed(jobRisks[j], analysed[j]))
  }

  lemma {:induction false} CountIsSeers(jobRisks: seq<JobRisks>, analysed: seq<Job>, name: string)
    requires AllAssessed(jobRisks, analysed)
    ensures JobCount(jobRisks, name) == Seers(analysed, name)
  {
    if analysed != [] {
      CountIsSeers(jobRisks[..|jobRisks| - 1], analysed[..|analysed| - 1], name);
    }
  }

  /** The job loop of `analyzeRisks`: jobs without comparable runs are left out. */
  method AssessJobs(jobs: seq<Job>) returns (jobRisks: seq<JobRisks>)
    ensures AllAssessed(jobRisks, AnalysedJobs(jobs))
    ensures forall j, n :: Filed(jobRisks, j, n) ==> fresh(jobRisks[j].risks[n]) && !jobRisks[j].risks[n].onlyInOne
  {
    jobRisks := [];
    for i := 0 to |jobs|
      invariant AllAssessed(jobRisks, AnalysedJobs(jobs[..i]))
      invariant forall j, n :: Filed(jobRisks, j, n) ==> fresh(jobRisks[j].risks[n]) && !jobRisks[j].risks[n].onlyInOne
    {
      assert jobs[..i + 1][..i] == jobs[..i];
      hide Occurrences, Describes;
      if jobs[i].runs.Some? {
        var risks := AssessJobRisks(jobs[i].runs.value);
        if risks.Some? {
          jobRisks := jobRisks + [JobRisks(jobs[i].name, risks.value)];
        }
      }
    }
    assert jobs[..|jobs|] == jobs;
  }

  /** The level of a test in a job, from the runs alone. */
  ghost function ExpectedLevel(jobs: seq<Job>, job: Job, name: string): RiskLevel
    requires job.runs.Some?
  {
    var reports := Occurrences(job.runs.value, name);
    LevelFor(|reports| < |job.runs.value|, |jobs| >= 2 && Seers(AnalysedJobs(jobs), name) == 1, Failures(reports))
  }

  /** `analyzeRisks`. */
  method AnalyzeRisks(jobs: seq<Job>) returns (jobRisks: seq<JobRisks>)
    ensures AllAssessed(jobRisks, AnalysedJobs(jobs))
    ensures forall j, n :: Filed(jobRisks, j, n) ==>
              jobRisks[j].risks[n].level == ExpectedLevel(jobs, AnalysedJobs(jobs)[j], n)
  {
    jobRisks := AssessJobs(jobs);
    ghost var analysed := AnalysedJobs(jobs);
    if |jobRisks| > 0 {
      AssessCrossJobRisks(jobRisks, |jobs|);
      label Marked:
      AssignRiskLevels(jobRisks);
      forall j, n | Filed(jobRisks, j, n) ensures jobRisks[j].risks[n].level == ExpectedLevel(jobs, analysed[j], n) {
        hide Occurrences, AnalysedJobs, Failures, Flakes, Objects;
        CountIsSeers(jobRisks, analysed, n);
        var risk := jobRisks[j].risks[n];
        assert Levelled(risk);
        assert risk.onlyInOne <==> OnlyInOne(jobRisks, |jobs|, n);
        assert Describes(risk, n, |analysed[j].runs.value|, Occurrences(analysed[j].runs.value, n));
      }
    }
  }

  // ---------------------------------------------------------------------------------------
  // What the levels mean

  /** No valid run reports the test more than once. */
  ghost predicate OncePerRun(runs: seq<RunResult>, name: string) {
    forall i :: 0 <= i < |runs| && runs[i].Valid? ==> |TestsNamed(runs[i].tests, name)| <= 1
  }

  ghost predicate AbsentFrom(run: RunResult, name: string) {
    run.Valid? && forall t :: t in run.tests ==> t.testName != name
  }

  ghost predicate FailsIn(run: RunResult, name: string) {
    run.Valid? && exists t :: t in run.tests && t.testName == name && t.failure && !t.success
  }

  lemma {:induction false} NamedMembers(tests: seq<NewTest>, name: string)
    ensures forall t :: t in TestsNamed(tests, name) <==> t in tests && t.testName == name
    ensures TestsNamed(tests, name) == [] <==> forall t :: t in tests ==> t.testName != name
  {
    if tests != [] {
      var init, last := tests[..|tests| - 1], tests[|tests| - 1];
      NamedMembers(init, name);
      assert tests == init + [last];
      if TestsNamed(tests, name) == [] { assert last in tests; }
    }
  }

  lemma {:induction false} FailuresConcat(a: seq<NewTest>, b: seq<NewTest>)
    ensures Failures(a + b) == Failures(a) + Failures(b)
  {
    if b == [] {
      assert a + b == a;
    } else {
      assert (a + b)[..|a + b| - 1] == a + b[..|b| - 1];
      FailuresConcat(a, b[..|b| - 1]);
    }
  }

  lemma {:induction false} FailuresMean(tests: seq<NewTest>)
    ensures Failures(tests) > 0 <==> exists t :: t in tests && t.failure && !t.success
  {
    if tests != [] {
      var init, last := tests[..|tests| - 1], tests[|tests| - 1];
      FailuresMean(init);
      assert tests == init + [last];
    }
  }

  /** The positions of the reports that fail, with passing or without. */
  function FailingAt(tests: seq<NewTest>, passing: bool): set<nat> {
    set i: nat | i < |tests| && tests[i].failure && tests[i].success == passing
  }

  lemma FailingStep(tests: seq<NewTest>, passing: bool)
    requires tests != []
    ensures var last := |tests| - 1;
            |FailingAt(tests, passing)| ==
            |FailingAt(tests[..last], passing)| + if tests[last].failure && tests[last].success == passing then 1 else 0
  {
    var init, last := tests[..|tests| - 1], |tests| - 1;
    var before, after := FailingAt(init, passing), FailingAt(tests, passing);
    forall i: nat | i < last ensures i in after <==> i in before { assert init[i] == tests[i]; }
    if last in after {
      assert after == before + {last};
    } else {
      assert after == before;
    }
  }

  /** Failures fail without passing, flakes do both, and each report counts once. */
  lemma {:induction false} CountsAreSizes(tests: seq<NewTest>)
    ensures Failures(tests) == |FailingAt(tests, false)| && Flakes(tests) == |FailingAt(tests, true)|
  {
    if tests != [] {
      CountsAreSizes(tests[..|tests| - 1]);
      FailingStep(tests, false);
      FailingStep(tests, true);
      hide FailingAt;
    }
  }

  ghost predicate AnyAbsent(runs: seq<RunResult>, name: string) {
    exists i :: 0 <= i < |runs| && AbsentFrom(runs[i], name)
  }

  ghost predicate AnyFails(runs: seq<RunResult>, name: string) {
    exists i :: 0 <= i < |runs| && FailsIn(runs[i], name)
  }

  ghost predicate AnyExcluded(runs: seq<RunResult>) {
    exists i :: 0 <= i < |runs| && runs[i].Excluded?
  }

  lemma AnyStep(runs: seq<RunResult>, last: RunResult, name: string)
    ensures AnyAbsent(runs + [last], name) <==> AnyAbsent(runs, name) || AbsentFrom(last, name)
    ensures AnyFails(runs + [last], name) <==> AnyFails(runs, name) || FailsIn(last, name)
    ensures AnyExcluded(runs + [last]) <==> AnyExcluded(runs) || last.Excluded?
  {
    var all := runs + [last];
    assert all[|runs|] == last;
    forall i | 0 <= i < |runs| ensures all[i] == runs[i] {}
  }

  lemma OneRun(tests: seq<NewTest>, name: string)
    ensures TestsNamed(tests, name) == [] <==> AbsentFrom(Valid(tests), name)
    ensures Failures(TestsNamed(tests, name)) > 0 <==> FailsIn(Valid(tests), name)
  {
    NamedMembers(tests, name);
    FailuresMean(TestsNamed(tests, name));
  }

  /** How many valid runs do not report the test. */
  function Absences(runs: seq<RunResult>, name: string): nat {
    if runs == [] then 0
    else
      var last := runs[|runs| - 1];
      Absences(runs[..|runs| - 1], name) + if last.Valid? && TestsNamed(last.tests, name) == [] then 1 else 0
  }

  function Exclusions(runs: seq<RunResult>): nat {
    if runs == [] then 0
    else Exclusions(runs[..|runs| - 1]) + if runs[|runs| - 1].Excluded? then 1 else 0
  }

  /** How many reports of the test are not the first one of their run. */
  function Surplus(runs: seq<RunResult>, name: string): nat {
    if runs == [] then 0
    else
      var last := runs[|runs| - 1];
      Surplus(runs[..|runs| - 1], name) +
        if last.Valid? && TestsNamed(last.tests, name) != [] then |TestsNamed(last.tests, name)| - 1 else 0
  }

  /**
   The number of runs includes the excluded ones, and all reports of a run are counted, so a test counts
   as missing exactly when the runs without a report of it outnumber the surplus reports.
   */
  lemma {:induction false} CountsMean(runs: seq<RunResult>, name: string)
    ensures |Occurrences(runs, name)| + Absences(runs, name) + Exclusions(runs) == |runs| + Surplus(runs, name)
    ensures Absences(runs, name) > 0 <==> AnyAbsent(runs, name)
    ensures Exclusions(runs) > 0 <==> AnyExcluded(runs)
    ensures Failures(Occurrences(runs, name)) > 0 <==> AnyFails(runs, name)
  {
    if runs != [] {
      var init, last := runs[..|runs| - 1], runs[|runs| - 1];
      CountsMean(init, name);
      assert runs == init + [last];
      AnyStep(init, last, name);
      match last {
        case Valid(tests) =>
          var named := TestsNamed(tests, name);
          OneRun(tests, name);
          FailuresConcat(Occurrences(init, name), named);
          hide AnyAbsent, AnyFails, AnyExcluded, AbsentFrom, FailsIn, TestsNamed, Failures;
          assert Occurrences(runs, name) == Occurrences(init, name) + named;
        case Excluded =>
          hide AnyAbsent, AnyFails, AnyExcluded, Failures;
          assert Occurrences(runs, name) == Occurrences(init, name);
      }
    }
  }

  lemma {:induction false} NoSurplusIff(runs: seq<RunResult>, name: string)
    ensures Surplus(runs, name) == 0 <==> OncePerRun(runs, name)
  {
    if runs != [] {
      var init, last := runs[..|runs| - 1], runs[|runs| - 1];
      NoSurplusIff(init, name);
      forall i | 0 <= i < |init| ensures runs[i] == init[i] {}
      assert OncePerRun(runs, name) <==>
        OncePerRun(init, name) && (last.Valid? ==> |TestsNamed(last.tests, name)| <= 1);
    }
  }

  ghost predicate NoneSees(jobs: seq<Job>, name: string) {
    forall i :: 0 <= i < |jobs| ==> !Sees(jobs[i], name)
  }

  /** Exactly one of the jobs reports the test. */
  ghost predicate UniqueSeer(jobs: seq<Job>, name: string) {
    && (exists i :: 0 <= i < |jobs| && Sees(jobs[i], name))
    && (forall i, k :: 0 <= i < k < |jobs| ==> !(Sees(jobs[i], name) && Sees(jobs[k], name)))
  }

  lemma SeerStep(jobs: seq<Job>, name: string)
    requires jobs != []
    ensures var init, last := jobs[..|jobs| - 1], jobs[|jobs| - 1];
            && (NoneSees(jobs, name) <==> NoneSees(init, name) && !Sees(last, name))
            && (UniqueSeer(jobs, name) <==> if Sees(last, name) then NoneSees(init, name) else UniqueSeer(init, name))
  {
    hide Sees;
    var init, last := jobs[..|jobs| - 1], |jobs| - 1;
    forall k | 0 <= k < last ensures init[k] == jobs[k] {}
    if i :| 0 <= i < last && Sees(jobs[i], name) { assert Sees(init[i], name); }
  }

  lemma {:induction false} SeersMean(jobs: seq<Job>, name: string)
    ensures Seers(jobs, name) == 0 <==> NoneSees(jobs, name)
    ensures Seers(jobs, name) == 1 <==> UniqueSeer(jobs, name)
  {
    if jobs == [] { return; }
    hide Sees, NoneSees, UniqueSeer;
    SeersMean(jobs[..|jobs| - 1], name);
    SeerStep(jobs, name);
  }

  /** The test is absent from a valid run, fails in one without being a flake, or some run was excluded. */
  ghost predicate Troubled(runs: seq<RunResult>, name: string) {
    AnyAbsent(runs, name) || AnyFails(runs, name) || AnyExcluded(runs)
  }

  /**
   The final level in a job is High exactly when the test fails in a run without being a flake or the runs
   without a report of it outnumber the surplus reports; Medium exactly when neither holds but only one
   of the compared jobs of a pull request with several has it; none otherwise.
   */
  lemma LevelMeans(jobs: seq<Job>, job: Job, name: string)
    requires job.runs.Some?
    ensures var level, runs := ExpectedLevel(jobs, job, name), job.runs.value;
            var missing := Absences(runs, name) + Exclusions(runs) > Surplus(runs, name);
            var lonely := |jobs| >= 2 && UniqueSeer(AnalysedJobs(jobs), name);
            && (level == High <==> missing || AnyFails(runs, name))
            && (level == Medium <==> !missing && !AnyFails(runs, name) && lonely)
            && (level == NoRisk <==> !missing && !AnyFails(runs, name) && !lonely)
  {
    CountsMean(job.runs.value, name);
    SeersMean(AnalysedJobs(jobs), name);
  }

  /**
   The level is High just for the troubled tests exactly when the test fails, no run lacks it, or those
   that do outnumber its surplus reports, and so whenever no run reports it twice.
   */
  lemma HighIsTroubledIff(jobs: seq<Job>, job: Job, name: string)
    requires job.runs.Some?
    ensures var runs := job.runs.value;
            var gaps := Absences(runs, name) + Exclusions(runs);
            (ExpectedLevel(jobs, job, name) == High <==> Troubled(runs, name))
            <==> AnyFails(runs, name) || gaps == 0 || Surplus(runs, name) < gaps
    ensures OncePerRun(job.runs.value, name) ==>
              (ExpectedLevel(jobs, job, name) == High <==> Troubled(job.runs.value, name))
  {
    LevelMeans(jobs, job, name);
    CountsMean(job.runs.value, name);
    NoSurplusIff(job.runs.value, name);
  }

  /**
   Runs are excluded so as not to count, yet each of them counts as one without the test. The level is
   High for the test's own sake alone exactly when it fails, or is absent from a run and the surplus does
   not make up for that, or is absent from none and the surplus makes up for the excluded runs.
   */
  lemma ExclusionHarmlessIff(jobs: seq<Job>, job: Job, name: string)
    requires job.runs.Some?
    ensures var runs := job.runs.value;
            var absences, exclusions, surplus := Absences(runs, name), Exclusions(runs), Surplus(runs, name);
            (ExpectedLevel(jobs, job, name) == High <==> AnyAbsent(runs, name) || AnyFails(runs, name))
            <==> AnyFails(runs, name) ||
                 if absences > 0 then surplus < absences + exclusions else exclusions <= surplus
  {
    LevelMeans(jobs, job, name);
    CountsMean(job.runs.value, name);
  }

  /** A test that two suites report in one run and none in the other passes for clean. */
  lemma SecondReportHidesAbsence(t: NewTest)
    requires t.success && !t.failure
    ensures var runs := [Valid([t, t]), Valid([])];
            var job := Job("job", Some(runs));
            && AnyAbsent(runs, t.testName)
            && ExpectedLevel([job], job, t.testName) == NoRisk
  {
    var runs := [Valid([t, t]), Valid([])];
    assert AbsentFrom(runs[1], t.testName);
    assert [t, t][..1] == [t] && [t][..0] == [];
    assert TestsNamed([t], t.testName) == [t];
    assert TestsNamed([t, t], t.testName) == [t, t];
    assert runs[..1] == [Valid([t, t])];
    assert Occurrences(runs[..1], t.testName) == [t, t];
    assert Occurrences(runs, t.testName) == [t, t];
    FailuresMean([t, t]);
  }

  /** A test that passes in the only valid run is High when another run was excluded. */
  lemma ExcludedRunMakesHigh(t: NewTest)
    requires t.success && !t.failure
    ensures var runs := [Valid([t]), Excluded];
            var job := Job("job", Some(runs));
            && !AnyAbsent(runs, t.testName) && !AnyFails(runs, t.testName)
            && ExpectedLevel([job], job, t.testName) == High
  {
    var runs := [Valid([t]), Excluded];
    assert runs[1].Excluded?;
    assert [t][..0] == [];
    assert TestsNamed([t], t.testName) == [t];
    forall i | 0 <= i < |runs| ensures !AbsentFrom(runs[i], t.testName) && !FailsIn(runs[i], t.testName) {
      assert i == 0 ==> t in runs[0].tests;
    }
    HighIsTroubledIff([Job("job", Some(runs))], Job("job", Some(runs)), t.testName);
  }

  // ---------------------------------------------------------------------------------------
  // Summaries

  /** A finished risk record, which the summary only reads. */
  datatype RiskView = RiskView(runs: nat, failures: nat, flakes: nat, level: RiskLevel)

  datatype JobView = JobView(jobName: string, risks: map<string, RiskView>)

  datatype Summary = Summary(runs: nat, failures: nat, flakes: nat)

  const NoRuns := Summary(0, 0, 0)

  function Plus(s: Summary, r: RiskView): Summary {
    Summary(s.runs + r.runs, s.failures + r.failures, s.flakes + r.flakes)
  }

  predicate Mentioned(jobs: seq<JobView>, name: string) {
    exists j :: 0 <= j < |jobs| && name in jobs[j].risks
  }

  /** The sum of a test's records over all jobs. */
  function Total(jobs: seq<JobView>, name: string): Summary {
    if jobs == [] then NoRuns
    else
      var rest := Total(jobs[..|jobs| - 1], name);
      var last := jobs[|jobs| - 1].risks;
      if name in last then Plus(rest, last[name]) else rest
  }

  /** The records of a job that are a risk. */
  function ActualRisks(job: JobView): JobView {
    JobView(job.jobName, map n | n in job.risks && job.risks[n].level != NoRisk :: job.risks[n])
  }

  /** The jobs with actual risks, in order, each without its harmless records. */
  function Notable(jobs: seq<JobView>): seq<JobView> {
    if jobs == [] then []
    else
      var rest := Notable(jobs[..|jobs| - 1]);
      var last := ActualRisks(jobs[|jobs| - 1]);
      if last.risks == map[] then rest else rest + [last]
  }

  /** The loops of `summarizeNewTestRisks`, with the summaries by name. */
  method SumUp(jobs: seq<JobView>) returns (notable: seq<JobView>, summaries: map<string, Summary>)
    ensures notable == Notable(jobs)
    ensures forall n :: n in summaries <==> Mentioned(jobs, n)
    ensures forall n :: Total(jobs, n) == if n in summaries then summaries[n] else NoRuns
  {
    notable, summaries := [], map[];
    for j := 0 to |jobs|
      invariant notable == Notable(jobs[..j])
      invariant forall n :: n in summaries <==> Mentioned(jobs[..j], n)
      invariant forall n :: Total(jobs[..j], n) == if n in summaries then summaries[n] else NoRuns
    {
      assert jobs[..j + 1][..j] == jobs[..j];
      MentionedStep(jobs, j);
      hide Mentioned;
      var actualRisks: map<string, RiskView>;
      actualRisks, summaries := SummarizeJob(jobs[j], summaries);
      if |actualRisks| > 0 {
        assert actualRisks != map[];
        notable := notable + [JobView(jobs[j].jobName, actualRisks)];
      }
    }
    assert jobs[..|jobs|] == jobs;
  }

  /** The sum of one figure of a test's records over all jobs. */
  function SumOf(jobs: seq<JobView>, name: string, figure: RiskView -> nat): nat {
    if jobs == [] then 0
    else (if name in jobs[0].risks then figure(jobs[0].risks[name]) else 0) + SumOf(jobs[1..], name, figure)
  }

  /** Each figure of a total is the sum of that figure, and of no other. */
  lemma {:induction false} TotalIsSums(jobs: seq<JobView>, name: string)
    ensures Total(jobs, name).runs == SumOf(jobs, name, (r: RiskView) => r.runs)
    ensures Total(jobs, name).failures == SumOf(jobs, name, (r: RiskView) => r.failures)
    ensures Total(jobs, name).flakes == SumOf(jobs, name, (r: RiskView) => r.flakes)
  {
    if jobs != [] {
      TotalIsSums(jobs[1..], name);
      TotalConcat([jobs[0]], jobs[1..], name);
      assert [jobs[0]] + jobs[1..] == jobs && [jobs[0]][..0] == [];
    }
  }

  /** The notable jobs are those with a record above no risk, in order, each with exactly these records. */
  lemma {:induction false} NotableMeans(jobs: seq<JobView>, job: JobView)
    ensures Notable(jobs + [job]) ==
            Notable(jobs) +
              if forall n :: n in job.risks ==> job.risks[n].level == NoRisk then [] else [ActualRisks(job)]
    ensures ActualRisks(job).jobName == job.jobName
    ensures forall n :: n in ActualRisks(job).risks <==> n in job.risks && job.risks[n].level != NoRisk
    ensures forall n :: n in ActualRisks(job).risks ==> ActualRisks(job).risks[n] == job.risks[n]
  {
    assert (jobs + [job])[..|jobs|] == jobs;
    if n :| n in job.risks && job.risks[n].level != NoRisk { assert n in ActualRisks(job).risks; }
  }

  datatype TestSummary = TestSummary(testName: string, summary: Summary)

  /** `strings.Compare(a, b) < 0`. */
  predicate NameBefore(a: string, b: string) {
    if b == "" then false
    else if a == "" then true
    else a[0] < b[0] || (a[0] == b[0] && NameBefore(a[1..], b[1..]))
  }

  lemma {:induction false} NamesAreOrdered(a: string, b: string)
    ensures NameBefore(a, b) || NameBefore(b, a) || a == b
    ensures !(NameBefore(a, b) && NameBefore(b, a)) && !NameBefore(a, a)
  {
    if a != "" {
      NamesAreOrdered(a[1..], a[1..]);
    }
    if a != "" && b != "" {
      NamesAreOrdered(a[1..], b[1..]);
      assert a == [a[0]] + a[1..] && b == [b[0]] + b[1..];
    }
  }

  lemma {:induction false} NamesAreTransitive(a: string, b: string, c: string)
    requires NameBefore(a, b) && NameBefore(b, c)
    ensures NameBefore(a, c)
  {
    if a != "" && a[0] == b[0] && b[0] == c[0] {
      NamesAreTransitive(a[1..], b[1..], c[1..]);
    }
  }

  ghost predicate SortedByName(list: seq<TestSummary>) {
    forall i, j :: 0 <= i < j < |list| ==> NameBefore(list[i].testName, list[j].testName)
  }

  /** Where a new name belongs in a sorted list. */
  method PlaceFor(list: seq<TestSummary>, name: string) returns (at: nat)
    requires SortedByName(list) && forall s :: s in list ==> s.testName != name
    ensures at <= |list|
    ensures forall i :: 0 <= i < at ==> NameBefore(list[i].testName, name)
    ensures forall i :: at <= i < |list| ==> NameBefore(name, list[i].testName)
  {
    at := 0;
    while at < |list| && NameBefore(list[at].testName, name)
      invariant at <= |list|
      invariant forall i :: 0 <= i < at ==> NameBefore(list[i].testName, name)
    {
      at := at + 1;
    }
    forall i | at <= i < |list| ensures NameBefore(name, list[i].testName) {
      NamesAreOrdered(list[at].testName, name);
      assert list[at] in list;
      if i > at { NamesAreTransitive(name, list[at].testName, list[i].testName); }
    }
  }

  lemma InsertKeepsSorted(list: seq<TestSummary>, at: nat, s: TestSummary)
    requires SortedByName(list) && at <= |list|
    requires forall i :: 0 <= i < at ==> NameBefore(list[i].testName, s.testName)
    requires forall i :: at <= i < |list| ==> NameBefore(s.testName, list[i].testName)
    ensures SortedByName(list[..at] + [s] + list[at..])
    ensures forall x :: x in list[..at] + [s] + list[at..] <==> x in list || x == s
  {
    assert list == list[..at] + list[at..];
  }

  /** `sortedTestRisks`: the map in any order, then sorted by test name. */
  method SortedTestRisks(summaries: map<string, Summary>) returns (list: seq<TestSummary>)
    ensures SortedByName(list)
    ensures forall n, s :: TestSummary(n, s) in list <==> n in summaries && summaries[n] == s
  {
    list := [];
    var todo := summaries.Keys;
    while todo != {}
      invariant todo <= summaries.Keys && SortedByName(list)
      invariant forall n, s :: TestSummary(n, s) in list <==> n in summaries && n !in todo && summaries[n] == s
    {
      hide SortedByName, NameBefore;
      var n :| n in todo;
      todo := todo - {n};
      forall s | s in list ensures s.testName != n { assert s == TestSummary(s.testName, s.summary); }
      var at := PlaceFor(list, n);
      InsertKeepsSorted(list, at, TestSummary(n, summaries[n]));
      list := list[..at] + [TestSummary(n, summaries[n])] + list[at..];
    }
  }

  /** `summarizeNewTestRisks`: the jobs with actual risks, and one total for each test, sorted by name. */
  method SummarizeNewTestRisks(jobs: seq<JobView>) returns (notable: seq<JobView>, list: seq<TestSummary>)
    ensures notable == Notable(jobs)
    ensures SortedByName(list)
    ensures forall n, s :: TestSummary(n, s) in list <==> Mentioned(jobs, n) && s == Total(jobs, n)
  {
    var summaries;
    notable, summaries := SumUp(jobs);
    list := SortedTestRisks(summaries);
    hide Total, Mentioned, SortedByName;
    forall n, s ensures TestSummary(n, s) in list <==> Mentioned(jobs, n) && s == Total(jobs, n) {
      assert n in summaries <==> Mentioned(jobs, n);
    }
  }

  lemma MentionedStep(jobs: seq<JobView>, j: nat)
    requires j < |jobs|
    ensures forall n :: Mentioned(jobs[..j + 1], n) <==> Mentioned(jobs[..j], n) || n in jobs[j].risks
  {
    forall i | 0 <= i < j ensures jobs[..j + 1][i] == jobs[..j][i] {}
    assert jobs[..j + 1][j] == jobs[j];
  }

  /** One job: its actual risks, and the summaries with its records added. */
  method SummarizeJob(job: JobView, before: map<string, Summary>)
    returns (actualRisks: map<string, RiskView>, summaries: map<string, Summary>)
    ensures actualRisks == ActualRisks(job).risks
    ensures summaries.Keys == before.Keys + job.risks.Keys
    ensures forall n :: n in summaries ==>
              var start := if n in before then before[n] else NoRuns;
              summaries[n] == if n in job.risks then Plus(start, job.risks[n]) else start
  {
    actualRisks, summaries := map[], before;
    var todo := job.risks.Keys;
    while todo != {}
      invariant todo <= job.risks.Keys
      invariant forall n :: n in actualRisks <==> n in job.risks && n !in todo && job.risks[n].level != NoRisk
      invariant forall n :: n in actualRisks ==> actualRisks[n] == job.risks[n]
      invariant summaries.Keys == before.Keys + (job.risks.Keys - todo)
      invariant forall n :: n in summaries ==>
                  var start := if n in before then before[n] else NoRuns;
                  summaries[n] == if n in job.risks && n !in todo then Plus(start, job.risks[n]) else start
    {
      var n :| n in todo;
      var risk := job.risks[n];
      if risk.level != NoRisk {
        actualRisks := actualRisks[n := risk];
      }
      var summary := if n in summaries then summaries[n] else NoRuns;
      summaries := summaries[n := Plus(summary, risk)];
      todo := todo - {n};
    }
  }

  /** Summing is independent of how the jobs are ordered or grouped: runs, failures and flakes are conserved. */
  lemma {:induction false} TotalConcat(a: seq<JobView>, b: seq<JobView>, name: string)
    ensures var x, y, z := Total(a, name), Total(b, name), Total(a + b, name);
            z.runs == x.runs + y.runs && z.failures == x.failures + y.failures && z.flakes == x.flakes + y.flakes
  {
    if b == [] {
      assert a + b == a;
    } else {
      assert (a + b)[..|a + b| - 1] == a + b[..|b| - 1];
      TotalConcat(a, b[..|b| - 1], name);
    }
  }
}
