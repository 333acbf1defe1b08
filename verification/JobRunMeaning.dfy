/**
 What the job-run clause says of a row (pkg/api/job_runs.go:225-336): each item by its operator and its column,
 and the items on test names by the tests of the run.
 */
module JobRunMeaning {
  import opened Common
  import opened LikePattern
  import opened FilterSql
  import opened FilterLink
  import opened FilterText
  import opened BigQueryText
  import opened ClauseMeaning

  // ---------------------------------------------------------------------------------------
  // Conditions on columns

  /** What a condition says of a row in PostgreSQL. */
  function PostgresMeaning(db: Db, types: string -> ColumnType, row: string -> Value): Condition -> Outcome {
    (c: Condition) =>
      var column := ColumnOf(c.sql);
      if !Fits(c.sql, types(column)) then DbError
      else Eval(db, c.sql, PostgresOperand(db, c.sql, c.param, types(column)), row(column))
  }

  lemma PostgresMeansItem(db: Db, types: string -> ColumnType, row: string -> Value, item: FilterItem)
    ensures var c := FilterFieldToSQL(item, Some(types(item.field)));
            PostgresMeaning(db, types, row)(c) == EvalPostgres(db, item, types(item.field), row(item.field))
  {
    ColumnOfItem(Go(_ => None, _ => None, x => x), item, Some(types(item.field)));
    hide FilterFieldToSQL, Eval, PostgresOperand, ColumnOf;
    var c := FilterFieldToSQL(item, Some(types(item.field)));
    assert c.sql.UnknownFilterOperator? ==> !Fits(c.sql, types(ColumnOf(c.sql))) && !Fits(c.sql, types(item.field));
  }

  /**
   What an item on an aliased column says of a row: what the same item on that column says. Only on arrays it
   differs, as the alias is taken as it is: a text operator is refused and "is empty" asks for NULL alone.
   */
  function AliasedOutcome(db: Db, item: FilterItem, column: string, columnType: ColumnType, v: Value): Outcome {
    if columnType == ArrayType && IsTextOperator(item.op) then DbError
    else if columnType == ArrayType && item.op.IsEmpty? then Holds(Tri(v.Null? != item.negated))
    else EvalPostgres(db, item.(field := column), columnType, v)
  }

  lemma AliasedMeansItem(db: Db, types: string -> ColumnType, row: string -> Value, item: FilterItem, column: string)
    requires !item.op.Other?
    ensures var c := FilterItemToSQL(item, column).value;
            PostgresMeaning(db, types, row)(c) == AliasedOutcome(db, item, column, types(column), row(column))
  {
    var moved, columnType, v := item.(field := column), types(column), row(column);
    var c := FilterItemToSQL(item, column).value;
    if columnType == ArrayType && (IsTextOperator(item.op) || item.op.IsEmpty?) {
      var plain := if item.op.IsEmpty? then IsNull(column) else ILike(column);
      assert c.sql == WrapNot(plain, item.negated) && ColumnOf(c.sql) == column;
      NotOutside(db, plain, item.negated, c.param, columnType, PostgresOperand(db, plain, c.param, columnType), v);
    } else {
      assert c == FilterFieldToSQL(moved, Some(columnType)) by { AliasCompilesAlike(item, column, columnType); }
      PostgresMeansItem(db, types, row, moved);
    }
  }

  lemma AliasCompilesAlike(item: FilterItem, column: string, columnType: ColumnType)
    requires !item.op.Other? && (columnType != ArrayType || (!IsTextOperator(item.op) && !item.op.IsEmpty?))
    ensures FilterItemToSQL(item, column) == Ok(FilterFieldToSQL(item.(field := column), Some(columnType)))
  {
  }

  // ---------------------------------------------------------------------------------------
  // Conditions bound to their arguments

  lemma {:induction false} BindNothing(t: Text)
    ensures Bind(t, []) == t
  {
    if t != [] { BindNothing(t[1..]); }
  }

  function FillHole(param: Param): Token -> Token {
    (k: Token) => if k == Hole then Bound(param) else k
  }

  /** Binding a single hole is replacing it. */
  lemma {:induction false} BindIsReplace(t: Text, param: Param)
    requires HoleCount(t) <= 1
    ensures HoleCount(t) == 1 ==> Bind(t, [param]) == MapSeq(t, FillHole(param))
    ensures HoleCount(t) == 0 ==> MapSeq(t, FillHole(param)) == t
  {
    if t != [] {
      BindIsReplace(t[1..], param);
      assert MapSeq(t, FillHole(param)) == [FillHole(param)(t[0])] + MapSeq(t[1..], FillHole(param));
      BindNothing(t[1..]);
      assert [param][1..] == [];
    }
  }

  /** A condition bound to its argument is the condition rendered with its parameter. */
  lemma BoundConditionIsRendered(c: Condition)
    requires Filled(c)
    ensures var f := FromCondition(c); Bind(f.text, f.args) == Rendered(PostgreSql, c)
  {
    RenderHoles(PostgreSql, c.sql);
    hide Bind, Render;
    if c.param.Some? {
      BindIsReplace(Render(PostgreSql, c.sql, Hole), c.param.value);
      MapRender(PostgreSql, c.sql, Hole, FillHole(c.param.value));
    } else {
      BindNothing(Render(PostgreSql, c.sql, Hole));
    }
  }

  // ---------------------------------------------------------------------------------------
  // The tests of a run

  datatype RunRow = RunRow(id: int, release: string, time: int)

  /** A row of prow_job_run_tests with the name of its test. */
  datatype TestRow = TestRow(runId: int, release: string, time: int, status: int, name: string)

  const StatusFailure := 12
  const StatusFlake := 13

  /** The test belongs to the run, in the partition and time range that is looked at. */
  predicate OfRun(run: RunRow, test: TestRow, lookback: int) {
    test.runId == run.id && test.release == run.release && test.time == run.time && test.time >= lookback
  }

  predicate IsTestNameField(field: string) {
    field == "ran_test_names" || field == "failed_test_names" || field == "flaked_test_names"
  }

  /** The field looks at all tests, at failures or at flakes. */
  predicate OfField(field: string, test: TestRow) {
    (field == "failed_test_names" ==> test.status == StatusFailure) &&
    (field == "flaked_test_names" ==> test.status == StatusFlake)
  }

  predicate HasName(db: Db, item: FilterItem, name: string) {
    if item.op.IsEmpty? || item.op.IsNotEmpty? then true
    else if item.op.HasEntry? || item.op.Equals? then name == item.value
    else Matches(FormOf(item.op), name, item.value, db.fold)
  }

  /** What an item on test names asks for: some test of that kind and name, or for "is empty" none. */
  predicate TestNameHolds(db: Db, run: RunRow, tests: seq<TestRow>, lookback: int, item: FilterItem) {
    var some := exists i :: 0 <= i < |tests| && OfRun(run, tests[i], lookback) && OfField(item.field, tests[i]) &&
                            HasName(db, item, tests[i].name);
    (if item.op.IsEmpty? then !some else some) != item.negated
  }

  // ---------------------------------------------------------------------------------------
  // Reading a subquery

  datatype TestCondition =
    | JoinsId | JoinsRelease | JoinsTime
    | Since(from: int) | StatusIs(status: int) | NameIs(name: string) | NameLike(pattern: string)

  predicate Meets(db: Db, run: RunRow, test: TestRow, c: TestCondition) {
    match c
    case JoinsId => test.runId == run.id
    case JoinsRelease => test.release == run.release
    case JoinsTime => test.time == run.time
    case Since(from) => test.time >= from
    case StatusIs(status) => test.status == status
    case NameIs(name) => test.name == name
    case NameLike(pattern) => Like(pattern, test.name, db.fold)
  }

  predicate Starts(text: string, word: string) {
    |word| <= |text| && text[..|word|] == word
  }

  const StatusWord := "prow_job_run_tests.status = "

  /** The condition on a test that a piece of a subquery spells, if it spells one. */
  function ReadTestCondition(t: Text): Option<TestCondition> {
    if |t| == 1 && t[0].Lit? then
      if Starts(t[0].text, StatusWord) then Some(StatusIs(Atoi(t[0].text[|StatusWord|..])))
      else ReadJoin(t[0].text)
    else if |t| == 2 && t[0].Lit? && t[1].Bound? then ReadArgument(t[0].text, t[1].param)
    else None
  }

  function ReadJoin(text: string): Option<TestCondition> {
    if text == "prow_job_run_tests.prow_job_run_id = prow_job_runs.id" then Some(JoinsId)
    else if text == "prow_job_run_tests.prow_job_run_release = prow_job_runs.prow_job_release" then Some(JoinsRelease)
    else if text == "prow_job_run_tests.prow_job_run_timestamp = prow_job_runs.timestamp" then Some(JoinsTime)
    else None
  }

  function ReadArgument(text: string, param: Param): Option<TestCondition> {
    match param
    case Instant(from) =>
      if text == "prow_job_run_tests.prow_job_run_timestamp >= " then Some(Since(from)) else None
    case Text(value) =>
      if text == "tests.name = " then Some(NameIs(value))
      else if text == "tests.name ILIKE " then Some(NameLike(value))
      else None
    case Number(_) => None
  }

  predicate IsSelect(k: Token) {
    k == Lit("SELECT 1 FROM prow_job_run_tests JOIN tests ON tests.id = prow_job_run_tests.test_id WHERE ")
  }

  /** Some test meets all conditions. */
  ghost predicate SomeTest(db: Db, run: RunRow, tests: seq<TestRow>, conditions: seq<TestCondition>) {
    exists i :: 0 <= i < |tests| && MeetsAll(db, run, tests[i], conditions)
  }

  ghost predicate MeetsAll(db: Db, run: RunRow, test: TestRow, conditions: seq<TestCondition>) {
    forall k :: 0 <= k < |conditions| ==> Meets(db, run, test, conditions[k])
  }

  ghost predicate ReadAs(pieces: seq<Text>, conditions: seq<TestCondition>) {
    |pieces| == |conditions| &&
    forall k :: 0 <= k < |pieces| ==> ReadTestCondition(pieces[k]) == Some(conditions[k])
  }

  /** `EXISTS (SELECT ... WHERE conditions)`, under any number of negations. */
  ghost function SubqueryOutcome(db: Db, run: RunRow, tests: seq<TestRow>, t: Text): Outcome
    decreases |t|
  {
    if |t| < 4 then DbError
    else if t[0] == Lit("NOT ") then NotOutcome(SubqueryOutcome(db, run, tests, t[1..]))
    else if t[0] == Lit("NOT") && t[1] == Open && t[|t| - 1] == Close then
      NotOutcome(SubqueryOutcome(db, run, tests, t[2..|t| - 1]))
    else if t[0] == Lit("EXISTS ") && t[1] == Open && IsSelect(t[2]) && t[|t| - 1] == Close then
      ConditionsOutcome(db, run, tests, TopLevel(t[3..|t| - 1], And, 0, []))
    else DbError
  }

  /** Some test meets all the conditions that the pieces spell. */
  ghost function ConditionsOutcome(db: Db, run: RunRow, tests: seq<TestRow>, pieces: seq<Text>): Outcome {
    if exists conditions :: ReadAs(pieces, conditions) then
      var conditions :| ReadAs(pieces, conditions);
      Holds(Tri(SomeTest(db, run, tests, conditions)))
    else DbError
  }

  lemma ConditionsMean(db: Db, run: RunRow, tests: seq<TestRow>, pieces: seq<Text>, conditions: seq<TestCondition>)
    requires ReadAs(pieces, conditions)
    ensures ConditionsOutcome(db, run, tests, pieces) == Holds(Tri(SomeTest(db, run, tests, conditions)))
  {
    hide ReadTestCondition, SomeTest;
    forall other | ReadAs(pieces, other) ensures other == conditions {
      forall k | 0 <= k < |pieces| ensures other[k] == conditions[k] {
        assert Some(other[k]) == Some(conditions[k]);
      }
    }
  }

  lemma SubqueryIsExists(db: Db, run: RunRow, tests: seq<TestRow>, inner: Text)
    ensures SubqueryOutcome(db, run, tests, [Lit("EXISTS ")] + Paren([Lit(RanTestOf)] + inner)) ==
            ConditionsOutcome(db, run, tests, TopLevel(inner, And, 0, []))
  {
    assert IsSelect(Lit(RanTestOf));
    hide IsSelect, TopLevel, ConditionsOutcome;
    var t := [Lit("EXISTS ")] + Paren([Lit(RanTestOf)] + inner);
    assert t[0] == Lit("EXISTS ") && t[1] == Open && t[2] == Lit(RanTestOf) && t[|t| - 1] == Close;
    assert t[3..|t| - 1] == inner;
    assert |"EXISTS "| == 7 && |"NOT "| == 4 && |"NOT"| == 3;
  }

  lemma BindOne(k: Token, args: seq<Param>)
    ensures k != Hole ==> Bind([k], args) == [k]
    ensures k == Hole && args != [] ==> Bind([k], args) == [Bound(args[0])]
  {
    assert [k][1..] == [];
  }

  lemma BindNothingBefore(before: Text, t: Text, args: seq<Param>)
    requires HoleCount(before) == 0
    ensures Bind(before + t, args) == before + Bind(t, args)
  {
    assert [] + args == args;
    BindConcat(before, t, [], args);
    BindNothing(before);
  }

  lemma BindParen(t: Text, args: seq<Param>)
    requires HoleCount(t) == |args|
    ensures Bind(Paren(t), args) == Paren(Bind(t, args))
  {
    assert args + [] == args && [Open] + t + [Close] == [Open] + (t + [Close]);
    BindConcat(t, [Close], args, []);
    BindOne(Close, []);
    OneToken(Open);
    BindNothingBefore([Open], t + [Close], args);
  }

  lemma BindPrefixed(word: string, t: Text, args: seq<Param>)
    ensures Bind([Lit(word)] + t, args) == [Lit(word)] + Bind(t, args)
  {
    OneToken(Lit(word));
    BindNothingBefore([Lit(word)], t, args);
  }

  /** The subquery with its arguments bound. */
  lemma BoundExists(conditions: seq<Fragment>)
    requires forall k :: 0 <= k < |conditions| ==> WellFormed(conditions[k])
    ensures var f := Exists(conditions);
            Bind(f.text, f.args) ==
            [Lit("EXISTS ")] + Paren([Lit(RanTestOf)] + Join(BoundTexts(conditions), And))
  {
    var joined, args := Join(Texts(conditions), And), AllArgs(conditions);
    BindJoined(conditions, And);
    OneToken(Lit(RanTestOf));
    HoleCountConcat([Lit(RanTestOf)], joined);
    BindPrefixed(RanTestOf, joined, args);
    BindParen([Lit(RanTestOf)] + joined, args);
    BindPrefixed("EXISTS ", Paren([Lit(RanTestOf)] + joined), args);
  }

  /** The subquery holds if some test meets the conditions that its pieces spell. */
  lemma ExistsMeans(db: Db, run: RunRow, tests: seq<TestRow>, fragments: seq<Fragment>,
                    conditions: seq<TestCondition>)
    requires fragments != [] && forall k :: 0 <= k < |fragments| ==> WellFormed(fragments[k])
    requires ReadAs(BoundTexts(fragments), conditions)
    ensures var f := Exists(fragments);
            SubqueryOutcome(db, run, tests, Bind(f.text, f.args)) == Holds(Tri(SomeTest(db, run, tests, conditions)))
  {
    BoundExists(fragments);
    BoundIsLevel(fragments);
    JoinParses(BoundTexts(fragments), And);
    SubqueryIsExists(db, run, tests, Join(BoundTexts(fragments), And));
    ConditionsMean(db, run, tests, BoundTexts(fragments), conditions);
  }

  lemma ReadsJoins()
    ensures ReadTestCondition([Lit(SameRun)]) == Some(JoinsId)
    ensures ReadTestCondition([Lit(SameRelease)]) == Some(JoinsRelease)
    ensures ReadTestCondition([Lit(SameTime)]) == Some(JoinsTime)
  {
    assert |SameRun| == 53 && |SameRelease| == 72 && |SameTime| == 67;
    assert StatusWord[19] == 's' && SameRun[19] == SameRelease[19] == SameTime[19] == 'p';
    assert !Starts(SameRun, StatusWord) && !Starts(SameRelease, StatusWord) && !Starts(SameTime, StatusWord);
  }

  lemma ReadsStatus(status: nat)
    ensures ReadTestCondition([Lit("prow_job_run_tests.status = " + Itoa(status))]) == Some(StatusIs(status))
  {
    hide ReadJoin;
    var text := StatusWord + Itoa(status);
    AtoiItoa(status);
    assert text[|StatusWord|..] == Itoa(status) && text[..|StatusWord|] == StatusWord;
  }

  lemma ReadsArguments(from: int, text: string)
    ensures ReadTestCondition([Lit(NotBefore), Bound(Instant(from))]) == Some(Since(from))
    ensures ReadTestCondition([Lit("tests.name = "), Bound(FilterSql.Text(text))]) == Some(NameIs(text))
    ensures ReadTestCondition([Lit("tests.name ILIKE "), Bound(FilterSql.Text(text))]) == Some(NameLike(text))
  {
    assert |"tests.name = "| == 13 && |"tests.name ILIKE "| == 17 && |NotBefore| == 45;
  }

  // ---------------------------------------------------------------------------------------
  // Items on test names

  /** The conditions of the subquery as they are read. */
  function Conditions(status: nat, lookback: int, onName: Option<TestCondition>): seq<TestCondition> {
    [JoinsId, JoinsRelease, JoinsTime, Since(lookback)] +
    (if status == 0 then [] else [StatusIs(status)]) +
    (if onName.None? then [] else [onName.value])
  }

  /** The condition on the name is bound as this one. */
  ghost predicate BoundAs(onName: Option<Fragment>, c: Option<TestCondition>) {
    match (onName, c)
    case (None, None) => true
    case (Some(f), Some(condition)) => WellFormed(f) && ReadTestCondition(Bind(f.text, f.args)) == Some(condition)
    case _ => false
  }

  lemma ConditionsRead(status: nat, lookback: int, onName: Option<Fragment>, c: Option<TestCondition>)
    requires BoundAs(onName, c)
    ensures ReadAs(BoundTexts(TestConditions(status, lookback, onName)), Conditions(status, lookback, c))
  {
    var since := Instant(lookback);
    BindOne(Lit(SameRun), []);
    BindOne(Lit(SameRelease), []);
    BindOne(Lit(SameTime), []);
    BindOne(Lit("prow_job_run_tests.status = " + Itoa(status)), []);
    BindPrefixed(NotBefore, [Hole], [since]);
    BindOne(Hole, [since]);
    assert [Lit(NotBefore)] + [Bound(since)] == [Lit(NotBefore), Bound(since)];
    ReadsJoins();
    ReadsStatus(status);
    ReadsArguments(lookback, "");
    hide Bind, ReadTestCondition, Itoa, WellFormed;
  }

  lemma SomeTestMeans(db: Db, run: RunRow, tests: seq<TestRow>, status: nat, lookback: int, c: Option<TestCondition>)
    ensures SomeTest(db, run, tests, Conditions(status, lookback, c)) <==>
            exists i :: 0 <= i < |tests| && OfRun(run, tests[i], lookback) &&
                        (status == 0 || tests[i].status == status) && (c.None? || Meets(db, run, tests[i], c.value))
  {
    hide MeetsAll, Conditions, OfRun, Meets;
    forall i | 0 <= i < |tests|
      ensures MeetsAll(db, run, tests[i], Conditions(status, lookback, c)) <==>
              OfRun(run, tests[i], lookback) &&
              (status == 0 || tests[i].status == status) && (c.None? || Meets(db, run, tests[i], c.value))
    {
      AllMet(db, run, tests[i], status, lookback, c);
    }
  }

  lemma AllMet(db: Db, run: RunRow, test: TestRow, status: nat, lookback: int, c: Option<TestCondition>)
    ensures MeetsAll(db, run, test, Conditions(status, lookback, c)) <==>
            OfRun(run, test, lookback) && (status == 0 || test.status == status) &&
            (c.None? || Meets(db, run, test, c.value))
  {
    var all := Conditions(status, lookback, c);
    assert all[0] == JoinsId && all[1] == JoinsRelease && all[2] == JoinsTime && all[3] == Since(lookback);
    assert status != 0 ==> all[4] == StatusIs(status);
    assert c.Some? ==> all[|all| - 1] == c.value;
  }

  /** The subquery for a status and a condition on the name, and that no condition on a column is spelled like it. */
  lemma SubqueryMeans(db: Db, run: RunRow, tests: seq<TestRow>, status: nat, lookback: int, onName: Option<Fragment>,
                      c: Option<TestCondition>)
    requires BoundAs(onName, c)
    ensures var f := Exists(TestConditions(status, lookback, onName));
            var t := Bind(f.text, f.args);
            && WellFormed(f) && |t| >= 4 && Decode(t) == None
            && SubqueryOutcome(db, run, tests, t) ==
               Holds(Tri(SomeTest(db, run, tests, Conditions(status, lookback, c))))
  {
    var fragments := TestConditions(status, lookback, onName);
    TestConditionsAreWellFormed(status, lookback, onName);
    ExistsIsWellFormed(fragments);
    ConditionsRead(status, lookback, onName, c);
    ExistsMeans(db, run, tests, fragments, Conditions(status, lookback, c));
    BoundExists(fragments);
    JoinIsLong(BoundTexts(fragments));
    LongExistsIsNoCondition(Join(BoundTexts(fragments), And));
    hide *;
  }

  lemma {:induction false} JoinIsLong(pieces: seq<Text>)
    ensures |Join(pieces, And)| >= |pieces| - 1
  {
    if |pieces| > 1 { JoinIsLong(pieces[1..]); }
  }

  lemma LongExistsIsNoCondition(inner: Text)
    ensures var t := [Lit("EXISTS ")] + Paren([Lit(RanTestOf)] + inner);
            |t| >= 4 && (|inner| >= 3 ==> Decode(t) == None)
  {
    var t := [Lit("EXISTS ")] + Paren([Lit(RanTestOf)] + inner);
    assert t[0] == Lit("EXISTS ") && t[2] == Lit(RanTestOf);
    assert |"EXISTS "| == 7 && |"NOT "| == 4 && |"NOT"| == 3;
    assert |"SELECT 1 FROM unnest"| == |"SELECT 1 FROM UNNEST"| == 20 && |RanTestOf| > 20;
  }

  /** A negation before a bound subquery. */
  lemma NegationMeans(db: Db, run: RunRow, tests: seq<TestRow>, f: Fragment)
    requires HoleCount(f.text) == |f.args|
    requires |Bind(f.text, f.args)| >= 4 && Decode(Bind(f.text, f.args)) == None
    ensures var t, paren, prefix :=
            Bind(f.text, f.args), Bind([Lit("NOT")] + Paren(f.text), f.args), Bind([Lit("NOT ")] + f.text, f.args);
            && |paren| >= 4 && Decode(paren) == None
            && |prefix| >= 4 && Decode(prefix) == None
            && SubqueryOutcome(db, run, tests, paren) == NotOutcome(SubqueryOutcome(db, run, tests, t))
            && SubqueryOutcome(db, run, tests, prefix) == NotOutcome(SubqueryOutcome(db, run, tests, t))
  {
    var t := Bind(f.text, f.args);
    BindPrefixed("NOT", Paren(f.text), f.args);
    BindPrefixed("NOT ", f.text, f.args);
    BindParen(f.text, f.args);
    ReadsNegation(t);
    SubqueryNegated(db, run, tests, t);
    hide Bind, Decode, SubqueryOutcome, HoleCount;
  }

  lemma SubqueryNegated(db: Db, run: RunRow, tests: seq<TestRow>, t: Text)
    requires |t| >= 4
    ensures SubqueryOutcome(db, run, tests, [Lit("NOT")] + Paren(t)) == NotOutcome(SubqueryOutcome(db, run, tests, t))
    ensures SubqueryOutcome(db, run, tests, [Lit("NOT ")] + t) == NotOutcome(SubqueryOutcome(db, run, tests, t))
  {
    hide ConditionsOutcome, TopLevel, IsSelect;
    var a, b := [Lit("NOT")] + Paren(t), [Lit("NOT ")] + t;
    assert a[0] == Lit("NOT") && a[1] == Open && a[|a| - 1] == Close && a[2..|a| - 1] == t;
    assert b[0] == Lit("NOT ") && b[1..] == t;
    assert |"NOT "| == 4 && |"NOT"| == 3;
  }

  /** The conditions on the name that an item can ask for. */
  lemma NameConditions(value: string, pattern: string)
    ensures BoundAs(Some(Fragment([Lit("tests.name = ")] + [Hole], [FilterSql.Text(value)])), Some(NameIs(value)))
    ensures BoundAs(Some(Fragment([Lit("tests.name ILIKE ")] + [Hole], [FilterSql.Text(pattern)])),
                    Some(NameLike(pattern)))
  {
    BindNamed("tests.name = ", FilterSql.Text(value));
    BindNamed("tests.name ILIKE ", FilterSql.Text(pattern));
    LitHole("tests.name = ", FilterSql.Text(value));
    LitHole("tests.name ILIKE ", FilterSql.Text(pattern));
    ReadsArguments(0, value);
    ReadsArguments(0, pattern);
    hide ReadTestCondition, Bind, WellFormed;
  }

  lemma BindNamed(word: string, param: Param)
    ensures Bind([Lit(word)] + [Hole], [param]) == [Lit(word), Bound(param)]
  {
    BindPrefixed(word, [Hole], [param]);
    BindOne(Hole, [param]);
  }

  /** The fragment of an item before it is negated, from its condition on the name. */
  lemma PlainTestName(item: FilterItem, status: nat, lookback: int, onName: Option<Fragment>)
    requires !item.op.Arithmetic? && !item.op.Other?
    requires var pattern := Pattern(item.op, EscapeLikeMetachars(item.value));
             onName == if item.op.IsEmpty? || item.op.IsNotEmpty? then None
                       else if item.op.HasEntry? || item.op.Equals?
                       then Some(Fragment([Lit("tests.name = ")] + [Hole], [FilterSql.Text(item.value)]))
                       else Some(Fragment([Lit("tests.name ILIKE ")] + [Hole], [FilterSql.Text(pattern)]))
    ensures var f := Exists(TestConditions(status, lookback, onName));
            var plain := if item.op.IsEmpty? then Fragment([Lit("NOT ")] + f.text, f.args) else f;
            TestNameFilter(item, status, lookback) ==
            Ok(if item.negated then Fragment([Lit("NOT")] + Paren(plain.text), plain.args) else plain)
  {
    hide Exists, TestConditions, Pattern;
  }

  /** A fragment under the negations that an item puts before it. */
  lemma NegationsMean(db: Db, run: RunRow, tests: seq<TestRow>, f: Fragment, empty: bool, negated: bool)
    requires HoleCount(f.text) == |f.args|
    requires |Bind(f.text, f.args)| >= 4 && Decode(Bind(f.text, f.args)) == None
    ensures var plain := if empty then Fragment([Lit("NOT ")] + f.text, f.args) else f;
            var g := if negated then Fragment([Lit("NOT")] + Paren(plain.text), plain.args) else plain;
            var one := SubqueryOutcome(db, run, tests, Bind(f.text, f.args));
            var two := if empty then NotOutcome(one) else one;
            Decode(Bind(g.text, g.args)) == None &&
            SubqueryOutcome(db, run, tests, Bind(g.text, g.args)) == if negated then NotOutcome(two) else two
  {
    hide Bind, Decode, SubqueryOutcome, HoleCount, NotOutcome;
    NegationMeans(db, run, tests, f);
    NotHoles(f.text);
    if empty { NegationMeans(db, run, tests, Fragment([Lit("NOT ")] + f.text, f.args)); }
  }

  /**
   An item on test names, bound, is read as no condition on a column, and its subquery says of a run exactly what
   the item asks for, for every operator, negated or not.
   */
  lemma TestNameMeans(db: Db, run: RunRow, tests: seq<TestRow>, item: FilterItem, lookback: int, f: Fragment)
    requires TestNameStatus(item.field).Some?
    requires TestNameFilter(item, TestNameStatus(item.field).value, lookback) == Ok(f)
    ensures var t := Bind(f.text, f.args);
            Decode(t) == None &&
            SubqueryOutcome(db, run, tests, t) == Holds(Tri(TestNameHolds(db, run, tests, lookback, item)))
  {
    var status := TestNameStatus(item.field).value;
    var pattern := Pattern(item.op, EscapeLikeMetachars(item.value));
    hide Exists, TestConditions, Conditions, Bind, Decode, SubqueryOutcome, SomeTest, OfRun, OfField, HasName, Pattern,
      BoundAs, HoleCount, Level, Paren, TestNameStatus;
    var isName := Fragment([Lit("tests.name = ")] + [Hole], [FilterSql.Text(item.value)]);
    var likeName := Fragment([Lit("tests.name ILIKE ")] + [Hole], [FilterSql.Text(pattern)]);
    NameConditions(item.value, pattern);
    NoNameCondition();
    var onName := if item.op.IsEmpty? || item.op.IsNotEmpty? then None
                  else if item.op.HasEntry? || item.op.Equals? then Some(isName) else Some(likeName);
    var c := if item.op.IsEmpty? || item.op.IsNotEmpty? then None
             else if item.op.HasEntry? || item.op.Equals? then Some(NameIs(item.value)) else Some(NameLike(pattern));
    PlainTestName(item, status, lookback, onName);
    hide TestNameFilter;
    SubqueryMeans(db, run, tests, status, lookback, onName, c);
    SomeTestIsWanted(db, run, tests, item, lookback, c);
    NegationsMean(db, run, tests, Exists(TestConditions(status, lookback, onName)), item.op.IsEmpty?, item.negated);
  }

  lemma NoNameCondition()
    ensures BoundAs(None, None)
  {
  }

  /** The field and the operator of an item give the conditions that its subquery asks for. */
  lemma SomeTestIsWanted(db: Db, run: RunRow, tests: seq<TestRow>, item: FilterItem, lookback: int,
                         c: Option<TestCondition>)
    requires TestNameStatus(item.field).Some? && !item.op.Arithmetic? && !item.op.Other?
    requires c == if item.op.IsEmpty? || item.op.IsNotEmpty? then None
                  else if item.op.HasEntry? || item.op.Equals? then Some(NameIs(item.value))
                  else Some(NameLike(Pattern(item.op, EscapeLikeMetachars(item.value))))
    ensures SomeTest(db, run, tests, Conditions(TestNameStatus(item.field).value, lookback, c)) <==>
            exists i :: 0 <= i < |tests| && OfRun(run, tests[i], lookback) && OfField(item.field, tests[i]) &&
                        HasName(db, item, tests[i].name)
  {
    var status := TestNameStatus(item.field).value;
    SomeTestMeans(db, run, tests, status, lookback, c);
    FieldStatus(item.field);
    forall i | 0 <= i < |tests|
      ensures (c.None? || Meets(db, run, tests[i], c.value)) <==> HasName(db, item, tests[i].name)
    {
      EscapedFormMatches(FormOf(item.op), item.value, tests[i].name, db.fold);
    }
    hide SomeTest, Conditions, OfRun, OfField, HasName, Meets, Pattern, TestNameStatus;
  }

  lemma TestNameFields(field: string)
    ensures TestNameStatus(field).Some? <==> IsTestNameField(field)
  {
  }

  lemma FieldStatus(field: string)
    requires TestNameStatus(field).Some?
    ensures forall test: TestRow ::
              OfField(field, test) <==>
                TestNameStatus(field).value == 0 || test.status == TestNameStatus(field).value
  {
    assert |"ran_test_names"| == 14 && |"failed_test_names"| == |"flaked_test_names"| == 17;
    assert "failed_test_names"[2] == 'i' && "flaked_test_names"[2] == 'a';
  }

  // ---------------------------------------------------------------------------------------
  // The clause

  /**
   What an item says of a run, from the item alone: a test-name item by the tests of the run, any other by the
   value in its column.
   */
  function ItemOutcome(db: Db, columns: Columns, row: string -> Value, run: RunRow, tests: seq<TestRow>,
                       lookback: int, item: FilterItem): Outcome
  {
    if IsTestNameField(item.field) then Holds(Tri(TestNameHolds(db, run, tests, lookback, item)))
    else if item.field in columns.aliases then
      var column := columns.aliases[item.field];
      AliasedOutcome(db, item, column, columns.types(column), row(column))
    else EvalPostgres(db, item, columns.types(item.field), row(item.field))
  }

  function ItemOutcomes(db: Db, columns: Columns, row: string -> Value, run: RunRow, tests: seq<TestRow>,
                        lookback: int, items: seq<FilterItem>): (outcomes: seq<Outcome>)
    ensures |outcomes| == |items|
  {
    seq(|items|, i requires 0 <= i < |items| => ItemOutcome(db, columns, row, run, tests, lookback, items[i]))
  }

  lemma ConditionMeans(db: Db, columns: Columns, row: string -> Value, item: FilterItem, c: Condition,
                       otherwise: Text -> Outcome)
    requires Filled(c)
    ensures var f, meaning := FromCondition(c), PostgresMeaning(db, columns.types, row);
            Read(Bind(f.text, f.args), meaning, otherwise) == meaning(c)
  {
    BoundConditionIsRendered(c);
    ReadsBack(PostgreSql, c, PostgresMeaning(db, columns.types, row), otherwise);
  }

  lemma FragmentMeansItem(db: Db, columns: Columns, row: string -> Value, run: RunRow, tests: seq<TestRow>,
                          item: FilterItem, lookback: int, f: Fragment)
    requires ItemFragment(columns, item, lookback) == Ok(f)
    ensures Read(Bind(f.text, f.args), PostgresMeaning(db, columns.types, row), t => SubqueryOutcome(db, run, tests, t))
            == ItemOutcome(db, columns, row, run, tests, lookback, item)
  {
    var otherwise := t => SubqueryOutcome(db, run, tests, t);
    var go := Go(_ => None, _ => None, x => x);
    TestNameFields(item.field);
    hide IsTestNameField;
    if TestNameStatus(item.field).Some? {
      TestNameMeans(db, run, tests, item, lookback, f);
      hide Bind, Decode, SubqueryOutcome, TestNameFilter, TestNameHolds, TestNameStatus;
    } else if item.field in columns.aliases {
      var column := columns.aliases[item.field];
      var c := FilterItemToSQL(item, column).value;
      ParamsFillHoles(go, item, column, None);
      ConditionMeans(db, columns, row, item, c, otherwise);
      AliasedMeansItem(db, columns.types, row, item, column);
      hide Read, Bind, FilterItemToSQL, PostgresMeaning, AliasedOutcome;
    } else {
      var columnType := columns.types(item.field);
      ParamsFillHoles(go, item, "", Some(columnType));
      ConditionMeans(db, columns, row, item, FilterFieldToSQL(item, Some(columnType)), otherwise);
      PostgresMeansItem(db, columns.types, row, item);
      hide Read, Bind, FilterFieldToSQL, PostgresMeaning, EvalPostgres;
    }
  }

  /**
   Read piece by piece, the job-run clause with its arguments bound says of every run what the items say of it,
   linked: an error if one of them is refused; otherwise it selects the run exactly if some item does with "or",
   and all do otherwise.
   */
  lemma JobRunClauseMeans(db: Db, columns: Columns, row: string -> Value, run: RunRow, tests: seq<TestRow>,
                          items: seq<FilterItem>, lookback: int, fragments: seq<Fragment>, link: string, inner: Text)
    requires items != [] && FragmentsOf(columns, items, lookback, fragments)
    requires Bind(Paren(Join(Texts(fragments), Connective(link))), AllArgs(fragments)) == Paren(inner)
    ensures var pieces := TopLevel(inner, Connective(link), 0, []);
            var read :=
            t => Read(t, PostgresMeaning(db, columns.types, row), u => SubqueryOutcome(db, run, tests, u));
            pieces != [] &&
            Links(ClauseOutcome(pieces, Connective(link), read), link,
                  ItemOutcomes(db, columns, row, run, tests, lookback, items))
  {
    var read := t => Read(t, PostgresMeaning(db, columns.types, row), u => SubqueryOutcome(db, run, tests, u));
    var pieces := BoundTexts(fragments);
    var outcomes := ItemOutcomes(db, columns, row, run, tests, lookback, items);
    ClauseParses(columns, items, lookback, fragments, Connective(link));
    SameInner(inner, Join(pieces, Connective(link)));
    hide Read, Bind, PostgresMeaning, ItemFragment, ItemOutcome, Links, TopLevel, ClauseTruth, ClauseOutcome, Join;
    forall i | 0 <= i < |pieces| ensures read(pieces[i]) == outcomes[i] {
      FragmentMeansItem(db, columns, row, run, tests, items[i], lookback, fragments[i]);
    }
    ClauseLinks(pieces, link, read, outcomes);
  }
}
