/**
 Filter conditions as text with placeholders: the job-run clause (pkg/api/job_runs.go:230-335) and
 the BigQuery clause (pkg/filter/filterable.go:498-530).

 Text is a sequence of tokens. Parentheses and connectives are tokens of their own, so that a clause
 can be taken apart again; column names and other text are literals.
 */
module FilterText {
  import opened Common
  import opened FilterSql
  import opened FilterLink
  import LikePattern

  datatype Token =
    | Lit(text: string) | Open | Close | And | Or
    | Hole
    | Bound(param: Param)
    | Named(name: string)

  type Text = seq<Token>

  datatype Dialect = PostgreSql | BigQuery

  function RelationText(d: Dialect, rel: Relation): string {
    match rel
    case EQ => " = "
    case NE => if d.BigQuery? then " != " else " <> "
    case GT => " > "
    case GE => " >= "
    case LT => " < "
    case LE => " <= "
  }

  function Paren(t: Text): Text {
    [Open] + t + [Close]
  }

  /** A condition in text; `slot` stands where the parameter goes. */
  function Render(d: Dialect, e: Sql, slot: Token): Text {
    match e
    case Rel(rel, col) => [Lit(col + RelationText(d, rel))] + [slot]
    case ILike(col) => [Lit(col + " ILIKE ")] + [slot]
    case LowerLike(col) => [Lit("LOWER")] + Paren([Lit(col)]) + ([Lit(" LIKE ")] + [slot])
    case ElemILike(col) =>
      [Lit("EXISTS ")] +
        Paren([Lit("SELECT 1 FROM unnest")] + Paren([Lit(col)]) + ([Lit(" AS elem WHERE elem ILIKE ")] + [slot]))
    case ElemLowerLike(col) =>
      [Lit("EXISTS ")] +
        Paren([Lit("SELECT 1 FROM UNNEST")] + Paren([Lit(col)]) + ([Lit(" AS item WHERE LOWER(item) LIKE ")] + [slot]))
    case AnyEntry(col) =>
      if d.BigQuery? then [slot] + ([Lit(" in UNNEST")] + Paren([Lit(col)]))
      else [slot] + ([Lit(" = ANY")] + Paren([Lit("COALESCE")] + Paren([Lit(col + ", '{}'")])))
    case IsNull(col) => [Lit(col + " IS NULL")]
    case IsNotNull(col) => [Lit(col + " IS NOT NULL")]
    case NullOrEmptyArray(col) =>
      var empty := if d.BigQuery? then [Lit("ARRAY_LENGTH")] + Paren([Lit(col)]) + [Lit(" = 0")]
                   else [Lit(col + " = '{}'")];
      Paren([Lit(col + " IS NULL")] + [Or] + empty)
    case Not(inner) =>
      if d.BigQuery? && !inner.IsNull? && !inner.NullOrEmptyArray? then [Lit("NOT ")] + Render(d, inner, slot)
      else [Lit("NOT")] + Paren(Render(d, inner, slot))
    case UnknownFilterOperator => [Lit("UnknownFilterOperator")] + Paren([])
  }

  function HoleCount(t: Text): nat {
    if t == [] then 0 else (if t[0] == Hole then 1 else 0) + HoleCount(t[1..])
  }

  /** The arguments take the holes from left to right; surplus holes stay open. */
  function Bind(t: Text, args: seq<Param>): Text {
    if t == [] then []
    else if t[0] == Hole && args != [] then [Bound(args[0])] + Bind(t[1..], args[1..])
    else [t[0]] + Bind(t[1..], args)
  }

  lemma {:induction false} HoleCountConcat(a: Text, b: Text)
    ensures HoleCount(a + b) == HoleCount(a) + HoleCount(b)
  {
    if a == [] {
      assert a + b == b;
    } else {
      assert (a + b)[1..] == a[1..] + b;
      HoleCountConcat(a[1..], b);
    }
  }

  /** Text that takes all its arguments leaves the rest to what follows. */
  lemma {:induction false} BindConcat(a: Text, b: Text, x: seq<Param>, y: seq<Param>)
    requires HoleCount(a) == |x|
    ensures Bind(a + b, x + y) == Bind(a, x) + Bind(b, y)
  {
    if a == [] {
      assert a + b == b && x + y == y;
    } else {
      assert (a + b)[1..] == a[1..] + b;
      if a[0] == Hole {
        assert (x + y)[1..] == x[1..] + y;
        BindConcat(a[1..], b, x[1..], y);
      } else {
        BindConcat(a[1..], b, x, y);
      }
    }
  }

  lemma OneToken(k: Token)
    ensures HoleCount([k]) == if k == Hole then 1 else 0
  {
    assert [k][1..] == [];
  }

  lemma ParenHoles(t: Text)
    ensures HoleCount(Paren(t)) == HoleCount(t)
  {
    HoleCountConcat([Open], t);
    HoleCountConcat([Open] + t, [Close]);
  }

  lemma {:induction false} RenderHoles(d: Dialect, e: Sql)
    ensures HoleCount(Render(d, e, Hole)) == Holes(e)
  {
    match e
    case Rel(rel, col) => LitThenHole(col + RelationText(d, rel));
    case ILike(col) => LitThenHole(col + " ILIKE ");
    case LowerLike(col) => LowerLikeHoles(col);
    case ElemILike(col) => ElemHoles(col, "SELECT 1 FROM unnest", " AS elem WHERE elem ILIKE ");
    case ElemLowerLike(col) => ElemHoles(col, "SELECT 1 FROM UNNEST", " AS item WHERE LOWER(item) LIKE ");
    case AnyEntry(col) => AnyEntryHoles(col);
    case IsNull(col) => OneToken(Lit(col + " IS NULL"));
    case IsNotNull(col) => OneToken(Lit(col + " IS NOT NULL"));
    case NullOrEmptyArray(col) => EmptyArrayHoles(col);
    case Not(inner) =>
      RenderHoles(d, inner);
      NotHoles(Render(d, inner, Hole));
    case UnknownFilterOperator =>
      OneToken(Lit("UnknownFilterOperator"));
      ParenHoles([]);
      HoleCountConcat([Lit("UnknownFilterOperator")], Paren([]));
  }

  lemma NotHoles(t: Text)
    ensures HoleCount([Lit("NOT")] + Paren(t)) == HoleCount([Lit("NOT ")] + t) == HoleCount(t)
  {
    OneToken(Lit("NOT"));
    OneToken(Lit("NOT "));
    ParenHoles(t);
    HoleCountConcat([Lit("NOT")], Paren(t));
    HoleCountConcat([Lit("NOT ")], t);
  }

  lemma LitThenHole(word: string)
    ensures HoleCount([Lit(word)] + [Hole]) == 1
  {
    OneToken(Lit(word));
    OneToken(Hole);
    HoleCountConcat([Lit(word)], [Hole]);
  }

  lemma LowerLikeHoles(col: string)
    ensures HoleCount([Lit("LOWER")] + Paren([Lit(col)]) + ([Lit(" LIKE ")] + [Hole])) == 1
  {
    OneToken(Lit("LOWER"));
    OneToken(Lit(col));
    ParenHoles([Lit(col)]);
    LitThenHole(" LIKE ");
    HoleCountConcat([Lit("LOWER")], Paren([Lit(col)]));
    HoleCountConcat([Lit("LOWER")] + Paren([Lit(col)]), [Lit(" LIKE ")] + [Hole]);
  }

  lemma AnyEntryHoles(col: string)
    ensures HoleCount([Hole] + ([Lit(" = ANY")] + Paren([Lit("COALESCE")] + Paren([Lit(col + ", '{}'")])))) == 1
    ensures HoleCount([Hole] + ([Lit(" in UNNEST")] + Paren([Lit(col)]))) == 1
  {
    OneToken(Lit(col));
    OneToken(Lit(" in UNNEST"));
    ParenHoles([Lit(col)]);
    HoleCountConcat([Lit(" in UNNEST")], Paren([Lit(col)]));
    HoleCountConcat([Hole], [Lit(" in UNNEST")] + Paren([Lit(col)]));
    var inner := [Lit("COALESCE")] + Paren([Lit(col + ", '{}'")]);
    OneToken(Lit(col + ", '{}'"));
    OneToken(Lit("COALESCE"));
    OneToken(Lit(" = ANY"));
    OneToken(Hole);
    ParenHoles([Lit(col + ", '{}'")]);
    HoleCountConcat([Lit("COALESCE")], Paren([Lit(col + ", '{}'")]));
    ParenHoles(inner);
    HoleCountConcat([Lit(" = ANY")], Paren(inner));
    HoleCountConcat([Hole], [Lit(" = ANY")] + Paren(inner));
  }

  lemma EmptyArrayHoles(col: string)
    ensures HoleCount(Paren([Lit(col + " IS NULL")] + [Or] + [Lit(col + " = '{}'")])) == 0
    ensures var length := [Lit("ARRAY_LENGTH")] + Paren([Lit(col)]) + [Lit(" = 0")];
            HoleCount(Paren([Lit(col + " IS NULL")] + [Or] + length)) == 0
  {
    OneToken(Lit(col));
    OneToken(Lit("ARRAY_LENGTH"));
    OneToken(Lit(" = 0"));
    OneToken(Lit(col + " = '{}'"));
    ParenHoles([Lit(col)]);
    HoleCountConcat([Lit("ARRAY_LENGTH")], Paren([Lit(col)]));
    HoleCountConcat([Lit("ARRAY_LENGTH")] + Paren([Lit(col)]), [Lit(" = 0")]);
    NullOrHoles(col, [Lit(col + " = '{}'")]);
    NullOrHoles(col, [Lit("ARRAY_LENGTH")] + Paren([Lit(col)]) + [Lit(" = 0")]);
  }

  lemma NullOrHoles(col: string, empty: Text)
    ensures HoleCount(Paren([Lit(col + " IS NULL")] + [Or] + empty)) == HoleCount(empty)
  {
    OneToken(Lit(col + " IS NULL"));
    OneToken(Or);
    HoleCountConcat([Lit(col + " IS NULL")], [Or]);
    HoleCountConcat([Lit(col + " IS NULL")] + [Or], empty);
    ParenHoles([Lit(col + " IS NULL")] + [Or] + empty);
  }

  lemma ElemHoles(col: string, from: string, test: string)
    ensures HoleCount([Lit("EXISTS ")] + Paren([Lit(from)] + Paren([Lit(col)]) + ([Lit(test)] + [Hole]))) == 1
  {
    var inner := [Lit(from)] + Paren([Lit(col)]);
    OneToken(Lit(from));
    OneToken(Lit(col));
    OneToken(Lit("EXISTS "));
    LitThenHole(test);
    ParenHoles([Lit(col)]);
    HoleCountConcat([Lit(from)], Paren([Lit(col)]));
    HoleCountConcat(inner, [Lit(test)] + [Hole]);
    ParenHoles(inner + ([Lit(test)] + [Hole]));
    HoleCountConcat([Lit("EXISTS ")], Paren(inner + ([Lit(test)] + [Hole])));
  }

  // ---------------------------------------------------------------------------------------
  // Taking a clause apart

  /** The depth after the text, unless a parenthesis or a connective is out of place. */
  function Scan(t: Text, d: nat): Option<nat> {
    if t == [] then Some(d)
    else
      match t[0]
      case Open => Scan(t[1..], d + 1)
      case Close => if d == 0 then None else Scan(t[1..], d - 1)
      case And => if d == 0 then None else Scan(t[1..], d)
      case Or => if d == 0 then None else Scan(t[1..], d)
      case _ => Scan(t[1..], d)
  }

  /** Balanced, and every connective inside parentheses when the text itself is not. */
  predicate Level(t: Text, d: nat) {
    Scan(t, d) == Some(d)
  }

  /** What a parser sees: the pieces between the connectives that are not inside parentheses. */
  function TopLevel(t: Text, connective: Token, d: nat, piece: Text): seq<Text> {
    if t == [] then [piece]
    else if t[0] == Open then TopLevel(t[1..], connective, d + 1, piece + [Open])
    else if t[0] == Close then TopLevel(t[1..], connective, if d > 0 then d - 1 else 0, piece + [Close])
    else if t[0] == connective && d == 0 then [piece] + TopLevel(t[1..], connective, 0, [])
    else TopLevel(t[1..], connective, d, piece + [t[0]])
  }

  function Join(pieces: seq<Text>, connective: Token): Text {
    if pieces == [] then []
    else if |pieces| == 1 then pieces[0]
    else pieces[0] + ([connective] + Join(pieces[1..], connective))
  }

  lemma {:induction false} ScanConcat(a: Text, b: Text, d: nat)
    ensures Scan(a + b, d) == if Scan(a, d).None? then None else Scan(b, Scan(a, d).value)
  {
    if a == [] {
      assert a + b == b;
    } else {
      assert (a + b)[1..] == a[1..] + b;
      match a[0]
      case Open => ScanConcat(a[1..], b, d + 1);
      case Close => if d > 0 { ScanConcat(a[1..], b, d - 1); }
      case _ => ScanConcat(a[1..], b, d);
    }
  }

  lemma LevelConcat(a: Text, b: Text, d: nat)
    requires Level(a, d) && Level(b, d)
    ensures Level(a + b, d)
  {
    ScanConcat(a, b, d);
  }

  lemma LevelParen(t: Text, d: nat)
    requires Level(t, d + 1)
    ensures Level(Paren(t), d)
  {
    ScanConcat([Open] + t, [Close], d);
    ScanConcat([Open], t, d);
    assert Scan([Open], d) == Some(d + 1);
    assert Scan([Close], d + 1) == Some(d);
  }

  predicate Plain(k: Token) {
    k.Lit? || k.Hole? || k.Bound? || k.Named?
  }

  lemma LevelPlain(k: Token, d: nat)
    requires Plain(k)
    ensures Level([k], d)
  {
    assert [k][1..] == [];
  }

  lemma {:induction false} RenderIsLevel(dialect: Dialect, e: Sql, slot: Token, d: nat)
    requires Plain(slot)
    ensures Level(Render(dialect, e, slot), d)
  {
    forall k: Token, n: nat | Plain(k) ensures Level([k], n) { LevelPlain(k, n); }
    match e
    case Rel(rel, col) => LevelConcat([Lit(col + RelationText(dialect, rel))], [slot], d);
    case ILike(col) => LevelConcat([Lit(col + " ILIKE ")], [slot], d);
    case LowerLike(col) =>
      CallLevel("LOWER", col, d);
      LevelConcat([Lit(" LIKE ")], [slot], d);
      LevelConcat([Lit("LOWER")] + Paren([Lit(col)]), [Lit(" LIKE ")] + [slot], d);
    case ElemILike(col) => ElemLevel(col, "SELECT 1 FROM unnest", " AS elem WHERE elem ILIKE ", slot, d);
    case ElemLowerLike(col) => ElemLevel(col, "SELECT 1 FROM UNNEST", " AS item WHERE LOWER(item) LIKE ", slot, d);
    case AnyEntry(col) => AnyEntryLevel(col, slot, d);
    case NullOrEmptyArray(col) => EmptyArrayLevel(col, d);
    case Not(inner) =>
      RenderIsLevel(dialect, inner, slot, d);
      RenderIsLevel(dialect, inner, slot, d + 1);
      LevelParen(Render(dialect, inner, slot), d);
      LevelConcat([Lit("NOT")], Paren(Render(dialect, inner, slot)), d);
      LevelConcat([Lit("NOT ")], Render(dialect, inner, slot), d);
    case UnknownFilterOperator =>
      LevelParen([], d);
      LevelConcat([Lit("UnknownFilterOperator")], Paren([]), d);
    case _ =>
  }

  /** A function applied to a column. */
  lemma CallLevel(name: string, col: string, d: nat)
    ensures Level([Lit(name)] + Paren([Lit(col)]), d)
  {
    LevelPlain(Lit(name), d);
    LevelPlain(Lit(col), d + 1);
    LevelParen([Lit(col)], d);
    LevelConcat([Lit(name)], Paren([Lit(col)]), d);
  }

  lemma AnyEntryLevel(col: string, slot: Token, d: nat)
    requires Plain(slot)
    ensures Level([slot] + ([Lit(" = ANY")] + Paren([Lit("COALESCE")] + Paren([Lit(col + ", '{}'")]))), d)
    ensures Level([slot] + ([Lit(" in UNNEST")] + Paren([Lit(col)])), d)
  {
    var inner := [Lit("COALESCE")] + Paren([Lit(col + ", '{}'")]);
    CallLevel("COALESCE", col + ", '{}'", d + 1);
    LevelParen(inner, d);
    LevelPlain(Lit(" = ANY"), d);
    LevelPlain(slot, d);
    LevelConcat([Lit(" = ANY")], Paren(inner), d);
    LevelConcat([slot], [Lit(" = ANY")] + Paren(inner), d);
    CallLevel(" in UNNEST", col, d);
    LevelConcat([slot], [Lit(" in UNNEST")] + Paren([Lit(col)]), d);
  }

  lemma EmptyArrayLevel(col: string, d: nat)
    ensures Level(Paren([Lit(col + " IS NULL")] + [Or] + [Lit(col + " = '{}'")]), d)
    ensures var length := [Lit("ARRAY_LENGTH")] + Paren([Lit(col)]) + [Lit(" = 0")];
            Level(Paren([Lit(col + " IS NULL")] + [Or] + length), d)
  {
    CallLevel("ARRAY_LENGTH", col, d + 1);
    LevelPlain(Lit(" = 0"), d + 1);
    LevelConcat([Lit("ARRAY_LENGTH")] + Paren([Lit(col)]), [Lit(" = 0")], d + 1);
    LevelPlain(Lit(col + " = '{}'"), d + 1);
    NullOrLevel(col, [Lit(col + " = '{}'")], d);
    NullOrLevel(col, [Lit("ARRAY_LENGTH")] + Paren([Lit(col)]) + [Lit(" = 0")], d);
  }

  lemma NullOrLevel(col: string, empty: Text, d: nat)
    requires Level(empty, d + 1)
    ensures Level(Paren([Lit(col + " IS NULL")] + [Or] + empty), d)
  {
    assert Level([Or], d + 1) by { assert [Or][1..] == []; }
    LevelPlain(Lit(col + " IS NULL"), d + 1);
    LevelConcat([Lit(col + " IS NULL")], [Or], d + 1);
    LevelConcat([Lit(col + " IS NULL")] + [Or], empty, d + 1);
    LevelParen([Lit(col + " IS NULL")] + [Or] + empty, d);
  }

  lemma ElemLevel(col: string, from: string, test: string, slot: Token, d: nat)
    requires Plain(slot)
    ensures Level([Lit("EXISTS ")] + Paren([Lit(from)] + Paren([Lit(col)]) + ([Lit(test)] + [slot])), d)
  {
    forall k: Token, n: nat | Plain(k) ensures Level([k], n) { LevelPlain(k, n); }
    var inner := [Lit(from)] + Paren([Lit(col)]);
    LevelParen([Lit(col)], d + 1);
    LevelConcat([Lit(from)], Paren([Lit(col)]), d + 1);
    LevelConcat([Lit(test)], [slot], d + 1);
    LevelConcat(inner, [Lit(test)] + [slot], d + 1);
    LevelParen(inner + ([Lit(test)] + [slot]), d);
    LevelConcat([Lit("EXISTS ")], Paren(inner + ([Lit(test)] + [slot])), d);
  }

  /** A parser runs through a level piece without splitting it. */
  lemma {:induction false} TopLevelPasses(t: Text, rest: Text, connective: Token, d: nat, piece: Text)
    requires Scan(t, d).Some? && (connective == And || connective == Or)
    ensures TopLevel(t + rest, connective, d, piece) == TopLevel(rest, connective, Scan(t, d).value, piece + t)
  {
    if t == [] {
      assert t + rest == rest && piece + t == piece;
    } else {
      assert (t + rest)[1..] == t[1..] + rest;
      assert piece + [t[0]] + t[1..] == piece + t;
      match t[0]
      case Open => TopLevelPasses(t[1..], rest, connective, d + 1, piece + [t[0]]);
      case Close => TopLevelPasses(t[1..], rest, connective, d - 1, piece + [t[0]]);
      case _ => TopLevelPasses(t[1..], rest, connective, d, piece + [t[0]]);
    }
  }

  /** Joining level pieces and parsing the result gives the pieces back. */
  lemma {:induction false} JoinParses(pieces: seq<Text>, connective: Token)
    requires pieces != [] && (connective == And || connective == Or)
    requires forall i :: 0 <= i < |pieces| ==> Level(pieces[i], 0)
    ensures TopLevel(Join(pieces, connective), connective, 0, []) == pieces
  {
    var head := pieces[0];
    assert [] + head == head;
    if |pieces| == 1 {
      assert head + [] == head;
      TopLevelPasses(head, [], connective, 0, []);
    } else {
      var tail := [connective] + Join(pieces[1..], connective);
      TopLevelPasses(head, tail, connective, 0, []);
      assert tail[1..] == Join(pieces[1..], connective);
      JoinParses(pieces[1..], connective);
    }
  }

  lemma {:induction false} BindIsLevel(t: Text, args: seq<Param>, d: nat)
    ensures Scan(Bind(t, args), d) == Scan(t, d)
  {
    if t != [] {
      var rest := if t[0] == Hole && args != [] then args[1..] else args;
      assert Bind(t, args)[1..] == Bind(t[1..], rest);
      match t[0]
      case Open => BindIsLevel(t[1..], rest, d + 1);
      case Close => if d > 0 { BindIsLevel(t[1..], rest, d - 1); }
      case _ => BindIsLevel(t[1..], rest, d);
    }
  }

  // ---------------------------------------------------------------------------------------
  // Decimal numerals

  const Digits := "0123456789"

  function Itoa(n: nat): string {
    if n < 10 then [Digits[n]] else Itoa(n / 10) + [Digits[n % 10]]
  }

  function Atoi(s: string): int {
    if s == "" then 0 else 10 * Atoi(s[..|s| - 1]) + (s[|s| - 1] as int - '0' as int)
  }

  lemma {:induction false} AtoiItoa(n: nat)
    ensures Atoi(Itoa(n)) == n
  {
    var d := n % 10;
    assert Digits[d] as int - '0' as int == d;
    if n < 10 {
      assert Itoa(n)[..0] == "";
    } else {
      AtoiItoa(n / 10);
      assert Itoa(n)[..|Itoa(n)| - 1] == Itoa(n / 10);
    }
  }

  // ---------------------------------------------------------------------------------------
  // Job-run filters

  /** A condition with the arguments of its holes. */
  datatype Fragment = Fragment(text: Text, args: seq<Param>)

  function TestNameStatus(field: string): Option<nat> {
    if field == "ran_test_names" then Some(0)
    else if field == "failed_test_names" then Some(12)
    else if field == "flaked_test_names" then Some(13)
    else None
  }

  const RanTestOf := "SELECT 1 FROM prow_job_run_tests JOIN tests ON tests.id = prow_job_run_tests.test_id WHERE "
  const SameRun := "prow_job_run_tests.prow_job_run_id = prow_job_runs.id"
  const SameRelease := "prow_job_run_tests.prow_job_run_release = prow_job_runs.prow_job_release"
  const SameTime := "prow_job_run_tests.prow_job_run_timestamp = prow_job_runs.timestamp"
  const NotBefore := "prow_job_run_tests.prow_job_run_timestamp >= "

  /** The conditions of the subquery, the last one on the name if there is one. */
  function TestConditions(status: nat, lookback: int, onName: Option<Fragment>): seq<Fragment> {
    [Fragment([Lit(SameRun)], []), Fragment([Lit(SameRelease)], []), Fragment([Lit(SameTime)], []),
     Fragment([Lit(NotBefore)] + [Hole], [Instant(lookback)])] +
    (if status == 0 then [] else [Fragment([Lit("prow_job_run_tests.status = " + Itoa(status))], [])]) +
    (if onName.None? then [] else [onName.value])
  }

  function Exists(conditions: seq<Fragment>): Fragment {
    Fragment([Lit("EXISTS ")] + Paren([Lit(RanTestOf)] + Join(Texts(conditions), And)), AllArgs(conditions))
  }

  /** `testNameFilterSQL`. */
  function TestNameFilter(item: FilterItem, status: nat, lookback: int): Result<Fragment> {
    var pattern := FilterSql.Text(Pattern(item.op, LikePattern.EscapeLikeMetachars(item.value)));
    var isName := Fragment([Lit("tests.name = ")] + [Hole], [FilterSql.Text(item.value)]);
    var likeName := Fragment([Lit("tests.name ILIKE ")] + [Hole], [pattern]);
    var r := match item.op
      case IsEmpty =>
        var f := Exists(TestConditions(status, lookback, None));
        Ok(Fragment([Lit("NOT ")] + f.text, f.args))
      case IsNotEmpty => Ok(Exists(TestConditions(status, lookback, None)))
      case HasEntry => Ok(Exists(TestConditions(status, lookback, Some(isName))))
      case Equals => Ok(Exists(TestConditions(status, lookback, Some(isName))))
      case Arithmetic(_) => Err("unsupported operator")
      case Other(_) => Err("unsupported operator")
      case _ => Ok(Exists(TestConditions(status, lookback, Some(likeName))));
    match r
    case Err(m) => Err(m)
    case Ok(f) => Ok(if item.negated then Fragment([Lit("NOT")] + Paren(f.text), f.args) else f)
  }

  /** How the job-run report knows its columns. */
  datatype Columns = Columns(aliases: map<string, string>, types: string -> ColumnType)

  function FromCondition(c: Condition): Fragment {
    Fragment(Render(PostgreSql, c.sql, Hole), if c.param.Some? then [c.param.value] else [])
  }

  /** What one item contributes: a test-name subquery, an aliased column or the generic condition. */
  function ItemFragment(columns: Columns, item: FilterItem, lookback: int): Result<Fragment> {
    if TestNameStatus(item.field).Some? then TestNameFilter(item, TestNameStatus(item.field).value, lookback)
    else if item.field in columns.aliases then
      match FilterItemToSQL(item, columns.aliases[item.field])
      case Err(m) => Err(m)
      case Ok(c) => Ok(FromCondition(c))
    else Ok(FromCondition(FilterFieldToSQL(item, Some(columns.types(item.field)))))
  }

  /** Arguments for exactly the holes, and no connective outside parentheses. */
  predicate WellFormed(f: Fragment) {
    HoleCount(f.text) == |f.args| && Level(f.text, 0)
  }

  lemma Prefixed(word: string, f: Fragment)
    requires HoleCount(f.text) == |f.args| && Level(f.text, 1)
    ensures WellFormed(Fragment([Lit(word)] + Paren(f.text), f.args))
  {
    LevelParen(f.text, 0);
    LevelPlain(Lit(word), 0);
    LevelConcat([Lit(word)], Paren(f.text), 0);
    ParenHoles(f.text);
    OneToken(Lit(word));
    HoleCountConcat([Lit(word)], Paren(f.text));
  }

  lemma LitHole(word: string, param: Param)
    ensures WellFormed(Fragment([Lit(word)] + [Hole], [param])) && WellFormed(Fragment([Lit(word)], []))
  {
    LevelPlain(Lit(word), 0);
    LevelPlain(Hole, 0);
    LevelConcat([Lit(word)], [Hole], 0);
    OneToken(Lit(word));
    OneToken(Hole);
    HoleCountConcat([Lit(word)], [Hole]);
  }

  /** Joined pieces are level inside parentheses. */
  lemma {:induction false} JoinIsLevel(pieces: seq<Text>, connective: Token, d: nat)
    requires (connective == And || connective == Or) && d > 0
    requires forall i :: 0 <= i < |pieces| ==> Level(pieces[i], 0)
    ensures Level(Join(pieces, connective), d)
  {
    if pieces != [] {
      LevelDeeper(pieces[0], d, d);
      if |pieces| > 1 {
        JoinIsLevel(pieces[1..], connective, d);
        assert Level([connective], d) by { assert [connective][1..] == []; }
        LevelConcat([connective], Join(pieces[1..], connective), d);
        LevelConcat(pieces[0], [connective] + Join(pieces[1..], connective), d);
      }
    }
  }

  lemma ExistsIsWellFormed(conditions: seq<Fragment>)
    requires forall i :: 0 <= i < |conditions| ==> WellFormed(conditions[i])
    ensures WellFormed(Exists(conditions))
  {
    BindJoined(conditions, And);
    JoinIsLevel(Texts(conditions), And, 1);
    var joined := Join(Texts(conditions), And);
    LevelPlain(Lit(RanTestOf), 1);
    LevelConcat([Lit(RanTestOf)], joined, 1);
    OneToken(Lit(RanTestOf));
    HoleCountConcat([Lit(RanTestOf)], joined);
    Prefixed("EXISTS ", Fragment([Lit(RanTestOf)] + joined, AllArgs(conditions)));
  }

  lemma TestConditionsAreWellFormed(status: nat, lookback: int, onName: Option<Fragment>)
    requires onName.Some? ==> WellFormed(onName.value)
    ensures forall i :: 0 <= i < |TestConditions(status, lookback, onName)| ==>
              WellFormed(TestConditions(status, lookback, onName)[i])
  {
    var since := Instant(lookback);
    LitHole(SameRun, since);
    LitHole(SameRelease, since);
    LitHole(SameTime, since);
    LitHole(NotBefore, since);
    LitHole("prow_job_run_tests.status = " + Itoa(status), since);
    hide WellFormed;
  }

  lemma LevelDeeper(t: Text, d: nat, n: nat)
    requires Level(t, 0) && d == n
    ensures Scan(t, d) == Some(n)
  {
    ScanDeeper(t, 0, d);
  }

  lemma {:induction false} ScanDeeper(t: Text, d: nat, more: nat)
    requires Scan(t, d).Some?
    ensures Scan(t, d + more) == Some(Scan(t, d).value + more)
  {
    if t != [] {
      match t[0]
      case Open => ScanDeeper(t[1..], d + 1, more);
      case Close => ScanDeeper(t[1..], d - 1, more);
      case _ => ScanDeeper(t[1..], d, more);
    }
  }

  lemma TestNameFragmentIsWellFormed(item: FilterItem, status: nat, lookback: int)
    requires TestNameFilter(item, status, lookback).Ok?
    ensures WellFormed(TestNameFilter(item, status, lookback).value)
  {
    var pattern := FilterSql.Text(Pattern(item.op, LikePattern.EscapeLikeMetachars(item.value)));
    var isName := Fragment([Lit("tests.name = ")] + [Hole], [FilterSql.Text(item.value)]);
    var likeName := Fragment([Lit("tests.name ILIKE ")] + [Hole], [pattern]);
    LitHole("tests.name = ", FilterSql.Text(item.value));
    LitHole("tests.name ILIKE ", pattern);
    var onName := if item.op.IsEmpty? || item.op.IsNotEmpty? then None
                  else if item.op.HasEntry? || item.op.Equals? then Some(isName) else Some(likeName);
    TestConditionsAreWellFormed(status, lookback, onName);
    hide TestConditions;
    var exists_ := Exists(TestConditions(status, lookback, onName));
    ExistsIsWellFormed(TestConditions(status, lookback, onName));
    hide Exists;
    var f := exists_;
    if item.op.IsEmpty? {
      f := Fragment([Lit("NOT ")] + exists_.text, exists_.args);
      LevelPlain(Lit("NOT "), 0);
      LevelConcat([Lit("NOT ")], exists_.text, 0);
      OneToken(Lit("NOT "));
      HoleCountConcat([Lit("NOT ")], exists_.text);
    }
    LevelDeeper(f.text, 1, 1);
    Prefixed("NOT", f);
  }

  /** Comparisons and unknown operators are refused on test names, unknown ones on aliased columns too. */
  lemma ItemIsRefusedIff(columns: Columns, item: FilterItem, lookback: int)
    ensures ItemFragment(columns, item, lookback).Err? <==>
            if TestNameStatus(item.field).Some? then item.op.Arithmetic? || item.op.Other?
            else item.field in columns.aliases && item.op.Other?
  {
  }

  lemma ItemFragmentIsWellFormed(columns: Columns, item: FilterItem, lookback: int)
    ensures ItemFragment(columns, item, lookback).Ok? ==> WellFormed(ItemFragment(columns, item, lookback).value)
  {
    if TestNameStatus(item.field).Some? {
      if ItemFragment(columns, item, lookback).Ok? {
        TestNameFragmentIsWellFormed(item, TestNameStatus(item.field).value, lookback);
      }
    } else if ItemFragment(columns, item, lookback).Ok? {
      var c := if item.field in columns.aliases then FilterItemToSQL(item, columns.aliases[item.field]).value
               else FilterFieldToSQL(item, Some(columns.types(item.field)));
      RenderHoles(PostgreSql, c.sql);
      RenderIsLevel(PostgreSql, c.sql, Hole, 0);
      var column := if item.field in columns.aliases then columns.aliases[item.field] else item.field;
      ParamsFillHoles(Go(_ => None, _ => None, x => x), item, column, Some(columns.types(item.field)));
    }
  }

  /** The arguments of consecutive fragments, one after the other. */
  function AllArgs(fragments: seq<Fragment>): seq<Param> {
    if fragments == [] then [] else fragments[0].args + AllArgs(fragments[1..])
  }

  function Texts(fragments: seq<Fragment>): (texts: seq<Text>)
    ensures |texts| == |fragments|
  {
    seq(|fragments|, i requires 0 <= i < |fragments| => fragments[i].text)
  }

  /** Each fragment with its own arguments in place. */
  function BoundTexts(fragments: seq<Fragment>): (texts: seq<Text>)
    ensures |texts| == |fragments|
  {
    seq(|fragments|, i requires 0 <= i < |fragments| => Bind(fragments[i].text, fragments[i].args))
  }

  /** Binding all arguments to the joined text binds each fragment's own arguments to it. */
  lemma {:induction false} BindJoined(fragments: seq<Fragment>, connective: Token)
    requires forall i :: 0 <= i < |fragments| ==> WellFormed(fragments[i])
    requires connective == And || connective == Or
    ensures Bind(Join(Texts(fragments), connective), AllArgs(fragments)) == Join(BoundTexts(fragments), connective)
    ensures HoleCount(Join(Texts(fragments), connective)) == |AllArgs(fragments)|
  {
    if fragments != [] {
      var head, rest := fragments[0], fragments[1..];
      assert Texts(fragments)[1..] == Texts(rest) && BoundTexts(fragments)[1..] == BoundTexts(rest);
      BindJoined(rest, connective);
      if |fragments| == 1 {
        assert AllArgs(fragments) == head.args;
      } else {
        var tail := [connective] + Join(Texts(rest), connective);
        assert tail[1..] == Join(Texts(rest), connective);
        BindConcat(head.text, tail, head.args, AllArgs(rest));
        HoleCountConcat(head.text, tail);
      }
    }
  }

  lemma BoundIsLevel(fragments: seq<Fragment>)
    requires forall i :: 0 <= i < |fragments| ==> WellFormed(fragments[i])
    ensures forall i :: 0 <= i < |fragments| ==> Level(BoundTexts(fragments)[i], 0)
  {
    forall i | 0 <= i < |fragments| ensures Level(BoundTexts(fragments)[i], 0) {
      BindIsLevel(fragments[i].text, fragments[i].args, 0);
    }
  }

  function Connective(link: string): Token {
    if link == LinkOr then Or else And
  }

  lemma AllArgsAppend(fragments: seq<Fragment>, f: Fragment)
    ensures AllArgs(fragments + [f]) == AllArgs(fragments) + f.args
  {
    if fragments == [] {
      assert (fragments + [f])[1..] == [];
    } else {
      assert (fragments + [f])[1..] == fragments[1..] + [f];
      AllArgsAppend(fragments[1..], f);
    }
  }

  /** The fragments of the items, in order, up to the first that is refused. */
  ghost predicate FragmentsOf(columns: Columns, items: seq<FilterItem>, lookback: int, fragments: seq<Fragment>) {
    |fragments| == |items| && forall i :: 0 <= i < |items| ==>
      ItemFragment(columns, items[i], lookback) == Ok(fragments[i])
  }

  /**
   `applyJobRunFilters`: the clause and its arguments, or the validation error. Once the arguments are
   bound, a parser finds in the clause exactly the individually bound items, in order. Without items
   there is no clause.
   */
  method ApplyJobRunFilters(columns: Columns, filter: Filter, lookback: int)
    returns (r: Result<Option<Fragment>>, ghost fragments: seq<Fragment>)
    ensures r.Err? <==> exists i :: 0 <= i < |filter.items| && ItemFragment(columns, filter.items[i], lookback).Err?
    ensures r.Ok? ==> FragmentsOf(columns, filter.items, lookback, fragments) && (r.value.None? <==> filter.items == [])
    ensures r.Ok? && r.value.Some? ==>
              var clause := r.value.value;
              && HoleCount(clause.text) == |clause.args|
              && clause.args == AllArgs(fragments)
              && exists inner :: Bind(clause.text, clause.args) == Paren(inner) &&
                   TopLevel(inner, Connective(filter.link), 0, []) == BoundTexts(fragments)
  {
    var clauses: seq<Text>, allArgs: seq<Param> := [], [];
    fragments := [];
    if filter.items == [] {
      return Ok(None), fragments;
    }
    assert allArgs == AllArgs(fragments);
    hide AllArgs, ItemFragment, TopLevel, Bind, HoleCount, Join, Paren, FragmentsOf;
    for i := 0 to |filter.items|
      invariant FragmentsOf(columns, filter.items[..i], lookback, fragments)
      invariant clauses == Texts(fragments) && allArgs == AllArgs(fragments)
    {
      var f := ItemFragment(columns, filter.items[i], lookback);
      if f.Err? {
        return Err(f.message), fragments;
      }
      FragmentsGrow(columns, filter.items, i, lookback, fragments, f.value);
      clauses := clauses + [f.value.text];
      allArgs := allArgs + f.value.args;
      fragments := fragments + [f.value];
    }
    assert filter.items[..|filter.items|] == filter.items;
    var joiner := Connective(filter.link);
    var text := Paren(Join(clauses, joiner));
    r := Ok(Some(Fragment(text, allArgs)));
    ClauseParses(columns, filter.items, lookback, fragments, joiner);
  }

  lemma FragmentsGrow(columns: Columns, items: seq<FilterItem>, i: nat, lookback: int, fragments: seq<Fragment>,
                      f: Fragment)
    requires i < |items| && FragmentsOf(columns, items[..i], lookback, fragments) &&
             ItemFragment(columns, items[i], lookback) == Ok(f)
    ensures FragmentsOf(columns, items[..i + 1], lookback, fragments + [f])
    ensures AllArgs(fragments + [f]) == AllArgs(fragments) + f.args
    ensures Texts(fragments + [f]) == Texts(fragments) + [f.text]
  {
    AllArgsAppend(fragments, f);
    hide AllArgs, ItemFragment;
    assert items[..i + 1] == items[..i] + [items[i]];
  }

  lemma ClauseParses(columns: Columns, items: seq<FilterItem>, lookback: int, fragments: seq<Fragment>, joiner: Token)
    requires items != [] && FragmentsOf(columns, items, lookback, fragments) && (joiner == And || joiner == Or)
    ensures var text := Paren(Join(Texts(fragments), joiner));
            && HoleCount(text) == |AllArgs(fragments)|
            && Bind(text, AllArgs(fragments)) == Paren(Join(BoundTexts(fragments), joiner))
            && TopLevel(Join(BoundTexts(fragments), joiner), joiner, 0, []) == BoundTexts(fragments)
  {
    forall i | 0 <= i < |fragments| ensures WellFormed(fragments[i]) {
      ItemFragmentIsWellFormed(columns, items[i], lookback);
    }
    BindJoined(fragments, joiner);
    BoundIsLevel(fragments);
    JoinParses(BoundTexts(fragments), joiner);
    var inner, args := Join(Texts(fragments), joiner), AllArgs(fragments);
    ParenHoles(inner);
    assert Paren(inner) == [Open] + (inner + [Close]);
    assert args + [] == args;
    BindConcat(inner, [Close], args, []);
    assert Bind([Close], []) == [Close];
    assert ([Open] + (inner + [Close]))[1..] == inner + [Close];
    assert Bind(Paren(inner), args) == [Open] + Bind(inner + [Close], args);
  }

  /** What a clause says about a row, given what each piece between its connectives says. */
  function ClauseTruth(pieces: seq<Text>, connective: Token, says: Text -> Truth): Truth
    requires pieces != []
  {
    if |pieces| == 1 then says(pieces[0])
    else if connective == Or then TriOr(says(pieces[0]), ClauseTruth(pieces[1..], connective, says))
    else TriAnd(says(pieces[0]), ClauseTruth(pieces[1..], connective, says))
  }

  ghost predicate SomeSays(pieces: seq<Text>, says: Text -> Truth) {
    exists i :: 0 <= i < |pieces| && says(pieces[i]) == True
  }

  ghost predicate AllSay(pieces: seq<Text>, says: Text -> Truth) {
    forall i :: 0 <= i < |pieces| ==> says(pieces[i]) == True
  }

  lemma {:induction false} ClauseTruthIsLink(pieces: seq<Text>, connective: Token, says: Text -> Truth)
    requires pieces != []
    ensures ClauseTruth(pieces, connective, says) == True <==>
            if connective == Or then SomeSays(pieces, says) else AllSay(pieces, says)
  {
    if |pieces| > 1 {
      var rest := pieces[1..];
      ClauseTruthIsLink(rest, connective, says);
      if i :| 0 <= i < |pieces| && says(pieces[i]) == True && i > 0 { assert rest[i - 1] == pieces[i]; }
      if i :| 0 <= i < |rest| && says(rest[i]) == True { assert pieces[i + 1] == rest[i]; }
      if AllSay(rest, says) {
        forall i | 1 <= i < |pieces| ensures says(pieces[i]) == True { assert rest[i - 1] == pieces[i]; }
      } else {
        var i :| 0 <= i < |rest| && says(rest[i]) != True;
        assert pieces[i + 1] == rest[i];
      }
    }
  }

  /**
   The bound clause selects a row exactly when the individually bound items do under the link: any of
   them with "or", all of them otherwise.
   */
  lemma ClauseSelectsLinked(columns: Columns, items: seq<FilterItem>, lookback: int, fragments: seq<Fragment>,
                            link: string, inner: Text, says: Text -> Truth)
    requires items != [] && FragmentsOf(columns, items, lookback, fragments)
    requires Bind(Paren(Join(Texts(fragments), Connective(link))), AllArgs(fragments)) == Paren(inner)
    ensures var pieces := TopLevel(inner, Connective(link), 0, []);
            && pieces != []
            && (ClauseTruth(pieces, Connective(link), says) == True <==>
                  if link == LinkOr then SomeSays(BoundTexts(fragments), says) else AllSay(BoundTexts(fragments), says))
  {
    var joiner := Connective(link);
    ClauseParses(columns, items, lookback, fragments, joiner);
    SameInner(inner, Join(BoundTexts(fragments), joiner));
    ClauseTruthIsLink(BoundTexts(fragments), joiner, says);
  }

  lemma SameInner(a: Text, b: Text)
    requires Paren(a) == Paren(b)
    ensures a == b
  {
    assert |Paren(a)| == |Paren(b)|;
    assert Paren(a)[1..|a| + 1] == a && Paren(b)[1..|b| + 1] == b;
  }
}
