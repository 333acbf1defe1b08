/**
 Filter items evaluated in memory (pkg/filter/filterable.go:611-735), against the PostgreSQL condition of the
 same item. For each type of column the rows selected are the same on all rows exactly under a condition on the item.
 */
module FilterMemory {
  import opened Common
  import opened LikePattern
  import opened FilterSql

  /** `filterNumerical`. */
  function FilterNumerical(go: Go, item: FilterItem, value: real): Result<bool> {
    if item.value == "" then Ok(true)
    else
      match go.parseFloat(item.value)
      case None => Err("cannot parse number")
      case Some(comparison) =>
        if item.op.Arithmetic? then Ok(Decide(item.op.rel, value == comparison, value < comparison))
        else if item.op.IsEmpty? then Ok(value == 0.0)
        else if item.op.IsNotEmpty? then Ok(value != 0.0)
        else Err("unknown numeric field operator")
  }

  /** `filterTimestamp`; an unset timestamp is the zero time. */
  function FilterTimestamp(go: Go, item: FilterItem, value: Option<int>): Result<bool> {
    if item.op.IsEmpty? then Ok(value.None?)
    else if item.op.IsNotEmpty? then Ok(value.Some?)
    else if item.value == "" then Ok(true)
    else if value.None? then Ok(false)
    else
      match go.parseTime(item.value)
      case None => Err("failed to parse timestamp filter value")
      case Some(comparison) =>
        if item.op.Arithmetic? then Ok(Decide(item.op.rel, value.value == comparison, value.value < comparison))
        else Err("unknown timestamp field operator")
  }

  /** `Filter` negates the raw result. */
  predicate Accepts(item: FilterItem, raw: Result<bool>) {
    raw.Ok? && raw.value != item.negated
  }

  /** `filterString`. */
  function FilterString(item: FilterItem, value: string): Result<bool> {
    match item.op
    case Contains => Ok(ContainsText(value, item.value, Exact))
    case Equals => Ok(TrimSpace(value) == item.value)
    case StartsWith => Ok(LikePattern.HasPrefix(value, item.value, Exact))
    case EndsWith => Ok(LikePattern.HasSuffix(value, item.value, Exact))
    case IsEmpty => Ok(value == "")
    case IsNotEmpty => Ok(value != "")
    case _ => Err("unknown string field operator")
  }

  /** `filterArray`: the operator is not looked at. */
  method FilterArray(item: FilterItem, list: seq<string>) returns (r: Result<bool>)
    ensures r == Ok(SomeContains(list, item.value))
  {
    for i := 0 to |list|
      invariant forall k :: 0 <= k < i ==> !ContainsText(list[k], item.value, Exact)
    {
      if ContainsText(list[i], item.value, Exact) {
        return Ok(true);
      }
    }
    return Ok(false);
  }

  predicate SomeContains(list: seq<string>, value: string) {
    exists i :: 0 <= i < |list| && ContainsText(list[i], value, Exact)
  }

  /** PostgreSQL selects the row. */
  predicate Selects(db: Db, item: FilterItem, columnType: ColumnType, v: Value) {
    EvalPostgres(db, item, columnType, v) == Holds(True)
  }

  // ---------------------------------------------------------------------------------------
  // Numbers and timestamps

  /** Some row is selected by a relation to any operand, negated or not. */
  lemma SelectsSome(db: Db, item: FilterItem, operand: Value) returns (v: Value)
    requires (item.op.Equals? || item.op.Arithmetic?) && (operand.Num? || operand.Time?)
    ensures if operand.Num? then v.Num? else v.Time?
    ensures Related(db, item, Some(operand), v) == Holds(True)
  {
    var less := if operand.Num? then Num(operand.r - 1.0) else Time(operand.t - 1);
    var more := if operand.Num? then Num(operand.r + 1.0) else Time(operand.t + 1);
    v := if Related(db, item, Some(operand), operand) == Holds(True) then operand
         else if Related(db, item, Some(operand), less) == Holds(True) then less else more;
  }

  /** Different readings of a value select different rows. */
  lemma SelectionsDiffer(db: Db, item: FilterItem, columnType: ColumnType, a: Option<Value>, b: Option<Value>)
    returns (v: Value)
    requires (item.op.Equals? || item.op.Arithmetic?) && a != b
    requires columnType == NumericalType || columnType == TimestampType
    requires forall x :: Some(x) == a || Some(x) == b ==> !x.Null? && HasType(x, columnType)
    ensures HasType(v, columnType) && !v.Null?
    ensures (Related(db, item, a, v) == Holds(True)) != (Related(db, item, b, v) == Holds(True))
  {
    assert a.Some? ==> Some(a.value) == a;
    assert b.Some? ==> Some(b.value) == b;
    if a.None? {
      v := SelectsSome(db, item, b.value);
    } else if b.None? {
      v := SelectsSome(db, item, a.value);
    } else {
      v := OperandsDiffer(db, RelationOf(item.op), a.value, b.value);
    }
  }

  /** The operand of a relation as PostgreSQL reads it. */
  function ReadByPostgres(db: Db, item: FilterItem, columnType: ColumnType): Option<Value> {
    PostgresOperand(db, Rel(EQ, ""), Some(Text(item.value)), columnType)
  }

  lemma RelationSelects(db: Db, item: FilterItem, columnType: ColumnType, v: Value)
    requires item.op.Equals? || item.op.Arithmetic?
    ensures EvalPostgres(db, item, columnType, v) == Related(db, item, ReadByPostgres(db, item, columnType), v)
  {
    PostgresRelation(db, item, columnType, v);
  }

  /** On other types of columns a text operator, "has entry" and an unknown operator select nothing. */
  lemma RefusedSelectsNothing(db: Db, item: FilterItem, columnType: ColumnType, v: Value)
    requires IsTextOperator(item.op) || item.op.HasEntry? || item.op.Other?
    requires columnType == NumericalType || columnType == TimestampType
    ensures EvalPostgres(db, item, columnType, v) == DbError
  {
    var go := Go(_ => None, _ => None, c => c);
    if IsTextOperator(item.op) {
      TextIsRefused(db, go, item, columnType, v);
    } else {
      EntryAgrees(db, go, item, columnType, v);
    }
  }

  /** When memory and PostgreSQL select the same numbers. */
  ghost predicate NumbersAgree(db: Db, go: Go, item: FilterItem) {
    match item.op
    case Arithmetic(_) =>
      if item.value == "" then item.negated else db.number(item.value) == go.parseFloat(item.value)
    case Equals => if item.value == "" then item.negated else db.number(item.value).None?
    case IsEmpty => item.value != "" && go.parseFloat(item.value).None? && !item.negated
    case IsNotEmpty => item.value == "" || (go.parseFloat(item.value).None? && item.negated)
    case _ => item.value == "" ==> item.negated
  }

  /**
   On numbers memory and PostgreSQL select the same rows, whatever the operator, exactly as `NumbersAgree`
   says: a comparison if both read the value alike, and never without a value unless it is negated.
   */
  lemma NumericalInMemoryAgreesIff(db: Db, go: Go, item: FilterItem)
    requires db.number("").None?
    ensures (forall x :: Accepts(item, FilterNumerical(go, item, x)) <==> Selects(db, item, NumericalType, Num(x)))
            <==> NumbersAgree(db, go, item)
  {
    if item.op.Equals? || item.op.Arithmetic? {
      NumericalRelation(db, go, item);
    } else if item.op.IsEmpty? || item.op.IsNotEmpty? {
      NumericalEmptiness(db, go, item);
    } else {
      forall x ensures !Selects(db, item, NumericalType, Num(x)) {
        RefusedSelectsNothing(db, item, NumericalType, Num(x));
      }
      assert Accepts(item, FilterNumerical(go, item, 0.0)) <==> item.value == "" && !item.negated;
    }
  }

  lemma NumericalRelation(db: Db, go: Go, item: FilterItem)
    requires db.number("").None? && (item.op.Equals? || item.op.Arithmetic?)
    ensures (forall x :: Accepts(item, FilterNumerical(go, item, x)) <==> Selects(db, item, NumericalType, Num(x)))
            <==> NumbersAgree(db, go, item)
    ensures item.op.Arithmetic? ==>
              forall x ::
                (FilterNumerical(go, item, x).Err? <==> EvalPostgres(db, item, NumericalType, Num(x)) == DbError)
                <==> item.value != "" && (db.number(item.value).Some? <==> go.parseFloat(item.value).Some?)
  {
    var a := ReadByPostgres(db, item, NumericalType);
    var b := if item.op.Equals? then None else ReadByProgram(go, item, NumericalType);
    forall x
      ensures EvalPostgres(db, item, NumericalType, Num(x)) == Related(db, item, a, Num(x))
      ensures item.op.Arithmetic? && item.value != "" ==> (FilterNumerical(go, item, x).Err? <==> b.None?)
      ensures item.value != "" ==>
                (Accepts(item, FilterNumerical(go, item, x)) <==> Related(db, item, b, Num(x)) == Holds(True))
    {
      RelationSelects(db, item, NumericalType, Num(x));
    }
    if item.value == "" {
      assert Accepts(item, FilterNumerical(go, item, 0.0)) <==> !item.negated;
    } else if a != b {
      var v := SelectionsDiffer(db, item, NumericalType, a, b);
      assert v == Num(v.r);
    }
  }

  lemma NumericalEmptiness(db: Db, go: Go, item: FilterItem)
    requires item.op.IsEmpty? || item.op.IsNotEmpty?
    ensures (forall x :: Accepts(item, FilterNumerical(go, item, x)) <==> Selects(db, item, NumericalType, Num(x)))
            <==> NumbersAgree(db, go, item)
  {
    forall v: Value | v.Num?
      ensures Selects(db, item, NumericalType, v) <==> (item.op.IsEmpty? <==> item.negated)
    {
      EmptinessSelects(db, item, NumericalType, v);
    }
    assert Accepts(item, FilterNumerical(go, item, 0.0)) <==>
      if item.value == "" then !item.negated
      else go.parseFloat(item.value).Some? && (item.op.IsEmpty? <==> !item.negated);
    assert Selects(db, item, NumericalType, Num(0.0)) <==> (item.op.IsEmpty? <==> item.negated);
  }

  lemma EmptinessSelects(db: Db, item: FilterItem, columnType: ColumnType, v: Value)
    requires (item.op.IsEmpty? || item.op.IsNotEmpty?) && HasType(v, columnType)
    ensures Selects(db, item, columnType, v) <==>
            (item.negated <==> if item.op.IsNotEmpty? then v.Null? else !v.Null? && v != Arr([]))
  {
    var plain := if item.op.IsNotEmpty? then IsNotNull(item.field)
                 else if columnType == ArrayType then NullOrEmptyArray(item.field) else IsNull(item.field);
    NotOutside(db, plain, item.negated, None, columnType, None, v);
    assert FilterFieldToSQL(item, Some(columnType)) == Condition(WrapNot(plain, item.negated), None);
    assert PostgresOperand(db, WrapNot(plain, item.negated), None, columnType) == None;
  }

  /** When memory and PostgreSQL select the same timestamps. */
  ghost predicate TimesAgree(db: Db, go: Go, item: FilterItem) {
    match item.op
    case Arithmetic(_) =>
      if item.value == "" then item.negated else db.timestamp(item.value) == go.parseTime(item.value)
    case Equals => if item.value == "" then item.negated else db.timestamp(item.value).None?
    case IsEmpty => true
    case IsNotEmpty => true
    case _ => item.value == "" ==> item.negated
  }

  /**
   On timestamps too. On an unset one memory says false before it looks at the operator, which a negated item
   selects and SQL does not; only the tests for emptiness treat it as SQL does.
   */
  lemma TimestampInMemoryAgreesIff(db: Db, go: Go, item: FilterItem)
    requires db.timestamp("").None?
    ensures (forall t :: Accepts(item, FilterTimestamp(go, item, Some(t))) <==>
                         Selects(db, item, TimestampType, Time(t))) <==> TimesAgree(db, go, item)
    ensures (Accepts(item, FilterTimestamp(go, item, None)) <==> Selects(db, item, TimestampType, Null))
            <==> item.op.IsEmpty? || item.op.IsNotEmpty? || (item.negated <==> item.value == "")
  {
    if item.op.Equals? || item.op.Arithmetic? {
      TimestampRelation(db, go, item);
    } else if item.op.IsEmpty? || item.op.IsNotEmpty? {
      forall v | HasType(v, TimestampType)
        ensures Selects(db, item, TimestampType, v) <==> (item.negated <==> (item.op.IsNotEmpty? <==> v.Null?))
      {
        EmptinessSelects(db, item, TimestampType, v);
      }
    } else {
      forall v ensures !Selects(db, item, TimestampType, v) {
        RefusedSelectsNothing(db, item, TimestampType, v);
      }
      assert Accepts(item, FilterTimestamp(go, item, Some(0))) <==> item.value == "" && !item.negated;
    }
  }

  lemma TimestampRelation(db: Db, go: Go, item: FilterItem)
    requires db.timestamp("").None? && (item.op.Equals? || item.op.Arithmetic?)
    ensures (forall t :: Accepts(item, FilterTimestamp(go, item, Some(t))) <==>
                         Selects(db, item, TimestampType, Time(t))) <==> TimesAgree(db, go, item)
    ensures (Accepts(item, FilterTimestamp(go, item, None)) <==> Selects(db, item, TimestampType, Null))
            <==> (item.negated <==> item.value == "")
  {
    var a := ReadByPostgres(db, item, TimestampType);
    var b := if item.op.Equals? then None else ReadByProgram(go, item, TimestampType);
    forall t
      ensures EvalPostgres(db, item, TimestampType, Time(t)) == Related(db, item, a, Time(t))
      ensures item.value != "" ==>
                (Accepts(item, FilterTimestamp(go, item, Some(t))) <==> Related(db, item, b, Time(t)) == Holds(True))
    {
      RelationSelects(db, item, TimestampType, Time(t));
    }
    RelationSelects(db, item, TimestampType, Null);
    hide EvalPostgres;
    if item.value == "" {
      assert Accepts(item, FilterTimestamp(go, item, Some(0))) <==> !item.negated;
    } else if a != b {
      var v := SelectionsDiffer(db, item, TimestampType, a, b);
      assert v == Time(v.t);
    }
  }

  /**
   PostgreSQL reads a number behind a space, which the program refuses: it selects rows where BigQuery
   and memory report an error.
   */
  lemma NumberReadByPostgresOnly(db: Db, go: Go)
    requires db.number(" 5") == Some(5.0) && go.parseFloat(" 5").None?
    ensures var item := FilterItem("field", false, Arithmetic(GT), " 5");
            && EvalPostgres(db, item, NumericalType, Num(6.0)) == Holds(True)
            && EvalBigQuery(db, go, item, NumericalType, Num(6.0)) == DbError
            && FilterNumerical(go, item, 6.0).Err?
  {
    var item := FilterItem("field", false, Arithmetic(GT), " 5");
    PostgresRelation(db, item, NumericalType, Num(6.0));
    BigQueryRelation(db, go, item, NumericalType, Num(6.0));
    hide EvalPostgres, EvalBigQuery;
  }

  /** The same with a date without a time, such as "2024-01-01". */
  lemma TimeReadByPostgresOnly(db: Db, go: Go, date: string, midnight: int)
    requires StrictTotalOrder(db.before) && date != ""
    requires db.timestamp(date) == Some(midnight) && go.parseTime(date).None?
    requires RefusesErrorText(db, FilterItem("field", false, Arithmetic(GT), date))
    ensures var item := FilterItem("field", false, Arithmetic(GT), date);
            && EvalPostgres(db, item, TimestampType, Time(midnight + 1)) == Holds(True)
            && EvalBigQuery(db, go, item, TimestampType, Time(midnight + 1)) == DbError
            && FilterTimestamp(go, item, Some(midnight + 1)).Err?
  {
    var item := FilterItem("field", false, Arithmetic(GT), date);
    ArithmeticRelates(db, go, item, TimestampType, Time(midnight + 1));
    hide EvalPostgres, EvalBigQuery;
  }

  /** An item without a value: every number and every timestamp is selected in memory, and SQL reports an error. */
  lemma EmptyValueSelectsAll(db: Db, go: Go, rel: Relation, number: real, instant: int)
    requires db.number("").None? && db.timestamp("").None?
    ensures var item := FilterItem("field", false, Arithmetic(rel), "");
            && Accepts(item, FilterNumerical(go, item, number))
            && EvalPostgres(db, item, NumericalType, Num(number)) == DbError
            && Accepts(item, FilterTimestamp(go, item, Some(instant)))
            && EvalPostgres(db, item, TimestampType, Time(instant)) == DbError
  {
  }

  // ---------------------------------------------------------------------------------------
  // Strings

  /** No other character is folded like one of these. */
  ghost predicate Caseless(v: string, fold: Fold) {
    forall i, d :: 0 <= i < |v| && fold(d) == fold(v[i]) ==> d == v[i]
  }

  lemma CaselessIsExact(a: string, b: string, fold: Fold)
    requires Caseless(a, fold)
    ensures SameText(a, b, fold) <==> SameText(a, b, Exact)
  {
    if |a| == |b| {
      forall i | 0 <= i < |a| ensures fold(a[i]) == fold(b[i]) <==> Exact(a[i]) == Exact(b[i]) {}
    }
  }

  lemma CaselessMatches(form: Form, s: string, v: string, fold: Fold)
    requires Caseless(v, fold)
    ensures Matches(form, s, v, fold) <==> Matches(form, s, v, Exact)
  {
    if |v| <= |s| {
      CaselessIsExact(v, s[..|v|], fold);
      CaselessIsExact(v, s[|s| - |v|..], fold);
    }
    forall k | 0 <= k <= |s| ensures TextAt(s, v, k, fold) <==> TextAt(s, v, k, Exact) {
      if k + |v| <= |s| { CaselessIsExact(v, s[k..k + |v|], fold); }
    }
  }

  /** A text of the same length in another case: every form matches it with folding, and none without. */
  lemma OtherCase(v: string, fold: Fold) returns (s: string)
    requires !Caseless(v, fold)
    ensures forall form :: Matches(form, s, v, fold) && !Matches(form, s, v, Exact)
  {
    var i, d :| 0 <= i < |v| && fold(d) == fold(v[i]) && d != v[i];
    s := v[i := d];
    assert s[i] == d;
    ExactTextIsEqual(v, s);
    SameLengthMatches(s, v, fold);
    SameLengthMatches(s, v, Exact);
    hide Matches;
  }

  /** Texts of one length match in every form exactly when they are the same. */
  lemma SameLengthMatches(s: string, v: string, fold: Fold)
    requires |s| == |v|
    ensures forall form :: Matches(form, s, v, fold) <==> SameText(v, s, fold)
  {
    assert s[..|v|] == s && s[|s| - |v|..] == s && s[0..0 + |v|] == s;
    hide SameText;
    assert TextAt(s, v, 0, fold) <==> SameText(v, s, fold);
    forall k | 0 < k <= |s| ensures !TextAt(s, v, k, fold) {}
  }

  /** Strings are ordered, the empty one first, and a longer one after what it starts with. */
  ghost predicate TextOrder(before: (string, string) -> bool) {
    && StrictTotalOrder(before)
    && (forall a :: a != "" ==> before("", a))
    && forall a :: before(a, a + "a")
  }

  /** Memory and PostgreSQL select the same strings. */
  ghost predicate SameStrings(db: Db, item: FilterItem) {
    forall s :: Accepts(item, FilterString(item, s)) <==> Selects(db, item, StringType, Str(s))
  }

  /** When memory and PostgreSQL select the same strings. */
  ghost predicate StringsAgree(db: Db, item: FilterItem) {
    match item.op
    case HasEntryContaining => item.negated && item.value == ""
    case HasEntry => true
    case Other(_) => true
    case Equals => false
    case IsEmpty => false
    case IsNotEmpty => false
    case Arithmetic(rel) => item.value == "" && (if item.negated then Negate(rel) else rel) == LT
    case _ => Caseless(item.value, db.fold)
  }

  /**
   On strings the text operators select the same rows exactly when no character of the value has another case,
   as memory does not fold and PostgreSQL does. Equality never does, as memory trims the row first, and nor do
   the tests for emptiness; what memory refuses agrees only where PostgreSQL selects nothing.
   */
  lemma StringInMemoryAgreesIff(db: Db, item: FilterItem)
    requires TextOrder(db.before)
    ensures SameStrings(db, item) <==> StringsAgree(db, item)
  {
    if IsTextOperator(item.op) {
      StringText(db, item);
    } else if item.op.Equals? {
      var s := EqualityDiffers(db, item);
    } else if item.op.Arithmetic? {
      StringOrder(db, item);
    } else {
      hide Selects, TextOrder;
      if item.op.IsEmpty? || item.op.IsNotEmpty? {
        EmptinessSelects(db, item, StringType, Str(""));
      } else {
        forall s ensures !Selects(db, item, StringType, Str(s)) { EntrySelectsNoString(db, item, s); }
      }
    }
  }

  lemma EntrySelectsNoString(db: Db, item: FilterItem, s: string)
    requires item.op.HasEntry? || item.op.Other?
    ensures !Selects(db, item, StringType, Str(s))
  {
    EntryAgrees(db, Go(_ => None, _ => None, c => c), item, StringType, Str(s));
  }

  lemma TextSelects(db: Db, item: FilterItem, s: string)
    requires IsTextOperator(item.op)
    ensures Selects(db, item, StringType, Str(s)) <==>
            Matches(FormOf(item.op), s, item.value, db.fold) != item.negated
    ensures !item.op.HasEntryContaining? ==>
              (Accepts(item, FilterString(item, s)) <==>
                 Matches(FormOf(item.op), s, item.value, Exact) != item.negated)
    ensures item.op.HasEntryContaining? ==> !Accepts(item, FilterString(item, s))
  {
    PostgresTextOperators(db, item, StringType, Str(s));
    hide EvalPostgres;
  }

  lemma StringText(db: Db, item: FilterItem)
    requires IsTextOperator(item.op)
    ensures SameStrings(db, item) <==> StringsAgree(db, item)
  {
    var form, v := FormOf(item.op), item.value;
    hide Selects, FilterString, Matches;
    if item.op.HasEntryContaining? {
      forall s ensures Matches(Anywhere, s, "", db.fold) { EmptyMatches(Anywhere, s, db.fold); }
      ItselfMatches(v, db.fold);
      TextSelects(db, item, v);
      TextSelects(db, item, "");
      if v != "" { NothingContains(v, db.fold); }
      forall s | v == "" ensures Selects(db, item, StringType, Str(s)) <==> !item.negated {
        TextSelects(db, item, s);
      }
      forall s ensures !Accepts(item, FilterString(item, s)) { TextSelects(db, item, s); }
    } else if Caseless(v, db.fold) {
      forall s ensures Accepts(item, FilterString(item, s)) <==> Selects(db, item, StringType, Str(s)) {
        TextSelects(db, item, s);
        CaselessMatches(form, s, v, db.fold);
      }
    } else {
      var s := OtherCase(v, db.fold);
      assert Matches(form, s, v, db.fold) && !Matches(form, s, v, Exact);
      TextSelects(db, item, s);
    }
  }

  lemma EmptyMatches(form: Form, s: string, fold: Fold)
    ensures Matches(form, s, "", fold)
  {
    assert TextAt(s, "", 0, fold);
  }

  lemma ItselfMatches(v: string, fold: Fold)
    ensures forall form :: Matches(form, v, v, fold)
  {
    SameLengthMatches(v, v, fold);
  }

  lemma NothingContains(v: string, fold: Fold)
    requires v != ""
    ensures !Matches(Anywhere, "", v, fold)
  {
  }

  lemma {:induction false} TrimShrinks(s: string)
    ensures |TrimLeft(s)| <= |s| && (s != "" && IsSpace(s[0]) ==> |TrimLeft(s)| < |s|)
  {
    if s != "" && IsSpace(s[0]) { TrimShrinks(s[1..]); }
  }

  lemma {:induction false} TrimRightShrinks(s: string)
    ensures |TrimRight(s)| <= |s|
  {
    if s != "" && IsSpace(s[|s| - 1]) { TrimRightShrinks(s[..|s| - 1]); }
  }

  /** A trimmed text with a space behind it is trimmed to itself. */
  lemma TrimsSpaceBehind(v: string)
    requires TrimSpace(v) == v
    ensures TrimSpace(v + " ") == v
  {
    TrimShrinks(v);
    TrimRightShrinks(TrimLeft(v));
    var s := v + " ";
    if v == "" {
      assert s[1..] == "";
    } else {
      assert s[0] == v[0] && s[..|s| - 1] == v;
      assert TrimLeft(s) == s;
    }
  }

  /** A string on which the trimmed comparison in memory and SQL's differ, whatever the value. */
  lemma EqualityDiffers(db: Db, item: FilterItem) returns (s: string)
    requires item.op.Equals?
    ensures Accepts(item, FilterString(item, s)) != Selects(db, item, StringType, Str(s))
  {
    var v := item.value;
    s := v;
    if TrimSpace(v) == v {
      s := v + " ";
      TrimsSpaceBehind(v);
    }
    RelationSelects(db, item, StringType, Str(s));
    hide EvalPostgres, TrimSpace;
    assert (TrimSpace(s) == v) != (s == v);
  }

  lemma OrderSelects(db: Db, item: FilterItem, s: string)
    requires item.op.Arithmetic? && StrictTotalOrder(db.before)
    ensures var rel := if item.negated then Negate(item.op.rel) else item.op.rel;
            Selects(db, item, StringType, Str(s)) <==> Decide(rel, s == item.value, db.before(s, item.value))
    ensures !Accepts(item, FilterString(item, s))
  {
    RelationSelects(db, item, StringType, Str(s));
    NegateIsNot(db, item.op.rel, Str(s), Str(item.value));
    hide EvalPostgres;
  }

  lemma StringOrder(db: Db, item: FilterItem)
    requires item.op.Arithmetic? && TextOrder(db.before)
    ensures SameStrings(db, item) <==> StringsAgree(db, item)
  {
    hide Selects, FilterString, Decide;
    var v, rel := item.value, if item.negated then Negate(item.op.rel) else item.op.rel;
    var after := v + "a";
    forall s ensures Selects(db, item, StringType, Str(s)) <==> Decide(rel, s == v, db.before(s, v)) {
      OrderSelects(db, item, s);
    }
    forall s ensures !Accepts(item, FilterString(item, s)) { OrderSelects(db, item, s); }
    assert |after| != |v|;
    assert Selects(db, item, StringType, Str(v)) <==> Decide(rel, true, false);
    assert Selects(db, item, StringType, Str(after)) <==> Decide(rel, false, false);
    assert Selects(db, item, StringType, Str("")) <==> Decide(rel, v == "", v != "");
    RelationsOnThree(rel);
  }

  /** Only "less" fails on an equal and on a later string. */
  lemma RelationsOnThree(rel: Relation)
    ensures !Decide(rel, true, false) && !Decide(rel, false, false) <==> rel == LT
    ensures forall equal, less :: Decide(LT, equal, less) == less
  {
  }

  /**
   The tests for emptiness row by row: on numbers, given a value that can be read, memory and PostgreSQL differ on 0
   alone, and on strings on the empty one alone.
   */
  lemma EmptinessDiffersAt(db: Db, go: Go, item: FilterItem, x: real, s: string)
    requires item.op.IsEmpty? || item.op.IsNotEmpty?
    ensures var agree := Accepts(item, FilterNumerical(go, item, x)) <==> Selects(db, item, NumericalType, Num(x));
            item.value != "" && go.parseFloat(item.value).Some? ==> (agree <==> x != 0.0)
    ensures (Accepts(item, FilterString(item, s)) <==> Selects(db, item, StringType, Str(s))) <==> s != ""
  {
    EmptinessSelects(db, item, NumericalType, Num(x));
    EmptinessSelects(db, item, StringType, Str(s));
    hide Selects;
  }

  // ---------------------------------------------------------------------------------------
  // Arrays

  function Elements(list: seq<string>): (elems: seq<Option<string>>)
    ensures |elems| == |list| && forall i :: 0 <= i < |list| ==> elems[i] == Some(list[i])
  {
    seq(|list|, i requires 0 <= i < |list| => Some(list[i]))
  }

  /** When memory and PostgreSQL select the same arrays. */
  ghost predicate ArraysAgree(db: Db, item: FilterItem) {
    match item.op
    case Contains => Caseless(item.value, db.fold)
    case HasEntryContaining => Caseless(item.value, db.fold)
    case StartsWith => item.value == ""
    case EndsWith => item.value == ""
    case _ => false
  }

  /** Memory selects the array, by what `FilterArray` returns. */
  predicate AcceptsArray(item: FilterItem, list: seq<string>) {
    Accepts(item, Ok(SomeContains(list, item.value)))
  }

  lemma ArrayTextSelects(db: Db, item: FilterItem, list: seq<string>)
    requires IsTextOperator(item.op)
    ensures Selects(db, item, ArrayType, Arr(Elements(list))) <==>
            (exists i :: 0 <= i < |list| && Matches(FormOf(item.op), list[i], item.value, db.fold)) != item.negated
  {
    var elems := Elements(list);
    PostgresTextOperators(db, item, ArrayType, Arr(elems));
    hide EvalPostgres, Matches;
    var form := FormOf(item.op);
    forall i | 0 <= i < |list|
      ensures Matches(form, elems[i].value, item.value, db.fold) <==> Matches(form, list[i], item.value, db.fold) {}
  }

  /**
   On arrays memory looks for the value in an entry whatever the operator. It selects what PostgreSQL selects
   exactly for "contains" and "has entry containing" with a value without another case, and for "starts with"
   and "ends with" without a value. The tests for emptiness disagree on the empty array at least.
   */
  lemma ArrayInMemoryAgreesIff(db: Db, item: FilterItem)
    requires IsLowering(db.fold) && !item.op.Equals? && !item.op.Arithmetic?
    ensures (forall list :: AcceptsArray(item, list) <==> Selects(db, item, ArrayType, Arr(Elements(list))))
            <==> ArraysAgree(db, item)
  {
    hide Selects;
    if ArraysAgree(db, item) {
      forall list ensures AcceptsArray(item, list) <==> Selects(db, item, ArrayType, Arr(Elements(list))) {
        ArrayAgrees(db, item, list);
      }
    } else {
      var list := ArrayDiffers(db, item);
    }
  }

  lemma ArrayAgrees(db: Db, item: FilterItem, list: seq<string>)
    requires ArraysAgree(db, item)
    ensures AcceptsArray(item, list) <==> Selects(db, item, ArrayType, Arr(Elements(list)))
  {
    var form, v := FormOf(item.op), item.value;
    ArrayTextSelects(db, item, list);
    hide Selects, Caseless;
    forall i | 0 <= i < |list| ensures Matches(form, list[i], v, db.fold) <==> ContainsText(list[i], v, Exact) {
      if item.op.Contains? || item.op.HasEntryContaining? {
        CaselessMatches(form, list[i], v, db.fold);
      } else {
        EmptyMatches(form, list[i], db.fold);
        EmptyMatches(Anywhere, list[i], Exact);
      }
    }
    hide Matches, ContainsText;
  }

  /** An array that tells memory and PostgreSQL apart. */
  lemma ArrayDiffers(db: Db, item: FilterItem) returns (list: seq<string>)
    requires IsLowering(db.fold) && !item.op.Equals? && !item.op.Arithmetic? && !ArraysAgree(db, item)
    ensures AcceptsArray(item, list) != Selects(db, item, ArrayType, Arr(Elements(list)))
  {
    var v := item.value;
    hide Selects, Caseless;
    if IsTextOperator(item.op) {
      var s: string;
      if item.op.StartsWith? || item.op.EndsWith? {
        s := OneSided(FormOf(item.op), v, db.fold);
      } else {
        s := OtherCase(v, db.fold);
        assert Matches(Anywhere, s, v, db.fold) && !Matches(Anywhere, s, v, Exact);
      }
      list := [s];
      ArrayTextSelects(db, item, list);
      assert list[0] == s;
    } else if item.op.IsEmpty? || item.op.IsNotEmpty? {
      list := [];
      EmptinessSelects(db, item, ArrayType, Arr(Elements(list)));
    } else {
      var longer := v + "a";
      list := if item.op.Other? && item.negated then [] else [longer];
      EntrySelects(db, item, Elements(list));
      assert TextAt(longer, v, 0, Exact) by { assert longer[0..0 + |v|] == v; }
      if list != [] { assert list[0] == longer && |longer| != |v|; }
    }
  }

  lemma EntrySelects(db: Db, item: FilterItem, elems: seq<Option<string>>)
    requires item.op.HasEntry? || item.op.Other?
    requires None !in elems
    ensures Selects(db, item, ArrayType, Arr(elems)) <==>
            item.op.HasEntry? && (Some(item.value) in elems) != item.negated
  {
    if item.op.HasEntry? {
      var plain, text := AnyEntry(item.field), Text(item.value);
      assert FilterFieldToSQL(item, Some(ArrayType)) == Condition(WrapNot(plain, item.negated), Some(text));
      NotOutside(db, plain, item.negated, Some(text), ArrayType, Some(Str(item.value)), Arr(elems));
    } else {
      EntryAgrees(db, Go(_ => None, _ => None, c => c), item, ArrayType, Arr(elems));
    }
  }

  /** A text that contains the value but not at the side the form looks at. */
  lemma OneSided(form: Form, v: string, fold: Fold) returns (s: string)
    requires IsLowering(fold) && v != "" && !form.Anywhere?
    ensures !Matches(form, s, v, fold) && ContainsText(s, v, Exact)
  {
    var last := |v| - 1;
    var edge := if form.AtStart? then v[0] else v[last];
    var c := if edge == '%' then '_' else '%';
    assert fold(c) != fold(edge) by { assert IsMeta(c) && IsMeta('%'); }
    if form.AtStart? {
      s := [c] + v;
      assert s[..|v|][0] == c;
      assert TextAt(s, v, 1, Exact) by { assert s[1..1 + |v|] == v; }
    } else {
      s := v + [c];
      assert s[|s| - |v|..][last] == c;
      assert TextAt(s, v, 0, Exact) by { assert s[0..0 + |v|] == v; }
    }
  }
}
