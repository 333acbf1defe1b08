/**
 One filter item, three meanings: a PostgreSQL condition, a BigQuery condition and a test in memory
 (pkg/filter/filterable.go).

 Conditions are expression trees over one column in which each hole takes one parameter. They are
 evaluated in SQL's three-valued logic. Numbers are exact and instants are integers.
 */
module FilterSql {
  import opened Common
  import opened LikePattern

  datatype Relation = EQ | NE | GT | GE | LT | LE

  datatype Operator =
    | Contains | Equals | StartsWith | EndsWith | HasEntry | HasEntryContaining
    | IsEmpty | IsNotEmpty
    | Arithmetic(rel: Relation)
    | Other(name: string)

  datatype FilterItem = FilterItem(field: string, negated: bool, op: Operator, value: string)

  datatype ColumnType = StringType | NumericalType | TimestampType | ArrayType | UnknownType

  /** What is bound to a hole: PostgreSQL always gets text, BigQuery typed values. */
  datatype Param = Text(text: string) | Number(number: real) | Instant(instant: int)

  datatype Sql =
    | Rel(rel: Relation, col: string)
    | ILike(col: string)
    | LowerLike(col: string)
    | ElemILike(col: string)
    | ElemLowerLike(col: string)
    | AnyEntry(col: string)
    | IsNull(col: string)
    | IsNotNull(col: string)
    | NullOrEmptyArray(col: string)
    | Not(e: Sql)
    | UnknownFilterOperator

  datatype Condition = Condition(sql: Sql, param: Option<Param>)

  function Holes(e: Sql): nat {
    match e
    case Not(inner) => Holes(inner)
    case IsNull(_) => 0
    case IsNotNull(_) => 0
    case NullOrEmptyArray(_) => 0
    case UnknownFilterOperator => 0
    case _ => 1
  }

  // ---------------------------------------------------------------------------------------
  // The compilers

  function WrapNot(e: Sql, negated: bool): Sql {
    if negated then Not(e) else e
  }

  function FormOf(op: Operator): Form {
    match op
    case StartsWith => AtStart
    case EndsWith => AtEnd
    case _ => Anywhere
  }

  function Pattern(op: Operator, text: string): string {
    FormPattern(FormOf(op), text)
  }

  /** `FilterItemToSQL`: the column is taken as it is. */
  function FilterItemToSQL(item: FilterItem, column: string): Result<Condition> {
    var text := Some(Text(item.value));
    var pattern := Some(Text(Pattern(item.op, EscapeLikeMetachars(item.value))));
    match item.op
    case HasEntry => Ok(Condition(WrapNot(AnyEntry(column), item.negated), text))
    case HasEntryContaining => Ok(Condition(WrapNot(ILike(column), item.negated), pattern))
    case Contains => Ok(Condition(WrapNot(ILike(column), item.negated), pattern))
    case Equals => Ok(Condition(WrapNot(Rel(EQ, column), item.negated), text))
    case Arithmetic(rel) => Ok(Condition(WrapNot(Rel(rel, column), item.negated), text))
    case StartsWith => Ok(Condition(WrapNot(ILike(column), item.negated), pattern))
    case EndsWith => Ok(Condition(WrapNot(ILike(column), item.negated), pattern))
    case IsEmpty => Ok(Condition(WrapNot(IsNull(column), item.negated), None))
    case IsNotEmpty => Ok(Condition(WrapNot(IsNotNull(column), item.negated), None))
    case Other(_) => Err("unsupported operator")
  }

  /** `FilterFieldToSQL`: array-aware; no type is known when the filterable is nil. */
  function FilterFieldToSQL(item: FilterItem, columnType: Option<ColumnType>): Condition {
    var isArray := columnType == Some(ArrayType);
    var pattern := Some(Text(Pattern(item.op, EscapeLikeMetachars(item.value))));
    match item.op
    case HasEntryContaining =>
      Condition(WrapNot(if isArray then ElemILike(item.field) else ILike(item.field), item.negated), pattern)
    case Contains =>
      Condition(WrapNot(if isArray then ElemILike(item.field) else ILike(item.field), item.negated), pattern)
    case StartsWith =>
      Condition(WrapNot(if isArray then ElemILike(item.field) else ILike(item.field), item.negated), pattern)
    case EndsWith =>
      Condition(WrapNot(if isArray then ElemILike(item.field) else ILike(item.field), item.negated), pattern)
    case IsEmpty =>
      Condition(WrapNot(if isArray then NullOrEmptyArray(item.field) else IsNull(item.field), item.negated), None)
    case _ =>
      match FilterItemToSQL(item, item.field)
      case Ok(condition) => condition
      case Err(_) => Condition(UnknownFilterOperator, None)
  }

  function Negate(rel: Relation): Relation {
    match rel
    case EQ => NE
    case NE => EQ
    case GT => LE
    case GE => LT
    case LT => GE
    case LE => GT
  }

  /** What the program itself can parse and fold. */
  datatype Go = Go(parseFloat: string -> Option<real>, parseTime: string -> Option<int>, lower: Fold)

  function ArithmeticParam(go: Go, item: FilterItem, columnType: Option<ColumnType>): Param {
    if columnType == Some(TimestampType) then
      match go.parseTime(item.value)
      case Some(t) => Instant(t)
      case None => Text("NOT A TIMESTAMP: " + item.value)
    else
      match go.parseFloat(item.value)
      case Some(x) => Number(x)
      case None => Text("NOT A NUMBER: " + item.value)
  }

  /** `toBQStr`: negation is pushed into the operator where there is an opposite one. */
  function ToBigQuery(go: Go, item: FilterItem, columnType: Option<ColumnType>): Condition {
    var isArray := columnType == Some(ArrayType);
    var pattern := Some(Text(Pattern(item.op, ToLower(item.value, go.lower))));
    match item.op
    case HasEntry =>
      if isArray then Condition(WrapNot(AnyEntry(item.field), item.negated), Some(Text(item.value)))
      else Condition(UnknownFilterOperator, None)
    case Contains =>
      Condition(WrapNot(if isArray then ElemLowerLike(item.field) else LowerLike(item.field), item.negated), pattern)
    case HasEntryContaining =>
      Condition(WrapNot(if isArray then ElemLowerLike(item.field) else LowerLike(item.field), item.negated), pattern)
    case Equals =>
      Condition(Rel(if item.negated then NE else EQ, item.field), Some(Text(item.value)))
    case Arithmetic(rel) =>
      Condition(Rel(if item.negated then Negate(rel) else rel, item.field), Some(ArithmeticParam(go, item, columnType)))
    case StartsWith => Condition(WrapNot(LowerLike(item.field), item.negated), pattern)
    case EndsWith => Condition(WrapNot(LowerLike(item.field), item.negated), pattern)
    case IsEmpty =>
      Condition(WrapNot(if isArray then NullOrEmptyArray(item.field) else IsNull(item.field), item.negated), None)
    case IsNotEmpty => Condition(if item.negated then IsNull(item.field) else IsNotNull(item.field), None)
    case Other(_) => Condition(UnknownFilterOperator, None)
  }

  /** Every condition brings exactly the parameters its holes take. */
  lemma ParamsFillHoles(go: Go, item: FilterItem, column: string, columnType: Option<ColumnType>)
    ensures var c := FilterFieldToSQL(item, columnType); Holes(c.sql) == if c.param.Some? then 1 else 0
    ensures var c := ToBigQuery(go, item, columnType); Holes(c.sql) == if c.param.Some? then 1 else 0
    ensures FilterItemToSQL(item, column).Ok? ==>
              var c := FilterItemToSQL(item, column).value; Holes(c.sql) == if c.param.Some? then 1 else 0
    ensures FilterItemToSQL(item, column).Err? <==> item.op.Other?
  {
  }

  // ---------------------------------------------------------------------------------------
  // Evaluation

  datatype Value = Null | Str(s: string) | Num(r: real) | Time(t: int) | Arr(elems: seq<Option<string>>)

  predicate HasType(v: Value, columnType: ColumnType) {
    match v
    case Null => true
    case Str(_) => columnType == StringType
    case Num(_) => columnType == NumericalType
    case Time(_) => columnType == TimestampType
    case Arr(_) => columnType == ArrayType
  }

  datatype Truth = True | False | Unknown

  datatype Outcome = Holds(truth: Truth) | DbError

  /**
   How the databases read text, order strings and fold case, and whether BigQuery coerces a string
   parameter that is compared with a timestamp.
   */
  datatype Db = Db(number: string -> Option<real>, timestamp: string -> Option<int>,
                   before: (string, string) -> bool, fold: Fold, coercesTimestamps: bool)

  function Tri(b: bool): Truth {
    if b then True else False
  }

  function NotTri(t: Truth): Truth {
    match t
    case True => False
    case False => True
    case Unknown => Unknown
  }

  function NotOutcome(o: Outcome): Outcome {
    match o
    case Holds(t) => Holds(NotTri(t))
    case DbError => DbError
  }

  /** A relation from the results of "equal" and "less". */
  predicate Decide(rel: Relation, equal: bool, less: bool) {
    match rel
    case EQ => equal
    case NE => !equal
    case GT => !equal && !less
    case GE => !less
    case LT => less
    case LE => less || equal
  }

  function Compare(db: Db, rel: Relation, v: Value, operand: Value): Outcome {
    match (v, operand)
    case (Null, _) => Holds(Unknown)
    case (Str(a), Str(b)) => Holds(Tri(Decide(rel, a == b, db.before(a, b))))
    case (Num(a), Num(b)) => Holds(Tri(Decide(rel, a == b, a < b)))
    case (Time(a), Time(b)) => Holds(Tri(Decide(rel, a == b, a < b)))
    case _ => DbError
  }

  predicate ElemLike(elems: seq<Option<string>>, pattern: string, fold: Fold) {
    exists i :: 0 <= i < |elems| && elems[i].Some? && Like(pattern, elems[i].value, fold)
  }

  predicate ElemLowered(elems: seq<Option<string>>, pattern: string, lower: Fold) {
    exists i :: 0 <= i < |elems| && elems[i].Some? && Like(pattern, ToLower(elems[i].value, lower), Exact)
  }

  /** A condition on a row's value, the hole taking the operand. */
  function Eval(db: Db, e: Sql, operand: Option<Value>, v: Value): Outcome
    decreases e
  {
    match e
    case Rel(rel, _) => if operand.None? then DbError else Compare(db, rel, v, operand.value)
    case ILike(_) =>
      if operand.None? || !operand.value.Str? then DbError
      else if v.Null? then Holds(Unknown)
      else if v.Str? then Holds(Tri(Like(operand.value.s, v.s, db.fold)))
      else DbError
    case LowerLike(_) =>
      if operand.None? || !operand.value.Str? then DbError
      else if v.Null? then Holds(Unknown)
      else if v.Str? then Holds(Tri(Like(operand.value.s, ToLower(v.s, db.fold), Exact)))
      else DbError
    case ElemILike(_) =>
      if operand.None? || !operand.value.Str? then DbError
      else if v.Null? then Holds(False)
      else if v.Arr? then Holds(Tri(ElemLike(v.elems, operand.value.s, db.fold)))
      else DbError
    case ElemLowerLike(_) =>
      if operand.None? || !operand.value.Str? then DbError
      else if v.Null? then Holds(False)
      else if v.Arr? then Holds(Tri(ElemLowered(v.elems, operand.value.s, db.fold)))
      else DbError
    case AnyEntry(_) =>
      if operand.None? || !operand.value.Str? then DbError
      else if v.Null? then Holds(False)
      else if v.Arr? then
        Holds(if Some(operand.value.s) in v.elems then True else if None in v.elems then Unknown else False)
      else DbError
    case IsNull(_) => Holds(Tri(v.Null?))
    case IsNotNull(_) => Holds(Tri(!v.Null?))
    case NullOrEmptyArray(_) => if v.Null? || v.Arr? then Holds(Tri(v.Null? || v.elems == [])) else DbError
    case Not(inner) => NotOutcome(Eval(db, inner, operand, v))
    case UnknownFilterOperator => DbError
  }

  /** PostgreSQL casts the text to the type the column is compared with. */
  function PostgresOperand(db: Db, sql: Sql, param: Option<Param>, columnType: ColumnType): Option<Value>
    decreases sql
  {
    match sql
    case Not(inner) => PostgresOperand(db, inner, param, columnType)
    case Rel(_, _) =>
      if param.None? || !param.value.Text? then None
      else if columnType == NumericalType then
        (match db.number(param.value.text) case Some(x) => Some(Num(x)) case None => None)
      else if columnType == TimestampType then
        (match db.timestamp(param.value.text) case Some(t) => Some(Time(t)) case None => None)
      else Some(Str(param.value.text))
    case _ => if param.Some? && param.value.Text? then Some(Str(param.value.text)) else None
  }

  /** BigQuery binds typed parameters and compares equal types, but may coerce text to a timestamp. */
  function BigQueryOperand(db: Db, sql: Sql, param: Option<Param>, columnType: ColumnType): Option<Value> {
    if param.None? then None
    else
      match param.value
      case Text(s) =>
        if !sql.Rel? || columnType == StringType then Some(Str(s))
        else if columnType == TimestampType && db.coercesTimestamps then
          (match db.timestamp(s) case Some(t) => Some(Time(t)) case None => None)
        else None
      case Number(x) => if columnType == NumericalType then Some(Num(x)) else None
      case Instant(t) => if columnType == TimestampType then Some(Time(t)) else None
  }

  /** A query that applies a text or array condition to another type of column is refused as a whole. */
  predicate Fits(sql: Sql, columnType: ColumnType) {
    match sql
    case Not(inner) => Fits(inner, columnType)
    case ILike(_) => columnType == StringType
    case LowerLike(_) => columnType == StringType
    case ElemILike(_) => columnType == ArrayType
    case ElemLowerLike(_) => columnType == ArrayType
    case AnyEntry(_) => columnType == ArrayType
    case NullOrEmptyArray(_) => columnType == ArrayType
    case UnknownFilterOperator => false
    case _ => true
  }

  function EvalPostgres(db: Db, item: FilterItem, columnType: ColumnType, v: Value): Outcome {
    var c := FilterFieldToSQL(item, Some(columnType));
    if !Fits(c.sql, columnType) then DbError
    else Eval(db, c.sql, PostgresOperand(db, c.sql, c.param, columnType), v)
  }

  function EvalBigQuery(db: Db, go: Go, item: FilterItem, columnType: ColumnType, v: Value): Outcome {
    var c := ToBigQuery(go, item, Some(columnType));
    if !Fits(c.sql, columnType) then DbError
    else Eval(db, c.sql, BigQueryOperand(db, c.sql, c.param, columnType), v)
  }

  // ---------------------------------------------------------------------------------------
  // PostgreSQL and BigQuery agree

  ghost predicate StrictTotalOrder(before: (string, string) -> bool) {
    && (forall a :: !before(a, a))
    && (forall a, b :: a != b ==> (before(a, b) <==> !before(b, a)))
  }

  /** No database reads the text that BigQuery gets for an unparsable timestamp as a time. */
  predicate RefusesErrorText(db: Db, item: FilterItem) {
    db.timestamp("NOT A TIMESTAMP: " + item.value).None?
  }

  /** The databases and the program lower letters alike. */
  ghost predicate SameFolding(db: Db, go: Go) {
    IsLowering(db.fold) && forall c :: go.lower(c) == db.fold(c)
  }

  /** When the two conditions are interchangeable, judged from the item and the column type alone. */
  ghost predicate Interchangeable(db: Db, go: Go, item: FilterItem, columnType: ColumnType) {
    match item.op
    case Equals =>
      columnType == StringType ||
      (columnType == NumericalType && db.number(item.value).None?) ||
      (columnType == TimestampType && (db.coercesTimestamps || db.timestamp(item.value).None?))
    case Arithmetic(_) =>
      && columnType != StringType
      && (columnType == NumericalType ==> db.number(item.value) == go.parseFloat(item.value))
      && (columnType == TimestampType ==> db.timestamp(item.value) == go.parseTime(item.value))
    case Contains => columnType == StringType || columnType == ArrayType ==> !HasMeta(item.value)
    case HasEntryContaining => columnType == StringType || columnType == ArrayType ==> !HasMeta(item.value)
    case StartsWith => columnType != ArrayType && (columnType == StringType ==> !HasMeta(item.value))
    case EndsWith => columnType != ArrayType && (columnType == StringType ==> !HasMeta(item.value))
    case _ => true
  }

  predicate Scalar(columnType: ColumnType) {
    columnType == StringType || columnType == NumericalType || columnType == TimestampType
  }

  lemma NotOutside(db: Db, e: Sql, negated: bool, param: Option<Param>, columnType: ColumnType, operand: Option<Value>,
                   v: Value)
    ensures var plain := Eval(db, e, operand, v);
            Eval(db, WrapNot(e, negated), operand, v) == if negated then NotOutcome(plain) else plain
    ensures PostgresOperand(db, WrapNot(e, negated), param, columnType) == PostgresOperand(db, e, param, columnType)
    ensures Fits(WrapNot(e, negated), columnType) == Fits(e, columnType)
  {
  }

  /** The relation an equality or arithmetic item asks for. */
  function RelationOf(op: Operator): Relation
    requires op.Equals? || op.Arithmetic?
  {
    if op.Equals? then EQ else op.rel
  }

  lemma PostgresRelation(db: Db, item: FilterItem, columnType: ColumnType, v: Value)
    requires item.op.Equals? || item.op.Arithmetic?
    ensures var rel := Rel(RelationOf(item.op), item.field);
            var plain := Eval(db, rel, PostgresOperand(db, rel, Some(Text(item.value)), columnType), v);
            EvalPostgres(db, item, columnType, v) == if item.negated then NotOutcome(plain) else plain
  {
    var rel := Rel(RelationOf(item.op), item.field);
    var operand := PostgresOperand(db, rel, Some(Text(item.value)), columnType);
    NotOutside(db, rel, item.negated, Some(Text(item.value)), columnType, operand, v);
    assert FilterFieldToSQL(item, Some(columnType)) == Condition(WrapNot(rel, item.negated), Some(Text(item.value)));
  }

  /** Negation pushed into the operator is three-valued negation. */
  lemma NegateIsNot(db: Db, rel: Relation, v: Value, operand: Value)
    requires StrictTotalOrder(db.before)
    ensures Compare(db, Negate(rel), v, operand) == NotOutcome(Compare(db, rel, v, operand))
  {
  }

  /**
   For every operator, negated or not, the two conditions have the same three-valued result, or are both
   refused, on every row exactly when they are interchangeable.
   */
  lemma PostgresAndBigQueryAgreeIff(db: Db, go: Go, item: FilterItem, columnType: ColumnType)
    requires StrictTotalOrder(db.before) && RefusesErrorText(db, item) && SameFolding(db, go)
    requires item.op.Equals? || item.op.Arithmetic? ==> Scalar(columnType)
    ensures (forall v :: HasType(v, columnType) ==>
               EvalPostgres(db, item, columnType, v) == EvalBigQuery(db, go, item, columnType, v))
            <==> Interchangeable(db, go, item, columnType)
  {
    if Interchangeable(db, go, item, columnType) {
      forall v | HasType(v, columnType)
        ensures EvalPostgres(db, item, columnType, v) == EvalBigQuery(db, go, item, columnType, v)
      {
        AgreeOnRow(db, go, item, columnType, v);
      }
    } else {
      var v := DisagreeOnRow(db, go, item, columnType);
    }
  }

  lemma BigQueryRelation(db: Db, go: Go, item: FilterItem, columnType: ColumnType, v: Value)
    requires item.op.Equals? || item.op.Arithmetic?
    ensures var rel := RelationOf(item.op);
            var e := Rel(if item.negated then Negate(rel) else rel, item.field);
            var param := if item.op.Equals? then Text(item.value) else ArithmeticParam(go, item, Some(columnType));
            EvalBigQuery(db, go, item, columnType, v) == Eval(db, e, BigQueryOperand(db, e, Some(param), columnType), v)
  {
  }

  lemma EmptinessAgrees(db: Db, go: Go, item: FilterItem, columnType: ColumnType, v: Value)
    requires (item.op.IsEmpty? || item.op.IsNotEmpty?) && HasType(v, columnType)
    ensures EvalPostgres(db, item, columnType, v) == EvalBigQuery(db, go, item, columnType, v)
  {
    var plain := if item.op.IsNotEmpty? then IsNotNull(item.field)
                 else if columnType == ArrayType then NullOrEmptyArray(item.field) else IsNull(item.field);
    NotOutside(db, plain, item.negated, None, columnType, None, v);
    assert FilterFieldToSQL(item, Some(columnType)) == Condition(WrapNot(plain, item.negated), None);
    assert PostgresOperand(db, WrapNot(plain, item.negated), None, columnType) == None;
  }

  lemma AgreeOnRow(db: Db, go: Go, item: FilterItem, columnType: ColumnType, v: Value)
    requires StrictTotalOrder(db.before) && RefusesErrorText(db, item) && SameFolding(db, go)
    requires item.op.Equals? || item.op.Arithmetic? ==> Scalar(columnType)
    requires Interchangeable(db, go, item, columnType) && HasType(v, columnType)
    ensures EvalPostgres(db, item, columnType, v) == EvalBigQuery(db, go, item, columnType, v)
  {
    if item.op.Equals? || item.op.Arithmetic? {
      RelationAgrees(db, go, item, columnType, v);
    } else if item.op.IsEmpty? || item.op.IsNotEmpty? {
      EmptinessAgrees(db, go, item, columnType, v);
    } else if IsTextOperator(item.op) {
      TextAgrees(db, go, item, columnType, v);
    } else {
      EntryAgrees(db, go, item, columnType, v);
    }
  }

  lemma RelationAgrees(db: Db, go: Go, item: FilterItem, columnType: ColumnType, v: Value)
    requires StrictTotalOrder(db.before) && RefusesErrorText(db, item) && Scalar(columnType)
    requires (item.op.Equals? || item.op.Arithmetic?) && Interchangeable(db, go, item, columnType)
    ensures EvalPostgres(db, item, columnType, v) == EvalBigQuery(db, go, item, columnType, v)
  {
    var rel := RelationOf(item.op);
    PostgresRelation(db, item, columnType, v);
    var operand := PostgresOperand(db, Rel(rel, item.field), Some(Text(item.value)), columnType);
    if operand.Some? {
      NegateIsNot(db, rel, v, operand.value);
    }
    BigQueryRelation(db, go, item, columnType, v);
  }

  /** "has entry" is the same test on arrays, is refused on other columns, and so is an unknown operator. */
  lemma EntryAgrees(db: Db, go: Go, item: FilterItem, columnType: ColumnType, v: Value)
    requires item.op.HasEntry? || item.op.Other?
    ensures EvalPostgres(db, item, columnType, v) == EvalBigQuery(db, go, item, columnType, v)
    ensures item.op.Other? || columnType != ArrayType ==> EvalPostgres(db, item, columnType, v) == DbError
  {
    if item.op.HasEntry? {
      var plain, text := AnyEntry(item.field), Text(item.value);
      assert FilterFieldToSQL(item, Some(columnType)) == Condition(WrapNot(plain, item.negated), Some(text));
      NotOutside(db, plain, item.negated, Some(text), columnType, Some(Str(item.value)), v);
    }
  }

  /** On other columns than text and arrays a text operator is refused by both. */
  lemma TextIsRefused(db: Db, go: Go, item: FilterItem, columnType: ColumnType, v: Value)
    requires IsTextOperator(item.op)
    ensures columnType != StringType && columnType != ArrayType ==> EvalPostgres(db, item, columnType, v) == DbError
    ensures columnType != StringType && (columnType != ArrayType || item.op.StartsWith? || item.op.EndsWith?) ==>
              EvalBigQuery(db, go, item, columnType, v) == DbError
  {
    NotOutside(db, ILike(item.field), item.negated, None, columnType, None, v);
    NotOutside(db, LowerLike(item.field), item.negated, None, columnType, None, v);
    if columnType != ArrayType {
      assert FilterFieldToSQL(item, Some(columnType)).sql == WrapNot(ILike(item.field), item.negated);
    }
    if columnType != ArrayType || item.op.StartsWith? || item.op.EndsWith? {
      assert ToBigQuery(go, item, Some(columnType)).sql == WrapNot(LowerLike(item.field), item.negated);
    }
  }

  lemma TextAgrees(db: Db, go: Go, item: FilterItem, columnType: ColumnType, v: Value)
    requires SameFolding(db, go) && IsTextOperator(item.op)
    requires Interchangeable(db, go, item, columnType) && HasType(v, columnType)
    ensures EvalPostgres(db, item, columnType, v) == EvalBigQuery(db, go, item, columnType, v)
  {
    if columnType != StringType && columnType != ArrayType {
      TextIsRefused(db, go, item, columnType, v);
    } else {
      PostgresTextOperators(db, item, columnType, v);
      BigQueryTextOperators(db, go, item, columnType, v);
      hide EvalPostgres, EvalBigQuery, BigQueryMatches, Matches;
      if v.Str? {
        BigQueryFormAgrees(FormOf(item.op), item.value, v.s, db.fold);
      } else if v.Arr? {
        forall i | 0 <= i < |v.elems| && v.elems[i].Some?
          ensures BigQueryMatches(FormOf(item.op), v.elems[i].value, item.value, db.fold) <==>
                  Matches(FormOf(item.op), v.elems[i].value, item.value, db.fold)
        {
          BigQueryFormAgrees(FormOf(item.op), item.value, v.elems[i].value, db.fold);
        }
      }
    }
  }

  /** Of two operands one is a row on which any relation to them differs. */
  lemma OperandsDiffer(db: Db, rel: Relation, a: Value, b: Value) returns (v: Value)
    requires (a.Num? && b.Num?) || (a.Time? && b.Time?)
    requires a != b
    ensures v == a || v == b
    ensures Compare(db, rel, v, a).Holds? && Compare(db, rel, v, b).Holds?
    ensures Compare(db, rel, v, a) != Compare(db, rel, v, b)
    ensures Compare(db, rel, v, a).truth != Unknown && Compare(db, rel, v, b).truth != Unknown
  {
    v := if Compare(db, rel, a, a) != Compare(db, rel, a, b) then a else b;
  }

  /** The operand of an arithmetic item as the program and BigQuery read it. */
  function ReadByProgram(go: Go, item: FilterItem, columnType: ColumnType): Option<Value> {
    if columnType == TimestampType then
      match go.parseTime(item.value) case Some(t) => Some(Time(t)) case None => None
    else
      match go.parseFloat(item.value) case Some(x) => Some(Num(x)) case None => None
  }

  /** A relation to an operand: refused without one, negated as SQL does. */
  function Related(db: Db, item: FilterItem, operand: Option<Value>, v: Value): Outcome
    requires item.op.Equals? || item.op.Arithmetic?
  {
    if operand.None? then DbError
    else if item.negated then NotOutcome(Compare(db, RelationOf(item.op), v, operand.value))
    else Compare(db, RelationOf(item.op), v, operand.value)
  }

  /** On numbers and timestamps both conditions relate the row to their reading of the value. */
  lemma ArithmeticRelates(db: Db, go: Go, item: FilterItem, columnType: ColumnType, v: Value)
    requires StrictTotalOrder(db.before) && RefusesErrorText(db, item) && item.op.Arithmetic?
    requires columnType == NumericalType || columnType == TimestampType
    ensures EvalPostgres(db, item, columnType, v) ==
            Related(db, item, PostgresOperand(db, Rel(item.op.rel, ""), Some(Text(item.value)), columnType), v)
    ensures EvalBigQuery(db, go, item, columnType, v) == Related(db, item, ReadByProgram(go, item, columnType), v)
  {
    PostgresRelation(db, item, columnType, v);
    BigQueryRelation(db, go, item, columnType, v);
    var operand := ReadByProgram(go, item, columnType);
    if operand.Some? { NegateIsNot(db, item.op.rel, v, operand.value); }
  }

  /** A row that tells two readings of a value apart. */
  lemma ReadingsDiffer(db: Db, item: FilterItem, columnType: ColumnType, a: Option<Value>, b: Option<Value>)
    returns (v: Value)
    requires item.op.Arithmetic? && a != b
    requires columnType == NumericalType || columnType == TimestampType
    requires forall x :: Some(x) == a || Some(x) == b ==> !x.Null? && HasType(x, columnType)
    ensures HasType(v, columnType) && Related(db, item, a, v) != Related(db, item, b, v)
  {
    v := Null;
    if a.Some? && b.Some? {
      assert Some(a.value) == a && Some(b.value) == b;
      v := OperandsDiffer(db, item.op.rel, a.value, b.value);
    }
  }

  /** A row that tells the two conditions apart. */
  lemma DisagreeOnRow(db: Db, go: Go, item: FilterItem, columnType: ColumnType) returns (v: Value)
    requires StrictTotalOrder(db.before) && RefusesErrorText(db, item) && SameFolding(db, go)
    requires item.op.Equals? || item.op.Arithmetic? ==> Scalar(columnType)
    requires !Interchangeable(db, go, item, columnType)
    ensures HasType(v, columnType) && EvalPostgres(db, item, columnType, v) != EvalBigQuery(db, go, item, columnType, v)
  {
    if IsTextOperator(item.op) {
      v := TextDisagrees(db, go, item, columnType);
    } else if item.op.Arithmetic? && columnType != StringType {
      var a := PostgresOperand(db, Rel(item.op.rel, ""), Some(Text(item.value)), columnType);
      v := ReadingsDiffer(db, item, columnType, a, ReadByProgram(go, item, columnType));
      ArithmeticRelates(db, go, item, columnType, v);
    } else if item.op.Equals? || go.parseFloat(item.value).Some? {
      v := Null;
      PostgresRelation(db, item, columnType, v);
    } else {
      // an unparsable number reaches BigQuery as a string and is compared as one
      var bound := "NOT A NUMBER: " + item.value;
      assert bound != item.value by { assert |bound| > |item.value|; }
      var pg, bq := Str(item.value), Str(bound);
      PostgresRelation(db, item, columnType, pg);
      PostgresRelation(db, item, columnType, bq);
      v := if EvalPostgres(db, item, columnType, pg) != EvalBigQuery(db, go, item, columnType, pg) then pg else bq;
    }
  }

  lemma TextDisagrees(db: Db, go: Go, item: FilterItem, columnType: ColumnType) returns (v: Value)
    requires SameFolding(db, go) && IsTextOperator(item.op) && !Interchangeable(db, go, item, columnType)
    ensures HasType(v, columnType) && EvalPostgres(db, item, columnType, v) != EvalBigQuery(db, go, item, columnType, v)
  {
    if columnType == ArrayType && (item.op.StartsWith? || item.op.EndsWith?) {
      v := Null;
      PostgresTextOperators(db, item, columnType, v);
      TextIsRefused(db, go, item, columnType, v);
    } else {
      var s := BigQueryFormDiffers(FormOf(item.op), item.value, db.fold);
      v := if columnType == StringType then Str(s) else Arr([Some(s)]);
      PostgresTextOperators(db, item, columnType, v);
      BigQueryTextOperators(db, go, item, columnType, v);
      hide EvalPostgres, EvalBigQuery, BigQueryMatches, Matches;
      if v.Arr? { assert v.elems[0] == Some(s); }
    }
  }

  // ---------------------------------------------------------------------------------------
  // Text operators

  predicate IsTextOperator(op: Operator) {
    op.Contains? || op.HasEntryContaining? || op.StartsWith? || op.EndsWith?
  }

  predicate SomeMatches(form: Form, elems: seq<Option<string>>, value: string, fold: Fold) {
    exists i :: 0 <= i < |elems| && elems[i].Some? && Matches(form, elems[i].value, value, fold)
  }

  predicate SomeBigQueryMatches(form: Form, elems: seq<Option<string>>, value: string, fold: Fold) {
    exists i :: 0 <= i < |elems| && elems[i].Some? && BigQueryMatches(form, elems[i].value, value, fold)
  }

  /** The PostgreSQL condition of a text operator, on strings and on arrays, for any value and row. */
  lemma PostgresTextOperators(db: Db, item: FilterItem, columnType: ColumnType, v: Value)
    requires IsTextOperator(item.op) && HasType(v, columnType)
    requires columnType == StringType || columnType == ArrayType
    ensures var truth := match v
                         case Null => if columnType == ArrayType then False else Unknown
                         case Str(s) => Tri(Matches(FormOf(item.op), s, item.value, db.fold))
                         case Arr(elems) => Tri(SomeMatches(FormOf(item.op), elems, item.value, db.fold))
                         case _ => Unknown;
            EvalPostgres(db, item, columnType, v) == Holds(if item.negated then NotTri(truth) else truth)
  {
    var form := FormOf(item.op);
    var pattern := FormPattern(form, EscapeLikeMetachars(item.value));
    var plain := if columnType == ArrayType then ElemILike(item.field) else ILike(item.field);
    assert FilterFieldToSQL(item, Some(columnType)) == Condition(WrapNot(plain, item.negated), Some(Text(pattern)));
    NotOutside(db, plain, item.negated, Some(Text(pattern)), columnType, Some(Str(pattern)), v);
    if v.Str? {
      EscapedFormMatches(form, item.value, v.s, db.fold);
    } else if v.Arr? {
      forall i | 0 <= i < |v.elems| && v.elems[i].Some?
        ensures Like(pattern, v.elems[i].value, db.fold) <==> Matches(form, v.elems[i].value, item.value, db.fold)
      {
        EscapedFormMatches(form, item.value, v.elems[i].value, db.fold);
      }
      assert ElemLike(v.elems, pattern, db.fold) <==> SomeMatches(form, v.elems, item.value, db.fold);
    }
  }

  /** The BigQuery condition of a text operator: the pattern is not escaped, and arrays only know "contains". */
  lemma BigQueryTextOperators(db: Db, go: Go, item: FilterItem, columnType: ColumnType, v: Value)
    requires SameFolding(db, go) && IsTextOperator(item.op) && HasType(v, columnType)
    requires columnType == StringType || (columnType == ArrayType && (item.op.Contains? || item.op.HasEntryContaining?))
    ensures var truth := match v
                         case Null => if columnType == ArrayType then False else Unknown
                         case Str(s) => Tri(BigQueryMatches(FormOf(item.op), s, item.value, db.fold))
                         case Arr(elems) => Tri(SomeBigQueryMatches(FormOf(item.op), elems, item.value, db.fold))
                         case _ => Unknown;
            EvalBigQuery(db, go, item, columnType, v) == Holds(if item.negated then NotTri(truth) else truth)
  {
    assert ToLower(item.value, go.lower) == ToLower(item.value, db.fold);
    var pattern := FormPattern(FormOf(item.op), ToLower(item.value, db.fold));
    var plain := if columnType == ArrayType then ElemLowerLike(item.field) else LowerLike(item.field);
    assert ToBigQuery(go, item, Some(columnType)) == Condition(WrapNot(plain, item.negated), Some(Text(pattern)));
    NotOutside(db, plain, item.negated, Some(Text(pattern)), columnType, Some(Str(pattern)), v);
    if v.Arr? {
      forall i | 0 <= i < |v.elems| && v.elems[i].Some?
        ensures Like(pattern, ToLower(v.elems[i].value, db.fold), Exact) <==>
                BigQueryMatches(FormOf(item.op), v.elems[i].value, item.value, db.fold) {}
      assert ElemLowered(v.elems, pattern, db.fold) <==>
        SomeBigQueryMatches(FormOf(item.op), v.elems, item.value, db.fold);
    }
  }

  /** "is empty" and "is not empty" are not opposites: on an empty array both select the row. */
  lemma EmptyTestsOverlapIff(db: Db, field: string, columnType: ColumnType, v: Value)
    requires HasType(v, columnType)
    ensures EvalPostgres(db, FilterItem(field, false, IsEmpty, ""), columnType, v) == Holds(True) &&
            EvalPostgres(db, FilterItem(field, false, IsNotEmpty, ""), columnType, v) == Holds(True)
            <==> v == Arr([])
  {
  }
}
