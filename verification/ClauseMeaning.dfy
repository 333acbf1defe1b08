/**
 What the pieces of a clause mean. A decoder that knows the words of SQL, and nothing of how conditions are
 rendered, reads a piece with its parameter in place as a condition; so a clause says of a row what its items
 do (pkg/api/job_runs.go:249-297, pkg/filter/filterable.go:505-530).
 */
module ClauseMeaning {
  import opened Common
  import opened FilterSql
  import opened FilterLink
  import opened FilterText
  import opened BigQueryText

  // ---------------------------------------------------------------------------------------
  // Reading a condition

  predicate IsSlot(k: Token) {
    k.Hole? || k.Bound?
  }

  predicate Ends(text: string, word: string) {
    |word| <= |text| && text[|text| - |word|..] == word
  }

  /** What stands before a word at the end of a text. */
  function Before(text: string, word: string): string
    requires Ends(text, word)
  {
    text[..|text| - |word|]
  }

  /** A condition, and what stands in the place of its parameter if it takes one. */
  type Decoded = Option<(Sql, Option<Token>)>

  function NullTest(text: string): Decoded {
    if Ends(text, " IS NOT NULL") then Some((IsNotNull(Before(text, " IS NOT NULL")), None))
    else if Ends(text, " IS NULL") then Some((IsNull(Before(text, " IS NULL")), None))
    else None
  }

  function Comparison(text: string, slot: Token): Decoded {
    if Ends(text, " ILIKE ") then Some((ILike(Before(text, " ILIKE ")), Some(slot)))
    else if Ends(text, " <> ") then Some((Rel(NE, Before(text, " <> ")), Some(slot)))
    else if Ends(text, " != ") then Some((Rel(NE, Before(text, " != ")), Some(slot)))
    else if Ends(text, " >= ") then Some((Rel(GE, Before(text, " >= ")), Some(slot)))
    else if Ends(text, " <= ") then Some((Rel(LE, Before(text, " <= ")), Some(slot)))
    else if Ends(text, " = ") then Some((Rel(EQ, Before(text, " = ")), Some(slot)))
    else if Ends(text, " > ") then Some((Rel(GT, Before(text, " > ")), Some(slot)))
    else if Ends(text, " < ") then Some((Rel(LT, Before(text, " < ")), Some(slot)))
    else None
  }

  /** `LOWER(c) LIKE p` and `EXISTS (SELECT 1 FROM unnest(c) AS x WHERE x ILIKE p)`. */
  function LikeTest(t: Text): Decoded {
    if |t| == 6 && t[0] == Lit("LOWER") && t[1] == Open && t[2].Lit? && t[3] == Close && t[4] == Lit(" LIKE ") &&
       IsSlot(t[5])
    then Some((LowerLike(t[2].text), Some(t[5])))
    else if |t| == 9 && t[0] == Lit("EXISTS ") && t[1] == Open && t[3] == Open && t[4].Lit? && t[5] == Close &&
            IsSlot(t[7]) && t[8] == Close
    then
      if t[2] == Lit("SELECT 1 FROM unnest") && t[6] == Lit(" AS elem WHERE elem ILIKE ")
      then Some((ElemILike(t[4].text), Some(t[7])))
      else if t[2] == Lit("SELECT 1 FROM UNNEST") && t[6] == Lit(" AS item WHERE LOWER(item) LIKE ")
      then Some((ElemLowerLike(t[4].text), Some(t[7])))
      else None
    else None
  }

  /** `p = ANY(COALESCE(c, '{}'))` and `p in UNNEST(c)`. */
  function EntryTest(t: Text): Decoded {
    if |t| == 8 && IsSlot(t[0]) && t[1] == Lit(" = ANY") && t[2] == Open && t[3] == Lit("COALESCE") && t[4] == Open &&
       t[5].Lit? && Ends(t[5].text, ", '{}'") && t[6] == Close && t[7] == Close
    then Some((AnyEntry(Before(t[5].text, ", '{}'")), Some(t[0])))
    else if |t| == 5 && IsSlot(t[0]) && t[1] == Lit(" in UNNEST") && t[2] == Open && t[3].Lit? && t[4] == Close
    then Some((AnyEntry(t[3].text), Some(t[0])))
    else None
  }

  /** `(c IS NULL or c = '{}')` and `(c IS NULL or ARRAY_LENGTH(c) = 0)`. */
  function EmptyArrayTest(t: Text): Decoded {
    if |t| < 5 || t[0] != Open || !t[1].Lit? || !Ends(t[1].text, " IS NULL") || t[2] != Or then None
    else
      var column := Before(t[1].text, " IS NULL");
      if |t| == 5 && t[3] == Lit(column + " = '{}'") && t[4] == Close then Some((NullOrEmptyArray(column), None))
      else if |t| == 9 && t[3] == Lit("ARRAY_LENGTH") && t[4] == Open && t[5] == Lit(column) && t[6] == Close &&
              t[7] == Lit(" = 0") && t[8] == Close
      then Some((NullOrEmptyArray(column), None))
      else None
  }

  function Negated(r: Decoded): Decoded {
    match r
    case None => None
    case Some((e, slot)) => Some((Not(e), slot))
  }

  function Decode(t: Text): Decoded {
    if t == [] then None
    else if |t| == 1 then if t[0].Lit? then NullTest(t[0].text) else None
    else if |t| == 2 && IsSlot(t[1]) then if t[0].Lit? then Comparison(t[0].text, t[1]) else None
    else if t[0] == Lit("NOT ") then Negated(Decode(t[1..]))
    else if |t| >= 3 && t[0] == Lit("NOT") && t[1] == Open && t[|t| - 1] == Close then Negated(Decode(t[2..|t| - 1]))
    else if t == [Lit("UnknownFilterOperator"), Open, Close] then Some((UnknownFilterOperator, None))
    else if t[0] == Open then EmptyArrayTest(t)
    else if IsSlot(t[0]) then EntryTest(t)
    else LikeTest(t)
  }

  // ---------------------------------------------------------------------------------------
  // Rendered conditions are read back

  lemma EndsItself(a: string, word: string)
    ensures Ends(a + word, word) && Before(a + word, word) == a
  {
  }

  /** A text has the last characters of a word at its end. */
  lemma LastCharacter(text: string, word: string, k: nat)
    requires 1 <= k <= |word|
    ensures Ends(text, word) ==> text[|text| - k] == word[|word| - k]
  {
    if |word| <= |text| {
      var end := text[|text| - |word|..];
      assert end[|word| - k] == text[|text| - k];
    }
  }

  /** The two characters before the last that tell the words of a comparison apart. */
  function Mark(d: Dialect, rel: Relation): (char, char) {
    match rel
    case EQ => (' ', '=')
    case NE => if d.BigQuery? then ('!', '=') else ('<', '>')
    case GT => (' ', '>')
    case GE => ('>', '=')
    case LT => (' ', '<')
    case LE => ('<', '=')
  }

  lemma MarkAtEnd(a: string, d: Dialect, rel: Relation)
    ensures var t := a + RelationText(d, rel); |t| >= 3 && (t[|t| - 3], t[|t| - 2]) == Mark(d, rel)
  {
    EndsItself(a, RelationText(d, rel));
    LastCharacter(a + RelationText(d, rel), RelationText(d, rel), 2);
    LastCharacter(a + RelationText(d, rel), RelationText(d, rel), 3);
  }

  lemma EndsMark(text: string, word: string)
    requires |text| >= 3 && |word| >= 3
    ensures Ends(text, word) ==>
              (text[|text| - 3], text[|text| - 2]) == (word[|word| - 3], word[|word| - 2])
  {
    LastCharacter(text, word, 2);
    LastCharacter(text, word, 3);
  }

  /** Only one of the words is at the end of a text. */
  lemma WordsByMark(text: string)
    requires |text| >= 3
    ensures var m := (text[|text| - 3], text[|text| - 2]);
            && (Ends(text, " ILIKE ") ==> m == ('K', 'E'))
            && (Ends(text, " <> ") ==> m == ('<', '>')) && (Ends(text, " != ") ==> m == ('!', '='))
            && (Ends(text, " >= ") ==> m == ('>', '=')) && (Ends(text, " <= ") ==> m == ('<', '='))
            && (Ends(text, " = ") ==> m == (' ', '=')) && (Ends(text, " > ") ==> m == (' ', '>'))
            && (Ends(text, " < ") ==> m == (' ', '<'))
  {
    EndsMark(text, " ILIKE ");
    EndsMark(text, " <> ");
    EndsMark(text, " != ");
    EndsMark(text, " >= ");
    EndsMark(text, " <= ");
    EndsMark(text, " = ");
    EndsMark(text, " > ");
    EndsMark(text, " < ");
  }

  lemma ReadsRelation(a: string, d: Dialect, rel: Relation, slot: Token)
    ensures Comparison(a + RelationText(d, rel), slot) == Some((Rel(rel, a), Some(slot)))
  {
    MarkAtEnd(a, d, rel);
    WordsByMark(a + RelationText(d, rel));
    EndsItself(a, RelationText(d, rel));
    hide Ends, Before;
  }

  lemma ReadsILike(a: string, slot: Token)
    ensures Comparison(a + " ILIKE ", slot) == Some((ILike(a), Some(slot)))
  {
    EndsItself(a, " ILIKE ");
  }

  lemma ReadsNullTest(a: string)
    ensures NullTest(a + " IS NULL") == Some((IsNull(a), None))
    ensures NullTest(a + " IS NOT NULL") == Some((IsNotNull(a), None))
  {
    EndsItself(a, " IS NULL");
    EndsItself(a, " IS NOT NULL");
    LastCharacter(a + " IS NULL", " IS NULL", 6);
    LastCharacter(a + " IS NULL", " IS NOT NULL", 6);
    assert " IS NULL"[2] == 'S' && " IS NOT NULL"[6] == 'T';
  }

  lemma ReadsLikeTest(col: string, slot: Token)
    requires IsSlot(slot)
    ensures Decode([Lit("LOWER")] + Paren([Lit(col)]) + ([Lit(" LIKE ")] + [slot])) ==
            Some((LowerLike(col), Some(slot)))
  {
    var t := [Lit("LOWER")] + Paren([Lit(col)]) + ([Lit(" LIKE ")] + [slot]);
    assert t == [Lit("LOWER"), Open, Lit(col), Close, Lit(" LIKE "), slot];
    assert |"LOWER"| == 5 && |"NOT "| == 4 && |"NOT"| == 3;
  }

  lemma ReadsElemTest(col: string, slot: Token)
    requires IsSlot(slot)
    ensures Decode([Lit("EXISTS ")] +
                   Paren([Lit("SELECT 1 FROM unnest")] + Paren([Lit(col)]) +
                         ([Lit(" AS elem WHERE elem ILIKE ")] + [slot])))
            == Some((ElemILike(col), Some(slot)))
    ensures Decode([Lit("EXISTS ")] +
                   Paren([Lit("SELECT 1 FROM UNNEST")] + Paren([Lit(col)]) +
                         ([Lit(" AS item WHERE LOWER(item) LIKE ")] + [slot])))
            == Some((ElemLowerLike(col), Some(slot)))
  {
    assert |"EXISTS "| == 7 && |"NOT "| == 4 && |"NOT"| == 3;
    assert "SELECT 1 FROM unnest"[14] == 'u' && "SELECT 1 FROM UNNEST"[14] == 'U';
  }

  lemma ReadsEntryTest(col: string, slot: Token)
    requires IsSlot(slot)
    ensures Decode([slot] + ([Lit(" = ANY")] + Paren([Lit("COALESCE")] + Paren([Lit(col + ", '{}'")])))) ==
            Some((AnyEntry(col), Some(slot)))
    ensures Decode([slot] + ([Lit(" in UNNEST")] + Paren([Lit(col)]))) == Some((AnyEntry(col), Some(slot)))
  {
    EndsItself(col, ", '{}'");
  }

  lemma ReadsEmptyArrayTest(col: string)
    ensures Decode(Paren([Lit(col + " IS NULL")] + [Or] + [Lit(col + " = '{}'")])) ==
            Some((NullOrEmptyArray(col), None))
    ensures var length := [Lit("ARRAY_LENGTH")] + Paren([Lit(col)]) + [Lit(" = 0")];
            Decode(Paren([Lit(col + " IS NULL")] + [Or] + length)) == Some((NullOrEmptyArray(col), None))
  {
    EndsItself(col, " IS NULL");
  }

  lemma DecodesNot(t: Text)
    requires |t| >= 3
    ensures t[0] == Lit("NOT") && t[1] == Open && t[|t| - 1] == Close ==> Decode(t) == Negated(Decode(t[2..|t| - 1]))
    ensures t[0] == Lit("NOT ") ==> Decode(t) == Negated(Decode(t[1..]))
  {
    hide Negated, NullTest, Comparison, LikeTest, EntryTest, EmptyArrayTest;
    assert |"NOT"| == 3 && |"NOT "| == 4;
  }

  lemma DecodesNotOfOne(k: Token)
    requires !IsSlot(k)
    ensures Decode([Lit("NOT "), k]) == Negated(Decode([k]))
  {
    hide Negated, NullTest, Comparison, LikeTest, EntryTest, EmptyArrayTest;
    assert [Lit("NOT "), k][1..] == [k];
  }

  lemma ReadsNegation(t: Text)
    requires t != []
    ensures Decode([Lit("NOT")] + Paren(t)) == Negated(Decode(t))
    ensures |t| >= 2 || !IsSlot(t[0]) ==> Decode([Lit("NOT ")] + t) == Negated(Decode(t))
  {
    hide Decode, Negated, IsSlot;
    var a, b := [Lit("NOT")] + Paren(t), [Lit("NOT ")] + t;
    assert a[2..|a| - 1] == t && b[1..] == t;
    DecodesNot(a);
    if |t| >= 2 {
      DecodesNot(b);
    } else if !IsSlot(t[0]) {
      assert t == [t[0]] && b == [Lit("NOT "), t[0]];
      DecodesNotOfOne(t[0]);
    }
  }

  lemma RenderIsLong(d: Dialect, e: Sql, slot: Token)
    requires IsSlot(slot)
    ensures var t := Render(d, e, slot); t != [] && (|t| >= 2 || !IsSlot(t[0]))
  {
  }

  /** Every rendered condition is read back from its text, with what stands in its slot. */
  lemma {:induction false} DecodesRender(d: Dialect, e: Sql, slot: Token)
    requires IsSlot(slot)
    ensures Decode(Render(d, e, slot)) == Some((e, if Holes(e) > 0 then Some(slot) else None))
  {
    match e
    case Rel(rel, col) =>
      ReadsRelation(col, d, rel, slot);
      hide Comparison, RelationText;
    case ILike(col) =>
      ReadsILike(col, slot);
      hide Comparison;
    case LowerLike(col) => ReadsLikeTest(col, slot);
    case ElemILike(col) => ReadsElemTest(col, slot);
    case ElemLowerLike(col) => ReadsElemTest(col, slot);
    case AnyEntry(col) => ReadsEntryTest(col, slot);
    case IsNull(col) =>
      ReadsNullTest(col);
      hide NullTest;
    case IsNotNull(col) =>
      ReadsNullTest(col);
      hide NullTest;
    case NullOrEmptyArray(col) => ReadsEmptyArrayTest(col);
    case Not(inner) =>
      DecodesRender(d, inner, slot);
      RenderIsLong(d, inner, slot);
      ReadsNegation(Render(d, inner, slot));
      hide Decode;
    case UnknownFilterOperator =>
      assert [Lit("UnknownFilterOperator")] + Paren([]) == [Lit("UnknownFilterOperator"), Open, Close];
      assert |"UnknownFilterOperator"| == 21 && |"NOT "| == 4 && |"NOT"| == 3;
  }

  /** A rendered condition with its slot determines the condition, and what stands in the slot if it has one. */
  lemma RenderIsInjective(d: Dialect, e: Sql, f: Sql, a: Token, b: Token)
    requires IsSlot(a) && IsSlot(b) && Render(d, e, a) == Render(d, f, b)
    ensures e == f && (Holes(e) > 0 ==> a == b)
  {
    DecodesRender(d, e, a);
    DecodesRender(d, f, b);
  }

  /** A condition has a parameter exactly for its hole. */
  predicate Filled(c: Condition) {
    Holes(c.sql) == if c.param.Some? then 1 else 0
  }

  /** A condition as the database sees it, its parameter in place. */
  function Rendered(d: Dialect, c: Condition): Text {
    Render(d, c.sql, if c.param.Some? then Bound(c.param.value) else Hole)
  }

  /** The condition that a piece of a clause spells, if it spells one. */
  function ReadCondition(piece: Text): Option<Condition> {
    match Decode(piece)
    case Some((e, None)) => Some(Condition(e, None))
    case Some((e, Some(Bound(p)))) => Some(Condition(e, Some(p)))
    case _ => None
  }

  lemma ReadsRendered(d: Dialect, c: Condition)
    requires Filled(c)
    ensures ReadCondition(Rendered(d, c)) == Some(c)
  {
    DecodesRender(d, c.sql, if c.param.Some? then Bound(c.param.value) else Hole);
    hide Decode, Render;
  }

  lemma RenderedIsInjective(d: Dialect, a: Condition, b: Condition)
    requires Filled(a) && Filled(b) && Rendered(d, a) == Rendered(d, b)
    ensures a == b
  {
    ReadsRendered(d, a);
    ReadsRendered(d, b);
  }

  /** What a piece of a clause says: the meaning of the condition it spells, if it spells one. */
  function Read(piece: Text, meaning: Condition -> Outcome, otherwise: Text -> Outcome): Outcome {
    match ReadCondition(piece)
    case Some(c) => meaning(c)
    case None => otherwise(piece)
  }

  lemma ReadsBack(d: Dialect, c: Condition, meaning: Condition -> Outcome, otherwise: Text -> Outcome)
    requires Filled(c)
    ensures Read(Rendered(d, c), meaning, otherwise) == meaning(c)
  {
    ReadsRendered(d, c);
  }

  // ---------------------------------------------------------------------------------------
  // Clauses

  function TruthOf(o: Outcome): Truth {
    if o.Holds? then o.truth else Unknown
  }

  /** What a clause says of a row: an error in one of its pieces is an error of the query. */
  ghost function ClauseOutcome(pieces: seq<Text>, connective: Token, read: Text -> Outcome): Outcome
    requires pieces != []
  {
    if exists i :: 0 <= i < |pieces| && read(pieces[i]) == DbError then DbError
    else Holds(ClauseTruth(pieces, connective, t => TruthOf(read(t))))
  }

  /** The results of the items linked: an error if one is refused, else any with "or" and all otherwise. */
  ghost predicate Links(outcome: Outcome, link: string, items: seq<Outcome>) {
    && (outcome == DbError <==> DbError in items)
    && (outcome == Holds(True) <==>
          && DbError !in items
          && if link == LinkOr then Holds(True) in items else forall i :: 0 <= i < |items| ==> items[i] == Holds(True))
  }

  lemma ClauseLinks(pieces: seq<Text>, link: string, read: Text -> Outcome, items: seq<Outcome>)
    requires |pieces| == |items| > 0 && forall i :: 0 <= i < |items| ==> read(pieces[i]) == items[i]
    ensures Links(ClauseOutcome(pieces, Connective(link), read), link, items)
  {
    var says := t => TruthOf(read(t));
    ClauseTruthIsLink(pieces, Connective(link), says);
    hide ClauseTruth;
    assert forall i :: 0 <= i < |items| ==> says(pieces[i]) == TruthOf(items[i]);
    assert DbError in items <==> exists i :: 0 <= i < |pieces| && read(pieces[i]) == DbError;
    if DbError !in items {
      assert forall i :: 0 <= i < |items| ==> (says(pieces[i]) == True <==> items[i] == Holds(True));
      assert SomeSays(pieces, says) <==> Holds(True) in items;
    }
  }

  /** The column a condition is about. */
  function ColumnOf(e: Sql): string {
    match e
    case Not(inner) => ColumnOf(inner)
    case UnknownFilterOperator => ""
    case _ => e.col
  }

  /** A compiled item is about its own column, unless it is refused. */
  lemma ColumnOfItem(go: Go, item: FilterItem, columnType: Option<ColumnType>)
    ensures var e := ToBigQuery(go, item, columnType).sql; e.UnknownFilterOperator? || ColumnOf(e) == item.field
    ensures var e := FilterFieldToSQL(item, columnType).sql; e.UnknownFilterOperator? || ColumnOf(e) == item.field
  {
  }

  // ---------------------------------------------------------------------------------------
  // BigQuery

  /** What a condition says of a row in BigQuery. */
  function BigQueryMeaning(db: Db, types: string -> ColumnType, row: string -> Value): Condition -> Outcome {
    (c: Condition) =>
      var column := ColumnOf(c.sql);
      if !Fits(c.sql, types(column)) then DbError
      else Eval(db, c.sql, BigQueryOperand(db, c.sql, c.param, types(column)), row(column))
  }

  lemma BigQueryMeansItem(db: Db, go: Go, types: string -> ColumnType, row: string -> Value, item: FilterItem)
    ensures var c := ToBigQuery(go, item, Some(types(item.field)));
            Filled(c) &&
            BigQueryMeaning(db, types, row)(c) == EvalBigQuery(db, go, item, types(item.field), row(item.field))
  {
    ParamsFillHoles(go, item, "", Some(types(item.field)));
    var c := ToBigQuery(go, item, Some(types(item.field)));
    ColumnOfItem(go, item, Some(types(item.field)));
    hide ToBigQuery, Eval, BigQueryOperand, ColumnOf;
    assert c.sql.UnknownFilterOperator? ==> !Fits(c.sql, types(ColumnOf(c.sql))) && !Fits(c.sql, types(item.field));
  }

  function BigQueryOutcomes(db: Db, go: Go, types: string -> ColumnType, row: string -> Value, items: seq<FilterItem>)
    : (outcomes: seq<Outcome>)
    ensures |outcomes| == |items|
  {
    seq(|items|, i requires 0 <= i < |items| =>
      EvalBigQuery(db, go, items[i], types(items[i].field), row(items[i].field)))
  }

  /**
   Read back piece by piece, the clause that BigQuery sees says of every row what the items say, linked:
   an error if one of them is refused; otherwise it selects the row exactly if some item does with "or",
   and all do otherwise.
   */
  lemma BigQueryClauseMeans(db: Db, go: Go, filter: Filter, types: string -> ColumnType, row: string -> Value,
                            otherwise: Text -> Outcome)
    requires filter.items != []
    ensures var clause := Join(BoundItems(go, types, filter.items), Connective(filter.link));
            var pieces := TopLevel(clause, Connective(filter.link), 0, []);
            var read := t => Read(t, BigQueryMeaning(db, types, row), otherwise);
            pieces != [] &&
            Links(ClauseOutcome(pieces, Connective(filter.link), read), filter.link,
                  BigQueryOutcomes(db, go, types, row, filter.items))
  {
    var read := t => Read(t, BigQueryMeaning(db, types, row), otherwise);
    var pieces, outcomes := BoundItems(go, types, filter.items), BigQueryOutcomes(db, go, types, row, filter.items);
    BigQueryText.ClauseSelectsLinked(go, filter, types, t => TruthOf(read(t)));
    hide Read, Rendered, ToBigQuery, EvalBigQuery, BigQueryMeaning, Links, TopLevel, ClauseTruth, ClauseOutcome;
    forall i | 0 <= i < |pieces| ensures read(pieces[i]) == outcomes[i] {
      var item := filter.items[i];
      BigQueryMeansItem(db, go, types, row, item);
      BoundIsRendered(go, types, item);
      ReadsBack(BigQuery, ToBigQuery(go, item, Some(types(item.field))), BigQueryMeaning(db, types, row), otherwise);
    }
    ClauseLinks(pieces, filter.link, read, outcomes);
  }

  lemma BoundIsRendered(go: Go, types: string -> ColumnType, item: FilterItem)
    ensures BoundItem(go, types, item) == Rendered(BigQuery, ToBigQuery(go, item, Some(types(item.field))))
  {
  }
}
