/**
 Named parameters of BigQuery clauses that share one counter (pkg/filter/filterable.go:498-530).
 */
module BigQueryText {
  import opened Common
  import opened FilterSql
  import opened FilterLink
  import opened FilterText

  datatype QueryParameter = QueryParameter(name: string, value: Param)

  function ParamName(n: nat): string {
    "filterParam" + Itoa(n)
  }

  lemma ParamNamesDiffer(a: nat, b: nat)
    requires a != b
    ensures ParamName(a) != ParamName(b)
  {
    if ParamName(a) == ParamName(b) {
      assert ParamName(a)[|"filterParam"|..] == Itoa(a) && ParamName(b)[|"filterParam"|..] == Itoa(b);
      AtoiItoa(a);
      AtoiItoa(b);
    }
  }

  /** The placeholders of a text, in order. */
  function NamesIn(t: Text): seq<string> {
    if t == [] then [] else (if t[0].Named? then [t[0].name] else []) + NamesIn(t[1..])
  }

  function Names(params: seq<QueryParameter>): (names: seq<string>)
    ensures |names| == |params|
  {
    seq(|params|, i requires 0 <= i < |params| => params[i].name)
  }

  /** `count` names from `first` on. */
  function NameRange(first: nat, count: nat): (names: seq<string>)
    ensures |names| == count && forall i :: 0 <= i < count ==> names[i] == ParamName(first + i)
  {
    seq(count, i requires 0 <= i < count => ParamName(first + i))
  }

  lemma {:induction false} NamesConcat(a: Text, b: Text)
    ensures NamesIn(a + b) == NamesIn(a) + NamesIn(b)
  {
    if a == [] {
      assert a + b == b;
    } else {
      assert (a + b)[1..] == a[1..] + b;
      NamesConcat(a[1..], b);
    }
  }

  lemma MapConcat(a: Text, b: Text, f: Token -> Token)
    ensures MapSeq(a + b, f) == MapSeq(a, f) + MapSeq(b, f)
  {
  }

  /** The replacement leaves words, parentheses and connectives alone. */
  ghost predicate KeepsStructure(f: Token -> Token) {
    forall k: Token :: k.Lit? || k.Open? || k.Close? || k.And? || k.Or? ==> f(k) == k
  }

  lemma MapParen(t: Text, f: Token -> Token)
    requires KeepsStructure(f)
    ensures MapSeq(Paren(t), f) == Paren(MapSeq(t, f))
  {
  }

  lemma MapPair(word: string, slot: Token, f: Token -> Token)
    requires KeepsStructure(f)
    ensures MapSeq([Lit(word)] + [slot], f) == [Lit(word)] + [f(slot)]
  {
  }

  lemma MapElem(from: string, col: string, test: string, slot: Token, f: Token -> Token)
    requires KeepsStructure(f)
    ensures var inner := [Lit(from)] + Paren([Lit(col)]) + ([Lit(test)] + [slot]);
            MapSeq([Lit("EXISTS ")] + Paren(inner), f) ==
            [Lit("EXISTS ")] + Paren([Lit(from)] + Paren([Lit(col)]) + ([Lit(test)] + [f(slot)]))
  {
  }

  lemma MapAnyEntry(col: string, slot: Token, f: Token -> Token)
    requires KeepsStructure(f)
    ensures var tail := [Lit(" = ANY")] + Paren([Lit("COALESCE")] + Paren([Lit(col + ", '{}'")]));
            MapSeq([slot] + tail, f) == [f(slot)] + tail
    ensures MapSeq([slot] + ([Lit(" in UNNEST")] + Paren([Lit(col)])), f) ==
            [f(slot)] + ([Lit(" in UNNEST")] + Paren([Lit(col)]))
  {
  }

  lemma MapLowerLike(col: string, slot: Token, f: Token -> Token)
    requires KeepsStructure(f)
    ensures MapSeq([Lit("LOWER")] + Paren([Lit(col)]) + ([Lit(" LIKE ")] + [slot]), f) ==
            [Lit("LOWER")] + Paren([Lit(col)]) + ([Lit(" LIKE ")] + [f(slot)])
  {
  }

  lemma MapEmptyArray(col: string, f: Token -> Token)
    requires KeepsStructure(f)
    ensures var t := Paren([Lit(col + " IS NULL")] + [Or] + [Lit(col + " = '{}'")]); MapSeq(t, f) == t
    ensures var length := [Lit("ARRAY_LENGTH")] + Paren([Lit(col)]) + [Lit(" = 0")];
            var t := Paren([Lit(col + " IS NULL")] + [Or] + length); MapSeq(t, f) == t
  {
  }

  lemma MapPrefixed(word: string, t: Text, f: Token -> Token)
    requires KeepsStructure(f)
    ensures MapSeq([Lit(word)] + Paren(t), f) == [Lit(word)] + Paren(MapSeq(t, f))
    ensures MapSeq([Lit(word)] + t, f) == [Lit(word)] + MapSeq(t, f)
  {
  }

  lemma MapWord(word: string, f: Token -> Token)
    requires KeepsStructure(f)
    ensures MapSeq([Lit(word)], f) == [Lit(word)] && MapSeq([], f) == []
  {
  }

  /** Replacing tokens in a rendered condition replaces what stands in its slot, and nothing else. */
  lemma {:induction false} MapRender(d: Dialect, e: Sql, slot: Token, f: Token -> Token)
    requires KeepsStructure(f)
    ensures MapSeq(Render(d, e, slot), f) == Render(d, e, f(slot))
  {
    hide MapSeq, KeepsStructure, Paren;
    match e
    case Not(inner) =>
      MapRender(d, inner, slot, f);
      MapPrefixed("NOT", Render(d, inner, slot), f);
      MapPrefixed("NOT ", Render(d, inner, slot), f);
    case Rel(rel, col) => MapPair(col + RelationText(d, rel), slot, f);
    case ILike(col) => MapPair(col + " ILIKE ", slot, f);
    case LowerLike(col) => MapLowerLike(col, slot, f);
    case ElemILike(col) => MapElem("SELECT 1 FROM unnest", col, " AS elem WHERE elem ILIKE ", slot, f);
    case ElemLowerLike(col) => MapElem("SELECT 1 FROM UNNEST", col, " AS item WHERE LOWER(item) LIKE ", slot, f);
    case AnyEntry(col) => MapAnyEntry(col, slot, f);
    case IsNull(col) => MapWord(col + " IS NULL", f);
    case IsNotNull(col) => MapWord(col + " IS NOT NULL", f);
    case NullOrEmptyArray(col) => MapEmptyArray(col, f);
    case UnknownFilterOperator =>
      MapWord("", f);
      MapPrefixed("UnknownFilterOperator", [], f);
  }

  function NameHole(name: string): Token -> Token {
    (k: Token) => if k == Hole then Named(name) else k
  }

  /** Putting a name where the hole was. */
  function Name(t: Text, name: string): Text {
    MapSeq(t, NameHole(name))
  }

  predicate Unnamed(t: Text) {
    forall i :: 0 <= i < |t| ==> !t[i].Named?
  }

  /** Naming the holes leaves one placeholder for each. */
  lemma {:induction false} NamedHoles(t: Text, name: string)
    requires Unnamed(t)
    ensures NamesIn(Name(t, name)) == seq(HoleCount(t), _ => name)
  {
    if t != [] {
      NamedHoles(t[1..], name);
      assert Name(t, name)[1..] == Name(t[1..], name);
    }
  }

  lemma ElemUnnamed(from: string, col: string, test: string)
    ensures Unnamed([Lit("EXISTS ")] + Paren([Lit(from)] + Paren([Lit(col)]) + ([Lit(test)] + [Hole])))
  {
  }

  lemma AnyEntryUnnamed(col: string)
    ensures Unnamed([Hole] + ([Lit(" = ANY")] + Paren([Lit("COALESCE")] + Paren([Lit(col + ", '{}'")]))))
    ensures Unnamed([Hole] + ([Lit(" in UNNEST")] + Paren([Lit(col)])))
  {
  }

  lemma {:induction false} RenderIsUnnamed(e: Sql)
    ensures Unnamed(Render(BigQuery, e, Hole))
  {
    match e
    case Not(inner) => RenderIsUnnamed(inner);
    case ElemILike(col) => ElemUnnamed("SELECT 1 FROM unnest", col, " AS elem WHERE elem ILIKE ");
    case ElemLowerLike(col) => ElemUnnamed("SELECT 1 FROM UNNEST", col, " AS item WHERE LOWER(item) LIKE ");
    case AnyEntry(col) => AnyEntryUnnamed(col);
    case _ =>
  }

  /** One item with the name it would use, and its parameter if it takes one. */
  function ItemText(go: Go, item: FilterItem, types: string -> ColumnType, paramIndex: nat)
    : (Text, seq<QueryParameter>)
  {
    var c := ToBigQuery(go, item, Some(types(item.field)));
    var name := ParamName(paramIndex + 1);
    (Name(Render(BigQuery, c.sql, Hole), name), if c.param.Some? then [QueryParameter(name, c.param.value)] else [])
  }

  lemma ItemTextNames(go: Go, item: FilterItem, types: string -> ColumnType, paramIndex: nat)
    ensures var (text, params) := ItemText(go, item, types, paramIndex);
            && |params| <= 1
            && NamesIn(text) == Names(params) == NameRange(paramIndex + 1, |params|)
  {
    var c := ToBigQuery(go, item, Some(types(item.field)));
    ParamsFillHoles(go, item, "", Some(types(item.field)));
    hide ToBigQuery, Render, ParamName, NamesIn, HoleCount, Name, Unnamed;
    RenderHoles(BigQuery, c.sql);
    RenderIsUnnamed(c.sql);
    NamedHoles(Render(BigQuery, c.sql, Hole), ParamName(paramIndex + 1));
  }

  lemma {:induction false} NamesOfJoin(pieces: seq<Text>, connective: Token)
    requires connective == And || connective == Or
    ensures NamesIn(Join(pieces, connective)) == AllNames(pieces)
  {
    if |pieces| == 1 {
      assert AllNames(pieces[1..]) == [];
    } else if |pieces| > 1 {
      var tail := [connective] + Join(pieces[1..], connective);
      assert tail[1..] == Join(pieces[1..], connective);
      NamesConcat(pieces[0], tail);
      NamesOfJoin(pieces[1..], connective);
    }
  }

  function AllNames(pieces: seq<Text>): seq<string> {
    if pieces == [] then [] else NamesIn(pieces[0]) + AllNames(pieces[1..])
  }

  lemma AllNamesAppend(pieces: seq<Text>, t: Text)
    ensures AllNames(pieces + [t]) == AllNames(pieces) + NamesIn(t)
  {
    if pieces == [] {
      assert (pieces + [t])[1..] == [];
    } else {
      assert (pieces + [t])[1..] == pieces[1..] + [t];
      AllNamesAppend(pieces[1..], t);
    }
  }

  lemma ParenNames(t: Text)
    ensures NamesIn(Paren(t)) == NamesIn(t)
  {
    NamesConcat([Open] + t, [Close]);
    NamesConcat([Open], t);
    assert [Open][1..] == [] && [Close][1..] == [];
  }

  lemma NamesContinue(params: seq<QueryParameter>, more: seq<QueryParameter>, first: nat)
    requires Names(params) == NameRange(first, |params|) && Names(more) == NameRange(first + |params|, |more|)
    ensures Names(params + more) == Names(params) + Names(more) == NameRange(first, |params + more|)
  {
  }

  // ---------------------------------------------------------------------------------------
  // Clauses

  /** The items as texts and their parameters, each item taking the next free name. */
  function Pieces(go: Go, items: seq<FilterItem>, types: string -> ColumnType, paramIndex: nat)
    : (r: (seq<Text>, seq<QueryParameter>))
    ensures |r.0| == |items|
  {
    if items == [] then ([], [])
    else
      var (pieces, params) := Pieces(go, items[..|items| - 1], types, paramIndex);
      var (text, more) := ItemText(go, items[|items| - 1], types, paramIndex + |params|);
      (pieces + [text], params + more)
  }

  function Clause(go: Go, filter: Filter, types: string -> ColumnType, paramIndex: nat): (Text, seq<QueryParameter>) {
    var (pieces, params) := Pieces(go, filter.items, types, paramIndex);
    (Paren(Join(pieces, Connective(filter.link))), params)
  }

  /** The parameters carry the names from `first` on, and the texts place exactly those. */
  ghost predicate InSequence(pieces: seq<Text>, params: seq<QueryParameter>, first: nat) {
    Names(params) == NameRange(first, |params|) && AllNames(pieces) == Names(params)
  }

  lemma SequenceGrows(pieces: seq<Text>, params: seq<QueryParameter>, first: nat, text: Text, more: seq<QueryParameter>)
    requires InSequence(pieces, params, first)
    requires Names(more) == NameRange(first + |params|, |more|) && NamesIn(text) == Names(more)
    ensures InSequence(pieces + [text], params + more, first)
  {
    hide AllNames, NamesIn, Names, NameRange;
    AllNamesAppend(pieces, text);
    NamesContinue(params, more, first);
  }

  lemma EmptySequence(first: nat)
    ensures InSequence([], [], first)
  {
    assert Names([]) == NameRange(first, 0);
  }

  lemma {:induction false} PiecesNames(go: Go, items: seq<FilterItem>, types: string -> ColumnType, paramIndex: nat)
    ensures InSequence(Pieces(go, items, types, paramIndex).0, Pieces(go, items, types, paramIndex).1, paramIndex + 1)
  {
    hide ItemText, InSequence, NamesIn, Names, NameRange;
    if items == [] {
      EmptySequence(paramIndex + 1);
    } else {
      var (pieces, params) := Pieces(go, items[..|items| - 1], types, paramIndex);
      var index := paramIndex + |params|;
      var (text, more) := ItemText(go, items[|items| - 1], types, index);
      PiecesNames(go, items[..|items| - 1], types, paramIndex);
      ItemTextNames(go, items[|items| - 1], types, index);
      SequenceGrows(pieces, params, paramIndex + 1, text, more);
    }
  }

  lemma ClauseNames(go: Go, filter: Filter, types: string -> ColumnType, paramIndex: nat)
    ensures var (text, params) := Clause(go, filter, types, paramIndex);
            && Names(params) == NameRange(paramIndex + 1, |params|)
            && NamesIn(text) == Names(params)
  {
    var (pieces, params) := Pieces(go, filter.items, types, paramIndex);
    hide Pieces, NamesIn, AllNames, Join;
    PiecesNames(go, filter.items, types, paramIndex);
    assert InSequence(pieces, params, paramIndex + 1);
    NamesOfJoin(pieces, Connective(filter.link));
    ParenNames(Join(pieces, Connective(filter.link)));
  }

  // ---------------------------------------------------------------------------------------
  // What the database sees

  /** The value of the parameter with that name. */
  function ValueOf(params: seq<QueryParameter>, name: string): Option<Param> {
    if params == [] then None
    else if params[0].name == name then Some(params[0].value)
    else ValueOf(params[1..], name)
  }

  function Binding(params: seq<QueryParameter>): Token -> Token {
    (k: Token) => if k.Named? && ValueOf(params, k.name).Some? then Bound(ValueOf(params, k.name).value) else k
  }

  /** A query with the parameters in place. */
  function Resolve(t: Text, params: seq<QueryParameter>): Text {
    MapSeq(t, Binding(params))
  }

  ghost predicate DistinctNames(params: seq<QueryParameter>) {
    forall i, j :: 0 <= i < j < |params| ==> params[i].name != params[j].name
  }

  lemma RangeIsDistinct(params: seq<QueryParameter>, first: nat)
    requires Names(params) == NameRange(first, |params|)
    ensures DistinctNames(params)
  {
    forall i, j | 0 <= i < j < |params| ensures params[i].name != params[j].name {
      assert Names(params)[i] == ParamName(first + i) && Names(params)[j] == ParamName(first + j);
      ParamNamesDiffer(first + i, first + j);
    }
  }

  lemma {:induction false} ValueOfOwnName(params: seq<QueryParameter>, q: QueryParameter)
    requires DistinctNames(params) && q in params
    ensures ValueOf(params, q.name) == Some(q.value)
  {
    if params[0] != q {
      var i :| 0 <= i < |params| && params[i] == q;
      assert params[0].name != params[i].name && params[1..][i - 1] == q;
      ValueOfOwnName(params[1..], q);
    }
  }

  lemma {:induction false} SlotUnused(e: Sql, a: Token, b: Token)
    requires Holes(e) == 0
    ensures Render(BigQuery, e, a) == Render(BigQuery, e, b)
  {
    match e
    case Not(inner) => SlotUnused(inner, a, b);
    case _ =>
  }

  /** One item with its own value in place. */
  function BoundItem(go: Go, types: string -> ColumnType, item: FilterItem): Text {
    var c := ToBigQuery(go, item, Some(types(item.field)));
    Render(BigQuery, c.sql, if c.param.Some? then Bound(c.param.value) else Hole)
  }

  function BoundItems(go: Go, types: string -> ColumnType, items: seq<FilterItem>): (texts: seq<Text>)
    ensures |texts| == |items|
  {
    seq(|items|, i requires 0 <= i < |items| => BoundItem(go, types, items[i]))
  }

  /** Among any parameters with distinct names the item finds its own. */
  lemma ItemResolves(go: Go, item: FilterItem, types: string -> ColumnType, paramIndex: nat,
                     params: seq<QueryParameter>)
    requires DistinctNames(params)
    requires forall q :: q in ItemText(go, item, types, paramIndex).1 ==> q in params
    ensures Resolve(ItemText(go, item, types, paramIndex).0, params) == BoundItem(go, types, item)
  {
    var c := ToBigQuery(go, item, Some(types(item.field)));
    var name := ParamName(paramIndex + 1);
    var slot := Binding(params)(Named(name));
    MapRender(BigQuery, c.sql, Hole, NameHole(name));
    MapRender(BigQuery, c.sql, Named(name), Binding(params));
    if c.param.Some? {
      var q := QueryParameter(name, c.param.value);
      assert q in ItemText(go, item, types, paramIndex).1;
      ValueOfOwnName(params, q);
    } else {
      ParamsFillHoles(go, item, "", Some(types(item.field)));
      SlotUnused(c.sql, slot, Hole);
    }
  }

  lemma {:induction false} PiecesResolve(go: Go, items: seq<FilterItem>, types: string -> ColumnType, paramIndex: nat,
                                         params: seq<QueryParameter>, i: nat)
    requires DistinctNames(params) && i < |items|
    requires forall q :: q in Pieces(go, items, types, paramIndex).1 ==> q in params
    ensures Resolve(Pieces(go, items, types, paramIndex).0[i], params) == BoundItem(go, types, items[i])
  {
    var (pieces, own) := Pieces(go, items[..|items| - 1], types, paramIndex);
    var (text, more) := ItemText(go, items[|items| - 1], types, paramIndex + |own|);
    assert Pieces(go, items, types, paramIndex) == (pieces + [text], own + more);
    hide Pieces, ItemText, Resolve, BoundItem;
    if i < |items| - 1 {
      PiecesResolve(go, items[..|items| - 1], types, paramIndex, params, i);
    } else {
      ItemResolves(go, items[i], types, paramIndex + |own|, params);
    }
  }

  function MapAll(pieces: seq<Text>, f: Token -> Token): (r: seq<Text>)
    ensures |r| == |pieces|
  {
    seq(|pieces|, i requires 0 <= i < |pieces| => MapSeq(pieces[i], f))
  }

  lemma {:induction false} MapJoin(pieces: seq<Text>, connective: Token, f: Token -> Token)
    requires KeepsStructure(f) && (connective == And || connective == Or)
    ensures MapSeq(Join(pieces, connective), f) == Join(MapAll(pieces, f), connective)
  {
    if |pieces| > 1 {
      var rest := Join(pieces[1..], connective);
      MapJoin(pieces[1..], connective, f);
      assert MapAll(pieces, f)[1..] == MapAll(pieces[1..], f);
      MapConcat(pieces[0], [connective] + rest, f);
      MapConcat([connective], rest, f);
      assert MapSeq([connective], f) == [connective];
    }
  }

  /**
   Whatever other clauses share the counter, a clause with the parameters in place is the join of its
   items, each with its own value.
   */
  lemma ClauseResolves(go: Go, filter: Filter, types: string -> ColumnType, paramIndex: nat,
                       params: seq<QueryParameter>)
    requires DistinctNames(params)
    requires forall q :: q in Clause(go, filter, types, paramIndex).1 ==> q in params
    ensures Resolve(Clause(go, filter, types, paramIndex).0, params) ==
            Paren(Join(BoundItems(go, types, filter.items), Connective(filter.link)))
  {
    var (pieces, own) := Pieces(go, filter.items, types, paramIndex);
    var joiner := Connective(filter.link);
    MapParen(Join(pieces, joiner), Binding(params));
    MapJoin(pieces, joiner, Binding(params));
    forall i | 0 <= i < |pieces| ensures MapAll(pieces, Binding(params))[i] == BoundItems(go, types, filter.items)[i] {
      PiecesResolve(go, filter.items, types, paramIndex, params, i);
    }
    assert MapAll(pieces, Binding(params)) == BoundItems(go, types, filter.items);
  }

  /**
   In three-valued logic the clause that the database sees selects a row exactly when the individually
   bound items do under the link: any of them with "or", all of them otherwise.
   */
  lemma ClauseSelectsLinked(go: Go, filter: Filter, types: string -> ColumnType, says: Text -> Truth)
    requires filter.items != []
    ensures var bound := BoundItems(go, types, filter.items);
            var pieces := TopLevel(Join(bound, Connective(filter.link)), Connective(filter.link), 0, []);
            && pieces == bound
            && (ClauseTruth(pieces, Connective(filter.link), says) == True <==>
                  if filter.link == LinkOr then SomeSays(bound, says) else AllSay(bound, says))
  {
    var bound := BoundItems(go, types, filter.items);
    forall i | 0 <= i < |bound| ensures Level(bound[i], 0) {
      var c := ToBigQuery(go, filter.items[i], Some(types(filter.items[i].field)));
      RenderIsLevel(BigQuery, c.sql, if c.param.Some? then Bound(c.param.value) else Hole, 0);
    }
    JoinParses(bound, Connective(filter.link));
    ClauseTruthIsLink(bound, Connective(filter.link), says);
  }

  /**
   `ToBQStr`: every item compiled with the next free name, the counter advanced by the parameters used,
   and the placeholders of the clause exactly the names of the parameters in the same order. With the
   parameters in place the clause is the join of the items, each with its own value.
   */
  method ToBQStr(go: Go, filter: Filter, types: string -> ColumnType, paramIndex: nat)
    returns (text: Text, params: seq<QueryParameter>, next: nat)
    ensures (text, params) == Clause(go, filter, types, paramIndex)
    ensures next == paramIndex + |params|
    ensures Names(params) == NameRange(paramIndex + 1, |params|)
    ensures NamesIn(text) == Names(params)
    ensures Resolve(text, params) == Paren(Join(BoundItems(go, types, filter.items), Connective(filter.link)))
  {
    var pieces: seq<Text> := [];
    params, next := [], paramIndex;
    hide ItemText, Join;
    for i := 0 to |filter.items|
      invariant next == paramIndex + |params|
      invariant Pieces(go, filter.items[..i], types, paramIndex) == (pieces, params)
    {
      assert filter.items[..i + 1][..i] == filter.items[..i];
      var (item, more) := ItemText(go, filter.items[i], types, next);
      pieces := pieces + [item];
      params := params + more;
      next := next + |more|;
    }
    assert filter.items[..|filter.items|] == filter.items;
    text := Paren(Join(pieces, Connective(filter.link)));
    assert (text, params) == Clause(go, filter, types, paramIndex);
    hide Clause, Pieces, NamesIn, Names, Resolve, BoundItems;
    ClauseNames(go, filter, types, paramIndex);
    RangeIsDistinct(params, paramIndex + 1);
    ClauseResolves(go, filter, types, paramIndex, params);
  }

  /**
   A series of clauses with one counter: all names differ, each is placed once, and with all parameters in
   place every clause is the join of its own items with their own values.
   */
  method ToBQSeries(go: Go, filters: seq<Filter>, types: string -> ColumnType)
    returns (texts: seq<Text>, params: seq<QueryParameter>)
    ensures |texts| == |filters|
    ensures AllNames(texts) == Names(params) && DistinctNames(params)
    ensures forall i :: 0 <= i < |filters| ==>
              Resolve(texts[i], params) ==
                Paren(Join(BoundItems(go, types, filters[i].items), Connective(filters[i].link)))
  {
    hide *;
    texts, params := [], [];
    var paramIndex := 0;
    ghost var starts: seq<nat> := [];
    EmptySeries(go, types);
    for i := 0 to |filters|
      invariant |texts| == i && paramIndex == |params|
      invariant SeriesAt(go, filters[..i], types, starts, texts, params)
    {
      var text, more, next := ToBQStr(go, filters[i], types, paramIndex);
      SeriesGrows(go, filters[..i], types, starts, texts, params, filters[i], text, more);
      assert filters[..i] + [filters[i]] == filters[..i + 1];
      starts := starts + [paramIndex];
      texts, params, paramIndex := texts + [text], params + more, next;
    }
    assert filters[..|filters|] == filters;
    SeriesResolves(go, filters, types, starts, texts, params);
  }

  /** Every clause starts where the counter stood, and the names are in sequence. */
  ghost predicate SeriesAt(go: Go, filters: seq<Filter>, types: string -> ColumnType, starts: seq<nat>,
                           texts: seq<Text>, params: seq<QueryParameter>)
  {
    && |texts| == |starts| == |filters| && InSequence(texts, params, 1)
    && forall k :: 0 <= k < |filters| ==> ClauseAt(go, filters[k], types, starts[k], texts[k], params)
  }

  lemma EmptySeries(go: Go, types: string -> ColumnType)
    ensures SeriesAt(go, [], types, [], [], [])
  {
    EmptySequence(1);
  }

  lemma SeriesGrows(go: Go, filters: seq<Filter>, types: string -> ColumnType, starts: seq<nat>, texts: seq<Text>,
                    params: seq<QueryParameter>, filter: Filter, text: Text, more: seq<QueryParameter>)
    requires SeriesAt(go, filters, types, starts, texts, params)
    requires (text, more) == Clause(go, filter, types, |params|)
    requires NamesIn(text) == Names(more) == NameRange(|params| + 1, |more|)
    ensures SeriesAt(go, filters + [filter], types, starts + [|params|], texts + [text], params + more)
  {
    hide Clause, NamesIn, Names, NameRange, InSequence, ClauseAt;
    SequenceGrows(texts, params, 1, text, more);
    ClauseIsAt(go, filter, types, |params|, text, params, more);
    forall k | 0 <= k < |filters| ensures ClauseAt(go, filters[k], types, starts[k], texts[k], params + more) {
      MoreParams(go, filters[k], types, starts[k], texts[k], params, more);
    }
  }

  lemma SeriesResolves(go: Go, filters: seq<Filter>, types: string -> ColumnType, starts: seq<nat>,
                       texts: seq<Text>, params: seq<QueryParameter>)
    requires SeriesAt(go, filters, types, starts, texts, params)
    ensures AllNames(texts) == Names(params) && DistinctNames(params)
    ensures forall i :: 0 <= i < |filters| ==>
              Resolve(texts[i], params) ==
                Paren(Join(BoundItems(go, types, filters[i].items), Connective(filters[i].link)))
  {
    hide AllNames, Names, Resolve, BoundItems, Join, InSequence, ClauseAt, DistinctNames;
    SequenceIsDistinct(texts, params, 1);
    forall i | 0 <= i < |filters|
      ensures Resolve(texts[i], params) ==
              Paren(Join(BoundItems(go, types, filters[i].items), Connective(filters[i].link)))
    {
      ClauseAtResolves(go, filters[i], types, starts[i], texts[i], params);
    }
  }

  lemma SequenceIsDistinct(texts: seq<Text>, params: seq<QueryParameter>, first: nat)
    requires InSequence(texts, params, first)
    ensures AllNames(texts) == Names(params) && DistinctNames(params)
  {
    RangeIsDistinct(params, first);
  }

  lemma ClauseIsAt(go: Go, filter: Filter, types: string -> ColumnType, start: nat, text: Text,
                   before: seq<QueryParameter>, own: seq<QueryParameter>)
    requires (text, own) == Clause(go, filter, types, start)
    ensures ClauseAt(go, filter, types, start, text, before + own)
  {
    hide Clause;
  }

  lemma MoreParams(go: Go, filter: Filter, types: string -> ColumnType, start: nat, text: Text,
                   params: seq<QueryParameter>, more: seq<QueryParameter>)
    requires ClauseAt(go, filter, types, start, text, params)
    ensures ClauseAt(go, filter, types, start, text, params + more)
  {
    hide Clause;
  }

  lemma ClauseAtResolves(go: Go, filter: Filter, types: string -> ColumnType, start: nat, text: Text,
                         params: seq<QueryParameter>)
    requires DistinctNames(params) && ClauseAt(go, filter, types, start, text, params)
    ensures Resolve(text, params) == Paren(Join(BoundItems(go, types, filter.items), Connective(filter.link)))
  {
    hide Clause, Resolve, BoundItems, Join, DistinctNames;
    ClauseResolves(go, filter, types, start, params);
  }

  /** The text is the clause compiled from that counter value, and its parameters are among those given. */
  ghost predicate ClauseAt(go: Go, filter: Filter, types: string -> ColumnType, start: nat, text: Text,
                           params: seq<QueryParameter>)
  {
    && text == Clause(go, filter, types, start).0
    && forall q :: q in Clause(go, filter, types, start).1 ==> q in params
  }
}
