/**
 Linking, splitting and staging filter items (pkg/filter/filterable.go:436-609,
 pkg/api/tests.go:496-503). What a single item says about a row is a parameter.
 */
module FilterLink {
  import opened Common
  import opened FilterSql
  import opened FilterMemory

  datatype Filter = Filter(items: seq<FilterItem>, link: string)

  const LinkAnd := "and"
  const LinkOr := "or"

  // ---------------------------------------------------------------------------------------
  // Split

  /** The items on one of the fields, or the others, in order. */
  function Select(items: seq<FilterItem>, fields: seq<string>, wanted: bool): seq<FilterItem> {
    if items == [] then []
    else
      var rest := Select(items[..|items| - 1], fields, wanted);
      if (items[|items| - 1].field in fields) == wanted then rest + [items[|items| - 1]] else rest
  }

  /** `Split`. */
  method Split(filter: Filter, fields: seq<string>) returns (newFilter: Filter, oldFilter: Filter)
    ensures newFilter == Filter(Select(filter.items, fields, true), filter.link)
    ensures oldFilter == Filter(Select(filter.items, fields, false), filter.link)
  {
    var newItems, oldItems := [], [];
    for i := 0 to |filter.items|
      invariant newItems == Select(filter.items[..i], fields, true)
      invariant oldItems == Select(filter.items[..i], fields, false)
    {
      var item := filter.items[i];
      assert filter.items[..i + 1][..i] == filter.items[..i];
      var found := false;
      for f := 0 to |fields|
        invariant !found && item.field !in fields[..f]
      {
        if item.field == fields[f] {
          found := true;
          break;
        }
      }
      if found {
        newItems := newItems + [item];
      } else {
        oldItems := oldItems + [item];
      }
    }
    assert filter.items[..|filter.items|] == filter.items;
    newFilter, oldFilter := Filter(newItems, filter.link), Filter(oldItems, filter.link);
  }

  /** `a` and `b` merged, in some way, give `all`: nothing lost, nothing added, order kept. */
  predicate Interleaves(all: seq<FilterItem>, a: seq<FilterItem>, b: seq<FilterItem>)
    decreases |all|
  {
    if all == [] then a == [] && b == []
    else
      var init, last := all[..|all| - 1], all[|all| - 1];
      || (a != [] && a[|a| - 1] == last && Interleaves(init, a[..|a| - 1], b))
      || (b != [] && b[|b| - 1] == last && Interleaves(init, a, b[..|b| - 1]))
  }

  lemma {:induction false} SplitInterleaves(items: seq<FilterItem>, fields: seq<string>)
    ensures Interleaves(items, Select(items, fields, true), Select(items, fields, false))
  {
    if items != [] {
      var init, last := items[..|items| - 1], items[|items| - 1];
      SplitInterleaves(init, fields);
      var a, b := Select(init, fields, true), Select(init, fields, false);
      assert (a + [last])[..|a|] == a && (b + [last])[..|b|] == b;
    }
  }

  lemma {:induction false} SplitConserves(items: seq<FilterItem>, fields: seq<string>)
    ensures multiset(items) == multiset(Select(items, fields, true)) + multiset(Select(items, fields, false))
  {
    if items != [] {
      SplitConserves(items[..|items| - 1], fields);
      assert items == items[..|items| - 1] + [items[|items| - 1]];
    }
  }

  lemma {:induction false} SelectMembers(items: seq<FilterItem>, fields: seq<string>, wanted: bool, x: FilterItem)
    ensures x in Select(items, fields, wanted) <==> x in items && ((x.field in fields) == wanted)
  {
    if items != [] {
      SelectMembers(items[..|items| - 1], fields, wanted, x);
      assert items == items[..|items| - 1] + [items[|items| - 1]];
    }
  }

  /** `Split` is a stable partition: it keeps the order, conserves the items and separates by field. */
  lemma SplitIsStablePartition(items: seq<FilterItem>, fields: seq<string>)
    ensures Interleaves(items, Select(items, fields, true), Select(items, fields, false))
    ensures multiset(items) == multiset(Select(items, fields, true)) + multiset(Select(items, fields, false))
    ensures forall x :: x in Select(items, fields, true) <==> x in items && x.field in fields
    ensures forall x :: x in Select(items, fields, false) <==> x in items && x.field !in fields
  {
    hide Select, Interleaves;
    SplitInterleaves(items, fields);
    SplitConserves(items, fields);
    forall x ensures x in Select(items, fields, true) <==> x in items && x.field in fields {
      SelectMembers(items, fields, true, x);
    }
    forall x ensures x in Select(items, fields, false) <==> x in items && x.field !in fields {
      SelectMembers(items, fields, false, x);
    }
  }

  // ---------------------------------------------------------------------------------------
  // Linking

  /** What the items say about one row. */
  type RowTest = FilterItem -> Truth

  ghost predicate AllHold(items: seq<FilterItem>, row: RowTest) {
    forall i :: 0 <= i < |items| ==> row(items[i]) == True
  }

  ghost predicate SomeHolds(items: seq<FilterItem>, row: RowTest) {
    exists i :: 0 <= i < |items| && row(items[i]) == True
  }

  function TriOr(a: Truth, b: Truth): Truth {
    if a == True || b == True then True else if a == Unknown || b == Unknown then Unknown else False
  }

  function TriAnd(a: Truth, b: Truth): Truth {
    if a == False || b == False then False else if a == Unknown || b == Unknown then Unknown else True
  }

  /** One call of `Where`: the items it joins with "or"; a call without items adds no condition. */
  type WhereCall = seq<FilterItem>

  function Joined(call: WhereCall, row: RowTest): Truth
    requires call != []
  {
    if |call| == 1 then row(call[0]) else TriOr(Joined(call[..|call| - 1], row), row(call[|call| - 1]))
  }

  function WhereTruth(calls: seq<WhereCall>, row: RowTest): Truth {
    if calls == [] then True
    else
      var last := calls[|calls| - 1];
      TriAnd(WhereTruth(calls[..|calls| - 1], row), if last == [] then True else Joined(last, row))
  }

  /** `ToSQL`: one call for each item, or one call for all of them at the end. */
  method ToSQL(filter: Filter) returns (calls: seq<WhereCall>)
    ensures calls == WhereCalls(filter)
  {
    calls := [];
    var orFilters: seq<FilterItem> := [];
    for i := 0 to |filter.items|
      invariant calls == if filter.link == LinkAnd || filter.link == "" then Singles(filter.items[..i]) else []
      invariant orFilters == if filter.link == LinkOr then filter.items[..i] else []
    {
      assert filter.items[..i + 1] == filter.items[..i] + [filter.items[i]];
      if filter.link == LinkAnd || filter.link == "" {
        calls := calls + [[filter.items[i]]];
      } else if filter.link == LinkOr {
        orFilters := orFilters + [filter.items[i]];
      }
    }
    assert filter.items[..|filter.items|] == filter.items;
    calls := calls + [orFilters];
  }

  function Singles(items: seq<FilterItem>): (calls: seq<WhereCall>)
    ensures |calls| == |items|
  {
    seq(|items|, i requires 0 <= i < |items| => [items[i]])
  }

  function WhereCalls(filter: Filter): seq<WhereCall> {
    if filter.link == LinkAnd || filter.link == "" then Singles(filter.items) + [[]]
    else if filter.link == LinkOr then [filter.items]
    else [[]]
  }

  /** The query selects the row. */
  ghost predicate SqlSelects(filter: Filter, row: RowTest) {
    WhereTruth(WhereCalls(filter), row) == True
  }

  /** What linking should mean: no items select everything. */
  ghost predicate Linked(filter: Filter, row: RowTest) {
    filter.items == [] || if filter.link == LinkOr then SomeHolds(filter.items, row) else AllHold(filter.items, row)
  }

  predicate KnownLink(link: string) {
    link == LinkAnd || link == "" || link == LinkOr
  }

  lemma {:induction false} JoinedIsSome(call: WhereCall, row: RowTest)
    requires call != []
    ensures Joined(call, row) == True <==> SomeHolds(call, row)
  {
    var init, last := call[..|call| - 1], |call| - 1;
    if |call| == 1 {
      assert SomeHolds(call, row) <==> row(call[0]) == True;
    } else {
      JoinedIsSome(init, row);
      if i :| 0 <= i < |init| && row(init[i]) == True { assert row(call[i]) == True; }
      if i :| 0 <= i < |call| && row(call[i]) == True && i < last { assert row(init[i]) == True; }
    }
  }

  lemma {:induction false} SinglesAreAll(items: seq<FilterItem>, row: RowTest)
    ensures WhereTruth(Singles(items), row) == True <==> AllHold(items, row)
  {
    if items != [] {
      var init := items[..|items| - 1];
      SinglesAreAll(init, row);
      assert Singles(items)[..|items| - 1] == Singles(init);
      if AllHold(init, row) {
        forall i | 0 <= i < |items| - 1 ensures row(items[i]) == True { assert row(init[i]) == True; }
      } else {
        var i :| 0 <= i < |init| && row(init[i]) != True;
        assert row(items[i]) != True;
      }
    }
  }

  /** With a link operator that `ToSQL` knows, the query selects what the link says, and only then for all rows. */
  lemma SqlSelectsLinked(filter: Filter, row: RowTest)
    ensures KnownLink(filter.link) ==> (SqlSelects(filter, row) <==> Linked(filter, row))
    ensures !KnownLink(filter.link) ==> SqlSelects(filter, row)
  {
    var calls := WhereCalls(filter);
    if filter.link == LinkAnd || filter.link == "" {
      SinglesAreAll(filter.items, row);
      assert calls[..|calls| - 1] == Singles(filter.items);
    } else {
      assert calls[..0] == [] && WhereTruth([], row) == True;
      if filter.link == LinkOr && filter.items != [] {
        JoinedIsSome(filter.items, row);
        assert WhereTruth([filter.items], row) == TriAnd(True, Joined(filter.items, row));
        hide WhereTruth, Joined, SomeHolds;
      }
    }
  }

  /** An unknown link operator turns the whole filter off in SQL; memory takes it for "and". */
  lemma LinkingAgreesIff(filter: Filter)
    ensures (forall row: RowTest :: SqlSelects(filter, row) <==> Linked(filter, row)) <==>
            KnownLink(filter.link) || filter.items == []
  {
    if KnownLink(filter.link) || filter.items == [] {
      forall row: RowTest ensures SqlSelects(filter, row) <==> Linked(filter, row) {
        SqlSelectsLinked(filter, row);
      }
    } else {
      var row: RowTest := item => False;
      SqlSelectsLinked(filter, row);
      assert row(filter.items[0]) == False;
      assert !Linked(filter, row);
    }
  }

  // ---------------------------------------------------------------------------------------
  // Filter in memory

  type MemoryTest = FilterItem -> Result<bool>

  /** `Filter`: evaluates every item up to the first error, then links the results. */
  method FilterRow(filter: Filter, test: MemoryTest) returns (r: Result<bool>)
    ensures r.Err? <==> exists i :: 0 <= i < |filter.items| && test(filter.items[i]).Err?
    ensures r.Ok? ==> (r.value <==> Linked(filter, item => Tri(Accepts(item, test(item)))))
  {
    if |filter.items| == 0 {
      return Ok(true);
    }
    ghost var row: RowTest := item => Tri(Accepts(item, test(item)));
    var matches: seq<bool> := [];
    for i := 0 to |filter.items|
      invariant |matches| == i
      invariant forall j :: 0 <= j < i ==> test(filter.items[j]).Ok?
      invariant forall j :: 0 <= j < i ==> (matches[j] <==> row(filter.items[j]) == True)
    {
      match test(filter.items[i]) {
        case Err(message) => return Err(message);
        case Ok(result) => matches := matches + [if filter.items[i].negated then !result else result];
      }
    }
    if filter.link == LinkOr {
      for i := 0 to |matches|
        invariant forall j :: 0 <= j < i ==> !matches[j]
      {
        if matches[i] { return Ok(true); }
      }
      return Ok(false);
    }
    for i := 0 to |matches|
      invariant forall j :: 0 <= j < i ==> matches[j]
    {
      if !matches[i] { return Ok(false); }
    }
    return Ok(true);
  }

  // ---------------------------------------------------------------------------------------
  // Staged filtering

  datatype Staged = Staged(name: Filter, variants: Filter, lifecycle: Filter, processed: Filter)

  /** The chain of splits in `buildTestsResultsPGGenerator`. */
  method Stage(filter: Filter) returns (s: Staged)
    ensures s == Stages(filter)
  {
    var nameVariantsAndLifecycle, processed := Split(filter, ["name", "variants", "lifecycle"]);
    var name, variantsAndLifecycle := Split(nameVariantsAndLifecycle, ["name"]);
    var variants, lifecycle := Split(variantsAndLifecycle, ["variants"]);
    s := Staged(name, variants, lifecycle, processed);
  }

  function Stages(filter: Filter): Staged {
    var early := Select(filter.items, ["name", "variants", "lifecycle"], true);
    var late := Select(filter.items, ["name", "variants", "lifecycle"], false);
    var rest := Select(early, ["name"], false);
    Staged(Filter(Select(early, ["name"], true), filter.link), Filter(Select(rest, ["variants"], true), filter.link),
           Filter(Select(rest, ["variants"], false), filter.link), Filter(late, filter.link))
  }

  function Parts(filter: Filter): seq<Filter> {
    var s := Stages(filter);
    [s.name, s.variants, s.lifecycle, s.processed]
  }

  function PartOf(item: FilterItem): (p: nat)
    ensures p < 4
  {
    if item.field == "name" then 0
    else if item.field == "variants" then 1
    else if item.field == "lifecycle" then 2
    else 3
  }

  /** Every item is in the part of its field and in no other. */
  lemma PartsPartition(filter: Filter)
    ensures |Parts(filter)| == 4
    ensures forall p, x :: 0 <= p < 4 ==> (x in Parts(filter)[p].items <==> x in filter.items && PartOf(x) == p)
    ensures forall p :: 0 <= p < 4 ==> Parts(filter)[p].link == filter.link
  {
    var early := Select(filter.items, ["name", "variants", "lifecycle"], true);
    var rest := Select(early, ["name"], false);
    hide Select;
    forall p, x | 0 <= p < 4 ensures x in Parts(filter)[p].items <==> x in filter.items && PartOf(x) == p {
      SelectMembers(filter.items, ["name", "variants", "lifecycle"], p < 3, x);
      SelectMembers(early, ["name"], p == 0, x);
      SelectMembers(rest, ["variants"], p == 1, x);
      assert x.field in ["name", "variants", "lifecycle"] <==> PartOf(x) < 3;
    }
  }

  /** No item is lost or repeated by the chain. */
  lemma PartsConserve(filter: Filter)
    ensures var s := Stages(filter);
            multiset(filter.items) ==
            multiset(s.name.items) + multiset(s.variants.items) + multiset(s.lifecycle.items) +
              multiset(s.processed.items)
  {
    var early := Select(filter.items, ["name", "variants", "lifecycle"], true);
    var rest := Select(early, ["name"], false);
    SplitConserves(filter.items, ["name", "variants", "lifecycle"]);
    SplitConserves(early, ["name"]);
    SplitConserves(rest, ["variants"]);
    hide Select;
  }

  ghost predicate StagedSelects(filter: Filter, row: RowTest) {
    forall p :: 0 <= p < 4 ==> Linked(Parts(filter)[p], row)
  }

  ghost predicate AtMostOnePart(filter: Filter) {
    forall p, q :: 0 <= p < q < 4 ==> Parts(filter)[p].items == [] || Parts(filter)[q].items == []
  }

  lemma HoldsByMembership(items: seq<FilterItem>, row: RowTest)
    ensures AllHold(items, row) <==> forall x :: x in items ==> row(x) == True
    ensures SomeHolds(items, row) <==> exists x :: x in items && row(x) == True
  {
    if SomeHolds(items, row) {
      var i :| 0 <= i < |items| && row(items[i]) == True;
      assert items[i] in items;
    }
  }

  /** Applying the parts one after the other never selects more, and with "and" exactly the same. */
  lemma StagedImpliesWhole(filter: Filter, row: RowTest)
    ensures StagedSelects(filter, row) ==> Linked(filter, row)
    ensures filter.link != LinkOr ==> (StagedSelects(filter, row) <==> Linked(filter, row))
  {
    PartsPartition(filter);
    HoldsByMembership(filter.items, row);
    hide Parts, AllHold, SomeHolds;
    forall p | 0 <= p < 4
      ensures AllHold(Parts(filter)[p].items, row) <==> forall x :: x in Parts(filter)[p].items ==> row(x) == True
      ensures SomeHolds(Parts(filter)[p].items, row) <==> exists x :: x in Parts(filter)[p].items && row(x) == True
    {
      HoldsByMembership(Parts(filter)[p].items, row);
    }
    if filter.items != [] && StagedSelects(filter, row) {
      var x := filter.items[0];
      assert x in Parts(filter)[PartOf(x)].items;
      assert Linked(Parts(filter)[PartOf(x)], row);
      if filter.link != LinkOr {
        forall y | y in filter.items ensures row(y) == True {
          assert y in Parts(filter)[PartOf(y)].items && Linked(Parts(filter)[PartOf(y)], row);
        }
      }
    }
  }

  lemma HasMember(items: seq<FilterItem>)
    ensures items == [] || exists x :: x in items
  {
    if items != [] { assert items[0] in items; }
  }

  lemma SinglePartSuffices(filter: Filter, row: RowTest)
    requires filter.link == LinkOr && AtMostOnePart(filter) && Linked(filter, row)
    ensures StagedSelects(filter, row)
  {
    PartsPartition(filter);
    hide Parts, AllHold, SomeHolds;
    if filter.items == [] {
      forall q | 0 <= q < 4 ensures Parts(filter)[q].items == [] {
        HasMember(Parts(filter)[q].items);
        assert forall x :: x in Parts(filter)[q].items ==> x in filter.items;
      }
    } else {
      HoldsByMembership(filter.items, row);
      var x :| x in filter.items && row(x) == True;
      var p := PartOf(x);
      assert x in Parts(filter)[p].items;
      HoldsByMembership(Parts(filter)[p].items, row);
      forall q | 0 <= q < 4 ensures Linked(Parts(filter)[q], row) {
        if p < q { assert Parts(filter)[q].items == []; }
        if q < p { assert Parts(filter)[q].items == []; }
      }
    }
  }

  /** With items in two parts, a row that satisfies only the first part is lost. */
  lemma TwoPartsLoseRow(filter: Filter, p: nat, q: nat) returns (row: RowTest)
    requires filter.link == LinkOr && p < q < 4 && |Parts(filter)| == 4
    requires Parts(filter)[p].items != [] && Parts(filter)[q].items != []
    ensures Linked(filter, row) && !StagedSelects(filter, row)
  {
    PartsPartition(filter);
    hide Parts, AllHold, SomeHolds;
    row := item => if PartOf(item) == p then True else False;
    var x := Parts(filter)[p].items[0];
    assert x in Parts(filter)[p].items && x in filter.items && row(x) == True;
    HoldsByMembership(filter.items, row);
    HoldsByMembership(Parts(filter)[q].items, row);
    assert !Linked(Parts(filter)[q], row);
  }

  /** With "or", staging is exact for all rows if and only if at most one part has items. */
  lemma StagedOrExactIff(filter: Filter)
    requires filter.link == LinkOr
    ensures (forall row: RowTest :: StagedSelects(filter, row) <==> Linked(filter, row)) <==> AtMostOnePart(filter)
  {
    PartsPartition(filter);
    if AtMostOnePart(filter) {
      forall row: RowTest ensures StagedSelects(filter, row) <==> Linked(filter, row) {
        StagedImpliesWhole(filter, row);
        if Linked(filter, row) { SinglePartSuffices(filter, row); }
      }
    } else {
      var p, q :| 0 <= p < q < 4 && Parts(filter)[p].items != [] && Parts(filter)[q].items != [];
      var row := TwoPartsLoseRow(filter, p, q);
    }
  }
}
