/**
 Hash-guarded schema synchronisation (pkg/db/db.go, pkg/db/views.go).

 The database is a catalog of materialized views and indexes plus the `schema_hashes` table.
 Statements run one at a time, and any of them may fail or be the last one before a crash.
 The table has no unique key, so it is a sequence of rows and a lookup may return any row of
 the resource asked for.
 */
module SchemaSync {
  import opened Common

  datatype Kind = MatView | Index

  datatype Resource = Resource(kind: Kind, name: string)

  /** What exists, and the statement that created it. */
  type Catalog = map<Resource, string>

  datatype HashRow = HashRow(res: Resource, hash: string)

  /** One call of `syncSchema`: a resource, the statement that creates it afresh, and the view it belongs to. */
  datatype Item = Item(res: Resource, sql: string, view: string)

  datatype IndexDef = IndexDef(name: string, sql: string)

  /** A view of `PostgresMatViews`, its definition rendered, with the unique index first. */
  datatype View = View(name: string, sql: string, indexes: seq<IndexDef>)

  /** The materialized views a statement reads (tables always exist, so they are left out), and the hash. */
  datatype Server = Server(refs: string -> set<string>, sha: string -> string)

  function IndexItems(v: View): (items: seq<Item>)
    ensures |items| == |v.indexes|
  {
    seq(|v.indexes|, i requires 0 <= i < |v.indexes| =>
      Item(Resource(Index, v.indexes[i].name), v.indexes[i].sql, v.name))
  }

  function ViewItem(v: View): Item {
    Item(Resource(MatView, v.name), v.sql, v.name)
  }

  /** The items in the order the sync loop visits them. */
  function Plan(views: seq<View>): seq<Item> {
    if views == [] then []
    else Plan(views[..|views| - 1]) + [ViewItem(views[|views| - 1])] + IndexItems(views[|views| - 1])
  }

  /** Every name is used once, and a statement only reads views that come earlier. */
  ghost predicate InDependencyOrder(server: Server, plan: seq<Item>) {
    && (forall a, b :: 0 <= a < b < |plan| ==> plan[a].res != plan[b].res)
    && (forall a, n :: 0 <= a < |plan| && n in server.refs(plan[a].sql) ==>
          Resource(MatView, n) in Resources(plan[..a]))
  }

  ghost function Resources(items: seq<Item>): set<Resource> {
    set i | 0 <= i < |items| :: items[i].res
  }

  /** Every item exists with its desired statement. */
  ghost predicate Settled(cat: Catalog, items: seq<Item>) {
    forall k :: 0 <= k < |items| ==> items[k].res in cat && cat[items[k].res] == items[k].sql
  }

  /** If the row vouches for the item and the resource exists, the resource is as desired. */
  ghost predicate Vouches(server: Server, cat: Catalog, row: HashRow, it: Item) {
    row.res == it.res && row.hash == server.sha(it.sql) && it.res in cat ==> cat[it.res] == it.sql
  }

  /** A recorded hash that matches the desired statement is never a lie about an existing resource. */
  ghost predicate Honest(server: Server, cat: Catalog, rows: seq<HashRow>, plan: seq<Item>) {
    forall i, k :: 0 <= i < |rows| && 0 <= k < |plan| ==> Vouches(server, cat, rows[i], plan[k])
  }

  /** Every recorded hash is the hash of what exists: the state a finished sync leaves. */
  ghost predicate Faithful(server: Server, cat: Catalog, rows: seq<HashRow>) {
    forall i :: 0 <= i < |rows| && rows[i].res in cat ==> rows[i].hash == server.sha(cat[rows[i].res])
  }

  ghost predicate UniqueRows(rows: seq<HashRow>) {
    forall i, j :: 0 <= i < j < |rows| ==> rows[i].res != rows[j].res
  }

  /** The hashes on record for a resource. */
  ghost function RowsOf(rows: seq<HashRow>, r: Resource): set<string> {
    set i | 0 <= i < |rows| && rows[i].res == r :: rows[i].hash
  }

  /** The hash lookup and the existence check both report the item as up to date. */
  ghost predicate LooksCurrent(server: Server, cat: Catalog, rows: seq<HashRow>, it: Item) {
    it.res in cat && RowsOf(rows, it.res) == {server.sha(it.sql)}
  }

  ghost predicate Injective(sha: string -> string) {
    forall x, y :: sha(x) == sha(y) ==> x == y
  }

  // ---------------------------------------------------------------------------------------
  // DROP ... CASCADE

  /** The objects that read a relation of `gone`. */
  function Dependents(server: Server, cat: Catalog, gone: set<string>): set<Resource> {
    set r | r in cat && !(server.refs(cat[r]) !! gone)
  }

  function ViewNames(rs: set<Resource>): set<string> {
    set r | r in rs && r.kind == MatView :: r.name
  }

  /** Removes dependents of `gone`, their dependents, and so on. */
  function Cascade(server: Server, cat: Catalog, gone: set<string>): (rest: Catalog)
    ensures rest.Keys <= cat.Keys
    ensures forall r :: r in rest ==> rest[r] == cat[r]
    ensures rest.Keys !! Dependents(server, cat, gone)
    decreases |cat|
  {
    var hit := Dependents(server, cat, gone);
    if hit == {} then cat
    else
      var kept := cat - hit;
      assert |kept| < |cat| by { SmallerMap(cat, hit); }
      Cascade(server, kept, ViewNames(hit))
  }

  lemma SmallerMap(cat: Catalog, hit: set<Resource>)
    requires hit != {} && hit <= cat.Keys
    ensures |cat - hit| < |cat|
  {
    assert (cat - hit).Keys == cat.Keys - hit;
    assert |cat.Keys - hit| == |cat.Keys| - |hit|;
  }

  function DropMatView(server: Server, cat: Catalog, name: string): Catalog {
    Cascade(server, cat - {Resource(MatView, name)}, {name})
  }

  /** Nothing that survives reads a dropped relation: no dangling reference is left. */
  lemma {:induction false} CascadeLeavesNoDangling(server: Server, cat: Catalog, gone: set<string>, r: Resource,
                                                   n: string)
    requires r in Cascade(server, cat, gone) && n in server.refs(cat[r])
    ensures n !in gone
    ensures Resource(MatView, n) in cat ==> Resource(MatView, n) in Cascade(server, cat, gone)
    decreases |cat|
  {
    SurvivorReads(server, cat, gone, r, n);
    var hit := Dependents(server, cat, gone);
    if hit != {} {
      SmallerMap(cat, hit);
      var kept := cat - hit;
      SurvivorReads(server, kept, ViewNames(hit), r, n);
      ViewNamesOf(hit, n);
      CascadeLeavesNoDangling(server, kept, ViewNames(hit), r, n);
    }
  }

  lemma SurvivorReads(server: Server, cat: Catalog, gone: set<string>, r: Resource, n: string)
    requires r in Cascade(server, cat, gone) && n in server.refs(cat[r])
    ensures n !in gone
  {
    assert r !in Dependents(server, cat, gone);
    assert server.refs(cat[r]) !! gone;
  }

  lemma ViewNamesOf(rs: set<Resource>, n: string)
    ensures n in ViewNames(rs) <==> Resource(MatView, n) in rs
  {
  }

  /** Whatever supports itself without the dropped relations survives: nothing is dropped in excess. */
  lemma {:induction false} CascadeKeepsSelfSupporting(server: Server, cat: Catalog, gone: set<string>,
                                                      keep: set<Resource>)
    requires keep <= cat.Keys
    requires forall r :: r in keep ==> server.refs(cat[r]) !! gone
    requires forall r, n :: r in keep && n in server.refs(cat[r]) && Resource(MatView, n) in cat ==>
              Resource(MatView, n) in keep
    ensures keep <= Cascade(server, cat, gone).Keys
    decreases |cat|
  {
    var hit := Dependents(server, cat, gone);
    if hit != {} {
      SmallerMap(cat, hit);
      var kept := cat - hit;
      assert keep !! hit;
      assert keep <= kept.Keys;
      forall r | r in keep ensures server.refs(kept[r]) !! ViewNames(hit) {
        forall n | n in server.refs(kept[r]) ensures n !in ViewNames(hit) {
          assert Resource(MatView, n) !in hit;
        }
      }
      CascadeKeepsSelfSupporting(server, kept, ViewNames(hit), keep);
    }
  }

  /** Dropping a view leaves every settled item of the plan that comes before it in place. */
  lemma DropKeepsEarlierItems(server: Server, cat: Catalog, plan: seq<Item>, k: nat)
    requires InDependencyOrder(server, plan) && k < |plan| && Settled(cat, plan[..k])
    requires plan[k].res.kind == MatView
    ensures Settled(DropMatView(server, cat, plan[k].res.name), plan[..k])
    ensures plan[k].res !in DropMatView(server, cat, plan[k].res.name)
  {
    var name := plan[k].res.name;
    var keep := Resources(plan[..k]);
    var without := cat - {Resource(MatView, name)};
    assert plan[k].res == Resource(MatView, name);
    forall r | r in keep
      ensures r in without
      ensures server.refs(without[r]) !! {name}
      ensures forall n :: n in server.refs(without[r]) ==> Resource(MatView, n) in keep
    {
      var a :| 0 <= a < k && plan[..k][a].res == r;
      assert plan[a].res == r && cat[r] == plan[a].sql;
      forall n | n in server.refs(plan[a].sql)
        ensures Resource(MatView, n) in keep && n != name
      {
        assert Resource(MatView, n) in Resources(plan[..a]);
        var b :| 0 <= b < |plan[..a]| && plan[..a][b].res == Resource(MatView, n);
        assert plan[..k][b].res == plan[b].res == Resource(MatView, n);
      }
    }
    CascadeKeepsSelfSupporting(server, without, {name}, keep);
    forall i | 0 <= i < k ensures plan[..k][i].res in keep {}
  }

  // ---------------------------------------------------------------------------------------
  // The sync loop

  /** What the drop statement of a resource does: `CASCADE` for views, a plain drop for indexes. */
  function Dropped(server: Server, cat: Catalog, res: Resource): Catalog {
    if res.kind == MatView then DropMatView(server, cat, res.name) else cat - {res}
  }

  predicate Creatable(server: Server, cat: Catalog, it: Item) {
    it.res !in cat && forall n :: n in server.refs(it.sql) ==> Resource(MatView, n) in cat
  }

  lemma DropMakesCreatable(server: Server, cat: Catalog, plan: seq<Item>, k: nat)
    requires InDependencyOrder(server, plan) && k < |plan|
    ensures plan[k].res !in Dropped(server, cat, plan[k].res)
    ensures Settled(cat, plan[..k]) ==>
              Settled(Dropped(server, cat, plan[k].res), plan[..k]) &&
              Creatable(server, Dropped(server, cat, plan[k].res), plan[k])
  {
    if Settled(cat, plan[..k]) {
      var rest := Dropped(server, cat, plan[k].res);
      if plan[k].res.kind == MatView {
        DropKeepsEarlierItems(server, cat, plan, k);
      }
      assert Settled(rest, plan[..k]);
      forall n | n in server.refs(plan[k].sql) ensures Resource(MatView, n) in rest {
        assert Resource(MatView, n) in Resources(plan[..k]);
        var b :| 0 <= b < |plan[..k]| && plan[..k][b].res == Resource(MatView, n);
      }
    }
  }

  lemma {:induction false} PlanHasPrefix(views: seq<View>, i: nat)
    requires i <= |views|
    ensures Plan(views[..i]) <= Plan(views)
    decreases |views| - i
  {
    if i == |views| {
      assert views[..i] == views;
    } else {
      assert views[..i + 1][..i] == views[..i];
      PlanHasPrefix(views, i + 1);
    }
  }

  /** From position `base` the plan lists the view and then its indexes. */
  ghost predicate RoundAt(plan: seq<Item>, base: nat, v: View) {
    && base + 1 + |v.indexes| <= |plan|
    && plan[base] == ViewItem(v)
    && forall j :: 0 <= j < |v.indexes| ==> plan[base + 1 + j] == IndexItems(v)[j]
  }

  /** Where the loop stands at view `i`. */
  lemma PlanAt(views: seq<View>, i: nat)
    requires i < |views|
    ensures RoundAt(Plan(views), |Plan(views[..i])|, views[i])
    ensures |Plan(views[..i + 1])| == |Plan(views[..i])| + 1 + |views[i].indexes|
  {
    PlanHasPrefix(views, i + 1);
    PlanStep(views, i);
    hide Plan, RoundAt, IndexItems, ViewItem;
    PrefixAt(Plan(views[..i]), views[i], Plan(views[..i + 1]), Plan(views));
  }

  lemma PrefixAt(before: seq<Item>, v: View, prefix: seq<Item>, plan: seq<Item>)
    requires prefix == before + [ViewItem(v)] + IndexItems(v) && prefix <= plan
    ensures RoundAt(plan, |before|, v)
  {
    hide IndexItems, ViewItem;
    assert plan[|before|] == prefix[|before|];
    forall j | 0 <= j < |v.indexes| ensures plan[|before| + 1 + j] == IndexItems(v)[j] {
      assert plan[|before| + 1 + j] == prefix[|before| + 1 + j];
    }
  }

  lemma PlanStep(views: seq<View>, i: nat)
    requires i < |views|
    ensures Plan(views[..i + 1]) == Plan(views[..i]) + [ViewItem(views[i])] + IndexItems(views[i])
  {
    assert views[..i + 1][..i] == views[..i];
  }

  /** Dropping a resource and creating it afresh, seen from the rest of the plan. */
  lemma RecreateKeeps(server: Server, cat: Catalog, rows: seq<HashRow>, plan: seq<Item>, k: nat)
    requires InDependencyOrder(server, plan) && k < |plan|
    ensures var dropped := Dropped(server, cat, plan[k].res);
            var created := dropped[plan[k].res := plan[k].sql];
            && (Honest(server, cat, rows, plan) ==>
               Honest(server, dropped, rows, plan) && Honest(server, created, rows, plan))
            && (Settled(cat, plan[..k]) ==>
                  && Settled(dropped, plan[..k]) && Creatable(server, dropped, plan[k])
                  && Settled(created, plan[..k]) && Settled(created, plan[..k + 1]))
  {
    DropMakesCreatable(server, cat, plan, k);
    var dropped := Dropped(server, cat, plan[k].res);
    var created := dropped[plan[k].res := plan[k].sql];
    if Honest(server, cat, rows, plan) {
      forall i, j | 0 <= i < |rows| && 0 <= j < |plan|
        ensures Vouches(server, dropped, rows[i], plan[j]) && Vouches(server, created, rows[i], plan[j])
      {
        assert Vouches(server, cat, rows[i], plan[j]);
        assert plan[j].res == plan[k].res ==> j == k;
      }
    }
    if Settled(cat, plan[..k]) {
      forall j | 0 <= j < k ensures plan[j].res in created && created[plan[j].res] == plan[j].sql {
        assert plan[..k][j] == plan[j];
      }
    }
  }

  function Recorded(rows: seq<HashRow>, at: Option<nat>, row: HashRow): seq<HashRow>
    requires at.Some? ==> at.value < |rows|
  {
    if at.None? then rows + [row] else rows[at.value := row]
  }

  lemma RecordKeeps(server: Server, cat: Catalog, rows: seq<HashRow>, at: Option<nat>, plan: seq<Item>, k: nat)
    requires InDependencyOrder(server, plan) && k < |plan|
    requires plan[k].res in cat && cat[plan[k].res] == plan[k].sql
    requires at.Some? ==> at.value < |rows| && rows[at.value].res == plan[k].res
    ensures Honest(server, cat, rows, plan) ==>
              Honest(server, cat, Recorded(rows, at, HashRow(plan[k].res, server.sha(plan[k].sql))), plan)
  {
    var row := HashRow(plan[k].res, server.sha(plan[k].sql));
    var after := Recorded(rows, at, row);
    if Honest(server, cat, rows, plan) {
      forall i, j | 0 <= i < |after| && 0 <= j < |plan| ensures Vouches(server, cat, after[i], plan[j]) {
        if i < |rows| { assert Vouches(server, cat, rows[i], plan[j]); }
        assert plan[j].res == plan[k].res ==> j == k;
      }
    }
  }

  /**
   Saving keeps one row per resource exactly when the lookup found the row or there was none. A lookup that
   failed reports no row, and the save then adds a second one.
   */
  lemma RecordKeepsUniqueIff(rows: seq<HashRow>, at: Option<nat>, row: HashRow)
    requires UniqueRows(rows) && (at.Some? ==> at.value < |rows| && rows[at.value].res == row.res)
    ensures UniqueRows(Recorded(rows, at, row)) <==> at.Some? || forall i :: 0 <= i < |rows| ==> rows[i].res != row.res
  {
    var after := Recorded(rows, at, row);
    if at.None? {
      assert after[|rows|] == row;
      if i :| 0 <= i < |rows| && rows[i].res == row.res {
        assert after[i].res == after[|rows|].res;
      }
    }
  }

  /** With one row per resource and no failed lookup, the recorded row is the only one of its resource. */
  lemma RecordIsCurrent(server: Server, cat: Catalog, rows: seq<HashRow>, at: Option<nat>, it: Item)
    requires UniqueRows(rows) && it.res in cat
    requires at.Some? ==> at.value < |rows| && rows[at.value].res == it.res
    requires at.None? ==> forall i :: 0 <= i < |rows| ==> rows[i].res != it.res
    ensures var after := Recorded(rows, at, HashRow(it.res, server.sha(it.sql)));
            && UniqueRows(after)
            && LooksCurrent(server, cat, after, it)
            && forall r :: r != it.res ==> RowsOf(after, r) == RowsOf(rows, r)
  {
    var after := Recorded(rows, at, HashRow(it.res, server.sha(it.sql)));
    var p := if at.None? then |rows| else at.value;
    assert after[p] == HashRow(it.res, server.sha(it.sql));
    forall r | r != it.res ensures RowsOf(after, r) == RowsOf(rows, r) {
      forall i | 0 <= i < |after| && i != p ensures after[i] == rows[i] {}
      forall h ensures h in RowsOf(after, r) <==> h in RowsOf(rows, r) {
        if h in RowsOf(after, r) {
          var i :| 0 <= i < |after| && after[i].res == r && after[i].hash == h;
          assert rows[i] == after[i];
        }
        if h in RowsOf(rows, r) {
          var i :| 0 <= i < |rows| && rows[i].res == r && rows[i].hash == h;
          assert after[i] == rows[i];
        }
      }
    }
  }

  /** The row that a lookup finds, when each resource has one, decides whether any row misleads. */
  lemma LookupDecides(server: Server, cat: Catalog, rows: seq<HashRow>, at: Option<nat>, it: Item)
    requires UniqueRows(rows)
    requires at.Some? ==> at.value < |rows| && rows[at.value].res == it.res
    requires at.None? ==> forall i :: 0 <= i < |rows| ==> rows[i].res != it.res
    ensures NoneMislead(server, cat, rows, it) <==> at.Some? ==> Vouches(server, cat, rows[at.value], it)
    ensures RowsOf(rows, it.res) == if at.Some? then {rows[at.value].hash} else {}
  {
    if at.Some? {
      forall i | 0 <= i < |rows| && rows[i].res == it.res ensures i == at.value {}
    }
  }

  ghost predicate NoneMislead(server: Server, cat: Catalog, rows: seq<HashRow>, it: Item) {
    forall i :: 0 <= i < |rows| ==> Vouches(server, cat, rows[i], it)
  }

  lemma RecordIsFaithful(server: Server, cat: Catalog, rows: seq<HashRow>, at: Option<nat>, it: Item)
    requires UniqueRows(rows) && Faithful(server, cat, rows)
    requires at.Some? ==> at.value < |rows| && rows[at.value].res == it.res
    requires at.None? ==> forall i :: 0 <= i < |rows| ==> rows[i].res != it.res
    ensures Faithful(server, Dropped(server, cat, it.res)[it.res := it.sql],
            Recorded(rows, at, HashRow(it.res, server.sha(it.sql))))
  {
  }

  lemma SettledGrows(cat: Catalog, plan: seq<Item>, k: nat)
    requires k < |plan| && Settled(cat, plan[..k]) && plan[k].res in cat && cat[plan[k].res] == plan[k].sql
    ensures Settled(cat, plan[..k + 1])
  {
  }

  lemma RowFound(rows: seq<HashRow>, at: Option<nat>, it: Item)
    requires at.Some? ==> at.value < |rows| && rows[at.value].res == it.res
    ensures at.Some? ==> rows[at.value].hash in RowsOf(rows, it.res)
    ensures (forall i :: 0 <= i < |rows| ==> rows[i].res != it.res) ==> RowsOf(rows, it.res) == {}
  {
  }

  /** What the save after a recreation leaves, seen from the state before. */
  lemma SaveIsTidy(server: Server, cat: Catalog, rows: seq<HashRow>, at: Option<nat>, it: Item)
    requires UniqueRows(rows)
    requires at.Some? ==> at.value < |rows| && rows[at.value].res == it.res
    requires at.None? ==> forall i :: 0 <= i < |rows| ==> rows[i].res != it.res
    ensures var after := Recorded(rows, at, HashRow(it.res, server.sha(it.sql)));
            var created := Dropped(server, cat, it.res)[it.res := it.sql];
            && UniqueRows(after)
            && LooksCurrent(server, created, after, it)
            && (forall r :: r != it.res ==> RowsOf(after, r) == RowsOf(rows, r))
            && (Faithful(server, cat, rows) ==> Faithful(server, created, after))
  {
    RecordIsCurrent(server, Dropped(server, cat, it.res)[it.res := it.sql], rows, at, it);
    if Faithful(server, cat, rows) { RecordIsFaithful(server, cat, rows, at, it); }
  }

  /** A resource that is recreated without force was not vouched for. */
  lemma UpdateMeansUnvouched(server: Server, cat: Catalog, rows: seq<HashRow>, at: Option<nat>, it: Item, force: bool)
    requires UniqueRows(rows) && (force || !LooksCurrent(server, cat, rows, it))
    requires at.Some? ==> at.value < |rows| && rows[at.value].res == it.res
    requires at.None? ==> forall i :: 0 <= i < |rows| ==> rows[i].res != it.res
    ensures force || NoneMislead(server, cat, rows, it)
  {
    LookupDecides(server, cat, rows, at, it);
  }

  /** A resource that is kept is as desired exactly when its row does not mislead. */
  lemma KeptVouches(server: Server, cat: Catalog, rows: seq<HashRow>, at: Option<nat>, plan: seq<Item>, k: nat)
    requires k < |plan| && plan[k].res in cat
    requires at.Some? && at.value < |rows| && rows[at.value] == HashRow(plan[k].res, server.sha(plan[k].sql))
    ensures Vouches(server, cat, rows[at.value], plan[k]) <==> Desired(cat, plan[k])
    ensures Honest(server, cat, rows, plan) && Settled(cat, plan[..k]) ==> Settled(cat, plan[..k + 1])
  {
    if Honest(server, cat, rows, plan) && Settled(cat, plan[..k]) {
      assert Vouches(server, cat, rows[at.value], plan[k]);
      SettledGrows(cat, plan, k);
    }
  }

  // ---------------------------------------------------------------------------------------
  // A run in which every statement works, from any catalog and any hashes

  /** Where such a run stands: the catalog, and what it has recreated. */
  datatype Progress = Progress(cat: Catalog, recreated: set<Resource>)

  /** An index is recreated with its view. */
  predicate Forced(it: Item, recreated: set<Resource>) {
    it.res.kind == Index && Resource(MatView, it.view) in recreated
  }

  ghost predicate Recreates(server: Server, rows: seq<HashRow>, p: Progress, it: Item) {
    Forced(it, p.recreated) || !LooksCurrent(server, p.cat, rows, it)
  }

  ghost function AfterItem(server: Server, rows: seq<HashRow>, p: Progress, it: Item): Progress {
    if Recreates(server, rows, p, it)
    then Progress(Dropped(server, p.cat, it.res)[it.res := it.sql], p.recreated + {it.res})
    else p
  }

  ghost function AfterItems(server: Server, cat: Catalog, rows: seq<HashRow>, items: seq<Item>): Progress {
    if items == [] then Progress(cat, {})
    else AfterItem(server, rows, AfterItems(server, cat, rows, items[..|items| - 1]), items[|items| - 1])
  }

  lemma AfterNext(server: Server, cat: Catalog, rows: seq<HashRow>, plan: seq<Item>, k: nat)
    requires k < |plan|
    ensures AfterItems(server, cat, rows, plan[..k + 1]) ==
            AfterItem(server, rows, AfterItems(server, cat, rows, plan[..k]), plan[k])
  {
    assert plan[..k + 1][..k] == plan[..k];
  }

  /** What one cascade leaves of a catalog from which all these resources are dropped at once. */
  function Survivors(server: Server, cat: Catalog, dropped: set<Resource>): Catalog {
    Cascade(server, cat - dropped, ViewNames(dropped))
  }

  lemma DroppedIsSurvivors(server: Server, cat: Catalog, res: Resource)
    ensures Dropped(server, cat, res) == Survivors(server, cat, {res})
  {
    if res.kind == MatView {
      assert res == Resource(MatView, res.name);
      assert ViewNames({res}) == {res.name};
    } else {
      assert ViewNames({res}) == {};
      NothingGone(server, cat - {res});
    }
  }

  lemma NothingGone(server: Server, cat: Catalog)
    ensures Cascade(server, cat, {}) == cat
  {
    assert Dependents(server, cat, {}) == {};
  }

  lemma ViewNamesUnion(a: set<Resource>, b: set<Resource>)
    ensures ViewNames(a + b) == ViewNames(a) + ViewNames(b)
  {
    forall n ensures n in ViewNames(a + b) <==> n in ViewNames(a) + ViewNames(b) {
      ViewNamesOf(a + b, n);
      ViewNamesOf(a, n);
      ViewNamesOf(b, n);
    }
  }

  /** A set that supports itself within the catalog and away from what is gone. */
  ghost predicate SelfSupporting(server: Server, cat: Catalog, gone: set<string>, keep: set<Resource>) {
    && keep <= cat.Keys
    && (forall r :: r in keep ==> server.refs(cat[r]) !! gone)
    && (forall r, n :: r in keep && n in server.refs(cat[r]) && Resource(MatView, n) in cat ==>
       Resource(MatView, n) in keep)
  }

  /** The survivors of a cascade are the largest such set. */
  lemma CascadeIsLargest(server: Server, cat: Catalog, gone: set<string>)
    ensures SelfSupporting(server, cat, gone, Cascade(server, cat, gone).Keys)
    ensures forall keep :: SelfSupporting(server, cat, gone, keep) ==> keep <= Cascade(server, cat, gone).Keys
  {
    var rest := Cascade(server, cat, gone);
    forall r | r in rest ensures server.refs(cat[r]) !! gone {
      forall n | n in server.refs(cat[r]) ensures n !in gone { CascadeLeavesNoDangling(server, cat, gone, r, n); }
    }
    forall r, n | r in rest && n in server.refs(cat[r]) && Resource(MatView, n) in cat
      ensures Resource(MatView, n) in rest {
      CascadeLeavesNoDangling(server, cat, gone, r, n);
    }
    forall keep | SelfSupporting(server, cat, gone, keep) ensures keep <= rest.Keys {
      CascadeKeepsSelfSupporting(server, cat, gone, keep);
    }
  }

  /** Dropping one more resource, where the untouched part so far is what one cascade would have left. */
  lemma DropOneMore(server: Server, cat: Catalog, now: Catalog, dropped: set<Resource>, x: Resource)
    requires now - dropped == Survivors(server, cat, dropped)
    ensures Survivors(server, now, {x}) - (dropped + {x}) == Survivors(server, cat, dropped + {x})
  {
    var all := dropped + {x};
    var left, goal := Survivors(server, now, {x}), Survivors(server, cat, all);
    ViewNamesUnion(dropped, {x});
    CascadeIsLargest(server, cat - dropped, ViewNames(dropped));
    CascadeIsLargest(server, cat - all, ViewNames(all));
    CascadeIsLargest(server, now - {x}, ViewNames({x}));
    GoalSurvives(server, cat, now, dropped, x);
    LeftSurvives(server, cat, now, dropped, x);
    hide SelfSupporting;
    forall r ensures r in left - all <==> r in goal {}
    forall r | r in goal ensures (left - all)[r] == goal[r] {
      assert r in now - dropped && (now - dropped)[r] == cat[r];
    }
  }

  lemma GoalSurvives(server: Server, cat: Catalog, now: Catalog, dropped: set<Resource>, x: Resource)
    requires now - dropped == Survivors(server, cat, dropped)
    ensures Survivors(server, cat, dropped + {x}).Keys <= Survivors(server, now, {x}).Keys
    ensures Survivors(server, cat, dropped + {x}).Keys <= (now - dropped).Keys
  {
    var all := dropped + {x};
    var keep := Survivors(server, cat, all).Keys;
    ViewNamesUnion(dropped, {x});
    CascadeIsLargest(server, cat - all, ViewNames(all));
    forall r, n | r in keep && n in server.refs(cat[r]) ensures Resource(MatView, n) !in all {
      ViewNamesOf(all, n);
    }
    CascadeIsLargest(server, cat - dropped, ViewNames(dropped));
    assert SelfSupporting(server, cat - dropped, ViewNames(dropped), keep);
    CascadeIsLargest(server, now - {x}, ViewNames({x}));
    forall r | r in keep ensures r in now - {x} && now[r] == cat[r] {
      assert r in now - dropped && (now - dropped)[r] == cat[r];
    }
    assert SelfSupporting(server, now - {x}, ViewNames({x}), keep) by {
      forall r, n | r in keep && n in server.refs(now[r]) && Resource(MatView, n) in now - {x}
        ensures Resource(MatView, n) in keep {
        assert Resource(MatView, n) in now - dropped;
      }
    }
  }

  lemma LeftSurvives(server: Server, cat: Catalog, now: Catalog, dropped: set<Resource>, x: Resource)
    requires now - dropped == Survivors(server, cat, dropped)
    ensures Survivors(server, now, {x}).Keys - (dropped + {x}) <= Survivors(server, cat, dropped + {x}).Keys
  {
    var all := dropped + {x};
    var keep := Survivors(server, now, {x}).Keys - all;
    ViewNamesUnion(dropped, {x});
    CascadeIsLargest(server, cat - dropped, ViewNames(dropped));
    CascadeIsLargest(server, now - {x}, ViewNames({x}));
    CascadeIsLargest(server, cat - all, ViewNames(all));
    forall r | r in keep ensures r in now - dropped && now[r] == cat[r] {
      assert (now - dropped)[r] == cat[r];
    }
    assert SelfSupporting(server, cat - all, ViewNames(all), keep) by {
      forall r, n | r in keep && n in server.refs(cat[r]) && Resource(MatView, n) in cat - all
        ensures Resource(MatView, n) in keep {
        assert Resource(MatView, n) in now - dropped;
      }
    }
  }

  /**
   However the run interleaves drops and creates, what it has not recreated is what one cascade over
   everything recreated leaves of the initial catalog.
   */
  lemma {:induction false} SequentialIsSimultaneous(server: Server, cat: Catalog, rows: seq<HashRow>, items: seq<Item>)
    ensures var p := AfterItems(server, cat, rows, items);
            p.cat - p.recreated == Survivors(server, cat, p.recreated)
  {
    if items == [] {
      NothingGone(server, cat);
      assert cat - {} == cat && ViewNames({}) == {};
    } else {
      var before, it := AfterItems(server, cat, rows, items[..|items| - 1]), items[|items| - 1];
      SequentialIsSimultaneous(server, cat, rows, items[..|items| - 1]);
      DropOneMore(server, cat, before.cat, before.recreated, it.res);
      DroppedIsSurvivors(server, before.cat, it.res);
      var all, left := before.recreated + {it.res}, Dropped(server, before.cat, it.res);
      hide Survivors, Dropped;
      assert left[it.res := it.sql] - all == left - all;
    }
  }

  lemma {:induction false} RecreatedArePlanned(server: Server, cat: Catalog, rows: seq<HashRow>, items: seq<Item>)
    ensures AfterItems(server, cat, rows, items).recreated <= Resources(items)
  {
    if items != [] {
      var init := items[..|items| - 1];
      RecreatedArePlanned(server, cat, rows, init);
      forall r | r in Resources(init) ensures r in Resources(items) {
        var i :| 0 <= i < |init| && init[i].res == r;
        assert items[i].res == r;
      }
    }
  }

  lemma NotYetRecreated(server: Server, cat: Catalog, rows: seq<HashRow>, plan: seq<Item>, k: nat, j: nat)
    requires InDependencyOrder(server, plan) && k <= j < |plan|
    ensures plan[j].res !in AfterItems(server, cat, rows, plan[..k]).recreated
  {
    RecreatedArePlanned(server, cat, rows, plan[..k]);
    forall i | 0 <= i < k ensures plan[..k][i].res != plan[j].res {}
  }

  ghost predicate Desired(cat: Catalog, it: Item) {
    it.res in cat && cat[it.res] == it.sql
  }

  /**
   What a run recreates, judged from the initial state alone: an item joins those before it if it is forced by
   them, does not look current from the start, or one cascade over them drops it.
   */
  ghost function RecreatedBy(server: Server, cat: Catalog, rows: seq<HashRow>, items: seq<Item>): set<Resource> {
    if items == [] then {}
    else
      var before, it := RecreatedBy(server, cat, rows, items[..|items| - 1]), items[|items| - 1];
      if Forced(it, before) || !LooksCurrent(server, cat, rows, it) || it.res !in Survivors(server, cat, before)
      then before + {it.res}
      else before
  }

  /** The run recreates exactly that, though it looks at what its drops and creates have left so far. */
  lemma {:induction false} RecreatesAsJudged(server: Server, cat: Catalog, rows: seq<HashRow>, plan: seq<Item>, k: nat)
    requires InDependencyOrder(server, plan) && k <= |plan|
    ensures AfterItems(server, cat, rows, plan[..k]).recreated == RecreatedBy(server, cat, rows, plan[..k])
  {
    if k == 0 { return; }
    hide AfterItems, Survivors, InDependencyOrder, LooksCurrent, Dropped, Recreates, Forced;
    RecreatesAsJudged(server, cat, rows, plan, k - 1);
    AfterNext(server, cat, rows, plan, k - 1);
    RecreatesIff(server, cat, rows, plan, k - 1);
    assert plan[..k][..k - 1] == plan[..k - 1];
  }

  lemma RecreatesIff(server: Server, cat: Catalog, rows: seq<HashRow>, plan: seq<Item>, k: nat)
    requires InDependencyOrder(server, plan) && k < |plan|
    ensures var p, it := AfterItems(server, cat, rows, plan[..k]), plan[k];
            Recreates(server, rows, p, it) <==>
            Forced(it, p.recreated) || !LooksCurrent(server, cat, rows, it) ||
            it.res !in Survivors(server, cat, p.recreated)
  {
    hide AfterItems, Survivors, InDependencyOrder, RowsOf;
    var p, it := AfterItems(server, cat, rows, plan[..k]), plan[k];
    NotYetRecreated(server, cat, rows, plan, k, k);
    SequentialIsSimultaneous(server, cat, rows, plan[..k]);
    SurvivorsShrink(server, cat, p.recreated);
    assert it.res in p.cat <==> it.res in p.cat - p.recreated;
  }

  /**
   Judged from the initial state: the item is forced, no recorded hash misleads about it, or the cascades of
   what is recreated before have dropped it.
   */
  ghost predicate Rescued(server: Server, cat: Catalog, rows: seq<HashRow>, plan: seq<Item>, k: nat)
    requires k < |plan|
  {
    var recreated := RecreatedBy(server, cat, rows, plan[..k]);
    || Forced(plan[k], recreated)
    || NoneMislead(server, cat, rows, plan[k])
    || plan[k].res !in Survivors(server, cat, recreated)
  }

  /** After its turn an item is as desired exactly when it was rescued. */
  lemma DesiredAfterTurnIff(server: Server, cat: Catalog, rows: seq<HashRow>, plan: seq<Item>, k: nat)
    requires InDependencyOrder(server, plan) && UniqueRows(rows) && k < |plan|
    ensures Desired(AfterItems(server, cat, rows, plan[..k + 1]).cat, plan[k]) <==> Rescued(server, cat, rows, plan, k)
  {
    var p, it := AfterItems(server, cat, rows, plan[..k]), plan[k];
    AfterNext(server, cat, rows, plan, k);
    NotYetRecreated(server, cat, rows, plan, k, k);
    SequentialIsSimultaneous(server, cat, rows, plan[..k]);
    RecreatesAsJudged(server, cat, rows, plan, k);
    hide AfterItems, RecreatedBy, Survivors, Dropped, InDependencyOrder, Cascade;
    assert it.res in p.cat <==> it.res in p.cat - p.recreated;
    RowsDecide(server, cat, rows, it);
  }

  /** With one row per resource, a resource with exactly the desired hash is misled about only by its definition. */
  lemma RowsDecide(server: Server, cat: Catalog, rows: seq<HashRow>, it: Item)
    requires UniqueRows(rows)
    ensures NoneMislead(server, cat, rows, it) <==>
            (RowsOf(rows, it.res) == {server.sha(it.sql)} && it.res in cat ==> cat[it.res] == it.sql)
  {
    if i :| 0 <= i < |rows| && rows[i].res == it.res {
      LookupDecides(server, cat, rows, Some(i), it);
      assert rows[i].hash in RowsOf(rows, it.res);
    } else {
      LookupDecides(server, cat, rows, None, it);
      assert server.sha(it.sql) !in RowsOf(rows, it.res);
    }
  }

  /** What looks current, and so may be kept, only reads views that come earlier in the plan. */
  ghost predicate StoredInOrder(server: Server, cat: Catalog, rows: seq<HashRow>, plan: seq<Item>) {
    forall a, n :: 0 <= a < |plan| && LooksCurrent(server, cat, rows, plan[a]) && n in server.refs(cat[plan[a].res]) ==>
      Resource(MatView, n) in Resources(plan[..a])
  }

  /** The items before `k` exist, recreated or as they were. */
  ghost predicate Standing(server: Server, cat: Catalog, rows: seq<HashRow>, plan: seq<Item>, k: nat)
    requires k <= |plan|
  {
    var p := AfterItems(server, cat, rows, plan[..k]);
    forall j :: 0 <= j < k ==>
      && plan[j].res in p.cat
      && if plan[j].res in p.recreated then p.cat[plan[j].res] == plan[j].sql
         else LooksCurrent(server, cat, rows, plan[j]) && p.cat[plan[j].res] == cat[plan[j].res]
  }

  /** The create statement of an item finds what it reads. */
  ghost predicate CanCreate(server: Server, cat: Catalog, rows: seq<HashRow>, plan: seq<Item>, k: nat)
    requires k < |plan|
  {
    var p := AfterItems(server, cat, rows, plan[..k]);
    Recreates(server, rows, p, plan[k]) ==> Creatable(server, Dropped(server, p.cat, plan[k].res), plan[k])
  }

  ghost predicate RunsThrough(server: Server, cat: Catalog, rows: seq<HashRow>, plan: seq<Item>, k: nat) {
    k <= |plan| && forall j :: 0 <= j < k ==> CanCreate(server, cat, rows, plan, j)
  }

  lemma StandingSurvives(server: Server, cat: Catalog, rows: seq<HashRow>, plan: seq<Item>, k: nat)
    requires InDependencyOrder(server, plan) && StoredInOrder(server, cat, rows, plan) && k < |plan|
    requires Standing(server, cat, rows, plan, k)
    ensures var p := AfterItems(server, cat, rows, plan[..k]);
            forall j :: 0 <= j < k ==> plan[j].res in Dropped(server, p.cat, plan[k].res)
  {
    var p, x := AfterItems(server, cat, rows, plan[..k]), plan[k].res;
    var keep := Resources(plan[..k]);
    hide AfterItems, Cascade, Dropped;
    forall r | r in keep ensures r in p.cat && r != x {
      var j :| 0 <= j < k && plan[..k][j].res == r;
    }
    forall r, n | r in keep && n in server.refs(p.cat[r])
      ensures Resource(MatView, n) in keep && Resource(MatView, n) != x {
      var j :| 0 <= j < k && plan[..k][j].res == r;
      assert plan[j].res == r && Resource(MatView, n) in Resources(plan[..j]);
      var b :| 0 <= b < j && plan[..j][b].res == Resource(MatView, n);
      assert plan[..k][b].res == plan[b].res;
    }
    assert SelfSupporting(server, p.cat - {x}, ViewNames({x}), keep);
    CascadeIsLargest(server, p.cat - {x}, ViewNames({x}));
    DroppedIsSurvivors(server, p.cat, x);
    forall j | 0 <= j < k ensures plan[j].res in keep { assert plan[..k][j] == plan[j]; }
  }

  lemma StandingCreates(server: Server, cat: Catalog, rows: seq<HashRow>, plan: seq<Item>, k: nat)
    requires InDependencyOrder(server, plan) && StoredInOrder(server, cat, rows, plan) && k < |plan|
    requires Standing(server, cat, rows, plan, k)
    ensures CanCreate(server, cat, rows, plan, k)
  {
    var p, it := AfterItems(server, cat, rows, plan[..k]), plan[k];
    StandingSurvives(server, cat, rows, plan, k);
    DropMakesCreatable(server, p.cat, plan, k);
    hide AfterItems, Dropped, StoredInOrder, Standing;
    forall n | n in server.refs(it.sql) ensures Resource(MatView, n) in Dropped(server, p.cat, it.res) {
      assert Resource(MatView, n) in Resources(plan[..k]);
      var b :| 0 <= b < k && plan[..k][b].res == Resource(MatView, n);
      assert plan[b].res == Resource(MatView, n);
    }
  }

  /** What is kept at its turn looked current from the start and is as it was. */
  lemma KeptIsUntouched(server: Server, cat: Catalog, rows: seq<HashRow>, plan: seq<Item>, k: nat)
    requires InDependencyOrder(server, plan) && k < |plan|
    ensures var p := AfterItems(server, cat, rows, plan[..k]);
            && plan[k].res !in p.recreated
            && (!Recreates(server, rows, p, plan[k]) ==>
                  && plan[k].res in p.cat && LooksCurrent(server, cat, rows, plan[k])
                  && p.cat[plan[k].res] == cat[plan[k].res])
  {
    var p, x := AfterItems(server, cat, rows, plan[..k]), plan[k].res;
    NotYetRecreated(server, cat, rows, plan, k, k);
    SequentialIsSimultaneous(server, cat, rows, plan[..k]);
    SurvivorsShrink(server, cat, p.recreated);
    hide AfterItems, Survivors, InDependencyOrder, RowsOf;
    if x in p.cat {
      assert x in p.cat - p.recreated && (p.cat - p.recreated)[x] == p.cat[x];
    }
  }

  lemma StandingGrows(server: Server, cat: Catalog, rows: seq<HashRow>, plan: seq<Item>, k: nat)
    requires InDependencyOrder(server, plan) && StoredInOrder(server, cat, rows, plan) && k < |plan|
    requires Standing(server, cat, rows, plan, k)
    ensures Standing(server, cat, rows, plan, k + 1)
  {
    hide AfterItems, Dropped, StoredInOrder, LooksCurrent, RowsOf, Recreates, InDependencyOrder;
    var p, after := AfterItems(server, cat, rows, plan[..k]), AfterItems(server, cat, rows, plan[..k + 1]);
    StandingSurvives(server, cat, rows, plan, k);
    AfterNext(server, cat, rows, plan, k);
    DroppedShrinks(server, p.cat, plan[k].res);
    KeptIsUntouched(server, cat, rows, plan, k);
    DistinctItems(server, plan, k);
    forall j | 0 <= j < k
      ensures plan[j].res in after.cat && after.cat[plan[j].res] == p.cat[plan[j].res]
      ensures plan[j].res in after.recreated <==> plan[j].res in p.recreated
    {
      assert plan[j].res != plan[k].res;
    }
  }

  lemma DistinctItems(server: Server, plan: seq<Item>, k: nat)
    requires InDependencyOrder(server, plan) && k < |plan|
    ensures forall j :: 0 <= j < |plan| && j != k ==> plan[j].res != plan[k].res
  {
  }

  lemma DroppedShrinks(server: Server, cat: Catalog, res: Resource)
    ensures Dropped(server, cat, res).Keys <= cat.Keys
    ensures forall r :: r in Dropped(server, cat, res) ==> Dropped(server, cat, res)[r] == cat[r]
  {
  }

  lemma SurvivorsShrink(server: Server, cat: Catalog, dropped: set<Resource>)
    ensures Survivors(server, cat, dropped).Keys <= cat.Keys
    ensures forall r :: r in Survivors(server, cat, dropped) ==> Survivors(server, cat, dropped)[r] == cat[r]
  {
  }

  lemma {:induction false} AllStanding(server: Server, cat: Catalog, rows: seq<HashRow>, plan: seq<Item>, k: nat)
    requires InDependencyOrder(server, plan) && StoredInOrder(server, cat, rows, plan) && k <= |plan|
    ensures RunsThrough(server, cat, rows, plan, k) && Standing(server, cat, rows, plan, k)
  {
    if k > 0 {
      AllStanding(server, cat, rows, plan, k - 1);
      StandingCreates(server, cat, rows, plan, k - 1);
      StandingGrows(server, cat, rows, plan, k - 1);
    }
  }

  lemma {:induction false} RecreatedOnce(server: Server, cat: Catalog, rows: seq<HashRow>, plan: seq<Item>, j: nat,
                                         k: nat)
    requires InDependencyOrder(server, plan) && j < k <= |plan|
    ensures plan[j].res in AfterItems(server, cat, rows, plan[..k]).recreated <==>
            plan[j].res in AfterItems(server, cat, rows, plan[..j + 1]).recreated
  {
    hide AfterItems, InDependencyOrder, Dropped, Recreates;
    if j + 1 < k {
      RecreatedOnce(server, cat, rows, plan, j, k - 1);
      AfterNext(server, cat, rows, plan, k - 1);
      DistinctItems(server, plan, k - 1);
    }
  }

  /**
   From any catalog and hashes, one row per resource: if what looks current reads in order, the run goes
   through, and an item ends as desired exactly when it was rescued.
   */
  lemma EndsDesiredIff(server: Server, cat: Catalog, rows: seq<HashRow>, plan: seq<Item>, k: nat)
    requires InDependencyOrder(server, plan) && StoredInOrder(server, cat, rows, plan) && UniqueRows(rows) && k < |plan|
    ensures RunsThrough(server, cat, rows, plan, |plan|)
    ensures Desired(AfterItems(server, cat, rows, plan).cat, plan[k]) <==> Rescued(server, cat, rows, plan, k)
  {
    AllStanding(server, cat, rows, plan, k + 1);
    AllStanding(server, cat, rows, plan, |plan|);
    RecreatedOnce(server, cat, rows, plan, k, |plan|);
    DesiredAfterTurnIff(server, cat, rows, plan, k);
    assert plan[..|plan|] == plan;
    hide AfterItems, Rescued, InDependencyOrder, StoredInOrder;
  }

  lemma {:induction false} KeepsValue(server: Server, cat: Catalog, rows: seq<HashRow>, plan: seq<Item>, j: nat, k: nat)
    requires InDependencyOrder(server, plan) && j < k <= |plan|
    ensures var turn, later :=
            AfterItems(server, cat, rows, plan[..j + 1]).cat, AfterItems(server, cat, rows, plan[..k]).cat;
            plan[j].res in later ==> plan[j].res in turn && later[plan[j].res] == turn[plan[j].res]
  {
    hide AfterItems, InDependencyOrder, Dropped, Recreates;
    if j + 1 < k {
      KeepsValue(server, cat, rows, plan, j, k - 1);
      AfterNext(server, cat, rows, plan, k - 1);
      DistinctItems(server, plan, k - 1);
      DroppedShrinks(server, AfterItems(server, cat, rows, plan[..k - 1]).cat, plan[k - 1].res);
    }
  }

  /**
   Whatever the stored definitions read, an item ends as desired exactly when it was rescued and not dropped
   later.
   */
  lemma EndsDesiredIfKept(server: Server, cat: Catalog, rows: seq<HashRow>, plan: seq<Item>, k: nat)
    requires InDependencyOrder(server, plan) && UniqueRows(rows) && k < |plan|
    ensures var end := AfterItems(server, cat, rows, plan).cat;
            Desired(end, plan[k]) <==> Rescued(server, cat, rows, plan, k) && plan[k].res in end
  {
    DesiredAfterTurnIff(server, cat, rows, plan, k);
    KeepsValue(server, cat, rows, plan, k, |plan|);
    assert plan[..|plan|] == plan;
    hide AfterItems, Rescued, InDependencyOrder;
  }

  /** A run without failures leaves the whole plan as desired exactly when every item was rescued. */
  lemma ConvergesIff(server: Server, cat: Catalog, rows: seq<HashRow>, plan: seq<Item>)
    requires InDependencyOrder(server, plan) && StoredInOrder(server, cat, rows, plan) && UniqueRows(rows)
    ensures RunsThrough(server, cat, rows, plan, |plan|)
    ensures Settled(AfterItems(server, cat, rows, plan).cat, plan) <==>
            forall k :: 0 <= k < |plan| ==> Rescued(server, cat, rows, plan, k)
  {
    AllStanding(server, cat, rows, plan, |plan|);
    var end := AfterItems(server, cat, rows, plan).cat;
    hide AfterItems, Rescued, InDependencyOrder, StoredInOrder;
    forall k | 0 <= k < |plan| ensures Desired(end, plan[k]) <==> Rescued(server, cat, rows, plan, k) {
      EndsDesiredIff(server, cat, rows, plan, k);
    }
  }

  /** Two views, the second with its recorded hash as desired. */
  lemma TwoViews(server: Server, a: Item, b: Item, hashA: string, hashB: string)
    requires a.res == Resource(MatView, a.res.name) && b.res == Resource(MatView, b.res.name) && a.res != b.res
    requires server.refs(a.sql) == {} && server.refs(b.sql) <= {a.res.name}
    ensures var rows, plan := [HashRow(a.res, hashA), HashRow(b.res, hashB)], [a, b];
            && UniqueRows(rows) && InDependencyOrder(server, plan)
            && RowsOf(rows, a.res) == {hashA} && RowsOf(rows, b.res) == {hashB}
            && plan[..0] == [] && plan[..1] == [a] && plan[..2] == plan
  {
    var rows, plan := [HashRow(a.res, hashA), HashRow(b.res, hashB)], [a, b];
    assert rows[0].res == a.res && rows[1].res == b.res;
    assert plan[..1] == [a] && [a][0] == a;
    assert a.res in Resources(plan[..1]);
  }

  /**
   A hash that misleads about the second view does no harm when the first view, which the stored second one
   reads, is recreated: the cascade drops it and its own turn rebuilds it.
   */
  lemma MisledViewIsRescued(server: Server, a: Item, b: Item, oldA: string, oldB: string, hashA: string)
    requires a.res == Resource(MatView, a.res.name) && b.res == Resource(MatView, b.res.name) && a.res != b.res
    requires server.refs(a.sql) == {} && server.refs(b.sql) <= {a.res.name} && server.refs(oldB) == {a.res.name}
    requires hashA != server.sha(a.sql) && oldB != b.sql
    ensures var cat := map[a.res := oldA, b.res := oldB];
            var rows := [HashRow(a.res, hashA), HashRow(b.res, server.sha(b.sql))];
            && !Honest(server, cat, rows, [a, b])
            && Settled(AfterItems(server, cat, rows, [a, b]).cat, [a, b])
  {
    var cat := map[a.res := oldA, b.res := oldB];
    var rows, plan := [HashRow(a.res, hashA), HashRow(b.res, server.sha(b.sql))], [a, b];
    TwoViews(server, a, b, hashA, server.sha(b.sql));
    assert !Vouches(server, cat, rows[1], plan[1]);
    AfterNext(server, cat, rows, plan, 0);
    assert AfterItems(server, cat, rows, plan[..0]) == Progress(cat, {});
    assert AfterItems(server, cat, rows, plan[..1]).recreated == {a.res};
    RecreatesAsJudged(server, cat, rows, plan, 1);
    RecreatesAsJudged(server, cat, rows, plan, 0);
    assert StoredInOrder(server, cat, rows, plan) by {
      assert plan[..1][0].res == a.res;
    }
    hide AfterItems, Cascade, InDependencyOrder, StoredInOrder;
    ConvergesIff(server, cat, rows, plan);
    RowsDecide(server, cat, rows, a);
    CascadeIsLargest(server, cat - {a.res}, ViewNames({a.res}));
    ViewNamesOf({a.res}, a.res.name);
    SurvivorsShrink(server, cat, {a.res});
    forall k | 0 <= k < |plan| ensures Rescued(server, cat, rows, plan, k) {
      if k == 1 { assert a.res.name in server.refs(oldB) && a.res.name in ViewNames({a.res}); }
    }
  }

  /**
   Stored definitions that read against the order of the plan: the first view looks current but reads the
   second, so recreating the second drops it after its turn, and it is gone when the run ends.
   */
  lemma ForwardReadIsLost(server: Server, a: Item, b: Item, oldA: string, oldB: string, hashB: string)
    requires a.res == Resource(MatView, a.res.name) && b.res == Resource(MatView, b.res.name) && a.res != b.res
    requires server.refs(a.sql) == {} && server.refs(b.sql) == {} && server.refs(oldA) == {b.res.name}
    requires hashB != server.sha(b.sql)
    ensures var cat := map[a.res := oldA, b.res := oldB];
            var rows := [HashRow(a.res, server.sha(a.sql)), HashRow(b.res, hashB)];
            && !StoredInOrder(server, cat, rows, [a, b])
            && RunsThrough(server, cat, rows, [a, b], 2)
            && a.res !in AfterItems(server, cat, rows, [a, b]).cat
  {
    var cat := map[a.res := oldA, b.res := oldB];
    var rows, plan := [HashRow(a.res, server.sha(a.sql)), HashRow(b.res, hashB)], [a, b];
    TwoViews(server, a, b, server.sha(a.sql), hashB);
    AfterNext(server, cat, rows, plan, 0);
    AfterNext(server, cat, rows, plan, 1);
    assert AfterItems(server, cat, rows, plan[..0]) == Progress(cat, {});
    assert AfterItems(server, cat, rows, plan[..1]) == Progress(cat, {});
    assert b.res.name in server.refs(cat[plan[0].res]) && Resource(MatView, b.res.name) !in Resources(plan[..0]);
    hide AfterItems, InDependencyOrder;
    assert a.res in Dependents(server, cat - {b.res}, {b.res.name}) by {
      assert b.res.name in server.refs((cat - {b.res})[a.res]);
    }
    DroppedShrinks(server, cat, b.res);
    assert b.res !in Dropped(server, cat, b.res);
  }

  class Database {
    const server: Server
    var catalog: Catalog
    var rows: seq<HashRow>
    /** DROP and CREATE statements issued so far. */
    var execs: nat

    constructor (server: Server, catalog: Catalog, rows: seq<HashRow>)
      ensures this.server == server && this.catalog == catalog && this.rows == rows && execs == 0
    {
      this.server, this.catalog, this.rows, execs := server, catalog, rows, 0;
    }

    /** A failed lookup is only logged, so it looks like a missing row. */
    method FindHash(res: Resource, readsWork: bool) returns (at: Option<nat>)
      ensures at.Some? ==> at.value < |rows| && rows[at.value].res == res
      ensures readsWork && at.None? ==> forall i :: 0 <= i < |rows| ==> rows[i].res != res
    {
      at := None;
      var answers: bool := *;
      if (readsWork || answers) && exists i :: 0 <= i < |rows| && rows[i].res == res {
        var i :| 0 <= i < |rows| && rows[i].res == res;
        at := Some(i);
      }
    }

    /** A failed catalog query answers "missing". */
    method ResourceExists(res: Resource, readsWork: bool) returns (found: bool)
      ensures found ==> res in catalog
      ensures readsWork ==> found == (res in catalog)
    {
      var answers: bool := *;
      found := (readsWork || answers) && res in catalog;
    }

    /** A statement that fails may still have taken effect before the connection broke. */
    method ExecDrop(res: Resource, writesWork: bool) returns (ok: bool)
      modifies `catalog, `execs
      ensures execs == old(execs) + 1
      ensures catalog == Dropped(server, old(catalog), res) || (!ok && catalog == old(catalog))
      ensures writesWork ==> ok
    {
      execs := execs + 1;
      var applied: bool, answers: bool := *, *;
      if writesWork || applied { catalog := Dropped(server, catalog, res); }
      ok := writesWork || (applied && answers);
    }

    method ExecCreate(it: Item, writesWork: bool) returns (ok: bool)
      modifies `catalog, `execs
      ensures execs == old(execs) + 1
      ensures ok ==> Creatable(server, old(catalog), it)
      ensures (it.res !in old(catalog) && catalog == old(catalog)[it.res := it.sql]) || (!ok && catalog == old(catalog))
      ensures writesWork && Creatable(server, old(catalog), it) ==> ok
    {
      execs := execs + 1;
      var applied: bool, answers: bool := *, *;
      ok := false;
      if Creatable(server, catalog, it) && (writesWork || applied) {
        catalog := catalog[it.res := it.sql];
        ok := writesWork || answers;
      }
    }

    method RecordHash(at: Option<nat>, row: HashRow, writesWork: bool) returns (ok: bool)
      requires at.Some? ==> at.value < |rows|
      modifies `rows
      ensures rows == Recorded(old(rows), at, row) || (!ok && rows == old(rows))
      ensures writesWork ==> ok
    {
      var applied: bool, answers: bool := *, *;
      if writesWork || applied {
        rows := Recorded(rows, at, row);
      }
      ok := writesWork || (applied && answers);
    }

    /** The switch of `syncSchema`: the row found, and whether the resource has to be recreated. */
    method NeedsUpdate(it: Item, force: bool, readsWork: bool) returns (at: Option<nat>, updated: bool)
      ensures at.Some? ==> at.value < |rows| && rows[at.value].res == it.res
      ensures readsWork && at.None? ==> forall i :: 0 <= i < |rows| ==> rows[i].res != it.res
      ensures !updated ==> !force && it.res in catalog && at.Some? && rows[at.value].hash == server.sha(it.sql)
      ensures readsWork && !force && LooksCurrent(server, catalog, rows, it) ==> !updated
      ensures readsWork && UniqueRows(rows) ==> (updated <==> force || !LooksCurrent(server, catalog, rows, it))
    {
      at := FindHash(it.res, readsWork);
      if UniqueRows(rows) && readsWork { LookupDecides(server, catalog, rows, at, it); }
      RowFound(rows, at, it);
      if at.None? {
        updated := true;
      } else if rows[at.value].hash != server.sha(it.sql) {
        updated := true;
      } else if force {
        updated := true;
      } else {
        var found := ResourceExists(it.res, readsWork);
        updated := !found;
      }
    }

    /** The statements of `syncSchema`: drop, create, save the hash. */
    method Recreate(ghost plan: seq<Item>, ghost k: nat, it: Item, at: Option<nat>, writesWork: bool) returns (ok: bool)
      requires InDependencyOrder(server, plan) && k < |plan| && it == plan[k]
      requires at.Some? ==> at.value < |rows| && rows[at.value].res == it.res
      modifies this
      ensures old(Honest(server, catalog, rows, plan)) ==> Honest(server, catalog, rows, plan)
      ensures old(Settled(catalog, plan[..k])) ==> Settled(catalog, plan[..k])
      ensures ok ==> catalog == Dropped(server, old(catalog), it.res)[it.res := it.sql]
      ensures ok && old(Settled(catalog, plan[..k])) ==> Settled(catalog, plan[..k + 1])
      ensures writesWork ==> (ok <==> Creatable(server, Dropped(server, old(catalog), it.res), it))
      ensures writesWork && old(Settled(catalog, plan[..k])) ==> ok
      ensures rows == Recorded(old(rows), at, HashRow(it.res, server.sha(it.sql))) || (!ok && rows == old(rows))
    {
      hide InDependencyOrder, Settled, Honest, Recorded, Dropped, Creatable;
      RecreateKeeps(server, catalog, rows, plan, k);
      DropMakesCreatable(server, catalog, plan, k);
      ok := ExecDrop(it.res, writesWork);
      if !ok { return; }
      ok := ExecCreate(it, writesWork);
      if !ok { return; }
      RecordKeeps(server, catalog, rows, at, plan, k);
      ok := RecordHash(at, HashRow(it.res, server.sha(it.sql)), writesWork);
    }

    /** `syncSchema` on item `k` of a plan. */
    method SyncSchema(ghost plan: seq<Item>, ghost k: nat, it: Item, force: bool, readsWork: bool, writesWork: bool)
      returns (updated: bool, ok: bool)
      requires InDependencyOrder(server, plan) && k < |plan| && it == plan[k]
      modifies this
      ensures old(Honest(server, catalog, rows, plan)) ==> Honest(server, catalog, rows, plan)
      ensures old(Settled(catalog, plan[..k])) ==> Settled(catalog, plan[..k])
      ensures ok && updated ==> it.res in catalog && catalog[it.res] == it.sql
      ensures ok && readsWork && old(UniqueRows(rows)) ==>
                (Desired(catalog, it) <==> force || old(NoneMislead(server, catalog, rows, it)))
      ensures ok && old(Honest(server, catalog, rows, plan) && Settled(catalog, plan[..k])) ==>
                Settled(catalog, plan[..k + 1])
      ensures writesWork && old(Settled(catalog, plan[..k])) ==> ok
      ensures !updated ==> ok && catalog == old(catalog) && rows == old(rows) && execs == old(execs)
      ensures readsWork && !force && old(LooksCurrent(server, catalog, rows, it)) ==> !updated
      ensures readsWork && old(UniqueRows(rows)) ==>
                (updated <==> force || !old(LooksCurrent(server, catalog, rows, it)))
      ensures ok ==>
                catalog == if updated then Dropped(server, old(catalog), it.res)[it.res := it.sql] else old(catalog)
      ensures writesWork && updated ==> (ok <==> Creatable(server, Dropped(server, old(catalog), it.res), it))
      ensures readsWork && old(UniqueRows(rows)) ==> UniqueRows(rows)
      ensures ok && readsWork && old(UniqueRows(rows)) ==>
                && LooksCurrent(server, catalog, rows, it)
                && (forall r :: r != it.res ==> RowsOf(rows, r) == RowsOf(old(rows), r))
                && (old(Faithful(server, catalog, rows)) ==> Faithful(server, catalog, rows))
    {
      hide InDependencyOrder, Settled, Faithful, Honest, UniqueRows, RowsOf, Recorded, Dropped, Creatable, Vouches;
      ghost var unique := readsWork && UniqueRows(rows);
      var at;
      at, updated := NeedsUpdate(it, force, readsWork);
      if unique { LookupDecides(server, catalog, rows, at, it); }
      hide NoneMislead;
      if updated {
        if unique {
          SaveIsTidy(server, catalog, rows, at, it);
          UpdateMeansUnvouched(server, catalog, rows, at, it, force);
        }
        ok := Recreate(plan, k, it, at, writesWork);
      } else {
        ok := true;
        KeptVouches(server, catalog, rows, at, plan, k);
      }
    }

    /** The indexes of a view, forced when the view was recreated. */
    method SyncIndexes(ghost plan: seq<Item>, ghost k: nat, v: View, force: bool, readsWork: bool, writesWork: bool,
                       ghost cat0: Catalog, ghost rows0: seq<HashRow>)
      returns (ok: bool)
      requires InDependencyOrder(server, plan) && RoundAt(plan, k, v)
      modifies this
      ensures old(Converging(server, catalog, rows, plan, k + 1)) ==>
                && Honest(server, catalog, rows, plan)
                && (writesWork ==> ok)
                && (ok ==> Converging(server, catalog, rows, plan, k + 1 + |v.indexes|))
      ensures readsWork && old(UniqueRows(rows)) ==> UniqueRows(rows)
      ensures ok && readsWork && old(Tidy(server, rows, plan, k + 1)) ==>
                && Tidy(server, rows, plan, k + 1 + |v.indexes|)
                && (old(Faithful(server, catalog, rows)) ==> Faithful(server, catalog, rows))
      ensures readsWork && writesWork && old(InView(server, cat0, rows0, catalog, rows, plan, k, k + 1, force)) ==>
                if ok then Follows(server, cat0, rows0, catalog, rows, plan, k + 1 + |v.indexes|)
                else !RunsThrough(server, cat0, rows0, plan, |plan|)
      ensures readsWork && !force && old(AllLookCurrent(server, catalog, rows, plan)) ==>
                ok && catalog == old(catalog) && rows == old(rows) && execs == old(execs)
    {
      hide InDependencyOrder, Honest, Settled, Faithful, UniqueRows, RowsOf, Dropped, Creatable;
      hide Follows, InView, AfterItems, RunsThrough, LooksCurrent, Tidy;
      if Tidy(server, rows, plan, k + 1) { TidyUnique(server, rows, plan, k + 1); }
      ghost var follows := readsWork && writesWork && InView(server, cat0, rows0, catalog, rows, plan, k, k + 1, force);
      ghost var converging := Converging(server, catalog, rows, plan, k + 1);
      ghost var unique := readsWork && UniqueRows(rows);
      ghost var tidy := readsWork && Tidy(server, rows, plan, k + 1);
      ghost var faithful := tidy && Faithful(server, catalog, rows);
      ghost var quiet := readsWork && !force && AllLookCurrent(server, catalog, rows, plan);
      ok := true;
      for j := 0 to |v.indexes|
        invariant ok
        invariant converging ==> Converging(server, catalog, rows, plan, k + 1 + j)
        invariant unique ==> UniqueRows(rows)
        invariant tidy ==> Tidy(server, rows, plan, k + 1 + j)
        invariant faithful ==> Faithful(server, catalog, rows)
        invariant quiet ==> catalog == old(catalog) && rows == old(rows) && execs == old(execs)
        invariant follows ==> InView(server, cat0, rows0, catalog, rows, plan, k, k + 1 + j, force)
      {
        ghost var before, was := rows, catalog;
        if follows { InViewFollows(server, cat0, rows0, catalog, rows, plan, k, k + 1 + j, force); }
        var indexUpdated, indexOk := SyncSchema(plan, k + 1 + j, IndexItems(v)[j], force, readsWork, writesWork);
        ok := indexOk;
        if follows {
          IndexStep(server, cat0, rows0, was, before, catalog, rows, plan, k, k + 1 + j, force, indexUpdated, ok);
        }
        if !ok { return; }
        if tidy { TidyGrows(server, before, catalog, rows, plan, k + 1 + j); }
      }
      if follows { InViewFollows(server, cat0, rows0, catalog, rows, plan, k, k + 1 + |v.indexes|, force); }
    }

    /** One round of the view loop: the view, then its indexes, forced when the view was recreated. */
    method SyncView(ghost plan: seq<Item>, ghost k: nat, v: View, readsWork: bool, writesWork: bool,
                    ghost cat0: Catalog, ghost rows0: seq<HashRow>)
      returns (ok: bool)
      requires InDependencyOrder(server, plan) && RoundAt(plan, k, v)
      modifies this
      ensures old(Converging(server, catalog, rows, plan, k)) ==>
                && Honest(server, catalog, rows, plan)
                && (writesWork ==> ok)
                && (ok ==> Converging(server, catalog, rows, plan, k + 1 + |v.indexes|))
      ensures readsWork && old(UniqueRows(rows)) ==> UniqueRows(rows)
      ensures ok && readsWork && old(Tidy(server, rows, plan, k)) ==>
                && Tidy(server, rows, plan, k + 1 + |v.indexes|)
                && (old(Faithful(server, catalog, rows)) ==> Faithful(server, catalog, rows))
      ensures readsWork && writesWork && old(Follows(server, cat0, rows0, catalog, rows, plan, k)) ==>
                if ok then Follows(server, cat0, rows0, catalog, rows, plan, k + 1 + |v.indexes|)
                else !RunsThrough(server, cat0, rows0, plan, |plan|)
      ensures readsWork && old(AllLookCurrent(server, catalog, rows, plan)) ==>
                ok && catalog == old(catalog) && rows == old(rows) && execs == old(execs)
    {
      hide InDependencyOrder, Honest, Settled, Faithful, UniqueRows, RowsOf, Dropped, Creatable;
      hide Follows, InView, AfterItems, RunsThrough, LooksCurrent, Tidy;
      if Tidy(server, rows, plan, k) { TidyUnique(server, rows, plan, k); }
      ghost var follows := readsWork && writesWork && Follows(server, cat0, rows0, catalog, rows, plan, k);
      ghost var tidy := readsWork && Tidy(server, rows, plan, k);
      ghost var before, was := rows, catalog;
      if follows { FollowsUnique(server, cat0, rows0, catalog, rows, plan, k); }
      var updated;
      updated, ok := SyncSchema(plan, k, ViewItem(v), false, readsWork, writesWork);
      if follows { FollowStep(server, cat0, rows0, was, before, catalog, rows, plan, k, false, updated, ok); }
      if !ok { return; }
      if tidy { TidyGrows(server, before, catalog, rows, plan, k); }
      ok := SyncIndexes(plan, k, v, updated, readsWork, writesWork, cat0, rows0);
    }

    /**
     `syncPostgresMaterializedViews`. From honest hashes it converges whatever failed before. From any catalog
     and hashes, when nothing fails it goes through or stops exactly as the plan foretells, and leaves what
     the plan foretells.
     */
    method SyncMatViews(views: seq<View>, readsWork: bool, writesWork: bool) returns (ok: bool)
      requires InDependencyOrder(server, Plan(views))
      modifies this
      ensures old(Honest(server, catalog, rows, Plan(views))) ==>
                && Honest(server, catalog, rows, Plan(views))
                && (ok ==> Settled(catalog, Plan(views)))
                && (writesWork ==> ok)
      ensures readsWork && old(UniqueRows(rows)) ==> UniqueRows(rows)
      ensures ok && readsWork && old(Honest(server, catalog, rows, Plan(views)) && UniqueRows(rows)) ==>
                && AllLookCurrent(server, catalog, rows, Plan(views))
                && (old(Faithful(server, catalog, rows)) ==> Faithful(server, catalog, rows))
      ensures readsWork && writesWork && old(UniqueRows(rows)) ==>
                && (ok <==> RunsThrough(server, old(catalog), old(rows), Plan(views), |Plan(views)|))
                && (ok ==> catalog == AfterItems(server, old(catalog), old(rows), Plan(views)).cat)
      ensures readsWork && old(AllLookCurrent(server, catalog, rows, Plan(views))) ==>
                ok && catalog == old(catalog) && rows == old(rows) && execs == old(execs)
    {
      hide InDependencyOrder, Honest, Faithful, UniqueRows, Settled, LooksCurrent, AllLookCurrent, Converging, Tidy;
      hide Follows, AfterItems, RunsThrough;
      ghost var plan := Plan(views);
      SyncStarts(server, catalog, rows, plan);
      ghost var follows := readsWork && writesWork && UniqueRows(rows);
      ghost var honest := Honest(server, catalog, rows, plan);
      ghost var tidy := readsWork && UniqueRows(rows);
      ghost var faithful := tidy && Faithful(server, catalog, rows);
      ghost var quiet := readsWork && AllLookCurrent(server, catalog, rows, plan);
      ok := true;
      for i := 0 to |views|
        invariant ok && |Plan(views[..i])| <= |plan|
        invariant honest ==> Converging(server, catalog, rows, plan, |Plan(views[..i])|)
        invariant tidy ==> UniqueRows(rows) && Tidy(server, rows, plan, |Plan(views[..i])|)
        invariant faithful ==> Faithful(server, catalog, rows)
        invariant quiet ==> catalog == old(catalog) && rows == old(rows) && execs == old(execs)
        invariant follows ==> Follows(server, old(catalog), old(rows), catalog, rows, plan, |Plan(views[..i])|)
      {
        PlanAt(views, i);
        ok := SyncView(plan, |Plan(views[..i])|, views[i], readsWork, writesWork, old(catalog), old(rows));
        if !ok { return; }
      }
      assert views[..|views|] == views;
      if honest { SyncEnds(server, catalog, rows, plan); }
      if follows { FollowsEnds(server, old(catalog), old(rows), catalog, rows, plan); }
    }

    /** Any number of broken runs, then one whose statements all succeed, then one more. */
    method Deploy(views: seq<View>, brokenRuns: nat, readsWork: bool) returns (execsWhenDone: nat)
      requires InDependencyOrder(server, Plan(views)) && Honest(server, catalog, rows, Plan(views))
      modifies this
      ensures Settled(catalog, Plan(views)) && Honest(server, catalog, rows, Plan(views))
      ensures readsWork && old(UniqueRows(rows)) ==>
                UniqueRows(rows) && AllLookCurrent(server, catalog, rows, Plan(views)) && execs == execsWhenDone
    {
      for run := 0 to brokenRuns
        invariant Honest(server, catalog, rows, Plan(views))
        invariant readsWork && old(UniqueRows(rows)) ==> UniqueRows(rows)
      {
        var _ := SyncMatViews(views, readsWork, false);
      }
      var _ := SyncMatViews(views, readsWork, true);
      execsWhenDone := execs;
      var _ := SyncMatViews(views, readsWork, true);
    }
  }

  ghost predicate AllLookCurrent(server: Server, cat: Catalog, rows: seq<HashRow>, plan: seq<Item>) {
    forall k :: 0 <= k < |plan| ==> LooksCurrent(server, cat, rows, plan[k])
  }

  /** The loop's position: items before `k` are settled and no row misleads the ones after. */
  ghost predicate Converging(server: Server, cat: Catalog, rows: seq<HashRow>, plan: seq<Item>, k: nat) {
    k <= |plan| && Honest(server, cat, rows, plan) && Settled(cat, plan[..k])
  }

  lemma SyncStarts(server: Server, cat: Catalog, rows: seq<HashRow>, plan: seq<Item>)
    ensures Honest(server, cat, rows, plan) ==> Converging(server, cat, rows, plan, 0)
    ensures UniqueRows(rows) ==> Tidy(server, rows, plan, 0) && Follows(server, cat, rows, cat, rows, plan, 0)
  {
  }

  /** The run is where the plan says, and the rows of what is to come are the initial ones. */
  ghost predicate Follows(server: Server, cat0: Catalog, rows0: seq<HashRow>, cat: Catalog, rows: seq<HashRow>,
                          plan: seq<Item>, k: nat) {
    && RunsThrough(server, cat0, rows0, plan, k)
    && cat == AfterItems(server, cat0, rows0, plan[..k]).cat
    && UniqueRows(rows)
    && forall j :: k <= j < |plan| ==> RowsOf(rows, plan[j].res) == RowsOf(rows0, plan[j].res)
  }

  lemma FollowsUnique(server: Server, cat0: Catalog, rows0: seq<HashRow>, cat: Catalog, rows: seq<HashRow>,
                      plan: seq<Item>, k: nat)
    requires Follows(server, cat0, rows0, cat, rows, plan, k)
    ensures UniqueRows(rows)
  {
  }

  lemma FollowsEnds(server: Server, cat0: Catalog, rows0: seq<HashRow>, cat: Catalog, rows: seq<HashRow>,
                    plan: seq<Item>)
    requires Follows(server, cat0, rows0, cat, rows, plan, |plan|)
    ensures RunsThrough(server, cat0, rows0, plan, |plan|) && cat == AfterItems(server, cat0, rows0, plan).cat
  {
    assert plan[..|plan|] == plan;
  }

  /** As `Follows`, among the indexes of view item `k`; the flag tells whether that view was recreated. */
  ghost predicate InView(server: Server, cat0: Catalog, rows0: seq<HashRow>, cat: Catalog, rows: seq<HashRow>,
                         plan: seq<Item>, k: nat, m: nat, updated: bool) {
    && k < m && Follows(server, cat0, rows0, cat, rows, plan, m)
    && (updated <==> plan[k].res in AfterItems(server, cat0, rows0, plan[..m]).recreated)
  }

  lemma InViewFollows(server: Server, cat0: Catalog, rows0: seq<HashRow>, cat: Catalog, rows: seq<HashRow>,
                      plan: seq<Item>, k: nat, m: nat, updated: bool)
    requires InView(server, cat0, rows0, cat, rows, plan, k, m, updated)
    ensures Follows(server, cat0, rows0, cat, rows, plan, m) && UniqueRows(rows)
  {
  }

  lemma IndexStep(server: Server, cat0: Catalog, rows0: seq<HashRow>, cat: Catalog, rows: seq<HashRow>,
                  now: Catalog, rowsNow: seq<HashRow>, plan: seq<Item>, k: nat, m: nat, force: bool, updated: bool,
                  ok: bool)
    requires InDependencyOrder(server, plan) && m < |plan| && InView(server, cat0, rows0, cat, rows, plan, k, m, force)
    requires plan[m].res.kind == Index && plan[k].res == Resource(MatView, plan[m].view)
    requires updated <==> force || !LooksCurrent(server, cat, rows, plan[m])
    requires updated ==> (ok <==> Creatable(server, Dropped(server, cat, plan[m].res), plan[m]))
    requires !updated ==> ok
    requires ok ==> now == if updated then Dropped(server, cat, plan[m].res)[plan[m].res := plan[m].sql] else cat
    requires ok ==> UniqueRows(rowsNow) && forall r :: r != plan[m].res ==> RowsOf(rowsNow, r) == RowsOf(rows, r)
    ensures ok ==> InView(server, cat0, rows0, now, rowsNow, plan, k, m + 1, force)
    ensures !ok ==> !RunsThrough(server, cat0, rows0, plan, |plan|)
  {
    hide InDependencyOrder, LooksCurrent, Creatable, Dropped, UniqueRows, RowsOf, AfterItems, Follows;
    FollowStep(server, cat0, rows0, cat, rows, now, rowsNow, plan, m, force, updated, ok);
    RecreatedOnce(server, cat0, rows0, plan, k, m);
    RecreatedOnce(server, cat0, rows0, plan, k, m + 1);
  }

  lemma FollowStep(server: Server, cat0: Catalog, rows0: seq<HashRow>, cat: Catalog, rows: seq<HashRow>,
                   now: Catalog, rowsNow: seq<HashRow>, plan: seq<Item>, k: nat, force: bool, updated: bool, ok: bool)
    requires InDependencyOrder(server, plan) && k < |plan| && Follows(server, cat0, rows0, cat, rows, plan, k)
    requires force <==> Forced(plan[k], AfterItems(server, cat0, rows0, plan[..k]).recreated)
    requires updated <==> force || !LooksCurrent(server, cat, rows, plan[k])
    requires updated ==> (ok <==> Creatable(server, Dropped(server, cat, plan[k].res), plan[k]))
    requires !updated ==> ok
    requires ok ==> now == if updated then Dropped(server, cat, plan[k].res)[plan[k].res := plan[k].sql] else cat
    requires ok ==> UniqueRows(rowsNow) && forall r :: r != plan[k].res ==> RowsOf(rowsNow, r) == RowsOf(rows, r)
    ensures ok ==> Follows(server, cat0, rows0, now, rowsNow, plan, k + 1)
    ensures ok ==> InView(server, cat0, rows0, now, rowsNow, plan, k, k + 1, updated)
    ensures !ok ==> !RunsThrough(server, cat0, rows0, plan, |plan|)
    ensures updated <==> plan[k].res in AfterItems(server, cat0, rows0, plan[..k + 1]).recreated
  {
    AfterNext(server, cat0, rows0, plan, k);
    NotYetRecreated(server, cat0, rows0, plan, k, k);
    forall j | k < j < |plan| ensures plan[j].res != plan[k].res {}
    hide AfterItems, Dropped, RowsOf, UniqueRows, InDependencyOrder, Creatable;
    assert Recreates(server, rows0, AfterItems(server, cat0, rows0, plan[..k]), plan[k]) <==> updated;
    assert CanCreate(server, cat0, rows0, plan, k) <==> ok;
  }

  lemma SyncEnds(server: Server, cat: Catalog, rows: seq<HashRow>, plan: seq<Item>)
    requires Converging(server, cat, rows, plan, |plan|)
    ensures Honest(server, cat, rows, plan) && Settled(cat, plan)
    ensures Tidy(server, rows, plan, |plan|) ==> UniqueRows(rows) && AllLookCurrent(server, cat, rows, plan)
  {
    assert plan[..|plan|] == plan;
  }

  /** One row per resource, and the rows of the items before `k` are current. */
  ghost predicate Tidy(server: Server, rows: seq<HashRow>, plan: seq<Item>, k: nat) {
    && UniqueRows(rows)
    && k <= |plan|
    && forall j :: 0 <= j < k ==> RowsOf(rows, plan[j].res) == {server.sha(plan[j].sql)}
  }

  lemma TidyUnique(server: Server, rows: seq<HashRow>, plan: seq<Item>, k: nat)
    requires Tidy(server, rows, plan, k)
    ensures UniqueRows(rows)
  {
  }

  lemma TidyGrows(server: Server, before: seq<HashRow>, cat: Catalog, after: seq<HashRow>, plan: seq<Item>, k: nat)
    requires InDependencyOrder(server, plan) && k < |plan| && Tidy(server, before, plan, k) && UniqueRows(after)
    requires LooksCurrent(server, cat, after, plan[k])
    requires forall r :: r != plan[k].res ==> RowsOf(after, r) == RowsOf(before, r)
    ensures Tidy(server, after, plan, k + 1)
  {
  }

  /** After a finished sync no hash misleads a later deployment, whatever it desires. */
  lemma FaithfulIsHonest(server: Server, cat: Catalog, rows: seq<HashRow>, plan: seq<Item>)
    requires Injective(server.sha) && Faithful(server, cat, rows)
    ensures Honest(server, cat, rows, plan)
  {
    forall i, k | 0 <= i < |rows| && 0 <= k < |plan| ensures Vouches(server, cat, rows[i], plan[k]) {
    }
  }

  /**
   A run that stops between CREATE and the hash save, followed by a rollback to the old definition:
   the old hash still matches, so the new definition stays under the old name for good.
   */
  method RollbackAfterCrash(db: Database, name: string, before: string, after: string)
    requires db.server.refs(before) == {} && db.server.refs(after) == {} && before != after
    requires db.catalog == map[Resource(MatView, name) := before]
    requires db.rows == [HashRow(Resource(MatView, name), db.server.sha(before))]
    modifies db
    ensures old(Faithful(db.server, db.catalog, db.rows))
    ensures db.catalog == map[Resource(MatView, name) := after]
    ensures AllLookCurrent(db.server, db.catalog, db.rows, Plan([View(name, before, [])]))
    ensures !Honest(db.server, db.catalog, db.rows, Plan([View(name, before, [])]))
  {
    var res := Resource(MatView, name);
    var _ := db.ExecDrop(res, true);
    var _ := db.ExecCreate(Item(res, after, name), true);
    // the process dies here; the next one runs the old release
    var rollback := [View(name, before, [])];
    assert Plan(rollback[..0]) == [];
    assert Plan(rollback) == [Item(res, before, name)];
    assert RowsOf(db.rows, res) == {db.server.sha(before)} by { assert db.rows[0].res == res; }
    var _ := db.SyncMatViews(rollback, true, true);
    assert !Vouches(db.server, db.catalog, db.rows[0], Plan(rollback)[0]);
  }
}
