/**
 Reconciling the job-variant registry with the expected variants (pkg/variantregistry/loader.go).

 The registry table has no key. It is a sequence of rows, and the loader promises to keep at most
 one row per job and variant name. Every statement may fail, with or without having taken effect.
 */
module VariantRegistry {
  import opened Common

  datatype Key = Key(job: string, name: string)

  datatype Row = Row(key: Key, value: string)

  /** Variants by job, then by name. */
  type Variants = map<string, map<string, string>>

  type Cells = map<Key, string>

  const InvalidCharacters := {',', ':'}

  /** What the loader sees of a list of rows: a later row of the same key wins. */
  function AsMap(rows: seq<Row>): Cells {
    if rows == [] then map[]
    else AsMap(rows[..|rows| - 1])[rows[|rows| - 1].key := rows[|rows| - 1].value]
  }

  ghost predicate UniqueKeys(rows: seq<Row>) {
    forall i, j :: 0 <= i < j < |rows| ==> rows[i].key != rows[j].key
  }

  function FlatKeys(vs: Variants): set<Key> {
    set j, n | j in vs && n in vs[j] :: Key(j, n)
  }

  function Flat(vs: Variants): (m: Cells)
    ensures forall k :: k in m <==> k.job in vs && k.name in vs[k.job]
    ensures forall k :: k in m ==> m[k] == vs[k.job][k.name]
  {
    map k | k in FlatKeys(vs) :: vs[k.job][k.name]
  }

  // ---------------------------------------------------------------------------------------
  // Rows as cells

  lemma AsMapAppend(rows: seq<Row>, r: Row)
    ensures AsMap(rows + [r]) == AsMap(rows)[r.key := r.value]
    ensures UniqueKeys(rows) && r.key !in AsMap(rows) ==> UniqueKeys(rows + [r])
  {
    assert (rows + [r])[..|rows|] == rows;
    KeysAreRowKeys(rows);
  }

  lemma {:induction false} KeysAreRowKeys(rows: seq<Row>)
    ensures forall k :: k in AsMap(rows) <==> exists i :: 0 <= i < |rows| && rows[i].key == k
  {
    if rows != [] {
      var init := rows[..|rows| - 1];
      KeysAreRowKeys(init);
      forall k ensures k in AsMap(rows) <==> exists i :: 0 <= i < |rows| && rows[i].key == k {
        if i :| 0 <= i < |init| && init[i].key == k { assert rows[i].key == k; }
        if i :| 0 <= i < |rows| && rows[i].key == k && i < |init| { assert init[i].key == k; }
      }
    }
  }

  lemma {:induction false} CellsConcat(a: seq<Row>, b: seq<Row>)
    ensures AsMap(a + b) == AsMap(a) + AsMap(b)
  {
    if b == [] {
      assert a + b == a;
    } else {
      var init, last := b[..|b| - 1], b[|b| - 1];
      CellsConcat(a, init);
      assert AsMap(b) == AsMap(init)[last.key := last.value];
      hide AsMap;
      assert a + b == (a + init) + [last];
      AsMapAppend(a + init, last);
    }
  }

  lemma AsMapConcat(a: seq<Row>, b: seq<Row>)
    ensures AsMap(a + b) == AsMap(a) + AsMap(b)
    ensures UniqueKeys(a) && UniqueKeys(b) && AsMap(a).Keys !! AsMap(b).Keys ==> UniqueKeys(a + b)
  {
    hide AsMap;
    CellsConcat(a, b);
    KeysAreRowKeys(a);
    KeysAreRowKeys(b);
    forall i | 0 <= i < |a| ensures a[i].key in AsMap(a) {}
    forall i | 0 <= i < |b| ensures b[i].key in AsMap(b) {}
    if AsMap(a).Keys !! AsMap(b).Keys {
      forall i, j | 0 <= i < |a| && 0 <= j < |b| ensures a[i].key != b[j].key {
        assert a[i].key in AsMap(a).Keys && b[j].key in AsMap(b).Keys;
      }
    }
  }

  /** With unique keys the cells are exactly the rows. */
  lemma {:induction false} CellsAreRows(rows: seq<Row>, r: Row)
    requires UniqueKeys(rows)
    ensures r in rows <==> r.key in AsMap(rows) && AsMap(rows)[r.key] == r.value
  {
    if rows != [] {
      var init, last := rows[..|rows| - 1], rows[|rows| - 1];
      CellsAreRows(init, r);
      KeysAreRowKeys(init);
      assert rows == init + [last];
    }
  }

  // ---------------------------------------------------------------------------------------
  // The difference between table and expectation

  /** The keys at which the table and the expectation disagree. */
  ghost function Diff(want: Cells, have: Cells): set<Key> {
    set k | k in want.Keys + have.Keys && !(k in want && k in have && want[k] == have[k])
  }

  ghost function ToInsert(want: Cells, have: Cells): Cells {
    map k | k in want && k !in have :: want[k]
  }

  ghost function ToUpdate(want: Cells, have: Cells): Cells {
    map k | k in want && k in have && want[k] != have[k] :: want[k]
  }

  ghost function ToDelete(want: Variants, have: Cells): Cells {
    map k | k in have && k.job in want && k.name !in want[k.job] :: have[k]
  }

  function InJobs(m: Cells, jobs: set<string>): Cells {
    map k | k in m && k.job in jobs :: m[k]
  }

  /** The four lists split the difference: every disagreement is addressed once. */
  lemma FourWaysToDiffer(want: Variants, have: Variants)
    ensures var w, h := Flat(want), Flat(have);
            var doomed := set k | k in h && k.job !in want;
            && Diff(w, h) == ToInsert(w, h).Keys + ToUpdate(w, h).Keys + ToDelete(want, h).Keys + doomed
            && ToInsert(w, h).Keys !! ToUpdate(w, h).Keys !! ToDelete(want, h).Keys !! doomed
  {
  }

  lemma DiffEmptyIsEqual(want: Cells, have: Cells)
    ensures Diff(want, have) == {} <==> want == have
  {
    if Diff(want, have) == {} {
      forall k | k in want.Keys + have.Keys ensures k in want && k in have && want[k] == have[k] {
        assert k !in Diff(want, have);
      }
    }
  }

  // ---------------------------------------------------------------------------------------
  // compareVariants

  /** The cells of one job. */
  function Lift(job: string, vs: map<string, string>): (m: Cells)
    ensures forall k :: k in m <==> k.job == job && k.name in vs
    ensures forall k :: k in m ==> m[k] == vs[k.name]
  {
    Flat(map[job := vs])
  }

  lemma NoRows(job: string)
    ensures UniqueKeys([]) && AsMap([]) == map[] == Lift(job, map[])
  {
  }

  lemma AppendVariant(rows: seq<Row>, job: string, vs: map<string, string>, n: string, v: string)
    requires UniqueKeys(rows) && AsMap(rows) == Lift(job, vs) && n !in vs
    ensures UniqueKeys(rows + [Row(Key(job, n), v)]) && AsMap(rows + [Row(Key(job, n), v)]) == Lift(job, vs[n := v])
  {
    AsMapAppend(rows, Row(Key(job, n), v));
  }

  function Missing(want: map<string, string>, have: map<string, string>, todo: set<string>): map<string, string> {
    map n | n in want && n !in have && n !in todo :: want[n]
  }

  function Changed(want: map<string, string>, have: map<string, string>, todo: set<string>): map<string, string> {
    map n | n in want && n in have && have[n] != want[n] && n !in todo :: want[n]
  }

  lemma OneMore(want: map<string, string>, have: map<string, string>, todo: set<string>, n: string)
    requires n in todo && n in want
    ensures Missing(want, have, todo - {n}) ==
            if n !in have then Missing(want, have, todo)[n := want[n]] else Missing(want, have, todo)
    ensures Changed(want, have, todo - {n}) ==
            if n in have && have[n] != want[n] then Changed(want, have, todo)[n := want[n]]
            else Changed(want, have, todo)
    ensures n !in Missing(want, have, todo) && n !in Changed(want, have, todo)
  {
  }

  lemma NoneYet(want: map<string, string>, have: map<string, string>)
    ensures Missing(want, have, want.Keys) == map[] == Changed(want, have, want.Keys)
  {
  }

  /** The variants a job should have: those that are new and those whose value changed. */
  method CompareWanted(job: string, want: map<string, string>, have: map<string, string>)
    returns (inserts: seq<Row>, updates: seq<Row>)
    ensures UniqueKeys(inserts) && AsMap(inserts) == Lift(job, Missing(want, have, {}))
    ensures UniqueKeys(updates) && AsMap(updates) == Lift(job, Changed(want, have, {}))
  {
    inserts, updates := [], [];
    NoRows(job);
    NoneYet(want, have);
    hide AsMap, UniqueKeys, Flat, Lift, Missing, Changed;
    var todo := want.Keys;
    while todo != {}
      invariant todo <= want.Keys
      invariant UniqueKeys(inserts) && AsMap(inserts) == Lift(job, Missing(want, have, todo))
      invariant UniqueKeys(updates) && AsMap(updates) == Lift(job, Changed(want, have, todo))
    {
      var n :| n in todo;
      OneMore(want, have, todo, n);
      if n !in have {
        AppendVariant(inserts, job, Missing(want, have, todo), n, want[n]);
        inserts := inserts + [Row(Key(job, n), want[n])];
      } else if have[n] != want[n] {
        AppendVariant(updates, job, Changed(want, have, todo), n, want[n]);
        updates := updates + [Row(Key(job, n), want[n])];
      }
      todo := todo - {n};
    }
  }

  /** The variants of a job that should go. */
  method CompareExtra(job: string, want: map<string, string>, have: map<string, string>) returns (deletes: seq<Row>)
    ensures UniqueKeys(deletes) && AsMap(deletes) == Lift(job, Missing(have, want, {}))
  {
    deletes := [];
    NoRows(job);
    NoneYet(have, want);
    hide AsMap, UniqueKeys, Flat, Lift, Missing, Changed;
    var todo := have.Keys;
    while todo != {}
      invariant todo <= have.Keys
      invariant UniqueKeys(deletes) && AsMap(deletes) == Lift(job, Missing(have, want, todo))
    {
      var n :| n in todo;
      OneMore(have, want, todo, n);
      if n !in want {
        AppendVariant(deletes, job, Missing(have, want, todo), n, have[n]);
        deletes := deletes + [Row(Key(job, n), have[n])];
      }
      todo := todo - {n};
    }
  }

  function Current(have: Variants, job: string): map<string, string> {
    if job in have then have[job] else map[]
  }

  /** The cells of one job are its variants. */
  ghost predicate JobCells(m: Cells, job: string, vs: map<string, string>) {
    forall n :: (Key(job, n) in m <==> n in vs) && (n in vs ==> m[Key(job, n)] == vs[n])
  }

  lemma FlatJob(vs: Variants, job: string)
    ensures JobCells(Flat(vs), job, Current(vs, job))
  {
    hide FlatKeys, Flat;
  }

  lemma JobInserts(want: Variants, have: Variants, job: string)
    requires job in want
    ensures InJobs(ToInsert(Flat(want), Flat(have)), {job}) == Lift(job, Missing(want[job], Current(have, job), {}))
  {
    FlatJob(want, job);
    FlatJob(have, job);
    hide FlatKeys, Flat, Lift;
    JobPart(InJobs(ToInsert(Flat(want), Flat(have)), {job}), job, Missing(want[job], Current(have, job), {}));
  }

  lemma JobUpdates(want: Variants, have: Variants, job: string)
    requires job in want
    ensures InJobs(ToUpdate(Flat(want), Flat(have)), {job}) == Lift(job, Changed(want[job], Current(have, job), {}))
  {
    FlatJob(want, job);
    FlatJob(have, job);
    hide FlatKeys, Flat, Lift;
    JobPart(InJobs(ToUpdate(Flat(want), Flat(have)), {job}), job, Changed(want[job], Current(have, job), {}));
  }

  lemma JobDeletes(want: Variants, have: Variants, job: string)
    requires job in want
    ensures InJobs(ToDelete(want, Flat(have)), {job}) == Lift(job, Missing(Current(have, job), want[job], {}))
  {
    FlatJob(have, job);
    hide FlatKeys, Flat, Lift;
    JobPart(InJobs(ToDelete(want, Flat(have)), {job}), job, Missing(Current(have, job), want[job], {}));
  }

  lemma JobPart(m: Cells, job: string, vs: map<string, string>)
    requires JobCells(m, job, vs) && forall k :: k in m ==> k.job == job
    ensures m == Lift(job, vs)
  {
    hide Lift;
    forall k ensures k in m <==> k in Lift(job, vs) { assert k.job == job ==> k == Key(job, k.name); }
  }

  /** Growing a result list by the rows of one more job. */
  lemma GrowByJob(acc: seq<Row>, more: seq<Row>, total: Cells, done: set<string>, job: string)
    requires UniqueKeys(acc) && AsMap(acc) == InJobs(total, done) && job !in done
    requires UniqueKeys(more) && AsMap(more) == InJobs(total, {job})
    ensures UniqueKeys(acc + more) && AsMap(acc + more) == InJobs(total, done + {job})
  {
    AsMapConcat(acc, more);
  }

  lemma AllJobs(m: Cells, jobs: set<string>)
    requires forall k :: k in m ==> k.job in jobs
    ensures InJobs(m, jobs) == m && InJobs(m, {}) == map[]
  {
  }

  /** Each list holds its part of the difference, one row per key. */
  ghost predicate Compared(want: Variants, have: Variants, inserts: seq<Row>, updates: seq<Row>, deletes: seq<Row>,
                           deleteJobs: seq<string>)
  {
    && UniqueKeys(inserts) && AsMap(inserts) == ToInsert(Flat(want), Flat(have))
    && UniqueKeys(updates) && AsMap(updates) == ToUpdate(Flat(want), Flat(have))
    && UniqueKeys(deletes) && AsMap(deletes) == ToDelete(want, Flat(have))
    && (forall j :: j in deleteJobs <==> j in have && j !in want)
    && forall i, j :: 0 <= i < j < |deleteJobs| ==> deleteJobs[i] != deleteJobs[j]
  }

  /** The jobs that should go, each once. */
  method CompareJobs(want: Variants, have: Variants) returns (deleteJobs: seq<string>)
    ensures forall j :: j in deleteJobs <==> j in have && j !in want
    ensures forall i, j :: 0 <= i < j < |deleteJobs| ==> deleteJobs[i] != deleteJobs[j]
  {
    deleteJobs := [];
    var todo := have.Keys;
    while todo != {}
      invariant todo <= have.Keys
      invariant forall j :: j in deleteJobs <==> j in have && j !in want && j !in todo
      invariant forall i, j :: 0 <= i < j < |deleteJobs| ==> deleteJobs[i] != deleteJobs[j]
    {
      var job :| job in todo;
      todo := todo - {job};
      if job !in want {
        deleteJobs := deleteJobs + [job];
      }
    }
  }

  /** `compareVariants`: what to insert, update and delete, and the jobs to drop. */
  method CompareVariants(want: Variants, have: Variants)
    returns (inserts: seq<Row>, updates: seq<Row>, deletes: seq<Row>, deleteJobs: seq<string>)
    ensures Compared(want, have, inserts, updates, deletes, deleteJobs)
  {
    inserts, updates, deletes, deleteJobs := [], [], [], [];
    NoRows("");
    ghost var ins, upd, del :=
      ToInsert(Flat(want), Flat(have)), ToUpdate(Flat(want), Flat(have)), ToDelete(want, Flat(have));
    AllJobs(ins, want.Keys);
    AllJobs(upd, want.Keys);
    AllJobs(del, want.Keys);
    hide AsMap, UniqueKeys, Flat, Lift, Missing, Changed, ToInsert, ToUpdate, ToDelete, InJobs;
    ghost var done: set<string> := {};
    var todo := want.Keys;
    while todo != {}
      invariant done == want.Keys - todo && todo <= want.Keys
      invariant UniqueKeys(inserts) && AsMap(inserts) == InJobs(ins, done)
      invariant UniqueKeys(updates) && AsMap(updates) == InJobs(upd, done)
      invariant UniqueKeys(deletes) && AsMap(deletes) == InJobs(del, done)
    {
      var job :| job in todo;
      todo := todo - {job};
      var current := Current(have, job);
      var moreInserts, moreUpdates := CompareWanted(job, want[job], current);
      var moreDeletes := CompareExtra(job, want[job], current);
      JobInserts(want, have, job);
      JobUpdates(want, have, job);
      JobDeletes(want, have, job);
      GrowByJob(inserts, moreInserts, ins, done, job);
      GrowByJob(updates, moreUpdates, upd, done, job);
      GrowByJob(deletes, moreDeletes, del, done, job);
      inserts, updates, deletes := inserts + moreInserts, updates + moreUpdates, deletes + moreDeletes;
      done := done + {job};
    }
    assert done == want.Keys;
    deleteJobs := CompareJobs(want, have);
  }

  // ---------------------------------------------------------------------------------------
  // Moving toward the expectation

  ghost predicate SameAt(a: Cells, b: Cells, k: Key) {
    (k in a <==> k in b) && (k in a ==> a[k] == b[k])
  }

  /** Every cell is as it was or as it should be: nothing right is lost and nothing foreign appears. */
  ghost predicate Toward(want: Cells, before: Cells, after: Cells) {
    forall k :: SameAt(after, before, k) || SameAt(after, want, k)
  }

  ghost predicate OnlyAt(keys: set<Key>, before: Cells, after: Cells) {
    forall k :: k !in keys ==> SameAt(after, before, k)
  }

  ghost predicate Done(keys: set<Key>, want: Cells, have: Cells) {
    forall k :: k in keys ==> SameAt(have, want, k)
  }

  /** The keys where the table is not yet as it should be. */
  ghost function Undone(keys: set<Key>, want: Cells, have: Cells): set<Key> {
    set k | k in keys && !SameAt(have, want, k)
  }

  /** What is done stays done by steps toward the expectation. */
  lemma StaysDone(keys: set<Key>, want: Cells, before: Cells, after: Cells)
    requires Toward(want, before, after)
    ensures Undone(keys, want, after) <= Undone(keys, want, before)
    ensures |Undone(keys, want, after)| <= |Undone(keys, want, before)|
    ensures Done(keys, want, after) <==> Undone(keys, want, after) == {}
  {
    forall k | k in Undone(keys, want, after) ensures k in Undone(keys, want, before) {
      assert SameAt(after, before, k) || SameAt(after, want, k);
    }
    SubsetIsSmaller(Undone(keys, want, after), Undone(keys, want, before));
    if k :| k in keys && !SameAt(after, want, k) { assert k in Undone(keys, want, after); }
  }

  lemma {:induction false} SubsetIsSmaller(a: set<Key>, b: set<Key>)
    requires a <= b
    ensures |a| <= |b|
  {
    if a != {} {
      var k :| k in a;
      SubsetIsSmaller(a - {k}, b - {k});
    }
  }

  /** One statement on one key: if it fails, at most that key is undone more. */
  lemma OneMoreUndone(want: Cells, before: Cells, after: Cells, keys: set<Key>, key: Key, ok: bool)
    requires Phase(want, before, after, {key}, ok)
    ensures |Undone(keys + {key}, want, after)| <= |Undone(keys, want, before)| + if ok then 0 else 1
  {
    StaysDone(keys, want, before, after);
    var more := Undone(keys, want, after) + if ok then {} else {key};
    assert Undone(keys + {key}, want, after) <= more;
    SubsetIsSmaller(Undone(keys + {key}, want, after), more);
  }

  /** A step toward the expectation that changes anything makes the difference strictly smaller. */
  lemma StepShrinksDiff(want: Cells, before: Cells, after: Cells)
    requires Toward(want, before, after)
    ensures Diff(want, after) <= Diff(want, before)
    ensures before != after ==> Diff(want, after) < Diff(want, before)
    ensures forall k :: SameAt(before, want, k) ==> SameAt(after, want, k)
  {
    forall k | k in Diff(want, after) ensures k in Diff(want, before) {
      assert SameAt(after, before, k) || SameAt(after, want, k);
    }
    forall k | SameAt(before, want, k) ensures SameAt(after, want, k) {
      assert SameAt(after, before, k) || SameAt(after, want, k);
    }
    if Diff(want, after) == Diff(want, before) {
      forall k ensures SameAt(after, before, k) {
        assert k in Diff(want, after) <==> k in Diff(want, before);
        assert SameAt(after, before, k) || SameAt(after, want, k);
      }
      assert after == before by {
        forall k ensures k in after <==> k in before { assert SameAt(after, before, k); }
        forall k | k in after ensures after[k] == before[k] { assert SameAt(after, before, k); }
      }
    }
  }

  lemma TowardTrans(want: Cells, a: Cells, b: Cells, c: Cells)
    requires Toward(want, a, b) && Toward(want, b, c)
    ensures Toward(want, a, c)
    ensures forall keys: set<Key> :: Done(keys, want, b) ==> Done(keys, want, c)
  {
    forall k ensures SameAt(c, a, k) || SameAt(c, want, k) {
      assert SameAt(c, b, k) || SameAt(c, want, k);
      assert SameAt(b, a, k) || SameAt(b, want, k);
    }
    forall keys: set<Key> | Done(keys, want, b) ensures Done(keys, want, c) {
      forall k | k in keys ensures SameAt(c, want, k) {
        assert SameAt(c, b, k) || SameAt(c, want, k);
        assert SameAt(b, want, k);
      }
    }
  }

  // ---------------------------------------------------------------------------------------
  // Statements

  /** UPDATE ... SET variant_value WHERE job_name and variant_name match. */
  function Updated(rows: seq<Row>, r: Row): (rows': seq<Row>)
    ensures |rows'| == |rows|
  {
    seq(|rows|, i requires 0 <= i < |rows| => if rows[i].key == r.key then r else rows[i])
  }

  lemma {:induction false} UpdatedCells(rows: seq<Row>, r: Row)
    ensures UniqueKeys(rows) ==> UniqueKeys(Updated(rows, r))
    ensures AsMap(Updated(rows, r)) == if r.key in AsMap(rows) then AsMap(rows)[r.key := r.value] else AsMap(rows)
  {
    if rows != [] {
      var init := rows[..|rows| - 1];
      UpdatedCells(init, r);
      assert Updated(rows, r)[..|rows| - 1] == Updated(init, r);
    }
  }

  /** DELETE of the rows that `gone` selects. */
  function Without(rows: seq<Row>, gone: Row -> bool): seq<Row> {
    if rows == [] then []
    else
      var rest := Without(rows[..|rows| - 1], gone);
      if gone(rows[|rows| - 1]) then rest else rest + [rows[|rows| - 1]]
  }

  function Kept(m: Cells, gone: Row -> bool): Cells {
    map k | k in m && !gone(Row(k, m[k])) :: m[k]
  }

  lemma KeptStep(m: Cells, r: Row, gone: Row -> bool)
    requires r.key !in m
    ensures Kept(m[r.key := r.value], gone) == if gone(r) then Kept(m, gone) else Kept(m, gone)[r.key := r.value]
  {
    assert r == Row(r.key, r.value);
  }

  lemma {:induction false} WithoutCells(rows: seq<Row>, gone: Row -> bool)
    requires UniqueKeys(rows)
    ensures UniqueKeys(Without(rows, gone)) && AsMap(Without(rows, gone)) == Kept(AsMap(rows), gone)
  {
    if rows != [] {
      var init, last := rows[..|rows| - 1], rows[|rows| - 1];
      WithoutCells(init, gone);
      KeysAreRowKeys(init);
      assert last.key !in AsMap(init);
      KeptStep(AsMap(init), last, gone);
      assert last.key !in AsMap(Without(init, gone));
      AsMapAppend(Without(init, gone), last);
    }
  }

  ghost predicate PartOf(part: Cells, all: Cells) {
    forall k :: k in part ==> k in all && part[k] == all[k]
  }

  lemma KeptIsPart(m: Cells, gone: Row -> bool)
    ensures PartOf(Kept(m, gone), m) && PartOf(m, m)
    ensures Kept(m, gone).Keys <= m.Keys
  {
  }

  /** Adding some of the expected cells at free keys only moves toward the expectation. */
  lemma AddCells(have: Cells, all: Cells, part: Cells, want: Cells)
    requires all.Keys !! have.Keys && Done(all.Keys, want, all) && PartOf(part, all)
    ensures Toward(want, have, have + part) && OnlyAt(all.Keys, have, have + part)
    ensures part == all ==> Done(all.Keys, want, have + part)
  {
    forall k ensures SameAt(have + part, have, k) || (k in all && SameAt(have + part, want, k)) {
      if k in part { assert SameAt(all, want, k); }
    }
  }

  function Is(r: Row): Row -> bool {
    (row: Row) => row == r
  }

  function OfJobs(jobs: seq<string>): Row -> bool {
    (row: Row) => row.key.job in jobs
  }

  /** `strings.ContainsAny`. */
  predicate ContainsAny(s: string, chars: set<char>) {
    exists i :: 0 <= i < |s| && s[i] in chars
  }

  predicate Clean(s: string) {
    ',' !in s && ':' !in s
  }

  /** `verifyVariants`. */
  method VerifyVariants(rows: seq<Row>) returns (ok: bool)
    ensures ok <==> forall i :: 0 <= i < |rows| ==> Clean(rows[i].key.name) && Clean(rows[i].value)
  {
    for i := 0 to |rows|
      invariant forall j :: 0 <= j < i ==> Clean(rows[j].key.name) && Clean(rows[j].value)
    {
      if ContainsAny(rows[i].key.name, InvalidCharacters) { return false; }
      if ContainsAny(rows[i].value, InvalidCharacters) { return false; }
    }
    return true;
  }

  lemma FlatSet(have: Variants, job: string, name: string, value: string)
    ensures Flat(have[job := Current(have, job)[name := value]]) == Flat(have)[Key(job, name) := value]
    ensures Current(have, job)[name := value] != map[]
  {
    var now := have[job := Current(have, job)[name := value]];
    assert name in Current(have, job)[name := value];
    forall k ensures k in Flat(now) <==> k == Key(job, name) || k in Flat(have) {
      hide Flat;
    }
    forall k | k in Flat(now) ensures Flat(now)[k] == Flat(have)[Key(job, name) := value][k] {
      hide Flat;
    }
  }

  class Registry {
    var rows: seq<Row>
    /** How many errors the loader has collected. */
    var errors: nat

    constructor (rows: seq<Row>)
      ensures this.rows == rows && errors == 0
    {
      this.rows, errors := rows, 0;
    }

    /** `loadCurrentJobVariants`: one pass over the query result. */
    method LoadCurrent() returns (have: Variants)
      ensures Flat(have) == AsMap(rows)
      ensures forall j :: j in have ==> have[j] != map[]
    {
      have := map[];
      assert Flat(have) == map[] == AsMap(rows[..0]);
      hide FlatKeys, Flat, AsMap, Current;
      for i := 0 to |rows|
        invariant Flat(have) == AsMap(rows[..i])
        invariant forall j :: j in have ==> have[j] != map[]
      {
        var Row(Key(job, name), value) := rows[i];
        assert rows[..i + 1] == rows[..i] + [rows[i]];
        AsMapAppend(rows[..i], rows[i]);
        FlatSet(have, job, name, value);
        have := have[job := Current(have, job)[name := value]];
      }
      assert rows[..|rows|] == rows;
    }

    /** One streaming insert of a batch; a failed call may have stored some of its rows. */
    method Put(batch: seq<Row>, ghost want: Cells, healthy: bool) returns (ok: bool)
      requires UniqueKeys(rows) && UniqueKeys(batch) && AsMap(batch).Keys !! AsMap(rows).Keys
      requires Done(AsMap(batch).Keys, want, AsMap(batch))
      modifies `rows
      ensures UniqueKeys(rows)
      ensures Toward(want, old(AsMap(rows)), AsMap(rows)) && OnlyAt(AsMap(batch).Keys, old(AsMap(rows)), AsMap(rows))
      ensures ok ==> AsMap(rows) == old(AsMap(rows)) + AsMap(batch) && Done(AsMap(batch).Keys, want, AsMap(rows))
      ensures healthy ==> ok
    {
      var answers: bool, lost: Row -> bool := *, *;
      ok := healthy || answers;
      var part := if ok then batch else Without(batch, lost);
      WithoutCells(batch, lost);
      AsMapConcat(rows, part);
      hide AsMap, UniqueKeys, Done, Toward, OnlyAt, Without, Kept;
      KeptIsPart(AsMap(batch), lost);
      AddCells(AsMap(rows), AsMap(batch), AsMap(part), want);
      rows := rows + part;
    }

    /** `bulkInsertVariants`: batches of 500, stopping at the first that fails. */
    method BulkInsert(inserts: seq<Row>, ghost want: Cells, healthy: bool) returns (ok: bool)
      requires UniqueKeys(rows) && UniqueKeys(inserts) && AsMap(inserts).Keys !! AsMap(rows).Keys
      requires Done(AsMap(inserts).Keys, want, AsMap(inserts))
      modifies `rows
      ensures UniqueKeys(rows)
      ensures Toward(want, old(AsMap(rows)), AsMap(rows)) && OnlyAt(AsMap(inserts).Keys, old(AsMap(rows)), AsMap(rows))
      ensures ok ==> Done(AsMap(inserts).Keys, want, AsMap(rows))
      ensures healthy ==> ok
    {
      var batchSize := 500;
      ghost var start, all := AsMap(rows), AsMap(inserts).Keys;
      assert inserts[0..] == inserts;
      InsertingStarts(want, rows, inserts);
      hide AsMap, UniqueKeys, Toward, OnlyAt, Done, Inserting;
      ok := true;
      var i := 0;
      while i < |inserts|
        invariant i <= |inserts| && ok && UniqueKeys(rows)
        invariant Inserting(want, start, AsMap(rows), inserts[i..], all)
      {
        var end := if i + batchSize > |inserts| then |inserts| else i + batchSize;
        BatchIsUnique(want, start, AsMap(rows), inserts[i..], all);
        SplitBatch(inserts, i, end);
        ghost var before := AsMap(rows);
        StartBatch(want, start, before, inserts[i..], all, inserts[i..end], inserts[end..]);
        ok := Put(inserts[i..end], want, healthy);
        AfterBatch(want, start, before, AsMap(rows), inserts[i..], all, inserts[i..end], inserts[end..]);
        if !ok { return; }
        i := end;
      }
      NoneLeft(want, start, AsMap(rows), inserts[i..], all);
    }

    /** `updateVariant`. */
    method UpdateVariant(r: Row, healthy: bool) returns (ok: bool)
      requires UniqueKeys(rows)
      modifies `rows
      ensures UniqueKeys(rows)
      ensures AsMap(rows) ==
              (if r.key in old(AsMap(rows)) then old(AsMap(rows))[r.key := r.value] else old(AsMap(rows))) ||
              (!ok && rows == old(rows))
      ensures healthy ==> ok
    {
      var applied: bool, answers: bool := *, *;
      UpdatedCells(rows, r);
      if healthy || applied { rows := Updated(rows, r); }
      ok := healthy || (applied && answers);
    }

    /** `deleteVariant`: the statement names job, variant and value. */
    method DeleteVariant(r: Row, healthy: bool) returns (ok: bool)
      requires UniqueKeys(rows)
      modifies `rows
      ensures UniqueKeys(rows)
      ensures AsMap(rows) == Kept(old(AsMap(rows)), Is(r)) || (!ok && rows == old(rows))
      ensures healthy ==> ok
    {
      var applied: bool, answers: bool := *, *;
      WithoutCells(rows, Is(r));
      if healthy || applied { rows := Without(rows, Is(r)); }
      ok := healthy || (applied && answers);
    }

    /** `deleteJobsBatch`. */
    method DeleteJobsBatch(jobs: seq<string>, healthy: bool) returns (ok: bool)
      requires UniqueKeys(rows)
      modifies `rows
      ensures UniqueKeys(rows)
      ensures AsMap(rows) == Kept(old(AsMap(rows)), OfJobs(jobs)) || (!ok && rows == old(rows))
      ensures healthy ==> ok
    {
      var applied: bool, answers: bool := *, *;
      WithoutCells(rows, OfJobs(jobs));
      if healthy || applied { rows := Without(rows, OfJobs(jobs)); }
      ok := healthy || (applied && answers);
    }

    /** The update loop of `Load`. */
    method UpdateAll(updates: seq<Row>, ghost want: Cells, healthy: bool)
      requires UniqueKeys(rows) && AsMap(updates).Keys <= AsMap(rows).Keys
      requires forall i :: 0 <= i < |updates| ==> updates[i].key in want && want[updates[i].key] == updates[i].value
      modifies this
      ensures UniqueKeys(rows) && old(errors) <= errors && (healthy ==> errors == old(errors))
      ensures Phase(want, old(AsMap(rows)), AsMap(rows), AsMap(updates).Keys, errors == old(errors))
      ensures |Undone(AsMap(updates).Keys, want, AsMap(rows))| <= errors - old(errors)
    {
      ghost var start := AsMap(rows);
      KeysAreRowKeys(updates);
      KeysOfPrefix(updates, 0);
      PhaseStart(want, start);
      NothingUndone(want, start);
      hide AsMap, UniqueKeys, Phase, Undone;
      for i := 0 to |updates|
        invariant UniqueKeys(rows) && old(errors) <= errors && (healthy ==> errors == old(errors))
        invariant AsMap(rows).Keys == start.Keys
        invariant Phase(want, start, AsMap(rows), AsMap(updates[..i]).Keys, errors == old(errors))
        invariant |Undone(AsMap(updates[..i]).Keys, want, AsMap(rows))| <= errors - old(errors)
      {
        ghost var before := AsMap(rows);
        var ok := UpdateVariant(updates[i], healthy);
        UpdatePhase(want, before, AsMap(rows), updates[i], ok);
        PhaseTrans(want, start, before, AsMap(rows), AsMap(updates[..i]).Keys, {updates[i].key},
                   errors == old(errors), ok);
        KeysOfPrefix(updates, i);
        OneMoreUndone(want, before, AsMap(rows), AsMap(updates[..i]).Keys, updates[i].key, ok);
        if !ok { errors := errors + 1; }
      }
      assert updates[..|updates|] == updates;
    }

    /** The delete loop of `Load`. */
    method DeleteAll(deletes: seq<Row>, ghost want: Cells, healthy: bool)
      requires UniqueKeys(rows) && UniqueKeys(deletes)
      requires forall i :: 0 <= i < |deletes| ==> deletes[i].key !in want && HasCell(AsMap(rows), deletes[i])
      modifies this
      ensures UniqueKeys(rows) && old(errors) <= errors && (healthy ==> errors == old(errors))
      ensures Phase(want, old(AsMap(rows)), AsMap(rows), AsMap(deletes).Keys, errors == old(errors))
      ensures |Undone(AsMap(deletes).Keys, want, AsMap(rows))| <= errors - old(errors)
    {
      ghost var start := AsMap(rows);
      KeysOfPrefix(deletes, 0);
      PhaseStart(want, start);
      NothingUndone(want, start);
      for i := 0 to |deletes|
        invariant UniqueKeys(rows) && old(errors) <= errors && (healthy ==> errors == old(errors))
        invariant forall j :: i <= j < |deletes| ==> HasCell(AsMap(rows), deletes[j])
        invariant Phase(want, start, AsMap(rows), AsMap(deletes[..i]).Keys, errors == old(errors))
        invariant |Undone(AsMap(deletes[..i]).Keys, want, AsMap(rows))| <= errors - old(errors)
      {
        hide AsMap, Phase, Undone;
        ghost var before := AsMap(rows);
        var ok := DeleteVariant(deletes[i], healthy);
        DeletePhase(want, before, AsMap(rows), deletes[i], ok);
        PhaseTrans(want, start, before, AsMap(rows), AsMap(deletes[..i]).Keys, {deletes[i].key},
                   errors == old(errors), ok);
        KeysOfPrefix(deletes, i);
        OneMoreUndone(want, before, AsMap(rows), AsMap(deletes[..i]).Keys, deletes[i].key, ok);
        if !ok { errors := errors + 1; }
      }
      assert deletes[..|deletes|] == deletes;
    }

    /** `deleteJobsInBatches`, stopping at the first batch that fails. */
    method DeleteJobsInBatches(jobs: seq<string>, batchSize: nat, ghost want: Cells, healthy: bool) returns (ok: bool)
      requires batchSize > 0
      requires UniqueKeys(rows) && forall k :: k in want ==> k.job !in jobs
      modifies `rows
      ensures UniqueKeys(rows) && (healthy ==> ok)
      ensures Phase(want, old(AsMap(rows)), AsMap(rows), KeysOfJobs(old(AsMap(rows)), jobs), ok)
    {
      ghost var start := AsMap(rows);
      PhaseStart(want, start);
      assert KeysOfJobs(start, jobs[..0]) == {};
      var numBatches := (|jobs| + batchSize - 1) / batchSize;
      BatchBounds(|jobs|, batchSize, numBatches);
      ok := true;
      var batchNum := 0;
      while batchNum < numBatches
        invariant 0 <= batchNum <= numBatches && ok && UniqueKeys(rows)
        invariant Phase(want, start, AsMap(rows), KeysOfJobs(start, jobs[..Min(batchNum * batchSize, |jobs|)]), true)
      {
        hide AsMap, UniqueKeys, Phase, KeysOfJobs;
        BatchBounds(|jobs|, batchSize, batchNum);
        var first := batchNum * batchSize;
        var end := (batchNum + 1) * batchSize;
        if end > |jobs| { end := |jobs|; }
        var batch := jobs[first..end];
        ghost var before := AsMap(rows);
        var batchOk := DeleteJobsBatch(batch, healthy);
        ok := batchOk;
        JobsPhase(want, start, before, AsMap(rows), jobs, first, end, ok);
        if !ok { return; }
        batchNum := batchNum + 1;
      }
      assert jobs[..Min(numBatches * batchSize, |jobs|)] == jobs;
    }

    /** The four loops of `Load`. */
    method Apply(want: Variants, ghost have: Variants, inserts: seq<Row>, updates: seq<Row>, deletes: seq<Row>,
                 deleteJobs: seq<string>, healthy: bool)
      requires UniqueKeys(rows) && AsMap(rows) == Flat(have)
      requires Compared(want, have, inserts, updates, deletes, deleteJobs)
      modifies this
      ensures UniqueKeys(rows) && old(errors) <= errors && (healthy ==> errors == old(errors))
      ensures Toward(Flat(want), old(AsMap(rows)), AsMap(rows))
      ensures errors == old(errors) ==> AsMap(rows) == Flat(want)
      ensures ErrorsAccount(want, old(AsMap(rows)), AsMap(rows), errors - old(errors))
    {
      ghost var w, start, e0 := Flat(want), AsMap(rows), errors;
      ghost var ins, upd, del, doomed :=
        AsMap(inserts).Keys, AsMap(updates).Keys, AsMap(deletes).Keys, KeysOfJobs(start, deleteJobs);
      PlanFacts(want, have, inserts, updates, deletes, deleteJobs);
      CompareKeys(want, have, inserts, updates, deletes, deleteJobs);
      hide AsMap, UniqueKeys, Phase, Toward, OnlyAt, Done, KeysOfJobs, Flat, FlatKeys, Diff, Compared, HasCell, Undone,
        ToInsert, ToUpdate, ToDelete, ErrorsAccount;

      var ok := BulkInsert(inserts, w, healthy);
      ghost var s1 := AsMap(rows);
      InsertPhase(w, start, s1, ins, ok);
      ghost var inserted := ok;
      if !ok { errors := errors + 1; }
      ghost var e1 := errors;

      UntouchedKeys(w, start, s1, ins, upd, ok);
      UpdateAll(updates, w, healthy);
      ghost var s2, e2 := AsMap(rows), errors;
      PhaseTrans(w, start, s1, s2, ins, upd, e1 == e0, e2 == e1);

      UntouchedCells(w, start, s2, ins + upd, deletes, e2 == e0);
      DeleteAll(deletes, w, healthy);
      ghost var s3, e3 := AsMap(rows), errors;
      PhaseTrans(w, start, s2, s3, ins + upd, del, e2 == e0, e3 == e2);

      UntouchedJobs(w, start, s3, ins + upd + del, deleteJobs, e3 == e0);
      ok := DeleteJobsInBatches(deleteJobs, 500, w, healthy);
      PhaseTrans(w, start, s3, AsMap(rows), ins + upd + del, doomed, e3 == e0, ok);
      if !ok { errors := errors + 1; }
      PhaseEnds(w, start, AsMap(rows), ins + upd + del + doomed, errors == e0);
      AccountFor(want, start, s1, s2, s3, AsMap(rows), e2 - e1, e3 - e2, inserted, ok);
    }

    /** `Load`: compare, verify, then insert, update, delete variants and delete jobs. */
    method Load(want: Variants, healthy: bool)
      requires UniqueKeys(rows)
      modifies this
      ensures UniqueKeys(rows) && old(errors) <= errors
      ensures Toward(Flat(want), old(AsMap(rows)), AsMap(rows))
      ensures errors == old(errors) ==> AsMap(rows) == Flat(want)
      ensures (rows == old(rows) && errors == old(errors) + 1) ||
              ErrorsAccount(want, old(AsMap(rows)), AsMap(rows), errors - old(errors))
      ensures !Loadable(Flat(want), old(AsMap(rows))) ==> rows == old(rows) && errors > old(errors)
      ensures healthy ==> (errors == old(errors) <==> Loadable(Flat(want), old(AsMap(rows))))
    {
      ToSelf(Flat(want), AsMap(rows));
      hide AsMap, UniqueKeys, Flat, FlatKeys, Toward, Loadable, Clean, ErrorsAccount;
      var answers: bool := *;
      if !healthy && !answers {
        errors := errors + 1;
        return;
      }
      var have := LoadCurrent();
      var inserts, updates, deletes, deleteJobs := CompareVariants(want, have);
      VerifiedIsLoadable(Flat(want), AsMap(rows), inserts, updates);
      var verified := VerifyVariants(inserts + updates);
      if !verified {
        errors := errors + 1;
        return;
      }
      Apply(want, have, inserts, updates, deletes, deleteJobs, healthy);
    }

    /**
     Any number of loads with failing statements, then one without: nothing is left to do. If the
     difference cannot be verified, no load changes anything.
     */
    method LoadUntilClean(want: Variants, flakyLoads: nat)
      returns (inserts: seq<Row>, updates: seq<Row>, deletes: seq<Row>, deleteJobs: seq<string>)
      requires UniqueKeys(rows)
      modifies this
      ensures UniqueKeys(rows)
      ensures if old(Loadable(Flat(want), AsMap(rows))) then AsMap(rows) == Flat(want) else rows == old(rows)
      ensures inserts == [] && updates == [] && deletes == [] && deleteJobs == [] <==> AsMap(rows) == Flat(want)
    {
      for n := 0 to flakyLoads
        invariant UniqueKeys(rows)
        invariant if old(Loadable(Flat(want), AsMap(rows))) then Loadable(Flat(want), AsMap(rows))
                  else rows == old(rows)
      {
        ghost var before := AsMap(rows);
        Load(want, false);
        StepShrinksDiff(Flat(want), before, AsMap(rows));
      }
      Load(want, true);
      var have := LoadCurrent();
      inserts, updates, deletes, deleteJobs := CompareVariants(want, have);
      NothingToDo(want, have, inserts, updates, deletes, deleteJobs);
    }
  }

  lemma SplitBatch(inserts: seq<Row>, i: nat, end: nat)
    requires i <= end <= |inserts| && UniqueKeys(inserts[i..])
    ensures UniqueKeys(inserts[i..end]) && UniqueKeys(inserts[end..])
    ensures AsMap(inserts[i..]) == AsMap(inserts[i..end]) + AsMap(inserts[end..])
    ensures AsMap(inserts[i..end]).Keys !! AsMap(inserts[end..]).Keys
  {
    var batch, tail := inserts[i..end], inserts[end..];
    assert inserts[i..] == batch + tail;
    AsMapConcat(batch, tail);
    hide AsMap;
    KeysAreRowKeys(batch);
    KeysAreRowKeys(tail);
  }

  /** Between two batches: `rest` is still to be stored and everything else of `all` is. */
  ghost predicate Inserting(want: Cells, start: Cells, now: Cells, rest: seq<Row>, all: set<Key>) {
    && UniqueKeys(rest)
    && AsMap(rest).Keys <= all
    && AsMap(rest).Keys !! now.Keys
    && Done(AsMap(rest).Keys, want, AsMap(rest))
    && Toward(want, start, now)
    && OnlyAt(all, start, now)
    && Done(all - AsMap(rest).Keys, want, now)
  }

  lemma InsertingStarts(want: Cells, rows: seq<Row>, inserts: seq<Row>)
    requires UniqueKeys(inserts) && AsMap(inserts).Keys !! AsMap(rows).Keys
    requires Done(AsMap(inserts).Keys, want, AsMap(inserts))
    ensures Inserting(want, AsMap(rows), AsMap(rows), inserts, AsMap(inserts).Keys)
  {
    hide AsMap;
  }

  lemma BatchIsUnique(want: Cells, start: Cells, now: Cells, rest: seq<Row>, all: set<Key>)
    requires Inserting(want, start, now, rest, all)
    ensures UniqueKeys(rest)
  {
  }

  lemma StartBatch(want: Cells, start: Cells, now: Cells, rest: seq<Row>, all: set<Key>, batch: seq<Row>,
                   tail: seq<Row>)
    requires Inserting(want, start, now, rest, all)
    requires AsMap(rest) == AsMap(batch) + AsMap(tail) && AsMap(batch).Keys !! AsMap(tail).Keys
    ensures AsMap(batch).Keys !! now.Keys && Done(AsMap(batch).Keys, want, AsMap(batch))
  {
    hide AsMap, UniqueKeys, Toward, OnlyAt;
    forall k | k in AsMap(batch) ensures SameAt(AsMap(batch), want, k) { assert SameAt(AsMap(rest), want, k); }
  }

  lemma AfterBatch(want: Cells, start: Cells, before: Cells, now: Cells, rest: seq<Row>, all: set<Key>,
                   batch: seq<Row>, tail: seq<Row>)
    requires Inserting(want, start, before, rest, all) && UniqueKeys(tail)
    requires AsMap(rest) == AsMap(batch) + AsMap(tail) && AsMap(batch).Keys !! AsMap(tail).Keys
    requires Toward(want, before, now) && OnlyAt(AsMap(batch).Keys, before, now)
    ensures Toward(want, start, now) && OnlyAt(all, start, now)
    ensures Done(AsMap(batch).Keys, want, now) ==> Inserting(want, start, now, tail, all)
  {
    hide AsMap, UniqueKeys;
    TowardTrans(want, start, before, now);
    forall k | k !in all ensures SameAt(now, start, k) { assert SameAt(now, before, k) && SameAt(before, start, k); }
    forall k | k in AsMap(tail) ensures k !in now && SameAt(AsMap(tail), want, k) {
      assert k in AsMap(rest) && SameAt(now, before, k) && SameAt(AsMap(rest), want, k);
    }
    if Done(AsMap(batch).Keys, want, now) {
      forall k | k in all - AsMap(tail).Keys ensures SameAt(now, want, k) {
        if k !in AsMap(batch) {
          assert k in all - AsMap(rest).Keys && SameAt(before, want, k) && SameAt(now, before, k);
        }
      }
    }
  }

  lemma NoneLeft(want: Cells, start: Cells, now: Cells, rest: seq<Row>, all: set<Key>)
    requires Inserting(want, start, now, rest, all) && rest == []
    ensures Toward(want, start, now) && OnlyAt(all, start, now) && Done(all, want, now)
  {
    assert all - AsMap(rest).Keys == all;
  }

  // ---------------------------------------------------------------------------------------
  // One loop of Load as a step toward the expectation

  /** Only `keys` changed, each toward the expectation, and if nothing failed they are all done. */
  ghost predicate Phase(want: Cells, before: Cells, after: Cells, keys: set<Key>, clean: bool) {
    Toward(want, before, after) && OnlyAt(keys, before, after) && (clean ==> Done(keys, want, after))
  }

  lemma NothingUndone(want: Cells, have: Cells)
    ensures Undone({}, want, have) == {}
  {
  }

  lemma PhaseStart(want: Cells, start: Cells)
    ensures Phase(want, start, start, {}, true)
  {
  }

  lemma PhaseTrans(want: Cells, a: Cells, b: Cells, c: Cells, k1: set<Key>, k2: set<Key>, clean1: bool, clean2: bool)
    requires Phase(want, a, b, k1, clean1) && Phase(want, b, c, k2, clean2)
    ensures Phase(want, a, c, k1 + k2, clean1 && clean2)
  {
    TowardTrans(want, a, b, c);
    forall k | k !in k1 + k2 ensures SameAt(c, a, k) { assert SameAt(c, b, k) && SameAt(b, a, k); }
  }

  lemma KeysOfPrefix(rows: seq<Row>, i: nat)
    ensures AsMap(rows[..0]).Keys == {}
    ensures i < |rows| ==> AsMap(rows[..i + 1]).Keys == AsMap(rows[..i]).Keys + {rows[i].key}
  {
    if i < |rows| {
      assert rows[..i + 1] == rows[..i] + [rows[i]];
      AsMapAppend(rows[..i], rows[i]);
    }
  }

  lemma UpdatePhase(want: Cells, before: Cells, after: Cells, r: Row, ok: bool)
    requires r.key in before && r.key in want && want[r.key] == r.value
    requires after == before[r.key := r.value] || (!ok && after == before)
    ensures Phase(want, before, after, {r.key}, ok) && after.Keys == before.Keys
  {
  }

  ghost predicate HasCell(m: Cells, r: Row) {
    r.key in m && m[r.key] == r.value
  }

  lemma DeletePhase(want: Cells, before: Cells, after: Cells, r: Row, ok: bool)
    requires HasCell(before, r) && r.key !in want
    requires after == Kept(before, Is(r)) || (!ok && after == before)
    ensures Phase(want, before, after, {r.key}, ok)
    ensures forall other: Row :: other.key != r.key && HasCell(before, other) ==> HasCell(after, other)
  {
  }

  function KeysOfJobs(m: Cells, jobs: seq<string>): set<Key> {
    set k | k in m && k.job in jobs
  }

  lemma BatchBounds(n: nat, size: nat, batch: nat)
    requires size > 0
    ensures batch < (n + size - 1) / size ==> batch * size < n
    ensures batch == (n + size - 1) / size ==> batch * size >= n
  {
    var d := (n + size - 1) / size;
    assert d * size <= n + size - 1 < d * size + size;
    if batch < d {
      assert (batch + 1) * size <= d * size by { MulMonotone(batch + 1, d, size); }
      assert batch * size + size <= n + size - 1;
    }
  }

  lemma MulMonotone(a: nat, b: nat, c: nat)
    requires a <= b
    ensures a * c <= b * c
  {
  }

  lemma JobsPhase(want: Cells, start: Cells, before: Cells, after: Cells, jobs: seq<string>, first: nat, end: nat,
                  ok: bool)
    requires first <= end <= |jobs| && forall k :: k in want ==> k.job !in jobs
    requires Phase(want, start, before, KeysOfJobs(start, jobs[..first]), true)
    requires after == Kept(before, OfJobs(jobs[first..end])) || (!ok && after == before)
    ensures Phase(want, start, after, KeysOfJobs(start, jobs[..end]), ok)
    ensures Phase(want, start, after, KeysOfJobs(start, jobs), false)
  {
    assert jobs[..end] == jobs[..first] + jobs[first..end];
    var gone := set k | k in before && k.job in jobs[first..end];
    forall k ensures SameAt(after, before, k) || (k in gone && SameAt(after, want, k)) {}
    TowardTrans(want, start, before, after);
    forall k | k !in KeysOfJobs(start, jobs[..end]) ensures SameAt(after, start, k) {
      assert SameAt(before, start, k);
    }
    if ok {
      forall k | k in KeysOfJobs(start, jobs[..end]) ensures SameAt(after, want, k) {
        if k.job in jobs[..first] { assert SameAt(before, want, k); }
      }
    }
    forall k | k !in KeysOfJobs(start, jobs) ensures k !in KeysOfJobs(start, jobs[..end]) {}
  }

  lemma InsertPhase(want: Cells, before: Cells, after: Cells, keys: set<Key>, ok: bool)
    requires Toward(want, before, after) && OnlyAt(keys, before, after) && (ok ==> Done(keys, want, after))
    ensures Phase(want, before, after, keys, ok)
  {
  }

  lemma UntouchedKeys(want: Cells, start: Cells, now: Cells, keys: set<Key>, others: set<Key>, clean: bool)
    requires Phase(want, start, now, keys, clean) && others <= start.Keys && keys !! others
    ensures others <= now.Keys
  {
    forall k | k in others ensures k in now { assert SameAt(now, start, k); }
  }

  lemma UntouchedCells(want: Cells, start: Cells, now: Cells, keys: set<Key>, others: seq<Row>, clean: bool)
    requires Phase(want, start, now, keys, clean) && keys !! AsMap(others).Keys
    requires forall i :: 0 <= i < |others| ==> HasCell(start, others[i])
    ensures forall i :: 0 <= i < |others| ==> HasCell(now, others[i])
  {
    KeysAreRowKeys(others);
    hide AsMap;
    forall i | 0 <= i < |others| ensures HasCell(now, others[i]) {
      assert others[i].key in AsMap(others);
      assert SameAt(now, start, others[i].key);
    }
  }

  lemma UntouchedJobs(want: Cells, start: Cells, now: Cells, keys: set<Key>, jobs: seq<string>, clean: bool)
    requires Phase(want, start, now, keys, clean) && forall k :: k in keys ==> k.job !in jobs
    ensures KeysOfJobs(now, jobs) == KeysOfJobs(start, jobs)
  {
    forall k: Key | k.job in jobs ensures k in now <==> k in start { assert SameAt(now, start, k); }
  }

  lemma PhaseEnds(want: Cells, start: Cells, now: Cells, keys: set<Key>, clean: bool)
    requires Phase(want, start, now, keys, clean) && Diff(want, start) == keys
    ensures Toward(want, start, now) && (clean ==> now == want)
  {
    if clean {
      forall k ensures SameAt(now, want, k) {
        if k in keys { assert SameAt(now, want, k); } else { assert SameAt(now, start, k); }
      }
      assert now.Keys == want.Keys by {
        forall k ensures k in now <==> k in want { assert SameAt(now, want, k); }
      }
      forall k | k in now ensures now[k] == want[k] { assert SameAt(now, want, k); }
    }
  }

  lemma RowsAreCells(rows: seq<Row>)
    requires UniqueKeys(rows)
    ensures forall i :: 0 <= i < |rows| ==> HasCell(AsMap(rows), rows[i])
  {
    forall i | 0 <= i < |rows| ensures HasCell(AsMap(rows), rows[i]) { CellsAreRows(rows, rows[i]); }
  }

  lemma PlanFacts(want: Variants, have: Variants, inserts: seq<Row>, updates: seq<Row>, deletes: seq<Row>,
                  deleteJobs: seq<string>)
    requires Compared(want, have, inserts, updates, deletes, deleteJobs)
    ensures var w, h := Flat(want), Flat(have);
            var ins, upd, del := AsMap(inserts).Keys, AsMap(updates).Keys, AsMap(deletes).Keys;
            && UniqueKeys(inserts) && UniqueKeys(deletes)
            && ins !! h.Keys && Done(ins, w, AsMap(inserts))
            && upd <= h.Keys &&
               (forall i :: 0 <= i < |updates| ==> updates[i].key in w && w[updates[i].key] == updates[i].value)
            && (forall i :: 0 <= i < |deletes| ==> deletes[i].key !in w && HasCell(h, deletes[i]))
            && (forall k :: k in w ==> k.job !in deleteJobs)
            && (forall k :: k in ins + upd + del ==> k.job !in deleteJobs)
            && ins !! upd !! del
            && Diff(w, h) == ins + upd + del + KeysOfJobs(h, deleteJobs)
  {
    UpdatesAreWanted(Flat(want), Flat(have), updates);
    DeletesArePresent(want, have, deletes);
    PlanKeys(want, have, deleteJobs);
    hide AsMap, UniqueKeys, FlatKeys, Flat, Diff, HasCell, ToInsert, ToUpdate, ToDelete, KeysOfJobs, Done;
  }

  lemma PlanKeys(want: Variants, have: Variants, deleteJobs: seq<string>)
    requires forall j :: j in deleteJobs <==> j in have && j !in want
    ensures var w, h := Flat(want), Flat(have);
            var ins, upd, del := ToInsert(w, h).Keys, ToUpdate(w, h).Keys, ToDelete(want, h).Keys;
            && ins !! h.Keys && Done(ins, w, ToInsert(w, h)) && upd <= h.Keys
            && (forall k :: k in w ==> k.job !in deleteJobs)
            && (forall k :: k in ins + upd + del ==> k.job !in deleteJobs)
            && ins !! upd !! del
            && Diff(w, h) == ins + upd + del + KeysOfJobs(h, deleteJobs)
  {
    FourWaysToDiffer(want, have);
    hide Diff;
    var h := Flat(have);
    assert KeysOfJobs(h, deleteJobs) == set k | k in h && k.job !in want;
  }

  lemma UpdatesAreWanted(want: Cells, have: Cells, updates: seq<Row>)
    requires UniqueKeys(updates) && AsMap(updates) == ToUpdate(want, have)
    ensures forall i :: 0 <= i < |updates| ==> updates[i].key in want && want[updates[i].key] == updates[i].value
  {
    RowsAreCells(updates);
    hide AsMap, UniqueKeys;
    forall i | 0 <= i < |updates| ensures updates[i].key in want && want[updates[i].key] == updates[i].value {
      assert HasCell(AsMap(updates), updates[i]);
    }
  }

  lemma DeletesArePresent(want: Variants, have: Variants, deletes: seq<Row>)
    requires UniqueKeys(deletes) && AsMap(deletes) == ToDelete(want, Flat(have))
    ensures forall i :: 0 <= i < |deletes| ==> deletes[i].key !in Flat(want) && HasCell(Flat(have), deletes[i])
  {
    RowsAreCells(deletes);
    hide AsMap, UniqueKeys;
    forall i | 0 <= i < |deletes| ensures deletes[i].key !in Flat(want) && HasCell(Flat(have), deletes[i]) {
      assert HasCell(AsMap(deletes), deletes[i]);
    }
  }

  function OfUnwantedJobs(want: Variants, have: Cells): set<Key> {
    set k | k in have && k.job !in want
  }

  /**
   Every error stands for one statement that failed: an update or a delete leaves its own cell, the insert and the
   deletion of jobs any of theirs. No statement is left out because another failed.
   */
  ghost predicate ErrorsAccount(want: Variants, before: Cells, after: Cells, failed: int) {
    var w := Flat(want);
    var inserts := Undone(ToInsert(w, before).Keys, w, after);
    var jobs := Undone(OfUnwantedJobs(want, before), w, after);
    |Undone(ToUpdate(w, before).Keys, w, after)| + |Undone(ToDelete(want, before).Keys, w, after)| +
      (if inserts == {} then 0 else 1) + (if jobs == {} then 0 else 1) <= failed
  }

  /** The four lists and the loops' keys are the four parts of the difference. */
  lemma CompareKeys(want: Variants, have: Variants, inserts: seq<Row>, updates: seq<Row>, deletes: seq<Row>,
                    deleteJobs: seq<string>)
    requires Compared(want, have, inserts, updates, deletes, deleteJobs)
    ensures var w, h := Flat(want), Flat(have);
            && AsMap(inserts).Keys == ToInsert(w, h).Keys && AsMap(updates).Keys == ToUpdate(w, h).Keys
            && AsMap(deletes).Keys == ToDelete(want, h).Keys
            && KeysOfJobs(h, deleteJobs) == OfUnwantedJobs(want, h)
  {
    hide AsMap, UniqueKeys, Flat, ToInsert, ToUpdate, ToDelete;
  }

  lemma AccountFor(want: Variants, start: Cells, s1: Cells, s2: Cells, s3: Cells, end: Cells, updateErrors: int,
                   deleteErrors: int, inserted: bool, jobsDeleted: bool)
    requires var w := Flat(want);
             var doomed := OfUnwantedJobs(want, start);
             && Toward(w, s1, s2) && Toward(w, s2, s3) && Toward(w, s3, end)
             && (inserted ==> Done(ToInsert(w, start).Keys, w, s1))
             && |Undone(ToUpdate(w, start).Keys, w, s2)| <= updateErrors
             && |Undone(ToDelete(want, start).Keys, w, s3)| <= deleteErrors
             && (jobsDeleted ==> Done(doomed, w, end))
    ensures ErrorsAccount(want, start, end, updateErrors + deleteErrors + (if inserted then 0 else 1) +
                                            (if jobsDeleted then 0 else 1))
  {
    var w := Flat(want);
    var ins, upd := ToInsert(w, start).Keys, ToUpdate(w, start).Keys;
    var del, doomed := ToDelete(want, start).Keys, OfUnwantedJobs(want, start);
    TowardTrans(w, s1, s2, s3);
    TowardTrans(w, s1, s3, end);
    TowardTrans(w, s2, s3, end);
    StaysDone(ins, w, s1, s1);
    StaysDone(ins, w, s1, end);
    StaysDone(upd, w, s2, end);
    StaysDone(del, w, s3, end);
    StaysDone(doomed, w, s3, end);
    hide Toward, Done, Undone, ToInsert, ToUpdate, ToDelete, Flat;
  }

  lemma ToSelf(want: Cells, have: Cells)
    ensures Toward(want, have, have)
  {
  }

  /** No character that `verifyVariants` refuses in what has to be inserted or updated. */
  ghost predicate Loadable(want: Cells, have: Cells) {
    forall k :: k in want && k in Diff(want, have) ==> Clean(k.name) && Clean(want[k])
  }

  lemma VerifiedIsLoadable(want: Cells, have: Cells, inserts: seq<Row>, updates: seq<Row>)
    requires UniqueKeys(inserts) && AsMap(inserts) == ToInsert(want, have)
    requires UniqueKeys(updates) && AsMap(updates) == ToUpdate(want, have)
    ensures Loadable(want, have) <==>
            forall i :: 0 <= i < |inserts + updates| ==>
              Clean((inserts + updates)[i].key.name) && Clean((inserts + updates)[i].value)
  {
    var all := inserts + updates;
    RowsAreCells(inserts);
    RowsAreCells(updates);
    KeysAreRowKeys(inserts);
    KeysAreRowKeys(updates);
    hide AsMap, UniqueKeys, Clean;
    forall i | 0 <= i < |all|
      ensures all[i].key in want && all[i].key in Diff(want, have) && want[all[i].key] == all[i].value {
      if i < |inserts| {
        assert HasCell(AsMap(inserts), inserts[i]);
      } else {
        assert HasCell(AsMap(updates), updates[i - |inserts|]);
      }
    }
    forall k | k in want && k in Diff(want, have)
      ensures exists i :: 0 <= i < |all| && all[i].key == k && all[i].value == want[k] {
      if k in AsMap(inserts) {
        var i :| 0 <= i < |inserts| && inserts[i].key == k;
        assert HasCell(AsMap(inserts), inserts[i]) && all[i] == inserts[i];
      } else {
        assert k in AsMap(updates);
        var i :| 0 <= i < |updates| && updates[i].key == k;
        assert HasCell(AsMap(updates), updates[i]) && all[|inserts| + i] == updates[i];
      }
    }
  }

  lemma NothingToDo(want: Variants, have: Variants, inserts: seq<Row>, updates: seq<Row>, deletes: seq<Row>,
                    deleteJobs: seq<string>)
    requires Compared(want, have, inserts, updates, deletes, deleteJobs)
    requires forall j :: j in have ==> have[j] != map[]
    ensures Flat(want) == Flat(have) <==> inserts == [] && updates == [] && deletes == [] && deleteJobs == []
  {
    var w, h := Flat(want), Flat(have);
    FourWaysToDiffer(want, have);
    DiffEmptyIsEqual(w, h);
    EmptyLists(inserts);
    EmptyLists(updates);
    EmptyLists(deletes);
    NoJobsToDelete(want, have, deleteJobs);
  }

  /** With a variant in every job, there are jobs to delete exactly when there are cells of unwanted jobs. */
  lemma NoJobsToDelete(want: Variants, have: Variants, deleteJobs: seq<string>)
    requires forall j :: j in deleteJobs <==> j in have && j !in want
    requires forall j :: j in have ==> have[j] != map[]
    ensures deleteJobs == [] <==> forall k :: k in Flat(have) ==> k.job in want
  {
    if deleteJobs != [] {
      var j := deleteJobs[0];
      assert j in deleteJobs;
      var n :| n in have[j];
      assert Key(j, n) in Flat(have);
    } else {
      forall k | k in Flat(have) ensures k.job in want { assert k.job !in deleteJobs; }
    }
  }

  lemma EmptyLists(rows: seq<Row>)
    ensures rows == [] <==> AsMap(rows).Keys == {}
  {
    KeysAreRowKeys(rows);
    if rows != [] { assert rows[0].key in AsMap(rows); }
  }
}
