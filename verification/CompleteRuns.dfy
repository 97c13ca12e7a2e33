/** Exactly when a run stores all its rows, whatever the database held before. */
module CompleteRuns {
  import opened Schema
  import opened Store

  /** The run came to its end, and every row is stored exactly as given. */
  ghost predicate Complete(r: Run, items: seq<Item>) {
    r.ok && Holds(r.db, items, |items|)
  }

  /** The stored rows that share an id or a key with a row to be saved. */
  function Replaced(db: Database, items: seq<Item>): set<RowId> {
    set y | y in db && exists k | 0 <= k < |items| :: y in Conflicts(db, items[k].rid, items[k].row)
  }

  /** The stored rows that no replacement deletes, neither itself nor by a cascade. */
  function Kept(db: Database, items: seq<Item>): (r: set<RowId>)
    ensures r <= db.Keys
  {
    db.Keys - Closure(db, Replaced(db, items))
  }

  /** A foreign key of row `k` refers to a row saved no later, or to one that is kept. */
  ghost predicate RefSupported(db: Database, items: seq<Item>, k: nat, c: Column)
    requires k < |items| && c in items[k].row.refs
  {
    || (exists i :: 0 <= i <= k && Points(c, items[k].row.refs[c], items[i].rid, items[i].row))
    || (exists y :: y in Kept(db, items) && Points(c, items[k].row.refs[c], y, db[y]))
  }

  ghost predicate Supported(db: Database, items: seq<Item>) {
    forall k, c | 0 <= k < |items| && c in items[k].row.refs :: RefSupported(db, items, k, c)
  }

  // ---- Supported rows are all stored ----

  lemma KeptCascadesInside(db: Database, items: seq<Item>)
    requires Integrity(db)
    ensures CascadesInside(db, Kept(db, items))
  {
    var gone := Closure(db, Replaced(db, items));
    forall x, c | x in Kept(db, items) && c in db[x].refs && Action(c).Cascade?
      ensures exists y :: y in Kept(db, items) && Points(c, db[x].refs[c], y, db[y])
    {
      var y :| y in db && Points(c, db[x].refs[c], y, db[y]);
      assert y in gone ==> x in Dependents(db, gone);
    }
  }

  /** The kept rows are still there, with the same keys and no other CASCADE references. */
  ghost predicate KeptOn(db: Database, now: Database, items: seq<Item>) {
    forall y | y in Kept(db, items) ::
      && y in now && now[y].key == db[y].key
      && forall c | c in now[y].refs && Action(c).Cascade? :: c in db[y].refs && now[y].refs[c] == db[y].refs[c]
  }

  /** A run that has saved the first `k` rows, and lost none of them and no kept row. */
  ghost predicate Stands(db: Database, r: Run, items: seq<Item>, k: nat)
    requires k <= |items|
  {
    r.ok && Integrity(r.db) && Holds(r.db, items, k) && KeptOn(db, r.db, items)
  }

  function Safe(db: Database, items: seq<Item>, k: nat): set<RowId>
    requires k <= |items|
  {
    Kept(db, items) + Ids(items, 0, k)
  }

  /** What the first rows refer to is safe. */
  lemma SavedTargets(db: Database, now: Database, items: seq<Item>, k: nat, j: nat, c: Column)
    requires j < k <= |items| && c in items[j].row.refs
    requires Supported(db, items) && Holds(now, items, k) && KeptOn(db, now, items)
    ensures exists y :: y in Safe(db, items, k) && y in now && Points(c, items[j].row.refs[c], y, now[y])
  {
    var v := items[j].row.refs[c];
    assert RefSupported(db, items, j, c);
    if i :| 0 <= i <= j && Points(c, v, items[i].rid, items[i].row) {
      assert items[i].rid in Ids(items, 0, k);
    } else {
      var y :| y in Kept(db, items) && Points(c, v, y, db[y]);
      assert y in now && Points(c, v, y, now[y]);
    }
  }

  lemma SafeCascadesInside(db: Database, now: Database, items: seq<Item>, k: nat)
    requires Integrity(db) && Supported(db, items) && k <= |items| && Holds(now, items, k) && KeptOn(db, now, items)
    ensures CascadesInside(now, Safe(db, items, k))
  {
    KeptCascadesInside(db, items);
    forall x, c | x in Safe(db, items, k) && c in now[x].refs && Action(c).Cascade?
      ensures exists y :: y in Safe(db, items, k) && Points(c, now[x].refs[c], y, now[y])
    {
      if x in Ids(items, 0, k) {
        var j :| 0 <= j < k && items[j].rid == x;
        SavedTargets(db, now, items, k, j, c);
      } else {
        var y :| y in Kept(db, items) && Points(c, db[x].refs[c], y, db[y]);
        assert y in now && Points(c, now[x].refs[c], y, now[y]);
      }
    }
  }

  lemma KeptIsNotReplaced(db: Database, items: seq<Item>, k: nat, y: RowId)
    requires k < |items| && y in Kept(db, items)
    ensures y !in Conflicts(db, items[k].rid, items[k].row)
  {
    assert Replaced(db, items) <= Closure(db, Replaced(db, items));
    assert y !in Replaced(db, items);
  }

  lemma NextSparesSafe(db: Database, now: Database, items: seq<Item>, k: nat, it: Item)
    requires Distinct(items) && k < |items| && it == items[k] && Holds(now, items, k) && KeptOn(db, now, items)
    ensures Conflicts(now, it.rid, it.row) !! Safe(db, items, k)
  {
    forall y | y in Safe(db, items, k)
      ensures y !in Conflicts(now, it.rid, it.row)
    {
      if y in Kept(db, items) {
        KeptIsNotReplaced(db, items, k, y);
      } else {
        var j :| 0 <= j < k && items[j].rid == y;
        assert now[y] == items[j].row;
      }
    }
  }

  lemma NextKeepsOn(db: Database, now: Database, rest: Database, items: seq<Item>, it: Item)
    requires KeptOn(db, now, items) && Conflicts(now, it.rid, it.row) !! Kept(db, items)
    requires rest == Without(now, Conflicts(now, it.rid, it.row)) && Kept(db, items) <= rest.Keys
    ensures KeptOn(db, rest[it.rid := it.row], items)
  {
    ReplaceOnlyRemoves(now, it.rid, it.row);
    forall y | y in Kept(db, items)
      ensures y != it.rid
    {
      assert y in now && (y == it.rid ==> y in Conflicts(now, it.rid, it.row));
    }
  }

  lemma NextHolds(db: Database, now: Database, rest: Database, items: seq<Item>, m: nat, it: Item)
    requires Integrity(db) && Integrity(now) && Distinct(items) && Supported(db, items)
    requires m < |items| && it == items[m] && Holds(now, items, m) && KeptOn(db, now, items)
    requires rest == Without(now, Conflicts(now, it.rid, it.row))
    ensures Safe(db, items, m) <= rest.Keys && Holds(rest, items, m)
  {
    var safe := Safe(db, items, m);
    SafeCascadesInside(db, now, items, m);
    NextSparesSafe(db, now, items, m, it);
    ReplaceKeeps(now, it.rid, it.row, safe);
    forall j | 0 <= j < m
      ensures items[j].rid in rest && rest[items[j].rid] == items[j].row
    {
      var x := items[j].rid;
      assert x in Ids(items, 0, m);
      forall c | c in now[x].refs
        ensures exists y :: y in safe && Points(c, now[x].refs[c], y, now[y])
      {
        SavedTargets(db, now, items, m, j, c);
      }
    }
  }

  lemma HoldsOneMore(rest: Database, items: seq<Item>, k: nat, it: Item)
    requires Distinct(items) && 0 < k <= |items| && it == items[k - 1] && Holds(rest, items, k - 1)
    ensures Holds(rest[it.rid := it.row], items, k)
  {
  }

  lemma NextResolves(db: Database, after: Database, items: seq<Item>, k: nat, it: Item)
    requires Supported(db, items) && 0 < k <= |items| && it == items[k - 1]
    requires Holds(after, items, k) && KeptOn(db, after, items)
    ensures forall c | c in it.row.refs :: Resolves(after, c, it.row.refs[c])
  {
    forall c | c in it.row.refs
      ensures Resolves(after, c, it.row.refs[c])
    {
      SavedTargets(db, after, items, k, k - 1, c);
    }
  }

  /** Row `k` (counted from 1) is accepted, and costs no row saved before it. */
  lemma NextStands(db: Database, r: Run, items: seq<Item>, k: nat, it: Item)
    requires Integrity(db) && Distinct(items) && AllShaped(items) && Supported(db, items)
    requires 0 < k <= |items| && it == items[k - 1] && Stands(db, r, items, k - 1)
    ensures Stands(db, r.Then(it), items, k)
  {
    var rest := Without(r.db, Conflicts(r.db, it.rid, it.row));
    NextHolds(db, r.db, rest, items, k - 1, it);
    NextSparesSafe(db, r.db, items, k - 1, it);
    HoldsOneMore(rest, items, k, it);
    NextKeepsOn(db, r.db, rest, items, it);
    NextResolves(db, rest[it.rid := it.row], items, k, it);
    ReplaceKeepsIntegrity(r.db, it.rid, it.row);
  }

  lemma {:induction false} SupportedStands(db: Database, items: seq<Item>, k: nat)
    requires Integrity(db) && Distinct(items) && AllShaped(items) && Supported(db, items) && k <= |items|
    ensures Stands(db, SaveRange(db, items, 0, k), items, k)
  {
    if k > 0 {
      SupportedStands(db, items, k - 1);
      NextStands(db, SaveRange(db, items, 0, k - 1), items, k, items[k - 1]);
    }
  }

  // ---- And no others are ----

  /** Every row but the first `k` is an old one, with its key and its CASCADE references. */
  ghost predicate OthersOld(db: Database, now: Database, items: seq<Item>, k: nat)
    requires k <= |items|
  {
    forall x | x in now && x !in Ids(items, 0, k) ::
      && x in db && now[x].key == db[x].key
      && forall c | c in db[x].refs && Action(c).Cascade? :: c in now[x].refs && now[x].refs[c] == db[x].refs[c]
  }

  /** If this reference of row `x` is to row `i`, then `x` was saved no earlier. */
  ghost predicate RefersLate(row: Row, c: Column, items: seq<Item>, i: nat, k: nat, x: RowId)
    requires i < k <= |items| && c in row.refs
  {
    Points(c, row.refs[c], items[i].rid, items[i].row) ==> x in Ids(items, i, k)
  }

  /** Only rows saved no earlier refer to one of the first `k` rows. */
  ghost predicate LateReferrers(now: Database, items: seq<Item>, k: nat)
    requires k <= |items|
  {
    forall x, c, i | x in now && c in now[x].refs && 0 <= i < k :: RefersLate(now[x], c, items, i, k, x)
  }

  /** What `k` saves have made of the database. */
  ghost predicate Traced(db: Database, now: Database, items: seq<Item>, k: nat)
    requires k <= |items|
  {
    Integrity(now) && OthersOld(db, now, items, k) && LateReferrers(now, items, k)
  }

  lemma NextOthers(db: Database, now: Database, items: seq<Item>, k: nat, it: Item)
    requires 0 < k <= |items| && it == items[k - 1] && OthersOld(db, now, items, k - 1)
    ensures OthersOld(db, Without(now, Conflicts(now, it.rid, it.row))[it.rid := it.row], items, k)
  {
    ReplaceOnlyRemoves(now, it.rid, it.row);
    assert it.rid in Ids(items, 0, k) && Ids(items, 0, k - 1) <= Ids(items, 0, k);
  }

  lemma OldReferrer(now: Database, rest: Database, items: seq<Item>, k: nat, m: nat, it: Item, x: RowId, c: Column, i: nat)
    requires Integrity(now) && k == m + 1 <= |items| && it == items[m] && LateReferrers(now, items, m)
    requires rest == Without(now, Conflicts(now, it.rid, it.row)) && x in rest && c in rest[x].refs && i < k
    ensures RefersLate(rest[x], c, items, i, k, x)
  {
    ReplaceOnlyRemoves(now, it.rid, it.row);
    if i == m {
      NothingRefersToRemoved(now, it.rid, it.row, x, c);
    } else {
      assert RefersLate(now[x], c, items, i, m, x);
      assert Ids(items, i, m) <= Ids(items, i, k);
    }
  }

  lemma NextReferrers(now: Database, items: seq<Item>, k: nat, m: nat, it: Item)
    requires Integrity(now) && k == m + 1 <= |items| && it == items[m] && LateReferrers(now, items, m)
    ensures LateReferrers(Without(now, Conflicts(now, it.rid, it.row))[it.rid := it.row], items, k)
  {
    var rest := Without(now, Conflicts(now, it.rid, it.row));
    var after := rest[it.rid := it.row];
    forall x, c, i | x in after && c in after[x].refs && 0 <= i < k
      ensures RefersLate(after[x], c, items, i, k, x)
    {
      if x == it.rid {
        assert items[m].rid in Ids(items, i, k);
      } else {
        OldReferrer(now, rest, items, k, m, it, x, c, i);
      }
    }
  }

  lemma NextTraced(db: Database, now: Database, items: seq<Item>, k: nat, it: Item)
    requires AllShaped(items) && 0 < k <= |items| && it == items[k - 1] && Traced(db, now, items, k - 1)
    requires InsertOrReplace(now, it.rid, it.row).Committed?
    ensures Traced(db, InsertOrReplace(now, it.rid, it.row).db, items, k)
  {
    ReplaceKeepsIntegrity(now, it.rid, it.row);
    NextOthers(db, now, items, k, it);
    NextReferrers(now, items, k, k - 1, it);
  }

  lemma {:induction false} RunTraced(db: Database, items: seq<Item>, k: nat)
    requires Integrity(db) && AllShaped(items) && k <= |items| && SaveRange(db, items, 0, k).ok
    ensures Traced(db, SaveRange(db, items, 0, k).db, items, k)
  {
    if k > 0 {
      RunTraced(db, items, k - 1);
      NextTraced(db, SaveRange(db, items, 0, k - 1).db, items, k, items[k - 1]);
    }
  }

  function Others(now: Database, items: seq<Item>): set<RowId> {
    now.Keys - Ids(items, 0, |items|)
  }

  lemma OthersNotReplaced(db: Database, now: Database, items: seq<Item>)
    requires Traced(db, now, items, |items|) && Holds(now, items, |items|)
    ensures Others(now, items) <= db.Keys && Others(now, items) !! Replaced(db, items)
  {
    forall y, k | y in Others(now, items) && 0 <= k < |items|
      ensures y !in Conflicts(db, items[k].rid, items[k].row)
    {
      assert items[k].rid in Ids(items, 0, |items|);
      assert now[items[k].rid] == items[k].row && now[y].key == db[y].key;
    }
  }

  lemma SavedReferrer(now: Database, items: seq<Item>, x: RowId, c: Column, z: RowId)
    requires LateReferrers(now, items, |items|) && Holds(now, items, |items|)
    requires x in now && c in now[x].refs && z in Ids(items, 0, |items|) && z in now && Points(c, now[x].refs[c], z, now[z])
    ensures x in Ids(items, 0, |items|)
  {
    var i :| 0 <= i < |items| && items[i].rid == z;
    assert RefersLate(now[x], c, items, i, |items|, x);
    assert Ids(items, i, |items|) <= Ids(items, 0, |items|);
  }

  lemma OthersReferToOthers(db: Database, now: Database, items: seq<Item>, x: RowId, c: Column, y: RowId)
    requires Integrity(db) && Traced(db, now, items, |items|) && Holds(now, items, |items|)
    requires x in Others(now, items) && x in db && c in db[x].refs && Action(c).Cascade?
    requires y in db && Points(c, db[x].refs[c], y, db[y])
    ensures y in Others(now, items)
  {
    var z :| z in now && Points(c, now[x].refs[c], z, now[z]);
    if z in Ids(items, 0, |items|) {
      SavedReferrer(now, items, x, c, z);
    } else {
      OneTarget(db, c, db[x].refs[c], y, z);
    }
  }

  /** What is left besides the saved rows is what was kept. */
  lemma OthersAreKept(db: Database, now: Database, items: seq<Item>)
    requires Integrity(db) && Traced(db, now, items, |items|) && Holds(now, items, |items|)
    ensures Others(now, items) <= Kept(db, items)
  {
    var rest := db.Keys - Others(now, items);
    OthersNotReplaced(db, now, items);
    forall x | x in Dependents(db, rest)
      ensures x in rest
    {
      var y :| y in rest && y in db && exists c | c in db[x].refs :: Action(c).Cascade? && Points(c, db[x].refs[c], y, db[y]);
      var c :| c in db[x].refs && Action(c).Cascade? && Points(c, db[x].refs[c], y, db[y]);
      if x in Others(now, items) {
        OthersReferToOthers(db, now, items, x, c, y);
      }
    }
    ClosureIsLeast(db, Replaced(db, items), rest);
  }

  lemma StoredIsSupported(db: Database, now: Database, items: seq<Item>, k: nat, c: Column)
    requires Integrity(db) && Distinct(items) && Traced(db, now, items, |items|) && Holds(now, items, |items|)
    requires k < |items| && c in items[k].row.refs
    ensures RefSupported(db, items, k, c)
  {
    var x, v := items[k].rid, items[k].row.refs[c];
    assert now[x] == items[k].row;
    var z :| z in now && Points(c, v, z, now[z]);
    if z in Ids(items, 0, |items|) {
      var i :| 0 <= i < |items| && items[i].rid == z;
      assert RefersLate(now[x], c, items, i, |items|, x);
      var j :| i <= j < |items| && items[j].rid == x;
      assert j == k;
    } else {
      OthersAreKept(db, now, items);
      assert z in Others(now, items) && Points(c, v, z, db[z]);
    }
  }

  /** Exactly when a run comes to its end with every row stored as given: when each foreign
      key refers to a row saved no later, or to a stored row that no replacement deletes.  A
      run that ends without an error stores less otherwise. */
  lemma CompleteIffSupported(db: Database, items: seq<Item>)
    requires Integrity(db) && Distinct(items) && AllShaped(items)
    ensures Complete(SaveAll(db, items), items) <==> Supported(db, items)
  {
    var n := |items|;
    assert items[0..n] == items;
    RangeIsSlice(db, items, 0, n);
    if Supported(db, items) {
      SupportedStands(db, items, n);
    }
    if Complete(SaveAll(db, items), items) {
      RunTraced(db, items, n);
      forall k, c | 0 <= k < n && c in items[k].row.refs
        ensures RefSupported(db, items, k, c)
      {
        StoredIsSupported(db, SaveAll(db, items).db, items, k, c);
      }
    }
  }

  // ---- Into an empty database ----

  lemma ReplaceWithoutConflict(db: Database, rid: RowId, row: Row)
    requires Conflicts(db, rid, row) == {}
    ensures InsertOrReplace(db, rid, row) == Stored(db, rid, row)
  {
    assert Closure(db, {}) == {} by { assert Dependents(db, {}) == {}; }
    forall x | x in db
      ensures Detached(db, {}, db[x]) == db[x]
    {
      assert Detached(db, {}, db[x]).refs == db[x].refs;
    }
    assert Without(db, {}) == db;
  }

  lemma FreshStep(db: Database, items: seq<Item>, k: nat, it: Item)
    requires Distinct(items) && 0 < k <= |items| && it == items[k - 1]
    requires Holds(db, items, k - 1) && db.Keys == Ids(items, 0, k - 1)
    requires InsertOrReplace(db, it.rid, it.row).Committed?
    ensures var after := InsertOrReplace(db, it.rid, it.row).db; Holds(after, items, k) && after.Keys == Ids(items, 0, k)
  {
    assert Conflicts(db, it.rid, it.row) == {};
    ReplaceWithoutConflict(db, it.rid, it.row);
    assert Ids(items, 0, k) == Ids(items, 0, k - 1) + {it.rid};
  }

  /** A run into an empty database loses no row that it has saved. */
  lemma {:induction false} FreshRun(items: seq<Item>, k: nat)
    requires Distinct(items) && k <= |items| && SaveRange(map[], items, 0, k).ok
    ensures var db := SaveRange(map[], items, 0, k).db; Holds(db, items, k) && db.Keys == Ids(items, 0, k)
  {
    if k > 0 {
      FreshRun(items, k - 1);
      FreshStep(SaveRange(map[], items, 0, k - 1).db, items, k, items[k - 1]);
    }
  }

  /** Into an empty database, a save comes to its end exactly when every foreign key refers
      to a row at or before its own. */
  lemma FreshSaveSucceedsIff(items: seq<Item>)
    requires Distinct(items) && AllShaped(items)
    ensures SaveAll(map[], items).ok <==> forall k | 0 <= k < |items| :: RefsReachBack(items, k)
  {
    assert items[0..|items|] == items;
    RangeIsSlice(map[], items, 0, |items|);
    CompleteIffSupported(map[], items);
    if SaveAll(map[], items).ok {
      FreshRun(items, |items|);
      forall k, c | 0 <= k < |items| && c in items[k].row.refs
        ensures exists i :: 0 <= i <= k && Points(c, items[k].row.refs[c], items[i].rid, items[i].row)
      {
        assert RefSupported(map[], items, k, c);
      }
    }
    if forall k | 0 <= k < |items| :: RefsReachBack(items, k) {
      forall k, c | 0 <= k < |items| && c in items[k].row.refs
        ensures RefSupported(map[], items, k, c)
      {
        assert RefsReachBack(items, k);
      }
    }
  }
}
