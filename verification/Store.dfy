/** Saving rows one by one with INSERT OR REPLACE, each in its own transaction. */
module Store {
  import opened Schema

  /** The database a run leaves behind, and whether it got to its end. */
  datatype Run = Run(db: Database, ok: bool) {
    function Then(it: Item): Run {
      if !ok then this
      else match InsertOrReplace(db, it.rid, it.row)
        case Committed(after) => Run(after, true)
        case IntegrityError => Run(db, false)
    }
  }

  /** Saves the rows in order; the first integrity error ends the run, keeping what
      was committed before it. */
  function SaveAll(db: Database, items: seq<Item>): Run {
    if items == [] then Run(db, true)
    else SaveAll(db, items[..|items| - 1]).Then(items[|items| - 1])
  }

  /** The same over the rows `a` up to `k` of a longer sequence. */
  function SaveRange(db: Database, items: seq<Item>, a: nat, k: nat): Run
    requires a <= k <= |items|
  {
    if k == a then Run(db, true) else SaveRange(db, items, a, k - 1).Then(items[k - 1])
  }

  lemma {:induction false} RangeIsSlice(db: Database, items: seq<Item>, a: nat, k: nat)
    requires a <= k <= |items|
    ensures SaveRange(db, items, a, k) == SaveAll(db, items[a..k])
  {
    if k > a {
      RangeIsSlice(db, items, a, k - 1);
      assert items[a..k][k - a - 1] == items[k - 1];
      assert items[a..k][..k - a - 1] == items[a..k - 1];
    }
  }

  lemma {:induction false} SaveAllSplits(db: Database, front: seq<Item>, back: seq<Item>)
    ensures SaveAll(db, front + back)
         == if SaveAll(db, front).ok then SaveAll(SaveAll(db, front).db, back) else SaveAll(db, front)
  {
    var all := front + back;
    if back == [] {
      assert all == front;
    } else {
      var last, rest := back[|back| - 1], back[..|back| - 1];
      SaveAllSplits(db, front, rest);
      assert all[|all| - 1] == last && all[..|all| - 1] == front + rest;
      assert SaveAll(db, all) == SaveAll(db, front + rest).Then(last);
    }
  }

  /** However a run goes, the database keeps its integrity. */
  lemma {:induction false} SaveAllKeepsIntegrity(db: Database, items: seq<Item>)
    requires Integrity(db)
    requires forall i | 0 <= i < |items| :: Shaped(items[i].rid, items[i].row)
    ensures Integrity(SaveAll(db, items).db)
  {
    if items != [] {
      var last, front := items[|items| - 1], items[..|items| - 1];
      SaveAllKeepsIntegrity(db, front);
      ReplaceKeepsIntegrity(SaveAll(db, front).db, last.rid, last.row);
    }
  }

  // ---- Which sequences of rows can be saved ----

  /** The primary keys of rows `a` up to `k`. */
  function Ids(items: seq<Item>, a: nat, k: nat): set<RowId>
    requires a <= k <= |items|
  {
    set i | a <= i < k :: items[i].rid
  }

  /** No two rows share a primary key or a UNIQUE key. */
  ghost predicate Distinct(items: seq<Item>) {
    forall i, j | 0 <= i < |items| && 0 <= j < |items| && i != j && items[i].rid.table == items[j].rid.table ::
      && items[i].rid != items[j].rid
      && (HasKey(items[i].rid.table) ==> items[i].row.key != items[j].row.key)
  }

  ghost predicate AllShaped(items: seq<Item>) {
    forall i | 0 <= i < |items| :: Shaped(items[i].rid, items[i].row)
  }

  /** Row `k`'s foreign keys all refer to rows at or before `k`. */
  ghost predicate RefsReachBack(items: seq<Item>, k: nat)
    requires k < |items|
  {
    forall c | c in items[k].row.refs ::
      exists i :: 0 <= i <= k && Points(c, items[k].row.refs[c], items[i].rid, items[i].row)
  }

  ghost predicate Loadable(items: seq<Item>) {
    Distinct(items) && AllShaped(items) && forall k | 0 <= k < |items| :: RefsReachBack(items, k)
  }

  /** The first `k` rows are stored, exactly as given. */
  ghost predicate Holds(db: Database, items: seq<Item>, k: nat)
    requires k <= |items|
  {
    forall i | 0 <= i < k :: items[i].rid in db && db[items[i].rid] == items[i].row
  }

  /** No row other than the first `k` refers to one of rows `a` up to `k`. */
  ghost predicate NoStrays(db: Database, items: seq<Item>, a: nat, k: nat)
    requires a <= k <= |items|
  {
    forall x, c, i | x in db && x !in Ids(items, 0, k) && c in db[x].refs && a <= i < k ::
      !Points(c, db[x].refs[c], items[i].rid, items[i].row)
  }

  lemma LoadedRowsSelfContained(db: Database, items: seq<Item>, k: nat)
    requires Loadable(items) && k <= |items| && Holds(db, items, k)
    ensures SelfContained(db, Ids(items, 0, k))
  {
    forall x, c | x in Ids(items, 0, k) && c in db[x].refs
      ensures exists y :: y in Ids(items, 0, k) && Points(c, db[x].refs[c], y, db[y])
    {
      var j :| 0 <= j < k && items[j].rid == x;
      assert RefsReachBack(items, j);
      var i :| 0 <= i <= j && Points(c, items[j].row.refs[c], items[i].rid, items[i].row);
      assert items[i].rid in Ids(items, 0, k);
    }
  }

  /** Row `k` (counted from 1) is accepted after the rows before it. */
  lemma NextIsAccepted(db: Database, items: seq<Item>, k: nat, it: Item)
    requires Integrity(db) && Loadable(items) && 0 < k <= |items| && it == items[k - 1] && Holds(db, items, k - 1)
    ensures var r := InsertOrReplace(db, it.rid, it.row);
      && r.Committed? && Integrity(r.db) && Holds(r.db, items, k)
      && r.db == Without(db, Conflicts(db, it.rid, it.row))[it.rid := it.row]
  {
    var safe := Ids(items, 0, k - 1);
    LoadedRowsSelfContained(db, items, k - 1);
    ReplaceSpares(db, it.rid, it.row, safe);
    ReplaceKeepsIntegrity(db, it.rid, it.row);
    var after := Without(db, Conflicts(db, it.rid, it.row))[it.rid := it.row];
    forall i | 0 <= i < k
      ensures items[i].rid in after && after[items[i].rid] == items[i].row
    {
      assert i < k - 1 ==> items[i].rid in safe;
    }
    forall c | c in it.row.refs
      ensures Resolves(after, c, it.row.refs[c])
    {
      assert RefsReachBack(items, k - 1);
      var i :| 0 <= i <= k - 1 && Points(c, it.row.refs[c], items[i].rid, items[i].row);
      assert items[i].rid in after;
    }
  }

  /** A run that has saved the first `k` rows: they are stored exactly, and nothing else
      refers to the ones from `a` on. */
  ghost predicate Saved(r: Run, items: seq<Item>, a: nat, k: nat)
    requires a <= k <= |items|
  {
    r.ok && Integrity(r.db) && Holds(r.db, items, k) && NoStrays(r.db, items, a, k)
  }

  /** Saving the next row of a loadable sequence: it is accepted, every row saved so far
      stays exactly as saved, and nothing else refers to a saved row afterwards. */
  lemma SaveStep(r: Run, items: seq<Item>, a: nat, k: nat, next: Run)
    requires Loadable(items) && a < k <= |items| && Saved(r, items, a, k - 1)
    requires next == r.Then(items[k - 1])
    ensures Saved(next, items, a, k)
  {
    var db, rid, row := r.db, items[k - 1].rid, items[k - 1].row;
    NextIsAccepted(db, items, k, items[k - 1]);
    var after := InsertOrReplace(db, rid, row).db;
    forall x, c, i | x in after && x !in Ids(items, 0, k) && c in after[x].refs && a <= i < k
      ensures !Points(c, after[x].refs[c], items[i].rid, items[i].row)
    {
      assert rid in Ids(items, 0, k);
      assert Ids(items, 0, k - 1) <= Ids(items, 0, k);
      ReplaceOnlyRemoves(db, rid, row);
      if i == k - 1 {
        NothingRefersToRemoved(db, rid, row, x, c);
      }
    }
  }

  /** A loadable sequence whose first `a` rows are already stored is saved without error
      into any database: at the end it is stored exactly, and no other row refers to it. */
  lemma {:induction false} SaveAllSucceeds(db: Database, items: seq<Item>, a: nat, k: nat)
    requires Loadable(items) && a <= k <= |items| && Saved(Run(db, true), items, a, a)
    ensures Saved(SaveRange(db, items, a, k), items, a, k)
  {
    if k > a {
      SaveAllSucceeds(db, items, a, k - 1);
      SaveStep(SaveRange(db, items, a, k - 1), items, a, k, SaveRange(db, items, a, k));
    }
  }

  // ---- Saving again changes nothing ----

  ghost predicate Settled(db: Database, items: seq<Item>, a: nat) {
    a <= |items| && Loadable(items) && Saved(Run(db, true), items, a, |items|)
  }

  /** `db` is `settled` in the middle of a second run: the rows that are not being saved
      are untouched, and no row has a key it did not have. */
  ghost predicate Shadows(db: Database, settled: Database, items: seq<Item>, a: nat)
    requires a <= |items|
  {
    && Integrity(db)
    && (forall x | x in db :: x in settled && db[x].key == settled[x].key)
    && (forall x | x in settled && x !in Ids(items, a, |items|) :: x in db && db[x] == settled[x])
  }

  lemma OtherRowsSelfContained(settled: Database, db: Database, items: seq<Item>, a: nat)
    requires Settled(settled, items, a) && Shadows(db, settled, items, a)
    ensures SelfContained(db, db.Keys - Ids(items, a, |items|))
  {
    var saved := Ids(items, a, |items|);
    forall x, c | x in db && x !in saved && c in db[x].refs
      ensures exists y :: y in db.Keys - saved && Points(c, db[x].refs[c], y, db[y])
    {
      var y :| y in db && Points(c, db[x].refs[c], y, db[y]);
      if x in Ids(items, 0, |items|) {
        y := EarlierTarget(settled, items, a, x, c);
      } else {
        NotSaved(settled, items, a, x, c, y);
      }
    }
  }

  /** A row outside `items` refers to nothing in `items[a..]`. */
  lemma NotSaved(settled: Database, items: seq<Item>, a: nat, x: RowId, c: Column, y: RowId)
    requires Settled(settled, items, a)
    requires x in settled && x !in Ids(items, 0, |items|) && c in settled[x].refs
    requires y in settled && Points(c, settled[x].refs[c], y, settled[y])
    ensures y !in Ids(items, a, |items|)
  {
  }

  /** A row of `items[..a]` refers to one of `items[..a]`. */
  lemma EarlierTarget(settled: Database, items: seq<Item>, a: nat, x: RowId, c: Column) returns (y: RowId)
    requires Settled(settled, items, a)
    requires x in Ids(items, 0, |items|) && x !in Ids(items, a, |items|)
    requires x in settled && c in settled[x].refs
    ensures y in settled && y !in Ids(items, a, |items|) && Points(c, settled[x].refs[c], y, settled[y])
  {
    var j :| 0 <= j < a && items[j].rid == x;
    assert RefsReachBack(items, j);
    var m :| 0 <= m <= j && Points(c, items[j].row.refs[c], items[m].rid, items[m].row);
    y := items[m].rid;
  }

  lemma SettledFromTheStart(settled: Database, items: seq<Item>, a: nat)
    requires Settled(settled, items, a)
    ensures Saved(Run(settled, true), items, a, a)
  {
  }

  lemma ResaveStep(settled: Database, r: Run, items: seq<Item>, a: nat, k: nat, next: Run)
    requires Settled(settled, items, a) && a < k <= |items| && next == r.Then(items[k - 1])
    requires Shadows(r.db, settled, items, a)
    ensures Shadows(next.db, settled, items, a)
  {
    var db, rid, row := r.db, items[k - 1].rid, items[k - 1].row;
    var saved := Ids(items, a, |items|);
    var safe := db.Keys - saved;
    assert rid in saved && settled[rid] == row;
    OtherRowsSelfContained(settled, db, items, a);
    ReplaceSpares(db, rid, row, safe);
    ReplaceOnlyRemoves(db, rid, row);
    ReplaceKeepsIntegrity(db, rid, row);
  }

  lemma {:induction false} ResaveKeepsShadow(settled: Database, items: seq<Item>, a: nat, k: nat)
    requires Settled(settled, items, a) && a <= k <= |items|
    ensures Shadows(SaveRange(settled, items, a, k).db, settled, items, a)
  {
    if k > a {
      var r := SaveRange(settled, items, a, k - 1);
      ResaveKeepsShadow(settled, items, a, k - 1);
      ResaveStep(settled, r, items, a, k, r.Then(items[k - 1]));
    }
  }

  lemma ShadowWithItemsIsSettled(db: Database, settled: Database, items: seq<Item>, a: nat)
    requires a <= |items| && Shadows(db, settled, items, a)
    requires Holds(db, items, |items|) && Holds(settled, items, |items|)
    ensures db == settled
  {
  }

  /** Saving the same rows over a database they are settled in gives that database back. */
  lemma ResaveIsIdentity(settled: Database, items: seq<Item>, a: nat)
    requires Settled(settled, items, a)
    ensures SaveAll(settled, items[a..]) == Run(settled, true)
  {
    var n := |items|;
    assert items[a..n] == items[a..];
    RangeIsSlice(settled, items, a, n);
    var r := SaveRange(settled, items, a, n);
    ResaveKeepsShadow(settled, items, a, n);
    SettledFromTheStart(settled, items, a);
    SaveAllSucceeds(settled, items, a, n);
    ShadowWithItemsIsSettled(r.db, settled, items, a);
  }

  // ---- What a run cannot touch ----

  /** Rows that refer only to one another, and share no id or key with what is saved,
      come through any run, even a failing one, unchanged. */
  lemma {:induction false} UnrelatedRowsSurvive(db: Database, items: seq<Item>, safe: set<RowId>)
    requires Integrity(db) && SelfContained(db, safe) && AllShaped(items)
    requires forall i | 0 <= i < |items| :: Conflicts(db, items[i].rid, items[i].row) !! safe
    ensures forall x | x in safe :: x in SaveAll(db, items).db && SaveAll(db, items).db[x] == db[x]
  {
    if items != [] {
      var n := |items| - 1;
      var last, front := items[n], items[..n];
      UnrelatedRowsSurvive(db, front, safe);
      SaveAllKeepsIntegrity(db, front);
      var mid := SaveAll(db, front).db;
      forall y | y in safe
        ensures y !in Conflicts(mid, last.rid, last.row)
      {
        assert y !in Conflicts(db, last.rid, last.row);
      }
      ReplaceSpares(mid, last.rid, last.row, safe);
    }
  }
}
