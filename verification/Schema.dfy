/** The SQLite schema that the database manager creates, reduced to what drives
    its behaviour: primary keys, UNIQUE keys and foreign keys with their
    ON DELETE actions.  All other columns of a row are one opaque `fields` value. */
module Schema {

  datatype Table =
    | Projects | Folders | Statuses | Priorities | Environments
    | TestCases | TestCycles | TestPlans | TestExecutions
    | ValidationRules | ValidationIssues | ValidationReports

  /** The foreign-key columns. */
  datatype Column =
    | ProjectKey | ParentId | FolderId | PriorityId | EnvironmentId
    | TestCaseKey | CycleId | RuleId

  datatype OnDelete = Cascade | SetNull

  /** The table a foreign key refers to. */
  function Referenced(c: Column): Table {
    match c
    case ProjectKey => Projects
    case ParentId | FolderId => Folders
    case PriorityId => Priorities
    case EnvironmentId => Environments
    case TestCaseKey => TestCases
    case CycleId => TestCycles
    case RuleId => ValidationRules
  }

  /** Whether a foreign key holds the referenced row's UNIQUE key rather than its id. */
  predicate ByKey(c: Column) {
    c.ProjectKey? || c.TestCaseKey?
  }

  function Action(c: Column): OnDelete {
    match c
    case ProjectKey | ParentId | TestCaseKey | CycleId | RuleId => Cascade
    case FolderId | PriorityId | EnvironmentId => SetNull
  }

  /** Tables with a UNIQUE key column besides their primary key. */
  predicate HasKey(t: Table) {
    t.Projects? || t.TestCases? || t.TestCycles? || t.TestPlans?
  }

  function Columns(t: Table): set<Column> {
    match t
    case Projects | ValidationRules => {}
    case Folders => {ProjectKey, ParentId}
    case Statuses | Priorities | Environments | ValidationReports => {ProjectKey}
    case TestCases => {ProjectKey, PriorityId, FolderId}
    case TestCycles | TestPlans => {ProjectKey, FolderId}
    case TestExecutions => {ProjectKey, TestCaseKey, CycleId, EnvironmentId}
    case ValidationIssues => {ProjectKey, RuleId}
  }

  datatype RowId = RowId(table: Table, id: string)

  /** `key` is meaningful only where the table has one; a column that is NULL is
      absent from `refs`. */
  datatype Row = Row(key: string, refs: map<Column, string>, fields: string)

  datatype Item = Item(rid: RowId, row: Row)

  type Database = map<RowId, Row>

  predicate Shaped(rid: RowId, row: Row) {
    row.refs.Keys <= Columns(rid.table)
  }

  /** The value `v` of foreign key `c` denotes the row `y`. */
  predicate Points(c: Column, v: string, y: RowId, row: Row) {
    y.table == Referenced(c) && (if ByKey(c) then row.key == v else y.id == v)
  }

  predicate Resolves(db: Database, c: Column, v: string) {
    exists y | y in db :: Points(c, v, y, db[y])
  }

  ghost predicate UniqueKeys(db: Database) {
    forall x, y | x in db && y in db && x.table == y.table && HasKey(x.table) && db[x].key == db[y].key :: x == y
  }

  ghost predicate Integrity(db: Database) {
    && (forall x | x in db :: Shaped(x, db[x]))
    && UniqueKeys(db)
    && (forall x, c | x in db && c in db[x].refs :: Resolves(db, c, db[x].refs[c]))
  }

  // ---- Deleting rows, with the foreign-key actions this fires ----

  predicate CascadesInto(db: Database, x: RowId, dead: set<RowId>)
    requires x in db
  {
    exists y | y in dead && y in db :: exists c | c in db[x].refs :: Action(c).Cascade? && Points(c, db[x].refs[c], y, db[y])
  }

  function Dependents(db: Database, dead: set<RowId>): set<RowId> {
    set x | x in db && CascadesInto(db, x, dead)
  }

  /** All rows that go when `dead` goes: the least superset closed under CASCADE. */
  function Closure(db: Database, dead: set<RowId>): (r: set<RowId>)
    requires dead <= db.Keys
    ensures dead <= r <= db.Keys
    ensures Dependents(db, r) <= r
    decreases |db.Keys - dead|
  {
    var more := Dependents(db, dead);
    if more <= dead then dead
    else
      FewerLeft(db.Keys, dead, more);
      Closure(db, dead + more)
  }

  lemma FewerLeft<T>(all: set<T>, dead: set<T>, more: set<T>)
    requires more <= all && !(more <= dead)
    ensures |all - (dead + more)| < |all - dead|
  {
    var x :| x in more && x !in dead;
    var fewer := all - dead - {x};
    assert |all - dead| == |fewer| + 1;
    assert fewer == (all - (dead + more)) + (fewer * more);
  }

  lemma {:induction false} ClosureIsLeast(db: Database, dead: set<RowId>, s: set<RowId>)
    requires dead <= db.Keys && dead <= s
    requires Dependents(db, s) <= s
    ensures Closure(db, dead) <= s
    decreases |db.Keys - dead|
  {
    var more := Dependents(db, dead);
    if !(more <= dead) {
      assert more <= Dependents(db, s);
      FewerLeft(db.Keys, dead, more);
      ClosureIsLeast(db, dead + more, s);
    }
  }

  predicate LosesTarget(db: Database, dead: set<RowId>, c: Column, v: string) {
    Action(c).SetNull? && exists y | y in dead && y in db :: Points(c, v, y, db[y])
  }

  function Detached(db: Database, dead: set<RowId>, row: Row): Row {
    row.(refs := map c | c in row.refs && !LosesTarget(db, dead, c, row.refs[c]) :: row.refs[c])
  }

  function Without(db: Database, dead: set<RowId>): Database
    requires dead <= db.Keys
  {
    var all := Closure(db, dead);
    map x | x in db && x !in all :: Detached(db, all, db[x])
  }

  // ---- INSERT OR REPLACE and INSERT OR IGNORE ----

  function Conflicts(db: Database, rid: RowId, row: Row): set<RowId> {
    set y | y in db && y.table == rid.table && (y == rid || (HasKey(rid.table) && db[y].key == row.key))
  }

  /** What a statement leaves behind; a failed one changes nothing. */
  datatype Outcome = Committed(db: Database) | IntegrityError

  function Stored(db: Database, rid: RowId, row: Row): Outcome {
    var after := db[rid := row];
    if forall c | c in row.refs :: Resolves(after, c, row.refs[c]) then Committed(after) else IntegrityError
  }

  function InsertOrReplace(db: Database, rid: RowId, row: Row): Outcome {
    Stored(Without(db, Conflicts(db, rid, row)), rid, row)
  }

  function InsertOrIgnore(db: Database, rid: RowId, row: Row): Outcome {
    if Conflicts(db, rid, row) != {} then Committed(db) else Stored(db, rid, row)
  }

  // ---- Every statement keeps the database's integrity ----

  lemma WithoutKeepsIntegrity(db: Database, dead: set<RowId>)
    requires Integrity(db) && dead <= db.Keys
    ensures Integrity(Without(db, dead))
  {
    var all, after := Closure(db, dead), Without(db, dead);
    forall x, c | x in after && c in after[x].refs
      ensures Resolves(after, c, after[x].refs[c])
    {
      var y :| y in db && Points(c, db[x].refs[c], y, db[y]);
      if y in all {
        assert false;
      }
      assert y in after && Points(c, after[x].refs[c], y, after[y]);
    }
  }

  lemma StoredKeepsIntegrity(db: Database, rid: RowId, row: Row)
    requires Integrity(db) && Shaped(rid, row) && Conflicts(db, rid, row) == {}
    ensures Stored(db, rid, row).Committed? ==> Integrity(Stored(db, rid, row).db)
  {
    assert rid in db <==> rid in Conflicts(db, rid, row);
    var after := db[rid := row];
    forall x, y | x in after && y in after && x.table == y.table && HasKey(x.table) && after[x].key == after[y].key
      ensures x == y
    {
      assert y in db && y.table == rid.table && HasKey(rid.table) && db[y].key == row.key ==> y in Conflicts(db, rid, row);
      assert x in db && x.table == rid.table && HasKey(rid.table) && db[x].key == row.key ==> x in Conflicts(db, rid, row);
    }
    forall x, c | x in db && c in db[x].refs
      ensures Resolves(after, c, after[x].refs[c])
    {
      var y :| y in db && Points(c, db[x].refs[c], y, db[y]);
      assert y in after && Points(c, after[x].refs[c], y, after[y]);
    }
  }

  lemma ReplaceKeepsIntegrity(db: Database, rid: RowId, row: Row)
    requires Integrity(db) && Shaped(rid, row)
    ensures InsertOrReplace(db, rid, row).Committed? ==> Integrity(InsertOrReplace(db, rid, row).db)
  {
    var dead := Conflicts(db, rid, row);
    WithoutKeepsIntegrity(db, dead);
    assert Conflicts(Without(db, dead), rid, row) == {};
    StoredKeepsIntegrity(Without(db, dead), rid, row);
  }

  lemma IgnoreKeepsIntegrity(db: Database, rid: RowId, row: Row)
    requires Integrity(db) && Shaped(rid, row)
    ensures InsertOrIgnore(db, rid, row).Committed? ==> Integrity(InsertOrIgnore(db, rid, row).db)
  {
    if Conflicts(db, rid, row) == {} {
      StoredKeepsIntegrity(db, rid, row);
    }
  }

  // ---- Which rows a replacement leaves alone ----

  /** Every reference held by a row of `safe` is to a row of `safe`. */
  ghost predicate SelfContained(db: Database, safe: set<RowId>) {
    && safe <= db.Keys
    && forall x, c | x in safe && c in db[x].refs :: exists y :: y in safe && Points(c, db[x].refs[c], y, db[y])
  }

  /** A foreign key has one target. */
  lemma OneTarget(db: Database, c: Column, v: string, y: RowId, z: RowId)
    requires UniqueKeys(db) && y in db && z in db && Points(c, v, y, db[y]) && Points(c, v, z, db[z])
    ensures y == z
  {
  }

  /** The same for the references that would delete a row along with their target. */
  ghost predicate CascadesInside(db: Database, safe: set<RowId>) {
    && safe <= db.Keys
    && forall x, c | x in safe && c in db[x].refs && Action(c).Cascade? ::
         exists y :: y in safe && Points(c, db[x].refs[c], y, db[y])
  }

  lemma SafeOutliveDead(db: Database, dead: set<RowId>, safe: set<RowId>)
    requires Integrity(db) && CascadesInside(db, safe) && dead <= db.Keys && dead !! safe
    ensures Closure(db, dead) !! safe
  {
    forall x | x in Dependents(db, db.Keys - safe)
      ensures x !in safe
    {
      var y :| y in db.Keys - safe && y in db && exists c | c in db[x].refs :: Action(c).Cascade? && Points(c, db[x].refs[c], y, db[y]);
      var c :| c in db[x].refs && Action(c).Cascade? && Points(c, db[x].refs[c], y, db[y]);
      if x in safe {
        var z :| z in safe && Points(c, db[x].refs[c], z, db[z]);
        OneTarget(db, c, db[x].refs[c], y, z);
      }
    }
    ClosureIsLeast(db, dead, db.Keys - safe);
  }

  lemma SafeKeepRefs(db: Database, all: set<RowId>, safe: set<RowId>, x: RowId)
    requires Integrity(db) && all !! safe && safe <= db.Keys && x in db
    requires forall c | c in db[x].refs :: exists y :: y in safe && Points(c, db[x].refs[c], y, db[y])
    ensures Detached(db, all, db[x]) == db[x]
  {
    assert Detached(db, all, db[x]).refs == db[x].refs;
  }

  /** Rows that refer only to one another survive any replacement they do not conflict with. */
  lemma ReplaceSpares(db: Database, rid: RowId, row: Row, safe: set<RowId>)
    requires Integrity(db) && SelfContained(db, safe) && Conflicts(db, rid, row) !! safe
    ensures rid !in safe
    ensures forall x | x in safe ::
      var after := Without(db, Conflicts(db, rid, row));
      x in after && after[x] == db[x]
  {
    var dead := Conflicts(db, rid, row);
    SafeOutliveDead(db, dead, safe);
    forall x | x in safe
      ensures Detached(db, Closure(db, dead), db[x]) == db[x]
    {
      SafeKeepRefs(db, Closure(db, dead), safe, x);
    }
  }

  /** Rows whose CASCADE references are to one another survive it too; those of them that
      refer to no other rows at all survive unchanged. */
  lemma ReplaceKeeps(db: Database, rid: RowId, row: Row, safe: set<RowId>)
    requires Integrity(db) && CascadesInside(db, safe) && Conflicts(db, rid, row) !! safe
    ensures safe <= Without(db, Conflicts(db, rid, row)).Keys
    ensures forall x | x in safe && (forall c | c in db[x].refs :: exists y :: y in safe && Points(c, db[x].refs[c], y, db[y])) ::
      Without(db, Conflicts(db, rid, row))[x] == db[x]
  {
    var dead := Conflicts(db, rid, row);
    SafeOutliveDead(db, dead, safe);
    forall x | x in safe && (forall c | c in db[x].refs :: exists y :: y in safe && Points(c, db[x].refs[c], y, db[y]))
      ensures Detached(db, Closure(db, dead), db[x]) == db[x]
    {
      SafeKeepRefs(db, Closure(db, dead), safe, x);
    }
  }

  /** A replacement only takes rows and references away, apart from the row it stores. */
  lemma ReplaceOnlyRemoves(db: Database, rid: RowId, row: Row)
    ensures forall x | x in Without(db, Conflicts(db, rid, row)) ::
      var after := Without(db, Conflicts(db, rid, row));
      && x in db && x !in Conflicts(db, rid, row) && after[x].key == db[x].key
      && (forall c | c in after[x].refs :: c in db[x].refs && after[x].refs[c] == db[x].refs[c])
      && (forall c | c in db[x].refs && Action(c).Cascade? :: c in after[x].refs)
  {
  }

  /** No row that remains refers to a row that the replacement removes. */
  lemma NothingRefersToRemoved(db: Database, rid: RowId, row: Row, x: RowId, c: Column)
    requires Integrity(db)
    requires x in Without(db, Conflicts(db, rid, row)) && c in Without(db, Conflicts(db, rid, row))[x].refs
    ensures !Points(c, db[x].refs[c], rid, row)
  {
    var y :| y in db && Points(c, db[x].refs[c], y, db[y]);
    assert Points(c, db[x].refs[c], rid, row) ==> y in Conflicts(db, rid, row);
  }
}
