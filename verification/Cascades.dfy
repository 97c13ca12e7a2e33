/** What a deletion takes along, table by table, and what it leaves of the other rows. */
module Cascades {
  import opened Schema

  /** Row `x` refers by id to a row of table `t` that is gone. */
  ghost predicate LosesById(db: Database, gone: set<RowId>, x: RowId, c: Column, t: Table)
    requires x in db
  {
    c in db[x].refs && RowId(t, db[x].refs[c]) in gone
  }

  /** Row `x` refers by key to a row of table `t` that is gone. */
  ghost predicate LosesByKey(db: Database, gone: set<RowId>, x: RowId, c: Column, t: Table)
    requires x in db
  {
    c in db[x].refs && exists y :: y in gone && y in db && y.table == t && db[y].key == db[x].refs[c]
  }

  /** The references of row `x` that take it along. */
  ghost predicate Taken(db: Database, gone: set<RowId>, x: RowId)
    requires x in db
  {
    match x.table
    case Projects | ValidationRules => false
    case Folders => LosesByKey(db, gone, x, ProjectKey, Projects) || LosesById(db, gone, x, ParentId, Folders)
    case Statuses | Priorities | Environments | ValidationReports => LosesByKey(db, gone, x, ProjectKey, Projects)
    case TestCases | TestCycles | TestPlans => LosesByKey(db, gone, x, ProjectKey, Projects)
    case TestExecutions =>
      || LosesByKey(db, gone, x, ProjectKey, Projects)
      || LosesByKey(db, gone, x, TestCaseKey, TestCases)
      || LosesById(db, gone, x, CycleId, TestCycles)
    case ValidationIssues => LosesByKey(db, gone, x, ProjectKey, Projects) || LosesById(db, gone, x, RuleId, ValidationRules)
  }

  /** Reference `c` of row `x`, whichever it is, is to a row that is gone. */
  ghost predicate Loses(db: Database, gone: set<RowId>, x: RowId, c: Column)
    requires x in db
  {
    match c
    case ProjectKey => LosesByKey(db, gone, x, c, Projects)
    case ParentId | FolderId => LosesById(db, gone, x, c, Folders)
    case PriorityId => LosesById(db, gone, x, c, Priorities)
    case EnvironmentId => LosesById(db, gone, x, c, Environments)
    case TestCaseKey => LosesByKey(db, gone, x, c, TestCases)
    case CycleId => LosesById(db, gone, x, c, TestCycles)
    case RuleId => LosesById(db, gone, x, c, ValidationRules)
  }

  lemma LosesTargetGone(db: Database, gone: set<RowId>, x: RowId, c: Column)
    requires gone <= db.Keys && x in db && c in db[x].refs
    ensures Loses(db, gone, x, c) <==> exists y :: y in gone && Points(c, db[x].refs[c], y, db[y])
  {
    var y := RowId(Referenced(c), db[x].refs[c]);
    if y in gone && !ByKey(c) {
      assert Points(c, db[x].refs[c], y, db[y]);
    }
  }

  lemma TakenIsDependent(db: Database, gone: set<RowId>, x: RowId)
    requires gone <= db.Keys && x in db && Shaped(x, db[x])
    ensures x in Dependents(db, gone) <==> Taken(db, gone, x)
  {
    forall c | c in db[x].refs
      ensures c in Columns(x.table)
      ensures Loses(db, gone, x, c) <==> exists y :: y in gone && Points(c, db[x].refs[c], y, db[y])
    {
      LosesTargetGone(db, gone, x, c);
    }
    DependentNamed(db, gone, x);
    TakenNamed(db, gone, x);
  }

  /** The references that delete a row when their target goes. */
  predicate Binding(c: Column) {
    c.ProjectKey? || c.ParentId? || c.TestCaseKey? || c.CycleId? || c.RuleId?
  }

  lemma DependentNamed(db: Database, gone: set<RowId>, x: RowId)
    requires gone <= db.Keys && x in db
    requires forall c | c in db[x].refs :: Loses(db, gone, x, c) <==> exists y :: y in gone && Points(c, db[x].refs[c], y, db[y])
    ensures x in Dependents(db, gone) <==> exists c :: c in db[x].refs && Binding(c) && Loses(db, gone, x, c)
  {
    if c :| c in db[x].refs && Binding(c) && Loses(db, gone, x, c) {
      assert CascadesInto(db, x, gone);
    }
  }

  lemma TakenNamed(db: Database, gone: set<RowId>, x: RowId)
    requires x in db && forall c | c in db[x].refs :: c in Columns(x.table)
    ensures Taken(db, gone, x) <==> exists c :: c in db[x].refs && Binding(c) && Loses(db, gone, x, c)
  {
    assert Loses(db, gone, x, ProjectKey) <==> LosesByKey(db, gone, x, ProjectKey, Projects);
    assert Loses(db, gone, x, ParentId) <==> LosesById(db, gone, x, ParentId, Folders);
    assert Loses(db, gone, x, TestCaseKey) <==> LosesByKey(db, gone, x, TestCaseKey, TestCases);
    assert Loses(db, gone, x, CycleId) <==> LosesById(db, gone, x, CycleId, TestCycles);
    assert Loses(db, gone, x, RuleId) <==> LosesById(db, gone, x, RuleId, ValidationRules);
  }

  /** Exactly which rows go with a deletion: a folder with its project or its parent, an
      execution with its project, its test case or its cycle, a validation issue with its
      project or its rule, and any other row with its project. */
  lemma GoesIff(db: Database, dead: set<RowId>, x: RowId)
    requires Integrity(db) && dead <= db.Keys && x in db
    ensures x in Closure(db, dead) <==> x in dead || Taken(db, Closure(db, dead), x)
  {
    var gone := Closure(db, dead);
    TakenIsDependent(db, gone, x);
    if x !in dead && !Taken(db, gone, x) {
      var fewer := gone - {x};
      assert Dependents(db, fewer) <= Dependents(db, gone);
      ClosureIsLeast(db, dead, fewer);
    }
  }

  // ---- Deletions that stay within bounds ----

  /** Each folder of the chain is the parent of the one before it. */
  ghost predicate ParentChain(db: Database, chain: seq<RowId>) {
    forall i, j | 0 <= i && j == i + 1 < |chain| :: ParentOf(db, chain[i], chain[j])
  }

  predicate ParentOf(db: Database, x: RowId, p: RowId) {
    x in db && x.table == Folders && ParentId in db[x].refs && p == RowId(Folders, db[x].refs[ParentId])
  }

  /** The folder is in `dead`, or below one that is. */
  ghost predicate Below(db: Database, x: RowId, dead: set<RowId>) {
    exists chain :: chain != [] && ParentChain(db, chain) && chain[0] == x && chain[|chain| - 1] in dead
  }

  lemma BelowItself(db: Database, x: RowId, dead: set<RowId>)
    requires x in dead
    ensures Below(db, x, dead)
  {
    assert ParentChain(db, [x]) && [x][|[x]| - 1] in dead;
  }

  lemma BelowParent(db: Database, x: RowId, p: RowId, dead: set<RowId>)
    requires ParentOf(db, x, p) && Below(db, p, dead)
    ensures Below(db, x, dead)
  {
    var chain :| chain != [] && ParentChain(db, chain) && chain[0] == p && chain[|chain| - 1] in dead;
    var longer := [x] + chain;
    forall i, j | 0 <= i && j == i + 1 < |longer|
      ensures ParentOf(db, longer[i], longer[j])
    {
      assert longer[j] == chain[i];
      assert i > 0 ==> longer[i] == chain[i - 1];
    }
    assert longer[0] == x && longer[|longer| - 1] == chain[|chain| - 1];
  }

  lemma {:induction false} ChainGoes(db: Database, dead: set<RowId>, chain: seq<RowId>)
    requires Integrity(db) && dead <= db.Keys && chain != [] && ParentChain(db, chain) && chain[|chain| - 1] in dead
    ensures chain[0] in Closure(db, dead)
  {
    if |chain| > 1 {
      var rest := chain[1..];
      forall i, j | 0 <= i && j == i + 1 < |rest|
        ensures ParentOf(db, rest[i], rest[j])
      {
        assert ParentOf(db, chain[i + 1], chain[j + 1]);
      }
      ChainGoes(db, dead, rest);
      assert ParentOf(db, chain[0], chain[1]);
      assert LosesById(db, Closure(db, dead), chain[0], ParentId, Folders);
      GoesIff(db, dead, chain[0]);
    }
  }

  ghost predicate OnlyFolders(rows: set<RowId>) {
    forall x | x in rows :: x.table == Folders
  }

  lemma TakenBelow(db: Database, dead: set<RowId>, below: set<RowId>, y: RowId)
    requires Integrity(db) && below <= db.Keys && OnlyFolders(below) && forall x | x in below :: Below(db, x, dead)
    requires y in Dependents(db, below)
    ensures y in db && y.table == Folders && Below(db, y, dead)
  {
    TakenIsDependent(db, below, y);
    BelowParent(db, y, RowId(Folders, db[y].refs[ParentId]), dead);
  }

  lemma FoldersBelowGo(db: Database, dead: set<RowId>)
    requires Integrity(db) && dead <= db.Keys && OnlyFolders(dead)
    ensures forall x | x in Closure(db, dead) :: x.table == Folders && Below(db, x, dead)
  {
    var below := set y | y in db && y.table == Folders && Below(db, y, dead);
    forall y | y in dead
      ensures y in below
    {
      BelowItself(db, y, dead);
    }
    forall y | y in Dependents(db, below)
      ensures y in below
    {
      TakenBelow(db, dead, below, y);
    }
    ClosureIsLeast(db, dead, below);
  }

  /** Deleting folders takes along exactly the folders below them, and nothing else. */
  lemma FoldersTakeFolders(db: Database, dead: set<RowId>, x: RowId)
    requires Integrity(db) && dead <= db.Keys && OnlyFolders(dead)
    ensures x in Closure(db, dead) <==> Below(db, x, dead)
    ensures x in Closure(db, dead) ==> x.table == Folders
  {
    FoldersBelowGo(db, dead);
    if Below(db, x, dead) {
      var chain :| chain != [] && ParentChain(db, chain) && chain[0] == x && chain[|chain| - 1] in dead;
      ChainGoes(db, dead, chain);
    }
  }

  /** Tables whose rows no other row is deleted with. */
  predicate Leaf(t: Table) {
    || t.Statuses? || t.Priorities? || t.Environments? || t.TestPlans?
    || t.TestExecutions? || t.ValidationIssues? || t.ValidationReports?
  }

  /** Deleting statuses, priorities, environments, plans, executions, issues or reports takes
      nothing along. */
  lemma LeavesTakeNothing(db: Database, dead: set<RowId>)
    requires Integrity(db) && dead <= db.Keys && forall x | x in dead :: Leaf(x.table)
    ensures Closure(db, dead) == dead
  {
    forall y | y in db
      ensures y !in Dependents(db, dead)
    {
      TakenIsDependent(db, dead, y);
    }
    ClosureIsLeast(db, dead, dead);
  }

  // ---- What stays ----

  /** The nullable references that a row loses when their targets go. */
  ghost predicate Nulled(db: Database, gone: set<RowId>, x: RowId, c: Column)
    requires x in db
  {
    match c
    case FolderId => LosesById(db, gone, x, c, Folders)
    case PriorityId => LosesById(db, gone, x, c, Priorities)
    case EnvironmentId => LosesById(db, gone, x, c, Environments)
    case _ => false
  }

  /** A row that stays keeps everything but the references to a folder, a priority or an
      environment that goes. */
  lemma StaysWith(db: Database, dead: set<RowId>, x: RowId)
    requires dead <= db.Keys
    ensures x in Without(db, dead) <==> x in db && x !in Closure(db, dead)
    ensures x in Without(db, dead) ==>
      var row := Without(db, dead)[x];
      && row.key == db[x].key && row.fields == db[x].fields
      && (forall c :: c in row.refs <==> c in db[x].refs && !Nulled(db, Closure(db, dead), x, c))
      && (forall c | c in row.refs :: row.refs[c] == db[x].refs[c])
  {
    if x in Without(db, dead) {
      forall c | c in db[x].refs
        ensures LosesTarget(db, Closure(db, dead), c, db[x].refs[c]) <==> Nulled(db, Closure(db, dead), x, c)
      {
        LosesTargetGone(db, Closure(db, dead), x, c);
      }
    }
  }

  // ---- INSERT OR REPLACE, in the schema's terms ----

  /** Tables with a UNIQUE key: projects, test cases, cycles and plans. */
  predicate Keyed(t: Table) {
    t.Projects? || t.TestCases? || t.TestCycles? || t.TestPlans?
  }

  /** A replacement removes the old rows of its table with the same id, or the same key in
      a keyed table. */
  lemma ReplacesSameIdOrKey(db: Database, rid: RowId, row: Row, y: RowId)
    requires InsertOrReplace(db, rid, row).Committed? && y in db && y.table == rid.table && y != rid
    requires Keyed(rid.table) && db[y].key == row.key
    ensures y !in InsertOrReplace(db, rid, row).db && InsertOrReplace(db, rid, row).db[rid] == row
  {
    assert y in Conflicts(db, rid, row);
  }

  lemma ConflictsNamed(db: Database, rid: RowId, row: Row, y: RowId)
    ensures y in Conflicts(db, rid, row) <==>
      y in db && y.table == rid.table && (y.id == rid.id || (Keyed(rid.table) && db[y].key == row.key))
  {
  }

  ghost predicate HasId(db: Database, t: Table, id: string) {
    RowId(t, id) in db
  }

  ghost predicate KeyStored(db: Database, t: Table, key: string) {
    exists y :: y in db && y.table == t && db[y].key == key
  }

  /** The value `v` of foreign key `c`, whichever it is, is that of a stored row. */
  ghost predicate Found(db: Database, c: Column, v: string) {
    match c
    case ProjectKey => KeyStored(db, Projects, v)
    case ParentId | FolderId => HasId(db, Folders, v)
    case PriorityId => HasId(db, Priorities, v)
    case EnvironmentId => HasId(db, Environments, v)
    case TestCaseKey => KeyStored(db, TestCases, v)
    case CycleId => HasId(db, TestCycles, v)
    case RuleId => HasId(db, ValidationRules, v)
  }

  lemma FoundResolves(db: Database, c: Column, v: string)
    ensures Resolves(db, c, v) <==> Found(db, c, v)
  {
    var y := RowId(Referenced(c), v);
    if y in db && !ByKey(c) {
      assert Points(c, v, y, db[y]);
    }
  }

  /** A row is accepted exactly when its foreign keys are those of rows that are there after
      the replacement, itself included. */
  lemma AcceptedIff(db: Database, rid: RowId, row: Row)
    ensures InsertOrReplace(db, rid, row).Committed? <==>
      forall c | c in row.refs :: Found(Without(db, Conflicts(db, rid, row))[rid := row], c, row.refs[c])
  {
    var after := Without(db, Conflicts(db, rid, row))[rid := row];
    forall c | c in row.refs
      ensures Resolves(after, c, row.refs[c]) <==> Found(after, c, row.refs[c])
    {
      FoundResolves(after, c, row.refs[c]);
    }
  }

  /** The reference is to a folder that is in `dead`, or below one that is. */
  ghost predicate FolderBelow(db: Database, c: Column, v: string, dead: set<RowId>) {
    c == FolderId && Below(db, RowId(Folders, v), dead)
  }

  lemma OnlyFolderNulled(db: Database, dead: set<RowId>, x: RowId, c: Column)
    requires Integrity(db) && dead <= db.Keys && OnlyFolders(dead) && x in db && c in db[x].refs
    ensures Nulled(db, Closure(db, dead), x, c) <==> FolderBelow(db, c, db[x].refs[c], dead)
  {
    FoldersBelowGo(db, dead);
    FoldersTakeFolders(db, dead, RowId(Folders, db[x].refs[c]));
  }

  /** Deleting folders leaves all other rows, with all that they hold but the references to
      those folders and the ones below them. */
  lemma FoldersLeave(db: Database, dead: set<RowId>, x: RowId)
    requires Integrity(db) && dead <= db.Keys && OnlyFolders(dead) && x in db && x.table != Folders
    ensures x in Without(db, dead)
    ensures var row := Without(db, dead)[x];
      && row.key == db[x].key && row.fields == db[x].fields
      && (forall c :: c in row.refs <==> (c in db[x].refs && !FolderBelow(db, c, db[x].refs[c], dead)))
      && (forall c | c in row.refs :: row.refs[c] == db[x].refs[c])
  {
    FoldersBelowGo(db, dead);
    StaysWith(db, dead, x);
    forall c | c in db[x].refs
      ensures Nulled(db, Closure(db, dead), x, c) <==> FolderBelow(db, c, db[x].refs[c], dead)
    {
      OnlyFolderNulled(db, dead, x, c);
    }
  }

  /** Saving a stored folder again costs exactly the folders below it.  Test cases, cycles and
      all other rows stay, and lose their folder exactly when it was one of these. */
  lemma FolderSavedAgain(db: Database, rid: RowId, row: Row, x: RowId)
    requires Integrity(db) && rid in db && rid.table == Folders && InsertOrReplace(db, rid, row).Committed?
    requires x in db && x != rid
    ensures var after := InsertOrReplace(db, rid, row).db;
      && (x in after <==> !Below(db, x, {rid}))
      && (x.table != Folders ==>
            && x in after && after[x].key == db[x].key && after[x].fields == db[x].fields
            && (forall c :: c in after[x].refs <==> (c in db[x].refs && !FolderBelow(db, c, db[x].refs[c], {rid})))
            && (forall c | c in after[x].refs :: after[x].refs[c] == db[x].refs[c]))
  {
    assert Conflicts(db, rid, row) == {rid};
    StaysWith(db, {rid}, x);
    FoldersTakeFolders(db, {rid}, x);
    if x.table != Folders {
      FoldersLeave(db, {rid}, x);
    }
  }
}
