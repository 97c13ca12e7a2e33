/** What an import stores can be read back as it was fetched. */
module ReadBack {
  import opened Wrappers
  import opened Schema
  import opened Store
  import opened FolderOrder
  import opened StableSort
  import opened ProjectImport
  import opened ImportTheorems

  /** A nullable column. */
  function Ref(row: Row, c: Column): Option<string> {
    if c in row.refs then Some(row.refs[c]) else None
  }

  ghost predicate OfProject(row: Row, key: string) {
    ProjectKey in row.refs && row.refs[ProjectKey] == key
  }

  ghost predicate HoldsFolder(db: Database, key: string, f: Folder) {
    var x := RowId(Folders, f.id);
    x in db && OfProject(db[x], key) && f == Folder(x.id, db[x].fields, Ref(db[x], ParentId))
  }

  ghost predicate HoldsLookup(db: Database, key: string, t: Table, l: Lookup) {
    var x := RowId(t, l.id);
    x in db && OfProject(db[x], key) && l == Lookup(x.id, db[x].fields)
  }

  ghost predicate HoldsCase(db: Database, key: string, t: TestCase) {
    var x := RowId(TestCases, t.id);
    x in db && OfProject(db[x], key) && t == TestCase(x.id, db[x].key, db[x].fields, Ref(db[x], PriorityId), Ref(db[x], FolderId))
  }

  ghost predicate HoldsCycle(db: Database, key: string, t: TestCycle) {
    var x := RowId(TestCycles, t.id);
    x in db && OfProject(db[x], key) && t == TestCycle(x.id, db[x].key, db[x].fields, Ref(db[x], FolderId))
  }

  ghost predicate HoldsExecution(db: Database, key: string, e: Execution) {
    var x := RowId(TestExecutions, e.id);
    && x in db && OfProject(db[x], key) && TestCaseKey in db[x].refs && CycleId in db[x].refs
    && e == Execution(x.id, db[x].fields, db[x].refs[TestCaseKey], db[x].refs[CycleId], Ref(db[x], EnvironmentId))
  }

  /** Every fetched item is read back with its id, its key, its columns and its references. */
  ghost predicate HoldsFetch(db: Database, key: string, fetch: Fetch) {
    && (forall f | f in fetch.folders.Items() :: HoldsFolder(db, key, f))
    && (forall l | l in fetch.statuses.Items() :: HoldsLookup(db, key, Statuses, l))
    && (forall l | l in fetch.priorities.Items() :: HoldsLookup(db, key, Priorities, l))
    && (forall l | l in fetch.environments.Items() :: HoldsLookup(db, key, Environments, l))
    && (forall t | t in fetch.cases.Items() :: HoldsCase(db, key, t))
    && (forall t | t in fetch.cycles.Items() :: HoldsCycle(db, key, t))
    && (forall e | e in fetch.executions.Items() :: HoldsExecution(db, key, e))
  }

  ghost predicate HoldsSection(db: Database, key: string, fetch: Fetch, n: nat)
    requires n < |ORDER|
  {
    forall it | it in RowsOf(ORDER[n], fetch, key) :: it.rid in db && db[it.rid] == it.row
  }

  lemma SectionHeld(db: Database, key: string, fetch: Fetch, n: nat)
    requires Integrity(db) && Consistent(fetch, key) && ProjectAvailable(db, key, fetch.project) && n < |ORDER|
    ensures HoldsSection(Import(db, key, fetch).db, key, fetch, n)
  {
    SectionInside(n, |ORDER|, fetch, key);
    forall it | it in RowsOf(ORDER[n], fetch, key)
      ensures it.rid in Import(db, key, fetch).db && Import(db, key, fetch).db[it.rid] == it.row
    {
      FetchIsStored(db, key, fetch, it);
    }
  }

  lemma FoldersRead(db: Database, key: string, fetch: Fetch)
    requires HoldsSection(db, key, fetch, 0)
    ensures forall f | f in fetch.folders.Items() :: HoldsFolder(db, key, f)
  {
    forall f | f in fetch.folders.Items()
      ensures HoldsFolder(db, key, f)
    {
      SameMembers(fetch.folders.Items(), IdLength, f);
      assert FolderItem(f, key) in RowsOf(ORDER[0], fetch, key);
    }
  }

  lemma LookupsRead(db: Database, key: string, fetch: Fetch)
    requires HoldsSection(db, key, fetch, 1) && HoldsSection(db, key, fetch, 2) && HoldsSection(db, key, fetch, 3)
    ensures forall l | l in fetch.statuses.Items() :: HoldsLookup(db, key, Statuses, l)
    ensures forall l | l in fetch.priorities.Items() :: HoldsLookup(db, key, Priorities, l)
    ensures forall l | l in fetch.environments.Items() :: HoldsLookup(db, key, Environments, l)
  {
    forall l | l in fetch.statuses.Items()
      ensures HoldsLookup(db, key, Statuses, l)
    {
      assert LookupItem(Statuses, l, key) in RowsOf(ORDER[1], fetch, key);
    }
    forall l | l in fetch.priorities.Items()
      ensures HoldsLookup(db, key, Priorities, l)
    {
      assert LookupItem(Priorities, l, key) in RowsOf(ORDER[2], fetch, key);
    }
    forall l | l in fetch.environments.Items()
      ensures HoldsLookup(db, key, Environments, l)
    {
      assert LookupItem(Environments, l, key) in RowsOf(ORDER[3], fetch, key);
    }
  }

  lemma CasesRead(db: Database, key: string, fetch: Fetch)
    requires HoldsSection(db, key, fetch, 4)
    ensures forall t | t in fetch.cases.Items() :: HoldsCase(db, key, t)
  {
    forall t | t in fetch.cases.Items()
      ensures HoldsCase(db, key, t)
    {
      assert CaseItem(t, key) in RowsOf(ORDER[4], fetch, key);
    }
  }

  lemma CyclesRead(db: Database, key: string, fetch: Fetch)
    requires HoldsSection(db, key, fetch, 5)
    ensures forall t | t in fetch.cycles.Items() :: HoldsCycle(db, key, t)
  {
    forall t | t in fetch.cycles.Items()
      ensures HoldsCycle(db, key, t)
    {
      assert CycleItem(t, key) in RowsOf(ORDER[5], fetch, key);
    }
  }

  lemma ExecutionsRead(db: Database, key: string, fetch: Fetch)
    requires HoldsSection(db, key, fetch, 6)
    ensures forall e | e in fetch.executions.Items() :: HoldsExecution(db, key, e)
  {
    forall e | e in fetch.executions.Items()
      ensures HoldsExecution(db, key, e)
    {
      assert ExecutionItem(e, key) in RowsOf(ORDER[6], fetch, key);
    }
  }

  /** After the import of a consistent fetch, over any database, everything that was fetched
      is read back as it was. */
  lemma FetchIsReadBack(db: Database, key: string, fetch: Fetch)
    requires Integrity(db) && Consistent(fetch, key) && ProjectAvailable(db, key, fetch.project)
    ensures HoldsFetch(Import(db, key, fetch).db, key, fetch)
  {
    var after := Import(db, key, fetch).db;
    forall n | 0 <= n < |ORDER|
      ensures HoldsSection(after, key, fetch, n)
    {
      SectionHeld(db, key, fetch, n);
    }
    FoldersRead(after, key, fetch);
    LookupsRead(after, key, fetch);
    CasesRead(after, key, fetch);
    CyclesRead(after, key, fetch);
    ExecutionsRead(after, key, fetch);
  }

  /** And so is the project, if it was fetched. */
  lemma ProjectIsReadBack(db: Database, key: string, fetch: Fetch)
    requires Integrity(db) && Consistent(fetch, key) && ProjectAvailable(db, key, fetch.project)
    requires ProjectReplaced(fetch.project)
    ensures var p, after := fetch.project.items[0], Import(db, key, fetch).db;
      var x := RowId(Projects, p.id);
      x in after && p == Project(x.id, after[x].key, after[x].fields)
  {
    var anchor := ImportSucceeds(db, key, fetch);
    HeldRow(Import(db, key, fetch).db, [anchor] + Rows(fetch, key), anchor);
  }

  /** Placeholders for different projects are different rows, and carry the project's key. */
  lemma PlaceholdersDiffer(a: string, b: string)
    ensures ProjectItem(Placeholder(a)).rid == RowId(Projects, "placeholder_" + a)
    ensures a != b ==> ProjectItem(Placeholder(a)).rid != ProjectItem(Placeholder(b)).rid
    ensures ProjectItem(Placeholder(a)).row.key == a
  {
    assert ("placeholder_" + a)[12..] == a && ("placeholder_" + b)[12..] == b;
  }

  // ---- The numbers reported ----

  ghost predicate Counted<T>(counts: map<Table, nat>, t: Table, fetched: Fetched<T>) {
    if fetched.Fetched? then t in counts && counts[t] == |fetched.items| else t !in counts
  }

  lemma {:induction false} NotCounted(t: Table, n: nat, key: string, fetch: Fetch)
    requires n <= |ORDER| && t != Projects && !WasFetched(t, fetch)
    ensures t !in Counts(n, key, fetch)
  {
    if n > 0 {
      NotCounted(t, n - 1, key, fetch);
    }
  }

  lemma CountsSection(i: nat, key: string, fetch: Fetch)
    requires i < |ORDER|
    ensures var counts := Counts(|ORDER|, key, fetch);
      if WasFetched(ORDER[i], fetch) then ORDER[i] in counts && counts[ORDER[i]] == |RowsOf(ORDER[i], fetch, key)|
      else ORDER[i] !in counts
  {
    if WasFetched(ORDER[i], fetch) {
      CountsAt(i, |ORDER|, key, fetch);
    } else {
      TablesOnce(i);
      NotCounted(ORDER[i], |ORDER|, key, fetch);
    }
  }

  lemma {:induction false} ProjectCounted(n: nat, key: string, fetch: Fetch)
    requires n <= |ORDER|
    ensures if fetch.project.NotRequested? || (fetch.project.Fetched? && fetch.project.items != [])
            then Projects in Counts(n, key, fetch) && Counts(n, key, fetch)[Projects] == 1
            else Projects !in Counts(n, key, fetch)
  {
    if n > 0 {
      ProjectCounted(n - 1, key, fetch);
      TablesOnce(n - 1);
    }
  }

  /** An import reports, for each kind that was fetched, how many items it was given; and one
      project, unless fetching it failed or found nothing. */
  lemma CountsAreLengths(key: string, fetch: Fetch)
    ensures var counts := Counts(|ORDER|, key, fetch);
      && Counted(counts, Folders, fetch.folders) && Counted(counts, Statuses, fetch.statuses)
      && Counted(counts, Priorities, fetch.priorities) && Counted(counts, Environments, fetch.environments)
      && Counted(counts, TestCases, fetch.cases) && Counted(counts, TestCycles, fetch.cycles)
      && Counted(counts, TestExecutions, fetch.executions)
  {
    SortSorts(fetch.folders.Items(), IdLength);
    CountsSection(0, key, fetch);
    CountsSection(1, key, fetch);
    CountsSection(2, key, fetch);
    CountsSection(3, key, fetch);
    CountsSection(4, key, fetch);
    CountsSection(5, key, fetch);
    CountsSection(6, key, fetch);
  }
}
