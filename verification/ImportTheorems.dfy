/** What an import guarantees, for every database it starts from. */
module ImportTheorems {
  import opened Wrappers
  import opened Schema
  import opened Store
  import opened FolderOrder
  import opened StableSort
  import opened ProjectImport

  // ---- When a fetch can be imported ----

  /** No two fetched items of a kind share an id or a key. */
  ghost predicate NoDuplicates(fetch: Fetch, key: string) {
    forall t | t in ORDER :: Distinct(RowsOf(t, fetch, key))
  }

  /** References between the fetched items resolve, and parents have shorter ids. */
  ghost predicate References(fetch: Fetch) {
    ParentsShorter(fetch.folders.Items()) && OtherReferences(fetch)
  }

  /** References other than those from folder to folder resolve. */
  ghost predicate OtherReferences(fetch: Fetch) {
    && (forall c | c in fetch.cases.Items() :: FolderFetched(c.folder, fetch) && LookupFetched(c.priority, fetch.priorities))
    && (forall c | c in fetch.cycles.Items() :: FolderFetched(c.folder, fetch))
    && (forall e | e in fetch.executions.Items() ::
          && LookupFetched(e.environment, fetch.environments)
          && (exists c :: c in fetch.cases.Items() && c.key == e.caseKey)
          && (exists c :: c in fetch.cycles.Items() && c.id == e.cycleId))
  }

  ghost predicate Consistent(fetch: Fetch, key: string) {
    NoDuplicates(fetch, key) && References(fetch)
  }

  ghost predicate FolderFetched(id: Option<string>, fetch: Fetch) {
    id.Some? ==> exists f :: f in fetch.folders.Items() && f.id == id.value
  }

  ghost predicate LookupFetched(id: Option<string>, among: Fetched<Lookup>) {
    id.Some? ==> exists l :: l in among.Items() && l.id == id.value
  }

  /** A project row with the import's key is fetched, or stored already, or can be put in. */
  ghost predicate ProjectAvailable(db: Database, key: string, project: Fetched<Project>) {
    if project.Fetched? && project.items != [] then project.items[0].key == key
    else
      || Resolves(db, ProjectKey, key)
      || (project.NotRequested? && ProjectItem(Placeholder(key)).rid !in db)
  }

  ghost predicate ProjectReplaced(project: Fetched<Project>) {
    project.Fetched? && project.items != []
  }

  // ---- A consistent fetch gives a loadable sequence of rows ----

  predicate AllIn(items: seq<Item>, t: Table) {
    forall i | 0 <= i < |items| :: items[i].rid.table == t
  }

  ghost predicate HasTarget(items: seq<Item>, c: Column, v: string) {
    exists it :: it in items && Points(c, v, it.rid, it.row)
  }

  lemma AppendSection(all: seq<Item>, section: seq<Item>, t: Table)
    requires Loadable(all) && Distinct(section) && AllShaped(section)
    requires AllIn(section, t) && forall it | it in all :: it.rid.table != t
    requires forall k, c | 0 <= k < |section| && c in section[k].row.refs ::
      || HasTarget(all, c, section[k].row.refs[c])
      || HasTarget(section[..k + 1], c, section[k].row.refs[c])
    ensures Loadable(all + section)
  {
    var both := all + section;
    AppendDistinct(all, section, t);
    forall k | 0 <= k < |both|
      ensures RefsReachBack(both, k)
    {
      if k < |all| {
        assert RefsReachBack(all, k);
        forall c | c in both[k].row.refs
          ensures exists i :: 0 <= i <= k && Points(c, both[k].row.refs[c], both[i].rid, both[i].row)
        {
          var i :| 0 <= i <= k && Points(c, all[k].row.refs[c], all[i].rid, all[i].row);
          assert both[i] == all[i];
        }
      } else {
        var j := k - |all|;
        forall c | c in both[k].row.refs
          ensures exists i :: 0 <= i <= k && Points(c, both[k].row.refs[c], both[i].rid, both[i].row)
        {
          TargetIndex(all, section, j, c);
        }
      }
    }
  }

  lemma AppendDistinct(all: seq<Item>, section: seq<Item>, t: Table)
    requires Distinct(all) && AllShaped(all) && Distinct(section) && AllShaped(section)
    requires AllIn(section, t) && forall it | it in all :: it.rid.table != t
    ensures Distinct(all + section) && AllShaped(all + section)
  {
  }

  lemma TargetIndex(all: seq<Item>, section: seq<Item>, j: nat, c: Column)
    requires j < |section| && c in section[j].row.refs
    requires HasTarget(all, c, section[j].row.refs[c]) || HasTarget(section[..j + 1], c, section[j].row.refs[c])
    ensures exists i :: 0 <= i <= |all| + j && Points(c, section[j].row.refs[c], (all + section)[i].rid, (all + section)[i].row)
  {
    var v := section[j].row.refs[c];
    if HasTarget(all, c, v) {
      var it :| it in all && Points(c, v, it.rid, it.row);
      var i :| 0 <= i < |all| && all[i] == it;
      assert (all + section)[i] == it;
    } else {
      var it :| it in section[..j + 1] && Points(c, v, it.rid, it.row);
      var i :| 0 <= i < j + 1 && section[i] == it;
      assert (all + section)[|all| + i] == it;
    }
  }

  lemma {:induction false} SectionInside(i: nat, n: nat, fetch: Fetch, key: string)
    requires i < n <= |ORDER|
    ensures forall it | it in RowsOf(ORDER[i], fetch, key) :: it in RowsUpTo(n, fetch, key)
  {
    if i < n - 1 {
      SectionInside(i, n - 1, fetch, key);
    }
  }

  predicate WellMade(it: Item, key: string) {
    Shaped(it.rid, it.row) && ProjectKey in it.row.refs && it.row.refs[ProjectKey] == key
  }

  lemma SectionItems(t: Table, fetch: Fetch, key: string)
    ensures forall it | it in RowsOf(t, fetch, key) :: it.rid.table == t && WellMade(it, key)
  {
    var rows := RowsOf(t, fetch, key);
    forall i | 0 <= i < |rows|
      ensures rows[i].rid.table == t && WellMade(rows[i], key)
    {
      match t
      case Folders => assert rows[i] == FolderItem(SortByIdLength(fetch.folders.Items())[i], key);
      case TestCases => assert rows[i] == CaseItem(fetch.cases.Items()[i], key);
      case TestCycles => assert rows[i] == CycleItem(fetch.cycles.Items()[i], key);
      case TestExecutions => assert rows[i] == ExecutionItem(fetch.executions.Items()[i], key);
      case _ =>
    }
  }

  lemma {:induction false} RowsUpToTables(n: nat, fetch: Fetch, key: string)
    requires n <= |ORDER|
    ensures forall it | it in RowsUpTo(n, fetch, key) ::
      it.rid.table in ORDER[..n] && it in RowsOf(it.rid.table, fetch, key) && WellMade(it, key)
  {
    if n > 0 {
      RowsUpToTables(n - 1, fetch, key);
      SectionItems(ORDER[n - 1], fetch, key);
      forall it | it in RowsUpTo(n, fetch, key)
        ensures it.rid.table in ORDER[..n] && it in RowsOf(it.rid.table, fetch, key) && WellMade(it, key)
      {
        if it !in RowsUpTo(n - 1, fetch, key) {
          assert it in RowsOf(ORDER[n - 1], fetch, key);
          assert ORDER[n - 1] in ORDER[..n];
        } else {
          assert ORDER[..n - 1] <= ORDER[..n];
        }
      }
    }
  }

  lemma FolderRefs(fetch: Fetch, key: string, k: nat, c: Column)
    requires Consistent(fetch, key) && k < |RowsOf(Folders, fetch, key)|
    requires c in RowsOf(Folders, fetch, key)[k].row.refs && c != ProjectKey
    ensures HasTarget(RowsOf(Folders, fetch, key)[..k + 1], c, RowsOf(Folders, fetch, key)[k].row.refs[c])
  {
    var rows := RowsOf(Folders, fetch, key);
    var s := SortByIdLength(fetch.folders.Items());
    SortPutsParentsFirstIff(fetch.folders.Items());
    var i :| 0 <= i <= k && s[i].id == s[k].parent.value;
    assert rows[i] == FolderItem(s[i], key) && rows[i] in rows[..k + 1];
  }

  lemma InRows(i: nat, it: Item, n: nat, fetch: Fetch, key: string, c: Column, v: string)
    requires i < n <= |ORDER| && it in RowsOf(ORDER[i], fetch, key) && Points(c, v, it.rid, it.row)
    ensures HasTarget(RowsUpTo(n, fetch, key), c, v)
  {
    SectionInside(i, n, fetch, key);
  }

  lemma FolderTarget(fetch: Fetch, key: string, id: Option<string>, n: nat)
    requires id.Some? && FolderFetched(id, fetch) && 1 <= n <= |ORDER|
    ensures HasTarget(RowsUpTo(n, fetch, key), FolderId, id.value)
  {
    var f :| f in fetch.folders.Items() && f.id == id.value;
    SameMembers(fetch.folders.Items(), IdLength, f);
    InRows(0, FolderItem(f, key), n, fetch, key, FolderId, id.value);
  }

  lemma LookupTarget(fetch: Fetch, key: string, id: Option<string>, among: Fetched<Lookup>, i: nat, c: Column, n: nat)
    requires id.Some? && LookupFetched(id, among) && i < n <= |ORDER|
    requires (c == PriorityId && i == 2 && among == fetch.priorities) || (c == EnvironmentId && i == 3 && among == fetch.environments)
    ensures HasTarget(RowsUpTo(n, fetch, key), c, id.value)
  {
    var l :| l in among.Items() && l.id == id.value;
    InRows(i, LookupItem(ORDER[i], l, key), n, fetch, key, c, id.value);
  }

  lemma CaseTarget(fetch: Fetch, key: string, t: TestCase, n: nat)
    requires t in fetch.cases.Items() && 5 <= n <= |ORDER|
    ensures HasTarget(RowsUpTo(n, fetch, key), TestCaseKey, t.key)
  {
    InRows(4, CaseItem(t, key), n, fetch, key, TestCaseKey, t.key);
  }

  lemma CycleTarget(fetch: Fetch, key: string, t: TestCycle, n: nat)
    requires t in fetch.cycles.Items() && 6 <= n <= |ORDER|
    ensures HasTarget(RowsUpTo(n, fetch, key), CycleId, t.id)
  {
    InRows(5, CycleItem(t, key), n, fetch, key, CycleId, t.id);
  }

  lemma CaseRefs(fetch: Fetch, key: string, t: TestCase, c: Column)
    requires References(fetch) && t in fetch.cases.Items()
    requires c in CaseItem(t, key).row.refs && c != ProjectKey
    ensures HasTarget(RowsUpTo(4, fetch, key), c, CaseItem(t, key).row.refs[c])
  {
    if c == FolderId {
      FolderTarget(fetch, key, t.folder, 4);
    } else {
      LookupTarget(fetch, key, t.priority, fetch.priorities, 2, PriorityId, 4);
    }
  }

  lemma CycleRefs(fetch: Fetch, key: string, t: TestCycle, c: Column)
    requires References(fetch) && t in fetch.cycles.Items()
    requires c in CycleItem(t, key).row.refs && c != ProjectKey
    ensures HasTarget(RowsUpTo(5, fetch, key), c, CycleItem(t, key).row.refs[c])
  {
    FolderTarget(fetch, key, t.folder, 5);
  }

  lemma ExecutionRefs(fetch: Fetch, key: string, e: Execution, c: Column)
    requires References(fetch) && e in fetch.executions.Items()
    requires c in ExecutionItem(e, key).row.refs && c != ProjectKey
    ensures HasTarget(RowsUpTo(6, fetch, key), c, ExecutionItem(e, key).row.refs[c])
  {
    if c == TestCaseKey {
      var t :| t in fetch.cases.Items() && t.key == e.caseKey;
      CaseTarget(fetch, key, t, 6);
    } else if c == CycleId {
      var t :| t in fetch.cycles.Items() && t.id == e.cycleId;
      CycleTarget(fetch, key, t, 6);
    } else {
      LookupTarget(fetch, key, e.environment, fetch.environments, 3, EnvironmentId, 6);
    }
  }

  lemma OriginOfCase(fetch: Fetch, key: string, it: Item) returns (t: TestCase)
    requires it in RowsOf(TestCases, fetch, key)
    ensures t in fetch.cases.Items() && CaseItem(t, key) == it
  {
    var i :| 0 <= i < |fetch.cases.Items()| && CaseItem(fetch.cases.Items()[i], key) == it;
    t := fetch.cases.Items()[i];
  }

  lemma OriginOfCycle(fetch: Fetch, key: string, it: Item) returns (t: TestCycle)
    requires it in RowsOf(TestCycles, fetch, key)
    ensures t in fetch.cycles.Items() && CycleItem(t, key) == it
  {
    var i :| 0 <= i < |fetch.cycles.Items()| && CycleItem(fetch.cycles.Items()[i], key) == it;
    t := fetch.cycles.Items()[i];
  }

  lemma OriginOfExecution(fetch: Fetch, key: string, it: Item) returns (e: Execution)
    requires it in RowsOf(TestExecutions, fetch, key)
    ensures e in fetch.executions.Items() && ExecutionItem(e, key) == it
  {
    var i :| 0 <= i < |fetch.executions.Items()| && ExecutionItem(fetch.executions.Items()[i], key) == it;
    e := fetch.executions.Items()[i];
  }

  lemma LookupsHaveNoOtherRefs(fetch: Fetch, key: string, t: Table, it: Item)
    requires t in [Statuses, Priorities, Environments] && it in RowsOf(t, fetch, key)
    ensures it.row.refs.Keys == {ProjectKey}
  {
  }

  /** A row of a section beyond the folders refers to rows of earlier sections. */
  lemma SectionRefs(fetch: Fetch, key: string, n: nat, it: Item, c: Column)
    requires References(fetch) && 1 <= n < |ORDER| && it in RowsOf(ORDER[n], fetch, key)
    requires c in it.row.refs && c != ProjectKey
    ensures HasTarget(RowsUpTo(n, fetch, key), c, it.row.refs[c])
  {
    if n == 4 {
      var t := OriginOfCase(fetch, key, it);
      CaseRefs(fetch, key, t, c);
    } else if n == 5 {
      var t := OriginOfCycle(fetch, key, it);
      CycleRefs(fetch, key, t, c);
    } else if n == 6 {
      var e := OriginOfExecution(fetch, key, it);
      ExecutionRefs(fetch, key, e, c);
    } else {
      LookupsHaveNoOtherRefs(fetch, key, ORDER[n], it);
    }
  }

  lemma SectionReaches(anchor: Item, fetch: Fetch, key: string, n: nat, k: nat, c: Column)
    requires Consistent(fetch, key) && n < |ORDER| && k < |RowsOf(ORDER[n], fetch, key)|
    requires anchor.rid.table == Projects && anchor.row.key == key
    requires c in RowsOf(ORDER[n], fetch, key)[k].row.refs
    ensures var section := RowsOf(ORDER[n], fetch, key);
      || HasTarget([anchor] + RowsUpTo(n, fetch, key), c, section[k].row.refs[c])
      || HasTarget(section[..k + 1], c, section[k].row.refs[c])
  {
    var it := RowsOf(ORDER[n], fetch, key)[k];
    if c == ProjectKey {
      SectionItems(ORDER[n], fetch, key);
      assert WellMade(it, key);
      assert anchor in [anchor] + RowsUpTo(n, fetch, key);
    } else if n == 0 {
      FolderRefs(fetch, key, k, c);
    } else {
      SectionRefs(fetch, key, n, it, c);
      var y :| y in RowsUpTo(n, fetch, key) && Points(c, it.row.refs[c], y.rid, y.row);
      assert y in [anchor] + RowsUpTo(n, fetch, key);
    }
  }

  lemma MembersShape(section: seq<Item>, t: Table, key: string)
    requires forall it | it in section :: it.rid.table == t && WellMade(it, key)
    ensures AllIn(section, t) && AllShaped(section)
  {
    forall i | 0 <= i < |section|
      ensures section[i].rid.table == t && WellMade(section[i], key)
    {
      assert section[i] in section;
    }
  }

  lemma TablesOnce(n: nat)
    requires n < |ORDER|
    ensures ORDER[n] !in ORDER[..n] && ORDER[n] != Projects && ORDER[n] in ORDER
  {
  }

  lemma SectionShape(fetch: Fetch, key: string, n: nat)
    requires n < |ORDER|
    ensures AllIn(RowsOf(ORDER[n], fetch, key), ORDER[n]) && AllShaped(RowsOf(ORDER[n], fetch, key))
    ensures forall it | it in RowsUpTo(n, fetch, key) :: it.rid.table != ORDER[n]
    ensures ORDER[n] != Projects && ORDER[n] in ORDER
  {
    SectionItems(ORDER[n], fetch, key);
    MembersShape(RowsOf(ORDER[n], fetch, key), ORDER[n], key);
    RowsUpToTables(n, fetch, key);
    TablesOnce(n);
  }

  lemma SectionAppends(anchor: Item, fetch: Fetch, key: string, n: nat)
    requires Consistent(fetch, key) && n < |ORDER|
    requires anchor.rid.table == Projects && anchor.row.key == key
    requires Loadable([anchor] + RowsUpTo(n, fetch, key))
    ensures Loadable([anchor] + RowsUpTo(n, fetch, key) + RowsOf(ORDER[n], fetch, key))
  {
    var all, section := [anchor] + RowsUpTo(n, fetch, key), RowsOf(ORDER[n], fetch, key);
    SectionShape(fetch, key, n);
    forall k, c | 0 <= k < |section| && c in section[k].row.refs
      ensures HasTarget(all, c, section[k].row.refs[c]) || HasTarget(section[..k + 1], c, section[k].row.refs[c])
    {
      SectionReaches(anchor, fetch, key, n, k, c);
    }
    AppendSection(all, section, ORDER[n]);
  }

  lemma NextRows(anchor: Item, fetch: Fetch, key: string, n: nat, m: nat)
    requires n < |ORDER| && m == n + 1
    ensures [anchor] + RowsUpTo(m, fetch, key) == [anchor] + RowsUpTo(n, fetch, key) + RowsOf(ORDER[n], fetch, key)
  {
  }

  /** A consistent fetch, saved after its project's row, is a loadable sequence of rows. */
  lemma {:induction false} ConsistentIsLoadable(anchor: Item, fetch: Fetch, key: string, n: nat)
    requires Consistent(fetch, key) && n <= |ORDER|
    requires anchor.rid.table == Projects && anchor.row.refs == map[] && anchor.row.key == key
    ensures Loadable([anchor] + RowsUpTo(n, fetch, key))
  {
    if n == 0 {
      assert [anchor] + RowsUpTo(0, fetch, key) == [anchor];
    } else {
      var m := n - 1;
      ConsistentIsLoadable(anchor, fetch, key, m);
      SectionAppends(anchor, fetch, key, m);
      NextRows(anchor, fetch, key, m, n);
    }
  }

  // ---- The import succeeds, stores exactly the fetch, and is idempotent ----

  /** The rows that the import relies on: the project's row and then the fetched ones. */
  ghost predicate Chain(db: Database, key: string, fetch: Fetch, anchor: Item) {
    && anchor.rid.table == Projects && anchor.row.refs == map[] && anchor.row.key == key
    && if ProjectReplaced(fetch.project) then anchor == ProjectItem(fetch.project.items[0])
       else anchor.rid in db && db[anchor.rid] == anchor.row
  }

  /** Where an import has brought the database: the chain is stored exactly, and no other row
      refers to a fetched one (nor to the project, if its row was replaced). */
  ghost predicate Imported(db: Database, key: string, fetch: Fetch, anchor: Item) {
    Settled(db, [anchor] + Rows(fetch, key), if ProjectReplaced(fetch.project) then 0 else 1)
  }

  lemma ProjectSaved(db: Database, key: string, project: Fetched<Project>) returns (anchor: Item)
    requires Integrity(db) && ProjectAvailable(db, key, project) && !ProjectReplaced(project)
    ensures var r := SaveProject(db, key, project);
      && r.ok && Integrity(r.db) && anchor.rid in r.db && r.db[anchor.rid] == anchor.row
    ensures anchor.rid.table == Projects && anchor.row.refs == map[] && anchor.row.key == key
  {
    var it := ProjectItem(Placeholder(key));
    if Resolves(db, ProjectKey, key) {
      var y :| y in db && Points(ProjectKey, key, y, db[y]);
      assert y in Conflicts(db, it.rid, it.row);
      anchor := Item(y, db[y]);
      assert Shaped(y, db[y]);
    } else {
      assert Conflicts(db, it.rid, it.row) == {};
      IgnoreKeepsIntegrity(db, it.rid, it.row);
      anchor := it;
    }
  }

  lemma ReplacedAsOneRun(db: Database, key: string, fetch: Fetch)
    requires ProjectReplaced(fetch.project)
    ensures Import(db, key, fetch) == SaveAll(db, [ProjectItem(fetch.project.items[0])] + Rows(fetch, key))
  {
    var first := [ProjectItem(fetch.project.items[0])];
    assert first[..0] == [];
    assert SaveAll(db, first) == Run(db, true).Then(first[0]);
    SaveAllSplits(db, first, Rows(fetch, key));
  }

  lemma SettledFromStart(db: Database, items: seq<Item>, a: nat)
    requires Integrity(db) && Loadable(items) && a <= |items| && Holds(db, items, a)
    ensures SaveAll(db, items[a..]).ok && Settled(SaveAll(db, items[a..]).db, items, a)
  {
    assert items[a..|items|] == items[a..];
    RangeIsSlice(db, items, a, |items|);
    SaveAllSucceeds(db, items, a, |items|);
  }

  /** An import of a consistent fetch never fails a foreign-key check, and ends with the
      fetch stored exactly and nothing else referring to it. */
  lemma ImportSucceeds(db: Database, key: string, fetch: Fetch) returns (anchor: Item)
    requires Integrity(db) && Consistent(fetch, key) && ProjectAvailable(db, key, fetch.project)
    ensures Import(db, key, fetch).ok
    ensures Imported(Import(db, key, fetch).db, key, fetch, anchor)
    ensures Chain(Import(db, key, fetch).db, key, fetch, anchor)
  {
    if ProjectReplaced(fetch.project) {
      anchor := ProjectItem(fetch.project.items[0]);
      ConsistentIsLoadable(anchor, fetch, key, |ORDER|);
      ReplacedAsOneRun(db, key, fetch);
      var items := [anchor] + Rows(fetch, key);
      SettledFromStart(db, items, 0);
      assert items[0..] == items;
    } else {
      anchor := ProjectSaved(db, key, fetch.project);
      ConsistentIsLoadable(anchor, fetch, key, |ORDER|);
      var items := [anchor] + Rows(fetch, key);
      SettledFromStart(SaveProject(db, key, fetch.project).db, items, 1);
      assert items[1..] == Rows(fetch, key);
      assert items[0] == anchor;
    }
  }

  lemma ImportOverImported(db: Database, key: string, fetch: Fetch, anchor: Item)
    requires Imported(db, key, fetch, anchor) && Chain(db, key, fetch, anchor)
    ensures Import(db, key, fetch) == Run(db, true)
  {
    var items := [anchor] + Rows(fetch, key);
    if ProjectReplaced(fetch.project) {
      ReplacedAsOneRun(db, key, fetch);
      ResaveIsIdentity(db, items, 0);
      assert items[0..] == items;
    } else {
      var it := ProjectItem(Placeholder(key));
      assert anchor.rid in Conflicts(db, it.rid, it.row);
      ResaveIsIdentity(db, items, 1);
      assert items[1..] == Rows(fetch, key);
    }
  }

  /** Importing the same fetch twice leaves the same database as importing it once,
      whatever was stored before and however the project row got there. */
  lemma ImportIsIdempotent(db: Database, key: string, fetch: Fetch)
    requires Integrity(db) && Consistent(fetch, key) && ProjectAvailable(db, key, fetch.project)
    ensures Import(Import(db, key, fetch).db, key, fetch) == Import(db, key, fetch)
  {
    var anchor := ImportSucceeds(db, key, fetch);
    ImportOverImported(Import(db, key, fetch).db, key, fetch, anchor);
  }

  lemma HeldRow(db: Database, items: seq<Item>, it: Item)
    requires Holds(db, items, |items|) && it in items
    ensures it.rid in db && db[it.rid] == it.row
  {
  }

  lemma ImportedHoldsRow(db: Database, key: string, fetch: Fetch, anchor: Item, it: Item)
    requires Imported(db, key, fetch, anchor) && it in Rows(fetch, key)
    ensures it.rid in db && db[it.rid] == it.row
  {
    HeldRow(db, [anchor] + Rows(fetch, key), it);
  }

  /** Every fetched row is stored exactly as fetched, on every path. */
  lemma FetchIsStored(db: Database, key: string, fetch: Fetch, it: Item)
    requires Integrity(db) && Consistent(fetch, key) && ProjectAvailable(db, key, fetch.project)
    requires it in Rows(fetch, key)
    ensures it.rid in Import(db, key, fetch).db && Import(db, key, fetch).db[it.rid] == it.row
  {
    var anchor := ImportSucceeds(db, key, fetch);
    ImportedHoldsRow(Import(db, key, fetch).db, key, fetch, anchor, it);
  }

  lemma OnlyFetchedRefer(db: Database, key: string, fetch: Fetch, anchor: Item, x: RowId)
    requires ProjectReplaced(fetch.project)
    requires Imported(db, key, fetch, anchor) && Chain(db, key, fetch, anchor)
    requires x in db && ProjectKey in db[x].refs && db[x].refs[ProjectKey] == key
    ensures Item(x, db[x]) in Rows(fetch, key)
  {
    var items := [anchor] + Rows(fetch, key);
    assert items[0] == anchor && Points(ProjectKey, key, items[0].rid, items[0].row);
    assert x in Ids(items, 0, |items|);
    var i :| 0 <= i < |items| && items[i].rid == x;
    assert items[i] == Item(x, db[x]);
    assert items[i] == Rows(fetch, key)[i - 1];
  }

  /** When the project row is replaced, the project's rows afterwards are the fetched
      ones, all of them and no others. */
  lemma ImportedProjectIsTheFetch(db: Database, key: string, fetch: Fetch, x: RowId, row: Row)
    requires Integrity(db) && Consistent(fetch, key) && ProjectAvailable(db, key, fetch.project)
    requires ProjectReplaced(fetch.project)
    ensures Item(x, row) in Rows(fetch, key) <==>
      var after := Import(db, key, fetch).db;
      x in after && after[x] == row && ProjectKey in row.refs && row.refs[ProjectKey] == key
  {
    var anchor := ImportSucceeds(db, key, fetch);
    var after := Import(db, key, fetch).db;
    if Item(x, row) in Rows(fetch, key) {
      RowsUpToTables(|ORDER|, fetch, key);
      assert WellMade(Item(x, row), key);
      FetchIsStored(db, key, fetch, Item(x, row));
    } else if x in after && after[x] == row && ProjectKey in row.refs && row.refs[ProjectKey] == key {
      OnlyFetchedRefer(after, key, fetch, anchor, x);
    }
  }

  /** No fetch, complete or not, and no failure half-way, breaks the database's integrity. */
  lemma ImportKeepsIntegrity(db: Database, key: string, fetch: Fetch)
    requires Integrity(db)
    ensures Integrity(Import(db, key, fetch).db)
  {
    RowsUpToTables(|ORDER|, fetch, key);
    assert AllShaped(Rows(fetch, key)) by {
      forall i | 0 <= i < |Rows(fetch, key)|
        ensures Shaped(Rows(fetch, key)[i].rid, Rows(fetch, key)[i].row)
      {
        assert Rows(fetch, key)[i] in Rows(fetch, key);
      }
    }
    var it := ProjectItem(Placeholder(key));
    IgnoreKeepsIntegrity(db, it.rid, it.row);
    if ProjectReplaced(fetch.project) {
      var p := ProjectItem(fetch.project.items[0]);
      ReplaceKeepsIntegrity(db, p.rid, p.row);
    }
    SaveAllKeepsIntegrity(SaveProject(db, key, fetch.project).db, Rows(fetch, key));
  }

  /** Rows of other projects (or any others) that share no id or key with what is imported
      and refer only to one another come through every import unchanged, even a failing one. */
  lemma ImportSparesOthers(db: Database, key: string, fetch: Fetch, safe: set<RowId>)
    requires Integrity(db) && SelfContained(db, safe)
    requires forall it | it in Rows(fetch, key) :: Conflicts(db, it.rid, it.row) !! safe
    requires ProjectReplaced(fetch.project) ==>
      var p := ProjectItem(fetch.project.items[0]); Conflicts(db, p.rid, p.row) !! safe
    ensures forall x | x in safe :: x in Import(db, key, fetch).db && Import(db, key, fetch).db[x] == db[x]
  {
    var start := SaveProject(db, key, fetch.project).db;
    var items := Rows(fetch, key);
    ProjectSpares(db, key, fetch.project, safe);
    RowsUpToTables(|ORDER|, fetch, key);
    forall i | 0 <= i < |items|
      ensures Shaped(items[i].rid, items[i].row) && Conflicts(start, items[i].rid, items[i].row) !! safe
    {
      assert items[i] in items && WellMade(items[i], key);
      assert Conflicts(db, items[i].rid, items[i].row) !! safe;
    }
    UnrelatedRowsSurvive(start, items, safe);
  }

  lemma ProjectSpares(db: Database, key: string, project: Fetched<Project>, safe: set<RowId>)
    requires Integrity(db) && SelfContained(db, safe)
    requires ProjectReplaced(project) ==> var p := ProjectItem(project.items[0]); Conflicts(db, p.rid, p.row) !! safe
    ensures var start := SaveProject(db, key, project).db;
      Integrity(start) && SelfContained(start, safe) && forall x | x in safe :: start[x] == db[x]
  {
    var it := ProjectItem(Placeholder(key));
    IgnoreKeepsIntegrity(db, it.rid, it.row);
    var start := SaveProject(db, key, project).db;
    if ProjectReplaced(project) {
      var p := ProjectItem(project.items[0]);
      ReplaceKeepsIntegrity(db, p.rid, p.row);
      ReplaceSpares(db, p.rid, p.row, safe);
    } else {
      assert it.rid in db ==> it.rid in Conflicts(db, it.rid, it.row);
    }
    StillSelfContained(db, start, safe);
  }

  lemma StillSelfContained(db: Database, after: Database, safe: set<RowId>)
    requires SelfContained(db, safe) && forall x | x in safe :: x in after && after[x] == db[x]
    ensures SelfContained(after, safe)
  {
    forall x, c | x in safe && c in after[x].refs
      ensures exists y :: y in safe && Points(c, after[x].refs[c], y, after[y])
    {
      var y :| y in safe && Points(c, db[x].refs[c], y, db[y]);
    }
  }

  // ---- The counts it returns ----

  lemma {:induction false} IdsCount(items: seq<Item>, k: nat)
    requires Distinct(items) && k <= |items|
    ensures |Ids(items, 0, k)| == k
  {
    if k > 0 {
      IdsCount(items, k - 1);
      assert Ids(items, 0, k) == Ids(items, 0, k - 1) + {items[k - 1].rid};
    }
  }

  lemma {:induction false} CountsAt(i: nat, n: nat, key: string, fetch: Fetch)
    requires i < n <= |ORDER| && WasFetched(ORDER[i], fetch)
    ensures ORDER[i] in Counts(n, key, fetch) && Counts(n, key, fetch)[ORDER[i]] == |RowsOf(ORDER[i], fetch, key)|
  {
    if i < n - 1 {
      CountsAt(i, n - 1, key, fetch);
      assert ORDER[n - 1] != ORDER[i];
    }
  }

  /** The rows of table `t` that belong to the project. */
  function ProjectRows(db: Database, t: Table, key: string): set<RowId> {
    set x | x in db && x.table == t && ProjectKey in db[x].refs && db[x].refs[ProjectKey] == key
  }

  /** When the project row is replaced, each count returned is the number of rows the
      project then has in that table. */
  lemma CountsAreRowsStored(db: Database, key: string, fetch: Fetch, i: nat)
    requires Integrity(db) && Consistent(fetch, key) && ProjectAvailable(db, key, fetch.project)
    requires ProjectReplaced(fetch.project) && i < |ORDER| && WasFetched(ORDER[i], fetch)
    ensures ORDER[i] in Counts(|ORDER|, key, fetch)
    ensures Counts(|ORDER|, key, fetch)[ORDER[i]] == |ProjectRows(Import(db, key, fetch).db, ORDER[i], key)|
  {
    var after, section := Import(db, key, fetch).db, RowsOf(ORDER[i], fetch, key);
    CountsAt(i, |ORDER|, key, fetch);
    assert ORDER[i] in ORDER;
    IdsCount(section, |section|);
    SectionItems(ORDER[i], fetch, key);
    RowsUpToTables(|ORDER|, fetch, key);
    SectionInside(i, |ORDER|, fetch, key);
    forall x
      ensures x in Ids(section, 0, |section|) <==> x in ProjectRows(after, ORDER[i], key)
    {
      if j :| 0 <= j < |section| && section[j].rid == x {
        assert section[j] in section && WellMade(section[j], key);
        ImportedProjectIsTheFetch(db, key, fetch, x, section[j].row);
        assert Item(x, section[j].row) == section[j];
      }
      if x in ProjectRows(after, ORDER[i], key) {
        ImportedProjectIsTheFetch(db, key, fetch, x, after[x]);
        assert Item(x, after[x]) in section;
      }
    }
    assert Ids(section, 0, |section|) == ProjectRows(after, ORDER[i], key);
  }
}
