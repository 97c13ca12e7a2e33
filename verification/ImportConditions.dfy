/** Exactly when an import stores the fetch, whatever the database held before. */
module ImportConditions {
  import opened Wrappers
  import opened Schema
  import opened Store
  import opened CompleteRuns
  import opened FolderOrder
  import opened StableSort
  import opened ProjectImport
  import opened ImportTheorems

  // ---- Over any database ----

  ghost predicate DistinctShaped(items: seq<Item>) {
    Distinct(items) && AllShaped(items)
  }

  lemma SectionStaysDistinct(anchor: Item, fetch: Fetch, key: string, n: nat)
    requires anchor.rid.table == Projects && NoDuplicates(fetch, key) && n < |ORDER|
    requires DistinctShaped([anchor] + RowsUpTo(n, fetch, key))
    ensures DistinctShaped([anchor] + RowsUpTo(n, fetch, key) + RowsOf(ORDER[n], fetch, key))
  {
    SectionShape(fetch, key, n);
    AppendDistinct([anchor] + RowsUpTo(n, fetch, key), RowsOf(ORDER[n], fetch, key), ORDER[n]);
  }

  lemma {:induction false} FreshSectionsDistinct(anchor: Item, fetch: Fetch, key: string, n: nat)
    requires anchor.rid.table == Projects && Shaped(anchor.rid, anchor.row) && NoDuplicates(fetch, key) && n <= |ORDER|
    ensures DistinctShaped([anchor] + RowsUpTo(n, fetch, key))
  {
    if n == 0 {
      assert [anchor] + RowsUpTo(0, fetch, key) == [anchor];
    } else {
      var m := n - 1;
      FreshSectionsDistinct(anchor, fetch, key, m);
      SectionStaysDistinct(anchor, fetch, key, m);
      NextRows(anchor, fetch, key, m, n);
    }
  }

  lemma FreshItemsDistinct(anchor: Item, fetch: Fetch, key: string)
    requires anchor.rid.table == Projects && Shaped(anchor.rid, anchor.row) && NoDuplicates(fetch, key)
    ensures Distinct([anchor] + Rows(fetch, key)) && AllShaped([anchor] + Rows(fetch, key))
  {
    FreshSectionsDistinct(anchor, fetch, key, |ORDER|);
  }

  lemma WithoutFirst(first: Item, rows: seq<Item>)
    requires DistinctShaped([first] + rows)
    ensures DistinctShaped(rows)
  {
    assert forall i | 0 <= i < |rows| :: ([first] + rows)[i + 1] == rows[i];
  }

  /** The project row, if it was fetched, and then the fetched ones. */
  function FirstRows(project: Fetched<Project>): seq<Item> {
    if project.Fetched? && project.items != [] then [ProjectItem(project.items[0])] else []
  }

  function Saves(fetch: Fetch, key: string): seq<Item> {
    FirstRows(fetch.project) + Rows(fetch, key)
  }

  /** The database that these rows are saved into: with a placeholder put in, if need be. */
  function Start(db: Database, key: string, project: Fetched<Project>): Database {
    if project.Fetched? && project.items != [] then db else SaveProject(db, key, project).db
  }

  lemma ImportIsOneRun(db: Database, key: string, fetch: Fetch)
    requires Integrity(db)
    ensures Import(db, key, fetch) == SaveAll(Start(db, key, fetch.project), Saves(fetch, key))
    ensures Integrity(Start(db, key, fetch.project))
  {
    if ProjectReplaced(fetch.project) {
      ReplacedAsOneRun(db, key, fetch);
    } else {
      var it := ProjectItem(Placeholder(key));
      IgnoreKeepsIntegrity(db, it.rid, it.row);
      assert Saves(fetch, key) == Rows(fetch, key);
    }
  }

  lemma SavesDistinct(fetch: Fetch, key: string)
    requires NoDuplicates(fetch, key)
    ensures DistinctShaped(Saves(fetch, key))
  {
    var anchor := ProjectItem(if ProjectReplaced(fetch.project) then fetch.project.items[0] else Placeholder(key));
    FreshItemsDistinct(anchor, fetch, key);
    if ProjectReplaced(fetch.project) {
      assert Saves(fetch, key) == [anchor] + Rows(fetch, key);
    } else {
      WithoutFirst(anchor, Rows(fetch, key));
      assert Saves(fetch, key) == Rows(fetch, key);
    }
  }

  /** Exactly when an import ends with every fetched row stored: when each foreign key refers
      to a row saved no later, or to a stored row that no replacement deletes, be it itself
      or by a cascade. */
  lemma ImportIsCompleteIff(db: Database, key: string, fetch: Fetch)
    requires Integrity(db) && NoDuplicates(fetch, key)
    ensures Complete(Import(db, key, fetch), Saves(fetch, key)) <==>
      Supported(Start(db, key, fetch.project), Saves(fetch, key))
  {
    ImportIsOneRun(db, key, fetch);
    SavesDistinct(fetch, key);
    CompleteIffSupported(Start(db, key, fetch.project), Saves(fetch, key));
  }

  // ---- Which fetches reach back ----

  ghost predicate AllReachBack(items: seq<Item>) {
    forall k | 0 <= k < |items| :: RefsReachBack(items, k)
  }

  lemma {:induction false} FoldersComeFirst(n: nat, fetch: Fetch, key: string)
    requires 1 <= n <= |ORDER|
    ensures RowsOf(Folders, fetch, key) <= RowsUpTo(n, fetch, key)
  {
    if n > 1 {
      FoldersComeFirst(n - 1, fetch, key);
    }
  }

  lemma ReachedRow(anchor: Item, fetch: Fetch, key: string, it: Item, c: Column) returns (y: Item)
    requires anchor.rid.table == Projects
    requires AllReachBack([anchor] + Rows(fetch, key))
    requires it in Rows(fetch, key) && c in it.row.refs && c != ProjectKey
    ensures y in RowsOf(Referenced(c), fetch, key) && Points(c, it.row.refs[c], y.rid, y.row)
  {
    var items := [anchor] + Rows(fetch, key);
    var j :| 0 <= j < |Rows(fetch, key)| && Rows(fetch, key)[j] == it;
    assert items[j + 1] == it && RefsReachBack(items, j + 1);
    var i :| 0 <= i <= j + 1 && Points(c, it.row.refs[c], items[i].rid, items[i].row);
    assert i > 0;
    y := items[i];
    assert y in Rows(fetch, key);
    RowsUpToTables(|ORDER|, fetch, key);
  }

  lemma PrefixAfter(pre: seq<Item>, front: seq<Item>, rows: seq<Item>, k: nat, m: nat)
    requires front <= rows && k < |front| && m == |pre| + k
    ensures m < |pre + rows| && (pre + rows)[m] == front[k]
  {
  }

  /** The folders follow what is saved before the fetched rows, in the order of the sort. */
  lemma FolderPosition(pre: seq<Item>, fetch: Fetch, key: string, k: nat, m: nat)
    requires var s := SortByIdLength(fetch.folders.Items()); k < |s| && m == |pre| + k
    ensures var items := pre + Rows(fetch, key);
      m < |items| && items[m] == FolderItem(SortByIdLength(fetch.folders.Items())[k], key)
  {
    FoldersComeFirst(|ORDER|, fetch, key);
    PrefixAfter(pre, RowsOf(Folders, fetch, key), Rows(fetch, key), k, m);
  }

  lemma FolderReachesBack(pre: seq<Item>, fetch: Fetch, key: string, k: nat, i: nat)
    requires AllIn(pre, Projects) && i < |pre + Rows(fetch, key)|
    requires var s := SortByIdLength(fetch.folders.Items()); k < |s| && i <= |pre| + k && s[k].parent.Some?
    requires var s, it := SortByIdLength(fetch.folders.Items()), (pre + Rows(fetch, key))[i];
      Points(ParentId, s[k].parent.value, it.rid, it.row)
    ensures var s := SortByIdLength(fetch.folders.Items()); exists j :: 0 <= j <= k && s[j].id == s[k].parent.value
  {
    var items, s := pre + Rows(fetch, key), SortByIdLength(fetch.folders.Items());
    assert forall n | 0 <= n < |pre| :: items[n] == pre[n];
    assert i >= |pre|;
    var j := i - |pre|;
    FolderPosition(pre, fetch, key, j, i);
    assert s[j].id == s[k].parent.value;
  }

  lemma EveryRow(i: nat, fetch: Fetch, key: string)
    requires i < |ORDER|
    ensures forall it | it in RowsOf(ORDER[i], fetch, key) :: it in Rows(fetch, key)
  {
    SectionInside(i, |ORDER|, fetch, key);
  }

  lemma FolderReached(anchor: Item, fetch: Fetch, key: string, it: Item, id: Option<string>)
    requires anchor.rid.table == Projects && it in Rows(fetch, key)
    requires AllReachBack([anchor] + Rows(fetch, key))
    requires id.Some? ==> FolderId in it.row.refs && it.row.refs[FolderId] == id.value
    ensures FolderFetched(id, fetch)
  {
    if id.Some? {
      var y := ReachedRow(anchor, fetch, key, it, FolderId);
      var s := SortByIdLength(fetch.folders.Items());
      var i :| 0 <= i < |s| && FolderItem(s[i], key) == y;
      SameMembers(fetch.folders.Items(), IdLength, s[i]);
    }
  }

  lemma LookupReached(anchor: Item, fetch: Fetch, key: string, it: Item, id: Option<string>, among: Fetched<Lookup>, c: Column)
    requires anchor.rid.table == Projects && it in Rows(fetch, key)
    requires AllReachBack([anchor] + Rows(fetch, key))
    requires (c == PriorityId && among == fetch.priorities) || (c == EnvironmentId && among == fetch.environments)
    requires id.Some? ==> c in it.row.refs && it.row.refs[c] == id.value
    ensures LookupFetched(id, among)
  {
    if id.Some? {
      var y := ReachedRow(anchor, fetch, key, it, c);
      var i :| 0 <= i < |among.Items()| && LookupItem(Referenced(c), among.Items()[i], key) == y;
      assert among.Items()[i].id == id.value;
    }
  }

  lemma CaseReached(anchor: Item, fetch: Fetch, key: string, t: TestCase)
    requires anchor.rid.table == Projects && t in fetch.cases.Items()
    requires AllReachBack([anchor] + Rows(fetch, key))
    ensures FolderFetched(t.folder, fetch) && LookupFetched(t.priority, fetch.priorities)
  {
    EveryRow(4, fetch, key);
    assert CaseItem(t, key) in RowsOf(ORDER[4], fetch, key);
    FolderReached(anchor, fetch, key, CaseItem(t, key), t.folder);
    LookupReached(anchor, fetch, key, CaseItem(t, key), t.priority, fetch.priorities, PriorityId);
  }

  lemma ExecutionReached(anchor: Item, fetch: Fetch, key: string, e: Execution)
    requires anchor.rid.table == Projects && ExecutionItem(e, key) in Rows(fetch, key)
    requires AllReachBack([anchor] + Rows(fetch, key))
    ensures exists c :: c in fetch.cases.Items() && c.key == e.caseKey
    ensures exists c :: c in fetch.cycles.Items() && c.id == e.cycleId
  {
    var y := ReachedRow(anchor, fetch, key, ExecutionItem(e, key), TestCaseKey);
    var t := OriginOfCase(fetch, key, y);
    var z := ReachedRow(anchor, fetch, key, ExecutionItem(e, key), CycleId);
    var u := OriginOfCycle(fetch, key, z);
  }

  lemma ReachingBackIsReferences(anchor: Item, fetch: Fetch, key: string)
    requires anchor.rid.table == Projects && NoDuplicates(fetch, key)
    requires AllReachBack([anchor] + Rows(fetch, key))
    ensures References(fetch)
  {
    var s := SortByIdLength(fetch.folders.Items());
    forall k | 0 <= k < |s| && s[k].parent.Some?
      ensures exists i :: 0 <= i <= k && s[i].id == s[k].parent.value
    {
      var m := k + 1;
      FolderPosition([anchor], fetch, key, k, m);
      assert RefsReachBack([anchor] + Rows(fetch, key), m) && ParentId in FolderItem(s[k], key).row.refs;
      var items := [anchor] + Rows(fetch, key);
      var i :| 0 <= i <= m && Points(ParentId, s[k].parent.value, items[i].rid, items[i].row);
      FolderReachesBack([anchor], fetch, key, k, i);
    }
    SortPutsParentsFirstIff(fetch.folders.Items());
    forall t | t in fetch.cases.Items()
      ensures FolderFetched(t.folder, fetch) && LookupFetched(t.priority, fetch.priorities)
    {
      CaseReached(anchor, fetch, key, t);
    }
    forall t | t in fetch.cycles.Items()
      ensures FolderFetched(t.folder, fetch)
    {
      EveryRow(5, fetch, key);
      assert CycleItem(t, key) in RowsOf(ORDER[5], fetch, key);
      FolderReached(anchor, fetch, key, CycleItem(t, key), t.folder);
    }
    forall e | e in fetch.executions.Items()
      ensures && LookupFetched(e.environment, fetch.environments)
              && (exists c :: c in fetch.cases.Items() && c.key == e.caseKey)
              && (exists c :: c in fetch.cycles.Items() && c.id == e.cycleId)
    {
      EveryRow(6, fetch, key);
      assert ExecutionItem(e, key) in RowsOf(ORDER[6], fetch, key);
      ExecutionReached(anchor, fetch, key, e);
      LookupReached(anchor, fetch, key, ExecutionItem(e, key), e.environment, fetch.environments, EnvironmentId);
    }
  }

  /** A fetch with its project goes into an empty database exactly when its references
      resolve in the order of saving. */
  lemma FreshWithProject(key: string, fetch: Fetch)
    requires ProjectReplaced(fetch.project) && fetch.project.items[0].key == key && NoDuplicates(fetch, key)
    ensures Import(map[], key, fetch).ok <==> References(fetch)
  {
    if References(fetch) {
      var _ := ImportSucceeds(map[], key, fetch);
    }
    if Import(map[], key, fetch).ok {
      var anchor := ProjectItem(fetch.project.items[0]);
      var items := [anchor] + Rows(fetch, key);
      ReplacedAsOneRun(map[], key, fetch);
      FreshItemsDistinct(anchor, fetch, key);
      FreshSaveSucceedsIff(items);
      ReachingBackIsReferences(anchor, fetch, key);
    }
  }

  lemma SectionIgnoresProject(t: Table, fetch: Fetch, other: Fetched<Project>, key: string)
    ensures RowsOf(t, fetch.(project := other), key) == RowsOf(t, fetch, key)
  {
  }

  lemma {:induction false} RowsIgnoreProject(n: nat, fetch: Fetch, other: Fetched<Project>, key: string)
    requires n <= |ORDER|
    ensures RowsUpTo(n, fetch.(project := other), key) == RowsUpTo(n, fetch, key)
  {
    if n > 0 {
      RowsIgnoreProject(n - 1, fetch, other, key);
      SectionIgnoresProject(ORDER[n - 1], fetch, other, key);
    }
  }

  lemma FreshProjectSaved(key: string, p: Project)
    ensures var it := ProjectItem(p);
      InsertOrReplace(map[], it.rid, it.row) == InsertOrIgnore(map[], it.rid, it.row) == Committed(map[it.rid := it.row])
  {
    var it := ProjectItem(p);
    assert Conflicts(map[], it.rid, it.row) == {};
    ReplaceWithoutConflict(map[], it.rid, it.row);
    assert map[][it.rid := it.row] == map[it.rid := it.row];
  }

  /** Into an empty database, the placeholder is as good as a project fetched. */
  lemma PlaceholderAsFetched(key: string, fetch: Fetch)
    requires fetch.project.NotRequested?
    ensures Import(map[], key, fetch) == Import(map[], key, fetch.(project := Fetched([Placeholder(key)])))
  {
    FreshProjectSaved(key, Placeholder(key));
    RowsIgnoreProject(|ORDER|, fetch, Fetched([Placeholder(key)]), key);
  }

  lemma SameConditions(fetch: Fetch, other: Fetched<Project>, key: string)
    requires NoDuplicates(fetch, key)
    ensures NoDuplicates(fetch.(project := other), key)
    ensures References(fetch.(project := other)) <==> References(fetch)
  {
    forall t | t in ORDER
      ensures Distinct(RowsOf(t, fetch.(project := other), key))
    {
      SectionIgnoresProject(t, fetch, other, key);
    }
  }

  lemma FreshWithPlaceholder(key: string, fetch: Fetch)
    requires fetch.project.NotRequested? && NoDuplicates(fetch, key)
    ensures Import(map[], key, fetch).ok <==> References(fetch)
  {
    var project := Fetched([Placeholder(key)]);
    PlaceholderAsFetched(key, fetch);
    SameConditions(fetch, project, key);
    FreshWithProject(key, fetch.(project := project));
  }

  /** A database with projects only, none of them this one. */
  ghost predicate OtherProjects(db: Database, key: string) {
    forall y | y in db :: y.table == Projects && db[y].key != key
  }

  lemma RowWithoutProject(db: Database, key: string, it: Item)
    requires OtherProjects(db, key) && it.rid.table != Projects && WellMade(it, key)
    ensures InsertOrReplace(db, it.rid, it.row) == IntegrityError
  {
    ReplaceOnlyRemoves(db, it.rid, it.row);
    assert !Resolves(Without(db, Conflicts(db, it.rid, it.row))[it.rid := it.row], ProjectKey, key);
  }

  lemma TablesInOrder(t: Table)
    requires t in ORDER
    ensures t != Projects
  {
  }

  lemma FirstRowFails(db: Database, items: seq<Item>)
    requires items != [] && InsertOrReplace(db, items[0].rid, items[0].row) == IntegrityError
    ensures !SaveAll(db, items).ok
  {
    assert items[..1] == [items[0]] && [items[0]][..0] == [] && items == items[..1] + items[1..];
    assert SaveAll(db, [items[0]]) == Run(db, true).Then(items[0]);
    SaveAllSplits(db, items[..1], items[1..]);
  }

  lemma FreshWithoutProject(key: string, fetch: Fetch)
    requires !ProjectAvailable(map[], key, fetch.project)
    ensures Import(map[], key, fetch).ok <==> Rows(fetch, key) == []
  {
    var rows := Rows(fetch, key);
    if ProjectReplaced(fetch.project) {
      FreshProjectSaved(key, fetch.project.items[0]);
    }
    var start := SaveProject(map[], key, fetch.project);
    assert start.ok && OtherProjects(start.db, key);
    if rows != [] {
      RowsUpToTables(|ORDER|, fetch, key);
      assert rows[0] in rows;
      TablesInOrder(rows[0].rid.table);
      RowWithoutProject(start.db, key, rows[0]);
      FirstRowFails(start.db, rows);
    }
  }

  lemma EmptyOrNot(items: seq<Item>)
    ensures items == [] || exists it :: it in items
  {
    if items != [] {
      assert items[0] in items;
    }
  }

  lemma SectionEmpty(i: nat, fetch: Fetch, key: string)
    requires i < |ORDER| && Rows(fetch, key) == []
    ensures RowsOf(ORDER[i], fetch, key) == []
  {
    SectionInside(i, |ORDER|, fetch, key);
    EmptyOrNot(RowsOf(ORDER[i], fetch, key));
  }

  lemma NothingRefers(fetch: Fetch)
    requires fetch.folders.Items() == [] && fetch.cases.Items() == []
    requires fetch.cycles.Items() == [] && fetch.executions.Items() == []
    ensures References(fetch)
  {
  }

  lemma NoRowsNothingFetched(key: string, fetch: Fetch)
    requires Rows(fetch, key) == []
    ensures References(fetch)
  {
    SectionEmpty(0, fetch, key);
    SectionEmpty(4, fetch, key);
    SectionEmpty(5, fetch, key);
    SectionEmpty(6, fetch, key);
    SortSorts(fetch.folders.Items(), IdLength);
    assert |fetch.folders.Items()| == |RowsOf(ORDER[0], fetch, key)|;
    NothingRefers(fetch);
  }

  /** A fetch goes into an empty database exactly when its references resolve, every
      folder's parent has a shorter id than the folder (or one as long, fetched no later),
      and its project is fetched or put in as a placeholder, unless there is nothing to save.
      Sorting by id length is all the ordering there is, so a parent with a longer id makes
      the import fail. */
  lemma FreshImportSucceedsIff(key: string, fetch: Fetch)
    requires NoDuplicates(fetch, key)
    ensures Import(map[], key, fetch).ok <==>
      References(fetch) && (ProjectAvailable(map[], key, fetch.project) || Rows(fetch, key) == [])
  {
    if !ProjectAvailable(map[], key, fetch.project) {
      FreshWithoutProject(key, fetch);
      if Rows(fetch, key) == [] {
        NoRowsNothingFetched(key, fetch);
      }
    } else if ProjectReplaced(fetch.project) {
      FreshWithProject(key, fetch);
    } else {
      FreshWithPlaceholder(key, fetch);
    }
  }

  // ---- What sorting folders by id length achieves ----

  ghost predicate ParentsFetched(fetch: Fetch) {
    forall f | f in fetch.folders.Items() :: FolderFetched(f.parent, fetch)
  }

  /** A stored folder that is fetched again is replaced, so no fetched parent is kept. */
  lemma FetchedFolderNotKept(db: Database, fetch: Fetch, key: string, f: Folder, y: RowId)
    requires f in fetch.folders.Items() && y == FolderItem(f, key).rid
    ensures y !in Kept(db, Saves(fetch, key))
  {
    var s, pre := SortByIdLength(fetch.folders.Items()), FirstRows(fetch.project);
    SameMembers(fetch.folders.Items(), IdLength, f);
    var k :| 0 <= k < |s| && s[k] == f;
    FolderPosition(pre, fetch, key, k, |pre| + k);
    if y in Kept(db, Saves(fetch, key)) {
      KeptIsNotReplaced(db, Saves(fetch, key), |pre| + k, y);
    }
  }

  lemma ParentSupported(db: Database, fetch: Fetch, key: string, k: nat)
    requires ParentsFetched(fetch) && Supported(db, Saves(fetch, key))
    requires var s := SortByIdLength(fetch.folders.Items()); k < |s| && s[k].parent.Some?
    ensures var s := SortByIdLength(fetch.folders.Items()); exists j :: 0 <= j <= k && s[j].id == s[k].parent.value
  {
    var items, s, pre := Saves(fetch, key), SortByIdLength(fetch.folders.Items()), FirstRows(fetch.project);
    var m, p := |pre| + k, s[k].parent.value;
    FolderPosition(pre, fetch, key, k, m);
    assert ParentId in items[m].row.refs && RefSupported(db, items, m, ParentId);
    if i :| 0 <= i <= m && Points(ParentId, p, items[i].rid, items[i].row) {
      FolderReachesBack(pre, fetch, key, k, i);
    } else {
      var y :| y in Kept(db, items) && Points(ParentId, p, y, db[y]);
      SameMembers(fetch.folders.Items(), IdLength, s[k]);
      var f :| f in fetch.folders.Items() && f.id == p;
      FetchedFolderNotKept(db, fetch, key, f, y);
    }
  }

  lemma ImportedIsComplete(db: Database, key: string, fetch: Fetch, anchor: Item)
    requires Imported(db, key, fetch, anchor) && Chain(db, key, fetch, anchor)
    ensures Holds(db, Saves(fetch, key), |Saves(fetch, key)|)
  {
    var items := Saves(fetch, key);
    forall i | 0 <= i < |items|
      ensures items[i].rid in db && db[items[i].rid] == items[i].row
    {
      if items[i] in Rows(fetch, key) {
        ImportedHoldsRow(db, key, fetch, anchor, items[i]);
      } else {
        assert items[i] == anchor == ([anchor] + Rows(fetch, key))[0];
      }
    }
  }

  /** For a fetch whose references all resolve within it, the ids of the folders decide,
      whatever the database held: it is stored completely exactly when every parent has a
      shorter id than its child (or one as long, and was fetched no later). */
  lemma FolderIdsDecide(db: Database, key: string, fetch: Fetch)
    requires Integrity(db) && NoDuplicates(fetch, key) && ProjectAvailable(db, key, fetch.project)
    requires OtherReferences(fetch) && ParentsFetched(fetch)
    ensures Complete(Import(db, key, fetch), Saves(fetch, key)) <==> ParentsShorter(fetch.folders.Items())
  {
    if ParentsShorter(fetch.folders.Items()) {
      var anchor := ImportSucceeds(db, key, fetch);
      ImportedIsComplete(Import(db, key, fetch).db, key, fetch, anchor);
    }
    if Complete(Import(db, key, fetch), Saves(fetch, key)) {
      var s := SortByIdLength(fetch.folders.Items());
      ImportIsCompleteIff(db, key, fetch);
      forall k | 0 <= k < |s| && s[k].parent.Some?
        ensures exists j :: 0 <= j <= k && s[j].id == s[k].parent.value
      {
        ParentSupported(Start(db, key, fetch.project), fetch, key, k);
      }
      SortPutsParentsFirstIff(fetch.folders.Items());
    }
  }

  const PARENT := Folder("10", "", None)
  const CHILD := Folder("7", "", Some("10"))

  function TwoFolders(): Fetch {
    Fetch(Fetched([Project("p", "P", "")]), Fetched([PARENT, CHILD]),
          NotRequested, NotRequested, NotRequested, NotRequested, NotRequested, NotRequested)
  }

  lemma ChildSortedFirst()
    ensures SortByIdLength([PARENT, CHILD]) == [CHILD, PARENT]
  {
    TwoSwapped(PARENT, CHILD, IdLength);
  }

  lemma TwoFoldersDistinct()
    ensures NoDuplicates(TwoFolders(), "P")
  {
    ChildSortedFirst();
    assert Distinct(RowsOf(Folders, TwoFolders(), "P"));
    forall t | t in ORDER && t != Folders
      ensures Distinct(RowsOf(t, TwoFolders(), "P"))
    {
      assert RowsOf(t, TwoFolders(), "P") == [];
    }
  }

  /** A parent whose id is longer than its child's is saved too late: the import fails,
      although the parent is there and was fetched first. */
  lemma LongerParentFails()
    ensures !Import(map[], "P", TwoFolders()).ok
  {
    TwoFoldersDistinct();
    assert !ParentsShorter([PARENT, CHILD]) by {
      assert CHILD in [PARENT, CHILD];
    }
    FreshImportSucceedsIff("P", TwoFolders());
  }

  // ---- An import that reports success and loses a row ----

  function Again(): Fetch {
    TwoFolders().(project := NotRequested)
  }

  /** The project is stored, and so is the parent folder. */
  function StoredBefore(): Database {
    map[ProjectItem(Project("p", "P", "")).rid := ProjectItem(Project("p", "P", "")).row,
        FolderItem(PARENT, "P").rid := FolderItem(PARENT, "P").row]
  }

  lemma {:induction false} OnlyFolders(n: nat)
    requires 1 <= n <= |ORDER|
    ensures RowsUpTo(n, Again(), "P") == [FolderItem(CHILD, "P"), FolderItem(PARENT, "P")]
  {
    if n == 1 {
      ChildSortedFirst();
      assert RowsUpTo(0, Again(), "P") == [];
    } else {
      OnlyFolders(n - 1);
      assert RowsOf(ORDER[n - 1], Again(), "P") == [];
    }
  }

  function BothFolders(): Database {
    StoredBefore()[FolderItem(CHILD, "P").rid := FolderItem(CHILD, "P").row]
  }

  /** The child finds the stored parent. */
  lemma ChildIsSaved()
    ensures InsertOrReplace(StoredBefore(), FolderItem(CHILD, "P").rid, FolderItem(CHILD, "P").row) == Committed(BothFolders())
  {
    var it, p, f := FolderItem(CHILD, "P"), ProjectItem(Project("p", "P", "")), FolderItem(PARENT, "P");
    assert Conflicts(StoredBefore(), it.rid, it.row) == {};
    ReplaceWithoutConflict(StoredBefore(), it.rid, it.row);
    assert p.rid in BothFolders() && Points(ProjectKey, "P", p.rid, BothFolders()[p.rid]);
    assert f.rid in BothFolders() && Points(ParentId, "10", f.rid, BothFolders()[f.rid]);
  }

  /** Then the parent is replaced, and takes the child with it. */
  lemma ParentTakesChild()
    ensures var r := InsertOrReplace(BothFolders(), FolderItem(PARENT, "P").rid, FolderItem(PARENT, "P").row);
      r.Committed? && FolderItem(CHILD, "P").rid !in r.db
  {
    var db, it := BothFolders(), FolderItem(PARENT, "P");
    var child, p := FolderItem(CHILD, "P"), ProjectItem(Project("p", "P", ""));
    assert Conflicts(db, it.rid, it.row) == {it.rid};
    assert Dependents(db, {it.rid, child.rid}) <= {it.rid, child.rid};
    ClosureIsLeast(db, {it.rid}, {it.rid, child.rid});
    var gone := Closure(db, {it.rid});
    assert child.rid in gone by {
      assert it.rid in gone && Points(ParentId, child.row.refs[ParentId], it.rid, db[it.rid]);
      assert CascadesInto(db, child.rid, gone);
      assert child.rid in Dependents(db, gone);
    }
    var after := Without(db, {it.rid})[it.rid := it.row];
    assert p.rid in after && Points(ProjectKey, "P", p.rid, after[p.rid]);
  }

  lemma AgainAsTwoSaves()
    ensures var child, it := FolderItem(CHILD, "P"), FolderItem(PARENT, "P");
      Import(StoredBefore(), "P", Again()) == Run(StoredBefore(), true).Then(child).Then(it)
  {
    var child, it, p := FolderItem(CHILD, "P"), FolderItem(PARENT, "P"), ProjectItem(Project("p", "P", ""));
    var place := ProjectItem(Placeholder("P"));
    assert p.rid in Conflicts(StoredBefore(), place.rid, place.row);
    OnlyFolders(|ORDER|);
    var rows := [child, it];
    assert rows[..1] == [child] && [child][..0] == [];
    assert SaveAll(StoredBefore(), [child]) == Run(StoredBefore(), true).Then(child);
  }

  /** Over stored rows an import can come to its end, count two folders, and have lost one:
      the child is saved under the stored parent, which is then replaced. */
  lemma ImportCanLoseRows()
    ensures var r := Import(StoredBefore(), "P", Again());
      r.ok && FolderItem(CHILD, "P") in Rows(Again(), "P") && FolderItem(CHILD, "P").rid !in r.db
    ensures Folders in Counts(|ORDER|, "P", Again()) && Counts(|ORDER|, "P", Again())[Folders] == 2
  {
    ChildIsSaved();
    ParentTakesChild();
    AgainAsTwoSaves();
    OnlyFolders(|ORDER|);
    assert FolderItem(CHILD, "P") == Rows(Again(), "P")[0];
    ChildSortedFirst();
    CountsAt(0, |ORDER|, "P", Again());
  }
}
