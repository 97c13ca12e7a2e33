/** `DatabaseManager.save_project_data`: one fetched project into the store. */
module ProjectImport {
  import opened Wrappers
  import opened Schema
  import opened Store
  import opened FolderOrder

  // ---- What is fetched, and the row each save statement writes ----

  datatype Project = Project(id: string, key: string, fields: string)

  /** A status, priority or environment. */
  datatype Lookup = Lookup(id: string, fields: string)

  datatype TestCase = TestCase(id: string, key: string, fields: string, priority: Option<string>, folder: Option<string>)

  datatype TestCycle = TestCycle(id: string, key: string, fields: string, folder: Option<string>)

  datatype Execution = Execution(id: string, fields: string, caseKey: string, cycleId: string, environment: Option<string>)

  /** One entry of the fetch results: absent, unsuccessful, or the items fetched. */
  datatype Fetched<T> = NotRequested | Failed | Fetched(items: seq<T>) {
    function Items(): seq<T> {
      if Fetched? then items else []
    }
  }

  datatype Fetch = Fetch(
    project: Fetched<Project>,
    folders: Fetched<Folder>,
    statuses: Fetched<Lookup>,
    priorities: Fetched<Lookup>,
    environments: Fetched<Lookup>,
    cases: Fetched<TestCase>,
    cycles: Fetched<TestCycle>,
    executions: Fetched<Execution>)

  function Nullable(c: Column, v: Option<string>): map<Column, string> {
    if v.Some? then map[c := v.value] else map[]
  }

  function ProjectItem(p: Project): Item {
    Item(RowId(Projects, p.id), Row(p.key, map[], p.fields))
  }

  function Placeholder(key: string): Project {
    Project("placeholder_" + key, key, "Project " + key + "Placeholder project for " + key)
  }

  function FolderItem(f: Folder, key: string): Item {
    Item(RowId(Folders, f.id), Row("", map[ProjectKey := key] + Nullable(ParentId, f.parent), f.fields))
  }

  function LookupItem(t: Table, l: Lookup, key: string): Item {
    Item(RowId(t, l.id), Row("", map[ProjectKey := key], l.fields))
  }

  function CaseItem(t: TestCase, key: string): Item {
    Item(RowId(TestCases, t.id),
         Row(t.key, map[ProjectKey := key] + Nullable(PriorityId, t.priority) + Nullable(FolderId, t.folder), t.fields))
  }

  function CycleItem(t: TestCycle, key: string): Item {
    Item(RowId(TestCycles, t.id), Row(t.key, map[ProjectKey := key] + Nullable(FolderId, t.folder), t.fields))
  }

  function ExecutionItem(e: Execution, key: string): Item {
    Item(RowId(TestExecutions, e.id),
         Row("", map[ProjectKey := key, TestCaseKey := e.caseKey, CycleId := e.cycleId] + Nullable(EnvironmentId, e.environment), e.fields))
  }

  function Map<T>(xs: seq<T>, f: T -> Item): (r: seq<Item>)
    ensures |r| == |xs| && forall i | 0 <= i < |xs| :: r[i] == f(xs[i])
    ensures forall x | x in xs :: f(x) in r
  {
    seq(|xs|, i requires 0 <= i < |xs| => f(xs[i]))
  }

  /** The rows of one table, in the order they are saved. */
  function RowsOf(t: Table, fetch: Fetch, key: string): seq<Item> {
    match t
    case Folders => Map(SortByIdLength(fetch.folders.Items()), f => FolderItem(f, key))
    case Statuses => Map(fetch.statuses.Items(), s => LookupItem(Statuses, s, key))
    case Priorities => Map(fetch.priorities.Items(), p => LookupItem(Priorities, p, key))
    case Environments => Map(fetch.environments.Items(), e => LookupItem(Environments, e, key))
    case TestCases => Map(fetch.cases.Items(), c => CaseItem(c, key))
    case TestCycles => Map(fetch.cycles.Items(), c => CycleItem(c, key))
    case TestExecutions => Map(fetch.executions.Items(), e => ExecutionItem(e, key))
    case _ => []
  }

  /** The order in which the tables are filled. */
  const ORDER: seq<Table> := [Folders, Statuses, Priorities, Environments, TestCases, TestCycles, TestExecutions]

  function RowsUpTo(n: nat, fetch: Fetch, key: string): seq<Item>
    requires n <= |ORDER|
  {
    if n == 0 then [] else RowsUpTo(n - 1, fetch, key) + RowsOf(ORDER[n - 1], fetch, key)
  }

  function Rows(fetch: Fetch, key: string): seq<Item> {
    RowsUpTo(|ORDER|, fetch, key)
  }

  // ---- The import ----

  /** The project row: replaced if it was fetched, put in if it was not asked for, and
      left alone if fetching it failed or found nothing. */
  function SaveProject(db: Database, key: string, project: Fetched<Project>): Run {
    match project
    case Fetched(items) => if items == [] then Run(db, true) else Run(db, true).Then(ProjectItem(items[0]))
    case Failed => Run(db, true)
    case NotRequested =>
      var it := ProjectItem(Placeholder(key));
      match InsertOrIgnore(db, it.rid, it.row)
      case Committed(after) => Run(after, true)
      case IntegrityError => Run(db, false)
  }

  function Import(db: Database, key: string, fetch: Fetch): Run {
    var r := SaveProject(db, key, fetch.project);
    if r.ok then SaveAll(r.db, Rows(fetch, key)) else r
  }

  /** The numbers reported: one per table that was fetched, and 1 for the project unless
      fetching it failed or found nothing. */
  function Counts(n: nat, key: string, fetch: Fetch): map<Table, nat>
    requires n <= |ORDER|
  {
    if n == 0 then
      if fetch.project.Failed? || fetch.project == Fetched([]) then map[] else map[Projects := 1]
    else
      var counts := Counts(n - 1, key, fetch);
      if WasFetched(ORDER[n - 1], fetch) then counts[ORDER[n - 1] := |RowsOf(ORDER[n - 1], fetch, key)|] else counts
  }

  predicate WasFetched(t: Table, fetch: Fetch) {
    match t
    case Folders => fetch.folders.Fetched?
    case Statuses => fetch.statuses.Fetched?
    case Priorities => fetch.priorities.Fetched?
    case Environments => fetch.environments.Fetched?
    case TestCases => fetch.cases.Fetched?
    case TestCycles => fetch.cycles.Fetched?
    case TestExecutions => fetch.executions.Fetched?
    case _ => false
  }

  lemma OneSectionMore(db: Database, fetch: Fetch, key: string, n: nat, next: nat)
    requires n < |ORDER| && next == n + 1
    ensures SaveAll(db, RowsUpTo(next, fetch, key))
         == var r := SaveAll(db, RowsUpTo(n, fetch, key)); if r.ok then SaveAll(r.db, RowsOf(ORDER[n], fetch, key)) else r
  {
    SaveAllSplits(db, RowsUpTo(n, fetch, key), RowsOf(ORDER[n], fetch, key));
  }

  class DatabaseManager {
    var rows: Database

    constructor ()
      ensures rows == map[]
    {
      rows := map[];
    }

    /** One INSERT OR REPLACE in its own transaction. */
    method SaveRow(it: Item) returns (ok: bool)
      modifies this
      ensures Run(rows, ok) == Run(old(rows), true).Then(it)
    {
      var outcome := InsertOrReplace(rows, it.rid, it.row);
      ok := outcome.Committed?;
      if ok {
        rows := outcome.db;
      }
    }

    /** The loop over one fetched list. */
    method SaveEach(items: seq<Item>) returns (ok: bool)
      modifies this
      ensures Run(rows, ok) == SaveAll(old(rows), items)
    {
      ok := true;
      var i := 0;
      while i < |items| && ok
        invariant 0 <= i <= |items|
        invariant Run(rows, ok) == SaveRange(old(rows), items, 0, i)
      {
        ok := SaveRow(items[i]);
        i := i + 1;
      }
      RangeIsSlice(old(rows), items, 0, i);
      StopsOrEnds(old(rows), items, i);
    }

    method SaveProjectRow(key: string, project: Fetched<Project>) returns (ok: bool)
      modifies this
      ensures Run(rows, ok) == SaveProject(old(rows), key, project)
    {
      ok := true;
      match project
      case Fetched(items) =>
        if items != [] {
          ok := SaveRow(ProjectItem(items[0]));
        }
      case Failed =>
      case NotRequested =>
        var it := ProjectItem(Placeholder(key));
        var outcome := InsertOrIgnore(rows, it.rid, it.row);
        ok := outcome.Committed?;
        if ok {
          rows := outcome.db;
        }
    }

    /** The sections for the seven tables, one after the other. */
    method SaveTables(key: string, fetch: Fetch) returns (ok: bool, counts: map<Table, nat>)
      modifies this
      ensures Run(rows, ok) == SaveAll(old(rows), Rows(fetch, key))
      ensures ok ==> counts == Counts(|ORDER|, key, fetch)
    {
      ok, counts := true, Counts(0, key, fetch);
      var n := 0;
      while n < |ORDER| && ok
        invariant 0 <= n <= |ORDER|
        invariant Run(rows, ok) == SaveAll(old(rows), RowsUpTo(n, fetch, key))
        invariant ok ==> counts == Counts(n, key, fetch)
      {
        var section := RowsOf(ORDER[n], fetch, key);
        OneSectionMore(old(rows), fetch, key, n, n + 1);
        ok := SaveEach(section);
        if WasFetched(ORDER[n], fetch) {
          counts := counts[ORDER[n] := |section|];
        }
        n := n + 1;
      }
      if !ok {
        FailureIsFinal(old(rows), n, fetch, key);
      }
    }

    method SaveProjectData(key: string, fetch: Fetch) returns (ok: bool, counts: map<Table, nat>)
      modifies this
      ensures Run(rows, ok) == Import(old(rows), key, fetch)
      ensures ok ==> counts == Counts(|ORDER|, key, fetch)
    {
      counts := map[];
      ok := SaveProjectRow(key, fetch.project);
      if ok {
        ok, counts := SaveTables(key, fetch);
      }
    }
  }

  lemma StopsOrEnds(db: Database, items: seq<Item>, i: nat)
    requires i <= |items| && (i == |items| || !SaveAll(db, items[0..i]).ok)
    ensures SaveAll(db, items) == SaveAll(db, items[0..i])
  {
    SaveAllSplits(db, items[0..i], items[i..]);
    assert items[0..i] + items[i..] == items;
  }

  lemma {:induction false} FailureIsFinal(db: Database, n: nat, fetch: Fetch, key: string)
    requires n <= |ORDER| && !SaveAll(db, RowsUpTo(n, fetch, key)).ok
    ensures SaveAll(db, Rows(fetch, key)) == SaveAll(db, RowsUpTo(n, fetch, key))
    decreases |ORDER| - n
  {
    if n < |ORDER| {
      SaveAllSplits(db, RowsUpTo(n, fetch, key), RowsOf(ORDER[n], fetch, key));
      FailureIsFinal(db, n + 1, fetch, key);
    }
  }
}
