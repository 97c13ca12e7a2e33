/** `DataComparisonValidator`: do the migrated entities hang together as the originals do? */
module MigrationChecks {
  import opened Wrappers

  /** An entity and what it belongs to: a test case and its folder, an execution and its test
      case, an execution and its cycle. */
  datatype Child = Child(id: string, parent: Option<string>)

  /** The database calls one relationship validator makes; each may raise. */
  datatype Relation = Relation(
    children: Result<seq<Child>>,
    mappedParent: string -> Result<Option<string>>,
    mappedChild: string -> Result<Option<string>>,
    actualParent: string -> Result<Option<string>>)

  datatype Issue = Mismatch(id: string) | ValidationError

  /** Python's truth value of an id. */
  predicate Truthy(id: Option<string>) {
    id.Some? && id.value != ""
  }

  /** One round of the loop: nothing to report, a mismatch, or an exception. */
  datatype Verdict = Fine | Wrong | Raises

  function Check(r: Relation, c: Child): Verdict {
    if !Truthy(c.parent) then Fine
    else match r.mappedParent(c.parent.value)
      case Raised => Raises
      case Ok(expected) =>
        if !Truthy(expected) then Fine
        else match r.mappedChild(c.id)
          case Raised => Raises
          case Ok(child) =>
            if !Truthy(child) then Fine
            else match r.actualParent(child.value)
              case Raised => Raises
              case Ok(actual) => if actual == expected then Fine else Wrong
  }

  /** The mismatches up to the first exception, and that exception as an issue of its own. */
  function Issues(r: Relation, children: seq<Child>): seq<Issue> {
    if children == [] then []
    else match Check(r, children[0])
      case Fine => Issues(r, children[1..])
      case Wrong => [Mismatch(children[0].id)] + Issues(r, children[1..])
      case Raises => [ValidationError]
  }

  /** The body of the loop: each call is made only if the ones before it found something. */
  method CheckOne(r: Relation, c: Child) returns (verdict: Verdict)
    ensures verdict == Check(r, c)
  {
    if !Truthy(c.parent) {
      return Fine;
    }
    var expected := r.mappedParent(c.parent.value);
    if expected.Raised? {
      return Raises;
    }
    if !Truthy(expected.value) {
      return Fine;
    }
    var child := r.mappedChild(c.id);
    if child.Raised? {
      return Raises;
    }
    if !Truthy(child.value) {
      return Fine;
    }
    var actual := r.actualParent(child.value.value);
    if actual.Raised? {
      return Raises;
    }
    return if actual == expected then Fine else Wrong;
  }

  /** `_validate_testcase_folder_relationships` and its two siblings. */
  method ValidateRelation(r: Relation) returns (issues: seq<Issue>)
    ensures issues == if r.children.Ok? then Issues(r, r.children.value) else [ValidationError]
    ensures issues == [] <==> r.children.Ok? && forall c | c in r.children.value :: Check(r, c) == Fine
  {
    issues := [];
    if r.children.Raised? {
      return [ValidationError];
    }
    var children := r.children.value;
    var i := 0;
    while i < |children|
      invariant 0 <= i <= |children|
      invariant issues + Issues(r, children[i..]) == Issues(r, children)
      invariant issues == [] <==> forall j | 0 <= j < i :: Check(r, children[j]) == Fine
    {
      var c := children[i];
      assert children[i..][1..] == children[i + 1..];
      var verdict := CheckOne(r, c);
      assert children[i] in children;
      if verdict == Raises {
        issues := issues + [ValidationError];
        return;
      }
      if verdict == Wrong {
        issues := issues + [Mismatch(c.id)];
      }
      i := i + 1;
    }
  }

  lemma Regrouped(a: seq<Issue>, b: seq<Issue>, c: seq<Issue>)
    ensures a + (b + c) == (a + b) + c
  {
  }

  lemma IssuesStart(r: Relation, children: seq<Child>)
    requires children != [] && Check(r, children[0]) != Raises
    ensures Issues(r, children) == (if Check(r, children[0]) == Wrong then [Mismatch(children[0].id)] else []) + Issues(r, children[1..])
  {
  }

  /** As long as nothing raises, every child is reported on its own, in order. */
  lemma {:induction false} IssuesSplit(r: Relation, a: seq<Child>, b: seq<Child>)
    requires forall c | c in a :: Check(r, c) != Raises
    ensures Issues(r, a + b) == Issues(r, a) + Issues(r, b)
  {
    if a == [] {
      assert a + b == b;
    } else {
      IssuesSplit(r, a[1..], b);
      assert (a + b)[0] == a[0] && (a + b)[1..] == a[1..] + b;
      Regrouped(if Check(r, a[0]) == Wrong then [Mismatch(a[0].id)] else [], Issues(r, a[1..]), Issues(r, b));
      IssuesStart(r, a);
      IssuesStart(r, a + b);
    }
  }

  /** A mismatch is reported exactly if its child comes before the first exception, and an
      exception, if there is one, ends the report. */
  lemma {:induction false} ReportIs(r: Relation, children: seq<Child>, i: nat)
    requires i < |children| && forall j | 0 <= j < i :: Check(r, children[j]) != Raises
    ensures Issues(r, children) == Issues(r, children[..i]) +
      match Check(r, children[i])
      case Fine => Issues(r, children[i + 1..])
      case Wrong => [Mismatch(children[i].id)] + Issues(r, children[i + 1..])
      case Raises => [ValidationError]
  {
    var front, rest := children[..i], children[i..];
    assert children == front + rest && rest[0] == children[i] && rest[1..] == children[i + 1..];
    IssuesSplit(r, front, rest);
  }

  // ---- The mapping tables behind the calls ----

  datatype Mapping = Mapping(source: string, target: string)

  function Lookup(rows: seq<Mapping>, id: string): Option<string> {
    if rows == [] then None else if rows[0].source == id then Some(rows[0].target) else Lookup(rows[1..], id)
  }

  /** A call that does not raise tells what the table holds. */
  ghost predicate Truthful(call: string -> Result<Option<string>>, rows: seq<Mapping>) {
    forall id :: call(id).Ok? ==> call(id).value == Lookup(rows, id)
  }

  lemma {:induction false} LookupFinds(rows: seq<Mapping>, id: string)
    ensures Lookup(rows, id).Some? <==> exists i :: 0 <= i < |rows| && rows[i].source == id
    ensures Lookup(rows, id).Some? ==> Mapping(id, Lookup(rows, id).value) in rows
  {
    if rows != [] && rows[0].source != id {
      LookupFinds(rows[1..], id);
      if i :| 0 <= i < |rows| && rows[i].source == id {
        assert rows[1..][i - 1] == rows[i];
      }
    }
  }

  /** No target id is the empty string. */
  predicate RealTargets(rows: seq<Mapping>) {
    forall i | 0 <= i < |rows| :: rows[i].target != ""
  }

  /** The child's image belongs to the image of its parent. */
  ghost predicate Commutes(r: Relation, parents: seq<Mapping>, children: seq<Mapping>, c: Child) {
    Truthy(c.parent) && Lookup(parents, c.parent.value).Some? && Lookup(children, c.id).Some? ==>
      r.actualParent(Lookup(children, c.id).value) == Ok(Lookup(parents, c.parent.value))
  }

  lemma FineMeansCommutes(r: Relation, parents: seq<Mapping>, children: seq<Mapping>, c: Child)
    requires Truthful(r.mappedParent, parents) && Truthful(r.mappedChild, children)
    requires RealTargets(parents) && RealTargets(children)
    requires Check(r, c) == Fine
    ensures Commutes(r, parents, children, c)
  {
    if Truthy(c.parent) {
      LookupFinds(parents, c.parent.value);
      LookupFinds(children, c.id);
    }
  }

  /** If no call raises, a relationship validator is silent exactly when the mapping is a
      homomorphism on its domain. */
  lemma CleanIffHomomorphism(r: Relation, parents: seq<Mapping>, children: seq<Mapping>)
    requires Truthful(r.mappedParent, parents) && Truthful(r.mappedChild, children)
    requires RealTargets(parents) && RealTargets(children)
    requires r.children.Ok? && forall id :: r.mappedParent(id).Ok? && r.mappedChild(id).Ok? && r.actualParent(id).Ok?
    ensures (forall c | c in r.children.value :: Check(r, c) == Fine)
       <==> (forall c | c in r.children.value :: Commutes(r, parents, children, c))
  {
    forall c | c in r.children.value
      ensures Check(r, c) == Fine <==> Commutes(r, parents, children, c)
    {
      if Truthy(c.parent) {
        LookupFinds(parents, c.parent.value);
        LookupFinds(children, c.id);
      }
    }
  }

  // ---- Counting ----

  /** The four counts of one side, up to the first one whose call raises. */
  function Readable(counts: seq<Result<nat>>): seq<nat> {
    if counts == [] || counts[0].Raised? then [] else [counts[0].value] + Readable(counts[1..])
  }

  function CountAt(counts: seq<nat>, k: nat): nat {
    if k < |counts| then counts[k] else 0
  }

  /** The count validator reports kind `k`. */
  predicate Reported(source: seq<Result<nat>>, target: seq<Result<nat>>, k: nat) {
    k < |Readable(source)| && Readable(source)[k] > CountAt(Readable(target), k)
  }

  /** The kinds below `n` with more entities than mappings, and how many are missing. */
  function Missing(sources: seq<nat>, targets: seq<nat>, n: nat): seq<(nat, nat)>
    requires n <= |sources|
  {
    if n == 0 then []
    else
      var k, have := n - 1, CountAt(targets, n - 1);
      Missing(sources, targets, k) + if sources[k] > have then [(k, sources[k] - have)] else []
  }

  lemma {:induction false} MissingIs(sources: seq<nat>, targets: seq<nat>, n: nat)
    requires n <= |sources|
    ensures forall m :: m in Missing(sources, targets, n) <==> m.0 < n && m.1 > 0 && sources[m.0] == CountAt(targets, m.0) + m.1
    ensures forall i, j | 0 <= i < j < |Missing(sources, targets, n)| ::
      Missing(sources, targets, n)[i].0 < Missing(sources, targets, n)[j].0
  {
    if n > 0 {
      var k := n - 1;
      var before := Missing(sources, targets, k);
      MissingIs(sources, targets, k);
      assert forall i | 0 <= i < |before| :: before[i] in before;
    }
  }

  /** `validate_entity_counts`: the kinds (folders, test cases, cycles, executions: 0 to 3)
      with more entities than mappings, and by how many; a count that was not read is 0 on
      the mapping side, and not compared on the other. */
  method ValidateCounts(source: seq<Result<nat>>, target: seq<Result<nat>>) returns (missing: seq<(nat, nat)>)
    requires |source| == |target| == 4
    ensures missing == Missing(Readable(source), Readable(target), |Readable(source)|)
  {
    var sources, targets := Readable(source), Readable(target);
    missing := [];
    var k := 0;
    while k < |sources|
      invariant 0 <= k <= |sources| && missing == Missing(sources, targets, k)
    {
      var have := CountAt(targets, k);
      if sources[k] > have {
        missing := missing + [(k, sources[k] - have)];
      }
      k := k + 1;
    }
  }

  /** A kind is listed exactly if it is reported, and then with exactly what it lacks. */
  lemma ListedIffReported(source: seq<Result<nat>>, target: seq<Result<nat>>, k: nat, lacks: nat)
    ensures (k, lacks) in Missing(Readable(source), Readable(target), |Readable(source)|) <==>
      Reported(source, target, k) && Readable(source)[k] == CountAt(Readable(target), k) + lacks
  {
    MissingIs(Readable(source), Readable(target), |Readable(source)|);
    assert (k, lacks).0 == k && (k, lacks).1 == lacks;
  }

  /** Kinds are listed in order, each once, and none exactly if none is reported. */
  lemma ListedOnce(source: seq<Result<nat>>, target: seq<Result<nat>>)
    ensures var missing := Missing(Readable(source), Readable(target), |Readable(source)|);
      && (forall i, j | 0 <= i < j < |missing| :: missing[i].0 < missing[j].0)
      && (missing == [] <==> forall k | 0 <= k < |Readable(source)| :: !Reported(source, target, k))
  {
    var sources, targets := Readable(source), Readable(target);
    var missing := Missing(sources, targets, |sources|);
    MissingIs(sources, targets, |sources|);
    if missing != [] {
      var (k, lacks) := missing[0];
      assert (k, lacks) in missing;
      ListedIffReported(source, target, k, lacks);
    }
    if k :| 0 <= k < |sources| && Reported(source, target, k) {
      ListedIffReported(source, target, k, sources[k] - CountAt(targets, k));
    }
  }

  predicate DistinctSources(rows: seq<Mapping>) {
    forall i, j | 0 <= i < j < |rows| :: rows[i].source != rows[j].source
  }

  lemma {:induction false} DistinctSourcesCount(rows: seq<Mapping>, n: nat)
    requires DistinctSources(rows) && n <= |rows|
    ensures |set i | 0 <= i < n :: rows[i].source| == n
  {
    if n > 0 {
      DistinctSourcesCount(rows, n - 1);
      var before := set i | 0 <= i < n - 1 :: rows[i].source;
      assert (set i | 0 <= i < n :: rows[i].source) == before + {rows[n - 1].source};
    }
  }

  lemma {:induction false} MembersCount(ids: seq<string>)
    ensures |set id | id in ids| <= |ids|
  {
    if ids != [] {
      MembersCount(ids[1..]);
      assert (set id | id in ids) == {ids[0]} + (set id | id in ids[1..]);
    }
  }

  lemma SubsetAsLarge<T>(a: set<T>, b: set<T>)
    requires a <= b && |a| >= |b|
    ensures a == b
  {
    assert |b - a| == |b| - |a| by { assert a + (b - a) == b; }
  }

  /** Pigeonhole: as many mappings as entities, with distinct sources that are all entities,
      leave no entity unmapped. */
  lemma EveryEntityIsMapped(ids: seq<string>, rows: seq<Mapping>)
    requires DistinctSources(rows) && forall i | 0 <= i < |rows| :: rows[i].source in ids
    requires |ids| <= |rows|
    ensures forall id | id in ids :: Lookup(rows, id).Some?
  {
    var all, mapped := set id | id in ids, set i | 0 <= i < |rows| :: rows[i].source;
    MembersCount(ids);
    DistinctSourcesCount(rows, |rows|);
    SubsetAsLarge(mapped, all);
    forall id | id in ids
      ensures Lookup(rows, id).Some?
    {
      assert id in mapped;
      LookupFinds(rows, id);
    }
  }

  // ---- Both together ----

  /** One kind of entity: its ids, and its rows in the mapping table. */
  datatype Kind = Kind(ids: seq<string>, rows: seq<Mapping>) {
    ghost predicate WellMapped() {
      DistinctSources(rows) && RealTargets(rows) && forall i | 0 <= i < |rows| :: rows[i].source in ids
    }
  }

  /** The validator's calls tell, when they do not raise, what is stored about these kinds. */
  ghost predicate Describes(r: Relation, parent: Kind, child: Kind) {
    && Truthful(r.mappedParent, parent.rows) && Truthful(r.mappedChild, child.rows)
    && (r.children.Ok? ==> forall c | c in r.children.value ::
          c.id in child.ids && (Truthy(c.parent) ==> c.parent.value in parent.ids))
  }

  ghost predicate Clean(r: Relation) {
    r.children.Ok? && forall c | c in r.children.value :: Check(r, c) == Fine
  }

  /** Every child that belongs somewhere is migrated, and sits under its parent's image. */
  ghost predicate FullyMigrated(r: Relation, parent: Kind, child: Kind) {
    && r.children.Ok?
    && forall c | c in r.children.value && Truthy(c.parent) ::
         && Lookup(child.rows, c.id).Some? && Lookup(parent.rows, c.parent.value).Some?
         && r.actualParent(Lookup(child.rows, c.id).value) == Ok(Lookup(parent.rows, c.parent.value))
  }

  lemma CleanRelationIsFullyMigrated(r: Relation, parent: Kind, child: Kind)
    requires Describes(r, parent, child) && Clean(r) && parent.WellMapped() && child.WellMapped()
    requires |parent.ids| <= |parent.rows| && |child.ids| <= |child.rows|
    ensures FullyMigrated(r, parent, child)
  {
    EveryEntityIsMapped(parent.ids, parent.rows);
    EveryEntityIsMapped(child.ids, child.rows);
    forall c | c in r.children.value && Truthy(c.parent)
      ensures && Lookup(child.rows, c.id).Some? && Lookup(parent.rows, c.parent.value).Some?
              && r.actualParent(Lookup(child.rows, c.id).value) == Ok(Lookup(parent.rows, c.parent.value))
    {
      FineMeansCommutes(r, parent.rows, child.rows, c);
    }
  }

  /** If the three relationship validators and the count validator report nothing, and all
      counts were readable, then every test case sits in the image of its folder, and every
      run under the images of its test case and its cycle. */
  lemma {:induction false} CleanMigrationIsComplete(kinds: seq<Kind>, caseFolder: Relation, runCase: Relation, runCycle: Relation,
                                 source: seq<Result<nat>>, target: seq<Result<nat>>)
    requires |kinds| == |source| == |target| == 4
    requires forall k | 0 <= k < 4 :: kinds[k].WellMapped()
    requires forall k | 0 <= k < 4 :: source[k] == Ok(|kinds[k].ids|) && target[k] == Ok(|kinds[k].rows|)
    requires Describes(caseFolder, kinds[0], kinds[1]) && Describes(runCase, kinds[1], kinds[3])
    requires Describes(runCycle, kinds[2], kinds[3])
    requires Clean(caseFolder) && Clean(runCase) && Clean(runCycle)
    requires forall k | 0 <= k < |Readable(source)| :: Readable(source)[k] <= CountAt(Readable(target), k)
    ensures FullyMigrated(caseFolder, kinds[0], kinds[1])
    ensures FullyMigrated(runCase, kinds[1], kinds[3])
    ensures FullyMigrated(runCycle, kinds[2], kinds[3])
  {
    forall k | 0 <= k < 4
      ensures |kinds[k].ids| <= |kinds[k].rows|
    {
      ComparedIffReadableSoFar(source, k);
      ComparedIffReadableSoFar(target, k);
      assert Readable(source)[k] <= CountAt(Readable(target), k);
    }
    CleanRelationIsFullyMigrated(caseFolder, kinds[0], kinds[1]);
    CleanRelationIsFullyMigrated(runCase, kinds[1], kinds[3]);
    CleanRelationIsFullyMigrated(runCycle, kinds[2], kinds[3]);
  }

  /** Which counts are compared: those up to the first call that raises.  What lies behind
      it is reported missing by nobody. */
  lemma {:induction false} ComparedIffReadableSoFar(counts: seq<Result<nat>>, k: nat)
    requires k < |counts|
    ensures k < |Readable(counts)| <==> forall j | 0 <= j <= k :: counts[j].Ok?
    ensures k < |Readable(counts)| ==> Readable(counts)[k] == counts[k].value
  {
    if k > 0 {
      ComparedIffReadableSoFar(counts[1..], k - 1);
      assert forall j | 1 <= j <= k :: counts[j] == counts[1..][j - 1];
      assert forall j | 0 <= j <= k - 1 :: counts[1..][j] == counts[j + 1];
    }
  }

  /** Exactly when a kind is reported, in terms of the numbers there really are: its count
      and the earlier ones were readable, and it has more entities than mappings, or any at
      all if the mappings' counts were not readable so far. */
  lemma ReportedIff(source: seq<Result<nat>>, target: seq<Result<nat>>, k: nat, entities: nat, mappings: nat)
    requires k < |source| == |target|
    requires source[k].Ok? ==> source[k].value == entities
    requires target[k].Ok? ==> target[k].value == mappings
    ensures Reported(source, target, k) <==>
      && (forall j | 0 <= j <= k :: source[j].Ok?)
      && entities > if forall j | 0 <= j <= k :: target[j].Ok? then mappings else 0
  {
    ComparedIffReadableSoFar(source, k);
    ComparedIffReadableSoFar(target, k);
  }

  /** So one unreadable count, of folders, hides that no test case is mapped. */
  lemma UnreadableCountHidesMissing(cases: nat)
    ensures var source, target := [Raised, Ok(cases), Ok(0), Ok(0)], [Ok(0), Ok(0), Ok(0), Ok(0)];
      forall k | 0 <= k < 4 :: !Reported(source, target, k)
  {
    var source, target := [Raised, Ok(cases), Ok(0), Ok(0)], [Ok(0), Ok(0), Ok(0), Ok(0)];
    ReportedIff(source, target, 1, cases, 0);
  }
}
