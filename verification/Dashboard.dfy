/** `get_recent_activity`: the newest items of two tables, merged. */
module Dashboard {
  import opened Wrappers
  import opened Numbers
  import opened Sequences
  import opened StableSort

  datatype Activity = Activity(timestamp: int, what: string)

  ghost predicate NewestFirst(s: seq<Activity>) {
    forall i, j | 0 <= i < j < |s| :: s[i].timestamp >= s[j].timestamp
  }

  function Age(a: Activity): int {
    -a.timestamp
  }

  /** `sort(key=timestamp, reverse=True)`, which keeps the order of equals. */
  function Sorted(s: seq<Activity>): seq<Activity> {
    SortBy(s, Age)
  }

  lemma SortedSorts(s: seq<Activity>)
    ensures NewestFirst(Sorted(s)) && multiset(Sorted(s)) == multiset(s) && |Sorted(s)| == |s|
  {
    SortSorts(s, Age);
    var r := Sorted(s);
    forall i, j | 0 <= i < j < |r|
      ensures r[i].timestamp >= r[j].timestamp
    {
      assert Age(r[i]) <= Age(r[j]);
    }
  }

  /** How many items of `s` are at least as new as `t`. */
  function AtLeast(s: seq<Activity>, t: int): nat {
    if s == [] then 0 else (if s[0].timestamp >= t then 1 else 0) + AtLeast(s[1..], t)
  }

  lemma {:induction false} AtLeastSplits(a: seq<Activity>, b: seq<Activity>, t: int)
    ensures AtLeast(a + b, t) == AtLeast(a, t) + AtLeast(b, t)
  {
    if a == [] {
      assert a + b == b;
    } else {
      AtLeastSplits(a[1..], b, t);
      assert (a + b)[1..] == a[1..] + b;
    }
  }

  lemma {:induction false} AtLeastInserted(a: Activity, s: seq<Activity>, t: int)
    ensures AtLeast(Insert(a, s, Age), t) == AtLeast([a], t) + AtLeast(s, t)
  {
    if s == [] || Age(a) <= Age(s[0]) {
      AtLeastSplits([a], s, t);
    } else {
      AtLeastInserted(a, s[1..], t);
      assert Insert(a, s, Age)[1..] == Insert(a, s[1..], Age);
    }
  }

  lemma {:induction false} AtLeastSorted(s: seq<Activity>, t: int)
    ensures AtLeast(Sorted(s), t) == AtLeast(s, t)
  {
    if s != [] {
      AtLeastSorted(s[1..], t);
      AtLeastInserted(s[0], Sorted(s[1..]), t);
      AtLeastSplits([s[0]], s[1..], t);
      assert s == [s[0]] + s[1..];
    }
  }

  /** In a list sorted newest first, the items at least as new as `t` are a prefix. */
  lemma {:induction false} AtLeastIsPrefix(s: seq<Activity>, t: int, i: nat)
    requires NewestFirst(s) && i < |s|
    ensures s[i].timestamp >= t <==> i < AtLeast(s, t)
  {
    if i > 0 {
      AtLeastIsPrefix(s[1..], t, i - 1);
      assert s[1..][i - 1] == s[i];
    } else if s[0].timestamp < t {
      NoneAtLeast(s, t);
    }
  }

  lemma {:induction false} NoneAtLeast(s: seq<Activity>, t: int)
    requires forall i | 0 <= i < |s| :: s[i].timestamp < t
    ensures AtLeast(s, t) == 0
  {
    if s != [] {
      NoneAtLeast(s[1..], t);
    }
  }

  lemma {:induction false} AtLeastBound(s: seq<Activity>, t: int)
    ensures AtLeast(s, t) <= |s|
  {
    if s != [] { AtLeastBound(s[1..], t); }
  }

  lemma {:induction false} AtLeastTaken(s: seq<Activity>, n: nat, t: int)
    requires NewestFirst(s)
    ensures AtLeast(Limit(s, n), t) == Min(n, AtLeast(s, t))
  {
    AtLeastBound(s, t);
    if |s| > n > 0 {
      AtLeastTaken(s[1..], n - 1, t);
      assert s[..n][1..] == s[1..][..n - 1];
      if s[0].timestamp < t {
        NoneAtLeast(s, t);
      }
    }
  }

  /** The newest `limit` of the newest `limit` of two tables. */
  function Merged(batches: seq<Activity>, issues: seq<Activity>, limit: nat): seq<Activity> {
    Limit(Sorted(Limit(batches, limit) + Limit(issues, limit)), limit)
  }

  /** The rows before the first one that cannot be turned into an item. */
  function Readable(rows: seq<Option<Activity>>): seq<Activity> {
    if rows == [] || rows[0].None? then [] else [rows[0].value] + Readable(rows[1..])
  }

  /** Whether rows are cut before or after the unreadable ones makes no difference. */
  lemma {:induction false} ReadableRows(rows: seq<Option<Activity>>, n: nat)
    ensures Readable(Limit(rows, n)) == Limit(Readable(rows), n)
  {
    if rows != [] && rows[0].Some? && n > 0 {
      ReadableRows(rows[1..], n - 1);
      assert Limit(rows, n)[1..] == Limit(rows[1..], n - 1);
      assert Readable(rows)[1..] == Readable(rows[1..]);
    }
  }

  lemma {:induction false} ReadableSoFar(rows: seq<Option<Activity>>, i: nat)
    requires i <= |rows| && forall j | 0 <= j < i :: rows[j].Some?
    requires i == |rows| || rows[i].None?
    ensures |Readable(rows)| == i && forall j | 0 <= j < i :: Readable(rows)[j] == rows[j].value
  {
    if i > 0 {
      ReadableSoFar(rows[1..], i - 1);
    }
  }

  /** `get_recent_activity`: `batches` and `issues` are the two tables, newest first.  The
      issues are missing if their table does not exist or the query fails; a row that
      cannot be turned into an item is a None, and ends the loop. */
  method GetRecentActivity(batches: seq<Activity>, issues: Option<seq<Option<Activity>>>, limit: nat) returns (activity: seq<Activity>)
    ensures activity == Merged(batches, if issues.Some? then Readable(issues.value) else [], limit)
  {
    activity := [];
    var recent := Limit(batches, limit);
    var i := 0;
    while i < |recent|
      invariant 0 <= i <= |recent| && activity == recent[..i]
    {
      activity := activity + [recent[i]];
      i := i + 1;
    }
    if issues.Some? {
      var recentIssues := Limit(issues.value, limit);
      i := 0;
      while i < |recentIssues|
        invariant 0 <= i <= |recentIssues| && |activity| == |recent| + i && activity[..|recent|] == recent
        invariant forall j | 0 <= j < i :: recentIssues[j].Some? && activity[|recent| + j] == recentIssues[j].value
      {
        if recentIssues[i].None? {
          break;
        }
        activity := activity + [recentIssues[i].value];
        i := i + 1;
      }
      ReadableSoFar(recentIssues, i);
      ReadableRows(issues.value, limit);
      assert activity == recent + Limit(Readable(issues.value), limit);
    } else {
      assert recent + [] == recent;
    }
    activity := Sorted(activity);
    activity := Limit(activity, limit);
  }

  lemma MergedCounts(batches: seq<Activity>, issues: seq<Activity>, limit: nat, t: int)
    requires NewestFirst(batches) && NewestFirst(issues)
    ensures AtLeast(Merged(batches, issues, limit), t) == Min(limit, AtLeast(batches + issues, t))
  {
    var recent := Limit(batches, limit) + Limit(issues, limit);
    SortedSorts(recent);
    AtLeastTaken(Sorted(recent), limit, t);
    AtLeastSorted(recent, t);
    AtLeastSplits(Limit(batches, limit), Limit(issues, limit), t);
    AtLeastSplits(batches, issues, t);
    AtLeastTaken(batches, limit, t);
    AtLeastTaken(issues, limit, t);
  }

  /** Limiting each query loses nothing: the merge shows the same timestamps as sorting both
      tables whole and cutting once. */
  lemma MergedIsTopOfBoth(batches: seq<Activity>, issues: seq<Activity>, limit: nat)
    requires NewestFirst(batches) && NewestFirst(issues)
    ensures var merged, global := Merged(batches, issues, limit), Limit(Sorted(batches + issues), limit);
      && |merged| == |global| == Min(limit, |batches| + |issues|)
      && forall i | 0 <= i < |merged| :: merged[i].timestamp == global[i].timestamp
  {
    var merged, global := Merged(batches, issues, limit), Limit(Sorted(batches + issues), limit);
    MergedShape(batches, issues, limit);
    forall i | 0 <= i < |merged|
      ensures merged[i].timestamp == global[i].timestamp
    {
      SameRank(batches, issues, limit, merged[i].timestamp);
      SameRank(batches, issues, limit, global[i].timestamp);
      SameTimestamp(merged, global, i);
    }
  }

  lemma SameTimestamp(a: seq<Activity>, b: seq<Activity>, i: nat)
    requires NewestFirst(a) && NewestFirst(b) && i < |a| && i < |b|
    requires AtLeast(a, a[i].timestamp) == AtLeast(b, a[i].timestamp)
    requires AtLeast(a, b[i].timestamp) == AtLeast(b, b[i].timestamp)
    ensures a[i].timestamp == b[i].timestamp
  {
    AtLeastIsPrefix(a, a[i].timestamp, i);
    AtLeastIsPrefix(b, a[i].timestamp, i);
    AtLeastIsPrefix(a, b[i].timestamp, i);
    AtLeastIsPrefix(b, b[i].timestamp, i);
  }

  lemma MergedShape(batches: seq<Activity>, issues: seq<Activity>, limit: nat)
    requires NewestFirst(batches) && NewestFirst(issues)
    ensures var merged, global := Merged(batches, issues, limit), Limit(Sorted(batches + issues), limit);
      |merged| == |global| == Min(limit, |batches| + |issues|) && NewestFirst(merged) && NewestFirst(global)
  {
    SortedSorts(Limit(batches, limit) + Limit(issues, limit));
    SortedSorts(batches + issues);
  }

  lemma SameRank(batches: seq<Activity>, issues: seq<Activity>, limit: nat, t: int)
    requires NewestFirst(batches) && NewestFirst(issues)
    ensures AtLeast(Merged(batches, issues, limit), t) == AtLeast(Limit(Sorted(batches + issues), limit), t)
  {
    MergedCounts(batches, issues, limit, t);
    SortedSorts(batches + issues);
    AtLeastTaken(Sorted(batches + issues), limit, t);
    AtLeastSorted(batches + issues, t);
  }

  lemma TakeIsPart(s: seq<Activity>, n: nat)
    ensures multiset(Limit(s, n)) <= multiset(s)
  {
    if |s| > n {
      assert s == s[..n] + s[n..];
    }
  }

  /** Everything shown is stored. */
  lemma ShownIsStored(batches: seq<Activity>, issues: seq<Activity>, limit: nat)
    ensures multiset(Merged(batches, issues, limit)) <= multiset(batches + issues)
  {
    var recent := Limit(batches, limit) + Limit(issues, limit);
    SortedSorts(recent);
    TakeIsPart(Sorted(recent), limit);
    TakeIsPart(batches, limit);
    TakeIsPart(issues, limit);
  }

  /** Nothing left out is newer than anything shown. */
  lemma NothingNewerIsLeftOut(batches: seq<Activity>, issues: seq<Activity>, limit: nat, x: Activity, i: nat)
    requires NewestFirst(batches) && NewestFirst(issues) && i < |Merged(batches, issues, limit)|
    requires x in multiset(batches + issues) - multiset(Merged(batches, issues, limit))
    ensures x.timestamp <= Merged(batches, issues, limit)[i].timestamp
  {
    var merged := Merged(batches, issues, limit);
    MergedShape(batches, issues, limit);
    ShownIsStored(batches, issues, limit);
    MergedCounts(batches, issues, limit, x.timestamp);
    AtLeastIsPrefix(merged, x.timestamp, i);
    if AtLeast(merged, x.timestamp) <= i {
      AllShown(batches + issues, merged, x.timestamp, x);
      assert false;
    }
  }

  /** If `part` has as many items as new as `t` as `all` has, it has all of them. */
  lemma {:induction false} AllShown(all: seq<Activity>, part: seq<Activity>, t: int, x: Activity)
    requires multiset(part) <= multiset(all) && AtLeast(part, t) == AtLeast(all, t) && x.timestamp >= t
    ensures multiset(part)[x] == multiset(all)[x]
    decreases |all|
  {
    if part == [] {
      if x in all { SomeAtLeast(all, t, x); }
    } else {
      var a := part[0];
      assert part == [a] + part[1..];
      assert a in multiset(part) && a in all;
      var j :| 0 <= j < |all| && all[j] == a;
      var rest := all[..j] + all[j + 1..];
      OneRemoved(all, j, t);
      assert multiset(part) == multiset(part[1..]) + multiset{a};
      SameRemoved(multiset(part[1..]), multiset(rest), a);
      AllShown(rest, part[1..], t, x);
    }
  }

  lemma SameRemoved(p: multiset<Activity>, q: multiset<Activity>, a: Activity)
    requires p + multiset{a} <= q + multiset{a}
    ensures p <= q
  {
    forall x
      ensures p[x] <= q[x]
    {
      assert (p + multiset{a})[x] <= (q + multiset{a})[x];
    }
  }

  lemma OneRemoved(s: seq<Activity>, j: nat, t: int)
    requires j < |s|
    ensures var rest := s[..j] + s[j + 1..];
      && multiset(s) == multiset(rest) + multiset{s[j]}
      && AtLeast(s, t) == AtLeast(rest, t) + if s[j].timestamp >= t then 1 else 0
  {
    assert s == s[..j] + ([s[j]] + s[j + 1..]);
    AtLeastSplits(s[..j], [s[j]] + s[j + 1..], t);
    AtLeastSplits(s[..j], s[j + 1..], t);
    assert ([s[j]] + s[j + 1..])[1..] == s[j + 1..];
  }

  lemma {:induction false} SomeAtLeast(s: seq<Activity>, t: int, x: Activity)
    requires x in s && x.timestamp >= t
    ensures AtLeast(s, t) > 0
  {
    if s[0] != x {
      assert x in s[1..];
      SomeAtLeast(s[1..], t, x);
    }
  }
}
