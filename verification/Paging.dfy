/** Reading a table page by page, by key. */
module Paging {
  import opened Wrappers
  import opened Sequences

  datatype Row = Row(id: int, data: string)

  /** A table, as a query ordered by its unique id returns it. */
  ghost predicate Ordered(t: seq<Row>) {
    forall i, j | 0 <= i < j < |t| :: t[i].id < t[j].id
  }

  predicate Beyond(last: Option<int>, id: int) {
    last.Some? ==> id > last.value
  }

  /** The filtered rows with keys beyond `last`. */
  function Matching(t: seq<Row>, filter: Row -> bool, last: Option<int>): seq<Row> {
    if t == [] then []
    else
      var rest := Matching(t[1..], filter, last);
      if filter(t[0]) && Beyond(last, t[0].id) then [t[0]] + rest else rest
  }

  /** `keyset_pagination`. */
  function KeysetPage(t: seq<Row>, filter: Row -> bool, last: Option<int>, size: nat): seq<Row> {
    Limit(Matching(t, filter, last), size)
  }

  lemma {:induction false} MatchingMembers(t: seq<Row>, filter: Row -> bool, last: Option<int>)
    ensures forall r :: r in Matching(t, filter, last) <==> r in t && filter(r) && Beyond(last, r.id)
  {
    if t != [] {
      MatchingMembers(t[1..], filter, last);
      assert t == [t[0]] + t[1..];
    }
  }

  lemma {:induction false} MatchingOrdered(t: seq<Row>, filter: Row -> bool, last: Option<int>)
    requires Ordered(t)
    ensures Ordered(Matching(t, filter, last))
  {
    if t != [] {
      var rest := Matching(t[1..], filter, last);
      MatchingOrdered(t[1..], filter, last);
      MatchingMembers(t[1..], filter, last);
      forall i | 0 <= i < |rest|
        ensures t[0].id < rest[i].id
      {
        assert rest[i] in rest;
        var j :| 0 <= j < |t[1..]| && t[1..][j] == rest[i];
        assert t[j + 1] == rest[i];
      }
    }
  }

  lemma {:induction false} OrderedAreEqual(a: seq<Row>, b: seq<Row>)
    requires Ordered(a) && Ordered(b) && forall r :: r in a <==> r in b
    ensures a == b
  {
    assert (a == [] || a[0] in a) && (b == [] || b[0] in b);
    if a != [] && b != [] {
      assert a[0] in b && b[0] in a;
      var i :| 0 <= i < |b| && b[i] == a[0];
      var j :| 0 <= j < |a| && a[j] == b[0];
      assert a[0] == b[0];
      assert a == [a[0]] + a[1..] && b == [b[0]] + b[1..];
      forall r
        ensures r in a[1..] <==> r in b[1..]
      {
        assert r in a[1..] <==> r in a && r != a[0];
        assert r in b[1..] <==> r in b && r != b[0];
      }
      OrderedAreEqual(a[1..], b[1..]);
    }
  }

  /** A page is the matching rows from its start, as many as its size allows. */
  lemma PageIsFirst(t: seq<Row>, filter: Row -> bool, last: Option<int>, size: nat)
    ensures var page, all := KeysetPage(t, filter, last, size), Matching(t, filter, last);
      page <= all && |page| <= size && (|page| < size ==> page == all)
  {
  }

  /** Once a page is read, what lies beyond its last key is what the page left. */
  lemma PageLeavesRest(t: seq<Row>, filter: Row -> bool, last: Option<int>, k: nat)
    requires Ordered(t) && 0 < k <= |Matching(t, filter, last)|
    ensures var all := Matching(t, filter, last);
      Matching(t, filter, Some(all[k - 1].id)) == all[k..]
  {
    var all := Matching(t, filter, last);
    var beyond := Matching(t, filter, Some(all[k - 1].id));
    MatchingMembers(t, filter, last);
    MatchingMembers(t, filter, Some(all[k - 1].id));
    MatchingOrdered(t, filter, last);
    MatchingOrdered(t, filter, Some(all[k - 1].id));
    assert all[k - 1] in all;
    forall r
      ensures r in beyond <==> r in all[k..]
    {
      if r in all {
        var i :| 0 <= i < |all| && all[i] == r;
        assert i >= k ==> all[k..][i - k] == r;
      }
    }
    OrderedAreEqual(beyond, all[k..]);
  }

  ghost predicate Present(t: seq<Row>, filter: Row -> bool, id: int) {
    exists r :: r in t && r.id == id && filter(r)
  }

  /** A row with this id matches the filter in every state of the table. */
  ghost predicate PresentThroughout(states: seq<seq<Row>>, filter: Row -> bool, id: int) {
    forall i | 0 <= i < |states| :: Present(states[i], filter, id)
  }

  ghost predicate Reads(processed: seq<Row>, id: int) {
    exists r :: r in processed && r.id == id
  }

  /** Everything up to the last key that was there throughout has been processed, in order
      of key, and from some state of the table. */
  ghost predicate Covered(states: seq<seq<Row>>, filter: Row -> bool, processed: seq<Row>, last: Option<int>) {
    && Ordered(processed)
    && last == (if processed == [] then None else Some(processed[|processed| - 1].id))
    && (forall id | PresentThroughout(states, filter, id) && !Beyond(last, id) :: Reads(processed, id))
    && (forall r | r in processed :: filter(r) && exists i :: 0 <= i < |states| && r in states[i])
  }

  lemma PageCovers(states: seq<seq<Row>>, q: nat, filter: Row -> bool, processed: seq<Row>, last: Option<int>, size: nat)
    requires q < |states| && Ordered(states[q]) && size >= 1
    requires Covered(states, filter, processed, last)
    requires KeysetPage(states[q], filter, last, size) != []
    ensures var page := KeysetPage(states[q], filter, last, size);
      Covered(states, filter, processed + page, Some(page[|page| - 1].id))
  {
    var t, page := states[q], KeysetPage(states[q], filter, last, size);
    MatchingMembers(t, filter, last);
    PageAscends(t, filter, last, size, processed);
    var now := processed + page;
    forall id | PresentThroughout(states, filter, id) && id <= page[|page| - 1].id
      ensures Reads(now, id)
    {
      if !Beyond(last, id) {
        var r :| r in processed && r.id == id;
        assert r in now;
      } else {
        assert Present(t, filter, id);
        PageReads(t, filter, last, size, id);
        var r :| r in page && r.id == id;
        assert r in now;
      }
    }
    forall r | r in page
      ensures filter(r) && r in states[q]
    {
      assert r in Matching(t, filter, last);
    }
  }

  lemma PageAscends(t: seq<Row>, filter: Row -> bool, last: Option<int>, size: nat, processed: seq<Row>)
    requires Ordered(t) && Ordered(processed)
    requires last == if processed == [] then None else Some(processed[|processed| - 1].id)
    ensures Ordered(processed + KeysetPage(t, filter, last, size))
  {
    var page := KeysetPage(t, filter, last, size);
    MatchingMembers(t, filter, last);
    MatchingOrdered(t, filter, last);
    forall j | 0 <= j < |page|
      ensures Beyond(last, page[j].id)
    {
      assert page[j] in Matching(t, filter, last);
    }
  }

  /** A page holds every matching key between where it starts and where it ends. */
  lemma PageReads(t: seq<Row>, filter: Row -> bool, last: Option<int>, size: nat, id: int)
    requires Ordered(t) && Present(t, filter, id) && Beyond(last, id)
    requires var page := KeysetPage(t, filter, last, size); page != [] && id <= page[|page| - 1].id
    ensures Reads(KeysetPage(t, filter, last, size), id)
  {
    var all, page := Matching(t, filter, last), KeysetPage(t, filter, last, size);
    MatchingMembers(t, filter, last);
    MatchingOrdered(t, filter, last);
    var r :| r in t && r.id == id && filter(r);
    var i :| 0 <= i < |all| && all[i] == r;
    assert page[i] == r;
  }

  lemma NothingLeft(states: seq<seq<Row>>, q: nat, filter: Row -> bool, processed: seq<Row>, last: Option<int>, size: nat)
    requires q < |states| && size >= 1 && Covered(states, filter, processed, last)
    requires KeysetPage(states[q], filter, last, size) == []
    ensures forall id | PresentThroughout(states, filter, id) :: Reads(processed, id)
  {
    MatchingMembers(states[q], filter, last);
    forall id | PresentThroughout(states, filter, id)
      ensures Reads(processed, id)
    {
      assert Present(states[q], filter, id);
      var r :| r in states[q] && r.id == id && filter(r);
      assert r !in Matching(states[q], filter, last);
    }
  }

  lemma PageMovesOn(t: seq<Row>, filter: Row -> bool, last: Option<int>, size: nat)
    requires Ordered(t) && size >= 1 && KeysetPage(t, filter, last, size) != []
    ensures var page := KeysetPage(t, filter, last, size);
      var beyond := Matching(t, filter, Some(page[|page| - 1].id));
      page + beyond == Matching(t, filter, last) && |beyond| < |Matching(t, filter, last)|
  {
    var all, page := Matching(t, filter, last), KeysetPage(t, filter, last, size);
    PageLeavesRest(t, filter, last, |page|);
    assert all == all[..|page|] + all[|page|..];
  }

  lemma Joined(a: seq<Row>, b: seq<Row>, c: seq<Row>, rest: seq<Row>)
    requires b + c == rest
    ensures (a + b) + c == a + rest
  {
  }

  /** On a table that does not change, a page and what lies beyond it are what was left. */
  lemma PageIsNext(t: seq<Row>, filter: Row -> bool, processed: seq<Row>, last: Option<int>, size: nat)
    requires Ordered(t) && size >= 1 && KeysetPage(t, filter, last, size) != []
    requires processed + Matching(t, filter, last) == Matching(t, filter, None)
    ensures var page := KeysetPage(t, filter, last, size);
      (processed + page) + Matching(t, filter, Some(page[|page| - 1].id)) == Matching(t, filter, None)
  {
    var page := KeysetPage(t, filter, last, size);
    var beyond := Matching(t, filter, Some(page[|page| - 1].id));
    PageMovesOn(t, filter, last, size);
    Joined(processed, page, beyond, Matching(t, filter, last));
  }

  /** `process_large_result_set` on a table that changes between its queries: query `i`
      finds it in state `i`, and the last state lasts.  Keys are processed in strictly
      ascending order, so none twice; and every key that is there, and matches, in all of
      the states is processed.  If the table does not change, that is exactly its rows. */
  method ProcessLargeResultSet(states: seq<seq<Row>>, filter: Row -> bool, batchSize: nat)
    returns (count: nat, processed: seq<Row>)
    requires batchSize >= 1 && states != [] && forall i | 0 <= i < |states| :: Ordered(states[i])
    ensures count == |processed| && Ordered(processed)
    ensures forall r | r in processed :: filter(r) && exists i :: 0 <= i < |states| && r in states[i]
    ensures forall id | PresentThroughout(states, filter, id) :: Reads(processed, id)
    ensures |states| == 1 ==> processed == Matching(states[0], filter, None)
  {
    count, processed := 0, [];
    var lastId: Option<int> := None;
    var q := 0;
    while true
      invariant 0 <= q < |states| && count == |processed|
      invariant Covered(states, filter, processed, lastId)
      invariant |states| == 1 ==> processed + Matching(states[0], filter, lastId) == Matching(states[0], filter, None)
      decreases |states| - q, |Matching(states[q], filter, lastId)|
    {
      var batch := KeysetPage(states[q], filter, lastId, batchSize);
      if batch == [] {
        NothingLeft(states, q, filter, processed, lastId, batchSize);
        return;
      }
      PageCovers(states, q, filter, processed, lastId, batchSize);
      PageMovesOn(states[q], filter, lastId, batchSize);
      if |states| == 1 {
        PageIsNext(states[0], filter, processed, lastId, batchSize);
      }
      processed := processed + batch;
      count := count + |batch|;
      lastId := Some(batch[|batch| - 1].id);
      if q + 1 < |states| {
        q := q + 1;
      }
    }
  }
}
