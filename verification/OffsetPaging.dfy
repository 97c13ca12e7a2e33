/** Reading a table page by page, by offset, while it may change between the queries. */
module OffsetPaging {
  import opened Wrappers
  import opened Numbers
  import opened Sequences
  import opened Batches
  import opened Paging

  /** LIMIT and OFFSET. */
  function OffsetPage(rows: seq<Row>, offset: nat, size: nat): seq<Row> {
    if offset >= |rows| then [] else Limit(rows[offset..], size)
  }

  /** The table as query `q` finds it; the last state lasts. */
  function At(states: seq<seq<Row>>, q: nat): seq<Row>
    requires states != []
  {
    if q < |states| then states[q] else states[|states| - 1]
  }

  function RowsAt(states: seq<seq<Row>>, filter: Row -> bool, q: nat): seq<Row>
    requires states != []
  {
    Matching(At(states, q), filter, None)
  }

  /** What query `q` returns. */
  function PageAt(states: seq<seq<Row>>, filter: Row -> bool, size: nat, q: nat): seq<Row>
    requires states != []
  {
    OffsetPage(RowsAt(states, filter, q), q * size, size)
  }

  function Pages(states: seq<seq<Row>>, filter: Row -> bool, size: nat, n: nat): seq<seq<Row>>
    requires states != []
  {
    seq(n, q requires 0 <= q < n => PageAt(states, filter, size, q))
  }

  /** The first `n` queries return rows. */
  ghost predicate GoesOn(states: seq<seq<Row>>, filter: Row -> bool, size: nat, n: nat)
    requires states != []
  {
    forall q | 0 <= q < n :: PageAt(states, filter, size, q) != []
  }

  /** After `n` pages a query returns nothing. */
  ghost predicate EndsEmpty(states: seq<seq<Row>>, filter: Row -> bool, size: nat, n: nat)
    requires states != []
  {
    GoesOn(states, filter, size, n) && PageAt(states, filter, size, n) == []
  }

  /** The last of `n` pages is short, and the others are full. */
  ghost predicate EndsShort(states: seq<seq<Row>>, filter: Row -> bool, size: nat, n: nat)
    requires states != []
  {
    && n > 0 && GoesOn(states, filter, size, n)
    && |PageAt(states, filter, size, n - 1)| < size
    && forall q | 0 <= q < n - 1 :: |PageAt(states, filter, size, q)| == size
  }

  ghost predicate Ends(states: seq<seq<Row>>, filter: Row -> bool, size: nat, n: nat)
    requires states != []
  {
    EndsEmpty(states, filter, size, n) || EndsShort(states, filter, size, n)
  }

  // ---- The loops ----

  lemma PagesGrow(states: seq<seq<Row>>, filter: Row -> bool, size: nat, m: nat, n: nat)
    requires states != [] && n == m + 1
    ensures Pages(states, filter, size, n) == Pages(states, filter, size, m) + [PageAt(states, filter, size, m)]
  {
  }

  lemma OnePageMore(states: seq<seq<Row>>, filter: Row -> bool, size: nat, m: nat, n: nat)
    requires states != [] && n == m + 1
    ensures Flatten(Pages(states, filter, size, n)) == Flatten(Pages(states, filter, size, m)) + PageAt(states, filter, size, m)
  {
    PagesGrow(states, filter, size, m, n);
    FlattenPush(Pages(states, filter, size, m), PageAt(states, filter, size, m));
  }

  /** `chunked_fetch`: the pages up to the first empty one. */
  method ChunkedFetch(states: seq<seq<Row>>, filter: Row -> bool, chunkSize: nat) returns (fetched: seq<Row>)
    requires chunkSize >= 1 && states != []
    ensures exists n :: EndsEmpty(states, filter, chunkSize, n) && fetched == Flatten(Pages(states, filter, chunkSize, n))
    ensures |states| == 1 ==> fetched == Matching(states[0], filter, None)
  {
    fetched := [];
    var offset, q := 0, 0;
    while true
      invariant 0 <= q && offset == q * chunkSize
      invariant GoesOn(states, filter, chunkSize, q) && fetched == Flatten(Pages(states, filter, chunkSize, q))
      decreases Max(|states| - q, 0), |RowsAt(states, filter, |states|)| - offset
    {
      var chunk := OffsetPage(RowsAt(states, filter, q), offset, chunkSize);
      if chunk == [] {
        if |states| == 1 {
          FixedPages(states, filter, chunkSize, q);
        }
        return;
      }
      OnePageMore(states, filter, chunkSize, q, q + 1);
      fetched := fetched + chunk;
      offset := offset + chunkSize;
      q := q + 1;
    }
  }

  /** `execute_in_batches`: what `process` makes of the pages up to an empty or a short one. */
  method ExecuteInBatches<R>(states: seq<seq<Row>>, filter: Row -> bool, process: seq<Row> -> R, batchSize: nat)
    returns (results: seq<R>)
    requires batchSize >= 1 && states != []
    ensures Ends(states, filter, batchSize, |results|)
    ensures forall i | 0 <= i < |results| :: results[i] == process(PageAt(states, filter, batchSize, i))
  {
    results := [];
    var offset := 0;
    while true
      invariant offset == |results| * batchSize && GoesOn(states, filter, batchSize, |results|)
      invariant forall i | 0 <= i < |results| ::
        && results[i] == process(PageAt(states, filter, batchSize, i))
        && |PageAt(states, filter, batchSize, i)| == batchSize
      decreases Max(|states| - |results|, 0), |RowsAt(states, filter, |states|)| - offset
    {
      var batch := OffsetPage(RowsAt(states, filter, |results|), offset, batchSize);
      if batch == [] {
        break;
      }
      results := results + [process(batch)];
      offset := offset + batchSize;
      if |batch| < batchSize {
        break;
      }
    }
  }

  // ---- On a table that does not change ----

  lemma FirstChunk(rows: seq<Row>, offset: nat, size: nat)
    requires size >= 1 && offset < |rows|
    ensures Chunks(rows[offset..], size) == [OffsetPage(rows, offset, size)] + Chunks(rows[Min(offset + size, |rows|)..], size)
  {
    var rest := rows[offset..];
    if |rest| > size {
      assert rest[size..] == rows[offset + size..];
    }
  }

  lemma OneChunkMore(pages: seq<seq<Row>>, rows: seq<Row>, offset: nat, next: nat, size: nat)
    requires size >= 1 && offset < |rows| && next == offset + size
    requires pages + Chunks(rows[Min(offset, |rows|)..], size) == Chunks(rows, size)
    ensures (pages + [OffsetPage(rows, offset, size)]) + Chunks(rows[Min(next, |rows|)..], size) == Chunks(rows, size)
  {
    FirstChunk(rows, offset, size);
    var page, rest := OffsetPage(rows, offset, size), Chunks(rows[Min(next, |rows|)..], size);
    assert (pages + [page]) + rest == pages + ([page] + rest);
  }

  lemma {:induction false} FixedPagesSoFar(states: seq<seq<Row>>, filter: Row -> bool, size: nat, n: nat, offset: nat)
    requires |states| == 1 && size >= 1 && GoesOn(states, filter, size, n) && offset == n * size
    ensures var rows := Matching(states[0], filter, None);
      Pages(states, filter, size, n) + Chunks(rows[Min(offset, |rows|)..], size) == Chunks(rows, size)
  {
    var rows := Matching(states[0], filter, None);
    if n == 0 {
      assert rows[Min(offset, |rows|)..] == rows;
    } else {
      var m, before := n - 1, offset - size;
      assert before == m * size;
      FixedPagesSoFar(states, filter, size, m, before);
      var page := PageAt(states, filter, size, m);
      assert page != [] && page == OffsetPage(rows, before, size);
      PagesGrow(states, filter, size, m, n);
      OneChunkMore(Pages(states, filter, size, m), rows, before, offset, size);
    }
  }

  /** Either exit leaves exactly the chunks of the matching rows, hence all of them, and
      there are ceil(n / size) of these. */
  lemma FixedPages(states: seq<seq<Row>>, filter: Row -> bool, size: nat, n: nat)
    requires |states| == 1 && size >= 1 && Ends(states, filter, size, n)
    ensures var rows := Matching(states[0], filter, None);
      && Pages(states, filter, size, n) == Chunks(rows, size) && Flatten(Pages(states, filter, size, n)) == rows
      && n == (|rows| + size - 1) / size
  {
    var rows := Matching(states[0], filter, None);
    FixedPagesSoFar(states, filter, size, n, n * size);
    EndIsReached(states, filter, size, n);
    assert rows[|rows|..] == [];
    ChunksFlatten(rows, size);
    ChunksCount(rows, size);
  }

  /** A short page at the end is the rest of the rows. */
  lemma EndIsReached(states: seq<seq<Row>>, filter: Row -> bool, size: nat, n: nat)
    requires states != [] && size >= 1 && Ends(states, filter, size, n)
    ensures if EndsEmpty(states, filter, size, n) then |RowsAt(states, filter, n)| <= n * size
            else n > 0 && |RowsAt(states, filter, n - 1)| < n * size
  {
    if !EndsEmpty(states, filter, size, n) {
      var m := n - 1;
      assert PageAt(states, filter, size, m) != [] && |PageAt(states, filter, size, m)| < size;
      assert m * size + size == n * size;
    }
  }

  // ---- On a table that changes ----

  /** The keys of matching rows before `id`. */
  function Before(t: seq<Row>, filter: Row -> bool, id: int): set<int> {
    set r | r in t && filter(r) && r.id < id :: r.id
  }

  /** How many matching rows come before `id`. */
  function Rank(t: seq<Row>, filter: Row -> bool, id: int): nat {
    |Before(t, filter, id)|
  }

  function Keys(rows: seq<Row>): set<int> {
    set r | r in rows :: r.id
  }

  lemma {:induction false} KeysCount(rows: seq<Row>)
    requires Ordered(rows)
    ensures |Keys(rows)| == |rows|
  {
    if rows != [] {
      var n := |rows| - 1;
      KeysCount(rows[..n]);
      assert Keys(rows) == Keys(rows[..n]) + {rows[n].id};
      assert rows[n].id !in Keys(rows[..n]);
    }
  }

  predicate Everything(r: Row) {
    true
  }

  lemma BeforePosition(rows: seq<Row>, p: nat)
    requires Ordered(rows) && p < |rows|
    ensures Before(rows, Everything, rows[p].id) == Keys(rows[..p])
  {
    forall k | k in Before(rows, Everything, rows[p].id)
      ensures k in Keys(rows[..p])
    {
      var i :| 0 <= i < |rows| && rows[i].id == k && rows[i].id < rows[p].id;
      assert rows[i] in rows[..p];
    }
  }

  /** A matching row stands at its rank. */
  lemma RankIsPosition(t: seq<Row>, filter: Row -> bool, p: nat)
    requires Ordered(t) && p < |Matching(t, filter, None)|
    ensures Rank(t, filter, Matching(t, filter, None)[p].id) == p
  {
    var rows := Matching(t, filter, None);
    MatchingMembers(t, filter, None);
    MatchingOrdered(t, filter, None);
    assert Before(t, filter, rows[p].id) == Before(rows, Everything, rows[p].id);
    BeforePosition(rows, p);
    KeysCount(rows[..p]);
  }

  lemma PresentStands(t: seq<Row>, filter: Row -> bool, id: int)
    requires Ordered(t) && Present(t, filter, id)
    ensures Rank(t, filter, id) < |Matching(t, filter, None)| && Matching(t, filter, None)[Rank(t, filter, id)].id == id
  {
    var rows := Matching(t, filter, None);
    MatchingMembers(t, filter, None);
    var r :| r in t && r.id == id && filter(r);
    var p :| 0 <= p < |rows| && rows[p] == r;
    RankIsPosition(t, filter, p);
  }

  /** Query `q` asks for the ranks around that of `id`. */
  ghost predicate InPage(states: seq<seq<Row>>, filter: Row -> bool, size: nat, q: nat, id: int)
    requires states != []
  {
    q * size <= Rank(At(states, q), filter, id) < q * size + size
  }

  lemma PageHolds(rows: seq<Row>, offset: nat, size: nat, k: nat)
    requires k < |rows| && offset <= k < offset + size
    ensures Reads(OffsetPage(rows, offset, size), rows[k].id)
  {
    var page, i := OffsetPage(rows, offset, size), k - offset;
    assert page[i] == rows[k];
  }

  lemma PageHeld(rows: seq<Row>, offset: nat, size: nat, id: int) returns (k: nat)
    requires Reads(OffsetPage(rows, offset, size), id)
    ensures offset <= k < offset + size && k < |rows| && rows[k].id == id
  {
    var page := OffsetPage(rows, offset, size);
    var r :| r in page && r.id == id;
    var i :| 0 <= i < |page| && page[i] == r;
    k := offset + i;
  }

  lemma PageReadsIff(states: seq<seq<Row>>, filter: Row -> bool, size: nat, q: nat, id: int)
    requires states != [] && Ordered(At(states, q)) && Present(At(states, q), filter, id)
    ensures Reads(PageAt(states, filter, size, q), id) <==> InPage(states, filter, size, q, id)
  {
    var rows, offset := RowsAt(states, filter, q), q * size;
    PresentStands(At(states, q), filter, id);
    if Reads(OffsetPage(rows, offset, size), id) {
      var k := PageHeld(rows, offset, size, id);
      RankIsPosition(At(states, q), filter, k);
    }
    if InPage(states, filter, size, q, id) {
      PageHolds(rows, offset, size, Rank(At(states, q), filter, id));
    }
  }

  ghost predicate AllOrdered(states: seq<seq<Row>>) {
    states != [] && forall i | 0 <= i < |states| :: Ordered(states[i])
  }

  /** A row that is there throughout is read by exactly those queries that ask for its rank. */
  lemma {:induction false} OffsetReadsIff(states: seq<seq<Row>>, filter: Row -> bool, size: nat, n: nat, id: int)
    requires AllOrdered(states) && PresentThroughout(states, filter, id)
    ensures Reads(Flatten(Pages(states, filter, size, n)), id) <==> exists q :: 0 <= q < n && InPage(states, filter, size, q, id)
  {
    if n > 0 {
      var m := n - 1;
      OffsetReadsIff(states, filter, size, m, id);
      OnePageMore(states, filter, size, m, n);
      assert Present(At(states, m), filter, id);
      PageReadsIff(states, filter, size, m, id);
      ReadsEither(Flatten(Pages(states, filter, size, m)), PageAt(states, filter, size, m), id);
      if q :| 0 <= q < n && InPage(states, filter, size, q, id) {
        assert q < m || q == m;
      }
    }
  }

  lemma ReadsEither(a: seq<Row>, b: seq<Row>, id: int)
    ensures Reads(a + b, id) <==> Reads(a, id) || Reads(b, id)
  {
    if r :| r in a && r.id == id { assert r in a + b; }
    if r :| r in b && r.id == id { assert r in a + b; }
  }

  /** How often a row with this key is read. */
  function Times(rows: seq<Row>, id: int): nat {
    if rows == [] then 0 else Times(rows[..|rows| - 1], id) + if rows[|rows| - 1].id == id then 1 else 0
  }

  lemma {:induction false} TimesAdd(a: seq<Row>, b: seq<Row>, id: int)
    ensures Times(a + b, id) == Times(a, id) + Times(b, id)
  {
    if b == [] {
      assert a + b == a;
    } else {
      var n := |b| - 1;
      TimesAdd(a, b[..n], id);
      assert (a + b)[..|a| + n] == a + b[..n];
    }
  }

  lemma {:induction false} OnceIfOrdered(rows: seq<Row>, id: int)
    requires Ordered(rows)
    ensures Times(rows, id) == if Reads(rows, id) then 1 else 0
  {
    if rows != [] {
      var n := |rows| - 1;
      OnceIfOrdered(rows[..n], id);
      assert rows == rows[..n] + [rows[n]];
      ReadsEither(rows[..n], [rows[n]], id);
      assert Reads([rows[n]], id) <==> rows[n].id == id by { assert rows[n] in [rows[n]]; }
    }
  }

  lemma PageOrdered(t: seq<Row>, filter: Row -> bool, offset: nat, size: nat)
    requires Ordered(t)
    ensures Ordered(OffsetPage(Matching(t, filter, None), offset, size))
  {
    MatchingOrdered(t, filter, None);
  }

  /** The queries that ask for the row's rank. */
  ghost function Asking(states: seq<seq<Row>>, filter: Row -> bool, size: nat, n: nat, id: int): set<nat>
    requires states != []
  {
    set q: nat | q < n && InPage(states, filter, size, q, id)
  }

  lemma AskingGrows(states: seq<seq<Row>>, filter: Row -> bool, size: nat, m: nat, n: nat, id: int)
    requires states != [] && n == m + 1
    ensures |Asking(states, filter, size, n, id)|
         == |Asking(states, filter, size, m, id)| + if InPage(states, filter, size, m, id) then 1 else 0
  {
    var before, now := Asking(states, filter, size, m, id), Asking(states, filter, size, n, id);
    assert now == if InPage(states, filter, size, m, id) then before + {m} else before;
  }

  lemma PageReadsTimes(states: seq<seq<Row>>, filter: Row -> bool, size: nat, q: nat, id: int)
    requires states != [] && Ordered(At(states, q)) && Present(At(states, q), filter, id)
    ensures Times(PageAt(states, filter, size, q), id) == if InPage(states, filter, size, q, id) then 1 else 0
  {
    PageOrdered(At(states, q), filter, q * size, size);
    OnceIfOrdered(PageAt(states, filter, size, q), id);
    PageReadsIff(states, filter, size, q, id);
  }

  /** A row that is there throughout is read as often as a query asks for its rank. */
  lemma {:induction false} OffsetReadsTimes(states: seq<seq<Row>>, filter: Row -> bool, size: nat, n: nat, id: int)
    requires AllOrdered(states) && PresentThroughout(states, filter, id)
    ensures Times(Flatten(Pages(states, filter, size, n)), id) == |Asking(states, filter, size, n, id)|
  {
    if n == 0 {
      assert Asking(states, filter, size, n, id) == {};
    } else {
      var m := n - 1;
      OffsetReadsTimes(states, filter, size, m, id);
      OnePageMore(states, filter, size, m, n);
      TimesAdd(Flatten(Pages(states, filter, size, m)), PageAt(states, filter, size, m), id);
      assert Present(At(states, m), filter, id);
      PageReadsTimes(states, filter, size, m, id);
      AskingGrows(states, filter, size, m, n, id);
    }
  }

  /** Between queries `q` and `q + 1`, the row falls from beyond the offset of the latter to
      before it. */
  ghost predicate FallsPast(states: seq<seq<Row>>, filter: Row -> bool, size: nat, q: nat, id: int)
    requires states != []
  {
    Rank(At(states, q), filter, id) >= q * size + size > Rank(At(states, q + 1), filter, id)
  }

  /** A row not read yet, which never fell past an offset, is still ahead. */
  lemma {:induction false} StillAhead(states: seq<seq<Row>>, filter: Row -> bool, size: nat, q: nat, id: int)
    requires states != []
    requires forall p | 0 <= p < q :: !InPage(states, filter, size, p, id) && !FallsPast(states, filter, size, p, id)
    ensures Rank(At(states, q), filter, id) >= q * size
  {
    if q > 0 {
      var p := q - 1;
      StillAhead(states, filter, size, p, id);
      assert !InPage(states, filter, size, p, id) && !FallsPast(states, filter, size, p, id);
      assert p * size + size == q * size;
    }
  }

  /** Only a row that fell past an offset is missed. */
  lemma MissedFellPast(states: seq<seq<Row>>, filter: Row -> bool, size: nat, n: nat, id: int)
    requires AllOrdered(states) && PresentThroughout(states, filter, id) && size >= 1 && Ends(states, filter, size, n)
    requires !Reads(Flatten(Pages(states, filter, size, n)), id)
    ensures exists q :: 0 <= q < n && FallsPast(states, filter, size, q, id)
  {
    OffsetReadsIff(states, filter, size, n, id);
    if forall q | 0 <= q < n :: !FallsPast(states, filter, size, q, id) {
      EndIsReached(states, filter, size, n);
      if EndsEmpty(states, filter, size, n) {
        StillAhead(states, filter, size, n, id);
        PresentStands(At(states, n), filter, id);
      } else {
        var m := n - 1;
        StillAhead(states, filter, size, m, id);
        PresentStands(At(states, m), filter, id);
        assert m * size + size == n * size;
        assert InPage(states, filter, size, m, id);
      }
      assert false;
    }
  }

  /** Every key of `a` before `id` is still there in `b`. */
  ghost predicate KeepsBefore(a: seq<Row>, b: seq<Row>, filter: Row -> bool, id: int) {
    Before(a, filter, id) <= Before(b, filter, id)
  }

  lemma RankRises(a: seq<Row>, b: seq<Row>, filter: Row -> bool, id: int)
    requires KeepsBefore(a, b, filter, id)
    ensures Rank(a, filter, id) <= Rank(b, filter, id)
  {
    var more := Before(b, filter, id) - Before(a, filter, id);
    assert Before(b, filter, id) == Before(a, filter, id) + more;
  }

  /** As long as no matching row with a smaller key disappears between two queries, a row
      that is there throughout is read, whichever exit the loop takes. */
  lemma NothingGoneNothingMissed(states: seq<seq<Row>>, filter: Row -> bool, size: nat, n: nat, id: int)
    requires AllOrdered(states) && PresentThroughout(states, filter, id) && size >= 1 && Ends(states, filter, size, n)
    requires forall q | 0 <= q < n :: KeepsBefore(At(states, q), At(states, q + 1), filter, id)
    ensures Reads(Flatten(Pages(states, filter, size, n)), id)
  {
    if !Reads(Flatten(Pages(states, filter, size, n)), id) {
      MissedFellPast(states, filter, size, n, id);
      var q :| 0 <= q < n && FallsPast(states, filter, size, q, id);
      RankRises(At(states, q), At(states, q + 1), filter, id);
      assert false;
    }
  }

  /** No matching row with a smaller key appears between two queries. */
  ghost predicate NoneAppears(states: seq<seq<Row>>, filter: Row -> bool, n: nat, id: int)
    requires states != []
  {
    forall q | 0 <= q < n :: KeepsBefore(At(states, q + 1), At(states, q), filter, id)
  }

  lemma {:induction false} RankNeverRises(states: seq<seq<Row>>, filter: Row -> bool, n: nat, id: int, p: nat, q: nat)
    requires states != [] && NoneAppears(states, filter, n, id) && p <= q <= n
    ensures Rank(At(states, p), filter, id) >= Rank(At(states, q), filter, id)
  {
    if p < q {
      var m := q - 1;
      RankNeverRises(states, filter, n, id, p, m);
      RankRises(At(states, m + 1), At(states, m), filter, id);
    }
  }

  lemma OffsetsGrow(p: nat, q: nat, size: nat)
    requires p < q
    ensures p * size + size <= q * size
  {
    assert q * size == p * size + size + (q - p - 1) * size;
  }

  lemma AskedOnce(states: seq<seq<Row>>, filter: Row -> bool, size: nat, n: nat, id: int, p: nat, q: nat)
    requires states != [] && NoneAppears(states, filter, n, id) && p < n && q < n
    requires InPage(states, filter, size, p, id) && InPage(states, filter, size, q, id)
    ensures p >= q
  {
    if p < q {
      RankNeverRises(states, filter, n, id, p, q);
      OffsetsGrow(p, q, size);
    }
  }

  /** Where no rows appear before it, a row is read at most once. */
  lemma ReadOnce(states: seq<seq<Row>>, filter: Row -> bool, size: nat, n: nat, id: int)
    requires AllOrdered(states) && PresentThroughout(states, filter, id) && NoneAppears(states, filter, n, id)
    ensures Times(Flatten(Pages(states, filter, size, n)), id) <= 1
  {
    var asking := Asking(states, filter, size, n, id);
    OffsetReadsTimes(states, filter, size, n, id);
    if asking != {} {
      var q :| q in asking;
      forall p | p in asking
        ensures p == q
      {
        AskedOnce(states, filter, size, n, id, p, q);
        AskedOnce(states, filter, size, n, id, q, p);
      }
      assert asking == {q};
    }
  }

  /** Where rows are only deleted, exactly those that fell past an offset are missed. */
  lemma MissedIffFellPast(states: seq<seq<Row>>, filter: Row -> bool, size: nat, n: nat, id: int)
    requires AllOrdered(states) && PresentThroughout(states, filter, id) && size >= 1 && Ends(states, filter, size, n)
    requires NoneAppears(states, filter, n, id)
    ensures !Reads(Flatten(Pages(states, filter, size, n)), id) <==> exists q :: 0 <= q < n && FallsPast(states, filter, size, q, id)
  {
    OffsetReadsIff(states, filter, size, n, id);
    if !Reads(Flatten(Pages(states, filter, size, n)), id) {
      MissedFellPast(states, filter, size, n, id);
    }
    if q :| 0 <= q < n && FallsPast(states, filter, size, q, id) {
      forall p | 0 <= p < n
        ensures !InPage(states, filter, size, p, id)
      {
        if p <= q {
          RankNeverRises(states, filter, n, id, p, q);
          if p < q { OffsetsGrow(p, q, size); }
        } else {
          RankNeverRises(states, filter, n, id, q + 1, p);
          OffsetsGrow(q, p, size);
        }
      }
    }
  }

  /** Rows 1 to 4, of which row 1 is deleted between the first two queries. */
  function Shrinking(): seq<seq<Row>> {
    [[Row(1, ""), Row(2, ""), Row(3, ""), Row(4, "")], [Row(2, ""), Row(3, ""), Row(4, "")]]
  }

  lemma ShrinkingRanks()
    ensures var states := Shrinking();
      && Present(states[0], Everything, 3) && Rank(states[0], Everything, 3) == 2
      && Present(states[1], Everything, 3) && Rank(states[1], Everything, 3) == 1
  {
    var first, later := Shrinking()[0], Shrinking()[1];
    assert first[0] in first && first[1] in first && first[2] in first;
    assert later[0] in later && later[1] in later;
    assert Before(first, Everything, 3) == {1, 2};
    assert Before(later, Everything, 3) == {2};
  }

  lemma ShrinkingSkips(q: nat)
    ensures !InPage(Shrinking(), Everything, 2, q, 3)
  {
    ShrinkingRanks();
    assert At(Shrinking(), q) == Shrinking()[if q == 0 then 0 else 1];
  }

  /** It does happen: row 3 is there throughout, and no query returns it. */
  lemma OffsetPagingSkipsRows(n: nat)
    ensures PresentThroughout(Shrinking(), Everything, 3)
    ensures !Reads(Flatten(Pages(Shrinking(), Everything, 2, n)), 3)
  {
    ShrinkingRanks();
    OffsetReadsIff(Shrinking(), Everything, 2, n, 3);
    forall q | 0 <= q < n
      ensures !InPage(Shrinking(), Everything, 2, q, 3)
    {
      ShrinkingSkips(q);
    }
  }

  /** Rows 1 and 2, before which row 0 appears between the first two queries. */
  function Growing(): seq<seq<Row>> {
    [[Row(1, ""), Row(2, "")], [Row(0, ""), Row(1, ""), Row(2, "")]]
  }

  lemma GrowingRanks()
    ensures var states := Growing();
      && Present(states[0], Everything, 1) && Rank(states[0], Everything, 1) == 0
      && Present(states[1], Everything, 1) && Rank(states[1], Everything, 1) == 1
  {
    var first, later := Growing()[0], Growing()[1];
    assert first[0] in first && later[0] in later && later[1] in later;
    assert Before(first, Everything, 1) == {};
    assert Before(later, Everything, 1) == {0};
  }

  lemma GrowingAsks(q: nat)
    requires q < 2
    ensures InPage(Growing(), Everything, 1, q, 1)
  {
    GrowingRanks();
    assert At(Growing(), q) == Growing()[q];
  }

  lemma GrowingThroughout()
    ensures AllOrdered(Growing()) && PresentThroughout(Growing(), Everything, 1)
  {
    GrowingRanks();
  }

  lemma BothAsk()
    ensures |Asking(Growing(), Everything, 1, 2, 1)| == 2
  {
    GrowingAsks(0);
    GrowingAsks(1);
    assert Asking(Growing(), Everything, 1, 2, 1) == {0, 1};
  }

  /** Where rows do appear, a row can be read twice: row 1, one row at a time. */
  lemma OffsetPagingRepeatsRows()
    ensures Times(Flatten(Pages(Growing(), Everything, 1, 2)), 1) == 2
  {
    GrowingThroughout();
    BothAsk();
    OffsetReadsTimes(Growing(), Everything, 1, 2, 1);
  }
}
