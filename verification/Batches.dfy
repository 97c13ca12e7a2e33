/** Sequences of batches. */
module Batches {
  import opened Wrappers
  import opened Numbers
  import opened StableSort

  function Flatten<T>(bs: seq<seq<T>>): seq<T> {
    if bs == [] then [] else bs[0] + Flatten(bs[1..])
  }

  lemma {:induction false} FlattenSplits<T>(a: seq<seq<T>>, b: seq<seq<T>>)
    ensures Flatten(a + b) == Flatten(a) + Flatten(b)
  {
    if a == [] {
      assert a + b == b;
    } else {
      FlattenSplits(a[1..], b);
      assert (a + b)[0] == a[0] && (a + b)[1..] == a[1..] + b;
      assert a[0] + (Flatten(a[1..]) + Flatten(b)) == (a[0] + Flatten(a[1..])) + Flatten(b);
    }
  }

  lemma FlattenPush<T>(bs: seq<seq<T>>, b: seq<T>)
    ensures Flatten(bs + [b]) == Flatten(bs) + b
  {
    FlattenSplits(bs, [b]);
    assert [b][1..] == [];
  }

  /** Consecutive batches of `m`, the last one possibly shorter. */
  function Chunks<T>(s: seq<T>, m: nat): seq<seq<T>>
    requires m >= 1
    decreases |s|
  {
    if s == [] then [] else if |s| <= m then [s] else [s[..m]] + Chunks(s[m..], m)
  }

  lemma {:induction false} ChunksFlatten<T>(s: seq<T>, m: nat)
    requires m >= 1
    ensures Flatten(Chunks(s, m)) == s
    ensures forall b | b in Chunks(s, m) :: 1 <= |b| <= m
    decreases |s|
  {
    if |s| > m {
      ChunksFlatten(s[m..], m);
      assert Chunks(s, m)[1..] == Chunks(s[m..], m);
      assert s == s[..m] + s[m..];
    } else if s != [] {
      assert [s][1..] == [];
    }
  }

  /** All chunks but the last are full. */
  lemma {:induction false} ChunksAreLong<T>(s: seq<T>, m: nat)
    requires m >= 1
    ensures forall i | 0 <= i < |Chunks(s, m)| - 1 :: |Chunks(s, m)[i]| == m
    decreases |s|
  {
    if |s| > m {
      ChunksAreLong(s[m..], m);
      assert Chunks(s, m) == [s[..m]] + Chunks(s[m..], m);
    }
  }

  /** There are ceil(n / m) chunks. */
  lemma {:induction false} ChunksCount<T>(s: seq<T>, m: nat)
    requires m >= 1
    ensures |Chunks(s, m)| == (|s| + m - 1) / m
    decreases |s|
  {
    if |s| > m {
      ChunksCount(s[m..], m);
      OneMoreTime(|s| - 1, m);
    } else if s != [] {
      OneMoreTime(|s| - 1, m);
      LessThanOnce(|s| - 1, m);
    } else {
      LessThanOnce(m - 1, m);
    }
  }

  lemma OneMoreTime(a: nat, m: nat)
    requires m >= 1
    ensures (a + m) / m == a / m + 1
  {
    var q, r := a / m, a % m;
    assert a + m == m * (q + 1) + r by { assert m * (q + 1) == m * q + m; }
    QuotientIs(a + m, m, q + 1, r);
  }

  lemma MultipleInside(m: nat, d: int)
    requires -(m as int) < m * d < m
    ensures d == 0
  {
  }

  lemma QuotientIs(a: nat, m: nat, q: nat, r: nat)
    requires r < m && a == m * q + r
    ensures a / m == q
  {
    var d := a / m - q;
    assert a == m * (a / m) + a % m;
    assert m * d == m * (a / m) - m * q;
    MultipleInside(m, d);
  }

  lemma LessThanOnce(a: nat, m: nat)
    requires a < m
    ensures a / m == 0
  {
  }

  /** The entities in the order they are batched: sorted if there is a key, which keeps the
      order of equals in either direction. */
  function Arranged<T>(entities: seq<T>, sortKey: Option<T -> int>, reverse: bool): seq<T> {
    if sortKey.None? then entities
    else if reverse then SortBy(entities, e => -sortKey.value(e))
    else SortBy(entities, sortKey.value)
  }

  /** With a key, the entities come in the order of their keys, or in the opposite one. */
  lemma ArrangedSorts<T>(entities: seq<T>, key: T -> int, reverse: bool)
    ensures var r := Arranged(entities, Some(key), reverse);
      && multiset(r) == multiset(entities)
      && forall i, j | 0 <= i < j < |r| :: if reverse then key(r[i]) >= key(r[j]) else key(r[i]) <= key(r[j])
  {
    var r, down := Arranged(entities, Some(key), reverse), (e: T) => -key(e);
    SortSorts(entities, if reverse then down else key);
    if reverse {
      assert r == SortBy(entities, down);
      forall i, j | 0 <= i < j < |r|
        ensures key(r[i]) >= key(r[j])
      {
        assert down(r[i]) <= down(r[j]);
      }
    }
  }

  /** Equals keep their order in either direction. */
  lemma ArrangedIsStable<T>(entities: seq<T>, key: T -> int, reverse: bool, a: T, b: T)
    requires key(a) == key(b) && a in entities && b in entities
    ensures Ordered(Arranged(entities, Some(key), reverse), a, b) <==> Ordered(entities, a, b)
  {
    var down := (e: T) => -key(e);
    SortOrders(entities, if reverse then down else key, a, b);
    assert Arranged(entities, Some(key), reverse) == SortBy(entities, if reverse then down else key);
  }

  /** `create_batches`: a fixed batch size, one calculated for what remains, or everything
      in a single batch.  A size of 0 counts as none. */
  method CreateBatches<T>(entities: seq<T>, batchSize: nat, calculator: Option<seq<T> -> int>,
                          sortKey: Option<T -> int>, reverse: bool)
    returns (batches: seq<seq<T>>)
    ensures multiset(Flatten(batches)) == multiset(entities) && [] !in batches
    ensures var arranged := Arranged(entities, sortKey, reverse);
      && Flatten(batches) == arranged
      && (batchSize > 0 ==> batches == Chunks(arranged, batchSize))
      && (batchSize == 0 && calculator.Some? ==> AsCalculated(batches, [], calculator.value))
      && (batchSize == 0 && calculator.None? && arranged != [] ==> batches == [arranged])
  {
    batches := [];
    if entities == [] {
      return;
    }
    var copy := Arranged(entities, sortKey, reverse);
    if sortKey.Some? {
      SortSorts(entities, if reverse then e => -sortKey.value(e) else sortKey.value);
    }
    if batchSize > 0 {
      batches := FixedBatches(copy, batchSize);
      ChunksFlatten(copy, batchSize);
    } else if calculator.Some? {
      batches := CalculatedBatches(copy, calculator.value);
    } else {
      batches := [copy];
      assert [copy][1..] == [];
    }
  }

  method FixedBatches<T>(entities: seq<T>, batchSize: nat) returns (batches: seq<seq<T>>)
    requires batchSize >= 1
    ensures batches == Chunks(entities, batchSize)
  {
    batches := [];
    var i := 0;
    while i < |entities|
      invariant 0 <= i && batches + Chunks(entities[Min(i, |entities|)..], batchSize) == Chunks(entities, batchSize)
      decreases |entities| - i
    {
      var rest := entities[i..];
      var next := Min(i + batchSize, |entities|);
      assert rest[next - i..] == entities[next..] && rest[..next - i] == entities[i..next];
      assert next == |entities| ==> entities[next..] == [] && entities[i..next] == rest;
      assert Chunks(rest, batchSize) == [entities[i..next]] + Chunks(entities[next..], batchSize);
      batches := batches + [entities[i..next]];
      i := i + batchSize;
    }
  }

  function Clamped(size: int, n: nat): int {
    if Min(size, n) < 1 then 1 else Min(size, n)
  }

  /** The size asked for if it is from 1 to `n`, and else the nearer of the two. */
  lemma ClampedIs(size: int, n: nat)
    requires n >= 1
    ensures 1 <= Clamped(size, n) <= n
    ensures 1 <= size <= n ==> Clamped(size, n) == size
    ensures size < 1 ==> Clamped(size, n) == 1
    ensures size > n ==> Clamped(size, n) == n
  {
  }

  /** Each batch is as large as calculated for what remained, but at least 1. */
  ghost predicate AsCalculated<T>(batches: seq<seq<T>>, remaining: seq<T>, calculator: seq<T> -> int) {
    forall i | 0 <= i < |batches| ::
      var rest := Flatten(batches[i..]) + remaining; rest != [] && |batches[i]| == Clamped(calculator(rest), |rest|)
  }

  lemma NextAsCalculated<T>(batches: seq<seq<T>>, remaining: seq<T>, calculator: seq<T> -> int, size: nat)
    requires remaining != [] && size == Clamped(calculator(remaining), |remaining|)
    requires AsCalculated(batches, remaining, calculator)
    ensures AsCalculated(batches + [remaining[..size]], remaining[size..], calculator)
  {
    var batch, more := remaining[..size], batches + [remaining[..size]];
    assert batch + remaining[size..] == remaining;
    forall i | 0 <= i < |more|
      ensures Flatten(more[i..]) + remaining[size..] == if i < |batches| then Flatten(batches[i..]) + remaining else remaining
    {
      if i < |batches| {
        assert more[i..] == batches[i..] + [batch];
        FlattenPush(batches[i..], batch);
      } else {
        assert more[i..] == [batch] && [batch][1..] == [];
      }
    }
  }

  method CalculatedBatches<T>(entities: seq<T>, calculator: seq<T> -> int) returns (batches: seq<seq<T>>)
    ensures Flatten(batches) == entities && [] !in batches
    ensures AsCalculated(batches, [], calculator)
  {
    batches := [];
    var remaining := entities;
    while remaining != []
      invariant Flatten(batches) + remaining == entities
      invariant AsCalculated(batches, remaining, calculator)
      decreases |remaining|
    {
      batches, remaining := CalculatedStep(batches, remaining, calculator);
    }
    assert forall i | 0 <= i < |batches| :: |batches[i]| >= 1;
  }

  lemma Rejoined<T>(before: seq<T>, s: seq<T>, n: nat)
    requires n <= |s|
    ensures (before + s[..n]) + s[n..] == before + s
  {
  }

  method CalculatedStep<T>(batches: seq<seq<T>>, remaining: seq<T>, calculator: seq<T> -> int)
    returns (more: seq<seq<T>>, rest: seq<T>)
    requires remaining != [] && AsCalculated(batches, remaining, calculator)
    ensures Flatten(more) + rest == Flatten(batches) + remaining && AsCalculated(more, rest, calculator)
    ensures |rest| < |remaining|
  {
    var size := Clamped(calculator(remaining), |remaining|);
    NextAsCalculated(batches, remaining, calculator, size);
    assert Flatten(batches + [remaining[..size]]) + remaining[size..] == Flatten(batches) + remaining by {
      FlattenPush(batches, remaining[..size]);
      Rejoined(Flatten(batches), remaining, size);
    }
    more, rest := batches + [remaining[..size]], remaining[size..];
  }
}
