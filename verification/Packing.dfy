/** Greedy packing of entities, in order, into batches under a limit. */
module Packing {
  import opened Batches

  function Total<T>(b: seq<T>, weight: T -> real): real {
    if b == [] then 0.0 else Total(b[..|b| - 1], weight) + weight(b[|b| - 1])
  }

  /** A batch is not empty, and fits the limit or is a single entity. */
  ghost predicate Allowed<T>(b: seq<T>, weight: T -> real, limit: real) {
    b != [] && (Total(b, weight) <= limit || |b| == 1)
  }

  /** `bs` cuts `s` into allowed batches. */
  ghost predicate Packs<T>(bs: seq<seq<T>>, s: seq<T>, weight: T -> real, limit: real) {
    Flatten(bs) == s && forall i | 0 <= i < |bs| :: Allowed(bs[i], weight, limit)
  }

  /** No batch has room for the first entity of the next one. */
  ghost predicate Full<T>(bs: seq<seq<T>>, weight: T -> real, limit: real) {
    forall i, j | 0 <= i && j == i + 1 < |bs| :: NoRoom(bs[i], bs[j], weight, limit)
  }

  ghost predicate NoRoom<T>(b: seq<T>, next: seq<T>, weight: T -> real, limit: real) {
    next != [] && Total(b, weight) + weight(next[0]) > limit
  }

  predicate NonNegative<T>(s: seq<T>, weight: T -> real) {
    forall i | 0 <= i < |s| :: weight(s[i]) >= 0.0
  }

  lemma {:induction false} TotalSplits<T>(a: seq<T>, b: seq<T>, weight: T -> real)
    ensures Total(a + b, weight) == Total(a, weight) + Total(b, weight)
  {
    if b == [] {
      assert a + b == a;
    } else {
      var n := |b| - 1;
      TotalSplits(a, b[..n], weight);
      assert (a + b)[..|a| + n] == a + b[..n];
    }
  }

  lemma {:induction false} TotalNonNegative<T>(s: seq<T>, weight: T -> real)
    requires NonNegative(s, weight)
    ensures Total(s, weight) >= 0.0
  {
    if s != [] {
      TotalNonNegative(s[..|s| - 1], weight);
    }
  }

  lemma PartWeighsLess<T>(s: seq<T>, i: nat, j: nat, weight: T -> real)
    requires i <= j <= |s| && NonNegative(s, weight)
    ensures 0.0 <= Total(s[i..j], weight) <= Total(s, weight)
  {
    assert s == (s[..i] + s[i..j]) + s[j..];
    TotalSplits(s[..i] + s[i..j], s[j..], weight);
    TotalSplits(s[..i], s[i..j], weight);
    TotalNonNegative(s[..i], weight);
    TotalNonNegative(s[i..j], weight);
    TotalNonNegative(s[j..], weight);
  }

  /** While the other packing's first batch lasts, a full packing that starts inside it
      reaches at least as far with its first batch. */
  lemma FirstBatchReaches<T>(bs: seq<seq<T>>, other: seq<seq<T>>, s: seq<T>, k: nat, weight: T -> real, limit: real)
    requires NonNegative(s, weight) && k <= |s|
    requires Packs(bs, s[k..], weight, limit) && Full(bs, weight, limit) && bs != []
    requires Packs(other, s, weight, limit) && other != []
    ensures k + |bs[0]| >= |other[0]|
  {
    var b, p := bs[0], other[0];
    if k + |b| < |p| {
      assert p == s[..|p|];
      assert b == s[k..k + |b|];
      assert s[k + |b|..] == Flatten(bs[1..]);
      var c := bs[1];
      assert c[0] == s[k + |b|];
      assert s[k..k + |b| + 1] == p[k..k + |b| + 1];
      assert p[k..k + |b| + 1][..|b|] == b;
      assert NonNegative(p, weight);
      PartWeighsLess(p, k, k + |b| + 1, weight);
      assert false;
    }
  }

  /** Greedy stays ahead: started anywhere further along, a full packing needs no more
      batches than any other packing. */
  lemma {:induction false} StaysAhead<T>(bs: seq<seq<T>>, other: seq<seq<T>>, s: seq<T>, k: nat, weight: T -> real, limit: real)
    requires NonNegative(s, weight) && k <= |s|
    requires Packs(bs, s[k..], weight, limit) && Full(bs, weight, limit)
    requires Packs(other, s, weight, limit)
    ensures |bs| <= |other|
    decreases |other|
  {
    if other == [] {
      if bs != [] { assert false; }
    } else if bs != [] {
      var p, rest := other[0], s[|other[0]|..];
      assert Flatten(other[1..]) == rest;
      if k >= |p| {
        assert s[k..] == rest[k - |p|..];
        StaysAhead(bs, other[1..], rest, k - |p|, weight, limit);
      } else {
        FirstBatchReaches(bs, other, s, k, weight, limit);
        var b := bs[0];
        assert Flatten(bs[1..]) == s[k..][|b|..] == rest[k + |b| - |p|..];
        StaysAhead(bs[1..], other[1..], rest, k + |b| - |p|, weight, limit);
      }
    }
  }

  /** There is only one full packing. */
  lemma {:induction false} FullPackingIsUnique<T>(bs: seq<seq<T>>, cs: seq<seq<T>>, s: seq<T>, weight: T -> real, limit: real)
    requires NonNegative(s, weight)
    requires Packs(bs, s, weight, limit) && Full(bs, weight, limit)
    requires Packs(cs, s, weight, limit) && Full(cs, weight, limit)
    ensures bs == cs
    decreases |bs|
  {
    if bs == [] || cs == [] {
      if bs != [] || cs != [] { assert false; }
    } else {
      assert s[0..] == s;
      FirstBatchReaches(bs, cs, s, 0, weight, limit);
      FirstBatchReaches(cs, bs, s, 0, weight, limit);
      assert bs[0] == s[..|bs[0]|] && cs[0] == s[..|cs[0]|];
      assert Flatten(bs[1..]) == s[|bs[0]|..] && Flatten(cs[1..]) == s[|cs[0]|..];
      FullPackingIsUnique(bs[1..], cs[1..], s[|bs[0]|..], weight, limit);
    }
  }

  // ---- The packing loops ----

  /** What the loop has made of the entities `s` so far: closed batches, and an open one of
      weight `total`. */
  ghost predicate Progress<T>(closed: seq<seq<T>>, open: seq<T>, total: real, s: seq<T>, weight: T -> real, limit: real) {
    && Flatten(closed) + open == s
    && (forall i | 0 <= i < |closed| :: Allowed(closed[i], weight, limit))
    && total == Total(open, weight) && (open != [] ==> total <= limit)
    && (NonNegative(s, weight) ==> Tight(closed, open, weight, limit))
  }

  /** The closed batches are full, and the last of them has no room for what follows. */
  ghost predicate Tight<T>(closed: seq<seq<T>>, open: seq<T>, weight: T -> real, limit: real) {
    && Full(closed, weight, limit)
    && (closed != [] ==> Total(closed[|closed| - 1], weight) + (if open == [] then 0.0 else weight(open[0])) > limit)
  }

  lemma Joins<T>(closed: seq<seq<T>>, open: seq<T>, total: real, s: seq<T>, e: T, weight: T -> real, limit: real)
    requires Progress(closed, open, total, s, weight, limit)
    requires total + weight(e) <= limit && weight(e) <= limit
    ensures Progress(closed, open + [e], total + weight(e), s + [e], weight, limit)
  {
    assert (open + [e])[..|open|] == open;
    assert Flatten(closed) + (open + [e]) == s + [e];
    assert NonNegative(s + [e], weight) ==> NonNegative(s, weight) by {
      assert forall i | 0 <= i < |s| :: (s + [e])[i] == s[i];
    }
    assert NonNegative(s + [e], weight) ==> weight(e) >= 0.0 by { assert (s + [e])[|s|] == e; }
  }

  lemma Closes<T>(closed: seq<seq<T>>, open: seq<T>, total: real, s: seq<T>, weight: T -> real, limit: real)
    requires Progress(closed, open, total, s, weight, limit) && open != []
    ensures Flatten(closed + [open]) == s
    ensures forall i | 0 <= i < |closed + [open]| :: Allowed((closed + [open])[i], weight, limit)
    ensures NonNegative(s, weight) ==> Full(closed + [open], weight, limit)
  {
    FlattenPush(closed, open);
    if NonNegative(s, weight) {
      FullPush(closed, open, weight, limit);
    }
  }

  lemma Starts<T>(closed: seq<seq<T>>, open: seq<T>, total: real, s: seq<T>, e: T, weight: T -> real, limit: real)
    requires Progress(closed, open, total, s, weight, limit) && open != []
    requires total + weight(e) > limit && weight(e) <= limit
    ensures Progress(closed + [open], [e], weight(e), s + [e], weight, limit)
  {
    Closes(closed, open, total, s, weight, limit);
    SingleWeighs(e, weight);
    assert NonNegative(s + [e], weight) ==> NonNegative(s, weight) by {
      assert forall i | 0 <= i < |s| :: (s + [e])[i] == s[i];
    }
  }

  lemma StandsAlone<T>(closed: seq<seq<T>>, open: seq<T>, total: real, s: seq<T>, e: T, weight: T -> real, limit: real)
    requires Progress(closed, open, total, s, weight, limit) && weight(e) > limit
    ensures Progress((if open == [] then closed else closed + [open]) + [[e]], [], 0.0, s + [e], weight, limit)
  {
    var before := if open == [] then closed else closed + [open];
    if open != [] { Closes(closed, open, total, s, weight, limit); }
    if NonNegative(s + [e], weight) {
      assert NonNegative(s, weight) by { assert forall i | 0 <= i < |s| :: (s + [e])[i] == s[i]; }
      if open != [] {
        assert s[|s| - |open|..|s|] == open;
        PartWeighsLess(s, |s| - |open|, |s|, weight);
      } else {
        assert (s + [e])[|s|] == e;
      }
      assert before != [] ==> Total(before[|before| - 1], weight) + weight(e) > limit;
    }
    AddsAlone(before, s, e, weight, limit);
  }

  lemma AddsAlone<T>(before: seq<seq<T>>, s: seq<T>, e: T, weight: T -> real, limit: real)
    requires Flatten(before) == s && weight(e) > limit
    requires forall i | 0 <= i < |before| :: Allowed(before[i], weight, limit)
    requires NonNegative(s + [e], weight) ==> Tight(before, [e], weight, limit)
    ensures Progress(before + [[e]], [], 0.0, s + [e], weight, limit)
  {
    FlattenPush(before, [e]);
    assert Flatten(before + [[e]]) + [] == s + [e];
    SingleWeighs(e, weight);
    AllowedPush(before, [e], weight, limit);
    if NonNegative(s + [e], weight) {
      FullPush(before, [e], weight, limit);
    }
  }

  lemma AllowedPush<T>(bs: seq<seq<T>>, b: seq<T>, weight: T -> real, limit: real)
    requires Allowed(b, weight, limit) && forall i | 0 <= i < |bs| :: Allowed(bs[i], weight, limit)
    ensures forall i | 0 <= i < |bs + [b]| :: Allowed((bs + [b])[i], weight, limit)
  {
  }

  lemma SingleWeighs<T>(e: T, weight: T -> real)
    ensures Total([e], weight) == weight(e)
  {
    assert [e][..0] == [];
  }

  lemma FullPush<T>(bs: seq<seq<T>>, b: seq<T>, weight: T -> real, limit: real)
    requires Full(bs, weight, limit) && b != []
    requires bs != [] ==> NoRoom(bs[|bs| - 1], b, weight, limit)
    ensures Full(bs + [b], weight, limit)
  {
    var more := bs + [b];
    forall i, j | 0 <= i && j == i + 1 < |more|
      ensures NoRoom(more[i], more[j], weight, limit)
    {
      assert more[i] == bs[i];
      if j < |bs| {
        assert more[j] == bs[j];
      }
    }
  }

  /** No way to cut `s` into allowed batches uses fewer than `bs`. */
  ghost predicate Fewest<T(!new)>(bs: seq<seq<T>>, s: seq<T>, weight: T -> real, limit: real) {
    forall other | Packs(other, s, weight, limit) :: |bs| <= |other|
  }

  /** A full packing is an optimal one. */
  lemma FewestBatches<T(!new)>(bs: seq<seq<T>>, s: seq<T>, weight: T -> real, limit: real)
    requires Packs(bs, s, weight, limit) && (NonNegative(s, weight) ==> Full(bs, weight, limit))
    ensures NonNegative(s, weight) ==> Fewest(bs, s, weight, limit)
  {
    if NonNegative(s, weight) {
      assert s[0..] == s;
      forall other | Packs(other, s, weight, limit)
        ensures |bs| <= |other|
      {
        StaysAhead(bs, other, s, 0, weight, limit);
      }
    }
  }

  /** `TimeBatchStrategy.create_batches`: batches of entities whose estimated times fit the
      limit.  With no negative times, no other way to cut the entities uses fewer. */
  method TimeBatches<T(!new)>(entities: seq<T>, time: T -> real, maxTime: real) returns (batches: seq<seq<T>>)
    ensures Packs(batches, entities, time, maxTime)
    ensures NonNegative(entities, time) ==> Full(batches, time, maxTime) && Fewest(batches, entities, time, maxTime)
  {
    batches := [];
    var current, currentTime := [], 0.0;
    var i := 0;
    while i < |entities|
      invariant 0 <= i <= |entities|
      invariant Progress(batches, current, currentTime, entities[..i], time, maxTime)
    {
      var e := entities[i];
      var t := time(e);
      ghost var b, c, ct := batches, current, currentTime;
      assert entities[..i + 1] == entities[..i] + [e];
      if currentTime + t > maxTime && current != [] {
        batches := batches + [current];
        current, currentTime := [], 0.0;
      }
      if t > maxTime {
        StandsAlone(b, c, ct, entities[..i], e, time, maxTime);
        if current != [] {
          batches := batches + [current];
          current, currentTime := [], 0.0;
        }
        batches := batches + [[e]];
      } else {
        if c != [] && ct + t > maxTime {
          Starts(b, c, ct, entities[..i], e, time, maxTime);
        } else {
          Joins(b, c, ct, entities[..i], e, time, maxTime);
        }
        current, currentTime := current + [e], currentTime + t;
      }
      i := i + 1;
    }
    assert entities[..i] == entities;
    if current != [] {
      Closes(batches, current, currentTime, entities, time, maxTime);
      batches := batches + [current];
    }
    FewestBatches(batches, entities, time, maxTime);
  }

  function AsReal<T>(size: T -> int): T -> real {
    e => size(e) as real
  }

  lemma SameAsReal(a: int, b: int, limit: int)
    ensures (a + b) as real == a as real + b as real
    ensures b > limit <==> b as real > limit as real
    ensures a + b > limit <==> (a as real) + (b as real) > limit as real
  {
  }

  /** `SizeBatchStrategy.create_batches`: the same packing over integer sizes. */
  method SizeBatches<T(!new)>(entities: seq<T>, size: T -> int, maxSize: int) returns (batches: seq<seq<T>>)
    ensures Packs(batches, entities, AsReal(size), maxSize as real)
    ensures NonNegative(entities, AsReal(size)) ==>
      Full(batches, AsReal(size), maxSize as real) && Fewest(batches, entities, AsReal(size), maxSize as real)
  {
    ghost var weight, limit := AsReal(size), maxSize as real;
    batches := [];
    var current, currentSize: int := [], 0;
    var i := 0;
    while i < |entities|
      invariant 0 <= i <= |entities|
      invariant Progress(batches, current, currentSize as real, entities[..i], weight, limit)
    {
      var e := entities[i];
      var entitySize := size(e);
      ghost var b, c, cs := batches, current, currentSize as real;
      SameAsReal(currentSize, entitySize, maxSize);
      assert entities[..i + 1] == entities[..i] + [e];
      if currentSize + entitySize > maxSize && current != [] {
        batches := batches + [current];
        current, currentSize := [], 0;
      }
      if entitySize > maxSize {
        StandsAlone(b, c, cs, entities[..i], e, weight, limit);
        if current != [] {
          batches := batches + [current];
          current, currentSize := [], 0;
        }
        batches := batches + [[e]];
      } else {
        if c != [] && cs + weight(e) > limit {
          Starts(b, c, cs, entities[..i], e, weight, limit);
        } else {
          Joins(b, c, cs, entities[..i], e, weight, limit);
        }
        current, currentSize := current + [e], currentSize + entitySize;
      }
      i := i + 1;
    }
    assert entities[..i] == entities;
    if current != [] {
      Closes(batches, current, currentSize as real, entities, weight, limit);
      batches := batches + [current];
    }
    FewestBatches(batches, entities, weight, limit);
  }

  // ---- Packing entities of size 1 is fixed chunking ----

  lemma {:induction false} UnitTotal<T>(b: seq<T>, weight: T -> real)
    requires forall e | e in b :: weight(e) == 1.0
    ensures Total(b, weight) == |b| as real
  {
    if b != [] {
      UnitTotal(b[..|b| - 1], weight);
    }
  }

  lemma FullWithFirst<T>(b: seq<T>, rest: seq<seq<T>>, weight: T -> real, limit: real)
    requires Full(rest, weight, limit)
    requires rest != [] ==> NoRoom(b, rest[0], weight, limit)
    ensures Full([b] + rest, weight, limit)
  {
    var bs := [b] + rest;
    forall i, j | 0 <= i && j == i + 1 < |bs|
      ensures NoRoom(bs[i], bs[j], weight, limit)
    {
      assert bs[j] == rest[i];
      if i > 0 {
        assert bs[i] == rest[i - 1];
      }
    }
  }

  lemma {:induction false} ChunksAreFull<T>(s: seq<T>, m: nat, weight: T -> real)
    requires m >= 1 && forall e | e in s :: weight(e) == 1.0
    ensures Packs(Chunks(s, m), s, weight, m as real) && Full(Chunks(s, m), weight, m as real)
    decreases |s|
  {
    ChunksFlatten(s, m);
    if |s| > m {
      ChunksAreFull(s[m..], m, weight);
      UnitTotal(s[..m], weight);
      assert s[m] in s;
      FullWithFirst(s[..m], Chunks(s[m..], m), weight, m as real);
    } else if s != [] {
      UnitTotal(s, weight);
    }
  }

  /** A full packing of entities that all have size 1 is `create_batches` with that size. */
  lemma UnitPackingIsChunking<T>(bs: seq<seq<T>>, s: seq<T>, size: T -> int, m: nat)
    requires m >= 1 && forall e | e in s :: size(e) == 1
    requires Packs(bs, s, AsReal(size), m as real) && Full(bs, AsReal(size), m as real)
    ensures bs == Chunks(s, m)
  {
    ChunksAreFull(s, m, AsReal(size));
    assert NonNegative(s, AsReal(size)) by {
      assert forall i | 0 <= i < |s| :: s[i] in s;
    }
    FullPackingIsUnique(bs, Chunks(s, m), s, AsReal(size), m as real);
  }
}
