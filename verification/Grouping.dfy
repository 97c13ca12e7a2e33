/** `EntityTypeBatchStrategy`: batches of entities of one type. */
module Grouping {
  import opened Batches

  /** The entities of one type, in order. */
  function Of<T, K(==)>(s: seq<T>, typeOf: T -> K, k: K): seq<T> {
    if s == [] then []
    else Of(s[..|s| - 1], typeOf, k) + if typeOf(s[|s| - 1]) == k then [s[|s| - 1]] else []
  }

  lemma {:induction false} OfSplits<T, K>(a: seq<T>, b: seq<T>, typeOf: T -> K, k: K)
    ensures Of(a + b, typeOf, k) == Of(a, typeOf, k) + Of(b, typeOf, k)
  {
    if b == [] {
      assert a + b == a;
    } else {
      OfSplits(a, b[..|b| - 1], typeOf, k);
      assert (a + b)[..|a + b| - 1] == a + b[..|b| - 1];
    }
  }

  lemma {:induction false} OfOwn<T, K>(s: seq<T>, typeOf: T -> K, t: K, k: K)
    requires forall e | e in s :: typeOf(e) == t
    ensures Of(s, typeOf, k) == if k == t then s else []
  {
    if s != [] {
      OfOwn(s[..|s| - 1], typeOf, t, k);
      assert s == s[..|s| - 1] + [s[|s| - 1]];
    }
  }

  lemma {:induction false} OfMembers<T, K>(s: seq<T>, typeOf: T -> K, k: K)
    ensures forall e | e in Of(s, typeOf, k) :: e in s && typeOf(e) == k
  {
    if s != [] {
      OfMembers(s[..|s| - 1], typeOf, k);
      assert s == s[..|s| - 1] + [s[|s| - 1]];
    }
  }

  lemma {:induction false} OfCounts<T, K>(s: seq<T>, typeOf: T -> K, e: T)
    ensures multiset(Of(s, typeOf, typeOf(e)))[e] == multiset(s)[e]
  {
    if s != [] {
      OfCounts(s[..|s| - 1], typeOf, e);
      assert s == s[..|s| - 1] + [s[|s| - 1]];
    }
  }

  /** The first position of type `k`, or the length if there is none. */
  function FirstOf<T, K(==)>(s: seq<T>, typeOf: T -> K, k: K): nat {
    if s == [] then 0 else if typeOf(s[0]) == k then 0 else 1 + FirstOf(s[1..], typeOf, k)
  }

  lemma {:induction false} FirstOfSplits<T, K>(a: seq<T>, e: T, typeOf: T -> K, k: K)
    ensures FirstOf(a + [e], typeOf, k)
         == if FirstOf(a, typeOf, k) < |a| then FirstOf(a, typeOf, k) else if typeOf(e) == k then |a| else |a| + 1
  {
    if a == [] {
      assert [e][1..] == [];
    } else {
      FirstOfSplits(a[1..], e, typeOf, k);
      assert (a + [e])[1..] == a[1..] + [e];
    }
  }

  lemma {:induction false} FirstOfIsFirst<T, K>(s: seq<T>, typeOf: T -> K, k: K)
    ensures var f := FirstOf(s, typeOf, k);
      f <= |s| && (f < |s| ==> typeOf(s[f]) == k) && forall i | 0 <= i < f :: typeOf(s[i]) != k
  {
    if s != [] && typeOf(s[0]) != k {
      FirstOfIsFirst(s[1..], typeOf, k);
    }
  }

  /** The types of `s`, each once, in the order a dictionary meets them. */
  function TypesOf<T, K(==)>(s: seq<T>, typeOf: T -> K): seq<K> {
    if s == [] then []
    else
      var types, k := TypesOf(s[..|s| - 1], typeOf), typeOf(s[|s| - 1]);
      if k in types then types else types + [k]
  }

  lemma {:induction false} TypesOccur<T, K>(s: seq<T>, typeOf: T -> K, k: K)
    ensures k in TypesOf(s, typeOf) <==> FirstOf(s, typeOf, k) < |s|
    ensures k in TypesOf(s, typeOf) <==> Of(s, typeOf, k) != []
  {
    if s != [] {
      TypesOccur(s[..|s| - 1], typeOf, k);
      FirstOfSplits(s[..|s| - 1], s[|s| - 1], typeOf, k);
      FirstOfIsFirst(s[..|s| - 1], typeOf, k);
      assert s == s[..|s| - 1] + [s[|s| - 1]];
    }
  }

  /** Types are listed in the order of their first entities. */
  lemma {:induction false} TypesInFirstOccurrenceOrder<T, K>(s: seq<T>, typeOf: T -> K, i: nat, j: nat)
    requires i < j < |TypesOf(s, typeOf)|
    ensures FirstOf(s, typeOf, TypesOf(s, typeOf)[i]) < FirstOf(s, typeOf, TypesOf(s, typeOf)[j])
  {
    var front, e := s[..|s| - 1], s[|s| - 1];
    var before, types := TypesOf(front, typeOf), TypesOf(s, typeOf);
    assert s == front + [e];
    FirstOfSplits(front, e, typeOf, types[i]);
    FirstOfSplits(front, e, typeOf, types[j]);
    TypesOccur(front, typeOf, types[i]);
    TypesOccur(front, typeOf, types[j]);
    assert types[i] == before[i] && types[i] in before;
    if j < |before| {
      TypesInFirstOccurrenceOrder(front, typeOf, i, j);
      assert types[j] == before[j] && types[j] in before;
    } else {
      FirstOfIsFirst(front, typeOf, types[j]);
    }
  }

  lemma TypesAreDistinct<T, K>(s: seq<T>, typeOf: T -> K)
    ensures forall i, j | 0 <= i < j < |TypesOf(s, typeOf)| :: TypesOf(s, typeOf)[i] != TypesOf(s, typeOf)[j]
  {
    forall i, j | 0 <= i < j < |TypesOf(s, typeOf)|
      ensures TypesOf(s, typeOf)[i] != TypesOf(s, typeOf)[j]
    {
      TypesInFirstOccurrenceOrder(s, typeOf, i, j);
    }
  }

  /** One type's entities: split if a cap is given and exceeded. */
  function Split<T>(group: seq<T>, cap: nat): seq<seq<T>> {
    if cap > 0 && |group| > cap then Chunks(group, cap) else [group]
  }

  function GroupBatches<T, K(==)>(s: seq<T>, typeOf: T -> K, cap: nat, types: seq<K>): seq<seq<T>> {
    if types == [] then []
    else GroupBatches(s, typeOf, cap, types[..|types| - 1]) + Split(Of(s, typeOf, types[|types| - 1]), cap)
  }

  /** The dictionary of groups, with its keys in insertion order. */
  method GroupByType<T, K(==)>(entities: seq<T>, typeOf: T -> K) returns (groups: map<K, seq<T>>, keys: seq<K>)
    ensures keys == TypesOf(entities, typeOf)
    ensures forall k | k in keys :: k in groups && groups[k] == Of(entities, typeOf, k)
  {
    groups, keys := map[], [];
    var i := 0;
    while i < |entities|
      invariant 0 <= i <= |entities| && keys == TypesOf(entities[..i], typeOf)
      invariant groups.Keys == (set k | k in keys)
      invariant forall k | k in keys :: groups[k] == Of(entities[..i], typeOf, k)
    {
      var e := entities[i];
      var k := typeOf(e);
      TypesOccur(entities[..i], typeOf, k);
      assert entities[..i + 1][..i] == entities[..i];
      if k !in groups {
        groups := groups[k := []];
        keys := keys + [k];
      }
      groups := groups[k := groups[k] + [e]];
      i := i + 1;
    }
    assert entities[..i] == entities;
  }

  method SplitGroup<T>(group: seq<T>, cap: nat) returns (batches: seq<seq<T>>)
    ensures batches == Split(group, cap)
  {
    if cap > 0 && |group| > cap {
      batches := FixedBatches(group, cap);
    } else {
      batches := [group];
    }
  }

  /** `EntityTypeBatchStrategy.create_batches`; a cap of 0 stands for no cap. */
  method TypeBatches<T, K(==)>(entities: seq<T>, typeOf: T -> K, cap: nat) returns (batches: seq<seq<T>>)
    ensures batches == Grouped(entities, typeOf, cap)
  {
    batches := [];
    var groups, keys := GroupByType(entities, typeOf);
    var n := 0;
    while n < |keys|
      invariant 0 <= n <= |keys| && batches == GroupBatches(entities, typeOf, cap, keys[..n])
    {
      var split := SplitGroup(groups[keys[n]], cap);
      assert keys[..n + 1][..n] == keys[..n] && keys[..n + 1][n] == keys[n];
      assert keys[n] in keys;
      batches := batches + split;
      n := n + 1;
    }
    assert keys[..n] == keys;
  }

  // ---- What the batches are ----

  ghost predicate SameType<T, K>(b: seq<T>, typeOf: T -> K, k: K) {
    forall e | e in b :: typeOf(e) == k
  }

  lemma FlattenMember<T>(bs: seq<seq<T>>, b: seq<T>)
    requires b in bs
    ensures forall e | e in b :: e in Flatten(bs)
    decreases |bs|
  {
    if b != bs[0] {
      FlattenMember(bs[1..], b);
    }
  }

  lemma SplitFlattens<T>(group: seq<T>, cap: nat)
    ensures Flatten(Split(group, cap)) == group
    ensures group != [] ==> [] !in Split(group, cap)
    ensures cap > 0 ==> forall b | b in Split(group, cap) :: |b| <= cap
  {
    if cap > 0 && |group| > cap {
      ChunksFlatten(group, cap);
    } else {
      assert [group][1..] == [];
    }
  }

  /** A group is cut only if it is over the cap, and then into full batches but for the last. */
  lemma SplitIsFull<T>(group: seq<T>, cap: nat)
    ensures cap == 0 || |group| <= cap ==> Split(group, cap) == [group]
    ensures forall i | 0 <= i < |Split(group, cap)| - 1 :: |Split(group, cap)[i]| == cap
    ensures cap > 0 && group != [] ==> |Split(group, cap)| == (|group| + cap - 1) / cap
  {
    if cap > 0 {
      ChunksAreLong(group, cap);
      ChunksCount(group, cap);
    }
  }

  ghost predicate Uniform<T, K>(b: seq<T>, typeOf: T -> K, cap: nat) {
    b != [] && SameType(b, typeOf, typeOf(b[0])) && (cap > 0 ==> |b| <= cap)
  }

  lemma SplitIsUniform<T, K>(s: seq<T>, typeOf: T -> K, cap: nat, k: K)
    requires Of(s, typeOf, k) != []
    ensures forall b | b in Split(Of(s, typeOf, k), cap) :: Uniform(b, typeOf, cap)
  {
    var group := Of(s, typeOf, k);
    OfMembers(s, typeOf, k);
    SplitFlattens(group, cap);
    forall b | b in Split(group, cap)
      ensures Uniform(b, typeOf, cap)
    {
      FlattenMember(Split(group, cap), b);
    }
  }

  lemma {:induction false} BatchesAreUniform<T, K>(s: seq<T>, typeOf: T -> K, cap: nat, types: seq<K>)
    requires forall k | k in types :: Of(s, typeOf, k) != []
    ensures forall b | b in GroupBatches(s, typeOf, cap, types) :: Uniform(b, typeOf, cap)
  {
    if types != [] {
      BatchesAreUniform(s, typeOf, cap, types[..|types| - 1]);
      SplitIsUniform(s, typeOf, cap, types[|types| - 1]);
    }
  }

  function TypeByType<T, K(==)>(s: seq<T>, typeOf: T -> K, types: seq<K>): seq<T> {
    if types == [] then [] else TypeByType(s, typeOf, types[..|types| - 1]) + Of(s, typeOf, types[|types| - 1])
  }

  /** Reading the batches from first to last gives the types one after the other. */
  lemma {:induction false} BatchesReadTypeByType<T, K>(s: seq<T>, typeOf: T -> K, cap: nat, types: seq<K>)
    ensures Flatten(GroupBatches(s, typeOf, cap, types)) == TypeByType(s, typeOf, types)
  {
    if types != [] {
      var front, last := types[..|types| - 1], types[|types| - 1];
      BatchesReadTypeByType(s, typeOf, cap, front);
      FlattenSplits(GroupBatches(s, typeOf, cap, front), Split(Of(s, typeOf, last), cap));
      SplitFlattens(Of(s, typeOf, last), cap);
    }
  }

  lemma {:induction false} TypeByTypeIsStable<T, K>(s: seq<T>, typeOf: T -> K, types: seq<K>, k: K)
    requires forall i, j | 0 <= i < j < |types| :: types[i] != types[j]
    ensures Of(TypeByType(s, typeOf, types), typeOf, k) == if k in types then Of(s, typeOf, k) else []
  {
    if types != [] {
      var front, last := types[..|types| - 1], types[|types| - 1];
      var group := Of(s, typeOf, last);
      assert types == front + [last] && (k == last ==> k !in front);
      TypeByTypeIsStable(s, typeOf, front, k);
      OfSplits(TypeByType(s, typeOf, front), group, typeOf, k);
      OfMembers(s, typeOf, last);
      OfOwn(group, typeOf, last, k);
    }
  }

  function Grouped<T, K(==)>(s: seq<T>, typeOf: T -> K, cap: nat): seq<seq<T>> {
    GroupBatches(s, typeOf, cap, TypesOf(s, typeOf))
  }

  /** No batch is empty, mixes types or exceeds the cap. */
  lemma GroupedIsUniform<T, K>(s: seq<T>, typeOf: T -> K, cap: nat)
    ensures forall b | b in Grouped(s, typeOf, cap) :: Uniform(b, typeOf, cap)
  {
    forall k | k in TypesOf(s, typeOf)
      ensures Of(s, typeOf, k) != []
    {
      TypesOccur(s, typeOf, k);
    }
    BatchesAreUniform(s, typeOf, cap, TypesOf(s, typeOf));
  }

  /** Grouping is stable: restricted to one type, nothing is lost, added or reordered. */
  lemma GroupingIsStable<T, K>(s: seq<T>, typeOf: T -> K, cap: nat, k: K)
    ensures Of(Flatten(Grouped(s, typeOf, cap)), typeOf, k) == Of(s, typeOf, k)
  {
    TypesAreDistinct(s, typeOf);
    BatchesReadTypeByType(s, typeOf, cap, TypesOf(s, typeOf));
    TypeByTypeIsStable(s, typeOf, TypesOf(s, typeOf), k);
    TypesOccur(s, typeOf, k);
  }

  lemma GroupingKeepsEntities<T, K>(s: seq<T>, typeOf: T -> K, cap: nat)
    ensures multiset(Flatten(Grouped(s, typeOf, cap))) == multiset(s)
  {
    var all := Flatten(Grouped(s, typeOf, cap));
    forall e | e in multiset(all) + multiset(s)
      ensures multiset(all)[e] == multiset(s)[e]
    {
      GroupingIsStable(s, typeOf, cap, typeOf(e));
      OfCounts(all, typeOf, e);
      OfCounts(s, typeOf, e);
    }
    assert multiset(all) <= multiset(s) <= multiset(all);
  }
}
