/** `SimilarityBatchStrategy`: batches of entities similar to their first one. */
module Similarity {
  import opened Wrappers
  import opened Numbers
  import opened Batches

  function SquaredDistance(a: seq<real>, b: seq<real>): real {
    if a == [] || b == [] then 0.0
    else (a[0] - b[0]) * (a[0] - b[0]) + SquaredDistance(a[1..], b[1..])
  }

  /** `1 - distance / sqrt(n) >= threshold` without the square roots, `n` being the number
      of the reference's features.  Distances pair features up to the shorter vector. */
  predicate Similar<T>(reference: T, e: T, features: T -> seq<real>, threshold: real) {
    var r := features(reference);
    1.0 - threshold >= 0.0
    && SquaredDistance(r, features(e)) <= (1.0 - threshold) * (1.0 - threshold) * (|r| as real)
  }

  // ---- The score, with its square roots ----

  /** The sum of the squared differences of the first `n` features. */
  function SumOfSquares(a: seq<real>, b: seq<real>, n: nat): real
    requires n <= |a| && n <= |b|
  {
    if n == 0 then 0.0 else SumOfSquares(a, b, n - 1) + (a[n - 1] - b[n - 1]) * (a[n - 1] - b[n - 1])
  }

  lemma {:induction false} SumFromFirst(a: seq<real>, b: seq<real>, n: nat)
    requires 0 < n <= |a| && n <= |b|
    ensures SumOfSquares(a, b, n) == (a[0] - b[0]) * (a[0] - b[0]) + SumOfSquares(a[1..], b[1..], n - 1)
  {
    if n > 1 {
      SumFromFirst(a, b, n - 1);
      assert a[1..][n - 2] == a[n - 1] && b[1..][n - 2] == b[n - 1];
    }
  }

  /** The distance runs over the features that both vectors have. */
  lemma {:induction false} DistanceIsSum(a: seq<real>, b: seq<real>)
    ensures SquaredDistance(a, b) == SumOfSquares(a, b, Min(|a|, |b|))
  {
    if a != [] && b != [] {
      DistanceIsSum(a[1..], b[1..]);
      SumFromFirst(a, b, Min(|a|, |b|));
    }
  }

  lemma SquaresOrder(x: real, y: real)
    requires x >= 0.0 && y >= 0.0
    ensures x <= y <==> x * x <= y * y
  {
    if x <= y {
      NonNegativeProduct(y - x, x + y);
      assert (y - x) * (x + y) == y * y - x * x;
    } else {
      PositiveProduct(x - y, x + y);
      assert (x - y) * (x + y) == x * x - y * y;
    }
  }

  lemma NonNegativeProduct(x: real, y: real)
    requires x >= 0.0 && y >= 0.0
    ensures x * y >= 0.0
  {
  }

  lemma PositiveProduct(x: real, y: real)
    requires x > 0.0 && y > 0.0
    ensures x * y > 0.0
  {
  }

  lemma ProductsOrder(q: real, t: real, n: real)
    requires n > 0.0
    ensures q <= t <==> q * n <= t * n
  {
    if q <= t {
      NonNegativeProduct(t - q, n);
      assert (t - q) * n == t * n - q * n;
    } else {
      PositiveProduct(q - t, n);
      assert (q - t) * n == q * n - t * n;
    }
  }

  lemma QuotientBelow(d: real, n: real, t: real)
    requires n > 0.0
    ensures d / n <= t <==> d <= t * n
  {
    var q := d / n;
    assert q * n == d;
    ProductsOrder(q, t, n);
  }

  lemma RootsOrder(d: real, n: real, t: real)
    requires d >= 0.0 && n > 0.0
    ensures d / n <= t <==> t >= 0.0 && d * d <= t * t * (n * n)
  {
    QuotientBelow(d, n, t);
    if t >= 0.0 {
      NonNegativeProduct(t, n);
      SquaresOrder(d, t * n);
      assert (t * n) * (t * n) == t * t * (n * n);
    } else {
      PositiveProduct(-t, n);
      assert (-t) * n == -(t * n);
    }
  }

  /** An entity is similar exactly when its score reaches the threshold: 1 less the distance
      over the largest distance there is, `d` and `n` being the two square roots. */
  lemma SimilarIff<T>(reference: T, e: T, features: T -> seq<real>, threshold: real, d: real, n: real)
    requires d >= 0.0 && n > 0.0
    requires d * d == SumOfSquares(features(reference), features(e), Min(|features(reference)|, |features(e)|))
    requires n * n == |features(reference)| as real
    ensures Similar(reference, e, features, threshold) <==> 1.0 - d / n >= threshold
  {
    DistanceIsSum(features(reference), features(e));
    RootsOrder(d, n, 1.0 - threshold);
  }

  // ---- The indices collected for a reference ----

  predicate AscendingBelow(found: seq<nat>, n: nat) {
    && (forall i, j | 0 <= i < j < |found| :: found[i] < found[j])
    && (forall i | 0 <= i < |found| :: found[i] < n)
  }

  /** The first `room` positions from `i` on that are similar. */
  function SimilarFrom<T>(s: seq<T>, i: nat, similar: T -> bool, room: nat): seq<nat>
    requires i <= |s|
    decreases |s| - i
  {
    if i == |s| || room == 0 then []
    else if similar(s[i]) then [i] + SimilarFrom(s, i + 1, similar, room - 1)
    else SimilarFrom(s, i + 1, similar, room)
  }

  /** How many others a batch takes in at most: the cap is tested after each addition, and
      a cap of 0 stands for no cap. */
  function Room(cap: nat, others: nat): nat {
    if cap == 0 then others else if cap < 2 then 1 else cap - 1
  }

  /** The collected indices: the first similar ones, all of them unless the cap, tested
      after each addition, stopped the search.  A cap of 0 stands for no cap. */
  ghost predicate Collected<T>(found: seq<nat>, rest: seq<T>, similar: T -> bool, cap: nat) {
    && AscendingBelow(found, |rest|)
    && (forall i | 0 <= i < |found| :: similar(rest[found[i]]))
    && (forall i | 0 <= i < |rest| && similar(rest[i]) && i !in found :: found != [] && i > found[|found| - 1])
    && (cap > 0 ==> 1 + |found| <= if cap < 2 then 2 else cap)
    && (cap == 0 || found == [] || 1 + |found| < cap ==> forall i | 0 <= i < |rest| && similar(rest[i]) :: i in found)
  }

  /** What the first similar positions from `i` on are: all there are, unless the room was
      used up, and then no later one than any that was left out. */
  ghost predicate FirstOnes<T>(found: seq<nat>, s: seq<T>, i: nat, similar: T -> bool, room: nat) {
    && AscendingBelow(found, |s|) && |found| <= room
    && (forall j | 0 <= j < |found| :: found[j] >= i && similar(s[found[j]]))
    && (forall j | i <= j < |s| && similar(s[j]) && j !in found ::
          room < |s| - i && |found| == room && (found != [] ==> j > found[|found| - 1]))
  }

  lemma FirstOnesCons<T>(more: seq<nat>, s: seq<T>, i: nat, similar: T -> bool, room: nat)
    requires i < |s| && room > 0 && similar(s[i]) && FirstOnes(more, s, i + 1, similar, room - 1)
    ensures FirstOnes([i] + more, s, i, similar, room)
  {
    var found := [i] + more;
    forall j | i <= j < |s| && similar(s[j]) && j !in found
      ensures room < |s| - i && |found| == room && j > found[|found| - 1]
    {
      assert j != i by { assert found[0] == i; }
      assert j !in more by { assert forall k | 0 <= k < |more| :: found[k + 1] == more[k]; }
    }
  }

  lemma FirstOnesSkip<T>(found: seq<nat>, s: seq<T>, i: nat, similar: T -> bool, room: nat)
    requires i < |s| && !similar(s[i]) && FirstOnes(found, s, i + 1, similar, room)
    ensures FirstOnes(found, s, i, similar, room)
  {
  }

  lemma {:induction false} SimilarFromIsFirst<T>(s: seq<T>, i: nat, similar: T -> bool, room: nat)
    requires i <= |s|
    ensures FirstOnes(SimilarFrom(s, i, similar, room), s, i, similar, room)
    decreases |s| - i
  {
    if i < |s| && room > 0 {
      if similar(s[i]) {
        SimilarFromIsFirst(s, i + 1, similar, room - 1);
        FirstOnesCons(SimilarFrom(s, i + 1, similar, room - 1), s, i, similar, room);
      } else {
        SimilarFromIsFirst(s, i + 1, similar, room);
        FirstOnesSkip(SimilarFrom(s, i + 1, similar, room), s, i, similar, room);
      }
    }
  }

  lemma SimilarFromIsCollected<T>(rest: seq<T>, similar: T -> bool, cap: nat)
    ensures Collected(SimilarFrom(rest, 0, similar, Room(cap, |rest|)), rest, similar, cap)
  {
    SimilarFromIsFirst(rest, 0, similar, Room(cap, |rest|));
  }

  lemma CollectOne<T>(found: seq<nat>, rest: seq<T>, i: nat, similar: T -> bool, room: nat)
    requires i < |rest| && similar(rest[i]) && room > 0
    ensures found + SimilarFrom(rest, i, similar, room) == (found + [i]) + SimilarFrom(rest, i + 1, similar, room - 1)
  {
    var more := SimilarFrom(rest, i + 1, similar, room - 1);
    assert found + ([i] + more) == (found + [i]) + more;
  }

  method Collect<T>(rest: seq<T>, similar: T -> bool, cap: nat) returns (found: seq<nat>)
    ensures found == SimilarFrom(rest, 0, similar, Room(cap, |rest|))
  {
    ghost var all, room := SimilarFrom(rest, 0, similar, Room(cap, |rest|)), Room(cap, |rest|);
    found := [];
    var i := 0;
    while i < |rest|
      invariant 0 <= i <= |rest| && |found| <= i && room == Room(cap, |rest|) - |found| >= 0
      invariant room > 0 || i == |rest|
      invariant found + SimilarFrom(rest, i, similar, room) == all
    {
      if similar(rest[i]) {
        CollectOne(found, rest, i, similar, room);
        found := found + [i];
        room := room - 1;
        if cap > 0 && 1 + |found| >= cap {
          assert SimilarFrom(rest, i + 1, similar, room) == [];
          return;
        }
      }
      i := i + 1;
    }
  }

  // ---- Popping them, from the last to the first ----

  function Cut<T>(s: seq<T>, i: nat): seq<T>
    requires i < |s|
  {
    s[..i] + s[i + 1..]
  }

  /** What popping the collected indices of `s`, in descending order, yields and leaves. */
  function Popped<T>(s: seq<T>, found: seq<nat>): (r: (seq<T>, seq<T>))
    requires AscendingBelow(found, |s|)
    ensures |r.1| + |found| == |s|
    decreases |found|
  {
    if found == [] then ([], s)
    else
      var last := found[|found| - 1];
      var (taken, left) := Popped(Cut(s, last), found[..|found| - 1]);
      ([s[last]] + taken, left)
  }

  lemma CutCounts<T>(s: seq<T>, i: nat)
    requires i < |s|
    ensures multiset(s) == multiset{s[i]} + multiset(Cut(s, i))
  {
    assert s == s[..i] + [s[i]] + s[i + 1..];
  }

  lemma FrontAscends(s: seq<nat>, n: nat)
    requires AscendingBelow(s, n) && s != []
    ensures AscendingBelow(s[..|s| - 1], s[|s| - 1])
  {
  }

  /** What is taken is what stood at the collected positions, last position first. */
  lemma {:induction false} PoppedTakes<T>(s: seq<T>, found: seq<nat>)
    requires AscendingBelow(found, |s|)
    ensures |Popped(s, found).0| == |found|
    ensures forall k, m | 0 <= k < |found| && m == |found| - 1 - k :: Popped(s, found).0[k] == s[found[m]]
    decreases |found|
  {
    if found != [] {
      var n := |found| - 1;
      FrontAscends(found, |s|);
      PoppedTakes(Cut(s, found[n]), found[..n]);
    }
  }

  /** Nothing is lost. */
  lemma {:induction false} PoppedCounts<T>(s: seq<T>, found: seq<nat>)
    requires AscendingBelow(found, |s|)
    ensures multiset(Popped(s, found).0) + multiset(Popped(s, found).1) == multiset(s)
    decreases |found|
  {
    if found != [] {
      var n := |found| - 1;
      FrontAscends(found, |s|);
      PoppedCounts(Cut(s, found[n]), found[..n]);
      CutCounts(s, found[n]);
    }
  }

  /** What is left stood at the other positions. */
  lemma {:induction false} PoppedLeaves<T>(s: seq<T>, found: seq<nat>, e: T) returns (i: nat)
    requires AscendingBelow(found, |s|) && e in Popped(s, found).1
    ensures i < |s| && i !in found && s[i] == e
    decreases |found|
  {
    if found == [] {
      i :| 0 <= i < |s| && s[i] == e;
    } else {
      var n := |found| - 1;
      FrontAscends(found, |s|);
      var j := PoppedLeaves(Cut(s, found[n]), found[..n], e);
      i := if j < found[n] then j else j + 1;
      assert found == found[..n] + [found[n]];
    }
  }

  function Like<T>(similar: (T, T) -> bool, reference: T): T -> bool {
    e => similar(reference, e)
  }

  /** The positions of those that go into a batch with the reference. */
  function Indices<T>(reference: T, others: seq<T>, similar: (T, T) -> bool, cap: nat): (found: seq<nat>)
    ensures AscendingBelow(found, |others|)
  {
    SimilarFromIsFirst(others, 0, Like(similar, reference), Room(cap, |others|));
    SimilarFrom(others, 0, Like(similar, reference), Room(cap, |others|))
  }

  /** The batches: the first entity with those that are popped for it, and so on with what
      is left.  An entity that cannot be compared with the others raises. */
  function Batching<T>(entities: seq<T>, similar: (T, T) -> bool, usable: T -> bool, cap: nat): Result<seq<seq<T>>>
    decreases |entities|
  {
    if entities == [] then Ok([])
    else if !usable(entities[0]) && |entities| > 1 then Raised
    else
      var (taken, left) := Popped(entities[1..], Indices(entities[0], entities[1..], similar, cap));
      Prepended([[entities[0]] + taken], Batching(left, similar, usable, cap))
  }

  function Prepended<T>(bs: seq<seq<T>>, r: Result<seq<seq<T>>>): Result<seq<seq<T>>> {
    match r
    case Ok(more) => Ok(bs + more)
    case Raised => Raised
  }

  lemma PrependedToNothing<T>(r: Result<seq<seq<T>>>)
    ensures Prepended([], r) == r
  {
    if r.Ok? {
      assert [] + r.value == r.value;
    }
  }

  lemma PrependedNothing<T>(bs: seq<seq<T>>)
    ensures Prepended(bs, Ok([])) == Ok(bs)
  {
    assert bs + [] == bs;
  }

  lemma PrependedTwice<T>(a: seq<seq<T>>, b: seq<seq<T>>, r: Result<seq<seq<T>>>)
    ensures Prepended(a, Prepended(b, r)) == Prepended(a + b, r)
  {
    if r.Ok? {
      assert a + (b + r.value) == (a + b) + r.value;
    }
  }

  /** If every entity can be compared, nothing raises. */
  lemma {:induction false} UsableMeansOk<T>(entities: seq<T>, similar: (T, T) -> bool, usable: T -> bool, cap: nat)
    requires forall e | e in entities :: usable(e)
    ensures Batching(entities, similar, usable, cap).Ok?
    decreases |entities|
  {
    if entities != [] {
      var rest, found := entities[1..], Indices(entities[0], entities[1..], similar, cap);
      var left := Popped(rest, found).1;
      forall e | e in left
        ensures usable(e)
      {
        var i := PoppedLeaves(rest, found, e);
        assert entities[i + 1] == e;
      }
      UsableMeansOk(left, similar, usable, cap);
    }
  }

  /** A batch's members are similar to its first; the batch respects the cap, or 2. */
  ghost predicate Cluster<T>(b: seq<T>, similar: (T, T) -> bool, cap: nat) {
    && b != [] && (forall i | 1 <= i < |b| :: similar(b[0], b[i]))
    && (cap > 0 ==> |b| <= if cap < 2 then 2 else cap)
  }

  /** The search that made this batch was not stopped by the cap. */
  predicate Exhausted<T>(b: seq<T>, cap: nat) {
    cap == 0 || |b| < cap || |b| == 1
  }

  ghost predicate NoneSimilar<T>(reference: T, others: seq<T>, similar: (T, T) -> bool) {
    forall i | 0 <= i < |others| :: !similar(reference, others[i])
  }

  lemma NoneSimilarAmong<T>(reference: T, others: seq<T>, fewer: seq<T>, similar: (T, T) -> bool)
    requires NoneSimilar(reference, others, similar) && forall e | e in fewer :: e in others
    ensures NoneSimilar(reference, fewer, similar)
  {
    forall i | 0 <= i < |fewer|
      ensures !similar(reference, fewer[i])
    {
      assert fewer[i] in others;
    }
  }

  /** Where an unstopped batch ended, nothing similar to its first entity was left. */
  ghost predicate Clustered<T>(bs: seq<seq<T>>, remaining: seq<T>, similar: (T, T) -> bool, cap: nat) {
    && (forall i | 0 <= i < |bs| :: Cluster(bs[i], similar, cap))
    && (forall i, j | 0 <= i < j < |bs| && Exhausted(bs[i], cap) :: NoneSimilar(bs[i][0], bs[j], similar))
    && (forall i | 0 <= i < |bs| && Exhausted(bs[i], cap) :: NoneSimilar(bs[i][0], remaining, similar))
  }

  /** Two entities of which the later is similar to the earlier. */
  ghost predicate SimilarPair<T>(s: seq<T>, similar: (T, T) -> bool) {
    exists i, j :: 0 <= i < j < |s| && similar(s[i], s[j])
  }

  /** As long as nothing similar turns up, the batches are the entities one by one. */
  ghost predicate OneByOne<T>(bs: seq<seq<T>>, remaining: seq<T>, s: seq<T>) {
    |bs| <= |s| && remaining == s[|bs|..] && forall i | 0 <= i < |bs| :: bs[i] == [s[i]]
  }

  ghost predicate AllSingle<T>(bs: seq<seq<T>>) {
    forall i | 0 <= i < |bs| :: |bs[i]| == 1
  }

  lemma LeftIsNotSimilar<T>(reference: T, rest: seq<T>, similar: (T, T) -> bool, cap: nat, found: seq<nat>)
    requires Collected(found, rest, Like(similar, reference), cap)
    requires cap == 0 || 1 + |found| < cap || found == []
    ensures NoneSimilar(reference, Popped(rest, found).1, similar)
  {
    var left := Popped(rest, found).1;
    forall i | 0 <= i < |left|
      ensures !similar(reference, left[i])
    {
      var j := PoppedLeaves(rest, found, left[i]);
      assert Like(similar, reference)(rest[j]) == similar(reference, rest[j]);
    }
  }

  lemma PoppedMakesCluster<T>(reference: T, rest: seq<T>, similar: (T, T) -> bool, cap: nat, found: seq<nat>)
    requires Collected(found, rest, Like(similar, reference), cap)
    ensures var b, left := [reference] + Popped(rest, found).0, Popped(rest, found).1;
      && Cluster(b, similar, cap)
      && (Exhausted(b, cap) ==> NoneSimilar(reference, left, similar))
      && (|b| == 1 ==> left == rest)
      && (|b| > 1 ==> exists j :: 0 <= j < |rest| && similar(reference, rest[j]))
  {
    var b, left := [reference] + Popped(rest, found).0, Popped(rest, found).1;
    PoppedTakes(rest, found);
    forall i | 1 <= i < |b|
      ensures similar(reference, b[i])
    {
      var m := |found| - i;
      assert b[i] == Popped(rest, found).0[i - 1] == rest[found[m]];
    }
    if Exhausted(b, cap) {
      LeftIsNotSimilar(reference, rest, similar, cap, found);
    }
    if |b| > 1 {
      assert similar(reference, rest[found[0]]);
    }
  }

  /** One round: the reference and what is collected for it become a batch. */
  method NextBatch<T>(reference: T, rest: seq<T>, similar: (T, T) -> bool, cap: nat) returns (b: seq<T>, left: seq<T>)
    ensures var popped := Popped(rest, Indices(reference, rest, similar, cap));
      b == [reference] + popped.0 && left == popped.1
    ensures Cluster(b, similar, cap) && b[0] == reference
    ensures multiset(b) + multiset(left) == multiset([reference] + rest)
    ensures Exhausted(b, cap) ==> NoneSimilar(reference, left, similar)
    ensures |b| == 1 ==> left == rest
    ensures |b| > 1 ==> exists j :: 0 <= j < |rest| && similar(reference, rest[j])
    ensures |left| <= |rest|
  {
    var found := Collect(rest, Like(similar, reference), cap);
    SimilarFromIsCollected(rest, Like(similar, reference), cap);
    var popped := Popped(rest, found);
    b, left := [reference] + popped.0, popped.1;
    PoppedMakesCluster(reference, rest, similar, cap, found);
    PoppedCounts(rest, found);
  }

  lemma BatchAdded<T>(bs: seq<seq<T>>, remaining: seq<T>, b: seq<T>, left: seq<T>, similar: (T, T) -> bool, cap: nat)
    requires Clustered(bs, remaining, similar, cap) && Cluster(b, similar, cap)
    requires multiset(b) + multiset(left) == multiset(remaining)
    requires Exhausted(b, cap) ==> NoneSimilar(b[0], left, similar)
    ensures Clustered(bs + [b], left, similar, cap)
  {
    forall e | e in b || e in left
      ensures e in remaining
    {
      assert e in multiset(b) + multiset(left);
      assert e in multiset(remaining);
    }
    forall i | 0 <= i < |bs| && Exhausted(bs[i], cap)
      ensures NoneSimilar(bs[i][0], b, similar) && NoneSimilar(bs[i][0], left, similar)
    {
      NoneSimilarAmong(bs[i][0], remaining, b, similar);
      NoneSimilarAmong(bs[i][0], remaining, left, similar);
    }
  }

  lemma OneByOneGoesOn<T>(bs: seq<seq<T>>, remaining: seq<T>, b: seq<T>, left: seq<T>, s: seq<T>, similar: (T, T) -> bool)
    requires OneByOne(bs, remaining, s) && remaining != [] && b != [] && b[0] == remaining[0]
    requires |b| == 1 ==> left == remaining[1..]
    requires |b| > 1 ==> exists j :: 0 <= j < |remaining[1..]| && similar(remaining[0], remaining[1..][j])
    ensures if |b| == 1 then OneByOne(bs + [b], left, s) else SimilarPair(s, similar)
  {
    var n := |bs|;
    if |b| == 1 {
      assert b == [s[n]];
    } else {
      var j :| 0 <= j < |remaining[1..]| && similar(remaining[0], remaining[1..][j]);
      assert s[n] == remaining[0] && s[n + 1 + j] == remaining[1..][j];
    }
  }

  /** What the loop has made of the entities so far. */
  ghost predicate Clustering<T>(bs: seq<seq<T>>, remaining: seq<T>, s: seq<T>, similar: (T, T) -> bool, cap: nat) {
    && multiset(Flatten(bs)) + multiset(remaining) == multiset(s)
    && Clustered(bs, remaining, similar, cap)
    && if AllSingle(bs) then OneByOne(bs, remaining, s) else SimilarPair(s, similar)
  }

  lemma ClusteringGoesOn<T>(bs: seq<seq<T>>, remaining: seq<T>, b: seq<T>, left: seq<T>, s: seq<T>, similar: (T, T) -> bool, cap: nat)
    requires Clustering(bs, remaining, s, similar, cap) && remaining != []
    requires Cluster(b, similar, cap) && b[0] == remaining[0]
    requires multiset(b) + multiset(left) == multiset(remaining)
    requires Exhausted(b, cap) ==> NoneSimilar(b[0], left, similar)
    requires |b| == 1 ==> left == remaining[1..]
    requires |b| > 1 ==> exists j :: 0 <= j < |remaining[1..]| && similar(remaining[0], remaining[1..][j])
    ensures Clustering(bs + [b], left, s, similar, cap)
  {
    BatchAdded(bs, remaining, b, left, similar, cap);
    FlattenPush(bs, b);
    SinglesPush(bs, b);
    if AllSingle(bs) {
      OneByOneGoesOn(bs, remaining, b, left, s, similar);
    }
  }

  lemma SinglesPush<T>(bs: seq<seq<T>>, b: seq<T>)
    ensures AllSingle(bs + [b]) <==> AllSingle(bs) && |b| == 1
  {
    var more := bs + [b];
    assert more[|bs|] == b;
    assert forall i | 0 <= i < |bs| :: more[i] == bs[i];
  }

  lemma OneByOneMeansNoPair<T>(bs: seq<seq<T>>, s: seq<T>, similar: (T, T) -> bool, cap: nat)
    requires OneByOne(bs, [], s) && Clustered(bs, [], similar, cap)
    ensures !SimilarPair(s, similar)
  {
    forall i, j | 0 <= i < j < |s|
      ensures !similar(s[i], s[j])
    {
      assert bs[i] == [s[i]] && bs[j] == [s[j]] && Exhausted(bs[i], cap);
      assert NoneSimilar(bs[i][0], bs[j], similar);
      assert bs[j][0] == s[j];
    }
  }

  lemma BatchingGoesOn<T>(bs: seq<seq<T>>, remaining: seq<T>, b: seq<T>, left: seq<T>,
                          similar: (T, T) -> bool, usable: T -> bool, cap: nat)
    requires remaining != [] && (usable(remaining[0]) || |remaining| == 1)
    requires var popped := Popped(remaining[1..], Indices(remaining[0], remaining[1..], similar, cap));
      b == [remaining[0]] + popped.0 && left == popped.1
    ensures Prepended(bs + [b], Batching(left, similar, usable, cap)) == Prepended(bs, Batching(remaining, similar, usable, cap))
  {
    PrependedTwice(bs, [b], Batching(left, similar, usable, cap));
  }

  lemma ClusteringEnds<T>(bs: seq<seq<T>>, s: seq<T>, similar: (T, T) -> bool, cap: nat)
    requires Clustering(bs, [], s, similar, cap)
    ensures multiset(Flatten(bs)) == multiset(s) && Clustered(bs, [], similar, cap)
    ensures AllSingle(bs) <==> !SimilarPair(s, similar)
  {
    if AllSingle(bs) {
      OneByOneMeansNoPair(bs, s, similar, cap);
    }
  }

  lemma UnusableRaises<T>(bs: seq<seq<T>>, remaining: seq<T>, similar: (T, T) -> bool, usable: T -> bool, cap: nat)
    requires |remaining| > 1 && !usable(remaining[0])
    ensures Prepended(bs, Batching(remaining, similar, usable, cap)) == Raised
  {
  }

  /** One round of the loop. */
  method OneRound<T>(batches: seq<seq<T>>, remaining: seq<T>, ghost entities: seq<T>,
                     similar: (T, T) -> bool, ghost usable: T -> bool, cap: nat)
    returns (more: seq<seq<T>>, left: seq<T>)
    requires remaining != [] && (usable(remaining[0]) || |remaining| == 1)
    requires Clustering(batches, remaining, entities, similar, cap)
    ensures Clustering(more, left, entities, similar, cap) && |left| < |remaining|
    ensures Prepended(more, Batching(left, similar, usable, cap)) == Prepended(batches, Batching(remaining, similar, usable, cap))
  {
    var b: seq<T>;
    assert remaining == [remaining[0]] + remaining[1..];
    b, left := NextBatch(remaining[0], remaining[1..], similar, cap);
    ClusteringGoesOn(batches, remaining, b, left, entities, similar, cap);
    BatchingGoesOn(batches, remaining, b, left, similar, usable, cap);
    more := batches + [b];
  }

  /** The clustering loop, for any notion of similarity. */
  method Clusters<T(!new)>(entities: seq<T>, similar: (T, T) -> bool, usable: T -> bool, cap: nat)
    returns (r: Result<seq<seq<T>>>)
    ensures r == Batching(entities, similar, usable, cap)
    ensures r.Ok? ==>
      && multiset(Flatten(r.value)) == multiset(entities)
      && Clustered(r.value, [], similar, cap)
      && (AllSingle(r.value) <==> !SimilarPair(entities, similar))
  {
    var batches, remaining := [], entities;
    PrependedToNothing(Batching(entities, similar, usable, cap));
    while remaining != []
      invariant Clustering(batches, remaining, entities, similar, cap)
      invariant Prepended(batches, Batching(remaining, similar, usable, cap)) == Batching(entities, similar, usable, cap)
      decreases |remaining|
    {
      if !usable(remaining[0]) && |remaining| > 1 {
        UnusableRaises(batches, remaining, similar, usable, cap);
        return Raised;
      }
      batches, remaining := OneRound(batches, remaining, entities, similar, usable, cap);
    }
    ClusteringEnds(batches, entities, similar, cap);
    PrependedNothing(batches);
    return Ok(batches);
  }

  ghost predicate CapRespected<T>(bs: seq<seq<T>>, cap: nat) {
    cap > 0 ==> forall i | 0 <= i < |bs| :: |bs[i]| <= cap
  }

  /** `SimilarityBatchStrategy.create_batches`.  It divides by zero when an entity without
      features comes first and others are left.  The cap is respected unless it is 1 and some
      entity is similar to an earlier one, for it is tested after adding. */
  method SimilarityBatches<T(!new)>(entities: seq<T>, features: T -> seq<real>, threshold: real, cap: nat)
    returns (r: Result<seq<seq<T>>>)
    ensures r == Batching(entities, (r, e) => Similar(r, e, features, threshold), e => features(e) != [], cap)
    ensures (forall e | e in entities :: features(e) != []) ==> r.Ok?
    ensures r.Ok? ==>
      var similar := (r, e) => Similar(r, e, features, threshold);
      && multiset(Flatten(r.value)) == multiset(entities)
      && Clustered(r.value, [], similar, cap)
      && (CapRespected(r.value, cap) <==> cap != 1 || !SimilarPair(entities, similar))
  {
    r := Clusters(entities, (r, e) => Similar(r, e, features, threshold), e => features(e) != [], cap);
    if forall e | e in entities :: features(e) != [] {
      UsableMeansOk(entities, (r, e) => Similar(r, e, features, threshold), e => features(e) != [], cap);
    }
  }

  /** With a cap of 1, two entities alike go into one batch all the same. */
  method TwoAlike() returns (r: Result<seq<seq<real>>>)
    ensures r.Ok? && multiset(Flatten(r.value)) == multiset{0.0, 0.0} && !CapRespected(r.value, 1)
  {
    var features := (x: real) => [x];
    r := SimilarityBatches([0.0, 0.0], features, 0.5, 1);
    assert Similar(0.0, 0.0, features, 0.5);
    assert SimilarPair([0.0, 0.0], (r, e) => Similar(r, e, features, 0.5)) by {
      assert [0.0, 0.0][0] == 0.0 && [0.0, 0.0][1] == 0.0;
    }
  }
}
