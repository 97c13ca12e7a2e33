/** Python's `sorted` with a key: a stable sort. */
module StableSort {

  /** In front of everything whose key is no smaller. */
  function Insert<T>(x: T, s: seq<T>, key: T -> int): seq<T> {
    if s == [] || key(x) <= key(s[0]) then [x] + s else [s[0]] + Insert(x, s[1..], key)
  }

  function SortBy<T>(s: seq<T>, key: T -> int): seq<T> {
    if s == [] then [] else Insert(s[0], SortBy(s[1..], key), key)
  }

  predicate Ascending<T>(s: seq<T>, key: T -> int) {
    forall i, j | 0 <= i < j < |s| :: key(s[i]) <= key(s[j])
  }

  lemma AscendingCons<T>(h: T, t: seq<T>, key: T -> int)
    requires Ascending(t, key) && forall i | 0 <= i < |t| :: key(h) <= key(t[i])
    ensures Ascending([h] + t, key)
  {
  }

  lemma {:induction false} InsertedIsOld<T>(x: T, s: seq<T>, key: T -> int)
    ensures forall i | 0 <= i < |Insert(x, s, key)| :: Insert(x, s, key)[i] == x || Insert(x, s, key)[i] in s
  {
    if s != [] && key(s[0]) < key(x) {
      InsertedIsOld(x, s[1..], key);
    }
  }

  lemma {:induction false} InsertAscends<T>(x: T, s: seq<T>, key: T -> int)
    requires Ascending(s, key)
    ensures Ascending(Insert(x, s, key), key)
  {
    if s == [] || key(x) <= key(s[0]) {
      AscendingCons(x, s, key);
    } else {
      var more := Insert(x, s[1..], key);
      InsertAscends(x, s[1..], key);
      InsertedIsOld(x, s[1..], key);
      forall i | 0 <= i < |more|
        ensures key(s[0]) <= key(more[i])
      {
        if more[i] != x {
          var j :| 0 <= j < |s[1..]| && s[1..][j] == more[i];
          assert more[i] == s[j + 1];
        }
      }
      AscendingCons(s[0], more, key);
    }
  }

  lemma {:induction false} InsertSorts<T>(x: T, s: seq<T>, key: T -> int)
    requires Ascending(s, key)
    ensures Ascending(Insert(x, s, key), key)
    ensures multiset(Insert(x, s, key)) == multiset{x} + multiset(s)
  {
    InsertAscends(x, s, key);
    if s != [] && key(s[0]) < key(x) {
      InsertSorts(x, s[1..], key);
      assert s == [s[0]] + s[1..];
    }
  }

  lemma {:induction false} SortSorts<T>(s: seq<T>, key: T -> int)
    ensures Ascending(SortBy(s, key), key)
    ensures multiset(SortBy(s, key)) == multiset(s)
    ensures |SortBy(s, key)| == |s|
  {
    if s != [] {
      SortSorts(s[1..], key);
      InsertSorts(s[0], SortBy(s[1..], key), key);
      assert s == [s[0]] + s[1..];
    }
    assert |multiset(SortBy(s, key))| == |multiset(s)|;
  }

  lemma InsertedMembers<T>(x: T, s: seq<T>, key: T -> int, y: T)
    requires Ascending(s, key)
    ensures y in Insert(x, s, key) <==> y == x || y in s
  {
    InsertSorts(x, s, key);
    assert y in Insert(x, s, key) <==> y in multiset(Insert(x, s, key));
  }

  lemma SameMembers<T>(s: seq<T>, key: T -> int, x: T)
    ensures x in SortBy(s, key) <==> x in s
  {
    SortSorts(s, key);
    assert x in multiset(SortBy(s, key)) <==> x in multiset(s);
  }

  lemma TwoSwapped<T>(a: T, b: T, key: T -> int)
    requires key(b) < key(a)
    ensures SortBy([a, b], key) == [b, a]
  {
    assert [a, b][1..] == [b] && [b][1..] == [];
    assert SortBy([b], key) == [b];
    assert Insert(a, [b], key) == [b] + Insert(a, [], key);
  }

  // ---- What the order of two elements tells ----

  /** Some occurrence of `a` in `s` is at or before the first one of `b`. */
  ghost predicate Ordered<T>(s: seq<T>, a: T, b: T) {
    s != [] && ((s[0] == a && b in s) || (s[0] != b && Ordered(s[1..], a, b)))
  }

  /** An inserted element comes before everything whose key is no smaller, the earlier
      occurrences of it included; the order of the others stays. */
  lemma {:induction false} InsertOrders<T>(x: T, s: seq<T>, key: T -> int, a: T, b: T)
    requires Ascending(s, key)
    ensures Ordered(Insert(x, s, key), a, b) <==>
      if b == x then a == x || (a in s && key(a) < key(x))
      else Ordered(s, a, b) || (a == x && b in s && key(x) <= key(b))
  {
    var r := Insert(x, s, key);
    if s == [] || key(x) <= key(s[0]) {
      assert r[0] == x && r[1..] == s;
      KeysFromFirst(s, key);
    } else {
      InsertOrders(x, s[1..], key, a, b);
      InsertedMembers(x, s[1..], key, b);
      assert r[0] == s[0] && r[1..] == Insert(x, s[1..], key);
      assert forall y :: y in s <==> y == s[0] || y in s[1..];
    }
  }

  lemma KeysFromFirst<T>(s: seq<T>, key: T -> int)
    requires Ascending(s, key)
    ensures forall y | y in s :: key(s[0]) <= key(y)
  {
  }

  /** The sort puts `a` at or before the first `b` exactly when its key is smaller, or equal
      and `a` already was at or before the first `b`. */
  lemma {:induction false} SortOrders<T>(s: seq<T>, key: T -> int, a: T, b: T)
    ensures Ordered(SortBy(s, key), a, b) <==>
      a in s && b in s && (key(a) < key(b) || (key(a) == key(b) && Ordered(s, a, b)))
  {
    if s != [] {
      var x, rest := s[0], s[1..];
      SortOrders(rest, key, a, b);
      SortSorts(rest, key);
      SameMembers(rest, key, a);
      SameMembers(rest, key, b);
      assert s == [x] + rest;
      InsertOrders(x, SortBy(rest, key), key, a, b);
    }
  }

  lemma {:induction false} FirstPosition<T>(s: seq<T>, b: T) returns (k: nat)
    requires b in s
    ensures k < |s| && s[k] == b && b !in s[..k]
  {
    if s[0] == b {
      k := 0;
    } else {
      k := FirstPosition(s[1..], b);
      k := k + 1;
      assert s[..k] == [s[0]] + s[1..][..k - 1];
    }
  }

  /** What stands at or before the first `b` is ordered before it. */
  lemma {:induction false} StandsOrdered<T>(s: seq<T>, i: nat, k: nat)
    requires i <= k < |s| && s[k] !in s[..k]
    ensures Ordered(s, s[i], s[k])
  {
    if i > 0 {
      assert s[0] in s[..k];
      assert s[1..][..k - 1] == s[1..k];
      StandsOrdered(s[1..], i - 1, k - 1);
    }
  }

  lemma {:induction false} OrderedStands<T>(s: seq<T>, a: T, k: nat) returns (i: nat)
    requires k < |s| && Ordered(s, a, s[k])
    ensures i <= k && s[i] == a
  {
    if s[0] == a {
      i := 0;
    } else {
      assert k > 0;
      i := OrderedStands(s[1..], a, k - 1);
      i := i + 1;
    }
  }
}
