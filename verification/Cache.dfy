/** `QueryCache` and the `cached_query` decorator. */
module Cache {
  import opened Wrappers

  type Time = int

  /** What is called on the cache, and when.  A stored value of None is a cached None. */
  datatype Op<V> =
    | Get(key: string)
    | Set(key: string, value: Option<V>)
    | Invalidate(key: string)
    | InvalidatePattern(pattern: string)
    | Clear
    | Cleanup
    | SetTtl(seconds: int)

  datatype Event<V> = Event(now: Time, op: Op<V>)

  predicate OccursAt(s: string, pattern: string, i: nat) {
    i + |pattern| <= |s| && s[i..i + |pattern|] == pattern
  }

  predicate Contains(s: string, pattern: string) {
    exists i | 0 <= i <= |s| :: OccursAt(s, pattern, i)
  }

  datatype Store<V> = Store(entries: map<string, (Option<V>, Time)>, ttl: int)

  predicate Expired(at: Time, now: Time, ttl: int) {
    now - at > ttl
  }

  predicate Live<V>(s: Store<V>, key: string, now: Time) {
    key in s.entries && !Expired(s.entries[key].1, now, s.ttl)
  }

  /** What each operation does; `get` deletes the entry it finds expired. */
  function Apply<V>(s: Store<V>, e: Event<V>): Store<V> {
    match e.op
    case Get(key) =>
      if key in s.entries && !Live(s, key, e.now) then s.(entries := s.entries - {key}) else s
    case Set(key, value) => s.(entries := s.entries[key := (value, e.now)])
    case Invalidate(key) => s.(entries := s.entries - {key})
    case InvalidatePattern(pattern) =>
      s.(entries := map k | k in s.entries && !Contains(k, pattern) :: s.entries[k])
    case Clear => s.(entries := map[])
    case Cleanup => s.(entries := map k | k in s.entries && Live(s, k, e.now) :: s.entries[k])
    case SetTtl(seconds) => s.(ttl := seconds)
  }

  /** What `get` returns. */
  function Answer<V>(s: Store<V>, key: string, now: Time): Option<V> {
    if Live(s, key, now) then s.entries[key].0 else None
  }

  function After<V>(s: Store<V>, events: seq<Event<V>>): Store<V> {
    if events == [] then s else Apply(After(s, events[..|events| - 1]), events[|events| - 1])
  }

  /** A decorated call: what is cached and not None, or else the result of the function,
      which is then cached.  No lock is held while the function runs; `meanwhile` is what
      happens to the cache then. */
  function Called<V>(s: Store<V>, key: string, asked: Time, meanwhile: seq<Event<V>>, result: Option<V>, answered: Time)
    : (Store<V>, Option<V>)
  {
    var hit, looked := Answer(s, key, asked), Apply(s, Event(asked, Get(key)));
    if hit.Some? then (looked, hit)
    else (Apply(After(looked, meanwhile), Event(answered, Set(key, result))), result)
  }

  /** The cache as the class keeps it. */
  class QueryCache<V> {
    var cache: map<string, (Option<V>, Time)>
    var ttlSeconds: int

    ghost function State(): Store<V>
      reads this
    {
      Store(cache, ttlSeconds)
    }

    constructor (ttl: int)
      ensures State() == Store(map[], ttl)
    {
      cache, ttlSeconds := map[], ttl;
    }

    method Fetch(key: string, now: Time) returns (value: Option<V>)
      modifies this
      ensures value == Answer(old(State()), key, now)
      ensures State() == Apply(old(State()), Event(now, Get(key)))
    {
      if key !in cache {
        return None;
      }
      var (v, timestamp) := cache[key];
      if now - timestamp > ttlSeconds {
        cache := cache - {key};
        return None;
      }
      return v;
    }

    method Put(key: string, value: Option<V>, now: Time)
      modifies this
      ensures State() == Apply(old(State()), Event(now, Set(key, value)))
    {
      cache := cache[key := (value, now)];
    }

    method Drop(key: string, now: Time)
      modifies this
      ensures State() == Apply(old(State()), Event(now, Invalidate(key)))
    {
      if key in cache {
        cache := cache - {key};
      } else {
        assert cache - {key} == cache;
      }
    }

    /** Collects the keys, then deletes them. */
    method DropPattern(pattern: string, now: Time)
      modifies this
      ensures State() == Apply(old(State()), Event(now, InvalidatePattern(pattern)))
    {
      var doomed := set k | k in cache && Contains(k, pattern);
      cache := cache - doomed;
    }

    method Empty(now: Time)
      modifies this
      ensures State() == Apply(old(State()), Event(now, Clear))
    {
      cache := map[];
    }

    method RemoveExpired(now: Time)
      modifies this
      ensures State() == Apply(old(State()), Event(now, Cleanup))
    {
      var doomed := set k | k in cache && now - cache[k].1 > ttlSeconds;
      cache := cache - doomed;
    }

    /** `optimize_for_reads`: 10 minutes. */
    method OptimizeForReads(now: Time)
      modifies this
      ensures State() == Apply(old(State()), Event(now, SetTtl(600)))
    {
      ttlSeconds := 600;
    }

    /** `optimize_for_writes`: 1 minute. */
    method OptimizeForWrites(now: Time)
      modifies this
      ensures State() == Apply(old(State()), Event(now, SetTtl(60)))
    {
      ttlSeconds := 60;
    }

    method Perform(e: Event<V>)
      modifies this
      ensures State() == Apply(old(State()), e)
    {
      match e.op
      case Get(key) => var _ := Fetch(key, e.now);
      case Set(key, value) => Put(key, value, e.now);
      case Invalidate(key) => Drop(key, e.now);
      case InvalidatePattern(pattern) => DropPattern(pattern, e.now);
      case Clear => Empty(e.now);
      case Cleanup => RemoveExpired(e.now);
      case SetTtl(seconds) => ttlSeconds := seconds;
    }

    /** A decorated call: the cached result, or else the one `func` gives; `func` and other
        threads may use the cache meanwhile. */
    method Call(key: string, asked: Time, meanwhile: seq<Event<V>>, result: Option<V>, answered: Time) returns (r: Option<V>)
      modifies this
      ensures (State(), r) == Called(old(State()), key, asked, meanwhile, result, answered)
    {
      r := Fetch(key, asked);
      if r == None {
        ghost var looked := State();
        var i := 0;
        while i < |meanwhile|
          invariant 0 <= i <= |meanwhile|
          invariant State() == After(looked, meanwhile[..i])
        {
          assert meanwhile[..i + 1][..i] == meanwhile[..i];
          Perform(meanwhile[i]);
          i := i + 1;
        }
        assert meanwhile[..i] == meanwhile;
        r := result;
        Put(key, r, answered);
      }
    }
  }

  /** A value set at `at` is what `get` returns until its age exceeds the TTL, and not after. */
  lemma GetAfterSet<V>(s: Store<V>, key: string, value: Option<V>, at: Time, now: Time)
    ensures Answer(Apply(s, Event(at, Set(key, value))), key, now) == if now - at <= s.ttl then value else None
  {
  }

  /** Containing a pattern is having it somewhere inside. */
  lemma ContainsIff(s: string, pattern: string)
    ensures Contains(s, pattern) <==> exists before, after :: s == before + pattern + after
  {
    if Contains(s, pattern) {
      var i :| 0 <= i <= |s| && OccursAt(s, pattern, i);
      assert s == s[..i] + pattern + s[i + |pattern|..];
    }
    if before, after :| s == before + pattern + after {
      assert OccursAt(s, pattern, |before|);
    }
  }

  // ---- Runs ----

  ghost predicate Monotone<V>(events: seq<Event<V>>) {
    forall i, j | 0 <= i < j < |events| :: events[i].now <= events[j].now
  }

  // ---- What the history says ----

  predicate Covers<V>(op: Op<V>, key: string) {
    match op
    case Invalidate(k) => k == key
    case InvalidatePattern(p) => Contains(key, p)
    case Clear => true
    case _ => false
  }

  /** The position of the last `set` of the key, unless something invalidated it since. */
  function LastSet<V>(events: seq<Event<V>>, key: string): (l: Option<nat>)
    ensures l.Some? ==> l.value < |events| && events[l.value].op.Set? && events[l.value].op.key == key
  {
    if events == [] then None
    else
      var n := |events| - 1;
      var op := events[n].op;
      if op.Set? && op.key == key then Some(n)
      else if Covers(op, key) then None
      else LastSet(events[..n], key)
  }

  function TtlAfter<V>(ttl: int, events: seq<Event<V>>): int {
    if events == [] then ttl
    else if events[|events| - 1].op.SetTtl? then events[|events| - 1].op.seconds
    else TtlAfter(ttl, events[..|events| - 1])
  }

  /** Whether event `i` looks at the age of the key's entry: a `get` of it, or a cleanup. */
  predicate Inspects<V>(op: Op<V>, key: string) {
    op == Get(key) || op.Cleanup?
  }

  /** Event `i` inspects the entry of event `n` and finds it expired. */
  predicate Caught<V>(ttl: int, events: seq<Event<V>>, key: string, n: nat, i: nat)
    requires n < |events| && i < |events|
  {
    Inspects(events[i].op, key) && Expired(events[n].now, events[i].now, TtlAfter(ttl, events[..i]))
  }

  /** An inspection after event `n` found the entry of that event expired. */
  ghost predicate Evicted<V>(ttl: int, events: seq<Event<V>>, key: string, n: nat)
    requires n < |events|
  {
    exists i :: n < i < |events| && Caught(ttl, events, key, n, i)
  }

  lemma {:induction false} TtlIsAsSet<V>(s: Store<V>, events: seq<Event<V>>)
    ensures After(s, events).ttl == TtlAfter(s.ttl, events)
  {
    if events != [] {
      TtlIsAsSet(s, events[..|events| - 1]);
    }
  }

  /** The cache holds an entry exactly when the history has a last `set` that no inspection
      found expired, and then it is that one.  This holds for every run, whatever happens
      to the clock and the TTL. */
  lemma {:induction false} EntryIsLastSet<V>(ttl: int, events: seq<Event<V>>, key: string)
    ensures var s, l := After(Store(map[], ttl), events), LastSet(events, key);
      && (key in s.entries <==> l.Some? && l.value < |events| && !Evicted(ttl, events, key, l.value))
      && (key in s.entries ==> s.entries[key] == (events[l.value].op.value, events[l.value].now))
  {
    if events != [] {
      var n := |events| - 1;
      var front := events[..n];
      EntryIsLastSet(ttl, front, key);
      TtlIsAsSet(Store(map[], ttl), front);
      var l := LastSet(front, key);
      if l.Some? {
        EvictedNext(ttl, events, key, l.value);
      }
    }
  }

  lemma EvictedNext<V>(ttl: int, events: seq<Event<V>>, key: string, l: nat)
    requires l < |events| - 1
    ensures var n, front := |events| - 1, events[..|events| - 1];
      Evicted(ttl, events, key, l) <==> Evicted(ttl, front, key, l) || Caught(ttl, events, key, l, n)
  {
    var n, front := |events| - 1, events[..|events| - 1];
    forall i | 0 <= i < n
      ensures Caught(ttl, events, key, l, i) <==> Caught(ttl, front, key, l, i)
    {
      assert events[..i] == front[..i];
    }
  }

  // ---- What `get` returns ----

  /** The last `set` since the last covering invalidation, if its age is within the TTL. */
  function History<V>(ttl: int, events: seq<Event<V>>, key: string, now: Time): Option<V> {
    var l := LastSet(events, key);
    if l.Some? && !Expired(events[l.value].now, now, TtlAfter(ttl, events)) then events[l.value].op.value else None
  }

  /** For every run: `get` gives what the history says, or nothing if an inspection came
      upon the entry at a moment when it was expired. */
  lemma GetIsHistoryUnlessEvicted<V>(ttl: int, events: seq<Event<V>>, key: string, now: Time)
    ensures var l := LastSet(events, key);
      Answer(After(Store(map[], ttl), events), key, now)
      == if l.Some? && Evicted(ttl, events, key, l.value) then None else History(ttl, events, key, now)
  {
    EntryIsLastSet(ttl, events, key);
    TtlIsAsSet(Store(map[], ttl), events);
  }

  /** The TTL is never raised, from its initial value on. */
  ghost predicate NeverRaised<V>(ttl: int, events: seq<Event<V>>) {
    forall i, j | 0 <= i <= j <= |events| :: TtlAfter(ttl, events[..i]) >= TtlAfter(ttl, events[..j])
  }

  /** With a clock that does not run back and a TTL that is never raised, `get` returns
      exactly what the history says. */
  lemma GetIsHistory<V>(ttl: int, events: seq<Event<V>>, key: string, now: Time)
    requires Monotone(events) && NeverRaised(ttl, events) && forall i | 0 <= i < |events| :: events[i].now <= now
    ensures Answer(After(Store(map[], ttl), events), key, now) == History(ttl, events, key, now)
  {
    GetIsHistoryUnlessEvicted(ttl, events, key, now);
    assert events[..|events|] == events;
  }

  /** Whatever happens to the TTL, a value that `get` returns is the one the history gives. */
  lemma GetIsNeverWrong<V>(ttl: int, events: seq<Event<V>>, key: string, now: Time)
    requires Answer(After(Store(map[], ttl), events), key, now).Some?
    ensures Answer(After(Store(map[], ttl), events), key, now) == History(ttl, events, key, now)
  {
    GetIsHistoryUnlessEvicted(ttl, events, key, now);
  }

  // ---- Cleaning up ----

  lemma LastOfBack<V>(front: seq<Event<V>>, back: seq<Event<V>>, n: nat)
    requires |back| == n + 1
    ensures var all := front + back;
      all != [] && all[|all| - 1] == back[n] && all[..|all| - 1] == front + back[..n]
  {
  }

  lemma {:induction false} CleanupInHistory<V>(front: seq<Event<V>>, c: Event<V>, back: seq<Event<V>>, key: string)
    requires c.op.Cleanup?
    ensures var without, l := LastSet(front + back, key), LastSet(front + [c] + back, key);
      l == if without.Some? && without.value >= |front| then Some(without.value + 1) else without
  {
    if back == [] {
      assert front + back == front && (front + [c] + back)[..|front|] == front;
    } else {
      var n := |back| - 1;
      CleanupInHistory(front, c, back[..n], key);
      LastOfBack(front, back, n);
      LastOfBack(front + [c], back, n);
    }
  }

  lemma {:induction false} CleanupKeepsTtl<V>(front: seq<Event<V>>, c: Event<V>, back: seq<Event<V>>, ttl: int)
    requires c.op.Cleanup?
    ensures TtlAfter(ttl, front + [c] + back) == TtlAfter(ttl, front + back)
  {
    if back == [] {
      assert front + back == front && (front + [c] + back)[..|front|] == front;
    } else {
      var n := |back| - 1;
      CleanupKeepsTtl(front, c, back[..n], ttl);
      LastOfBack(front, back, n);
      LastOfBack(front + [c], back, n);
    }
  }

  lemma CleanupKeepsNeverRaised<V>(front: seq<Event<V>>, c: Event<V>, back: seq<Event<V>>, ttl: int)
    requires c.op.Cleanup? && NeverRaised(ttl, front + back)
    ensures NeverRaised(ttl, front + [c] + back)
  {
    var all, plain := front + [c] + back, front + back;
    forall i | 0 <= i <= |all|
      ensures TtlAfter(ttl, all[..i]) == TtlAfter(ttl, plain[..if i <= |front| then i else i - 1])
    {
      if i <= |front| {
        assert all[..i] == plain[..i];
      } else {
        var k := i - 1 - |front|;
        assert all[..i] == front + [c] + back[..k] && plain[..i - 1] == front + back[..k];
        CleanupKeepsTtl(front, c, back[..k], ttl);
      }
    }
  }

  /** Under the same conditions, a cleanup more or less, anywhere in the run, changes no
      later `get`. */
  lemma CleanupIsInvisible<V>(ttl: int, front: seq<Event<V>>, c: Event<V>, back: seq<Event<V>>, key: string, now: Time)
    requires c.op.Cleanup? && Monotone(front + [c] + back) && NeverRaised(ttl, front + back)
    requires forall i | 0 <= i < |front + [c] + back| :: (front + [c] + back)[i].now <= now
    ensures Answer(After(Store(map[], ttl), front + [c] + back), key, now)
         == Answer(After(Store(map[], ttl), front + back), key, now)
  {
    var all, plain := front + [c] + back, front + back;
    forall i | 0 <= i < |plain|
      ensures plain[i] == all[if i < |front| then i else i + 1]
    {
    }
    assert Monotone(plain);
    CleanupKeepsNeverRaised(front, c, back, ttl);
    CleanupInHistory(front, c, back, key);
    CleanupKeepsTtl(front, c, back, ttl);
    GetIsHistory(ttl, all, key, now);
    GetIsHistory(ttl, plain, key, now);
  }

  /** The events around the cleanup, and the TTL they find, are the same without it. */
  lemma WithoutCleanup<V>(ttl: int, front: seq<Event<V>>, c: Event<V>, back: seq<Event<V>>, i: nat, j: nat)
    requires c.op.Cleanup? && i < |front + back| && j == if i < |front| then i else i + 1
    ensures (front + [c] + back)[j] == (front + back)[i]
    ensures TtlAfter(ttl, (front + [c] + back)[..j]) == TtlAfter(ttl, (front + back)[..i])
  {
    var all, plain := front + [c] + back, front + back;
    if i < |front| {
      assert all[..j] == plain[..i];
    } else {
      var k := i - |front|;
      assert all[..j] == front + [c] + back[..k] && plain[..i] == front + back[..k];
      CleanupKeepsTtl(front, c, back[..k], ttl);
    }
  }

  lemma CaughtWithoutCleanup<V>(ttl: int, front: seq<Event<V>>, c: Event<V>, back: seq<Event<V>>, key: string,
                                l: nat, m: nat, i: nat, j: nat)
    requires c.op.Cleanup? && l < i < |front + back|
    requires m == (if l < |front| then l else l + 1) && j == if i < |front| then i else i + 1
    ensures Caught(ttl, front + [c] + back, key, m, j) <==> Caught(ttl, front + back, key, l, i)
  {
    WithoutCleanup(ttl, front, c, back, l, m);
    WithoutCleanup(ttl, front, c, back, i, j);
  }

  lemma CaughtByCleanup<V>(ttl: int, front: seq<Event<V>>, c: Event<V>, back: seq<Event<V>>, key: string, l: nat)
    requires c.op.Cleanup? && l < |front|
    ensures Caught(ttl, front + [c] + back, key, l, |front|) <==> Expired(front[l].now, c.now, TtlAfter(ttl, front))
  {
    var all := front + [c] + back;
    assert all[..|front|] == front && all[|front|] == c && all[l] == front[l];
  }

  /** With a cleanup put in, an entry is caught expired if it was caught without, or the
      cleanup itself catches it. */
  lemma EvictionWithCleanup<V>(ttl: int, front: seq<Event<V>>, c: Event<V>, back: seq<Event<V>>, key: string, l: nat, m: nat)
    requires c.op.Cleanup? && l < |front + back| && m == if l < |front| then l else l + 1
    ensures Evicted(ttl, front + [c] + back, key, m) <==>
      || Evicted(ttl, front + back, key, l)
      || (l < |front| && Expired(front[l].now, c.now, TtlAfter(ttl, front)))
  {
    var all, plain, n := front + [c] + back, front + back, |front|;
    if l < n {
      CaughtByCleanup(ttl, front, c, back, key, l);
    }
    if i :| l < i < |plain| && Caught(ttl, plain, key, l, i) {
      var j := if i < n then i else i + 1;
      CaughtWithoutCleanup(ttl, front, c, back, key, l, m, i, j);
      assert m < j < |all| && Caught(ttl, all, key, m, j);
    }
    if j :| m < j < |all| && Caught(ttl, all, key, m, j) && j != n {
      var i := if j < n then j else j - 1;
      CaughtWithoutCleanup(ttl, front, c, back, key, l, m, i, j);
    }
  }

  /** The cleanup `c` removes an entry that `get` would find otherwise: one set before it,
      expired when it ran, that no other inspection came upon while expired, and that is
      within the TTL at the time of the `get`. */
  ghost predicate CleanupTellsIn<V>(ttl: int, front: seq<Event<V>>, c: Event<V>, back: seq<Event<V>>, key: string, now: Time) {
    var plain := front + back;
    var l := LastSet(plain, key);
    && History(ttl, plain, key, now).Some?
    && l.Some? && l.value < |front|
    && Expired(front[l.value].now, c.now, TtlAfter(ttl, front))
    && !Evicted(ttl, plain, key, l.value)
  }

  /** Whatever happens to clock and TTL: a cleanup changes what a later `get` returns exactly
      when it removed an entry that has come back to life since. */
  lemma CleanupIsVisibleIff<V>(ttl: int, front: seq<Event<V>>, c: Event<V>, back: seq<Event<V>>, key: string, now: Time)
    requires c.op.Cleanup?
    ensures var with, without := Answer(After(Store(map[], ttl), front + [c] + back), key, now),
                                 Answer(After(Store(map[], ttl), front + back), key, now);
      && (with != without <==> CleanupTellsIn(ttl, front, c, back, key, now))
      && (with != without ==> with == None)
  {
    var all, plain := front + [c] + back, front + back;
    CleanupInHistory(front, c, back, key);
    CleanupKeepsTtl(front, c, back, ttl);
    GetIsHistoryUnlessEvicted(ttl, all, key, now);
    GetIsHistoryUnlessEvicted(ttl, plain, key, now);
    var l := LastSet(plain, key);
    if l.Some? {
      var m := if l.value < |front| then l.value else l.value + 1;
      EvictionWithCleanup(ttl, front, c, back, key, l.value, m);
      assert all[m] == plain[l.value];
    }
  }

  /** Raising the TTL, as `optimize_for_reads` may, makes a cleanup visible: an entry that
      was expired comes back to life, unless a cleanup has removed it meanwhile. */
  lemma RaisingTtlShowsCleanup()
    ensures var stored, raised := Event(0, Set("k", Some(7))), Event(200, SetTtl(600));
      && Answer(After(Store(map[], 60), [stored, raised]), "k", 300) == Some(7)
      && Answer(After(Store(map[], 60), [stored, Event(100, Cleanup), raised]), "k", 300) == None
  {
    var stored, cleaned, raised := Event(0, Set("k", Some(7))), Event(100, Cleanup), Event(200, SetTtl(600));
    var start: Store<int> := Store(map[], 60);
    assert [stored][..0] == [] && [stored, raised][..1] == [stored];
    assert [stored, cleaned][..1] == [stored] && [stored, cleaned, raised][..2] == [stored, cleaned];
    assert After(start, [stored]) == Apply(start, stored);
    assert After(start, [stored, cleaned]) == Apply(After(start, [stored]), cleaned);
  }
}
