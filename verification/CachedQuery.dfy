/** The `cached_query` decorator: which calls share a cache key, and how old a result a
    call may return. */
module CachedQuery {
  import opened Wrappers
  import opened Cache

  /** A call with its arguments written out by `str`, keyword arguments sorted by name. */
  datatype Call = Call(name: string, args: seq<string>, kwargs: seq<(string, string)>)

  // ---- Cache keys ----

  /** `":".join(parts)`. */
  function Join(parts: seq<string>): string
    requires parts != []
  {
    if |parts| == 1 then parts[0] else parts[0] + ":" + Join(parts[1..])
  }

  /** The parts of a key: function name, arguments, and `k:v` for each keyword argument. */
  function Parts(c: Call): seq<string> {
    [c.name] + c.args + seq(|c.kwargs|, i requires 0 <= i < |c.kwargs| => c.kwargs[i].0 + ":" + c.kwargs[i].1)
  }

  function Key(c: Call): string {
    Join(Parts(c))
  }

  function Flat(kwargs: seq<(string, string)>): seq<string> {
    if kwargs == [] then [] else [kwargs[0].0, kwargs[0].1] + Flat(kwargs[1..])
  }

  /** All the words of a call, with names and values of keyword arguments apart. */
  function Words(c: Call): seq<string> {
    [c.name] + c.args + Flat(c.kwargs)
  }

  /** `s.split(":")`. */
  function Split(s: string): (r: seq<string>)
    ensures r != []
  {
    if s == "" then [""]
    else
      var rest := Split(s[1..]);
      if s[0] == ':' then [""] + rest else [[s[0]] + rest[0]] + rest[1..]
  }

  function SplitAll(words: seq<string>): seq<string> {
    if words == [] then [] else Split(words[0]) + SplitAll(words[1..])
  }

  /** The words of a call, cut at their colons. */
  function Pieces(c: Call): seq<string> {
    SplitAll(Words(c))
  }

  lemma {:induction false} JoinSplit(s: string)
    ensures Join(Split(s)) == s
  {
    if s != "" {
      var rest := Split(s[1..]);
      JoinSplit(s[1..]);
      if s[0] == ':' {
        assert ([""] + rest)[1..] == rest;
        assert s == "" + ":" + s[1..];
      } else {
        var first := [s[0]] + rest[0];
        assert ([first] + rest[1..])[1..] == rest[1..];
        assert s == [s[0]] + s[1..];
        if |rest| > 1 {
          assert first + ":" + Join(rest[1..]) == [s[0]] + (rest[0] + ":" + Join(rest[1..]));
        }
      }
    }
  }

  lemma SplitStarts(first: char, rest: seq<string>, tail: seq<string>)
    requires rest != []
    ensures [[first] + (rest + tail)[0]] + (rest + tail)[1..] == ([[first] + rest[0]] + rest[1..]) + tail
  {
  }

  lemma {:induction false} SplitAtColon(a: string, b: string)
    ensures Split(a + ":" + b) == Split(a) + Split(b)
  {
    var s := a + ":" + b;
    if a == "" {
      assert s[0] == ':' && s[1..] == b;
    } else {
      var rest, tail := Split(a[1..]), Split(b);
      SplitAtColon(a[1..], b);
      assert s[0] == a[0] && s[1..] == a[1..] + ":" + b;
      if a[0] == ':' {
        assert [""] + (rest + tail) == ([""] + rest) + tail;
      } else {
        SplitStarts(a[0], rest, tail);
      }
    }
  }

  lemma {:induction false} SplitJoin(words: seq<string>)
    requires words != []
    ensures Split(Join(words)) == SplitAll(words)
  {
    if |words| == 1 {
      assert words[1..] == [];
    } else {
      SplitAtColon(words[0], Join(words[1..]));
      SplitJoin(words[1..]);
    }
  }

  lemma Regroup(a: seq<string>, b: seq<string>, c: seq<string>)
    ensures a + (b + c) == (a + b) + c
  {
  }

  lemma {:induction false} SplitAllSplits(a: seq<string>, b: seq<string>)
    ensures SplitAll(a + b) == SplitAll(a) + SplitAll(b)
  {
    if a == [] {
      assert a + b == b;
    } else {
      SplitAllSplits(a[1..], b);
      assert (a + b)[0] == a[0] && (a + b)[1..] == a[1..] + b;
      Regroup(Split(a[0]), SplitAll(a[1..]), SplitAll(b));
    }
  }

  lemma TwoWords(k: string, v: string, rest: seq<string>)
    ensures SplitAll([k, v] + rest) == (Split(k) + Split(v)) + SplitAll(rest)
  {
    var words := [k, v] + rest;
    assert words[1..][0] == v && words[1..][1..] == rest;
    assert SplitAll(words[1..]) == Split(v) + SplitAll(rest);
  }

  /** Cut at colons, the keyword arguments' parts are their names and values. */
  lemma {:induction false} KeywordParts(kwargs: seq<(string, string)>, parts: seq<string>)
    requires |parts| == |kwargs| && forall i | 0 <= i < |parts| :: parts[i] == kwargs[i].0 + ":" + kwargs[i].1
    ensures SplitAll(parts) == SplitAll(Flat(kwargs))
  {
    if kwargs != [] {
      var (k, v) := kwargs[0];
      SplitAtColon(k, v);
      KeywordParts(kwargs[1..], parts[1..]);
      TwoWords(k, v, Flat(kwargs[1..]));
    }
  }

  lemma KeyPieces(c: Call)
    ensures Split(Key(c)) == Pieces(c)
  {
    var front, parts := [c.name] + c.args, seq(|c.kwargs|, i requires 0 <= i < |c.kwargs| => c.kwargs[i].0 + ":" + c.kwargs[i].1);
    SplitJoin(Parts(c));
    KeywordParts(c.kwargs, parts);
    SplitAllSplits(front, parts);
    SplitAllSplits(front, Flat(c.kwargs));
  }

  /** Exactly which calls share a key: those whose words, cut at their colons, are the same
      in the same order. */
  lemma KeysAgreeIff(c: Call, d: Call)
    ensures Key(c) == Key(d) <==> Pieces(c) == Pieces(d)
  {
    KeyPieces(c);
    KeyPieces(d);
    JoinSplit(Key(c));
    JoinSplit(Key(d));
  }

  ghost predicate ColonFree(words: seq<string>) {
    forall i | 0 <= i < |words| :: ':' !in words[i]
  }

  lemma {:induction false} SplitColonFree(s: string)
    requires ':' !in s
    ensures Split(s) == [s]
  {
    if s != "" {
      SplitColonFree(s[1..]);
      assert s == [s[0]] + s[1..];
    }
  }

  lemma {:induction false} SplitAllColonFree(words: seq<string>)
    requires ColonFree(words)
    ensures SplitAll(words) == words
  {
    if words != [] {
      SplitColonFree(words[0]);
      SplitAllColonFree(words[1..]);
    }
  }

  /** Where no word has a colon in it, the calls that share a key are those with the same
      words, keyword arguments counted as two each. */
  lemma ColonFreeKeysAgreeIff(c: Call, d: Call)
    requires ColonFree(Words(c)) && ColonFree(Words(d))
    ensures Key(c) == Key(d) <==> Words(c) == Words(d)
  {
    KeysAgreeIff(c, d);
    SplitAllColonFree(Words(c));
    SplitAllColonFree(Words(d));
  }

  /** Parts without colons can be read back from the key. */
  lemma JoinIsInjective(a: seq<string>, b: seq<string>)
    requires a != [] && b != [] && ColonFree(a) && ColonFree(b)
    ensures Join(a) == Join(b) <==> a == b
  {
    SplitJoin(a);
    SplitJoin(b);
    SplitAllColonFree(a);
    SplitAllColonFree(b);
  }

  /** So `f(k=v)` and `f("k", "v")` share a key, whatever the names. */
  lemma KeywordArgumentsClash(name: string, k: string, v: string)
    ensures Key(Call(name, [], [(k, v)])) == Key(Call(name, [k, v], []))
  {
    var c, d := Call(name, [], [(k, v)]), Call(name, [k, v], []);
    KeysAgreeIff(c, d);
    assert [(k, v)][1..] == [] && Flat([(k, v)]) == [k, v];
    assert Words(c) == [name, k, v] == Words(d);
  }

  // ---- Runs ----

  /** What threads do to the cache: a decorated call looks up its key, and later, if that
      found nothing, stores the result of its function; the cache is used in other ways. */
  datatype Action<V> =
    | Asked(call: Call, now: Time)
    | Answered(call: Call, result: Option<V>, now: Time)
    | Other(event: Event<V>)

  function Effect<V>(a: Action<V>): Event<V> {
    match a
    case Asked(call, now) => Event(now, Get(Key(call)))
    case Answered(call, result, now) => Event(now, Set(Key(call), result))
    case Other(event) => event
  }

  function Effects<V>(actions: seq<Action<V>>): seq<Event<V>> {
    seq(|actions|, i requires 0 <= i < |actions| => Effect(actions[i]))
  }

  /** What a call finds in the cache after a run. */
  function Hit<V>(ttl: int, actions: seq<Action<V>>, call: Call, asked: Time): Option<V> {
    Answer(After(Store(map[], ttl), Effects(actions)), Key(call), asked)
  }

  /** What it returns: that, or else the result of its function. */
  function Returned<V>(ttl: int, actions: seq<Action<V>>, call: Call, asked: Time, result: Option<V>): Option<V> {
    var hit := Hit(ttl, actions, call, asked);
    if hit.Some? then hit else result
  }

  /** Only decorated calls store anything. */
  ghost predicate StoresNothing<V>(actions: seq<Action<V>>) {
    forall i | 0 <= i < |actions| && actions[i].Other? :: !actions[i].event.op.Set?
  }

  /** `hit` is a result that an action stored no longer ago than the TTL. */
  ghost predicate Recent<V>(a: Action<V>, hit: Option<V>, asked: Time, ttl: int) {
    a.Answered? && a.result == hit && asked - a.now <= ttl
  }

  /** A call that returns a result from the cache returns one that a call with the same
      pieces stored, no longer ago than the cache's TTL. */
  lemma HitIsRecent<V>(ttl: int, actions: seq<Action<V>>, call: Call, asked: Time) returns (j: nat)
    requires StoresNothing(actions) && Hit(ttl, actions, call, asked).Some?
    ensures j < |actions| && Recent(actions[j], Hit(ttl, actions, call, asked), asked, TtlAfter(ttl, Effects(actions)))
    ensures Pieces(actions[j].call) == Pieces(call)
  {
    var events := Effects(actions);
    GetIsNeverWrong(ttl, events, Key(call), asked);
    j := LastSet(events, Key(call)).value;
    assert events[j] == Effect(actions[j]);
    KeysAgreeIff(actions[j].call, call);
  }

  /** Bounded staleness, whatever threads interleave: a decorated call returns its own
      result of this moment, or one that a call with the same pieces obtained no longer ago
      than the cache's TTL; a cached None is never returned in place of a new result. */
  lemma StalenessIsBounded<V>(ttl: int, actions: seq<Action<V>>, call: Call, asked: Time, result: Option<V>)
    requires StoresNothing(actions)
    ensures var r := Returned(ttl, actions, call, asked, result);
      || r == result
      || (r.Some? && exists j :: 0 <= j < |actions| && Recent(actions[j], r, asked, TtlAfter(ttl, Effects(actions)))
                              && Pieces(actions[j].call) == Pieces(call))
  {
    if Hit(ttl, actions, call, asked).Some? {
      var j := HitIsRecent(ttl, actions, call, asked);
    }
  }

  /** The calls that a run makes are among these. */
  ghost predicate Among<V>(actions: seq<Action<V>>, calls: set<Call>) {
    forall i | 0 <= i < |actions| && !actions[i].Other? :: actions[i].call in calls
  }

  /** What the call finds is a recent result of this same call. */
  ghost predicate OwnResult<V>(ttl: int, actions: seq<Action<V>>, call: Call, asked: Time) {
    Hit(ttl, actions, call, asked).Some? ==>
      exists j :: 0 <= j < |actions| && Recent(actions[j], Hit(ttl, actions, call, asked), asked, TtlAfter(ttl, Effects(actions)))
               && actions[j].call == call
  }

  /** No two calls have the same pieces. */
  ghost predicate TellApart(calls: set<Call>) {
    forall c, d | c in calls && d in calls && Pieces(c) == Pieces(d) :: c == d
  }

  lemma OwnResults<V>(calls: set<Call>, ttl: int, actions: seq<Action<V>>, call: Call, asked: Time)
    requires TellApart(calls) && Among(actions, calls) && StoresNothing(actions) && call in calls
    ensures OwnResult(ttl, actions, call, asked)
  {
    if Hit(ttl, actions, call, asked).Some? {
      var j := HitIsRecent(ttl, actions, call, asked);
      assert actions[j].call in calls;
    }
  }

  /** After `c` has stored a result, `d` is given it if they have the same pieces. */
  lemma ClashIsServed<V>(c: Call, d: Call, v: V)
    requires Pieces(c) == Pieces(d)
    ensures Hit(0, [Answered(c, Some(v), 0)], d, 0) == Some(v)
  {
    KeysAgreeIff(c, d);
    var actions := [Answered(c, Some(v), 0)];
    var events := Effects(actions);
    assert events == [Effect(actions[0])] && events[..0] == [];
    assert After(Store(map[], 0), events) == Apply(Store(map[], 0), events[0]);
  }

  /** Calls are only ever given their own results, in every run, exactly when no two of the
      calls in use have the same pieces. */
  lemma OwnResultsIff<V(!new)>(calls: set<Call>, v: V)
    ensures TellApart(calls) <==>
      forall ttl, actions: seq<Action<V>>, call, asked | Among(actions, calls) && StoresNothing(actions) && call in calls ::
        OwnResult(ttl, actions, call, asked)
  {
    if TellApart(calls) {
      forall ttl, actions: seq<Action<V>>, call, asked | Among(actions, calls) && StoresNothing(actions) && call in calls
        ensures OwnResult(ttl, actions, call, asked)
      {
        OwnResults(calls, ttl, actions, call, asked);
      }
    } else {
      var c, d :| c in calls && d in calls && Pieces(c) == Pieces(d) && c != d;
      var actions := [Answered(c, Some(v), 0)];
      ClashIsServed(c, d, v);
      assert Among(actions, calls) && StoresNothing(actions) && !OwnResult(0, actions, d, 0);
    }
  }

  // ---- The decorated call as a whole ----

  /** What a call does to the cache, `meanwhile` being what others do while its function runs. */
  function Doings<V>(hit: bool, call: Call, asked: Time, meanwhile: seq<Action<V>>, result: Option<V>, answered: Time): seq<Action<V>> {
    if hit then [Asked(call, asked)] else [Asked(call, asked)] + meanwhile + [Answered(call, result, answered)]
  }

  lemma {:induction false} AfterSplits<V>(s: Store<V>, a: seq<Event<V>>, b: seq<Event<V>>)
    ensures After(s, a + b) == After(After(s, a), b)
  {
    if b == [] {
      assert a + b == a;
    } else {
      var n := |b| - 1;
      AfterSplits(s, a, b[..n]);
      assert (a + b)[..|a| + n] == a + b[..n] && (a + b)[|a| + n] == b[n];
    }
  }

  lemma AfterOne<V>(s: Store<V>, e: Event<V>)
    ensures After(s, [e]) == Apply(s, e)
  {
    assert [e][..0] == [];
  }

  lemma EffectsSplit<V>(a: seq<Action<V>>, b: seq<Action<V>>)
    ensures Effects(a + b) == Effects(a) + Effects(b)
  {
  }

  /** A decorated call is a run of its own: it returns what it finds or else its function's
      result, and leaves the cache as its look-up, what happens meanwhile and its store do. */
  lemma CallIsRun<V>(ttl: int, actions: seq<Action<V>>, call: Call, asked: Time, meanwhile: seq<Action<V>>, result: Option<V>, answered: Time)
    ensures var hit := Hit(ttl, actions, call, asked).Some?;
      Called(After(Store(map[], ttl), Effects(actions)), Key(call), asked, Effects(meanwhile), result, answered)
      == (After(Store(map[], ttl), Effects(actions + Doings(hit, call, asked, meanwhile, result, answered))),
          Returned(ttl, actions, call, asked, result))
  {
    var s, hit := After(Store(map[], ttl), Effects(actions)), Hit(ttl, actions, call, asked).Some?;
    var doings := Doings(hit, call, asked, meanwhile, result, answered);
    var ask, store := [Asked(call, asked)], [Answered(call, result, answered)];
    EffectsSplit(actions, doings);
    AfterSplits(Store(map[], ttl), Effects(actions), Effects(doings));
    assert Effects<V>(ask) == [Event(asked, Get(Key(call)))];
    AfterOne(s, Event(asked, Get(Key(call))));
    if !hit {
      EffectsSplit(ask + meanwhile, store);
      EffectsSplit(ask, meanwhile);
      AfterSplits(s, Effects(ask + meanwhile), Effects(store));
      AfterSplits(s, Effects(ask), Effects(meanwhile));
      assert Effects(store) == [Event(answered, Set(Key(call), result))];
      AfterOne(After(s, Effects(ask + meanwhile)), Event(answered, Set(Key(call), result)));
    }
  }

  /** A result that a call has stored, if it is not None, is what the next call with that key
      returns within the TTL, whatever its own function would give; and the cache stays. */
  lemma NextCallIsServed<V>(s: Store<V>, key: string, asked: Time, meanwhile: seq<Event<V>>, result: Option<V>, answered: Time,
                            again: Time, later: seq<Event<V>>, other: Option<V>, end: Time)
    requires Answer(s, key, asked).None? && result.Some?
    requires again - answered <= Called(s, key, asked, meanwhile, result, answered).0.ttl
    ensures var after := Called(s, key, asked, meanwhile, result, answered).0;
      Called(after, key, again, later, other, end) == (after, result)
  {
  }

  /** Otherwise, and after a None, its function runs again. */
  lemma NextCallComputes<V>(s: Store<V>, key: string, asked: Time, meanwhile: seq<Event<V>>, result: Option<V>, answered: Time,
                            again: Time, later: seq<Event<V>>, other: Option<V>, end: Time)
    requires Answer(s, key, asked).None?
    requires result.None? || again - answered > Called(s, key, asked, meanwhile, result, answered).0.ttl
    ensures var (last, r) := Called(Called(s, key, asked, meanwhile, result, answered).0, key, again, later, other, end);
      r == other && key in last.entries && last.entries[key] == (other, end)
  {
  }
}
