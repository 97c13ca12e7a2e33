/** The state that `ConnectionPool` guards with its lock, and its lock regions. */
module SessionPool {

  type Url = string
  type Session = nat

  /** A pool list, by identity: clients keep a reference to the list they captured, even
      after another one has been registered for its URL. */
  type ListId = nat

  /** `lists` holds every list that was ever allocated, registered in `pools` or not; a
      list's identity is its position.
      Sessions are numbered in the order of their creation. */
  datatype Shared = Shared(
    maxSize: nat,
    pools: map<Url, ListId>,
    lists: seq<seq<Session>>,
    closed: set<Session>,
    created: nat,
    reused: nat,
    active: nat)
  {
    predicate Registered(l: ListId) {
      l in pools.Values
    }

    /** Registered lists exist, and each serves one URL. */
    ghost predicate Valid() {
      && (forall u | u in pools :: pools[u] < |lists|)
      && (forall u, v | u in pools && v in pools && pools[u] == pools[v] :: u == v)
    }

    /** The sessions in registered lists. */
    function Idle(): set<Session>
      requires forall u | u in pools :: pools[u] < |lists|
    {
      set u, s | u in pools && s in lists[pools[u]] :: s
    }
  }

  // ---- What each lock region does to the shared state ----

  /** `_get_pool`: the URL's list, a fresh empty one if it has none. */
  ghost predicate GetPool(a: Shared, url: Url, b: Shared, l: ListId) {
    if url in a.pools then b == a && l == a.pools[url]
    else
      && l == |a.lists|
      && b == a.(pools := a.pools[url := l], lists := a.lists + [[]], active := |a.pools| + 1)
  }

  /** `get_session`, on entry: the last session of the captured list, or a new one. */
  function TakeSession(a: Shared, l: ListId): (Shared, Session)
    requires l < |a.lists|
  {
    var list := a.lists[l];
    if list != [] then
      (a.(lists := a.lists[l := list[..|list| - 1]], reused := a.reused + 1), list[|list| - 1])
    else
      (a.(created := a.created + 1), a.created)
  }

  predicate HasRoom(a: Shared, l: ListId)
    requires l < |a.lists|
  {
    |a.lists[l]| < a.maxSize
  }

  /** `get_session`, on a normal exit: back into the captured list, closed if that is full. */
  function PutSession(a: Shared, l: ListId, s: Session): Shared
    requires l < |a.lists|
  {
    if HasRoom(a, l) then a.(lists := a.lists[l := a.lists[l] + [s]])
    else a.(closed := a.closed + {s})
  }

  /** `_cleanup_idle_connections`, first lock region: the registered lists are copied and
      replaced by fresh empty ones, and the empty ones are dropped.  The old lists keep
      their sessions. */
  ghost predicate Detach(a: Shared, b: Shared, copied: seq<Session>)
    requires a.Valid()
  {
    && b.Valid()
    && b.maxSize == a.maxSize && b.closed == a.closed
    && b.created == a.created && b.reused == a.reused && b.active == a.active
    && a.lists <= b.lists && (forall l | |a.lists| <= l < |b.lists| :: b.lists[l] == [])
    && (forall u :: u in b.pools <==> u in a.pools && a.lists[a.pools[u]] != [])
    && (forall u | u in b.pools :: b.pools[u] >= |a.lists|)
    && (forall s :: s in copied <==> s in a.Idle())
  }

  /** The first lock region of the cleanup, with the URLs in `todo` still to come. */
  ghost predicate Detaching(a: Shared, b: Shared, todo: set<Url>, copied: seq<Session>)
    requires a.Valid()
  {
    && todo <= a.pools.Keys && b.Valid()
    && b == a.(pools := b.pools, lists := b.lists)
    && a.lists <= b.lists && (forall l | |a.lists| <= l < |b.lists| :: b.lists[l] == [])
    && (forall u | u in todo :: u in b.pools && b.pools[u] == a.pools[u])
    && (forall u | u !in todo ::
          && (u in b.pools <==> u in a.pools && a.lists[a.pools[u]] != [])
          && (u in b.pools ==> b.pools[u] >= |a.lists|))
    && (forall s :: s in copied <==> exists u | u in a.pools && u !in todo :: s in a.lists[a.pools[u]])
  }

  lemma DetachingStart(a: Shared)
    requires a.Valid()
    ensures Detaching(a, a, a.pools.Keys, [])
  {
  }

  lemma DetachingDone(a: Shared, b: Shared, copied: seq<Session>)
    requires a.Valid() && Detaching(a, b, {}, copied)
    ensures Detach(a, b, copied)
  {
  }

  lemma DetachingStep(a: Shared, b: Shared, c: Shared, todo: set<Url>, copied: seq<Session>, url: Url)
    requires a.Valid() && Detaching(a, b, todo, copied) && url in todo
    requires c.Valid() && c == b.(pools := c.pools, lists := b.lists + [[]])
    requires c.pools == if b.lists[b.pools[url]] == [] then b.pools - {url} else b.pools[url := |b.lists|]
    ensures Detaching(a, c, todo - {url}, copied + b.lists[b.pools[url]])
  {
    var list := b.lists[b.pools[url]];
    assert list == a.lists[a.pools[url]];
    forall s
      ensures s in copied + list <==> exists u | u in a.pools && u !in todo - {url} :: s in a.lists[a.pools[u]]
    {
      if u :| u in a.pools && u !in todo - {url} && s in a.lists[a.pools[u]] {
        assert u == url || u !in todo;
      }
    }
  }

  /** `close_all`: every session in a registered list is closed, and no list stays
      registered. */
  function CloseAllPools(a: Shared): Shared
    requires a.Valid()
  {
    a.(closed := a.closed + a.Idle(), pools := map[], active := 0)
  }

  // ---- The lock regions as the class runs them ----

  class ConnectionPool {
    const maxSize: nat
    var pools: map<Url, ListId>
    var lists: seq<seq<Session>>
    var closed: set<Session>
    var created: nat
    var reused: nat
    var active: nat

    ghost function State(): Shared
      reads this
    {
      Shared(maxSize, pools, lists, closed, created, reused, active)
    }

    constructor (maxPoolSize: nat)
      ensures State() == Shared(maxPoolSize, map[], [], {}, 0, 0, 0)
    {
      maxSize := maxPoolSize;
      pools, lists, closed := map[], [], {};
      created, reused, active := 0, 0, 0;
    }

    method GetPoolFor(url: Url) returns (l: ListId)
      requires State().Valid()
      modifies this
      ensures GetPool(old(State()), url, State(), l)
    {
      if url !in pools {
        lists := lists + [[]];
        pools := pools[url := |lists| - 1];
        active := |pools|;
      }
      l := pools[url];
    }

    method Take(l: ListId) returns (s: Session)
      requires l < |lists|
      modifies this
      ensures (State(), s) == TakeSession(old(State()), l)
    {
      var list := lists[l];
      if list != [] {
        s := list[|list| - 1];
        lists := lists[l := list[..|list| - 1]];
        reused := reused + 1;
      } else {
        s := created;
        created := created + 1;
      }
    }

    method Put(l: ListId, s: Session)
      requires l < |lists|
      modifies this
      ensures State() == PutSession(old(State()), l, s)
    {
      if |lists[l]| < maxSize {
        lists := lists[l := lists[l] + [s]];
      } else {
        closed := closed + {s};
      }
    }

    /** The first lock region of the cleanup, for one URL. */
    method DetachOne(url: Url) returns (list: seq<Session>)
      requires State().Valid() && url in pools
      modifies this
      ensures State().Valid() && list == old(lists)[old(pools)[url]]
      ensures State() == old(State()).(pools := pools, lists := old(lists) + [[]])
      ensures pools == if list == [] then old(pools) - {url} else old(pools)[url := |old(lists)|]
    {
      list := lists[pools[url]];
      lists := lists + [[]];
      pools := pools[url := |lists| - 1];
      if list == [] {
        pools := pools - {url};
      }
    }

    /** The first lock region of the cleanup: one registered list after another. */
    method DetachIdle() returns (copied: seq<Session>)
      requires State().Valid()
      modifies this
      ensures Detach(old(State()), State(), copied)
    {
      copied := [];
      var todo := pools.Keys;
      DetachingStart(State());
      while todo != {}
        invariant Detaching(old(State()), State(), todo, copied)
        decreases |todo|
      {
        var url :| url in todo;
        ghost var before := State();
        var list := DetachOne(url);
        DetachingStep(old(State()), before, State(), todo, copied, url);
        copied := copied + list;
        todo := todo - {url};
      }
      DetachingDone(old(State()), State(), copied);
    }

    /** Closing one copied session, outside the lock. */
    method Close(s: Session)
      modifies this
      ensures State() == old(State()).(closed := old(closed) + {s})
    {
      closed := closed + {s};
    }

    /** The second lock region of the cleanup. */
    method RecordCleanup()
      modifies this
      ensures State() == old(State()).(active := |pools|)
    {
      active := |pools|;
    }

    method CloseAll()
      requires State().Valid()
      modifies this
      ensures State() == CloseAllPools(old(State()))
    {
      var todo := pools.Keys;
      while todo != {}
        invariant todo <= pools.Keys && State() == old(State()).(closed := closed)
        invariant forall s :: s in closed <==>
          s in old(closed) || exists u | u in pools && u !in todo :: s in lists[pools[u]]
        decreases |todo|
      {
        var url :| url in todo;
        var list := lists[pools[url]];
        closed := closed + (set s | s in list);
        todo := todo - {url};
      }
      pools := map[];
      active := 0;
    }
  }
}
