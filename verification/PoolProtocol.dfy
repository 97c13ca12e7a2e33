/** Clients, cleanup threads and `close_all` interleaving over one connection pool. */
module PoolProtocol {
  import opened SessionPool

  type Thread = nat

  /** A thread inside `get_session`: it has captured a list, then a session too. */
  datatype Client =
    | Captured(url: Url, list: ListId)
    | Using(url: Url, list: ListId, session: Session)

  /** Where a session is: in a list, with a client, dropped by a client whose request
      failed, or closed because its list was full. */
  datatype Place = Parked(list: ListId) | With(client: Thread) | Dropped | Discarded

  /** The shared state, what each thread holds between lock regions (a cleanup thread, the
      copied sessions it has yet to close), and history: the URL each list was made for,
      the list each session was created under, and where each session is. */
  datatype System = System(
    sh: Shared,
    clients: map<Thread, Client>,
    cleaners: map<Thread, seq<Session>>,
    urls: seq<Url>,
    homes: seq<ListId>,
    places: seq<Place>,
    checkouts: nat)

  datatype Step =
    | Begin(thread: Thread, url: Url)
    | Take(thread: Thread)
    | Finish(thread: Thread)
    | Fail(thread: Thread)
    | StartCleanup(thread: Thread)
    | CloseOne(thread: Thread)
    | EndCleanup(thread: Thread)
    | CloseAll

  function Init(maxSize: nat): System {
    System(Shared(maxSize, map[], [], {}, 0, 0, 0), map[], map[], [], [], [], 0)
  }

  // ---- The steps ----

  ghost predicate BeginStep(a: System, t: Thread, url: Url, b: System) {
    && t !in a.clients && url in b.sh.pools
    && GetPool(a.sh, url, b.sh, b.sh.pools[url])
    && b == a.(sh := b.sh, clients := a.clients[t := Captured(url, b.sh.pools[url])],
               urls := if url in a.sh.pools then a.urls else a.urls + [url])
  }

  ghost predicate TakeStep(a: System, t: Thread, b: System) {
    && t in a.clients && a.clients[t].Captured? && a.clients[t].list < |a.sh.lists|
    && var Captured(url, l) := a.clients[t];
       var (sh, s) := TakeSession(a.sh, l);
       && (s < |a.places| || s == |a.places| == |a.homes|)
       && b == a.(sh := sh, clients := a.clients[t := Using(url, l, s)], checkouts := a.checkouts + 1,
                  homes := if s < |a.places| then a.homes else a.homes + [l],
                  places := if s < |a.places| then a.places[s := With(t)] else a.places + [With(t)])
  }

  ghost predicate FinishStep(a: System, t: Thread, b: System) {
    && t in a.clients && a.clients[t].Using? && a.clients[t].list < |a.sh.lists|
    && var Using(url, l, s) := a.clients[t];
       && s < |a.places|
       && b == a.(sh := PutSession(a.sh, l, s), clients := a.clients - {t},
                  places := a.places[s := if HasRoom(a.sh, l) then Parked(l) else Discarded])
  }

  /** An exception: a session the client already has is not put back. */
  ghost predicate FailStep(a: System, t: Thread, b: System) {
    && t in a.clients
    && if a.clients[t].Captured? then b == a.(clients := a.clients - {t})
       else
         && a.clients[t].session < |a.places|
         && b == a.(clients := a.clients - {t}, places := a.places[a.clients[t].session := Dropped])
  }

  ghost predicate StartCleanupStep(a: System, t: Thread, b: System) {
    && t !in a.cleaners && t in b.cleaners && a.sh.Valid()
    && Detach(a.sh, b.sh, b.cleaners[t])
    && a.urls <= b.urls && |b.urls| == |b.sh.lists|
    && (forall u | u in b.sh.pools :: b.urls[b.sh.pools[u]] == u)
    && b == a.(sh := b.sh, urls := b.urls, cleaners := a.cleaners[t := b.cleaners[t]])
  }

  ghost predicate CloseOneStep(a: System, t: Thread, b: System) {
    && t in a.cleaners && a.cleaners[t] != []
    && b == a.(sh := a.sh.(closed := a.sh.closed + {a.cleaners[t][0]}), cleaners := a.cleaners[t := a.cleaners[t][1..]])
  }

  ghost predicate EndCleanupStep(a: System, t: Thread, b: System) {
    && t in a.cleaners && a.cleaners[t] == []
    && b == a.(sh := a.sh.(active := |a.sh.pools|), cleaners := a.cleaners - {t})
  }

  ghost predicate CloseAllStep(a: System, b: System) {
    a.sh.Valid() && b == a.(sh := CloseAllPools(a.sh))
  }

  ghost predicate Next(a: System, step: Step, b: System) {
    match step
    case Begin(t, url) => BeginStep(a, t, url, b)
    case Take(t) => TakeStep(a, t, b)
    case Finish(t) => FinishStep(a, t, b)
    case Fail(t) => FailStep(a, t, b)
    case StartCleanup(t) => StartCleanupStep(a, t, b)
    case CloseOne(t) => CloseOneStep(a, t, b)
    case EndCleanup(t) => EndCleanupStep(a, t, b)
    case CloseAll => CloseAllStep(a, b)
  }

  /** Some interleaving, from an empty pool. */
  ghost predicate Behaviour(maxSize: nat, run: seq<System>, steps: seq<Step>) {
    && |run| == |steps| + 1 && run[0] == Init(maxSize)
    && forall i | 0 <= i < |steps| :: Next(run[i], steps[i], run[i + 1])
  }

  // ---- The invariant ----

  /** Lists serve one URL each, and clients hold a list of the URL they asked for. */
  ghost predicate ListsKept(s: System) {
    && s.sh.Valid() && |s.urls| == |s.sh.lists|
    && (forall u | u in s.sh.pools :: s.urls[s.sh.pools[u]] == u)
    && (forall t | t in s.clients :: s.clients[t].list < |s.urls| && s.urls[s.clients[t].list] == s.clients[t].url)
    && (forall l | 0 <= l < |s.sh.lists| :: |s.sh.lists[l]| <= s.sh.maxSize)
  }

  ghost predicate NoRepeat(list: seq<Session>) {
    forall i, j | 0 <= i < j < |list| :: list[i] != list[j]
  }

  /** A list holds exactly the sessions whose place says so, each once. */
  ghost predicate ListsPlaced(s: System) {
    && |s.homes| == |s.places| == s.sh.created
    && (forall l, x {:trigger x in s.sh.lists[l]} | 0 <= l < |s.sh.lists| && x in s.sh.lists[l] :: x < |s.places| && s.places[x] == Parked(l))
    && (forall x: Session | x < |s.places| && s.places[x].Parked? ::
          s.places[x].list < |s.sh.lists| && x in s.sh.lists[s.places[x].list])
    && (forall l | 0 <= l < |s.sh.lists| :: NoRepeat(s.sh.lists[l]))
  }

  /** A client holds exactly the session whose place says so. */
  ghost predicate ClientsPlaced(s: System) {
    && (forall t | t in s.clients && s.clients[t].Using? ::
          s.clients[t].session < |s.places| && s.places[s.clients[t].session] == With(t))
    && (forall x: Session | x < |s.places| && s.places[x].With? ::
          && s.places[x].client in s.clients
          && s.clients[s.places[x].client].Using? && s.clients[s.places[x].client].session == x)
  }

  /** Every session stays with the list it was created under. */
  ghost predicate AtHome(s: System) {
    && |s.homes| == |s.places|
    && (forall x: Session | x < |s.homes| :: s.homes[x] < |s.sh.lists|)
    && (forall x: Session | x < |s.places| && s.places[x].Parked? :: s.places[x].list == s.homes[x])
    && (forall t | t in s.clients && s.clients[t].Using? ::
          s.clients[t].session < |s.homes| && s.homes[s.clients[t].session] == s.clients[t].list)
  }

  ghost predicate Pending(s: System, x: Session) {
    exists t :: t in s.cleaners && x in s.cleaners[t]
  }

  /** A session that is closed, or about to be, belongs to a list that is no longer
      registered, unless it was closed for want of room. */
  ghost predicate ClosedDetached(s: System) {
    && |s.places| == |s.homes|
    && forall x: Session {:trigger x in s.sh.closed} {:trigger Pending(s, x)} | x in s.sh.closed || Pending(s, x) ::
      x < |s.homes| && (s.places[x] == Discarded || !s.sh.Registered(s.homes[x]))
  }

  function Slots(lists: seq<seq<Session>>): nat {
    if lists == [] then 0 else Slots(lists[..|lists| - 1]) + |lists[|lists| - 1]|
  }

  function Users(clients: map<Thread, Client>): set<Thread> {
    set t | t in clients && clients[t].Using?
  }

  function At(places: seq<Place>, p: Place): set<Session> {
    set x: Session | x < |places| && places[x] == p
  }

  ghost predicate Accounted(s: System) {
    && s.sh.created == Slots(s.sh.lists) + |Users(s.clients)| + |At(s.places, Dropped)| + |At(s.places, Discarded)|
    && s.sh.created + s.sh.reused == s.checkouts
    && (s.cleaners == map[] ==> s.sh.active == |s.sh.pools|)
  }

  ghost predicate Inv(s: System) {
    ListsKept(s) && ListsPlaced(s) && ClientsPlaced(s) && AtHome(s) && ClosedDetached(s) && Accounted(s)
  }

  // ---- Every step keeps it ----

  lemma {:induction false} SlotsUpdate(lists: seq<seq<Session>>, l: nat, list: seq<Session>)
    requires l < |lists|
    ensures Slots(lists[l := list]) == Slots(lists) - |lists[l]| + |list|
  {
    var n := |lists| - 1;
    if l == n {
      assert lists[l := list][..n] == lists[..n];
    } else {
      SlotsUpdate(lists[..n], l, list);
      assert lists[l := list][..n] == lists[..n][l := list];
    }
  }

  lemma {:induction false} SlotsEmptyTail(lists: seq<seq<Session>>, n: nat)
    requires n <= |lists| && forall l | n <= l < |lists| :: lists[l] == []
    ensures Slots(lists) == Slots(lists[..n])
  {
    if n < |lists| {
      SlotsEmptyTail(lists[..|lists| - 1], n);
      assert lists[..|lists| - 1][..n] == lists[..n];
    } else {
      assert lists[..n] == lists;
    }
  }

  lemma PlaceMoves(places: seq<Place>, x: Session, q: Place, p: Place)
    requires x < |places| && places[x] != p
    ensures |At(places[x := q], p)| == |At(places, p)| + if p == q then 1 else 0
  {
    assert At(places[x := q], p) == if p == q then At(places, p) + {x} else At(places, p);
  }

  lemma PlaceAppended(places: seq<Place>, q: Place, p: Place)
    requires q != p
    ensures At(places + [q], p) == At(places, p)
  {
  }

  lemma UserJoins(clients: map<Thread, Client>, t: Thread, c: Client)
    requires c.Using? && t !in Users(clients)
    ensures |Users(clients[t := c])| == |Users(clients)| + 1
  {
    assert Users(clients[t := c]) == Users(clients) + {t};
  }

  lemma CapturedIsNoUser(clients: map<Thread, Client>, t: Thread, c: Client)
    requires t !in clients && c.Captured?
    ensures Users(clients[t := c]) == Users(clients)
  {
  }

  lemma KeyAdded(pools: map<Url, ListId>, url: Url, l: ListId)
    requires url !in pools
    ensures |pools[url := l]| == |pools| + 1
  {
    assert pools[url := l].Keys == pools.Keys + {url};
  }

  lemma UserLeaves(clients: map<Thread, Client>, t: Thread)
    ensures |Users(clients - {t})| == |Users(clients)| - if t in Users(clients) then 1 else 0
  {
    assert Users(clients - {t}) == Users(clients) - {t};
  }

  lemma BeginKeepsLists(a: System, t: Thread, url: Url, b: System)
    requires Inv(a) && BeginStep(a, t, url, b)
    ensures ListsKept(b) && AtHome(b)
  {
  }

  lemma BeginKeepsSessions(a: System, t: Thread, url: Url, b: System)
    requires Inv(a) && BeginStep(a, t, url, b)
    ensures ListsPlaced(b) && ClientsPlaced(b)
  {
  }

  lemma BeginKeepsClosed(a: System, t: Thread, url: Url, b: System)
    requires Inv(a) && BeginStep(a, t, url, b)
    ensures ClosedDetached(b)
  {
    forall x: Session | x in b.sh.closed || Pending(b, x)
      ensures x < |b.homes| && (b.places[x] == Discarded || !b.sh.Registered(b.homes[x]))
    {
      assert Pending(b, x) ==> Pending(a, x);
      assert a.homes[x] < |a.sh.lists|;
    }
  }

  lemma BeginAccounts(a: System, t: Thread, url: Url, b: System)
    requires Inv(a) && BeginStep(a, t, url, b)
    ensures Accounted(b)
  {
    if url !in a.sh.pools {
      assert b.sh.lists[..|a.sh.lists|] == a.sh.lists;
      SlotsEmptyTail(b.sh.lists, |a.sh.lists|);
      KeyAdded(a.sh.pools, url, b.sh.pools[url]);
    }
    CapturedIsNoUser(a.clients, t, b.clients[t]);
  }

  /** The session handed out was parked in the captured list, or is new. */
  lemma TakenFrom(a: System, t: Thread, b: System)
    requires Inv(a) && TakeStep(a, t, b)
    ensures var l, s := a.clients[t].list, b.clients[t].session;
      if a.sh.lists[l] == [] then s == a.sh.created && b.sh.lists == a.sh.lists
      else s < a.sh.created && a.places[s] == Parked(l) && s == a.sh.lists[l][|a.sh.lists[l]| - 1]
  {
    var list := a.sh.lists[a.clients[t].list];
    if list != [] {
      assert list[|list| - 1] in list;
    }
  }

  lemma TakeKeepsLists(a: System, t: Thread, b: System)
    requires Inv(a) && TakeStep(a, t, b)
    ensures ListsKept(b)
  {
    TakenFrom(a, t, b);
  }

  lemma TakeKeepsHome(a: System, t: Thread, b: System)
    requires Inv(a) && TakeStep(a, t, b)
    ensures AtHome(b)
  {
    TakenFrom(a, t, b);
  }

  lemma LastGone(list: seq<Session>)
    requires list != [] && NoRepeat(list)
    ensures NoRepeat(list[..|list| - 1])
    ensures forall x {:trigger x in list[..|list| - 1]} {:trigger x in list} ::
      x in list[..|list| - 1] <==> x in list && x != list[|list| - 1]
  {
  }

  lemma TakeKeepsSessions(a: System, t: Thread, b: System)
    requires Inv(a) && TakeStep(a, t, b)
    ensures ListsPlaced(b)
  {
    TakenFrom(a, t, b);
    var l := a.clients[t].list;
    var list := a.sh.lists[l];
    if list != [] {
      LastGone(list);
      assert b.sh.lists[l] == list[..|list| - 1];
    }
  }

  lemma TakeKeepsClients(a: System, t: Thread, b: System)
    requires Inv(a) && TakeStep(a, t, b)
    ensures ClientsPlaced(b)
  {
    TakenFrom(a, t, b);
  }

  lemma TakeKeepsClosed(a: System, t: Thread, b: System)
    requires Inv(a) && TakeStep(a, t, b)
    ensures ClosedDetached(b)
  {
    TakenFrom(a, t, b);
    forall x: Session | x in b.sh.closed || Pending(b, x)
      ensures x < |b.homes| && (b.places[x] == Discarded || !b.sh.Registered(b.homes[x]))
    {
      assert Pending(b, x) ==> Pending(a, x);
    }
  }

  lemma TakeAccounts(a: System, t: Thread, b: System)
    requires Inv(a) && TakeStep(a, t, b)
    ensures Accounted(b)
  {
    TakenFrom(a, t, b);
    var l := a.clients[t].list;
    UserJoins(a.clients, t, b.clients[t]);
    if a.sh.lists[l] == [] {
      PlaceAppended(a.places, With(t), Dropped);
      PlaceAppended(a.places, With(t), Discarded);
    } else {
      SlotsUpdate(a.sh.lists, l, b.sh.lists[l]);
      PlaceMoves(a.places, b.clients[t].session, With(t), Dropped);
      PlaceMoves(a.places, b.clients[t].session, With(t), Discarded);
    }
  }

  lemma FinishKeepsLists(a: System, t: Thread, b: System)
    requires Inv(a) && FinishStep(a, t, b)
    ensures ListsKept(b) && AtHome(b)
  {
  }

  lemma FinishKeepsSessions(a: System, t: Thread, b: System)
    requires Inv(a) && FinishStep(a, t, b)
    ensures ListsPlaced(b)
  {
    var Using(url, l, s) := a.clients[t];
    assert a.places[s] == With(t) && s !in a.sh.lists[l];
  }

  lemma FinishKeepsClients(a: System, t: Thread, b: System)
    requires Inv(a) && FinishStep(a, t, b)
    ensures ClientsPlaced(b)
  {
  }

  lemma FinishKeepsClosed(a: System, t: Thread, b: System)
    requires Inv(a) && FinishStep(a, t, b)
    ensures ClosedDetached(b)
  {
    forall x: Session | x in b.sh.closed || Pending(b, x)
      ensures x < |b.homes| && (b.places[x] == Discarded || !b.sh.Registered(b.homes[x]))
    {
      assert Pending(b, x) ==> Pending(a, x);
      assert a.places[a.clients[t].session] == With(t);
    }
  }

  lemma FinishAccounts(a: System, t: Thread, b: System)
    requires Inv(a) && FinishStep(a, t, b)
    ensures Accounted(b)
  {
    var Using(url, l, s) := a.clients[t];
    SlotsUpdate(a.sh.lists, l, a.sh.lists[l] + [s]);
    UserLeaves(a.clients, t);
    PlaceMoves(a.places, s, b.places[s], Dropped);
    PlaceMoves(a.places, s, b.places[s], Discarded);
  }

  lemma FailKeepsLists(a: System, t: Thread, b: System)
    requires Inv(a) && FailStep(a, t, b)
    ensures ListsKept(b) && AtHome(b)
  {
  }

  lemma FailKeepsClients(a: System, t: Thread, b: System)
    requires Inv(a) && FailStep(a, t, b)
    ensures ClientsPlaced(b)
  {
  }

  lemma FailKeepsSessions(a: System, t: Thread, b: System)
    requires Inv(a) && FailStep(a, t, b)
    ensures ListsPlaced(b)
  {
    if a.clients[t].Using? {
      assert a.places[a.clients[t].session] == With(t);
    }
  }

  lemma FailKeepsClosed(a: System, t: Thread, b: System)
    requires Inv(a) && FailStep(a, t, b)
    ensures ClosedDetached(b)
  {
    forall x: Session | x in b.sh.closed || Pending(b, x)
      ensures x < |b.homes| && (b.places[x] == Discarded || !b.sh.Registered(b.homes[x]))
    {
      assert Pending(b, x) ==> Pending(a, x);
    }
  }

  lemma FailAccounts(a: System, t: Thread, b: System)
    requires Inv(a) && FailStep(a, t, b)
    ensures Accounted(b)
  {
    UserLeaves(a.clients, t);
    if a.clients[t].Using? {
      PlaceMoves(a.places, a.clients[t].session, Dropped, Dropped);
      PlaceMoves(a.places, a.clients[t].session, Dropped, Discarded);
    }
  }

  lemma StartCleanupKeepsLists(a: System, t: Thread, b: System)
    requires Inv(a) && StartCleanupStep(a, t, b)
    ensures ListsKept(b) && AtHome(b)
  {
  }

  lemma StartCleanupKeepsSessions(a: System, t: Thread, b: System)
    requires Inv(a) && StartCleanupStep(a, t, b)
    ensures ListsPlaced(b) && ClientsPlaced(b)
  {
  }

  /** Every registered list is unregistered by a cleanup, so what it copies is detached. */
  lemma StartCleanupKeepsClosed(a: System, t: Thread, b: System)
    requires Inv(a) && StartCleanupStep(a, t, b)
    ensures ClosedDetached(b)
  {
    forall x: Session | x in b.sh.closed || Pending(b, x)
      ensures x < |b.homes| && (b.places[x] == Discarded || !b.sh.Registered(b.homes[x]))
    {
      assert Pending(b, x) ==> Pending(a, x) || x in a.sh.Idle();
    }
  }

  lemma StartCleanupAccounts(a: System, t: Thread, b: System)
    requires Inv(a) && StartCleanupStep(a, t, b)
    ensures Accounted(b)
  {
    assert b.sh.lists[..|a.sh.lists|] == a.sh.lists;
    SlotsEmptyTail(b.sh.lists, |a.sh.lists|);
  }

  lemma CleanupKeepsOthers(a: System, t: Thread, b: System)
    requires Inv(a) && (CloseOneStep(a, t, b) || EndCleanupStep(a, t, b))
    ensures ListsKept(b) && ListsPlaced(b) && ClientsPlaced(b) && AtHome(b)
  {
  }

  lemma CleanupKeepsClosed(a: System, t: Thread, b: System)
    requires Inv(a) && (CloseOneStep(a, t, b) || EndCleanupStep(a, t, b))
    ensures ClosedDetached(b) && Accounted(b)
  {
    forall x: Session | x in b.sh.closed || Pending(b, x)
      ensures x < |b.homes| && (b.places[x] == Discarded || !b.sh.Registered(b.homes[x]))
    {
      assert x in a.sh.closed || Pending(a, x);
    }
  }

  lemma CloseAllKeeps(a: System, b: System)
    requires Inv(a) && CloseAllStep(a, b)
    ensures ListsKept(b) && ListsPlaced(b) && ClientsPlaced(b) && AtHome(b)
  {
  }

  lemma CloseAllKeepsClosed(a: System, b: System)
    requires Inv(a) && CloseAllStep(a, b)
    ensures ClosedDetached(b) && Accounted(b)
  {
    forall x: Session | x in b.sh.closed || Pending(b, x)
      ensures x < |b.homes| && (b.places[x] == Discarded || !b.sh.Registered(b.homes[x]))
    {
      assert Pending(b, x) ==> Pending(a, x);
    }
  }
}
