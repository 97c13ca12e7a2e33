/** What holds in every interleaving over a connection pool. */
module PoolTheorems {
  import opened SessionPool
  import opened PoolProtocol

  lemma StepKeepsInvariant(a: System, step: Step, b: System)
    requires Inv(a) && Next(a, step, b)
    ensures Inv(b)
  {
    match step
    case Begin(t, url) =>
      BeginKeepsLists(a, t, url, b);
      BeginKeepsSessions(a, t, url, b);
      BeginKeepsClosed(a, t, url, b);
      BeginAccounts(a, t, url, b);
    case Take(t) =>
      TakeKeepsLists(a, t, b);
      TakeKeepsHome(a, t, b);
      TakeKeepsSessions(a, t, b);
      TakeKeepsClients(a, t, b);
      TakeKeepsClosed(a, t, b);
      TakeAccounts(a, t, b);
    case Finish(t) =>
      FinishKeepsLists(a, t, b);
      FinishKeepsSessions(a, t, b);
      FinishKeepsClients(a, t, b);
      FinishKeepsClosed(a, t, b);
      FinishAccounts(a, t, b);
    case Fail(t) =>
      FailKeepsLists(a, t, b);
      FailKeepsClients(a, t, b);
      FailKeepsSessions(a, t, b);
      FailKeepsClosed(a, t, b);
      FailAccounts(a, t, b);
    case StartCleanup(t) =>
      StartCleanupKeepsLists(a, t, b);
      StartCleanupKeepsSessions(a, t, b);
      StartCleanupKeepsClosed(a, t, b);
      StartCleanupAccounts(a, t, b);
    case CloseOne(t) =>
      CleanupKeepsOthers(a, t, b);
      CleanupKeepsClosed(a, t, b);
    case EndCleanup(t) =>
      CleanupKeepsOthers(a, t, b);
      CleanupKeepsClosed(a, t, b);
    case CloseAll =>
      CloseAllKeeps(a, b);
      CloseAllKeepsClosed(a, b);
  }

  lemma InitSatisfies(maxSize: nat)
    ensures Inv(Init(maxSize))
  {
  }

  /** The invariant holds in every state of every interleaving. */
  lemma {:induction false} InvariantHolds(maxSize: nat, run: seq<System>, steps: seq<Step>, i: nat)
    requires Behaviour(maxSize, run, steps) && i < |run|
    ensures Inv(run[i])
  {
    if i == 0 {
      InitSatisfies(maxSize);
    } else {
      InvariantHolds(maxSize, run, steps, i - 1);
      assert Next(run[i - 1], steps[i - 1], run[i]);
      StepKeepsInvariant(run[i - 1], steps[i - 1], run[i]);
    }
  }

  lemma {:induction false} LimitIsFixed(maxSize: nat, run: seq<System>, steps: seq<Step>, i: nat)
    requires Behaviour(maxSize, run, steps) && i < |run|
    ensures run[i].sh.maxSize == maxSize
  {
    if i > 0 {
      LimitIsFixed(maxSize, run, steps, i - 1);
      assert Next(run[i - 1], steps[i - 1], run[i]);
    }
  }

  // ---- Exclusive use, one URL per session, bounded lists ----

  /** A session is in one slot of one list, or with one client, never both and never twice. */
  ghost predicate Exclusive(s: System) {
    && (forall l, i, m, j | 0 <= l < |s.sh.lists| && 0 <= i < |s.sh.lists[l]|
                         && 0 <= m < |s.sh.lists| && 0 <= j < |s.sh.lists[m]| ::
          s.sh.lists[l][i] == s.sh.lists[m][j] ==> l == m && i == j)
    && (forall t, u | t in s.clients && u in s.clients && s.clients[t].Using? && s.clients[u].Using? ::
          s.clients[t].session == s.clients[u].session ==> t == u)
    && (forall t, l | t in s.clients && s.clients[t].Using? && 0 <= l < |s.sh.lists| ::
          s.clients[t].session !in s.sh.lists[l])
  }

  lemma NoSessionIsCheckedOutTwice(maxSize: nat, run: seq<System>, steps: seq<Step>, i: nat)
    requires Behaviour(maxSize, run, steps) && i < |run|
    ensures Exclusive(run[i])
    ensures forall l | 0 <= l < |run[i].sh.lists| :: |run[i].sh.lists[l]| <= maxSize
  {
    InvariantHolds(maxSize, run, steps, i);
    LimitIsFixed(maxSize, run, steps, i);
    var s := run[i];
    forall l, i, m, j | 0 <= l < |s.sh.lists| && 0 <= i < |s.sh.lists[l]|
                     && 0 <= m < |s.sh.lists| && 0 <= j < |s.sh.lists[m]| && s.sh.lists[l][i] == s.sh.lists[m][j]
      ensures l == m && i == j
    {
      assert s.sh.lists[l][i] in s.sh.lists[l] && s.sh.lists[m][j] in s.sh.lists[m];
      assert NoRepeat(s.sh.lists[l]);
    }
  }

  lemma {:induction false} HistoryGrows(maxSize: nat, run: seq<System>, steps: seq<Step>, i: nat, j: nat)
    requires Behaviour(maxSize, run, steps) && i <= j < |run|
    ensures run[i].homes <= run[j].homes && run[i].urls <= run[j].urls
  {
    if i < j {
      HistoryGrows(maxSize, run, steps, i, j - 1);
      assert Next(run[j - 1], steps[j - 1], run[j]);
    }
  }

  /** Whoever uses a session, whenever, uses it for the same base URL. */
  lemma SessionsServeOneUrl(maxSize: nat, run: seq<System>, steps: seq<Step>, i: nat, t: Thread, j: nat, u: Thread)
    requires Behaviour(maxSize, run, steps) && i <= j < |run|
    requires t in run[i].clients && run[i].clients[t].Using? && u in run[j].clients && run[j].clients[u].Using?
    requires run[i].clients[t].session == run[j].clients[u].session
    ensures run[i].clients[t].url == run[j].clients[u].url
  {
    InvariantHolds(maxSize, run, steps, i);
    InvariantHolds(maxSize, run, steps, j);
    HistoryGrows(maxSize, run, steps, i, j);
  }

  // ---- Handing out and giving back ----

  /** A session is kept exactly while there is room for it in the client's list; otherwise
      it is closed, and the list is as long as it may get. */
  lemma GivenBackIff(maxSize: nat, run: seq<System>, steps: seq<Step>, i: nat, t: Thread)
    requires Behaviour(maxSize, run, steps) && i < |steps| && steps[i] == Finish(t)
    ensures t in run[i].clients && run[i].clients[t].Using?
    ensures run[i].clients[t].list < |run[i].sh.lists| == |run[i + 1].sh.lists|
    ensures var l, x := run[i].clients[t].list, run[i].clients[t].session;
      var before, after := run[i].sh.lists[l], run[i + 1].sh.lists[l];
      && (x in after <==> |before| < maxSize)
      && (x in after ==> after == before + [x] && run[i + 1].sh.closed == run[i].sh.closed)
      && (x !in after ==> after == before && |before| == maxSize && x in run[i + 1].sh.closed)
  {
    assert Next(run[i], steps[i], run[i + 1]);
    InvariantHolds(maxSize, run, steps, i);
    LimitIsFixed(maxSize, run, steps, i);
    var l, x := run[i].clients[t].list, run[i].clients[t].session;
    assert x !in run[i].sh.lists[l];
    assert (run[i].sh.lists[l] + [x])[|run[i].sh.lists[l]|] == x;
  }

  /** A client is handed the last session of its list, or a new one exactly if that is empty. */
  lemma HandedOutIs(maxSize: nat, run: seq<System>, steps: seq<Step>, i: nat, t: Thread)
    requires Behaviour(maxSize, run, steps) && i < |steps| && steps[i] == Take(t)
    ensures t in run[i].clients && t in run[i + 1].clients && run[i + 1].clients[t].Using?
    ensures run[i].clients[t].list < |run[i].sh.lists| == |run[i + 1].sh.lists|
    ensures var l, x := run[i].clients[t].list, run[i + 1].clients[t].session;
      var before, after := run[i].sh.lists[l], run[i + 1].sh.lists[l];
      if before == [] then x == run[i].sh.created == run[i + 1].sh.created - 1 && after == []
      else before == after + [x] && run[i + 1].sh.created == run[i].sh.created
  {
    assert Next(run[i], steps[i], run[i + 1]);
    InvariantHolds(maxSize, run, steps, i);
    TakenFrom(run[i], t, run[i + 1]);
  }

  /** A URL keeps a registered list through a cleanup exactly if it had a session in it; the
      new list is empty. */
  lemma CleanupRegisters(maxSize: nat, run: seq<System>, steps: seq<Step>, i: nat, t: Thread, url: Url)
    requires Behaviour(maxSize, run, steps) && i < |steps| && steps[i] == StartCleanup(t)
    ensures run[i].sh.Valid() && run[i + 1].sh.Valid()
    ensures var a, b := run[i].sh, run[i + 1].sh;
      && (url in b.pools <==> url in a.pools && a.lists[a.pools[url]] != [])
      && (url in b.pools ==> b.pools[url] >= |a.lists| && b.lists[b.pools[url]] == [])
      && a.lists <= b.lists
  {
    assert Next(run[i], steps[i], run[i + 1]);
    InvariantHolds(maxSize, run, steps, i);
    InvariantHolds(maxSize, run, steps, i + 1);
  }

  lemma StillDropped(a: System, step: Step, b: System, x: Session)
    requires Inv(a) && Next(a, step, b) && x < |a.places| && a.places[x] == Dropped
    ensures x < |b.places| && b.places[x] == Dropped
  {
    if step.Take? {
      TakenFrom(a, step.thread, b);
    }
  }

  lemma OneStep(maxSize: nat, run: seq<System>, steps: seq<Step>, k: nat, j: nat)
    requires Behaviour(maxSize, run, steps) && j == k + 1 < |run|
    ensures Next(run[k], steps[k], run[j])
  {
  }

  lemma {:induction false} DroppedForGood(maxSize: nat, run: seq<System>, steps: seq<Step>, i: nat, j: nat, x: Session)
    requires Behaviour(maxSize, run, steps) && i <= j < |run|
    requires x < |run[i].places| && run[i].places[x] == Dropped
    ensures x < |run[j].places| && run[j].places[x] == Dropped
  {
    if i < j {
      var k := j - 1;
      DroppedForGood(maxSize, run, steps, i, k, x);
      InvariantHolds(maxSize, run, steps, k);
      OneStep(maxSize, run, steps, k, j);
      StillDropped(run[k], steps[k], run[j], x);
    }
  }

  /** A session whose client's request failed is never pooled or used again. */
  lemma FailedSessionNeverReturns(maxSize: nat, run: seq<System>, steps: seq<Step>, i: nat, j: nat, t: Thread)
    requires Behaviour(maxSize, run, steps) && i < j < |run| && steps[i] == Fail(t)
    requires t in run[i].clients && run[i].clients[t].Using?
    ensures var x := run[i].clients[t].session;
      && (forall l | 0 <= l < |run[j].sh.lists| :: x !in run[j].sh.lists[l])
      && (forall u | u in run[j].clients && run[j].clients[u].Using? :: run[j].clients[u].session != x)
  {
    assert Next(run[i], steps[i], run[i + 1]);
    DroppedForGood(maxSize, run, steps, i + 1, j, run[i].clients[t].session);
    InvariantHolds(maxSize, run, steps, j);
  }

  // ---- Closed sessions ----

  /** A session in a registered list is neither closed nor about to be closed. */
  lemma RegisteredSessionsAreOpen(maxSize: nat, run: seq<System>, steps: seq<Step>, i: nat, url: Url, x: Session)
    requires Behaviour(maxSize, run, steps) && i < |run|
    requires var sh := run[i].sh; url in sh.pools && sh.pools[url] < |sh.lists| && x in sh.lists[sh.pools[url]]
    ensures x !in run[i].sh.closed && !Pending(run[i], x)
  {
    InvariantHolds(maxSize, run, steps, i);
    assert run[i].places[x] == Parked(run[i].sh.pools[url]);
    assert run[i].sh.Registered(run[i].homes[x]);
  }

  lemma StillRegistered(a: System, step: Step, b: System, l: ListId)
    requires Inv(a) && Next(a, step, b) && a.sh.Registered(l) && !step.StartCleanup? && !step.CloseAll?
    ensures b.sh.Registered(l)
  {
    var url :| url in a.sh.pools && a.sh.pools[url] == l;
    assert url in b.sh.pools && b.sh.pools[url] == l;
  }

  /** One step back from a client with a detached list: it had captured that list already,
      and if the list was registered then, the step was a cleanup or `close_all`. */
  lemma CapturedBefore(a: System, step: Step, b: System, t: Thread)
    requires Inv(a) && Next(a, step, b)
    requires t in b.clients && b.clients[t].Captured? && !b.sh.Registered(b.clients[t].list)
    ensures t in a.clients && a.clients[t] == b.clients[t]
    ensures a.sh.Registered(b.clients[t].list) ==> step.StartCleanup? || step.CloseAll?
  {
    if a.sh.Registered(b.clients[t].list) && !step.StartCleanup? && !step.CloseAll? {
      StillRegistered(a, step, b, b.clients[t].list);
    }
  }

  /** A client whose captured list is not registered any more held it, registered, just
      before an earlier cleanup or `close_all`. */
  lemma {:induction false} DetachedSinceCapture(maxSize: nat, run: seq<System>, steps: seq<Step>, i: nat, t: Thread) returns (k: nat)
    requires Behaviour(maxSize, run, steps) && i < |run|
    requires t in run[i].clients && run[i].clients[t].Captured? && !run[i].sh.Registered(run[i].clients[t].list)
    ensures k < i && (steps[k].StartCleanup? || steps[k].CloseAll?)
    ensures t in run[k].clients && run[k].clients[t] == run[i].clients[t] && run[k].sh.Registered(run[i].clients[t].list)
  {
    assert i > 0;
    k := i - 1;
    assert Next(run[k], steps[k], run[i]);
    InvariantHolds(maxSize, run, steps, k);
    CapturedBefore(run[k], steps[k], run[i], t);
    if !run[k].sh.Registered(run[i].clients[t].list) {
      k := DetachedSinceCapture(maxSize, run, steps, k, t);
    }
  }

  /** A client is handed a closed session only if a cleanup or `close_all` detached its
      list between the capture of the list and the checkout. */
  lemma ClosedSessionNeedsDetachedList(maxSize: nat, run: seq<System>, steps: seq<Step>, i: nat) returns (k: nat)
    requires Behaviour(maxSize, run, steps) && i < |steps| && steps[i].Take?
    requires var t := steps[i].thread;
      t in run[i + 1].clients && run[i + 1].clients[t].Using?
      && (run[i + 1].clients[t].session in run[i].sh.closed || Pending(run[i], run[i + 1].clients[t].session))
    ensures var t := steps[i].thread;
      && t in run[i].clients && run[i].clients[t].Captured? && !run[i].sh.Registered(run[i].clients[t].list)
      && k < i && (steps[k].StartCleanup? || steps[k].CloseAll?)
      && t in run[k].clients && run[k].clients[t] == run[i].clients[t]
      && run[k].sh.Registered(run[i].clients[t].list)
  {
    var t := steps[i].thread;
    assert Next(run[i], steps[i], run[i + 1]);
    InvariantHolds(maxSize, run, steps, i);
    TakenFrom(run[i], t, run[i + 1]);
    k := DetachedSinceCapture(maxSize, run, steps, i, t);
  }

  /** Closed, or copied by a cleanup that has yet to close it. */
  ghost predicate Doomed(s: System, x: Session) {
    x in s.sh.closed || Pending(s, x)
  }

  /** The step takes the list out of the registry while the session is in it. */
  ghost predicate TakesDown(a: System, step: Step, l: ListId, x: Session) {
    && (step.StartCleanup? || step.CloseAll?)
    && a.sh.Registered(l) && l < |a.sh.lists| && x in a.sh.lists[l]
  }

  lemma StillCopied(a: System, step: Step, b: System, t: Thread, x: Session)
    requires Next(a, step, b) && t in a.cleaners && x in a.cleaners[t]
    ensures x in b.sh.closed || (t in b.cleaners && x in b.cleaners[t])
  {
    if step == CloseOne(t) {
      assert a.cleaners[t] == [a.cleaners[t][0]] + a.cleaners[t][1..];
    }
  }

  lemma StillDoomed(a: System, step: Step, b: System, x: Session)
    requires Inv(a) && Next(a, step, b) && Doomed(a, x)
    ensures Doomed(b, x)
  {
    if x in a.sh.closed {
      assert x in b.sh.closed;
    } else {
      var t :| t in a.cleaners && x in a.cleaners[t];
      StillCopied(a, step, b, t, x);
    }
  }

  lemma TakenDownIsDoomed(a: System, step: Step, b: System, l: ListId, x: Session)
    requires Inv(a) && Next(a, step, b) && TakesDown(a, step, l, x)
    ensures Doomed(b, x)
  {
    var url :| url in a.sh.pools && a.sh.pools[url] == l;
    assert x in a.sh.Idle();
    if step.StartCleanup? {
      assert x in b.cleaners[step.thread];
    }
  }

  lemma IdleAtHome(a: System, x: Session)
    requires Inv(a) && x in a.sh.Idle()
    ensures x < |a.places| && x < |a.homes| && a.sh.Registered(a.homes[x]) && x in a.sh.lists[a.homes[x]]
  {
    var url :| url in a.sh.pools && x in a.sh.lists[a.sh.pools[url]];
    assert a.places[x] == Parked(a.sh.pools[url]);
  }

  lemma DoomedByFullList(a: System, step: Step, b: System, x: Session)
    requires Inv(a) && Next(a, step, b) && !Doomed(a, x) && Doomed(b, x) && !step.StartCleanup? && !step.CloseAll?
    ensures x < |b.places| && b.places[x] == Discarded
  {
    assert Pending(b, x) ==> Pending(a, x);
  }

  /** A session that becomes doomed in a step was taken down with its list, or put back
      when the list was full. */
  lemma DoomedNow(a: System, step: Step, b: System, x: Session)
    requires Inv(a) && Next(a, step, b) && !Doomed(a, x) && Doomed(b, x)
    ensures x < |b.places| && (b.places[x] == Discarded || (x < |a.homes| && TakesDown(a, step, a.homes[x], x)))
  {
    if step.StartCleanup? || step.CloseAll? {
      assert x in a.sh.Idle();
      IdleAtHome(a, x);
    } else {
      DoomedByFullList(a, step, b, x);
    }
  }

  lemma StillDiscarded(a: System, step: Step, b: System, x: Session)
    requires Inv(a) && Next(a, step, b) && x < |a.places| && a.places[x] == Discarded
    ensures x < |b.places| && b.places[x] == Discarded
  {
    if step.Take? {
      TakenFrom(a, step.thread, b);
    }
  }

  /** A doomed session was discarded, or taken down with the list it was created under. */
  lemma {:induction false} DoomedSince(maxSize: nat, run: seq<System>, steps: seq<Step>, i: nat, x: Session) returns (k: nat)
    requires Behaviour(maxSize, run, steps) && i < |run| && Doomed(run[i], x)
    ensures x < |run[i].places|
    ensures run[i].places[x] != Discarded ==> k < i && x < |run[k].homes| && TakesDown(run[k], steps[k], run[k].homes[x], x)
  {
    assert i > 0;
    k := i - 1;
    assert Next(run[k], steps[k], run[i]);
    InvariantHolds(maxSize, run, steps, k);
    if Doomed(run[k], x) {
      var j := DoomedSince(maxSize, run, steps, k, x);
      if run[k].places[x] == Discarded {
        StillDiscarded(run[k], steps[k], run[i], x);
      }
      HistoryGrows(maxSize, run, steps, k, i);
      InvariantHolds(maxSize, run, steps, i);
      k := j;
    } else {
      DoomedNow(run[k], steps[k], run[i], x);
    }
  }

  lemma {:induction false} DoomedEver(maxSize: nat, run: seq<System>, steps: seq<Step>, k: nat, i: nat, l: ListId, x: Session)
    requires Behaviour(maxSize, run, steps) && k < i < |run| && TakesDown(run[k], steps[k], l, x)
    ensures Doomed(run[i], x)
  {
    var j := i - 1;
    assert Next(run[j], steps[j], run[i]);
    InvariantHolds(maxSize, run, steps, j);
    if k == j {
      TakenDownIsDoomed(run[j], steps[j], run[i], l, x);
    } else {
      DoomedEver(maxSize, run, steps, k, j, l, x);
      StillDoomed(run[j], steps[j], run[i], x);
    }
  }

  /** Exactly when the session a client is handed is closed, or about to be: when an earlier
      cleanup or `close_all` took the client's list down with that session in it. */
  lemma ClosedSessionIsHandedOutIff(maxSize: nat, run: seq<System>, steps: seq<Step>, i: nat, t: Thread)
    requires Behaviour(maxSize, run, steps) && i < |steps| && steps[i] == Take(t)
    ensures t in run[i].clients && t in run[i + 1].clients && run[i + 1].clients[t].Using?
    ensures var l, x := run[i].clients[t].list, run[i + 1].clients[t].session;
      Doomed(run[i], x) <==> exists k :: 0 <= k < i && TakesDown(run[k], steps[k], l, x)
  {
    assert Next(run[i], steps[i], run[i + 1]);
    InvariantHolds(maxSize, run, steps, i);
    TakenFrom(run[i], t, run[i + 1]);
    var l, x := run[i].clients[t].list, run[i + 1].clients[t].session;
    if k :| 0 <= k < i && TakesDown(run[k], steps[k], l, x) {
      DoomedEver(maxSize, run, steps, k, i, l, x);
    }
    if Doomed(run[i], x) {
      var k := DoomedSince(maxSize, run, steps, i, x);
      HistoryGrows(maxSize, run, steps, k, i);
      assert run[k].homes[x] == run[i].homes[x] == l;
    }
  }

  const HOST: Url := "h"

  function Waiting(t: Thread): map<Thread, Client> {
    map[t := Captured(HOST, 0)]
  }

  function Served(t: Thread): map<Thread, Client> {
    map[t := Using(HOST, 0, 0)]
  }

  // Two clients capture a list; one uses a session and puts it back; a cleanup copies and
  // closes it; then the other client is handed the closed session.

  function H1(): System {
    System(Shared(1, map[HOST := 0], [[]], {}, 0, 0, 1), Waiting(1), map[], [HOST], [], [], 0)
  }

  function H2(): System {
    H1().(clients := Waiting(1) + Waiting(2))
  }

  function H3(): System {
    System(Shared(1, map[HOST := 0], [[]], {}, 1, 0, 1), Served(1) + Waiting(2), map[], [HOST], [0], [With(1)], 1)
  }

  function H4(): System {
    System(Shared(1, map[HOST := 0], [[0]], {}, 1, 0, 1), Waiting(2), map[], [HOST], [0], [Parked(0)], 1)
  }

  function H5(): System {
    System(Shared(1, map[HOST := 1], [[0], []], {}, 1, 0, 1), Waiting(2), map[9 := [0]], [HOST, HOST], [0], [Parked(0)], 1)
  }

  function H6(): System {
    System(Shared(1, map[HOST := 1], [[0], []], {0}, 1, 0, 1), Waiting(2), map[9 := []], [HOST, HOST], [0], [Parked(0)], 1)
  }

  function H7(): System {
    System(Shared(1, map[HOST := 1], [[], []], {0}, 1, 1, 1), Served(2), map[9 := []], [HOST, HOST], [0], [With(2)], 2)
  }

  lemma HandoutBegins()
    ensures BeginStep(Init(1), 1, HOST, H1()) && BeginStep(H1(), 2, HOST, H2())
  {
  }

  lemma HandoutTakesNew()
    ensures TakeStep(H2(), 1, H3())
  {
    assert H2().sh.lists[0] == [];
  }

  lemma HandoutTakesClosed()
    ensures TakeStep(H6(), 2, H7())
  {
    var list: seq<Session> := [0];
    assert H6().sh.lists[0] == list && list[..0] == [];
    assert H6().sh.lists[0 := list[..0]] == H7().sh.lists;
  }

  lemma HandoutFinishes()
    ensures FinishStep(H3(), 1, H4())
  {
    assert H3().clients - {1} == Waiting(2);
    var none: seq<Session> := [];
    assert none + [0] == [0];
  }

  lemma HandoutCleans()
    ensures StartCleanupStep(H4(), 9, H5())
  {
    assert H4().sh.lists[H4().sh.pools[HOST]] == [0];
    forall x
      ensures x in H4().sh.Idle() <==> x in [0]
    {
      if x == 0 { assert HOST in H4().sh.pools && x in H4().sh.lists[H4().sh.pools[HOST]]; }
    }
  }

  lemma HandoutCloses()
    ensures CloseOneStep(H5(), 9, H6())
  {
    assert [0][1..] == [];
  }

  lemma Extended(run: seq<System>, steps: seq<Step>, step: Step, next: System)
    requires Behaviour(1, run, steps) && Next(run[|steps|], step, next)
    ensures Behaviour(1, run + [next], steps + [step])
  {
  }

  lemma FirstHalf() returns (run: seq<System>, steps: seq<Step>)
    ensures Behaviour(1, run, steps) && |steps| == 4 && run[4] == H4()
  {
    HandoutBegins();
    HandoutTakesNew();
    HandoutFinishes();
    run, steps := [Init(1)], [];
    Extended(run, steps, Begin(1, HOST), H1());
    run, steps := run + [H1()], steps + [Begin(1, HOST)];
    Extended(run, steps, Begin(2, HOST), H2());
    run, steps := run + [H2()], steps + [Begin(2, HOST)];
    Extended(run, steps, Take(1), H3());
    run, steps := run + [H3()], steps + [Take(1)];
    Extended(run, steps, Finish(1), H4());
    run, steps := run + [H4()], steps + [Finish(1)];
  }

  /** It does happen that a client is handed a closed session. */
  lemma ClosedSessionCanBeHandedOut() returns (run: seq<System>, steps: seq<Step>)
    ensures Behaviour(1, run, steps) && |steps| == 7 && steps[6] == Take(2)
    ensures 2 in run[7].clients && run[7].clients[2].Using? && run[7].clients[2].session in run[6].sh.closed
  {
    run, steps := FirstHalf();
    HandoutTakesClosed();
    HandoutCleans();
    HandoutCloses();
    Extended(run, steps, StartCleanup(9), H5());
    run, steps := run + [H5()], steps + [StartCleanup(9)];
    Extended(run, steps, CloseOne(9), H6());
    run, steps := run + [H6()], steps + [CloseOne(9)];
    Extended(run, steps, Take(2), H7());
    run, steps := run + [H7()], steps + [Take(2)];
  }

  // ---- Accounting ----

  /** Every session ever created is in a list (registered or not), with a client, dropped
      after an error, or closed because its list was full; and the metrics add up. */
  lemma SessionsAreAccountedFor(maxSize: nat, run: seq<System>, steps: seq<Step>, i: nat)
    requires Behaviour(maxSize, run, steps) && i < |run|
    ensures var s := run[i];
      && s.sh.created == Slots(s.sh.lists) + |Users(s.clients)| + |At(s.places, Dropped)| + |At(s.places, Discarded)|
      && s.sh.created + s.sh.reused == s.checkouts
      && (s.cleaners == map[] ==> s.sh.active == |s.sh.pools|)
  {
    InvariantHolds(maxSize, run, steps, i);
  }
}
