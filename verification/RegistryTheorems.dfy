/** What every run does to the registry, whatever the order of messages. */
module RegistryTheorems {
  import opened Bytes
  import opened Discovery
  import opened Spawning

  // ---------- The ledger of joins and leaves ----------

  /** Created: a peer_joined was spawned for a peer that had no entry. Left: a peer_left was
      spawned. */
  datatype Event = Created(id: Id) | Left(id: Id)

  /** The events that spawned messages stand for, given the registry before the step. */
  function EventsIn(peers: Registry, ms: seq<Msg>): seq<Event> {
    if ms == [] then []
    else
      var n := |ms| - 1;
      EventsIn(peers, ms[..n]) + EventOf(peers, ms[n])
  }

  function EventOf(peers: Registry, m: Msg): seq<Event> {
    match m
    case PeerJoined(id, _) => if id in peers then [] else [Created(id)]
    case PeerLeft(id) => [Left(id)]
    case _ => []
  }

  /** Read off the server: the broadcasts that the step added to those owed. */
  ghost function Events(sys: System, a: Action): seq<Event>
    requires Enabled(sys, a)
  {
    EventsIn(sys.server.peers, Spawned(sys.server, Do(sys, a).server))
  }

  ghost function Log(sys: System, acts: seq<Action>): seq<Event>
    requires IsRun(sys, acts)
  {
    if acts == [] then []
    else
      var n := |acts| - 1;
      Log(sys, acts[..n]) + Events(RunFrom(sys, acts[..n]), acts[n])
  }

  function Of(log: seq<Event>, id: Id): seq<Event> {
    if log == [] then []
    else
      var n := |log| - 1;
      Of(log[..n], id) + if log[n].id == id then [log[n]] else []
  }

  function Count(log: seq<Event>, e: Event): nat {
    if log == [] then 0
    else Count(log[..|log| - 1], e) + if log[|log| - 1] == e then 1 else 0
  }

  /** Created, Left, Created, Left, ... */
  predicate Alternates(log: seq<Event>) {
    forall i :: 0 <= i < |log| ==> (log[i].Created? <==> i % 2 == 0)
  }

  lemma {:induction false} OfConcat(a: seq<Event>, b: seq<Event>, id: Id)
    ensures Of(a + b, id) == Of(a, id) + Of(b, id)
  {
    if b == [] {
      assert a + b == a;
    } else {
      var n := |b| - 1;
      assert (a + b)[..|a| + n] == a + b[..n];
      OfConcat(a, b[..n], id);
    }
  }

  lemma LeftsSnoc(peers: Registry, order: seq<Id>)
    requires order != []
    ensures var n := |order| - 1;
            EventsIn(peers, Lefts(order)) == EventsIn(peers, Lefts(order[..n])) + [Left(order[n])]
  {
    assert Lefts(order)[..|order| - 1] == Lefts(order[..|order| - 1]);
  }

  lemma {:induction false} OfLefts(peers: Registry, order: seq<Id>, id: Id)
    requires NoDuplicates(order)
    ensures Of(EventsIn(peers, Lefts(order)), id) == if id in order then [Left(id)] else []
  {
    if order != [] {
      var n := |order| - 1;
      OfLefts(peers, order[..n], id);
      LeftsSnoc(peers, order);
      OfConcat(EventsIn(peers, Lefts(order[..n])), [Left(order[n])], id);
      OfOne(Left(order[n]), id);
      InLast(order, id);
    }
  }

  lemma InLast(order: seq<Id>, id: Id)
    requires order != [] && NoDuplicates(order)
    ensures var n := |order| - 1;
            (id in order <==> id in order[..n] || id == order[n]) && order[n] !in order[..n]
  {
    assert order == order[..|order| - 1] + [order[|order| - 1]];
  }

  lemma OfOne(e: Event, id: Id)
    ensures Of([e], id) == if e.id == id then [e] else []
  {
    assert [e][..0] == [];
  }

  lemma EventsInOne(peers: Registry, m: Msg)
    ensures EventsIn(peers, [m]) == EventOf(peers, m)
  {
    assert [m][..0] == [];
  }

  lemma {:induction false} NewsEvents(sys: System, a: Action, id: Id)
    requires Enabled(sys, a)
    ensures var peers := sys.server.peers;
            var before, after := id in peers, id in PeersAfter(sys, a);
            Of(EventsIn(peers, News(a)), id) ==
            if before == after then [] else if after then [Created(id)] else [Left(id)]
  {
    var peers := sys.server.peers;
    match a
    case DoCleanup(order) =>
      OfLefts(peers, order, id);
      assert id in order <==> id in Elements(order);
    case DoRegister(_, x, info) =>
      EventsInOne(peers, PeerJoined(x, info));
      OfOne(Created(x), id);
    case DoClose(_, found) =>
      EventsInOne(peers, PeerLeft(found.GetOr("")));
      OfOne(Left(found.GetOr("")), id);
    case _ =>
  }

  lemma StepEvents(sys: System, a: Action, id: Id)
    requires Enabled(sys, a) && Numbered(sys.server)
    ensures var before, after := id in sys.server.peers, id in Do(sys, a).server.peers;
            Of(Events(sys, a), id) ==
            if before == after then [] else if after then [Created(id)] else [Left(id)]
  {
    StepSpawns(sys, a);
    StepPeers(sys, a);
    NewsEvents(sys, a, id);
  }

  /** On every run, for each peer, the peer_joined broadcasts spawned for a new entry and the
      peer_left broadcasts spawned strictly alternate, and the peer is registered exactly when
      the last of them was a peer_joined. */
  lemma {:induction false} JoinsAndLeavesAlternate(acts: seq<Action>, id: Id)
    requires IsRun(START, acts)
    ensures var log := Of(Log(START, acts), id);
            Alternates(log) && (id in RunFrom(START, acts).server.peers <==> |log| % 2 == 1)
    decreases |acts|
  {
    if acts != [] {
      var n := |acts| - 1;
      var sys := RunFrom(START, acts[..n]);
      JoinsAndLeavesAlternate(acts[..n], id);
      OfConcat(Log(START, acts[..n]), Events(sys, acts[n]), id);
      RunNumbered(START, acts[..n]);
      StepEvents(sys, acts[n], id);
      Extend(Of(Log(START, acts[..n]), id), Of(Events(sys, acts[n]), id), id,
             id in sys.server.peers, id in Do(sys, acts[n]).server.peers);
    }
  }

  lemma Extend(log: seq<Event>, more: seq<Event>, id: Id, before: bool, after: bool)
    requires Alternates(log) && (before <==> |log| % 2 == 1)
    requires more == if before == after then [] else if after then [Created(id)] else [Left(id)]
    ensures Alternates(log + more) && (after <==> |log + more| % 2 == 1)
  {
  }

  lemma {:induction false} CountConcat(a: seq<Event>, b: seq<Event>, e: Event)
    ensures Count(a + b, e) == Count(a, e) + Count(b, e)
  {
    if b == [] {
      assert a + b == a;
    } else {
      var n := |b| - 1;
      assert (a + b)[..|a| + n] == a + b[..n];
      CountConcat(a, b[..n], e);
    }
  }

  lemma {:induction false} CountOf(log: seq<Event>, e: Event)
    ensures Count(log, e) == Count(Of(log, e.id), e)
  {
    if log != [] {
      var n := |log| - 1;
      CountOf(log[..n], e);
      CountConcat(Of(log[..n], e.id), if log[n].id == e.id then [log[n]] else [], e);
      assert Count([log[n]], e) == Count([], e) + if log[n] == e then 1 else 0;
    }
  }

  lemma {:induction false} CountAlternating(log: seq<Event>, id: Id)
    requires Alternates(log) && forall i :: 0 <= i < |log| ==> log[i].id == id
    ensures Count(log, Created(id)) == Count(log, Left(id)) + |log| % 2
  {
    if log != [] {
      CountAlternating(log[..|log| - 1], id);
    }
  }

  lemma {:induction false} OfIsOf(log: seq<Event>, id: Id)
    ensures forall i :: 0 <= i < |Of(log, id)| ==> Of(log, id)[i].id == id
  {
    if log != [] {
      OfIsOf(log[..|log| - 1], id);
    }
  }

  /** The counts differ by one exactly while the peer is registered. */
  lemma {:induction false} JoinsMinusLeaves(acts: seq<Action>, id: Id)
    requires IsRun(START, acts)
    ensures Count(Log(START, acts), Created(id)) - Count(Log(START, acts), Left(id))
         == if id in RunFrom(START, acts).server.peers then 1 else 0
  {
    var log := Log(START, acts);
    JoinsAndLeavesAlternate(acts, id);
    OfIsOf(log, id);
    CountAlternating(Of(log, id), id);
    CountOf(log, Created(id));
    CountOf(log, Left(id));
  }

  // ---------- Superseded connections ----------

  /** What may end or replace the registration of id by connection k. */
  ghost predicate Disturbs(sys: System, a: Action, k: Conn, id: Id) {
    match a
    case DoRegister(_, x, _) => x == id
    case DoClose(c, _) => c == k
    case DoCleanup(order) => id in order
    case _ => false
  }

  ghost predicate Undisturbed(sys: System, acts: seq<Action>, k: Conn, id: Id)
    requires IsRun(sys, acts)
  {
    acts == [] ||
    var n := |acts| - 1;
    Undisturbed(sys, acts[..n], k, id) && !Disturbs(RunFrom(sys, acts[..n]), acts[n], k, id)
  }

  /** Closing any other connection, a superseded one of the same peer included, never evicts
      the registration: it ends only by its own close, a newer registration or a timeout. */
  lemma {:induction false} SupersededCloseIsHarmless(sys: System, acts: seq<Action>, k: Conn, id: Id)
    requires IsRun(sys, acts) && Undisturbed(sys, acts, k, id)
    requires id in sys.server.peers && sys.server.peers[id].conn == k
    ensures var peers := RunFrom(sys, acts).server.peers;
            id in peers && peers[id].conn == k && peers[id].info == sys.server.peers[id].info
    decreases |acts|
  {
    if acts != [] {
      var n := |acts| - 1;
      SupersededCloseIsHarmless(sys, acts[..n], k, id);
      UndisturbedStep(RunFrom(sys, acts[..n]), acts[n], k, id);
    }
  }

  lemma UndisturbedStep(sys: System, a: Action, k: Conn, id: Id)
    requires Enabled(sys, a) && !Disturbs(sys, a, k, id)
    requires id in sys.server.peers && sys.server.peers[id].conn == k
    ensures var was, now := sys.server.peers, Do(sys, a).server.peers;
            id in now && now[id].conn == k && now[id].info == was[id].info
  {
    StepPeers(sys, a);
  }

  // ---------- Timeliness ----------

  /** Each cleanup leaves exactly the entries seen within two minutes, as they were; a cleanup
      at the limit itself still spares an entry. */
  lemma CleanupKeepsTheTimely(sys: System, order: seq<Id>, id: Id)
    requires Enabled(sys, DoCleanup(order))
    ensures var was, left := sys.server.peers, Do(sys, DoCleanup(order)).server.peers;
            (id in left <==> id in was && sys.now - was[id].lastSeen <= 120_000_000_000) && (id in left ==> left[id] == was[id])
  {
    var s := sys.server;
    SpawnKeepsPeers(s.(peers := s.peers - Elements(order)), Lefts(order));
    assert id in Elements(order) <==> id in Dead(s.peers, sys.now);
  }

  /** The last time connection k spoke: registered id, or sent a ping or pong. */
  ghost function LastHeard(sys: System, acts: seq<Action>, k: Conn, id: Id): int
    requires IsRun(sys, acts)
  {
    if acts == [] then sys.now
    else
      var n := |acts| - 1;
      match acts[n]
      case DoRegister(c, x, _) =>
        if c == k && x == id then RunFrom(sys, acts[..n]).now else LastHeard(sys, acts[..n], k, id)
      case DoTouch(c, _) =>
        if c == k then RunFrom(sys, acts[..n]).now else LastHeard(sys, acts[..n], k, id)
      case _ => LastHeard(sys, acts[..n], k, id)
  }

  /** The connection k uses one id, nobody else uses that id, it is not closed, and no cleanup
      finds it silent for more than two minutes. */
  ghost predicate Punctual(sys: System, acts: seq<Action>, k: Conn, id: Id)
    requires IsRun(sys, acts)
  {
    acts == [] ||
    var n := |acts| - 1;
    && Punctual(sys, acts[..n], k, id)
    && match acts[n]
       case DoRegister(c, x, _) => c == k <==> x == id
       case DoClose(c, _) => c != k
       case DoCleanup(_) => RunFrom(sys, acts[..n]).now - LastHeard(sys, acts[..n], k, id) <= TIMEOUT
       case _ => true
  }

  ghost predicate SoleEntry(peers: Registry, k: Conn, id: Id) {
    id in peers && forall x :: x in peers ==> (peers[x].conn == k <==> x == id)
  }

  /** On every run, a peer that speaks at least every two minutes is never evicted. */
  lemma {:induction false} PunctualPeersStay(sys: System, acts: seq<Action>, k: Conn, id: Id)
    requires IsRun(sys, acts) && Punctual(sys, acts, k, id)
    requires SoleEntry(sys.server.peers, k, id) && sys.server.peers[id].lastSeen == sys.now
    ensures var peers := RunFrom(sys, acts).server.peers;
            SoleEntry(peers, k, id) && peers[id].lastSeen == LastHeard(sys, acts, k, id)
    decreases |acts|
  {
    if acts != [] {
      var n := |acts| - 1;
      PunctualPeersStay(sys, acts[..n], k, id);
      PunctualStep(RunFrom(sys, acts[..n]), acts[n], k, id);
    }
  }

  lemma PunctualStep(sys: System, a: Action, k: Conn, id: Id)
    requires Enabled(sys, a) && SoleEntry(sys.server.peers, k, id)
    requires match a
             case DoRegister(c, x, _) => c == k <==> x == id
             case DoClose(c, _) => c != k
             case DoCleanup(_) => sys.now - sys.server.peers[id].lastSeen <= TIMEOUT
             case _ => true
    ensures var peers := Do(sys, a).server.peers;
            && SoleEntry(peers, k, id)
            && peers[id].lastSeen ==
               (match a
                case DoRegister(c, _, _) => if c == k then sys.now else sys.server.peers[id].lastSeen
                case DoTouch(c, _) => if c == k then sys.now else sys.server.peers[id].lastSeen
                case _ => sys.server.peers[id].lastSeen)
  {
    var peers := sys.server.peers;
    match a
    case DoCleanup(order) =>
      forall x ensures x in Do(sys, a).server.peers <==> x in peers && sys.now - peers[x].lastSeen <= TIMEOUT
               ensures x in Do(sys, a).server.peers ==> Do(sys, a).server.peers[x] == peers[x]
      {
        CleanupKeepsTheTimely(sys, order, x);
      }
    case DoTouch(c, found) =>
      if c == k {
        assert peers[id].conn == k;
        assert found == Some(id);
      }
    case _ =>
  }
}
