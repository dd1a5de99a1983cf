/** No assumption of the convergence theorem can be dropped: for each there is a run from the
    start that breaks it alone and leaves a listed client wrong for good. */
module Necessity {
  import opened Bytes
  import opened Discovery
  import opened Convergence
  import opened Spawning
  import opened OrderMatters

  const INFO := Info("203.0.113.9", "10.0.0.2")

  /** A registered client that has its list, with no broadcast owed any more, and still wrong
      about the peer once it has handled all that was written to it. */
  ghost predicate Diverged(sys: System, k: Conn, id: Id) {
    k in sys.listed && Connected(sys.server.peers, k) && sys.server.pending == [] && !Agrees(sys, k, id)
  }

  // ---------- Building runs ----------

  lemma ExtendRun(sys: System, acts: seq<Action>, a: Action)
    requires IsRun(sys, acts) && Enabled(RunFrom(sys, acts), a)
    ensures IsRun(sys, acts + [a]) && RunFrom(sys, acts + [a]) == Do(RunFrom(sys, acts), a)
  {
    assert (acts + [a])[..|acts|] == acts;
  }

  /** acts leads from the start to sys, and every assumption but the excepted one holds on it,
      for every client and every peer. */
  ghost predicate Reached(acts: seq<Action>, sys: System, except: Option<Assumption>) {
    && IsRun(START, acts) && RunFrom(START, acts) == sys
    && forall asm, k, id :: Some(asm) != except ==> RunHolds(asm, START, acts, k, id)
  }

  ghost predicate Keeps(sys: System, a: Action, except: Option<Assumption>) {
    Enabled(sys, a) && forall asm, k, id :: Some(asm) != except ==> Holds(asm, sys, a, k, id)
  }

  lemma Go(acts: seq<Action>, sys: System, a: Action, except: Option<Assumption>) returns (more: seq<Action>)
    requires Reached(acts, sys, except) && Keeps(sys, a, except)
    ensures Reached(more, Do(sys, a), except)
  {
    more := acts + [a];
    ExtendRun(START, acts, a);
    assert more[..|acts|] == acts;
    forall asm, k, id | Some(asm) != except ensures RunHolds(asm, START, more, k, id) {
      assert RunHolds(asm, START, acts, k, id) && Holds(asm, sys, a, k, id);
    }
  }

  lemma OrderlyInv(acts: seq<Action>, sys: System)
    requires Reached(acts, sys, None)
    ensures forall k, id :: Inv(sys, k, id)
    ensures forall k, id :: k in sys.listed && Connected(sys.server.peers, k) ==> Agrees(sys, k, id)
  {
    forall k, id
      ensures Inv(sys, k, id)
      ensures k in sys.listed && Connected(sys.server.peers, k) ==> Agrees(sys, k, id)
    {
      assert forall asm: Assumption :: Some(asm) != None;
      assert OrderlyRun(START, acts, k, id);
      RunKeepsInv(START, acts, k, id);
      if k in sys.listed && Connected(sys.server.peers, k) {
        ClientsConverge(START, acts, k, id);
      }
    }
  }

  function Peer(k: Conn): Entry {
    Entry(k, INFO, 0, true)
  }

  /** All of the state but the connections and views. */
  ghost predicate At(sys: System, peers: Registry, pending: seq<Task>, spawned: nat,
                     snapshots: map<Conn, Snapshot>, listed: set<Conn>)
  {
    && sys.server.peers == peers && sys.server.pending == pending && sys.server.spawned == spawned
    && sys.snapshots == snapshots && sys.listed == listed && sys.now == 0
  }

  /** run leads from base to sys. */
  ghost predicate From(base: System, run: seq<Action>, sys: System) {
    IsRun(base, run) && RunFrom(base, run) == sys
  }

  /** One more step, on the run from the start and on its part since base. */
  lemma GoOn(acts: seq<Action>, sys: System, a: Action, except: Option<Assumption>, base: System, run: seq<Action>)
    returns (more: seq<Action>)
    requires Reached(acts, sys, except) && Keeps(sys, a, except) && From(base, run, sys)
    ensures Reached(more, Do(sys, a), except) && From(base, run + [a], Do(sys, a))
  {
    more := Go(acts, sys, a, except);
    ExtendRun(base, run, a);
  }

  lemma GoRegister(acts: seq<Action>, sys: System, k: Conn, id: Id, except: Option<Assumption>,
                   base: System, run: seq<Action>)
    returns (more: seq<Action>, sys': System)
    requires Reached(acts, sys, except) && From(base, run, sys) && sys.now == 0
    ensures Reached(more, sys', except) && From(base, run + [DoRegister(k, id, INFO)], sys')
    ensures At(sys', sys.server.peers[id := Peer(k)],
               sys.server.pending + [Task(sys.server.spawned, PeerJoined(id, INFO), Some(k))],
               sys.server.spawned + 1, sys.snapshots - {k}, sys.listed - {k})
    ensures sys'.views == sys.views && sys'.server.wires == sys.server.wires
  {
    more := GoOn(acts, sys, DoRegister(k, id, INFO), except, base, run);
    sys' := Do(sys, DoRegister(k, id, INFO));
  }

  lemma GoSnapshot(acts: seq<Action>, sys: System, k: Conn, except: Option<Assumption>,
                   base: System, run: seq<Action>)
    returns (more: seq<Action>, sys': System)
    requires Reached(acts, sys, except) && From(base, run, sys)
    ensures Reached(more, sys', except) && From(base, run + [DoSnapshot(k)], sys')
    ensures sys' == sys.(snapshots := sys.snapshots[k := Snapshot(sys.server.spawned, OnlineInfos(sys.server.peers))])
  {
    more := GoOn(acts, sys, DoSnapshot(k), except, base, run);
    sys' := Do(sys, DoSnapshot(k));
  }

  lemma GoWriteList(acts: seq<Action>, sys: System, k: Conn, except: Option<Assumption>,
                    base: System, run: seq<Action>)
    returns (more: seq<Action>, sys': System)
    requires Reached(acts, sys, except) && From(base, run, sys) && k in sys.snapshots && sys.now == 0
    ensures Reached(more, sys', except) && From(base, run + [DoWriteList(k)], sys')
    ensures At(sys', sys.server.peers, sys.server.pending, sys.server.spawned, sys.snapshots - {k}, sys.listed + {k})
    ensures sys'.views == sys.views
    ensures forall c :: c != k ==> Wire(sys'.server.wires, c) == Wire(sys.server.wires, c)
  {
    more := GoOn(acts, sys, DoWriteList(k), except, base, run);
    sys' := Do(sys, DoWriteList(k));
  }

  /** Takes and writes a list with nothing in between. */
  lemma GoList(acts: seq<Action>, sys: System, k: Conn, except: Option<Assumption>, base: System, run: seq<Action>)
    returns (more: seq<Action>, sys': System)
    requires Reached(acts, sys, except) && From(base, run, sys) && sys.now == 0
    ensures Reached(more, sys', except) && From(base, run + [DoSnapshot(k), DoWriteList(k)], sys')
    ensures At(sys', sys.server.peers, sys.server.pending, sys.server.spawned, sys.snapshots - {k}, sys.listed + {k})
    ensures sys'.views == sys.views
    ensures forall c :: c != k ==> Wire(sys'.server.wires, c) == Wire(sys.server.wires, c)
  {
    more, sys' := GoSnapshot(acts, sys, k, except, base, run);
    var taken := sys'.snapshots;
    more, sys' := GoWriteList(more, sys', k, except, base, run + [DoSnapshot(k)]);
    assert run + [DoSnapshot(k)] + [DoWriteList(k)] == run + [DoSnapshot(k), DoWriteList(k)];
    assert taken - {k} == sys.snapshots - {k};
  }

  lemma GoBroadcast(acts: seq<Action>, sys: System, i: nat, except: Option<Assumption>,
                    base: System, run: seq<Action>)
    returns (more: seq<Action>, sys': System)
    requires Reached(acts, sys, except) && From(base, run, sys) && sys.now == 0
    requires Keeps(sys, DoBroadcast(i, {}), except)
    ensures Reached(more, sys', except) && From(base, run + [DoBroadcast(i, {})], sys')
    ensures At(sys', sys.server.peers, Without(sys.server.pending, i), sys.server.spawned, sys.snapshots, sys.listed)
    ensures sys'.views == sys.views
  {
    more := GoOn(acts, sys, DoBroadcast(i, {}), except, base, run);
    sys' := Do(sys, DoBroadcast(i, {}));
  }

  lemma GoClose(acts: seq<Action>, sys: System, k: Conn, id: Id) returns (more: seq<Action>, sys': System)
    requires Reached(acts, sys, None) && sys.now == 0
    requires id in sys.server.peers && sys.server.peers[id].conn == k && id != ""
    ensures Reached(more, sys', None)
    ensures At(sys', sys.server.peers - {id}, sys.server.pending + [Task(sys.server.spawned, PeerLeft(id), None)],
               sys.server.spawned + 1, sys.snapshots, sys.listed)
  {
    more := Go(acts, sys, DoClose(k, Some(id)), None);
    sys' := Do(sys, DoClose(k, Some(id)));
  }

  /** The client a on connection 1 registers, gets its list and is announced. */
  lemma FirstClient() returns (acts: seq<Action>, sys: System)
    ensures Reached(acts, sys, None)
    ensures At(sys, map["a" := Peer(1)], [], 1, map[], {1})
  {
    acts, sys := [], START;
    acts, sys := GoRegister(acts, sys, 1, "a", None, sys, []);
    acts, sys := GoList(acts, sys, 1, None, sys, []);
    assert sys.snapshots == map[] && sys.listed == {1};
    acts, sys := GoBroadcast(acts, sys, 0, None, sys, []);
  }

  lemma FirstClientKnows(acts: seq<Action>, sys: System)
    requires Reached(acts, sys, None) && At(sys, map["a" := Peer(1)], [], 1, map[], {1})
    ensures StatusAfter(ViewOf(sys, 1), Wire(sys.server.wires, 1), "b") == None
  {
    OrderlyInv(acts, sys);
    assert sys.server.peers["a"].conn == 1;
    AgreesIff(sys, 1, "b");
  }

  /** Then b registers on connection 2 and gets its list; its peer_joined is still owed. */
  lemma SecondPeer() returns (acts: seq<Action>, sys: System)
    ensures Reached(acts, sys, None)
    ensures At(sys, map["a" := Peer(1), "b" := Peer(2)], [Task(1, PeerJoined("b", INFO), Some(2))], 2, map[], {1, 2})
    ensures StatusAfter(ViewOf(sys, 1), Wire(sys.server.wires, 1), "b") == None
  {
    acts, sys := FirstClient();
    FirstClientKnows(acts, sys);
    acts, sys := GoRegister(acts, sys, 2, "b", None, sys, []);
    acts, sys := GoList(acts, sys, 2, None, sys, []);
    assert sys.snapshots == map[] && sys.listed == {1, 2};
  }

  /** And b is announced. */
  lemma SecondPeerAnnounced() returns (acts: seq<Action>, sys: System)
    ensures Reached(acts, sys, None)
    ensures At(sys, map["a" := Peer(1), "b" := Peer(2)], [], 2, map[], {1, 2})
  {
    acts, sys := SecondPeer();
    acts, sys := GoBroadcast(acts, sys, 0, None, sys, []);
  }

  lemma Weaken(acts: seq<Action>, sys: System, asm: Assumption)
    requires Reached(acts, sys, None)
    ensures Reached(acts, sys, Some(asm))
  {
    assert forall o: Assumption :: Some(o) != None;
  }

  // ---------- The five runs ----------

  /** b's list cannot be written, so b is never announced. */
  lemma ListsWrittenIsNeeded() returns (acts: seq<Action>, sys: System)
    ensures Reached(acts, sys, Some(ListsWritten)) && Diverged(sys, 1, "b")
  {
    acts, sys := FirstClient();
    FirstClientKnows(acts, sys);
    Weaken(acts, sys, ListsWritten);
    acts, sys := GoRegister(acts, sys, 2, "b", Some(ListsWritten), sys, []);
    acts, sys := GoSnapshot(acts, sys, 2, Some(ListsWritten), sys, []);
    acts, sys := GoFailList(acts, sys, 2, 0);
    assert sys.server.peers["a"].conn == 1;
    AgreesIff(sys, 1, "b");
  }

  lemma GoFailList(acts: seq<Action>, sys: System, k: Conn, i: nat) returns (more: seq<Action>, sys': System)
    requires Reached(acts, sys, Some(ListsWritten))
    requires k in sys.snapshots && i < |sys.server.pending| && sys.server.pending[i].handler == Some(k)
    ensures Reached(more, sys', Some(ListsWritten))
    ensures sys' == sys.(server := sys.server.(pending := Without(sys.server.pending, i)),
                         snapshots := sys.snapshots - {k})
  {
    more := Go(acts, sys, DoFailList(k, i), Some(ListsWritten));
    sys' := Do(sys, DoFailList(k, i));
  }

  /** The peer_joined of b cannot be written to a's connection. */
  lemma BroadcastsWrittenIsNeeded() returns (acts: seq<Action>, sys: System)
    ensures Reached(acts, sys, Some(BroadcastsWritten)) && Diverged(sys, 1, "b")
  {
    acts, sys := SecondPeer();
    OrderlyInv(acts, sys);
    assert sys.server.peers["a"].conn == 1;
    assert HeldBy(sys.server.peers, OnlineIds(sys.server.peers) - {"a"}, 1) == {};
    FailedBroadcast(sys, 0, {"a"}, 1, "b");
    Weaken(acts, sys, BroadcastsWritten);
    acts := Go(acts, sys, DoBroadcast(0, {"a"}), Some(BroadcastsWritten));
    sys := Do(sys, DoBroadcast(0, {"a"}));
    assert sys.server.peers["a"].conn == 1;
  }

  /** A ping to b fails: the registry takes b for offline, a is not told. */
  lemma PingsWrittenIsNeeded() returns (acts: seq<Action>, sys: System)
    ensures Reached(acts, sys, Some(PingsWritten)) && Diverged(sys, 1, "b")
  {
    acts, sys := SecondPeerAnnounced();
    OrderlyInv(acts, sys);
    Weaken(acts, sys, PingsWritten);
    acts := PingFails(acts, sys);
    sys := Do(sys, DoHeartbeat({"b"}));
  }

  lemma PingFails(acts: seq<Action>, sys: System) returns (more: seq<Action>)
    requires Reached(acts, sys, Some(PingsWritten))
    requires At(sys, map["a" := Peer(1), "b" := Peer(2)], [], 2, map[], {1, 2})
    requires Connected(sys.server.peers, 1) ==> Agrees(sys, 1, "b")
    ensures Reached(more, Do(sys, DoHeartbeat({"b"})), Some(PingsWritten))
    ensures Diverged(Do(sys, DoHeartbeat({"b"})), 1, "b")
  {
    PingDiverges(sys);
    more := GoPing(acts, sys, {"b"});
  }

  lemma GoPing(acts: seq<Action>, sys: System, failed: set<Id>) returns (more: seq<Action>)
    requires Reached(acts, sys, Some(PingsWritten)) && Enabled(sys, DoHeartbeat(failed))
    ensures Reached(more, Do(sys, DoHeartbeat(failed)), Some(PingsWritten))
  {
    more := Go(acts, sys, DoHeartbeat(failed), Some(PingsWritten));
  }

  lemma PingDiverges(sys: System)
    requires At(sys, map["a" := Peer(1), "b" := Peer(2)], [], 2, map[], {1, 2})
    requires Connected(sys.server.peers, 1) ==> Agrees(sys, 1, "b")
    ensures Enabled(sys, DoHeartbeat({"b"})) && Diverged(Do(sys, DoHeartbeat({"b"})), 1, "b")
  {
    assert sys.server.peers["a"].conn == 1;
    assert "b" in OnlineIds(sys.server.peers);
    FailedHeartbeat(sys, 1, "b", {"b"});
    assert Do(sys, DoHeartbeat({"b"})).server.peers["a"].conn == 1;
  }

  /** b's connection closes and b comes back on connection 3; its new peer_joined is sent before
      the peer_left that is still owed. */
  lemma BroadcastsInOrderIsNeeded() returns (acts: seq<Action>, sys: System)
    ensures Reached(acts, sys, Some(BroadcastsInOrder)) && Diverged(sys, 1, "b")
  {
    acts, sys := BackOnAnotherConnection();
    OrderlyInv(acts, sys);
    Weaken(acts, sys, BroadcastsInOrder);
    assert Inv(sys, 1, "b");
    ghost var base := sys;
    acts, sys := GoBroadcast(acts, sys, 1, Some(BroadcastsInOrder), base, []);
    assert sys.server.pending == [Task(2, PeerLeft("b"), None)];
    acts, sys := GoBroadcast(acts, sys, 0, Some(BroadcastsInOrder), base, [DoBroadcast(1, {})]);
    SwappedPair(base, [DoBroadcast(1, {}), DoBroadcast(0, {})]);
    assert sys.server.peers["a"].conn == 1;
  }

  lemma BackOnAnotherConnection() returns (acts: seq<Action>, sys: System)
    ensures Reached(acts, sys, None)
    ensures At(sys, map["a" := Peer(1), "b" := Peer(3)],
               [Task(2, PeerLeft("b"), None), Task(3, PeerJoined("b", INFO), Some(3))], 4, map[], {1, 2, 3})
  {
    acts, sys := SecondPeerAnnounced();
    acts, sys := GoClose(acts, sys, 2, "b");
    acts, sys := GoRegister(acts, sys, 3, "b", None, sys, []);
    acts, sys := GoList(acts, sys, 3, None, sys, []);
    assert sys.snapshots == map[] && sys.listed == {1, 2, 3};
    assert sys.server.peers == map["a" := Peer(1), "b" := Peer(3)];
  }

  lemma SwappedPair(sys: System, swapped: seq<Action>)
    requires swapped == [DoBroadcast(1, {}), DoBroadcast(0, {})] && IsRun(sys, swapped)
    requires At(sys, map["a" := Peer(1), "b" := Peer(3)],
                [Task(2, PeerLeft("b"), None), Task(3, PeerJoined("b", INFO), Some(3))], 4, map[], {1, 2, 3})
    requires PendingAgrees(sys.server, "b") && RunFrom(sys, swapped).server.pending == []
    ensures !Agrees(RunFrom(sys, swapped), 1, "b")
  {
    var left, joined := PeerLeft("b"), PeerJoined("b", INFO);
    SentBySwap(sys, swapped);
    assert "a" in HeldBy(sys.server.peers, OnlineIds(sys.server.peers), 1);
    assert [joined] + [left] == [joined, left] && Msgs(sys.server.pending) == [left] + [joined];
    LastAboutConcat([joined], [left], "b");
    LastAboutConcat([left], [joined], "b");
    LastAboutOne(left, "b");
    LastAboutOne(joined, "b");
    AnySendingOrder(sys, swapped, 1, "b");
  }

  lemma SentBySwap(sys: System, swapped: seq<Action>)
    requires swapped == [DoBroadcast(1, {}), DoBroadcast(0, {})] && IsRun(sys, swapped)
    requires |sys.server.pending| == 2
    ensures Sent(sys, swapped) == [sys.server.pending[1].msg, sys.server.pending[0].msg]
  {
    var one := swapped[..1];
    assert one == [DoBroadcast(1, {})] && one[..0] == [];
    assert RunFrom(sys, one) == Do(sys, DoBroadcast(1, {}));
    assert Sent(sys, one) == Sent(sys, one[..0]) + [sys.server.pending[1].msg];
    assert RunFrom(sys, one).server.pending == [sys.server.pending[0]];
  }

  /** a's list is taken, b registers and is announced, and only then a's list is written. */
  lemma ListsBeforeNewsIsNeeded() returns (acts: seq<Action>, sys: System)
    ensures Reached(acts, sys, Some(ListsBeforeNews)) && Diverged(sys, 1, "b")
  {
    acts, sys := AnnouncedMeanwhile();
    ghost var before := sys;
    acts := Go(acts, sys, DoBroadcast(0, {}), Some(ListsBeforeNews));
    sys := Do(sys, DoBroadcast(0, {}));
    AfterBroadcast(before, 0, {}, 1, "b");
    LastAboutOne(PeerJoined("a", INFO), "b");
    assert Msgs(before.server.pending) == [PeerJoined("a", INFO)] && Msgs(sys.server.pending) == [];
    AgreesIff(before, 1, "b");
    AgreesIff(sys, 1, "b");
    assert sys.server.peers["a"].conn == 1;
  }

  lemma AnnouncedMeanwhile() returns (acts: seq<Action>, sys: System)
    ensures Reached(acts, sys, Some(ListsBeforeNews))
    ensures At(sys, map["a" := Peer(1), "b" := Peer(2)], [Task(0, PeerJoined("a", INFO), Some(1))], 2, map[], {1, 2})
    ensures !Agrees(sys, 1, "b")
  {
    ghost var x := Some(ListsBeforeNews);
    acts, sys := [], START;
    acts, sys := GoRegister(acts, sys, 1, "a", x, sys, []);
    ghost var sys0 := sys;
    acts, sys := GoSnapshot(acts, sys, 1, x, sys, []);
    ghost var run: seq<Action>;
    acts, sys, run := Announce(acts, sys);
    LateForA(sys0, run, sys);
    acts, sys := GoLateList(acts, sys);
  }

  lemma GoLateList(acts: seq<Action>, sys: System) returns (more: seq<Action>, sys': System)
    requires Reached(acts, sys, Some(ListsBeforeNews)) && sys.now == 0
    requires 1 in sys.snapshots && !Agrees(Do(sys, DoWriteList(1)), 1, "b")
    ensures Reached(more, sys', Some(ListsBeforeNews)) && !Agrees(sys', 1, "b")
    ensures At(sys', sys.server.peers, sys.server.pending, sys.server.spawned, sys.snapshots - {1}, sys.listed + {1})
  {
    more := Go(acts, sys, DoWriteList(1), Some(ListsBeforeNews));
    sys' := Do(sys, DoWriteList(1));
  }

  /** b's whole registration, announcement included. */
  lemma Announce(acts0: seq<Action>, taken: System) returns (acts: seq<Action>, sys: System, run: seq<Action>)
    requires Reached(acts0, taken, Some(ListsBeforeNews))
    requires taken.snapshots.Keys == {1} && taken.listed == {} && taken.now == 0 && taken.server.spawned == 1
    requires taken.server.peers == map["a" := Peer(1)]
    requires taken.server.pending == [Task(0, PeerJoined("a", INFO), Some(1))]
    ensures Reached(acts, sys, Some(ListsBeforeNews)) && From(taken, run, sys)
    ensures LeavesList(run, 1) && NoPings(run) && sys.snapshots == taken.snapshots
    ensures At(sys, map["a" := Peer(1), "b" := Peer(2)], taken.server.pending, 2, taken.snapshots, {2})
  {
    acts, sys, run := JoinMeanwhile(acts0, taken);
    NewsKeeps(sys);
    acts, sys := GoBroadcast(acts, sys, 1, Some(ListsBeforeNews), taken, run);
    run := run + [DoBroadcast(1, {})];
  }

  lemma JoinMeanwhile(acts0: seq<Action>, taken: System)
    returns (acts: seq<Action>, sys: System, run: seq<Action>)
    requires Reached(acts0, taken, Some(ListsBeforeNews))
    requires taken.snapshots.Keys == {1} && taken.listed == {} && taken.now == 0 && taken.server.spawned == 1
    requires taken.server.pending == [Task(0, PeerJoined("a", INFO), Some(1))]
    ensures Reached(acts, sys, Some(ListsBeforeNews)) && From(taken, run, sys)
    ensures LeavesList(run, 1) && NoPings(run)
    ensures At(sys, taken.server.peers["b" := Peer(2)],
               [Task(0, PeerJoined("a", INFO), Some(1)), Task(1, PeerJoined("b", INFO), Some(2))], 2,
               taken.snapshots, {2})
  {
    ghost var x := Some(ListsBeforeNews);
    acts, sys := GoRegister(acts0, taken, 2, "b", x, taken, []);
    acts, sys := GoList(acts, sys, 2, x, taken, [DoRegister(2, "b", INFO)]);
    run := [DoRegister(2, "b", INFO)] + [DoSnapshot(2), DoWriteList(2)];
    assert sys.snapshots == taken.snapshots;
  }

  lemma NewsKeeps(sys: System)
    requires sys.server.pending == [Task(0, PeerJoined("a", INFO), Some(1)), Task(1, PeerJoined("b", INFO), Some(2))]
    ensures Keeps(sys, DoBroadcast(1, {}), Some(ListsBeforeNews))
  {
  }

  predicate NoPings(acts: seq<Action>) {
    forall i :: 0 <= i < |acts| ==> !acts[i].DoHeartbeat?
  }

  lemma LateForA(sys0: System, run: seq<Action>, sys: System)
    requires At(sys0, map["a" := Peer(1)], [Task(0, PeerJoined("a", INFO), Some(1))], 1, map[], {})
    requires LeavesList(run, 1) && NoPings(run) && From(Do(sys0, DoSnapshot(1)), run, sys)
    requires "b" in sys.server.peers && sys.server.peers["b"] == Peer(2)
    requires sys.server.pending == [Task(0, PeerJoined("a", INFO), Some(1))]
    ensures 1 in sys.snapshots && !Agrees(Do(sys, DoWriteList(1)), 1, "b")
  {
    var taken := Do(sys0, DoSnapshot(1));
    assert "a" in OnlineInfos(sys0.server.peers);
    assert taken.server == sys0.server;
    assert RunFrom(taken, run) == sys;
    NewsOfB(taken, run);
    LateList(sys0, run, 1, "b");
  }

  lemma NewsOfB(taken: System, run: seq<Action>)
    requires IsRun(taken, run) && Numbered(taken.server) && NoFailedPing(taken, run)
    requires RegStatus(taken.server.peers, "b") == None
    requires RegStatus(RunFrom(taken, run).server.peers, "b") == Some(INFO)
    ensures var news := LastAbout(AllSpawned(taken, run), "b");
            news.Some? && Effect(news.value, "b") == Some(INFO)
  {
    SpawnedTellsAll(taken, run, "b");
  }

  /** Each assumption is needed: some run keeps all the others and ends with a client wrong. */
  lemma EachAssumptionIsNeeded(asm: Assumption) returns (acts: seq<Action>)
    ensures IsRun(START, acts)
    ensures forall other, k, id :: other != asm ==> RunHolds(other, START, acts, k, id)
    ensures Diverged(RunFrom(START, acts), 1, "b")
  {
    var sys: System;
    match asm
    case BroadcastsInOrder => acts, sys := BroadcastsInOrderIsNeeded();
    case ListsBeforeNews => acts, sys := ListsBeforeNewsIsNeeded();
    case ListsWritten => acts, sys := ListsWrittenIsNeeded();
    case BroadcastsWritten => acts, sys := BroadcastsWrittenIsNeeded();
    case PingsWritten => acts, sys := PingsWrittenIsNeeded();
  }

  // ---------- An empty list ----------

  lemma Extend(start: System, acts: seq<Action>, sys: System, a: Action) returns (more: seq<Action>, sys': System)
    requires From(start, acts, sys) && Enabled(sys, a)
    ensures From(start, more, sys') && sys' == Do(sys, a)
  {
    ExtendRun(start, acts, a);
    more, sys' := acts + [a], Do(sys, a);
  }

  /** A client reconnects with the view of an earlier connection, its ping fails, and its list is
      taken of a registry with nobody online: it goes on taking a peer for online that the
      registry does not know, with nothing left on its connection. */
  lemma EmptyListKeepsOldView(start: System, id: Id, info: Info) returns (acts: seq<Action>, sys: System)
    requires IsStart(start) && Status(ViewOf(start, 1), id) == Some(info) && id != "a"
    ensures From(start, acts, sys)
    ensures 1 in sys.listed && Wire(sys.server.wires, 1) == []
    ensures Status(ViewOf(sys, 1), id) == Some(info) && RegStatus(sys.server.peers, id) == None
  {
    acts, sys := Extend(start, [], start, DoRegister(1, "a", INFO));
    assert sys.server.peers == map["a" := Peer(1)] && OnlineIds(sys.server.peers) == {"a"};
    OnlyPingFails(sys.server);
    acts, sys := Extend(start, acts, sys, DoHeartbeat({"a"}));
    acts, sys := Extend(start, acts, sys, DoSnapshot(1));
    assert sys.snapshots[1].peers == map[];
    acts, sys := ReceiveEmptyList(start, acts, sys);
  }

  lemma OnlyPingFails(s: ServerState)
    requires s.peers == map["a" := Peer(1)]
    ensures var s' := Heartbeat(s, {"a"});
            s'.peers == map["a" := Peer(1).(isOnline := false)] && Wire(s'.wires, 1) == Wire(s.wires, 1)
  {
    assert HeldBy(s.peers, OnlineIds(s.peers) - {"a"}, 1) == {};
  }

  lemma ReceiveEmptyList(start: System, acts: seq<Action>, taken: System) returns (more: seq<Action>, sys: System)
    requires From(start, acts, taken) && 1 in taken.snapshots && taken.snapshots[1].peers == map[]
    requires Wire(taken.server.wires, 1) == []
    ensures From(start, more, sys) && 1 in sys.listed && Wire(sys.server.wires, 1) == []
    ensures ViewOf(sys, 1) == ViewOf(taken, 1) && sys.server.peers == taken.server.peers
  {
    more, sys := Extend(start, acts, taken, DoWriteList(1));
    assert Wire(sys.server.wires, 1) == [PeerList(map[])];
    more, sys := Extend(start, more, sys, DoReceive(1, 0));
  }
}
