/** The discovery server's handlers on mutable state, each proved to be a step of Discovery. */
module DiscoveryServer {
  import opened Bytes
  import opened Discovery
  import opened Convergence

  /** What handleRegister leaves when no other goroutine gets in between is what its four steps
      leave: register, take the list, write the list, broadcast its own peer_joined. */
  lemma {:induction false} HandlerIsFourSteps(sys: System, k: Conn, id: Id, info: Info, failed: set<Id>)
    ensures var s := Register(sys.server, sys.now, k, id, info);
            var listed := Do(Do(Do(sys, DoRegister(k, id, info)), DoSnapshot(k)), DoWriteList(k));
            Do(listed, DoBroadcast(|sys.server.pending|, failed)).server ==
            Broadcast(WriteTo(s, k, PeerList(OnlineInfos(s.peers))).(pending := sys.server.pending),
                      PeerJoined(id, info), failed)
    ensures var s := Register(sys.server, sys.now, k, id, info);
            var taken := Do(Do(sys, DoRegister(k, id, info)), DoSnapshot(k));
            Do(taken, DoFailList(k, |sys.server.pending|)).server == s.(pending := sys.server.pending)
  {
    var s := Register(sys.server, sys.now, k, id, info);
    assert Without(s.pending, |sys.server.pending|) == sys.server.pending;
  }

  // ---------- Sending to a set of peers, one at a time ----------

  lemma SendToNobody(peers: Registry, wires: map<Conn, seq<Msg>>, m: Msg)
    ensures SendTo(peers, {}, wires, m) == wires
  {
    var sent := SendTo(peers, {}, wires, m);
    assert ConnsOf(peers, {}) == {};
    forall k | k in wires ensures sent[k] == wires[k] {
      assert HeldBy(peers, {}, k) == {};
    }
  }

  lemma SendToOneMore(peers: Registry, ids: set<Id>, id: Id, wires: map<Conn, seq<Msg>>, m: Msg)
    requires id in peers && id !in ids
    ensures SendTo(peers, ids + {id}, wires, m) == Put(SendTo(peers, ids, wires, m), peers[id].conn, m)
  {
    var c, more := peers[id].conn, ids + {id};
    var sent, sent' := SendTo(peers, ids, wires, m), SendTo(peers, more, wires, m);
    assert ConnsOf(peers, more) == ConnsOf(peers, ids) + {c};
    assert sent'.Keys == Put(sent, c, m).Keys;
    forall k ensures Wire(sent', k) == Wire(Put(sent, c, m), k) {
      OneMoreAt(peers, ids, id, wires, m, k);
    }
    SameWires(sent', Put(sent, c, m));
  }

  lemma SameWires(a: map<Conn, seq<Msg>>, b: map<Conn, seq<Msg>>)
    requires a.Keys == b.Keys && forall k :: Wire(a, k) == Wire(b, k)
    ensures a == b
  {
    forall k | k in a ensures a[k] == b[k] {
      assert Wire(a, k) == Wire(b, k);
    }
  }

  lemma OneMoreAt(peers: Registry, ids: set<Id>, id: Id, wires: map<Conn, seq<Msg>>, m: Msg, k: Conn)
    requires id in peers && id !in ids
    ensures Wire(SendTo(peers, ids + {id}, wires, m), k) ==
            Wire(SendTo(peers, ids, wires, m), k) + if k == peers[id].conn then [m] else []
  {
    SendToAt(peers, ids, wires, m, k);
    SendToAt(peers, ids + {id}, wires, m, k);
    OneMoreHeld(peers, ids, id, k);
    if k == peers[id].conn {
      OneMoreCopy(Wire(wires, k), m, |HeldBy(peers, ids, k)|);
    }
  }

  lemma OneMoreHeld(peers: Registry, ids: set<Id>, id: Id, k: Conn)
    requires id in peers && id !in ids
    ensures |HeldBy(peers, ids + {id}, k)| == |HeldBy(peers, ids, k)| + if peers[id].conn == k then 1 else 0
  {
    assert HeldBy(peers, ids + {id}, k) == HeldBy(peers, ids, k) + if peers[id].conn == k then {id} else {};
  }

  lemma OneMoreCopy(w: seq<Msg>, m: Msg, n: nat)
    ensures w + Copies(m, n + 1) == w + Copies(m, n) + [m]
  {
  }

  lemma SendToAt(peers: Registry, ids: set<Id>, wires: map<Conn, seq<Msg>>, m: Msg, k: Conn)
    ensures Wire(SendTo(peers, ids, wires, m), k) == Wire(wires, k) + Copies(m, |HeldBy(peers, ids, k)|)
  {
    if k !in ConnsOf(peers, ids) {
      NobodyHolds(peers, ids, k);
      assert Wire(wires, k) + [] == Wire(wires, k);
    }
  }

  lemma NobodyHolds(peers: Registry, ids: set<Id>, c: Conn)
    requires c !in ConnsOf(peers, ids)
    ensures HeldBy(peers, ids, c) == {}
  {
  }

  lemma CleanupNothing(s: ServerState)
    ensures Cleanup(s, []) == s
  {
    assert Elements([]) == {} && Lefts([]) == [] && s.peers - {} == s.peers;
  }

  lemma AddElement(order: seq<Id>, id: Id)
    requires NoDuplicates(order) && id !in Elements(order)
    ensures NoDuplicates(order + [id]) && Elements(order + [id]) == Elements(order) + {id}
  {
  }

  lemma OneMoreOffline(peers: Registry, ids: set<Id>, id: Id)
    requires id in peers
    ensures TakeOffline(peers, ids + {id}) == TakeOffline(peers, ids)[id := peers[id].(isOnline := false)]
  {
  }

  class Server {
    var peers: Registry
    var pending: seq<Task>
    var spawned: nat
    var wires: map<Conn, seq<Msg>>

    ghost function State(): ServerState
      reads this
    {
      ServerState(peers, pending, spawned, wires)
    }

    constructor ()
      ensures State() == START.server
    {
      peers, pending, spawned, wires := map[], [], 0, map[];
    }

    /** go s.broadcastPeerLeft(id), or the broadcast a registering goroutine has yet to make */
    method Owe(m: Msg, handler: Option<Conn>)
      modifies this
      ensures State() == Spawn(old(State()), m, handler)
    {
      pending := pending + [Task(spawned, m, handler)];
      spawned := spawned + 1;
    }

    /** The critical section of handleRegister. */
    method AddPeer(now: int, k: Conn, id: Id, info: Info)
      modifies this
      ensures State() == Register(old(State()), now, k, id, info)
    {
      peers := peers[id := Entry(k, info, now, true)];
      Owe(PeerJoined(id, info), Some(k));
    }

    /** fails tells whether the write fails. */
    method SendPeerList(k: Conn, fails: bool) returns (ok: bool)
      modifies this
      ensures ok <==> !fails
      ensures State() == if ok then WriteTo(old(State()), k, PeerList(OnlineInfos(peers))) else old(State())
    {
      var list: map<Id, Info> := map[];
      var todo := peers.Keys;
      while todo != {}
        invariant todo <= peers.Keys
        invariant list == map id | id in OnlineInfos(peers) && id !in todo :: peers[id].info
      {
        var id :| id in todo;
        todo := todo - {id};
        if peers[id].isOnline {
          list := list[id := peers[id].info];
        }
      }
      assert list == OnlineInfos(peers);
      if fails {
        return false;
      }
      wires := Put(wires, k, PeerList(list));
      return true;
    }

    /** fails holds the peers whose write fails; it is logged and the others still get theirs. */
    method BroadcastMessage(m: Msg, fails: set<Id>)
      modifies this
      ensures State() == Broadcast(old(State()), m, fails)
    {
      ghost var was, ids := wires, OnlineIds(peers) - fails;
      var todo := peers.Keys;
      SendToNobody(peers, wires, m);
      assert ids - todo == {};
      while todo != {}
        invariant todo <= peers.Keys && peers == old(peers) && pending == old(pending) && spawned == old(spawned)
        invariant wires == SendTo(peers, ids - todo, was, m)
      {
        var id :| id in todo;
        ghost var sent := ids - todo;
        todo := todo - {id};
        if peers[id].isOnline && id !in fails {
          SendToOneMore(peers, sent, id, was, m);
          assert ids - todo == sent + {id};
          wires := Put(wires, peers[id].conn, m);
        } else {
          assert ids - todo == sent;
        }
      }
      assert ids - {} == ids;
    }

    /** The goroutine of an owed broadcast runs. */
    method RunTask(i: nat, fails: set<Id>)
      requires i < |pending|
      modifies this
      ensures State() == Broadcast(old(State()).(pending := Without(old(pending), i)), old(pending)[i].msg, fails)
    {
      var m := pending[i].msg;
      pending := Without(pending, i);
      BroadcastMessage(m, fails);
    }

    /** handleRegister with no other goroutine in between: it owes one broadcast and makes it,
        unless the payload is malformed or the list cannot be written. */
    method HandleRegister(now: int, k: Conn, peerID: Option<Id>, localIP: Option<string>, host: string,
                          listFails: bool, fails: set<Id>)
      returns (ok: bool)
      modifies this
      ensures ok <==> peerID.Some? && localIP.Some? && !listFails
      ensures peerID.None? || localIP.None? ==> State() == old(State())
      ensures peerID.Some? && localIP.Some? ==>
                var info := Info(host, localIP.value);
                var s := Register(old(State()), now, k, peerID.value, info).(pending := old(pending));
                State() == if listFails then s
                           else Broadcast(WriteTo(s, k, PeerList(OnlineInfos(s.peers))),
                                          PeerJoined(peerID.value, info), fails)
    {
      if peerID.None? {
        return false;
      }
      if localIP.None? {
        return false;
      }
      var own := |pending|;
      AddPeer(now, k, peerID.value, Info(host, localIP.value));
      assert Without(pending, own) == old(pending);
      var written := SendPeerList(k, listFails);
      if !written {
        pending := Without(pending, own);
        return false;
      }
      RunTask(own, fails);
      return true;
    }

    /** The first entry the iteration meets with this connection. */
    method FindByConn(k: Conn) returns (found: Option<Id>)
      ensures MayFind(peers, k, found)
    {
      var todo := peers.Keys;
      while todo != {}
        invariant todo <= peers.Keys
        invariant forall id :: id in peers && id !in todo ==> peers[id].conn != k
      {
        var id :| id in todo;
        if peers[id].conn == k {
          return Some(id);
        }
        todo := todo - {id};
      }
      return None;
    }

    method RemovePeer(k: Conn) returns (ghost found: Option<Id>)
      modifies this
      ensures MayFind(old(peers), k, found) && State() == Remove(old(State()), found)
    {
      var first := FindByConn(k);
      found := first;
      var peerID := first.GetOr("");
      if peerID != "" {
        peers := peers - {peerID};
        Owe(PeerLeft(peerID), None);
      }
    }

    method UpdatePeerLastSeen(now: int, k: Conn) returns (ghost found: Option<Id>)
      modifies this
      ensures MayFind(old(peers), k, found) && State() == Touch(old(State()), now, found)
    {
      var first := FindByConn(k);
      found := first;
      if first.Some? {
        peers := peers[first.value := peers[first.value].(lastSeen := now)];
      }
    }

    method CleanupDeadPeers(now: int) returns (ghost order: seq<Id>)
      modifies this
      ensures Enumerates(order, Dead(old(peers), now)) && State() == Cleanup(old(State()), order)
    {
      var deadPeers: seq<Id> := [];
      var todo := peers.Keys;
      while todo != {}
        invariant todo <= peers.Keys
        invariant State() == old(State())
        invariant NoDuplicates(deadPeers) && Elements(deadPeers) == Dead(peers, now) - todo
      {
        var id :| id in todo;
        todo := todo - {id};
        if now - peers[id].lastSeen > TIMEOUT {
          AddElement(deadPeers, id);
          deadPeers := deadPeers + [id];
        }
      }
      order := deadPeers;
      CleanupNothing(State());
      assert order[..0] == [];
      for i := 0 to |deadPeers|
        invariant State() == Cleanup(old(State()), order[..i])
      {
        CleanupByOne(old(State()), order[..i + 1]);
        assert order[..i + 1][..i] == order[..i];
        peers := peers - {deadPeers[i]};
        Owe(PeerLeft(deadPeers[i]), None);
      }
      assert order[..|order|] == order;
    }

    /** fails holds the peers whose ping cannot be written. */
    method SendHeartbeats(fails: set<Id>)
      modifies this
      ensures State() == Heartbeat(old(State()), fails * OnlineIds(old(peers)))
    {
      ghost var was, wires0, failed := peers, wires, fails * OnlineIds(peers);
      ghost var ids := OnlineIds(was) - failed;
      var todo := peers.Keys;
      SendToNobody(peers, wires, Ping);
      assert ids - todo == {} && failed - todo == {};
      assert TakeOffline(was, {}) == was;
      while todo != {}
        invariant todo <= peers.Keys == was.Keys && pending == old(pending) && spawned == old(spawned)
        invariant wires == SendTo(was, ids - todo, wires0, Ping)
        invariant peers == TakeOffline(was, failed - todo)
      {
        var id :| id in todo;
        ghost var sent, lost := ids - todo, failed - todo;
        todo := todo - {id};
        if peers[id].isOnline {
          if id in fails {
            assert ids - todo == sent && failed - todo == lost + {id};
            OneMoreOffline(was, lost, id);
            peers := peers[id := peers[id].(isOnline := false)];
          } else {
            SendToOneMore(was, sent, id, wires0, Ping);
            assert ids - todo == sent + {id} && failed - todo == lost;
            wires := Put(wires, peers[id].conn, Ping);
          }
        } else {
          assert ids - todo == sent && failed - todo == lost;
        }
      }
      assert failed - {} == failed;
      assert ids - {} == ids;
    }
  }
}
