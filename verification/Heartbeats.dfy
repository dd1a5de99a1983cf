/** What each send puts on each connection, the ledger of pings, and why a client that answers
    its pings stays registered. */
module Heartbeats {
  import opened Bytes
  import opened Discovery
  import opened Convergence
  import opened Spawning
  import opened RegistryTheorems

  // ---------- Who gets a copy ----------

  /** The online entries that k holds and whose write does not fail. */
  function Recipients(peers: Registry, failed: set<Id>, k: Conn): set<Id> {
    set id | id in peers && peers[id].isOnline && peers[id].conn == k && id !in failed
  }

  /** w' is w with n copies of m behind it. */
  predicate Appends(w: seq<Msg>, w': seq<Msg>, m: Msg, n: nat) {
    |w'| == |w| + n && w'[..|w|] == w && forall i :: |w| <= i < |w'| ==> w'[i] == m
  }

  lemma {:induction false} CopiesAre(m: Msg, n: nat)
    ensures |Copies(m, n)| == n && forall i :: 0 <= i < n ==> Copies(m, n)[i] == m
  {
    if n > 0 {
      CopiesAre(m, n - 1);
    }
  }

  lemma SendAppends(peers: Registry, failed: set<Id>, wires: map<Conn, seq<Msg>>, m: Msg, k: Conn)
    ensures Appends(Wire(wires, k), Wire(SendTo(peers, OnlineIds(peers) - failed, wires, m), k), m,
                    |Recipients(peers, failed, k)|)
  {
    var ids := OnlineIds(peers) - failed;
    var held := HeldBy(peers, ids, k);
    assert held == Recipients(peers, failed, k);
    CopiesAre(m, |held|);
    if held != {} {
      var id :| id in held;
      assert k in ConnsOf(peers, ids);
    }
  }

  /** A broadcast puts one copy on k for every online entry k holds but the failed ones, behind
      what is already there, and touches nothing else. */
  lemma BroadcastDelivers(sys: System, i: nat, failed: set<Id>, k: Conn)
    requires Enabled(sys, DoBroadcast(i, failed))
    ensures var s, s' := sys.server, Do(sys, DoBroadcast(i, failed)).server;
            && Appends(Wire(s.wires, k), Wire(s'.wires, k), s.pending[i].msg, |Recipients(s.peers, failed, k)|)
            && s'.peers == s.peers
  {
    SendAppends(sys.server.peers, failed, sys.server.wires, sys.server.pending[i].msg, k);
  }

  /** A heartbeat puts one ping there for each, and takes exactly the failed entries offline. */
  lemma HeartbeatDelivers(sys: System, failed: set<Id>, k: Conn)
    requires Enabled(sys, DoHeartbeat(failed))
    ensures var s, s' := sys.server, Do(sys, DoHeartbeat(failed)).server;
            && Appends(Wire(s.wires, k), Wire(s'.wires, k), Ping, |Recipients(s.peers, failed, k)|)
            && s'.peers.Keys == s.peers.Keys
            && forall id :: id in s.peers ==>
                 s'.peers[id] == if id in failed then s.peers[id].(isOnline := false) else s.peers[id]
  {
    SendAppends(sys.server.peers, failed, sys.server.wires, Ping, k);
  }

  /** A list tells, of every peer, what the registry says when it is taken. */
  lemma ListTellsRegistry(sys: System, k: Conn, id: Id)
    ensures Effect(PeerList(Do(sys, DoSnapshot(k)).snapshots[k].peers), id) == RegStatus(sys.server.peers, id)
  {
  }

  /** Closing the connection of a peer that has it to itself ends the registration and no other;
      what is owed grows by its peer_left. The empty id is never removed. */
  lemma CloseEndsRegistration(sys: System, k: Conn, id: Id, found: Option<Id>)
    requires SoleEntry(sys.server.peers, k, id) && Enabled(sys, DoClose(k, found))
    ensures var s, s' := sys.server, Do(sys, DoClose(k, found)).server;
            if id == "" then s' == s
            else
              && s'.peers.Keys == s.peers.Keys - {id}
              && (forall x :: x in s'.peers ==> s'.peers[x] == s.peers[x])
              && Msgs(s'.pending) == Msgs(s.pending) + [PeerLeft(id)]
  {
    assert sys.server.peers[id].conn == k;
    assert found == Some(id);
  }

  // ---------- The ledger of pings ----------

  function Pings(ms: seq<Msg>): nat {
    if ms == [] then 0 else Pings(ms[..|ms| - 1]) + if ms[|ms| - 1] == Ping then 1 else 0
  }

  lemma {:induction false} PingsAppended(w: seq<Msg>, w': seq<Msg>, m: Msg, n: nat)
    requires Appends(w, w', m, n)
    ensures Pings(w') == Pings(w) + if m == Ping then n else 0
    decreases n
  {
    if n == 0 {
      assert w' == w;
    } else {
      assert w'[..|w'| - 1][..|w|] == w;
      PingsAppended(w, w'[..|w'| - 1], m, n - 1);
    }
  }

  lemma {:induction false} PingsWithout(w: seq<Msg>, i: nat)
    requires i < |w|
    ensures Pings(w) == Pings(Without(w, i)) + if w[i] == Ping then 1 else 0
    decreases |w|
  {
    var n := |w| - 1;
    if i == n {
      assert Without(w, i) == w[..n];
    } else {
      PingsWithout(w[..n], i);
      assert Without(w, i)[..n - 1] == Without(w[..n], i);
    }
  }

  /** Everything owed is a peer_joined or a peer_left. */
  predicate OwesNews(s: ServerState) {
    forall i :: 0 <= i < |s.pending| ==> IsDelta(s.pending[i].msg)
  }

  lemma {:induction false} SpawnAllOwes(s: ServerState, ms: seq<Msg>)
    requires OwesNews(s) && forall i :: 0 <= i < |ms| ==> IsDelta(ms[i])
    ensures OwesNews(SpawnAll(s, ms)) && SpawnAll(s, ms).wires == s.wires
  {
    if ms != [] {
      SpawnAllOwes(s, ms[..|ms| - 1]);
    }
  }

  lemma StepOwesNews(sys: System, a: Action)
    requires Enabled(sys, a) && OwesNews(sys.server)
    ensures OwesNews(Do(sys, a).server)
  {
    if a.DoCleanup? {
      SpawnAllOwes(sys.server.(peers := sys.server.peers - Elements(a.order)), Lefts(a.order));
    }
  }

  /** The step in which the client of k handles a ping. */
  predicate IsReceipt(sys: System, a: Action, k: Conn) {
    a.DoReceive? && a.k == k && a.i < |Wire(sys.server.wires, k)| && Wire(sys.server.wires, k)[a.i] == Ping
  }

  function PingsWritten(sys: System, a: Action, k: Conn): nat {
    if a.DoHeartbeat? then |Recipients(sys.server.peers, a.failed, k)| else 0
  }

  lemma StepPings(sys: System, a: Action, k: Conn)
    requires Enabled(sys, a) && OwesNews(sys.server)
    ensures Pings(Wire(Do(sys, a).server.wires, k)) + (if IsReceipt(sys, a, k) then 1 else 0)
         == Pings(Wire(sys.server.wires, k)) + PingsWritten(sys, a, k)
  {
    var s := sys.server;
    var w, w' := Wire(s.wires, k), Wire(Do(sys, a).server.wires, k);
    match a
    case DoHeartbeat(failed) =>
      HeartbeatDelivers(sys, failed, k);
      PingsAppended(w, w', Ping, |Recipients(s.peers, failed, k)|);
    case DoBroadcast(i, failed) =>
      BroadcastDelivers(sys, i, failed, k);
      PingsAppended(w, w', s.pending[i].msg, |Recipients(s.peers, failed, k)|);
    case DoWriteList(c) =>
      if c == k {
        PingsAppended(w, w', PeerList(sys.snapshots[k].peers), 1);
      }
    case DoReceive(c, i) =>
      if c == k {
        PingsWithout(w, i);
      }
    case DoCleanup(order) => SpawnAllOwes(s.(peers := s.peers - Elements(order)), Lefts(order));
    case _ =>
  }

  /** The pings a run writes to k. */
  ghost function Sent(sys: System, acts: seq<Action>, k: Conn): nat
    requires IsRun(sys, acts)
  {
    if acts == [] then 0
    else
      var n := |acts| - 1;
      Sent(sys, acts[..n], k) + PingsWritten(RunFrom(sys, acts[..n]), acts[n], k)
  }

  /** The pings its client handles. */
  ghost function Received(sys: System, acts: seq<Action>, k: Conn): nat
    requires IsRun(sys, acts)
  {
    if acts == [] then 0
    else
      var n := |acts| - 1;
      Received(sys, acts[..n], k) + if IsReceipt(RunFrom(sys, acts[..n]), acts[n], k) then 1 else 0
  }

  /** On every run the pings written to a connection are those handled and those still on it. */
  lemma {:induction false} PingLedger(sys: System, acts: seq<Action>, k: Conn)
    requires IsRun(sys, acts) && OwesNews(sys.server)
    ensures OwesNews(RunFrom(sys, acts).server)
    ensures Pings(Wire(RunFrom(sys, acts).server.wires, k)) + Received(sys, acts, k)
         == Pings(Wire(sys.server.wires, k)) + Sent(sys, acts, k)
    decreases |acts|
  {
    if acts != [] {
      var n := |acts| - 1;
      PingLedger(sys, acts[..n], k);
      StepPings(RunFrom(sys, acts[..n]), acts[n], k);
      StepOwesNews(RunFrom(sys, acts[..n]), acts[n]);
    }
  }

  // ---------- A client that answers stays ----------

  /** The pings that the client had handled when the server last heard from it. */
  ghost function Answered(sys: System, acts: seq<Action>, k: Conn): nat
    requires IsRun(sys, acts)
  {
    if acts == [] then 0
    else
      var n := |acts| - 1;
      if acts[n].DoTouch? && acts[n].k == k then Received(sys, acts[..n], k) else Answered(sys, acts[..n], k)
  }

  /** When the last heartbeat was whose pings, with all earlier ones, are among the first r
      written to k; the start of the run if there is none. */
  ghost function PingTime(sys: System, acts: seq<Action>, k: Conn, r: int): int
    requires IsRun(sys, acts)
  {
    if acts == [] then sys.now
    else
      var n := |acts| - 1;
      if acts[n].DoHeartbeat? && Sent(sys, acts, k) <= r then RunFrom(sys, acts[..n]).now
      else PingTime(sys, acts[..n], k, r)
  }

  /** The time of the last heartbeat that the client of k has answered. */
  ghost function AnsweredTime(sys: System, acts: seq<Action>, k: Conn): int
    requires IsRun(sys, acts)
  {
    PingTime(sys, acts, k, Answered(sys, acts, k) - Pings(Wire(sys.server.wires, k)))
  }

  /** The connection k uses one id, nobody else uses that id, it is not closed, no ping to it
      fails, and at each cleanup it has answered a heartbeat of the last two minutes. */
  ghost predicate Answering(sys: System, acts: seq<Action>, k: Conn, id: Id)
    requires IsRun(sys, acts)
  {
    acts == [] ||
    var n := |acts| - 1;
    && Answering(sys, acts[..n], k, id)
    && match acts[n]
       case DoRegister(c, x, _) => c == k <==> x == id
       case DoClose(c, _) => c != k
       case DoHeartbeat(failed) => id !in failed
       case DoCleanup(_) => RunFrom(sys, acts[..n]).now - AnsweredTime(sys, acts[..n], k) <= 120_000_000_000
       case _ => true
  }

  ghost predicate OnlineOn(peers: Registry, k: Conn, id: Id) {
    SoleEntry(peers, k, id) && peers[id].isOnline
  }

  lemma {:induction false} TimesPass(sys: System, acts: seq<Action>, k: Conn, id: Id, r: int)
    requires IsRun(sys, acts)
    ensures sys.now <= RunFrom(sys, acts).now
    ensures PingTime(sys, acts, k, r) <= RunFrom(sys, acts).now && LastHeard(sys, acts, k, id) <= RunFrom(sys, acts).now
    ensures Answered(sys, acts, k) <= Received(sys, acts, k)
    decreases |acts|
  {
    if acts != [] {
      var n := |acts| - 1;
      TimesPass(sys, acts[..n], k, id, r);
      TimeGrows(RunFrom(sys, acts[..n]), acts[n]);
    }
  }

  lemma TimeGrows(sys: System, a: Action)
    requires Enabled(sys, a)
    ensures Do(sys, a).now >= sys.now
  {
  }

  /** A heartbeat answered is a time heard: k's client handled the ping after it was written
      and the server heard from it after that. */
  lemma {:induction false} HeardSincePing(sys: System, acts: seq<Action>, k: Conn, id: Id, r: int)
    requires IsRun(sys, acts) && OwesNews(sys.server) && Reached(sys, acts, k, id)
    requires r <= Answered(sys, acts, k) - Pings(Wire(sys.server.wires, k))
    ensures LastHeard(sys, acts, k, id) >= PingTime(sys, acts, k, r)
    decreases |acts|
  {
    if acts != [] {
      var n := |acts| - 1;
      var before := RunFrom(sys, acts[..n]);
      TimesPass(sys, acts[..n], k, id, r);
      if acts[n].DoHeartbeat? {
        UnansweredYet(sys, acts, k, id);
      }
      if !(acts[n].DoTouch? && acts[n].k == k) {
        HeardSincePing(sys, acts[..n], k, id, r);
      }
    }
  }

  /** Every heartbeat of the run reaches k. */
  ghost predicate Reached(sys: System, acts: seq<Action>, k: Conn, id: Id)
    requires IsRun(sys, acts)
  {
    acts == [] ||
    var n := |acts| - 1;
    && Reached(sys, acts[..n], k, id)
    && (acts[n].DoHeartbeat? ==> OnlineOn(RunFrom(sys, acts[..n]).server.peers, k, id) && id !in acts[n].failed)
  }

  /** Right after a heartbeat its ping is still on the connection. */
  lemma UnansweredYet(sys: System, acts: seq<Action>, k: Conn, id: Id)
    requires IsRun(sys, acts) && OwesNews(sys.server) && Reached(sys, acts, k, id)
    requires acts != [] && acts[|acts| - 1].DoHeartbeat?
    ensures Sent(sys, acts, k) > Answered(sys, acts, k) - Pings(Wire(sys.server.wires, k))
  {
    var n := |acts| - 1;
    var before := RunFrom(sys, acts[..n]);
    PingLedger(sys, acts[..n], k);
    TimesPass(sys, acts[..n], k, id, 0);
    assert before.server.peers[id].conn == k;
    assert id in Recipients(before.server.peers, acts[n].failed, k);
  }

  /** On every run, a peer that keeps answering its pings is never evicted: at each cleanup, a
      heartbeat it has answered is at most two minutes old. */
  lemma {:induction false} AnsweringPeersStay(sys: System, acts: seq<Action>, k: Conn, id: Id)
    requires IsRun(sys, acts) && Answering(sys, acts, k, id) && OwesNews(sys.server)
    requires OnlineOn(sys.server.peers, k, id) && sys.server.peers[id].lastSeen == sys.now
    ensures OnlineOn(RunFrom(sys, acts).server.peers, k, id)
    ensures Punctual(sys, acts, k, id) && Reached(sys, acts, k, id)
    decreases |acts|
  {
    if acts != [] {
      var n := |acts| - 1;
      AnsweringPeersStay(sys, acts[..n], k, id);
      AnsweredIsHeard(sys, acts[..n], k, id);
      assert Punctual(sys, acts, k, id);
      PunctualPeersStay(sys, acts, k, id);
      StaysOnline(RunFrom(sys, acts[..n]), acts[n], k, id);
    }
  }

  lemma AnsweredIsHeard(sys: System, acts: seq<Action>, k: Conn, id: Id)
    requires IsRun(sys, acts) && OwesNews(sys.server) && Reached(sys, acts, k, id)
    ensures LastHeard(sys, acts, k, id) >= AnsweredTime(sys, acts, k)
  {
    HeardSincePing(sys, acts, k, id, Answered(sys, acts, k) - Pings(Wire(sys.server.wires, k)));
  }

  lemma StaysOnline(sys: System, a: Action, k: Conn, id: Id)
    requires Enabled(sys, a) && OnlineOn(sys.server.peers, k, id)
    requires a.DoHeartbeat? ==> id !in a.failed
    requires id in Do(sys, a).server.peers
    ensures Do(sys, a).server.peers[id].isOnline
  {
    StepPeers(sys, a);
  }
}
