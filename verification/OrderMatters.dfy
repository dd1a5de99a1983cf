/** What happens exactly when an assumption of the convergence theorem is dropped. */
module OrderMatters {
  import opened Bytes
  import opened Discovery
  import opened Convergence
  import opened Spawning

  // ---------- Broadcasts sent in any order ----------

  lemma AfterBroadcast(sys: System, i: nat, failed: set<Id>, k: Conn, id: Id)
    requires i < |sys.server.pending|
    ensures var m, sys' := sys.server.pending[i].msg, Do(sys, DoBroadcast(i, failed));
            LastAbout(Wire(sys'.server.wires, k), id) ==
            if About(m, id) && HeldBy(sys.server.peers, OnlineIds(sys.server.peers) - failed, k) != {} then Some(m)
            else LastAbout(Wire(sys.server.wires, k), id)
  {
    var s := sys.server;
    WireAfterSend(s.peers, OnlineIds(s.peers) - failed, s.wires, s.pending[i].msg, k, id);
  }

  /** A run that only makes owed broadcasts, in whatever order, every write succeeding. */
  predicate OnlyBroadcasts(acts: seq<Action>) {
    forall i :: 0 <= i < |acts| ==> acts[i].DoBroadcast? && acts[i].failed == {}
  }

  /** What such a run sends, in order. */
  ghost function Sent(sys: System, acts: seq<Action>): seq<Msg>
    requires IsRun(sys, acts) && OnlyBroadcasts(acts)
  {
    if acts == [] then []
    else
      var n := |acts| - 1;
      Sent(sys, acts[..n]) + [RunFrom(sys, acts[..n]).server.pending[acts[n].i].msg]
  }

  lemma {:induction false} SentArrives(sys: System, acts: seq<Action>, k: Conn, id: Id)
    requires IsRun(sys, acts) && OnlyBroadcasts(acts)
    requires HeldBy(sys.server.peers, OnlineIds(sys.server.peers), k) != {}
    ensures var end, sent := RunFrom(sys, acts), LastAbout(Sent(sys, acts), id);
            && end.server.peers == sys.server.peers && ViewOf(end, k) == ViewOf(sys, k)
            && LastAbout(Wire(end.server.wires, k), id) ==
               (if sent.Some? then sent else LastAbout(Wire(sys.server.wires, k), id))
            && (sent.None? ==> LastAbout(Msgs(end.server.pending), id) == LastAbout(Msgs(sys.server.pending), id))
    decreases |acts|
  {
    if acts != [] {
      var n := |acts| - 1;
      var before, i := RunFrom(sys, acts[..n]), acts[n].i;
      var m := before.server.pending[i].msg;
      SentArrives(sys, acts[..n], k, id);
      AfterBroadcast(before, i, {}, k, id);
      assert OnlineIds(before.server.peers) - {} == OnlineIds(before.server.peers);
      LastAboutConcat(Sent(sys, acts[..n]), [m], id);
      LastAboutOne(m, id);
      if !About(m, id) {
        MsgsWithout(before.server.pending, i);
        LastAboutWithout(Msgs(before.server.pending), i, id);
      }
    }
  }

  /** However the owed broadcasts about a peer are ordered when they are sent, a client agrees
      about the peer in the end exactly when the last one sent says what the newest one says. */
  lemma AnySendingOrder(sys: System, acts: seq<Action>, k: Conn, id: Id)
    requires IsRun(sys, acts) && OnlyBroadcasts(acts)
    requires HeldBy(sys.server.peers, OnlineIds(sys.server.peers), k) != {}
    requires PendingAgrees(sys.server, id) && LastAbout(Msgs(sys.server.pending), id).Some?
    requires LastAbout(Msgs(RunFrom(sys, acts).server.pending), id).None?
    ensures LastAbout(Sent(sys, acts), id).Some?
    ensures Agrees(RunFrom(sys, acts), k, id) <==>
            Effect(LastAbout(Sent(sys, acts), id).value, id) ==
            Effect(LastAbout(Msgs(sys.server.pending), id).value, id)
  {
    SentArrives(sys, acts, k, id);
    AgreesIff(RunFrom(sys, acts), k, id);
  }

  // ---------- Lists written late ----------

  /** The run leaves the list that k's handler has taken alone. */
  predicate LeavesList(acts: seq<Action>, k: Conn) {
    forall i :: 0 <= i < |acts| ==>
      match acts[i]
      case DoRegister(c, _, _) => c != k
      case DoSnapshot(c) => c != k
      case DoWriteList(c) => c != k
      case DoFailList(c, _) => c != k
      case _ => true
  }

  lemma {:induction false} ListStays(sys: System, acts: seq<Action>, k: Conn)
    requires IsRun(sys, acts) && LeavesList(acts, k) && k in sys.snapshots
    ensures k in RunFrom(sys, acts).snapshots && RunFrom(sys, acts).snapshots[k] == sys.snapshots[k]
    decreases |acts|
  {
    if acts != [] {
      ListStays(sys, acts[..|acts| - 1], k);
    }
  }

  lemma AgreesAfterList(sys: System, k: Conn, id: Id)
    requires k in sys.snapshots && sys.snapshots[k].peers != map[]
    requires Quiet(sys.server.pending, id, 0)
    ensures Agrees(Do(sys, DoWriteList(k)), k, id) <==>
            Effect(PeerList(sys.snapshots[k].peers), id) == RegStatus(sys.server.peers, id)
  {
    var list := PeerList(sys.snapshots[k].peers);
    LastAboutConcat(Wire(sys.server.wires, k), [list], id);
    LastAboutOne(list, id);
    LastAboutNone(Msgs(sys.server.pending), id);
    AgreesIff(Do(sys, DoWriteList(k)), k, id);
  }

  /** A list taken, then news about a peer spawned and sent, and only then the list written: the
      client agrees about the peer exactly when the news leaves it as the list had it. */
  lemma LateList(sys: System, acts: seq<Action>, k: Conn, id: Id)
    requires Numbered(sys.server) && OnlineInfos(sys.server.peers) != map[]
    requires var taken := Do(sys, DoSnapshot(k));
             && IsRun(taken, acts) && LeavesList(acts, k) && NoFailedPing(taken, acts)
             && LastAbout(AllSpawned(taken, acts), id).Some?
             && Quiet(RunFrom(taken, acts).server.pending, id, 0)
    ensures var taken := Do(sys, DoSnapshot(k));
            var end := RunFrom(taken, acts);
            && k in end.snapshots
            && (Agrees(Do(end, DoWriteList(k)), k, id) <==>
                Effect(LastAbout(AllSpawned(taken, acts), id).value, id) == RegStatus(sys.server.peers, id))
  {
    var taken := Do(sys, DoSnapshot(k));
    ListStays(taken, acts, k);
    SpawnedTellsAll(taken, acts, id);
    AgreesAfterList(RunFrom(taken, acts), k, id);
  }

  // ---------- Empty lists ----------

  predicate NobodyOnline(v: View) {
    forall id :: id in v ==> !v[id].online
  }

  /** A list makes the client's online peers those of the list exactly when it is not empty or
      the client took nobody to be online anyway. */
  lemma ListIsTakenIff(v: View, listed: map<Id, Info>)
    ensures (forall id :: Status(Apply(v, PeerList(listed)), id) == Effect(PeerList(listed), id)) <==>
            listed != map[] || NobodyOnline(v)
  {
    var v' := Apply(v, PeerList(listed));
    if listed == map[] && !NobodyOnline(v) {
      var id :| id in v && v[id].online;
      assert Status(v', id) != Effect(PeerList(listed), id);
    }
  }

  // ---------- Failed writes ----------

  /** A failed heartbeat write takes a peer offline in the registry and tells nobody: a client
      that agreed about it agrees afterwards exactly when its write did not fail. */
  lemma FailedHeartbeat(sys: System, k: Conn, id: Id, failed: set<Id>)
    requires Enabled(sys, DoHeartbeat(failed)) && Agrees(sys, k, id)
    ensures Agrees(Do(sys, DoHeartbeat(failed)), k, id) <==> id !in failed
  {
    var sys' := Do(sys, DoHeartbeat(failed));
    var s := sys.server;
    WireAfterSend(s.peers, OnlineIds(s.peers) - failed, s.wires, Ping, k, id);
    AgreesIff(sys, k, id);
    AgreesIff(sys', k, id);
  }

  /** A failed list write ends the handler before its peer_joined: a client that agreed about
      the peer before it registered agrees afterwards exactly when it was already registered
      with the same info. */
  lemma FailedList(sys: System, k: Conn, id: Id, info: Info, client: Conn)
    requires Agrees(sys, client, id)
    ensures var taken := Do(Do(sys, DoRegister(k, id, info)), DoSnapshot(k));
            var a := DoFailList(k, |sys.server.pending|);
            && Enabled(taken, a)
            && (Agrees(Do(taken, a), client, id) <==> RegStatus(sys.server.peers, id) == Some(info))
  {
    var taken := Do(Do(sys, DoRegister(k, id, info)), DoSnapshot(k));
    var end := Do(taken, DoFailList(k, |sys.server.pending|));
    assert end.server.pending == sys.server.pending;
    AgreesIff(sys, client, id);
    AgreesIff(end, client, id);
  }

  /** A broadcast that is lost to a client, the only one owed about its peer: the client, right
      about the peer as long as it was owed, stays right exactly when it already knew. */
  lemma FailedBroadcast(sys: System, i: nat, failed: set<Id>, k: Conn, id: Id)
    requires i < |sys.server.pending| && About(sys.server.pending[i].msg, id)
    requires forall j :: 0 <= j < |sys.server.pending| && j != i ==> !About(sys.server.pending[j].msg, id)
    requires HeldBy(sys.server.peers, OnlineIds(sys.server.peers) - failed, k) == {}
    requires Agrees(sys, k, id)
    ensures Agrees(Do(sys, DoBroadcast(i, failed)), k, id) <==>
            StatusAfter(ViewOf(sys, k), Wire(sys.server.wires, k), id) == Effect(sys.server.pending[i].msg, id)
  {
    var p := sys.server.pending;
    var sys' := Do(sys, DoBroadcast(i, failed));
    AfterBroadcast(sys, i, failed, k, id);
    MsgsWithout(p, i);
    LastAboutWithout(Msgs(p), i, id);
    forall n | 0 <= n < |p| - 1 ensures !About(Msgs(Without(p, i))[n], id) {
      assert Without(p, i)[n] == p[if n < i then n else n + 1];
    }
    LastAboutNone(Msgs(Without(p, i)), id);
    AgreesIff(sys, k, id);
    AgreesIff(sys', k, id);
  }
}
