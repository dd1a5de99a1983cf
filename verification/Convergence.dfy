/** Every client's view, once its outstanding messages are replayed, agrees with the registry. */
module Convergence {
  import opened Bytes
  import opened Discovery

  // ---------- The last message about a peer decides ----------

  function LastAbout(ms: seq<Msg>, id: Id): Option<Msg> {
    if ms == [] then None
    else if About(ms[|ms| - 1], id) then Some(ms[|ms| - 1])
    else LastAbout(ms[..|ms| - 1], id)
  }

  /** The status that a message about the peer leaves behind. */
  function Effect(m: Msg, id: Id): Option<Info> {
    match m
    case PeerList(peers) => if id in peers then Some(peers[id]) else None
    case PeerJoined(_, info) => Some(info)
    case _ => None
  }

  function StatusAfter(v: View, ms: seq<Msg>, id: Id): Option<Info> {
    match LastAbout(ms, id)
    case Some(m) => Effect(m, id)
    case None => Status(v, id)
  }

  lemma {:induction false} LastWriterWins(v: View, ms: seq<Msg>, id: Id)
    ensures Status(Replay(v, ms), id) == StatusAfter(v, ms, id)
  {
    if ms != [] {
      LastWriterWins(v, ms[..|ms| - 1], id);
    }
  }

  predicate IsDelta(m: Msg) {
    m.PeerJoined? || m.PeerLeft?
  }

  /** The messages that say something about the peer, lists included, in their order. */
  function Project(ms: seq<Msg>, id: Id): seq<Msg> {
    if ms == [] then []
    else
      var n := |ms| - 1;
      Project(ms[..n], id) + if About(ms[n], id) then [ms[n]] else []
  }

  /** What the client stores about the peer. */
  function Cell(v: View, id: Id): Option<Seen> {
    if id in v then Some(v[id]) else None
  }

  function ApplyCell(c: Option<Seen>, m: Msg, id: Id): Option<Seen> {
    match m
    case PeerList(peers) => if id in peers then Some(Seen(peers[id], true)) else None
    case PeerJoined(_, info) => Some(Seen(info, true))
    case PeerLeft(_) => if c.Some? then Some(c.value.(online := false)) else None
    case Ping => c
  }

  function CellAfter(c: Option<Seen>, ms: seq<Msg>, id: Id): Option<Seen> {
    if ms == [] then c else ApplyCell(CellAfter(c, ms[..|ms| - 1], id), ms[|ms| - 1], id)
  }

  lemma ApplyIsCellwise(v: View, m: Msg, id: Id)
    ensures Cell(Apply(v, m), id) == if About(m, id) then ApplyCell(Cell(v, id), m, id) else Cell(v, id)
  {
  }

  lemma {:induction false} CellSeesProjection(v: View, ms: seq<Msg>, id: Id)
    ensures Cell(Replay(v, ms), id) == CellAfter(Cell(v, id), Project(ms, id), id)
  {
    if ms != [] {
      var n := |ms| - 1;
      CellSeesProjection(v, ms[..n], id);
      ApplyIsCellwise(Replay(v, ms[..n]), ms[n], id);
      if About(ms[n], id) {
        CellSnoc(Cell(v, id), Project(ms[..n], id), ms[n], id);
      } else {
        assert Project(ms, id) == Project(ms[..n], id);
      }
    }
  }

  lemma CellSnoc(c: Option<Seen>, ms: seq<Msg>, m: Msg, id: Id)
    ensures CellAfter(c, ms + [m], id) == ApplyCell(CellAfter(c, ms, id), m, id)
  {
    assert (ms + [m])[..|ms|] == ms;
  }

  /** Two deliveries in which each peer's messages, lists included, come in the same order leave
      the same view, however messages about different peers are interleaved. */
  lemma {:induction false} InterleavingIsIrrelevant(v: View, a: seq<Msg>, b: seq<Msg>)
    requires forall id :: Project(a, id) == Project(b, id)
    ensures Replay(v, a) == Replay(v, b)
  {
    var va, vb := Replay(v, a), Replay(v, b);
    forall id ensures Cell(va, id) == Cell(vb, id) {
      CellSeesProjection(v, a, id);
      CellSeesProjection(v, b, id);
      assert Project(a, id) == Project(b, id);
    }
    assert forall id :: id in va <==> Cell(va, id).Some?;
    assert forall id :: id in vb <==> Cell(vb, id).Some?;
    forall id | id in va ensures va[id] == vb[id] {
      assert Cell(va, id) == Cell(vb, id);
    }
  }

  /** A single message leaves every other peer as it was, and peer_left forgets nothing: the
      peer stays in the view, offline and with the info it had. */
  lemma NewsIsLocal(v: View, m: Msg)
    requires IsDelta(m)
    ensures var v' := Apply(v, m);
            && (forall x :: x != m.id ==> Cell(v', x) == Cell(v, x))
            && v'.Keys == (if m.PeerLeft? then v.Keys else v.Keys + {m.id})
            && (m.PeerLeft? ==> forall x :: x in v ==> v'[x].info == v[x].info)
            && (m.id in v' ==> (v'[m.id].online <==> m.PeerJoined?))
            && (m.PeerJoined? ==> v'[m.id].info == m.info)
  {
  }

  /** The info the peer_joined messages told last, or the one known before. */
  function LastInfo(c: Option<Info>, ms: seq<Msg>, id: Id): Option<Info> {
    if ms == [] then c
    else if ms[|ms| - 1].PeerJoined? && ms[|ms| - 1].id == id then Some(ms[|ms| - 1].info)
    else LastInfo(c, ms[..|ms| - 1], id)
  }

  /** Whatever joins and leaves come, a client that gets no new list remembers every peer it has
      ever known, each with the info it was last told. */
  lemma {:induction false} PeersAreRemembered(v: View, ms: seq<Msg>, id: Id)
    requires forall i :: 0 <= i < |ms| ==> !ms[i].PeerList?
    ensures var v' := Replay(v, ms);
            && v.Keys <= v'.Keys
            && (if id in v' then Some(v'[id].info) else None)
               == LastInfo(if id in v then Some(v[id].info) else None, ms, id)
  {
    if ms != [] {
      var n := |ms| - 1;
      PeersAreRemembered(v, ms[..n], id);
      if IsDelta(ms[n]) {
        NewsIsLocal(Replay(v, ms[..n]), ms[n]);
      }
    }
  }

  /** Two messages about different peers may be handled in either order. */
  lemma DeltasCommute(v: View, a: Msg, b: Msg)
    requires IsDelta(a) && IsDelta(b) && a.id != b.id
    ensures Apply(Apply(v, a), b) == Apply(Apply(v, b), a)
  {
  }

  lemma {:induction false} LastAboutConcat(a: seq<Msg>, b: seq<Msg>, id: Id)
    ensures LastAbout(a + b, id) == if LastAbout(b, id).Some? then LastAbout(b, id) else LastAbout(a, id)
  {
    if b == [] {
      assert a + b == a;
    } else {
      var n := |b| - 1;
      assert (a + b)[..|a| + n] == a + b[..n];
      LastAboutConcat(a, b[..n], id);
    }
  }

  lemma {:induction false} LastAboutNone(ms: seq<Msg>, id: Id)
    ensures LastAbout(ms, id).None? <==> forall i :: 0 <= i < |ms| ==> !About(ms[i], id)
  {
    if ms != [] {
      var n := |ms| - 1;
      LastAboutNone(ms[..n], id);
      assert forall i :: 0 <= i < n ==> ms[..n][i] == ms[i];
    }
  }

  /** Taking out the first message about a peer changes its last message only if it was the
      only one. */
  lemma LastAboutWithout(ms: seq<Msg>, i: nat, id: Id)
    requires i < |ms|
    requires About(ms[i], id) ==> forall j :: 0 <= j < i ==> !About(ms[j], id)
    ensures var rest := LastAbout(Without(ms, i), id);
            LastAbout(ms, id) ==
            if rest.Some? then rest else if About(ms[i], id) then Some(ms[i]) else None
  {
    var a, m, b := ms[..i], [ms[i]], ms[i + 1..];
    assert ms == a + (m + b);
    LastAboutConcat(a, m + b, id);
    LastAboutConcat(m, b, id);
    LastAboutConcat(a, b, id);
    LastAboutNone(a, id);
    assert LastAbout(m, id) == if About(ms[i], id) then Some(ms[i]) else LastAbout([], id);
  }

  lemma {:induction false} LastAboutCopies(m: Msg, n: nat, id: Id)
    ensures LastAbout(Copies(m, n), id) == if n > 0 && About(m, id) then Some(m) else None
  {
    if n > 0 {
      LastAboutCopies(m, n - 1, id);
      assert Copies(m, n)[..n - 1] == Copies(m, n - 1) by { CopiesLength(m, n - 1); }
      CopiesLength(m, n);
    }
  }

  lemma {:induction false} CopiesLength(m: Msg, n: nat)
    ensures |Copies(m, n)| == n
  {
    if n > 0 {
      CopiesLength(m, n - 1);
    }
  }

  // ---------- The invariant ----------

  function Msgs(ts: seq<Task>): (ms: seq<Msg>)
    ensures |ms| == |ts| && forall i :: 0 <= i < |ts| ==> ms[i] == ts[i].msg
  {
    seq(|ts|, i requires 0 <= i < |ts| => ts[i].msg)
  }

  /** No broadcast about the peer spawned as number n or later is still owed. */
  predicate Quiet(pending: seq<Task>, id: Id, n: nat) {
    forall i :: 0 <= i < |pending| && About(pending[i].msg, id) ==> pending[i].born < n
  }

  /** The peer's entry and those that k holds are online. */
  predicate OnlineFor(peers: Registry, k: Conn, id: Id) {
    forall x :: x in peers && (x == id || peers[x].conn == k) ==> peers[x].isOnline
  }

  predicate PendingOK(s: ServerState) {
    forall i :: 0 <= i < |s.pending| ==> IsDelta(s.pending[i].msg) && s.pending[i].born < s.spawned
  }

  /** The newest owed broadcast about the peer tells its present status. */
  predicate PendingAgrees(s: ServerState, id: Id) {
    var m := LastAbout(Msgs(s.pending), id);
    m.Some? ==> Effect(m.value, id) == RegStatus(s.peers, id)
  }

  /** A list that k's handler has taken tells the peer's status, but for broadcasts about the
      peer that were spawned since and are still owed. */
  ghost predicate SnapshotAgrees(s: ServerState, k: Conn, snap: Snapshot, id: Id) {
    && snap.next <= s.spawned
    && (Connected(s.peers, k) ==> snap.peers != map[])
    && (Quiet(s.pending, id, snap.next) ==> Effect(PeerList(snap.peers), id) == RegStatus(s.peers, id))
  }

  predicate Synced(sys: System, k: Conn, id: Id) {
    Quiet(sys.server.pending, id, 0) ==>
    StatusAfter(ViewOf(sys, k), Wire(sys.server.wires, k), id) == RegStatus(sys.server.peers, id)
  }

  /** What every step keeps about one client and one peer. */
  ghost predicate Inv(sys: System, k: Conn, id: Id) {
    && OnlineFor(sys.server.peers, k, id)
    && PendingOK(sys.server)
    && PendingAgrees(sys.server, id)
    && (k in sys.snapshots ==> SnapshotAgrees(sys.server, k, sys.snapshots[k], id))
    && (k in sys.listed && Connected(sys.server.peers, k) ==> Synced(sys, k, id))
  }

  // ---------- Steps that change the registry ----------

  /** sys' is sys after the registry changed at x alone and m was spawned to tell of it. */
  ghost predicate Changes(sys: System, sys': System, x: Id, m: Msg, h: Option<Conn>, k: Conn, id: Id) {
    && IsDelta(m) && m.id == x
    && OnlineFor(sys'.server.peers, k, id)
    && sys'.server == Spawn(sys.server, m, h).(peers := sys'.server.peers)
    && sys'.views == sys.views && (k in sys'.listed ==> k in sys.listed)
    && (k in sys'.snapshots ==> k in sys.snapshots && sys'.snapshots[k] == sys.snapshots[k])
    && RegStatus(sys'.server.peers, id) == (if x == id then Effect(m, id) else RegStatus(sys.server.peers, id))
    && ((k in sys'.listed || k in sys'.snapshots) && Connected(sys'.server.peers, k) ==>
          Connected(sys.server.peers, k))
  }

  lemma LastAboutSpawn(pending: seq<Task>, t: Task, id: Id)
    ensures LastAbout(Msgs(pending + [t]), id) == if About(t.msg, id) then Some(t.msg) else LastAbout(Msgs(pending), id)
  {
    assert Msgs(pending + [t])[..|pending|] == Msgs(pending);
  }

  lemma QuietSpawn(pending: seq<Task>, t: Task, id: Id, n: nat)
    requires n <= t.born
    ensures Quiet(pending + [t], id, n) <==> Quiet(pending, id, n) && !About(t.msg, id)
  {
    var more := pending + [t];
    assert more[|pending|] == t;
    assert forall i :: 0 <= i < |pending| ==> more[i] == pending[i];
  }

  lemma ChangeKeepsInv(sys: System, sys': System, x: Id, m: Msg, h: Option<Conn>, k: Conn, id: Id)
    requires Inv(sys, k, id) && Changes(sys, sys', x, m, h, k, id)
    ensures Inv(sys', k, id)
  {
    var pending, t := sys.server.pending, Task(sys.server.spawned, m, h);
    LastAboutSpawn(pending, t, id);
    QuietSpawn(pending, t, id, 0);
    if k in sys'.snapshots {
      QuietSpawn(pending, t, id, sys.snapshots[k].next);
    }
  }

  lemma RegisterKeepsInv(sys: System, c: Conn, x: Id, info: Info, k: Conn, id: Id)
    requires Inv(sys, k, id)
    ensures Inv(Do(sys, DoRegister(c, x, info)), k, id)
  {
    var sys' := Do(sys, DoRegister(c, x, info));
    if (k in sys'.listed || k in sys'.snapshots) && Connected(sys'.server.peers, k) {
      var y :| y in sys'.server.peers && sys'.server.peers[y].conn == k;
      assert y != x && sys.server.peers[y].conn == k;
    }
    ChangeKeepsInv(sys, sys', x, PeerJoined(x, info), Some(c), k, id);
  }

  lemma RemovalKeepsInv(sys: System, x: Id, k: Conn, id: Id)
    requires Inv(sys, k, id)
    ensures Inv(sys.(server := Spawn(sys.server.(peers := sys.server.peers - {x}), PeerLeft(x), None)), k, id)
  {
    var sys' := sys.(server := Spawn(sys.server.(peers := sys.server.peers - {x}), PeerLeft(x), None));
    if Connected(sys'.server.peers, k) {
      var y :| y in sys'.server.peers && sys'.server.peers[y].conn == k;
      assert sys.server.peers[y].conn == k;
    }
    ChangeKeepsInv(sys, sys', x, PeerLeft(x), None, k, id);
  }

  lemma {:induction false} SpawnAllPeers(s: ServerState, ms: seq<Msg>, peers: Registry)
    ensures SpawnAll(s.(peers := peers), ms) == SpawnAll(s, ms).(peers := peers)
  {
    if ms != [] {
      SpawnAllPeers(s, ms[..|ms| - 1], peers);
    }
  }

  lemma CleanupByOne(s: ServerState, order: seq<Id>)
    requires order != []
    ensures var n := |order| - 1;
            var before := Cleanup(s, order[..n]);
            Cleanup(s, order) == Spawn(before.(peers := before.peers - {order[n]}), PeerLeft(order[n]), None)
  {
    var n := |order| - 1;
    assert Lefts(order)[..n] == Lefts(order[..n]);
    assert order == order[..n] + [order[n]];
    assert Elements(order) == Elements(order[..n]) + {order[n]};
    assert s.peers - Elements(order) == (s.peers - Elements(order[..n])) - {order[n]};
    SpawnAllPeers(s, Lefts(order[..n]), s.peers - Elements(order));
    SpawnAllPeers(s, Lefts(order[..n]), s.peers - Elements(order[..n]));
  }

  lemma {:induction false} CleanupKeepsInv(sys: System, order: seq<Id>, k: Conn, id: Id)
    requires Inv(sys, k, id)
    ensures Inv(sys.(server := Cleanup(sys.server, order)), k, id)
  {
    if order == [] {
      assert Lefts(order) == [] && Elements(order) == {};
      assert sys.server.peers - {} == sys.server.peers;
    } else {
      var n := |order| - 1;
      CleanupKeepsInv(sys, order[..n], k, id);
      CleanupByOne(sys.server, order);
      RemovalKeepsInv(sys.(server := Cleanup(sys.server, order[..n])), order[n], k, id);
    }
  }

  // ---------- Steps that move messages ----------

  /** No broadcast about the peer was spawned before this one and is still owed. */
  predicate OldestAbout(sys: System, i: nat, id: Id)
    requires i < |sys.server.pending|
  {
    forall j :: 0 <= j < i ==> !About(sys.server.pending[j].msg, id)
  }

  /** A list for k taken before this broadcast was spawned has been written. */
  predicate ListIsOut(sys: System, i: nat, k: Conn)
    requires i < |sys.server.pending|
  {
    k in sys.snapshots ==> sys.server.pending[i].born < sys.snapshots[k].next
  }

  /** None of the failed writes was to k. */
  predicate Reaches(peers: Registry, failed: set<Id>, k: Conn) {
    forall x :: x in failed && x in peers ==> peers[x].conn != k
  }

  lemma QuietWithout(p: seq<Task>, i: nat, id: Id, n: nat)
    requires i < |p|
    ensures Quiet(p, id, n) ==> Quiet(Without(p, i), id, n)
    ensures Quiet(Without(p, i), id, n) && (!About(p[i].msg, id) || p[i].born < n) ==> Quiet(p, id, n)
  {
    var rest := Without(p, i);
    assert forall j :: 0 <= j < i ==> rest[j] == p[j];
    assert forall j :: i <= j < |rest| ==> rest[j] == p[j + 1];
    if Quiet(rest, id, n) && (!About(p[i].msg, id) || p[i].born < n) {
      forall j | 0 <= j < |p| && About(p[j].msg, id) ensures p[j].born < n {
        if j > i {
          assert rest[j - 1] == p[j];
        }
      }
    }
  }

  lemma WireAfterSend(peers: Registry, ids: set<Id>, wires: map<Conn, seq<Msg>>, m: Msg, k: Conn, id: Id)
    ensures var w, w' := Wire(wires, k), Wire(SendTo(peers, ids, wires, m), k);
            LastAbout(w', id) ==
            if About(m, id) && HeldBy(peers, ids, k) != {} then Some(m) else LastAbout(w, id)
  {
    var held := HeldBy(peers, ids, k);
    var w, w' := Wire(wires, k), Wire(SendTo(peers, ids, wires, m), k);
    if held != {} {
      var x :| x in held;
      assert k in ConnsOf(peers, ids);
    }
    LastAboutCopies(m, |held|, id);
    LastAboutConcat(w, Copies(m, |held|), id);
    assert held == {} <==> |held| == 0;
    assert w' == w + Copies(m, |held|);
  }

  lemma MsgsWithout(p: seq<Task>, i: nat)
    requires i < |p|
    ensures Msgs(Without(p, i)) == Without(Msgs(p), i)
  {
  }

  /** Taking out a task: the oldest about the peer, or one about others. */
  lemma WithoutTask(sys: System, i: nat, k: Conn, id: Id)
    requires Inv(sys, k, id) && i < |sys.server.pending|
    requires About(sys.server.pending[i].msg, id) ==> OldestAbout(sys, i, id) && ListIsOut(sys, i, k)
    ensures var s, p := sys.server, Without(sys.server.pending, i);
            && PendingOK(s.(pending := p)) && PendingAgrees(s.(pending := p), id)
            && (k in sys.snapshots ==> SnapshotAgrees(s.(pending := p), k, sys.snapshots[k], id))
            && (Quiet(p, id, 0) ==>
                  if About(s.pending[i].msg, id) then Effect(s.pending[i].msg, id) == RegStatus(s.peers, id)
                  else Quiet(s.pending, id, 0))
  {
    var s, p := sys.server, Without(sys.server.pending, i);
    MsgsWithout(s.pending, i);
    LastAboutWithout(Msgs(s.pending), i, id);
    LastAboutNone(Msgs(p), id);
    QuietWithout(s.pending, i, id, 0);
    if k in sys.snapshots {
      QuietWithout(s.pending, i, id, sys.snapshots[k].next);
    }
  }

  lemma BroadcastKeepsInv(sys: System, i: nat, failed: set<Id>, k: Conn, id: Id)
    requires Inv(sys, k, id) && i < |sys.server.pending|
    requires About(sys.server.pending[i].msg, id) ==>
               OldestAbout(sys, i, id) && ListIsOut(sys, i, k) && Reaches(sys.server.peers, failed, k)
    ensures Inv(Do(sys, DoBroadcast(i, failed)), k, id)
  {
    var s := sys.server;
    var m, ids := s.pending[i].msg, OnlineIds(s.peers) - failed;
    WithoutTask(sys, i, k, id);
    WireAfterSend(s.peers, ids, s.wires, m, k, id);
    if Connected(s.peers, k) && About(m, id) {
      var c :| c in s.peers && s.peers[c].conn == k;
      assert c in HeldBy(s.peers, ids, k);
    }
  }

  lemma FailListKeepsInv(sys: System, c: Conn, i: nat, k: Conn, id: Id)
    requires Inv(sys, k, id) && Enabled(sys, DoFailList(c, i)) && !About(sys.server.pending[i].msg, id)
    ensures Inv(Do(sys, DoFailList(c, i)), k, id)
  {
    WithoutTask(sys, i, k, id);
  }

  lemma SnapshotKeepsInv(sys: System, c: Conn, k: Conn, id: Id)
    requires Inv(sys, k, id)
    ensures Inv(Do(sys, DoSnapshot(c)), k, id)
  {
    var peers := sys.server.peers;
    if c == k && Connected(peers, k) {
      var x :| x in peers && peers[x].conn == k;
      assert x in OnlineInfos(peers);
    }
    assert Synced(sys, k, id) ==> Synced(Do(sys, DoSnapshot(c)), k, id);
  }

  lemma WriteListKeepsInv(sys: System, c: Conn, k: Conn, id: Id)
    requires Inv(sys, k, id) && c in sys.snapshots
    ensures Inv(Do(sys, DoWriteList(c)), k, id)
  {
    var sys' := Do(sys, DoWriteList(c));
    if c == k {
      var s, snap := sys.server, sys.snapshots[k];
      LastAboutConcat(Wire(s.wires, k), [PeerList(snap.peers)], id);
      LastAboutOne(PeerList(snap.peers), id);
      assert Quiet(s.pending, id, 0) ==> Quiet(s.pending, id, snap.next);
    } else {
      assert Synced(sys, k, id) ==> Synced(sys', k, id);
    }
  }

  lemma LastAboutOne(m: Msg, id: Id)
    ensures LastAbout([m], id) == if About(m, id) then Some(m) else None
  {
    assert [m][..0] == [];
  }

  lemma ReceiveKeepsInv(sys: System, c: Conn, i: nat, k: Conn, id: Id)
    requires Inv(sys, k, id) && Enabled(sys, DoReceive(c, i))
    ensures Inv(Do(sys, DoReceive(c, i)), k, id)
  {
    if c == k {
      var q := Wire(sys.server.wires, k);
      assert About(q[i], id) ==> forall j :: 0 <= j < i ==> !About(q[j], id) by {
        assert forall j :: 0 <= j < i ==> !Conflict(q[j], q[i]);
      }
      LastAboutWithout(q, i, id);
      LastWriterWins(ViewOf(sys, k), [q[i]], id);
      assert [q[i]][..0] == [];
    }
    assert Synced(sys, k, id) ==> Synced(Do(sys, DoReceive(c, i)), k, id);
  }

  lemma FrameKeepsInv(sys: System, sys': System, k: Conn, id: Id)
    requires Inv(sys, k, id)
    requires sys'.views == sys.views && sys'.listed == sys.listed && sys'.snapshots == sys.snapshots
    requires sys'.server.pending == sys.server.pending && sys'.server.spawned == sys.server.spawned
    requires OnlineFor(sys'.server.peers, k, id)
    requires RegStatus(sys'.server.peers, id) == RegStatus(sys.server.peers, id)
    requires Connected(sys'.server.peers, k) ==> Connected(sys.server.peers, k)
    requires LastAbout(Wire(sys'.server.wires, k), id) == LastAbout(Wire(sys.server.wires, k), id)
    ensures Inv(sys', k, id)
  {
  }

  lemma TouchKeepsInv(sys: System, c: Conn, found: Option<Id>, k: Conn, id: Id)
    requires Inv(sys, k, id) && Enabled(sys, DoTouch(c, found))
    ensures Inv(Do(sys, DoTouch(c, found)), k, id)
  {
    var sys' := Do(sys, DoTouch(c, found));
    if Connected(sys'.server.peers, k) {
      var x :| x in sys'.server.peers && sys'.server.peers[x].conn == k;
      assert sys.server.peers[x].conn == k;
    }
    FrameKeepsInv(sys, sys', k, id);
  }

  lemma HeartbeatKeepsInv(sys: System, failed: set<Id>, k: Conn, id: Id)
    requires Inv(sys, k, id) && Enabled(sys, DoHeartbeat(failed))
    requires id !in failed && Reaches(sys.server.peers, failed, k)
    ensures Inv(Do(sys, DoHeartbeat(failed)), k, id)
  {
    var sys' := Do(sys, DoHeartbeat(failed));
    var s := sys.server;
    if Connected(sys'.server.peers, k) {
      var x :| x in sys'.server.peers && sys'.server.peers[x].conn == k;
      assert s.peers[x].conn == k;
    }
    WireAfterSend(s.peers, OnlineIds(s.peers) - failed, s.wires, Ping, k, id);
    FrameKeepsInv(sys, sys', k, id);
  }

  // ---------- The theorem ----------

  /** What the theorem about client k and peer id assumes of every step. */
  datatype Assumption =
    | BroadcastsInOrder  // owed broadcasts about the peer are made in the order they were spawned
    | ListsBeforeNews    // k's list is written before broadcasts about the peer spawned after it was taken
    | ListsWritten       // no failed write of a list keeps the peer from being announced
    | BroadcastsWritten  // no write to k of a broadcast about the peer fails
    | PingsWritten       // no write of a heartbeat to the peer or to k fails

  ghost predicate Holds(asm: Assumption, sys: System, a: Action, k: Conn, id: Id)
    requires Enabled(sys, a)
  {
    var s := sys.server;
    match asm
    case BroadcastsInOrder => a.DoBroadcast? && About(s.pending[a.i].msg, id) ==> OldestAbout(sys, a.i, id)
    case ListsBeforeNews => a.DoBroadcast? && About(s.pending[a.i].msg, id) ==> ListIsOut(sys, a.i, k)
    case ListsWritten => a.DoFailList? ==> !About(s.pending[a.i].msg, id)
    case BroadcastsWritten => a.DoBroadcast? && About(s.pending[a.i].msg, id) ==> Reaches(s.peers, a.failed, k)
    case PingsWritten => a.DoHeartbeat? ==> id !in a.failed && Reaches(s.peers, a.failed, k)
  }

  ghost predicate Orderly(sys: System, a: Action, k: Conn, id: Id)
    requires Enabled(sys, a)
  {
    forall asm :: Holds(asm, sys, a, k, id)
  }

  lemma StepKeepsInv(sys: System, a: Action, k: Conn, id: Id)
    requires Inv(sys, k, id) && Enabled(sys, a) && Orderly(sys, a, k, id)
    ensures Inv(Do(sys, a), k, id)
  {
    match a
    case DoRegister(c, x, info) => RegisterKeepsInv(sys, c, x, info, k, id);
    case DoSnapshot(c) => SnapshotKeepsInv(sys, c, k, id);
    case DoWriteList(c) => WriteListKeepsInv(sys, c, k, id);
    case DoFailList(c, i) =>
      assert Holds(ListsWritten, sys, a, k, id);
      FailListKeepsInv(sys, c, i, k, id);
    case DoBroadcast(i, failed) =>
      assert Holds(BroadcastsInOrder, sys, a, k, id) && Holds(ListsBeforeNews, sys, a, k, id);
      assert Holds(BroadcastsWritten, sys, a, k, id);
      BroadcastKeepsInv(sys, i, failed, k, id);
    case DoClose(c, found) =>
      if found.Some? && found.value != "" {
        RemovalKeepsInv(sys, found.value, k, id);
      }
    case DoTouch(c, found) => TouchKeepsInv(sys, c, found, k, id);
    case DoCleanup(order) => CleanupKeepsInv(sys, order, k, id);
    case DoHeartbeat(failed) =>
      assert Holds(PingsWritten, sys, a, k, id);
      HeartbeatKeepsInv(sys, failed, k, id);
    case DoReceive(c, i) => ReceiveKeepsInv(sys, c, i, k, id);
    case DoTick(d) => FrameKeepsInv(sys, Do(sys, a), k, id);
  }

  /** A server that has seen nothing yet, and connections whose clients may still hold the view
      of an earlier connection. */
  predicate IsStart(sys: System) {
    sys == START.(views := sys.views)
  }

  ghost predicate RunHolds(asm: Assumption, start: System, acts: seq<Action>, k: Conn, id: Id)
    requires IsRun(start, acts)
    decreases |acts|
  {
    acts == [] ||
    var n := |acts| - 1;
    RunHolds(asm, start, acts[..n], k, id) && Holds(asm, RunFrom(start, acts[..n]), acts[n], k, id)
  }

  ghost predicate OrderlyRun(start: System, acts: seq<Action>, k: Conn, id: Id)
    requires IsRun(start, acts)
  {
    forall asm :: RunHolds(asm, start, acts, k, id)
  }

  lemma {:induction false} RunKeepsInv(start: System, acts: seq<Action>, k: Conn, id: Id)
    requires IsStart(start) && IsRun(start, acts) && OrderlyRun(start, acts, k, id)
    ensures Inv(RunFrom(start, acts), k, id)
    decreases |acts|
  {
    if acts == [] {
      assert Msgs([]) == [];
    } else {
      var n := |acts| - 1;
      forall asm
        ensures RunHolds(asm, start, acts[..n], k, id) && Holds(asm, RunFrom(start, acts[..n]), acts[n], k, id)
      {
        assert RunHolds(asm, start, acts, k, id);
      }
      RunKeepsInv(start, acts[..n], k, id);
      StepKeepsInv(RunFrom(start, acts[..n]), acts[n], k, id);
    }
  }

  /** The client, once it has handled all that is on its connection and still owed, takes the
      peer to be what the registry says. */
  predicate Agrees(sys: System, k: Conn, id: Id) {
    var outstanding := Wire(sys.server.wires, k) + Msgs(sys.server.pending);
    Status(Replay(ViewOf(sys, k), outstanding), id) == RegStatus(sys.server.peers, id)
  }

  lemma AgreesIff(sys: System, k: Conn, id: Id)
    ensures var w, p := LastAbout(Wire(sys.server.wires, k), id), LastAbout(Msgs(sys.server.pending), id);
            Agrees(sys, k, id) <==>
            RegStatus(sys.server.peers, id) ==
            (match p case Some(m) => Effect(m, id)
             case None => match w case Some(m) => Effect(m, id) case None => Status(ViewOf(sys, k), id))
  {
    var w, p := Wire(sys.server.wires, k), Msgs(sys.server.pending);
    LastWriterWins(ViewOf(sys, k), w + p, id);
    LastAboutConcat(w, p, id);
  }

  /** A registered client k that has its peer list and replays what is on its connection and
      what is still owed takes the peer to be what the registry says, info included. It does on
      every run that is orderly for k and the peer alone, whatever happens to other clients and
      to broadcasts about other peers. */
  lemma {:induction false} ClientsConverge(start: System, acts: seq<Action>, k: Conn, id: Id)
    requires IsStart(start) && IsRun(start, acts) && OrderlyRun(start, acts, k, id)
    requires var sys := RunFrom(start, acts); k in sys.listed && Connected(sys.server.peers, k)
    ensures Agrees(RunFrom(start, acts), k, id)
  {
    var sys := RunFrom(start, acts);
    RunKeepsInv(start, acts, k, id);
    AgreesIff(sys, k, id);
    LastAboutNone(Msgs(sys.server.pending), id);
  }

  /** Once nothing is outstanding, the client's online peers are exactly the registry's. */
  lemma QuiescentViewIsRegistry(start: System, acts: seq<Action>, k: Conn)
    requires IsStart(start) && IsRun(start, acts) && forall id :: OrderlyRun(start, acts, k, id)
    requires var sys := RunFrom(start, acts);
             && k in sys.listed && Connected(sys.server.peers, k)
             && sys.server.pending == [] && Wire(sys.server.wires, k) == []
    ensures var sys := RunFrom(start, acts);
            forall id :: id in sys.server.peers <==> Status(ViewOf(sys, k), id).Some?
  {
    var sys := RunFrom(start, acts);
    forall id ensures id in sys.server.peers <==> Status(ViewOf(sys, k), id).Some? {
      assert OrderlyRun(start, acts, k, id);
      RunKeepsInv(start, acts, k, id);
      ClientsConverge(start, acts, k, id);
      var outstanding := Wire(sys.server.wires, k) + Msgs(sys.server.pending);
      assert outstanding == [];
      assert Replay(ViewOf(sys, k), outstanding) == ViewOf(sys, k);
    }
  }
}
