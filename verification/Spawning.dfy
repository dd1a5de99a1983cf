/** Which broadcasts each step spawns, read off the server's owed tasks by their numbers. */
module Spawning {
  import opened Bytes
  import opened Discovery
  import opened Convergence

  /** Tasks are numbered in the order they are spawned. */
  predicate Numbered(s: ServerState) {
    forall i :: 0 <= i < |s.pending| ==> s.pending[i].born < s.spawned
  }

  /** The messages of the owed tasks numbered n or later. */
  function Since(pending: seq<Task>, n: nat): seq<Msg> {
    if pending == [] then []
    else
      var last := pending[|pending| - 1];
      Since(pending[..|pending| - 1], n) + if last.born >= n then [last.msg] else []
  }

  /** What a step spawned: the tasks owed after it that were not yet numbered before it. */
  function Spawned(before: ServerState, after: ServerState): seq<Msg> {
    Since(after.pending, before.spawned)
  }

  lemma {:induction false} NothingSince(pending: seq<Task>, n: nat)
    requires forall i :: 0 <= i < |pending| ==> pending[i].born < n
    ensures Since(pending, n) == []
  {
    if pending != [] {
      NothingSince(pending[..|pending| - 1], n);
    }
  }

  lemma SpawnOne(s: ServerState, m: Msg, h: Option<Conn>, n: nat)
    requires n <= s.spawned
    ensures Since(Spawn(s, m, h).pending, n) == Since(s.pending, n) + [m]
  {
    var t := Spawn(s, m, h);
    assert t.pending[..|s.pending|] == s.pending;
  }

  lemma {:induction false} SpawnMany(s: ServerState, ms: seq<Msg>, n: nat)
    requires n <= s.spawned
    ensures SpawnAll(s, ms).spawned >= s.spawned
    ensures Since(SpawnAll(s, ms).pending, n) == Since(s.pending, n) + ms
  {
    if ms != [] {
      var k := |ms| - 1;
      SpawnMany(s, ms[..k], n);
      SpawnOne(SpawnAll(s, ms[..k]), ms[k], None, n);
      assert ms == ms[..k] + [ms[k]];
    }
  }

  lemma {:induction false} SpawnNumbers(s: ServerState, ms: seq<Msg>)
    requires Numbered(s)
    ensures Numbered(SpawnAll(s, ms))
  {
    if ms != [] {
      SpawnNumbers(s, ms[..|ms| - 1]);
    }
  }

  lemma {:induction false} SpawnKeepsPeers(s: ServerState, ms: seq<Msg>)
    ensures SpawnAll(s, ms).peers == s.peers
  {
    if ms != [] {
      SpawnKeepsPeers(s, ms[..|ms| - 1]);
    }
  }

  /** The registry after each step. */
  function PeersAfter(sys: System, a: Action): Registry {
    var peers := sys.server.peers;
    match a
    case DoRegister(k, id, info) => peers[id := Entry(k, info, sys.now, true)]
    case DoClose(_, found) => if found.None? || found.value == "" then peers else peers - {found.value}
    case DoTouch(_, found) => Touch(sys.server, sys.now, found).peers
    case DoCleanup(order) => peers - Elements(order)
    case DoHeartbeat(failed) => TakeOffline(peers, failed)
    case _ => peers
  }

  lemma StepPeers(sys: System, a: Action)
    requires Enabled(sys, a)
    ensures Do(sys, a).server.peers == PeersAfter(sys, a)
  {
    if a.DoCleanup? {
      SpawnKeepsPeers(sys.server.(peers := sys.server.peers - Elements(a.order)), Lefts(a.order));
    }
  }

  /** The broadcasts each step spawns: one for each entry it adds, replaces or removes. */
  function News(a: Action): seq<Msg> {
    match a
    case DoRegister(_, id, info) => [PeerJoined(id, info)]
    case DoClose(_, found) => if found.None? || found.value == "" then [] else [PeerLeft(found.value)]
    case DoCleanup(order) => Lefts(order)
    case _ => []
  }

  lemma StepNumbers(sys: System, a: Action)
    requires Enabled(sys, a) && Numbered(sys.server)
    ensures Numbered(Do(sys, a).server)
  {
    if a.DoCleanup? {
      SpawnNumbers(sys.server.(peers := sys.server.peers - Elements(a.order)), Lefts(a.order));
    }
  }

  /** The tasks a step adds are its news and nothing else. */
  lemma StepSpawns(sys: System, a: Action)
    requires Enabled(sys, a) && Numbered(sys.server)
    ensures Spawned(sys.server, Do(sys, a).server) == News(a)
  {
    var s, n := sys.server, sys.server.spawned;
    NothingSince(s.pending, n);
    match a
    case DoRegister(k, id, info) =>
      SpawnOne(s.(peers := s.peers[id := Entry(k, info, sys.now, true)]), PeerJoined(id, info), Some(k), n);
    case DoClose(_, found) =>
      var id := found.GetOr("");
      SpawnOne(s.(peers := s.peers - {id}), PeerLeft(id), None, n);
    case DoCleanup(order) => SpawnMany(s.(peers := s.peers - Elements(order)), Lefts(order), n);
    case DoFailList(_, i) => NothingSince(Without(s.pending, i), n);
    case DoBroadcast(i, _) => NothingSince(Without(s.pending, i), n);
    case _ =>
  }

  /** Everything a run spawned, in order. */
  ghost function AllSpawned(sys: System, acts: seq<Action>): seq<Msg>
    requires IsRun(sys, acts)
  {
    if acts == [] then []
    else
      var before := RunFrom(sys, acts[..|acts| - 1]);
      AllSpawned(sys, acts[..|acts| - 1]) + Spawned(before.server, Do(before, acts[|acts| - 1]).server)
  }

  lemma {:induction false} RunNumbered(sys: System, acts: seq<Action>)
    requires IsRun(sys, acts) && Numbered(sys.server)
    ensures Numbered(RunFrom(sys, acts).server)
    decreases |acts|
  {
    if acts != [] {
      var n := |acts| - 1;
      RunNumbered(sys, acts[..n]);
      StepNumbers(RunFrom(sys, acts[..n]), acts[n]);
    }
  }

  // ---------- The spawned broadcasts tell the registry's whole story ----------

  lemma {:induction false} LeftsAbout(order: seq<Id>, id: Id)
    ensures LastAbout(Lefts(order), id) == if id in order then Some(PeerLeft(id)) else None
  {
    if order != [] {
      var n := |order| - 1;
      assert Lefts(order)[..n] == Lefts(order[..n]);
      assert order == order[..n] + [order[n]];
      LeftsAbout(order[..n], id);
    }
  }

  lemma StepTells(sys: System, a: Action, id: Id)
    requires Enabled(sys, a) && (a.DoHeartbeat? ==> a.failed == {})
    ensures var told := LastAbout(News(a), id);
            RegStatus(PeersAfter(sys, a), id) ==
            if told.Some? then Effect(told.value, id) else RegStatus(sys.server.peers, id)
  {
    match a
    case DoRegister(_, x, info) => LastAboutOne(PeerJoined(x, info), id);
    case DoClose(_, found) => LastAboutOne(PeerLeft(found.GetOr("")), id);
    case DoCleanup(order) =>
      LeftsAbout(order, id);
      assert id in Elements(order) <==> id in order;
    case _ =>
  }

  ghost predicate NoFailedPing(sys: System, acts: seq<Action>)
    requires IsRun(sys, acts)
  {
    forall i :: 0 <= i < |acts| && acts[i].DoHeartbeat? ==> acts[i].failed == {}
  }

  /** Without failed pings, a peer's status after any run is what the newest broadcast spawned
      about it tells, or what it was before if none was spawned. */
  lemma {:induction false} SpawnedTellsAll(sys: System, acts: seq<Action>, id: Id)
    requires IsRun(sys, acts) && Numbered(sys.server) && NoFailedPing(sys, acts)
    ensures var told := LastAbout(AllSpawned(sys, acts), id);
            RegStatus(RunFrom(sys, acts).server.peers, id) ==
            if told.Some? then Effect(told.value, id) else RegStatus(sys.server.peers, id)
    decreases |acts|
  {
    if acts != [] {
      var n := |acts| - 1;
      var before := RunFrom(sys, acts[..n]);
      RunNumbered(sys, acts[..n]);
      assert NoFailedPing(sys, acts[..n]);
      SpawnedTellsAll(sys, acts[..n], id);
      StepSpawns(before, acts[n]);
      StepPeers(before, acts[n]);
      StepTells(before, acts[n], id);
      LastAboutConcat(AllSpawned(sys, acts[..n]), Spawned(before.server, Do(before, acts[n]).server), id);
    }
  }
}
