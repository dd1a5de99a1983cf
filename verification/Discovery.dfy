/** The discovery protocol on values: the server's registry, the messages on each connection,
    each client's view, and one step per critical section. */
module Discovery {
  import opened Bytes

  type Id = string
  type Conn = nat

  /** What peer_joined and peer_list say about a peer. */
  datatype Info = Info(ip: string, localIP: string)

  datatype Entry = Entry(conn: Conn, info: Info, lastSeen: int, isOnline: bool)

  type Registry = map<Id, Entry>

  datatype Msg =
    | PeerList(peers: map<Id, Info>)
    | PeerJoined(id: Id, info: Info)
    | PeerLeft(id: Id)
    | Ping

  // ---------- Clients ----------

  datatype Seen = Seen(info: Info, online: bool)

  type View = map<Id, Seen>

  /** One handler call of the client. An empty list arrives as JSON null and is refused. */
  function Apply(v: View, m: Msg): View {
    match m
    case PeerList(peers) => if peers == map[] then v else map id | id in peers :: Seen(peers[id], true)
    case PeerJoined(id, info) => v[id := Seen(info, true)]
    case PeerLeft(id) => if id in v then v[id := v[id].(online := false)] else v
    case Ping => v
  }

  function Replay(v: View, ms: seq<Msg>): View {
    if ms == [] then v else Apply(Replay(v, ms[..|ms| - 1]), ms[|ms| - 1])
  }

  /** The info of a peer the client takes to be online. */
  function Status(v: View, id: Id): Option<Info> {
    if id in v && v[id].online then Some(v[id].info) else None
  }

  // ---------- The server ----------

  /** A broadcast that some goroutine still owes, numbered by when it was spawned. A peer_joined
      is owed by the handler of the connection that registered. */
  datatype Task = Task(born: nat, msg: Msg, handler: Option<Conn>)

  datatype ServerState = ServerState(peers: Registry, pending: seq<Task>, spawned: nat, wires: map<Conn, seq<Msg>>)

  const TIMEOUT := 120 * 1_000_000_000

  function Wire(wires: map<Conn, seq<Msg>>, k: Conn): seq<Msg> {
    if k in wires then wires[k] else []
  }

  function Put(wires: map<Conn, seq<Msg>>, k: Conn, m: Msg): map<Conn, seq<Msg>> {
    wires[k := Wire(wires, k) + [m]]
  }

  function RegStatus(peers: Registry, id: Id): Option<Info> {
    if id in peers && peers[id].isOnline then Some(peers[id].info) else None
  }

  function OnlineIds(peers: Registry): set<Id> {
    set id | id in peers && peers[id].isOnline
  }

  function OnlineInfos(peers: Registry): map<Id, Info> {
    map id | id in peers && peers[id].isOnline :: peers[id].info
  }

  predicate Connected(peers: Registry, k: Conn) {
    exists id :: id in peers && peers[id].conn == k
  }

  function Spawn(s: ServerState, m: Msg, handler: Option<Conn>): ServerState {
    s.(pending := s.pending + [Task(s.spawned, m, handler)], spawned := s.spawned + 1)
  }

  function SpawnAll(s: ServerState, ms: seq<Msg>): ServerState {
    if ms == [] then s else Spawn(SpawnAll(s, ms[..|ms| - 1]), ms[|ms| - 1], None)
  }

  /** handleRegister's critical section; the peer_joined broadcast is still owed. */
  function Register(s: ServerState, now: int, k: Conn, id: Id, info: Info): ServerState {
    Spawn(s.(peers := s.peers[id := Entry(k, info, now, true)]), PeerJoined(id, info), Some(k))
  }

  function WriteTo(s: ServerState, k: Conn, m: Msg): ServerState {
    s.(wires := Put(s.wires, k, m))
  }

  function Copies(m: Msg, n: nat): seq<Msg> {
    if n == 0 then [] else Copies(m, n - 1) + [m]
  }

  function HeldBy(peers: Registry, ids: set<Id>, k: Conn): set<Id> {
    set id | id in ids && id in peers && peers[id].conn == k
  }

  function ConnsOf(peers: Registry, ids: set<Id>): set<Conn> {
    set id | id in ids && id in peers :: peers[id].conn
  }

  /** One copy of m for every one of the ids, on the connection that holds it. */
  function SendTo(peers: Registry, ids: set<Id>, wires: map<Conn, seq<Msg>>, m: Msg): map<Conn, seq<Msg>> {
    map k | k in wires.Keys + ConnsOf(peers, ids) :: Wire(wires, k) + Copies(m, |HeldBy(peers, ids, k)|)
  }

  /** broadcastMessage: to every online peer registered now, but for those whose write fails. */
  function Broadcast(s: ServerState, m: Msg, failed: set<Id>): ServerState {
    s.(wires := SendTo(s.peers, OnlineIds(s.peers) - failed, s.wires, m))
  }

  function Without<T>(ts: seq<T>, i: nat): seq<T>
    requires i < |ts|
  {
    ts[..i] + ts[i + 1..]
  }

  /** removePeer, given the entry the map iteration met first. The id "" is never removed. */
  function Remove(s: ServerState, found: Option<Id>): ServerState {
    if found.None? || found.value == "" then s
    else Spawn(s.(peers := s.peers - {found.value}), PeerLeft(found.value), None)
  }

  function Touch(s: ServerState, now: int, found: Option<Id>): ServerState {
    match found
    case Some(id) => if id in s.peers then s.(peers := s.peers[id := s.peers[id].(lastSeen := now)]) else s
    case None => s
  }

  /** The map iteration of removePeer and updatePeerLastSeen may meet any entry of the connection. */
  predicate MayFind(peers: Registry, k: Conn, found: Option<Id>) {
    match found
    case Some(id) => id in peers && peers[id].conn == k
    case None => !Connected(peers, k)
  }

  function Dead(peers: Registry, now: int): set<Id> {
    set id | id in peers && now - peers[id].lastSeen > TIMEOUT
  }

  function Lefts(order: seq<Id>): (ms: seq<Msg>)
    ensures |ms| == |order| && forall i :: 0 <= i < |ms| ==> ms[i] == PeerLeft(order[i])
  {
    seq(|order|, i requires 0 <= i < |order| => PeerLeft(order[i]))
  }

  /** cleanupDeadPeers, removing the dead in the order the map iteration met them. */
  function Cleanup(s: ServerState, order: seq<Id>): ServerState {
    SpawnAll(s.(peers := s.peers - Elements(order)), Lefts(order))
  }

  function Elements(order: seq<Id>): set<Id> {
    set id | id in order
  }

  predicate NoDuplicates(order: seq<Id>) {
    forall i, j :: 0 <= i < j < |order| ==> order[i] != order[j]
  }

  predicate Enumerates(order: seq<Id>, ids: set<Id>) {
    NoDuplicates(order) && Elements(order) == ids
  }

  /** sendHeartbeats, given whose writes fail. */
  function Heartbeat(s: ServerState, failed: set<Id>): ServerState {
    s.(wires := SendTo(s.peers, OnlineIds(s.peers) - failed, s.wires, Ping),
       peers := TakeOffline(s.peers, failed))
  }

  function TakeOffline(peers: Registry, ids: set<Id>): Registry {
    map id | id in peers :: if id in ids then peers[id].(isOnline := false) else peers[id]
  }

  // ---------- The whole system ----------

  /** A peer_list taken under the lock and not yet written, with the number of the next task. */
  datatype Snapshot = Snapshot(next: nat, peers: map<Id, Info>)

  datatype System = System(
    server: ServerState,
    now: int,
    snapshots: map<Conn, Snapshot>,
    listed: set<Conn>,
    views: map<Conn, View>)

  datatype Action =
    | DoRegister(k: Conn, id: Id, info: Info)
    | DoSnapshot(k: Conn)
    | DoWriteList(k: Conn)
    | DoFailList(k: Conn, i: nat)
    | DoBroadcast(i: nat, failed: set<Id>)
    | DoClose(k: Conn, found: Option<Id>)
    | DoTouch(k: Conn, found: Option<Id>)
    | DoCleanup(order: seq<Id>)
    | DoHeartbeat(failed: set<Id>)
    | DoReceive(k: Conn, i: nat)
    | DoTick(d: nat)

  /** m says something about the peer; a list speaks about every peer. */
  predicate About(m: Msg, id: Id) {
    match m
    case PeerList(peers) => peers != map[]
    case PeerJoined(x, _) => x == id
    case PeerLeft(x) => x == id
    case Ping => false
  }

  ghost predicate Conflict(a: Msg, b: Msg) {
    exists id :: About(a, id) && About(b, id)
  }

  function ViewOf(sys: System, k: Conn): View {
    if k in sys.views then sys.views[k] else map[]
  }

  ghost predicate Enabled(sys: System, a: Action) {
    var s := sys.server;
    match a
    case DoRegister(_, _, _) => true
    case DoSnapshot(_) => true
    case DoWriteList(k) => k in sys.snapshots
    case DoFailList(k, i) => k in sys.snapshots && i < |s.pending| && s.pending[i].handler == Some(k)
    case DoBroadcast(i, _) => i < |s.pending|
    case DoClose(k, found) => MayFind(s.peers, k, found)
    case DoTouch(k, found) => MayFind(s.peers, k, found)
    case DoCleanup(order) => Enumerates(order, Dead(s.peers, sys.now))
    case DoHeartbeat(failed) => failed <= OnlineIds(s.peers)
    case DoReceive(k, i) =>
      // Messages about different peers may overtake each other; others may not.
      i < |Wire(s.wires, k)| && forall j :: 0 <= j < i ==> !Conflict(Wire(s.wires, k)[j], Wire(s.wires, k)[i])
    case DoTick(_) => true
  }

  ghost function Do(sys: System, a: Action): System
    requires Enabled(sys, a)
  {
    var s := sys.server;
    match a
    case DoRegister(k, id, info) =>
      sys.(server := Register(s, sys.now, k, id, info), listed := sys.listed - {k}, snapshots := sys.snapshots - {k})
    case DoSnapshot(k) =>
      sys.(snapshots := sys.snapshots[k := Snapshot(s.spawned, OnlineInfos(s.peers))])
    case DoWriteList(k) =>
      sys.(server := WriteTo(s, k, PeerList(sys.snapshots[k].peers)),
           listed := sys.listed + {k}, snapshots := sys.snapshots - {k})
    case DoFailList(k, i) =>
      // The handler returns on the failed write and never makes its broadcast.
      sys.(server := s.(pending := Without(s.pending, i)), snapshots := sys.snapshots - {k})
    case DoBroadcast(i, failed) =>
      sys.(server := Broadcast(s.(pending := Without(s.pending, i)), s.pending[i].msg, failed))
    case DoClose(k, found) => sys.(server := Remove(s, found))
    case DoTouch(k, found) => sys.(server := Touch(s, sys.now, found))
    case DoCleanup(order) => sys.(server := Cleanup(s, order))
    case DoHeartbeat(failed) => sys.(server := Heartbeat(s, failed))
    case DoReceive(k, i) =>
      var q := Wire(s.wires, k);
      sys.(server := s.(wires := s.wires[k := Without(q, i)]), views := sys.views[k := Apply(ViewOf(sys, k), q[i])])
    case DoTick(d) => sys.(now := sys.now + d)
  }

  const START := System(ServerState(map[], [], 0, map[]), 0, map[], {}, map[])

  ghost predicate IsRun(sys: System, acts: seq<Action>)
    decreases |acts|, 0
  {
    acts == [] ||
    var n := |acts| - 1;
    IsRun(sys, acts[..n]) && Enabled(RunFrom(sys, acts[..n]), acts[n])
  }

  ghost function RunFrom(sys: System, acts: seq<Action>): System
    requires IsRun(sys, acts)
    decreases |acts|, 1
  {
    if acts == [] then sys
    else Do(RunFrom(sys, acts[..|acts| - 1]), acts[|acts| - 1])
  }
}
