/** The connection pool: its capacity bound and the ledger of sockets opened and closed. */
module ConnectionPools {
  type Id = string

  // ---------- The pool on values ----------

  /** What a Connection records, but for addresses and byte counts. */
  datatype Link = Link(isConnected: bool, lastSeen: int)

  /** The entries, with the sockets dialled, closed, and dropped unclosed so far. */
  datatype PoolState = PoolState(links: map<Id, Link>, dials: nat, closes: nat, dropped: nat)

  datatype Config = Config(maxConnections: int, keepAlive: int)

  /** NewConnectionPool's defaults. */
  function Effective(c: Config): (r: Config)
    ensures r.maxConnections > 0
  {
    Config(if c.maxConnections <= 0 then 100 else c.maxConnections,
           if c.keepAlive == 0 then 60 * 1_000_000_000 else c.keepAlive)
  }

  /** How a read or write on the socket went. */
  datatype IO = DeadlineFailed | Failed | Done

  datatype Op =
    | Connect(id: Id, dialled: bool, now: int)
    | Disconnect(id: Id)
    | Transfer(id: Id, io: IO, now: int)
    | Cleanup(now: int)
    | Close

  predicate Healthy(s: PoolState, id: Id) {
    id in s.links && s.links[id].isConnected
  }

  function Stale(c: Config, s: PoolState, now: int): set<Id> {
    set id | id in s.links && now - s.links[id].lastSeen > c.keepAlive
  }

  function Step(c: Config, s: PoolState, op: Op): PoolState {
    match op
    case Connect(id, dialled, now) =>
      if Healthy(s, id) || |s.links| >= c.maxConnections || !dialled then s
      else PoolState(s.links[id := Link(true, now)], s.dials + 1, s.closes,
                     if id in s.links then s.dropped + 1 else s.dropped)
    case Disconnect(id) => if id in s.links then CloseSome(s, {id}) else s
    case Transfer(id, io, now) =>
      if !Healthy(s, id) || io == DeadlineFailed then s
      else if io == Failed then s.(links := s.links[id := s.links[id].(isConnected := false)])
      else s.(links := s.links[id := s.links[id].(lastSeen := now)])
    case Cleanup(now) => CloseSome(s, Stale(c, s, now))
    case Close => CloseSome(s, s.links.Keys)
  }

  /** Closes the sockets of the given entries and removes them. */
  function CloseSome(s: PoolState, ids: set<Id>): PoolState {
    s.(links := s.links - ids, closes := s.closes + |ids|)
  }

  function Run(c: Config, s: PoolState, ops: seq<Op>): PoolState {
    if ops == [] then s else Step(c, Run(c, s, ops[..|ops| - 1]), ops[|ops| - 1])
  }

  const EMPTY := PoolState(map[], 0, 0, 0)

  /** On every run the pool holds at most MaxConnections entries, and every socket dialled has
      been closed, is still held, or was dropped unclosed when Connect overwrote a broken entry. */
  lemma {:induction false} LedgerAndCapacity(c: Config, ops: seq<Op>)
    requires c.maxConnections > 0
    ensures Balanced(c, Run(c, EMPTY, ops))
  {
    if ops != [] {
      var n := |ops| - 1;
      LedgerAndCapacity(c, ops[..n]);
      StepKeepsLedger(c, Run(c, EMPTY, ops[..n]), ops[n]);
    }
  }

  predicate Balanced(c: Config, s: PoolState) {
    |s.links| <= c.maxConnections && s.dials == s.closes + |s.links| + s.dropped
  }

  lemma StepKeepsLedger(c: Config, s: PoolState, op: Op)
    requires Balanced(c, s)
    ensures Balanced(c, Step(c, s, op))
  {
    match op
    case Connect(id, _, now) => UpdateSize(s.links, id, Link(true, now));
    case Transfer(id, io, now) => TransferKeepsSize(c, s, id, io, now);
    case Disconnect(id) =>
      if id in s.links {
        ClosingBalances(c, s, {id});
      }
    case Cleanup(now) => ClosingBalances(c, s, Stale(c, s, now));
    case Close => ClosingBalances(c, s, s.links.Keys);
  }

  lemma ClosingBalances(c: Config, s: PoolState, ids: set<Id>)
    requires Balanced(c, s) && ids <= s.links.Keys
    ensures Balanced(c, CloseSome(s, ids))
  {
    RemoveSize(s.links, ids);
  }

  lemma TransferKeepsSize(c: Config, s: PoolState, id: Id, io: IO, now: int)
    ensures var s' := Step(c, s, Transfer(id, io, now));
            |s'.links| == |s.links| && s' == s.(links := s'.links)
  {
    if Healthy(s, id) {
      var was := s.links[id];
      UpdateSize(s.links, id, if io == Failed then was.(isConnected := false) else was.(lastSeen := now));
    }
  }

  lemma UpdateSize<T>(m: map<Id, T>, id: Id, t: T)
    ensures |m[id := t]| == |m| + if id in m then 0 else 1
  {
    var m' := m[id := t];
    if id in m {
      assert m'.Keys == m.Keys;
      assert |m'| == |m'.Keys| && |m| == |m.Keys|;
    }
  }

  lemma RemoveSize<T>(m: map<Id, T>, ids: set<Id>)
    requires ids <= m.Keys
    ensures |m - ids| == |m| - |ids|
  {
    assert (m - ids).Keys == m.Keys - ids;
    assert |m - ids| == |(m - ids).Keys|;
    assert |m| == |m.Keys|;
    assert |m.Keys - ids| == |m.Keys| - |ids|;
  }

  /** Connect is about to replace an entry that a failed read or write has broken. */
  predicate Overwrites(c: Config, s: PoolState, op: Op) {
    op.Connect? && op.dialled && op.id in s.links && !s.links[op.id].isConnected && |s.links| < c.maxConnections
  }

  lemma StepDrops(c: Config, s: PoolState, op: Op)
    ensures Step(c, s, op).dropped == s.dropped + if Overwrites(c, s, op) then 1 else 0
  {
  }

  predicate OverwritesAt(c: Config, ops: seq<Op>, i: nat)
    requires i < |ops|
  {
    Overwrites(c, Run(c, EMPTY, ops[..i]), ops[i])
  }

  predicate NeverOverwrites(c: Config, ops: seq<Op>) {
    forall i :: 0 <= i < |ops| ==> !OverwritesAt(c, ops, i)
  }

  lemma PrefixOverwrites(c: Config, ops: seq<Op>, n: nat, i: nat)
    requires i < n <= |ops|
    ensures OverwritesAt(c, ops[..n], i) <==> OverwritesAt(c, ops, i)
  {
    assert ops[..n][..i] == ops[..i];
  }

  lemma NeverOverwritesByOne(c: Config, ops: seq<Op>)
    requires ops != []
    ensures var n := |ops| - 1;
            NeverOverwrites(c, ops) <==> NeverOverwrites(c, ops[..n]) && !OverwritesAt(c, ops, n)
  {
    var n := |ops| - 1;
    forall i | 0 <= i < n ensures OverwritesAt(c, ops[..n], i) <==> OverwritesAt(c, ops, i) {
      PrefixOverwrites(c, ops, n, i);
    }
  }

  lemma {:induction false} DroppedIff(c: Config, ops: seq<Op>)
    ensures Run(c, EMPTY, ops).dropped == 0 <==> NeverOverwrites(c, ops)
  {
    if ops != [] {
      var n := |ops| - 1;
      DroppedIff(c, ops[..n]);
      StepDrops(c, Run(c, EMPTY, ops[..n]), ops[n]);
      NeverOverwritesByOne(c, ops);
    }
  }

  /** Every socket dialled on a run is closed or still held, exactly when no Connect of the run
      replaced a broken entry. */
  lemma SocketsAccountedIff(c: Config, ops: seq<Op>)
    requires c.maxConnections > 0
    ensures var s := Run(c, EMPTY, ops); s.dials == s.closes + |s.links| <==> NeverOverwrites(c, ops)
  {
    LedgerAndCapacity(c, ops);
    DroppedIff(c, ops);
  }

  /** The shortest such run: connect, fail to send, connect again. */
  lemma ReconnectDropsSocket(c: Config, id: Id, t: int, u: int, v: int)
    requires c.maxConnections > 1
    ensures var s := Run(c, EMPTY, [Connect(id, true, t), Transfer(id, Failed, u), Connect(id, true, v)]);
            s == PoolState(map[id := Link(true, v)], 2, 0, 1)
  {
    var a, b, d := Connect(id, true, t), Transfer(id, Failed, u), Connect(id, true, v);
    assert [a, b, d][..2] == [a, b] && [a, b][..1] == [a] && [a][..0] == [];
    assert Run(c, EMPTY, [a]) == Step(c, EMPTY, a);
    assert Run(c, EMPTY, [a, b]) == PoolState(map[id := Link(false, t)], 1, 0, 0);
  }

  /** Sockets are dropped unclosed only because an earlier read or write failed: on a run
      without such a failure every entry stays connected and nothing is dropped. */
  lemma {:induction false} NoFailureNoDrop(c: Config, ops: seq<Op>)
    requires forall i :: 0 <= i < |ops| ==> !(ops[i].Transfer? && ops[i].io == Failed)
    ensures var s := Run(c, EMPTY, ops); s.dropped == 0 && forall id :: id in s.links ==> s.links[id].isConnected
  {
    if ops != [] {
      NoFailureNoDrop(c, ops[..|ops| - 1]);
    }
  }

  /** A caller ends up with a connected entry exactly when it had one, or the dial succeeds and
      the pool is not full. */
  lemma ConnectSucceedsIff(c: Config, s: PoolState, id: Id, dialled: bool, now: int)
    ensures var s' := Step(c, s, Connect(id, dialled, now));
            && (Healthy(s', id) <==> Healthy(s, id) || (dialled && |s.links| < c.maxConnections))
            && (s'.dials == s.dials + 1 <==> !Healthy(s, id) && dialled && |s.links| < c.maxConnections)
            && (s'.dials == s.dials + 1 ==> s'.links[id] == Link(true, now))
  {
  }

  /** A failed read or write breaks a connected entry, a good one refreshes it, and nothing else
      changes: a broken or missing entry stays as it is. */
  lemma TransferEffect(c: Config, s: PoolState, id: Id, io: IO, now: int)
    ensures var s' := Step(c, s, Transfer(id, io, now));
            && (Healthy(s', id) <==> Healthy(s, id) && io != Failed)
            && s'.links.Keys == s.links.Keys && s' == s.(links := s'.links)
            && (id in s.links ==>
                  s'.links[id].lastSeen == if Healthy(s, id) && io == Done then now else s.links[id].lastSeen)
            && (forall x :: x in s.links && x != id ==> s'.links[x] == s.links[x])
  {
  }

  lemma AppendOp(c: Config, ops: seq<Op>, op: Op)
    ensures Run(c, EMPTY, ops + [op]) == Step(c, Run(c, EMPTY, ops), op)
  {
    assert (ops + [op])[..|ops|] == ops;
  }

  /** On every run, disconnecting closes the entry's socket if there is one and leaves no entry,
      so that there is room again and the next successful dial is used. */
  lemma DisconnectMakesRoom(c: Config, ops: seq<Op>, id: Id, now: int)
    requires c.maxConnections > 0
    ensures var s, s' := Run(c, EMPTY, ops), Run(c, EMPTY, ops + [Disconnect(id)]);
            && s'.links.Keys == s.links.Keys - {id}
            && s'.closes == s.closes + (if id in s.links then 1 else 0)
            && (id in s.links ==>
                  Step(c, s', Connect(id, true, now)) ==
                  PoolState(s.links[id := Link(true, now)], s.dials + 1, s.closes + 1, s.dropped))
  {
    AppendOp(c, ops, Disconnect(id));
    LedgerAndCapacity(c, ops);
    var s := Run(c, EMPTY, ops);
    if id in s.links {
      RemoveSize(s.links, {id});
      assert (s.links - {id})[id := Link(true, now)] == s.links[id := Link(true, now)];
    }
  }

  /** After Close nothing is held: every socket dialled was closed, or dropped before. */
  lemma CloseSettlesLedger(c: Config, ops: seq<Op>)
    requires c.maxConnections > 0
    ensures var s' := Run(c, EMPTY, ops + [Close]);
            s'.links == map[] && s'.dials == s'.closes + s'.dropped && s'.dropped == Run(c, EMPTY, ops).dropped
  {
    AppendOp(c, ops, Close);
    LedgerAndCapacity(c, ops + [Close]);
    assert Run(c, EMPTY, ops + [Close]).links == map[];
  }

  /** The defaults: a hundred connections, kept for sixty seconds. */
  lemma Defaults(c: Config)
    ensures var e := Effective(c);
            && e.maxConnections == (if c.maxConnections > 0 then c.maxConnections else 100)
            && e.keepAlive == (if c.keepAlive != 0 then c.keepAlive else 60_000_000_000)
  {
  }

  /** What is asked about one peer leaves the entries of the others alone. */
  lemma OthersUntouched(c: Config, s: PoolState, op: Op, id: Id)
    requires !Concerns(op, id) && !op.Cleanup?
    ensures var s' := Step(c, s, op); (id in s'.links <==> id in s.links) && (id in s.links ==> s'.links[id] == s.links[id])
  {
  }

  predicate Concerns(op: Op, id: Id) {
    match op
    case Connect(x, _, _) => x == id
    case Disconnect(x) => x == id
    case Transfer(x, _, _) => x == id
    case Cleanup(_) => false
    case Close => true
  }

  /** A peer that sent or received at time t survives every cleanup up to t + KeepAlive,
      whatever the other peers do, and is gone after any later one. */
  lemma {:induction false} ActiveSurvivesCleanup(c: Config, s: PoolState, id: Id, t: int, ops: seq<Op>, last: int)
    requires Healthy(s, id)
    requires forall i :: 0 <= i < |ops| ==> !Concerns(ops[i], id)
    requires forall i :: 0 <= i < |ops| && ops[i].Cleanup? ==> ops[i].now <= t + c.keepAlive
    ensures var s' := Run(c, Step(c, s, Transfer(id, Done, t)), ops);
            id in s'.links && (id in Step(c, s', Cleanup(last)).links <==> last <= t + c.keepAlive)
    ensures Run(c, Step(c, s, Transfer(id, Done, t)), ops).links[id] == Link(true, t)
  {
    if ops != [] {
      ActiveSurvivesCleanup(c, s, id, t, ops[..|ops| - 1], last);
    }
  }

  // ---------- The pool on objects ----------

  class Connection {
    var isConnected: bool
    var lastSeen: int

    constructor (now: int)
      ensures isConnected && lastSeen == now
    {
      isConnected, lastSeen := true, now;
    }
  }

  class ConnectionPool {
    const config: Config
    var connections: map<Id, Connection>
    ghost var dials: nat
    ghost var closes: nat
    ghost var dropped: nat

    /** No two peers share a Connection. */
    ghost predicate Valid()
      reads this
    {
      forall i, j :: i in connections && j in connections && i != j ==> connections[i] != connections[j]
    }

    ghost function State(): PoolState
      reads this, connections.Values
    {
      PoolState(map id | id in connections :: Link(connections[id].isConnected, connections[id].lastSeen),
                dials, closes, dropped)
    }

    constructor (config: Config)
      ensures Valid() && this.config == Effective(config) && State() == EMPTY
    {
      this.config := Effective(config);
      connections := map[];
      dials, closes, dropped := 0, 0, 0;
    }

    /** dialled tells whether net.DialTimeout succeeds, if it is called. */
    method ConnectTo(id: Id, dialled: bool, now: int) returns (c: Connection?)
      requires Valid()
      modifies this
      ensures Valid() && State() == Step(config, old(State()), Connect(id, dialled, now))
      ensures c != null <==> Healthy(State(), id)
      ensures c != null ==> id in connections && c == connections[id]
    {
      if id in connections && connections[id].isConnected {
        return connections[id];
      }
      LinksSize();
      if |connections| >= config.maxConnections {
        return null;
      }
      if !dialled {
        return null;
      }
      c := new Connection(now);
      Install(id, c);
    }

    method Install(id: Id, c: Connection)
      requires Valid() && c !in connections.Values
      modifies this
      ensures Valid() && connections == old(connections)[id := c]
      ensures State() == PoolState(old(State()).links[id := Link(c.isConnected, c.lastSeen)],
                                   old(dials) + 1, old(closes),
                                   if id in old(connections) then old(dropped) + 1 else old(dropped))
    {
      dials := dials + 1;
      dropped := if id in connections then dropped + 1 else dropped;
      connections := connections[id := c];
    }

    lemma LinksSize()
      ensures |connections| == |State().links|
    {
      assert connections.Keys == State().links.Keys;
      assert |connections| == |connections.Keys|;
      assert |State().links| == |State().links.Keys|;
    }

    method DisconnectFrom(id: Id) returns (ok: bool)
      requires Valid()
      modifies this, connections.Values
      ensures Valid() && State() == Step(config, old(State()), Disconnect(id))
      ensures ok <==> id in old(connections)
      ensures ok ==> !old(connections)[id].isConnected
    {
      if id !in connections {
        return false;
      }
      closes := closes + 1;
      connections[id].isConnected := false;
      connections := connections - {id};
      return true;
    }

    /** Send and Receive, given how the socket calls go. */
    method TransferWith(id: Id, io: IO, now: int) returns (ok: bool)
      requires Valid()
      modifies connections.Values
      ensures Valid() && State() == Step(config, old(State()), Transfer(id, io, now))
      ensures ok <==> Healthy(old(State()), id) && io == Done
    {
      if id !in connections {
        return false;
      }
      var conn := connections[id];
      if !conn.isConnected {
        return false;
      }
      if io == DeadlineFailed {
        return false;
      }
      if io == Failed {
        conn.isConnected := false;
        return false;
      }
      conn.lastSeen := now;
      return true;
    }

    method CleanupAt(now: int)
      requires Valid()
      modifies this
      ensures Valid() && State() == Step(config, old(State()), Cleanup(now))
    {
      var toRemove := CollectStale(now);
      ghost var s := State();
      assert s.links - {} == s.links;
      for i := 0 to |toRemove|
        invariant Valid()
        invariant State() == CloseSome(s, Firsts(toRemove, i))
      {
        FirstsGrow(toRemove, i);
        assert connections.Keys == State().links.Keys == s.links.Keys - Firsts(toRemove, i);
        CloseOneMore(s, Firsts(toRemove, i), toRemove[i]);
        CloseAndDelete(toRemove[i]);
      }
    }

    /** The first loop of Cleanup: which entries to remove, each once. */
    method CollectStale(now: int) returns (toRemove: seq<Id>)
      requires Valid()
      ensures forall i, j :: 0 <= i < j < |toRemove| ==> toRemove[i] != toRemove[j]
      ensures Firsts(toRemove, |toRemove|) == Stale(config, State(), now)
    {
      toRemove := [];
      var todo := connections.Keys;
      while todo != {}
        invariant todo <= connections.Keys
        invariant forall i, j :: 0 <= i < j < |toRemove| ==> toRemove[i] != toRemove[j]
        invariant Firsts(toRemove, |toRemove|) == Stale(config, State(), now) - todo
      {
        var id :| id in todo;
        todo := todo - {id};
        if now - connections[id].lastSeen > config.keepAlive {
          FirstsAppend(toRemove, id);
          assert id !in Firsts(toRemove, |toRemove|);
          toRemove := toRemove + [id];
        }
      }
    }

    /** The body of the second loop of Cleanup. */
    method CloseAndDelete(id: Id)
      requires Valid() && id in connections
      modifies this
      ensures Valid() && State() == CloseSome(old(State()), {id})
    {
      closes := closes + 1;
      connections := connections - {id};
    }

    static function Firsts(ids: seq<Id>, i: nat): set<Id>
      requires i <= |ids|
    {
      set id | id in ids[..i]
    }

    static lemma FirstsGrow(ids: seq<Id>, i: nat)
      requires i < |ids| && forall j, k :: 0 <= j < k < |ids| ==> ids[j] != ids[k]
      ensures ids[i] !in Firsts(ids, i) && Firsts(ids, i + 1) == Firsts(ids, i) + {ids[i]}
      ensures ids[i] in Firsts(ids, |ids|)
    {
    }

    static lemma FirstsAppend(ids: seq<Id>, id: Id)
      ensures Firsts(ids + [id], |ids| + 1) == Firsts(ids, |ids|) + {id}
      ensures id in Firsts(ids, |ids|) <==> id in ids
    {
      assert ids[..|ids|] == ids && (ids + [id])[..|ids| + 1] == ids + [id];
    }

    static lemma CloseOneMore(s: PoolState, ids: set<Id>, id: Id)
      requires id !in ids
      ensures CloseSome(s, ids + {id}) == CloseSome(CloseSome(s, ids), {id})
    {
      assert s.links - (ids + {id}) == s.links - ids - {id};
    }

    method CloseAll()
      requires Valid()
      modifies this, connections.Values
      ensures Valid() && State() == Step(config, old(State()), Close)
      ensures forall id :: id in old(connections) ==> !old(connections)[id].isConnected
    {
      var todo := connections.Keys;
      while todo != {}
        modifies this`closes, connections.Values
        invariant todo <= connections.Keys && connections == old(connections)
        invariant dials == old(dials) && dropped == old(dropped)
        invariant closes == old(closes) + |connections.Keys| - |todo|
        invariant forall id :: id in connections && id !in todo ==> !connections[id].isConnected
      {
        var id :| id in todo;
        todo := todo - {id};
        closes := closes + 1;
        connections[id].isConnected := false;
      }
      connections := map[];
      assert old(State()).links.Keys == old(connections).Keys;
    }
  }
}
