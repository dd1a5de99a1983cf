/** What every run of the allocator keeps, where its scan lands, and what its count means. */
module AllocatorTheorems {
  import opened Bytes
  import opened Subnets
  import opened AllocatorSpec

  // ---------- First fit ----------

  /** The address i places ahead of c on the circle of `space` addresses. */
  function Ahead(c: nat, i: nat, space: nat): nat {
    if c + i < space then c + i else if i >= space || c >= space then 0 else c + i - space
  }

  lemma AheadStep(c: nat, i: nat, space: nat)
    requires c < space && i + 1 < space
    ensures Ahead(Succ(c, space), i, space) == Ahead(c, i + 1, space)
  {
  }

  /** The scan answers with the free address at the least forward distance below k, and fails
      exactly when all k addresses from the cursor are reserved or taken. */
  lemma {:induction false} FirstFit(net: Net, out: set<nat>, c: nat, k: nat)
    requires c < net.space && k <= net.space
    ensures var r := Scan(net, out, c, k);
            && (r.None? <==> forall i :: 0 <= i < k ==> !Free(net, out, Ahead(c, i, net.space)))
            && (r.Some? ==> exists i :: 0 <= i < k && IsFirstFit(net, out, c, i, r.value))
    decreases k
  {
    var space := net.space;
    if k > 0 && !Free(net, out, c) {
      var c' := Succ(c, space);
      FirstFit(net, out, c', k - 1);
      forall i | 1 <= i < k
        ensures Ahead(c', i - 1, space) == Ahead(c, i, space)
      {
        AheadStep(c, i - 1, space);
      }
      var r := Scan(net, out, c', k - 1);
      if r.Some? {
        var i :| 0 <= i < k - 1 && IsFirstFit(net, out, c', i, r.value);
        forall j | 0 <= j < i + 1
          ensures !Free(net, out, Ahead(c, j, space))
        {
          if j > 0 {
            assert !Free(net, out, Ahead(c', j - 1, space));
          }
        }
        assert IsFirstFit(net, out, c, i + 1, r.value);
      } else {
        forall i | 0 <= i < k
          ensures !Free(net, out, Ahead(c, i, space))
        {
          if i > 0 {
            assert !Free(net, out, Ahead(c', i - 1, space));
          }
        }
      }
    } else if k > 0 {
      assert Ahead(c, 0, space) == c;
      assert IsFirstFit(net, out, c, 0, c);
    }
  }

  ghost predicate IsFirstFit(net: Net, out: set<nat>, c: nat, i: nat, x: nat) {
    && x == Ahead(c, i, net.space) && Free(net, out, x)
    && forall j :: 0 <= j < i ==> !Free(net, out, Ahead(c, j, net.space))
  }

  // ---------- Runs ----------

  predicate StateOK(net: Net, s: AllocState) {
    s.cursor < net.space && forall x :: x in s.out ==> x < net.space && !Reserved(net, x)
  }

  lemma ScanInRange(net: Net, out: set<nat>, c: nat, k: int)
    requires c < net.space
    ensures var r := Scan(net, out, c, k); r.Some? ==> r.value < net.space && Free(net, out, r.value)
    decreases k
  {
  }

  lemma StepOK(net: Net, s: AllocState, op: Op)
    requires StateOK(net, s)
    ensures StateOK(net, Step(net, s, op).0)
    ensures var o := Step(net, s, op).1; o.Granted? ==> o.addr !in s.out && !Reserved(net, o.addr)
  {
    match op
    case Next => ScanInRange(net, s.out, s.cursor, net.total);
    case _ =>
  }

  lemma {:induction false} RunOK(net: Net, s: AllocState, ops: seq<Op>)
    requires StateOK(net, s)
    ensures StateOK(net, Run(net, s, ops))
  {
    if ops != [] {
      var n := |ops| - 1;
      RunOK(net, s, ops[..n]);
      StepOK(net, Run(net, s, ops[..n]), ops[n]);
    }
  }

  lemma InitOK(net: Net)
    ensures StateOK(net, Init(net))
  {
  }

  /** x was granted and not released since. */
  ghost predicate Outstanding(t: seq<Outcome>, x: nat) {
    exists i :: 0 <= i < |t| && t[i] == Granted(x) && forall j :: i < j < |t| ==> t[j] != Released(x)
  }

  lemma OutstandingAppend(t: seq<Outcome>, o: Outcome, x: nat)
    ensures Outstanding(t + [o], x) <==> o == Granted(x) || (Outstanding(t, x) && o != Released(x))
  {
    var u := t + [o];
    if Outstanding(t, x) && o != Released(x) {
      var i :| 0 <= i < |t| && t[i] == Granted(x) && forall j :: i < j < |t| ==> t[j] != Released(x);
      assert u[i] == Granted(x) && forall j :: i < j < |u| ==> u[j] != Released(x);
    }
    if o == Granted(x) {
      assert u[|t|] == Granted(x);
    }
    if Outstanding(u, x) && o != Granted(x) {
      var i :| 0 <= i < |u| && u[i] == Granted(x) && forall j :: i < j < |u| ==> u[j] != Released(x);
      assert i < |t| && u[|t|] == o;
      assert t[i] == Granted(x) && forall j :: i < j < |t| ==> t[j] == u[j];
    }
  }

  /** On every run the map holds exactly the addresses granted and not released since. */
  lemma {:induction false} MapIsLedger(net: Net, ops: seq<Op>, x: nat)
    ensures x in Run(net, Init(net), ops).out <==> Outstanding(Trace(net, Init(net), ops), x)
  {
    if ops != [] {
      var n := |ops| - 1;
      MapIsLedger(net, ops[..n], x);
      OutstandingAppend(Trace(net, Init(net), ops[..n]), Step(net, Run(net, Init(net), ops[..n]), ops[n]).1, x);
    }
  }

  lemma {:induction false} TraceAt(net: Net, s: AllocState, ops: seq<Op>, i: nat)
    requires i < |ops|
    ensures Trace(net, s, ops)[i] == Step(net, Run(net, s, ops[..i]), ops[i]).1
    ensures Trace(net, s, ops)[..i] == Trace(net, s, ops[..i])
  {
    var n := |ops| - 1;
    var t := Trace(net, s, ops[..n]);
    assert Trace(net, s, ops)[..n] == t;
    if i < n {
      TraceAt(net, s, ops[..n], i);
      assert ops[..n][..i] == ops[..i];
      assert Trace(net, s, ops)[i] == t[i] && Trace(net, s, ops)[..i] == t[..i];
    }
  }

  /** No address is granted twice without a release in between, and the network and broadcast
      addresses are never granted. */
  lemma {:induction false} GrantsAreExclusive(net: Net, ops: seq<Op>, i: nat, j: nat)
    requires i < j < |ops|
    requires Trace(net, Init(net), ops)[i].Granted?
    ensures var t := Trace(net, Init(net), ops);
            && !Reserved(net, t[i].addr)
            && (t[j] == t[i] ==> exists k :: i < k < j && t[k] == Released(t[i].addr))
  {
    var t := Trace(net, Init(net), ops);
    InitOK(net);
    TraceAt(net, Init(net), ops, i);
    RunOK(net, Init(net), ops[..i]);
    StepOK(net, Run(net, Init(net), ops[..i]), ops[i]);
    if t[j] == t[i] {
      var x := t[i].addr;
      TraceAt(net, Init(net), ops, j);
      RunOK(net, Init(net), ops[..j]);
      StepOK(net, Run(net, Init(net), ops[..j]), ops[j]);
      MapIsLedger(net, ops[..j], x);
      assert !Outstanding(t[..j], x);
      assert t[..j][i] == Granted(x);
    }
  }

  lemma AppendOp(net: Net, s: AllocState, ops: seq<Op>, op: Op)
    ensures Run(net, s, ops + [op]) == Step(net, Run(net, s, ops), op).0
    ensures Trace(net, s, ops + [op]) == Trace(net, s, ops) + [Step(net, Run(net, s, ops), op).1]
  {
    assert (ops + [op])[..|ops|] == ops;
  }

  lemma ReleaseStep(net: Net, s: AllocState, x: nat)
    ensures var (s', o) := Step(net, s, Release(Some(x)));
            && o == (if x in s.out then Released(x) else Failed)
            && s'.cursor == s.cursor && x !in s'.out
            && (forall y :: y != x ==> (y in s'.out <==> y in s.out))
            && Step(net, s', Specific(Some(x))).1 ==
               (if net.network < x < net.Broadcast() then Granted(x) else Failed)
  {
  }

  /** On every run, releasing an address succeeds exactly when it is outstanding; then it alone
      is given up, the cursor stays, and the address can be asked for again. */
  lemma ReleaseIffOutstanding(net: Net, ops: seq<Op>, x: nat)
    ensures var held := Outstanding(Trace(net, Init(net), ops), x);
            Trace(net, Init(net), ops + [Release(Some(x))])[|ops|] == if held then Released(x) else Failed
    ensures var was, now := Run(net, Init(net), ops), Run(net, Init(net), ops + [Release(Some(x))]);
            && now.cursor == was.cursor && x !in now.out
            && forall y :: y != x ==> (y in now.out <==> y in was.out)
    ensures var now := Run(net, Init(net), ops + [Release(Some(x))]);
            Step(net, now, Specific(Some(x))).1 ==
            if net.network < x < net.Broadcast() then Granted(x) else Failed
  {
    MapIsLedger(net, ops, x);
    AppendOp(net, Init(net), ops, Release(Some(x)));
    ReleaseStep(net, Run(net, Init(net), ops), x);
  }

  /** Asking for an address that is neither taken nor reserved and giving it up again leaves no
      trace; giving up an outstanding host and asking for it again neither. */
  lemma SpecificAndReleaseUndo(net: Net, s: AllocState, x: nat)
    requires net.network < x < net.Broadcast()
    ensures Run(net, s, [Specific(Some(x)), Release(Some(x))]) == s <==> x !in s.out
    ensures Run(net, s, [Release(Some(x)), Specific(Some(x))]) == s <==> x in s.out
  {
    var a, b := Specific(Some(x)), Release(Some(x));
    assert [a, b] == [] + [a] + [b] && [b, a] == [] + [b] + [a];
    AppendOp(net, s, [], a);
    AppendOp(net, s, [a], b);
    AppendOp(net, s, [], b);
    AppendOp(net, s, [b], a);
  }

  /** A call that fails changes nothing. */
  lemma FailureChangesNothing(net: Net, s: AllocState, op: Op)
    ensures Step(net, s, op).1.Failed? ==> Step(net, s, op).0 == s
  {
  }

  /** An address that is outstanding and never released stays outstanding and is never granted. */
  lemma {:induction false} HeldIsNeverGranted(net: Net, s: AllocState, ops: seq<Op>, x: nat)
    requires x in s.out
    requires forall i :: 0 <= i < |ops| ==> ops[i] != Release(Some(x))
    ensures x in Run(net, s, ops).out && Granted(x) !in Trace(net, s, ops)
  {
    if ops != [] {
      var n := |ops| - 1;
      HeldIsNeverGranted(net, s, ops[..n], x);
      var s' := Run(net, s, ops[..n]);
      ScanIsFree(net, s'.out, s'.cursor, net.total);
    }
  }

  lemma ScanIsFree(net: Net, out: set<nat>, c: nat, k: int)
    ensures var r := Scan(net, out, c, k); r.Some? ==> Free(net, out, r.value)
    decreases k
  {
  }

  /** The scan passes the end of the address space, or stops at its last address. */
  predicate Wraps(net: Net, s: AllocState) {
    var o := Step(net, s, Next).1;
    o.Granted? && (o.addr < s.cursor || o.addr + 1 == net.space)
  }

  lemma CursorMoves(net: Net, s: AllocState, op: Op)
    requires op.Next? ==> !Wraps(net, s)
    ensures Step(net, s, op).0.cursor >= s.cursor
    ensures op.Next? && Step(net, s, op).1.Granted? ==> Step(net, s, op).0.cursor == Step(net, s, op).1.addr + 1
  {
  }

  predicate NeverWraps(net: Net, s: AllocState, ops: seq<Op>) {
    ops == [] ||
    var n := |ops| - 1;
    NeverWraps(net, s, ops[..n]) && (ops[n].Next? ==> !Wraps(net, Run(net, s, ops[..n])))
  }

  lemma {:induction false} CursorStaysAhead(net: Net, s: AllocState, ops: seq<Op>, j: nat)
    requires NeverWraps(net, s, ops) && j <= |ops|
    ensures Run(net, s, ops).cursor >= s.cursor
    ensures j < |ops| && ops[j].Next? && Trace(net, s, ops)[j].Granted? ==> Trace(net, s, ops)[j].addr >= s.cursor
  {
    if ops != [] {
      var n := |ops| - 1;
      CursorStaysAhead(net, s, ops[..n], if j < n then j else n);
      CursorMoves(net, Run(net, s, ops[..n]), ops[n]);
    }
  }

  /** Released addresses are not reused: once x has been handed out, every address AllocateIP
      hands out until the cursor wraps at the end of the address space is above x, whatever
      was released in between. */
  lemma {:induction false} NoReuseBeforeWrap(net: Net, s: AllocState, ops: seq<Op>, j: nat)
    requires Step(net, s, Next).1.Granted? && !Wraps(net, s)
    requires NeverWraps(net, Step(net, s, Next).0, ops)
    requires j < |ops| && ops[j].Next?
    ensures var t := Trace(net, Step(net, s, Next).0, ops);
            t[j].Granted? ==> t[j].addr > Step(net, s, Next).1.addr
  {
    CursorMoves(net, s, Next);
    CursorStaysAhead(net, Step(net, s, Next).0, ops, j);
  }

  /** The size of the subnet once for every AllocateIP call. */
  function Travel(net: Net, ops: seq<Op>): nat {
    if ops == [] then 0
    else Travel(net, ops[..|ops| - 1]) + if ops[|ops| - 1].Next? then net.size else 0
  }

  /** Each allocation moves the cursor by at most the size of the subnet, so a caller that keeps
      the cursor plus size times calls below the size of the address space never sees a wrap. */
  lemma {:induction false} FewCallsNeverWrap(net: Net, s: AllocState, ops: seq<Op>)
    requires s.cursor + Travel(net, ops) < net.space
    ensures NeverWraps(net, s, ops)
    ensures Run(net, s, ops).cursor <= s.cursor + Travel(net, ops)
  {
    if ops != [] {
      var n := |ops| - 1;
      FewCallsNeverWrap(net, s, ops[..n]);
      StepMovesAtMostSize(net, Run(net, s, ops[..n]), ops[n]);
    }
  }

  lemma StepMovesAtMostSize(net: Net, s: AllocState, op: Op)
    requires s.cursor < net.space && (op.Next? ==> s.cursor + net.size < net.space)
    ensures op.Next? ==> !Wraps(net, s) && Step(net, s, op).0.cursor <= s.cursor + net.size
    ensures !op.Next? ==> Step(net, s, op).0.cursor == s.cursor
  {
    if op.Next? && net.Scannable() {
      FirstFit(net, s.out, s.cursor, net.size);
      var r := Scan(net, s.out, s.cursor, net.size);
      if r.Some? {
        var i :| 0 <= i < net.size && IsFirstFit(net, s.out, s.cursor, i, r.value);
      }
    }
  }

  /** The same with a bound that can be checked before the calls. */
  lemma NoReuseWithinBound(net: Net, s: AllocState, ops: seq<Op>, j: nat)
    requires s.cursor + net.size + Travel(net, ops) < net.space
    requires Step(net, s, Next).1.Granted? && j < |ops| && ops[j].Next?
    ensures var t := Trace(net, Step(net, s, Next).0, ops);
            t[j].Granted? ==> t[j].addr > Step(net, s, Next).1.addr
  {
    StepMovesAtMostSize(net, s, Next);
    FewCallsNeverWrap(net, Step(net, s, Next).0, ops);
    NoReuseBeforeWrap(net, s, ops, j);
  }

  // ---------- Containment ----------

  ghost predicate FreeHostIn(net: Net, out: set<nat>, lo: nat, hi: int) {
    exists y: nat :: lo <= y <= hi && Free(net, out, y)
  }

  /** What allocation is for: an address of the subnet when a host is free, an error when none
      is, and never an address from elsewhere. */
  ghost predicate LawfulAnswer(net: Net, out: set<nat>, answer: Option<nat>) {
    && (answer.Some? <==> FreeHostIn(net, out, net.network, net.Broadcast()))
    && (answer.Some? ==> net.Inside(answer.value))
  }

  function Answer(net: Net, s: AllocState): Option<nat> {
    match Step(net, s, Next).1
    case Granted(x) => Some(x)
    case _ => None
  }

  ghost predicate MeetsLaw(net: Net, s: AllocState) {
    LawfulAnswer(net, s.out, Answer(net, s))
  }

  /** Every address the scan would try is reserved or taken. */
  ghost predicate ScanBlocked(net: Net, s: AllocState) {
    forall i :: 0 <= i < net.size ==> !Free(net, s.out, Ahead(s.cursor, i, net.space))
  }

  predicate AnswersInside(net: Net, s: AllocState) {
    var o := Step(net, s, Next).1;
    o.Granted? && net.Inside(o.addr)
  }

  /** With the cursor inside the subnet, AllocateIP answers with an address of the subnet exactly
      when a free host remains at or above the cursor. */
  lemma InSubnetIffFreeAhead(net: Net, s: AllocState)
    requires net.Scannable() && net.size < net.space
    requires net.Inside(s.cursor)
    ensures AnswersInside(net, s) <==> FreeHostIn(net, s.out, s.cursor, net.Broadcast())
  {
    var c, k, space := s.cursor, net.size, net.space;
    FirstFit(net, s.out, c, k);
    var r := Scan(net, s.out, c, k);
    if FreeHostIn(net, s.out, c, net.Broadcast()) {
      var y: nat :| c <= y <= net.Broadcast() && Free(net, s.out, y);
      assert Ahead(c, y - c, space) == y;
      var i :| 0 <= i < k && IsFirstFit(net, s.out, c, i, r.value);
      assert i <= y - c;
    }
  }

  /** How far ahead of c the address x lies. */
  function Distance(c: nat, x: nat, space: nat): nat
    requires c < space
  {
    if x >= c then x - c else x + space - c
  }

  /** With the cursor outside, the answer is in the subnet exactly when the scan reaches it: all
      addresses from the cursor up to it are taken, and a free host lies in what is left of the scan. */
  lemma InSubnetFromOutside(net: Net, s: AllocState)
    requires net.Scannable() && net.size < net.space
    requires s.cursor < net.space && !net.Inside(s.cursor)
    ensures var d := Distance(s.cursor, net.network, net.space);
            AnswersInside(net, s) <==>
            && (forall i :: 0 <= i < d ==> Ahead(s.cursor, i, net.space) in s.out)
            && FreeHostIn(net, s.out, net.network, net.Broadcast() - d)
  {
    var c, k, space := s.cursor, net.size, net.space;
    var d := Distance(c, net.network, space);
    FirstFit(net, s.out, c, k);
    var r := Scan(net, s.out, c, k);
    forall i | 0 <= i < d ensures !net.Inside(Ahead(c, i, space)) {
    }
    if AnswersInside(net, s) {
      var i :| 0 <= i < k && IsFirstFit(net, s.out, c, i, r.value);
      assert i >= d;
      assert net.network <= r.value <= net.Broadcast() - d;
    }
    if FreeHostIn(net, s.out, net.network, net.Broadcast() - d) {
      var y: nat :| net.network <= y <= net.Broadcast() - d && Free(net, s.out, y);
      var j := d + y - net.network;
      assert Ahead(c, j, space) == y && 0 <= j < k;
      var i :| 0 <= i < k && IsFirstFit(net, s.out, c, i, r.value);
      assert i <= j;
    }
  }

  /** For the whole address space (/0 in IPv4) the intended law holds as it stands: AllocateIP
      succeeds exactly when a host is free. */
  lemma WholeSpaceMeetsLaw(net: Net, s: AllocState)
    requires net.Scannable() && net.size == net.space
    requires s.cursor < net.space
    ensures MeetsLaw(net, s)
  {
    var c, space := s.cursor, net.space;
    FirstFit(net, s.out, c, space);
    ScanInRange(net, s.out, c, space);
    if FreeHostIn(net, s.out, 0, net.Broadcast()) {
      var y: nat :| y <= net.Broadcast() && Free(net, s.out, y);
      var i := if y >= c then y - c else y + space - c;
      assert Ahead(c, i, space) == y;
    }
  }

  /** With the cursor inside the subnet, a call meets the law exactly when a free host lies at
      or above the cursor, or no host is free and the whole scan is blocked. */
  lemma LawFromInside(net: Net, s: AllocState)
    requires net.Scannable() && net.size < net.space
    requires net.Inside(s.cursor)
    ensures MeetsLaw(net, s) <==>
            || FreeHostIn(net, s.out, s.cursor, net.Broadcast())
            || (!FreeHostIn(net, s.out, net.network, net.Broadcast()) && ScanBlocked(net, s))
  {
    InSubnetIffFreeAhead(net, s);
    FirstFit(net, s.out, s.cursor, net.size);
  }

  /** With the cursor outside, exactly when everything up to the subnet is taken and a free host
      lies in the rest of the scan, or no host is free and the whole scan is blocked. */
  lemma LawFromOutside(net: Net, s: AllocState)
    requires net.Scannable() && net.size < net.space
    requires s.cursor < net.space && !net.Inside(s.cursor)
    ensures var d := Distance(s.cursor, net.network, net.space);
            MeetsLaw(net, s) <==>
            || ((forall i :: 0 <= i < d ==> Ahead(s.cursor, i, net.space) in s.out)
                && FreeHostIn(net, s.out, net.network, net.Broadcast() - d))
            || (!FreeHostIn(net, s.out, net.network, net.Broadcast()) && ScanBlocked(net, s))
  {
    InSubnetFromOutside(net, s);
    FirstFit(net, s.out, s.cursor, net.size);
  }

  /** An IPv6 prefix of 65 bits or fewer, that is more than 62 host bits: the size overflows,
      nothing is ever scanned, and a call meets the law only when no host is free. */
  lemma LongPrefixNeverScans(sub: Subnet, s: AllocState)
    requires sub.Host() > 62
    ensures var net := NetOf(sub);
            && Step(net, s, Next) == (s, Failed)
            && (MeetsLaw(net, s) <==> !FreeHostIn(net, s.out, net.network, net.Broadcast()))
  {
    ScannableIsShort(sub);
  }

  /** A fresh allocator of such a prefix has hosts to give and gives none. */
  lemma FreshLongPrefixBreaksLaw(sub: Subnet)
    requires sub.Host() > 62
    ensures !MeetsLaw(NetOf(sub), Init(NetOf(sub)))
  {
    var net := NetOf(sub);
    LongPrefixNeverScans(sub, Init(net));
    Pow2Grows(1, sub.Host());
    assert Free(net, {}, net.network + 1);
  }

  /** The n numbers from lo on. */
  function Interval(lo: nat, n: nat): (r: set<nat>) {
    if n == 0 then {} else Interval(lo, n - 1) + {lo + n - 1}
  }

  lemma {:induction false} IntervalMember(lo: nat, n: nat, x: nat)
    ensures x in Interval(lo, n) <==> lo <= x < lo + n
  {
    if n > 0 {
      IntervalMember(lo, n - 1, x);
    }
  }

  lemma {:induction false} IntervalSize(lo: nat, n: nat)
    ensures |Interval(lo, n)| == n
  {
    if n > 0 {
      IntervalMember(lo, n - 1, lo + n - 1);
      IntervalSize(lo, n - 1);
    }
  }

  // ---------- Fresh allocation in order ----------

  function Nexts(k: nat): (ops: seq<Op>)
    ensures |ops| == k
  {
    if k == 0 then [] else Nexts(k - 1) + [Next]
  }

  /** The usable hosts of a subnet: all but the network and broadcast addresses. */
  function Usable(net: Net): nat {
    if net.size < 2 then 0 else net.size - 2
  }

  lemma TakeAtCursor(net: Net, s: AllocState)
    requires net.Scannable() && Free(net, s.out, s.cursor)
    ensures Step(net, s, Next) ==
            (AllocState(Succ(s.cursor, net.space), s.out + {s.cursor}), Granted(s.cursor))
  {
    ScanStep(net, s.out, s.cursor, net.total, Succ(s.cursor, net.space));
  }

  /** The k-th allocation on a fresh allocator is network + k, while usable hosts last. */
  lemma {:induction false} FreshInOrder(net: Net, k: nat)
    requires net.Scannable() && k <= Usable(net)
    ensures Run(net, Init(net), Nexts(k)) ==
            AllocState(Succ(net.network + k, net.space), Interval(net.network + 1, k))
    ensures k > 0 ==> Trace(net, Init(net), Nexts(k))[k - 1] == Granted(net.network + k)
  {
    if k > 0 {
      FreshInOrder(net, k - 1);
      assert Nexts(k)[..k - 1] == Nexts(k - 1);
      var s := Run(net, Init(net), Nexts(k - 1));
      IntervalMember(net.network + 1, k - 1, s.cursor);
      TakeAtCursor(net, s);
    }
  }

  /** After the last usable host the next allocation leaves the subnet: it is broadcast + 1,
      except that the whole address space is exhausted instead. */
  lemma FreshOverflow(net: Net)
    requires net.Scannable()
    ensures Step(net, Run(net, Init(net), Nexts(Usable(net))), Next).1 ==
            (if net.size == net.space then Failed else Granted(Succ(net.Broadcast(), net.space)))
    ensures net.size < net.space ==> !net.Inside(Succ(net.Broadcast(), net.space))
  {
    FreshInOrder(net, Usable(net));
    OverflowStep(net, Run(net, Init(net), Nexts(Usable(net))));
  }

  /** Where the law breaks: on every subnet short of the whole address space, the call after a
      fresh run through all usable hosts should fail and does not. */
  lemma FullSubnetBreaksLaw(net: Net)
    requires net.Scannable() && net.size < net.space
    ensures var s := Run(net, Init(net), Nexts(Usable(net)));
            && !FreeHostIn(net, s.out, net.network, net.Broadcast())
            && Step(net, s, Next).1.Granted? && !MeetsLaw(net, s)
            && (net.size >= 2 ==> net.Inside(s.cursor))
  {
    FreshOverflow(net);
    FreshInOrder(net, Usable(net));
    var s := Run(net, Init(net), Nexts(Usable(net)));
    forall y: nat | net.Inside(y) ensures !Free(net, s.out, y) {
      IntervalMember(net.network + 1, Usable(net), y);
    }
  }

  lemma OverflowStep(net: Net, s: AllocState)
    requires net.Scannable()
    requires s == AllocState(Succ(net.network + Usable(net), net.space), Interval(net.network + 1, Usable(net)))
    ensures Step(net, s, Next).1 ==
            (if net.size == net.space then Failed else Granted(Succ(net.Broadcast(), net.space)))
  {
    var last, space := net.Broadcast(), net.space;
    if net.size == space {
      forall x: nat ensures x in s.out <==> net.network < x < last { IntervalMember(1, Usable(net), x); }
      WholeSpaceMeetsLaw(net, s);
    } else if net.size == 1 {
      TakeAtCursor(net, s);
    } else {
      var beyond := Succ(last, space);
      ScanStep(net, s.out, last, net.size, beyond);
      ScanStep(net, s.out, beyond, net.size - 1, Succ(beyond, space));
      IntervalMember(net.network + 1, Usable(net), beyond);
    }
  }

  // ---------- Counting ----------

  /** The addresses of the subnet that are neither reserved nor outstanding. */
  ghost function FreeHosts(net: Net, s: AllocState): set<nat> {
    Interval(net.network, net.size) - {net.network, net.Broadcast()} - s.out
  }

  ghost function InsideOut(net: Net, s: AllocState): set<nat> {
    Interval(net.network, net.size) * s.out
  }

  lemma Complement<T>(a: set<T>, b: set<T>, all: set<T>)
    requires a !! b && a + b == all
    ensures |a| + |b| == |all|
  {
  }

  /** The true number of free hosts: all addresses less the two reserved and the outstanding
      ones inside the subnet. */
  lemma CountFreeHosts(net: Net, s: AllocState)
    requires StateOK(net, s) && net.size >= 2
    ensures |FreeHosts(net, s)| == net.size - 2 - |InsideOut(net, s)|
  {
    var lo: nat, hi: nat := net.network, net.Broadcast();
    IntervalSize(lo, net.size);
    IntervalMember(lo, net.size, lo);
    IntervalMember(lo, net.size, hi);
    assert lo !in s.out && hi !in s.out;
    WithoutTwo(Interval(lo, net.size), s.out, lo, hi);
  }

  lemma WithoutTwo(all: set<nat>, out: set<nat>, lo: nat, hi: nat)
    requires lo in all && hi in all && lo != hi && lo !in out && hi !in out
    ensures |all - {lo, hi} - out| == |all| - 2 - |all * out|
  {
    var free := all - {lo, hi} - out;
    Complement(all * out, {lo, hi}, all * out + {lo, hi});
    Complement(free, all * out + {lo, hi}, all);
  }

  lemma CountDoesNotOverflow(net: Net, s: AllocState)
    requires net.Scannable() && LenIsInt(s)
    ensures AvailableCount(net, s) == net.size - |s.out| - 2
  {
  }

  /** GetAvailableCount is the number of free hosts exactly when no outstanding address lies
      outside the subnet. */
  lemma AvailableIsFreeHosts(net: Net, s: AllocState)
    requires StateOK(net, s) && net.size >= 2 && net.Scannable() && LenIsInt(s)
    ensures AvailableCount(net, s) == |FreeHosts(net, s)| <==> forall x :: x in s.out ==> net.Inside(x)
    ensures AvailableCount(net, s) <= |FreeHosts(net, s)|
  {
    CountDoesNotOverflow(net, s);
    CountFreeHosts(net, s);
    forall x ensures x in InsideOut(net, s) <==> x in s.out && net.Inside(x) {
      IntervalMember(net.network, net.size, x);
    }
    var outside := s.out - InsideOut(net, s);
    Complement(InsideOut(net, s), outside, s.out);
    assert outside == {} <==> forall x :: x in s.out ==> net.Inside(x);
  }

  /** The first n addresses met going forward from c. */
  function Ring(c: nat, n: nat, space: nat): (r: set<nat>)
    requires c < space && n <= space
    ensures |r| == n
    ensures forall x :: x in r <==> exists i :: 0 <= i < n && x == Ahead(c, i, space)
  {
    if n == 0 then {}
    else
      assert forall i :: 0 <= i < n - 1 ==> Ahead(c, i, space) != Ahead(c, n - 1, space);
      Ring(c, n - 1, space) + {Ahead(c, n - 1, space)}
  }

  lemma SubsetSize<T>(a: set<T>, b: set<T>)
    requires a <= b
    ensures |a| <= |b|
  {
    assert b == a + (b - a);
  }

  /** While GetAvailableCount is positive AllocateIP succeeds, wherever the cursor is, exactly
      when the size of the subnet did not overflow. */
  lemma PositiveCountSucceeds(net: Net, s: AllocState)
    requires s.cursor < net.space && LenIsInt(s)
    requires AvailableCount(net, s) > 0
    ensures Step(net, s, Next).1.Granted? <==> net.Scannable()
  {
    if net.Scannable() {
      var c, n, space := s.cursor, net.size, net.space;
      CountDoesNotOverflow(net, s);
      FirstFit(net, s.out, c, n);
      var blocked := s.out + {net.network} + {net.Broadcast()};
      assert |blocked| <= |s.out| + 2;
      if Scan(net, s.out, c, n).None? {
        SubsetSize(Ring(c, n, space), blocked);
      }
    }
  }

  /** Where the count promises addresses and AllocateIP has none: all IPv6 /65 subnets but full
      ones; with more host bits only if the map were as large as an int can say. */
  lemma CountMisleadsIff(sub: Subnet, s: AllocState)
    requires s.cursor < NetOf(sub).space && LenIsInt(s)
    ensures AvailableCount(NetOf(sub), s) > 0 && Step(NetOf(sub), s, Next).1.Failed? <==>
            if sub.Host() == 63 then |s.out| < 0x7FFF_FFFF_FFFF_FFFE
            else sub.Host() > 63 && |s.out| == 0x7FFF_FFFF_FFFF_FFFF
  {
    var net := NetOf(sub);
    ScannableIsShort(sub);
    if AvailableCount(net, s) > 0 {
      PositiveCountSucceeds(net, s);
    }
  }

  /** A fresh allocator of 63 host bits counts 2^63 - 2 addresses and gives out none. */
  lemma FreshCountMisleads(sub: Subnet)
    requires sub.Host() == 63
    ensures var net := NetOf(sub);
            && AvailableCount(net, Init(net)) == 0x7FFF_FFFF_FFFF_FFFE
            && Step(net, Init(net), Next).1 == Failed
  {
  }

  // ---------- A repaired scan ----------

  /** Repaired variant, not the program's: the cursor moves on the circle of the subnet itself. */
  function WrapScan(net: Net, out: set<nat>, d: nat, k: nat): Option<nat>
    requires d < net.size
    decreases k
  {
    if k == 0 then None
    else if Free(net, out, net.network + d) then Some(net.network + d)
    else WrapScan(net, out, Succ(d, net.size), k - 1)
  }

  lemma {:induction false} WrapScanIsFirstFit(net: Net, out: set<nat>, d: nat, k: nat)
    requires d < net.size && k <= net.size
    ensures var r := WrapScan(net, out, d, k);
            && (r.Some? ==> net.Inside(r.value) && Free(net, out, r.value))
            && (r.None? ==> forall i :: 0 <= i < k ==> !Free(net, out, net.network + Ahead(d, i, net.size)))
    decreases k
  {
    if k > 0 && !Free(net, out, net.network + d) {
      var n, d' := net.size, Succ(d, net.size);
      WrapScanIsFirstFit(net, out, d', k - 1);
      if WrapScan(net, out, d, k).None? {
        forall i | 0 <= i < k
          ensures !Free(net, out, net.network + Ahead(d, i, n))
        {
          if i > 0 {
            AheadStep(d, i - 1, n);
          }
        }
      }
    }
  }

  /** The repaired scan meets the law for every cursor position, on every subnet. */
  lemma RepairedLaw(net: Net, out: set<nat>, d: nat)
    requires d < net.size
    ensures var r := WrapScan(net, out, d, net.size);
            LawfulAnswer(net, out, r) && (r.Some? ==> Free(net, out, r.value))
  {
    var n := net.size;
    WrapScanIsFirstFit(net, out, d, n);
    if FreeHostIn(net, out, net.network, net.Broadcast()) {
      var y: nat :| net.network <= y <= net.Broadcast() && Free(net, out, y);
      var e := y - net.network;
      assert Ahead(d, if e >= d then e - d else e + n - d, n) == e;
    }
  }

  /** Where the program's scan stays in the subnet, the repaired one gives the same answer. */
  lemma {:induction false} RepairedAgrees(net: Net, out: set<nat>, c: nat, k: nat)
    requires net.Inside(c) && c + k <= net.Broadcast() + 1
    ensures Scan(net, out, c, k) == WrapScan(net, out, c - net.network, k)
    decreases k
  {
    if k > 0 && c < net.Broadcast() {
      RepairedAgrees(net, out, c + 1, k - 1);
    }
  }
}
