/**
  Reserve and Free of pkg/ipam as a step machine over one network object on the API
  server, with any number of processes interleaved.  The server accepts an update only
  with the current version; otherwise the caller re-reads and tries again.  The history
  of the object is proved to be that of an atomic allocator, and the ways in which
  the code departs from it are stated exactly.
 */
module IpamProtocol {
  import opened Wrappers
  import opened Addressing
  import opened Ipam
  import opened AtomicAllocator

  /** The part of a network object that does not change. */
  datatype Net = Net(nets4: Subnets, start4: Ip, end4: Ip, nets6: Subnets, start6: Ip, end6: Ip)

  /** The part of the spec that allocation writes. */
  datatype Spec = Spec(alloc4: Bitmap, last4: LastIp, alloc6: Bitmap, last6: LastIp)

  datatype Res = Res(v6: bool, index: nat)

  datatype Lease = Lease(a4: Address, a6: Address)

  function Pool4(net: Net, spec: Spec): Pool { Pool(net.start4, net.end4, spec.last4) }
  function Pool6(net: Net, spec: Spec): Pool { Pool(net.start6, net.end6, spec.last6) }

  /** What admission establishes and every commit keeps. */
  ghost predicate Good(net: Net, spec: Spec) {
    && (net.nets4.L3? ==> Indexable(net.nets4.alloc) && InBounds(Pool4(net, spec), spec.alloc4, net.nets4))
    && (net.nets6.L3? ==> Indexable(net.nets6.alloc) && InBounds(Pool6(net, spec), spec.alloc6, net.nets6))
    && (forall i :: i in spec.alloc4.on ==> i < spec.alloc4.size)
    && (forall i :: i in spec.alloc6.on ==> i < spec.alloc6.size)
  }

  ghost predicate GoodNet(net: Net) {
    && (net.nets4.L3? ==> Indexable(net.nets4.alloc) && ValidCidr(net.nets4.net))
    && (net.nets6.L3? ==> Indexable(net.nets6.alloc) && ValidCidr(net.nets6.net))
  }

  ghost function Tagged(v6: bool, on: set<nat>): (rs: set<Res>)
    ensures forall r :: r in rs <==> r.v6 == v6 && r.index in on
  {
    set i | i in on :: Res(v6, i)
  }

  ghost function Bits(spec: Spec): set<Res> {
    Tagged(false, spec.alloc4.on) + Tagged(true, spec.alloc6.on)
  }

  ghost function AddressBits(net: Net, lease: Lease, v6: bool): set<Res>
    requires GoodNet(net)
  {
    if v6 then Tagged(true, BitOf(lease.a6, net.nets6)) else Tagged(false, BitOf(lease.a4, net.nets4))
  }

  ghost function LeaseBits(net: Net, lease: Lease): set<Res>
    requires GoodNet(net)
  {
    AddressBits(net, lease, false) + AddressBits(net, lease, true)
  }

  // ---- one pass of the loops ----

  /** allocateIps: IPv4 first; a refusal in either family refuses the whole request. */
  ghost function AllocateIps(net: Net, spec: Spec, req4: Request, req6: Request): Option<(Spec, Lease)>
    requires GoodNet(net)
  {
    var r4 := AllocateAddress(Pool4(net, spec), spec.alloc4, req4, net.nets4);
    if r4.Refused? then None
    else
      var r6 := AllocateAddress(Pool6(net, spec), spec.alloc6, req6, net.nets6);
      if r6.Refused? then None
      else Some((Spec(r4.alloc, r4.last, r6.alloc, r6.last), Lease(r4.address, r6.address)))
  }

  ghost function FreeIp(net: Net, spec: Spec, lease: Lease, v6: bool): Spec
    requires GoodNet(net)
  {
    if v6 then spec.(alloc6 := ResetIp(spec.alloc6, lease.a6, net.nets6))
    else spec.(alloc4 := ResetIp(spec.alloc4, lease.a4, net.nets4))
  }

  function Without(lease: Lease, v6: bool): Lease {
    if v6 then lease.(a6 := NoAddress) else lease.(a4 := NoAddress)
  }

  /**
    A running call: Reserve with its two requests, or Free of one address of what is still owed of a
    lease that has been held since a version, for the deletion of the DanmEp that lists the lease.
   */
  datatype Call =
    | ReserveCall(req4: Request, req6: Request)
    | FreeCall(lease: Lease, since: nat, listed: Lease, v6: bool)

  /** What a pass computes from its copy: the spec to put and the lease the caller is left with. */
  ghost function Pass(net: Net, call: Call, spec: Spec): Option<(Spec, Lease)>
    requires GoodNet(net)
  {
    match call
    case ReserveCall(req4, req6) => AllocateIps(net, spec, req4, req6)
    case FreeCall(lease, _, _, v6) => Some((FreeIp(net, spec, lease, v6), Without(lease, v6)))
  }

  // ---- the step machine ----

  datatype Copy = Copy(ver: nat, spec: Spec)

  /**
    `orig` is captured once, at the first read; `cur` is the copy the present pass works on.  A holder's
    DanmEp lists `listed`; while its deletion runs, `lease` is what is left of that to be freed.
   */
  datatype Proc =
    | Idle
    | Holding(lease: Lease, since: nat, listed: Lease)
    | Running(call: Call, orig: Copy, cur: Copy, tries: nat)
    | Putting(call: Call, orig: Copy, cur: Copy, next: Spec, got: Lease, tries: nat)
    | Conflicted(call: Call, orig: Copy, cur: Copy, tries: nat)

  /** `hist` are all versions of the object on the server; `log` the operations that led from each to the next. */
  datatype State = State(hist: seq<Spec>, log: seq<Op<Res>>, procs: map<nat, Proc>)

  datatype Action =
    | BeginReserve(req4: Request, req6: Request, ver: nat)
    | BeginFree(v6: bool, ver: nat)
    | Try
    | Send
    | SendError
    | SendReplyLost
    | Reread
    | RereadError
    | Deleted
    | Abandon

  datatype Event = Event(pid: nat, action: Action)

  function Of(s: State, pid: nat): Proc { if pid in s.procs then s.procs[pid] else Idle }

  function Top(s: State): nat
    requires |s.hist| > 0
  {
    |s.hist| - 1
  }

  /** The process has a DanmEp, possibly while it frees one of its addresses. */
  predicate Keeps(p: Proc) { p.Holding? || (!p.Idle? && p.call.FreeCall?) }

  function ListedBy(p: Proc): Lease
    requires Keeps(p)
  {
    if p.Holding? then p.listed else p.call.listed
  }

  function OwedBy(p: Proc): Lease
    requires Keeps(p)
  {
    if p.Holding? then p.lease else p.call.lease
  }

  function SinceOf(p: Proc): nat
    requires Keeps(p)
  {
    if p.Holding? then p.since else p.call.since
  }

  /** After an error the deletion ends, and the DanmEp lists what it has listed all along. */
  function Kept(listed: Lease, since: nat): Proc { Holding(listed, since, listed) }

  /** What a call that ends in an error leaves behind. */
  function Failed(call: Call): Proc {
    if call.FreeCall? then Kept(call.listed, call.since) else Idle
  }

  function Returned(call: Call, got: Lease, ver: nat): Proc {
    if call.FreeCall? then Holding(got, call.since, call.listed) else Holding(got, ver, got)
  }

  ghost function Operation(net: Net, pid: nat, call: Call, got: Lease, replyLost: bool): Op<Res>
    requires GoodNet(net)
  {
    if call.FreeCall? then Give(pid, AddressBits(net, call.lease, call.v6))
    else Take(if replyLost then Lost else By(pid), LeaseBits(net, got))
  }

  /** The update that is about to arrive carries the current version. */
  predicate Accepted(s: State, e: Event)
    requires |s.hist| > 0
  {
    var p := Of(s, e.pid);
    p.Putting? && p.cur.ver == Top(s) && (e.action.Send? || e.action.SendReplyLost?)
  }

  /**
    A step that leaves the server alone changes what one process remembers, or nothing if it does not apply.
    `Deleted` removes a DanmEp with nothing left to free; `Abandon` stands for an error of that removal,
    and for a process that is killed.
   */
  ghost function Remember(net: Net, s: State, p: Proc, action: Action): Proc
    requires GoodNet(net) && |s.hist| > 0
  {
    match action
    case BeginReserve(req4, req6, ver) =>
      if p.Idle? && ver < |s.hist| then
        Running(ReserveCall(req4, req6), Copy(ver, s.hist[ver]), Copy(ver, s.hist[ver]), 0)
      else p
    case BeginFree(v6, ver) =>
      if p.Holding? && p.since <= ver < |s.hist| then
        Running(FreeCall(p.lease, p.since, p.listed, v6), Copy(ver, s.hist[ver]), Copy(ver, s.hist[ver]), 0)
      else p
    case Try => if p.Running? then AfterPass(net, s, p) else p
    case Send => if p.Putting? then Conflicted(p.call, p.orig, p.cur, p.tries) else p
    case SendError => if p.Putting? then Failed(p.call) else p
    case SendReplyLost => p
    case Reread =>
      if p.Conflicted? then Running(p.call, p.orig, Copy(Top(s), s.hist[Top(s)]), p.tries + 1) else p
    case RereadError => if p.Conflicted? then Failed(p.call) else p
    case Deleted => if p.Holding? && LeaseBits(net, p.lease) == {} then Idle else p
    case Abandon => if p.Idle? then Idle else if p.Holding? then Kept(p.listed, p.since) else Failed(p.call)
  }

  /** A pass ends in a refusal, in a return because nothing seems to have changed, or in a PUT. */
  ghost function AfterPass(net: Net, s: State, p: Proc): Proc
    requires GoodNet(net) && |s.hist| > 0 && p.Running?
  {
    var pass := Pass(net, p.call, p.cur.spec);
    if pass.None? then Failed(p.call)
    else if pass.value.0 == p.orig.spec then Returned(p.call, pass.value.1, Top(s))
    else Putting(p.call, p.orig, p.cur, pass.value.0, pass.value.1, p.tries)
  }

  /** One step of one process. */
  ghost function Do(net: Net, s: State, e: Event): State
    requires GoodNet(net) && |s.hist| > 0
  {
    if Accepted(s, e) then Commit(net, s, e.pid, e.action.SendReplyLost?)
    else s.(procs := s.procs[e.pid := Remember(net, s, Of(s, e.pid), e.action)])
  }

  /**
    An accepted update.  When the reply is lost, the call reports an error to its caller as if
    nothing had been written.
   */
  ghost function Commit(net: Net, s: State, pid: nat, replyLost: bool): State
    requires GoodNet(net) && Of(s, pid).Putting?
  {
    var p := Of(s, pid);
    State(s.hist + [p.next], s.log + [Operation(net, pid, p.call, p.got, replyLost)],
      s.procs[pid := if replyLost then Failed(p.call) else Returned(p.call, p.got, |s.hist|)])
  }

  ghost function Run(net: Net, s: State, events: seq<Event>): State
    requires GoodNet(net) && |s.hist| > 0
    ensures |Run(net, s, events).hist| > 0
    decreases |events|
  {
    if |events| == 0 then s else Run(net, Do(net, s, events[0]), events[1..])
  }

  /** A network object nobody has used yet. */
  function Fresh(spec: Spec): State { State([spec], [], map[]) }

  /** All bits set at the start belong to the system: network address, broadcast address, gateways. */
  ghost function Book0(spec: Spec): map<Res, Owner> {
    map r | r in Bits(spec) :: System
  }

  // ---- the departures from the atomic allocator ----

  /** A Reserve pass that set a bit is about to return without a PUT, because its spec equals the first copy. */
  ghost predicate StaleReturn(net: Net, s: State, e: Event)
    requires GoodNet(net)
  {
    var p := Of(s, e.pid);
    && e.action.Try? && p.Running? && p.call.ReserveCall?
    && var pass := Pass(net, p.call, p.cur.spec);
       pass.Some? && pass.value.0 == p.orig.spec && LeaseBits(net, pass.value.1) != {}
  }

  /** A Free whose update is accepted but whose reply is lost: its caller keeps an address whose bit is clear. */
  predicate LostFree(s: State, e: Event)
    requires |s.hist| > 0
  {
    Accepted(s, e) && e.action.SendReplyLost? && Of(s, e.pid).call.FreeCall?
  }

  /** The deletion of a DanmEp ends in an error, outside a call or in one that has not written. */
  predicate Fails(p: Proc, action: Action) {
    Keeps(p) && ((action.SendError? && p.Putting?) || (action.RereadError? && p.Conflicted?) || action.Abandon?)
  }

  /** It does so after a bit of the DanmEp was cleared, which goes on listing the address. */
  ghost predicate HalfDeleted(net: Net, s: State, e: Event)
    requires GoodNet(net)
  {
    var p := Of(s, e.pid);
    Fails(p, e.action) && LeaseBits(net, OwedBy(p)) != LeaseBits(net, ListedBy(p))
  }

  ghost predicate Slip(net: Net, s: State, e: Event)
    requires GoodNet(net) && |s.hist| > 0
  {
    StaleReturn(net, s, e) || LostFree(s, e) || HalfDeleted(net, s, e)
  }

  ghost predicate NoSlip(net: Net, s: State, events: seq<Event>)
    requires GoodNet(net) && |s.hist| > 0
    decreases |events|
  {
    |events| > 0 ==> !Slip(net, s, events[0]) && NoSlip(net, Do(net, s, events[0]), events[1..])
  }

  // ---- the invariant ----

  ghost function HeldBits(net: Net, p: Proc): set<Res>
    requires GoodNet(net)
  {
    match p
    case Idle => {}
    case Holding(lease, _, _) => LeaseBits(net, lease)
    case _ => if p.call.FreeCall? then LeaseBits(net, p.call.lease) else {}
  }

  ghost predicate IsCopy(s: State, c: Copy) {
    c.ver < |s.hist| && c.spec == s.hist[c.ver]
  }

  /** Since the version it was taken at, every version on the server has had the lease's bits set. */
  ghost predicate Backed(net: Net, s: State, lease: Lease, since: nat)
    requires GoodNet(net)
  {
    since < |s.hist| && forall v :: since <= v < |s.hist| ==> LeaseBits(net, lease) <= Bits(s.hist[v])
  }

  ghost predicate CallOk(net: Net, s: State, call: Call, orig: Copy, cur: Copy, tries: nat)
    requires GoodNet(net)
  {
    && IsCopy(s, orig) && IsCopy(s, cur) && orig.ver + tries <= cur.ver
    && (call.FreeCall? ==>
          && call.since <= orig.ver && Backed(net, s, call.lease, call.since)
          && LeaseBits(net, call.lease) <= LeaseBits(net, call.listed))
    && (call.FreeCall? && AddressBits(net, call.lease, call.v6) == {} ==> cur == orig)
  }

  /** Only a Free with a bit to clear ever gets as far as a PUT. */
  ghost predicate HasWork(net: Net, call: Call)
    requires GoodNet(net)
  {
    call.FreeCall? ==> AddressBits(net, call.lease, call.v6) != {}
  }

  ghost predicate ProcOk(net: Net, s: State, p: Proc)
    requires GoodNet(net)
  {
    match p
    case Idle => true
    case Holding(lease, since, listed) =>
      Backed(net, s, lease, since) && LeaseBits(net, lease) <= LeaseBits(net, listed)
    case Running(call, orig, cur, tries) => CallOk(net, s, call, orig, cur, tries)
    case Putting(call, orig, cur, next, got, tries) =>
      CallOk(net, s, call, orig, cur, tries) && HasWork(net, call) && Pass(net, call, cur.spec) == Some((next, got))
    case Conflicted(call, orig, cur, tries) =>
      CallOk(net, s, call, orig, cur, tries) && HasWork(net, call) && cur.ver < |s.hist| - 1
  }

  ghost predicate HistoryOk(net: Net, spec0: Spec, s: State)
    requires GoodNet(net)
  {
    && |s.hist| == |s.log| + 1
    && LegalLog(Book0(spec0), s.log)
    && forall v :: 0 <= v < |s.hist| ==>
      Good(net, s.hist[v]) && Bits(s.hist[v]) == Replay(Book0(spec0), s.log[..v]).Keys
  }

  ghost predicate Inv(net: Net, spec0: Spec, s: State)
    requires GoodNet(net)
  {
    && HistoryOk(net, spec0, s)
    && (forall pid :: HeldBits(net, Of(s, pid)) == Owned(Replay(Book0(spec0), s.log), pid))
    && (forall pid :: ProcOk(net, s, Of(s, pid)))
  }

  lemma FreshInv(net: Net, spec0: Spec)
    requires GoodNet(net) && Good(net, spec0)
    ensures Inv(net, spec0, Fresh(spec0))
  {
  }

  // ---- what one pass does to the bits ----

  lemma AllocateIpsBits(net: Net, spec: Spec, req4: Request, req6: Request)
    requires GoodNet(net) && Good(net, spec) && AllocateIps(net, spec, req4, req6).Some?
    ensures var (next, got) := AllocateIps(net, spec, req4, req6).value;
      Good(net, next) && Bits(next) == Bits(spec) + LeaseBits(net, got) && LeaseBits(net, got) !! Bits(spec)
  {
    var (next, got) := AllocateIps(net, spec, req4, req6).value;
    AllocateThenReset(Pool4(net, spec), spec.alloc4, req4, net.nets4);
    AllocateThenReset(Pool6(net, spec), spec.alloc6, req6, net.nets6);
    assert forall r :: r in Bits(next) <==> r in Bits(spec) + LeaseBits(net, got);
  }

  /** Both requests can be granted. */
  ghost predicate Grants(net: Net, spec: Spec, req4: Request, req6: Request)
    requires GoodNet(net)
  {
    && Grantable(Pool4(net, spec), spec.alloc4, req4, net.nets4)
    && Grantable(Pool6(net, spec), spec.alloc6, req6, net.nets6)
  }

  /** The lease is what the two requests asked for. */
  ghost predicate Fits(net: Net, req4: Request, req6: Request, lease: Lease)
    requires GoodNet(net)
  {
    Answers(req4, lease.a4, net.nets4) && Answers(req6, lease.a6, net.nets6)
  }

  /** A request for two addresses is granted exactly if both can be, and gets the two asked for. */
  lemma AllocateIpsExactly(net: Net, spec: Spec, req4: Request, req6: Request)
    requires GoodNet(net) && Good(net, spec)
    ensures var r := AllocateIps(net, spec, req4, req6);
      && (r.Some? <==> Grants(net, spec, req4, req6)) && (r.Some? ==> Fits(net, req4, req6, r.value.1))
  {
    GrantedExactly(Pool4(net, spec), spec.alloc4, req4, net.nets4);
    GrantedExactly(Pool6(net, spec), spec.alloc6, req6, net.nets6);
    hide AllocateAddress, Grantable, Answers;
  }

  lemma FreeIpBits(net: Net, spec: Spec, lease: Lease, v6: bool)
    requires GoodNet(net) && Good(net, spec)
    ensures var next := FreeIp(net, spec, lease, v6);
      Good(net, next) && Bits(next) == Bits(spec) - AddressBits(net, lease, v6)
    ensures LeaseBits(net, Without(lease, v6)) == LeaseBits(net, lease) - AddressBits(net, lease, v6)
  {
  }

  /** A Free of an address without a bit changes nothing. */
  lemma FreeOfNothing(net: Net, spec: Spec, lease: Lease, v6: bool)
    requires GoodNet(net) && AddressBits(net, lease, v6) == {}
    ensures FreeIp(net, spec, lease, v6) == spec
  {
    var bit := if v6 then BitOf(lease.a6, net.nets6) else BitOf(lease.a4, net.nets4);
    assert forall i :: i in bit ==> Res(v6, i) in AddressBits(net, lease, v6);
    assert bit == {};
  }

  // ---- preservation ----

  /** A step that changes only what one process remembers, not what it holds. */
  lemma LocalStep(net: Net, spec0: Spec, s: State, pid: nat, p': Proc)
    requires GoodNet(net) && Inv(net, spec0, s)
    requires HeldBits(net, p') == HeldBits(net, Of(s, pid)) && ProcOk(net, s, p')
    ensures Inv(net, spec0, s.(procs := s.procs[pid := p']))
  {
    var s' := s.(procs := s.procs[pid := p']);
    forall q ensures HeldBits(net, Of(s', q)) == Owned(Replay(Book0(spec0), s'.log), q) && ProcOk(net, s', Of(s', q)) {
      assert Of(s', q) == if q == pid then p' else Of(s, q);
      assert ProcOk(net, s, Of(s, q));
      SameHistory(net, s, s', Of(s', q));
    }
  }

  lemma SameHistory(net: Net, s: State, s': State, p: Proc)
    requires GoodNet(net) && s.hist == s'.hist && ProcOk(net, s, p)
    ensures ProcOk(net, s', p)
  {
  }

  /** An accepted update is one legal operation of the atomic allocator on the latest version. */
  lemma PutIsOperation(net: Net, spec0: Spec, s: State, pid: nat, replyLost: bool)
    requires GoodNet(net) && Inv(net, spec0, s)
    requires Of(s, pid).Putting? && Of(s, pid).cur.ver == Top(s)
    ensures var p := Of(s, pid);
      var book := Replay(Book0(spec0), s.log);
      var op := Operation(net, pid, p.call, p.got, replyLost);
      && Good(net, p.next) && Legal(book, op) && Bits(p.next) == Apply(book, op).Keys
      && (p.call.ReserveCall? ==> Owned(book, pid) == {} && LeaseBits(net, p.got) <= Bits(p.next))
      && (p.call.FreeCall? ==>
            && Owned(book, pid) == LeaseBits(net, p.call.lease)
            && LeaseBits(net, p.got) == LeaseBits(net, p.call.lease) - AddressBits(net, p.call.lease, p.call.v6)
            && LeaseBits(net, p.got) <= Bits(p.next))
  {
    var p := Of(s, pid);
    assert ProcOk(net, s, p) && HeldBits(net, p) == Owned(Replay(Book0(spec0), s.log), pid);
    assert s.log[..Top(s)] == s.log;
    if p.call.ReserveCall? {
      AllocateIpsBits(net, p.cur.spec, p.call.req4, p.call.req6);
    } else {
      FreeIpBits(net, p.cur.spec, p.call.lease, p.call.v6);
    }
  }

  /** What an accepted update means for one process: the committer itself or a bystander. */
  lemma CommitForProc(net: Net, spec0: Spec, s: State, pid: nat, replyLost: bool, q: nat)
    requires GoodNet(net) && Inv(net, spec0, s)
    requires Of(s, pid).Putting? && Of(s, pid).cur.ver == Top(s) && !(replyLost && Of(s, pid).call.FreeCall?)
    ensures var op := Operation(net, pid, Of(s, pid).call, Of(s, pid).got, replyLost);
      var s' := Commit(net, s, pid, replyLost);
      && HeldBits(net, Of(s', q)) == Owned(Apply(Replay(Book0(spec0), s.log), op), q)
      && ProcOk(net, s', Of(s', q))
  {
    hide HistoryOk, Bits, Legal, Apply, AllocateIps, FreeIp, LeaseBits, AddressBits;
    var p := Of(s, pid);
    var book := Replay(Book0(spec0), s.log);
    var op := Operation(net, pid, p.call, p.got, replyLost);
    PutIsOperation(net, spec0, s, pid, replyLost);
    OwnedAfter(book, op, q);
    assert HeldBits(net, Of(s, q)) == Owned(book, q) && ProcOk(net, s, Of(s, q));
    if q != pid {
      ProcSurvives(net, s, Commit(net, s, pid, replyLost), Of(s, q));
    } else {
      CommitterOk(net, s, pid, replyLost);
    }
  }

  lemma CommitKeepsInv(net: Net, spec0: Spec, s: State, pid: nat, replyLost: bool)
    requires GoodNet(net) && Inv(net, spec0, s)
    requires Of(s, pid).Putting? && Of(s, pid).cur.ver == Top(s) && !(replyLost && Of(s, pid).call.FreeCall?)
    ensures Inv(net, spec0, Commit(net, s, pid, replyLost))
  {
    hide ProcOk, HeldBits, Bits, Legal, Apply, Operation, LegalLog, Good;
    var op := Operation(net, pid, Of(s, pid).call, Of(s, pid).got, replyLost);
    var s' := Commit(net, s, pid, replyLost);
    PutIsOperation(net, spec0, s, pid, replyLost);
    Append(Book0(spec0), s.log, op);
    CommitHistory(net, spec0, s, s', op);
    forall q ensures HeldBits(net, Of(s', q)) == Owned(Replay(Book0(spec0), s'.log), q) && ProcOk(net, s', Of(s', q)) {
      CommitForProc(net, spec0, s, pid, replyLost, q);
    }
  }

  lemma CommitterOk(net: Net, s: State, pid: nat, replyLost: bool)
    requires GoodNet(net) && Of(s, pid).Putting? && ProcOk(net, s, Of(s, pid))
    requires !(replyLost && Of(s, pid).call.FreeCall?)
    requires LeaseBits(net, Of(s, pid).got) <= Bits(Of(s, pid).next)
    requires Of(s, pid).call.FreeCall? ==> LeaseBits(net, Of(s, pid).got) <= LeaseBits(net, Of(s, pid).call.lease)
    ensures ProcOk(net, Commit(net, s, pid, replyLost), Of(Commit(net, s, pid, replyLost), pid))
  {
  }

  lemma CommitHistory(net: Net, spec0: Spec, s: State, s': State, op: Op<Res>)
    requires GoodNet(net) && HistoryOk(net, spec0, s)
    requires |s'.hist| == |s.hist| + 1 && s'.hist[..|s.hist|] == s.hist && s'.log == s.log + [op]
    requires Good(net, s'.hist[|s.hist|]) && Legal(Replay(Book0(spec0), s.log), op)
    requires Bits(s'.hist[|s.hist|]) == Apply(Replay(Book0(spec0), s.log), op).Keys
    ensures HistoryOk(net, spec0, s')
  {
    Append(Book0(spec0), s.log, op);
    forall v | 0 <= v < |s'.hist|
      ensures Good(net, s'.hist[v]) && Bits(s'.hist[v]) == Replay(Book0(spec0), s'.log[..v]).Keys
    {
      if v < |s.hist| {
        assert s'.hist[v] == s.hist[v];
        assert s'.log[..v] == s.log[..v];
      } else {
        assert s'.log[..v] == s'.log;
      }
    }
  }

  /** Another process's commit leaves what a process remembers valid as long as its bits stay set. */
  lemma ProcSurvives(net: Net, s: State, s': State, p: Proc)
    requires GoodNet(net) && ProcOk(net, s, p)
    requires |s'.hist| == |s.hist| + 1 && s'.hist[..|s.hist|] == s.hist
    requires HeldBits(net, p) <= Bits(s'.hist[|s.hist|])
    ensures ProcOk(net, s', p)
  {
    assert forall v :: 0 <= v < |s.hist| ==> s'.hist[v] == s.hist[v];
  }

  /** Free always has something to put: its first copy had the bit, its new spec has not. */
  lemma FreeNeverMatchesFirstCopy(net: Net, spec0: Spec, s: State, pid: nat)
    requires GoodNet(net) && Inv(net, spec0, s)
    requires Of(s, pid).Running? && Of(s, pid).call.FreeCall?
    requires AddressBits(net, Of(s, pid).call.lease, Of(s, pid).call.v6) != {}
    ensures Pass(net, Of(s, pid).call, Of(s, pid).cur.spec).value.0 != Of(s, pid).orig.spec
  {
    var p := Of(s, pid);
    assert ProcOk(net, s, p);
    assert Good(net, s.hist[p.cur.ver]);
    FreeIpBits(net, p.cur.spec, p.call.lease, p.call.v6);
    var r :| r in AddressBits(net, p.call.lease, p.call.v6);
    assert r in LeaseBits(net, p.call.lease);
  }

  /** Free that finds nothing to change had no bit to clear. */
  lemma FreeWithoutPut(net: Net, spec0: Spec, s: State, pid: nat)
    requires GoodNet(net) && Inv(net, spec0, s)
    requires Of(s, pid).Running? && Of(s, pid).call.FreeCall?
    requires Pass(net, Of(s, pid).call, Of(s, pid).cur.spec).value.0 == Of(s, pid).orig.spec
    ensures LeaseBits(net, Without(Of(s, pid).call.lease, Of(s, pid).call.v6)) == LeaseBits(net, Of(s, pid).call.lease)
  {
  }

  lemma PassKeepsProc(net: Net, spec0: Spec, s: State, e: Event)
    requires GoodNet(net) && Inv(net, spec0, s) && e.action.Try? && Of(s, e.pid).Running?
    requires !StaleReturn(net, s, e)
    ensures var p' := AfterPass(net, s, Of(s, e.pid));
      HeldBits(net, p') == HeldBits(net, Of(s, e.pid)) && ProcOk(net, s, p')
  {
    var p := Of(s, e.pid);
    assert ProcOk(net, s, p);
    var pass := Pass(net, p.call, p.cur.spec);
    if p.call.FreeCall? {
      if pass.value.0 == p.orig.spec {
        FreeWithoutPut(net, spec0, s, e.pid);
      } else if AddressBits(net, p.call.lease, p.call.v6) == {} {
        FreeOfNothing(net, p.cur.spec, p.call.lease, p.call.v6);
      }
    }
  }

  lemma RememberKeepsProc(net: Net, s: State, p: Proc, action: Action)
    requires GoodNet(net) && |s.hist| > 0 && ProcOk(net, s, p)
    requires !(action.Try? && p.Running?)
    requires !(action.Send? && p.Putting? && p.cur.ver == Top(s))
    requires Fails(p, action) ==> LeaseBits(net, OwedBy(p)) == LeaseBits(net, ListedBy(p))
    ensures HeldBits(net, Remember(net, s, p, action)) == HeldBits(net, p)
    ensures ProcOk(net, s, Remember(net, s, p, action))
  {
  }

  lemma StepKeepsInv(net: Net, spec0: Spec, s: State, e: Event)
    requires GoodNet(net) && Inv(net, spec0, s) && !Slip(net, s, e)
    ensures Inv(net, spec0, Do(net, s, e))
  {
    var p := Of(s, e.pid);
    if Accepted(s, e) {
      CommitKeepsInv(net, spec0, s, e.pid, e.action.SendReplyLost?);
    } else {
      var p' := Remember(net, s, p, e.action);
      assert HeldBits(net, p') == HeldBits(net, p) && ProcOk(net, s, p') by {
        assert ProcOk(net, s, p);
        if e.action.Try? && p.Running? {
          PassKeepsProc(net, spec0, s, e);
        } else {
          RememberKeepsProc(net, s, p, e.action);
        }
      }
      LocalStep(net, spec0, s, e.pid, p');
    }
  }

  /** After a stale return a process holds bits it does not own. */
  lemma StaleReturnBreaksInv(net: Net, spec0: Spec, s: State, e: Event)
    requires GoodNet(net) && Inv(net, spec0, s) && StaleReturn(net, s, e)
    ensures HeldBits(net, Of(Do(net, s, e), e.pid)) != {}
    ensures Owned(Replay(Book0(spec0), Do(net, s, e).log), e.pid) == {}
  {
    var p := Of(s, e.pid);
    hide Apply, Legal, Bits, Good, AddressBits;
    var got := Pass(net, p.call, p.cur.spec).value.1;
    assert HeldBits(net, Of(Do(net, s, e), e.pid)) == LeaseBits(net, got) != {};
    assert HeldBits(net, p) == {} == Owned(Replay(Book0(spec0), s.log), e.pid);
  }

  lemma PuttingFree(net: Net, spec0: Spec, s: State, pid: nat)
    requires GoodNet(net) && Inv(net, spec0, s) && Of(s, pid).Putting? && Of(s, pid).call.FreeCall?
    ensures var p := Of(s, pid);
      var bits := AddressBits(net, p.call.lease, p.call.v6);
      && bits != {} && bits <= LeaseBits(net, p.call.lease) <= LeaseBits(net, p.call.listed)
      && bits !! Bits(p.next)
  {
    var p := Of(s, pid);
    assert ProcOk(net, s, p);
    FreeIpBits(net, p.cur.spec, p.call.lease, p.call.v6);
  }

  /** After a lost reply a process goes on holding the bit it has cleared. */
  lemma LostFreeBreaksInv(net: Net, spec0: Spec, s: State, e: Event)
    requires GoodNet(net) && Inv(net, spec0, s) && LostFree(s, e)
    ensures var call := Of(s, e.pid).call;
      var s' := Do(net, s, e);
      var bits := AddressBits(net, call.lease, call.v6);
      && bits != {} && bits <= HeldBits(net, Of(s', e.pid)) && bits !! Bits(s'.hist[Top(s')])
      && bits !! Owned(Replay(Book0(spec0), s'.log), e.pid)
  {
    hide ProcOk, LegalLog, Legal, Apply, Bits, LeaseBits, AddressBits, Good;
    var p := Of(s, e.pid);
    var op := Operation(net, e.pid, p.call, p.got, true);
    PuttingFree(net, spec0, s, e.pid);
    PutIsOperation(net, spec0, s, e.pid, true);
    Append(Book0(spec0), s.log, op);
    OwnedAfter(Replay(Book0(spec0), s.log), op, e.pid);
  }

  lemma KeeperFacts(net: Net, spec0: Spec, s: State, pid: nat)
    requires GoodNet(net) && Inv(net, spec0, s) && Keeps(Of(s, pid))
    ensures var p := Of(s, pid);
      LeaseBits(net, OwedBy(p)) == Owned(Replay(Book0(spec0), s.log), pid) <= LeaseBits(net, ListedBy(p))
  {
    var p := Of(s, pid);
    assert ProcOk(net, s, p) && HeldBits(net, p) == Owned(Replay(Book0(spec0), s.log), pid);
  }

  lemma FailureStep(net: Net, s: State, e: Event)
    requires GoodNet(net) && |s.hist| > 0 && Fails(Of(s, e.pid), e.action)
    ensures var p := Of(s, e.pid); Do(net, s, e) == s.(procs := s.procs[e.pid := Kept(ListedBy(p), SinceOf(p))])
  {
  }

  /** After a failed deletion a process holds a bit that it has given back. */
  lemma HalfDeletedBreaksInv(net: Net, spec0: Spec, s: State, e: Event)
    requires GoodNet(net) && Inv(net, spec0, s) && HalfDeleted(net, s, e)
    ensures var p := Of(s, e.pid);
      var s' := Do(net, s, e);
      var gone := LeaseBits(net, ListedBy(p)) - LeaseBits(net, OwedBy(p));
      && gone != {} && gone <= HeldBits(net, Of(s', e.pid)) && gone !! Owned(Replay(Book0(spec0), s'.log), e.pid)
  {
    var p := Of(s, e.pid);
    assert |s.hist| > 0;
    hide Inv, Do, LeaseBits, Replay;
    assert HeldBits(net, Kept(ListedBy(p), SinceOf(p))) == LeaseBits(net, ListedBy(p));
    FailureStep(net, s, e);
    KeeperFacts(net, spec0, s, e.pid);
    ProperPart(LeaseBits(net, OwedBy(p)), LeaseBits(net, ListedBy(p)));
  }

  lemma ProperPart(part: set<Res>, whole: set<Res>)
    requires part <= whole && part != whole
    ensures whole - part != {} && whole - part !! part
  {
    var r :| r in whole && r !in part;
    assert r in whole - part;
  }

  /**
    The exact condition: a step keeps the books balanced if and only if it is no stale return, no lost
    Free, and no failure of a deletion that has cleared a bit.
   */
  lemma StepKeepsInvExactly(net: Net, spec0: Spec, s: State, e: Event)
    requires GoodNet(net) && Inv(net, spec0, s)
    ensures Inv(net, spec0, Do(net, s, e)) <==> !Slip(net, s, e)
  {
    var s' := Do(net, s, e);
    if StaleReturn(net, s, e) {
      StaleReturnBreaksInv(net, spec0, s, e);
      assert HeldBits(net, Of(s', e.pid)) != Owned(Replay(Book0(spec0), s'.log), e.pid);
    } else if LostFree(s, e) {
      LostFreeBreaksInv(net, spec0, s, e);
      assert HeldBits(net, Of(s', e.pid)) != Owned(Replay(Book0(spec0), s'.log), e.pid);
    } else if HalfDeleted(net, s, e) {
      HalfDeletedBreaksInv(net, spec0, s, e);
      assert HeldBits(net, Of(s', e.pid)) != Owned(Replay(Book0(spec0), s'.log), e.pid);
    } else {
      StepKeepsInv(net, spec0, s, e);
    }
  }

  lemma {:induction false} RunKeepsInv(net: Net, spec0: Spec, s: State, events: seq<Event>)
    requires GoodNet(net) && Inv(net, spec0, s) && NoSlip(net, s, events)
    ensures Inv(net, spec0, Run(net, s, events))
    decreases |events|
  {
    if |events| > 0 {
      StepKeepsInv(net, spec0, s, events[0]);
      RunKeepsInv(net, spec0, Do(net, s, events[0]), events[1..]);
    }
  }

  // ---- composing runs ----

  lemma {:induction false} RunAppend(net: Net, s: State, a: seq<Event>, b: seq<Event>)
    requires GoodNet(net) && |s.hist| > 0
    ensures Run(net, s, a + b) == Run(net, Run(net, s, a), b)
    decreases |a|
  {
    if |a| == 0 {
      assert a + b == b;
    } else {
      assert (a + b)[1..] == a[1..] + b;
      RunAppend(net, Do(net, s, a[0]), a[1..], b);
    }
  }

  lemma RunOfTwo(net: Net, s: State, e: Event, f: Event)
    requires GoodNet(net) && |s.hist| > 0
    ensures Run(net, s, [e, f]) == Do(net, Do(net, s, e), f)
  {
    assert [e, f][1..] == [f] && [f][1..] == [];
    assert Run(net, Do(net, s, e), [f]) == Run(net, Do(net, Do(net, s, e), f), []);
  }

  lemma RunOfThree(net: Net, s: State, e: Event, f: Event, g: Event)
    requires GoodNet(net) && |s.hist| > 0
    ensures Run(net, s, [e, f, g]) == Do(net, Do(net, Do(net, s, e), f), g)
  {
    assert [e, f, g][1..] == [f, g];
    RunOfTwo(net, Do(net, s, e), f, g);
  }

  // ---- single steps ----

  lemma BeginsFree(net: Net, s: State, pid: nat, v6: bool, ver: nat)
    requires GoodNet(net) && Of(s, pid).Holding? && Of(s, pid).since <= ver < |s.hist|
    ensures var p := Of(s, pid);
      var copy := Copy(ver, s.hist[ver]);
      Do(net, s, Event(pid, BeginFree(v6, ver)))
        == s.(procs := s.procs[pid := Running(FreeCall(p.lease, p.since, p.listed, v6), copy, copy, 0)])
  {
  }

  lemma Passes(net: Net, s: State, pid: nat, next: Spec, got: Lease)
    requires GoodNet(net) && |s.hist| > 0 && Of(s, pid).Running?
    requires Pass(net, Of(s, pid).call, Of(s, pid).cur.spec) == Some((next, got))
    ensures var p := Of(s, pid);
      Do(net, s, Event(pid, Try)) == s.(procs := s.procs[pid :=
        if next == p.orig.spec then Returned(p.call, got, Top(s))
          else Putting(p.call, p.orig, p.cur, next, got, p.tries)])
  {
  }

  lemma Commits(net: Net, s: State, pid: nat)
    requires GoodNet(net) && |s.hist| > 0 && Of(s, pid).Putting? && Of(s, pid).cur.ver == Top(s)
    ensures var s' := Do(net, s, Event(pid, Send));
      && s'.hist == s.hist + [Of(s, pid).next]
      && s'.procs == s.procs[pid := Returned(Of(s, pid).call, Of(s, pid).got, |s.hist|)]
  {
  }

  lemma Rereads(net: Net, s: State, pid: nat)
    requires GoodNet(net) && |s.hist| > 0 && Of(s, pid).Putting? && Of(s, pid).cur.ver != Top(s)
    ensures var p := Of(s, pid);
      Do(net, Do(net, s, Event(pid, Send)), Event(pid, Reread))
        == s.(procs := s.procs[pid := Running(p.call, p.orig, Copy(Top(s), s.hist[Top(s)]), p.tries + 1)])
  {
  }
}
