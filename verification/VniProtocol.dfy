/**
  VNI reservation and release as a step machine over one TenantConfig on the API server:
  CREATE and DELETE admissions of TenantNetworks, interleaved in any order.  Unlike
  address reservation there is no return without a PUT, so the only departure from the
  atomic allocator is a DELETE whose reply is lost.
 */
module VniProtocol {
  import opened Wrappers
  import opened Confman
  import opened AtomicAllocator

  datatype Res = Res(name: string, vniType: string, vni: nat)

  // ---- the configuration and its bits ----

  ghost predicate SameProfiles(conf0: seq<Profile>, conf: seq<Profile>) {
    && |conf| == |conf0|
    && forall i :: 0 <= i < |conf| ==>
         conf[i] == conf0[i].(alloc := conf0[i].alloc.(on := conf[i].alloc.on)) && ProfileOk(conf[i])
  }

  ghost predicate GoodConf(conf0: seq<Profile>) {
    forall i :: 0 <= i < |conf0| ==> ProfileOk(conf0[i])
  }

  /** Only the first profile of an interface and type is ever used. */
  ghost function Bits(conf: seq<Profile>): (rs: set<Res>)
    ensures forall r :: r in rs <==>
      var i := IfaceIndex(conf, r.name, r.vniType); i.Some? && r.vni in conf[i.value].alloc.on
  {
    set i, v | 0 <= i < |conf| && v in conf[i].alloc.on && IfaceIndex(conf, conf[i].name, conf[i].vniType) == Some(i)
      :: Res(conf[i].name, conf[i].vniType, v)
  }

  lemma SameIndices(conf0: seq<Profile>, conf: seq<Profile>, name: string, vniType: string)
    requires SameProfiles(conf0, conf)
    ensures IfaceIndex(conf, name, vniType) == IfaceIndex(conf0, name, vniType)
  {
  }

  lemma SetOneBit(conf0: seq<Profile>, conf: seq<Profile>, r: Res)
    requires SameProfiles(conf0, conf) && IfaceIndex(conf, r.name, r.vniType).Some?
    requires var i := IfaceIndex(conf, r.name, r.vniType).value; r.vni < conf[i].alloc.size
    ensures var i := IfaceIndex(conf, r.name, r.vniType).value;
      SameProfiles(conf0, WithBit(conf, i, r.vni)) && Bits(WithBit(conf, i, r.vni)) == Bits(conf) + {r}
  {
    hide IfaceIndex, Bits;
    var i := IfaceIndex(conf, r.name, r.vniType).value;
    var next := WithBit(conf, i, r.vni);
    forall q ensures q in Bits(next) <==> q in Bits(conf) + {r} {
      SameIndices(conf0, conf, q.name, q.vniType);
      SameIndices(conf0, next, q.name, q.vniType);
    }
  }

  lemma ClearOneBit(conf0: seq<Profile>, conf: seq<Profile>, r: Res)
    requires SameProfiles(conf0, conf) && IfaceIndex(conf, r.name, r.vniType).Some?
    ensures var i := IfaceIndex(conf, r.name, r.vniType).value;
      SameProfiles(conf0, WithoutBit(conf, i, r.vni)) && Bits(WithoutBit(conf, i, r.vni)) == Bits(conf) - {r}
  {
    hide IfaceIndex, Bits;
    var i := IfaceIndex(conf, r.name, r.vniType).value;
    var next := WithoutBit(conf, i, r.vni);
    forall q ensures q in Bits(next) <==> q in Bits(conf) - {r} {
      SameIndices(conf0, conf, q.name, q.vniType);
      SameIndices(conf0, next, q.name, q.vniType);
    }
  }

  // ---- one pass of the loops ----

  /** Admission of a manifest with the chosen interface and type, or deletion of a live network. */
  datatype Call = Create(tnet: Tnet, name: string, vniType: string) | Delete(tnet: Tnet)

  function KeyRes(tnet: Tnet): Res {
    var (name, vniType, vni) := FreeKey(tnet);
    Res(name, vniType, vni)
  }

  /** What a pass finds to do with its copy of the configuration. */
  datatype Pass = Failure | Nothing | Update(next: seq<Profile>, tnet: Tnet)

  function PassOf(call: Call, conf: seq<Profile>): Pass {
    match call
    case Create(tnet, name, vniType) =>
      var i := IfaceIndex(conf, name, vniType);
      if i.None? then Failure
      else
        var vni := ReserveVni(conf[i.value]);
        if vni.None? then Failure
        else Update(WithBit(conf, i.value, vni.value), Attached(tnet, name, vniType, vni.value))
    case Delete(tnet) =>
      var r := KeyRes(tnet);
      if tnet.vlan == 0 && tnet.vxlan == 0 then Nothing
      else
        var i := IfaceIndex(conf, r.name, r.vniType);
        if i.None? then Nothing
        else if conf[i.value].alloc.size == 0 then Failure
        else Update(WithoutBit(conf, i.value, r.vni), tnet)
  }

  // ---- the step machine ----

  /** `first` is the version of the call's first copy, `ver` that of its latest. */
  datatype Proc =
    | Absent
    | Live(tnet: Tnet)
    | Running(call: Call, first: nat, ver: nat, conf: seq<Profile>, tries: nat)
    | Putting(call: Call, first: nat, ver: nat, conf: seq<Profile>, next: seq<Profile>, tnet: Tnet, tries: nat)
    | Conflicted(call: Call, first: nat, ver: nat, tries: nat)

  datatype State = State(hist: seq<seq<Profile>>, log: seq<Op<Res>>, procs: map<nat, Proc>)

  /** `BeginCreate` carries the profile that admission chose; `ver` is the version its copy was read at. */
  datatype Action =
    | BeginCreate(tnet: Tnet, index: nat, ver: nat)
    | BeginDelete(ver: nat)
    | Try | Send | SendError | SendReplyLost | Reread | RereadError

  datatype Event = Event(pid: nat, action: Action)

  function Of(s: State, pid: nat): Proc { if pid in s.procs then s.procs[pid] else Absent }

  function Top(s: State): nat
    requires |s.hist| > 0
  {
    |s.hist| - 1
  }

  /** A refused CREATE leaves no network; a refused DELETE leaves it in place. */
  function Failed(call: Call): Proc {
    if call.Delete? then Live(call.tnet) else Absent
  }

  function Finished(call: Call, tnet: Tnet): Proc {
    if call.Delete? then Absent else Live(tnet)
  }

  predicate Accepted(s: State, e: Event)
    requires |s.hist| > 0
  {
    var p := Of(s, e.pid);
    p.Putting? && p.ver == Top(s) && (e.action.Send? || e.action.SendReplyLost?)
  }

  function Remember(s: State, p: Proc, action: Action): Proc
    requires |s.hist| > 0
  {
    match action
    case BeginCreate(tnet, index, ver) =>
      if p.Absent? && ver < |s.hist| && CanCreate(s.hist[ver], tnet, index) then
        var profile := s.hist[ver][index];
        if profile.vniType == "" then Live(if AsksForInterface(tnet) then tnet else tnet.(device := profile.name))
        else Running(Create(tnet, profile.name, profile.vniType), ver, ver, s.hist[ver], 0)
      else p
    case BeginDelete(ver) =>
      if p.Live? && ver < |s.hist| then Running(Delete(p.tnet), ver, ver, s.hist[ver], 0) else p
    case Try =>
      if p.Running? then
        match PassOf(p.call, p.conf)
        case Failure => Failed(p.call)
        case Nothing => Finished(p.call, p.call.tnet)
        case Update(next, tnet) => Putting(p.call, p.first, p.ver, p.conf, next, tnet, p.tries)
      else p
    case Send => if p.Putting? then Conflicted(p.call, p.first, p.ver, p.tries) else p
    case SendError => if p.Putting? then Failed(p.call) else p
    case SendReplyLost => p
    case Reread => if p.Conflicted? then Running(p.call, p.first, Top(s), s.hist[Top(s)], p.tries + 1) else p
    case RereadError => if p.Conflicted? then Failed(p.call) else p
  }

  /** The manifest passed validation and the profile is one that admission may choose for it. */
  predicate CanCreate(conf: seq<Profile>, tnet: Tnet, index: nat) {
    && Admissible(tnet) && index < |conf| && conf[index].name != ""
    && conf[index].vniType in ["", "vlan", "vxlan"]
    && (AsksForInterface(tnet) ==> Requested(tnet, conf[index]))
  }

  function Operation(pid: nat, call: Call, tnet: Tnet, replyLost: bool): Op<Res> {
    if call.Delete? then Give(pid, {KeyRes(call.tnet)})
    else Take(if replyLost then Lost else By(pid), {KeyRes(tnet)})
  }

  function Commit(s: State, pid: nat, replyLost: bool): State
    requires Of(s, pid).Putting?
  {
    var p := Of(s, pid);
    State(s.hist + [p.next], s.log + [Operation(pid, p.call, p.tnet, replyLost)],
      s.procs[pid := if replyLost then Failed(p.call) else Finished(p.call, p.tnet)])
  }

  function Do(s: State, e: Event): State
    requires |s.hist| > 0
  {
    if Accepted(s, e) then Commit(s, e.pid, e.action.SendReplyLost?)
    else s.(procs := s.procs[e.pid := Remember(s, Of(s, e.pid), e.action)])
  }

  function Run(s: State, events: seq<Event>): State
    requires |s.hist| > 0
    ensures |Run(s, events).hist| > 0
    decreases |events|
  {
    if |events| == 0 then s else Run(Do(s, events[0]), events[1..])
  }

  function Fresh(conf0: seq<Profile>): State { State([conf0], [], map[]) }

  ghost function Book0(conf0: seq<Profile>): map<Res, Owner> { map r | r in Bits(conf0) :: System }

  /** A DELETE whose update was accepted but whose reply was lost: it is refused although its VNI was freed. */
  predicate LostDelete(s: State, e: Event)
    requires |s.hist| > 0
  {
    Accepted(s, e) && e.action.SendReplyLost? && Of(s, e.pid).call.Delete?
  }

  predicate NoLostDelete(s: State, events: seq<Event>)
    requires |s.hist| > 0
    decreases |events|
  {
    |events| > 0 ==> !LostDelete(s, events[0]) && NoLostDelete(Do(s, events[0]), events[1..])
  }

  // ---- the invariant ----

  /** The VNI of a network that is live or under deletion; a network without VNI holds nothing. */
  function TnetBits(tnet: Tnet): set<Res> {
    if tnet.vlan == 0 && tnet.vxlan == 0 then {} else {KeyRes(tnet)}
  }

  function HeldBits(p: Proc): set<Res> {
    match p
    case Absent => {}
    case Live(tnet) => TnetBits(tnet)
    case _ => if p.call.Delete? then TnetBits(p.call.tnet) else {}
  }

  /** A VNI in use was taken from the range of the profile it is freed on. */
  ghost predicate TnetOk(conf0: seq<Profile>, tnet: Tnet) {
    tnet.vlan != 0 || tnet.vxlan != 0 ==>
      var r := KeyRes(tnet);
      var i := IfaceIndex(conf0, r.name, r.vniType);
      i.Some? && r.vni in conf0[i.value].vniRange && r.vni != 0 && conf0[i.value].alloc.size > 0
  }

  ghost predicate CallOk(conf0: seq<Profile>, call: Call) {
    match call
    case Delete(tnet) => TnetOk(conf0, tnet)
    case Create(tnet, name, vniType) =>
      && Admissible(tnet) && name != "" && (vniType == "vlan" || vniType == "vxlan")
      && (tnet.devicePool != "" ==> tnet.devicePool == name) && (tnet.device != "" ==> tnet.device == name)
  }

  ghost predicate ProcOk(conf0: seq<Profile>, s: State, p: Proc) {
    match p
    case Absent => true
    case Live(tnet) => TnetOk(conf0, tnet)
    case Running(call, first, ver, conf, tries) =>
      CallOk(conf0, call) && first + tries <= ver < |s.hist| && conf == s.hist[ver]
    case Putting(call, first, ver, conf, next, tnet, tries) =>
      && CallOk(conf0, call) && first + tries <= ver < |s.hist| && conf == s.hist[ver]
      && PassOf(call, conf) == Update(next, tnet)
    case Conflicted(call, first, ver, tries) => CallOk(conf0, call) && first + tries <= ver < |s.hist| - 1
  }

  ghost predicate HistoryOk(conf0: seq<Profile>, s: State) {
    && |s.hist| == |s.log| + 1
    && LegalLog(Book0(conf0), s.log)
    && forall v :: 0 <= v < |s.hist| ==>
         SameProfiles(conf0, s.hist[v]) && Bits(s.hist[v]) == Replay(Book0(conf0), s.log[..v]).Keys
  }

  /** In every profile with VNIs the zero bit is set, as NewBitArray leaves it. */
  ghost predicate ZeroTaken(conf: seq<Profile>) {
    forall i :: 0 <= i < |conf| && conf[i].alloc.size > 0 ==> 0 in conf[i].alloc.on
  }

  ghost predicate Inv(conf0: seq<Profile>, s: State) {
    && HistoryOk(conf0, s)
    && (forall v :: 0 <= v < |s.hist| ==> ZeroTaken(s.hist[v]))
    && (forall pid :: HeldBits(Of(s, pid)) == Owned(Replay(Book0(conf0), s.log), pid))
    && (forall pid :: ProcOk(conf0, s, Of(s, pid)))
  }

  lemma FreshInv(conf0: seq<Profile>)
    requires GoodConf(conf0) && ZeroTaken(conf0)
    ensures Inv(conf0, Fresh(conf0))
  {
  }

  // ---- what one pass does ----

  lemma CreatePass(conf0: seq<Profile>, conf: seq<Profile>, call: Call)
    requires SameProfiles(conf0, conf) && ZeroTaken(conf) && call.Create? && CallOk(conf0, call)
    requires PassOf(call, conf).Update?
    ensures var u := PassOf(call, conf);
      var r := KeyRes(u.tnet);
      && r !in Bits(conf) && Bits(u.next) == Bits(conf) + {r}
      && SameProfiles(conf0, u.next) && ZeroTaken(u.next)
      && TnetOk(conf0, u.tnet) && TnetBits(u.tnet) == {r} && r.name == call.name && r.vniType == call.vniType
  {
    var i := IfaceIndex(conf, call.name, call.vniType).value;
    var vni := ReserveVni(conf[i]).value;
    var u := PassOf(call, conf);
    assert KeyRes(u.tnet) == Res(call.name, call.vniType, vni);
    SameIndices(conf0, conf, call.name, call.vniType);
    SetOneBit(conf0, conf, Res(call.name, call.vniType, vni));
  }

  lemma DeletePass(conf0: seq<Profile>, conf: seq<Profile>, call: Call)
    requires SameProfiles(conf0, conf) && ZeroTaken(conf) && call.Delete? && CallOk(conf0, call)
    ensures TnetBits(call.tnet) == {} ==> PassOf(call, conf) == Nothing
    ensures TnetBits(call.tnet) != {} ==>
      var u := PassOf(call, conf);
      && u.Update? && Bits(u.next) == Bits(conf) - {KeyRes(call.tnet)}
      && SameProfiles(conf0, u.next) && ZeroTaken(u.next)
  {
    var r := KeyRes(call.tnet);
    SameIndices(conf0, conf, r.name, r.vniType);
    if TnetBits(call.tnet) != {} {
      ClearOneBit(conf0, conf, r);
    }
  }

  // ---- preservation ----

  lemma LocalStep(conf0: seq<Profile>, s: State, pid: nat, p': Proc)
    requires Inv(conf0, s) && HeldBits(p') == HeldBits(Of(s, pid)) && ProcOk(conf0, s, p')
    ensures Inv(conf0, s.(procs := s.procs[pid := p']))
  {
    var s' := s.(procs := s.procs[pid := p']);
    forall q ensures HeldBits(Of(s', q)) == Owned(Replay(Book0(conf0), s'.log), q) && ProcOk(conf0, s', Of(s', q)) {
      assert Of(s', q) == if q == pid then p' else Of(s, q);
      assert ProcOk(conf0, s, Of(s, q));
    }
  }

  lemma TryKeepsProc(conf0: seq<Profile>, s: State, p: Proc)
    requires |s.hist| > 0 && ProcOk(conf0, s, p) && p.Running?
    requires SameProfiles(conf0, s.hist[p.ver]) && ZeroTaken(s.hist[p.ver])
    ensures HeldBits(Remember(s, p, Try)) == HeldBits(p) && ProcOk(conf0, s, Remember(s, p, Try))
  {
    hide PassOf, TnetOk, SameProfiles, Bits, TnetBits, ZeroTaken, KeyRes;
    if p.call.Delete? {
      DeletePass(conf0, p.conf, p.call);
    } else {
      CreateDoesSomething(p.call, p.conf);
    }
  }

  lemma CreateDoesSomething(call: Call, conf: seq<Profile>)
    ensures call.Create? ==> !PassOf(call, conf).Nothing?
  {
  }

  lemma BeginKeepsProc(conf0: seq<Profile>, s: State, p: Proc, action: Action)
    requires |s.hist| > 0 && ProcOk(conf0, s, p) && (action.BeginCreate? || action.BeginDelete?)
    ensures HeldBits(Remember(s, p, action)) == HeldBits(p)
    ensures ProcOk(conf0, s, Remember(s, p, action))
  {
    hide PassOf, IfaceIndex, Bits;
  }

  lemma RememberKeepsProc(conf0: seq<Profile>, s: State, p: Proc, action: Action)
    requires |s.hist| > 0 && ProcOk(conf0, s, p)
    requires forall v :: 0 <= v < |s.hist| ==> SameProfiles(conf0, s.hist[v]) && ZeroTaken(s.hist[v])
    requires !(action.Send? && p.Putting? && p.ver == Top(s))
    ensures HeldBits(Remember(s, p, action)) == HeldBits(p)
    ensures ProcOk(conf0, s, Remember(s, p, action))
  {
    if action.Try? && p.Running? {
      TryKeepsProc(conf0, s, p);
    } else if action.BeginCreate? || action.BeginDelete? {
      BeginKeepsProc(conf0, s, p, action);
    } else {
      hide PassOf, IfaceIndex, Bits, SameProfiles, CanCreate, TnetOk;
    }
  }

  /** An accepted update is one legal operation of the atomic allocator on the latest version. */
  lemma PutIsOperation(conf0: seq<Profile>, s: State, pid: nat, replyLost: bool)
    requires Inv(conf0, s) && Of(s, pid).Putting? && Of(s, pid).ver == Top(s)
    ensures var p := Of(s, pid);
      var book := Replay(Book0(conf0), s.log);
      var op := Operation(pid, p.call, p.tnet, replyLost);
      && SameProfiles(conf0, p.next) && ZeroTaken(p.next) && Legal(book, op) && Bits(p.next) == Apply(book, op).Keys
      && (p.call.Create? ==> Owned(book, pid) == {} && TnetBits(p.tnet) == {KeyRes(p.tnet)} && TnetOk(conf0, p.tnet))
      && (p.call.Delete? ==> Owned(book, pid) == TnetBits(p.call.tnet) == {KeyRes(p.call.tnet)})
  {
    var p := Of(s, pid);
    assert ProcOk(conf0, s, p) && HeldBits(p) == Owned(Replay(Book0(conf0), s.log), pid);
    assert s.log[..Top(s)] == s.log;
    if p.call.Create? {
      CreatePass(conf0, p.conf, p.call);
    } else {
      DeletePass(conf0, p.conf, p.call);
    }
  }

  lemma CommitHistory(conf0: seq<Profile>, s: State, s': State, op: Op<Res>)
    requires HistoryOk(conf0, s)
    requires |s'.hist| == |s.hist| + 1 && s'.hist[..|s.hist|] == s.hist && s'.log == s.log + [op]
    requires SameProfiles(conf0, s'.hist[|s.hist|]) && Legal(Replay(Book0(conf0), s.log), op)
    requires Bits(s'.hist[|s.hist|]) == Apply(Replay(Book0(conf0), s.log), op).Keys
    ensures HistoryOk(conf0, s')
  {
    hide SameProfiles, Bits, Legal, Apply;
    Append(Book0(conf0), s.log, op);
    forall v | 0 <= v < |s'.hist|
      ensures SameProfiles(conf0, s'.hist[v]) && Bits(s'.hist[v]) == Replay(Book0(conf0), s'.log[..v]).Keys
    {
      if v < |s.hist| {
        assert s'.hist[v] == s.hist[v];
        assert s'.log[..v] == s.log[..v];
      } else {
        assert s'.log[..v] == s'.log;
      }
    }
  }

  lemma ProcSurvives(conf0: seq<Profile>, s: State, s': State, p: Proc)
    requires ProcOk(conf0, s, p)
    requires |s'.hist| == |s.hist| + 1 && s'.hist[..|s.hist|] == s.hist
    ensures ProcOk(conf0, s', p)
  {
  }

  lemma CommitForProc(conf0: seq<Profile>, s: State, pid: nat, replyLost: bool, q: nat)
    requires Inv(conf0, s) && Of(s, pid).Putting? && Of(s, pid).ver == Top(s)
    requires !(replyLost && Of(s, pid).call.Delete?)
    ensures var op := Operation(pid, Of(s, pid).call, Of(s, pid).tnet, replyLost);
      var s' := Commit(s, pid, replyLost);
      HeldBits(Of(s', q)) == Owned(Apply(Replay(Book0(conf0), s.log), op), q) && ProcOk(conf0, s', Of(s', q))
  {
    hide HistoryOk, SameProfiles, Bits, Legal, Apply, ZeroTaken, PassOf, IfaceIndex;
    var p := Of(s, pid);
    var book := Replay(Book0(conf0), s.log);
    PutIsOperation(conf0, s, pid, replyLost);
    OwnedAfter(book, Operation(pid, p.call, p.tnet, replyLost), q);
    assert HeldBits(Of(s, q)) == Owned(book, q) && ProcOk(conf0, s, Of(s, q));
    if q != pid {
      ProcSurvives(conf0, s, Commit(s, pid, replyLost), Of(s, q));
    }
  }

  lemma CommitKeepsInv(conf0: seq<Profile>, s: State, pid: nat, replyLost: bool)
    requires Inv(conf0, s) && Of(s, pid).Putting? && Of(s, pid).ver == Top(s)
    requires !(replyLost && Of(s, pid).call.Delete?)
    ensures Inv(conf0, Commit(s, pid, replyLost))
  {
    hide ProcOk, HeldBits, SameProfiles, Bits, Legal, Apply, ZeroTaken, Operation, TnetOk, TnetBits, LegalLog;
    var op := Operation(pid, Of(s, pid).call, Of(s, pid).tnet, replyLost);
    var s' := Commit(s, pid, replyLost);
    PutIsOperation(conf0, s, pid, replyLost);
    Append(Book0(conf0), s.log, op);
    CommitHistory(conf0, s, s', op);
    forall q ensures HeldBits(Of(s', q)) == Owned(Replay(Book0(conf0), s'.log), q) && ProcOk(conf0, s', Of(s', q)) {
      CommitForProc(conf0, s, pid, replyLost, q);
    }
  }

  lemma StepKeepsInv(conf0: seq<Profile>, s: State, e: Event)
    requires Inv(conf0, s) && !LostDelete(s, e)
    ensures Inv(conf0, Do(s, e))
  {
    if Accepted(s, e) {
      CommitKeepsInv(conf0, s, e.pid, e.action.SendReplyLost?);
    } else {
      var p := Of(s, e.pid);
      assert ProcOk(conf0, s, p);
      RememberKeepsProc(conf0, s, p, e.action);
      LocalStep(conf0, s, e.pid, Remember(s, p, e.action));
    }
  }

  /** After a lost DELETE reply the network is still live, but its VNI belongs to nobody. */
  lemma LostDeleteBreaksInv(conf0: seq<Profile>, s: State, e: Event)
    requires Inv(conf0, s) && LostDelete(s, e)
    ensures HeldBits(Of(Do(s, e), e.pid)) == {KeyRes(Of(s, e.pid).call.tnet)}
    ensures Owned(Replay(Book0(conf0), Do(s, e).log), e.pid) == {}
  {
    hide SameProfiles, Bits, Legal, Apply, ZeroTaken, PassOf, IfaceIndex, ProcOk;
    var p := Of(s, e.pid);
    var op := Operation(e.pid, p.call, p.tnet, true);
    PutIsOperation(conf0, s, e.pid, true);
    Append(Book0(conf0), s.log, op);
    OwnedAfter(Replay(Book0(conf0), s.log), op, e.pid);
  }

  /** The exact condition: a step keeps the books balanced if and only if it is not a DELETE whose reply is lost. */
  lemma StepKeepsInvExactly(conf0: seq<Profile>, s: State, e: Event)
    requires Inv(conf0, s)
    ensures Inv(conf0, Do(s, e)) <==> !LostDelete(s, e)
  {
    if LostDelete(s, e) {
      LostDeleteBreaksInv(conf0, s, e);
    } else {
      StepKeepsInv(conf0, s, e);
    }
  }

  lemma {:induction false} RunKeepsInv(conf0: seq<Profile>, s: State, events: seq<Event>)
    requires Inv(conf0, s) && NoLostDelete(s, events)
    ensures Inv(conf0, Run(s, events))
    decreases |events|
  {
    if |events| > 0 {
      StepKeepsInv(conf0, s, events[0]);
      RunKeepsInv(conf0, Do(s, events[0]), events[1..]);
    }
  }

  // ---- what holds in every run, lost replies included ----

  /** One operation on the bitmaps: it sets bits that were all clear, or clears bits. */
  ghost predicate Changes(before: seq<Profile>, op: Op<Res>, after: seq<Profile>) {
    match op
    case Take(_, rs) => rs !! Bits(before) && Bits(after) == Bits(before) + rs
    case Give(_, rs) => Bits(after) == Bits(before) - rs
  }

  ghost predicate VersionOk(conf0: seq<Profile>, conf: seq<Profile>) { SameProfiles(conf0, conf) && ZeroTaken(conf) }

  ghost predicate Always(conf0: seq<Profile>, s: State) {
    && |s.hist| == |s.log| + 1
    && (forall v :: 0 <= v < |s.hist| ==> VersionOk(conf0, s.hist[v]))
    && (forall v :: 0 <= v < |s.log| ==> Changes(s.hist[v], s.log[v], s.hist[v + 1]))
    && forall pid :: ProcOk(conf0, s, Of(s, pid))
  }

  /** What an update writes, and the network that its process is left with. */
  lemma PutFromVersion(conf0: seq<Profile>, s: State, pid: nat, replyLost: bool)
    requires Always(conf0, s) && Of(s, pid).Putting? && Of(s, pid).ver == Top(s)
    ensures var p := Of(s, pid);
      && VersionOk(conf0, p.next) && Changes(s.hist[Top(s)], Operation(pid, p.call, p.tnet, replyLost), p.next)
      && (p.call.Create? ==> TnetOk(conf0, p.tnet)) && (p.call.Delete? ==> TnetOk(conf0, p.call.tnet))
  {
    var p := Of(s, pid);
    assert ProcOk(conf0, s, p) && VersionOk(conf0, s.hist[p.ver]);
    if p.call.Create? {
      CreatePass(conf0, p.conf, p.call);
    } else {
      DeletePass(conf0, p.conf, p.call);
    }
  }

  lemma CommitterOk(conf0: seq<Profile>, s: State, pid: nat, replyLost: bool)
    requires Always(conf0, s) && Of(s, pid).Putting? && Of(s, pid).ver == Top(s)
    ensures ProcOk(conf0, Commit(s, pid, replyLost), Of(Commit(s, pid, replyLost), pid))
  {
    PutFromVersion(conf0, s, pid, replyLost);
    hide Always, VersionOk, Changes, Operation, TnetOk;
  }

  lemma OneMoreVersion(conf0: seq<Profile>, s: State, s': State, next: seq<Profile>, op: Op<Res>)
    requires |s.hist| == |s.log| + 1 && s'.hist == s.hist + [next] && s'.log == s.log + [op]
    requires (forall v :: 0 <= v < |s.hist| ==> VersionOk(conf0, s.hist[v])) && VersionOk(conf0, next)
    requires forall v :: 0 <= v < |s.log| ==> Changes(s.hist[v], s.log[v], s.hist[v + 1])
    requires Changes(s.hist[|s.log|], op, next)
    ensures forall v :: 0 <= v < |s'.hist| ==> VersionOk(conf0, s'.hist[v])
    ensures forall v :: 0 <= v < |s'.log| ==> Changes(s'.hist[v], s'.log[v], s'.hist[v + 1])
  {
    hide VersionOk, Changes;
    forall v | 0 <= v < |s'.log| ensures Changes(s'.hist[v], s'.log[v], s'.hist[v + 1]) {
      assert v < |s.log| ==> s'.hist[v] == s.hist[v] && s'.hist[v + 1] == s.hist[v + 1] && s'.log[v] == s.log[v];
    }
  }

  lemma CommitKeepsAlways(conf0: seq<Profile>, s: State, pid: nat, replyLost: bool)
    requires Always(conf0, s) && Of(s, pid).Putting? && Of(s, pid).ver == Top(s)
    ensures Always(conf0, Commit(s, pid, replyLost))
  {
    PutFromVersion(conf0, s, pid, replyLost);
    CommitterOk(conf0, s, pid, replyLost);
    hide ProcOk, VersionOk, Changes, Operation;
    var p, s' := Of(s, pid), Commit(s, pid, replyLost);
    OneMoreVersion(conf0, s, s', p.next, Operation(pid, p.call, p.tnet, replyLost));
    forall q | q != pid ensures ProcOk(conf0, s', Of(s', q)) {
      assert ProcOk(conf0, s, Of(s, q));
      ProcSurvives(conf0, s, s', Of(s, q));
    }
  }

  lemma StepKeepsAlways(conf0: seq<Profile>, s: State, e: Event)
    requires Always(conf0, s)
    ensures Always(conf0, Do(s, e))
  {
    var p, s' := Of(s, e.pid), Do(s, e);
    if Accepted(s, e) {
      CommitKeepsAlways(conf0, s, e.pid, e.action.SendReplyLost?);
    } else {
      assert ProcOk(conf0, s, p);
      assert forall v :: 0 <= v < |s.hist| ==> VersionOk(conf0, s.hist[v]);
      RememberKeepsProc(conf0, s, p, e.action);
      hide VersionOk, Changes, Remember, TnetOk, PassOf, CallOk;
      forall q ensures ProcOk(conf0, s', Of(s', q)) {
        assert Of(s', q) == if q == e.pid then Remember(s, p, e.action) else Of(s, q);
        assert q != e.pid ==> ProcOk(conf0, s, Of(s, q));
      }
    }
  }

  lemma {:induction false} RunKeepsAlways(conf0: seq<Profile>, s: State, events: seq<Event>)
    requires Always(conf0, s)
    ensures Always(conf0, Run(s, events))
    decreases |events|
  {
    if |events| > 0 {
      StepKeepsAlways(conf0, s, events[0]);
      RunKeepsAlways(conf0, Do(s, events[0]), events[1..]);
    }
  }

  lemma ReachesAlways(conf0: seq<Profile>, events: seq<Event>)
    requires GoodConf(conf0) && ZeroTaken(conf0)
    ensures Always(conf0, Run(Fresh(conf0), events))
  {
    assert [conf0][0] == conf0;
    RunKeepsAlways(conf0, Fresh(conf0), events);
  }

  // ---- guarantees over whole runs ----

  /** The network counts as live until its DELETE is admitted. */
  function TnetOf(p: Proc): Option<Tnet> {
    if p.Live? then Some(p.tnet)
    else if !p.Absent? && p.call.Delete? then Some(p.call.tnet)
    else None
  }

  lemma LiveOwns(conf0: seq<Profile>, s: State, p: nat, a: Tnet)
    requires Inv(conf0, s) && TnetOf(Of(s, p)) == Some(a) && (a.vlan != 0 || a.vxlan != 0)
    ensures KeyRes(a) in Owned(Replay(Book0(conf0), s.log), p) && KeyRes(a) in Bits(s.hist[Top(s)])
    ensures TnetOk(conf0, a)
  {
    hide LegalLog, SameProfiles, Bits, TnetOk, Replay;
    assert ProcOk(conf0, s, Of(s, p));
    assert KeyRes(a) in HeldBits(Of(s, p));
    assert s.log[..Top(s)] == s.log;
  }

  /**
    Exclusive VNIs: two live networks on one interface and VNI type never have the same VNI;
    each VNI is nonzero, in the range of its profile, and set on the server.
   */
  lemma ExclusiveVnis(conf0: seq<Profile>, events: seq<Event>, p: nat, q: nat, a: Tnet, b: Tnet)
    requires GoodConf(conf0) && ZeroTaken(conf0) && NoLostDelete(Fresh(conf0), events)
    requires var s := Run(Fresh(conf0), events);
      p != q && TnetOf(Of(s, p)) == Some(a) && TnetOf(Of(s, q)) == Some(b)
    requires (a.vlan != 0 || a.vxlan != 0) && (b.vlan != 0 || b.vxlan != 0)
    ensures var s := Run(Fresh(conf0), events);
      var (name, vniType, vni) := FreeKey(a);
      && (FreeKey(b).0 == name && FreeKey(b).1 == vniType ==> FreeKey(b).2 != vni)
      && vni != 0 && IfaceIndex(conf0, name, vniType).Some?
      && vni in conf0[IfaceIndex(conf0, name, vniType).value].vniRange
      && KeyRes(a) in Bits(s.hist[Top(s)])
  {
    FreshInv(conf0);
    RunKeepsInv(conf0, Fresh(conf0), events);
    var s := Run(Fresh(conf0), events);
    LiveOwns(conf0, s, p, a);
    LiveOwns(conf0, s, q, b);
  }

  /**
    In every run, each version of the configuration is its predecessor with one VNI set that was
    clear, or one cleared.
   */
  lemma NoLostUpdates(conf0: seq<Profile>, events: seq<Event>, v: nat)
    requires GoodConf(conf0) && ZeroTaken(conf0)
    requires v < |Run(Fresh(conf0), events).log|
    ensures var s := Run(Fresh(conf0), events);
      v + 1 < |s.hist| && Changes(s.hist[v], s.log[v], s.hist[v + 1])
  {
    ReachesAlways(conf0, events);
  }

  /** Unless a DELETE reply was lost, what is cleared is a VNI that its own network holds at that moment. */
  lemma OnlyHoldersClear(conf0: seq<Profile>, events: seq<Event>, v: nat)
    requires GoodConf(conf0) && ZeroTaken(conf0) && NoLostDelete(Fresh(conf0), events)
    requires v < |Run(Fresh(conf0), events).log| && Run(Fresh(conf0), events).log[v].Give?
    ensures var s := Run(Fresh(conf0), events);
      v < |s.hist| && s.log[v].rs <= Owned(Replay(Book0(conf0), s.log[..v]), s.log[v].pid) <= Bits(s.hist[v])
  {
    FreshInv(conf0);
    RunKeepsInv(conf0, Fresh(conf0), events);
    var s := Run(Fresh(conf0), events);
    assert Legal(Replay(Book0(conf0), s.log[..v]), s.log[v]);
    assert Bits(s.hist[v]) == Replay(Book0(conf0), s.log[..v]).Keys;
  }

  /**
    In every run, each retry is paid for by a commit since the call's first copy, and every VNI a
    pass may touch lies inside its bitmap.
   */
  lemma RetriesAndIndices(conf0: seq<Profile>, events: seq<Event>, pid: nat)
    requires GoodConf(conf0) && ZeroTaken(conf0)
    requires Of(Run(Fresh(conf0), events), pid).Running?
    ensures var s := Run(Fresh(conf0), events);
      var p := Of(s, pid);
      && p.first + p.tries <= p.ver <= |s.log|
      && (forall i :: 0 <= i < |p.conf| ==> ProfileOk(p.conf[i]))
      && (p.call.Delete? && TnetBits(p.call.tnet) != {} ==>
            var i := IfaceIndex(p.conf, KeyRes(p.call.tnet).name, KeyRes(p.call.tnet).vniType);
            i.Some? && KeyRes(p.call.tnet).vni < p.conf[i.value].alloc.size)
  {
    ReachesAlways(conf0, events);
    var s := Run(Fresh(conf0), events);
    var p := Of(s, pid);
    assert ProcOk(conf0, s, p) && VersionOk(conf0, s.hist[p.ver]);
    if p.call.Delete? {
      SameIndices(conf0, p.conf, KeyRes(p.call.tnet).name, KeyRes(p.call.tnet).vniType);
    }
  }

  /** In every run, the VNI of a live network is nonzero and in the range of the profile it is freed on. */
  lemma VnisInRange(conf0: seq<Profile>, events: seq<Event>, pid: nat, tnet: Tnet)
    requires GoodConf(conf0) && ZeroTaken(conf0)
    requires TnetOf(Of(Run(Fresh(conf0), events), pid)) == Some(tnet) && (tnet.vlan != 0 || tnet.vxlan != 0)
    ensures var (name, vniType, vni) := FreeKey(tnet);
      && vni != 0 && IfaceIndex(conf0, name, vniType).Some?
      && vni in conf0[IfaceIndex(conf0, name, vniType).value].vniRange
  {
    ReachesAlways(conf0, events);
    var s := Run(Fresh(conf0), events);
    assert ProcOk(conf0, s, Of(s, pid));
  }
}
