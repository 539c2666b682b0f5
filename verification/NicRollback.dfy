/**
  Giving addresses back: GarbageCollectIps, DeleteDanmEp and the failure paths of createNic
  for an ipvlan request (pkg/danmep, pkg/metacni), in any interleaving with other processes.
 */
module NicRollback {
  import opened Wrappers
  import opened Addressing
  import opened Ipam
  import opened AtomicAllocator
  import opened IpamProtocol

  /** DeleteDanmEp frees only if one of the addresses falls into a subnet of the network. */
  predicate WasIpAllocatedByDanm(address: Address, nets: Subnets)
    requires nets.L3? ==> ValidCidr(nets.alloc)
  {
    address.At? && address.ip.Some? && nets.L3? && Contains(nets.alloc, address.ip.value)
  }

  lemma SkippedLeaseHasNoBits(net: Net, lease: Lease)
    requires GoodNet(net)
    ensures !WasIpAllocatedByDanm(lease.a4, net.nets4) && !WasIpAllocatedByDanm(lease.a6, net.nets6) <==>
      LeaseBits(net, lease) == {}
  {
  }

  // ---- what a process has given back ----

  /** The DanmEp of the process is not removed. */
  predicate Stays(pid: nat, events: seq<Event>) { Event(pid, Deleted) !in events }

  /** A keeper stays one, and commits no reservation of its own. */
  lemma KeeperStep(net: Net, s: State, e: Event, pid: nat)
    requires GoodNet(net) && |s.hist| > 0 && Keeps(Of(s, pid)) && e != Event(pid, Deleted)
    ensures var s' := Do(net, s, e);
      Keeps(Of(s', pid)) && s.log <= s'.log && TakesNothing(s'.log, |s.log|, pid)
  {
    hide Pass, LeaseBits, AddressBits;
  }

  lemma {:induction false} KeeperRun(net: Net, s: State, events: seq<Event>, pid: nat)
    requires GoodNet(net) && |s.hist| > 0 && Keeps(Of(s, pid)) && Stays(pid, events)
    ensures var s' := Run(net, s, events);
      Keeps(Of(s', pid)) && s.log <= s'.log && TakesNothing(s'.log, |s.log|, pid)
    decreases |events|
  {
    if |events| > 0 {
      KeeperStep(net, s, events[0], pid);
      var s1 := Do(net, s, events[0]);
      KeeperRun(net, s1, events[1..], pid);
      var s' := Run(net, s1, events[1..]);
      assert forall v :: |s.log| <= v < |s1.log| ==> s'.log[v] == s1.log[v];
    }
  }

  lemma HeldIsOwned(net: Net, spec0: Spec, s: State, pid: nat)
    requires GoodNet(net) && Inv(net, spec0, s)
    ensures HeldBits(net, Of(s, pid)) == Owned(Replay(Book0(spec0), s.log), pid)
    ensures LegalLog(Book0(spec0), s.log) && |s.hist| == |s.log| + 1
    ensures HeldBits(net, Of(s, pid)) <= Bits(s.hist[Top(s)])
  {
    assert HeldBits(net, Of(s, pid)) == Owned(Replay(Book0(spec0), s.log), pid);
    assert s.log[..Top(s)] == s.log;
  }

  /** In any clean run, the bits a keeper no longer holds are exactly those it has given back in between. */
  lemma RunGives(net: Net, spec0: Spec, s: State, events: seq<Event>, pid: nat)
    requires GoodNet(net) && Inv(net, spec0, s) && NoSlip(net, s, events) && Keeps(Of(s, pid)) && Stays(pid, events)
    ensures var s' := Run(net, s, events);
      var given := GivenSince(s'.log, |s.log|, pid);
      && Inv(net, spec0, s') && Keeps(Of(s', pid)) && s.log <= s'.log
      && given <= HeldBits(net, Of(s, pid)) && HeldBits(net, Of(s', pid)) == HeldBits(net, Of(s, pid)) - given
  {
    HeldIsOwned(net, spec0, s, pid);
    RunKeepsInv(net, spec0, s, events);
    var s' := Run(net, s, events);
    KeeperRun(net, s, events, pid);
    HeldIsOwned(net, spec0, s', pid);
    hide Inv, HeldBits, Keeps, Run, NoSlip, LegalLog, TakesNothing;
    OwnedLessGiven(Book0(spec0), s'.log, |s.log|, pid);
    assert s'.log[..|s.log|] == s.log;
  }

  /** The commit that led from version `v` to the next is this process's, and clears the bit, which was set. */
  ghost predicate ClearedBy(s: State, v: nat, pid: nat, r: Res) {
    v < |s.log| && v + 1 < |s.hist| && r in GivenIn(s.log[v], pid) && r in Bits(s.hist[v]) && r !in Bits(s.hist[v + 1])
  }

  /**
    Nothing is given back silently or by others: between two states of any clean run, a bit is
    no longer held exactly if some commit of its holder, in between, cleared it while it was set.
   */
  lemma EveryBitHasItsCommit(net: Net, spec0: Spec, s: State, events: seq<Event>, pid: nat, r: Res)
    requires GoodNet(net) && Inv(net, spec0, s) && NoSlip(net, s, events) && Stays(pid, events)
    requires Keeps(Of(s, pid)) && r in HeldBits(net, Of(s, pid))
    ensures var s' := Run(net, s, events);
      r !in HeldBits(net, Of(s', pid)) <==> exists v :: v >= |s.log| && ClearedBy(s', v, pid, r)
  {
    RunGives(net, spec0, s, events, pid);
    hide Inv, HeldBits, Keeps, Run, NoSlip, ClearedBy;
    GivenIffCleared(net, spec0, Run(net, s, events), |s.log|, pid, r);
  }

  lemma GivenIffCleared(net: Net, spec0: Spec, s: State, start: nat, pid: nat, r: Res)
    requires GoodNet(net) && Inv(net, spec0, s)
    ensures r in GivenSince(s.log, start, pid) <==> exists v :: v >= start && ClearedBy(s, v, pid, r)
  {
    hide Inv, GivenSince, Bits, LegalLog, HeldBits, Replay, Owned;
    HeldIsOwned(net, spec0, s, pid);
    if r in GivenSince(s.log, start, pid) {
      var v :| start <= v < |s.log| && r in GivenIn(s.log[v], pid);
      GiveClears(net, spec0, s, v);
      assert ClearedBy(s, v, pid, r);
    }
  }

  lemma GiveClears(net: Net, spec0: Spec, s: State, v: nat)
    requires GoodNet(net) && Inv(net, spec0, s) && v < |s.log| && s.log[v].Give?
    ensures s.log[v].rs <= Bits(s.hist[v]) && s.log[v].rs !! Bits(s.hist[v + 1])
  {
    assert Legal(Replay(Book0(spec0), s.log[..v]), s.log[v]);
    assert s.log[..v + 1][..v] == s.log[..v];
  }

  /**
    However stale its copies and whoever else writes: a Free that has returned has cleared exactly
    the bit of its address.
   */
  lemma ReleaseClears(net: Net, spec0: Spec, s: State, events: seq<Event>, pid: nat, v6: bool)
    requires GoodNet(net) && Inv(net, spec0, s) && NoSlip(net, s, events) && Stays(pid, events)
    requires Of(s, pid).Holding? && Of(Run(net, s, events), pid).Holding?
    requires Of(Run(net, s, events), pid).lease == Without(Of(s, pid).lease, v6)
    ensures GivenSince(Run(net, s, events).log, |s.log|, pid) == AddressBits(net, Of(s, pid).lease, v6)
  {
    RunGives(net, spec0, s, events, pid);
    assert ProcOk(net, s, Of(s, pid)) && Good(net, s.hist[Top(s)]);
    FreeIpBits(net, s.hist[Top(s)], Of(s, pid).lease, v6);
  }

  /** Likewise for both Frees of GarbageCollectIps, also where the first has made the copy of the second stale. */
  lemma CollectClears(net: Net, spec0: Spec, s: State, events: seq<Event>, pid: nat)
    requires GoodNet(net) && Inv(net, spec0, s) && NoSlip(net, s, events) && Stays(pid, events)
    requires Of(s, pid).Holding? && Of(Run(net, s, events), pid).Holding?
    requires Of(Run(net, s, events), pid).lease == Lease(NoAddress, NoAddress)
    ensures GivenSince(Run(net, s, events).log, |s.log|, pid) == LeaseBits(net, Of(s, pid).lease)
  {
    hide Inv, NoSlip, Run, GivenSince, Keeps;
    assert Keeps(Of(s, pid)) by { HoldersKeep(Of(s, pid)); }
    RunGives(net, spec0, s, events, pid);
  }

  lemma HoldersKeep(p: Proc)
    ensures p.Holding? ==> Keeps(p)
  {
  }

  // ---- DeleteDanmEp as a program of one process in an interleaved run ----

  /**
    It frees the IPv4 and then the IPv6 address, from one copy of the network, and then removes the DanmEp.
    At the first error it gives up; some of the addresses may have been freed by then.
   */
  datatype Phase = Releasing4 | Releasing6 | Removing | Finished | Aborted(freed4: bool, freed6: bool)

  predicate Ended(phase: Phase) { phase.Finished? || phase.Aborted? }

  predicate Freed4(phase: Phase) { if phase.Aborted? then phase.freed4 else !phase.Releasing4? }
  predicate Freed6(phase: Phase) { if phase.Aborted? then phase.freed6 else phase.Removing? || phase.Finished? }

  ghost function FreedBits(net: Net, lease: Lease, phase: Phase): set<Res>
    requires GoodNet(net)
  {
    (if Freed4(phase) then AddressBits(net, lease, false) else {})
      + (if Freed6(phase) then AddressBits(net, lease, true) else {})
  }

  /** An error reaches the process: an update or a read fails, a reply is lost, or the DanmEp cannot be removed. */
  predicate Hits(s: State, e: Event)
    requires |s.hist| > 0
  {
    Fails(Of(s, e.pid), e.action) || LostFree(s, e)
  }

  ghost function NextPhase(net: Net, s: State, pid: nat, phase: Phase, e: Event): Phase
    requires GoodNet(net) && |s.hist| > 0
  {
    var p, p' := Of(s, pid), Of(Do(net, s, e), pid);
    if e.pid != pid then phase
    else if Hits(s, e) then
      Aborted(Freed4(phase) || (phase.Releasing4? && LostFree(s, e)),
              Freed6(phase) || (phase.Releasing6? && LostFree(s, e)))
    else if phase.Removing? && p'.Idle? then Finished
    else if p.Holding? || !p'.Holding? then phase
    else if phase.Releasing4? then Releasing6
    else if phase.Releasing6? then Removing
    else phase
  }

  /** Between its calls the process does nothing but start the next one, or die. */
  predicate Obeys(phase: Phase, p: Proc, action: Action, ver: nat) {
    p.Idle? || p.Holding? ==>
      match phase
      case Releasing4 => action in {BeginFree(false, ver), Abandon}
      case Releasing6 => action in {BeginFree(true, ver), Abandon}
      case Removing => action in {Deleted, Abandon}
      case Finished => false
      case Aborted(_, _) => false
  }

  ghost predicate Executes(net: Net, s: State, pid: nat, phase: Phase, ver: nat, events: seq<Event>)
    requires GoodNet(net) && |s.hist| > 0
    decreases |events|
  {
    |events| > 0 ==>
      var e := events[0];
      && (e.pid == pid ==> Obeys(phase, Of(s, pid), e.action, ver))
      && Executes(net, Do(net, s, e), pid, NextPhase(net, s, pid, phase, e), ver, events[1..])
  }

  ghost function PhaseAfter(net: Net, s: State, pid: nat, phase: Phase, events: seq<Event>): Phase
    requires GoodNet(net) && |s.hist| > 0
    decreases |events|
  {
    if |events| == 0 then phase
    else PhaseAfter(net, Do(net, s, events[0]), pid, NextPhase(net, s, pid, phase, events[0]), events[1..])
  }

  ghost predicate Hit(net: Net, s: State, pid: nat, events: seq<Event>)
    requires GoodNet(net) && |s.hist| > 0
    decreases |events|
  {
    |events| > 0 && ((events[0].pid == pid && Hits(s, events[0])) || Hit(net, Do(net, s, events[0]), pid, events[1..]))
  }

  /** Nobody else slips; the process itself may, in the ways in which a deletion can. */
  ghost predicate OthersClean(net: Net, s: State, pid: nat, events: seq<Event>)
    requires GoodNet(net) && |s.hist| > 0
    decreases |events|
  {
    |events| > 0 ==>
      && (events[0].pid != pid ==> !Slip(net, s, events[0]))
      && OthersClean(net, Do(net, s, events[0]), pid, events[1..])
  }

  predicate InCall(p: Proc) { !p.Idle? && !p.Holding? }

  /** What the process is doing in each phase. */
  ghost predicate PhaseOk(net: Net, listed: Lease, since: nat, phase: Phase, p: Proc)
    requires GoodNet(net)
  {
    match phase
    case Releasing4 => p == Kept(listed, since) || (InCall(p) && p.call == FreeCall(listed, since, listed, false))
    case Releasing6 =>
      var rest := Without(listed, false);
      p == Holding(rest, since, listed) || (InCall(p) && p.call == FreeCall(rest, since, listed, true))
    case Removing => p.Holding? && p == Holding(p.lease, since, listed) && LeaseBits(net, p.lease) == {}
    case Finished => p.Idle?
    case Aborted(_, _) => p == Kept(listed, since)
  }

  function Rest(listed: Lease, phase: Phase): Lease {
    var rest := if Freed4(phase) then Without(listed, false) else listed;
    if Freed6(phase) then Without(rest, true) else rest
  }

  lemma RestBits(net: Net, listed: Lease, phase: Phase)
    requires GoodNet(net)
    ensures LeaseBits(net, Rest(listed, phase)) == LeaseBits(net, listed) - FreedBits(net, listed, phase)
    ensures FreedBits(net, listed, phase) <= LeaseBits(net, listed)
  {
  }

  /** The state with the books put right: as if a DanmEp whose deletion failed listed only what is still owed. */
  function Corrected(s: State, pid: nat, listed: Lease, since: nat, phase: Phase): State {
    if phase.Aborted? then s.(procs := s.procs[pid := Kept(Rest(listed, phase), since)]) else s
  }

  ghost predicate Sound(net: Net, spec0: Spec, s: State, pid: nat, listed: Lease, since: nat, phase: Phase)
    requires GoodNet(net)
  {
    Inv(net, spec0, Corrected(s, pid, listed, since, phase)) && PhaseOk(net, listed, since, phase, Of(s, pid))
  }

  /** What one step gives back of the lease. */
  ghost predicate StepGives(net: Net, s: State, s': State, pid: nat, listed: Lease, phase: Phase, phase': Phase)
    requires GoodNet(net)
  {
    && s.log <= s'.log && |s'.log| <= |s.log| + 1 && s.hist <= s'.hist
    && FreedBits(net, listed, phase) <= FreedBits(net, listed, phase')
    && FreedBits(net, listed, phase') - FreedBits(net, listed, phase) ==
       if |s'.log| > |s.log| then GivenIn(s'.log[|s.log|], pid) else {}
  }

  lemma GivesNothing(net: Net, s: State, s': State, pid: nat, listed: Lease, phase: Phase, phase': Phase)
    requires GoodNet(net) && s'.log == s.log && s.hist <= s'.hist
    requires Freed4(phase') == Freed4(phase) && Freed6(phase') == Freed6(phase)
    ensures StepGives(net, s, s', pid, listed, phase, phase')
  {
    hide AddressBits;
  }

  /** The log shows that the address of one family was freed, unless that address has no bit. */
  ghost predicate LogsFree(net: Net, s: State, s': State, pid: nat, lease: Lease, v6: bool)
    requires GoodNet(net)
  {
    var bits := AddressBits(net, lease, v6);
    && s.hist <= s'.hist
    && (s'.log == s.log + [Give(pid, bits)] || (s'.log == s.log && bits == {}))
  }

  lemma GivesAddress(net: Net, s: State, s': State, pid: nat, listed: Lease, phase: Phase, phase': Phase, v6: bool)
    requires GoodNet(net) && LogsFree(net, s, s', pid, listed, v6)
    requires !(if v6 then Freed6(phase) else Freed4(phase))
    requires Freed4(phase') == (Freed4(phase) || !v6) && Freed6(phase') == (Freed6(phase) || v6)
    ensures StepGives(net, s, s', pid, listed, phase, phase')
  {
    FamiliesApart(net, listed);
    hide AddressBits;
  }

  lemma FamiliesApart(net: Net, lease: Lease)
    requires GoodNet(net)
    ensures AddressBits(net, lease, false) !! AddressBits(net, lease, true)
  {
  }

  // ---- steps of others ----

  lemma OtherStep(net: Net, spec0: Spec, s: State, pid: nat, listed: Lease, since: nat, phase: Phase, e: Event)
    requires GoodNet(net) && Sound(net, spec0, s, pid, listed, since, phase) && |s.hist| > 0
    requires e.pid != pid && !Slip(net, s, e)
    ensures Sound(net, spec0, Do(net, s, e), pid, listed, since, phase)
    ensures StepGives(net, s, Do(net, s, e), pid, listed, phase, phase)
  {
    hide Inv, PhaseOk, FreedBits, Rest, Slip, StepGives;
    CorrectedCommutes(net, s, pid, listed, since, phase, e);
    StepKeepsInv(net, spec0, Corrected(s, pid, listed, since, phase), e);
    OtherGivesNothing(net, s, pid, listed, phase, e);
  }

  lemma OtherGivesNothing(net: Net, s: State, pid: nat, listed: Lease, phase: Phase, e: Event)
    requires GoodNet(net) && |s.hist| > 0 && e.pid != pid
    ensures StepGives(net, s, Do(net, s, e), pid, listed, phase, phase) && Of(Do(net, s, e), pid) == Of(s, pid)
  {
    hide AddressBits, LeaseBits, Remember;
  }

  lemma CorrectedCommutes(net: Net, s: State, pid: nat, listed: Lease, since: nat, phase: Phase, e: Event)
    requires GoodNet(net) && |s.hist| > 0 && e.pid != pid
    ensures var c := Corrected(s, pid, listed, since, phase);
      && |c.hist| > 0 && Do(net, c, e) == Corrected(Do(net, s, e), pid, listed, since, phase)
      && (Slip(net, c, e) <==> Slip(net, s, e))
  {
    var c := Corrected(s, pid, listed, since, phase);
    assert Of(c, e.pid) == Of(s, e.pid);
    hide Remember, Pass, LeaseBits, Rest;
    RememberDepends(net, s, c, Of(s, e.pid), e.action);
    if phase.Aborted? {
      SwapUpdates(s.procs, pid, e.pid, Kept(Rest(listed, phase), since), Of(Do(net, s, e), e.pid));
    }
  }

  lemma SwapUpdates(procs: map<nat, Proc>, p: nat, q: nat, x: Proc, y: Proc)
    requires p != q
    ensures procs[p := x][q := y] == procs[q := y][p := x]
  {
  }

  lemma UpdateTwice(procs: map<nat, Proc>, p: nat, x: Proc, y: Proc)
    ensures procs[p := x][p := y] == procs[p := y]
  {
  }

  lemma RememberDepends(net: Net, s: State, c: State, p: Proc, action: Action)
    requires GoodNet(net) && |s.hist| > 0 && s.hist == c.hist
    ensures Remember(net, s, p, action) == Remember(net, c, p, action)
  {
  }

  // ---- steps of the process itself ----

  lemma ObeyersKeep(net: Net, listed: Lease, since: nat, phase: Phase, p: Proc, action: Action, ver: nat)
    requires GoodNet(net) && PhaseOk(net, listed, since, phase, p) && Obeys(phase, p, action, ver)
    ensures Keeps(p) && ListedBy(p) == listed && SinceOf(p) == since && !Ended(phase)
  {
  }

  lemma NoSlipOfKeeper(net: Net, s: State, e: Event)
    requires GoodNet(net) && |s.hist| > 0 && Keeps(Of(s, e.pid)) && !Hits(s, e)
    ensures !Slip(net, s, e)
  {
    hide Pass, LeaseBits;
  }

  /** What is held in each phase is what is left of the lease. */
  lemma HeldIsRest(net: Net, s: State, listed: Lease, since: nat, phase: Phase, p: Proc)
    requires GoodNet(net) && PhaseOk(net, listed, since, phase, p) && ProcOk(net, s, p) && Keeps(p) && !Ended(phase)
    ensures HeldBits(net, p) == LeaseBits(net, Rest(listed, phase)) && Backed(net, s, Rest(listed, phase), since)
    ensures ProcOk(net, s, Kept(Rest(listed, phase), since))
  {
    NothingLeft(net, listed);
  }

  lemma NothingLeft(net: Net, lease: Lease)
    requires GoodNet(net)
    ensures LeaseBits(net, Without(Without(lease, false), true)) == {}
  {
  }

  lemma FailStep(net: Net, spec0: Spec, s: State, pid: nat, listed: Lease, since: nat, phase: Phase, e: Event)
    requires GoodNet(net) && Sound(net, spec0, s, pid, listed, since, phase) && |s.hist| > 0
    requires e.pid == pid && Fails(Of(s, pid), e.action) && !LostFree(s, e) && !Ended(phase)
    requires ListedBy(Of(s, pid)) == listed && SinceOf(Of(s, pid)) == since
    ensures var phase' := NextPhase(net, s, pid, phase, e);
      && Sound(net, spec0, Do(net, s, e), pid, listed, since, phase')
      && StepGives(net, s, Do(net, s, e), pid, listed, phase, phase') && phase'.Aborted?
  {
    var phase' := NextPhase(net, s, pid, phase, e);
    assert ProcOk(net, s, Of(s, pid)) by { hide PhaseOk, Fails, LostFree, NextPhase; }
    hide Inv, ProcOk, Do, LeaseBits, AddressBits, FreedBits, StepGives, Backed;
    assert phase' == Aborted(Freed4(phase), Freed6(phase)) && Rest(listed, phase') == Rest(listed, phase);
    HeldIsRest(net, s, listed, since, phase, Of(s, pid));
    FailureStep(net, s, e);
    HeldOfKept(net, Rest(listed, phase), since);
    LocalStep(net, spec0, s, pid, Kept(Rest(listed, phase), since));
    UpdateTwice(s.procs, pid, Kept(listed, since), Kept(Rest(listed, phase), since));
    GivesNothing(net, s, Do(net, s, e), pid, listed, phase, phase');
  }

  lemma HeldOfKept(net: Net, lease: Lease, since: nat)
    requires GoodNet(net)
    ensures HeldBits(net, Kept(lease, since)) == LeaseBits(net, lease)
  {
  }

  /** A Free that commits, whether its reply arrives or not. */
  lemma FreeCommits(net: Net, spec0: Spec, s: State, e: Event)
    requires GoodNet(net) && Inv(net, spec0, s) && Accepted(s, e) && Of(s, e.pid).call.FreeCall?
    ensures var call := Of(s, e.pid).call;
      var s1 := Do(net, s, e);
      var bits := AddressBits(net, call.lease, call.v6);
      && s1.log == s.log + [Give(e.pid, bits)] && |s1.hist| == |s.hist| + 1 && s.hist <= s1.hist
      && s1.procs == s.procs[e.pid := if e.action.SendReplyLost? then Kept(call.listed, call.since)
                             else Holding(Without(call.lease, call.v6), call.since, call.listed)]
      && bits <= LeaseBits(net, call.lease) <= Bits(s.hist[Top(s)])
      && Bits(s1.hist[Top(s1)]) == Bits(s.hist[Top(s)]) - bits
  {
    var p := Of(s, e.pid);
    PuttingFree(net, spec0, s, e.pid);
    PuttingOnTop(net, spec0, s, e);
    hide Inv, LeaseBits, AddressBits, Bits, FreeIp;
    FreeIpBits(net, p.cur.spec, p.call.lease, p.call.v6);
  }

  lemma PuttingOnTop(net: Net, spec0: Spec, s: State, e: Event)
    requires GoodNet(net) && Inv(net, spec0, s) && Accepted(s, e) && Of(s, e.pid).call.FreeCall?
    ensures var p := Of(s, e.pid);
      && p.cur.spec == s.hist[Top(s)] && Good(net, p.cur.spec)
      && p.next == FreeIp(net, p.cur.spec, p.call.lease, p.call.v6) && p.got == Without(p.call.lease, p.call.v6)
      && LeaseBits(net, p.call.lease) <= Bits(s.hist[Top(s)])
  {
    HeldIsOwned(net, spec0, s, e.pid);
    assert ProcOk(net, s, Of(s, e.pid)) && Good(net, s.hist[Top(s)]);
    hide LegalLog, LeaseBits, Bits, FreeIp, AddressBits;
  }

  /** The address that a call of this phase frees is that of the DanmEp. */
  lemma FreedByCall(net: Net, listed: Lease, since: nat, phase: Phase, p: Proc)
    requires GoodNet(net) && PhaseOk(net, listed, since, phase, p) && Keeps(p) && InCall(p)
    ensures phase.Releasing4? || phase.Releasing6?
    ensures AddressBits(net, p.call.lease, p.call.v6) == AddressBits(net, listed, phase.Releasing6?)
    ensures p.call.v6 == phase.Releasing6? && p.call.lease == Rest(listed, phase)
  {
  }

  lemma LostStep(net: Net, spec0: Spec, s: State, pid: nat, listed: Lease, since: nat, phase: Phase, e: Event)
    requires GoodNet(net) && Sound(net, spec0, s, pid, listed, since, phase) && |s.hist| > 0
    requires e.pid == pid && LostFree(s, e) && !Ended(phase)
    requires ListedBy(Of(s, pid)) == listed && SinceOf(Of(s, pid)) == since
    ensures var phase' := NextPhase(net, s, pid, phase, e);
      && Sound(net, spec0, Do(net, s, e), pid, listed, since, phase')
      && StepGives(net, s, Do(net, s, e), pid, listed, phase, phase') && phase'.Aborted?
  {
    var p := Of(s, pid);
    hide Inv, Do, LeaseBits, AddressBits, Bits, FreedBits, StepGives;
    FreedByCall(net, listed, since, phase, p);
    FreeCommits(net, spec0, s, e);
    LostIsCorrected(net, spec0, s, e);
    var phase' := NextPhase(net, s, pid, phase, e);
    assert phase' == Aborted(true, phase.Releasing6?) && Rest(listed, phase') == Without(p.call.lease, p.call.v6);
    UpdateTwice(s.procs, pid, Kept(listed, since), Kept(Rest(listed, phase'), since));
    GivesAddress(net, s, Do(net, s, e), pid, listed, phase, phase', phase.Releasing6?);
  }

  /** Had the reply arrived and the DanmEp been cut down to what is owed, the books would be right. */
  lemma LostIsCorrected(net: Net, spec0: Spec, s: State, e: Event)
    requires GoodNet(net) && Inv(net, spec0, s) && LostFree(s, e)
    ensures var call := Of(s, e.pid).call;
      var s' := Do(net, s, e);
      Inv(net, spec0, s'.(procs := s.procs[e.pid := Kept(Without(call.lease, call.v6), call.since)]))
  {
    var p := Of(s, e.pid);
    var rest := Without(p.call.lease, p.call.v6);
    var c := Commit(net, s, e.pid, false);
    CommitKeepsInv(net, spec0, s, e.pid, false);
    PuttingOnTop(net, spec0, s, e);
    assert Of(c, e.pid) == Holding(rest, p.call.since, p.call.listed);
    assert ProcOk(net, c, Of(c, e.pid));
    LocalStep(net, spec0, c, e.pid, Kept(rest, p.call.since));
    hide Inv, ProcOk, LeaseBits, AddressBits, Bits, FreeIp;
    UpdateTwice(s.procs, e.pid, Of(c, e.pid), Kept(rest, p.call.since));
  }

  /** A step in the middle of a Free that is not hit: it goes on, or ends having freed its address. */
  ghost predicate Progresses(net: Net, s: State, s': State, pid: nat)
    requires GoodNet(net) && Keeps(Of(s, pid)) && InCall(Of(s, pid))
  {
    var call, p' := Of(s, pid).call, Of(s', pid);
    if InCall(p') then p'.call == call && s'.log == s.log && s'.hist == s.hist
    else
      && p' == Holding(Without(call.lease, call.v6), call.since, call.listed)
      && LogsFree(net, s, s', pid, call.lease, call.v6)
  }

  lemma CallProgresses(net: Net, spec0: Spec, s: State, e: Event)
    requires GoodNet(net) && Inv(net, spec0, s) && Keeps(Of(s, e.pid)) && InCall(Of(s, e.pid)) && !Hits(s, e)
    ensures Progresses(net, s, Do(net, s, e), e.pid)
  {
    var p := Of(s, e.pid);
    assert |s.hist| > 0;
    hide Inv, AddressBits, LeaseBits, Bits, FreeIp, Do, Remember, Progresses;
    if Accepted(s, e) {
      CommitProgresses(net, spec0, s, e);
    } else if e.action.Try? && p.Running? {
      assert e == Event(e.pid, Try);
      TryProgresses(net, spec0, s, e.pid);
    } else {
      OtherwiseProgresses(net, s, e);
    }
  }

  lemma CommitProgresses(net: Net, spec0: Spec, s: State, e: Event)
    requires GoodNet(net) && Inv(net, spec0, s) && Accepted(s, e) && Of(s, e.pid).call.FreeCall? && !Hits(s, e)
    ensures Progresses(net, s, Do(net, s, e), e.pid)
  {
    FreeCommits(net, spec0, s, e);
    hide Inv, AddressBits, LeaseBits, Bits, FreeIp, Do;
  }

  lemma TryProgresses(net: Net, spec0: Spec, s: State, pid: nat)
    requires GoodNet(net) && Inv(net, spec0, s) && Of(s, pid).Running? && Of(s, pid).call.FreeCall?
    ensures |s.hist| > 0 && Progresses(net, s, Do(net, s, Event(pid, Try)), pid)
  {
    var p := Of(s, pid);
    var next := FreeIp(net, p.cur.spec, p.call.lease, p.call.v6);
    if next == p.orig.spec {
      NothingFreed(net, spec0, s, pid);
    }
    Passes(net, s, pid, next, Without(p.call.lease, p.call.v6));
    hide Inv, AddressBits, LeaseBits, Bits, FreeIp, Do;
  }

  lemma OtherwiseProgresses(net: Net, s: State, e: Event)
    requires GoodNet(net) && |s.hist| > 0 && Keeps(Of(s, e.pid)) && InCall(Of(s, e.pid)) && !Hits(s, e)
    requires !Accepted(s, e) && !(e.action.Try? && Of(s, e.pid).Running?)
    ensures Progresses(net, s, Do(net, s, e), e.pid)
  {
    hide AddressBits, LeaseBits, Pass, Remember;
    InCallStays(net, s, Of(s, e.pid), e.action);
  }

  lemma InCallStays(net: Net, s: State, p: Proc, action: Action)
    requires GoodNet(net) && |s.hist| > 0 && Keeps(p) && InCall(p) && !Fails(p, action) && !(action.Try? && p.Running?)
    ensures var p' := Remember(net, s, p, action); InCall(p') && p'.call == p.call
  {
    hide Pass, LeaseBits;
  }

  lemma NothingFreed(net: Net, spec0: Spec, s: State, pid: nat)
    requires GoodNet(net) && Inv(net, spec0, s)
    requires Of(s, pid).Running? && Of(s, pid).call.FreeCall?
    requires Pass(net, Of(s, pid).call, Of(s, pid).cur.spec).value.0 == Of(s, pid).orig.spec
    ensures AddressBits(net, Of(s, pid).call.lease, Of(s, pid).call.v6) == {}
  {
    if AddressBits(net, Of(s, pid).call.lease, Of(s, pid).call.v6) != {} {
      FreeNeverMatchesFirstCopy(net, spec0, s, pid);
      assert false;
    }
  }

  lemma GoodStep(net: Net, spec0: Spec, s: State, pid: nat, listed: Lease, since: nat, phase: Phase, ver: nat, e: Event)
    requires GoodNet(net) && Inv(net, spec0, s) && PhaseOk(net, listed, since, phase, Of(s, pid))
    requires since <= ver < |s.hist| && e.pid == pid && Obeys(phase, Of(s, pid), e.action, ver)
    requires Keeps(Of(s, pid)) && !Ended(phase) && !Hits(s, e)
    ensures var phase' := NextPhase(net, s, pid, phase, e);
      && PhaseOk(net, listed, since, phase', Of(Do(net, s, e), pid)) && !phase'.Aborted?
      && StepGives(net, s, Do(net, s, e), pid, listed, phase, phase')
  {
    var p := Of(s, pid);
    hide Inv, AddressBits, FreedBits, StepGives;
    if InCall(p) {
      hide LeaseBits, Do;
      CallGoesOn(net, spec0, s, pid, listed, since, phase, e);
    } else if e.action.BeginFree? {
      hide LeaseBits, Do;
      BeginsFree(net, s, pid, e.action.v6, ver);
      GivesNothing(net, s, Do(net, s, e), pid, listed, phase, phase);
    } else {
      assert e.action.Deleted? && phase.Removing?;
      GivesNothing(net, s, Do(net, s, e), pid, listed, phase, Finished);
    }
  }

  lemma CallGoesOn(net: Net, spec0: Spec, s: State, pid: nat, listed: Lease, since: nat, phase: Phase, e: Event)
    requires GoodNet(net) && Inv(net, spec0, s) && PhaseOk(net, listed, since, phase, Of(s, pid))
    requires e.pid == pid && Keeps(Of(s, pid)) && InCall(Of(s, pid)) && !Ended(phase) && !Hits(s, e) && |s.hist| > 0
    ensures var phase' := NextPhase(net, s, pid, phase, e);
      && PhaseOk(net, listed, since, phase', Of(Do(net, s, e), pid)) && !phase'.Aborted?
      && StepGives(net, s, Do(net, s, e), pid, listed, phase, phase')
  {
    var p, s' := Of(s, pid), Do(net, s, e);
    hide Inv, AddressBits, FreedBits, StepGives, LeaseBits, Do, Hits;
    FreedByCall(net, listed, since, phase, p);
    CallProgresses(net, spec0, s, e);
    NothingLeft(net, listed);
    var phase' := NextPhase(net, s, pid, phase, e);
    if InCall(Of(s', pid)) {
      GivesNothing(net, s, s', pid, listed, phase, phase');
    } else {
      GivesAddress(net, s, s', pid, listed, phase, phase', p.call.v6);
    }
  }

  lemma OwnStep(net: Net, spec0: Spec, s: State, pid: nat, listed: Lease, since: nat, phase: Phase, ver: nat, e: Event)
    requires GoodNet(net) && Sound(net, spec0, s, pid, listed, since, phase) && since <= ver < |s.hist|
    requires e.pid == pid && Obeys(phase, Of(s, pid), e.action, ver)
    ensures var phase' := NextPhase(net, s, pid, phase, e);
      && Sound(net, spec0, Do(net, s, e), pid, listed, since, phase')
      && StepGives(net, s, Do(net, s, e), pid, listed, phase, phase')
      && !phase.Aborted? && (phase'.Aborted? <==> Hits(s, e))
  {
    ObeyersKeep(net, listed, since, phase, Of(s, pid), e.action, ver);
    if LostFree(s, e) {
      LostStep(net, spec0, s, pid, listed, since, phase, e);
    } else if Fails(Of(s, pid), e.action) {
      FailStep(net, spec0, s, pid, listed, since, phase, e);
    } else {
      NoSlipOfKeeper(net, s, e);
      hide Inv, PhaseOk, FreedBits, Rest, Slip, Do, NextPhase, Obeys, StepGives, Fails;
      StepKeepsInv(net, spec0, s, e);
      GoodStep(net, spec0, s, pid, listed, since, phase, ver, e);
    }
  }
  /** One step of anybody. */
  lemma ProgramStep(net: Net, spec0: Spec, s: State, pid: nat, listed: Lease, since: nat, phase: Phase, ver: nat,
          e: Event)
    requires GoodNet(net) && Sound(net, spec0, s, pid, listed, since, phase) && since <= ver < |s.hist|
    requires if e.pid == pid then Obeys(phase, Of(s, pid), e.action, ver) else !Slip(net, s, e)
    ensures var phase' := NextPhase(net, s, pid, phase, e);
      && Sound(net, spec0, Do(net, s, e), pid, listed, since, phase')
      && StepGives(net, s, Do(net, s, e), pid, listed, phase, phase')
      && (phase'.Aborted? <==> phase.Aborted? || (e.pid == pid && Hits(s, e)))
  {
    if e.pid == pid {
      OwnStep(net, spec0, s, pid, listed, since, phase, ver, e);
    } else {
      OtherStep(net, spec0, s, pid, listed, since, phase, e);
    }
  }

  /**
    The deletion as a program in any interleaving in which nobody else slips: what it has given back are
    exactly the addresses whose Frees were accepted, and it ends early exactly if an error hits it.
   */
  lemma {:induction false} ProgramRuns(net: Net, spec0: Spec, s: State, pid: nat, listed: Lease, since: nat,
          phase: Phase, ver: nat, events: seq<Event>)
    requires GoodNet(net) && Sound(net, spec0, s, pid, listed, since, phase) && OthersClean(net, s, pid, events)
    requires since <= ver < |s.hist| && Executes(net, s, pid, phase, ver, events)
    ensures var s' := Run(net, s, events);
      var phase' := PhaseAfter(net, s, pid, phase, events);
      && Sound(net, spec0, s', pid, listed, since, phase') && s.log <= s'.log
      && FreedBits(net, listed, phase) <= FreedBits(net, listed, phase')
      && GivenSince(s'.log, |s.log|, pid) == FreedBits(net, listed, phase') - FreedBits(net, listed, phase)
      && (phase'.Aborted? <==> phase.Aborted? || Hit(net, s, pid, events))
    decreases |events|
  {
    hide Sound, Do, Slip, Hits, NextPhase, Obeys, FreedBits, GivenSince;
    if |events| > 0 {
      var s1 := Do(net, s, events[0]);
      var phase1 := NextPhase(net, s, pid, phase, events[0]);
      ProgramStep(net, spec0, s, pid, listed, since, phase, ver, events[0]);
      ProgramRuns(net, spec0, s1, pid, listed, since, phase1, ver, events[1..]);
      GivenHead(Run(net, s1, events[1..]).log, s1.log, s.log, pid);
    } else {
      NothingGiven(s.log, pid);
    }
  }

  /** Nothing is given back in no time. */
  lemma NothingGiven(log: seq<Op<Res>>, pid: nat)
    ensures GivenSince(log, |log|, pid) == {}
  {
  }

  lemma GivenHead(log: seq<Op<Res>>, init: seq<Op<Res>>, start: seq<Op<Res>>, pid: nat)
    requires start <= init <= log && |init| <= |start| + 1
    ensures GivenSince(log, |start|, pid) ==
      GivenSince(log, |init|, pid) + if |init| > |start| then GivenIn(init[|start|], pid) else {}
  {
    if |init| > |start| {
      assert log[|start|] == init[|start|];
    }
  }

  // ---- whole deletions, and createNic ----

  /** Where createNic fails after its reservation was committed. */
  datatype Fault =
    | EpNotCreated            // the DanmEp object could not be created
    | NetworkNotReread        // the DanmEp exists, but the network could not be read again
    | BackendFailed(ver: nat) // both exist, re-read at this version; interface creation or post-processing failed

  /** Only the last kind of failure deletes anything; with no address of DANM's it goes straight to the DanmEp. */
  ghost function FirstPhase(net: Net, lease: Lease, fault: Fault): Phase
    requires GoodNet(net)
  {
    if !fault.BackendFailed? then Aborted(false, false)
    else if WasIpAllocatedByDanm(lease.a4, net.nets4) || WasIpAllocatedByDanm(lease.a6, net.nets6) then Releasing4
    else Removing
  }

  function StartVersion(fault: Fault, since: nat): nat { if fault.BackendFailed? then fault.ver else since }

  /**
    What a run leaves of a lease, given how the program ended: exactly the addresses freed are given back,
    the rest is set on the server, and the DanmEp is gone or lists all of the lease.
   */
  ghost predicate Outcome(net: Net, s: State, pid: nat, events: seq<Event>, end: Phase)
    requires GoodNet(net) && |s.hist| > 0 && Of(s, pid).Holding?
  {
    var s', p := Run(net, s, events), Of(s, pid);
    && GivenSince(s'.log, |s.log|, pid) == FreedBits(net, p.listed, end) <= LeaseBits(net, p.listed)
    && LeaseBits(net, p.listed) - FreedBits(net, p.listed, end) <= Bits(s'.hist[Top(s')])
    && (end.Finished? ==> Of(s', pid).Idle? && FreedBits(net, p.listed, end) == LeaseBits(net, p.listed))
    && (end.Aborted? ==> Of(s', pid) == p)
  }

  /**
    A failing createNic in any interleaving, its own errors ignored as the code ignores them, and lost
    replies of its own included.  All addresses are given back and the DanmEp is gone if and only if the
    DanmEp was created, the network re-read, and no error reached the roll-back.  Otherwise the DanmEp
    lists all of the lease, of which exactly the addresses freed before the error are given back, while
    the others are still set.
   */
  lemma RollbackExactly(net: Net, spec0: Spec, s: State, pid: nat, fault: Fault, events: seq<Event>)
    requires GoodNet(net) && Inv(net, spec0, s) && OthersClean(net, s, pid, events)
    requires Of(s, pid).Holding? && Of(s, pid).lease == Of(s, pid).listed
    requires fault.BackendFailed? ==> Of(s, pid).since <= fault.ver < |s.hist|
    requires var start := FirstPhase(net, Of(s, pid).listed, fault);
      && Executes(net, s, pid, start, StartVersion(fault, Of(s, pid).since), events)
      && Ended(PhaseAfter(net, s, pid, start, events))
    ensures var end := PhaseAfter(net, s, pid, FirstPhase(net, Of(s, pid).listed, fault), events);
      && Outcome(net, s, pid, events, end)
      && (end.Finished? <==> fault.BackendFailed? && !Hit(net, s, pid, events))
  {
    var start, ver := FirstPhase(net, Of(s, pid).listed, fault), StartVersion(fault, Of(s, pid).since);
    StartSound(net, spec0, s, pid, fault);
    hide *;
    WholeProgram(net, spec0, s, pid, start, ver, events);
  }

  lemma WholeProgram(net: Net, spec0: Spec, s: State, pid: nat, start: Phase, ver: nat, events: seq<Event>)
    requires GoodNet(net) && |s.hist| > 0 && Of(s, pid).Holding? && Of(s, pid).lease == Of(s, pid).listed
    requires Sound(net, spec0, s, pid, Of(s, pid).listed, Of(s, pid).since, start) && OthersClean(net, s, pid, events)
    requires Of(s, pid).since <= ver < |s.hist| && Executes(net, s, pid, start, ver, events)
    requires FreedBits(net, Of(s, pid).listed, start) == {} && Ended(PhaseAfter(net, s, pid, start, events))
    ensures var end := PhaseAfter(net, s, pid, start, events);
      Outcome(net, s, pid, events, end) && (end.Finished? <==> !start.Aborted? && !Hit(net, s, pid, events))
  {
    var listed, since := Of(s, pid).listed, Of(s, pid).since;
    var end := PhaseAfter(net, s, pid, start, events);
    hide Run, Executes, PhaseAfter, Hit, OthersClean, LeaseBits, FreedBits, GivenSince, Sound, Bits;
    ProgramRuns(net, spec0, s, pid, listed, since, start, ver, events);
    EndSound(net, spec0, Run(net, s, events), pid, listed, since, end);
  }

  lemma StartSound(net: Net, spec0: Spec, s: State, pid: nat, fault: Fault)
    requires GoodNet(net) && Inv(net, spec0, s) && Of(s, pid).Holding? && Of(s, pid).lease == Of(s, pid).listed
    ensures var start := FirstPhase(net, Of(s, pid).listed, fault);
      && Sound(net, spec0, s, pid, Of(s, pid).listed, Of(s, pid).since, start)
      && FreedBits(net, Of(s, pid).listed, start) == {} && (start.Aborted? <==> !fault.BackendFailed?)
      && Of(s, pid).since < |s.hist|
  {
    var p := Of(s, pid);
    SkippedLeaseHasNoBits(net, p.listed);
    assert ProcOk(net, s, p);
    hide Inv, WasIpAllocatedByDanm;
    LocalStep(net, spec0, s, pid, p);
  }

  lemma EndSound(net: Net, spec0: Spec, s: State, pid: nat, listed: Lease, since: nat, end: Phase)
    requires GoodNet(net) && Sound(net, spec0, s, pid, listed, since, end) && Ended(end) && |s.hist| > 0
    ensures FreedBits(net, listed, end) <= LeaseBits(net, listed)
    ensures LeaseBits(net, listed) - FreedBits(net, listed, end) <= Bits(s.hist[Top(s)])
    ensures end.Finished? ==> Of(s, pid).Idle? && FreedBits(net, listed, end) == LeaseBits(net, listed)
    ensures end.Aborted? ==> Of(s, pid) == Kept(listed, since)
  {
    RestBits(net, listed, end);
    if end.Aborted? {
      var c := Corrected(s, pid, listed, since, end);
      assert Of(c, pid) == Kept(Rest(listed, end), since);
      HeldIsOwned(net, spec0, c, pid);
      hide Inv, LeaseBits, FreedBits, Bits;
    }
  }

  /**
    DeleteDanmEp of any holder, interleaved with anything: it removes the DanmEp, having given back all bits
    of the lease, if and only if no error reached it.  Otherwise the DanmEp stays, and which of the addresses it
    lists are clear is as in RollbackExactly.
   */
  lemma DeleteClears(net: Net, spec0: Spec, s: State, pid: nat, ver: nat, events: seq<Event>)
    requires GoodNet(net) && Inv(net, spec0, s) && OthersClean(net, s, pid, events)
    requires Of(s, pid).Holding? && Of(s, pid).lease == Of(s, pid).listed && Of(s, pid).since <= ver < |s.hist|
    requires var start := FirstPhase(net, Of(s, pid).listed, BackendFailed(ver));
      Executes(net, s, pid, start, ver, events) && Ended(PhaseAfter(net, s, pid, start, events))
    ensures var end := PhaseAfter(net, s, pid, FirstPhase(net, Of(s, pid).listed, BackendFailed(ver)), events);
      Outcome(net, s, pid, events, end) && (end.Finished? <==> !Hit(net, s, pid, events))
  {
    RollbackExactly(net, spec0, s, pid, BackendFailed(ver), events);
  }

  /** Whatever others do, even where they slip, they give back nothing for an idle process. */
  lemma {:induction false} OthersGiveNothing(net: Net, s: State, pid: nat, events: seq<Event>)
    requires GoodNet(net) && |s.hist| > 0 && forall e :: e in events ==> e.pid != pid
    ensures var s' := Run(net, s, events);
      && Of(s', pid) == Of(s, pid) && s.log <= s'.log
      && forall v :: |s.log| <= v < |s'.log| ==> GivenIn(s'.log[v], pid) == {}
    decreases |events|
  {
    hide Pass, LeaseBits, AddressBits;
    if |events| > 0 {
      var s1 := Do(net, s, events[0]);
      OthersGiveNothing(net, s1, pid, events[1..]);
      var s' := Run(net, s1, events[1..]);
      assert forall v :: |s.log| <= v < |s1.log| ==> s'.log[v] == s1.log[v] && GivenIn(s1.log[v], pid) == {};
    }
  }

  /**
    A lost reply, whatever others do afterwards: the bits of that one address are clear although the DanmEp
    still lists it, and what else is owed is still set.
   */
  lemma LostReplyClearsOne(net: Net, spec0: Spec, s: State, pid: nat, others: seq<Event>)
    requires GoodNet(net) && Inv(net, spec0, s) && LostFree(s, Event(pid, SendReplyLost))
    requires forall e :: e in others ==> e.pid != pid
    ensures var call := Of(s, pid).call;
      var s1 := Do(net, s, Event(pid, SendReplyLost));
      var s' := Run(net, s1, others);
      && Of(s', pid) == Kept(call.listed, call.since)
      && GivenSince(s'.log, |s.log|, pid) == AddressBits(net, call.lease, call.v6)
      && AddressBits(net, call.lease, call.v6) <= Bits(s.hist[Top(s)])
      && Bits(s1.hist[Top(s1)]) == Bits(s.hist[Top(s)]) - AddressBits(net, call.lease, call.v6)
      && LeaseBits(net, Without(call.lease, call.v6)) <= Bits(s1.hist[Top(s1)])
  {
    var s1 := Do(net, s, Event(pid, SendReplyLost));
    FreeCommits(net, spec0, s, Event(pid, SendReplyLost));
    LeftOver(net, Of(s, pid).call.lease, Of(s, pid).call.v6);
    hide Inv, Do, LostFree, AddressBits, LeaseBits, Bits, Run, GivenSince;
    OthersGiveNothing(net, s1, pid, others);
    var log := Run(net, s1, others).log;
    assert log[|s.log|] == s1.log[|s.log|];
    GivenOnce(log, |s.log|, pid);
  }

  lemma LeftOver(net: Net, lease: Lease, v6: bool)
    requires GoodNet(net)
    ensures LeaseBits(net, Without(lease, v6)) == LeaseBits(net, lease) - AddressBits(net, lease, v6)
  {
  }

  /**
    As if it had never been: at the end of any clean run, a process that holds nothing has left no
    trace.  The bits on the server are those that the other processes' operations alone lead to.
   */
  lemma RollbackUndoesReserve(net: Net, spec0: Spec, events: seq<Event>, pid: nat)
    requires GoodNet(net) && Good(net, spec0) && NoSlip(net, Fresh(spec0), events)
    requires HeldBits(net, Of(Run(net, Fresh(spec0), events), pid)) == {}
    ensures var s := Run(net, Fresh(spec0), events);
      && LegalLog(Book0(spec0), Others(s.log, pid))
      && Bits(s.hist[Top(s)]) == Replay(Book0(spec0), Others(s.log, pid)).Keys
  {
    FreshInv(net, spec0);
    RunKeepsInv(net, spec0, Fresh(spec0), events);
    var s := Run(net, Fresh(spec0), events);
    HeldIsOwned(net, spec0, s, pid);
    assert Owned(Book0(spec0), pid) == {};
    AsIfNeverThere(Book0(spec0), s.log, pid);
    LatestIsReplay(net, spec0, s);
    var book := Replay(Book0(spec0), s.log);
    forall r | r in book ensures book[r] != By(pid) {
      assert r !in Owned(book, pid);
    }
  }

  lemma LatestIsReplay(net: Net, spec0: Spec, s: State)
    requires GoodNet(net) && Inv(net, spec0, s)
    ensures Bits(s.hist[Top(s)]) == Replay(Book0(spec0), s.log).Keys
  {
    assert s.log[..Top(s)] == s.log;
  }
}
