/**
  The hypothesis of the exclusivity theorem is needed: on a small IPv4 network three
  processes, with no error and no lost reply, end with two of them holding one address.
 */
module IpamStaleTrace {
  import opened Wrappers
  import opened Addressing
  import opened Ipam
  import opened AtomicAllocator
  import opened IpamProtocol
  import opened IpamGuarantees

  /** 10.0.0.0/29 with its default pool, and no IPv6. */
  const SUBNET := Cidr(V4(0x0A00_0000), 29)
  const NET := Net(L3(SUBNET, SUBNET), V4(0x0A00_0001), V4(0x0A00_0006), L2, V6(0), V6(0))

  function SpecWith(on: set<nat>, last: LastIp): Spec {
    Spec(Bitmap(8, on), last, Bitmap(0, {}), Empty)
  }

  const FRESH := SpecWith({0, 7}, Empty)
  const FIRST := WithPrefix(Some(V4(0x0A00_0001)), 29)
  const SECOND := WithPrefix(Some(V4(0x0A00_0002)), 29)
  const GOT_FIRST := Lease(At(Some(V4(0x0A00_0001)), 29), NoAddress)
  const GOT_SECOND := Lease(At(Some(V4(0x0A00_0002)), 29), NoAddress)
  const DYNAMIC := ReserveCall(Dynamic, Absent)

  // Process 1 takes the first address.  Process 2 reads that version and plans the second.
  const FIRST_RESERVES := ReserveScript(1, Dynamic, Absent, 0)
  const SECOND_PLANS := [Event(2, BeginReserve(Dynamic, Absent, 1)), Event(2, Try)]
  // Process 1 frees its address.
  const FIRST_FREES := [Event(1, BeginFree(false, 1)), Event(1, Try), Event(1, Send)]
  // Process 2 conflicts, re-reads, takes the first address and finds its spec equal to its first copy.
  const SECOND_RETURNS := [Event(2, Send), Event(2, Reread), Event(2, Try)]
  // Process 3 takes the same address.
  const THIRD_RESERVES := ReserveScript(3, Dynamic, Absent, 2)

  lemma Block()
    ensures BlockSize(SUBNET) == 8 && ValidCidr(SUBNET) && Indexable(SUBNET) && GoodNet(NET)
  {
  }

  lemma FreshIsGood()
    ensures GoodNet(NET) && Good(NET, FRESH)
  {
  }

  /** The two dynamic allocations of the trace. */
  lemma Picks(last: LastIp)
    requires ParsedLast(last).None?
    ensures GoodNet(NET)
    ensures AllocateIps(NET, SpecWith({0, 7}, last), Dynamic, Absent) == Some((SpecWith({0, 7, 1}, FIRST), GOT_FIRST))
    ensures AllocateIps(NET, SpecWith({0, 7, 1}, last), Dynamic, Absent) ==
      Some((SpecWith({0, 7, 1, 2}, SECOND), GOT_SECOND))
  {
    Block();
    assert FirstClear({0, 7}, 1, 6) == Some(1);
    assert FirstClear({0, 7, 1}, 1, 6) == FirstClear({0, 7, 1}, 2, 6) == Some(2);
    assert IpFromIndex(1, SUBNET) == Some(V4(0x0A00_0001)) && IpFromIndex(2, SUBNET) == Some(V4(0x0A00_0002));
    assert {0, 7} + {1} == {0, 7, 1} && {0, 7, 1} + {2} == {0, 7, 1, 2};
  }

  lemma Frees(last: LastIp)
    ensures GoodNet(NET)
    ensures FreeIp(NET, SpecWith({0, 7, 1}, last), GOT_FIRST, false) == SpecWith({0, 7}, last)
  {
  }

  lemma RunOfPhases(net: Net, s: State, a: seq<Event>, b: seq<Event>, c: seq<Event>, d: seq<Event>, e: seq<Event>)
    requires GoodNet(net) && |s.hist| > 0
    ensures Run(net, s, a + b + c + d + e) == Run(net, Run(net, Run(net, Run(net, Run(net, s, a), b), c), d), e)
  {
    RunAppend(net, s, a, b);
    RunAppend(net, s, a + b, c);
    RunAppend(net, s, a + b + c, d);
    RunAppend(net, s, a + b + c + d, e);
  }

  // One step each, for any network and state.

  lemma Begins(net: Net, s: State, pid: nat, req4: Request, req6: Request, ver: nat)
    requires GoodNet(net) && ver < |s.hist| && Of(s, pid).Idle?
    ensures var copy := Copy(ver, s.hist[ver]);
      Do(net, s, Event(pid, BeginReserve(req4, req6, ver)))
        == s.(procs := s.procs[pid := Running(ReserveCall(req4, req6), copy, copy, 0)])
  {
  }

  function ReserveScript(pid: nat, req4: Request, req6: Request, ver: nat): seq<Event> {
    [Event(pid, BeginReserve(req4, req6, ver)), Event(pid, Try), Event(pid, Send)]
  }

  /** A reservation by an idle process that nobody disturbs. */
  lemma Reserves(net: Net, s: State, pid: nat, req4: Request, req6: Request, next: Spec, got: Lease)
    requires GoodNet(net) && |s.hist| > 0 && Of(s, pid).Idle?
    requires AllocateIps(net, s.hist[Top(s)], req4, req6) == Some((next, got)) && next != s.hist[Top(s)]
    ensures var s' := Run(net, s, ReserveScript(pid, req4, req6, Top(s)));
      && s'.hist == s.hist + [next]
      && forall q :: Of(s', q) == if q == pid then Holding(got, |s.hist|, got) else Of(s, q)
  {
    var b, t, e := Event(pid, BeginReserve(req4, req6, Top(s))), Event(pid, Try), Event(pid, Send);
    RunOfThree(net, s, b, t, e);
    Begins(net, s, pid, req4, req6, Top(s));
    Passes(net, Do(net, s, b), pid, next, got);
    Commits(net, Do(net, Do(net, s, b), t), pid);
  }

  lemma Plans(s: State)
    requires GoodNet(NET) && s.hist == [FRESH, SpecWith({0, 7, 1}, FIRST)] && Of(s, 2).Idle?
    ensures var s' := Run(NET, s, SECOND_PLANS);
      var c := Copy(1, SpecWith({0, 7, 1}, FIRST));
      && s'.hist == s.hist
      && forall q ::
           Of(s', q) ==
             if q == 2 then Putting(DYNAMIC, c, c, SpecWith({0, 7, 1, 2}, SECOND), GOT_SECOND, 0) else Of(s, q)
  {
    Picks(FIRST);
    var b, t := Event(2, BeginReserve(Dynamic, Absent, 1)), Event(2, Try);
    RunOfTwo(NET, s, b, t);
    Begins(NET, s, 2, Dynamic, Absent, 1);
    Passes(NET, Do(NET, s, b), 2, SpecWith({0, 7, 1, 2}, SECOND), GOT_SECOND);
  }

  lemma FreesAgain(s: State)
    requires GoodNet(NET) && s.hist == [FRESH, SpecWith({0, 7, 1}, FIRST)]
    requires Of(s, 1) == Holding(GOT_FIRST, 1, GOT_FIRST)
    ensures var s' := Run(NET, s, FIRST_FREES);
      s'.hist == s.hist + [SpecWith({0, 7}, FIRST)] && forall q :: q != 1 ==> Of(s', q) == Of(s, q)
  {
    Frees(FIRST);
    var b, t, e := Event(1, BeginFree(false, 1)), Event(1, Try), Event(1, Send);
    RunOfThree(NET, s, b, t, e);
    Passes(NET, Do(NET, s, b), 1, SpecWith({0, 7}, FIRST), Without(GOT_FIRST, false));
    Commits(NET, Do(NET, Do(NET, s, b), t), 1);
  }

  lemma ReturnsStale(s: State)
    requires GoodNet(NET) && |s.hist| == 3 && s.hist[2] == SpecWith({0, 7}, FIRST)
    requires var c := Copy(1, SpecWith({0, 7, 1}, FIRST));
      Of(s, 2) == Putting(DYNAMIC, c, c, SpecWith({0, 7, 1, 2}, SECOND), GOT_SECOND, 0)
    ensures var s' := Run(NET, s, SECOND_RETURNS);
      s'.hist == s.hist && forall q :: Of(s', q) == if q == 2 then Holding(GOT_FIRST, 2, GOT_FIRST) else Of(s, q)
  {
    Picks(FIRST);
    RunOfThree(NET, s, Event(2, Send), Event(2, Reread), Event(2, Try));
    Rereads(NET, s, 2);
    var t := Do(NET, Do(NET, s, Event(2, Send)), Event(2, Reread));
    Passes(NET, t, 2, SpecWith({0, 7, 1}, FIRST), GOT_FIRST);
  }

  lemma FirstReserves(s0: State)
    requires GoodNet(NET) && s0 == Fresh(FRESH)
    ensures var s := Run(NET, s0, FIRST_RESERVES);
      && s.hist == [FRESH, SpecWith({0, 7, 1}, FIRST)] && Of(s, 1) == Holding(GOT_FIRST, 1, GOT_FIRST)
      && Of(s, 2).Idle? && Of(s, 3).Idle?
  {
    Picks(Empty);
    Reserves(NET, s0, 1, Dynamic, Absent, SpecWith({0, 7, 1}, FIRST), GOT_FIRST);
  }

  /** Up to the point where the address is free again and process 2 still plans from its old copy. */
  lemma FirstHalf(s0: State)
    requires GoodNet(NET) && s0 == Fresh(FRESH)
    ensures var s := Run(NET, Run(NET, Run(NET, s0, FIRST_RESERVES), SECOND_PLANS), FIRST_FREES);
      var c := Copy(1, SpecWith({0, 7, 1}, FIRST));
      && |s.hist| == 3 && s.hist[2] == SpecWith({0, 7}, FIRST) && Of(s, 3).Idle?
      && Of(s, 2) == Putting(DYNAMIC, c, c, SpecWith({0, 7, 1, 2}, SECOND), GOT_SECOND, 0)
  {
    FirstReserves(s0);
    hide Run, FIRST, SECOND, SpecWith;
    Plans(Run(NET, s0, FIRST_RESERVES));
    FreesAgain(Run(NET, Run(NET, s0, FIRST_RESERVES), SECOND_PLANS));
  }

  lemma SecondHalf(s: State)
    requires GoodNet(NET) && |s.hist| == 3 && s.hist[2] == SpecWith({0, 7}, FIRST) && Of(s, 3).Idle?
    requires var c := Copy(1, SpecWith({0, 7, 1}, FIRST));
      Of(s, 2) == Putting(DYNAMIC, c, c, SpecWith({0, 7, 1, 2}, SECOND), GOT_SECOND, 0)
    ensures var s' := Run(NET, Run(NET, s, SECOND_RETURNS), THIRD_RESERVES);
      Of(s', 2) == Holding(GOT_FIRST, 2, GOT_FIRST) && Of(s', 3) == Holding(GOT_FIRST, 3, GOT_FIRST)
  {
    Picks(FIRST);
    ReturnsStale(s);
    Reserves(NET, Run(NET, s, SECOND_RETURNS), 3, Dynamic, Absent, SpecWith({0, 7, 1}, FIRST), GOT_FIRST);
  }

  lemma WholeRun(s0: State)
    requires GoodNet(NET) && s0 == Fresh(FRESH)
    ensures var s := Run(NET, s0, FIRST_RESERVES + SECOND_PLANS + FIRST_FREES + SECOND_RETURNS + THIRD_RESERVES);
      Of(s, 2) == Holding(GOT_FIRST, 2, GOT_FIRST) && Of(s, 3) == Holding(GOT_FIRST, 3, GOT_FIRST)
  {
    FirstHalf(s0);
    SecondHalf(Run(NET, Run(NET, Run(NET, s0, FIRST_RESERVES), SECOND_PLANS), FIRST_FREES));
    RunOfPhases(NET, s0, FIRST_RESERVES, SECOND_PLANS, FIRST_FREES, SECOND_RETURNS, THIRD_RESERVES);
  }

  /** Two processes hold 10.0.0.1 at the end of the trace. */
  lemma ExclusivityNeedsTheHypothesis()
    ensures GoodNet(NET) && Good(NET, FRESH)
    ensures exists events :: var s := Run(NET, Fresh(FRESH), events);
      && HoldsInPool(NET, Of(s, 2), false, V4(0x0A00_0001))
      && HoldsInPool(NET, Of(s, 3), false, V4(0x0A00_0001))
  {
    FreshIsGood();
    WholeRun(Fresh(FRESH));
    ContainsIsInterval(SUBNET, V4(0x0A00_0001));
    Block();
    var s := Run(NET, Fresh(FRESH), FIRST_RESERVES + SECOND_PLANS + FIRST_FREES + SECOND_RETURNS + THIRD_RESERVES);
    assert HoldsInPool(NET, Of(s, 2), false, V4(0x0A00_0001)) && HoldsInPool(NET, Of(s, 3), false, V4(0x0A00_0001));
  }
}
