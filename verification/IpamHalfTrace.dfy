/**
  The third departure: a deletion that fails at the second address.  The DanmEp stays and lists the
  first one, which is handed out again; freeing the DanmEp later clears the new holder's bit.
 */
module IpamHalfTrace {
  import opened Wrappers
  import opened Addressing
  import opened Ipam
  import opened IpamProtocol
  import opened IpamGuarantees
  import T = IpamStaleTrace

  /** 10.0.0.0/29 and fd00::/125 with their default pools. */
  const SUBNET4 := T.SUBNET
  const BASE6 := 0xFD00_0000_0000_0000_0000_0000_0000_0000
  const SUBNET6 := Cidr(V6(BASE6), 125)
  const DUAL := Net(L3(SUBNET4, SUBNET4), V4(0x0A00_0001), V4(0x0A00_0006),
                    L3(SUBNET6, SUBNET6), V6(BASE6 + 1), V6(BASE6 + 6))

  function DualSpec(on4: set<nat>, on6: set<nat>, last4: LastIp, last6: LastIp): Spec {
    Spec(Bitmap(8, on4), last4, Bitmap(8, on6), last6)
  }

  const LAST4 := WithPrefix(Some(V4(0x0A00_0001)), 29)
  const LAST6 := WithPrefix(Some(V6(BASE6 + 1)), 125)
  const ONLY4 := Lease(At(Some(V4(0x0A00_0001)), 29), NoAddress)
  const BOTH := Lease(At(Some(V4(0x0A00_0001)), 29), At(Some(V6(BASE6 + 1)), 125))
  const ONLY6 := Without(BOTH, false)

  const UNUSED := DualSpec({0, 7}, {0, 7}, Empty, Empty)
  const TAKEN := DualSpec({0, 7, 1}, {0, 7, 1}, LAST4, LAST6)
  const HALF_FREE := DualSpec({0, 7}, {0, 7, 1}, LAST4, LAST6)
  const FREE := DualSpec({0, 7}, {0, 7}, LAST4, LAST6)

  // Process 1 takes an address of each family, and its deletion frees the first; the second Free gets an error.
  const RESERVES := T.ReserveScript(1, Dynamic, Dynamic, 0)
  const FREES_ONE := [Event(1, BeginFree(false, 1)), Event(1, Try), Event(1, Send)]
  const FAILS := [Event(1, BeginFree(true, 2)), Event(1, Try), Event(1, SendError)]
  // Process 3 asks for an IPv4 address.
  const THIRD_RESERVES := T.ReserveScript(3, Dynamic, Absent, 2)
  // Process 1 cleans up again later, from the latest version.
  const FREES_AGAIN := [Event(1, BeginFree(false, 3)), Event(1, Try), Event(1, Send)]

  lemma Block6()
    ensures BlockSize(SUBNET6) == 8 && ValidCidr(SUBNET6) && Indexable(SUBNET6)
  {
    assert Pow2(3) == 2 * Pow2(2) == 8;
  }

  lemma DualIsGood()
    ensures GoodNet(DUAL) && Good(DUAL, UNUSED)
  {
    T.Block();
    Block6();
  }

  lemma Searches()
    ensures FirstClear({0, 7}, 1, 6) == Some(1)
    ensures IpFromIndex(1, SUBNET4) == Some(V4(0x0A00_0001)) && IpFromIndex(1, SUBNET6) == Some(V6(BASE6 + 1))
    ensures {0, 7} + {1} == {0, 7, 1}
  {
  }

  lemma Picks4(last: LastIp)
    requires ParsedLast(last).None?
    ensures ValidCidr(SUBNET4)
    ensures AllocateAddress(Pool(V4(0x0A00_0001), V4(0x0A00_0006), last), Bitmap(8, {0, 7}), Dynamic, DUAL.nets4)
      == Allocated(Bitmap(8, {0, 7, 1}), LAST4, BOTH.a4)
  {
    T.Block();
    Searches();
  }

  lemma Picks6()
    ensures ValidCidr(SUBNET6)
    ensures AllocateAddress(Pool(V6(BASE6 + 1), V6(BASE6 + 6), Empty), Bitmap(8, {0, 7}), Dynamic, DUAL.nets6)
      == Allocated(Bitmap(8, {0, 7, 1}), LAST6, BOTH.a6)
  {
    Block6();
    Searches();
  }

  lemma Indices()
    ensures GoodNet(DUAL)
    ensures BitOf(BOTH.a4, DUAL.nets4) == {1} && BitOf(BOTH.a6, DUAL.nets6) == {1}
  {
    DualIsGood();
    ContainsIsInterval(SUBNET4, V4(0x0A00_0001));
    ContainsIsInterval(SUBNET6, V6(BASE6 + 1));
  }

  lemma Plans()
    ensures GoodNet(DUAL)
    ensures AllocateIps(DUAL, UNUSED, Dynamic, Dynamic) == Some((TAKEN, BOTH))
    ensures AllocateIps(DUAL, HALF_FREE, Dynamic, Absent) == Some((TAKEN, ONLY4))
    ensures FreeIp(DUAL, TAKEN, BOTH, false) == HALF_FREE && FreeIp(DUAL, HALF_FREE, ONLY6, true) == FREE
  {
    Indices();
    Picks4(Empty);
    Picks4(LAST4);
    Picks6();
    assert {0, 7, 1} - {1} == {0, 7};
  }

  lemma FreesOne(s: State, ver: nat)
    requires GoodNet(DUAL) && ver + 1 == |s.hist| && s.hist[ver] == TAKEN
    requires Of(s, 1) == Holding(BOTH, 1, BOTH) && 1 <= ver
    ensures var s' := Run(DUAL, s, [Event(1, BeginFree(false, ver)), Event(1, Try), Event(1, Send)]);
      && s'.hist == s.hist + [HALF_FREE]
      && forall q :: Of(s', q) == if q == 1 then Holding(ONLY6, 1, BOTH) else Of(s, q)
  {
    Plans();
    assert TAKEN.alloc4 != HALF_FREE.alloc4 by { assert 1 in TAKEN.alloc4.on && 1 !in HALF_FREE.alloc4.on; }
    var b, t, e := Event(1, BeginFree(false, ver)), Event(1, Try), Event(1, Send);
    RunOfThree(DUAL, s, b, t, e);
    BeginsFree(DUAL, s, 1, false, ver);
    hide Do, FreeIp;
    Passes(DUAL, Do(DUAL, s, b), 1, HALF_FREE, ONLY6);
    Commits(DUAL, Do(DUAL, Do(DUAL, s, b), t), 1);
  }

  lemma FailsAtSecond(s: State)
    requires GoodNet(DUAL) && |s.hist| == 3 && s.hist[2] == HALF_FREE && Of(s, 1) == Holding(ONLY6, 1, BOTH)
    ensures var s' := Run(DUAL, s, FAILS);
      s'.hist == s.hist && forall q :: Of(s', q) == if q == 1 then Holding(BOTH, 1, BOTH) else Of(s, q)
  {
    Plans();
    assert HALF_FREE.alloc6 != FREE.alloc6 by { assert 1 in HALF_FREE.alloc6.on && 1 !in FREE.alloc6.on; }
    var b, t, e := Event(1, BeginFree(true, 2)), Event(1, Try), Event(1, SendError);
    RunOfThree(DUAL, s, b, t, e);
    BeginsFree(DUAL, s, 1, true, 2);
    Passes(DUAL, Do(DUAL, s, b), 1, FREE, Without(ONLY6, true));
    hide Do, FreeIp;
    FailureStep(DUAL, Do(DUAL, Do(DUAL, s, b), t), e);
  }

  lemma FirstPart(s0: State)
    requires GoodNet(DUAL) && s0 == Fresh(UNUSED)
    ensures var s := Run(DUAL, Run(DUAL, Run(DUAL, s0, RESERVES), FREES_ONE), FAILS);
      && |s.hist| == 3 && s.hist[2] == HALF_FREE && Of(s, 3).Idle?
      && Of(s, 1) == Holding(BOTH, 1, BOTH)
  {
    Plans();
    assert UNUSED.last4 != TAKEN.last4;
    T.Reserves(DUAL, s0, 1, Dynamic, Dynamic, TAKEN, BOTH);
    hide Run, AllocateIps, FreeIp;
    FreesOne(Run(DUAL, s0, RESERVES), 1);
    FailsAtSecond(Run(DUAL, Run(DUAL, s0, RESERVES), FREES_ONE));
  }

  lemma SecondPart(s: State)
    requires GoodNet(DUAL) && |s.hist| == 3 && s.hist[2] == HALF_FREE && Of(s, 3).Idle?
    requires Of(s, 1) == Holding(BOTH, 1, BOTH)
    ensures var s1 := Run(DUAL, s, THIRD_RESERVES);
      var s2 := Run(DUAL, s1, FREES_AGAIN);
      && Of(s1, 1) == Holding(BOTH, 1, BOTH) && Of(s1, 3) == Holding(ONLY4, 3, ONLY4)
      && Of(s2, 3) == Holding(ONLY4, 3, ONLY4) && |s2.hist| == 5 && s2.hist[4] == HALF_FREE
  {
    Plans();
    assert HALF_FREE.alloc4 != TAKEN.alloc4 by { assert 1 in TAKEN.alloc4.on && 1 !in HALF_FREE.alloc4.on; }
    T.Reserves(DUAL, s, 3, Dynamic, Absent, TAKEN, ONLY4);
    hide Run, AllocateIps, FreeIp;
    FreesOne(Run(DUAL, s, THIRD_RESERVES), 3);
  }

  lemma WholeRun(s0: State)
    requires GoodNet(DUAL) && s0 == Fresh(UNUSED)
    ensures var s := Run(DUAL, s0, RESERVES + FREES_ONE + FAILS + THIRD_RESERVES);
      var s' := Run(DUAL, s, FREES_AGAIN);
      && Of(s, 1) == Holding(BOTH, 1, BOTH) && Of(s, 3) == Holding(ONLY4, 3, ONLY4)
      && Of(s', 3) == Holding(ONLY4, 3, ONLY4) && |s'.hist| == 5 && s'.hist[4] == HALF_FREE
  {
    hide Run;
    FirstPart(s0);
    SecondPart(Run(DUAL, Run(DUAL, Run(DUAL, s0, RESERVES), FREES_ONE), FAILS));
    RunAppend(DUAL, s0, RESERVES, FREES_ONE);
    RunAppend(DUAL, s0, RESERVES + FREES_ONE, FAILS);
    RunAppend(DUAL, s0, RESERVES + FREES_ONE + FAILS, THIRD_RESERVES);
  }

  lemma HoldsFirst(since: nat)
    ensures GoodNet(DUAL)
    ensures HoldsInPool(DUAL, Holding(BOTH, since, BOTH), false, V4(0x0A00_0001))
    ensures HoldsInPool(DUAL, Holding(ONLY4, since, ONLY4), false, V4(0x0A00_0001))
    ensures Res(false, 1) !in Bits(HALF_FREE)
  {
    DualIsGood();
    ContainsIsInterval(SUBNET4, V4(0x0A00_0001));
    T.Block();
  }

  /**
    Two DanmEps that nobody is deleting list 10.0.0.1 after a run without stale returns and lost replies,
    and then one of them lists it although its bit is clear.
   */
  lemma HalfDeletedBreaksExclusivity()
    ensures GoodNet(DUAL) && Good(DUAL, UNUSED)
    ensures exists events, more :: var s := Run(DUAL, Fresh(UNUSED), events);
      var s' := Run(DUAL, s, more);
      && HoldsInPool(DUAL, Of(s, 1), false, V4(0x0A00_0001)) && HoldsInPool(DUAL, Of(s, 3), false, V4(0x0A00_0001))
      && HoldsInPool(DUAL, Of(s', 3), false, V4(0x0A00_0001)) && Res(false, 1) !in Bits(s'.hist[Top(s')])
  {
    DualIsGood();
    hide Run, HoldsInPool, Bits;
    WholeRun(Fresh(UNUSED));
    HoldsFirst(1);
    HoldsFirst(3);
    var s := Run(DUAL, Fresh(UNUSED), RESERVES + FREES_ONE + FAILS + THIRD_RESERVES);
    var s' := Run(DUAL, s, FREES_AGAIN);
    assert Top(s') == 4;
    assert HoldsInPool(DUAL, Of(s, 1), false, V4(0x0A00_0001)) && HoldsInPool(DUAL, Of(s, 3), false, V4(0x0A00_0001));
    assert HoldsInPool(DUAL, Of(s', 3), false, V4(0x0A00_0001)) && Res(false, 1) !in Bits(s'.hist[Top(s')]);
  }
}
