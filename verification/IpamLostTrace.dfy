/**
  The other departure: a Free whose reply is lost.  Its caller keeps the DanmEp, so the
  address is handed out a second time, and freeing the DanmEp later clears the new holder's bit.
 */
module IpamLostTrace {
  import opened Wrappers
  import opened Addressing
  import opened Ipam
  import opened IpamProtocol
  import opened IpamGuarantees
  import opened IpamStaleTrace

  // Process 1 holds the first address, frees it, and never learns that the update was accepted.
  const FIRST_LOSES := [Event(1, BeginFree(false, 1)), Event(1, Try), Event(1, SendReplyLost)]
  // Process 1 cleans up again later, from the latest version.
  const FIRST_FREES_AGAIN := [Event(1, BeginFree(false, 3)), Event(1, Try), Event(1, Send)]

  lemma Loses(s: State)
    requires GoodNet(NET) && s.hist == [FRESH, SpecWith({0, 7, 1}, FIRST)]
    requires Of(s, 1) == Holding(GOT_FIRST, 1, GOT_FIRST)
    ensures var s' := Run(NET, s, FIRST_LOSES);
      s'.hist == s.hist + [SpecWith({0, 7}, FIRST)] && forall q :: Of(s', q) == Of(s, q)
  {
    Frees(FIRST);
    var b, t, e := Event(1, BeginFree(false, 1)), Event(1, Try), Event(1, SendReplyLost);
    RunOfThree(NET, s, b, t, e);
    Passes(NET, Do(NET, s, b), 1, SpecWith({0, 7}, FIRST), Without(GOT_FIRST, false));
  }

  lemma FreesTheOther(s: State)
    requires GoodNet(NET) && |s.hist| == 4 && s.hist[3] == SpecWith({0, 7, 1}, FIRST)
    requires Of(s, 1) == Holding(GOT_FIRST, 1, GOT_FIRST)
    ensures var s' := Run(NET, s, FIRST_FREES_AGAIN);
      s'.hist == s.hist + [SpecWith({0, 7}, FIRST)] && forall q :: q != 1 ==> Of(s', q) == Of(s, q)
  {
    Frees(FIRST);
    var b, t, e := Event(1, BeginFree(false, 3)), Event(1, Try), Event(1, Send);
    RunOfThree(NET, s, b, t, e);
    Passes(NET, Do(NET, s, b), 1, SpecWith({0, 7}, FIRST), Without(GOT_FIRST, false));
    Commits(NET, Do(NET, Do(NET, s, b), t), 1);
  }

  lemma WholeLostRun(s0: State)
    requires GoodNet(NET) && s0 == Fresh(FRESH)
    ensures var s := Run(NET, s0, FIRST_RESERVES + FIRST_LOSES + THIRD_RESERVES);
      && Of(s, 1) == Holding(GOT_FIRST, 1, GOT_FIRST) && Of(s, 3) == Holding(GOT_FIRST, 3, GOT_FIRST)
      && var s' := Run(NET, s, FIRST_FREES_AGAIN);
         Of(s', 3) == Holding(GOT_FIRST, 3, GOT_FIRST) && |s'.hist| == 5 && s'.hist[4] == SpecWith({0, 7}, FIRST)
  {
    Picks(Empty);
    Picks(FIRST);
    Reserves(NET, s0, 1, Dynamic, Absent, SpecWith({0, 7, 1}, FIRST), GOT_FIRST);
    var s1 := Run(NET, s0, FIRST_RESERVES);
    Loses(s1);
    var s2 := Run(NET, s1, FIRST_LOSES);
    Reserves(NET, s2, 3, Dynamic, Absent, SpecWith({0, 7, 1}, FIRST), GOT_FIRST);
    FreesTheOther(Run(NET, s2, THIRD_RESERVES));
    RunAppend(NET, s0, FIRST_RESERVES, FIRST_LOSES);
    RunAppend(NET, s0, FIRST_RESERVES + FIRST_LOSES, THIRD_RESERVES);
  }

  /** Two processes hold 10.0.0.1, and then one of them holds it although its bit is clear. */
  lemma LostFreeBreaksExclusivity()
    ensures GoodNet(NET) && Good(NET, FRESH)
    ensures exists events, more :: var s := Run(NET, Fresh(FRESH), events);
      var s' := Run(NET, s, more);
      && HoldsInPool(NET, Of(s, 1), false, V4(0x0A00_0001)) && HoldsInPool(NET, Of(s, 3), false, V4(0x0A00_0001))
      && HoldsInPool(NET, Of(s', 3), false, V4(0x0A00_0001)) && Res(false, 1) !in Bits(s'.hist[Top(s')])
  {
    FreshIsGood();
    WholeLostRun(Fresh(FRESH));
    ContainsIsInterval(SUBNET, V4(0x0A00_0001));
    Block();
    var s := Run(NET, Fresh(FRESH), FIRST_RESERVES + FIRST_LOSES + THIRD_RESERVES);
    var s' := Run(NET, s, FIRST_FREES_AGAIN);
    assert HoldsInPool(NET, Of(s, 1), false, V4(0x0A00_0001)) && HoldsInPool(NET, Of(s, 3), false, V4(0x0A00_0001));
    assert HoldsInPool(NET, Of(s', 3), false, V4(0x0A00_0001)) && Res(false, 1) !in Bits(s'.hist[Top(s')]);
  }
}
