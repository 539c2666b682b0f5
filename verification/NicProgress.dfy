/**
  That collecting does come to an end: with no other writer in the way, the two Frees of
  GarbageCollectIps run through although the first makes the copy of the second stale.
 */
module NicProgress {
  import opened Wrappers
  import opened Addressing
  import opened Ipam
  import opened IpamProtocol

  /** Free of one address started from the copy of version `ver`, run without errors to its end. */
  function ReleaseScript(pid: nat, v6: bool, ver: nat): seq<Event> {
    [Event(pid, BeginFree(v6, ver)), Event(pid, Try), Event(pid, Send)]
      + [Event(pid, Reread), Event(pid, Try), Event(pid, Send)]
  }

  /** GarbageCollectIps: both Frees start from one copy, so the first makes the second's stale. */
  function CollectScript(pid: nat, ver: nat): seq<Event> {
    ReleaseScript(pid, false, ver) + ReleaseScript(pid, true, ver)
  }

  // ---- what the scripts do ----

  /** A process that holds a lease ignores the steps of a call. */
  lemma HolderIdles(net: Net, s: State, pid: nat)
    requires GoodNet(net) && |s.hist| > 0 && Of(s, pid).Holding?
    ensures var s' := Run(net, s, [Event(pid, Reread), Event(pid, Try), Event(pid, Send)]);
      s'.hist == s.hist && Of(s', pid) == Of(s, pid)
  {
    RunOfThree(net, s, Event(pid, Reread), Event(pid, Try), Event(pid, Send));
  }

  /** A Free whose first copy shows nothing to clear returns without a PUT. */
  lemma ReleaseOfNothing(net: Net, s: State, pid: nat, v6: bool, ver: nat)
    requires GoodNet(net) && Of(s, pid).Holding? && Of(s, pid).since <= ver < |s.hist|
    requires FreeIp(net, s.hist[ver], Of(s, pid).lease, v6) == s.hist[ver]
    ensures var s' := Run(net, s, ReleaseScript(pid, v6, ver));
      && s'.hist == s.hist
      && Of(s', pid) == Holding(Without(Of(s, pid).lease, v6), Of(s, pid).since, Of(s, pid).listed)
  {
    var p := Of(s, pid);
    var b, t, e := Event(pid, BeginFree(v6, ver)), Event(pid, Try), Event(pid, Send);
    RunAppend(net, s, [b, t, e], [Event(pid, Reread), t, e]);
    RunOfThree(net, s, b, t, e);
    Passes(net, Do(net, s, b), pid, s.hist[ver], Without(p.lease, v6));
    HolderIdles(net, Run(net, s, [b, t, e]), pid);
  }

  /** A Free from a current copy commits at once. */
  lemma ReleaseCurrent(net: Net, s: State, pid: nat, v6: bool)
    requires GoodNet(net) && |s.hist| > 0 && Of(s, pid).Holding? && Of(s, pid).since < |s.hist|
    requires FreeIp(net, s.hist[Top(s)], Of(s, pid).lease, v6) != s.hist[Top(s)]
    ensures var s' := Run(net, s, ReleaseScript(pid, v6, Top(s)));
      && s'.hist == s.hist + [FreeIp(net, s.hist[Top(s)], Of(s, pid).lease, v6)]
      && Of(s', pid) == Holding(Without(Of(s, pid).lease, v6), Of(s, pid).since, Of(s, pid).listed)
  {
    var p := Of(s, pid);
    var b, t, e := Event(pid, BeginFree(v6, Top(s))), Event(pid, Try), Event(pid, Send);
    RunAppend(net, s, [b, t, e], [Event(pid, Reread), t, e]);
    RunOfThree(net, s, b, t, e);
    Passes(net, Do(net, s, b), pid, FreeIp(net, s.hist[Top(s)], p.lease, v6), Without(p.lease, v6));
    Commits(net, Do(net, Do(net, s, b), t), pid);
    HolderIdles(net, Run(net, s, [b, t, e]), pid);
  }

  /** A Free from a stale copy conflicts, re-reads and commits on the latest version. */
  lemma ReleaseStale(net: Net, s: State, pid: nat, v6: bool, ver: nat)
    requires GoodNet(net) && Of(s, pid).Holding? && Of(s, pid).since <= ver < |s.hist| - 1
    requires FreeIp(net, s.hist[ver], Of(s, pid).lease, v6) != s.hist[ver]
    requires FreeIp(net, s.hist[Top(s)], Of(s, pid).lease, v6) != s.hist[ver]
    ensures var s' := Run(net, s, ReleaseScript(pid, v6, ver));
      && s'.hist == s.hist + [FreeIp(net, s.hist[Top(s)], Of(s, pid).lease, v6)]
      && Of(s', pid) == Holding(Without(Of(s, pid).lease, v6), Of(s, pid).since, Of(s, pid).listed)
  {
    var p := Of(s, pid);
    var b, t, e, r := Event(pid, BeginFree(v6, ver)), Event(pid, Try), Event(pid, Send), Event(pid, Reread);
    RunAppend(net, s, [b, t, e], [r, t, e]);
    RunOfThree(net, s, b, t, e);
    Passes(net, Do(net, s, b), pid, FreeIp(net, s.hist[ver], p.lease, v6), Without(p.lease, v6));
    var s2 := Do(net, Do(net, s, b), t);
    Rereads(net, s2, pid);
    var s4 := Do(net, Do(net, s2, e), r);
    RunOfThree(net, Do(net, s2, e), r, t, e);
    Passes(net, s4, pid, FreeIp(net, s.hist[Top(s)], p.lease, v6), Without(p.lease, v6));
    Commits(net, Do(net, s4, t), pid);
  }

  // ---- the whole collection ----

  lemma HolderFacts(net: Net, spec0: Spec, s: State, pid: nat, v6: bool, ver: nat)
    requires GoodNet(net) && Inv(net, spec0, s)
    requires Of(s, pid).Holding? && Of(s, pid).since <= ver < |s.hist|
    ensures Good(net, s.hist[ver])
    ensures AddressBits(net, Of(s, pid).lease, v6) <= Bits(s.hist[ver])
  {
    assert ProcOk(net, s, Of(s, pid));
    assert AddressBits(net, Of(s, pid).lease, v6) <= LeaseBits(net, Of(s, pid).lease);
  }

  lemma FreeChanges(net: Net, spec: Spec, other: Spec, lease: Lease, v6: bool)
    requires GoodNet(net) && Good(net, spec) && AddressBits(net, lease, v6) <= Bits(other)
    ensures AddressBits(net, lease, v6) != {} ==> FreeIp(net, spec, lease, v6) != other
  {
    FreeIpBits(net, spec, lease, v6);
  }

  /** From a copy as old as the lease, a Free that nobody disturbs returns after at most one conflict. */
  lemma ReleaseCompletes(net: Net, spec0: Spec, s: State, pid: nat, v6: bool, ver: nat)
    requires GoodNet(net) && Inv(net, spec0, s)
    requires Of(s, pid).Holding? && Of(s, pid).since <= ver < |s.hist|
    ensures var s' := Run(net, s, ReleaseScript(pid, v6, ver));
      && |s'.hist| >= |s.hist|
      && Of(s', pid) == Holding(Without(Of(s, pid).lease, v6), Of(s, pid).since, Of(s, pid).listed)
  {
    hide Inv, Run, Bits, AddressBits, FreeIp, Without, ReleaseScript;
    var lease := Of(s, pid).lease;
    HolderFacts(net, spec0, s, pid, v6, ver);
    HolderFacts(net, spec0, s, pid, v6, Top(s));
    FreeChanges(net, s.hist[ver], s.hist[ver], lease, v6);
    FreeChanges(net, s.hist[Top(s)], s.hist[ver], lease, v6);
    if AddressBits(net, lease, v6) == {} {
      FreeOfNothing(net, s.hist[ver], lease, v6);
      ReleaseOfNothing(net, s, pid, v6, ver);
    } else if ver == Top(s) {
      ReleaseCurrent(net, s, pid, v6);
    } else {
      ReleaseStale(net, s, pid, v6, ver);
    }
  }

  predicate OnlyFrees(pid: nat, events: seq<Event>) {
    forall i :: 0 <= i < |events| ==>
      events[i].pid == pid && var a := events[i].action; a.BeginFree? || a.Try? || a.Send? || a.Reread? || a.Deleted?
  }

  /** Steps of a process that reserves nothing and gets no errors are no slips. */
  lemma {:induction false} FreesNeverSlip(net: Net, s: State, pid: nat, events: seq<Event>)
    requires GoodNet(net) && |s.hist| > 0 && OnlyFrees(pid, events)
    requires Of(s, pid).Idle? || Keeps(Of(s, pid))
    ensures NoSlip(net, s, events)
    decreases |events|
  {
    if |events| > 0 {
      assert events[0].pid == pid && !events[0].action.BeginReserve?;
      FreesNeverSlip(net, Do(net, s, events[0]), pid, events[1..]);
    }
  }

  lemma TwoReleases(net: Net, spec0: Spec, s: State, pid: nat, ver: nat)
    requires GoodNet(net) && Inv(net, spec0, s)
    requires Of(s, pid).Holding? && Of(s, pid).since <= ver < |s.hist|
    requires NoSlip(net, s, ReleaseScript(pid, false, ver))
    ensures Of(Run(net, Run(net, s, ReleaseScript(pid, false, ver)), ReleaseScript(pid, true, ver)), pid)
      == Holding(Lease(NoAddress, NoAddress), Of(s, pid).since, Of(s, pid).listed)
  {
    hide Inv, Run, ReleaseScript, NoSlip;
    RunKeepsInv(net, spec0, s, ReleaseScript(pid, false, ver));
    ReleaseCompletes(net, spec0, s, pid, false, ver);
    ReleaseCompletes(net, spec0, Run(net, s, ReleaseScript(pid, false, ver)), pid, true, ver);
  }

  lemma NothingToFree(net: Net, s: State, pid: nat)
    requires GoodNet(net) && |s.hist| > 0 && Of(s, pid).Holding? && Of(s, pid).lease == Lease(NoAddress, NoAddress)
    ensures Of(Run(net, s, [Event(pid, Deleted)]), pid).Idle?
  {
    assert [Event(pid, Deleted)][1..] == [];
    assert Run(net, Do(net, s, Event(pid, Deleted)), []) == Do(net, s, Event(pid, Deleted));
  }

  /** A dual-stack DanmEp is deleted with both Frees working from one copy, however old. */
  lemma CollectCompletes(net: Net, spec0: Spec, s: State, pid: nat, ver: nat)
    requires GoodNet(net) && Inv(net, spec0, s)
    requires Of(s, pid).Holding? && Of(s, pid).since <= ver < |s.hist|
    ensures var script := CollectScript(pid, ver) + [Event(pid, Deleted)];
      NoSlip(net, s, script) && Of(Run(net, s, script), pid).Idle?
  {
    var first, second := ReleaseScript(pid, false, ver), ReleaseScript(pid, true, ver);
    var deleted := [Event(pid, Deleted)];
    assert OnlyFrees(pid, first) && OnlyFrees(pid, second);
    assert OnlyFrees(pid, first + second + deleted);
    HoldersKeep(Of(s, pid));
    hide Inv, Run, ReleaseScript, OnlyFrees, NoSlip, Keeps;
    FreesNeverSlip(net, s, pid, first + second + deleted);
    FreesNeverSlip(net, s, pid, first);
    TwoReleases(net, spec0, s, pid, ver);
    RunAppend(net, s, first, second);
    RunAppend(net, s, first + second, deleted);
    NothingToFree(net, Run(net, s, first + second), pid);
  }

  lemma HoldersKeep(p: Proc)
    ensures p.Holding? ==> Keeps(p)
  {
  }
}
