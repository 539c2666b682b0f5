/**
  What the reservation protocol guarantees over whole runs, in terms of addresses, versions
  and commits.  Only what speaks of who owns a bit needs the run to be free of slips.
 */
module IpamGuarantees {
  import opened Wrappers
  import opened Addressing
  import opened Ipam
  import opened AtomicAllocator
  import opened IpamProtocol
  import opened IpamAlways

  function AddressOf(lease: Lease, v6: bool): Address { if v6 then lease.a6 else lease.a4 }
  function SubnetsOf(net: Net, v6: bool): Subnets { if v6 then net.nets6 else net.nets4 }

  /** The DanmEp of the process lists an address that lies inside the allocation subnet. */
  predicate ListsInPool(net: Net, p: Proc, v6: bool, ip: Ip)
    requires SubnetsOf(net, v6).L3? ==> ValidCidr(SubnetsOf(net, v6).alloc)
  {
    && Keeps(p) && AddressOf(ListedBy(p), v6).At? && AddressOf(ListedBy(p), v6).ip == Some(ip)
    && SubnetsOf(net, v6).L3? && Contains(SubnetsOf(net, v6).alloc, ip)
  }

  /** A running deletion has freed that address already; a DanmEp that is not being deleted owes all it lists. */
  predicate Freed(p: Proc, v6: bool) { Keeps(p) && AddressOf(OwedBy(p), v6) != AddressOf(ListedBy(p), v6) }

  predicate HoldsInPool(net: Net, p: Proc, v6: bool, ip: Ip)
    requires SubnetsOf(net, v6).L3? ==> ValidCidr(SubnetsOf(net, v6).alloc)
  {
    ListsInPool(net, p, v6, ip) && !Freed(p, v6)
  }

  lemma Reaches(net: Net, spec0: Spec, events: seq<Event>)
    requires GoodNet(net) && Good(net, spec0) && NoSlip(net, Fresh(spec0), events)
    ensures Inv(net, spec0, Run(net, Fresh(spec0), events))
  {
    FreshInv(net, spec0);
    RunKeepsInv(net, spec0, Fresh(spec0), events);
  }

  /**
    Exclusive addresses: in every interleaving without slips, two DanmEps never list the same in-pool
    address, and every listed in-pool address is set on the server, unless a deletion that is still
    running has freed it.
   */
  lemma ExclusiveAddresses(net: Net, spec0: Spec, events: seq<Event>, p: nat, q: nat, v6: bool, a: Ip, b: Ip)
    requires GoodNet(net) && Good(net, spec0) && NoSlip(net, Fresh(spec0), events)
    requires var s := Run(net, Fresh(spec0), events);
      p != q && HoldsInPool(net, Of(s, p), v6, a) && HoldsInPool(net, Of(s, q), v6, b)
    ensures var s := Run(net, Fresh(spec0), events);
      a != b && Res(v6, IndexOfIp(Some(a), SubnetsOf(net, v6).alloc)) in Bits(s.hist[Top(s)])
  {
    Reaches(net, spec0, events);
    var s := Run(net, Fresh(spec0), events);
    var r := Res(v6, IndexOfIp(Some(a), SubnetsOf(net, v6).alloc));
    assert r in HeldBits(net, Of(s, p));
    assert Res(v6, IndexOfIp(Some(b), SubnetsOf(net, v6).alloc)) in HeldBits(net, Of(s, q));
    assert HeldBits(net, Of(s, p)) == Owned(Replay(Book0(spec0), s.log), p);
    assert HeldBits(net, Of(s, q)) == Owned(Replay(Book0(spec0), s.log), q);
    assert s.log[..Top(s)] == s.log;
  }

  /**
    No lost updates, in every run: every version on the server is its predecessor with exactly
    the bits of one call set, all of them clear before, or with the bits of one address cleared.
   */
  lemma NoLostUpdates(net: Net, spec0: Spec, events: seq<Event>, v: nat)
    requires GoodNet(net) && Good(net, spec0)
    requires v < |Run(net, Fresh(spec0), events).log|
    ensures var s := Run(net, Fresh(spec0), events);
      v + 1 < |s.hist| && Changes(s.hist[v], s.log[v], s.hist[v + 1])
  {
    ReachesAlways(net, spec0, events);
  }

  /** Whose bits they are: without slips nobody clears a bit that it does not hold at that moment. */
  lemma OnlyHoldersClear(net: Net, spec0: Spec, events: seq<Event>, v: nat)
    requires GoodNet(net) && Good(net, spec0) && NoSlip(net, Fresh(spec0), events)
    requires v < |Run(net, Fresh(spec0), events).log| && Run(net, Fresh(spec0), events).log[v].Give?
    ensures var s := Run(net, Fresh(spec0), events);
      v < |s.hist| && s.log[v].rs <= Owned(Replay(Book0(spec0), s.log[..v]), s.log[v].pid) <= Bits(s.hist[v])
  {
    Reaches(net, spec0, events);
    var s := Run(net, Fresh(spec0), events);
    assert Legal(Replay(Book0(spec0), s.log[..v]), s.log[v]);
    assert Bits(s.hist[v]) == Replay(Book0(spec0), s.log[..v]).Keys;
  }

  /** Network, broadcast and gateway bits stay set in every version of every run, and nobody ever holds one. */
  lemma ReservedStayReserved(net: Net, spec0: Spec, events: seq<Event>, r: Res, v: nat, pid: nat)
    requires GoodNet(net) && Good(net, spec0)
    requires r in Bits(spec0) && v < |Run(net, Fresh(spec0), events).hist|
    ensures var s := Run(net, Fresh(spec0), events);
      r in Bits(s.hist[v]) && r !in HeldBits(net, Of(s, pid))
  {
    ReachesAlways(net, spec0, events);
    var s := Run(net, Fresh(spec0), events);
    assert VersionOk(net, spec0, s.hist[v]) && RealProc(net, spec0, s, Of(s, pid));
  }

  /**
    Each retry of a call is paid for by a commit that landed after its first copy; a conflict means
    one landed after its last.
   */
  lemma RetriesBoundedByCommits(net: Net, spec0: Spec, events: seq<Event>, pid: nat)
    requires GoodNet(net) && Good(net, spec0)
    requires var p := Of(Run(net, Fresh(spec0), events), pid); !p.Idle? && !p.Holding?
    ensures var s := Run(net, Fresh(spec0), events);
      var p := Of(s, pid);
      p.tries <= |s.log| - p.orig.ver && (p.Conflicted? ==> p.cur.ver < |s.log| && p.tries < |s.log| - p.orig.ver)
  {
    ReachesAlways(net, spec0, events);
    var s := Run(net, Fresh(spec0), events);
    assert RealProc(net, spec0, s, Of(s, pid));
  }

  /** A dynamic request gets the least free index of the pool; it is refused exactly if there is none. */
  ghost predicate TakesLowest(pool: Pool, alloc: Bitmap, nets: Subnets)
    requires nets.L3? && ValidCidr(nets.alloc) && ValidCidr(nets.net)
  {
    var r := AllocateAddress(pool, alloc, Dynamic, nets);
    var free := Ipam.Free(pool, alloc, nets);
    && (r.Refused? <==> free == {})
    && (r.Allocated? ==> exists j :: BitOf(r.address, nets) == {j} && j in free && forall k :: k in free ==> j <= k)
  }

  lemma UnreadableCursorTakesLowest(pool: Pool, alloc: Bitmap, nets: Subnets)
    requires nets.L3? && InBounds(pool, alloc, nets) && Indexable(nets.alloc) && ParsedLast(pool.last).None?
    ensures TakesLowest(pool, alloc, nets)
  {
    var begin, end := Begin(pool, nets.alloc), End(pool, nets.alloc);
    assert Cursor(pool, nets.alloc) == begin;
    var found := CyclicSearch(alloc.on, begin, begin, end);
    var free := Ipam.Free(pool, alloc, nets);
    if found.Some? {
      assert found.value in free;
      AddressRoundTrip(nets.alloc, found.value);
      assert BitOf(AllocateAddress(pool, alloc, Dynamic, nets).address, nets) == {found.value};
    }
  }

  /**
    First fit in every interleaving: if the cursors were unreadable at the start, each dynamic
    pass takes the lowest free index of its copy's pool, and is refused only if there is none.
   */
  lemma FirstFitInEveryRun(net: Net, spec0: Spec, events: seq<Event>, pid: nat, v6: bool)
    requires GoodNet(net) && Good(net, spec0) && NoCursor(spec0) && SubnetsOf(net, v6).L3?
    requires Of(Run(net, Fresh(spec0), events), pid).Running?
    ensures var spec := Of(Run(net, Fresh(spec0), events), pid).cur.spec;
      TakesLowest(if v6 then Pool6(net, spec) else Pool4(net, spec),
                  if v6 then spec.alloc6 else spec.alloc4, SubnetsOf(net, v6))
  {
    ReachesAlways(net, spec0, events);
    var s := Run(net, Fresh(spec0), events);
    assert RealProc(net, spec0, s, Of(s, pid));
    var spec := Of(s, pid).cur.spec;
    assert VersionOk(net, spec0, spec);
    if v6 {
      UnreadableCursorTakesLowest(Pool6(net, spec), spec.alloc6, net.nets6);
    } else {
      UnreadableCursorTakesLowest(Pool4(net, spec), spec.alloc4, net.nets4);
    }
  }

  // ---- when the stale return can happen ----

  /** Some address was freed on the server between two versions. */
  ghost predicate FreedBetween(s: State, lo: nat, hi: nat) {
    exists v :: lo <= v < hi && v < |s.log| && s.log[v].Give?
  }

  /** Only a Free clears bits. */
  ghost predicate GrowsUnlessFreed(s: State) {
    |s.hist| == |s.log| + 1 && forall v :: 0 <= v < |s.log| ==> s.log[v].Give? || Bits(s.hist[v]) <= Bits(s.hist[v + 1])
  }

  lemma HistoryGrowsUnlessFreed(net: Net, spec0: Spec, s: State)
    requires GoodNet(net) && Always(net, spec0, s)
    ensures GrowsUnlessFreed(s)
  {
    forall v | 0 <= v < |s.log| ensures s.log[v].Give? || Bits(s.hist[v]) <= Bits(s.hist[v + 1]) {
      assert Changes(s.hist[v], s.log[v], s.hist[v + 1]);
    }
  }

  lemma {:induction false} ClearedMeansFreed(s: State, lo: nat, hi: nat, r: Res)
    requires GrowsUnlessFreed(s) && lo <= hi < |s.hist|
    requires r in Bits(s.hist[lo]) && r !in Bits(s.hist[hi])
    ensures lo < hi && FreedBetween(s, lo, hi)
  {
    if r in Bits(s.hist[hi - 1]) {
      assert s.log[hi - 1].Give?;
    } else {
      ClearedMeansFreed(s, lo, hi - 1, r);
    }
  }

  /**
    A Reserve can match its first copy after setting a bit only if a Free was committed between
    its first and its latest copy; this holds in every reachable state.
   */
  lemma StaleReturnNeedsFree(net: Net, spec0: Spec, s: State, e: Event)
    requires GoodNet(net) && Always(net, spec0, s) && StaleReturn(net, s, e)
    ensures FreedBetween(s, Of(s, e.pid).orig.ver, Of(s, e.pid).cur.ver)
    ensures Of(s, e.pid).orig.ver < Of(s, e.pid).cur.ver
  {
    var p := Of(s, e.pid);
    assert RealProc(net, spec0, s, p) && VersionOk(net, spec0, s.hist[p.cur.ver]);
    var (next, got) := Pass(net, p.call, p.cur.spec).value;
    AllocateIpsBits(net, p.cur.spec, p.call.req4, p.call.req6);
    var r :| r in LeaseBits(net, got);
    assert r in Bits(next);
    HistoryGrowsUnlessFreed(net, spec0, s);
    ClearedMeansFreed(s, p.orig.ver, p.cur.ver, r);
  }

  /**
    No Free loses its reply, no deletion fails halfway, and no Reserve pass starts from a copy between
    which and its first copy an address was freed.
   */
  ghost predicate Calm(net: Net, s: State, events: seq<Event>)
    requires GoodNet(net) && |s.hist| > 0
    decreases |events|
  {
    |events| > 0 ==>
      && !LostFree(s, events[0]) && !HalfDeleted(net, s, events[0])
      && (var p := Of(s, events[0].pid);
          events[0].action.Try? && p.Running? && p.call.ReserveCall? ==> !FreedBetween(s, p.orig.ver, p.cur.ver))
      && Calm(net, Do(net, s, events[0]), events[1..])
  }

  /** So such runs need no further hypothesis. */
  lemma {:induction false} CalmRunsDoNotSlip(net: Net, spec0: Spec, s: State, events: seq<Event>)
    requires GoodNet(net) && Always(net, spec0, s) && Calm(net, s, events)
    ensures NoSlip(net, s, events)
    decreases |events|
  {
    if |events| > 0 {
      if StaleReturn(net, s, events[0]) {
        StaleReturnNeedsFree(net, spec0, s, events[0]);
        assert false;
      }
      StepKeepsAlways(net, spec0, s, events[0]);
      CalmRunsDoNotSlip(net, spec0, Do(net, s, events[0]), events[1..]);
    }
  }

  /** A stale return hands out an address whose bit its caller never committed. */
  lemma StaleReturnUncommitted(net: Net, spec0: Spec, s: State, e: Event)
    requires GoodNet(net) && Inv(net, spec0, s) && StaleReturn(net, s, e)
    ensures var s' := Do(net, s, e);
      && s'.hist == s.hist && s'.log == s.log
      && HeldBits(net, Of(s', e.pid)) != {}
      && HeldBits(net, Of(s', e.pid)) !! Bits(Of(s, e.pid).cur.spec)
      && HeldBits(net, Of(s', e.pid)) !! Owned(Replay(Book0(spec0), s'.log), e.pid)
  {
    var p := Of(s, e.pid);
    assert ProcOk(net, s, p);
    assert HeldBits(net, p) == Owned(Replay(Book0(spec0), s.log), e.pid);
    AllocateIpsBits(net, p.cur.spec, p.call.req4, p.call.req6);
  }

  // ---- refusals and safety ----

  /** All Reserves of the process have been refused, have failed, or are still running. */
  ghost predicate NeverGranted(net: Net, s: State, pid: nat, events: seq<Event>)
    requires GoodNet(net) && |s.hist| > 0
    decreases |events|
  {
    && !Keeps(Of(s, pid))
    && (|events| > 0 ==> NeverGranted(net, Do(net, s, events[0]), pid, events[1..]))
  }

  /**
    Refusals commit nothing, in either family and in any interleaving: unless a reply is lost, a
    process whose Reserves are never granted has no part in any version.
   */
  lemma {:induction false} RefusalCommitsNothing(net: Net, s: State, pid: nat, events: seq<Event>)
    requires GoodNet(net) && |s.hist| > 0 && NeverGranted(net, s, pid, events)
    requires forall e :: e in events && e.pid == pid ==> !e.action.SendReplyLost?
    ensures var s' := Run(net, s, events);
      s.log <= s'.log && forall v :: |s.log| <= v < |s'.log| ==> !IsOf(s'.log[v], pid)
    decreases |events|
  {
    hide Pass, LeaseBits, AddressBits;
    if |events| > 0 {
      var s1 := Do(net, s, events[0]);
      assert NeverGranted(net, s1, pid, events[1..]) && !Keeps(Of(s1, pid));
      RefusalCommitsNothing(net, s1, pid, events[1..]);
      var s' := Run(net, s1, events[1..]);
      assert forall v :: |s.log| <= v < |s1.log| ==> s'.log[v] == s1.log[v] && !IsOf(s1.log[v], pid);
    }
  }

  /** Index safety forever: in every state of every run each bit a pass may read or write lies inside its bitmap. */
  lemma IndicesSafeForever(net: Net, spec0: Spec, events: seq<Event>, pid: nat, v6: bool, ip: Ip)
    requires GoodNet(net) && Good(net, spec0)
    requires Of(Run(net, Fresh(spec0), events), pid).Running? && SubnetsOf(net, v6).L3?
    ensures var spec := Of(Run(net, Fresh(spec0), events), pid).cur.spec;
      var subnet := SubnetsOf(net, v6).alloc;
      var pool := if v6 then Pool6(net, spec) else Pool4(net, spec);
      var size := (if v6 then spec.alloc6 else spec.alloc4).size;
      && Begin(pool, subnet) < size && Cursor(pool, subnet) < End(pool, subnet) < size
      && (Contains(subnet, ip) ==> IndexOfIp(Some(ip), subnet) < size)
  {
    ReachesAlways(net, spec0, events);
    var s := Run(net, Fresh(spec0), events);
    var p := Of(s, pid);
    assert RealProc(net, spec0, s, p) && VersionOk(net, spec0, s.hist[p.cur.ver]);
    if v6 {
      TouchedInBounds(Pool6(net, p.cur.spec), p.cur.spec.alloc6, net.nets6, ip);
    } else {
      TouchedInBounds(Pool4(net, p.cur.spec), p.cur.spec.alloc4, net.nets4, ip);
    }
  }
}
