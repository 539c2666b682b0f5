/**
  createNic of pkg/metacni for an ipvlan request, with CreateDanmEp and DeleteDanmEp of
  pkg/danmep, over the network object on the API server and the DanmEps stored there.
  Which foreign calls fail is up to the arguments; other writers leave alone what is held.
 */
module NicCalls {
  import opened Wrappers
  import opened Ipam
  import opened IpamProtocol
  import opened IpamCalls
  import opened ApiServer
  import L = LocalRuns
  import R = NicRollback

  /**
    Among the versions written is one, not before `ver`, that differs from its predecessor `at` in
    exactly the bit of one address of the lease, which was set; or the address has no bit.
   */
  ghost predicate Released(net: Net, hist: seq<TextSpec>, written: set<nat>, lease: Lease, v6: bool, ver: nat, at: nat)
    requires GoodNet(net)
  {
    var bits := AddressBits(net, lease, v6);
    || bits == {}
    || (&& ver <= at && at + 1 in written && at + 1 < |hist|
        && bits <= Bits(Meaning(hist[at])) && Bits(Meaning(hist[at + 1])) == Bits(Meaning(hist[at])) - bits)
  }

  /**
    One address of the lease was released, whoever held it: its bit is none, or was clear in the copy `seen`
    that the release started from, or was cleared in a version written since.
   */
  ghost predicate Cleared(net: Net, hist: seq<TextSpec>, written: set<nat>, lease: Lease, v6: bool, seen: nat, at: nat)
    requires GoodNet(net)
  {
    && seen < |hist|
    && var bits := AddressBits(net, lease, v6);
       || bits !! Bits(Meaning(hist[seen]))
       || (&& seen <= at && at + 1 in written && at + 1 < |hist|
           && Bits(Meaning(hist[at + 1])) == Bits(Meaning(hist[at])) - bits)
  }

  ghost predicate BothReleased(net: Net, hist: seq<TextSpec>, written: set<nat>, lease: Lease, ver: nat, at4: nat,
          at6: nat)
    requires GoodNet(net)
  {
    Released(net, hist, written, lease, false, ver, at4) && Released(net, hist, written, lease, true, ver, at6)
  }

  lemma StillReleased(net: Net, hist: seq<TextSpec>, longer: seq<TextSpec>, written: set<nat>, more: set<nat>,
          lease: Lease, v6: bool, ver: nat, at: nat)
    requires GoodNet(net) && Released(net, hist, written, lease, v6, ver, at) && hist <= longer && written <= more
    ensures Released(net, longer, more, lease, v6, ver, at)
  {
  }

  lemma StillCleared(net: Net, hist: seq<TextSpec>, longer: seq<TextSpec>, written: set<nat>, more: set<nat>,
          lease: Lease, v6: bool, seen: nat, at: nat)
    requires GoodNet(net) && Cleared(net, hist, written, lease, v6, seen, at) && hist <= longer && written <= more
    ensures Cleared(net, longer, more, lease, v6, seen, at)
  {
  }

  /**
    Free of an address that may be held.  It fails only for an error.  It has itself cleared the bit, which was
    set until then if it was held, if it succeeds and if it fails for the loss of a reply; otherwise nothing
    was written.
   */
  method FreeHeld(api: Cell<TextSpec, Lease>, net: Net, ghost sizes: (nat, nat), ver: nat, netInfo: TextSpec,
          lease: Lease, v6: bool)
    returns (ok: bool, ghost freed: bool, ghost at: nat)
    requires GoodNet(net) && Serves(api, net, sizes) && api.Knows(ver, netInfo)
    requires api.held.Some? ==> api.held.value == lease && api.shows(netInfo, lease)
    modifies api
    ensures Serves(api, net, sizes) && old(api.hist) <= api.hist && old(api.own) <= api.own
    ensures (ok ==> freed) && (!freed ==> api.own == old(api.own)) && api.own <= old(api.own) + {at + 1}
    ensures api.errors == old(api.errors) + if ok then 0 else 1
    ensures freed ==> Cleared(net, api.hist, api.own - old(api.own), lease, v6, ver, at)
    ensures api.held == if old(api.held).Some? && freed then Some(Without(lease, v6)) else old(api.held)
    ensures freed && old(api.held).Some? ==> Released(net, api.hist, api.own - old(api.own), lease, v6, ver, at)
  {
    hide GoodNet, GoodText, Meaning, Bits, FreeIp, AddressBits, LeaseBits, Released, Cleared, Versions, L.Told;
    var result;
    ghost var trace;
    result, at, trace := IpamCalls.Free(api, net, sizes, ver, netInfo, lease, lease, v6);
    ok, freed := result.Done?, result.Done? || api.own != old(api.own);
    if freed {
      assert GoodText(net, sizes, api.hist[at]);
      ClearedBy(net, sizes, api.hist, api.own - old(api.own), lease, v6, ver, at);
    }
    if freed && old(api.held).Some? {
      if api.own == old(api.own) {
        NothingToRelease(net, sizes, api.hist, api.own - old(api.own), netInfo, lease, v6, ver, at);
      } else {
        ReleasedBy(net, sizes, api.hist, api.own - old(api.own), lease, v6, ver, at);
      }
    }
  }

  lemma ClearedBy(net: Net, sizes: (nat, nat), hist: seq<TextSpec>, written: set<nat>, lease: Lease, v6: bool,
          seen: nat, at: nat)
    requires GoodNet(net) && seen <= at < |hist| && GoodText(net, sizes, hist[at])
    requires at + 1 in written ==> at + 1 < |hist|
    requires Meaning(hist[if at + 1 in written then at + 1 else seen]) == FreeIp(net, Meaning(hist[at]), lease, v6)
    ensures Cleared(net, hist, written, lease, v6, seen, at)
  {
    FreeIpBits(net, Meaning(hist[at]), lease, v6);
  }

  lemma NothingToRelease(net: Net, sizes: (nat, nat), hist: seq<TextSpec>, written: set<nat>, netInfo: TextSpec,
          lease: Lease, v6: bool, ver: nat, at: nat)
    requires GoodNet(net) && at < |hist| && GoodText(net, sizes, hist[at])
    requires LeaseBits(net, lease) <= Bits(Meaning(netInfo))
    requires Meaning(netInfo) == FreeIp(net, Meaning(hist[at]), lease, v6)
    ensures Released(net, hist, written, lease, v6, ver, at)
  {
    FreeIpBits(net, Meaning(hist[at]), lease, v6);
    assert AddressBits(net, lease, v6) <= LeaseBits(net, lease);
  }

  lemma ReleasedBy(net: Net, sizes: (nat, nat), hist: seq<TextSpec>, written: set<nat>,
          lease: Lease, v6: bool, ver: nat, at: nat)
    requires GoodNet(net) && at + 1 < |hist| && GoodText(net, sizes, hist[at]) && ver <= at && at + 1 in written
    requires LeaseBits(net, lease) <= Bits(Meaning(hist[at]))
    requires Meaning(hist[at + 1]) == FreeIp(net, Meaning(hist[at]), lease, v6)
    ensures Released(net, hist, written, lease, v6, ver, at)
  {
    FreeIpBits(net, Meaning(hist[at]), lease, v6);
    assert AddressBits(net, lease, v6) <= LeaseBits(net, lease);
  }

  /** What a collection has done: the addresses freed were released by it, and the rest of the lease is held. */
  ghost predicate Collected(net: Net, hist: seq<TextSpec>, written: set<nat>, held: Option<Lease>, lease: Lease,
          ver: nat, freed4: bool, at4: nat, freed6: bool, at6: nat)
    requires GoodNet(net)
  {
    && held == Some(R.Rest(lease, R.Aborted(freed4, freed6)))
    && (freed4 ==> Released(net, hist, written, lease, false, ver, at4))
    && (freed6 ==> Released(net, hist, written, lease, true, ver, at6))
  }

  /** GarbageCollectIps: both Frees start from the same copy, and each clears its bit with a version of its own. */
  method GarbageCollectIps(api: Cell<TextSpec, Lease>, net: Net, ghost sizes: (nat, nat), ver: nat,
          netInfo: TextSpec, lease: Lease)
    returns (ok: bool, ghost freed4: bool, ghost at4: nat, ghost freed6: bool, ghost at6: nat)
    requires GoodNet(net) && Serves(api, net, sizes) && api.Knows(ver, netInfo)
    requires api.held.Some? ==> api.held.value == lease && api.shows(netInfo, lease)
    modifies api
    ensures Serves(api, net, sizes) && old(api.hist) <= api.hist && old(api.own) <= api.own
    ensures (ok ==> freed4 && freed6) && (freed6 ==> freed4) && api.own <= old(api.own) + {at4 + 1, at6 + 1}
    ensures api.errors == old(api.errors) + if ok then 0 else 1
    ensures freed4 ==> Cleared(net, api.hist, api.own - old(api.own), lease, false, ver, at4)
    ensures freed6 ==> Cleared(net, api.hist, api.own - old(api.own), lease, true, ver, at6)
    ensures old(api.held).Some? ==>
      Collected(net, api.hist, api.own - old(api.own), api.held, lease, ver, freed4, at4, freed6, at6)
  {
    at6, freed6 := 0, false;
    ok, freed4, at4 := FreeHeld(api, net, sizes, ver, netInfo, lease, false);
    if !ok {
      return;
    }
    ghost var hist, own := api.hist, api.own;
    SecondAddress(net, lease);
    hide Released, Cleared, GoodNet, GoodText, Meaning, Bits, AddressBits, LeaseBits;
    ok, freed6, at6 := FreeHeld(api, net, sizes, ver, netInfo, Without(lease, false), true);
    StillCleared(net, hist, api.hist, own - old(api.own), api.own - old(api.own), lease, false, ver, at4);
    if freed6 {
      StillCleared(net, api.hist, api.hist, api.own - own, api.own - old(api.own), Without(lease, false), true, ver,
                   at6);
      SameCleared(net, api.hist, api.own - old(api.own), lease, ver, at6);
    }
    if old(api.held).Some? {
      StillReleased(net, hist, api.hist, own - old(api.own), api.own - old(api.own), lease, false, ver, at4);
      if freed6 {
        SameAddress(net, api.hist, api.own - own, lease, ver, at6);
        StillReleased(net, api.hist, api.hist, api.own - own, api.own - old(api.own), lease, true, ver, at6);
      }
    }
  }

  lemma SecondAddress(net: Net, lease: Lease)
    requires GoodNet(net)
    ensures LeaseBits(net, Without(lease, false)) <= LeaseBits(net, lease)
  {
  }

  lemma SameAddress(net: Net, hist: seq<TextSpec>, written: set<nat>, lease: Lease, ver: nat, at: nat)
    requires GoodNet(net) && Released(net, hist, written, Without(lease, false), true, ver, at)
    ensures Released(net, hist, written, lease, true, ver, at)
  {
    assert AddressBits(net, Without(lease, false), true) == AddressBits(net, lease, true);
  }

  lemma SameCleared(net: Net, hist: seq<TextSpec>, written: set<nat>, lease: Lease, seen: nat, at: nat)
    requires GoodNet(net) && Cleared(net, hist, written, Without(lease, false), true, seen, at)
    ensures Cleared(net, hist, written, lease, true, seen, at)
  {
    assert AddressBits(net, Without(lease, false), true) == AddressBits(net, lease, true);
  }

  /**
    The lease is what an allocation on version `at` granted, which led to the next version or,
    uncommitted, back to `netInfo`.
   */
  ghost predicate Granted(net: Net, hist: seq<TextSpec>, netInfo: TextSpec, req4: Request, req6: Request,
          lease: Lease, at: nat, committed: bool)
    requires GoodNet(net)
  {
    && at < |hist| && (committed ==> at + 1 < |hist|)
    && Allocates(net, hist[at], if committed then hist[at + 1] else netInfo, req4, req6, lease)
  }

  lemma StillGranted(net: Net, hist: seq<TextSpec>, longer: seq<TextSpec>, netInfo: TextSpec, req4: Request,
          req6: Request, lease: Lease, at: nat, committed: bool)
    requires GoodNet(net) && Granted(net, hist, netInfo, req4, req6, lease, at, committed) && hist <= longer
    ensures Granted(net, longer, netInfo, req4, req6, lease, at, committed)
  {
    hide Allocates;
  }

  /**
    What CreateDanmEp gives back: nothing, or the lease with no DanmEp, with no network, or with
    the network it re-read.
   */
  datatype EpResult =
    | Unreserved
    | NoEp(lease: Lease)
    | Unread(lease: Lease)
    | Ready(lease: Lease, ver: nat, dnet: TextSpec)

  datatype Outcome =
    | Created(lease: Lease)
    | NotReserved
    | EpNotCreated(lease: Lease)
    | Panicked(lease: Lease)
    | RolledBack(lease: Lease)
    | RollbackFailed(lease: Lease)

  class Cluster {
    const api: Cell<TextSpec, Lease>
    /** The DanmEps in the store. */
    var eps: map<string, Lease>

    constructor (api: Cell<TextSpec, Lease>)
      ensures this.api == api && eps == map[]
    {
      this.api, eps := api, map[];
    }

    /**
      DeleteDanmEp: the DanmEp goes unless an error reaches the release of its addresses or its own deletion
      fails.  Then the DanmEp stays and lists all of them: those freed are clear, and what was held of the rest
      is still held and set.
     */
    method DeleteDanmEp(net: Net, ghost sizes: (nat, nat), name: string, ver: nat, dnet: TextSpec, deleteFails: bool)
      returns (ok: bool, ghost freed4: bool, ghost at4: nat, ghost freed6: bool, ghost at6: nat)
      requires GoodNet(net) && Serves(api, net, sizes) && api.Knows(ver, dnet) && name in eps
      requires api.held.Some? ==> api.held.value == eps[name] && api.shows(dnet, eps[name])
      modifies this`eps, api
      ensures Serves(api, net, sizes) && old(api.hist) <= api.hist && old(api.own) <= api.own
      ensures eps == (if ok then old(eps) - {name} else old(eps)) && (freed6 ==> freed4)
      ensures (ok <==> !deleteFails && api.errors == old(api.errors)) && api.errors <= old(api.errors) + 1
      ensures freed4 || api.errors == old(api.errors) ==>
        Cleared(net, api.hist, api.own - old(api.own), old(eps[name]), false, ver, at4)
      ensures freed6 || api.errors == old(api.errors) ==>
        Cleared(net, api.hist, api.own - old(api.own), old(eps[name]), true, ver, at6)
      ensures api.own <= old(api.own) + {at4 + 1, at6 + 1}
      ensures old(api.held).Some? ==>
        Collected(net, api.hist, api.own - old(api.own), api.held, old(eps[name]), ver, freed4, at4, freed6, at6)
      ensures ok && old(api.held).Some? ==>
        BothReleased(net, api.hist, api.own - old(api.own), old(eps[name]), ver, at4, at6)
    {
      var lease := eps[name];
      freed4, at4, freed6, at6 := false, 0, false, 0;
      hide GoodNet, GoodText, Meaning, Bits, LeaseBits, AddressBits, Released, Cleared;
      if R.WasIpAllocatedByDanm(lease.a4, net.nets4) || R.WasIpAllocatedByDanm(lease.a6, net.nets6) {
        ok, freed4, at4, freed6, at6 := GarbageCollectIps(api, net, sizes, ver, dnet, lease);
        if !ok {
          return;
        }
      } else {
        NothingToClear(net, api.hist, api.own - old(api.own), lease, false, ver, 0);
        NothingToClear(net, api.hist, api.own - old(api.own), lease, true, ver, 0);
      }
      if deleteFails {
        ok := false;
        return;
      }
      eps := eps - {name};
      ok := true;
    }

    /**
      CreateDanmEp: reserve, create the DanmEp, read the network again.  The lease is what was requested; there
      is none only after an error or if version `at` does not grant the requests.  The reservation is committed
      by version `at + 1`, and then the lease is held; the copy handed on is not older and shows it.
     */
    method CreateDanmEp(net: Net, ghost sizes: (nat, nat), name: string, ver: nat, netInfo: TextSpec, req4: Request,
            req6: Request, epFails: bool, rereadFails: bool)
      returns (ep: EpResult, ghost at: nat, ghost committed: bool)
      requires GoodNet(net) && Serves(api, net, sizes) && api.Knows(ver, netInfo) && name !in eps && api.held == None
      modifies this`eps, api
      ensures Serves(api, net, sizes) && old(api.hist) <= api.hist && old(api.own) <= api.own
      ensures api.errors == old(api.errors) || (ep.Unreserved? && api.errors == old(api.errors) + 1)
      ensures ep.Unreserved? && api.errors == old(api.errors) ==>
        api.own == old(api.own) && at < |api.hist| && !Grants(net, Meaning(api.hist[at]), req4, req6)
      ensures !ep.Unreserved? ==> Fits(net, req4, req6, ep.lease)
      ensures api.own <= old(api.own) + {at + 1}
      ensures ep.Unreserved? ==> api.held == None
      ensures !ep.Unreserved? ==> Granted(net, api.hist, netInfo, req4, req6, ep.lease, at, committed)
      ensures !ep.Unreserved? && committed ==> at + 1 in api.own - old(api.own) && api.held == Some(ep.lease)
      ensures !ep.Unreserved? && !committed ==> api.own == old(api.own) && api.held == None
      ensures ep.Unreserved? || (ep.NoEp? <==> epFails)
      ensures ep.Unreserved? || epFails || (ep.Unread? <==> rereadFails)
      ensures eps == if ep.Unreserved? || ep.NoEp? then old(eps) else old(eps)[name := ep.lease]
      ensures ep.Ready? ==> api.Knows(ep.ver, ep.dnet)
      ensures ep.Ready? && committed ==> ep.ver > at && api.shows(ep.dnet, ep.lease)
    {
      hide GoodNet, GoodText, Meaning, Allocates, LeaseBits, Bits, Versions, L.Told, AllocateIps, Fits, Grants;
      var result;
      ghost var trace, proc;
      result, at, trace, proc := Reserve(api, net, sizes, ver, netInfo, req4, req6);
      committed := api.own != old(api.own);
      if result.Failure? {
        return Unreserved, at, committed;
      }
      var lease := result.lease;
      assert Granted(net, api.hist, netInfo, req4, req6, lease, at, committed);
      if epFails {
        return NoEp(lease), at, committed;
      }
      eps := eps[name := lease];
      if rereadFails {
        return Unread(lease), at, committed;
      }
      ghost var hist := api.hist;
      var ver', dnet := api.Get();
      StillGranted(net, hist, api.hist, netInfo, req4, req6, lease, at, committed);
      return Ready(lease, ver', dnet), at, committed;
    }

    /**
      createNic.  After a failure of the backend everything is rolled back, unless an error reaches the
      roll-back or the DanmEp cannot be deleted.  Either the reservation was committed by version `at + 1`,
      and a successful roll-back clears every bit of the lease by later versions of its own, a failed one
      those of the addresses it freed; or Reserve returned without writing anything, and the roll-back,
      which starts from version `seen`, frees the addresses all the same.
     */
    method CreateNic(net: Net, ghost sizes: (nat, nat), name: string, ver: nat, netInfo: TextSpec, req4: Request,
            req6: Request, epFails: bool, rereadFails: bool, backendFails: bool, deleteFails: bool)
      returns (outcome: Outcome, ghost at: nat, ghost committed: bool,
            ghost seen: nat, ghost freed4: bool, ghost at4: nat, ghost freed6: bool, ghost at6: nat)
      requires GoodNet(net) && Serves(api, net, sizes) && api.Knows(ver, netInfo) && name !in eps && api.held == None
      modifies this`eps, api
      ensures Serves(api, net, sizes) && old(api.hist) <= api.hist && old(api.own) <= api.own
      ensures !outcome.NotReserved? ==> Granted(net, api.hist, netInfo, req4, req6, outcome.lease, at, committed)
      ensures outcome.NotReserved? || (outcome.EpNotCreated? <==> epFails)
      ensures outcome.NotReserved? || epFails || (outcome.Panicked? <==> rereadFails)
      ensures outcome.NotReserved? || epFails || rereadFails || (outcome.Created? <==> !backendFails)
      ensures outcome.RolledBack? || outcome.RollbackFailed? ==>
        && api.errors <= old(api.errors) + 1
        && (outcome.RolledBack? <==> !deleteFails && api.errors == old(api.errors))
      ensures outcome.Created? || outcome.EpNotCreated? || outcome.Panicked? ==> api.errors == old(api.errors)
      ensures outcome.NotReserved? ==>
        || api.errors == old(api.errors) + 1
        || (api.own == old(api.own) && at < |api.hist| && !Grants(net, Meaning(api.hist[at]), req4, req6))
      ensures !outcome.NotReserved? ==> Fits(net, req4, req6, outcome.lease)
      ensures outcome.RolledBack? || outcome.RollbackFailed? ==>
        && (freed4 || api.errors == old(api.errors) ==>
              Cleared(net, api.hist, api.own - old(api.own), outcome.lease, false, seen, at4))
        && (freed6 || api.errors == old(api.errors) ==>
              Cleared(net, api.hist, api.own - old(api.own), outcome.lease, true, seen, at6))
      ensures api.own <= old(api.own) + {at + 1, at4 + 1, at6 + 1}
      ensures eps == if outcome.Created? || outcome.RollbackFailed? || outcome.Panicked?
        then old(eps)[name := outcome.lease] else old(eps)
      ensures !outcome.NotReserved? && committed ==> at + 1 in api.own - old(api.own)
      ensures outcome.Created? || outcome.EpNotCreated? || outcome.Panicked? ==>
        api.own <= old(api.own) + {at + 1} && (committed ==> api.held == Some(outcome.lease))
      ensures outcome.RolledBack? && committed ==>
        BothReleased(net, api.hist, api.own - old(api.own), outcome.lease, at + 1, at4, at6)
      ensures outcome.RollbackFailed? && committed ==>
        Collected(net, api.hist, api.own - old(api.own), api.held, outcome.lease, at + 1, freed4, at4, freed6, at6)
    {
      hide GoodNet, GoodText, Meaning, Bits, LeaseBits, Released, Cleared, Granted, Allocates, Fits, Grants;
      seen, freed4, at4, freed6, at6 := 0, false, 0, false, 0;
      var ep;
      ep, at, committed := CreateDanmEp(net, sizes, name, ver, netInfo, req4, req6, epFails, rereadFails);
      match ep
      case Unreserved => outcome := NotReserved;
      case NoEp(lease) => outcome := EpNotCreated(lease);
      case Unread(lease) => outcome := Panicked(lease);
      case Ready(lease, ver', dnet) =>
        if backendFails {
          ghost var hist, own := api.hist, api.own;
          seen := ver';
          var ok;
          ok, freed4, at4, freed6, at6 := DeleteDanmEp(net, sizes, name, ver', dnet, deleteFails);
          StillGranted(net, hist, api.hist, netInfo, req4, req6, lease, at, committed);
          outcome := if ok then RolledBack(lease) else RollbackFailed(lease);
          SinceThen(net, api.hist, api.own - own, api.own - old(api.own), lease, false, seen, at4);
          SinceThen(net, api.hist, api.own - own, api.own - old(api.own), lease, true, seen, at6);
          if committed {
            SinceVersion(net, api.hist, api.own - own, api.own - old(api.own), lease, false, ver', at + 1, at4);
            SinceVersion(net, api.hist, api.own - own, api.own - old(api.own), lease, true, ver', at + 1, at6);
          }
        } else {
          outcome := Created(lease);
        }
    }
  }

  lemma NothingToClear(net: Net, hist: seq<TextSpec>, written: set<nat>, lease: Lease, v6: bool, ver: nat, at: nat)
    requires GoodNet(net) && ver < |hist|
    requires !R.WasIpAllocatedByDanm(lease.a4, net.nets4) && !R.WasIpAllocatedByDanm(lease.a6, net.nets6)
    ensures Cleared(net, hist, written, lease, v6, ver, at) && Released(net, hist, written, lease, v6, ver, at)
  {
    R.SkippedLeaseHasNoBits(net, lease);
    assert AddressBits(net, lease, v6) <= LeaseBits(net, lease);
  }

  lemma SinceThen(net: Net, hist: seq<TextSpec>, written: set<nat>, more: set<nat>, lease: Lease, v6: bool,
          seen: nat, at: nat)
    requires GoodNet(net) && written <= more
    ensures Cleared(net, hist, written, lease, v6, seen, at) ==> Cleared(net, hist, more, lease, v6, seen, at)
  {
  }

  lemma SinceVersion(net: Net, hist: seq<TextSpec>, written: set<nat>, more: set<nat>, lease: Lease, v6: bool,
          ver: nat, earlier: nat, at: nat)
    requires GoodNet(net) && written <= more && earlier <= ver
    ensures Released(net, hist, written, lease, v6, ver, at) ==> Released(net, hist, more, lease, v6, earlier, at)
  {
  }
}
