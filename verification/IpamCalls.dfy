/**
  Reserve and Free of pkg/ipam as the loops they are, over persisted text and one network
  object on the API server; each call is proved to be what one process of the step machine
  does on the versions that the object takes meanwhile.
 */
module IpamCalls {
  import opened Wrappers
  import opened Addressing
  import opened Ipam
  import opened IpamProtocol
  import opened IpamLocal
  import opened ApiServer
  import opened LocalRuns
  import Base64
  import BitArrays

  datatype TextSpec = TextSpec(alloc4: string, last4: LastIp, alloc6: string, last6: LastIp)

  ghost function Meaning(spec: TextSpec): Spec {
    Spec(Persisted(spec.alloc4), spec.last4, Persisted(spec.alloc6), spec.last6)
  }

  ghost function Versions(hist: seq<TextSpec>): (specs: seq<Spec>)
    ensures |specs| == |hist| && forall v :: 0 <= v < |hist| ==> specs[v] == Meaning(hist[v])
  {
    seq(|hist|, v requires 0 <= v < |hist| => Meaning(hist[v]))
  }

  lemma VersionsGrow(hist: seq<TextSpec>, longer: seq<TextSpec>)
    requires hist <= longer
    ensures Versions(hist) <= Versions(longer)
    ensures |longer| == |hist| + 1 ==> Versions(longer) == Versions(hist) + [Meaning(longer[|hist|])]
  {
  }

  ghost predicate GoodText(net: Net, sizes: (nat, nat), spec: TextSpec)
    requires GoodNet(net)
  {
    && Good(net, Meaning(spec))
    && Canonical(spec.alloc4) && Canonical(spec.alloc6)
    && (net.nets4.L2? ==> spec.alloc4 == "") && (net.nets6.L2? ==> spec.alloc6 == "")
    && Persisted(spec.alloc4).size == sizes.0 && Persisted(spec.alloc6).size == sizes.1
  }

  /** Comparing two specs as text, as the code does, is comparing what they mean. */
  lemma TextEquality(net: Net, sizes: (nat, nat), a: TextSpec, b: TextSpec)
    requires GoodNet(net) && GoodText(net, sizes, a) && GoodText(net, sizes, b)
    ensures a == b <==> Meaning(a) == Meaning(b)
  {
    BitArrays.PersistedEquality(Base64.Decode(a.alloc4), Base64.Decode(b.alloc4));
    BitArrays.PersistedEquality(Base64.Decode(a.alloc6), Base64.Decode(b.alloc6));
  }

  /** An allocation keeps the size of its bitmap; the text of an L2 network stays empty. */
  lemma SameSize(pool: Pool, alloc: string, req: Request, nets: Subnets, r: TextOutcome)
    requires nets.L3? ==> InBounds(pool, Persisted(alloc), nets) && Indexable(nets.alloc)
    requires Refines(r, AllocateAddress(pool, Persisted(alloc), req, nets)) && r.TextAllocated? && Canonical(r.text)
    requires nets.L2? ==> alloc == ""
    ensures Persisted(r.text).size == Persisted(alloc).size
    ensures nets.L2? ==> r.text == ""
  {
  }

  lemma AllocatedText(net: Net, sizes: (nat, nat), spec: TextSpec, req4: Request, req6: Request, r4: TextOutcome,
          r6: TextOutcome)
    requires GoodNet(net) && GoodText(net, sizes, spec)
    requires r4.TextAllocated?
    requires Refines(r4, AllocateAddress(Pool4(net, Meaning(spec)), Persisted(spec.alloc4), req4, net.nets4))
    requires r6.TextAllocated?
    requires Refines(r6, AllocateAddress(Pool6(net, Meaning(spec)), Persisted(spec.alloc6), req6, net.nets6))
    requires Canonical(r4.text) && Canonical(r6.text)
    ensures var next := TextSpec(r4.text, r4.last, r6.text, r6.last);
      && AllocateIps(net, Meaning(spec), req4, req6) == Some((Meaning(next), Lease(r4.address, r6.address)))
      && GoodText(net, sizes, next) && LeaseBits(net, Lease(r4.address, r6.address)) <= Bits(Meaning(next))
  {
    SameSize(Pool4(net, Meaning(spec)), spec.alloc4, req4, net.nets4, r4);
    SameSize(Pool6(net, Meaning(spec)), spec.alloc6, req6, net.nets6, r6);
    hide AllocateAddress, Good, Canonical, Persisted;
    AllocateIpsBits(net, Meaning(spec), req4, req6);
  }

  lemma ReadyToAllocate(net: Net, sizes: (nat, nat), spec: TextSpec)
    requires GoodNet(net) && GoodText(net, sizes, spec)
    ensures Loadable(spec.alloc4) && InBounds(Pool4(net, Meaning(spec)), Persisted(spec.alloc4), net.nets4)
    ensures Loadable(spec.alloc6) && InBounds(Pool6(net, Meaning(spec)), Persisted(spec.alloc6), net.nets6)
    ensures (net.nets4.L2? ==> spec.alloc4 == "") && (net.nets6.L2? ==> spec.alloc6 == "")
  {
  }

  method AllocateIpsText(net: Net, ghost sizes: (nat, nat), spec: TextSpec, req4: Request, req6: Request)
    returns (r: Option<(TextSpec, Lease)>)
    requires GoodNet(net) && GoodText(net, sizes, spec)
    ensures r.None? <==> AllocateIps(net, Meaning(spec), req4, req6).None?
    ensures r.Some? <==> Grants(net, Meaning(spec), req4, req6)
    ensures r.Some? ==> Fits(net, req4, req6, r.value.1)
    ensures r.Some? ==> GoodText(net, sizes, r.value.0)
    ensures r.Some? ==> AllocateIps(net, Meaning(spec), req4, req6) == Some((Meaning(r.value.0), r.value.1))
    ensures r.Some? ==> LeaseBits(net, r.value.1) <= Bits(Meaning(r.value.0))
  {
    ReadyToAllocate(net, sizes, spec);
    AllocateIpsExactly(net, Meaning(spec), req4, req6);
    hide AllocateAddress, Loadable, Persisted, GoodText, InBounds, Grants, Fits;
    var r4 := AllocateText(Pool(net.start4, net.end4, spec.last4), spec.alloc4, req4, net.nets4);
    if r4.TextRefused? {
      return None;
    }
    var r6 := AllocateText(Pool(net.start6, net.end6, spec.last6), spec.alloc6, req6, net.nets6);
    if r6.TextRefused? {
      return None;
    }
    AllocatedText(net, sizes, spec, req4, req6, r4, r6);
    return Some((TextSpec(r4.text, r4.last, r6.text, r6.last), Lease(r4.address, r6.address)));
  }

  method FreeIpText(net: Net, ghost sizes: (nat, nat), spec: TextSpec, lease: Lease, v6: bool) returns (next: TextSpec)
    requires GoodNet(net) && GoodText(net, sizes, spec)
    ensures GoodText(net, sizes, next) && Meaning(next) == FreeIp(net, Meaning(spec), lease, v6)
    ensures LeaseBits(net, lease) <= Bits(Meaning(spec)) ==> LeaseBits(net, Without(lease, v6)) <= Bits(Meaning(next))
  {
    FreeIpBits(net, Meaning(spec), lease, v6);
    if v6 {
      var text := ResetText(spec.alloc6, lease.a6, net.nets6);
      return spec.(alloc6 := text);
    } else {
      var text := ResetText(spec.alloc4, lease.a4, net.nets4);
      return spec.(alloc4 := text);
    }
  }

  datatype Result = Done(lease: Lease) | Failure

  /** The server keeps good specs of this network, and a spec shows a lease if it has its bits set. */
  ghost predicate Serves(api: Cell<TextSpec, Lease>, net: Net, sizes: (nat, nat))
    requires GoodNet(net)
    reads api
  {
    && api.Valid() && (forall x :: api.ok(x) <==> GoodText(net, sizes, x))
    && forall x, l :: api.shows(x, l) <==> LeaseBits(net, l) <= Bits(Meaning(x))
  }

  /** The spec is what an allocation on that version gives, with that lease. */
  ghost predicate Allocates(net: Net, before: TextSpec, after: TextSpec, req4: Request, req6: Request, lease: Lease)
    requires GoodNet(net)
  {
    AllocateIps(net, Meaning(before), req4, req6) == Some((Meaning(after), lease))
  }

  datatype Updated = Written | NotWritten | Retry(ver: nat, newNet: TextSpec)

  /**
    updateIpAllocation: one PUT of what the pass of process `p` has computed and, after a conflict, a new
    copy.  It gives up only for an error of the PUT or of that read.  `landed` is whether the PUT was
    accepted, which the caller does not learn from an error.
   */
  method UpdateIpAllocation(api: Cell<TextSpec, Lease>, net: Net, ghost sizes: (nat, nat), ver: nat, next: TextSpec,
          keep: Option<Lease>, lost: Option<Lease>,
          ghost p0: Proc, ghost trace: seq<Seen<Action>>, ghost p: Proc, ghost got: Lease)
    returns (r: Updated, ghost landed: bool, ghost trace': seq<Seen<Action>>)
    requires GoodNet(net) && Serves(api, net, sizes) && ver <= api.version && GoodText(net, sizes, next)
    requires (keep.Some? ==> api.shows(next, keep.value)) && (lost.Some? ==> api.shows(next, lost.value))
    requires Told(Steps(net), Versions(api.hist), p0, trace, p, {}) && PassGives(net, p, Meaning(next), got)
    requires Meaning(next) != p.orig.spec && p.cur.ver == ver
    modifies api
    ensures Serves(api, net, sizes) && old(api.hist) <= api.hist && |api.foreign| <= old(|api.foreign|)
    ensures landed ==>
      && ver + 1 == api.version > old(api.version) && api.value == next && api.own == old(api.own) + {api.version}
      && api.held == if r.Written? then keep else lost
    ensures !landed ==> api.own == old(api.own) && api.held == old(api.held)
    ensures (r.Written? ==> landed) && (r.Retry? ==> !landed)
    ensures api.errors == old(api.errors) + if r.NotWritten? then 1 else 0
    ensures r.Retry? ==> api.Knows(r.ver, r.newNet) && ver < r.ver == api.version && api.value == r.newNet
    ensures r.Retry? ==> |api.foreign| < old(|api.foreign|) || ver < old(api.version)
    ensures Told(Steps(net), Versions(api.hist), p0, trace',
      match r
      case Written => Returned(p.call, got, api.version)
      case NotWritten => Failed(p.call)
      case Retry(ver, newNet) => Running(p.call, p.orig, Copy(ver, Meaning(newNet)), p.tries + 1),
      if landed then {api.version} else {})
  {
    hide GoodNet, GoodText, Meaning, LeaseBits, Bits, Told, Steps, Versions, PassGives, Returned, Failed;
    ghost var before := api.hist;
    var reply;
    reply, landed := api.Update(ver, next, keep, lost);
    ghost var mid := api.hist;
    VersionsGrow(before, mid);
    if landed {
      trace' := AcceptedPass(net, Versions(before), Versions(mid), p0, trace, p, Meaning(next), got, reply.Error?);
    }
    match reply
    case Error =>
      if !landed {
        trace' := FailedPass(net, Versions(before), Versions(mid), p0, trace, p, Meaning(next), got);
      }
      r := NotWritten;
    case Accepted =>
      r := Written;
    case Conflict =>
      var latest := api.Refresh();
      VersionsGrow(mid, api.hist);
      if latest.None? {
        trace' := UnreadPass(net, Versions(before), Versions(api.hist), p0, trace, p, Meaning(next), got);
        return NotWritten, landed, trace';
      }
      var (newVer, newNet) := latest.value;
      trace' := VainPass(net, Versions(before), Versions(mid), Versions(api.hist), p0, trace, p, Meaning(next), got);
      r := Retry(newVer, newNet);
  }

  /**
    Reserve.  On success it has written once, namely the version after `from` with one allocation, and
    holds the lease, which is what was requested; or it returns without a PUT because an allocation on
    some version gave back the spec it started from.  It fails only for an error or because version `from`
    does not grant the request; then it holds nothing, but after an error its one write may have been accepted.
    `trace` are the actions by which an idle process of the step machine does the same.
   */
  method Reserve(api: Cell<TextSpec, Lease>, net: Net, ghost sizes: (nat, nat), ver: nat, netInfo: TextSpec,
          req4: Request, req6: Request)
    returns (result: Result, ghost from: nat, ghost trace: seq<Seen<Action>>, ghost proc: Proc)
    requires GoodNet(net) && Serves(api, net, sizes) && api.Knows(ver, netInfo) && api.held == None
    modifies api
    ensures Serves(api, net, sizes) && old(api.hist) <= api.hist && ver <= from < |api.hist|
    ensures result.Failure? ==> api.held == None
    ensures api.errors == old(api.errors) || (result.Failure? && api.errors == old(api.errors) + 1)
    ensures result.Failure? && api.errors == old(api.errors) ==>
      api.own == old(api.own) && !Grants(net, Meaning(api.hist[from]), req4, req6)
    ensures result.Done? ==> Fits(net, req4, req6, result.lease) && Grants(net, Meaning(api.hist[from]), req4, req6)
    ensures result.Failure? ==>
      || api.own == old(api.own)
      || (&& api.own == old(api.own) + {api.version} && from + 1 == api.version > old(api.version)
          && exists lost :: Allocates(net, api.hist[from], api.value, req4, req6, lost))
    ensures result.Done? ==>
      || (&& api.own == old(api.own) + {api.version} && from + 1 == api.version > old(api.version)
          && api.held == Some(result.lease)
          && Allocates(net, api.hist[from], api.value, req4, req6, result.lease))
      || (&& api.own == old(api.own) && api.held == None
          && Allocates(net, api.hist[from], netInfo, req4, req6, result.lease))
    ensures Told(Steps(net), Versions(api.hist), Idle, trace, proc, api.own - old(api.own))
    ensures if result.Done? then proc.Holding? && proc.lease == proc.listed == result.lease else proc == Idle
  {
    hide GoodNet, GoodText, AllocateIps, Meaning, LeaseBits, Bits, Told, Steps, Versions, Grants, Fits;
    var origSpec := netInfo;
    var tempVer, tempNet := ver, netInfo;
    ghost var call := ReserveCall(req4, req6);
    ghost var orig, tries := Copy(ver, Meaning(netInfo)), 0;
    TellReserve(net, Versions(api.hist), req4, req6, ver);
    trace, proc := [Seen(api.version, BeginReserve(req4, req6, ver))], Running(call, orig, orig, 0);
    while true
      invariant Serves(api, net, sizes) && old(api.hist) <= api.hist && api.own == old(api.own) && api.held == None
      invariant api.errors == old(api.errors)
      invariant ver <= tempVer && api.Knows(tempVer, tempNet)
      invariant proc == Running(call, orig, Copy(tempVer, Meaning(tempNet)), tries)
      invariant Told(Steps(net), Versions(api.hist), Idle, trace, proc, {})
      decreases |api.foreign|, tempVer < api.version
    {
      assert api.own - old(api.own) == {};
      var pass := AllocateIpsText(net, sizes, tempNet, req4, req6);
      if pass.None? {
        trace := RefusedPass(net, Versions(api.hist), Idle, trace, proc);
        return Failure, tempVer, trace, Idle;
      }
      var (next, lease) := pass.value;
      assert Allocates(net, tempNet, next, req4, req6, lease);
      assert PassGives(net, proc, Meaning(next), lease);
      TextEquality(net, sizes, next, origSpec);
      if next == origSpec {
        trace := UnchangedPass(net, Versions(api.hist), Idle, trace, proc, lease);
        return Done(lease), tempVer, trace, Holding(lease, api.version, lease);
      }
      ghost var landed;
      var updated;
      updated, landed, trace :=
        UpdateIpAllocation(api, net, sizes, tempVer, next, Some(lease), None, Idle, trace, proc, lease);
      assert api.own - old(api.own) == if landed then {api.version} else {};
      match updated
      case Written => return Done(lease), tempVer, trace, Holding(lease, api.version, lease);
      case NotWritten => return Failure, tempVer, trace, Idle;
      case Retry(newVer, newNet) =>
        tempVer, tempNet, tries := newVer, newNet, tries + 1;
        proc := Running(call, orig, Copy(tempVer, Meaning(tempNet)), tries);
    }
  }

  /**
    Free of one address of a lease, which the client may hold, for a DanmEp that lists `listed`.  It fails
    only for an error.  On success it has written at most once, and that version is its predecessor with the
    address released; on an error its one write may have been accepted all the same.  `trace` are the actions
    by which a process that holds the lease does the same.
   */
  method Free(api: Cell<TextSpec, Lease>, net: Net, ghost sizes: (nat, nat), ver: nat, netInfo: TextSpec,
          lease: Lease, ghost listed: Lease, v6: bool)
    returns (result: Result, ghost from: nat, ghost trace: seq<Seen<Action>>)
    requires GoodNet(net) && Serves(api, net, sizes) && api.Knows(ver, netInfo)
    requires api.held.Some? ==> api.held.value == lease && api.shows(netInfo, lease)
    modifies api
    ensures Serves(api, net, sizes) && old(api.hist) <= api.hist && ver <= from < |api.hist|
    ensures api.errors == old(api.errors) + if result.Failure? then 1 else 0
    ensures result.Done? ==> result.lease == Without(lease, v6)
    ensures api.held == if old(api.held).Some? && (result.Done? || api.own != old(api.own))
      then Some(Without(lease, v6)) else old(api.held)
    ensures old(api.held).Some? ==> api.shows(api.hist[from], lease)
    ensures (api.own == old(api.own)
       && (result.Done? ==> Meaning(netInfo) == FreeIp(net, Meaning(api.hist[from]), lease, v6)))
      || (&& api.own == old(api.own) + {api.version} && from + 1 == api.version > old(api.version)
          && Meaning(api.value) == FreeIp(net, Meaning(api.hist[from]), lease, v6))
    ensures Told(Steps(net), Versions(api.hist), Holding(lease, ver, listed), trace,
      if result.Done? then Holding(Without(lease, v6), ver, listed) else Kept(listed, ver), api.own - old(api.own))
  {
    hide GoodNet, GoodText, FreeIp, Meaning, LeaseBits, Bits, Told, Steps, Versions;
    var tempVer, tempNet := ver, netInfo;
    var keep := if api.held.Some? then Some(Without(lease, v6)) else None;
    ghost var p0, call := Holding(lease, ver, listed), FreeCall(lease, ver, listed, v6);
    ghost var orig, tries := Copy(ver, Meaning(netInfo)), 0;
    TellFree(net, Versions(api.hist), p0, v6, ver);
    ghost var proc := Running(call, orig, orig, 0);
    trace := [Seen(api.version, BeginFree(v6, ver))];
    while true
      invariant Serves(api, net, sizes) && old(api.hist) <= api.hist && api.own == old(api.own)
      invariant api.held == old(api.held) && api.errors == old(api.errors)
      invariant ver <= tempVer && api.Knows(tempVer, tempNet) && (api.held.Some? ==> api.shows(tempNet, lease))
      invariant proc == Running(call, orig, Copy(tempVer, Meaning(tempNet)), tries)
      invariant Told(Steps(net), Versions(api.hist), p0, trace, proc, {})
      decreases |api.foreign|, tempVer < api.version
    {
      assert api.own - old(api.own) == {};
      var next := FreeIpText(net, sizes, tempNet, lease, v6);
      assert PassGives(net, proc, Meaning(next), Without(lease, v6));
      TextEquality(net, sizes, next, netInfo);
      if next == netInfo {
        trace := UnchangedPass(net, Versions(api.hist), p0, trace, proc, Without(lease, v6));
        LessIsShown(net, api.value, lease, v6);
        api.held := keep;
        return Done(Without(lease, v6)), tempVer, trace;
      }
      ghost var landed;
      var updated;
      updated, landed, trace :=
        UpdateIpAllocation(api, net, sizes, tempVer, next, keep, keep, p0, trace, proc, Without(lease, v6));
      assert api.own - old(api.own) == if landed then {api.version} else {};
      match updated
      case Written => return Done(Without(lease, v6)), tempVer, trace;
      case NotWritten => return Failure, tempVer, trace;
      case Retry(newVer, newNet) =>
        tempVer, tempNet, tries := newVer, newNet, tries + 1;
        proc := Running(call, orig, Copy(tempVer, Meaning(tempNet)), tries);
    }
  }

  lemma LessIsShown(net: Net, spec: TextSpec, lease: Lease, v6: bool)
    requires GoodNet(net)
    ensures LeaseBits(net, lease) <= Bits(Meaning(spec)) ==> LeaseBits(net, Without(lease, v6)) <= Bits(Meaning(spec))
  {
    assert LeaseBits(net, Without(lease, v6)) <= LeaseBits(net, lease);
  }
}
