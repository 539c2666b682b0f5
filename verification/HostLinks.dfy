/**
  The VLAN and VxLAN interfaces that pkg/netcontrol keeps on a host.  The host is the map
  of its links by name together with the netlink calls made so far; every event handler
  is proved to move it from the image of the old networks to the image of the new ones.
 */
module HostLinks {
  import opened Decimal

  datatype Link = Physical | Vlan(id: nat, parent: string) | Vxlan(id: nat, vtep: string)

  /** The part of a Tenant- or ClusterNetwork that matters to the host. */
  datatype Network = Network(networkId: string, device: string, vlan: nat, vxlan: nat)

  datatype NetlinkCall = LinkAdd(name: string) | LinkDel(name: string)

  type Links = map<string, Link>

  function VlanName(net: Network): string { net.networkId + "." + Itoa(net.vlan) }
  function VxlanName(net: Network): string { "vx_" + net.networkId }

  predicate HasVlan(net: Network) { net.device != "" && net.vlan != 0 }
  predicate HasVxlan(net: Network) { net.device != "" && net.vxlan != 0 }

  /** The links a network is meant to have. */
  function VlanLinks(net: Network): Links {
    if HasVlan(net) then map[VlanName(net) := Vlan(net.vlan, net.device)] else map[]
  }
  function VxlanLinks(net: Network): Links {
    if HasVxlan(net) then map[VxlanName(net) := Vxlan(net.vxlan, net.device)] else map[]
  }
  function Image(net: Network): Links { VlanLinks(net) + VxlanLinks(net) }

  /** Exactly which links a network is meant to have. */
  lemma ImageExactly(net: Network, name: string)
    ensures name in Image(net) <==>
      && net.device != ""
      && ((net.vlan != 0 && name == net.networkId + "." + Itoa(net.vlan))
          || (net.vxlan != 0 && name == "vx_" + net.networkId))
    ensures name in Image(net) ==>
      Image(net)[name] ==
        if net.vlan != 0 && name == net.networkId + "." + Itoa(net.vlan) then Vlan(net.vlan, net.device)
        else Vxlan(net.vxlan, net.device)
  {
    OwnNamesDiffer(net.networkId, net.vlan);
  }

  predicate Placeable(links: Links, net: Network) { net.device != "" ==> net.device in links }

  /** The two names of one network never coincide: one has a dot more than the other. */
  lemma OwnNamesDiffer(networkId: string, vlan: nat)
    ensures networkId + "." + Itoa(vlan) != "vx_" + networkId
  {
    var a, b := networkId + "." + Itoa(vlan), "vx_" + networkId;
    assert multiset(a) == multiset(networkId) + multiset(".") + multiset(Itoa(vlan));
    assert multiset(b) == multiset("vx_") + multiset(networkId);
    assert '.' !in Itoa(vlan);
    assert multiset(a)['.'] == multiset(networkId)['.'] + 1;
    assert multiset(b)['.'] == multiset(networkId)['.'];
  }

  /** zeroVnis on the copies of the old and of the new network. */
  function ZeroVnis(was: Network, now: Network): (Network, Network) {
    var (o, n) := if was.vlan == now.vlan && was.device == now.device
                  then (was.(vlan := 0), now.(vlan := 0)) else (was, now);
    if o.vxlan == n.vxlan && o.device == n.device then (o.(vxlan := 0), n.(vxlan := 0)) else (o, n)
  }

  class Host {
    var links: Links
    var calls: seq<NetlinkCall>

    constructor (physical: Links)
      ensures links == physical && calls == []
    {
      links, calls := physical, [];
    }

    /** shouldInterfaceBeCreated and addLink: an interface that already exists is kept as it is. */
    method AddIfMissing(id: nat, name: string, hostDevice: string, link: Link) returns (ok: bool)
      modifies this
      ensures ok <==> id == 0 || name in old(links) || hostDevice in old(links)
      ensures links == if id == 0 || name in old(links) || !ok then old(links) else old(links)[name := link]
      ensures calls == if id == 0 || name in old(links) || !ok then old(calls) else old(calls) + [LinkAdd(name)]
    {
      if id == 0 || name in links {
        return true;
      }
      if hostDevice !in links {
        return false;
      }
      links := links[name := link];
      calls := calls + [LinkAdd(name)];
      return true;
    }

    /** setupHost; a failed VLAN leaves the VxLAN out as well. */
    method SetupHost(net: Network)
      modifies this
      ensures links == if Placeable(old(links), net) then Image(net) + old(links) else old(links)
      ensures old(calls) <= calls
      ensures forall i :: |old(calls)| <= i < |calls| ==> calls[i].LinkAdd? && calls[i].name in Image(net)
    {
      if net.device == "" || (net.vxlan == 0 && net.vlan == 0) {
        return;
      }
      OwnNamesDiffer(net.networkId, net.vlan);
      var ok := AddIfMissing(net.vlan, VlanName(net), net.device, Vlan(net.vlan, net.device));
      if ok {
        ok := AddIfMissing(net.vxlan, VxlanName(net), net.device, Vxlan(net.vxlan, net.device));
      }
    }

    method DeleteHostInterface(id: nat, name: string)
      modifies this
      ensures links == if id == 0 then old(links) else old(links) - {name}
      ensures calls == if id == 0 || name !in old(links) then old(calls) else old(calls) + [LinkDel(name)]
    {
      if id == 0 || name !in links {
        return;
      }
      links := links - {name};
      calls := calls + [LinkDel(name)];
    }

    /** deleteNetworks. */
    method DeleteNetworks(net: Network)
      modifies this
      ensures links == old(links) - Image(net).Keys
      ensures old(calls) <= calls
      ensures forall i :: |old(calls)| <= i < |calls| ==> calls[i].LinkDel? && calls[i].name in Image(net)
    {
      if net.device == "" {
        return;
      }
      DeleteHostInterface(net.vxlan, VxlanName(net));
      DeleteHostInterface(net.vlan, if net.vlan == 0 then net.device else VlanName(net));
    }

    /**
      The update handlers.  The netlink calls made are stated too: an interface whose
      VNI and device stay the same is neither taken down nor added again.
     */
    method UpdateNetwork(was: Network, now: Network)
      modifies this
      ensures var (o, n) := ZeroVnis(was, now);
        var rest := old(links) - Image(o).Keys;
        links == if Placeable(rest, n) then Image(n) + rest else rest
      ensures old(calls) <= calls
      ensures var (o, n) := ZeroVnis(was, now);
        forall i :: |old(calls)| <= i < |calls| ==>
          calls[i].name in (if calls[i].LinkDel? then Image(o) else Image(n))
    {
      var (o, n) := ZeroVnis(was, now);
      DeleteNetworks(o);
      SetupHost(n);
    }
  }

  // ---- runs of events ----

  /** The networks that exist, by object key; `physical` are the links DANM did not make. */
  type Live = map<string, Network>

  /** Added also happens again for a network that exists, when the watcher restarts. */
  datatype Event = Added(key: string, net: Network) | Updated(key: string, net: Network) | Deleted(key: string)

  function LiveAfter(live: Live, e: Event): Live {
    if e.Deleted? then live - {e.key} else live[e.key := e.net]
  }

  /** No two networks, and no network and physical device, use one name; devices are present. */
  ghost predicate Compatible(physical: Links, live: Live) {
    && (forall k :: k in live ==>
          && (live[k].device != "" ==> live[k].device in physical)
          && Image(live[k]).Keys !! physical.Keys)
    && forall j, k :: j in live && k in live && j != k ==> Image(live[j]).Keys !! Image(live[k]).Keys
  }

  /** An event as the informers deliver it; the network id of an object is fixed. */
  ghost predicate Deliverable(live: Live, e: Event) {
    match e
    case Added(key, net) => key in live ==> live[key] == net
    case Updated(key, net) => key in live && live[key].networkId == net.networkId
    case Deleted(key) => key in live
  }

  /** The names that the handler of an event takes down and the links that it puts up. */
  function Change(live: Live, e: Event): (set<string>, Links)
    requires e.Added? || e.key in live
  {
    match e
    case Added(_, net) => ({}, Image(net))
    case Updated(key, net) => var (o, n) := ZeroVnis(live[key], net); (Image(o).Keys, Image(n))
    case Deleted(key) => (Image(live[key]).Keys, map[])
  }

  function LinksAfter(live: Live, links: Links, e: Event): Links
    requires e.Added? || e.key in live
  {
    var (down, up) := Change(live, e);
    up + (links - down)
  }

  predicate Owns(live: Live, key: string, name: string) { key in live && name in Image(live[key]) }

  /** The link of one name is there exactly if it is physical or a live network's, and is that link. */
  ghost predicate ReconciledAt(physical: Links, live: Live, links: Links, name: string) {
    && (name in physical ==> name in links && links[name] == physical[name])
    && (forall k :: Owns(live, k, name) ==> name in links && links[name] == Image(live[k])[name])
    && (name in links ==> name in physical || exists k :: Owns(live, k, name))
  }

  /** The host has exactly its physical links and the links of the live networks. */
  ghost predicate Reconciled(physical: Links, live: Live, links: Links) {
    forall name :: ReconciledAt(physical, live, links, name)
  }

  /** The handler of any delivered event, run on a reconciled host. */
  method Handle(host: Host, ghost physical: Links, live: Live, e: Event)
    requires Compatible(physical, live) && Compatible(physical, LiveAfter(live, e)) && Deliverable(live, e)
    requires Reconciled(physical, live, host.links)
    modifies host
    ensures host.links == LinksAfter(live, old(host.links), e)
    ensures Reconciled(physical, LiveAfter(live, e), host.links)
  {
    hide Image;
    EventKeepsReconciled(physical, live, host.links, e);
    match e
    case Added(_, net) =>
      assert LiveAfter(live, e)[e.key] == net;
      assert old(ReconciledAt(physical, live, host.links, net.device));
      host.SetupHost(net);
    case Updated(key, net) =>
      assert LiveAfter(live, e)[e.key] == net;
      StillPlaceable(physical, live, host.links, e);
      host.UpdateNetwork(live[key], net);
    case Deleted(key) =>
      host.DeleteNetworks(live[key]);
  }

  lemma StillPlaceable(physical: Links, live: Live, links: Links, e: Event)
    requires Compatible(physical, live) && Compatible(physical, LiveAfter(live, e)) && Deliverable(live, e)
    requires Reconciled(physical, live, links) && e.Updated?
    ensures var (o, n) := ZeroVnis(live[e.key], e.net); Placeable(links - Image(o).Keys, n)
  {
    var (o, n) := ZeroVnis(live[e.key], e.net);
    assert Image(o).Keys <= Image(live[e.key]).Keys;
    assert LiveAfter(live, e)[e.key] == e.net;
    assert ReconciledAt(physical, live, links, e.net.device);
  }

  /** An update touches exactly the interfaces whose VNI or device it changes. */
  lemma UpdateTouchesChangedExactly(was: Network, now: Network)
    requires was.networkId == now.networkId
    ensures var (o, n) := ZeroVnis(was, now);
      var sameVlan := was.vlan == now.vlan && was.device == now.device;
      var sameVxlan := was.vxlan == now.vxlan && was.device == now.device;
      && (VlanName(was) in Image(o) <==> HasVlan(was) && !sameVlan)
      && (VxlanName(was) in Image(o) <==> HasVxlan(was) && !sameVxlan)
      && (VlanName(now) in Image(n) <==> HasVlan(now) && !sameVlan)
      && (VxlanName(now) in Image(n) <==> HasVxlan(now) && !sameVxlan)
  {
    forall v ensures was.networkId + "." + Itoa(v) != "vx_" + was.networkId {
      OwnNamesDiffer(was.networkId, v);
    }
  }

  function ImageAt(live: Live, key: string): Links { if key in live then Image(live[key]) else map[] }

  /** A link whose VNI and device stay is neither taken down nor put up, and no other goes missing. */
  lemma ChangeIsMinimal(live: Live, e: Event, x: string)
    requires Deliverable(live, e)
    ensures var (down, up) := Change(live, e);
      var was, now := ImageAt(live, e.key), ImageAt(LiveAfter(live, e), e.key);
      && (x in up ==> x in now && up[x] == now[x])
      && (x in down ==> x in was)
      && (x in now && x !in up ==> x in was && x !in down)
      && (x in now && x in was && x !in down ==> was[x] == now[x])
      && (x in was && x !in down ==> x in now)
  {
    assert e.Added? || e.Updated? ==> LiveAfter(live, e)[e.key] == e.net;
    if e.Updated? {
      var net := live[e.key];
      OwnNamesDiffer(net.networkId, net.vlan);
      OwnNamesDiffer(net.networkId, e.net.vlan);
    }
  }

  /** Every delivered event keeps the host reconciled. */
  lemma EventKeepsReconciled(physical: Links, live: Live, links: Links, e: Event)
    requires Compatible(physical, live) && Compatible(physical, LiveAfter(live, e)) && Deliverable(live, e)
    requires Reconciled(physical, live, links)
    ensures Reconciled(physical, LiveAfter(live, e), LinksAfter(live, links, e))
  {
    forall x ensures ReconciledAt(physical, LiveAfter(live, e), LinksAfter(live, links, e), x) {
      EventKeepsReconciledAt(physical, live, links, e, x);
    }
  }

  lemma EventKeepsReconciledAt(physical: Links, live: Live, links: Links, e: Event, x: string)
    requires Compatible(physical, live) && Compatible(physical, LiveAfter(live, e)) && Deliverable(live, e)
    requires ReconciledAt(physical, live, links, x)
    ensures ReconciledAt(physical, LiveAfter(live, e), LinksAfter(live, links, e), x)
  {
    hide Image, Change, Compatible;
    ChangeIsMinimal(live, e, x);
    var after, now := LiveAfter(live, e), LinksAfter(live, links, e);
    NamesApart(physical, live, e, x);
    assert x in ImageAt(after, e.key) <==> Owns(after, e.key, x);
    assert x in ImageAt(live, e.key) <==> Owns(live, e.key, x);
    forall k | k != e.key ensures k in after <==> k in live { }
    var (down, up) := Change(live, e);
    forall k | Owns(after, k, x) ensures x in now && now[x] == Image(after[k])[x] {
      OwnedLinkIsUp(physical, live, links, e, x, k);
    }
    if x in now && x !in physical {
      if x in up {
        assert Owns(after, e.key, x);
      } else {
        var k :| Owns(live, k, x);
        assert k == e.key ==> Owns(after, e.key, x);
        assert k != e.key ==> after[k] == live[k] && Owns(after, k, x);
      }
    }
  }

  lemma OwnedLinkIsUp(physical: Links, live: Live, links: Links, e: Event, x: string, k: string)
    requires Compatible(physical, live) && Compatible(physical, LiveAfter(live, e)) && Deliverable(live, e)
    requires ReconciledAt(physical, live, links, x) && Owns(LiveAfter(live, e), k, x)
    ensures x in LinksAfter(live, links, e)
    ensures LinksAfter(live, links, e)[x] == Image(LiveAfter(live, e)[k])[x]
  {
    hide Image, Change, Compatible;
    ChangeIsMinimal(live, e, x);
    NamesApart(physical, live, e, x);
    var after := LiveAfter(live, e);
    var (down, up) := Change(live, e);
    assert x in ImageAt(live, e.key) ==> Owns(live, e.key, x);
    assert x in ImageAt(after, e.key) ==> Owns(after, e.key, x);
    if k != e.key {
      assert k in live && after[k] == live[k] && Owns(live, k, x);
      assert x !in ImageAt(live, e.key) && x !in ImageAt(after, e.key);
    } else {
      assert ImageAt(after, k) == Image(after[k]);
      if x in links && x !in down {
        var j :| Owns(live, j, x);
        assert j != k ==> after[j] == live[j] && Owns(after, j, x);
        assert ImageAt(live, k) == Image(live[k]) && links[x] == Image(live[k])[x];
      }
    }
  }

  lemma NamesApart(physical: Links, live: Live, e: Event, x: string)
    requires Compatible(physical, live) && Compatible(physical, LiveAfter(live, e))
    ensures forall k :: Owns(live, k, x) || Owns(LiveAfter(live, e), k, x) ==> x !in physical
    ensures forall j, k :: Owns(live, j, x) && Owns(live, k, x) ==> j == k
    ensures forall j, k :: Owns(LiveAfter(live, e), j, x) && Owns(LiveAfter(live, e), k, x) ==> j == k
  {
  }

  ghost function LiveAfterAll(live: Live, events: seq<Event>): Live
    decreases |events|
  {
    if |events| == 0 then live else LiveAfterAll(LiveAfter(live, events[0]), events[1..])
  }

  /** Every event of the run is delivered as above and names stay apart throughout. */
  ghost predicate Legal(physical: Links, live: Live, events: seq<Event>)
    decreases |events|
  {
    && Compatible(physical, live)
    && (|events| > 0 ==> Deliverable(live, events[0]) && Legal(physical, LiveAfter(live, events[0]), events[1..]))
  }

  /**
    The watcher over a whole run: whatever the events, the host ends with exactly the links of the
    networks that are live.
   */
  method Watch(host: Host, ghost physical: Links, live: Live, events: seq<Event>)
    requires Legal(physical, live, events) && Reconciled(physical, live, host.links)
    modifies host
    ensures Reconciled(physical, LiveAfterAll(live, events), host.links)
    decreases |events|
  {
    if |events| > 0 {
      Handle(host, physical, live, events[0]);
      Watch(host, physical, LiveAfter(live, events[0]), events[1..]);
    }
  }

  ghost function LinksAfterAll(physical: Links, live: Live, links: Links, events: seq<Event>): Links
    requires Legal(physical, live, events)
    decreases |events|
  {
    if |events| == 0 then links
    else LinksAfterAll(physical, LiveAfter(live, events[0]), LinksAfter(live, links, events[0]), events[1..])
  }

  /** The same over the links the handlers are proved to leave. */
  lemma {:induction false} RunKeepsReconciled(physical: Links, live: Live, links: Links, events: seq<Event>)
    requires Legal(physical, live, events) && Reconciled(physical, live, links)
    ensures Reconciled(physical, LiveAfterAll(live, events), LinksAfterAll(physical, live, links, events))
    decreases |events|
  {
    if |events| > 0 {
      EventKeepsReconciled(physical, live, links, events[0]);
      RunKeepsReconciled(physical, LiveAfter(live, events[0]), LinksAfter(live, links, events[0]), events[1..]);
    }
  }

  /** The host is determined by the networks that are live, so it does not matter by which events they became so. */
  lemma ReconciledIsUnique(physical: Links, live: Live, a: Links, b: Links)
    requires Reconciled(physical, live, a) && Reconciled(physical, live, b)
    ensures a == b
  {
    forall n ensures (n in a <==> n in b) && (n in a ==> a[n] == b[n]) {
      assert ReconciledAt(physical, live, a, n) && ReconciledAt(physical, live, b, n);
    }
  }

  // ---- when names collide ----

  /** Adding a network keeps the host reconciled if and only if each link it shares by name is the same link. */
  lemma AddedExactly(physical: Links, live: Live, links: Links, key: string, net: Network)
    requires Reconciled(physical, live, links) && key !in live && Image(net).Keys !! physical.Keys
    ensures Reconciled(physical, live[key := net], LinksAfter(live, links, Added(key, net)))
       <==> forall k, x :: Owns(live, k, x) && x in Image(net) ==> Image(live[k])[x] == Image(net)[x]
  {
    hide Image;
    var after, now := live[key := net], LinksAfter(live, links, Added(key, net));
    forall k, x | Owns(live, k, x) && x in Image(net) ensures now[x] == Image(live[k])[x] {
      assert ReconciledAt(physical, live, links, x);
    }
    if Reconciled(physical, after, now) {
      forall k, x | Owns(live, k, x) && x in Image(net) ensures Image(live[k])[x] == Image(net)[x] {
        assert ReconciledAt(physical, after, now, x) && Owns(after, k, x) && Owns(after, key, x);
      }
    } else if forall k, x :: Owns(live, k, x) && x in Image(net) ==> Image(live[k])[x] == Image(net)[x] {
      forall x ensures ReconciledAt(physical, after, now, x) {
        AddedAt(physical, live, links, key, net, x);
      }
    }
  }

  lemma AddedAt(physical: Links, live: Live, links: Links, key: string, net: Network, x: string)
    requires ReconciledAt(physical, live, links, x) && key !in live && Image(net).Keys !! physical.Keys
    requires forall k :: Owns(live, k, x) && x in Image(net) ==> Image(live[k])[x] == Image(net)[x]
    ensures ReconciledAt(physical, live[key := net], LinksAfter(live, links, Added(key, net)), x)
  {
    hide Image;
    var after, now := live[key := net], LinksAfter(live, links, Added(key, net));
    if x in now && x !in physical {
      if x in Image(net) {
        assert Owns(after, key, x);
      } else {
        var k :| Owns(live, k, x);
        assert Owns(after, k, x);
      }
    }
  }

  /** Deleting a network keeps the host reconciled if and only if it shares no link name with another live one. */
  lemma DeletedExactly(physical: Links, live: Live, links: Links, key: string)
    requires Reconciled(physical, live, links) && key in live && Image(live[key]).Keys !! physical.Keys
    ensures Reconciled(physical, live - {key}, LinksAfter(live, links, Deleted(key)))
       <==> forall k :: k in live && k != key ==> Image(live[k]).Keys !! Image(live[key]).Keys
  {
    hide Image;
    var after, now := live - {key}, LinksAfter(live, links, Deleted(key));
    if Reconciled(physical, after, now) {
      forall k, x | k in live && k != key && x in Image(live[k]).Keys ensures x !in Image(live[key]).Keys {
        assert ReconciledAt(physical, after, now, x) && Owns(after, k, x);
      }
    } else if forall k :: k in live && k != key ==> Image(live[k]).Keys !! Image(live[key]).Keys {
      forall x ensures ReconciledAt(physical, after, now, x) {
        assert ReconciledAt(physical, live, links, x);
        if x in now && x !in physical {
          var k :| Owns(live, k, x);
          assert Owns(after, k, x);
        }
      }
    }
  }

  /**
    All TenantNetworks of one type are given one NetworkID.  The second of them with a VxLAN finds the
    name taken, and never gets an interface of its own.
   */
  lemma SecondVxlanIsMissing(physical: Links, live: Live, links: Links, j: string, key: string, net: Network)
    requires Reconciled(physical, live, links) && key !in live && Image(net).Keys !! physical.Keys
    requires j in live && live[j].networkId == net.networkId && HasVxlan(live[j]) && HasVxlan(net)
    requires live[j].vxlan != net.vxlan || live[j].device != net.device
    ensures !Reconciled(physical, live[key := net], LinksAfter(live, links, Added(key, net)))
    ensures VxlanName(net) in links && LinksAfter(live, links, Added(key, net))[VxlanName(net)] == links[VxlanName(net)]
    ensures links[VxlanName(net)] != Image(net)[VxlanName(net)]
  {
    OwnNamesDiffer(net.networkId, live[j].vlan);
    OwnNamesDiffer(net.networkId, net.vlan);
    assert ReconciledAt(physical, live, links, VxlanName(net)) && Owns(live, j, VxlanName(net));
    AddedExactly(physical, live, links, key, net);
  }

  /** A VLAN name is the id and its dot, behind which all are digits. */
  lemma VlanNamesMeetExactly(a: Network, b: Network)
    ensures VlanName(a) == VlanName(b) <==> a.networkId == b.networkId && a.vlan == b.vlan
  {
    if VlanName(a) == VlanName(b) {
      var p, q := a.networkId + ".", b.networkId + ".";
      PrefixAndNumber(p, q, Itoa(a.vlan), Itoa(b.vlan));
      assert p[..|p| - 1] == a.networkId && q[..|q| - 1] == b.networkId;
      ItoaInjective(a.vlan, b.vlan);
    }
  }

  lemma VxlanNamesMeetExactly(a: Network, b: Network)
    ensures VxlanName(a) == VxlanName(b) <==> a.networkId == b.networkId
  {
    assert VxlanName(a)[3..] == a.networkId && VxlanName(b)[3..] == b.networkId;
  }

  /** A VLAN of one network has the name of the other's VxLAN: the first id hides the prefix, the second the number. */
  predicate CrossCollision(a: Network, b: Network) {
    && HasVlan(a) && HasVxlan(b)
    && |a.networkId| >= 3 && a.networkId[..3] == "vx_" && b.networkId == a.networkId[3..] + "." + Itoa(a.vlan)
  }

  lemma CrossNamesMeetExactly(a: Network, b: Network)
    requires HasVlan(a) && HasVxlan(b)
    ensures VlanName(a) == VxlanName(b) <==> CrossCollision(a, b)
  {
    var id := a.networkId;
    assert VlanName(a)[|id|] == '.' && (|id| < 3 ==> VxlanName(b)[|id|] == "vx_"[|id|] != '.');
    assert VxlanName(b)[..3] == "vx_" && VxlanName(b)[3..] == b.networkId;
    if |id| >= 3 {
      assert VlanName(a)[..3] == id[..3] && VlanName(a)[3..] == id[3..] + "." + Itoa(a.vlan);
      assert VlanName(a) == VlanName(a)[..3] + VlanName(a)[3..];
    }
  }

  /**
    Exactly when two networks share a link name: they have one id and both a VxLAN, or one id and one
    VLAN, or one's VLAN name is the other's VxLAN name.
   */
  lemma LinkNamesCollideExactly(a: Network, b: Network)
    ensures !(Image(a).Keys !! Image(b).Keys) <==>
      || CrossCollision(a, b) || CrossCollision(b, a)
      || (a.networkId == b.networkId
          && ((HasVxlan(a) && HasVxlan(b)) || (HasVlan(a) && HasVlan(b) && a.vlan == b.vlan)))
  {
    VlanNamesMeetExactly(a, b);
    VxlanNamesMeetExactly(a, b);
    if HasVlan(a) && HasVxlan(b) {
      CrossNamesMeetExactly(a, b);
    }
    if HasVlan(b) && HasVxlan(a) {
      CrossNamesMeetExactly(b, a);
    }
    ImageNames(a);
    ImageNames(b);
    hide Image, VlanName, VxlanName;
    if HasVlan(a) && VlanName(a) in Image(b) {
      assert VlanName(a) in Image(a).Keys && VlanName(a) in Image(b).Keys;
    }
    if HasVxlan(a) && VxlanName(a) in Image(b) {
      assert VxlanName(a) in Image(a).Keys && VxlanName(a) in Image(b).Keys;
    }
  }

  lemma ImageNames(net: Network)
    ensures forall x :: x in Image(net) <==>
      (HasVlan(net) && x == VlanName(net)) || (HasVxlan(net) && x == VxlanName(net))
  {
  }

  /**
    Across kinds it takes a dot in the id behind "vx_": networks with different ids without dots
    never share a name.
   */
  lemma DotlessIdsNeverCollide(a: Network, b: Network)
    requires a.networkId != b.networkId && '.' !in a.networkId && '.' !in b.networkId
    ensures Image(a).Keys !! Image(b).Keys
  {
    LinkNamesCollideExactly(a, b);
    CrossNeedsDot(a, b);
    CrossNeedsDot(b, a);
  }

  lemma CrossNeedsDot(a: Network, b: Network)
    ensures CrossCollision(a, b) ==> '.' in b.networkId
  {
    if CrossCollision(a, b) {
      assert b.networkId[|a.networkId| - 3] == '.';
    }
  }

  /** With a dot they can: VLAN 5 of "vx_n" and the VxLAN of "n.5" are both named "vx_n.5". */
  lemma DottedIdsCollide(device: string, a: Network, b: Network)
    requires device != "" && a == Network("vx_n", device, 5, 0) && b == Network("n.5", device, 0, 7)
    ensures !(Image(a).Keys !! Image(b).Keys)
  {
    assert Itoa(5) == "5";
    assert VlanName(a) == "vx_" + ("n" + "." + "5") == VxlanName(b);
    assert VlanName(a) in Image(a) && VlanName(a) in Image(b);
  }
}
