/**
  The network manifest under admission, whose fields the validators overwrite, and what
  an admitted manifest guarantees to the allocator for ever after.
 */
module NetworkAdmission {
  import opened Wrappers
  import opened Addressing
  import opened Admission
  import Base64
  import C = Confman
  import G = IpamGuarantees
  import I = Ipam
  import P = IpamProtocol

  datatype Verdict = Accepted | Rejected | Panicked

  datatype Kind = DanmNet | ClusterNetwork | TenantNetwork

  // ---- what admission establishes ----

  /** A pool of an allocation subnet, with its bitmap in the initial state. */
  ghost predicate FreshPool(pool: I.Pool, alloc: I.Bitmap, nets: I.Subnets, gws: seq<Option<Ip>>) {
    if nets.L2? then alloc == I.Bitmap(0, {})
    else
      && I.InBounds(pool, alloc, nets)
      && alloc == FreshBitmap(nets.alloc, gws)
      && !GatewayPastEnd(gws, nets.alloc, BlockSize(nets.alloc))
      && EndsInside(nets.net, nets.alloc)
  }

  function StoredSize(nets: I.Subnets): nat
    requires nets.L3? ==> nets.alloc.prefix <= Width(nets.alloc.ip)
  {
    if nets.L2? then 0 else BlockSize(nets.alloc)
  }

  ghost predicate Admitted(net: P.Net, spec: P.Spec, gws4: seq<Option<Ip>>, gws6: seq<Option<Ip>>) {
    && FreshPool(P.Pool4(net, spec), spec.alloc4, net.nets4, gws4)
    && FreshPool(P.Pool6(net, spec), spec.alloc6, net.nets6, gws6)
    && (net.nets4.L3? ==> net.nets4.alloc.ip.V4? && net.nets4.alloc == net.nets4.net)
    && (net.nets6.L3? ==> net.nets6.alloc.ip.V6?)
    && StoredSize(net.nets4) + StoredSize(net.nets6) <= CAPACITY
  }

  /** IPv6 pools from 2^120 up, where indices print back as addresses. */
  predicate Printable(net: P.Net) { net.nets6.L3? ==> net.nets6.alloc.ip.n >= P120 }

  lemma FreshBitsInside(pool: I.Pool, alloc: I.Bitmap, nets: I.Subnets, gws: seq<Option<Ip>>, i: nat)
    requires FreshPool(pool, alloc, nets, gws) && i in alloc.on
    ensures i < alloc.size
  {
    var len := BlockSize(nets.alloc);
    RoundUp8Bounds(len);
    hide RoundUp8, BlockSize;
    if i == len {
      assert i in GatewayBits(gws, nets.alloc, len);
      assert len % 8 != 0;
    }
  }

  /** An admitted network meets the precondition of the allocator. */
  lemma AdmittedIsGood(net: P.Net, spec: P.Spec, gws4: seq<Option<Ip>>, gws6: seq<Option<Ip>>)
    requires Admitted(net, spec, gws4, gws6) && Printable(net)
    ensures P.GoodNet(net) && P.Good(net, spec)
  {
    hide FreshBitmap, GatewayPastEnd, BlockSize, I.Begin, I.End;
    forall i | i in spec.alloc4.on ensures i < spec.alloc4.size {
      FreshBitsInside(P.Pool4(net, spec), spec.alloc4, net.nets4, gws4, i);
    }
    forall i | i in spec.alloc6.on ensures i < spec.alloc6.size {
      FreshBitsInside(P.Pool6(net, spec), spec.alloc6, net.nets6, gws6, i);
    }
  }

  const SMALL := Cidr(V4(0x0A00_0000), 29)
  const HAND_MADE := I.Pool(V4(0x0A00_0004), V4(0x0A00_0006), I.Bare(V4(0x0A00_0002)))

  lemma SmallBlock()
    ensures BlockSize(SMALL) == 8 && ValidCidr(SMALL) && EndsInside(SMALL, SMALL)
    ensures FreshBitmap(SMALL, []) == I.Bitmap(8, {0, 7}) && !GatewayPastEnd([], SMALL, 8)
  {
    assert Pow2(3) == 8;
    NarrowedCidr(SMALL, 29);
  }

  lemma HandMadeIndices()
    ensures I.Begin(HAND_MADE, SMALL) == 4 && I.End(HAND_MADE, SMALL) == 6 && I.Cursor(HAND_MADE, SMALL) == 2
    ensures I.CyclicSearch({0, 7}, 4, 2, 6) == Some(2) && IpFromIndex(2, SMALL) == Some(V4(0x0A00_0002))
  {
    assert I.FirstClear({0, 7}, 2, 6) == Some(2);
  }

  /** No validator looks at lastIp: with 10.0.0.2 below the pool 10.0.0.4 to 10.0.0.6 the first Pod gets 10.0.0.2. */
  lemma LastIpBelowPool()
    ensures var net := P.Net(I.L3(SMALL, SMALL), HAND_MADE.start, HAND_MADE.end, I.L2, V6(0), V6(0));
      var spec := P.Spec(I.Bitmap(8, {0, 7}), HAND_MADE.last, I.Bitmap(0, {}), I.Empty);
      && Admitted(net, spec, [], []) && Printable(net) && ValidCidr(SMALL)
      && var r := I.AllocateAddress(P.Pool4(net, spec), spec.alloc4, I.Dynamic, net.nets4);
         r.Allocated? && r.address == I.At(Some(V4(0x0A00_0002)), 29)
  {
    SmallBlock();
    HandMadeIndices();
    hide FreshBitmap, GatewayPastEnd, BlockSize, EndsInside, ValidCidr, I.Begin, I.End, I.Cursor, I.CyclicSearch,
      IpFromIndex;
  }

  /** Addresses set aside from the start: the first and the last of the subnet, and the gateways in it. */
  ghost predicate SetAside(nets: I.Subnets, gws: seq<Option<Ip>>, ip: Ip)
    requires nets.L3? && ValidCidr(nets.alloc)
  {
    ip == nets.alloc.ip || ip == LastAddress(nets.alloc) || (Some(ip) in gws && Contains(nets.alloc, ip))
  }

  lemma SetAsideBit(pool: I.Pool, alloc: I.Bitmap, nets: I.Subnets, gws: seq<Option<Ip>>, ip: Ip)
    requires nets.L3? && FreshPool(pool, alloc, nets, gws) && SetAside(nets, gws, ip)
    ensures Contains(nets.alloc, ip) && IndexOfIp(Some(ip), nets.alloc) in alloc.on
  {
    ContainsIsInterval(nets.alloc, ip);
    IndexInSubnet(nets.alloc, ip);
  }

  /** From an accepted CREATE on, no run of Reserve and Free ever clears or hands out an address set aside. */
  lemma SetAsideForever(net: P.Net, spec: P.Spec, gws4: seq<Option<Ip>>, gws6: seq<Option<Ip>>,
                        events: seq<P.Event>, v6: bool, ip: Ip, pid: nat, v: nat)
    requires Admitted(net, spec, gws4, gws6) && Printable(net)
    requires P.GoodNet(net)
    requires G.SubnetsOf(net, v6).L3? && SetAside(G.SubnetsOf(net, v6), if v6 then gws6 else gws4, ip)
    requires v < |P.Run(net, P.Fresh(spec), events).hist|
    ensures var s := P.Run(net, P.Fresh(spec), events);
      && P.Res(v6, IndexOfIp(Some(ip), G.SubnetsOf(net, v6).alloc)) in P.Bits(s.hist[v])
      && P.Res(v6, IndexOfIp(Some(ip), G.SubnetsOf(net, v6).alloc)) !in P.HeldBits(net, P.Of(s, pid))
  {
    AdmittedIsGood(net, spec, gws4, gws6);
    var pool := if v6 then P.Pool6(net, spec) else P.Pool4(net, spec);
    SetAsideBit(pool, if v6 then spec.alloc6 else spec.alloc4, G.SubnetsOf(net, v6), if v6 then gws6 else gws4, ip);
    var r := P.Res(v6, IndexOfIp(Some(ip), G.SubnetsOf(net, v6).alloc));
    assert r in P.Bits(spec);
    G.ReservedStayReserved(net, spec, events, r, v, pid);
  }

  /** From an accepted CREATE on, every bit that any pass of any run reads or writes lies inside its bitmap. */
  lemma AdmittedIndicesSafe(net: P.Net, spec: P.Spec, gws4: seq<Option<Ip>>, gws6: seq<Option<Ip>>,
                            events: seq<P.Event>, pid: nat, v6: bool, ip: Ip)
    requires Admitted(net, spec, gws4, gws6) && Printable(net)
    requires P.GoodNet(net)
    requires P.Of(P.Run(net, P.Fresh(spec), events), pid).Running? && G.SubnetsOf(net, v6).L3?
    ensures var now := P.Of(P.Run(net, P.Fresh(spec), events), pid).cur.spec;
      var subnet := G.SubnetsOf(net, v6).alloc;
      var pool := if v6 then P.Pool6(net, now) else P.Pool4(net, now);
      var size := (if v6 then now.alloc6 else now.alloc4).size;
      && I.Begin(pool, subnet) < size && I.Cursor(pool, subnet) < I.End(pool, subnet) < size
      && (Contains(subnet, ip) ==> IndexOfIp(Some(ip), subnet) < size)
  {
    AdmittedIsGood(net, spec, gws4, gws6);
    G.IndicesSafeForever(net, spec, events, pid, v6, ip);
  }

  // ---- the manifest ----

  /** Exactly when the IPv4 fields are refused. */
  ghost predicate V4Refused(cidr: Text<Cidr>, start: Text<Ip>, end: Text<Ip>)
    requires GoodCidr(cidr)
  {
    if !cidr.Parsed? then !start.Blank? || !end.Blank?
    else
      || cidr.value.ip.V6? || cidr.value.prefix < MAX_V4_MASK_LENGTH
      || !PoolInside(cidr.value, DefaultStart(cidr.value, start), DefaultEnd(cidr.value, end))
  }

  /** Exactly when the IPv6 fields are refused, given the pool CIDR they end up with. */
  ghost predicate V6Refused(cidr: Text<Cidr>, net6: Text<Cidr>, cidr6: Text<Cidr>, start: Text<Ip>, end: Text<Ip>)
    requires GoodCidr(cidr) && GoodCidr(net6) && GoodCidr(cidr6)
  {
    if !net6.Parsed? then !start.Blank? || !end.Blank? || !cidr6.Blank?
    else
      || net6.value.ip.V4? || !cidr6.Parsed? || cidr6.value.ip.V4?
      || cidr6.value.prefix == 128 || OverCapacity(cidr, cidr6.value)
      || !EndsInside(net6.value, cidr6.value)
      || !PoolInside(cidr6.value, DefaultStart(cidr6.value, start), DefaultEnd(cidr6.value, end))
  }

  /** A gateway lies one past an IPv6 pool that fills its bitmap. */
  ghost predicate GatewayOnePast(net6: Text<Cidr>, cidr6: Text<Cidr>, routes6: Option<seq<Option<Ip>>>)
    requires GoodCidr(cidr6)
  {
    net6.Parsed? && cidr6.Parsed? && GatewayPastEnd(Gateways(routes6), cidr6.value, BlockSize(cidr6.value))
  }

  /** What validateIpFields lets through. */
  ghost predicate IpFieldsOk(cidr: Text<Cidr>, routes: Option<seq<Option<Ip>>>)
    requires GoodCidr(cidr)
  {
    || (cidr.Blank? && routes.None?)
    || (cidr.Parsed? && forall gw :: gw in Gateways(routes) ==> ContainsIp(cidr.value, gw))
  }

  class Manifest {
    var kind: Kind
    var networkId: string
    var networkType: string
    var allowedTenants: Option<seq<string>>
    var device: string
    var devicePool: string
    var vlan: nat
    var vxlan: nat

    var cidr: Text<Cidr>
    var start: Text<Ip>
    var end: Text<Ip>
    var lastIp: I.LastIp
    var alloc: string
    var routes: Option<seq<Option<Ip>>>

    var net6: Text<Cidr>
    var cidr6: Text<Cidr>
    var start6: Text<Ip>
    var end6: Text<Ip>
    var lastIp6: I.LastIp
    var alloc6: string
    var routes6: Option<seq<Option<Ip>>>

    /** Parsing yields masked addresses of the right width. */
    ghost predicate WellFormed()
      reads this
    {
      GoodCidr(cidr) && GoodCidr(net6) && GoodCidr(cidr6)
    }

    /** validateAllocV4. */
    method ValidateAllocV4() returns (verdict: Verdict)
      requires WellFormed() && !cidr.Malformed?
      modifies this`start, this`end, this`alloc
      ensures verdict.Rejected? ==> V4Refused(cidr, old(start), old(end))
      ensures verdict.Accepted? ==> !V4Refused(cidr, old(start), old(end))
      ensures verdict.Panicked? ==> cidr.Parsed? && GatewayPastEnd(Gateways(routes), cidr.value, BlockSize(cidr.value))
      ensures verdict.Panicked? ==> cidr.value.ip.V4? && cidr.value.prefix >= MAX_V4_MASK_LENGTH
      ensures cidr.Blank? ==> alloc == old(alloc)
      ensures verdict.Accepted? && cidr.Parsed? ==>
        && start == DefaultStart(cidr.value, old(start)) && end == DefaultEnd(cidr.value, old(end))
        && (old(alloc) == "" ==> I.Canonical(alloc) && I.Persisted(alloc) == FreshBitmap(cidr.value, Gateways(routes)))
        && (old(alloc) == "" ==> !GatewayPastEnd(Gateways(routes), cidr.value, BlockSize(cidr.value)))
    {
      hide FreshBitmap, GatewayPastEnd, I.Canonical, I.Persisted;
      if cidr.Blank? {
        if start != Blank || end != Blank {
          return Rejected;
        }
        return Accepted;
      }
      var ipnet := cidr.value;
      if ipnet.ip.V6? {
        return Rejected;
      }
      if ipnet.prefix < MAX_V4_MASK_LENGTH {
        return Rejected;
      }
      var s, e, a := InitAllocPool(cidr, start, end, alloc, Gateways(routes));
      if a.None? {
        return Panicked;
      }
      start, end, alloc := s, e, a.value;
      if !ContainsIp(ipnet, ParsedIp(start)) || !ContainsIp(ipnet, ParsedIp(end)) {
        return Rejected;
      }
      SameInts(ipnet, start.value, end.value);
      if Ip2Int(end.value) <= Ip2Int(start.value) {
        return Rejected;
      }
      return Accepted;
    }

    /** InitV6PoolCidr: the pool starts at the base of Net6, with the longer of its prefix and the usable one. */
    method InitV6PoolCidr()
      requires WellFormed() && !cidr.Malformed? && (net6.Blank? || (net6.Parsed? && net6.value.ip.V6?))
      modifies this`cidr6
      ensures WellFormed()
      ensures old(cidr6) != Blank || net6.Blank? ==> cidr6 == old(cidr6)
      ensures old(cidr6) == Blank && net6.Parsed? ==>
        && cidr6.Parsed? && cidr6.value.ip == net6.value.ip && EndsInside(net6.value, cidr6.value)
        && exists usable: nat :: IsMaxUsablePrefix(cidr, usable)
             && cidr6.value.prefix == if usable < net6.value.prefix then net6.value.prefix else usable
      ensures (cidr.Parsed? ==> cidr.value.ip.V4? && cidr.value.prefix >= MAX_V4_MASK_LENGTH) ==>
        cidr6 == PoolCidr(cidr, net6, old(cidr6))
    {
      if net6.Blank? || cidr6 != Blank {
        return;
      }
      var pool6CidrPrefix := GetMaxUsableV6Prefix(cidr);
      ghost var usable := pool6CidrPrefix;
      if pool6CidrPrefix < net6.value.prefix {
        pool6CidrPrefix := net6.value.prefix;
      }
      if cidr.Parsed? ==> cidr.value.ip.V4? && cidr.value.prefix >= MAX_V4_MASK_LENGTH {
        UsablePrefixExactly(cidr, usable);
      }
      NarrowedCidr(net6.value, pool6CidrPrefix);
      cidr6 := Parsed(Cidr(net6.value.ip, pool6CidrPrefix));
    }

    /** The last part of validateAllocV6, for a pool of storable size. */
    method FillV6Pool(netCidr: Cidr, allocCidr: Cidr) returns (verdict: Verdict)
      requires ValidCidr(netCidr) && ValidCidr(allocCidr) && netCidr.ip.V6? && allocCidr.ip.V6?
      requires allocCidr.prefix < 128
      requires BlockSize(allocCidr) <= CAPACITY
      modifies this`start6, this`end6, this`alloc6
      ensures verdict.Accepted? ==>
        && EndsInside(netCidr, allocCidr)
        && start6 == DefaultStart(allocCidr, old(start6)) && end6 == DefaultEnd(allocCidr, old(end6))
        && PoolInside(allocCidr, start6, end6)
        && (old(alloc6) == "" ==>
              I.Canonical(alloc6) && I.Persisted(alloc6) == FreshBitmap(allocCidr, Gateways(routes6)))
        && (old(alloc6) == "" ==> !GatewayPastEnd(Gateways(routes6), allocCidr, BlockSize(allocCidr)))
      ensures verdict.Panicked? ==> GatewayPastEnd(Gateways(routes6), allocCidr, BlockSize(allocCidr))
      ensures verdict.Rejected? ==>
        || !EndsInside(netCidr, allocCidr)
        || !PoolInside(allocCidr, DefaultStart(allocCidr, old(start6)), DefaultEnd(allocCidr, old(end6)))
    {
      hide FreshBitmap, GatewayPastEnd, I.Canonical, I.Persisted, EndsInside;
      if (start6 != Blank && !ContainsIp(allocCidr, ParsedIp(start6)))
        || (end6 != Blank && !ContainsIp(allocCidr, ParsedIp(end6)))
        || !EndsInside(netCidr, allocCidr)
      {
        return Rejected;
      }
      DefaultsInside(allocCidr);
      StorableWidth(allocCidr);
      var s, e, a := InitAllocPool(Parsed(allocCidr), start6, end6, alloc6, Gateways(routes6));
      if a.None? {
        return Panicked;
      }
      start6, end6, alloc6 := s, e, a.value;
      if Ip62Int(end6.value) <= Ip62Int(start6.value) {
        return Rejected;
      }
      return Accepted;
    }

    /** validateAllocV6, after validateAllocV4 has accepted. */
    method ValidateAllocV6() returns (verdict: Verdict)
      requires WellFormed() && !cidr.Malformed? && !net6.Malformed?
      requires cidr.Parsed? ==> cidr.value.ip.V4? && cidr.value.prefix >= MAX_V4_MASK_LENGTH
      modifies this`cidr6, this`start6, this`end6, this`alloc6
      ensures WellFormed()
      ensures net6.Blank? ==> alloc6 == old(alloc6) && cidr6 == old(cidr6)
      ensures var pool := PoolCidr(cidr, net6, old(cidr6));
        && (verdict.Rejected? ==> V6Refused(cidr, net6, pool, old(start6), old(end6)))
        && (verdict.Accepted? ==> cidr6 == pool && !V6Refused(cidr, net6, pool, old(start6), old(end6)))
        && (verdict.Panicked? ==> GatewayOnePast(net6, pool, routes6))
      ensures verdict.Accepted? && net6.Parsed? ==>
        && start6 == DefaultStart(cidr6.value, old(start6)) && end6 == DefaultEnd(cidr6.value, old(end6))
        && (old(alloc6) == "" ==>
              I.Canonical(alloc6) && I.Persisted(alloc6) == FreshBitmap(cidr6.value, Gateways(routes6)))
        && (old(alloc6) == "" ==> !GatewayPastEnd(Gateways(routes6), cidr6.value, BlockSize(cidr6.value)))
    {
      hide FreshBitmap, GatewayPastEnd, I.Canonical, I.Persisted, EndsInside, IsMaxUsablePrefix, PoolInside,
        DefaultStart, DefaultEnd;
      if net6.Blank? {
        if start6 != Blank || end6 != Blank || cidr6 != Blank {
          return Rejected;
        }
        return Accepted;
      }
      var netCidr := net6.value;
      if netCidr.ip.V4? {
        return Rejected;
      }
      var maxV6AllocPrefix := GetMaxUsableV6Prefix(cidr);
      InitV6PoolCidr();
      if cidr6.Malformed? {
        return Rejected;
      }
      var allocCidr := cidr6.value;
      if allocCidr.ip.V4? {
        return Rejected;
      }
      CapacityCheckIsExact(cidr, maxV6AllocPrefix, allocCidr.prefix);
      assert BlockSize(allocCidr) == V6Block(allocCidr.prefix) by { BlockOfV6(allocCidr); }
      if allocCidr.prefix < maxV6AllocPrefix || allocCidr.prefix == MIN_V6_PREFIX_LENGTH {
        return Rejected;
      }
      verdict := FillV6Pool(netCidr, allocCidr);
    }

    // ---- the whole CREATE ----

    function AsTnet(): C.Tnet
      reads this
    {
      C.Tnet(device, devicePool, vlan, vxlan)
    }

    ghost function NetOf(): P.Net
      reads this
    {
      P.Net(SubnetsOf(cidr, cidr), IpOf(start), IpOf(end), SubnetsOf(cidr6, net6), IpOf(start6), IpOf(end6))
    }

    ghost function SpecOf(): P.Spec
      reads this
    {
      P.Spec(I.Persisted(alloc), lastIp, I.Persisted(alloc6), lastIp6)
    }

    /** validateNeType. */
    ghost predicate NeTypeOk()
      reads this
    {
      if networkType == "sriov" then devicePool != "" && device == "" else device == "" || devicePool == ""
    }

    method ValidateNeType() returns (ok: bool)
      ensures ok <==> NeTypeOk()
    {
      if networkType == "sriov" {
        if devicePool == "" || device != "" {
          return false;
        }
      } else if device != "" && devicePool != "" {
        return false;
      }
      return true;
    }

    /** validateVids, and validateTenantNetRules for TenantNetworks. */
    ghost predicate VnisOk()
      reads this
    {
      if kind.TenantNetwork? then vlan == 0 && vxlan == 0 else vlan == 0 || vxlan == 0
    }

    method ValidateVids() returns (ok: bool)
      ensures ok <==> VnisOk()
    {
      var isVlanDefined, isVxlanDefined := vlan != 0, vxlan != 0;
      if kind.TenantNetwork? {
        return !isVlanDefined && !isVxlanDefined;
      }
      return !(isVlanDefined && isVxlanDefined);
    }

    /** validateNetworkId, which a TenantNetwork only meets after it was given its NetworkID. */
    ghost predicate NetworkIdOk()
      reads this
    {
      kind.TenantNetwork? ||
      (networkId != "" && (|networkId| <= MAX_NID_LENGTH || !DynamicType(networkType) || (vlan == 0 && vxlan == 0)))
    }

    method ValidateNetworkId() returns (ok: bool)
      requires !kind.TenantNetwork?
      ensures ok <==> NetworkIdOk()
    {
      if networkId == "" {
        return false;
      }
      if |networkId| > MAX_NID_LENGTH && IsTypeDynamic(networkType) && (vxlan != 0 || vlan != 0) {
        return false;
      }
      return true;
    }

    /** validateAbsenceOfAllowedTenants. */
    ghost predicate TenantsOk()
      reads this
    {
      kind.ClusterNetwork? || allowedTenants.None?
    }

    /** The validators of a CREATE that only look at fields of their own. */
    ghost predicate FieldsOk()
      reads this
    {
      VnisOk() && NetworkIdOk() && TenantsOk() && NeTypeOk()
    }

    /** They are run one after the other, each for the kinds that have it. */
    method ValidateFields() returns (ok: bool)
      ensures ok <==> FieldsOk()
    {
      ok := ValidateVids();
      if ok && !kind.TenantNetwork? {
        ok := ValidateNetworkId();
      }
      if ok && !kind.ClusterNetwork? {
        ok := allowedTenants.None?;
      }
      if ok {
        ok := ValidateNeType();
      }
    }

    /**
      validateNetworkByType on CREATE, decided by the manifest as it was sent: it is accepted if there is no
      reason to refuse it and no gateway one past the pool; with such a gateway and no reason to refuse it, it
      panics.  The pool fields are the only ones it writes.
     */
    method ValidateCreate() returns (verdict: Verdict)
      requires WellFormed()
      modifies this`start, this`end, this`alloc, this`cidr6, this`start6, this`end6, this`alloc6
      ensures WellFormed()
      ensures var pool := PoolCidr(cidr, net6, old(cidr6));
        var refused :=
          || !IpFieldsOk(cidr, routes) || !IpFieldsOk(net6, routes6) || old(alloc) != "" || old(alloc6) != ""
          || V4Refused(cidr, old(start), old(end)) || V6Refused(cidr, net6, pool, old(start6), old(end6))
          || !FieldsOk();
        && (verdict.Accepted? <==> !refused && !GatewayOnePast(net6, pool, routes6))
        && (verdict.Panicked? ==> GatewayOnePast(net6, pool, routes6)) && (verdict.Rejected? ==> refused)
        && (verdict.Accepted? ==> cidr6 == pool)
      ensures verdict.Accepted? && cidr.Parsed? ==>
        start == DefaultStart(cidr.value, old(start)) && end == DefaultEnd(cidr.value, old(end))
      ensures verdict.Accepted? && net6.Parsed? ==>
        start6 == DefaultStart(cidr6.value, old(start6)) && end6 == DefaultEnd(cidr6.value, old(end6))
      ensures verdict.Accepted? ==> Admitted(NetOf(), SpecOf(), Gateways(routes), Gateways(routes6))
      ensures verdict.Accepted? && kind.TenantNetwork? ==> C.Admissible(AsTnet())
    {
      hide FreshBitmap, GatewayPastEnd, I.Canonical, I.Persisted, EndsInside, PoolInside, DefaultStart, DefaultEnd,
        BlockSize, FreshPool;
      var ok4 := ValidateIpFields(cidr, routes);
      var ok6 := ValidateIpFields(net6, routes6);
      if !ok4 || !ok6 || alloc != "" || alloc6 != "" {
        return Rejected;
      }
      verdict := ValidateAllocV4();
      if cidr.Parsed? {
        NoPanicBelowNine(cidr.value, Gateways(routes));
      }
      if !verdict.Accepted? {
        return;
      }
      verdict := ValidateAllocV6();
      if !verdict.Accepted? {
        return;
      }
      var fieldsOk := ValidateFields();
      if !fieldsOk {
        return Rejected;
      }
      if cidr.Parsed? {
        StorableV4(cidr.value);
      }
      AcceptedFamily(cidr, cidr, start, end, alloc, Gateways(routes), lastIp);
      AcceptedFamily(net6, cidr6, start6, end6, alloc6, Gateways(routes6), lastIp6);
    }
  }

  ghost function IpOf(text: Text<Ip>): Ip { if text.Parsed? then text.value else V4(0) }

  ghost function SubnetsOf(alloc: Text<Cidr>, net: Text<Cidr>): I.Subnets {
    if alloc.Parsed? && net.Parsed? then I.L3(alloc.value, net.value) else I.L2
  }

  lemma EmptyText()
    ensures I.Persisted("") == I.Bitmap(0, {})
  {
  }

  lemma StorableV4(v4: Cidr)
    requires ValidCidr(v4) && v4.ip.V4? && v4.prefix >= MAX_V4_MASK_LENGTH
    ensures BlockSize(v4) <= CAPACITY && EndsInside(v4, v4)
  {
    BlockIsStorable(32 - v4.prefix);
    NarrowedCidr(v4, v4.prefix);
  }

  /** The gateways of an IPv4 network lie in it, so its initialisation never panics. */
  lemma NoPanicBelowNine(v4: Cidr, gws: seq<Option<Ip>>)
    requires ValidCidr(v4) && forall gw :: gw in gws ==> ContainsIp(v4, gw)
    ensures v4.ip.V4? && v4.prefix >= MAX_V4_MASK_LENGTH ==> !GatewayPastEnd(gws, v4, BlockSize(v4))
  {
    if v4.ip.V4? && v4.prefix >= MAX_V4_MASK_LENGTH {
      StorableV4(v4);
      GatewaysInsideFit(gws, v4);
    }
  }

  /** What the validators of one family leave behind when they accept. */
  ghost predicate FamilyAccepted(net: Text<Cidr>, subnet: Text<Cidr>, start: Text<Ip>, end: Text<Ip>, alloc: string,
          gws: seq<Option<Ip>>)
  {
    if net.Parsed? then
      && subnet.Parsed? && ValidCidr(subnet.value) && ValidCidr(net.value) && EndsInside(net.value, subnet.value)
      && BlockSize(subnet.value) <= CAPACITY && PoolInside(subnet.value, start, end)
      && I.Persisted(alloc) == FreshBitmap(subnet.value, gws)
      && !GatewayPastEnd(gws, subnet.value, BlockSize(subnet.value))
    else alloc == ""
  }

  lemma AcceptedFamily(net: Text<Cidr>, subnet: Text<Cidr>, start: Text<Ip>, end: Text<Ip>, alloc: string,
          gws: seq<Option<Ip>>, last: I.LastIp)
    requires FamilyAccepted(net, subnet, start, end, alloc, gws)
    ensures FreshPool(I.Pool(IpOf(start), IpOf(end), last), I.Persisted(alloc), SubnetsOf(subnet, net), gws)
  {
    hide GatewayPastEnd, EndsInside, I.Persisted, I.Begin, I.End;
    if net.Parsed? {
      PoolIndices(subnet.value, I.Pool(start.value, end.value, last));
      RoundUp8Bounds(BlockSize(subnet.value));
    } else {
      EmptyText();
    }
  }

  lemma SameInts(c: Cidr, a: Ip, b: Ip)
    requires ValidCidr(c) && c.ip.V4? && Contains(c, a) && Contains(c, b)
    ensures Ip2Int(a) == a.n && Ip2Int(b) == b.n
  {
    BlockFits(c);
    ContainsIsInterval(c, a);
    ContainsIsInterval(c, b);
    SmallModulo(a.n);
    SmallModulo(b.n);
  }
}
