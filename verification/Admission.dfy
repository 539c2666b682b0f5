/**
  Admission of a network manifest: the checks of pkg/admit/validators.go and the pool
  initialisers of pkg/ipam, which fill in pools and bitmaps as they go.
 */
module Admission {
  import opened Wrappers
  import opened Addressing
  import Base64
  import BitArrays
  import Confman
  import I = Ipam

  const MAX_V4_MASK_LENGTH := 9
  const MAX_V6_PREFIX_LENGTH := 105
  const MIN_V6_PREFIX_LENGTH := 128
  const MAX_SUPPORTED_ALLOC_LENGTH := 23
  /** 2^23, the number of addresses of both families that one network object can store. */
  const CAPACITY := 0x80_0000
  const P64 := 0x1_0000_0000_0000_0000
  const MAX_NID_LENGTH := 10

  /** A manifest field: left empty, a text that does not parse, or what it parses to. */
  datatype Text<T> = Blank | Malformed | Parsed(value: T)

  function ParsedIp(text: Text<Ip>): Option<Ip> { if text.Parsed? then Some(text.value) else None }

  /** IPNet.Contains, which is false of nil. */
  predicate ContainsIp(c: Cidr, ip: Option<Ip>)
    requires c.prefix <= Width(c.ip)
  {
    ip.Some? && Contains(c, ip.value)
  }

  ghost predicate GoodCidr(text: Text<Cidr>) { text.Parsed? ==> ValidCidr(text.value) }

  // ---- network types ----

  function LowerCase(c: char): char { if 'A' <= c <= 'Z' then c - 'A' + 'a' else c }

  function ToLower(s: string): string { seq(|s|, i requires 0 <= i < |s| => LowerCase(s[i])) }

  /** The text is the other one with some letters in upper case. */
  ghost predicate Spells(s: string, t: string) {
    |s| == |t| && forall i :: 0 <= i < |s| ==> s[i] == t[i] || ('A' <= s[i] <= 'Z' && s[i] as int + 32 == t[i] as int)
  }

  /** The backends whose devices and VNIs DANM itself manages. */
  ghost predicate DynamicType(cniType: string) {
    Spells(cniType, "sriov") || Spells(cniType, "macvlan") || Spells(cniType, "ipvlan") || cniType == ""
  }

  lemma SpellsLower(s: string, t: string)
    requires forall i :: 0 <= i < |t| ==> 'a' <= t[i] <= 'z'
    ensures Spells(s, t) <==> ToLower(s) == t
  {
    if Spells(s, t) {
      assert forall i :: 0 <= i < |s| ==> ToLower(s)[i] == t[i];
    }
    if ToLower(s) == t {
      assert forall i :: 0 <= i < |s| ==> ToLower(s)[i] == LowerCase(s[i]);
    }
  }

  predicate IsTypeDynamic(cniType: string): (dynamic: bool)
    ensures dynamic <==> DynamicType(cniType)
  {
    SpellsLower(cniType, "sriov");
    SpellsLower(cniType, "macvlan");
    SpellsLower(cniType, "ipvlan");
    ToLower(cniType) in ["sriov", "macvlan", "", "ipvlan"]
  }

  // ---- gateways ----

  /** The gateways of a routes field; nil has none. */
  function Gateways(routes: Option<seq<Option<Ip>>>): seq<Option<Ip>> { if routes.None? then [] else routes.value }

  method ValidateIpFields(cidr: Text<Cidr>, routes: Option<seq<Option<Ip>>>) returns (ok: bool)
    requires GoodCidr(cidr)
    ensures ok <==>
      || (cidr.Blank? && routes.None?)
      || (cidr.Parsed? && forall gw :: gw in Gateways(routes) ==> ContainsIp(cidr.value, gw))
  {
    if cidr.Blank? {
      return routes.None?;
    }
    if cidr.Malformed? {
      return false;
    }
    var gws := Gateways(routes);
    for i := 0 to |gws|
      invariant forall j :: 0 <= j < i ==> ContainsIp(cidr.value, gws[j])
    {
      if !ContainsIp(cidr.value, gws[i]) {
        return false;
      }
    }
    return true;
  }

  function RoundUp8(n: nat): nat { (n + 7) / 8 * 8 }

  lemma RoundUp8Bounds(n: nat)
    ensures n <= RoundUp8(n) && (n % 8 != 0 ==> n < RoundUp8(n))
  {
  }

  /** The positions reserved for gateways: those up to and including the length of the bitmap. */
  ghost function GatewayBits(gws: seq<Option<Ip>>, subnet: Cidr, len: nat): set<nat> {
    set gw | gw in gws && IndexOfIp(gw, subnet) <= len :: IndexOfIp(gw, subnet)
  }

  /** The position one past a bitmap without spare bits is not there to be set. */
  ghost predicate GatewayPastEnd(gws: seq<Option<Ip>>, subnet: Cidr, len: nat) {
    len % 8 == 0 && exists gw :: gw in gws && IndexOfIp(gw, subnet) == len
  }

  lemma GatewaysUpTo(gws: seq<Option<Ip>>, i: nat, subnet: Cidr, len: nat)
    requires i < |gws|
    ensures GatewayBits(gws[..i + 1], subnet, len) == GatewayBits(gws[..i], subnet, len) +
      if IndexOfIp(gws[i], subnet) <= len then {IndexOfIp(gws[i], subnet)} else {}
  {
  }

  /** reserveGatewayIps; the Go code panics where this method says so. */
  method ReserveGatewayIps(gws: seq<Option<Ip>>, bitArray: BitArrays.BitArray, subnet: Cidr) returns (panic: bool)
    requires bitArray.Valid() && 8 * bitArray.data.Length == RoundUp8(bitArray.len)
    modifies bitArray.data
    ensures panic <==> GatewayPastEnd(gws, subnet, bitArray.len)
    ensures !panic ==> bitArray.On() == old(bitArray.On()) + GatewayBits(gws, subnet, bitArray.len)
  {
    for i := 0 to |gws|
      invariant bitArray.On() == old(bitArray.On()) + GatewayBits(gws[..i], subnet, bitArray.len)
      invariant forall j :: 0 <= j < i ==> !(bitArray.len % 8 == 0 && IndexOfIp(gws[j], subnet) == bitArray.len)
    {
      GatewaysUpTo(gws, i, subnet, bitArray.len);
      var gatewayPosition := IndexOfIp(gws[i], subnet);
      if gatewayPosition <= bitArray.len {
        if gatewayPosition >= 8 * bitArray.data.Length {
          assert gws[i] in gws;
          return true;
        }
        bitArray.Set(gatewayPosition);
      }
    }
    assert gws[..|gws|] == gws;
    return false;
  }

  // ---- bitmaps and pools ----

  method CreateBitArrayFromIpnet(subnet: Cidr) returns (arr: Option<BitArrays.BitArray>)
    requires ValidCidr(subnet)
    ensures arr.None? <==> Width(subnet.ip) - subnet.prefix > MAX_SUPPORTED_ALLOC_LENGTH
    ensures arr.Some? ==> fresh(arr.value) && fresh(arr.value.data) && arr.value.Valid()
    ensures arr.Some? ==> arr.value.len == BlockSize(subnet) && 8 * arr.value.data.Length == RoundUp8(BlockSize(subnet))
    ensures arr.Some? ==> arr.value.On() == {0, BlockSize(subnet) - 1}
  {
    var baLength := Width(subnet.ip) - subnet.prefix;
    if baLength > MAX_SUPPORTED_ALLOC_LENGTH {
      return None;
    }
    BlockIsStorable(baLength);
    var bitArray := BitArrays.NewBitArray(Pow2(baLength));
    bitArray.value.Set(Pow2(baLength) - 1);
    return bitArray;
  }

  lemma BlockIsStorable(k: nat)
    requires k <= MAX_SUPPORTED_ALLOC_LENGTH
    ensures Pow2(k) <= CAPACITY
  {
    Pow2Values();
    Pow2Monotone(k, 23);
  }

  /** The bitmap of a new network: the first and the last address, and the gateways. */
  ghost function FreshBitmap(subnet: Cidr, gws: seq<Option<Ip>>): I.Bitmap
    requires subnet.prefix <= Width(subnet.ip)
  {
    I.Bitmap(RoundUp8(BlockSize(subnet)), {0, BlockSize(subnet) - 1} + GatewayBits(gws, subnet, BlockSize(subnet)))
  }

  ghost predicate CreationPanics(subnet: Cidr, gws: seq<Option<Ip>>)
    requires subnet.prefix <= Width(subnet.ip)
  {
    || Width(subnet.ip) - subnet.prefix > MAX_SUPPORTED_ALLOC_LENGTH
    || GatewayPastEnd(gws, subnet, BlockSize(subnet))
  }

  /** CreateAllocationArray; None where the Go code panics. */
  method CreateAllocationArray(subnet: Cidr, gws: seq<Option<Ip>>) returns (text: Option<string>)
    requires ValidCidr(subnet)
    ensures text.None? <==> CreationPanics(subnet, gws)
    ensures text.Some? ==> I.Canonical(text.value) && I.Persisted(text.value) == FreshBitmap(subnet, gws)
  {
    hide GatewayPastEnd, I.Canonical, I.Persisted, Base64.Encode, GatewayBits, BlockSize, BitArrays.Positions;
    var bitArray := CreateBitArrayFromIpnet(subnet);
    if bitArray.None? {
      return None;
    }
    var panic := ReserveGatewayIps(gws, bitArray.value, subnet);
    if panic {
      return None;
    }
    var encoded := bitArray.value.Encode();
    I.EncodePersists(bitArray.value.data[..]);
    return Some(encoded);
  }

  function Successor(ip: Ip): Ip { ip.(n := (ip.n + 1) % if ip.V4? then P32 else P128) }
  function Predecessor(ip: Ip): Ip { ip.(n := (ip.n - 1) % if ip.V4? then P32 else P128) }

  function DefaultStart(subnet: Cidr, start: Text<Ip>): Text<Ip> {
    if start.Blank? then Parsed(Successor(subnet.ip)) else start
  }

  function DefaultEnd(subnet: Cidr, end: Text<Ip>): Text<Ip>
    requires subnet.prefix <= Width(subnet.ip)
  {
    if end.Blank? then Parsed(Predecessor(LastAddress(subnet))) else end
  }

  /** Exactly when InitAllocPool brings the webhook down. */
  ghost predicate InitPanics(cidr: Text<Cidr>, alloc: string, gws: seq<Option<Ip>>)
    requires GoodCidr(cidr)
  {
    cidr.Parsed? && alloc == "" && CreationPanics(cidr.value, gws)
  }

  /** Without a CIDR the fields stay as they are. */
  method InitAllocPool(cidr: Text<Cidr>, start: Text<Ip>, end: Text<Ip>, alloc: string, gws: seq<Option<Ip>>)
    returns (start': Text<Ip>, end': Text<Ip>, alloc': Option<string>)
    requires GoodCidr(cidr) && !cidr.Malformed?
    ensures alloc'.None? <==> InitPanics(cidr, alloc, gws)
    ensures cidr.Blank? ==> start' == start && end' == end
    ensures cidr.Parsed? ==> start' == DefaultStart(cidr.value, start) && end' == DefaultEnd(cidr.value, end)
    ensures cidr.Blank? || alloc != "" ==> alloc' == Some(alloc)
    ensures cidr.Parsed? && alloc == "" && alloc'.Some? ==>
      I.Canonical(alloc'.value) && I.Persisted(alloc'.value) == FreshBitmap(cidr.value, gws)
  {
    start', end', alloc' := start, end, Some(alloc);
    if cidr.Blank? {
      return;
    }
    var subnet := cidr.value;
    if start == Blank {
      start' := Parsed(Successor(subnet.ip));
    }
    if end == Blank {
      end' := Parsed(Predecessor(LastAddress(subnet)));
    }
    if alloc == "" {
      alloc' := CreateAllocationArray(subnet, gws);
    }
  }

  /** What is required of a pool: both ends inside the allocation subnet, the first before the last. */
  ghost predicate PoolInside(subnet: Cidr, start: Text<Ip>, end: Text<Ip>)
    requires subnet.prefix <= Width(subnet.ip)
  {
    ContainsIp(subnet, ParsedIp(start)) && ContainsIp(subnet, ParsedIp(end)) && start.value.n < end.value.n
  }

  /** Pool ends inside the subnet, in order, are indices in order inside its block. */
  lemma PoolIndices(subnet: Cidr, pool: I.Pool)
    requires ValidCidr(subnet) && BlockSize(subnet) <= P32
    requires Contains(subnet, pool.start) && Contains(subnet, pool.end) && pool.start.n < pool.end.n
    ensures I.Begin(pool, subnet) == pool.start.n - subnet.ip.n && I.End(pool, subnet) == pool.end.n - subnet.ip.n
    ensures I.Begin(pool, subnet) < I.End(pool, subnet) < BlockSize(subnet)
  {
    IndexInSubnet(subnet, pool.start);
    IndexInSubnet(subnet, pool.end);
    ContainsIsInterval(subnet, pool.start);
    ContainsIsInterval(subnet, pool.end);
  }

  /** The second and the last but one address, chosen by default, lie in the subnet, unless it has a single address. */
  lemma DefaultsInside(subnet: Cidr)
    requires ValidCidr(subnet) && subnet.prefix < Width(subnet.ip)
    ensures DefaultStart(subnet, Blank) == Parsed(subnet.ip.(n := subnet.ip.n + 1))
    ensures DefaultEnd(subnet, Blank) == Parsed(subnet.ip.(n := subnet.ip.n + BlockSize(subnet) - 2))
    ensures Contains(subnet, Successor(subnet.ip)) && Contains(subnet, Predecessor(LastAddress(subnet)))
  {
    BlockFits(subnet);
    var size := BlockSize(subnet);
    assert size == 2 * Pow2(Width(subnet.ip) - subnet.prefix - 1);
    InRange(subnet.ip.n + 1, if subnet.ip.V4? then P32 else P128);
    InRange(subnet.ip.n + size - 2, if subnet.ip.V4? then P32 else P128);
    ContainsIsInterval(subnet, Successor(subnet.ip));
    ContainsIsInterval(subnet, Predecessor(LastAddress(subnet)));
  }

  lemma InRange(n: nat, m: nat)
    requires n < m
    ensures n % m == n
  {
  }

  /** Gateways inside the subnet never run past the bitmap. */
  lemma GatewaysInsideFit(gws: seq<Option<Ip>>, subnet: Cidr)
    requires ValidCidr(subnet) && BlockSize(subnet) <= P32
    requires forall gw :: gw in gws ==> ContainsIp(subnet, gw)
    ensures !GatewayPastEnd(gws, subnet, BlockSize(subnet))
  {
    forall gw | gw in gws ensures IndexOfIp(gw, subnet) < BlockSize(subnet) {
      IndexInSubnet(subnet, gw.value);
    }
  }

  /**
    An IPv6 gateway only has to lie in Net6.  One that lies exactly one block past the pool
    passes that check and brings CreateAllocationArray down.
   */
  lemma GatewayOnePastPoolPanics(net6: Cidr, pool: Cidr, gw: Ip)
    requires ValidCidr(net6) && ValidCidr(pool) && pool.ip.V6? && gw == pool.ip.(n := pool.ip.n + BlockSize(pool))
    requires 8 <= BlockSize(pool) < P32 && Contains(net6, gw)
    ensures ContainsIp(net6, Some(gw)) && CreationPanics(pool, [Some(gw)])
  {
    InRange(BlockSize(pool), P32);
    assert Some(gw) in [Some(gw)];
    EightDivides(Width(pool.ip) - pool.prefix);
  }

  lemma EightDivides(k: nat)
    requires Pow2(k) >= 8
    ensures Pow2(k) % 8 == 0
  {
    assert k >= 3 by {
      if k < 3 {
        Pow2Monotone(k, 2);
      }
    }
    Pow2Sum(3, k - 3);
    assert Pow2(3) == 2 * Pow2(2) == 8;
  }

  // ---- the storage shared by the two families ----

  function V6Block(prefix: nat): nat
    requires prefix <= 128
  {
    Pow2(128 - prefix)
  }

  lemma BlockOfV6(c: Cidr)
    requires c.ip.V6? && c.prefix <= 128
    ensures BlockSize(c) == V6Block(c.prefix)
  {
  }

  lemma StorableWidth(c: Cidr)
    requires c.prefix <= Width(c.ip) && BlockSize(c) <= CAPACITY
    ensures Width(c.ip) - c.prefix <= MAX_SUPPORTED_ALLOC_LENGTH
  {
    Pow2Values();
    if Width(c.ip) - c.prefix > 23 {
      Pow2Monotone(23, Width(c.ip) - c.prefix);
    }
  }

  /** What the IPv4 network leaves of the capacity, computed in 64 bits. */
  function Remaining(v4: Cidr): nat
    requires v4.prefix <= Width(v4.ip)
  {
    (CAPACITY - BlockSize(v4)) % P64
  }

  /** The smallest prefix from 105 whose block is strictly smaller than the remainder, or 128. */
  ghost predicate IsMaxUsablePrefix(cidr: Text<Cidr>, prefix: nat)
    requires cidr.Parsed? ==> cidr.value.prefix <= Width(cidr.value.ip)
  {
    && MAX_V6_PREFIX_LENGTH <= prefix <= MIN_V6_PREFIX_LENGTH
    && (!cidr.Parsed? ==> prefix == MAX_V6_PREFIX_LENGTH)
    && (cidr.Parsed? ==>
          && (forall p :: MAX_V6_PREFIX_LENGTH <= p < prefix ==> V6Block(p) >= Remaining(cidr.value))
          && (prefix < MIN_V6_PREFIX_LENGTH ==> V6Block(prefix) < Remaining(cidr.value)))
  }

  method GetMaxUsableV6Prefix(cidr: Text<Cidr>) returns (maxUsableV6Prefix: nat)
    requires GoodCidr(cidr) && !cidr.Malformed?
    ensures IsMaxUsablePrefix(cidr, maxUsableV6Prefix)
  {
    if cidr.Blank? {
      return MAX_V6_PREFIX_LENGTH;
    }
    var maxRemainingCapacity := Remaining(cidr.value);
    maxUsableV6Prefix := MIN_V6_PREFIX_LENGTH;
    for pref := MAX_V6_PREFIX_LENGTH to MIN_V6_PREFIX_LENGTH + 1
      invariant maxUsableV6Prefix == MIN_V6_PREFIX_LENGTH
      invariant forall p :: MAX_V6_PREFIX_LENGTH <= p < pref ==> V6Block(p) >= maxRemainingCapacity
    {
      if V6Block(pref) < maxRemainingCapacity {
        maxUsableV6Prefix := pref;
        break;
      }
    }
  }

  function V4Size(cidr: Text<Cidr>): nat
    requires cidr.Parsed? ==> cidr.value.prefix <= Width(cidr.value.ip)
  {
    if cidr.Parsed? then BlockSize(cidr.value) else 0
  }

  /** The check on the prefix of the IPv6 pool. */
  predicate PrefixAccepted(prefix: nat, maxPrefix: nat) { maxPrefix <= prefix && prefix != MIN_V6_PREFIX_LENGTH }

  lemma LongerPrefixSmallerBlock(p: nat, q: nat)
    requires p <= q <= 128
    ensures V6Block(q) <= V6Block(p)
  {
    Pow2Monotone(128 - q, 128 - p);
  }

  lemma BlockAgainstCapacity(prefix: nat)
    requires prefix <= 128
    ensures if prefix < MAX_V6_PREFIX_LENGTH then V6Block(prefix) > CAPACITY else V6Block(prefix) <= CAPACITY
  {
    Pow2Values();
    if prefix < 105 {
      Pow2Monotone(23, 128 - prefix);
    } else {
      Pow2Monotone(128 - prefix, 23);
    }
  }

  lemma RemainingBesideV4(v4: Cidr)
    requires ValidCidr(v4) && v4.ip.V4? && v4.prefix >= MAX_V4_MASK_LENGTH
    ensures BlockSize(v4) <= CAPACITY && Remaining(v4) == CAPACITY - BlockSize(v4)
  {
    BlockIsStorable(32 - v4.prefix);
    InRange(CAPACITY - BlockSize(v4), P64);
  }

  /**
    The check admits exactly the pools of more than one address that fit beside the IPv4 network,
    strictly if there is one.
   */
  lemma CapacityCheckIsExact(cidr: Text<Cidr>, maxPrefix: nat, prefix: nat)
    requires cidr.Parsed? ==> ValidCidr(cidr.value) && cidr.value.ip.V4? && cidr.value.prefix >= MAX_V4_MASK_LENGTH
    requires IsMaxUsablePrefix(cidr, maxPrefix) && prefix <= 128
    ensures PrefixAccepted(prefix, maxPrefix) <==>
      && prefix != 128
      && if cidr.Parsed? then V4Size(cidr) + V6Block(prefix) < CAPACITY else V6Block(prefix) <= CAPACITY
  {
    hide V6Block, Remaining, BlockSize;
    BlockAgainstCapacity(prefix);
    if cidr.Parsed? {
      RemainingBesideV4(cidr.value);
      if maxPrefix <= prefix {
        LongerPrefixSmallerBlock(maxPrefix, prefix);
      }
    }
  }

  /** The shortest prefix of an IPv6 pool beside an admissible IPv4 network, if any. */
  ghost function UsablePrefix(cidr: Text<Cidr>): nat {
    if !cidr.Parsed? then 105
    else if cidr.value.prefix == 9 then 128
    else if cidr.value.prefix == 10 then 107
    else 106
  }

  lemma UsablePrefixExactly(cidr: Text<Cidr>, prefix: nat)
    requires cidr.Parsed? ==> ValidCidr(cidr.value) && cidr.value.ip.V4? && cidr.value.prefix >= MAX_V4_MASK_LENGTH
    ensures IsMaxUsablePrefix(cidr, prefix) <==> prefix == UsablePrefix(cidr)
  {
    if cidr.Parsed? {
      var v4 := cidr.value;
      RemainingBesideV4(v4);
      Pow2Values();
      assert V6Block(105) == CAPACITY && V6Block(105) == 2 * V6Block(106) && V6Block(106) == 2 * V6Block(107);
      assert V6Block(127) == 2 * V6Block(128) == 2;
      if v4.prefix >= 11 {
        Pow2Monotone(32 - v4.prefix, 21);
      }
      hide V6Block, Remaining;
    }
  }

  /** The CIDR of the IPv6 pool: the one given, or the base of Net6 with the longer of its prefix and the usable one. */
  ghost function PoolCidr(cidr: Text<Cidr>, net6: Text<Cidr>, cidr6: Text<Cidr>): (pool: Text<Cidr>)
    requires GoodCidr(net6) && GoodCidr(cidr6)
    ensures GoodCidr(pool)
    ensures cidr6 == Blank && net6.Parsed? && net6.value.ip.V6? ==> pool.Parsed? && EndsInside(net6.value, pool.value)
  {
    if cidr6 != Blank || !net6.Parsed? || net6.value.ip.V4? then cidr6
    else
      var prefix := if UsablePrefix(cidr) < net6.value.prefix then net6.value.prefix else UsablePrefix(cidr);
      NarrowedCidr(net6.value, prefix);
      Parsed(Cidr(net6.value.ip, prefix))
  }

  /** The two families together fill more than the capacity, or all of it if there are two. */
  ghost predicate OverCapacity(cidr: Text<Cidr>, subnet: Cidr)
    requires GoodCidr(cidr) && ValidCidr(subnet)
  {
    V4Size(cidr) + BlockSize(subnet) > CAPACITY || (cidr.Parsed? && V4Size(cidr) + BlockSize(subnet) == CAPACITY)
  }

  /**
    A pool that is left to the default fits the capacity unless Net6 has a single address or the IPv4
    network is a /9; so without IPv4 any Net6 of at most a /127 gets one.
   */
  lemma DefaultPoolFits(cidr: Text<Cidr>, net6: Cidr)
    requires cidr.Parsed? ==> ValidCidr(cidr.value) && cidr.value.ip.V4? && cidr.value.prefix >= MAX_V4_MASK_LENGTH
    requires ValidCidr(net6) && net6.ip.V6?
    ensures var pool := PoolCidr(cidr, Parsed(net6), Blank).value;
      && (pool.prefix == 128 || OverCapacity(cidr, pool) <==> pool.prefix == 128)
      && (pool.prefix == 128 <==> net6.prefix == 128 || (cidr.Parsed? && cidr.value.prefix == 9))
  {
    var pool := PoolCidr(cidr, Parsed(net6), Blank).value;
    UsablePrefixExactly(cidr, UsablePrefix(cidr));
    CapacityCheckIsExact(cidr, UsablePrefix(cidr), pool.prefix);
    BlockOfV6(pool);
    hide IsMaxUsablePrefix, V6Block, BlockSize;
  }

  /** A /9 IPv4 network takes the whole capacity, so no IPv6 pool is admitted beside it. */
  lemma SlashNineExcludesV6(v4: Cidr, maxPrefix: nat, prefix: nat)
    requires ValidCidr(v4) && v4.ip.V4? && v4.prefix == 9 && IsMaxUsablePrefix(Parsed(v4), maxPrefix) && prefix <= 128
    ensures !PrefixAccepted(prefix, maxPrefix)
  {
    Pow2Values();
    CapacityCheckIsExact(Parsed(v4), maxPrefix, prefix);
  }
}
