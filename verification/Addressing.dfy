/**
  Addresses as numbers of a family and CIDRs as an aligned base with a prefix length
  (section 3.1 of RFC 4632, section 2.3 of RFC 4291), and the arithmetic by which
  pkg/ipam turns an address into a bitmap index and back.
 */
module Addressing {
  import opened Wrappers

  const P32 := 0x1_0000_0000
  const P24 := 0x100_0000
  const P120 := 0x1_00_0000_0000_0000_0000_0000_0000_0000
  const P128 := 0x1_0000_0000_0000_0000_0000_0000_0000_0000

  datatype Ip = V4(n: nat) | V6(n: nat)

  /** ::ffff:0:0/96 is how Go stores IPv4 addresses, so no IPv6 address lies there. */
  predicate ValidIp(ip: Ip) {
    match ip
    case V4(n) => n < P32
    case V6(n) => n < P128 && n / P32 != 0xFFFF
  }

  function Width(ip: Ip): nat { if ip.V4? then 32 else 128 }

  function Pow2(k: nat): (p: nat)
    ensures p >= 1
  {
    if k == 0 then 1 else 2 * Pow2(k - 1)
  }

  /** What parsing a CIDR yields: the masked base address and the prefix length. */
  datatype Cidr = Cidr(ip: Ip, prefix: nat)

  function BlockSize(c: Cidr): nat
    requires c.prefix <= Width(c.ip)
  {
    Pow2(Width(c.ip) - c.prefix)
  }

  predicate ValidCidr(c: Cidr) {
    ValidIp(c.ip) && c.prefix <= Width(c.ip) && c.ip.n % BlockSize(c) == 0
  }

  /** Masking the address with the prefix gives the base. */
  predicate Contains(c: Cidr, ip: Ip)
    requires c.prefix <= Width(c.ip)
  {
    c.ip.V4? == ip.V4? && ip.n - ip.n % BlockSize(c) == c.ip.n
  }

  function LastAddress(c: Cidr): Ip
    requires c.prefix <= Width(c.ip)
  {
    c.ip.(n := c.ip.n + BlockSize(c) - 1)
  }

  /** The test of DoV6CidrsIntersect: only the first and the last address of `sub` are looked at. */
  predicate EndsInside(master: Cidr, sub: Cidr)
    requires ValidCidr(master) && ValidCidr(sub)
  {
    Contains(master, sub.ip) && Contains(master, LastAddress(sub))
  }

  // ---- powers of two and blocks ----

  lemma Pow2Values()
    ensures Pow2(2) == 4 && Pow2(8) == 0x100 && Pow2(16) == 0x1_0000 && Pow2(23) == 0x80_0000
    ensures Pow2(32) == P32 && Pow2(128) == P128
  {
    assert Pow2(4) == 2 * Pow2(3) == 16;
    Pow2Sum(4, 4);
    Pow2Sum(8, 8);
    Pow2Sum(16, 8);
    assert Pow2(24) == 2 * Pow2(23);
    Pow2Sum(16, 16);
    Pow2Sum(32, 32);
    Pow2Sum(64, 64);
  }

  lemma {:induction false} Pow2Sum(a: nat, b: nat)
    ensures Pow2(a + b) == Pow2(a) * Pow2(b)
  {
    if a > 0 {
      Pow2Sum(a - 1, b);
    }
  }

  lemma {:induction false} Pow2Monotone(a: nat, b: nat)
    requires a <= b
    ensures Pow2(a) <= Pow2(b)
    ensures a < b ==> 2 * Pow2(a) <= Pow2(b)
  {
    if a < b {
      Pow2Monotone(a, b - 1);
    }
  }

  lemma DivisorOfDivisor(n: nat, m: nat, d: nat)
    requires m > 0 && d > 0 && n % (m * d) == 0
    ensures n % m == 0
  {
    var q := n / (m * d);
    assert n == (m * d) * q;
    assert n == m * (d * q) by { MulAssociates(m, d, q); }
    MultipleModZero(m, d * q);
  }

  lemma MulAssociates(a: nat, b: nat, c: nat)
    ensures (a * b) * c == a * (b * c)
  {
  }

  lemma MultipleModZero(m: nat, k: nat)
    requires m > 0
    ensures (m * k) % m == 0 && (m * k) / m == k
  {
    DivModUnique(m * k, m, k, 0);
  }

  lemma {:induction false} MulStep(m: nat, a: nat, b: nat)
    requires a < b
    ensures m * a + m <= m * b
  {
    if a + 1 < b {
      MulStep(m, a, b - 1);
    }
  }

  lemma SmallModulo(x: nat)
    requires x < P32
    ensures x % P32 == x
  {
  }

  lemma DivModUnique(n: nat, m: nat, q: nat, r: nat)
    requires m > 0 && n == m * q + r && r < m
    ensures n / m == q && n % m == r
  {
    var q', r' := n / m, n % m;
    assert n == m * q' + r';
    if q' < q {
      MulStep(m, q', q);
    } else if q < q' {
      MulStep(m, q, q');
    }
  }

  lemma AlignedInterval(base: nat, m: nat, n: nat)
    requires m > 0 && base % m == 0
    ensures n - n % m == base <==> base <= n < base + m
  {
    var q := base / m;
    assert base == m * q;
    if base <= n < base + m {
      DivModUnique(n, m, q, n - base);
    }
  }

  /** An aligned CIDR is the interval of the addresses from its base up to its block size. */
  lemma ContainsIsInterval(c: Cidr, ip: Ip)
    requires ValidCidr(c)
    ensures Contains(c, ip) <==> c.ip.V4? == ip.V4? && c.ip.n <= ip.n < c.ip.n + BlockSize(c)
  {
    assert BlockSize(c) > 0;
    hide BlockSize;
    AlignedInterval(c.ip.n, BlockSize(c), ip.n);
  }

  /** No aligned block runs past the end of the address space. */
  lemma BlockFits(c: Cidr)
    requires ValidCidr(c)
    ensures c.ip.n + BlockSize(c) <= if c.ip.V4? then P32 else P128
  {
    Pow2Values();
    Pow2Sum(c.prefix, Width(c.ip) - c.prefix);
    AlignedBelow(c.ip.n, BlockSize(c), Pow2(c.prefix));
  }

  lemma AlignedBelow(n: nat, m: nat, k: nat)
    requires m > 0 && n % m == 0 && n < k * m
    ensures n + m <= k * m
  {
    var q := n / m;
    assert n == m * q;
    if q < k {
      MulStep(m, q, k);
    } else if k < q {
      MulStep(m, k, q);
    }
  }

  /** Looking only at its two ends decides whether the whole pool CIDR lies inside the network. */
  lemma EndsInsideIsContainment(master: Cidr, sub: Cidr)
    requires ValidCidr(master) && ValidCidr(sub)
    ensures EndsInside(master, sub) <==> forall ip | Contains(sub, ip) :: Contains(master, ip)
  {
    ContainsIsInterval(master, sub.ip);
    ContainsIsInterval(master, LastAddress(sub));
    ContainsIsInterval(sub, sub.ip);
    ContainsIsInterval(sub, LastAddress(sub));
    if EndsInside(master, sub) {
      forall ip | Contains(sub, ip) ensures Contains(master, ip) {
        ContainsIsInterval(sub, ip);
        ContainsIsInterval(master, ip);
      }
    }
  }

  /** Lengthening the prefix over the same base gives an aligned CIDR inside the original one. */
  lemma NarrowedCidr(c: Cidr, prefix: nat)
    requires ValidCidr(c) && c.prefix <= prefix <= Width(c.ip)
    ensures ValidCidr(Cidr(c.ip, prefix)) && EndsInside(c, Cidr(c.ip, prefix))
  {
    var sub := Cidr(c.ip, prefix);
    var w := Width(c.ip);
    Pow2Sum(w - prefix, prefix - c.prefix);
    assert BlockSize(c) == BlockSize(sub) * Pow2(prefix - c.prefix);
    DivisorOfDivisor(c.ip.n, BlockSize(sub), Pow2(prefix - c.prefix));
    Pow2Monotone(w - prefix, w - c.prefix);
    ContainsIsInterval(c, sub.ip);
    ContainsIsInterval(c, LastAddress(sub));
  }

  // ---- bitmap indices ----

  /** The last four bytes of an address. */
  function Ip2Int(ip: Ip): nat { ip.n % P32 }

  /** The sixteen-byte form of an address; an IPv4 address is stored mapped. */
  function Ip62Int(ip: Ip): nat { if ip.V4? then 0xFFFF * P32 + ip.n else ip.n }

  function Abs(x: int): nat { if x < 0 then -x else x }

  /** IPv4 offsets wrap in 32 bits; an IPv6 offset loses its sign and all but its low 32 bits. */
  function Offset(ip: Ip, base: Ip, asV4: bool): (index: nat)
    ensures index < P32
  {
    if asV4 then (Ip2Int(ip) - Ip2Int(base)) % P32
    else Abs(Ip62Int(ip) - Ip62Int(base)) % P32
  }

  /**
    An IPv4 offset leads from the base to the address, wrapping; an IPv6 offset does so exactly
    for the addresses less than 2^32 above the base, and is the same seen from either side.
   */
  lemma OffsetExactly(ip: Ip, base: Ip)
    ensures (Ip2Int(base) + Offset(ip, base, true)) % P32 == Ip2Int(ip)
    ensures Ip62Int(base) + Offset(ip, base, false) == Ip62Int(ip)
       <==> Ip62Int(base) <= Ip62Int(ip) < Ip62Int(base) + P32
    ensures Offset(ip, base, false) == Offset(base, ip, false)
  {
    var d := Ip62Int(ip) - Ip62Int(base);
    if 0 <= d < P32 {
      SmallModulo(d);
    }
  }

  function IndexOfIp(ip: Option<Ip>, subnet: Cidr): (index: nat)
    ensures index < P32
  {
    if ip.None? then 0 else Offset(ip.value, subnet.ip, ip.value.V4?)
  }

  /** The family of the address decides, not that of the subnet; what did not parse has index 0. */
  lemma IndexExactly(ip: Ip, c: Cidr)
    ensures IndexOfIp(None, c) == 0
    ensures ip.V4? ==> (Ip2Int(c.ip) + IndexOfIp(Some(ip), c)) % P32 == Ip2Int(ip)
    ensures ip.V6? ==>
      (Ip62Int(c.ip) + IndexOfIp(Some(ip), c) == ip.n <==> Ip62Int(c.ip) <= ip.n < Ip62Int(c.ip) + P32)
  {
    OffsetExactly(ip, c.ip);
  }

  /** The bytes of a number without leading zeros, read as an address: only lengths 4 and 16 mean one. */
  function Int2Ip6(n: nat): Option<Ip> {
    if P120 <= n < P128 then Some(V6(n))
    else if P24 <= n < P32 then Some(V4(n))
    else None
  }

  function IpFromIndex(index: nat, subnet: Cidr): Option<Ip> {
    if subnet.ip.V4? then Some(V4((subnet.ip.n + index) % P32))
    else Int2Ip6(subnet.ip.n + index)
  }

  /** The allocation subnets on which indices and addresses correspond. */
  predicate Indexable(c: Cidr) {
    ValidCidr(c) && BlockSize(c) <= P32 && (c.ip.V6? ==> c.ip.n >= P120)
  }

  lemma IndexInSubnet(c: Cidr, ip: Ip)
    requires ValidCidr(c) && BlockSize(c) <= P32 && Contains(c, ip)
    ensures IndexOfIp(Some(ip), c) == ip.n - c.ip.n < BlockSize(c)
  {
    ContainsIsInterval(c, ip);
    BlockFits(c);
    SmallModulo(ip.n - c.ip.n);
    if ip.V4? {
      SmallModulo(ip.n);
      SmallModulo(c.ip.n);
    }
  }

  /** Every address of the subnet has its own index, its offset from the base, and comes back from it. */
  lemma IndexRoundTrip(c: Cidr, ip: Ip)
    requires Indexable(c) && Contains(c, ip)
    ensures IndexOfIp(Some(ip), c) == ip.n - c.ip.n < BlockSize(c)
    ensures IpFromIndex(IndexOfIp(Some(ip), c), c) == Some(ip)
  {
    IndexInSubnet(c, ip);
    ContainsIsInterval(c, ip);
    BlockFits(c);
    if ip.V4? {
      SmallModulo(ip.n);
    }
  }

  /** Every index below the block size names an address of the subnet and comes back from it. */
  lemma AddressRoundTrip(c: Cidr, index: nat)
    requires Indexable(c) && index < BlockSize(c)
    ensures IpFromIndex(index, c).Some? && Contains(c, IpFromIndex(index, c).value)
    ensures IpFromIndex(index, c).value == c.ip.(n := c.ip.n + index)
    ensures IndexOfIp(IpFromIndex(index, c), c) == index
  {
    BlockFits(c);
    var ip := c.ip.(n := c.ip.n + index);
    ContainsIsInterval(c, ip);
    IndexRoundTrip(c, ip);
  }

  /** Indices order addresses, so distinct addresses have distinct indices. */
  lemma IndexOrder(c: Cidr, a: Ip, b: Ip)
    requires Indexable(c) && Contains(c, a) && Contains(c, b)
    ensures IndexOfIp(Some(a), c) < IndexOfIp(Some(b), c) <==> a.n < b.n
    ensures IndexOfIp(Some(a), c) == IndexOfIp(Some(b), c) <==> a == b
  {
    IndexRoundTrip(c, a);
    IndexRoundTrip(c, b);
    ContainsIsInterval(c, a);
    ContainsIsInterval(c, b);
  }

  /**
    The bound on IPv6 addresses is exact: below it leading zero bytes are dropped, and the
    index of an allocated address never prints as that address.
   */
  lemma V6IndexFaithfulExactly(c: Cidr, index: nat)
    requires ValidCidr(c) && c.ip.V6? && index < BlockSize(c)
    ensures IpFromIndex(index, c) == Some(V6(c.ip.n + index)) <==> c.ip.n + index >= P120
  {
    BlockFits(c);
  }
}
