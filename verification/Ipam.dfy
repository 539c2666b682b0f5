/**
  The allocator of pkg/ipam on one network object.  Pure functions give the meaning of
  allocation and release on bitmaps as sets of positions; the methods follow the code,
  which loops over and overwrites a byte bitmap, and are proved equal to the functions.
 */
module Ipam {
  import opened Wrappers
  import opened Addressing
  import Base64
  import BitArrays

  /** A persisted bitmap: the number of bits its bytes hold, and the bits set.  Size 0 is the empty string. */
  datatype Bitmap = Bitmap(size: nat, on: set<nat>)

  /** Pool.LastIp as text: absent, an address, or an address with a prefix, which net.ParseIP refuses. */
  datatype LastIp = Empty | Bare(ip: Ip) | WithPrefix(printed: Option<Ip>, prefix: nat)

  datatype Pool = Pool(start: Ip, end: Ip, last: LastIp)

  /** What a Pod asks for: nothing, "none", "dynamic", or a static text that may not parse. */
  datatype Request = Absent | NoneType | Dynamic | Static(ip: Option<Ip>)

  /** The address text an allocation returns: "", "none", or an address with a prefix. */
  datatype Address = NoAddress | NoneAddress | At(ip: Option<Ip>, prefix: nat)

  datatype Outcome = Allocated(alloc: Bitmap, last: LastIp, address: Address) | Refused

  function ParsedLast(last: LastIp): Option<Ip> {
    if last.Bare? then Some(last.ip) else None
  }

  function Begin(pool: Pool, subnet: Cidr): nat { Offset(pool.start, subnet.ip, subnet.ip.V4?) }
  function End(pool: Pool, subnet: Cidr): nat { Offset(pool.end, subnet.ip, subnet.ip.V4?) }

  /** Where the search starts: one step short of wrapping if LastIp is unusable or at the end. */
  function Cursor(pool: Pool, subnet: Cidr): nat {
    var last := if pool.last.Empty? then 0 else IndexOfIp(ParsedLast(pool.last), subnet);
    if last >= End(pool, subnet) || last == 0 then Begin(pool, subnet) else last
  }

  // ---- the cyclic search ----

  /** The least clear position of [lo, hi]. */
  function FirstClear(on: set<nat>, lo: nat, hi: nat): (found: Option<nat>)
    ensures found.Some? ==> lo <= found.value <= hi && found.value !in on
    ensures found.Some? ==> forall j :: lo <= j < found.value ==> j in on
    ensures found.None? ==> forall j :: lo <= j <= hi ==> j in on
    decreases hi + 1 - lo
  {
    if lo > hi then None
    else if lo !in on then Some(lo)
    else FirstClear(on, lo + 1, hi)
  }

  /**
    First from the cursor to the end; then, unless that was the whole pool, from just above the
    beginning to the cursor.
   */
  function CyclicSearch(on: set<nat>, begin: nat, cursor: nat, end: nat): Option<nat> {
    var upper := FirstClear(on, cursor, end);
    if upper.Some? || cursor == end then upper else FirstClear(on, begin + 1, cursor)
  }

  /**
    A failed search has seen the whole pool when the cursor was at or below its beginning; from a
    cursor strictly inside, the first position of the pool was never examined.
   */
  lemma SearchFailsExactly(on: set<nat>, begin: nat, cursor: nat, end: nat)
    requires cursor < end
    ensures CyclicSearch(on, begin, cursor, end).None?
      <==> forall j :: (if cursor <= begin then cursor else begin + 1) <= j <= end ==> j in on
  {
  }

  /**
    The position found is a clear one: the least from the cursor on or, if there is none, the least of
    those above the beginning of the pool.  It lies in the pool if and only if there is no clear one
    between a cursor below the pool and its beginning.
   */
  lemma SearchFindsClear(on: set<nat>, begin: nat, cursor: nat, end: nat)
    requires begin <= end && cursor <= end
    requires CyclicSearch(on, begin, cursor, end).Some?
    ensures var found := CyclicSearch(on, begin, cursor, end).value;
      && found <= end && found !in on
      && (begin <= found <==> forall j :: cursor <= j < begin ==> j in on)
      && (found >= cursor ==> forall j :: cursor <= j < found ==> j in on)
      && (found < cursor ==>
            begin < found && (forall j :: cursor <= j <= end ==> j in on) && forall j :: begin < j < found ==> j in on)
  {
  }

  /** The loop of allocateAddress, which moves both its counter and its bound when it wraps. */
  method SearchLoop(ba: BitArrays.BitArray, begin: nat, lastIpIndex: nat, poolEnd: nat) returns (chosen: Option<nat>)
    requires ba.Valid() && begin < 8 * ba.data.Length
    requires lastIpIndex <= poolEnd < 8 * ba.data.Length
    modifies ba.data
    ensures chosen == CyclicSearch(old(ba.On()), begin, lastIpIndex, poolEnd)
    ensures ba.On() == old(ba.On()) + (if chosen.Some? then {chosen.value} else {})
  {
    hide BitArrays.Positions, BitArrays.Bit;
    var i, end := lastIpIndex, poolEnd;
    ghost var wrapped := false;
    ghost var on := ba.On();
    while i <= end
      invariant ba.On() == on
      invariant !wrapped ==> end == poolEnd && lastIpIndex <= i <= poolEnd + 1
      invariant !wrapped ==> FirstClear(on, lastIpIndex, poolEnd) == FirstClear(on, i, poolEnd)
      invariant !wrapped && i > poolEnd ==> lastIpIndex == poolEnd
      invariant wrapped ==> end == lastIpIndex < poolEnd && begin + 1 <= i
      invariant wrapped ==> FirstClear(on, lastIpIndex, poolEnd).None?
      invariant wrapped ==> FirstClear(on, begin + 1, lastIpIndex) == FirstClear(on, i, lastIpIndex)
      decreases !wrapped, end + 1 - i
    {
      var isSet := ba.Get(i);
      if !isSet {
        ba.Set(i);
        return Some(i);
      }
      if i == end && end != lastIpIndex {
        i := begin;
        end := lastIpIndex;
        wrapped := true;
      }
      i := i + 1;
    }
    return None;
  }

  // ---- allocation ----

  /** The address family of a network object that allocation works on; an L2 network has no subnet and no bitmap. */
  datatype Subnets = L2 | L3(alloc: Cidr, net: Cidr)

  /** What makes every bit access of an allocation fall inside the bitmap. */
  predicate InBounds(pool: Pool, alloc: Bitmap, nets: Subnets) {
    nets.L3? ==>
      && ValidCidr(nets.alloc) && ValidCidr(nets.net)
      && BlockSize(nets.alloc) <= P32
      && BlockSize(nets.alloc) <= alloc.size
      && Begin(pool, nets.alloc) < End(pool, nets.alloc) < BlockSize(nets.alloc)
  }

  function AllocateAddress(pool: Pool, alloc: Bitmap, req: Request, nets: Subnets): Outcome
    requires nets.L3? ==> ValidCidr(nets.alloc) && ValidCidr(nets.net)
  {
    if req.Absent? then Allocated(alloc, pool.last, NoAddress)
    else if req.NoneType? then Allocated(alloc, pool.last, NoneAddress)
    else if alloc.size == 0 || nets.L2? then Refused
    else if req.Dynamic? then
      var found := CyclicSearch(alloc.on, Begin(pool, nets.alloc), Cursor(pool, nets.alloc), End(pool, nets.alloc));
      if found.None? then Refused
      else
        var ip := IpFromIndex(found.value, nets.alloc);
        Allocated(alloc.(on := alloc.on + {found.value}), PrintedLast(ip, nets.net), At(ip, nets.net.prefix))
    else if req.ip.None? || !Contains(nets.net, req.ip.value) then Refused
    else if !Contains(nets.alloc, req.ip.value) then
      Allocated(alloc, pool.last, At(req.ip, nets.net.prefix))
    else
      var index := IndexOfIp(req.ip, nets.alloc);
      if index in alloc.on then Refused
      else Allocated(alloc.(on := alloc.on + {index}), pool.last, At(req.ip, nets.net.prefix))
  }

  /** The text written to LastIp always carries a prefix. */
  function PrintedLast(ip: Option<Ip>, net: Cidr): (last: LastIp)
    ensures ParsedLast(last) == None
  {
    WithPrefix(ip, net.prefix)
  }

  /** The bit an address stands for in the bitmap, if it stands for one. */
  function BitOf(address: Address, nets: Subnets): set<nat>
    requires nets.L3? ==> ValidCidr(nets.alloc)
  {
    if address.At? && address.ip.Some? && nets.L3? && Contains(nets.alloc, address.ip.value)
    then {IndexOfIp(address.ip, nets.alloc)} else {}
  }

  /** resetIp: an address outside the subnet, or one that did not parse, changes nothing. */
  function ResetIp(alloc: Bitmap, address: Address, nets: Subnets): Bitmap
    requires nets.L3? ==> ValidCidr(nets.alloc)
  {
    alloc.(on := alloc.on - BitOf(address, nets))
  }

  /** Every index an allocation or release may touch lies inside the bitmap. */
  lemma TouchedInBounds(pool: Pool, alloc: Bitmap, nets: Subnets, ip: Ip)
    requires nets.L3? && InBounds(pool, alloc, nets)
    ensures Begin(pool, nets.alloc) < alloc.size
    ensures Cursor(pool, nets.alloc) < End(pool, nets.alloc) < alloc.size
    ensures Contains(nets.alloc, ip) ==> IndexOfIp(Some(ip), nets.alloc) < alloc.size
  {
    if Contains(nets.alloc, ip) {
      IndexInSubnet(nets.alloc, ip);
    }
  }

  /**
    An allocation sets exactly the bit of the address it returns, which was clear, and
    releasing that address gives the bitmap back.
   */
  lemma AllocateThenReset(pool: Pool, alloc: Bitmap, req: Request, nets: Subnets)
    requires nets.L3? ==> InBounds(pool, alloc, nets) && Indexable(nets.alloc)
    requires AllocateAddress(pool, alloc, req, nets).Allocated?
    ensures var r := AllocateAddress(pool, alloc, req, nets);
      var bit := BitOf(r.address, nets);
      && r.alloc == alloc.(on := alloc.on + bit)
      && bit !! alloc.on
      && ResetIp(r.alloc, r.address, nets) == alloc
      && (nets.L3? ==> forall b :: b in bit ==> b < BlockSize(nets.alloc))
      && (req.Dynamic? ==> bit != {})
  {
    var r := AllocateAddress(pool, alloc, req, nets);
    if req.Dynamic? {
      var begin, cursor, end := Begin(pool, nets.alloc), Cursor(pool, nets.alloc), End(pool, nets.alloc);
      var found := CyclicSearch(alloc.on, begin, cursor, end);
      AddressRoundTrip(nets.alloc, found.value);
      assert BitOf(r.address, nets) == {found.value};
    } else if req.Static? {
      if Contains(nets.alloc, req.ip.value) {
        IndexRoundTrip(nets.alloc, req.ip.value);
      }
    }
    assert r.alloc.on - BitOf(r.address, nets) == alloc.on;
  }

  /** A position is in the bitmap for an address if and only if it is the address's distance from the base. */
  lemma BitOfExactly(address: Address, nets: Subnets, i: nat)
    requires nets.L3? && Indexable(nets.alloc)
    ensures i in BitOf(address, nets) <==>
      i < BlockSize(nets.alloc) && address.At? && address.ip == Some(nets.alloc.ip.(n := nets.alloc.ip.n + i))
  {
    if address.At? && address.ip.Some? {
      ContainsIsInterval(nets.alloc, address.ip.value);
      if Contains(nets.alloc, address.ip.value) {
        IndexInSubnet(nets.alloc, address.ip.value);
      }
    }
  }

  // ---- what a request gets ----

  /** A search starts at LastIp, if that is an address above the base and before the end of the pool. */
  ghost function Origin(pool: Pool, subnet: Cidr): nat {
    if pool.last.Bare? && 0 < IndexOfIp(Some(pool.last.ip), subnet) < End(pool, subnet)
    then IndexOfIp(Some(pool.last.ip), subnet) else Begin(pool, subnet)
  }

  /** The first clear position on the way from the origin to the end and from above the beginning on. */
  ghost predicate FirstOnTheWay(on: set<nat>, begin: nat, origin: nat, end: nat, i: nat) {
    && i !in on && i <= end
    && if i >= origin then forall j :: origin <= j < i ==> j in on
       else begin < i && (forall j :: origin <= j <= end ==> j in on) && forall j :: begin < j < i ==> j in on
  }

  /** When a request is granted: a static one exactly if it is in the network and its bit, if any, is clear. */
  ghost predicate Grantable(pool: Pool, alloc: Bitmap, req: Request, nets: Subnets)
    requires nets.L3? ==> ValidCidr(nets.alloc) && ValidCidr(nets.net)
  {
    match req
    case Absent => true
    case NoneType => true
    case Dynamic =>
      && nets.L3? && alloc.size > 0
      && var begin, origin, end := Begin(pool, nets.alloc), Origin(pool, nets.alloc), End(pool, nets.alloc);
         exists j :: (if origin <= begin then origin else begin + 1) <= j <= end && j !in alloc.on
    case Static(ip) =>
      && nets.L3? && alloc.size > 0 && ip.Some? && Contains(nets.net, ip.value)
      && (Contains(nets.alloc, ip.value) ==> IndexOfIp(ip, nets.alloc) !in alloc.on)
  }

  /** The address is one that was asked for: a static request gets no other, a dynamic one some of the pool's subnet. */
  ghost predicate Answers(req: Request, address: Address, nets: Subnets)
    requires nets.L3? ==> ValidCidr(nets.alloc) && ValidCidr(nets.net)
  {
    match req
    case Absent => address == NoAddress
    case NoneType => address == NoneAddress
    case Dynamic =>
      && nets.L3? && address.At? && address.ip.Some?
      && Contains(nets.alloc, address.ip.value) && address.prefix == nets.net.prefix
    case Static(ip) =>
      nets.L3? && ip.Some? && Contains(nets.net, ip.value) && address == At(ip, nets.net.prefix)
  }

  /**
    Every request is granted exactly when it can be, and gets what it asked for; only a dynamic one moves
    LastIp, to the address it gets, which is the first clear one on the way from the old LastIp.
   */
  lemma GrantedExactly(pool: Pool, alloc: Bitmap, req: Request, nets: Subnets)
    requires nets.L3? ==> InBounds(pool, alloc, nets) && Indexable(nets.alloc)
    ensures var r := AllocateAddress(pool, alloc, req, nets);
      && (r.Allocated? <==> Grantable(pool, alloc, req, nets))
      && (r.Allocated? ==> Answers(req, r.address, nets))
      && (r.Allocated? && !req.Dynamic? ==> r.last == pool.last)
      && (r.Allocated? && req.Dynamic? ==>
            && r.last == WithPrefix(r.address.ip, nets.net.prefix)
            && exists i :: BitOf(r.address, nets) == {i} && FirstOnTheWay(alloc.on, Begin(pool, nets.alloc),
                 Origin(pool, nets.alloc), End(pool, nets.alloc), i))
  {
    if req.Dynamic? && nets.L3? && alloc.size > 0 {
      var begin, end := Begin(pool, nets.alloc), End(pool, nets.alloc);
      assert Cursor(pool, nets.alloc) == Origin(pool, nets.alloc);
      SearchFailsExactly(alloc.on, begin, Origin(pool, nets.alloc), end);
      var found := CyclicSearch(alloc.on, begin, Origin(pool, nets.alloc), end);
      if found.Some? {
        SearchFindsClear(alloc.on, begin, Origin(pool, nets.alloc), end);
        AddressRoundTrip(nets.alloc, found.value);
        assert BitOf(AllocateAddress(pool, alloc, req, nets).address, nets) == {found.value};
      }
    }
  }

  /**
    A dynamic allocation stays in the pool if and only if no clear index lies between the cursor and the
    beginning of the pool; a cursor below the pool is one that LastIp was given by hand.
   */
  lemma DynamicInPoolExactly(pool: Pool, alloc: Bitmap, nets: Subnets)
    requires nets.L3? && InBounds(pool, alloc, nets) && Indexable(nets.alloc)
    requires AllocateAddress(pool, alloc, Dynamic, nets).Allocated?
    ensures var bit := BitOf(AllocateAddress(pool, alloc, Dynamic, nets).address, nets);
      (forall b :: b in bit ==> Begin(pool, nets.alloc) <= b <= End(pool, nets.alloc))
        <==> (forall j :: Cursor(pool, nets.alloc) <= j < Begin(pool, nets.alloc) ==> j in alloc.on)
    ensures Cursor(pool, nets.alloc) < Begin(pool, nets.alloc) ==>
      pool.last.Bare? && IndexOfIp(ParsedLast(pool.last), nets.alloc) == Cursor(pool, nets.alloc)
  {
    var begin, cursor, end := Begin(pool, nets.alloc), Cursor(pool, nets.alloc), End(pool, nets.alloc);
    var found := CyclicSearch(alloc.on, begin, cursor, end).value;
    SearchFindsClear(alloc.on, begin, cursor, end);
    AddressRoundTrip(nets.alloc, found);
    assert BitOf(AllocateAddress(pool, alloc, Dynamic, nets).address, nets) == {found};
  }

  // ---- the same on persisted text ----

  /** The bitmap a persisted text stands for. */
  ghost function Persisted(text: string): Bitmap {
    var data := Base64.Decode(text);
    Bitmap(8 * |data|, BitArrays.Positions(data))
  }

  predicate Loadable(text: string) {
    |Base64.Decode(text)| < BitArrays.UINT32 / 8
  }

  /** The text is what Encode writes for the bytes it stands for. */
  predicate Canonical(text: string) {
    Loadable(text) && Base64.Encode(Base64.Decode(text)) == text
  }

  /** What a bitmap writes is read back as the same bitmap. */
  lemma EncodePersists(data: seq<bv8>)
    requires |data| < BitArrays.UINT32 / 8
    ensures Canonical(Base64.Encode(data))
    ensures Persisted(Base64.Encode(data)) == Bitmap(8 * |data|, BitArrays.Positions(data))
  {
    Base64.DecodeEncode(data);
  }

  datatype TextOutcome = TextAllocated(text: string, last: LastIp, address: Address) | TextRefused

  ghost predicate Refines(out: TextOutcome, spec: Outcome) {
    match out
    case TextRefused => spec.Refused?
    case TextAllocated(text, last, address) =>
      spec.Allocated? && Loadable(text) && Persisted(text) == spec.alloc && last == spec.last && address == spec.address
  }

  /** allocateAddress: every bit access of the code is inside the bitmap, and the result is the one specified. */
  method AllocateText(pool: Pool, alloc: string, req: Request, nets: Subnets) returns (out: TextOutcome)
    requires Loadable(alloc) && InBounds(pool, Persisted(alloc), nets)
    requires nets.L2? ==> alloc == ""
    ensures Refines(out, AllocateAddress(pool, Persisted(alloc), req, nets))
    ensures out.TextAllocated? && Canonical(alloc) ==> Canonical(out.text)
  {
    if req.Absent? {
      return TextAllocated(alloc, pool.last, NoAddress);
    }
    if req.NoneType? {
      return TextAllocated(alloc, pool.last, NoneAddress);
    }
    if alloc == "" || nets.L2? {
      return TextRefused;
    }
    var ba := BitArrays.NewBitArrayFromBase64(alloc);
    ghost var was := ba.On();
    TouchedInBounds(pool, Persisted(alloc), nets, nets.alloc.ip);
    var last, address := pool.last, NoAddress;
    if req.Dynamic? {
      var begin, end := Begin(pool, nets.alloc), End(pool, nets.alloc);
      var lastIpIndex := 0;
      if !pool.last.Empty? {
        lastIpIndex := IndexOfIp(ParsedLast(pool.last), nets.alloc);
      }
      if lastIpIndex >= end || lastIpIndex == 0 {
        lastIpIndex := begin;
      }
      var chosen := SearchLoop(ba, begin, lastIpIndex, end);
      if chosen.None? {
        return TextRefused;
      }
      address := At(IpFromIndex(chosen.value, nets.alloc), nets.net.prefix);
      last := PrintedLast(IpFromIndex(chosen.value, nets.alloc), nets.net);
    } else {
      if req.ip.None? || !Contains(nets.net, req.ip.value) {
        return TextRefused;
      }
      address := At(req.ip, nets.net.prefix);
      if Contains(nets.alloc, req.ip.value) {
        var index := IndexOfIp(req.ip, nets.alloc);
        TouchedInBounds(pool, Persisted(alloc), nets, req.ip.value);
        var isSet := ba.Get(index);
        if isSet {
          return TextRefused;
        }
        ba.Set(index);
      }
    }
    var text := ba.Encode();
    Base64.DecodeEncode(ba.data[..]);
    return TextAllocated(text, last, address);
  }

  /** resetIp on persisted text. */
  method ResetText(alloc: string, address: Address, nets: Subnets) returns (text: string)
    requires Loadable(alloc)
    requires nets.L3? ==>
      ValidCidr(nets.alloc) && BlockSize(nets.alloc) <= P32 && BlockSize(nets.alloc) <= Persisted(alloc).size
    ensures Loadable(text) && Persisted(text) == ResetIp(Persisted(alloc), address, nets)
    ensures Canonical(alloc) ==> Canonical(text)
  {
    var ba := BitArrays.NewBitArrayFromBase64(alloc);
    if !address.At? || address.ip.None? || nets.L2? || !Contains(nets.alloc, address.ip.value) {
      return alloc;
    }
    IndexInSubnet(nets.alloc, address.ip.value);
    ba.Reset(IndexOfIp(address.ip, nets.alloc));
    text := ba.Encode();
    Base64.DecodeEncode(ba.data[..]);
  }

  // ---- runs of dynamic reservations ----

  /** The indices that consecutive dynamic reservations take until the first refusal. */
  function Drain(pool: Pool, alloc: Bitmap, nets: Subnets): seq<nat>
    requires nets.L3? && ValidCidr(nets.alloc) && ValidCidr(nets.net) && alloc.size > 0
    requires ParsedLast(pool.last).None?
    requires Begin(pool, nets.alloc) <= End(pool, nets.alloc)
    decreases Free(pool, alloc, nets)
  {
    var found := CyclicSearch(alloc.on, Begin(pool, nets.alloc), Cursor(pool, nets.alloc), End(pool, nets.alloc));
    if found.None? then []
    else
      var r := AllocateAddress(pool, alloc, Dynamic, nets);
      assert found.value in Free(pool, alloc, nets) && found.value !in Free(pool, r.alloc, nets);
      [found.value] + Drain(pool.(last := r.last), r.alloc, nets)
  }

  function Free(pool: Pool, alloc: Bitmap, nets: Subnets): set<nat>
    requires nets.L3?
  {
    set j: nat | Begin(pool, nets.alloc) <= j <= End(pool, nets.alloc) && j !in alloc.on
  }

  ghost predicate Increasing(s: seq<nat>) {
    forall i, j :: 0 <= i < j < |s| ==> s[i] < s[j]
  }

  ghost predicate Lists(s: seq<nat>, all: set<nat>) {
    Increasing(s) && (forall j :: j in s <==> j in all) && |s| == |all|
  }

  lemma PrependLeast(least: nat, rest: seq<nat>, all: set<nat>)
    requires least in all && forall j :: j in all ==> least <= j
    requires Lists(rest, all - {least})
    ensures Lists([least] + rest, all)
  {
    var s := [least] + rest;
    forall i, j | 0 <= i < j < |s| ensures s[i] < s[j] {
      assert s[j] == rest[j - 1] && rest[j - 1] in rest;
    }
    forall j ensures j in s <==> j in all {
      assert j in s <==> j == least || j in rest;
    }
  }

  /**
    First fit and exact capacity: unless LastIp is a bare address, a pool with N clear bits
    serves exactly N dynamic reservations, lowest index first, and refuses the next.
   */
  lemma {:induction false} DrainTakesAllFree(pool: Pool, alloc: Bitmap, nets: Subnets)
    requires nets.L3? && ValidCidr(nets.alloc) && ValidCidr(nets.net) && alloc.size > 0
    requires ParsedLast(pool.last).None?
    requires Begin(pool, nets.alloc) < End(pool, nets.alloc)
    ensures Lists(Drain(pool, alloc, nets), Free(pool, alloc, nets))
    decreases Free(pool, alloc, nets)
  {
    var begin, end := Begin(pool, nets.alloc), End(pool, nets.alloc);
    var free := Free(pool, alloc, nets);
    assert Cursor(pool, nets.alloc) == begin;
    var found := CyclicSearch(alloc.on, begin, begin, end);
    if found.None? {
      assert free == {};
    } else {
      var r := AllocateAddress(pool, alloc, Dynamic, nets);
      var next := pool.(last := r.last);
      assert Free(next, r.alloc, nets) == free - {found.value};
      DrainTakesAllFree(next, r.alloc, nets);
      PrependLeast(found.value, Drain(next, r.alloc, nets), free);
    }
  }
}
