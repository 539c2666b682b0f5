/**
  The standard base64 encoding (section 4 of RFC 4648) in which every allocation
  bitmap is persisted.  A quantum of three bytes becomes four characters; the last
  quantum is padded with '='.
 */
module Base64 {

  /** The character of a six-bit value. */
  function Char(s: bv6): (c: char)
    ensures c != '='
  {
    var n := s as int;
    if n < 26 then ('A' as int + n) as char
    else if n < 52 then ('a' as int + n - 26) as char
    else if n < 62 then ('0' as int + n - 52) as char
    else if n == 62 then '+' else '/'
  }

  predicate IsSextet(c: char) {
    'A' <= c <= 'Z' || 'a' <= c <= 'z' || '0' <= c <= '9' || c == '+' || c == '/'
  }

  function Sextet(c: char): bv6
    requires IsSextet(c)
  {
    if 'A' <= c <= 'Z' then (c as int - 'A' as int) as bv6
    else if 'a' <= c <= 'z' then (c as int - 'a' as int + 26) as bv6
    else if '0' <= c <= '9' then (c as int - '0' as int + 52) as bv6
    else if c == '+' then 62 else 63
  }

  lemma SextetOfChar(s: bv6)
    ensures IsSextet(Char(s)) && Sextet(Char(s)) == s
  {
    assert (s as int) as bv6 == s;
  }

  const UPPER := "ABCDEFGHIJKLMNOPQRSTUVWXYZ"
  const LOWER := "abcdefghijklmnopqrstuvwxyz"
  const REST := "0123456789+/"

  /** Table 1 of RFC 4648. */
  lemma CharIsOfAlphabet(s: bv6)
    ensures |UPPER + LOWER + REST| == 64 && Char(s) == (UPPER + LOWER + REST)[s as int]
  {
    var n := s as int;
    if n < 26 {
      assert UPPER[n] == ('A' as int + n) as char;
    } else if n < 52 {
      assert LOWER[n - 26] == ('a' as int + n - 26) as char;
    } else {
      assert REST[n - 52] == Char(s);
    }
  }

  /** The bits of a byte and of a six-bit value, most significant first. */
  ghost predicate ByteBit(b: bv8, j: nat)
    requires j < 8
  {
    b & (match j
         case 0 => 0x80 case 1 => 0x40 case 2 => 0x20 case 3 => 0x10
         case 4 => 0x08 case 5 => 0x04 case 6 => 0x02 case _ => 0x01) != 0
  }

  ghost predicate SextetBit(s: bv6, j: nat)
    requires j < 6
  {
    s & (match j
         case 0 => 0x20 case 1 => 0x10 case 2 => 0x08
         case 3 => 0x04 case 4 => 0x02 case _ => 0x01) != 0
  }

  // The four six-bit values of a quantum; a missing byte counts as zero.
  function S0(x: bv8): bv6 { (x >> 2) as bv6 }
  function S1(x: bv8, y: bv8): bv6 { (((x & 3) as bv6) << 4) | ((y >> 4) as bv6) }
  function S2(y: bv8, z: bv8): bv6 { (((y & 15) as bv6) << 2) | ((z >> 6) as bv6) }
  function S3(z: bv8): bv6 { (z & 63) as bv6 }

  function Encode(data: seq<bv8>): string
  {
    if |data| == 0 then ""
    else if |data| == 1 then
      [Char(S0(data[0])), Char(S1(data[0], 0)), '=', '=']
    else if |data| == 2 then
      [Char(S0(data[0])), Char(S1(data[0], data[1])), Char(S2(data[1], 0)), '=']
    else
      [Char(S0(data[0])), Char(S1(data[0], data[1])), Char(S2(data[1], data[2])), Char(S3(data[2]))]
      + Encode(data[3..])
  }

  function First(a: bv6, b: bv6): bv8 { ((a as bv8) << 2) | ((b as bv8) >> 4) }
  function Second(b: bv6, c: bv6): bv8 { (((b & 15) as bv8) << 4) | ((c as bv8) >> 2) }
  function Third(c: bv6, d: bv6): bv8 { (((c & 3) as bv8) << 6) | (d as bv8) }

  /** Decoding stops at the first quantum that is not well formed and keeps what it has read. */
  function Decode(text: string): seq<bv8>
  {
    if |text| < 4 || !IsSextet(text[0]) || !IsSextet(text[1]) then []
    else
      var a, b := Sextet(text[0]), Sextet(text[1]);
      if text[2] == '=' then
        if text[3] == '=' && |text| == 4 then [First(a, b)] else []
      else if !IsSextet(text[2]) then []
      else
        var c := Sextet(text[2]);
        if text[3] == '=' then
          if |text| == 4 then [First(a, b), Second(b, c)] else []
        else if !IsSextet(text[3]) then []
        else [First(a, b), Second(b, c), Third(c, Sextet(text[3]))] + Decode(text[4..])
  }

  lemma QuantumRoundTrip(x: bv8, y: bv8, z: bv8)
    ensures First(S0(x), S1(x, y)) == x
    ensures Second(S1(x, y), S2(y, z)) == y
    ensures Third(S2(y, z), S3(z)) == z
  {
  }

  /** One quantum is read back, whatever comes after it. */
  lemma DecodeQuantum(x: bv8, y: bv8, z: bv8, rest: string)
    ensures Decode([Char(S0(x)), Char(S1(x, y)), Char(S2(y, z)), Char(S3(z))] + rest) == [x, y, z] + Decode(rest)
    ensures Decode([Char(S0(x)), Char(S1(x, y)), Char(S2(y, 0)), '=']) == [x, y]
    ensures Decode([Char(S0(x)), Char(S1(x, 0)), '=', '=']) == [x]
  {
    QuantumRoundTrip(x, y, z);
    QuantumRoundTrip(x, y, 0);
    QuantumRoundTrip(x, 0, 0);
    SextetOfChar(S0(x));
    SextetOfChar(S1(x, y));
    SextetOfChar(S1(x, 0));
    SextetOfChar(S2(y, z));
    SextetOfChar(S2(y, 0));
    SextetOfChar(S3(z));
    hide Char, Sextet, IsSextet, S0, S1, S2, S3, First, Second, Third;
    var text := [Char(S0(x)), Char(S1(x, y)), Char(S2(y, z)), Char(S3(z))] + rest;
    assert text[4..] == rest;
  }

  lemma FirstThree<T>(s: seq<T>)
    ensures |s| == 1 ==> s == [s[0]]
    ensures |s| == 2 ==> s == [s[0], s[1]]
    ensures |s| > 2 ==> s == [s[0], s[1], s[2]] + s[3..]
  {
  }

  /** A persisted bitmap is read back byte for byte. */
  lemma {:induction false} DecodeEncode(data: seq<bv8>)
    ensures Decode(Encode(data)) == data
  {
    if |data| == 0 {
      return;
    }
    hide Decode, Char, S0, S1, S2, S3;
    FirstThree(data);
    if |data| == 1 {
      DecodeQuantum(data[0], 0, 0, "");
    } else if |data| == 2 {
      DecodeQuantum(data[0], data[1], 0, "");
    } else {
      DecodeQuantum(data[0], data[1], data[2], Encode(data[3..]));
      DecodeEncode(data[3..]);
    }
  }

  lemma QuantumBits(x: bv8, y: bv8, z: bv8, j: nat)
    requires j < 6
    ensures SextetBit(S0(x), j) <==> ByteBit(x, j)
    ensures SextetBit(S1(x, y), j) <==> if j < 2 then ByteBit(x, 6 + j) else ByteBit(y, j - 2)
    ensures SextetBit(S2(y, z), j) <==> if j < 4 then ByteBit(y, 4 + j) else ByteBit(z, j - 4)
    ensures SextetBit(S3(z), j) <==> ByteBit(z, 2 + j)
  {
  }

  ghost predicate Carries(c: char, j: nat, bit: bool)
    requires j < 6
  {
    IsSextet(c) && (SextetBit(Sextet(c), j) <==> bit)
  }

  lemma CharCarries(s: bv6, j: nat)
    requires j < 6
    ensures Carries(Char(s), j, SextetBit(s, j))
  {
    SextetOfChar(s);
  }

  lemma QuantumCarries(x: bv8, y: bv8, z: bv8, j: nat)
    requires j < 6
    ensures Carries(Char(S0(x)), j, ByteBit(x, j))
    ensures Carries(Char(S1(x, y)), j, if j < 2 then ByteBit(x, 6 + j) else ByteBit(y, j - 2))
    ensures Carries(Char(S2(y, z)), j, if j < 4 then ByteBit(y, 4 + j) else ByteBit(z, j - 4))
    ensures Carries(Char(S3(z)), j, ByteBit(z, 2 + j))
  {
    QuantumBits(x, y, z, j);
    CharCarries(S0(x), j);
    CharCarries(S1(x, y), j);
    CharCarries(S2(y, z), j);
    CharCarries(S3(z), j);
    hide Char, Sextet, S0, S1, S2, S3, SextetBit, ByteBit, IsSextet;
  }

  /** The four characters for three bytes, or for the two or one that are left. */
  ghost predicate Quantum(text: string, data: seq<bv8>, j: nat)
    requires 0 < |data| && 4 <= |text| && j < 6
  {
    var x, y, z := data[0], if |data| > 1 then data[1] else 0, if |data| > 2 then data[2] else 0;
    && Carries(text[0], j, ByteBit(x, j))
    && Carries(text[1], j, if j < 2 then ByteBit(x, 6 + j) else ByteBit(y, j - 2))
    && (if |data| > 1 then Carries(text[2], j, if j < 4 then ByteBit(y, 4 + j) else ByteBit(z, j - 4))
        else text[2] == '=')
    && (if |data| > 2 then Carries(text[3], j, ByteBit(z, 2 + j)) else text[3] == '=')
  }

  lemma FirstQuantum(data: seq<bv8>, j: nat)
    requires 0 < |data| && j < 6
    ensures |Encode(data)| >= 4 && Quantum(Encode(data), data, j)
  {
    var x := data[0];
    var y := if |data| > 1 then data[1] else 0;
    var z := if |data| > 2 then data[2] else 0;
    hide Char, S0, S1, S2, S3, ByteBit, Carries;
    QuantumCarries(x, y, z, j);
    if |data| == 1 {
      assert Encode(data) == [Char(S0(x)), Char(S1(x, y)), '=', '='];
    } else if |data| == 2 {
      assert Encode(data) == [Char(S0(x)), Char(S1(x, y)), Char(S2(y, z)), '='];
    } else {
      assert Encode(data)[..4] == [Char(S0(x)), Char(S1(x, y)), Char(S2(y, z)), Char(S3(z))];
    }
  }

  /**
    The encoding of section 4 of RFC 4648: each three bytes are the bits of four characters, most significant
    first, and what is missing at the end is padded with '='.
   */
  lemma {:induction false} EncodeBits(data: seq<bv8>, q: nat, j: nat)
    requires 3 * q < |data| && j < 6
    ensures |Encode(data)| == (|data| + 2) / 3 * 4
    ensures Quantum(Encode(data)[4 * q..], data[3 * q..], j)
  {
    hide Quantum;
    if q == 0 {
      FirstQuantum(data, j);
      EncodedLength(data);
      assert Encode(data)[0..] == Encode(data) && data[0..] == data;
    } else {
      EncodeBits(data[3..], q - 1, j);
      assert Encode(data)[4..] == Encode(data[3..]);
      assert Encode(data)[4 * q..] == Encode(data[3..])[4 * (q - 1)..] && data[3 * q..] == data[3..][3 * (q - 1)..];
    }
  }

  lemma {:induction false} EncodedLength(data: seq<bv8>)
    ensures |Encode(data)| == (|data| + 2) / 3 * 4
  {
    if |data| > 2 {
      EncodedLength(data[3..]);
    }
  }

  /** Comparing two persisted bitmaps as text is comparing them as bytes, and only an empty bitmap is "". */
  lemma EncodeInjective(a: seq<bv8>, b: seq<bv8>)
    ensures Encode(a) == Encode(b) <==> a == b
    ensures Encode(a) == "" <==> a == []
  {
    DecodeEncode(a);
    DecodeEncode(b);
  }
}
