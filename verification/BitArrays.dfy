/**
  The bitmap of pkg/bitarray: a byte array addressed most significant bit first.
  `Positions` is the set of positions it stands for; every operation is proved to act
  on that set, so the layers above reason about sets of positions.
 */
module BitArrays {
  import opened Wrappers
  import Base64

  const UINT32 := 0x1_0000_0000

  /** The byte with only bit `j` set, counting from the most significant bit. */
  function Mask(j: nat): (m: bv8)
    requires j < 8
  {
    if j == 0 then 128 else if j == 1 then 64 else if j == 2 then 32 else if j == 3 then 16
    else if j == 4 then 8 else if j == 5 then 4 else if j == 6 then 2 else 1
  }

  /** The table above is the shift the code computes. */
  lemma MaskIsShift(j: nat)
    requires j < 8
    ensures Mask(j) == 1 << (7 - j)
  {
  }

  predicate HasBit(b: bv8, j: nat)
    requires j < 8
  {
    b & Mask(j) != 0
  }

  predicate Bit(data: seq<bv8>, pos: nat)
    requires pos < 8 * |data|
  {
    HasBit(data[pos / 8], pos % 8)
  }

  ghost function Positions(data: seq<bv8>): (ps: set<nat>)
    ensures forall p :: p in ps <==> 0 <= p < 8 * |data| && Bit(data, p)
  {
    set p: nat | 0 <= p < 8 * |data| && Bit(data, p)
  }

  /** What `|= Mask(i)` and `&= !Mask(i)` do to each of the eight bits. */
  lemma MaskBits(b: bv8, i: nat, j: nat)
    requires i < 8 && j < 8
    ensures HasBit(b | Mask(i), j) == (i == j || HasBit(b, j))
    ensures HasBit(b & !Mask(i), j) == (i != j && HasBit(b, j))
  {
  }

  /** A byte is determined by its eight bits. */
  lemma ByteExtensional(a: bv8, b: bv8)
    requires forall j: nat | j < 8 :: HasBit(a, j) == HasBit(b, j)
    ensures a == b
  {
    assert HasBit(a, 0) == HasBit(b, 0) && HasBit(a, 1) == HasBit(b, 1);
    assert HasBit(a, 2) == HasBit(b, 2) && HasBit(a, 3) == HasBit(b, 3);
    assert HasBit(a, 4) == HasBit(b, 4) && HasBit(a, 5) == HasBit(b, 5);
    assert HasBit(a, 6) == HasBit(b, 6) && HasBit(a, 7) == HasBit(b, 7);
  }

  /** Overwriting the byte of `pos` so that only bit `pos` may change adds or removes that one position. */
  lemma WriteByte(data: seq<bv8>, pos: nat, b: bv8, on: bool)
    requires pos < 8 * |data|
    requires forall j: nat | j < 8 :: HasBit(b, j) == if j == pos % 8 then on else HasBit(data[pos / 8], j)
    ensures Positions(data[pos / 8 := b]) == if on then Positions(data) + {pos} else Positions(data) - {pos}
  {
  }

  lemma SetBitPositions(data: seq<bv8>, pos: nat)
    requires pos < 8 * |data|
    ensures Positions(data[pos / 8 := data[pos / 8] | Mask(pos % 8)]) == Positions(data) + {pos}
  {
    var b := data[pos / 8] | Mask(pos % 8);
    forall j: nat | j < 8 ensures HasBit(b, j) == (j == pos % 8 || HasBit(data[pos / 8], j)) {
      MaskBits(data[pos / 8], pos % 8, j);
    }
    WriteByte(data, pos, b, true);
  }

  lemma ClearBitPositions(data: seq<bv8>, pos: nat)
    requires pos < 8 * |data|
    ensures Positions(data[pos / 8 := data[pos / 8] & !Mask(pos % 8)]) == Positions(data) - {pos}
  {
    var b := data[pos / 8] & !Mask(pos % 8);
    forall j: nat | j < 8 ensures HasBit(b, j) == (j != pos % 8 && HasBit(data[pos / 8], j)) {
      MaskBits(data[pos / 8], pos % 8, j);
    }
    WriteByte(data, pos, b, false);
  }

  /**
    Two bitmaps of one length are equal as bytes, and so as persisted text, exactly when
    they have the same positions set: comparing persisted specs compares sets of positions.
   */
  lemma PersistedEquality(a: seq<bv8>, b: seq<bv8>)
    requires |a| == |b|
    ensures Base64.Encode(a) == Base64.Encode(b) <==> Positions(a) == Positions(b)
  {
    Base64.EncodeInjective(a, b);
    if Positions(a) == Positions(b) {
      forall i | 0 <= i < |a| ensures a[i] == b[i] {
        forall j: nat | j < 8 ensures HasBit(a[i], j) == HasBit(b[i], j) {
          var p := 8 * i + j;
          assert p / 8 == i && p % 8 == j;
          assert p in Positions(a) <==> p in Positions(b);
        }
        ByteExtensional(a[i], b[i]);
      }
      assert a == b;
    }
  }

  class BitArray {
    const data: array<bv8>
    /** The length the caller asked for; the bytes cover it rounded up to a multiple of eight. */
    const len: nat

    ghost predicate Valid()
      reads this
    {
      len <= 8 * data.Length < UINT32
    }

    ghost function On(): set<nat>
      reads this, data
    {
      Positions(data[..])
    }

    constructor (len: nat, data: array<bv8>)
      ensures this.len == len && this.data == data
    {
      this.len, this.data := len, data;
    }

    method Set(pos: nat)
      requires Valid() && pos < 8 * data.Length
      modifies data
      ensures On() == old(On()) + {pos}
    {
      ghost var was := data[..];
      data[pos / 8] := data[pos / 8] | Mask(pos % 8);
      SetBitPositions(was, pos);
      assert data[..] == was[pos / 8 := was[pos / 8] | Mask(pos % 8)];
    }

    method Reset(pos: nat)
      requires Valid() && pos < 8 * data.Length
      modifies data
      ensures On() == old(On()) - {pos}
    {
      ghost var was := data[..];
      data[pos / 8] := data[pos / 8] & !Mask(pos % 8);
      ClearBitPositions(was, pos);
      assert data[..] == was[pos / 8 := was[pos / 8] & !Mask(pos % 8)];
    }

    method Get(pos: nat) returns (isSet: bool)
      requires Valid() && pos < 8 * data.Length
      ensures isSet <==> pos in On()
    {
      isSet := data[pos / 8] & Mask(pos % 8) != 0;
      assert data[pos / 8] == data[..][pos / 8];
    }

    /** The text reads back as exactly these bytes, and is the one text that encoding them again gives. */
    method Encode() returns (text: string)
      ensures Base64.Decode(text) == data[..]
      ensures Base64.Encode(Base64.Decode(text)) == text
    {
      text := Base64.Encode(data[..]);
      Base64.DecodeEncode(data[..]);
    }
  }

  /**
    Position 0, the network address, is reserved from the start.  The byte count is
    computed in 32 bits; past the stated bound the addition wraps and the call crashes.
   */
  method NewBitArray(len: nat) returns (arr: Option<BitArray>)
    requires len + 7 < UINT32
    ensures arr.None? <==> len == 0
    ensures arr.Some? ==> fresh(arr.value) && fresh(arr.value.data) && arr.value.Valid()
    ensures arr.Some? ==> arr.value.len == len && arr.value.data.Length == (len + 7) / 8
    ensures arr.Some? ==> arr.value.On() == {0}
  {
    if len == 0 {
      return None;
    }
    var bytes := new bv8[(len + 7) % UINT32 / 8](_ => 0);
    var bitArray := new BitArray(len, bytes);
    assert bitArray.On() == {} by {
      forall p: nat | p < 8 * bytes.Length ensures !Bit(bytes[..], p) {
        assert bytes[..][p / 8] == 0;
      }
    }
    bitArray.Set(0);
    return Some(bitArray);
  }

  lemma LengthOf(bytes: nat)
    ensures (8 * bytes % UINT32) % 8 == 0 && (bytes < UINT32 / 8 ==> 8 * bytes % UINT32 == 8 * bytes)
  {
    var q := 8 * bytes / UINT32;
    assert 8 * bytes % UINT32 == 8 * (bytes - q * (UINT32 / 8));
  }

  /** The length is computed in 32 bits; for any text of less than 2^29 bytes it covers them all. */
  method NewBitArrayFromBase64(text: string) returns (arr: BitArray)
    ensures fresh(arr) && fresh(arr.data)
    ensures arr.data[..] == Base64.Decode(text)
    ensures arr.len % 8 == 0 && arr.len < UINT32
    ensures arr.data.Length < UINT32 / 8 ==> arr.Valid() && arr.len == 8 * arr.data.Length
  {
    hide Base64.Decode, Base64.Encode, Positions;
    var tmp := Base64.Decode(text);
    LengthOf(|tmp|);
    var bytes := new bv8[|tmp|](i requires 0 <= i < |tmp| => tmp[i]);
    arr := new BitArray(8 * |tmp| % UINT32, bytes);
  }

  /** Persisting a bitmap and reading it back keeps every bit and rounds the length up to a multiple of eight. */
  method RoundTrip(arr: BitArray) returns (copy: BitArray)
    requires arr.Valid() && arr.len + 7 >= 8 * arr.data.Length
    ensures fresh(copy) && copy.On() == arr.On()
    ensures copy.len == (arr.len + 7) / 8 * 8
  {
    Base64.DecodeEncode(arr.data[..]);
    var text := arr.Encode();
    assert |Base64.Decode(text)| == arr.data.Length;
    copy := NewBitArrayFromBase64(text);
    assert copy.data[..] == arr.data[..];
  }
}
