// Bits in bytes, lowest bit first, under the secondary compressors
// (xdelta3-second.h).
module BitLayer {

  import opened Bytes

  // The number of bits, its lowest bit first.
  function NumberOf(bits: seq<bool>): (n: nat)
    ensures n < Power2(|bits|)
  {
    if bits == [] then 0 else (if bits[0] then 1 else 0) + 2 * NumberOf(bits[1..])
  }

  function BitsOf(n: nat, size: nat): (bits: seq<bool>)
    ensures |bits| == size
  {
    if size == 0 then [] else [n % 2 == 1] + BitsOf(n / 2, size - 1)
  }

  function ByteOf(bits: seq<bool>): byte
    requires |bits| <= 8
  {
    PowerMonotone(|bits|, 8);
    assert Power2(8) == 256;
    NumberOf(bits) as byte
  }

  // The bits of a number, its highest bit first, as xd3_encode_bits sends them.
  function HighFirst(n: nat, size: nat): (bits: seq<bool>)
    ensures |bits| == size
  {
    if size == 0 then [] else HighFirst(n / 2, size - 1) + [n % 2 == 1]
  }

  function Value(bits: seq<bool>): nat {
    if bits == [] then 0 else 2 * Value(bits[..|bits| - 1]) + if bits[|bits| - 1] then 1 else 0
  }

  lemma {:induction false} ValueOfHighFirst(n: nat, size: nat)
    requires n < Power2(size)
    ensures Value(HighFirst(n, size)) == n
  {
    if size > 0 {
      var bits := HighFirst(n, size);
      assert bits[..size - 1] == HighFirst(n / 2, size - 1);
      ValueOfHighFirst(n / 2, size - 1);
    }
  }

  lemma {:induction false} ValueBelow(bits: seq<bool>)
    ensures Value(bits) < Power2(|bits|)
  {
    if bits != [] {
      ValueBelow(bits[..|bits| - 1]);
    }
  }

  // Each of them.
  lemma {:induction false} HighFirstBit(n: nat, size: nat, k: nat)
    requires k < size
    ensures HighFirst(n, size)[size - 1 - k] == ((n / Power2(k)) % 2 == 1)
    decreases k
  {
    if k > 0 {
      HighFirstBit(n / 2, size - 1, k - 1);
      HalfPower(n, k);
    }
  }

  lemma HalfPower(n: nat, k: nat)
    requires k > 0
    ensures n / 2 / Power2(k - 1) == n / Power2(k)
  {
    HalfOf(n, Power2(k - 1));
  }

  lemma HalfOf(n: nat, p: nat)
    requires p > 0
    ensures n / 2 / p == n / (2 * p)
  {
    var q, r := Divided(n, 2 * p);
    TwiceProduct(q, p);
    HalfSum(q * p, r);
    Quotient(n / 2, p, q, r / 2);
  }

  lemma Divided(n: nat, p: nat) returns (q: nat, r: nat)
    requires p > 0
    ensures n == q * p + r && r < p && q == n / p
  {
    q, r := n / p, n % p;
  }

  lemma TwiceProduct(q: nat, p: nat)
    ensures q * (2 * p) == 2 * (q * p)
  {
  }

  lemma HalfSum(x: nat, r: nat)
    ensures (2 * x + r) / 2 == x + r / 2
  {
  }

  // The bytes that hold the bits, the last one filled up with zeros.
  function Pack(bits: seq<bool>): (bytes: seq<byte>)
    ensures |bytes| == (|bits| + 7) / 8
    decreases |bits|
  {
    if bits == [] then []
    else if |bits| <= 8 then [ByteOf(bits)]
    else [ByteOf(bits[..8])] + Pack(bits[8..])
  }

  function Unpack(bytes: seq<byte>): (bits: seq<bool>)
    ensures |bits| == 8 * |bytes|
  {
    if bytes == [] then [] else BitsOf(bytes[0] as nat, 8) + Unpack(bytes[1..])
  }

  function Zeros(k: nat): seq<bool> {
    seq(k, _ => false)
  }

  // A number of bits has those bits, and zeros above.
  lemma {:induction false} BitsOfNumber(bits: seq<bool>, size: nat)
    requires |bits| <= size
    ensures BitsOf(NumberOf(bits), size) == bits + Zeros(size - |bits|)
    decreases size
  {
    if size > 0 {
      if bits == [] {
        BitsOfNumber([], size - 1);
        assert [false] + Zeros(size - 1) == Zeros(size);
      } else {
        BitsOfNumber(bits[1..], size - 1);
        assert bits == [bits[0]] + bits[1..];
      }
    }
  }

  // Unpacking gives back the bits, and fewer than eight zeros.
  lemma {:induction false} Unpacked(bits: seq<bool>)
    ensures var pad := 8 * |Pack(bits)| - |bits|; 0 <= pad < 8 && Unpack(Pack(bits)) == bits + Zeros(pad)
    decreases |bits|
  {
    hide BitsOf, NumberOf, Power2;
    if bits == [] {
    } else if |bits| <= 8 {
      BitsOfNumber(bits, 8);
      assert Unpack([ByteOf(bits)]) == BitsOf(NumberOf(bits), 8) + Unpack([]);
    } else {
      BitsOfNumber(bits[..8], 8);
      Unpacked(bits[8..]);
      var bytes := Pack(bits);
      assert bytes[0] == ByteOf(bits[..8]) && bytes[1..] == Pack(bits[8..]);
      assert bits[..8] + Zeros(0) == bits[..8] && bits == bits[..8] + bits[8..];
    }
  }

  lemma PackFront(bits: seq<bool>)
    requires |bits| >= 8
    ensures Pack(bits) == [ByteOf(bits[..8])] + Pack(bits[8..])
  {
    if |bits| == 8 {
      assert bits[..8] == bits && bits[8..] == [];
    }
  }

  // Whole bytes pack by themselves.
  lemma {:induction false} PackWhole(whole: seq<bool>, bits: seq<bool>)
    requires |whole| % 8 == 0
    ensures Pack(whole + bits) == Pack(whole) + Pack(bits)
    decreases |whole|
  {
    hide ByteOf, Pack;
    if whole == [] {
      assert whole + bits == bits;
    } else {
      PackWhole(whole[8..], bits);
      PackFront(whole);
      PackFront(whole + bits);
      assert (whole + bits)[8..] == whole[8..] + bits && (whole + bits)[..8] == whole[..8];
    }
  }

  // ---------- bit_state ----------

  // Whole bytes of the bits, and those of the byte begun; cur_mask is a power of two.
  ghost predicate Writing(curByte: nat, curMask: nat, output: seq<byte>, bits: seq<bool>) {
    var k := |bits| - 8 * |output|;
    && 0 <= k < 8 && curMask == Power2(k) && curByte == NumberOf(bits[8 * |output|..])
    && output == Pack(bits[..8 * |output|])
  }

  // One more bit; the bit set is clear before.
  lemma WriteStep(curByte: nat, curMask: nat, output: seq<byte>, bits: seq<bool>, bit: bool)
    requires Writing(curByte, curMask, output, bits)
    ensures var byte' := curByte + if bit then curMask else 0;
            if curMask == 0x80 then byte' < 256 && Writing(0, 1, output + [byte'], bits + [bit])
            else Writing(byte', 2 * curMask, output, bits + [bit])
  {
    hide Pack, NumberOf;
    var n := 8 * |output|;
    var whole, part := bits[..n], bits[n..];
    var bits' := bits + [bit];
    NumberSnoc(part, bit);
    MaskAt(curMask, |part|);
    assert bits'[..n] == whole && bits'[n..] == part + [bit];
    if curMask == 0x80 {
      PackByte(whole, part + [bit]);
      assert bits'[..n + 8] == whole + (part + [bit]) && bits'[n + 8..] == [];
      NumberNone();
    } else {
      hide Power2;
    }
  }

  lemma NumberNone()
    ensures NumberOf([]) == 0 && Power2(0) == 1
  {
  }

  class BitWriter {
    var curByte: nat
    var curMask: nat
    var output: seq<byte>
    ghost var bits: seq<bool>

    ghost predicate Valid()
      reads this
    {
      Writing(curByte, curMask, output, bits)
    }

    constructor ()
      ensures Valid() && bits == []
    {
      curByte, curMask, output, bits := 0, 1, [], [];
    }

    // xd3_encode_bit.
    method EncodeBit(bit: bool)
      requires Valid()
      modifies this
      ensures Valid() && bits == old(bits) + [bit]
    {
      hide Writing;
      WriteStep(curByte, curMask, output, bits, bit);
      bits := bits + [bit];
      if bit {
        curByte := curByte + curMask;
      }
      if curMask == 0x80 {
        output := output + [curByte as byte];
        curMask := 1;
        curByte := 0;
      } else {
        curMask := 2 * curMask;
      }
    }

    // xd3_encode_bits, highest bit first.
    method EncodeBits(nbits: nat, value: nat)
      requires Valid() && nbits > 0 && value < Power2(nbits)
      modifies this
      ensures Valid() && bits == old(bits) + HighFirst(value, nbits)
    {
      ghost var before, code := bits, HighFirst(value, nbits);
      hide HighFirst, Valid;
      var k := nbits;
      while k > 0
        invariant k <= nbits && Valid() && bits == before + code[..nbits - k]
      {
        k := k - 1;
        HighFirstBit(value, nbits, k);
        EncodeBit((value / Power2(k)) % 2 == 1);
        assert code[..nbits - k] == code[..nbits - k - 1] + [code[nbits - 1 - k]];
      }
      assert code[..nbits] == code;
    }

    // xd3_flush_bits.
    method FlushBits()
      requires Valid()
      modifies this
      ensures output == Pack(bits) && bits == old(bits)
    {
      ghost var whole, part := bits[..8 * |output|], bits[8 * |output|..];
      assert bits == whole + part;
      PackWhole(whole, part);
      MaskAt(curMask, |part|);
      if curMask != 1 {
        PowerMonotone(|part|, 8);
        assert Power2(8) == 256;
        output := output + [curByte as byte];
      } else {
        assert part == [];
      }
    }
  }

  // What is left is the rest of the current byte and the bytes after it.
  function Left(curByte: byte, taken: nat, bytes: seq<byte>): seq<bool>
    requires taken <= 8
  {
    BitsOf(curByte as nat, 8)[taken..] + Unpack(bytes)
  }

  lemma LeftByte(curByte: byte, bytes: seq<byte>)
    ensures bytes == [] ==> Left(curByte, 8, bytes) == []
    ensures bytes != [] ==> Left(curByte, 8, bytes) == Left(bytes[0], 0, bytes[1..])
  {
    assert BitsOf(curByte as nat, 8)[8..] == [];
    if bytes != [] {
      assert BitsOf(bytes[0] as nat, 8)[0..] == BitsOf(bytes[0] as nat, 8);
    }
    hide BitsOf;
  }

  lemma LeftBit(curByte: byte, taken: nat, bytes: seq<byte>)
    requires taken < 8
    ensures var r := Left(curByte, taken, bytes);
            r != [] && r[0] == ((curByte / Power2(taken)) % 2 == 1) && r[1..] == Left(curByte, taken + 1, bytes)
  {
    hide BitsOf, Unpack, Power2;
    MaskBit(curByte as nat, 8, taken);
    var byteBits := BitsOf(curByte as nat, 8);
    assert byteBits[taken..][1..] == byteBits[taken + 1..];
  }

  class BitReader {
    var curByte: byte
    var curMask: nat
    var pos: nat
    const input: seq<byte>
    ghost var taken: nat

    ghost predicate Valid()
      reads this
    {
      pos <= |input| && 1 <= taken <= 8 && curMask == Power2(taken) && (pos == 0 ==> taken == 8)
    }

    ghost function Rest(): (r: seq<bool>)
      reads this
      requires Valid()
    {
      Left(curByte, taken, input[pos..])
    }

    // How many bits have been read.
    ghost function Used(): int
      reads this
    {
      8 * pos - (8 - taken)
    }

    constructor (bytes: seq<byte>)
      ensures Valid() && Rest() == Unpack(bytes) && input == bytes && Used() == 0
    {
      input, pos, curByte, curMask, taken := bytes, 0, 0, 0x100, 8;
      new;
      assert Power2(8) == 256;
      assert input[0..] == input;
      assert BitsOf(0, 8)[8..] == [];
    }

    // The next bit: a new byte first, if this one is used up.
    method NextBit() returns (r: Result<bool>)
      requires Valid()
      modifies this
      ensures Valid()
      ensures if old(Rest()) == [] then r.Fail?
              else r == Ok(old(Rest())[0]) && Rest() == old(Rest())[1..] && Used() == old(Used()) + 1
    {
      hide Left, Power2;
      MaskLast(taken);
      if curMask == 0x100 {
        LeftByte(curByte, input[pos..]);
        if pos == |input| {
          return Fail;
        }
        assert input[pos..][1..] == input[pos + 1..];
        curByte := input[pos];
        pos := pos + 1;
        curMask := 1;
        taken := 0;
        MaskNone();
      }
      LeftBit(curByte, taken, input[pos..]);
      MaskNext(taken);
      r := Ok((curByte / curMask) % 2 == 1);
      curMask := 2 * curMask;
      taken := taken + 1;
    }

    // xd3_decode_bits, highest bit first.
    method DecodeBits(nbits: nat) returns (r: Result<nat>)
      requires Valid() && nbits > 0
      modifies this
      ensures Valid()
      ensures if |old(Rest())| < nbits then r.Fail?
              else r == Ok(Value(old(Rest())[..nbits])) && Rest() == old(Rest())[nbits..] && Used() == old(Used()) + nbits
    {
      ghost var rest, used := Rest(), Used();
      hide Rest, Valid, Used;
      var value, k: nat := 0, 0;
      assert rest[..0] == [] && rest[0..] == rest;
      while k < nbits
        invariant k <= nbits && k <= |rest| && Valid() && Rest() == rest[k..] && value == Value(rest[..k]) && Used() == used + k
      {
        var bit := NextBit();
        if bit.Fail? {
          return Fail;
        }
        assert rest[..k + 1][..k] == rest[..k];
        value := 2 * value + if bit.value then 1 else 0;
        k := k + 1;
      }
      r := Ok(value);
    }
  }

  lemma MaskNext(k: nat)
    ensures Power2(k + 1) == 2 * Power2(k)
  {
  }

  lemma MaskNone()
    ensures Power2(0) == 1
  {
  }

  lemma MaskLast(k: nat)
    requires k <= 8
    ensures Power2(k) == 0x100 <==> k == 8
  {
    assert Power2(8) == 256;
    if k < 8 {
      PowerMonotone(k + 1, 8);
    }
  }

  // The bit under the mask.
  lemma {:induction false} MaskBit(n: nat, size: nat, k: nat)
    requires k < size
    ensures BitsOf(n, size)[k] == ((n / Power2(k)) % 2 == 1)
    decreases k
  {
    if k > 0 {
      MaskBit(n / 2, size - 1, k - 1);
      HalfPower(n, k);
    }
  }

  // One more whole byte.
  lemma PackByte(whole: seq<bool>, part: seq<bool>)
    requires |whole| % 8 == 0 && |part| == 8
    ensures NumberOf(part) < 256 && Pack(whole + part) == Pack(whole) + [NumberOf(part) as byte]
  {
    PowerMonotone(8, 8);
    PackWhole(whole, part);
    assert NumberOf(part) == ByteOf(part) as nat;
  }

  lemma MaskAt(mask: nat, k: nat)
    requires k < 8 && mask == Power2(k)
    ensures (mask == 0x80 <==> k == 7) && (mask == 1 <==> k == 0)
  {
    assert Power2(0) == 1 && Power2(1) == 2 && Power2(2) == 4 && Power2(3) == 8;
    assert Power2(4) == 16 && Power2(5) == 32 && Power2(6) == 64 && Power2(7) == 128;
  }

  lemma {:induction false} NumberSnoc(bits: seq<bool>, bit: bool)
    ensures NumberOf(bits + [bit]) == NumberOf(bits) + if bit then Power2(|bits|) else 0
  {
    if bits != [] {
      NumberSnoc(bits[1..], bit);
      assert (bits + [bit])[1..] == bits[1..] + [bit];
    }
  }
}
