// The Rabin rolling fingerprint (chunk/rabin_cdc.cpp): table-driven polynomial
// arithmetic over a circular window of 48 bytes, proved to keep the remainder of
// the window's polynomial. Unsigned 64-bit words are numbers below 2^64.
module Rabin {
  import opened Bytes
  import opened Gf2

  const POLYNOMIAL: nat := 0x3D_A335_8B4D_C173
  const DEGREE: nat := 53
  const SHIFT: nat := 45    // DEGREE - 8
  const WINSIZE: nat := 48

  // Bitwise or.
  function Or(a: nat, b: nat): nat
    decreases a + b
  {
    if a == 0 && b == 0 then 0
    else 2 * Or(a / 2, b / 2) + (if a % 2 == 1 || b % 2 == 1 then 1 else 0)
  }

  // Of numbers without common bits it is the sum.
  lemma {:induction false} OrDisjoint(k: nat, a: nat, y: nat)
    requires y < Power2(k)
    ensures Or(y, a * Power2(k)) == a * Power2(k) + y && Or(a * Power2(k), y) == a * Power2(k) + y
    decreases k
  {
    if k == 0 {
      OrZero(a);
    } else {
      Halve(a, k, 0);
      OrDisjoint(k - 1, a, y / 2);
    }
  }

  lemma {:induction false} OrZero(a: nat)
    ensures Or(a, 0) == a && Or(0, a) == a
  {
    if a > 0 {
      OrZero(a / 2);
    }
  }

  lemma Powers()
    ensures Power2(8) == 256 && Power2(SHIFT) == 0x2000_0000_0000 && Power2(DEGREE) == 0x20_0000_0000_0000
    ensures Power2(DEGREE + 1) == 0x40_0000_0000_0000 && Power2(63) == 0x8000_0000_0000_0000 && Power2(64) == U64
  {
    hide Power2;
    SmallPowers();
    PowerSum(8, 8);
    PowerSum(16, 16);
    PowerSum(8, 32);
    PowerSum(5, 40);
    PowerSum(8, 45);
    PowerSum(1, 53);
    PowerSum(8, 53);
    PowerSum(2, 61);
    PowerSum(1, 63);
  }

  lemma SmallPowers()
    ensures Power2(1) == 2 && Power2(2) == 4 && Power2(5) == 32 && Power2(8) == 256
  {
  }

  lemma PolynomialDegree()
    ensures Bits(POLYNOMIAL) == DEGREE + 1
  {
    Powers();
    BitsBound(POLYNOMIAL, DEGREE);
    BitsBound(POLYNOMIAL, DEGREE + 1);
  }

  // deg.
  method Deg(p: nat) returns (r: int)
    requires p < U64
    ensures r == Bits(p) - 1
  {
    hide Power2, Bits;
    Powers();
    BitsBound(p, 64);
    var mask: nat := 0x8000_0000_0000_0000;
    var i := 0;
    while i < 64
      invariant 0 <= i <= 64 && Bits(p) <= 64 - i && (i < 64 ==> mask == Power2(63 - i))
    {
      DegreeBit(p, 63 - i, mask);
      if p / mask % 2 == 1 {
        return 63 - i;
      }
      mask := mask / 2;
      i := i + 1;
    }
    return -1;
  }

  // The highest bit that can be set is, or the degree is lower.
  lemma DegreeBit(p: nat, k: nat, mask: nat)
    requires Bits(p) <= k + 1 && mask == Power2(k)
    ensures mask > 0 && (p / mask % 2 == 1 <==> Bits(p) == k + 1)
    ensures k > 0 ==> mask / 2 == Power2(k - 1)
  {
    hide Power2, Bits;
    BitsBound(p, k);
    BitsBound(p, k + 1);
    PowerHalf(k + 1);
    Digit(p, mask);
    if k > 0 {
      PowerHalf(k);
    }
  }

  lemma PowerHalf(k: nat)
    requires k > 0
    ensures Power2(k) / 2 == Power2(k - 1) && Power2(k) == 2 * Power2(k - 1)
  {
  }

  lemma Digit(p: nat, m: nat)
    requires m > 0 && (p >= m ==> p - m < m)
    ensures p / m % 2 == 1 <==> p >= m
  {
    if p >= m {
      Quotient(p, m, 1, p - m);
    } else {
      Quotient(p, m, 0, p);
    }
  }

  // mod: the shifted divisor never leaves the 64-bit word.
  method Mod(x0: nat, p: nat) returns (x: nat)
    requires x0 < U64 && 0 < p < U64
    ensures x == Rem(x0, p)
  {
    x := x0;
    var dx := Deg(x);
    var dp := Deg(p);
    BitsPositive(p);
    while dx >= dp
      invariant x < U64 && dx == Bits(x) - 1 && dp == Bits(p) - 1 && Rem(x, p) == Rem(x0, p)
      decreases dx
    {
      var shift: nat := dx - dp;
      DivisionStep(x, p);
      InWord(x, p);
      assert p * Power2(shift) < U64;
      x := Xor(x, p * Power2(shift));
      dx := Deg(x);
    }
  }

  lemma InWord(x: nat, p: nat)
    requires x < U64 && 0 < p && Bits(p) <= Bits(x)
    ensures p * Power2(Bits(x) - Bits(p)) < U64 && Xor(x, p * Power2(Bits(x) - Bits(p))) < U64
  {
    hide Power2, Xor, Bits;
    Powers();
    BitsShift(p, Bits(x) - Bits(p));
    DivisionStep(x, p);
    BitsBound(x, 64);
    BitsBound(p * Power2(Bits(x) - Bits(p)), 64);
    BitsBound(Xor(x, p * Power2(Bits(x) - Bits(p))), 64);
  }

  // ---------- fingerprints ----------

  // The remainder of a byte string, read as a polynomial.
  function Fingerprint(s: seq<byte>): nat {
    Rem(BigEndian(s), POLYNOMIAL)
  }

  lemma FingerprintBound(s: seq<byte>)
    ensures Fingerprint(s) < Power2(DEGREE)
    ensures Remainder(BigEndian(s), POLYNOMIAL, Fingerprint(s))
  {
    PolynomialDegree();
    RemIsRemainder(BigEndian(s), POLYNOMIAL);
    BitsBound(Fingerprint(s), DEGREE);
  }

  // The simple form: one byte more is one reduction more.
  lemma FingerprintAppend(s: seq<byte>, b: byte)
    ensures Fingerprint(s + [b]) == Rem(Fingerprint(s) * 256 + b, POLYNOMIAL)
  {
    hide Rem, Congruent;
    BigEndianSnoc(s, b);
    RemIsRemainder(BigEndian(s), POLYNOMIAL);
    Powers();
    CongruentAppend(BigEndian(s), Fingerprint(s), POLYNOMIAL, 8, b);
    RemOfCongruent(BigEndian(s + [b]), Fingerprint(s) * 256 + b, POLYNOMIAL);
  }

  lemma {:induction false} BigEndianCons(b: byte, s: seq<byte>)
    ensures BigEndian([b] + s) == b * Power2(8 * |s|) + BigEndian(s) && BigEndian(s) < Power2(8 * |s|)
  {
    if s == [] {
      assert [b] + s == [] + [b];
      BigEndianSnoc([], b);
    } else {
      hide BigEndian, Power2;
      var n := |s| - 1;
      BigEndianCons(b, s[..n]);
      assert [b] + s == ([b] + s[..n]) + [s[n]] && s == s[..n] + [s[n]];
      BigEndianSnoc([b] + s[..n], s[n]);
      BigEndianSnoc(s[..n], s[n]);
      PowerSum(8 * n, 8);
      Powers();
      ShiftByte(b, Power2(8 * n), BigEndian(s[..n]), s[n]);
    }
  }

  lemma ShiftByte(b: nat, p: nat, v: nat, c: byte)
    requires v < p
    ensures (b * p + v) * 256 + c == b * (p * 256) + (v * 256 + c) && v * 256 + c < p * 256
  {
  }

  lemma {:induction false} BigEndianZeros(n: nat)
    ensures BigEndian(Repeat<byte>(0, n)) == 0
  {
    if n > 0 {
      BigEndianZeros(n - 1);
      assert Repeat<byte>(0, n) == Repeat<byte>(0, n - 1) + [0];
      BigEndianSnoc(Repeat<byte>(0, n - 1), 0);
    }
  }

  // Sliding a byte out: adding its own fingerprint, followed by zeros.
  lemma SlideOut(out: byte, rest: seq<byte>)
    ensures Xor(Fingerprint([out] + rest), Fingerprint([out] + Repeat<byte>(0, |rest|))) == Fingerprint(rest)
  {
    hide Rem, Xor, Congruent, Bits, Power2, BigEndian;
    var w, o := [out] + rest, [out] + Repeat<byte>(0, |rest|);
    FingerprintBound(w);
    FingerprintBound(o);
    CongruentSum(BigEndian(w), Fingerprint(w), BigEndian(o), Fingerprint(o), POLYNOMIAL);
    BigEndianCons(out, rest);
    BigEndianCons(out, Repeat<byte>(0, |rest|));
    BigEndianZeros(|rest|);
    XorSplit(8 * |rest|, out, BigEndian(rest), out, 0);
    XorSelf(out);
    XorZero(BigEndian(rest));
    var d := Xor(Fingerprint(w), Fingerprint(o));
    assert Congruent(BigEndian(rest), d, POLYNOMIAL);
    XorBits(Fingerprint(w), Fingerprint(o));
    FingerprintBound(rest);
    RemainderUnique(BigEndian(rest), POLYNOMIAL, d, Fingerprint(rest));
  }

  // An entry of mod_table: the remainder of the eight bits above the degree, and
  // those bits themselves.
  function ModEntry(b: byte): nat {
    Or(Rem(b * 0x20_0000_0000_0000, POLYNOMIAL), b * 0x20_0000_0000_0000)
  }

  // One table lookup reduces: the entry is that of the eight bits below the degree.
  lemma ReduceByTable(d: nat, b: byte)
    requires d < Power2(DEGREE)
    ensures var index := d / 0x2000_0000_0000;
            0 <= index < 256 && Xor(Or(d * 256, b), ModEntry(index)) == Rem(d * 256 + b, POLYNOMIAL)
  {
    hide Rem, Xor, Or, Congruent, Bits, Power2, ModEntry;
    Powers();
    var i: nat, low: nat := d / 0x2000_0000_0000, d % 0x2000_0000_0000 * 256 + b;
    SplitDigest(d, b);
    OrByte(d, b);
    CancelHigh(i, i * 0x20_0000_0000_0000, low);
  }

  lemma OrByte(d: nat, b: byte)
    ensures Or(d * 256, b) == d * 256 + b
  {
    hide Or, Power2;
    Powers();
    OrDisjoint(8, d, b);
  }

  // The table entry cancels the bits above the degree and adds their remainder.
  lemma CancelHigh(i: byte, high: nat, low: nat)
    requires low < Power2(DEGREE) && high == i * 0x20_0000_0000_0000
    ensures Xor(high + low, ModEntry(i)) == Rem(high + low, POLYNOMIAL)
  {
    hide Rem, Xor, Or, Congruent, Bits, Power2;
    PolynomialDegree();
    HighBits(i);
    var m := Rem(high, POLYNOMIAL);
    RemIsRemainder(high, POLYNOMIAL);
    BitsBound(m, DEGREE);
    OrDisjoint(DEGREE, i, m);
    XorSplit(DEGREE, i, low, i, m);
    XorSelf(i);
    BitsBound(Xor(low, m), DEGREE);
    SumOfParts(i, high, low);
    RemIsRemainder(high + low, POLYNOMIAL);
    RemainderUnique(high + low, POLYNOMIAL, Xor(low, m), Rem(high + low, POLYNOMIAL));
  }

  lemma HighBits(i: nat)
    ensures i * Power2(DEGREE) == i * 0x20_0000_0000_0000 && 0 * Power2(DEGREE) == 0
  {
    hide Power2;
    Powers();
  }

  lemma SumOfParts(i: nat, high: nat, low: nat)
    requires low < Power2(DEGREE) && high == i * 0x20_0000_0000_0000
    ensures Congruent(high + low, Xor(low, Rem(high, POLYNOMIAL)), POLYNOMIAL)
  {
    hide Rem, Xor, Congruent, Bits, Power2;
    HighBits(i);
    RemIsRemainder(high, POLYNOMIAL);
    CongruentSelf(low, POLYNOMIAL);
    CongruentSum(low, low, high, Rem(high, POLYNOMIAL), POLYNOMIAL);
    XorSplit(DEGREE, 0, low, i, 0);
    XorZero(low);
    XorZero(i);
  }

  lemma SplitDigest(d: nat, b: byte)
    requires d < 0x20_0000_0000_0000
    ensures var i, low := d / 0x2000_0000_0000, d % 0x2000_0000_0000 * 256 + b;
            d * 256 + b == i * 0x20_0000_0000_0000 + low && low < 0x20_0000_0000_0000 && i < 256
  {
  }

  // append_byte: the eight highest bits of the word are shifted out.
  method AppendByte(hash: nat, b: byte, pol: nat) returns (r: nat)
    requires hash < U64 && 0 < pol < U64
    ensures r == Rem(hash % 0x100_0000_0000_0000 * 256 + b, pol)
  {
    ShiftedOut(hash);
    OrByte(hash % 0x100_0000_0000_0000, b);
    r := Mod(Or(hash * 256 % U64, b), pol);
  }

  lemma ShiftedOut(hash: nat)
    requires hash < U64
    ensures hash * 256 % U64 == hash % 0x100_0000_0000_0000 * 256
    ensures hash % 0x100_0000_0000_0000 < 0x100_0000_0000_0000
  {
  }

  // An entry of out_table: the byte followed by zeros up to the window size.
  function OutEntry(b: byte): nat {
    Fingerprint([b] + Repeat<byte>(0, WINSIZE - 1))
  }

  // Any digest leaves room in the word for one byte.
  lemma Room(s: seq<byte>)
    ensures Fingerprint(s) < 0x100_0000_0000_0000
  {
    hide Power2, Fingerprint;
    Powers();
    FingerprintBound(s);
  }

  method OutTableEntry(b: byte) returns (hash: nat)
    ensures hash == OutEntry(b)
  {
    hide Rem, Fingerprint, Power2;
    FingerprintNone();
    hash := 0;
    Room([]);
    hash := AppendByte(hash, b, POLYNOMIAL);
    FingerprintAppend([], b);
    assert [] + [b] == [b] + Repeat<byte>(0, 0);
    var i := 0;
    while i < WINSIZE - 1
      invariant 0 <= i <= WINSIZE - 1 && hash == Fingerprint([b] + Repeat<byte>(0, i))
    {
      Room([b] + Repeat<byte>(0, i));
      FingerprintAppend([b] + Repeat<byte>(0, i), 0);
      assert [b] + Repeat<byte>(0, i) + [0] == [b] + Repeat<byte>(0, i + 1);
      hash := AppendByte(hash, 0, POLYNOMIAL);
      i := i + 1;
    }
  }

  lemma FingerprintNone()
    ensures Fingerprint([]) == 0
  {
    assert Bits(0) == 0;
    PolynomialDegree();
  }

  method ModTableEntry(b: byte) returns (entry: nat)
    ensures entry == ModEntry(b)
  {
    Powers();
    hide Power2, Rem, Or;
    var high := b * 0x20_0000_0000_0000;
    var m := Mod(high, POLYNOMIAL);
    entry := Or(m, high);
  }

  class RabinCDC {
    const modTable: array<nat>
    const outTable: array<nat>
    const window: array<byte>
    var wpos: nat
    var digest: nat

    ghost predicate Tables()
      reads modTable, outTable
    {
      && modTable.Length == 256 && outTable.Length == 256
      && (forall b :: 0 <= b < 256 ==> modTable[b] == ModEntry(b))
      && (forall b :: 0 <= b < 256 ==> outTable[b] == OutEntry(b))
    }

    // The bytes of the window, oldest first.
    ghost function Contents(): (s: seq<byte>)
      requires wpos < WINSIZE && window.Length == WINSIZE
      reads this, window
      ensures |s| == WINSIZE
    {
      FromOldest(window[..], wpos)
    }

    // The digest is the fingerprint of the window.
    ghost predicate Valid()
      reads this, window, modTable, outTable
    {
      && Tables() && window.Length == WINSIZE && wpos < WINSIZE
      && digest == Fingerprint(Contents()) && digest < Power2(DEGREE)
    }

    // The table-building constructor, and the first rabin_reset.
    constructor ()
      ensures Valid() && Contents() == Repeat<byte>(0, WINSIZE - 1) + [1]
      ensures fresh(window) && fresh(modTable) && fresh(outTable)
    {
      hide Fingerprint, Power2, OutEntry, ModEntry;
      modTable := new nat[256];
      outTable := new nat[256];
      window := new byte[WINSIZE];
      wpos, digest := 0, 0;
      new;
      var b := 0;
      while b < 256
        invariant 0 <= b <= 256
        invariant forall c :: 0 <= c < b ==> outTable[c] == OutEntry(c)
        modifies outTable
      {
        var entry := OutTableEntry(b);
        outTable[b] := entry;
        b := b + 1;
      }
      b := 0;
      while b < 256
        invariant 0 <= b <= 256
        invariant forall c :: 0 <= c < b ==> modTable[c] == ModEntry(c)
        modifies modTable
      {
        var entry := ModTableEntry(b);
        modTable[b] := entry;
        b := b + 1;
      }
      Reset();
    }

    // rabin_reset: a window of zeros, then one.
    method Reset()
      requires Tables() && window.Length == WINSIZE
      modifies this, window
      ensures Valid() && Contents() == Repeat<byte>(0, WINSIZE - 1) + [1]
    {
      hide Fingerprint, Power2, OutEntry, ModEntry, FromOldest;
      var i := 0;
      while i < WINSIZE
        invariant 0 <= i <= WINSIZE && forall j :: 0 <= j < i ==> window[j] == 0
        modifies window
      {
        window[i] := 0;
        i := i + 1;
      }
      digest, wpos := 0, 0;
      assert window[..] == Repeat<byte>(0, WINSIZE);
      FromStart(window[..]);
      ZeroFingerprint(WINSIZE);
      Slide(1);
      assert Repeat<byte>(0, WINSIZE)[1..] == Repeat<byte>(0, WINSIZE - 1);
    }

    // rabin_slide: the oldest byte goes out, b comes in.
    method Slide(b: byte)
      requires Valid()
      modifies this, window
      ensures Valid() && Contents() == old(Contents())[1..] + [b]
    {
      hide Fingerprint, Power2, OutEntry, ModEntry, Xor, FromOldest;
      ghost var before := Contents();
      var out := window[wpos];
      Turn(window[..], wpos, b);
      SlideEntry(out, before[1..]);
      window[wpos] := b;
      digest := Xor(digest, outTable[out]);
      wpos := (wpos + 1) % WINSIZE;
      Append(b, before[1..]);
    }

    // rabin_append.
    method Append(b: byte, ghost rest: seq<byte>)
      requires Tables() && digest == Fingerprint(rest)
      modifies this`digest
      ensures digest == Fingerprint(rest + [b]) && digest < Power2(DEGREE)
    {
      hide Fingerprint, ModEntry, OutEntry, Power2, Or, Xor, Rem;
      AppendDigest(rest, b);
      var index: byte := digest / 0x2000_0000_0000 % 256;
      assert modTable[index] == ModEntry(index);
      digest := digest * 256;
      digest := Or(digest, b);
      digest := Xor(digest, modTable[index]);
    }

    // GetNextChunk: the length of the next chunk of what remains of a file, if it
    // finds one. A tail without a cut yields none, and leaves the window as it is for
    // the next call.
    method GetNextChunk(data: seq<byte>, minChunkSize: nat, maxChunkSize: nat, stopMask: nat) returns (cut: int)
      requires Valid()
      modifies this, window
      ensures Valid()
      ensures data == [] ==> cut == -1
      ensures 0 < |data| <= minChunkSize ==> cut == |data|
      ensures |data| > minChunkSize && cut != -1 ==>
                && 1 <= cut <= |data| && Cuts(old(Contents()), data, cut, minChunkSize, maxChunkSize, stopMask)
                && Contents() == Repeat<byte>(0, WINSIZE - 1) + [1]
      ensures |data| > minChunkSize ==>
                forall k :: 1 <= k < (if cut == -1 then |data| + 1 else cut) ==>
                  !Cuts(old(Contents()), data, k, minChunkSize, maxChunkSize, stopMask)
      ensures |data| > minChunkSize && cut == -1 ==> Contents() == Seen(old(Contents()), data)
      ensures |data| <= minChunkSize ==> Contents() == old(Contents())
    {
      hide Fingerprint, Power2, And, Seen, OutEntry, ModEntry, FromOldest;
      if data == [] {
        return -1;
      }
      if |data| <= minChunkSize {
        return |data|;
      }
      ghost var before := Contents();
      SeenNone(before, data);
      var chunkSize: nat := 1;
      while chunkSize <= |data|
        invariant 1 <= chunkSize <= |data| + 1 && Valid()
        invariant Contents() == Seen(before, data[..chunkSize - 1])
        invariant forall k :: 1 <= k < chunkSize ==> !Cuts(before, data, k, minChunkSize, maxChunkSize, stopMask)
      {
        var b := data[chunkSize - 1];
        Slide(b);
        SeenMore(before, data, chunkSize);
        if (chunkSize >= minChunkSize && And(digest, stopMask) == 0) || chunkSize >= maxChunkSize {
          Reset();
          return chunkSize;
        }
        chunkSize := chunkSize + 1;
      }
      assert data[..|data|] == data;
      return -1;
    }
  }

  // A circular window, oldest byte first.
  function FromOldest(window: seq<byte>, wpos: nat): (s: seq<byte>)
    requires wpos < WINSIZE && |window| == WINSIZE
    ensures |s| == WINSIZE
  {
    window[wpos..] + window[..wpos]
  }

  lemma FromStart(window: seq<byte>)
    requires |window| == WINSIZE
    ensures FromOldest(window, 0) == window
  {
  }

  lemma Turn(window: seq<byte>, wpos: nat, b: byte)
    requires wpos < WINSIZE && |window| == WINSIZE
    ensures var before := FromOldest(window, wpos);
            && before == [window[wpos]] + before[1..]
            && FromOldest(window[wpos := b], (wpos + 1) % WINSIZE) == before[1..] + [b]
  {
    if wpos + 1 == WINSIZE {
      assert (wpos + 1) % WINSIZE == 0;
    } else {
      assert (wpos + 1) % WINSIZE == wpos + 1;
    }
  }

  // The table entry of a byte takes it out of the digest.
  lemma SlideEntry(out: byte, rest: seq<byte>)
    requires |rest| == WINSIZE - 1
    ensures Xor(Fingerprint([out] + rest), OutEntry(out)) == Fingerprint(rest)
  {
    SlideOut(out, rest);
  }

  // One byte more by table.
  lemma AppendDigest(rest: seq<byte>, b: byte)
    ensures var d := Fingerprint(rest);
            && 0 <= d / 0x2000_0000_0000 < 256 && d / 0x2000_0000_0000 % 256 == d / 0x2000_0000_0000
            && Xor(Or(d * 256, b), ModEntry(d / 0x2000_0000_0000)) == Fingerprint(rest + [b])
            && Fingerprint(rest + [b]) < Power2(DEGREE)
  {
    hide Fingerprint, ModEntry, Power2, Or, Xor, Rem;
    FingerprintBound(rest);
    FingerprintAppend(rest, b);
    FingerprintBound(rest + [b]);
    ReduceByTable(Fingerprint(rest), b);
  }

  function And(a: nat, b: nat): nat
    decreases a + b
  {
    if a == 0 && b == 0 then 0
    else 2 * And(a / 2, b / 2) + (if a % 2 == 1 && b % 2 == 1 then 1 else 0)
  }

  // The window after bytes t have slid in.
  function Seen(window: seq<byte>, t: seq<byte>): (s: seq<byte>)
    requires |window| == WINSIZE
    ensures |s| == WINSIZE
  {
    (window + t)[|t|..]
  }

  lemma SeenNone(window: seq<byte>, data: seq<byte>)
    requires |window| == WINSIZE
    ensures Seen(window, data[..0]) == window
  {
  }

  lemma SeenMore(window: seq<byte>, data: seq<byte>, n: nat)
    requires |window| == WINSIZE && 0 < n <= |data|
    ensures Seen(window, data[..n]) == Seen(window, data[..n - 1])[1..] + [data[n - 1]]
  {
    assert data[..n] == data[..n - 1] + [data[n - 1]];
  }

  // A chunk may end after n bytes.
  predicate Cuts(window: seq<byte>, data: seq<byte>, n: nat, minChunkSize: nat, maxChunkSize: nat, stopMask: nat)
    requires |window| == WINSIZE && n <= |data|
  {
    (n >= minChunkSize && And(Fingerprint(Seen(window, data[..n])), stopMask) == 0) || n >= maxChunkSize
  }

  // Boundaries are set by content: beyond the first 48 bytes of a chunk, whether the
  // fingerprint stops it depends on the last 48 bytes only, not on what the window
  // held before.
  lemma ContentDefined(window: seq<byte>, data: seq<byte>, n: nat, window': seq<byte>, data': seq<byte>, n': nat,
                       minChunkSize: nat, maxChunkSize: nat, stopMask: nat)
    requires |window| == |window'| == WINSIZE
    requires WINSIZE <= n <= |data| && WINSIZE <= n' <= |data'|
    requires data[n - WINSIZE..n] == data'[n' - WINSIZE..n']
    requires (minChunkSize <= n < maxChunkSize) && (minChunkSize <= n' < maxChunkSize)
    ensures Cuts(window, data, n, minChunkSize, maxChunkSize, stopMask)
            <==> Cuts(window', data', n', minChunkSize, maxChunkSize, stopMask)
  {
    hide Fingerprint, And;
    assert Seen(window, data[..n]) == data[n - WINSIZE..n];
    assert Seen(window', data'[..n']) == data'[n' - WINSIZE..n'];
  }

  lemma ZeroFingerprint(n: nat)
    ensures Fingerprint(Repeat<byte>(0, n)) == 0 && 0 < Power2(DEGREE)
  {
    BigEndianZeros(n);
    FingerprintNone();
  }
}
