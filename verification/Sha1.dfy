// SHA-1 (utils/sha1.cpp): the unrolled transform over sixteen words kept in place, and
// the context that takes data in pieces, against the standard (FIPS 180-4, sections
// 5.1.1, 5.2.1 and 6.1.2).
module Sha1 {

  type byte8 = bv8
  type word = bv32

  const U32: int := 0x1_0000_0000
  const LENGTHS: int := 0x1_0000_0000_0000_0000

  // ---------- the standard ----------

  function Rol(x: word, n: bv8): word
    requires n <= 32
  {
    (x << n) | (x >> (32 - n))
  }

  function Ch(x: word, y: word, z: word): word {
    (x & y) ^ (!x & z)
  }

  function Parity(x: word, y: word, z: word): word {
    x ^ y ^ z
  }

  function Maj(x: word, y: word, z: word): word {
    (x & y) ^ (x & z) ^ (y & z)
  }

  function F(t: nat, x: word, y: word, z: word): word {
    if t < 20 then Ch(x, y, z) else if t < 40 then Parity(x, y, z) else if t < 60 then Maj(x, y, z) else Parity(x, y, z)
  }

  function K(t: nat): word {
    if t < 20 then 0x5A82_7999 else if t < 40 then 0x6ED9_EBA1 else if t < 60 then 0x8F1B_BCDC else 0xCA62_C1D6
  }

  // The working variables, and the hash value.
  datatype Regs = Regs(a: word, b: word, c: word, d: word, e: word)

  function BigWord(b0: byte8, b1: byte8, b2: byte8, b3: byte8): word {
    ((b0 as word) << 24) | ((b1 as word) << 16) | ((b2 as word) << 8) | (b3 as word)
  }

  type block = m: seq<byte8> | |m| == 64 witness seq(64, _ => 0)

  function WordAt(m: block, j: nat): word
    requires j < 16
  {
    BigWord(m[4 * j], m[4 * j + 1], m[4 * j + 2], m[4 * j + 3])
  }

  function Expanded(a: word, b: word, c: word, d: word): word {
    Rol(a ^ b ^ c ^ d, 1)
  }

  // The message schedule.
  function W(m: block, t: nat): word {
    if t < 16 then WordAt(m, t) else Expanded(W(m, t - 3), W(m, t - 8), W(m, t - 14), W(m, t - 16))
  }

  function RoundSum(r: word, f: word, e: word, k: word, w: word): word {
    r + f + e + k + w
  }

  function Round(r: Regs, t: nat, w: word): Regs {
    Regs(RoundSum(Rol(r.a, 5), F(t, r.b, r.c, r.d), r.e, K(t), w), r.a, Rol(r.b, 30), r.c, r.d)
  }

  function Rounds(m: block, h: Regs, t: nat): Regs {
    if t == 0 then h else Round(Rounds(m, h, t - 1), t - 1, W(m, t - 1))
  }

  function Plus(x: word, y: word): word {
    x + y
  }

  function Added(h: Regs, r: Regs): Regs {
    Regs(Plus(h.a, r.a), Plus(h.b, r.b), Plus(h.c, r.c), Plus(h.d, r.d), Plus(h.e, r.e))
  }

  const H0: Regs := Regs(0x6745_2301, 0xEFCD_AB89, 0x98BA_DCFE, 0x1032_5476, 0xC3D2_E1F0)

  // The hash value after whole blocks.
  function Chain(s: seq<byte8>): Regs
    requires |s| % 64 == 0
  {
    if s == [] then H0
    else
      var n := |s| - 64;
      var h := Chain(s[..n]);
      Added(h, Rounds(s[n..], h, 80))
  }

  // The last n bytes of a number, most significant first.
  function LowBytes(x: nat, n: nat): (s: seq<byte8>)
    ensures |s| == n
  {
    if n == 0 then [] else LowBytes(x / 256, n - 1) + [(x % 256) as byte8]
  }

  // How many zero bytes follow the one bit.
  function Fill(n: nat): (k: nat)
    ensures (n + 1 + k) % 64 == 56 && k < 64
  {
    if n % 64 < 56 then 55 - n % 64 else 119 - n % 64
  }

  // A message of fewer than 2^64 bits, padded.
  function Padded(message: seq<byte8>): (s: seq<byte8>)
    ensures |s| % 64 == 0
  {
    PaddedLength(|message|, Fill(|message|));
    message + [0x80] + seq(Fill(|message|), _ => 0) + LowBytes(8 * |message|, 8)
  }

  lemma PaddedLength(n: nat, k: nat)
    requires (n + 1 + k) % 64 == 56
    ensures (n + 1 + k + 8) % 64 == 0
  {
  }

  function WordBytes(w: word): seq<byte8> {
    [(w >> 24) as byte8, ((w >> 16) & 255) as byte8, ((w >> 8) & 255) as byte8, (w & 255) as byte8]
  }

  // The digest of a message.
  function Digest(message: seq<byte8>): seq<byte8> {
    RegBytes(Chain(Padded(message)))
  }

  function RegBytes(h: Regs): seq<byte8> {
    WordBytes(h.a) + WordBytes(h.b) + WordBytes(h.c) + WordBytes(h.d) + WordBytes(h.e)
  }

  // ---------- SHA1Transform ----------

  // A word of the block as a little-endian machine loads it.
  function Loaded(m: block, j: nat): word
    requires j < 16
  {
    BigWord(m[4 * j + 3], m[4 * j + 2], m[4 * j + 1], m[4 * j])
  }

  // The bytes of a word the other way round.
  function Swap(l: word): word {
    (Rol(l, 24) & 0xFF00_FF00) | (Rol(l, 8) & 0x00FF_00FF)
  }

  lemma Swapped(b0: byte8, b1: byte8, b2: byte8, b3: byte8)
    ensures Swap(BigWord(b3, b2, b1, b0)) == BigWord(b0, b1, b2, b3)
  {
  }

  // What the macros add and rotate.
  function Choose(w: word, x: word, y: word): word {
    (w & (x ^ y)) ^ y
  }

  function Majority(w: word, x: word, y: word): word {
    ((w | x) & y) | (w & x)
  }

  function Accumulate(z: word, f: word, w: word, k: word, r: word): word {
    z + (f + w + k + r)
  }

  lemma ChIs(w: word, x: word, y: word)
    ensures Choose(w, x, y) == Ch(w, x, y)
  {
    assert (w & (x ^ y)) ^ y == (w & x) ^ (!w & y);
  }

  lemma MajIs(w: word, x: word, y: word)
    ensures Majority(w, x, y) == Maj(w, x, y)
  {
    assert ((w | x) & y) | (w & x) == (w & x) ^ (w & y) ^ (x & y);
  }

  // The sixteen words before operation t: the last sixteen of the schedule, and at
  // first words as loaded.
  ghost predicate Scheduled(l: seq<word>, m: block, t: nat) {
    && |l| == 16
    && (forall u {:trigger W(m, u)} :: 0 <= u < t && t - 16 <= u ==> l[u % 16] == W(m, u))
    && (forall j {:trigger Loaded(m, j)} :: t <= j < 16 ==> l[j] == Loaded(m, j))
  }

  // Word i of the schedule replaces the one it is made from.
  lemma ScheduledNext(l: seq<word>, m: block, t: nat)
    requires Scheduled(l, m, t)
    ensures t % 16 < |l| && Scheduled(l[t % 16 := W(m, t)], m, t + 1)
  {
    hide W, Loaded;
    forall u {:trigger W(m, u)} | 0 <= u < t + 1 && t + 1 - 16 <= u
      ensures l[t % 16 := W(m, t)][u % 16] == W(m, u)
    {
      if u < t {
        Apart(u, t);
      }
    }
    if t < 16 {
      assert t % 16 == t;
    }
  }

  lemma Apart(u: nat, t: nat)
    requires t - 16 < u < t
    ensures u % 16 != t % 16
  {
  }

  // What the words that make it up stand for.
  lemma ScheduledUsed(l: seq<word>, m: block, t: nat)
    requires Scheduled(l, m, t) && t >= 16
    ensures |l| == 16 && l[(t + 13) % 16] == W(m, t - 3) && l[(t + 8) % 16] == W(m, t - 8)
    ensures l[(t + 2) % 16] == W(m, t - 14) && l[t % 16] == W(m, t - 16)
  {
    hide W, Loaded;
    assert (t + 13) % 16 == (t - 3) % 16 && (t + 8) % 16 == (t - 8) % 16;
    assert (t + 2) % 16 == (t - 14) % 16 && t % 16 == (t - 16) % 16;
  }

  lemma ScheduledLoaded(l: seq<word>, m: block, t: nat)
    requires Scheduled(l, m, t) && t < 16
    ensures l[t] == Loaded(m, t) && W(m, t) == WordAt(m, t)
  {
    hide Loaded, WordAt;
  }

  // A word swapped is the word the standard reads.
  lemma SwappedAt(m: block, j: nat)
    requires j < 16
    ensures Swap(Loaded(m, j)) == WordAt(m, j)
  {
    Swapped(m[4 * j], m[4 * j + 1], m[4 * j + 2], m[4 * j + 3]);
    hide Swap, BigWord;
  }

  // blk0.
  method Blk0(l: array<word>, i: nat, ghost m: block) returns (w: word)
    requires i < 16 && Scheduled(l[..], m, i)
    modifies l
    ensures w == W(m, i) && Scheduled(l[..], m, i + 1)
  {
    hide *;
    ghost var before := l[..];
    ScheduledNext(before, m, i);
    ScheduledLoaded(before, m, i);
    SwappedAt(m, i);
    w := Swap(l[i]);
    l[i] := w;
    assert l[..] == before[i := W(m, i)];
  }

  // blk.
  method Blk(l: array<word>, i: nat, ghost m: block) returns (w: word)
    requires i >= 16 && Scheduled(l[..], m, i)
    modifies l
    ensures w == W(m, i) && Scheduled(l[..], m, i + 1)
  {
    hide *;
    ghost var before := l[..];
    ScheduledNext(before, m, i);
    ScheduledUsed(before, m, i);
    Unfold(m, i);
    w := Expanded(l[(i + 13) % 16], l[(i + 8) % 16], l[(i + 2) % 16], l[i % 16]);
    l[i % 16] := w;
    assert l[..] == before[i % 16 := W(m, i)];
  }

  lemma Unfold(m: block, t: nat)
    requires t >= 16
    ensures W(m, t) == Expanded(W(m, t - 3), W(m, t - 8), W(m, t - 14), W(m, t - 16))
  {
    hide Expanded, WordAt;
  }

  // Before operation t the variables, under their names at that operation, are the
  // working variables.
  ghost predicate At(l: array<word>, m: block, h: Regs, t: nat, v: word, w: word, x: word, y: word, z: word)
    reads l
  {
    Scheduled(l[..], m, t) && Rounds(m, h, t) == Regs(v, w, x, y, z)
  }

  lemma Before(l: array<word>, m: block, h: Regs, t: nat, v: word, w: word, x: word, y: word, z: word)
    requires At(l, m, h, t, v, w, x, y, z)
    ensures Scheduled(l[..], m, t) && Rounds(m, h, t) == Regs(v, w, x, y, z)
  {
    hide Scheduled, Rounds;
  }

  // One operation is one round, with the names turned by one.
  lemma OneRound(l: array<word>, m: block, h: Regs, t: nat, v: word, w: word, x: word, y: word, z: word,
                 f: word, wt: word, w': word, z': word)
    requires Rounds(m, h, t) == Regs(v, w, x, y, z) && Scheduled(l[..], m, t + 1) && wt == W(m, t) && t < 80
    requires f == F(t, w, x, y) && w' == Rol(w, 30) && z' == Accumulate(z, f, wt, K(t), Rol(v, 5))
    ensures At(l, m, h, t + 1, z', v, w', x, y)
  {
    hide Scheduled, W, Rol, F, K, Accumulate, RoundSum;
    Reordered(z, f, wt, K(t), Rol(v, 5));
  }

  lemma Reordered(z: word, f: word, w: word, k: word, r: word)
    ensures Accumulate(z, f, w, k, r) == RoundSum(r, f, z, k, w)
  {
  }

  // Which function and constant.
  lemma Stage(t: nat, w: word, x: word, y: word)
    requires t < 80
    ensures t < 20 ==> F(t, w, x, y) == Ch(w, x, y) && K(t) == 0x5A82_7999
    ensures 20 <= t < 40 ==> F(t, w, x, y) == Parity(w, x, y) && K(t) == 0x6ED9_EBA1
    ensures 40 <= t < 60 ==> F(t, w, x, y) == Maj(w, x, y) && K(t) == 0x8F1B_BCDC
    ensures 60 <= t ==> F(t, w, x, y) == Parity(w, x, y) && K(t) == 0xCA62_C1D6
  {
    hide Ch, Parity, Maj;
  }

  method R0(l: array<word>, v: word, w: word, x: word, y: word, z: word, i: nat, ghost m: block, ghost h: Regs)
    returns (w': word, z': word)
    requires i < 16 && At(l, m, h, i, v, w, x, y, z)
    modifies l
    ensures At(l, m, h, i + 1, z', v, w', x, y)
  {
    hide *;
    Before(l, m, h, i, v, w, x, y, z);
    var wt := Blk0(l, i, m);
    z' := Accumulate(z, Choose(w, x, y), wt, 0x5A82_7999, Rol(v, 5));
    w' := Rol(w, 30);
    ChIs(w, x, y);
    Stage(i, w, x, y);
    OneRound(l, m, h, i, v, w, x, y, z, Ch(w, x, y), wt, w', z');
  }

  method R1(l: array<word>, v: word, w: word, x: word, y: word, z: word, i: nat, ghost m: block, ghost h: Regs)
    returns (w': word, z': word)
    requires 16 <= i < 20 && At(l, m, h, i, v, w, x, y, z)
    modifies l
    ensures At(l, m, h, i + 1, z', v, w', x, y)
  {
    hide *;
    Before(l, m, h, i, v, w, x, y, z);
    var wt := Blk(l, i, m);
    z' := Accumulate(z, Choose(w, x, y), wt, 0x5A82_7999, Rol(v, 5));
    w' := Rol(w, 30);
    ChIs(w, x, y);
    Stage(i, w, x, y);
    OneRound(l, m, h, i, v, w, x, y, z, Ch(w, x, y), wt, w', z');
  }

  method R2(l: array<word>, v: word, w: word, x: word, y: word, z: word, i: nat, ghost m: block, ghost h: Regs)
    returns (w': word, z': word)
    requires 20 <= i < 40 && At(l, m, h, i, v, w, x, y, z)
    modifies l
    ensures At(l, m, h, i + 1, z', v, w', x, y)
  {
    hide *;
    Before(l, m, h, i, v, w, x, y, z);
    var wt := Blk(l, i, m);
    z' := Accumulate(z, Parity(w, x, y), wt, 0x6ED9_EBA1, Rol(v, 5));
    w' := Rol(w, 30);
    Stage(i, w, x, y);
    OneRound(l, m, h, i, v, w, x, y, z, Parity(w, x, y), wt, w', z');
  }

  method R3(l: array<word>, v: word, w: word, x: word, y: word, z: word, i: nat, ghost m: block, ghost h: Regs)
    returns (w': word, z': word)
    requires 40 <= i < 60 && At(l, m, h, i, v, w, x, y, z)
    modifies l
    ensures At(l, m, h, i + 1, z', v, w', x, y)
  {
    hide *;
    Before(l, m, h, i, v, w, x, y, z);
    var wt := Blk(l, i, m);
    z' := Accumulate(z, Majority(w, x, y), wt, 0x8F1B_BCDC, Rol(v, 5));
    w' := Rol(w, 30);
    MajIs(w, x, y);
    Stage(i, w, x, y);
    OneRound(l, m, h, i, v, w, x, y, z, Maj(w, x, y), wt, w', z');
  }

  method R4(l: array<word>, v: word, w: word, x: word, y: word, z: word, i: nat, ghost m: block, ghost h: Regs)
    returns (w': word, z': word)
    requires 60 <= i < 80 && At(l, m, h, i, v, w, x, y, z)
    modifies l
    ensures At(l, m, h, i + 1, z', v, w', x, y)
  {
    hide *;
    Before(l, m, h, i, v, w, x, y, z);
    var wt := Blk(l, i, m);
    z' := Accumulate(z, Parity(w, x, y), wt, 0xCA62_C1D6, Rol(v, 5));
    w' := Rol(w, 30);
    Stage(i, w, x, y);
    OneRound(l, m, h, i, v, w, x, y, z, Parity(w, x, y), wt, w', z');
  }

  // Operations 0 to 19.
  method Operations1(l: array<word>, a0: word, b0: word, c0: word, d0: word, e0: word, ghost m: block, ghost h: Regs)
    returns (a: word, b: word, c: word, d: word, e: word)
    requires At(l, m, h, 0, a0, b0, c0, d0, e0)
    modifies l
    ensures At(l, m, h, 20, a, b, c, d, e)
  {
    hide *;
    a, b, c, d, e := a0, b0, c0, d0, e0;
    b, e := R0(l, a, b, c, d, e, 0, m, h);
    a, d := R0(l, e, a, b, c, d, 1, m, h);
    e, c := R0(l, d, e, a, b, c, 2, m, h);
    d, b := R0(l, c, d, e, a, b, 3, m, h);
    c, a := R0(l, b, c, d, e, a, 4, m, h);
    b, e := R0(l, a, b, c, d, e, 5, m, h);
    a, d := R0(l, e, a, b, c, d, 6, m, h);
    e, c := R0(l, d, e, a, b, c, 7, m, h);
    d, b := R0(l, c, d, e, a, b, 8, m, h);
    c, a := R0(l, b, c, d, e, a, 9, m, h);
    b, e := R0(l, a, b, c, d, e, 10, m, h);
    a, d := R0(l, e, a, b, c, d, 11, m, h);
    e, c := R0(l, d, e, a, b, c, 12, m, h);
    d, b := R0(l, c, d, e, a, b, 13, m, h);
    c, a := R0(l, b, c, d, e, a, 14, m, h);
    b, e := R0(l, a, b, c, d, e, 15, m, h);
    a, d := R1(l, e, a, b, c, d, 16, m, h);
    e, c := R1(l, d, e, a, b, c, 17, m, h);
    d, b := R1(l, c, d, e, a, b, 18, m, h);
    c, a := R1(l, b, c, d, e, a, 19, m, h);
  }

  // Operations 20 to 39.
  method Operations2(l: array<word>, a0: word, b0: word, c0: word, d0: word, e0: word, ghost m: block, ghost h: Regs)
    returns (a: word, b: word, c: word, d: word, e: word)
    requires At(l, m, h, 20, a0, b0, c0, d0, e0)
    modifies l
    ensures At(l, m, h, 40, a, b, c, d, e)
  {
    hide *;
    a, b, c, d, e := a0, b0, c0, d0, e0;
    b, e := R2(l, a, b, c, d, e, 20, m, h);
    a, d := R2(l, e, a, b, c, d, 21, m, h);
    e, c := R2(l, d, e, a, b, c, 22, m, h);
    d, b := R2(l, c, d, e, a, b, 23, m, h);
    c, a := R2(l, b, c, d, e, a, 24, m, h);
    b, e := R2(l, a, b, c, d, e, 25, m, h);
    a, d := R2(l, e, a, b, c, d, 26, m, h);
    e, c := R2(l, d, e, a, b, c, 27, m, h);
    d, b := R2(l, c, d, e, a, b, 28, m, h);
    c, a := R2(l, b, c, d, e, a, 29, m, h);
    b, e := R2(l, a, b, c, d, e, 30, m, h);
    a, d := R2(l, e, a, b, c, d, 31, m, h);
    e, c := R2(l, d, e, a, b, c, 32, m, h);
    d, b := R2(l, c, d, e, a, b, 33, m, h);
    c, a := R2(l, b, c, d, e, a, 34, m, h);
    b, e := R2(l, a, b, c, d, e, 35, m, h);
    a, d := R2(l, e, a, b, c, d, 36, m, h);
    e, c := R2(l, d, e, a, b, c, 37, m, h);
    d, b := R2(l, c, d, e, a, b, 38, m, h);
    c, a := R2(l, b, c, d, e, a, 39, m, h);
  }

  // Operations 40 to 59.
  method Operations3(l: array<word>, a0: word, b0: word, c0: word, d0: word, e0: word, ghost m: block, ghost h: Regs)
    returns (a: word, b: word, c: word, d: word, e: word)
    requires At(l, m, h, 40, a0, b0, c0, d0, e0)
    modifies l
    ensures At(l, m, h, 60, a, b, c, d, e)
  {
    hide *;
    a, b, c, d, e := a0, b0, c0, d0, e0;
    b, e := R3(l, a, b, c, d, e, 40, m, h);
    a, d := R3(l, e, a, b, c, d, 41, m, h);
    e, c := R3(l, d, e, a, b, c, 42, m, h);
    d, b := R3(l, c, d, e, a, b, 43, m, h);
    c, a := R3(l, b, c, d, e, a, 44, m, h);
    b, e := R3(l, a, b, c, d, e, 45, m, h);
    a, d := R3(l, e, a, b, c, d, 46, m, h);
    e, c := R3(l, d, e, a, b, c, 47, m, h);
    d, b := R3(l, c, d, e, a, b, 48, m, h);
    c, a := R3(l, b, c, d, e, a, 49, m, h);
    b, e := R3(l, a, b, c, d, e, 50, m, h);
    a, d := R3(l, e, a, b, c, d, 51, m, h);
    e, c := R3(l, d, e, a, b, c, 52, m, h);
    d, b := R3(l, c, d, e, a, b, 53, m, h);
    c, a := R3(l, b, c, d, e, a, 54, m, h);
    b, e := R3(l, a, b, c, d, e, 55, m, h);
    a, d := R3(l, e, a, b, c, d, 56, m, h);
    e, c := R3(l, d, e, a, b, c, 57, m, h);
    d, b := R3(l, c, d, e, a, b, 58, m, h);
    c, a := R3(l, b, c, d, e, a, 59, m, h);
  }

  // Operations 60 to 79.
  method Operations4(l: array<word>, a0: word, b0: word, c0: word, d0: word, e0: word, ghost m: block, ghost h: Regs)
    returns (a: word, b: word, c: word, d: word, e: word)
    requires At(l, m, h, 60, a0, b0, c0, d0, e0)
    modifies l
    ensures At(l, m, h, 80, a, b, c, d, e)
  {
    hide *;
    a, b, c, d, e := a0, b0, c0, d0, e0;
    b, e := R4(l, a, b, c, d, e, 60, m, h);
    a, d := R4(l, e, a, b, c, d, 61, m, h);
    e, c := R4(l, d, e, a, b, c, 62, m, h);
    d, b := R4(l, c, d, e, a, b, 63, m, h);
    c, a := R4(l, b, c, d, e, a, 64, m, h);
    b, e := R4(l, a, b, c, d, e, 65, m, h);
    a, d := R4(l, e, a, b, c, d, 66, m, h);
    e, c := R4(l, d, e, a, b, c, 67, m, h);
    d, b := R4(l, c, d, e, a, b, 68, m, h);
    c, a := R4(l, b, c, d, e, a, 69, m, h);
    b, e := R4(l, a, b, c, d, e, 70, m, h);
    a, d := R4(l, e, a, b, c, d, 71, m, h);
    e, c := R4(l, d, e, a, b, c, 72, m, h);
    d, b := R4(l, c, d, e, a, b, 73, m, h);
    c, a := R4(l, b, c, d, e, a, 74, m, h);
    b, e := R4(l, a, b, c, d, e, 75, m, h);
    a, d := R4(l, e, a, b, c, d, 76, m, h);
    e, c := R4(l, d, e, a, b, c, 77, m, h);
    d, b := R4(l, c, d, e, a, b, 78, m, h);
    c, a := R4(l, b, c, d, e, a, 79, m, h);
  }

  // SHA1Transform, on a copy of the block.
  method Transform(state: array<word>, buffer: seq<byte8>)
    requires state.Length == 5 && |buffer| == 64
    modifies state
    ensures var h := old(StateRegs(state)); StateRegs(state) == Added(h, Rounds(buffer, h, 80))
  {
    hide *;
    ghost var m: block, h := buffer, StateRegs(state);
    var l := Load(buffer);
    var a, b, c, d, e := state[0], state[1], state[2], state[3], state[4];
    AtStart(l, state, m, h);
    a, b, c, d, e := Operations1(l, a, b, c, d, e, m, h);
    a, b, c, d, e := Operations2(l, a, b, c, d, e, m, h);
    a, b, c, d, e := Operations3(l, a, b, c, d, e, m, h);
    a, b, c, d, e := Operations4(l, a, b, c, d, e, m, h);
    AtEnd(l, m, h, a, b, c, d, e);
    AddTo(state, a, b, c, d, e);
  }

  // The working copy.
  method Load(buffer: seq<byte8>) returns (l: array<word>)
    requires |buffer| == 64
    ensures fresh(l) && l.Length == 16 && Scheduled(l[..], buffer, 0)
  {
    hide BigWord;
    l := new word[16](i requires 0 <= i < 16 => BigWord(buffer[4 * i + 3], buffer[4 * i + 2], buffer[4 * i + 1], buffer[4 * i]));
  }

  method AddTo(state: array<word>, a: word, b: word, c: word, d: word, e: word)
    requires state.Length == 5
    modifies state
    ensures StateRegs(state) == Added(old(StateRegs(state)), Regs(a, b, c, d, e))
  {
    hide Plus;
    state[0] := Plus(state[0], a);
    state[1] := Plus(state[1], b);
    state[2] := Plus(state[2], c);
    state[3] := Plus(state[3], d);
    state[4] := Plus(state[4], e);
  }

  lemma AtStart(l: array<word>, state: array<word>, m: block, h: Regs)
    requires l.Length == 16 && Scheduled(l[..], m, 0) && state.Length == 5 && h == StateRegs(state)
    ensures At(l, m, h, 0, state[0], state[1], state[2], state[3], state[4])
  {
    hide Scheduled;
  }

  ghost function StateRegs(state: array<word>): Regs
    requires state.Length == 5
    reads state
  {
    Regs(state[0], state[1], state[2], state[3], state[4])
  }

  lemma AtEnd(l: array<word>, m: block, h: Regs, a: word, b: word, c: word, d: word, e: word)
    requires At(l, m, h, 80, a, b, c, d, e)
    ensures Rounds(m, h, 80) == Regs(a, b, c, d, e)
  {
    hide Rounds;
  }

  // ---------- the context ----------

  // One more block.
  lemma ChainNext(s: seq<byte8>, p: nat)
    requires p % 64 == 0 && p + 64 <= |s|
    ensures (p + 64) % 64 == 0
    ensures Chain(s[..p + 64]) == Added(Chain(s[..p]), Rounds(s[p..p + 64], Chain(s[..p]), 80))
  {
    hide Rounds, Added;
    var t := s[..p + 64];
    assert t[..p] == s[..p] && t[p..] == s[p..p + 64];
  }

  // The bits counted, modulo 2^64, in two words.
  ghost predicate Counted(count0: nat, count1: nat, n: nat) {
    count0 < U32 && count1 < U32 && 8 * n % LENGTHS == count1 * U32 + count0
  }

  function AddLow(count0: nat, len: nat): nat {
    (count0 + len * 8 % U32) % U32
  }

  // With the carry, seen from the sum being less.
  function AddHigh(count0: nat, count1: nat, len: nat): nat {
    ((if AddLow(count0, len) < count0 then (count1 + 1) % U32 else count1) + len / 0x2000_0000) % U32
  }

  lemma CountAdds(count0: nat, count1: nat, n: nat, len: nat)
    requires Counted(count0, count1, n) && len < U32
    ensures Counted(AddLow(count0, len), AddHigh(count0, count1, len), n + len)
  {
    var r, h := len * 8 % U32, len / 0x2000_0000;
    var carry := LowAdds(count0, len, r);
    HighAdds(count0, count1, len, h, carry);
    EightTimes(len, r, h);
    hide AddLow, AddHigh;
    var q := 8 * n / LENGTHS;
    assert 8 * n == q * LENGTHS + count1 * U32 + count0;
    WrapHigh(8 * (n + len), q, count1 + h + carry, AddLow(count0, len));
  }

  lemma EightTimes(len: nat, r: nat, h: nat)
    requires r == len * 8 % U32 && h == len / 0x2000_0000
    ensures len * 8 == h * U32 + r
  {
  }

  lemma LowAdds(count0: nat, len: nat, r: nat) returns (carry: nat)
    requires count0 < U32 && r == len * 8 % U32
    ensures AddLow(count0, len) == count0 + r - carry * U32 < U32 && carry <= 1
    ensures AddLow(count0, len) < count0 <==> carry == 1
  {
    carry := if count0 + r >= U32 then 1 else 0;
  }

  lemma HighAdds(count0: nat, count1: nat, len: nat, h: nat, carry: nat)
    requires carry <= 1 && (AddLow(count0, len) < count0 <==> carry == 1) && h == len / 0x2000_0000
    ensures AddHigh(count0, count1, len) == (count1 + h + carry) % U32
  {
    hide AddLow;
    if carry == 1 {
      Carried(count1 + 1, h);
    }
  }

  lemma Carried(a: nat, b: nat)
    ensures (a % U32 + b) % U32 == (a + b) % U32
  {
  }

  lemma WrapHigh(total: nat, q: nat, high: nat, low: nat)
    requires total == q * LENGTHS + high * U32 + low && low < U32
    ensures total % LENGTHS == high % U32 * U32 + low
  {
    var g := high / U32;
    assert total == (q + g) * LENGTHS + (high % U32 * U32 + low);
  }

  // The 32-bit sum of place and length says whether a block is complete exactly if it
  // does not wrap.
  lemma PlaceSum(j: nat, len: nat)
    requires j < 64 && len < U32
    ensures ((j + len) % U32 > 63 <==> j + len > 63) <==> j + len < U32
  {
    if j + len >= U32 {
      assert (j + len) % U32 == j + len - U32;
    }
  }

  // The smallest length at which each goes wrong: the index never reaches 2^32, and a
  // full buffer with 2^32 - 1 bytes more is taken for one that is not complete.
  lemma LengthsTooLong()
    ensures (forall k: nat :: Index(k) < U32) && 63 + (U32 - 1) > 63 && (63 + (U32 - 1)) % U32 == 62
  {
  }

  // The place in the buffer.
  lemma CountPlace(count0: nat, count1: nat, n: nat)
    requires Counted(count0, count1, n)
    ensures count0 / 8 % 64 == n % 64
  {
    var q := 8 * n / LENGTHS;
    assert 8 * n == q * LENGTHS + count1 * U32 + count0;
    PlaceAbove(n, q * 0x80_0000_0000_0000 + count1 * 0x80_0000, count0);
  }

  lemma PlaceAbove(n: nat, k: nat, count0: nat)
    requires 8 * n == 512 * k + count0
    ensures count0 / 8 % 64 == n % 64
  {
    assert n == 64 * k + count0 / 8;
  }

  // Whole blocks are in the state, and the rest in the buffer.
  ghost predicate Taken(message: seq<byte8>, regs: Regs, buffer: seq<byte8>) {
    var n := |message| - |message| % 64;
    |buffer| == 64 && regs == Chain(message[..n]) && buffer[..|message| % 64] == message[n..]
  }

  class Context {
    const state: array<word>
    const buffer: array<byte8>
    var count0: nat
    var count1: nat
    // All data so far.
    ghost var message: seq<byte8>

    ghost predicate Valid()
      reads this, state, buffer
    {
      && state.Length == 5 && buffer.Length == 64 && state as object != buffer as object
      && Counted(count0, count1, |message|) && Taken(message, StateRegs(state), buffer[..])
    }

    // SHA1Init.
    constructor ()
      ensures Valid() && message == [] && fresh(state) && fresh(buffer)
    {
      state := new word[] [0x6745_2301, 0xEFCD_AB89, 0x98BA_DCFE, 0x1032_5476, 0xC3D2_E1F0];
      buffer := new byte8[64](_ => 0);
      count0, count1, message := 0, 0, [];
    }

    // SHA1Update, for data that with what is in the buffer has a 32-bit length: only
    // then is the test for a whole block right (PlaceSum).
    method Update(data: seq<byte8>)
      requires Valid() && |message| % 64 + |data| < U32
      modifies this, state, buffer
      ensures Valid() && message == old(message) + data
    {
      hide Chain, Rounds, Counted, AddLow, AddHigh, Added, Taken;
      ghost var n := |message|;
      var len := |data|;
      var j := count0;
      CountAdds(count0, count1, n, len);
      CountPlace(count0, count1, n);
      count0, count1 := AddLow(count0, len), AddHigh(count0, count1, len);
      j := j / 8 % 64;
      PlaceSum(j, len);
      if (j + len) % U32 > 63 {
        var i := WholeBlocks(data, j);
        Put(0, data[i..]);
        TakenLong(message, data, i, StateRegs(state), buffer[..]);
      } else {
        ghost var before := buffer[..];
        Put(j, data);
        TakenShort(message, data, StateRegs(state), before, buffer[..]);
      }
      message := message + data;
    }

    // The blocks that data completes, from the buffer and then from the data itself.
    method WholeBlocks(data: seq<byte8>, j: nat) returns (i: nat)
      requires state.Length == 5 && buffer.Length == 64 && state as object != buffer as object
      requires Taken(message, StateRegs(state), buffer[..]) && j == |message| % 64 && j + |data| > 63
      modifies state, buffer
      ensures i <= |data| && (|message| + i) % 64 == 0 && i + 63 >= |data|
      ensures StateRegs(state) == Chain((message + data)[..|message| + i])
    {
      hide Chain, Rounds, Added;
      ghost var all, n, before := message + data, |message|, buffer[..];
      i := 64 - j;
      Put(j, data[..i]);
      BlockEnds(message, data, i, before, buffer[..]);
      Transform(state, buffer[..]);
      while i + 63 < |data|
        invariant i <= |data| && (n + i) % 64 == 0 && StateRegs(state) == Chain(all[..n + i])
      {
        ChainNext(all, n + i);
        assert all[n + i..n + i + 64] == data[i..i + 64];
        Transform(state, data[i..i + 64]);
        i := i + 64;
      }
    }

    // SHA1Final: padding, a byte at a time, and the digest. The guard looks at the bits
    // of the count that say where in a block the data ends.
    method Final() returns (digest: seq<byte8>)
      requires Valid()
      modifies this, state, buffer
      ensures digest == Digest(old(message))
    {
      hide *;
      ghost var all := message;
      Shapes();
      var finalcount := CountBytes(count1) + CountBytes(count0);
      CountWritten(count0, count1, |message|);
      Update([0x80]);
      ghost var zeros: nat := 0;
      PadStart(all);
      while count0 / 8 % 64 * 8 != 448
        invariant Valid() && zeros <= Fill(|all|) && message == PadSoFar(all, zeros)
        decreases Fill(|all|) - zeros
      {
        Shapes();
        CountPlace(count0, count1, |message|);
        PadMore(all, zeros);
        Update([0]);
        zeros := zeros + 1;
      }
      Shapes();
      CountPlace(count0, count1, |message|);
      PadEnd(all, zeros, finalcount);
      Update(finalcount);
      Shapes();
      TakenWhole(message, StateRegs(state), buffer[..]);
      digest := Output();
      DigestIs(all, StateRegs(state));
    }

    lemma Shapes()
      requires Valid()
      ensures state.Length == 5 && buffer.Length == 64 && state as object != buffer as object
      ensures Counted(count0, count1, |message|) && Taken(message, StateRegs(state), buffer[..])
      ensures |message| % 64 + 8 < U32
    {
      hide Counted, Taken;
    }

    // The bytes of the five words.
    method Output() returns (digest: seq<byte8>)
      requires state.Length == 5
      ensures digest == RegBytes(StateRegs(state))
    {
      hide WordBytes;
      digest := [];
      for i := 0 to 5
        invariant i == 0 ==> digest == []
        invariant i == 1 ==> digest == WordBytes(state[0])
        invariant i == 2 ==> digest == WordBytes(state[0]) + WordBytes(state[1])
        invariant i == 3 ==> digest == WordBytes(state[0]) + WordBytes(state[1]) + WordBytes(state[2])
        invariant i == 4 ==> digest == WordBytes(state[0]) + WordBytes(state[1]) + WordBytes(state[2]) + WordBytes(state[3])
        invariant i == 5 ==> digest == RegBytes(StateRegs(state))
      {
        digest := digest + WordBytes(state[i]);
      }
    }

    // memcpy into the buffer.
    method Put(j: nat, bytes: seq<byte8>)
      requires j + |bytes| <= buffer.Length == 64
      modifies buffer
      ensures buffer[..j + |bytes|] == old(buffer[..j]) + bytes
    {
      forall k | 0 <= k < |bytes| {
        buffer[j + k] := bytes[k];
      }
    }
  }

  // The block the buffer completes.
  lemma BlockEnds(message: seq<byte8>, data: seq<byte8>, i: nat, before: seq<byte8>, buffer: seq<byte8>)
    requires i == 64 - |message| % 64 <= |data| && |before| == |buffer| == 64
    requires before[..|message| % 64] == message[|message| - |message| % 64..]
    requires buffer[..64] == before[..|message| % 64] + data[..i]
    ensures var all, n := message + data, |message|;
            && (n + i) % 64 == 0 && n + i <= |all|
            && Chain(all[..n + i]) == var h := Chain(message[..n - n % 64]); Added(h, Rounds(buffer, h, 80))
  {
    hide Chain, Rounds, Added;
    var all, p := message + data, |message| - |message| % 64;
    Floor(|message|);
    ChainNext(all, p);
    BlockIs(message, data, p, i, before[..|message| % 64], buffer);
  }

  lemma Floor(n: nat)
    ensures (n - n % 64) % 64 == 0
  {
  }

  lemma BlockIs(message: seq<byte8>, data: seq<byte8>, p: nat, i: nat, kept: seq<byte8>, buffer: seq<byte8>)
    requires p <= |message| && i <= |data| && |message| + i == p + 64 && |buffer| == 64
    requires kept == message[p..] && buffer[..64] == kept + data[..i]
    ensures (message + data)[..p] == message[..p] && (message + data)[p..p + 64] == buffer
  {
    assert buffer[..64] == buffer;
  }

  lemma TakenShort(message: seq<byte8>, data: seq<byte8>, regs: Regs, before: seq<byte8>, buffer: seq<byte8>)
    requires Taken(message, regs, before) && |message| % 64 + |data| <= 63
    requires |buffer| == 64 && buffer[..|message| % 64 + |data|] == before[..|message| % 64] + data
    ensures Taken(message + data, regs, buffer)
  {
    hide Chain;
    var all, p := message + data, |message| - |message| % 64;
    Within(p, |message| % 64 + |data|);
    assert all[..p] == message[..p] && all[p..] == message[p..] + data;
  }

  lemma TakenLong(message: seq<byte8>, data: seq<byte8>, i: nat, regs: Regs, buffer: seq<byte8>)
    requires i <= |data| && (|message| + i) % 64 == 0 && i + 63 >= |data| && regs == Chain((message + data)[..|message| + i])
    requires |buffer| == 64 && buffer[..0 + (|data| - i)] == buffer[..0] + data[i..]
    ensures Taken(message + data, regs, buffer)
  {
    hide Chain;
    var all, p := message + data, |message| + i;
    Within(p, |data| - i);
    assert all[p..] == data[i..];
  }

  lemma Within(p: nat, k: nat)
    requires p % 64 == 0 && k < 64
    ensures (p + k) % 64 == k
  {
  }

  // ---------- padding ----------

  // The bytes of one word of the count.
  function CountBytes(c: nat): (s: seq<byte8>)
    ensures |s| == 4
  {
    FourBytes(c, c / 0x100, c / 0x1_0000, c / 0x100_0000)
  }

  function FourBytes(c: nat, c1: nat, c2: nat, c3: nat): (s: seq<byte8>)
    ensures |s| == 4
  {
    [(c3 % 256) as byte8, (c2 % 256) as byte8, (c1 % 256) as byte8, (c % 256) as byte8]
  }

  lemma CountBytesLow(c: nat)
    ensures CountBytes(c) == LowBytes(c, 4)
  {
    hide LowBytes, FourBytes;
    Quotients(c);
    LowFour(c, c / 256, c / 256 / 256, c / 256 / 256 / 256);
  }

  lemma LowFour(c: nat, c1: nat, c2: nat, c3: nat)
    requires c1 == c / 256 && c2 == c1 / 256 && c3 == c2 / 256
    ensures LowBytes(c, 4) == FourBytes(c, c1, c2, c3)
  {
    hide LowBytes;
    LowNext(c, 3);
    LowNext(c1, 2);
    LowNext(c2, 1);
    LowNext(c3, 0);
  }

  lemma LowNext(x: nat, k: nat)
    ensures LowBytes(x, k + 1) == LowBytes(x / 256, k) + [(x % 256) as byte8] && LowBytes(x, 0) == []
  {
  }

  lemma Quotients(c: nat)
    ensures c / 256 / 256 == c / 0x1_0000 && c / 256 / 256 / 256 == c / 0x100_0000
  {
  }

  function Pow256(k: nat): (p: nat)
    ensures p > 0
  {
    if k == 0 then 1 else 256 * Pow256(k - 1)
  }

  // A number above the k low bytes of another.
  function Above(h: nat, x: nat, k: nat): nat {
    h * Pow256(k) + x
  }

  lemma AboveNext(h: nat, x: nat, k: nat)
    requires x < Pow256(k + 1)
    ensures Above(h, x, k + 1) / 256 == Above(h, x / 256, k) && Above(h, x, k + 1) % 256 == x % 256
    ensures x / 256 < Pow256(k)
  {
    Carry(h, x, Pow256(k));
  }

  lemma {:induction false} LowBytesSplit(h: nat, x: nat, j: nat, k: nat)
    requires x < Pow256(k)
    ensures LowBytes(Above(h, x, k), j + k) == LowBytes(h, j) + LowBytes(x, k)
    decreases k
  {
    if k > 0 {
      hide LowBytes, Above, Pow256;
      AboveNext(h, x, k - 1);
      LowBytesSplit(h, x / 256, j, k - 1);
      LowNext(Above(h, x, k), j + k - 1);
      LowNext(x, k - 1);
    }
  }

  lemma Carry(h: nat, x: nat, p: nat)
    ensures (h * (256 * p) + x) / 256 == h * p + x / 256 && (h * (256 * p) + x) % 256 == x % 256
    ensures x < 256 * p ==> x / 256 < p
  {
    assert h * (256 * p) == 256 * (h * p);
    Shifted(h * p, x);
  }

  lemma Shifted(a: nat, x: nat)
    ensures (256 * a + x) / 256 == a + x / 256 && (256 * a + x) % 256 == x % 256
  {
  }

  // The count is the length in bits.
  lemma CountWritten(count0: nat, count1: nat, n: nat)
    requires Counted(count0, count1, n)
    ensures CountBytes(count1) + CountBytes(count0) == LowBytes(8 * n, 8)
  {
    hide LowBytes, CountBytes;
    CountBytesLow(count0);
    CountBytesLow(count1);
    assert Pow256(4) == U32 by {
      assert Pow256(1) == 0x100 && Pow256(2) == 0x1_0000 && Pow256(3) == 0x100_0000;
    }
    var q := 8 * n / LENGTHS;
    assert 8 * n == Above(Above(q, count1, 4), count0, 4);
    LowBytesSplit(Above(q, count1, 4), count0, 4, 4);
    LowBytesSplit(q, count1, 0, 4);
    assert LowBytes(q, 0) + LowBytes(count1, 4) == LowBytes(count1, 4);
  }

  // The message, the one bit and some of the zeros.
  function PadSoFar(message: seq<byte8>, zeros: nat): (s: seq<byte8>)
    ensures |s| == |message| + 1 + zeros
  {
    message + [0x80] + seq(zeros, _ => 0)
  }

  lemma PadStart(message: seq<byte8>)
    ensures message + [0x80] == PadSoFar(message, 0) && Fill(|message|) >= 0
  {
  }

  // Before the last zero the guard holds, and after it no longer.
  lemma PadMore(message: seq<byte8>, zeros: nat)
    requires zeros <= Fill(|message|) && |PadSoFar(message, zeros)| % 64 * 8 != 448
    ensures zeros < Fill(|message|) && PadSoFar(message, zeros) + [0] == PadSoFar(message, zeros + 1)
  {
    hide PadSoFar;
    PadZero(message, zeros);
  }

  lemma PadZero(message: seq<byte8>, zeros: nat)
    ensures PadSoFar(message, zeros) + [0] == PadSoFar(message, zeros + 1)
  {
  }

  lemma PadEnd(message: seq<byte8>, zeros: nat, count: seq<byte8>)
    requires zeros <= Fill(|message|) && |PadSoFar(message, zeros)| % 64 * 8 == 448 && count == LowBytes(8 * |message|, 8)
    ensures PadSoFar(message, zeros) + count == Padded(message) && |count| == 8
  {
    FillOnly(|message|, zeros);
    hide LowBytes, Fill;
  }

  lemma FillOnly(n: nat, zeros: nat)
    requires zeros <= Fill(n) && (n + 1 + zeros) % 64 == 56
    ensures zeros == Fill(n)
  {
    var gap := Fill(n) - zeros;
    assert gap < 64;
  }

  lemma TakenWhole(message: seq<byte8>, regs: Regs, buffer: seq<byte8>)
    requires Taken(message, regs, buffer)
    ensures |message| % 64 == 0 ==> regs == Chain(message)
  {
    hide Chain;
    if |message| % 64 == 0 {
      assert message[..|message|] == message;
    }
  }

  lemma DigestIs(message: seq<byte8>, regs: Regs)
    requires regs == Chain(Padded(message))
    ensures RegBytes(regs) == Digest(message)
  {
    hide Chain, Padded, RegBytes;
  }

  // A 32-bit index that counts up reaches n exactly if n is such a number: the loop of
  // sha1_hash, whose length has 64 bits, ends for no other.
  lemma IndexReaches(n: nat)
    ensures (exists k: nat :: Index(k) >= n) <==> n < U32
  {
    if n < U32 {
      assert Index(n) >= n;
    }
  }

  function Index(k: nat): nat {
    k % U32
  }

  // sha1_hash, a byte at a time, for lengths its loop can reach.
  method Hash(data: seq<byte8>) returns (digest: seq<byte8>)
    requires |data| < U32
    ensures digest == Digest(data)
  {
    hide Digest, Counted, Taken;
    var ctx := new Context();
    var ii := 0;
    while ii < |data|
      invariant ii <= |data| && ctx.Valid() && ctx.message == data[..ii]
      invariant fresh(ctx) && fresh(ctx.state) && fresh(ctx.buffer)
    {
      ctx.Update([data[ii]]);
      assert data[..ii + 1] == data[..ii] + [data[ii]];
      ii := Index(ii + 1);
    }
    assert data[..|data|] == data;
    digest := ctx.Final();
  }
}
