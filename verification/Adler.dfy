// The Adler-32 checksum (RFC 1950, section 8.2) with its modulo deferred to
// blocks of 5552 bytes (adler32 in xdelta3.c).
module Adler {
  import opened Bytes

  const BASE: int := 65521     // the largest prime below 65536
  const NMAX: int := 5552
  const U32: int := 0x1_0000_0000
  const HALF: int := 65536     // what each half of a checksum is below

  // The two sums, reduced at every byte as the definition has it.
  datatype Sums = Sums(s1: nat, s2: nat)

  function Reduced(st: Sums, buf: seq<byte>): (r: Sums)
    decreases |buf|
  {
    if buf == [] then st
    else
      var s1 := (st.s1 + buf[0]) % BASE;
      Reduced(Sums(s1, (st.s2 + s1) % BASE), buf[1..])
  }

  // The checksum of a buffer, started at 1.
  function Adler32(buf: seq<byte>): (r: nat)
    ensures r < U32
  {
    var st := Reduced(Sums(1, 0), buf);
    ReducedBound(Sums(1, 0), buf);
    st.s2 * 65536 + st.s1
  }

  // The two sums without any reduction.
  function Plain(st: Sums, buf: seq<byte>): (r: Sums)
    decreases |buf|
  {
    if buf == [] then st
    else Plain(Sums(st.s1 + buf[0], st.s2 + st.s1 + buf[0]), buf[1..])
  }

  lemma {:induction false} ReducedBound(st: Sums, buf: seq<byte>)
    requires st.s1 < HALF && st.s2 < HALF
    ensures Reduced(st, buf).s1 < HALF && Reduced(st, buf).s2 < HALF
    ensures buf != [] || (st.s1 < BASE && st.s2 < BASE) ==> Reduced(st, buf).s1 < BASE && Reduced(st, buf).s2 < BASE
    decreases |buf|
  {
    if buf != [] {
      var s1 := (st.s1 + buf[0]) % BASE;
      ReducedBound(Sums(s1, (st.s2 + s1) % BASE), buf[1..]);
    }
  }

  function Mod(st: Sums): Sums {
    Sums(st.s1 % BASE, st.s2 % BASE)
  }

  lemma AddMod(a: int, b: int)
    ensures (a % BASE + b) % BASE == (a + b) % BASE
  {
    assert (a + b) - (a % BASE + b) == BASE * (a / BASE);
    var q := (a % BASE + b) / BASE;
    assert a + b == BASE * (a / BASE + q) + (a % BASE + b) % BASE;
  }

  // Reducing at every byte gives what reducing once at the end gives.
  lemma {:induction false} Deferred(st: Sums, buf: seq<byte>)
    ensures Reduced(Mod(st), buf) == Mod(Plain(st, buf))
    decreases |buf|
  {
    if buf != [] {
      var b := buf[0];
      var s1 := (st.s1 % BASE + b) % BASE;
      AddMod(st.s1, b);
      AddMod(st.s2, s1);
      AddMod(st.s1 + b, st.s2);
      var next := Sums(st.s1 + b, st.s2 + st.s1 + b);
      assert Mod(next) == Sums(s1, (st.s2 % BASE + s1) % BASE);
      Deferred(next, buf[1..]);
    }
  }

  // After the first byte it does not matter whether the start was reduced.
  lemma ReducedStart(st: Sums, buf: seq<byte>)
    requires buf != []
    ensures Reduced(st, buf) == Reduced(Mod(st), buf)
  {
    var s1 := (st.s1 + buf[0]) % BASE;
    AddMod(st.s1, buf[0]);
    AddMod(st.s2, s1);
  }

  lemma {:induction false} ReducedJoin(st: Sums, a: seq<byte>, b: seq<byte>)
    ensures Reduced(st, a + b) == Reduced(Reduced(st, a), b)
    decreases |a|
  {
    if a == [] {
      assert a + b == b;
    } else {
      assert (a + b)[1..] == a[1..] + b;
      var s1 := (st.s1 + a[0]) % BASE;
      ReducedJoin(Sums(s1, (st.s2 + s1) % BASE), a[1..], b);
    }
  }

  lemma {:induction false} PlainSnoc(st: Sums, a: seq<byte>, b: byte)
    ensures var r := Plain(st, a); Plain(st, a + [b]) == Sums(r.s1 + b, r.s2 + r.s1 + b)
    decreases |a|
  {
    if a == [] {
      assert a + [b] == [b];
    } else {
      assert (a + [b])[1..] == a[1..] + [b];
      PlainSnoc(Sums(st.s1 + a[0], st.s2 + st.s1 + a[0]), a[1..], b);
    }
  }

  // How large the unreduced sums can be after n bytes.
  lemma {:induction false} PlainBound(st: Sums, buf: seq<byte>)
    ensures Plain(st, buf).s1 <= st.s1 + 255 * |buf|
    ensures Plain(st, buf).s2 <= st.s2 + |buf| * st.s1 + 255 * Triangle(|buf|)
    decreases |buf|
  {
    if buf != [] {
      var next := Sums(st.s1 + buf[0], st.s2 + st.s1 + buf[0]);
      PlainBound(next, buf[1..]);
      MoreBytes(|buf| - 1, st.s1, buf[0]);
    }
  }

  // 1 + 2 + ... + n.
  function Triangle(n: nat): nat {
    if n == 0 then 0 else Triangle(n - 1) + n
  }

  lemma {:induction false} TwiceTriangle(n: nat)
    ensures 2 * Triangle(n) == n * (n + 1)
  {
    if n > 0 {
      TwiceTriangle(n - 1);
      assert n * (n + 1) == (n - 1) * n + 2 * n;
    }
  }

  lemma MoreBytes(n: nat, s1: nat, b: byte)
    ensures n * (s1 + b) + s1 + b + 255 * Triangle(n) <= (n + 1) * s1 + 255 * Triangle(n + 1)
  {
    MulMonotone(n, b, 255);
    assert n * (s1 + b) == n * s1 + n * b;
    assert (n + 1) * s1 == n * s1 + s1;
  }

  lemma MulMonotone(n: nat, a: int, b: int)
    requires a <= b
    ensures n * a <= n * b
  {
  }

  // Within a block of NMAX bytes no 32-bit sum overflows, whatever the halves it
  // started from.
  lemma NoOverflow(st: Sums, buf: seq<byte>)
    requires st.s1 < HALF && st.s2 < HALF && |buf| <= NMAX
    ensures Plain(st, buf).s1 < U32 && Plain(st, buf).s2 < U32
  {
    PlainBound(st, buf);
    var n := |buf|;
    MulMonotone(n, st.s1, HALF - 1);
    assert n * (HALF - 1) <= NMAX * (HALF - 1) by { MulMonotone(HALF - 1, n, NMAX); }
    TwiceTriangle(n);
    assert n * (n + 1) <= NMAX * (NMAX + 1) by {
      MulMonotone(n, n + 1, NMAX + 1);
      MulMonotone(NMAX + 1, n, NMAX);
    }
  }

  // One block of adler32: sixteen bytes at a time, then the rest, without any
  // modulo. All arithmetic is that of 32-bit words.
  method Block(a1: nat, a2: nat, buf: seq<byte>) returns (s1: nat, s2: nat)
    requires a1 < HALF && a2 < HALF && |buf| <= NMAX
    ensures Sums(s1, s2) == Plain(Sums(a1, a2), buf)
  {
    s1, s2 := a1, a2;
    var k: nat, i: nat := |buf|, 0;
    assert buf[..0] == [] && Plain(Sums(a1, a2), []) == Sums(a1, a2);
    hide Plain;
    while k >= 16
      invariant 0 <= i && i + k == |buf|
      invariant Sums(s1, s2) == Plain(Sums(a1, a2), buf[..i])
    {
      var end := i + 16;
      while i < end
        invariant 0 <= end - 16 <= i <= end <= |buf|
        invariant Sums(s1, s2) == Plain(Sums(a1, a2), buf[..i])
      {
        OneMore(Sums(a1, a2), buf, i);
        s1 := (s1 + buf[i]) % U32;
        s2 := (s2 + s1) % U32;
        i := i + 1;
      }
      k := k - 16;
    }
    while k != 0
      invariant 0 <= i && 0 <= k && i + k == |buf|
      invariant Sums(s1, s2) == Plain(Sums(a1, a2), buf[..i])
    {
      OneMore(Sums(a1, a2), buf, i);
      s1 := (s1 + buf[i]) % U32;
      s2 := (s2 + s1) % U32;
      i, k := i + 1, k - 1;
    }
    assert buf[..i] == buf;
  }

  // One more byte of a block: the 32-bit words do not wrap.
  lemma OneMore(st: Sums, buf: seq<byte>, i: nat)
    requires st.s1 < HALF && st.s2 < HALF && i < |buf| <= NMAX
    ensures var r := Plain(st, buf[..i]);
            var s1 := (r.s1 + buf[i]) % U32;
            Plain(st, buf[..i + 1]) == Sums(s1, (r.s2 + s1) % U32)
  {
    assert buf[..i + 1] == buf[..i] + [buf[i]];
    PlainSnoc(st, buf[..i], buf[i]);
    NoOverflow(st, buf[..i + 1]);
  }

  // A block summed without reduction, then reduced, is the definition.
  lemma BlockReduced(start: Sums, done: seq<byte>, block: seq<byte>)
    requires block != []
    ensures Reduced(start, done + block) == Mod(Plain(Reduced(start, done), block))
  {
    hide Reduced, Plain;
    ReducedJoin(start, done, block);
    ReducedStart(Reduced(start, done), block);
    Deferred(Reduced(start, done), block);
  }

  // adler32.
  method Checksum(adler: nat, buf: seq<byte>) returns (r: nat)
    requires adler < U32
    ensures var st := Reduced(Sums(adler % 65536, adler / 65536), buf);
            r == st.s2 * 65536 + st.s1
  {
    var s1: nat, s2: nat := adler % 65536, adler / 65536;
    ghost var start := Sums(s1, s2);
    var pos := 0;
    assert buf[..0] == [];
    while pos < |buf|
      invariant 0 <= pos <= |buf| && s1 < HALF && s2 < HALF
      invariant Sums(s1, s2) == Reduced(start, buf[..pos])
    {
      var k := if |buf| - pos < NMAX then |buf| - pos else NMAX;
      var block := buf[pos..pos + k];
      BlockReduced(start, buf[..pos], block);
      assert buf[..pos] + block == buf[..pos + k];
      hide Plain, Reduced;
      s1, s2 := Block(s1, s2, block);
      s1 := s1 % BASE;
      s2 := s2 % BASE;
      pos := pos + k;
    }
    assert buf[..|buf|] == buf;
    r := s2 * 65536 + s1;
  }

  // The checksum xdelta3 puts in a window header, adler32 (1, buf), is the
  // definition's, for every length.
  method WindowChecksum(buf: seq<byte>) returns (r: nat)
    ensures r == Adler32(buf)
  {
    r := Checksum(1, buf);
  }
}
