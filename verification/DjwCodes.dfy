// Canonical prefix codes (xdelta3-djw.h): codes assigned in order of length, and the
// base and limit tables that decode them.
module DjwCodes {

  import opened Bytes
  import opened BitLayer
  import opened DjwPrefix

  const MAX_CODELEN: nat := 20
  const TOTAL_CODES: nat := 22   // DJW_MAX_CODELEN + 2

  // ---------- what the codes are ----------

  // How many of the first n symbols have codes of length l.
  function Count(clen: seq<nat>, l: nat, n: nat): (c: nat)
    requires n <= |clen|
    ensures c <= n
  {
    if n == 0 then 0 else Count(clen, l, n - 1) + if clen[n - 1] == l then 1 else 0
  }

  function Coded(clen: seq<nat>, l: nat): nat {
    if l == 0 then 0 else Count(clen, l, |clen|)
  }

  // The first code of length l, the shorter codes and all that they begin being taken.
  function First(clen: seq<nat>, l: nat): nat {
    if l == 0 then 0 else 2 * (First(clen, l - 1) + Coded(clen, l - 1))
  }

  // How many codes are shorter.
  function Shorter(clen: seq<nat>, l: nat): nat {
    if l == 0 then 0 else Shorter(clen, l - 1) + Coded(clen, l - 1)
  }

  function Code(clen: seq<nat>, i: nat): nat
    requires i < |clen|
  {
    First(clen, clen[i]) + Count(clen, clen[i], i)
  }

  lemma {:induction false} CountMonotone(clen: seq<nat>, l: nat, m: nat, n: nat)
    requires m <= n <= |clen|
    ensures Count(clen, l, m) <= Count(clen, l, n)
    decreases n
  {
    if m < n {
      CountMonotone(clen, l, m, n - 1);
    }
  }

  lemma CountBefore(clen: seq<nat>, i: nat)
    requires i < |clen|
    ensures Count(clen, clen[i], i) < Count(clen, clen[i], |clen|)
  {
    CountMonotone(clen, clen[i], i + 1, |clen|);
  }

  function Times(p: nat, x: nat): nat {
    p * x
  }

  // A code's beginning of length j is beyond all codes of that length.
  lemma {:induction false} FirstAbove(clen: seq<nat>, j: nat, l: nat)
    requires j < l
    ensures First(clen, l) >= Times(Power2(l - j), First(clen, j) + Coded(clen, j))
    decreases l
  {
    if j < l - 1 {
      FirstAbove(clen, j, l - 1);
      var p, x := Power2(l - 1 - j), First(clen, j) + Coded(clen, j);
      assert Power2(l - j) == 2 * p;
      TimesTwo(p, x);
    } else {
      assert Power2(1) == 2;
    }
  }

  lemma TimesTwo(p: nat, x: nat)
    ensures (2 * p) * x == 2 * (p * x)
  {
  }

  // The code space below a length.
  function Space(clen: seq<nat>, k: nat, l: nat): nat
    requires l <= k + 1
  {
    if l == 0 then 0 else Space(clen, k, l - 1) + Coded(clen, l - 1) * Power2(k - (l - 1))
  }

  lemma {:induction false} FirstSpace(clen: seq<nat>, k: nat, l: nat)
    requires l <= k
    ensures First(clen, l) * Power2(k - l) == Space(clen, k, l)
  {
    if l > 0 {
      FirstSpace(clen, k, l - 1);
      var p := Power2(k - l);
      assert Power2(k - (l - 1)) == 2 * p;
      Regroup(First(clen, l - 1), Coded(clen, l - 1), p);
    }
  }

  lemma Regroup(a: nat, b: nat, p: nat)
    ensures 2 * (a + b) * p == a * (2 * p) + b * (2 * p)
  {
  }

  lemma {:induction false} SpaceMonotone(clen: seq<nat>, k: nat, l: nat, m: nat)
    requires l <= m <= k + 1
    ensures Space(clen, k, l) <= Space(clen, k, m)
    decreases m
  {
    if l < m {
      SpaceMonotone(clen, k, l, m - 1);
      assert Coded(clen, m - 1) * Power2(k - (m - 1)) >= 0;
    }
  }

  // Summed by symbol or by length, the code space taken is the same.
  lemma {:induction false} KraftBySpace(clen: seq<nat>, k: nat)
    requires forall i :: 0 <= i < |clen| ==> clen[i] <= k
    ensures Kraft(clen, k, |clen|) == Space(clen, k, k + 1)
  {
    KraftCounts(clen, k, |clen|);
    SpaceCounts(clen, k, k + 1);
  }

  // The code space of the first n symbols, by length.
  function SpaceOf(clen: seq<nat>, k: nat, n: nat, l: nat): nat
    requires n <= |clen| && l <= k + 1
  {
    if l == 0 then 0
    else SpaceOf(clen, k, n, l - 1) + if l == 1 then 0 else Count(clen, l - 1, n) * Power2(k - (l - 1))
  }

  lemma {:induction false} SpaceCounts(clen: seq<nat>, k: nat, l: nat)
    requires l <= k + 1
    ensures Space(clen, k, l) == SpaceOf(clen, k, |clen|, l)
  {
    if l > 0 {
      SpaceCounts(clen, k, l - 1);
    }
  }

  lemma {:induction false} SpaceOfNone(clen: seq<nat>, k: nat, l: nat)
    requires l <= k + 1
    ensures SpaceOf(clen, k, 0, l) == 0
  {
    if l > 0 {
      SpaceOfNone(clen, k, l - 1);
    }
  }

  lemma {:induction false} SpaceOfNext(clen: seq<nat>, k: nat, n: nat, l: nat)
    requires n < |clen| && l <= k + 1
    ensures SpaceOf(clen, k, n + 1, l) == SpaceOf(clen, k, n, l) + if 0 < clen[n] < l then Power2(k - clen[n]) else 0
  {
    if l > 1 {
      SpaceOfNext(clen, k, n, l - 1);
      if clen[n] == l - 1 {
        OneMore(Count(clen, l - 1, n), Power2(k - (l - 1)));
      }
    }
  }

  lemma OneMore(c: nat, p: nat)
    ensures (c + 1) * p == c * p + p
  {
  }

  lemma {:induction false} KraftCounts(clen: seq<nat>, k: nat, n: nat)
    requires n <= |clen| && forall i :: 0 <= i < |clen| ==> clen[i] <= k
    ensures Kraft(clen, k, n) == SpaceOf(clen, k, n, k + 1)
  {
    if n == 0 {
      SpaceOfNone(clen, k, k + 1);
    } else {
      KraftCounts(clen, k, n - 1);
      SpaceOfNext(clen, k, n - 1, k + 1);
    }
  }

  // Lengths that leave room for every code.
  ghost predicate Fits(clen: seq<nat>, k: nat) {
    (forall i :: 0 <= i < |clen| ==> clen[i] <= k) && Kraft(clen, k, |clen|) <= Power2(k)
  }

  // Every code has as many bits as it should.
  lemma CodeFits(clen: seq<nat>, k: nat, i: nat)
    requires Fits(clen, k) && i < |clen| && clen[i] > 0
    ensures Code(clen, i) < Power2(clen[i])
  {
    var l := clen[i];
    KraftBySpace(clen, k);
    FirstSpace(clen, k, l);
    SpaceMonotone(clen, k, l + 1, k + 1);
    CountBefore(clen, i);
    var p, a, c := Power2(k - l), First(clen, l), Coded(clen, l);
    assert Space(clen, k, l + 1) == a * p + c * p;
    PowerSum(l, k - l);
    if a + c > Power2(l) {
      Overfull(a, c, p, Power2(l));
    }
  }

  lemma Overfull(a: nat, c: nat, p: nat, q: nat)
    requires p > 0 && a + c > q
    ensures a * p + c * p > q * p
  {
    assert (a + c) * p == a * p + c * p;
    LessTimes(p, q, a + c);
  }

  // ---------- djw_build_codes ----------

  lemma {:induction false} NoneBelow(clen: seq<nat>, l: nat, n: nat)
    requires n <= |clen| && forall i :: 0 <= i < |clen| ==> clen[i] != l
    ensures Count(clen, l, n) == 0
  {
    if n > 0 {
      NoneBelow(clen, l, n - 1);
    }
  }

  // Codes of the least length start at zero.
  lemma {:induction false} FirstLeast(clen: seq<nat>, l: nat)
    requires forall i :: 0 <= i < |clen| ==> clen[i] == 0 || clen[i] >= l
    ensures First(clen, l) == 0 && Shorter(clen, l) == 0
  {
    if l > 0 {
      FirstLeast(clen, l - 1);
      if l > 1 {
        NoneBelow(clen, l - 1, |clen|);
      }
    }
  }

  method BuildCodes(clen: seq<nat>) returns (codes: seq<nat>)
    requires forall i :: 0 <= i < |clen| ==> clen[i] <= MAX_CODELEN
    ensures |codes| == |clen| && forall i :: 0 <= i < |clen| && clen[i] > 0 ==> codes[i] == Code(clen, i)
  {
    codes := seq(|clen|, _ => 0);
    var minClen, maxClen := LengthRange(clen);
    FirstLeast(clen, minClen);
    var code: nat := 0;
    var l: nat := minClen;
    while l <= maxClen
      invariant |codes| == |clen| && l >= minClen && code == First(clen, l)
      invariant forall i :: 0 <= i < |clen| && 0 < clen[i] < l ==> codes[i] == Code(clen, i)
    {
      for i := 0 to |clen|
        invariant |codes| == |clen| && code == First(clen, l) + Count(clen, l, i)
        invariant forall k :: 0 <= k < |clen| && (0 < clen[k] < l || (clen[k] == l && k < i)) ==> codes[k] == Code(clen, k)
      {
        if clen[i] == l {
          codes := codes[i := code];
          code := code + 1;
        }
      }
      code := 2 * code;
      l := l + 1;
    }
  }

  // The least length of a code and the greatest.
  method LengthRange(clen: seq<nat>) returns (minClen: nat, maxClen: nat)
    requires forall i :: 0 <= i < |clen| ==> clen[i] <= MAX_CODELEN
    ensures 1 <= minClen <= MAX_CODELEN && maxClen <= MAX_CODELEN
    ensures forall i :: 0 <= i < |clen| ==> (clen[i] == 0 || minClen <= clen[i]) && clen[i] <= maxClen
  {
    minClen, maxClen := MAX_CODELEN, 0;
    for i := 0 to |clen|
      invariant 1 <= minClen <= MAX_CODELEN && maxClen <= MAX_CODELEN
      invariant forall k :: 0 <= k < i ==> (clen[k] == 0 || minClen <= clen[k]) && clen[k] <= maxClen
    {
      if clen[i] > 0 && clen[i] < minClen {
        minClen := clen[i];
      }
      if clen[i] > maxClen {
        maxClen := clen[i];
      }
    }
  }

  // ---------- djw_build_decoder ----------

  // The symbols in the order of their codes, and for each length the last code and
  // what to take off a code for its place.
  datatype Table = Table(inorder: seq<nat>, base: seq<int>, limit: seq<int>, minClen: nat, maxClen: nat)

  function Place(clen: seq<nat>, i: nat): nat
    requires i < |clen|
  {
    Shorter(clen, clen[i]) + Count(clen, clen[i], i)
  }

  ghost predicate InRange(t: Table, clen: seq<nat>) {
    && (forall i :: 0 <= i < |clen| && clen[i] > 0 ==> t.minClen <= clen[i] <= t.maxClen)
    && t.maxClen < |t.base| == |t.limit| && t.minClen >= 1
  }

  ghost predicate TableAt(t: Table, clen: seq<nat>, l: nat)
    requires l < |t.base| == |t.limit|
  {
    t.limit[l] == First(clen, l) + Coded(clen, l) - 1 && t.base[l] == First(clen, l) - Shorter(clen, l)
  }

  ghost predicate OrderAt(t: Table, clen: seq<nat>, i: nat)
    requires i < |clen|
  {
    clen[i] > 0 ==> Place(clen, i) < |t.inorder| && t.inorder[Place(clen, i)] == i
  }

  ghost predicate TableFor(t: Table, clen: seq<nat>) {
    && InRange(t, clen)
    && (forall l {:trigger TableAt(t, clen, l)} :: t.minClen <= l <= t.maxClen ==> TableAt(t, clen, l))
    && (forall i {:trigger OrderAt(t, clen, i)} :: 0 <= i < |clen| ==> OrderAt(t, clen, i))
  }

  // ---------- djw_decode_symbol ----------

  // A symbol and the bits its code takes.
  datatype Symbol = Symbol(sym: nat, used: nat)

  // Bits read one by one until the code is no more than the limit of its length.
  function Scan(t: Table, bits: seq<bool>, maxSym: nat, code: nat, n: nat): Result<Symbol>
    decreases |bits|
  {
    if n == t.maxClen || bits == [] then Fail
    else
      var code' := 2 * code + if bits[0] then 1 else 0;
      if n + 1 >= t.minClen && n + 1 < |t.limit| && code' <= t.limit[n + 1] then
        if n + 1 < |t.base| && t.base[n + 1] <= code' && code' - t.base[n + 1] <= maxSym && code' - t.base[n + 1] < |t.inorder| then
          Ok(Symbol(t.inorder[code' - t.base[n + 1]], n + 1))
        else Fail
      else Scan(t, bits[1..], maxSym, code', n + 1)
  }

  // The beginning of a code.
  function Beginning(clen: seq<nat>, i: nat, n: nat): nat
    requires i < |clen| && n <= clen[i]
  {
    Divided(Code(clen, i), Power2(clen[i] - n))
  }

  function Divided(c: nat, p: nat): nat
    requires p > 0
  {
    c / p
  }

  lemma BeginningNext(clen: seq<nat>, i: nat, n: nat)
    requires i < |clen| && n < clen[i]
    ensures Beginning(clen, i, n + 1)
            == 2 * Beginning(clen, i, n) + if HighFirst(Code(clen, i), clen[i])[n] then 1 else 0
  {
    var l, c := clen[i], Code(clen, i);
    HighFirstBit(c, l, l - 1 - n);
    Halved(c, l - n);
  }

  lemma {:induction false} Halved(c: nat, k: nat)
    requires k > 0
    ensures c / Power2(k) == c / Power2(k - 1) / 2
    decreases k
  {
    if k == 1 {
      assert Power2(1) == 2 && Power2(0) == 1;
    } else {
      HalfPower(c, k);
      HalfPower(c, k - 1);
      Halved(c / 2, k - 1);
    }
  }

  // It is beyond the limit of any shorter length.
  lemma BeginningAbove(clen: seq<nat>, i: nat, n: nat)
    requires i < |clen| && n < clen[i]
    ensures Beginning(clen, i, n) >= First(clen, n) + Coded(clen, n)
  {
    hide First, Coded, Power2, Code, Divided, Times;
    CodeFirst(clen, i);
    FirstAbove(clen, n, clen[i]);
    DivideAbove(Code(clen, i), Power2(clen[i] - n), First(clen, n) + Coded(clen, n));
  }

  lemma CodeFirst(clen: seq<nat>, i: nat)
    requires i < |clen|
    ensures Code(clen, i) >= First(clen, clen[i])
  {
  }

  lemma DivideAbove(c: nat, p: nat, x: nat)
    requires p > 0 && c >= Times(p, x)
    ensures Divided(c, p) >= x
  {
    var q, r := c / p, c % p;
    assert c == q * p + r && r < p;
    assert x * p == p * x;
    if q < x {
      Apart(q, x, p);
    }
  }

  lemma PlaceBound(clen: seq<nat>, i: nat)
    requires i < |clen| && clen[i] > 0
    ensures Code(clen, i) <= First(clen, clen[i]) + Coded(clen, clen[i]) - 1 && Shorter(clen, clen[i]) <= First(clen, clen[i])
    ensures Code(clen, i) - (First(clen, clen[i]) - Shorter(clen, clen[i])) == Place(clen, i) >= 0
  {
    CountBefore(clen, i);
    ShorterFirst(clen, clen[i]);
  }

  lemma {:induction false} ShorterFirst(clen: seq<nat>, l: nat)
    ensures Shorter(clen, l) <= First(clen, l)
  {
    if l > 0 {
      ShorterFirst(clen, l - 1);
    }
  }

  // The tables read every code back, whatever follows it.
  lemma {:induction false} ScanReads(t: Table, clen: seq<nat>, i: nat, bits: seq<bool>, maxSym: nat, n: nat)
    requires TableFor(t, clen) && i < |clen| && n < clen[i] && Place(clen, i) <= maxSym && Code(clen, i) < Power2(clen[i])
    requires |bits| >= clen[i] - n && bits[..clen[i] - n] == HighFirst(Code(clen, i), clen[i])[n..]
    ensures Scan(t, bits, maxSym, Beginning(clen, i, n), n) == Ok(Symbol(i, clen[i]))
    decreases clen[i] - n
  {
    var l := clen[i];
    assert OrderAt(t, clen, i);
    hide First, Coded, Shorter, Count, HighFirst, Power2, Code, Divided, Beginning, Place;
    BeginningNext(clen, i, n);
    assert bits[0] == bits[..l - n][0];
    if n + 1 == l {
      assert TableAt(t, clen, l);
      PlaceBound(clen, i);
      BeginningWhole(clen, i);
    } else {
      BeginningAbove(clen, i, n + 1);
      assert n + 1 >= t.minClen ==> TableAt(t, clen, n + 1);
      assert bits[1..][..l - (n + 1)] == bits[..l - n][1..];
      assert HighFirst(Code(clen, i), l)[n..][1..] == HighFirst(Code(clen, i), l)[n + 1..];
      ScanReads(t, clen, i, bits[1..], maxSym, n + 1);
    }
  }

  lemma BeginningWhole(clen: seq<nat>, i: nat)
    requires i < |clen|
    ensures Beginning(clen, i, clen[i]) == Code(clen, i)
  {
    assert Power2(0) == 1;
    hide Code;
  }

  lemma DecodesCode(t: Table, clen: seq<nat>, i: nat, rest: seq<bool>, maxSym: nat, k: nat)
    requires TableFor(t, clen) && Fits(clen, k) && i < |clen| && clen[i] > 0 && |clen| <= maxSym
    ensures Code(clen, i) < Power2(clen[i])
    ensures Scan(t, HighFirst(Code(clen, i), clen[i]) + rest, maxSym, 0, 0) == Ok(Symbol(i, clen[i]))
  {
    CodeFits(clen, k, i);
    PlaceSmall(clen, i);
    var code := HighFirst(Code(clen, i), clen[i]);
    assert (code + rest)[..clen[i]] == code[0..];
    BelowPower(Code(clen, i), Power2(clen[i]));
    ScanReads(t, clen, i, code + rest, maxSym, 0);
  }

  lemma BelowPower(c: nat, p: nat)
    requires c < p
    ensures c / p == 0
  {
  }

  lemma {:induction false} ShorterCount(clen: seq<nat>, l: nat)
    ensures Shorter(clen, l + 1) <= |clen|
  {
    ShorterOf(clen, |clen|, l + 1);
  }

  // No more symbols are coded than there are.
  lemma {:induction false} ShorterOf(clen: seq<nat>, n: nat, l: nat)
    requires n <= |clen|
    ensures SumCounts(clen, n, l) <= n
    ensures n == |clen| ==> Shorter(clen, l) == SumCounts(clen, n, l)
    decreases n, l
  {
    if n == 0 {
      SumCountsNone(clen, l);
    } else {
      ShorterOf(clen, n - 1, l);
      SumCountsNext(clen, n - 1, l);
    }
    if n == |clen| && l > 0 {
      ShorterSum(clen, l);
    }
  }

  function SumCounts(clen: seq<nat>, n: nat, l: nat): nat
    requires n <= |clen|
  {
    if l <= 1 then 0 else SumCounts(clen, n, l - 1) + Count(clen, l - 1, n)
  }

  lemma {:induction false} SumCountsNone(clen: seq<nat>, l: nat)
    ensures SumCounts(clen, 0, l) == 0
  {
    if l > 1 {
      SumCountsNone(clen, l - 1);
    }
  }

  lemma {:induction false} SumCountsNext(clen: seq<nat>, n: nat, l: nat)
    requires n < |clen|
    ensures SumCounts(clen, n + 1, l) == SumCounts(clen, n, l) + if 0 < clen[n] < l then 1 else 0
  {
    if l > 1 {
      SumCountsNext(clen, n, l - 1);
    }
  }

  lemma {:induction false} ShorterSum(clen: seq<nat>, l: nat)
    ensures Shorter(clen, l) == SumCounts(clen, |clen|, l)
  {
    if l > 0 {
      ShorterSum(clen, l - 1);
    }
  }

  lemma PlaceSmall(clen: seq<nat>, i: nat)
    requires i < |clen| && clen[i] > 0
    ensures Place(clen, i) < |clen|
  {
    ShorterCount(clen, clen[i]);
    CountBefore(clen, i);
  }

  // ---------- only codes are read ----------

  // The symbol in use at a place of the order.
  lemma {:induction false} SymbolAt(clen: seq<nat>, l: nat, rank: nat, n: nat) returns (i: nat)
    requires n <= |clen| && rank < Count(clen, l, n)
    ensures i < n && clen[i] == l && Count(clen, l, i) == rank
  {
    if clen[n - 1] == l && Count(clen, l, n - 1) == rank {
      i := n - 1;
    } else {
      i := SymbolAt(clen, l, rank, n - 1);
    }
  }

  // Between the limit of the length before and that of its own length a code is that
  // of a symbol.
  lemma CodeBetween(t: Table, clen: seq<nat>, l: nat, code: nat) returns (i: nat)
    requires TableFor(t, clen) && 0 < l && First(clen, l) <= code < First(clen, l) + Coded(clen, l)
    ensures i < |clen| && clen[i] == l && Code(clen, i) == code && t.minClen <= l <= t.maxClen
    ensures Place(clen, i) == code - t.base[l] && t.base[l] <= code && Place(clen, i) < |t.inorder|
    ensures t.inorder[Place(clen, i)] == i
  {
    i := SymbolAt(clen, l, code - First(clen, l), |clen|);
    assert TableAt(t, clen, l) && OrderAt(t, clen, i);
  }

  // The symbol's code is what has been read with some of the bits.
  ghost predicate Gives(clen: seq<nat>, read: seq<bool>, bits: seq<bool>, s: Symbol) {
    && |read| < s.used <= |read| + |bits| && s.sym < |clen| && clen[s.sym] == s.used
    && Value(read + bits[..s.used - |read|]) == Code(clen, s.sym)
  }

  lemma GivesLater(clen: seq<nat>, read: seq<bool>, bits: seq<bool>, s: Symbol)
    requires bits != [] && Gives(clen, read + [bits[0]], bits[1..], s)
    ensures Gives(clen, read, bits, s)
  {
    var k := s.used - |read| - 1;
    assert (read + [bits[0]]) + bits[1..][..k] == read + bits[..k + 1];
  }

  lemma GivesNow(clen: seq<nat>, read: seq<bool>, bits: seq<bool>, i: nat)
    requires bits != [] && i < |clen| && clen[i] == |read| + 1 && Value(read + [bits[0]]) == Code(clen, i)
    ensures Gives(clen, read, bits, Symbol(i, clen[i]))
  {
    assert bits[..1] == [bits[0]];
  }

  lemma ScanNext(t: Table, bits: seq<bool>, read: seq<bool>, maxSym: nat)
    requires |read| != t.maxClen && bits != []
    ensures var code, n := Value(read + [bits[0]]), |read| + 1;
            && code >= 2 * Value(read)
            && Scan(t, bits, maxSym, Value(read), |read|)
               == if n >= t.minClen && n < |t.limit| && code <= t.limit[n] then
                    if n < |t.base| && t.base[n] <= code && code - t.base[n] <= maxSym && code - t.base[n] < |t.inorder| then
                      Ok(Symbol(t.inorder[code - t.base[n]], n))
                    else Fail
                  else Scan(t, bits[1..], maxSym, code, n)
  {
    assert (read + [bits[0]])[..|read|] == read;
    assert Value(read + [bits[0]]) == 2 * Value(read) + if bits[0] then 1 else 0;
    hide Value;
  }

  // Whatever the bits, if they give a symbol they begin with its code: so the codes
  // are prefix-free, and reading never leaves the tables.
  lemma {:induction false} ScanSound(t: Table, clen: seq<nat>, bits: seq<bool>, read: seq<bool>, maxSym: nat)
    requires TableFor(t, clen) && |clen| <= maxSym && |read| <= t.maxClen
    requires |read| > 0 && |read| >= t.minClen ==> Value(read) > First(clen, |read|) + Coded(clen, |read|) - 1
    ensures var r := Scan(t, bits, maxSym, Value(read), |read|); r.Ok? ==> Gives(clen, read, bits, r.value)
    decreases |bits|
  {
    if |read| != t.maxClen && bits != [] {
      ScanNext(t, bits, read, maxSym);
      var read', n := read + [bits[0]], |read| + 1;
      assert n >= t.minClen ==> TableAt(t, clen, n);
      BeyondShorter(t, clen, read, n);
      hide Scan, Value, First, Coded, Code, Place, Gives;
      if n >= t.minClen && Value(read') <= t.limit[n] {
        var i := CodeBetween(t, clen, n, Value(read'));
        PlaceSmall(clen, i);
        GivesNow(clen, read, bits, i);
      } else {
        ScanSound(t, clen, bits[1..], read', maxSym);
        var r := Scan(t, bits[1..], maxSym, Value(read'), n);
        if r.Ok? {
          GivesLater(clen, read, bits, r.value);
        }
      }
    }
  }

  // What has been read is no less than the first code of the next length.
  lemma BeyondShorter(t: Table, clen: seq<nat>, read: seq<bool>, n: nat)
    requires TableFor(t, clen) && n == |read| + 1 && n <= t.maxClen
    requires |read| > 0 && |read| >= t.minClen ==> Value(read) > First(clen, |read|) + Coded(clen, |read|) - 1
    ensures First(clen, n) <= 2 * Value(read)
  {
    if |read| == 0 || |read| < t.minClen {
      FirstLeast(clen, n - 1);
      if |read| > 0 {
        NoneBelow(clen, n - 1, |clen|);
      }
    }
  }

  lemma {:induction false} ShorterMonotone(clen: seq<nat>, l: nat, m: nat)
    requires l < m
    ensures Shorter(clen, l) + Coded(clen, l) <= Shorter(clen, m)
    decreases m
  {
    if l < m - 1 {
      ShorterMonotone(clen, l, m - 1);
    }
  }

  // No two symbols have one place.
  lemma PlaceDistinct(clen: seq<nat>, k: nat, i: nat)
    requires k < i < |clen| && clen[k] > 0 && clen[i] > 0
    ensures Place(clen, k) != Place(clen, i)
  {
    CountBefore(clen, k);
    CountBefore(clen, i);
    if clen[k] == clen[i] {
      CountMonotone(clen, clen[k], k + 1, i);
    } else if clen[k] < clen[i] {
      ShorterMonotone(clen, clen[k], clen[i]);
    } else {
      ShorterMonotone(clen, clen[i], clen[k]);
    }
  }

  lemma {:induction false} CountSome(clen: seq<nat>, l: nat, n: nat, i: nat)
    requires i < n <= |clen| && clen[i] == l
    ensures Count(clen, l, n) > 0
  {
    CountMonotone(clen, l, i + 1, n);
  }

  method CountLengths(clen: seq<nat>, absMax: nat) returns (nrClen: array<nat>)
    requires absMax <= MAX_CODELEN && forall i :: 0 <= i < |clen| ==> clen[i] <= absMax
    ensures fresh(nrClen) && nrClen.Length == TOTAL_CODES
    ensures forall l {:trigger nrClen[l]} :: 0 <= l < TOTAL_CODES ==> nrClen[l] == Count(clen, l, |clen|)
  {
    nrClen := new nat[TOTAL_CODES](_ => 0);
    for i := 0 to |clen|
      invariant forall l {:trigger nrClen[l]} :: 0 <= l < TOTAL_CODES ==> nrClen[l] == Count(clen, l, i)
    {
      nrClen[clen[i]] := nrClen[clen[i]] + 1;
    }
  }

  // The lengths that occur lie between the two found.
  method CodedRange(nrClen: array<nat>, clen: seq<nat>, absMax: nat) returns (minClen: nat, maxClen: nat)
    requires absMax <= MAX_CODELEN && nrClen.Length == TOTAL_CODES && forall i :: 0 <= i < |clen| ==> clen[i] <= absMax
    requires forall l {:trigger nrClen[l]} :: 0 <= l < TOTAL_CODES ==> nrClen[l] == Count(clen, l, |clen|)
    ensures 1 <= minClen <= absMax + 1 && maxClen <= absMax && (maxClen > 0 ==> minClen <= maxClen)
    ensures forall i :: 0 <= i < |clen| && clen[i] > 0 ==> minClen <= clen[i] <= maxClen
  {
    minClen := 1;
    while minClen <= absMax && nrClen[minClen] == 0
      invariant 1 <= minClen <= absMax + 1 && forall l {:trigger nrClen[l]} :: 1 <= l < minClen ==> nrClen[l] == 0
    {
      minClen := minClen + 1;
    }
    maxClen := absMax;
    while maxClen != 0 && nrClen[maxClen] == 0
      invariant maxClen <= absMax && forall l {:trigger nrClen[l]} :: maxClen < l <= absMax ==> nrClen[l] == 0
    {
      maxClen := maxClen - 1;
    }
    forall i | 0 <= i < |clen| && clen[i] > 0
      ensures minClen <= clen[i] <= maxClen
    {
      CountSome(clen, clen[i], |clen|, i);
      assert nrClen[clen[i]] > 0;
    }
  }

  lemma FirstNext(clen: seq<nat>, l: nat)
    requires l > 0
    ensures First(clen, l) == 2 * (First(clen, l - 1) + Coded(clen, l - 1))
    ensures Shorter(clen, l) == Shorter(clen, l - 1) + Coded(clen, l - 1)
  {
  }

  // The tables filled for the lengths from lo up to hi.
  ghost predicate Limits(clen: seq<nat>, base: seq<int>, limit: seq<int>, tmpBase: seq<nat>, lo: nat, hi: nat) {
    && |base| == |limit| == |tmpBase| == TOTAL_CODES
    && (forall l {:trigger limit[l]} :: lo <= l < hi && l < TOTAL_CODES ==> limit[l] == First(clen, l) + Coded(clen, l) - 1)
    && (forall l {:trigger base[l]} :: lo <= l < hi && l < TOTAL_CODES ==> base[l] == First(clen, l) - Shorter(clen, l))
    && (forall l {:trigger tmpBase[l]} :: lo <= l < hi && l < TOTAL_CODES ==> tmpBase[l] == Shorter(clen, l))
  }

  lemma LimitsNext(clen: seq<nat>, base: seq<int>, limit: seq<int>, tmpBase: seq<nat>, lo: nat, i: nat)
    requires Limits(clen, base, limit, tmpBase, lo, i) && lo < i < TOTAL_CODES
    ensures var lastLimit, b := 2 * (limit[i - 1] + 1), tmpBase[i - 1] + Coded(clen, i - 1);
            Limits(clen, base[i := lastLimit - b], limit[i := lastLimit + Coded(clen, i) - 1], tmpBase[i := b], lo, i + 1)
  {
    FirstNext(clen, i);
    hide First, Shorter, Coded;
  }

  method FillLimits(nrClen: array<nat>, clen: seq<nat>, minClen: nat, maxClen: nat)
    returns (base: seq<int>, limit: seq<int>, tmpBase: seq<nat>)
    requires nrClen.Length == TOTAL_CODES && 1 <= minClen < TOTAL_CODES && maxClen < TOTAL_CODES
    requires forall l {:trigger nrClen[l]} :: 0 <= l < TOTAL_CODES ==> nrClen[l] == Count(clen, l, |clen|)
    requires forall i :: 0 <= i < |clen| && clen[i] > 0 ==> minClen <= clen[i]
    ensures Limits(clen, base, limit, tmpBase, minClen, maxClen + 1)
  {
    base, limit, tmpBase := seq(TOTAL_CODES, _ => 0), seq(TOTAL_CODES, _ => 0), seq(TOTAL_CODES, _ => 0);
    FirstLeast(clen, minClen);
    assert nrClen[minClen] == Coded(clen, minClen);
    tmpBase, base := tmpBase[minClen := 0], base[minClen := 0];
    var number: int := nrClen[minClen];
    limit := limit[minClen := number - 1];
    assert Limits(clen, base, limit, tmpBase, minClen, minClen + 1);
    hide Limits, First, Shorter, Count;
    var i := minClen + 1;
    while i <= maxClen
      invariant minClen < i && |base| == |limit| == |tmpBase| == TOTAL_CODES
      invariant Limits(clen, base, limit, tmpBase, minClen, if i <= maxClen + 1 then i else maxClen + 1)
    {
      LimitsNext(clen, base, limit, tmpBase, minClen, i);
      assert nrClen[i - 1] == Coded(clen, i - 1) && nrClen[i] == Coded(clen, i);
      var lastLimit := 2 * (limit[i - 1] + 1);
      tmpBase := tmpBase[i := tmpBase[i - 1] + nrClen[i - 1]];
      limit := limit[i := lastLimit + nrClen[i] - 1];
      base := base[i := lastLimit - tmpBase[i]];
      i := i + 1;
    }
    LimitsLess(clen, base, limit, tmpBase, minClen, if i <= maxClen + 1 then i else maxClen + 1, maxClen + 1);
  }

  lemma LimitsLess(clen: seq<nat>, base: seq<int>, limit: seq<int>, tmpBase: seq<nat>, lo: nat, hi: nat, hi': nat)
    requires Limits(clen, base, limit, tmpBase, lo, hi) && hi' <= hi
    ensures Limits(clen, base, limit, tmpBase, lo, hi')
  {
  }

  // The first i symbols are in their places.
  ghost predicate Ordered(clen: seq<nat>, inorder: seq<nat>, i: nat) {
    && |inorder| == |clen| && i <= |clen|
    && forall k {:trigger Place(clen, k)} :: 0 <= k < i && clen[k] > 0 ==> Place(clen, k) < |clen| && inorder[Place(clen, k)] == k
  }

  lemma OrderNext(clen: seq<nat>, inorder: seq<nat>, i: nat)
    requires Ordered(clen, inorder, i) && i < |clen|
    ensures clen[i] == 0 ==> Ordered(clen, inorder, i + 1)
    ensures clen[i] > 0 ==> Place(clen, i) < |clen| && Ordered(clen, inorder[Place(clen, i) := i], i + 1)
  {
    hide Place;
    if clen[i] > 0 {
      PlaceSmall(clen, i);
      forall k: nat {:trigger Place(clen, k)} | k < i && clen[k] > 0
        ensures Place(clen, k) != Place(clen, i)
      {
        PlaceDistinct(clen, k, i);
      }
    }
  }

  method FillOrder(clen: seq<nat>, tmpBase0: seq<nat>, minClen: nat, maxClen: nat) returns (inorder: array<nat>)
    requires |tmpBase0| == TOTAL_CODES && 1 <= minClen && maxClen < TOTAL_CODES
    requires forall i :: 0 <= i < |clen| && clen[i] > 0 ==> minClen <= clen[i] <= maxClen
    requires forall l {:trigger tmpBase0[l]} :: minClen <= l <= maxClen ==> tmpBase0[l] == Shorter(clen, l)
    ensures fresh(inorder) && Ordered(clen, inorder[..], |clen|)
  {
    inorder := new nat[|clen|](_ => 0);
    var tmpBase := tmpBase0;
    hide Ordered, Shorter;
    assert Ordered(clen, inorder[..], 0) by {
      OrderNone(clen, inorder[..]);
    }
    for i := 0 to |clen|
      invariant |tmpBase| == TOTAL_CODES
      invariant forall l {:trigger tmpBase[l]} :: minClen <= l <= maxClen ==> tmpBase[l] == Shorter(clen, l) + Count(clen, l, i)
      invariant Ordered(clen, inorder[..], i)
    {
      var l := clen[i];
      OrderNext(clen, inorder[..], i);
      if l != 0 {
        assert tmpBase[l] == Place(clen, i);
        ghost var was := inorder[..];
        inorder[tmpBase[l]] := i;
        assert inorder[..] == was[Place(clen, i) := i];
        tmpBase := tmpBase[l := tmpBase[l] + 1];
      }
    }
  }

  lemma OrderNone(clen: seq<nat>, inorder: seq<nat>)
    requires |inorder| == |clen|
    ensures Ordered(clen, inorder, 0)
  {
  }

  // The tables for any lengths within bounds.
  method BuildDecoder(clen: seq<nat>, absMax: nat) returns (t: Table)
    requires absMax <= MAX_CODELEN && forall i :: 0 <= i < |clen| ==> clen[i] <= absMax
    ensures TableFor(t, clen)
  {
    var nrClen := CountLengths(clen, absMax);
    var minClen, maxClen := CodedRange(nrClen, clen, absMax);
    var base, limit, tmpBase := FillLimits(nrClen, clen, minClen, maxClen);
    hide First, Shorter, Count, Coded, Place;
    var inorder := FillOrder(clen, tmpBase, minClen, maxClen);
    t := Table(inorder[..], base, limit, minClen, maxClen);
    forall i {:trigger OrderAt(t, clen, i)} | 0 <= i < |clen|
      ensures OrderAt(t, clen, i)
    {
      assert clen[i] > 0 ==> inorder[..][Place(clen, i)] == inorder[Place(clen, i)];
    }
  }
}
