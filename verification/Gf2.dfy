// Polynomials over GF(2), a number standing for the polynomial whose coefficients
// are its bits: addition is exclusive or, and every number has one remainder.
module Gf2 {

  import opened Bytes

  // Addition of coefficients modulo two.
  function Xor(a: nat, b: nat): nat
    decreases a + b
  {
    if a == 0 && b == 0 then 0 else 2 * Xor(a / 2, b / 2) + (a + b) % 2
  }

  lemma XorUnfold(a: nat, b: nat)
    ensures Xor(a, b) == 2 * Xor(a / 2, b / 2) + (a + b) % 2
    ensures Xor(a, b) / 2 == Xor(a / 2, b / 2) && Xor(a, b) % 2 == (a + b) % 2
  {
  }

  lemma {:induction false} XorCommutes(a: nat, b: nat)
    ensures Xor(a, b) == Xor(b, a)
    decreases a + b
  {
    if a != 0 || b != 0 {
      XorCommutes(a / 2, b / 2);
    }
  }

  lemma {:induction false} XorAssociates(a: nat, b: nat, c: nat)
    ensures Xor(Xor(a, b), c) == Xor(a, Xor(b, c))
    decreases a + b + c
  {
    hide Xor;
    if a != 0 || b != 0 || c != 0 {
      XorAssociates(a / 2, b / 2, c / 2);
      XorUnfold(a, b);
      XorUnfold(b, c);
      XorUnfold(Xor(a, b), c);
      XorUnfold(a, Xor(b, c));
      Parity(Xor(a, b), a + b, c);
      Parity(Xor(b, c), b + c, a);
    } else {
      XorZero(0);
    }
  }

  lemma Parity(x: nat, y: nat, c: nat)
    requires x % 2 == y % 2
    ensures (x + c) % 2 == (y + c) % 2
  {
  }

  lemma {:induction false} XorZero(a: nat)
    ensures Xor(a, 0) == a && Xor(0, a) == a
  {
    if a != 0 {
      XorZero(a / 2);
    }
  }

  lemma {:induction false} XorSelf(a: nat)
    ensures Xor(a, a) == 0
  {
    if a != 0 {
      XorSelf(a / 2);
    }
  }

  // (a + b) + (c + d) == (a + c) + (b + d).
  lemma XorExchange(a: nat, b: nat, c: nat, d: nat)
    ensures Xor(Xor(a, b), Xor(c, d)) == Xor(Xor(a, c), Xor(b, d))
  {
    hide Xor;
    XorAssociates(a, b, Xor(c, d));
    XorAssociates(b, c, d);
    XorCommutes(b, c);
    XorAssociates(c, b, d);
    XorAssociates(a, c, Xor(b, d));
  }

  // Adding b twice.
  lemma XorCancels(a: nat, b: nat)
    ensures Xor(Xor(a, b), b) == a && Xor(b, Xor(b, a)) == a
  {
    hide Xor;
    XorAssociates(a, b, b);
    XorAssociates(b, b, a);
    XorSelf(b);
    XorZero(a);
  }

  // High and low parts add separately.
  lemma {:induction false} XorSplit(k: nat, a: nat, x: nat, b: nat, y: nat)
    requires x < Power2(k) && y < Power2(k)
    ensures Xor(a * Power2(k) + x, b * Power2(k) + y) == Xor(a, b) * Power2(k) + Xor(x, y)
    ensures Xor(x, y) < Power2(k)
    decreases k
  {
    hide Xor;
    if k == 0 {
      XorZero(0);
    } else {
      XorSplit(k - 1, a, x / 2, b, y / 2);
      XorUnfold(a * Power2(k) + x, b * Power2(k) + y);
      XorUnfold(x, y);
      Halve(a, k, x);
      Halve(b, k, y);
      Halve(Xor(a, b), k, 0);
      Parity(a * Power2(k) + x, x, b * Power2(k) + y);
      Parity(b * Power2(k) + y, y, x);
    }
  }

  lemma Halve(a: nat, k: nat, x: nat)
    requires k > 0
    ensures a * Power2(k) == 2 * (a * Power2(k - 1))
    ensures (a * Power2(k) + x) / 2 == a * Power2(k - 1) + x / 2
    ensures (a * Power2(k) + x) % 2 == x % 2
  {
    var h := a * Power2(k - 1);
    assert a * Power2(k) == 2 * h;
  }

  // ---------- degrees ----------

  // One more than the degree; zero for the zero polynomial.
  function Bits(n: nat): nat {
    if n == 0 then 0 else 1 + Bits(n / 2)
  }

  lemma {:induction false} BitsBound(n: nat, k: nat)
    ensures Bits(n) <= k <==> n < Power2(k)
  {
    if n > 0 && k > 0 {
      BitsBound(n / 2, k - 1);
    }
  }

  lemma {:induction false} BitsShift(n: nat, k: nat)
    requires n > 0
    ensures Bits(n * Power2(k)) == Bits(n) + k
    decreases k
  {
    hide Bits;
    if k > 0 {
      BitsShift(n, k - 1);
      Halve(n, k, 0);
      BitsDouble(n * Power2(k - 1));
    }
  }

  lemma BitsDouble(m: nat)
    requires m > 0
    ensures Bits(2 * m) == Bits(m) + 1
  {
  }

  // A sum has the larger degree, or a smaller one when the two are equal.
  lemma {:induction false} XorBits(a: nat, b: nat)
    ensures Bits(a) > Bits(b) ==> Bits(Xor(a, b)) == Bits(a)
    ensures Bits(b) > Bits(a) ==> Bits(Xor(a, b)) == Bits(b)
    ensures Bits(a) == Bits(b) ==> Bits(Xor(a, b)) <= Bits(a) && (a > 0 ==> Bits(Xor(a, b)) < Bits(a))
    decreases a + b
  {
    if a != 0 || b != 0 {
      XorBits(a / 2, b / 2);
      XorUnfold(a, b);
    }
  }

  // ---------- multiples and remainders ----------

  function Mul(q: nat, p: nat): nat {
    if q == 0 then 0 else Xor(2 * Mul(q / 2, p), if q % 2 == 1 then p else 0)
  }

  lemma XorDouble(a: nat, b: nat)
    ensures Xor(2 * a, 2 * b) == 2 * Xor(a, b)
  {
    hide Xor;
    XorUnfold(2 * a, 2 * b);
  }

  lemma MulUnfold(q: nat, p: nat)
    ensures Mul(q, p) == Xor(2 * Mul(q / 2, p), if q % 2 == 1 then p else 0)
  {
  }

  lemma {:induction false} MulXor(a: nat, b: nat, p: nat)
    ensures Mul(Xor(a, b), p) == Xor(Mul(a, p), Mul(b, p))
    decreases a + b
  {
    hide Mul, Xor;
    if a != 0 || b != 0 {
      MulXor(a / 2, b / 2, p);
      XorUnfold(a, b);
      MulUnfold(a, p);
      MulUnfold(b, p);
      MulUnfold(Xor(a, b), p);
      var i, j := if a % 2 == 1 then p else 0, if b % 2 == 1 then p else 0;
      XorExchange(2 * Mul(a / 2, p), i, 2 * Mul(b / 2, p), j);
      XorDouble(Mul(a / 2, p), Mul(b / 2, p));
      XorSelf(p);
      XorZero(p);
      XorZero(0);
    } else {
      XorZero(0);
      MulZero(p);
    }
  }

  lemma MulZero(p: nat)
    ensures Mul(0, p) == 0
  {
  }

  lemma {:induction false} MulShift(q: nat, p: nat, k: nat)
    ensures Mul(q * Power2(k), p) == Mul(q, p) * Power2(k)
    decreases k
  {
    hide Mul, Xor;
    if k > 0 {
      MulShift(q, p, k - 1);
      Halve(q, k, 0);
      var h := q * Power2(k - 1);
      MulUnfold(2 * h, p);
      XorZero(2 * Mul(h, p));
      Halve(Mul(q, p), k, 0);
    }
  }

  lemma MulOne(p: nat)
    ensures Mul(1, p) == p
  {
    XorZero(p);
    assert Mul(0, p) == 0;
  }

  lemma {:induction false} MulBits(q: nat, p: nat)
    requires q > 0 && p > 0
    ensures Bits(Mul(q, p)) == Bits(q) + Bits(p) - 1
  {
    if q == 1 {
      MulOne(p);
    } else {
      MulBits(q / 2, p);
      XorBits(2 * Mul(q / 2, p), if q % 2 == 1 then p else 0);
    }
  }

  // x and y differ by a multiple of p.
  ghost predicate Congruent(x: nat, y: nat, p: nat) {
    exists q :: x == Xor(Mul(q, p), y)
  }

  // The remainder: congruent, and of a lower degree than p.
  ghost predicate Remainder(x: nat, p: nat, r: nat) {
    Congruent(x, r, p) && Bits(r) < Bits(p)
  }

  lemma CongruentSelf(x: nat, p: nat)
    ensures Congruent(x, x, p)
  {
    XorZero(x);
    assert x == Xor(Mul(0, p), x);
  }

  lemma CongruentSum(x: nat, y: nat, x': nat, y': nat, p: nat)
    requires Congruent(x, y, p) && Congruent(x', y', p)
    ensures Congruent(Xor(x, x'), Xor(y, y'), p)
  {
    hide Xor, Mul;
    var q: nat :| x == Xor(Mul(q, p), y);
    var q': nat :| x' == Xor(Mul(q', p), y');
    XorExchange(Mul(q, p), y, Mul(q', p), y');
    MulXor(q, q', p);
    assert Xor(x, x') == Xor(Mul(Xor(q, q'), p), Xor(y, y'));
  }

  lemma CongruentTrans(x: nat, y: nat, z: nat, p: nat)
    requires Congruent(x, y, p) && Congruent(y, z, p)
    ensures Congruent(x, z, p)
  {
    hide Xor, Mul;
    var q: nat :| x == Xor(Mul(q, p), y);
    var q': nat :| y == Xor(Mul(q', p), z);
    XorAssociates(Mul(q, p), Mul(q', p), z);
    MulXor(q, q', p);
    assert x == Xor(Mul(Xor(q, q'), p), z);
  }

  // Appending k low bits keeps congruence.
  lemma CongruentAppend(x: nat, y: nat, p: nat, k: nat, low: nat)
    requires Congruent(x, y, p) && low < Power2(k)
    ensures Congruent(x * Power2(k) + low, y * Power2(k) + low, p)
  {
    hide Xor, Mul, Power2;
    var q: nat :| x == Xor(Mul(q, p), y);
    MulShift(q, p, k);
    XorSplit(k, Mul(q, p), 0, y, low);
    XorZero(low);
    assert x * Power2(k) + low == Xor(Mul(q * Power2(k), p), y * Power2(k) + low);
  }

  // Subtracting a shifted p.
  lemma CongruentStep(x: nat, p: nat, k: nat)
    ensures Congruent(x, Xor(x, p * Power2(k)), p)
  {
    hide Xor, Mul;
    MulShift(1, p, k);
    MulOne(p);
    XorCancels(x, p * Power2(k));
    XorCommutes(x, p * Power2(k));
    assert x == Xor(Mul(1 * Power2(k), p), Xor(x, p * Power2(k)));
  }

  lemma RemainderUnique(x: nat, p: nat, r: nat, s: nat)
    requires Remainder(x, p, r) && Remainder(x, p, s)
    ensures r == s
  {
    hide Xor, Mul, Bits;
    var q: nat :| x == Xor(Mul(q, p), r);
    var q': nat :| x == Xor(Mul(q', p), s);
    XorExchange(Mul(q, p), r, Mul(q', p), s);
    XorSelf(x);
    MulXor(q, q', p);
    var m, d := Mul(Xor(q, q'), p), Xor(r, s);
    assert Xor(m, d) == 0;
    XorCancels(m, d);
    XorZero(d);
    assert m == d;
    XorBits(r, s);
    if Xor(q, q') != 0 {
      BitsPositive(p);
      BitsPositive(Xor(q, q'));
      MulBits(Xor(q, q'), p);
      assert false;
    } else {
      MulZero(p);
      XorCancels(r, s);
      XorZero(s);
    }
  }

  lemma BitsPositive(n: nat)
    ensures Bits(n) > 0 <==> n > 0
  {
  }

  // One step of long division.
  function Reduce(x: nat, p: nat): nat
    requires Bits(p) <= Bits(x)
  {
    Xor(x, p * Power2(Bits(x) - Bits(p)))
  }

  lemma DivisionStep(x: nat, p: nat)
    requires 0 < p && Bits(p) <= Bits(x)
    ensures Bits(Reduce(x, p)) < Bits(x)
  {
    hide Xor, Power2;
    BitsPositive(p);
    BitsPositive(x);
    BitsShift(p, Bits(x) - Bits(p));
    XorBits(x, p * Power2(Bits(x) - Bits(p)));
  }

  // Long division.
  function Rem(x: nat, p: nat): (r: nat)
    requires p > 0
    decreases Bits(x)
  {
    if Bits(x) < Bits(p) then x
    else
      DivisionStep(x, p);
      Rem(Reduce(x, p), p)
  }

  // Long division finds the remainder.
  lemma {:induction false} RemIsRemainder(x: nat, p: nat)
    requires p > 0
    ensures Remainder(x, p, Rem(x, p))
    decreases Bits(x)
  {
    if Bits(x) < Bits(p) {
      CongruentSelf(x, p);
    } else {
      hide Congruent, Xor, Power2;
      CongruentStep(x, p, Bits(x) - Bits(p));
      DivisionStep(x, p);
      RemIsRemainder(Reduce(x, p), p);
      CongruentTrans(x, Reduce(x, p), Rem(x, p), p);
    }
  }

  // Congruent numbers have one remainder.
  lemma RemOfCongruent(x: nat, y: nat, p: nat)
    requires p > 0 && Congruent(x, y, p)
    ensures Rem(x, p) == Rem(y, p)
  {
    hide Congruent, Rem;
    RemIsRemainder(x, p);
    RemIsRemainder(y, p);
    CongruentTrans(x, y, Rem(y, p), p);
    RemainderUnique(x, p, Rem(x, p), Rem(y, p));
  }
}
