// Bytes, 64-bit sizes and the result type shared by the codec modules.
module Bytes {

  type byte = x: int | 0 <= x < 256

  // usize_t and xoff_t are 64-bit unsigned integers.
  const U64: int := 0x1_0000_0000_0000_0000

  // Every error return of the modelled routines; the codes are not told apart.
  datatype Result<+T> = Ok(value: T) | Fail {

    predicate IsFailure() {
      Fail?
    }

    function PropagateFailure<U>(): Result<U>
      requires Fail?
    {
      Fail
    }

    function Extract(): T
      requires Ok?
    {
      value
    }
  }

  datatype Option<+T> = None | Some(value: T)

  function Min(a: int, b: int): int {
    if a < b then a else b
  }

  function Max(a: int, b: int): int {
    if a > b then a else b
  }

  // n copies of x, the effect of memset.
  function Repeat<T>(x: T, n: nat): (r: seq<T>)
    ensures |r| == n
    ensures forall k :: 0 <= k < n ==> r[k] == x
  {
    seq(n, _ => x)
  }

  // The number written in base 256, most significant byte first.
  function BigEndian(b: seq<byte>): nat {
    if b == [] then 0 else BigEndian(b[..|b| - 1]) * 256 + b[|b| - 1]
  }

  lemma BigEndianSnoc(b: seq<byte>, c: byte)
    ensures BigEndian(b + [c]) == BigEndian(b) * 256 + c
  {
    assert (b + [c])[..|b|] == b;
  }

  lemma SliceOfSlice(s: seq<byte>, a: nat, n: nat, d: nat, m: nat)
    requires a + n <= |s| && d + m <= n
    ensures s[a..a + n][d..d + m] == s[a + d..a + d + m]
  {
    var u, v := s[a..a + n][d..d + m], s[a + d..a + d + m];
    assert |u| == |v|;
    assert forall i :: 0 <= i < m ==> u[i] == v[i];
  }

  // ---------- quotients ----------

  lemma {:induction false} Apart(d: nat, q: nat, p: nat)
    requires d < q
    ensures d * p + p <= q * p
    decreases q
  {
    assert q * p == (q - 1) * p + p;
    if d < q - 1 {
      Apart(d, q - 1, p);
    }
  }

  // A number written as a multiple and a rest has them as quotient and remainder.
  lemma Quotient(a: nat, p: nat, q: nat, r: nat)
    requires p > 0 && a == q * p + r && r < p
    ensures a / p == q && a % p == r
  {
    var d, m := a / p, a % p;
    assert a == d * p + m && 0 <= m < p;
    if d < q {
      Apart(d, q, p);
    } else if q < d {
      Apart(q, d, p);
    }
  }

  // Powers of two.
  function Power2(k: nat): (p: nat)
    ensures p > 0
  {
    if k == 0 then 1 else 2 * Power2(k - 1)
  }

  lemma {:induction false} PowerMonotone(a: nat, b: nat)
    requires a <= b
    ensures Power2(a) <= Power2(b)
    decreases b
  {
    if a < b {
      PowerMonotone(a, b - 1);
    }
  }

  lemma {:induction false} PowerSum(a: nat, b: nat)
    ensures Power2(a + b) == Power2(a) * Power2(b)
  {
    if a > 0 {
      PowerSum(a - 1, b);
    }
  }

  // How often a symbol occurs.
  function Occurrences(data: seq<nat>, c: int): nat {
    if data == [] then 0 else Occurrences(data[..|data| - 1], c) + if data[|data| - 1] == c then 1 else 0
  }

  lemma {:induction false} OccurrencesFirst(data: seq<nat>, c: int)
    requires data != []
    ensures Occurrences(data, c) == (if data[0] == c then 1 else 0) + Occurrences(data[1..], c)
  {
    if |data| > 1 {
      var n := |data| - 1;
      OccurrencesFirst(data[..n], c);
      assert data[..n][1..] == data[1..][..n - 1];
    }
  }
}
