// Variable-length integers (RFC 3284, section 2): the emit, read, size-of and
// resumable-decode routines of xdelta3-internal.h.
module Integers {
  import opened Bytes

  // Largest partial value that can take seven more bits: the complement of
  // UINT64_OFLOW_MASK.
  const NO_OVERFLOW: int := 0x200_0000_0000_0000

  // The base-128 number written by a group of bytes, most significant first.
  function Value(s: seq<byte>): nat {
    if s == [] then 0 else Value(s[..|s| - 1]) * 128 + s[|s| - 1] % 128
  }

  // Index of the first byte without a continuation bit, or |s|.
  function Terminator(s: seq<byte>): (k: nat)
    ensures k <= |s|
    ensures k < |s| ==> s[k] < 128
    ensures forall i :: 0 <= i < k ==> s[i] >= 128
  {
    if s == [] || s[0] < 128 then 0 else 1 + Terminator(s[1..])
  }

  // What a reader of arbitrary bytes must return: the value and its length, or
  // failure when the bytes run out or the value does not fit in 64 bits.
  function ReadInt(s: seq<byte>): (r: Result<(nat, nat)>)
    ensures r.Ok? ==> r.value.0 < U64 && 0 < r.value.1 <= |s|
  {
    var k := Terminator(s);
    if k == |s| || Value(s[..k + 1]) >= U64 then Fail else Ok((Value(s[..k + 1]), k + 1))
  }

  // All groups but the last, each with its continuation bit set.
  function HighGroups(n: nat): seq<byte> {
    if n == 0 then [] else HighGroups(n / 128) + [n % 128 + 128]
  }

  // The shortest encoding of n.
  function Encoded(n: nat): (s: seq<byte>)
    ensures |s| > 0
  {
    HighGroups(n / 128) + [n % 128]
  }

  function Pow128(e: nat): (p: nat)
    ensures p > 0
  {
    if e == 0 then 1 else 128 * Pow128(e - 1)
  }

  lemma {:induction false} ValueAppend(s: seq<byte>, b: byte)
    ensures Value(s + [b]) == Value(s) * 128 + b % 128
  {
    assert (s + [b])[..|s|] == s;
  }

  lemma {:induction false} ValueMonotone(s: seq<byte>, i: nat)
    requires i <= |s|
    ensures Value(s[..i]) <= Value(s)
  {
    if i == |s| {
      assert s[..i] == s;
    } else {
      ValueMonotone(s[..|s| - 1], i);
      assert s[..|s| - 1][..i] == s[..i];
    }
  }

  lemma {:induction false} HighGroupsValue(n: nat)
    ensures Value(HighGroups(n)) == n
    ensures forall i :: 0 <= i < |HighGroups(n)| ==> HighGroups(n)[i] >= 128
  {
    if n > 0 {
      HighGroupsValue(n / 128);
      var high: seq<byte>, last: byte := HighGroups(n / 128), n % 128 + 128;
      assert HighGroups(n) == high + [last];
      hide HighGroups, Value;
      ValueAppend(high, last);
    }
  }

  lemma {:induction false} TerminatorAt(s: seq<byte>, k: nat)
    requires k < |s| && s[k] < 128
    requires forall i :: 0 <= i < k ==> s[i] >= 128
    ensures Terminator(s) == k
  {
    if k > 0 {
      TerminatorAt(s[1..], k - 1);
    }
  }

  // Reading what was emitted returns n and stops where the encoding stops,
  // whatever follows.
  lemma {:induction false} ReadEncoded(n: nat, rest: seq<byte>)
    requires n < U64
    ensures ReadInt(Encoded(n) + rest) == Ok((n, |Encoded(n)|))
  {
    var h := HighGroups(n / 128);
    var s := Encoded(n) + rest;
    HighGroupsValue(n / 128);
    TerminatorAt(s, |h|);
    assert s[..|h| + 1] == h + [n % 128];
    ValueAppend(h, n % 128);
  }

  // A successful read looks only at the bytes it consumes.
  lemma {:induction false} ReadPrefix(s: seq<byte>, rest: seq<byte>)
    requires ReadInt(s).Ok?
    ensures ReadInt(s + rest) == ReadInt(s)
  {
    var k := Terminator(s);
    TerminatorAt(s + rest, k);
    assert (s + rest)[..k + 1] == s[..k + 1];
  }

  lemma {:induction false} HighGroupsLength(n: nat, e: nat)
    ensures |HighGroups(n)| <= e <==> n < Pow128(e)
  {
    if n > 0 && e > 0 {
      HighGroupsLength(n / 128, e - 1);
      assert n / 128 < Pow128(e - 1) <==> n < 128 * Pow128(e - 1);
    }
  }

  // An encoding takes at most e bytes exactly when the number is below 128^e.
  lemma EncodedLength(n: nat, e: nat)
    requires e > 0
    ensures |Encoded(n)| <= e <==> n < Pow128(e)
  {
    HighGroupsLength(n / 128, e - 1);
    assert n / 128 < Pow128(e - 1) <==> n < 128 * Pow128(e - 1);
  }

  lemma EncodedLengthMonotone(m: nat, n: nat)
    requires m <= n
    ensures |Encoded(m)| <= |Encoded(n)|
  {
    EncodedLength(m, |Encoded(n)|);
    EncodedLength(n, |Encoded(n)|);
  }

  lemma {:induction false} ValueBound(s: seq<byte>)
    ensures Value(s) < Pow128(|s|)
  {
    if s != [] {
      ValueBound(s[..|s| - 1]);
    }
  }

  // No byte string that reads as n is shorter than Encoded(n).
  lemma EncodedShortest(s: seq<byte>)
    requires ReadInt(s).Ok? && ReadInt(s).value.1 == |s|
    ensures |Encoded(ReadInt(s).value.0)| <= |s|
  {
    assert s[..|s|] == s;
    ValueBound(s);
    EncodedLength(Value(s), |s|);
  }

  // xd3_sizeof_uint64_t.
  function SizeOf(num: nat): (r: nat) {
    if num < 0x80 then 1
    else if num < 0x4000 then 2
    else if num < 0x20_0000 then 3
    else if num < 0x1000_0000 then 4
    else if num < 0x8_0000_0000 then 5
    else if num < 0x400_0000_0000 then 6
    else if num < 0x2_0000_0000_0000 then 7
    else if num < 0x100_0000_0000_0000 then 8
    else if num < 0x8000_0000_0000_0000 then 9
    else 10
  }

  // The size predicted for the header is the size emitted.
  lemma SizeOfIsLength(num: nat)
    requires num < U64
    ensures SizeOf(num) == |Encoded(num)|
  {
    assert Pow128(1) == 0x80;
    assert Pow128(2) == 0x4000;
    assert Pow128(3) == 0x20_0000;
    assert Pow128(4) == 0x1000_0000;
    assert Pow128(5) == 0x8_0000_0000;
    assert Pow128(6) == 0x400_0000_0000;
    assert Pow128(7) == 0x2_0000_0000_0000;
    assert Pow128(8) == 0x100_0000_0000_0000;
    assert Pow128(9) == 0x8000_0000_0000_0000;
    assert Pow128(10) == 128 * Pow128(9);
    EncodedLength(num, SizeOf(num));
    if SizeOf(num) > 1 {
      EncodedLength(num, SizeOf(num) - 1);
    }
  }

  // A byte follows n continuation bytes whose value leaves no room for seven more bits.
  ghost predicate OverflowsAt(s: seq<byte>, n: nat) {
    n < |s| && (forall i :: 0 <= i < n ==> s[i] >= 128) && Value(s[..n]) >= NO_OVERFLOW
  }

  ghost predicate Overflows(s: seq<byte>) {
    exists n :: OverflowsAt(s, n)
  }

  // A byte read when seven more bits do not fit makes the whole read fail.
  lemma OverflowFails(s: seq<byte>, n: nat)
    requires OverflowsAt(s, n)
    ensures ReadInt(s).Fail? && Overflows(s)
  {
    var k := Terminator(s);
    assert k >= n;
    if k < |s| {
      assert s[..n + 1] == s[..n] + [s[n]];
      ValueAppend(s[..n], s[n]);
      ValueMonotone(s[..k + 1], n + 1);
      assert s[..k + 1][..n + 1] == s[..n + 1];
    }
  }

  // The value of n bytes leaves room for the byte that follows and does not go on, or
  // no byte follows.
  ghost predicate Room(s: seq<byte>, n: nat) {
    n <= |s| && Value(s[..n]) < U64 && (n < |s| ==> s[n] < 128 && Value(s[..n]) < NO_OVERFLOW)
  }

  lemma RoomAt(s: seq<byte>, n: nat, m: nat)
    requires Room(s, n)
    ensures !OverflowsAt(s, m)
  {
    var k: int := if n < |s| then n else n - 1;
    if m <= k {
      ValueMonotone(s[..k], m);
      assert s[..k][..m] == s[..m];
      if k < n {
        ValueAppend(s[..k], s[k]);
        assert s[..k] + [s[k]] == s[..n];
      }
    }
  }

  lemma RoomLeft(s: seq<byte>, n: nat)
    requires Room(s, n)
    ensures !Overflows(s)
  {
    forall m: nat
      ensures !OverflowsAt(s, m)
    {
      RoomAt(s, n, m);
    }
  }

  lemma UnterminatedFails(s: seq<byte>)
    requires (forall i :: 0 <= i < |s| ==> s[i] >= 128) && Value(s) < U64
    ensures ReadInt(s).Fail? && !Overflows(s)
  {
    assert Terminator(s) == |s|;
    assert s[..|s|] == s;
    RoomLeft(s, |s|);
  }

  // EMIT_INTEGER_TYPE: fill a ten-byte buffer from its end, then clear the
  // continuation bit of the last byte.
  method EmitInteger(num: nat) returns (emitted: seq<byte>)
    requires num < U64
    ensures emitted == Encoded(num)
  {
    var buf := new byte[10](_ => 0);
    var bufi := 10;
    var rest := num;
    ghost var n0 := num;
    SizeOfIsLength(num);

    bufi := bufi - 1;
    buf[bufi] := rest % 128 + 128;
    rest := rest / 128;
    while rest != 0
      invariant 0 <= bufi < 10
      invariant buf[9] == num % 128 + 128
      invariant HighGroups(rest) + buf[bufi..9] == HighGroups(num / 128)
      decreases rest
    {
      assert |HighGroups(rest)| > 0;
      assert |HighGroups(num / 128)| <= 9;
      ghost var before := buf[bufi..9];
      bufi := bufi - 1;
      buf[bufi] := rest % 128 + 128;
      assert buf[bufi..9] == [rest % 128 + 128] + before;
      assert HighGroups(rest) == HighGroups(rest / 128) + [rest % 128 + 128];
      rest := rest / 128;
    }
    assert buf[bufi..9] == HighGroups(num / 128);
    ghost var high := buf[bufi..9];
    buf[9] := buf[9] % 128;
    assert buf[bufi..9] == high;
    emitted := buf[bufi..];
    assert emitted == buf[bufi..9] + [buf[9]];
  }

  // READ_INTEGER_TYPE: read an integer starting at position pos of a section. The
  // message of a failure says whether it was too large or not all there.
  method ReadInteger(section: seq<byte>, pos: nat) returns (r: Result<(nat, nat)>, tooLarge: bool)
    requires pos <= |section|
    ensures r == ReadInt(section[pos..]) && (tooLarge <==> Overflows(section[pos..]))
  {
    ghost var s := section[pos..];
    var val := 0;
    var inp := pos;
    while true
      invariant pos <= inp <= |section|
      invariant forall i :: 0 <= i < inp - pos ==> s[i] >= 128
      invariant val == Value(s[..inp - pos]) < U64
      decreases |section| - inp
    {
      if inp == |section| {
        assert s[..inp - pos] == s;
        UnterminatedFails(s);
        return Fail, false;
      }
      ghost var n := inp - pos;
      if val >= NO_OVERFLOW {
        OverflowFails(s, n);
        return Fail, true;
      }
      var next := section[inp];
      assert next == s[n];
      inp := inp + 1;
      val := val * 128 + next % 128;
      assert val == Value(s[..n + 1]) by {
        assert s[..n + 1] == s[..n] + [s[n]];
        ValueAppend(s[..n], s[n]);
      }
      if next < 128 {
        TerminatorAt(s, n);
        RoomLeft(s, n);
        return Ok((val, inp - pos)), false;
      }
    }
  }

  // One byte given to DECODE_INTEGER_TYPE, which keeps its partial value between
  // calls: failure, a partial value, or a finished value.
  datatype Partial = Overflow | More(part: nat) | Done(val: nat)

  function DecodeByte(part: nat, b: byte): Partial {
    if part >= NO_OVERFLOW then Overflow
    else if b < 128 then Done(part * 128 + b)
    else More(part * 128 + b % 128)
  }

  // The resumable decoder fed a byte string one byte at a time: the value and the
  // number of bytes taken, the partial value if bytes are missing, or an overflow.
  datatype Fed = Unreadable | Finished(val: nat, used: nat) | Unfinished(part: nat)

  function Feed(part: nat, s: seq<byte>): Fed
    decreases |s|
  {
    if s == [] then Unfinished(part)
    else match DecodeByte(part, s[0])
      case Overflow => Unreadable
      case Done(v) => Finished(v, 1)
      case More(p) =>
        match Feed(p, s[1..])
        case Finished(v, used) => Finished(v, used + 1)
        case other => other
  }

  // The resumable decoder, having taken pre, gives on s what the reader gives on
  // the two together.
  ghost predicate FeedAgrees(pre: seq<byte>, s: seq<byte>) {
    match Feed(Value(pre), s)
    case Unreadable => ReadInt(pre + s).Fail? && Overflows(pre + s)
    case Finished(v, used) => ReadInt(pre + s) == Ok((v, |pre| + used)) && !Overflows(pre + s)
    case Unfinished(part) => ReadInt(pre + s).Fail? && !Overflows(pre + s) && part == Value(pre + s)
  }

  lemma {:induction false} FeedFrom(pre: seq<byte>, s: seq<byte>)
    requires forall i :: 0 <= i < |pre| ==> pre[i] >= 128
    requires Value(pre) < U64
    ensures FeedAgrees(pre, s)
    decreases |s|
  {
    hide ReadInt, Value;
    if s == [] {
      assert pre + s == pre;
      UnterminatedFails(pre);
    } else if Value(pre) >= NO_OVERFLOW {
      assert (pre + s)[..|pre|] == pre;
      OverflowFails(pre + s, |pre|);
    } else if s[0] < 128 {
      FeedLast(pre, s);
    } else {
      ValueAppend(pre, s[0]);
      FeedFrom(pre + [s[0]], s[1..]);
      FeedUnfold(pre, s);
    }
  }

  lemma ReadsLast(s: seq<byte>, k: nat)
    requires k < |s| && (forall i :: 0 <= i < k ==> s[i] >= 128) && s[k] < 128 && Value(s[..k]) < NO_OVERFLOW
    ensures ReadInt(s) == Ok((Value(s[..k]) * 128 + s[k], k + 1)) && !Overflows(s)
  {
    hide Value, Overflows;
    TerminatorAt(s, k);
    assert s[..k + 1] == s[..k] + [s[k]];
    ValueAppend(s[..k], s[k]);
    RoomLeft(s, k);
  }

  lemma FeedLast(pre: seq<byte>, s: seq<byte>)
    requires forall i :: 0 <= i < |pre| ==> pre[i] >= 128
    requires Value(pre) < NO_OVERFLOW && s != [] && s[0] < 128
    ensures FeedAgrees(pre, s)
  {
    hide Value, ReadInt, Overflows;
    assert (pre + s)[..|pre|] == pre;
    ReadsLast(pre + s, |pre|);
  }

  lemma FeedUnfold(pre: seq<byte>, s: seq<byte>)
    requires Value(pre) < NO_OVERFLOW
    requires s != [] && s[0] >= 128
    requires FeedAgrees(pre + [s[0]], s[1..])
    ensures FeedAgrees(pre, s)
  {
    hide ReadInt, Value;
    ValueAppend(pre, s[0]);
    var pre' := pre + [s[0]];
    assert pre' + s[1..] == pre + s;
    assert DecodeByte(Value(pre), s[0]) == More(Value(pre'));
    var later := Feed(Value(pre'), s[1..]);
    assert Feed(Value(pre), s) == if later.Finished? then Finished(later.val, later.used + 1) else later;
  }

  // Feeding the resumable decoder agrees with the whole-buffer reader: it finishes
  // exactly if that succeeds, and refuses exactly if the integer is too large.
  lemma ResumableAgrees(s: seq<byte>)
    ensures ReadInt(s).Ok? <==> Feed(0, s).Finished?
    ensures Overflows(s) <==> Feed(0, s).Unreadable?
    ensures ReadInt(s).Ok? ==> Feed(0, s) == Finished(ReadInt(s).value.0, ReadInt(s).value.1)
  {
    assert [] + s == s;
    FeedFrom([], s);
    assert FeedAgrees([], s);
  }

  lemma {:induction false} FeedSplit(part: nat, a: seq<byte>, b: seq<byte>)
    requires Feed(part, a).Unfinished?
    ensures match Feed(Feed(part, a).part, b)
            case Finished(v, used) => Feed(part, a + b) == Finished(v, |a| + used)
            case other => Feed(part, a + b) == other
    decreases |a|
  {
    if a == [] {
      assert a + b == b;
    } else {
      assert (a + b)[1..] == a[1..] + b;
      FeedSplit(DecodeByte(part, a[0]).part, a[1..], b);
    }
  }
}
