// What a section of the static Huffman coder is made of (xdelta3-djw.h): numbers, code
// lengths, themselves coded, and codes.
module DjwStream {

  import opened Bytes
  import opened BitLayer
  import opened DjwPrefix
  import opened DjwCodes
  import opened DjwMtf
  import opened DjwDecode

  const MAX_CLCLEN: nat := 15
  const EXTRA_12OFFSET: nat := 7
  const EFFICIENCY_BITS: nat := 16

  // djw_init_clen_mtf_1_2.
  function ClenList(): (list: seq<nat>)
    ensures |list| == 21 && forall x {:trigger x in list} :: x in list <==> 0 <= x <= MAX_CODELEN
  {
    var list := [0, 4, 5, 6, 7, 8, 9, 10, 3, 11, 2, 12, 13, 1, 14, 15, 16, 17, 18, 19, 20];
    assert list[0] == 0 && list[1] == 4 && list[2] == 5 && list[3] == 6 && list[4] == 7 && list[5] == 8 && list[6] == 9;
    assert list[7] == 10 && list[8] == 3 && list[9] == 11 && list[10] == 2 && list[11] == 12 && list[12] == 13 && list[13] == 1;
    assert list[14] == 14 && list[15] == 15 && list[16] == 16 && list[17] == 17 && list[18] == 18 && list[19] == 19 && list[20] == 20;
    list
  }

  // The limits that the coder uses are beyond what flattened frequencies can need.
  lemma LimitsEnough()
    ensures 2 * 256 < Fib(MAX_CODELEN + 1) && 2 * TOTAL_CODES < Fib(MAX_CLCLEN + 1)
    ensures forall groups {:trigger Fib(groups)} :: 0 <= groups <= 8 ==> 2 * (groups + 1) < Fib(7 + 1)
  {
    assert Fib(2) == 3 && Fib(3) == 5 && Fib(4) == 8 && Fib(5) == 13 && Fib(6) == 21 && Fib(7) == 34 && Fib(8) == 55;
    assert Fib(9) == 89 && Fib(10) == 144 && Fib(11) == 233 && Fib(12) == 377 && Fib(13) == 610;
    FibMonotone(13, MAX_CODELEN + 1);
    FibMonotone(13, MAX_CLCLEN + 1);
  }

  // Fixed-size numbers one after another.
  function NumberBits(values: seq<nat>, size: nat): seq<bool> {
    if values == [] then [] else HighFirst(values[0], size) + NumberBits(values[1..], size)
  }

  // Every symbol has a code.
  ghost predicate Usable(clen: seq<nat>, symbols: seq<nat>) {
    Within(symbols, |clen|) && forall i {:trigger symbols[i]} :: 0 <= i < |symbols| ==> clen[symbols[i]] > 0
  }

  // The coding of the code lengths chosen for some code lengths: those of the first are
  // numbers, of which num are written.
  ghost predicate PrefixOk(clen: seq<nat>, clclen: seq<nat>, num: nat) {
    && |clclen| == TOTAL_CODES && EXTRA_12OFFSET <= num <= TOTAL_CODES && Complete(clclen, MAX_CLCLEN)
    && (forall x :: x in clen ==> x in ClenList())
    && (forall i {:trigger clclen[i]} :: num <= i < TOTAL_CODES ==> clclen[i] == 0)
    && Usable(clclen, Encode12(clen, ClenList(), 0))
  }

  ghost function PrefixBits(clen: seq<nat>, clclen: seq<nat>, num: nat): seq<bool>
    requires PrefixOk(clen, clclen, num)
  {
    HighFirst(num - EXTRA_12OFFSET, 4) + (NumberBits(clclen[..num], 4) + CodeBits(clclen, Encode12(clen, ClenList(), 0)))
  }

  // ---------- encoding ----------

  // djw_count_freqs.
  method CountFreqs(input: seq<byte>) returns (freq: seq<nat>)
    ensures |freq| == 256 && Counted(input, freq)
  {
    freq := seq(256, _ => 0);
    assert Counted([], freq);
    assert input[..0] == [];
    for i := 0 to |input|
      invariant |freq| == 256 && Counted(input[..i], freq)
    {
      CountedNext(input[..i], freq, input[i]);
      assert input[..i + 1] == input[..i] + [input[i]];
      freq := freq[input[i] := freq[input[i]] + 1];
    }
    assert input[..|input|] == input;
  }

  // Symbols that occur have codes.
  lemma OccurUsable(codes: seq<nat>, freq: seq<nat>, clen: seq<nat>)
    requires Counted(codes, freq) && |clen| == |freq| && Within(codes, |freq|)
    requires forall i :: 0 <= i < |freq| && freq[i] > 0 ==> clen[i] > 0
    ensures Usable(clen, codes)
  {
    forall i | 0 <= i < |codes|
      ensures clen[codes[i]] > 0
    {
      OccursIn(codes, codes[i]);
      assert freq[codes[i]] == Occurrences(codes, codes[i]);
    }
  }

  lemma SomeOccur(codes: seq<nat>, freq: seq<nat>)
    requires Counted(codes, freq) && Within(codes, |freq|) && codes != []
    ensures exists i :: 0 <= i < |freq| && freq[i] > 0
  {
    OccursIn(codes, codes[0]);
    assert freq[codes[0]] == Occurrences(codes, codes[0]);
  }

  lemma CompleteFits(clen: seq<nat>, k: nat)
    requires Complete(clen, k)
    ensures Fits(clen, k)
  {
  }

  // Codes written one after another.
  method EncodeCodes(writer: BitWriter, symbols: seq<nat>, clen: seq<nat>, codes: seq<nat>, ghost k: nat)
    requires writer.Valid() && Usable(clen, symbols) && Fits(clen, k) && |codes| == |clen|
    requires forall i :: 0 <= i < |clen| && clen[i] > 0 ==> codes[i] == Code(clen, i)
    modifies writer
    ensures writer.Valid() && writer.bits == old(writer.bits) + CodeBits(clen, symbols)
  {
    ghost var before := writer.bits;
    CodeBitsNone(clen, symbols[..0]);
    UsableWithin(clen, symbols);
    hide *;
    for i := 0 to |symbols|
      invariant writer.Valid() && Within(symbols[..i], |clen|) && writer.bits == before + CodeBits(clen, symbols[..i])
    {
      var c := symbols[i];
      CodeUsable(clen, codes, symbols, i, k);
      CodeBitsNext(clen, symbols, i, before);
      writer.EncodeBits(clen[c], codes[c]);
    }
    TakeAll(symbols);
  }

  lemma CodeBitsNone(clen: seq<nat>, symbols: seq<nat>)
    requires symbols == []
    ensures Within(symbols, |clen|) && CodeBits(clen, symbols) == []
  {
  }

  lemma UsableWithin(clen: seq<nat>, symbols: seq<nat>)
    requires Usable(clen, symbols)
    ensures Within(symbols, |clen|)
  {
  }

  lemma CodeUsable(clen: seq<nat>, codes: seq<nat>, symbols: seq<nat>, i: nat, k: nat)
    requires Usable(clen, symbols) && Fits(clen, k) && |codes| == |clen| && i < |symbols|
    requires forall j :: 0 <= j < |clen| && clen[j] > 0 ==> codes[j] == Code(clen, j)
    ensures var c := symbols[i]; c < |clen| && clen[c] > 0 && codes[c] == Code(clen, c) && codes[c] < Power2(clen[c])
  {
    CodeFits(clen, k, symbols[i]);
    hide Code, Power2;
  }

  lemma CodeBitsNext(clen: seq<nat>, symbols: seq<nat>, i: nat, before: seq<bool>)
    requires Within(symbols, |clen|) && i < |symbols|
    ensures Within(symbols[..i], |clen|) && Within(symbols[..i + 1], |clen|) && symbols[i] < |clen|
    ensures before + CodeBits(clen, symbols[..i + 1])
            == before + CodeBits(clen, symbols[..i]) + HighFirst(Code(clen, symbols[i]), clen[symbols[i]])
  {
    hide *;
    TakeNext(symbols, i);
    WithinTake(symbols, |clen|, i);
    CodeBitsSnoc(clen, symbols[..i], symbols[i]);
    Associate(before, CodeBits(clen, symbols[..i]), HighFirst(Code(clen, symbols[i]), clen[symbols[i]]));
  }

  lemma TakeNext(values: seq<nat>, i: nat)
    requires i < |values|
    ensures values[..i + 1] == values[..i] + [values[i]]
  {
  }

  lemma WithinTake(symbols: seq<nat>, m: nat, i: nat)
    requires Within(symbols, m) && i < |symbols|
    ensures Within(symbols[..i], m) && symbols[i] < m
  {
  }

  lemma CodeBitsSnoc(clen: seq<nat>, a: seq<nat>, c: nat)
    requires Within(a, |clen|) && c < |clen|
    ensures Within(a + [c], |clen|) && CodeBits(clen, a + [c]) == CodeBits(clen, a) + HighFirst(Code(clen, c), clen[c])
  {
    hide *;
    OneCode(clen, c);
    CodeBitsJoin(clen, a, [c]);
  }

  method EncodeNumbers(writer: BitWriter, values: seq<nat>, size: nat)
    requires writer.Valid() && size > 0 && forall i :: 0 <= i < |values| ==> values[i] < Power2(size)
    modifies writer
    ensures writer.Valid() && writer.bits == old(writer.bits) + NumberBits(values, size)
  {
    ghost var before := writer.bits;
    NumberBitsNone(values[..0], size);
    hide *;
    for i := 0 to |values|
      invariant writer.Valid() && writer.bits == before + NumberBits(values[..i], size)
    {
      NumberBitsAt(values, i, size, before);
      writer.EncodeBits(size, values[i]);
    }
    TakeAll(values);
  }

  lemma TakeAll(values: seq<nat>)
    ensures values[..|values|] == values
  {
  }

  lemma NumberBitsAt(values: seq<nat>, i: nat, size: nat, before: seq<bool>)
    requires i < |values|
    ensures before + NumberBits(values[..i + 1], size) == before + NumberBits(values[..i], size) + HighFirst(values[i], size)
  {
    hide *;
    TakeNext(values, i);
    NumberBitsNext(values[..i], values[i], size);
  }

  lemma NumberBitsNone(values: seq<nat>, size: nat)
    requires values == []
    ensures NumberBits(values, size) == []
  {
  }

  lemma {:induction false} NumberBitsNext(values: seq<nat>, x: nat, size: nat)
    ensures NumberBits(values + [x], size) == NumberBits(values, size) + HighFirst(x, size)
  {
    if values == [] {
      assert [] + [x] == [x];
      assert NumberBits([x], size) == HighFirst(x, size) + NumberBits([], size);
    } else {
      NumberBitsNext(values[1..], x, size);
      assert (values + [x])[1..] == values[1..] + [x] && (values + [x])[0] == values[0];
    }
  }

  lemma PrefixCodes(clen: seq<nat>, freq: seq<nat>)
    requires (forall x :: x in clen ==> x in ClenList()) && clen != []
    requires |freq| == TOTAL_CODES && Counted(Encode12(clen, ClenList(), 0), freq)
    ensures Within(Encode12(clen, ClenList(), 0), TOTAL_CODES) && exists i :: 0 <= i < |freq| && freq[i] > 0
  {
    CodesBound(clen, ClenList(), 0);
    hide Encode12, ClenList, Counted;
    var codes := Encode12(clen, ClenList(), 0);
    forall i | 0 <= i < |codes|
      ensures codes[i] < TOTAL_CODES
    {
      assert codes[i] in codes;
    }
    SomeOccur(codes, freq);
  }

  // djw_compute_prefix_1_2.
  method ComputePrefix12(clen: seq<nat>) returns (mtfsym: seq<nat>, freq: seq<nat>)
    requires (forall x :: x in clen ==> x in ClenList()) && clen != []
    ensures mtfsym == Encode12(clen, ClenList(), 0) && |freq| == TOTAL_CODES && Counted(mtfsym, freq)
    ensures Within(mtfsym, TOTAL_CODES) && exists i :: 0 <= i < |freq| && freq[i] > 0
  {
    var list := ClenList();
    var mtf := new nat[21](i requires 0 <= i < 21 => list[i]);
    assert mtf[..] == list;
    hide ClenList, Encode12, Counted;
    mtfsym, freq := ComputeMtf12(clen, mtf, MAX_CODELEN);
    PrefixCodes(clen, freq);
  }

  // djw_encode_prefix.
  method EncodePrefix(writer: BitWriter, clen: seq<nat>) returns (ghost clclen: seq<nat>, ghost num: nat)
    requires writer.Valid() && (forall x :: x in clen ==> x in ClenList()) && clen != []
    modifies writer
    ensures writer.Valid() && PrefixOk(clen, clclen, num)
    ensures writer.bits == old(writer.bits) + PrefixBits(clen, clclen, num)
  {
    hide ClenList, Encode12, Counted, Complete, Fib, CodeBits, NumberBits, BitWriter.Valid;
    var mtfsym, clfreq := ComputePrefix12(clen);
    LimitsEnough();
    var lengths, cost := BuildPrefix(clfreq, MAX_CLCLEN);
    CompleteBound(lengths, MAX_CLCLEN);
    var clcode := BuildCodes(lengths);
    OccurUsable(mtfsym, clfreq, lengths);
    CompleteFits(lengths, MAX_CLCLEN);
    var numToEncode := TrimZeros(lengths);
    clclen, num := lengths, numToEncode;
    PrefixMade(clen, lengths, numToEncode, mtfsym);
    ghost var before := writer.bits;
    SixteenFour();
    LengthsBelow(lengths[..numToEncode]);
    hide *;
    writer.EncodeBits(4, numToEncode - EXTRA_12OFFSET);
    EncodeNumbers(writer, lengths[..numToEncode], 4);
    EncodeCodes(writer, mtfsym, lengths, clcode, MAX_CLCLEN);
    AppendThree(before, HighFirst(numToEncode - EXTRA_12OFFSET, 4), NumberBits(lengths[..numToEncode], 4), CodeBits(lengths, mtfsym));
  }

  // How many of the lengths to write: those after are zero.
  method TrimZeros(lengths: seq<nat>) returns (num: nat)
    requires |lengths| == TOTAL_CODES
    ensures EXTRA_12OFFSET <= num <= TOTAL_CODES
    ensures forall i {:trigger lengths[i]} :: num <= i < TOTAL_CODES ==> lengths[i] == 0
  {
    num := TOTAL_CODES;
    while num > EXTRA_12OFFSET && lengths[num - 1] == 0
      invariant EXTRA_12OFFSET <= num <= TOTAL_CODES
      invariant forall i {:trigger lengths[i]} :: num <= i < TOTAL_CODES ==> lengths[i] == 0
    {
      num := num - 1;
    }
  }

  lemma PrefixMade(clen: seq<nat>, clclen: seq<nat>, num: nat, codes: seq<nat>)
    requires |clclen| == TOTAL_CODES && EXTRA_12OFFSET <= num <= TOTAL_CODES && Complete(clclen, MAX_CLCLEN)
    requires (forall x :: x in clen ==> x in ClenList()) && codes == Encode12(clen, ClenList(), 0)
    requires forall i {:trigger clclen[i]} :: num <= i < TOTAL_CODES ==> clclen[i] == 0
    requires Usable(clclen, codes)
    ensures PrefixOk(clen, clclen, num) && Within(codes, TOTAL_CODES)
    ensures PrefixBits(clen, clclen, num)
            == HighFirst(num - EXTRA_12OFFSET, 4) + (NumberBits(clclen[..num], 4) + CodeBits(clclen, codes))
  {
    hide Encode12, ClenList, CodeBits, NumberBits, Complete;
  }

  lemma AppendThree(before: seq<bool>, a: seq<bool>, b: seq<bool>, c: seq<bool>)
    ensures before + a + b + c == before + (a + (b + c))
  {
  }

  lemma SixteenFour()
    ensures Power2(4) == 16 && Power2(3) == 8
  {
    assert Power2(1) == 2 && Power2(2) == 4 && Power2(3) == 8;
  }

  lemma CompleteBound(clen: seq<nat>, k: nat)
    requires Complete(clen, k)
    ensures forall i :: 0 <= i < |clen| ==> clen[i] <= k
  {
  }

  lemma LengthsListed(clen: seq<nat>)
    requires Complete(clen, MAX_CODELEN)
    ensures forall x :: x in clen ==> x in ClenList()
  {
    hide Kraft;
    forall x | x in clen
      ensures x in ClenList()
    {
      var i :| 0 <= i < |clen| && clen[i] == x;
    }
  }

  // What the lengths cost is the size of the data's code.
  lemma {:induction false} CostIsSize(clen: seq<nat>, freq: seq<nat>, data: seq<nat>)
    requires |clen| == |freq| && Within(data, |clen|) && Counted(data, freq)
    ensures Cost(clen, freq, |freq|) == |CodeBits(clen, data)|
    decreases |data|
  {
    hide Code, HighFirst, Counted, Cost, CodeBits;
    if data == [] {
      CostNothing(clen, freq, |freq|);
      CodeBitsNone(clen, data);
    } else {
      var n := |data| - 1;
      var c := data[n];
      var less := FreqBefore(data, freq);
      CostIsSize(clen, less, data[..n]);
      CostOneMore(clen, less, c, |freq|);
      assert data == data[..n] + [c];
      CodeBitsSnoc(clen, data[..n], c);
    }
  }

  lemma {:induction false} CostNothing(clen: seq<nat>, freq: seq<nat>, n: nat)
    requires n <= |clen| == |freq| && Counted([], freq)
    ensures Cost(clen, freq, n) == 0
  {
    if n > 0 {
      CostNothing(clen, freq, n - 1);
      assert freq[n - 1] == 0;
    }
  }

  lemma FreqBefore(data: seq<nat>, freq: seq<nat>) returns (less: seq<nat>)
    requires data != [] && Within(data, |freq|) && Counted(data, freq)
    ensures var n := |data| - 1;
            && |less| == |freq| && Within(data[..n], |freq|) && Counted(data[..n], less) && data[n] < |less|
            && freq == less[data[n] := less[data[n]] + 1]
  {
    var n := |data| - 1;
    var c := data[n];
    assert freq[c] == Occurrences(data, c);
    less := freq[c := freq[c] - 1];
  }

  lemma {:induction false} CostOneMore(clen: seq<nat>, freq: seq<nat>, c: nat, n: nat)
    requires n <= |clen| == |freq| && c < |freq|
    ensures Cost(clen, freq[c := freq[c] + 1], n) == Cost(clen, freq, n) + if c < n then clen[c] else 0
  {
    if n > 0 {
      CostOneMore(clen, freq, c, n - 1);
    }
  }

  // The bytes in the output are the whole ones of the bits.
  lemma WholeBytes(writer: BitWriter, n: nat)
    requires writer.Valid() && |writer.bits| == n
    ensures |writer.output| == n / 8
  {
  }

  // ---------- decoding ----------

  function ReadNumbers(bits: seq<bool>, count: nat, size: nat): Result<Values>
    decreases count
  {
    if count == 0 then Ok(Values([], 0))
    else if |bits| < size then Fail
    else Follow([Value(bits[..size])], size, ReadNumbers(bits[size..], count - 1, size))
  }

  lemma {:induction false} ReadNumbersBack(values: seq<nat>, size: nat, rest: seq<bool>)
    requires forall i :: 0 <= i < |values| ==> values[i] < Power2(size)
    ensures ReadNumbers(NumberBits(values, size) + rest, |values|, size) == Ok(Values(values, |NumberBits(values, size)|))
  {
    hide *;
    if values == [] {
      NumbersNone(values, size, rest);
    } else {
      NumbersFront(values, size, rest);
      ReadNumbersBack(values[1..], size, rest);
      FollowFirst(values, size, |NumberBits(values[1..], size)|);
    }
  }

  lemma NumbersNone(values: seq<nat>, size: nat, rest: seq<bool>)
    requires values == []
    ensures ReadNumbers(NumberBits(values, size) + rest, |values|, size) == Ok(Values(values, |NumberBits(values, size)|))
  {
  }

  lemma NumbersFront(values: seq<nat>, size: nat, rest: seq<bool>)
    requires values != [] && values[0] < Power2(size)
    ensures |NumberBits(values, size)| == size + |NumberBits(values[1..], size)|
    ensures ReadNumbers(NumberBits(values, size) + rest, |values|, size)
            == Follow([values[0]], size, ReadNumbers(NumberBits(values[1..], size) + rest, |values[1..]|, size))
  {
    var first, more := HighFirst(values[0], size), NumberBits(values[1..], size);
    ValueOfHighFirst(values[0], size);
    var bits := NumberBits(values, size) + rest;
    Associate(first, more, rest);
    TwoParts(bits, first, more, rest);
    hide HighFirst, Value;
  }

  // Fixed-size numbers, as many as asked for.
  method DecodeNumbers(reader: BitReader, count: nat, size: nat) returns (r: Result<seq<nat>>)
    requires reader.Valid() && size > 0
    modifies reader
    ensures reader.Valid()
    ensures var x := ReadNumbers(old(reader.Rest()), count, size);
            if x.Ok? then r == Ok(x.value.values) && x.value.used <= |old(reader.Rest())|
                          && reader.Rest() == old(reader.Rest())[x.value.used..] && reader.Used() == old(reader.Used()) + x.value.used
            else r.Fail?
  {
    hide BitReader.Rest, BitReader.Used, BitReader.Valid, Follow, ReadNumbers;
    ghost var rest, before := reader.Rest(), reader.Used();
    ghost var goal := ReadNumbers(rest, count, size);
    ghost var used: nat := 0;
    var values: seq<nat> := [];
    DropNone(rest);
    FollowNone([], goal);
    assert NumbersSoFar(goal, rest, used, values, count, size);
    hide *;
    while |values| < count
      invariant reader.Valid() && used <= |rest| && reader.Rest() == rest[used..] && reader.Used() == before + used
      invariant |values| <= count && NumbersSoFar(goal, rest, used, values, count, size)
    {
      NumberNext(goal, rest, used, values, count, size);
      var x := reader.DecodeBits(size);
      if x.Fail? {
        return Fail;
      }
      values := values + [x.value];
      used := used + size;
    }
    NumbersEnd(goal, rest, used, values, count, size);
    r := Ok(values);
  }

  lemma DropNone(bits: seq<bool>)
    ensures bits[0..] == bits
  {
  }

  ghost predicate NumbersSoFar(goal: Result<Values>, rest: seq<bool>, used: nat, values: seq<nat>, count: nat, size: nat) {
    && used <= |rest| && |values| <= count
    && goal == Follow(values, used, ReadNumbers(rest[used..], count - |values|, size))
  }

  lemma NumberNext(goal: Result<Values>, rest: seq<bool>, used: nat, values: seq<nat>, count: nat, size: nat)
    requires NumbersSoFar(goal, rest, used, values, count, size) && |values| < count
    ensures if |rest[used..]| < size then goal.Fail?
            else
              && rest[used..][size..] == rest[used + size..]
              && NumbersSoFar(goal, rest, used + size, values + [Value(rest[used..][..size])], count, size)
  {
    var bits := rest[used..];
    hide Value;
    if |bits| >= size {
      assert bits[size..] == rest[used + size..];
      FollowTwice(values, used, [Value(bits[..size])], size, ReadNumbers(bits[size..], count - |values| - 1, size));
    }
  }

  lemma NumbersEnd(goal: Result<Values>, rest: seq<bool>, used: nat, values: seq<nat>, count: nat, size: nat)
    requires NumbersSoFar(goal, rest, used, values, count, size) && |values| == count
    ensures goal == Ok(Values(values, used))
  {
    assert values + [] == values;
  }

  // The rest of the lengths are zero.
  function Padded(values: seq<nat>): (r: seq<nat>)
    ensures |values| <= TOTAL_CODES ==> |r| == TOTAL_CODES
  {
    if |values| <= TOTAL_CODES then values + seq(TOTAL_CODES - |values|, _ => 0) else values
  }

  // What djw_decode_clclen makes of the bits.
  function ReadClclen(bits: seq<bool>): Result<Values> {
    if |bits| < 4 then Fail
    else
      var count := Value(bits[..4]) + EXTRA_12OFFSET;
      var x := ReadNumbers(bits[4..], count, 4);
      if x.Ok? then Ok(Values(Padded(x.value.values), 4 + x.value.used)) else Fail
  }

  lemma {:induction false} NumbersBelow(bits: seq<bool>, count: nat, size: nat)
    ensures var x := ReadNumbers(bits, count, size);
            x.Ok? ==> |x.value.values| == count && forall i :: 0 <= i < count ==> x.value.values[i] < Power2(size)
    decreases count
  {
    if count > 0 && |bits| >= size {
      NumbersBelow(bits[size..], count - 1, size);
      ValueBelow(bits[..size]);
    }
  }

  // djw_decode_clclen.
  method DecodeClclen(reader: BitReader) returns (r: Result<Table>, ghost clclen: seq<nat>)
    requires reader.Valid()
    modifies reader
    ensures reader.Valid()
    ensures var x := ReadClclen(old(reader.Rest()));
            if x.Ok? then
              && r.Ok? && clclen == x.value.values && x.value.used <= |old(reader.Rest())|
              && reader.Rest() == old(reader.Rest())[x.value.used..] && reader.Used() == old(reader.Used()) + x.value.used
              && TableFor(r.value, clclen)
            else r.Fail?
  {
    clclen := [];
    ghost var rest := reader.Rest();
    var num := reader.DecodeBits(4);
    if num.Fail? {
      return Fail, clclen;
    }
    ValueBelow(rest[..4]);
    SixteenFour();
    NumbersBelow(rest[4..], num.value + EXTRA_12OFFSET, 4);
    hide ReadNumbers, Value, Power2, TableFor, BitReader.Valid, BitReader.Rest, BitReader.Used;
    var values := DecodeNumbers(reader, num.value + EXTRA_12OFFSET, 4);
    if values.Fail? {
      return Fail, clclen;
    }
    clclen := Padded(values.value);
    var t := BuildDecoder(Padded(values.value), MAX_CLCLEN);
    r := Ok(t);
    ghost var x := ReadNumbers(rest[4..], num.value + EXTRA_12OFFSET, 4);
    assert rest[4..][x.value.used..] == rest[4 + x.value.used..];
  }

  function ReadSymbols(t: Table, maxSym: nat, bits: seq<bool>, n: nat): Result<Values>
    decreases n
  {
    if n == 0 then Ok(Values([], 0))
    else
      var x := Scan(t, bits, maxSym, 0, 0);
      if x.Fail? then Fail
      else
        ScanUsed(t, bits, maxSym, 0, 0);
        Follow([x.value.sym], x.value.used, ReadSymbols(t, maxSym, bits[x.value.used..], n - 1))
  }

  lemma {:induction false} ReadsData(t: Table, clen: seq<nat>, k: nat, maxSym: nat, data: seq<nat>, rest: seq<bool>)
    requires TableFor(t, clen) && Fits(clen, k) && |clen| <= maxSym && Usable(clen, data)
    ensures ReadSymbols(t, maxSym, CodeBits(clen, data) + rest, |data|) == Ok(Values(data, |CodeBits(clen, data)|))
    decreases |data|
  {
    hide Scan, Code, HighFirst, TableFor, Fits, ReadSymbols, CodeBits, Usable, Follow;
    if data == [] {
      ReadsNone(t, clen, maxSym, rest);
    } else {
      DataFront(t, clen, k, maxSym, data, rest);
      ReadsData(t, clen, k, maxSym, data[1..], rest);
      FollowFirst(data, |HighFirst(Code(clen, data[0]), clen[data[0]])|, |CodeBits(clen, data[1..])|);
    }
  }

  lemma ReadsNone(t: Table, clen: seq<nat>, maxSym: nat, rest: seq<bool>)
    ensures ReadSymbols(t, maxSym, CodeBits(clen, []) + rest, 0) == Ok(Values([], |CodeBits(clen, [])|))
  {
  }

  lemma FollowFirst(data: seq<nat>, a: nat, b: nat)
    requires data != []
    ensures Follow([data[0]], a, Ok(Values(data[1..], b))) == Ok(Values(data, a + b))
  {
    assert [data[0]] + data[1..] == data;
  }

  lemma DataFront(t: Table, clen: seq<nat>, k: nat, maxSym: nat, data: seq<nat>, rest: seq<bool>)
    requires TableFor(t, clen) && Fits(clen, k) && |clen| <= maxSym && Usable(clen, data) && data != []
    ensures Usable(clen, data[1..]) && Within(data, |clen|) && Within(data[1..], |clen|) && data[0] < |clen|
    ensures var bits, more := HighFirst(Code(clen, data[0]), clen[data[0]]), CodeBits(clen, data[1..]);
            && |CodeBits(clen, data)| == |bits| + |more|
            && ReadSymbols(t, maxSym, CodeBits(clen, data) + rest, |data|)
               == Follow([data[0]], |bits|, ReadSymbols(t, maxSym, more + rest, |data[1..]|))
  {
    var c := data[0];
    var bits, more := HighFirst(Code(clen, c), clen[c]), CodeBits(clen, data[1..]);
    DecodesCode(t, clen, c, more + rest, maxSym, k);
    Associate(bits, more, rest);
    assert (bits + (more + rest))[|bits|..] == more + rest;
    hide Scan, Code, HighFirst, TableFor, Fits;
  }

  // A symbol of the alphabet, whatever the bits.
  lemma ScanSymbol(t: Table, clen: seq<nat>, bits: seq<bool>, maxSym: nat)
    requires TableFor(t, clen) && |clen| <= maxSym
    ensures var x := Scan(t, bits, maxSym, 0, 0); x.Ok? ==> x.value.sym < |clen|
  {
    assert Value([]) == 0;
    ScanSound(t, clen, bits, [], maxSym);
  }

  // The last loop of xd3_decode_huff.
  method DecodeData(reader: BitReader, t: Table, size: nat, ghost clen: seq<nat>) returns (r: Result<seq<byte>>)
    requires reader.Valid() && TableFor(t, clen) && |clen| == 256 && |t.base| == |t.limit|
    modifies reader
    ensures reader.Valid() && (r.Ok? ==> |r.value| == size)
    ensures var x := ReadSymbols(t, 256, old(reader.Rest()), size);
            if x.Ok? then
              && r.Ok? && r.value == x.value.values && x.value.used <= |old(reader.Rest())|
              && reader.Rest() == old(reader.Rest())[x.value.used..] && reader.Used() == old(reader.Used()) + x.value.used
            else r.Fail?
  {
    hide *;
    ghost var rest, before := reader.Rest(), reader.Used();
    ghost var goal := ReadSymbols(t, 256, rest, size);
    ghost var used: nat := 0;
    var output: seq<byte> := [];
    DropNone(rest);
    SymbolsStart(t, rest, size);
    TableShape(t, clen);
    while |output| < size
      invariant reader.Valid() && used <= |rest| && reader.Rest() == rest[used..] && reader.Used() == before + used
      invariant |output| <= size && SymbolsSoFar(goal, t, rest, used, output, size)
    {
      SymbolNext(goal, t, rest, used, output, size);
      ScanSymbol(t, clen, rest[used..], 256);
      var sym := DecodeSymbol(reader, t, 256);
      if sym.Fail? {
        return Fail;
      }
      output := output + [sym.value as byte];
      used := used + Scan(t, rest[used..], 256, 0, 0).value.used;
    }
    SymbolsEnd(goal, t, rest, used, output, size);
    r := Ok(output);
  }

  ghost predicate SymbolsSoFar(goal: Result<Values>, t: Table, rest: seq<bool>, used: nat, output: seq<nat>, size: nat) {
    && used <= |rest| && |output| <= size
    && goal == Follow(output, used, ReadSymbols(t, 256, rest[used..], size - |output|))
  }

  lemma SymbolsStart(t: Table, rest: seq<bool>, size: nat)
    ensures SymbolsSoFar(ReadSymbols(t, 256, rest, size), t, rest, 0, [], size)
  {
    DropNone(rest);
    FollowNone([], ReadSymbols(t, 256, rest, size));
    hide ReadSymbols;
  }

  lemma TableShape(t: Table, clen: seq<nat>)
    requires TableFor(t, clen)
    ensures |t.base| == |t.limit| && t.maxClen < |t.base| && t.minClen >= 1
  {
  }

  lemma SymbolNext(goal: Result<Values>, t: Table, rest: seq<bool>, used: nat, output: seq<nat>, size: nat)
    requires SymbolsSoFar(goal, t, rest, used, output, size) && |output| < size
    ensures var x := Scan(t, rest[used..], 256, 0, 0);
            if x.Fail? then goal.Fail?
            else
              && x.value.used <= |rest[used..]| && rest[used..][x.value.used..] == rest[used + x.value.used..]
              && SymbolsSoFar(goal, t, rest, used + x.value.used, output + [x.value.sym], size)
  {
    var bits := rest[used..];
    var x := Scan(t, bits, 256, 0, 0);
    ScanUsed(t, bits, 256, 0, 0);
    hide Scan;
    if x.Ok? {
      assert bits[x.value.used..] == rest[used + x.value.used..];
      FollowTwice(output, used, [x.value.sym], x.value.used, ReadSymbols(t, 256, bits[x.value.used..], size - |output| - 1));
    }
  }

  lemma SymbolsEnd(goal: Result<Values>, t: Table, rest: seq<bool>, used: nat, output: seq<nat>, size: nat)
    requires SymbolsSoFar(goal, t, rest, used, output, size) && |output| == size
    ensures goal == Ok(Values(output, used))
  {
    assert output + [] == output;
  }

  // ---------- code lengths read back ----------

  lemma PrefixFacts(clen: seq<nat>, clclen: seq<nat>, num: nat)
    requires PrefixOk(clen, clclen, num)
    ensures |clclen| == TOTAL_CODES && EXTRA_12OFFSET <= num <= TOTAL_CODES && Fits(clclen, MAX_CLCLEN)
    ensures forall i :: 0 <= i < TOTAL_CODES ==> clclen[i] <= MAX_CLCLEN
    ensures forall i {:trigger clclen[i]} :: num <= i < TOTAL_CODES ==> clclen[i] == 0
    ensures (forall x :: x in clen ==> x in ClenList()) && Usable(clclen, Encode12(clen, ClenList(), 0))
    ensures Within(Encode12(clen, ClenList(), 0), TOTAL_CODES)
  {
    CompleteBound(clclen, MAX_CLCLEN);
    CompleteFits(clclen, MAX_CLCLEN);
    hide ClenList, Encode12, Complete, Fits, Kraft;
  }

  // The code lengths of the code lengths.
  lemma ReadsClclen(clen: seq<nat>, clclen: seq<nat>, num: nat, bits: seq<bool>, rest: seq<bool>)
    requires PrefixOk(clen, clclen, num)
    requires bits == HighFirst(num - EXTRA_12OFFSET, 4) + (NumberBits(clclen[..num], 4) + rest)
    ensures ReadClclen(bits) == Ok(Values(clclen, 4 + |NumberBits(clclen[..num], 4)|))
    ensures bits[4 + |NumberBits(clclen[..num], 4)|..] == rest
  {
    hide *;
    PrefixFacts(clen, clclen, num);
    var number, numbers := HighFirst(num - EXTRA_12OFFSET, 4), NumberBits(clclen[..num], 4);
    TwoParts(bits, number, numbers, rest);
    FourBits(num);
    LengthsBelow(clclen[..num]);
    ReadNumbersBack(clclen[..num], 4, rest);
    PaddedBack(clclen, num);
    ClclenRead(bits, num, clclen, |numbers|);
  }

  lemma FourBits(num: nat)
    requires EXTRA_12OFFSET <= num <= TOTAL_CODES
    ensures Value(HighFirst(num - EXTRA_12OFFSET, 4)) == num - EXTRA_12OFFSET
  {
    SixteenFour();
    ValueOfHighFirst(num - EXTRA_12OFFSET, 4);
  }

  lemma LengthsBelow(values: seq<nat>)
    requires forall i :: 0 <= i < |values| ==> values[i] <= MAX_CLCLEN
    ensures forall i :: 0 <= i < |values| ==> values[i] < Power2(4)
  {
    SixteenFour();
  }

  lemma PaddedBack(clclen: seq<nat>, num: nat)
    requires |clclen| == TOTAL_CODES && num <= TOTAL_CODES
    requires forall i {:trigger clclen[i]} :: num <= i < TOTAL_CODES ==> clclen[i] == 0
    ensures Padded(clclen[..num]) == clclen
  {
  }

  lemma ClclenRead(bits: seq<bool>, num: nat, clclen: seq<nat>, used: nat)
    requires |bits| >= 4 && num >= EXTRA_12OFFSET && Value(bits[..4]) == num - EXTRA_12OFFSET
    requires num <= |clclen| && ReadNumbers(bits[4..], num, 4) == Ok(Values(clclen[..num], used)) && Padded(clclen[..num]) == clclen
    ensures ReadClclen(bits) == Ok(Values(clclen, 4 + used))
  {
    hide Value, ReadNumbers, Padded;
  }

  lemma TwoParts(bits: seq<bool>, a: seq<bool>, b: seq<bool>, rest: seq<bool>)
    requires bits == a + (b + rest)
    ensures bits[..|a|] == a && bits[|a|..] == b + rest && bits[|a| + |b|..] == rest
  {
  }

  // And from them the code lengths.
  lemma ReadsClen(clen: seq<nat>, clclen: seq<nat>, num: nat, t: Table, rest: seq<bool>)
    requires PrefixOk(clen, clclen, num) && TableFor(t, clclen)
    ensures Within(Encode12(clen, ClenList(), 0), |clclen|)
    ensures var bits := CodeBits(clclen, Encode12(clen, ClenList(), 0));
            Goal(t, bits + rest, ClenList(), |clen|) == Ok(Values(clen, |bits|))
  {
    hide *;
    PrefixFacts(clen, clclen, num);
    PrefixSends(clen, clclen, num, t);
    SymbolsRead(t, clclen, MAX_CLCLEN, clen, ClenList(), rest);
  }

  lemma PrefixSends(clen: seq<nat>, clclen: seq<nat>, num: nat, t: Table)
    requires PrefixOk(clen, clclen, num) && TableFor(t, clclen)
    ensures Sends(t, clclen, MAX_CLCLEN, TOTAL_CODES, clen, ClenList(), 0)
  {
    assert |ClenList()| == 21;
    hide ClenList, Encode12, TableFor, Fits, PrefixOk;
    PrefixFacts(clen, clclen, num);
  }

  // Symbols sent are read back.
  lemma SymbolsRead(t: Table, clen: seq<nat>, k: nat, symbols: seq<nat>, list: seq<nat>, rest: seq<bool>)
    requires Sends(t, clen, k, TOTAL_CODES, symbols, list, 0)
    ensures list != [] && (forall x :: x in symbols ==> x in list) && Within(Encode12(symbols, list, 0), |clen|)
    ensures var bits := CodeBits(clen, Encode12(symbols, list, 0));
            Goal(t, bits + rest, list, |symbols|) == Ok(Values(symbols, |bits|))
  {
    ReadsEncoded(t, clen, k, TOTAL_CODES, symbols, list, 0, rest);
    hide Read12, CodeBits, Encode12, Sends;
    assert Repeat(list[0], 0) + symbols == symbols;
  }

  lemma ListBound()
    ensures AtMost(ClenList(), MAX_CODELEN)
  {
    var list := ClenList();
    forall i | 0 <= i < |list|
      ensures list[i] <= MAX_CODELEN
    {
      assert list[i] in ClenList();
    }
  }

  // What is sent is what is needed: all but the zeros the decoder puts in by itself.
  ghost predicate Restorable(all: seq<nat>, sent: seq<nat>) {
    SkipsZeros(all, 256) && Sent(all, 256, |all|) == sent
  }

  // The values are restored, and the bits that follow are left, exactly if they can be.
  ghost predicate PrefixRead(sent: seq<nat>, all: seq<nat>, rest: seq<bool>, r: Result<seq<nat>>, left: seq<bool>, beyond: int) {
    && (r == Ok(all) && left == rest <==> Restorable(all, sent))
    && (Restorable(all, sent) ==> beyond == 0)
  }

  ghost function CodedPart(clen: seq<nat>, clclen: seq<nat>, num: nat): seq<bool>
    requires PrefixOk(clen, clclen, num)
  {
    CodeBits(clclen, Encode12(clen, ClenList(), 0))
  }

  lemma PrefixShape(clen: seq<nat>, clclen: seq<nat>, num: nat, given: seq<bool>, rest: seq<bool>)
    requires PrefixOk(clen, clclen, num) && given == PrefixBits(clen, clclen, num) + rest
    ensures |clclen| == TOTAL_CODES && EXTRA_12OFFSET <= num <= TOTAL_CODES && Within(Encode12(clen, ClenList(), 0), |clclen|)
    ensures CodedPart(clen, clclen, num) == CodeBits(clclen, Encode12(clen, ClenList(), 0))
    ensures given == HighFirst(num - EXTRA_12OFFSET, 4) + (NumberBits(clclen[..num], 4) + (CodedPart(clen, clclen, num) + rest))
    ensures |PrefixBits(clen, clclen, num)| == 4 + |NumberBits(clclen[..num], 4)| + |CodedPart(clen, clclen, num)|
  {
    hide HighFirst, NumberBits, CodeBits, Encode12, ClenList, Complete;
    JoinThree(HighFirst(num - EXTRA_12OFFSET, 4), NumberBits(clclen[..num], 4), CodedPart(clen, clclen, num), rest);
  }

  // djw_decode_clclen and djw_decode_prefix: code lengths for so many groups.
  method DecodePrefix(reader: BitReader, groups: nat, ghost sent: seq<nat>, ghost clclen: seq<nat>, ghost num: nat,
                      ghost all: seq<nat>, ghost rest: seq<bool>)
    returns (r: Result<seq<nat>>)
    requires reader.Valid()
    modifies reader
    ensures reader.Valid() && (r.Ok? ==> |r.value| == 256 * groups && AtMost(r.value, MAX_CODELEN))
    ensures PrefixOk(sent, clclen, num) && old(reader.Rest()) == PrefixBits(sent, clclen, num) + rest && |all| == 256 * groups ==>
              PrefixRead(sent, all, rest, r, reader.Rest(), reader.Used() - old(reader.Used()) - |PrefixBits(sent, clclen, num)|)
  {
    hide *;
    ghost var given, before := reader.Rest(), reader.Used();
    ghost var good := PrefixOk(sent, clclen, num) && given == PrefixBits(sent, clclen, num) + rest && |all| == 256 * groups;
    ghost var codes := if good then CodedPart(sent, clclen, num) else [];
    if good {
      PrefixShape(sent, clclen, num, given, rest);
      ReadsClclen(sent, clclen, num, given, codes + rest);
    }
    var t;
    ghost var lengths;
    t, lengths := DecodeClclen(reader);
    if t.Fail? {
      return Fail;
    }
    ghost var now, at := reader.Rest(), reader.Used();
    ListBound();
    var mtf := ListArray();
    TableShape(t.value, lengths);
    r := DecodeOneTwo(reader, t.value, mtf, 256 * groups, 256, MAX_CODELEN, all);
    ghost var c := Course(now, ClenList(), 256 * groups, 256, all, MAX_CODELEN);
    FilledBound(c, t.value, r, reader.Rest(), reader.Used() - at);
    if good {
      ReadsClen(sent, clclen, num, t.value, rest);
      PrefixIs(c, t.value, sent, codes, rest, r, reader.Rest(), reader.Used() - at);
    }
  }

  lemma FilledBound(c: Course, t: Table, r: Result<seq<nat>>, left: seq<bool>, used: int)
    requires Filled(c, t, r, left, used)
    ensures r.Ok? ==> |r.value| == c.elts && AtMost(r.value, c.bound)
  {
    hide AtMost, SkipsZeros, Spells, Course.Right;
  }

  lemma PrefixIs(c: Course, t: Table, sent: seq<nat>, codes: seq<bool>, rest: seq<bool>, r: Result<seq<nat>>, left: seq<bool>, used: int)
    requires Filled(c, t, r, left, used) && c.list != [] && c.rest == codes + rest && c.skip == 256 && |c.all| == c.elts
    requires Goal(t, codes + rest, c.list, |sent|) == Ok(Values(sent, |codes|))
    ensures PrefixRead(sent, c.all, rest, r, left, used - |codes|)
  {
    hide SkipsZeros, AtMost, Sent;
    if Restorable(c.all, sent) {
      assert c.Right(t);
      assert (codes + rest)[|codes|..] == rest;
    }
    if r == Ok(c.all) && left == rest {
      assert c.Right(t) && |left| == |c.rest| - used;
      var s := Sent(c.all, 256, c.elts);
      SameUsed(t, TOTAL_CODES, c.rest, c.list, 0, |s|, |sent|);
    }
    hide Read12;
  }

  method ListArray() returns (mtf: array<nat>)
    ensures fresh(mtf) && mtf[..] == ClenList() && mtf.Length > 0
  {
    var list := ClenList();
    mtf := new nat[21](i requires 0 <= i < 21 => list[i]);
    assert mtf[..] == list;
    hide ClenList;
  }
}
