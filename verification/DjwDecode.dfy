// Reading back what the static Huffman coder wrote (xdelta3-djw.h): symbols by the
// tables, and code lengths by move-to-front and runs.
module DjwDecode {

  import opened Bytes
  import opened BitLayer
  import opened DjwCodes
  import opened DjwMtf

  lemma {:induction false} ScanUsed(t: Table, bits: seq<bool>, maxSym: nat, code: nat, n: nat)
    ensures var r := Scan(t, bits, maxSym, code, n); r.Ok? ==> n < r.value.used <= n + |bits|
    decreases |bits|
  {
    if n != t.maxClen && bits != [] {
      ScanUsed(t, bits[1..], maxSym, 2 * code + if bits[0] then 1 else 0, n + 1);
    }
  }

  // djw_decode_symbol. The comparison with maxSym lets an offset pass that is beyond
  // the symbols; reading there is a failure here, and does not happen with the tables
  // that djw_build_decoder makes (ScanSound).
  method DecodeSymbol(reader: BitReader, t: Table, maxSym: nat) returns (r: Result<nat>)
    requires reader.Valid() && |t.base| == |t.limit| && t.maxClen < |t.base| && t.minClen >= 1
    modifies reader
    ensures reader.Valid()
    ensures var x := Scan(t, old(reader.Rest()), maxSym, 0, 0);
            if x.Ok? then r == Ok(x.value.sym) && x.value.used <= |old(reader.Rest())|
                          && reader.Rest() == old(reader.Rest())[x.value.used..] && reader.Used() == old(reader.Used()) + x.value.used
            else r.Fail?
  {
    hide BitReader.Rest, BitReader.Used, BitReader.Valid;
    ghost var rest, used := reader.Rest(), reader.Used();
    ghost var goal := Scan(t, rest, maxSym, 0, 0);
    ScanUsed(t, rest, maxSym, 0, 0);
    assert rest[0..] == rest;
    var code: nat, bits: nat := 0, 0;
    while bits != t.maxClen
      invariant bits <= t.maxClen && bits <= |rest| && reader.Valid()
      invariant reader.Rest() == rest[bits..] && reader.Used() == used + bits
      invariant goal == Scan(t, rest[bits..], maxSym, code, bits)
      decreases t.maxClen - bits
    {
      var bit := reader.NextBit();
      if bit.Fail? {
        return Fail;
      }
      bits := bits + 1;
      code := 2 * code + if bit.value then 1 else 0;
      if bits >= t.minClen && code <= t.limit[bits] {
        if t.base[bits] <= code {
          var offset := code - t.base[bits];
          if offset <= maxSym && offset < |t.inorder| {
            return Ok(t.inorder[offset]);
          }
        }
        return Fail;
      }
    }
    r := Fail;
  }

  // ---------- djw_decode_1_2 ----------

  datatype Values = Values(values: seq<nat>, used: nat)

  function Follow(values: seq<nat>, used: nat, r: Result<Values>): Result<Values> {
    match r
    case Ok(x) => Ok(Values(values + x.values, used + x.used))
    case Fail => Fail
  }

  // Runs repeat the first of the list, other codes move an entry to the front.
  function Read12(t: Table, maxSym: nat, bits: seq<bool>, list: seq<nat>, s: nat, n: nat): Result<Values>
    requires list != []
    decreases |bits|
  {
    if n == 0 then Ok(Values([], 0))
    else
      var x := Scan(t, bits, maxSym, 0, 0);
      if x.Fail? then Fail
      else
        ScanUsed(t, bits, maxSym, 0, 0);
        var rest := bits[x.value.used..];
        if x.value.sym <= 1 then
          var rep := Times(x.value.sym + 1, Power2(s));
          if rep > n then Fail
          else Follow(Repeat(list[0], rep), x.value.used, Read12(t, maxSym, rest, list, s + 1, n - rep))
        else if x.value.sym - 1 >= |list| then Fail
        else
          Follow([list[x.value.sym - 1]], x.value.used,
                 Read12(t, maxSym, rest, ToFront(list, x.value.sym - 1), 0, n - 1))
  }

  predicate Within(codes: seq<nat>, m: nat) {
    forall i :: 0 <= i < |codes| ==> codes[i] < m
  }

  // The bits of codes one after another.
  function CodeBits(clen: seq<nat>, codes: seq<nat>): seq<bool>
    requires Within(codes, |clen|)
  {
    if codes == [] then [] else HighFirst(Code(clen, codes[0]), clen[codes[0]]) + CodeBits(clen, codes[1..])
  }

  lemma {:induction false} CodeBitsJoin(clen: seq<nat>, a: seq<nat>, b: seq<nat>)
    requires Within(a, |clen|) && Within(b, |clen|)
    ensures Within(a + b, |clen|) && CodeBits(clen, a + b) == CodeBits(clen, a) + CodeBits(clen, b)
  {
    hide Code, HighFirst;
    if a == [] {
      assert a + b == b;
    } else {
      assert (a + b)[1..] == a[1..] + b && (a + b)[0] == a[0];
      CodeBitsJoin(clen, a[1..], b);
      Associate(HighFirst(Code(clen, a[0]), clen[a[0]]), CodeBits(clen, a[1..]), CodeBits(clen, b));
    }
  }

  // A code table, and lengths with a code for each of the codes used.
  ghost predicate Coding(t: Table, clen: seq<nat>, k: nat, maxSym: nat, codes: seq<nat>) {
    && TableFor(t, clen) && Fits(clen, k) && |clen| <= maxSym && Within(codes, |clen|)
    && forall i {:trigger codes[i]} :: 0 <= i < |codes| ==> clen[codes[i]] > 0
  }

  lemma FollowTwice(a: seq<nat>, m: nat, b: seq<nat>, n: nat, r: Result<Values>)
    ensures Follow(a, m, Follow(b, n, r)) == Follow(a + b, m + n, r)
  {
    if r.Ok? {
      assert a + (b + r.value.values) == a + b + r.value.values;
    }
  }

  // One code read.
  lemma ReadOne(t: Table, clen: seq<nat>, k: nat, maxSym: nat, c: nat, rest: seq<bool>, list: seq<nat>, s: nat, n: nat)
    requires c < |clen| && Coding(t, clen, k, maxSym, [c]) && list != [] && n > 0
    ensures var bits := HighFirst(Code(clen, c), clen[c]);
            Read12(t, maxSym, bits + rest, list, s, n)
            == if c <= 1 then
                 var rep := Times(c + 1, Power2(s));
                 if rep > n then Fail
                 else Follow(Repeat(list[0], rep), |bits|, Read12(t, maxSym, rest, list, s + 1, n - rep))
               else if c - 1 >= |list| then Fail
               else Follow([list[c - 1]], |bits|, Read12(t, maxSym, rest, ToFront(list, c - 1), 0, n - 1))
  {
    assert [c][0] == c;
    var bits := HighFirst(Code(clen, c), clen[c]);
    DecodesCode(t, clen, c, rest, maxSym, k);
    assert (bits + rest)[|bits|..] == rest;
    hide Scan, Code, HighFirst, TableFor, Fits;
  }

  // A run read: that many times the weight of its first digit.
  lemma {:induction false} RunReads(t: Table, clen: seq<nat>, k: nat, maxSym: nat, run: nat, rest: seq<bool>, list: seq<nat>, s: nat, n: nat)
    returns (s': nat)
    requires Coding(t, clen, k, maxSym, RunCode(run)) && list != [] && Times(run, Power2(s)) <= n
    ensures Read12(t, maxSym, CodeBits(clen, RunCode(run)) + rest, list, s, n)
            == Follow(Repeat(list[0], Times(run, Power2(s))), |CodeBits(clen, RunCode(run))|,
                      Read12(t, maxSym, rest, list, s', n - Times(run, Power2(s))))
    decreases run
  {
    hide RunCode, Code, HighFirst, Coding, Read12, CodeBits, Power2, Follow, Repeat, Times;
    if run == 0 {
      s' := s;
      RunNone(t, clen, maxSym, rest, list, s, n);
    } else {
      var c, run' := (run - 1) % 2, (run - 1) / 2;
      RunFront(t, clen, k, maxSym, run);
      RunWeight(run, s);
      var bits, more := HighFirst(Code(clen, c), clen[c]), CodeBits(clen, RunCode(run'));
      var one, all := Times(c + 1, Power2(s)), Times(run, Power2(s));
      var two := Times(run', Power2(s + 1));
      ReadOne(t, clen, k, maxSym, c, more + rest, list, s, n);
      s' := RunReads(t, clen, k, maxSym, run', rest, list, s + 1, n - one);
      FollowTwice(Repeat(list[0], one), |bits|, Repeat(list[0], two), |more|, Read12(t, maxSym, rest, list, s', n - all));
      assert Repeat(list[0], one) + Repeat(list[0], two) == Repeat(list[0], all);
      assert bits + more + rest == bits + (more + rest);
    }
  }

  lemma RunNone(t: Table, clen: seq<nat>, maxSym: nat, rest: seq<bool>, list: seq<nat>, s: nat, n: nat)
    requires list != []
    ensures RunCode(0) == [] && Times(0, Power2(s)) == 0
    ensures Read12(t, maxSym, CodeBits(clen, RunCode(0)) + rest, list, s, n)
            == Follow(Repeat(list[0], 0), |CodeBits(clen, RunCode(0))|, Read12(t, maxSym, rest, list, s, n - 0))
  {
    assert CodeBits(clen, []) + rest == rest;
    FollowNone(Repeat(list[0], 0), Read12(t, maxSym, rest, list, s, n));
    hide Read12;
  }

  lemma RunFront(t: Table, clen: seq<nat>, k: nat, maxSym: nat, run: nat)
    requires Coding(t, clen, k, maxSym, RunCode(run)) && run > 0
    ensures var c, codes := (run - 1) % 2, RunCode((run - 1) / 2);
            && c < |clen| && Coding(t, clen, k, maxSym, [c]) && Coding(t, clen, k, maxSym, codes)
            && CodeBits(clen, RunCode(run)) == HighFirst(Code(clen, c), clen[c]) + CodeBits(clen, codes)
  {
    var codes := RunCode(run);
    assert codes[0] == (run - 1) % 2 && codes[1..] == RunCode((run - 1) / 2);
    CodingTail(t, clen, k, maxSym, codes);
  }

  lemma FollowNone(values: seq<nat>, r: Result<Values>)
    requires values == []
    ensures Follow(values, 0, r) == r
  {
    if r.Ok? {
      assert [] + r.value.values == r.value.values;
    }
  }

  lemma RunWeight(run: nat, s: nat)
    requires run > 0
    ensures Times(run, Power2(s)) == Times((run - 1) % 2 + 1, Power2(s)) + Times((run - 1) / 2, Power2(s + 1))
    ensures Times((run - 1) % 2 + 1, Power2(s)) > 0
  {
    var c, r, p := (run - 1) % 2, (run - 1) / 2, Power2(s);
    assert run == c + 1 + 2 * r && Power2(s + 1) == 2 * p;
    Weights(c + 1, r, p);
    assert (c + 1) * p >= p;
  }

  lemma Weights(a: nat, r: nat, p: nat)
    ensures (a + 2 * r) * p == a * p + r * (2 * p)
  {
  }

  lemma CodingTail(t: Table, clen: seq<nat>, k: nat, maxSym: nat, codes: seq<nat>)
    requires Coding(t, clen, k, maxSym, codes) && codes != []
    ensures Coding(t, clen, k, maxSym, [codes[0]]) && Coding(t, clen, k, maxSym, codes[1..])
    ensures codes[0] < |clen| && clen[codes[0]] > 0
  {
  }

  // The codes of the symbols can be sent.
  ghost predicate Sends(t: Table, clen: seq<nat>, k: nat, maxSym: nat, symbols: seq<nat>, list: seq<nat>, run: nat) {
    && list != [] && (forall x :: x in symbols ==> x in list)
    && Coding(t, clen, k, maxSym, Encode12(symbols, list, run))
  }

  // What a symbol that is not a repeat adds to the codes.
  lemma MoveFront(t: Table, clen: seq<nat>, k: nat, maxSym: nat, symbols: seq<nat>, list: seq<nat>, run: nat)
    requires symbols != [] && Sends(t, clen, k, maxSym, symbols, list, run) && Find(list, symbols[0]) > 0
    ensures list != [] && symbols[0] in list && |list| == |ToFront(list, Find(list, symbols[0]))|
    ensures (forall x :: x in symbols ==> x in list) && Within(Encode12(symbols, list, run), |clen|)
    ensures Sends(t, clen, k, maxSym, symbols[1..], ToFront(list, Find(list, symbols[0])), 0)
    ensures var j := Find(list, symbols[0]); var more := Encode12(symbols[1..], ToFront(list, j), 0);
            && j + 1 < |clen| && Coding(t, clen, k, maxSym, RunCode(run)) && Coding(t, clen, k, maxSym, [j + 1])
            && Coding(t, clen, k, maxSym, more) && Within(RunCode(run), |clen|) && Within(more, |clen|)
            && CodeBits(clen, Encode12(symbols, list, run))
               == CodeBits(clen, RunCode(run)) + (HighFirst(Code(clen, j + 1), clen[j + 1]) + CodeBits(clen, more))
  {
    hide CodeBits, Find, First, Fits, HighFirst, RunCode, TableFor, ToFront;
    var j := Find(list, symbols[0]);
    var a, b, c := RunCode(run), [j + 1], Encode12(symbols[1..], ToFront(list, j), 0);
    assert Encode12(symbols, list, run) == a + b + c;
    hide Encode12, Code;
    CodingParts(t, clen, k, maxSym, a + b, c);
    CodingParts(t, clen, k, maxSym, a, b);
    CodeBitsJoin(clen, a + b, c);
    CodeBitsJoin(clen, a, b);
    assert b[0] == j + 1;
    OneCode(clen, j + 1);
    Associate(CodeBits(clen, a), CodeBits(clen, b), CodeBits(clen, c));
  }

  lemma Associate(a: seq<bool>, b: seq<bool>, c: seq<bool>)
    ensures a + b + c == a + (b + c)
  {
  }

  lemma OneCode(clen: seq<nat>, c: nat)
    requires c < |clen|
    ensures Within([c], |clen|) && CodeBits(clen, [c]) == HighFirst(Code(clen, c), clen[c])
  {
  }

  lemma CodingParts(t: Table, clen: seq<nat>, k: nat, maxSym: nat, a: seq<nat>, b: seq<nat>)
    requires Coding(t, clen, k, maxSym, a + b)
    ensures Coding(t, clen, k, maxSym, a) && Coding(t, clen, k, maxSym, b)
  {
    var all := a + b;
    forall i | 0 <= i < |a|
      ensures a[i] < |clen| && clen[a[i]] > 0
    {
      assert all[i] == a[i];
    }
    forall i | 0 <= i < |b|
      ensures b[i] < |clen| && clen[b[i]] > 0
    {
      assert all[|a| + i] == b[i];
    }
  }

  // Read back they give the symbols, with nothing pending.
  ghost predicate Restores(t: Table, clen: seq<nat>, maxSym: nat, symbols: seq<nat>, list: seq<nat>, run: nat, rest: seq<bool>) {
    && list != [] && (forall x :: x in symbols ==> x in list) && Within(Encode12(symbols, list, run), |clen|)
    && var bits := CodeBits(clen, Encode12(symbols, list, run));
       Read12(t, maxSym, bits + rest, list, 0, run + |symbols|) == Ok(Values(Repeat(list[0], run) + symbols, |bits|))
  }

  lemma {:induction false} ReadsEncoded(t: Table, clen: seq<nat>, k: nat, maxSym: nat, symbols: seq<nat>, list: seq<nat>, run: nat, rest: seq<bool>)
    requires Sends(t, clen, k, maxSym, symbols, list, run)
    ensures Restores(t, clen, maxSym, symbols, list, run, rest)
    decreases |symbols|
  {
    hide RunCode, Code, HighFirst, Coding, Read12, CodeBits, ToFront, Encode12, Find, Repeat;
    if symbols == [] {
      ReadsEnd(t, clen, k, maxSym, list, run, rest);
    } else {
      var j := Find(list, symbols[0]);
      if j == 0 {
        ReadsRepeat(symbols, list, run);
        ReadsEncoded(t, clen, k, maxSym, symbols[1..], list, run + 1, rest);
      } else {
        MoveFront(t, clen, k, maxSym, symbols, list, run);
        ReadsEncoded(t, clen, k, maxSym, symbols[1..], ToFront(list, j), 0, rest);
        ReadsMove(t, clen, k, maxSym, symbols, list, run, rest);
      }
    }
  }

  lemma ReadsEnd(t: Table, clen: seq<nat>, k: nat, maxSym: nat, list: seq<nat>, run: nat, rest: seq<bool>)
    requires Sends(t, clen, k, maxSym, [], list, run)
    ensures Restores(t, clen, maxSym, [], list, run, rest)
  {
    assert Encode12([], list, run) == RunCode(run);
    TimesOne(run);
    hide Times, CodeBits, Encode12, RunCode;
    var s := RunReads(t, clen, k, maxSym, run, rest, list, 0, run);
    assert Read12(t, maxSym, rest, list, s, 0) == Ok(Values([], 0));
  }

  lemma TimesOne(run: nat)
    ensures Times(run, Power2(0)) == run
  {
    assert Power2(0) == 1;
  }

  lemma ReadsRepeat(symbols: seq<nat>, list: seq<nat>, run: nat)
    requires list != [] && symbols != [] && (forall x :: x in symbols ==> x in list) && Find(list, symbols[0]) == 0
    ensures Encode12(symbols, list, run) == Encode12(symbols[1..], list, run + 1)
    ensures Repeat(list[0], run) + symbols == Repeat(list[0], run + 1) + symbols[1..]
    ensures run + |symbols| == run + 1 + |symbols[1..]|
  {
    assert symbols == [symbols[0]] + symbols[1..];
    assert Repeat(list[0], run + 1) == Repeat(list[0], run) + [list[0]];
  }

  lemma ReadsMove(t: Table, clen: seq<nat>, k: nat, maxSym: nat, symbols: seq<nat>, list: seq<nat>, run: nat, rest: seq<bool>)
    requires Sends(t, clen, k, maxSym, symbols, list, run) && symbols != [] && Find(list, symbols[0]) > 0
    requires Restores(t, clen, maxSym, symbols[1..], ToFront(list, Find(list, symbols[0])), 0, rest)
    ensures Restores(t, clen, maxSym, symbols, list, run, rest)
  {
    hide RunCode, Code, HighFirst, Coding, Read12, CodeBits, ToFront, Encode12, Times, Find, Follow, Repeat, Sends, Within;
    MoveFront(t, clen, k, maxSym, symbols, list, run);
    var j := Find(list, symbols[0]);
    var list' := ToFront(list, j);
    var a, b, c := CodeBits(clen, RunCode(run)), HighFirst(Code(clen, j + 1), clen[j + 1]),
                   CodeBits(clen, Encode12(symbols[1..], list', 0));
    var s := FirstRun(t, clen, k, maxSym, run, b + (c + rest), list, run + |symbols|);
    ReadOne(t, clen, k, maxSym, j + 1, c + rest, list, s, |symbols|);
    JoinThree(a, b, c, rest);
    MovedValues(list, symbols, run, list', |a|, |b|, |c|);
  }

  lemma FirstRun(t: Table, clen: seq<nat>, k: nat, maxSym: nat, run: nat, rest: seq<bool>, list: seq<nat>, n: nat) returns (s': nat)
    requires Coding(t, clen, k, maxSym, RunCode(run)) && list != [] && run <= n
    ensures Read12(t, maxSym, CodeBits(clen, RunCode(run)) + rest, list, 0, n)
            == Follow(Repeat(list[0], run), |CodeBits(clen, RunCode(run))|, Read12(t, maxSym, rest, list, s', n - run))
  {
    TimesOne(run);
    hide *;
    s' := RunReads(t, clen, k, maxSym, run, rest, list, 0, n);
  }

  lemma JoinThree(a: seq<bool>, b: seq<bool>, c: seq<bool>, rest: seq<bool>)
    ensures a + (b + c) + rest == a + (b + (c + rest))
  {
  }

  lemma MovedValues(list: seq<nat>, symbols: seq<nat>, run: nat, list': seq<nat>, a: nat, b: nat, c: nat)
    requires list != [] && list' != [] && symbols != []
    ensures Follow(Repeat(list[0], run), a, Follow([symbols[0]], b, Ok(Values(Repeat(list'[0], 0) + symbols[1..], c))))
            == Ok(Values(Repeat(list[0], run) + symbols, a + (b + c)))
  {
    assert Repeat(list'[0], 0) + symbols[1..] == symbols[1..];
    assert [symbols[0]] + symbols[1..] == symbols;
  }

  // What is still to come: repeats of the first of the list, or an entry to move.
  ghost predicate Progress(goal: Result<Values>, t: Table, rest: seq<bool>, list: seq<nat>, s: nat, rep: nat, mtf: nat,
                           values: seq<nat>, used: nat, elts: nat) {
    && |values| <= elts && list != [] && (rep > 0 ==> mtf == 0) && (mtf > 0 ==> mtf < |list| && |values| < elts)
    && if rep > elts - |values| then goal.Fail?
       else if mtf > 0 then
         goal == Follow(values + [list[mtf]], used,
                        Read12(t, TOTAL_CODES, rest, ToFront(list, mtf), s, elts - |values| - 1))
       else
         goal == Follow(values + Repeat(list[0], rep), used,
                        Read12(t, TOTAL_CODES, rest, list, s, elts - |values| - rep))
  }

  lemma ProgressRepeat(goal: Result<Values>, t: Table, rest: seq<bool>, list: seq<nat>, s: nat, rep: nat,
                       values: seq<nat>, used: nat, elts: nat)
    requires Progress(goal, t, rest, list, s, rep, 0, values, used, elts) && rep > 0 && |values| < elts
    ensures Progress(goal, t, rest, list, s, rep - 1, 0, values + [list[0]], used, elts)
  {
    assert values + Repeat(list[0], rep) == values + [list[0]] + Repeat(list[0], rep - 1);
    hide Read12, ToFront;
  }

  lemma ProgressMove(goal: Result<Values>, t: Table, rest: seq<bool>, list: seq<nat>, s: nat, mtf: nat,
                     values: seq<nat>, used: nat, elts: nat)
    requires Progress(goal, t, rest, list, s, 0, mtf, values, used, elts) && mtf > 0
    ensures mtf < |list| && Progress(goal, t, rest, ToFront(list, mtf), s, 0, 0, values + [list[mtf]], used, elts)
  {
    assert values + [list[mtf]] + Repeat(ToFront(list, mtf)[0], 0) == values + [list[mtf]];
    hide Read12;
  }

  lemma ProgressRead(goal: Result<Values>, t: Table, rest: seq<bool>, list: seq<nat>, s: nat, values: seq<nat>, used: nat, elts: nat)
    requires Progress(goal, t, rest, list, s, 0, 0, values, used, elts) && |values| < elts
    ensures var x := Scan(t, rest, TOTAL_CODES, 0, 0);
            if x.Fail? then goal.Fail?
            else
              && x.value.used <= |rest|
              && if x.value.sym <= 1 then
                   Progress(goal, t, rest[x.value.used..], list, s + 1, Times(x.value.sym + 1, Power2(s)), 0, values,
                            used + x.value.used, elts)
                 else if x.value.sym - 1 >= |list| then goal.Fail?
                 else Progress(goal, t, rest[x.value.used..], list, 0, 0, x.value.sym - 1, values, used + x.value.used, elts)
  {
    hide Repeat, Scan, Times, ToFront;
    var x := Scan(t, rest, TOTAL_CODES, 0, 0);
    ScanUsed(t, rest, TOTAL_CODES, 0, 0);
    assert values + Repeat(list[0], 0) == values;
    if x.Ok? {
      var rest', n := rest[x.value.used..], elts - |values|;
      if x.value.sym <= 1 {
        var rep := Times(x.value.sym + 1, Power2(s));
        if rep <= n {
          FollowTwice(values, used, Repeat(list[0], rep), x.value.used, Read12(t, TOTAL_CODES, rest', list, s + 1, n - rep));
        }
      } else if x.value.sym - 1 < |list| {
        var m := x.value.sym - 1;
        FollowTwice(values, used, [list[m]], x.value.used, Read12(t, TOTAL_CODES, rest', ToFront(list, m), 0, n - 1));
      }
    }
  }

  lemma ProgressEnd(goal: Result<Values>, t: Table, rest: seq<bool>, list: seq<nat>, s: nat, rep: nat, mtf: nat,
                    values: seq<nat>, used: nat, elts: nat)
    requires Progress(goal, t, rest, list, s, rep, mtf, values, used, elts) && |values| == elts
    ensures mtf == 0 && if rep > 0 then goal.Fail? else goal == Ok(Values(values, used))
  {
    if rep == 0 {
      assert Read12(t, TOTAL_CODES, rest, list, s, 0) == Ok(Values([], 0));
      assert values + Repeat(list[0], 0) + [] == values;
    }
  }

  lemma ProgressEnds(goal: Result<Values>, t: Table, rest: seq<bool>, list: seq<nat>, s: nat, rep: nat, mtf: nat,
                     values: seq<nat>, used: nat, elts: nat)
    requires Progress(goal, t, rest, list, s, rep, mtf, values, used, elts) && |values| == elts
    ensures mtf == 0 && if rep > 0 then goal.Fail? else goal == Ok(Values(values, used))
  {
    hide *;
    ProgressFacts(goal, t, rest, list, s, rep, mtf, values, used, elts);
    ProgressEnd(goal, t, rest, list, s, rep, mtf, values, used, elts);
  }

  // What the next code says: to repeat, or what to move.
  ghost predicate Said(t: Table, rest: seq<bool>, count: nat, s0: nat, ok: bool, rep: nat, mtf: nat, s: nat, taken: nat) {
    var x := Scan(t, rest, TOTAL_CODES, 0, 0);
    if ok then
      && x.Ok? && taken == x.value.used
      && if x.value.sym <= 1 then rep == Times(x.value.sym + 1, Power2(s0)) && mtf == 0 && s == s0 + 1
         else rep == 0 && mtf == x.value.sym - 1 < count && s == 0
    else x.Fail? || (x.value.sym > 1 && x.value.sym - 1 >= count)
  }

  // The next code: a digit of a run, or a place in the list.
  method ReadCode(reader: BitReader, t: Table, s0: nat, count: nat) returns (ok: bool, rep: nat, mtf: nat, s: nat, ghost taken: nat)
    requires reader.Valid() && |t.base| == |t.limit| && t.maxClen < |t.base| && t.minClen >= 1
    modifies reader
    ensures reader.Valid() && Said(t, old(reader.Rest()), count, s0, ok, rep, mtf, s, taken)
    ensures ok ==> 0 < taken <= |old(reader.Rest())| && reader.Rest() == old(reader.Rest())[taken..]
                   && reader.Used() == old(reader.Used()) + taken
  {
    ghost var rest := reader.Rest();
    ScanUsed(t, rest, TOTAL_CODES, 0, 0);
    ghost var x := Scan(t, rest, TOTAL_CODES, 0, 0);
    hide Scan, BitReader.Valid, BitReader.Rest, BitReader.Used, Power2, Times;
    ok, rep, mtf, s, taken := true, 0, 0, 0, 0;
    var got := DecodeSymbol(reader, t, TOTAL_CODES);
    if got.Fail? {
      ok := false;
      return;
    }
    taken := x.value.used;
    if got.value <= 1 {
      rep := Times(got.value + 1, Power2(s0));
      s := s0 + 1;
    } else if got.value - 1 >= count {
      ok := false;
    } else {
      mtf := got.value - 1;
    }
  }

  lemma ProgressSaid(goal: Result<Values>, t: Table, rest: seq<bool>, list: seq<nat>, s0: nat, values: seq<nat>, used: nat, elts: nat,
                     ok: bool, rep: nat, mtf: nat, s: nat, taken: nat)
    requires Progress(goal, t, rest, list, s0, 0, 0, values, used, elts) && |values| < elts
    requires Said(t, rest, |list|, s0, ok, rep, mtf, s, taken)
    ensures if ok then taken <= |rest| && Progress(goal, t, rest[taken..], list, s, rep, mtf, values, used + taken, elts) else goal.Fail?
  {
    hide Progress, Scan, Power2, Times;
    ProgressRead(goal, t, rest, list, s0, values, used, elts);
  }

  ghost predicate AtMost(values: seq<nat>, bound: nat) {
    forall i :: 0 <= i < |values| ==> values[i] <= bound
  }

  // A place whose value is known to be zero, as the one skip places before it is.
  predicate Skipped(all: seq<nat>, skip: nat, i: nat)
    requires i <= |all|
  {
    skip != 0 && i >= skip && all[i - skip] == 0
  }

  // The first n values but those that are skipped.
  function Sent(all: seq<nat>, skip: nat, n: nat): seq<nat>
    requires n <= |all|
  {
    if n == 0 then [] else Sent(all, skip, n - 1) + if Skipped(all, skip, n - 1) then [] else [all[n - 1]]
  }

  ghost predicate SkipsZeros(all: seq<nat>, skip: nat) {
    forall i {:trigger Skipped(all, skip, i)} :: 0 <= i < |all| && Skipped(all, skip, i) ==> all[i] == 0
  }

  ghost function Goal(t: Table, rest: seq<bool>, list: seq<nat>, n: nat): Result<Values>
    requires list != []
  {
    Read12(t, TOTAL_CODES, rest, list, 0, n)
  }

  // The codes begin with those of the values.
  ghost predicate Spells(t: Table, rest: seq<bool>, list: seq<nat>, values: seq<nat>)
    requires list != []
  {
    var goal := Goal(t, rest, list, |values|);
    goal.Ok? && goal.value.values == values
  }

  // djw_decode_1_2.
  method DecodeOneTwo(reader: BitReader, t: Table, mtfvals: array<nat>, elts: nat, skip: nat, ghost bound: nat, ghost all: seq<nat>)
    returns (r: Result<seq<nat>>)
    requires reader.Valid() && |t.base| == |t.limit| && t.maxClen < |t.base| && t.minClen >= 1 && mtfvals.Length > 0
    requires AtMost(mtfvals[..], bound)
    modifies reader, mtfvals
    ensures reader.Valid()
    ensures Filled(Course(old(reader.Rest()), old(mtfvals[..]), elts, skip, all, bound), t, r, reader.Rest(),
                   reader.Used() - old(reader.Used()))
  {
    ghost var rest, before := reader.Rest(), reader.Used();
    ghost var c := Course(rest, mtfvals[..], elts, skip, all, bound);
    ghost var used: nat, sent: seq<nat>, low: nat := 0, [], 0;
    hide *;
    AlongStart(c, t);
    PassedNone(c, before);
    var values: seq<nat> := [];
    var rep: nat, mtf: nat, s: nat := 0, 0, 0;
    while |values| < elts
      invariant reader.Valid() && Passed(c, before, reader.Rest(), reader.Used(), used)
      invariant Along(c, t, reader.Rest(), mtfvals[..], s, rep, mtf, values, sent, used, low)
      decreases elts - |values|, |reader.Rest()|
    {
      AlongFacts(c, t, reader.Rest(), mtfvals[..], s, rep, mtf, values, sent, used, low);
      if rep == 0 && mtf == 0 && !(skip != 0 && |values| >= skip && values[|values| - skip] == 0) {
        var ok;
        ok, rep, mtf, s, used, low := TakeCode(reader, t, s, mtfvals.Length, c, mtfvals[..], values, sent, used, low, before);
        if !ok {
          FilledNot(c, t, reader.Rest(), reader.Used() - before);
          return Fail;
        }
      } else {
        values, rep, mtf, sent := NextValue(mtfvals, skip, values, rep, mtf, s, c, t, reader.Rest(), sent, used, low);
      }
    }
    AlongFacts(c, t, reader.Rest(), mtfvals[..], s, rep, mtf, values, sent, used, low);
    AlongEnd(c, t, reader.Rest(), mtfvals[..], s, rep, mtf, values, sent, used, low);
    if rep != 0 {
      FilledNot(c, t, reader.Rest(), reader.Used() - before);
      return Fail;
    }
    r := Ok(values);
    FilledAll(c, t, values, sent, reader.Rest(), reader.Used(), before, used);
  }

  // A code, when nothing is left of the one before.
  method TakeCode(reader: BitReader, t: Table, s0: nat, count: nat, ghost c: Course, ghost list: seq<nat>, ghost values: seq<nat>,
                  ghost sent: seq<nat>, ghost used0: nat, ghost low0: nat, ghost before: int)
    returns (ok: bool, rep: nat, mtf: nat, s: nat, ghost used: nat, ghost low: nat)
    requires reader.Valid() && |t.base| == |t.limit| && t.maxClen < |t.base| && t.minClen >= 1 && |list| == count
    requires Passed(c, before, reader.Rest(), reader.Used(), used0) && |values| < c.elts
    requires Along(c, t, reader.Rest(), list, s0, 0, 0, values, sent, used0, low0)
    requires !(c.skip != 0 && |values| >= c.skip && values[|values| - c.skip] == 0)
    modifies reader
    ensures reader.Valid()
    ensures ok ==>
              && Passed(c, before, reader.Rest(), reader.Used(), used) && |reader.Rest()| < |old(reader.Rest())|
              && Along(c, t, reader.Rest(), list, s, rep, mtf, values, sent, used, low)
    ensures !ok ==> c.list != [] && !c.Right(t)
  {
    hide *;
    ghost var now, at := reader.Rest(), reader.Used();
    ghost var taken;
    ok, rep, mtf, s, taken := ReadCode(reader, t, s0, count);
    AlongRead(c, t, now, list, s0, values, sent, used0, low0, ok, rep, mtf, s, taken);
    if ok {
      Further(c, before, now, at, used0, taken);
    } else {
      AlongFails(c, t, values, sent);
    }
    used, low := used0 + taken, |sent| + 1;
  }

  // A value that needs no code: a zero, the first of the list again, or the one moved.
  method NextValue(mtfvals: array<nat>, skip: nat, values0: seq<nat>, rep0: nat, mtf0: nat, ghost s: nat, ghost c: Course,
                   ghost t: Table, ghost rest: seq<bool>, ghost sent0: seq<nat>, ghost used: nat, ghost low: nat)
    returns (values: seq<nat>, rep: nat, mtf: nat, ghost sent: seq<nat>)
    requires Along(c, t, rest, mtfvals[..], s, rep0, mtf0, values0, sent0, used, low) && |values0| < c.elts && c.skip == skip
    requires rep0 != 0 || mtf0 != 0 || (skip != 0 && |values0| >= skip && values0[|values0| - skip] == 0)
    modifies mtfvals
    ensures |values| == |values0| + 1 && Along(c, t, rest, mtfvals[..], s, rep, mtf, values, sent, used, low)
  {
    hide *;
    AlongFacts(c, t, rest, mtfvals[..], s, rep0, mtf0, values0, sent0, used, low);
    rep, mtf, sent := rep0, mtf0, sent0;
    if skip != 0 && |values0| >= skip && values0[|values0| - skip] == 0 {
      AlongSkip(c, t, rest, mtfvals[..], s, rep0, mtf0, values0, sent0, used, low);
      values := values0 + [0];
    } else if rep0 != 0 {
      AlongRepeat(c, t, rest, mtfvals[..], s, rep0, values0, sent0, used, low);
      sent := sent0 + [mtfvals[0]];
      values := values0 + [mtfvals[0]];
      rep := rep0 - 1;
    } else {
      AlongMove(c, t, rest, mtfvals[..], s, mtf0, values0, sent0, used, low);
      sent := sent0 + [mtfvals[mtf0]];
      var sym := UpdateMtf(mtfvals, mtf0);
      values := values0 + [sym];
      mtf := 0;
    }
  }

  // What the decoder makes of the codes: the values they give, put in the places that
  // are not skipped, with zeros in the others; and the values wanted, if they are such.
  ghost predicate Filled(c: Course, t: Table, r: Result<seq<nat>>, left: seq<bool>, used: int) {
    && c.list != []
    && (r.Ok? ==> |r.value| == c.elts && AtMost(r.value, c.bound) && SkipsZeros(r.value, c.skip)
                  && Spells(t, c.rest, c.list, Sent(r.value, c.skip, c.elts)))
    && (c.Right(t) ==>
          && r == Ok(c.all) && used == Goal(t, c.rest, c.list, c.Wants()).value.used <= |c.rest| && left == c.rest[used..])
  }

  lemma FilledNot(c: Course, t: Table, left: seq<bool>, used: int)
    requires c.list != [] && !c.Right(t)
    ensures Filled(c, t, Fail, left, used)
  {
    hide Course.Right;
  }

  lemma FilledAll(c: Course, t: Table, values: seq<nat>, sent: seq<nat>, left: seq<bool>, usedNow: int, before: int, used: nat)
    requires Passed(c, before, left, usedNow, used) && c.list != [] && |values| == c.elts && AtMost(values, c.bound) && SkipsZeros(values, c.skip)
    requires Spells(t, c.rest, c.list, Sent(values, c.skip, c.elts))
    requires c.Right(t) ==> values == c.all && Goal(t, c.rest, c.list, c.Wants()) == Ok(Values(sent, used))
    ensures Filled(c, t, Ok(values), left, usedNow - before)
  {
    hide AtMost, SkipsZeros, Spells, Goal, Course.Wants;
  }

  // So many bits are taken.
  ghost predicate Passed(c: Course, before: int, left: seq<bool>, usedNow: int, used: nat) {
    used <= |c.rest| && left == c.rest[used..] && usedNow == before + used
  }

  lemma PassedNone(c: Course, before: int)
    ensures Passed(c, before, c.rest, before, 0)
  {
  }

  lemma Further(c: Course, before: int, left: seq<bool>, usedNow: int, used: nat, taken: nat)
    requires Passed(c, before, left, usedNow, used) && taken <= |left|
    ensures Passed(c, before, left[taken..], usedNow + taken, used + taken)
  {
  }

  // What the decoder starts from, and the values wanted.
  datatype Course = Course(rest: seq<bool>, list: seq<nat>, elts: nat, skip: nat, all: seq<nat>, bound: nat) {

    // They are what the codes give.
    ghost predicate Right(t: Table) {
      list != [] && |all| == elts && SkipsZeros(all, skip) && Spells(t, rest, list, Sent(all, skip, elts))
    }

    function Wants(): nat {
      if |all| == elts then |Sent(all, skip, elts)| else 0
    }
  }

  // What was sent is what the codes give, however many are asked for, from low on.
  ghost predicate Follows(c: Course, t: Table, rest: seq<bool>, list: seq<nat>, s: nat, rep: nat, mtf: nat, sent: seq<nat>,
                          used: nat, low: nat) {
    && c.list != []
    && (forall n: nat {:trigger Goal(t, c.rest, c.list, n)} :: n >= low && n >= |sent| ==>
          Progress(Goal(t, c.rest, c.list, n), t, rest, list, s, rep, mtf, sent, used, n))
    && (rep == 0 ==> Spells(t, c.rest, c.list, sent))
    && low <= |sent| + 1 && (rep == 0 && mtf == 0 ==> low <= |sent|)
  }

  // Values are sent or skipped.
  ghost predicate Placed(c: Course, values: seq<nat>, sent: seq<nat>) {
    |values| <= c.elts && SkipsZeros(values, c.skip) && sent == Sent(values, c.skip, |values|)
  }

  ghost predicate Along(c: Course, t: Table, rest: seq<bool>, list: seq<nat>, s: nat, rep: nat, mtf: nat, values: seq<nat>,
                        sent: seq<nat>, used: nat, low: nat) {
    && list != [] && (rep > 0 ==> mtf == 0) && mtf < |list| && AtMost(list, c.bound) && AtMost(values, c.bound)
    && Placed(c, values, sent) && Follows(c, t, rest, list, s, rep, mtf, sent, used, low)
    && (c.Right(t) ==> values == c.all[..|values|] && low <= c.Wants())
  }

  lemma AlongStart(c: Course, t: Table)
    requires c.list != [] && AtMost(c.list, c.bound)
    ensures Along(c, t, c.rest, c.list, 0, 0, 0, [], [], 0, 0)
  {
    assert c.rest[0..] == c.rest;
    forall n: nat
      ensures Progress(Goal(t, c.rest, c.list, n), t, c.rest, c.list, 0, 0, 0, [], 0, n)
    {
      ProgressNone(Goal(t, c.rest, c.list, n), t, c.rest, c.list, n);
    }
    hide Progress;
  }

  lemma AlongFacts(c: Course, t: Table, rest: seq<bool>, list: seq<nat>, s: nat, rep: nat, mtf: nat, values: seq<nat>,
                   sent: seq<nat>, used: nat, low: nat)
    requires Along(c, t, rest, list, s, rep, mtf, values, sent, used, low)
    ensures list != [] && |values| <= c.elts && (rep > 0 ==> mtf == 0) && mtf < |list| && AtMost(values, c.bound)
  {
    hide Follows, Course.Right, AtMost, SkipsZeros;
  }

  // The next value is not read.
  ghost predicate SkipsNext(c: Course, values: seq<nat>) {
    c.skip != 0 && |values| >= c.skip && values[|values| - c.skip] == 0
  }

  lemma {:induction false} SentSame(a: seq<nat>, b: seq<nat>, skip: nat, n: nat)
    requires n <= |a| && n <= |b| && a[..n] == b[..n]
    ensures Sent(a, skip, n) == Sent(b, skip, n)
  {
    if n > 0 {
      assert a[..n][..n - 1] == a[..n - 1] && b[..n][..n - 1] == b[..n - 1];
      assert forall i :: 0 <= i < n ==> a[i] == a[..n][i] && b[i] == b[..n][i];
      SentSame(a, b, skip, n - 1);
    }
  }

  // One more value, skipped or sent.
  lemma PlacedMore(c: Course, values: seq<nat>, sent: seq<nat>, v: nat)
    requires Placed(c, values, sent) && |values| < c.elts && (SkipsNext(c, values) ==> v == 0)
    ensures Placed(c, values + [v], if SkipsNext(c, values) then sent else sent + [v])
  {
    var more, n := values + [v], |values|;
    assert more[..n] == values[..n];
    SentSame(more, values, c.skip, n);
    assert n >= c.skip && c.skip > 0 ==> more[n - c.skip] == values[n - c.skip];
    assert Skipped(more, c.skip, n) <==> SkipsNext(c, values);
    forall i | 0 <= i < |more| && Skipped(more, c.skip, i)
      ensures more[i] == 0
    {
      if i < n {
        assert more[i - c.skip] == values[i - c.skip];
        assert Skipped(values, c.skip, i);
      }
    }
  }

  // Values wanted are as many as the codes have room for.
  lemma WantedNext(c: Course, t: Table, values: seq<nat>, sent: seq<nat>)
    requires c.Right(t) && Placed(c, values, sent) && |values| < c.elts && values == c.all[..|values|]
    ensures sent == Sent(c.all, c.skip, |values|) && |sent| <= c.Wants()
    ensures if SkipsNext(c, values) then c.all[|values|] == 0
            else |sent| < c.Wants() && Sent(c.all, c.skip, c.elts)[|sent|] == c.all[|values|]
  {
    hide Spells;
    var n := |values|;
    assert |c.all| == c.elts && SkipsZeros(c.all, c.skip) && sent == Sent(values, c.skip, n) && c.Wants() == |Sent(c.all, c.skip, c.elts)|;
    hide Course.Right, Placed, Course.Wants;
    assert values[..n] == values;
    SentSame(values, c.all, c.skip, n);
    SentPrefix(c.all, c.skip, n, c.elts);
    SentPrefix(c.all, c.skip, n + 1, c.elts);
    SkippedNext(c, values);
    hide SkipsZeros;
    SentNext(c.all, c.skip, n);
    if !SkipsNext(c, values) {
      NextOf(sent, c.all[n], Sent(c.all, c.skip, c.elts));
    }
  }

  lemma SkippedNext(c: Course, values: seq<nat>)
    requires |values| < |c.all| && values == c.all[..|values|] && SkipsZeros(c.all, c.skip)
    ensures Skipped(c.all, c.skip, |values|) <==> SkipsNext(c, values)
    ensures SkipsNext(c, values) ==> c.all[|values|] == 0
  {
    var n := |values|;
    assert n >= c.skip && c.skip > 0 ==> c.all[n - c.skip] == values[n - c.skip];
    assert Skipped(c.all, c.skip, n) <==> SkipsNext(c, values);
  }

  lemma SentNext(all: seq<nat>, skip: nat, n: nat)
    requires n < |all|
    ensures Sent(all, skip, n + 1) == Sent(all, skip, n) + if Skipped(all, skip, n) then [] else [all[n]]
  {
  }

  lemma AlongSkip(c: Course, t: Table, rest: seq<bool>, list: seq<nat>, s: nat, rep: nat, mtf: nat, values: seq<nat>,
                  sent: seq<nat>, used: nat, low: nat)
    requires Along(c, t, rest, list, s, rep, mtf, values, sent, used, low) && |values| < c.elts
    requires c.skip != 0 && |values| >= c.skip && values[|values| - c.skip] == 0
    ensures Along(c, t, rest, list, s, rep, mtf, values + [0], sent, used, low)
  {
    hide *;
    PlacedSkip(c, t, rest, list, s, rep, mtf, values, sent, used, low);
    AtMostMore(values, 0, c.bound);
    RightSkip(c, t, values, sent);
    AlongRest(c, t, rest, list, s, rep, mtf, values, values + [0], sent, used, low);
  }

  lemma PlacedSkip(c: Course, t: Table, rest: seq<bool>, list: seq<nat>, s: nat, rep: nat, mtf: nat, values: seq<nat>,
                   sent: seq<nat>, used: nat, low: nat)
    requires Along(c, t, rest, list, s, rep, mtf, values, sent, used, low) && |values| < c.elts
    requires c.skip != 0 && |values| >= c.skip && values[|values| - c.skip] == 0
    ensures Placed(c, values, sent) && Placed(c, values + [0], sent) && AtMost(values, c.bound) && SkipsNext(c, values)
    ensures c.Right(t) ==> |values| <= |c.all| && values == c.all[..|values|]
  {
    hide Follows, AtMost;
    PlacedMore(c, values, sent, 0);
    hide SkipsZeros;
  }

  lemma RightSkip(c: Course, t: Table, values: seq<nat>, sent: seq<nat>)
    requires Placed(c, values, sent) && SkipsNext(c, values) && |values| < c.elts
    requires c.Right(t) ==> |values| <= |c.all| && values == c.all[..|values|]
    ensures c.Right(t) ==> |values| + 1 <= |c.all| && values + [0] == c.all[..|values + [0]|]
  {
    if c.Right(t) {
      hide Placed, SkipsZeros, Spells;
      WantedNext(c, t, values, sent);
      assert c.all[..|values| + 1] == c.all[..|values|] + [c.all[|values|]];
    }
  }

  lemma AlongRest(c: Course, t: Table, rest: seq<bool>, list: seq<nat>, s: nat, rep: nat, mtf: nat, values: seq<nat>,
                  values': seq<nat>, sent: seq<nat>, used: nat, low: nat)
    requires Along(c, t, rest, list, s, rep, mtf, values, sent, used, low)
    requires Placed(c, values', sent) && AtMost(values', c.bound)
    requires c.Right(t) ==> |values'| <= |c.all| && values' == c.all[..|values'|]
    ensures Along(c, t, rest, list, s, rep, mtf, values', sent, used, low)
  {
    hide Placed, Follows, AtMost, Course.Right, Course.Wants;
  }

  // A value that is read is the next one.
  lemma AlongValue(c: Course, t: Table, rest: seq<bool>, list: seq<nat>, s: nat, rep: nat, mtf: nat, values: seq<nat>,
                   sent: seq<nat>, used: nat, low: nat, v: nat, list': seq<nat>, rep': nat)
    requires Along(c, t, rest, list, s, rep, mtf, values, sent, used, low) && |values| < c.elts && !SkipsNext(c, values)
    requires list' != [] && AtMost(list', c.bound) && v <= c.bound && low <= |sent| + 1
    requires forall n: nat {:trigger Goal(t, c.rest, c.list, n)} :: n >= low && n >= |sent| + 1 ==>
               Progress(Goal(t, c.rest, c.list, n), t, rest, list', s, rep', 0, sent + [v], used, n)
    ensures Along(c, t, rest, list', s, rep', 0, values + [v], sent + [v], used, low)
  {
    hide *;
    AlongFacts(c, t, rest, list, s, rep, mtf, values, sent, used, low);
    FollowsMore(c, t, rest, list, s, rep, mtf, values, sent, used, low, v, list', rep');
    AtMostMore(values, v, c.bound);
    RightMore(c, t, rest, list, s, rep, mtf, values, sent, used, low, v, list', rep');
    AlongPut(c, t, rest, list', s, rep', values + [v], sent + [v], used, low);
  }

  lemma FollowsMore(c: Course, t: Table, rest: seq<bool>, list: seq<nat>, s: nat, rep: nat, mtf: nat, values: seq<nat>,
                    sent: seq<nat>, used: nat, low: nat, v: nat, list': seq<nat>, rep': nat)
    requires Along(c, t, rest, list, s, rep, mtf, values, sent, used, low) && |values| < c.elts && !SkipsNext(c, values)
    requires list' != []
    requires forall n: nat {:trigger Goal(t, c.rest, c.list, n)} :: n >= low && n >= |sent| + 1 ==>
               Progress(Goal(t, c.rest, c.list, n), t, rest, list', s, rep', 0, sent + [v], used, n)
    ensures Placed(c, values + [v], sent + [v]) && Follows(c, t, rest, list', s, rep', 0, sent + [v], used, low)
  {
    hide Progress, Goal, AtMost, Course.Right;
    PlacedMore(c, values, sent, v);
    hide Placed;
    if rep' == 0 {
      ProgressEnds(Goal(t, c.rest, c.list, |sent| + 1), t, rest, list', s, 0, 0, sent + [v], used, |sent| + 1);
    }
  }

  lemma RightMore(c: Course, t: Table, rest: seq<bool>, list: seq<nat>, s: nat, rep: nat, mtf: nat, values: seq<nat>,
                  sent: seq<nat>, used: nat, low: nat, v: nat, list': seq<nat>, rep': nat)
    requires Along(c, t, rest, list, s, rep, mtf, values, sent, used, low) && |values| < c.elts && !SkipsNext(c, values)
    requires list' != []
    requires forall n: nat {:trigger Goal(t, c.rest, c.list, n)} :: n >= low && n >= |sent| + 1 ==>
               Progress(Goal(t, c.rest, c.list, n), t, rest, list', s, rep', 0, sent + [v], used, n)
    ensures c.Right(t) ==> |values| + 1 <= |c.all| && values + [v] == c.all[..|values + [v]|] && low <= c.Wants()
  {
    if c.Right(t) {
      hide Progress, AtMost, Placed, Follows, SkipsZeros;
      WantedNext(c, t, values, sent);
      ProgressPrefix(Goal(t, c.rest, c.list, c.Wants()), t, rest, list', s, rep', 0, sent + [v], used, c.Wants());
      NextOf(sent, v, Sent(c.all, c.skip, c.elts));
      assert c.all[..|values| + 1] == c.all[..|values|] + [c.all[|values|]];
    }
  }

  lemma NextOf(sent: seq<nat>, v: nat, whole: seq<nat>)
    requires sent + [v] <= whole
    ensures |sent| < |whole| && whole[|sent|] == v
  {
    assert whole[|sent|] == (sent + [v])[|sent|];
  }

  lemma AlongPut(c: Course, t: Table, rest: seq<bool>, list: seq<nat>, s: nat, rep: nat, values: seq<nat>, sent: seq<nat>,
                 used: nat, low: nat)
    requires list != [] && AtMost(list, c.bound) && AtMost(values, c.bound)
    requires Placed(c, values, sent) && Follows(c, t, rest, list, s, rep, 0, sent, used, low)
    requires c.Right(t) ==> |values| <= |c.all| && values == c.all[..|values|] && low <= c.Wants()
    ensures Along(c, t, rest, list, s, rep, 0, values, sent, used, low)
  {
    hide Placed, Follows, AtMost, Course.Right, Course.Wants;
  }

  lemma AlongRepeat(c: Course, t: Table, rest: seq<bool>, list: seq<nat>, s: nat, rep: nat, values: seq<nat>,
                    sent: seq<nat>, used: nat, low: nat)
    requires Along(c, t, rest, list, s, rep, 0, values, sent, used, low) && |values| < c.elts && rep > 0
    requires !(c.skip != 0 && |values| >= c.skip && values[|values| - c.skip] == 0)
    ensures list != [] && Along(c, t, rest, list, s, rep - 1, 0, values + [list[0]], sent + [list[0]], used, low)
  {
    hide Progress, Placed, Course.Right;
    InList(list, 0, c.bound);
    forall n: nat {:trigger Goal(t, c.rest, c.list, n)} | n >= low && n >= |sent| + 1
      ensures Progress(Goal(t, c.rest, c.list, n), t, rest, list, s, rep - 1, 0, sent + [list[0]], used, n)
    {
      ProgressRepeat(Goal(t, c.rest, c.list, n), t, rest, list, s, rep, sent, used, n);
    }
    AlongValue(c, t, rest, list, s, rep, 0, values, sent, used, low, list[0], list, rep - 1);
  }

  lemma AlongMove(c: Course, t: Table, rest: seq<bool>, list: seq<nat>, s: nat, mtf: nat, values: seq<nat>,
                  sent: seq<nat>, used: nat, low: nat)
    requires Along(c, t, rest, list, s, 0, mtf, values, sent, used, low) && |values| < c.elts && mtf > 0
    requires !(c.skip != 0 && |values| >= c.skip && values[|values| - c.skip] == 0)
    ensures mtf < |list| && Along(c, t, rest, ToFront(list, mtf), s, 0, 0, values + [list[mtf]], sent + [list[mtf]], used, low)
  {
    hide Progress, Placed, Course.Right, ToFront;
    InList(list, mtf, c.bound);
    forall n: nat {:trigger Goal(t, c.rest, c.list, n)} | n >= low && n >= |sent| + 1
      ensures Progress(Goal(t, c.rest, c.list, n), t, rest, ToFront(list, mtf), s, 0, 0, sent + [list[mtf]], used, n)
    {
      ProgressMove(Goal(t, c.rest, c.list, n), t, rest, list, s, mtf, sent, used, n);
    }
    AlongValue(c, t, rest, list, s, 0, mtf, values, sent, used, low, list[mtf], ToFront(list, mtf), 0);
  }

  // No values follow for any number that asks for one.
  ghost predicate Ends(c: Course, t: Table, sent: seq<nat>) {
    c.list != [] && forall n: nat {:trigger Goal(t, c.rest, c.list, n)} :: n > |sent| ==> Goal(t, c.rest, c.list, n).Fail?
  }

  lemma AlongRead(c: Course, t: Table, rest: seq<bool>, list: seq<nat>, s0: nat, values: seq<nat>, sent: seq<nat>, used: nat,
                  low: nat, ok: bool, rep: nat, mtf: nat, s: nat, taken: nat)
    requires Along(c, t, rest, list, s0, 0, 0, values, sent, used, low) && |values| < c.elts
    requires !(c.skip != 0 && |values| >= c.skip && values[|values| - c.skip] == 0)
    requires Said(t, rest, |list|, s0, ok, rep, mtf, s, taken) && (ok ==> taken <= |rest|)
    ensures if ok then Along(c, t, rest[taken..], list, s, rep, mtf, values, sent, used + taken, |sent| + 1)
            else Ends(c, t, sent) && (c.Right(t) ==> |sent| < c.Wants())
  {
    hide Progress, Said;
    if c.Right(t) {
      WantedNext(c, t, values, sent);
    }
    forall n: nat {:trigger Goal(t, c.rest, c.list, n)} | n > |sent|
      ensures if ok then Progress(Goal(t, c.rest, c.list, n), t, rest[taken..], list, s, rep, mtf, sent, used + taken, n)
              else Goal(t, c.rest, c.list, n).Fail?
    {
      ProgressSaid(Goal(t, c.rest, c.list, n), t, rest, list, s0, sent, used, n, ok, rep, mtf, s, taken);
    }
    if ok {
      SaidFacts(t, rest, |list|, s0, ok, rep, mtf, s, taken);
    }
    hide Placed, Goal;
  }

  lemma SaidFacts(t: Table, rest: seq<bool>, count: nat, s0: nat, ok: bool, rep: nat, mtf: nat, s: nat, taken: nat)
    requires Said(t, rest, count, s0, ok, rep, mtf, s, taken) && ok && count > 0
    ensures (rep > 0 ==> mtf == 0) && mtf < count && rep + mtf > 0
  {
    hide Scan;
    TimesPositive(s0);
  }

  lemma TimesPositive(s: nat)
    ensures Times(1, Power2(s)) > 0 && Times(2, Power2(s)) > 0
  {
  }

  lemma AlongFails(c: Course, t: Table, values: seq<nat>, sent: seq<nat>)
    requires Ends(c, t, sent) && (c.Right(t) ==> |sent| < c.Wants())
    ensures c.list != [] && !c.Right(t)
  {
    hide Goal, SkipsZeros;
  }

  lemma AlongEnd(c: Course, t: Table, rest: seq<bool>, list: seq<nat>, s: nat, rep: nat, mtf: nat, values: seq<nat>,
                 sent: seq<nat>, used: nat, low: nat)
    requires Along(c, t, rest, list, s, rep, mtf, values, sent, used, low) && |values| == c.elts
    ensures c.list != []
    ensures rep == 0 ==> SkipsZeros(values, c.skip) && Spells(t, c.rest, c.list, Sent(values, c.skip, c.elts))
    ensures c.Right(t) ==> rep == 0 && values == c.all && Goal(t, c.rest, c.list, c.Wants()) == Ok(Values(sent, used))
  {
    hide Progress;
    if c.Right(t) {
      assert values == c.all;
      ProgressEnds(Goal(t, c.rest, c.list, c.Wants()), t, rest, list, s, rep, mtf, sent, used, c.Wants());
    }
    hide Goal, SkipsZeros;
  }

  lemma AtMostMore(values: seq<nat>, v: nat, bound: nat)
    requires AtMost(values, bound) && v <= bound
    ensures AtMost(values + [v], bound)
  {
  }

  // An entry of the list, which stays within the bound when the entry is moved.
  lemma InList(list: seq<nat>, j: nat, bound: nat)
    requires AtMost(list, bound) && j < |list|
    ensures list[j] <= bound && AtMost(ToFront(list, j), bound)
  {
  }

  lemma {:induction false} SentPrefix(all: seq<nat>, skip: nat, m: nat, n: nat)
    requires m <= n <= |all|
    ensures Sent(all, skip, m) <= Sent(all, skip, n)
    decreases n
  {
    if m < n {
      SentPrefix(all, skip, m, n - 1);
    }
  }

  lemma ProgressPrefix(goal: Result<Values>, t: Table, rest: seq<bool>, list: seq<nat>, s: nat, rep: nat, mtf: nat,
                       values: seq<nat>, used: nat, elts: nat)
    requires Progress(goal, t, rest, list, s, rep, mtf, values, used, elts) && goal.Ok?
    ensures values <= goal.value.values
  {
    hide Read12, ToFront;
  }

  lemma ProgressNone(goal: Result<Values>, t: Table, rest: seq<bool>, list: seq<nat>, elts: nat)
    requires list != [] && goal == Read12(t, TOTAL_CODES, rest, list, 0, elts)
    ensures Progress(goal, t, rest, list, 0, 0, 0, [], 0, elts)
  {
    FollowNone([] + Repeat(list[0], 0), goal);
    hide Read12;
  }

  lemma ProgressFacts(goal: Result<Values>, t: Table, rest: seq<bool>, list: seq<nat>, s: nat, rep: nat, mtf: nat,
                      values: seq<nat>, used: nat, elts: nat)
    requires Progress(goal, t, rest, list, s, rep, mtf, values, used, elts)
    ensures |values| <= elts && list != [] && (rep > 0 ==> mtf == 0) && (mtf > 0 ==> mtf < |list|)
  {
  }

  // Values that take the same bits are as many.
  lemma {:induction false} SameUsed(t: Table, maxSym: nat, bits: seq<bool>, list: seq<nat>, s: nat, m: nat, n: nat)
    requires list != [] && Read12(t, maxSym, bits, list, s, m).Ok? && Read12(t, maxSym, bits, list, s, n).Ok?
    requires Read12(t, maxSym, bits, list, s, m).value.used == Read12(t, maxSym, bits, list, s, n).value.used
    ensures m == n
    decreases |bits|
  {
    hide Scan, Times, ToFront;
    if m > 0 || n > 0 {
      var x := Scan(t, bits, maxSym, 0, 0);
      ScanUsed(t, bits, maxSym, 0, 0);
      hide Power2;
      if m > 0 && n > 0 {
        var rest := bits[x.value.used..];
        if x.value.sym <= 1 {
          var rep := Times(x.value.sym + 1, Power2(s));
          SameUsed(t, maxSym, rest, list, s + 1, m - rep, n - rep);
        } else {
          SameUsed(t, maxSym, rest, ToFront(list, x.value.sym - 1), 0, m - 1, n - 1);
        }
      }
    }
  }
}
