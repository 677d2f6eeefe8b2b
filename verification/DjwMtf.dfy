// Move-to-front coding with runs in bijective base two (xdelta3-djw.h): how code
// lengths are sent, and how they are read back.
module DjwMtf {

  import opened Bytes

  // ---------- what is sent ----------

  function Find(list: seq<nat>, sym: nat): (j: nat)
    requires sym in list
    ensures j < |list| && list[j] == sym && forall k :: 0 <= k < j ==> list[k] != sym
  {
    if list[0] == sym then 0 else Find(list[1..], sym) + 1
  }

  function ToFront(list: seq<nat>, j: nat): (r: seq<nat>)
    requires j < |list|
    ensures |r| == |list| && forall x :: x in list ==> x in r
  {
    var r := [list[j]] + list[..j] + list[j + 1..];
    assert forall k :: 0 <= k < |list| ==> list[k] == r[if k == j then 0 else if k < j then k + 1 else k];
    r
  }

  // A run of that many repeats: its digits are one and two, lowest first.
  function RunCode(run: nat): seq<nat> {
    if run == 0 then [] else [(run - 1) % 2] + RunCode((run - 1) / 2)
  }

  // The places of the symbols in the list, with repeats of its first put as runs.
  function Encode12(symbols: seq<nat>, list: seq<nat>, run: nat): seq<nat>
    requires forall x :: x in symbols ==> x in list
  {
    if symbols == [] then RunCode(run)
    else
      var j := Find(list, symbols[0]);
      if j == 0 then Encode12(symbols[1..], list, run + 1)
      else RunCode(run) + [j + 1] + Encode12(symbols[1..], ToFront(list, j), 0)
  }

  lemma {:induction false} OccursIn(codes: seq<nat>, c: nat)
    ensures Occurrences(codes, c) > 0 <==> c in codes
  {
    if codes != [] {
      OccursIn(codes[..|codes| - 1], c);
      assert codes == codes[..|codes| - 1] + [codes[|codes| - 1]];
    }
  }

  lemma {:induction false} RunCodeSmall(run: nat)
    ensures forall c :: c in RunCode(run) ==> c <= 1
    ensures run > 0 ==> RunCode(run) != []
  {
    if run > 0 {
      RunCodeSmall((run - 1) / 2);
    }
  }

  // Every code is a run digit or one more than a place.
  lemma {:induction false} CodesBound(symbols: seq<nat>, list: seq<nat>, run: nat)
    requires forall x :: x in symbols ==> x in list
    ensures forall c :: c in Encode12(symbols, list, run) ==> c <= 1 || c <= |list|
    ensures |symbols| + run > 0 ==> Encode12(symbols, list, run) != []
    decreases |symbols|
  {
    RunCodeSmall(run);
    if symbols != [] {
      var j := Find(list, symbols[0]);
      if j == 0 {
        CodesBound(symbols[1..], list, run + 1);
      } else {
        CodesBound(symbols[1..], ToFront(list, j), 0);
      }
    }
  }

  // ---------- djw_compute_mtf_1_2 ----------

  // The codes written so far, and how often each.
  ghost predicate Counted(codes: seq<nat>, freq: seq<nat>) {
    forall c {:trigger freq[c]} :: 0 <= c < |freq| ==> freq[c] == Occurrences(codes, c)
  }

  lemma CountedNext(codes: seq<nat>, freq: seq<nat>, c: nat)
    requires Counted(codes, freq) && c < |freq|
    ensures Counted(codes + [c], freq[c := freq[c] + 1])
  {
    assert (codes + [c])[..|codes|] == codes;
  }

  // djw_update_1_2.
  method UpdateRun(mtfRun: nat, mtfsym: seq<nat>, freq: seq<nat>) returns (mtfsym': seq<nat>, freq': seq<nat>)
    requires mtfRun > 0 && |freq| >= 2 && Counted(mtfsym, freq)
    ensures mtfsym' == mtfsym + RunCode(mtfRun) && |freq'| == |freq| && Counted(mtfsym', freq')
  {
    mtfsym', freq' := mtfsym, freq;
    var run := mtfRun;
    var first := true;
    while first || run >= 1
      invariant !first || run == mtfRun
      invariant mtfsym' + RunCode(run) == mtfsym + RunCode(mtfRun) && |freq'| == |freq| && Counted(mtfsym', freq')
      decreases run
    {
      run := run - 1;
      var code := run % 2;
      CountedNext(mtfsym', freq', code);
      assert (mtfsym' + [code]) + RunCode(run / 2) == mtfsym' + RunCode(run + 1);
      mtfsym' := mtfsym' + [code];
      freq' := freq'[code := freq'[code] + 1];
      run := run / 2;
      first := false;
    }
  }

  // A symbol found in the list and moved to its front.
  method MoveToFront(mtf: array<nat>, sym: nat) returns (j: nat)
    requires sym in mtf[..]
    modifies mtf
    ensures j == Find(old(mtf[..]), sym) && mtf[..] == ToFront(old(mtf[..]), j)
  {
    ghost var list := mtf[..];
    hide ToFront, Shifted;
    j := 0;
    while mtf[j] != sym
      invariant j <= Find(list, sym) && mtf[..] == list
      decreases Find(list, sym) - j
    {
      assert mtf[j] == list[j];
      j := j + 1;
    }
    var moved := UpdateMtf(mtf, j);
  }

  // djw_update_mtf.
  method UpdateMtf(mtf: array<nat>, i: nat) returns (sym: nat)
    requires i < mtf.Length
    modifies mtf
    ensures sym == old(mtf[i]) && mtf[..] == ToFront(old(mtf[..]), i)
  {
    ghost var list := mtf[..];
    hide ToFront, Shifted;
    sym := mtf[i];
    var k := i;
    ShiftNone(list, i);
    while k >= 1
      invariant k <= i && mtf[..] == Shifted(list, i, k)
    {
      ShiftNext(list, i, k);
      mtf[k] := mtf[k - 1];
      k := k - 1;
    }
    mtf[0] := sym;
    assert mtf[..] == Shifted(list, i, 0)[0 := sym];
    ShiftDone(list, i);
  }

  // The entries from k to j moved up by one.
  function Shifted(list: seq<nat>, j: nat, k: nat): (r: seq<nat>)
    requires k <= j < |list|
    ensures |r| == |list|
  {
    list[..k] + [list[k]] + list[k..j] + list[j + 1..]
  }

  lemma ShiftNone(list: seq<nat>, j: nat)
    requires j < |list|
    ensures Shifted(list, j, j) == list
  {
    assert list[j..j] == [];
  }

  lemma ShiftNext(list: seq<nat>, j: nat, k: nat)
    requires 1 <= k <= j < |list|
    ensures Shifted(list, j, k)[k - 1] == list[k - 1]
    ensures Shifted(list, j, k)[k := list[k - 1]] == Shifted(list, j, k - 1)
  {
  }

  lemma ShiftDone(list: seq<nat>, j: nat)
    requires j < |list|
    ensures Shifted(list, j, 0)[0 := list[j]] == ToFront(list, j)
  {
  }

  // What has been sent, and what is to come for the other symbols.
  ghost predicate Encoding(symbols: seq<nat>, i: nat, list: seq<nat>, run: nat, sent: seq<nat>, all: seq<nat>) {
    && i <= |symbols| && (forall x :: x in symbols[i..] ==> x in list)
    && sent + Encode12(symbols[i..], list, run) == all
  }

  lemma EncodeNext(symbols: seq<nat>, i: nat, list: seq<nat>, run: nat, sent: seq<nat>, all: seq<nat>)
    requires i < |symbols| && Encoding(symbols, i, list, run, sent, all)
    ensures symbols[i] in list
    ensures var j := Find(list, symbols[i]);
            if j == 0 then Encoding(symbols, i + 1, ToFront(list, j), run + 1, sent, all)
            else Encoding(symbols, i + 1, ToFront(list, j), 0, sent + RunCode(run) + [j + 1], all)
  {
    var rest := symbols[i..];
    assert rest[0] == symbols[i] && rest[1..] == symbols[i + 1..];
    var j := Find(list, symbols[i]);
    if j == 0 {
      assert ToFront(list, 0) == list;
    } else {
      Regrouped(sent, RunCode(run), [j + 1], Encode12(symbols[i + 1..], ToFront(list, j), 0));
    }
  }

  lemma Regrouped(a: seq<nat>, b: seq<nat>, c: seq<nat>, d: seq<nat>)
    ensures a + (b + c + d) == a + b + c + d
  {
  }

  // The run that is pending, and a place.
  method EmitRun(run: nat, mtfsym: seq<nat>, freq: seq<nat>) returns (mtfsym': seq<nat>, freq': seq<nat>)
    requires |freq| >= 2 && Counted(mtfsym, freq)
    ensures mtfsym' == mtfsym + RunCode(run) && |freq'| == |freq| && Counted(mtfsym', freq')
  {
    mtfsym', freq' := mtfsym, freq;
    if run > 0 {
      mtfsym', freq' := UpdateRun(run, mtfsym, freq);
    }
  }

  method ComputeMtf12(symbols: seq<nat>, mtf: array<nat>, nsym: nat) returns (mtfsym: seq<nat>, freq: seq<nat>)
    requires mtf.Length <= nsym + 1 && forall x :: x in symbols ==> x in mtf[..]
    modifies mtf
    ensures mtfsym == Encode12(symbols, old(mtf[..]), 0)
    ensures |freq| == nsym + 2 && Counted(mtfsym, freq)
  {
    hide Encode12, Find, RunCode, ToFront;
    ghost var all := Encode12(symbols, mtf[..], 0);
    mtfsym, freq := [], seq(nsym + 2, _ => 0);
    var mtfRun: nat, i: nat := 0, 0;
    assert symbols[0..] == symbols;
    assert Counted(mtfsym, freq) && Encoding(symbols, i, mtf[..], mtfRun, mtfsym, all);
    hide *;
    while i < |symbols|
      invariant i <= |symbols| && |freq| == nsym + 2 && Counted(mtfsym, freq)
      invariant Encoding(symbols, i, mtf[..], mtfRun, mtfsym, all)
    {
      EncodeNext(symbols, i, mtf[..], mtfRun, mtfsym, all);
      var sym := symbols[i];
      i := i + 1;
      var j := MoveToFront(mtf, sym);
      if j == 0 {
        mtfRun := mtfRun + 1;
      } else {
        mtfsym, freq := EmitRun(mtfRun, mtfsym, freq);
        mtfRun := 0;
        CountedNext(mtfsym, freq, j + 1);
        mtfsym := mtfsym + [j + 1];
        freq := freq[j + 1 := freq[j + 1] + 1];
      }
    }
    EncodedAll(symbols, mtf[..], mtfRun, mtfsym, all);
    mtfsym, freq := EmitRun(mtfRun, mtfsym, freq);
  }

  lemma EncodedAll(symbols: seq<nat>, list: seq<nat>, run: nat, sent: seq<nat>, all: seq<nat>)
    requires Encoding(symbols, |symbols|, list, run, sent, all)
    ensures sent + RunCode(run) == all
  {
    assert symbols[|symbols|..] == [];
  }
}
