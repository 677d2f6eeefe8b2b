// Sections coded by the static Huffman coder (xdelta3-djw.h): how many groups, their
// code lengths, which sector has which group, and the data.
module DjwSection {

  import opened Bytes
  import opened BitLayer
  import opened DjwPrefix
  import opened DjwCodes
  import opened DjwMtf
  import opened DjwDecode
  import opened DjwStream
  import opened DjwGroups

  const MAX_GROUPS: nat := 8
  const SECTORSZ_MULT: nat := 5
  const SECTORSZ_MAX: nat := 160
  const MAX_GBCLEN: nat := 7

  // ---------- the lengths of all groups ----------

  // One group after the other.
  function Concat(clens: seq<seq<nat>>): (all: seq<nat>)
    requires Shaped(clens)
    ensures |all| == 256 * |clens|
  {
    seq(256 * |clens|, k requires 0 <= k < 256 * |clens| => clens[k / 256][k % 256])
  }

  // djw_compute_multi_prefix sends the first group, and of the others what is not zero.
  function Multi(all: seq<nat>, n: nat): seq<nat>
    requires n <= |all|
  {
    if n == 0 then [] else Multi(all, n - 1) + if n - 1 >= 256 && all[n - 1] == 0 then [] else [all[n - 1]]
  }

  ghost predicate FlatAgree(all: seq<nat>) {
    forall k {:trigger Skipped(all, 256, k)} :: 256 <= k < |all| ==> (Skipped(all, 256, k) <==> all[k] == 0)
  }

  lemma {:induction false} SentIsMulti(all: seq<nat>, n: nat)
    requires n <= |all| && FlatAgree(all)
    ensures Sent(all, 256, n) == Multi(all, n)
  {
    if n > 0 {
      SentIsMulti(all, n - 1);
      assert n - 1 >= 256 ==> (Skipped(all, 256, n - 1) <==> all[n - 1] == 0);
    }
  }

  // A zero that is not skipped makes what is needed longer than what is sent.
  lemma {:induction false} SentLonger(all: seq<nat>, n: nat, k: nat)
    requires n <= |all| && SkipsZeros(all, 256)
    ensures |Sent(all, 256, n)| >= |Multi(all, n)|
    ensures 256 <= k < n && all[k] == 0 && !Skipped(all, 256, k) ==> |Sent(all, 256, n)| > |Multi(all, n)|
  {
    if n > 0 {
      SentLonger(all, n - 1, k);
    }
  }

  // What is sent is enough exactly if zeros agree from each group to the next.
  lemma RestorableIff(all: seq<nat>)
    ensures Restorable(all, Multi(all, |all|)) <==> FlatAgree(all)
  {
    if FlatAgree(all) {
      SentIsMulti(all, |all|);
      forall i {:trigger Skipped(all, 256, i)} | 0 <= i < |all| && Skipped(all, 256, i)
        ensures all[i] == 0
      {
        assert i >= 256;
      }
    }
    if Restorable(all, Multi(all, |all|)) {
      forall k {:trigger Skipped(all, 256, k)} | 256 <= k < |all|
        ensures Skipped(all, 256, k) <==> all[k] == 0
      {
        SentLonger(all, |all|, k);
      }
    }
  }

  lemma AgreeIsFlat(clens: seq<seq<nat>>)
    requires Shaped(clens)
    ensures ZerosAgree(clens) <==> FlatAgree(Concat(clens))
  {
    var all := Concat(clens);
    if ZerosAgree(clens) {
      forall k {:trigger Skipped(all, 256, k)} | 256 <= k < |all|
        ensures Skipped(all, 256, k) <==> all[k] == 0
      {
        assert AgreeAt(clens, k / 256, k % 256);
        assert (k - 256) / 256 == k / 256 - 1 && (k - 256) % 256 == k % 256;
      }
    }
    if FlatAgree(all) {
      forall g, i {:trigger AgreeAt(clens, g, i)} | 0 < g < |clens| && 0 <= i < 256
        ensures AgreeAt(clens, g, i)
      {
        var k := 256 * g + i;
        assert k / 256 == g && k % 256 == i && (k - 256) / 256 == g - 1 && (k - 256) % 256 == i;
        assert Skipped(all, 256, k) <==> all[k] == 0;
      }
    }
  }

  method ComputeMultiPrefix(clens: seq<seq<nat>>) returns (symbols: seq<nat>)
    requires Shaped(clens) && clens != []
    ensures symbols == Multi(Concat(clens), 256 * |clens|)
  {
    ghost var all := Concat(clens);
    MultiFirst(all, 256);
    assert all[..256] == clens[0];
    symbols := clens[0];
    for gp := 1 to |clens|
      invariant symbols == Multi(all, 256 * gp)
    {
      for i := 0 to 256
        invariant symbols == Multi(all, 256 * gp + i)
      {
        assert (256 * gp + i) / 256 == gp && (256 * gp + i) % 256 == i;
        assert all[256 * gp + i] == clens[gp][i];
        if clens[gp][i] != 0 {
          symbols := symbols + [clens[gp][i]];
        }
      }
    }
  }

  lemma {:induction false} MultiFirst(all: seq<nat>, n: nat)
    requires n <= 256 && n <= |all|
    ensures Multi(all, n) == all[..n]
  {
    if n > 0 {
      MultiFirst(all, n - 1);
    }
  }

  lemma {:induction false} MultiIn(all: seq<nat>, n: nat)
    requires n <= |all|
    ensures forall x :: x in Multi(all, n) ==> x in all
    ensures n > 0 && |all| >= 256 ==> Multi(all, n) != []
  {
    if n > 0 {
      MultiIn(all, n - 1);
      assert all[n - 1] in all;
      if n == 1 {
        assert Multi(all, 0) == [];
      }
    }
  }

  // ---------- what a section is ----------

  datatype Section = Section(clens: seq<seq<nat>>, clclen: seq<nat>, num: nat, sector: nat, select: seq<nat>, gbclen: seq<nat>,
                             data: seq<byte>)

  function Identity(n: nat): (list: seq<nat>)
    ensures |list| == n && forall i :: 0 <= i < n ==> list[i] == i
  {
    seq(n, i => i)
  }

  // The coding of the choices of groups.
  ghost predicate SelectOk(groups: nat, select: seq<nat>, gbclen: seq<nat>) {
    && |gbclen| == groups + 1 && Complete(gbclen, MAX_GBCLEN) && (forall x :: x in select ==> x in Identity(groups))
    && Usable(gbclen, Encode12(select, Identity(groups), 0))
  }

  ghost predicate SectionOk(s: Section) {
    && 1 <= |s.clens| <= MAX_GROUPS && s.data != [] && s.sector > 0
    && Codable(s.clens, s.select, Parts(s.data, s.sector))
    && (forall g {:trigger s.clens[g]} :: 0 <= g < |s.clens| ==> Complete(s.clens[g], MAX_CODELEN) && Usable(s.clens[g], s.data))
    && PrefixOk(Multi(Concat(s.clens), 256 * |s.clens|), s.clclen, s.num)
    && if |s.clens| == 1 then s.sector == |s.data|
       else s.sector % SECTORSZ_MULT == 0 && s.sector <= SECTORSZ_MAX && SelectOk(|s.clens|, s.select, s.gbclen)
  }

  function HeadBits(groups: nat, sector: nat): seq<bool>
    requires groups > 0 && (groups > 1 ==> sector >= SECTORSZ_MULT)
  {
    HighFirst(groups - 1, 3) + if groups > 1 then HighFirst(sector / SECTORSZ_MULT - 1, 5) else []
  }

  ghost function ChoiceBits(groups: nat, select: seq<nat>, gbclen: seq<nat>): seq<bool>
    requires SelectOk(groups, select, gbclen)
  {
    CodeBits(gbclen, Encode12(select, Identity(groups), 0))
  }

  ghost function SelectBits(groups: nat, select: seq<nat>, gbclen: seq<nat>): seq<bool>
    requires groups > 1 ==> SelectOk(groups, select, gbclen)
  {
    if groups > 1 then NumberBits(gbclen, 3) + ChoiceBits(groups, select, gbclen) else []
  }

  ghost function DataBits(s: Section): seq<bool>
    requires s.sector > 0 && Codable(s.clens, s.select, Parts(s.data, s.sector))
  {
    SectorBits(s.clens, s.select, Parts(s.data, s.sector))
  }

  ghost function LengthBits(s: Section): seq<bool>
    requires SectionOk(s)
  {
    PrefixBits(Multi(Concat(s.clens), 256 * |s.clens|), s.clclen, s.num)
  }

  ghost function SectionBits(s: Section): seq<bool>
    requires SectionOk(s)
  {
    HeadBits(|s.clens|, s.sector) + (LengthBits(s) + (SelectBits(|s.clens|, s.select, s.gbclen) + DataBits(s)))
  }

  // ---------- encoding ----------

  // What is decided before it is known whether the section is worth sending.
  ghost predicate Drafted(s: Section, input: seq<byte>) {
    s.data == input && s.sector > 0 && Codable(s.clens, s.select, Parts(s.data, s.sector))
  }

  // Bits written before the data, those of the choices, and those of the data.
  ghost function BeforeSize(s: Section): nat
    requires SectionOk(s)
  {
    |HeadBits(|s.clens|, s.sector)| + |LengthBits(s)| + |SelectBits(|s.clens|, s.select, s.gbclen)|
  }

  ghost function ChoiceSize(s: Section): nat
    requires SectionOk(s)
  {
    if |s.clens| > 1 then |ChoiceBits(|s.clens|, s.select, s.gbclen)| else 0
  }

  ghost function DataSize(s: Section): nat
    requires SectionOk(s)
  {
    |DataBits(s)|
  }

  // The section saves too little: counted in bits, with offset bytes already in the
  // output and the whole bytes written before the data.
  ghost predicate Wasteful(s: Section, offset: nat)
    requires SectionOk(s)
  {
    DataSize(s) + ChoiceSize(s) + 8 * (offset + BeforeSize(s) / 8) + EFFICIENCY_BITS >= 8 * |s.data|
  }

  // So much data there must be for a code to be too long.
  ghost predicate Heavy(input: seq<byte>) {
    |input| + 257 >= Fib(MAX_CODELEN + 1)
  }

  // What the encoder gives: the bytes of a section, unless it saves too little, which is
  // first seen from the data alone. Zeros agree in one group, and in several if there is
  // not much data.
  ghost predicate EncodedAs(input: seq<byte>, inefficient: bool, offset: nat, r: Result<seq<byte>>, s: Section) {
    && Drafted(s, input) && (inefficient ==> r.Ok?) && (r.Ok? ==> SectionOk(s) && r.value == Pack(SectionBits(s)))
    && (!inefficient ==>
          if |DataBits(s)| + EFFICIENCY_BITS >= 8 * |input| then r.Fail? else SectionOk(s) && (r.Fail? <==> Wasteful(s, offset)))
    && (|s.clens| == 1 || !Heavy(input) ==> ZerosAgree(s.clens))
  }

  lemma EncodedEarly(input: seq<byte>, offset: nat, s: Section)
    requires Drafted(s, input) && |DataBits(s)| + EFFICIENCY_BITS >= 8 * |input|
    requires |s.clens| == 1 || !Heavy(input) ==> ZerosAgree(s.clens)
    ensures EncodedAs(input, false, offset, Fail, s)
  {
    hide SectionOk, Codable, DataBits, Heavy, ZerosAgree;
  }

  lemma EncodedLate(input: seq<byte>, inefficient: bool, offset: nat, r: Result<seq<byte>>, s: Section)
    requires SectionOk(s) && s.data == input && (r.Ok? ==> r.value == Pack(SectionBits(s)))
    requires inefficient || |DataBits(s)| + EFFICIENCY_BITS < 8 * |input|
    requires r.Fail? <==> Wasteful(s, offset) && !inefficient
    requires |s.clens| == 1 || !Heavy(input) ==> ZerosAgree(s.clens)
    ensures EncodedAs(input, inefficient, offset, r, s)
  {
    hide Codable, DataBits, SectionBits, Wasteful, Heavy, ZerosAgree, Pack, PrefixOk, SelectOk, Complete, Usable, Multi, Concat;
  }

  // The bytes of some section of the data.
  ghost predicate Codes(input: seq<byte>, code: seq<byte>) {
    exists s :: SectionOk(s) && s.data == input && code == Pack(SectionBits(s))
  }

  lemma GivesCode(input: seq<byte>, inefficient: bool, offset: nat, r: Result<seq<byte>>, s: Section)
    requires EncodedAs(input, inefficient, offset, r, s)
    ensures (inefficient ==> r.Ok?) && (r.Ok? ==> Codes(input, r.value))
  {
    hide SectionOk, SectionBits, Codable, DataBits, Wasteful, Heavy, ZerosAgree, Pack;
  }

  // Sectors, each with the codes of its group.
  method EncodeSectors(writer: BitWriter, parts: seq<seq<byte>>, select: seq<nat>, clens: seq<seq<nat>>, codes: seq<seq<nat>>)
    requires writer.Valid() && Codable(clens, select, parts) && |codes| == |clens|
    requires forall g :: 0 <= g < |clens| ==> CodesOf(clens[g], codes[g])
    requires forall c {:trigger parts[c]} :: 0 <= c < |parts| ==> Usable(clens[select[c]], parts[c])
    modifies writer
    ensures writer.Valid() && writer.bits == old(writer.bits) + SectorBits(clens, select, parts)
  {
    hide *;
    ghost var before := writer.bits;
    CodableFacts(clens, select, parts);
    SectorsNone(clens);
    for c := 0 to |parts|
      invariant writer.Valid() && Codable(clens, select[..c], parts[..c])
      invariant writer.bits == before + SectorBits(clens, select[..c], parts[..c])
    {
      var g := select[c];
      CodesFit(clens[g], codes[g]);
      SectorBitsNext(clens, select[..c], parts[..c], g, parts[c]);
      assert select[..c + 1] == select[..c] + [g] && parts[..c + 1] == parts[..c] + [parts[c]];
      Associate(before, SectorBits(clens, select[..c], parts[..c]), CodeBits(clens[g], parts[c]));
      EncodeCodes(writer, parts[c], clens[g], codes[g], MAX_CODELEN);
    }
    assert select[..|parts|] == select && parts[..|parts|] == parts;
  }

  lemma CodableFacts(clens: seq<seq<nat>>, select: seq<nat>, parts: seq<seq<byte>>)
    requires Codable(clens, select, parts)
    ensures Shaped(clens) && |select| == |parts| && forall c :: 0 <= c < |select| ==> select[c] < |clens|
  {
  }

  lemma SectorsNone(clens: seq<seq<nat>>)
    requires Shaped(clens)
    ensures Codable(clens, [], []) && SectorBits(clens, [], []) == []
  {
  }

  // The codes of a complete code.
  ghost predicate CodesOf(clen: seq<nat>, code: seq<nat>) {
    |code| == |clen| == 256 && Complete(clen, MAX_CODELEN) && forall i :: 0 <= i < |clen| && clen[i] > 0 ==> code[i] == Code(clen, i)
  }

  lemma CodesFit(clen: seq<nat>, code: seq<nat>)
    requires CodesOf(clen, code)
    ensures |code| == |clen| && Fits(clen, MAX_CODELEN)
    ensures forall i :: 0 <= i < |clen| && clen[i] > 0 ==> code[i] == Code(clen, i)
  {
    CompleteFits(clen, MAX_CODELEN);
  }

  // A symbol of a sector is one of the data.
  lemma UsableParts(clen: seq<nat>, data: seq<byte>, sector: nat, c: nat)
    requires sector > 0 && |clen| == 256 && Usable(clen, data) && c < |Parts(data, sector)|
    ensures Usable(clen, Parts(data, sector)[c])
  {
    var part := Parts(data, sector)[c];
    forall i | 0 <= i < |part|
      ensures clen[part[i]] > 0
    {
      PartsIn(data, sector, c, part[i]);
      var k :| 0 <= k < |data| && data[k] == part[i];
      assert clen[data[k]] > 0;
    }
  }

  // One group: the lengths of all data, and one sector.
  ghost function Single(clen: seq<nat>, clclen: seq<nat>, num: nat, input: seq<byte>): Section {
    Section([clen], clclen, num, |input|, [0], [], input)
  }

  lemma SingleDrafted(clen: seq<nat>, clclen: seq<nat>, num: nat, input: seq<byte>)
    requires |clen| == 256 && input != []
    ensures var s := Single(clen, clclen, num, input);
            s.data == input && |s.clens| == 1 && Drafted(s, input) && Parts(input, |input|) == [input] && DataBits(s) == CodeBits(clen, input) && ZerosAgree(s.clens)
    ensures Concat([clen]) == clen && Multi(clen, 256) == clen
  {
    var s := Single(clen, clclen, num, input);
    assert input[..|input|] == input && input[|input|..] == [] && Parts([], |input|) == [];
    assert s.select[1..] == [];
    hide CodeBits;
    SectorBitsOne(s.clens, input);
    assert forall k :: 0 <= k < 256 ==> k / 256 == 0 && k % 256 == k;
    MultiFirst(clen, 256);
  }

  lemma SectorBitsOne(clens: seq<seq<nat>>, part: seq<byte>)
    requires Shaped(clens) && clens != []
    ensures Codable(clens, [0], [part]) && Within(part, |clens[0]|) && SectorBits(clens, [0], [part]) == CodeBits(clens[0], part)
  {
    hide CodeBits;
    var select: seq<nat>, parts: seq<seq<byte>> := [0], [part];
    assert select[1..] == [] && parts[1..] == [];
    assert CodeBits(clens[0], part) + [] == CodeBits(clens[0], part);
    assert SectorBits(clens, [], []) == [];
  }

  lemma SingleOk(clen: seq<nat>, clclen: seq<nat>, num: nat, input: seq<byte>)
    requires |clen| == 256 && input != [] && Complete(clen, MAX_CODELEN) && Usable(clen, input) && PrefixOk(clen, clclen, num)
    ensures var s := Single(clen, clclen, num, input);
            && SectionOk(s) && LengthBits(s) == PrefixBits(clen, clclen, num) && DataBits(s) == CodeBits(clen, input)
            && HeadBits(1, s.sector) == HighFirst(0, 3) && SelectBits(1, s.select, s.gbclen) == []
            && SectionBits(s) == HighFirst(0, 3) + (PrefixBits(clen, clclen, num) + CodeBits(clen, input))
  {
    hide PrefixOk, Complete, Usable, CodeBits, PrefixBits, Multi, Concat, HighFirst, Parts, SectorBits, Codable, DataBits, Shaped;
    SingleDrafted(clen, clclen, num, input);
    SingleSection(clen, clclen, num, input);
    var s := Single(clen, clclen, num, input);
    assert LengthBits(s) == PrefixBits(clen, clclen, num);
    hide LengthBits, SectionOk;
    OnlyHead(HighFirst(0, 3), PrefixBits(clen, clclen, num), CodeBits(clen, input));
  }

  lemma SingleSection(clen: seq<nat>, clclen: seq<nat>, num: nat, input: seq<byte>)
    requires |clen| == 256 && input != [] && Complete(clen, MAX_CODELEN) && Usable(clen, input) && PrefixOk(clen, clclen, num)
    ensures var s := Single(clen, clclen, num, input);
            SectionOk(s) && |s.clens| == 1 && s.clens == [clen] && s.clclen == clclen && s.num == num
  {
    hide PrefixOk, Complete, Usable, Multi, Concat, Parts, DataBits, Codable;
    SingleDrafted(clen, clclen, num, input);
  }

  lemma OnlyHead(a: seq<bool>, b: seq<bool>, c: seq<bool>)
    ensures (a + []) + (b + ([] + c)) == a + (b + c) && a + [] == a
  {
  }

  // xd3_encode_huff with one group.
  method EncodeOne(input: seq<byte>, freq: seq<nat>, inefficient: bool, offset: nat) returns (r: Result<seq<byte>>, ghost s: Section)
    requires input != [] && |freq| == 256 && Counted(input, freq)
    ensures (inefficient ==> r.Ok?) && (r.Ok? ==> Codes(input, r.value))
    ensures EncodedAs(input, inefficient, offset, r, s) && |s.clens| == 1
  {
    hide *;
    var inputBits := 8 * |input|;
    var writer := new BitWriter();
    SixteenFour();
    writer.EncodeBits(3, 0);
    var clen, outputBits, code := DataCode(input, freq);
    CodesFit(clen, code);
    CodesComplete(clen, code);
    s := Single(clen, [], 0, input);
    SingleDrafted(clen, [], 0, input);
    if outputBits + EFFICIENCY_BITS >= inputBits && !inefficient {
      EncodedEarly(input, offset, s);
      return Fail, s;
    }
    ghost var clclen, num;
    clclen, num := EncodePrefix(writer, clen);
    s := Single(clen, clclen, num, input);
    SingleDrafted(clen, clclen, num, input);
    SingleOk(clen, clclen, num, input);
    ghost var a, b, c := HighFirst(0, 3), PrefixBits(clen, clclen, num), CodeBits(clen, input);
    WholeBytes(writer, |a| + |b|);
    SingleWasteful(clen, clclen, num, input, offset);
    if outputBits + 8 * (offset + |writer.output|) + EFFICIENCY_BITS >= inputBits && !inefficient {
      EncodedLate(input, inefficient, offset, Fail, s);
      return Fail, s;
    }
    EncodeCodes(writer, input, clen, code, MAX_CODELEN);
    AppendThree([], a, b, c);
    assert [] + (a + (b + c)) == a + (b + c);
    writer.FlushBits();
    r := Ok(writer.output);
    EncodedLate(input, inefficient, offset, r, s);
    GivesCode(input, inefficient, offset, r, s);
  }

  lemma SingleWasteful(clen: seq<nat>, clclen: seq<nat>, num: nat, input: seq<byte>, offset: nat)
    requires |clen| == 256 && input != [] && Complete(clen, MAX_CODELEN) && Usable(clen, input) && PrefixOk(clen, clclen, num)
    ensures var s := Single(clen, clclen, num, input);
            && SectionOk(s) && DataSize(s) == |CodeBits(clen, input)| && ChoiceSize(s) == 0
            && BeforeSize(s) == |HighFirst(0, 3)| + |PrefixBits(clen, clclen, num)|
            && (Wasteful(s, offset) <==> DataSize(s) + 8 * (offset + BeforeSize(s) / 8) + EFFICIENCY_BITS >= 8 * |input|)
  {
    SingleOk(clen, clclen, num, input);
    SingleSection(clen, clclen, num, input);
    hide SectionOk, LengthBits, DataBits, HeadBits, SelectBits, PrefixBits, CodeBits, HighFirst, SectionBits;
  }

  // Lengths and codes of all data.
  method DataCode(input: seq<byte>, freq: seq<nat>) returns (clen: seq<nat>, outputBits: nat, code: seq<nat>)
    requires input != [] && |freq| == 256 && Counted(input, freq)
    ensures CodesOf(clen, code) && Usable(clen, input) && Within(input, 256) && outputBits == |CodeBits(clen, input)|
    ensures (forall x :: x in clen ==> x in ClenList()) && clen != []
  {
    hide Complete, Fib, Cost, CodeBits, Counted, ClenList, CodesUsed;
    SomeSeen(input, freq);
    LimitsEnough();
    clen, outputBits := BuildPrefix(freq, MAX_CODELEN);
    CompleteBound(clen, MAX_CODELEN);
    LengthsListed(clen);
    assert Within(input, 256);
    OccurUsable(input, freq, clen);
    CostIsSize(clen, freq, input);
    code := BuildCodes(clen);
  }

  lemma CodesComplete(clen: seq<nat>, code: seq<nat>)
    requires CodesOf(clen, code)
    ensures |clen| == 256 && Complete(clen, MAX_CODELEN)
  {
  }

  // djw_compute_selector_1_2, and the lengths and codes of what it gives.
  method SelectorCode(select: seq<nat>, groups: nat) returns (mtf: seq<nat>, gbclen: seq<nat>, gbcode: seq<nat>, selectBits: nat)
    requires 1 < groups <= MAX_GROUPS && select != [] && forall x :: x in select ==> x in Identity(groups)
    ensures mtf == Encode12(select, Identity(groups), 0) && SelectOk(groups, select, gbclen) && |gbcode| == |gbclen|
    ensures forall i :: 0 <= i < |gbclen| && gbclen[i] > 0 ==> gbcode[i] == Code(gbclen, i)
    ensures selectBits == |ChoiceBits(groups, select, gbclen)|
  {
    hide Encode12, Complete, Fib, Cost, CodeBits, Counted, CodesUsed;
    var grmtf := new nat[groups](i requires 0 <= i < groups => i);
    assert grmtf[..] == Identity(groups);
    var freq;
    mtf, freq := ComputeMtf12(select, grmtf, groups);
    SelectorCodes(select, groups, freq);
    LimitsEnough();
    assert Fib(groups) > 0;
    gbclen, selectBits := BuildPrefix(freq[..groups + 1], MAX_GBCLEN);
    CompleteBound(gbclen, MAX_GBCLEN);
    OccurUsable(mtf, freq[..groups + 1], gbclen);
    CostIsSize(gbclen, freq[..groups + 1], mtf);
    gbcode := BuildCodes(gbclen);
  }

  ghost predicate SomeOf(freq: seq<nat>) {
    exists i :: 0 <= i < |freq| && freq[i] > 0
  }

  // The codes of selectors are no more than the number of groups, and some occur.
  lemma SelectorCodes(select: seq<nat>, groups: nat, freq: seq<nat>)
    requires groups > 0 && select != [] && (forall x :: x in select ==> x in Identity(groups)) && |freq| == groups + 2
    requires Counted(Encode12(select, Identity(groups), 0), freq)
    ensures var codes := Encode12(select, Identity(groups), 0);
            Within(codes, groups + 1) && Counted(codes, freq[..groups + 1]) && SomeOf(freq[..groups + 1])
  {
    var codes := Encode12(select, Identity(groups), 0);
    CodesBound(select, Identity(groups), 0);
    hide Encode12, Identity;
    forall i | 0 <= i < |codes|
      ensures codes[i] < groups + 1
    {
      assert codes[i] in codes;
    }
    assert Counted(codes, freq[..groups + 1]) by {
      forall c | 0 <= c < groups + 1
        ensures freq[..groups + 1][c] == Occurrences(codes, c)
      {
        assert freq[c] == Occurrences(codes, c);
      }
    }
    SomeOccur(codes, freq[..groups + 1]);
  }

  ghost function Several(clens: seq<seq<nat>>, clclen: seq<nat>, num: nat, sector: nat, select: seq<nat>, gbclen: seq<nat>,
                         input: seq<byte>): Section {
    Section(clens, clclen, num, sector, select, gbclen, input)
  }

  // Group sizes that can be sent.
  predicate SectorSize(sector: nat) {
    0 < sector <= SECTORSZ_MAX && sector % SECTORSZ_MULT == 0
  }

  // What the search gives can be used.
  lemma EvolvedFacts(input: seq<byte>, seen: seq<nat>, sector: nat, clens: seq<seq<nat>>, select: seq<nat>, freqs: seq<seq<nat>>,
                     outputBits: nat)
    requires sector > 0 && Evolved(input, seen, sector, clens, select, freqs, outputBits) && |seen| == 256 && Counted(input, seen)
    ensures Codable(clens, select, Parts(input, sector)) && outputBits == |SectorBits(clens, select, Parts(input, sector))|
    ensures !Heavy(input) ==> ZerosAgree(clens)
    ensures forall g :: 0 <= g < |clens| ==> |clens[g]| == 256 && Complete(clens[g], MAX_CODELEN) && Usable(clens[g], input)
  {
    hide Codable, SectorBits, Parts, ZerosAgree, Counted, Complete, CodesUsed, Faked, Among, Fib;
    forall g | 0 <= g < |clens|
      ensures |clens[g]| == 256 && Complete(clens[g], MAX_CODELEN) && Usable(clens[g], input)
    {
      assert GroupCoded(seen, freqs[g], clens[g]);
      assert Within(input, 256);
      forall i {:trigger seen[i]} | 0 <= i < 256 && seen[i] > 0
        ensures clens[g][i] > 0
      {
        assert clens[g][i] >= 0;
      }
      OccurUsable(input, seen, clens[g]);
    }
  }

  // The symbols sent for the lengths of all groups come from the list.
  lemma MultiListed(clens: seq<seq<nat>>)
    requires Shaped(clens) && clens != [] && forall g :: 0 <= g < |clens| ==> Complete(clens[g], MAX_CODELEN)
    ensures var symbols := Multi(Concat(clens), 256 * |clens|); symbols != [] && forall x :: x in symbols ==> x in ClenList()
  {
    hide Complete, ClenList;
    var all := Concat(clens);
    MultiIn(all, |all|);
    forall x | x in Multi(all, |all|)
      ensures x in ClenList()
    {
      assert x in all;
      var k :| 0 <= k < |all| && all[k] == x;
      LengthsListed(clens[k / 256]);
      assert x in clens[k / 256];
    }
  }

  // A group for each sector.
  lemma SelectListed(clens: seq<seq<nat>>, select: seq<nat>, input: seq<byte>, sector: nat)
    requires sector > 0 && Codable(clens, select, Parts(input, sector)) && input != []
    ensures select != [] && forall x :: x in select ==> x in Identity(|clens|)
  {
    hide Parts;
    PartsSome(input, sector);
    forall x | x in select
      ensures x in Identity(|clens|)
    {
      var c :| 0 <= c < |select| && select[c] == x;
      assert Identity(|clens|)[x] == x;
    }
  }

  lemma PartsSome(input: seq<byte>, sector: nat)
    requires sector > 0 && input != []
    ensures Parts(input, sector) != []
  {
  }

  // Codes of all groups.
  method AllCodes(clens: seq<seq<nat>>) returns (codes: seq<seq<nat>>)
    requires forall g :: 0 <= g < |clens| ==> |clens[g]| == 256 && Complete(clens[g], MAX_CODELEN)
    ensures |codes| == |clens| && forall g :: 0 <= g < |clens| ==> CodesOf(clens[g], codes[g])
  {
    hide Kraft, Code;
    codes := [];
    for gp := 0 to |clens|
      invariant |codes| == gp && forall g :: 0 <= g < gp ==> CodesOf(clens[g], codes[g])
    {
      CompleteBound(clens[gp], MAX_CODELEN);
      var code := BuildCodes(clens[gp]);
      codes := codes + [code];
    }
  }

  lemma SeveralOk(clens: seq<seq<nat>>, clclen: seq<nat>, num: nat, sector: nat, select: seq<nat>, gbclen: seq<nat>, input: seq<byte>)
    requires 1 < |clens| <= MAX_GROUPS && input != [] && SectorSize(sector) && Codable(clens, select, Parts(input, sector))
    requires forall g :: 0 <= g < |clens| ==> |clens[g]| == 256 && Complete(clens[g], MAX_CODELEN) && Usable(clens[g], input)
    requires PrefixOk(Multi(Concat(clens), 256 * |clens|), clclen, num) && SelectOk(|clens|, select, gbclen)
    ensures var s := Several(clens, clclen, num, sector, select, gbclen, input);
            && SectionOk(s) && s.data == input && s.clens == clens && s.clclen == clclen && s.num == num
            && s.sector == sector && s.select == select && s.gbclen == gbclen
  {
    hide Complete, Usable, PrefixOk, SelectOk, Codable, Multi, Concat, Parts;
  }

  lemma SeveralBits(s: Section)
    requires SectionOk(s) && |s.clens| > 1
    ensures Shaped(s.clens) && s.sector >= SECTORSZ_MULT && SelectOk(|s.clens|, s.select, s.gbclen)
    ensures PrefixOk(Multi(Concat(s.clens), 256 * |s.clens|), s.clclen, s.num) && Codable(s.clens, s.select, Parts(s.data, s.sector))
    ensures LengthBits(s) == PrefixBits(Multi(Concat(s.clens), 256 * |s.clens|), s.clclen, s.num)
    ensures DataBits(s) == SectorBits(s.clens, s.select, Parts(s.data, s.sector))
    ensures HeadBits(|s.clens|, s.sector) == HighFirst(|s.clens| - 1, 3) + HighFirst(s.sector / SECTORSZ_MULT - 1, 5)
    ensures SelectBits(|s.clens|, s.select, s.gbclen) == NumberBits(s.gbclen, 3) + ChoiceBits(|s.clens|, s.select, s.gbclen)
    ensures SectionBits(s)
            == HeadBits(|s.clens|, s.sector) + (LengthBits(s) + (SelectBits(|s.clens|, s.select, s.gbclen) + DataBits(s)))
  {
    hide Complete, Usable, PrefixOk, SelectOk, Codable, Multi, Concat, Parts, SectorBits, NumberBits, HighFirst, PrefixBits, ChoiceBits;
    CodableShape(s.clens, s.select, Parts(s.data, s.sector));
  }

  lemma SeveralDrafted(clens: seq<seq<nat>>, sector: nat, select: seq<nat>, input: seq<byte>)
    requires sector > 0 && Codable(clens, select, Parts(input, sector))
    ensures var s := Several(clens, [], 0, sector, select, [], input);
            Drafted(s, input) && s.clens == clens && DataBits(s) == SectorBits(clens, select, Parts(input, sector))
  {
    hide Codable, Parts, SectorBits;
  }

  lemma SeveralWasteful(s: Section, offset: nat)
    requires SectionOk(s) && |s.clens| > 1
    ensures SelectOk(|s.clens|, s.select, s.gbclen) && ChoiceSize(s) == |ChoiceBits(|s.clens|, s.select, s.gbclen)|
    ensures s.sector > 0 && Codable(s.clens, s.select, Parts(s.data, s.sector)) && DataSize(s) == |DataBits(s)|
    ensures Wasteful(s, offset) <==>
              DataSize(s) + ChoiceSize(s) + 8 * (offset + BeforeSize(s) / 8) + EFFICIENCY_BITS >= 8 * |s.data|
  {
    SectionBasics(s);
    hide SectionOk, BeforeSize, DataBits, ChoiceBits, SelectOk, Codable, Parts;
  }

  // The selectors: the lengths of their codes as numbers, and the codes.
  method WriteSelectors(writer: BitWriter, select: seq<nat>, groups: nat) returns (selectBits: nat, ghost gbclen: seq<nat>)
    requires writer.Valid() && 1 < groups <= MAX_GROUPS && select != [] && forall x :: x in select ==> x in Identity(groups)
    modifies writer
    ensures writer.Valid() && SelectOk(groups, select, gbclen) && selectBits == |ChoiceBits(groups, select, gbclen)|
    ensures writer.bits == old(writer.bits) + NumberBits(gbclen, 3) + ChoiceBits(groups, select, gbclen)
  {
    var mtf, lengths, code, bits := SelectorCode(select, groups);
    gbclen, selectBits := lengths, bits;
    SelectFacts(groups, select, gbclen);
    hide *;
    EncodeNumbers(writer, lengths, 3);
    EncodeCodes(writer, mtf, lengths, code, MAX_GBCLEN);
    ChoiceIs(groups, select, gbclen);
  }

  lemma SelectFacts(groups: nat, select: seq<nat>, gbclen: seq<nat>)
    requires SelectOk(groups, select, gbclen)
    ensures |gbclen| == groups + 1 && Fits(gbclen, MAX_GBCLEN) && (forall x :: x in select ==> x in Identity(groups))
    ensures Usable(gbclen, Encode12(select, Identity(groups), 0))
    ensures forall i :: 0 <= i < |gbclen| ==> gbclen[i] < Power2(3)
  {
    SixteenFour();
    CompleteBound(gbclen, MAX_GBCLEN);
    CompleteFits(gbclen, MAX_GBCLEN);
    hide Complete, Encode12, Power2;
  }

  lemma ChoiceIs(groups: nat, select: seq<nat>, gbclen: seq<nat>)
    requires SelectOk(groups, select, gbclen)
    ensures (forall x :: x in select ==> x in Identity(groups)) && Within(Encode12(select, Identity(groups), 0), |gbclen|)
    ensures ChoiceBits(groups, select, gbclen) == CodeBits(gbclen, Encode12(select, Identity(groups), 0))
  {
    hide CodeBits, Encode12, Complete;
  }

  // xd3_encode_huff with several groups: there may be too many.
  method EncodeMany(input: seq<byte>, freq: seq<nat>, groups: nat, sector: nat, inefficient: bool, offset: nat)
    returns (regroup: bool, r: Result<seq<byte>>, ghost s: Section)
    requires input != [] && |freq| == 256 && Counted(input, freq) && 1 < groups <= MAX_GROUPS && SectorSize(sector)
    ensures inefficient ==> !regroup
    ensures !regroup ==> EncodedAs(input, inefficient, offset, r, s)
  {
    hide *;
    var inputBits := 8 * |input|;
    regroup, s := false, Section([], [], 0, 0, [], [], []);
    SizesFit(groups, sector);
    CountTotal(input, freq);
    var writer := new BitWriter();
    writer.EncodeBits(3, groups - 1);
    writer.EncodeBits(5, sector / SECTORSZ_MULT - 1);
    var ok, clens := InitialLengths(freq, groups, |input|, inefficient);
    if !ok {
      return true, Fail, s;
    }
    var select, outputBits;
    ghost var freqs;
    clens, select, outputBits, freqs := Evolve(input, freq, sector, clens);
    EvolvedFacts(input, freq, sector, clens, select, freqs, outputBits);
    ghost var parts := Parts(input, sector);
    CodableShape(clens, select, parts);
    s := Several(clens, [], 0, sector, select, [], input);
    SeveralDrafted(clens, sector, select, input);
    if outputBits + EFFICIENCY_BITS >= inputBits && !inefficient {
      EncodedEarly(input, offset, s);
      return false, Fail, s;
    }
    MultiListed(clens);
    SelectListed(clens, select, input, sector);
    var symbols := ComputeMultiPrefix(clens);
    ghost var clclen, num, gbclen;
    var selectBits;
    clclen, num := EncodePrefix(writer, symbols);
    selectBits, gbclen := WriteSelectors(writer, select, groups);
    s := Several(clens, clclen, num, sector, select, gbclen, input);
    SeveralOk(clens, clclen, num, sector, select, gbclen, input);
    SeveralBits(s);
    ghost var before := Written(s);
    WrittenIs(s, writer.bits);
    WholeBytes(writer, |before|);
    SeveralWasteful(s, offset);
    if outputBits + selectBits + 8 * (offset + |writer.output|) + EFFICIENCY_BITS >= inputBits && !inefficient {
      EncodedLate(input, inefficient, offset, Fail, s);
      return false, Fail, s;
    }
    WriteData(writer, input, sector, select, clens);
    writer.FlushBits();
    r := Ok(writer.output);
    WrittenAll(s);
    EncodedLate(input, inefficient, offset, r, s);
  }

  lemma SizesFit(groups: nat, sector: nat)
    requires 1 < groups <= MAX_GROUPS && SectorSize(sector)
    ensures 0 < sector && sector >= SECTORSZ_MULT == 5 && groups - 1 < Power2(3) && sector / SECTORSZ_MULT - 1 < Power2(5)
    ensures |HighFirst(groups - 1, 3)| == 3
  {
    SixteenFour();
    assert Power2(5) == 2 * Power2(4);
  }

  // What is written before the data.
  ghost function Written(s: Section): seq<bool>
    requires SectionOk(s) && |s.clens| > 1
  {
    HeadBits(|s.clens|, s.sector) + LengthBits(s) + SelectBits(|s.clens|, s.select, s.gbclen)
  }

  lemma WrittenIs(s: Section, bits: seq<bool>)
    requires SectionOk(s) && |s.clens| > 1
    ensures Shaped(s.clens) && s.sector >= SECTORSZ_MULT && SelectOk(|s.clens|, s.select, s.gbclen)
    ensures PrefixOk(Multi(Concat(s.clens), 256 * |s.clens|), s.clclen, s.num)
    ensures bits == [] + HighFirst(|s.clens| - 1, 3) + HighFirst(s.sector / SECTORSZ_MULT - 1, 5)
                    + PrefixBits(Multi(Concat(s.clens), 256 * |s.clens|), s.clclen, s.num) + NumberBits(s.gbclen, 3)
                    + ChoiceBits(|s.clens|, s.select, s.gbclen) ==>
              bits == Written(s)
    ensures |Written(s)| == BeforeSize(s)
  {
    SeveralBits(s);
    hide SectionOk, HeadBits, LengthBits, SelectBits, ChoiceBits, NumberBits, HighFirst, PrefixBits, Multi, Concat, SelectOk, PrefixOk, Shaped;
    FiveTogether(HighFirst(|s.clens| - 1, 3), HighFirst(s.sector / SECTORSZ_MULT - 1, 5),
                 PrefixBits(Multi(Concat(s.clens), 256 * |s.clens|), s.clclen, s.num), NumberBits(s.gbclen, 3),
                 ChoiceBits(|s.clens|, s.select, s.gbclen));
  }

  lemma FiveTogether(a: seq<bool>, b: seq<bool>, c: seq<bool>, d: seq<bool>, e: seq<bool>)
    ensures [] + a + b + c + d + e == a + b + c + (d + e)
  {
  }

  lemma WrittenAll(s: Section)
    requires SectionOk(s) && |s.clens| > 1
    ensures Written(s) + DataBits(s) == SectionBits(s)
  {
    SeveralBits(s);
    hide SectionOk, HeadBits, LengthBits, SelectBits, DataBits, SectionBits;
    AppendThree(HeadBits(|s.clens|, s.sector), LengthBits(s), SelectBits(|s.clens|, s.select, s.gbclen), DataBits(s));
  }

  method WriteData(writer: BitWriter, input: seq<byte>, sector: nat, select: seq<nat>, clens: seq<seq<nat>>)
    requires writer.Valid() && sector > 0 && Codable(clens, select, Parts(input, sector))
    requires forall g :: 0 <= g < |clens| ==> |clens[g]| == 256 && Complete(clens[g], MAX_CODELEN) && Usable(clens[g], input)
    modifies writer
    ensures writer.Valid() && writer.bits == old(writer.bits) + SectorBits(clens, select, Parts(input, sector))
  {
    hide Complete, Usable, SectorBits, Parts, CodesOf, BitWriter.Valid;
    var codes := AllCodes(clens);
    var parts := Parts(input, sector);
    forall c {:trigger parts[c]} | 0 <= c < |parts|
      ensures Usable(clens[select[c]], parts[c])
    {
      UsableParts(clens[select[c]], input, sector, c);
    }
    EncodeSectors(writer, parts, select, clens, codes);
  }

  // ---------- xd3_encode_howmany_groups ----------

  datatype DataType = DataSection | InstSection | AddrSection

  datatype SecCfg = SecCfg(dataType: DataType, ngroups: nat, sectorSize: nat, inefficient: bool)

  function Suggested(dataType: DataType, size: nat): (nat, nat) {
    match dataType
    case DataSection =>
      if size < 1000 then (1, 0) else if size < 4000 then (2, 10) else if size < 7000 then (3, 10)
      else if size < 10000 then (4, 10) else if size < 25000 then (5, 10) else if size < 50000 then (7, 20)
      else if size < 100000 then (8, 30) else (8, 70)
    case InstSection =>
      if size < 7000 then (1, 0) else if size < 10000 then (2, 50) else if size < 25000 then (3, 50)
      else if size < 50000 then (6, 40) else (8, 40)
    case AddrSection =>
      if size < 9000 then (1, 0) else if size < 25000 then (2, 130) else if size < 50000 then (3, 130)
      else if size < 100000 then (5, 130) else (7, 130)
  }

  function DefaultSector(dataType: DataType): nat {
    match dataType
    case DataSection => 20
    case InstSection => 50
    case AddrSection => 130
  }

  // Sizes that can be sent, whatever is configured and however much data there is.
  function HowManyGroups(cfg: SecCfg, size: nat): (r: Result<(nat, nat)>)
    ensures r.Ok? ==> 1 <= r.value.0 <= MAX_GROUPS && (r.value.0 == 1 || SectorSize(r.value.1))
    ensures r.Fail? <==> cfg.ngroups > MAX_GROUPS || (cfg.sectorSize != 0 && !SectorSize(cfg.sectorSize))
  {
    if cfg.ngroups > MAX_GROUPS then Fail
    else if cfg.sectorSize != 0
            && (cfg.sectorSize < SECTORSZ_MULT || cfg.sectorSize > SECTORSZ_MAX || cfg.sectorSize % SECTORSZ_MULT != 0) then Fail
    else
      var sugg := if cfg.ngroups == 0 || cfg.sectorSize == 0 then Suggested(cfg.dataType, size) else (0, 0);
      var groups := if cfg.ngroups == 0 then sugg.0 else cfg.ngroups;
      var sector := if cfg.sectorSize == 0 then sugg.1 else cfg.sectorSize;
      Ok((groups, if groups != 1 && sector == 0 then DefaultSector(cfg.dataType) else sector))
  }

  // xd3_encode_huff: with one group fewer as long as there are too many.
  method EncodeHuff(input: seq<byte>, cfg: SecCfg, offset: nat) returns (r: Result<seq<byte>>, ghost s: Section)
    requires input != []
    ensures HowManyGroups(cfg, |input|).Fail? ==> r.Fail?
    ensures HowManyGroups(cfg, |input|).Ok? && cfg.inefficient ==> r.Ok?
    ensures r.Ok? ==> Codes(input, r.value)
    ensures HowManyGroups(cfg, |input|).Ok? ==> EncodedAs(input, cfg.inefficient, offset, r, s)
    ensures HowManyGroups(cfg, |input|).Ok? && HowManyGroups(cfg, |input|).value.0 == 1 ==> |s.clens| == 1
  {
    hide Counted, EncodedAs, Codes;
    s := Section([], [], 0, 0, [], [], []);
    var freq := CountFreqs(input);
    var sizes := HowManyGroups(cfg, |input|);
    if sizes.Fail? {
      return Fail, s;
    }
    var groups, sector := sizes.value.0, sizes.value.1;
    while groups > 1
      invariant 1 <= groups <= MAX_GROUPS && (groups > 1 ==> SectorSize(sector))
    {
      var regroup;
      regroup, r, s := EncodeMany(input, freq, groups, sector, cfg.inefficient, offset);
      if !regroup {
        GivesCode(input, cfg.inefficient, offset, r, s);
        return;
      }
      groups := groups - 1;
    }
    r, s := EncodeOne(input, freq, cfg.inefficient, offset);
  }

  // ---------- decoding ----------

  lemma FindWider(list: seq<nat>, x: nat, sym: nat)
    requires sym in list
    ensures sym in list + [x] && Find(list + [x], sym) == Find(list, sym)
  {
    var j, k := Find(list, sym), Find(list + [x], sym);
    assert (list + [x])[j] == list[j] == sym;
    assert k <= j && list[k] == sym;
  }

  lemma ToFrontWider(list: seq<nat>, x: nat, j: nat)
    requires j < |list|
    ensures ToFront(list + [x], j) == ToFront(list, j) + [x]
  {
    var wide := list + [x];
    assert wide[..j] == list[..j] && wide[j + 1..] == list[j + 1..] + [x];
  }

  lemma EncodeNone(list: seq<nat>, run: nat)
    ensures Encode12([], list, run) == RunCode(run)
  {
  }

  lemma EncodeFirst(symbols: seq<nat>, list: seq<nat>, run: nat)
    requires symbols != [] && forall y :: y in symbols ==> y in list
    ensures var j := Find(list, symbols[0]);
            Encode12(symbols, list, run)
            == if j == 0 then Encode12(symbols[1..], list, run + 1)
               else RunCode(run) + [j + 1] + Encode12(symbols[1..], ToFront(list, j), 0)
  {
  }

  // A longer list gives the same codes.
  lemma {:induction false} EncodeWider(symbols: seq<nat>, list: seq<nat>, x: nat, run: nat)
    requires forall y :: y in symbols ==> y in list
    ensures (forall y :: y in symbols ==> y in list + [x]) && Encode12(symbols, list + [x], run) == Encode12(symbols, list, run)
    decreases |symbols|
  {
    hide ToFront, Find, RunCode, Encode12;
    if symbols == [] {
      EncodeNone(list, run);
      EncodeNone(list + [x], run);
    } else {
      FindWider(list, x, symbols[0]);
      EncodeFirst(symbols, list, run);
      EncodeFirst(symbols, list + [x], run);
      var j := Find(list, symbols[0]);
      if j == 0 {
        EncodeWider(symbols[1..], list, x, run + 1);
      } else {
        ToFrontWider(list, x, j);
        EncodeWider(symbols[1..], ToFront(list, j), x, 0);
      }
    }
  }

  lemma SelectWider(groups: nat, select: seq<nat>, gbclen: seq<nat>, t: Table)
    requires SelectOk(groups, select, gbclen) && TableFor(t, gbclen) && groups <= MAX_GROUPS
    ensures Sends(t, gbclen, MAX_GBCLEN, TOTAL_CODES, select, Identity(groups + 1), 0)
    ensures (forall x :: x in select ==> x in Identity(groups + 1)) && Within(Encode12(select, Identity(groups + 1), 0), |gbclen|)
    ensures ChoiceBits(groups, select, gbclen) == CodeBits(gbclen, Encode12(select, Identity(groups + 1), 0))
  {
    assert Identity(groups + 1) == Identity(groups) + [groups];
    EncodeWider(select, Identity(groups), groups, 0);
    SelectFacts(groups, select, gbclen);
    ChoiceIs(groups, select, gbclen);
    hide Encode12, Identity, TableFor, Fits, SelectOk, Power2;
  }

  // The selectors of xd3_decode_huff.
  method DecodeSelectors(reader: BitReader, groups: nat, sectors: nat, ghost select: seq<nat>, ghost gbclen: seq<nat>, ghost rest: seq<bool>)
    returns (r: Result<seq<nat>>)
    requires reader.Valid() && 1 < groups <= MAX_GROUPS
    modifies reader
    ensures reader.Valid() && (r.Ok? ==> |r.value| == sectors)
    ensures SelectOk(groups, select, gbclen) && |select| == sectors && old(reader.Rest()) == SelectBits(groups, select, gbclen) + rest ==>
              r == Ok(select) && reader.Rest() == rest
              && reader.Used() == old(reader.Used()) + |SelectBits(groups, select, gbclen)|
  {
    hide *;
    ghost var given, before := reader.Rest(), reader.Used();
    ghost var good := SelectOk(groups, select, gbclen) && |select| == sectors && given == SelectBits(groups, select, gbclen) + rest;
    if good {
      SelectorsFront(groups, select, gbclen, given, rest);
    }
    var selClen := DecodeNumbers(reader, groups + 1, 3);
    NumbersRead(given, groups + 1);
    if selClen.Fail? {
      return Fail;
    }
    var t := BuildDecoder(selClen.value, MAX_GBCLEN);
    TableShape(t, selClen.value);
    var selMtf := Indices(groups + 1);
    ghost var now, at := reader.Rest(), reader.Used();
    r := DecodeOneTwo(reader, t, selMtf, sectors, 0, groups, select);
    ghost var c := Course(now, Identity(groups + 1), sectors, 0, select, groups);
    FilledBound(c, t, r, reader.Rest(), reader.Used() - at);
    if good {
      SelectWider(groups, select, gbclen, t);
      SymbolsRead(t, gbclen, MAX_GBCLEN, select, Identity(groups + 1), rest);
      SelectorsBack(c, t, ChoiceBits(groups, select, gbclen), rest, r, reader.Rest(), reader.Used() - at);
    }
  }

  method Indices(n: nat) returns (list: array<nat>)
    requires 0 < n
    ensures fresh(list) && list.Length == n && list[..] == Identity(n) && AtMost(list[..], n - 1)
  {
    list := new nat[n](i requires 0 <= i < n => i);
    assert list[..] == Identity(n);
  }

  lemma NumbersRead(bits: seq<bool>, count: nat)
    ensures var x := ReadNumbers(bits, count, 3);
            x.Ok? ==> |x.value.values| == count && forall i :: 0 <= i < count ==> x.value.values[i] <= MAX_GBCLEN
    ensures MAX_GBCLEN <= MAX_CODELEN
  {
    NumbersBelow(bits, count, 3);
    SixteenFour();
    hide ReadNumbers, Power2;
  }

  lemma SelectorsFront(groups: nat, select: seq<nat>, gbclen: seq<nat>, given: seq<bool>, rest: seq<bool>)
    requires 1 < groups && SelectOk(groups, select, gbclen) && given == SelectBits(groups, select, gbclen) + rest
    ensures |gbclen| == groups + 1
    ensures ReadNumbers(given, groups + 1, 3) == Ok(Values(gbclen, |NumberBits(gbclen, 3)|))
    ensures given[|NumberBits(gbclen, 3)|..] == ChoiceBits(groups, select, gbclen) + rest
    ensures |SelectBits(groups, select, gbclen)| == |NumberBits(gbclen, 3)| + |ChoiceBits(groups, select, gbclen)|
  {
    hide SelectOk, NumberBits, ChoiceBits, ReadNumbers, Power2;
    SelectFacts(groups, select, gbclen);
    var a, b := NumberBits(gbclen, 3), ChoiceBits(groups, select, gbclen);
    Associate(a, b, rest);
    ReadNumbersBack(gbclen, 3, b + rest);
    assert (a + (b + rest))[|a|..] == b + rest;
  }

  lemma SelectorsBack(c: Course, t: Table, codes: seq<bool>, rest: seq<bool>, r: Result<seq<nat>>, left: seq<bool>, used: int)
    requires Filled(c, t, r, left, used) && c.list != [] && c.rest == codes + rest && c.skip == 0 && |c.all| == c.elts
    requires Goal(t, codes + rest, c.list, |c.all|) == Ok(Values(c.all, |codes|))
    ensures r == Ok(c.all) && left == rest && used == |codes|
  {
    SentAll(c.all, |c.all|);
    assert c.all[..|c.all|] == c.all;
    hide AtMost, Goal, Sent;
    assert SkipsZeros(c.all, 0);
    assert c.Right(t);
    assert (codes + rest)[|codes|..] == rest;
  }

  lemma {:induction false} SentAll(all: seq<nat>, n: nat)
    requires n <= |all|
    ensures Sent(all, 0, n) == all[..n]
  {
    if n > 0 {
      SentAll(all, n - 1);
    }
  }

  // The lengths of the groups, cut from those of all.
  function Cut(all: seq<nat>, groups: nat): (clens: seq<seq<nat>>)
    requires |all| == 256 * groups
    ensures |clens| == groups && Shaped(clens)
  {
    seq(groups, g requires 0 <= g < groups => all[256 * g..256 * g + 256])
  }

  lemma CutConcat(clens: seq<seq<nat>>)
    requires Shaped(clens)
    ensures Cut(Concat(clens), |clens|) == clens
  {
    var all := Concat(clens);
    forall g | 0 <= g < |clens|
      ensures all[256 * g..256 * g + 256] == clens[g]
    {
      var part := all[256 * g..256 * g + 256];
      forall i | 0 <= i < 256
        ensures part[i] == clens[g][i]
      {
        assert (256 * g + i) / 256 == g && (256 * g + i) % 256 == i;
      }
    }
  }

  lemma ConcatCut(all: seq<nat>, groups: nat)
    requires |all| == 256 * groups
    ensures Concat(Cut(all, groups)) == all
  {
    var clens := Cut(all, groups);
    forall k | 0 <= k < |all|
      ensures Concat(clens)[k] == all[k]
    {
      assert clens[k / 256] == all[256 * (k / 256)..256 * (k / 256) + 256];
    }
  }

  // The lengths of the groups. They are restored, and what follows is left to be read,
  // exactly if zeros agree in all groups.
  method DecodeGroups(reader: BitReader, groups: nat, ghost clens: seq<seq<nat>>, ghost clclen: seq<nat>, ghost num: nat,
                      ghost rest: seq<bool>)
    returns (r: Result<seq<seq<nat>>>)
    requires reader.Valid() && groups > 0
    modifies reader
    ensures reader.Valid() && (r.Ok? ==> |r.value| == groups && forall g :: 0 <= g < groups ==> Lengths(r.value[g]))
    ensures Shaped(clens) && |clens| == groups && PrefixOk(Multi(Concat(clens), 256 * groups), clclen, num)
            && old(reader.Rest()) == PrefixBits(Multi(Concat(clens), 256 * groups), clclen, num) + rest ==>
              && (r == Ok(clens) && reader.Rest() == rest <==> ZerosAgree(clens))
              && (ZerosAgree(clens) ==>
                    reader.Used() == old(reader.Used()) + |PrefixBits(Multi(Concat(clens), 256 * groups), clclen, num)|)
  {
    hide *;
    ghost var given, before := reader.Rest(), reader.Used();
    ghost var all := if Shaped(clens) && |clens| == groups then Concat(clens) else Repeat(0, 256 * groups);
    var values := DecodePrefix(reader, groups, Multi(all, 256 * groups), clclen, num, all, rest);
    r := Fail;
    if values.Ok? {
      CutLengths(values.value, groups);
      r := Ok(Cut(values.value, groups));
    }
    if Shaped(clens) && |clens| == groups && PrefixOk(Multi(all, 256 * groups), clclen, num)
       && given == PrefixBits(Multi(all, 256 * groups), clclen, num) + rest {
      GroupsExactly(clens, rest, values, reader.Rest(),
                    reader.Used() - before - |PrefixBits(Multi(all, 256 * groups), clclen, num)|);
    }
  }

  lemma GroupsExactly(clens: seq<seq<nat>>, rest: seq<bool>, values: Result<seq<nat>>, left: seq<bool>, beyond: int)
    requires Shaped(clens) && PrefixRead(Multi(Concat(clens), 256 * |clens|), Concat(clens), rest, values, left, beyond)
    requires values.Ok? ==> |values.value| == 256 * |clens|
    ensures values.Ok? && Cut(values.value, |clens|) == clens && left == rest <==> ZerosAgree(clens)
    ensures ZerosAgree(clens) ==> beyond == 0
  {
    RestorableIff(Concat(clens));
    AgreeIsFlat(clens);
    CutConcat(clens);
    if values.Ok? {
      ConcatCut(values.value, |clens|);
    }
    hide Cut, Concat, Multi, ZerosAgree, Restorable, FlatAgree;
  }

  // Code lengths a table can be built for.
  ghost predicate Lengths(clen: seq<nat>) {
    |clen| == 256 && forall i :: 0 <= i < |clen| ==> clen[i] <= MAX_CODELEN
  }

  lemma CutLengths(all: seq<nat>, groups: nat)
    requires |all| == 256 * groups && AtMost(all, MAX_CODELEN)
    ensures forall g :: 0 <= g < groups ==> Lengths(Cut(all, groups)[g])
  {
  }

  // A table for each group.
  method BuildTables(clens: seq<seq<nat>>) returns (tables: seq<Table>)
    requires forall g :: 0 <= g < |clens| ==> Lengths(clens[g])
    ensures |tables| == |clens| && forall g :: 0 <= g < |clens| ==> TableFor(tables[g], clens[g])
  {
    hide TableFor;
    tables := [];
    for gp := 0 to |clens|
      invariant |tables| == gp && forall g :: 0 <= g < gp ==> TableFor(tables[g], clens[g])
    {
      assert Lengths(clens[gp]);
      var t := BuildDecoder(clens[gp], MAX_CODELEN);
      tables := tables + [t];
    }
  }

  // Sectors still to come.
  ghost predicate Ahead(left: nat, size: nat, sector: nat) {
    sector > 0 && left == if size == 0 then 0 else SectorCount(size, sector)
  }

  lemma AheadNext(left: nat, size: nat, sector: nat)
    requires Ahead(left, size, sector) && left > 0
    ensures size > 0 && Ahead(left - 1, size - Min(sector, size), sector)
  {
    if size <= sector {
      OneSector(size, sector);
    } else {
      MoreSectors(size, sector);
    }
    hide SectorCount;
  }

  // The data still to come is coded in the bits that are left.
  ghost predicate Coming(clens: seq<seq<nat>>, select: seq<nat>, data: seq<byte>, sector: nat, left: seq<bool>, rest: seq<bool>) {
    && sector > 0 && Codable(clens, select, Parts(data, sector))
    && (forall g {:trigger clens[g]} :: 0 <= g < |clens| ==> Fits(clens[g], MAX_CODELEN) && Usable(clens[g], data))
    && left == SectorBits(clens, select, Parts(data, sector)) + rest
  }

  lemma ComingNext(clens: seq<seq<nat>>, select: seq<nat>, data: seq<byte>, sector: nat, left: seq<bool>, rest: seq<bool>, t: Table)
    requires Coming(clens, select, data, sector, left, rest) && data != [] && select != []
    requires select[0] < |clens| ==> TableFor(t, clens[select[0]])
    ensures select[0] < |clens| && Shaped(clens)
    ensures var n := Min(sector, |data|);
            var clen := clens[select[0]];
            && Within(data[..n], |clen|)
            && ReadSymbols(t, 256, left, n) == Ok(Values(data[..n], |CodeBits(clen, data[..n])|))
            && |CodeBits(clen, data[..n])| <= |left|
            && Coming(clens, select[1..], data[n..], sector, left[|CodeBits(clen, data[..n])|..], rest)
  {
    hide Fits, Usable, TableFor, ReadSymbols, CodeBits;
    var n := Min(sector, |data|);
    var parts := Parts(data, sector);
    assert parts[0] == data[..n] && parts[1..] == Parts(data[n..], sector);
    CodableTail(clens, select, parts);
    var clen := clens[select[0]];
    var a, b := CodeBits(clen, data[..n]), SectorBits(clens, select[1..], parts[1..]);
    Associate(a, b, rest);
    assert left == a + (b + rest) && left[|a|..] == b + rest;
    forall g {:trigger clens[g]} | 0 <= g < |clens|
      ensures Usable(clens[g], data[n..]) && Usable(clens[g], data[..n])
    {
      UsableSlices(clens[g], data, n);
    }
    ReadsData(t, clen, MAX_CODELEN, 256, data[..n], b + rest);
  }

  lemma CodableTail(clens: seq<seq<nat>>, select: seq<nat>, parts: seq<seq<byte>>)
    requires Codable(clens, select, parts) && select != []
    ensures select[0] < |clens| && |clens[select[0]]| == 256 && Codable(clens, select[1..], parts[1..])
  {
    forall c {:trigger select[1..][c]} | 0 <= c < |select| - 1
      ensures select[1..][c] < |clens|
    {
      assert select[c + 1] < |clens|;
    }
  }

  lemma UsableSlices(clen: seq<nat>, data: seq<byte>, n: nat)
    requires |clen| == 256 && Usable(clen, data) && n <= |data|
    ensures Usable(clen, data[..n]) && Usable(clen, data[n..])
  {
    forall i {:trigger data[n..][i]} | 0 <= i < |data| - n
      ensures clen[data[n..][i]] > 0
    {
      assert clen[data[n + i]] > 0;
    }
    forall i {:trigger data[..n][i]} | 0 <= i < n
      ensures clen[data[..n][i]] > 0
    {
      assert clen[data[i]] > 0;
    }
  }

  // One sector, with its group.
  method DecodeSector(reader: BitReader, tables: seq<Table>, g: nat, n: nat, ghost clens: seq<seq<nat>>, ghost select: seq<nat>,
                      ghost data: seq<byte>, ghost sector: nat, ghost rest: seq<bool>, ghost good: bool)
    returns (part: Result<seq<byte>>)
    requires reader.Valid() && |tables| == |clens|
    requires forall g :: 0 <= g < |clens| ==> TableFor(tables[g], clens[g]) && |clens[g]| == 256
    requires good ==>
               && Coming(clens, select, data, sector, reader.Rest(), rest) && data != [] && select != [] && select[0] == g
               && n == if sector < |data| then sector else |data|
    modifies reader
    ensures reader.Valid() && (part.Ok? ==> |part.value| == n)
    ensures good ==>
              && n <= |data| && part == Ok(data[..n]) && Coming(clens, select[1..], data[n..], sector, reader.Rest(), rest)
              && reader.Used() + |reader.Rest()| == old(reader.Used() + |reader.Rest()|)
  {
    hide *;
    if good {
      ComingGroup(clens, select, data, sector, reader.Rest(), rest);
      ComingNext(clens, select, data, sector, reader.Rest(), rest, tables[g]);
      MinIs(sector, |data|);
    }
    if g >= |tables| {
      return Fail;
    }
    TableShape(tables[g], clens[g]);
    part := DecodeData(reader, tables[g], n, clens[g]);
  }

  lemma MinIs(a: nat, b: nat)
    ensures Min(a, b) == if a < b then a else b
  {
  }

  lemma ComingGroup(clens: seq<seq<nat>>, select: seq<nat>, data: seq<byte>, sector: nat, left: seq<bool>, rest: seq<bool>)
    requires Coming(clens, select, data, sector, left, rest) && select != []
    ensures select[0] < |clens|
  {
    hide Fits, Usable, Parts, SectorBits;
  }

  // The data of all sectors.
  method DecodeSectors(reader: BitReader, tables: seq<Table>, select: seq<nat>, sector: nat, size: nat,
                       ghost clens: seq<seq<nat>>, ghost data: seq<byte>, ghost rest: seq<bool>)
    returns (output: Result<seq<byte>>)
    requires reader.Valid() && sector > 0 && size > 0 && |select| == SectorCount(size, sector) && |tables| == |clens|
    requires forall g :: 0 <= g < |clens| ==> TableFor(tables[g], clens[g]) && |clens[g]| == 256
    modifies reader
    ensures reader.Valid() && (output.Ok? ==> |output.value| == size)
    ensures Coming(clens, select, data, sector, old(reader.Rest()), rest) && |data| == size ==>
              output == Ok(data) && reader.Used() == old(reader.Used()) + |old(reader.Rest())| - |rest|
  {
    hide *;
    ghost var good := Coming(clens, select, data, sector, reader.Rest(), rest) && |data| == size;
    ghost var at, left := reader.Used() + |reader.Rest()|, data;
    AheadStart(|select|, size, sector);
    GoingStart(good, clens, select, data, sector, reader.Rest(), rest, size);
    var got: seq<byte> := [];
    for c := 0 to |select|
      invariant reader.Valid() && |got| <= size && Ahead(|select| - c, size - |got|, sector)
      invariant good ==> reader.Used() + |reader.Rest()| == at
      invariant Going(good, clens, select, c, data, left, sector, reader.Rest(), rest, got, size)
    {
      AheadNext(|select| - c, size - |got|, sector);
      MinIs(sector, size - |got|);
      GoingNow(good, clens, select, c, data, left, sector, reader.Rest(), rest, got, size);
      var n := if sector < size - |got| then sector else size - |got|;
      var part := DecodeSector(reader, tables, select[c], n, clens, select[c..], left, sector, rest, good);
      if part.Fail? {
        return Fail;
      }
      GoingNext(good, clens, select, c, data, left, sector, reader.Rest(), rest, got, size, part.value);
      left := if good then left[n..] else [];
      got := got + part.value;
    }
    AheadEnd(size - |got|, sector);
    output := Ok(got);
    GoingEnd(good, clens, select, data, left, sector, reader.Rest(), rest, got, size);
  }

  // If all is as it should be, what was got and what is left make the data.
  ghost predicate Going(good: bool, clens: seq<seq<nat>>, select: seq<nat>, c: nat, data: seq<byte>, left: seq<byte>, sector: nat,
                        bits: seq<bool>, rest: seq<bool>, got: seq<byte>, size: nat) {
    c <= |select| && (good ==> got + left == data && |data| == size && Coming(clens, select[c..], left, sector, bits, rest))
  }

  lemma GoingStart(good: bool, clens: seq<seq<nat>>, select: seq<nat>, data: seq<byte>, sector: nat, bits: seq<bool>,
                   rest: seq<bool>, size: nat)
    requires good ==> Coming(clens, select, data, sector, bits, rest) && |data| == size
    ensures Going(good, clens, select, 0, data, data, sector, bits, rest, [], size)
  {
    hide Coming;
    assert select[0..] == select && [] + data == data;
  }

  lemma GoingNow(good: bool, clens: seq<seq<nat>>, select: seq<nat>, c: nat, data: seq<byte>, left: seq<byte>, sector: nat,
                 bits: seq<bool>, rest: seq<bool>, got: seq<byte>, size: nat)
    requires Going(good, clens, select, c, data, left, sector, bits, rest, got, size) && c < |select| && |got| < size
    ensures select[c..] != [] && select[c..][0] == select[c]
    ensures good ==> left != [] && |left| == size - |got| && Coming(clens, select[c..], left, sector, bits, rest)
    ensures good ==> |data| == size && got + left == data
  {
    hide Coming;
  }

  lemma GoingNext(good: bool, clens: seq<seq<nat>>, select: seq<nat>, c: nat, data: seq<byte>, left: seq<byte>, sector: nat,
                  bits: seq<bool>, rest: seq<bool>, got: seq<byte>, size: nat, part: seq<byte>)
    requires c < |select| && (good ==> |data| == size && got + left == data)
    requires good ==> |part| <= |left| && part == left[..|part|] && Coming(clens, select[c..][1..], left[|part|..], sector, bits, rest)
    ensures Going(good, clens, select, c + 1, data, if good then left[|part|..] else [], sector, bits, rest, got + part, size)
  {
    hide Coming;
    assert select[c..][1..] == select[c + 1..];
    if good {
      assert got + part + left[|part|..] == got + left;
    }
  }

  lemma GoingEnd(good: bool, clens: seq<seq<nat>>, select: seq<nat>, data: seq<byte>, left: seq<byte>, sector: nat,
                 bits: seq<bool>, rest: seq<bool>, got: seq<byte>, size: nat)
    requires Going(good, clens, select, |select|, data, left, sector, bits, rest, got, size) && |got| == size
    ensures good ==> got == data && bits == rest
  {
    if good {
      assert left == [];
      ComingEnd(clens, select[|select|..], left, sector, bits, rest);
      assert got + [] == got;
    }
    hide Coming;
  }

  lemma AheadStart(left: nat, size: nat, sector: nat)
    requires sector > 0 && size > 0 && left == SectorCount(size, sector)
    ensures Ahead(left, size, sector)
  {
    hide SectorCount;
  }

  lemma AheadEnd(size: nat, sector: nat)
    requires Ahead(0, size, sector)
    ensures size == 0
  {
  }

  lemma ComingEnd(clens: seq<seq<nat>>, select: seq<nat>, data: seq<byte>, sector: nat, left: seq<bool>, rest: seq<bool>)
    requires Coming(clens, select, data, sector, left, rest) && data == []
    ensures left == rest
  {
    hide Fits, Usable;
    assert Parts(data, sector) == [];
    assert [] + rest == rest;
  }

  // ---------- a section read back ----------

  // The bits begin with those of the section.
  ghost predicate Begins(bits: seq<bool>, s: Section, size: nat) {
    SectionOk(s) && |s.data| == size && |SectionBits(s)| <= |bits| && bits[..|SectionBits(s)|] == SectionBits(s)
  }

  ghost function AfterHead(s: Section, tail: seq<bool>): seq<bool>
    requires SectionOk(s)
  {
    LengthBits(s) + AfterLengths(s, tail)
  }

  ghost function AfterLengths(s: Section, tail: seq<bool>): seq<bool>
    requires SectionOk(s)
  {
    SelectBits(|s.clens|, s.select, s.gbclen) + (DataBits(s) + tail)
  }

  lemma SectionSplit(bits: seq<bool>, s: Section, size: nat) returns (tail: seq<bool>)
    requires Begins(bits, s, size)
    ensures 0 < |s.clens| && (|s.clens| > 1 ==> s.sector >= SECTORSZ_MULT && SelectOk(|s.clens|, s.select, s.gbclen))
    ensures bits == HeadBits(|s.clens|, s.sector) + AfterHead(s, tail)
    ensures |SectionBits(s)|
            == |HeadBits(|s.clens|, s.sector)| + |LengthBits(s)| + |SelectBits(|s.clens|, s.select, s.gbclen)| + |DataBits(s)|
  {
    hide *;
    BeginsTail(bits, s, size);
    BodySizeIs(s);
    tail := bits[|SectionBits(s)|..];
    SectionWhole(s, tail);
  }

  lemma BeginsTail(bits: seq<bool>, s: Section, size: nat)
    requires Begins(bits, s, size)
    ensures SectionOk(s) && |SectionBits(s)| <= |bits| && bits == SectionBits(s) + bits[|SectionBits(s)|..]
  {
    hide SectionOk, SectionBits;
  }

  lemma SectionWhole(s: Section, tail: seq<bool>)
    requires SectionOk(s)
    ensures 0 < |s.clens| && (|s.clens| > 1 ==> s.sector >= SECTORSZ_MULT && SelectOk(|s.clens|, s.select, s.gbclen))
    ensures SectionBits(s) + tail == HeadBits(|s.clens|, s.sector) + AfterHead(s, tail)
  {
    hide HeadBits, LengthBits, SelectBits, DataBits, Multi, Concat, PrefixOk, SelectOk, Codable, Complete, Usable, Parts;
    FourParts(HeadBits(|s.clens|, s.sector), LengthBits(s), SelectBits(|s.clens|, s.select, s.gbclen), DataBits(s), tail);
  }

  lemma FourParts(a: seq<bool>, b: seq<bool>, c: seq<bool>, d: seq<bool>, tail: seq<bool>)
    ensures (a + (b + (c + d))) + tail == a + (b + (c + (d + tail)))
  {
  }

  // The number of groups and the size of a sector.
  method DecodeHead(reader: BitReader, size: nat, ghost s: Section, ghost rest: seq<bool>, ghost good: bool)
    returns (r: Result<(nat, nat)>)
    requires reader.Valid() && size > 0
    requires good ==> SectionOk(s) && |s.data| == size && (|s.clens| > 1 ==> s.sector >= SECTORSZ_MULT)
                      && reader.Rest() == HeadBits(|s.clens|, s.sector) + rest
    modifies reader
    ensures reader.Valid() && (r.Ok? ==> 1 <= r.value.0 <= MAX_GROUPS && r.value.1 > 0)
    ensures good ==>
              && r == Ok((|s.clens|, s.sector)) && reader.Rest() == rest
              && reader.Used() == old(reader.Used()) + |HeadBits(|s.clens|, s.sector)|
  {
    hide *;
    ghost var given, before := reader.Rest(), reader.Used();
    if good {
      SectionBasics(s);
      HeadFront(|s.clens|, s.sector, given, rest);
    }
    GroupNumber(given);
    var groups := reader.DecodeBits(3);
    if groups.Fail? {
      return Fail;
    }
    if groups.value + 1 == 1 {
      return Ok((1, size));
    }
    var sector := reader.DecodeBits(5);
    if sector.Fail? {
      return Fail;
    }
    MultIs();
    r := Ok((groups.value + 1, (sector.value + 1) * SECTORSZ_MULT));
  }

  lemma MultIs()
    ensures SECTORSZ_MULT == 5
  {
  }

  lemma GroupNumber(bits: seq<bool>)
    ensures |bits| >= 3 ==> BitLayer.Value(bits[..3]) + 1 <= MAX_GROUPS
  {
    if |bits| >= 3 {
      ValueBelow(bits[..3]);
      SixteenFour();
    }
  }

  lemma HeadFront(groups: nat, sector: nat, given: seq<bool>, rest: seq<bool>)
    requires 1 <= groups <= MAX_GROUPS && (groups > 1 ==> SectorSize(sector))
    requires (groups > 1 ==> sector >= SECTORSZ_MULT) && given == HeadBits(groups, sector) + rest
    ensures |given| >= 3 && BitLayer.Value(given[..3]) + 1 == groups
    ensures groups == 1 ==> given[3..] == rest && |HeadBits(groups, sector)| == 3
    ensures groups > 1 ==>
              && |given[3..]| >= 5 && (BitLayer.Value(given[3..][..5]) + 1) * SECTORSZ_MULT == sector && given[3..][5..] == rest
              && |HeadBits(groups, sector)| == 8
  {
    hide HighFirst, BitLayer.Value, Power2;
    SixteenFour();
    var a, b := HighFirst(groups - 1, 3), if groups > 1 then HighFirst(sector / SECTORSZ_MULT - 1, 5) else [];
    assert HeadBits(groups, sector) == a + b;
    hide HeadBits;
    Associate(a, b, rest);
    ValueOfHighFirst(groups - 1, 3);
    TwoOf(given, a, b + rest);
    if groups > 1 {
      ThirtyTwo();
      ValueOfHighFirst(sector / SECTORSZ_MULT - 1, 5);
      TwoOf(b + rest, b, rest);
    } else {
      assert b + rest == rest;
    }
  }

  lemma ThirtyTwo()
    ensures Power2(5) == 32
  {
    SixteenFour();
    assert Power2(5) == 2 * Power2(4);
  }

  lemma TwoOf(bits: seq<bool>, a: seq<bool>, rest: seq<bool>)
    requires bits == a + rest
    ensures bits[..|a|] == a && bits[|a|..] == rest
  {
  }

  // What is known of a section.
  lemma SectionBasics(s: Section)
    requires SectionOk(s)
    ensures 1 <= |s.clens| <= MAX_GROUPS && Shaped(s.clens) && s.sector > 0 && s.data != []
    ensures Codable(s.clens, s.select, Parts(s.data, s.sector)) && PrefixOk(Multi(Concat(s.clens), 256 * |s.clens|), s.clclen, s.num)
    ensures |s.clens| > 1 ==> SectorSize(s.sector) && SelectOk(|s.clens|, s.select, s.gbclen)
    ensures |s.clens| == 1 ==> s.sector == |s.data|
    ensures forall g {:trigger s.clens[g]} :: 0 <= g < |s.clens| ==> Complete(s.clens[g], MAX_CODELEN) && Usable(s.clens[g], s.data)
  {
    hide Multi, Concat, PrefixOk, SelectOk, Complete, Usable, Parts, Codable;
    CodableShape(s.clens, s.select, Parts(s.data, s.sector));
  }

  lemma SectionGroups(s: Section)
    requires SectionOk(s)
    ensures 1 <= |s.clens| <= MAX_GROUPS && Shaped(s.clens) && s.sector > 0 && s.data != []
    ensures PrefixOk(Multi(Concat(s.clens), 256 * |s.clens|), s.clclen, s.num)
    ensures LengthBits(s) == PrefixBits(Multi(Concat(s.clens), 256 * |s.clens|), s.clclen, s.num)
    ensures |s.select| == SectorCount(|s.data|, s.sector)
    ensures |s.clens| > 1 ==> SelectOk(|s.clens|, s.select, s.gbclen)
    ensures |s.clens| == 1 ==> s.select == [0] && s.sector == |s.data| && SectorCount(|s.data|, s.sector) == 1
  {
    hide Multi, Concat, PrefixOk, SelectOk, Complete, Usable, Parts, SectorCount, PrefixBits, SectionOk;
    SectionBasics(s);
    PartsCount(s.data, s.sector);
    if |s.clens| == 1 {
      OneSector(|s.data|, s.sector);
      assert s.select[0] < 1;
    }
  }

  lemma SectionComing(s: Section, tail: seq<bool>)
    requires SectionOk(s)
    ensures s.sector > 0 && Codable(s.clens, s.select, Parts(s.data, s.sector))
    ensures Coming(s.clens, s.select, s.data, s.sector, DataBits(s) + tail, tail)
  {
    hide Codable, Parts, SectorBits, Usable, Complete, Fits, SectionOk;
    SectionBasics(s);
    forall g {:trigger s.clens[g]} | 0 <= g < |s.clens|
      ensures Fits(s.clens[g], MAX_CODELEN)
    {
      CompleteFits(s.clens[g], MAX_CODELEN);
    }
  }

  // The group of each sector.
  method DecodeChoices(reader: BitReader, groups: nat, sectors: nat, ghost s: Section, ghost tail: seq<bool>, ghost good: bool)
    returns (r: Result<seq<nat>>)
    requires reader.Valid() && 1 <= groups <= MAX_GROUPS
    requires good ==> SectionOk(s) && groups == |s.clens| && sectors == |s.select| && reader.Rest() == AfterLengths(s, tail)
    modifies reader
    ensures reader.Valid() && (r.Ok? ==> |r.value| == sectors)
    ensures good ==>
              && s.sector > 0 && Codable(s.clens, s.select, Parts(s.data, s.sector))
              && (|s.clens| > 1 ==> SelectOk(|s.clens|, s.select, s.gbclen))
              && r == Ok(s.select) && reader.Rest() == DataBits(s) + tail
              && reader.Used() == old(reader.Used()) + |SelectBits(|s.clens|, s.select, s.gbclen)|
  {
    hide *;
    if good {
      SectionBasics(s);
      AfterHeadIs(s, tail);
    }
    if groups > 1 {
      r := DecodeSelectors(reader, groups, sectors, s.select, s.gbclen, if good then DataBits(s) + tail else []);
    } else {
      r := Ok(seq(sectors, _ => 0));
      if good {
        SectionGroups(s);
        OnlyGroup(s, tail, r.value);
      }
    }
  }

  // What the decoder should give for the section.
  ghost predicate Restored(s: Section, r: Result<seq<byte>>, pos: nat) {
    SectionOk(s) && r == Ok(s.data) && pos == (|SectionBits(s)| + 7) / 8
  }

  // xd3_decode_huff. A section whose lengths can be restored is restored, and no more
  // bytes are taken than it has.
  method DecodeHuff(input: seq<byte>, size: nat, ghost s: Section) returns (r: Result<seq<byte>>, pos: nat)
    requires size > 0
    ensures r.Ok? ==> |r.value| == size
    ensures Begins(Unpack(input), s, size) && ZerosAgree(s.clens) ==> Restored(s, r, pos)
  {
    pos := 0;
    var reader := new BitReader(input);
    ghost var bits := Unpack(input);
    ghost var good := Begins(bits, s, size) && ZerosAgree(s.clens);
    ghost var tail: seq<bool> := [];
    hide *;
    if good {
      BeginsOk(bits, s, size);
      tail := SectionSplit(bits, s, size);
      SectionGroups(s);
      AfterHeadIs(s, tail);
    }
    var head := DecodeHead(reader, size, s, if good then AfterHead(s, tail) else [], good);
    if head.Fail? {
      return Fail, pos;
    }
    r := DecodeBody(reader, head.value.0, head.value.1, size, s, tail, good);
    pos := reader.pos;
    if good {
      RestoredIs(s, reader);
    }
  }

  // Tables, choices and data.
  method DecodeBody(reader: BitReader, groups: nat, sector: nat, size: nat, ghost s: Section, ghost tail: seq<bool>, ghost good: bool)
    returns (r: Result<seq<byte>>)
    requires reader.Valid() && 1 <= groups <= MAX_GROUPS && sector > 0 && size > 0
    requires good ==> SectionOk(s) && groups == |s.clens| && sector == s.sector && size == |s.data| && ZerosAgree(s.clens)
                      && reader.Rest() == AfterHead(s, tail)
    modifies reader
    ensures reader.Valid() && (r.Ok? ==> |r.value| == size)
    ensures good ==> r == Ok(s.data) && reader.Used() == old(reader.Used()) + BodySize(s)
  {
    hide *;
    if good {
      SectionGroups(s);
      SectionComing(s, tail);
      AfterHeadIs(s, tail);
      BodySizeIs(s);
    }
    var sectors := SectorCount(size, sector);
    var clens := DecodeGroups(reader, groups, s.clens, s.clclen, s.num, if good then AfterLengths(s, tail) else []);
    if clens.Fail? {
      return Fail;
    }
    var tables := BuildTables(clens.value);
    GroupLengthsShape(clens.value);
    var select := DecodeChoices(reader, groups, sectors, s, tail, good);
    if select.Fail? {
      return Fail;
    }
    r := DecodeSectors(reader, tables, select.value, sector, size, clens.value, s.data, tail);
  }

  ghost function BodySize(s: Section): nat
    requires SectionOk(s)
  {
    |LengthBits(s)| + |SelectBits(|s.clens|, s.select, s.gbclen)| + |DataBits(s)|
  }

  lemma BodySizeIs(s: Section)
    requires SectionOk(s)
    ensures s.sector > 0 && Codable(s.clens, s.select, Parts(s.data, s.sector))
    ensures |s.clens| > 1 ==> SelectOk(|s.clens|, s.select, s.gbclen)
    ensures BodySize(s) == |LengthBits(s)| + |SelectBits(|s.clens|, s.select, s.gbclen)| + |DataBits(s)|
    ensures 0 < |s.clens| && (|s.clens| > 1 ==> s.sector >= SECTORSZ_MULT)
    ensures |SectionBits(s)| == |HeadBits(|s.clens|, s.sector)| + BodySize(s)
  {
    hide LengthBits, SelectBits, DataBits, HeadBits, Codable, Parts, SelectOk, PrefixOk, Multi, Concat, Complete, Usable;
  }

  lemma RestoredIs(s: Section, reader: BitReader)
    requires SectionOk(s) && reader.Valid() && 0 < |s.clens| && (|s.clens| > 1 ==> s.sector >= SECTORSZ_MULT)
    requires reader.Used() == |HeadBits(|s.clens|, s.sector)| + BodySize(s)
    ensures Restored(s, Ok(s.data), reader.pos)
  {
    BodySizeIs(s);
    hide SectionOk, SectionBits, BodySize, HeadBits;
  }

  lemma BeginsOk(bits: seq<bool>, s: Section, size: nat)
    requires Begins(bits, s, size)
    ensures SectionOk(s) && |s.data| == size
  {
    hide SectionOk, SectionBits;
  }

  lemma AfterHeadIs(s: Section, tail: seq<bool>)
    requires SectionOk(s)
    ensures AfterHead(s, tail) == LengthBits(s) + AfterLengths(s, tail)
    ensures AfterLengths(s, tail) == SelectBits(|s.clens|, s.select, s.gbclen) + (DataBits(s) + tail)
  {
    hide SectionOk, LengthBits, SelectBits, DataBits;
  }

  lemma OnlyGroup(s: Section, tail: seq<bool>, select: seq<nat>)
    requires SectionOk(s) && |s.clens| == 1 && select == seq(1, _ => 0)
    ensures select == [0] && AfterLengths(s, tail) == DataBits(s) + tail && |SelectBits(|s.clens|, s.select, s.gbclen)| == 0
  {
    hide SectionOk, DataBits, Codable, Parts;
    SectionBasics(s);
    assert [] + (DataBits(s) + tail) == DataBits(s) + tail;
  }

  lemma GroupLengthsShape(clens: seq<seq<nat>>)
    requires forall g :: 0 <= g < |clens| ==> Lengths(clens[g])
    ensures forall g :: 0 <= g < |clens| ==> |clens[g]| == 256
  {
  }

  lemma BeginsPacked(s: Section)
    requires SectionOk(s)
    ensures Begins(Unpack(Pack(SectionBits(s))), s, |s.data|)
  {
    hide SectionOk, SectionBits, Pack, Unpack;
    Unpacked(SectionBits(s));
  }

  lemma EncodedFacts(input: seq<byte>, inefficient: bool, offset: nat, r: Result<seq<byte>>, s: Section)
    requires EncodedAs(input, inefficient, offset, r, s)
    ensures s.data == input && (inefficient ==> r.Ok?) && (r.Ok? ==> SectionOk(s) && r.value == Pack(SectionBits(s)))
    ensures |s.clens| == 1 || !Heavy(input) ==> ZerosAgree(s.clens)
  {
    hide SectionOk, SectionBits, Codable, DataBits, Wasteful, Heavy, ZerosAgree, Pack;
  }

  // One group, or not very much data.
  ghost predicate Safe(cfg: SecCfg, input: seq<byte>) {
    HowManyGroups(cfg, |input|).Ok? && (HowManyGroups(cfg, |input|).value.0 == 1 || !Heavy(input))
  }

  // A section coded is restored, and all of its bytes are used, if zeros agree in its
  // groups, as they do if it is safe.
  method EncodeThenDecode(input: seq<byte>, cfg: SecCfg, offset: nat)
    returns (code: Result<seq<byte>>, decoded: Result<seq<byte>>, pos: nat, ghost s: Section)
    requires input != []
    ensures code.Ok? ==> SectionOk(s) && s.data == input && code.value == Pack(SectionBits(s))
    ensures code.Ok? && ZerosAgree(s.clens) ==> decoded == Ok(input) && pos == |code.value|
    ensures code.Ok? && Safe(cfg, input) ==> ZerosAgree(s.clens)
    ensures code.Ok? && Safe(cfg, input) ==> decoded == Ok(input) && pos == |code.value|
    ensures cfg.inefficient && HowManyGroups(cfg, |input|).Ok? ==> code.Ok?
  {
    hide *;
    code, s := EncodeHuff(input, cfg, offset);
    decoded, pos := Fail, 0;
    if code.Ok? {
      EncodedFacts(input, cfg.inefficient, offset, code, s);
      SafeFacts(cfg, input);
      BeginsPacked(s);
      decoded, pos := DecodeHuff(code.value, |input|, s);
      RestoredFacts(s, decoded, pos);
    } else {
      RefusedFacts(input, cfg, offset, code, s);
    }
  }

  lemma SafeFacts(cfg: SecCfg, input: seq<byte>)
    ensures Safe(cfg, input) ==>
              HowManyGroups(cfg, |input|).Ok? && (HowManyGroups(cfg, |input|).value.0 == 1 || !Heavy(input))
  {
    hide HowManyGroups, Heavy;
  }

  lemma RestoredFacts(s: Section, r: Result<seq<byte>>, pos: nat)
    ensures Restored(s, r, pos) ==> SectionOk(s) && r == Ok(s.data) && pos == (|SectionBits(s)| + 7) / 8
  {
    hide SectionOk, SectionBits;
  }

  lemma RefusedFacts(input: seq<byte>, cfg: SecCfg, offset: nat, r: Result<seq<byte>>, s: Section)
    requires HowManyGroups(cfg, |input|).Ok? ==> EncodedAs(input, cfg.inefficient, offset, r, s)
    ensures cfg.inefficient && HowManyGroups(cfg, |input|).Ok? ==> r.Ok?
  {
    hide HowManyGroups, SectionOk, SectionBits, Codable, DataBits, Wasteful, Heavy, ZerosAgree, Pack;
  }

  // ---------- two groups whose zeros do not agree ----------

  // All symbols in the first group, two of them in the second.
  const EIGHTS: seq<nat> := seq(256, _ => 8)
  const TWO: seq<nat> := seq(256, i => if i < 2 then 1 else 0)

  lemma {:induction false} EightsKraft(n: nat)
    requires n <= 256
    ensures Kraft(EIGHTS, MAX_CODELEN, n) == n * Power2(12)
  {
    if n > 0 {
      EightsKraft(n - 1);
      hide Power2;
      assert n * Power2(12) == (n - 1) * Power2(12) + Power2(12);
    }
  }

  lemma {:induction false} TwoKraft(n: nat)
    requires 2 <= n <= 256
    ensures Kraft(TWO, MAX_CODELEN, n) == 2 * Power2(19)
  {
    if n > 2 {
      TwoKraft(n - 1);
    } else {
      assert Kraft(TWO, MAX_CODELEN, 0) == 0;
      assert Kraft(TWO, MAX_CODELEN, 1) == Power2(19);
    }
  }

  lemma BothComplete()
    ensures Complete(EIGHTS, MAX_CODELEN) && Complete(TWO, MAX_CODELEN)
  {
    EightsKraft(256);
    TwoKraft(256);
    PowerSum(8, 12);
    assert Power2(8) == 256 && Power2(20) == 2 * Power2(19);
    hide Kraft, Power2;
  }

  // Both are complete codes that have the symbols of the data, and the decoder cannot
  // restore them.
  lemma GroupsDisagree()
    ensures Complete(EIGHTS, MAX_CODELEN) && Complete(TWO, MAX_CODELEN)
    ensures Usable(EIGHTS, [0, 1]) && Usable(TWO, [0, 1])
    ensures Shaped([EIGHTS, TWO]) && !ZerosAgree([EIGHTS, TWO])
    ensures !Restorable(Concat([EIGHTS, TWO]), Multi(Concat([EIGHTS, TWO]), 512))
  {
    BothComplete();
    hide Complete, Multi, Concat, Restorable, FlatAgree;
    var clens := [EIGHTS, TWO];
    assert !AgreeAt(clens, 1, 2);
    AgreeIsFlat(clens);
    RestorableIff(Concat(clens));
  }
}
