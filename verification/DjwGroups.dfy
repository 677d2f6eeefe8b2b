// The code lengths of several groups (xdelta3-djw.h, xd3_encode_huff with more than one
// group): the data is cut into sectors, each coded with the lengths of one group, and
// lengths and choices are improved a few times.
module DjwGroups {

  import opened Bytes
  import opened DjwPrefix
  import opened DjwCodes
  import opened DjwDecode
  import opened DjwMtf
  import opened DjwStream

  const MAX_ITER: nat := 6
  const MIN_IMPROVEMENT: nat := 20

  // ---------- sectors ----------

  function Parts(data: seq<byte>, sector: nat): seq<seq<byte>>
    requires sector > 0
  {
    if data == [] then []
    else
      var n := Min(sector, |data|);
      [data[..n]] + Parts(data[n..], sector)
  }

  // The number of sectors.
  function SectorCount(n: nat, sector: nat): nat
    requires sector > 0 && n > 0
  {
    1 + (n - 1) / sector
  }

  lemma {:induction false} PartsCount(data: seq<byte>, sector: nat)
    requires sector > 0 && data != []
    ensures |Parts(data, sector)| == SectorCount(|data|, sector)
    decreases |data|
  {
    hide SectorCount;
    if |data| <= sector {
      assert data[|data|..] == [] && Parts(data[|data|..], sector) == [];
      OneSector(|data|, sector);
    } else {
      PartsCount(data[sector..], sector);
      MoreSectors(|data|, sector);
    }
  }

  lemma OneSector(n: nat, sector: nat)
    requires 0 < n <= sector
    ensures SectorCount(n, sector) == 1
  {
    Quotient(n - 1, sector, 0, n - 1);
  }

  lemma MoreSectors(n: nat, sector: nat)
    requires n > sector > 0
    ensures SectorCount(n, sector) == 1 + SectorCount(n - sector, sector)
  {
    var a := n - 1 - sector;
    var q, r := a / sector, a % sector;
    assert a == q * sector + r;
    assert (q + 1) * sector == q * sector + sector;
    Quotient(n - 1, sector, q + 1, r);
  }

  // The data of the sectors of one group.
  function GroupData(select: seq<nat>, parts: seq<seq<byte>>, g: nat): seq<byte>
    requires |select| == |parts|
  {
    if parts == [] then []
    else
      var n := |parts| - 1;
      GroupData(select[..n], parts[..n], g) + if select[n] == g then parts[n] else []
  }

  lemma GroupDataNext(select: seq<nat>, parts: seq<seq<byte>>, w: nat, part: seq<byte>, g: nat)
    requires |select| == |parts|
    ensures GroupData(select + [w], parts + [part], g) == if w == g then GroupData(select, parts, g) + part else GroupData(select, parts, g)
  {
    var select', parts' := select + [w], parts + [part];
    assert select'[..|parts|] == select && parts'[..|parts|] == parts;
    assert GroupData(select, parts, g) + [] == GroupData(select, parts, g);
  }

  // What data takes with code lengths.
  function Weight(clen: seq<nat>, data: seq<byte>): nat
    requires |clen| == 256
  {
    if data == [] then 0 else Weight(clen, data[..|data| - 1]) + clen[data[|data| - 1]]
  }

  predicate Shaped(clens: seq<seq<nat>>) {
    forall g :: 0 <= g < |clens| ==> |clens[g]| == 256
  }

  // The sectors so far, and how they were chosen: none would be shorter with another
  // group, and the symbols of each group are counted.
  ghost predicate Chosen(clens: seq<seq<nat>>, select: seq<nat>, parts: seq<seq<byte>>, freqs: seq<seq<nat>>) {
    && Shaped(clens) && Shaped(freqs) && |freqs| == |clens| && |select| == |parts|
    && (forall c {:trigger select[c]} :: 0 <= c < |select| ==> Cheapest(clens, select[c], parts[c]))
    && (forall g {:trigger freqs[g]} :: 0 <= g < |freqs| ==> Counted(GroupData(select, parts, g), freqs[g]))
  }

  ghost predicate Cheapest(clens: seq<seq<nat>>, s: nat, part: seq<byte>)
    requires Shaped(clens)
  {
    s < |clens| && forall g {:trigger clens[g]} :: 0 <= g < |clens| ==> Weight(clens[s], part) <= Weight(clens[g], part)
  }

  // The cost of a sector with each group.
  method GroupCosts(input: seq<byte>, p0: nat, sector: nat, clens: seq<seq<nat>>) returns (gcost: seq<nat>, p: nat)
    requires p0 < |input| && sector > 0 && Shaped(clens)
    ensures p == p0 + Min(sector, |input| - p0) && |gcost| == |clens|
    ensures forall g :: 0 <= g < |clens| ==> gcost[g] == Weight(clens[g], input[p0..p])
  {
    gcost := seq(|clens|, _ => 0);
    p := p0;
    var gpcnt := 0;
    while gpcnt < sector && p < |input|
      invariant p == p0 + gpcnt <= |input| && gpcnt <= sector && |gcost| == |clens|
      invariant forall g :: 0 <= g < |clens| ==> gcost[g] == Weight(clens[g], input[p0..p])
    {
      gcost := CostOfByte(gcost, clens, input[p], input[p0..p]);
      assert input[p0..p + 1] == input[p0..p] + [input[p]];
      p := p + 1;
      gpcnt := gpcnt + 1;
    }
  }

  method CostOfByte(gcost0: seq<nat>, clens: seq<seq<nat>>, b: byte, ghost before: seq<byte>) returns (gcost: seq<nat>)
    requires Shaped(clens) && |gcost0| == |clens| && forall g :: 0 <= g < |clens| ==> gcost0[g] == Weight(clens[g], before)
    ensures |gcost| == |clens| && forall g :: 0 <= g < |clens| ==> gcost[g] == Weight(clens[g], before + [b])
  {
    gcost := gcost0;
    assert (before + [b])[..|before|] == before;
    for gp := 0 to |clens|
      invariant |gcost| == |clens| && forall g :: gp <= g < |clens| ==> gcost[g] == Weight(clens[g], before)
      invariant forall g :: 0 <= g < gp ==> gcost[g] == Weight(clens[g], before + [b])
    {
      gcost := gcost[gp := gcost[gp] + clens[gp][b]];
    }
  }

  // The first group of least cost.
  method LeastCost(gcost: seq<nat>) returns (winner: nat)
    requires gcost != []
    ensures winner < |gcost| && forall g :: 0 <= g < |gcost| ==> gcost[winner] <= gcost[g]
    ensures forall g :: 0 <= g < winner ==> gcost[winner] < gcost[g]
  {
    winner := 0;
    for gp := 1 to |gcost|
      invariant winner < gp && forall g :: 0 <= g < gp ==> gcost[winner] <= gcost[g]
      invariant forall g :: 0 <= g < winner ==> gcost[winner] < gcost[g]
    {
      if gcost[gp] < gcost[winner] {
        winner := gp;
      }
    }
  }

  // The symbols of a sector counted.
  method CountSector(freq0: seq<nat>, data: seq<byte>, ghost before: seq<byte>) returns (freq: seq<nat>)
    requires |freq0| == 256 && Counted(before, freq0)
    ensures |freq| == 256 && Counted(before + data, freq)
  {
    freq := freq0;
    assert before + data[..0] == before;
    for i := 0 to |data|
      invariant |freq| == 256 && Counted(before + data[..i], freq)
    {
      CountedNext(before + data[..i], freq, data[i]);
      assert before + data[..i + 1] == (before + data[..i]) + [data[i]];
      freq := freq[data[i] := freq[data[i]] + 1];
    }
    assert data[..|data|] == data;
  }

  // The best group of each sector.
  method SelectGroups(input: seq<byte>, sector: nat, clens: seq<seq<nat>>) returns (select: seq<nat>, freqs: seq<seq<nat>>)
    requires sector > 0 && clens != [] && Shaped(clens)
    ensures Chosen(clens, select, Parts(input, sector), freqs)
  {
    select, freqs := [], seq(|clens|, _ => seq(256, _ => 0));
    ghost var parts: seq<seq<byte>> := [];
    ChosenNone(clens, freqs);
    var p := 0;
    assert input[0..] == input;
    hide *;
    while p < |input|
      invariant p <= |input| && parts + Parts(input[p..], sector) == Parts(input, sector)
      invariant Chosen(clens, select, parts, freqs)
    {
      ChosenShape(clens, select, parts, freqs);
      var gcost, next := GroupCosts(input, p, sector, clens);
      var winner := LeastCost(gcost);
      ghost var part := input[p..next];
      NextPart(input, p, next, sector, parts);
      var freq := CountSector(freqs[winner], input[p..next], GroupData(select, parts, winner));
      WinnerCheapest(clens, gcost, winner, part);
      ChosenNext(clens, select, parts, freqs, winner, part, freq);
      select, freqs, parts := select + [winner], freqs[winner := freq], parts + [part];
      p := next;
    }
    NoParts(input, sector, parts);
  }

  lemma ChosenNone(clens: seq<seq<nat>>, freqs: seq<seq<nat>>)
    requires Shaped(clens) && |freqs| == |clens| && forall g :: 0 <= g < |freqs| ==> freqs[g] == seq(256, _ => 0)
    ensures Chosen(clens, [], [], freqs)
  {
  }

  lemma ChosenShape(clens: seq<seq<nat>>, select: seq<nat>, parts: seq<seq<byte>>, freqs: seq<seq<nat>>)
    requires Chosen(clens, select, parts, freqs)
    ensures Shaped(clens) && |freqs| == |clens| && |select| == |parts|
    ensures forall g :: 0 <= g < |freqs| ==> |freqs[g]| == 256 && Counted(GroupData(select, parts, g), freqs[g])
  {
    hide Counted, GroupData, Cheapest;
  }

  lemma NextPart(input: seq<byte>, p: nat, next: nat, sector: nat, parts: seq<seq<byte>>)
    requires sector > 0 && p < |input| && next == p + Min(sector, |input| - p)
    requires parts + Parts(input[p..], sector) == Parts(input, sector)
    ensures parts + [input[p..next]] + Parts(input[next..], sector) == Parts(input, sector)
  {
    var rest := input[p..];
    var n := next - p;
    assert rest[..n] == input[p..next] && rest[n..] == input[next..];
    assert Parts(rest, sector) == [input[p..next]] + Parts(input[next..], sector);
    hide Parts;
  }

  lemma NoParts(input: seq<byte>, sector: nat, parts: seq<seq<byte>>)
    requires sector > 0 && parts + Parts(input[|input|..], sector) == Parts(input, sector)
    ensures parts == Parts(input, sector)
  {
    assert Parts([], sector) == [] && input[|input|..] == [];
  }

  lemma WinnerCheapest(clens: seq<seq<nat>>, gcost: seq<nat>, winner: nat, part: seq<byte>)
    requires Shaped(clens) && |gcost| == |clens| && winner < |clens|
    requires forall g :: 0 <= g < |clens| ==> gcost[g] == Weight(clens[g], part)
    requires forall g :: 0 <= g < |gcost| ==> gcost[winner] <= gcost[g]
    ensures Cheapest(clens, winner, part)
  {
    hide Weight;
  }

  lemma ChosenNext(clens: seq<seq<nat>>, select: seq<nat>, parts: seq<seq<byte>>, freqs: seq<seq<nat>>, winner: nat,
                   part: seq<byte>, freq: seq<nat>)
    requires Chosen(clens, select, parts, freqs) && Cheapest(clens, winner, part) && |freq| == 256
    requires Counted(GroupData(select, parts, winner) + part, freq)
    ensures winner < |freqs| && Chosen(clens, select + [winner], parts + [part], freqs[winner := freq])
  {
    hide Counted, Cheapest, GroupData, Weight;
    CheapestIn(clens, winner, part);
    var select', parts' := select + [winner], parts + [part];
    forall g | 0 <= g < |freqs|
      ensures Counted(GroupData(select', parts', g), freqs[winner := freq][g])
    {
      GroupDataNext(select, parts, winner, part, g);
    }
  }

  lemma CheapestIn(clens: seq<seq<nat>>, s: nat, part: seq<byte>)
    requires Shaped(clens) && Cheapest(clens, s, part)
    ensures s < |clens|
  {
  }

  // ---------- the bits of all sectors ----------

  // Every sector has a group.
  ghost predicate Codable(clens: seq<seq<nat>>, select: seq<nat>, parts: seq<seq<byte>>) {
    Shaped(clens) && |select| == |parts| && forall c {:trigger select[c]} :: 0 <= c < |select| ==> select[c] < |clens|
  }

  lemma ChosenCodable(clens: seq<seq<nat>>, select: seq<nat>, parts: seq<seq<byte>>, freqs: seq<seq<nat>>, clens': seq<seq<nat>>)
    requires Chosen(clens, select, parts, freqs) && Shaped(clens') && |clens'| == |clens|
    ensures Codable(clens', select, parts)
  {
    hide Counted;
    forall c | 0 <= c < |select|
      ensures select[c] < |clens'|
    {
      CheapestIn(clens, select[c], parts[c]);
    }
  }

  ghost function SectorBits(clens: seq<seq<nat>>, select: seq<nat>, parts: seq<seq<byte>>): seq<bool>
    requires Codable(clens, select, parts)
    decreases |parts|
  {
    if parts == [] then []
    else CodeBits(clens[select[0]], parts[0]) + SectorBits(clens, select[1..], parts[1..])
  }

  lemma {:induction false} SectorBitsNext(clens: seq<seq<nat>>, select: seq<nat>, parts: seq<seq<byte>>, g: nat, part: seq<byte>)
    requires Codable(clens, select, parts) && g < |clens|
    ensures Codable(clens, select + [g], parts + [part]) && Within(part, |clens[g]|)
    ensures SectorBits(clens, select + [g], parts + [part]) == SectorBits(clens, select, parts) + CodeBits(clens[g], part)
    decreases |parts|
  {
    hide CodeBits;
    var select', parts' := select + [g], parts + [part];
    if parts == [] {
      assert select'[1..] == [] && parts'[1..] == [];
      assert SectorBits(clens, select', parts') == CodeBits(clens[g], part) + SectorBits(clens, [], []);
    } else {
      assert select'[1..] == select[1..] + [g] && parts'[1..] == parts[1..] + [part];
      SectorBitsNext(clens, select[1..], parts[1..], g, part);
      Associate(CodeBits(clens[select[0]], parts[0]), SectorBits(clens, select[1..], parts[1..]), CodeBits(clens[g], part));
    }
  }

  function SumCost(clens: seq<seq<nat>>, freqs: seq<seq<nat>>, n: nat): nat
    requires n <= |clens| == |freqs| && Shaped(clens) && Shaped(freqs)
  {
    if n == 0 then 0 else SumCost(clens, freqs, n - 1) + Cost(clens[n - 1], freqs[n - 1], 256)
  }

  // The sizes of the groups' data.
  ghost function SumSize(clens: seq<seq<nat>>, select: seq<nat>, parts: seq<seq<byte>>, n: nat): nat
    requires n <= |clens| && Codable(clens, select, parts)
  {
    if n == 0 then 0 else SumSize(clens, select, parts, n - 1) + |CodeBits(clens[n - 1], GroupData(select, parts, n - 1))|
  }

  lemma {:induction false} SumCostIsSize(clens: seq<seq<nat>>, freqs: seq<seq<nat>>, select: seq<nat>, parts: seq<seq<byte>>, n: nat)
    requires n <= |clens| == |freqs| && Shaped(freqs) && Codable(clens, select, parts)
    requires forall g :: 0 <= g < |freqs| ==> Counted(GroupData(select, parts, g), freqs[g])
    ensures SumCost(clens, freqs, n) == SumSize(clens, select, parts, n)
  {
    hide CodeBits, Counted, Cost, GroupData;
    if n > 0 {
      SumCostIsSize(clens, freqs, select, parts, n - 1);
      CostIsSize(clens[n - 1], freqs[n - 1], GroupData(select, parts, n - 1));
    }
  }

  // One more sector adds its bits to those of its group.
  lemma {:induction false} SumSizeNext(clens: seq<seq<nat>>, select: seq<nat>, parts: seq<seq<byte>>, g: nat, part: seq<byte>, n: nat)
    requires Codable(clens, select, parts) && g < |clens| && n <= |clens|
    ensures Codable(clens, select + [g], parts + [part]) && Within(part, |clens[g]|)
    ensures SumSize(clens, select + [g], parts + [part], n)
            == SumSize(clens, select, parts, n) + if g < n then |CodeBits(clens[g], part)| else 0
  {
    hide CodeBits, GroupData;
    if n > 0 {
      SumSizeNext(clens, select, parts, g, part, n - 1);
      GroupDataNext(select, parts, g, part, n - 1);
      if g == n - 1 {
        CodeBitsJoin(clens[g], GroupData(select, parts, g), part);
      }
    }
  }

  lemma {:induction false} SumIsAll(clens: seq<seq<nat>>, select: seq<nat>, parts: seq<seq<byte>>)
    requires Codable(clens, select, parts)
    ensures SumSize(clens, select, parts, |clens|) == |SectorBits(clens, select, parts)|
    decreases |parts|
  {
    hide CodeBits;
    if parts == [] {
      SumNothing(clens, select, parts, |clens|);
    } else {
      var n := |parts| - 1;
      var select', parts' := select[..n], parts[..n];
      assert select == select' + [select[n]] && parts == parts' + [parts[n]];
      SumIsAll(clens, select', parts');
      SumSizeNext(clens, select', parts', select[n], parts[n], |clens|);
      SectorBitsNext(clens, select', parts', select[n], parts[n]);
    }
  }

  lemma {:induction false} SumNothing(clens: seq<seq<nat>>, select: seq<nat>, parts: seq<seq<byte>>, n: nat)
    requires Codable(clens, select, parts) && parts == [] && n <= |clens|
    ensures SumSize(clens, select, parts, n) == 0
  {
    if n > 0 {
      SumNothing(clens, select, parts, n - 1);
    }
  }

  // ---------- code lengths of the groups ----------

  // A group has a code for every symbol of the data.
  function Faked(seen: seq<nat>, freq: seq<nat>): (r: seq<nat>)
    requires |seen| == |freq|
    ensures |r| == |freq|
  {
    seq(|freq|, i requires 0 <= i < |freq| => if freq[i] == 0 && seen[i] > 0 then 1 else freq[i])
  }

  // What the made-up symbols cost.
  function FakeCost(clen: seq<nat>, zero: seq<bool>, n: nat): nat
    requires n <= |clen| == |zero|
  {
    if n == 0 then 0 else FakeCost(clen, zero, n - 1) + if zero[n - 1] then clen[n - 1] else 0
  }

  lemma {:induction false} CostFaked(clen: seq<nat>, freq: seq<nat>, faked: seq<nat>, zero: seq<bool>, n: nat)
    requires n <= |clen| == |freq| == |faked| == |zero|
    requires forall i :: 0 <= i < |freq| ==> faked[i] == if zero[i] then 1 else freq[i]
    requires forall i :: 0 <= i < |freq| && zero[i] ==> freq[i] == 0
    ensures Cost(clen, faked, n) == Cost(clen, freq, n) + FakeCost(clen, zero, n)
  {
    if n > 0 {
      CostFaked(clen, freq, faked, zero, n - 1);
    }
  }

  lemma {:induction false} FakeCostLess(clen: seq<nat>, zero: seq<bool>, m: nat, n: nat)
    requires m <= n <= |clen| == |zero|
    ensures FakeCost(clen, zero, m) <= FakeCost(clen, zero, n)
    decreases n
  {
    if m < n {
      FakeCostLess(clen, zero, m, n - 1);
    }
  }

  // The symbols of a group are among those of the data.
  ghost predicate Among(freq: seq<nat>, seen: seq<nat>) {
    |freq| == |seen| == 256 && forall i {:trigger freq[i]} :: 0 <= i < 256 && freq[i] > 0 ==> seen[i] > 0
  }

  // A code for the group, and what its data takes.
  ghost predicate GroupCoded(seen: seq<nat>, freq: seq<nat>, clen: seq<nat>) {
    && |seen| == |freq| == |clen| == 256 && Complete(clen, MAX_CODELEN) && CodesUsed(Faked(seen, freq), MAX_CODELEN, clen)
    && forall i {:trigger clen[i]} :: 0 <= i < 256 && seen[i] > 0 ==> clen[i] > 0
  }

  method GroupCode(seen: seq<nat>, freq: seq<nat>) returns (clen: seq<nat>, bits: nat)
    requires Among(freq, seen) && exists i :: 0 <= i < 256 && seen[i] > 0
    ensures GroupCoded(seen, freq, clen) && bits == Cost(clen, freq, 256)
  {
    hide Complete, CodesUsed, Cost, Fib;
    var faked, zero := freq, seq(256, _ => false);
    for i := 0 to 256
      invariant |faked| == |zero| == 256 && forall k :: i <= k < 256 ==> faked[k] == freq[k] && !zero[k]
      invariant forall k :: 0 <= k < i ==> zero[k] == (freq[k] == 0 && seen[k] > 0) && faked[k] == if zero[k] then 1 else freq[k]
    {
      if faked[i] == 0 && seen[i] != 0 {
        faked, zero := faked[i := 1], zero[i := true];
      }
    }
    assert faked == Faked(seen, freq);
    LimitsEnough();
    ghost var some :| 0 <= some < 256 && seen[some] > 0;
    assert faked[some] > 0;
    clen, bits := BuildPrefix(faked, MAX_CODELEN);
    CostFaked(clen, freq, faked, zero, 256);
    bits := TakeFakes(clen, zero, bits, Cost(clen, freq, 256));
  }

  method TakeFakes(clen: seq<nat>, zero: seq<bool>, bits0: nat, ghost seen: nat) returns (bits: nat)
    requires |clen| == |zero| == 256 && bits0 == seen + FakeCost(clen, zero, 256)
    ensures bits == seen
  {
    bits := bits0;
    for i := 0 to 256
      invariant bits + FakeCost(clen, zero, i) == bits0
    {
      FakeCostLess(clen, zero, i + 1, 256);
      if zero[i] {
        bits := bits - clen[i];
      }
    }
  }

  // New lengths for every group.
  ghost predicate AllCoded(seen: seq<nat>, freqs: seq<seq<nat>>, clens: seq<seq<nat>>) {
    |clens| == |freqs| && forall g {:trigger clens[g]} :: 0 <= g < |clens| ==> GroupCoded(seen, freqs[g], clens[g])
  }

  method GroupLengths(seen: seq<nat>, freqs: seq<seq<nat>>) returns (clens: seq<seq<nat>>, outputBits: nat)
    requires |seen| == 256 && Shaped(freqs) && (forall g :: 0 <= g < |freqs| ==> Among(freqs[g], seen))
    requires exists i :: 0 <= i < 256 && seen[i] > 0
    ensures AllCoded(seen, freqs, clens) && Shaped(clens) && outputBits == SumCost(clens, freqs, |freqs|)
  {
    hide Cost, Faked, Flattened, GroupCoded, InCode;
    clens, outputBits := [], 0;
    hide Among;
    for gp := 0 to |freqs|
      invariant |clens| == gp && Shaped(clens) && AllCoded(seen, freqs[..gp], clens)
      invariant outputBits == SumCost(clens, freqs[..gp], gp)
    {
      var clen, bits := GroupCode(seen, freqs[gp]);
      CodedShape(seen, freqs[gp], clen);
      SumCostNext(clens, freqs[..gp], clen, freqs[gp]);
      assert freqs[..gp + 1] == freqs[..gp] + [freqs[gp]];
      clens, outputBits := clens + [clen], outputBits + bits;
    }
    assert freqs[..|freqs|] == freqs;
  }

  lemma CodedShape(seen: seq<nat>, freq: seq<nat>, clen: seq<nat>)
    requires GroupCoded(seen, freq, clen)
    ensures |clen| == |freq| == 256
  {
  }

  lemma SumCostNext(clens: seq<seq<nat>>, freqs: seq<seq<nat>>, clen: seq<nat>, freq: seq<nat>)
    requires Shaped(clens) && Shaped(freqs) && |clens| == |freqs| && |clen| == |freq| == 256
    ensures Shaped(clens + [clen]) && Shaped(freqs + [freq])
    ensures SumCost(clens + [clen], freqs + [freq], |clens| + 1) == SumCost(clens, freqs, |clens|) + Cost(clen, freq, 256)
  {
    hide Cost;
    SumCostSame(clens, freqs, clens + [clen], freqs + [freq], |clens|);
  }

  lemma {:induction false} SumCostSame(clens: seq<seq<nat>>, freqs: seq<seq<nat>>, clens': seq<seq<nat>>, freqs': seq<seq<nat>>, n: nat)
    requires Shaped(clens) && Shaped(freqs) && |clens| == |freqs| && Shaped(clens') && Shaped(freqs') && |clens'| == |freqs'|
    requires clens <= clens' && freqs <= freqs' && n <= |clens|
    ensures SumCost(clens', freqs', n) == SumCost(clens, freqs, n)
  {
    hide Cost;
    if n > 0 {
      SumCostSame(clens, freqs, clens', freqs', n - 1);
    }
  }

  // ---------- which symbols have codes ----------

  // The same symbols have codes in all groups.
  ghost predicate ZerosAgree(clens: seq<seq<nat>>) {
    Shaped(clens) && forall g, i {:trigger AgreeAt(clens, g, i)} :: 0 < g < |clens| && 0 <= i < 256 ==> AgreeAt(clens, g, i)
  }

  predicate AgreeAt(clens: seq<seq<nat>>, g: nat, i: nat)
    requires Shaped(clens) && 0 < g < |clens| && i < 256
  {
    clens[g][i] == 0 <==> clens[g - 1][i] == 0
  }

  // Too few symbols for a code that is too long.
  ghost predicate Light(seen: seq<nat>, freq: seq<nat>) {
    |seen| == |freq| == 256 && Total(Faked(seen, freq), 256) + 1 < Fib(MAX_CODELEN + 1)
  }

  lemma {:induction false} InUseSame(v: seq<nat>, w: seq<nat>, n: nat)
    requires n <= |v| == |w| && forall i :: 0 <= i < |v| ==> (v[i] > 0 <==> w[i] > 0)
    ensures InUse(v, n) == InUse(w, n)
  {
    if n > 0 {
      InUseSame(v, w, n - 1);
    }
  }

  // Made-up symbols make the symbols of each group those of the data.
  lemma FakedInCode(seen: seq<nat>, freq: seq<nat>, i: nat)
    requires Among(freq, seen) && i < 256
    ensures InCode(Faked(seen, freq), i) <==> InCode(seen, i)
  {
    InUseSame(Faked(seen, freq), seen, 256);
    hide InUse;
  }

  // Unless frequencies were flattened.
  lemma CodedAs(seen: seq<nat>, freq: seq<nat>, clen: seq<nat>, i: nat)
    requires Among(freq, seen) && GroupCoded(seen, freq, clen) && i < 256
    requires Light(seen, freq)
    ensures |clen| == 256 && |seen| == 256 && (clen[i] > 0 <==> InCode(seen, i))
  {
    FakedInCode(seen, freq, i);
    assert clen[i] >= 0;
    hide InCode, Complete, Faked, Total, Fib;
  }

  lemma AgreeUnlessFlattened(seen: seq<nat>, freqs: seq<seq<nat>>, clens: seq<seq<nat>>)
    requires AllCoded(seen, freqs, clens) && Shaped(clens) && (forall g :: 0 <= g < |freqs| ==> Among(freqs[g], seen))
    requires forall g :: 0 <= g < |freqs| ==> Light(seen, freqs[g])
    ensures ZerosAgree(clens)
  {
    hide GroupCoded, Light, InCode;
    forall g, i {:trigger AgreeAt(clens, g, i)} | 0 < g < |clens| && 0 <= i < 256
      ensures AgreeAt(clens, g, i)
    {
      assert GroupCoded(seen, freqs[g], clens[g]) && GroupCoded(seen, freqs[g - 1], clens[g - 1]);
      CodedAs(seen, freqs[g], clens[g], i);
      CodedAs(seen, freqs[g - 1], clens[g - 1], i);
    }
  }

  lemma {:induction false} FakedTotal(seen: seq<nat>, freq: seq<nat>, n: nat)
    requires n <= |seen| == |freq|
    ensures Total(Faked(seen, freq), n) <= Total(freq, n) + n
  {
    if n > 0 {
      FakedTotal(seen, freq, n - 1);
    }
  }

  // Frequencies sum to the size of the data.
  lemma {:induction false} CountTotal(data: seq<byte>, freq: seq<nat>)
    requires |freq| == 256 && Counted(data, freq)
    ensures Total(freq, 256) == |data|
  {
    if data == [] {
      TotalNothing(freq, 256);
    } else {
      var less := FreqBefore(data, freq);
      var n := |data| - 1;
      CountTotal(data[..n], less);
      TotalAdd(less, data[n], 256);
    }
  }

  lemma {:induction false} TotalNothing(freq: seq<nat>, n: nat)
    requires |freq| == 256 && n <= 256 && Counted([], freq)
    ensures Total(freq, n) == 0
  {
    if n > 0 {
      TotalNothing(freq, n - 1);
      assert freq[n - 1] == 0;
    }
  }

  lemma {:induction false} TotalAdd(freq: seq<nat>, c: nat, n: nat)
    requires n <= |freq| && c < |freq|
    ensures Total(freq[c := freq[c] + 1], n) == Total(freq, n) + if c < n then 1 else 0
  {
    if n > 0 {
      TotalAdd(freq, c, n - 1);
    }
  }

  function PartsSize(parts: seq<seq<byte>>): nat {
    if parts == [] then 0 else PartsSize(parts[..|parts| - 1]) + |parts[|parts| - 1]|
  }

  lemma {:induction false} GroupDataSize(select: seq<nat>, parts: seq<seq<byte>>, g: nat)
    requires |select| == |parts|
    ensures |GroupData(select, parts, g)| <= PartsSize(parts)
  {
    if parts != [] {
      var n := |parts| - 1;
      GroupDataSize(select[..n], parts[..n], g);
    }
  }

  // Symbols of the group are symbols of some sector.
  lemma {:induction false} GroupDataIn(select: seq<nat>, parts: seq<seq<byte>>, g: nat, x: byte)
    requires |select| == |parts| && x in GroupData(select, parts, g)
    ensures exists c :: 0 <= c < |parts| && x in parts[c]
  {
    var n := |parts| - 1;
    if x !in GroupData(select[..n], parts[..n], g) {
      assert x in parts[n];
    } else {
      GroupDataIn(select[..n], parts[..n], g, x);
      var c :| 0 <= c < n && x in parts[..n][c];
      assert x in parts[c];
    }
  }

  lemma {:induction false} PartsIn(data: seq<byte>, sector: nat, c: nat, x: byte)
    requires sector > 0 && c < |Parts(data, sector)| && x in Parts(data, sector)[c]
    ensures x in data
    decreases |data|
  {
    var n := Min(sector, |data|);
    if c > 0 {
      assert Parts(data, sector)[c] == Parts(data[n..], sector)[c - 1];
      PartsIn(data[n..], sector, c - 1, x);
    }
  }

  lemma {:induction false} PartsTotal(data: seq<byte>, sector: nat)
    requires sector > 0
    ensures PartsSize(Parts(data, sector)) == |data|
    decreases |data|
  {
    if data != [] {
      var n := Min(sector, |data|);
      PartsTotal(data[n..], sector);
      PartsSizeFirst(data[..n], Parts(data[n..], sector));
    }
  }

  lemma {:induction false} PartsSizeFirst(part: seq<byte>, parts: seq<seq<byte>>)
    ensures PartsSize([part] + parts) == |part| + PartsSize(parts)
  {
    var all, n := [part] + parts, |parts|;
    if parts == [] {
      assert all == [part] && all[..0] == [];
    } else {
      PartsSizeFirst(part, parts[..n - 1]);
      assert all[..n] == [part] + parts[..n - 1] && all[n] == parts[n - 1];
    }
  }

  // The frequencies of a group are those of symbols of the data, and sum to no more.
  lemma GroupAmong(input: seq<byte>, seen: seq<nat>, sector: nat, select: seq<nat>, freq: seq<nat>, g: nat)
    requires sector > 0 && |seen| == |freq| == 256 && Counted(input, seen) && |select| == |Parts(input, sector)|
    requires Counted(GroupData(select, Parts(input, sector), g), freq)
    ensures Among(freq, seen) && Total(freq, 256) <= |input|
    ensures |input| + 257 < Fib(MAX_CODELEN + 1) ==> Light(seen, freq)
  {
    var parts := Parts(input, sector);
    var data := GroupData(select, parts, g);
    CountTotal(data, freq);
    GroupDataSize(select, parts, g);
    PartsTotal(input, sector);
    FakedTotal(seen, freq, 256);
    hide GroupData, Parts, PartsSize, Fib, Total, Faked;
    forall i | 0 <= i < 256 && freq[i] > 0
      ensures seen[i] > 0
    {
      OccursIn(data, i);
      GroupDataIn(select, parts, g, i);
      var c :| 0 <= c < |parts| && i in parts[c];
      PartsIn(input, sector, c, i);
      OccursIn(input, i);
      assert seen[i] == Occurrences(input, i);
    }
  }

  // ---------- improving ----------

  // What the search gives: lengths, the groups chosen with lengths from before, and what
  // the data takes.
  ghost predicate Evolved(input: seq<byte>, seen: seq<nat>, sector: nat, clens: seq<seq<nat>>, select: seq<nat>, freqs: seq<seq<nat>>,
                          outputBits: nat)
    requires sector > 0
  {
    var parts := Parts(input, sector);
    && |freqs| == |clens| && AllCoded(seen, freqs, clens) && (forall g :: 0 <= g < |freqs| ==> Among(freqs[g], seen))
    && Codable(clens, select, parts) && outputBits == |SectorBits(clens, select, parts)|
    && (|input| + 257 < Fib(MAX_CODELEN + 1) ==> ZerosAgree(clens))
  }

  lemma EvolvedOnce(input: seq<byte>, seen: seq<nat>, sector: nat, was: seq<seq<nat>>, select: seq<nat>, freqs: seq<seq<nat>>,
                    clens: seq<seq<nat>>)
    requires sector > 0 && Chosen(was, select, Parts(input, sector), freqs) && |seen| == 256 && Counted(input, seen)
    requires |clens| == |freqs| && Shaped(clens) && AllCoded(seen, freqs, clens)
    ensures Evolved(input, seen, sector, clens, select, freqs, SumCost(clens, freqs, |freqs|))
  {
    var parts := Parts(input, sector);
    ChosenShape(was, select, parts, freqs);
    ChosenCodable(was, select, parts, freqs, clens);
    hide Chosen, AllCoded, Counted, GroupData, Fib, Codable, Parts, Light, Among, SumCost, SumSize, SectorBits;
    forall g | 0 <= g < |freqs|
      ensures Among(freqs[g], seen) && (|input| + 257 < Fib(MAX_CODELEN + 1) ==> Light(seen, freqs[g]))
    {
      GroupAmong(input, seen, sector, select, freqs[g], g);
    }
    if |input| + 257 < Fib(MAX_CODELEN + 1) {
      AgreeUnlessFlattened(seen, freqs, clens);
    }
    CodableShape(clens, select, parts);
    SumCostIsSize(clens, freqs, select, parts, |clens|);
    SumIsAll(clens, select, parts);
  }

  lemma CodableShape(clens: seq<seq<nat>>, select: seq<nat>, parts: seq<seq<byte>>)
    requires Codable(clens, select, parts)
    ensures Shaped(clens)
  {
  }

  // The lengths a search starts from: the alphabet cut where the frequencies sum to
  // equal parts. It says if there are too many groups for that.
  method InitialLengths(freq: seq<nat>, groups: nat, inputBytes: nat, inefficient: bool) returns (ok: bool, clens: seq<seq<nat>>)
    requires |freq| == 256 && groups > 0 && Total(freq, 256) == inputBytes
    ensures ok ==> |clens| == groups && Shaped(clens)
    ensures inefficient ==> ok
  {
    hide Share;
    clens, ok := [], true;
    var left: nat, sym1: nat, sym2: nat := inputBytes, 0, 0;
    for gp := 0 to groups
      invariant |clens| == gp && Shaped(clens) && sym2 <= 256 && Total(freq, sym2) + left == Total(freq, 256)
    {
      var goal := Share(left, groups - gp);
      if goal == 0 && !inefficient {
        return false, clens;
      }
      var sum;
      sum, sym2 := TakeSymbols(freq, sym2, left, goal);
      clens := clens + [seq(256, s => if s >= sym1 && s <= sym2 then 1 else 16)];
      left := left - sum;
      sym1 := sym2 + 1;
    }
  }

  function Share(left: nat, groups: nat): (goal: nat)
    requires groups > 0
    ensures goal <= left
  {
    var goal := left / groups;
    assert left == goal * groups + left % groups;
    ShareLess(goal, groups);
    goal
  }

  lemma ShareLess(goal: nat, groups: nat)
    requires groups > 0
    ensures goal <= goal * groups
  {
  }

  // Symbols until they sum to the goal; they are enough.
  method TakeSymbols(freq: seq<nat>, sym0: nat, left: nat, goal: nat) returns (sum: nat, sym: nat)
    requires |freq| == 256 && sym0 <= 256 && Total(freq, sym0) + left == Total(freq, 256) && goal <= left
    ensures sym0 <= sym <= 256 && goal <= sum <= left && Total(freq, sym) == Total(freq, sym0) + sum
  {
    sum, sym := 0, sym0;
    while sum < goal
      invariant sym0 <= sym <= 256 && sum <= left && Total(freq, sym) == Total(freq, sym0) + sum
      decreases 256 - sym
    {
      TotalGrows(freq, sym + 1, 256);
      sum := sum + freq[sym];
      sym := sym + 1;
    }
  }

  lemma {:induction false} TotalGrows(w: seq<nat>, m: nat, n: nat)
    requires m <= n <= |w|
    ensures Total(w, m) <= Total(w, n)
    decreases n
  {
    if m < n {
      TotalGrows(w, m, n - 1);
    }
  }

  // The search, from given lengths. The comparison is of unsigned numbers, so that a
  // turn for the worse also makes it go on.
  method Evolve(input: seq<byte>, seen: seq<nat>, sector: nat, clens0: seq<seq<nat>>)
    returns (clens: seq<seq<nat>>, select: seq<nat>, outputBits: nat, ghost freqs: seq<seq<nat>>)
    requires sector > 0 && clens0 != [] && Shaped(clens0) && |seen| == 256 && Counted(input, seen) && input != []
    ensures |clens| == |clens0| && Evolved(input, seen, sector, clens, select, freqs, outputBits)
  {
    hide Counted, Chosen, AllCoded, Among, Evolved, GroupData, SumCost;
    SomeSeen(input, seen);
    clens, select, freqs, outputBits := clens0, [], [], 0;
    var niter, bestBits := 0, 0;
    while true
      invariant |clens| == |clens0| && Shaped(clens) && niter <= MAX_ITER
      invariant niter > 0 ==> Evolved(input, seen, sector, clens, select, freqs, outputBits)
      decreases MAX_ITER - niter
    {
      niter := niter + 1;
      ghost var was := clens;
      var counts;
      select, counts := SelectGroups(input, sector, clens);
      ChosenShape(was, select, Parts(input, sector), counts);
      forall g | 0 <= g < |counts|
        ensures Among(counts[g], seen)
      {
        GroupAmong(input, seen, sector, select, counts[g], g);
      }
      clens, outputBits := GroupLengths(seen, counts);
      AllShape(seen, counts, clens);
      freqs := counts;
      EvolvedOnce(input, seen, sector, was, select, counts, clens);
      if niter == 1 || (niter < MAX_ITER && (bestBits - outputBits) % U64 >= MIN_IMPROVEMENT) {
        bestBits := outputBits;
      } else {
        return;
      }
    }
  }

  lemma SomeSeen(input: seq<byte>, seen: seq<nat>)
    requires |seen| == 256 && Counted(input, seen) && input != []
    ensures exists i :: 0 <= i < 256 && seen[i] > 0
  {
    SomeOccur(input, seen);
  }

  lemma AllShape(seen: seq<nat>, freqs: seq<seq<nat>>, clens: seq<seq<nat>>)
    requires AllCoded(seen, freqs, clens)
    ensures |clens| == |freqs| && Shaped(clens)
  {
  }
}
