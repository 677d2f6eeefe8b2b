// Merging two deltas without their base (xdelta3-merge.h): the merged delta,
// applied to any base, gives what the second gives on the output of the first.
module Merge {
  import opened Bytes
  import opened CodeTable
  import opened WindowFormat

  // The mode of a whole-file copy: 0 copies from the target, VCD_SOURCE from the
  // source, VCD_TARGET from an earlier target window.
  datatype Mode = InTarget | VcdSource | VcdTarget

  // xd3_winst. Type XD3_CPY carries its mode apart; addr indexes the adds buffer
  // for ADD and RUN.
  datatype WInst = WInst(typ: nat, mode: Mode, size: nat, addr: nat, position: nat)

  // xd3_wininfo.
  datatype WinInfo = WinInfo(offset: nat, length: nat, adler32: nat)

  // xd3_whole_state: a delta in absolute positions.
  datatype Whole = Whole(inst: seq<WInst>, adds: seq<byte>, length: nat) {

    // Instructions cover [0, length) in order; operands lie where they must.
    ghost predicate Valid() {
      Tiles(inst, 0, length) && forall i :: 0 <= i < |inst| ==> Operand(inst[i], |adds|)
    }
  }

  ghost predicate Operand(r: WInst, adds: nat) {
    if r.typ == XD3_RUN then r.addr < adds
    else if r.typ == XD3_ADD then r.addr + r.size <= adds
    else r.typ == XD3_CPY && (r.mode == InTarget ==> r.addr < r.position)
  }

  // Consecutive instructions covering [from, to).
  ghost predicate Tiles(inst: seq<WInst>, from: nat, to: nat) {
    if inst == [] then from == to
    else inst[0].position == from && Tiles(inst[1..], from + inst[0].size, to)
  }

  // ---------- where each output byte comes from ----------

  // An output byte is a literal of the delta or a byte of the base.
  datatype Origin = Literal(b: byte) | Base(addr: nat)

  function Range(addr: nat, n: nat): (r: seq<Origin>)
    ensures |r| == n
  {
    seq(n, i requires 0 <= i < n => Base(addr + i))
  }

  function Literals(bytes: seq<byte>): (r: seq<Origin>)
    ensures |r| == |bytes|
  {
    seq(|bytes|, i requires 0 <= i < |bytes| => Literal(bytes[i]))
  }

  // A copy within the target may overlap the bytes it writes.
  function CopyOrigins(out: seq<Origin>, start: nat, n: nat): (r: seq<Origin>)
    requires start < |out|
    ensures |r| == |out| + n && out <= r
    decreases n
  {
    if n == 0 then out else CopyOrigins(out + [out[start]], start + 1, n - 1)
  }

  function InstOrigins(out: seq<Origin>, r: WInst, adds: seq<byte>): (o: seq<Origin>)
    requires |out| == r.position && Operand(r, |adds|)
    ensures |o| == |out| + r.size && out <= o
  {
    if r.typ == XD3_RUN then out + Literals(Repeat(adds[r.addr], r.size))
    else if r.typ == XD3_ADD then out + Literals(adds[r.addr..r.addr + r.size])
    else if r.mode == InTarget then CopyOrigins(out, r.addr, r.size)
    else out + Range(r.addr, r.size)
  }

  function Origins(out: seq<Origin>, inst: seq<WInst>, adds: seq<byte>, to: nat): (o: seq<Origin>)
    requires Tiles(inst, |out|, to)
    requires forall i :: 0 <= i < |inst| ==> Operand(inst[i], |adds|)
    ensures |o| == to && out <= o
    decreases |inst|
  {
    if inst == [] then out
    else Origins(InstOrigins(out, inst[0], adds), inst[1..], adds, to)
  }

  function OriginsOf(w: Whole): (o: seq<Origin>)
    requires w.Valid()
    ensures |o| == w.length
  {
    Origins([], w.inst, w.adds, w.length)
  }

  // Read each base byte of one delta through another.
  function Through(o: seq<Origin>, via: seq<Origin>): (r: seq<Origin>)
    requires WithinBase(o, |via|)
    ensures |r| == |o|
  {
    seq(|o|, i requires 0 <= i < |o| => if o[i].Base? then via[o[i].addr] else o[i])
  }

  // ---------- applying a delta to a base ----------

  // A copy from outside the target is from the source, within n bytes. (Copies
  // from an earlier target window are not implemented by the decoder.)
  ghost predicate ReadsInst(r: WInst, n: nat) {
    r.typ == XD3_CPY && r.mode != InTarget ==> r.mode == VcdSource && r.addr + r.size <= n
  }

  ghost predicate Reads(w: Whole, n: nat) {
    forall i :: 0 <= i < |w.inst| ==> ReadsInst(w.inst[i], n)
  }

  function ApplyInst(out: seq<byte>, r: WInst, adds: seq<byte>, base: seq<byte>): (o: seq<byte>)
    requires |out| == r.position && Operand(r, |adds|)
    requires ReadsInst(r, |base|)
    ensures |o| == |out| + r.size
  {
    if r.typ == XD3_RUN then out + Repeat(adds[r.addr], r.size)
    else if r.typ == XD3_ADD then out + adds[r.addr..r.addr + r.size]
    else if r.mode == InTarget then CopyTarget(out, r.addr, r.size)
    else out + base[r.addr..r.addr + r.size]
  }

  function ApplyAll(out: seq<byte>, inst: seq<WInst>, adds: seq<byte>, base: seq<byte>, to: nat): (o: seq<byte>)
    requires Tiles(inst, |out|, to)
    requires forall i :: 0 <= i < |inst| ==> Operand(inst[i], |adds|)
    requires forall i :: 0 <= i < |inst| ==> ReadsInst(inst[i], |base|)
    ensures |o| == to
    decreases |inst|
  {
    if inst == [] then out
    else ApplyAll(ApplyInst(out, inst[0], adds, base), inst[1..], adds, base, to)
  }

  // The file a delta stands for, given its base.
  function Apply(w: Whole, base: seq<byte>): (o: seq<byte>)
    requires w.Valid() && Reads(w, |base|)
    ensures |o| == w.length
  {
    ApplyAll([], w.inst, w.adds, base, w.length)
  }

  ghost predicate WithinBase(o: seq<Origin>, n: nat) {
    forall i :: 0 <= i < |o| ==> o[i].Base? ==> o[i].addr < n
  }

  function Render(o: seq<Origin>, base: seq<byte>): (r: seq<byte>)
    requires WithinBase(o, |base|)
    ensures |r| == |o|
  {
    seq(|o|, i requires 0 <= i < |o| => if o[i].Base? then base[o[i].addr] else o[i].b)
  }

  // ---------- origins determine the applied file ----------

  lemma {:induction false} CopyRender(out: seq<Origin>, start: nat, n: nat, base: seq<byte>)
    requires start < |out| && WithinBase(out, |base|)
    ensures WithinBase(CopyOrigins(out, start, n), |base|)
    ensures Render(CopyOrigins(out, start, n), base) == CopyTarget(Render(out, base), start, n)
    decreases n
  {
    if n > 0 {
      var out' := out + [out[start]];
      assert Render(out', base) == Render(out, base) + [Render(out, base)[start]];
      CopyRender(out', start + 1, n - 1, base);
    }
  }

  lemma InstRender(out: seq<Origin>, r: WInst, adds: seq<byte>, base: seq<byte>)
    requires |out| == r.position && Operand(r, |adds|) && WithinBase(out, |base|)
    requires ReadsInst(r, |base|)
    ensures WithinBase(InstOrigins(out, r, adds), |base|)
    ensures Render(InstOrigins(out, r, adds), base) == ApplyInst(Render(out, base), r, adds, base)
  {
    if r.typ == XD3_CPY && r.mode == InTarget {
      CopyRender(out, r.addr, r.size, base);
    }
  }

  lemma {:induction false} OriginsRender(out: seq<Origin>, inst: seq<WInst>, adds: seq<byte>, base: seq<byte>, to: nat)
    requires Tiles(inst, |out|, to) && WithinBase(out, |base|)
    requires forall i :: 0 <= i < |inst| ==> Operand(inst[i], |adds|)
    requires forall i :: 0 <= i < |inst| ==> ReadsInst(inst[i], |base|)
    ensures WithinBase(Origins(out, inst, adds, to), |base|)
    ensures Render(Origins(out, inst, adds, to), base) == ApplyAll(Render(out, base), inst, adds, base, to)
    decreases |inst|
  {
    if inst != [] {
      InstRender(out, inst[0], adds, base);
      OriginsRender(InstOrigins(out, inst[0], adds), inst[1..], adds, base, to);
    }
  }

  // Applying a delta is rendering its origins.
  lemma ApplyIsRender(w: Whole, base: seq<byte>)
    requires w.Valid() && Reads(w, |base|)
    ensures WithinBase(OriginsOf(w), |base|) && Apply(w, base) == Render(OriginsOf(w), base)
  {
    OriginsRender([], w.inst, w.adds, base, w.length);
    assert Render([], base) == [];
  }

  // ---------- the equations origins satisfy ----------

  // Byte k of instruction r, in terms of the whole output o.
  ghost predicate ByteAt(r: WInst, adds: seq<byte>, o: seq<Origin>, k: nat)
    requires Operand(r, |adds|) && k < r.size && r.position + r.size <= |o|
  {
    o[r.position + k] ==
    if r.typ == XD3_RUN then Literal(adds[r.addr])
    else if r.typ == XD3_ADD then Literal(adds[r.addr + k])
    else if r.mode == InTarget then o[r.addr + k]
    else Base(r.addr + k)
  }

  ghost predicate Consistent(r: WInst, adds: seq<byte>, o: seq<Origin>)
    requires Operand(r, |adds|) && r.position + r.size <= |o|
  {
    forall k :: 0 <= k < r.size ==> ByteAt(r, adds, o, k)
  }

  // CopyOrigins keeps repeating what lies a fixed distance back.
  lemma {:induction false} CopyOriginsAt(out: seq<Origin>, start: nat, n: nat, k: nat)
    requires start < |out| && k < n
    ensures CopyOrigins(out, start, n)[|out| + k] == CopyOrigins(out, start, n)[start + k]
    decreases n
  {
    var out' := out + [out[start]];
    var r := CopyOrigins(out, start, n);
    assert out' <= r;
    if k == 0 {
      assert r[|out|] == out'[|out|] && r[start] == out'[start];
    } else {
      CopyOriginsAt(out', start + 1, n - 1, k - 1);
    }
  }

  lemma InstConsistent(out: seq<Origin>, r: WInst, adds: seq<byte>)
    requires |out| == r.position && Operand(r, |adds|)
    ensures Consistent(r, adds, InstOrigins(out, r, adds))
  {
    forall k | 0 <= k < r.size
      ensures ByteAt(r, adds, InstOrigins(out, r, adds), k)
    {
      if r.typ == XD3_CPY && r.mode == InTarget {
        CopyOriginsAt(out, r.addr, r.size, k);
      }
    }
  }

  lemma ConsistentPrefix(r: WInst, adds: seq<byte>, o: seq<Origin>, o': seq<Origin>)
    requires Operand(r, |adds|) && r.position + r.size <= |o| && o <= o' && Consistent(r, adds, o)
    ensures Consistent(r, adds, o')
  {
    forall k | 0 <= k < r.size
      ensures ByteAt(r, adds, o', k)
    {
      assert ByteAt(r, adds, o, k);
    }
  }

  lemma {:induction false} TilesWithin(inst: seq<WInst>, from: nat, to: nat, i: nat)
    requires Tiles(inst, from, to) && i < |inst|
    ensures from <= inst[i].position && inst[i].position + inst[i].size <= to
    ensures if i + 1 < |inst| then inst[i + 1].position == inst[i].position + inst[i].size
            else inst[i].position + inst[i].size == to
    decreases |inst|
  {
    TilesOrder(inst[1..], from + inst[0].size, to);
    if i > 0 {
      TilesWithin(inst[1..], from + inst[0].size, to, i - 1);
    }
  }

  lemma {:induction false} TilesOrder(inst: seq<WInst>, from: nat, to: nat)
    requires Tiles(inst, from, to)
    ensures from <= to
    decreases |inst|
  {
    if inst != [] {
      TilesOrder(inst[1..], from + inst[0].size, to);
    }
  }

  lemma {:induction false} OriginsConsistent(out: seq<Origin>, inst: seq<WInst>, adds: seq<byte>, to: nat, i: nat)
    requires Tiles(inst, |out|, to) && i < |inst|
    requires forall j :: 0 <= j < |inst| ==> Operand(inst[j], |adds|)
    ensures inst[i].position + inst[i].size <= to
    ensures Consistent(inst[i], adds, Origins(out, inst, adds, to))
    decreases |inst|
  {
    TilesWithin(inst, |out|, to, i);
    var out' := InstOrigins(out, inst[0], adds);
    if i == 0 {
      InstConsistent(out, inst[0], adds);
      ConsistentPrefix(inst[0], adds, out', Origins(out, inst, adds, to));
    } else {
      OriginsConsistent(out', inst[1..], adds, to, i - 1);
    }
  }

  // ---------- growing a delta ----------

  lemma {:induction false} TilesAppend(a: seq<WInst>, b: seq<WInst>, from: nat, mid: nat, to: nat)
    requires Tiles(a, from, mid) && Tiles(b, mid, to)
    ensures Tiles(a + b, from, to)
    decreases |a|
  {
    if a == [] {
      assert a + b == b;
    } else {
      assert (a + b)[1..] == a[1..] + b;
      TilesAppend(a[1..], b, from + a[0].size, mid, to);
    }
  }

  lemma {:induction false} OriginsAppend(out: seq<Origin>, a: seq<WInst>, b: seq<WInst>, adds: seq<byte>, mid: nat, to: nat)
    requires Tiles(a, |out|, mid) && Tiles(b, mid, to)
    requires forall i :: 0 <= i < |a| ==> Operand(a[i], |adds|)
    requires forall i :: 0 <= i < |b| ==> Operand(b[i], |adds|)
    ensures Tiles(a + b, |out|, to)
    ensures Origins(out, a + b, adds, to) == Origins(Origins(out, a, adds, mid), b, adds, to)
    decreases |a|
  {
    TilesAppend(a, b, |out|, mid, to);
    if a == [] {
      assert a + b == b;
    } else {
      assert (a + b)[1..] == a[1..] + b;
      OriginsAppend(InstOrigins(out, a[0], adds), a[1..], b, adds, mid, to);
    }
  }

  lemma {:induction false} MoreAdds(out: seq<Origin>, inst: seq<WInst>, adds: seq<byte>, adds': seq<byte>, to: nat)
    requires Tiles(inst, |out|, to) && adds <= adds'
    requires forall i :: 0 <= i < |inst| ==> Operand(inst[i], |adds|)
    ensures Origins(out, inst, adds, to) == Origins(out, inst, adds', to)
    decreases |inst|
  {
    if inst != [] {
      var r := inst[0];
      if r.typ == XD3_ADD {
        assert adds[r.addr..r.addr + r.size] == adds'[r.addr..r.addr + r.size];
      }
      assert InstOrigins(out, r, adds) == InstOrigins(out, r, adds');
      MoreAdds(InstOrigins(out, r, adds), inst[1..], adds, adds', to);
    }
  }

  // One more instruction at the end, its operand possibly in newly added bytes.
  lemma AppendInst(inst: seq<WInst>, adds: seq<byte>, adds': seq<byte>, to: nat, m: WInst)
    requires Whole(inst, adds, to).Valid() && adds <= adds'
    requires m.position == to && Operand(m, |adds'|)
    ensures Whole(inst + [m], adds', to + m.size).Valid()
    ensures OriginsOf(Whole(inst + [m], adds', to + m.size)) == InstOrigins(OriginsOf(Whole(inst, adds, to)), m, adds')
  {
    hide Origins, Tiles, InstOrigins;
    OperandMore(inst, |adds|, |adds'|);
    MoreAdds([], inst, adds, adds', to);
    Single(m, adds', OriginsOf(Whole(inst, adds, to)));
    OriginsAppend([], inst, [m], adds', to, to + m.size);
    assert forall i :: 0 <= i < |inst + [m]| ==> Operand((inst + [m])[i], |adds'|);
  }

  lemma OperandMore(inst: seq<WInst>, n: nat, n': nat)
    requires n <= n' && forall i :: 0 <= i < |inst| ==> Operand(inst[i], n)
    ensures forall i :: 0 <= i < |inst| ==> Operand(inst[i], n')
  {
  }

  lemma Single(m: WInst, adds: seq<byte>, out: seq<Origin>)
    requires m.position == |out| && Operand(m, |adds|)
    ensures Tiles([m], |out|, |out| + m.size)
    ensures Origins(out, [m], adds, |out| + m.size) == InstOrigins(out, m, adds)
  {
    assert Tiles([m][1..], |out| + m.size, |out| + m.size);
  }

  // The piece of instruction r from offset off on, copied into another delta,
  // contributes the same origins.
  lemma PieceOrigins(o: seq<Origin>, out: seq<Origin>, r: WInst, adds: seq<byte>, off: nat, take: nat, m: WInst, adds': seq<byte>)
    requires Operand(r, |adds|) && r.position + r.size <= |o| && Consistent(r, adds, o) && off + take <= r.size
    requires m.position == |out| && m.size == take && m.typ == r.typ && Operand(m, |adds'|)
    requires r.typ == XD3_RUN ==> adds'[m.addr] == adds[r.addr]
    requires r.typ == XD3_ADD ==> adds'[m.addr..m.addr + take] == adds[r.addr + off..r.addr + off + take]
    requires r.typ == XD3_CPY ==> r.mode != InTarget && m.mode == r.mode && m.addr == r.addr + off
    ensures InstOrigins(out, m, adds') == out + o[r.position + off..r.position + off + take]
  {
    var piece := o[r.position + off..r.position + off + take];
    var got := InstOrigins(out, m, adds')[|out|..];
    assert InstOrigins(out, m, adds') == out + got;
    assert |got| == |piece|;
    forall k | 0 <= k < take
      ensures got[k] == piece[k]
    {
      assert ByteAt(r, adds, o, off + k);
      assert piece[k] == o[r.position + (off + k)];
      if r.typ == XD3_ADD {
        assert adds'[m.addr..m.addr + take][k] == adds[r.addr + off..r.addr + off + take][k];
      }
    }
  }

  // A target copy in the source delta has the origins of what it copies.
  lemma TargetPiece(o: seq<Origin>, r: WInst, adds: seq<byte>, off: nat, take: nat)
    requires Operand(r, |adds|) && r.position + r.size <= |o| && Consistent(r, adds, o) && off + take <= r.size
    requires r.typ == XD3_CPY && r.mode == InTarget
    ensures o[r.addr + off..r.addr + off + take] == o[r.position + off..r.position + off + take]
  {
    var a, b := o[r.addr + off..r.addr + off + take], o[r.position + off..r.position + off + take];
    forall k | 0 <= k < take
      ensures a[k] == b[k]
    {
      assert ByteAt(r, adds, o, off + k);
      assert b[k] == o[r.position + (off + k)];
    }
  }

  // ---------- reading through a delta ----------

  lemma ThroughAppend(a: seq<Origin>, b: seq<Origin>, via: seq<Origin>)
    requires WithinBase(a, |via|) && WithinBase(b, |via|)
    ensures WithinBase(a + b, |via|) && Through(a + b, via) == Through(a, via) + Through(b, via)
  {
  }

  lemma {:induction false} ThroughCopy(out: seq<Origin>, start: nat, n: nat, via: seq<Origin>)
    requires start < |out| && WithinBase(out, |via|)
    ensures WithinBase(CopyOrigins(out, start, n), |via|)
    ensures Through(CopyOrigins(out, start, n), via) == CopyOrigins(Through(out, via), start, n)
    decreases n
  {
    if n > 0 {
      var out' := out + [out[start]];
      assert Through(out', via) == Through(out, via) + [Through(out, via)[start]];
      ThroughCopy(out', start + 1, n - 1, via);
    }
  }

  // An instruction read through a delta: literals stay, target copies stay target
  // copies, and a source copy becomes a slice of the delta.
  lemma ThroughInst(out: seq<Origin>, r: WInst, adds: seq<byte>, via: seq<Origin>)
    requires |out| == r.position && Operand(r, |adds|) && WithinBase(out, |via|) && ReadsInst(r, |via|)
    ensures WithinBase(InstOrigins(out, r, adds), |via|)
    ensures Through(InstOrigins(out, r, adds), via) ==
            if r.typ == XD3_CPY && r.mode != InTarget then Through(out, via) + via[r.addr..r.addr + r.size]
            else InstOrigins(Through(out, via), r, adds)
  {
    hide Through, WithinBase;
    if r.typ == XD3_CPY {
      if r.mode == InTarget {
        ThroughCopy(out, r.addr, r.size, via);
      } else {
        ThroughRange(r.addr, r.size, via);
        ThroughAppend(out, Range(r.addr, r.size), via);
      }
    } else {
      var bytes := if r.typ == XD3_RUN then Repeat(adds[r.addr], r.size) else adds[r.addr..r.addr + r.size];
      ThroughLiterals(bytes, via);
      ThroughAppend(out, Literals(bytes), via);
    }
  }

  lemma ThroughRange(addr: nat, n: nat, via: seq<Origin>)
    requires addr + n <= |via|
    ensures WithinBase(Range(addr, n), |via|) && Through(Range(addr, n), via) == via[addr..addr + n]
  {
  }

  lemma ThroughLiterals(bytes: seq<byte>, via: seq<Origin>)
    ensures WithinBase(Literals(bytes), |via|) && Through(Literals(bytes), via) == Literals(bytes)
  {
  }

  lemma ThroughRender(o: seq<Origin>, via: seq<Origin>, base: seq<byte>)
    requires WithinBase(o, |via|) && WithinBase(via, |base|)
    ensures WithinBase(Through(o, via), |base|)
    ensures Render(Through(o, via), base) == Render(o, Render(via, base))
  {
  }

  // ---------- the merge ----------

  // How merging an instruction, or a delta, ends: it is merged, or reported as
  // invalid, or a copy has come to the end of the first delta's instructions with
  // bytes still to copy, and the source goes on reading behind them.
  datatype Outcome = Done | Invalid | PastEnd

  // What becomes of an instruction of the second delta when the first one's output
  // has n bytes.
  function Verdict(r: WInst, n: nat): Outcome {
    if r.typ != XD3_CPY || r.mode == InTarget then Done
    else if r.mode == VcdTarget || r.addr >= n then Invalid
    else if r.addr + r.size > n then PastEnd
    else Done
  }

  // What becomes of the whole: the first instruction that is not merged decides.
  function VerdictOf(inst: seq<WInst>, n: nat): Outcome {
    if inst == [] then Done
    else if Verdict(inst[0], n) != Done then Verdict(inst[0], n)
    else VerdictOf(inst[1..], n)
  }

  // All is merged exactly if every copy from outside the target is from the source,
  // begins within the first output and ends within it.
  lemma {:induction false} DoneIff(inst: seq<WInst>, n: nat)
    ensures VerdictOf(inst, n) == Done <==>
            forall i :: 0 <= i < |inst| ==> ReadsInst(inst[i], n) && (OutsideCopy(inst[i]) ==> inst[i].addr < n)
  {
    if inst != [] {
      DoneIff(inst[1..], n);
      assert forall i :: 0 < i < |inst| ==> inst[i] == inst[1..][i - 1];
    }
  }

  ghost predicate OutsideCopy(r: WInst) {
    r.typ == XD3_CPY && r.mode != InTarget
  }

  // A first delta of one byte and a second that copies two: the copy begins within
  // the first output, and merging runs past its end.
  lemma RunsPastEnd() returns (source: Whole, input: Whole)
    ensures source.Valid() && input.Valid() && source.length == 1 && |input.inst| == 1
    ensures VerdictOf(input.inst, source.length) == PastEnd
  {
    source := Whole([WInst(XD3_ADD, InTarget, 1, 0, 0)], [7], 1);
    input := Whole([WInst(XD3_CPY, VcdSource, 2, 0, 0)], [], 2);
    assert Tiles(source.inst[1..], 1, 1) && Tiles(input.inst[1..], 2, 2);
    assert VerdictOf(input.inst[1..], 1) == Done;
  }

  // xd3_merge_find_position: the instruction covering an address.
  method FindPosition(source: Whole, address: nat) returns (r: Result<nat>)
    requires source.Valid()
    ensures r.Fail? <==> address >= source.length
    ensures r.Ok? ==> r.value < |source.inst|
                      && source.inst[r.value].position <= address < source.inst[r.value].position + source.inst[r.value].size
  {
    if address >= source.length {
      return Fail;
    }
    var low, high := 0, |source.inst|;
    while low != high
      invariant 0 <= low <= high <= |source.inst|
      invariant forall i :: 0 <= i < low ==> source.inst[i].position + source.inst[i].size <= address
      invariant high < |source.inst| ==> address < source.inst[high].position
      decreases high - low
    {
      var mid := low + (high - low) / 2;
      var midLpos := source.inst[mid].position;
      if address < midLpos {
        high := mid;
        continue;
      }
      var midHpos := midLpos + source.inst[mid].size;
      if address >= midHpos {
        forall i | 0 <= i < mid
          ensures source.inst[i].position + source.inst[i].size <= address
        {
          TilesMonotone(source.inst, 0, source.length, i, mid);
        }
        low := mid + 1;
        continue;
      }
      return Ok(mid);
    }
    NoGap(source.inst, 0, source.length, low, address);
    assert false;
  }

  lemma {:induction false} TilesMonotone(inst: seq<WInst>, from: nat, to: nat, i: nat, j: nat)
    requires Tiles(inst, from, to) && i < j < |inst|
    ensures inst[i].position + inst[i].size <= inst[j].position
    decreases j - i
  {
    TilesWithin(inst, from, to, i);
    if i + 1 < j {
      TilesMonotone(inst, from, to, i + 1, j);
    }
  }

  // An address in range that is past the first i instructions is not before the
  // next.
  lemma NoGap(inst: seq<WInst>, from: nat, to: nat, i: nat, address: nat)
    requires Tiles(inst, from, to) && from <= address < to && i <= |inst|
    requires i > 0 ==> inst[i - 1].position + inst[i - 1].size <= address
    ensures i < |inst| && inst[i].position <= address
  {
    if i > 0 {
      TilesWithin(inst, from, to, i - 1);
    }
  }

  // The whole_target of the stream that receives the merge.
  class Stream {
    var inst: seq<WInst>
    var adds: seq<byte>
    var length: nat
    var wininfo: seq<WinInfo>

    // The delta so far, when its instructions end at position to.
    ghost function Delta(to: nat): Whole
      reads this
    {
      Whole(inst, adds, to)
    }

    // xd3_whole_state_init.
    constructor ()
      ensures Delta(0).Valid() && inst == [] && length == 0 && wininfo == []
    {
      inst, adds, length, wininfo := [], [], 0, [];
    }

    // xd3_merge_run and xd3_merge_add: the literal bytes are copied over.
    method MergeLiteral(target: Whole, iinst: WInst, ghost source: Whole)
      requires iinst.typ == XD3_RUN || iinst.typ == XD3_ADD
      requires target.Valid() && Operand(iinst, |target.adds|)
      requires length == iinst.position && Delta(length).Valid() && AllFrom(inst, source)
      modifies this`inst, this`adds, this`length
      ensures length == old(length) + iinst.size && Delta(length).Valid() && AllFrom(inst, source)
      ensures OriginsOf(Delta(length)) == InstOrigins(old(OriginsOf(Delta(length))), iinst, target.adds)
    {
      var bytes := if iinst.typ == XD3_RUN then [target.adds[iinst.addr]]
                   else target.adds[iinst.addr..iinst.addr + iinst.size];
      var oinst := WInst(iinst.typ, iinst.mode, iinst.size, |adds|, length);
      AppendLiteral(Delta(length), iinst, target.adds, bytes, oinst, source);
      hide OriginsOf, InstOrigins, Operand, Whole.Valid, AllFrom;
      inst := inst + [oinst];
      adds := adds + bytes;
      length := length + iinst.size;
    }

    // xd3_merge_target_copy.
    method MergeTargetCopy(iinst: WInst, ghost source: Whole)
      requires iinst.typ == XD3_CPY && iinst.mode == InTarget && Operand(iinst, |adds|)
      requires length == iinst.position && Delta(length).Valid() && AllFrom(inst, source)
      modifies this`inst
      ensures Delta(length + iinst.size).Valid() && AllFrom(inst, source)
      ensures OriginsOf(Delta(length + iinst.size)) == InstOrigins(old(OriginsOf(Delta(length))), iinst, adds)
    {
      AppendInst(inst, adds, adds, length, iinst);
      inst := inst + [iinst];
    }

    // xd3_merge_source_copy: replace a source copy by what the source delta does
    // there. Copies within the source delta's own output are followed recursively,
    // each time to a range that ends earlier.
    method MergeSourceCopy(source: Whole, orig: WInst) returns (r: Outcome)
      requires source.Valid() && orig.typ == XD3_CPY && orig.mode == VcdSource
      requires Delta(orig.position).Valid() && AllFrom(inst, source)
      modifies this`inst, this`adds
      ensures r == Verdict(orig, source.length)
      ensures r == Done ==>
                Grown(old(Delta(orig.position)), Delta(orig.position + orig.size), source, Part(source, orig.addr, orig.size))
      decreases orig.addr + orig.size, 2
    {
      var found := FindPosition(source, orig.addr);
      if found.Fail? {
        return Invalid;
      }
      StartInside(source, found.value, orig);
      var ok := MergePieces(source, found.value, orig);
      r := if ok then Done else PastEnd;
    }

    // The loop of xd3_merge_source_copy, from the instruction covering the copy's
    // start. It ends early where the source would read behind the last instruction.
    method MergePieces(source: Whole, first: nat, orig: WInst) returns (ok: bool)
      requires source.Valid() && Inside(source, first, orig.addr) && orig.addr <= source.length
      requires Delta(orig.position).Valid() && AllFrom(inst, source)
      modifies this`inst, this`adds
      ensures ok <==> orig.addr + orig.size <= source.length
      ensures ok ==>
                Grown(old(Delta(orig.position)), Delta(orig.position + orig.size), source, Part(source, orig.addr, orig.size))
      decreases orig.addr + orig.size, 1
    {
      hide Inside, SoFar, Grown, Part, AllFrom, Whole.Valid;
      var sinstNum: nat, done: nat := first, 0;
      ghost var was := Delta(orig.position);
      MergedNone(source, first, orig);
      while done < orig.size
        invariant Merged(was, source, orig, done, sinstNum)
        decreases |source.inst| - sinstNum
      {
        if sinstNum == |source.inst| {
          MergedShort(was, source, orig, done);
          return false;
        }
        done := MergePiece(source, sinstNum, orig, done, was);
        sinstNum := sinstNum + 1;
      }
      MergedAll(was, source, orig, done, sinstNum);
      return true;
    }

    // The first done bytes of the copy are merged, and instruction i of the source
    // delta is next, if there is one.
    ghost predicate Merged(was: Whole, source: Whole, orig: WInst, done: nat, i: nat)
      reads this
    {
      && i <= |source.inst| && SoFar(was, Delta(orig.position + done), source, orig, done)
      && (done < orig.size ==>
            if i < |source.inst| then Inside(source, i, orig.addr + done) else orig.addr + done == source.length)
    }

    lemma MergedNone(source: Whole, first: nat, orig: WInst)
      requires source.Valid() && Inside(source, first, orig.addr) && orig.addr <= source.length
      requires Delta(orig.position).Valid() && AllFrom(inst, source)
      ensures first <= |source.inst| && Merged(Delta(orig.position), source, orig, 0, first)
    {
      var was := Delta(orig.position);
      GrownNone(was, source, orig);
      InsideOffset(source, first, orig.addr);
      hide Inside, Grown, Part, AllFrom, Whole.Valid;
    }

    lemma MergedShort(was: Whole, source: Whole, orig: WInst, done: nat)
      requires Merged(was, source, orig, done, |source.inst|) && done < orig.size
      ensures orig.addr + orig.size > source.length
    {
    }

    lemma MergedAll(was: Whole, source: Whole, orig: WInst, done: nat, i: nat)
      requires Merged(was, source, orig, done, i) && done >= orig.size
      ensures source.Valid() && orig.addr + orig.size <= source.length
      ensures Grown(was, Delta(orig.position + orig.size), source, Part(source, orig.addr, orig.size))
    {
      hide SoFar, Grown, Part, Whole.Valid, AllFrom;
      SoFarValid(was, Delta(orig.position + done), source, orig, done);
    }

    // The body of that loop: what instruction i of the source delta covers of the
    // rest of the copy, from its byte number done on.
    method MergePiece(source: Whole, i: nat, orig: WInst, done: nat, ghost was: Whole) returns (done': nat)
      requires Merged(was, source, orig, done, i) && done < orig.size && i < |source.inst|
      modifies this`inst, this`adds
      ensures Merged(was, source, orig, done', i + 1)
      decreases orig.addr + orig.size, 0
    {
      hide Consistent, Tiles, AllFrom, OriginsOf, Inside, Operand, Whole.Valid, Part, Grown, SoFar;
      var addr, position := orig.addr + done, orig.position + done;
      ghost var now := Delta(position);
      SoFarValid(was, now, source, orig, done);
      InsideOffset(source, i, addr);
      InsideNext(source, i, addr);
      var sinst := source.inst[i];
      var sinstOffset := addr - sinst.position;
      var sinstLeft := sinst.size - sinstOffset;
      var take := Min(orig.size - done, sinstLeft);
      if sinst.typ == XD3_CPY && sinst.mode == InTarget {
        var tinst := WInst(XD3_CPY, VcdSource, take, sinst.addr + sinstOffset, position);
        FollowedFits(source, i, sinstOffset, take, tinst);
        var followed := MergeSourceCopy(source, tinst);
      } else {
        CopyPiece(source, i, sinstOffset, take, position);
      }
      GrownTwice(was, now, Delta(position + take), source, orig, done, take);
      done' := done + take;
    }

    // The RUN, ADD and source-copy cases of xd3_merge_source_copy: take bytes of
    // instruction i from offset off.
    method CopyPiece(source: Whole, i: nat, off: nat, take: nat, position: nat)
      requires source.Valid() && i < |source.inst| && off + take <= source.inst[i].size
      requires source.inst[i].typ == XD3_CPY ==> source.inst[i].mode != InTarget
      requires Delta(position).Valid() && AllFrom(inst, source)
      modifies this`inst, this`adds
      ensures source.inst[i].position + source.inst[i].size <= source.length
      ensures Grown(old(Delta(position)), Delta(position + take), source, Part(source, source.inst[i].position + off, take))
    {
      hide Grown, Part;
      var sinst := source.inst[i];
      ghost var was := Delta(position);
      AppendPiece(was, source, i, off, take);
      hide Tiles, OriginsOf, AllFrom, Whole.Valid;
      var minst := WInst(sinst.typ, InTarget, take, 0, position);
      var bytes := [];
      if sinst.typ == XD3_RUN {
        minst := minst.(addr := |adds|);
        bytes := [source.adds[sinst.addr]];
      } else if sinst.typ == XD3_ADD {
        minst := minst.(addr := |adds|);
        bytes := source.adds[sinst.addr + off..sinst.addr + off + take];
      } else {
        minst := minst.(mode := sinst.mode, addr := sinst.addr + off);
      }
      assert minst == PieceInst(sinst, off, take, |adds|, position) && bytes == PieceBytes(sinst, source.adds, off, take);
      adds := adds + bytes;
      inst := inst + [minst];
    }

    // One instruction of the second delta, in xd3_merge_inputs. io is what the
    // second delta has done so far.
    method MergeInst(source: Whole, input: Whole, iinst: WInst, ghost io: seq<Origin>) returns (r: Outcome)
      requires source.Valid() && input.Valid() && Operand(iinst, |input.adds|)
      requires length == iinst.position == |io| && Follows(Delta(length), source, io)
      modifies this`inst, this`adds, this`length
      ensures r == Verdict(iinst, source.length)
      ensures r == Done ==> length == old(length) + iinst.size && Follows(Delta(length), source, InstOrigins(io, iinst, input.adds))
    {
      hide OriginsOf, Tiles, Through, WithinBase, InstOrigins, Part;
      if iinst.typ == XD3_RUN || iinst.typ == XD3_ADD {
        ThroughInst(io, iinst, input.adds, OriginsOf(source));
        MergeLiteral(input, iinst, source);
      } else {
        if iinst.mode == InTarget {
          ThroughInst(io, iinst, input.adds, OriginsOf(source));
          MergeTargetCopy(iinst, source);
          TargetAdds(Through(io, OriginsOf(source)), iinst, adds, input.adds);
        } else if iinst.mode == VcdTarget {
          return Invalid;
        } else {
          ghost var was := Delta(length);
          var outcome := MergeSourceCopy(source, iinst);
          if outcome != Done {
            return outcome;
          }
          CopyFollows(was, Delta(length + iinst.size), source, io, iinst, input.adds);
        }
        length := length + iinst.size;
      }
      return Done;
    }

    // xd3_merge_inputs, into an empty stream.
    method MergeInputs(source: Whole, input: Whole, inputInfo: seq<WinInfo>) returns (r: Outcome)
      requires source.Valid() && input.Valid()
      requires inst == [] && length == 0 && wininfo == []
      modifies this
      ensures r == VerdictOf(input.inst, source.length)
      ensures r == Done ==> wininfo == inputInfo && length == input.length && Merges(Delta(length), source, input)
    {
      CopyInfo(inputInfo);
      hide Through, AllFrom, InstOrigins, Follows, Verdict, Operand;
      ghost var io := [];
      var n := 0;
      assert input.inst[0..] == input.inst;
      StartFollows(Delta(0), source);
      while n < |input.inst|
        invariant 0 <= n <= |input.inst| && wininfo == inputInfo
        invariant Follows(Delta(length), source, io) && |io| == length
        invariant Remaining(input, n, io)
        invariant VerdictOf(input.inst[n..], source.length) == VerdictOf(input.inst, source.length)
      {
        NextInst(input, n, io);
        assert input.inst[n..][1..] == input.inst[n + 1..];
        var outcome := MergeInst(source, input, input.inst[n], io);
        if outcome != Done {
          return outcome;
        }
        io := InstOrigins(io, input.inst[n], input.adds);
        n := n + 1;
      }
      AllMerged(Delta(length), source, input, n, io);
      return Done;
    }

    // The first loop of xd3_merge_inputs.
    method CopyInfo(inputInfo: seq<WinInfo>)
      requires wininfo == []
      modifies this`wininfo
      ensures wininfo == inputInfo
    {
      var i := 0;
      while i < |inputInfo|
        invariant 0 <= i <= |inputInfo| && wininfo == inputInfo[..i]
      {
        wininfo := wininfo + [inputInfo[i]];
        i := i + 1;
      }
    }
  }

  // A literal instruction keeps its origins when its bytes move to another buffer.
  lemma LiteralMoves(out: seq<Origin>, r: WInst, from: seq<byte>, adds: seq<byte>, bytes: seq<byte>, m: WInst)
    requires |out| == r.position && Operand(r, |from|) && (r.typ == XD3_RUN || r.typ == XD3_ADD)
    requires bytes == if r.typ == XD3_RUN then [from[r.addr]] else from[r.addr..r.addr + r.size]
    requires m == WInst(r.typ, r.mode, r.size, |adds|, r.position)
    ensures Operand(m, |adds + bytes|)
    ensures InstOrigins(out, m, adds + bytes) == InstOrigins(out, r, from)
  {
    if r.typ == XD3_ADD {
      assert (adds + bytes)[m.addr..m.addr + m.size] == bytes;
    } else {
      assert (adds + bytes)[m.addr] == bytes[0];
    }
  }

  lemma AppendLiteral(w: Whole, r: WInst, from: seq<byte>, bytes: seq<byte>, m: WInst, source: Whole)
    requires w.Valid() && AllFrom(w.inst, source)
    requires w.length == r.position && Operand(r, |from|) && (r.typ == XD3_RUN || r.typ == XD3_ADD)
    requires bytes == if r.typ == XD3_RUN then [from[r.addr]] else from[r.addr..r.addr + r.size]
    requires m == WInst(r.typ, r.mode, r.size, |w.adds|, r.position)
    ensures var w' := Whole(w.inst + [m], w.adds + bytes, w.length + r.size);
            w'.Valid() && AllFrom(w'.inst, source) && OriginsOf(w') == InstOrigins(OriginsOf(w), r, from)
  {
    LiteralMoves(OriginsOf(w), r, from, w.adds, bytes, m);
    hide Tiles, Origins, InstOrigins;
    AppendInst(w.inst, w.adds, w.adds + bytes, w.length, m);
  }

  // The delta so far is io read through the source delta.
  ghost predicate Follows(w: Whole, source: Whole, io: seq<Origin>)
    requires source.Valid()
  {
    && w.Valid() && AllFrom(w.inst, source) && WithinBase(io, source.length)
    && OriginsOf(w) == Through(io, OriginsOf(source))
  }

  // io and the instructions from n on make up the second delta.
  ghost predicate Remaining(input: Whole, n: nat, io: seq<Origin>)
    requires input.Valid()
  {
    && n <= |input.inst| && Tiles(input.inst[n..], |io|, input.length)
    && Origins(io, input.inst[n..], input.adds, input.length) == OriginsOf(input)
  }

  lemma NextInst(input: Whole, n: nat, io: seq<Origin>)
    requires input.Valid() && n < |input.inst| && Remaining(input, n, io)
    ensures Operand(input.inst[n], |input.adds|) && input.inst[n].position == |io|
    ensures Remaining(input, n + 1, InstOrigins(io, input.inst[n], input.adds))
  {
    hide Origins, Tiles, InstOrigins, OriginsOf;
    var rest := input.inst[n..];
    assert rest[0] == input.inst[n] && rest[1..] == input.inst[n + 1..];
    OriginsUnfold(io, rest, input.adds, input.length);
  }

  lemma OriginsUnfold(out: seq<Origin>, inst: seq<WInst>, adds: seq<byte>, to: nat)
    requires Tiles(inst, |out|, to) && inst != []
    requires forall i :: 0 <= i < |inst| ==> Operand(inst[i], |adds|)
    ensures inst[0].position == |out| && Tiles(inst[1..], |out| + inst[0].size, to)
    ensures Origins(out, inst, adds, to) == Origins(InstOrigins(out, inst[0], adds), inst[1..], adds, to)
  {
  }

  lemma StartFollows(w: Whole, source: Whole)
    requires source.Valid() && w.inst == [] && w.length == 0
    ensures Follows(w, source, [])
  {
  }

  lemma TargetAdds(out: seq<Origin>, r: WInst, adds: seq<byte>, adds': seq<byte>)
    requires |out| == r.position && r.typ == XD3_CPY && Operand(r, |adds|)
    ensures InstOrigins(out, r, adds) == InstOrigins(out, r, adds')
  {
  }

  lemma CopyFollows(w: Whole, w': Whole, source: Whole, io: seq<Origin>, r: WInst, adds: seq<byte>)
    requires source.Valid() && Follows(w, source, io) && |io| == r.position && Operand(r, |adds|)
    requires r.typ == XD3_CPY && r.mode == VcdSource && r.addr + r.size <= source.length
    requires Grown(w, w', source, Part(source, r.addr, r.size))
    ensures Follows(w', source, InstOrigins(io, r, adds))
  {
    ThroughInst(io, r, adds, OriginsOf(source));
  }

  lemma AllMerged(w: Whole, source: Whole, input: Whole, n: nat, io: seq<Origin>)
    requires source.Valid() && input.Valid() && Follows(w, source, io) && n == |input.inst| && Remaining(input, n, io)
    requires VerdictOf(input.inst, source.length) == Done
    ensures Merges(w, source, input) && |io| == input.length
  {
    assert input.inst[n..] == [];
    DoneIff(input.inst, source.length);
  }

  // A copy from the base is part of one the first delta makes.
  ghost predicate CopiesFrom(m: WInst, source: Whole) {
    m.typ == XD3_CPY && m.mode != InTarget ==> exists j :: 0 <= j < |source.inst| && PartOfCopy(m, source.inst[j])
  }

  ghost predicate PartOfCopy(m: WInst, r: WInst) {
    r.typ == XD3_CPY && r.mode == m.mode && r.addr <= m.addr && m.addr + m.size <= r.addr + r.size
  }

  ghost predicate AllFrom(inst: seq<WInst>, source: Whole) {
    forall i :: 0 <= i < |inst| ==> CopiesFrom(inst[i], source)
  }

  // The origins of a range of a delta's output.
  ghost function Part(source: Whole, addr: nat, n: nat): seq<Origin>
    requires source.Valid() && addr + n <= source.length
  {
    OriginsOf(source)[addr..addr + n]
  }

  // w' is w with more output after it.
  ghost predicate Grown(w: Whole, w': Whole, source: Whole, more: seq<Origin>) {
    w.Valid() && w'.Valid() && AllFrom(w'.inst, source) && OriginsOf(w') == OriginsOf(w) + more
  }

  // The first n bytes of a source copy have been merged.
  ghost predicate SoFar(w: Whole, w': Whole, source: Whole, orig: WInst, n: nat) {
    && source.Valid() && n <= orig.size && orig.addr + n <= source.length
    && Grown(w, w', source, Part(source, orig.addr, n))
  }

  lemma GrownNone(w: Whole, source: Whole, orig: WInst)
    requires w.Valid() && AllFrom(w.inst, source) && source.Valid() && orig.addr <= source.length
    ensures SoFar(w, w, source, orig, 0)
  {
  }

  lemma SoFarValid(w: Whole, w': Whole, source: Whole, orig: WInst, n: nat)
    requires SoFar(w, w', source, orig, n)
    ensures w'.Valid() && AllFrom(w'.inst, source) && n <= orig.size
    ensures source.Valid() && orig.addr + n <= source.length
    ensures Grown(w, w', source, Part(source, orig.addr, n))
  {
  }

  lemma GrownTwice(w: Whole, w1: Whole, w2: Whole, source: Whole, orig: WInst, n: nat, m: nat)
    requires SoFar(w, w1, source, orig, n) && n + m <= orig.size
    requires source.Valid() && orig.addr + n + m <= source.length
    requires Grown(w1, w2, source, Part(source, orig.addr + n, m))
    ensures SoFar(w, w2, source, orig, n + m)
  {
    hide OriginsOf, AllFrom, Whole.Valid;
    var so := OriginsOf(source);
    assert so[orig.addr..orig.addr + n] + so[orig.addr + n..orig.addr + n + m] == so[orig.addr..orig.addr + n + m];
  }

  // The literal bytes and the instruction a piece of r becomes.
  function PieceBytes(r: WInst, adds: seq<byte>, off: nat, take: nat): seq<byte>
    requires Operand(r, |adds|) && off + take <= r.size
  {
    if r.typ == XD3_RUN then [adds[r.addr]]
    else if r.typ == XD3_ADD then adds[r.addr + off..r.addr + off + take]
    else []
  }

  function PieceInst(r: WInst, off: nat, take: nat, addslen: nat, position: nat): WInst {
    if r.typ == XD3_CPY then WInst(r.typ, r.mode, take, r.addr + off, position)
    else WInst(r.typ, InTarget, take, addslen, position)
  }

  // Appending a piece of instruction i of the source delta.
  lemma AppendPiece(w: Whole, source: Whole, i: nat, off: nat, take: nat)
    requires w.Valid() && source.Valid() && AllFrom(w.inst, source) && i < |source.inst|
    requires off + take <= source.inst[i].size
    requires source.inst[i].typ == XD3_CPY ==> source.inst[i].mode != InTarget
    ensures Operand(source.inst[i], |source.adds|) && source.inst[i].position + source.inst[i].size <= source.length
    ensures var r := source.inst[i];
            var m, bytes := PieceInst(r, off, take, |w.adds|, w.length), PieceBytes(r, source.adds, off, take);
            Grown(w, Whole(w.inst + [m], w.adds + bytes, w.length + take), source, Part(source, r.position + off, take))
  {
    SourceConsistent(source, i);
    PieceFrom(w.inst, source, i, off, take, |w.adds|, w.length);
    hide Consistent, AllFrom, OriginsOf, Whole.Valid, PieceInst, PieceBytes, Operand;
    AppendPart(w, OriginsOf(source), source.inst[i], source.adds, off, take);
  }

  lemma SourceConsistent(source: Whole, i: nat)
    requires source.Valid() && i < |source.inst|
    ensures var r := source.inst[i];
            Operand(r, |source.adds|) && r.position + r.size <= source.length
            && Consistent(r, source.adds, OriginsOf(source))
  {
    OriginsConsistent([], source.inst, source.adds, source.length, i);
  }

  lemma PieceFrom(inst: seq<WInst>, source: Whole, i: nat, off: nat, take: nat, addslen: nat, position: nat)
    requires AllFrom(inst, source) && i < |source.inst| && off + take <= source.inst[i].size
    ensures AllFrom(inst + [PieceInst(source.inst[i], off, take, addslen, position)], source)
  {
    AddFrom(inst, PieceInst(source.inst[i], off, take, addslen, position), source, i);
  }

  lemma AppendPart(w: Whole, o: seq<Origin>, r: WInst, from: seq<byte>, off: nat, take: nat)
    requires w.Valid() && Operand(r, |from|) && r.position + r.size <= |o| && Consistent(r, from, o)
    requires off + take <= r.size && (r.typ == XD3_CPY ==> r.mode != InTarget)
    ensures var m, bytes := PieceInst(r, off, take, |w.adds|, w.length), PieceBytes(r, from, off, take);
            var w' := Whole(w.inst + [m], w.adds + bytes, w.length + take);
            w'.Valid() && OriginsOf(w') == OriginsOf(w) + o[r.position + off..r.position + off + take]
  {
    var m, bytes := PieceInst(r, off, take, |w.adds|, w.length), PieceBytes(r, from, off, take);
    PieceLiterals(r, from, off, take, w.adds, w.length);
    hide Consistent, InstOrigins, OriginsOf, PieceBytes, Operand, Whole.Valid;
    AppendInst(w.inst, w.adds, w.adds + bytes, w.length, m);
    PieceOrigins(o, OriginsOf(w), r, from, off, take, m, w.adds + bytes);
  }

  lemma PieceLiterals(r: WInst, from: seq<byte>, off: nat, take: nat, adds: seq<byte>, position: nat)
    requires Operand(r, |from|) && off + take <= r.size && (r.typ == XD3_CPY ==> r.mode != InTarget)
    ensures var adds' := adds + PieceBytes(r, from, off, take);
            var m := PieceInst(r, off, take, |adds|, position);
            && Operand(m, |adds'|)
            && (r.typ == XD3_RUN ==> adds'[m.addr] == from[r.addr])
            && (r.typ == XD3_ADD ==> adds'[m.addr..m.addr + take] == from[r.addr + off..r.addr + off + take])
  {
  }

  lemma AddFrom(inst: seq<WInst>, m: WInst, source: Whole, j: nat)
    requires AllFrom(inst, source) && j < |source.inst|
    requires m.typ == XD3_CPY && m.mode != InTarget ==> PartOfCopy(m, source.inst[j])
    ensures AllFrom(inst + [m], source)
  {
    assert CopiesFrom(m, source);
  }

  // What a successful merge leaves.
  ghost predicate Merges(merged: Whole, source: Whole, input: Whole)
    requires source.Valid() && input.Valid()
  {
    && merged.Valid() && AllFrom(merged.inst, source) && Reads(input, source.length)
    && WithinBase(OriginsOf(input), source.length)
    && OriginsOf(merged) == Through(OriginsOf(input), OriginsOf(source))
  }

  // Where the next piece starts: within an instruction, or at its start.
  ghost predicate Inside(source: Whole, i: nat, addr: nat) {
    i < |source.inst| && source.inst[i].position <= addr
    && (addr < source.inst[i].position + source.inst[i].size || addr == source.inst[i].position)
  }

  // The next piece, and where the one after it starts.
  lemma InsideNext(source: Whole, i: nat, addr: nat)
    requires source.Valid() && Inside(source, i, addr)
    ensures Operand(source.inst[i], |source.adds|) && source.inst[i].position + source.inst[i].size <= source.length
    ensures var end := source.inst[i].position + source.inst[i].size;
            if i + 1 < |source.inst| then Inside(source, i + 1, end) else end == source.length
  {
    TilesWithin(source.inst, 0, source.length, i);
    OriginsConsistent([], source.inst, source.adds, source.length, i);
  }

  lemma StartInside(source: Whole, i: nat, orig: WInst)
    requires i < |source.inst|
    requires source.inst[i].position <= orig.addr < source.inst[i].position + source.inst[i].size
    ensures Inside(source, i, orig.addr)
  {
  }

  lemma InsideOffset(source: Whole, i: nat, addr: nat)
    requires Inside(source, i, addr)
    ensures i < |source.inst| && 0 <= addr - source.inst[i].position <= source.inst[i].size
  {
  }

  // Following a target copy leads to an earlier range of the same output, with
  // the same origins.
  lemma FollowedFits(source: Whole, i: nat, off: nat, take: nat, t: WInst)
    requires source.Valid() && i < |source.inst| && source.inst[i].typ == XD3_CPY && source.inst[i].mode == InTarget
    requires off + take <= source.inst[i].size
    ensures var r := source.inst[i];
            && r.addr + off + take < r.position + off + take <= source.length
            && Part(source, r.addr + off, take) == Part(source, r.position + off, take)
            && (t.typ == XD3_CPY && t.mode == VcdSource && t.addr == r.addr + off && t.size == take ==>
                  Verdict(t, source.length) == Done)
  {
    TilesWithin(source.inst, 0, source.length, i);
    OriginsConsistent([], source.inst, source.adds, source.length, i);
    TargetPiece(OriginsOf(source), source.inst[i], source.adds, off, take);
  }

  // The merged delta takes any base to what the second delta makes of the output
  // of the first.
  lemma MergePreservesMeaning(source: Whole, input: Whole, merged: Whole, base: seq<byte>)
    requires source.Valid() && input.Valid() && Merges(merged, source, input) && Reads(source, |base|)
    ensures Reads(merged, |base|)
    ensures Apply(merged, base) == Apply(input, Apply(source, base))
  {
    forall i | 0 <= i < |merged.inst|
      ensures ReadsInst(merged.inst[i], |base|)
    {
      assert CopiesFrom(merged.inst[i], source);
    }
    ApplyIsRender(source, base);
    ApplyIsRender(merged, base);
    ApplyIsRender(input, Apply(source, base));
    ThroughRender(OriginsOf(input), OriginsOf(source), base);
  }
}
