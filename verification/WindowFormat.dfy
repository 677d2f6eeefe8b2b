// The meaning of one VCDIFF target window (RFC 3284, sections 3 and 6): what the
// three sections of a delta stand for, given the source.
module WindowFormat {
  import opened Bytes
  import opened Integers
  import opened AddressCache
  import opened CodeTable

  // The header fields a window is decoded under. Addresses below cpylen lie in
  // the source at cpyoff, the others in the target window itself. spaceOut is
  // the room in the output buffer.
  datatype Window = Window(
    cpylen: nat, cpyoff: nat, tgtlen: nat, spaceOut: nat, source: seq<byte>, blksize: nat) {

    ghost predicate Valid() {
      tgtlen <= spaceOut && cpylen + tgtlen < U64 && blksize > 0
    }
  }

  // xd3_hinst: one decoded instruction.
  datatype HInst = HInst(typ: nat, size: nat, addr: nat)

  // The unread parts of the three sections.
  datatype Sections = Sections(inst: seq<byte>, addr: seq<byte>, data: seq<byte>)

  // What has been decoded so far: the cache and the target bytes.
  datatype State = State(cache: Cache, out: seq<byte>)

  function InitState(): State {
    State(InitCache(), [])
  }

  // An instruction that can run when n target bytes are already there.
  ghost predicate Fits(w: Window, n: nat, h: HInst) {
    && (h.typ != XD3_NOOP ==> n + h.size <= w.tgtlen)
    && (h.typ >= XD3_CPY ==>
          h.addr < w.cpylen + n && (h.addr < w.cpylen ==> h.addr + h.size <= w.cpylen))
  }

  // ---------- source copies, block by block ----------

  function Block(source: seq<byte>, blksize: nat, blkno: nat): (b: seq<byte>)
    requires blksize > 0
    ensures |b| <= blksize
  {
    assert (blkno + 1) * blksize == blkno * blksize + blksize;
    source[Min(blkno * blksize, |source|)..Min((blkno + 1) * blksize, |source|)]
  }

  // A source copy takes what the current block holds and goes on to the next.
  function CopySource(source: seq<byte>, blksize: nat, off: nat, size: nat): (r: Result<seq<byte>>)
    requires blksize > 0
    ensures r.Ok? ==> |r.value| == size
    decreases size
  {
    var blk := Block(source, blksize, off / blksize);
    var blkoff := off % blksize;
    if |blk| != blksize && blkoff + size > |blk| then Fail
    else if blkoff + size <= blksize then Ok(blk[blkoff..blkoff + size])
    else
      var take := blksize - blkoff;
      var rest :- CopySource(source, blksize, off + take, size - take);
      Ok(blk[blkoff..] + rest)
  }

  lemma BlockHolding(source: seq<byte>, blksize: nat, off: nat)
    requires blksize > 0
    ensures off % blksize <= off && off % blksize < blksize
    ensures var lo := off - off % blksize;
            Block(source, blksize, off / blksize) == source[Min(lo, |source|)..Min(lo + blksize, |source|)]
  {
    var q := off / blksize;
    assert q * blksize + off % blksize == off;
    assert (q + 1) * blksize == q * blksize + blksize;
  }

  // Cutting the source into blocks does not matter: a copy succeeds exactly when
  // it lies within the source, and yields the slice.
  lemma {:induction false} CopySourceIsSlice(source: seq<byte>, blksize: nat, off: nat, size: nat)
    requires blksize > 0 && size > 0
    ensures CopySource(source, blksize, off, size) ==
            if off + size <= |source| then Ok(source[off..off + size]) else Fail
    decreases size
  {
    hide CopySource, Block;
    CopySourceUnfold(source, blksize, off, size);
    BlockHolding(source, blksize, off);
    var blk := Block(source, blksize, off / blksize);
    var blkoff := off % blksize;
    if |blk| == blksize || blkoff + size <= |blk| {
      var lo := off - blkoff;
      assert lo + |blk| <= |source| && blk == source[lo..lo + |blk|];
      if blkoff + size <= blksize {
        assert off == lo + blkoff && blkoff + size <= |blk|;
        SliceOfSlice(source, lo, |blk|, blkoff, size);
      } else {
        var take := blksize - blkoff;
        CopySourceIsSlice(source, blksize, off + take, size - take);
        if off + size <= |source| {
          SliceOfSlice(source, lo, |blk|, blkoff, take);
          assert source[off..off + take] + source[off + take..off + size] == source[off..off + size];
        }
      }
    }
  }

  lemma CopySourceUnfold(source: seq<byte>, blksize: nat, off: nat, size: nat)
    requires blksize > 0
    ensures var blk := Block(source, blksize, off / blksize);
            var blkoff := off % blksize;
            CopySource(source, blksize, off, size) ==
            if |blk| != blksize && blkoff + size > |blk| then Fail
            else if blkoff + size <= blksize then Ok(blk[blkoff..blkoff + size])
            else
              var take := blksize - blkoff;
              var rest := CopySource(source, blksize, off + take, size - take);
              if rest.Fail? then Fail else Ok(blk[blkoff..] + rest.value)
  {
  }

  // ---------- target copies, byte by byte ----------

  // A target copy reads bytes it may just have written.
  function CopyTarget(out: seq<byte>, start: nat, size: nat): (r: seq<byte>)
    requires start < |out|
    ensures |r| == |out| + size && r[..|out|] == out
    decreases size
  {
    if size == 0 then out else CopyTarget(out + [out[start]], start + 1, size - 1)
  }

  // The byte loop: one more byte is the byte now at the read position.
  lemma {:induction false} CopyTargetSnoc(out: seq<byte>, start: nat, size: nat)
    requires start < |out|
    ensures var r := CopyTarget(out, start, size);
            CopyTarget(out, start, size + 1) == r + [r[start + size]]
    decreases size
  {
    if size > 0 {
      CopyTargetSnoc(out + [out[start]], start + 1, size - 1);
    }
  }

  // Every copied byte equals the byte a fixed distance before it.
  ghost predicate Repeats(r: seq<byte>, from: nat, gap: nat)
    requires 0 < gap <= from
  {
    forall i :: from <= i < |r| ==> r[i] == r[i - gap]
  }

  lemma {:induction false} CopyTargetRepeats(out: seq<byte>, start: nat, size: nat)
    requires start < |out|
    ensures Repeats(CopyTarget(out, start, size), |out|, |out| - start)
    decreases size
  {
    if size > 0 {
      var out' := out + [out[start]];
      CopyTargetRepeats(out', start + 1, size - 1);
      var r := CopyTarget(out, start, size);
      assert r[..|out'|] == out';
      assert r[|out|] == out'[|out|] && r[start] == out'[start];
    }
  }

  // That property determines the result.
  lemma {:induction false} CopyTargetUnique(out: seq<byte>, start: nat, r: seq<byte>)
    requires start < |out| && out <= r && Repeats(r, |out|, |out| - start)
    ensures r == CopyTarget(out, start, |r| - |out|)
    decreases |r| - |out|
  {
    if |r| > |out| {
      var out' := out + [out[start]];
      assert r[|out|] == r[start];
      CopyTargetUnique(out', start + 1, r);
    }
  }

  // ---------- one instruction ----------

  datatype Parsed = Parsed(h: HInst, inst: seq<byte>, addr: seq<byte>, cache: Cache)

  // A size given by the code table, or else read from the section.
  function ReadSize(size0: nat, inst: seq<byte>): (r: Result<(nat, nat)>)
    ensures r.Ok? ==> r.value.1 <= |inst|
  {
    if size0 != 0 then Ok((size0, 0)) else ReadInt(inst)
  }

  // Size, address and bounds of an instruction when n target bytes are there.
  function ParseHalf(w: Window, typ: nat, size0: nat, inst: seq<byte>, addr: seq<byte>, cache: Cache, n: nat)
    : (r: Result<Parsed>)
    requires XD3_ADD <= typ < XD3_CPY + MODES && cache.Valid()
    ensures r.Ok? ==> r.value.h.typ == typ && Fits(w, n, r.value.h) && r.value.cache.Valid()
    ensures r.Ok? ==> |r.value.inst| <= |inst|
  {
    var position := w.cpylen + n;
    var read :- ReadSize(size0, inst);
    var size, used := read.0, read.1;
    if typ >= XD3_CPY then
      var decoded :- AddressAt(cache, position, typ - XD3_CPY, addr);
      var a, aused := decoded.0, decoded.1;
      if a >= position then Fail
      else if a < w.cpylen && a + size > w.cpylen then Fail
      else if n + size > w.tgtlen then Fail
      else
        UpdateValid(cache, a);
        Ok(Parsed(HInst(typ, size, a), inst[used..], addr[aused..], cache.Update(a)))
    else if n + size > w.tgtlen then Fail
    else Ok(Parsed(HInst(typ, size, 0), inst[used..], addr, cache))
  }

  // How many target bytes an instruction still has to produce.
  function Len(h: HInst): nat {
    if h.typ == XD3_NOOP then 0 else h.size
  }

  // The effect of an instruction on the target and the data section.
  function ExecHalf(w: Window, out: seq<byte>, h: HInst, data: seq<byte>): (r: Result<(seq<byte>, seq<byte>)>)
    requires w.Valid() && Fits(w, |out|, h)
    ensures r.Ok? ==> out <= r.value.0
    ensures r.Ok? ==> |r.value.0| == |out| + Len(h)
  {
    if h.typ == XD3_NOOP then Ok((out, data))
    else if h.typ == XD3_RUN then
      if data == [] then Fail else Ok((out + Repeat(data[0], h.size), data[1..]))
    else if h.typ == XD3_ADD then
      if |data| < h.size then Fail else Ok((out + data[..h.size], data[h.size..]))
    else if h.addr < w.cpylen then
      var bytes :- CopySource(w.source, w.blksize, w.cpyoff + h.addr, h.size);
      Ok((out + bytes, data))
    else Ok((CopyTarget(out, h.addr - w.cpylen, h.size), data))
  }

  function DoHalf(w: Window, typ: nat, size0: nat, s: Sections, st: State): (r: Result<(Sections, State)>)
    requires w.Valid() && XD3_ADD <= typ < XD3_CPY + MODES && st.cache.Valid()
    ensures r.Ok? ==> r.value.1.cache.Valid() && |r.value.0.inst| <= |s.inst| && st.out <= r.value.1.out
  {
    var p :- ParseHalf(w, typ, size0, s.inst, s.addr, st.cache, |st.out|);
    var done :- ExecHalf(w, st.out, p.h, s.data);
    Ok((Sections(p.inst, p.addr, done.1), State(p.cache, done.0)))
  }

  function DoSecond(w: Window, e: Entry, s: Sections, st: State): (r: Result<(Sections, State)>)
    requires w.Valid() && e.type2 < XD3_CPY + MODES && st.cache.Valid()
    ensures r.Ok? ==> r.value.1.cache.Valid() && |r.value.0.inst| <= |s.inst| && st.out <= r.value.1.out
  {
    if e.type2 == XD3_NOOP then Ok((s, st)) else DoHalf(w, e.type2, e.size2, s, st)
  }

  lemma EntryTypes(code: byte)
    ensures var e := Rfc3284Entry(code);
            XD3_ADD <= e.type1 < XD3_CPY + MODES && e.type2 < XD3_CPY + MODES
  {
  }

  // One opcode: its first and, unless a no-op, its second instruction.
  function DoOpcode(w: Window, s: Sections, st: State): (r: Result<(Sections, State)>)
    requires w.Valid() && s.inst != [] && st.cache.Valid()
    ensures r.Ok? ==> r.value.1.cache.Valid() && |r.value.0.inst| < |s.inst| && st.out <= r.value.1.out
  {
    var e := Rfc3284Entry(s.inst[0]);
    EntryTypes(s.inst[0]);
    var first :- DoHalf(w, e.type1, e.size1, s.(inst := s.inst[1..]), st);
    DoSecond(w, e, first.0, first.1)
  }

  // ---------- a whole window ----------

  // Run opcodes until the instruction section is empty; the other two sections
  // must then be empty too.
  function Emit(w: Window, s: Sections, st: State): (r: Result<State>)
    requires w.Valid() && st.cache.Valid()
    ensures r.Ok? ==> r.value.cache.Valid() && st.out <= r.value.out
    decreases |s.inst|
  {
    if s.inst == [] then
      if s.addr == [] && s.data == [] then Ok(st) else Fail
    else
      var next :- DoOpcode(w, s, st);
      Emit(w, next.0, next.1)
  }

  // The target a window stands for.
  function DecodeWindow(w: Window, s: Sections): Result<seq<byte>>
    requires w.Valid()
  {
    var st :- Emit(w, s, InitState());
    if |st.out| == w.tgtlen then Ok(st.out) else Fail
  }

  // ---------- sections can be extended ----------

  function Join(a: Sections, b: Sections): Sections {
    Sections(a.inst + b.inst, a.addr + b.addr, a.data + b.data)
  }

  lemma ParsePrefix(w: Window, typ: nat, size0: nat, inst: seq<byte>, addr: seq<byte>, cache: Cache, n: nat,
                    inst': seq<byte>, addr': seq<byte>)
    requires XD3_ADD <= typ < XD3_CPY + MODES && cache.Valid()
    requires ParseHalf(w, typ, size0, inst, addr, cache, n).Ok?
    ensures var p := ParseHalf(w, typ, size0, inst, addr, cache, n).value;
            ParseHalf(w, typ, size0, inst + inst', addr + addr', cache, n)
            == Ok(Parsed(p.h, p.inst + inst', p.addr + addr', p.cache))
  {
    hide ReadInt, AddressAt, Cache.Update;
    var used := 0;
    if size0 == 0 {
      ReadPrefix(inst, inst');
      used := ReadInt(inst).value.1;
    }
    assert (inst + inst')[used..] == inst[used..] + inst';
    if typ >= XD3_CPY {
      AddressPrefix(cache, w.cpylen + n, typ - XD3_CPY, addr, addr');
      var aused := AddressAt(cache, w.cpylen + n, typ - XD3_CPY, addr).value.1;
      assert (addr + addr')[aused..] == addr[aused..] + addr';
    }
  }

  lemma ExecPrefix(w: Window, out: seq<byte>, h: HInst, data: seq<byte>, data': seq<byte>)
    requires w.Valid() && Fits(w, |out|, h) && ExecHalf(w, out, h, data).Ok?
    ensures var r := ExecHalf(w, out, h, data).value;
            ExecHalf(w, out, h, data + data') == Ok((r.0, r.1 + data'))
  {
    if h.typ == XD3_ADD {
      assert (data + data')[..h.size] == data[..h.size];
      assert (data + data')[h.size..] == data[h.size..] + data';
    } else if h.typ == XD3_RUN {
      assert (data + data')[1..] == data[1..] + data';
    }
  }

  lemma HalfPrefix(w: Window, typ: nat, size0: nat, s: Sections, st: State, t: Sections)
    requires w.Valid() && XD3_ADD <= typ < XD3_CPY + MODES && st.cache.Valid()
    requires DoHalf(w, typ, size0, s, st).Ok?
    ensures var (s', st') := DoHalf(w, typ, size0, s, st).value;
            DoHalf(w, typ, size0, Join(s, t), st) == Ok((Join(s', t), st'))
  {
    ParsePrefix(w, typ, size0, s.inst, s.addr, st.cache, |st.out|, t.inst, t.addr);
    hide ParseHalf, ExecHalf;
    ExecPrefix(w, st.out, ParseHalf(w, typ, size0, s.inst, s.addr, st.cache, |st.out|).value.h, s.data, t.data);
  }

  lemma OpcodePrefix(w: Window, s: Sections, st: State, t: Sections)
    requires w.Valid() && s.inst != [] && st.cache.Valid()
    requires DoOpcode(w, s, st).Ok?
    ensures var (s', st') := DoOpcode(w, s, st).value;
            DoOpcode(w, Join(s, t), st) == Ok((Join(s', t), st'))
  {
    hide DoHalf;
    var e := Rfc3284Entry(s.inst[0]);
    EntryTypes(s.inst[0]);
    var s0 := s.(inst := s.inst[1..]);
    assert Join(s, t).(inst := Join(s, t).inst[1..]) == Join(s0, t);
    HalfPrefix(w, e.type1, e.size1, s0, st, t);
    var (s1, st1) := DoHalf(w, e.type1, e.size1, s0, st).value;
    if e.type2 != XD3_NOOP {
      HalfPrefix(w, e.type2, e.size2, s1, st1, t);
    }
  }

  // Decoding sections s then continuing with t is decoding their concatenation.
  lemma {:induction false} EmitJoin(w: Window, s: Sections, st: State, t: Sections)
    requires w.Valid() && st.cache.Valid()
    requires Emit(w, s, st).Ok?
    ensures Emit(w, Join(s, t), st) == Emit(w, t, Emit(w, s, st).value)
    decreases |s.inst|
  {
    if s.inst == [] {
      assert Join(s, t) == t;
    } else {
      hide DoOpcode;
      OpcodePrefix(w, s, st, t);
      var (s', st') := DoOpcode(w, s, st).value;
      EmitJoin(w, s', st', t);
      EmitUnfold(w, Join(s, t), st);
    }
  }

  lemma EmitUnfold(w: Window, s: Sections, st: State)
    requires w.Valid() && s.inst != [] && st.cache.Valid() && DoOpcode(w, s, st).Ok?
    ensures Emit(w, s, st) == Emit(w, DoOpcode(w, s, st).value.0, DoOpcode(w, s, st).value.1)
  {
  }
}
