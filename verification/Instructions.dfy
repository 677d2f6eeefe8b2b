// How one instruction, or a pair of them, is written to the three sections, and
// what the window format reads back.
module Instructions {
  import opened Bytes
  import opened Integers
  import opened AddressCache
  import opened CodeTable
  import opened WindowFormat

  const Empty: Sections := Sections([], [], [])

  // Address bytes a and data bytes d are exactly the operands of an instruction
  // that takes the decoder from st to st'.
  ghost predicate Step(w: Window, typ: nat, size: nat, a: seq<byte>, d: seq<byte>, st: State, st': State)
    requires w.Valid() && XD3_ADD <= typ < XD3_CPY + MODES && st.cache.Valid()
  {
    size > 0 && DoHalf(w, typ, size, Sections([], a, d), st) == Ok((Empty, st'))
  }

  lemma RunStep(w: Window, st: State, b: byte, size: nat)
    requires w.Valid() && st.cache.Valid() && size > 0 && |st.out| + size <= w.tgtlen
    ensures Step(w, XD3_RUN, size, [], [b], st, State(st.cache, st.out + Repeat(b, size)))
  {
    var h := HInst(XD3_RUN, size, 0);
    assert ParseHalf(w, XD3_RUN, size, [], [], st.cache, |st.out|) == Ok(Parsed(h, [], [], st.cache));
    assert [b][1..] == [];
    assert ExecHalf(w, st.out, h, [b]) == Ok((st.out + Repeat(b, size), []));
  }

  lemma AddStep(w: Window, st: State, bytes: seq<byte>)
    requires w.Valid() && st.cache.Valid() && bytes != [] && |st.out| + |bytes| <= w.tgtlen
    ensures Step(w, XD3_ADD, |bytes|, [], bytes, st, State(st.cache, st.out + bytes))
  {
    var h := HInst(XD3_ADD, |bytes|, 0);
    assert ParseHalf(w, XD3_ADD, |bytes|, [], [], st.cache, |st.out|) == Ok(Parsed(h, [], [], st.cache));
    assert bytes[..|bytes|] == bytes && bytes[|bytes|..] == [];
    assert ExecHalf(w, st.out, h, bytes) == Ok((st.out + bytes, []));
  }

  lemma CopyParse(w: Window, st: State, mode: nat, a: seq<byte>, addr: nat, size: nat)
    requires w.Valid() && st.cache.Valid() && size > 0 && |st.out| + size <= w.tgtlen && addr < U64
    requires Encodes(st.cache, w.cpylen + |st.out|, mode, a, addr)
    requires addr < w.cpylen + |st.out| && (addr < w.cpylen ==> addr + size <= w.cpylen)
    ensures ParseHalf(w, XD3_CPY + mode, size, [], a, st.cache, |st.out|)
            == Ok(Parsed(HInst(XD3_CPY + mode, size, addr), [], [], st.cache.Update(addr)))
    ensures st.cache.Update(addr).Valid()
  {
    hide AddressAt;
    UpdateValid(st.cache, addr);
    assert a[|a|..] == [];
  }

  lemma SourceStep(w: Window, st: State, mode: nat, a: seq<byte>, addr: nat, size: nat)
    requires w.Valid() && st.cache.Valid() && size > 0 && |st.out| + size <= w.tgtlen && addr < U64
    requires Encodes(st.cache, w.cpylen + |st.out|, mode, a, addr)
    requires addr + size <= w.cpylen && w.cpyoff + addr + size <= |w.source|
    ensures Step(w, XD3_CPY + mode, size, a, [], st,
                 State(st.cache.Update(addr), st.out + w.source[w.cpyoff + addr..w.cpyoff + addr + size]))
  {
    hide ParseHalf, CopySource;
    CopyParse(w, st, mode, a, addr, size);
    CopySourceIsSlice(w.source, w.blksize, w.cpyoff + addr, size);
  }

  lemma TargetStep(w: Window, st: State, mode: nat, a: seq<byte>, addr: nat, size: nat)
    requires w.Valid() && st.cache.Valid() && size > 0 && |st.out| + size <= w.tgtlen && addr < U64
    requires Encodes(st.cache, w.cpylen + |st.out|, mode, a, addr)
    requires w.cpylen <= addr < w.cpylen + |st.out|
    ensures Step(w, XD3_CPY + mode, size, a, [], st,
                 State(st.cache.Update(addr), CopyTarget(st.out, addr - w.cpylen, size)))
  {
    hide ParseHalf;
    CopyParse(w, st, mode, a, addr, size);
  }

  // The opcode of an instruction on its own, with its size when the table entry
  // does not hold it (xd3_emit_single).
  function SingleBytes(typ: nat, size: nat): seq<byte>
    requires XD3_ADD <= typ < XD3_CPY + MODES
  {
    var code := SingleCode(typ, size);
    [code] + if Rfc3284Entry(code).size1 == 0 then Encoded(size) else []
  }

  lemma SizeFollows(w: Window, typ: nat, size: nat, a: seq<byte>, d: seq<byte>, st: State)
    requires w.Valid() && XD3_ADD <= typ < XD3_CPY + MODES && st.cache.Valid() && 0 < size < U64
    ensures DoHalf(w, typ, 0, Sections(Encoded(size), a, d), st) == DoHalf(w, typ, size, Sections([], a, d), st)
  {
    ReadEncoded(size, []);
    assert Encoded(size) + [] == Encoded(size);
  }

  lemma SingleEmit(w: Window, typ: nat, size: nat, a: seq<byte>, d: seq<byte>, st: State, st': State)
    requires w.Valid() && XD3_ADD <= typ < XD3_CPY + MODES && st.cache.Valid() && size < U64
    requires Step(w, typ, size, a, d, st, st')
    ensures Emit(w, Sections(SingleBytes(typ, size), a, d), st) == Ok(st')
  {
    hide DoHalf;
    SingleCodeMeans(typ, size);
    SizeFollows(w, typ, size, a, d, st);
    var s := Sections(SingleBytes(typ, size), a, d);
    var e := Rfc3284Entry(s.inst[0]);
    assert s.inst[1..] == if e.size1 == 0 then Encoded(size) else [];
    assert DoOpcode(w, s, st) == Ok((Empty, st'));
    assert Emit(w, Empty, st') == Ok(st');
  }

  lemma DoubleEmit(w: Window, type1: nat, size1: nat, a1: seq<byte>, d1: seq<byte>,
                   type2: nat, size2: nat, a2: seq<byte>, d2: seq<byte>, st: State, st1: State, st2: State)
    requires w.Valid() && st.cache.Valid() && st1.cache.Valid()
    requires XD3_ADD <= type1 < XD3_CPY + MODES && XD3_ADD <= type2 < XD3_CPY + MODES
    requires Step(w, type1, size1, a1, d1, st, st1) && Step(w, type2, size2, a2, d2, st1, st2)
    requires DoubleCode(type1, size1, type2, size2) != 0
    ensures Emit(w, Sections([DoubleCode(type1, size1, type2, size2)], a1 + a2, d1 + d2), st) == Ok(st2)
  {
    hide DoHalf;
    DoubleCodeMeans(type1, size1, type2, size2);
    var s := Sections([DoubleCode(type1, size1, type2, size2)], a1 + a2, d1 + d2);
    var s1, s2 := Sections([], a1, d1), Sections([], a2, d2);
    HalfPrefix(w, type1, size1, s1, st, s2);
    assert s.(inst := s.inst[1..]) == Join(s1, s2);
    assert Join(Empty, s2) == s2;
    assert DoOpcode(w, s, st) == Ok((Empty, st2));
    assert Emit(w, Empty, st2) == Ok(st2);
  }

  // ---------- a window without copies ----------

  // A first or second half that is not a copy does not see the copy window.
  lemma HalfShift(w: Window, w': Window, typ: nat, size0: nat, s: Sections, st: State)
    requires w.Valid() && w'.Valid() && w'.tgtlen == w.tgtlen
    requires XD3_ADD <= typ < XD3_CPY + MODES && st.cache.Valid() && s.addr == []
    ensures DoHalf(w, typ, size0, s, st) == DoHalf(w', typ, size0, s, st)
    ensures DoHalf(w, typ, size0, s, st).Ok? ==> DoHalf(w, typ, size0, s, st).value.0.addr == []
  {
    assert ReadInt([]).Fail?;
    if typ >= XD3_CPY {
      assert AddressAt(st.cache, w.cpylen + |st.out|, typ - XD3_CPY, []).Fail?;
      assert AddressAt(st.cache, w'.cpylen + |st.out|, typ - XD3_CPY, []).Fail?;
    }
  }

  // Without address bytes there are no copies, so any copy window will do.
  lemma {:induction false} EmitShift(w: Window, w': Window, s: Sections, st: State)
    requires w.Valid() && w'.Valid() && w'.tgtlen == w.tgtlen && st.cache.Valid() && s.addr == []
    ensures Emit(w, s, st) == Emit(w', s, st)
    decreases |s.inst|
  {
    if s.inst != [] {
      hide DoHalf;
      var e := Rfc3284Entry(s.inst[0]);
      EntryTypes(s.inst[0]);
      var s0 := s.(inst := s.inst[1..]);
      HalfShift(w, w', e.type1, e.size1, s0, st);
      var first := DoHalf(w, e.type1, e.size1, s0, st);
      if first.Ok? && e.type2 != XD3_NOOP {
        HalfShift(w, w', e.type2, e.size2, first.value.0, first.value.1);
      }
      assert DoOpcode(w, s, st) == DoOpcode(w', s, st);
      var done := DoOpcode(w, s, st);
      if done.Ok? {
        EmitShift(w, w', done.value.0, done.value.1);
      }
    }
  }
}
