// The decoder's emit loop (xdelta3-decode.h), updating section cursors, address
// cache and output buffer in place, proved against the window format.
module WindowDecoder {
  import opened Bytes
  import opened Integers
  import opened AddressCache
  import opened CodeTable
  import opened WindowFormat

  const NoInst: HInst := HInst(XD3_NOOP, 0, 0)

  class Decoder {
    const w: Window
    const acache: AddrCache
    const nextOut: array<byte>
    const codeTable: array<Entry>
    // The unread part of each section: from its cursor to its end.
    var instSect: seq<byte>
    var addrSect: seq<byte>
    var dataSect: seq<byte>
    var availOut: nat
    // Decoder position (the HERE address): the copy window plus what all parsed
    // instructions cover.
    var position: nat
    var current1: HInst
    var current2: HInst

    ghost predicate Valid()
      reads this, acache, acache.near, acache.same, nextOut, codeTable
    {
      && w.Valid() && acache.Valid()
      && nextOut as object != acache.near && nextOut as object != acache.same
      && nextOut.Length == w.spaceOut && availOut <= w.spaceOut
      && codeTable.Length == 256 && codeTable as object != nextOut
      && codeTable as object != acache.near && codeTable as object != acache.same
      && forall i :: 0 <= i < 256 ==> codeTable[i] == Rfc3284Entry(i)
    }

    ghost function Out(): seq<byte>
      requires availOut <= nextOut.Length
      reads this, nextOut
    {
      nextOut[..availOut]
    }

    ghost function Rest(): Sections
      reads this
    {
      Sections(instSect, addrSect, dataSect)
    }

    // A fresh decoder for a window whose three sections have been read.
    constructor (w: Window, s: Sections)
      requires w.Valid()
      ensures Valid() && this.w == w && Rest() == s
      ensures acache.Contents() == InitCache() && availOut == 0 && position == w.cpylen
      ensures current1.typ == current2.typ == XD3_NOOP
      ensures fresh(acache) && fresh(acache.near) && fresh(acache.same) && fresh(nextOut) && fresh(codeTable)
    {
      var tbl := BuildCodeTable();
      var cache := new AddrCache();
      this.w := w;
      acache := cache;
      nextOut := new byte[w.spaceOut](_ => 0);
      codeTable := tbl;
      instSect, addrSect, dataSect := s.inst, s.addr, s.data;
      availOut, position := 0, w.cpylen;
      current1, current2 := NoInst, NoInst;
    }

    // xd3_decode_parse_halfinst.
    method ParseHalfinst(inst: HInst) returns (r: Result<HInst>)
      requires Valid() && XD3_ADD <= inst.typ < XD3_CPY + MODES
      modifies this`instSect, this`addrSect, this`position, acache, acache.near, acache.same
      ensures Valid()
      ensures var p := ParseHere(w, inst.typ, inst.size, old(instSect), old(addrSect), old(acache.Contents()), old(position));
              if p.Fail? then r.Fail?
              else r == Ok(p.value.h) && Parsed(r.value, instSect, addrSect, acache.Contents()) == p.value
                   && position == Sum64(old(position), r.value.size)
    {
      hide Rfc3284Entry, AddressAt, ReadInt, Cache.Update, Sum64;
      var size := inst.size;
      if size == 0 {
        var read, tooLarge := ReadInteger(instSect, 0);
        assert instSect[0..] == instSect;
        if read.Fail? {
          return Fail;
        }
        size := read.value.0;
        instSect := instSect[read.value.1..];
      }
      var addr := 0;
      if inst.typ >= XD3_CPY {
        var decoded := acache.DecodeAddress(position, inst.typ - XD3_CPY, addrSect, 0);
        assert addrSect[0..] == addrSect;
        if decoded.Fail? {
          return Fail;
        }
        addr := decoded.value.0;
        addrSect := addrSect[decoded.value.1..];
        if addr >= position {
          return Fail;
        }
        if addr < w.cpylen && Sum64(addr, size) > w.cpylen {
          return Fail;
        }
      }
      if Sum64(position, size) > w.cpylen + w.tgtlen {
        return Fail;
      }
      position := Sum64(position, size);
      r := Ok(HInst(inst.typ, size, addr));
    }

    // xd3_decode_output_halfinst: one step of an instruction. A source copy that
    // crosses a block boundary is left with the remainder still to do. An
    // instruction whose size made a sum of the checks wrap does not fit; its steps
    // still read what has been written and stay within the output space.
    method OutputHalfinst(inst: HInst) returns (r: Result<HInst>)
      requires Valid() && inst.typ != XD3_NOOP && Readable(w, availOut, inst)
      modifies this`dataSect, this`availOut, nextOut
      ensures Valid() && old(availOut) <= availOut && old(Out()) <= Out()
      ensures r.Ok? ==>
                && Readable(w, availOut, r.value) && availOut + Len(r.value) == old(availOut) + inst.size
                && (r.value.typ != XD3_NOOP ==> r.value.size < inst.size)
      ensures Fits(w, old(availOut), inst) ==>
                if r.Fail? then ExecHalf(w, old(Out()), inst, old(dataSect)).Fail?
                else
                  && Fits(w, availOut, r.value)
                  && ExecHalf(w, Out(), r.value, dataSect) == ExecHalf(w, old(Out()), inst, old(dataSect))
    {
      var take := inst.size;
      if availOut + take >= U64 || availOut + take > w.spaceOut {
        return Fail;
      }
      if inst.typ == XD3_RUN {
        if dataSect == [] {
          return Fail;
        }
        Write(Repeat(dataSect[0], take));
        dataSect := dataSect[1..];
        r := Ok(inst.(typ := XD3_NOOP));
      } else if inst.typ == XD3_ADD {
        if take > |dataSect| {
          return Fail;
        }
        Write(dataSect[..take]);
        dataSect := dataSect[take..];
        r := Ok(inst.(typ := XD3_NOOP));
      } else if inst.addr < w.cpylen {
        r := OutputSource(inst);
      } else {
        OutputTarget(inst);
        r := Ok(HInst(XD3_NOOP, 0, inst.addr));
      }
    }

    // memset and memcpy into the output buffer.
    method Write(bytes: seq<byte>)
      requires Valid() && availOut + |bytes| <= w.spaceOut
      modifies this`availOut, nextOut
      ensures Valid() && availOut == old(availOut) + |bytes| && Out() == old(Out()) + bytes
    {
      forall i | 0 <= i < |bytes| {
        nextOut[availOut + i] := bytes[i];
      }
      availOut := availOut + |bytes|;
      assert nextOut[..old(availOut)] == old(nextOut[..availOut]);
    }

    // The VCD_SOURCE branch: copy what the block holds.
    method OutputSource(inst: HInst) returns (r: Result<HInst>)
      requires Valid() && XD3_CPY <= inst.typ && inst.addr < w.cpylen && availOut + inst.size <= w.spaceOut
      modifies this`availOut, nextOut
      ensures Valid() && old(availOut) <= availOut && old(Out()) <= Out()
      ensures r.Ok? ==>
                && Readable(w, availOut, r.value) && availOut + Len(r.value) == old(availOut) + inst.size
                && (r.value.typ != XD3_NOOP ==> r.value.size < inst.size)
      ensures Fits(w, old(availOut), inst) ==>
                if r.Fail? then ExecHalf(w, old(Out()), inst, dataSect).Fail?
                else
                  && Fits(w, availOut, r.value)
                  && ExecHalf(w, Out(), r.value, dataSect) == ExecHalf(w, old(Out()), inst, dataSect)
    {
      hide CopySource, Block, ExecHalf, Rfc3284Entry, Cache.Valid, CurrentBlock, BlockOffset;
      var take := inst.size;
      if Fits(w, availOut, inst) {
        SourceStep(w, Out(), inst, dataSect);
      }
      var blk, blkoff := CurrentBlock(w, inst.addr), BlockOffset(w, inst.addr);
      if |blk| != w.blksize && blkoff + take > |blk| {
        return Fail;
      }
      if blkoff + take <= w.blksize {
        Write(blk[blkoff..blkoff + take]);
        r := Ok(HInst(XD3_NOOP, 0, inst.addr));
        NoopFirst(w, Out(), r.value, dataSect);
      } else {
        take := w.blksize - blkoff;
        Write(blk[blkoff..]);
        r := Ok(HInst(inst.typ, inst.size - take, Sum64(inst.addr, take)));
      }
    }

    // The target-window branch: an overlapping copy, byte by byte.
    method OutputTarget(inst: HInst)
      requires Valid() && XD3_CPY <= inst.typ && w.cpylen <= inst.addr && Readable(w, availOut, inst)
      requires availOut + inst.size <= w.spaceOut
      modifies this`availOut, nextOut
      ensures Valid() && availOut == old(availOut) + inst.size
      ensures Out() == CopyTarget(old(Out()), inst.addr - w.cpylen, inst.size)
    {
      hide CopyTarget, Rfc3284Entry, Cache.Valid, Window.Valid;
      var src, dst := inst.addr - w.cpylen, availOut;
      ghost var out := Out();
      CopyTargetNone(out, src);
      availOut := availOut + inst.size;
      var i := inst.size;
      while i != 0
        invariant availOut == |out| + inst.size
        invariant 0 <= i <= inst.size && dst == |out| + (inst.size - i) && src == inst.addr - w.cpylen + (inst.size - i)
        invariant nextOut[..dst] == CopyTarget(out, inst.addr - w.cpylen, inst.size - i)
        invariant Valid()
      {
        ghost var soFar := nextOut[..dst];
        CopyTargetSnoc(out, inst.addr - w.cpylen, inst.size - i);
        nextOut[dst] := nextOut[src];
        assert nextOut[..dst + 1] == soFar + [soFar[src]];
        dst, src, i := dst + 1, src + 1, i - 1;
      }
    }

    // xd3_decode_instruction: one opcode, both halves parsed.
    method DecodeInstruction() returns (ok: bool)
      requires Valid() && instSect != []
      modifies this`instSect, this`addrSect, this`position, this`current1, this`current2, acache, acache.near, acache.same
      ensures Valid() && dataSect == old(dataSect)
      ensures var p := ParseBoth(w, old(instSect), old(addrSect), old(acache.Contents()), old(position));
              if !ok then p.Fail?
              else
                && p == Ok(Opcode(current1, current2, instSect, addrSect, acache.Contents()))
                && position == Sum64(old(position), Len(current1) + Len(current2))
    {
      hide ParseHere, Sum64;
      var inst := codeTable[instSect[0]];
      EntryTypes(instSect[0]);
      instSect := instSect[1..];
      current1, current2 := HInst(inst.type1, inst.size1, 0), HInst(inst.type2, inst.size2, 0);
      var p1 := ParseHalfinst(current1);
      if p1.Fail? {
        return false;
      }
      current1 := p1.value;
      if inst.type2 != XD3_NOOP {
        var p2 := ParseHalfinst(current2);
        if p2.Fail? {
          return false;
        }
        current2 := p2.value;
        SumOfSums(old(position), current1.size, current2.size);
      }
      return true;
    }

    // The inner loops of xd3_decode_emit: a half is stepped until it is done.
    method OutputHalf(inst: HInst) returns (r: Result<HInst>)
      requires Valid() && Readable(w, availOut, inst)
      modifies this`dataSect, this`availOut, nextOut
      ensures Valid()
      ensures r.Ok? ==> r.value.typ == XD3_NOOP && availOut == old(availOut) + Len(inst)
      ensures Fits(w, old(availOut), inst) ==>
                ExecHalf(w, old(Out()), inst, old(dataSect)) == if r.Ok? then Ok((Out(), dataSect)) else Fail
    {
      hide ExecHalf, Rfc3284Entry, Cache.Valid, Window.Valid;
      ghost var fit, total := Fits(w, availOut, inst), availOut + Len(inst);
      ghost var goal := if fit then ExecHalf(w, Out(), inst, dataSect) else Fail;
      var h := inst;
      while h.typ != XD3_NOOP
        invariant Valid() && Readable(w, availOut, h) && total == availOut + Len(h)
        invariant fit ==> Fits(w, availOut, h) && ExecHalf(w, Out(), h, dataSect) == goal
        decreases if h.typ == XD3_NOOP then 0 else 1 + h.size
      {
        var step := OutputHalfinst(h);
        if step.Fail? {
          return Fail;
        }
        h := step.value;
      }
      NoopFirst(w, Out(), h, dataSect);
      r := Ok(h);
    }

    // Both halves of an instruction.
    method OutputHalves() returns (ok: bool)
      requires Valid() && Readable(w, availOut, current1) && Readable(w, availOut + Len(current1), current2)
      modifies this`dataSect, this`availOut, this`current1, this`current2, nextOut
      ensures Valid()
      ensures ok ==> availOut == old(availOut + Len(current1) + Len(current2)) && current1.typ == current2.typ == XD3_NOOP
      ensures old(Fits(w, availOut, current1) && Fits(w, availOut + Len(current1), current2)) ==>
                var p := Pending(w, old(current1), old(current2), old(Rest()), State(old(acache.Contents()), old(Out())));
                if ok then p == Ok((Rest(), State(acache.Contents(), Out()))) else p.Fail?
    {
      hide ExecHalf, Rfc3284Entry, Cache.Valid, Window.Valid;
      var first := OutputHalf(current1);
      if first.Fail? {
        return false;
      }
      current1 := first.value;
      var second := OutputHalf(current2);
      if second.Fail? {
        return false;
      }
      current2 := second.value;
      ok := true;
    }

    // xd3_decode_emit. The window decodes to what the format says it stands for,
    // whatever sizes it holds: once a sum has wrapped more has been written than the
    // window's length, and the loop fails or ends with the wrong length.
    method DecodeEmit() returns (r: Result<seq<byte>>)
      requires Valid() && current1.typ == current2.typ == XD3_NOOP
      requires acache.Contents() == InitCache() && availOut == 0 && position == w.cpylen
      modifies this, acache, acache.near, acache.same, nextOut
      ensures Valid() && r == DecodeWindow(w, old(Rest()))
    {
      hide DoOpcode, ExecHalf, ParseOpcode, ParseBoth, Pending, Rfc3284Entry, Sum64;
      ghost var goal := Emit(w, Rest(), InitState());
      assert Out() == [];
      while instSect != []
        invariant Valid() && current1.typ == current2.typ == XD3_NOOP && position == Sum64(w.cpylen, availOut)
        invariant if availOut <= w.tgtlen then Emit(w, Rest(), State(acache.Contents(), Out())) == goal else goal.Fail?
        decreases |instSect|
      {
        OpcodeParsed(w, Rest(), State(acache.Contents(), Out()));
        BothAgree(w, instSect, addrSect, acache.Contents(), availOut);
        ghost var n := availOut;
        var ok := DecodeInstruction();
        if !ok {
          return Fail;
        }
        SumOfSums(w.cpylen, n, Len(current1) + Len(current2));
        ok := OutputHalves();
        if !ok {
          return Fail;
        }
      }
      if availOut != w.tgtlen || dataSect != [] || addrSect != [] {
        return Fail;
      }
      r := Ok(nextOut[..availOut]);
    }
  }

  // The sum of two usize_t.
  function Sum64(a: nat, b: nat): (r: nat)
    ensures r < U64 && r <= a + b && (a + b < U64 ==> r == a + b)
  {
    (a + b) % U64
  }

  // Sums wrapped in between are the whole sum wrapped.
  lemma SumOfSums(a: nat, b: nat, c: nat)
    ensures Sum64(Sum64(a, b), c) == Sum64(a, b + c)
  {
    var q, r := (a + b) / U64, (a + b) % U64;
    assert (r + c) % U64 == (r + c + q * U64) % U64 by {
      AddMultiple(r + c, q);
    }
    assert r + c + q * U64 == a + (b + c);
  }

  lemma {:induction false} AddMultiple(x: nat, q: nat)
    ensures (x + q * U64) % U64 == x % U64
  {
    if q > 0 {
      assert x + q * U64 == (x + (q - 1) * U64) + U64;
      AddMultiple(x, q - 1);
    }
  }

  lemma CopyTargetNone(out: seq<byte>, start: nat)
    requires start < |out|
    ensures CopyTarget(out, start, 0) == out
  {
  }

  // A copy that starts within the copy window or what will have been written.
  ghost predicate Readable(w: Window, n: nat, h: HInst) {
    h.typ >= XD3_CPY ==> h.addr < w.cpylen + n
  }

  // Size and address of an instruction at a decoder position, with the checks as
  // xd3_decode_parse_halfinst makes them: in 64 bits, where a sum can wrap.
  function ParseHere(w: Window, typ: nat, size0: nat, inst: seq<byte>, addr: seq<byte>, cache: Cache, here: nat)
    : (r: Result<Parsed>)
    requires XD3_ADD <= typ < XD3_CPY + MODES && cache.Valid()
    ensures r.Ok? ==> r.value.h.typ == typ && (typ >= XD3_CPY ==> r.value.h.addr < here)
    ensures r.Ok? ==> r.value.cache.Valid() && |r.value.inst| <= |inst|
  {
    var read :- ReadSize(size0, inst);
    var size, used := read.0, read.1;
    if typ >= XD3_CPY then
      var decoded :- AddressAt(cache, here, typ - XD3_CPY, addr);
      var a, aused := decoded.0, decoded.1;
      if a >= here then Fail
      else if a < w.cpylen && Sum64(a, size) > w.cpylen then Fail
      else if Sum64(here, size) > w.cpylen + w.tgtlen then Fail
      else
        UpdateValid(cache, a);
        Ok(Parsed(HInst(typ, size, a), inst[used..], addr[aused..], cache.Update(a)))
    else if Sum64(here, size) > w.cpylen + w.tgtlen then Fail
    else Ok(Parsed(HInst(typ, size, 0), inst[used..], addr, cache))
  }

  // At a position that has not wrapped, the checks let through what fits, and besides
  // only what is longer than the rest of the window.
  lemma ParseAgrees(w: Window, typ: nat, size0: nat, inst: seq<byte>, addr: seq<byte>, cache: Cache, n: nat)
    requires w.Valid() && n <= w.tgtlen && XD3_ADD <= typ < XD3_CPY + MODES && cache.Valid()
    ensures var p := ParseHere(w, typ, size0, inst, addr, cache, w.cpylen + n);
            ParseHalf(w, typ, size0, inst, addr, cache, n)
            == if p.Fail? || n + p.value.h.size > w.tgtlen then Fail else p
  {
    hide ReadSize, AddressAt, Cache.Update, Sum64;
  }

  // What remains of an opcode whose halves are parsed: run the first, then the
  // second.
  function Pending(w: Window, h1: HInst, h2: HInst, s: Sections, st: State): (r: Result<(Sections, State)>)
    requires w.Valid() && Fits(w, |st.out|, h1) && Fits(w, |st.out| + Len(h1), h2)
    ensures r.Ok? ==> r.value.1.cache == st.cache && r.value.0.inst == s.inst && r.value.0.addr == s.addr
  {
    var first :- ExecHalf(w, st.out, h1, s.data);
    var second :- ExecHalf(w, first.0, h2, first.1);
    Ok((s.(data := second.1), st.(out := second.0)))
  }

  lemma NoopFirst(w: Window, out: seq<byte>, h: HInst, data: seq<byte>)
    requires w.Valid() && h.typ == XD3_NOOP
    ensures ExecHalf(w, out, h, data) == Ok((out, data))
  {
  }

  // xd3_blksize_add and xd3_getblk: the block holding a copy address, and the
  // address within it.
  function CurrentBlock(w: Window, addr: nat): (b: seq<byte>)
    requires w.Valid()
    ensures |b| <= w.blksize
  {
    Block(w.source, w.blksize, (w.cpyoff + addr) / w.blksize)
  }

  function BlockOffset(w: Window, addr: nat): (r: nat)
    requires w.Valid()
    ensures r < w.blksize
  {
    (w.cpyoff + addr) % w.blksize
  }

  // A source copy fails, finishes within a block, or splits at a block boundary
  // without changing its effect.
  lemma SourceStep(w: Window, out: seq<byte>, h: HInst, data: seq<byte>)
    requires w.Valid() && Fits(w, |out|, h) && XD3_CPY <= h.typ && h.addr < w.cpylen
    ensures var blk, blkoff := CurrentBlock(w, h.addr), BlockOffset(w, h.addr);
            if |blk| != w.blksize && blkoff + h.size > |blk| then ExecHalf(w, out, h, data).Fail?
            else if blkoff + h.size <= w.blksize then
              ExecHalf(w, out, h, data) == Ok((out + blk[blkoff..blkoff + h.size], data))
            else
              var part := blk[blkoff..];
              var h' := HInst(h.typ, h.size - |part|, h.addr + |part|);
              0 < |part| && Fits(w, |out + part|, h') && ExecHalf(w, out + part, h', data) == ExecHalf(w, out, h, data)
  {
    hide CopySource, Block;
    var off := w.cpyoff + h.addr;
    var blk, blkoff := CurrentBlock(w, h.addr), BlockOffset(w, h.addr);
    CopySourceUnfold(w.source, w.blksize, off, h.size);
    if |blk| == w.blksize && blkoff + h.size > w.blksize {
      var part := blk[blkoff..];
      var h' := HInst(h.typ, h.size - |part|, h.addr + |part|);
      assert |part| == w.blksize - blkoff && w.cpyoff + h'.addr == off + |part|;
      var rest := CopySource(w.source, w.blksize, off + |part|, h.size - |part|);
      assert rest == CopySource(w.source, w.blksize, w.cpyoff + h'.addr, h'.size);
      if rest.Ok? {
        assert out + part + rest.value == out + (part + rest.value);
        assert ExecHalf(w, out, h, data) == Ok((out + (part + rest.value), data));
        assert ExecHalf(w, out + part, h', data) == Ok((out + part + rest.value, data));
      } else {
        assert ExecHalf(w, out, h, data) == Fail;
        assert ExecHalf(w, out + part, h', data) == Fail;
      }
    }
  }

  datatype Opcode = Opcode(h1: HInst, h2: HInst, inst: seq<byte>, addr: seq<byte>, cache: Cache)

  // Both halves of an opcode, parsed one after the other when n target bytes are
  // there.
  function ParseOpcode(w: Window, inst: seq<byte>, addr: seq<byte>, cache: Cache, n: nat): (r: Result<Opcode>)
    requires inst != [] && cache.Valid()
    ensures r.Ok? ==>
              && Fits(w, n, r.value.h1) && Fits(w, n + Len(r.value.h1), r.value.h2)
              && r.value.cache.Valid() && |r.value.inst| < |inst|
  {
    var e := Rfc3284Entry(inst[0]);
    EntryTypes(inst[0]);
    var p1 :- ParseHalf(w, e.type1, e.size1, inst[1..], addr, cache, n);
    if e.type2 == XD3_NOOP then
      Ok(Opcode(p1.h, HInst(XD3_NOOP, e.size2, 0), p1.inst, p1.addr, p1.cache))
    else
      var p2 :- ParseHalf(w, e.type2, e.size2, p1.inst, p1.addr, p1.cache, n + p1.h.size);
      Ok(Opcode(p1.h, p2.h, p2.inst, p2.addr, p2.cache))
  }

  // Parsing both halves before running either, as xd3_decode_instruction does,
  // gives the result of running the first before parsing the second.
  lemma OpcodeParsed(w: Window, s: Sections, st: State)
    requires w.Valid() && s.inst != [] && st.cache.Valid()
    ensures var p := ParseOpcode(w, s.inst, s.addr, st.cache, |st.out|);
            DoOpcode(w, s, st) ==
            if p.Fail? then Fail
            else Pending(w, p.value.h1, p.value.h2, Sections(p.value.inst, p.value.addr, s.data),
                         State(p.value.cache, st.out))
  {
    hide ParseHalf, ExecHalf;
    EntryTypes(s.inst[0]);
    var e := Rfc3284Entry(s.inst[0]);
    var p1 := ParseHalf(w, e.type1, e.size1, s.inst[1..], s.addr, st.cache, |st.out|);
    if p1.Ok? {
      var first := ExecHalf(w, st.out, p1.value.h, s.data);
      if first.Ok? && e.type2 == XD3_NOOP {
        NoopFirst(w, first.value.0, HInst(XD3_NOOP, e.size2, 0), first.value.1);
      }
    }
  }
  // Both halves of an opcode, parsed one after the other from a decoder position, as
  // xd3_decode_instruction does.
  function ParseBoth(w: Window, inst: seq<byte>, addr: seq<byte>, cache: Cache, here: nat): (r: Result<Opcode>)
    requires inst != [] && cache.Valid()
    ensures r.Ok? ==> r.value.cache.Valid() && |r.value.inst| < |inst|
    ensures r.Ok? ==> (r.value.h1.typ >= XD3_CPY ==> r.value.h1.addr < here)
    ensures r.Ok? ==> (r.value.h2.typ >= XD3_CPY ==> r.value.h2.addr < Sum64(here, Len(r.value.h1)))
  {
    var e := Rfc3284Entry(inst[0]);
    EntryTypes(inst[0]);
    var p1 :- ParseHere(w, e.type1, e.size1, inst[1..], addr, cache, here);
    if e.type2 == XD3_NOOP then
      Ok(Opcode(p1.h, HInst(XD3_NOOP, e.size2, 0), p1.inst, p1.addr, p1.cache))
    else
      var p2 :- ParseHere(w, e.type2, e.size2, p1.inst, p1.addr, p1.cache, Sum64(here, p1.h.size));
      Ok(Opcode(p1.h, p2.h, p2.inst, p2.addr, p2.cache))
  }

  // So with a whole opcode: what is let through and does not fit is longer than the
  // rest of the window.
  lemma BothAgree(w: Window, inst: seq<byte>, addr: seq<byte>, cache: Cache, n: nat)
    requires w.Valid() && inst != [] && cache.Valid()
    ensures n <= w.tgtlen ==>
              var p := ParseBoth(w, inst, addr, cache, Sum64(w.cpylen, n));
              ParseOpcode(w, inst, addr, cache, n)
              == if p.Fail? || n + Len(p.value.h1) + Len(p.value.h2) > w.tgtlen then Fail else p
  {
    hide ParseHalf, ParseHere, Sum64, Rfc3284Entry, Cache.Valid;
    if n <= w.tgtlen {
      var e := Rfc3284Entry(inst[0]);
      EntryTypes(inst[0]);
      ParseAgrees(w, e.type1, e.size1, inst[1..], addr, cache, n);
      var p1 := ParseHere(w, e.type1, e.size1, inst[1..], addr, cache, w.cpylen + n);
      if p1.Ok? && n + p1.value.h.size <= w.tgtlen && e.type2 != XD3_NOOP {
        ParseAgrees(w, e.type2, e.size2, p1.value.inst, p1.value.addr, p1.value.cache, n + p1.value.h.size);
      }
    }
  }
}
