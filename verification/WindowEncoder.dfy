// Encoding one target window from its queue of candidate instructions
// (xdelta3.c): compaction, gap-filling ADDs, address coding, and single or double
// opcodes. What is written decodes to the input.
module WindowEncoder {
  import opened Bytes
  import opened Integers
  import opened AddressCache
  import opened CodeTable
  import opened WindowFormat
  import opened Instructions
  import opened Optimizer

  // The copy window a queue calls for: the range of matched source addresses.
  function CopyWindow(input: seq<byte>, source: seq<byte>, blksize: nat, hasSource: bool, minaddr: nat, maxaddr: nat): Window
    requires minaddr <= maxaddr
  {
    if hasSource && maxaddr != 0 then Window(maxaddr - minaddr, minaddr, |input|, |input|, source, blksize)
    else Window(0, 0, |input|, |input|, source, blksize)
  }

  // The bytes an instruction adds to the data section.
  function DataSize(r: RInst): nat {
    if r.typ == XD3_ADD then r.size else if r.typ == XD3_RUN then 1 else 0
  }

  class Encoder {
    const nextIn: seq<byte>
    const hasSource: bool
    const source: seq<byte>
    const blksize: nat
    const matchMinaddr: nat
    const matchMaxaddr: nat
    const acache: AddrCache
    const codeTable: array<Entry>
    var ioptUsed: seq<RInst>
    var srcwinDecided: bool
    var srcbase: nat
    var srclen: nat
    var taroff: nat
    // The three output sections, each a chain of pages.
    var dataSect: seq<byte>
    var instSect: seq<byte>
    var addrSect: seq<byte>
    var unencodedOffset: nat
    // The instruction whose opcode is not written yet.
    var iout: Option<RInst>
    // The decoder state before iout, and where its operands start.
    ghost var before: State
    ghost var doneAddr: nat
    ghost var doneData: nat

    ghost predicate Params() {
      matchMinaddr <= matchMaxaddr <= |source| && blksize > 0 && |source| + |nextIn| < U64
    }

    ghost function Win(): (w: Window)
      requires Params()
      ensures w.Valid() && w.tgtlen == |nextIn| && w.source == source
    {
      CopyWindow(nextIn, source, blksize, hasSource, matchMinaddr, matchMaxaddr)
    }

    ghost predicate Sane()
      reads this, acache, acache.near, acache.same, codeTable
    {
      && acache.Valid() && codeTable.Length == 256
      && codeTable as object != acache.near && codeTable as object != acache.same
      && (forall i :: 0 <= i < 256 ==> codeTable[i] == Rfc3284Entry(i))
      && Params()
    }

    // The source window is fixed when the first copy is encoded.
    ghost predicate SourceWindow()
      requires Params()
      reads this
    {
      && srclen == taroff
      && (srcwinDecided ==> hasSource && srcbase == Win().cpyoff && srclen == Win().cpylen)
      && (!srcwinDecided ==> srcbase == srclen == 0 && (hasSource ==> addrSect == []))
    }

    // The size of the three sections.
    ghost function Written(): nat
      reads this`instSect, this`addrSect, this`dataSect
    {
      |instSect| + |addrSect| + |dataSect|
    }

    // What a decoder would have after everything written and iout.
    ghost function After(): State
      requires unencodedOffset <= |nextIn|
      reads this, acache, acache.near, acache.same
    {
      State(acache.Contents(), nextIn[..unencodedOffset])
    }

    // The sections written so far, less the operands of iout, decode to the
    // state before iout; iout leads on to the encoder's own state.
    ghost predicate Valid()
      reads this, acache, acache.near, acache.same, codeTable
    {
      && Sane() && SourceWindow()
      && unencodedOffset <= |nextIn| && doneAddr <= |addrSect| && doneData <= |dataSect|
      && before.cache.Valid()
      && Emit(Win(), Sections(instSect, addrSect[..doneAddr], dataSect[..doneData]), InitState()) == Ok(before)
      && (iout.None? ==> doneAddr == |addrSect| && doneData == |dataSect| && before == After())
      && (iout.Some? ==>
            && XD3_ADD <= iout.value.typ < XD3_CPY + MODES && 0 < iout.value.size < U64
            && iout.value.code1 == SingleCode(iout.value.typ, iout.value.size) && iout.value.code2 == 0
            && Step(Win(), iout.value.typ, iout.value.size, addrSect[doneAddr..], dataSect[doneData..], before, After()))
    }

    // State at the start of a window (ENC_INPUT), with the queue the matcher left.
    constructor (input: seq<byte>, hasSource: bool, source: seq<byte>, blksize: nat,
                 minaddr: nat, maxaddr: nat, queue: seq<RInst>)
      requires minaddr <= maxaddr <= |source| && blksize > 0 && |source| + |input| < U64
      ensures Valid() && nextIn == input && this.hasSource == hasSource && this.source == source
      ensures this.blksize == blksize && matchMinaddr == minaddr && matchMaxaddr == maxaddr
      ensures ioptUsed == queue && unencodedOffset == 0 && iout.None? && Written() == 0
      ensures fresh(acache) && fresh(acache.near) && fresh(acache.same) && fresh(codeTable)
    {
      var tbl := BuildCodeTable();
      var cache := new AddrCache();
      nextIn := input;
      this.hasSource := hasSource;
      this.source := source;
      this.blksize := blksize;
      matchMinaddr, matchMaxaddr := minaddr, maxaddr;
      acache, codeTable := cache, tbl;
      ioptUsed := queue;
      srcwinDecided, srcbase, srclen, taroff := false, 0, 0, 0;
      dataSect, instSect, addrSect := [], [], [];
      unencodedOffset, iout := 0, None;
      before, doneAddr, doneData := InitState(), 0, 0;
    }

    // xd3_srcwin_setup in state ENC_INSTR.
    method SrcwinSetup()
      requires Valid() && !srcwinDecided && hasSource
      modifies this`srcwinDecided, this`srcbase, this`srclen, this`taroff
      ensures Valid() && srcwinDecided
    {
      hide AddrCache.Valid, Cache.Valid, Emit, InitState, Rfc3284Entry, Step;
      srcwinDecided := true;
      if matchMaxaddr != 0 {
        srcbase := matchMinaddr;
        srclen := matchMaxaddr - matchMinaddr;
      }
      taroff := srclen;
    }

    // A queued or synthesized instruction that comes next.
    ghost predicate Admissible(r: RInst)
      reads this
    {
      && r.size > 0 && r.pos == unencodedOffset && r.End() <= |nextIn|
      && (r.typ == XD3_ADD || Truthful(nextIn, source, r))
      && InRange(hasSource, matchMinaddr, matchMaxaddr, r)
    }

    // A copy: its address goes to the address section and it gets its mode.
    method EmitCopy(inst: RInst) returns (typ: nat, ghost a: seq<byte>)
      requires Valid() && Admissible(inst) && inst.typ == XD3_CPY
      modifies this`srcwinDecided, this`srcbase, this`srclen, this`taroff, this`addrSect, acache, acache.near, acache.same
      ensures Sane() && SourceWindow()
      ensures addrSect == old(addrSect) + a && |a| <= 10 && XD3_CPY <= typ < XD3_CPY + MODES
      ensures Step(Win(), typ, inst.size, a, [], State(old(acache.Contents()), nextIn[..inst.pos]),
                   State(acache.Contents(), nextIn[..inst.End()]))
    {
      hide Step, Emit, AddressAt, Rfc3284Entry, Cache.Update, Cache.Valid, Encodes;
      ghost var st := State(acache.Contents(), nextIn[..inst.pos]);
      var addr := inst.addr;
      if hasSource {
        if !srcwinDecided {
          SrcwinSetup();
        }
        if inst.xtra != 0 {
          addr := inst.addr - srcbase;
        } else {
          addr := taroff + inst.addr;
        }
      }
      assert taroff == Win().cpylen;
      ghost var cache := acache.Contents();
      var mode, bytes := acache.EncodeAddress(addr, inst.pos + taroff);
      SelfEncodes(cache, inst.pos + taroff, addr);
      addrSect := addrSect + bytes;
      typ, a := inst.typ + mode, bytes;
      CopyMeans(Win(), nextIn, source, inst, st, mode, a, addr);
    }

    // The first half of xd3_iopt_finish_encoding: the operands of an instruction
    // go to the address and data sections, and a copy gets its mode.
    method EmitOperands(inst: RInst) returns (typ: nat, ghost a: seq<byte>, ghost d: seq<byte>)
      requires Valid() && Admissible(inst)
      modifies this`srcwinDecided, this`srcbase, this`srclen, this`taroff, this`addrSect, this`dataSect,
               acache, acache.near, acache.same
      ensures Sane() && SourceWindow()
      ensures addrSect == old(addrSect) + a && dataSect == old(dataSect) + d
      ensures |a| <= 10 && |d| <= DataSize(inst)
      ensures XD3_ADD <= typ < XD3_CPY + MODES
      ensures Step(Win(), typ, inst.size, a, d, State(old(acache.Contents()), nextIn[..inst.pos]),
                   State(acache.Contents(), nextIn[..inst.End()]))
    {
      hide Step, Emit, AddressAt, Rfc3284Entry, Cache.Update;
      ghost var st := State(acache.Contents(), nextIn[..inst.pos]);
      a, d, typ := [], [], inst.typ;
      if inst.typ == XD3_CPY {
        typ, a := EmitCopy(inst);
      } else if inst.typ == XD3_RUN {
        dataSect := dataSect + [inst.xtra];
        d := [inst.xtra];
        RunStep(Win(), st, inst.xtra, inst.size);
        assert nextIn[..inst.End()] == st.out + Repeat(inst.xtra, inst.size);
      } else {
        d := nextIn[inst.pos..inst.End()];
        dataSect := dataSect + nextIn[inst.pos..inst.pos + inst.size];
        AddStep(Win(), st, d);
        assert nextIn[..inst.End()] == st.out + d;
      }
      assert addrSect + [] == addrSect && dataSect + [] == dataSect;
    }

    // xd3_emit_single.
    method EmitSingle(single: RInst)
      requires codeTable.Length == 256 && (forall i :: 0 <= i < 256 ==> codeTable[i] == Rfc3284Entry(i))
      requires XD3_ADD <= single.typ < XD3_CPY + MODES && single.size < U64
      requires single.code1 == SingleCode(single.typ, single.size)
      modifies this`instSect
      ensures instSect == old(instSect) + SingleBytes(single.typ, single.size)
    {
      var hasSize := codeTable[single.code1].size1 == 0;
      instSect := instSect + [single.code1];
      if hasSize {
        var bytes := EmitInteger(single.size);
        instSect := instSect + bytes;
      }
      assert instSect == old(instSect) + SingleBytes(single.typ, single.size);
    }

    // Everything written but the operands a and d of an instruction that leads
    // from st to the encoder's state; iout, if any, leads to st.
    ghost predicate Between(a: seq<byte>, d: seq<byte>, st: State)
      reads this, acache, acache.near, acache.same, codeTable
    {
      && Sane() && SourceWindow() && st.cache.Valid()
      && unencodedOffset <= |nextIn| && |a| <= |addrSect| && |d| <= |dataSect|
      && addrSect[|addrSect| - |a|..] == a && dataSect[|dataSect| - |d|..] == d
      && doneAddr <= |addrSect| - |a| && doneData <= |dataSect| - |d|
      && before.cache.Valid()
      && Emit(Win(), Sections(instSect, addrSect[..doneAddr], dataSect[..doneData]), InitState()) == Ok(before)
      && (iout.None? ==> doneAddr == |addrSect| - |a| && doneData == |dataSect| - |d| && before == st)
      && (iout.Some? ==>
            && XD3_ADD <= iout.value.typ < XD3_CPY + MODES && 0 < iout.value.size < U64
            && iout.value.code1 == SingleCode(iout.value.typ, iout.value.size) && iout.value.code2 == 0
            && Step(Win(), iout.value.typ, iout.value.size,
                    addrSect[doneAddr..|addrSect| - |a|], dataSect[doneData..|dataSect| - |d|], before, st))
    }

    // xd3_iopt_finish_encoding.
    method FinishEncoding(inst: RInst)
      requires Valid() && Admissible(inst)
      modifies this`srcwinDecided, this`srcbase, this`srclen, this`taroff, this`addrSect, this`dataSect, this`instSect,
               this`unencodedOffset, this`iout, this`before, this`doneAddr, this`doneData,
               acache, acache.near, acache.same
      ensures Valid() && unencodedOffset == inst.End()
      ensures Written() <= old(Written()) + 21 + DataSize(inst)
    {
      hide Step, Emit, Truthful;
      ghost var st, a0, d0 := After(), addrSect, dataSect;
      var typ, a, d := EmitOperands(inst);
      unencodedOffset := unencodedOffset + inst.size;
      assert addrSect[..|a0|] == a0 && dataSect[..|d0|] == d0;
      assert addrSect[..doneAddr] == a0[..doneAddr] && dataSect[..doneData] == d0[..doneData];
      assert addrSect[doneAddr..|a0|] == a0[doneAddr..] && dataSect[doneData..|d0|] == d0[doneData..];
      ChooseAndEmit(inst.(typ := typ), a, d, st);
    }

    // The second half of xd3_iopt_finish_encoding: xd3_choose_instruction, with
    // iout as the previous instruction, then the opcode of iout, alone or double.
    method ChooseAndEmit(inst0: RInst, ghost a: seq<byte>, ghost d: seq<byte>, ghost st: State)
      requires Between(a, d, st)
      requires XD3_ADD <= inst0.typ < XD3_CPY + MODES && 0 < inst0.size < U64
      requires Step(Win(), inst0.typ, inst0.size, a, d, st, After())
      modifies this`instSect, this`iout, this`before, this`doneAddr, this`doneData
      ensures Valid() && |instSect| <= old(|instSect|) + 11
    {
      hide Step, Emit, Cache.Valid, Window.Valid, Rfc3284Entry, SingleCode, DoubleCode, SingleBytes, CopyWindow, Cache.Update;
      var inst := inst0.(code1 := SingleCode(inst0.typ, inst0.size), code2 := 0);
      if iout.Some? {
        var code2 := DoubleCode(iout.value.typ, iout.value.size, inst.typ, inst.size);
        if code2 != 0 {
          EmitDouble(inst, code2, a, d, st);
          return;
        }
        EmitPrevious(a, d, st);
      }
      before, doneAddr, doneData := st, |addrSect| - |a|, |dataSect| - |d|;
      iout := Some(inst);
    }

    // xd3_emit_double: iout and inst share one opcode.
    method EmitDouble(inst: RInst, code2: byte, ghost a: seq<byte>, ghost d: seq<byte>, ghost st: State)
      requires Between(a, d, st) && iout.Some?
      requires XD3_ADD <= inst.typ < XD3_CPY + MODES && 0 < inst.size < U64
      requires Step(Win(), inst.typ, inst.size, a, d, st, After())
      requires code2 != 0 && code2 == DoubleCode(iout.value.typ, iout.value.size, inst.typ, inst.size)
      modifies this`instSect, this`iout, this`before, this`doneAddr, this`doneData
      ensures Valid() && |instSect| <= old(|instSect|) + 11
    {
      hide Step, Emit, Cache.Valid, Window.Valid, Rfc3284Entry, SingleCode, DoubleCode, SingleBytes, CopyWindow, Cache.Update;
      ghost var w, i, j := Win(), |addrSect| - |a|, |dataSect| - |d|;
      var prev := iout.value;
      ghost var a1, d1 := addrSect[doneAddr..i], dataSect[doneData..j];
      assert addrSect[doneAddr..|addrSect|] == a1 + a && dataSect[doneData..|dataSect|] == d1 + d;
      DoubleEmit(w, prev.typ, prev.size, a1, d1, inst.typ, inst.size, a, d, before, st, After());
      Grow(w, instSect, addrSect, dataSect, doneAddr, doneData, before, [code2], |addrSect|, |dataSect|, After());
      instSect := instSect + [code2];
      iout := None;
      before, doneAddr, doneData := After(), |addrSect|, |dataSect|;
    }

    // iout on its own: its operands join the decoded part.
    method EmitPrevious(ghost a: seq<byte>, ghost d: seq<byte>, ghost st: State)
      requires Between(a, d, st) && iout.Some?
      modifies this`instSect
      ensures |instSect| <= old(|instSect|) + 11
      ensures Sane() && SourceWindow() && addrSect[|addrSect| - |a|..] == a && dataSect[|dataSect| - |d|..] == d
      ensures Emit(Win(), Sections(instSect, addrSect[..|addrSect| - |a|], dataSect[..|dataSect| - |d|]), InitState()) == Ok(st)
    {
      hide Step, Emit, Cache.Valid, Window.Valid, SingleBytes, SingleCode, CopyWindow;
      ghost var w, i, j := Win(), |addrSect| - |a|, |dataSect| - |d|;
      var prev := iout.value;
      SingleEmit(w, prev.typ, prev.size, addrSect[doneAddr..i], dataSect[doneData..j], before, st);
      Grow(w, instSect, addrSect, dataSect, doneAddr, doneData, before, SingleBytes(prev.typ, prev.size), i, j, st);
      SingleBytesLength(prev.typ, prev.size);
      EmitSingle(prev);
    }

    // xd3_iopt_add: an ADD for the unmatched input up to pos.
    method IoptAdd(pos: nat)
      requires Valid() && unencodedOffset <= pos <= |nextIn|
      modifies this`srcwinDecided, this`srcbase, this`srclen, this`taroff, this`addrSect, this`dataSect, this`instSect,
               this`unencodedOffset, this`iout, this`before, this`doneAddr, this`doneData,
               acache, acache.near, acache.same
      ensures Valid() && unencodedOffset == pos
      ensures Written() <= old(Written()) + 22 * (pos - old(unencodedOffset))
    {
      var off := unencodedOffset;
      if pos > off {
        FinishEncoding(RInst(XD3_ADD, 0, 0, 0, off, pos - off, 0));
      }
    }

    // The queue is one run that covers the window.
    ghost predicate OneRun()
      reads this
    {
      |ioptUsed| == 1 && ioptUsed[0].typ == XD3_RUN && ioptUsed[0].pos == 0 && ioptUsed[0].size == |nextIn|
    }

    // A queue that can be encoded as it is, from the unencoded offset on.
    ghost predicate Compacted()
      reads this
    {
      && Sized(ioptUsed) && Disjoint(ioptUsed) && AllTruthful(nextIn, source, ioptUsed)
      && AllInRange(hasSource, matchMinaddr, matchMaxaddr, ioptUsed)
      && (ioptUsed != [] ==> unencodedOffset <= ioptUsed[0].pos)
    }

    // xd3_iopt_add_encoding: an ADD for the gap before the first instruction of the
    // queue, then that instruction.
    method AddEncoding()
      requires Valid() && Compacted() && ioptUsed != []
      modifies this, acache, acache.near, acache.same
      ensures Valid() && Compacted() && ioptUsed == old(ioptUsed)[1..] && unencodedOffset == old(ioptUsed)[0].End()
      ensures Written() <= old(Written()) + 22 * (old(ioptUsed)[0].pos - old(unencodedOffset)) + 21 + DataSize(old(ioptUsed)[0])
    {
      hide Step, Emit, Cache.Valid, Window.Valid, CopyWindow, Rfc3284Entry, SingleCode;
      var renc := ioptUsed[0];
      ioptUsed := ioptUsed[1..];
      IoptAdd(renc.pos);
      FinishEncoding(renc);
    }

    // xd3_iopt_flush_instructions with force = 1: compact the queue, then encode it.
    method FlushInstructions()
      requires Valid() && unencodedOffset == 0 && Written() == 0
      requires Ordered(ioptUsed) && Sized(ioptUsed) && AllTruthful(nextIn, source, ioptUsed)
      requires AllInRange(hasSource, matchMinaddr, matchMaxaddr, ioptUsed)
      modifies this, acache, acache.near, acache.same
      ensures Valid() && ioptUsed == [] && Written() <= 22 * unencodedOffset
      ensures old(OneRun()) ==> unencodedOffset == |nextIn| && Written() <= 22
    {
      hide Step, Emit, Trim, Cache.Valid, Window.Valid, PartOfSome, CopyWindow, Rfc3284Entry, SingleCode, Truthful, InRange;
      TrimCompacts(ioptUsed);
      TrimTruthful(nextIn, source, ioptUsed);
      TrimInRange(hasSource, matchMinaddr, matchMaxaddr, ioptUsed);
      ghost var run := OneRun();
      if run {
        TrimIdle(ioptUsed);
      }
      ioptUsed := Compact(ioptUsed);
      while ioptUsed != []
        invariant Valid() && Compacted() && Written() <= 22 * unencodedOffset
        invariant run ==>
                    if ioptUsed == [] then unencodedOffset == |nextIn| && Written() <= 22
                    else OneRun() && unencodedOffset == 0 && Written() == 0
        decreases |ioptUsed|
      {
        assert ioptUsed[0].size >= MIN_MATCH;
        AddEncoding();
      }
    }

    // The opcode of the last instruction.
    method EmitLast()
      requires Valid() && iout.Some?
      modifies this`instSect, this`iout, this`before, this`doneAddr, this`doneData
      ensures Valid() && iout.None? && |instSect| <= old(|instSect|) + 11
    {
      hide Step, Emit, Cache.Valid, Window.Valid, Rfc3284Entry, SingleCode, SingleBytes, CopyWindow, Params;
      assert addrSect[doneAddr..|addrSect|] == addrSect[doneAddr..] && dataSect[doneData..|dataSect|] == dataSect[doneData..];
      EmitPrevious([], [], After());
      before, doneAddr, doneData := After(), |addrSect|, |dataSect|;
      iout := None;
    }

    // xd3_iopt_add_finalize: an ADD for the tail, then the last opcode.
    method AddFinalize()
      requires Valid() && Written() <= 22 * unencodedOffset
      modifies this, acache, acache.near, acache.same
      ensures Valid() && iout.None? && unencodedOffset == |nextIn|
      ensures Written() <= 22 * |nextIn| + 11
      ensures old(unencodedOffset) == |nextIn| ==> Written() <= old(Written()) + 11
    {
      hide Step, Emit, Cache.Valid, Window.Valid, Rfc3284Entry, SingleCode, SingleBytes, CopyWindow, Params;
      IoptAdd(|nextIn|);
      if iout.Some? {
        EmitLast();
      }
    }

    // ENC_INSTR: flush and finalize. The three sections decode, under the copy
    // window the header announces, to exactly the input.
    method EncodeWindow()
      requires Valid() && unencodedOffset == 0 && iout.None? && Written() == 0
      requires Ordered(ioptUsed) && Sized(ioptUsed) && AllTruthful(nextIn, source, ioptUsed)
      requires AllInRange(hasSource, matchMinaddr, matchMaxaddr, ioptUsed)
      modifies this, acache, acache.near, acache.same
      ensures srcbase + srclen <= |source| && (!hasSource ==> srclen == 0)
      ensures var w := Window(srclen, srcbase, |nextIn|, |nextIn|, source, blksize);
              w.Valid() && DecodeWindow(w, Sections(instSect, addrSect, dataSect)) == Ok(nextIn)
      ensures Written() <= 22 * |nextIn| + 11
      ensures old(OneRun()) ==> Written() <= 33
    {
      FlushInstructions();
      AddFinalize();
      ghost var w := Window(srclen, srcbase, |nextIn|, |nextIn|, source, blksize);
      assert addrSect[..|addrSect|] == addrSect && dataSect[..|dataSect|] == dataSect;
      assert nextIn[..|nextIn|] == nextIn;
      if w != Win() {
        EmitShift(Win(), w, Sections(instSect, addrSect, dataSect), InitState());
      }
    }
  }

  // Every address can be written in SELF mode, in at most ten bytes.
  lemma SelfEncodes(c: Cache, here: nat, addr: nat)
    requires c.Valid() && addr < U64
    ensures Encodes(c, here, VCD_SELF, Encoded(addr), addr) && |Encoded(addr)| <= 10
  {
    ReadEncoded(addr, []);
    assert Encoded(addr) + [] == Encoded(addr);
    SizeOfIsLength(addr);
  }

  lemma SingleBytesLength(typ: nat, size: nat)
    requires XD3_ADD <= typ < XD3_CPY + MODES && size < U64
    ensures |SingleBytes(typ, size)| <= 11
  {
    SizeOfIsLength(size);
  }

  // A truthful copy, once its address is coded, decodes to the input it covers.
  lemma CopyMeans(w: Window, input: seq<byte>, source: seq<byte>, r: RInst, st: State, mode: nat, a: seq<byte>, addr: nat)
    requires w.Valid() && w.tgtlen == |input| && w.source == source && st.cache.Valid()
    requires r.typ == XD3_CPY && Truthful(input, source, r) && st.out == input[..r.pos]
    requires r.xtra != 0 ==> w.cpyoff + addr == r.addr && addr + r.size <= w.cpylen
    requires r.xtra == 0 ==> addr == w.cpylen + r.addr
    requires Encodes(st.cache, r.pos + w.cpylen, mode, a, addr)
    ensures Step(w, XD3_CPY + mode, r.size, a, [], st, State(st.cache.Update(addr), input[..r.End()]))
  {
    hide Step, AddressAt, Cache.Valid;
    var t := input[..r.End()];
    if r.xtra != 0 {
      SourceStep(w, st, mode, a, addr, r.size);
      assert w.source[w.cpyoff + addr..w.cpyoff + addr + r.size] == input[r.pos..r.End()];
      assert t == st.out + input[r.pos..r.End()];
    } else {
      TargetStep(w, st, mode, a, addr, r.size);
      TargetBytes(input, r);
    }
  }

  lemma TargetBytes(input: seq<byte>, r: RInst)
    requires r.addr < r.pos && r.End() <= |input|
    requires forall k :: r.pos <= k < r.End() ==> input[k] == input[k - (r.pos - r.addr)]
    ensures CopyTarget(input[..r.pos], r.addr, r.size) == input[..r.End()]
  {
    var t := input[..r.End()];
    assert Repeats(t, r.pos, r.pos - r.addr);
    CopyTargetUnique(input[..r.pos], r.addr, t);
  }

  // Writing an opcode moves its operands to the decoded part of the sections.
  lemma Grow(w: Window, inst: seq<byte>, addr: seq<byte>, data: seq<byte>, i: nat, j: nat, st: State,
             code: seq<byte>, i': nat, j': nat, st': State)
    requires w.Valid() && i <= i' <= |addr| && j <= j' <= |data| && st.cache.Valid()
    requires Emit(w, Sections(inst, addr[..i], data[..j]), InitState()) == Ok(st)
    requires Emit(w, Sections(code, addr[i..i'], data[j..j']), st) == Ok(st')
    ensures Emit(w, Sections(inst + code, addr[..i'], data[..j']), InitState()) == Ok(st')
  {
    hide Emit;
    var s, t := Sections(inst, addr[..i], data[..j]), Sections(code, addr[i..i'], data[j..j']);
    EmitJoin(w, s, InitState(), t);
    assert addr[..i] + addr[i..i'] == addr[..i'];
    assert data[..j] + data[j..j'] == data[..j'];
  }
}
