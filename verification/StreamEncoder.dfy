// Writing a VCDIFF file (xdelta3.c, xd3_encode_input and xd3_emit_hdr): input cut
// into windows, each searched, encoded and written after its header. Whatever the
// input, the source and the hash tables, the file decodes to the input.
module StreamEncoder {
  import opened Bytes
  import opened Integers
  import opened AddressCache
  import opened CodeTable
  import opened WindowFormat
  import opened StreamFormat
  import Adler
  import Optimizer
  import Matcher
  import WindowEncoder

  // One window as written: what its header says, and its sections.
  datatype Written = Written(srclen: Size, srcbase: Size, target: seq<byte>, data: seq<byte>, inst: seq<byte>,
                             addr: seq<byte>, useAdler32: bool) {

    // Sizes an encoder can meet: a window within the decoder's limit.
    ghost predicate Sized() {
      && |target| <= HARDMAXWINSIZE && |data| < 0x1_0000_0000 && |inst| < 0x1_0000_0000 && |addr| < 0x1_0000_0000
      && srclen + |target| < U64 && srcbase + srclen < U64
    }

    // The sections are not much longer than the target.
    predicate Short() {
      |data| + |inst| + |addr| <= 22 * |target| + 11
    }

    // Under the header's copy window the sections stand for the target.
    ghost predicate Means(src: Source) {
      && src.Valid() && Sized() && (srclen > 0 ==> src.given)
      && DecodeWindow(Window(srclen, srcbase, |target|, |target|, src.bytes, src.blksize), Sections(inst, addr, data))
         == Ok(target)
    }
  }

  function WinIndOf(w: Written): byte {
    (if w.srclen > 0 then VCD_SOURCE else 0) + (if w.useAdler32 then VCD_ADLER32 else 0)
  }

  // The value of enc_len.
  function EncLenOf(w: Written): Size
    requires w.Sized()
  {
    1 + SizeOf(|w.target|) + SizeOf(|w.data|) + SizeOf(|w.inst|) + SizeOf(|w.addr|)
    + |w.data| + |w.inst| + |w.addr| + (if w.useAdler32 then 4 else 0)
  }

  // Four bytes, most significant first.
  function Send(a32: nat): seq<byte> {
    [a32 / 0x100_0000 % 256, a32 / 0x1_0000 % 256, a32 / 256 % 256, a32 % 256]
  }

  const FileHeader: seq<byte> := [0xd6, 0xc3, 0xc4, 0, 0]

  // A window as it is written, followed by rest.
  function CopyWindowBytes(w: Written, rest: seq<byte>): seq<byte> {
    [WinIndOf(w)] + (if w.srclen > 0 then Encoded(w.srclen) + (Encoded(w.srcbase) + rest) else rest)
  }

  function LengthBytes(w: Written, rest: seq<byte>): seq<byte>
    requires w.Sized()
  {
    Encoded(EncLenOf(w)) + (Encoded(|w.target|) + ([0 as byte] +
      (Encoded(|w.data|) + (Encoded(|w.inst|) + (Encoded(|w.addr|) + rest)))))
  }

  function SectionBytes(w: Written, rest: seq<byte>): seq<byte> {
    (if w.useAdler32 then Send(Adler.Adler32(w.target)) else []) + (w.data + (w.inst + (w.addr + rest)))
  }

  function WindowBytes(w: Written, rest: seq<byte>): seq<byte>
    requires w.Sized()
  {
    CopyWindowBytes(w, LengthBytes(w, SectionBytes(w, rest)))
  }

  // ---------- what a decoder makes of the fields ----------

  // Feeding an integer to the decoder leaves its value.
  lemma {:induction false} RunFeed(s: Stream, input: seq<byte>, src: Source, goal: Stream)
    requires Reaches(s, input, src, goal) && ReadsInteger(s.phase, s.head) && !s.full
    requires Feed(s.part, input).Finished? && Feed(s.part, input).val < U64
    ensures var f := Feed(s.part, input);
            f.used <= |input|
            && Reaches(s.(part := 0, full := true, head := SetInteger(s.head, s.phase, f.val)), input[f.used..], src, goal)
    decreases |input|
  {
    hide Reaches, ReadsInteger, SetInteger;
    ReachIntegerByte(s, input, src, goal);
    var d := DecodeByte(s.part, input[0]);
    if d.More? {
      RunFeed(s.(part := d.part), input[1..], src, goal);
      var f := Feed(d.part, input[1..]);
      assert input[1..][f.used..] == input[f.used + 1..];
    }
  }

  // An integer field, and the end of its phase.
  lemma IntegerField(s: Stream, v: Size, rest: seq<byte>, src: Source, goal: Stream)
    requires Reaches(s, Encoded(v) + rest, src, goal)
    requires ReadsInteger(s.phase, s.head) && !s.full && s.part == 0
    ensures var s' := s.(full := true, head := SetInteger(s.head, s.phase, v));
            Sound(s') && src.Valid() && !Waiting(s') && Reaches(Complete(s', src), rest, src, goal)
  {
    var input := Encoded(v) + rest;
    ReadEncoded(v, rest);
    ResumableAgrees(input);
    RunFeed(s, input, src, goal);
    assert input[|Encoded(v)|..] == rest;
    hide Reaches, Complete;
    var s' := s.(full := true, head := SetInteger(s.head, s.phase, v));
    StillReads(s, v);
    ReachComplete(s', rest, src, goal);
  }

  lemma StillReads(s: Stream, v: Size)
    requires ReadsInteger(s.phase, s.head)
    ensures ReadsInteger(s.phase, SetInteger(s.head, s.phase, v))
  {
  }

  // A field of bytes.
  lemma BytesField(s: Stream, bytes: seq<byte>, rest: seq<byte>, src: Source, goal: Stream)
    requires Reaches(s, bytes + rest, src, goal) && s.phase != Rejected && !ReadsInteger(s.phase, s.head)
    requires s.got == [] && |bytes| == Need(s.phase, s.head)
    ensures var s' := s.(got := bytes);
            Sound(s') && src.Valid() && !Waiting(s') && Reaches(Complete(s', src), rest, src, goal)
  {
    ReachBytes(s, bytes + rest, |bytes|, src, goal);
    assert [] + (bytes + rest)[..|bytes|] == bytes && (bytes + rest)[|bytes|..] == rest;
    hide Reaches, Complete;
    ReachComplete(s.(got := bytes), rest, src, goal);
  }

  // A phase without a field.
  lemma NoField(s: Stream, rest: seq<byte>, src: Source, goal: Stream)
    requires Reaches(s, rest, src, goal) && s.phase != Rejected && !Waiting(s)
    ensures Sound(s) && src.Valid() && Reaches(Complete(s, src), rest, src, goal)
  {
    ReachComplete(s, rest, src, goal);
  }

  // The decoder between fields.
  ghost predicate At(s: Stream, phase: Phase) {
    s.phase == phase && s.got == [] && s.part == 0 && !s.full
  }

  // Phases that only store their integer.
  function Following(phase: Phase): Phase {
    match phase
    case EncLen => TgtLen
    case DataLen => InstLen
    case InstLen => AddrLen
    case _ => Cksum
  }

  lemma PlainInteger(s: Stream, v: Size, rest: seq<byte>, src: Source, goal: Stream)
    requires Reaches(s, Encoded(v) + rest, src, goal) && s.phase in {EncLen, DataLen, InstLen, AddrLen} && At(s, s.phase)
    ensures Reaches(s.(phase := Following(s.phase), head := SetInteger(s.head, s.phase, v)), rest, src, goal)
  {
    IntegerField(s, v, rest, src, goal);
    hide Reaches, Sound, CompleteHeader, CompleteSections, CompleteTarget, EnclenCheck;
  }

  lemma TargetLength(s: Stream, v: Size, rest: seq<byte>, src: Source, goal: Stream)
    requires Reaches(s, Encoded(v) + rest, src, goal) && At(s, TgtLen)
    requires s.head.cpylen + v < U64 && v <= HARDMAXWINSIZE
    ensures Reaches(s.(phase := DelInd, head := s.head.(tgtlen := v)), rest, src, goal)
  {
    IntegerField(s, v, rest, src, goal);
    hide Reaches, Sound, CompleteHeader, CompleteSections, CompleteTarget, EnclenCheck;
  }

  lemma DeltaIndicator(s: Stream, rest: seq<byte>, src: Source, goal: Stream)
    requires Reaches(s, [0 as byte] + rest, src, goal) && At(s, DelInd)
    ensures Reaches(s.(phase := DataLen, head := s.head.(delInd := 0)), rest, src, goal)
  {
    BytesField(s, [0], rest, src, goal);
    hide Reaches, Sound, CompleteHeader, CompleteSections, CompleteTarget, EnclenCheck;
  }

  // After the six fields of LengthBytes.
  function AfterLengths(s: Stream, w: Written): Stream
    requires w.Sized()
  {
    s.(phase := Cksum, head := s.head.(enclen := EncLenOf(w), tgtlen := |w.target|, delInd := 0, dataLen := |w.data|,
                                       instLen := |w.inst|, addrLen := |w.addr|))
  }

  lemma Lengths(s: Stream, w: Written, rest: seq<byte>, src: Source, goal: Stream)
    requires w.Sized() && Reaches(s, LengthBytes(w, rest), src, goal) && At(s, EncLen) && s.head.cpylen == w.srclen
    ensures Reaches(AfterLengths(s, w), rest, src, goal)
  {
    hide Reaches, Encoded;
    var r5 := Encoded(|w.addr|) + rest;
    var r4 := Encoded(|w.inst|) + r5;
    var r3 := Encoded(|w.data|) + r4;
    var r2 := [0 as byte] + r3;
    var r1 := Encoded(|w.target|) + r2;
    PlainInteger(s, EncLenOf(w), r1, src, goal);
    var s1 := s.(phase := TgtLen, head := s.head.(enclen := EncLenOf(w)));
    TargetLength(s1, |w.target|, r2, src, goal);
    var s2 := s1.(phase := DelInd, head := s1.head.(tgtlen := |w.target|));
    DeltaIndicator(s2, r3, src, goal);
    var s3 := s2.(phase := DataLen, head := s2.head.(delInd := 0));
    PlainInteger(s3, |w.data|, r4, src, goal);
    var s4 := s3.(phase := InstLen, head := s3.head.(dataLen := |w.data|));
    PlainInteger(s4, |w.inst|, r5, src, goal);
    var s5 := s4.(phase := AddrLen, head := s4.head.(instLen := |w.inst|));
    PlainInteger(s5, |w.addr|, rest, src, goal);
  }

  // After the window indicator and the copy window.
  function AfterCopyWindow(s: Stream, w: Written): Stream
    requires s.winstart + s.head.tgtlen < U64
  {
    s.(phase := EncLen, winstart := s.winstart + s.head.tgtlen,
       head := s.head.(winInd := WinIndOf(w), cpylen := w.srclen, cpyoff := if w.srclen > 0 then w.srcbase else 0))
  }

  lemma WindowIndicator(s: Stream, w: Written, rest: seq<byte>, src: Source, goal: Stream)
    requires Reaches(s, [WinIndOf(w)] + rest, src, goal) && At(s, WinInd) && s.winstart + s.head.tgtlen < U64
    ensures Reaches(s.(phase := CpyLen, winstart := s.winstart + s.head.tgtlen,
                       head := s.head.(winInd := WinIndOf(w), cpylen := 0, cpyoff := 0)), rest, src, goal)
  {
    BytesField(s, [WinIndOf(w)], rest, src, goal);
    assert WinIndOf(w) < INVALID_BITS;
    hide Reaches, Sound, WinIndOf, CompleteHeader, CompleteSections, CompleteTarget, EnclenCheck;
  }

  lemma CopyLength(s: Stream, w: Written, rest: seq<byte>, src: Source, goal: Stream)
    requires w.srclen > 0 && Reaches(s, Encoded(w.srclen) + rest, src, goal)
    requires At(s, CpyLen) && s.head.winInd == WinIndOf(w)
    ensures Reaches(s.(phase := CpyOff, head := s.head.(cpylen := w.srclen)), rest, src, goal)
  {
    IntegerField(s, w.srclen, rest, src, goal);
    hide Reaches, Sound, CompleteHeader, CompleteSections, CompleteTarget, EnclenCheck;
  }

  lemma CopyOffset(s: Stream, w: Written, rest: seq<byte>, src: Source, goal: Stream)
    requires w.srclen > 0 && w.srcbase + w.srclen < U64 && Reaches(s, Encoded(w.srcbase) + rest, src, goal)
    requires At(s, CpyOff) && s.head.winInd == WinIndOf(w) && s.head.cpylen == w.srclen
    ensures Reaches(s.(phase := EncLen, head := s.head.(cpyoff := w.srcbase)), rest, src, goal)
  {
    IntegerField(s, w.srcbase, rest, src, goal);
    hide Reaches, Sound, CompleteHeader, CompleteSections, CompleteTarget, EnclenCheck;
  }

  lemma NoCopyWindow(s: Stream, w: Written, rest: seq<byte>, src: Source, goal: Stream)
    requires w.srclen == 0 && Reaches(s, rest, src, goal) && At(s, CpyLen) && s.head.winInd == WinIndOf(w)
    requires s.head.cpylen == 0 && s.head.cpyoff == 0
    ensures Reaches(s.(phase := EncLen), rest, src, goal)
  {
    hide Reaches, Sound, CompleteHeader, CompleteSections, CompleteTarget, EnclenCheck, EncLenOf;
    NoField(s, rest, src, goal);
    NoField(s.(phase := CpyOff), rest, src, goal);
  }

  lemma CopyWindow(s: Stream, w: Written, rest: seq<byte>, src: Source, goal: Stream)
    requires w.Sized() && Reaches(s, CopyWindowBytes(w, rest), src, goal)
    requires At(s, WinInd) && s.winstart + s.head.tgtlen < U64
    ensures Reaches(AfterCopyWindow(s, w), rest, src, goal)
  {
    hide Reaches, Encoded, WinIndOf;
    var s1 := s.(phase := CpyLen, winstart := s.winstart + s.head.tgtlen,
                 head := s.head.(winInd := WinIndOf(w), cpylen := 0, cpyoff := 0));
    if w.srclen > 0 {
      var r2 := Encoded(w.srcbase) + rest;
      var r1 := Encoded(w.srclen) + r2;
      WindowIndicator(s, w, r1, src, goal);
      CopyLength(s1, w, r2, src, goal);
      CopyOffset(s1.(phase := CpyOff, head := s1.head.(cpylen := w.srclen)), w, rest, src, goal);
    } else {
      WindowIndicator(s, w, rest, src, goal);
      NoCopyWindow(s1, w, rest, src, goal);
    }
  }

  lemma SendBigEndian(a: nat)
    requires a < 0x1_0000_0000
    ensures |Send(a)| == 4 && BigEndian(Send(a)) == a
  {
    var b := Send(a);
    assert b == [] + [b[0]] + [b[1]] + [b[2]] + [b[3]];
    hide BigEndian, Send;
    BigEndianSnoc([], b[0]);
    BigEndianSnoc([] + [b[0]], b[1]);
    BigEndianSnoc([] + [b[0]] + [b[1]], b[2]);
    BigEndianSnoc([] + [b[0]] + [b[1]] + [b[2]], b[3]);
    BigEndianNone();
    SendDigits(a);
  }

  lemma BigEndianNone()
    ensures BigEndian([]) == 0
  {
  }

  lemma SendDigits(a: nat)
    requires a < 0x1_0000_0000
    ensures var b := Send(a);
            |b| == 4 && ((b[0] as int * 256 + b[1]) * 256 + b[2]) * 256 + b[3] == a
  {
    var b := Send(a);
    assert a / 256 / 256 == a / 0x1_0000;
    assert a / 0x1_0000 / 256 == a / 0x100_0000;
  }

  // The decoder's length check is what the encoder writes.
  lemma LengthsAgree(w: Written, h: Head)
    requires w.Sized() && h.tgtlen == |w.target| && h.dataLen == |w.data| && h.instLen == |w.inst|
    requires h.addrLen == |w.addr| && h.winInd == WinIndOf(w)
    ensures EnclenCheck(h) == EncLenOf(w) && !SectionsOverflow(h)
  {
  }

  // The header of a window, as a decoder has read it.
  ghost predicate HeadOf(h: Head, w: Written)
    requires w.Sized()
  {
    && h.winInd == WinIndOf(w) && h.cpylen == w.srclen && (w.srclen > 0 ==> h.cpyoff == w.srcbase)
    && h.enclen == EncLenOf(w) && h.tgtlen == |w.target| && h.delInd == 0
    && h.dataLen == |w.data| && h.instLen == |w.inst| && h.addrLen == |w.addr|
  }

  function AfterChecksum(s: Stream, w: Written): Stream {
    s.(phase := DataSect, head := if w.useAdler32 then s.head.(adler32 := Adler.Adler32(w.target)) else s.head)
  }

  lemma Checksum(s: Stream, w: Written, rest: seq<byte>, src: Source, goal: Stream)
    requires w.Sized() && At(s, Cksum) && HeadOf(s.head, w)
    requires Reaches(s, (if w.useAdler32 then Send(Adler.Adler32(w.target)) else []) + rest, src, goal)
    ensures Reaches(AfterChecksum(s, w), rest, src, goal)
  {
    LengthsAgree(w, s.head);
    if w.useAdler32 {
      var a := Adler.Adler32(w.target);
      SendBigEndian(a);
      BytesField(s, Send(a), rest, src, goal);
      LengthsAgree(w, s.head.(adler32 := a));
      hide Adler.Adler32;
    } else {
      assert [] + rest == rest;
      NoField(s, rest, src, goal);
    }
  }

  function AfterSections(s: Stream, w: Written): Stream {
    s.(phase := Emitting, data := w.data, inst := w.inst, addr := w.addr,
       spaceOut := OutputRoom(s.spaceOut, |w.target|))
  }

  lemma Section(s: Stream, bytes: seq<byte>, rest: seq<byte>, src: Source, goal: Stream)
    requires Reaches(s, bytes + rest, src, goal) && s.phase in {DataSect, InstSect} && At(s, s.phase)
    requires !SectionsOverflow(s.head) && |bytes| == if s.phase == DataSect then s.head.dataLen else s.head.instLen
    ensures Reaches(if s.phase == DataSect then s.(phase := InstSect, data := bytes) else s.(phase := AddrSect, inst := bytes),
                    rest, src, goal)
  {
    hide Reaches, Sound, CompleteHeader, CompleteWindow, CompleteTarget, EnclenCheck, EncLenOf, OutputRoom, Decompressed;
    BytesField(s, bytes, rest, src, goal);
  }

  lemma LastSection(s: Stream, w: Written, rest: seq<byte>, src: Source, goal: Stream)
    requires w.Sized() && Reaches(s, w.addr + rest, src, goal) && At(s, AddrSect) && HeadOf(s.head, w)
    ensures Reaches(s.(phase := Emitting, addr := w.addr, spaceOut := OutputRoom(s.spaceOut, |w.target|)), rest, src, goal)
  {
    hide Reaches, Sound, CompleteHeader, CompleteWindow, CompleteTarget, EnclenCheck, EncLenOf, OutputRoom, Decompressed;
    BytesField(s, w.addr, rest, src, goal);
  }

  lemma ThreeSections(s: Stream, w: Written, rest: seq<byte>, src: Source, goal: Stream)
    requires w.Sized() && Reaches(s, w.data + (w.inst + (w.addr + rest)), src, goal) && At(s, DataSect) && HeadOf(s.head, w)
    ensures Reaches(AfterSections(s, w), rest, src, goal)
  {
    LengthsAgree(w, s.head);
    hide Reaches, SectionsOverflow, EncLenOf;
    Section(s, w.data, w.inst + (w.addr + rest), src, goal);
    var s1 := s.(phase := InstSect, data := w.data);
    Section(s1, w.inst, w.addr + rest, src, goal);
    LastSection(s1.(phase := AddrSect, inst := w.inst), w, rest, src, goal);
  }

  // ---------- what a decoder makes of a window ----------

  // The room in the output buffer, and the position of an empty copy window, do not
  // matter.
  ghost predicate SameWindow(w: Window, w': Window) {
    && w'.cpylen == w.cpylen && (w.cpylen == 0 || w'.cpyoff == w.cpyoff) && w'.tgtlen == w.tgtlen
    && w'.source == w.source && w'.blksize == w.blksize
  }

  lemma {:induction false} EmitSame(w: Window, w': Window, s: Sections, st: State)
    requires w.Valid() && w'.Valid() && SameWindow(w, w') && st.cache.Valid()
    ensures Emit(w, s, st) == Emit(w', s, st)
    decreases |s.inst|
  {
    if s.inst != [] {
      OpcodeSame(w, w', s, st);
      hide DoOpcode;
      var done := DoOpcode(w, s, st);
      if done.Ok? {
        EmitSame(w, w', done.value.0, done.value.1);
      }
    }
  }

  lemma OpcodeSame(w: Window, w': Window, s: Sections, st: State)
    requires w.Valid() && w'.Valid() && SameWindow(w, w') && st.cache.Valid() && s.inst != []
    ensures DoOpcode(w, s, st) == DoOpcode(w', s, st)
  {
    hide DoHalf, Rfc3284Entry;
    var e := Rfc3284Entry(s.inst[0]);
    EntryTypes(s.inst[0]);
    var s0 := s.(inst := s.inst[1..]);
    HalfSame(w, w', e.type1, e.size1, s0, st);
    var first := DoHalf(w, e.type1, e.size1, s0, st);
    if first.Ok? && e.type2 != XD3_NOOP {
      HalfSame(w, w', e.type2, e.size2, first.value.0, first.value.1);
    }
  }

  lemma HalfSame(w: Window, w': Window, typ: nat, size0: nat, s: Sections, st: State)
    requires w.Valid() && w'.Valid() && SameWindow(w, w') && XD3_ADD <= typ < XD3_CPY + MODES && st.cache.Valid()
    ensures DoHalf(w, typ, size0, s, st) == DoHalf(w', typ, size0, s, st)
  {
    ParseSame(w, w', typ, size0, s.inst, s.addr, st.cache, |st.out|);
    hide ParseHalf, ExecHalf;
    var p := ParseHalf(w, typ, size0, s.inst, s.addr, st.cache, |st.out|);
    if p.Ok? {
      ExecSame(w, w', st.out, p.value.h, s.data);
    }
  }

  lemma ParseSame(w: Window, w': Window, typ: nat, size0: nat, inst: seq<byte>, addr: seq<byte>, cache: Cache, n: nat)
    requires SameWindow(w, w') && XD3_ADD <= typ < XD3_CPY + MODES && cache.Valid()
    ensures ParseHalf(w, typ, size0, inst, addr, cache, n) == ParseHalf(w', typ, size0, inst, addr, cache, n)
  {
    hide ReadSize, AddressAt, Cache.Valid;
  }

  lemma ExecSame(w: Window, w': Window, out: seq<byte>, h: HInst, data: seq<byte>)
    requires w.Valid() && w'.Valid() && SameWindow(w, w') && Fits(w, |out|, h) && Fits(w', |out|, h)
    ensures ExecHalf(w, out, h, data) == ExecHalf(w', out, h, data)
  {
    hide CopySource, CopyTarget;
  }

  lemma Target(s: Stream, w: Written, rest: seq<byte>, src: Source, goal: Stream)
    requires w.Means(src) && Reaches(s, rest, src, goal) && At(s, Emitting) && HeadOf(s.head, w)
    requires s.data == w.data && s.inst == w.inst && s.addr == w.addr && |w.target| <= s.spaceOut
    requires w.useAdler32 ==> s.head.adler32 == Adler.Adler32(w.target)
    ensures Reaches(s.(phase := WinInd, windows := s.windows + [w.target], data := [], inst := [], addr := []), rest, src, goal)
  {
    hide Reaches, Sound, TargetOf, DecodeWindow, Complete;
    ReachTarget(s, rest, src, goal);
    TargetIs(s, w, src);
    WindowFinished(s.(phase := Finish, windows := s.windows + [w.target]), rest, src, goal);
  }

  lemma WindowFinished(s: Stream, rest: seq<byte>, src: Source, goal: Stream)
    requires Reaches(s, rest, src, goal) && At(s, Finish)
    ensures Reaches(s.(phase := WinInd, data := [], inst := [], addr := []), rest, src, goal)
  {
    NoField(s, rest, src, goal);
    hide Reaches, Sound, TargetOf;
  }

  lemma TargetIs(s: Stream, w: Written, src: Source)
    requires w.Means(src) && Sound(s) && At(s, Emitting) && HeadOf(s.head, w)
    requires s.data == w.data && s.inst == w.inst && s.addr == w.addr && |w.target| <= s.spaceOut
    requires w.useAdler32 ==> s.head.adler32 == Adler.Adler32(w.target)
    ensures TargetOf(s, src) == Ok(w.target)
  {
    hide Emit, Adler.Adler32, Sound;
    var w1 := Window(w.srclen, w.srcbase, |w.target|, |w.target|, src.bytes, src.blksize);
    EmitSame(w1, WindowOf(s, src), Sections(s.inst, s.addr, s.data), InitState());
  }

  // A decoder ready for a window, given all before it.
  ghost predicate Between(s: Stream, windows: seq<seq<byte>>) {
    At(s, WinInd) && s.windows == windows && s.winstart + s.head.tgtlen == |Flatten(windows)|
  }

  // A written window, whatever follows it, leaves its target with the decoder.
  lemma WindowDecoded(s: Stream, windows: seq<seq<byte>>, w: Written, rest: seq<byte>, src: Source, goal: Stream) returns (s': Stream)
    requires w.Means(src) && Between(s, windows) && |Flatten(windows)| < U64
    requires Reaches(s, WindowBytes(w, rest), src, goal)
    ensures Between(s', windows + [w.target]) && Reaches(s', rest, src, goal)
  {
    hide Reaches, CopyWindowBytes, LengthBytes, SectionBytes, WinIndOf, EncLenOf, DecodeWindow, RoundUp, Flatten, Adler.Adler32;
    CopyWindow(s, w, LengthBytes(w, SectionBytes(w, rest)), src, goal);
    var s1 := AfterCopyWindow(s, w);
    Lengths(s1, w, SectionBytes(w, rest), src, goal);
    var s2 := AfterLengths(s1, w);
    ChecksumAndSections(s2, w, rest, src, goal);
    var s4 := AfterSections(AfterChecksum(s2, w), w);
    assert |w.target| <= s4.spaceOut;
    Target(s4, w, rest, src, goal);
    s' := s4.(phase := WinInd, windows := s4.windows + [w.target], data := [], inst := [], addr := []);
    FlattenSnoc(windows, w.target);
  }

  lemma ChecksumAndSections(s: Stream, w: Written, rest: seq<byte>, src: Source, goal: Stream)
    requires w.Sized() && At(s, Cksum) && HeadOf(s.head, w) && Reaches(s, SectionBytes(w, rest), src, goal)
    ensures Reaches(AfterSections(AfterChecksum(s, w), w), rest, src, goal)
  {
    hide Reaches, WinIndOf, EncLenOf, Send, RoundUp, Adler.Adler32;
    Checksum(s, w, w.data + (w.inst + (w.addr + rest)), src, goal);
    ThreeSections(AfterChecksum(s, w), w, rest, src, goal);
  }

  // The file header leaves the decoder ready for the first window.
  lemma FileHeaderDecoded(rest: seq<byte>, src: Source, goal: Stream) returns (s: Stream)
    requires Reaches(Init(), FileHeader + rest, src, goal)
    ensures Between(s, []) && Reaches(s, rest, src, goal)
  {
    assert FileHeader + rest == [0xd6, 0xc3, 0xc4, 0] + ([0 as byte] + rest);
    BytesField(Init(), [0xd6, 0xc3, 0xc4, 0], [0 as byte] + rest, src, goal);
    s := Init().(phase := HdrInd);
    BytesField(s, [0], rest, src, goal);
    s := s.(phase := SecondId);
    EmptyHeader(s, rest, src, goal);
    s := s.(phase := WinInd);
  }

  lemma EmptyHeader(s: Stream, rest: seq<byte>, src: Source, goal: Stream)
    requires Reaches(s, rest, src, goal) && At(s, SecondId) && s.head.hdrInd == 0
    ensures Reaches(s.(phase := WinInd), rest, src, goal)
  {
    hide Reaches, Sound;
    NoField(s, rest, src, goal);
    NoField(s.(phase := TabLen), rest, src, goal);
    NoField(s.(phase := Near), rest, src, goal);
    NoField(s.(phase := Same), rest, src, goal);
    NoField(s.(phase := TabDat), rest, src, goal);
    NoField(s.(phase := AppLen), rest, src, goal);
    NoField(s.(phase := AppDat), rest, src, goal);
  }

  // ---------- a whole file ----------

  ghost predicate AllMean(ws: seq<Written>, src: Source) {
    forall i :: 0 <= i < |ws| ==> ws[i].Means(src)
  }

  function Targets(ws: seq<Written>): seq<seq<byte>> {
    seq(|ws|, i requires 0 <= i < |ws| => ws[i].target)
  }

  // Windows one after the other.
  function FileBytes(ws: seq<Written>): seq<byte>
    requires forall i :: 0 <= i < |ws| ==> ws[i].Sized()
  {
    if ws == [] then [] else FileBytes(ws[..|ws| - 1]) + WindowBytes(ws[|ws| - 1], [])
  }

  lemma WindowBytesFollowed(w: Written, rest: seq<byte>)
    requires w.Sized()
    ensures WindowBytes(w, rest) == WindowBytes(w, []) + rest
  {
    hide EncLenOf, Send, Adler.Adler32, Encoded, WinIndOf;
    SectionBytesFollowed(w, rest);
    LengthBytesFollowed(w, SectionBytes(w, []), rest);
    CopyWindowBytesFollowed(w, LengthBytes(w, SectionBytes(w, [])), rest);
  }

  lemma SectionBytesFollowed(w: Written, rest: seq<byte>)
    ensures SectionBytes(w, rest) == SectionBytes(w, []) + rest
  {
    hide Send, Adler.Adler32;
    assert w.addr + rest == (w.addr + []) + rest;
    assert w.inst + (w.addr + rest) == (w.inst + (w.addr + [])) + rest;
    assert w.data + (w.inst + (w.addr + rest)) == (w.data + (w.inst + (w.addr + []))) + rest;
  }

  lemma LengthBytesFollowed(w: Written, a: seq<byte>, rest: seq<byte>)
    requires w.Sized()
    ensures LengthBytes(w, a + rest) == LengthBytes(w, a) + rest
  {
    hide EncLenOf, Encoded;
    var r1 := Encoded(|w.addr|) + a;
    assert Encoded(|w.addr|) + (a + rest) == r1 + rest;
    var r2 := Encoded(|w.inst|) + r1;
    assert Encoded(|w.inst|) + (r1 + rest) == r2 + rest;
    var r3 := Encoded(|w.data|) + r2;
    assert Encoded(|w.data|) + (r2 + rest) == r3 + rest;
    var r4 := [0 as byte] + r3;
    assert [0 as byte] + (r3 + rest) == r4 + rest;
    var r5 := Encoded(|w.target|) + r4;
    assert Encoded(|w.target|) + (r4 + rest) == r5 + rest;
    assert Encoded(EncLenOf(w)) + (r5 + rest) == (Encoded(EncLenOf(w)) + r5) + rest;
  }

  lemma CopyWindowBytesFollowed(w: Written, a: seq<byte>, rest: seq<byte>)
    ensures CopyWindowBytes(w, a + rest) == CopyWindowBytes(w, a) + rest
  {
    hide Encoded, WinIndOf;
    var r1 := Encoded(w.srcbase) + a;
    assert Encoded(w.srcbase) + (a + rest) == r1 + rest;
    var r2 := Encoded(w.srclen) + r1;
    assert Encoded(w.srclen) + (r1 + rest) == r2 + rest;
    assert [WinIndOf(w)] + (r2 + rest) == ([WinIndOf(w)] + r2) + rest;
    assert [WinIndOf(w)] + (a + rest) == ([WinIndOf(w)] + a) + rest;
  }

  // Decoding written windows yields their targets, and waits for another.
  lemma {:induction false} WindowsDecoded(s: Stream, ws: seq<Written>, rest: seq<byte>, src: Source, goal: Stream) returns (s': Stream)
    requires AllMean(ws, src) && Between(s, []) && |Flatten(Targets(ws))| < U64
    requires Reaches(s, FileBytes(ws) + rest, src, goal)
    ensures Between(s', Targets(ws)) && Reaches(s', rest, src, goal)
    decreases |ws|
  {
    hide Reaches, WindowBytes, DecodeWindow, Written.Sized;
    if ws == [] {
      assert [] + rest == rest && Targets(ws) == [];
      s' := s;
    } else {
      var n := |ws| - 1;
      var w := ws[n];
      assert FileBytes(ws) + rest == FileBytes(ws[..n]) + (WindowBytes(w, []) + rest);
      WindowBytesFollowed(w, rest);
      assert Targets(ws) == Targets(ws[..n]) + [w.target];
      FlattenSnoc(Targets(ws[..n]), w.target);
      s' := WindowsDecoded(s, ws[..n], WindowBytes(w, rest), src, goal);
      s' := WindowDecoded(s', Targets(ws[..n]), w, rest, src, goal);
    }
  }

  // delta is a file that decodes, with the source, to input and to nothing else.
  ghost predicate Delta(delta: seq<byte>, input: seq<byte>, src: Source)
    requires src.Valid()
  {
    forall spaceMax :: DecodeFile(delta, src, spaceMax) == if |input| <= spaceMax then Ok(input) else Fail
  }

  // A file of written windows decodes to their targets.
  lemma FileDecoded(ws: seq<Written>, src: Source)
    requires AllMean(ws, src) && src.Valid() && |Flatten(Targets(ws))| < U64
    ensures Delta(FileHeader + FileBytes(ws), Flatten(Targets(ws)), src)
  {
    hide DecodeWindow, FileBytes, Flatten, ReadsInteger, Run, Targets;
    var file := FileHeader + FileBytes(ws);
    var goal := Run(Init(), file, src);
    assert Reaches(Init(), file, src, goal);
    hide Reaches, Written.Means;
    var s := FileHeaderDecoded(FileBytes(ws), src, goal);
    assert FileBytes(ws) + [] == FileBytes(ws);
    var s' := WindowsDecoded(s, ws, [], src, goal);
    ReachWaiting(s', src, goal);
  }

  // A file of one window.
  lemma OneWindow(w: Written, src: Source)
    requires src.Valid() && w.Means(src)
    ensures Delta(FileHeader + WindowBytes(w, []), w.target, src)
  {
    hide Delta, WindowBytes, DecodeWindow;
    var ws := [w];
    assert ws[..0] == [] && FileBytes(ws) == [] + WindowBytes(w, []) == WindowBytes(w, []);
    assert Targets(ws) == [] + [w.target];
    FlattenSnoc([], w.target);
    assert Flatten(Targets(ws)) == [] + w.target == w.target;
    FileDecoded(ws, src);
  }

  // ---------- the encoder ----------

  // xd3_emit_hdr: the file header before the first window, and the window header.
  method EmitHdr(w: Written, currentWindow: nat) returns (hdr: seq<byte>)
    requires w.Sized()
    ensures hdr + (w.data + (w.inst + w.addr)) == (if currentWindow == 0 then FileHeader else []) + WindowBytes(w, [])
  {
    hide Encoded, Adler.Adler32, Send;
    hdr := [];
    if currentWindow == 0 {
      var hdrInd: byte := 0;
      hdr := hdr + [0xd6] + [0xc3] + [0xc4] + [0] + [hdrInd];
    }
    ghost var start := hdr;
    var winInd := 0;
    if w.srclen > 0 {
      winInd := winInd + VCD_SOURCE;
    }
    if w.useAdler32 {
      winInd := winInd + VCD_ADLER32;
    }
    hdr := hdr + [winInd];
    if w.srclen > 0 {
      var len := EmitInteger(w.srclen);
      var base := EmitInteger(w.srcbase);
      hdr := hdr + len + base;
    }
    var tgtLen, dataLen, instLen, addrLen := |w.target|, |w.data|, |w.inst|, |w.addr|;
    var encLen := 1 + (SizeOf(tgtLen) + SizeOf(dataLen) + SizeOf(instLen) + SizeOf(addrLen))
                  + dataLen + instLen + addrLen + (if w.useAdler32 then 4 else 0);
    var e1 := EmitInteger(encLen);
    var e2 := EmitInteger(tgtLen);
    var e3 := EmitInteger(dataLen);
    var e4 := EmitInteger(instLen);
    var e5 := EmitInteger(addrLen);
    ghost var front := hdr;
    hdr := hdr + e1 + e2 + [0] + e3 + e4 + e5;
    ghost var cksum := [];
    if w.useAdler32 {
      var a32 := Adler.WindowChecksum(w.target);
      cksum := Send(a32);
      hdr := hdr + Send(a32);
    }
    HeaderJoin(w, start, front, hdr, cksum);
  }

  // The pieces of a header, however they are bracketed.
  lemma HeaderJoin(w: Written, start: seq<byte>, front: seq<byte>, hdr: seq<byte>, cksum: seq<byte>)
    requires w.Sized()
    requires front == start + [WinIndOf(w)] + (if w.srclen > 0 then Encoded(w.srclen) + Encoded(w.srcbase) else [])
    requires cksum == if w.useAdler32 then Send(Adler.Adler32(w.target)) else []
    requires hdr == front + Encoded(EncLenOf(w)) + Encoded(|w.target|) + [0 as byte] + Encoded(|w.data|)
                    + Encoded(|w.inst|) + Encoded(|w.addr|) + cksum
    ensures hdr + (w.data + (w.inst + w.addr)) == start + WindowBytes(w, [])
  {
    hide Encoded, Adler.Adler32, Send, EncLenOf, WinIndOf;
    var rest := SectionBytes(w, []);
    assert rest == cksum + (w.data + (w.inst + w.addr)) by {
      assert w.addr + [] == w.addr;
    }
    Bracket(front, Encoded(EncLenOf(w)), Encoded(|w.target|), [0 as byte], Encoded(|w.data|), Encoded(|w.inst|),
            Encoded(|w.addr|), cksum, w.data + (w.inst + w.addr));
    var lengths := LengthBytes(w, rest);
    assert hdr + (w.data + (w.inst + w.addr)) == front + lengths;
    if w.srclen > 0 {
      assert front + lengths == start + ([WinIndOf(w)] + (Encoded(w.srclen) + (Encoded(w.srcbase) + lengths)));
    } else {
      assert front + lengths == start + ([WinIndOf(w)] + lengths);
    }
  }

  lemma Bracket(a: seq<byte>, b: seq<byte>, c: seq<byte>, d: seq<byte>, e: seq<byte>, f: seq<byte>, g: seq<byte>,
                h: seq<byte>, i: seq<byte>)
    ensures a + b + c + d + e + f + g + h + i == a + (b + (c + (d + (e + (f + (g + (h + i)))))))
  {
    assert a + b + c + d + e + f + g + h + i == a + b + c + d + e + f + g + (h + i);
    assert a + b + c + d + e + f + g + (h + i) == a + b + c + d + e + f + (g + (h + i));
    assert a + b + c + d + e + f + (g + (h + i)) == a + b + c + d + e + (f + (g + (h + i)));
  }

  // What the hash functions and the table of source offsets answer while a window
  // is searched: anything, as long as offsets lie within the source.
  datatype Tables = Tables(smallHash: nat -> nat, largeTable: nat -> nat, cksumPos: nat -> nat) {

    ghost predicate Valid(source: seq<byte>) {
      forall p :: largeTable(p) <= |source|
    }
  }

  // The encoder's settings: table sizes, the source's max_winsize, and whether a
  // checksum is written.
  datatype Config = Config(smallSize: nat, sprevsz: nat, maxWinsize: nat, useAdler32: bool) {

    predicate Valid() {
      smallSize > 0 && sprevsz > 0
    }
  }

  class Encoder {
    const src: Source
    const config: Config
    const smallPrev: array<nat>
    var currentWindow: nat
    // The search for a match that crosses windows.
    var matchState: Matcher.MatchState
    var matchSrcpos: nat
    var matchLastSrcpos: nat

    ghost predicate Valid()
      reads this
    {
      && src.Valid() && config.Valid() && smallPrev.Length == config.sprevsz
      && matchState in {Matcher.MatchTarget, Matcher.MatchSearching} && matchSrcpos <= |src.bytes|
    }

    constructor (src: Source, config: Config)
      requires src.Valid() && config.Valid()
      ensures Valid() && this.src == src && currentWindow == 0 && matchSrcpos == 0 && fresh(smallPrev)
    {
      this.src, this.config := src, config;
      smallPrev := new nat[config.sprevsz];
      currentWindow, matchState, matchSrcpos, matchLastSrcpos := 0, Matcher.MatchTarget, 0, 0;
    }

    // ENC_SEARCH and ENC_INSTR for one window of input.
    method EncodeWindow(input: seq<byte>, tables: Tables) returns (w: Written)
      requires Valid() && |input| <= HARDMAXWINSIZE && |src.bytes| + |input| < U64 && tables.Valid(src.bytes)
      modifies this`matchState, this`matchSrcpos, this`matchLastSrcpos, smallPrev
      ensures Valid() && w.target == input && w.Means(src) && w.Short()
      ensures old(matchSrcpos) == 0 && Matcher.LoneRun(input, src.bytes) ==> |w.data| + |w.inst| + |w.addr| <= 33
    {
      hide Optimizer.Truthful, WindowEncoder.Encoder.Params, WindowEncoder.Encoder.Sane,
           WindowEncoder.Encoder.SourceWindow, WindowEncoder.Encoder.Valid;
      hide DecodeWindow;
      var smallTable := new nat[config.smallSize](_ => 0);
      var scanner := new Matcher.Scanner(
        input, src.given, src.bytes, src.blksize, smallTable, smallPrev, tables.smallHash, tables.largeTable,
        tables.cksumPos, config.maxWinsize, matchState, matchSrcpos, matchLastSrcpos);
      scanner.Search();
      matchState, matchSrcpos, matchLastSrcpos := scanner.matchState, scanner.matchSrcpos, scanner.matchLastSrcpos;
      var encoder := new WindowEncoder.Encoder(
        input, src.given, src.bytes, src.blksize, scanner.matchMinaddr, scanner.matchMaxaddr, scanner.iopt);
      encoder.EncodeWindow();
      w := Written(encoder.srclen, encoder.srcbase, input, encoder.dataSect, encoder.instSect, encoder.addrSect,
                   config.useAdler32);
    }
  }

  // How many windows of winsize bytes an input is cut into; an empty input is one
  // empty window.
  function Windows(n: nat, winsize: nat): (r: nat)
    requires winsize > 0
    ensures r > 0
  {
    if n <= winsize then 1 else 1 + Windows(n - winsize, winsize)
  }

  // No delta of n bytes is longer.
  function Bound(n: nat, winsize: nat): nat
    requires winsize > 0
  {
    |FileHeader| + 22 * n + 87 * Windows(n, winsize)
  }

  // A header is 76 bytes at most.
  lemma WindowLength(w: Written)
    requires w.Sized()
    ensures |WindowBytes(w, [])| <= |w.data| + |w.inst| + |w.addr| + 76
  {
    hide *;
    SectionBytesLength(w);
    LengthBytesLength(w, SectionBytes(w, []));
    CopyWindowBytesLength(w, LengthBytes(w, SectionBytes(w, [])));
    WindowBytesParts(w);
  }

  lemma WindowBytesParts(w: Written)
    requires w.Sized()
    ensures WindowBytes(w, []) == CopyWindowBytes(w, LengthBytes(w, SectionBytes(w, [])))
  {
    hide CopyWindowBytes, LengthBytes, SectionBytes;
  }

  lemma SectionBytesLength(w: Written)
    ensures |SectionBytes(w, [])| <= |w.data| + |w.inst| + |w.addr| + 4
  {
    hide Adler.Adler32;
  }

  lemma LengthBytesLength(w: Written, rest: seq<byte>)
    requires w.Sized()
    ensures |LengthBytes(w, rest)| <= |rest| + 51
  {
    EncLenFits(w);
    IntegerLength(EncLenOf(w));
    IntegerLength(|w.target|);
    IntegerLength(|w.data|);
    IntegerLength(|w.inst|);
    IntegerLength(|w.addr|);
    hide Encoded, EncLenOf;
  }

  lemma CopyWindowBytesLength(w: Written, rest: seq<byte>)
    requires w.Sized()
    ensures |CopyWindowBytes(w, rest)| <= |rest| + 21
  {
    IntegerLength(w.srclen);
    IntegerLength(w.srcbase);
    hide Encoded, WinIndOf;
  }

  lemma IntegerLength(n: nat)
    requires n < U64
    ensures |Encoded(n)| <= 10
  {
    SizeOfIsLength(n);
  }

  lemma EncLenFits(w: Written)
    requires w.Sized()
    ensures EncLenOf(w) < U64
  {
  }

  // No file for a long run whose byte the source does not begin with is longer.
  const RUN_BOUND: nat := 114

  // xd3_process_stream for an encoder: the output is a delta of the input, of
  // bounded length; it is refused only for lack of space.
  method EncodeStream(input: seq<byte>, winsize: nat, src: Source, config: Config, tables: nat -> Tables,
                      outputSizeMax: nat)
    returns (r: Result<seq<byte>>)
    requires 0 < winsize <= HARDMAXWINSIZE && src.Valid() && config.Valid()
    requires |input| < U64 && |src.bytes| + winsize < U64 && forall i :: tables(i).Valid(src.bytes)
    ensures exists delta :: Delta(delta, input, src) && |delta| <= Bound(|input|, winsize)
                            && r == if |delta| <= outputSizeMax then Ok(delta) else Fail
    ensures Bound(|input|, winsize) <= outputSizeMax ==> r.Ok?
    ensures |input| <= winsize && Matcher.LoneRun(input, src.bytes) && RUN_BOUND <= outputSizeMax ==> r.Ok?
  {
    hide FileBytes, Flatten, DecodeWindow, Delta, WindowBytes, Matcher.LoneRun;
    var stream := new Encoder(src, config);
    var ipos := 0;
    var output := [];
    ghost var ws: seq<Written> := [];
    NothingWritten(src);
    while true
      invariant stream.Valid() && fresh(stream) && fresh(stream.smallPrev) && stream.src == src
      invariant ipos <= |input| && AllMean(ws, src) && |ws| == stream.currentWindow
      invariant Flatten(Targets(ws)) == input[..ipos]
      invariant output == FileOf(ws, src)
      invariant |output| <= |FileHeader| + 22 * ipos + 87 * |ws|
      invariant |ws| + Windows(|input| - ipos, winsize) == Windows(|input|, winsize)
      invariant ws == [] ==> ipos == 0 && stream.matchSrcpos == 0
      invariant |input| <= winsize ==> ws == []
      decreases |input| - ipos
    {
      var n := Min(winsize, |input| - ipos);
      var w := stream.EncodeWindow(input[ipos..ipos + n], tables(stream.currentWindow));
      var hdr := EmitHdr(w, stream.currentWindow);
      OneMore(ws, w, src, hdr, output, input, ipos, n);
      WindowLength(w);
      output := output + hdr + w.data + w.inst + w.addr;
      ipos := ipos + n;
      ws := ws + [w];
      stream.currentWindow := stream.currentWindow + 1;
      if ipos == |input| {
        break;
      }
    }
    assert input[..ipos] == input;
    FileDecoded(ws, src);
    assert Delta(output, input, src) && |output| <= Bound(|input|, winsize);
    r := if |output| <= outputSizeMax then Ok(output) else Fail;
  }

  // The output once windows ws are written.
  function FileOf(ws: seq<Written>, src: Source): seq<byte>
    requires forall i :: 0 <= i < |ws| ==> ws[i].Sized()
  {
    if ws == [] then [] else FileHeader + FileBytes(ws)
  }

  lemma NothingWritten(src: Source)
    ensures AllMean([], src) && Flatten(Targets([])) == []
  {
  }

  lemma OneMore(ws: seq<Written>, w: Written, src: Source, hdr: seq<byte>, output: seq<byte>,
                input: seq<byte>, ipos: nat, n: nat)
    requires AllMean(ws, src) && w.Means(src) && output == FileOf(ws, src)
    requires ipos + n <= |input| && Flatten(Targets(ws)) == input[..ipos] && w.target == input[ipos..ipos + n]
    requires hdr + (w.data + (w.inst + w.addr)) == (if |ws| == 0 then FileHeader else []) + WindowBytes(w, [])
    ensures AllMean(ws + [w], src) && output + hdr + w.data + w.inst + w.addr == FileOf(ws + [w], src)
    ensures Flatten(Targets(ws + [w])) == input[..ipos + n]
  {
    hide WindowBytes, DecodeWindow, Flatten;
    var ws' := ws + [w];
    assert ws'[..|ws|] == ws;
    assert Targets(ws') == Targets(ws) + [w.target];
    FlattenSnoc(Targets(ws), w.target);
    assert input[..ipos] + input[ipos..ipos + n] == input[..ipos + n];
    assert output + hdr + w.data + w.inst + w.addr == output + (hdr + (w.data + (w.inst + w.addr)));
    if ws == [] {
      assert FileBytes(ws') == [] + WindowBytes(w, []);
    } else {
      assert FileHeader + FileBytes(ws) + ([] + WindowBytes(w, [])) == FileHeader + FileBytes(ws');
    }
  }
}
