// What a VCDIFF file stands for (RFC 3284, section 4): a header, then windows,
// each a window header, three sections and their target. The file is read as a
// state machine that takes one byte at a time, so that how its input is cut into
// pieces cannot matter.
module StreamFormat {
  import opened Bytes
  import opened Integers
  import opened AddressCache
  import opened WindowFormat
  import opened Adler

  // Header, window and delta indicator bits.
  const VCD_SECONDARY: nat := 1
  const VCD_CODETABLE: nat := 2
  const VCD_APPHEADER: nat := 4
  const VCD_SOURCE: nat := 1
  const VCD_TARGET: nat := 2
  const VCD_ADLER32: nat := 4
  const VCD_DATACOMP: nat := 1
  const VCD_INSTCOMP: nat := 2
  const VCD_ADDRCOMP: nat := 4
  const INVALID_BITS: nat := 8

  // The secondary compressors the decoder is built with.
  const VCD_DJW_ID: byte := 1
  const VCD_FGK_ID: byte := 16

  const HARDMAXWINSIZE: nat := 0x400_0000
  const ALLOCSIZE: nat := 0x4000

  type Size = n: int | 0 <= n < U64

  // One of the three low bits of an indicator byte.
  predicate Set(ind: byte, bit: nat)
    requires bit in {1, 2, 4}
  {
    if bit == 1 then ind % 2 == 1 else if bit == 2 then ind % 4 >= 2 else ind % 8 >= 4
  }

  // The decoder's states, DEC_VCHEAD to DEC_FINISH, and one for a refused input.
  datatype Phase =
    | VcHead | HdrInd | SecondId | TabLen | Near | Same | TabDat | AppLen | AppDat
    | WinInd | CpyLen | CpyOff | EncLen | TgtLen | DelInd | DataLen | InstLen | AddrLen | Cksum
    | DataSect | InstSect | AddrSect | Emitting | Finish | Rejected

  // The values read from the file header and the current window header.
  datatype Head = Head(
    hdrInd: byte, secondId: byte, tabLen: Size, appheadsz: Size, winInd: byte, cpylen: Size, cpyoff: Size, enclen: Size,
    tgtlen: Size, delInd: byte, dataLen: Size, instLen: Size, addrLen: Size, adler32: nat)

  // The coded sections of each kind decompressed so far.
  datatype Received = Received(data: seq<seq<byte>>, inst: seq<seq<byte>>, addr: seq<seq<byte>>)

  // A secondary decompressor: what it makes of a section may depend on the compressor
  // and on all the sections of the same kind it has had.
  type Decompressor = (byte, seq<seq<byte>>, seq<byte>) -> Result<seq<byte>>

  // The decoder between bytes. A phase fills got with the bytes of its field, or
  // part with the integer so far, which then moves to the head and sets full.
  datatype Stream = Stream(
    phase: Phase, got: seq<byte>, part: Size, full: bool, head: Head, data: seq<byte>, inst: seq<byte>,
    addr: seq<byte>, received: Received, winstart: Size, spaceOut: nat, windows: seq<seq<byte>>)

  function Init(): Stream {
    Stream(VcHead, [], 0, false, Head(0, 0, 0, 0, 0, 0, 0, 0, 0, 0, 0, 0, 0, 0), [], [], [], Received([], [], []), 0, 0, [])
  }

  // The decoder's source, if it was given one, and its secondary decompressors.
  datatype Source = Source(given: bool, bytes: seq<byte>, blksize: nat, decompress: Decompressor) {
    ghost predicate Valid() {
      blksize > 0
    }
  }

  // ---------- what a phase waits for ----------

  // SRCORTGT: exactly one of the two bits.
  predicate HasCopyWindow(winInd: byte) {
    Set(winInd, VCD_SOURCE) != Set(winInd, VCD_TARGET)
  }

  predicate ReadsInteger(phase: Phase, h: Head) {
    match phase
    case TabLen => Set(h.hdrInd, VCD_CODETABLE)
    case AppLen => Set(h.hdrInd, VCD_APPHEADER)
    case CpyLen => HasCopyWindow(h.winInd)
    case CpyOff => HasCopyWindow(h.winInd)
    case EncLen => true
    case TgtLen => true
    case DataLen => true
    case InstLen => true
    case AddrLen => true
    case _ => false
  }

  predicate SectionsOverflow(h: Head) {
    h.instLen + h.addrLen + h.dataLen >= U64
  }

  // How many bytes the other phases read.
  function Need(phase: Phase, h: Head): Size {
    match phase
    case VcHead => 4
    case HdrInd => 1
    case SecondId => if Set(h.hdrInd, VCD_SECONDARY) then 1 else 0
    case Near => if Set(h.hdrInd, VCD_CODETABLE) then 1 else 0
    case Same => if Set(h.hdrInd, VCD_CODETABLE) then 1 else 0
    case AppDat => if Set(h.hdrInd, VCD_APPHEADER) && h.appheadsz + 1 < U64 then h.appheadsz else 0
    case WinInd => 1
    case DelInd => 1
    case Cksum => if Set(h.winInd, VCD_ADLER32) then 4 else 0
    case DataSect => if SectionsOverflow(h) then 0 else h.dataLen
    case InstSect => h.instLen
    case AddrSect => h.addrLen
    case _ => 0
  }

  predicate Waiting(s: Stream) {
    if ReadsInteger(s.phase, s.head) then !s.full else |s.got| < Need(s.phase, s.head)
  }

  // ---------- one byte ----------

  // The integer of a phase, stored where it belongs.
  function SetInteger(h: Head, phase: Phase, v: Size): Head {
    match phase
    case TabLen => h.(tabLen := v)
    case AppLen => h.(appheadsz := v)
    case CpyLen => h.(cpylen := v)
    case CpyOff => h.(cpyoff := v)
    case EncLen => h.(enclen := v)
    case TgtLen => h.(tgtlen := v)
    case DataLen => h.(dataLen := v)
    case InstLen => h.(instLen := v)
    case AddrLen => h.(addrLen := v)
    case _ => h
  }

  function Reject(s: Stream): Stream {
    s.(phase := Rejected)
  }

  // A byte for the field being read.
  function Take(s: Stream, b: byte): Stream
    requires Waiting(s)
  {
    if ReadsInteger(s.phase, s.head) then
      match DecodeByte(s.part, b)
      case Overflow => Reject(s)
      case More(p) => s.(part := p)
      case Done(v) => s.(part := 0, full := true, head := SetInteger(s.head, s.phase, v))
    else s.(got := s.got + [b])
  }

  // ---------- the end of a phase ----------

  function Next(s: Stream, phase: Phase): Stream {
    s.(phase := phase, got := [], full := false)
  }

  // The redundant encoding length, in usize_t arithmetic.
  function EnclenCheck(h: Head): Size {
    (1 + SizeOf(h.tgtlen) + SizeOf(h.dataLen) + SizeOf(h.instLen) + SizeOf(h.addrLen)
     + h.dataLen + h.instLen + h.addrLen + (if Set(h.winInd, VCD_ADLER32) then 4 else 0)) % U64
  }

  // xd3_round_blksize with XD3_ALLOCSIZE.
  function RoundUp(n: nat): (r: nat)
    ensures r >= n
  {
    if n % ALLOCSIZE == 0 then n else n + (ALLOCSIZE - n % ALLOCSIZE)
  }

  // The size of the output buffer once a window of n bytes fits.
  function OutputRoom(spaceOut: nat, n: nat): (r: nat)
    ensures r >= n
  {
    if spaceOut < n then RoundUp(n) else spaceOut
  }

  // What the checks passed so far say: window sizes that cannot overflow, and
  // room for the target once it is emitted.
  ghost predicate Sound(s: Stream) {
    && (s.phase in {DelInd, DataLen, InstLen, AddrLen, Cksum, Emitting} || InSections(s.phase) ==>
          s.head.cpylen + s.head.tgtlen < U64)
    && (s.phase == Emitting ==> s.head.tgtlen <= s.spaceOut)
    && (ReadsInteger(s.phase, s.head) || |s.got| <= Need(s.phase, s.head) || s.phase == Rejected)
  }

  // The window of the emitting phase.
  function WindowOf(s: Stream, src: Source): (w: Window)
    requires Sound(s) && s.phase == Emitting && src.Valid()
    ensures w.Valid()
  {
    Window(s.head.cpylen, s.head.cpyoff, s.head.tgtlen, s.spaceOut, src.bytes, src.blksize)
  }

  // The target of a window whose sections are read, if its instructions and its
  // checksum hold.
  function TargetOf(s: Stream, src: Source): Result<seq<byte>>
    requires Sound(s) && s.phase == Emitting && src.Valid()
  {
    if Set(s.head.winInd, VCD_SOURCE) && !src.given then Fail
    else
      var target :- DecodeWindow(WindowOf(s, src), Sections(s.inst, s.addr, s.data));
      if Set(s.head.winInd, VCD_ADLER32) && Adler32(target) != s.head.adler32 then Fail else Ok(target)
  }

  // The file header, up to the application data.
  function CompleteHeader(s: Stream): Stream
    requires !Waiting(s) && Sound(s)
    requires InHeader(s.phase)
  {
    match s.phase
    case VcHead => if s.got == [0xd6, 0xc3, 0xc4, 0] then Next(s, HdrInd) else Reject(s)
    case HdrInd =>
      if s.got[0] < INVALID_BITS then Next(s, SecondId).(head := s.head.(hdrInd := s.got[0])) else Reject(s)
    case SecondId =>
      if s.got == [] then Next(s, TabLen)
      else if s.got[0] in {VCD_DJW_ID, VCD_FGK_ID} then Next(s, TabLen).(head := s.head.(secondId := s.got[0]))
      else Reject(s)
    case TabLen =>
      if Set(s.head.hdrInd, VCD_CODETABLE) && s.head.tabLen <= 2 then Reject(s) else Next(s, Near)
    case Near => Next(s, Same)
    case Same => Next(s, TabDat)
    case TabDat => if Set(s.head.hdrInd, VCD_CODETABLE) then Reject(s) else Next(s, AppLen)
    case AppLen => Next(s, AppDat)
    case AppDat =>
      if Set(s.head.hdrInd, VCD_APPHEADER) && s.head.appheadsz + 1 >= U64 then Reject(s) else Next(s, WinInd)
  }

  // The window header.
  function CompleteWindow(s: Stream): Stream
    requires !Waiting(s) && Sound(s)
    requires InWindowHeader(s.phase)
  {
    match s.phase
    case WinInd =>
      // The target length is still that of the window before.
      if s.winstart + s.head.tgtlen >= U64 || s.got[0] >= INVALID_BITS then Reject(s)
      else Next(s, CpyLen).(winstart := s.winstart + s.head.tgtlen,
                            head := s.head.(winInd := s.got[0], cpylen := 0, cpyoff := 0))
    case CpyLen => Next(s, CpyOff)
    case CpyOff =>
      if s.head.cpyoff + s.head.cpylen >= U64 then Reject(s)
      else if Set(s.head.winInd, VCD_TARGET) && s.head.cpyoff + s.head.cpylen > s.winstart then Reject(s)
      else Next(s, EncLen)
    case EncLen => Next(s, TgtLen)
    case TgtLen =>
      if s.head.cpylen + s.head.tgtlen >= U64 || s.head.tgtlen > HARDMAXWINSIZE then Reject(s) else Next(s, DelInd)
    case DelInd =>
      // Without a secondary compressor no delta indicator bit may be set.
      if s.got[0] >= INVALID_BITS || (s.got[0] != 0 && s.head.secondId == 0) then Reject(s)
      else Next(s, DataLen).(head := s.head.(delInd := s.got[0]))
    case DataLen => Next(s, InstLen)
    case InstLen => Next(s, AddrLen)
    case AddrLen => Next(s, Cksum)
    case Cksum =>
      var h := if Set(s.head.winInd, VCD_ADLER32) then s.head.(adler32 := BigEndian(s.got)) else s.head;
      if h.enclen != EnclenCheck(h) then Reject(s) else Next(s, DataSect).(head := h)
  }

  // xd3_decode_secondary_sections: the sections the delta indicator names are
  // decompressed, data first, then instructions, then addresses.
  function Decompressed(s: Stream, src: Source): (r: Result<Stream>)
    ensures r.Ok? ==> s == r.value.(data := s.data, inst := s.inst, addr := s.addr, received := s.received)
    ensures s.head.delInd == 0 ==> r == Ok(s)
  {
    var s1 :- DecompressedData(s, src);
    var s2 :- DecompressedInst(s1, src);
    DecompressedAddr(s2, src)
  }

  function DecompressedData(s: Stream, src: Source): (r: Result<Stream>)
    ensures r.Ok? ==> s == r.value.(data := s.data, received := s.received)
    ensures s.head.delInd == 0 ==> r == Ok(s)
  {
    if !Set(s.head.delInd, VCD_DATACOMP) then Ok(s)
    else
      var data :- src.decompress(s.head.secondId, s.received.data, s.data);
      Ok(s.(data := data, received := s.received.(data := s.received.data + [s.data])))
  }

  function DecompressedInst(s: Stream, src: Source): (r: Result<Stream>)
    ensures r.Ok? ==> s == r.value.(inst := s.inst, received := s.received)
    ensures s.head.delInd == 0 ==> r == Ok(s)
  {
    if !Set(s.head.delInd, VCD_INSTCOMP) then Ok(s)
    else
      var inst :- src.decompress(s.head.secondId, s.received.inst, s.inst);
      Ok(s.(inst := inst, received := s.received.(inst := s.received.inst + [s.inst])))
  }

  function DecompressedAddr(s: Stream, src: Source): (r: Result<Stream>)
    ensures r.Ok? ==> s == r.value.(addr := s.addr, received := s.received)
    ensures s.head.delInd == 0 ==> r == Ok(s)
  {
    if !Set(s.head.delInd, VCD_ADDRCOMP) then Ok(s)
    else
      var addr :- src.decompress(s.head.secondId, s.received.addr, s.addr);
      Ok(s.(addr := addr, received := s.received.(addr := s.received.addr + [s.addr])))
  }

  // The sections.
  function CompleteSections(s: Stream, src: Source): Stream
    requires !Waiting(s) && Sound(s) && InSections(s.phase)
  {
    match s.phase
    case DataSect => if SectionsOverflow(s.head) then Reject(s) else Next(s, InstSect).(data := s.got)
    case InstSect => Next(s, AddrSect).(inst := s.got)
    case AddrSect =>
      var plain := Decompressed(s.(addr := s.got), src);
      if plain.Fail? || Set(s.head.winInd, VCD_TARGET) then Reject(s)
      else Next(plain.value, Emitting).(spaceOut := OutputRoom(s.spaceOut, s.head.tgtlen))
  }

  // The target.
  function CompleteTarget(s: Stream, src: Source): Stream
    requires Sound(s) && src.Valid() && s.phase in {Emitting, Finish}
  {
    if s.phase == Finish then Next(s, WinInd).(data := [], inst := [], addr := [])
    else
      var target := TargetOf(s, src);
      if target.Fail? then Reject(s) else Next(s, Finish).(windows := s.windows + [target.value])
  }

  predicate InHeader(phase: Phase) {
    phase in {VcHead, HdrInd, SecondId, TabLen, Near, Same, TabDat, AppLen, AppDat}
  }

  predicate InWindowHeader(phase: Phase) {
    phase in {WinInd, CpyLen, CpyOff, EncLen, TgtLen, DelInd, DataLen, InstLen, AddrLen, Cksum}
  }

  predicate InSections(phase: Phase) {
    phase in {DataSect, InstSect, AddrSect}
  }

  function Complete(s: Stream, src: Source): Stream
    requires !Waiting(s) && Sound(s) && src.Valid() && s.phase != Rejected
  {
    if InHeader(s.phase) then CompleteHeader(s)
    else if InWindowHeader(s.phase) then CompleteWindow(s)
    else if InSections(s.phase) then CompleteSections(s, src)
    else CompleteTarget(s, src)
  }

  // How many phases can end before another byte is needed.
  function Rank(s: Stream): nat {
    match s.phase
    case VcHead => 26
    case HdrInd => 25
    case SecondId => 24
    case TabLen => 23
    case Near => 22
    case Same => 21
    case TabDat => 20
    case AppLen => 19
    case AppDat => 18
    case WinInd => if s.got == [] then 1 else 17
    case CpyLen => 16
    case CpyOff => 15
    case EncLen => 14
    case TgtLen => 13
    case DelInd => 12
    case DataLen => 11
    case InstLen => 10
    case AddrLen => 9
    case Cksum => 8
    case DataSect => 7
    case InstSect => 6
    case AddrSect => 5
    case Emitting => 4
    case Finish => 3
    case Rejected => 0
  }

  // A phase ends soundly and, unless the input is refused, nearer to the next byte.
  ghost predicate Advances(s: Stream, s': Stream) {
    Sound(s') && (s'.phase != Rejected ==> Rank(s') < Rank(s))
  }

  // Fewer input bytes are left, or as many at a lower rank.
  ghost predicate Nearer(s: Stream, input: seq<byte>, s': Stream, input': seq<byte>) {
    |input'| < |input| || (|input'| == |input| && Rank(s') < Rank(s))
  }

  lemma HeaderAdvances(s: Stream)
    requires !Waiting(s) && Sound(s) && InHeader(s.phase)
    ensures Advances(s, CompleteHeader(s))
  {
  }

  lemma WindowAdvances(s: Stream)
    requires !Waiting(s) && Sound(s) && InWindowHeader(s.phase)
    ensures Advances(s, CompleteWindow(s))
  {
    hide EnclenCheck;
  }

  lemma SectionsAdvance(s: Stream, src: Source)
    requires !Waiting(s) && Sound(s) && InSections(s.phase)
    ensures Advances(s, CompleteSections(s, src))
  {
    hide Decompressed;
  }

  lemma TargetAdvances(s: Stream, src: Source)
    requires Sound(s) && src.Valid() && s.phase in {Emitting, Finish}
    ensures Advances(s, CompleteTarget(s, src))
  {
    hide TargetOf;
  }

  lemma CompleteAdvances(s: Stream, src: Source)
    requires !Waiting(s) && Sound(s) && src.Valid() && s.phase != Rejected
    ensures Advances(s, Complete(s, src))
  {
    hide CompleteHeader, CompleteWindow, CompleteSections, CompleteTarget, Advances, Sound, Waiting;
    if InHeader(s.phase) {
      HeaderAdvances(s);
    } else if InWindowHeader(s.phase) {
      WindowAdvances(s);
    } else if InSections(s.phase) {
      SectionsAdvance(s, src);
    } else {
      TargetAdvances(s, src);
    }
  }

  lemma TakeSound(s: Stream, b: byte)
    requires Sound(s) && Waiting(s)
    ensures Sound(Take(s, b))
  {
  }

  // ---------- a whole input ----------

  // The state after an input: every phase ends as soon as it has its field.
  function Run(s: Stream, input: seq<byte>, src: Source): Stream
    requires Sound(s) && src.Valid()
    decreases |input|, Rank(s)
  {
    if s.phase == Rejected then s
    else if !Waiting(s) then
      CompleteAdvances(s, src);
      var s' := Complete(s, src);
      if s'.phase == Rejected then s' else Run(s', input, src)
    else if input == [] then s
    else
      TakeSound(s, input[0]);
      Run(Take(s, input[0]), input[1..], src)
  }

  lemma {:induction false} RunSound(s: Stream, input: seq<byte>, src: Source)
    requires Sound(s) && src.Valid()
    ensures Sound(Run(s, input, src))
    decreases |input|, Rank(s)
  {
    hide Sound, Complete, Take, Rank, Waiting, Need;
    if s.phase == Rejected {
    } else if !Waiting(s) {
      CompleteAdvances(s, src);
      if Complete(s, src).phase != Rejected {
        RunSound(Complete(s, src), input, src);
      }
    } else if input != [] {
      TakeSound(s, input[0]);
      RunSound(Take(s, input[0]), input[1..], src);
    }
  }

  // Cutting the input anywhere changes nothing.
  lemma {:induction false} RunSplit(s: Stream, a: seq<byte>, b: seq<byte>, src: Source)
    requires Sound(s) && src.Valid()
    ensures Sound(Run(s, a, src)) && Run(s, a + b, src) == Run(Run(s, a, src), b, src)
    decreases |a|, Rank(s)
  {
    hide Sound, Waiting, Complete, Take, Rank, Need;
    RunSound(s, a, src);
    if s.phase == Rejected {
    } else if !Waiting(s) {
      CompleteAdvances(s, src);
      if Complete(s, src).phase != Rejected {
        RunSplit(Complete(s, src), a, b, src);
      }
    } else if a == [] {
      assert a + b == b;
    } else {
      assert (a + b)[1..] == a[1..] + b;
      TakeSound(s, a[0]);
      RunSplit(Take(s, a[0]), a[1..], b, src);
    }
  }

  // The decoder given one piece of input after another.
  function RunPieces(s: Stream, pieces: seq<seq<byte>>, src: Source): (s': Stream)
    requires Sound(s) && src.Valid()
    ensures Sound(s')
  {
    if pieces == [] then
      RunSound(s, [], src);
      Run(s, [], src)
    else
      var s' := RunPieces(s, pieces[..|pieces| - 1], src);
      RunSound(s', pieces[|pieces| - 1], src);
      Run(s', pieces[|pieces| - 1], src)
  }

  // However the input is cut, the decoder ends in the state, and with the windows,
  // of the whole.
  lemma {:induction false} CutAnywhere(s: Stream, pieces: seq<seq<byte>>, src: Source)
    requires Sound(s) && src.Valid()
    ensures RunPieces(s, pieces, src) == Run(s, Flatten(pieces), src)
  {
    hide Sound, Run;
    if pieces != [] {
      CutAnywhere(s, pieces[..|pieces| - 1], src);
      RunSplit(s, Flatten(pieces[..|pieces| - 1]), pieces[|pieces| - 1], src);
    }
  }

  // Windows are only ever added.
  lemma {:induction false} RunExtends(s: Stream, input: seq<byte>, src: Source)
    requires Sound(s) && src.Valid()
    ensures s.windows <= Run(s, input, src).windows
    decreases |input|, Rank(s)
  {
    hide Sound, Rank, Waiting, Need;
    if s.phase == Rejected {
    } else if !Waiting(s) {
      CompleteAdvances(s, src);
      CompleteExtends(s, src);
      if Complete(s, src).phase != Rejected {
        RunExtends(Complete(s, src), input, src);
      }
    } else if input != [] {
      TakeSound(s, input[0]);
      RunExtends(Take(s, input[0]), input[1..], src);
    }
  }

  lemma CompleteExtends(s: Stream, src: Source)
    requires !Waiting(s) && Sound(s) && src.Valid() && s.phase != Rejected
    ensures s.windows <= Complete(s, src).windows
  {
    hide TargetOf, EnclenCheck, Decompressed;
  }

  function Flatten(windows: seq<seq<byte>>): seq<byte> {
    if windows == [] then [] else Flatten(windows[..|windows| - 1]) + windows[|windows| - 1]
  }

  lemma FlattenSnoc(windows: seq<seq<byte>>, w: seq<byte>)
    ensures Flatten(windows + [w]) == Flatten(windows) + w
  {
    assert (windows + [w])[..|windows|] == windows;
  }

  lemma {:induction false} FlattenGrows(a: seq<seq<byte>>, b: seq<seq<byte>>)
    requires a <= b
    ensures |Flatten(a)| <= |Flatten(b)|
  {
    if |a| < |b| {
      FlattenGrows(a, b[..|b| - 1]);
    } else {
      assert a == b;
    }
  }

  // The file a delta stands for: its windows, one after the other, if the last one
  // is complete and they fit in the space the caller has.
  function DecodeFile(input: seq<byte>, src: Source, spaceMax: nat): Result<seq<byte>>
    requires src.Valid()
  {
    var s := Run(Init(), input, src);
    if s.phase in {VcHead, WinInd} && |Flatten(s.windows)| <= spaceMax then Ok(Flatten(s.windows)) else Fail
  }

  // Reading input takes the decoder from s to goal.
  ghost predicate Reaches(s: Stream, input: seq<byte>, src: Source, goal: Stream) {
    src.Valid() && Sound(s) && Run(s, input, src) == goal
  }

  // A phase that has its field ends.
  lemma ReachComplete(s: Stream, input: seq<byte>, src: Source, goal: Stream)
    requires Reaches(s, input, src, goal) && !Waiting(s) && s.phase != Rejected
    ensures Sound(s) && src.Valid() && Reaches(Complete(s, src), input, src, goal)
  {
    CompleteAdvances(s, src);
  }

  // A decoder that waits for a byte stays where it is.
  lemma ReachWaiting(s: Stream, src: Source, goal: Stream)
    requires Reaches(s, [], src, goal) && Waiting(s)
    ensures goal == s
  {
  }

  // Sections whose sizes overflow are refused before any is read.
  lemma ReachOverflow(s: Stream, input: seq<byte>, src: Source, goal: Stream)
    requires Reaches(s, input, src, goal) && s.phase == DataSect && SectionsOverflow(s.head)
    ensures goal == Reject(s)
  {
    ReachComplete(s, input, src, goal);
    ReachRejected(Reject(s), input, src, goal);
  }

  // The target is decoded, or the input refused.
  lemma ReachTarget(s: Stream, input: seq<byte>, src: Source, goal: Stream)
    requires Reaches(s, input, src, goal) && s.phase == Emitting
    ensures Sound(s) && src.Valid()
    ensures TargetOf(s, src).Fail? ==> goal == Reject(s)
    ensures TargetOf(s, src).Ok? ==>
              Reaches(Next(s, Finish).(windows := s.windows + [TargetOf(s, src).value]), input, src, goal)
  {
    hide TargetOf;
    ReachComplete(s, input, src, goal);
    if TargetOf(s, src).Fail? {
      ReachRejected(Reject(s), input, src, goal);
    }
  }

  lemma ReachRoom(s: Stream, input: seq<byte>, src: Source, goal: Stream)
    requires Reaches(s, input, src, goal) && s.phase != Rejected
    ensures !ReadsInteger(s.phase, s.head) ==> |s.got| <= Need(s.phase, s.head)
  {
  }

  lemma ReachRejected(s: Stream, input: seq<byte>, src: Source, goal: Stream)
    requires Reaches(s, input, src, goal) && s.phase == Rejected
    ensures goal == s
  {
  }

  // Bytes copied in bulk are the same bytes taken one at a time.
  lemma {:induction false} ReachBytes(s: Stream, input: seq<byte>, n: nat, src: Source, goal: Stream)
    requires Reaches(s, input, src, goal) && s.phase != Rejected && !ReadsInteger(s.phase, s.head)
    requires n <= |input| && |s.got| + n <= Need(s.phase, s.head)
    ensures Reaches(s.(got := s.got + input[..n]), input[n..], src, goal)
    decreases n
  {
    hide Reaches;
    if n == 0 {
      assert s.got + input[..0] == s.got;
    } else {
      var s' := Take(s, input[0]);
      ReachTake(s, input, src, goal);
      ReachBytes(s', input[1..], n - 1, src, goal);
      assert s'.got + input[1..][..n - 1] == s.got + input[..n];
      assert input[1..][n - 1..] == input[n..];
    }
  }

  lemma ReachTake(s: Stream, input: seq<byte>, src: Source, goal: Stream)
    requires Reaches(s, input, src, goal) && Waiting(s) && s.phase != Rejected && input != []
    ensures Reaches(Take(s, input[0]), input[1..], src, goal)
  {
    TakeSound(s, input[0]);
  }

  // A byte of an integer.
  lemma ReachIntegerByte(s: Stream, input: seq<byte>, src: Source, goal: Stream)
    requires Reaches(s, input, src, goal) && ReadsInteger(s.phase, s.head) && !s.full && input != []
    ensures var d := DecodeByte(s.part, input[0]);
            && (d.Overflow? ==> goal == Reject(s))
            && (d.More? ==> Reaches(s.(part := d.part), input[1..], src, goal))
            && (d.Done? ==> Reaches(s.(part := 0, full := true, head := SetInteger(s.head, s.phase, d.val)),
                                    input[1..], src, goal))
  {
    ReachTake(s, input, src, goal);
  }

  // Reading all of a piece on the way to goal, given + rest being the input.
  lemma ReachPiece(s: Stream, given: seq<byte>, rest: seq<byte>, src: Source, total: Stream) returns (goal: Stream)
    requires Reaches(s, given + rest, src, total)
    ensures Reaches(s, given, src, goal)
    ensures goal.phase == Rejected ==> total == goal
    ensures Reaches(goal, rest, src, total) && Reaches(goal, [], src, goal)
  {
    goal := Run(s, given, src);
    RunSplit(s, given, rest, src);
    assert given + [] == given;
    RunSplit(s, given, [], src);
  }

  lemma ReachExtends(s: Stream, input: seq<byte>, src: Source, goal: Stream)
    requires Reaches(s, input, src, goal)
    ensures s.windows <= goal.windows
  {
    RunExtends(s, input, src);
  }
}
