// xd3_decode_input (xdelta3-decode.h): the resumable decoder, updating its fields
// in place and consuming whatever input it is given, proved against the stream
// format.
module StreamDecoder {
  import opened Bytes
  import opened Integers
  import opened WindowFormat
  import opened StreamFormat
  import Adler
  import WindowDecoder

  // The outcome of one step: done, more input required, or invalid.
  datatype Status = Ready | Short | Bad

  // The return codes of xd3_decode_input; Proceed is zero, on which the next phase
  // follows.
  datatype Event = NeedInput | GotHeader | WinStart | Output | WinFinish | Invalid | Proceed

  // What xd3_decode_input returns on the way from s, with input, to goal: an error
  // exactly if the format refuses the input, a window if one is complete.
  ghost predicate Returns(event: Event, target: seq<byte>, s: Stream, input: seq<byte>, s': Stream, input': seq<byte>,
                          src: Source, goal: Stream) {
    && (event == NeedInput ==> input' == [] && goal == s')
    && (event == Invalid ==> goal.phase == Rejected && goal.windows == s'.windows)
    && (event != Invalid ==> s'.phase != Rejected)
    && (event !in {NeedInput, Invalid} ==> Reaches(s', input', src, goal) && Nearer(s, input, s', input'))
    && s'.windows == if event == Output then s.windows + [target] else s.windows
  }

  class Decoder {
    const src: Source
    // The unread part of the input it was given last.
    var nextIn: seq<byte>
    var decState: Phase
    var head: Head
    // dec_magic, dec_appheader, dec_cksum or a section's copied1, filled up to its
    // pos; and dec_64part.
    var got: seq<byte>
    var part: Size
    var winbytes: nat
    var dataSect: seq<byte>
    var instSect: seq<byte>
    var addrSect: seq<byte>
    // What the secondary decompressors have had, which is what their state depends on.
    var received: Received
    var winstart: Size
    var spaceOut: nat
    var windowCount: nat
    var currentWindow: nat
    // Every target window handed out so far.
    var windows: seq<seq<byte>>

    constructor (src: Source)
      requires src.Valid()
      ensures this.src == src && nextIn == [] && Abs() == Init() && WinbytesRight()
    {
      this.src := src;
      nextIn, decState, got, part, winbytes := [], VcHead, [], 0, 0;
      head := Init().head;
      dataSect, instSect, addrSect, received := [], [], [], Received([], [], []);
      winstart, spaceOut, windowCount, currentWindow, windows := 0, 0, 0, 0, [];
    }

    function Abs(): Stream
      reads this
    {
      Stream(decState, got, part, false, head, dataSect, instSect, addrSect, received, winstart, spaceOut, windows)
    }

    method Store(s: Stream)
      requires !s.full
      modifies this`decState, this`got, this`part, this`head, this`dataSect, this`instSect, this`addrSect,
               this`received, this`winstart, this`spaceOut, this`windows
      ensures Abs() == s
    {
      decState, got, part, head := s.phase, s.got, s.part, s.head;
      dataSect, instSect, addrSect, received := s.data, s.inst, s.addr, s.received;
      winstart, spaceOut, windows := s.winstart, s.spaceOut, s.windows;
    }

    // dec_winbytes counts the section bytes taken.
    ghost predicate WinbytesRight()
      reads this`decState, this`got, this`winbytes, this`head
    {
      && winbytes == (if InSections(decState) then |got| else 0) + SectionsBefore(decState, head)
      && (decState in {InstSect, AddrSect} ==> !SectionsOverflow(head))
    }

    // ---------- fields ----------

    // DECODE_INPUT.
    method Consume(n: nat)
      requires n <= |nextIn|
      modifies this`nextIn
      ensures nextIn == old(nextIn[n..])
    {
      nextIn := nextIn[n..];
    }

    // xd3_decode_byte and xd3_decode_bytes: fill the buffer of the current phase
    // up to size.
    method DecodeBytes(size: nat, ghost goal: Stream) returns (status: Status)
      requires Reaches(Abs(), nextIn, src, goal) && decState != Rejected && |got| <= size
      requires !ReadsInteger(decState, head) && size == Need(decState, head)
      modifies this`nextIn, this`got
      ensures Reaches(Abs(), nextIn, src, goal)
      ensures status == if |got| == size then Ready else Short
      ensures status == Short ==> nextIn == []
      ensures |nextIn| + |got| == old(|nextIn| + |got|) && |got| <= size
    {
      hide Reaches, ReadsInteger, Need;
      while |got| < size
        invariant Reaches(Abs(), nextIn, src, goal) && |got| <= size
        invariant |nextIn| + |got| == old(|nextIn| + |got|)
        decreases size - |got|
      {
        if nextIn == [] {
          return Short;
        }
        var take := Min(size - |got|, |nextIn|);
        ReachBytes(Abs(), nextIn, take, src, goal);
        got := got + nextIn[..take];
        Consume(take);
      }
      return Ready;
    }

    // DECODE_INTEGER_TYPE, with the partial value kept between calls.
    method DecodeInteger(ghost goal: Stream) returns (status: Status, val: Size)
      requires Reaches(Abs(), nextIn, src, goal) && ReadsInteger(decState, head)
      modifies this`nextIn, this`part
      ensures status == Short ==> nextIn == [] && Reaches(Abs(), nextIn, src, goal)
      ensures status == Bad ==> goal.phase == Rejected && goal.windows == windows
      ensures status == Ready ==>
                && |nextIn| < old(|nextIn|) && part == 0
                && Reaches(Abs().(full := true, head := SetInteger(head, decState, val)), nextIn, src, goal)
    {
      hide Run;
      hide Reaches, ReadsInteger, SetInteger;
      val := 0;
      while nextIn != []
        invariant Reaches(Abs(), nextIn, src, goal) && |nextIn| <= old(|nextIn|)
        decreases |nextIn|
      {
        var next := nextIn[0];
        ReachIntegerByte(Abs(), nextIn, src, goal);
        Consume(1);
        if part >= NO_OVERFLOW {
          return Bad, 0;
        }
        var p := part * 128 + next % 128;
        if next < 128 {
          val := p;
          part := 0;
          return Ready, val;
        }
        part := p;
      }
      return Short, val;
    }

    // ---------- phases ----------

    // BYTE_CASE, SIZE_CASE and OFFSET_CASE: the field of a header phase.
    method ReadField(ghost goal: Stream) returns (status: Status, s: Stream)
      requires Reaches(Abs(), nextIn, src, goal) && decState != Rejected
      requires !ReadsInteger(decState, head) ==> |got| <= Need(decState, head)
      modifies this`nextIn, this`got, this`part
      ensures status == Short ==> nextIn == [] && goal == Abs()
      ensures status == Bad ==> goal.phase == Rejected && goal.windows == windows
      ensures status == Ready ==>
                && Reaches(s, nextIn, src, goal) && !Waiting(s) && |nextIn| <= old(|nextIn|)
                && s.phase == decState && s.windows == windows
                && (|nextIn| == old(|nextIn|) ==> Rank(s) == old(Rank(Abs())))
    {
      s := Abs();
      if ReadsInteger(decState, head) {
        var val;
        status, val := DecodeInteger(goal);
        s := Abs().(full := true, head := SetInteger(head, decState, val));
      } else {
        status := DecodeBytes(Need(decState, head), goal);
        s := Abs();
      }
      if status == Short {
        ReachWaiting(Abs(), src, goal);
      }
    }

    // A phase of the file header or of a window header, with its checks.
    method HeaderPhase(ghost goal: Stream) returns (status: Status)
      requires Reaches(Abs(), nextIn, src, goal) && (InHeader(decState) || InWindowHeader(decState)) && WinbytesRight()
      requires !ReadsInteger(decState, head) ==> |got| <= Need(decState, head)
      modifies this
      ensures windows == old(windows) && WinbytesRight()
      ensures status == Short ==> nextIn == [] && goal == Abs() && decState != Rejected
      ensures status == Bad ==> goal.phase == Rejected && goal.windows == windows
      ensures status == Ready ==> Reaches(Abs(), nextIn, src, goal) && decState != Rejected
      ensures status == Ready ==> Nearer(old(Abs()), old(nextIn), Abs(), nextIn)
    {
      hide CompleteTarget;
      hide Need, ReadsInteger, SetInteger, CompleteHeader, CompleteWindow, Sound, Run, Rank, Waiting;
      var s;
      status, s := ReadField(goal);
      if status != Ready {
        return;
      }
      ReachComplete(s, nextIn, src, goal);
      HeaderNext(s);
      var s' := if InHeader(s.phase) then CompleteHeader(s) else CompleteWindow(s);
      if s'.phase == Rejected {
        ReachRejected(s', nextIn, src, goal);
        return Bad;
      }
      if decState == WinInd {
        currentWindow := windowCount;
      }
      Store(s');
    }

    // xd3_decode_section. Without copying, the section is taken whole from the
    // input, which must hold it.
    method DecodeSection(size: nat, copy: bool, ghost goal: Stream) returns (status: Status)
      requires Reaches(Abs(), nextIn, src, goal) && InSections(decState) && decState != Rejected
      requires |got| <= size == Need(decState, head)
      requires !copy ==> size - |got| <= |nextIn|
      modifies this`nextIn, this`got, this`winbytes
      ensures |got| <= size && winbytes - |got| == old(winbytes - |got|)
      ensures |nextIn| + |got| == old(|nextIn| + |got|)
      ensures status == if |got| == size then Ready else Short
      ensures status == Short ==> nextIn == [] && goal == Abs()
      ensures status == Ready ==> Reaches(Abs(), nextIn, src, goal)
    {
      hide Reaches, Need, Waiting, ReadsInteger, InSections;
      SectionWaits(Abs());
      if |got| < size {
        if nextIn == [] {
          ReachWaiting(Abs(), src, goal);
          return Short;
        }
        var take;
        if !copy && got == [] {
          take := size;
          assert got + nextIn[..take] == nextIn[..take];
        } else {
          take := Min(size - |got|, |nextIn|);
        }
        ReachBytes(Abs(), nextIn, take, src, goal);
        got := if !copy && got == [] then nextIn[..take] else got + nextIn[..take];
        winbytes := winbytes + take;
        Consume(take);
      }
      SectionWaits(Abs());
      if |got| < size {
        ReachWaiting(Abs(), src, goal);
        return Short;
      }
      return Ready;
    }

    // A section that is complete moves on to the next state.
    method FinishSection(ghost goal: Stream)
      requires Reaches(Abs(), nextIn, src, goal) && WinbytesRight() && !SectionsOverflow(head)
      requires decState in {DataSect, InstSect} && |got| == Need(decState, head)
      modifies this`decState, this`got, this`dataSect, this`instSect
      ensures Reaches(Abs(), nextIn, src, goal) && WinbytesRight() && got == []
      ensures decState == if old(decState) == DataSect then InstSect else AddrSect
    {
      hide Reaches, Sound, Complete, CompleteSections, Need, Waiting;
      ghost var s := Abs();
      SectionEnds(s, nextIn, src, goal);
      if decState == DataSect {
        dataSect, decState := got, InstSect;
      } else {
        instSect, decState := got, AddrSect;
      }
      got := [];
    }

    // Reading sections: the bytes still to come are in the input, unless copying.
    ghost predicate Reading(copy: bool, goal: Stream)
      reads this
    {
      && Reaches(Abs(), nextIn, src, goal) && InSections(decState) && WinbytesRight() && !SectionsOverflow(head)
      && |got| <= Need(decState, head)
      && (!copy ==> SectionsBefore(Emitting, head) - winbytes <= |nextIn|)
    }

    // DEC_DATA and DEC_INST.
    method ReadSection(copy: bool, ghost goal: Stream) returns (status: Status)
      requires Reading(copy, goal) && decState in {DataSect, InstSect}
      modifies this`nextIn, this`got, this`winbytes, this`decState, this`dataSect, this`instSect
      ensures |nextIn| <= old(|nextIn|)
      ensures status == Short ==> nextIn == [] && goal == Abs() && WinbytesRight() && decState == old(decState)
      ensures status != Short ==>
                Reading(copy, goal) && decState == if old(decState) == DataSect then InstSect else AddrSect
    {
      hide Abs;
      hide Reaches, Sound;
      status := DecodeSection(if decState == DataSect then head.dataLen else head.instLen, copy, goal);
      if status != Short {
        FinishSection(goal);
      }
    }

    // xd3_decode_sections: the three sections, as far as the input goes.
    method DecodeSections(ghost goal: Stream) returns (status: Status)
      requires Reaches(Abs(), nextIn, src, goal) && InSections(decState) && WinbytesRight()
      requires |got| <= Need(decState, head)
      modifies this
      ensures windows == old(windows) && (status != Bad ==> WinbytesRight())
      ensures status == Short ==> nextIn == [] && goal == Abs() && decState != Rejected
      ensures status == Bad ==> goal.phase == Rejected && goal.windows == windows
      ensures status == Ready ==> Reaches(Abs(), nextIn, src, goal) && decState == Emitting && got == []
      ensures |nextIn| <= old(|nextIn|)
    {
      hide Reaches, Sound, Run, Complete, CompleteSections, Rank, ReadsInteger, Need, SectionsOverflow, SectionsBefore;
      if SectionsOverflow(head) {
        ReachOverflow(Abs(), nextIn, src, goal);
        return Bad;
      }
      BytesToCome(decState, head, |got|, winbytes);
      var need := head.instLen + head.addrLen + head.dataLen;
      var more := need - winbytes;
      var take := Min(more, |nextIn|);
      var copy := take != more;
      status := ReadSections(copy, goal);
    }

    // The cases DEC_DATA, DEC_INST and DEC_ADDR, each falling through to the next.
    method ReadSections(copy: bool, ghost goal: Stream) returns (status: Status)
      requires Reading(copy, goal)
      modifies this`nextIn, this`got, this`winbytes, this`decState, this`dataSect, this`instSect, this`addrSect,
               this`received, this`spaceOut
      ensures |nextIn| <= old(|nextIn|) && WinbytesRight()
      ensures status == Short ==> nextIn == [] && goal == Abs() && decState != Rejected
      ensures status == Bad ==> goal.phase == Rejected && goal.windows == windows
      ensures status == Ready ==> Reaches(Abs(), nextIn, src, goal) && decState == Emitting && got == []
    {
      hide Reaches, Need, WinbytesRight, SectionsOverflow, SectionsBefore;
      if decState == DataSect {
        status := ReadSection(copy, goal);
        if status == Short {
          return;
        }
      }
      if decState == InstSect {
        status := ReadSection(copy, goal);
        if status == Short {
          return;
        }
      }
      status := ReadLastSection(copy, goal);
    }

    // DEC_ADDR.
    method ReadLastSection(copy: bool, ghost goal: Stream) returns (status: Status)
      requires Reading(copy, goal) && decState == AddrSect
      modifies this`nextIn, this`got, this`winbytes, this`decState, this`dataSect, this`instSect, this`addrSect,
               this`received, this`spaceOut
      ensures |nextIn| <= old(|nextIn|) && WinbytesRight()
      ensures status == Short ==> nextIn == [] && goal == Abs() && decState != Rejected
      ensures status == Bad ==> goal.phase == Rejected && goal.windows == windows
      ensures status == Ready ==> Reaches(Abs(), nextIn, src, goal) && decState == Emitting && got == []
    {
      hide Reaches, Sound;
      status := DecodeSection(head.addrLen, copy, goal);
      if status != Short {
        status := SetupBuffers(goal);
      }
    }

    // xd3_decode_secondary_sections.
    method DecodeSecondarySections() returns (ok: bool)
      modifies this`dataSect, this`instSect, this`addrSect, this`received
      ensures var plain := Decompressed(old(Abs()), src);
              if ok then plain == Ok(Abs()) else plain.Fail? && unchanged(this)
    {
      ok := true;
      var plain, seen := (dataSect, instSect, addrSect), received;
      if Set(head.delInd, VCD_DATACOMP) {
        var data := src.decompress(head.secondId, received.data, dataSect);
        if data.Fail? {
          return false;
        }
        plain, seen := (data.value, plain.1, plain.2), seen.(data := received.data + [dataSect]);
      }
      if Set(head.delInd, VCD_INSTCOMP) {
        var inst := src.decompress(head.secondId, received.inst, instSect);
        if inst.Fail? {
          return false;
        }
        plain, seen := (plain.0, inst.value, plain.2), seen.(inst := received.inst + [instSect]);
      }
      if Set(head.delInd, VCD_ADDRCOMP) {
        var addr := src.decompress(head.secondId, received.addr, addrSect);
        if addr.Fail? {
          return false;
        }
        plain, seen := (plain.0, plain.1, addr.value), seen.(addr := received.addr + [addrSect]);
      }
      dataSect, instSect, addrSect := plain.0, plain.1, plain.2;
      received := seen;
    }

    // The end of DEC_ADDR: the secondary sections, then xd3_decode_setup_buffers.
    method SetupBuffers(ghost goal: Stream) returns (status: Status)
      requires Reaches(Abs(), nextIn, src, goal) && decState == AddrSect && WinbytesRight()
      requires |got| == head.addrLen
      modifies this`decState, this`got, this`dataSect, this`instSect, this`addrSect, this`received, this`spaceOut
      ensures WinbytesRight()
      ensures status == Ready || status == Bad
      ensures status == Bad ==> goal.phase == Rejected && goal.windows == windows
      ensures status == Ready ==> Reaches(Abs(), nextIn, src, goal) && decState == Emitting && got == []
    {
      hide Reaches, Sound, Complete, CompleteSections, Need, Waiting, OutputRoom, Decompressed;
      ghost var s := Abs();
      LastSectionEnds(s, nextIn, src, goal);
      addrSect := got;
      assert Abs() == s.(addr := s.got);
      var ok := DecodeSecondarySections();
      if !ok || Set(head.winInd, VCD_TARGET) {
        return Bad;
      }
      spaceOut := OutputRoom(spaceOut, head.tgtlen);
      decState, got := Emitting, [];
      return Ready;
    }

    // DEC_EMIT, then xd3_decode_finish_window.
    method Emit(ghost goal: Stream) returns (status: Status, target: seq<byte>)
      requires Reaches(Abs(), nextIn, src, goal) && decState == Emitting && WinbytesRight()
      modifies this`decState, this`got, this`winbytes, this`windows
      ensures status != Short
      ensures status == Bad ==> goal.phase == Rejected && goal.windows == windows == old(windows)
      ensures status == Ready ==>
                && Reaches(Abs(), nextIn, src, goal) && decState == Finish && WinbytesRight()
                && windows == old(windows) + [target]
    {
      ghost var s := Abs();
      hide Reaches, TargetOf, Run, Sound, Complete, CompleteTarget;
      ReachTarget(s, nextIn, src, goal);
      var result := EmitTarget(Abs(), src);
      if result.Fail? {
        return Bad, [];
      }
      winbytes, decState, got := 0, Finish, [];
      windows := windows + [result.value];
      return Ready, result.value;
    }

    // DEC_FINISH.
    method FinishWindow(ghost goal: Stream)
      requires Reaches(Abs(), nextIn, src, goal) && decState == Finish && WinbytesRight()
      modifies this`decState, this`got, this`dataSect, this`instSect, this`addrSect, this`windowCount
      ensures Reaches(Abs(), nextIn, src, goal) && decState == WinInd && got == [] && WinbytesRight()
    {
      hide Reaches, Sound, CompleteHeader, CompleteWindow, CompleteSections, TargetOf;
      ReachComplete(Abs(), nextIn, src, goal);
      windowCount := windowCount + 1;
      decState, got := WinInd, [];
      dataSect, instSect, addrSect := [], [], [];
    }

    // One case of the switch on dec_state.
    method DecodePhase(ghost goal: Stream) returns (event: Event, target: seq<byte>)
      requires Reaches(Abs(), nextIn, src, goal) && decState != Rejected && WinbytesRight()
      modifies this
      ensures Returns(event, target, old(Abs()), old(nextIn), Abs(), nextIn, src, goal)
      ensures event != Invalid ==> WinbytesRight()
    {
      hide Reaches, WinbytesRight, Run, Sound, Need;
      var status;
      target := [];
      ReachRoom(Abs(), nextIn, src, goal);
      if InHeader(decState) || InWindowHeader(decState) {
        status := HeaderPhase(goal);
        if status == Ready && decState == DataSect {
          event := if currentWindow == 0 then GotHeader else WinStart;
          return;
        }
      } else if InSections(decState) {
        status := DecodeSections(goal);
      } else if decState == Emitting {
        status, target := Emit(goal);
        event := if status == Bad then Invalid else Output;
        return;
      } else {
        FinishWindow(goal);
        return WinFinish, target;
      }
      event := if status == Bad then Invalid else if status == Short then NeedInput else Proceed;
    }

    // xd3_decode_input: run phases until something must be returned. Whatever
    // the input, the decoder is left as the format says.
    method DecodeInput(ghost goal: Stream) returns (event: Event, target: seq<byte>)
      requires Reaches(Abs(), nextIn, src, goal) && decState != Rejected && WinbytesRight()
      modifies this
      ensures event != Proceed && Returns(event, target, old(Abs()), old(nextIn), Abs(), nextIn, src, goal)
      ensures event != Invalid ==> WinbytesRight()
    {
      hide Reaches, WinbytesRight, Run, Sound, Need;
      while true
        invariant Reaches(Abs(), nextIn, src, goal) && decState != Rejected && WinbytesRight()
        invariant windows == old(windows)
        invariant (nextIn == old(nextIn) && Abs() == old(Abs())) || Nearer(old(Abs()), old(nextIn), Abs(), nextIn)
        decreases |nextIn|, Rank(Abs())
      {
        event, target := DecodePhase(goal);
        if event != Proceed {
          return;
        }
      }
    }
  }

  // Run the instructions and check the checksum.
  method EmitTarget(s: Stream, src: Source) returns (r: Result<seq<byte>>)
    requires Sound(s) && s.phase == Emitting && src.Valid()
    ensures r == TargetOf(s, src)
  {
    hide DecodeWindow, Adler.Adler32, Sound;
    if Set(s.head.winInd, VCD_SOURCE) && !src.given {
      return Fail;
    }
    var decoder := new WindowDecoder.Decoder(WindowOf(s, src), Sections(s.inst, s.addr, s.data));
    r := decoder.DecodeEmit();
    if r.Ok? && Set(s.head.winInd, VCD_ADLER32) {
      var a32 := Adler.WindowChecksum(r.value);
      if a32 != s.head.adler32 {
        r := Fail;
      }
    }
  }

  // A section that is not complete waits for a byte.
  lemma SectionWaits(s: Stream)
    requires InSections(s.phase)
    ensures !ReadsInteger(s.phase, s.head) && (|s.got| < Need(s.phase, s.head) ==> Waiting(s))
  {
  }

  // The section bytes still to come.
  lemma BytesToCome(phase: Phase, h: Head, n: nat, winbytes: nat)
    requires InSections(phase) && !SectionsOverflow(h) && n <= Need(phase, h) && winbytes == n + SectionsBefore(phase, h)
    ensures winbytes <= h.instLen + h.addrLen + h.dataLen == SectionsBefore(Emitting, h)
  {
  }

  function SectionsBefore(phase: Phase, h: Head): nat {
    if phase == InstSect then h.dataLen
    else if phase == AddrSect then h.dataLen + h.instLen
    else if phase == Emitting then h.dataLen + h.instLen + h.addrLen
    else 0
  }

  lemma SectionEnds(s: Stream, input: seq<byte>, src: Source, goal: Stream)
    requires Reaches(s, input, src, goal) && s.phase in {DataSect, InstSect} && !SectionsOverflow(s.head)
    requires |s.got| == Need(s.phase, s.head)
    ensures |s.got| == if s.phase == DataSect then s.head.dataLen else s.head.instLen
    ensures Reaches(if s.phase == DataSect then Next(s, InstSect).(data := s.got) else Next(s, AddrSect).(inst := s.got),
                    input, src, goal)
  {
    hide Reaches, Sound, CompleteHeader, CompleteWindow, CompleteTarget, OutputRoom, Decompressed;
    ReachComplete(s, input, src, goal);
  }

  lemma LastSectionEnds(s: Stream, input: seq<byte>, src: Source, goal: Stream)
    requires Reaches(s, input, src, goal) && s.phase == AddrSect && |s.got| == s.head.addrLen
    ensures var plain := Decompressed(s.(addr := s.got), src);
            if plain.Fail? || Set(s.head.winInd, VCD_TARGET) then goal.phase == Rejected && goal.windows == s.windows
            else Reaches(Next(plain.value, Emitting).(spaceOut := OutputRoom(s.spaceOut, s.head.tgtlen)), input, src, goal)
  {
    hide Reaches, Sound, CompleteHeader, CompleteWindow, CompleteTarget, OutputRoom, Decompressed;
    ReachComplete(s, input, src, goal);
    var plain := Decompressed(s.(addr := s.got), src);
    if plain.Fail? || Set(s.head.winInd, VCD_TARGET) {
      ReachRejected(Reject(s), input, src, goal);
    }
  }

  // A header phase ends in another, or in the first section with nothing taken.
  lemma HeaderNext(s: Stream)
    requires !Waiting(s) && Sound(s) && (InHeader(s.phase) || InWindowHeader(s.phase))
    ensures var s' := if InHeader(s.phase) then CompleteHeader(s) else CompleteWindow(s);
            && s'.windows == s.windows && s'.phase !in {InstSect, AddrSect, Emitting}
            && (s'.phase != Rejected ==> s'.got == [] && !s'.full && Rank(s') < Rank(s))
  {
    hide EnclenCheck, DecodeWindow;
    if InHeader(s.phase) {
      HeaderAdvances(s);
    } else {
      WindowAdvances(s);
    }
  }

  // The switch of xd3_process_stream on the piece of input at hand: windows are
  // appended to the output until more input is required.
  method ProcessPiece(stream: Decoder, output0: seq<byte>, outputSizeMax: nat, ghost goal: Stream)
    returns (ok: bool, output: seq<byte>)
    requires Reaches(stream.Abs(), stream.nextIn, stream.src, goal)
    requires stream.decState != Rejected && stream.WinbytesRight()
    requires output0 == Flatten(stream.windows) && |output0| <= outputSizeMax
    modifies stream
    ensures !ok ==> goal.phase == Rejected || |Flatten(goal.windows)| > outputSizeMax
    ensures ok ==>
              && stream.Abs() == goal && stream.decState != Rejected && stream.WinbytesRight()
              && output == Flatten(goal.windows) && |output| <= outputSizeMax
  {
    hide Reaches, Decoder.WinbytesRight, Run, Sound, Flatten;
    output := output0;
    while true
      invariant Reaches(stream.Abs(), stream.nextIn, stream.src, goal)
      invariant stream.decState != Rejected && stream.WinbytesRight()
      invariant output == Flatten(stream.windows) && |output| <= outputSizeMax
      decreases |stream.nextIn|, Rank(stream.Abs())
    {
      ghost var before := stream.windows;
      var event, target := stream.DecodeInput(goal);
      if event == Output {
        FlattenSnoc(before, target);
        if |output| + |target| > outputSizeMax {
          NoRoom(stream.Abs(), stream.nextIn, stream.src, goal);
          return false, output;
        }
        output := output + target;
      } else if event == NeedInput {
        return true, output;
      } else if event == Invalid {
        return false, output;
      }
    }
  }

  // xd3_process_stream for a decoder: the input is supplied in pieces of winsize
  // bytes, and the size of the pieces does not matter.
  method DecodeStream(input: seq<byte>, winsize: nat, src: Source, outputSizeMax: nat) returns (r: Result<seq<byte>>)
    requires winsize > 0 && src.Valid()
    ensures r == DecodeFile(input, src, outputSizeMax)
  {
    hide Reaches, Decoder.WinbytesRight, Run, Rank, Sound, Flatten, DecodeFile;
    ghost var total := FileRun(input, src, outputSizeMax);
    var stream := new Decoder(src);
    var ipos := 0;
    var output := [];
    while true
      invariant stream.src == src && stream.decState != Rejected && stream.WinbytesRight()
      invariant ipos <= |input| && output == Flatten(stream.windows) && |output| <= outputSizeMax
      invariant Reaches(stream.Abs(), input[ipos..], src, total)
      decreases |input| - ipos
    {
      var n := Min(winsize, |input| - ipos);
      ghost var goal := NextPiece(stream.Abs(), input, ipos, n, src, total);
      stream.nextIn := input[ipos..ipos + n];
      var ok;
      ok, output := ProcessPiece(stream, output, outputSizeMax, goal);
      if !ok {
        return Fail;
      }
      ipos := ipos + n;
      if ipos == |input| {
        assert input[ipos..] == [];
        ReachEnd(stream.Abs(), src, total);
        return if stream.decState in {VcHead, WinInd} then Ok(output) else Fail;
      }
    }
  }

  lemma FileRun(input: seq<byte>, src: Source, spaceMax: nat) returns (total: Stream)
    requires src.Valid()
    ensures Reaches(Init(), input[0..], src, total) && Flatten([]) == []
    ensures DecodeFile(input, src, spaceMax) ==
            if total.phase in {VcHead, WinInd} && |Flatten(total.windows)| <= spaceMax then Ok(Flatten(total.windows)) else Fail
  {
    assert input == input[0..];
    total := Run(Init(), input, src);
  }

  lemma NextPiece(s: Stream, input: seq<byte>, ipos: nat, n: nat, src: Source, total: Stream) returns (goal: Stream)
    requires ipos + n <= |input| && Reaches(s, input[ipos..], src, total)
    ensures Reaches(s, input[ipos..ipos + n], src, goal) && Reaches(goal, input[ipos + n..], src, total)
    ensures goal.phase == Rejected ==> total == goal
    ensures Reaches(goal, [], src, goal) && |Flatten(goal.windows)| <= |Flatten(total.windows)|
  {
    assert input[ipos..] == input[ipos..ipos + n] + input[ipos + n..];
    goal := ReachPiece(s, input[ipos..ipos + n], input[ipos + n..], src, total);
    NoRoom(goal, input[ipos + n..], src, total);
  }

  // At the end of the input the decoder is where it is.
  lemma ReachEnd(s: Stream, src: Source, total: Stream)
    requires Reaches(s, [], src, s) && Reaches(s, [], src, total)
    ensures total == s
  {
  }

  // Output that does not fit now never will.
  lemma NoRoom(s: Stream, input: seq<byte>, src: Source, total: Stream)
    requires Reaches(s, input, src, total)
    ensures |Flatten(s.windows)| <= |Flatten(total.windows)|
  {
    ReachExtends(s, input, src, total);
    FlattenGrows(s.windows, total.windows);
  }
}
