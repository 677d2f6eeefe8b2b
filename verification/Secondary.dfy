// Secondary compression of a run of sections with the adaptive Huffman coder
// (xdelta3-second.h): which sections are sent coded, and when encoder and decoder stay
// in step.
module Secondary {

  import opened Bytes
  import opened Integers
  import opened BitLayer
  import opened Fgk
  import opened FgkUpdate
  import opened FgkCoder
  import opened FgkBits
  import opened FgkLockstep
  import DjwGroups
  import DjwSection
  import FgkStream

  const SECONDARY_MIN_INPUT: nat := 10
  const SECONDARY_MIN_SAVINGS: nat := 2

  // A section in the file: as it is, or its size and its code.
  datatype Sent = Plain(bytes: seq<byte>) | Packed(bytes: seq<byte>)

  // ---------- xd3_encode_secondary ----------

  // What the coder makes of a section: comp_size bytes.
  ghost function Compressed(t: Tree, data: seq<byte>): seq<byte>
    requires Proper(t)
  {
    Encoded(|data|) + Pack(SectionCode(t, data))
  }

  // The section goes through the coder, but the result is thrown away.
  ghost predicate Discards(t: Tree, data: seq<byte>, inefficient: bool)
    requires Proper(t)
  {
    |data| >= SECONDARY_MIN_INPUT && !inefficient && |Compressed(t, data)| >= |data| - SECONDARY_MIN_SAVINGS
  }

  ghost function EncoderAfter(t: Tree, data: seq<byte>): (t': Tree)
    requires Proper(t)
    ensures Proper(t')
  {
    if |data| < SECONDARY_MIN_INPUT then t else AfterAll(t, data)
  }

  ghost function Send(t: Tree, data: seq<byte>, inefficient: bool): Sent
    requires Proper(t)
  {
    if |data| < SECONDARY_MIN_INPUT || Discards(t, data, inefficient) then Plain(data) else Packed(Compressed(t, data))
  }

  method EncodeSecondary(coder: FgkStream.Coder, data: seq<byte>, inefficient: bool) returns (sent: Sent)
    requires coder.Ready() && |data| < U64
    modifies coder, coder.codedBits
    ensures coder.Ready() && Proper(old(coder.tree))
    ensures coder.tree == EncoderAfter(old(coder.tree), data) && sent == Send(old(coder.tree), data, inefficient)
  {
    hide Proper, AfterAll, SectionCode, Pack, Encoded;
    var origSize := |data|;
    if origSize < SECONDARY_MIN_INPUT {
      return Plain(data);
    }
    var size := EmitInteger(origSize);
    var code := coder.EncodeSection(data);
    var compSize := |size| + |code|;
    if compSize < origSize - SECONDARY_MIN_SAVINGS || inefficient {
      sent := Packed(size + code);
    } else {
      sent := Plain(data);
    }
  }

  // ---------- xd3_decode_secondary ----------

  datatype Received = Received(data: seq<byte>, tree: Tree)

  // A section as the decoder restores it, with the tree it is left with.
  ghost function Receive(t: Tree, sent: Sent): (r: Result<Received>)
    requires Proper(t)
  {
    match sent
    case Plain(bytes) => Ok(Received(bytes, t))
    case Packed(bytes) =>
      var size := ReadInt(bytes);
      if size.Fail? || size.value.0 == 0 then Fail
      else
        StartAt(t);
        var code := bytes[size.value.1..];
        var d := Decode(t, Start(t), Unpack(code), size.value.0);
        if d.Ok? && (d.value.used + 7) / 8 == |code| then Ok(Received(d.value.data, d.value.tree)) else Fail
  }

  method DecodeSecondary(coder: FgkStream.Coder, sent: Sent) returns (r: Result<seq<byte>>)
    requires coder.Ready()
    modifies coder, coder.codedBits
    ensures Proper(old(coder.tree))
    ensures var x := Receive(old(coder.tree), sent);
            if x.Ok? then r == Ok(x.value.data) && coder.Ready() && coder.tree == x.value.tree else r.Fail?
  {
    hide Proper, Decode, Unpack, ReadInt;
    match sent {
      case Plain(bytes) =>
        r := Ok(bytes);
      case Packed(bytes) =>
        assert bytes[0..] == bytes;
        var size, tooLarge := ReadInteger(bytes, 0);
        if size.Fail? || size.value.0 == 0 {
          return Fail;
        }
        var code := bytes[size.value.1..];
        var pos;
        r, pos := coder.DecodeSection(code, size.value.0);
        if r.Ok? && pos != |code| {
          r := Fail;
        }
    }
  }

  // A coded section of the decoder's own tree is restored, and trees agree after it.
  lemma ReceivesCoded(t: Tree, data: seq<byte>)
    requires Proper(t) && data != [] && |data| < U64
    ensures Receive(t, Packed(Compressed(t, data))) == Ok(Received(data, AfterAll(t, data)))
  {
    hide Proper, Decode, AfterAll, Encoded, ReadInt, Unpack, SectionCode, Encodes, Pack;
    var bits := SectionCode(t, data);
    EncodesOnce(t, data, bits);
    StartAt(t);
    Unpacked(bits);
    Lockstep(t, data, bits, Zeros(8 * |Pack(bits)| - |bits|));
    ReadEncoded(|data|, Pack(bits));
    assert Compressed(t, data)[|Encoded(|data|)|..] == Pack(bits);
  }

  // ---------- a run of sections ----------

  // Both trees after the run, and the sections as restored.
  datatype Outcome = Outcome(encoder: Tree, decoder: Tree, decoded: seq<seq<byte>>)

  ghost function RunSections(te: Tree, td: Tree, sections: seq<seq<byte>>, inefficient: bool): Result<Outcome>
    requires Proper(te) && Proper(td)
    decreases |sections|
  {
    if sections == [] then Ok(Outcome(te, td, []))
    else
      var got := Receive(td, Send(te, sections[0], inefficient));
      if got.Fail? then Fail
      else
        ReceivedProper(td, Send(te, sections[0], inefficient));
        var rest := RunSections(EncoderAfter(te, sections[0]), got.value.tree, sections[1..], inefficient);
        if rest.Fail? then Fail
        else Ok(Outcome(rest.value.encoder, rest.value.decoder, [got.value.data] + rest.value.decoded))
  }

  // The decoder's tree counts the symbols of a coded section, and no others.
  lemma ReceivedProper(t: Tree, sent: Sent)
    requires Proper(t)
    ensures t.Sized()
    ensures var r := Receive(t, sent);
            r.Ok? ==>
              && Proper(r.value.tree) && r.value.tree.Sized()
              && LeafTotal(r.value.tree, N)
                 == LeafTotal(t, N) + if sent.Plain? then 0 else ReadInt(sent.bytes).value.0
  {
    hide Proper, Decode, AfterAll, ReadInt, Unpack, LeafTotal;
    ProperSized(t);
    if sent.Packed? {
      var size := ReadInt(sent.bytes);
      if size.Ok? {
        StartAt(t);
        DecodedTree(t, Start(t), Unpack(sent.bytes[size.value.1..]), size.value.0);
        var d := Decode(t, Start(t), Unpack(sent.bytes[size.value.1..]), size.value.0);
        if d.Ok? {
          SectionTotal(t, d.value.data);
        }
      }
    }
  }

  // Some section of the run is thrown away.
  ghost predicate AnyDiscarded(t: Tree, sections: seq<seq<byte>>, inefficient: bool)
    requires Proper(t)
    decreases |sections|
  {
    sections != [] &&
    (Discards(t, sections[0], inefficient) || AnyDiscarded(EncoderAfter(t, sections[0]), sections[1..], inefficient))
  }

  ghost predicate Sizes(sections: seq<seq<byte>>) {
    forall i :: 0 <= i < |sections| ==> |sections[i]| < U64
  }

  // What a section sent adds to each tree's count.
  lemma SendTotals(te: Tree, td: Tree, data: seq<byte>, inefficient: bool)
    requires Proper(te) && Proper(td) && |data| < U64
    ensures te.Sized() && td.Sized() && EncoderAfter(te, data).Sized()
    ensures LeafTotal(EncoderAfter(te, data), N) == LeafTotal(te, N) + if |data| < SECONDARY_MIN_INPUT then 0 else |data|
    ensures var r := Receive(td, Send(te, data, inefficient));
            r.Ok? ==>
              && Proper(r.value.tree) && r.value.tree.Sized()
              && LeafTotal(r.value.tree, N)
                 == LeafTotal(td, N)
                    + if |data| < SECONDARY_MIN_INPUT || Discards(te, data, inefficient) then 0 else |data|
  {
    hide Proper, AfterAll, LeafTotal, Receive, Encoded, ReadInt, SectionCode, Pack;
    ProperSized(te);
    SectionTotal(te, data);
    ReceivedProper(td, Send(te, data, inefficient));
    ReadEncoded(|data|, Pack(SectionCode(te, data)));
  }

  // The encoder's count is ahead of the decoder's by the sections thrown away.
  lemma {:induction false} RunTotals(te: Tree, td: Tree, sections: seq<seq<byte>>, inefficient: bool)
    requires Proper(te) && Proper(td) && Sizes(sections)
    ensures te.Sized() && td.Sized()
    ensures var r := RunSections(te, td, sections, inefficient);
            r.Ok? ==>
              && r.value.encoder.Sized() && r.value.decoder.Sized()
              && LeafTotal(r.value.encoder, N) - LeafTotal(r.value.decoder, N) >= LeafTotal(te, N) - LeafTotal(td, N)
              && (AnyDiscarded(te, sections, inefficient) ==>
                    LeafTotal(r.value.encoder, N) - LeafTotal(r.value.decoder, N) > LeafTotal(te, N) - LeafTotal(td, N))
    decreases |sections|
  {
    hide Proper, LeafTotal, Receive, Send, EncoderAfter, Compressed;
    ProperSized(te);
    ProperSized(td);
    if sections != [] {
      SendTotals(te, td, sections[0], inefficient);
      var got := Receive(td, Send(te, sections[0], inefficient));
      if got.Ok? {
        RunTotals(EncoderAfter(te, sections[0]), got.value.tree, sections[1..], inefficient);
      }
    }
  }

  // One section in step.
  lemma InStep(t: Tree, data: seq<byte>, inefficient: bool)
    requires Proper(t) && |data| < U64 && !Discards(t, data, inefficient)
    ensures Receive(t, Send(t, data, inefficient)) == Ok(Received(data, EncoderAfter(t, data)))
  {
    hide Proper, AfterAll, Compressed;
    if |data| >= SECONDARY_MIN_INPUT {
      ReceivesCoded(t, data);
    }
  }

  // Until a section is thrown away every section is restored, that one too, and the
  // trees agree.
  lemma {:induction false} RunInStep(t: Tree, sections: seq<seq<byte>>, inefficient: bool)
    requires Proper(t) && Sizes(sections) && !AnyDiscarded(t, sections, inefficient)
    ensures var r := RunSections(t, t, sections, inefficient);
            r.Ok? && r.value.encoder == r.value.decoder && r.value.decoded == sections
    decreases |sections|
  {
    hide Proper, Receive, Send, EncoderAfter, Discards;
    if sections != [] {
      InStep(t, sections[0], inefficient);
      RunInStep(EncoderAfter(t, sections[0]), sections[1..], inefficient);
    }
  }

  // From equal trees a run that the decoder gets through ends with equal trees exactly
  // if no section was thrown away.
  lemma InStepExactly(t: Tree, sections: seq<seq<byte>>, inefficient: bool)
    requires Proper(t) && Sizes(sections) && RunSections(t, t, sections, inefficient).Ok?
    ensures var r := RunSections(t, t, sections, inefficient).value;
            r.encoder == r.decoder <==> !AnyDiscarded(t, sections, inefficient)
  {
    RunTotals(t, t, sections, inefficient);
    if !AnyDiscarded(t, sections, inefficient) {
      RunInStep(t, sections, inefficient);
    }
    hide Proper, RunSections, AnyDiscarded, LeafTotal;
  }

  // ---------- the decompressor of a stream ----------

  // The encoder's tree after sections of one kind.
  ghost function EncoderTree(sections: seq<seq<byte>>): (t: Tree)
    ensures Proper(t)
  {
    if sections == [] then
      InitialProper();
      Initial()
    else EncoderAfter(EncoderTree(sections[..|sections| - 1]), sections[|sections| - 1])
  }

  // Those of them that are sent coded, as they are sent.
  ghost function CodedSections(sections: seq<seq<byte>>, inefficient: bool): seq<seq<byte>> {
    if sections == [] then []
    else
      var n := |sections| - 1;
      var sent := Send(EncoderTree(sections[..n]), sections[n], inefficient);
      CodedSections(sections[..n], inefficient) + if sent.Packed? then [sent.bytes] else []
  }

  // The decoder's tree when it has had some coded sections.
  ghost function DecoderTree(seen: seq<seq<byte>>): (t: Result<Tree>)
    ensures t.Ok? ==> Proper(t.value)
  {
    if seen == [] then
      InitialProper();
      Ok(Initial())
    else
      var t :- DecoderTree(seen[..|seen| - 1]);
      ReceivedProper(t, Packed(seen[|seen| - 1]));
      var got :- Receive(t, Packed(seen[|seen| - 1]));
      Ok(got.tree)
  }

  // The adaptive decoder as the decompressor of a stream.
  ghost function FgkDecompress(seen: seq<seq<byte>>, coded: seq<byte>): Result<seq<byte>> {
    var t :- DecoderTree(seen);
    var got :- Receive(t, Packed(coded));
    Ok(got.data)
  }

  // No section is thrown away.
  ghost predicate NoneDiscarded(sections: seq<seq<byte>>, inefficient: bool) {
    forall n :: 0 <= n < |sections| ==> !Discards(EncoderTree(sections[..n]), sections[n], inefficient)
  }

  // One more coded section.
  lemma DecoderMore(seen: seq<seq<byte>>, coded: seq<byte>)
    ensures var t := DecoderTree(seen);
            DecoderTree(seen + [coded]) == if t.Fail? then Fail
                                           else var got := Receive(t.value, Packed(coded));
                                                if got.Fail? then Fail else Ok(got.value.tree)
  {
    hide Tree.Sized, Proper, Receive;
    assert (seen + [coded])[..|seen|] == seen;
  }

  lemma {:induction false} TreesAgree(sections: seq<seq<byte>>, inefficient: bool)
    requires Sizes(sections) && NoneDiscarded(sections, inefficient)
    ensures DecoderTree(CodedSections(sections, inefficient)) == Ok(EncoderTree(sections))
  {
    hide Tree.Sized, Proper, Receive, AfterAll, Compressed, Discards, Initial;
    if sections != [] {
      var n := |sections| - 1;
      var seen := CodedSections(sections[..n], inefficient);
      assert forall k :: 0 <= k < n ==> sections[..n][..k] == sections[..k];
      TreesAgree(sections[..n], inefficient);
      InStep(EncoderTree(sections[..n]), sections[n], inefficient);
      var sent := Send(EncoderTree(sections[..n]), sections[n], inefficient);
      if sent.Packed? {
        DecoderMore(seen, sent.bytes);
      } else {
        assert seen + [] == seen;
      }
    }
  }

  // Given the coded sections before it, the decompressor restores each coded section.
  lemma FgkRestores(sections: seq<seq<byte>>, data: seq<byte>, inefficient: bool)
    requires Sizes(sections) && NoneDiscarded(sections, inefficient) && |data| < U64
    requires Send(EncoderTree(sections), data, inefficient).Packed?
    ensures FgkDecompress(CodedSections(sections, inefficient), Send(EncoderTree(sections), data, inefficient).bytes) == Ok(data)
  {
    hide Proper, Receive, AfterAll, Compressed, DecoderTree;
    TreesAgree(sections, inefficient);
    ReceivesCoded(EncoderTree(sections), data);
  }

  // ---------- one kind of section ----------

  // Encoder and decoder of one kind of section, over all the windows of a stream.
  method CodeSections(sections: seq<seq<byte>>, inefficient: bool) returns (r: Result<seq<seq<byte>>>, ghost inStep: bool)
    requires Sizes(sections)
    ensures Proper(Initial())
    ensures var x := RunSections(Initial(), Initial(), sections, inefficient);
            if x.Ok? then r == Ok(x.value.decoded) && inStep == (x.value.encoder == x.value.decoder) else r.Fail?
    ensures r.Ok? ==> (inStep <==> !AnyDiscarded(Initial(), sections, inefficient))
    ensures !AnyDiscarded(Initial(), sections, inefficient) ==> r == Ok(sections)
  {
    InitialProper();
    hide *;
    var encoder := new FgkStream.Coder();
    var decoder := new FgkStream.Coder();
    var decoded: seq<seq<byte>> := [];
    inStep := true;
    RunStart(sections, inefficient);
    var i: nat := 0;
    while i < |sections|
      invariant i <= |sections| && encoder.Ready() && decoder.Ready()
      invariant fresh(encoder) && fresh(decoder) && fresh(encoder.codedBits) && fresh(decoder.codedBits)
      invariant encoder != decoder && encoder.codedBits != decoder.codedBits
      invariant RunSoFar(sections, inefficient, i, encoder.tree, decoder.tree, decoded)
    {
      RunNext(sections, inefficient, i, encoder.tree, decoder.tree, decoded);
      var sent := EncodeSecondary(encoder, sections[i], inefficient);
      var got := DecodeSecondary(decoder, sent);
      if got.Fail? {
        RunFails(sections, inefficient);
        return Fail, false;
      }
      decoded := decoded + [got.value];
      i := i + 1;
    }
    RunEnds(sections, inefficient, encoder.tree, decoder.tree, decoded);
    r, inStep := Ok(decoded), encoder.tree == decoder.tree;
  }

  // What has been coded, and the run of the other sections from the trees there are.
  ghost predicate RunSoFar(sections: seq<seq<byte>>, inefficient: bool, i: nat, te: Tree, td: Tree, decoded: seq<seq<byte>>) {
    && i <= |sections| && Sizes(sections) && Proper(te) && Proper(td) && Proper(Initial())
    && var rest := RunSections(te, td, sections[i..], inefficient);
       RunSections(Initial(), Initial(), sections, inefficient)
       == if rest.Ok? then Ok(Outcome(rest.value.encoder, rest.value.decoder, decoded + rest.value.decoded)) else Fail
  }

  lemma RunStart(sections: seq<seq<byte>>, inefficient: bool)
    requires Sizes(sections) && Proper(Initial())
    ensures RunSoFar(sections, inefficient, 0, Initial(), Initial(), [])
  {
    hide RunSections, Proper, Initial;
    assert sections[0..] == sections;
    var rest := RunSections(Initial(), Initial(), sections, inefficient);
    if rest.Ok? {
      assert [] + rest.value.decoded == rest.value.decoded;
    }
  }

  lemma RunNext(sections: seq<seq<byte>>, inefficient: bool, i: nat, te: Tree, td: Tree, decoded: seq<seq<byte>>)
    requires RunSoFar(sections, inefficient, i, te, td, decoded) && i < |sections|
    ensures |sections[i]| < U64 && Proper(te) && Proper(td) && Proper(Initial())
    ensures var got := Receive(td, Send(te, sections[i], inefficient));
            if got.Fail? then RunSections(Initial(), Initial(), sections, inefficient).Fail?
            else RunSoFar(sections, inefficient, i + 1, EncoderAfter(te, sections[i]), got.value.tree, decoded + [got.value.data])
  {
    hide Proper, Receive, Send, EncoderAfter, Initial;
    assert sections[i..][0] == sections[i] && sections[i..][1..] == sections[i + 1..];
    var got := Receive(td, Send(te, sections[i], inefficient));
    if got.Ok? {
      ReceivedProper(td, Send(te, sections[i], inefficient));
      var rest := RunSections(EncoderAfter(te, sections[i]), got.value.tree, sections[i + 1..], inefficient);
      if rest.Ok? {
        assert decoded + ([got.value.data] + rest.value.decoded) == decoded + [got.value.data] + rest.value.decoded;
      }
    }
  }

  lemma RunFails(sections: seq<seq<byte>>, inefficient: bool)
    requires Sizes(sections) && Proper(Initial()) && RunSections(Initial(), Initial(), sections, inefficient).Fail?
    ensures AnyDiscarded(Initial(), sections, inefficient)
  {
    hide Proper, RunSections, AnyDiscarded, Initial;
    if !AnyDiscarded(Initial(), sections, inefficient) {
      RunInStep(Initial(), sections, inefficient);
    }
  }

  lemma RunEnds(sections: seq<seq<byte>>, inefficient: bool, te: Tree, td: Tree, decoded: seq<seq<byte>>)
    requires RunSoFar(sections, inefficient, |sections|, te, td, decoded) && Proper(Initial())
    ensures RunSections(Initial(), Initial(), sections, inefficient) == Ok(Outcome(te, td, decoded))
    ensures te == td <==> !AnyDiscarded(Initial(), sections, inefficient)
    ensures !AnyDiscarded(Initial(), sections, inefficient) ==> decoded == sections
  {
    hide Proper, AnyDiscarded, Initial;
    assert sections[|sections|..] == [];
    assert decoded + [] == decoded;
    InStepExactly(Initial(), sections, inefficient);
    if !AnyDiscarded(Initial(), sections, inefficient) {
      RunInStep(Initial(), sections, inefficient);
    }
  }

  // ---------- the static coder, which keeps nothing between sections ----------

  // A section as sent: plain if it is short or its code saves too little, else its
  // size and the code.
  ghost predicate SentDjw(sent: Sent, data: seq<byte>, cfg: DjwSection.SecCfg, s: DjwSection.Section) {
    match sent
    case Plain(bytes) => bytes == data && (|data| < SECONDARY_MIN_INPUT || !cfg.inefficient)
    case Packed(bytes) =>
      && |data| >= SECONDARY_MIN_INPUT && DjwSection.SectionOk(s) && s.data == data
      && bytes == Encoded(|data|) + Pack(DjwSection.SectionBits(s))
      && (|bytes| < |data| - SECONDARY_MIN_SAVINGS || cfg.inefficient)
      && (DjwSection.Safe(cfg, data) ==> DjwGroups.ZerosAgree(s.clens))
  }

  // xd3_encode_secondary with the static coder. It fails only if it is configured wrongly.
  method EncodeSecondaryDjw(data: seq<byte>, cfg: DjwSection.SecCfg) returns (r: Result<Sent>, ghost s: DjwSection.Section)
    requires |data| < U64
    ensures r.Ok? ==> SentDjw(r.value, data, cfg, s)
    ensures |data| >= SECONDARY_MIN_INPUT ==> (r.Fail? <==> DjwSection.HowManyGroups(cfg, |data|).Fail?)
    ensures |data| < SECONDARY_MIN_INPUT ==> r.Ok?
  {
    hide DjwSection.EncodedAs, DjwSection.SectionOk, DjwSection.SectionBits, DjwSection.HowManyGroups, DjwSection.Heavy, Encoded, Pack;
    s := DjwSection.Section([], [], 0, 0, [], [], []);
    var origSize := |data|;
    if origSize < SECONDARY_MIN_INPUT {
      return Ok(Plain(data)), s;
    }
    if DjwSection.HowManyGroups(cfg, origSize).Fail? {
      return Fail, s;
    }
    var size := EmitInteger(origSize);
    var code;
    code, s := DjwSection.EncodeHuff(data, cfg, |size|);
    DjwSection.EncodedFacts(data, cfg.inefficient, |size|, code, s);
    if code.Fail? {
      return Ok(Plain(data)), s;
    }
    var compSize := |size| + |code.value|;
    if compSize < origSize - SECONDARY_MIN_SAVINGS || cfg.inefficient {
      r := Ok(Packed(size + code.value));
    } else {
      r := Ok(Plain(data));
    }
  }

  // xd3_decode_secondary with the static coder.
  method DecodeSecondaryDjw(sent: Sent, ghost data: seq<byte>, ghost cfg: DjwSection.SecCfg, ghost s: DjwSection.Section)
    returns (r: Result<seq<byte>>)
    requires |data| < U64
    ensures SentDjw(sent, data, cfg, s) && (sent.Packed? ==> DjwGroups.ZerosAgree(s.clens)) ==> r == Ok(data)
  {
    hide DjwSection.SectionOk, DjwSection.SectionBits, DjwSection.Begins, DjwGroups.ZerosAgree, Encoded, Pack, Unpack, ReadInt;
    match sent {
      case Plain(bytes) =>
        r := Ok(bytes);
      case Packed(bytes) =>
        assert bytes[0..] == bytes;
        if SentDjw(sent, data, cfg, s) {
          var packed := Pack(DjwSection.SectionBits(s));
          ReadEncoded(|data|, packed);
          DjwSection.BeginsPacked(s);
          assert bytes[|Encoded(|data|)|..] == packed;
        }
        var size, tooLarge := ReadInteger(bytes, 0);
        if size.Fail? || size.value.0 == 0 {
          return Fail;
        }
        var code := bytes[size.value.1..];
        var pos;
        r, pos := DjwSection.DecodeHuff(code, size.value.0, s);
        if r.Ok? && pos != |code| {
          r := Fail;
        }
    }
  }

  // Whatever is thrown away, every section is restored if all are safe.
  method CodeSectionsDjw(sections: seq<seq<byte>>, cfg: DjwSection.SecCfg) returns (r: Result<seq<seq<byte>>>)
    requires Sizes(sections)
    ensures (forall i :: 0 <= i < |sections| ==> DjwSection.Safe(cfg, sections[i])) ==> r == Ok(sections)
  {
    hide SentDjw, DjwSection.Safe, DjwGroups.ZerosAgree;
    var decoded: seq<seq<byte>> := [];
    for i := 0 to |sections|
      invariant (forall i :: 0 <= i < |sections| ==> DjwSection.Safe(cfg, sections[i])) ==> decoded == sections[..i]
    {
      var sent;
      ghost var s;
      sent, s := EncodeSecondaryDjw(sections[i], cfg);
      DjwSection.SafeFacts(cfg, sections[i]);
      if sent.Fail? {
        return Fail;
      }
      SentFacts(sent.value, sections[i], cfg, s);
      var got := DecodeSecondaryDjw(sent.value, sections[i], cfg, s);
      if got.Fail? {
        return Fail;
      }
      decoded := decoded + [got.value];
    }
    assert sections[..|sections|] == sections;
    r := Ok(decoded);
  }

  lemma SentFacts(sent: Sent, data: seq<byte>, cfg: DjwSection.SecCfg, s: DjwSection.Section)
    requires SentDjw(sent, data, cfg, s)
    ensures sent.Packed? && DjwSection.Safe(cfg, data) ==> DjwGroups.ZerosAgree(s.clens)
  {
    hide DjwSection.Safe, DjwGroups.ZerosAgree, DjwSection.SectionOk, DjwSection.SectionBits;
  }

  // ---------- a section thrown away, and one then restored wrongly ----------

  // Five symbols, and the first five times more.
  const FIRST: seq<byte> := [0, 1, 2, 3, 4, 0, 0, 0, 0, 0]

  // Symbols from k on have not been seen.
  ghost predicate UnseenFrom(t: Tree, k: nat) {
    t.Sized() && forall u :: k <= u < N ==> t.weight[u] == 0
  }

  // So many zeros there are at least.
  lemma ZerosLeft(t: Tree, k: nat)
    requires Proper(t) && UnseenFrom(t, k) && k < N
    ensures N - k <= t.zeroCount <= N
  {
    hide Proper;
    var z := ZerosOf(t);
    UnseenNodes(t, z, k);
    DistinctSize(z);
  }

  lemma UnseenNodes(t: Tree, z: seq<int>, k: nat)
    requires UnseenFrom(t, k) && k < N && forall u :: 0 <= u < N && t.weight[u] == 0 ==> u in z
    ensures |NodeSet(z)| >= N - k
  {
    hide UpTo, NodeSet;
    UpToLess(k);
    forall u | u in UpTo(N) - UpTo(k)
      ensures u in NodeSet(z)
    {
      assert t.weight[u] == 0;
    }
    SubsetSize(UpTo(N) - UpTo(k), NodeSet(z));
  }

  lemma UpToLess(k: nat)
    requires k < N
    ensures |UpTo(N) - UpTo(k)| == N - k
  {
    hide UpTo;
    assert UpTo(k) <= UpTo(N);
    assert UpTo(N) == UpTo(k) + (UpTo(N) - UpTo(k));
  }

  lemma ZerosOf(t: Tree) returns (z: seq<int>)
    requires Proper(t)
    ensures t.Sized() && Distinct(z) && t.zeroCount <= N && (z != [] ==> |z| == t.zeroCount)
    ensures forall u :: 0 <= u < N && t.weight[u] == 0 ==> u in z
  {
    if Unstarted(t) {
      z :| Fresh(t, z);
    } else {
      var c, z' :| Working(t, c, z');
      z := z';
      forall u | 0 <= u < N && t.weight[u] == 0
        ensures u in z
      {
        assert CountedAt(t, c.order, z, u);
      }
      hide Rest;
    }
  }

  // The index of a new symbol takes eight bits while more than half are unseen.
  lemma EightBits(count: nat)
    requires 128 < count
    ensures IndexSize(count) >= 8
  {
    IndexFits(count);
    assert Power2(7) == 128;
    if IndexSize(count) < 8 {
      PowerMonotone(IndexSize(count), 7);
    }
  }

  // Codes once a symbol has been seen take a bit at least.
  lemma CodeNonempty(t: Tree, n: int)
    requires Started(t) && 0 <= n < N
    ensures t.Sized() && |CodeOf(t, n)| >= 1 + if t.weight[n] == 0 then IndexSize(t.zeroCount) else 0
  {
    var bits := CodeOf(t, n);
    var path, index :| CodeIs(t, n, path, index) && bits == path + index;
    var c, z :| Working(t, c, z);
    RootInner(t, c, z);
    assert CountedAt(t, c.order, z, n);
    assert z != [] ==> ZeroAt(t.links, z, 0);
    assert Target(t, n) < N;
    hide Rest;
  }

  lemma NewCost(t: Tree, n: int)
    requires Proper(t) && 0 <= n < 5 && UnseenFrom(t, n)
    ensures |CodeOf(t, n)| >= 8 && (Started(t) ==> |CodeOf(t, n)| >= 9)
  {
    ZerosLeft(t, n);
    EightBits(t.zeroCount);
    var bits := CodeOf(t, n);
    var path, index :| CodeIs(t, n, path, index) && bits == path + index;
    if Started(t) {
      CodeNonempty(t, n);
    }
    hide Proper, Started;
  }

  // What is left of the first section from place k costs so much.
  lemma {:induction false} FirstCost(t: Tree, k: nat)
    requires Proper(t) && k <= 10 && (k > 0 ==> Started(t)) && UnseenFrom(t, if k < 5 then k else 5)
    ensures |SectionCode(t, FIRST[k..])| >= if k == 0 then 49 else if k < 5 then 9 * (5 - k) + 5 else 10 - k
    decreases 10 - k
  {
    hide *;
    FirstAt(k);
    if k < 10 {
      var n := if k < 5 then k else 0;
      var t' := After(t, n);
      UnseenAfterOne(t, t', n);
      FirstStep(t, k, n);
      FirstCost(t', k + 1);
      if k < 5 {
        NewCost(t, n);
      } else {
        CodeNonempty(t, n);
      }
    }
  }

  lemma FirstAt(k: nat)
    requires k <= 10
    ensures |FIRST| == 10 && N == 256 && (k < 10 ==> FIRST[k] == if k < 5 then k else 0)
  {
  }

  lemma FirstStep(t: Tree, k: nat, n: nat)
    requires Proper(t) && |FIRST| == 10 && N == 256 && k < 10 && FIRST[k] == n && n < 5
    ensures |SectionCode(t, FIRST[k..])| == |CodeOf(t, n)| + |SectionCode(After(t, n), FIRST[k + 1..])|
  {
    hide Proper, Started, CodeOf, Updated, FIRST;
    assert FIRST[k..][0] == n && FIRST[k..][1..] == FIRST[k + 1..];
  }

  // Counting one of the first five leaves the others unseen.
  lemma UnseenAfterOne(t: Tree, t': Tree, n: nat)
    requires CountsOne(t, t', n) && n < 5
    ensures forall k {:trigger UnseenFrom(t, k)} :: n < k <= 5 && UnseenFrom(t, k) ==> UnseenFrom(t', k)
    ensures UnseenFrom(t, n) ==> UnseenFrom(t', n + 1)
  {
  }

  // The first section of a stream is thrown away: it takes as many bytes as it has.
  lemma FirstDiscarded()
    ensures Proper(Initial()) && Discards(Initial(), FIRST, false) && |FIRST| == 10
    ensures Started(AfterAll(Initial(), FIRST)) && UnseenFrom(AfterAll(Initial(), FIRST), 5)
  {
    InitialProper();
    InitialUnseen();
    var t := Initial();
    hide Proper, Initial, SectionCode, Encoded, Started, AfterAll, Pack;
    assert FIRST[0..] == FIRST;
    FirstCost(t, 0);
    UnseenAfter(t, FIRST);
  }

  lemma InitialUnseen()
    ensures UnseenFrom(Initial(), 0) && UnseenFrom(Initial(), 5)
  {
  }

  lemma {:induction false} UnseenAfter(t: Tree, data: seq<byte>)
    requires Proper(t) && UnseenFrom(t, 5) && data != [] && forall i :: 0 <= i < |data| ==> data[i] < 5
    ensures Started(AfterAll(t, data)) && UnseenFrom(AfterAll(t, data), 5)
    decreases |data|
  {
    var t' := After(t, data[0]);
    assert CountsOne(t, t', data[0]);
    hide Proper, Started, Updated;
    if |data| > 1 {
      UnseenAfter(t', data[1..]);
    } else {
      assert data[1..] == [];
      assert AfterAll(t', []) == t';
    }
  }

  // A path is no longer than there are internal nodes.
  lemma {:induction false} PathShort(t: Tree, c: Climb, z: seq<int>, u: int, path: seq<bool>, leaf: int, seen: set<int>)
    requires Working(t, c, z) && u in c.order && Descends(t.links, u, path, leaf) && Node(u)
    requires forall x :: x in seen ==> N <= x < t.freeNode && x < NODES && Rank(t.links, c.w0, x) > Rank(t.links, c.w0, u)
    ensures |path| + |seen| <= t.freeNode - N && t.freeNode - N == N - t.zeroCount
    decreases |path|
  {
    assert t.freeNode >= N && CountedAt(t, c.order, z, u);
    if path == [] {
      hide Working;
      SeenFew(seen, N, t.freeNode);
    } else {
      ChildOf(t, c, z, u, path[0]);
      hide Working, Rank;
      assert u !in seen;
      PathShort(t, c, z, if path[0] then t.links.rightChild[u] else t.links.leftChild[u], path[1..], leaf, seen + {u});
    }
  }

  // With five symbols seen the codes of these have no more than five bits.
  lemma KnownCost(t: Tree, n: int)
    requires Started(t) && UnseenFrom(t, 5) && 0 <= n < N && t.weight[n] > 0
    ensures 1 <= |CodeOf(t, n)| <= 5
  {
    CodeNonempty(t, n);
    ZerosLeft(t, 5);
    var bits := CodeOf(t, n);
    var path, index :| CodeIs(t, n, path, index) && bits == path + index;
    var c, z :| Working(t, c, z);
    RootInner(t, c, z);
    PathShort(t, c, z, t.links.root, path, Target(t, n), {});
    hide Rest;
  }

  lemma {:induction false} RepeatCost(t: Tree, x: byte, m: nat)
    requires Started(t) && UnseenFrom(t, 5) && t.weight[x] > 0
    ensures m <= |SectionCode(t, Repeat(x, m))| <= 5 * m
    ensures CodeOf(t, x) != []
    ensures m > 0 ==> SectionCode(t, Repeat(x, m))[0] == CodeOf(t, x)[0]
    decreases m
  {
    hide Started, UnseenFrom, CodeOf, After, SectionCode;
    KnownCost(t, x);
    if m > 0 {
      RepeatNext(t, x, m);
      RepeatCost(After(t, x), x, m - 1);
    } else {
      RepeatNone(t, x);
    }
  }

  lemma RepeatNone(t: Tree, x: byte)
    requires Proper(t)
    ensures SectionCode(t, Repeat(x, 0)) == []
  {
    hide Proper;
    assert Repeat(x, 0) == [];
  }

  lemma RepeatNext(t: Tree, x: byte, m: nat)
    requires Started(t) && UnseenFrom(t, 5) && t.weight[x] > 0 && m > 0
    ensures var t' := After(t, x);
            && Started(t') && UnseenFrom(t', 5) && t'.weight[x] > 0
            && SectionCode(t, Repeat(x, m)) == CodeOf(t, x) + SectionCode(t', Repeat(x, m - 1))
  {
    assert CountsOne(t, After(t, x), x);
    assert Repeat(x, m)[1..] == Repeat(x, m - 1);
    hide Started, Updated, CodeOf, Proper;
  }

  // A node that weighs something has a leaf below it that does.
  lemma {:induction false} LeafBelow(t: Tree, c: Climb, z: seq<int>, u: int) returns (n: int, path: seq<bool>)
    requires Working(t, c, z) && u in c.order && Node(u) && t.weight[u] > 0
    ensures 0 <= n < N && t.weight[n] > 0 && Descends(t.links, u, path, n)
    decreases if t.Sized() && |c.w0| == NODES then Rank(t.links, c.w0, u) else 0
  {
    if u < N {
      n, path := u, [];
    } else {
      TreeNode(t, c, z, u);
      ChildOf(t, c, z, u, true);
      ChildOf(t, c, z, u, false);
      assert t.Sized() && |c.w0| == NODES;
      hide Working, Rank;
      var right := t.weight[t.links.rightChild[u]] > 0;
      n, path := LeafBelow(t, c, z, if right then t.links.rightChild[u] else t.links.leftChild[u]);
      path := [right] + path;
      assert path[1..] == path[1..] && path[0] == right;
    }
  }

  // The right child of the root weighs something, so some symbol's code begins with
  // a one.
  lemma SomeRight(t: Tree) returns (n: int)
    requires Started(t)
    ensures t.Sized() && 0 <= n < N && t.weight[n] > 0 && CodeOf(t, n) != [] && CodeOf(t, n)[0]
  {
    var c, z :| Working(t, c, z);
    RootInner(t, c, z);
    var r := t.links.rightChild[t.links.root];
    ChildOf(t, c, z, t.links.root, true);
    RightWeighs(t, c, z);
    var path;
    n, path := LeafBelow(t, c, z, r);
    hide Working;
    var code := [true] + path;
    assert code[1..] == path;
    assert Descends(t.links, t.links.root, code, n);
    assert CodeIs(t, n, code, []);
    assert code == code + [];
    assert Coded(t, n, code);
    CodeOnce(t, n, code, CodeOf(t, n));
  }

  lemma RightWeighs(t: Tree, c: Climb, z: seq<int>)
    requires Working(t, c, z) && N <= t.links.root < NODES && t.links.root in c.order
    ensures Node(t.links.rightChild[t.links.root]) && t.weight[t.links.rightChild[t.links.root]] > 0
  {
    var root := t.links.root;
    var r := t.links.rightChild[root];
    ChildOf(t, c, z, root, true);
    TreeNode(t, c, z, r);
    assert ParentOk(t.links, c.order, root);
    if t.weight[r] == 0 {
      ZeroFamily(t, c);
    }
    hide BlocksOk, Linked, LinkedBack, Level, LeavesOk, Sums;
  }

  // A number of eight bits that begin with a one.
  lemma {:induction false} ValueTop(bits: seq<bool>)
    requires bits != [] && bits[0]
    ensures BitLayer.Value(bits) >= Power2(|bits| - 1)
  {
    if |bits| > 1 {
      ValueTop(bits[..|bits| - 1]);
    }
  }

  lemma EightAtFirst()
    ensures IndexSize(N) == 8 && Power2(7) == 128 && Power2(8) == 256
  {
    assert Power2(4) == 16 && Power2(7) == 128 && Power2(8) == 256;
    OnlyExponent(Exponent(N), 8);
  }

  lemma OnlyExponent(e: nat, f: nat)
    requires Power2(e) <= Power2(f) < 2 * Power2(e)
    ensures e == f
  {
    PowerGap(e, f);
    PowerGap(f, e);
  }

  lemma PowerGap(e: nat, f: nat)
    ensures e < f ==> Power2(f) >= 2 * Power2(e)
  {
    if e < f {
      PowerMonotone(e + 1, f);
    }
  }

  // A new decoder takes eight bits that begin with a one for a symbol of 128 or more.
  lemma FirstSymbol(bits: seq<bool>, size: nat)
    requires |bits| >= 8 && bits[0] && size > 0
    ensures Proper(Initial()) && AtStart(Initial())
    ensures var r := Decode(Initial(), Start(Initial()), bits, size); r.Ok? ==> r.value.data != [] && r.value.data[0] >= 128
  {
    hide *;
    InitialProper();
    var t, index := Initial(), bits[..8];
    StartAt(t);
    StartsAt(t);
    InitialRoot();
    FirstIndex(index);
    IndexReads(t, Reader(t.links.root, []), index);
    assert [] + index == index;
    FirstSymbolIs(index);
    DecodeCode(t, Start(t), index, bits[8..], size, Reader(t.links.root, index));
    assert bits == index + bits[8..];
    var n := ReadSymbol(t, Reader(t.links.root, index), false);
    var t' := After(t, n);
    FirstOf(n, 8, Decode(t', Reader(t'.links.root, []), bits[8..], size - 1));
  }

  lemma FirstOf(n: nat, used: nat, r: Result<Decoded>)
    requires n < N
    ensures var all := Prefixed([n], used, r); all.Ok? ==> all.value.data != [] && all.value.data[0] == n
  {
  }

  lemma StartsAt(t: Tree)
    requires At(t, Reader(t.links.root, [])) && ReadOk(t, Reader(t.links.root, []))
    ensures AtStart(t) && At(t, Start(t)) && Start(t) == Reader(t.links.root, [])
  {
  }

  lemma FirstIndex(index: seq<bool>)
    requires |index| == 8 && index[0]
    ensures 128 <= BitLayer.Value(index) < N == 256 && IndexSize(N) == 8
  {
    EightAtFirst();
    ValueTop(index);
    ValueBelow(index);
  }

  lemma InitialRoot()
    ensures var t := Initial(); t.links.root == t.zeros == 0 && t.weight[0] == 0 && t.zeroCount == N
  {
  }

  lemma FirstSymbolIs(index: seq<bool>)
    requires |index| == 8 && 128 <= BitLayer.Value(index) < N
    ensures ReadSymbol(Initial(), Reader(Initial().links.root, index), false) >= 128
  {
    var t := Initial();
    var z := seq(N, i => i);
    forall i {:trigger ZeroAt(t.links, z, i)} | 0 <= i < |z|
      ensures ZeroAt(t.links, z, i)
    {
    }
    InitialRoot();
    assert ZeroList(t.links, t.zeros, z);
    NthZeroIs(t.links, t.zeros, z, 0, BitLayer.Value(index));
    hide BitLayer.Value, NthZero;
  }

  // The section that follows is sent coded, in eleven bytes for sixteen.
  lemma SecondSent(t: Tree, x: byte)
    requires Started(t) && UnseenFrom(t, 5) && x < 5 && t.weight[x] > 0
    ensures |Repeat(x, 16)| == 16 && !Discards(t, Repeat(x, 16), false)
    ensures 16 <= |SectionCode(t, Repeat(x, 16))| <= 80 && CodeOf(t, x) != []
    ensures SectionCode(t, Repeat(x, 16))[0] == CodeOf(t, x)[0]
    ensures Send(t, Repeat(x, 16), false) == Packed(Compressed(t, Repeat(x, 16)))
  {
    hide Started, SectionCode, Encoded, CodeOf, UnseenFrom, Repeat;
    RepeatCost(t, x, 16);
    SizeOfIsLength(16);
  }

  // The first section of a stream is thrown away, and for one of its symbols the
  // second, sixteen times that symbol, is sent coded and not restored.
  lemma OutOfStep() returns (x: byte)
    ensures Proper(Initial()) && Discards(Initial(), FIRST, false)
    ensures Send(EncoderAfter(Initial(), FIRST), Repeat(x, 16), false).Packed?
    ensures var r := RunSections(Initial(), Initial(), [FIRST, Repeat(x, 16)], false);
            r.Ok? ==> |r.value.decoded| == 2 && r.value.decoded[0] == FIRST && r.value.decoded[1] != Repeat(x, 16)
  {
    FirstDiscarded();
    hide *;
    var t := AfterAll(Initial(), FIRST);
    var n := SomeRight(t);
    SeenBelow(t, n);
    x := n;
    SecondSent(t, x);
    WrongSecond(t, x);
    TwoSections(t, x);
  }

  lemma SeenBelow(t: Tree, n: int)
    requires UnseenFrom(t, 5) && 0 <= n < N && t.weight[n] > 0
    ensures n < 5
  {
  }

  // What a new decoder makes of the second section.
  lemma WrongSecond(t: Tree, x: byte)
    requires Proper(t) && x < 5 && |SectionCode(t, Repeat(x, 16))| >= 8 && SectionCode(t, Repeat(x, 16))[0]
    ensures Proper(Initial())
    ensures var r := Receive(Initial(), Packed(Compressed(t, Repeat(x, 16)))); r.Ok? ==> r.value.data != Repeat(x, 16)
  {
    InitialProper();
    hide Proper, Initial, Decode, Unpack, Pack, SectionCode, ReadInt, Encoded, AtStart;
    var bits := SectionCode(t, Repeat(x, 16));
    var all := Unpack(Pack(bits));
    Unpacked(bits);
    assert all[0] == bits[0];
    FirstSymbol(all, 16);
    ReadEncoded(16, Pack(bits));
    var bytes := Compressed(t, Repeat(x, 16));
    assert bytes[|Encoded(16)|..] == Pack(bits);
    assert Repeat(x, 16)[0] == x && |Repeat(x, 16)| == 16;
  }

  lemma TwoSections(t: Tree, x: byte)
    requires Proper(Initial()) && Discards(Initial(), FIRST, false) && t == AfterAll(Initial(), FIRST)
    requires Proper(t) && Send(t, Repeat(x, 16), false) == Packed(Compressed(t, Repeat(x, 16)))
    requires var r := Receive(Initial(), Packed(Compressed(t, Repeat(x, 16)))); r.Ok? ==> r.value.data != Repeat(x, 16)
    ensures EncoderAfter(Initial(), FIRST) == t
    ensures var r := RunSections(Initial(), Initial(), [FIRST, Repeat(x, 16)], false);
            r.Ok? ==> |r.value.decoded| == 2 && r.value.decoded[0] == FIRST && r.value.decoded[1] != Repeat(x, 16)
  {
    hide *;
    FirstSent(Initial(), FIRST);
    ReceivesPlain(Initial(), FIRST);
    RunTwo(Initial(), Initial(), FIRST, Repeat(x, 16), false);
  }

  lemma FirstSent(t: Tree, data: seq<byte>)
    requires Proper(t) && Discards(t, data, false)
    ensures EncoderAfter(t, data) == AfterAll(t, data) && Send(t, data, false) == Plain(data)
  {
    hide Proper, AfterAll, Compressed;
  }

  lemma RunOne(te: Tree, td: Tree, data: seq<byte>, inefficient: bool)
    requires Proper(te) && Proper(td)
    ensures var r := RunSections(te, td, [data], inefficient);
            var got := Receive(td, Send(te, data, inefficient));
            r.Ok? ==> got.Ok? && r.value.decoded == [got.value.data]
  {
    hide Proper, Receive, Send, EncoderAfter;
    assert [data][1..] == [];
    ReceivedProper(td, Send(te, data, inefficient));
  }

  lemma RunTwo(te: Tree, td: Tree, a: seq<byte>, b: seq<byte>, inefficient: bool)
    requires Proper(te) && Proper(td)
    ensures var r := RunSections(te, td, [a, b], inefficient);
            var first := Receive(td, Send(te, a, inefficient));
            r.Ok? ==>
              && first.Ok? && Proper(first.value.tree)
              && var second := Receive(first.value.tree, Send(EncoderAfter(te, a), b, inefficient));
                 second.Ok? && r.value.decoded == [first.value.data, second.value.data]
  {
    hide Proper, Receive, Send, EncoderAfter;
    assert [a, b][1..] == [b];
    var first := Receive(td, Send(te, a, inefficient));
    if first.Ok? {
      ReceivedProper(td, Send(te, a, inefficient));
      RunOne(EncoderAfter(te, a), first.value.tree, b, inefficient);
    }
  }

  lemma ReceivesPlain(t: Tree, bytes: seq<byte>)
    requires Proper(t)
    ensures Receive(t, Plain(bytes)) == Ok(Received(bytes, t))
  {
  }
}
