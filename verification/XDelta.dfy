// The delta encoder the project uses (encoder/xdelta.h): xd3_encode_memory and
// xd3_decode_memory with the base chunk as the source, into a fixed buffer.
module XDelta {
  import opened Bytes
  import opened StreamFormat
  import StreamDecoder
  import StreamEncoder
  import Matcher
  import opened CodeTable
  import opened WindowFormat
  import Instructions

  const DEFAULT_WINSIZE: nat := 0x80_0000
  const BUFFER_SIZE: nat := 32768

  predicate PowerOfTwo(n: nat) {
    n == 1 || (n > 1 && n % 2 == 0 && PowerOfTwo(n / 2))
  }

  // The first of i, 2i, 4i, ... that is no smaller than x.
  function Doubled(i: nat, x: nat): (r: nat)
    requires PowerOfTwo(i) && (i > 1 ==> i / 2 < x)
    ensures PowerOfTwo(r) && x <= r && (r > 1 ==> r / 2 < x)
    decreases x - i
  {
    if x <= i then i else Doubled(2 * i, x)
  }

  // The highest power of two in a usize_t.
  const TOP_BIT: nat := 0x8000_0000_0000_0000

  // xd3_pow2_roundup, for arguments its loop ends for.
  method Pow2Roundup(x: nat) returns (i: nat)
    requires x <= TOP_BIT
    ensures i == Doubled(1, x)
  {
    hide PowerOfTwo, Doubled;
    i := 1;
    DoubledStart(x);
    while x > i
      invariant PowerOfTwo(i) && (i > 1 ==> i / 2 < x) && Doubled(i, x) == Doubled(1, x)
      decreases x - i
    {
      DoubledNext(i, x);
      i := i * 2 % U64;
    }
    DoubledEnd(i, x);
  }

  lemma DoubledStart(x: nat)
    ensures PowerOfTwo(1)
  {
  }

  lemma DoubledNext(i: nat, x: nat)
    requires PowerOfTwo(i) && (i > 1 ==> i / 2 < x) && i < x <= TOP_BIT
    ensures i * 2 % U64 == 2 * i && 2 * i / 2 == i && PowerOfTwo(2 * i) && Doubled(i, x) == Doubled(2 * i, x)
  {
  }

  lemma DoubledEnd(i: nat, x: nat)
    requires PowerOfTwo(i) && (i > 1 ==> i / 2 < x) && x <= i
    ensures Doubled(i, x) == i
  {
  }

  // Its variable after k turns.
  function Shifted(k: nat): nat {
    if k == 0 then 1 else Shifted(k - 1) * 2 % U64
  }

  // The loop ends exactly for arguments up to 2^63: then the one bit is shifted out, and
  // the variable stays zero.
  lemma RoundupEnds(x: nat)
    ensures (exists k: nat :: Shifted(k) >= x) <==> x <= TOP_BIT
  {
    hide Shifted, Power2;
    ShiftedIs(63);
    if x <= TOP_BIT {
      assert Shifted(63) >= x;
    }
    forall k: nat
      ensures Shifted(k) <= TOP_BIT
    {
      ShiftedIs(k);
      if k < 63 {
        PowerMonotone(k, 63);
      }
    }
  }

  lemma {:induction false} ShiftedIs(k: nat)
    ensures Shifted(k) == (if k <= 63 then Power2(k) else 0) && Power2(63) == TOP_BIT
  {
    hide Power2, Shifted;
    TopPower();
    if k == 0 {
      FirstTurn();
    } else {
      ShiftedIs(k - 1);
      NextTurn(k - 1);
      if k <= 63 {
        PowerMonotone(k, 63);
      }
    }
  }

  lemma FirstTurn()
    ensures Shifted(0) == Power2(0)
  {
  }

  lemma NextTurn(k: nat)
    ensures Shifted(k + 1) == Shifted(k) * 2 % U64 && Power2(k + 1) == 2 * Power2(k)
  {
  }

  lemma SeventhPower()
    ensures Power2(7) == 128
  {
  }

  lemma TopPower()
    ensures Power2(63) == TOP_BIT
  {
    hide Power2;
    SeventhPower();
    PowerSum(7, 7);
    PowerSum(14, 14);
    PowerSum(28, 28);
    PowerSum(56, 7);
  }

  // A source held in memory as one block, whose size is a power of two.
  function MemorySource(source: seq<byte>, decompress: Decompressor): (src: Source)
    ensures src.Valid() && src.given && src.bytes == source && |source| <= src.blksize
  {
    Source(true, source, Doubled(1, |source|), decompress)
  }

  // No delta xd3_encode_memory makes of n bytes is longer.
  function MemoryBound(n: nat): nat {
    StreamEncoder.Bound(n, if n == 0 then DEFAULT_WINSIZE else Min(n, DEFAULT_WINSIZE))
  }

  // xd3_encode_memory.
  method EncodeMemory(input: seq<byte>, source: seq<byte>, outputSizeMax: nat, smallSize: nat, useAdler32: bool,
                      tables: nat -> StreamEncoder.Tables, decompress: Decompressor)
    returns (r: Result<seq<byte>>)
    requires |input| < U64 && |source| <= TOP_BIT && smallSize > 0
    requires forall i :: tables(i).Valid(source)
    ensures exists delta :: StreamEncoder.Delta(delta, input, MemorySource(source, decompress)) && |delta| <= MemoryBound(|input|)
                            && r == if |delta| <= outputSizeMax then Ok(delta) else Fail
    ensures MemoryBound(|input|) <= outputSizeMax ==> r.Ok?
    ensures |input| <= DEFAULT_WINSIZE && Matcher.LoneRun(input, source) && StreamEncoder.RUN_BOUND <= outputSizeMax ==> r.Ok?
  {
    hide StreamEncoder.Delta, Matcher.LoneRun;
    var winsize := Min(|input|, DEFAULT_WINSIZE);
    var sprevsz := Pow2Roundup(winsize);
    if winsize == 0 {
      winsize := DEFAULT_WINSIZE;
    }
    var blksize := Pow2Roundup(|source|);
    var config := StreamEncoder.Config(smallSize, sprevsz, Max(blksize, ALLOCSIZE), useAdler32);
    r := StreamEncoder.EncodeStream(input, winsize, Source(true, source, blksize, decompress), config, tables, outputSizeMax);
  }

  // xd3_decode_memory.
  method DecodeMemory(input: seq<byte>, source: seq<byte>, outputSizeMax: nat, decompress: Decompressor)
    returns (r: Result<seq<byte>>)
    requires |source| <= TOP_BIT
    ensures r == DecodeFile(input, MemorySource(source, decompress), outputSizeMax)
  {
    var blksize := Pow2Roundup(|source|);
    r := StreamDecoder.DecodeStream(input, DEFAULT_WINSIZE, Source(true, source, blksize, decompress), outputSizeMax);
  }

  // encode and decode of encoder/xdelta.h: a chunk encoded against a base chunk is
  // decoded unchanged exactly if it fits the buffer. Encoding fails only if the delta
  // does not fit.
  method EncodeThenDecode(base: seq<byte>, chunk: seq<byte>, smallSize: nat, tables: nat -> StreamEncoder.Tables,
                          decompress: Decompressor)
    returns (delta: Result<seq<byte>>, decoded: Result<seq<byte>>)
    requires |chunk| < U64 && |base| <= TOP_BIT && smallSize > 0
    requires forall i :: tables(i).Valid(base)
    ensures delta.Ok? ==> |delta.value| <= BUFFER_SIZE && decoded == if |chunk| <= BUFFER_SIZE then Ok(chunk) else Fail
    ensures delta.Fail? ==> exists tooLong :: BUFFER_SIZE < |tooLong| <= MemoryBound(|chunk|)
                                              && StreamEncoder.Delta(tooLong, chunk, MemorySource(base, decompress))
    ensures |chunk| <= DEFAULT_WINSIZE && Matcher.LoneRun(chunk, base) ==> delta.Ok?
  {
    delta := EncodeMemory(chunk, base, BUFFER_SIZE, smallSize, false, tables, decompress);
    ghost var d :| StreamEncoder.Delta(d, chunk, MemorySource(base, decompress)) && |d| <= MemoryBound(|chunk|)
                   && delta == if |d| <= BUFFER_SIZE then Ok(d) else Fail;
    decoded := Fail;
    if delta.Ok? {
      decoded := DecodeMemory(delta.value, base, BUFFER_SIZE, decompress);
    }
  }

  // ---------- a chunk that does not fit the buffer ----------

  // One window of a single RUN.
  function RunWindow(b: byte, n: nat): StreamEncoder.Written {
    StreamEncoder.Written(0, 0, Repeat(b, n), [b], Instructions.SingleBytes(XD3_RUN, n), [], false)
  }

  lemma RunWindowMeans(b: byte, n: nat, src: Source)
    requires 0 < n <= HARDMAXWINSIZE && src.Valid()
    ensures RunWindow(b, n).Means(src) && RunWindow(b, n).Short()
  {
    var w := Window(0, 0, n, n, src.bytes, src.blksize);
    Instructions.RunStep(w, InitState(), b, n);
    var st := State(InitState().cache, InitState().out + Repeat(b, n));
    Instructions.SingleEmit(w, XD3_RUN, n, [], [b], InitState(), st);
    assert st.out == Repeat(b, n);
    SingleSize(n);
    hide Emit, Instructions.SingleBytes, Instructions.Step;
  }

  lemma SingleSize(n: nat)
    requires 0 < n < U64
    ensures |Instructions.SingleBytes(XD3_RUN, n)| <= 11
  {
    StreamEncoder.IntegerLength(n);
  }

  // Any run is the target of a delta of at most 93 bytes.
  lemma RunDelta(b: byte, n: nat, src: Source) returns (delta: seq<byte>)
    requires 0 < n <= HARDMAXWINSIZE && src.Valid()
    ensures |delta| <= 93 && StreamEncoder.Delta(delta, Repeat(b, n), src)
  {
    hide StreamEncoder.WindowBytes, StreamEncoder.Written.Means, StreamEncoder.Delta, Instructions.SingleBytes;
    var w := RunWindow(b, n);
    RunWindowMeans(b, n, src);
    SingleSize(n);
    StreamEncoder.WindowLength(w);
    StreamEncoder.OneWindow(w, src);
    delta := StreamEncoder.FileHeader + StreamEncoder.WindowBytes(w, []);
  }

  // For every base there is a chunk one byte longer than the buffer that encode does
  // encode (EncodeThenDecode), and that has a delta far shorter than the buffer: the
  // delta decodes to the chunk, but not into the buffer.
  lemma BufferTooSmall(base: seq<byte>, decompress: Decompressor) returns (chunk: seq<byte>, delta: seq<byte>)
    ensures Matcher.LoneRun(chunk, base)
    ensures |chunk| == BUFFER_SIZE + 1 && |delta| <= 93 && StreamEncoder.Delta(delta, chunk, MemorySource(base, decompress))
    ensures DecodeFile(delta, MemorySource(base, decompress), BUFFER_SIZE + 1) == Ok(chunk)
    ensures DecodeFile(delta, MemorySource(base, decompress), BUFFER_SIZE) == Fail
  {
    var b: byte := if base != [] && base[0] == 0 then 1 else 0;
    chunk := Repeat(b, BUFFER_SIZE + 1);
    delta := RunDelta(b, BUFFER_SIZE + 1, MemorySource(base, decompress));
    hide DecodeFile;
  }
}
