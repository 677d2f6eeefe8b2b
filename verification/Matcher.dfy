// The string matcher (xdelta3.c): RUN, source and target matches found while
// scanning a window, with lazy matching, backward extension and erasure. The hash
// functions and the table of source offsets are arbitrary; every candidate is
// checked byte by byte, so every queued instruction is true of the input.
module Matcher {
  import opened Bytes
  import opened CodeTable
  import opened WindowFormat
  import opened Optimizer

  const MIN_RUN: nat := 8
  const HASH_CKOFFSET: nat := 1

  // The default configuration, xdelta3-cfgs.h.
  const LLOOK: nat := 9
  const SLOOK: nat := 4
  const SCHAIN: nat := 8
  const SLCHAIN: nat := 2
  const MAXLAZY: nat := 36
  const LONGENOUGH: nat := 70

  datatype MatchState = MatchTarget | MatchForward | MatchBackward | MatchSearching

  // a[i..i + n] and b[j..j + n] are the same bytes.
  ghost predicate Agree(a: seq<byte>, i: nat, b: seq<byte>, j: nat, n: nat) {
    && i + n <= |a| && j + n <= |b|
    && forall k :: i <= k < i + n ==> a[k] == b[k - i + j]
  }

  // n is how far a from i and b from j agree, up to limit.
  ghost predicate Longest(a: seq<byte>, i: nat, b: seq<byte>, j: nat, limit: nat, n: nat) {
    && i + limit <= |a| && j + limit <= |b| && n <= limit
    && Agree(a, i, b, j, n) && (n < limit ==> a[i + n] != b[j + n])
  }

  // xd3_forward_match: four bytes at a time, eight words a turn, then byte by byte
  // from the last word that may differ.
  method ForwardMatch(s1: seq<byte>, s2: seq<byte>, n: nat) returns (i: nat)
    requires n <= |s1| && n <= |s2|
    ensures Longest(s1, 0, s2, 0, n, i)
  {
    var nint := n / 4;
    i := 0;
    if nint / 8 != 0 {
      var nint8 := nint - 8;
      var same := true;
      var w := 0;
      while w <= nint8 && same
        invariant 0 <= w <= nint && (same ==> Agree(s1, 0, s2, 0, 4 * w))
        invariant !same ==> w > 0 && Agree(s1, 0, s2, 0, 4 * (w - 1))
        invariant w == 0 ==> same
        decreases nint - w
      {
        var c := 0;
        ghost var w0 := w;
        while c < 8 && same
          invariant 0 <= c <= 8 && w == w0 + c && w0 + 8 <= nint && (c == 0 ==> same)
          invariant same ==> Agree(s1, 0, s2, 0, 4 * w)
          invariant !same ==> w > 0 && Agree(s1, 0, s2, 0, 4 * (w - 1))
          decreases 8 - c
        {
          same := s1[4 * w..4 * w + 4] == s2[4 * w..4 * w + 4];
          if same {
            WordAgrees(s1, s2, w);
          }
          w, c := w + 1, c + 1;
        }
      }
      i := (w - 1) * 4;
    }
    while i < n && s1[i] == s2[i]
      invariant i <= n && Agree(s1, 0, s2, 0, i)
    {
      i := i + 1;
    }
  }

  lemma WordAgrees(s1: seq<byte>, s2: seq<byte>, w: nat)
    requires 4 * w + 4 <= |s1| && 4 * w + 4 <= |s2| && Agree(s1, 0, s2, 0, 4 * w)
    requires s1[4 * w..4 * w + 4] == s2[4 * w..4 * w + 4]
    ensures Agree(s1, 0, s2, 0, 4 * (w + 1))
  {
    forall k | 0 <= k < 4 * w + 4
      ensures s1[k] == s2[k]
    {
      if k >= 4 * w {
        assert s1[4 * w..4 * w + 4][k - 4 * w] == s2[4 * w..4 * w + 4][k - 4 * w];
      }
    }
  }

  // A queue the encoder can use.
  ghost predicate Good(input: seq<byte>, hasSource: bool, source: seq<byte>, minaddr: nat, maxaddr: nat, q: seq<RInst>) {
    && Ordered(q) && Sized(q) && AllTruthful(input, source, q) && AllInRange(hasSource, minaddr, maxaddr, q)
    && minaddr <= maxaddr <= |source|
  }

  // xd3_iopt_last_matched.
  function LastMatched(q: seq<RInst>): nat {
    if q == [] then 0 else q[|q| - 1].End()
  }

  // The queue holds only instructions that start before pos and end before end.
  ghost predicate Before(q: seq<RInst>, pos: nat, end: nat) {
    q != [] ==> q[|q| - 1].pos < pos && q[|q| - 1].End() < end
  }

  lemma PushGood(input: seq<byte>, hasSource: bool, source: seq<byte>, minaddr: nat, maxaddr: nat, q: seq<RInst>, r: RInst)
    requires Good(input, hasSource, source, minaddr, maxaddr, q)
    requires Before(q, r.pos, r.End()) && r.size >= MIN_MATCH
    requires Truthful(input, source, r) && InRange(hasSource, minaddr, maxaddr, r)
    ensures Good(input, hasSource, source, minaddr, maxaddr, q + [r])
  {
    hide Truthful;
    forall i, j | 0 <= i < j < |q| + 1
      ensures (q + [r])[i].pos < (q + [r])[j].pos && (q + [r])[i].End() < (q + [r])[j].End()
    {
      if j == |q| && i < |q| - 1 {
        assert q[i].pos < q[|q| - 1].pos && q[i].End() < q[|q| - 1].End();
      }
    }
  }

  // The first source match sets the range, later ones widen it.
  lemma WidenGood(input: seq<byte>, hasSource: bool, source: seq<byte>, minaddr: nat, maxaddr: nat, q: seq<RInst>,
                  minaddr': nat, maxaddr': nat)
    requires Good(input, hasSource, source, minaddr, maxaddr, q)
    requires (maxaddr == 0 || minaddr' <= minaddr) && maxaddr <= maxaddr' <= |source| && minaddr' <= maxaddr'
    ensures Good(input, hasSource, source, minaddr', maxaddr', q)
  {
    forall i | 0 <= i < |q|
      ensures InRange(hasSource, minaddr', maxaddr', q[i])
    {
      assert InRange(hasSource, minaddr, maxaddr, q[i]) && q[i].size >= MIN_MATCH;
    }
  }

  lemma PrefixGood(input: seq<byte>, hasSource: bool, source: seq<byte>, minaddr: nat, maxaddr: nat, q: seq<RInst>, n: nat)
    requires Good(input, hasSource, source, minaddr, maxaddr, q) && n <= |q|
    ensures Good(input, hasSource, source, minaddr, maxaddr, q[..n])
    ensures forall pos, end :: Before(q, pos, end) ==> Before(q[..n], pos, end)
  {
    hide Truthful, InRange;
  }

  // xd3_iopt_erase: drop the instructions a new one covers.
  method IoptErase(q0: seq<RInst>, pos: nat) returns (q: seq<RInst>)
    ensures q <= q0 && (q != [] ==> q[|q| - 1].pos < pos)
    ensures forall i :: |q| <= i < |q0| ==> q0[i].pos >= pos
  {
    q := q0;
    while q != []
      invariant q <= q0 && forall i :: |q| <= i < |q0| ==> q0[i].pos >= pos
      decreases |q|
    {
      if q[|q| - 1].pos < pos {
        return;
      }
      q := q[..|q| - 1];
    }
  }

  // A byte of the source, found in its block.
  lemma BlockAt(source: seq<byte>, blksize: nat, blkno: nat, off: nat)
    requires off < blksize && blkno * blksize + off < |source|
    ensures off < |Block(source, blksize, blkno)|
    ensures Block(source, blksize, blkno)[off] == source[blkno * blksize + off]
  {
    assert (blkno + 1) * blksize == blkno * blksize + blksize;
  }

  // A run as NEXTRUN counts it over the SLOOK bytes at pos: while the count is no
  // more than SLOOK, so many of their last bytes are the run byte.
  ghost predicate RunState(input: seq<byte>, pos: nat, runl: nat, runc: byte) {
    && pos + SLOOK <= |input|
    && (runl <= SLOOK ==> forall k :: pos + SLOOK - runl <= k < pos + SLOOK ==> input[k] == runc)
  }

  // One byte over and over.
  ghost predicate Uniform(input: seq<byte>) {
    forall k :: 0 <= k < |input| ==> input[k] == input[0]
  }

  // A long run whose byte the source does not begin with.
  ghost predicate LoneRun(input: seq<byte>, source: seq<byte>) {
    |input| >= MAXLAZY && Uniform(input) && (source != [] ==> source[0] != input[0])
  }

  // The whole input as a run.
  function WholeRun(input: seq<byte>): RInst
    requires input != []
  {
    RInst(XD3_RUN, input[0], 0, 0, 0, |input|, 0)
  }

  method NextRun(c: byte, runl0: nat, runc0: byte) returns (runl: nat, runc: byte)
    ensures runl > 0 && runc == c
    ensures runl == if c == runc0 then runl0 + 1 else 1
  {
    if c == runc0 {
      runl, runc := runl0 + 1, runc0;
    } else {
      runc := c;
      runl := 1;
    }
  }

  // xd3_comprun.
  method CompRun(input: seq<byte>, pos: nat) returns (runl: nat, runc: byte)
    requires pos + SLOOK <= |input|
    ensures RunState(input, pos, runl, runc)
    ensures Uniform(input) ==> runl == SLOOK && runc == input[0]
  {
    runl, runc := 0, 0;
    var i := 0;
    while i < SLOOK
      invariant 0 <= i <= SLOOK && runl <= i
      invariant forall k :: pos + i - runl <= k < pos + i ==> input[k] == runc
      invariant Uniform(input) ==> runl == i && (i > 0 ==> runc == input[0])
    {
      runl, runc := NextRun(input[pos + i], runl, runc);
      i := i + 1;
    }
  }

  // The backward half of xd3_source_extend_match, across source blocks: a match of
  // up to maxback bytes that ends at srcpos and pos.
  method ExtendBackward(source: seq<byte>, blksize: nat, srcpos: nat, input: seq<byte>, pos: nat, maxback: nat)
    returns (back: nat)
    requires blksize > 0 && maxback <= srcpos <= |source| && maxback <= pos <= |input|
    ensures back <= maxback && Agree(source, srcpos - back, input, pos - back, back)
    ensures back < maxback ==> source[srcpos - back - 1] != input[pos - back - 1]
  {
    hide Block;
    back := 0;
    var tryblk: nat, tryoff: nat := srcpos / blksize, srcpos % blksize;
    BlockOf(blksize, srcpos);
    while back < maxback
      invariant 0 <= tryoff <= blksize && tryblk * blksize + tryoff == srcpos - back && back <= maxback
      invariant Agree(source, srcpos - back, input, pos - back, back)
      decreases maxback - back
    {
      if tryoff == 0 {
        PreviousBlock(blksize, tryblk);
        tryoff := blksize;
        tryblk := tryblk - 1;
      }
      var curblk := Block(source, blksize, tryblk);
      var tryrem := Min(tryoff, maxback - back);
      ghost var back0 := back;
      while tryrem != 0
        invariant 0 <= tryrem <= tryoff <= blksize && tryrem <= maxback - back
        invariant tryblk * blksize + tryoff == srcpos - back && (back == back0 ==> tryrem > 0) && back >= back0
        invariant Agree(source, srcpos - back, input, pos - back, back)
        decreases tryrem
      {
        BlockAt(source, blksize, tryblk, tryoff - 1);
        if curblk[tryoff - 1] != input[pos - back - 1] {
          return;
        }
        tryrem, back := tryrem - 1, back + 1;
        tryoff := tryoff - 1;
      }
    }
  }

  // The forward half: a match of up to maxfwd bytes that starts at srcpos and pos.
  method ExtendForward(source: seq<byte>, blksize: nat, srcpos: nat, input: seq<byte>, pos: nat, maxfwd: nat)
    returns (fwd: nat)
    requires blksize > 0 && srcpos + maxfwd <= |source| && pos + maxfwd <= |input|
    ensures Longest(source, srcpos, input, pos, maxfwd, fwd) && fwd <= maxfwd && Agree(source, srcpos, input, pos, fwd)
  {
    hide Block;
    fwd := 0;
    var tryblk: nat, tryoff: nat := srcpos / blksize, srcpos % blksize;
    BlockOf(blksize, srcpos);
    while fwd < maxfwd
      invariant 0 <= tryoff <= blksize && tryblk * blksize + tryoff == srcpos + fwd && fwd <= maxfwd
      invariant Agree(source, srcpos, input, pos, fwd)
      decreases maxfwd - fwd
    {
      if tryoff == blksize {
        NextBlock(blksize, tryblk);
        tryoff := 0;
        tryblk := tryblk + 1;
      }
      var curblk := Block(source, blksize, tryblk);
      BlockRest(source, blksize, tryblk, tryoff);
      var tryrem := Min(maxfwd - fwd, |curblk| - tryoff);
      var matched := ForwardMatch(curblk[tryoff..], input[pos + fwd..], tryrem);
      AgreeFurther(source, srcpos, input, pos, fwd, curblk[tryoff..], input[pos + fwd..], tryrem, matched);
      tryoff := tryoff + matched;
      fwd := fwd + matched;
      if tryrem != matched {
        break;
      }
    }
  }

  lemma BlockOf(blksize: nat, pos: nat)
    requires blksize > 0
    ensures pos / blksize * blksize + pos % blksize == pos && pos % blksize < blksize
  {
  }

  lemma NextBlock(blksize: nat, blkno: nat)
    ensures (blkno + 1) * blksize == blkno * blksize + blksize
  {
  }

  lemma PreviousBlock(blksize: nat, blkno: nat)
    requires blkno * blksize > 0
    ensures blkno > 0 && (blkno - 1) * blksize + blksize == blkno * blksize
  {
  }

  // From an offset within the source to the end of its block.
  lemma BlockRest(source: seq<byte>, blksize: nat, blkno: nat, off: nat)
    requires off < blksize && blkno * blksize + off < |source|
    ensures off < |Block(source, blksize, blkno)|
    ensures var rest := Block(source, blksize, blkno)[off..];
            blkno * blksize + off + |rest| <= |source|
            && Agree(source, blkno * blksize + off, rest, 0, |rest|)
  {
    assert (blkno + 1) * blksize == blkno * blksize + blksize;
  }

  // A match so far, extended by one within the current block.
  lemma AgreeFurther(source: seq<byte>, srcpos: nat, input: seq<byte>, pos: nat, fwd: nat,
                     a: seq<byte>, b: seq<byte>, limit: nat, n: nat)
    requires Agree(source, srcpos, input, pos, fwd) && Agree(source, srcpos + fwd, a, 0, |a|)
    requires pos + fwd <= |input| && b == input[pos + fwd..] && Longest(a, 0, b, 0, limit, n)
    ensures Agree(source, srcpos, input, pos, fwd + n)
    ensures n < limit ==> source[srcpos + fwd + n] != input[pos + fwd + n]
  {
    forall k | srcpos <= k < srcpos + fwd + n
      ensures source[k] == input[k - srcpos + pos]
    {
      if k >= srcpos + fwd {
        assert a[k - (srcpos + fwd)] == b[k - (srcpos + fwd)];
      }
    }
  }

  class Scanner {
    const nextIn: seq<byte>
    const hasSource: bool
    const source: seq<byte>
    const blksize: nat
    // The smallest-string table, emptied for each window, and the chain of earlier
    // positions, whose contents are left over from anything.
    const smallTable: array<nat>
    const smallPrev: array<nat>
    // The bucket of the string at a position, and the source table's entry for it.
    const smallHash: nat -> nat
    const largeTable: nat -> nat
    const cksumPos: nat -> nat
    const maxWinsize: nat
    var iopt: seq<RInst>
    var inputPosition: nat
    var minMatch: nat
    var matchState: MatchState
    var matchSrcpos: nat
    var matchLastSrcpos: nat
    var matchMaxback: nat
    var matchMaxfwd: nat
    var matchBack: nat
    var matchFwd: nat
    var matchMinaddr: nat
    var matchMaxaddr: nat

    ghost predicate Params()
    {
      && blksize > 0 && smallTable.Length > 0 && smallPrev.Length > 0 && smallTable != smallPrev
      && (forall p :: largeTable(p) <= |source|)
    }

    ghost predicate Valid()
      reads this
    {
      && Params() && Good(nextIn, hasSource, source, matchMinaddr, matchMaxaddr, iopt)
      && inputPosition <= |nextIn| && minMatch >= MIN_MATCH && matchSrcpos <= |source|
    }

    // Every position in the table of small strings lies before pos.
    ghost predicate TableBelow(pos: nat)
      reads smallTable
    {
      forall i :: 0 <= i < smallTable.Length ==> smallTable[i] <= pos
    }

    // Between matches: one of minMatch bytes here ends beyond all queued ones.
    ghost predicate Searching()
      reads this
    {
      Valid() && Before(iopt, inputPosition, inputPosition + minMatch)
    }

    // A match of n bytes from the input position has been queued.
    ghost predicate Queued(n: nat)
      reads this
    {
      && Valid() && n >= MIN_MATCH && inputPosition + n <= |nextIn|
      && iopt != [] && iopt[|iopt| - 1].pos <= inputPosition && LastMatched(iopt) == inputPosition + n
    }

    constructor (input: seq<byte>, hasSource: bool, source: seq<byte>, blksize: nat, smallTable: array<nat>,
                 smallPrev: array<nat>, smallHash: nat -> nat, largeTable: nat -> nat, cksumPos: nat -> nat,
                 maxWinsize: nat, matchState: MatchState, matchSrcpos: nat, matchLastSrcpos: nat)
      requires blksize > 0 && smallTable.Length > 0 && smallPrev.Length > 0 && smallTable != smallPrev
      requires (forall p :: largeTable(p) <= |source|) && matchSrcpos <= |source|
      requires matchState in {MatchTarget, MatchSearching}
      requires forall i :: 0 <= i < smallTable.Length ==> smallTable[i] == 0
      ensures Searching() && TableBelow(0) && iopt == [] && inputPosition == 0 && matchMaxaddr == 0
      ensures nextIn == input && this.hasSource == hasSource && this.source == source && this.blksize == blksize
      ensures this.smallTable == smallTable && this.smallPrev == smallPrev && this.matchState == matchState
      ensures this.matchSrcpos == matchSrcpos
    {
      nextIn, this.hasSource, this.source, this.blksize := input, hasSource, source, blksize;
      this.smallTable, this.smallPrev := smallTable, smallPrev;
      this.smallHash, this.largeTable, this.cksumPos, this.maxWinsize := smallHash, largeTable, cksumPos, maxWinsize;
      iopt, inputPosition, minMatch := [], 0, MIN_MATCH;
      this.matchState, this.matchSrcpos, this.matchLastSrcpos := matchState, matchSrcpos, matchLastSrcpos;
      matchMaxback, matchMaxfwd, matchBack, matchFwd, matchMinaddr, matchMaxaddr := 0, 0, 0, 0, 0, 0;
    }

    // ---------- source matches ----------

    // How far a source match may extend: neither out of the window nor out of the
    // source.
    ghost predicate Bounded()
      reads this
    {
      && matchMaxback <= inputPosition && matchMaxback <= matchSrcpos
      && inputPosition + matchMaxfwd <= |nextIn| && matchSrcpos + matchMaxfwd <= |source|
    }

    // xd3_source_match_setup, before any source window is decided.
    method SourceMatchSetup(srcpos: nat) returns (ok: bool)
      requires Valid() && inputPosition < |nextIn| && srcpos <= |source|
      modifies this`matchMaxback, this`matchMaxfwd, this`matchBack, this`matchFwd, this`matchState,
               this`matchSrcpos, this`matchLastSrcpos
      ensures Valid() && Bounded() && matchBack == matchFwd == 0
      ensures ok ==> matchState == MatchBackward && matchSrcpos == srcpos
      ensures ok ==> matchMaxback == Min(inputPosition, srcpos)
      ensures ok ==> matchMaxfwd == Min(|nextIn| - inputPosition, |source| - srcpos)
      ensures !ok ==> matchMaxback == matchMaxfwd == 0 && matchState == MatchSearching
    {
      hide Good, Params;
      matchMaxback, matchMaxfwd, matchBack, matchFwd := 0, 0, 0, 0;
      var srcwinCksumPos := cksumPos(inputPosition);
      if (srcpos != 0 && srcpos == matchLastSrcpos)
         || (srcpos < srcwinCksumPos && srcwinCksumPos - srcpos > maxWinsize) {
        matchState := MatchSearching;
        matchLastSrcpos := srcpos;
        return false;
      }
      matchMaxback := inputPosition;
      matchMaxfwd := |nextIn| - inputPosition;
      if srcpos < matchMaxback {
        matchMaxback := srcpos;
      }
      var srcavail := |source| - srcpos;
      if srcavail < matchMaxfwd {
        matchMaxfwd := srcavail;
      }
      matchState := MatchBackward;
      matchSrcpos := srcpos;
      matchLastSrcpos := srcpos;
      return true;
    }

    // xd3_source_extend_match: extend a candidate both ways, erase what it covers,
    // and queue it if it is long enough.
    method SourceExtendMatch()
      requires Searching() && Bounded() && matchBack == matchFwd == 0 && hasSource
      modifies this`matchBack, this`matchFwd, this`matchState, this`matchSrcpos, this`iopt,
               this`matchMinaddr, this`matchMaxaddr
      ensures matchState in {MatchTarget, MatchSearching}
      ensures if matchFwd > 0 then Queued(matchFwd) else Searching() && iopt == old(iopt)
      ensures matchMaxfwd == 0 || source[old(matchSrcpos)] != nextIn[inputPosition] ==> matchFwd == 0
    {
      hide Before, Good, Longest, Queued;
      assert blksize > 0;
      hide Truthful, Agree, Params, Block;
      if matchState == MatchBackward {
        matchBack := ExtendBackward(source, blksize, matchSrcpos, nextIn, inputPosition, matchMaxback);
        matchState := MatchForward;
      } else {
        NoneAgrees(source, matchSrcpos, nextIn, inputPosition);
      }
      matchFwd := ExtendForward(source, blksize, matchSrcpos, nextIn, inputPosition, matchMaxfwd);
      matchState := MatchSearching;
      if matchFwd < minMatch {
        matchFwd := 0;
      } else {
        QueueSource();
      }
    }

    // A source match long enough to use.
    method QueueSource()
      requires Searching() && hasSource && matchFwd >= minMatch && matchState == MatchSearching
      requires matchBack <= matchSrcpos && matchBack <= inputPosition
      requires Agree(source, matchSrcpos - matchBack, nextIn, inputPosition - matchBack, matchBack)
      requires Agree(source, matchSrcpos, nextIn, inputPosition, matchFwd)
      modifies this`matchBack, this`matchState, this`matchSrcpos, this`iopt, this`matchMinaddr, this`matchMaxaddr
      ensures matchState in {MatchTarget, MatchSearching}
      ensures Queued(matchFwd)
    {
      hide Good, Truthful, Agree, Params;
      var targetPosition, matchLength := inputPosition - matchBack, matchBack + matchFwd;
      var matchPosition, matchEnd := matchSrcpos - matchBack, matchSrcpos + matchFwd;
      var r := RInst(XD3_CPY, 1, 0, 0, targetPosition, matchLength, matchPosition);
      ghost var q, minaddr, maxaddr, back := iopt, matchMinaddr, matchMaxaddr, matchBack;
      if matchBack > 0 {
        iopt := IoptErase(iopt, targetPosition);
      }
      matchBack := 0;
      if matchMaxaddr == 0 || matchPosition < matchMinaddr {
        matchMinaddr := matchPosition;
      }
      if matchEnd > matchMaxaddr {
        matchMaxaddr := matchEnd;
      }
      AddSource(nextIn, source, minaddr, maxaddr, q, iopt, r, minMatch, back, matchFwd, matchMinaddr, matchMaxaddr);
      iopt := iopt + [r];
      assert iopt[|iopt| - 1] == r;
      if targetPosition + matchLength == |nextIn| {
        matchState := MatchTarget;
        matchSrcpos := matchEnd;
      }
    }

    // ---------- small matches and runs ----------

    // xd3_smatch: the best of a chain of earlier positions with the same hash. The
    // chain may say anything; each position it gives is before the last.
    method SMatch(entry: nat) returns (matchLength: nat, matchOffset: nat)
      requires Params() && 0 < entry <= inputPosition < |nextIn|
      ensures matchLength > 0 ==>
                matchOffset < inputPosition
                && Longest(nextIn, inputPosition, nextIn, matchOffset, |nextIn| - inputPosition, matchLength)
    {
      matchLength, matchOffset := 0, 0;
      var chain := if minMatch == MIN_MATCH then SCHAIN else SLCHAIN;
      var base := entry - HASH_CKOFFSET;
      while true
        invariant 0 <= base < inputPosition && chain > 0
        invariant matchLength > 0 ==>
                    matchOffset < inputPosition
                    && Longest(nextIn, inputPosition, nextIn, matchOffset, |nextIn| - inputPosition, matchLength)
        decreases chain
      {
        var inp, ref := inputPosition, base;
        while inp < |nextIn| && nextIn[inp] == nextIn[ref]
          invariant inputPosition <= inp <= |nextIn| && ref == base + (inp - inputPosition)
          invariant Agree(nextIn, inputPosition, nextIn, base, inp - inputPosition)
        {
          inp, ref := inp + 1, ref + 1;
        }
        var cmpLen := inp - inputPosition;
        if cmpLen > matchLength {
          matchLength, matchOffset := cmpLen, base;
          if inp == |nextIn| || cmpLen >= LONGENOUGH {
            break;
          }
        }
        chain := chain - 1;
        if chain == 0 {
          break;
        }
        var prevPos := smallPrev[base % smallPrev.Length];
        if prevPos == 0 {
          break;
        }
        prevPos := prevPos - HASH_CKOFFSET;
        if prevPos > base {
          break;
        }
        base := prevPos;
        if inputPosition - base >= smallPrev.Length {
          break;
        }
      }
      // Short matches from far away cost more than they save.
      if matchLength == 4 && inputPosition - matchOffset >= 0x4000 {
        return 0, matchOffset;
      }
      if matchLength == 5 && inputPosition - matchOffset >= 0x20_0000 {
        return 0, matchOffset;
      }
    }

    // xd3_scksum_insert.
    method ScksumInsert(inx: nat)
      requires Params() && inx < smallTable.Length && TableBelow(inputPosition)
      modifies smallTable, smallPrev
      ensures TableBelow(inputPosition + 1)
    {
      smallPrev[inputPosition % smallPrev.Length] := smallTable[inx];
      smallTable[inx] := inputPosition + HASH_CKOFFSET;
    }

    // xd3_emit_run and xd3_found_match.
    method FoundMatch(r: RInst)
      requires Searching() && Truthful(nextIn, source, r) && InRange(hasSource, matchMinaddr, matchMaxaddr, r)
      requires r.pos == inputPosition && r.size >= minMatch
      modifies this`iopt
      ensures Queued(r.size) && iopt == old(iopt) + [r]
    {
      hide Truthful, InRange, Ordered, Sized, AllTruthful, AllInRange;
      PushGood(nextIn, hasSource, source, matchMinaddr, matchMaxaddr, iopt, r);
      TruthfulEnds(nextIn, source, r);
      iopt := iopt + [r];
      assert iopt[|iopt| - 1] == r;
    }

    // At the start of a window that is one long run.
    ghost predicate RunAhead(runl: nat, runc: byte)
      reads this
    {
      && |nextIn| >= MAXLAZY && Uniform(nextIn) && inputPosition == 0 && minMatch == MIN_MATCH
      && runl == SLOOK && runc == nextIn[0]
    }

    // The RUN part of the match loop: returns the length of a queued run, or zero.
    method TryRun(runl0: nat, runc: byte) returns (mlen: nat, runl: nat)
      requires Searching() && RunState(nextIn, inputPosition, runl0, runc)
      modifies this`iopt
      ensures RunState(nextIn, inputPosition, runl, runc)
      ensures if mlen > 0 then Queued(mlen) else Searching()
      ensures RunAhead(runl0, runc) ==> mlen == |nextIn| && iopt == old(iopt) + [WholeRun(nextIn)]
    {
      mlen, runl := 0, runl0;
      if runl == SLOOK {
        var maxLen := |nextIn| - inputPosition;
        while runl < maxLen && nextIn[inputPosition + runl] == runc
          invariant SLOOK <= runl <= maxLen
          invariant forall k :: inputPosition <= k < inputPosition + runl ==> nextIn[k] == runc
        {
          runl := runl + 1;
        }
        if runl >= minMatch && runl >= MIN_RUN {
          FoundMatch(RInst(XD3_RUN, runc, 0, 0, inputPosition, runl, 0));
          mlen := runl;
        }
      }
    }

    // The source part.
    method TrySource() returns (mlen: nat)
      requires Searching() && inputPosition < |nextIn|
      modifies this
      ensures inputPosition == old(inputPosition) && minMatch == old(minMatch)
      ensures old(matchState) in {MatchTarget, MatchSearching} ==> matchState in {MatchTarget, MatchSearching}
      ensures if mlen > 0 then Queued(mlen) else Searching()
    {
      mlen := 0;
      if hasSource && inputPosition + LLOOK <= |nextIn| {
        var entry := largeTable(inputPosition);
        if entry != 0 {
          var ok := SourceMatchSetup(entry - HASH_CKOFFSET);
          if ok {
            SourceExtendMatch();
            mlen := matchFwd;
          }
        }
      }
    }

    // The target part.
    method TrySmall() returns (mlen: nat)
      requires Searching() && inputPosition < |nextIn| && TableBelow(inputPosition)
      modifies this`iopt, smallTable, smallPrev
      ensures TableBelow(inputPosition + 1)
      ensures if mlen > 0 then Queued(mlen) else Searching()
    {
      var sinx := smallHash(inputPosition) % smallTable.Length;
      var matchLength, matchOffset := 0, 0;
      if smallTable[sinx] != 0 {
        matchLength, matchOffset := SMatch(smallTable[sinx]);
      }
      ScksumInsert(sinx);
      mlen := 0;
      if matchLength >= minMatch {
        var r := RInst(XD3_CPY, 0, 0, 0, inputPosition, matchLength, matchOffset);
        TargetTruthful(nextIn, source, r);
        FoundMatch(r);
        mlen := matchLength;
      }
    }

    // The three kinds of match at one position, in the order they are tried.
    method TryMatches(runl0: nat, runc: byte) returns (mlen: nat, runl: nat)
      requires Searching() && RunState(nextIn, inputPosition, runl0, runc) && TableBelow(inputPosition)
      requires matchState in {MatchTarget, MatchSearching}
      modifies this, smallTable, smallPrev
      ensures inputPosition == old(inputPosition) && minMatch == old(minMatch) && TableBelow(inputPosition + 1)
      ensures RunState(nextIn, inputPosition, runl, runc) && matchState in {MatchTarget, MatchSearching}
      ensures if mlen > 0 then Queued(mlen) else Searching()
      ensures old(RunAhead(runl0, runc)) ==> mlen == |nextIn| && iopt == old(iopt) + [WholeRun(nextIn)]
    {
      assert TableBelow(inputPosition + 1);
      mlen, runl := TryRun(runl0, runc);
      if mlen == 0 {
        mlen := TrySource();
        if mlen == 0 {
          mlen := TrySmall();
        }
      }
    }

    // Where a window that is one long run starts.
    ghost predicate RunStart()
      reads this
    {
      |nextIn| >= MAXLAZY && Uniform(nextIn) && inputPosition == 0 && iopt == []
    }

    // xd3_string_match: from the label restartloop until a match is found that is
    // long enough not to look for a better one; or the window ends.
    method ScanOn() returns (ended: bool)
      requires Searching() && TableBelow(inputPosition) && matchState in {MatchTarget, MatchSearching}
      requires inputPosition + SLOOK <= |nextIn|
      modifies this, smallTable, smallPrev
      ensures Valid() && matchState in {MatchTarget, MatchSearching}
      ensures !ended ==> Searching() && TableBelow(inputPosition) && inputPosition > old(inputPosition)
      ensures old(RunStart()) ==> !ended && inputPosition == |nextIn| && iopt == [WholeRun(nextIn)]
    {
      hide Good, RunState, TableBelow, Params, Uniform;
      ghost var restart, run := inputPosition, RunStart();
      var lastMatched := LastMatched(iopt);
      minMatch := if lastMatched > inputPosition then Max(MIN_MATCH, 1 + lastMatched - inputPosition) else MIN_MATCH;
      var runl, runc := CompRun(nextIn, inputPosition);
      while true
        invariant Searching() && TableBelow(inputPosition) && matchState in {MatchTarget, MatchSearching}
        invariant RunState(nextIn, inputPosition, runl, runc) && restart <= inputPosition
        invariant inputPosition + SLOOK <= |nextIn|
        invariant run ==> RunAhead(runl, runc) && iopt == []
        decreases |nextIn| - inputPosition
      {
        var mlen;
        mlen, runl := TryMatches(runl, runc);
        TableHigher(inputPosition + 1, inputPosition + Max(mlen, 1));
        if mlen > 0 {
          if mlen < MAXLAZY && inputPosition + mlen <= |nextIn| - 2 {
            minMatch := mlen;
          } else {
            inputPosition := inputPosition + mlen;
            return false;
          }
        } else if minMatch > MIN_MATCH {
          minMatch := minMatch - 1;
        }
        if inputPosition + SLOOK == |nextIn| {
          return true;
        }
        NextRunState(nextIn, inputPosition, runl, runc);
        runl, runc := NextRun(nextIn[inputPosition + SLOOK], runl, runc);
        inputPosition := inputPosition + 1;
      }
    }

    // The whole of xd3_string_match.
    method StringMatch()
      requires Searching() && TableBelow(inputPosition) && matchState in {MatchTarget, MatchSearching}
      modifies this, smallTable, smallPrev
      ensures Valid() && matchState in {MatchTarget, MatchSearching}
      ensures old(RunStart()) ==> iopt == [WholeRun(nextIn)]
    {
      hide Good, TableBelow, Params, Uniform;
      ghost var run := RunStart();
      while inputPosition + SLOOK <= |nextIn|
        invariant Searching() && TableBelow(inputPosition) && matchState in {MatchTarget, MatchSearching}
        invariant run ==> RunStart() || (inputPosition == |nextIn| > 0 && iopt == [WholeRun(nextIn)])
        decreases |nextIn| - inputPosition
      {
        var ended := ScanOn();
        if ended {
          return;
        }
      }
    }

    lemma TableHigher(pos: nat, pos': nat)
      requires TableBelow(pos) && pos <= pos'
      ensures TableBelow(pos')
    {
    }

    // ENC_SEARCH: first try to go on with a match that reached the end of the window
    // before, then scan. Every instruction queued is true of the input.
    method Search()
      requires Searching() && TableBelow(0) && iopt == [] && inputPosition == 0
      requires matchState in {MatchTarget, MatchSearching}
      modifies this, smallTable, smallPrev
      ensures Good(nextIn, hasSource, source, matchMinaddr, matchMaxaddr, iopt)
      ensures old(matchSrcpos) == 0 && LoneRun(nextIn, source) ==> iopt == [WholeRun(nextIn)]
      ensures matchSrcpos <= |source| && matchState in {MatchTarget, MatchSearching}
    {
      hide Good;
      if hasSource && matchState == MatchTarget {
        if nextIn != [] {
          var ok := SourceMatchSetup(matchSrcpos);
          matchState := MatchForward;
          SourceExtendMatch();
          inputPosition := inputPosition + matchFwd;
        } else {
          matchState := MatchSearching;
          matchFwd := 0;
        }
      }
      if nextIn != [] {
        StringMatch();
      }
    }
  }

  // One more byte of the window.
  lemma NextRunState(input: seq<byte>, pos: nat, runl: nat, runc: byte)
    requires RunState(input, pos, runl, runc) && pos + SLOOK < |input|
    ensures var c := input[pos + SLOOK];
            if c == runc then RunState(input, pos + 1, runl + 1, c) else RunState(input, pos + 1, 1, c)
  {
  }

  lemma TruthfulEnds(input: seq<byte>, source: seq<byte>, r: RInst)
    requires Truthful(input, source, r)
    ensures r.End() <= |input|
  {
  }

  lemma TargetTruthful(input: seq<byte>, source: seq<byte>, r: RInst)
    requires r.typ == XD3_CPY && r.xtra == 0 && r.size > 0 && r.addr < r.pos
    requires Agree(input, r.pos, input, r.addr, r.size)
    ensures Truthful(input, source, r)
  {
  }

  // A source match that extends back covers the end of the queue, and replaces it.
  lemma AddSource(input: seq<byte>, source: seq<byte>, minaddr: nat, maxaddr: nat, q: seq<RInst>, kept: seq<RInst>,
                  r: RInst, minMatch: nat, back: nat, fwd: nat, minaddr': nat, maxaddr': nat)
    requires Good(input, true, source, minaddr, maxaddr, q) && fwd >= minMatch >= MIN_MATCH
    requires Before(q, r.pos + back, r.pos + back + minMatch)
    requires kept <= q && (kept != [] ==> kept[|kept| - 1].pos < r.pos)
    requires r.typ == XD3_CPY && r.xtra != 0 && r.size == back + fwd
    requires Agree(source, r.addr, input, r.pos, back) && Agree(source, r.addr + back, input, r.pos + back, fwd)
    requires minaddr' == if maxaddr == 0 || r.addr < minaddr then r.addr else minaddr
    requires maxaddr' == if r.addr + r.size > maxaddr then r.addr + r.size else maxaddr
    ensures Good(input, true, source, minaddr', maxaddr', kept + [r]) && LastMatched(kept + [r]) == r.pos + r.size
    ensures r.pos + r.size <= |input| && r.addr + r.size <= |source|
  {
    SourceTruthful(input, source, r, back, fwd);
    hide Truthful, Ordered, Sized, AllTruthful, AllInRange, Agree;
    PrefixGood(input, true, source, minaddr, maxaddr, q, |kept|);
    assert kept == q[..|kept|];
    WidenGood(input, true, source, minaddr, maxaddr, kept, minaddr', maxaddr');
    assert Before(q[..|kept|], r.pos + back, r.pos + back + minMatch);
    PushGood(input, true, source, minaddr', maxaddr', kept, r);
  }

  lemma NoneAgrees(source: seq<byte>, srcpos: nat, input: seq<byte>, pos: nat)
    requires srcpos <= |source| && pos <= |input|
    ensures Agree(source, srcpos, input, pos, 0)
  {
  }

  // What extending both ways finds is a truthful copy.
  lemma SourceTruthful(input: seq<byte>, source: seq<byte>, r: RInst, back: nat, fwd: nat)
    requires r.typ == XD3_CPY && r.xtra != 0 && r.size == back + fwd > 0
    requires Agree(source, r.addr, input, r.pos, back) && Agree(source, r.addr + back, input, r.pos + back, fwd)
    ensures Truthful(input, source, r)
  {
    forall k | 0 <= k < r.size
      ensures input[r.pos..r.End()][k] == source[r.addr..r.addr + r.size][k]
    {
      assert source[r.addr + k] == input[r.pos + k];
    }
  }
}
