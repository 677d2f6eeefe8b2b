// The queue of candidate instructions and its compaction on a forced flush
// (xd3_iopt_flush_instructions, first loop).
module Optimizer {
  import opened Bytes
  import opened CodeTable

  const MAX_MATCH_SPLIT: nat := 18

  // xd3_rinst. xtra is the run byte of a RUN, and for a COPY non-zero when it
  // copies from the source.
  datatype RInst = RInst(typ: nat, xtra: byte, code1: byte, code2: byte, pos: nat, size: nat, addr: nat) {

    function End(): nat {
      pos + size
    }
  }

  // The instruction describes the input: a run of one byte, or a copy that agrees
  // byte for byte with the source or with earlier input.
  ghost predicate Truthful(input: seq<byte>, source: seq<byte>, r: RInst) {
    && r.size > 0 && r.End() <= |input|
    && (if r.typ == XD3_RUN then forall k :: r.pos <= k < r.End() ==> input[k] == r.xtra
        else if r.typ == XD3_CPY then
          if r.xtra != 0 then
            r.addr + r.size <= |source| && input[r.pos..r.End()] == source[r.addr..r.addr + r.size]
          else
            r.addr < r.pos && forall k :: r.pos <= k < r.End() ==> input[k] == input[k - (r.pos - r.addr)]
        else false)
  }

  ghost predicate AllTruthful(input: seq<byte>, source: seq<byte>, q: seq<RInst>) {
    forall i :: 0 <= i < |q| ==> Truthful(input, source, q[i])
  }

  // Source copies lie between the lowest and highest matched source address.
  ghost predicate InRange(hasSource: bool, minaddr: nat, maxaddr: nat, r: RInst) {
    r.typ == XD3_CPY && r.xtra != 0 ==> hasSource && minaddr <= r.addr && r.addr + r.size <= maxaddr
  }

  ghost predicate AllInRange(hasSource: bool, minaddr: nat, maxaddr: nat, q: seq<RInst>) {
    forall i :: 0 <= i < |q| ==> InRange(hasSource, minaddr, maxaddr, q[i])
  }

  // Starts and ends both strictly increase; matches may overlap.
  ghost predicate Ordered(q: seq<RInst>) {
    forall i, j :: 0 <= i < j < |q| ==> q[i].pos < q[j].pos && q[i].End() < q[j].End()
  }

  ghost predicate Sized(q: seq<RInst>) {
    forall i :: 0 <= i < |q| ==> q[i].size >= MIN_MATCH
  }

  ghost predicate Disjoint(q: seq<RInst>) {
    forall i, j :: 0 <= i < j < |q| ==> q[i].End() <= q[j].pos
  }

  // p is r with some bytes cut off its two ends.
  ghost predicate PartOf(p: RInst, r: RInst) {
    p.typ == r.typ && p.xtra == r.xtra && p.size > 0
    && r.pos <= p.pos && p.End() <= r.End() && p.addr == r.addr + (p.pos - r.pos)
  }

  ghost predicate PartOfSome(p: RInst, q: seq<RInst>) {
    exists i :: 0 <= i < |q| && PartOf(p, q[i])
  }

  // How two overlapping matches are cut to meet: the new size of the first.
  function CutFirst(r1: RInst, r2: RInst): (size: int) {
    var gap := r2.End() - r1.pos;
    var newsize := Min(MAX_MATCH_SPLIT, gap - gap / 2);
    if newsize > r1.size then r1.size
    else if newsize > r2.size then r2.pos - r1.pos
    else Max(newsize, r2.pos - r1.pos)
  }

  function CutSecond(r1: RInst, r2: RInst): RInst
    requires r2.pos <= r1.pos + CutFirst(r1, r2) <= r2.End()
  {
    var d := r1.pos + CutFirst(r1, r2) - r2.pos;
    r2.(pos := r2.pos + d, size := r2.size - d, addr := r2.addr + d)
  }

  // Overlap almost entire: only the longer of the two is used.
  predicate KeepOne(r1: RInst, r2: RInst) {
    r2.End() - r1.pos < 2 * MIN_MATCH || r2.End() - r1.End() <= 2 || r2.pos - r1.pos <= 2
  }

  predicate Overlaps(r1: RInst, r2: RInst) {
    r1.pos < r2.pos < r1.End() < r2.End()
  }

  // Cutting two overlapping matches makes them meet or leaves the overlap to
  // neither, each at least MIN_MATCH long.
  lemma CutsFit(r1: RInst, r2: RInst)
    requires r1.size >= MIN_MATCH && r2.size >= MIN_MATCH
    requires Overlaps(r1, r2) && !KeepOne(r1, r2)
    ensures MIN_MATCH <= CutFirst(r1, r2) <= r1.size
    ensures r2.pos <= r1.pos + CutFirst(r1, r2) <= r2.End() - MIN_MATCH
  {
  }

  // The compacted queue.
  function Trim(q: seq<RInst>): (t: seq<RInst>)
    requires Ordered(q) && Sized(q)
    decreases |q|, if |q| < 2 || q[0].End() <= q[1].pos then 0 else 1
  {
    if |q| < 2 then q
    else if q[0].End() <= q[1].pos then [q[0]] + Trim(q[1..])
    else if |q| > 2 && q[2].pos <= q[0].End() + 1 then Trim([q[0]] + q[2..])
    else if KeepOne(q[0], q[1]) then
      if q[0].size < q[1].size then Trim(q[1..]) else [q[0]] + Trim(q[2..])
    else
      CutsFit(q[0], q[1]);
      [q[0].(size := CutFirst(q[0], q[1]))] + Trim([CutSecond(q[0], q[1])] + q[2..])
  }

  // t is disjoint and made of parts of q, none starting before the first of q.
  ghost predicate Compacts(q: seq<RInst>, t: seq<RInst>) {
    && Disjoint(t) && Sized(t) && (q != [] <==> t != [])
    && forall i :: 0 <= i < |t| ==> q != [] && PartOfSome(t[i], q) && q[0].pos <= t[i].pos
  }

  // Every instruction of q' is a part of one of q.
  ghost predicate Covered(q: seq<RInst>, q': seq<RInst>) {
    forall k :: 0 <= k < |q'| ==> PartOfSome(q'[k], q) && q != [] && q[0].pos <= q'[k].pos
  }

  // Compaction leaves disjoint instructions of at least MIN_MATCH bytes, each a
  // part of a queued one.
  lemma {:induction false} TrimCompacts(q: seq<RInst>)
    requires Ordered(q) && Sized(q)
    ensures Compacts(q, Trim(q))
    decreases |q|, if |q| < 2 || q[0].End() <= q[1].pos then 0 else 1
  {
    hide Compacts, Ordered, Sized;
    if |q| < 2 {
      Singleton(q);
    } else if q[0].End() <= q[1].pos {
      Tail(q, 1);
      TrimCompacts(q[1..]);
      Extend(q, q[0], q[1..], Trim(q[1..]));
    } else if |q| > 2 && q[2].pos <= q[0].End() + 1 {
      DropSecond(q);
      TrimCompacts([q[0]] + q[2..]);
      Weaken(q, [q[0]] + q[2..], Trim([q[0]] + q[2..]));
    } else if KeepOne(q[0], q[1]) {
      if q[0].size < q[1].size {
        Tail(q, 1);
        TrimCompacts(q[1..]);
        Weaken(q, q[1..], Trim(q[1..]));
      } else {
        Tail(q, 2);
        TrimCompacts(q[2..]);
        Extend(q, q[0], q[2..], Trim(q[2..]));
      }
    } else {
      CutBoth(q);
      var r1, q' := q[0].(size := CutFirst(q[0], q[1])), [CutSecond(q[0], q[1])] + q[2..];
      TrimCompacts(q');
      Extend(q, r1, q', Trim(q'));
    }
  }

  lemma Singleton(q: seq<RInst>)
    requires |q| < 2 && Sized(q)
    ensures Compacts(q, q)
  {
    if q != [] {
      assert PartOf(q[0], q[0]);
      assert PartOfSome(q[0], q);
      assert forall i :: 0 <= i < |q| ==> q[i] == q[0];
    }
  }

  lemma Tail(q: seq<RInst>, n: nat)
    requires Ordered(q) && Sized(q) && 0 < n <= |q|
    ensures Ordered(q[n..]) && Sized(q[n..]) && Covered(q, q[n..]) && PartOf(q[0], q[0]) && q[0].size >= MIN_MATCH
  {
    var q' := q[n..];
    forall k | 0 <= k < |q'|
      ensures PartOfSome(q'[k], q)
    {
      assert PartOf(q'[k], q[n + k]);
    }
  }

  lemma DropSecond(q: seq<RInst>)
    requires Ordered(q) && Sized(q) && |q| > 2
    ensures var q' := [q[0]] + q[2..];
            Ordered(q') && Sized(q') && Covered(q, q')
  {
    var q' := [q[0]] + q[2..];
    forall k | 0 <= k < |q'|
      ensures PartOfSome(q'[k], q) && q[0].pos <= q'[k].pos && q'[k].size >= MIN_MATCH
    {
      var m := if k == 0 then 0 else k + 1;
      assert q'[k] == q[m];
      assert PartOf(q[m], q[m]);
    }
    assert forall i, j :: 0 <= i < j < |q'| ==> q'[i].pos < q'[j].pos && q'[i].End() < q'[j].End();
  }

  lemma CutBoth(q: seq<RInst>)
    requires Ordered(q) && Sized(q) && |q| >= 2 && q[1].pos < q[0].End()
    requires |q| > 2 ==> q[0].End() + 1 < q[2].pos
    requires !KeepOne(q[0], q[1])
    ensures Overlaps(q[0], q[1])
    ensures MIN_MATCH <= CutFirst(q[0], q[1]) <= q[0].size
    ensures q[1].pos <= q[0].pos + CutFirst(q[0], q[1]) <= q[1].End() - MIN_MATCH
    ensures var r1, q' := q[0].(size := CutFirst(q[0], q[1])), [CutSecond(q[0], q[1])] + q[2..];
            Ordered(q') && Sized(q') && Covered(q, q') && PartOf(r1, q[0]) && r1.End() <= q'[0].pos
  {
    FirstTwo(q);
    CutsFit(q[0], q[1]);
    ReplaceSecond(q, CutSecond(q[0], q[1]));
    hide Ordered, Sized, Covered;
  }

  lemma ReplaceSecond(q: seq<RInst>, r: RInst)
    requires Ordered(q) && Sized(q) && |q| >= 2
    requires PartOf(r, q[1]) && r.End() == q[1].End() && r.size >= MIN_MATCH
    requires |q| > 2 ==> r.pos < q[2].pos
    ensures var q' := [r] + q[2..];
            Ordered(q') && Sized(q') && Covered(q, q')
  {
    var q' := [r] + q[2..];
    forall k | 0 <= k < |q'|
      ensures PartOfSome(q'[k], q) && q[0].pos <= q'[k].pos && q'[k].size >= MIN_MATCH
    {
      if k > 0 {
        assert q'[k] == q[k + 1];
      }
      assert PartOf(q'[k], q[k + 1]);
    }
    forall i, j | 0 <= i < j < |q'|
      ensures q'[i].pos < q'[j].pos && q'[i].End() < q'[j].End()
    {
      assert q'[j] == q[j + 1];
      assert q'[i].End() == q[i + 1].End();
      if i > 0 {
        assert q'[i] == q[i + 1];
      }
    }
  }

  lemma Weaken(q: seq<RInst>, q': seq<RInst>, t: seq<RInst>)
    requires q' != [] && Covered(q, q') && Compacts(q', t)
    ensures Compacts(q, t)
  {
    assert PartOfSome(q'[0], q) && q != [] && t != [];
    forall i | 0 <= i < |t|
      ensures PartOfSome(t[i], q) && q[0].pos <= t[i].pos
    {
      assert PartOfSome(t[i], q');
      var k :| 0 <= k < |q'| && PartOf(t[i], q'[k]);
      assert PartOfSome(q'[k], q);
      var j :| 0 <= j < |q| && PartOf(q'[k], q[j]);
      assert PartOf(t[i], q[j]);
    }
  }

  lemma Extend(q: seq<RInst>, r: RInst, q': seq<RInst>, t: seq<RInst>)
    requires q != [] && r.pos == q[0].pos && PartOf(r, q[0]) && r.size >= MIN_MATCH
    requires Covered(q, q') && (q' != [] ==> r.End() <= q'[0].pos)
    requires Compacts(q', t)
    ensures Compacts(q, [r] + t)
  {
    assert PartOfSome(r, q);
    if q' != [] {
      Weaken(q, q', t);
    }
  }

  // A part of a truthful instruction is truthful.
  lemma PartTruthful(input: seq<byte>, source: seq<byte>, p: RInst, r: RInst)
    requires Truthful(input, source, r) && PartOf(p, r)
    ensures Truthful(input, source, p)
  {
    if r.typ == XD3_CPY && r.xtra != 0 {
      var d := p.pos - r.pos;
      SliceOfSlice(input, r.pos, r.size, d, p.size);
      SliceOfSlice(source, r.addr, r.size, d, p.size);
    }
  }

  // Compaction keeps the queue truthful.
  lemma TrimTruthful(input: seq<byte>, source: seq<byte>, q: seq<RInst>)
    requires Ordered(q) && Sized(q) && AllTruthful(input, source, q)
    ensures AllTruthful(input, source, Trim(q))
  {
    TrimCompacts(q);
    var t := Trim(q);
    forall i | 0 <= i < |t|
      ensures Truthful(input, source, t[i])
    {
      assert PartOfSome(t[i], q);
      var j :| 0 <= j < |q| && PartOf(t[i], q[j]);
      PartTruthful(input, source, t[i], q[j]);
    }
  }

  // A queue without overlaps is left alone.
  lemma {:induction false} TrimIdle(q: seq<RInst>)
    requires Ordered(q) && Sized(q) && Disjoint(q)
    ensures Trim(q) == q
  {
    if |q| >= 2 {
      TrimIdle(q[1..]);
    }
  }

  // The steps of compaction, on a queue whose part before q is finished.
  lemma TrimApart(done: seq<RInst>, q: seq<RInst>)
    requires Ordered(q) && Sized(q) && |q| >= 2 && q[0].End() <= q[1].pos
    ensures Ordered(q[1..]) && Sized(q[1..]) && done + Trim(q) == done + [q[0]] + Trim(q[1..])
  {
    Tail(q, 1);
  }

  lemma TrimDrop(q: seq<RInst>)
    requires Ordered(q) && Sized(q) && |q| > 2 && q[1].pos < q[0].End() && q[2].pos <= q[0].End() + 1
    ensures var q' := [q[0]] + q[2..]; Ordered(q') && Sized(q') && Trim(q) == Trim(q')
  {
    DropSecond(q);
  }

  lemma TrimKeep(done: seq<RInst>, q: seq<RInst>)
    requires Ordered(q) && Sized(q) && |q| >= 2 && q[1].pos < q[0].End()
    requires !(|q| > 2 && q[2].pos <= q[0].End() + 1) && KeepOne(q[0], q[1])
    ensures if q[0].size < q[1].size then Ordered(q[1..]) && Sized(q[1..]) && Trim(q) == Trim(q[1..])
            else Ordered(q[2..]) && Sized(q[2..]) && done + Trim(q) == done + [q[0]] + Trim(q[2..])
  {
    hide Covered, PartOf, CutFirst, CutSecond, KeepOne;
    if q[0].size < q[1].size {
      Tail(q, 1);
    } else {
      Tail(q, 2);
      hide Ordered, Sized;
      Shift(done, q[0], Trim(q[2..]));
    }
  }

  lemma Shift(done: seq<RInst>, r: RInst, t: seq<RInst>)
    ensures done + ([r] + t) == done + [r] + t
  {
  }

  lemma TrimCut(done: seq<RInst>, q: seq<RInst>)
    requires Ordered(q) && Sized(q) && |q| >= 2 && q[1].pos < q[0].End()
    requires !(|q| > 2 && q[2].pos <= q[0].End() + 1) && !KeepOne(q[0], q[1])
    ensures q[0].size >= MIN_MATCH && q[1].size >= MIN_MATCH && Overlaps(q[0], q[1])
    ensures q[1].pos <= q[0].pos + CutFirst(q[0], q[1]) <= q[1].End() - MIN_MATCH && MIN_MATCH <= CutFirst(q[0], q[1])
    ensures var r1, q' := q[0].(size := CutFirst(q[0], q[1])), [CutSecond(q[0], q[1])] + q[2..];
            Ordered(q') && Sized(q') && done + Trim(q) == done + [r1] + Trim(q')
  {
    FirstTwo(q);
    CutBoth(q);
    TrimCutStep(q);
    hide *;
    Shift(done, q[0].(size := CutFirst(q[0], q[1])), Trim([CutSecond(q[0], q[1])] + q[2..]));
  }

  lemma TrimCutStep(q: seq<RInst>)
    requires Ordered(q) && Sized(q) && |q| >= 2 && q[1].pos < q[0].End()
    requires !(|q| > 2 && q[2].pos <= q[0].End() + 1) && !KeepOne(q[0], q[1])
    requires q[1].pos <= q[0].pos + CutFirst(q[0], q[1]) <= q[1].End() - MIN_MATCH && MIN_MATCH <= CutFirst(q[0], q[1])
    requires var q' := [CutSecond(q[0], q[1])] + q[2..]; Ordered(q') && Sized(q')
    ensures Trim(q) == [q[0].(size := CutFirst(q[0], q[1]))] + Trim([CutSecond(q[0], q[1])] + q[2..])
  {
    hide Ordered, Sized, CutFirst, KeepOne, CutSecond;
  }

  lemma FirstTwo(q: seq<RInst>)
    requires Ordered(q) && Sized(q) && |q| >= 2
    ensures q[0].size >= MIN_MATCH && q[1].size >= MIN_MATCH
    ensures q[0].pos < q[1].pos && q[0].End() < q[1].End()
  {
  }

  // The cut as the source computes it, by the number of bytes to take off.
  method Cut(i1: RInst, i2: RInst) returns (r1: RInst, r2: RInst)
    requires i1.size >= MIN_MATCH && i2.size >= MIN_MATCH && Overlaps(i1, i2) && !KeepOne(i1, i2)
    ensures i2.pos <= i1.pos + CutFirst(i1, i2) <= i2.End() && 0 <= CutFirst(i1, i2)
    ensures r1 == i1.(size := CutFirst(i1, i2)) && r2 == CutSecond(i1, i2)
  {
    CutsFit(i1, i2);
    r1, r2 := i1, i2;
    var r1end, r2end := r1.pos + r1.size, r2.pos + r2.size;
    var gap := r2end - r1.pos;
    var average := gap / 2;
    var newsize := Min(MAX_MATCH_SPLIT, gap - average);
    var adjust1;
    if newsize > r1.size {
      adjust1 := r1end - r2.pos;
    } else if newsize > r2.size {
      adjust1 := r1end - r2.pos;
      r1 := r1.(size := r1.size - adjust1);
      adjust1 := 0;
    } else {
      adjust1 := r1.size - newsize;
      if r2.pos > r1end - adjust1 {
        adjust1 := adjust1 - (r2.pos - (r1end - adjust1));
      }
      r1 := r1.(size := r1.size - adjust1);
      adjust1 := r1.pos + r1.size - r2.pos;
    }
    r2 := r2.(size := r2.size - adjust1, pos := r2.pos + adjust1, addr := r2.addr + adjust1);
  }

  // The first loop of xd3_iopt_flush_instructions; r1 is the place in the list
  // of the instruction the source calls r1.
  method Compact(queue: seq<RInst>) returns (used: seq<RInst>)
    requires Ordered(queue) && Sized(queue)
    ensures used == Trim(queue)
  {
    hide CutFirst, CutSecond;
    hide Trim, Ordered, Sized;
    used := queue;
    var r1 := 0;
    assert used[0..] == queue && used[..0] + Trim(queue) == Trim(queue);
    while r1 + 1 < |used|
      invariant 0 <= r1 <= |used|
      invariant Ordered(used[r1..]) && Sized(used[r1..])
      invariant used[..r1] + Trim(used[r1..]) == Trim(queue)
      decreases |used| - r1
    {
      ghost var q, done := used[r1..], used[..r1];
      var i1, i2 := used[r1], used[r1 + 1];
      assert q[0] == i1 && q[1] == i2;
      var r1end, r2end := i1.pos + i1.size, i2.pos + i2.size;
      if r1end <= i2.pos {
        TrimApart(done, q);
        r1 := r1 + 1;
        assert used[r1..] == q[1..] && used[..r1] == done + [i1];
      } else if r1 + 2 < |used| && used[r1 + 2].pos <= r1end + 1 {
        TrimDrop(q);
        used := used[..r1 + 1] + used[r1 + 2..];
        assert used[r1..] == [i1] + q[2..] && used[..r1] == done;
      } else if r2end - i1.pos < 2 * MIN_MATCH || r2end - r1end <= 2 || i2.pos - i1.pos <= 2 {
        TrimKeep(done, q);
        if i1.size < i2.size {
          used := used[..r1] + used[r1 + 1..];
          assert used[r1..] == q[1..] && used[..r1] == done;
        } else {
          used := used[..r1 + 1] + used[r1 + 2..];
          r1 := r1 + 1;
          assert used[r1..] == q[2..] && used[..r1] == done + [i1];
        }
      } else {
        TrimCut(done, q);
        i1, i2 := Cut(i1, i2);
        used := used[r1 := i1][r1 + 1 := i2];
        r1 := r1 + 1;
        assert used[r1..] == [i2] + q[2..] && used[..r1] == done + [i1];
      }
    }
    assert used == used[..r1] + used[r1..];
    TrimShort(used[r1..]);
  }

  lemma TrimShort(q: seq<RInst>)
    requires Ordered(q) && Sized(q) && |q| < 2
    ensures Trim(q) == q
  {
  }

  lemma TrimInRange(hasSource: bool, minaddr: nat, maxaddr: nat, q: seq<RInst>)
    requires Ordered(q) && Sized(q) && AllInRange(hasSource, minaddr, maxaddr, q)
    ensures AllInRange(hasSource, minaddr, maxaddr, Trim(q))
  {
    TrimCompacts(q);
    var t := Trim(q);
    forall i | 0 <= i < |t|
      ensures InRange(hasSource, minaddr, maxaddr, t[i])
    {
      assert PartOfSome(t[i], q);
      var j :| 0 <= j < |q| && PartOf(t[i], q[j]);
      assert InRange(hasSource, minaddr, maxaddr, q[j]);
    }
  }
}
