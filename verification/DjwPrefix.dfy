// Building prefix codes of bounded length (xdelta3-djw.h): a Huffman tree by merging
// the two least entries of the heap, started again with flatter frequencies while a
// code is too long.
module DjwPrefix {

  import opened Bytes
  import opened DjwHeap

  const ENTS: nat := 512        // 2 * ALPHABET_SIZE
  const ALPHABET: nat := 256

  // ---------- the forest built so far ----------

  // For each symbol in use the entry it is under and how far below it; and the least
  // frequency an entry of the heap can have.
  datatype Forest = Forest(root: seq<nat>, len: seq<nat>, low: nat)

  // Following parents for so many steps leads from one entry to the other.
  ghost predicate Chain(ents: seq<Entry>, size: nat, e: nat, steps: nat, r: nat)
    decreases steps
  {
    && e < size <= |ents|
    && if steps == 0 then e == r else ents[e].parent != 0 && Chain(ents, size, ents[e].parent, steps - 1, r)
  }

  // The part of the code space of entry e that the symbols under it take.
  function Share(root: seq<nat>, len: seq<nat>, k: nat, n: nat, e: nat): nat
    requires n <= |root| == |len|
  {
    if n == 0 then 0
    else Share(root, len, k, n - 1, e) + if root[n - 1] == e && len[n - 1] <= k then Power2(k - len[n - 1]) else 0
  }

  // The frequencies of the symbols under entry e.
  function Weigh(root: seq<nat>, weights: seq<nat>, n: nat, e: nat): nat
    requires n <= |root| == |weights|
  {
    if n == 0 then 0 else Weigh(root, weights, n - 1, e) + if root[n - 1] == e then weights[n - 1] else 0
  }

  // Fibonacci numbers, 1, 2, 3, 5 and so on: the least frequency of a tree so deep.
  function Fib(n: nat): (f: nat)
    ensures f >= 1
  {
    if n == 0 then 1 else if n == 1 then 2 else Fib(n - 1) + Fib(n - 2)
  }

  // An entry of the heap.
  ghost predicate Tip(ents: seq<Entry>, size: nat, weights: seq<nat>, f: Forest, e: nat) {
    && 1 <= e < size <= |ents| && |f.root| == |f.len| == |weights|
    && ents[e].parent == 0 && ents[e].freq > 0 && ents[e].freq >= f.low
    && ents[e].freq >= Fib(ents[e].depth) && (ents[e].depth >= 1 ==> f.low >= Fib(ents[e].depth - 1))
    && Share(f.root, f.len, |weights|, |weights|, e) == Power2(|weights|)
    && Weigh(f.root, weights, |weights|, e) == ents[e].freq
  }

  // A symbol in use, or not.
  ghost predicate Under(ents: seq<Entry>, size: nat, weights: seq<nat>, f: Forest, live: multiset<nat>, i: nat) {
    && i < |weights| == |f.root| == |f.len| && |weights| < size <= |ents| && ents[i + 1].freq == weights[i]
    && if weights[i] == 0 then f.root[i] == 0
       else
         && f.root[i] in live && f.root[i] < size && Chain(ents, size, i + 1, f.len[i], f.root[i])
         && f.len[i] <= ents[f.root[i]].depth && f.len[i] + |weights| < size
  }

  ghost predicate Grown(ents: seq<Entry>, size: nat, weights: seq<nat>, f: Forest, live: multiset<nat>) {
    && |f.root| == |f.len| == |weights| < size <= |ents|
    && (forall e {:trigger Tip(ents, size, weights, f, e)} :: e in live ==> live[e] == 1 && Tip(ents, size, weights, f, e))
    && (forall i {:trigger Under(ents, size, weights, f, live, i)} ::
          0 <= i < |weights| ==> Under(ents, size, weights, f, live, i))
    && (size > |weights| + 1 ==> size - 1 in live)
  }

  // ---------- merging two entries ----------

  function Merged(ents: seq<Entry>, size: nat, h1: nat, h2: nat): seq<Entry>
    requires h1 < size < |ents| && h2 < size
  {
    var top := Entry(1 + if ents[h1].depth > ents[h2].depth then ents[h1].depth else ents[h2].depth,
                     ents[h1].freq + ents[h2].freq, 0);
    var e1 := ents[size := top];
    var e2 := e1[h1 := e1[h1].(parent := size)];
    e2[h2 := e2[h2].(parent := size)]
  }

  function Joined(f: Forest, h1: nat, h2: nat, new_: nat, low: nat): (f': Forest)
    requires |f.root| == |f.len|
    ensures |f'.root| == |f'.len| == |f.root|
  {
    Forest(seq(|f.root|, i requires 0 <= i < |f.root| => if f.root[i] == h1 || f.root[i] == h2 then new_ else f.root[i]),
           seq(|f.len|, i requires 0 <= i < |f.len| => if f.root[i] == h1 || f.root[i] == h2 then f.len[i] + 1 else f.len[i]),
           low)
  }

  lemma {:induction false} ShareJoined(f: Forest, h1: nat, h2: nat, new_: nat, low: nat, k: nat, n: nat)
    requires n <= |f.root| == |f.len| && h1 != h2
    requires forall i :: 0 <= i < |f.root| ==> f.root[i] != new_ && (f.root[i] == h1 || f.root[i] == h2 ==> f.len[i] + 1 <= k)
    ensures var f' := Joined(f, h1, h2, new_, low);
            2 * Share(f'.root, f'.len, k, n, new_) == Share(f.root, f.len, k, n, h1) + Share(f.root, f.len, k, n, h2)
  {
    if n > 0 {
      ShareJoined(f, h1, h2, new_, low, k, n - 1);
      if f.root[n - 1] == h1 || f.root[n - 1] == h2 {
        assert Power2(k - f.len[n - 1]) == 2 * Power2(k - f.len[n - 1] - 1);
      }
    }
  }

  lemma {:induction false} ShareOthers(f: Forest, h1: nat, h2: nat, new_: nat, low: nat, k: nat, n: nat, e: nat)
    requires n <= |f.root| == |f.len| && e != h1 && e != h2 && e != new_
    ensures var f' := Joined(f, h1, h2, new_, low);
            Share(f'.root, f'.len, k, n, e) == Share(f.root, f.len, k, n, e)
  {
    if n > 0 {
      ShareOthers(f, h1, h2, new_, low, k, n - 1, e);
    }
  }

  lemma {:induction false} WeighJoined(f: Forest, w: seq<nat>, h1: nat, h2: nat, new_: nat, low: nat, n: nat, e: nat)
    requires n <= |f.root| == |f.len| == |w| && h1 != h2 && forall i :: 0 <= i < |f.root| ==> f.root[i] != new_
    ensures var f' := Joined(f, h1, h2, new_, low);
            && Weigh(f'.root, w, n, new_) == Weigh(f.root, w, n, h1) + Weigh(f.root, w, n, h2)
            && (e != h1 && e != h2 && e != new_ ==> Weigh(f'.root, w, n, e) == Weigh(f.root, w, n, e))
  {
    if n > 0 {
      WeighJoined(f, w, h1, h2, new_, low, n - 1, e);
    }
  }

  lemma {:induction false} ChainKept(ents: seq<Entry>, ents': seq<Entry>, size: nat, e: nat, steps: nat, r: nat)
    requires Chain(ents, size, e, steps, r) && |ents'| == |ents| && size < |ents|
    requires forall x :: 0 <= x < size && ents[x].parent != 0 ==> ents'[x].parent == ents[x].parent
    ensures Chain(ents', size + 1, e, steps, r)
    decreases steps
  {
    if steps > 0 {
      ChainKept(ents, ents', size, ents[e].parent, steps - 1, r);
    }
  }

  lemma {:induction false} ChainLonger(ents: seq<Entry>, size: nat, e: nat, steps: nat, r: nat)
    requires Chain(ents, size, e, steps, r) && r < |ents| && 0 < ents[r].parent < size
    ensures Chain(ents, size, e, steps + 1, ents[r].parent)
    decreases steps
  {
    if steps == 0 {
      assert Chain(ents, size, ents[e].parent, 0, ents[r].parent);
    } else {
      ChainLonger(ents, size, ents[e].parent, steps - 1, r);
    }
  }

  // Two entries taken from the heap, the least first, and merged into a new one.
  ghost predicate Merging(ents: seq<Entry>, size: nat, weights: seq<nat>, f: Forest, live: multiset<nat>, h1: nat, h2: nat) {
    && Grown(ents, size, weights, f, live) && size < |ents| && size < 2 * |weights|
    && h1 in live && h2 in live && h1 != h2 && h1 < size && h2 < size
    && ents[h1].freq <= ents[h2].freq
    && (forall e {:trigger Tip(ents, size, weights, f, e)} :: e in live && e != h1 ==> e < |ents| && ents[e].freq >= ents[h2].freq)
  }

  // The deeper a tree the heavier: the other entry weighs no less than the deeper
  // one's deeper child did.
  lemma TopHeavy(ents: seq<Entry>, size: nat, weights: seq<nat>, f: Forest, live: multiset<nat>, h1: nat, h2: nat)
    requires Merging(ents, size, weights, f, live, h1, h2)
    ensures var top := Merged(ents, size, h1, h2)[size];
            top.freq >= Fib(top.depth) && (top.depth >= 1 ==> ents[h2].freq >= Fib(top.depth - 1)) && top.freq >= ents[h2].freq
  {
    assert Tip(ents, size, weights, f, h1) && Tip(ents, size, weights, f, h2);
  }

  lemma MergedTip(ents: seq<Entry>, size: nat, weights: seq<nat>, f: Forest, live: multiset<nat>, h1: nat, h2: nat, e: nat)
    requires Merging(ents, size, weights, f, live, h1, h2)
    requires e == size || (e in live && e != h1 && e != h2)
    ensures Tip(Merged(ents, size, h1, h2), size + 1, weights, Joined(f, h1, h2, size, ents[h2].freq), e)
  {
    hide Fib, Share, Weigh;
    var low := ents[h2].freq;
    assert Tip(ents, size, weights, f, h1) && Tip(ents, size, weights, f, h2);
    RootsBelow(ents, size, weights, f, live);
    WeighJoined(f, weights, h1, h2, size, low, |weights|, e);
    if e == size {
      TopHeavy(ents, size, weights, f, live, h1, h2);
      ShareJoined(f, h1, h2, size, low, |weights|, |weights|);
    } else {
      assert Tip(ents, size, weights, f, e);
      ShareOthers(f, h1, h2, size, low, |weights|, |weights|, e);
    }
    hide Grown, Joined;
  }

  // No symbol is under an entry not made yet, and the longest chain is shorter than
  // the alphabet.
  lemma RootsBelow(ents: seq<Entry>, size: nat, weights: seq<nat>, f: Forest, live: multiset<nat>)
    requires Grown(ents, size, weights, f, live) && size < |ents|
    ensures forall i :: 0 <= i < |f.root| ==> f.root[i] < size && (f.root[i] != 0 ==> f.len[i] + |weights| < size)
  {
    forall i | 0 <= i < |f.root|
      ensures f.root[i] < size && (f.root[i] != 0 ==> f.len[i] + |weights| < size)
    {
      assert Under(ents, size, weights, f, live, i);
    }
  }

  lemma CountAfter(live: multiset<nat>, live': multiset<nat>, h1: nat, h2: nat, x: nat, e: nat)
    requires live' + multiset{h1} + multiset{h2} == live + multiset{x} && h1 != h2
    ensures live'[e] + (if e == h1 || e == h2 then 1 else 0) == live[e] + (if e == x then 1 else 0)
  {
    assert (live' + multiset{h1} + multiset{h2})[e] == (live + multiset{x})[e];
  }

  lemma MergedUnder(ents: seq<Entry>, size: nat, weights: seq<nat>, f: Forest, live: multiset<nat>, live': multiset<nat>,
                    h1: nat, h2: nat, i: nat)
    requires Merging(ents, size, weights, f, live, h1, h2) && i < |weights|
    requires live' + multiset{h1} + multiset{h2} == live + multiset{size}
    ensures Under(Merged(ents, size, h1, h2), size + 1, weights, Joined(f, h1, h2, size, ents[h2].freq), live', i)
  {
    assert Under(ents, size, weights, f, live, i);
    assert Tip(ents, size, weights, f, h1) && Tip(ents, size, weights, f, h2);
    CountAfter(live, live', h1, h2, size, size);
    CountAfter(live, live', h1, h2, size, f.root[i]);
    hide Tip, Grown;
    var ents' := Merged(ents, size, h1, h2);
    if weights[i] > 0 {
      ChainKept(ents, ents', size, i + 1, f.len[i], f.root[i]);
      if f.root[i] == h1 || f.root[i] == h2 {
        ChainLonger(ents', size + 1, i + 1, f.len[i], f.root[i]);
      }
    }
  }

  // Merging keeps everything.
  lemma MergeKeeps(ents: seq<Entry>, size: nat, weights: seq<nat>, f: Forest, live: multiset<nat>, live': multiset<nat>,
                   h1: nat, h2: nat)
    requires Merging(ents, size, weights, f, live, h1, h2)
    requires live' + multiset{h1} + multiset{h2} == live + multiset{size}
    ensures Grown(Merged(ents, size, h1, h2), size + 1, weights, Joined(f, h1, h2, size, ents[h2].freq), live')
  {
    var ents', f' := Merged(ents, size, h1, h2), Joined(f, h1, h2, size, ents[h2].freq);
    CountAfter(live, live', h1, h2, size, size);
    assert |f'.root| == |f'.len| == |weights| < size + 1 <= |ents'| && size in live';
    hide Merging, Merged, Joined, Tip, Under;
    forall e: nat | e in live'
      ensures live'[e] == 1 && Tip(ents', size + 1, weights, f', e)
    {
      LiveAfter(ents, size, weights, f, live, live', h1, h2, e);
      MergedTip(ents, size, weights, f, live, h1, h2, e);
    }
    forall i {:trigger Under(ents', size + 1, weights, f', live', i)} | 0 <= i < |weights|
      ensures Under(ents', size + 1, weights, f', live', i)
    {
      MergedUnder(ents, size, weights, f, live, live', h1, h2, i);
    }
  }

  lemma LiveAfter(ents: seq<Entry>, size: nat, weights: seq<nat>, f: Forest, live: multiset<nat>, live': multiset<nat>,
                  h1: nat, h2: nat, e: nat)
    requires Merging(ents, size, weights, f, live, h1, h2) && e in live'
    requires live' + multiset{h1} + multiset{h2} == live + multiset{size}
    ensures live'[e] == 1 && (e == size || (e in live && e != h1 && e != h2))
  {
    CountAfter(live, live', h1, h2, size, e);
    assert size !in live by {
      assert size in live ==> Tip(ents, size, weights, f, size);
    }
    assert live[e] > 0 ==> Tip(ents, size, weights, f, e);
    assert live[h1] == 1 && live[h2] == 1 by {
      assert Tip(ents, size, weights, f, h1) && Tip(ents, size, weights, f, h2);
    }
    hide Tip;
  }

  // ---------- the first heap ----------

  function InUse(w: seq<nat>, n: nat): nat
    requires n <= |w|
    ensures InUse(w, n) <= n
  {
    if n == 0 then 0 else InUse(w, n - 1) + if w[n - 1] > 0 then 1 else 0
  }

  function Total(w: seq<nat>, n: nat): nat
    requires n <= |w|
  {
    if n == 0 then 0 else Total(w, n - 1) + w[n - 1]
  }

  // The entries of the symbols in use.
  function Leaves(w: seq<nat>, n: nat): multiset<nat>
    requires n <= |w|
  {
    if n == 0 then multiset{} else Leaves(w, n - 1) + if w[n - 1] > 0 then multiset{n} else multiset{}
  }

  lemma {:induction false} LeafCount(w: seq<nat>, n: nat, e: nat)
    requires n <= |w|
    ensures Leaves(w, n)[e] == if 1 <= e <= n && w[e - 1] > 0 then 1 else 0
  {
    if n > 0 {
      LeafCount(w, n - 1, e);
    }
  }

  function Planted(w: seq<nat>): (f: Forest) {
    Forest(seq(|w|, i requires 0 <= i < |w| => if w[i] > 0 then i + 1 else 0), seq(|w|, _ => 0), 1)
  }

  lemma {:induction false} PlantedShare(w: seq<nat>, n: nat, e: nat)
    requires n <= |w| && 1 <= e
    ensures var f := Planted(w);
            && Share(f.root, f.len, |w|, n, e) == (if e <= n && w[e - 1] > 0 then Power2(|w|) else 0)
            && Weigh(f.root, w, n, e) == (if e <= n then w[e - 1] else 0)
  {
    if n > 0 {
      PlantedShare(w, n - 1, e);
    }
  }

  // The entries as they are before the first merge.
  ghost predicate Seeds(ents: seq<Entry>, w: seq<nat>) {
    && |w| < |ents| && ents[0].freq == 0 == ents[0].depth
    && forall i {:trigger w[i]} :: 0 <= i < |w| ==> ents[i + 1] == Entry(0, w[i], 0)
  }

  lemma PlantedGrown(ents: seq<Entry>, w: seq<nat>)
    requires Seeds(ents, w)
    ensures Grown(ents, |w| + 1, w, Planted(w), Leaves(w, |w|))
  {
    var f, live := Planted(w), Leaves(w, |w|);
    forall e: nat | e in live
      ensures live[e] == 1 && Tip(ents, |w| + 1, w, f, e)
    {
      LeafCount(w, |w|, e);
      PlantedShare(w, |w|, e);
      assert w[e - 1] > 0;
      assert ents[e - 1 + 1] == Entry(0, w[e - 1], 0);
    }
    forall i: nat {:trigger Under(ents, |w| + 1, w, f, live, i)} | i < |w|
      ensures Under(ents, |w| + 1, w, f, live, i)
    {
      LeafCount(w, |w|, i + 1);
      assert ents[i + 1] == Entry(0, w[i], 0);
    }
  }

  // ---------- the last entry ----------

  // The code lengths: how far the symbols in use are below the last entry.
  function Lengths(w: seq<nat>, f: Forest): (clen: seq<nat>)
    requires |w| == |f.len|
  {
    seq(|w|, i requires 0 <= i < |w| => if w[i] > 0 then f.len[i] else 0)
  }

  // The code space that codes of these lengths take.
  function Kraft(clen: seq<nat>, k: nat, n: nat): nat
    requires n <= |clen|
  {
    if n == 0 then 0 else Kraft(clen, k, n - 1) + if 0 < clen[n - 1] <= k then Power2(k - clen[n - 1]) else 0
  }

  lemma {:induction false} KraftOfShare(w: seq<nat>, f: Forest, k: nat, n: nat, e: nat)
    requires n <= |w| == |f.root| == |f.len|
    requires forall i :: 0 <= i < |w| ==> if w[i] > 0 then f.root[i] == e && f.len[i] > 0 else f.root[i] != e
    ensures Kraft(Lengths(w, f), k, n) == Share(f.root, f.len, k, n, e)
    ensures Weigh(f.root, w, n, e) == Total(w, n)
  {
    if n > 0 {
      KraftOfShare(w, f, k, n - 1, e);
    }
  }

  // When one entry is left.
  ghost predicate Single(ents: seq<Entry>, size: nat, w: seq<nat>, f: Forest, e: nat) {
    Grown(ents, size, w, f, multiset{e}) && size > |w| + 1
  }

  lemma SingleLengths(ents: seq<Entry>, size: nat, w: seq<nat>, f: Forest, e: nat)
    requires Single(ents, size, w, f, e) && size <= 2 * |w|
    ensures e < |ents| && Fib(ents[e].depth) <= Total(w, |w|) && Kraft(Lengths(w, f), |w|, |w|) == Power2(|w|)
    ensures forall i {:trigger w[i]} :: 0 <= i < |w| && w[i] > 0 ==>
              0 < f.len[i] <= ents[e].depth && f.len[i] < |w| && Chain(ents, size, i + 1, f.len[i], e)
    ensures ents[e].parent == 0
  {
    assert size - 1 in multiset{e};
    assert e == size - 1;
    assert Tip(ents, size, w, f, e);
    forall i {:trigger w[i]} | 0 <= i < |w|
      ensures if w[i] > 0 then f.root[i] == e && f.len[i] > 0 else f.root[i] != e
      ensures w[i] > 0 ==> f.len[i] <= ents[e].depth && f.len[i] < |w| && Chain(ents, size, i + 1, f.len[i], e)
    {
      assert Under(ents, size, w, f, multiset{e}, i);
    }
    KraftOfShare(w, f, |w|, |w|, e);
  }

  // Scaling the code space.
  lemma {:induction false} KraftScaled(clen: seq<nat>, a: nat, b: nat, n: nat)
    requires n <= |clen| && a <= b && forall i :: 0 <= i < |clen| ==> clen[i] <= a
    ensures Kraft(clen, b, n) == Power2(b - a) * Kraft(clen, a, n)
  {
    if n > 0 {
      KraftScaled(clen, a, b, n - 1);
      if clen[n - 1] > 0 {
        PowerSum(b - a, a - clen[n - 1]);
        Distribute(Power2(b - a), Kraft(clen, a, n - 1), Power2(a - clen[n - 1]));
      }
    }
  }

  lemma Distribute(x: nat, y: nat, z: nat)
    ensures x * y + x * z == x * (y + z)
  {
  }

  lemma KraftFits(clen: seq<nat>, k: nat, maxlen: nat)
    requires Kraft(clen, k, |clen|) == Power2(k)
    requires forall i :: 0 <= i < |clen| ==> clen[i] <= k && clen[i] <= maxlen
    ensures Kraft(clen, maxlen, |clen|) == Power2(maxlen)
  {
    hide Kraft, Power2;
    if k <= maxlen {
      KraftScaled(clen, k, maxlen, |clen|);
      PowerSum(maxlen - k, k);
    } else {
      KraftScaled(clen, maxlen, k, |clen|);
      PowerSum(k - maxlen, maxlen);
      Cancel(Power2(k - maxlen), Kraft(clen, maxlen, |clen|), Power2(maxlen));
    }
  }

  lemma Cancel(x: nat, y: nat, z: nat)
    requires x > 0 && x * y == x * z
    ensures y == z
  {
    if y < z {
      LessTimes(x, y, z);
    } else if z < y {
      LessTimes(x, z, y);
    }
  }

  lemma LessTimes(x: nat, y: nat, z: nat)
    requires x > 0 && y < z
    ensures x * y < x * z
  {
    assert x * (z - y) > 0;
  }

  // ---------- flattening ----------

  function Flat(w: seq<nat>): (w': seq<nat>)
    ensures |w'| == |w|
  {
    seq(|w|, i requires 0 <= i < |w| => w[i] / 2 + 1)
  }

  // Frequencies of at least one only grow smaller, and do while their sum is more
  // than twice the alphabet.
  lemma {:induction false} FlatTotal(w: seq<nat>, n: nat)
    requires n <= |w|
    ensures 2 * Total(Flat(w), n) <= Total(w, n) + 2 * n
    ensures (forall i :: 0 <= i < |w| ==> w[i] > 0) ==> Total(Flat(w), n) <= Total(w, n)
    ensures (forall i :: 0 <= i < |w| ==> w[i] > 0) && Total(w, n) > 2 * n ==> Total(Flat(w), n) < Total(w, n)
  {
    if n > 0 {
      FlatTotal(w, n - 1);
    }
  }

  function Zeros(w: seq<nat>): nat {
    if forall i :: 0 <= i < |w| ==> w[i] > 0 then 0 else 1
  }

  // Starting again comes to an end: a code is too long only if the sum is more than
  // twice the alphabet.
  lemma FlatLess(w: seq<nat>)
    requires Total(w, |w|) > 2 * |w|
    ensures Zeros(Flat(w)) == 0
    ensures Zeros(Flat(w)) < Zeros(w) || (Zeros(Flat(w)) == Zeros(w) && Total(Flat(w), |w|) < Total(w, |w|))
  {
    FlatTotal(w, |w|);
  }

  function Cost(clen: seq<nat>, freq: seq<nat>, n: nat): nat
    requires n <= |clen| == |freq|
  {
    if n == 0 then 0 else Cost(clen, freq, n - 1) + clen[n - 1] * freq[n - 1]
  }

  // ---------- djw_build_prefix ----------

  // The heap only depends on frequencies and depths.
  lemma HeapSame(heap: seq<nat>, ents: seq<Entry>, ents': seq<Entry>, last: nat)
    requires Heap(heap, ents, last) && |ents'| == |ents|
    requires forall x: nat {:trigger ents'[x]} :: x in Contents(heap, last) && x < |ents| ==>
               ents'[x].freq == ents[x].freq && ents'[x].depth == ents[x].depth
    ensures Heap(heap, ents', last)
  {
    forall i {:trigger InPlace(heap, ents', i)} | 2 <= i <= last
      ensures InPlace(heap, ents', i)
    {
      assert InPlace(heap, ents, i);
      InContents(heap, last, i);
      InContents(heap, last, i / 2);
      assert ents'[heap[i]].freq == ents[heap[i]].freq && ents'[heap[i / 2]].freq == ents[heap[i / 2]].freq;
    }
  }

  lemma InContents(heap: seq<nat>, last: nat, i: nat)
    requires 1 <= i <= last < |heap|
    ensures heap[i] in Contents(heap, last)
  {
    assert heap[1..last + 1][i - 1] == heap[i];
  }

  // The first i symbols set up, and the first j, where in use, put in the heap.
  ghost predicate Filling(heap: seq<nat>, ents: seq<Entry>, w: seq<nat>, i: nat, j: nat, last: nat) {
    && |heap| == ALPHABET + 1 && |ents| == ENTS && j <= i <= |w| <= ALPHABET && last == InUse(w, j) && heap[0] == 0
    && ents[0].freq == 0 == ents[0].depth
    && (forall k {:trigger w[k]} :: 0 <= k < |w| ==> ents[k + 1].freq == w[k])
    && (forall k {:trigger w[k]} :: 0 <= k < i ==> ents[k + 1] == Entry(0, w[k], 0))
    && Heap(heap, ents, last) && Contents(heap, last) == Leaves(w, j)
  }

  lemma FillSet(heap: seq<nat>, ents: seq<Entry>, w: seq<nat>, i: nat, last: nat)
    requires Filling(heap, ents, w, i, i, last) && i < |w|
    ensures Filling(heap, ents[i + 1 := ents[i + 1].(depth := 0, parent := 0)], w, i + 1, i, last)
  {
    LeavesBelow(w, i);
    HeapSame(heap, ents, ents[i + 1 := ents[i + 1].(depth := 0, parent := 0)], last);
    hide Contents, Heap;
  }

  lemma FillInsert(heap: seq<nat>, ents: seq<Entry>, w: seq<nat>, i: nat, last: nat)
    requires i < |w| <= ALPHABET && Filling(heap, ents, w, i + 1, i, last)
    ensures heap != [] && heap[0] == 0 && |ents| == ENTS && ents[0].freq == 0 == ents[0].depth && ents[i + 1].freq == w[i]
    ensures w[i] == 0 ==> Filling(heap, ents, w, i + 1, i + 1, last)
    ensures w[i] > 0 ==>
              && last + 1 < |heap| && Heap(heap, ents, last) && InRange(heap[last + 1 := i + 1], ents)
              && Filling(SiftUp(heap[last + 1 := i + 1], ents, last + 1), ents, w, i + 1, i + 1, last + 1)
  {
    if w[i] > 0 {
      InsertOk(heap, ents, last + 1, i + 1);
    }
    hide Contents, SiftUp, Heap;
  }

  method InitialHeap(heap: array<nat>, ents: array<Entry>, asize: nat, ghost w: seq<nat>) returns (heapLast: nat)
    requires heap.Length == ALPHABET + 1 && ents.Length == ENTS && |w| == asize <= ALPHABET && InRange(heap[..], ents[..])
    requires forall i {:trigger w[i]} :: 0 <= i < |w| ==> ents[i + 1].freq == w[i]
    modifies heap, ents
    ensures Filling(heap[..], ents[..], w, asize, asize, heapLast)
  {
    heapLast := 0;
    heap[0] := 0;
    ents[0] := ents[0].(depth := 0, freq := 0);
    assert Filling(heap[..], ents[..], w, 0, 0, 0) by {
      assert heap[..][1..1] == [];
    }
    hide *;
    for i := 0 to asize
      invariant Filling(heap[..], ents[..], w, i, i, heapLast)
    {
      FillSet(heap[..], ents[..], w, i, heapLast);
      ents[i + 1] := ents[i + 1].(depth := 0, parent := 0);
      FillInsert(heap[..], ents[..], w, i, heapLast);
      if ents[i + 1].freq != 0 {
        heapLast := heapLast + 1;
        HeapInsert(heap, ents, heapLast, i + 1);
      }
    }
  }

  lemma LeavesBelow(w: seq<nat>, n: nat)
    requires n <= |w|
    ensures forall x: nat :: x in Leaves(w, n) ==> 1 <= x <= n
  {
    forall x: nat | x in Leaves(w, n)
      ensures 1 <= x <= n
    {
      LeafCount(w, n, x);
    }
  }

  // Between merges.
  ghost predicate Merger(heap: seq<nat>, ents: seq<Entry>, w: seq<nat>, f: Forest, size: nat, last: nat) {
    && |heap| == ALPHABET + 1 && |ents| == ENTS && |w| <= ALPHABET && heap[0] == 0 && ents[0].freq == 0 == ents[0].depth
    && Heap(heap, ents, last) && Grown(ents, size, w, f, Contents(heap, last))
    && last + size == |w| + 1 + InUse(w, |w|) && last >= 1
  }

  lemma FilledMerger(heap: seq<nat>, ents: seq<Entry>, w: seq<nat>, last: nat)
    requires Filling(heap, ents, w, |w|, |w|, last) && last >= 1
    ensures Merger(heap, ents, w, Planted(w), |w| + 1, last)
  {
    assert Seeds(ents, w);
    PlantedGrown(ents, w);
    hide Grown, Heap, Contents, Leaves, Planted;
  }

  // The two least are merged in order.
  lemma TakenTwo(heap: seq<nat>, ents: seq<Entry>, w: seq<nat>, f: Forest, size: nat, last: nat)
    requires Merger(heap, ents, w, f, size, last) && last >= 2
    ensures InRange(heap, ents)
    ensures var heap1 := Taken(heap, ents, last - 1); var heap2 := Taken(heap1, ents, last - 2);
            && Heap(heap2, ents, last - 2) && heap2[0] == 0
            && Contents(heap2, last - 2) + multiset{heap1[1]} + multiset{heap[1]} == Contents(heap, last)
            && Merging(ents, size, w, f, Contents(heap, last), heap[1], heap1[1])
  {
    hide Contents, SiftDown, Tip, Under, Share, Weigh, Taken;
    ExtractOk(heap, ents, last - 1);
    var heap1 := Taken(heap, ents, last - 1);
    ExtractOk(heap1, ents, last - 2);
    InContents(heap, last, 1);
    InContents(heap1, last - 1, 1);
    hide Heap;
    assert NoSooner(ents, heap1[1], heap[1]);
    LeastTwo(ents, w, f, size, Contents(heap, last), Contents(heap1, last - 1), heap[1], heap1[1]);
  }

  lemma LeastTwo(ents: seq<Entry>, w: seq<nat>, f: Forest, size: nat, live: multiset<nat>, rest: multiset<nat>, h1: nat, h2: nat)
    requires Grown(ents, size, w, f, live) && size < |ents| && size < 2 * |w|
    requires rest + multiset{h1} == live && h1 in live && h2 in rest && NoSooner(ents, h2, h1)
    requires forall e: nat {:trigger NoSooner(ents, e, h2)} :: e in rest ==> NoSooner(ents, e, h2)
    ensures Merging(ents, size, w, f, live, h1, h2)
  {
    TakenDistinct(ents, size, w, f, live, rest, h1, h2);
    hide Grown, Tip;
    forall e: nat | e in live && e != h1
      ensures e < |ents| && ents[e].freq >= ents[h2].freq
    {
      assert e in rest by {
        assert (rest + multiset{h1})[e] == live[e];
      }
      assert NoSooner(ents, e, h2);
    }
  }

  lemma TakenDistinct(ents: seq<Entry>, size: nat, w: seq<nat>, f: Forest, live: multiset<nat>, rest: multiset<nat>, h1: nat, h2: nat)
    requires Grown(ents, size, w, f, live) && rest + multiset{h1} == live && h1 in live && h2 in rest
    ensures h1 != h2 && h2 in live && h1 < size && h2 < size
  {
    assert (rest + multiset{h1})[h2] == live[h2];
    assert Tip(ents, size, w, f, h1) && live[h1] == 1;
    assert h2 in live;
    assert Tip(ents, size, w, f, h2) && live[h2] == 1;
    hide Share, Weigh;
  }

  lemma MergeStep(heap: seq<nat>, ents: seq<Entry>, w: seq<nat>, f: Forest, size: nat, last: nat)
    requires Merger(heap, ents, w, f, size, last) && last >= 2
    ensures InRange(heap, ents)
    ensures var heap1 := Taken(heap, ents, last - 1); var heap2 := Taken(heap1, ents, last - 2);
            && size < ENTS && heap[1] < size && heap1[1] < size && Heap(heap2, ents, last - 2) && heap2[0] == 0
            && var ents' := Merged(ents, size, heap[1], heap1[1]);
               && Heap(heap2, ents', last - 2) && InRange(heap2[last - 1 := size], ents') && |ents'| == ENTS
               && ents'[0].freq == 0 == ents'[0].depth
               && Merger(SiftUp(heap2[last - 1 := size], ents', last - 1), ents', w,
                         Joined(f, heap[1], heap1[1], size, ents[heap1[1]].freq), size + 1, last - 1)
  {
    TakenTwo(heap, ents, w, f, size, last);
    var heap1 := Taken(heap, ents, last - 1);
    var heap2 := Taken(heap1, ents, last - 2);
    var live, h1, h2 := Contents(heap, last), heap[1], heap1[1];
    var ents' := Merged(ents, size, h1, h2);
    assert h1 < size && h2 < size && size < |ents|;
    hide Contents, Heap, Taken, SiftUp, Joined;
    MergedHeap(ents, size, w, f, live, h1, h2, heap2, last - 2);
    InsertOk(heap2, ents', last - 1, size);
    var heap3 := SiftUp(heap2[last - 1 := size], ents', last - 1);
    MergeKeeps(ents, size, w, f, live, Contents(heap3, last - 1), h1, h2);
    hide Grown, Merging;
  }

  lemma MergedHeap(ents: seq<Entry>, size: nat, w: seq<nat>, f: Forest, live: multiset<nat>, h1: nat, h2: nat, heap: seq<nat>, last: nat)
    requires Merging(ents, size, w, f, live, h1, h2) && Heap(heap, ents, last) && ents[0].freq == 0 == ents[0].depth
    requires Contents(heap, last) + multiset{h2} + multiset{h1} == live
    ensures Heap(heap, Merged(ents, size, h1, h2), last)
    ensures Merged(ents, size, h1, h2)[0].freq == 0 == Merged(ents, size, h1, h2)[0].depth
  {
    assert Tip(ents, size, w, f, h1) && Tip(ents, size, w, f, h2);
    forall x: nat | x in Contents(heap, last)
      ensures x != size
    {
      assert (Contents(heap, last) + multiset{h2} + multiset{h1})[x] == live[x];
      assert Tip(ents, size, w, f, x);
    }
    hide Contents, Heap, Tip, Grown;
    HeapSame(heap, ents, Merged(ents, size, h1, h2), last);
  }

  // Entries merged until one is left.
  method MergeAll(heap: array<nat>, ents: array<Entry>, size0: nat, last0: nat, ghost w: seq<nat>, ghost f0: Forest)
    returns (size: nat, ghost f: Forest)
    requires Merger(heap[..], ents[..], w, f0, size0, last0) && last0 >= 1
    modifies heap, ents
    ensures Merger(heap[..], ents[..], w, f, size, 1)
  {
    size, f := size0, f0;
    var heapLast := last0;
    hide Heap, Contents, Grown, Merger, SiftUp, SiftDown, Taken, InRange, Joined;
    while heapLast > 1
      invariant Merger(heap[..], ents[..], w, f, size, heapLast) && heapLast >= 1
    {
      MergeStep(heap[..], ents[..], w, f, size, heapLast);
      ghost var was := ents[..];
      MergerSizes(heap[..], ents[..], w, f, size, heapLast);
      heapLast := heapLast - 1;
      var h1 := HeapExtract(heap, ents, heapLast);
      heapLast := heapLast - 1;
      var h2 := HeapExtract(heap, ents, heapLast);
      ents[size] := ents[size].(freq := ents[h1].freq + ents[h2].freq);
      ents[size] := ents[size].(depth := 1 + if ents[h1].depth > ents[h2].depth then ents[h1].depth else ents[h2].depth);
      ents[size] := ents[size].(parent := 0);
      ents[h1] := ents[h1].(parent := size);
      ents[h2] := ents[h2].(parent := size);
      assert ents[..] == Merged(was, size, h1, h2);
      f := Joined(f, h1, h2, size, was[h2].freq);
      heapLast := heapLast + 1;
      HeapInsert(heap, ents, heapLast, size);
      size := size + 1;
    }
  }

  lemma MergerSizes(heap: seq<nat>, ents: seq<Entry>, w: seq<nat>, f: Forest, size: nat, last: nat)
    requires Merger(heap, ents, w, f, size, last)
    ensures |heap| == ALPHABET + 1 && |ents| == ENTS && last < |heap| && InRange(heap, ents) && |f.root| == |f.len|
  {
  }

  // Code lengths of a complete prefix code: none too long, and the code space used up.
  ghost predicate Complete(clen: seq<nat>, maxlen: nat) {
    (forall i :: 0 <= i < |clen| ==> clen[i] <= maxlen) && Kraft(clen, maxlen, |clen|) == Power2(maxlen)
  }

  // The end of a pass: one entry, with the symbols in use below it.
  ghost predicate Merged1(ents: seq<Entry>, w: seq<nat>, f: Forest, size: nat, e: nat) {
    && Single(ents, size, w, f, e) && |ents| == ENTS && |w| <= ALPHABET && size <= 2 * |w| && e < |ents|
    && forall i {:trigger w[i]} :: 0 <= i < |w| ==> ents[i + 1].freq == w[i]
  }

  lemma LastMerger(heap: seq<nat>, ents: seq<Entry>, w: seq<nat>, f: Forest, size: nat)
    requires Merger(heap, ents, w, f, size, 1) && InUse(w, |w|) >= 2
    ensures Merged1(ents, w, f, size, heap[1])
  {
    assert Contents(heap, 1) == multiset{heap[1]} by {
      assert heap[1..2] == [heap[1]];
    }
    hide Heap, Tip;
    forall i {:trigger w[i]} | 0 <= i < |w|
      ensures ents[i + 1].freq == w[i]
    {
      assert Under(ents, size, w, f, Contents(heap, 1), i);
    }
  }

  // The code lengths by counting parents, and whether one is too long.
  method CodeLengths(ents: array<Entry>, freq: seq<nat>, maxlen: nat, ghost w: seq<nat>, ghost f: Forest, ghost size: nat, ghost e: nat)
    returns (clen: seq<nat>, overflow: bool, totalBits: nat)
    requires Merged1(ents[..], w, f, size, e) && |freq| == |w|
    requires forall i {:trigger w[i]} :: 0 <= i < |w| && freq[i] > 0 ==> w[i] > 0
    ensures |f.len| == |w| && clen == Lengths(w, f)
    ensures overflow <==> exists i :: 0 <= i < |clen| && clen[i] > maxlen
    ensures totalBits == Cost(clen, freq, |freq|)
  {
    SingleLengths(ents[..], size, w, f, e);
    ghost var all := Lengths(w, f);
    assert forall k {:trigger w[k]} :: 0 <= k < |w| ==> ents[k + 1].freq == w[k];
    assert LengthsSoFar(all, freq, maxlen, 0, [], false, 0);
    hide Merged1, LengthsSoFar;
    clen, overflow, totalBits := [], false, 0;
    for i := 0 to |freq|
      invariant LengthsSoFar(all, freq, maxlen, i, clen, overflow, totalBits)
    {
      var b: nat := 0;
      assert ents[i + 1].freq == w[i];
      LengthsNext(all, freq, maxlen, i, clen, overflow, totalBits);
      if ents[i + 1].freq != 0 {
        b := CountParents(ents, i + 1, size, f.len[i], e);
        if b > maxlen {
          overflow := true;
        }
        totalBits := totalBits + b * freq[i];
      }
      assert b == all[i];
      clen := clen + [b];
    }
    LengthsEnd(all, freq, maxlen, clen, overflow, totalBits);
  }

  // The lengths of the first n symbols.
  ghost predicate LengthsSoFar(all: seq<nat>, freq: seq<nat>, maxlen: nat, n: nat, clen: seq<nat>, overflow: bool, totalBits: nat) {
    && n <= |all| == |freq| && clen == all[..n] && (overflow <==> exists k :: 0 <= k < n && all[k] > maxlen)
    && totalBits == Cost(all, freq, n)
  }

  lemma LengthsNext(all: seq<nat>, freq: seq<nat>, maxlen: nat, n: nat, clen: seq<nat>, overflow: bool, totalBits: nat)
    requires LengthsSoFar(all, freq, maxlen, n, clen, overflow, totalBits) && n < |freq|
    ensures n < |all|
    ensures LengthsSoFar(all, freq, maxlen, n + 1, clen + [all[n]], overflow || all[n] > maxlen, totalBits + all[n] * freq[n])
  {
  }

  lemma LengthsEnd(all: seq<nat>, freq: seq<nat>, maxlen: nat, clen: seq<nat>, overflow: bool, totalBits: nat)
    requires LengthsSoFar(all, freq, maxlen, |freq|, clen, overflow, totalBits)
    ensures clen == all && totalBits == Cost(clen, freq, |freq|)
    ensures overflow <==> exists k :: 0 <= k < |clen| && clen[k] > maxlen
  {
    assert all[..|freq|] == all;
  }

  method CountParents(ents: array<Entry>, i: nat, ghost size: nat, ghost steps: nat, ghost e: nat) returns (b: nat)
    requires Chain(ents[..], size, i, steps, e) && e < ents.Length && ents[e].parent == 0 && i < ents.Length
    ensures b == steps
  {
    b := 0;
    var p: nat := ents[i].parent;
    ghost var at: nat := i;
    while p != 0
      invariant b <= steps && at < ents.Length && p == ents[at].parent && Chain(ents[..], size, at, steps - b, e)
      decreases steps - b
    {
      b := b + 1;
      at := p;
      p := ents[p].parent;
    }
  }

  lemma {:induction false} FibMonotone(a: nat, b: nat)
    requires a <= b
    ensures Fib(a) <= Fib(b)
    decreases b
  {
    if a < b {
      FibMonotone(a, b - 1);
      assert b >= 2 ==> Fib(b) == Fib(b - 1) + Fib(b - 2);
    }
  }

  // A code is too long only if the frequencies sum to more than twice the alphabet.
  lemma OverflowHeavy(ents: seq<Entry>, w: seq<nat>, f: Forest, size: nat, e: nat, maxlen: nat)
    requires Merged1(ents, w, f, size, e) && 2 * |w| < Fib(maxlen + 1)
    ensures |f.len| == |w|
    ensures (exists i :: 0 <= i < |w| && Lengths(w, f)[i] > maxlen) ==>
              Total(w, |w|) >= Fib(maxlen + 1) && Total(w, |w|) > 2 * |w|
  {
    SingleLengths(ents, size, w, f, e);
    if exists i :: 0 <= i < |w| && Lengths(w, f)[i] > maxlen {
      var i :| 0 <= i < |w| && Lengths(w, f)[i] > maxlen;
      assert w[i] > 0;
      FibMonotone(maxlen + 1, ents[e].depth);
    }
  }

  // Otherwise the code is complete.
  lemma LengthsComplete(ents: seq<Entry>, w: seq<nat>, f: Forest, size: nat, e: nat, maxlen: nat)
    requires Merged1(ents, w, f, size, e) && |f.len| == |w| && forall i :: 0 <= i < |w| ==> Lengths(w, f)[i] <= maxlen
    ensures Complete(Lengths(w, f), maxlen) && forall i {:trigger w[i]} :: 0 <= i < |w| ==> (Lengths(w, f)[i] > 0 <==> w[i] > 0)
  {
    SingleLengths(ents, size, w, f, e);
    forall i | 0 <= i < |w|
      ensures Lengths(w, f)[i] <= |w|
    {
      assert w[i] >= 0;
    }
    KraftFits(Lengths(w, f), |w|, maxlen);
  }

  // The frequencies a pass starts from.
  ghost predicate Started(heap: seq<nat>, ents: seq<Entry>, w: seq<nat>, freq: seq<nat>) {
    && |heap| == ALPHABET + 1 && |ents| == ENTS && |w| == |freq| <= ALPHABET && InRange(heap, ents) && InUse(w, |w|) >= 1
    && (forall i {:trigger w[i]} :: 0 <= i < |w| ==> ents[i + 1].freq == w[i])
    && (forall i {:trigger w[i]} :: 0 <= i < |w| && freq[i] > 0 ==> w[i] > 0)
  }

  lemma {:induction false} InUseSome(w: seq<nat>, n: nat, i: nat)
    requires i < n <= |w| && w[i] > 0
    ensures InUse(w, n) >= 1
  {
    if i < n - 1 {
      InUseSome(w, n - 1, i);
    }
  }

  lemma {:induction false} InUseMore(w: seq<nat>, w': seq<nat>, n: nat, s: nat)
    requires n <= |w| == |w'| && s < |w| && w[s] == 0 && w' == w[s := 1]
    ensures InUse(w', n) == InUse(w, n) + if s < n then 1 else 0
  {
    if n > 0 {
      InUseMore(w, w', n - 1, s);
    }
  }

  lemma {:induction false} InUseAll(w: seq<nat>, n: nat)
    requires n <= |w| && forall i :: 0 <= i < |w| ==> w[i] > 0
    ensures InUse(w, n) == n
  {
    if n > 0 {
      InUseAll(w, n - 1);
    }
  }

  // With one symbol in use the other is not.
  lemma {:induction false} OnlyOne(w: seq<nat>, n: nat, i: nat, j: nat)
    requires i < j < n <= |w| && w[i] > 0 && w[j] > 0
    ensures InUse(w, n) >= 2
  {
    if j < n - 1 {
      OnlyOne(w, n - 1, i, j);
    } else {
      InUseSome(w, n - 1, i);
    }
  }

  function Lone(w: seq<nat>): nat {
    if InUse(w, |w|) == 1 then 1 else 0
  }

  // A second symbol made up.
  lemma FakeOne(heap: seq<nat>, ents: seq<Entry>, w: seq<nat>, freq: seq<nat>, s: nat)
    requires |heap| == ALPHABET + 1 && |ents| == ENTS && |w| == |freq| && InRange(heap, ents) && InUse(w, |w|) == 1
    requires 2 <= |w| <= ALPHABET && forall i {:trigger w[i]} :: 0 <= i < |w| ==> ents[i + 1].freq == w[i]
    requires forall i {:trigger w[i]} :: 0 <= i < |w| && freq[i] > 0 ==> w[i] > 0
    requires s == (if freq[0] != 0 then |w| - 1 else 0) && (freq[0] == 0 ==> w[0] == 0)
    ensures w[s] == 0 && InUse(w[s := 1], |w|) == 2 && s + 1 < |ents|
    ensures Started(heap, ents[s + 1 := ents[s + 1].(freq := 1)], w[s := 1], freq)
  {
    if freq[0] != 0 {
      assert w[0] > 0;
      if w[|w| - 1] > 0 {
        OnlyOne(w, |w|, 0, |w| - 1);
      }
    }
    InUseMore(w, w[s := 1], |w|, s);
  }

  // Every frequency halved, and one more.
  method Flatten(ents: array<Entry>, asize: nat, ghost w: seq<nat>)
    requires ents.Length == ENTS && |w| == asize <= ALPHABET
    requires forall i {:trigger w[i]} :: 0 <= i < |w| ==> ents[i + 1].freq == w[i]
    modifies ents
    ensures forall i {:trigger Flat(w)[i]} :: 0 <= i < |w| ==> ents[i + 1].freq == Flat(w)[i]
  {
    for i := 0 to asize
      invariant forall k {:trigger w[k]} :: i <= k < |w| ==> ents[k + 1].freq == w[k]
      invariant forall k {:trigger Flat(w)[k]} :: 0 <= k < i ==> ents[k + 1].freq == Flat(w)[k]
    {
      assert ents[i + 1].freq == w[i];
      ents[i + 1] := ents[i + 1].(freq := ents[i + 1].freq / 2 + 1);
    }
  }

  lemma FlatStarted(heap: seq<nat>, ents: seq<Entry>, w: seq<nat>, freq: seq<nat>)
    requires |heap| == ALPHABET + 1 && |ents| == ENTS && |w| == |freq| && InRange(heap, ents) && 2 <= |w| <= ALPHABET
    requires forall i {:trigger Flat(w)[i]} :: 0 <= i < |w| ==> ents[i + 1].freq == Flat(w)[i]
    ensures Started(heap, ents, Flat(w), freq) && Lone(Flat(w)) == 0
  {
    InUseAll(Flat(w), |w|);
  }

  // A pass that has to be made again starts nearer to the end.
  ghost predicate Nearer(w': seq<nat>, w: seq<nat>) {
    || Lone(w') < Lone(w)
    || (Lone(w') == Lone(w) && (Zeros(w') < Zeros(w) || (Zeros(w') == Zeros(w) && Total(w', |w'|) < Total(w, |w|))))
  }

  // The symbol that is made up if there is only one.
  function Spare(freq: seq<nat>): (s: nat)
    requires freq != []
    ensures s < |freq|
  {
    if freq[0] != 0 then |freq| - 1 else 0
  }

  // A symbol that occurs, or is made up.
  predicate InCode(freq: seq<nat>, i: nat)
    requires i < |freq|
  {
    freq[i] > 0 || (InUse(freq, |freq|) == 1 && i == Spare(freq))
  }

  // The symbols that have codes: those that occur, or all once the frequencies were
  // flattened, for which there must be many.
  ghost predicate CodesUsed(freq: seq<nat>, maxlen: nat, clen: seq<nat>) {
    && |clen| == |freq|
    && ((forall i {:trigger clen[i]} :: 0 <= i < |clen| ==> (clen[i] > 0 <==> InCode(freq, i))) || Flattened(freq, maxlen, clen))
  }

  // No zeros, as happens if there are as many symbols as the longest code stands for.
  ghost predicate Flattened(freq: seq<nat>, maxlen: nat, w: seq<nat>) {
    (forall i {:trigger w[i]} :: 0 <= i < |w| ==> w[i] > 0) && Total(freq, |freq|) + 1 >= Fib(maxlen + 1)
  }

  // The frequencies of a pass, before any were flattened and after.
  ghost predicate Derived(freq: seq<nat>, maxlen: nat, w: seq<nat>) {
    && freq != [] && |w| == |freq|
    && (w == freq
        || (InUse(freq, |freq|) == 1 && freq[Spare(freq)] == 0 && w == freq[Spare(freq) := 1])
        || Flattened(freq, maxlen, w))
  }

  lemma DerivedFlat(freq: seq<nat>, maxlen: nat, w: seq<nat>)
    requires Derived(freq, maxlen, w) && Total(w, |w|) >= Fib(maxlen + 1)
    ensures Derived(freq, maxlen, Flat(w))
  {
    hide Fib;
    if InUse(freq, |freq|) == 1 && freq[Spare(freq)] == 0 && w == freq[Spare(freq) := 1] {
      TotalOneMore(freq, |freq|, Spare(freq));
    }
  }

  lemma {:induction false} TotalOneMore(w: seq<nat>, n: nat, s: nat)
    requires n <= |w| && s < |w| && w[s] == 0
    ensures Total(w[s := 1], n) <= Total(w, n) + 1
  {
    if n > 0 {
      TotalOneMore(w, n - 1, s);
      if s == n - 1 {
        TotalSame(w, w[s := 1], n - 1);
      }
    }
  }

  lemma {:induction false} TotalSame(w: seq<nat>, w': seq<nat>, n: nat)
    requires n <= |w| == |w'| && w[..n] == w'[..n]
    ensures Total(w, n) == Total(w', n)
  {
    if n > 0 {
      assert w[..n][..n - 1] == w[..n - 1] && w'[..n][..n - 1] == w'[..n - 1];
      assert w[n - 1] == w[..n][n - 1];
      TotalSame(w, w', n - 1);
    }
  }

  lemma DerivedFake(freq: seq<nat>, maxlen: nat, w: seq<nat>, s: nat)
    requires freq != [] && w == freq && InUse(w, |w|) == 1 && s == (if freq[0] != 0 then |freq| - 1 else 0) && w[s] == 0
    ensures Derived(freq, maxlen, w[s := 1])
  {
  }

  lemma DerivedCodes(freq: seq<nat>, maxlen: nat, w: seq<nat>, clen: seq<nat>)
    requires Derived(freq, maxlen, w) && |clen| == |w| && InUse(w, |w|) != 1
    requires forall i {:trigger w[i]} :: 0 <= i < |w| ==> (clen[i] > 0 <==> w[i] > 0)
    ensures CodesUsed(freq, maxlen, clen)
  {
    hide Fib, Total, InUse;
    forall i | 0 <= i < |clen|
      ensures clen[i] > 0 <==> w[i] > 0
    {
      assert w[i] >= 0;
    }
  }

  // What the caller gets.
  ghost predicate Built(freq: seq<nat>, maxlen: nat, clen: seq<nat>, totalBits: nat) {
    && |clen| == |freq| && Complete(clen, maxlen) && totalBits == Cost(clen, freq, |freq|)
    && forall i :: 0 <= i < |freq| && freq[i] > 0 ==> clen[i] > 0
  }

  ghost predicate Ready(heap: seq<nat>, ents: seq<Entry>, w: seq<nat>, freq: seq<nat>) {
    Started(heap, ents, w, freq) && (Lone(w) == 1 ==> w == freq) && 2 <= |w|
  }

  lemma FakeReady(heap: seq<nat>, ents: seq<Entry>, w: seq<nat>, freq: seq<nat>, heap': seq<nat>, ents': seq<Entry>, s: nat)
    requires Ready(heap, ents, w, freq) && Filling(heap', ents', w, |w|, |w|, 1)
    requires s == if freq[0] != 0 then |w| - 1 else 0
    ensures s + 1 < |ents'| && Ready(heap', ents'[s + 1 := ents'[s + 1].(freq := 1)], w[s := 1], freq) && Nearer(w[s := 1], w)
    ensures |w| == |freq| && |ents'| == ENTS && w == freq && InUse(w, |w|) == 1 && w[s] == 0
  {
    FakeOne(heap', ents', w, freq, s);
  }

  lemma FlatReady(heap: seq<nat>, ents: seq<Entry>, w: seq<nat>, freq: seq<nat>)
    requires |heap| == ALPHABET + 1 && |ents| == ENTS && |w| == |freq| && InRange(heap, ents) && 2 <= |w| <= ALPHABET
    requires forall i {:trigger Flat(w)[i]} :: 0 <= i < |w| ==> ents[i + 1].freq == Flat(w)[i]
    requires Total(w, |w|) > 2 * |w| && Lone(w) == 0
    ensures Ready(heap, ents, Flat(w), freq) && Nearer(Flat(w), w)
  {
    FlatStarted(heap, ents, w, freq);
    FlatLess(w);
    hide Total, Zeros, Flat;
  }

  // The tree built and the lengths counted, or the frequencies flattened.
  method Grow(heap: array<nat>, ents: array<Entry>, freq: seq<nat>, maxlen: nat, heapLast: nat, ghost w: seq<nat>)
    returns (done: bool, clen: seq<nat>, totalBits: nat)
    requires Filling(heap[..], ents[..], w, |w|, |w|, heapLast) && heapLast > 1 && |w| == |freq| && |w| >= 2
    requires 2 * |freq| < Fib(maxlen + 1) && forall i {:trigger w[i]} :: 0 <= i < |w| && freq[i] > 0 ==> w[i] > 0
    modifies heap, ents
    ensures done ==> Built(freq, maxlen, clen, totalBits)
    ensures done ==> forall i {:trigger w[i]} :: 0 <= i < |w| ==> (clen[i] > 0 <==> w[i] > 0)
    ensures !done ==> Ready(heap[..], ents[..], Flat(w), freq) && Nearer(Flat(w), w) && Total(w, |w|) >= Fib(maxlen + 1)
  {
    hide Cost, Fib, Filling, Flat, Grown, Heap, InUse, Kraft, Nearer, Planted, Power2, Ready, Total, Under;
    FilledMerger(heap[..], ents[..], w, heapLast);
    assert |w| <= ALPHABET && Lone(w) == 0 && InUse(w, |w|) >= 2;
    hide Merger, Single, Complete, Started, Lone;
    var size; ghost var f;
    size, f := MergeAll(heap, ents, |freq| + 1, heapLast, w, Planted(w));
    MergerSizes(heap[..], ents[..], w, f, size, 1);
    LastMerger(heap[..], ents[..], w, f, size);
    ghost var e := heap[1];
    OverflowHeavy(ents[..], w, f, size, e, maxlen);
    var overflow;
    clen, overflow, totalBits := CodeLengths(ents, freq, maxlen, w, f, size, e);
    done := !overflow;
    if done {
      LengthsComplete(ents[..], w, f, size, e, maxlen);
    } else {
      Flatten(ents, |freq|, w);
      FlatReady(heap[..], ents[..], w, freq);
    }
  }

  // djw_build_prefix: a complete code no longer than asked for, with a code for every
  // symbol that occurs, and what it costs. It starts again only so often.
  method BuildPrefix(freq: seq<nat>, maxlen: nat) returns (clen: seq<nat>, totalBits: nat)
    requires 2 <= |freq| <= ALPHABET && 2 * |freq| < Fib(maxlen + 1)
    requires exists i :: 0 <= i < |freq| && freq[i] > 0
    ensures |clen| == |freq| && Complete(clen, maxlen) && totalBits == Cost(clen, freq, |freq|)
    ensures forall i :: 0 <= i < |freq| && freq[i] > 0 ==> clen[i] > 0
    ensures CodesUsed(freq, maxlen, clen)
  {
    hide Cost, Filling, InUse, Leaves, Lone, Spare, Total, Zeros;
    var ents := new Entry[ENTS](_ => Entry(0, 0, 0));
    for i := 0 to |freq|
      invariant forall k {:trigger freq[k]} :: 0 <= k < i ==> ents[k + 1].freq == freq[k]
    {
      ents[i + 1] := ents[i + 1].(freq := freq[i]);
    }
    var heap := new nat[ALPHABET + 1](_ => 0);
    assert forall i :: 0 <= i < heap.Length ==> heap[i] == 0;
    ghost var w := freq;
    ghost var some :| 0 <= some < |freq| && freq[some] > 0;
    InUseSome(freq, |freq|, some);
    assert Ready(heap[..], ents[..], w, freq) && Derived(freq, maxlen, w);
    hide Complete, Kraft, Fib, Flat, Derived, CodesUsed;
    while true
      invariant Ready(heap[..], ents[..], w, freq) && fresh(heap) && fresh(ents) && Derived(freq, maxlen, w)
      decreases Lone(w), Zeros(w), Total(w, |w|)
    {
      ghost var heap0, ents0 := heap[..], ents[..];
      var heapLast := InitialHeap(heap, ents, |freq|, w);
      FillLast(heap[..], ents[..], w, heapLast);
      if heapLast == 1 {
        var s := if freq[0] != 0 then |freq| - 1 else 0;
        FakeReady(heap0, ents0, w, freq, heap[..], ents[..], s);
        DerivedFake(freq, maxlen, w, s);
        ents[s + 1] := ents[s + 1].(freq := 1);
        w := w[s := 1];
      } else {
        var done;
        done, clen, totalBits := Grow(heap, ents, freq, maxlen, heapLast, w);
        if done {
          DerivedCodes(freq, maxlen, w, clen);
          return;
        }
        DerivedFlat(freq, maxlen, w);
        w := Flat(w);
      }
    }
  }

  lemma FillLast(heap: seq<nat>, ents: seq<Entry>, w: seq<nat>, last: nat)
    requires Filling(heap, ents, w, |w|, |w|, last)
    ensures last == InUse(w, |w|)
  {
  }
}
