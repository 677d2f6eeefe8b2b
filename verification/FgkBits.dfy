// Codes of the adaptive Huffman coder (xdelta3-fgk.h): the way down the tree to a
// leaf, and for a symbol not seen yet its place among the zeros.
module FgkBits {

  import opened Bytes
  import opened BitLayer
  import opened Fgk
  import opened FgkCoder

  // ---------- fgk_factor_remaining ----------

  // zero_freq_exp.
  function Exponent(count: nat): (e: nat)
    ensures count > 0 ==> Power2(e) <= count < 2 * Power2(e)
  {
    if count > 1 then Exponent(count / 2) + 1 else 0
  }

  // The bits of an index: one more than zero_freq_exp unless zero_freq_rem is zero.
  function IndexSize(count: nat): nat {
    if count == Power2(Exponent(count)) then Exponent(count) else Exponent(count) + 1
  }

  // Enough bits for every index, and fewer than the zeros.
  lemma IndexFits(count: nat)
    requires count > 0
    ensures count <= Power2(IndexSize(count)) && IndexSize(count) <= count - 1 && (count > 1 ==> IndexSize(count) >= 1)
  {
    ExponentSmall(Exponent(count));
  }

  lemma {:induction false} ExponentSmall(e: nat)
    ensures Power2(e) >= e + 1
  {
    if e > 0 {
      ExponentSmall(e - 1);
    }
  }

  // fgk_nth_zero.
  function NthZero(l: Links, u: int, n: nat): int
    requires l.Sized()
    decreases n
  {
    if n == 0 || !Node(u) || l.rightChild[u] == NULL then u else NthZero(l, l.rightChild[u], n - 1)
  }

  lemma {:induction false} NthZeroIs(l: Links, zeros: int, z: seq<int>, i: nat, n: nat)
    requires ZeroList(l, zeros, z) && i < |z|
    ensures NthZero(l, z[i], n) == z[if i + n < |z| then i + n else |z| - 1]
    decreases n
  {
    assert ZeroAt(l, z, i);
    if n > 0 && i + 1 < |z| {
      assert ZeroAt(l, z, i + 1);
      NthZeroIs(l, zeros, z, i + 1, n - 1);
    }
  }

  // ---------- the code of a symbol ----------

  // The bits lead from u down to the leaf.
  ghost predicate Descends(l: Links, u: int, bits: seq<bool>, leaf: int)
    requires l.Sized()
    decreases |bits|
  {
    if bits == [] then u == leaf
    else N <= u < NODES && Descends(l, if bits[0] then l.rightChild[u] else l.leftChild[u], bits[1..], leaf)
  }

  // The leaf whose path is sent.
  function Target(t: Tree, n: int): int
    requires t.Sized() && Node(n)
  {
    if t.weight[n] == 0 then t.zeros else n
  }

  // The path from the root, and the index of a symbol not seen before.
  ghost predicate CodeIs(t: Tree, n: int, path: seq<bool>, index: seq<bool>) {
    && t.Sized() && 0 <= n < N && Descends(t.links, t.links.root, path, Target(t, n))
    && if t.weight[n] == 0 then
         |index| == IndexSize(t.zeroCount) && Value(index) < t.zeroCount && NthZero(t.links, t.zeros, Value(index)) == n
       else index == []
  }

  ghost predicate Coded(t: Tree, n: int, bits: seq<bool>) {
    exists path, index :: CodeIs(t, n, path, index) && bits == path + index
  }

  // ---------- fgk_decode_bit ----------

  // Where the decoder is in the tree, and the bits of an index read so far.
  datatype Reader = Reader(ptr: int, index: seq<bool>)

  // Between the bits of a code: at an internal node, or at the zero leaf with bits of
  // the index to come.
  predicate ReadOk(t: Tree, r: Reader) {
    && t.Sized() && Node(r.ptr)
    && if t.weight[r.ptr] == 0 then |r.index| < IndexSize(t.zeroCount)
       else r.ptr >= N && r.index == [] && Node(t.links.leftChild[r.ptr]) && Node(t.links.rightChild[r.ptr])
  }

  // The reader after a bit, and whether the code is complete.
  function ReadBit(t: Tree, r: Reader, bit: bool): (Reader, bool)
    requires ReadOk(t, r)
  {
    if t.weight[r.ptr] == 0 then (r.(index := r.index + [bit]), |r.index| + 1 >= IndexSize(t.zeroCount))
    else
      var p := if bit then t.links.rightChild[r.ptr] else t.links.leftChild[r.ptr];
      (Reader(p, r.index), t.links.leftChild[p] == NULL && (t.weight[p] != 0 || t.zeroCount == 1))
  }

  // The symbol, once the code is complete.
  function ReadSymbol(t: Tree, r: Reader, stale: bool): int
    requires t.Sized() && Node(r.ptr)
  {
    if t.weight[r.ptr] == 0 then NthZero(t.links, t.zeros, if r.index == [] then Value([stale]) else Value(r.index))
    else r.ptr
  }

  // The bits are one code, complete at its last bit.
  ghost predicate ReadsTo(t: Tree, r: Reader, bits: seq<bool>, r': Reader)
    decreases |bits|
  {
    && bits != [] && ReadOk(t, r)
    && var (next, done) := ReadBit(t, r, bits[0]);
       if |bits| == 1 then done && next == r' else !done && ReadsTo(t, next, bits[1..], r')
  }

  // The children of the nodes of a tree at rest.
  lemma NodeShape(t: Tree, c: Climb, z: seq<int>, u: int)
    requires Working(t, c, z) && u in c.order
    ensures Node(u)
    ensures u >= N ==> t.weight[u] > 0 && t.links.leftChild[u] in c.order && t.links.rightChild[u] in c.order
                       && Node(t.links.leftChild[u]) && Node(t.links.rightChild[u])
    ensures u < N ==> t.links.leftChild[u] == NULL && (t.weight[u] == 0 <==> u == t.zeros)
  {
    hide Linked, LinkedBack, BlocksOk, Level, Sums;
    assert WeightOk(t, c, u);
    if u >= N {
      assert ParentOk(t.links, c.order, u);
    } else {
      assert LeafAt(t.links, t.zeros, u);
      assert t.zeros != NULL ==> ZeroAt(t.links, z, 0);
    }
  }

  // The bits of an index, at the zero leaf.
  lemma {:induction false} IndexReads(t: Tree, r: Reader, bits: seq<bool>)
    requires t.Sized() && Node(r.ptr) && t.weight[r.ptr] == 0 && bits != [] && |r.index| + |bits| == IndexSize(t.zeroCount)
    ensures ReadsTo(t, r, bits, Reader(r.ptr, r.index + bits))
    decreases |bits|
  {
    if |bits| == 1 {
      assert [bits[0]] == bits;
    } else {
      var next := r.(index := r.index + [bits[0]]);
      IndexReads(t, next, bits[1..]);
      assert next.index + bits[1..] == r.index + bits;
    }
  }

  // The decoder follows the path, and then reads the index.
  lemma {:induction false} CodeReads(t: Tree, c: Climb, z: seq<int>, n: int, u: int, path: seq<bool>, index: seq<bool>)
    requires Working(t, c, z) && 0 <= n < N && u in c.order && path != [] && Descends(t.links, u, path, Target(t, n))
    requires |index| == if t.weight[n] == 0 then IndexSize(t.zeroCount) else 0
    ensures ReadsTo(t, Reader(u, []), path + index, Reader(Target(t, n), index))
    decreases |path|
  {
    hide Rest, ClimbFrom;
    assert CountedAt(t, c.order, z, n);
    NodeShape(t, c, z, u);
    var p := if path[0] then t.links.rightChild[u] else t.links.leftChild[u];
    NodeShape(t, c, z, p);
    IndexFits(t.zeroCount);
    var bits := path + index;
    assert ReadBit(t, Reader(u, []), bits[0]).0 == Reader(p, []);
    if |path| > 1 {
      CodeReads(t, c, z, n, p, path[1..], index);
      assert bits[1..] == path[1..] + index;
      NodeShape(t, c, z, p);
    } else if index != [] {
      assert path[1..] == [] && p == t.zeros;
      assert ZeroAt(t.links, z, 0) && CountedAt(t, c.order, z, z[0]);
      IndexReads(t, Reader(p, []), index);
      assert [] + index == index && bits[1..] == index;
    } else {
      assert bits == path;
    }
  }

  // A decoder whose tree is the encoder's reads back each code: it is complete at its
  // last bit and no sooner, and gives the symbol.
  lemma ReadsCode(t: Tree, n: int, bits: seq<bool>, stale: bool) returns (r: Reader)
    requires Proper(t) && Coded(t, n, bits)
    ensures Node(t.links.root) && ReadsTo(t, Reader(t.links.root, []), bits, r)
    ensures Node(r.ptr) && ReadSymbol(t, r, stale) == n
  {
    var path, index :| CodeIs(t, n, path, index) && bits == path + index;
    r := Reader(Target(t, n), index);
    if Unstarted(t) {
      var z :| Fresh(t, z);
      ReadsFirst(t, z, n, path, index);
    } else {
      var c, z :| Working(t, c, z);
      ReadsLater(t, c, z, n, path, index, stale);
    }
  }

  lemma ReadsFirst(t: Tree, z: seq<int>, n: int, path: seq<bool>, index: seq<bool>)
    requires Fresh(t, z) && CodeIs(t, n, path, index)
    ensures Node(t.links.root) && path == [] && index != []
    ensures ReadsTo(t, Reader(t.links.root, []), path + index, Reader(Target(t, n), index))
    ensures Target(t, n) == t.links.root && t.weight[t.links.root] == 0
  {
    assert ZeroAt(t.links, z, 0);
    assert FreshAt(t, n) && FreshAt(t, z[0]);
    IndexFits(t.zeroCount);
    IndexReads(t, Reader(t.links.root, []), index);
    assert path + index == index && [] + index == index;
  }

  lemma ReadsLater(t: Tree, c: Climb, z: seq<int>, n: int, path: seq<bool>, index: seq<bool>, stale: bool)
    requires Working(t, c, z) && CodeIs(t, n, path, index)
    ensures Node(t.links.root)
    ensures var r := Reader(Target(t, n), index);
            Node(r.ptr) && ReadsTo(t, Reader(t.links.root, []), path + index, r) && ReadSymbol(t, r, stale) == n
  {
    assert CountedAt(t, c.order, z, n);
    RootInner(t, c, z);
    assert z != [] ==> ZeroAt(t.links, z, 0);
    hide Rest;
    CodeReads(t, c, z, n, t.links.root, path, index);
    if t.weight[n] == 0 {
      assert CountedAt(t, c.order, z, z[0]);
      if index == [] {
        IndexFits(t.zeroCount);
        NthZeroIs(t.links, t.zeros, z, 0, Value([stale]));
      }
    }
  }

  // The root of a tree with symbols is not a leaf: it is the parent of the node that
  // ranks highest among the others.
  lemma RootInner(t: Tree, c: Climb, z: seq<int>)
    requires Working(t, c, z)
    ensures N <= t.links.root < NODES && t.links.root in c.order
  {
    var l, m := t.links, |c.order| - 1;
    var tied := if t.zeros != NULL then c.order[2] else NULL;
    RestRanks(t, c, tied);
    TwoNodes(t, c, z);
    assert AllNodes(c.order);
    var k := HighestRank(l, c.order, c.w0, m);
    var u := c.order[k];
    assert u in c.order && u != l.root;
    assert ChildOk(l, c.order, u) && RankOk(l, c.w0, u);
    var i :| 0 <= i < |c.order| && c.order[i] == l.parent[u];
    assert i == m;
    hide Rank, Tie;
  }

  lemma ZeroHead(l: Links, zeros: int, z: seq<int>)
    requires ZeroList(l, zeros, z)
    ensures z != [] ==> 0 <= zeros < N
  {
    if z != [] {
      assert ZeroAt(l, z, 0);
    }
  }

  lemma TwoNodes(t: Tree, c: Climb, z: seq<int>)
    requires Working(t, c, z)
    ensures |c.order| >= 2 && Distinct(c.order)
  {
    if t.zeros == NULL {
      ZeroHead(t.links, t.zeros, z);
      assert CountedAt(t, c.order, z, 0) && CountedAt(t, c.order, z, 1);
      assert 0 in c.order && 1 in c.order;
    }
  }
}
