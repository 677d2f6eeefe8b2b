// The adaptive Huffman encoder and decoder in step (xdelta3-fgk.h): one update after
// another, the code of a section, and what the decoder makes of it.
module FgkLockstep {

  import opened Bytes
  import opened BitLayer
  import opened Fgk
  import opened FgkUpdate
  import opened FgkCoder
  import opened FgkBits

  // ---------- one update after another ----------

  // Every update of a proper tree leaves one, with one more count for the symbol.
  lemma UpdateKeeps(t: Tree, n: int) returns (t': Tree)
    requires Proper(t) && 0 <= n < N
    ensures Updated(t, n, t') && Started(t') && CountsOne(t, t', n)
  {
    hide Rest, Goes, Updated, CountsOne;
    if Unstarted(t) {
      var z :| Fresh(t, z);
      assert n in z;
      var i :| 0 <= i < |z| && z[i] == n;
      t' := UpdateFirst(t, z, i);
    } else {
      var c, z :| Working(t, c, z);
      assert CountedAt(t, c.order, z, n);
      if t.weight[n] > 0 {
        t' := UpdateKnown(t, c, z, n);
      } else {
        var i :| 0 <= i < |z| && z[i] == n;
        if |z| >= 2 {
          t' := UpdateNew(t, c, z, i);
        } else {
          t' := UpdateLast(t, c, z);
        }
      }
    }
  }

  lemma UpdateExists(t: Tree, n: int)
    requires Proper(t) && 0 <= n < N
    ensures exists t' :: Updated(t, n, t') && Started(t') && CountsOne(t, t', n)
  {
    var t' := UpdateKeeps(t, n);
  }

  // And leaves only one tree.
  lemma UpdatedOnce(t: Tree, n: int, t1: Tree, t2: Tree)
    requires Updated(t, n, t1) && Updated(t, n, t2)
    ensures t1 == t2
  {
    var turns1: nat :| if t.weight[n] == 0 then Increasable(t, n) && Goes(Increase(t, n), n, t1, turns1)
                       else Goes(t, n, t1, turns1);
    var turns2: nat :| if t.weight[n] == 0 then Increasable(t, n) && Goes(Increase(t, n), n, t2, turns2)
                       else Goes(t, n, t2, turns2);
    if t.weight[n] == 0 {
      GoesOnce(Increase(t, n), n, t1, turns1, t2, turns2);
    } else {
      GoesOnce(t, n, t1, turns1, t2, turns2);
    }
  }

  // The tree after a symbol.
  ghost function After(t: Tree, n: int): (t': Tree)
    requires Proper(t) && 0 <= n < N
    ensures Updated(t, n, t') && Started(t') && Proper(t') && CountsOne(t, t', n)
  {
    hide Started, Unstarted, Updated, CountsOne;
    UpdateExists(t, n);
    var t' :| Updated(t, n, t') && Started(t') && CountsOne(t, t', n);
    t'
  }

  // The tree after a section.
  ghost function AfterAll(t: Tree, data: seq<byte>): (t': Tree)
    requires Proper(t)
    ensures Proper(t')
    decreases |data|
  {
    if data == [] then t else AfterAll(After(t, data[0]), data[1..])
  }

  // The weights of the leaves count the symbols seen.
  lemma {:induction false} WeightsCount(t: Tree, data: seq<byte>, n: int)
    requires Proper(t) && 0 <= n < N
    ensures t.Sized() && AfterAll(t, data).Sized()
    ensures AfterAll(t, data).weight[n] == t.weight[n] + Occurrences(data, n)
    decreases |data|
  {
    ProperSized(t);
    if data != [] {
      hide Proper;
      assert CountsOne(t, After(t, data[0]), data[0]);
      OccurrencesFirst(data, n);
      WeightsCount(After(t, data[0]), data[1..], n);
    }
  }

  lemma ProperSized(t: Tree)
    requires Proper(t)
    ensures t.Sized() && Node(t.links.root)
  {
    hide BlocksOk, TreeOk, Linked, LinkedBack, Sums;
    if Unstarted(t) {
      var z :| Fresh(t, z);
      assert ZeroAt(t.links, z, 0);
    } else {
      var c, z :| Working(t, c, z);
      RootInner(t, c, z);
    }
  }

  // The weights of the leaves together count the symbols.
  function LeafTotal(t: Tree, n: nat): nat
    requires t.Sized() && n <= N
  {
    if n == 0 then 0 else LeafTotal(t, n - 1) + t.weight[n - 1]
  }

  lemma {:induction false} CountsOneTotal(t: Tree, t': Tree, x: int, n: nat)
    requires CountsOne(t, t', x) && n <= N
    ensures LeafTotal(t', n) == LeafTotal(t, n) + if x < n then 1 else 0
  {
    if n > 0 {
      CountsOneTotal(t, t', x, n - 1);
    }
  }

  lemma {:induction false} SectionTotal(t: Tree, data: seq<byte>)
    requires Proper(t)
    ensures t.Sized() && AfterAll(t, data).Sized()
    ensures LeafTotal(AfterAll(t, data), N) == LeafTotal(t, N) + |data|
    decreases |data|
  {
    ProperSized(t);
    if data != [] {
      hide Proper, LeafTotal, CountsOne;
      CountsOneTotal(t, After(t, data[0]), data[0], N);
      SectionTotal(After(t, data[0]), data[1..]);
    }
  }

  // The parent outranks the node, and is one of the internal nodes taken.
  lemma UpStep(t: Tree, c: Climb, z: seq<int>, u: int)
    requires Working(t, c, z) && u in c.order && u != t.links.root
    ensures Node(u)
    ensures var p := t.links.parent[u];
            && p in c.order && N <= p < t.freeNode && p < NODES && (t.links.leftChild[p] == u || t.links.rightChild[p] == u)
            && Rank(t.links, c.w0, u) < Rank(t.links, c.w0, p)
  {
    var tied := if t.zeros != NULL then c.order[2] else NULL;
    RestRanks(t, c, tied);
    ParentOf(t.links, c.order, u);
    assert RankOk(t.links, c.w0, u);
    assert CountedAt(t, c.order, z, t.links.parent[u]);
    hide Rank, Tie;
  }

  // ---------- each symbol has one code ----------

  // The last step down to a node is from its parent.
  lemma {:induction false} DescendsLast(t: Tree, c: Climb, z: seq<int>, u: int, path: seq<bool>, v: int)
    requires Working(t, c, z) && u in c.order && path != [] && Descends(t.links, u, path, v)
    ensures Node(v) && Node(u)
    ensures var p, n := t.links.parent[v], |path| - 1;
            && v in c.order && v != t.links.root && p in c.order && Node(p) && Descends(t.links, u, path[..n], p)
            && path[n] == (t.links.rightChild[p] == v) && Rank(t.links, c.w0, v) < Rank(t.links, c.w0, u)
    decreases |path|
  {
    NodeShape(t, c, z, u);
    var child := if path[0] then t.links.rightChild[u] else t.links.leftChild[u];
    ChildOf(t, c, z, u, path[0]);
    hide Working, Rank;
    if |path| == 1 {
      assert path[1..] == [] && path[..0] == [];
    } else {
      DescendsLast(t, c, z, child, path[1..], v);
      var n := |path| - 1;
      assert path[1..][..n - 1] == path[..n][1..];
    }
  }

  lemma ChildOf(t: Tree, c: Climb, z: seq<int>, u: int, right: bool)
    requires Working(t, c, z) && u in c.order && N <= u < NODES
    ensures var v := if right then t.links.rightChild[u] else t.links.leftChild[u];
            && v in c.order && Node(v) && t.links.parent[v] == u && v != t.links.root && right == (t.links.rightChild[u] == v)
            && Rank(t.links, c.w0, v) < Rank(t.links, c.w0, u)
  {
    assert ParentOk(t.links, c.order, u);
    RestRanks(t, c, if t.zeros != NULL then c.order[2] else NULL);
    assert RankOk(t.links, c.w0, if right then t.links.rightChild[u] else t.links.leftChild[u]);
    hide Rank, Tie;
  }

  // There is one way down to a node.
  lemma {:induction false} OneWayDown(t: Tree, c: Climb, z: seq<int>, u: int, p: seq<bool>, q: seq<bool>, v: int)
    requires Working(t, c, z) && u in c.order && Descends(t.links, u, p, v) && Descends(t.links, u, q, v)
    ensures p == q
    decreases |p|
  {
    assert t.links.Sized();
    hide Working, Rank;
    if p != [] {
      DescendsLast(t, c, z, u, p, v);
    }
    if q != [] {
      DescendsLast(t, c, z, u, q, v);
    }
    if p != [] && q != [] {
      var m, n := |p| - 1, |q| - 1;
      OneWayDown(t, c, z, u, p[..m], q[..n], t.links.parent[v]);
      assert p == p[..m] + [p[m]] && q == q[..n] + [q[n]];
    }
  }

  lemma {:induction false} ValueInjective(a: seq<bool>, b: seq<bool>)
    requires |a| == |b| && Value(a) == Value(b)
    ensures a == b
  {
    if a != [] {
      var n := |a| - 1;
      ValueInjective(a[..n], b[..n]);
      assert a == a[..n] + [a[n]] && b == b[..n] + [b[n]];
    }
  }

  // Every symbol has no more than one code.
  lemma CodeOnce(t: Tree, n: int, a: seq<bool>, b: seq<bool>)
    requires Proper(t) && Coded(t, n, a) && Coded(t, n, b)
    ensures a == b
  {
    var p, i :| CodeIs(t, n, p, i) && a == p + i;
    var q, j :| CodeIs(t, n, q, j) && b == q + j;
    if Unstarted(t) {
      var z :| Fresh(t, z);
      ReadsFirst(t, z, n, p, i);
      ReadsFirst(t, z, n, q, j);
      IndexOnce(t, z, n, p, i, q, j);
    } else {
      var c, z :| Working(t, c, z);
      RootInner(t, c, z);
      OneWayDown(t, c, z, t.links.root, p, q, Target(t, n));
      assert CountedAt(t, c.order, z, n);
      IndexOnce(t, z, n, p, i, q, j);
    }
  }

  lemma IndexOnce(t: Tree, z: seq<int>, n: int, p: seq<bool>, i: seq<bool>, q: seq<bool>, j: seq<bool>)
    requires CodeIs(t, n, p, i) && CodeIs(t, n, q, j) && ZeroList(t.links, t.zeros, z)
    requires t.weight[n] == 0 ==> z != [] && t.zeroCount == |z|
    ensures i == j
  {
    if t.weight[n] == 0 {
      NthZeroIs(t.links, t.zeros, z, 0, Value(i));
      NthZeroIs(t.links, t.zeros, z, 0, Value(j));
      ValueInjective(i, j);
    }
  }

  lemma {:induction false} DescendsSnoc(l: Links, u: int, path: seq<bool>, v: int, right: bool)
    requires l.Sized() && Descends(l, u, path, v) && N <= v < NODES
    ensures Descends(l, u, path + [right], if right then l.rightChild[v] else l.leftChild[v])
    decreases |path|
  {
    if path != [] {
      DescendsSnoc(l, if path[0] then l.rightChild[u] else l.leftChild[u], path[1..], v, right);
      assert (path + [right])[1..] == path[1..] + [right];
    } else {
      assert [] + [right] == [right] && [right][1..] == [];
    }
  }

  // There is a way down to every node.
  lemma {:induction false} WayDown(t: Tree, c: Climb, z: seq<int>, u: int) returns (path: seq<bool>)
    requires Working(t, c, z) && u in c.order
    ensures Descends(t.links, t.links.root, path, u)
    decreases UpLeft(t, c, u)
  {
    if u == t.links.root {
      path := [];
    } else {
      UpStep(t, c, z, u);
      UpNearer(t, c, z, u);
      var p := t.links.parent[u];
      path := WayDown(t, c, z, p);
      DescendsSnoc(t.links, t.links.root, path, p, t.links.rightChild[p] == u);
      path := path + [t.links.rightChild[p] == u];
    }
  }

  function UpLeft(t: Tree, c: Climb, u: int): int {
    if t.Sized() && |c.w0| == NODES && Node(u) && Node(t.links.root) then Rank(t.links, c.w0, t.links.root) - Rank(t.links, c.w0, u)
    else 0
  }

  lemma UpNearer(t: Tree, c: Climb, z: seq<int>, u: int)
    requires Working(t, c, z) && u in c.order && u != t.links.root
    ensures Node(u) && 0 <= UpLeft(t, c, t.links.parent[u]) < UpLeft(t, c, u)
  {
    UpStep(t, c, z, u);
    var tied := if t.zeros != NULL then c.order[2] else NULL;
    RestRanks(t, c, tied);
    RootHighest(t.links, c.order, c.w0, {}, tied, t.links.parent[u]);
    hide Rank;
  }

  // Every symbol has a code.
  lemma CodeExists(t: Tree, n: int) returns (bits: seq<bool>)
    requires Proper(t) && 0 <= n < N
    ensures Coded(t, n, bits)
  {
    var path, z := TargetWay(t, n);
    hide Proper;
    var index: seq<bool> := [];
    if t.weight[n] == 0 {
      var i :| 0 <= i < |z| && z[i] == n;
      NthZeroIs(t.links, t.zeros, z, 0, i);
      IndexFits(t.zeroCount);
      ValueOfHighFirst(i, IndexSize(t.zeroCount));
      index := HighFirst(i, IndexSize(t.zeroCount));
    }
    assert CodeIs(t, n, path, index);
    bits := path + index;
  }

  // The way down to the leaf whose path is sent, and the zeros.
  lemma TargetWay(t: Tree, n: int) returns (path: seq<bool>, z: seq<int>)
    requires Proper(t) && 0 <= n < N
    ensures t.Sized() && ZeroList(t.links, t.zeros, z) && (t.weight[n] == 0 ==> n in z && |z| == t.zeroCount && t.zeros == z[0])
    ensures Descends(t.links, t.links.root, path, Target(t, n))
  {
    if Unstarted(t) {
      z :| Fresh(t, z);
      assert FreshAt(t, n);
      path := [];
    } else {
      var c, z' :| Working(t, c, z');
      z := z';
      assert CountedAt(t, c.order, z, n);
      assert z != [] ==> ZeroAt(t.links, z, 0) && CountedAt(t, c.order, z, z[0]);
      hide Rest, Descends;
      path := WayDown(t, c, z, Target(t, n));
    }
  }

  // ---------- the code of a section ----------

  // The bits are the codes of the symbols one after another, each by the tree the
  // ones before have left.
  ghost predicate Encodes(t: Tree, data: seq<byte>, bits: seq<bool>)
    requires Proper(t)
    decreases |data|
  {
    if data == [] then bits == []
    else exists k :: 0 <= k <= |bits| && Coded(t, data[0], bits[..k]) && Encodes(After(t, data[0]), data[1..], bits[k..])
  }

  lemma EncodesNone(t: Tree)
    requires Proper(t)
    ensures Encodes(t, [], []) && AfterAll(t, []) == t
  {
  }

  lemma EncodesCons(t: Tree, data: seq<byte>, bits: seq<bool>, k: nat)
    requires Proper(t) && data != [] && k <= |bits| && Coded(t, data[0], bits[..k])
    requires Encodes(After(t, data[0]), data[1..], bits[k..])
    ensures Encodes(t, data, bits) && AfterAll(t, data) == AfterAll(After(t, data[0]), data[1..])
  {
    hide Proper, Coded, After;
  }

  lemma EncodesHead(t: Tree, data: seq<byte>, bits: seq<bool>) returns (k: nat)
    requires Proper(t) && data != [] && Encodes(t, data, bits)
    ensures k <= |bits| && Coded(t, data[0], bits[..k]) && Encodes(After(t, data[0]), data[1..], bits[k..])
    ensures AfterAll(t, data) == AfterAll(After(t, data[0]), data[1..])
  {
    hide Proper, Coded, After;
    k :| 0 <= k <= |bits| && Coded(t, data[0], bits[..k]) && Encodes(After(t, data[0]), data[1..], bits[k..]);
  }

  lemma EncodesEmpty(t: Tree, bits: seq<bool>)
    requires Proper(t) && Encodes(t, [], bits)
    ensures bits == []
  {
  }

  ghost function CodeOf(t: Tree, n: int): (bits: seq<bool>)
    requires Proper(t) && 0 <= n < N
    ensures Coded(t, n, bits)
  {
    hide Coded;
    SomeCode(t, n);
    var bits :| Coded(t, n, bits);
    bits
  }

  lemma SomeCode(t: Tree, n: int)
    requires Proper(t) && 0 <= n < N
    ensures exists bits :: Coded(t, n, bits)
  {
    var bits := CodeExists(t, n);
  }

  // The one code of a section.
  ghost function SectionCode(t: Tree, data: seq<byte>): seq<bool>
    requires Proper(t)
    decreases |data|
  {
    if data == [] then [] else CodeOf(t, data[0]) + SectionCode(After(t, data[0]), data[1..])
  }

  lemma {:induction false} EncodesOnce(t: Tree, data: seq<byte>, bits: seq<bool>)
    requires Proper(t)
    ensures Encodes(t, data, bits) <==> bits == SectionCode(t, data)
    decreases |data|
  {
    hide Proper, Coded, After, Encodes, AfterAll;
    EncodesNone(t);
    if data == [] {
      if Encodes(t, data, bits) {
        EncodesEmpty(t, bits);
      }
    } else {
      var code, t' := CodeOf(t, data[0]), After(t, data[0]);
      var rest := SectionCode(t', data[1..]);
      EncodesOnce(t', data[1..], rest);
      assert (code + rest)[..|code|] == code && (code + rest)[|code|..] == rest;
      EncodesCons(t, data, code + rest, |code|);
      if Encodes(t, data, bits) {
        var k := EncodesHead(t, data, bits);
        CodeOnce(t, data[0], bits[..k], code);
        EncodesOnce(t', data[1..], bits[k..]);
        assert bits == bits[..k] + bits[k..];
      }
    }
  }

  // What the decoder makes of bits: the symbols, its tree then, and how many bits it
  // has read.
  datatype Decoded = Decoded(data: seq<byte>, tree: Tree, used: nat)

  // At a node of a proper tree that a prefix of a code leads to.
  ghost predicate At(t: Tree, r: Reader) {
    && Proper(t) && Node(r.ptr)
    && ((Unstarted(t) && r.ptr == t.links.root) || (exists c, z :: Working(t, c, z) && r.ptr in c.order))
  }

  // The tree never leads astray: every bit goes on to a node where another can be
  // read, or completes a code.
  lemma ReadStays(t: Tree, r: Reader, bit: bool)
    requires At(t, r) && ReadOk(t, r)
    ensures var (next, done) := ReadBit(t, r, bit);
            At(t, next) && (if done then 0 <= ReadSymbol(t, next, false) < N else ReadOk(t, next))
  {
    var (next, done) := ReadBit(t, r, bit);
    if Unstarted(t) && r.ptr == t.links.root {
      var z :| Fresh(t, z);
      assert ZeroAt(t.links, z, 0);
      assert FreshAt(t, z[0]);
      ZeroSymbol(t, z, if next.index == [] then [false] else next.index);
    } else {
      var c, z :| Working(t, c, z) && r.ptr in c.order;
      ReadStaysLater(t, c, z, r, bit);
    }
  }

  lemma ZeroSymbol(t: Tree, z: seq<int>, index: seq<bool>)
    requires t.Sized() && ZeroList(t.links, t.zeros, z) && z != []
    ensures 0 <= NthZero(t.links, t.zeros, Value(index)) < N
  {
    NthZeroIs(t.links, t.zeros, z, 0, Value(index));
    var k := if Value(index) < |z| then Value(index) else |z| - 1;
    assert ZeroAt(t.links, z, k);
  }

  lemma ReadStaysLater(t: Tree, c: Climb, z: seq<int>, r: Reader, bit: bool)
    requires Working(t, c, z) && r.ptr in c.order && ReadOk(t, r)
    ensures var (next, done) := ReadBit(t, r, bit);
            && Node(next.ptr) && next.ptr in c.order
            && (if done then 0 <= ReadSymbol(t, next, false) < N else ReadOk(t, next))
  {
    var (next, done) := ReadBit(t, r, bit);
    NodeShape(t, c, z, r.ptr);
    NodeShape(t, c, z, next.ptr);
    ZeroHead(t.links, t.zeros, z);
    IndexFits(t.zeroCount);
    hide Rest;
    if t.weight[next.ptr] == 0 {
      ZeroSymbol(t, z, if next.index == [] then [false] else next.index);
    }
  }

  // The start of a code.
  lemma StartAt(t: Tree)
    requires Proper(t)
    ensures At(t, Reader(t.links.root, [])) && ReadOk(t, Reader(t.links.root, []))
  {
    if Unstarted(t) {
      var z :| Fresh(t, z);
      assert ZeroAt(t.links, z, 0);
      assert FreshAt(t, z[0]);
      IndexFits(t.zeroCount);
    } else {
      var c, z :| Working(t, c, z);
      RootInner(t, c, z);
      NodeShape(t, c, z, t.links.root);
      hide Rest;
    }
  }

  lemma FreshCount(t: Tree)
    ensures Unstarted(t) ==> t.zeroCount == N
  {
    if Unstarted(t) {
      var z :| Fresh(t, z);
    }
  }

  // The stale bit that is read for an index of no bits does not matter.
  lemma StaleBit(t: Tree, r: Reader, stale: bool)
    requires At(t, r) && (r.index == [] && t.weight[r.ptr] == 0 ==> t.zeroCount == 1)
    ensures ReadSymbol(t, r, stale) == ReadSymbol(t, r, false)
  {
    FreshCount(t);
    if r.index == [] && t.weight[r.ptr] == 0 {
      var c, z :| Working(t, c, z);
      hide Rest;
      if z != [] {
        NthZeroIs(t.links, t.zeros, z, 0, Value([stale]));
        NthZeroIs(t.links, t.zeros, z, 0, Value([false]));
      }
    }
  }

  function Prefixed(data: seq<byte>, used: nat, r: Result<Decoded>): Result<Decoded> {
    match r
    case Ok(d) => Ok(Decoded(data + d.data, d.tree, used + d.used))
    case Fail => Fail
  }

  lemma PrefixedTwice(a: seq<byte>, m: nat, b: seq<byte>, n: nat, r: Result<Decoded>)
    ensures Prefixed(a, m, Prefixed(b, n, r)) == Prefixed(a + b, m + n, r)
  {
    if r.Ok? {
      assert a + (b + r.value.data) == a + b + r.value.data;
    }
  }

  // What the decoder makes of the bits, of as many symbols as asked for.
  ghost function Decode(t: Tree, r: Reader, bits: seq<bool>, size: nat): Result<Decoded>
    requires At(t, r) && ReadOk(t, r)
    decreases |bits|
  {
    if size == 0 then Ok(Decoded([], t, 0))
    else if bits == [] then Fail
    else
      ReadStays(t, r, bits[0]);
      var (next, done) := ReadBit(t, r, bits[0]);
      if !done then Prefixed([], 1, Decode(t, next, bits[1..], size))
      else
        var n := ReadSymbol(t, next, false);
        var t' := After(t, n);
        StartAt(t');
        Prefixed([n], 1, Decode(t', Reader(t'.links.root, []), bits[1..], size - 1))
  }

  function Start(t: Tree): Reader {
    Reader(t.links.root, [])
  }

  ghost predicate AtStart(t: Tree) {
    At(t, Start(t)) && ReadOk(t, Start(t))
  }

  lemma DecodeStep(t: Tree, r: Reader, bits: seq<bool>, size: nat)
    requires At(t, r) && ReadOk(t, r) && bits != [] && size > 0
    ensures var (next, done) := ReadBit(t, r, bits[0]);
            if !done then At(t, next) && ReadOk(t, next)
                          && Decode(t, r, bits, size) == Prefixed([], 1, Decode(t, next, bits[1..], size))
            else
              && At(t, next) && Node(next.ptr) && t.Sized() && 0 <= ReadSymbol(t, next, false) < N && Proper(t)
              && var n := ReadSymbol(t, next, false); var t' := After(t, n);
                 AtStart(t') && Decode(t, r, bits, size) == Prefixed([n], 1, Decode(t', Start(t'), bits[1..], size - 1))
  {
    hide At, Proper, ReadOk, ReadBit, ReadSymbol, After, Prefixed;
    ReadStays(t, r, bits[0]);
    var (next, done) := ReadBit(t, r, bits[0]);
    AtNode(t, next);
    if done {
      StartAt(After(t, ReadSymbol(t, next, false)));
    }
  }

  // One code.
  lemma {:induction false} DecodeCode(t: Tree, r: Reader, bits: seq<bool>, rest: seq<bool>, size: nat, r': Reader)
    requires At(t, r) && ReadsTo(t, r, bits, r') && size > 0
    ensures Node(r'.ptr) && 0 <= ReadSymbol(t, r', false) < N
    ensures var n := ReadSymbol(t, r', false); var t' := After(t, n);
            && At(t', Reader(t'.links.root, [])) && ReadOk(t', Reader(t'.links.root, []))
            && Decode(t, r, bits + rest, size)
               == Prefixed([n], |bits|, Decode(t', Reader(t'.links.root, []), rest, size - 1))
    decreases |bits|
  {
    hide At, Proper, ReadOk, ReadBit, ReadSymbol, After, Decode, Prefixed;
    var all := bits + rest;
    assert all[0] == bits[0] && all[1..] == bits[1..] + rest;
    DecodeStep(t, r, all, size);
    var (next, done) := ReadBit(t, r, bits[0]);
    if |bits| == 1 {
      assert bits[1..] + rest == rest;
    } else {
      DecodeCode(t, next, bits[1..], rest, size, r');
      AtNode(t, next);
      var n := ReadSymbol(t, r', false);
      var t' := After(t, n);
      PrefixedTwice([], 1, [n], |bits| - 1, Decode(t', Reader(t'.links.root, []), rest, size - 1));
      assert [] + [n] == [n];
    }
  }

  lemma AtNode(t: Tree, r: Reader)
    requires At(t, r)
    ensures Node(r.ptr) && t.Sized() && Proper(t)
  {
    ProperSized(t);
  }

  // A decoder that starts from the encoder's tree gives back the section from its
  // code, whatever follows it, reads no further, and ends with the encoder's tree.
  lemma {:induction false} Lockstep(t: Tree, data: seq<byte>, bits: seq<bool>, rest: seq<bool>)
    requires Proper(t) && Encodes(t, data, bits)
    ensures At(t, Reader(t.links.root, [])) && ReadOk(t, Reader(t.links.root, []))
    ensures Decode(t, Reader(t.links.root, []), bits + rest, |data|) == Ok(Decoded(data, AfterAll(t, data), |bits|))
    decreases |data|
  {
    hide At, Coded, Proper, ReadOk, ReadBit, ReadSymbol, Started, Unstarted, CodeIs, ReadsTo, Encodes, AfterAll, After, Prefixed, Decode;
    StartAt(t);
    if data == [] {
      EncodesEmpty(t, bits);
      EncodesNone(t);
      DecodeEnds(t, Start(t), bits + rest, 0);
    } else {
      var k := EncodesHead(t, data, bits);
      EncodesCons(t, data, bits, k);
      var t1 := After(t, data[0]);
      Lockstep(t1, data[1..], bits[k..], rest);
      LockstepOne(t, data[0], bits[..k], t1, bits[k..] + rest, |data| - 1);
      Rejoined(bits, k, rest);
      assert [data[0]] + data[1..] == data;
      PrefixedOne(data[0], k, data[1..], AfterAll(t1, data[1..]), |bits| - k);
    }
  }

  lemma LockstepOne(t: Tree, x: byte, code: seq<bool>, t1: Tree, rest: seq<bool>, size: nat)
    requires Proper(t) && Coded(t, x, code) && t1 == After(t, x)
    ensures AtStart(t) && AtStart(t1)
    ensures Decode(t, Start(t), code + rest, size + 1) == Prefixed([x], |code|, Decode(t1, Start(t1), rest, size))
  {
    hide At, Coded, Proper, ReadOk, ReadSymbol, CodeIs, Started, Unstarted, Decode, After, ReadsTo, ReadBit, Prefixed;
    StartAt(t);
    var r := ReadsCode(t, x, code, false);
    DecodeCode(t, Start(t), code, rest, size + 1, r);
  }

  lemma PrefixedOne(n: byte, k: nat, data: seq<byte>, t: Tree, used: nat)
    ensures Prefixed([n], k, Ok(Decoded(data, t, used))) == Ok(Decoded([n] + data, t, k + used))
  {
  }

  lemma Rejoined(bits: seq<bool>, k: nat, rest: seq<bool>)
    requires k <= |bits|
    ensures bits[..k] + (bits[k..] + rest) == bits + rest
  {
  }

  // As many symbols as asked for, and the tree they leave.
  ghost predicate Taken(t: Tree, size: nat, bits: seq<bool>, r: Result<Decoded>) {
    Proper(t) && (r.Ok? ==> |r.value.data| == size && r.value.tree == AfterAll(t, r.value.data) && r.value.used <= |bits|)
  }

  lemma TakenNone(t: Tree, bits: seq<bool>)
    requires Proper(t)
    ensures Taken(t, 0, bits, Ok(Decoded([], t, 0)))
  {
  }

  lemma TakenBit(t: Tree, size: nat, bits: seq<bool>, r: Result<Decoded>)
    requires bits != [] && Taken(t, size, bits[1..], r)
    ensures Taken(t, size, bits, Prefixed([], 1, r))
  {
    hide Proper, AfterAll;
    if r.Ok? {
      assert [] + r.value.data == r.value.data;
    }
  }

  lemma TakenSymbol(t: Tree, n: byte, size: nat, bits: seq<bool>, r: Result<Decoded>)
    requires Proper(t) && bits != [] && size > 0 && Taken(After(t, n), size - 1, bits[1..], r)
    ensures Taken(t, size, bits, Prefixed([n], 1, r))
  {
    hide Proper, After;
    if r.Ok? {
      assert ([n] + r.value.data)[1..] == r.value.data;
    }
  }

  // Whatever the bits, a decoder that gets to the end has taken as many symbols as
  // asked for, and has the tree they leave.
  lemma {:induction false} DecodedTree(t: Tree, r: Reader, bits: seq<bool>, size: nat)
    requires At(t, r) && ReadOk(t, r)
    ensures Taken(t, size, bits, Decode(t, r, bits, size))
    decreases |bits|
  {
    hide *;
    AtNode(t, r);
    DecodeEnds(t, r, bits, size);
    if size == 0 {
      TakenNone(t, bits);
    } else if bits == [] {
      TakenFail(t, size, bits);
    } else {
      DecodeStep(t, r, bits, size);
      var (next, done) := ReadBit(t, r, bits[0]);
      if !done {
        DecodedTree(t, next, bits[1..], size);
        TakenBit(t, size, bits, Decode(t, next, bits[1..], size));
      } else {
        var n := ReadSymbol(t, next, false);
        var t' := After(t, n);
        Begins(t', n);
        DecodedTree(t', Start(t'), bits[1..], size - 1);
        TakenSymbol(t, n, size, bits, Decode(t', Start(t'), bits[1..], size - 1));
      }
    }
  }

  lemma Begins(t: Tree, n: int)
    requires AtStart(t) && 0 <= n < N
    ensures At(t, Start(t)) && ReadOk(t, Start(t)) && n < 256
  {
  }

  lemma DecodeEnds(t: Tree, r: Reader, bits: seq<bool>, size: nat)
    requires At(t, r) && ReadOk(t, r)
    ensures size == 0 ==> Decode(t, r, bits, size) == Ok(Decoded([], t, 0))
    ensures size > 0 && bits == [] ==> Decode(t, r, bits, size) == Fail
  {
    hide At, ReadOk, ReadBit, ReadSymbol, After, Prefixed;
  }

  lemma TakenFail(t: Tree, size: nat, bits: seq<bool>)
    requires Proper(t)
    ensures Taken(t, size, bits, Fail)
  {
  }

  // ---------- fgk_init ----------

  function Initial(): (t: Tree)
    ensures t.Sized()
  {
    var nulls := seq(NODES, _ => NULL);
    Tree(seq(NODES, _ => 0),
         Links(nulls, seq(NODES, i => if 0 < i < N then i - 1 else NULL),
               seq(NODES, i => if i < N - 1 then i + 1 else NULL), 0),
         nulls, nulls, Blocks(nulls, seq(BLOCKS, _ => NULL), seq(BLOCKS, i => i)), 0, N, N)
  }

  lemma InitialProper()
    ensures Proper(Initial())
  {
    var t := Initial();
    var z := seq(N, i => i);
    forall i {:trigger ZeroAt(t.links, z, i)} | 0 <= i < |z|
      ensures ZeroAt(t.links, z, i)
    {
    }
    forall u {:trigger u in z} | 0 <= u < N
      ensures u in z
    {
      assert z[u] == u;
    }
    forall k {:trigger k in t.blocks.free} | Block(k)
      ensures k in t.blocks.free
    {
      assert t.blocks.free[k] == k;
    }
    forall u {:trigger FreshAt(t, u)} | Node(u)
      ensures FreshAt(t, u)
    {
    }
    assert Fresh(t, z);
  }

  // ---------- the way up ----------

  function Reversed(s: seq<bool>): (r: seq<bool>)
    ensures |r| == |s| && forall i :: 0 <= i < |s| ==> r[i] == s[|s| - 1 - i]
  {
    seq(|s|, i requires 0 <= i < |s| => s[|s| - 1 - i])
  }

  lemma ReversedJoin(a: seq<bool>, b: seq<bool>)
    ensures Reversed(a + b) == Reversed(b) + Reversed(a)
  {
    hide Reversed;
  }

  lemma ReversedSnoc(s: seq<bool>, x: bool)
    ensures Reversed(s + [x]) == [x] + Reversed(s)
  {
    hide Reversed;
  }

  // The internal nodes below a rank are no more than those taken.
  lemma SeenFew(seen: set<int>, lo: int, hi: int)
    requires forall x :: x in seen ==> lo <= x < hi
    requires lo <= hi
    ensures |seen| <= hi - lo
    decreases hi - lo
  {
    if lo < hi {
      SeenFew(seen - {hi - 1}, lo, hi - 1);
      assert |seen| <= |seen - {hi - 1}| + 1 by {
        if hi - 1 in seen {
          assert seen == (seen - {hi - 1}) + {hi - 1};
        } else {
          assert seen == seen - {hi - 1};
        }
      }
    } else {
      assert seen == {};
    }
  }
}
