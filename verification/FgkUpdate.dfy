// A symbol seen for the first time enters the tree of the adaptive Huffman coder
// (xdelta3-fgk.h), and the whole of an update.
module FgkUpdate {

  import opened Fgk

  // ---------- fgk_increase_zero_weight ----------

  // fgk_eliminate_zero: splice a node out of the list of zeros, which is linked by
  // the children fields.
  function Splice(l: Links, zeros: int, n: int): (Links, int)
    requires l.Sized() && Node(zeros) && Node(n)
    requires l.leftChild[n] == NULL ==> Node(l.rightChild[zeros])
    requires l.leftChild[n] != NULL ==> Node(l.leftChild[n]) && (l.rightChild[n] == NULL || Node(l.rightChild[n]))
  {
    if l.leftChild[n] == NULL then
      var head := l.rightChild[zeros];
      (l.(leftChild := l.leftChild[head := NULL]), head)
    else if l.rightChild[n] == NULL then
      (l.(rightChild := l.rightChild[l.leftChild[n] := NULL]), zeros)
    else
      (l.(leftChild := l.leftChild[l.rightChild[n] := l.leftChild[n]],
          rightChild := l.rightChild[l.leftChild[n] := l.rightChild[n]]), zeros)
  }

  // The new internal node takes the place of the zero leaf, with the symbol as its
  // right child, and the rest of the zeros as its left one.
  function InsertLinks(l: Links, zeros: int, n: int, new_: int): (Links, int)
    requires l.Sized() && Node(zeros) && Node(n) && Node(new_) && (zeros != l.root ==> Node(l.parent[zeros]))
    requires n != new_ && zeros != new_
    requires l.leftChild[n] == NULL ==> Node(l.rightChild[zeros]) && l.rightChild[zeros] != new_
    requires l.leftChild[n] != NULL ==>
               Node(l.leftChild[n]) && (l.rightChild[n] == NULL || Node(l.rightChild[n]))
    requires zeros != l.root ==> l.parent[zeros] != n && l.parent[zeros] != zeros && l.parent[zeros] != new_
  {
    var p := l.parent[zeros];
    var l1 := l.(parent := l.parent[new_ := p], rightChild := l.rightChild[new_ := n]);
    var l2 := if zeros == l.root then l1.(root := new_)
              else if l1.rightChild[p] == zeros then l1.(rightChild := l1.rightChild[p := new_])
              else l1.(leftChild := l1.leftChild[p := new_]);
    var (l3, head) := Splice(l2, zeros, n);
    (Links(l3.parent[n := new_][head := new_], l3.leftChild[new_ := head][n := NULL], l3.rightChild[n := NULL], l3.root), head)
  }

  // A zero-weight leaf n among the others: the head of their list, or between two.
  ghost predicate ZeroLeaf(l: Links, zeros: int, n: int) {
    && l.Sized() && 0 <= zeros < N && 0 <= n < N
    && (if n == zeros then l.leftChild[n] == NULL && 0 <= l.rightChild[n] < N && l.rightChild[n] != n
        else 0 <= l.leftChild[n] < N && l.leftChild[n] != n && l.rightChild[n] != n && l.rightChild[n] < N
             && (l.rightChild[n] == NULL || 0 <= l.rightChild[n]))
  }

  ghost predicate InsertedAt(l: Links, l': Links, p: int, n: int, new_: int, head: int, u: int)
    requires l.Sized() && l'.Sized() && Node(u)
  {
    && l'.parent[u] == (if u == new_ then p else if u == n || u == head then new_ else l.parent[u])
    && (u >= N ==>
          && l'.leftChild[u] == (if u == new_ then head else if u == p then new_ else l.leftChild[u])
          && l'.rightChild[u] == (if u == new_ then n else l.rightChild[u]))
  }

  // The list of zeros changes only around n.
  ghost predicate ApartAt(l: Links, l': Links, n: int, head: int, u: int)
    requires l.Sized() && l'.Sized() && Node(u) && Node(n)
  {
    0 <= u < N && u != n && u != head && u != l.leftChild[n] && u != l.rightChild[n] ==>
      l'.leftChild[u] == l.leftChild[u] && l'.rightChild[u] == l.rightChild[u]
  }

  lemma InsertEffect(l: Links, zeros: int, n: int, new_: int)
    requires ZeroLeaf(l, zeros, n) && N <= new_ < NODES && zeros != l.root
    requires var p := l.parent[zeros]; N <= p < NODES && p != new_ && l.leftChild[p] == zeros && l.rightChild[p] != zeros
    ensures var (l', head) := InsertLinks(l, zeros, n, new_);
            && l'.Sized() && l'.root == l.root && head == (if n == zeros then l.rightChild[zeros] else zeros) && 0 <= head < N
            && l'.leftChild[n] == l'.rightChild[n] == NULL
            && (forall u {:trigger InsertedAt(l, l', l.parent[zeros], n, new_, head, u)} ::
                  Node(u) ==> InsertedAt(l, l', l.parent[zeros], n, new_, head, u))
            && (forall u {:trigger ApartAt(l, l', n, head, u)} :: Node(u) ==> ApartAt(l, l', n, head, u))
  {
  }

  // Three nodes in place of the first.
  function Grown(order: seq<int>, head: int, n: int, new_: int): seq<int>
    requires order != []
  {
    [head, n, new_] + order[1..]
  }

  lemma GrownNodes(order: seq<int>, head: int, n: int, new_: int)
    requires order != [] && AllNodes(order) && Distinct(order) && Node(head) && Node(n) && Node(new_)
    requires head != n && head != new_ && n != new_
    requires forall i :: 1 <= i < |order| ==> order[i] != head && order[i] != n && order[i] != new_
    ensures AllNodes(Grown(order, head, n, new_)) && Distinct(Grown(order, head, n, new_))
    ensures forall u :: u in Grown(order, head, n, new_) <==> u == head || u == n || u == new_ || (u in order && u != order[0])
  {
    var order' := Grown(order, head, n, new_);
    assert forall i :: 3 <= i < |order'| ==> order'[i] == order[i - 2];
    forall u | u in order && u != order[0]
      ensures u in order'
    {
      var i :| 0 <= i < |order| && order[i] == u;
      assert order'[i + 2] == u;
    }
  }

  lemma InsertTree(l: Links, l': Links, order: seq<int>, n: int, new_: int, head: int)
    requires TreeOk(l, order) && Distinct(order) && l'.Sized() && l'.root == l.root && 0 <= n < N && 0 <= head < N
    requires N <= new_ < NODES && new_ !in order && head != n && order[0] != l.root && 0 <= order[0] < N
    requires (n in order ==> n == order[0]) && (head in order ==> head == order[0])
    requires var p := l.parent[order[0]]; N <= p < NODES && l.leftChild[p] == order[0]
    requires forall u {:trigger InsertedAt(l, l', l.parent[order[0]], n, new_, head, u)} ::
               Node(u) ==> InsertedAt(l, l', l.parent[order[0]], n, new_, head, u)
    ensures TreeOk(l', Grown(order, head, n, new_)) && l.parent[order[0]] in order
    ensures AllNodes(Grown(order, head, n, new_)) && Distinct(Grown(order, head, n, new_))
  {
    hide ChildOk, Grown, ParentOk;
    var p, order' := l.parent[order[0]], Grown(order, head, n, new_);
    GrownNodes(order, head, n, new_);
    ParentOf(l, order, order[0]);
    assert InsertedAt(l, l', p, n, new_, head, l.root);
    forall u | u in order' && u != l'.root
      ensures ChildOk(l', order', u)
    {
      InsertChild(l, l', order, n, new_, head, u);
    }
    forall u | u in order' && u >= N
      ensures ParentOk(l', order', u)
    {
      InsertParent(l, l', order, n, new_, head, u);
    }
  }

  lemma InsertChild(l: Links, l': Links, order: seq<int>, n: int, new_: int, head: int, u: int)
    requires TreeOk(l, order) && Distinct(order) && l'.Sized() && l'.root == l.root && 0 <= n < N && 0 <= head < N
    requires N <= new_ < NODES && new_ !in order && head != n && order[0] != l.root && 0 <= order[0] < N
    requires (n in order ==> n == order[0]) && (head in order ==> head == order[0])
    requires var p := l.parent[order[0]]; p in order && N <= p < NODES && l.leftChild[p] == order[0]
    requires forall u {:trigger InsertedAt(l, l', l.parent[order[0]], n, new_, head, u)} ::
               Node(u) ==> InsertedAt(l, l', l.parent[order[0]], n, new_, head, u)
    requires u in Grown(order, head, n, new_) && u != l'.root && Node(u)
    requires forall u :: u in Grown(order, head, n, new_) <==> u == head || u == n || u == new_ || (u in order && u != order[0])
    ensures ChildOk(l', Grown(order, head, n, new_), u)
  {
    var p := l.parent[order[0]];
    assert InsertedAt(l, l', p, n, new_, head, u) && InsertedAt(l, l', p, n, new_, head, new_);
    assert InsertedAt(l, l', p, n, new_, head, p);
    if u in order && u != order[0] {
      ParentOf(l, order, u);
      assert InsertedAt(l, l', p, n, new_, head, l.parent[u]);
    }
    hide Grown;
  }

  lemma InsertParent(l: Links, l': Links, order: seq<int>, n: int, new_: int, head: int, u: int)
    requires TreeOk(l, order) && Distinct(order) && l'.Sized() && l'.root == l.root && 0 <= n < N && 0 <= head < N
    requires N <= new_ < NODES && new_ !in order && head != n && order[0] != l.root && 0 <= order[0] < N
    requires (n in order ==> n == order[0]) && (head in order ==> head == order[0])
    requires var p := l.parent[order[0]]; p in order && N <= p < NODES && l.leftChild[p] == order[0]
    requires forall u {:trigger InsertedAt(l, l', l.parent[order[0]], n, new_, head, u)} ::
               Node(u) ==> InsertedAt(l, l', l.parent[order[0]], n, new_, head, u)
    requires u in Grown(order, head, n, new_) && u >= N && Node(u)
    requires forall u :: u in Grown(order, head, n, new_) <==> u == head || u == n || u == new_ || (u in order && u != order[0])
    ensures ParentOk(l', Grown(order, head, n, new_), u)
  {
    var p := l.parent[order[0]];
    assert InsertedAt(l, l', p, n, new_, head, u) && InsertedAt(l, l', p, n, new_, head, new_);
    assert InsertedAt(l, l', p, n, new_, head, n) && InsertedAt(l, l', p, n, new_, head, head);
    if u != new_ {
      assert ParentOk(l, order, u);
      var lc, rc := l.leftChild[u], l.rightChild[u];
      assert InsertedAt(l, l', p, n, new_, head, lc) && InsertedAt(l, l', p, n, new_, head, rc);
      assert ParentOk(l, order, p);
    }
  }

  // ---------- the list and the blocks with a new symbol ----------

  lemma GrownLinked(next: seq<int>, prev: seq<int>, order: seq<int>, head: int, n: int, new_: int)
    requires Linked(next, order) && LinkedBack(prev, order) && |order| >= 2 && Node(head) && Node(n) && Node(new_)
    requires AllNodes(Grown(order, head, n, new_)) && Distinct(Grown(order, head, n, new_)) && prev[head] == NULL
    ensures Linked(next[new_ := order[1]][n := new_][head := n], Grown(order, head, n, new_))
    ensures LinkedBack(prev[new_ := n][order[1] := new_][n := head], Grown(order, head, n, new_))
  {
    var order' := Grown(order, head, n, new_);
    var next' := next[new_ := order[1]][n := new_][head := n];
    var prev' := prev[new_ := n][order[1] := new_][n := head];
    assert order'[0] == head && order'[1] == n && order'[2] == new_ && order'[3] == order[1];
    forall i | 3 <= i < |order'|
      ensures order'[i] == order[i - 2] && order'[i] != head && order'[i] != n && order'[i] != new_
    {
      assert order'[0] != order'[i] && order'[1] != order'[i] && order'[2] != order'[i];
    }
    forall i | 0 <= i < |order'| - 1
      ensures next'[order'[i]] == order'[i + 1]
    {
      if i >= 3 {
        assert next[order[i - 2]] == order[i - 1];
      }
    }
    forall i | 0 < i < |order'|
      ensures prev'[order'[i]] == order'[i - 1]
    {
      if i >= 4 {
        assert prev[order[i - 2]] == order[i - 3];
        assert order'[3] != order'[i];
      }
    }
  }

  // The new nodes join the block of weight one, if there is one, or start one.
  function GrownBlocks(b: Blocks, n: int, new_: int, s: int, joins: bool): Blocks
    requires b.Sized() && Node(n) && Node(new_) && Node(s) && (!joins ==> b.free != [] && Block(b.free[0]))
  {
    var b1 := if joins then b.(of := b.of[new_ := b.of[s]]) else MakeBlock(b, new_);
    b1.(of := b1.of[n := b1.of[new_]])
  }

  function GrownEnds(ends: seq<nat>, joins: bool): seq<nat>
    requires |ends| >= 2
  {
    var e := if joins then ends[1] + 2 else 2;
    [0, e, e] + seq(|ends| - 1, i requires 0 <= i < |ends| - 1 => ends[i + 1] + 2)
  }

  // A climb with the grown list.
  function GrownClimb(c: Climb, head: int, n: int, new_: int, joins: bool): Climb
    requires |c.order| == |c.ends| >= 2
  {
    c.(order := Grown(c.order, head, n, new_), ends := GrownEnds(c.ends, joins))
  }

  ghost predicate GrownFrom(b: Blocks, c: Climb, head: int, n: int, new_: int, joins: bool) {
    && Node(head) && Node(n) && Node(new_)
    && BlocksOk(b, c) && c.first == 1 && |c.order| >= 3 && Distinct(c.order)
    && AllNodes(Grown(c.order, head, n, new_)) && Distinct(Grown(c.order, head, n, new_)) && b.free != [] && Block(b.free[0])
    && (joins ==> c.ends[1] < |c.order| - 1)
  }

  lemma GrownPlaces(b: Blocks, c: Climb, head: int, n: int, new_: int, joins: bool, i: nat)
    requires GrownFrom(b, c, head, n, new_, joins) && 1 <= i < |c.order| + 2
    ensures var b', c' := GrownBlocks(b, n, new_, c.order[1], joins), GrownClimb(c, head, n, new_, joins);
            && |c'.order| == |c'.ends| == |c.order| + 2
            && (i >= 3 ==> c'.order[i] == c.order[i - 2] && b'.of[c'.order[i]] == b.of[c.order[i - 2]]
                           && BlockAt(b, c, i - 2) && c'.ends[i] == c.ends[i - 2] + 2)
            && (i < 3 ==> b'.of[c'.order[i]] == (if joins then b.of[c.order[1]] else b.free[0])
                          && c'.ends[i] == (if joins then c.ends[1] + 2 else 2))
            && BlockAt(b, c, 1)
  {
    var order' := Grown(c.order, head, n, new_);
    assert order'[1] == n && order'[2] == new_ && order'[3] == c.order[1];
    assert BlockAt(b, c, 1);
    if i >= 3 {
      assert order'[i] == c.order[i - 2];
      assert order'[1] != order'[i] && order'[2] != order'[i];
      assert BlockAt(b, c, i - 2);
    }
  }

  lemma GrownKeeps(b: Blocks, c: Climb, head: int, n: int, new_: int, joins: bool)
    requires GrownFrom(b, c, head, n, new_, joins)
    ensures BlocksOk(GrownBlocks(b, n, new_, c.order[1], joins), GrownClimb(c, head, n, new_, joins))
  {
    var b', c' := GrownBlocks(b, n, new_, c.order[1], joins), GrownClimb(c, head, n, new_, joins);
    GrownPlaces(b, c, head, n, new_, joins, 1);
    GrownPlaces(b, c, head, n, new_, joins, 2);
    GrownPlaces(b, c, head, n, new_, joins, 3);
    forall i | 1 <= i < |c'.order|
      ensures BlockAt(b', c', i)
    {
      GrownBlockAt(b, c, head, n, new_, joins, i);
    }
    forall i, m {:trigger SameRun(b', c', i, m)} | 1 <= i <= m < |c'.order|
      ensures SameRun(b', c', i, m)
    {
      GrownSameRun(b, c, head, n, new_, joins, i, m);
    }
    forall i {:trigger c'.ends[i]} | 1 <= i < |c'.order| - 1
      ensures c'.ends[i] != |c'.order| - 1
    {
      GrownPlaces(b, c, head, n, new_, joins, i);
    }
    GrownFree(b, c, head, n, new_, joins);
  }

  lemma GrownBlockAt(b: Blocks, c: Climb, head: int, n: int, new_: int, joins: bool, i: nat)
    requires GrownFrom(b, c, head, n, new_, joins) && 1 <= i < |c.order| + 2
    ensures BlockAt(GrownBlocks(b, n, new_, c.order[1], joins), GrownClimb(c, head, n, new_, joins), i)
  {
    GrownPlaces(b, c, head, n, new_, joins, i);
    GrownPlaces(b, c, head, n, new_, joins, 2);
    if i >= 3 {
      GrownPlaces(b, c, head, n, new_, joins, c.ends[i - 2] + 2);
    } else if joins {
      GrownPlaces(b, c, head, n, new_, joins, c.ends[1] + 2);
    }
  }

  lemma GrownSameRun(b: Blocks, c: Climb, head: int, n: int, new_: int, joins: bool, i: nat, m: nat)
    requires GrownFrom(b, c, head, n, new_, joins) && 1 <= i <= m < |c.order| + 2
    ensures SameRun(GrownBlocks(b, n, new_, c.order[1], joins), GrownClimb(c, head, n, new_, joins), i, m)
  {
    GrownPlaces(b, c, head, n, new_, joins, i);
    GrownPlaces(b, c, head, n, new_, joins, m);
    if m >= 3 {
      assert SameRun(b, c, if i >= 3 then i - 2 else 1, m - 2);
    }
  }

  lemma GrownFree(b: Blocks, c: Climb, head: int, n: int, new_: int, joins: bool)
    requires GrownFrom(b, c, head, n, new_, joins)
    ensures var b', c' := GrownBlocks(b, n, new_, c.order[1], joins), GrownClimb(c, head, n, new_, joins);
            && Distinct(b'.free) && (forall x {:trigger x in b'.free} :: x in b'.free ==> Block(x))
            && (forall x {:trigger Used(b', c', x)} :: Block(x) && x !in b'.free ==> Used(b', c', x))
  {
    var b', c' := GrownBlocks(b, n, new_, c.order[1], joins), GrownClimb(c, head, n, new_, joins);
    GrownPlaces(b, c, head, n, new_, joins, 1);
    forall x {:trigger x in b'.free} | x in b'.free
      ensures Block(x)
    {
      assert x in b.free;
    }
    forall x {:trigger Used(b', c', x)} | Block(x) && x !in b'.free
      ensures Used(b', c', x)
    {
      if x in b.free {
        assert x == b.free[0];
        assert b'.of[c'.order[1]] == x;
      } else {
        assert Used(b, c, x);
        var i :| c.first <= i < |c.order| && b.of[c.order[i]] == x;
        GrownPlaces(b, c, head, n, new_, joins, i + 2);
        assert b'.of[c'.order[i + 2]] == x;
      }
    }
  }

  // fgk_increase_zero_weight: the pointers it follows.
  predicate Increasable(t: Tree, n: int) {
    && t.Sized() && Node(n)
    && if t.zeroCount == 1 then
         Node(t.right[n]) && (t.weight[t.right[n]] != 1 ==> t.blocks.free != [] && Block(t.blocks.free[0]))
       else
         && Node(t.zeros) && Node(t.freeNode) && n != t.freeNode && t.zeros != t.freeNode && t.zeroCount > 0
         && (if t.links.leftChild[n] == NULL then Node(t.links.rightChild[t.zeros]) && t.links.rightChild[t.zeros] != t.freeNode
             else Node(t.links.leftChild[n]) && (t.links.rightChild[n] == NULL || Node(t.links.rightChild[n])))
         && (if t.zeros == t.links.root then
               && |t.blocks.free| >= 2 && Block(t.blocks.free[0]) && Block(t.blocks.free[1])
             else
               && Node(t.links.parent[t.zeros]) && t.links.parent[t.zeros] !in {n, t.zeros, t.freeNode}
               && Node(t.right[t.zeros])
               && (t.weight[t.right[t.zeros]] != 1 ==> t.blocks.free != [] && Block(t.blocks.free[0])))
  }

  function Increase(t: Tree, n: int): (t': Tree)
    requires Increasable(t, n)
  {
    if t.zeroCount == 1 then
      var b := if t.weight[t.right[n]] == 1 then t.blocks.(of := t.blocks.of[n := t.blocks.of[t.right[n]]])
               else MakeBlock(t.blocks, n);
      t.(links := t.links.(rightChild := t.links.rightChild[n := NULL]), blocks := b, zeros := NULL)
    else
      var zero, new_, first := t.zeros, t.freeNode, t.zeros == t.links.root;
      var s := t.right[zero];
      var (links, head) := InsertLinks(t.links, zero, n, new_);
      var left := if first then t.left[new_ := n] else t.left[new_ := n][s := new_];
      var b := if first then MakeBlock(MakeBlock(t.blocks, n), new_) else GrownBlocks(t.blocks, n, new_, s, t.weight[s] == 1);
      Tree(t.weight[new_ := 0], links, left[n := head], t.right[new_ := s][n := new_][head := n], b,
           head, t.zeroCount - 1, new_ + 1)
  }

  // A symbol not seen before, with others left: n is among the zeros and head heads
  // the rest of them.
  ghost predicate NewSymbol(t: Tree, c: Climb, n: int, head: int) {
    && Rest(t, c) && t.zeros != NULL && t.zeroCount > 1 && ZeroLeaf(t.links, t.zeros, n)
    && head == (if n == t.zeros then t.links.rightChild[t.zeros] else t.zeros)
    && (n in c.order ==> n == c.order[0]) && (head in c.order ==> head == c.order[0])
    && N <= t.freeNode < NODES && t.freeNode !in c.order && t.left[head] == NULL && t.weight[n] == 0 == t.weight[head]
    && (t.links.leftChild[n] == NULL || t.weight[t.links.leftChild[n]] == 0)
    && (t.links.rightChild[n] == NULL || t.weight[t.links.rightChild[n]] == 0)
  }

  // The parent and the sibling of the zero leaf.
  lemma ZeroFamily(t: Tree, c: Climb)
    requires Rest(t, c) && t.zeros != NULL
    ensures |c.order| >= 3 && Node(t.zeros) && t.zeros == c.order[0] && t.zeros != t.links.root && c.ends[1] < |c.order| - 1
    ensures var p, s := c.order[2], c.order[1];
            && t.links.parent[t.zeros] == p && t.links.leftChild[p] == t.zeros && t.links.rightChild[p] == s && t.zeros != s
            && t.right[t.zeros] == s && Node(s) && Node(p) && c.w0[t.zeros] == 0 && c.w0[s] > 0 && c.w0[p] == c.w0[s]
            && t.links.parent[s] == p
    ensures t.blocks.free != [] && Block(t.blocks.free[0])
  {
    assert Distinct(c.order);
    BlockLeft(t.blocks, c);
    assert ParentOk(t.links, c.order, c.order[2]) && SumOk(t.links, c.w0, c.order[2]);
    assert WeightOk(t, c, c.order[1]) && BlockAt(t.blocks, c, 1);
    Neighbours(t, c.order, 0);
  }

  lemma GrowingOrder(t: Tree, c: Climb, n: int, head: int)
    requires NewSymbol(t, c, n, head)
    ensures c.order != [] && Node(head) && Node(n) && head != n
    ensures var order' := Grown(c.order, head, n, t.freeNode);
            && AllNodes(order') && Distinct(order')
            && forall u :: u in order' <==> u == head || u == n || u == t.freeNode || (u in c.order && u != t.zeros)
  {
    hide BlocksOk, TreeOk, Sums, LeavesOk, Level, WeightsOk;
    GrownNodes(c.order, head, n, t.freeNode);
  }

  // What it does to a tree with symbols in it.
  lemma IncreaseShape(t: Tree, c: Climb, n: int, head: int)
    requires NewSymbol(t, c, n, head)
    ensures Increasable(t, n) && Node(head) && Node(n) && Node(t.freeNode) && head < N && Increase(t, n).Sized()
    ensures |c.order| >= 3 && Node(c.order[1]) && |c.ends| == |c.order|
    ensures var t', new_, joins := Increase(t, n), t.freeNode, t.weight[c.order[1]] == 1;
            && t'.weight == t.weight[new_ := 0] && t'.zeros == head && t'.zeroCount == t.zeroCount - 1 && t'.freeNode == new_ + 1
            && (!joins ==> t.blocks.free != [] && Block(t.blocks.free[0]))
            && t'.blocks == GrownBlocks(t.blocks, n, new_, c.order[1], joins)
            && t'.links == InsertLinks(t.links, t.zeros, n, new_).0
            && t'.left == t.left[new_ := n][c.order[1] := new_][n := head]
            && t'.right == t.right[new_ := c.order[1]][n := new_][head := n]
  {
    ZeroFamily(t, c);
    hide BlocksOk, TreeOk, Sums, LeavesOk, Level, WeightsOk, Linked, LinkedBack;
  }

  ghost predicate Inserted(l: Links, l': Links, p: int, n: int, new_: int, head: int) {
    && l.Sized() && l'.Sized() && Node(n) && l'.root == l.root && l'.leftChild[n] == l'.rightChild[n] == NULL
    && (forall u {:trigger InsertedAt(l, l', p, n, new_, head, u)} :: Node(u) ==> InsertedAt(l, l', p, n, new_, head, u))
    && (forall u {:trigger ApartAt(l, l', n, head, u)} :: Node(u) ==> ApartAt(l, l', n, head, u))
  }

  lemma IncreaseStructure(t: Tree, c: Climb, n: int, head: int)
    requires NewSymbol(t, c, n, head)
    ensures Increasable(t, n) && |c.order| == |c.ends| >= 3 && Node(c.order[1])
    ensures var t', c' := Increase(t, n), GrownClimb(c, head, n, t.freeNode, t.weight[c.order[1]] == 1);
            && t'.Sized() && ListOk(t', c'.order) && TreeOk(t'.links, c'.order) && t'.links.root == c'.order[|c'.order| - 1]
            && Inserted(t.links, t'.links, c.order[2], n, t.freeNode, head) && BlocksOk(t'.blocks, c')
  {
    hide BlocksOk, Distinct, Increase, InsertLinks, InsertedAt, LeavesOk, Level, LevelAt, Linked, Links.Sized,
         MakeBlock, SameRun, TreeOk, Used, WeightOk, WeightsOk;
    IncreaseShape(t, c, n, head);
    ZeroFamily(t, c);
    GrowingOrder(t, c, n, head);
    var new_, joins := t.freeNode, t.weight[c.order[1]] == 1;
    assert Distinct(c.order);
    var l' := InsertLinks(t.links, t.zeros, n, new_).0;
    assert c.order[2] != new_;
    InsertEffect(t.links, t.zeros, n, new_);
    InsertTree(t.links, l', c.order, n, new_, head);
    GrownLinked(t.right, t.left, c.order, head, n, new_);
    GrownKeeps(t.blocks, c, head, n, new_, joins);
    hide Sums, LinkedBack, GrownBlocks;
  }

  // ---------- a climb from a new symbol ----------

  // The weights before the update, those of the new nodes being zero.
  function OldWeights(t: Tree): (w: seq<nat>)
    requires t.Sized() && Node(t.freeNode)
    ensures |w| == NODES
  {
    t.weight[t.freeNode := 0]
  }

  // The weights the listed nodes had.
  lemma OldWeight(t: Tree, c: Climb, n: int, head: int, u: int)
    requires NewSymbol(t, c, n, head) && u in c.order
    ensures Node(u) && OldWeights(t)[u] == c.w0[u] == t.weight[u] && (c.w0[u] == 0 ==> u == t.zeros)
  {
    assert WeightOk(t, c, u);
    hide BlocksOk, TreeOk, Sums, LeavesOk, Level, Linked, LinkedBack;
  }

  // A node of the grown tree, and its children.
  lemma GrownChildren(t: Tree, c: Climb, n: int, head: int, l': Links, u: int)
    requires NewSymbol(t, c, n, head) && |c.order| >= 3 && Inserted(t.links, l', c.order[2], n, t.freeNode, head)
    requires Node(u) && (u == t.freeNode || (u in c.order && u >= N))
    ensures Node(c.order[2]) && c.order[2] in c.order && c.order[2] >= N && c.order[2] != t.freeNode
    ensures var lc, rc := l'.leftChild[u], l'.rightChild[u];
            && (u == t.freeNode ==> lc == head && rc == n)
            && (u == c.order[2] ==> lc == t.freeNode && rc == c.order[1] && c.order[1] != n && c.order[1] != head
                                    && c.order[1] != t.zeros && c.order[1] != t.freeNode && c.order[1] in c.order)
            && (u != t.freeNode && u != c.order[2] ==>
                  && lc in c.order && rc in c.order && lc == t.links.leftChild[u] && rc == t.links.rightChild[u]
                  && lc != n && rc != n && lc != head && rc != head && lc != t.freeNode && rc != t.freeNode
                  && lc != t.zeros && rc != t.zeros)
  {
    ZeroFamily(t, c);
    var p := c.order[2];
    assert p != t.freeNode;
    assert Distinct(c.order);
    hide BlocksOk, Sums, LeavesOk, Level, Linked, LinkedBack, WeightsOk, ZeroOk;
    assert InsertedAt(t.links, l', p, n, t.freeNode, head, u);
    if u != t.freeNode {
      assert ParentOk(t.links, c.order, u);
    }
  }

  lemma EnteredSums(t: Tree, c: Climb, n: int, head: int, l': Links)
    requires NewSymbol(t, c, n, head) && |c.order| >= 3 && Inserted(t.links, l', c.order[2], n, t.freeNode, head)
    ensures Sums(l', Grown(c.order, head, n, t.freeNode), OldWeights(t))
  {
    var w := OldWeights(t);
    GrowingOrder(t, c, n, head);
    forall u {:trigger SumOk(l', w, u)} | u in Grown(c.order, head, n, t.freeNode) && u >= N
      ensures SumOk(l', w, u)
    {
      EnteredSum(t, c, n, head, l', u);
    }
  }

  lemma EnteredSum(t: Tree, c: Climb, n: int, head: int, l': Links, u: int)
    requires NewSymbol(t, c, n, head) && |c.order| >= 3 && Inserted(t.links, l', c.order[2], n, t.freeNode, head)
    requires Node(u) && (u == t.freeNode || (u in c.order && u >= N))
    ensures SumOk(l', OldWeights(t), u)
  {
    GrownChildren(t, c, n, head, l', u);
    ZeroFamily(t, c);
    if u != t.freeNode {
      assert SumOk(t.links, c.w0, u);
      OldWeight(t, c, n, head, u);
      OldWeight(t, c, n, head, l'.rightChild[u]);
      if u != c.order[2] {
        OldWeight(t, c, n, head, l'.leftChild[u]);
      }
    }
    hide BlocksOk, LeavesOk, Level, Linked, LinkedBack, WeightsOk, ZeroOk, TreeOk;
  }

  // The ties of the grown tree: the new node and the parent of it.
  lemma EnteredTie(t: Tree, c: Climb, n: int, head: int, l': Links, u: int)
    requires NewSymbol(t, c, n, head) && |c.order| >= 3 && Inserted(t.links, l', c.order[2], n, t.freeNode, head)
    requires Node(u) && (u in Grown(c.order, head, n, t.freeNode))
    ensures Tie(l', OldWeights(t), u) == (if u == t.freeNode || u == c.order[2] then 1 else 0)
    ensures OldWeights(t)[c.order[2]] > 0 && OldWeights(t)[n] == OldWeights(t)[head] == OldWeights(t)[t.freeNode] == 0
  {
    ZeroFamily(t, c);
    GrowingOrder(t, c, n, head);
    OldWeight(t, c, n, head, c.order[2]);
    if u >= N {
      GrownChildren(t, c, n, head, l', u);
      if u != t.freeNode {
        OldWeight(t, c, n, head, l'.rightChild[u]);
        if u != c.order[2] {
          OldWeight(t, c, n, head, l'.leftChild[u]);
        }
      }
    }
    hide BlocksOk, LeavesOk, Level, Linked, LinkedBack, WeightsOk, ZeroOk, TreeOk;
  }

  lemma EnteredRank(t: Tree, c: Climb, n: int, head: int, l': Links, u: int)
    requires NewSymbol(t, c, n, head) && |c.order| >= 3 && Inserted(t.links, l', c.order[2], n, t.freeNode, head)
    requires TreeOk(l', Grown(c.order, head, n, t.freeNode)) && Sums(l', Grown(c.order, head, n, t.freeNode), OldWeights(t))
    requires u in Grown(c.order, head, n, t.freeNode) && u != l'.root
    ensures Node(u) && RankOk(l', OldWeights(t), u)
  {
    var order' := Grown(c.order, head, n, t.freeNode);
    var w := OldWeights(t);
    ZeroFamily(t, c);
    GrowingOrder(t, c, n, head);
    ParentOf(l', order', u);
    ParentOutranks(l', order', w, u);
    EnteredTie(t, c, n, head, l', u);
    EnteredTie(t, c, n, head, l', l'.parent[u]);
    assert InsertedAt(t.links, l', c.order[2], n, t.freeNode, head, u);
    if u == c.order[2] {
      assert ParentOk(l', order', u) && ChildOk(l', order', u);
      RestParent(t, c);
    }
    hide BlocksOk, LeavesOk, Level, Linked, LinkedBack, WeightsOk, ZeroOk, TreeOk;
  }

  lemma EnteredRanks(t: Tree, c: Climb, n: int, head: int, l': Links)
    requires NewSymbol(t, c, n, head) && |c.order| >= 3 && Inserted(t.links, l', c.order[2], n, t.freeNode, head)
    requires TreeOk(l', Grown(c.order, head, n, t.freeNode)) && Sums(l', Grown(c.order, head, n, t.freeNode), OldWeights(t))
    ensures var order', w, path := Grown(c.order, head, n, t.freeNode), OldWeights(t), {n, t.freeNode};
            RanksOk(l', order', w, path, c.order[2]) && PathBelow(l', order', w, path, c.order[2])
  {
    var order', w, path, p := Grown(c.order, head, n, t.freeNode), OldWeights(t), {n, t.freeNode}, c.order[2];
    GrowingOrder(t, c, n, head);
    ZeroFamily(t, c);
    forall u {:trigger RankOk(l', w, u)} | u in order' && u != l'.root
      ensures RankOk(l', w, u)
    {
      EnteredRank(t, c, n, head, l', u);
    }
    forall u {:trigger Tie(l', w, u)} | u in order' && Tie(l', w, u) == 1
      ensures u == p || u in path
    {
      EnteredTie(t, c, n, head, l', u);
    }
    EnteredTie(t, c, n, head, l', n);
    EnteredTie(t, c, n, head, l', t.freeNode);
    GrownChildren(t, c, n, head, l', t.freeNode);
    forall x {:trigger BelowAt(l', order', w, x, p)} | x in path
      ensures BelowAt(l', order', w, x, p)
    {
    }
    hide BlocksOk, LeavesOk, Level, Linked, LinkedBack, WeightsOk, ZeroOk, TreeOk;
  }

  lemma EnteredPath(t: Tree, c: Climb, n: int, head: int, l': Links)
    requires NewSymbol(t, c, n, head) && |c.order| >= 3 && Inserted(t.links, l', c.order[2], n, t.freeNode, head)
    ensures var order', path := Grown(c.order, head, n, t.freeNode), {n, t.freeNode};
            PathOk(l', order', path, c.order[2]) && LeavesOk(l', order', head)
  {
    hide BlocksOk, Distinct, Grown, InsertedAt, Linked, Links.Sized, ParentOk, Sums, Tree.Sized, TreeOk, Used,
         WeightOk, WeightsOk, ZeroOk;
    var order', path, p := Grown(c.order, head, n, t.freeNode), {n, t.freeNode}, c.order[2];
    GrowingOrder(t, c, n, head);
    ZeroFamily(t, c);
    GrownChildren(t, c, n, head, l', t.freeNode);
    forall u {:trigger PathAt(l', path, p, u)} | u in order'
      ensures PathAt(l', path, p, u)
    {
      if u >= N {
        GrownChildren(t, c, n, head, l', u);
      }
    }
    forall u {:trigger LeafAt(l', head, u)} | u in order'
      ensures LeafAt(l', head, u)
    {
      if u < N && u != n && u != head {
        assert LeafAt(t.links, t.zeros, u) && ApartAt(t.links, l', n, head, u);
        OldWeight(t, c, n, head, u);
      }
    }
    hide Level, LinkedBack;
  }

  // The tree after the turns of the loop for the symbol and the new internal node,
  // which are of weight zero and so only incremented.
  function Entered(t: Tree, n: int): (t': Tree)
    requires Increasable(t, n) && Node(t.freeNode)
  {
    Bumped(Bumped(Increase(t, n), n), t.freeNode)
  }

  // The climb that goes on from there.
  function EnteredClimb(t: Tree, c: Climb, n: int, head: int): (c': Climb)
    requires t.Sized() && Node(t.freeNode) && |c.order| == |c.ends| >= 3 && Node(c.order[1])
  {
    GrownClimb(c, head, n, t.freeNode, t.weight[c.order[1]] == 1).(
      w0 := OldWeights(t), path := {n, t.freeNode}, tied := c.order[2])
  }

  lemma EnteredWeights(t: Tree, c: Climb, n: int, head: int)
    requires NewSymbol(t, c, n, head)
    ensures Increasable(t, n) && |c.order| == |c.ends| >= 3 && Node(c.order[1])
    ensures WeightsOk(Entered(t, n), EnteredClimb(t, c, n, head))
  {
    hide AllNodes, BlocksOk, Distinct, Grown, GrownBlocks, GrownEnds, Increasable, Increase, InsertLinks, LeafAt,
         LevelAt, Linked, TreeOk, ZeroOk;
    IncreaseShape(t, c, n, head);
    GrowingOrder(t, c, n, head);
    ZeroFamily(t, c);
    var t', c' := Entered(t, n), EnteredClimb(t, c, n, head);
    forall u {:trigger WeightOk(t', c', u)} | u in c'.order
      ensures WeightOk(t', c', u)
    {
      if u in c.order {
        OldWeight(t, c, n, head, u);
      }
    }
    hide Level, LinkedBack, LeavesOk;
  }

  lemma EnteredEven(t: Tree, c: Climb, n: int, head: int)
    requires NewSymbol(t, c, n, head)
    ensures Increasable(t, n) && |c.order| == |c.ends| >= 3 && Node(c.order[1]) && Node(c.order[2])
    ensures EvenOk(Entered(t, n), EnteredClimb(t, c, n, head), c.order[2])
  {
    hide GrownBlocks, Increasable, Increase, InsertLinks, TreeOk, Used, WeightOk, WeightsOk, ZeroLeaf;
    IncreaseShape(t, c, n, head);
    GrowingOrder(t, c, n, head);
    ZeroFamily(t, c);
    var t', c', p := Entered(t, n), EnteredClimb(t, c, n, head), c.order[2];
    forall i {:trigger EvenAt(t', c', p, i)} | 1 <= i < |c'.order|
      ensures EvenAt(t', c', p, i)
    {
      EnteredEvenAt(t, c, n, head, i);
    }
    assert Distinct(c'.order) && c'.order[1] == n && c'.order[2] == t.freeNode;
    assert c'.first == 1;
    forall i, k {:trigger PrefixAt(c', i, k)} | 1 <= i <= k < |c'.order|
      ensures PrefixAt(c', i, k)
    {
    }
    assert c'.order[4] == p;
    hide BlocksOk, Level, Linked, LinkedBack, ZeroOk, LeavesOk;
  }

  // Each place of the grown list weighs what it did, the new ones one.
  lemma EnteredWeightAt(t: Tree, c: Climb, n: int, head: int, i: nat)
    requires NewSymbol(t, c, n, head) && Increasable(t, n) && |c.order| >= 3 && 1 <= i < |c.order| + 2
    ensures var t', order' := Entered(t, n), Grown(c.order, head, n, t.freeNode);
            && |order'| == |c.order| + 2 && Node(order'[i]) && t'.Sized() && (i >= 3 ==> Node(c.order[i - 2]))
            && t'.weight[order'[i]] == (if i < 3 then 1 else t.weight[c.order[i - 2]])
  {
    IncreaseShape(t, c, n, head);
    GrowingOrder(t, c, n, head);
    var order' := Grown(c.order, head, n, t.freeNode);
    assert order'[1] == n && order'[2] == t.freeNode;
    assert i >= 3 ==> order'[i] == c.order[i - 2] && order'[1] != order'[i] && order'[2] != order'[i];
    hide Rest, NewSymbol, Increasable, Increase;
  }

  lemma EnteredEvenAt(t: Tree, c: Climb, n: int, head: int, i: nat)
    requires NewSymbol(t, c, n, head) && Increasable(t, n) && |c.order| == |c.ends| >= 3 && Node(c.order[1])
    requires 1 <= i < |c.order| + 2 && AllNodes(Grown(c.order, head, n, t.freeNode)) && Node(c.order[2])
    ensures EvenAt(Entered(t, n), EnteredClimb(t, c, n, head), c.order[2], i)
  {
    hide Block, Grown, Increasable, Increase, LeavesOk, Linked, Links.Sized, Node, OldWeights, ParentOk, SameRun,
         SumOk, Sums, Tree.Sized, TreeOk, Used, WeightOk, WeightsOk;
    ZeroFamily(t, c);
    var k := if i >= 3 then i - 2 else 1;
    assert LevelAt(t, c, k) && BlockAt(t.blocks, c, k);
    hide Rest, NewSymbol, Entered;
    EnteredWeightAt(t, c, n, head, i);
    EnteredWeightAt(t, c, n, head, 2);
    EnteredWeightAt(t, c, n, head, c.ends[k] + 2);
  }

  lemma EnteredZero(t: Tree, c: Climb, n: int, head: int)
    requires NewSymbol(t, c, n, head) && |c.order| == |c.ends| >= 3 && Node(c.order[1])
    requires Increasable(t, n)
    requires Inserted(t.links, Increase(t, n).links, c.order[2], n, t.freeNode, head)
    ensures ZeroOk(Entered(t, n).links, EnteredClimb(t, c, n, head), head)
  {
    hide BlocksOk, GrownBlocks, Increasable, InsertLinks, Inserted, Linked, LinkedBack, ListOk, MakeBlock, Node,
         ParentOk, SameRun, SumOk, Sums, TreeOk, Used, WeightOk, WeightsOk;
    IncreaseShape(t, c, n, head);
    GrowingOrder(t, c, n, head);
    ZeroFamily(t, c);
    GrownChildren(t, c, n, head, Increase(t, n).links, t.freeNode);
    var c' := EnteredClimb(t, c, n, head);
    assert c'.order[0] == head && c'.order[1] == n && c'.order[2] == t.freeNode;
    hide Level, LeavesOk, Increase;
  }

  // Its block's leader is not before the parent of the new node.
  lemma EnteredLeader(t: Tree, c: Climb, n: int, head: int)
    requires NewSymbol(t, c, n, head) && |c.order| == |c.ends| >= 3 && Node(c.order[1]) && Node(c.order[2])
    requires Increasable(t, n)
    requires Inserted(t.links, Increase(t, n).links, c.order[2], n, t.freeNode, head)
    requires BlocksOk(Increase(t, n).blocks, GrownClimb(c, head, n, t.freeNode, t.weight[c.order[1]] == 1))
    ensures LeaderNoKid(Entered(t, n), EnteredClimb(t, c, n, head), c.order[2])
  {
    IncreaseShape(t, c, n, head);
    GrowingOrder(t, c, n, head);
    ZeroFamily(t, c);
    var t', c' := Entered(t, n), GrownClimb(c, head, n, t.freeNode, t.weight[c.order[1]] == 1);
    assert c'.order[4] == c.order[2] && c'.order[3] == c.order[1] && c'.order[2] == t.freeNode;
    assert BlockAt(t'.blocks, c', 4);
    assert Distinct(c'.order);
    GrownChildren(t, c, n, head, t'.links, c.order[2]);
    hide BlocksOk, Level, Linked, LinkedBack, TreeOk, LeavesOk, Increase, WeightsOk, Sums, Tie;
  }

  // After the turns for the new symbol the update is in progress at the parent.
  lemma StartNew(t: Tree, c: Climb, n: int, head: int)
    requires NewSymbol(t, c, n, head)
    ensures Increasable(t, n) && |c.order| == |c.ends| >= 3 && Node(c.order[1])
    ensures Climbing(Entered(t, n), EnteredClimb(t, c, n, head), c.order[2])
  {
    hide Level, Linked, LinkedBack, Links.Sized, MakeBlock, Node, RanksOk, SameRun, Splice, SumOk, Sums, Tie, TreeOk,
         Used, WeightOk, WeightsOk, ZeroOk;
    IncreaseStructure(t, c, n, head);
    IncreaseShape(t, c, n, head);
    GrowingOrder(t, c, n, head);
    ZeroFamily(t, c);
    var l' := Increase(t, n).links;
    var joins := t.weight[c.order[1]] == 1;
    var c1 := GrownClimb(c, head, n, t.freeNode, joins);
    EnteredSums(t, c, n, head, l');
    EnteredRanks(t, c, n, head, l');
    EnteredPath(t, c, n, head, l');
    EnteredWeights(t, c, n, head);
    EnteredEven(t, c, n, head);
    EnteredZero(t, c, n, head);
    EnteredLeader(t, c, n, head);
    var b := Increase(t, n).blocks;
    BlocksSame(b, c1, EnteredClimb(t, c, n, head));
    assert c.order[2] in Grown(c.order, head, n, t.freeNode) && c.order[2] != head;
    hide BlocksOk, Level, Linked, LinkedBack, TreeOk, LeavesOk, Increase, WeightsOk, Sums, Tie, EvenOk, LeaderNoKid, RanksOk,
         PathBelow, PathOk, ZeroOk;
  }

  // ---------- the last symbol ----------

  ghost predicate LastSymbol(t: Tree, c: Climb, n: int) {
    Rest(t, c) && t.zeros == n && t.zeroCount == 1 && 0 <= n < N && t.links.leftChild[n] == NULL
  }

  // The last zero leaf joins the block of weight one, if there is one, or starts one.
  function LastClimb(t: Tree, c: Climb, n: int): Climb
    requires t.Sized() && |c.order| == |c.ends| >= 3 && Node(c.order[1])
  {
    c.(first := 0, ends := c.ends[0 := if t.weight[c.order[1]] == 1 then c.ends[1] else 0], path := {n}, tied := c.order[2])
  }

  function LastEntered(t: Tree, n: int): Tree
    requires Increasable(t, n)
  {
    Bumped(Increase(t, n), n)
  }

  lemma LastPlaces(t: Tree, c: Climb, n: int, i: nat)
    requires LastSymbol(t, c, n) && 1 <= i < |c.order|
    ensures Increasable(t, n) && |c.order| == |c.ends| >= 3 && Node(c.order[1]) && Node(c.order[2]) && Node(n) && n == c.order[0]
    ensures BlockAt(t.blocks, c, i) && c.order[i] != n && c.ends[i] > 0 && Block(t.blocks.of[c.order[1]])
    ensures Increase(t, n).blocks.of[c.order[i]] == t.blocks.of[c.order[i]]
    ensures t.blocks.free != [] && Block(t.blocks.free[0])
    ensures var joins, b := t.weight[c.order[1]] == 1, Increase(t, n).blocks;
            && b.of[n] == (if joins then t.blocks.of[c.order[1]] else t.blocks.free[0])
            && b.leader == (if joins then t.blocks.leader else t.blocks.leader[t.blocks.free[0] := n])
            && b.free == (if joins then t.blocks.free else t.blocks.free[1..])
  {
    ZeroFamily(t, c);
    assert Distinct(c.order);
    assert BlockAt(t.blocks, c, 1) && BlockAt(t.blocks, c, i);
    hide Level, Linked, LinkedBack, TreeOk, LeavesOk, WeightsOk, Sums;
  }

  lemma LastBlockAt(t: Tree, c: Climb, n: int, i: nat)
    requires LastSymbol(t, c, n) && i < |c.order|
    ensures Increasable(t, n) && |c.order| == |c.ends| >= 3 && Node(c.order[1])
    ensures BlockAt(Increase(t, n).blocks, LastClimb(t, c, n), i)
  {
    ZeroFamily(t, c);
    LastPlaces(t, c, n, 1);
    LastPlaces(t, c, n, if i == 0 then 1 else i);
    LastPlaces(t, c, n, c.ends[if i == 0 then 1 else i]);
    assert Distinct(c.order);
    hide Level, Linked, LinkedBack, TreeOk, LeavesOk, WeightsOk, Sums, Increase;
  }

  lemma LastSameRun(t: Tree, c: Climb, n: int, i: nat, m: nat)
    requires LastSymbol(t, c, n) && i <= m < |c.order|
    ensures Increasable(t, n) && |c.order| == |c.ends| >= 3 && Node(c.order[1])
    ensures SameRun(Increase(t, n).blocks, LastClimb(t, c, n), i, m)
  {
    ZeroFamily(t, c);
    LastPlaces(t, c, n, 1);
    if m > 0 {
      LastPlaces(t, c, n, m);
      LastPlaces(t, c, n, if i == 0 then 1 else i);
      assert SameRun(t.blocks, c, if i == 0 then 1 else i, m);
    }
    hide Level, Linked, LinkedBack, TreeOk, LeavesOk, WeightsOk, Sums, Increase;
  }

  lemma LastBlocks(t: Tree, c: Climb, n: int)
    requires LastSymbol(t, c, n)
    ensures Increasable(t, n) && |c.order| == |c.ends| >= 3 && Node(c.order[1])
    ensures BlocksOk(Increase(t, n).blocks, LastClimb(t, c, n))
  {
    ZeroFamily(t, c);
    LastPlaces(t, c, n, 1);
    var b, c' := Increase(t, n).blocks, LastClimb(t, c, n);
    forall i {:trigger BlockAt(b, c', i)} | 0 <= i < |c'.order|
      ensures BlockAt(b, c', i)
    {
      LastBlockAt(t, c, n, i);
    }
    forall i, m {:trigger SameRun(b, c', i, m)} | 0 <= i <= m < |c'.order|
      ensures SameRun(b, c', i, m)
    {
      LastSameRun(t, c, n, i, m);
    }
    forall x {:trigger x in b.free} | x in b.free
      ensures Block(x)
    {
      assert x in t.blocks.free;
    }
    forall x {:trigger Used(b, c', x)} | Block(x) && x !in b.free
      ensures Used(b, c', x)
    {
      if x in t.blocks.free {
        assert b.of[c'.order[0]] == x;
      } else {
        assert Used(t.blocks, c, x);
        var i :| c.first <= i < |c.order| && t.blocks.of[c.order[i]] == x;
        LastPlaces(t, c, n, i);
        assert b.of[c'.order[i]] == x;
      }
    }
    hide Level, Linked, LinkedBack, TreeOk, LeavesOk, WeightsOk, Sums, Increase;
  }

  lemma LastPath(t: Tree, c: Climb, n: int)
    requires LastSymbol(t, c, n)
    ensures Increasable(t, n) && |c.order| == |c.ends| >= 3 && Node(c.order[1]) && Node(c.order[2]) && 0 <= n < N
    ensures var l', p := Increase(t, n).links, c.order[2];
            && l' == t.links.(rightChild := t.links.rightChild[n := NULL])
            && TreeOk(l', c.order) && Sums(l', c.order, c.w0) && PathOk(l', c.order, {n}, p) && LeavesOk(l', c.order, NULL)
            && RanksOk(l', c.order, c.w0, {n}, p) && PathBelow(l', c.order, c.w0, {n}, p)
  {
    hide Block, BlockAt, BlocksOk, Distinct, GrownBlocks, InsertLinks, LevelAt, Linked, SameRun, Tie, Tree.Sized,
         Used, WeightOk, WeightsOk, ZeroOk;
    ZeroFamily(t, c);
    assert AllNodes(c.order);
    LastPlaces(t, c, n, 1);
    var l', p := Increase(t, n).links, c.order[2];
    RestRanks(t, c, p);
    assert n in c.order && p in c.order;
    forall u {:trigger ChildOk(l', c.order, u)} | u in c.order && u != l'.root
      ensures ChildOk(l', c.order, u)
    {
      assert ChildOk(t.links, c.order, u);
    }
    forall u {:trigger ParentOk(l', c.order, u)} | u in c.order && u >= N
      ensures ParentOk(l', c.order, u)
    {
      assert ParentOk(t.links, c.order, u);
    }
    forall u {:trigger SumOk(l', c.w0, u)} | u in c.order && u >= N
      ensures SumOk(l', c.w0, u)
    {
      assert SumOk(t.links, c.w0, u);
    }
    forall u {:trigger PathAt(l', {n}, p, u)} | u in c.order
      ensures PathAt(l', {n}, p, u)
    {
      if u >= N {
        if u != p {
          OnlyParent(t.links, c.order, n, u);
        }
      }
    }
    forall u {:trigger LeafAt(l', NULL, u)} | u in c.order
      ensures LeafAt(l', NULL, u)
    {
      assert LeafAt(t.links, t.zeros, u);
    }
    LastRanks(t, c, n, l', p);
    hide Level, LinkedBack, Increase, RanksOk, PathBelow;
  }

  lemma LastRanks(t: Tree, c: Climb, n: int, l': Links, p: int)
    requires LastSymbol(t, c, n) && |c.order| >= 3 && p == c.order[2] && RanksOk(t.links, c.order, c.w0, {}, p)
    requires l' == t.links.(rightChild := t.links.rightChild[n := NULL])
    ensures RanksOk(l', c.order, c.w0, {n}, p) && PathBelow(l', c.order, c.w0, {n}, p)
  {
    ZeroFamily(t, c);
    assert AllNodes(c.order);
    hide Level, Linked, LinkedBack, BlocksOk, WeightsOk, TreeOk, Sums, LeavesOk;
    forall u {:trigger Tie(l', c.w0, u)} | u in c.order
      ensures Tie(l', c.w0, u) == Tie(t.links, c.w0, u)
    {
    }
    forall u {:trigger RankOk(l', c.w0, u)} | u in c.order && u != l'.root
      ensures RankOk(l', c.w0, u)
    {
      assert RankOk(t.links, c.w0, u);
      LastParent(t, c, u);
      assert Tie(l', c.w0, u) == Tie(t.links, c.w0, u);
      assert Tie(l', c.w0, t.links.parent[u]) == Tie(t.links, c.w0, t.links.parent[u]);
    }
    assert RankOk(l', c.w0, n);
    assert n in c.order;
  }

  lemma LastParent(t: Tree, c: Climb, u: int)
    requires Rest(t, c) && u in c.order && u != t.links.root
    ensures Node(u) && t.links.parent[u] in c.order
  {
    ParentOf(t.links, c.order, u);
  }

  lemma LastEven(t: Tree, c: Climb, n: int)
    requires LastSymbol(t, c, n)
    ensures Increasable(t, n) && |c.order| == |c.ends| >= 3 && Node(c.order[1]) && Node(c.order[2])
    ensures EvenOk(LastEntered(t, n), LastClimb(t, c, n), c.order[2]) && WeightsOk(LastEntered(t, n), LastClimb(t, c, n))
    ensures LeaderNoKid(LastEntered(t, n), LastClimb(t, c, n), c.order[2])
  {
    ZeroFamily(t, c);
    LastPlaces(t, c, n, 1);
    LastPlaces(t, c, n, 2);
    LastBlockAt(t, c, n, 2);
    assert Distinct(c.order);
    var t', c', p := LastEntered(t, n), LastClimb(t, c, n), c.order[2];
    forall i {:trigger EvenAt(t', c', p, i)} | 0 <= i < |c'.order|
      ensures EvenAt(t', c', p, i)
    {
      var k := if i == 0 then 1 else i;
      LastPlaces(t, c, n, k);
      assert LevelAt(t, c, k);
      LastPlaces(t, c, n, c.ends[k]);
      assert WeightOk(t, c, n);
    }
    forall i, m {:trigger PrefixAt(c', i, m)} | 0 <= i <= m < |c'.order|
      ensures PrefixAt(c', i, m)
    {
    }
    forall u {:trigger WeightOk(t', c', u)} | u in c'.order
      ensures WeightOk(t', c', u)
    {
      assert WeightOk(t, c, u);
    }
    hide Level, Linked, LinkedBack, BlocksOk, TreeOk, Sums, LeavesOk;
  }

  lemma StartLast(t: Tree, c: Climb, n: int)
    requires LastSymbol(t, c, n)
    ensures Increasable(t, n) && |c.order| == |c.ends| >= 3 && Node(c.order[1])
    ensures Climbing(LastEntered(t, n), LastClimb(t, c, n), c.order[2])
  {
    ZeroFamily(t, c);
    LastPath(t, c, n);
    LastEven(t, c, n);
    LastBlocks(t, c, n);
    assert Distinct(c.order);
    hide BlocksOk, Level, Linked, LinkedBack, TreeOk, LeavesOk, WeightsOk, Sums, Tie, EvenOk, LeaderNoKid, RanksOk,
         PathBelow, PathOk;
  }

  // ---------- what a climb leaves alone ----------

  // Weights of leaves other than v, the children fields of leaves, and nodes not
  // listed.
  ghost predicate KeptAt(t: Tree, t': Tree, order: seq<int>, v: int, u: int)
    requires t.Sized() && t'.Sized() && Node(u)
  {
    && (u < N ==> t'.links.leftChild[u] == t.links.leftChild[u] && t'.links.rightChild[u] == t.links.rightChild[u])
    && (u < N ==> t'.weight[u] == t.weight[u] + if u == v then 1 else 0)
    && (u !in order ==> t'.left[u] == t.left[u])
  }

  ghost predicate Kept(t: Tree, t': Tree, order: seq<int>, v: int) {
    && t.Sized() && t'.Sized() && t'.zeros == t.zeros && t'.zeroCount == t.zeroCount && t'.freeNode == t.freeNode
    && forall u {:trigger KeptAt(t, t', order, v, u)} :: Node(u) ==> KeptAt(t, t', order, v, u)
  }

  lemma SwapInListFrame(t: Tree, fwd: int, back: int, u: int)
    requires t.Sized() && Node(fwd) && Node(back) && Node(t.right[back]) && Node(t.right[fwd]) && Node(t.left[back]) && Node(u)
    requires t.left[fwd] == NULL || Node(t.left[fwd])
    ensures SwapInList(t, fwd, back).links == t.links
    ensures u != fwd && u != back && u != t.right[fwd] && u != t.right[back] ==> SwapInList(t, fwd, back).left[u] == t.left[u]
  {
  }

  lemma StepKept(t: Tree, c: Climb, v: int)
    requires Climbing(t, c, v) && v != t.links.root
    ensures Steppable(t, v) && Kept(t, Step(t, v), c.order, v)
  {
    var c1 := StepKeeps(t, c, v);
    var i := Place(t, c, v);
    MoveFrame(t, v);
    PromoteFrame(MoveRight(t, v), v);
    assert |c.ends| == |c.order|;
    hide Climbing, MoveRight, Promote, Movable, Promotable;
    var t' := Step(t, v);
    forall u {:trigger KeptAt(t, t', c.order, v, u)} | Node(u)
      ensures KeptAt(t, t', c.order, v, u)
    {
      MoveKept(t, c, v, i, u);
    }
  }

  // The neighbours and parents of a node and of the leader of its block.
  lemma MovePlaces(t: Tree, c: Climb, v: int, i: nat)
    requires Climbing(t, c, v) && v != t.links.root && c.first <= i < |c.order| == |c.ends| && c.order[i] == v && i <= c.ends[i] < |c.order|
    ensures var b := c.order[c.ends[i]];
            && t.Sized() && Node(b) && b in c.order && v in c.order && Node(v) && t.right[v] in c.order && t.right[b] in c.order
            && N <= t.links.parent[v] < NODES && N <= t.links.parent[b] < NODES
  {
    NotRoot(t, c, v, i);
    ParentOf(t.links, c.order, v);
    ParentOf(t.links, c.order, c.order[c.ends[i]]);
    Neighbours(t, c.order, i);
    Neighbours(t, c.order, c.ends[i]);
    assert c.order[i + 1] in c.order && c.order[c.ends[i] + 1] in c.order;
  }

  lemma MoveKept(t: Tree, c: Climb, v: int, i: nat, u: int)
    requires Climbing(t, c, v) && v != t.links.root && c.first <= i < |c.order| == |c.ends| && c.order[i] == v && Node(u)
    requires i <= c.ends[i] < |c.order| && Movable(t, v) && t.blocks.leader[t.blocks.of[v]] == c.order[c.ends[i]]
    ensures var t1 := MoveRight(t, v);
            && (u < N ==> t1.links.leftChild[u] == t.links.leftChild[u] && t1.links.rightChild[u] == t.links.rightChild[u])
            && (u !in c.order ==> t1.left[u] == t.left[u])
  {
    hide Climbing, SwapInList;
    MovePlaces(t, c, v, i);
    if Moves(t, v) {
      SwapInListFrame(t, v, c.order[c.ends[i]], u);
    }
  }

  lemma KeptChain(t: Tree, t1: Tree, t2: Tree, order: seq<int>, order1: seq<int>, v: int, v1: int)
    requires Kept(t, t1, order, v) && Kept(t1, t2, order1, v1) && v1 >= N && SameNodes(order, order1)
    ensures Kept(t, t2, order, v)
  {
    forall u {:trigger KeptAt(t, t2, order, v, u)} | Node(u)
      ensures KeptAt(t, t2, order, v, u)
    {
      assert KeptAt(t, t1, order, v, u) && KeptAt(t1, t2, order1, v1, u);
    }
  }

  lemma ClimbingParent(t: Tree, c: Climb, v: int, u: int)
    requires Climbing(t, c, v)
    ensures AllNodes(c.order) && v in c.order && (u in c.order && u != t.links.root ==> Node(u) && t.links.parent[u] >= N)
  {
    if u in c.order && u != t.links.root {
      ParentOf(t.links, c.order, u);
    }
  }

  // The loop ends with the tree at rest.
  lemma {:induction false} ClimbRests(t: Tree, c: Climb, v: int) returns (c': Climb)
    requires Climbing(t, c, v)
    ensures InProgress(t, v) && Rest(ClimbFrom(t, v), c') && SameNodes(c.order, c'.order) && c'.first == c.first
    ensures Kept(t, ClimbFrom(t, v), c.order, v)
    decreases if t.Sized() && Node(v) && Node(t.links.root) then Below(t, v) else 0
  {
    hide Climbing, Rest, Step;
    InProgressNode(t, v);
    ClimbingParent(t, c, v, v);
    if v == t.links.root {
      c' := RootRests(t, c);
    } else {
      StepNearer(t, v);
      StepKept(t, c, v);
      var c1 := StepKeeps(t, c, v);
      var t1 := Step(t, v);
      var u := t1.links.parent[v];
      ClimbingParent(t1, c1, u, v);
      c' := ClimbRests(t1, c1, u);
      KeptChain(t, t1, ClimbFrom(t1, u), c.order, c1.order, v, u);
      assert SameNodes(c.order, c'.order);
    }
  }
}
