// The adaptive Huffman coder (xdelta3-fgk.h): a tree of linked nodes, ordered in a
// list and grouped into blocks, that encoder and decoder update after every symbol.
// Pointers are node numbers, and a node's fields are entries of the sequences that
// hold them.
module Fgk {

  const N: nat := 256            // alphabet size
  const NODES: nat := 511        // 2 * N - 1
  const BLOCKS: nat := 1022      // 2 * NODES
  const NULL: int := -1

  predicate Node(u: int) {
    0 <= u < NODES
  }

  predicate Block(b: int) {
    0 <= b < BLOCKS
  }

  // The first N nodes are the leaves, one for each symbol; the others are taken in
  // turn as internal nodes.
  datatype Links = Links(parent: seq<int>, leftChild: seq<int>, rightChild: seq<int>, root: int) {

    predicate Sized() {
      |parent| == |leftChild| == |rightChild| == NODES
    }
  }

  // The block of each node, the leader of each block, and the blocks not in use.
  datatype Blocks = Blocks(of: seq<int>, leader: seq<int>, free: seq<int>) {

    predicate Sized() {
      |of| == NODES && |leader| == BLOCKS
    }
  }

  datatype Tree = Tree(
    weight: seq<nat>, links: Links, left: seq<int>, right: seq<int>, blocks: Blocks,
    zeros: int, zeroCount: nat, freeNode: int) {

    predicate Sized() {
      |weight| == |left| == |right| == NODES && links.Sized() && blocks.Sized()
    }
  }

  // ---------- fgk_move_right ----------

  // The pointers it follows.
  predicate Movable(t: Tree, v: int) {
    && t.Sized() && Node(v) && Block(t.blocks.of[v])
    && var b := t.blocks.leader[t.blocks.of[v]];
       && Node(b)
       && (b != v && t.links.parent[v] != b && t.weight[v] != 0 ==>
             && Node(t.links.parent[v]) && Node(t.links.parent[b]) && Node(t.right[b]) && Node(t.right[v])
             && Node(t.left[b]) && (t.left[v] == NULL || Node(t.left[v])))
  }

  // Whether the node changes places with the leader of its block.
  predicate Moves(t: Tree, v: int)
    requires Movable(t, v)
  {
    var b := t.blocks.leader[t.blocks.of[v]];
    b != v && t.links.parent[v] != b && t.weight[v] != 0
  }

  // Exchange two nodes of the list, fwd before back.
  function SwapInList(t: Tree, fwd: int, back: int): (t': Tree)
    requires t.Sized() && Node(fwd) && Node(back) && Node(t.right[back]) && Node(t.right[fwd]) && Node(t.left[back])
    requires t.left[fwd] == NULL || Node(t.left[fwd])
  {
    var left1 := t.left[t.right[back] := fwd];
    var right1 := if left1[fwd] != NULL && Node(left1[fwd]) then t.right[left1[fwd] := back] else t.right;
    var tmp := right1[fwd];
    var right2 := right1[fwd := right1[back]];
    var left2 := if tmp == back || !Node(tmp) then left1 else left1[tmp := back];
    var right3 := right2[back := if tmp == back then fwd else tmp];
    var tmp' := left2[back];
    var left3 := left2[back := left2[fwd]];
    var right4 := if tmp' == fwd || !Node(tmp') then right3 else right3[tmp' := fwd];
    var left4 := left3[fwd := if tmp' == fwd then back else tmp'];
    t.(left := left4, right := right4)
  }

  // Exchange two nodes of the tree.
  function SwapInTree(l: Links, fwd: int, back: int): (l': Links)
    requires l.Sized() && Node(fwd) && Node(back) && Node(l.parent[fwd]) && Node(l.parent[back])
    ensures l'.Sized()
  {
    var p, q := l.parent[fwd], l.parent[back];
    var fwdRight, backRight := l.rightChild[p] == fwd, l.rightChild[q] == back;
    var rc1 := if fwdRight then l.rightChild[p := back] else l.rightChild;
    var lc1 := if fwdRight then l.leftChild else l.leftChild[p := back];
    var rc2 := if backRight then rc1[q := fwd] else rc1;
    var lc2 := if backRight then lc1 else lc1[q := fwd];
    Links(l.parent[fwd := q][back := p], lc2, rc2, l.root)
  }

  // fgk_move_right.
  function MoveRight(t: Tree, v: int): (t': Tree)
    requires Movable(t, v)
    ensures t'.Sized()
  {
    if !Moves(t, v) then t
    else
      var back := t.blocks.leader[t.blocks.of[v]];
      var t1 := SwapInList(t, v, back);
      t1.(links := SwapInTree(t1.links, v, back),
          blocks := t1.blocks.(leader := t1.blocks.leader[t1.blocks.of[v] := v]))
  }

  // ---------- the order list ----------

  ghost predicate Distinct(s: seq<int>) {
    forall i, j :: 0 <= i < j < |s| ==> s[i] != s[j]
  }

  // Each node's entry is the next node of the list.
  ghost predicate Linked(next: seq<int>, order: seq<int>) {
    && |next| == NODES && order != [] && Distinct(order)
    && (forall i :: 0 <= i < |order| ==> Node(order[i]))
    && next[order[|order| - 1]] == NULL
    && (forall i {:trigger next[order[i]]} :: 0 <= i < |order| - 1 ==> next[order[i]] == order[i + 1])
  }

  ghost predicate LinkedBack(prev: seq<int>, order: seq<int>) {
    && |prev| == NODES && order != [] && Distinct(order)
    && (forall i :: 0 <= i < |order| ==> Node(order[i]))
    && prev[order[0]] == NULL
    && (forall i {:trigger prev[order[i]]} :: 0 < i < |order| ==> prev[order[i]] == order[i - 1])
  }

  function Exchanged(order: seq<int>, i: nat, j: nat): seq<int>
    requires i < |order| && j < |order|
  {
    order[i := order[j]][j := order[i]]
  }

  lemma ExchangedDistinct(order: seq<int>, i: nat, j: nat)
    requires Distinct(order) && i < j < |order|
    ensures Distinct(Exchanged(order, i, j))
    ensures forall u :: u in Exchanged(order, i, j) <==> u in order
  {
    var order' := Exchanged(order, i, j);
    forall u | u in order
      ensures u in order'
    {
      var k :| 0 <= k < |order| && order[k] == u;
      assert order'[if k == i then j else if k == j then i else k] == u;
    }
  }

  lemma NextSwapped(next: seq<int>, order: seq<int>, i: nat, j: nat)
    requires Linked(next, order) && i < j < |order| - 1
    ensures var n1 := if i > 0 then next[order[i - 1] := order[j]] else next;
            var n2 := n1[order[i] := order[j + 1]];
            var n3 := if j == i + 1 then n2[order[j] := order[i]] else n2[order[j] := order[i + 1]][order[j - 1] := order[i]];
            Linked(n3, Exchanged(order, i, j))
  {
    ExchangedDistinct(order, i, j);
    var n1 := if i > 0 then next[order[i - 1] := order[j]] else next;
    var n2 := n1[order[i] := order[j + 1]];
    var n3 := if j == i + 1 then n2[order[j] := order[i]] else n2[order[j] := order[i + 1]][order[j - 1] := order[i]];
    var order' := Exchanged(order, i, j);
    forall k | 0 <= k < |order| - 1
      ensures n3[order'[k]] == order'[k + 1]
    {
      assert next[order[k]] == order[k + 1];
    }
  }

  lemma PrevSwapped(prev: seq<int>, order: seq<int>, i: nat, j: nat)
    requires LinkedBack(prev, order) && i < j < |order| - 1
    ensures var p1 := prev[order[j + 1] := order[i]];
            var p2 := if j == i + 1 then p1 else p1[order[i + 1] := order[j]];
            var p3 := p2[order[j] := if i > 0 then order[i - 1] else NULL];
            var p4 := p3[order[i] := if j == i + 1 then order[j] else order[j - 1]];
            LinkedBack(p4, Exchanged(order, i, j))
  {
    ExchangedDistinct(order, i, j);
    var p1 := prev[order[j + 1] := order[i]];
    var p2 := if j == i + 1 then p1 else p1[order[i + 1] := order[j]];
    var p3 := p2[order[j] := if i > 0 then order[i - 1] else NULL];
    var p4 := p3[order[i] := if j == i + 1 then order[j] else order[j - 1]];
    var order' := Exchanged(order, i, j);
    forall k | 0 < k < |order|
      ensures p4[order'[k]] == order'[k - 1]
    {
      assert prev[order[k]] == order[k - 1];
    }
  }

  ghost predicate ListOk(t: Tree, order: seq<int>) {
    Linked(t.right, order) && LinkedBack(t.left, order)
  }

  // The neighbours of a node of the list.
  lemma Neighbours(t: Tree, order: seq<int>, i: nat)
    requires t.Sized() && ListOk(t, order) && i < |order|
    ensures Node(order[i])
    ensures t.right[order[i]] == (if i + 1 < |order| then order[i + 1] else NULL)
    ensures t.left[order[i]] == (if i > 0 then order[i - 1] else NULL)
    ensures i + 1 < |order| ==> Node(order[i + 1]) && order[i + 1] != order[i]
    ensures i > 0 ==> Node(order[i - 1]) && order[i - 1] != order[i]
  {
  }

  lemma SwapInListKeeps(t: Tree, order: seq<int>, i: nat, j: nat)
    requires t.Sized() && ListOk(t, order) && i < j < |order| - 1
    ensures Node(t.right[order[j]]) && Node(t.right[order[i]]) && Node(t.left[order[j]])
    ensures t.left[order[i]] == NULL || Node(t.left[order[i]])
    ensures var t' := SwapInList(t, order[i], order[j]);
            ListOk(t', Exchanged(order, i, j)) && t' == t.(left := t'.left, right := t'.right)
  {
    Neighbours(t, order, i);
    Neighbours(t, order, j);
    NextSwapped(t.right, order, i, j);
    PrevSwapped(t.left, order, i, j);
    assert order[j + 1] != order[i] && (i > 0 ==> order[i - 1] != order[j]);
    if j > i + 1 {
      assert order[i + 1] != order[j] && order[j - 1] != order[i];
      Neighbours(t, order, i + 1);
      Neighbours(t, order, j - 1);
    }
    hide Linked, LinkedBack, Distinct, Exchanged;
    SwapInListEffect(t, order[i], order[j], if i > 0 then order[i - 1] else NULL, order[i + 1], order[j - 1], order[j + 1]);
  }

  // The assignments together, for fwd between a and b, back between c and d.
  lemma SwapInListEffect(t: Tree, fwd: int, back: int, a: int, b: int, c: int, d: int)
    requires t.Sized() && Node(fwd) && Node(back) && Node(b) && Node(c) && Node(d) && (a == NULL || Node(a))
    requires t.left[fwd] == a && t.right[fwd] == b && t.left[back] == c && t.right[back] == d
    requires fwd != back && a != back && d != fwd && a != fwd && d != back && b != fwd && c != back
    requires b == back <==> c == fwd
    ensures var t' := SwapInList(t, fwd, back);
            && t'.right == (var n1 := if a != NULL then t.right[a := back] else t.right;
                            var n2 := n1[fwd := d];
                            if b == back then n2[back := fwd] else n2[back := b][c := fwd])
            && t'.left == (var p1 := t.left[d := fwd];
                           var p2 := if b == back then p1 else p1[b := back];
                           p2[back := a][fwd := if b == back then back else c])
            && t' == t.(left := t'.left, right := t'.right)
  {
  }

  // ---------- the tree ----------

  ghost predicate AllNodes(order: seq<int>) {
    && (forall u {:trigger u in order} :: u in order ==> Node(u))
    && (forall i {:trigger order[i]} :: 0 <= i < |order| ==> Node(order[i]))
  }

  // A node that is not the root is a child of an internal node.
  ghost predicate ChildOk(l: Links, order: seq<int>, u: int)
    requires l.Sized() && Node(u)
  {
    var p := l.parent[u];
    p in order && N <= p < NODES && (l.leftChild[p] == u || l.rightChild[p] == u)
  }

  // An internal node is the parent of its two children.
  ghost predicate ParentOk(l: Links, order: seq<int>, u: int)
    requires l.Sized() && Node(u)
  {
    var lc, rc := l.leftChild[u], l.rightChild[u];
    && lc in order && rc in order && lc != rc && lc != l.root && rc != l.root
    && Node(lc) && Node(rc) && l.parent[lc] == u && l.parent[rc] == u
  }

  ghost predicate TreeOk(l: Links, order: seq<int>) {
    && l.Sized() && l.root in order && Node(l.root) && AllNodes(order) && l.parent[l.root] == NULL
    && (forall u {:trigger ChildOk(l, order, u)} :: u in order && u != l.root ==> ChildOk(l, order, u))
    && (forall u {:trigger ParentOk(l, order, u)} :: u in order && u >= N ==> ParentOk(l, order, u))
  }

  // An internal node weighs as much as its children.
  ghost predicate SumOk(l: Links, w: seq<nat>, u: int)
    requires l.Sized() && |w| == NODES && Node(u)
  {
    var lc, rc := l.leftChild[u], l.rightChild[u];
    Node(lc) && Node(rc) && w[u] == w[lc] + w[rc]
  }

  ghost predicate Sums(l: Links, order: seq<int>, w: seq<nat>) {
    && l.Sized() && AllNodes(order) && |w| == NODES
    && forall u {:trigger SumOk(l, w, u)} :: u in order && u >= N ==> SumOk(l, w, u)
  }

  function Other(u: int, fwd: int, back: int): int {
    if u == fwd then back else if u == back then fwd else u
  }

  // Exchanging two nodes renames them wherever they are a child or have a parent.
  ghost predicate RenamedAt(l: Links, l': Links, fwd: int, back: int, u: int)
    requires l.Sized() && l'.Sized() && Node(u) && Node(fwd) && Node(back)
  {
    && l'.parent[u] == l.parent[Other(u, fwd, back)]
    && (u >= N ==>
          && l'.leftChild[u] == Other(l.leftChild[u], fwd, back)
          && l'.rightChild[u] == Other(l.rightChild[u], fwd, back))
    && (u < N ==> l'.leftChild[u] == l.leftChild[u] && l'.rightChild[u] == l.rightChild[u])
  }

  ghost predicate Renamed(l: Links, l': Links, order: seq<int>, fwd: int, back: int) {
    && l.Sized() && l'.Sized() && AllNodes(order) && fwd in order && back in order && l'.root == l.root
    && (forall u {:trigger RenamedAt(l, l', fwd, back, u)} ::
          u in order || 0 <= u < N ==> Node(u) && RenamedAt(l, l', fwd, back, u))
  }

  // The two slots, seen from any node.
  lemma SlotsSwapped(l: Links, fwd: int, back: int, u: int)
    requires l.Sized() && Node(fwd) && Node(back) && Node(l.parent[fwd]) && Node(l.parent[back]) && Node(u) && fwd != back
    requires var p := l.parent[fwd]; (l.leftChild[p] == fwd || l.rightChild[p] == fwd) && l.leftChild[p] != l.rightChild[p]
    requires var q := l.parent[back]; (l.leftChild[q] == back || l.rightChild[q] == back) && l.leftChild[q] != l.rightChild[q]
    requires u != l.parent[fwd] ==> l.leftChild[u] != fwd && l.rightChild[u] != fwd
    requires u != l.parent[back] ==> l.leftChild[u] != back && l.rightChild[u] != back
    ensures var l' := SwapInTree(l, fwd, back);
            l'.leftChild[u] == Other(l.leftChild[u], fwd, back) && l'.rightChild[u] == Other(l.rightChild[u], fwd, back)
  {
  }

  // A child's parent is the only node it is a child of.
  lemma OnlyParent(l: Links, order: seq<int>, u: int, v: int)
    requires TreeOk(l, order) && u in order && v in order && v >= N && l.parent[u] != v
    ensures l.leftChild[v] != u && l.rightChild[v] != u
  {
    assert ParentOk(l, order, v);
  }

  lemma ParentOf(l: Links, order: seq<int>, u: int)
    requires TreeOk(l, order) && u in order && u != l.root
    ensures var p := l.parent[u];
            p in order && N <= p < NODES && Node(u) && l.leftChild[p] != l.rightChild[p]
            && (l.leftChild[p] == u || l.rightChild[p] == u)
  {
    assert ChildOk(l, order, u);
    assert ParentOk(l, order, l.parent[u]);
  }

  lemma SwapInTreeRenamesAt(l: Links, order: seq<int>, fwd: int, back: int, u: int)
    requires TreeOk(l, order) && fwd in order && back in order && fwd != back && fwd != l.root && back != l.root
    requires Node(l.parent[fwd]) && Node(l.parent[back]) && (u in order || 0 <= u < N)
    ensures Node(u) && RenamedAt(l, SwapInTree(l, fwd, back), fwd, back, u)
  {
    ParentOf(l, order, fwd);
    ParentOf(l, order, back);
    if u >= N {
      if u != l.parent[fwd] {
        OnlyParent(l, order, fwd, u);
      }
      if u != l.parent[back] {
        OnlyParent(l, order, back, u);
      }
      SlotsSwapped(l, fwd, back, u);
    }
  }

  lemma SwapInTreeRenames(l: Links, order: seq<int>, fwd: int, back: int)
    requires TreeOk(l, order) && fwd in order && back in order && fwd != back && fwd != l.root && back != l.root
    ensures Node(l.parent[fwd]) && Node(l.parent[back])
    ensures Renamed(l, SwapInTree(l, fwd, back), order, fwd, back)
  {
    ParentOf(l, order, fwd);
    ParentOf(l, order, back);
    var l' := SwapInTree(l, fwd, back);
    forall u | u in order || 0 <= u < N
      ensures Node(u) && RenamedAt(l, l', fwd, back, u)
    {
      SwapInTreeRenamesAt(l, order, fwd, back, u);
    }
  }

  lemma RenamedOk(l: Links, l': Links, order: seq<int>, fwd: int, back: int)
    requires TreeOk(l, order) && Renamed(l, l', order, fwd, back) && fwd != back && fwd != l.root && back != l.root
    requires l.parent[fwd] != back && l.parent[back] != fwd
    ensures TreeOk(l', order)
  {
    assert RenamedAt(l, l', fwd, back, l.root);
    forall u {:trigger ChildOk(l', order, u)} | u in order && u != l.root
      ensures ChildOk(l', order, u)
    {
      var o := Other(u, fwd, back);
      assert RenamedAt(l, l', fwd, back, u) && ChildOk(l, order, o);
      assert RenamedAt(l, l', fwd, back, l.parent[o]);
    }
    forall u {:trigger ParentOk(l', order, u)} | u in order && u >= N
      ensures ParentOk(l', order, u)
    {
      assert RenamedAt(l, l', fwd, back, u) && ParentOk(l, order, u);
      assert RenamedAt(l, l', fwd, back, l'.leftChild[u]) && RenamedAt(l, l', fwd, back, l'.rightChild[u]);
    }
  }

  lemma RenamedSums(l: Links, l': Links, order: seq<int>, fwd: int, back: int, w: seq<nat>)
    requires TreeOk(l, order) && Renamed(l, l', order, fwd, back) && Sums(l, order, w) && w[fwd] == w[back]
    ensures Sums(l', order, w)
  {
    forall u {:trigger SumOk(l', w, u)} | u in order && u >= N
      ensures SumOk(l', w, u)
    {
      assert RenamedAt(l, l', fwd, back, u) && SumOk(l, w, u) && ParentOk(l, order, u);
    }
  }

  // ---------- ranks ----------

  function Tie(l: Links, w: seq<nat>, u: int): nat
    requires l.Sized() && |w| == NODES && Node(u)
  {
    var lc, rc := l.leftChild[u], l.rightChild[u];
    if u >= N && Node(lc) && Node(rc) && (w[lc] == 0 || w[rc] == 0) then 1 else 0
  }

  // Old weights grow towards the root, a zero-weight child making a tie.
  function Rank(l: Links, w: seq<nat>, u: int): nat
    requires l.Sized() && |w| == NODES && Node(u)
  {
    2 * w[u] + Tie(l, w, u)
  }

  ghost predicate RankOk(l: Links, w: seq<nat>, u: int)
    requires l.Sized() && |w| == NODES && Node(u)
  {
    Node(l.parent[u]) && Rank(l, w, u) < Rank(l, w, l.parent[u])
  }

  // Ranks grow; at most one node off the path is tied.
  ghost predicate RanksOk(l: Links, order: seq<int>, w: seq<nat>, path: set<int>, tied: int) {
    && l.Sized() && |w| == NODES && AllNodes(order)
    && (forall u {:trigger RankOk(l, w, u)} :: u in order && u != l.root ==> RankOk(l, w, u))
    && (forall u {:trigger Tie(l, w, u)} :: u in order && Tie(l, w, u) == 1 ==> u == tied || u in path)
  }

  ghost predicate BelowAt(l: Links, order: seq<int>, w: seq<nat>, x: int, v: int) {
    l.Sized() && |w| == NODES && x in order && Node(x) && Node(v) && Rank(l, w, x) < Rank(l, w, v)
  }

  // The path lies below v.
  ghost predicate PathBelow(l: Links, order: seq<int>, w: seq<nat>, path: set<int>, v: int) {
    forall x {:trigger BelowAt(l, order, w, x, v)} :: x in path ==> BelowAt(l, order, w, x, v)
  }

  lemma RenamedTie(l: Links, l': Links, order: seq<int>, fwd: int, back: int, w: seq<nat>, u: int)
    requires TreeOk(l, order) && Renamed(l, l', order, fwd, back) && |w| == NODES && w[fwd] == w[back] && u in order
    ensures Tie(l', w, u) == Tie(l, w, u)
  {
    assert RenamedAt(l, l', fwd, back, u);
    if u >= N {
      assert ParentOk(l, order, u);
    }
  }

  // A node's parent outranks it unless both are tied.
  lemma ParentOutranks(l: Links, order: seq<int>, w: seq<nat>, u: int)
    requires TreeOk(l, order) && Sums(l, order, w) && u in order && u != l.root
    ensures Node(l.parent[u]) && w[u] <= w[l.parent[u]]
    ensures Tie(l, w, l.parent[u]) == 0 || Tie(l, w, u) == 0 ==> RankOk(l, w, u)
  {
    ParentOf(l, order, u);
    var p := l.parent[u];
    assert ParentOk(l, order, p) && SumOk(l, w, p);
  }

  // Exchanging nodes of equal old weight keeps ranks, as no two nodes are tied.
  lemma RenamedRank(l: Links, l': Links, order: seq<int>, w: seq<nat>, path: set<int>, tied: int, fwd: int, back: int, u: int)
    requires TreeOk(l, order) && TreeOk(l', order) && Renamed(l, l', order, fwd, back) && RanksOk(l, order, w, path, tied)
    requires Sums(l, order, w) && Sums(l', order, w) && w[fwd] == w[back]
    requires fwd != l.root && back != l.root && l.parent[fwd] != back && l.parent[back] != fwd
    requires fwd !in path && back !in path && u in order && u != l.root && PathBelow(l, order, w, path, fwd)
    ensures RankOk(l', w, u)
  {
    var o := Other(u, fwd, back);
    assert RenamedAt(l, l', fwd, back, u) && RankOk(l, w, u) && RankOk(l, w, o);
    ParentOf(l, order, o);
    var q := l.parent[o];
    RenamedTie(l, l', order, fwd, back, w, u);
    RenamedTie(l, l', order, fwd, back, w, q);
    ParentOutranks(l', order, w, u);
    // Only one of the two can be tied.
    assert Tie(l, w, u) == 1 ==> u == tied || u in path;
    assert Tie(l, w, q) == 1 ==> q == tied || q in path;
    assert q in path ==> BelowAt(l, order, w, q, fwd);
  }

  lemma RenamedRanks(l: Links, l': Links, order: seq<int>, w: seq<nat>, path: set<int>, tied: int, fwd: int, back: int)
    requires TreeOk(l, order) && Renamed(l, l', order, fwd, back) && RanksOk(l, order, w, path, tied)
    requires Sums(l, order, w) && w[fwd] == w[back]
    requires fwd != back && fwd != l.root && back != l.root && l.parent[fwd] != back && l.parent[back] != fwd
    requires fwd !in path && back !in path && PathBelow(l, order, w, path, fwd)
    ensures RanksOk(l', order, w, path, tied) && PathBelow(l', order, w, path, fwd)
  {
    RenamedOk(l, l', order, fwd, back);
    RenamedSums(l, l', order, fwd, back, w);
    forall u {:trigger RankOk(l', w, u)} | u in order && u != l.root
      ensures RankOk(l', w, u)
    {
      RenamedRank(l, l', order, w, path, tied, fwd, back, u);
    }
    forall u {:trigger Tie(l', w, u)} | u in order
      ensures Tie(l', w, u) == Tie(l, w, u)
    {
      RenamedTie(l, l', order, fwd, back, w, u);
    }
    assert Tie(l', w, fwd) == Tie(l, w, fwd);
    forall x {:trigger BelowAt(l', order, w, x, fwd)} | x in path
      ensures BelowAt(l', order, w, x, fwd)
    {
      assert BelowAt(l, order, w, x, fwd);
      assert Tie(l', w, x) == Tie(l, w, x);
    }
  }

  // ---------- an update in progress ----------

  // The list, its first place that is in a block, for each place that of its
  // block's leader, the weights before the update, the nodes incremented so far,
  // and the one other node that may have a child of old weight zero.
  datatype Climb = Climb(order: seq<int>, first: nat, ends: seq<nat>, w0: seq<nat>, path: set<int>, tied: int)

  // The current weight counts the increment.
  ghost predicate WeightOk(t: Tree, c: Climb, u: int)
    requires t.Sized() && |c.w0| == NODES && Node(u)
  {
    && t.weight[u] == c.w0[u] + (if u in c.path then 1 else 0)
    && (c.w0[u] == 0 ==> u == t.zeros || u in c.path)
  }

  ghost predicate WeightsOk(t: Tree, c: Climb) {
    && t.Sized() && AllNodes(c.order) && |c.w0| == NODES
    && (forall u {:trigger WeightOk(t, c, u)} :: u in c.order ==> WeightOk(t, c, u))
  }

  function Kids(l: Links, path: set<int>, u: int): nat
    requires l.Sized() && Node(u)
  {
    (if l.leftChild[u] in path then 1 else 0) + (if l.rightChild[u] in path then 1 else 0)
  }

  // The nodes incremented form a path, and v is next on it.
  ghost predicate PathAt(l: Links, path: set<int>, v: int, u: int)
    requires l.Sized() && Node(u)
  {
    u >= N ==> Kids(l, path, u) == if u == v || u in path then 1 else 0
  }

  ghost predicate PathOk(l: Links, order: seq<int>, path: set<int>, v: int) {
    && l.Sized() && AllNodes(order) && v in order && v !in path
    && (forall u {:trigger PathAt(l, path, v, u)} :: u in order ==> PathAt(l, path, v, u))
  }

  // The zero-weight leaf, if there is one, its sibling and their parent come first.
  ghost predicate ZeroOk(l: Links, c: Climb, zeros: int) {
    && l.Sized() && |c.w0| == NODES && |c.ends| == |c.order|
    && (if zeros == NULL then c.first == 0
        else
          && c.first == 1 && |c.order| >= 3 && c.order[0] == zeros && 0 <= zeros < N && N <= c.order[2] < NODES
          && l.leftChild[c.order[2]] == zeros && l.rightChild[c.order[2]] == c.order[1]
          && (c.order[2] != l.root ==> c.ends[1] == c.ends[2])
          && c.w0[zeros] == 0 && zeros !in c.path)
  }

  // The other leaves in the tree have no children.
  ghost predicate LeafAt(l: Links, zeros: int, u: int)
    requires l.Sized() && Node(u)
  {
    u < N && u != zeros ==> l.leftChild[u] == NULL && l.rightChild[u] == NULL
  }

  ghost predicate LeavesOk(l: Links, order: seq<int>, zeros: int) {
    && l.Sized() && AllNodes(order)
    && forall u {:trigger LeafAt(l, zeros, u)} :: u in order ==> LeafAt(l, zeros, u)
  }

  // The block at a place of the list, and its leader.
  ghost predicate BlockAt(b: Blocks, c: Climb, i: int)
    requires b.Sized() && 0 <= i < |c.order| && |c.ends| == |c.order| && Node(c.order[i])
  {
    var k, e := b.of[c.order[i]], c.ends[i];
    && Block(k) && k !in b.free && i <= e < |c.order| && c.ends[e] == e && b.leader[k] == c.order[e]
  }

  ghost predicate Used(b: Blocks, c: Climb, k: int)
    requires b.Sized() && AllNodes(c.order)
  {
    exists i :: c.first <= i < |c.order| && b.of[c.order[i]] == k
  }

  // Two places in one block have one leader, and all between them too.
  ghost predicate SameRun(b: Blocks, c: Climb, i: int, k: int)
    requires b.Sized() && AllNodes(c.order) && |c.ends| == |c.order| && 0 <= i <= k < |c.order|
  {
    && (b.of[c.order[i]] == b.of[c.order[k]] <==> c.ends[i] == c.ends[k])
    && (k <= c.ends[i] ==> c.ends[k] == c.ends[i])
  }

  // Blocks are runs of the list, led by their last node; the root is alone in its
  // block; the other blocks are free.
  ghost predicate BlocksOk(b: Blocks, c: Climb) {
    && b.Sized() && |c.ends| == |c.order| && AllNodes(c.order) && c.first < |c.order|
    && (forall i {:trigger BlockAt(b, c, i)} :: c.first <= i < |c.order| ==> BlockAt(b, c, i))
    && (forall i, k {:trigger SameRun(b, c, i, k)} :: c.first <= i <= k < |c.order| ==> SameRun(b, c, i, k))
    && (forall i {:trigger c.ends[i]} :: c.first <= i < |c.order| - 1 ==> c.ends[i] != |c.order| - 1)
    && Distinct(b.free) && (forall k {:trigger k in b.free} :: k in b.free ==> Block(k))
    && (forall k {:trigger Used(b, c, k)} :: Block(k) && k !in b.free ==> Used(b, c, k))
  }

  // All nodes of a block weigh the same, but for the sibling of the zero leaf while
  // their parent is next.
  ghost predicate EvenAt(t: Tree, c: Climb, v: int, i: int)
    requires t.Sized() && 0 <= i < |c.order| && |c.ends| == |c.order| && AllNodes(c.order) && Node(v)
  {
    var e := c.ends[i];
    && 0 <= e < |c.order|
    && (t.weight[c.order[i]] == t.weight[c.order[e]]
        || (t.zeros != NULL && i == 1 && e == 2 && v == c.order[2] && t.weight[c.order[1]] == t.weight[v] + 1))
  }

  // Of the nodes of a block those incremented come first.
  ghost predicate PrefixAt(c: Climb, i: int, k: int)
    requires 0 <= i <= k < |c.order| && |c.ends| == |c.order|
  {
    c.ends[i] == c.ends[k] && c.order[k] in c.path ==> c.order[i] in c.path
  }

  ghost predicate EvenOk(t: Tree, c: Climb, v: int) {
    && t.Sized() && |c.ends| == |c.order| && AllNodes(c.order) && Node(v)
    && (forall i {:trigger EvenAt(t, c, v, i)} :: c.first <= i < |c.order| ==> EvenAt(t, c, v, i))
    && (forall i, k {:trigger PrefixAt(c, i, k)} :: c.first <= i <= k < |c.order| ==> PrefixAt(c, i, k))
    && (t.zeros != NULL && |c.order| > 2 && v == c.order[2] && v != t.links.root ==> c.ends[1] == 2)
  }

  // A node with a child of old weight zero does not have its other child as leader.
  ghost predicate LeaderNoKid(t: Tree, c: Climb, v: int) {
    && t.Sized() && |c.w0| == NODES && Node(v)
    && (Block(t.blocks.of[v]) && Tie(t.links, c.w0, v) == 1 ==>
          var b := t.blocks.leader[t.blocks.of[v]];
          b != t.links.leftChild[v] && b != t.links.rightChild[v])
  }

  // Everything that holds each time fgk_update_tree comes to its loop with v.
  ghost predicate Climbing(t: Tree, c: Climb, v: int) {
    && t.Sized() && ListOk(t, c.order) && TreeOk(t.links, c.order) && t.links.root == c.order[|c.order| - 1]
    && Sums(t.links, c.order, c.w0) && WeightsOk(t, c) && RanksOk(t.links, c.order, c.w0, c.path, c.tied)
    && PathOk(t.links, c.order, c.path, v) && PathBelow(t.links, c.order, c.w0, c.path, v) && v != t.zeros
    && ZeroOk(t.links, c, t.zeros) && LeavesOk(t.links, c.order, t.zeros)
    && BlocksOk(t.blocks, c) && EvenOk(t, c, v) && LeaderNoKid(t, c, v)
  }

  // A node and the leader of its block, as places of the list.
  lemma Place(t: Tree, c: Climb, v: int) returns (i: nat)
    requires Climbing(t, c, v)
    ensures c.first <= i < |c.order| && c.order[i] == v && i <= c.ends[i] < |c.order| && Block(t.blocks.of[v])
    ensures Node(v) && t.blocks.leader[t.blocks.of[v]] == c.order[c.ends[i]] && c.ends[c.ends[i]] == c.ends[i]
    ensures c.w0[v] > 0 && t.weight[v] == c.w0[v]
  {
    hide TreeOk, Sums, RanksOk, PathBelow, LeavesOk, LeaderNoKid, EvenOk;
    i :| 0 <= i < |c.order| && c.order[i] == v;
    assert BlockAt(t.blocks, c, i) by {
      assert t.zeros != NULL ==> c.order[0] == t.zeros;
    }
    assert WeightOk(t, c, v);
  }

  // The leader weighs the same, before the update and now, and is not incremented.
  lemma LeaderEven(t: Tree, c: Climb, v: int, i: nat)
    requires Climbing(t, c, v) && c.first <= i < |c.order| && c.order[i] == v && c.ends[i] < |c.order|
    ensures var b := c.order[c.ends[i]];
            b in c.order && Node(b) && b !in c.path && c.w0[b] == c.w0[v] && t.weight[b] == t.weight[v]
  {
    hide TreeOk, Sums, RanksOk, PathBelow, LeavesOk, LeaderNoKid, ZeroOk;
    var e := c.ends[i];
    assert BlockAt(t.blocks, c, i);
    assert EvenAt(t, c, v, i) && PrefixAt(c, i, e);
    assert WeightOk(t, c, v) && WeightOk(t, c, c.order[e]);
  }

  // The root leads only itself.
  lemma NotRoot(t: Tree, c: Climb, v: int, i: nat)
    requires Climbing(t, c, v) && v != t.links.root && c.first <= i < |c.order| && c.order[i] == v
    ensures i < |c.order| - 1 && c.ends[i] < |c.order| - 1 && c.order[c.ends[i]] != t.links.root
  {
    hide TreeOk, Sums, RanksOk, PathBelow, LeavesOk, LeaderNoKid, ZeroOk, EvenOk, WeightsOk;
    assert BlockAt(t.blocks, c, i);
    assert c.ends[i] != |c.order| - 1;
  }

  // The leader is not a child of the node, whose increment would pass it.
  lemma LeaderNotBelow(t: Tree, c: Climb, v: int, b: int)
    requires Climbing(t, c, v) && Block(t.blocks.of[v]) && t.blocks.leader[t.blocks.of[v]] == b
    requires b in c.order && b != t.links.root && c.w0[b] == c.w0[v]
    ensures t.links.parent[b] != v
  {
    hide ListOk, RanksOk, PathBelow, LeavesOk, ZeroOk, EvenOk, WeightsOk, BlocksOk;
    ParentOf(t.links, c.order, b);
    if v >= N {
      assert ParentOk(t.links, c.order, v) && SumOk(t.links, c.w0, v);
    }
  }

  // Only the sibling of the zero leaf has its parent for a leader.
  lemma ParentLeads(t: Tree, c: Climb, v: int, i: nat)
    requires Climbing(t, c, v) && v != t.links.root && c.first <= i < |c.order| && c.order[i] == v
    requires c.ends[i] < |c.order| && t.links.parent[v] == c.order[c.ends[i]]
    ensures t.zeros != NULL && i == 1 && c.ends[1] == 2 && t.links.parent[v] == c.order[2]
  {
    assert Distinct(c.order) && RankOk(t.links, c.w0, v);
    hide ListOk, RanksOk, PathBelow, LeavesOk, BlocksOk, LeaderNoKid, EvenOk;
    LeaderEven(t, c, v, i);
    ParentOf(t.links, c.order, v);
    var b := t.links.parent[v];
    assert ParentOk(t.links, c.order, b) && SumOk(t.links, c.w0, b) && PathAt(t.links, c.path, v, b);
    var x := if t.links.leftChild[b] == v then t.links.rightChild[b] else t.links.leftChild[b];
    assert c.w0[x] == 0;
    assert WeightOk(t, c, x);
    assert x == t.zeros;
    assert ParentOk(t.links, c.order, c.order[2]);
    assert b == c.order[2] && v == c.order[1];
    SamePlace(c.order, i, 1);
    SamePlace(c.order, c.ends[i], 2);
  }

  lemma SamePlace(order: seq<int>, i: nat, k: nat)
    requires Distinct(order) && i < |order| && k < |order| && order[i] == order[k]
    ensures i == k
  {
  }

  // ---------- a move keeps the invariant ----------

  ghost predicate SameNodes(order: seq<int>, order': seq<int>) {
    AllNodes(order) && AllNodes(order') && forall u :: u in order <==> u in order'
  }

  // What only depends on which nodes are listed.
  lemma TreeReordered(l: Links, order: seq<int>, order': seq<int>)
    requires TreeOk(l, order) && SameNodes(order, order')
    ensures TreeOk(l, order')
  {
    forall u {:trigger ChildOk(l, order', u)} | u in order' && u != l.root
      ensures ChildOk(l, order', u)
    {
      assert ChildOk(l, order, u);
    }
    forall u {:trigger ParentOk(l, order', u)} | u in order' && u >= N
      ensures ParentOk(l, order', u)
    {
      assert ParentOk(l, order, u);
    }
  }

  lemma PathReordered(l: Links, order: seq<int>, order': seq<int>, w: seq<nat>, path: set<int>, tied: int, v: int)
    requires SameNodes(order, order') && RanksOk(l, order, w, path, tied) && PathBelow(l, order, w, path, v)
    ensures RanksOk(l, order', w, path, tied) && PathBelow(l, order', w, path, v)
  {
    forall x {:trigger BelowAt(l, order', w, x, v)} | x in path
      ensures BelowAt(l, order', w, x, v)
    {
      assert BelowAt(l, order, w, x, v);
    }
    forall u {:trigger RankOk(l, w, u)} | u in order' && u != l.root
      ensures RankOk(l, w, u)
    {
    }
    forall u {:trigger Tie(l, w, u)} | u in order' && Tie(l, w, u) == 1
      ensures u == tied || u in path
    {
    }
  }

  lemma RenamedPath(l: Links, l': Links, order: seq<int>, path: set<int>, v: int, fwd: int, back: int, zeros: int)
    requires TreeOk(l, order) && Renamed(l, l', order, fwd, back) && fwd !in path && back !in path
    requires PathOk(l, order, path, v) && LeavesOk(l, order, zeros)
    ensures PathOk(l', order, path, v) && LeavesOk(l', order, zeros)
  {
    forall u {:trigger PathAt(l', path, v, u)} | u in order
      ensures PathAt(l', path, v, u)
    {
      assert RenamedAt(l, l', fwd, back, u) && PathAt(l, path, v, u);
    }
    forall u {:trigger LeafAt(l', zeros, u)} | u in order
      ensures LeafAt(l', zeros, u)
    {
      assert RenamedAt(l, l', fwd, back, u) && LeafAt(l, zeros, u);
    }
  }

  // Exchanging two places of one block.
  lemma BlocksExchanged(b: Blocks, c: Climb, i: nat, j: nat)
    requires BlocksOk(b, c) && Distinct(c.order) && c.first <= i < j < |c.order| && c.ends[i] == j && Block(b.of[c.order[i]])
    ensures var c' := c.(order := Exchanged(c.order, i, j));
            SameNodes(c.order, c'.order) && BlocksOk(b.(leader := b.leader[b.of[c.order[i]] := c.order[i]]), c')
  {
    hide Tree.Sized;
    ExchangedDistinct(c.order, i, j);
    var c' := c.(order := Exchanged(c.order, i, j));
    assert BlockAt(b, c, i) && BlockAt(b, c, j) && SameRun(b, c, i, j);
    var b' := b.(leader := b.leader[b.of[c.order[i]] := c.order[i]]);
    assert forall k :: 0 <= k < |c.order| ==> b.of[c'.order[k]] == b.of[c.order[k]];
    forall k {:trigger BlockAt(b', c', k)} | c.first <= k < |c.order|
      ensures BlockAt(b', c', k)
    {
      assert BlockAt(b, c, k);
      var e := c.ends[k];
      assert if i <= k then SameRun(b, c, i, k) else SameRun(b, c, k, i);
      assert k <= e && SameRun(b, c, k, e);
    }
    forall k, m {:trigger SameRun(b', c', k, m)} | c.first <= k <= m < |c.order|
      ensures SameRun(b', c', k, m)
    {
      assert SameRun(b, c, k, m);
    }
    forall k {:trigger Used(b', c', k)} | Block(k) && k !in b.free
      ensures Used(b', c', k)
    {
      assert Used(b, c, k);
      var m :| c.first <= m < |c.order| && b.of[c.order[m]] == k;
      assert b'.of[c'.order[m]] == k;
    }
  }

  // The zero leaf, its sibling and their parent after an exchange.
  lemma ZeroExchanged(t: Tree, l': Links, c: Climb, v: int, i: nat)
    requires Climbing(t, c, v) && c.first <= i < |c.order| && c.order[i] == v && i < c.ends[i] < |c.order|
    requires t.links.parent[v] != c.order[c.ends[i]] && v != t.links.root
    requires Renamed(t.links, l', c.order, v, c.order[c.ends[i]])
    ensures t.zeros != NULL ==> i != 2 && c.ends[i] > 2
    ensures ZeroOk(l', c.(order := Exchanged(c.order, i, c.ends[i])), t.zeros)
  {
    hide RanksOk, PathBelow, LeavesOk, LeaderNoKid, WeightsOk, Sums;
    if t.zeros != NULL {
      var j, p := c.ends[i], c.order[2];
      assert SameRun(t.blocks, c, 1, 2) && BlockAt(t.blocks, c, 1);
      assert i == 2 ==> c.order[i] == v;
      NotRoot(t, c, v, i);
      assert ParentOk(t.links, c.order, p) && RenamedAt(t.links, l', v, c.order[j], p);
      SiblingPlace(t, c, v, i);
    }
  }

  lemma SiblingPlace(t: Tree, c: Climb, v: int, i: nat)
    requires Climbing(t, c, v) && t.zeros != NULL && v != t.links.root
    requires c.first <= i < |c.order| && c.order[i] == v && i < c.ends[i] < |c.order|
    requires t.links.parent[v] != c.order[c.ends[i]]
    ensures i != 2 && c.ends[i] > 2
  {
    hide RanksOk, PathBelow, LeavesOk, LeaderNoKid, WeightsOk, Sums;
    assert ParentOk(t.links, c.order, c.order[2]);
    assert SameRun(t.blocks, c, 1, 2) && BlockAt(t.blocks, c, 1);
  }

  lemma EvenExchanged(t: Tree, t': Tree, c: Climb, v: int, i: nat)
    requires Climbing(t, c, v) && c.first <= i < |c.order| && c.order[i] == v && i < c.ends[i] < |c.order| && v != t.links.root
    requires t'.Sized() && t'.weight == t.weight && t'.zeros == t.zeros && t'.links.root == t.links.root
    requires t.zeros != NULL ==> i != 2 && c.ends[i] > 2
    requires SameNodes(c.order, Exchanged(c.order, i, c.ends[i]))
    ensures EvenOk(t', c.(order := Exchanged(c.order, i, c.ends[i])), v)
  {
    LeaderEven(t, c, v, i);
    assert Distinct(c.order);
    hide TreeOk, RanksOk, PathBelow, LeavesOk, LeaderNoKid, WeightsOk, Sums, BlocksOk, ZeroOk, ListOk;
    var j := c.ends[i];
    var c' := c.(order := Exchanged(c.order, i, j));
    assert t.zeros != NULL && |c.order| > 2 ==> c.order[2] != v;
    forall k {:trigger EvenAt(t', c', v, k)} | c.first <= k < |c.order|
      ensures EvenAt(t', c', v, k)
    {
      assert EvenAt(t, c, v, k);
    }
    forall k, m {:trigger PrefixAt(c', k, m)} | c.first <= k <= m < |c.order|
      ensures PrefixAt(c', k, m)
    {
      assert PrefixAt(c, k, m);
    }
  }

  // What fgk_move_right does with what it finds.
  lemma MoveShape(t: Tree, c: Climb, v: int, i: nat)
    requires Climbing(t, c, v) && v != t.links.root && c.first <= i < |c.order| && c.order[i] == v
    requires i < c.ends[i] < |c.order| && t.links.parent[v] != c.order[c.ends[i]]
    ensures Movable(t, v) && Moves(t, v) && Block(t.blocks.of[v]) && t.blocks.leader[t.blocks.of[v]] == c.order[c.ends[i]]
    ensures var t', b := MoveRight(t, v), c.order[c.ends[i]];
            && Node(b) && Node(t.links.parent[v]) && Node(t.links.parent[b])
            && ListOk(t', Exchanged(c.order, i, c.ends[i])) && t'.links == SwapInTree(t.links, v, b)
            && t'.blocks == t.blocks.(leader := t.blocks.leader[t.blocks.of[v] := v])
            && t' == t.(left := t'.left, right := t'.right, links := t'.links, blocks := t'.blocks)
  {
    var j := c.ends[i];
    var place := Place(t, c, v);
    assert Distinct(c.order);
    SamePlace(c.order, place, i);
    NotRoot(t, c, v, i);
    LeaderEven(t, c, v, i);
    SwapInListKeeps(t, c.order, i, j);
    ParentOf(t.links, c.order, v);
    ParentOf(t.links, c.order, c.order[j]);
    Neighbours(t, c.order, i);
    hide TreeOk, RanksOk, PathBelow, LeavesOk, LeaderNoKid, WeightsOk, Sums, BlocksOk, ZeroOk, EvenOk, Linked, LinkedBack,
         SwapInList, SwapInTree, Exchanged;
  }

  // fgk_move_right, when it moves the node, keeps everything, the node now leading
  // its block.
  lemma MoveKeeps(t: Tree, c: Climb, v: int, i: nat) returns (c': Climb)
    requires Climbing(t, c, v) && v != t.links.root && c.first <= i < |c.order| && c.order[i] == v
    requires i < c.ends[i] < |c.order| && t.links.parent[v] != c.order[c.ends[i]]
    ensures Movable(t, v) && Moves(t, v)
    ensures c' == c.(order := Exchanged(c.order, i, c.ends[i])) && c'.order[c.ends[i]] == v
    ensures Climbing(MoveRight(t, v), c', v)
  {
    hide PathOk, Renamed, RenamedAt, SameRun, Sums, SwapInTree, Tie, Tree.Sized, TreeOk, Used;
    var j := c.ends[i];
    var b := c.order[j];
    assert Distinct(c.order) && b != v;
    MoveShape(t, c, v, i);
    NotRoot(t, c, v, i);
    LeaderEven(t, c, v, i);
    LeaderNotBelow(t, c, v, b);
    SwapInTreeRenames(t.links, c.order, v, b);
    var t' := MoveRight(t, v);
    c' := c.(order := Exchanged(c.order, i, j));
    MovedLinks(t, c, v, b, t'.links);
    BlocksExchanged(t.blocks, c, i, j);
    ZeroExchanged(t, t'.links, c, v, i);
    EvenExchanged(t, t', c, v, i);
    MovedRest(t, c, v, b, t', c');
    MovedLeader(t, c, v, b, t', c');
    hide TreeOk, RanksOk, PathBelow, LeavesOk, LeaderNoKid, WeightsOk, Sums, BlocksOk, ZeroOk, EvenOk, Linked, LinkedBack,
         MoveRight, Renamed, SwapInTree;
  }

  // The node does not become its own child.
  lemma MovedLeader(t: Tree, c: Climb, v: int, b: int, t': Tree, c': Climb)
    requires TreeOk(t.links, c.order) && t.Sized() && v in c.order && t'.Sized() && |c.w0| == NODES && c'.w0 == c.w0
    requires b in c.order && t.links.parent[b] != v && Renamed(t.links, t'.links, c.order, v, b)
    requires Node(v) && Block(t.blocks.of[v]) && t'.blocks == t.blocks.(leader := t.blocks.leader[t.blocks.of[v] := v])
    ensures LeaderNoKid(t', c', v)
  {
    assert RenamedAt(t.links, t'.links, v, b, v);
    if v >= N {
      assert ParentOk(t.links, c.order, v);
    }
  }

  lemma MovedLinks(t: Tree, c: Climb, v: int, b: int, l': Links)
    requires Climbing(t, c, v) && b in c.order && b != v && v != t.links.root && b != t.links.root
    requires t.links.parent[v] != b && t.links.parent[b] != v && b !in c.path && c.w0[b] == c.w0[v]
    requires Renamed(t.links, l', c.order, v, b)
    ensures TreeOk(l', c.order) && Sums(l', c.order, c.w0) && RanksOk(l', c.order, c.w0, c.path, c.tied)
    ensures PathOk(l', c.order, c.path, v) && PathBelow(l', c.order, c.w0, c.path, v) && LeavesOk(l', c.order, t.zeros)
  {
    hide BlocksOk, EvenOk, LeaderNoKid, ZeroOk, ListOk, WeightsOk, RanksOk, PathBelow, TreeOk, Sums, LeavesOk, Renamed;
    RenamedOk(t.links, l', c.order, v, b);
    RenamedSums(t.links, l', c.order, v, b, c.w0);
    RenamedRanks(t.links, l', c.order, c.w0, c.path, c.tied, v, b);
    RenamedPath(t.links, l', c.order, c.path, v, v, b, t.zeros);
  }

  lemma MovedRest(t: Tree, c: Climb, v: int, b: int, t': Tree, c': Climb)
    requires Climbing(t, c, v) && b in c.order && t'.Sized() && SameNodes(c.order, c'.order) && t'.weight == t.weight
    requires t'.zeros == t.zeros && c' == c.(order := c'.order)
    requires TreeOk(t'.links, c.order) && Sums(t'.links, c.order, c.w0) && RanksOk(t'.links, c.order, c.w0, c.path, c.tied)
    requires PathOk(t'.links, c.order, c.path, v) && PathBelow(t'.links, c.order, c.w0, c.path, v)
    requires LeavesOk(t'.links, c.order, t.zeros)
    ensures TreeOk(t'.links, c'.order) && Sums(t'.links, c'.order, c.w0) && WeightsOk(t', c')
    ensures RanksOk(t'.links, c'.order, c.w0, c.path, c.tied) && LeavesOk(t'.links, c'.order, t.zeros)
    ensures PathOk(t'.links, c'.order, c.path, v) && PathBelow(t'.links, c'.order, c.w0, c.path, v)
  {
    TreeReordered(t'.links, c.order, c'.order);
    PathReordered(t'.links, c.order, c'.order, c.w0, c.path, c.tied, v);
    forall u {:trigger WeightOk(t', c', u)} | u in c'.order
      ensures WeightOk(t', c', u)
    {
      assert WeightOk(t, c, u);
    }
    hide BlocksOk, EvenOk, LeaderNoKid, ZeroOk, ListOk, RanksOk, PathBelow, TreeOk;
  }

  // ---------- fgk_promote ----------

  // fgk_make_block and fgk_free_block.
  function MakeBlock(b: Blocks, v: int): Blocks
    requires b.Sized() && Node(v) && b.free != [] && Block(b.free[0])
  {
    Blocks(b.of[v := b.free[0]], b.leader[b.free[0] := v], b.free[1..])
  }

  function FreeBlock(b: Blocks, k: int): Blocks {
    b.(free := [k] + b.free)
  }

  // The node next to the right weighs one more, and is not the root.
  predicate Joins(t: Tree, v: int)
    requires t.Sized() && Node(v) && Node(t.right[v])
  {
    t.weight[v] + 1 == t.weight[t.right[v]] && t.right[v] != t.links.root
  }

  // The parent of the zero leaf, to the right of its other child.
  predicate OverZero(t: Tree, v: int)
    requires t.Sized() && Node(v)
  {
    var lc := t.links.leftChild[v];
    t.left[v] == t.links.rightChild[v] && lc != NULL && Node(lc) && t.weight[lc] == 0
  }

  // The pointers it follows.
  predicate Promotable(t: Tree, v: int) {
    && t.Sized() && Node(v)
    && (t.weight[v] != 0 ==>
          && Node(t.right[v]) && Block(t.blocks.of[v])
          && (t.links.leftChild[v] == NULL || Node(t.links.leftChild[v]))
          && (OverZero(t, v) ==> Node(t.left[v]))
          && (!OverZero(t, v) && t.left[v] != t.zeros ==>
                && Node(t.left[v])
                && (t.blocks.of[t.left[v]] == t.blocks.of[v] && !Joins(t, v) ==> t.blocks.free != [] && Block(t.blocks.free[0]))))
  }

  // The node leaves its block, which goes on without it or is given back.
  function LeaveBlock(t: Tree, v: int): Blocks
    requires t.Sized() && Node(v) && Node(t.left[v]) && Block(t.blocks.of[v])
  {
    if t.blocks.of[t.left[v]] == t.blocks.of[v] then t.blocks.(leader := t.blocks.leader[t.blocks.of[v] := t.left[v]])
    else FreeBlock(t.blocks, t.blocks.of[v])
  }

  // fgk_promote.
  function Promote(t: Tree, v: int): (t': Tree)
    requires Promotable(t, v)
    ensures t'.Sized()
  {
    if t.weight[v] == 0 then t
    else if OverZero(t, v) then
      if Joins(t, v) then
        var b := FreeBlock(t.blocks, t.blocks.of[v]);
        var k := b.of[t.right[v]];
        t.(blocks := b.(of := b.of[v := k][t.left[v] := k]))
      else t
    else if t.left[v] == t.zeros then t
    else
      var b := LeaveBlock(t, v);
      if Joins(t, v) then t.(blocks := b.(of := b.of[v := b.of[t.right[v]]]))
      else t.(blocks := MakeBlock(b, v))
  }

  // One turn of the loop of fgk_update_tree.
  predicate Steppable(t: Tree, v: int) {
    Movable(t, v) && Promotable(MoveRight(t, v), v)
  }

  function Step(t: Tree, v: int): (t': Tree)
    requires Steppable(t, v)
    ensures t'.Sized()
  {
    var t2 := Promote(MoveRight(t, v), v);
    t2.(weight := t2.weight[v := t2.weight[v] + 1])
  }

  // ---------- blocks after a promotion ----------

  // The node at place k leaves the block it leads, for that of its right neighbour
  // or a new one.
  function EndsAfter(ends: seq<nat>, k: nat, joins: bool): seq<nat>
    requires k < |ends| && (joins ==> k + 1 < |ends|)
  {
    seq(|ends|, i requires 0 <= i < |ends| =>
      if i < k && ends[i] == k then k - 1 else if i == k then (if joins then ends[k + 1] else k) else ends[i])
  }

  function UpTo(n: nat): (s: set<int>)
    ensures |s| == n && forall k {:trigger k in s} :: k in s <==> 0 <= k < n
  {
    if n == 0 then {} else UpTo(n - 1) + {n - 1}
  }

  // The blocks of the listed nodes.
  function BlockSet(of: seq<int>, order: seq<int>): (s: set<int>)
    requires |of| == NODES && AllNodes(order)
    ensures |s| <= |order| && forall i {:trigger order[i]} :: 0 <= i < |order| ==> of[order[i]] in s
  {
    if order == [] then {}
    else
      var n := |order| - 1;
      assert AllNodes(order[..n]);
      BlockSet(of, order[..n]) + {of[order[n]]}
  }

  lemma SubsetSize(a: set<int>, b: set<int>)
    requires a <= b
    ensures |a| <= |b|
  {
    assert b == a + (b - a);
  }

  function NodeSet(order: seq<int>): (s: set<int>)
    ensures forall u :: u in s <==> u in order
  {
    if order == [] then {}
    else
      var n := |order| - 1;
      assert order == order[..n] + [order[n]];
      NodeSet(order[..n]) + {order[n]}
  }

  lemma {:induction false} DistinctSize(order: seq<int>)
    requires Distinct(order)
    ensures |NodeSet(order)| == |order|
  {
    if order != [] {
      var n := |order| - 1;
      DistinctSize(order[..n]);
      assert order[n] !in order[..n];
    }
  }

  // Distinct nodes are no more than there are.
  lemma OrderSize(order: seq<int>)
    requires Distinct(order) && AllNodes(order)
    ensures |order| <= NODES
  {
    DistinctSize(order);
    forall u | u in NodeSet(order)
      ensures u in UpTo(NODES)
    {
      assert u in order;
    }
    hide NodeSet, UpTo;
    SubsetSize(NodeSet(order), UpTo(NODES));
  }

  lemma AllUsed(b: Blocks, c: Climb)
    requires BlocksOk(b, c) && b.free == []
    ensures |c.order| >= BLOCKS
  {
    hide UpTo, BlockSet;
    var blocks := BlockSet(b.of, c.order);
    forall k | k in UpTo(BLOCKS)
      ensures k in blocks
    {
      assert Used(b, c, k);
      var i :| c.first <= i < |c.order| && b.of[c.order[i]] == k;
    }
    SubsetSize(UpTo(BLOCKS), blocks);
  }

  // Some block is free, as there are more blocks than nodes.
  lemma BlockLeft(b: Blocks, c: Climb)
    requires BlocksOk(b, c) && Distinct(c.order)
    ensures b.free != [] && Block(b.free[0])
  {
    OrderSize(c.order);
    if b.free == [] {
      AllUsed(b, c);
    } else {
      assert b.free[0] in b.free;
    }
  }

  // The places and blocks before and after the node at k leaves its block for
  // block f, which is that of its right neighbour or a free one.
  ghost predicate Leaves(t: Tree, c: Climb, k: nat, b: Blocks, f: int) {
    && t.Sized() && b.Sized() && BlocksOk(t.blocks, c) && Distinct(c.order)
    && c.first < k < |c.order| - 1 && c.ends[k] == k && Block(f) && Block(t.blocks.of[c.order[k]])
    && t.left[c.order[k]] == c.order[k - 1] && t.right[c.order[k]] == c.order[k + 1]
    && (Joins(t, c.order[k]) ==> k + 1 < |c.order| - 1)
    && var v, l := c.order[k], LeaveBlock(t, c.order[k]);
       if Joins(t, v) then f == t.blocks.of[c.order[k + 1]] && b == l.(of := l.of[v := f])
       else l.free != [] && f == l.free[0] && b == MakeBlock(l, v)
  }

  lemma LeftPlaces(t: Tree, c: Climb, k: nat, i: nat)
    requires BlocksOk(t.blocks, c) && c.first < k < |c.order| && c.ends[k] == k && c.first <= i < |c.order| && i != k
    ensures BlockAt(t.blocks, c, i)
    ensures i > k ==> c.ends[i] > k
    ensures i < k ==> c.ends[i] <= k && (c.ends[i] == k ==> c.ends[k - 1] == k)
    ensures t.blocks.of[c.order[i]] == t.blocks.of[c.order[k]] <==> c.ends[i] == k
  {
    assert BlockAt(t.blocks, c, i) && BlockAt(t.blocks, c, k);
    if i < k {
      assert SameRun(t.blocks, c, i, k) && SameRun(t.blocks, c, i, k - 1);
    } else {
      assert SameRun(t.blocks, c, k, i);
    }
  }

  lemma LeaveBlockAt(t: Tree, c: Climb, k: nat, b: Blocks, f: int, i: nat)
    requires Leaves(t, c, k, b, f) && c.first <= i < |c.order|
    ensures BlockAt(b, c.(ends := EndsAfter(c.ends, k, Joins(t, c.order[k]))), i)
  {
    hide BlockAt, EndsAfter, BlocksOk, LeaveBlock, MakeBlock, Joins;
    if i == k {
      LeaverBlockAt(t, c, k, b, f);
    } else {
      OtherBlockAt(t, c, k, b, f, i);
    }
  }

  // The node that leaves its block.
  lemma LeaverBlockAt(t: Tree, c: Climb, k: nat, b: Blocks, f: int)
    requires Leaves(t, c, k, b, f)
    ensures BlockAt(b, c.(ends := EndsAfter(c.ends, k, Joins(t, c.order[k]))), k)
  {
    hide SameRun;
    assert BlockAt(t.blocks, c, k) && BlockAt(t.blocks, c, k + 1);
    LeftPlaces(t, c, k, k - 1);
    LeftPlaces(t, c, k, k + 1);
    if Joins(t, c.order[k]) {
      LeftPlaces(t, c, k, c.ends[k + 1]);
    }
  }

  // The others.
  lemma OtherBlockAt(t: Tree, c: Climb, k: nat, b: Blocks, f: int, i: nat)
    requires Leaves(t, c, k, b, f) && c.first <= i < |c.order| && i != k
    ensures BlockAt(b, c.(ends := EndsAfter(c.ends, k, Joins(t, c.order[k]))), i)
  {
    hide SameRun;
    assert BlockAt(t.blocks, c, k) && BlockAt(t.blocks, c, k + 1);
    LeftPlaces(t, c, k, k - 1);
    LeftPlaces(t, c, k, k + 1);
    LeftPlaces(t, c, k, i);
    var e := c.ends[i];
    if e != k {
      LeftPlaces(t, c, k, e);
    }
    assert c.order[i] != c.order[k];
  }

  lemma LeaveSameRun(t: Tree, c: Climb, k: nat, b: Blocks, f: int, i: nat, m: nat)
    requires Leaves(t, c, k, b, f) && c.first <= i <= m < |c.order|
    ensures SameRun(b, c.(ends := EndsAfter(c.ends, k, Joins(t, c.order[k]))), i, m)
  {
    var v := c.order[k];
    assert SameRun(t.blocks, c, i, m);
    assert BlockAt(t.blocks, c, k) && BlockAt(t.blocks, c, k + 1);
    LeftPlaces(t, c, k, k - 1);
    LeftPlaces(t, c, k, k + 1);
    if i != k {
      LeftPlaces(t, c, k, i);
      assert c.order[i] != v;
    }
    if m != k {
      LeftPlaces(t, c, k, m);
      assert c.order[m] != v;
    }
    if i < k && m > k {
      assert SameRun(t.blocks, c, i, k + 1);
    } else if i == k && m > k {
      assert SameRun(t.blocks, c, k + 1, m);
    } else if i < k && m == k {
      assert SameRun(t.blocks, c, i, k + 1);
    }
  }

  lemma LeaveFree(t: Tree, c: Climb, k: nat, b: Blocks, f: int)
    requires Leaves(t, c, k, b, f)
    ensures Distinct(b.free) && forall x {:trigger x in b.free} :: x in b.free ==> Block(x)
    ensures forall x {:trigger Used(b, c, x)} :: Block(x) && x !in b.free ==> Used(b, c, x)
  {
    var v := c.order[k];
    var was := t.blocks.of[v];
    assert BlockAt(t.blocks, c, k) && BlockAt(t.blocks, c, k + 1);
    LeftPlaces(t, c, k, k - 1);
    LeftPlaces(t, c, k, k + 1);
    forall x {:trigger x in b.free} | x in b.free
      ensures Block(x)
    {
      assert x in t.blocks.free || x == was;
    }
    forall x {:trigger Used(b, c, x)} | Block(x) && x !in b.free
      ensures Used(b, c, x)
    {
      if x == f {
        assert b.of[c.order[k]] == x;
      } else if x == was {
        assert b.of[c.order[k - 1]] == x;
      } else {
        assert x !in t.blocks.free;
        assert Used(t.blocks, c, x);
        var i :| c.first <= i < |c.order| && t.blocks.of[c.order[i]] == x;
        assert b.of[c.order[i]] == x;
      }
    }
  }

  // The node's leaving its block keeps blocks in order.
  lemma LeaveKeeps(t: Tree, c: Climb, k: nat, b: Blocks, f: int)
    requires Leaves(t, c, k, b, f)
    ensures BlocksOk(b, c.(ends := EndsAfter(c.ends, k, Joins(t, c.order[k]))))
  {
    var c' := c.(ends := EndsAfter(c.ends, k, Joins(t, c.order[k])));
    LeaveFree(t, c, k, b, f);
    forall i {:trigger BlockAt(b, c', i)} | c.first <= i < |c.order|
      ensures BlockAt(b, c', i)
    {
      LeaveBlockAt(t, c, k, b, f, i);
    }
    forall i, m {:trigger SameRun(b, c', i, m)} | c.first <= i <= m < |c.order|
      ensures SameRun(b, c', i, m)
    {
      LeaveSameRun(t, c, k, b, f, i, m);
    }
    forall x {:trigger Used(b, c', x)} | Block(x) && x !in b.free
      ensures Used(b, c', x)
    {
      assert Used(b, c, x);
    }
  }

  // ---------- a promotion keeps the invariant ----------

  // The tree once v is incremented.
  function Bumped(t: Tree, v: int): Tree
    requires t.Sized() && Node(v)
  {
    t.(weight := t.weight[v := t.weight[v] + 1])
  }

  // Weights stay even when a leader leaves its block and is incremented.
  lemma LeaveEven(t: Tree, c: Climb, v: int, k: nat, b: Blocks, f: int, v': int)
    requires Climbing(t, c, v) && Leaves(t, c, k, b, f) && c.order[k] == v && Node(v')
    requires t.zeros != NULL ==> k > 2
    requires t.zeros != NULL && v' == c.order[2] ==> v' == t.links.root
    ensures EvenOk(Bumped(t.(blocks := b), v), c.(ends := EndsAfter(c.ends, k, Joins(t, v)), path := c.path + {v}), v')
  {
    assert Distinct(c.order);
    hide ListOk, TreeOk, Sums, WeightsOk, RanksOk, PathOk, PathBelow, LeavesOk, ZeroOk, LeaderNoKid;
    var t', c' := Bumped(t.(blocks := b), v), c.(ends := EndsAfter(c.ends, k, Joins(t, v)), path := c.path + {v});
    forall i {:trigger EvenAt(t', c', v', i)} | c.first <= i < |c.order|
      ensures EvenAt(t', c', v', i)
    {
      LeaveEvenAt(t, c, v, k, b, f, v', i);
    }
    forall i, m {:trigger PrefixAt(c', i, m)} | c.first <= i <= m < |c.order|
      ensures PrefixAt(c', i, m)
    {
      LeavePrefixAt(t, c, v, k, b, f, i, m);
    }
  }

  lemma LeaveEvenAt(t: Tree, c: Climb, v: int, k: nat, b: Blocks, f: int, v': int, i: nat)
    requires Climbing(t, c, v) && Leaves(t, c, k, b, f) && c.order[k] == v && Node(v') && c.first <= i < |c.order|
    requires t.zeros != NULL ==> k > 2
    ensures EvenAt(Bumped(t.(blocks := b), v), c.(ends := EndsAfter(c.ends, k, Joins(t, v)), path := c.path + {v}), v', i)
  {
    hide AllNodes, BlockAt, Blocks.Sized, BlocksOk, LeaderNoKid, LeaveBlock, Linked, Links.Sized, MakeBlock, PathOk,
         Rank, RanksOk, SameRun, Sums, TreeOk, WeightsOk, ZeroOk;
    assert Distinct(c.order);
    hide ListOk, PathBelow, LeavesOk;
    assert EvenAt(t, c, v, i) && EvenAt(t, c, v, k - 1) && EvenAt(t, c, v, k + 1);
    LeftPlaces(t, c, k, k - 1);
    LeftPlaces(t, c, k, k + 1);
    if i != k {
      LeftPlaces(t, c, k, i);
    }
  }

  lemma LeavePrefixAt(t: Tree, c: Climb, v: int, k: nat, b: Blocks, f: int, i: nat, m: nat)
    requires Climbing(t, c, v) && Leaves(t, c, k, b, f) && c.order[k] == v && c.first <= i <= m < |c.order|
    ensures PrefixAt(c.(ends := EndsAfter(c.ends, k, Joins(t, v)), path := c.path + {v}), i, m)
  {
    hide LeaveBlock, LeavesOk, ListOk, MakeBlock, Node, PathOk, TreeOk, Used, WeightsOk, ZeroOk;
    assert Distinct(c.order);
    hide Sums, RanksOk, PathBelow, LeaderNoKid;
    assert PrefixAt(c, i, m);
    LeftPlaces(t, c, k, k + 1);
    if i != k {
      LeftPlaces(t, c, k, i);
    }
    if m != k {
      LeftPlaces(t, c, k, m);
    }
  }

  // The parent of the zero leaf and its other child, alone in their block, join the
  // block to their right.
  function BothJoin(t: Tree, v: int, s: int): Blocks
    requires t.Sized() && Node(v) && Node(s) && Node(t.right[v])
  {
    var b := FreeBlock(t.blocks, t.blocks.of[v]);
    b.(of := b.of[v := b.of[t.right[v]]][s := b.of[t.right[v]]])
  }

  ghost predicate Pair(t: Tree, c: Climb, b: Blocks) {
    && t.Sized() && BlocksOk(t.blocks, c) && Distinct(c.order) && c.first == 1 && 3 < |c.order| - 1
    && c.ends[1] == 2 && t.right[c.order[2]] == c.order[3] && b == BothJoin(t, c.order[2], c.order[1])
  }

  function PairEnds(ends: seq<nat>): seq<nat>
    requires |ends| > 3
  {
    ends[1 := ends[3]][2 := ends[3]]
  }

  lemma PairPlaces(t: Tree, c: Climb, b: Blocks, i: nat)
    requires Pair(t, c, b) && 1 <= i < |c.order|
    ensures BlockAt(t.blocks, c, i) && c.ends[2] == 2 && (i > 2 ==> c.ends[i] > 2)
    ensures t.blocks.of[c.order[i]] == t.blocks.of[c.order[2]] <==> i <= 2
    ensures b.of[c.order[i]] == t.blocks.of[c.order[if i <= 2 then 3 else i]]
  {
    assert BlockAt(t.blocks, c, i) && BlockAt(t.blocks, c, 1) && SameRun(t.blocks, c, 1, 2);
    if i >= 2 {
      assert SameRun(t.blocks, c, 2, i);
    }
  }

  lemma PairKeeps(t: Tree, c: Climb, b: Blocks)
    requires Pair(t, c, b)
    ensures BlocksOk(b, c.(ends := PairEnds(c.ends)))
  {
    var c' := c.(ends := PairEnds(c.ends));
    PairPlaces(t, c, b, 2);
    PairPlaces(t, c, b, 3);
    forall i {:trigger BlockAt(b, c', i)} | c.first <= i < |c.order|
      ensures BlockAt(b, c', i)
    {
      PairPlaces(t, c, b, i);
      PairPlaces(t, c, b, c.ends[if i <= 2 then 3 else i]);
    }
    forall i, m {:trigger SameRun(b, c', i, m)} | c.first <= i <= m < |c.order|
      ensures SameRun(b, c', i, m)
    {
      PairPlaces(t, c, b, i);
      PairPlaces(t, c, b, m);
      assert SameRun(t.blocks, c, if i <= 2 then 3 else i, if m <= 2 then 3 else m);
    }
    PairFree(t, c, b);
    forall x {:trigger Used(b, c', x)} | Block(x) && x !in b.free
      ensures Used(b, c', x)
    {
      assert Used(b, c, x);
    }
  }

  lemma PairFree(t: Tree, c: Climb, b: Blocks)
    requires Pair(t, c, b)
    ensures Distinct(b.free) && forall x {:trigger x in b.free} :: x in b.free ==> Block(x)
    ensures forall x {:trigger Used(b, c, x)} :: Block(x) && x !in b.free ==> Used(b, c, x)
  {
    PairPlaces(t, c, b, 2);
    PairPlaces(t, c, b, 3);
    var was := t.blocks.of[c.order[2]];
    forall x {:trigger x in b.free} | x in b.free
      ensures Block(x)
    {
      assert x in t.blocks.free || x == was;
    }
    forall x {:trigger Used(b, c, x)} | Block(x) && x !in b.free
      ensures Used(b, c, x)
    {
      assert x !in t.blocks.free;
      assert Used(t.blocks, c, x);
      var i :| c.first <= i < |c.order| && t.blocks.of[c.order[i]] == x;
      PairPlaces(t, c, b, i);
      assert b.of[c.order[i]] == x;
    }
  }

  lemma PairEven(t: Tree, c: Climb, v: int, b: Blocks, v': int)
    requires Climbing(t, c, v) && Pair(t, c, b) && c.order[2] == v && Joins(t, v) && t.zeros != NULL && Node(v')
    requires c.order[1] in c.path && v' != v
    ensures EvenOk(Bumped(t.(blocks := b), v), c.(ends := PairEnds(c.ends), path := c.path + {v}), v')
  {
    hide ListOk, TreeOk, Sums, WeightsOk, RanksOk, PathOk, PathBelow, LeavesOk, ZeroOk, LeaderNoKid;
    var t', c' := Bumped(t.(blocks := b), v), c.(ends := PairEnds(c.ends), path := c.path + {v});
    PairPlaces(t, c, b, 2);
    PairPlaces(t, c, b, 3);
    PairSibling(t, c, v);
    assert EvenAt(t, c, v, 3);
    forall i {:trigger EvenAt(t', c', v', i)} | c.first <= i < |c.order|
      ensures EvenAt(t', c', v', i)
    {
      PairPlaces(t, c, b, i);
      assert EvenAt(t, c, v, i);
    }
    forall i, m {:trigger PrefixAt(c', i, m)} | c.first <= i <= m < |c.order|
      ensures PrefixAt(c', i, m)
    {
      PairPlaces(t, c, b, i);
      PairPlaces(t, c, b, m);
      assert PrefixAt(c, i, m);
    }
  }

  // The other child of the parent of the zero leaf has been incremented already.
  lemma PairSibling(t: Tree, c: Climb, v: int)
    requires Climbing(t, c, v) && t.zeros != NULL && c.order[2] == v
    ensures c.order[1] in c.path && t.weight[c.order[1]] == t.weight[v] + 1
  {
    hide ListOk, RanksOk, PathBelow, LeavesOk, LeaderNoKid, BlocksOk, EvenOk;
    assert ParentOk(t.links, c.order, v) && SumOk(t.links, c.w0, v) && PathAt(t.links, c.path, v, v);
    assert WeightOk(t, c, v) && WeightOk(t, c, c.order[1]);
  }

  // The next node up the path.
  lemma NextNode(t: Tree, c: Climb, v: int)
    requires Climbing(t, c, v) && v != t.links.root
    ensures var u := t.links.parent[v];
            && Node(v) && u in c.order && N <= u < NODES && u != v && u !in c.path && u != t.zeros
            && BelowAt(t.links, c.order, c.w0, v, u)
            && (t.links.leftChild[u] == v || t.links.rightChild[u] == v) && t.links.leftChild[u] != t.links.rightChild[u]
  {
    hide ListOk, BlocksOk, EvenOk, LeaderNoKid, LeavesOk, WeightsOk, Sums;
    ParentOf(t.links, c.order, v);
    var u := t.links.parent[v];
    assert RankOk(t.links, c.w0, v);
    assert u in c.path ==> BelowAt(t.links, c.order, c.w0, u, v);
  }

  lemma NextPath(t: Tree, c: Climb, v: int)
    requires Climbing(t, c, v) && v != t.links.root
    ensures var u, path := t.links.parent[v], c.path + {v};
            && RanksOk(t.links, c.order, c.w0, path, c.tied) && PathOk(t.links, c.order, path, u)
            && PathBelow(t.links, c.order, c.w0, path, u)
  {
    NextNode(t, c, v);
    hide ListOk, BlocksOk, EvenOk, LeaderNoKid, LeavesOk, WeightsOk, Sums, ZeroOk;
    var u, path := t.links.parent[v], c.path + {v};
    forall x {:trigger BelowAt(t.links, c.order, c.w0, x, u)} | x in path
      ensures BelowAt(t.links, c.order, c.w0, x, u)
    {
      if x != v {
        assert BelowAt(t.links, c.order, c.w0, x, v);
      }
    }
    forall x {:trigger PathAt(t.links, path, u, x)} | x in c.order
      ensures PathAt(t.links, path, u, x)
    {
      assert PathAt(t.links, c.path, v, x);
      if x >= N && x != u {
        OnlyParent(t.links, c.order, v, x);
      }
    }
    forall x {:trigger Tie(t.links, c.w0, x)} | x in c.order && Tie(t.links, c.w0, x) == 1
      ensures x == c.tied || x in path
    {
    }
  }

  // The sibling of a node on the path has a zero weight only if it is the zero leaf.
  lemma NextTied(t: Tree, c: Climb, v: int)
    requires Climbing(t, c, v) && v != t.links.root && Node(t.links.parent[v]) && Tie(t.links, c.w0, t.links.parent[v]) == 1
    ensures t.zeros != NULL && t.links.parent[v] == c.order[2] && v == c.order[1]
  {
    NextNode(t, c, v);
    assert Distinct(c.order);
    var place := Place(t, c, v);
    hide ListOk, BlocksOk, EvenOk, LeaderNoKid, LeavesOk, Sums, RanksOk, PathBelow;
    var u := t.links.parent[v];
    assert ParentOk(t.links, c.order, u) && PathAt(t.links, c.path, v, u);
    var y := if t.links.leftChild[u] == v then t.links.rightChild[u] else t.links.leftChild[u];
    assert WeightOk(t, c, y);
    assert y == t.zeros;
    assert ParentOk(t.links, c.order, c.order[2]);
  }

  // Whatever blocks a promotion leaves, if they and the weights are in order the
  // update can go on with the parent.
  lemma Next(t: Tree, c: Climb, v: int, b: Blocks, c': Climb)
    requires Climbing(t, c, v) && v != t.links.root && c' == c.(ends := c'.ends, path := c.path + {v})
    requires BlocksOk(b, c') && EvenOk(Bumped(t.(blocks := b), v), c', t.links.parent[v])
    requires t.zeros != NULL && c.order[2] != t.links.root ==> c'.ends[1] == c'.ends[2]
    ensures Climbing(Bumped(t.(blocks := b), v), c', t.links.parent[v])
  {
    NextNode(t, c, v);
    NextPath(t, c, v);
    NextWeights(t, c, v, b, c');
    NextLeader(t, c, v, b, c');
    hide BlocksOk, EvenOk, LeaderNoKid, LeavesOk, Sums, RanksOk, PathBelow, PathOk, TreeOk, Linked, LinkedBack, WeightsOk;
  }

  lemma NextWeights(t: Tree, c: Climb, v: int, b: Blocks, c': Climb)
    requires Climbing(t, c, v) && Node(v) && c' == c.(ends := c'.ends, path := c.path + {v}) && b.Sized()
    ensures WeightsOk(Bumped(t.(blocks := b), v), c')
  {
    hide BlocksOk, EvenOk, LeaderNoKid, LeavesOk, Sums, RanksOk, PathBelow, TreeOk, Linked, LinkedBack, ZeroOk;
    var t' := Bumped(t.(blocks := b), v);
    forall u {:trigger WeightOk(t', c', u)} | u in c.order
      ensures WeightOk(t', c', u)
    {
      assert WeightOk(t, c, u);
    }
  }

  lemma NextLeader(t: Tree, c: Climb, v: int, b: Blocks, c': Climb)
    requires Climbing(t, c, v) && v != t.links.root && c' == c.(ends := c'.ends, path := c.path + {v}) && BlocksOk(b, c')
    ensures Node(v) && LeaderNoKid(Bumped(t.(blocks := b), v), c', t.links.parent[v])
  {
    NextNode(t, c, v);
    assert Distinct(c.order);
    hide EvenOk, LeaderNoKid, LeavesOk, Sums, RanksOk, PathBelow, Linked, LinkedBack, WeightsOk;
    if Tie(t.links, c.w0, t.links.parent[v]) == 1 {
      NextTied(t, c, v);
      assert BlockAt(b, c', 2);
    }
  }

  // What fgk_promote finds around the node.
  lemma Around(t: Tree, c: Climb, v: int, k: nat)
    requires Climbing(t, c, v) && v != t.links.root && c.first <= k < |c.order| && c.order[k] == v
    ensures k < |c.order| - 1 && t.right[v] == c.order[k + 1] && Node(t.right[v]) && Node(v) && t.weight[v] > 0
    ensures t.left[v] == (if k > 0 then c.order[k - 1] else NULL) && (k > 0 ==> Node(t.left[v])) && Block(t.blocks.of[v])
    ensures t.links.leftChild[v] == NULL || Node(t.links.leftChild[v])
    ensures OverZero(t, v) <==> t.zeros != NULL && k == 2
    ensures t.left[v] == t.zeros <==> k == c.first && (t.zeros == NULL || k == 1)
    ensures Joins(t, v) ==> k + 1 < |c.order| - 1
  {
    assert Distinct(c.order);
    NotRoot(t, c, v, k);
    Neighbours(t, c.order, k);
    var place := Place(t, c, v);
    hide EvenOk, LeaderNoKid, RanksOk, PathBelow, Linked, LinkedBack, BlocksOk;
    if v >= N {
      assert ParentOk(t.links, c.order, v) && SumOk(t.links, c.w0, v) && PathAt(t.links, c.path, v, v);
      var lc := t.links.leftChild[v];
      assert WeightOk(t, c, lc);
      if t.zeros != NULL {
        assert ParentOk(t.links, c.order, c.order[2]) && WeightOk(t, c, t.zeros);
      }
    } else {
      assert LeafAt(t.links, t.zeros, v);
    }
  }

  // Where fgk_move_right leaves the node: leading its block, or as the sibling of
  // the zero leaf, led by their parent.
  ghost predicate Settled(t: Tree, c: Climb, v: int, k: nat) {
    && t.links.Sized() && Node(v) && |c.ends| == |c.order| && c.first <= k < |c.order| && c.order[k] == v
    && (c.ends[k] == k
        || (t.zeros != NULL && k == 1 && |c.order| > 2 && c.ends[1] == 2 && t.links.parent[v] == c.order[2]))
  }

  lemma MoveSettles(t: Tree, c: Climb, v: int) returns (c': Climb, k: nat)
    requires Climbing(t, c, v) && v != t.links.root
    ensures Movable(t, v) && Climbing(MoveRight(t, v), c', v) && Settled(MoveRight(t, v), c', v, k)
    ensures MoveRight(t, v).links.root == t.links.root
    ensures c'.path == c.path && c'.w0 == c.w0 && c'.first == c.first && SameNodes(c.order, c'.order)
    ensures |c'.order| == |c.order| && (t.zeros != NULL && |c.order| > 2 ==> c'.order[2] == c.order[2])
  {
    hide AllNodes, BlocksOk, Distinct, EvenOk, LeaderNoKid, Linked, PathBelow, PathOk, RanksOk, Tree.Sized;
    assert AllNodes(c.order) && Distinct(c.order);
    k := Place(t, c, v);
    c' := c;
    if c.ends[k] != k && t.links.parent[v] != c.order[c.ends[k]] {
      MoveShape(t, c, v, k);
      ExchangedDistinct(c.order, k, c.ends[k]);
      if t.zeros != NULL {
        SiblingPlace(t, c, v, k);
      }
      c' := MoveKeeps(t, c, v, k);
      k := c.ends[k];
    } else {
      if c.ends[k] != k {
        ParentLeads(t, c, v, k);
      }
      hide Climbing;
    }
  }

  // Blocks do not depend on weights and the path.
  lemma BlocksSame(b: Blocks, c: Climb, c': Climb)
    requires BlocksOk(b, c) && c'.order == c.order && c'.first == c.first && c'.ends == c.ends
    ensures BlocksOk(b, c')
  {
    forall i {:trigger BlockAt(b, c', i)} | c.first <= i < |c.order|
      ensures BlockAt(b, c', i)
    {
      assert BlockAt(b, c, i);
    }
    forall i, m {:trigger SameRun(b, c', i, m)} | c.first <= i <= m < |c.order|
      ensures SameRun(b, c', i, m)
    {
      assert SameRun(b, c, i, m);
    }
    forall x {:trigger Used(b, c', x)} | Block(x) && x !in b.free
      ensures Used(b, c', x)
    {
      assert Used(b, c, x);
    }
  }

  // The first node in a block stays where it is.
  lemma FirstEven(t: Tree, c: Climb, v: int, k: nat)
    requires Climbing(t, c, v) && v != t.links.root && Settled(t, c, v, k) && k == c.first && (t.zeros == NULL || k == 1)
    ensures EvenOk(Bumped(t, v), c.(path := c.path + {v}), t.links.parent[v])
  {
    NextNode(t, c, v);
    assert Distinct(c.order);
    hide ListOk, TreeOk, Sums, WeightsOk, RanksOk, PathOk, PathBelow, LeavesOk, LeaderNoKid;
    var t', c' := Bumped(t, v), c.(path := c.path + {v});
    forall i {:trigger EvenAt(t', c', t.links.parent[v], i)} | c.first <= i < |c.order|
      ensures EvenAt(t', c', t.links.parent[v], i)
    {
      assert EvenAt(t, c, v, i) && BlockAt(t.blocks, c, i);
    }
    forall i, m {:trigger PrefixAt(c', i, m)} | c.first <= i <= m < |c.order|
      ensures PrefixAt(c', i, m)
    {
      assert PrefixAt(c, i, m);
    }
    if t.zeros != NULL {
      assert BlockAt(t.blocks, c, 2);
    }
  }

  // The parent of the zero leaf keeps its block, with its other child.
  lemma ParentEven(t: Tree, c: Climb, v: int)
    requires Climbing(t, c, v) && v != t.links.root && t.zeros != NULL && c.order[2] == v
    ensures EvenOk(Bumped(t, v), c.(path := c.path + {v}), t.links.parent[v])
  {
    NextNode(t, c, v);
    PairSibling(t, c, v);
    assert Distinct(c.order);
    hide ListOk, TreeOk, Sums, WeightsOk, RanksOk, PathOk, PathBelow, LeavesOk, LeaderNoKid;
    var t', c' := Bumped(t, v), c.(path := c.path + {v});
    assert SameRun(t.blocks, c, 1, 2) && BlockAt(t.blocks, c, 1);
    forall i {:trigger EvenAt(t', c', t.links.parent[v], i)} | c.first <= i < |c.order|
      ensures EvenAt(t', c', t.links.parent[v], i)
    {
      assert EvenAt(t, c, v, i) && BlockAt(t.blocks, c, i);
      if i > 2 {
        assert SameRun(t.blocks, c, 2, i);
      }
    }
    forall i, m {:trigger PrefixAt(c', i, m)} | c.first <= i <= m < |c.order|
      ensures PrefixAt(c', i, m)
    {
      assert PrefixAt(c, i, m);
    }
  }

  lemma PromoteParent(t: Tree, c: Climb, v: int) returns (c': Climb)
    requires Climbing(t, c, v) && v != t.links.root && t.zeros != NULL && c.order[2] == v
    ensures Promotable(t, v) && Climbing(Bumped(Promote(t, v), v), c', t.links.parent[v])
    ensures c' == c.(ends := c'.ends, path := c.path + {v})
  {
    Around(t, c, v, 2);
    NextNode(t, c, v);
    PairSibling(t, c, v);
    assert Distinct(c.order);
    if Joins(t, v) {
      var b := BothJoin(t, v, c.order[1]);
      c' := c.(ends := PairEnds(c.ends), path := c.path + {v});
      PairKeeps(t, c, b);
      BlocksSame(b, c.(ends := PairEnds(c.ends)), c');
      PairEven(t, c, v, b, t.links.parent[v]);
      Next(t, c, v, b, c');
    } else {
      c' := c.(path := c.path + {v});
      BlocksSame(t.blocks, c, c');
      ParentEven(t, c, v);
      assert t.(blocks := t.blocks) == t;
      Next(t, c, v, t.blocks, c');
    }
    hide TreeOk, Sums, WeightsOk, RanksOk, PathOk, PathBelow, LeavesOk, LeaderNoKid, BlocksOk, EvenOk, Linked, LinkedBack;
  }

  lemma PromoteLeader(t: Tree, c: Climb, v: int, k: nat) returns (c': Climb)
    requires Climbing(t, c, v) && v != t.links.root && c.first < k < |c.order| && c.order[k] == v && |c.ends| == |c.order|
    requires c.ends[k] == k && (t.zeros != NULL ==> k > 2)
    ensures Promotable(t, v) && Climbing(Bumped(Promote(t, v), v), c', t.links.parent[v])
    ensures c' == c.(ends := c'.ends, path := c.path + {v})
  {
    Around(t, c, v, k);
    NextNode(t, c, v);
    assert Distinct(c.order);
    BlockLeft(t.blocks, c);
    assert BlockAt(t.blocks, c, k + 1);
    var l := LeaveBlock(t, v);
    var f := if Joins(t, v) then t.blocks.of[c.order[k + 1]] else l.free[0];
    var b := if Joins(t, v) then l.(of := l.of[v := f]) else MakeBlock(l, v);
    assert Leaves(t, c, k, b, f);
    c' := c.(ends := EndsAfter(c.ends, k, Joins(t, v)), path := c.path + {v});
    LeaveKeeps(t, c, k, b, f);
    BlocksSame(b, c.(ends := EndsAfter(c.ends, k, Joins(t, v))), c');
    NotOverZero(t, c, v, k);
    LeaveEven(t, c, v, k, b, f, t.links.parent[v]);
    Next(t, c, v, b, c');
    hide TreeOk, Sums, WeightsOk, RanksOk, PathOk, PathBelow, LeavesOk, LeaderNoKid, BlocksOk, EvenOk, Linked, LinkedBack,
         Leaves, Joins, OverZero;
  }

  // Further along the list a node is not a child of the zero leaf's parent.
  lemma NotOverZero(t: Tree, c: Climb, v: int, k: nat)
    requires Climbing(t, c, v) && v != t.links.root && c.first < k < |c.order| && c.order[k] == v
    requires t.zeros != NULL ==> k > 2
    ensures t.zeros != NULL ==> t.links.parent[v] != c.order[2]
    ensures t.zeros != NULL && c.order[2] != t.links.root ==>
              var e := EndsAfter(c.ends, k, Joins(t, v)); e[1] == e[2]
  {
    NextNode(t, c, v);
    assert Distinct(c.order);
    hide Sums, WeightsOk, RanksOk, PathOk, PathBelow, LeavesOk, LeaderNoKid, EvenOk;
  }

  // fgk_promote and the increment, wherever the node was left.
  lemma PromoteKeeps(t: Tree, c: Climb, v: int, k: nat) returns (c': Climb)
    requires Climbing(t, c, v) && v != t.links.root && Settled(t, c, v, k)
    ensures Promotable(t, v) && Climbing(Bumped(Promote(t, v), v), c', t.links.parent[v])
    ensures c' == c.(ends := c'.ends, path := c.path + {v})
  {
    Around(t, c, v, k);
    NextNode(t, c, v);
    if t.zeros != NULL && k == 2 {
      c' := PromoteParent(t, c, v);
    } else if k == c.first && (t.zeros == NULL || k == 1) {
      c' := c.(path := c.path + {v});
      FirstEven(t, c, v, k);
      BlocksSame(t.blocks, c, c');
      assert t.(blocks := t.blocks) == t;
      Next(t, c, v, t.blocks, c');
    } else {
      c' := PromoteLeader(t, c, v, k);
    }
    hide Climbing, Joins, OverZero, LeaveBlock;
  }

  // ---------- the loop of fgk_update_tree ----------

  ghost predicate InProgress(t: Tree, v: int) {
    exists c :: Climbing(t, c, v)
  }

  // One turn keeps everything and goes on to the parent.
  lemma StepKeeps(t: Tree, c: Climb, v: int) returns (c': Climb)
    requires Climbing(t, c, v) && v != t.links.root
    ensures Steppable(t, v) && Node(v) && Climbing(Step(t, v), c', Step(t, v).links.parent[v])
    ensures c'.path == c.path + {v} && c'.w0 == c.w0 && SameNodes(c.order, c'.order) && c'.first == c.first
    ensures Step(t, v).links.root == t.links.root && Step(t, v).zeros == t.zeros
    ensures c.w0[v] <= c.w0[Step(t, v).links.parent[v]]
    ensures |c'.order| == |c.order| && (t.zeros != NULL && |c.order| > 2 ==> c'.order[2] == c.order[2])
  {
    var c1, k;
    c1, k := MoveSettles(t, c, v);
    MoveFrame(t, v);
    var t1 := MoveRight(t, v);
    c' := PromoteKeeps(t1, c1, v, k);
    StepWeight(t1, c1, v);
    PromoteFrame(t1, v);
    assert Step(t, v) == Bumped(Promote(t1, v), v);
    SameNodesChain(c.order, c1.order, c'.order);
    hide Step, Bumped;
  }

  lemma PromoteFrame(t: Tree, v: int)
    requires Promotable(t, v)
    ensures var t' := Promote(t, v);
            t'.links == t.links && t'.zeros == t.zeros && t'.weight == t.weight && t' == t.(blocks := t'.blocks)
    ensures Node(v) && Bumped(Promote(t, v), v).links == t.links && Bumped(Promote(t, v), v).zeros == t.zeros
  {
  }

  lemma SameNodesChain(a: seq<int>, b: seq<int>, c: seq<int>)
    requires SameNodes(a, b) && b == c
    ensures SameNodes(a, c)
  {
  }

  lemma MoveFrame(t: Tree, v: int)
    requires Movable(t, v)
    ensures MoveRight(t, v).zeros == t.zeros && MoveRight(t, v).links.root == t.links.root
    ensures MoveRight(t, v).weight == t.weight && MoveRight(t, v).zeroCount == t.zeroCount
    ensures MoveRight(t, v).freeNode == t.freeNode
  {
  }

  lemma StepWeight(t: Tree, c: Climb, v: int)
    requires Climbing(t, c, v) && v != t.links.root
    ensures Node(v) && Node(t.links.parent[v]) && c.w0[v] <= c.w0[t.links.parent[v]]
  {
    ParentOutranks(t.links, c.order, c.w0, v);
    NextNode(t, c, v);
  }

  lemma {:induction false} HighestRank(l: Links, order: seq<int>, w: seq<nat>, n: nat) returns (m: nat)
    requires l.Sized() && |w| == NODES && AllNodes(order) && 0 < n <= |order|
    ensures m < n && forall i {:trigger order[i]} :: 0 <= i < n ==> Rank(l, w, order[i]) <= Rank(l, w, order[m])
  {
    if n == 1 {
      m := 0;
    } else {
      m := HighestRank(l, order, w, n - 1);
      if Rank(l, w, order[m]) < Rank(l, w, order[n - 1]) {
        m := n - 1;
      }
    }
  }

  // Ranks growing towards the root, it has the highest, and every way up ends there.
  lemma RootHighest(l: Links, order: seq<int>, w: seq<nat>, path: set<int>, tied: int, u: int)
    requires TreeOk(l, order) && RanksOk(l, order, w, path, tied) && u in order
    ensures Node(u) && Rank(l, w, u) <= Rank(l, w, l.root)
  {
    var m := HighestRank(l, order, w, |order|);
    assert order[m] != l.root ==> ChildOk(l, order, order[m]);
    assert order[m] != l.root ==> RankOk(l, w, order[m]);
    hide Rank;
  }

  function ZeroParent(t: Tree, v: int): nat
    requires t.Sized() && Node(v)
  {
    if t.zeros != NULL && t.links.leftChild[v] == t.zeros then 0 else 1
  }

  // How far a node is below the root.
  function Below(t: Tree, v: int): int
    requires t.Sized() && Node(v) && Node(t.links.root)
  {
    2 * (t.weight[t.links.root] - t.weight[v]) + ZeroParent(t, v)
  }

  lemma RootAhead(t: Tree, c: Climb, v: int)
    requires Climbing(t, c, v)
    ensures Node(v) && Node(t.links.root) && (v != t.links.root ==> t.links.root !in c.path)
    ensures t.weight[v] == c.w0[v] && (v != t.links.root ==> t.weight[t.links.root] == c.w0[t.links.root])
    ensures c.w0[v] <= c.w0[t.links.root]
  {
    hide ListOk, BlocksOk, EvenOk, LeaderNoKid, LeavesOk, Sums;
    RootHighest(t.links, c.order, c.w0, c.path, c.tied, v);
    assert WeightOk(t, c, v) && WeightOk(t, c, t.links.root);
    var root := t.links.root;
    assert root in c.path ==> BelowAt(t.links, c.order, c.w0, root, v);
  }

  // Every turn comes nearer to the root.
  lemma StepNearer(t: Tree, v: int)
    requires InProgress(t, v) && v != t.links.root
    ensures Steppable(t, v) && Node(v) && Node(t.links.root) && t.Sized()
    ensures var t' := Step(t, v); var u := t'.links.parent[v];
            && InProgress(t', u) && Node(u) && t'.links.root == t.links.root && 0 <= Below(t', u) < Below(t, v)
  {
    var c :| Climbing(t, c, v);
    var c' := StepKeeps(t, c, v);
    var t' := Step(t, v);
    var u := t'.links.parent[v];
    RootAhead(t, c, v);
    RootAhead(t', c', u);
    StepZero(t, c, v, t', c', u);
  }

  lemma StepZero(t: Tree, c: Climb, v: int, t': Tree, c': Climb, u: int)
    requires Climbing(t, c, v) && Climbing(t', c', u) && v != t.links.root && c'.w0 == c.w0 && c'.path == c.path + {v}
    requires t'.zeros == t.zeros && t'.links.root == t.links.root && u == t'.links.parent[v] && v in c'.order
    requires c.w0[v] <= c.w0[u] && SameNodes(c.order, c'.order) && |c'.order| == |c.order|
    requires t.zeros != NULL && |c.order| > 2 ==> c'.order[2] == c.order[2]
    ensures Node(u) && Node(t.links.root) && 0 <= Below(t', u) < Below(t, v)
  {
    RootAhead(t, c, v);
    RootAhead(t', c', u);
    ZeroTies(t, c, v, t', c', u);
    if u == t.links.root {
      RootWeight(t, c, v, t', c', u);
    }
  }

  lemma RootWeight(t: Tree, c: Climb, v: int, t': Tree, c': Climb, u: int)
    requires Climbing(t, c, v) && Climbing(t', c', u) && u == t.links.root == t'.links.root && v != u && c'.w0 == c.w0
    ensures Node(u) && t'.weight[u] == c.w0[u] == t.weight[u]
  {
    RootAhead(t, c, v);
    RootAhead(t', c', u);
  }

  // If the parent weighs no more, it is the parent of the zero leaf, and the node is
  // not.
  lemma ZeroTies(t: Tree, c: Climb, v: int, t': Tree, c': Climb, u: int)
    requires Climbing(t, c, v) && Climbing(t', c', u) && c'.w0 == c.w0 && c'.path == c.path + {v}
    requires t'.zeros == t.zeros && u == t'.links.parent[v] && v in c'.order && v != t.links.root == t'.links.root
    requires c.w0[v] <= c.w0[u] && |c'.order| == |c.order|
    requires t.zeros != NULL && |c.order| > 2 ==> c'.order[2] == c.order[2]
    ensures Node(u) && (c.w0[v] == c.w0[u] ==> ZeroParent(t', u) == 0 && ZeroParent(t, v) == 1)
  {
    hide ListOk, BlocksOk, EvenOk, LeaderNoKid, RanksOk, PathBelow;
    ParentOf(t'.links, c'.order, v);
    assert ParentOk(t'.links, c'.order, u) && SumOk(t'.links, c.w0, u) && PathAt(t'.links, c'.path, u, u);
    var y := if t'.links.leftChild[u] == v then t'.links.rightChild[u] else t'.links.leftChild[u];
    assert WeightOk(t', c', y);
    if c.w0[v] == c.w0[u] {
      assert y == t.zeros;
      assert ParentOk(t'.links, c'.order, c'.order[2]) && ParentOk(t.links, c.order, c.order[2]);
      assert v >= N ==> ParentOk(t.links, c.order, v);
      assert v < N ==> LeafAt(t.links, t.zeros, v);
      assert u != v;
    }
  }

  // The loop: increment nodes from v up to the root.
  function ClimbFrom(t: Tree, v: int): Tree
    requires InProgress(t, v)
    decreases if t.Sized() && Node(v) && Node(t.links.root) then Below(t, v) else 0
  {
    if v == t.links.root then
      InProgressNode(t, v);
      Bumped(t, v)
    else
      StepNearer(t, v);
      var t' := Step(t, v);
      ClimbFrom(t', t'.links.parent[v])
  }

  lemma InProgressNode(t: Tree, v: int)
    requires InProgress(t, v)
    ensures t.Sized() && Node(v) && Node(t.links.root)
  {
    var c :| Climbing(t, c, v);
    RootAhead(t, c, v);
  }

  // ---------- between updates ----------

  // All nodes of a block weigh the same.
  ghost predicate LevelAt(t: Tree, c: Climb, i: int)
    requires t.Sized() && 0 <= i < |c.order| && |c.ends| == |c.order| && AllNodes(c.order)
  {
    0 <= c.ends[i] < |c.order| && t.weight[c.order[i]] == t.weight[c.order[c.ends[i]]]
  }

  ghost predicate Level(t: Tree, c: Climb) {
    && t.Sized() && |c.ends| == |c.order| && AllNodes(c.order)
    && forall i {:trigger LevelAt(t, c, i)} :: c.first <= i < |c.order| ==> LevelAt(t, c, i)
  }

  // The tree at rest: links agree, every internal node weighs as much as its two
  // children, only the first leaf may weigh nothing, and blocks are runs of nodes of
  // one weight.
  ghost predicate Rest(t: Tree, c: Climb) {
    && t.Sized() && ListOk(t, c.order) && TreeOk(t.links, c.order) && t.links.root == c.order[|c.order| - 1]
    && c.path == {} && Sums(t.links, c.order, c.w0) && WeightsOk(t, c)
    && ZeroOk(t.links, c, t.zeros) && LeavesOk(t.links, c.order, t.zeros)
    && BlocksOk(t.blocks, c) && Level(t, c)
  }

  // The root incremented, the update is over.
  lemma RootRests(t: Tree, c: Climb) returns (c': Climb)
    requires Climbing(t, c, t.links.root)
    ensures Node(t.links.root) && Rest(Bumped(t, t.links.root), c')
    ensures c' == c.(w0 := c'.w0, path := {})
  {
    var v := t.links.root;
    assert AllNodes(c.order) && Node(v);
    var t' := Bumped(t, v);
    c' := c.(w0 := t'.weight, path := {});
    BlocksSame(t.blocks, c, c');
    RootSums(t, c, t', c');
    RootLevel(t, c, t', c');
    hide BlocksOk, EvenOk, LeaderNoKid, LeavesOk, Sums, RanksOk, PathBelow, TreeOk, Linked, LinkedBack, Level;
  }

  lemma RootSums(t: Tree, c: Climb, t': Tree, c': Climb)
    requires Climbing(t, c, t.links.root) && Node(t.links.root) && t' == Bumped(t, t.links.root)
    requires c' == c.(w0 := t'.weight, path := {})
    ensures Sums(t.links, c.order, t'.weight) && WeightsOk(t', c')
    ensures t.zeros != NULL ==> t'.weight[t.zeros] == 0
  {
    hide BlocksOk, EvenOk, LeaderNoKid, LeavesOk, RanksOk, PathBelow, Linked, LinkedBack;
    var v := t.links.root;
    forall u {:trigger SumOk(t.links, t'.weight, u)} | u in c.order && u >= N
      ensures SumOk(t.links, t'.weight, u)
    {
      assert ParentOk(t.links, c.order, u) && SumOk(t.links, c.w0, u) && PathAt(t.links, c.path, v, u);
      assert WeightOk(t, c, u) && WeightOk(t, c, t.links.leftChild[u]) && WeightOk(t, c, t.links.rightChild[u]);
    }
    forall u {:trigger WeightOk(t', c', u)} | u in c.order
      ensures WeightOk(t', c', u)
    {
      assert WeightOk(t, c, u);
    }
    if t.zeros != NULL {
      assert WeightOk(t, c, t.zeros);
    }
  }

  lemma RootLevel(t: Tree, c: Climb, t': Tree, c': Climb)
    requires Climbing(t, c, t.links.root) && Node(t.links.root) && t' == Bumped(t, t.links.root)
    requires c' == c.(w0 := t'.weight, path := {})
    ensures Level(t', c')
  {
    assert Distinct(c.order);
    hide LeaderNoKid, LeavesOk, RanksOk, PathBelow, Linked, LinkedBack, TreeOk, Sums, WeightsOk;
    forall i {:trigger LevelAt(t', c', i)} | c.first <= i < |c.order|
      ensures LevelAt(t', c', i)
    {
      assert EvenAt(t, c, t.links.root, i) && BlockAt(t.blocks, c, i);
    }
  }

  // ---------- a climb from rest ----------

  // Ranks of the tree at rest.
  lemma RestRanks(t: Tree, c: Climb, tied: int)
    requires Rest(t, c) && (t.zeros != NULL ==> tied == c.order[2])
    ensures RanksOk(t.links, c.order, c.w0, {}, tied)
  {
    hide BlocksOk, LeavesOk, Linked, LinkedBack, Level;
    forall u {:trigger Tie(t.links, c.w0, u)} | u in c.order && Tie(t.links, c.w0, u) == 1
      ensures u == tied
    {
      RestTie(t, c, u);
    }
    forall u {:trigger RankOk(t.links, c.w0, u)} | u in c.order && u != t.links.root
      ensures RankOk(t.links, c.w0, u)
    {
      RestRank(t, c, u);
    }
  }

  lemma RestTie(t: Tree, c: Climb, u: int)
    requires Rest(t, c) && u in c.order && Node(u) && Tie(t.links, c.w0, u) == 1
    ensures t.zeros != NULL && u == c.order[2]
  {
    hide BlocksOk, LeavesOk, Linked, LinkedBack, Level;
    assert ParentOk(t.links, c.order, u);
    assert WeightOk(t, c, t.links.leftChild[u]) && WeightOk(t, c, t.links.rightChild[u]);
    assert ParentOk(t.links, c.order, c.order[2]);
  }

  lemma RestRank(t: Tree, c: Climb, u: int)
    requires Rest(t, c) && u in c.order && u != t.links.root
    ensures Node(u) && RankOk(t.links, c.w0, u)
  {
    ParentOf(t.links, c.order, u);
    ParentOutranks(t.links, c.order, c.w0, u);
    if Tie(t.links, c.w0, t.links.parent[u]) == 1 && Tie(t.links, c.w0, u) == 1 {
      RestTie(t, c, u);
      RestTie(t, c, t.links.parent[u]);
      RestParent(t, c);
    }
  }

  // The parent of the zero leaf is not its own child.
  lemma RestParent(t: Tree, c: Climb)
    requires Rest(t, c) && t.zeros != NULL
    ensures t.links.parent[c.order[2]] != c.order[2]
  {
    assert Distinct(c.order);
    hide BlocksOk, LeavesOk, Linked, LinkedBack, Level;
    var p := c.order[2];
    assert ParentOk(t.links, c.order, p);
    if p != t.links.root {
      assert ChildOk(t.links, c.order, p);
    }
  }

  // A symbol seen before.
  lemma StartKnown(t: Tree, c: Climb, n: int)
    requires Rest(t, c) && 0 <= n < N && n in c.order && t.weight[n] > 0
    ensures Climbing(t, c.(tied := if t.zeros != NULL then c.order[2] else NULL), n)
  {
    var tied := if t.zeros != NULL then c.order[2] else NULL;
    var c' := c.(tied := tied);
    RestRanks(t, c, tied);
    assert WeightOk(t, c, n);
    TiedIrrelevant(t, c, tied);
    StartEven(t, c', n);
    hide BlocksOk, LeavesOk, Linked, LinkedBack, Level, Sums, RanksOk, EvenOk, TreeOk;
    forall u {:trigger PathAt(t.links, {}, n, u)} | u in c.order
      ensures PathAt(t.links, {}, n, u)
    {
    }
  }

  lemma TiedIrrelevant(t: Tree, c: Climb, tied: int)
    requires Rest(t, c)
    ensures Rest(t, c.(tied := tied))
  {
    var c' := c.(tied := tied);
    hide Linked, LinkedBack, Sums, TreeOk, LeavesOk;
    forall u {:trigger WeightOk(t, c', u)} | u in c.order
      ensures WeightOk(t, c', u)
    {
      assert WeightOk(t, c, u);
    }
    forall i {:trigger LevelAt(t, c', i)} | c.first <= i < |c.order|
      ensures LevelAt(t, c', i)
    {
      assert LevelAt(t, c, i);
    }
    BlocksSame(t.blocks, c, c');
  }

  lemma StartEven(t: Tree, c: Climb, n: int)
    requires Rest(t, c) && 0 <= n < N
    ensures EvenOk(t, c, n)
  {
    hide Linked, LinkedBack, Sums, TreeOk, LeavesOk, BlocksOk;
    forall i {:trigger EvenAt(t, c, n, i)} | c.first <= i < |c.order|
      ensures EvenAt(t, c, n, i)
    {
      assert LevelAt(t, c, i);
    }
  }
}
