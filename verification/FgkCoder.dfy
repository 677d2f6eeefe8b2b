// The adaptive Huffman coder between symbols (xdelta3-fgk.h): what every update keeps,
// and encoder and decoder in step.
module FgkCoder {

  import opened Fgk
  import opened FgkUpdate

  // ---------- the symbols not seen yet ----------

  ghost predicate ZeroAt(l: Links, z: seq<int>, i: int)
    requires l.Sized() && 0 <= i < |z|
  {
    && 0 <= z[i] < N
    && l.leftChild[z[i]] == (if i > 0 then z[i - 1] else NULL)
    && l.rightChild[z[i]] == (if i + 1 < |z| then z[i + 1] else NULL)
  }

  // They are linked both ways by their children fields.
  ghost predicate ZeroList(l: Links, zeros: int, z: seq<int>) {
    && l.Sized() && Distinct(z) && zeros == (if z == [] then NULL else z[0])
    && forall i {:trigger ZeroAt(l, z, i)} :: 0 <= i < |z| ==> ZeroAt(l, z, i)
  }

  // A leaf is one of them exactly if it weighs nothing, and is listed unless it is;
  // an internal node is listed once it is taken.
  ghost predicate CountedAt(t: Tree, order: seq<int>, z: seq<int>, u: int)
    requires t.Sized() && Node(u)
  {
    if u < N then
      && (u in z <==> t.weight[u] == 0)
      && (u in order <==> t.weight[u] > 0 || u == t.zeros)
      && (u in z && u != t.zeros ==> t.left[u] == NULL)
    else
      u in order <==> u < t.freeNode
  }

  ghost predicate Counted(t: Tree, order: seq<int>, z: seq<int>) {
    && t.Sized() && ZeroList(t.links, t.zeros, z)
    && t.zeroCount == (if z == [] then 1 else |z|) && t.freeNode + t.zeroCount == 2 * N && t.zeroCount <= N
    && (forall u {:trigger CountedAt(t, order, z, u)} :: Node(u) ==> CountedAt(t, order, z, u))
  }

  // With symbols in the tree.
  ghost predicate Working(t: Tree, c: Climb, z: seq<int>) {
    Rest(t, c) && Counted(t, c.order, z)
  }

  ghost predicate FreshAt(t: Tree, u: int)
    requires t.Sized() && Node(u)
  {
    u < N ==> t.weight[u] == 0 && t.left[u] == NULL && t.right[u] == NULL && t.links.parent[u] == NULL
  }

  // Before the first symbol: the root is the first of the zeros.
  ghost predicate Fresh(t: Tree, z: seq<int>) {
    && t.Sized() && ZeroList(t.links, t.zeros, z) && |z| == N == t.zeroCount == t.freeNode && t.links.root == t.zeros
    && (forall u {:trigger FreshAt(t, u)} :: Node(u) ==> FreshAt(t, u))
    && (forall u {:trigger u in z} :: 0 <= u < N ==> u in z)
    && Distinct(t.blocks.free) && (forall k {:trigger k in t.blocks.free} :: k in t.blocks.free <==> Block(k))
    && |t.blocks.free| >= 2
  }

  function Without(z: seq<int>, i: nat): seq<int>
    requires i < |z|
  {
    z[..i] + z[i + 1..]
  }

  lemma WithoutOne(z: seq<int>, i: nat)
    requires Distinct(z) && i < |z|
    ensures Distinct(Without(z, i))
    ensures forall u {:trigger u in Without(z, i)} :: u in Without(z, i) <==> u in z && u != z[i]
  {
    var r := Without(z, i);
    assert forall k :: 0 <= k < |r| ==> r[k] == z[if k < i then k else k + 1];
    forall u | u in z && u != z[i]
      ensures u in r
    {
      var k :| 0 <= k < |z| && z[k] == u;
      assert r[if k < i then k else k - 1] == u;
    }
  }

  // Where fgk_increase_zero_weight finds the symbol, and what remains of the list.
  lemma InsertZeros(l: Links, zeros: int, z: seq<int>, i: nat, new_: int)
    requires ZeroList(l, zeros, z) && i < |z| && |z| >= 2 && N <= new_ < NODES && Node(zeros)
    requires zeros != l.root ==> N <= l.parent[zeros] < NODES && l.parent[zeros] != new_
    ensures ZeroLeaf(l, zeros, z[i])
    ensures var (l', head) := InsertLinks(l, zeros, z[i], new_);
            && head == (if i == 0 then z[1] else z[0]) && ZeroList(l', head, Without(z, i))
            && l'.leftChild[z[i]] == l'.rightChild[z[i]] == NULL
  {
    assert ZeroAt(l, z, 0) && ZeroAt(l, z, i) && ZeroAt(l, z, 1);
    assert i > 0 ==> ZeroAt(l, z, i - 1);
    assert i + 1 < |z| ==> ZeroAt(l, z, i + 1);
    WithoutOne(z, i);
    assert i > 0 ==> z[i] != z[0];
    var (l', head) := InsertLinks(l, zeros, z[i], new_);
    var r := Without(z, i);
    forall k {:trigger ZeroAt(l', r, k)} | 0 <= k < |r|
      ensures ZeroAt(l', r, k)
    {
      InsertZeroAt(l, zeros, z, i, new_, k);
    }
  }

  lemma InsertZeroAt(l: Links, zeros: int, z: seq<int>, i: nat, new_: int, k: nat)
    requires ZeroList(l, zeros, z) && i < |z| && |z| >= 2 && N <= new_ < NODES && Node(zeros) && k < |z| - 1
    requires zeros != l.root ==> N <= l.parent[zeros] < NODES && l.parent[zeros] != new_
    requires ZeroLeaf(l, zeros, z[i])
    ensures InsertLinks(l, zeros, z[i], new_).0.Sized()
    ensures ZeroAt(InsertLinks(l, zeros, z[i], new_).0, Without(z, i), k)
  {
    hide InsertLinks, Links.Sized, Node, ZeroLeaf;
    assert ZeroAt(l, z, 0) && ZeroAt(l, z, i) && ZeroAt(l, z, 1);
    assert i > 0 ==> ZeroAt(l, z, i - 1);
    assert i + 1 < |z| ==> ZeroAt(l, z, i + 1);
    var j := if k < i then k else k + 1;
    assert ZeroAt(l, z, j);
    assert Without(z, i)[k] == z[j];
    InsertChildren(l, zeros, z[i], new_, z[j]);
    assert z[j] != z[i];
    assert k > 0 ==> Without(z, i)[k - 1] == z[if k - 1 < i then k - 1 else k];
    assert k + 1 < |z| - 1 ==> Without(z, i)[k + 1] == z[if k + 1 < i then k + 1 else k + 2];
    assert i + 1 < |z| ==> (z[j] == z[i + 1] <==> j == i + 1);
    assert i > 0 ==> (z[j] == z[i - 1] <==> j == i - 1);
  }

  // The children fields of a leaf that stays in the list.
  lemma InsertChildren(l: Links, zeros: int, n: int, new_: int, u: int)
    requires ZeroLeaf(l, zeros, n) && N <= new_ < NODES && 0 <= u < N && u != n
    requires zeros != l.root ==> N <= l.parent[zeros] < NODES && l.parent[zeros] != new_
    ensures var l' := InsertLinks(l, zeros, n, new_).0;
            && l'.Sized() && l'.leftChild[n] == l'.rightChild[n] == NULL
            && l'.leftChild[u] == (if u == l.rightChild[n] then l.leftChild[n] else l.leftChild[u])
            && l'.rightChild[u] == (if u == l.leftChild[n] then l.rightChild[n] else l.rightChild[u])
  {
    hide Tree.Sized;
  }

  // ---------- every update keeps it ----------

  lemma KeptZeros(l: Links, l': Links, zeros: int, z: seq<int>)
    requires ZeroList(l, zeros, z) && l'.Sized()
    requires forall u :: 0 <= u < N ==> l'.leftChild[u] == l.leftChild[u] && l'.rightChild[u] == l.rightChild[u]
    ensures ZeroList(l', zeros, z)
  {
    forall i {:trigger ZeroAt(l', z, i)} | 0 <= i < |z|
      ensures ZeroAt(l', z, i)
    {
      assert ZeroAt(l, z, i);
    }
  }

  lemma KeptCounted(t: Tree, t': Tree, order: seq<int>, order': seq<int>, z: seq<int>, v: int)
    requires Counted(t, order, z) && Kept(t, t', order, v) && SameNodes(order, order') && Node(v)
    requires v >= N || t.weight[v] > 0
    ensures Counted(t', order', z)
  {
    forall u | 0 <= u < N
      ensures t'.links.leftChild[u] == t.links.leftChild[u] && t'.links.rightChild[u] == t.links.rightChild[u]
    {
      assert KeptAt(t, t', order, v, u);
    }
    KeptZeros(t.links, t'.links, t.zeros, z);
    forall u {:trigger CountedAt(t', order', z, u)} | Node(u)
      ensures CountedAt(t', order', z, u)
    {
      assert CountedAt(t, order, z, u) && KeptAt(t, t', order, v, u);
      if u < N && u in z && u != t.zeros {
        assert t.weight[u] == 0 && u !in order;
      }
    }
  }

  lemma WorkingNew(t: Tree, c: Climb, z: seq<int>, i: nat)
    requires Working(t, c, z) && i < |z| && |z| >= 2
    ensures NewSymbol(t, c, z[i], if i == 0 then z[1] else z[0])
    ensures |c.order| >= 3 && N <= c.order[2] < NODES && t.freeNode != c.order[2] && t.zeros != t.links.root
    ensures t.Sized() && 0 <= z[i] < N && t.weight[z[i]] == 0
    ensures t.links.parent[t.zeros] == c.order[2] && 0 <= t.zeros < N && c.order[2] != t.zeros
  {
    hide Block, BlocksOk, ChildOk, Distinct, InsertLinks, Level, LevelAt, LinkedBack, Links.Sized, ListOk, Tree.Sized,
         TreeOk, WeightOk, WeightsOk, ZeroLeaf;
    assert ZeroAt(t.links, z, 0) && ZeroAt(t.links, z, i) && ZeroAt(t.links, z, 1);
    ZeroFamily(t, c);
    assert i > 0 ==> ZeroAt(t.links, z, i - 1);
    assert i + 1 < |z| ==> ZeroAt(t.links, z, i + 1);
    assert CountedAt(t, c.order, z, z[i]) && CountedAt(t, c.order, z, z[0]) && CountedAt(t, c.order, z, z[1]);
    assert i > 0 ==> CountedAt(t, c.order, z, z[i - 1]);
    assert i + 1 < |z| ==> CountedAt(t, c.order, z, z[i + 1]);
    assert CountedAt(t, c.order, z, t.freeNode);
    Neighbours(t, c.order, 0);
    assert c.order[2] in c.order;
    InsertZeros(t.links, t.zeros, z, i, t.freeNode);
    hide Rest;
  }

  lemma EnteredCounted(t: Tree, c: Climb, z: seq<int>, i: nat)
    requires Working(t, c, z) && i < |z| && |z| >= 2
    ensures Increasable(t, z[i]) && c.order != [] && Node(t.freeNode)
    ensures Counted(Entered(t, z[i]), Grown(c.order, if i == 0 then z[1] else z[0], z[i], t.freeNode), Without(z, i))
  {
    hide Block, CountedAt, Grown, GrownBlocks, Increasable, Increase, InsertLinks, Links.Sized, NewSymbol, Node, Rest,
         ZeroAt, ZeroLeaf, ZeroList;
    var n, head := z[i], if i == 0 then z[1] else z[0];
    WorkingNew(t, c, z, i);
    IncreaseShape(t, c, n, head);
    InsertZeros(t.links, t.zeros, z, i, t.freeNode);
    var t', order' := Entered(t, n), Grown(c.order, head, n, t.freeNode);
    assert t'.zeros == head && t'.freeNode + t'.zeroCount == 2 * N;
    forall u {:trigger CountedAt(t', order', Without(z, i), u)} | Node(u)
      ensures CountedAt(t', order', Without(z, i), u)
    {
      EnteredCountedAt(t, c, z, i, u);
    }
  }

  lemma EnteredCountedAt(t: Tree, c: Climb, z: seq<int>, i: nat, u: int)
    requires Working(t, c, z) && i < |z| && |z| >= 2 && Node(u) && Node(t.freeNode) && c.order != []
    requires Increasable(t, z[i])
    ensures CountedAt(Entered(t, z[i]), Grown(c.order, if i == 0 then z[1] else z[0], z[i], t.freeNode), Without(z, i), u)
  {
    hide Distinct, Entered, Grown, Increasable, Links.Sized, Rest, Without, ZeroAt;
    var n, head := z[i], if i == 0 then z[1] else z[0];
    hide Increase;
    WorkingNew(t, c, z, i);
    EnteredFields(t, c, n, head);
    GrowingOrder(t, c, n, head);
    WithoutOne(z, i);
    EnteredSibling(t, c, z);
    assert CountedAt(t, c.order, z, u) && CountedAt(t, c.order, z, n) && CountedAt(t, c.order, z, head);
    assert n in z && head in z && t.zeros in z;
    var t', order', z' := Entered(t, n), Grown(c.order, head, n, t.freeNode), Without(z, i);
    hide NewSymbol, Counted, Working;
    if u < N {
      assert u in z' <==> t'.weight[u] == 0;
      assert u in order' <==> t'.weight[u] > 0 || u == t'.zeros;
      assert u in z' && u != t'.zeros ==> t'.left[u] == NULL;
    }
  }

  lemma EnteredSibling(t: Tree, c: Climb, z: seq<int>)
    requires Working(t, c, z) && |z| >= 2
    ensures |c.order| >= 3 && Node(c.order[1]) && c.order[1] in c.order && c.order[1] !in z && Node(t.zeros) && t.zeros == z[0]
    ensures t.weight[t.zeros] == 0
  {
    assert ZeroAt(t.links, z, 0);
    assert CountedAt(t, c.order, z, z[0]);
    ZeroFamily(t, c);
    hide Rest;
    forall k | 0 <= k < |z|
      ensures z[k] != c.order[1]
    {
      assert ZeroAt(t.links, z, k);
      assert CountedAt(t, c.order, z, z[k]);
    }
  }

  lemma EnteredFields(t: Tree, c: Climb, n: int, head: int)
    requires NewSymbol(t, c, n, head)
    ensures Increasable(t, n) && Node(t.freeNode) && |c.order| >= 3 && Node(n) && Node(head) && Node(c.order[1])
    ensures var t' := Entered(t, n);
            && t'.Sized() && t'.zeros == head && t'.freeNode == t.freeNode + 1
            && t'.weight == t.weight[t.freeNode := 1][n := 1] && t'.left == t.left[t.freeNode := n][c.order[1] := t.freeNode][n := head]
  {
    IncreaseShape(t, c, n, head);
    hide Rest, Increase, Increasable;
  }

  lemma LastCounted(t: Tree, c: Climb, z: seq<int>)
    requires Working(t, c, z) && |z| == 1
    ensures LastSymbol(t, c, z[0]) && Increasable(t, z[0]) && Counted(LastEntered(t, z[0]), c.order, [])
  {
    var n := z[0];
    assert ZeroAt(t.links, z, 0);
    assert LastSymbol(t, c, n);
    ZeroFamily(t, c);
    LastPlaces(t, c, n, 1);
    var t' := LastEntered(t, n);
    hide Rest;
    forall u {:trigger CountedAt(t', c.order, [], u)} | Node(u)
      ensures CountedAt(t', c.order, [], u)
    {
      assert CountedAt(t, c.order, z, u);
    }
  }

  // A node of weight zero is only incremented.
  lemma ZeroTurn(t: Tree, v: int)
    requires t.Sized() && Node(v) && t.weight[v] == 0 && Block(t.blocks.of[v]) && Node(t.blocks.leader[t.blocks.of[v]])
    ensures Steppable(t, v) && Step(t, v) == Bumped(t, v)
  {
  }

  // The first symbol: the tree has a leaf for it, one for the rest, and a root.
  lemma FirstShape(t: Tree, z: seq<int>, i: nat)
    requires Fresh(t, z) && i < N
    ensures Increasable(t, z[i]) && 0 <= z[i] < N && t.freeNode == N
    ensures var head := if i == 0 then z[1] else z[0];
            && 0 <= head < N && head != z[i] && t.zeros == z[0] && 0 <= z[0] < N
            && ZeroLeaf(t.links, t.zeros, z[i])
            && InsertLinks(t.links, t.zeros, z[i], N).1 == head
            && ZeroList(InsertLinks(t.links, t.zeros, z[i], N).0, head, Without(z, i))
  {
    assert ZeroAt(t.links, z, 0) && ZeroAt(t.links, z, i) && ZeroAt(t.links, z, 1);
    assert FreshAt(t, z[0]) && FreshAt(t, z[i]);
    InsertZeros(t.links, t.zeros, z, i, N);
    assert t.blocks.free[0] in t.blocks.free && t.blocks.free[1] in t.blocks.free;
    hide InsertLinks;
  }

  function FirstClimb(w: seq<nat>, head: int, n: int): Climb {
    Climb([head, n, N], 1, [0, 1, 2], w, {}, NULL)
  }

  lemma FirstInsert(l: Links, zeros: int, n: int, head: int)
    requires ZeroLeaf(l, zeros, n) && zeros == l.root && l.parent[zeros] == NULL
    requires head == InsertLinks(l, zeros, n, N).1 && 0 <= head < N && head != n
    ensures var l' := InsertLinks(l, zeros, n, N).0;
            && l'.Sized() && l'.root == N && l'.parent[N] == NULL && l'.parent[n] == N && l'.parent[head] == N
            && l'.leftChild[N] == head && l'.rightChild[N] == n && l'.leftChild[n] == l'.rightChild[n] == NULL
  {
  }

  // A root with two leaves, one of weight zero.
  ghost predicate Small(t: Tree, head: int, n: int) {
    && t.Sized() && 0 <= head < N && 0 <= n < N && n != head && t.zeros == head
    && t.weight[head] == 0 && t.weight[n] == 1 == t.weight[N]
    && t.right[head] == n && t.right[n] == N && t.right[N] == NULL
    && t.left[head] == NULL && t.left[n] == head && t.left[N] == n
    && t.links.root == N && t.links.parent[N] == NULL && t.links.parent[n] == N == t.links.parent[head]
    && t.links.leftChild[N] == head && t.links.rightChild[N] == n && t.links.leftChild[n] == t.links.rightChild[n] == NULL
  }

  lemma SmallOk(t: Tree, head: int, n: int)
    requires Small(t, head, n)
    ensures var c := FirstClimb(t.weight, head, n);
            && ListOk(t, c.order) && TreeOk(t.links, c.order) && Sums(t.links, c.order, c.w0) && WeightsOk(t, c)
            && ZeroOk(t.links, c, t.zeros) && LeavesOk(t.links, c.order, t.zeros) && Level(t, c)
  {
    hide Links.Sized;
    var c := FirstClimb(t.weight, head, n);
    var order := c.order;
    assert order[0] == head && order[1] == n && order[2] == N;
    assert forall u :: u in order <==> u == head || u == n || u == N;
    assert ListOk(t, order);
    assert TreeOk(t.links, order);
  }

  lemma FirstRests(t: Tree, z: seq<int>, i: nat)
    requires Fresh(t, z) && i < N
    ensures Increasable(t, z[i]) && Node(t.freeNode)
    ensures var t', head := Entered(t, z[i]), if i == 0 then z[1] else z[0]; Rest(t', FirstClimb(t'.weight, head, z[i]))
  {
    FirstShape(t, z, i);
    var n, head := z[i], if i == 0 then z[1] else z[0];
    assert ZeroAt(t.links, z, 0);
    assert FreshAt(t, z[0]) && FreshAt(t, n) && FreshAt(t, head);
    FirstInsert(t.links, t.zeros, n, head);
    var t' := Entered(t, n);
    assert Small(t', head, n) by {
      hide InsertLinks, ZeroList;
    }
    SmallOk(t', head, n);
    FirstBlocks(t, z, i);
    hide *;
    FirstRestsAll(t', FirstClimb(t'.weight, head, n));
  }

  lemma FirstRestsAll(t: Tree, c: Climb)
    requires t.Sized() && ListOk(t, c.order) && TreeOk(t.links, c.order) && Sums(t.links, c.order, c.w0) && WeightsOk(t, c)
    requires ZeroOk(t.links, c, t.zeros) && LeavesOk(t.links, c.order, t.zeros) && Level(t, c) && BlocksOk(t.blocks, c)
    requires c.path == {} && t.links.root == c.order[|c.order| - 1]
    ensures Rest(t, c)
  {
  }

  lemma FirstTwo(s: seq<int>, x: int)
    requires |s| >= 2 && x in s
    ensures x == s[0] || x == s[1] || x in s[2..]
  {
    var j :| 0 <= j < |s| && s[j] == x;
    assert j >= 2 ==> s[2..][j - 2] == x;
  }

  lemma FirstBlocks(t: Tree, z: seq<int>, i: nat)
    requires Fresh(t, z) && i < N
    ensures Increasable(t, z[i]) && Node(t.freeNode)
    ensures var t', head := Entered(t, z[i]), if i == 0 then z[1] else z[0];
            BlocksOk(t'.blocks, FirstClimb(t'.weight, head, z[i]))
  {
    hide InsertLinks, ZeroList, BlocksOk, FirstClimb;
    FirstShape(t, z, i);
    var n, head := z[i], if i == 0 then z[1] else z[0];
    var t' := Entered(t, n);
    TwoBlocks(t'.blocks, t.blocks.free, t'.weight, head, n);
  }

  // Two leaves, of which the second has a block, and their parent, which has another.
  lemma TwoBlocks(b: Blocks, free: seq<int>, w: seq<nat>, head: int, n: int)
    requires b.Sized() && 0 <= head < N && 0 <= n < N && head != n
    requires |free| >= 2 && Distinct(free) && forall k {:trigger k in free} :: k in free <==> Block(k)
    requires b.free == free[2..] && Block(free[0]) && Block(free[1])
    requires b.of[n] == free[0] && b.of[N] == free[1] && b.leader[free[0]] == n && b.leader[free[1]] == N
    ensures BlocksOk(b, FirstClimb(w, head, n))
  {
    var c := FirstClimb(w, head, n);
    assert c.order[0] == head && c.order[1] == n && c.order[2] == N;
    forall x {:trigger x in b.free} | x in b.free
      ensures Block(x) && x != free[0] && x != free[1]
    {
      var j :| 0 <= j < |b.free| && b.free[j] == x;
      assert free[j + 2] == x && x in free;
    }
    forall x {:trigger Used(b, c, x)} | Block(x) && x !in b.free
      ensures Used(b, c, x)
    {
      assert x in free;
      FirstTwo(free, x);
      assert b.of[c.order[if x == free[0] then 1 else 2]] == x;
    }
  }

  lemma FirstCounted(t: Tree, z: seq<int>, i: nat)
    requires Fresh(t, z) && i < N
    ensures Increasable(t, z[i]) && Node(t.freeNode)
    ensures var t', head := Entered(t, z[i]), if i == 0 then z[1] else z[0]; Counted(t', [head, z[i], N], Without(z, i))
  {
    FirstShape(t, z, i);
    WithoutOne(z, i);
    var n, head := z[i], if i == 0 then z[1] else z[0];
    var t' := Entered(t, n);
    forall u {:trigger CountedAt(t', [head, n, N], Without(z, i), u)} | Node(u)
      ensures CountedAt(t', [head, n, N], Without(z, i), u)
    {
      assert FreshAt(t, u);
    }
    hide InsertLinks;
  }

  // What it says of a node of the tree: parents and children agree, an internal node
  // weighs as much as its two children, and only the zero leaf weighs nothing.
  lemma TreeNode(t: Tree, c: Climb, z: seq<int>, u: int)
    requires Working(t, c, z) && u in c.order
    ensures Node(u) && Node(t.links.root)
    ensures u != t.links.root ==>
              var p := t.links.parent[u];
              p in c.order && N <= p < NODES && (t.links.leftChild[p] == u) != (t.links.rightChild[p] == u)
    ensures u >= N ==>
              var l, r := t.links.leftChild[u], t.links.rightChild[u];
              && Node(l) && Node(r) && l != r && t.links.parent[l] == u == t.links.parent[r]
              && t.weight[u] == t.weight[l] + t.weight[r]
    ensures t.weight[u] == 0 ==> u == t.zeros == z[0]
  {
    assert WeightOk(t, c, u);
    if u >= N {
      assert ParentOk(t.links, c.order, u) && SumOk(t.links, c.w0, u);
      assert WeightOk(t, c, t.links.leftChild[u]) && WeightOk(t, c, t.links.rightChild[u]);
    }
    if u != t.links.root {
      ParentOf(t.links, c.order, u);
    }
    hide BlocksOk, Linked, LinkedBack, Level, LeavesOk;
  }

  // ---------- fgk_update_tree ----------

  ghost predicate Started(t: Tree) {
    exists c, z :: Working(t, c, z)
  }

  ghost predicate Unstarted(t: Tree) {
    exists z :: Fresh(t, z)
  }

  // A tree that updates have made.
  ghost predicate Proper(t: Tree) {
    Unstarted(t) || Started(t)
  }

  // The loop from v, turn by turn, ends with t'.
  ghost predicate Goes(t: Tree, v: int, t': Tree, turns: nat)
    decreases turns
  {
    && t.Sized() && Node(v)
    && if v == t.links.root then turns == 0 && t' == Bumped(t, v)
       else turns > 0 && Steppable(t, v) && Goes(Step(t, v), Step(t, v).links.parent[v], t', turns - 1)
  }

  lemma {:induction false} ClimbGoes(t: Tree, v: int) returns (turns: nat)
    requires InProgress(t, v)
    ensures Goes(t, v, ClimbFrom(t, v), turns)
    decreases if t.Sized() && Node(v) && Node(t.links.root) then Below(t, v) else 0
  {
    hide InProgress, Step;
    InProgressNode(t, v);
    if v == t.links.root {
      turns := 0;
    } else {
      StepNearer(t, v);
      var rest := ClimbGoes(Step(t, v), Step(t, v).links.parent[v]);
      turns := rest + 1;
    }
  }

  // fgk_update_tree: the loop goes from the symbol, entered in the tree if it is new.
  ghost predicate Updated(t: Tree, n: int, t': Tree) {
    && t.Sized() && 0 <= n < N
    && exists turns ::
         if t.weight[n] == 0 then Increasable(t, n) && Goes(Increase(t, n), n, t', turns) else Goes(t, n, t', turns)
  }

  // The loop makes one tree.
  lemma {:induction false} GoesOnce(t: Tree, v: int, t1: Tree, turns1: nat, t2: Tree, turns2: nat)
    requires Goes(t, v, t1, turns1) && Goes(t, v, t2, turns2)
    ensures t1 == t2 && turns1 == turns2
    decreases turns1
  {
    if turns1 > 0 {
      GoesOnce(Step(t, v), Step(t, v).links.parent[v], t1, turns1 - 1, t2, turns2 - 1);
    }
  }

  ghost predicate CountsOne(t: Tree, t': Tree, n: int) {
    t.Sized() && t'.Sized() && 0 <= n < N && forall u :: 0 <= u < N ==> t'.weight[u] == t.weight[u] + if u == n then 1 else 0
  }

  // Once the symbol is counted the climb counts no other.
  lemma KeptCounts(t: Tree, e: Tree, t': Tree, order: seq<int>, p: int, n: int)
    requires Kept(e, t', order, p) && p >= N && CountsOne(t, e, n)
    ensures CountsOne(t, t', n)
  {
    forall u | 0 <= u < N
      ensures t'.weight[u] == t.weight[u] + if u == n then 1 else 0
    {
      assert KeptAt(e, t', order, p, u);
    }
  }

  lemma UpdateKnown(t: Tree, c: Climb, z: seq<int>, n: int) returns (t': Tree)
    requires Working(t, c, z) && 0 <= n < N && t.weight[n] > 0
    ensures Updated(t, n, t') && Started(t') && CountsOne(t, t', n)
  {
    hide AllNodes, Blocks.Sized, BlocksOk, ClimbFrom, Climbing, Goes, Increasable, Increase, LeavesOk, Level,
         Links.Sized, ListOk, Sums, TreeOk, WeightsOk, ZeroList;
    assert CountedAt(t, c.order, z, n);
    var c0 := c.(tied := if t.zeros != NULL then c.order[2] else NULL);
    StartKnown(t, c, n);
    var c' := ClimbRests(t, c0, n);
    t' := ClimbFrom(t, n);
    var turns := ClimbGoes(t, n);
    KeptCounted(t, t', c.order, c'.order, z, n);
    assert Working(t', c', z);
    hide Rest, Counted, InProgress;
    forall u | 0 <= u < N
      ensures t'.weight[u] == t.weight[u] + if u == n then 1 else 0
    {
      assert KeptAt(t, t', c.order, n, u);
    }
  }

  lemma UpdateFirst(t: Tree, z: seq<int>, i: nat) returns (t': Tree)
    requires Fresh(t, z) && i < N
    ensures Updated(t, z[i], t') && Started(t') && CountsOne(t, t', z[i])
  {
    var n, head := z[i], if i == 0 then z[1] else z[0];
    FirstShape(t, z, i);
    FirstRests(t, z, i);
    FirstCounted(t, z, i);
    FirstBlocks(t, z, i);
    t' := Entered(t, n);
    assert Working(t', FirstClimb(t'.weight, head, n), Without(z, i));
    FirstTurns(t, z, i);
  }

  lemma FirstTurns(t: Tree, z: seq<int>, i: nat)
    requires Fresh(t, z) && i < N
    ensures 0 <= z[i] < N && Increasable(t, z[i]) && Node(t.freeNode)
    ensures t.weight[z[i]] == 0 && Goes(Increase(t, z[i]), z[i], Entered(t, z[i]), 1) && CountsOne(t, Entered(t, z[i]), z[i])
  {
    hide BlocksOk, InsertLinks;
    var n, head := z[i], if i == 0 then z[1] else z[0];
    FirstShape(t, z, i);
    assert ZeroAt(t.links, z, 0);
    assert FreshAt(t, n) && FreshAt(t, z[0]);
    FirstInsert(t.links, t.zeros, n, head);
    FirstBlocks(t, z, i);
    var t1 := Increase(t, n);
    var k := t.blocks.free[0];
    assert t.blocks.free[0] in t.blocks.free && t.blocks.free[1] in t.blocks.free;
    assert t1.blocks.of[n] == k && t1.blocks.leader[k] == n;
    ZeroTurn(t1, n);
    hide Step, ZeroList, Steppable;
    assert Goes(Bumped(t1, n), N, Entered(t, n), 0);
  }

  lemma UpdateNew(t: Tree, c: Climb, z: seq<int>, i: nat) returns (t': Tree)
    requires Working(t, c, z) && i < |z| && |z| >= 2
    ensures Updated(t, z[i], t') && Started(t') && CountsOne(t, t', z[i])
  {
    var n, head := z[i], if i == 0 then z[1] else z[0];
    WorkingNew(t, c, z, i);
    hide Rest, Counted, Goes, Climbing, InProgress, ClimbFrom, NewSymbol, Increasable, Increase, Grown, Without, CountsOne, Kept,
         SameNodes;
    StartNew(t, c, n, head);
    EnteredCounted(t, c, z, i);
    var e, c1, p := Entered(t, n), EnteredClimb(t, c, n, head), c.order[2];
    var c' := ClimbRests(e, c1, p);
    t' := ClimbFrom(e, p);
    var turns := ClimbGoes(e, p);
    KeptCounted(e, t', c1.order, c'.order, Without(z, i), p);
    assert Working(t', c', Without(z, i));
    NewTurns(t, c, z, i, t', turns);
    KeptCounts(t, e, t', c1.order, p, n);
  }

  // The turns for the symbol and its parent, both of weight zero.
  lemma NewTurns(t: Tree, c: Climb, z: seq<int>, i: nat, t': Tree, turns: nat)
    requires Working(t, c, z) && i < |z| && |z| >= 2 && |c.order| >= 3
    requires Increasable(t, z[i]) && Node(t.freeNode) && Goes(Entered(t, z[i]), c.order[2], t', turns)
    ensures 0 <= z[i] < N && t.weight[z[i]] == 0 && Goes(Increase(t, z[i]), z[i], t', turns + 2)
    ensures CountsOne(t, Entered(t, z[i]), z[i])
  {
    hide Rest, Counted, NewSymbol, Increasable, Increase;
    var n, head := z[i], if i == 0 then z[1] else z[0];
    WorkingNew(t, c, z, i);
    IncreaseStructure(t, c, n, head);
    NewBlocks(t, c, n, head);
    NewParents(t, c, n, head);
    NewWeights(t, c, n, head);
    hide *;
    TwoTurns(Increase(t, n), n, t.freeNode, t', turns);
  }

  lemma NewParents(t: Tree, c: Climb, n: int, head: int)
    requires NewSymbol(t, c, n, head) && Increasable(t, n) && |c.order| >= 3
    requires Inserted(t.links, Increase(t, n).links, c.order[2], n, t.freeNode, head)
    ensures var l := Increase(t, n).links;
            && Increase(t, n).Sized() && Node(n) && Node(t.freeNode) && n != t.freeNode
            && l.root != n && l.root != t.freeNode && l.parent[n] == t.freeNode && l.parent[t.freeNode] == c.order[2]
  {
    IncreaseShape(t, c, n, head);
    ZeroFamily(t, c);
    assert InsertedAt(t.links, Increase(t, n).links, c.order[2], n, t.freeNode, head, n);
    assert InsertedAt(t.links, Increase(t, n).links, c.order[2], n, t.freeNode, head, t.freeNode);
    assert t.links.root in c.order;
  }

  lemma NewWeights(t: Tree, c: Climb, n: int, head: int)
    requires NewSymbol(t, c, n, head) && Increasable(t, n)
    ensures t.Sized() && Node(t.freeNode) && Increase(t, n).Sized() && Node(n)
    ensures Increase(t, n).weight[n] == 0 == Increase(t, n).weight[t.freeNode] && CountsOne(t, Entered(t, n), n)
    ensures Entered(t, n) == Bumped(Bumped(Increase(t, n), n), t.freeNode)
  {
    IncreaseShape(t, c, n, head);
    hide Rest, Increase, Increasable;
  }

  lemma TwoTurns(t: Tree, n: int, new_: int, t': Tree, turns: nat)
    requires t.Sized() && Node(n) && Node(new_) && n != new_ && t.weight[n] == 0 == t.weight[new_]
    requires t.links.root != n && t.links.root != new_ && t.links.parent[n] == new_
    requires Block(t.blocks.of[n]) && Block(t.blocks.of[new_])
    requires Node(t.blocks.leader[t.blocks.of[n]]) && Node(t.blocks.leader[t.blocks.of[new_]])
    requires Goes(Bumped(Bumped(t, n), new_), t.links.parent[new_], t', turns)
    ensures Goes(t, n, t', turns + 2)
  {
    hide Step, Steppable;
    ZeroTurn(t, n);
    ZeroTurn(Bumped(t, n), new_);
    assert Goes(Bumped(t, n), new_, t', turns + 1);
  }

  // The new nodes are in blocks with leaders.
  lemma NewBlocks(t: Tree, c: Climb, n: int, head: int)
    requires NewSymbol(t, c, n, head) && |c.order| == |c.ends| >= 3 && Node(c.order[1]) && Increasable(t, n)
    requires BlocksOk(Increase(t, n).blocks, GrownClimb(c, head, n, t.freeNode, t.weight[c.order[1]] == 1))
    ensures var b := Increase(t, n).blocks;
            && b.Sized() && Node(n) && Node(t.freeNode) && Block(b.of[n]) && Block(b.of[t.freeNode])
            && Node(b.leader[b.of[n]]) && Node(b.leader[b.of[t.freeNode]])
  {
    var c1 := GrownClimb(c, head, n, t.freeNode, t.weight[c.order[1]] == 1);
    assert c1.order[1] == n && c1.order[2] == t.freeNode;
    hide Increase, Increasable;
    assert BlockAt(Increase(t, n).blocks, c1, 1) && BlockAt(Increase(t, n).blocks, c1, 2);
  }

  lemma UpdateLast(t: Tree, c: Climb, z: seq<int>) returns (t': Tree)
    requires Working(t, c, z) && |z| == 1
    ensures Updated(t, z[0], t') && Started(t') && CountsOne(t, t', z[0])
  {
    var n := z[0];
    LastCounted(t, c, z);
    StartLast(t, c, n);
    var e, c1, p := LastEntered(t, n), LastClimb(t, c, n), c.order[2];
    var c' := ClimbRests(e, c1, p);
    t' := ClimbFrom(e, p);
    var turns := ClimbGoes(e, p);
    LastTurns(t, c, z, t', turns);
    KeptCounted(e, t', c1.order, c'.order, [], p);
    assert Working(t', c', []);
    KeptCounts(t, e, t', c1.order, p, n);
    hide Rest, Counted, Goes, Climbing, InProgress, ClimbFrom, LastSymbol, Increasable;
  }

  lemma LastTurns(t: Tree, c: Climb, z: seq<int>, t': Tree, turns: nat)
    requires Working(t, c, z) && |z| == 1 && |c.order| >= 3
    requires Increasable(t, z[0]) && Goes(LastEntered(t, z[0]), c.order[2], t', turns)
    ensures 0 <= z[0] < N && t.weight[z[0]] == 0 && Goes(Increase(t, z[0]), z[0], t', turns + 1)
    ensures N <= c.order[2] < NODES
    ensures CountsOne(t, LastEntered(t, z[0]), z[0])
  {
    hide AllNodes, Block, ChildOk, Distinct, GrownBlocks, Increasable, Joins, Level, Linked, MakeBlock, ParentOk,
         Promotable, Steppable, Sums, SwapInList, TreeOk, Used, WeightsOk, ZeroList;
    var n := z[0];
    LastCounted(t, c, z);
    ZeroFamily(t, c);
    LastPlaces(t, c, n, 1);
    LastBlocks(t, c, n);
    var t1 := Increase(t, n);
    assert BlockAt(t1.blocks, LastClimb(t, c, n), 0);
    assert CountedAt(t, c.order, z, n);
    ZeroTurn(t1, n);
    hide Counted, BlocksOk, LinkedBack, Step;
  }
}
