// The adaptive Huffman coder at work (xdelta3-fgk.h): its state, and the loops that
// encode and decode sections.
module FgkStream {

  import opened Bytes
  import opened BitLayer
  import opened Fgk
  import opened FgkUpdate
  import opened FgkCoder
  import opened FgkBits
  import opened FgkLockstep

  lemma IndexNone(index: nat, size: nat, coded: seq<bool>)
    requires coded == []
    ensures Reversed(coded) == HighFirst(index, size)[size..] && Power2(0) == 1
  {
  }

  lemma TailCons(bits: seq<bool>, k: nat)
    requires k < |bits|
    ensures bits[k..] == [bits[k]] + bits[k + 1..]
  {
  }

  lemma IndexStep(index: nat, size: nat, coded: seq<bool>)
    requires |coded| < size && Reversed(coded) == HighFirst(index, size)[size - |coded|..]
    ensures Power2(|coded| + 1) == 2 * Power2(|coded|)
    ensures Reversed(coded + [(index / Power2(|coded|)) % 2 == 1]) == HighFirst(index, size)[size - |coded| - 1..]
  {
    MaskNext(|coded|);
    hide *;
    HighFirstBit(index, size, |coded|);
    ReversedSnoc(coded, (index / Power2(|coded|)) % 2 == 1);
    TailCons(HighFirst(index, size), size - |coded| - 1);
  }

  lemma GoesFor(t: Tree, n: int, t': Tree) returns (turns: nat)
    requires Updated(t, n, t')
    ensures t.Sized() && 0 <= n < N
    ensures if t.weight[n] == 0 then Increasable(t, n) && Goes(Increase(t, n), n, t', turns) else Goes(t, n, t', turns)
  {
    turns :| if t.weight[n] == 0 then Increasable(t, n) && Goes(Increase(t, n), n, t', turns) else Goes(t, n, t', turns);
  }

  // struct _fgk_stream.
  class Coder {
    var tree: Tree
    const codedBits: array<bool>
    var codedDepth: nat
    var decodePtr: int

    // Between symbols.
    ghost predicate Ready()
      reads this
    {
      Proper(tree) && codedBits.Length == N && codedDepth == 0 && decodePtr == tree.links.root
    }

    // fgk_alloc and fgk_init.
    constructor ()
      ensures Ready() && fresh(codedBits) && tree == Initial()
    {
      tree := Initial();
      codedBits := new bool[N];
      codedDepth := 0;
      decodePtr := 0;
      new;
      InitialProper();
      assert tree.links.root == 0;
    }

    // fgk_update_tree.
    method UpdateTree(n: int)
      requires Proper(tree) && 0 <= n < N
      modifies `tree
      ensures tree == After(old(tree), n)
    {
      ghost var goal := UpdateKeeps(tree, n);
      ghost var turns := GoesFor(tree, n, goal);
      UpdatedOnce(tree, n, goal, After(tree, n));
      hide *;
      if tree.weight[n] == 0 {
        tree := Increase(tree, n);
      }
      IncrementUp(n, goal, turns);
    }

    // Its loop, which takes so many turns to make the tree it should.
    method IncrementUp(n: int, ghost goal: Tree, ghost turns: nat)
      requires Goes(tree, n, goal, turns)
      modifies `tree
      ensures tree == goal
    {
      hide MoveRight, Promote, Movable, Promotable;
      var incr := n;
      ghost var left := turns;
      while incr != tree.links.root
        invariant Goes(tree, incr, goal, left)
        decreases left
      {
        tree := MoveRight(tree, incr);
        tree := Promote(tree, incr);
        tree := tree.(weight := tree.weight[incr := tree.weight[incr] + 1]);
        incr := tree.links.parent[incr];
        left := left - 1;
      }
      tree := tree.(weight := tree.weight[incr := tree.weight[incr] + 1]);
    }

    // fgk_find_nth_zero.
    method FindNthZero(n: int) returns (idx: nat)
      requires Proper(tree) && 0 <= n < N && tree.weight[n] == 0
      ensures idx < tree.zeroCount && NthZero(tree.links, tree.zeros, idx) == n
    {
      ghost var z, i := ZeroPlace(tree, n);
      hide Proper;
      var head := tree.zeros;
      idx := 0;
      while n != head
        invariant idx <= i && head == z[idx]
        decreases i - idx
      {
        assert ZeroAt(tree.links, z, idx);
        head := tree.links.rightChild[head];
        idx := idx + 1;
      }
      assert idx == i;
      NthZeroIs(tree.links, tree.zeros, z, 0, i);
    }

    // The first loop of fgk_encode_data: the bits of the index, lowest first.
    method EncodeIndex(idx: nat)
      requires codedBits.Length == N && 0 < tree.zeroCount <= N
      modifies codedBits, `codedDepth
      ensures codedDepth == IndexSize(tree.zeroCount) && codedDepth < tree.zeroCount
      ensures Reversed(codedBits[..codedDepth]) == HighFirst(idx, codedDepth)
    {
      IndexFits(tree.zeroCount);
      var size := IndexSize(tree.zeroCount);
      hide *;
      var bits: nat := size;
      var shift := 1;
      codedDepth := 0;
      IndexNone(idx, size, codedBits[..codedDepth]);
      while bits > 0
        invariant codedDepth + bits == size < N && shift == Power2(codedDepth)
        invariant Reversed(codedBits[..codedDepth]) == HighFirst(idx, size)[bits..]
      {
        var bit := (idx / shift) % 2 == 1;
        IndexStep(idx, size, codedBits[..codedDepth]);
        codedBits[codedDepth] := bit;
        assert codedBits[..codedDepth + 1] == codedBits[..codedDepth] + [bit];
        codedDepth := codedDepth + 1;
        bits := bits - 1;
        shift := 2 * shift;
      }
    }

    // The second: the path to the root, lowest node first. The bits fit, as the nodes
    // passed are internal nodes, each once.
    method EncodePath(leaf: int)
      requires At(tree, Reader(leaf, [])) && codedBits.Length == N
      requires codedDepth < tree.zeroCount <= N
      modifies codedBits, `codedDepth
      ensures old(codedDepth) <= codedDepth < N && codedBits[..old(codedDepth)] == old(codedBits[..codedDepth])
      ensures tree.Sized() && Descends(tree.links, tree.links.root, Reversed(codedBits[old(codedDepth)..codedDepth]), leaf)
    {
      hide *;
      AtNode(tree, Reader(leaf, []));
      SizedLinks(tree, leaf);
      assert codedBits[codedDepth..codedDepth] == [];
      if leaf == tree.links.root {
        return;
      }
      ghost var c, z := AtWork(tree, leaf);
      ghost var base := codedDepth;
      ghost var seen: set<int> := {};
      ghost var before := codedBits[..codedDepth];
      SeenNone(tree, c, z, leaf);
      var target := leaf;
      while target != tree.links.root
        invariant target in c.order && base <= codedDepth < N && |seen| == codedDepth - base
        invariant SeenOk(tree, c, seen, target)
        invariant codedBits[..base] == before
        invariant Descends(tree.links, target, Reversed(codedBits[base..codedDepth]), leaf)
        decreases N - codedDepth
      {
        SeeParent(tree, c, z, seen, target);
        NodeIn(tree, target);
        var p := tree.links.parent[target];
        seen := seen + {p};
        NodeIn(tree, p);
        var bit := tree.links.rightChild[p] == target;
        ghost var coded := codedBits[base..codedDepth];
        StepUp(tree.links, target, coded, leaf, bit);
        codedBits[codedDepth] := bit;
        codedDepth := codedDepth + 1;
        assert codedBits[base..codedDepth] == coded + [bit];
        target := p;
      }
    }

    lemma SeenNone(t: Tree, c: Climb, z: seq<int>, u: int)
      requires Working(t, c, z) && u in c.order && t.Sized()
      ensures SeenOk(t, c, {}, u)
    {
      hide LeavesOk, ZeroOk, TreeOk, BlocksOk, Level, Linked, LinkedBack, WeightsOk, CountedAt, ZeroList;
    }

    lemma NodeIn(t: Tree, u: int)
      requires t.Sized() && (Node(u) || N <= u < NODES)
      ensures 0 <= u < |t.links.parent| == |t.links.rightChild| && Node(u)
    {
    }

    lemma SizedLinks(t: Tree, leaf: int)
      requires t.Sized() && Node(leaf)
      ensures t.links.Sized() && Reversed([]) == [] && Descends(t.links, leaf, [], leaf) && N <= 256
    {
    }

    // fgk_encode_data.
    method EncodeData(n: int) returns (bits: nat)
      requires Proper(tree) && codedBits.Length == N && 0 <= n < N
      modifies this, codedBits
      ensures tree == After(old(tree), n) && bits == codedDepth < N
      ensures Coded(old(tree), n, Reversed(codedBits[..codedDepth]))
    {
      hide *;
      ghost var was := tree;
      TargetIs(tree, n);
      codedDepth := 0;
      var target := n;
      var idx := 0;
      if tree.weight[n] == 0 {
        idx := FindNthZero(n);
        EncodeIndex(idx);
        target := tree.zeros;
      }
      ghost var index, low := codedBits[..codedDepth], codedDepth;
      EncodePath(target);
      ghost var path := codedBits[low..codedDepth];
      ReversedJoin(index, path);
      CodeMade(was, n, Reversed(path), Reversed(index), idx);
      assert codedBits[..codedDepth] == index + path;
      UpdateTree(n);
      bits := codedDepth;
    }

    // fgk_get_encoded_bit.
    method GetEncodedBit() returns (bit: bool)
      requires 0 < codedDepth <= codedBits.Length
      modifies `codedDepth
      ensures codedDepth == old(codedDepth) - 1 && bit == codedBits[codedDepth]
    {
      codedDepth := codedDepth - 1;
      bit := codedBits[codedDepth];
    }

    // Where the decoder is.
    ghost function Position(): Reader
      reads this, codedBits
    {
      Reader(decodePtr, if codedDepth <= codedBits.Length then codedBits[..codedDepth] else [])
    }

    // In the middle of a code.
    ghost predicate Reading()
      reads this, codedBits
    {
      codedBits.Length == N && codedDepth <= N && At(tree, Position()) && ReadOk(tree, Position())
    }

    // fgk_decode_bit.
    method DecodeBit(bit: bool) returns (done: bool)
      requires Reading()
      modifies this, codedBits
      ensures tree == old(tree) && codedDepth <= N && (Position(), done) == ReadBit(tree, old(Position()), bit)
    {
      hide At, IndexSize;
      IndexRoom(tree, Position());
      if tree.weight[decodePtr] == 0 {
        ghost var index := codedBits[..codedDepth];
        var bitsreq := IndexSize(tree.zeroCount);
        codedBits[codedDepth] := bit;
        codedDepth := codedDepth + 1;
        assert codedBits[..codedDepth] == index + [bit];
        done := codedDepth >= bitsreq;
      } else {
        decodePtr := if bit then tree.links.rightChild[decodePtr] else tree.links.leftChild[decodePtr];
        if tree.links.leftChild[decodePtr] == NULL {
          done := tree.weight[decodePtr] != 0 || tree.zeroCount == 1;
        } else {
          done := false;
        }
      }
    }

    // fgk_decode_data, once a code is complete.
    method DecodeData() returns (elt: int)
      requires codedBits.Length == N && codedDepth <= N && At(tree, Position())
      requires Node(decodePtr) && tree.Sized() && 0 <= ReadSymbol(tree, Position(), false) < N
      requires codedDepth == 0 && tree.weight[decodePtr] == 0 ==> tree.zeroCount == 1
      modifies this
      ensures elt == ReadSymbol(old(tree), old(Position()), false) && tree == After(old(tree), elt) && Ready()
    {
      hide At, CountsOne, Node, NthZero, Tree.Sized, Unstarted, Updated, Working;
      AtNode(tree, Position());
      AtZero(tree, Position());
      hide Proper;
      elt := decodePtr;
      StaleBit(tree, Position(), codedBits[0]);
      if tree.weight[decodePtr] == 0 {
        var i: nat, n: nat := 0, 0;
        if codedDepth > 0 {
          while i < codedDepth - 1
            invariant i <= codedDepth - 1 && n == 2 * Value(codedBits[..i])
          {
            assert codedBits[..i + 1][..i] == codedBits[..i];
            n := n + if codedBits[i] then 1 else 0;
            n := 2 * n;
            i := i + 1;
          }
        }
        n := n + if codedBits[i] then 1 else 0;
        assert codedBits[..i + 1][..i] == codedBits[..i];
        assert n == Value(codedBits[..i + 1]);
        assert codedDepth == 0 ==> codedBits[..1] == [codedBits[0]];
        elt := FindZero(n);
      }
      codedDepth := 0;
      UpdateTree(elt);
      decodePtr := tree.links.root;
    }

    // fgk_nth_zero.
    method FindZero(n: nat) returns (elt: int)
      requires tree.Sized() && Node(tree.zeros) && Proper(tree)
      ensures elt == NthZero(tree.links, tree.zeros, n)
    {
      ghost var z := ZeroNodes(tree);
      hide Proper;
      elt := tree.zeros;
      var left: nat := n;
      while left != 0 && tree.links.rightChild[elt] != NULL
        invariant left <= n && elt in z && Node(elt) && NthZero(tree.links, elt, left) == NthZero(tree.links, tree.zeros, n)
        decreases left
      {
        ZeroNext(tree.links, tree.zeros, z, elt);
        elt := tree.links.rightChild[elt];
        ZeroNext(tree.links, tree.zeros, z, elt);
        left := left - 1;
      }
      ZeroNext(tree.links, tree.zeros, z, elt);
    }

    // The bits of a symbol, from the end of coded_bits.
    method EmitCode(bstate: BitWriter, count: nat)
      requires bstate.Valid() && count == codedDepth <= codedBits.Length
      modifies bstate, `codedDepth
      ensures bstate.Valid() && bstate.bits == old(bstate.bits) + Reversed(old(codedBits[..codedDepth])) && codedDepth == 0
    {
      ghost var before, code := bstate.bits, codedBits[..codedDepth];
      hide *;
      var bits: nat := count;
      while bits > 0
        invariant bits == codedDepth <= |code|
        invariant bstate.Valid() && bstate.bits == before + Reversed(code)[..|code| - bits]
      {
        var bit := GetEncodedBit();
        bits := bits - 1;
        EmitStep(code, bits);
        assert bit == code[bits];
        bstate.EncodeBit(bit);
      }
      assert Reversed(code)[..|code|] == Reversed(code);
    }

    // xd3_encode_fgk: the section's bytes, and the tree left for the next section.
    method EncodeSection(input: seq<byte>) returns (output: seq<byte>)
      requires Ready()
      modifies this, codedBits
      ensures tree == AfterAll(old(tree), input) && Ready()
      ensures Proper(old(tree)) && output == Pack(SectionCode(old(tree), input))
    {
      hide NumberOf, Reversed, SectionCode, Started, Tree.Sized, Unstarted, Updated, Writing;
      ghost var t0 := tree;
      hide Encodes, AfterAll, After, Proper, Coded, Pack;
      EncodesNone(t0);
      var bstate := new BitWriter();
      var i: nat := 0;
      while i < |input|
        invariant i <= |input| && Proper(t0) && Proper(tree) && bstate.Valid() && fresh(bstate) && codedBits.Length == N
        invariant Encodes(t0, input[..i], bstate.bits) && tree == AfterAll(t0, input[..i])
      {
        ghost var before := bstate.bits;
        var bits := EncodeData(input[i]);
        ghost var code := Reversed(codedBits[..codedDepth]);
        EmitCode(bstate, bits);
        EncodesMore(t0, input[..i], before, input[i], code);
        assert input[..i + 1] == input[..i] + [input[i]];
        i := i + 1;
      }
      assert input[..|input|] == input;
      EncodesOnce(t0, input, bstate.bits);
      bstate.FlushBits();
      output := bstate.output;
      codedDepth := 0;
      decodePtr := tree.links.root;
    }

    // xd3_decode_fgk: a section of so many bytes, and how many bytes of the input it
    // took.
    method DecodeSection(input: seq<byte>, size: nat) returns (r: Result<seq<byte>>, pos: nat)
      requires Ready() && size > 0
      modifies this, codedBits
      ensures AtStart(old(tree))
      ensures var d := Decode(old(tree), Start(old(tree)), Unpack(input), size);
              if d.Ok? then
                r == Ok(d.value.data) && tree == d.value.tree && pos == (d.value.used + 7) / 8 && Ready()
              else r.Fail?
    {
      ghost var t0, all := tree, Unpack(input);
      StartAt(t0);
      assert codedBits[..codedDepth] == [];
      hide At, Proper, ReadOk, Unpack, Decode;
      StartOnCourse(t0, all, size);
      var output, finished;
      output, finished, pos := DecodeBytes(input, size, t0, all);
      r := if finished then Ok(output) else Fail;
    }

    // The loop of xd3_decode_fgk over the bytes of the input.
    method DecodeBytes(input: seq<byte>, size: nat, ghost t0: Tree, ghost all: seq<bool>)
      returns (output: seq<byte>, finished: bool, pos: nat)
      requires all == Unpack(input) && OnCourse(t0, all, size, [], 0)
      modifies this, codedBits
      ensures AtStart(t0)
      ensures finished ==> exists used: nat :: 8 * (pos - 1) < used <= 8 * pos && Finished(t0, all, size, output, used)
      ensures !finished ==> Decode(t0, Start(t0), all, size).Fail?
    {
      OnCourseStart(t0, all, size, [], 0);
      hide *;
      pos := 0;
      output := [];
      finished := false;
      while !finished
        invariant pos <= |input|
        invariant !finished ==> OnCourse(t0, all, size, output, 8 * pos)
        invariant finished ==> exists used: nat :: 8 * (pos - 1) < used <= 8 * pos && Finished(t0, all, size, output, used)
        decreases !finished, |input| - pos
      {
        if pos == |input| {
          OutOfInput(t0, all, size, output, 8 * pos);
          return output, false, pos;
        }
        UnpackAt(input, pos);
        var curByte := input[pos];
        pos := pos + 1;
        output, finished := DecodeByte(curByte, output, size, t0, all, 8 * (pos - 1));
      }
    }

    lemma OnCourseStart(t0: Tree, all: seq<bool>, size: nat, output: seq<byte>, used: nat)
      requires OnCourse(t0, all, size, output, used)
      ensures AtStart(t0)
    {
    }

    lemma StartOnCourse(t0: Tree, all: seq<bool>, size: nat)
      requires tree == t0 && Ready() && AtStart(t0) && Position() == Start(t0) && size > 0
      ensures OnCourse(t0, all, size, [], 0)
    {
      hide At, Proper, ReadOk, Decode;
      PrefixedNone(Decode(t0, Start(t0), all, size));
      assert all[0..] == all;
    }

    lemma OutOfInput(t0: Tree, all: seq<bool>, size: nat, output: seq<byte>, used: nat)
      requires OnCourse(t0, all, size, output, used) && used == |all|
      ensures AtStart(t0) && Decode(t0, Start(t0), all, size).Fail?
    {
      DecodeEmpty(tree, Position(), size - |output|);
      assert all[used..] == [];
      hide At, Proper, ReadOk, Decode;
    }

    // What the decoder will make of all the bits, with so many of them read.
    ghost predicate OnCourse(t0: Tree, all: seq<bool>, size: nat, output: seq<byte>, used: nat)
      reads this, codedBits
    {
      && AtStart(t0) && used <= |all| && |output| < size && Reading()
      && Decode(t0, Start(t0), all, size)
         == Prefixed(output, used, Decode(tree, Position(), all[used..], size - |output|))
    }

    // The whole section is read.
    ghost predicate Finished(t0: Tree, all: seq<bool>, size: nat, output: seq<byte>, used: nat)
      reads this, codedBits
    {
      AtStart(t0) && Ready() && Decode(t0, Start(t0), all, size) == Ok(Decoded(output, tree, used))
    }

    // The eight bits of a byte, lowest first.
    method DecodeByte(curByte: byte, output: seq<byte>, size: nat, ghost t0: Tree, ghost all: seq<bool>, ghost from: nat)
      returns (output': seq<byte>, finished: bool)
      requires OnCourse(t0, all, size, output, from) && from + 8 <= |all| && all[from..from + 8] == BitsOf(curByte as nat, 8)
      modifies this, codedBits
      ensures !finished ==> OnCourse(t0, all, size, output', from + 8)
      ensures finished ==> exists used: nat :: from < used <= from + 8 && Finished(t0, all, size, output', used)
    {
      hide *;
      var curMask := 1;
      ghost var k: nat := 0;
      output' := output;
      finished := false;
      MaskNone();
      while curMask != 0x100
        invariant k <= 8 && curMask == Power2(k) && OnCourse(t0, all, size, output', from + k)
        decreases 8 - k
      {
        MaskLast(k);
        MaskBit(curByte as nat, 8, k);
        assert all[from + k] == all[from..from + 8][k];
        output', finished := DecodeOne((curByte / curMask) % 2 == 1, output', size, t0, all, from + k);
        if finished {
          return;
        }
        MaskNext(k);
        k := k + 1;
        curMask := 2 * curMask;
      }
      MaskLast(k);
    }

    method DecodeOne(bit: bool, output: seq<byte>, size: nat, ghost t0: Tree, ghost all: seq<bool>, ghost used: nat)
      returns (output': seq<byte>, finished: bool)
      requires OnCourse(t0, all, size, output, used) && used < |all| && all[used] == bit
      modifies this, codedBits
      ensures !finished ==> OnCourse(t0, all, size, output', used + 1)
      ensures finished ==> Finished(t0, all, size, output', used + 1)
    {
      hide At, Proper, ReadOk, ReadBit, ReadSymbol, After, Decode, Prefixed, Started, Unstarted, Updated, CountsOne;
      output', finished := output, false;
      ghost var t, r, rest := tree, Position(), all[used..];
      ReadStays(t, r, bit);
      DecodeStep(t, r, rest, size - |output|);
      assert rest[0] == bit && rest[1..] == all[used + 1..];
      var done := DecodeBit(bit);
      if !done {
        PrefixedTwice(output, used, [], 1, Decode(t, Position(), rest[1..], size - |output|));
        assert output + [] == output;
        return;
      }
      ReadDone(t, r, bit);
      var elt := DecodeData();
      StartAt(tree);
      output' := output + [elt];
      PrefixedTwice(output, used, [elt], 1, Decode(tree, Start(tree), rest[1..], size - |output| - 1));
      finished := |output'| == size;
      if finished {
        DecodeNone(tree, rest[1..]);
        PrefixedEnd(output', used + 1, tree);
      }
    }
  }

  lemma DecodeEmpty(t: Tree, r: Reader, size: nat)
    requires At(t, r) && ReadOk(t, r) && size > 0
    ensures Decode(t, r, [], size).Fail?
  {
  }

  lemma DecodeNone(t: Tree, bits: seq<bool>)
    requires AtStart(t)
    ensures Decode(t, Start(t), bits, 0) == Ok(Decoded([], t, 0))
  {
  }

  lemma PrefixedEnd(data: seq<byte>, used: nat, t: Tree)
    ensures Prefixed(data, used, Ok(Decoded([], t, 0))) == Ok(Decoded(data, t, used))
  {
    assert data + [] == data;
  }

  lemma PrefixedNone(r: Result<Decoded>)
    ensures Prefixed([], 0, r) == r
  {
    if r.Ok? {
      assert [] + r.value.data == r.value.data;
    }
  }

  // A code that is complete at a zero leaf has bits of an index, or there is no other.
  lemma ReadDone(t: Tree, r: Reader, bit: bool)
    requires ReadOk(t, r) && ReadBit(t, r, bit).1 && At(t, ReadBit(t, r, bit).0)
    ensures var next := ReadBit(t, r, bit).0; Node(next.ptr) && (next.index == [] && t.weight[next.ptr] == 0 ==> t.zeroCount == 1)
  {
  }

  lemma {:induction false} UnpackAt(bytes: seq<byte>, i: nat)
    requires i < |bytes|
    ensures Unpack(bytes)[8 * i..8 * i + 8] == BitsOf(bytes[i] as nat, 8)
    decreases i
  {
    if i > 0 {
      UnpackAt(bytes[1..], i - 1);
      assert Unpack(bytes)[8 * i..8 * i + 8] == Unpack(bytes[1..])[8 * (i - 1)..8 * (i - 1) + 8];
    }
  }

  // ---------- the encoder's loop ----------

  lemma EmitStep(code: seq<bool>, left: nat)
    requires left < |code|
    ensures Reversed(code)[..|code| - left] == Reversed(code)[..|code| - left - 1] + [code[left]]
  {
    hide Reversed;
  }

  // One more symbol.
  lemma {:induction false} EncodesMore(t: Tree, data: seq<byte>, bits: seq<bool>, x: byte, code: seq<bool>)
    requires Proper(t) && Encodes(t, data, bits) && Coded(AfterAll(t, data), x, code)
    ensures Encodes(t, data + [x], bits + code) && AfterAll(t, data + [x]) == After(AfterAll(t, data), x)
    decreases |data|
  {
    hide CountsOne, Unstarted, Updated, Working;
    hide Proper, Coded, After, Encodes, AfterAll;
    EncodesNone(t);
    if data == [] {
      EncodesEmpty(t, bits);
      EncodesNone(After(t, x));
      assert code[..|code|] == code && code[|code|..] == [] && [x][1..] == [];
      EncodesCons(t, [x], code, |code|);
      assert data + [x] == [x] && bits + code == code;
    } else {
      var k := EncodesHead(t, data, bits);
      EncodesMore(After(t, data[0]), data[1..], bits[k..], x, code);
      assert (data + [x])[1..] == data[1..] + [x] && (data + [x])[0] == data[0];
      assert (bits + code)[..k] == bits[..k] && (bits + code)[k..] == bits[k..] + code;
      EncodesCons(t, data + [x], bits + code, k);
    }
  }

  // A node of no weight is the zero leaf.
  lemma AtZero(t: Tree, r: Reader)
    requires At(t, r)
    ensures t.Sized() && Node(r.ptr) && (t.weight[r.ptr] == 0 ==> Node(t.zeros))
  {
    if Unstarted(t) && r.ptr == t.links.root {
      var z :| Fresh(t, z);
    } else {
      var c, z :| Working(t, c, z) && r.ptr in c.order;
      assert WeightOk(t, c, r.ptr);
    }
  }

  lemma IndexRoom(t: Tree, r: Reader)
    requires At(t, r) && ReadOk(t, r)
    ensures t.Sized() && Node(r.ptr) && (t.weight[r.ptr] == 0 ==> |r.index| < N)
  {
    TreeCount(t);
    IndexFits(t.zeroCount);
    hide At;
  }

  lemma TreeCount(t: Tree)
    requires Proper(t)
    ensures 0 < t.zeroCount <= N
  {
    FreshCount(t);
    if Started(t) {
      var c, z :| Working(t, c, z);
      hide Rest;
    }
  }

  lemma ZeroNodes(t: Tree) returns (z: seq<int>)
    requires Proper(t) && Node(t.zeros)
    ensures ZeroList(t.links, t.zeros, z) && t.zeros in z
  {
    if Unstarted(t) {
      z :| Fresh(t, z);
    } else {
      var c, z' :| Working(t, c, z');
      z := z';
    }
    assert z[0] in z;
  }

  lemma ZeroNext(l: Links, zeros: int, z: seq<int>, u: int)
    requires ZeroList(l, zeros, z) && u in z
    ensures Node(u) && (l.rightChild[u] != NULL ==> l.rightChild[u] in z)
  {
    var i :| 0 <= i < |z| && z[i] == u;
    assert ZeroAt(l, z, i);
  }

  // The internal nodes passed are below the node reached.
  ghost predicate SeenOk(t: Tree, c: Climb, seen: set<int>, u: int) {
    && t.Sized() && |c.w0| == NODES && Node(u)
    && forall x :: x in seen ==> N <= x < t.freeNode && x < NODES && Rank(t.links, c.w0, x) <= Rank(t.links, c.w0, u)
  }

  lemma SeeParent(t: Tree, c: Climb, z: seq<int>, seen: set<int>, u: int)
    requires Working(t, c, z) && u in c.order && t.Sized() && u != t.links.root && SeenOk(t, c, seen, u) && t.freeNode >= N
    ensures Node(u)
    ensures var p := t.links.parent[u];
            && p in c.order && N <= p < NODES && (t.links.leftChild[p] == u || t.links.rightChild[p] == u)
            && SeenOk(t, c, seen + {p}, p) && |seen + {p}| == |seen| + 1 <= t.freeNode - N
  {
    UpStep(t, c, z, u);
    hide Working, Rank;
    SeenFew(seen + {t.links.parent[u]}, N, t.freeNode);
  }

  lemma StepUp(l: Links, u: int, bits: seq<bool>, leaf: int, right: bool)
    requires l.Sized() && Node(u) && N <= l.parent[u] < NODES && Descends(l, u, Reversed(bits), leaf)
    requires right == (l.rightChild[l.parent[u]] == u) && (!right ==> l.leftChild[l.parent[u]] == u)
    ensures Descends(l, l.parent[u], Reversed(bits + [right]), leaf)
  {
    ReversedSnoc(bits, right);
    assert Reversed(bits + [right])[1..] == Reversed(bits);
  }

  lemma AtWork(t: Tree, u: int) returns (c: Climb, z: seq<int>)
    requires At(t, Reader(u, [])) && t.Sized() && u != t.links.root
    ensures Working(t, c, z) && u in c.order && t.freeNode + t.zeroCount == 2 * N && t.freeNode >= N
  {
    c, z :| Working(t, c, z) && u in c.order;
  }

  // The leaf whose path is sent is in the tree.
  lemma TargetAt(t: Tree, n: int)
    requires Proper(t) && 0 <= n < N
    ensures t.Sized() && 0 < t.zeroCount <= N && At(t, Reader(Target(t, n), []))
  {
    if Unstarted(t) {
      var z :| Fresh(t, z);
      assert ZeroAt(t.links, z, 0);
      assert FreshAt(t, n);
    } else {
      var c, z :| Working(t, c, z);
      assert CountedAt(t, c.order, z, n);
      if t.weight[n] == 0 {
        assert ZeroAt(t.links, z, 0);
        assert CountedAt(t, c.order, z, z[0]);
      }
      hide Rest;
    }
  }

  lemma TargetIs(t: Tree, n: int)
    requires Proper(t) && 0 <= n < N
    ensures t.Sized() && n < |t.weight| && 0 < t.zeroCount <= N && Reversed([]) == []
    ensures Node(n) && Target(t, n) == (if t.weight[n] == 0 then t.zeros else n) && At(t, Reader(Target(t, n), []))
  {
    TargetAt(t, n);
    hide Proper, At;
  }

  // Path and index make the code.
  lemma CodeMade(t: Tree, n: int, path: seq<bool>, index: seq<bool>, idx: nat)
    requires t.Sized() && 0 <= n < N && t.zeroCount > 0 && Descends(t.links, t.links.root, path, Target(t, n))
    requires if t.weight[n] == 0 then
               idx < t.zeroCount && NthZero(t.links, t.zeros, idx) == n && index == HighFirst(idx, IndexSize(t.zeroCount))
             else index == []
    ensures Coded(t, n, path + index)
  {
    if t.weight[n] == 0 {
      IndexFits(t.zeroCount);
      ValueOfHighFirst(idx, IndexSize(t.zeroCount));
    }
    assert CodeIs(t, n, path, index);
  }

  // The place of a symbol among the zeros.
  lemma ZeroPlace(t: Tree, n: int) returns (z: seq<int>, i: nat)
    requires Proper(t) && 0 <= n < N && t.Sized() && t.weight[n] == 0
    ensures ZeroList(t.links, t.zeros, z) && i < |z| == t.zeroCount && z[i] == n && t.zeros == z[0]
  {
    if Unstarted(t) {
      z :| Fresh(t, z);
      assert n in z;
    } else {
      var c, z' :| Working(t, c, z');
      z := z';
      assert CountedAt(t, c.order, z, n);
    }
    i :| 0 <= i < |z| && z[i] == n;
  }
}
