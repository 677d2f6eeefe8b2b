// The heap of the static Huffman coder (xdelta3-djw.h): an array whose entry zero is a
// sentinel, ordered by frequency and then by depth.
module DjwHeap {

  // struct _djw_heapen.
  datatype Entry = Entry(depth: nat, freq: nat, parent: nat)

  // heap_less.
  predicate Less(a: Entry, b: Entry) {
    a.freq < b.freq || (a.freq == b.freq && a.depth < b.depth)
  }

  predicate InRange(heap: seq<nat>, ents: seq<Entry>) {
    forall i :: 0 <= i < |heap| ==> heap[i] < |ents|
  }

  // The entry at place i of the heap comes no sooner than the one at place j.
  predicate NotBefore(heap: seq<nat>, ents: seq<Entry>, i: nat, j: nat)
    requires InRange(heap, ents) && i < |heap| && j < |heap|
  {
    !Less(ents[heap[i]], ents[heap[j]])
  }

  predicate InPlace(heap: seq<nat>, ents: seq<Entry>, i: nat)
    requires InRange(heap, ents) && i < |heap|
  {
    NotBefore(heap, ents, i, i / 2)
  }

  // A child of place p comes no sooner than the parent of place p.
  predicate Passes(heap: seq<nat>, ents: seq<Entry>, p: nat, i: nat)
    requires InRange(heap, ents) && i < |heap| && p < |heap|
  {
    i / 2 == p && p >= 2 ==> NotBefore(heap, ents, i, p / 2)
  }

  // Every place comes no sooner than its parent.
  ghost predicate Heap(heap: seq<nat>, ents: seq<Entry>, last: nat) {
    && InRange(heap, ents) && last < |heap|
    && forall i {:trigger InPlace(heap, ents, i)} :: 2 <= i <= last ==> InPlace(heap, ents, i)
  }

  function Swapped(heap: seq<nat>, i: nat, j: nat): seq<nat>
    requires i < |heap| && j < |heap|
  {
    heap[i := heap[j]][j := heap[i]]
  }

  // What the heap holds.
  function Contents(heap: seq<nat>, last: nat): multiset<nat>
    requires last < |heap|
  {
    multiset(heap[1..last + 1])
  }

  lemma SwappedContents(heap: seq<nat>, i: nat, j: nat, last: nat)
    requires 1 <= i <= last < |heap| && 1 <= j <= last
    ensures Contents(Swapped(heap, i, j), last) == Contents(heap, last)
  {
    var s := heap[1..last + 1];
    var s' := Swapped(heap, i, j)[1..last + 1];
    assert s' == s[i - 1 := s[j - 1]][j - 1 := s[i - 1]];
  }

  lemma SwappedRange(heap: seq<nat>, ents: seq<Entry>, i: nat, j: nat)
    requires InRange(heap, ents) && i < |heap| && j < |heap|
    ensures InRange(Swapped(heap, i, j), ents)
  {
  }

  // The first is the least.
  lemma {:induction false} FirstLeast(heap: seq<nat>, ents: seq<Entry>, last: nat, i: nat)
    requires Heap(heap, ents, last) && 1 <= i <= last
    ensures NotBefore(heap, ents, i, 1)
  {
    if i > 1 {
      assert InPlace(heap, ents, i);
      FirstLeast(heap, ents, last, i / 2);
    }
  }

  predicate NoSooner(ents: seq<Entry>, e: nat, f: nat) {
    e < |ents| && f < |ents| && !Less(ents[e], ents[f])
  }

  // ---------- heap_insert ----------

  // Moving an entry up until its parent comes no later.
  function SiftUp(heap: seq<nat>, ents: seq<Entry>, p: nat): (r: seq<nat>)
    requires InRange(heap, ents) && 1 <= p < |heap|
    ensures |r| == |heap| && InRange(r, ents)
    decreases p
  {
    if p > 1 && Less(ents[heap[p]], ents[heap[p / 2]]) then
      SwappedRange(heap, ents, p, p / 2);
      SiftUp(Swapped(heap, p, p / 2), ents, p / 2)
    else heap
  }

  // A heap but for place p, which may come before its parent.
  ghost predicate HeapButUp(heap: seq<nat>, ents: seq<Entry>, last: nat, p: nat) {
    && InRange(heap, ents) && 1 <= p <= last < |heap|
    && (forall i {:trigger InPlace(heap, ents, i)} :: 2 <= i <= last && i != p ==> InPlace(heap, ents, i))
    && (forall i {:trigger Passes(heap, ents, p, i)} :: 2 <= i <= last ==> Passes(heap, ents, p, i))
  }

  lemma UpStep(heap: seq<nat>, ents: seq<Entry>, last: nat, p: nat)
    requires HeapButUp(heap, ents, last, p) && p > 1 && Less(ents[heap[p]], ents[heap[p / 2]])
    ensures HeapButUp(Swapped(heap, p, p / 2), ents, last, p / 2)
  {
    SwappedRange(heap, ents, p, p / 2);
    var q := p / 2;
    var h := Swapped(heap, p, q);
    forall i {:trigger InPlace(h, ents, i)} | 2 <= i <= last && i != q
      ensures InPlace(h, ents, i)
    {
      if i != p {
        assert InPlace(heap, ents, i);
        if i / 2 == p {
          assert Passes(heap, ents, p, i);
        }
      }
    }
    forall i {:trigger Passes(h, ents, q, i)} | 2 <= i <= last
      ensures Passes(h, ents, q, i)
    {
      assert q >= 2 ==> InPlace(heap, ents, q);
      if i != p {
        assert InPlace(heap, ents, i);
      }
    }
  }

  lemma {:induction false} SiftUpOk(heap: seq<nat>, ents: seq<Entry>, last: nat, p: nat)
    requires HeapButUp(heap, ents, last, p)
    ensures Heap(SiftUp(heap, ents, p), ents, last)
    ensures Contents(SiftUp(heap, ents, p), last) == Contents(heap, last)
    ensures SiftUp(heap, ents, p)[0] == heap[0] && SiftUp(heap, ents, p)[last + 1..] == heap[last + 1..]
    decreases p
  {
    if p > 1 && Less(ents[heap[p]], ents[heap[p / 2]]) {
      UpStep(heap, ents, last, p);
      SwappedContents(heap, p, p / 2, last);
      SiftUpOk(Swapped(heap, p, p / 2), ents, last, p / 2);
      assert Swapped(heap, p, p / 2)[last + 1..] == heap[last + 1..];
      hide Contents;
    } else {
      forall i {:trigger InPlace(heap, ents, i)} | 2 <= i <= last
        ensures InPlace(heap, ents, i)
      {
      }
    }
  }

  // An entry put at the end of a heap.
  lemma InsertOk(heap: seq<nat>, ents: seq<Entry>, p: nat, e: nat)
    requires 1 <= p < |heap| && Heap(heap, ents, p - 1) && e < |ents|
    ensures InRange(heap[p := e], ents)
    ensures var r := SiftUp(heap[p := e], ents, p);
            Heap(r, ents, p) && Contents(r, p) == Contents(heap, p - 1) + multiset{e} && r[0] == heap[0]
  {
    var h := heap[p := e];
    forall i {:trigger InPlace(h, ents, i)} | 2 <= i <= p && i != p
      ensures InPlace(h, ents, i)
    {
      assert InPlace(heap, ents, i);
    }
    SiftUpOk(h, ents, p, p);
    assert h[1..p + 1] == heap[1..p] + [e];
  }

  // ---------- heap_extract ----------

  // The lesser child.
  function Child(heap: seq<nat>, ents: seq<Entry>, last: nat, p: nat): (c: nat)
    requires InRange(heap, ents) && 1 <= p && 2 * p <= last < |heap|
    ensures p < c <= last && c / 2 == p
  {
    if 2 * p < last && Less(ents[heap[2 * p + 1]], ents[heap[2 * p]]) then 2 * p + 1 else 2 * p
  }

  function SiftDown(heap: seq<nat>, ents: seq<Entry>, last: nat, p: nat): (r: seq<nat>)
    requires InRange(heap, ents) && 1 <= p && last < |heap|
    ensures |r| == |heap| && InRange(r, ents)
    decreases last - p
  {
    if 2 * p > last then heap
    else
      var c := Child(heap, ents, last, p);
      if !Less(ents[heap[c]], ents[heap[p]]) then heap
      else
        SwappedRange(heap, ents, p, c);
        SiftDown(Swapped(heap, p, c), ents, last, c)
  }

  // A heap but for place p, which may come after its children.
  ghost predicate HeapButDown(heap: seq<nat>, ents: seq<Entry>, last: nat, p: nat) {
    && InRange(heap, ents) && 1 <= p && last < |heap|
    && (forall i {:trigger InPlace(heap, ents, i)} :: 2 <= i <= last && i / 2 != p ==> InPlace(heap, ents, i))
    && (p <= last ==> forall i {:trigger Passes(heap, ents, p, i)} :: 2 <= i <= last ==> Passes(heap, ents, p, i))
  }

  lemma DownStep(heap: seq<nat>, ents: seq<Entry>, last: nat, p: nat)
    requires HeapButDown(heap, ents, last, p) && 2 * p <= last
    requires Less(ents[heap[Child(heap, ents, last, p)]], ents[heap[p]])
    ensures HeapButDown(Swapped(heap, p, Child(heap, ents, last, p)), ents, last, Child(heap, ents, last, p))
  {
    var c := Child(heap, ents, last, p);
    SwappedRange(heap, ents, p, c);
    var h := Swapped(heap, p, c);
    forall i {:trigger InPlace(h, ents, i)} | 2 <= i <= last && i / 2 != c
      ensures InPlace(h, ents, i)
    {
      if i / 2 == p {
        assert i == 2 * p || i == 2 * p + 1;
      } else {
        assert InPlace(heap, ents, i);
        if i == p {
          assert Passes(heap, ents, p, c);
        }
      }
    }
    forall i {:trigger Passes(h, ents, c, i)} | 2 <= i <= last
      ensures Passes(h, ents, c, i)
    {
      assert i / 2 == c ==> InPlace(heap, ents, i);
    }
  }

  lemma {:induction false} SiftDownOk(heap: seq<nat>, ents: seq<Entry>, last: nat, p: nat)
    requires HeapButDown(heap, ents, last, p) && p <= Bound(last)
    ensures Heap(SiftDown(heap, ents, last, p), ents, last)
    ensures Contents(SiftDown(heap, ents, last, p), last) == Contents(heap, last)
    ensures SiftDown(heap, ents, last, p)[0] == heap[0]
    decreases last - p
  {
    if 2 * p <= last && Less(ents[heap[Child(heap, ents, last, p)]], ents[heap[p]]) {
      var c := Child(heap, ents, last, p);
      DownStep(heap, ents, last, p);
      SwappedContents(heap, p, c, last);
      SiftDownOk(Swapped(heap, p, c), ents, last, c);
      hide Contents;
    } else {
      forall i {:trigger InPlace(heap, ents, i)} | 2 <= i <= last
        ensures InPlace(heap, ents, i)
      {
        if i / 2 == p {
          assert i == 2 * p || i == 2 * p + 1;
        }
      }
    }
  }

  function Bound(last: nat): nat {
    if last == 0 then 1 else last
  }

  // The heap once its least is taken out.
  function Taken(heap: seq<nat>, ents: seq<Entry>, last: nat): (heap': seq<nat>)
    requires InRange(heap, ents) && last + 1 < |heap|
    ensures |heap'| == |heap| && InRange(heap', ents)
  {
    SiftDown(heap[1 := heap[last + 1]], ents, last, 1)
  }

  // The least taken out and the entry after the last put in its place.
  lemma ExtractOk(heap: seq<nat>, ents: seq<Entry>, last: nat)
    requires Heap(heap, ents, last + 1)
    ensures var r := Taken(heap, ents, last);
            && Heap(r, ents, last) && Contents(r, last) + multiset{heap[1]} == Contents(heap, last + 1) && r[0] == heap[0]
            && forall e {:trigger NoSooner(ents, e, heap[1])} ::
                 e in Contents(heap, last + 1) ==> NoSooner(ents, e, heap[1])
  {
    var h := heap[1 := heap[last + 1]];
    forall i {:trigger InPlace(h, ents, i)} | 2 <= i <= last && i / 2 != 1
      ensures InPlace(h, ents, i)
    {
      assert InPlace(heap, ents, i);
    }
    SiftDownOk(h, ents, last, 1);
    ExtractContents(heap, last);
    hide SiftDown, Contents;
    LeastFirst(heap, ents, last + 1);
  }

  lemma ExtractContents(heap: seq<nat>, last: nat)
    requires last + 1 < |heap|
    ensures Contents(heap[1 := heap[last + 1]], last) + multiset{heap[1]} == Contents(heap, last + 1)
  {
    var h := heap[1 := heap[last + 1]];
    if last > 0 {
      assert h[1..last + 1] == [heap[last + 1]] + heap[2..last + 1];
      assert heap[1..last + 2] == [heap[1]] + heap[2..last + 1] + [heap[last + 1]];
    } else {
      assert h[1..1] == [] && heap[1..2] == [heap[1]];
    }
  }

  lemma LeastFirst(heap: seq<nat>, ents: seq<Entry>, last: nat)
    requires Heap(heap, ents, last) && last >= 1
    ensures forall e {:trigger NoSooner(ents, e, heap[1])} :: e in Contents(heap, last) ==> NoSooner(ents, e, heap[1])
  {
    forall e | e in Contents(heap, last)
      ensures NoSooner(ents, e, heap[1])
    {
      assert e in heap[1..last + 1];
      var i :| 1 <= i < last + 1 && heap[i] == e;
      FirstLeast(heap, ents, last, i);
    }
  }

  lemma DownOne(heap: seq<nat>, ents: seq<Entry>, last: nat, p: nat)
    requires InRange(heap, ents) && 1 <= p && last < |heap|
    ensures 2 * p > last ==> SiftDown(heap, ents, last, p) == heap
    ensures 2 * p <= last ==>
              var c := if 2 * p < last && Less(ents[heap[2 * p + 1]], ents[heap[2 * p]]) then 2 * p + 1 else 2 * p;
              && InRange(Swapped(heap, p, c), ents)
              && SiftDown(heap, ents, last, p)
                 == if Less(ents[heap[c]], ents[heap[p]]) then SiftDown(Swapped(heap, p, c), ents, last, c) else heap
  {
    if 2 * p <= last {
      SwappedRange(heap, ents, p, Child(heap, ents, last, p));
    }
  }

  method HeapInsert(heap: array<nat>, ents: array<Entry>, p0: nat, e: nat)
    requires 1 <= p0 < heap.Length && Heap(heap[..], ents[..], p0 - 1) && e < ents.Length
    requires heap[0] == 0 && ents.Length > 0 && ents[0].freq == 0 == ents[0].depth
    modifies heap
    ensures heap[..] == SiftUp(old(heap[..])[p0 := e], ents[..], p0)
  {
    ghost var h := heap[..][p0 := e];
    var p, pp := p0, p0 / 2;
    while Less(ents[e], ents[heap[pp]])
      invariant 1 <= p < heap.Length && pp == p / 2 && heap[0] == 0
      invariant InRange(heap[..], ents[..]) && InRange(heap[..][p := e], ents[..])
      invariant SiftUp(heap[..][p := e], ents[..], p) == SiftUp(h, ents[..], p0)
      decreases p
    {
      ghost var before := heap[..];
      heap[p] := heap[pp];
      assert heap[..][pp := e] == Swapped(before[p := e], p, pp);
      p := pp;
      pp := p / 2;
    }
    heap[p] := e;
  }

  method HeapExtract(heap: array<nat>, ents: array<Entry>, heapLast: nat) returns (smallest: nat)
    requires heapLast + 1 < heap.Length && InRange(heap[..], ents[..])
    modifies heap
    ensures smallest == old(heap[1])
    ensures heap[..] == Taken(old(heap[..]), ents[..], heapLast)
  {
    hide SiftDown, Child;
    smallest := heap[1];
    heap[1] := heap[heapLast + 1];
    ghost var h := heap[..];
    assert h == old(heap[..])[1 := old(heap[heapLast + 1])];
    var p := 1;
    while true
      invariant 1 <= p <= Bound(heapLast) && InRange(heap[..], ents[..])
      invariant SiftDown(heap[..], ents[..], heapLast, p) == SiftDown(h, ents[..], heapLast, 1)
      decreases heapLast - p
    {
      var pc := p * 2;
      DownOne(heap[..], ents[..], heapLast, p);
      if pc > heapLast {
        break;
      }
      if pc < heapLast && Less(ents[heap[pc + 1]], ents[heap[pc]]) {
        pc := pc + 1;
      }
      if !Less(ents[heap[pc]], ents[heap[p]]) {
        break;
      }
      ghost var before := heap[..];
      heap[pc], heap[p] := heap[p], heap[pc];
      assert heap[..] == Swapped(before, p, pc);
      p := pc;
    }
  }
}
