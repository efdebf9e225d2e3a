/** Heaps of equal memory blocks, and the allocator that keeps a list of them. */
module BlockAllocator {

  const ALIGN := 8
  const GC_MIN_HEAPS := 3
  const FIRST_HEAP_BYTES := 1024 * 32
  const FIRST_HEAP_BLOCKS := 16
  const NULL := 0

  // ---------------------------------------------------------------- one heap

  /** Address of the k-th block of a heap; the word in front of it names the heap. */
  function BlockAt(base: int, sizeblk: nat, k: nat): int {
    base + k * (sizeblk + ALIGN) + ALIGN
  }

  lemma {:induction false} BlocksApart(base: int, sizeblk: nat, k: nat, l: nat)
    requires k < l
    ensures BlockAt(base, sizeblk, k) + sizeblk + ALIGN <= BlockAt(base, sizeblk, l)
  {
    assert (k + 1) * (sizeblk + ALIGN) == k * (sizeblk + ALIGN) + (sizeblk + ALIGN);
    MulLe(k + 1, l, sizeblk + ALIGN);
  }

  lemma {:induction false} MulLe(a: int, b: int, t: int)
    requires a <= b && 0 <= t
    ensures a * t <= b * t
  {
  }

  class MemHeap {
    const pmem: int       // memory obtained from the system
    const numblk: nat
    const sizeblk: nat
    var numfree: int
    var posnext: nat      // the next block never handed out
    var free: seq<int>    // blocks given back, the next one to hand out first
    ghost var live: set<int>

    /** One of the blocks handed out so far. */
    ghost predicate IsBlock(p: int)
      reads this
    {
      exists k: nat :: k < posnext && p == BlockAt(pmem, sizeblk, k)
    }

    /** Every block handed out so far is live or in the free list, and not both; the counter is the
        number of blocks never used plus the length of the free list. */
    ghost predicate Valid()
      reads this
    {
      && 0 < pmem && posnext <= numblk
      && (forall i, j :: 0 <= i < j < |free| ==> free[i] != free[j])
      && (forall p :: p in free ==> p !in live && IsBlock(p))
      && (forall p :: p in live ==> IsBlock(p))
      && |live| + |free| == posnext
      && numfree == numblk - posnext + |free|
    }

    constructor (pmem: int, sizeblk: nat, numblk: nat)
      requires 0 < pmem
      ensures Valid() && live == {} && numfree == numblk && posnext == 0
      ensures this.pmem == pmem && this.sizeblk == sizeblk && this.numblk == numblk
    {
      this.pmem, this.sizeblk, this.numblk := pmem, sizeblk, numblk;
      numfree, posnext, free, live := numblk, 0, [], {};
    }

    predicate CanFree()
      reads this
    {
      numblk == numfree
    }

    /** A heap that can be given back holds no live block. */
    lemma {:induction false} CanFreeMeansIdle()
      requires Valid()
      ensures CanFree() <==> live == {}
    {
    }

    method Malloc() returns (p: int)
      requires Valid()
      modifies this
      ensures Valid()
      ensures p == NULL <==> old(numfree) == 0
      ensures p == NULL ==> unchanged(this)
      ensures p != NULL ==> p !in old(live) && live == old(live) + {p} && numfree == old(numfree) - 1
      ensures forall q :: IsBlock(q) <==> old(IsBlock(q)) || (old(posnext) < posnext && q == p)
      ensures p != NULL ==> pmem + ALIGN <= p && p + sizeblk <= pmem + numblk * (sizeblk + ALIGN)
    {
      if free == [] {
        if posnext < numblk {
          p := BlockAt(pmem, sizeblk, posnext);
          FreshBlock(p);
          posnext := posnext + 1;
          numfree := numfree - 1;
          live := live + {p};
          StillBlocks();
          InRegion(p);
          return;
        }
        return NULL;
      }
      p := free[0];
      InRegion(p);
      free := free[1..];
      numfree := numfree - 1;
      live := live + {p};
    }

    lemma {:induction false} FreshBlock(p: int)
      requires Valid() && p == BlockAt(pmem, sizeblk, posnext)
      ensures p !in live && p !in free
    {
      forall q | IsBlock(q) ensures q != p {
        var k: nat :| k < posnext && q == BlockAt(pmem, sizeblk, k);
        BlocksApart(pmem, sizeblk, k, posnext);
      }
    }

    twostate lemma {:induction false} StillBlocks()
      requires old(posnext) <= posnext
      ensures forall p :: old(IsBlock(p)) ==> IsBlock(p)
    {
    }

    lemma {:induction false} InRegion(p: int)
      requires IsBlock(p) && posnext <= numblk
      ensures pmem + ALIGN <= p && p + sizeblk <= pmem + numblk * (sizeblk + ALIGN)
    {
      var k: nat :| k < posnext && p == BlockAt(pmem, sizeblk, k);
      assert (k + 1) * (sizeblk + ALIGN) == k * (sizeblk + ALIGN) + (sizeblk + ALIGN);
      MulLe(k + 1, numblk, sizeblk + ALIGN);
      MulLe(0, k, sizeblk + ALIGN);
    }

    /** Distinct blocks of one heap, with the word in front of them, do not overlap. */
    lemma {:induction false} BlocksDisjoint(p: int, q: int)
      requires IsBlock(p) && IsBlock(q) && p != q
      ensures p + sizeblk + ALIGN <= q || q + sizeblk + ALIGN <= p
    {
      var k: nat :| k < posnext && p == BlockAt(pmem, sizeblk, k);
      var l: nat :| l < posnext && q == BlockAt(pmem, sizeblk, l);
      if k < l { BlocksApart(pmem, sizeblk, k, l); } else { BlocksApart(pmem, sizeblk, l, k); }
    }

    method Free(p: int)
      requires Valid() && p in live
      modifies this
      ensures Valid() && live == old(live) - {p} && numfree == old(numfree) + 1 && posnext == old(posnext)
    {
      free := [p] + free;
      numfree := numfree + 1;
      live := live - {p};
    }
  }

  // ---------------------------------------------------------------- the list of heaps

  function Sum(ns: seq<int>): int {
    if ns == [] then 0 else ns[0] + Sum(ns[1..])
  }

  lemma {:induction false} SumConcat(a: seq<int>, b: seq<int>)
    ensures Sum(a + b) == Sum(a) + Sum(b)
  {
    if a == [] {
      assert a + b == b;
    } else {
      assert (a + b)[1..] == a[1..] + b;
      SumConcat(a[1..], b);
    }
  }

  lemma {:induction false} SumAround(ns: seq<int>, i: nat)
    requires i < |ns|
    ensures Sum(ns) == Sum(ns[..i]) + ns[i] + Sum(ns[i + 1..])
  {
    assert ns == ns[..i] + [ns[i]] + ns[i + 1..];
    SumConcat(ns[..i] + [ns[i]], ns[i + 1..]);
    SumConcat(ns[..i], [ns[i]]);
    assert [ns[i]][1..] == [];
  }

  lemma {:induction false} SumUpdate(ns: seq<int>, i: nat, x: int)
    requires i < |ns|
    ensures Sum(ns[i := x]) == Sum(ns) - ns[i] + x
  {
    SumAround(ns, i);
    SumAround(ns[i := x], i);
    assert ns[i := x][..i] == ns[..i] && ns[i := x][i + 1..] == ns[i + 1..];
  }

  lemma {:induction false} SumPositive(ns: seq<int>)
    requires forall i :: 0 <= i < |ns| ==> 0 <= ns[i]
    ensures 0 <= Sum(ns) && (Sum(ns) == 0 <==> forall i :: 0 <= i < |ns| ==> ns[i] == 0)
  {
    if ns != [] {
      assert forall i :: 0 <= i < |ns| - 1 ==> ns[1..][i] == ns[i + 1];
      SumPositive(ns[1..]);
    }
  }

  function Frees(hs: seq<MemHeap>): seq<int>
    reads hs
  {
    seq(|hs|, i requires 0 <= i < |hs| reads hs => hs[i].numfree)
  }

  ghost function Lives(hs: seq<MemHeap>): seq<set<int>>
    reads hs
  {
    seq(|hs|, i requires 0 <= i < |hs| reads hs => hs[i].live)
  }

  ghost function Union(ls: seq<set<int>>): set<int> {
    set l, p | l in ls && p in l :: p
  }

  lemma {:induction false} InUnion(ls: seq<set<int>>, i: nat, p: int)
    requires i < |ls| && p in ls[i]
    ensures p in Union(ls)
  {
    assert ls[i] in ls;
  }

  lemma {:induction false} UnionAdd(ls: seq<set<int>>, i: nat, p: int)
    requires i < |ls|
    ensures Union(ls[i := ls[i] + {p}]) == Union(ls) + {p}
  {
    var ms := ls[i := ls[i] + {p}];
    forall q | q in Union(ls) ensures q in Union(ms) {
      var k :| 0 <= k < |ls| && q in ls[k];
      InUnion(ms, k, q);
    }
    InUnion(ms, i, p);
    forall q | q in Union(ms) ensures q in Union(ls) + {p} {
      var k :| 0 <= k < |ms| && q in ms[k];
      if q in ls[k] { InUnion(ls, k, q); }
    }
  }

  lemma {:induction false} UnionRemove(ls: seq<set<int>>, i: nat, p: int)
    requires i < |ls| && forall k :: 0 <= k < |ls| && k != i ==> p !in ls[k]
    ensures Union(ls[i := ls[i] - {p}]) == Union(ls) - {p}
  {
    var ms := ls[i := ls[i] - {p}];
    forall q | q in Union(ls) && q != p ensures q in Union(ms) {
      var k :| 0 <= k < |ls| && q in ls[k];
      InUnion(ms, k, q);
    }
    forall q | q in Union(ms) ensures q in Union(ls) - {p} {
      var k :| 0 <= k < |ms| && q in ms[k];
      InUnion(ls, k, q);
    }
  }

  /** Empty sets make no difference. */
  lemma {:induction false} UnionSame(ls: seq<set<int>>, ms: seq<set<int>>)
    requires forall l :: l in ls && l != {} ==> l in ms
    requires forall l :: l in ms && l != {} ==> l in ls
    ensures Union(ls) == Union(ms)
  {
  }

  /** The element at i, which is not the first, moves behind the first. */
  function MoveUp<T>(s: seq<T>, i: nat): seq<T>
    requires 0 < i < |s|
  {
    [s[0], s[i]] + s[1..i] + s[i + 1..]
  }

  lemma {:induction false} SumMoveUp(ns: seq<int>, i: nat)
    requires 0 < i < |ns|
    ensures Sum(MoveUp(ns, i)) == Sum(ns)
  {
    SumAround(ns, i);
    assert ns[..i] == [ns[0]] + ns[1..i];
    SumConcat([ns[0]], ns[1..i]);
    SumConcat([ns[0], ns[i]] + ns[1..i], ns[i + 1..]);
    SumConcat([ns[0], ns[i]], ns[1..i]);
    assert [ns[0], ns[i]][1..] == [ns[i]] && [ns[i]][1..] == [] && [ns[0]][1..] == [];
  }

  ghost predicate Distinct<T>(s: seq<T>) {
    forall i, j :: 0 <= i < j < |s| ==> s[i] != s[j]
  }

  lemma {:induction false} MoveUpSame<T>(s: seq<T>, i: nat)
    requires 0 < i < |s|
    ensures var m := MoveUp(s, i); |m| == |s| && m[0] == s[0] && (forall x :: x in m <==> x in s)
  {
    var m := MoveUp(s, i);
    forall x | x in s ensures x in m {
      var k :| 0 <= k < |s| && s[k] == x;
      assert m[if k == 0 then 0 else if k < i then k + 1 else if k == i then 1 else k] == x;
    }
  }

  function MovedFrom(k: nat, i: nat): nat {
    if k == 0 then 0 else if k == 1 then i else if k <= i then k - 1 else k
  }

  function AddedFrom(k: nat): nat {
    if k == 0 then 0 else k - 1
  }

  lemma {:induction false} MoveUpDistinct<T>(s: seq<T>, i: nat)
    requires 0 < i < |s| && Distinct(s)
    ensures Distinct(MoveUp(s, i))
    ensures forall k :: 0 <= k < |s| ==> MoveUp(s, i)[k] == s[MovedFrom(k, i)]
  {
  }

  /** The memory of two heaps does not overlap. */
  ghost predicate Apart(a: MemHeap, b: MemHeap) {
    a.pmem + a.numblk * (a.sizeblk + ALIGN) <= b.pmem || b.pmem + b.numblk * (b.sizeblk + ALIGN) <= a.pmem
  }

  /** A heap of the list: its blocks have the allocator's size and name it in their headers. */
  ghost predicate HeapOk(h: MemHeap, sizeblk: nat, header: map<int, MemHeap>)
    reads h
  {
    h.Valid() && h.sizeblk == sizeblk && forall p :: h.IsBlock(p) ==> p in header && header[p] == h
  }

  ghost predicate AllOk(hs: seq<MemHeap>, sizeblk: nat, header: map<int, MemHeap>)
    reads hs
  {
    forall i {:trigger HeapOk(hs[i], sizeblk, header)} :: 0 <= i < |hs| ==> HeapOk(hs[i], sizeblk, header)
  }

  lemma {:induction false} MovedOk(hs: seq<MemHeap>, i: nat, sizeblk: nat, header: map<int, MemHeap>, numblk: nat)
    requires 0 < i < |hs| && Distinct(hs) && AllOk(hs, sizeblk, header) && AllApart(hs) && FullHeaps(hs, numblk)
    ensures var ms := MoveUp(hs, i); Distinct(ms) && AllOk(ms, sizeblk, header) && AllApart(ms) && FullHeaps(ms, numblk)
  {
    var ms := MoveUp(hs, i);
    MoveUpDistinct(hs, i);
    forall k | 0 <= k < |ms| ensures HeapOk(ms[k], sizeblk, header) {
      assert HeapOk(hs[MovedFrom(k, i)], sizeblk, header);
    }
    forall k, l | 0 <= k < |ms| && 0 <= l < |ms| && k != l ensures Apart(ms[k], ms[l]) {
      assert Apart(hs[MovedFrom(k, i)], hs[MovedFrom(l, i)]);
    }
  }

  /** The list with a heap added. */
  function Added(hs: seq<MemHeap>, h: MemHeap): seq<MemHeap> {
    if hs == [] then [h] else [hs[0], h] + hs[1..]
  }

  lemma {:induction false} AddedOk(hs: seq<MemHeap>, h: MemHeap, sizeblk: nat, header: map<int, MemHeap>, numblk: nat)
    requires Distinct(hs) && AllOk(hs, sizeblk, header) && AllApart(hs) && FullHeaps(hs, numblk)
    requires HeapOk(h, sizeblk, header) && h !in hs && (hs != [] ==> h.numblk == numblk)
    requires forall g :: g in hs ==> Apart(g, h) && Apart(h, g)
    ensures var ms := Added(hs, h); Distinct(ms) && AllOk(ms, sizeblk, header) && AllApart(ms) && FullHeaps(ms, numblk)
  {
    var ms := Added(hs, h);
    forall k | 0 <= k < |ms| ensures HeapOk(ms[k], sizeblk, header) {
      assert ms[k] != h ==> HeapOk(hs[AddedFrom(k)], sizeblk, header);
    }
    forall k, l | 0 <= k < |ms| && 0 <= l < |ms| && k != l ensures Apart(ms[k], ms[l]) {
      if ms[k] != h && ms[l] != h {
        assert Apart(hs[AddedFrom(k)], hs[AddedFrom(l)]);
      }
    }
  }

  ghost predicate AllApart(hs: seq<MemHeap>) {
    forall i, j {:trigger Apart(hs[i], hs[j])} :: 0 <= i < |hs| && 0 <= j < |hs| && i != j ==> Apart(hs[i], hs[j])
  }

  /** Every heap but the head has the full number of blocks. */
  ghost predicate FullHeaps(hs: seq<MemHeap>, numblk: nat) {
    forall i :: 1 <= i < |hs| ==> hs[i].numblk == numblk
  }

  /** What the system promises of new memory: it overlaps no heap. */
  ghost predicate NewMemory(mem: int, size: int, heaps: seq<MemHeap>) {
    forall h :: h in heaps ==> h.pmem + h.numblk * (h.sizeblk + ALIGN) <= mem || mem + size <= h.pmem
  }

  /** Block sizes are rounded up to the alignment. */
  function Aligned(size: nat): (r: nat)
    ensures size <= r < size + ALIGN && r % ALIGN == 0
  {
    if size % ALIGN != 0 then size + (ALIGN - size % ALIGN) else size
  }

  /** A first heap is kept small: at most 16 blocks or 32 kilobytes, unless there are no more. */
  function InitBlocks(sizeblk: nat, numblk: nat): (n: nat)
    ensures n <= numblk && (0 < numblk ==> 0 < n)
  {
    if numblk <= FIRST_HEAP_BLOCKS || sizeblk * numblk <= FIRST_HEAP_BYTES then numblk
    else
      InitBelow(sizeblk, numblk);
      if FIRST_HEAP_BYTES / sizeblk < FIRST_HEAP_BLOCKS then FIRST_HEAP_BLOCKS else FIRST_HEAP_BYTES / sizeblk
  }

  lemma {:induction false} InitBelow(sizeblk: nat, numblk: nat)
    requires FIRST_HEAP_BYTES < sizeblk * numblk
    ensures 0 < sizeblk && FIRST_HEAP_BYTES / sizeblk <= numblk
  {
    if numblk < FIRST_HEAP_BYTES / sizeblk {
      MulLe(numblk, FIRST_HEAP_BYTES / sizeblk, sizeblk);
      assert false;
    }
  }

  class BlockAllocator {
    var heaps: seq<MemHeap>          // the linked list, head first
    var numheaps: int
    var numfreeblks: int
    const sizeblk: nat
    const numblksperheap: nat
    var header: map<int, MemHeap>    // the word in front of each block

    /** The counters are the sums over the list; heaps overlap nowhere; every heap but the head has
        the full number of blocks. */
    ghost predicate Valid()
      reads this, heaps
    {
      && Distinct(heaps)
      && AllOk(heaps, sizeblk, header) && AllApart(heaps)
      && numheaps == |heaps| && numfreeblks == Sum(Frees(heaps))
      && 0 < numblksperheap && FullHeaps(heaps, numblksperheap)
    }

    /** The blocks in use. */
    ghost function Live(): set<int>
      reads this, heaps
    {
      Union(Lives(heaps))
    }

    constructor (size: nat, numblk: nat)
      requires 0 < numblk
      ensures Valid() && Live() == {} && heaps == [] && sizeblk == Aligned(size) && numblksperheap == numblk
    {
      heaps, numheaps, numfreeblks, header := [], 0, 0, map[];
      sizeblk, numblksperheap := Aligned(size), numblk;
    }

    /** Blocks in use never overlap, nor do the words in front of them. */
    lemma {:induction false} LiveBlocksDisjoint(p: int, q: int)
      requires Valid() && p in Live() && q in Live() && p != q
      ensures p + sizeblk + ALIGN <= q || q + sizeblk + ALIGN <= p
    {
      var i :| 0 <= i < |heaps| && p in Lives(heaps)[i];
      var j :| 0 <= j < |heaps| && q in Lives(heaps)[j];
      var h, g := heaps[i], heaps[j];
      assert HeapOk(h, sizeblk, header) && HeapOk(g, sizeblk, header);
      assert p in h.live && q in g.live;
      h.InRegion(p);
      g.InRegion(q);
      if i == j {
        h.BlocksDisjoint(p, q);
      } else {
        assert Apart(h, g);
      }
    }

    lemma {:induction false} NotElsewhere(g: MemHeap, h: MemHeap, p: int)
      requires Apart(g, h) && g.posnext <= g.numblk
      requires h.pmem + ALIGN <= p && p + h.sizeblk <= h.pmem + h.numblk * (h.sizeblk + ALIGN)
      ensures !g.IsBlock(p)
    {
      if g.IsBlock(p) {
        g.InRegion(p);
        assert false;
      }
    }

    /** Take a block of heap i and see that its header names the heap. */
    method TakeHeaded(i: nat) returns (p: int)
      requires i < |heaps| && Distinct(heaps) && AllOk(heaps, sizeblk, header) && AllApart(heaps)
      modifies this`header, heaps[i]
      ensures AllOk(heaps, sizeblk, header)
      ensures p == NULL <==> old(heaps[i].numfree) == 0
      ensures p == NULL ==> unchanged(this) && unchanged(heaps[i])
      ensures p != NULL ==> heaps[i].live == old(heaps[i].live) + {p} && p !in old(heaps[i].live)
      ensures p != NULL ==> heaps[i].numfree == old(heaps[i].numfree) - 1
      ensures p != NULL ==> p in header && header[p] == heaps[i]
    {
      var h := heaps[i];
      assert HeapOk(h, sizeblk, header);
      var before := h.posnext;
      p := h.Malloc();
      if p == NULL { return; }
      forall k | 0 <= k < |heaps| && k != i ensures HeapOk(heaps[k], sizeblk, header) {
        assert old(HeapOk(heaps[k], sizeblk, header));
      }
      HeaderWritten(heaps, i, sizeblk, header, p);
      if before < h.posnext {
        header := header[p := h];
      }
    }

    method TakeBlock(i: nat) returns (p: int)
      requires Valid() && i < |heaps|
      modifies this, heaps[i]
      ensures Valid() && heaps == old(heaps)
      ensures p == NULL <==> old(heaps[i].numfree) == 0
      ensures p == NULL ==> unchanged(this) && unchanged(heaps[i])
      ensures p != NULL ==> Lives(heaps) == old(Lives(heaps))[i := old(Lives(heaps))[i] + {p}] && p !in old(Lives(heaps))[i]
      ensures p != NULL ==> numfreeblks == old(numfreeblks) - 1 && p in header && header[p] == heaps[i]
    {
      ghost var ns, ls := Frees(heaps), Lives(heaps);
      SumUpdate(ns, i, heaps[i].numfree - 1);
      p := TakeHeaded(i);
      if p != NULL {
        numfreeblks := numfreeblks - 1;
        assert Frees(heaps) == ns[i := heaps[i].numfree];
        assert Lives(heaps) == ls[i := ls[i] + {p}];
      }
    }

    /** The header of a new block is no other heap's. */
    lemma {:induction false} HeaderWritten(hs: seq<MemHeap>, i: nat, sizeblk: nat, header: map<int, MemHeap>, p: int)
      requires i < |hs| && AllApart(hs)
      requires forall k :: 0 <= k < |hs| && k != i ==> HeapOk(hs[k], sizeblk, header)
      requires var h := hs[i]; h.pmem + ALIGN <= p && p + h.sizeblk <= h.pmem + h.numblk * (h.sizeblk + ALIGN)
      ensures forall k :: 0 <= k < |hs| && k != i ==> HeapOk(hs[k], sizeblk, header[p := hs[i]])
    {
      forall k | 0 <= k < |hs| && k != i ensures HeapOk(hs[k], sizeblk, header[p := hs[i]]) {
        assert Apart(hs[k], hs[i]);
        NotElsewhere(hs[k], hs[i], p);
      }
    }

    /** A block belongs to one heap only. */
    lemma {:induction false} OneOwner(p: int, i: nat, k: nat)
      requires Valid() && i < |heaps| && k < |heaps| && p in heaps[i].live && p in heaps[k].live
      ensures i == k
    {
      assert HeapOk(heaps[i], sizeblk, header) && HeapOk(heaps[k], sizeblk, header);
      assert heaps[i].IsBlock(p) && heaps[k].IsBlock(p);
    }

    /** Take a block from the i-th heap of the list, if it has one. */
    method TakeFrom(i: nat) returns (p: int)
      requires Valid() && i < |heaps|
      modifies this, heaps[i]
      ensures Valid() && heaps == old(heaps)
      ensures p == NULL <==> old(heaps[i].numfree) == 0
      ensures p == NULL ==> unchanged(this) && unchanged(heaps[i])
      ensures p != NULL ==> p !in old(Live()) && Live() == old(Live()) + {p} && numfreeblks == old(numfreeblks) - 1
      ensures p != NULL ==> p in header && header[p] == heaps[i] && p in heaps[i].live
    {
      ghost var ls := Lives(heaps);
      p := TakeBlock(i);
      if p == NULL { return; }
      UnionAdd(ls, i, p);
      assert p in Lives(heaps)[i];
      forall k | 0 <= k < |ls| ensures p !in ls[k] {
        if k != i && p in ls[k] {
          assert Lives(heaps)[k] == ls[k];
          OneOwner(p, i, k);
          assert false;
        }
      }
    }

    /** Put the i-th heap right behind the head, where it is tried next. */
    method MoveBehindHead(i: nat)
      requires Valid() && 0 < i < |heaps|
      modifies this`heaps
      ensures Valid() && Live() == old(Live()) && heaps == MoveUp(old(heaps), i)
    {
      ghost var ns, ls := Frees(heaps), Lives(heaps);
      MovedOk(heaps, i, sizeblk, header, numblksperheap);
      SumMoveUp(ns, i);
      MoveUpSame(ls, i);
      MovedValues(heaps, i);
      UnionSame(ls, MoveUp(ls, i));
      heaps := MoveUp(heaps, i);
    }

    lemma {:induction false} MovedValues(hs: seq<MemHeap>, i: nat)
      requires 0 < i < |hs|
      ensures Frees(MoveUp(hs, i)) == MoveUp(Frees(hs), i) && Lives(MoveUp(hs, i)) == MoveUp(Lives(hs), i)
    {
      var ms := MoveUp(hs, i);
      assert |Frees(ms)| == |MoveUp(Frees(hs), i)| && |Lives(ms)| == |MoveUp(Lives(hs), i)|;
      forall k | 0 <= k < |hs|
        ensures Frees(ms)[k] == MoveUp(Frees(hs), i)[k] && Lives(ms)[k] == MoveUp(Lives(hs), i)[k]
      {
        assert ms[k] == hs[MovedFrom(k, i)];
      }
    }

    /** Add a heap: the head if there is none, otherwise behind the head. */
    method AddHeap(mem: int)
      requires Valid() && numfreeblks == 0 && 0 < mem && NewMemory(mem, numblksperheap * (sizeblk + ALIGN), heaps)
      modifies this
      ensures Valid() && Live() == old(Live())
      ensures numheaps == old(numheaps) + 1 && fresh(heaps[if |heaps| == 1 then 0 else 1])
      ensures heaps[if |heaps| == 1 then 0 else 1].numfree != 0
      ensures old(heaps) != [] ==> heaps[0] == old(heaps[0])
    {
      var n := if heaps == [] then InitBlocks(sizeblk, numblksperheap) else numblksperheap;
      MulLe(n, numblksperheap, sizeblk + ALIGN);
      var h := new MemHeap(mem, sizeblk, n);
      NoBlocks(h);
      AddedOk(heaps, h, sizeblk, header, numblksperheap);
      AddedSums(heaps, h);
      ghost var more := Added(heaps, h);
      if heaps == [] {
        heaps := [h];
      } else {
        heaps := [heaps[0], h] + heaps[1..];
      }
      assert heaps == more;
      numheaps := numheaps + 1;
      numfreeblks := numfreeblks + n;
    }

    lemma {:induction false} AddedSums(hs: seq<MemHeap>, h: MemHeap)
      requires h.live == {}
      ensures Union(Lives(Added(hs, h))) == Union(Lives(hs))
      ensures Sum(Frees(Added(hs, h))) == Sum(Frees(hs)) + h.numfree
    {
      var ms := Added(hs, h);
      forall l | l in Lives(ms) && l != {} ensures l in Lives(hs) {
        var k :| 0 <= k < |ms| && ms[k].live == l;
        assert Lives(hs)[if k == 0 then 0 else k - 1] == l;
      }
      forall l | l in Lives(hs) && l != {} ensures l in Lives(ms) {
        var k :| 0 <= k < |hs| && hs[k].live == l;
        assert Lives(ms)[if k == 0 then 0 else k + 1] == l;
      }
      UnionSame(Lives(ms), Lives(hs));
      if hs == [] {
        assert Frees(ms)[1..] == [];
      } else {
        SumAround(Frees(ms), 1);
        assert Frees(ms)[..1] == [hs[0].numfree] && Frees(ms)[2..] == Frees(hs)[1..];
        assert [hs[0].numfree][1..] == [];
      }
    }

    lemma {:induction false} NoBlocks(h: MemHeap)
      requires h.posnext == 0
      ensures forall p :: !h.IsBlock(p)
    {
    }

    /** Hand out a block: from a new heap when no block is free, otherwise from the first heap that
        has one. `mem` is the memory the system gives for a new heap, 0 if it gives none. */
    method Malloc(mem: int) returns (p: int)
      requires Valid() && 0 <= mem && (0 < mem ==> NewMemory(mem, numblksperheap * (sizeblk + ALIGN), heaps))
      modifies this, heaps
      ensures Valid()
      ensures p == NULL <==> old(numfreeblks) == 0 && mem == 0
      ensures p == NULL ==> Live() == old(Live())
      ensures p != NULL ==> p !in old(Live()) && Live() == old(Live()) + {p}
      ensures p != NULL ==> p in header && header[p] in heaps && p in header[p].live
      ensures old(heaps) != [] ==> heaps != [] && heaps[0] == old(heaps[0])
      ensures numheaps == old(numheaps) + if old(numfreeblks) == 0 && mem != 0 then 1 else 0
      ensures old(numfreeblks) != 0 ==>
        exists i :: 0 <= i < |old(heaps)| && old(heaps)[i] == header[p] && old(heaps[i].numfree) != 0
                 && (forall k :: 0 <= k < i ==> old(heaps[k].numfree) == 0)
                 && heaps == if 1 < i && header[p].numfree > 0 then MoveUp(old(heaps), i) else old(heaps)
    {
      if numfreeblks == 0 {
        if mem == 0 { return NULL; }
        AddHeap(mem);
        p := TakeFrom(if |heaps| == 1 then 0 else 1);
        return;
      }
      var i := 0;
      while i < |heaps|
        invariant unchanged(this) && unchanged(heaps) && Valid()
        invariant 0 <= i <= |heaps| && forall k :: 0 <= k < i ==> heaps[k].numfree == 0
        decreases |heaps| - i
      {
        p := TakeFrom(i);
        if p != NULL {
          assert old(heaps)[i] == header[p];
          if 1 < i && heaps[i].numfree > 0 {
            MoveBehindHead(i);
          }
          return;
        }
        i := i + 1;
      }
      SumPositive(Frees(heaps));
      assert false;
    }
  
    /** Give a block back to the heap its header names. A heap that becomes idle may start the
        collector. */
    method Free(p: int)
      requires Valid() && p in Live()
      modifies this, heaps
      ensures Valid() && Live() == old(Live()) - {p}
      ensures heaps != [] && heaps[0] == old(heaps[0])
      ensures forall h :: h in heaps ==> h in old(heaps)
      ensures header == old(header) && p in header && header[p] in old(heaps)
      ensures old(numheaps) > GC_MIN_HEAPS && header[p].live == {} && header[p] != old(heaps[0])
              && old(numfreeblks) + 1 != numblksperheap
              ==> forall h :: h in old(heaps) ==> (h in heaps <==> h == old(heaps[0]) || h.live != {})
      ensures old(numheaps) <= GC_MIN_HEAPS || header[p].live != {} || header[p] == old(heaps[0])
              || old(numfreeblks) + 1 == numblksperheap
              ==> heaps == old(heaps) && numfreeblks == old(numfreeblks) + 1
    {
      ghost var i := Owner(p);
      var h := header[p];
      GiveBack(h, p, i);
      assert HeapOk(heaps[i], sizeblk, header);
      h.CanFreeMeansIdle();
      if numheaps > GC_MIN_HEAPS && h.CanFree() && h != heaps[0] && numfreeblks != numblksperheap {
        Gc();
      }
    }

    /** The header of a block in use names the heap it came from. */
    lemma {:induction false} Owner(p: int) returns (i: nat)
      requires Valid() && p in Live()
      ensures i < |heaps| && p in heaps[i].live && p in header && header[p] == heaps[i]
    {
      i :| 0 <= i < |heaps| && p in Lives(heaps)[i];
      assert HeapOk(heaps[i], sizeblk, header) && p in heaps[i].live;
      assert heaps[i].IsBlock(p);
    }

    lemma {:induction false} OnlyIn(p: int, i: nat)
      requires Valid() && i < |heaps| && p in heaps[i].live
      ensures forall k :: 0 <= k < |heaps| && k != i ==> p !in Lives(heaps)[k]
    {
      forall k | 0 <= k < |heaps| && k != i ensures p !in Lives(heaps)[k] {
        if p in heaps[k].live {
          OneOwner(p, i, k);
          assert false;
        }
      }
    }

    method GiveBack(h: MemHeap, p: int, ghost i: nat)
      requires Valid() && i < |heaps| && heaps[i] == h && p in h.live
      modifies this`numfreeblks, h
      ensures Valid() && Live() == old(Live()) - {p} && numfreeblks == old(numfreeblks) + 1
    {
      ghost var ns, ls := Frees(heaps), Lives(heaps);
      assert HeapOk(h, sizeblk, header);
      OnlyIn(p, i);
      h.Free(p);
      numfreeblks := numfreeblks + 1;
      SumUpdate(ns, i, h.numfree);
      UnionRemove(ls, i, p);
      assert Frees(heaps) == ns[i := h.numfree];
      assert Lives(heaps) == ls[i := ls[i] - {p}];
      forall k | 0 <= k < |heaps| && k != i ensures HeapOk(heaps[k], sizeblk, header) {
        assert old(HeapOk(heaps[k], sizeblk, header));
      }
    }

    method Drop(i: nat)
      requires Valid() && 1 <= i < |heaps| && heaps[i].CanFree()
      modifies this`heaps, this`numheaps, this`numfreeblks
      ensures Valid() && Live() == old(Live())
      ensures heaps == old(heaps)[..i] + old(heaps)[i + 1..]
      ensures forall h :: h in heaps <==> h in old(heaps) && h != old(heaps)[i]
    {
      assert HeapOk(heaps[i], sizeblk, header);
      heaps[i].CanFreeMeansIdle();
      DropIdle(heaps, i, sizeblk, header, numblksperheap);
      heaps := heaps[..i] + heaps[i + 1..];
      numheaps := numheaps - 1;
      numfreeblks := numfreeblks - numblksperheap;
    }

    /** The collector: every heap behind the head that holds no live block is given back to the
        system; the head stays. */
    method Gc()
      requires Valid() && heaps != []
      modifies this`heaps, this`numheaps, this`numfreeblks
      ensures Valid() && Live() == old(Live())
      ensures heaps != [] && heaps[0] == old(heaps[0])
      ensures forall h :: h in heaps <==> h in old(heaps) && (h == old(heaps[0]) || h.live != {})
    {
      ghost var all := heaps;
      var i := 1;
      while i < |heaps|
        invariant Valid() && Live() == old(Live())
        invariant 1 <= i <= |heaps| && heaps[0] == all[0]
        invariant forall h :: h in heaps ==> h in all
        invariant forall h :: h in all && h !in heaps ==> h.live == {} && h != all[0]
        invariant forall k :: 1 <= k < i ==> heaps[k].live != {}
        decreases |heaps| - i
      {
        assert HeapOk(heaps[i], sizeblk, header);
        heaps[i].CanFreeMeansIdle();
        if heaps[i].CanFree() {
          Drop(i);
        } else {
          i := i + 1;
        }
      }
    }
  }

  /** Dropping an idle heap of the full size. */
  lemma {:induction false} DropIdle(hs: seq<MemHeap>, i: nat, sizeblk: nat, header: map<int, MemHeap>, numblk: nat)
    requires 1 <= i < |hs| && Distinct(hs) && AllOk(hs, sizeblk, header) && AllApart(hs) && FullHeaps(hs, numblk)
    requires hs[i].live == {} && hs[i].CanFree()
    ensures var ms := hs[..i] + hs[i + 1..];
            && Distinct(ms) && AllOk(ms, sizeblk, header) && AllApart(ms) && FullHeaps(ms, numblk)
            && Sum(Frees(ms)) == Sum(Frees(hs)) - numblk && Union(Lives(ms)) == Union(Lives(hs))
            && ms[0] == hs[0] && (forall h :: h in ms <==> h in hs && h != hs[i])
  {
    var ms := hs[..i] + hs[i + 1..];
    DropSum(hs, i);
    DropLives(hs, i);
    DropOk(hs, i, sizeblk, header);
    DropApart(hs, i);
    forall h | h in hs && h != hs[i] ensures h in ms {
      var k :| 0 <= k < |hs| && hs[k] == h;
      assert ms[if k < i then k else k - 1] == h;
    }
  }

  lemma {:induction false} DropSum(hs: seq<MemHeap>, i: nat)
    requires i < |hs|
    ensures Sum(Frees(hs[..i] + hs[i + 1..])) == Sum(Frees(hs)) - hs[i].numfree
  {
    var a, b := Frees(hs)[..i], Frees(hs)[i + 1..];
    SumAround(Frees(hs), i);
    assert Frees(hs[..i] + hs[i + 1..]) == a + b;
    SumConcat(a, b);
  }

  lemma {:induction false} DropOk(hs: seq<MemHeap>, i: nat, sizeblk: nat, header: map<int, MemHeap>)
    requires i < |hs| && AllOk(hs, sizeblk, header)
    ensures AllOk(hs[..i] + hs[i + 1..], sizeblk, header)
  {
    var ms := hs[..i] + hs[i + 1..];
    forall k | 0 <= k < |ms| ensures HeapOk(ms[k], sizeblk, header) {
      assert HeapOk(hs[DroppedFrom(k, i)], sizeblk, header);
    }
  }

  lemma {:induction false} DropApart(hs: seq<MemHeap>, i: nat)
    requires i < |hs| && AllApart(hs) && Distinct(hs)
    ensures AllApart(hs[..i] + hs[i + 1..]) && Distinct(hs[..i] + hs[i + 1..])
  {
    var ms := hs[..i] + hs[i + 1..];
    forall k, l | 0 <= k < |ms| && 0 <= l < |ms| && k != l ensures Apart(ms[k], ms[l]) {
      assert Apart(hs[DroppedFrom(k, i)], hs[DroppedFrom(l, i)]);
    }
  }

  function DroppedFrom(k: nat, i: nat): nat {
    if k < i then k else k + 1
  }

  lemma {:induction false} DropLives(hs: seq<MemHeap>, i: nat)
    requires i < |hs| && hs[i].live == {}
    ensures Union(Lives(hs[..i] + hs[i + 1..])) == Union(Lives(hs))
  {
    var ms := hs[..i] + hs[i + 1..];
    forall l | l in Lives(ms) && l != {} ensures l in Lives(hs) {
      var k :| 0 <= k < |ms| && ms[k].live == l;
      assert Lives(hs)[DroppedFrom(k, i)] == l;
    }
    forall l | l in Lives(hs) && l != {} ensures l in Lives(ms) {
      var k :| 0 <= k < |hs| && hs[k].live == l;
      assert Lives(ms)[if k < i then k else k - 1] == l;
    }
    UnionSame(Lives(ms), Lives(hs));
  }

  /** The size class for a request: the smallest that is large enough, or none, in which case the
      memory comes from the system. */
  method ChooseClass(sizes: seq<nat>, size: nat) returns (nl: nat)
    requires forall i, j :: 0 <= i < j < |sizes| ==> sizes[i] < sizes[j]
    ensures nl <= |sizes| && (forall i :: 0 <= i < nl ==> sizes[i] < size) && (nl < |sizes| ==> size <= sizes[nl])
  {
    nl := 0;
    var nh := |sizes|;
    while nl < nh
      invariant nl <= nh <= |sizes|
      invariant (forall i :: 0 <= i < nl ==> sizes[i] < size) && (nh < |sizes| ==> size <= sizes[nh])
    {
      var nm := nl + (nh - nl) / 2;
      if sizes[nm] < size {
        nl := nm + 1;
      } else {
        nh := nm;
      }
    }
  }
}
