/** The write-back cache of data pages. It remembers how far from its beginning a page has been
    written, and brings only that much to disk. */
module PageCache {

  const LIMIT := 32

  type Bytes = seq<int>

  /** A cached page. `linked` says that the node knows the one before it (that its pprev is not null);
      the head does not, and an old head that a hit has pushed back does not either. */
  datatype Node = Node(pgno: int, page: Bytes, updatesize: nat, linked: bool)

  type Disk = map<int, Bytes>

  /** Position of a page in the list, or the length of the list. */
  function Find(list: seq<Node>, p: int): (i: nat)
    ensures i <= |list| && (i < |list| ==> list[i].pgno == p)
    ensures forall k :: 0 <= k < i ==> list[k].pgno != p
  {
    if list == [] || list[0].pgno == p then 0 else 1 + Find(list[1..], p)
  }

  /** What a reader is given for page p: the cached copy if there is one, else the disk's. */
  function Logical(list: seq<Node>, disk: Disk, p: int): Bytes {
    var i := Find(list, p);
    if i < |list| then list[i].page else if p in disk then disk[p] else []
  }

  /** A dirty prefix is all that differs from the disk. */
  ghost predicate Coherent(n: Node, disk: Disk, pgsize: nat) {
    && n.pgno in disk && |n.page| == pgsize == |disk[n.pgno]| && n.updatesize <= pgsize
    && n.page[n.updatesize..] == disk[n.pgno][n.updatesize..]
  }

  ghost predicate OnceOnly(list: seq<Node>) {
    forall i, j :: 0 <= i < j < |list| ==> list[i].pgno != list[j].pgno
  }

  ghost predicate AllCoherent(list: seq<Node>, disk: Disk, pgsize: nat) {
    forall i {:trigger Coherent(list[i], disk, pgsize)} :: 0 <= i < |list| ==> Coherent(list[i], disk, pgsize)
  }

  ghost predicate DiskOk(disk: Disk, pgsize: nat) {
    forall p :: p in disk ==> |disk[p]| == pgsize
  }

  /** No reader can tell two states apart. */
  ghost predicate SameView(list: seq<Node>, disk: Disk, list2: seq<Node>, disk2: Disk) {
    forall p {:trigger Logical(list2, disk2, p)} :: Logical(list2, disk2, p) == Logical(list, disk, p)
  }

  lemma {:induction false} FindAt(list: seq<Node>, i: nat)
    requires OnceOnly(list) && i < |list|
    ensures Find(list, list[i].pgno) == i
  {
  }

  /** What the tail of a page on disk becomes when a prefix is written. */
  function Written(onDisk: Bytes, data: Bytes): Bytes
    requires |data| <= |onDisk|
  {
    data + onDisk[|data|..]
  }

  /** Writing the dirty prefix brings the whole page to disk. */
  lemma {:induction false} PrefixIsEnough(n: Node, disk: Disk, pgsize: nat)
    requires Coherent(n, disk, pgsize)
    ensures Written(disk[n.pgno], n.page[..n.updatesize]) == n.page
  {
    assert n.page == n.page[..n.updatesize] + n.page[n.updatesize..];
  }

  /** Flushing the node at i. */
  lemma {:induction false} Flushed(list: seq<Node>, disk: Disk, pgsize: nat, i: nat)
    requires OnceOnly(list) && AllCoherent(list, disk, pgsize) && DiskOk(disk, pgsize) && i < |list|
    ensures var n := list[i];
            var list2, disk2 := list[i := n.(updatesize := 0)], disk[n.pgno := n.page];
            && OnceOnly(list2) && AllCoherent(list2, disk2, pgsize) && DiskOk(disk2, pgsize)
            && SameView(list, disk, list2, disk2)
  {
    var n := list[i];
    var list2, disk2 := list[i := n.(updatesize := 0)], disk[n.pgno := n.page];
    assert Coherent(n, disk, pgsize);
    forall k | 0 <= k < |list2| ensures Coherent(list2[k], disk2, pgsize) {
      assert Coherent(list[k], disk, pgsize);
    }
    forall p ensures Logical(list2, disk2, p) == Logical(list, disk, p) {
      SameFind(list, list2, p);
      if Find(list, p) == |list| {
        assert p != n.pgno;
      }
    }
  }

  lemma {:induction false} SameFind(a: seq<Node>, b: seq<Node>, p: int)
    requires |a| == |b| && forall k :: 0 <= k < |a| ==> a[k].pgno == b[k].pgno
    ensures Find(a, p) == Find(b, p)
  {
  }

  /** A clean page can leave the cache unnoticed. */
  lemma {:induction false} Dropped(list: seq<Node>, disk: Disk, pgsize: nat, i: nat)
    requires OnceOnly(list) && AllCoherent(list, disk, pgsize) && i < |list|
    ensures var list2 := list[..i] + list[i + 1..];
            && OnceOnly(list2) && AllCoherent(list2, disk, pgsize) && Find(list2, list[i].pgno) == |list2|
            && (forall p :: p != list[i].pgno ==> Logical(list2, disk, p) == Logical(list, disk, p))
            && list[i].pgno in disk && Logical(list2, disk, list[i].pgno) == disk[list[i].pgno]
            && (list[i].updatesize == 0 ==> SameView(list, disk, list2, disk))
  {
    var list2 := list[..i] + list[i + 1..];
    assert Coherent(list[i], disk, pgsize);
    DroppedCoherent(list, disk, pgsize, i);
    FindAt(list, i);
    forall p | p != list[i].pgno ensures Logical(list2, disk, p) == Logical(list, disk, p) {
      Elsewhere(list, i, p);
    }
    if list[i].updatesize == 0 {
      CleanMeansSame(list[i], disk, pgsize);
    }
  }

  lemma {:induction false} DroppedCoherent(list: seq<Node>, disk: Disk, pgsize: nat, i: nat)
    requires OnceOnly(list) && AllCoherent(list, disk, pgsize) && i < |list|
    ensures var list2 := list[..i] + list[i + 1..];
            OnceOnly(list2) && AllCoherent(list2, disk, pgsize) && Find(list2, list[i].pgno) == |list2|
  {
    var list2 := list[..i] + list[i + 1..];
    forall k | 0 <= k < |list2| ensures Coherent(list2[k], disk, pgsize) && list2[k].pgno != list[i].pgno {
      assert Coherent(list[if k < i then k else k + 1], disk, pgsize);
    }
  }

  lemma {:induction false} Elsewhere(list: seq<Node>, i: nat, p: int)
    requires OnceOnly(list) && i < |list| && p != list[i].pgno
    ensures var list2, j := list[..i] + list[i + 1..], Find(list, p);
            Find(list2, p) == if j < i then j else j - 1
  {
    var list2, j := list[..i] + list[i + 1..], Find(list, p);
    var k := if j < i then j else j - 1;
    assert forall m :: 0 <= m < k ==> list2[m] == list[if m < i then m else m + 1];
    if k < |list2| {
      assert list2[k] == list[j];
    }
  }

  /** A page read from disk and put in front. */
  lemma {:induction false} Fetched(list: seq<Node>, disk: Disk, pgsize: nat, p: int)
    requires OnceOnly(list) && AllCoherent(list, disk, pgsize) && DiskOk(disk, pgsize)
    requires p in disk && Find(list, p) == |list|
    ensures var list2 := [Node(p, disk[p], 0, false)] + list;
            OnceOnly(list2) && AllCoherent(list2, disk, pgsize) && SameView(list, disk, list2, disk)
  {
    var list2 := [Node(p, disk[p], 0, false)] + list;
    assert list2[1..] == list;
    forall k | 0 <= k < |list2| ensures Coherent(list2[k], disk, pgsize) {
      assert 0 < k ==> Coherent(list[k - 1], disk, pgsize);
    }
  }

  /** The mark for the node before is no reader's business. */
  function SetLinked(list: seq<Node>, i: nat, b: bool): seq<Node> {
    if i < |list| then list[i := list[i].(linked := b)] else list
  }

  lemma {:induction false} Relinked(list: seq<Node>, disk: Disk, pgsize: nat, i: nat, b: bool)
    requires OnceOnly(list) && AllCoherent(list, disk, pgsize)
    ensures var list2 := SetLinked(list, i, b);
            OnceOnly(list2) && AllCoherent(list2, disk, pgsize) && SameView(list, disk, list2, disk)
    ensures forall p :: Find(SetLinked(list, i, b), p) == Find(list, p)
  {
    var list2 := SetLinked(list, i, b);
    forall k | 0 <= k < |list2| ensures Coherent(list2[k], disk, pgsize) {
      assert Coherent(list[k], disk, pgsize);
    }
    forall p ensures Find(list2, p) == Find(list, p) && Logical(list2, disk, p) == Logical(list, disk, p) {
      SameFind(list, list2, p);
    }
  }

  function ToFront(list: seq<Node>, i: nat): seq<Node>
    requires i < |list|
  {
    [list[i].(linked := false)] + (list[..i] + list[i + 1..])
  }

  /** A cached page put in front. */
  lemma {:induction false} MovedToFront(list: seq<Node>, disk: Disk, pgsize: nat, i: nat)
    requires OnceOnly(list) && AllCoherent(list, disk, pgsize) && i < |list|
    ensures OnceOnly(ToFront(list, i)) && AllCoherent(ToFront(list, i), disk, pgsize)
    ensures SameView(list, disk, ToFront(list, i), disk)
  {
    var n, rest := list[i].(linked := false), list[..i] + list[i + 1..];
    var list2 := [n] + rest;
    assert list2[1..] == rest;
    Dropped(list, disk, pgsize, i);
    forall k | 0 <= k < |list2| ensures Coherent(list2[k], disk, pgsize) {
      assert if k == 0 then Coherent(list[i], disk, pgsize) else Coherent(rest[k - 1], disk, pgsize);
    }
    FindAt(list, i);
    forall p ensures Logical(list2, disk, p) == Logical(list, disk, p) {
      assert p != n.pgno ==> Logical(rest, disk, p) == Logical(list, disk, p);
    }
  }

  /** The state of the cache as a reader sees it, and what keeps it so. */
  ghost predicate CacheOk(list: seq<Node>, disk: Disk, pgsize: nat) {
    OnceOnly(list) && AllCoherent(list, disk, pgsize) && DiskOk(disk, pgsize) && |list| <= LIMIT
  }

  function Spliced(page: Bytes, offset: nat, data: Bytes): Bytes
    requires offset + |data| <= |page|
  {
    page[..offset] + data + page[offset + |data|..]
  }

  /** The data stands at its offset, and every other byte is as before. */
  ghost predicate WrittenAt(after: Bytes, before: Bytes, offset: nat, data: Bytes) {
    && |after| == |before| && offset + |data| <= |before|
    && forall k :: 0 <= k < |before| ==> after[k] == if offset <= k < offset + |data| then data[k - offset] else before[k]
  }

  lemma {:induction false} SplicedAt(page: Bytes, offset: nat, data: Bytes)
    requires offset + |data| <= |page|
    ensures WrittenAt(Spliced(page, offset, data), page, offset, data)
  {
  }

  /** Behind both the old and the new end of what was written, nothing has changed. */
  lemma {:induction false} SplicedTail(page: Bytes, onDisk: Bytes, u: nat, offset: nat, data: Bytes, size: nat)
    requires |page| == |onDisk| && u <= size <= |page| && offset + |data| <= size && page[u..] == onDisk[u..]
    ensures |Spliced(page, offset, data)| == |page| && Spliced(page, offset, data)[size..] == onDisk[size..]
  {
    var s := Spliced(page, offset, data);
    forall k | size <= k < |page| ensures s[k] == onDisk[k] {
      assert page[u..][k - u] == onDisk[u..][k - u];
    }
  }

  /** Writing into the cached copy at i. */
  lemma {:induction false} Overwritten(list: seq<Node>, disk: Disk, pgsize: nat, i: nat, offset: nat, data: Bytes)
    requires OnceOnly(list) && AllCoherent(list, disk, pgsize) && i < |list| && offset + |data| <= |list[i].page|
    ensures var n := list[i];
            var size := if n.updatesize < offset + |data| then offset + |data| else n.updatesize;
            var list2 := list[i := n.(updatesize := size, page := Spliced(n.page, offset, data))];
            && OnceOnly(list2) && AllCoherent(list2, disk, pgsize)
            && (forall p :: p != n.pgno ==> Logical(list2, disk, p) == Logical(list, disk, p))
            && Logical(list2, disk, n.pgno) == Spliced(n.page, offset, data) && Logical(list, disk, n.pgno) == n.page
  {
    var n := list[i];
    var size := if n.updatesize < offset + |data| then offset + |data| else n.updatesize;
    var page := Spliced(n.page, offset, data);
    var list2 := list[i := n.(updatesize := size, page := page)];
    assert Coherent(n, disk, pgsize);
    SplicedTail(n.page, disk[n.pgno], n.updatesize, offset, data, size);
    forall k | 0 <= k < |list2| ensures Coherent(list2[k], disk, pgsize) {
      assert k != i ==> Coherent(list[k], disk, pgsize);
    }
    FindAt(list, i);
    forall p ensures Find(list2, p) == Find(list, p) {
      SameFind(list, list2, p);
    }
  }

  // ---------------------------------------------------------------- where the lost back link is missed

  /** Getting page p has to take the last of 32 nodes out through a back link that it has lost. */
  predicate EvictionFaults(list: seq<Node>, p: int) {
    Find(list, p) == |list| && |list| >= LIMIT && !list[|list| - 1].linked
  }

  /** Removing page p has to take a node behind the head out through a back link that it has lost. */
  predicate RemovalFaults(list: seq<Node>, p: int) {
    var i := Find(list, p);
    0 < i < |list| && !list[i].linked
  }

  /** The list after a page has been asked for, when that does not fault. */
  function Touched(list: seq<Node>, disk: Disk, p: int): seq<Node> {
    var i := Find(list, p);
    if i < |list| then
      if list[i].linked then ToFront(SetLinked(list, i + 1, true), i) else list
    else
      var room := if |list| >= LIMIT then list[..|list| - 1] else list;
      if p in disk then [Node(p, disk[p], 0, false)] + SetLinked(room, 0, true) else room
  }

  function Pages(list: seq<Node>): seq<int> {
    seq(|list|, i requires 0 <= i < |list| => list[i].pgno)
  }

  /** The page asked for is put in front and the others keep their order; of a full list of 32 the
      last one goes when the page is not among them. A page whose node has no back link stays where it
      is, and one that is not on disk is not put in. */
  lemma {:induction false} TouchedPages(list: seq<Node>, disk: Disk, p: int)
    ensures var ps, qs := Pages(list), Pages(Touched(list, disk, p));
            && (p !in ps ==> qs == (if p in disk then [p] else []) + if |ps| >= 32 then ps[..|ps| - 1] else ps)
            && (forall i :: 0 <= i < |ps| && ps[i] == p && p !in ps[..i] ==>
                 qs == if list[i].linked then [p] + ps[..i] + ps[i + 1..] else ps)
  {
    var ps, qs := Pages(list), Pages(Touched(list, disk, p));
    if p in ps {
      forall i | 0 <= i < |ps| && ps[i] == p && p !in ps[..i]
        ensures qs == if list[i].linked then [p] + ps[..i] + ps[i + 1..] else ps
      {
        TouchedAt(list, disk, p, i);
      }
    } else {
      assert forall k :: 0 <= k < |list| ==> ps[k] == list[k].pgno && ps[k] in ps;
      assert Find(list, p) == |list|;
    }
  }

  lemma {:induction false} TouchedAt(list: seq<Node>, disk: Disk, p: int, i: nat)
    requires i < |list| && list[i].pgno == p && p !in Pages(list)[..i]
    ensures var ps := Pages(list);
            Pages(Touched(list, disk, p)) == if list[i].linked then [p] + ps[..i] + ps[i + 1..] else ps
  {
    var ps := Pages(list);
    forall k | 0 <= k < i ensures list[k].pgno != p {
      assert ps[..i][k] == list[k].pgno;
    }
    FirstFound(list, p, i);
  }

  lemma {:induction false} FirstFound(list: seq<Node>, p: int, i: nat)
    requires i < |list| && list[i].pgno == p && forall k :: 0 <= k < i ==> list[k].pgno != p
    ensures Find(list, p) == i
  {
    var f := Find(list, p);
  }

  function TouchedAll(list: seq<Node>, disk: Disk, ps: seq<int>): seq<Node>
    decreases |ps|
  {
    if ps == [] then list else TouchedAll(Touched(list, disk, ps[0]), disk, ps[1..])
  }

  /** No request of a run faults. */
  predicate Smooth(list: seq<Node>, disk: Disk, ps: seq<int>)
    decreases |ps|
  {
    ps == [] || (!EvictionFaults(list, ps[0]) && Smooth(Touched(list, disk, ps[0]), disk, ps[1..]))
  }

  /** Pages 1 to n are cached, page 2 last and without its back link. */
  ghost predicate TwoIsLost(list: seq<Node>, n: nat) {
    && |list| == n >= 2 && list[n - 1].pgno == 2 && !list[n - 1].linked
    && (forall k :: 0 <= k < n ==> 1 <= list[k].pgno <= n)
    && (forall k :: 0 <= k < n - 1 ==> list[k].pgno != 2)
  }

  function Upto(from: nat, to: nat): seq<int>
    decreases to - from
  {
    if from > to then [] else [from] + Upto(from + 1, to)
  }

  lemma {:induction false} FillUp(list: seq<Node>, disk: Disk, n: nat)
    requires TwoIsLost(list, n) && n <= LIMIT
    requires forall p :: 1 <= p <= LIMIT ==> p in disk
    ensures Smooth(list, disk, Upto(n + 1, LIMIT))
    ensures TwoIsLost(TouchedAll(list, disk, Upto(n + 1, LIMIT)), LIMIT)
    decreases LIMIT - n
  {
    if n < LIMIT {
      var p := n + 1;
      assert Find(list, p) == |list|;
      FillUp(Touched(list, disk, p), disk, p);
      assert Upto(p, LIMIT)[1..] == Upto(p + 1, LIMIT);
    }
  }

  /** Reading pages 1, 2 and 1 again leaves page 2 behind the head without a back link. */
  lemma {:induction false} OneTwoOne(disk: Disk)
    requires 1 in disk && 2 in disk
    ensures var l1 := [Node(1, disk[1], 0, false)];
            var l2 := [Node(2, disk[2], 0, false), Node(1, disk[1], 0, true)];
            && Touched([], disk, 1) == l1 && Touched(l1, disk, 2) == l2
            && Touched(l2, disk, 1) == [Node(1, disk[1], 0, false), Node(2, disk[2], 0, false)]
            && !EvictionFaults([], 1) && !EvictionFaults(l1, 2) && !EvictionFaults(l2, 1)
  {
    var l2 := [Node(2, disk[2], 0, false), Node(1, disk[1], 0, true)];
    assert l2[1..] == [Node(1, disk[1], 0, true)];
    assert Find(l2[1..], 1) == 0;
    assert Find(l2, 1) == 1;
  }

  lemma {:induction false} RunOneByOne(list: seq<Node>, disk: Disk, p: int, rest: seq<int>)
    ensures TouchedAll(list, disk, [p] + rest) == TouchedAll(Touched(list, disk, p), disk, rest)
    ensures Smooth(list, disk, [p] + rest) <==> !EvictionFaults(list, p) && Smooth(Touched(list, disk, p), disk, rest)
  {
    assert ([p] + rest)[1..] == rest;
  }

  lemma {:induction false} LostIsStuck(list: seq<Node>, p: int)
    requires TwoIsLost(list, LIMIT) && !(1 <= p <= LIMIT)
    ensures EvictionFaults(list, p) && RemovalFaults(list, 2)
  {
  }

  /** A run that loses a back link: pages 1, 2, 1 again, 3 to 32. All these requests are served, and then
      any page that is not cached can not be: the list is full and its last node, page 2, has no back
      link. Nor can page 2 be removed. */
  lemma {:induction false} BackLinkLost(disk: Disk, p: int)
    requires forall q :: 1 <= q <= LIMIT ==> q in disk
    requires !(1 <= p <= LIMIT)
    ensures var run := [1] + ([2] + ([1] + Upto(3, LIMIT)));
            Smooth([], disk, run) && EvictionFaults(TouchedAll([], disk, run), p)
            && RemovalFaults(TouchedAll([], disk, run), 2)
  {
    var rest := Upto(3, LIMIT);
    OneTwoOne(disk);
    var l1 := Touched([], disk, 1);
    var l2 := Touched(l1, disk, 2);
    var l3 := Touched(l2, disk, 1);
    RunOneByOne([], disk, 1, [2] + ([1] + rest));
    RunOneByOne(l1, disk, 2, [1] + rest);
    RunOneByOne(l2, disk, 1, rest);
    FillUp(l3, disk, 2);
    LostIsStuck(TouchedAll(l3, disk, rest), p);
  }

  class PageCache {
    const pgsize: nat
    var list: seq<Node>   // the linked list of page nodes, head first
    var disk: Disk        // the pages of the table space

    ghost predicate Valid()
      reads this
    {
      CacheOk(list, disk, pgsize)
    }

    constructor (pgsize: nat, disk: Disk)
      requires DiskOk(disk, pgsize)
      ensures Valid() && list == [] && this.disk == disk && this.pgsize == pgsize
    {
      this.pgsize, this.disk, list := pgsize, disk, [];
    }

    /** Write the dirty prefix of a cached page to disk. */
    method WriteBack(i: nat)
      requires Valid() && i < |list|
      modifies this
      ensures Valid() && SameView(old(list), old(disk), list, disk)
      ensures |list| == |old(list)| && list[i] == old(list)[i].(updatesize := 0) && disk.Keys == old(disk).Keys
      ensures forall k :: 0 <= k < |list| && k != i ==> list[k] == old(list)[k]
      ensures disk == old(disk)[list[i].pgno := list[i].page]
    {
      var n := list[i];
      assert Coherent(n, disk, pgsize);
      PrefixIsEnough(n, disk, pgsize);
      Flushed(list, disk, pgsize, i);
      disk := disk[n.pgno := Written(disk[n.pgno], n.page[..n.updatesize])];
      list := list[i := n.(updatesize := 0)];
    }

    /** Make room: the last page leaves the list, after its dirty prefix has been written. It leaves
        through its back link; without one the source dereferences null. */
    method EvictLast() returns (fault: bool)
      requires Valid() && list != []
      modifies this
      ensures fault <==> !old(list)[|old(list)| - 1].linked
      ensures Valid() && SameView(old(list), old(disk), list, disk) && disk.Keys == old(disk).Keys
      ensures !fault ==> list == old(list)[..|old(list)| - 1]
      ensures forall p :: p in disk && Find(old(list), p) == |old(list)| ==> disk[p] == old(disk)[p]
    {
      var i := |list| - 1;
      ghost var list0, disk0 := list, disk;
      FindAt(list, i);
      if list[i].updatesize != 0 {
        WriteBack(i);
      }
      if !list[i].linked { return true; }
      Dropped(list, disk, pgsize, i);
      assert list[..i] + list[i + 1..] == list[..i] == list0[..i];
      list := list[..i];
      return false;
    }

    /** The node of a page, which comes to the front unless it is the head or has lost its back
        link; a page that is not cached is read, in the place of the last page when there are 32.
        -1 when the disk does not have the page. Nothing a reader sees changes. */
    method GetPageNode(pgno: int) returns (fault: bool, at: int)
      requires Valid()
      modifies this
      ensures fault <==> EvictionFaults(old(list), pgno)
      ensures Valid() && SameView(old(list), old(disk), list, disk) && disk.Keys == old(disk).Keys
      ensures !fault ==> list == Touched(old(list), old(disk), pgno)
      ensures at == -1 <==> fault || pgno !in old(disk)
      ensures at != -1 ==> 0 <= at < |list| && list[at].pgno == pgno
    {
      var i := 0;
      while i < |list|
        invariant unchanged(this) && 0 <= i <= |list| && forall k :: 0 <= k < i ==> list[k].pgno != pgno
        decreases |list| - i
      {
        if list[i].pgno == pgno {
          assert Coherent(list[i], disk, pgsize);
          FindAt(list, i);
          if !list[i].linked { return false, i; }
          Relinked(list, disk, pgsize, i + 1, true);
          var relinked := SetLinked(list, i + 1, true);
          MovedToFront(relinked, disk, pgsize, i);
          list := ToFront(relinked, i);
          return false, 0;
        }
        i := i + 1;
      }
      assert Find(list, pgno) == |list|;
      if |list| >= LIMIT {
        fault := EvictLast();
        if fault { return true, -1; }
        StillAbsent(old(list), list, pgno);
      }
      if pgno !in disk { return false, -1; }
      Relinked(list, disk, pgsize, 0, true);
      list := SetLinked(list, 0, true);
      Fetched(list, disk, pgsize, pgno);
      list := [Node(pgno, disk[pgno], 0, false)] + list;
      return false, 0;
    }

    /** Read a whole page. */
    method GetPage(pgno: int) returns (fault: bool, found: bool, page: Bytes)
      requires Valid()
      modifies this
      ensures fault <==> EvictionFaults(old(list), pgno)
      ensures Valid() && SameView(old(list), old(disk), list, disk) && disk.Keys == old(disk).Keys
      ensures !fault ==> list == Touched(old(list), old(disk), pgno)
      ensures found <==> !fault && pgno in old(disk)
      ensures found ==> page == Logical(old(list), old(disk), pgno)
    {
      var at;
      fault, at := GetPageNode(pgno);
      if at == -1 { return fault, false, []; }
      FindAt(list, at);
      assert Logical(list, disk, pgno) == Logical(old(list), old(disk), pgno);
      return false, true, list[at].page;
    }

    /** Write into a page: the only operation that changes what readers see, and only in this page. */
    method WritePage(pgno: int, offset: nat, data: Bytes) returns (fault: bool, ret: int)
      requires Valid()
      modifies this
      ensures fault <==> offset + |data| <= pgsize && EvictionFaults(old(list), pgno)
      ensures Valid() && disk.Keys == old(disk).Keys
      ensures ret == if !fault && pgno in old(disk) && offset + |data| <= pgsize then 0 else -1
      ensures ret == -1 ==> SameView(old(list), old(disk), list, disk)
      ensures ret == 0 ==> |Logical(old(list), old(disk), pgno)| == pgsize
                           && WrittenAt(Logical(list, disk, pgno), Logical(old(list), old(disk), pgno), offset, data)
      ensures ret == 0 ==> forall p :: p != pgno ==> Logical(list, disk, p) == Logical(old(list), old(disk), p)
    {
      if offset + |data| > pgsize { return false, -1; }
      var at;
      fault, at := GetPageNode(pgno);
      if at == -1 { return fault, -1; }
      ghost var list1, disk1 := list, disk;
      assert Coherent(list[at], disk, pgsize);
      Overwritten(list, disk, pgsize, at, offset, data);
      SplicedAt(list[at].page, offset, data);
      var n := list[at];
      var size := if n.updatesize < offset + |data| then offset + |data| else n.updatesize;
      list := list[at := n.(updatesize := size, page := Spliced(n.page, offset, data))];
      assert Logical(list1, disk1, pgno) == Logical(old(list), old(disk), pgno);
      forall p | p != pgno ensures Logical(list, disk, p) == Logical(old(list), old(disk), p) {
        assert Logical(list1, disk1, p) == Logical(old(list), old(disk), p);
      }
      return false, 0;
    }

    /** Bring every written page to disk; afterwards disk and cache agree on every page. */
    method FlushAll()
      requires Valid()
      modifies this
      ensures Valid() && SameView(old(list), old(disk), list, disk) && disk.Keys == old(disk).Keys
      ensures forall i :: 0 <= i < |list| ==> list[i].updatesize == 0 && list[i].pgno in disk && disk[list[i].pgno] == list[i].page
    {
      var i := 0;
      while i < |list|
        invariant Valid() && SameView(old(list), old(disk), list, disk) && disk.Keys == old(disk).Keys
        invariant 0 <= i <= |list| && forall k :: 0 <= k < i ==> list[k].updatesize == 0
        decreases |list| - i
      {
        if list[i].updatesize != 0 {
          WriteBack(i);
        }
        i := i + 1;
      }
      forall k | 0 <= k < |list| ensures list[k].pgno in disk && disk[list[k].pgno] == list[k].page {
        assert Coherent(list[k], disk, pgsize);
        CleanMeansSame(list[k], disk, pgsize);
      }
    }

    /** Bring one page to disk. */
    method Flush(pgno: int)
      requires Valid()
      modifies this
      ensures Valid() && SameView(old(list), old(disk), list, disk) && disk.Keys == old(disk).Keys
      ensures pgno in disk ==> disk[pgno] == Logical(list, disk, pgno)
    {
      var i := 0;
      while i < |list|
        invariant unchanged(this) && 0 <= i <= |list| && forall k :: 0 <= k < i ==> list[k].pgno != pgno || list[k].updatesize == 0
        decreases |list| - i
      {
        if list[i].pgno == pgno && list[i].updatesize != 0 {
          WriteBack(i);
          FindAt(list, i);
          return;
        }
        i := i + 1;
      }
      var j := Find(list, pgno);
      if j < |list| {
        CleanMeansSame(list[j], disk, pgsize);
      }
    }

    /** Forget a page: readers get what the disk has. A node behind the head leaves through its back
        link; without one the source dereferences null. */
    method RemovePage(pgno: int) returns (fault: bool, ret: int)
      requires Valid()
      modifies this`list
      ensures fault <==> RemovalFaults(old(list), pgno)
      ensures Valid() && (ret == 0 || ret == -1)
      ensures ret == -1 <==> fault || Find(old(list), pgno) == |old(list)|
      ensures ret == -1 ==> list == old(list)
      ensures forall p :: p != pgno ==> Logical(list, disk, p) == Logical(old(list), disk, p)
      ensures ret == 0 ==> pgno in disk && Logical(list, disk, pgno) == disk[pgno]
    {
      var i := 0;
      while i < |list|
        invariant unchanged(this) && 0 <= i <= |list| && forall k :: 0 <= k < i ==> list[k].pgno != pgno
        decreases |list| - i
      {
        if list[i].pgno == pgno {
          FindAt(list, i);
          if i != 0 && !list[i].linked { return true, -1; }
          Relinked(list, disk, pgsize, i + 1, i != 0);
          var relinked := SetLinked(list, i + 1, i != 0);
          Dropped(relinked, disk, pgsize, i);
          assert forall p :: Logical(relinked, disk, p) == Logical(list, disk, p);
          list := relinked[..i] + relinked[i + 1..];
          return false, 0;
        }
        i := i + 1;
      }
      return false, -1;
    }
  }

  lemma {:induction false} CleanMeansSame(n: Node, disk: Disk, pgsize: nat)
    requires Coherent(n, disk, pgsize) && n.updatesize == 0
    ensures disk[n.pgno] == n.page
  {
    assert n.page[0..] == n.page && disk[n.pgno][0..] == disk[n.pgno];
  }

  lemma {:induction false} StillAbsent(list0: seq<Node>, list: seq<Node>, p: int)
    requires list0 != [] && list == list0[..|list0| - 1] && Find(list0, p) == |list0|
    ensures Find(list, p) == |list|
  {
  }
}
