/** The page allocator of a table space: pages live in files of a fixed number of pages, free pages
    are chained through their own heads. */
module Tablespace {

  const HEAD_PAGE_SIZE := 8192
  const KILO := 1024
  const GROWTH := 256          // pages added at a time: a quarter of KILO
  const NO_PAGE := -1
  const MAX_PAGE_SIZE := 1024 * 32

  // ---------------------------------------------------------------- where pages are

  /** File number, and position from the beginning of that file. */
  datatype Place = Place(file: int, pos: int)

  function PlaceOf(pgno: nat, filepages: nat, pagesize: nat): Place
    requires 0 < filepages
  {
    Place(pgno / filepages, HEAD_PAGE_SIZE + (pgno % filepages) * pagesize)
  }

  /** The place a number below zero is given: quotient and remainder are rounded towards zero, so that
      it lies before the first page of its file, or in a file that does not exist. */
  function PlaceBelow(pgno: int, filepages: nat, pagesize: nat): Place
    requires 0 < filepages && pgno < 0
  {
    Place(-(-pgno / filepages), HEAD_PAGE_SIZE - (-pgno % filepages) * pagesize)
  }

  lemma {:induction false} MulLe(a: int, b: int, t: int)
    requires a <= b && 0 <= t
    ensures a * t <= b * t
  {
  }

  lemma {:induction false} DivMod(x: nat, y: nat)
    requires 0 < y
    ensures x == (x / y) * y + x % y && 0 <= x % y < y && 0 <= x / y
  {
  }

  lemma {:induction false} SameQuotient(q: int, r: int, x: nat, y: nat)
    requires 0 < y && 0 <= r < y && x == q * y + r
    ensures x / y == q && x % y == r
  {
    DivMod(x, y);
    var d := x / y - q;
    assert d * y == (x / y) * y - q * y;
    if 1 <= d { MulLe(1, d, y); }
    if d <= -1 { MulLe(d, -1, y); }
  }

  /** Distinct pages lie in different files, or in byte ranges that do not overlap; every page lies
      behind the head of its file. */
  lemma {:induction false} PagesDisjoint(p: nat, q: nat, filepages: nat, pagesize: nat)
    requires 0 < filepages && p < q
    ensures var a, b := PlaceOf(p, filepages, pagesize), PlaceOf(q, filepages, pagesize);
            && HEAD_PAGE_SIZE <= a.pos && HEAD_PAGE_SIZE <= b.pos
            && (a.file == b.file ==> a.pos + pagesize <= b.pos)
  {
    DivMod(p, filepages);
    DivMod(q, filepages);
    MulLe(0, p % filepages, pagesize);
    MulLe(0, q % filepages, pagesize);
    if p / filepages == q / filepages {
      MulLe(p % filepages + 1, q % filepages, pagesize);
      assert (p % filepages + 1) * pagesize == (p % filepages) * pagesize + pagesize;
    }
  }

  /** Page 0 lies behind the head of file 0, and each page behind the page before it; after as many
      pages as a file has, the next one lies behind the head of the next file. */
  lemma {:induction false} PlacesFollow(p: nat, filepages: nat, pagesize: nat)
    requires 0 < filepages && 0 < pagesize
    ensures PlaceOf(0, filepages, pagesize) == Place(0, 8192)
    ensures var a := PlaceOf(p, filepages, pagesize);
            PlaceOf(p + 1, filepages, pagesize)
            == if a.pos + pagesize == 8192 + filepages * pagesize then Place(a.file + 1, 8192)
               else Place(a.file, a.pos + pagesize)
  {
    SameQuotient(0, 0, 0, filepages);
    assert 0 * pagesize == 0;
    var q, r := p / filepages, p % filepages;
    DivMod(p, filepages);
    NextMultiple(r, filepages, pagesize);
    if r + 1 == filepages {
      assert (q + 1) * filepages == q * filepages + filepages;
      SameQuotient(q + 1, 0, p + 1, filepages);
    } else {
      SameQuotient(q, r + 1, p + 1, filepages);
    }
  }

  lemma {:induction false} NextMultiple(r: nat, n: nat, size: nat)
    requires r < n && 0 < size
    ensures (r + 1) * size == r * size + size && (r * size + size == n * size <==> r + 1 == n)
  {
    assert (r + 1) * size == r * size + size;
    if r + 1 < n {
      MulLe(r + 2, n, size);
      assert (r + 2) * size == (r + 1) * size + size;
    }
  }

  lemma {:induction false} PlacesDiffer(p: nat, q: nat, filepages: nat, pagesize: nat)
    requires 0 < filepages && 0 < pagesize && p != q
    ensures PlaceOf(p, filepages, pagesize) != PlaceOf(q, filepages, pagesize)
  {
    if p < q {
      PagesDisjoint(p, q, filepages, pagesize);
    } else {
      PagesDisjoint(q, p, filepages, pagesize);
    }
  }

  /** A growth step stays inside the file it begins in, and fills consecutive pages of it. */
  lemma {:induction false} GrowthStaysInFile(all: nat, steps: nat, i: nat, filekilo: nat, pagesize: nat)
    requires 0 < filekilo && all == steps * GROWTH && i < GROWTH
    ensures var filepages := filekilo * KILO;
            && all % filepages + GROWTH <= filepages
            && PlaceOf(all + i, filepages, pagesize)
               == Place(all / filepages, HEAD_PAGE_SIZE + (all % filepages) * pagesize + i * pagesize)
  {
    var filepages := filekilo * KILO;
    var q, r := all / filepages, all % filepages;
    DivMod(all, filepages);
    assert q * filepages == (q * filekilo) * KILO;
    assert r == (steps - 4 * (q * filekilo)) * GROWTH;
    SameQuotient(q, r + i, all + i, filepages);
    assert (r + i) * pagesize == r * pagesize + i * pagesize;
  }

  // ---------------------------------------------------------------- the free list

  /** What the head of a page says: it is free and names the next free page, or it is in use. */
  datatype Slot = FreePage(next: int) | InUse

  type Disk = map<Place, Slot>

  function NextFree(free: seq<int>, i: int): int {
    if 0 <= i < |free| then free[i] else NO_PAGE
  }

  /** The chain of free pages, in order: distinct pages, each head naming the next. Every page of
      the space is either in the chain or in use. */
  ghost predicate FreeList(disk: Disk, free: seq<int>, all: nat, filepages: nat, pagesize: nat)
    requires 0 < filepages
  {
    && InSpace(free, all) && Distinct(free)
    && AllKnown(disk, all, filepages, pagesize)
    && AllChained(disk, free, filepages, pagesize)
    && OthersUsed(disk, free, all, filepages, pagesize)
  }

  ghost predicate InSpace(free: seq<int>, all: nat) {
    forall i :: 0 <= i < |free| ==> 0 <= free[i] < all
  }

  ghost predicate Distinct(free: seq<int>) {
    forall i, j :: 0 <= i < j < |free| ==> free[i] != free[j]
  }

  ghost predicate AllKnown(disk: Disk, all: nat, filepages: nat, pagesize: nat)
    requires 0 < filepages
  {
    forall p {:trigger Known(disk, p, filepages, pagesize)} :: 0 <= p < all ==> Known(disk, p, filepages, pagesize)
  }

  ghost predicate AllChained(disk: Disk, free: seq<int>, filepages: nat, pagesize: nat)
    requires 0 < filepages
  {
    forall i {:trigger Chained(disk, free, i, filepages, pagesize)} :: 0 <= i < |free| && 0 <= free[i] ==>
      Chained(disk, free, i, filepages, pagesize)
  }

  ghost predicate OthersUsed(disk: Disk, free: seq<int>, all: nat, filepages: nat, pagesize: nat)
    requires 0 < filepages
  {
    forall p {:trigger UsedAt(disk, p, filepages, pagesize)} :: 0 <= p < all ==>
      (UsedAt(disk, p, filepages, pagesize) <==> p !in free)
  }

  ghost predicate Known(disk: Disk, p: nat, filepages: nat, pagesize: nat)
    requires 0 < filepages
  {
    PlaceOf(p, filepages, pagesize) in disk
  }

  ghost predicate UsedAt(disk: Disk, p: nat, filepages: nat, pagesize: nat)
    requires 0 < filepages
  {
    var at := PlaceOf(p, filepages, pagesize); at in disk && disk[at].InUse?
  }

  ghost predicate Chained(disk: Disk, free: seq<int>, i: nat, filepages: nat, pagesize: nat)
    requires 0 < filepages && i < |free| && 0 <= free[i]
  {
    var at := PlaceOf(free[i], filepages, pagesize); at in disk && disk[at] == FreePage(NextFree(free, i + 1))
  }

  ghost function Pages(all: nat): (r: set<int>)
    ensures |r| == all && forall p :: p in r <==> 0 <= p < all
  {
    if all == 0 then {} else Pages(all - 1) + {all - 1}
  }

  ghost function Members(s: seq<int>): set<int> {
    set p | p in s
  }

  class Space {
    const pagesize: nat
    const filekilo: nat   // pages of a file, in thousands
    const filepages: nat
    const maxfiles: nat   // 0 means no limit
    var numallpages: nat
    var numfreepages: int
    var nextpageno: int
    var disk: Disk
    ghost var free: seq<int>
    ghost var steps: nat  // growths so far

    ghost predicate Valid()
      reads this
    {
      && 0 < pagesize <= MAX_PAGE_SIZE && 0 < filekilo && filepages == filekilo * KILO && numallpages == steps * GROWTH
      && FreeList(disk, free, numallpages, filepages, pagesize)
      && nextpageno == NextFree(free, 0) && numfreepages == |free|
    }

    /** A page in use. */
    ghost predicate Live(p: int)
      reads this
    {
      0 <= p < numallpages && p !in free
    }

    /** A new space has no pages; they come in steps of 256. Before the place of the first page there
        is the head of the file. */
    constructor (pagekilo: nat, filekilopages: nat, maxfiles: nat, head: Disk)
      requires 0 < pagekilo <= 32 && 0 < filekilopages <= 1024
      requires forall at :: at in head ==> at.file == 0 && at.pos < HEAD_PAGE_SIZE
      ensures Valid() && numallpages == 0
      ensures pagesize == pagekilo * KILO && filepages == filekilopages * KILO && this.maxfiles == maxfiles
    {
      pagesize, filekilo, filepages, this.maxfiles := pagekilo * KILO, filekilopages, filekilopages * KILO, maxfiles;
      numallpages, numfreepages, nextpageno, disk, free, steps := 0, 0, NO_PAGE, head, [], 0;
    }
  
    /** Pages in use and free pages add up to all pages. */
    lemma {:induction false} PagesAddUp(live: set<int>)
      requires Valid() && forall p :: p in live <==> Live(p)
      ensures |live| + numfreepages == numallpages
    {
      MembersSize(free);
      assert Pages(numallpages) - Members(free) == live;
    }

    lemma {:induction false} NoFreePage()
      requires Valid() && nextpageno == NO_PAGE
      ensures free == [] && numfreepages == 0
    {
    }

    /** Write 256 free pages one behind the other, from the end of the last file. */
    method WriteFreePages()
      requires Valid() && nextpageno == NO_PAGE
      modifies `disk
      ensures Growing(old(disk), disk, numallpages, GROWTH, filepages, pagesize)
    {
      var fileno := numallpages / filepages;
      var pos := HEAD_PAGE_SIZE + (numallpages % filepages) * pagesize;
      ghost var pos0 := pos;
      for i := 0 to GROWTH
        invariant pos == pos0 + i * pagesize
        invariant Growing(old(disk), disk, numallpages, i, filepages, pagesize)
      {
        GrowthStaysInFile(numallpages, steps, i, filekilo, pagesize);
        GrowOne(old(disk), disk, numallpages, i, filepages, pagesize);
        var next := if i + 1 == GROWTH then nextpageno else numallpages + i + 1;
        disk := disk[Place(fileno, pos) := FreePage(next)];
        assert (i + 1) * pagesize == i * pagesize + pagesize;
        pos := pos + pagesize;
      }
    }

    /** Add 256 free pages, all in the file that the first of them belongs to. */
    method GrowPages()
      requires Valid() && nextpageno == NO_PAGE
      modifies this
      ensures Valid() && (forall p :: Live(p) <==> old(Live(p)))
      ensures numallpages == old(numallpages) + GROWTH && numfreepages == GROWTH && nextpageno == old(numallpages)
    {
      NoFreePage();
      WriteFreePages();
      ghost var more := GrownSpace(old(disk), disk, numallpages, filepages, pagesize);
      nextpageno := numallpages;
      numallpages := numallpages + GROWTH;
      numfreepages := numfreepages + GROWTH;
      free, steps := more, steps + 1;
    }

    /** Hand out a page: the first free one, after growing when there is none. It fails only when
        the last file allowed is full. */
    method PageAlloc() returns (pgno: int)
      requires Valid()
      modifies this
      ensures Valid()
      ensures pgno == NO_PAGE <==> old(free) == [] && 0 < maxfiles <= old(numallpages) / filepages
      ensures pgno == NO_PAGE ==> unchanged(this)
      ensures pgno != NO_PAGE ==> !old(Live(pgno)) && (forall p :: Live(p) <==> old(Live(p)) || p == pgno)
      ensures old(free) != [] ==> numallpages == old(numallpages)
    {
      if nextpageno == NO_PAGE {
        if 0 < maxfiles && maxfiles <= numallpages / filepages {
          return NO_PAGE;
        }
        GrowPages();
      }
      assert free != [] && nextpageno == free[0];
      ListPopped(disk, free, numallpages, filepages, pagesize);
      var at := PlaceOf(nextpageno, filepages, pagesize);
      pgno := nextpageno;
      nextpageno := disk[at].next;
      numfreepages := numfreepages - 1;
      disk := disk[at := InUse];
      assert free == [free[0]] + free[1..];
      free := free[1..];
    }

    /** The fields describe some chain of free pages. */
    ghost predicate Consistent(chain: seq<int>)
      reads this
    {
      && 0 < filepages && FreeList(disk, chain, numallpages, filepages, pagesize)
      && nextpageno == NextFree(chain, 0) && numfreepages == |chain|
    }

    /** Give a page back. A page beyond the space is refused; a page that is free already stays as
        it is. A number below zero passes the test of the range: the space stays as it is when its
        place cannot be written or looks like a free page, and is spoiled for good otherwise. */
    method PageFree(pgno: int) returns (ret: int)
      requires Valid()
      modifies this
      ensures 0 <= pgno ==> Valid() && ret == if pgno < numallpages then 0 else -1
      ensures 0 <= pgno && !old(Live(pgno)) ==> unchanged(this)
      ensures old(Live(pgno)) ==> (forall p :: Live(p) <==> old(Live(p)) && p != pgno) && free == [pgno] + old(free)
      ensures numallpages == old(numallpages)
      ensures pgno < 0 ==>
                var at := PlaceBelow(pgno, filepages, pagesize);
                && (ret == if at in old(disk) then 0 else -1)
                && if at in old(disk) && old(disk)[at].InUse? then forall chain :: !Consistent(chain) else unchanged(this)
    {
      if pgno >= numallpages { return -1; }
      var at := if 0 <= pgno then PlaceOf(pgno, filepages, pagesize) else PlaceBelow(pgno, filepages, pagesize);
      assert 0 <= pgno ==> Known(disk, pgno, filepages, pagesize);
      if at !in disk { return -1; }
      assert 0 <= pgno ==> (UsedAt(disk, pgno, filepages, pagesize) <==> pgno !in free);
      if disk[at].FreePage? { return 0; }
      if 0 <= pgno {
        ListPushed(disk, free, numallpages, filepages, pagesize, pgno);
        free := [pgno] + free;
      }
      disk := disk[at := FreePage(nextpageno)];
      nextpageno := pgno;
      numfreepages := numfreepages + 1;
      if pgno < 0 {
        assert forall chain: seq<int> :: !Consistent(chain);
      }
      return 0;
    }
  }

  lemma {:induction false} MembersSize(s: seq<int>)
    requires Distinct(s)
    ensures |Members(s)| == |s|
  {
    if s != [] {
      MembersSize(s[1..]);
      assert Members(s) == Members(s[1..]) + {s[0]};
      assert s[0] !in s[1..];
    }
  }

  function NewPages(all: nat, n: nat): seq<int> {
    seq(n, i => all + i)
  }

  /** Page all + k is free, and names the page behind it. */
  ghost predicate NewPage(disk: Disk, all: nat, k: nat, filepages: nat, pagesize: nat)
    requires 0 < filepages
  {
    var at := PlaceOf(all + k, filepages, pagesize);
    at in disk && disk[at] == FreePage(if k + 1 == GROWTH then NO_PAGE else all + k + 1)
  }

  ghost predicate SamePage(before: Disk, disk: Disk, p: nat, filepages: nat, pagesize: nat)
    requires 0 < filepages
  {
    var at := PlaceOf(p, filepages, pagesize); at in before ==> at in disk && disk[at] == before[at]
  }

  ghost predicate Growing(before: Disk, disk: Disk, all: nat, i: nat, filepages: nat, pagesize: nat)
    requires 0 < filepages
  {
    && (forall p {:trigger SamePage(before, disk, p, filepages, pagesize)} :: 0 <= p < all ==>
          SamePage(before, disk, p, filepages, pagesize))
    && (forall k {:trigger NewPage(disk, all, k, filepages, pagesize)} :: 0 <= k < i ==>
          NewPage(disk, all, k, filepages, pagesize))
  }

  lemma {:induction false} GrowOne(before: Disk, disk: Disk, all: nat, i: nat, filepages: nat, pagesize: nat)
    requires 0 < filepages && 0 < pagesize && Growing(before, disk, all, i, filepages, pagesize)
    ensures var next := if i + 1 == GROWTH then NO_PAGE else all + i + 1;
            Growing(before, disk[PlaceOf(all + i, filepages, pagesize) := FreePage(next)], all, i + 1, filepages, pagesize)
  {
    var next := if i + 1 == GROWTH then NO_PAGE else all + i + 1;
    var d := disk[PlaceOf(all + i, filepages, pagesize) := FreePage(next)];
    forall p | 0 <= p < all ensures SamePage(before, d, p, filepages, pagesize) {
      assert SamePage(before, disk, p, filepages, pagesize);
      PlacesDiffer(p, all + i, filepages, pagesize);
    }
    forall k | 0 <= k < i + 1 ensures NewPage(d, all, k, filepages, pagesize) {
      if k < i {
        assert NewPage(disk, all, k, filepages, pagesize);
        PlacesDiffer(all + k, all + i, filepages, pagesize);
      }
    }
  }

  /** After a growth the new pages are the free list. */
  lemma {:induction false} Grown(before: Disk, disk: Disk, all: nat, filepages: nat, pagesize: nat)
    requires 0 < filepages && FreeList(before, [], all, filepages, pagesize)
    requires Growing(before, disk, all, GROWTH, filepages, pagesize)
    ensures FreeList(disk, NewPages(all, GROWTH), all + GROWTH, filepages, pagesize)
  {
    var free := NewPages(all, GROWTH);
    forall p | 0 <= p < all + GROWTH
      ensures Known(disk, p, filepages, pagesize) && (UsedAt(disk, p, filepages, pagesize) <==> p !in free)
    {
      if p < all {
        assert Known(before, p, filepages, pagesize) && SamePage(before, disk, p, filepages, pagesize);
        assert UsedAt(before, p, filepages, pagesize);
      } else {
        assert NewPage(disk, all, p - all, filepages, pagesize);
        assert free[p - all] == p;
      }
    }
    forall i | 0 <= i < |free| ensures Chained(disk, free, i, filepages, pagesize) {
      assert NewPage(disk, all, i, filepages, pagesize);
    }
  }

  lemma {:induction false} MembersNew(all: nat)
    ensures forall p :: 0 <= p < all + GROWTH && p !in NewPages(all, GROWTH) <==> 0 <= p < all
    ensures |NewPages(all, GROWTH)| == GROWTH && NextFree(NewPages(all, GROWTH), 0) == all
  {
    var free := NewPages(all, GROWTH);
    forall p | all <= p < all + GROWTH ensures p in free {
      assert free[p - all] == p;
    }
  }

  lemma {:induction false} GrownSpace(before: Disk, disk: Disk, all: nat, filepages: nat, pagesize: nat) returns (more: seq<int>)
    requires 0 < filepages && FreeList(before, [], all, filepages, pagesize)
    requires Growing(before, disk, all, GROWTH, filepages, pagesize)
    ensures FreeList(disk, more, all + GROWTH, filepages, pagesize)
    ensures |more| == GROWTH && NextFree(more, 0) == all
    ensures forall p :: 0 <= p < all + GROWTH && p !in more <==> 0 <= p < all
  {
    Grown(before, disk, all, filepages, pagesize);
    MembersNew(all);
    more := NewPages(all, GROWTH);
  }

  /** Taking the first page off the list. */
  lemma {:induction false} ListPopped(disk: Disk, free: seq<int>, all: nat, filepages: nat, pagesize: nat)
    requires 0 < filepages && 0 < pagesize && FreeList(disk, free, all, filepages, pagesize) && free != []
    ensures var at := PlaceOf(free[0], filepages, pagesize);
            at in disk && disk[at] == FreePage(NextFree(free, 1))
            && FreeList(disk[at := InUse], free[1..], all, filepages, pagesize)
  {
    var at := PlaceOf(free[0], filepages, pagesize);
    var d, rest := disk[at := InUse], free[1..];
    assert Chained(disk, free, 0, filepages, pagesize);
    forall i | 0 <= i < |rest| ensures Chained(d, rest, i, filepages, pagesize) {
      assert Chained(disk, free, i + 1, filepages, pagesize);
      PlacesDiffer(free[0], rest[i], filepages, pagesize);
    }
    forall p | 0 <= p < all
      ensures Known(d, p, filepages, pagesize) && (UsedAt(d, p, filepages, pagesize) <==> p !in rest)
    {
      assert Known(disk, p, filepages, pagesize);
      assert UsedAt(disk, p, filepages, pagesize) <==> p !in free;
      assert free == [free[0]] + rest;
      if p != free[0] {
        PlacesDiffer(p, free[0], filepages, pagesize);
      }
    }
  }

  /** Putting a page in use at the front of the list. */
  lemma {:induction false} ListPushed(disk: Disk, free: seq<int>, all: nat, filepages: nat, pagesize: nat, pgno: nat)
    requires 0 < filepages && 0 < pagesize && FreeList(disk, free, all, filepages, pagesize)
    requires pgno < all && pgno !in free
    ensures var at := PlaceOf(pgno, filepages, pagesize);
            FreeList(disk[at := FreePage(NextFree(free, 0))], [pgno] + free, all, filepages, pagesize)
  {
    var at := PlaceOf(pgno, filepages, pagesize);
    var d, longer := disk[at := FreePage(NextFree(free, 0))], [pgno] + free;
    forall i | 0 <= i < |longer| ensures Chained(d, longer, i, filepages, pagesize) {
      if 0 < i {
        assert Chained(disk, free, i - 1, filepages, pagesize);
        PlacesDiffer(pgno, free[i - 1], filepages, pagesize);
      }
    }
    forall p | 0 <= p < all
      ensures Known(d, p, filepages, pagesize) && (UsedAt(d, p, filepages, pagesize) <==> p !in longer)
    {
      assert Known(disk, p, filepages, pagesize);
      assert UsedAt(disk, p, filepages, pagesize) <==> p !in free;
      if p != pgno {
        PlacesDiffer(p, pgno, filepages, pagesize);
      }
    }
  }
}
