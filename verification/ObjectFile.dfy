/** Objects of any length stored as chains of pages of one file. */
module ObjectFile {

  const END := -1
  const GROWTH := 256
  const HEAD_SIZE := 16
  const MIN_PAGE_SIZE := 128
  const MAX_PAGE_SIZE := 1024 * 16

  type Bytes = seq<int>

  /** A page: free and naming the next free page, or part of an object. */
  datatype Page = FreePage(next: int) | DataPage(first: bool, data: Bytes, next: int)

  type Disk = map<int, Page>

  /** An object: its pages, in order, and its content. */
  datatype Obj = Obj(pages: seq<int>, data: Bytes)

  // ---------------------------------------------------------------- chains

  /** The pages hold the content, nw bytes to a page. */
  ghost predicate Stores(disk: Disk, pages: seq<int>, data: Bytes, nw: nat, first: bool)
    requires 0 < nw
    decreases |data|
  {
    && pages != [] && pages[0] in disk
    && if |data| <= nw then
         |pages| == 1 && disk[pages[0]] == DataPage(first, data, END)
       else
         && 1 < |pages| && disk[pages[0]] == DataPage(first, data[..nw], pages[1])
         && Stores(disk, pages[1..], data[nw..], nw, false)
  }

  function PageCount(n: nat, nw: nat): (c: nat)
    requires 0 < nw
  {
    if n <= nw then 1 else 1 + PageCount(n - nw, nw)
  }

  /** One page at least; otherwise as many as the content fills. */
  lemma {:induction false} PageCountIsCeiling(n: nat, nw: nat)
    requires 0 < nw
    ensures var c := PageCount(n, nw);
            1 <= c && n <= c * nw && (1 < c ==> (c - 1) * nw < n)
  {
    if nw < n {
      PageCountIsCeiling(n - nw, nw);
      var c := PageCount(n - nw, nw);
      assert (c + 1) * nw == c * nw + nw;
      assert (c - 1) * nw == c * nw - nw;
    }
  }

  lemma {:induction false} StoresCount(disk: Disk, pages: seq<int>, data: Bytes, nw: nat, first: bool)
    requires 0 < nw && Stores(disk, pages, data, nw, first)
    ensures |pages| == PageCount(|data|, nw)
    decreases |data|
  {
    if nw < |data| {
      StoresCount(disk, pages[1..], data[nw..], nw, false);
    }
  }

  ghost predicate Kept(disk: Disk, disk2: Disk, p: int) {
    p in disk ==> p in disk2 && disk2[p] == disk[p]
  }

  /** Pages that are not written keep their content. */
  lemma {:induction false} StoresFrame(disk: Disk, disk2: Disk, pages: seq<int>, data: Bytes, nw: nat, first: bool)
    requires 0 < nw && Stores(disk, pages, data, nw, first)
    requires forall p :: p in pages ==> Kept(disk, disk2, p)
    ensures Stores(disk2, pages, data, nw, first)
    decreases |data|
  {
    assert Kept(disk, disk2, pages[0]);
    if nw < |data| {
      assert forall p :: p in pages[1..] ==> p in pages;
      StoresFrame(disk, disk2, pages[1..], data[nw..], nw, false);
    }
  }

  /** What is left of the content when k full pages have been written. */
  function Rest(data: Bytes, k: nat, nw: nat): Bytes
    requires 0 < nw
  {
    if k == 0 || |data| <= nw then data else Rest(data[nw..], k - 1, nw)
  }

  /** The pages `done` hold the first part of the content, and the last of them leads to `cur`. */
  ghost predicate Partly(disk: Disk, done: seq<int>, cur: int, data: Bytes, nw: nat, first: bool)
    requires 0 < nw
    decreases |done|
  {
    done == [] ||
    (&& nw < |data| && done[0] in disk
     && disk[done[0]] == DataPage(first, data[..nw], if 1 < |done| then done[1] else cur)
     && Partly(disk, done[1..], cur, data[nw..], nw, false))
  }

  lemma {:induction false} PartlyFrame(disk: Disk, disk2: Disk, done: seq<int>, cur: int, data: Bytes, nw: nat, first: bool)
    requires 0 < nw && Partly(disk, done, cur, data, nw, first)
    requires forall p :: p in done ==> Kept(disk, disk2, p)
    ensures Partly(disk2, done, cur, data, nw, first)
    decreases |done|
  {
    if done != [] {
      assert Kept(disk, disk2, done[0]);
      assert forall p :: p in done[1..] ==> p in done;
      PartlyFrame(disk, disk2, done[1..], cur, data[nw..], nw, false);
    }
  }

  /** One more full page. */
  lemma {:induction false} PartlyMore(disk: Disk, done: seq<int>, cur: int, next: int, data: Bytes, nw: nat, first: bool)
    requires 0 < nw && Partly(disk, done, cur, data, nw, first) && cur !in done
    requires nw < |Rest(data, |done|, nw)|
    ensures var rest := Rest(data, |done|, nw);
            var disk2 := disk[cur := DataPage(first && done == [], rest[..nw], next)];
            Partly(disk2, done + [cur], next, data, nw, first) && Rest(data, |done| + 1, nw) == rest[nw..]
    decreases |done|
  {
    var rest := Rest(data, |done|, nw);
    var disk2 := disk[cur := DataPage(first && done == [], rest[..nw], next)];
    if done == [] {
      assert [] + [cur] == [cur] && [cur][1..] == [];
      assert Rest(data, 1, nw) == Rest(data[nw..], 0, nw);
    } else {
      PartlyMore(disk, done[1..], cur, next, data[nw..], nw, false);
      assert (done + [cur])[1..] == done[1..] + [cur];
      assert forall p :: p in done ==> p != cur;
      assert done[0] in done;
    }
  }

  /** The last page. */
  lemma {:induction false} PartlyLast(disk: Disk, done: seq<int>, cur: int, data: Bytes, nw: nat, first: bool)
    requires 0 < nw && Partly(disk, done, cur, data, nw, first) && cur !in done
    requires |Rest(data, |done|, nw)| <= nw
    ensures Stores(disk[cur := DataPage(first && done == [], Rest(data, |done|, nw), END)], done + [cur], data, nw, first)
    decreases |done|
  {
    if done == [] {
      assert [] + [cur] == [cur];
    } else {
      PartlyLast(disk, done[1..], cur, data[nw..], nw, false);
      assert (done + [cur])[1..] == done[1..] + [cur];
      assert done[0] in done;
    }
  }

  // ---------------------------------------------------------------- the file

  ghost predicate Distinct(s: seq<int>) {
    forall i, j :: 0 <= i < j < |s| ==> s[i] != s[j]
  }

  function NextFree(free: seq<int>, i: int): int {
    if 0 <= i < |free| then free[i] else END
  }

  ghost predicate FreeAt(disk: Disk, free: seq<int>, i: nat)
    requires i < |free|
  {
    free[i] in disk && disk[free[i]] == FreePage(NextFree(free, i + 1))
  }

  /** The chain of free pages. */
  ghost predicate FreeOk(disk: Disk, free: seq<int>, all: nat) {
    && (forall p :: p in free ==> 0 <= p < all)
    && Distinct(free)
    && (forall i {:trigger FreeAt(disk, free, i)} :: 0 <= i < |free| ==> FreeAt(disk, free, i))
  }

  /** Page p is in no object and is not free. */
  ghost predicate Loose(p: int, free: seq<int>, objs: map<int, Obj>, all: nat) {
    0 <= p < all && p !in free && forall k :: k in objs ==> p !in objs[k].pages
  }

  ghost predicate ObjOk(disk: Disk, o: Obj, k: int, free: seq<int>, all: nat, nw: nat)
    requires 0 < nw
  {
    && o.pages != [] && o.pages[0] == k && Distinct(o.pages) && Stores(disk, o.pages, o.data, nw, true)
    && (forall p :: p in o.pages ==> 0 <= p < all && p !in free)
  }

  ghost predicate ObjectsOk(disk: Disk, objs: map<int, Obj>, free: seq<int>, all: nat, nw: nat)
    requires 0 < nw
  {
    && (forall k {:trigger ObjOk(disk, objs[k], k, free, all, nw)} :: k in objs ==> ObjOk(disk, objs[k], k, free, all, nw))
    && Separate(objs)
  }

  ghost predicate Separate(objs: map<int, Obj>) {
    forall k, l, p :: k in objs && l in objs && k != l && p in objs[k].pages ==> p !in objs[l].pages
  }

  ghost predicate Mine(pages: seq<int>, free: seq<int>, objs: map<int, Obj>, all: nat) {
    Distinct(pages) && forall p :: p in pages ==> Loose(p, free, objs, all)
  }

  /** What an allocation may do to the file. */
  ghost predicate Allocated(disk: Disk, free: seq<int>, all: nat, disk2: Disk, free2: seq<int>, all2: nat, p: int) {
    && all <= all2 && 0 <= p < all2 && p !in free2 && (p in free || all <= p)
    && (forall q :: q in free2 ==> q in free || all <= q)
    && (forall q :: q !in free && q < all ==> Kept(disk, disk2, q))
  }

  /** Objects do not notice an allocation. */
  lemma {:induction false} ObjectsKept(disk: Disk, free: seq<int>, all: nat, disk2: Disk, free2: seq<int>, all2: nat,
                                       objs: map<int, Obj>, nw: nat)
    requires 0 < nw && ObjectsOk(disk, objs, free, all, nw) && all <= all2
    requires forall q :: q in free2 ==> (q in free || all <= q) || forall k :: k in objs ==> q !in objs[k].pages
    requires forall k, p :: k in objs && p in objs[k].pages ==> Kept(disk, disk2, p)
    ensures ObjectsOk(disk2, objs, free2, all2, nw)
  {
    forall k | k in objs ensures ObjOk(disk2, objs[k], k, free2, all2, nw) {
      assert ObjOk(disk, objs[k], k, free, all, nw);
      StoresFrame(disk, disk2, objs[k].pages, objs[k].data, nw, true);
    }
  }

  lemma {:induction false} MineKept(disk: Disk, free: seq<int>, all: nat, disk2: Disk, free2: seq<int>, all2: nat, p: int,
                                    objs: map<int, Obj>, pages: seq<int>, nw: nat)
    requires 0 < nw && ObjectsOk(disk, objs, free, all, nw) && Mine(pages, free, objs, all)
    requires Allocated(disk, free, all, disk2, free2, all2, p)
    ensures ObjectsOk(disk2, objs, free2, all2, nw) && Mine(pages + [p], free2, objs, all2)
    ensures forall q :: q in pages ==> Kept(disk, disk2, q)
  {
    forall k, q | k in objs && q in objs[k].pages ensures Kept(disk, disk2, q) {
      assert ObjOk(disk, objs[k], k, free, all, nw);
    }
    forall k | k in objs ensures p !in objs[k].pages {
      assert ObjOk(disk, objs[k], k, free, all, nw);
    }
    ObjectsKept(disk, free, all, disk2, free2, all2, objs, nw);
    forall q | q in pages ensures Loose(q, free2, objs, all2) && q != p {
      assert Loose(q, free, objs, all);
    }
    assert Loose(p, free2, objs, all2);
  }

  /** Taking the first page off the free list, and writing to it. */
  lemma {:induction false} FreePopped(disk: Disk, free: seq<int>, all: nat, page: Page)
    requires FreeOk(disk, free, all) && free != []
    ensures var disk2 := disk[free[0] := page];
            && free[0] in disk && disk[free[0]] == FreePage(NextFree(free, 1))
            && FreeOk(disk2, free[1..], all) && Allocated(disk, free, all, disk2, free[1..], all, free[0])
  {
    var disk2, rest := disk[free[0] := page], free[1..];
    assert FreeAt(disk, free, 0);
    assert free[0] in free && forall p :: p in rest ==> p in free;
    assert forall p :: p in rest ==> p != free[0];
    forall i | 0 <= i < |rest| ensures FreeAt(disk2, rest, i) {
      assert FreeAt(disk, free, i + 1);
    }
  }

  /** A chain of distinct free pages that begins where the file says. */
  ghost predicate Reaches(disk: Disk, chain: seq<int>, next: int, all: nat) {
    FreeOk(disk, chain, all) && next == NextFree(chain, 0)
  }

  /** When a free page is put in front of the chain it is in, there is no chain any more. */
  lemma {:induction false} NoChain(disk: Disk, free: seq<int>, all: nat, p: int, disk2: Disk)
    requires FreeOk(disk, free, all) && p in free && disk2 == disk[p := FreePage(NextFree(free, 0))]
    ensures forall chain :: !Reaches(disk2, chain, p, all)
  {
    var i :| 0 <= i < |free| && free[i] == p;
    forall chain: seq<int> ensures !Reaches(disk2, chain, p, all) {
      if Reaches(disk2, chain, p, all) {
        SameChain(disk, free, all, i, chain, i);
        assert false;
      }
    }
  }

  /** Behind p, such a chain would repeat the old one up to p. */
  lemma {:induction false} SameChain(disk: Disk, free: seq<int>, all: nat, i: nat, chain: seq<int>, k: nat)
    requires FreeOk(disk, free, all) && i < |free| && k <= i
    requires Reaches(disk[free[i] := FreePage(NextFree(free, 0))], chain, free[i], all)
    ensures k + 1 < |chain| && chain[0] == free[i] && chain[k + 1] == free[k]
  {
    var disk2 := disk[free[i] := FreePage(NextFree(free, 0))];
    assert free[i] in free && free[k] in free;
    assert chain != [];
    if k == 0 {
      assert FreeAt(disk2, chain, 0);
    } else {
      SameChain(disk, free, all, i, chain, k - 1);
      assert FreeAt(disk2, chain, k);
      assert FreeAt(disk, free, k - 1);
    }
  }

  lemma {:induction false} OneOf(s: seq<int>, i: nat)
    requires Distinct(s) && i < |s|
    ensures s[i] !in s[..i] && s[i] !in s[i + 1..] && s[i] in s[i..] && s[..i + 1] == s[..i] + [s[i]]
  {
    assert s[i..][0] == s[i];
  }

  lemma {:induction false} FreePushed(disk: Disk, free: seq<int>, all: nat, p: int)
    requires FreeOk(disk, free, all) && 0 <= p < all && p !in free
    ensures FreeOk(disk[p := FreePage(NextFree(free, 0))], [p] + free, all)
  {
    var disk2, longer := disk[p := FreePage(NextFree(free, 0))], [p] + free;
    forall i | 0 <= i < |longer| ensures FreeAt(disk2, longer, i) {
      assert 0 < i ==> FreeAt(disk, free, i - 1);
    }
  }

  /** Writing a page that is not free. */
  lemma {:induction false} FreeUntouched(disk: Disk, free: seq<int>, all: nat, p: int, page: Page)
    requires FreeOk(disk, free, all) && p !in free
    ensures FreeOk(disk[p := page], free, all)
  {
    var disk2 := disk[p := page];
    forall i | 0 <= i < |free| ensures FreeAt(disk2, free, i) {
      assert FreeAt(disk, free, i);
    }
  }

  function NewPages(all: nat, n: nat): seq<int> {
    seq(n, i => all + i)
  }

  ghost predicate NewPageAt(disk: Disk, all: nat, k: nat) {
    all + k in disk && disk[all + k] == FreePage(if k + 1 == GROWTH then END else all + k + 1)
  }

  lemma {:induction false} FreeGrown(disk: Disk, all: nat)
    requires forall k {:trigger NewPageAt(disk, all, k)} :: 0 <= k < GROWTH ==> NewPageAt(disk, all, k)
    ensures FreeOk(disk, NewPages(all, GROWTH), all + GROWTH)
  {
    var free := NewPages(all, GROWTH);
    forall i | 0 <= i < |free| ensures FreeAt(disk, free, i) {
      assert NewPageAt(disk, all, i);
    }
  }

  /** Insert into a descending list. */
  function InsertDown(s: seq<int>, p: int): (r: seq<int>)
    ensures |r| == |s| + 1 && forall x :: x in r <==> x in s || x == p
  {
    if s == [] || s[0] < p then [p] + s else [s[0]] + InsertDown(s[1..], p)
  }

  /** The pages in descending order. */
  function SortDown(s: seq<int>): (r: seq<int>)
    ensures |r| == |s| && forall x :: x in r <==> x in s
  {
    if s == [] then [] else InsertDown(SortDown(s[1..]), s[0])
  }

  ghost predicate Descending(s: seq<int>) {
    forall i, j :: 0 <= i < j < |s| ==> s[j] < s[i]
  }

  lemma {:induction false} InsertDescends(s: seq<int>, p: int)
    requires Descending(s) && p !in s
    ensures Descending(InsertDown(s, p))
  {
    if s != [] && p <= s[0] {
      InsertDescends(s[1..], p);
      var r := InsertDown(s[1..], p);
      assert forall i :: 0 <= i < |r| ==> r[i] in r;
      assert forall x :: x in s[1..] ==> x < s[0];
    }
  }

  lemma {:induction false} SortDescends(s: seq<int>)
    requires Distinct(s)
    ensures Descending(SortDown(s))
  {
    if s != [] {
      SortDescends(s[1..]);
      assert s[0] !in s[1..];
      InsertDescends(SortDown(s[1..]), s[0]);
    }
  }

  class ObjectFile {
    const pagesize: nat
    var numallpages: nat
    var numfreepages: int
    var nextpageno: int
    var disk: Disk
    ghost var free: seq<int>
    ghost var objs: map<int, Obj>

    ghost predicate FileOk()
      reads this
    {
      && MIN_PAGE_SIZE <= pagesize <= MAX_PAGE_SIZE
      && FreeOk(disk, free, numallpages) && nextpageno == NextFree(free, 0) && numfreepages == |free|
    }

    /** The file holds the objects, each in pages of its own. */
    ghost predicate Valid()
      reads this
    {
      FileOk() && ObjectsOk(disk, objs, free, numallpages, pagesize - HEAD_SIZE)
    }

    constructor (pagesize: nat)
      requires MIN_PAGE_SIZE <= pagesize <= MAX_PAGE_SIZE
      ensures Valid() && objs == map[] && this.pagesize == pagesize
    {
      this.pagesize := pagesize;
      numallpages, numfreepages, nextpageno, disk, free, objs := 0, 0, END, map[], [], map[];
    }

    /** Read an object: its content, page by page. */
    method GetObject(start: int) returns (ok: bool, data: Bytes)
      requires Valid() && start in objs
      ensures ok && data == objs[start].data
    {
      ghost var nw, o := pagesize - HEAD_SIZE, objs[start];
      assert ObjOk(disk, o, start, free, numallpages, nw);
      data := [];
      var pgno := start;
      ghost var m, rest := 0, o.data;
      assert o.pages[0..] == o.pages && o.pages[0] in o.pages;
      while pgno != END
        invariant m <= |o.pages| && data + rest == o.data && (m < |o.pages| ==> 0 <= pgno)
        invariant if m == |o.pages| then pgno == END && rest == []
                  else pgno == o.pages[m] && Stores(disk, o.pages[m..], rest, nw, m == 0)
        decreases |o.pages| - m
      {
        assert o.pages[m] in o.pages;
        if pgno !in disk || disk[pgno].FreePage? { return false, data; }
        var page := disk[pgno];
        if pgno == start && !page.first { return false, data; }
        if |page.data| + HEAD_SIZE > pagesize { return false, data; }
        assert o.pages[m..][1..] == o.pages[m + 1..];
        rest := rest[|page.data|..];
        data := data + page.data;
        pgno := page.next;
        m := m + 1;
        assert m < |o.pages| ==> o.pages[m] in o.pages;
      }
      ok := true;
    }
  
    /** Append 256 free pages. */
    method GrowPages()
      requires FileOk() && nextpageno == END
      modifies this
      ensures FileOk() && free != [] && numallpages == old(numallpages) + GROWTH && objs == old(objs)
      ensures forall p :: p in free ==> old(numallpages) <= p
      ensures forall p :: p < old(numallpages) ==> Kept(old(disk), disk, p)
    {
      var all := numallpages;
      assert free != [] ==> NextFree(free, 0) in free;
      for i := 0 to GROWTH
        invariant unchanged(`numallpages) && unchanged(`numfreepages) && unchanged(`nextpageno) && unchanged(`free) && unchanged(`objs)
        invariant forall k {:trigger NewPageAt(disk, all, k)} :: 0 <= k < i ==> NewPageAt(disk, all, k)
        invariant forall p :: p < all ==> Kept(old(disk), disk, p)
      {
        ghost var before := disk;
        disk := disk[all + i := FreePage(if i + 1 == GROWTH then nextpageno else all + i + 1)];
        forall k | 0 <= k < i + 1 ensures NewPageAt(disk, all, k) {
          assert k < i ==> NewPageAt(before, all, k);
        }
        forall p | p < all ensures Kept(old(disk), disk, p) {
          assert Kept(old(disk), before, p);
        }
      }
      FreeGrown(disk, all);
      nextpageno := all;
      numallpages := all + GROWTH;
      numfreepages := numfreepages + GROWTH;
      free := NewPages(all, GROWTH);
    }

    /** Hand out a page; it comes as an empty first page of an object. */
    method PageAlloc() returns (p: int)
      requires FileOk()
      modifies this
      ensures FileOk() && objs == old(objs)
      ensures Allocated(old(disk), old(free), old(numallpages), disk, free, numallpages, p)
    {
      if nextpageno == END {
        GrowPages();
      }
      ghost var disk1 := disk;
      p := nextpageno;
      var page := DataPage(true, [], END);
      FreePopped(disk, free, numallpages, page);
      nextpageno := disk[p].next;
      numfreepages := numfreepages - 1;
      disk := disk[p := page];
      free := free[1..];
      forall q | q !in old(free) && q < old(numallpages) ensures Kept(old(disk), disk, q) {
        assert Kept(old(disk), disk1, q) && Kept(disk1, disk, q);
      }
    }

    /** Give a page back. The last page of the file and pages beyond it are refused. Whether the page
        is free already is not noticed, since the test for it (ec_objfile.h:688) takes a readable head
        for an unreadable one: then the chain of free pages runs into a circle. */
    method PageFree(p: int) returns (ret: int)
      requires FileOk() && 0 <= p
      modifies this
      ensures objs == old(objs) && numallpages == old(numallpages)
      ensures ret == if p + 1 < numallpages then 0 else -1
      ensures ret == -1 ==> unchanged(this)
      ensures ret == 0 ==> disk == old(disk)[p := FreePage(NextFree(old(free), 0))] && nextpageno == p
      ensures ret == 0 ==> numfreepages == old(numfreepages) + 1 && free == [p] + old(free)
      ensures FileOk() <==> ret == -1 || p !in old(free)
      ensures ret == 0 && p in old(free) ==> forall chain :: !Reaches(disk, chain, nextpageno, numallpages)
    {
      if p + 1 >= numallpages { return -1; }
      if p in free {
        NoChain(disk, free, numallpages, p, disk[p := FreePage(nextpageno)]);
      } else {
        FreePushed(disk, free, numallpages, p);
      }
      disk := disk[p := FreePage(nextpageno)];
      nextpageno := p;
      numfreepages := numfreepages + 1;
      free := [p] + free;
      assert p in old(free) ==> !Reaches(disk, free, nextpageno, numallpages);
      return 0;
    }

    /** Give pages back, the highest first. */
    method FreePages(pages: seq<int>)
      requires Valid() && Mine(pages, free, objs, numallpages)
      modifies this
      ensures Valid() && objs == old(objs) && numallpages == old(numallpages)
      ensures forall p :: p in free <==> p in old(free) || (p in pages && p + 1 < numallpages)
      ensures forall p :: p !in pages || p + 1 >= numallpages ==> Kept(old(disk), disk, p)
    {
      var sorted := SortDown(pages);
      SortDescends(pages);
      for i := 0 to |sorted|
        invariant Valid() && objs == old(objs) && numallpages == old(numallpages)
        invariant forall p :: p in free <==> p in old(free) || (p in sorted[..i] && p + 1 < numallpages)
        invariant forall p :: p !in pages || p + 1 >= numallpages ==> Kept(old(disk), disk, p)
      {
        var p := sorted[i];
        OneOf(sorted, i);
        assert p in pages && Loose(p, old(free), objs, numallpages);
        ghost var disk0, free0 := disk, free;
        var ret := PageFree(p);
        ObjectsKept(disk0, free0, numallpages, disk, free, numallpages, objs, pagesize - HEAD_SIZE);
        assert sorted[..i + 1] == sorted[..i] + [p];
        forall q | q !in pages || q + 1 >= numallpages ensures Kept(old(disk), disk, q) {
          assert Kept(old(disk), disk0, q);
        }
      }
      assert sorted[..|sorted|] == sorted;
    }
  
    /** The pages of an object, in order. */
    method GetPages(start: int) returns (ret: int, pages: seq<int>)
      requires Valid() && (start == END || start in objs)
      ensures ret == 0 && pages == if start == END then [] else objs[start].pages
    {
      pages := [];
      if start == END { return 0, []; }
      ghost var nw, o := pagesize - HEAD_SIZE, objs[start];
      assert ObjOk(disk, o, start, free, numallpages, nw);
      var pgno := start;
      ghost var m, rest := 0, o.data;
      assert o.pages[0..] == o.pages && o.pages[0] in o.pages;
      while pgno != END
        invariant m <= |o.pages| && pages == o.pages[..m] && (m < |o.pages| ==> 0 <= pgno)
        invariant if m == |o.pages| then pgno == END
                  else pgno == o.pages[m] && Stores(disk, o.pages[m..], rest, nw, m == 0)
        decreases |o.pages| - m
      {
        assert o.pages[m] in o.pages;
        if pgno !in disk || disk[pgno].FreePage? { return -1, pages; }
        if pgno == start && !disk[pgno].first { return -1, pages; }
        assert o.pages[m..][1..] == o.pages[m + 1..];
        rest := rest[|disk[pgno].data|..];
        pages := pages + [pgno];
        pgno := disk[pgno].next;
        m := m + 1;
        assert m < |o.pages| ==> o.pages[m] in o.pages;
      }
      assert o.pages[..|o.pages|] == o.pages;
      ret := 0;
    }

    /** The next page for an object: one it had before, or a new one. */
    method NextPage(queue: seq<int>, ghost used: seq<int>) returns (p: int, rest: seq<int>)
      requires Valid() && Mine(used + queue, free, objs, numallpages)
      modifies this
      ensures Valid() && Mine(used + [p] + rest, free, objs, numallpages) && objs == old(objs)
      ensures rest == if queue == [] then [] else queue[1..]
      ensures queue != [] ==> p == queue[0]
      ensures forall q :: q in used ==> Kept(old(disk), disk, q)
      ensures forall k :: k in objs ==> objs[k].data == old(objs)[k].data
    {
      if queue != [] {
        assert used + [queue[0]] + queue[1..] == used + queue;
        return queue[0], queue[1..];
      }
      ghost var disk0, free0, all0 := disk, free, numallpages;
      assert used + queue == used;
      p := PageAlloc();
      MineKept(disk0, free0, all0, disk, free, numallpages, p, objs, used, pagesize - HEAD_SIZE);
      rest := [];
      assert used + [p] + rest == used + [p];
    }

    /** Write a page that is in no object and not free. */
    method WritePage(p: int, first: bool, data: Bytes, next: int, ghost used: seq<int>)
      requires Valid() && Mine(used, free, objs, numallpages) && p in used
      modifies this`disk
      ensures Valid() && disk == old(disk)[p := DataPage(first, data, next)]
    {
      assert Loose(p, free, objs, numallpages);
      FreeUntouched(disk, free, numallpages, p, DataPage(first, data, next));
      ghost var disk0 := disk;
      disk := disk[p := DataPage(first, data, next)];
      ObjectsKept(disk0, free, numallpages, disk, free, numallpages, objs, pagesize - HEAD_SIZE);
    }
  
    /** Write content into a chain of pages that begins with `first` and goes on with the queue and,
        when that is used up, with new pages. */
    method WriteChain(data: Bytes, first: int, queue0: seq<int>) returns (ghost pages: seq<int>, queue: seq<int>)
      requires Valid() && Mine([first] + queue0, free, objs, numallpages)
      modifies this
      ensures Valid() && objs == old(objs) && Mine(pages + queue, free, objs, numallpages)
      ensures Stores(disk, pages, data, pagesize - HEAD_SIZE, true) && pages[0] == first
    {
      var nw := pagesize - HEAD_SIZE;
      var cur, left := first, data;
      ghost var done: seq<int> := [];
      queue := queue0;
      assert [] + [first] + queue == [first] + queue;
      while true
        invariant Valid() && objs == old(objs) && Mine(done + [cur] + queue, free, objs, numallpages)
        invariant Partly(disk, done, cur, data, nw, true) && left == Rest(data, |done|, nw)
        invariant first == (done + [cur])[0]
        decreases |left|
      {
        Firsts(done, cur, queue);
        if |left| <= nw {
          PartlyLast(disk, done, cur, data, nw, true);
          WritePage(cur, cur == first, left, END, done + [cur] + queue);
          pages := done + [cur];
          return;
        }
        var next;
        ghost var disk0 := disk;
        next, queue := NextPage(queue, done + [cur]);
        PartlyFrame(disk0, disk, done, cur, data, nw, true);
        PartlyMore(disk, done, cur, next, data, nw, true);
        WritePage(cur, cur == first, left[..nw], next, done + [cur] + [next] + queue);
        done := done + [cur];
        cur := next;
        left := left[nw..];
      }
    }

    /** Store content as an object: a new one, or in the pages of an existing one, which grows or
        shrinks to as many pages as it needs. All other objects stay as they are. */
    method WriteObject(data: Bytes, start: int) returns (ret: int, pgnoFirst: int)
      requires Valid() && (start == END || start in objs)
      modifies this
      ensures Valid() && ret == 0
      ensures if start == END then pgnoFirst !in old(objs) else pgnoFirst == start
      ensures pgnoFirst in objs && objs[pgnoFirst].data == data
      ensures |objs[pgnoFirst].pages| == PageCount(|data|, pagesize - HEAD_SIZE)
      ensures objs == old(objs)[pgnoFirst := objs[pgnoFirst]]
    {
      ghost var nw := pagesize - HEAD_SIZE;
      var queue;
      ret, queue := GetPages(start);
      NoEnd(disk, objs, free, numallpages, nw);
      Released(disk, objs, free, numallpages, nw, start, queue);
      objs := Others(objs, start);
      assert [] + queue == queue;
      pgnoFirst, queue := NextPage(queue, []);
      assert [] + [pgnoFirst] + queue == [pgnoFirst] + queue;
      ghost var pages;
      pages, queue := WriteChain(data, pgnoFirst, queue);
      Joined(disk, objs, free, numallpages, nw, pages, queue, data);
      StoresCount(disk, pages, data, nw, true);
      OthersBack(old(objs), start, pgnoFirst, Obj(pages, data));
      objs := objs[pgnoFirst := Obj(pages, data)];
      FreePages(queue);
    }

    /** Delete an object. Its pages are given back, except that the last page of the file is not: an
        object that consists of this page alone stays. */
    method FreeObject(start: int) returns (ret: int)
      requires Valid() && start in objs
      modifies this
      ensures Valid() && ret == 0 && numallpages == old(numallpages)
      ensures objs == if |old(objs)[start].pages| == 1 && start + 1 == numallpages then old(objs) else Others(old(objs), start)
      ensures forall p :: p in free <==> p in old(free) || (p in old(objs)[start].pages && p + 1 < numallpages)
    {
      var queue;
      ret, queue := GetPages(start);
      ghost var nw, o := pagesize - HEAD_SIZE, objs[start];
      NoEnd(disk, objs, free, numallpages, nw);
      Released(disk, objs, free, numallpages, nw, start, queue);
      assert ObjOk(disk, o, start, free, numallpages, nw);
      objs := Others(objs, start);
      FreePages(queue);
      if |o.pages| == 1 && start + 1 == numallpages {
        StaysStored(old(disk), disk, objs, free, numallpages, nw, start, o);
        OthersBack(old(objs), start, start, o);
        assert old(objs)[start := o] == old(objs);
        objs := objs[start := o];
      }
    }
  }

  /** The other objects. */
  function Others(objs: map<int, Obj>, start: int): map<int, Obj> {
    map k | k in objs && k != start :: objs[k]
  }

  /** The pages of an object that is about to be written or freed belong to no other. */
  lemma {:induction false} Released(disk: Disk, objs: map<int, Obj>, free: seq<int>, all: nat, nw: nat, start: int, pages: seq<int>)
    requires 0 < nw && ObjectsOk(disk, objs, free, all, nw)
    requires pages == if start in objs then objs[start].pages else []
    ensures ObjectsOk(disk, Others(objs, start), free, all, nw) && Mine(pages, free, Others(objs, start), all)
    ensures start in objs ==> pages != [] && pages[0] == start
  {
    var others := Others(objs, start);
    forall k | k in others ensures ObjOk(disk, others[k], k, free, all, nw) {
      assert ObjOk(disk, objs[k], k, free, all, nw);
    }
    if start in objs {
      assert ObjOk(disk, objs[start], start, free, all, nw);
    }
  }

  lemma {:induction false} NoEnd(disk: Disk, objs: map<int, Obj>, free: seq<int>, all: nat, nw: nat)
    requires 0 < nw && ObjectsOk(disk, objs, free, all, nw)
    ensures forall k :: k in objs ==> 0 <= k
  {
    forall k | k in objs ensures 0 <= k {
      assert ObjOk(disk, objs[k], k, free, all, nw);
      assert objs[k].pages[0] in objs[k].pages;
    }
  }

  lemma {:induction false} OthersBack(objs: map<int, Obj>, start: int, first: int, o: Obj)
    requires start in objs ==> start == first
    ensures Others(objs, start)[first := o] == objs[first := o]
  {
  }

  lemma {:induction false} StaysStored(disk: Disk, disk2: Disk, others: map<int, Obj>, free: seq<int>, all: nat, nw: nat,
                                       start: int, o: Obj)
    requires 0 < nw && ObjectsOk(disk2, others, free, all, nw) && o.pages == [start] && 0 <= start < all && start !in free
    requires Stores(disk, o.pages, o.data, nw, true) && Kept(disk, disk2, start) && start !in others
    requires forall k :: k in others ==> start !in others[k].pages
    ensures ObjectsOk(disk2, others[start := o], free, all, nw)
  {
    StoresFrame(disk, disk2, o.pages, o.data, nw, true);
    var objs := others[start := o];
    forall k | k in objs ensures ObjOk(disk2, objs[k], k, free, all, nw) {
      assert k != start ==> ObjOk(disk2, others[k], k, free, all, nw);
    }
  }

  lemma {:induction false} Firsts(done: seq<int>, cur: int, queue: seq<int>)
    requires Distinct(done + [cur] + queue)
    ensures cur !in done && ((done + [cur])[0] == cur <==> done == [])
    ensures cur in done + [cur] + queue && (forall p :: p in done ==> p in done + [cur])
  {
    var s := done + [cur] + queue;
    assert s[|done|] == cur;
    assert forall i :: 0 <= i < |done| ==> s[i] == done[i];
  }

  /** The object that has been written joins the others; what is left of its old pages does not. */
  lemma {:induction false} Joined(disk: Disk, others: map<int, Obj>, free: seq<int>, all: nat, nw: nat,
                                 pages: seq<int>, queue: seq<int>, data: Bytes)
    requires 0 < nw && ObjectsOk(disk, others, free, all, nw) && Mine(pages + queue, free, others, all)
    requires Stores(disk, pages, data, nw, true)
    ensures pages[0] !in others
    ensures var objs := others[pages[0] := Obj(pages, data)];
            ObjectsOk(disk, objs, free, all, nw) && Mine(queue, free, objs, all)
  {
    var s := pages + queue;
    assert forall i :: 0 <= i < |pages| ==> s[i] == pages[i];
    assert forall i :: 0 <= i < |queue| ==> s[|pages| + i] == queue[i];
    forall p | p in pages ensures Loose(p, free, others, all) { assert p in s; }
    forall p | p in queue ensures Loose(p, free, others, all) && p !in pages { assert p in s; }
    assert pages[0] in pages;
    forall k | k in others ensures k != pages[0] {
      assert ObjOk(disk, others[k], k, free, all, nw);
      assert others[k].pages[0] in others[k].pages;
    }
    var objs := others[pages[0] := Obj(pages, data)];
    forall k | k in objs ensures ObjOk(disk, objs[k], k, free, all, nw) {
      assert k != pages[0] ==> ObjOk(disk, others[k], k, free, all, nw);
    }
  }
}
