/** The data table: insert records by tag, split pages that grow too large, query by index value. */
module DataTable {
  import opened BPlusTreeModel
  import opened DataChain

  const SUCCESS := 0
  const FAILED := -1

  const PGOPT_NONE := 0
  const PGOPT_UPDATE := 1
  const PGOPT_INSERT := 2

  const SMALL := 10

  /** What inserting a record into a page reports. */
  function Operation(s: map<int, Record>, r: Record): int {
    if r.idx !in s then PGOPT_INSERT else if s[r.idx] == r then PGOPT_NONE else PGOPT_UPDATE
  }

  /** A record that is there already is left alone, one under a known index value replaces the old one,
      any other is added. */
  lemma {:induction false} OperationMeans(s: map<int, Record>, r: Record)
    ensures Operation(s, r) == 0 <==> s[r.idx := r] == s
    ensures Operation(s, r) == 1 <==> r.idx in s && s[r.idx := r] != s
    ensures Operation(s, r) == 2 <==> r.idx !in s
  {
    if r.idx in s {
      assert s[r.idx := r][r.idx] == r;
    } else {
      assert r.idx in s[r.idx := r];
    }
  }

  lemma {:induction false} FoundAt(s: seq<Record>, p: nat)
    requires Rising(s) && p < |s|
    ensures s[p].idx in ByIdx(s) && ByIdx(s)[s[p].idx] == s[p]
  {
    if p != 0 {
      FoundAt(s[1..], p - 1);
    }
  }

  lemma {:induction false} NotFound(s: seq<Record>, k: int)
    requires forall i :: 0 <= i < |s| ==> s[i].idx != k
    ensures k !in ByIdx(s)
  {
    if s != [] {
      NotFound(s[1..], k);
    }
  }

  /** The record belongs at position p, where there is none with its index value. */
  lemma {:induction false} Fresh(s: seq<Record>, p: nat, r: Record)
    requires Rising(s) && p <= |s| && Below(s[..p], r.idx) && (p == |s| || r.idx < s[p].idx)
    ensures Upsert(s, r) == s[..p] + [r] + s[p..] && r.idx !in ByIdx(s)
  {
    UpsertAt(s, p, r);
    assert p < |s| ==> forall i :: p <= i < |s| ==> s[p].idx <= s[i].idx;
    forall i | 0 <= i < |s| ensures s[i].idx != r.idx {
      if i < p {
        assert s[..p][i] == s[i];
      }
    }
    NotFound(s, r.idx);
  }

  lemma {:induction false} Present(s: seq<Record>, p: nat, r: Record)
    requires Rising(s) && p < |s| && s[p].idx == r.idx
    ensures Upsert(s, r) == s[p := r] && r.idx in ByIdx(s) && ByIdx(s)[r.idx] == s[p]
  {
    UpsertAt(s, p, r);
    FoundAt(s, p);
  }

  class DataPage {
    var idxval: int
    var prev: int
    var next: int
    var objs: seq<Record>

    constructor (im: DataImage)
      ensures Image() == im
    {
      idxval, prev, next, objs := im.idxval, im.prev, im.next, im.objs;
    }

    function Image(): DataImage
      reads this
    {
      DataImage(idxval, prev, next, objs)
    }

    /** Insert a record in its place, or replace the one with its index value: try the end first, then scan a
        small page and search a large one by halving. */
    method Insert(obj: Record) returns (nr: int)
      requires Rising(objs)
      modifies this`objs
      ensures objs == Upsert(old(objs), obj)
      ensures nr == Operation(old(ByIdx(objs)), obj)
      ensures nr == PGOPT_NONE ==> objs == old(objs)
    {
      var n := |objs|;
      if n == 0 {
        objs := objs + [obj];
        return PGOPT_INSERT;
      }
      if objs[n - 1].idx < obj.idx {
        Fresh(objs, n, obj);
        objs := objs + [obj];
        return PGOPT_INSERT;
      } else if objs[n - 1].idx == obj.idx {
        Present(objs, n - 1, obj);
        if objs[n - 1] == obj { return PGOPT_NONE; }
        objs := objs[n - 1 := obj];
        return PGOPT_UPDATE;
      }
      if n < SMALL {
        nr := Scan(obj);
      } else {
        nr := Search(obj);
      }
    }

    method Scan(obj: Record) returns (nr: int)
      requires Rising(objs) && objs != [] && obj.idx < objs[|objs| - 1].idx
      modifies this`objs
      ensures objs == Upsert(old(objs), obj)
      ensures nr == Operation(old(ByIdx(objs)), obj)
      ensures nr == PGOPT_NONE ==> objs == old(objs)
    {
      var i := 0;
      while objs[i].idx < obj.idx
        invariant unchanged(this)
        invariant i < |objs| && Below(objs[..i], obj.idx)
        decreases |objs| - i
      {
        i := i + 1;
      }
      nr := Settle(i, obj);
    }

    /** Replace at position i, or insert in front of it. */
    method Settle(i: nat, obj: Record) returns (nr: int)
      requires Rising(objs) && i < |objs| && Below(objs[..i], obj.idx) && obj.idx <= objs[i].idx
      modifies this`objs
      ensures objs == Upsert(old(objs), obj)
      ensures nr == Operation(old(ByIdx(objs)), obj)
      ensures nr == PGOPT_NONE ==> objs == old(objs)
    {
      if objs[i].idx == obj.idx {
        Present(objs, i, obj);
        if objs[i] == obj { return PGOPT_NONE; }
        objs := objs[i := obj];
        return PGOPT_UPDATE;
      }
      Fresh(objs, i, obj);
      objs := objs[..i] + [obj] + objs[i..];
      return PGOPT_INSERT;
    }

    method Search(obj: Record) returns (nr: int)
      requires Rising(objs) && objs != []
      modifies this`objs
      ensures objs == Upsert(old(objs), obj)
      ensures nr == Operation(old(ByIdx(objs)), obj)
      ensures nr == PGOPT_NONE ==> objs == old(objs)
    {
      var nl, nh := 0, |objs| - 1;
      var nm := (nl + nh) / 2;
      while nl <= nh
        invariant unchanged(this)
        invariant 0 <= nl <= nh + 1 <= |objs| && 0 <= nm < |objs|
        invariant Below(objs[..nl], obj.idx) && From(obj.idx + 1, objs[nh + 1..])
        invariant nl <= nh || nm == nl - 1 || nm == nh + 1
        decreases nh - nl
      {
        nm := (nl + nh) / 2;
        if objs[nm].idx == obj.idx {
          Present(objs, nm, obj);
          if objs[nm] == obj { return PGOPT_NONE; }
          objs := objs[nm := obj];
          return PGOPT_UPDATE;
        } else if objs[nm].idx < obj.idx {
          nl := nm + 1;
        } else {
          nh := nm - 1;
        }
      }
      assert nl < |objs| ==> objs[nl] == objs[nl..][0];
      Fresh(objs, nl, obj);
      assert nm == nl - 1 ==> objs[..nl][nm] == objs[nm];
      if objs[nm].idx > obj.idx {
        objs := objs[..nm] + [obj] + objs[nm..];
      } else {
        objs := objs[..nm + 1] + [obj] + objs[nm + 1..];
      }
      return PGOPT_INSERT;
    }

    /** Cut the page where its encoding reaches the split point, unless that is at its end. */
    method SplitPage(sz: Codec, pgsize: nat, binc: bool) returns (left: nat, second: seq<Record>)
      requires 4 <= pgsize
      modifies this`objs
      ensures left == 0 ==> objs == old(objs) && second == []
      ensures left == 0 ==> old(objs) == [] || Encoded(sz, old(objs)[..|old(objs)| - 1]) < SplitPoint(pgsize, binc)
      ensures 0 < left ==> left < |old(objs)| && objs == old(objs)[..left] && second == old(objs)[left..]
      ensures 0 < left ==> Encoded(sz, old(objs)[..left - 1]) < SplitPoint(pgsize, binc) <= Encoded(sz, objs)
    {
      var zl, i, n := 0, 0, |objs|;
      var zsp := SplitPoint(pgsize, binc);
      assert objs[..0] == [];
      while i < n
        invariant 0 <= i <= n && unchanged(this) && zl == Encoded(sz, objs[..i])
        invariant (i == 0 || zl < zsp) && (i == n ==> n == 0)
        decreases n - i
      {
        EncodedTake(sz, objs, i);
        zl := zl + sz(objs[i], if i == 0 then None else Some(objs[i - 1]));
        if zl >= zsp || i == n - 1 {
          assert objs[..i + 1][..i] == objs[..i];
          if i + 1 < n {
            second := objs[i + 1..];
            objs := objs[..i + 1];
            return i + 1, second;
          }
          return 0, [];
        }
        i := i + 1;
      }
      return 0, [];
    }
  }

  /** Rising insertion splits late, at three quarters of a page; any other at one quarter. */
  function SplitPoint(pgsize: nat, binc: bool): nat {
    if binc then pgsize / 2 + pgsize / 4 else pgsize / 4
  }

  /** How far records and pages may differ for every split to succeed. */
  ghost predicate SizesOk(sz: Codec, pgsize: nat, most: nat) {
    Bounded(sz, most) && 3 * most < pgsize / 4 && HEAD_SIZE + RESERVE + most <= pgsize / 4
  }

  lemma {:induction false} Quarters(pgsize: nat, binc: bool) returns (q: nat)
    ensures q == pgsize / 4 && q <= SplitPoint(pgsize, binc) <= pgsize - q
  {
    q := pgsize / 4;
  }

  /** With sizes bounded, a page that has just grown too large is split, and both halves fit. */
  lemma {:induction false} HalvesFit(sz: Codec, pgsize: nat, most: nat, u: seq<Record>, left: nat, binc: bool)
    requires SizesOk(sz, pgsize, most) && u != []
    requires HEAD_SIZE + Encoded(sz, u) < pgsize + 2 * most && pgsize <= HEAD_SIZE + RESERVE + Encoded(sz, u)
    requires left == 0 ==> Encoded(sz, u[..|u| - 1]) < SplitPoint(pgsize, binc)
    requires 0 < left ==> left < |u| && Encoded(sz, u[..left - 1]) < SplitPoint(pgsize, binc) <= Encoded(sz, u[..left])
    ensures 0 < left && Fits(sz, pgsize, u[..left]) && Fits(sz, pgsize, u[left..])
  {
    var q := Quarters(pgsize, binc);
    Splits(sz, pgsize, most, u, left, q, SplitPoint(pgsize, binc));
    if 0 < left {
      BothFit(sz, pgsize, most, u, left, q, SplitPoint(pgsize, binc));
    }
  }

  lemma {:induction false} Splits(sz: Codec, pgsize: nat, most: nat, u: seq<Record>, left: nat, q: nat, point: int)
    requires Bounded(sz, most) && u != [] && HEAD_SIZE + RESERVE + most <= q && point <= pgsize - q
    requires pgsize <= HEAD_SIZE + RESERVE + Encoded(sz, u)
    requires left == 0 ==> Encoded(sz, u[..|u| - 1]) < point
    ensures 0 < left
  {
    var n := |u| - 1;
    EncodedTake(sz, u, n);
    assert u[..n + 1] == u;
  }

  lemma {:induction false} BothFit(sz: Codec, pgsize: nat, most: nat, u: seq<Record>, left: nat, q: nat, point: int)
    requires Bounded(sz, most) && 3 * most < q && HEAD_SIZE + RESERVE + most <= q && q <= point <= pgsize - q
    requires HEAD_SIZE + Encoded(sz, u) < pgsize + 2 * most
    requires 0 < left < |u| && Encoded(sz, u[..left - 1]) < point <= Encoded(sz, u[..left])
    ensures Fits(sz, pgsize, u[..left]) && Fits(sz, pgsize, u[left..])
  {
    EncodedTake(sz, u, left - 1);
    assert u == u[..left] + u[left..];
    EncodedConcat(sz, most, u[..left], u[left..]);
  }

  /** The search of the index tree: the entry with the greatest key at or below k, or the first. */
  function FloorPos(s: seq<Item>, k: int): (p: nat)
    requires s != [] && Ascending(s)
    ensures IsFloorPos(s, k, p)
  {
    if |s| == 1 || k < s[1].idxv then 0 else 1 + FloorPos(s[1..], k)
  }

  /** The records handed to a callback that asks to stop at some of them. */
  function UpTo(s: seq<Record>, stop: Record -> bool): seq<Record> {
    if s == [] then [] else if stop(s[0]) then [s[0]] else [s[0]] + UpTo(s[1..], stop)
  }

  ghost predicate NoStop(s: seq<Record>, stop: Record -> bool) {
    forall i :: 0 <= i < |s| ==> !stop(s[i])
  }

  lemma {:induction false} UpToAll(a: seq<Record>, b: seq<Record>, stop: Record -> bool)
    requires NoStop(a, stop)
    ensures UpTo(a, stop) == a && UpTo(a + b, stop) == a + UpTo(b, stop)
  {
    if a == [] {
      assert a + b == b;
    } else {
      UpToAll(a[1..], b, stop);
      assert (a + b)[0] == a[0] && (a + b)[1..] == a[1..] + b;
      assert a == [a[0]] + a[1..];
      assert [a[0]] + (a[1..] + UpTo(b, stop)) == a + UpTo(b, stop);
    }
  }

  lemma {:induction false} UpToStops(a: seq<Record>, b: seq<Record>, stop: Record -> bool)
    requires !NoStop(a, stop)
    ensures UpTo(a + b, stop) == UpTo(a, stop)
    ensures UpTo(a, stop) != [] && stop(UpTo(a, stop)[|UpTo(a, stop)| - 1])
  {
    assert (a + b)[0] == a[0] && (a + b)[1..] == a[1..] + b;
    if !stop(a[0]) {
      assert a == [a[0]] + a[1..];
      UpToStops(a[1..], b, stop);
    }
  }

  lemma {:induction false} UpToMembers(a: seq<Record>, stop: Record -> bool)
    ensures forall r :: r in UpTo(a, stop) ==> r in a
  {
    if a != [] {
      UpToMembers(a[1..], stop);
    }
  }

  lemma {:induction false} UpToConcat(a: seq<Record>, b: seq<Record>, stop: Record -> bool)
    ensures NoStop(a, stop) ==> UpTo(a, stop) == a && UpTo(a + b, stop) == a + UpTo(b, stop)
    ensures !NoStop(a, stop) ==> UpTo(a + b, stop) == UpTo(a, stop) && !NoStop(UpTo(a, stop), stop)
    ensures forall r :: r in UpTo(a, stop) ==> r in a
  {
    UpToMembers(a, stop);
    if NoStop(a, stop) {
      UpToAll(a, b, stop);
    } else {
      UpToStops(a, b, stop);
    }
  }

  /** They are the first ones, up to the one at which the callback stops, or all. */
  lemma {:induction false} UpToMeans(s: seq<Record>, stop: Record -> bool)
    ensures var u := UpTo(s, stop);
            && u <= s && (forall i :: 0 <= i < |u| - 1 ==> !stop(u[i]))
            && (|u| < |s| ==> u != [] && stop(u[|u| - 1]))
  {
    if s != [] && !stop(s[0]) {
      UpToMeans(s[1..], stop);
      assert s == [s[0]] + s[1..];
    }
  }

  /** The first m pages have been visited. */
  ghost predicate Visited(c: Chain, k: int, stop: Record -> bool, m: nat, visited: seq<Record>, stopped: bool) {
    && m <= |c|
    && visited == UpTo(Since(Records(c[..m]), k), stop)
    && (stopped <==> !NoStop(visited, stop))
    && (stopped <==> !NoStop(Since(Records(c[..m]), k), stop))
    && (stopped ==> 0 < m && visited[|visited| - 1] in c[m - 1].im.objs)
  }

  /** Where the index leads: nothing at or above k is to the left of it. */
  lemma {:induction false} QueryStart(c: Chain, s: seq<Item>, k: int, p: nat, stop: Record -> bool) returns (j: nat)
    requires ChainOk(c) && Leads(s, c) && IsFloorPos(s, k, p)
    ensures j < |c| && s[p].pgno == c[j].no && Visited(c, k, stop, j, [], false)
  {
    assert s[p] in s && s[p] in IndexOf(c);
    if k < s[p].idxv {
      return 0;
    }
    j :| 0 <= j < |c| && IndexOf(c)[j] == s[p];
    forall i | 0 <= i < j ensures Below(c[..j][i].im.objs, k) {
      assert Precedes(c[i], c[j]);
    }
    RecordsBelow(c[..j], k);
    SinceNone(Records(c[..j]), k);
  }

  lemma {:induction false} SinceAll(s: seq<Record>, k: int)
    requires From(k, s)
    ensures Since(s, k) == s
  {
    if s != [] {
      SinceAll(s[1..], k);
      assert [s[0]] + s[1..] == s;
    }
  }

  lemma {:induction false} EveryRecordSince(c: Chain, k: int)
    requires ChainOk(c)
    ensures k < MIN_IDXV ==> Since(Records(c), k) == Records(c)
  {
    if k < MIN_IDXV {
      forall i | 0 <= i < |c| ensures From(k, c[i].im.objs) {
        assert DataPageOk(c[i]);
        if 0 < i { IdxvalsRise(c, 0, i); }
      }
      RecordsFrom(c, k);
      SinceAll(Records(c), k);
    }
  }

  lemma {:induction false} VisitRecord(objs: seq<Record>, i: nat, k: int, stop: Record -> bool)
    requires i < |objs|
    ensures var rest := UpTo(Since(objs[i + 1..], k), stop);
            UpTo(Since(objs[i..], k), stop)
            == if k <= objs[i].idx then (if stop(objs[i]) then [objs[i]] else [objs[i]] + rest) else rest
  {
    var rest := Since(objs[i + 1..], k);
    assert objs[i..][1..] == objs[i + 1..];
    assert [] + rest == rest && ([objs[i]] + rest)[1..] == rest;
  }

  lemma {:induction false} Shift<T>(a: seq<T>, b: seq<T>, c: seq<T>)
    ensures a + (b + c) == a + b + c
  {
  }

  lemma {:induction false} QueryPage(c: Chain, k: int, stop: Record -> bool, m: nat, visited: seq<Record>, page: seq<Record>)
    requires m < |c| && Visited(c, k, stop, m, visited, false)
    requires page == UpTo(Since(c[m].im.objs, k), stop)
    requires !NoStop(page, stop) ==> page[|page| - 1] in c[m].im.objs
    ensures Visited(c, k, stop, m + 1, visited + page, !NoStop(page, stop))
  {
    var a, b := Since(Records(c[..m]), k), Since(c[m].im.objs, k);
    assert c[..m + 1] == c[..m] + [c[m]];
    RecordsConcat(c[..m], [c[m]]);
    RecordsOne(c[m]);
    SinceConcat(Records(c[..m]), c[m].im.objs, k);
    assert Since(Records(c[..m + 1]), k) == a + b;
    UpToConcat(a, b, stop);
    UpToConcat(b, [], stop);
    assert b + [] == b;
    StopsConcat(a, b, stop);
    StopsConcat(visited, page, stop);
  }

  lemma {:induction false} StopsConcat(a: seq<Record>, b: seq<Record>, stop: Record -> bool)
    ensures NoStop(a + b, stop) <==> NoStop(a, stop) && NoStop(b, stop)
  {
    assert forall i :: 0 <= i < |a| ==> (a + b)[i] == a[i];
    assert forall i :: 0 <= i < |b| ==> (a + b)[|a| + i] == b[i];
  }

  lemma {:induction false} QueryEnd(c: Chain, k: int, stop: Record -> bool, m: nat, visited: seq<Record>, stopped: bool)
    requires InOrder(c) && Visited(c, k, stop, m, visited, stopped) && c != [] && (stopped || m == |c|)
    ensures visited == UpTo(Since(Records(c), k), stop)
    ensures m == |c| <==> NoStop(visited, stop) || visited[|visited| - 1] in c[|c| - 1].im.objs
  {
    assert c == c[..m] + c[m..];
    RecordsConcat(c[..m], c[m..]);
    SinceConcat(Records(c[..m]), Records(c[m..]), k);
    UpToConcat(Since(Records(c[..m]), k), Since(Records(c[m..]), k), stop);
    assert c[|c|..] == [];
    if m < |c| {
      assert Precedes(c[m - 1], c[|c| - 1]) && DataPageOk(c[|c| - 1]);
    }
  }

  /** A change to one tag leaves the chains of the others as they were. */
  ghost predicate OthersSame(before: map<string, Chain>, after: map<string, Chain>, tag: string) {
    forall u :: u != tag ==> (u in before <==> u in after) && (u in before ==> before[u] == after[u])
  }

  lemma {:induction false} OneChanged(before: map<string, Chain>, tag: string, c: Chain)
    ensures OthersSame(before, before[tag := c], tag) && OthersSame(before, before, tag)
  {
  }

  lemma {:induction false} NewChain(c: Chain, r: Record, sz: Codec, pgsize: nat, most: nat)
    requires |c| == 1 && c[0].im == DataImage(0, NO_PAGE, NO_PAGE, [r]) && 0 <= r.idx && 0 <= c[0].no
    requires SizesOk(sz, pgsize, most)
    ensures ChainOk(c) && AllFit(sz, pgsize, c) && Fits(sz, pgsize, [r]) && Records(c) == [r]
    ensures IndexOf(c) == [Item(0, c[0].no)] && Leads(IndexOf(c), c) && Nos(c) == {c[0].no}
  {
    assert DataPageOk(c[0]) && LinkedAt(c, 0);
    EncodedPositive(sz, most, [r]);
    assert c == [c[0]];
    RecordsOne(c[0]);
    FullIndexLeads(c);
  }

  /** Up to the second key of the index every lookup ends at this page. */
  ghost predicate LeadsTo(s: seq<Item>, no: int) {
    s != [] && Ascending(s) && forall k :: MIN_IDXV <= k && (1 < |s| ==> k < s[1].idxv) ==> s[FloorPos(s, k)].pgno == no
  }

  /** A new page under the least key takes the place of the first one. */
  lemma {:induction false} Repointed(s: seq<Item>, c: Chain, no: int)
    requires ChainOk(c) && Leads(s, c)
    ensures LeadsTo(InsertSorted(s, Item(MIN_IDXV, no)), no)
  {
    var t := [Item(MIN_IDXV, no)] + s[1..];
    assert s[0].idxv == MIN_IDXV;
    assert Ascending(t);
    forall k | MIN_IDXV <= k && (1 < |t| ==> k < t[1].idxv) ensures t[FloorPos(t, k)].pgno == no {
      assert FloorPos(t, k) == 0;
    }
  }

  /** Writing a page that is free again changes no chain. */
  lemma {:induction false} NewPageUnused(pages: map<int, DataImage>, avail: seq<int>, index: map<string, seq<Item>>, chains: map<string, Chain>,
                      sz: Codec, pgsize: nat, pages2: map<int, DataImage>, no: int)
    requires Sound(pages, avail, index, chains, sz, pgsize) && no in avail
    requires forall n :: n in pages && n != no ==> n in pages2 && pages2[n] == pages[n]
    ensures Sound(pages2, avail, index, chains, sz, pgsize)
  {
    forall t | t in chains ensures TagOk(pages2, chains[t], sz, pgsize) {
      assert TagOk(pages, chains[t], sz, pgsize);
      forall i | 0 <= i < |chains[t]| ensures chains[t][i].no in pages2 && pages2[chains[t][i].no] == chains[t][i].im {
        NoInNos(chains[t], i);
      }
    }
  }

  /** What may be known of the chain with a page rewritten: its pages have kept their places. */
  ghost predicate SamePlaces(c: Chain, d: Chain) {
    DoublyLinked(d) && IndexOf(d) == IndexOf(c) && Nos(d) == Nos(c)
  }

  /** The writes of a split store the chain, grown by the allocated page. */
  lemma {:induction false} SplitParts(pages: map<int, DataImage>, avail: seq<int>, chains: map<string, Chain>,
      sz: Codec, pgsize: nat, pages2: map<int, DataImage>, tag: string, j: nat, u: seq<Record>, left: nat, e: Chain)
    requires avail != [] && Spare(avail, chains) && tag in chains && j < |chains[tag]| && 0 < left < |u|
    requires TagOk(pages, chains[tag], sz, pgsize)
    requires e == SplitChain(WithObjs(chains[tag], j, u), j, left, avail[0])
    requires DoublyLinked(e) && Nos(e) == Nos(chains[tag]) + {avail[0]}
    requires Fits(sz, pgsize, u[..left]) && Fits(sz, pgsize, u[left..])
    requires SplitWrites(pages, pages2, chains[tag][j].no, chains[tag][j].im.(objs := u), left, avail[0])
    ensures LooseTag(pages2, e, sz, pgsize) && Grown(chains, tag, e, avail, avail[1..])
    ensures forall no :: no in pages && no !in Nos(e) ==> no in pages2 && pages2[no] == pages[no]
  {
    assert avail[0] in avail;
    StoredSplit(pages, pages2, chains[tag], j, u, left, avail[0]);
    SplitFits(chains[tag], j, u, left, avail[0], sz, pgsize);
  }

  /** The table after a split, before and after the index gets its new entry s2. */
  lemma {:induction false} SplitStored(pages: map<int, DataImage>, avail: seq<int>, index: map<string, seq<Item>>,
      chains: map<string, Chain>, sz: Codec, pgsize: nat,
      pages2: map<int, DataImage>, tag: string, j: nat, u: seq<Record>, left: nat, e: Chain, s2: seq<Item>)
    requires Sound(pages, avail, index, chains, sz, pgsize) && avail != []
    requires tag in chains && j < |chains[tag]| && 0 < left < |u|
    requires SamePlaces(chains[tag], WithObjs(chains[tag], j, u))
    requires Fits(sz, pgsize, u[..left]) && Fits(sz, pgsize, u[left..])
    requires SplitWrites(pages, pages2, chains[tag][j].no, chains[tag][j].im.(objs := u), left, avail[0])
    requires e == SplitChain(WithObjs(chains[tag], j, u), j, left, avail[0])
    ensures Records(e) == Records(WithObjs(chains[tag], j, u))
    ensures SoundBut(pages2, avail[1..], index, chains[tag := e], sz, pgsize, tag)
    ensures SoundBut(pages2, avail[1..], index[tag := s2], chains[tag := e], sz, pgsize, tag)
    ensures LooseTag(pages2, e, sz, pgsize)
  {
    var d := WithObjs(chains[tag], j, u);
    assert TagOk(pages, chains[tag], sz, pgsize) && avail[0] in avail;
    SplitRecords(d, j, left, avail[0]);
    SplitLinks(d, j, left, avail[0]);
    DataChain.SplitNos(d, j, left, avail[0]);
    SplitParts(pages, avail, chains, sz, pgsize, pages2, tag, j, u, left, e);
    SoundButUpdate(pages, avail, index, chains, sz, pgsize, pages2, avail[1..], tag, index[tag], e);
    SameEntry(index, tag);
    SoundButUpdate(pages, avail, index, chains, sz, pgsize, pages2, avail[1..], tag, s2, e);
  }

  /** If the chain is in order, so it is after the split, and the index leads into it. */
  lemma {:induction false} SplitInOrder(c: Chain, j: nat, u: seq<Record>, left: nat, newno: int, s: seq<Item>, e: Chain)
    requires ChainOk(c) && Leads(s, c) && j < |c| && 0 < left < |u|
    requires SamePlaces(c, WithObjs(c, j, u)) && ChainOk(WithObjs(c, j, u)) && newno !in Nos(c)
    requires e == SplitChain(WithObjs(c, j, u), j, left, newno)
    ensures ChainOk(e) && Leads(s, e) && Leads(InsertSorted(s, Item(u[left].idx, newno)), e)
    ensures s == IndexOf(c) ==> InsertSorted(s, Item(u[left].idx, newno)) == IndexOf(e)
  {
    var d := WithObjs(c, j, u);
    var it := Item(u[left].idx, newno);
    SplitKeepsChain(d, j, left, newno);
    SplitLeads(c, j, u, left, newno);
    forall x | x in s ensures x in IndexOf(e) {
      assert x in IndexOf(c);
    }
    assert e[0].no == c[0].no && e[0].im.idxval == c[0].im.idxval;
    assert e[j + 1].no == newno && e[j + 1].im.idxval == u[left].idx;
    assert IndexOf(e)[j + 1] == it;
    IdxvalsRise(e, 0, j + 1);
    EntryAdded(s, e, it);
  }

  /** A sound table but for one tag is sound when that tag is. */
  lemma {:induction false} SoundAgain(pages: map<int, DataImage>, avail: seq<int>, index: map<string, seq<Item>>,
      chains: map<string, Chain>, sz: Codec, pgsize: nat, tag: string)
    requires SoundBut(pages, avail, index, chains, sz, pgsize, tag)
    requires ChainOk(chains[tag]) && Leads(index[tag], chains[tag])
    ensures Sound(pages, avail, index, chains, sz, pgsize)
  {
  }

  lemma {:induction false} RightNeighbour(pages: map<int, DataImage>, avail: seq<int>, chains: map<string, Chain>,
      sz: Codec, pgsize: nat, tag: string, j: nat)
    requires tag in chains && TagOk(pages, chains[tag], sz, pgsize) && Spare(avail, chains) && j < |chains[tag]|
    ensures var next := chains[tag][j].im.next;
            next != NO_PAGE ==> next in pages && Fits(sz, pgsize, pages[next].objs) && next !in avail
    ensures Spare(avail, map[])
  {
    assert LinkedAt(chains[tag], j);
    if j + 1 < |chains[tag]| { NoInNos(chains[tag], j + 1); }
  }

  lemma {:induction false} BackStored(pages: map<int, DataImage>, avail: seq<int>, index: map<string, seq<Item>>,
      chains: map<string, Chain>, sz: Codec, pgsize: nat, tag: string, j: nat, objs: seq<Record>, d: Chain)
    requires Sound(pages, avail, index, chains, sz, pgsize)
    requires tag in chains && j < |chains[tag]| && Fits(sz, pgsize, objs)
    requires d == WithObjs(chains[tag], j, objs) && SamePlaces(chains[tag], d)
    ensures var c := chains[tag];
            var pages2 := pages[c[j].no := c[j].im.(objs := objs)];
            && SoundBut(pages2, avail, index, chains[tag := d], sz, pgsize, tag)
            && (ChainOk(d) ==> Sound(pages2, avail, index, chains[tag := d], sz, pgsize))
            && (Indexed(index, chains) ==> Indexed(index, chains[tag := d]))
  {
    var c := chains[tag];
    assert TagOk(pages, c, sz, pgsize);
    var pages2 := pages[c[j].no := c[j].im.(objs := objs)];
    StoredInPage(pages, c, j, objs);
    NoInNos(c, j);
    SoundButUpdate(pages, avail, index, chains, sz, pgsize, pages2, avail, tag, index[tag], d);
    SameEntry(index, tag);
    assert d[0].no == c[0].no && d[0].im.idxval == c[0].im.idxval;
    if ChainOk(d) {
      SoundAgain(pages2, avail, index, chains[tag := d], sz, pgsize, tag);
    }
  }

  lemma {:induction false} SameEntry(index: map<string, seq<Item>>, tag: string)
    requires tag in index
    ensures index[tag := index[tag]] == index
  {
  }

  lemma {:induction false} SplitFits(c: Chain, j: nat, u: seq<Record>, left: nat, newno: int, sz: Codec, pgsize: nat)
    requires AllFit(sz, pgsize, c) && j < |c| && 0 < left < |u|
    requires Fits(sz, pgsize, u[..left]) && Fits(sz, pgsize, u[left..])
    requires (forall i :: 0 <= i < |c| ==> 0 <= c[i].no) && 0 <= newno
    ensures var e := SplitChain(WithObjs(c, j, u), j, left, newno);
            AllFit(sz, pgsize, e) && forall i :: 0 <= i < |e| ==> 0 <= e[i].no
  {
    var e := SplitChain(WithObjs(c, j, u), j, left, newno);
    forall i | 0 <= i < |e| ensures Fits(sz, pgsize, e[i].im.objs) && 0 <= e[i].no {
      if j + 2 <= i {
        assert e[i] == Behind(WithObjs(c, j, u)[j + 1..], newno)[i - j - 2];
      }
    }
  }

  /** The old index still leads into the chain. */
  lemma {:induction false} SplitLeads(c: Chain, j: nat, u: seq<Record>, left: nat, newno: int)
    requires ChainOk(c) && j < |c| && 0 < left < |u|
    ensures Leads(IndexOf(c), SplitChain(WithObjs(c, j, u), j, left, newno))
  {
    var e := SplitChain(WithObjs(c, j, u), j, left, newno);
    IndexAscending(c);
    forall i | 0 <= i < |c| ensures IndexOf(c)[i] in IndexOf(e) {
      var k := if i <= j then i else i + 1;
      assert j + 2 <= k ==> e[k] == Behind(WithObjs(c, j, u)[j + 1..], newno)[k - j - 2];
      assert IndexOf(e)[k] == IndexOf(c)[i];
    }
  }

  /** The page the index names for k covers it: k is below the first index value of the next page of
      the chain. A full index always names that page; one that lacks an entry may not. */
  predicate InPlace(c: Chain, s: seq<Item>, k: int)
    requires s != [] && Ascending(s)
  {
    var j := Position(c, s[FloorPos(s, k)].pgno);
    j + 1 < |c| ==> k < c[j + 1].im.idxval
  }

  /** What inserting r has made of the records: in its place it is the insertion into a rising list;
      out of place the records no longer rise. */
  ghost predicate Inserted(before: seq<Record>, after: seq<Record>, r: Record, misplaced: bool) {
    if misplaced then !Rising(after) && after != Upsert(before, r) else Rising(after) && after == Upsert(before, r)
  }

  /** The page the index names, and whether it is the one that covers the value. */
  lemma {:induction false} NamedByIndex(c: Chain, s: seq<Item>, k: int)
    requires ChainOk(c) && Leads(s, c) && MIN_IDXV <= k
    ensures var j := Position(c, s[FloorPos(s, k)].pgno);
            && j < |c| && c[j].im.idxval <= k
            && (InPlace(c, s, k) <==> Covers(c, j, k))
  {
    var p := FloorPos(s, k);
    assert s[p] in s;
    NamedPage(c, s[p]);
    var j := Position(c, s[p].pgno);
    assert IndexOf(c)[j].idxv == c[j].im.idxval;
  }

  lemma {:induction false} FullIndexInPlace(c: Chain, k: int)
    requires ChainOk(c) && MIN_IDXV <= k
    ensures Leads(IndexOf(c), c) && InPlace(c, IndexOf(c), k)
  {
    FullIndexLeads(c);
    var s := IndexOf(c);
    var p := FloorPos(s, k);
    NamedByIndex(c, s, k);
    var j := Position(c, s[p].pgno);
    if j != p {
      ChainNosDistinct(c, j, p);
    }
    FloorCovers(c, k, p);
  }

  /** After a split whose page the index has refused, exactly the values from that page's first index
      value up to the next page's are out of place. */
  lemma {:induction false} AfterRefusal(d: Chain, j: nat, left: nat, newno: int, k: int)
    requires ChainOk(d) && j < |d| && 0 < left < |d[j].im.objs| && newno !in Nos(d) && MIN_IDXV <= k
    ensures var e := SplitChain(d, j, left, newno);
            && Leads(IndexOf(d), e)
            && (InPlace(e, IndexOf(d), k)
                <==> k < d[j].im.objs[left].idx || (j + 1 < |d| && d[j + 1].im.idxval <= k))
  {
    var e := SplitChain(d, j, left, newno);
    SplitKeepsChain(d, j, left, newno);
    assert WithObjs(d, j, d[j].im.objs) == d;
    SplitLeads(d, j, d[j].im.objs, left, newno);
    IndexAscending(d);
    var p := FloorPos(IndexOf(d), k);
    NamedByIndex(e, IndexOf(d), k);
    var i := if p <= j then p else p + 1;
    SplitNumbers(d, j, left, newno, i);
    var q := Position(e, IndexOf(d)[p].pgno);
    if q != i {
      ChainNosDistinct(e, q, i);
    }
    FloorCovers(d, k, p);
    SplitCovers(d, j, left, newno, k, p, i);
  }

  lemma {:induction false} SplitCovers(d: Chain, j: nat, left: nat, newno: int, k: int, p: nat, i: nat)
    requires InOrder(d) && j < |d| && 0 < left < |d[j].im.objs| && Covers(d, p, k)
    requires i == if p <= j then p else p + 1
    ensures var e := SplitChain(d, j, left, newno);
            (i + 1 < |e| ==> k < e[i + 1].im.idxval) <==> k < d[j].im.objs[left].idx || (j + 1 < |d| && d[j + 1].im.idxval <= k)
  {
    var e := SplitChain(d, j, left, newno);
    assert DataPageOk(d[j]);
    assert j + 1 < |d| ==> Precedes(d[j], d[j + 1]);
    if p > j {
      if j + 1 < p { IdxvalsRise(d, j + 1, p); }
      if i + 1 < |e| { assert e[i + 1] == Behind(d[j + 1..], newno)[i - j - 1]; }
    } else if p < j {
      if p + 1 < j { IdxvalsRise(d, p + 1, j); }
    }
  }

  /** The first record of the page that the index has refused is out of place. */
  lemma {:induction false} RefusedIsMisplaced(d: Chain, j: nat, left: nat, newno: int, e: Chain, s: seq<Item>)
    requires ChainOk(d) && j < |d| && 0 < left < |d[j].im.objs| && newno !in Nos(d)
    requires e == SplitChain(d, j, left, newno) && s == IndexOf(d)
    ensures j + 1 < |e| && s != [] && Ascending(s) && !InPlace(e, s, e[j + 1].im.idxval)
  {
    var k := d[j].im.objs[left].idx;
    SplitNumbers(d, j, left, newno, j + 1);
    assert DataPageOk(d[j]);
    if 0 < j { IdxvalsRise(d, 0, j); }
    assert MIN_IDXV <= k;
    if j + 1 < |d| { assert Precedes(d[j], d[j + 1]); }
    AfterRefusal(d, j, left, newno, k);
  }

  /** A table of two pages whose second one the index has refused: the record 25 goes in front of 20. */
  lemma {:induction false} RefusalBreaksOrder()
    ensures var c0: Chain := [DPg(0, DataImage(0, NO_PAGE, NO_PAGE, [Record(10, []), Record(20, []), Record(30, [])]))];
            var c := SplitChain(c0, 0, 1, 1);
            var s := [Item(0, 0)];
            && ChainOk(c0) && IndexOf(c0) == s
            && ChainOk(c) && Leads(s, c) && !InPlace(c, s, 25)
            && Records(WithObjs(c, 0, Upsert(c[0].im.objs, Record(25, []))))
               == [Record(10, []), Record(25, []), Record(20, []), Record(30, [])]
  {
    var objs := [Record(10, []), Record(20, []), Record(30, [])];
    var c0: Chain := [DPg(0, DataImage(0, NO_PAGE, NO_PAGE, objs))];
    assert DataPageOk(c0[0]) && LinkedAt(c0, 0);
    assert c0[1..] == [];
    assert Nos(c0) == {0} by {
      assert forall p :: p in c0 ==> p.no == 0;
      assert c0[0] in c0;
    }
    SplitKeepsChain(c0, 0, 1, 1);
    AfterRefusal(c0, 0, 1, 1, 25);
    var c := SplitChain(c0, 0, 1, 1);
    assert IndexOf(c0) == [Item(0, 0)];
    assert objs[..1] == [Record(10, [])] && objs[1..] == [Record(20, []), Record(30, [])];
    assert c[0].im.objs == [Record(10, [])] && c[1].im.objs == [Record(20, []), Record(30, [])];
    var d := WithObjs(c, 0, Upsert(c[0].im.objs, Record(25, [])));
    assert [Record(10, [])][1..] == [];
    assert Upsert(c[0].im.objs, Record(25, [])) == [Record(10, []), Record(25, [])];
    assert |d| == 2 && d[1..] == [d[1]] && d[1..][1..] == [];
    RecordsOne(d[1]);
  }

  class DataTable {
    const pgsize: nat
    const sz: Codec
    var pages: map<int, DataImage>
    var avail: seq<int>
    var index: map<string, seq<Item>>
    ghost var chains: map<string, Chain>

    /** Enough for queries. */
    ghost predicate SoundTable()
      reads this
    {
      Sound(pages, avail, index, chains, sz, pgsize)
    }

    /** Sound, and every page of every chain is in the index. */
    ghost predicate Valid()
      reads this
    {
      SoundTable() && Indexed(index, chains)
    }

    /** All tags but one are sound, and that one's pages are linked and stored. */
    ghost predicate SoundButFor(tag: string)
      reads this
    {
      SoundBut(pages, avail, index, chains, sz, pgsize, tag)
    }

    /** The index leads a value to a page it does not belong to. */
    ghost predicate Misplaced(tag: string, k: int)
      reads this
    {
      && tag in index && tag in chains && index[tag] != [] && Ascending(index[tag])
      && !InPlace(chains[tag], index[tag], k)
    }

    /** A tag's records, in the order of its pages. */
    ghost function RecordsOf(tag: string): seq<Record>
      reads this
    {
      if tag in chains then Records(chains[tag]) else []
    }

    constructor (pgsize: nat, sz: Codec, avail: seq<int>)
      requires forall i :: 0 <= i < |avail| ==> 0 <= avail[i]
      requires forall i, j :: 0 <= i < j < |avail| ==> avail[i] != avail[j]
      ensures Valid() && this.pgsize == pgsize && this.sz == sz && this.avail == avail
      ensures forall tag :: RecordsOf(tag) == []
    {
      this.pgsize, this.sz, this.avail := pgsize, sz, avail;
      pages, index, chains := map[], map[], map[];
    }

    /** Hand one page's records at or above idxv to the callback. */
    method VisitPage(objs: seq<Record>, idxv: int, stop: Record -> bool) returns (visited: seq<Record>, stopped: bool)
      ensures visited == UpTo(Since(objs, idxv), stop) && (stopped <==> !NoStop(visited, stop))
      ensures stopped ==> visited[|visited| - 1] in objs
    {
      visited, stopped := [], false;
      assert objs[0..] == objs;
      for i := 0 to |objs|
        invariant visited + UpTo(Since(objs[i..], idxv), stop) == UpTo(Since(objs, idxv), stop)
        invariant NoStop(visited, stop)
      {
        VisitRecord(objs, i, idxv, stop);
        if idxv <= objs[i].idx {
          Shift(visited, [objs[i]], UpTo(Since(objs[i + 1..], idxv), stop));
          visited := visited + [objs[i]];
          if stop(objs[i]) {
            assert !NoStop(visited, stop) by { assert stop(visited[|visited| - 1]); }
            return visited, true;
          }
        }
      }
    }

    /** Follow the chain from page j on. */
    method QueryPages(first: int, idxv: int, stop: Record -> bool, ghost c: Chain, ghost j: nat)
      returns (visited: seq<Record>, end: bool)
      requires TagOk(pages, c, sz, pgsize) && j < |c| && first == c[j].no && Visited(c, idxv, stop, j, [], false)
      ensures visited == UpTo(Since(Records(c), idxv), stop)
      ensures end <==> NoStop(visited, stop) || visited[|visited| - 1] in c[|c| - 1].im.objs
    {
      visited, end := [], false;
      var pgno, stopped := first, false;
      ghost var m := j;
      while pgno >= 0 && !stopped
        invariant Visited(c, idxv, stop, m, visited, stopped) && pgno == NoAt(c, m)
        decreases |c| - m
      {
        assert LinkedAt(c, m);
        var im := pages[pgno];
        var page;
        page, stopped := VisitPage(im.objs, idxv, stop);
        QueryPage(c, idxv, stop, m, visited, page);
        visited := visited + page;
        pgno := im.next;
        m := m + 1;
      }
      QueryEnd(c, idxv, stop, m, visited, stopped);
      end := pgno < 0;
    }

    lemma {:induction false} TagFacts(tag: string)
      requires SoundTable() && tag in index
      ensures tag in chains && TagOk(pages, chains[tag], sz, pgsize) && Leads(index[tag], chains[tag])
    {
    }

    /** Hand the records of a tag at or above idxv to a callback, in ascending order, until it asks
        to stop. The end flag says that the last page was reached. All records are at or above a value
        below 0, but the index finds such a value only when its tree has a single level; with more
        levels nothing is handed over. */
    method Query(tag: string, idxv: int, levels: nat, stop: Record -> bool) returns (visited: seq<Record>, end: bool)
      requires SoundTable()
      ensures MIN_IDXV <= idxv || levels <= 1 ==> visited == UpTo(Since(RecordsOf(tag), idxv), stop)
      ensures idxv < MIN_IDXV && levels <= 1 ==> visited == UpTo(RecordsOf(tag), stop)
      ensures idxv < MIN_IDXV && 1 < levels ==> visited == [] && !end
      ensures MIN_IDXV <= idxv || levels <= 1 ==>
                (end <==> tag in chains && (NoStop(visited, stop)
                          || visited[|visited| - 1] in chains[tag][|chains[tag]| - 1].im.objs))
    {
      if tag !in index { return [], false; }
      TagFacts(tag);
      // GetIdx
      if idxv < MIN_IDXV && 1 < levels { return [], false; }
      var p := FloorPos(index[tag], idxv);
      ghost var j := QueryStart(chains[tag], index[tag], idxv, p, stop);
      visited, end := QueryPages(index[tag][p].pgno, idxv, stop, chains[tag], j);
      EveryRecordSince(chains[tag], idxv);
    }

    /** Write a page; it always fits. */
    method WritePage(no: int, im: DataImage)
      requires Fits(sz, pgsize, im.objs)
      modifies this`pages
      ensures pages == old(pages)[no := im]
    {
      pages := pages[no := im];
    }

    /** The first record of a tag gets a page of its own, with index value 0. */
    method InsertNew(tag: string, r: Record, idxOk: bool, ghost most: nat) returns (ret: int)
      requires SoundTable() && tag !in index && MIN_IDXV <= r.idx && SizesOk(sz, pgsize, most)
      modifies this
      ensures SoundTable() && (old(Valid()) ==> Valid()) && OthersSame(old(chains), chains, tag)
      ensures ret == if old(avail) != [] && idxOk then SUCCESS else FAILED
      ensures ret == SUCCESS ==> tag in chains && SoundButFor(tag) && Inserted(old(RecordsOf(tag)), RecordsOf(tag), r, false)
      ensures ret == FAILED ==> index == old(index) && chains == old(chains) && avail == old(avail)
    {
      if avail == [] { return FAILED; }
      var no := avail[0];
      OneChanged(chains, tag, []);
      avail := avail[1..];
      var pg := new DataPage(DataImage(0, NO_PAGE, NO_PAGE, []));
      var nr := pg.Insert(r);
      ghost var c := [DPg(no, pg.Image())];
      NewChain(c, r, sz, pgsize, most);
      WritePage(no, pg.Image());
      if !idxOk {
        avail := [no] + avail;
        assert avail == old(avail);
        NewPageUnused(old(pages), avail, index, chains, sz, pgsize, pages, no);
        return FAILED;
      }
      assert no !in avail;
      SoundUpdate(old(pages), old(avail), index, chains, sz, pgsize, pages, avail, tag, [Item(0, no)], c);
      OneChanged(chains, tag, c);
      index := index[tag := [Item(0, no)]];
      chains := chains[tag := c];
      SoundIsSoundBut(pages, avail, index, chains, sz, pgsize, tag);
      assert Upsert([], r) == [r] && Rising([r]);
      return SUCCESS;
    }

    /** What insertion does with a record below 0 when the index of its tag has more than one level:
        the lookup fails, so that the record is taken for the first of a new tag. Key 0 of the index
        then names a page of this record alone, and from 0 up to the next key of the index every
        lookup ends at that page: the records of the tag's first page are not found any more. */
    method InsertBelow(tag: string, r: Record, idxOk: bool, ghost most: nat) returns (ret: int)
      requires SoundTable() && tag in index && r.idx < MIN_IDXV && SizesOk(sz, pgsize, most)
      modifies this`pages, this`index, this`avail
      ensures ret == if old(avail) != [] && idxOk then SUCCESS else FAILED
      ensures ret == FAILED ==> index == old(index) && avail == old(avail)
      ensures ret == SUCCESS ==>
                var no := old(avail)[0];
                && pages == old(pages)[no := DataImage(0, NO_PAGE, NO_PAGE, [r])]
                && index == old(index)[tag := InsertSorted(old(index[tag]), Item(MIN_IDXV, no))]
                && LeadsTo(index[tag], no)
    {
      if avail == [] { return FAILED; }
      var no := avail[0];
      TagFacts(tag);
      Repointed(index[tag], chains[tag], no);
      EncodedPositive(sz, most, [r]);
      var pg := new DataPage(DataImage(0, NO_PAGE, NO_PAGE, []));
      var nr := pg.Insert(r);
      assert Upsert([], r) == [r];
      WritePage(no, pg.Image());
      if !idxOk { return FAILED; }
      avail := avail[1..];
      index := index[tag := InsertSorted(index[tag], Item(MIN_IDXV, no))];
      return SUCCESS;
    }

    /** Split a page that has grown too large: the upper records go to a new page, the right
        neighbour gets it as its left neighbour, and the page itself is cut and linked to it. */
    method SplitSave(pgno: int, pg: DataPage, binc: bool, ghost most: nat) returns (newno: int, idxval: int, ghost left: nat)
      requires SizesOk(sz, pgsize, most) && pg.objs != []
      requires HEAD_SIZE + Encoded(sz, pg.objs) < pgsize + 2 * most && pgsize <= HEAD_SIZE + RESERVE + Encoded(sz, pg.objs)
      requires pg.next == NO_PAGE || (pg.next in pages && Fits(sz, pgsize, pages[pg.next].objs))
      requires Spare(avail, map[]) && (pg.next != NO_PAGE ==> pg.next !in avail)
      modifies `pages, `avail, pg
      ensures old(avail) == [] ==> newno == NO_PAGE && pages == old(pages) && avail == old(avail)
      ensures old(avail) != [] ==>
                && newno == old(avail)[0] && avail == old(avail)[1..] && 0 < left < |old(pg.objs)|
                && idxval == old(pg.objs)[left].idx
                && Fits(sz, pgsize, old(pg.objs)[..left]) && Fits(sz, pgsize, old(pg.objs)[left..])
                && SplitWrites(old(pages), pages, pgno, old(pg.Image()), left, newno)
    {
      ghost var u := pg.objs;
      var n, second := pg.SplitPage(sz, pgsize, binc);
      left := n;
      HalvesFit(sz, pgsize, most, u, left, binc);
      if avail == [] { return NO_PAGE, 0, left; }
      newno := avail[0];
      avail := avail[1..];
      idxval := second[0].idx;
      WritePage(newno, DataImage(idxval, pgno, pg.next, second));
      if pg.next != NO_PAGE {
        WritePage(pg.next, pages[pg.next].(prev := newno));
      }
      pg.next := newno;
      WritePage(pgno, pg.Image());
    }

    method StoreBack(tag: string, pgno: int, pg: DataPage, ghost c: Chain, ghost j: nat, ghost d: Chain)
      requires SoundTable() && tag in index && tag in chains && c == chains[tag] && j < |c| && pgno == c[j].no
      requires pg.Image() == c[j].im.(objs := pg.objs) && Fits(sz, pgsize, pg.objs)
      requires d == WithObjs(c, j, pg.objs) && SamePlaces(c, d)
      modifies this
      ensures chains == old(chains)[tag := d] && OthersSame(old(chains), chains, tag)
      ensures SoundButFor(tag) && (ChainOk(d) ==> SoundTable()) && (ChainOk(d) && old(Valid()) ==> Valid())
    {
      BackStored(pages, avail, index, chains, sz, pgsize, tag, j, pg.objs, d);
      WritePage(pgno, pg.Image());
      OneChanged(chains, tag, d);
      chains := chains[tag := d];
    }

    /** Split the page and tell the index. Whether the records are in order afterwards depends on
        whether they are in the rewritten chain d. */
    method SplitAndIndex(tag: string, pgno: int, pg: DataPage, binc: bool, idxOk: bool, ghost most: nat,
                         ghost c: Chain, ghost j: nat, ghost d: Chain) returns (ret: int)
      requires SoundTable() && tag in index && tag in chains && c == chains[tag] && j < |c| && pgno == c[j].no
      requires SizesOk(sz, pgsize, most)
      requires pg.Image() == c[j].im.(objs := pg.objs) && pg.objs != []
      requires d == WithObjs(c, j, pg.objs) && SamePlaces(c, d)
      requires HEAD_SIZE + Encoded(sz, pg.objs) < pgsize + 2 * most && pgsize <= HEAD_SIZE + RESERVE + Encoded(sz, pg.objs)
      modifies this, pg
      ensures ret == if old(avail) != [] && idxOk then SUCCESS else FAILED
      ensures old(avail) == [] ==> SoundTable() && chains == old(chains) && index == old(index)
      ensures old(avail) == [] && old(Valid()) ==> Valid()
      ensures old(avail) != [] ==> tag in chains && Records(chains[tag]) == Records(d) && SoundButFor(tag)
      ensures OthersSame(old(chains), chains, tag)
      ensures ChainOk(d) ==> SoundTable()
      ensures ChainOk(d) && old(Valid()) && ret == SUCCESS ==> Valid()
      ensures ChainOk(d) && old(Valid()) && ret == FAILED && old(avail) != [] ==>
                j + 1 < |chains[tag]| && Misplaced(tag, chains[tag][j + 1].im.idxval)
    {
      RightNeighbour(pages, avail, chains, sz, pgsize, tag, j);
      OneChanged(chains, tag, c);
      ghost var u := pg.objs;
      assert avail != [] ==> avail[0] in avail && avail[0] !in Nos(c);
      var newno, idxval;
      ghost var left;
      newno, idxval, left := SplitSave(pgno, pg, binc, most);
      if newno < 0 { return FAILED; }
      ghost var e := SplitChain(d, j, left, newno);
      var s2 := InsertSorted(index[tag], Item(idxval, newno));
      SplitStored(old(pages), old(avail), index, chains, sz, pgsize, pages, tag, j, u, left, e, s2);
      SplitTells(tag, c, j, u, left, newno, d, e, s2);
      OneChanged(chains, tag, e);
      chains := chains[tag := e];
      if !idxOk {
        if ChainOk(d) && old(Valid()) {
          RefusedIsMisplaced(d, j, left, newno, e, index[tag]);
        }
        return FAILED;
      }
      index := index[tag := s2];
      return SUCCESS;
    }

    /** What the split chain means for the table, without and with the new entry. */
    lemma {:induction false} SplitTells(tag: string, c: Chain, j: nat, u: seq<Record>, left: nat, newno: int, d: Chain, e: Chain, s2: seq<Item>)
      requires tag in index && tag in chains && chains[tag] == c && j < |c| && 0 < left < |u|
      requires ChainOk(c) && Leads(index[tag], c) && newno !in Nos(c)
      requires d == WithObjs(c, j, u) && SamePlaces(c, d) && e == SplitChain(d, j, left, newno)
      requires s2 == InsertSorted(index[tag], Item(u[left].idx, newno))
      requires SoundBut(pages, avail, index, chains[tag := e], sz, pgsize, tag)
      requires SoundBut(pages, avail, index[tag := s2], chains[tag := e], sz, pgsize, tag)
      ensures ChainOk(d) ==> Sound(pages, avail, index, chains[tag := e], sz, pgsize)
      ensures ChainOk(d) ==> Sound(pages, avail, index[tag := s2], chains[tag := e], sz, pgsize)
      ensures ChainOk(d) && Indexed(index, chains) ==> Indexed(index[tag := s2], chains[tag := e])
    {
      if ChainOk(d) {
        SplitInOrder(c, j, u, left, newno, index[tag], e);
        SoundAgain(pages, avail, index, chains[tag := e], sz, pgsize, tag);
        SoundAgain(pages, avail, index[tag := s2], chains[tag := e], sz, pgsize, tag);
      }
    }

    /** The page the index names for a record, with the record inserted: in order and in its place
        exactly when the page covers it. */
    lemma {:induction false} Placed(tag: string, r: Record, c: Chain, j: nat, d: Chain)
      requires SoundTable() && tag in index && tag in chains && MIN_IDXV <= r.idx && c == chains[tag]
      requires index[tag] != [] && Ascending(index[tag])
      requires j == Position(c, index[tag][FloorPos(index[tag], r.idx)].pgno) < |c|
      requires d == WithObjs(c, j, Upsert(c[j].im.objs, r))
      ensures SamePlaces(c, d) && (ChainOk(d) <==> !Misplaced(tag, r.idx))
      ensures Inserted(Records(c), Records(d), r, Misplaced(tag, r.idx))
    {
      TagFacts(tag);
      NamedByIndex(c, index[tag], r.idx);
      if InPlace(c, index[tag], r.idx) {
        InsertInPage(c, j, r);
        RecordsRise(d);
      } else {
        OutOfPlace(c, j, r);
      }
    }

    lemma {:induction false} ValidInPlace(tag: string, k: int)
      requires SoundTable() && MIN_IDXV <= k
      ensures Valid() ==> !Misplaced(tag, k)
    {
      if Valid() && tag in chains {
        TagFacts(tag);
        FullIndexInPlace(chains[tag], k);
      }
    }

    /** Store the page with its new record: as it is when it still fits, else as two pages. */
    method StoreInserted(tag: string, pgno: int, pg: DataPage, nr: int, last: bool, idxOk: bool, ghost most: nat,
                         ghost c: Chain, ghost j: nat, ghost d: Chain) returns (ret: int)
      requires SoundTable() && tag in index && tag in chains && c == chains[tag] && j < |c| && pgno == c[j].no
      requires SizesOk(sz, pgsize, most) && (nr == PGOPT_UPDATE || nr == PGOPT_INSERT)
      requires pg.Image() == c[j].im.(objs := pg.objs) && pg.objs != []
      requires d == WithObjs(c, j, pg.objs) && SamePlaces(c, d)
      requires HEAD_SIZE + Encoded(sz, pg.objs) < pgsize + 2 * most
      modifies this, pg
      ensures OthersSame(old(chains), chains, tag) && tag in chains
      ensures ret == SUCCESS || ret == FAILED
      ensures SoundButFor(tag) && (ChainOk(d) ==> SoundTable())
      ensures ret == SUCCESS && ChainOk(d) && old(Valid()) ==> Valid()
      ensures ret == SUCCESS ==> Records(chains[tag]) == Records(d)
      ensures ret == FAILED && idxOk ==> old(avail) == [] && SoundTable() && chains == old(chains) && index == old(index)
      ensures ret == FAILED && idxOk && old(Valid()) ==> Valid()
      ensures ret == FAILED && !idxOk ==> Records(chains[tag]) == Records(c) || Records(chains[tag]) == Records(d)
      ensures old(avail) != [] && idxOk ==> ret == SUCCESS
    {
      var sizeres := if nr == PGOPT_UPDATE then HEAD_SIZE else RESERVE + HEAD_SIZE;
      if Encoded(sz, pg.objs) + sizeres < pgsize {
        StoreBack(tag, pgno, pg, c, j, d);
        return SUCCESS;
      }
      SoundIsSoundBut(pages, avail, index, chains, sz, pgsize, tag);
      ret := SplitAndIndex(tag, pgno, pg, last, idxOk, most, c, j, d);
      if old(avail) == [] {
        SoundIsSoundBut(pages, avail, index, chains, sz, pgsize, tag);
      }
    }

    lemma {:induction false} PageNamed(tag: string, k: int)
      requires SoundTable() && tag in index && MIN_IDXV <= k
      ensures tag in chains && index[tag] != [] && Ascending(index[tag])
      ensures var c, pgno := chains[tag], index[tag][FloorPos(index[tag], k)].pgno;
              var j := Position(c, pgno);
              && j < |c| && c[j].no == pgno && pgno in pages && pages[pgno] == c[j].im
              && Rising(c[j].im.objs) && Fits(sz, pgsize, c[j].im.objs)
    {
      TagFacts(tag);
      var c := chains[tag];
      NamedByIndex(c, index[tag], k);
      assert DataPageOk(c[Position(c, index[tag][FloorPos(index[tag], k)].pgno)]);
    }

    /** Read the page the index names and insert the record into the copy. */
    method LoadAndInsert(tag: string, r: Record, ghost most: nat)
      returns (pgno: int, pg: DataPage, nr: int, ghost j: nat, ghost d: Chain)
      requires SoundTable() && tag in index && MIN_IDXV <= r.idx && SizesOk(sz, pgsize, most)
      ensures fresh(pg) && tag in chains && j < |chains[tag]| && pgno == chains[tag][j].no
      ensures pg.Image() == chains[tag][j].im.(objs := pg.objs) && pg.objs != []
      ensures d == WithObjs(chains[tag], j, pg.objs) && SamePlaces(chains[tag], d)
      ensures ChainOk(d) <==> !Misplaced(tag, r.idx)
      ensures Inserted(Records(chains[tag]), Records(d), r, Misplaced(tag, r.idx))
      ensures nr == PGOPT_NONE || nr == PGOPT_UPDATE || nr == PGOPT_INSERT
      ensures nr == PGOPT_NONE ==> d == chains[tag]
      ensures HEAD_SIZE + Encoded(sz, pg.objs) < pgsize + 2 * most
    {
      PageNamed(tag, r.idx);
      ghost var c := chains[tag];
      pgno := index[tag][FloorPos(index[tag], r.idx)].pgno;
      j := Position(c, pgno);
      pg := new DataPage(pages[pgno]);
      nr := pg.Insert(r);
      d := WithObjs(c, j, pg.objs);
      Placed(tag, r, c, j, d);
      UpsertSize(sz, most, c[j].im.objs, r);
    }

    method InsertInto(tag: string, r: Record, idxOk: bool, ghost most: nat) returns (ret: int)
      requires SoundTable() && tag in index && MIN_IDXV <= r.idx && SizesOk(sz, pgsize, most)
      modifies this
      ensures OthersSame(old(chains), chains, tag) && tag in chains
      ensures ret == SUCCESS || ret == FAILED
      ensures SoundButFor(tag) && (!old(Misplaced(tag, r.idx)) ==> SoundTable())
      ensures ret == SUCCESS && old(Valid()) && !old(Misplaced(tag, r.idx)) ==> Valid()
      ensures ret == SUCCESS ==> Inserted(old(RecordsOf(tag)), RecordsOf(tag), r, old(Misplaced(tag, r.idx)))
      ensures ret == FAILED && idxOk ==> old(avail) == [] && SoundTable() && chains == old(chains) && index == old(index)
      ensures ret == FAILED && idxOk && old(Valid()) ==> Valid()
      ensures ret == FAILED && !idxOk ==>
                || RecordsOf(tag) == old(RecordsOf(tag))
                || Inserted(old(RecordsOf(tag)), RecordsOf(tag), r, old(Misplaced(tag, r.idx)))
      ensures old(avail) != [] && idxOk ==> ret == SUCCESS
    {
      ghost var c := chains[tag];
      ghost var j, d;
      var pgno, pg, nr;
      pgno, pg, nr, j, d := LoadAndInsert(tag, r, most);
      if nr == PGOPT_NONE {
        OneChanged(chains, tag, c);
        SoundIsSoundBut(pages, avail, index, chains, sz, pgsize, tag);
        return SUCCESS;
      }
      ret := StoreInserted(tag, pgno, pg, nr, r.idx == pg.objs[|pg.objs| - 1].idx, idxOk, most, c, j, d);
    }

    /** Insert a record, or replace the one with its index value. It fails only when a page is
        needed and there is none, or when the index cannot take the page that a split has added; the
        record is stored then, but the index lacks an entry. From then on an insertion keeps the
        records in order exactly when the page the index names is the one that covers the record. */
    method Insert(tag: string, r: Record, idxOk: bool, ghost most: nat) returns (ret: int)
      requires SoundTable() && MIN_IDXV <= r.idx && SizesOk(sz, pgsize, most)
      modifies this
      ensures OthersSame(old(chains), chains, tag)
      ensures ret == SUCCESS || ret == FAILED
      ensures !old(Misplaced(tag, r.idx)) ==> SoundTable()
      ensures tag in chains ==> SoundButFor(tag)
      ensures old(Valid()) ==> !old(Misplaced(tag, r.idx))
      ensures old(Valid()) && (ret == SUCCESS || idxOk) ==> Valid()
      ensures ret == SUCCESS ==> Inserted(old(RecordsOf(tag)), RecordsOf(tag), r, old(Misplaced(tag, r.idx)))
      ensures ret == FAILED && idxOk ==> old(avail) == [] && SoundTable() && chains == old(chains) && index == old(index)
      ensures ret == FAILED && !idxOk ==>
                || RecordsOf(tag) == old(RecordsOf(tag))
                || Inserted(old(RecordsOf(tag)), RecordsOf(tag), r, old(Misplaced(tag, r.idx)))
      ensures old(avail) != [] && idxOk ==> ret == SUCCESS
    {
      ValidInPlace(tag, r.idx);
      if tag !in index {
        ret := InsertNew(tag, r, idxOk, most);
        return;
      }
      ret := InsertInto(tag, r, idxOk, most);
    }
  }
}
