/** A tag's records as a doubly linked chain of sorted pages, and what inserting a record or
    splitting a page does to it. */
module DataChain {
  import opened BPlusTreeModel

  const NO_PAGE := -1

  datatype Option<+T> = None | Some(value: T)

  /** A record: its index value, and its content. */
  datatype Record = Record(idx: int, body: seq<int>)

  /** Page head (first index value, neighbours) and records. */
  datatype DataImage = DataImage(idxval: int, prev: int, next: int, objs: seq<Record>)

  /** A data page together with its number. */
  datatype DPg = DPg(no: int, im: DataImage)

  type Chain = seq<DPg>

  // ---------------------------------------------------------------- sorted records

  ghost predicate Rising(s: seq<Record>) {
    forall i, j :: 0 <= i < j < |s| ==> s[i].idx < s[j].idx
  }

  ghost predicate Below(s: seq<Record>, k: int) {
    forall i :: 0 <= i < |s| ==> s[i].idx < k
  }

  ghost predicate From(k: int, s: seq<Record>) {
    forall i :: 0 <= i < |s| ==> k <= s[i].idx
  }

  /** Add a record, or replace the one with the same index value. */
  function Upsert(s: seq<Record>, r: Record): seq<Record> {
    if s == [] then [r]
    else if r.idx < s[0].idx then [r] + s
    else if r.idx == s[0].idx then [r] + s[1..]
    else [s[0]] + Upsert(s[1..], r)
  }

  /** The stored records by index value. */
  function ByIdx(s: seq<Record>): map<int, Record> {
    if s == [] then map[] else ByIdx(s[1..])[s[0].idx := s[0]]
  }

  lemma {:induction false} ByIdxFrom(s: seq<Record>, k: int)
    requires From(k, s)
    ensures forall i :: i in ByIdx(s) ==> k <= i
  {
    if s != [] {
      ByIdxFrom(s[1..], k);
    }
  }

  lemma {:induction false} UpsertMembers(s: seq<Record>, r: Record)
    ensures forall x :: x in Upsert(s, r) ==> x == r || x in s
    ensures r in Upsert(s, r)
  {
    if s != [] {
      UpsertMembers(s[1..], r);
    }
  }

  lemma {:induction false} UpsertBounds(s: seq<Record>, r: Record, lo: int, hi: int)
    ensures From(lo, s) && lo <= r.idx ==> From(lo, Upsert(s, r))
    ensures Below(s, hi) && r.idx < hi ==> Below(Upsert(s, r), hi)
  {
    var u := Upsert(s, r);
    UpsertMembers(s, r);
    forall i | 0 <= i < |u| ensures u[i] == r || exists j :: 0 <= j < |s| && s[j] == u[i] {
      assert u[i] in u;
    }
  }

  lemma {:induction false} UpsertRises(s: seq<Record>, r: Record)
    requires Rising(s)
    ensures Rising(Upsert(s, r))
  {
    if s != [] && s[0].idx < r.idx {
      UpsertRises(s[1..], r);
      UpsertBounds(s[1..], r, s[0].idx + 1, 0);
    }
  }

  /** A later record replaces the one with its index value, and nothing else changes. */
  lemma {:induction false} UpsertIsUpdate(s: seq<Record>, r: Record)
    requires Rising(s)
    ensures Rising(Upsert(s, r)) && ByIdx(Upsert(s, r)) == ByIdx(s)[r.idx := r]
  {
    UpsertRises(s, r);
    if s != [] {
      UpsertIsUpdate(s[1..], r);
      if s[0].idx < r.idx {
        var u := Upsert(s[1..], r);
        assert ([s[0]] + u)[1..] == u;
      } else if s[0].idx == r.idx {
        assert ([r] + s[1..])[1..] == s[1..];
      } else {
        assert ([r] + s)[1..] == s;
      }
    }
  }

  lemma {:induction false} UpsertAt(s: seq<Record>, p: nat, r: Record)
    requires p <= |s| && Below(s[..p], r.idx)
    ensures p == |s| || r.idx < s[p].idx ==> Upsert(s, r) == s[..p] + [r] + s[p..]
    ensures p < |s| && r.idx == s[p].idx ==> Upsert(s, r) == s[p := r]
  {
    if p == 0 {
      assert s[..0] + [r] + s[0..] == [r] + s;
    } else {
      assert s[..p][0] == s[0];
      assert s[1..][..p - 1] == s[..p][1..];
      UpsertAt(s[1..], p - 1, r);
      if p == |s| || r.idx < s[p].idx {
        assert [s[0]] + (s[1..][..p - 1] + [r] + s[1..][p - 1..]) == s[..p] + [r] + s[p..];
      } else if r.idx == s[p].idx {
        assert [s[0]] + s[1..][p - 1 := r] == s[p := r];
      }
    }
  }

  lemma {:induction false} UpsertMid(a: seq<Record>, b: seq<Record>, c: seq<Record>, r: Record)
    requires Below(a, r.idx) && From(r.idx + 1, c)
    ensures Upsert(a + b + c, r) == a + Upsert(b, r) + c
  {
    if a == [] {
      assert a + b + c == b + c;
      UpsertFront(b, c, r);
    } else {
      UpsertMid(a[1..], b, c, r);
      assert (a + b + c)[1..] == a[1..] + b + c;
      assert [a[0]] + (a[1..] + Upsert(b, r) + c) == a + Upsert(b, r) + c;
    }
  }

  lemma {:induction false} UpsertFront(b: seq<Record>, c: seq<Record>, r: Record)
    requires From(r.idx + 1, c)
    ensures Upsert(b + c, r) == Upsert(b, r) + c
  {
    if b == [] {
      assert b + c == c;
    } else {
      assert (b + c)[1..] == b[1..] + c;
      UpsertFront(b[1..], c, r);
    }
  }

  // ---------------------------------------------------------------- sizes

  const HEAD_SIZE := 40
  const RESERVE := 128

  /** The encoded size of a record, which may depend on the record before it. */
  type Codec = (Record, Option<Record>) -> nat

  ghost predicate Bounded(sz: Codec, most: nat) {
    forall r, p :: 1 <= sz(r, p) <= most
  }

  function SizeAt(sz: Codec, s: seq<Record>, i: nat): nat
    requires i < |s|
  {
    sz(s[i], if i == 0 then None else Some(s[i - 1]))
  }

  function Encoded(sz: Codec, s: seq<Record>): nat {
    if s == [] then 0 else Encoded(sz, s[..|s| - 1]) + SizeAt(sz, s, |s| - 1)
  }

  lemma {:induction false} EncodedTake(sz: Codec, s: seq<Record>, n: nat)
    requires n < |s|
    ensures Encoded(sz, s[..n + 1]) == Encoded(sz, s[..n]) + SizeAt(sz, s, n)
  {
    assert s[..n + 1][..n] == s[..n];
  }

  /** Cutting or joining changes the encoding of one record only. */
  lemma {:induction false} EncodedConcat(sz: Codec, most: nat, a: seq<Record>, b: seq<Record>)
    requires Bounded(sz, most)
    ensures Encoded(sz, a) + Encoded(sz, b) <= Encoded(sz, a + b) + most
    ensures Encoded(sz, a + b) <= Encoded(sz, a) + Encoded(sz, b) + most
  {
    if b == [] {
      assert a + b == a;
    } else {
      var m := |b| - 1;
      assert (a + b)[..|a + b| - 1] == a + b[..m];
      if m == 0 {
        assert b[..m] == [] && a + b[..m] == a;
      } else {
        EncodedConcat(sz, most, a, b[..m]);
        assert (a + b)[|a| + m - 1] == b[m - 1];
      }
    }
  }

  lemma {:induction false} EncodedPositive(sz: Codec, most: nat, s: seq<Record>)
    requires Bounded(sz, most)
    ensures |s| <= Encoded(sz, s) && (|s| == 1 ==> Encoded(sz, s) <= most)
  {
    if s != [] {
      EncodedPositive(sz, most, s[..|s| - 1]);
    }
  }

  /** Where a record goes in a rising list. */
  lemma {:induction false} Place(s: seq<Record>, k: int) returns (p: nat)
    requires Rising(s)
    ensures p <= |s| && Below(s[..p], k) && From(k, s[p..])
  {
    if s == [] || k <= s[0].idx {
      p := 0;
    } else {
      p := Place(s[1..], k);
      assert s[..p + 1] == [s[0]] + s[1..][..p];
      assert s[p + 1..] == s[1..][p..];
      p := p + 1;
    }
  }

  function LastOf(s: seq<Record>): Option<Record> {
    if s == [] then None else Some(s[|s| - 1])
  }

  /** The encoded size of records behind another one. */
  function After(sz: Codec, prev: Option<Record>, s: seq<Record>): nat {
    if s == [] then 0 else After(sz, prev, s[..|s| - 1]) + sz(s[|s| - 1], if |s| == 1 then prev else Some(s[|s| - 2]))
  }

  lemma {:induction false} EncodedByParts(sz: Codec, a: seq<Record>, b: seq<Record>)
    ensures Encoded(sz, a + b) == Encoded(sz, a) + After(sz, LastOf(a), b)
  {
    if b == [] {
      assert a + b == a;
    } else {
      var m := |b| - 1;
      EncodedByParts(sz, a, b[..m]);
      assert (a + b)[..|a + b| - 1] == a + b[..m];
    }
  }

  /** Another record in front changes the size of the first one only. */
  lemma {:induction false} AfterAnother(sz: Codec, most: nat, p: Option<Record>, q: Option<Record>, s: seq<Record>)
    requires Bounded(sz, most)
    ensures After(sz, p, s) <= After(sz, q, s) + most
  {
    if s != [] {
      AfterAnother(sz, most, p, q, s[..|s| - 1]);
      if |s| == 1 {
        assert s[..0] == [];
      }
    }
  }

  lemma {:induction false} Between(sz: Codec, most: nat, a: seq<Record>, r: Record, b: seq<Record>)
    requires Bounded(sz, most)
    ensures Encoded(sz, a + [r] + b) <= Encoded(sz, a) + most + After(sz, Some(r), b)
  {
    EncodedByParts(sz, a + [r], b);
    EncodedByParts(sz, a, [r]);
    assert [r][..0] == [];
  }

  lemma {:induction false} SizeReplaced(sz: Codec, most: nat, a: seq<Record>, x: Record, r: Record, c: seq<Record>)
    requires Bounded(sz, most)
    ensures Encoded(sz, a + [r] + c) <= Encoded(sz, a + ([x] + c)) + 2 * most
  {
    assert a + ([x] + c) == (a + [x]) + c;
    EncodedByParts(sz, a + [x], c);
    EncodedByParts(sz, a, [x]);
    Between(sz, most, a, r, c);
    AfterAnother(sz, most, Some(r), Some(x), c);
  }

  /** A record more makes the page larger by a bounded amount. */
  lemma {:induction false} UpsertSize(sz: Codec, most: nat, s: seq<Record>, r: Record)
    requires Bounded(sz, most) && Rising(s)
    ensures Encoded(sz, Upsert(s, r)) <= Encoded(sz, s) + 2 * most
  {
    var p := Place(s, r.idx);
    UpsertAt(s, p, r);
    var a, b := s[..p], s[p..];
    assert s == a + b;
    if b != [] && b[0].idx == r.idx {
      var c := b[1..];
      assert b == [b[0]] + c;
      assert s[p := r] == a + [r] + c;
      SizeReplaced(sz, most, a, b[0], r, c);
    } else {
      SizeInserted(sz, most, a, r, b);
    }
  }

  lemma {:induction false} SizeInserted(sz: Codec, most: nat, a: seq<Record>, r: Record, b: seq<Record>)
    requires Bounded(sz, most)
    ensures Encoded(sz, a + [r] + b) <= Encoded(sz, a + b) + 2 * most
  {
    EncodedByParts(sz, a, b);
    Between(sz, most, a, r, b);
    AfterAnother(sz, most, Some(r), LastOf(a), b);
  }

  // ---------------------------------------------------------------- chains

  ghost predicate DataPageOk(p: DPg) {
    p.im.objs != [] && Rising(p.im.objs) && From(p.im.idxval, p.im.objs)
  }

  /** Page p comes before page q: all its records are below q's first index value. */
  ghost predicate Precedes(p: DPg, q: DPg) {
    p.no != q.no && Below(p.im.objs, q.im.idxval)
  }

  ghost predicate InOrder(c: Chain) {
    && (forall i {:trigger DataPageOk(c[i])} :: 0 <= i < |c| ==> DataPageOk(c[i]))
    && (forall i, j {:trigger Precedes(c[i], c[j])} :: 0 <= i < j < |c| ==> Precedes(c[i], c[j]))
  }

  function NoAt(c: Chain, i: int): int {
    if 0 <= i < |c| then c[i].no else NO_PAGE
  }

  ghost predicate LinkedAt(c: Chain, i: int)
    requires 0 <= i < |c|
  {
    c[i].im.prev == NoAt(c, i - 1) && c[i].im.next == NoAt(c, i + 1)
  }

  ghost predicate DoublyLinked(c: Chain) {
    forall i {:trigger LinkedAt(c, i)} :: 0 <= i < |c| ==> LinkedAt(c, i)
  }

  /** A page that a split has added starts at the record it was split off at. */
  ghost predicate StartsAtIdxval(p: DPg) {
    p.im.objs != [] && p.im.objs[0].idx == p.im.idxval
  }

  ghost predicate Starts(c: Chain) {
    forall i {:trigger StartsAtIdxval(c[i])} :: 0 < i < |c| ==> StartsAtIdxval(c[i])
  }

  /** One doubly linked list, records rising within and across its pages, the first page starting
      at index value 0. */
  ghost predicate ChainOk(c: Chain) {
    c != [] && InOrder(c) && DoublyLinked(c) && Starts(c) && c[0].im.idxval == MIN_IDXV
  }

  ghost predicate Fits(sz: Codec, pgsize: nat, objs: seq<Record>) {
    HEAD_SIZE + Encoded(sz, objs) < pgsize
  }

  ghost predicate AllFit(sz: Codec, pgsize: nat, c: Chain) {
    forall i :: 0 <= i < |c| ==> Fits(sz, pgsize, c[i].im.objs)
  }

  function Records(c: Chain): seq<Record> {
    if c == [] then [] else c[0].im.objs + Records(c[1..])
  }

  /** What the tree must hold for the chain: one entry for every page. */
  function IndexOf(c: Chain): seq<Item> {
    seq(|c|, i requires 0 <= i < |c| => Item(c[i].im.idxval, c[i].no))
  }

  function Nos(c: Chain): set<int> {
    set p | p in c :: p.no
  }

  ghost predicate HoldsChain(pages: map<int, DataImage>, c: Chain) {
    forall i :: 0 <= i < |c| ==> c[i].no in pages && pages[c[i].no] == c[i].im
  }

  lemma {:induction false} RecordsConcat(a: Chain, b: Chain)
    ensures Records(a + b) == Records(a) + Records(b)
  {
    if a == [] {
      assert a + b == b;
    } else {
      assert (a + b)[1..] == a[1..] + b;
      RecordsConcat(a[1..], b);
    }
  }

  lemma {:induction false} RecordsOne(p: DPg)
    ensures Records([p]) == p.im.objs
  {
    assert [p][1..] == [];
  }

  lemma {:induction false} RecordsAround(c: Chain, j: nat)
    requires j < |c|
    ensures Records(c) == Records(c[..j]) + c[j].im.objs + Records(c[j + 1..])
  {
    var a, b := c[..j], c[j + 1..];
    assert c == a + [c[j]] + b;
    RecordsThree(c, a, c[j], b);
  }

  lemma {:induction false} RecordsThree(c: Chain, a: Chain, p: DPg, b: Chain)
    requires c == a + [p] + b
    ensures Records(c) == Records(a) + p.im.objs + Records(b)
  {
    RecordsConcat(a + [p], b);
    RecordsConcat(a, [p]);
    RecordsOne(p);
  }

  lemma {:induction false} RecordsBelow(c: Chain, k: int)
    requires forall i :: 0 <= i < |c| ==> Below(c[i].im.objs, k)
    ensures Below(Records(c), k)
  {
    if c != [] {
      RecordsBelow(c[1..], k);
    }
  }

  lemma {:induction false} RecordsFrom(c: Chain, k: int)
    requires forall i :: 0 <= i < |c| ==> From(k, c[i].im.objs)
    ensures From(k, Records(c))
  {
    if c != [] {
      RecordsFrom(c[1..], k);
    }
  }

  lemma {:induction false} IdxvalsRise(c: Chain, i: nat, j: nat)
    requires InOrder(c) && i < j < |c|
    ensures c[i].im.idxval < c[j].im.idxval
  {
    assert DataPageOk(c[i]) && Precedes(c[i], c[j]);
    assert c[i].im.idxval <= c[i].im.objs[0].idx;
  }

  lemma {:induction false} IndexAscending(c: Chain)
    requires InOrder(c)
    ensures Ascending(IndexOf(c))
  {
    forall i, j | 0 <= i < j < |c| ensures IndexOf(c)[i].idxv < IndexOf(c)[j].idxv {
      IdxvalsRise(c, i, j);
    }
  }

  /** Page j is the one the index leads to for this value. */
  ghost predicate Covers(c: Chain, j: int, k: int) {
    && 0 <= j < |c|
    && c[j].im.idxval <= k
    && (j + 1 < |c| ==> k < c[j + 1].im.idxval)
  }

  /** Records left and right of the page that covers k. */
  lemma {:induction false} AroundPage(c: Chain, j: nat, k: int)
    requires InOrder(c) && Covers(c, j, k)
    ensures Below(Records(c[..j]), k) && From(k + 1, Records(c[j + 1..]))
  {
    forall i | 0 <= i < j ensures Below(c[..j][i].im.objs, k) {
      assert Precedes(c[i], c[j]);
    }
    RecordsBelow(c[..j], k);
    var rest := c[j + 1..];
    forall i | 0 <= i < |rest| ensures From(k + 1, rest[i].im.objs) {
      assert rest[i] == c[j + 1 + i];
      assert DataPageOk(c[j + 1 + i]);
      if 0 < i {
        IdxvalsRise(c, j + 1, j + 1 + i);
      }
    }
    RecordsFrom(rest, k + 1);
  }

  /** The page with other records; its place in the chain stays. */
  function WithObjs(c: Chain, j: nat, objs: seq<Record>): Chain
    requires j < |c|
  {
    c[j := DPg(c[j].no, c[j].im.(objs := objs))]
  }

  lemma {:induction false} InsertInPage(c: Chain, j: nat, r: Record)
    requires ChainOk(c) && Covers(c, j, r.idx)
    ensures var d := WithObjs(c, j, Upsert(c[j].im.objs, r));
            ChainOk(d) && Records(d) == Upsert(Records(c), r) && IndexOf(d) == IndexOf(c) && Nos(d) == Nos(c)
  {
    var d := WithObjs(c, j, Upsert(c[j].im.objs, r));
    RecordsAround(c, j);
    RecordsAround(d, j);
    assert d[..j] == c[..j] && d[j + 1..] == c[j + 1..];
    AroundPage(c, j, r.idx);
    UpsertMid(Records(c[..j]), c[j].im.objs, Records(c[j + 1..]), r);
    InsertKeepsOrder(c, j, r);
    InsertKeepsStarts(c, j, r);
    forall i | 0 <= i < |d| ensures LinkedAt(d, i) {
      assert LinkedAt(c, i);
    }
    assert IndexOf(d) == IndexOf(c);
    SameNos(c, d);
  }

  lemma {:induction false} InsertKeepsOrder(c: Chain, j: nat, r: Record)
    requires InOrder(c) && Covers(c, j, r.idx)
    ensures InOrder(WithObjs(c, j, Upsert(c[j].im.objs, r)))
  {
    var objs := c[j].im.objs;
    var d := WithObjs(c, j, Upsert(objs, r));
    forall i | 0 <= i < |d| ensures DataPageOk(d[i]) {
      assert DataPageOk(c[i]);
      if i == j { InsertedPage(c[j], r); }
    }
    forall i, k | 0 <= i < k < |d| ensures Precedes(d[i], d[k]) {
      assert Precedes(c[i], c[k]);
      if i == j {
        if j + 1 < k { IdxvalsRise(c, j + 1, k); }
        UpsertBounds(objs, r, 0, c[k].im.idxval);
      }
    }
  }

  lemma {:induction false} InsertKeepsStarts(c: Chain, j: nat, r: Record)
    requires InOrder(c) && Starts(c) && j < |c| && c[j].im.idxval <= r.idx
    ensures Starts(WithObjs(c, j, Upsert(c[j].im.objs, r)))
  {
    var d := WithObjs(c, j, Upsert(c[j].im.objs, r));
    forall i | 0 < i < |d| ensures StartsAtIdxval(d[i]) {
      assert StartsAtIdxval(c[i]);
    }
  }

  /** Inserting into a page a record that belongs behind it: the pages stay linked and keep their
      places, but the records no longer rise. */
  lemma {:induction false} OutOfPlace(c: Chain, j: nat, r: Record)
    requires ChainOk(c) && j + 1 < |c| && c[j + 1].im.idxval <= r.idx
    ensures Upsert(c[j].im.objs, r) == c[j].im.objs + [r]
    ensures var d := WithObjs(c, j, Upsert(c[j].im.objs, r));
            && DoublyLinked(d) && IndexOf(d) == IndexOf(c) && Nos(d) == Nos(c)
            && Records(d) == Records(c[..j]) + (c[j].im.objs + [r]) + Records(c[j + 1..])
            && !Rising(Records(d)) && !ChainOk(d) && Records(d) != Upsert(Records(c), r)
  {
    var objs := c[j].im.objs;
    assert Precedes(c[j], c[j + 1]) && StartsAtIdxval(c[j + 1]);
    assert objs[..|objs|] == objs && objs[|objs|..] == [];
    UpsertAt(objs, |objs|, r);
    assert objs + [r] + [] == objs + [r];
    var d := WithObjs(c, j, Upsert(objs, r));
    RecordsAround(d, j);
    assert d[..j] == c[..j] && d[j + 1..] == c[j + 1..];
    forall i | 0 <= i < |d| ensures LinkedAt(d, i) {
      assert LinkedAt(c, i);
    }
    assert IndexOf(d) == IndexOf(c);
    SameNos(c, d);
    var before, behind := Records(c[..j]), Records(c[j + 1..]);
    assert behind[0] == c[j + 1].im.objs[0];
    var n := |before| + |objs|;
    assert Records(d)[n] == r && Records(d)[n + 1] == behind[0];
    RecordsRise(c);
    UpsertIsUpdate(Records(c), r);
    if InOrder(d) {
      RecordsRise(d);
    }
  }

  lemma {:induction false} InsertedPage(p: DPg, r: Record)
    requires DataPageOk(p) && p.im.idxval <= r.idx
    ensures DataPageOk(DPg(p.no, p.im.(objs := Upsert(p.im.objs, r))))
  {
    UpsertIsUpdate(p.im.objs, r);
    UpsertMembers(p.im.objs, r);
    UpsertBounds(p.im.objs, r, p.im.idxval, 0);
  }

  lemma {:induction false} SameNos(c: Chain, d: Chain)
    requires |c| == |d| && forall i :: 0 <= i < |c| ==> c[i].no == d[i].no
    ensures Nos(c) == Nos(d)
  {
    forall p | p in c ensures p.no in Nos(d) {
      var i :| 0 <= i < |c| && c[i] == p;
      assert d[i] in d;
    }
    forall p | p in d ensures p.no in Nos(c) {
      var i :| 0 <= i < |d| && d[i] == p;
      assert c[i] in c;
    }
  }

  /** Page j keeps its first n records; the rest move to a page of their own behind it. */
  function SplitChain(c: Chain, j: nat, n: nat, no: int): Chain
    requires j < |c| && 0 < n < |c[j].im.objs|
  {
    var im := c[j].im;
    var left := DPg(c[j].no, im.(next := no, objs := im.objs[..n]));
    var right := DPg(no, DataImage(im.objs[n].idx, c[j].no, im.next, im.objs[n..]));
    c[..j] + [left, right] + Behind(c[j + 1..], no)
  }

  /** The first page behind the new one gets it as its left neighbour. */
  function Behind(c: Chain, no: int): (d: Chain)
    ensures |d| == |c|
    ensures forall i :: 0 <= i < |c| ==> d[i].no == c[i].no && d[i].im.(prev := 0) == c[i].im.(prev := 0)
  {
    if c == [] then c else c[0 := DPg(c[0].no, c[0].im.(prev := no))]
  }

  lemma {:induction false} BehindRecords(c: Chain, no: int)
    ensures Records(Behind(c, no)) == Records(c)
  {
    if c != [] {
      assert Behind(c, no)[1..] == c[1..];
    }
  }

  lemma {:induction false} SplitRecords(c: Chain, j: nat, n: nat, no: int)
    requires j < |c| && 0 < n < |c[j].im.objs|
    ensures Records(SplitChain(c, j, n, no)) == Records(c)
  {
    var d := SplitChain(c, j, n, no);
    RecordsAround(c, j);
    RecordsConcat(d[..j + 2], d[j + 2..]);
    assert d == d[..j + 2] + d[j + 2..];
    assert d[j + 2..] == Behind(c[j + 1..], no);
    BehindRecords(c[j + 1..], no);
    assert d[..j + 2] == c[..j] + [d[j], d[j + 1]];
    RecordsConcat(c[..j], [d[j], d[j + 1]]);
    assert [d[j], d[j + 1]][1..] == [d[j + 1]];
    RecordsOne(d[j + 1]);
    assert c[j].im.objs == d[j].im.objs + d[j + 1].im.objs;
  }

  lemma {:induction false} SplitOrder(c: Chain, j: nat, n: nat, no: int)
    requires InOrder(c) && j < |c| && 0 < n < |c[j].im.objs| && no !in Nos(c)
    ensures InOrder(SplitChain(c, j, n, no))
  {
    var d := SplitChain(c, j, n, no);
    var objs := c[j].im.objs;
    assert DataPageOk(c[j]);
    forall i | 0 <= i < |d| ensures DataPageOk(d[i]) {
      if i < j {
        assert DataPageOk(c[i]);
      } else if j + 2 <= i {
        assert d[i] == Behind(c[j + 1..], no)[i - j - 2];
        assert DataPageOk(c[i - 1]);
      }
    }
    forall i, k | 0 <= i < k < |d| ensures Precedes(d[i], d[k]) {
      SplitPrecedes(c, j, n, no, i, k);
    }
  }

  lemma {:induction false} SplitStarts(c: Chain, j: nat, n: nat, no: int)
    requires Starts(c) && j < |c| && 0 < n < |c[j].im.objs|
    ensures Starts(SplitChain(c, j, n, no))
  {
    var d := SplitChain(c, j, n, no);
    forall i | 0 < i < |d| ensures StartsAtIdxval(d[i]) {
      if i <= j {
        assert StartsAtIdxval(c[i]);
      } else if j + 2 <= i {
        assert d[i] == Behind(c[j + 1..], no)[i - j - 2];
        assert StartsAtIdxval(c[i - 1]);
      }
    }
  }

  lemma {:induction false} SplitPrecedes(c: Chain, j: nat, n: nat, no: int, i: nat, k: nat)
    requires InOrder(c) && j < |c| && 0 < n < |c[j].im.objs| && no !in Nos(c)
    requires i < k <= |c|
    ensures var d := SplitChain(c, j, n, no); Precedes(d[i], d[k])
  {
    var d := SplitChain(c, j, n, no);
    var i0, k0 := if i <= j then i else i - 1, if k <= j then k else k - 1;
    assert c[i0] in c && c[k0] in c;
    assert DataPageOk(c[j]);
    assert j + 2 <= k ==> d[k] == Behind(c[j + 1..], no)[k - j - 2];
    assert j + 2 <= i ==> d[i] == Behind(c[j + 1..], no)[i - j - 2];
    if i0 < k0 {
      assert Precedes(c[i0], c[k0]);
    }
  }

  lemma {:induction false} SplitLinks(c: Chain, j: nat, n: nat, no: int)
    requires DoublyLinked(c) && j < |c| && 0 < n < |c[j].im.objs|
    ensures DoublyLinked(SplitChain(c, j, n, no))
  {
    var d := SplitChain(c, j, n, no);
    assert LinkedAt(c, j);
    forall i | 0 <= i < |d| ensures LinkedAt(d, i) {
      if i < j {
        assert LinkedAt(c, i);
      } else if j + 2 <= i {
        assert d[i] == Behind(c[j + 1..], no)[i - j - 2];
        assert LinkedAt(c, i - 1);
      }
    }
  }

  lemma {:induction false} SplitIndex(c: Chain, j: nat, n: nat, no: int)
    requires InOrder(c) && j < |c| && 0 < n < |c[j].im.objs|
    ensures IndexOf(SplitChain(c, j, n, no)) == InsertSorted(IndexOf(c), Item(c[j].im.objs[n].idx, no))
  {
    var d := SplitChain(c, j, n, no);
    var it := Item(c[j].im.objs[n].idx, no);
    var s := IndexOf(c);
    assert DataPageOk(c[j]);
    var front := s[..j + 1];
    assert c[j].im.objs[0].idx < c[j].im.objs[n].idx;
    forall i | 0 <= i < |front| ensures front[i].idxv < it.idxv {
      if i < j { IdxvalsRise(c, i, j); }
    }
    if j + 1 < |c| {
      assert Precedes(c[j], c[j + 1]);
    }
    InsertSortedAt(s, j + 1, it);
    forall i | 0 <= i < |d| ensures IndexOf(d)[i] == (s[..j + 1] + [it] + s[j + 1..])[i] {
      assert j + 2 <= i ==> d[i] == Behind(c[j + 1..], no)[i - j - 2];
    }
  }

  /** Splitting a page keeps the chain and its records, and calls for one more index entry. */
  lemma {:induction false} SplitKeepsChain(c: Chain, j: nat, n: nat, no: int)
    requires ChainOk(c) && j < |c| && 0 < n < |c[j].im.objs| && no !in Nos(c)
    ensures var d := SplitChain(c, j, n, no);
            && ChainOk(d) && Records(d) == Records(c) && Nos(d) == Nos(c) + {no}
            && IndexOf(d) == InsertSorted(IndexOf(c), Item(c[j].im.objs[n].idx, no))
  {
    SplitRecords(c, j, n, no);
    SplitOrder(c, j, n, no);
    SplitStarts(c, j, n, no);
    SplitLinks(c, j, n, no);
    SplitIndex(c, j, n, no);
    SplitNos(c, j, n, no);
  }

  lemma {:induction false} SplitNumbers(c: Chain, j: nat, n: nat, no: int, i: nat)
    requires j < |c| && 0 < n < |c[j].im.objs| && i <= |c|
    ensures SplitChain(c, j, n, no)[i].no == if i <= j then c[i].no else if i == j + 1 then no else c[i - 1].no
  {
    if j + 2 <= i {
      assert SplitChain(c, j, n, no)[i] == Behind(c[j + 1..], no)[i - j - 2];
    }
  }

  lemma {:induction false} SplitNos(c: Chain, j: nat, n: nat, no: int)
    requires j < |c| && 0 < n < |c[j].im.objs|
    ensures Nos(SplitChain(c, j, n, no)) == Nos(c) + {no}
  {
    var d := SplitChain(c, j, n, no);
    forall p | p in d ensures p.no in Nos(c) + {no} {
      var i :| 0 <= i < |d| && d[i] == p;
      SplitNumbers(c, j, n, no, i);
      if i != j + 1 {
        NoInNos(c, if i <= j then i else i - 1);
      }
    }
    forall p | p in c ensures p.no in Nos(d) {
      var i :| 0 <= i < |c| && c[i] == p;
      var k := if i <= j then i else i + 1;
      SplitNumbers(c, j, n, no, k);
      NoInNos(d, k);
    }
    NoInNos(d, j + 1);
  }

  /** The page the index names is the one that covers the value. */
  lemma {:induction false} FloorCovers(c: Chain, k: int, p: int)
    requires ChainOk(c) && MIN_IDXV <= k && IsFloorPos(IndexOf(c), k, p)
    ensures Covers(c, p, k)
  {
    if p + 1 < |c| {
      assert IndexOf(c)[p + 1].idxv == c[p + 1].im.idxval;
    }
  }

  /** The records from k on. */
  function Since(s: seq<Record>, k: int): seq<Record> {
    if s == [] then [] else (if k <= s[0].idx then [s[0]] else []) + Since(s[1..], k)
  }

  lemma {:induction false} SinceConcat(a: seq<Record>, b: seq<Record>, k: int)
    ensures Since(a + b, k) == Since(a, k) + Since(b, k)
  {
    if a == [] {
      assert a + b == b;
    } else {
      assert (a + b)[0] == a[0] && (a + b)[1..] == a[1..] + b;
      SinceConcat(a[1..], b, k);
      var h := if k <= a[0].idx then [a[0]] else [];
      assert Since(a, k) == h + Since(a[1..], k);
      assert h + (Since(a[1..], k) + Since(b, k)) == (h + Since(a[1..], k)) + Since(b, k);
    }
  }

  lemma {:induction false} SinceNone(s: seq<Record>, k: int)
    requires Below(s, k)
    ensures Since(s, k) == []
  {
    if s != [] {
      SinceNone(s[1..], k);
    }
  }

  /** Exactly the records at or above k, in ascending order. */
  lemma {:induction false} SinceIsExact(s: seq<Record>, k: int)
    requires Rising(s)
    ensures Rising(Since(s, k))
    ensures forall r :: r in Since(s, k) <==> r in s && k <= r.idx
  {
    if s != [] {
      SinceIsExact(s[1..], k);
      assert s == [s[0]] + s[1..];
      assert forall r :: r in Since(s[1..], k) ==> r in s[1..];
    }
  }

  lemma {:induction false} RecordsRise(c: Chain)
    requires InOrder(c)
    ensures Rising(Records(c))
  {
    if c != [] {
      assert InOrder(c[1..]) by {
        forall i | 0 <= i < |c| - 1 ensures DataPageOk(c[1..][i]) { assert DataPageOk(c[i + 1]); }
        forall i, j | 0 <= i < j < |c| - 1 ensures Precedes(c[1..][i], c[1..][j]) {
          assert Precedes(c[i + 1], c[j + 1]);
        }
      }
      RecordsRise(c[1..]);
      assert DataPageOk(c[0]);
      if 1 < |c| {
        var k := c[1].im.idxval;
        assert Precedes(c[0], c[1]);
        forall i | 0 <= i < |c| - 1 ensures From(k, c[1..][i].im.objs) {
          assert DataPageOk(c[i + 1]);
          if 0 < i { IdxvalsRise(c, 1, i + 1); }
        }
        RecordsFrom(c[1..], k);
      }
    }
  }

  // ---------------------------------------------------------------- the chains of all tags

  ghost predicate TagOk(pages: map<int, DataImage>, c: Chain, sz: Codec, pgsize: nat) {
    && ChainOk(c) && AllFit(sz, pgsize, c) && HoldsChain(pages, c)
    && (forall i :: 0 <= i < |c| ==> 0 <= c[i].no)
  }

  /** The same without the order of the records: pages that are linked, fit and are stored. */
  ghost predicate LooseTag(pages: map<int, DataImage>, c: Chain, sz: Codec, pgsize: nat) {
    && c != [] && DoublyLinked(c) && AllFit(sz, pgsize, c) && HoldsChain(pages, c)
    && (forall i :: 0 <= i < |c| ==> 0 <= c[i].no)
  }

  /** The index leads into the chain: it names pages of the chain only, and the first one. */
  ghost predicate Leads(s: seq<Item>, c: Chain) {
    && c != [] && s != [] && Ascending(s) && s[0] == Item(c[0].im.idxval, c[0].no)
    && (forall x :: x in s ==> x in IndexOf(c))
  }

  ghost predicate Apart(chains: map<string, Chain>) {
    forall t, u :: t in chains && u in chains && t != u ==> Nos(chains[t]) !! Nos(chains[u])
  }

  /** Pages that can be allocated: distinct, and in no chain. */
  ghost predicate Spare(avail: seq<int>, chains: map<string, Chain>) {
    && (forall i :: 0 <= i < |avail| ==> 0 <= avail[i])
    && (forall i, j :: 0 <= i < j < |avail| ==> avail[i] != avail[j])
    && (forall t, no :: t in chains && no in avail ==> no !in Nos(chains[t]))
  }

  ghost predicate Sound(pages: map<int, DataImage>, avail: seq<int>, index: map<string, seq<Item>>,
                        chains: map<string, Chain>, sz: Codec, pgsize: nat) {
    && chains.Keys == index.Keys
    && TagsOk(pages, chains, sz, pgsize) && AllLead(index, chains)
    && Apart(chains) && Spare(avail, chains)
  }

  /** All tags but one are sound, and that one's pages are linked and stored. */
  ghost predicate SoundBut(pages: map<int, DataImage>, avail: seq<int>, index: map<string, seq<Item>>,
                           chains: map<string, Chain>, sz: Codec, pgsize: nat, tag: string) {
    && chains.Keys == index.Keys && tag in chains && LooseTag(pages, chains[tag], sz, pgsize)
    && (forall t :: t in chains && t != tag ==> TagOk(pages, chains[t], sz, pgsize))
    && (forall t :: t in chains && t != tag ==> t in index && Leads(index[t], chains[t]))
    && Apart(chains) && Spare(avail, chains)
  }

  lemma {:induction false} SoundIsSoundBut(pages: map<int, DataImage>, avail: seq<int>, index: map<string, seq<Item>>,
                                           chains: map<string, Chain>, sz: Codec, pgsize: nat, tag: string)
    requires Sound(pages, avail, index, chains, sz, pgsize) && tag in chains
    ensures SoundBut(pages, avail, index, chains, sz, pgsize, tag)
  {
    assert TagOk(pages, chains[tag], sz, pgsize);
  }

  ghost predicate TagsOk(pages: map<int, DataImage>, chains: map<string, Chain>, sz: Codec, pgsize: nat) {
    forall t :: t in chains ==> TagOk(pages, chains[t], sz, pgsize)
  }

  ghost predicate AllLead(index: map<string, seq<Item>>, chains: map<string, Chain>) {
    forall t :: t in chains ==> t in index && Leads(index[t], chains[t])
  }

  /** The index of every tag holds exactly one entry for each page of its chain. */
  ghost predicate Indexed(index: map<string, seq<Item>>, chains: map<string, Chain>) {
    forall t :: t in chains ==> t in index && index[t] == IndexOf(chains[t])
  }

  lemma {:induction false} NoInNos(c: Chain, i: nat)
    requires i < |c|
    ensures c[i].no in Nos(c)
  {
    assert c[i] in c;
  }

  lemma {:induction false} FullIndexLeads(c: Chain)
    requires ChainOk(c)
    ensures Leads(IndexOf(c), c)
  {
    IndexAscending(c);
  }

  /** Writing pages of one tag, or spare ones, leaves the others alone. */
  lemma {:induction false} OthersKept(pages: map<int, DataImage>, pages2: map<int, DataImage>, chains: map<string, Chain>, t: string,
                   nos: set<int>, sz: Codec, pgsize: nat)
    requires forall u :: u in chains ==> TagOk(pages, chains[u], sz, pgsize)
    requires forall no :: no in pages && no !in nos ==> no in pages2 && pages2[no] == pages[no]
    requires forall u :: u in chains && u != t ==> Nos(chains[u]) !! nos
    ensures forall u :: u in chains && u != t ==> TagOk(pages2, chains[u], sz, pgsize)
  {
    forall u | u in chains && u != t ensures TagOk(pages2, chains[u], sz, pgsize) {
      forall i | 0 <= i < |chains[u]| ensures chains[u][i].no in pages2 && pages2[chains[u][i].no] == chains[u][i].im {
        NoInNos(chains[u], i);
      }
    }
  }

  lemma {:induction false} ChainNosDistinct(c: Chain, i: nat, j: nat)
    requires InOrder(c) && i < |c| && j < |c| && i != j
    ensures c[i].no != c[j].no
  {
    if i < j {
      assert Precedes(c[i], c[j]);
    } else {
      assert Precedes(c[j], c[i]);
    }
  }

  /** Rewriting the records of page j. */
  lemma {:induction false} StoredInPage(pages: map<int, DataImage>, c: Chain, j: nat, objs: seq<Record>)
    requires InOrder(c) && HoldsChain(pages, c) && j < |c|
    ensures HoldsChain(pages[c[j].no := c[j].im.(objs := objs)], WithObjs(c, j, objs))
  {
    var d := WithObjs(c, j, objs);
    forall i | 0 <= i < |d| && i != j ensures d[i].no != c[j].no {
      ChainNosDistinct(c, i, j);
    }
  }

  /** What the three writes of a split come to. */
  ghost predicate SplitWrites(pages: map<int, DataImage>, pages2: map<int, DataImage>, pgno: int, im: DataImage, n: nat, no: int)
    requires 0 < n < |im.objs|
  {
    && (im.next != NO_PAGE ==> im.next in pages && im.next != no)
    && var p1 := pages[no := DataImage(im.objs[n].idx, pgno, im.next, im.objs[n..])];
       var p2 := if im.next == NO_PAGE then p1 else p1[im.next := p1[im.next].(prev := no)];
       pages2 == p2[pgno := im.(next := no, objs := im.objs[..n])]
  }

  /** Those writes store the split chain. */
  lemma {:induction false} StoredSplit(pages: map<int, DataImage>, pages2: map<int, DataImage>, c: Chain, j: nat,
                                       objs: seq<Record>, n: nat, no: int)
    requires InOrder(c) && DoublyLinked(c) && HoldsChain(pages, c) && j < |c| && 0 < n < |objs| && no !in Nos(c)
    requires forall i :: 0 <= i < |c| ==> 0 <= c[i].no
    requires SplitWrites(pages, pages2, c[j].no, c[j].im.(objs := objs), n, no)
    ensures HoldsChain(pages2, SplitChain(WithObjs(c, j, objs), j, n, no))
    ensures forall m :: m in pages && m !in Nos(c) && m != no ==> m in pages2 && pages2[m] == pages[m]
  {
    var d := SplitChain(WithObjs(c, j, objs), j, n, no);
    assert LinkedAt(c, j);
    NoInNos(c, j);
    if j + 1 < |c| { NoInNos(c, j + 1); ChainNosDistinct(c, j, j + 1); }
    forall i | 0 <= i < |d| ensures d[i].no in pages2 && pages2[d[i].no] == d[i].im {
      var i0 := if i <= j then i else i - 1;
      NoInNos(c, i0);
      assert j + 2 <= i ==> d[i] == Behind(WithObjs(c, j, objs)[j + 1..], no)[i - j - 2];
      if i0 != j {
        ChainNosDistinct(c, i0, j);
        if j + 1 < |c| && i0 != j + 1 { ChainNosDistinct(c, i0, j + 1); }
      }
    }
  }

  /** Page numbers a chain may grow by: they come from the pages that can be allocated. */
  ghost predicate Grown(chains: map<string, Chain>, t: string, c2: Chain, avail: seq<int>, avail2: seq<int>) {
    && (forall no :: no in Nos(c2) ==> (t in chains && no in Nos(chains[t])) || (no in avail && no !in avail2))
    && (avail2 == avail || (avail != [] && avail2 == avail[1..]))
  }

  lemma {:induction false} GrownApart(chains: map<string, Chain>, t: string, c2: Chain, avail: seq<int>, avail2: seq<int>)
    requires Apart(chains) && Spare(avail, chains) && Grown(chains, t, c2, avail, avail2)
    ensures forall u :: u in chains && u != t ==> Nos(chains[u]) !! Nos(c2)
    ensures Apart(chains[t := c2])
  {
    forall u | u in chains && u != t ensures Nos(chains[u]) !! Nos(c2) {
      forall no | no in Nos(c2) ensures no !in Nos(chains[u]) {
      }
    }
  }

  lemma {:induction false} GrownSpare(chains: map<string, Chain>, t: string, c2: Chain, avail: seq<int>, avail2: seq<int>)
    requires Spare(avail, chains) && Grown(chains, t, c2, avail, avail2)
    ensures Spare(avail2, chains[t := c2])
  {
    assert forall no :: no in avail2 ==> no in avail;
  }

  /** One tag gets a new chain, made of its own pages and perhaps an allocated one. */
  lemma {:induction false} SoundUpdate(pages: map<int, DataImage>, avail: seq<int>, index: map<string, seq<Item>>,
      chains: map<string, Chain>, sz: Codec, pgsize: nat,
      pages2: map<int, DataImage>, avail2: seq<int>, t: string, s2: seq<Item>, c2: Chain)
    requires Sound(pages, avail, index, chains, sz, pgsize)
    requires TagOk(pages2, c2, sz, pgsize) && Leads(s2, c2) && Grown(chains, t, c2, avail, avail2)
    requires forall no :: no in pages && no !in Nos(c2) ==> no in pages2 && pages2[no] == pages[no]
    ensures Sound(pages2, avail2, index[t := s2], chains[t := c2], sz, pgsize)
    ensures Indexed(index, chains) && s2 == IndexOf(c2) ==> Indexed(index[t := s2], chains[t := c2])
  {
    GrownApart(chains, t, c2, avail, avail2);
    GrownSpare(chains, t, c2, avail, avail2);
    assert forall u :: u in chains ==> TagOk(pages, chains[u], sz, pgsize);
    OthersKept(pages, pages2, chains, t, Nos(c2), sz, pgsize);
  }

  /** The same when the order of the tag's records is not known. */
  lemma {:induction false} SoundButUpdate(pages: map<int, DataImage>, avail: seq<int>, index: map<string, seq<Item>>,
      chains: map<string, Chain>, sz: Codec, pgsize: nat,
      pages2: map<int, DataImage>, avail2: seq<int>, t: string, s2: seq<Item>, c2: Chain)
    requires Sound(pages, avail, index, chains, sz, pgsize)
    requires LooseTag(pages2, c2, sz, pgsize) && Grown(chains, t, c2, avail, avail2)
    requires forall no :: no in pages && no !in Nos(c2) ==> no in pages2 && pages2[no] == pages[no]
    ensures SoundBut(pages2, avail2, index[t := s2], chains[t := c2], sz, pgsize, t)
  {
    var chains2, index2 := chains[t := c2], index[t := s2];
    GrownApart(chains, t, c2, avail, avail2);
    GrownSpare(chains, t, c2, avail, avail2);
    OthersKept(pages, pages2, chains, t, Nos(c2), sz, pgsize);
    forall u | u in chains2 && u != t
      ensures TagOk(pages2, chains2[u], sz, pgsize) && u in index2 && Leads(index2[u], chains2[u]) {
      assert u in chains;
    }
  }

  /** One more entry for a page of the chain: the index still leads into it. */
  lemma {:induction false} EntryAdded(s: seq<Item>, c: Chain, it: Item)
    requires Leads(s, c) && it in IndexOf(c) && s[0].idxv < it.idxv
    ensures Leads(InsertSorted(s, it), c)
  {
    InsertSortedIsUpdate(s, it);
  }

  /** Position of the page with a number, or the length of the chain. */
  function Position(c: Chain, no: int): (i: nat)
    ensures i <= |c| && (i < |c| ==> c[i].no == no)
    ensures forall k :: 0 <= k < i ==> c[k].no != no
  {
    if c == [] || c[0].no == no then 0 else 1 + Position(c[1..], no)
  }

  lemma {:induction false} NamedPage(c: Chain, x: Item)
    requires InOrder(c) && x in IndexOf(c)
    ensures var j := Position(c, x.pgno); j < |c| && IndexOf(c)[j] == x
  {
    var j :| 0 <= j < |c| && IndexOf(c)[j] == x;
    var i := Position(c, x.pgno);
    if i < j {
      ChainNosDistinct(c, i, j);
    }
  }
}
