/** The shape of a B+ tree as values: pages, levels of pages from left to right, and the stack of
    levels from some level up to the root. The in-order reading of an index level is exactly the
    list of separators of the level below it, so one statement about inserting into (or deleting
    from) the in-order reading of a level serves every step of a cascade of splits or merges. */
module BPlusTreeModel {

  const END_NO := -1
  const MIN_IDXV := 0

  /** A key and the page it leads to: a child page in an index page, a data page in a leaf. */
  datatype Item = Item(idxv: int, pgno: int)

  datatype Flag = IdxPage | LeafPage

  /** A decoded page: header fields and items. */
  datatype Image = Image(flag: Flag, pgidx: int, right: int, items: seq<Item>)

  /** A page together with its number. */
  datatype Pg = Pg(no: int, im: Image)

  type Level = seq<Pg>

  // ---------------------------------------------------------------- in-order readings

  /** The items of a level, read from left to right. */
  function Flat(lv: Level): seq<Item> {
    if lv == [] then [] else lv[0].im.items + Flat(lv[1..])
  }

  /** What the level above must say about this level: one item for every page. */
  function Seps(lv: Level): seq<Item> {
    seq(|lv|, i requires 0 <= i < |lv| => Item(lv[i].im.pgidx, lv[i].no))
  }

  function LevelNos(lv: Level): set<int> {
    set p | p in lv :: p.no
  }

  function StackNos(st: seq<Level>): set<int> {
    if st == [] then {} else LevelNos(st[0]) + StackNos(st[1..])
  }

  // ---------------------------------------------------------------- well-formedness

  ghost predicate Ascending(s: seq<Item>) {
    forall i, j :: 0 <= i < j < |s| ==> s[i].idxv < s[j].idxv
  }

  ghost predicate AllBelow(s: seq<Item>, k: int) {
    forall i :: 0 <= i < |s| ==> s[i].idxv < k
  }

  ghost predicate AllFrom(k: int, s: seq<Item>) {
    forall i :: 0 <= i < |s| ==> k <= s[i].idxv
  }

  ghost predicate PageOk(p: Pg, kind: Flag, cap: nat) {
    && p.im.flag == kind
    && 1 <= |p.im.items| < cap
    && Ascending(p.im.items)
    && p.im.pgidx <= p.im.items[0].idxv
    && (kind.IdxPage? ==> p.im.items[0].idxv == p.im.pgidx)
  }

  /** Page p stands left of page q: all its keys are below q's separator. */
  ghost predicate Before(p: Pg, q: Pg) {
    p.no != q.no && AllBelow(p.im.items, q.im.pgidx)
  }

  ghost predicate Ordered(lv: Level, kind: Flag, cap: nat) {
    && (forall i {:trigger PageOk(lv[i], kind, cap)} :: 0 <= i < |lv| ==> PageOk(lv[i], kind, cap))
    && (forall i, j {:trigger Before(lv[i], lv[j])} :: 0 <= i < j < |lv| ==> Before(lv[i], lv[j]))
  }

  function NextNo(lv: Level, i: nat): int {
    if i + 1 < |lv| then lv[i + 1].no else END_NO
  }

  /** The right links of a level lead from each page to the next one. */
  ghost predicate Chained(lv: Level) {
    forall i :: 0 <= i < |lv| ==> lv[i].im.right == NextNo(lv, i)
  }

  ghost predicate LevelOk(lv: Level, kind: Flag, cap: nat) {
    && 0 < |lv|
    && Ordered(lv, kind, cap)
    && Chained(lv)
    && lv[0].im.pgidx == MIN_IDXV
  }

  /** A well-formed stack of levels, bottom level first, with the root alone on top. */
  ghost predicate StackOk(st: seq<Level>, kind: Flag, root: int, cap: nat) {
    && 0 < |st|
    && LevelOk(st[0], kind, cap)
    && if |st| == 1 then
         |st[0]| == 1 && st[0][0].no == root
       else
         && Flat(st[1]) == Seps(st[0])
         && LevelNos(st[0]) !! StackNos(st[1..])
         && StackOk(st[1..], IdxPage, root, cap)
  }

  /** The storage holds every page of the level. */
  ghost predicate HoldsLevel(img: map<int, Image>, lv: Level) {
    forall i :: 0 <= i < |lv| ==> lv[i].no in img && img[lv[i].no] == lv[i].im
  }

  ghost predicate Holds(img: map<int, Image>, st: seq<Level>) {
    st == [] || (HoldsLevel(img, st[0]) && Holds(img, st[1..]))
  }

  /** Every leaf except the first starts at its own separator. Trees built by inserts only are
      like this, because a page gets its separator when it is split off. */
  ghost predicate Tight(lv: Level) {
    forall i :: 0 < i < |lv| && lv[i].im.items != [] ==> lv[i].im.items[0].idxv == lv[i].im.pgidx
  }

  // ---------------------------------------------------------------- sorted item lists

  /** Insert an item into an ascending list, or replace the item with the same key. */
  function InsertSorted(s: seq<Item>, it: Item): seq<Item> {
    if s == [] then [it]
    else if it.idxv < s[0].idxv then [it] + s
    else if it.idxv == s[0].idxv then [it] + s[1..]
    else [s[0]] + InsertSorted(s[1..], it)
  }

  /** The list as a map from keys to page numbers. */
  function AsMap(s: seq<Item>): map<int, int> {
    if s == [] then map[] else AsMap(s[1..])[s[0].idxv := s[0].pgno]
  }

  /** Position of the greatest key at or below k, or 0 when every key is greater. */
  ghost predicate IsFloorPos(s: seq<Item>, k: int, p: int) {
    && 0 <= p < |s|
    && (k < s[p].idxv ==> p == 0)
    && (forall i :: p < i < |s| ==> k < s[i].idxv)
  }

  lemma {:induction false} AsMapLookup(s: seq<Item>, k: int)
    requires Ascending(s)
    ensures k in AsMap(s) <==> exists i :: 0 <= i < |s| && s[i].idxv == k
    ensures forall i :: 0 <= i < |s| ==> s[i].idxv in AsMap(s) && AsMap(s)[s[i].idxv] == s[i].pgno
  {
    if s != [] {
      AsMapLookup(s[1..], k);
      assert forall i :: 0 < i < |s| ==> s[i] == s[1..][i - 1];
    }
  }

  /** An ascending list is determined by the map it stands for. */
  lemma {:induction false} AsMapInjective(s: seq<Item>, t: seq<Item>)
    requires Ascending(s) && Ascending(t) && AsMap(s) == AsMap(t)
    ensures s == t
  {
    if s == [] {
      if t != [] { AsMapLookup(t, t[0].idxv); assert false; }
    } else {
      AsMapLookup(s, s[0].idxv);
      AsMapLookup(t, s[0].idxv);
      assert t != [];
      AsMapLookup(s, t[0].idxv);
      assert s[0] == t[0];
      AsMapTail(s);
      AsMapTail(t);
      AsMapInjective(s[1..], t[1..]);
      assert s == [s[0]] + s[1..] && t == [t[0]] + t[1..];
    }
  }

  lemma {:induction false} AsMapTail(s: seq<Item>)
    requires Ascending(s) && s != []
    ensures AsMap(s[1..]) == AsMap(s) - {s[0].idxv}
  {
    AsMapLookup(s[1..], s[0].idxv);
  }

  /** Sorted insertion is the map update, and keeps the list ascending. */
  lemma {:induction false} InsertSortedIsUpdate(s: seq<Item>, it: Item)
    requires Ascending(s)
    ensures Ascending(InsertSorted(s, it))
    ensures AsMap(InsertSorted(s, it)) == AsMap(s)[it.idxv := it.pgno]
    ensures forall x :: x in InsertSorted(s, it) ==> x == it || x in s
  {
    InsertSortedMembers(s, it);
    if s == [] {
    } else if s[0].idxv < it.idxv {
      InsertSortedIsUpdate(s[1..], it);
      var r := InsertSorted(s[1..], it);
      forall i | 0 <= i < |r| ensures s[0].idxv < r[i].idxv {
        assert r[i] in r;
        InsertSortedMembers(s[1..], it);
      }
    } else if s[0].idxv == it.idxv {
      assert ([it] + s[1..])[1..] == s[1..];
    } else {
      assert ([it] + s)[1..] == s;
    }
  }

  lemma {:induction false} InsertSortedMembers(s: seq<Item>, it: Item)
    ensures forall x :: x in InsertSorted(s, it) ==> x == it || x in s
  {
    if s != [] {
      InsertSortedMembers(s[1..], it);
    }
  }

  /** Where sorted insertion puts a new key, or which item it replaces. */
  lemma {:induction false} InsertSortedAt(s: seq<Item>, p: nat, it: Item)
    requires p <= |s| && AllBelow(s[..p], it.idxv)
    ensures p == |s| || it.idxv < s[p].idxv ==> InsertSorted(s, it) == s[..p] + [it] + s[p..]
    ensures p < |s| && it.idxv == s[p].idxv ==> InsertSorted(s, it) == s[p := it]
  {
    if p == 0 {
      assert s[..0] + [it] + s[0..] == [it] + s;
    } else {
      assert s[..p][0] == s[0];
      assert s[1..][..p - 1] == s[..p][1..];
      InsertSortedAt(s[1..], p - 1, it);
      if p == |s| || it.idxv < s[p].idxv {
        assert [s[0]] + (s[1..][..p - 1] + [it] + s[1..][p - 1..]) == s[..p] + [it] + s[p..];
      } else if it.idxv == s[p].idxv {
        assert [s[0]] + s[1..][p - 1 := it] == s[p := it];
      }
    }
  }

  /** Insertion into a segment that may hold the key, between smaller and greater keys. */
  lemma {:induction false} InsertSortedMid(a: seq<Item>, b: seq<Item>, c: seq<Item>, it: Item)
    requires AllBelow(a, it.idxv) && AllFrom(it.idxv + 1, c)
    ensures InsertSorted(a + b + c, it) == a + InsertSorted(b, it) + c
  {
    if a == [] {
      assert a + b + c == b + c;
      InsertSortedFront(b, c, it);
    } else {
      InsertSortedMid(a[1..], b, c, it);
      assert (a + b + c)[1..] == a[1..] + b + c;
      assert [a[0]] + (a[1..] + InsertSorted(b, it) + c) == a + InsertSorted(b, it) + c;
    }
  }

  lemma {:induction false} InsertSortedFront(b: seq<Item>, c: seq<Item>, it: Item)
    requires AllFrom(it.idxv + 1, c)
    ensures InsertSorted(b + c, it) == InsertSorted(b, it) + c
  {
    if b == [] {
      assert b + c == c;
    } else {
      assert (b + c)[1..] == b[1..] + c;
      InsertSortedFront(b[1..], c, it);
    }
  }

  // ---------------------------------------------------------------- levels

  lemma {:induction false} FlatConcat(a: Level, b: Level)
    ensures Flat(a + b) == Flat(a) + Flat(b)
  {
    if a == [] {
      assert a + b == b;
    } else {
      assert (a + b)[1..] == a[1..] + b;
      FlatConcat(a[1..], b);
    }
  }

  lemma {:induction false} FlatAround(lv: Level, j: nat)
    requires j < |lv|
    ensures Flat(lv) == Flat(lv[..j]) + lv[j].im.items + Flat(lv[j + 1..])
  {
    assert lv == lv[..j] + lv[j..];
    FlatConcat(lv[..j], lv[j..]);
  }

  lemma {:induction false} FlatMember(lv: Level, x: Item) returns (i: nat)
    requires x in Flat(lv)
    ensures i < |lv| && x in lv[i].im.items
  {
    if x in lv[0].im.items {
      i := 0;
    } else {
      var k := FlatMember(lv[1..], x);
      i := k + 1;
    }
  }

  lemma {:induction false} FlatHas(lv: Level, j: nat, x: Item)
    requires j < |lv| && x in lv[j].im.items
    ensures x in Flat(lv)
  {
    FlatAround(lv, j);
  }

  /** Keys left of page j are below its separator. */
  lemma {:induction false} FlatLeft(lv: Level, kind: Flag, cap: nat, j: nat)
    requires Ordered(lv, kind, cap) && j < |lv|
    ensures AllBelow(Flat(lv[..j]), lv[j].im.pgidx)
  {
    var f := Flat(lv[..j]);
    forall i | 0 <= i < |f| ensures f[i].idxv < lv[j].im.pgidx {
      var m := FlatMember(lv[..j], f[i]);
      assert lv[..j][m] == lv[m];
      assert Before(lv[m], lv[j]);
    }
  }

  /** Keys right of page j are at or above the next page's separator. */
  lemma {:induction false} FlatRight(lv: Level, kind: Flag, cap: nat, j: nat)
    requires Ordered(lv, kind, cap) && j + 1 < |lv|
    ensures AllFrom(lv[j + 1].im.pgidx, Flat(lv[j + 1..]))
  {
    var f := Flat(lv[j + 1..]);
    forall i | 0 <= i < |f| ensures lv[j + 1].im.pgidx <= f[i].idxv {
      var m := FlatMember(lv[j + 1..], f[i]);
      assert lv[j + 1..][m] == lv[j + 1 + m];
      PageKeysFrom(lv[j + 1 + m], kind, cap, f[i]);
      SepsRise(lv, kind, cap, j + 1, j + 1 + m);
    }
  }

  lemma {:induction false} PageKeysFrom(p: Pg, kind: Flag, cap: nat, x: Item)
    requires PageOk(p, kind, cap) && x in p.im.items
    ensures p.im.pgidx <= x.idxv
  {
    var i :| 0 <= i < |p.im.items| && p.im.items[i] == x;
    if 0 < i { assert p.im.items[0].idxv < p.im.items[i].idxv; }
  }

  lemma {:induction false} SepsRise(lv: Level, kind: Flag, cap: nat, i: nat, j: nat)
    requires Ordered(lv, kind, cap) && i <= j < |lv|
    ensures lv[i].im.pgidx <= lv[j].im.pgidx
    ensures i < j ==> lv[i].im.pgidx < lv[j].im.pgidx
  {
    if i < j {
      assert Before(lv[i], lv[j]);
      assert PageOk(lv[i], kind, cap);
      assert lv[i].im.items[0].idxv < lv[j].im.pgidx;
    }
  }

  /** The in-order reading of an ordered level is strictly ascending. */
  lemma {:induction false} FlatAscending(lv: Level, kind: Flag, cap: nat)
    requires Ordered(lv, kind, cap)
    ensures Ascending(Flat(lv))
  {
    if lv != [] {
      assert Ordered(lv[1..], kind, cap) by { OrderedSlice(lv, kind, cap, 1); }
      FlatAscending(lv[1..], kind, cap);
      var a, b := lv[0].im.items, Flat(lv[1..]);
      assert PageOk(lv[0], kind, cap);
      if |lv| > 1 {
        FlatRight(lv, kind, cap, 0);
        assert Before(lv[0], lv[1]);
        assert forall i, j :: 0 <= i < |a| && 0 <= j < |b| ==> a[i].idxv < b[j].idxv;
      } else {
        assert b == [];
      }
    }
  }

  lemma {:induction false} OrderedSlice(lv: Level, kind: Flag, cap: nat, n: nat)
    requires Ordered(lv, kind, cap) && n <= |lv|
    ensures Ordered(lv[n..], kind, cap)
  {
  }

  /** A level's separators are strictly ascending. */
  lemma {:induction false} SepsAscending(lv: Level, kind: Flag, cap: nat)
    requires Ordered(lv, kind, cap)
    ensures Ascending(Seps(lv))
  {
    forall i, j | 0 <= i < j < |lv| ensures Seps(lv)[i].idxv < Seps(lv)[j].idxv {
      SepsRise(lv, kind, cap, i, j);
    }
  }

  /** Key k belongs to page j of the level. */
  ghost predicate InPage(lv: Level, j: int, k: int) {
    && 0 <= j < |lv|
    && lv[j].im.pgidx <= k
    && (j + 1 < |lv| ==> k < lv[j + 1].im.pgidx)
  }

  /** Inserting into the page a key belongs to is inserting into the whole level's reading. */
  lemma {:induction false} InsertInLevel(lv: Level, kind: Flag, cap: nat, j: nat, it: Item)
    requires Ordered(lv, kind, cap) && InPage(lv, j, it.idxv)
    ensures InsertSorted(Flat(lv), it)
         == Flat(lv[..j]) + InsertSorted(lv[j].im.items, it) + Flat(lv[j + 1..])
  {
    FlatAround(lv, j);
    FlatLeft(lv, kind, cap, j);
    if j + 1 < |lv| {
      FlatRight(lv, kind, cap, j);
    }
    InsertSortedMid(Flat(lv[..j]), lv[j].im.items, Flat(lv[j + 1..]), it);
  }

  /** Rewriting the items of page j inside its range keeps the level well-formed, keeps its
      separators, and rewrites its reading in place. */
  lemma {:induction false} ReplaceItems(lv: Level, kind: Flag, cap: nat, j: nat, p: Pg)
    requires LevelOk(lv, kind, cap) && j < |lv|
    requires PageOk(p, kind, cap) && p.no == lv[j].no
    requires p.im.pgidx == lv[j].im.pgidx && p.im.right == lv[j].im.right
    requires j + 1 < |lv| ==> AllBelow(p.im.items, lv[j + 1].im.pgidx)
    ensures LevelOk(lv[j := p], kind, cap)
    ensures Seps(lv[j := p]) == Seps(lv)
    ensures LevelNos(lv[j := p]) == LevelNos(lv)
    ensures Flat(lv[j := p]) == Flat(lv[..j]) + p.im.items + Flat(lv[j + 1..])
  {
    var w := lv[j := p];
    ReplaceOrdered(lv, kind, cap, j, p);
    ReplaceChained(lv, j, p);
    SameNos(lv, w);
    FlatAround(w, j);
    assert w[..j] == lv[..j] && w[j + 1..] == lv[j + 1..];
  }

  lemma {:induction false} ReplaceOrdered(lv: Level, kind: Flag, cap: nat, j: nat, p: Pg)
    requires Ordered(lv, kind, cap) && j < |lv|
    requires PageOk(p, kind, cap) && p.no == lv[j].no && p.im.pgidx == lv[j].im.pgidx
    requires j + 1 < |lv| ==> AllBelow(p.im.items, lv[j + 1].im.pgidx)
    ensures Ordered(lv[j := p], kind, cap)
  {
    var w := lv[j := p];
    forall m | j < m < |lv| ensures Before(p, lv[m]) {
      assert Before(lv[j], lv[m]);
      SepsRise(lv, kind, cap, j + 1, m);
    }
    forall a, b | 0 <= a < b < |w| ensures Before(w[a], w[b]) {
      assert Before(lv[a], lv[b]);
    }
  }

  lemma {:induction false} ReplaceChained(lv: Level, j: nat, p: Pg)
    requires Chained(lv) && j < |lv| && p.no == lv[j].no && p.im.right == lv[j].im.right
    ensures Chained(lv[j := p])
  {
    var w := lv[j := p];
    forall i | 0 <= i < |w| ensures w[i].im.right == NextNo(w, i) {
      assert lv[i].im.right == NextNo(lv, i);
    }
  }

  lemma {:induction false} SameNos(a: Level, b: Level)
    requires |a| == |b| && forall i :: 0 <= i < |a| ==> a[i].no == b[i].no
    ensures LevelNos(a) == LevelNos(b)
  {
    forall n ensures n in LevelNos(a) <==> n in LevelNos(b) {
      if n in LevelNos(a) {
        var i :| 0 <= i < |a| && a[i].no == n;
        assert b[i] in b;
      }
      if n in LevelNos(b) {
        var i :| 0 <= i < |b| && b[i].no == n;
        assert a[i] in a;
      }
    }
  }

  /** The level with page j replaced by two pages. */
  function SplitAt(lv: Level, j: nat, l: Pg, r: Pg): Level
    requires j < |lv|
  {
    lv[..j] + [l, r] + lv[j + 1..]
  }

  /** Splitting page j in two keeps the level well-formed and its reading; its separators gain
      the new page's. */
  lemma {:induction false} SplitPage(lv: Level, kind: Flag, cap: nat, j: nat, l: Pg, r: Pg)
    requires LevelOk(lv, kind, cap) && j < |lv|
    requires PageOk(l, kind, cap) && PageOk(r, kind, cap)
    requires l.no == lv[j].no && l.im.pgidx == lv[j].im.pgidx
    requires l.im.right == r.no && r.im.right == lv[j].im.right
    requires r.no !in LevelNos(lv)
    requires l.im.pgidx < r.im.pgidx && AllBelow(l.im.items, r.im.pgidx)
    requires j + 1 < |lv| ==> AllBelow(r.im.items, lv[j + 1].im.pgidx) && r.im.pgidx < lv[j + 1].im.pgidx
    ensures LevelOk(SplitAt(lv, j, l, r), kind, cap)
    ensures Seps(SplitAt(lv, j, l, r)) == InsertSorted(Seps(lv), Item(r.im.pgidx, r.no))
    ensures LevelNos(SplitAt(lv, j, l, r)) == LevelNos(lv) + {r.no}
    ensures Flat(SplitAt(lv, j, l, r)) == Flat(lv[..j]) + (l.im.items + r.im.items) + Flat(lv[j + 1..])
  {
    var w := SplitAt(lv, j, l, r);
    SplitOrdered(lv, kind, cap, j, l, r);
    SplitChained(lv, j, l, r);
    SplitNos(lv, j, l, r);
    SplitSeps(lv, kind, cap, j, l, r);
    SplitFlat(lv, j, l, r);
  }

  lemma {:induction false} SplitFlat(lv: Level, j: nat, l: Pg, r: Pg)
    requires j < |lv|
    ensures Flat(SplitAt(lv, j, l, r)) == Flat(lv[..j]) + (l.im.items + r.im.items) + Flat(lv[j + 1..])
  {
    assert SplitAt(lv, j, l, r) == lv[..j] + ([l, r] + lv[j + 1..]);
    FlatConcat(lv[..j], [l, r] + lv[j + 1..]);
    FlatConcat([l, r], lv[j + 1..]);
    assert [l, r][1..] == [r];
    assert Flat([l, r]) == l.im.items + r.im.items by { assert Flat([r]) == r.im.items; }
  }

  lemma {:induction false} SplitSeps(lv: Level, kind: Flag, cap: nat, j: nat, l: Pg, r: Pg)
    requires Ordered(lv, kind, cap) && j < |lv|
    requires l.no == lv[j].no && l.im.pgidx == lv[j].im.pgidx < r.im.pgidx
    requires j + 1 < |lv| ==> r.im.pgidx < lv[j + 1].im.pgidx
    ensures Seps(SplitAt(lv, j, l, r)) == InsertSorted(Seps(lv), Item(r.im.pgidx, r.no))
  {
    var s, it := Seps(lv), Item(r.im.pgidx, r.no);
    forall i | 0 <= i < j + 1 ensures s[i].idxv < it.idxv {
      SepsRise(lv, kind, cap, i, j);
    }
    InsertSortedAt(s, j + 1, it);
    assert Seps(SplitAt(lv, j, l, r)) == s[..j + 1] + [it] + s[j + 1..];
  }

  lemma {:induction false} SplitChained(lv: Level, j: nat, l: Pg, r: Pg)
    requires Chained(lv) && j < |lv| && l.no == lv[j].no
    requires l.im.right == r.no && r.im.right == lv[j].im.right
    ensures Chained(SplitAt(lv, j, l, r))
  {
    var w := SplitAt(lv, j, l, r);
    forall i | 0 <= i < |w| ensures w[i].im.right == NextNo(w, i) {
      var m := if i <= j then i else i - 1;
      assert lv[m].im.right == NextNo(lv, m);
    }
  }

  lemma {:induction false} SplitOrdered(lv: Level, kind: Flag, cap: nat, j: nat, l: Pg, r: Pg)
    requires Ordered(lv, kind, cap) && j < |lv|
    requires PageOk(l, kind, cap) && PageOk(r, kind, cap)
    requires l.no == lv[j].no && l.im.pgidx == lv[j].im.pgidx
    requires r.no !in LevelNos(lv)
    requires l.im.pgidx < r.im.pgidx && AllBelow(l.im.items, r.im.pgidx)
    requires j + 1 < |lv| ==> AllBelow(r.im.items, lv[j + 1].im.pgidx)
    ensures Ordered(SplitAt(lv, j, l, r), kind, cap)
  {
    var w := SplitAt(lv, j, l, r);
    assert forall i :: 0 <= i < |lv| ==> lv[i].no in LevelNos(lv);
    forall a, b | 0 <= a < b < |w| ensures Before(w[a], w[b]) {
      if a < j {
        assert w[a] == lv[a];
        if b < j {
          assert Before(lv[a], lv[b]);
        } else if b <= j + 1 {
          assert Before(lv[a], lv[j]);
        } else {
          assert Before(lv[a], lv[b - 1]);
        }
      } else if b > j + 1 {
        assert Before(lv[j], lv[b - 1]);
        SepsRise(lv, kind, cap, j + 1, b - 1);
        if a <= j + 1 {
          if j + 1 < |lv| {
            assert r.im.items[0].idxv < lv[j + 1].im.pgidx;
          }
        } else {
          assert Before(lv[a - 1], lv[b - 1]);
        }
      }
    }
  }

  lemma {:induction false} SplitNos(lv: Level, j: nat, l: Pg, r: Pg)
    requires j < |lv| && l.no == lv[j].no
    ensures LevelNos(SplitAt(lv, j, l, r)) == LevelNos(lv) + {r.no}
  {
    var w := SplitAt(lv, j, l, r);
    forall i | 0 <= i < |lv| ensures lv[i].no in LevelNos(w) {
      var m := if i <= j then i else i + 1;
      assert w[m].no == lv[i].no && w[m] in w;
    }
    assert w[j + 1] == r && r in w;
    forall n | n in LevelNos(w) ensures n in LevelNos(lv) + {r.no} {
      var m :| 0 <= m < |w| && w[m].no == n;
      if m != j + 1 {
        var i := if m <= j then m else m - 1;
        assert lv[i].no == n && lv[i] in lv;
      }
    }
  }

  // ---------------------------------------------------------------- frames

  /** Two storages agree on a set of page numbers. */
  ghost predicate Agree(a: map<int, Image>, b: map<int, Image>, nos: set<int>) {
    forall n :: n in nos ==> (n in a <==> n in b) && (n in a ==> a[n] == b[n])
  }

  lemma {:induction false} HoldsFrame(a: map<int, Image>, b: map<int, Image>, st: seq<Level>)
    requires Holds(a, st) && Agree(a, b, StackNos(st))
    ensures Holds(b, st)
  {
    if st != [] {
      forall i | 0 <= i < |st[0]| ensures st[0][i].no in b && b[st[0][i].no] == st[0][i].im {
        assert st[0][i].no in LevelNos(st[0]);
      }
      HoldsFrame(a, b, st[1..]);
    }
  }

  lemma {:induction false} HoldsNos(img: map<int, Image>, st: seq<Level>)
    requires Holds(img, st)
    ensures StackNos(st) <= img.Keys
  {
    if st != [] {
      HoldsNos(img, st[1..]);
    }
  }
}
