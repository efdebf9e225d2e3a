/** What removing an entry does to a stack of levels: shrinking a page, merging two neighbours, or
    dropping a page that has no neighbour under its parent. */
module BPlusTreeErase {
  import opened BPlusTreeModel
  import opened BPlusTreeDescent
  import opened BPlusTreeInsert
  import opened BPlusTreeLookup

  function RemoveAt<T>(s: seq<T>, p: nat): seq<T>
    requires p < |s|
  {
    s[..p] + s[p + 1..]
  }

  /** The list without its first occurrence of x. */
  function Remove(s: seq<Item>, x: Item): seq<Item> {
    if s == [] then [] else if s[0] == x then s[1..] else [s[0]] + Remove(s[1..], x)
  }

  lemma {:induction false} RemoveIsAt(s: seq<Item>, p: nat, x: Item)
    requires Ascending(s) && p < |s| && s[p] == x
    ensures Remove(s, x) == RemoveAt(s, p)
  {
    if 0 < p {
      assert s[0].idxv < s[p].idxv;
      RemoveIsAt(s[1..], p - 1, x);
      assert [s[0]] + RemoveAt(s[1..], p - 1) == RemoveAt(s, p);
    }
  }

  /** Removing an entry is removing its key from the map the list stands for, and nothing else. */
  lemma {:induction false} RemoveIsMapRemoval(s: seq<Item>, x: Item)
    requires Ascending(s) && x in s
    ensures Ascending(Remove(s, x))
    ensures AsMap(Remove(s, x)) == AsMap(s) - {x.idxv}
  {
    var p :| 0 <= p < |s| && s[p] == x;
    RemoveIsAt(s, p, x);
    MapWithout(s, p);
    AscendingWithout(s, p);
  }

  lemma {:induction false} AscendingWithout(s: seq<Item>, p: nat)
    requires Ascending(s) && p < |s|
    ensures Ascending(RemoveAt(s, p))
  {
    var t := RemoveAt(s, p);
    forall i, j | 0 <= i < j < |t| ensures t[i].idxv < t[j].idxv {
      var k, m := if i < p then i else i + 1, if j < p then j else j + 1;
      assert t[i] == s[k] && t[j] == s[m];
    }
  }

  lemma {:induction false} MapWithout(s: seq<Item>, p: nat)
    requires Ascending(s) && p < |s|
    ensures AsMap(RemoveAt(s, p)) == AsMap(s) - {s[p].idxv}
  {
    if p == 0 {
      AsMapTail(s);
      assert RemoveAt(s, 0) == s[1..];
    } else {
      MapWithout(s[1..], p - 1);
      assert RemoveAt(s, p)[1..] == RemoveAt(s[1..], p - 1);
      assert s[0].idxv < s[p].idxv;
    }
  }

  /** The map has this entry. */
  ghost predicate EntryOf(m: map<int, int>, x: Item) {
    x.idxv in m && m[x.idxv] == x.pgno
  }

  /** Removing an entry of a level is removing its key from the map of the level. */
  lemma {:induction false} RemoveInMap(lv: Level, kind: Flag, cap: nat, x: Item)
    requires Ordered(lv, kind, cap)
    ensures x in Flat(lv) <==> EntryOf(AsMap(Flat(lv)), x)
    ensures x in Flat(lv) ==> AsMap(Remove(Flat(lv), x)) == AsMap(Flat(lv)) - {x.idxv}
  {
    var s := Flat(lv);
    FlatAscending(lv, kind, cap);
    AsMapLookup(s, x.idxv);
    if x.idxv in AsMap(s) {
      var i :| 0 <= i < |s| && s[i].idxv == x.idxv;
      assert s[i] in s;
    }
    if x in s {
      RemoveIsMapRemoval(s, x);
    }
  }

  // ---------------------------------------------------------------- levels

  /** Pages j and j + 1 replaced by one. */
  function MergeAt(lv: Level, j: nat, m: Pg): Level
    requires j + 1 < |lv|
  {
    lv[..j] + [m] + lv[j + 2..]
  }

  /** Page m holds what is left of pages j and j + 1. */
  ghost predicate IsMerge(lv: Level, j: nat, m: Pg) {
    && j + 1 < |lv|
    && m.no == lv[j].no && m.im.flag == lv[j].im.flag
    && m.im.pgidx == lv[j].im.pgidx && m.im.right == lv[j + 1].im.right
  }

  lemma {:induction false} MergeOrdered(lv: Level, kind: Flag, cap: nat, j: nat, m: Pg)
    requires Ordered(lv, kind, cap) && IsMerge(lv, j, m) && PageOk(m, kind, cap)
    requires j + 2 < |lv| ==> AllBelow(m.im.items, lv[j + 2].im.pgidx)
    ensures Ordered(MergeAt(lv, j, m), kind, cap)
  {
    var w := MergeAt(lv, j, m);
    forall i | 0 <= i < |w| ensures PageOk(w[i], kind, cap) {
      var o := if i <= j then i else i + 1;
      assert PageOk(lv[o], kind, cap);
    }
    forall a, b | 0 <= a < b < |w| ensures Before(w[a], w[b]) {
      var oa, ob := if a <= j then a else a + 1, if b <= j then b else b + 1;
      assert Before(lv[oa], lv[ob]);
      if a == j {
        assert j + 2 <= ob;
        SepsRise(lv, kind, cap, j + 2, ob);
      }
    }
  }

  lemma {:induction false} MergeChained(lv: Level, kind: Flag, cap: nat, j: nat, m: Pg)
    requires Chained(lv) && IsMerge(lv, j, m)
    ensures Chained(MergeAt(lv, j, m))
  {
    var w := MergeAt(lv, j, m);
    forall i | 0 <= i < |w| ensures w[i].im.right == NextNo(w, i) {
      var o := if i < j then i else i + 1;
      assert lv[o].im.right == NextNo(lv, o);
    }
  }

  lemma {:induction false} MergeSeps(lv: Level, j: nat, m: Pg)
    requires IsMerge(lv, j, m)
    ensures Seps(MergeAt(lv, j, m)) == RemoveAt(Seps(lv), j + 1)
  {
  }

  lemma {:induction false} MergeFlat(lv: Level, j: nat, m: Pg)
    requires IsMerge(lv, j, m)
    ensures Flat(MergeAt(lv, j, m)) == Flat(lv[..j]) + m.im.items + Flat(lv[j + 2..])
    ensures Flat(lv) == Flat(lv[..j]) + lv[j].im.items + lv[j + 1].im.items + Flat(lv[j + 2..])
  {
    var w := MergeAt(lv, j, m);
    FlatAround(w, j);
    assert w[..j] == lv[..j] && w[j + 1..] == lv[j + 2..];
    FlatAround(lv, j);
    FlatAround(lv[j + 1..], 0);
    assert lv[j + 1..][..0] == [] && lv[j + 1..][1..] == lv[j + 2..];
  }

  lemma {:induction false} MergeNos(lv: Level, kind: Flag, cap: nat, j: nat, m: Pg)
    requires Ordered(lv, kind, cap) && IsMerge(lv, j, m)
    ensures LevelNos(MergeAt(lv, j, m)) == LevelNos(lv) - {lv[j + 1].no}
  {
    var w := MergeAt(lv, j, m);
    forall i | 0 <= i < |lv| && i != j + 1 ensures lv[i].no in LevelNos(w) && lv[i].no != lv[j + 1].no {
      var o := if i <= j then i else i - 1;
      assert w[o].no == lv[i].no && w[o] in w;
      if i < j + 1 { assert Before(lv[i], lv[j + 1]); } else { assert Before(lv[j + 1], lv[i]); }
    }
    forall n | n in LevelNos(w) ensures n in LevelNos(lv) - {lv[j + 1].no} {
      var o :| 0 <= o < |w| && w[o].no == n;
      var i := if o <= j then o else o + 1;
      assert lv[i].no == n && lv[i] in lv;
    }
  }

  /** Merging keeps a level well-formed; its separators lose the second page's. */
  lemma {:induction false} MergeLevel(lv: Level, kind: Flag, cap: nat, j: nat, m: Pg)
    requires LevelOk(lv, kind, cap) && IsMerge(lv, j, m) && PageOk(m, kind, cap)
    requires j + 2 < |lv| ==> AllBelow(m.im.items, lv[j + 2].im.pgidx)
    ensures LevelOk(MergeAt(lv, j, m), kind, cap)
  {
    MergeOrdered(lv, kind, cap, j, m);
    MergeChained(lv, kind, cap, j, m);
  }

  // ---------------------------------------------------------------- one level loses an entry

  /** Removing an item of page j is removing it from the level's reading. */
  lemma {:induction false} RemoveInLevel(lv: Level, kind: Flag, cap: nat, j: nat, i: nat)
    requires Ordered(lv, kind, cap) && j < |lv| && i < |lv[j].im.items|
    ensures Remove(Flat(lv), lv[j].im.items[i])
         == Flat(lv[..j]) + RemoveAt(lv[j].im.items, i) + Flat(lv[j + 1..])
  {
    FlatAround(lv, j);
    FlatAscending(lv, kind, cap);
    RemoveMid(Flat(lv[..j]), lv[j].im.items, Flat(lv[j + 1..]), i);
  }

  lemma {:induction false} RemoveMid(a: seq<Item>, b: seq<Item>, c: seq<Item>, i: nat)
    requires Ascending(a + b + c) && i < |b|
    ensures Remove(a + b + c, b[i]) == a + RemoveAt(b, i) + c
  {
    assert (a + b + c)[|a| + i] == b[i];
    RemoveIsAt(a + b + c, |a| + i, b[i]);
    assert RemoveAt(a + b + c, |a| + i) == a + RemoveAt(b, i) + c;
  }

  lemma {:induction false} ShrunkPage(p: Pg, kind: Flag, cap: nat, i: nat)
    requires PageOk(p, kind, cap) && i < |p.im.items| && 1 < |p.im.items|
    requires kind.IdxPage? ==> 0 < i
    ensures PageOk(Pg(p.no, p.im.(items := RemoveAt(p.im.items, i))), kind, cap)
    ensures forall hi :: AllBelow(p.im.items, hi) ==> AllBelow(RemoveAt(p.im.items, i), hi)
  {
  }

  /** A page that keeps enough items is rewritten in place. */
  lemma {:induction false} ShrinkLevel(lv: Level, kind: Flag, cap: nat, j: nat, i: nat) returns (p: Pg)
    requires LevelOk(lv, kind, cap) && j < |lv| && i < |lv[j].im.items| && 1 < |lv[j].im.items|
    requires kind.IdxPage? ==> 0 < i
    ensures p == Pg(lv[j].no, lv[j].im.(items := RemoveAt(lv[j].im.items, i)))
    ensures LevelOk(lv[j := p], kind, cap)
    ensures Seps(lv[j := p]) == Seps(lv) && LevelNos(lv[j := p]) == LevelNos(lv)
    ensures Flat(lv[j := p]) == Remove(Flat(lv), lv[j].im.items[i])
  {
    p := Pg(lv[j].no, lv[j].im.(items := RemoveAt(lv[j].im.items, i)));
    assert PageOk(lv[j], kind, cap);
    ShrunkPage(lv[j], kind, cap, i);
    if j + 1 < |lv| {
      assert Before(lv[j], lv[j + 1]);
    }
    ReplaceItems(lv, kind, cap, j, p);
    RemoveInLevel(lv, kind, cap, j, i);
  }

  /** What is left of page j, followed by page j + 1, in one page. */
  function RightMerge(lv: Level, j: nat, i: nat): Pg
    requires j + 1 < |lv| && i < |lv[j].im.items|
  {
    Pg(lv[j].no, Image(lv[j].im.flag, lv[j].im.pgidx, lv[j + 1].im.right,
                       RemoveAt(lv[j].im.items, i) + lv[j + 1].im.items))
  }

  /** Page j - 1 followed by what is left of page j, in one page. */
  function LeftMerge(lv: Level, j: nat, i: nat): Pg
    requires 0 < j < |lv| && i < |lv[j].im.items|
  {
    Pg(lv[j - 1].no, Image(lv[j - 1].im.flag, lv[j - 1].im.pgidx, lv[j].im.right,
                           lv[j - 1].im.items + RemoveAt(lv[j].im.items, i)))
  }

  lemma {:induction false} RightMergePage(p: Pg, q: Pg, kind: Flag, cap: nat, i: nat, m: Pg)
    requires PageOk(p, kind, cap) && PageOk(q, kind, cap) && Before(p, q) && i < |p.im.items|
    requires m.im.flag == kind && m.im.pgidx == p.im.pgidx && m.im.items == RemoveAt(p.im.items, i) + q.im.items
    requires |m.im.items| < cap
    ensures (kind.IdxPage? ==> 0 < i) ==> PageOk(m, kind, cap)
    ensures LoosePage(m, kind, cap) && Ascending(m.im.items)
    ensures forall hi :: AllBelow(p.im.items, hi) && AllBelow(q.im.items, hi) ==> AllBelow(m.im.items, hi)
  {
    var a, b := RemoveAt(p.im.items, i), q.im.items;
    assert forall x :: 0 <= x < |a| ==> a[x].idxv < q.im.pgidx;
    assert forall x :: 0 <= x < |b| ==> q.im.pgidx <= b[x].idxv;
  }

  lemma {:induction false} LeftMergePage(p: Pg, q: Pg, kind: Flag, cap: nat, i: nat, m: Pg)
    requires PageOk(p, kind, cap) && PageOk(q, kind, cap) && Before(p, q) && i < |q.im.items|
    requires m.im.flag == kind && m.im.pgidx == p.im.pgidx && m.im.items == p.im.items + RemoveAt(q.im.items, i)
    requires |m.im.items| < cap
    ensures PageOk(m, kind, cap)
    ensures forall hi :: AllBelow(p.im.items, hi) && AllBelow(q.im.items, hi) ==> AllBelow(m.im.items, hi)
  {
    var a, b := p.im.items, RemoveAt(q.im.items, i);
    assert forall x :: 0 <= x < |a| ==> a[x].idxv < q.im.pgidx;
    assert forall x :: 0 <= x < |b| ==> q.im.pgidx <= b[x].idxv;
  }

  /** Level w is what is left of the bottom level after it lost entry x and page `dropped`. */
  ghost predicate Cut(lv: Level, w: Level, kind: Flag, cap: nat, sep: Item, x: Item) {
    && sep in Seps(lv)
    && (w == [] || LooseLevel(w, kind, cap))
    && LevelNos(w) == LevelNos(lv) - {sep.pgno}
    && Seps(w) == Remove(Seps(lv), sep)
    && Flat(w) == Remove(Flat(lv), x)
  }

  lemma {:induction false} SepsRemove(lv: Level, kind: Flag, cap: nat, p: nat)
    requires Ordered(lv, kind, cap) && p < |lv|
    ensures Remove(Seps(lv), Seps(lv)[p]) == RemoveAt(Seps(lv), p)
    ensures Seps(lv)[p] in Seps(lv)
  {
    SepsAscending(lv, kind, cap);
    RemoveIsAt(Seps(lv), p, Seps(lv)[p]);
  }

  lemma {:induction false} FlatTail(lv: Level, j: nat)
    requires j < |lv|
    ensures Flat(lv[j..]) == lv[j].im.items + Flat(lv[j + 1..])
    ensures Flat(lv[..j + 1]) == Flat(lv[..j]) + lv[j].im.items
  {
    assert lv[j..][1..] == lv[j + 1..];
    assert lv[..j + 1] == lv[..j] + [lv[j]];
    FlatConcat(lv[..j], [lv[j]]);
    assert [lv[j]][1..] == [];
  }

  lemma {:induction false} RightMergeFlat(lv: Level, kind: Flag, cap: nat, j: nat, i: nat)
    requires Ordered(lv, kind, cap) && j + 1 < |lv| && i < |lv[j].im.items|
    ensures Flat(MergeAt(lv, j, RightMerge(lv, j, i))) == Remove(Flat(lv), lv[j].im.items[i])
  {
    MergeFlat(lv, j, RightMerge(lv, j, i));
    RemoveInLevel(lv, kind, cap, j, i);
    FlatTail(lv, j + 1);
    Regroup(Flat(lv[..j]), RemoveAt(lv[j].im.items, i), lv[j + 1].im.items, Flat(lv[j + 2..]));
  }

  lemma {:induction false} LeftMergeFlat(lv: Level, kind: Flag, cap: nat, j: nat, i: nat)
    requires Ordered(lv, kind, cap) && 0 < j < |lv| && i < |lv[j].im.items|
    ensures Flat(MergeAt(lv, j - 1, LeftMerge(lv, j, i))) == Remove(Flat(lv), lv[j].im.items[i])
  {
    MergeFlat(lv, j - 1, LeftMerge(lv, j, i));
    RemoveInLevel(lv, kind, cap, j, i);
    FlatTail(lv, j - 1);
    Regroup(Flat(lv[..j - 1]), lv[j - 1].im.items, RemoveAt(lv[j].im.items, i), Flat(lv[j + 1..]));
  }

  lemma {:induction false} Regroup(a: seq<Item>, b: seq<Item>, c: seq<Item>, d: seq<Item>)
    ensures a + (b + c) + d == a + b + (c + d)
    ensures a + (b + c) + d == (a + b) + c + d
  {
  }

  lemma {:induction false} RightMergeOk(lv: Level, kind: Flag, cap: nat, j: nat, i: nat)
    requires LevelOk(lv, kind, cap) && j + 1 < |lv| && i < |lv[j].im.items|
    requires |RightMerge(lv, j, i).im.items| < cap
    ensures LooseLevel(MergeAt(lv, j, RightMerge(lv, j, i)), kind, cap)
    ensures Ascending(RightMerge(lv, j, i).im.items)
    ensures (kind.IdxPage? ==> 0 < i) ==> LevelOk(MergeAt(lv, j, RightMerge(lv, j, i)), kind, cap)
  {
    var m := RightMerge(lv, j, i);
    assert PageOk(lv[j], kind, cap) && PageOk(lv[j + 1], kind, cap) && Before(lv[j], lv[j + 1]);
    RightMergePage(lv[j], lv[j + 1], kind, cap, i, m);
    MergeLoose(lv, kind, cap, j, m);
    if j + 2 < |lv| {
      assert Before(lv[j], lv[j + 2]) && Before(lv[j + 1], lv[j + 2]);
    }
    if kind.IdxPage? ==> 0 < i {
      MergeLevel(lv, kind, cap, j, m);
    }
  }

  lemma {:induction false} LeftMergeOk(lv: Level, kind: Flag, cap: nat, j: nat, i: nat)
    requires LevelOk(lv, kind, cap) && 0 < j < |lv| && i < |lv[j].im.items|
    requires |LeftMerge(lv, j, i).im.items| < cap
    ensures LevelOk(MergeAt(lv, j - 1, LeftMerge(lv, j, i)), kind, cap)
    ensures Ascending(LeftMerge(lv, j, i).im.items)
  {
    var m := LeftMerge(lv, j, i);
    assert PageOk(lv[j - 1], kind, cap) && PageOk(lv[j], kind, cap) && Before(lv[j - 1], lv[j]);
    LeftMergePage(lv[j - 1], lv[j], kind, cap, i, m);
    if j + 1 < |lv| {
      assert Before(lv[j - 1], lv[j + 1]) && Before(lv[j], lv[j + 1]);
    }
    MergeLevel(lv, kind, cap, j - 1, m);
  }

  lemma {:induction false} CutRight(lv: Level, kind: Flag, cap: nat, j: nat, i: nat)
    requires LevelOk(lv, kind, cap) && j + 1 < |lv| && i < |lv[j].im.items|
    requires |RightMerge(lv, j, i).im.items| < cap
    ensures Cut(lv, MergeAt(lv, j, RightMerge(lv, j, i)), kind, cap, Seps(lv)[j + 1], lv[j].im.items[i])
    ensures (kind.IdxPage? ==> 0 < i) ==> LevelOk(MergeAt(lv, j, RightMerge(lv, j, i)), kind, cap)
    ensures IsMerge(lv, j, RightMerge(lv, j, i)) && Ascending(RightMerge(lv, j, i).im.items)
    ensures lv[j].im.items[i] in Flat(lv)
  {
    var m := RightMerge(lv, j, i);
    assert PageOk(lv[j], kind, cap);
    FlatHas(lv, j, lv[j].im.items[i]);
    RightMergeOk(lv, kind, cap, j, i);
    RightMergeFlat(lv, kind, cap, j, i);
    MergeNos(lv, kind, cap, j, m);
    MergeSeps(lv, j, m);
    SepsRemove(lv, kind, cap, j + 1);
  }

  lemma {:induction false} CutLeft(lv: Level, kind: Flag, cap: nat, j: nat, i: nat)
    requires LevelOk(lv, kind, cap) && 0 < j < |lv| && i < |lv[j].im.items|
    requires |LeftMerge(lv, j, i).im.items| < cap
    ensures Cut(lv, MergeAt(lv, j - 1, LeftMerge(lv, j, i)), kind, cap, Seps(lv)[j], lv[j].im.items[i])
    ensures LevelOk(MergeAt(lv, j - 1, LeftMerge(lv, j, i)), kind, cap)
    ensures IsMerge(lv, j - 1, LeftMerge(lv, j, i)) && Ascending(LeftMerge(lv, j, i).im.items)
    ensures lv[j].im.items[i] in Flat(lv)
  {
    var m := LeftMerge(lv, j, i);
    assert PageOk(lv[j - 1], kind, cap);
    FlatHas(lv, j, lv[j].im.items[i]);
    LeftMergeOk(lv, kind, cap, j, i);
    LevelIsLoose(MergeAt(lv, j - 1, m), kind, cap);
    LeftMergeFlat(lv, kind, cap, j, i);
    MergeNos(lv, kind, cap, j - 1, m);
    MergeSeps(lv, j - 1, m);
    SepsRemove(lv, kind, cap, j);
  }

  lemma {:induction false} MergeLoose(lv: Level, kind: Flag, cap: nat, j: nat, m: Pg)
    requires Ordered(lv, kind, cap) && IsMerge(lv, j, m) && LoosePage(m, kind, cap)
    ensures LooseLevel(MergeAt(lv, j, m), kind, cap)
  {
    var w := MergeAt(lv, j, m);
    forall i | 0 <= i < |w| ensures LoosePage(w[i], kind, cap) {
      var o := if i <= j then i else i + 1;
      assert PageOk(lv[o], kind, cap);
    }
    forall a, b | 0 <= a < b < |w| ensures w[a].no != w[b].no {
      var oa, ob := if a <= j then a else a + 1, if b <= j then b else b + 1;
      assert Before(lv[oa], lv[ob]);
    }
  }

  /** Dropping a page that held only the entry to remove. */
  lemma {:induction false} CutDrop(lv: Level, kind: Flag, cap: nat, j: nat)
    requires LevelOk(lv, kind, cap) && j < |lv| && |lv[j].im.items| == 1
    ensures Cut(lv, RemoveAt(lv, j), kind, cap, Seps(lv)[j], lv[j].im.items[0])
  {
    var w := RemoveAt(lv, j);
    if w != [] {
      DropLoose(lv, kind, cap, j);
    }
    DropNos(lv, kind, cap, j);
    SepsRemove(lv, kind, cap, j);
    DropSeps(lv, j);
    DropFlat(lv, kind, cap, j);
  }

  lemma {:induction false} DropSeps(lv: Level, j: nat)
    requires j < |lv|
    ensures Seps(RemoveAt(lv, j)) == RemoveAt(Seps(lv), j)
  {
  }

  lemma {:induction false} DropFlat(lv: Level, kind: Flag, cap: nat, j: nat)
    requires Ordered(lv, kind, cap) && j < |lv| && |lv[j].im.items| == 1
    ensures Flat(RemoveAt(lv, j)) == Remove(Flat(lv), lv[j].im.items[0])
  {
    FlatConcat(lv[..j], lv[j + 1..]);
    RemoveInLevel(lv, kind, cap, j, 0);
    assert RemoveAt(lv[j].im.items, 0) == [];
  }

  lemma {:induction false} DropLoose(lv: Level, kind: Flag, cap: nat, j: nat)
    requires LevelOk(lv, kind, cap) && j < |lv| && 1 < |lv|
    ensures LooseLevel(RemoveAt(lv, j), kind, cap)
  {
    var w := RemoveAt(lv, j);
    forall i | 0 <= i < |w| ensures LoosePage(w[i], kind, cap) {
      var o := if i < j then i else i + 1;
      assert PageOk(lv[o], kind, cap);
    }
    forall a, b | 0 <= a < b < |w| ensures w[a].no != w[b].no {
      var oa, ob := if a < j then a else a + 1, if b < j then b else b + 1;
      assert Before(lv[oa], lv[ob]);
    }
  }

  lemma {:induction false} DropNos(lv: Level, kind: Flag, cap: nat, j: nat)
    requires Ordered(lv, kind, cap) && j < |lv|
    ensures LevelNos(RemoveAt(lv, j)) == LevelNos(lv) - {lv[j].no}
  {
    var w := RemoveAt(lv, j);
    forall i | 0 <= i < |lv| && i != j ensures lv[i].no in LevelNos(w) && lv[i].no != lv[j].no {
      var o := if i < j then i else i - 1;
      assert w[o].no == lv[i].no && w[o] in w;
      if i < j { assert Before(lv[i], lv[j]); } else { assert Before(lv[j], lv[i]); }
    }
    forall n | n in LevelNos(w) ensures n in LevelNos(lv) - {lv[j].no} {
      var o :| 0 <= o < |w| && w[o].no == n;
      var i := if o < j then o else o + 1;
      assert lv[i].no == n && lv[i] in lv;
    }
  }

  // ---------------------------------------------------------------- the whole stack

  /** Removing an entry takes it out of the bottom level's reading and keeps every other entry
      reachable; pages no longer in the stack are freed and no page outside it is touched. The
      stack is empty afterwards exactly when that was the only entry. */
  ghost predicate Removed(st: seq<Level>, st2: seq<Level>, kind: Flag, root2: int, cap: nat,
                          img: map<int, Image>, img2: map<int, Image>, live: set<int>, live2: set<int>, x: Item)
    requires st != []
  {
    && StackNos(st2) <= StackNos(st)
    && live2 == live - (StackNos(st) - StackNos(st2))
    && Outside(img, img2, StackNos(st))
    && (st2 == [] <==> root2 == END_NO)
    && (st2 == [] <==> Flat(st[0]) == [x])
    && (st2 != [] ==> Linked(st2, kind, root2, cap) && Holds(img2, st2) && Flat(st2[0]) == Remove(Flat(st[0]), x))
  }

  lemma {:induction false} LooseFlat(lv: Level, kind: Flag, cap: nat)
    requires LooseLevel(lv, kind, cap)
    ensures Flat(lv) != []
  {
    assert LoosePage(lv[0], kind, cap);
  }

  lemma {:induction false} LinkedCons(w: Level, up: seq<Level>, kind: Flag, root: int, cap: nat, img: map<int, Image>)
    requires LooseLevel(w, kind, cap) && HoldsLevel(img, w)
    requires Linked(up, IdxPage, root, cap) && Holds(img, up)
    requires Flat(up[0]) == Seps(w) && LevelNos(w) !! StackNos(up)
    ensures Linked([w] + up, kind, root, cap) && Holds(img, [w] + up)
    ensures StackNos([w] + up) == LevelNos(w) + StackNos(up)
  {
    assert ([w] + up)[1..] == up && ([w] + up)[1] == up[0];
  }

  /** The bottom level has been rewritten to w in the storage; the level above still names the
      page that was given up. */
  ghost predicate CutState(st: seq<Level>, w: Level, kind: Flag, root: int, cap: nat, sep: Item, x: Item,
                           img: map<int, Image>, img1: map<int, Image>, live: set<int>, live1: set<int>)
  {
    && StackOk(st, kind, root, cap) && Holds(img, st) && 1 < |st|
    && Cut(st[0], w, kind, cap, sep, x)
    && HoldsLevel(img1, w)
    && Outside(img, img1, LevelNos(st[0]))
    && StackNos(st) <= live && live1 == live - {sep.pgno}
    && x in Flat(st[0])
  }

  lemma {:induction false} CutUpper(st: seq<Level>, up: seq<Level>, w: Level, kind: Flag, root: int, cap: nat, sep: Item, x: Item,
                 img: map<int, Image>, img1: map<int, Image>, live: set<int>, live1: set<int>)
    requires CutState(st, w, kind, root, cap, sep, x, img, img1, live, live1) && up == st[1..]
    ensures StackOk(up, IdxPage, root, cap) && Holds(img1, up)
    ensures sep in Flat(up[0]) && MIN_IDXV <= sep.idxv && sep.pgno !in StackNos(up)
    ensures StackNos(up) <= live1
  {
    HoldsFrame(img, img1, up);
    var t :| 0 <= t < |Seps(st[0])| && Seps(st[0])[t] == sep;
    assert st[0][t] in st[0];
    assert sep.pgno in LevelNos(st[0]);
    SepsRise(st[0], kind, cap, 0, t);
  }

  /** The level above is told: with other items left there, the stack goes on above w. */
  lemma {:induction false} CutGoesOn(st: seq<Level>, up: seq<Level>, w: Level, up2: seq<Level>, kind: Flag, root: int, root2: int, cap: nat,
                  sep: Item, x: Item, img: map<int, Image>, img1: map<int, Image>, img2: map<int, Image>,
                  live: set<int>, live1: set<int>, live2: set<int>)
    requires CutState(st, w, kind, root, cap, sep, x, img, img1, live, live1) && up == st[1..]
    requires Removed(up, up2, IdxPage, root2, cap, img1, img2, live1, live2, sep) && up2 != []
    ensures Linked([w] + up2, kind, root2, cap) && Holds(img2, [w] + up2)
    ensures StackNos([w] + up2) == LevelNos(w) + StackNos(up2)
    ensures LevelOk(w, kind, cap) && StackOk(up2, IdxPage, root2, cap) ==> StackOk([w] + up2, kind, root2, cap)
  {
    CutUpper(st, up, w, kind, root, cap, sep, x, img, img1, live, live1);
    assert Flat(up[0]) == Seps(st[0]);
    LooseFlat(up2[0], IdxPage, cap);
    assert Seps(w) != [];
    LooseFlat(w, kind, cap);
    HoldsLevelFrame(img1, img2, w, StackNos(up));
    LinkedCons(w, up2, kind, root2, cap, img2);
    if LevelOk(w, kind, cap) && StackOk(up2, IdxPage, root2, cap) {
      StackCons(w, up2, kind, root2, cap, img2);
    }
  }

  /** With no other item left there, the entry was the last one. */
  lemma {:induction false} CutEnds(st: seq<Level>, up: seq<Level>, w: Level, kind: Flag, root: int, root2: int, cap: nat,
                sep: Item, x: Item, img: map<int, Image>, img1: map<int, Image>, img2: map<int, Image>,
                live: set<int>, live1: set<int>, live2: set<int>)
    requires CutState(st, w, kind, root, cap, sep, x, img, img1, live, live1) && up == st[1..]
    requires Removed(up, [], IdxPage, root2, cap, img1, img2, live1, live2, sep)
    ensures w == [] && Flat(st[0]) == [x]
  {
    assert Flat(up[0]) == Seps(st[0]);
    CutEmpty(st[0], w, kind, cap, sep, x);
    assert Flat(w) == [];
    RemoveToEmpty(Flat(st[0]), x);
  }

  /** The page that was given up is one of the bottom level. */
  lemma {:induction false} GivenUpPage(lv: Level, w: Level, kind: Flag, cap: nat, sep: Item, x: Item)
    requires Cut(lv, w, kind, cap, sep, x) && LevelOk(lv, kind, cap)
    ensures sep.pgno in LevelNos(lv) && LevelNos(w) == LevelNos(lv) - {sep.pgno}
  {
    var t :| 0 <= t < |Seps(lv)| && Seps(lv)[t] == sep;
    assert lv[t] in lv;
  }

  /** With the level above told, the entry is gone. */
  lemma {:induction false} CutJoins(st: seq<Level>, up: seq<Level>, w: Level, up2: seq<Level>, kind: Flag, root: int, root2: int, cap: nat,
                 sep: Item, x: Item, img: map<int, Image>, img1: map<int, Image>, img2: map<int, Image>,
                 live: set<int>, live1: set<int>, live2: set<int>)
    requires CutState(st, w, kind, root, cap, sep, x, img, img1, live, live1) && up == st[1..]
    requires Removed(up, up2, IdxPage, root2, cap, img1, img2, live1, live2, sep)
    ensures Removed(st, if up2 == [] then [] else [w] + up2, kind, root2, cap, img, img2, live, live2, x)
    ensures LevelOk(w, kind, cap) && up2 != [] && StackOk(up2, IdxPage, root2, cap) ==>
              StackOk([w] + up2, kind, root2, cap)
  {
    CutUpper(st, up, w, kind, root, cap, sep, x, img, img1, live, live1);
    GivenUpPage(st[0], w, kind, cap, sep, x);
    if up2 == [] {
      CutEnds(st, up, w, kind, root, root2, cap, sep, x, img, img1, img2, live, live1, live2);
      assert LevelNos(w) == {};
    } else {
      CutGoesOn(st, up, w, up2, kind, root, root2, cap, sep, x, img, img1, img2, live, live1, live2);
      LooseFlat(w, kind, cap);
    }
  }

  lemma {:induction false} CutEmpty(lv: Level, w: Level, kind: Flag, cap: nat, sep: Item, x: Item)
    requires Cut(lv, w, kind, cap, sep, x) && Seps(lv) == [sep]
    ensures w == []
  {
    assert |Seps(w)| == |w|;
  }

  lemma {:induction false} RemoveToEmpty(s: seq<Item>, x: Item)
    requires Remove(s, x) == [] && x in s
    ensures s == [x]
  {
  }

  // ---------------------------------------------------------------- a page and its parent

  ghost predicate At(lv: Level, j: nat, i: nat, x: Item) {
    j < |lv| && i < |lv[j].im.items| && lv[j].im.items[i] == x
  }

  lemma {:induction false} SamePlace(lv: Level, kind: Flag, cap: nat, j: nat, i: nat, j2: nat, i2: nat, x: Item)
    requires Ordered(lv, kind, cap) && At(lv, j, i, x) && At(lv, j2, i2, x)
    ensures j == j2 && i == i2
  {
    OwnKey(lv, kind, cap, j, x);
    OwnKey(lv, kind, cap, j2, x);
    InPageUnique(lv, kind, cap, j, j2, x.idxv);
    assert PageOk(lv[j], kind, cap);
  }

  /** Item (ju, iu) of the level above names page j; its neighbours name the neighbours of j. */
  ghost predicate Names(up: Level, down: Level, j: nat, ju: nat, iu: nat) {
    && j < |down| && At(up, ju, iu, Seps(down)[j])
    && (iu + 1 < |up[ju].im.items| ==> j + 1 < |down| && up[ju].im.items[iu + 1] == Seps(down)[j + 1])
    && (0 < iu ==> 0 < j && up[ju].im.items[iu - 1] == Seps(down)[j - 1])
  }

  lemma {:induction false} ParentAt(up: Level, down: Level, j: nat) returns (ju: nat, iu: nat)
    requires Flat(up) == Seps(down) && j < |down|
    ensures Names(up, down, j, ju, iu)
  {
    ju, iu := FlatPosition(up, j);
    FlatAround(up, ju);
    var a, items := |Flat(up[..ju])|, up[ju].im.items;
    assert |Flat(up)| == |down|;
    assert Flat(up)[a + iu] == items[iu];
    if iu + 1 < |items| {
      assert Flat(up)[a + iu + 1] == items[iu + 1];
    }
    if 0 < iu {
      assert Flat(up)[a + iu - 1] == items[iu - 1];
    }
  }

  lemma {:induction false} FlatPosition(lv: Level, p: nat) returns (j: nat, i: nat)
    requires p < |Flat(lv)|
    ensures j < |lv| && i < |lv[j].im.items| && |Flat(lv[..j])| + i == p
  {
    if p < |lv[0].im.items| {
      j, i := 0, p;
    } else {
      var k;
      k, i := FlatPosition(lv[1..], p - |lv[0].im.items|);
      j := k + 1;
      assert lv[..j][1..] == lv[1..][..k] && lv[..j][0] == lv[0];
    }
  }

  /** Everything a removal knows once it has found item i of page j. */
  ghost predicate Place(st: seq<Level>, up: seq<Level>, kind: Flag, root: int, cap: nat, img: map<int, Image>,
                        low: seq<set<int>>, j: nat, i: nat, ju: nat, iu: nat)
  {
    && StackOk(st, kind, root, cap) && Holds(img, st) && up == st[1..]
    && j < |st[0]| && i < |st[0][j].im.items|
    && (kind.IdxPage? ==> 0 < i || |st[0][j].im.items| == 1)
    && (up != [] ==> Names(up[0], st[0], j, ju, iu))
    && LevelSets(img, low, root) && LowOf(low, st)
  }

  /** The page sets start with the stack's own levels. */
  ghost predicate LowOf(low: seq<set<int>>, st: seq<Level>) {
    |st| <= |low| && forall m :: 0 <= m < |st| ==> LevelNos(st[m]) <= low[|low| - |st| + m]
  }

  /** The page sets of a well-formed tree. */
  lemma {:induction false} LowStart(st: seq<Level>, root: int, cap: nat, img: map<int, Image>) returns (low: seq<set<int>>)
    requires StackOk(st, LeafPage, root, cap) && Holds(img, st)
    ensures LevelSets(img, low, root) && LowOf(low, st)
  {
    low := seq(|st|, m requires 0 <= m < |st| => LevelNos(st[m]));
    StackLevel(st, LeafPage, root, cap, img, |st| - 1);
    assert st[|st| - 1][0] in st[|st| - 1];
    forall a, b | 0 <= a < b < |low| ensures low[a] !! low[b] {
      LevelsApart(st, LeafPage, root, cap, a, b);
    }
    forall k, n | 0 <= k < |low| && n in low[k] && n in img ensures LevelSetsAt(img[n], low, k) {
      var t :| 0 <= t < |st[k]| && st[k][t].no == n;
      LowStartAt(st, root, cap, img, k, t, low);
    }
  }

  lemma {:induction false} LowStartAt(st: seq<Level>, root: int, cap: nat, img: map<int, Image>, k: nat, t: nat, low: seq<set<int>>)
    requires StackOk(st, LeafPage, root, cap) && Holds(img, st) && k < |st| && t < |st[k]|
    requires low == seq(|st|, m requires 0 <= m < |st| => LevelNos(st[m]))
    ensures st[k][t].no in img && LevelSetsAt(img[st[k][t].no], low, k)
  {
    StackLevel(st, LeafPage, root, cap, img, k);
    assert PageOk(st[k][t], KindAt(LeafPage, k), cap);
    if 0 < k {
      StackLevel(st, LeafPage, root, cap, img, k - 1);
      var items := st[k][t].im.items;
      forall i | 0 <= i < |items| ensures items[i].pgno in low[k - 1] {
        ChildItem(st[k], st[k - 1], t, i);
        assert st[k - 1][FirstChild(st[k], t) + i] in st[k - 1];
      }
    }
  }

  lemma {:induction false} LevelsApart(st: seq<Level>, kind: Flag, root: int, cap: nat, a: nat, b: nat)
    requires StackOk(st, kind, root, cap) && a < b < |st|
    ensures LevelNos(st[a]) !! LevelNos(st[b])
  {
    if a == 0 {
      LevelInStack(st[1..], b - 1);
    } else {
      LevelsApart(st[1..], IdxPage, root, cap, a - 1, b - 1);
    }
  }

  lemma {:induction false} LevelInStack(st: seq<Level>, m: nat)
    requires m < |st|
    ensures LevelNos(st[m]) <= StackNos(st)
  {
    if 0 < m {
      LevelInStack(st[1..], m - 1);
    }
  }

  lemma {:induction false} FindPlace(st: seq<Level>, kind: Flag, root: int, cap: nat, img: map<int, Image>, low: seq<set<int>>, j: nat, i: nat)
    returns (up: seq<Level>, ju: nat, iu: nat)
    requires StackOk(st, kind, root, cap) && Holds(img, st) && j < |st[0]| && i < |st[0][j].im.items|
    requires kind.IdxPage? ==> 0 < i || |st[0][j].im.items| == 1
    requires LevelSets(img, low, root) && LowOf(low, st)
    ensures Place(st, up, kind, root, cap, img, low, j, i, ju, iu)
  {
    up := st[1..];
    ju, iu := 0, 0;
    if up != [] {
      ju, iu := ParentAt(st[1], st[0], j);
    }
  }

  /** The search for the page's own separator can start. */
  lemma {:induction false} PlaceSearch(st: seq<Level>, up: seq<Level>, kind: Flag, root: int, cap: nat, img: map<int, Image>,
                    low: seq<set<int>>, j: nat, i: nat, ju: nat, iu: nat)
    requires Place(st, up, kind, root, cap, img, low, j, i, ju, iu)
    ensures Searchable(Item(st[0][j].im.pgidx, st[0][j].no), IdxPage, up, low, img, root, cap)
    ensures up != [] ==> At(up[0], ju, iu, Item(st[0][j].im.pgidx, st[0][j].no)) && Ordered(up[0], IdxPage, cap)
    ensures up == [] ==> st[0][j].no == root && st[0][j].im.right == END_NO
    ensures st[0][j].no == root ==> up == []
  {
    assert Seps(st[0])[j] == Item(st[0][j].im.pgidx, st[0][j].no);
    assert st[0][j] in st[0];
    assert st[0][j].no in LevelNos(st[0]);
    SepsRise(st[0], kind, cap, 0, j);
    RootOnTop(st, kind, root, cap);
    if up == [] {
      assert st[0][j].im.right == NextNo(st[0], j);
    } else {
      FlatHas(up[0], ju, up[0][ju].im.items[iu]);
    }
  }

  // ---------------------------------------------------------------- merging in the storage

  /** The storage after page m was written over page a and page b was freed. */
  function Merged(img: map<int, Image>, m: Pg, b: int): map<int, Image> {
    img[m.no := m.im] - {b}
  }

  lemma {:induction false} MergeHolds(img: map<int, Image>, lv: Level, kind: Flag, cap: nat, j: nat, m: Pg)
    requires Ordered(lv, kind, cap) && HoldsLevel(img, lv) && IsMerge(lv, j, m)
    ensures HoldsLevel(Merged(img, m, lv[j + 1].no), MergeAt(lv, j, m))
    ensures Outside(img, Merged(img, m, lv[j + 1].no), LevelNos(lv))
  {
    var w := MergeAt(lv, j, m);
    var img1 := Merged(img, m, lv[j + 1].no);
    assert lv[j] in lv && lv[j + 1] in lv;
    forall i | 0 <= i < |w| ensures w[i].no in img1 && img1[w[i].no] == w[i].im {
      var o := if i <= j then i else i + 1;
      assert w[i].no == lv[o].no;
      if o < j + 1 { assert Before(lv[o], lv[j + 1]); } else { assert Before(lv[j + 1], lv[o]); }
      if o < j { assert Before(lv[o], lv[j]); }
      if j < o { assert Before(lv[j], lv[o]); }
    }
  }

  lemma {:induction false} DropHolds(img: map<int, Image>, lv: Level, kind: Flag, cap: nat, j: nat)
    requires Ordered(lv, kind, cap) && HoldsLevel(img, lv) && j < |lv|
    ensures HoldsLevel(img - {lv[j].no}, RemoveAt(lv, j))
    ensures Outside(img, img - {lv[j].no}, LevelNos(lv))
  {
    var w := RemoveAt(lv, j);
    assert lv[j] in lv;
    forall i | 0 <= i < |w| ensures w[i].no != lv[j].no && w[i].no in img && img[w[i].no] == w[i].im {
      var o := if i < j then i else i + 1;
      assert w[i] == lv[o];
      if o < j { assert Before(lv[o], lv[j]); } else { assert Before(lv[j], lv[o]); }
    }
  }

  lemma {:induction false} LevelSetsMerge(img: map<int, Image>, low: seq<set<int>>, root: int, k: nat, m: Pg, b: int)
    requires LevelSets(img, low, root) && k < |low| && m.no in low[k] && b in low[k] && m.no in img && b in img
    requires m.im.flag == img[m.no].flag && Ascending(m.im.items)
    requires forall x :: x in m.im.items ==> x in img[m.no].items || x in img[b].items
    ensures LevelSets(Merged(img, m, b), low, root)
  {
    var img1 := Merged(img, m, b);
    forall l, n | 0 <= l < |low| && n in low[l] && n in img1 ensures LevelSetsAt(img1[n], low, l) {
      assert LevelSetsAt(img[n], low, l);
      if n == m.no {
        assert l == k;
        assert LevelSetsAt(img[b], low, k);
        if 0 < k {
          forall i | 0 <= i < |m.im.items| ensures m.im.items[i].pgno in low[k - 1] {
            assert m.im.items[i] in m.im.items;
          }
        }
      }
    }
  }

  lemma {:induction false} LevelSetsDrop(img: map<int, Image>, low: seq<set<int>>, root: int, b: int)
    requires LevelSets(img, low, root)
    ensures LevelSets(img - {b}, low, root)
  {
  }

  /** After merging page j with its right neighbour. */
  lemma {:induction false} RightMerged(st: seq<Level>, up: seq<Level>, kind: Flag, root: int, cap: nat, img: map<int, Image>,
                    low: seq<set<int>>, j: nat, i: nat, ju: nat, iu: nat, live: set<int>)
    requires Place(st, up, kind, root, cap, img, low, j, i, ju, iu) && img.Keys <= live
    requires up != [] && iu + 1 < |up[0][ju].im.items| && |RightMerge(st[0], j, i).im.items| < cap
    ensures var m := RightMerge(st[0], j, i);
            && CutState(st, MergeAt(st[0], j, m), kind, root, cap, Seps(st[0])[j + 1], st[0][j].im.items[i],
                        img, Merged(img, m, st[0][j + 1].no), live, live - {st[0][j + 1].no})
            && LevelSets(Merged(img, m, st[0][j + 1].no), low, root)
            && ((kind.IdxPage? ==> 0 < i) ==> LevelOk(MergeAt(st[0], j, m), kind, cap))
  {
    var m := RightMerge(st[0], j, i);
    CutRight(st[0], kind, cap, j, i);
    MergeHolds(img, st[0], kind, cap, j, m);
    HoldsNos(img, st);
    MergeInLow(st, kind, root, cap, img, low, j, m);
  }

  /** After merging page j into its left neighbour. */
  lemma {:induction false} LeftMerged(st: seq<Level>, up: seq<Level>, kind: Flag, root: int, cap: nat, img: map<int, Image>,
                   low: seq<set<int>>, j: nat, i: nat, ju: nat, iu: nat, live: set<int>)
    requires Place(st, up, kind, root, cap, img, low, j, i, ju, iu) && img.Keys <= live
    requires up != [] && 0 < iu && |LeftMerge(st[0], j, i).im.items| < cap
    ensures var m := LeftMerge(st[0], j, i);
            && CutState(st, MergeAt(st[0], j - 1, m), kind, root, cap, Seps(st[0])[j], st[0][j].im.items[i],
                        img, Merged(img, m, st[0][j].no), live, live - {st[0][j].no})
            && LevelSets(Merged(img, m, st[0][j].no), low, root)
            && LevelOk(MergeAt(st[0], j - 1, m), kind, cap)
  {
    var m := LeftMerge(st[0], j, i);
    CutLeft(st[0], kind, cap, j, i);
    MergeHolds(img, st[0], kind, cap, j - 1, m);
    HoldsNos(img, st);
    MergeInLow(st, kind, root, cap, img, low, j - 1, m);
  }

  /** After freeing page j, which held only the entry. */
  lemma {:induction false} PageDropped(st: seq<Level>, up: seq<Level>, kind: Flag, root: int, cap: nat, img: map<int, Image>,
                    low: seq<set<int>>, j: nat, i: nat, ju: nat, iu: nat, live: set<int>)
    requires Place(st, up, kind, root, cap, img, low, j, i, ju, iu) && img.Keys <= live
    requires |st[0][j].im.items| == 1
    ensures up != [] ==>
              CutState(st, RemoveAt(st[0], j), kind, root, cap, Seps(st[0])[j], st[0][j].im.items[i],
                       img, img - {st[0][j].no}, live, live - {st[0][j].no})
    ensures up == [] ==>
              Removed(st, [], kind, END_NO, cap, img, img - {st[0][j].no}, live, live - {st[0][j].no}, st[0][j].im.items[i])
    ensures LevelSets(img - {st[0][j].no}, low, root)
  {
    CutDrop(st[0], kind, cap, j);
    DropHolds(img, st[0], kind, cap, j);
    FlatHas(st[0], j, st[0][j].im.items[i]);
    HoldsNos(img, st);
    LevelSetsDrop(img, low, root, st[0][j].no);
    if up == [] {
      assert st == [st[0]] && st[0] == [st[0][0]];
      assert st[0][1..] == [] && st[1..] == [];
      assert Flat(st[0]) == st[0][0].im.items;
      assert StackNos(st) == {st[0][j].no} by { assert LevelNos(st[0]) == {st[0][0].no}; }
    }
  }

  lemma {:induction false} MergeInLow(st: seq<Level>, kind: Flag, root: int, cap: nat, img: map<int, Image>,
                   low: seq<set<int>>, j: nat, m: Pg)
    requires StackOk(st, kind, root, cap) && Holds(img, st) && LevelSets(img, low, root) && LowOf(low, st)
    requires IsMerge(st[0], j, m) && Ascending(m.im.items)
    requires forall x :: x in m.im.items ==> x in st[0][j].im.items || x in st[0][j + 1].im.items
    ensures LevelSets(Merged(img, m, st[0][j + 1].no), low, root)
  {
    assert st[0][j] in st[0] && st[0][j + 1] in st[0];
    assert st[0][j].no in LevelNos(st[0]) && st[0][j + 1].no in LevelNos(st[0]);
    LevelSetsMerge(img, low, root, |low| - |st|, m, st[0][j + 1].no);
  }

  /** Two neighbouring pages of a stored level. */
  lemma {:induction false} Neighbours(lv: Level, kind: Flag, cap: nat, img: map<int, Image>, j: nat)
    requires LevelOk(lv, kind, cap) && HoldsLevel(img, lv) && j + 1 < |lv|
    ensures var p, q := lv[j], lv[j + 1];
            && p.im.right == q.no && p.no != q.no
            && p.no in img && img[p.no] == p.im && q.no in img && img[q.no] == q.im
            && 1 <= |q.im.items| < cap && 1 <= |p.im.items| < cap
            && Seps(lv)[j] == Item(p.im.pgidx, p.no) && Seps(lv)[j + 1] == Item(q.im.pgidx, q.no)
  {
    assert lv[j].im.right == NextNo(lv, j);
    assert PageOk(lv[j], kind, cap) && PageOk(lv[j + 1], kind, cap);
    assert Before(lv[j], lv[j + 1]);
  }

  lemma {:induction false} RightNeighbour(st: seq<Level>, up: seq<Level>, kind: Flag, root: int, cap: nat, img: map<int, Image>,
                       low: seq<set<int>>, j: nat, i: nat, ju: nat, iu: nat)
    requires Place(st, up, kind, root, cap, img, low, j, i, ju, iu)
    requires up != [] && iu + 1 < |up[0][ju].im.items|
    ensures j + 1 < |st[0]|
    ensures var p, q := st[0][j], st[0][j + 1];
            && p.im.right == q.no && p.no != q.no && p.no in img && q.no in img && img[q.no] == q.im
            && 1 <= |q.im.items| < cap && |p.im.items| < cap
            && Seps(st[0])[j + 1] == Item(q.im.pgidx, q.no)
  {
    Neighbours(st[0], kind, cap, img, j);
  }

  lemma {:induction false} LeftNeighbour(st: seq<Level>, up: seq<Level>, kind: Flag, root: int, cap: nat, img: map<int, Image>,
                      low: seq<set<int>>, j: nat, i: nat, ju: nat, iu: nat)
    requires Place(st, up, kind, root, cap, img, low, j, i, ju, iu)
    requires up != [] && 0 < iu
    ensures 0 < j
    ensures var p, q := st[0][j - 1], st[0][j];
            && up[0][ju].im.items[iu - 1].pgno == p.no && p.no != q.no
            && p.no in img && q.no in img && img[p.no] == p.im
            && 1 <= |p.im.items| < cap
            && Seps(st[0])[j] == Item(q.im.pgidx, q.no)
  {
    Neighbours(st[0], kind, cap, img, j - 1);
  }

  /** The removal empties page j, and no neighbour under the same parent can take its place. An
      index page left with nothing but a later neighbour's items is counted in as well. */
  ghost predicate Frail(st: seq<Level>, kind: Flag, j: nat) {
    && 1 < |st| && j < |st[0]| && |st[0][j].im.items| == 1
    && (kind == LeafPage ==> SoleIn(st[1], Seps(st[0])[j]))
  }

  /** The item is the only one of its page. */
  ghost predicate SoleIn(lv: Level, x: Item) {
    exists j :: 0 <= j < |lv| && lv[j].im.items == [x]
  }

  /** A page with a neighbour under the same parent is not the only child. */
  lemma {:induction false} FrailNot(st: seq<Level>, up: seq<Level>, kind: Flag, root: int, cap: nat, j: nat, ju: nat, iu: nat)
    requires StackOk(st, kind, root, cap) && 1 < |st| && up == st[1..]
    requires Names(up[0], st[0], j, ju, iu) && 1 < |up[0][ju].im.items|
    ensures kind == LeafPage ==> !Frail(st, kind, j)
  {
    if kind == LeafPage && SoleIn(st[1], Seps(st[0])[j]) {
      var k :| 0 <= k < |st[1]| && st[1][k].im.items == [Seps(st[0])[j]];
      assert StackOk(up, IdxPage, root, cap);
      assert up[0] == st[1];
      SamePlace(up[0], IdxPage, cap, k, 0, ju, iu, Seps(st[0])[j]);
    }
  }

  lemma {:induction false} LowAbove(low: seq<set<int>>, st: seq<Level>, up: seq<Level>)
    requires LowOf(low, st) && 1 < |st| && up == st[1..]
    ensures LowOf(low, up)
  {
    forall m | 0 <= m < |up| ensures LevelNos(up[m]) <= low[|low| - |up| + m] {
      assert LevelNos(st[m + 1]) <= low[|low| - |st| + (m + 1)];
    }
  }

  lemma {:induction false} NotAlone(up: seq<Level>, root: int, cap: nat, x: Item, ju: nat, iu: nat, jd: nat)
    requires StackOk(up, IdxPage, root, cap) && At(up[0], ju, iu, x) && jd < |up[0]| && x in up[0][jd].im.items
    ensures 0 < iu ==> !Frail(up, IdxPage, jd)
  {
    var i :| 0 <= i < |up[0][jd].im.items| && up[0][jd].im.items[i] == x;
    SamePlace(up[0], IdxPage, cap, ju, iu, jd, i, x);
  }

  /** An emptied page that could not be merged has no neighbour under its parent. */
  lemma {:induction false} NoNeighbour(st: seq<Level>, up: seq<Level>, kind: Flag, root: int, cap: nat, img: map<int, Image>,
                    low: seq<set<int>>, j: nat, i: nat, ju: nat, iu: nat)
    requires Place(st, up, kind, root, cap, img, low, j, i, ju, iu) && RemoveAt(st[0][j].im.items, i) == []
    requires st[0][j].im.right == END_NO ||
             !(up != [] && iu + 1 < |up[0][ju].im.items| && |RightMerge(st[0], j, i).im.items| < cap)
    requires !(up != [] && 0 < iu && |LeftMerge(st[0], j, i).im.items| < cap)
    requires forall n :: n in img ==> 0 <= n
    ensures |st[0][j].im.items| == 1
    ensures up != [] ==> iu == 0 && |up[0][ju].im.items| == 1 && Frail(st, kind, j)
  {
    if up != [] {
      if iu + 1 < |up[0][ju].im.items| {
        RightNeighbour(st, up, kind, root, cap, img, low, j, i, ju, iu);
      }
      if 0 < iu {
        LeftNeighbour(st, up, kind, root, cap, img, low, j, i, ju, iu);
      }
      assert up[0][ju].im.items == [Seps(st[0])[j]];
      assert up[0] == st[1];
    }
  }

  /** Rewriting the shrunk page in place. */
  lemma {:induction false} Shrunk(st: seq<Level>, up: seq<Level>, kind: Flag, root: int, cap: nat, img: map<int, Image>,
               low: seq<set<int>>, j: nat, i: nat, ju: nat, iu: nat, p: Pg, live: set<int>)
    returns (st2: seq<Level>)
    requires Place(st, up, kind, root, cap, img, low, j, i, ju, iu) && root != END_NO
    requires p == Pg(st[0][j].no, st[0][j].im.(items := RemoveAt(st[0][j].im.items, i))) && p.im.items != []
    ensures st2 != [] && StackOk(st2, kind, root, cap)
    ensures Removed(st, st2, kind, root, cap, img, img[p.no := p.im], live, live, st[0][j].im.items[i])
    ensures p.no in img && 1 <= |p.im.items| <= cap
  {
    assert PageOk(st[0][j], kind, cap);
    var p2 := ShrinkLevel(st[0], kind, cap, j, i);
    var lv := st[0][j := p];
    ReplaceHolds(img, st[0], kind, cap, j, p);
    PutAtBottom(st, kind, root, cap, img, j, p, lv);
    st2 := [lv] + st[1..];
    StackIsLinked(st2, kind, root, cap);
    LevelIsLoose(lv, kind, cap);
    LooseFlat(lv, kind, cap);
  }

  // ---------------------------------------------------------------- when the result is a tree again

  /** Some levels make the storage a well-formed tree. */
  ghost predicate Usable(img: map<int, Image>, root: int, cap: nat) {
    root == END_NO || exists st :: StackOk(st, LeafPage, root, cap) && Holds(img, st)
  }

  /** The entry is alone in its leaf, the leaf is alone under its parent, and it is not the only
      leaf of the tree. */
  ghost predicate Isolated(st: seq<Level>, x: Item) {
    && st != [] && 1 < |st[0]|
    && exists j :: 0 <= j < |st[0]| && IsolatedIn(st, x, j)
  }

  ghost predicate IsolatedIn(st: seq<Level>, x: Item, j: nat)
    requires st != [] && j < |st[0]|
  {
    st[0][j].im.items == [x] && Frail(st, LeafPage, j)
  }

  /** Dropping one of several leaves leaves a broken right link behind, or a tree without an entry
      page for the least keys. */
  lemma {:induction false} NotUsable(st: seq<Level>, root: int, cap: nat, j: nat, st2: seq<Level>, root2: int,
                  img: map<int, Image>, img2: map<int, Image>)
    requires StackOk(st, LeafPage, root, cap) && Holds(img, st) && j < |st[0]| && 1 < |st[0]|
    requires forall n :: n in img ==> 0 <= n
    requires root2 != END_NO && Linked(st2, LeafPage, root2, cap) && Holds(img2, st2) && st2[0] == RemoveAt(st[0], j)
    ensures !Usable(img2, root2, cap)
  {
    if Usable(img2, root2, cap) {
      var st3 :| StackOk(st3, LeafPage, root2, cap) && Holds(img2, st3);
      StackIsLinked(st3, LeafPage, root2, cap);
      LinkedUnique(st2, st3, root2, cap, img2);
      DroppedLeaf(st[0], cap, j, img);
      assert false;
    }
  }

  lemma {:induction false} DroppedLeaf(lv: Level, cap: nat, j: nat, img: map<int, Image>)
    requires LevelOk(lv, LeafPage, cap) && j < |lv| && 1 < |lv| && HoldsLevel(img, lv)
    requires forall n :: n in img ==> 0 <= n
    ensures !LevelOk(RemoveAt(lv, j), LeafPage, cap)
  {
    var w := RemoveAt(lv, j);
    if j == 0 {
      assert w[0] == lv[1];
      SepsRise(lv, LeafPage, cap, 0, 1);
    } else {
      assert w[j - 1] == lv[j - 1];
      assert lv[j - 1].im.right == NextNo(lv, j - 1);
      if j + 1 < |lv| {
        assert Before(lv[j], lv[j + 1]);
        assert w[j] == lv[j + 1];
      }
      assert w[j - 1].im.right != NextNo(w, j - 1);
    }
  }

  /** What becomes of the tree when a leaf entry is removed. */
  lemma {:induction false} Outcome(st: seq<Level>, root: int, cap: nat, j: nat, x: Item, st2: seq<Level>, root2: int,
                img: map<int, Image>, img2: map<int, Image>, live: set<int>, live2: set<int>)
    requires StackOk(st, LeafPage, root, cap) && Holds(img, st) && j < |st[0]| && x in st[0][j].im.items
    requires forall n :: n in img ==> 0 <= n
    requires Removed(st, st2, LeafPage, root2, cap, img, img2, live, live2, x)
    requires st2 != [] && !Frail(st, LeafPage, j) ==> StackOk(st2, LeafPage, root2, cap)
    requires st2 != [] && Frail(st, LeafPage, j) ==> st2[0] == RemoveAt(st[0], j)
    ensures Isolated(st, x) <==> !Usable(img2, root2, cap)
    ensures !Isolated(st, x) && st2 != [] ==> StackOk(st2, LeafPage, root2, cap)
  {
    IsolatedAt(st, root, cap, j, x);
    if 1 < |st[0]| && Frail(st, LeafPage, j) {
      TwoPages(st[0], cap);
      NotUsable(st, root, cap, j, st2, root2, img, img2);
    } else if |st[0]| == 1 && Frail(st, LeafPage, j) {
      assert st[0][1..] == [];
      assert Flat(st[0]) == [x];
    }
  }

  /** Only the page that holds the entry decides. */
  lemma {:induction false} IsolatedAt(st: seq<Level>, root: int, cap: nat, j: nat, x: Item)
    requires StackOk(st, LeafPage, root, cap) && j < |st[0]| && x in st[0][j].im.items
    ensures Isolated(st, x) <==> 1 < |st[0]| && Frail(st, LeafPage, j)
  {
    if Isolated(st, x) {
      var k :| 0 <= k < |st[0]| && IsolatedIn(st, x, k);
      var i :| 0 <= i < |st[0][j].im.items| && st[0][j].im.items[i] == x;
      SamePlace(st[0], LeafPage, cap, j, i, k, 0, x);
    }
    if Frail(st, LeafPage, j) {
      assert IsolatedIn(st, x, j);
    }
  }

  lemma {:induction false} TwoPages(lv: Level, cap: nat)
    requires LevelOk(lv, LeafPage, cap) && 1 < |lv|
    ensures 1 < |Flat(lv)|
  {
    FlatAround(lv, 0);
    assert PageOk(lv[0], LeafPage, cap) && PageOk(lv[1], LeafPage, cap);
    assert lv[1..][0] == lv[1];
  }
}
