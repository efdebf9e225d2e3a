/** Facts about walking down a well-formed stack of levels, and about one page taking an item. */
module BPlusTreeDescent {
  import opened BPlusTreeModel

  function KindAt(kind: Flag, m: nat): Flag {
    if m == 0 then kind else IdxPage
  }

  lemma {:induction false} StackSuffix(st: seq<Level>, kind: Flag, root: int, cap: nat, m: nat)
    requires StackOk(st, kind, root, cap) && m < |st|
    ensures StackOk(st[m..], KindAt(kind, m), root, cap)
    ensures StackNos(st[m..]) <= StackNos(st)
  {
    if m == 0 {
      assert st[0..] == st;
    } else {
      StackSuffix(st[1..], IdxPage, root, cap, m - 1);
      assert st[1..][m - 1..] == st[m..];
    }
  }

  lemma {:induction false} HoldsSuffix(img: map<int, Image>, st: seq<Level>, m: nat)
    requires Holds(img, st) && m <= |st|
    ensures Holds(img, st[m..])
  {
    if m == 0 {
      assert st[0..] == st;
    } else {
      HoldsSuffix(img, st[1..], m - 1);
      assert st[1..][m - 1..] == st[m..];
    }
  }

  /** What a stack says about one of its levels and the next one up. */
  lemma {:induction false} StackLevel(st: seq<Level>, kind: Flag, root: int, cap: nat, img: map<int, Image>, m: nat)
    requires StackOk(st, kind, root, cap) && Holds(img, st) && m < |st|
    ensures LevelOk(st[m], KindAt(kind, m), cap) && HoldsLevel(img, st[m])
    ensures LevelNos(st[m]) <= StackNos(st)
    ensures m + 1 < |st| ==> Flat(st[m + 1]) == Seps(st[m])
    ensures m + 1 == |st| ==> |st[m]| == 1 && st[m][0].no == root
  {
    StackSuffix(st, kind, root, cap, m);
    HoldsSuffix(img, st, m);
    assert st[m..][0] == st[m];
    if m + 1 < |st| {
      assert st[m..][1] == st[m + 1];
    }
  }

  /** Following the floor item of an index page leads to the page of the level below that the key
      belongs to. */
  lemma {:induction false} DescendStep(up: Level, down: Level, kind: Flag, cap: nat, j: nat, k: int, i: nat) returns (t: nat)
    requires LevelOk(up, IdxPage, cap) && LevelOk(down, kind, cap) && Flat(up) == Seps(down)
    requires InPage(up, j, k) && IsFloorPos(up[j].im.items, k, i)
    ensures up[j].im.items[i].idxv <= k
    ensures InPage(down, t, k) && up[j].im.items[i] == Item(down[t].im.pgidx, down[t].no)
  {
    var items := up[j].im.items;
    assert PageOk(up[j], IdxPage, cap);
    FlatAround(up, j);
    t := |Flat(up[..j])| + i;
    assert Flat(up)[t] == items[i];
    assert Seps(down)[t] == items[i];
    if t + 1 < |down| {
      if i + 1 < |items| {
        assert Flat(up)[t + 1] == items[i + 1];
      } else {
        assert Flat(up[j + 1..]) != [] && j + 1 < |up|;
        FlatRight(up, IdxPage, cap, j);
        assert Flat(up)[t + 1] == Flat(up[j + 1..])[0];
      }
      assert Seps(down)[t + 1].idxv == down[t + 1].im.pgidx;
    }
  }

  /** A key at or above the least separator belongs to some page of the level. */
  lemma {:induction false} RootInPage(lv: Level, kind: Flag, cap: nat, k: int)
    requires LevelOk(lv, kind, cap) && |lv| == 1 && MIN_IDXV <= k
    ensures InPage(lv, 0, k)
  {
  }

  /** A key belongs to at most one page of a level. */
  lemma {:induction false} InPageUnique(lv: Level, kind: Flag, cap: nat, i: nat, j: nat, k: int)
    requires Ordered(lv, kind, cap) && InPage(lv, i, k) && InPage(lv, j, k)
    ensures i == j
  {
    if i < j {
      SepsRise(lv, kind, cap, i + 1, j);
    }
    if j < i {
      SepsRise(lv, kind, cap, j + 1, i);
    }
  }

  /** A page's own keys belong to it. */
  lemma {:induction false} OwnKey(lv: Level, kind: Flag, cap: nat, m: nat, x: Item)
    requires Ordered(lv, kind, cap) && m < |lv| && x in lv[m].im.items
    ensures InPage(lv, m, x.idxv)
  {
    PageKeysFrom(lv[m], kind, cap, x);
    if m + 1 < |lv| {
      assert Before(lv[m], lv[m + 1]);
    }
  }

  /** An item of the level sits in the page its key belongs to. */
  lemma {:induction false} ItemInPage(lv: Level, kind: Flag, cap: nat, j: nat, x: Item)
    requires Ordered(lv, kind, cap) && InPage(lv, j, x.idxv) && x in Flat(lv)
    ensures x in lv[j].im.items
  {
    var m := FlatMember(lv, x);
    OwnKey(lv, kind, cap, m, x);
    InPageUnique(lv, kind, cap, m, j, x.idxv);
  }

  lemma {:induction false} FloorOfMember(s: seq<Item>, x: Item, i: nat)
    requires Ascending(s) && x in s && IsFloorPos(s, x.idxv, i)
    ensures s[i] == x
  {
    var m :| 0 <= m < |s| && s[m] == x;
  }

  /** Looking a key up in the page it belongs to is looking it up in the whole level. */
  lemma {:induction false} LookupInPage(lv: Level, kind: Flag, cap: nat, j: nat, k: int)
    requires Ordered(lv, kind, cap) && InPage(lv, j, k)
    ensures k in AsMap(Flat(lv)) <==> k in AsMap(lv[j].im.items)
    ensures k in AsMap(Flat(lv)) ==> AsMap(Flat(lv))[k] == AsMap(lv[j].im.items)[k]
  {
    var s, p := Flat(lv), lv[j].im.items;
    FlatAscending(lv, kind, cap);
    assert PageOk(lv[j], kind, cap);
    AsMapLookup(s, k);
    AsMapLookup(p, k);
    if k in AsMap(s) {
      var i :| 0 <= i < |s| && s[i].idxv == k;
      ItemInPage(lv, kind, cap, j, s[i]);
      var m :| 0 <= m < |p| && p[m] == s[i];
    }
    if k in AsMap(p) {
      var m :| 0 <= m < |p| && p[m].idxv == k;
      FlatHas(lv, j, p[m]);
      var i :| 0 <= i < |s| && s[i] == p[m];
    }
  }

  /** A page's items after taking one more item of its range. */
  lemma {:induction false} PageTakes(p: Pg, kind: Flag, cap: nat, it: Item)
    requires PageOk(p, kind, cap) && p.im.pgidx <= it.idxv
    requires kind.IdxPage? ==> p.im.pgidx < it.idxv
    ensures var s := InsertSorted(p.im.items, it);
            && 0 < |s| && Ascending(s)
            && p.im.pgidx <= s[0].idxv
            && (p.im.items[0].idxv == p.im.pgidx ==> s[0].idxv == p.im.pgidx)
            && (forall hi :: AllBelow(p.im.items, hi) && it.idxv < hi ==> AllBelow(s, hi))
  {
    var s := InsertSorted(p.im.items, it);
    InsertSortedIsUpdate(p.im.items, it);
    forall hi | AllBelow(p.im.items, hi) && it.idxv < hi ensures AllBelow(s, hi) {
      forall i | 0 <= i < |s| ensures s[i].idxv < hi {
        assert s[i] in s;
      }
    }
  }

  lemma {:induction false} InsertSortedLength(s: seq<Item>, it: Item)
    requires Ascending(s)
    ensures |InsertSorted(s, it)| == |s| + if it.idxv in AsMap(s) then 0 else 1
  {
    AsMapLookup(s, it.idxv);
    if s != [] {
      AsMapLookup(s[1..], it.idxv);
      InsertSortedLength(s[1..], it);
      if it.idxv < s[0].idxv {
        assert it.idxv !in AsMap(s);
      } else if it.idxv in AsMap(s) && s[0].idxv < it.idxv {
        assert it.idxv in AsMap(s[1..]);
      }
    }
  }

  // ---------------------------------------------------------------- a weaker shape

  /** A level with non-empty distinct pages of one kind, in any order. */
  ghost predicate LooseLevel(lv: Level, kind: Flag, cap: nat) {
    && 0 < |lv|
    && (forall i {:trigger LoosePage(lv[i], kind, cap)} :: 0 <= i < |lv| ==> LoosePage(lv[i], kind, cap))
    && (forall i, j :: 0 <= i < j < |lv| ==> lv[i].no != lv[j].no)
  }

  ghost predicate LoosePage(p: Pg, kind: Flag, cap: nat) {
    p.im.flag == kind && 1 <= |p.im.items| < cap
  }

  /** The page numbers lead from the root to every page, whatever keys and links say. This is what
      a traversal relies on. */
  ghost predicate Linked(st: seq<Level>, kind: Flag, root: int, cap: nat) {
    && 0 < |st|
    && LooseLevel(st[0], kind, cap)
    && if |st| == 1 then
         |st[0]| == 1 && st[0][0].no == root
       else
         && Flat(st[1]) == Seps(st[0])
         && LevelNos(st[0]) !! StackNos(st[1..])
         && Linked(st[1..], IdxPage, root, cap)
  }

  lemma {:induction false} LooseKind(lv: Level, kind: Flag, cap: nat)
    requires LooseLevel(lv, kind, cap)
    ensures lv[0].im.flag == kind
  {
    assert LoosePage(lv[0], kind, cap);
  }

  lemma {:induction false} LevelIsLoose(lv: Level, kind: Flag, cap: nat)
    requires LevelOk(lv, kind, cap)
    ensures LooseLevel(lv, kind, cap)
  {
    forall i | 0 <= i < |lv| ensures LoosePage(lv[i], kind, cap) {
      assert PageOk(lv[i], kind, cap);
    }
    forall i, j | 0 <= i < j < |lv| ensures lv[i].no != lv[j].no {
      assert Before(lv[i], lv[j]);
    }
  }

  lemma {:induction false} StackIsLinked(st: seq<Level>, kind: Flag, root: int, cap: nat)
    requires StackOk(st, kind, root, cap)
    ensures Linked(st, kind, root, cap)
  {
    LevelIsLoose(st[0], kind, cap);
    if 1 < |st| {
      StackIsLinked(st[1..], IdxPage, root, cap);
    }
  }

  /** What a linked stack says about one of its levels. */
  lemma {:induction false} LinkedLevel(st: seq<Level>, kind: Flag, root: int, cap: nat, img: map<int, Image>, m: nat)
    requires Linked(st, kind, root, cap) && Holds(img, st) && m < |st|
    ensures LooseLevel(st[m], KindAt(kind, m), cap) && HoldsLevel(img, st[m])
    ensures m + 1 < |st| ==> Flat(st[m + 1]) == Seps(st[m])
    ensures m + 1 == |st| ==> |st[m]| == 1 && st[m][0].no == root
  {
    if 0 < m {
      LinkedLevel(st[1..], IdxPage, root, cap, img, m - 1);
    }
  }

  /** Read from the root down, two linked stacks in one storage agree. */
  lemma {:induction false} SameFromRoot(s: seq<Level>, t: seq<Level>, root: int, cap: nat, img: map<int, Image>, d: nat)
    requires Linked(s, LeafPage, root, cap) && Holds(img, s)
    requires Linked(t, LeafPage, root, cap) && Holds(img, t)
    requires d < |s| && d < |t|
    ensures s[|s| - 1 - d] == t[|t| - 1 - d]
  {
    var i, j := |s| - 1 - d, |t| - 1 - d;
    LinkedLevel(s, LeafPage, root, cap, img, i);
    LinkedLevel(t, LeafPage, root, cap, img, j);
    if 0 < d {
      SameFromRoot(s, t, root, cap, img, d - 1);
      assert Seps(s[i]) == Seps(t[j]);
      forall k | 0 <= k < |s[i]| ensures k < |t[j]| && s[i][k] == t[j][k] {
        assert Seps(s[i])[k] == Seps(t[j])[k];
      }
      assert |Seps(s[i])| == |s[i]| && |Seps(t[j])| == |t[j]|;
    }
  }

  /** A storage and a root determine the levels. */
  lemma {:induction false} LinkedUnique(s: seq<Level>, t: seq<Level>, root: int, cap: nat, img: map<int, Image>)
    requires Linked(s, LeafPage, root, cap) && Holds(img, s)
    requires Linked(t, LeafPage, root, cap) && Holds(img, t)
    ensures s == t
  {
    SameHeight(s, t, root, cap, img);
    SameHeight(t, s, root, cap, img);
    forall i | 0 <= i < |s| ensures s[i] == t[i] {
      SameFromRoot(s, t, root, cap, img, |s| - 1 - i);
    }
  }

  lemma {:induction false} SameHeight(s: seq<Level>, t: seq<Level>, root: int, cap: nat, img: map<int, Image>)
    requires Linked(s, LeafPage, root, cap) && Holds(img, s)
    requires Linked(t, LeafPage, root, cap) && Holds(img, t)
    ensures |s| <= |t|
  {
    if |t| < |s| {
      SameFromRoot(s, t, root, cap, img, |t| - 1);
      LinkedLevel(t, LeafPage, root, cap, img, 0);
      LinkedLevel(s, LeafPage, root, cap, img, |s| - |t|);
      LooseKind(t[0], LeafPage, cap);
      LooseKind(s[|s| - |t|], IdxPage, cap);
    }
  }

  // ---------------------------------------------------------------- walking down from the root

  /** What a search needs to know before it starts. */
  ghost predicate Searchable(node: Item, kind: Flag, st: seq<Level>, low: seq<set<int>>,
                             img: map<int, Image>, root: int, cap: nat)
  {
    && (st != [] ==> StackOk(st, kind, root, cap) && Holds(img, st))
    && (kind == IdxPage && st != [] ==>
          node in Flat(st[0]) && MIN_IDXV <= node.idxv && node.pgno !in StackNos(st))
    && (st == [] ==> kind == IdxPage && LevelSets(img, low, root) && node.pgno == root)
  }

  /** The walk stands at page pgno of level m. */
  ghost predicate Walk(node: Item, kind: Flag, st: seq<Level>, low: seq<set<int>>,
                       img: map<int, Image>, root: int, cap: nat, m: int, j: nat, pgno: int)
  {
    && Searchable(node, kind, st, low, img, root, cap)
    && (st != [] ==> 0 <= m < |st| && j < |st[m]| && pgno == st[m][j].no)
    && (st != [] ==> InPage(st[m], j, node.idxv) || (node.idxv < MIN_IDXV && m == |st| - 1))
    && (st == [] ==> 0 <= m < |low| && pgno in low[m])
  }

  lemma {:induction false} WalkStart(node: Item, kind: Flag, st: seq<Level>, low: seq<set<int>>,
                  img: map<int, Image>, root: int, cap: nat) returns (m: nat)
    requires Searchable(node, kind, st, low, img, root, cap)
    ensures Walk(node, kind, st, low, img, root, cap, m, 0, root)
    ensures st != [] ==> m == |st| - 1
  {
    m := if st == [] then |low| - 1 else |st| - 1;
    if st != [] {
      StackLevel(st, kind, root, cap, img, m);
    }
  }

  lemma {:induction false} WalkRead(node: Item, kind: Flag, st: seq<Level>, low: seq<set<int>>,
                 img: map<int, Image>, root: int, cap: nat, m: int, j: nat, pgno: int)
    requires Walk(node, kind, st, low, img, root, cap, m, j, pgno)
    ensures pgno in img ==> Ascending(img[pgno].items)
    ensures st != [] ==> pgno in img && img[pgno] == st[m][j].im && 1 <= |img[pgno].items| <= cap
  {
    if st != [] {
      StackLevel(st, kind, root, cap, img, m);
      assert PageOk(st[m][j], KindAt(kind, m), cap);
    } else if pgno in img {
      assert LevelSetsAt(img[pgno], low, m);
    }
  }

  /** One step of the search: at the bottom the node is found or absent; above it the walk stops
      because the node is absent, or goes on to a page of the next level. */
  lemma {:induction false} WalkStep(node: Item, kind: Flag, st: seq<Level>, low: seq<set<int>>,
                 img: map<int, Image>, root: int, cap: nat, m: int, j: nat, pgno: int, i: nat)
    returns (t: nat)
    requires Walk(node, kind, st, low, img, root, cap, m, j, pgno) && pgno in img
    requires IsFloorPos(img[pgno].items, node.idxv, i)
    ensures img[pgno].items[i] == node && img[pgno].flag == kind ==>
              st != [] && m == 0 && node in Flat(st[0]) && InPage(st[0], j, node.idxv)
    ensures !(img[pgno].items[i] == node && img[pgno].flag == kind) ==>
              if node.idxv < img[pgno].items[i].idxv || img[pgno].flag == LeafPage then
                st == [] || node !in Flat(st[0])
              else
                0 < m && Walk(node, kind, st, low, img, root, cap, m - 1, t, img[pgno].items[i].pgno)
  {
    if st == [] {
      t := 0;
      assert LevelSetsAt(img[pgno], low, m);
      if 0 < m {
        assert img[pgno].items[i].pgno in low[m - 1];
      }
    } else if m == 0 {
      t := 0;
      WalkStepBottom(node, kind, st, low, img, root, cap, j, pgno, i);
    } else {
      t := WalkStepAbove(node, kind, st, low, img, root, cap, m, j, pgno, i);
    }
  }

  lemma {:induction false} WalkStepBottom(node: Item, kind: Flag, st: seq<Level>, low: seq<set<int>>,
                       img: map<int, Image>, root: int, cap: nat, j: nat, pgno: int, i: nat)
    requires st != [] && Walk(node, kind, st, low, img, root, cap, 0, j, pgno) && pgno in img
    requires IsFloorPos(img[pgno].items, node.idxv, i)
    ensures img[pgno].flag == kind
    ensures node in Flat(st[0]) <==> img[pgno].items[i] == node
    ensures node in Flat(st[0]) ==> InPage(st[0], j, node.idxv)
    ensures kind == IdxPage ==> node in Flat(st[0])
  {
    StackLevel(st, kind, root, cap, img, 0);
    assert PageOk(st[0][j], kind, cap);
    if node in Flat(st[0]) {
      MemberFromMin(st[0], kind, cap, node);
      ItemInPage(st[0], kind, cap, j, node);
      FloorOfMember(img[pgno].items, node, i);
    } else if img[pgno].items[i] == node {
      FlatHas(st[0], j, node);
    }
  }

  lemma {:induction false} WalkStepAbove(node: Item, kind: Flag, st: seq<Level>, low: seq<set<int>>,
                      img: map<int, Image>, root: int, cap: nat, m: nat, j: nat, pgno: int, i: nat)
    returns (t: nat)
    requires 0 < m < |st| && Walk(node, kind, st, low, img, root, cap, m, j, pgno) && pgno in img
    requires IsFloorPos(img[pgno].items, node.idxv, i)
    ensures img[pgno].flag == IdxPage
    ensures !(img[pgno].items[i] == node && kind == IdxPage)
    ensures node.idxv < img[pgno].items[i].idxv ==> node !in Flat(st[0])
    ensures img[pgno].items[i].idxv <= node.idxv ==>
              Walk(node, kind, st, low, img, root, cap, m - 1, t, img[pgno].items[i].pgno)
  {
    StackLevel(st, kind, root, cap, img, m);
    assert PageOk(st[m][j], IdxPage, cap);
    StackLevel(st, kind, root, cap, img, m - 1);
    StackLevel(st, kind, root, cap, img, 0);
    if InPage(st[m], j, node.idxv) {
      t := DescendStep(st[m], st[m - 1], KindAt(kind, m - 1), cap, j, node.idxv, i);
      assert st[m - 1][t] in st[m - 1];
      assert st[m - 1][t].no in StackNos(st);
    } else {
      t := 0;
      SepsRise(st[m], IdxPage, cap, 0, j);
      assert img[pgno].items[0].idxv >= MIN_IDXV;
      if node in Flat(st[0]) {
        MemberFromMin(st[0], kind, cap, node);
      }
    }
  }

  /** The pages of every level below and at the root, bounding any walk from the root: each page
      still stored is of its level's kind and names pages of the next level only. */
  ghost predicate LevelSets(img: map<int, Image>, low: seq<set<int>>, root: int) {
    && 0 < |low| && root in low[|low| - 1]
    && (forall a, b :: 0 <= a < b < |low| ==> low[a] !! low[b])
    && (forall k, n :: 0 <= k < |low| && n in low[k] && n in img ==> LevelSetsAt(img[n], low, k))
  }

  ghost predicate LevelSetsAt(im: Image, low: seq<set<int>>, k: nat)
    requires k < |low|
  {
    && im.flag == (if k == 0 then LeafPage else IdxPage)
    && Ascending(im.items)
    && (0 < k ==> forall i :: 0 <= i < |im.items| ==> im.items[i].pgno in low[k - 1])
  }

  lemma {:induction false} MemberFromMin(lv: Level, kind: Flag, cap: nat, x: Item)
    requires LevelOk(lv, kind, cap) && x in Flat(lv)
    ensures MIN_IDXV <= x.idxv
  {
    var i := FlatMember(lv, x);
    PageKeysFrom(lv[i], kind, cap, x);
    SepsRise(lv, kind, cap, 0, i);
  }
}
