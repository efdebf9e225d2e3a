/** Looking keys up: what a search from the root finds at the leaves, and what a traversal visits. */
module BPlusTreeLookup {
  import opened BPlusTreeModel
  import opened BPlusTreeDescent

  /** x is the entry with the greatest key at or below k. */
  ghost predicate IsFloor(s: seq<Item>, k: int, x: Item) {
    && x in s && x.idxv <= k
    && forall y :: y in s && y.idxv <= k ==> y.idxv <= x.idxv
  }

  /** The leaf a key belongs to starts at or below the key. */
  ghost predicate KeyLeafStartsBelow(lv: Level, k: int) {
    exists i :: InPage(lv, i, k) && lv[i].im.items != [] && lv[i].im.items[0].idxv <= k
  }

  lemma {:induction false} KeyPageRead(levels: seq<Level>, img: map<int, Image>, root: int, cap: nat, m: nat, j: nat, k: int)
    requires StackOk(levels, LeafPage, root, cap) && Holds(img, levels)
    requires m < |levels| && InPage(levels[m], j, k)
    ensures levels[m][j].no in img && img[levels[m][j].no] == levels[m][j].im
    ensures PageOk(levels[m][j], KindAt(LeafPage, m), cap)
  {
    StackLevel(levels, LeafPage, root, cap, img, m);
  }

  lemma {:induction false} KeyStep(levels: seq<Level>, img: map<int, Image>, root: int, cap: nat, m: nat, j: nat, k: int, i: nat)
    returns (t: nat)
    requires StackOk(levels, LeafPage, root, cap) && Holds(img, levels)
    requires m < |levels| && InPage(levels[m], j, k) && IsFloorPos(levels[m][j].im.items, k, i)
    ensures levels[m][j].im.flag == LeafPage <==> m == 0
    ensures 0 < m ==>
              && levels[m][j].im.items[i].idxv <= k
              && InPage(levels[m - 1], t, k) && levels[m][j].im.items[i].pgno == levels[m - 1][t].no
  {
    t := 0;
    StackLevel(levels, LeafPage, root, cap, img, m);
    assert PageOk(levels[m][j], KindAt(LeafPage, m), cap);
    if 0 < m {
      StackLevel(levels, LeafPage, root, cap, img, m - 1);
      t := DescendStep(levels[m], levels[m - 1], KindAt(LeafPage, m - 1), cap, j, k, i);
    }
  }

  /** Within the leaf a key belongs to, its floor position is the floor of the whole tree, as soon
      as the leaf starts at or below the key. */
  lemma {:induction false} LeafFloor(lv: Level, cap: nat, j: nat, k: int, i: nat)
    requires LevelOk(lv, LeafPage, cap) && InPage(lv, j, k) && IsFloorPos(lv[j].im.items, k, i)
    ensures lv[j].im.items[i].idxv <= k ==> IsFloor(Flat(lv), k, lv[j].im.items[i])
  {
    var x, s := lv[j].im.items[i], Flat(lv);
    FlatHas(lv, j, x);
    forall y | y in s && y.idxv <= k && x.idxv <= k ensures y.idxv <= x.idxv {
      var m := FlatMember(lv, y);
      LeafFloorAt(lv, cap, j, k, i, m, y);
    }
  }

  lemma {:induction false} LeafFloorAt(lv: Level, cap: nat, j: nat, k: int, i: nat, m: nat, y: Item)
    requires Ordered(lv, LeafPage, cap) && InPage(lv, j, k) && IsFloorPos(lv[j].im.items, k, i)
    requires m < |lv| && y in lv[m].im.items && y.idxv <= k
    ensures y.idxv <= lv[j].im.items[i].idxv
  {
    assert PageOk(lv[j], LeafPage, cap);
    OwnKey(lv, LeafPage, cap, m, y);
    if m < j {
      SepsRise(lv, LeafPage, cap, m + 1, j);
      PageKeysFrom(lv[j], LeafPage, cap, lv[j].im.items[i]);
    } else if j < m {
      SepsRise(lv, LeafPage, cap, j + 1, m);
    }
  }

  /** In a tight level, only keys below the first entry fall below their own leaf. */
  lemma {:induction false} TightLeaf(lv: Level, cap: nat, j: nat, k: int)
    requires LevelOk(lv, LeafPage, cap) && Tight(lv) && InPage(lv, j, k)
    requires Flat(lv) != [] && Flat(lv)[0].idxv <= k
    ensures lv[j].im.items != [] && lv[j].im.items[0].idxv <= k
  {
    assert PageOk(lv[j], LeafPage, cap);
    if j == 0 {
      assert Flat(lv)[0] == lv[0].im.items[0];
    }
  }

  /** One step of a lookup. At a leaf it ends with an entry of the tree: the floor of the key,
      exactly when the leaf the key belongs to starts at or below the key. */
  lemma {:induction false} WalkFind(node: Item, levels: seq<Level>, img: map<int, Image>, root: int, cap: nat,
                 m: nat, j: nat, no: int, i: nat) returns (t: nat)
    requires levels != [] && Walk(node, LeafPage, levels, [], img, root, cap, m, j, no) && no in img
    requires IsFloorPos(img[no].items, node.idxv, i)
    ensures img[no].flag == LeafPage <==> m == 0
    ensures m == 0 ==> FoundAt(levels, img[no].items[i], node.idxv, j)
    ensures 0 < m && MIN_IDXV <= node.idxv ==> img[no].items[i].idxv <= node.idxv
    ensures 0 < m ==> MIN_IDXV <= img[no].items[i].idxv
    ensures m == 0 && |levels| == 1 && node.idxv < MIN_IDXV ==> Flat(levels[0]) != [] && img[no].items[i] == Flat(levels[0])[0]
    ensures 0 < m && img[no].items[i].idxv <= node.idxv ==>
              Walk(node, LeafPage, levels, [], img, root, cap, m - 1, t, img[no].items[i].pgno)
  {
    t := 0;
    StackLevel(levels, LeafPage, root, cap, img, m);
    var lv := levels[m];
    assert PageOk(lv[j], KindAt(LeafPage, m), cap);
    if 0 < m {
      t := WalkStepAbove(node, LeafPage, levels, [], img, root, cap, m, j, no, i);
      FlatHas(lv, j, lv[j].im.items[i]);
      MemberFromMin(lv, KindAt(LeafPage, m), cap, lv[j].im.items[i]);
      if InPage(lv, j, node.idxv) {
        assert lv[j].im.items[0].idxv <= node.idxv;
      }
    } else {
      LeafFound(lv, cap, j, node.idxv, i);
      if |levels| == 1 && node.idxv < MIN_IDXV {
        FlatHas(lv, j, lv[j].im.items[i]);
        MemberFromMin(lv, LeafPage, cap, lv[j].im.items[i]);
        assert lv[1..] == [];
      }
    }
  }

  /** What a lookup that ends at page j of the leaves has found. */
  ghost predicate FoundAt(levels: seq<Level>, x: Item, k: int, j: nat)
    requires levels != [] && j < |levels[0]|
  {
    && x in Flat(levels[0])
    && (x.idxv <= k ==> IsFloor(Flat(levels[0]), k, x))
    && (MIN_IDXV <= k ==>
          && InPage(levels[0], j, k)
          && levels[0][j].im.items != []
          && (x.idxv <= k <==> levels[0][j].im.items[0].idxv <= k))
  }

  lemma {:induction false} LeafFound(lv: Level, cap: nat, j: nat, k: int, i: nat)
    requires LevelOk(lv, LeafPage, cap) && j < |lv| && IsFloorPos(lv[j].im.items, k, i)
    requires InPage(lv, j, k) || k < MIN_IDXV
    ensures FoundAt([lv], lv[j].im.items[i], k, j)
  {
    var p := lv[j].im.items;
    assert PageOk(lv[j], LeafPage, cap);
    FlatHas(lv, j, p[i]);
    if InPage(lv, j, k) {
      LeafFloor(lv, cap, j, k, i);
    } else {
      MemberFromMin(lv, LeafPage, cap, p[i]);
    }
  }

  /** The answer of a lookup in terms of the whole tree. */
  lemma {:induction false} FoundIsFloor(levels: seq<Level>, cap: nat, x: Item, k: int, j: nat)
    requires levels != [] && LevelOk(levels[0], LeafPage, cap) && j < |levels[0]|
    requires FoundAt(levels, x, k, j) && MIN_IDXV <= k
    ensures x.idxv <= k <==> KeyLeafStartsBelow(levels[0], k)
    ensures Tight(levels[0]) && Flat(levels[0])[0].idxv <= k ==> IsFloor(Flat(levels[0]), k, x)
  {
    forall i | InPage(levels[0], i, k) ensures i == j {
      InPageUnique(levels[0], LeafPage, cap, i, j, k);
    }
    if Tight(levels[0]) && Flat(levels[0])[0].idxv <= k {
      TightLeaf(levels[0], cap, j, k);
    }
  }

  /** The same for any key: below the least key the tree can hold, nothing is claimed. */
  lemma {:induction false} Answered(levels: seq<Level>, cap: nat, x: Item, k: int, j: nat)
    requires levels != [] && LevelOk(levels[0], LeafPage, cap) && j < |levels[0]| && FoundAt(levels, x, k, j)
    ensures x in Flat(levels[0]) && (x.idxv <= k ==> IsFloor(Flat(levels[0]), k, x))
    ensures MIN_IDXV <= k ==> (x.idxv <= k <==> KeyLeafStartsBelow(levels[0], k))
    ensures MIN_IDXV <= k && Tight(levels[0]) && Flat(levels[0])[0].idxv <= k ==> IsFloor(Flat(levels[0]), k, x)
  {
    if MIN_IDXV <= k {
      FoundIsFloor(levels, cap, x, k, j);
    }
  }

  // ---------------------------------------------------------------- traversal

  /** Where the children of page j start in the level below. */
  function FirstChild(lv: Level, j: nat): nat
    requires j <= |lv|
  {
    |Flat(lv[..j])|
  }

  /** Entries reached from page j of level m, in the order a traversal visits them. */
  function Below(levels: seq<Level>, m: nat, j: nat): seq<Item>
    requires m < |levels| && j < |levels[m]|
    decreases m, 0, 0
  {
    if m == 0 then levels[0][j].im.items
    else Visit(levels, m - 1, FirstChild(levels[m], j), FirstChild(levels[m], j) + |levels[m][j].im.items|)
  }

  /** Entries reached from the pages lo..hi of level m. */
  function Visit(levels: seq<Level>, m: nat, lo: nat, hi: nat): seq<Item>
    requires m < |levels|
    decreases m, 1, hi
  {
    if hi <= lo || |levels[m]| < hi then [] else Visit(levels, m, lo, hi - 1) + Below(levels, m, hi - 1)
  }

  lemma {:induction false} VisitConcat(levels: seq<Level>, m: nat, lo: nat, mid: nat, hi: nat)
    requires m < |levels| && lo <= mid <= hi <= |levels[m]|
    ensures Visit(levels, m, lo, hi) == Visit(levels, m, lo, mid) + Visit(levels, m, mid, hi)
  {
    if mid < hi {
      VisitConcat(levels, m, lo, mid, hi - 1);
    }
  }

  lemma {:induction false} VisitLeaves(levels: seq<Level>, hi: nat)
    requires levels != [] && hi <= |levels[0]|
    ensures Visit(levels, 0, 0, hi) == Flat(levels[0][..hi])
  {
    if 0 < hi {
      VisitLeaves(levels, hi - 1);
      assert levels[0][..hi] == levels[0][..hi - 1] + [levels[0][hi - 1]];
      FlatConcat(levels[0][..hi - 1], [levels[0][hi - 1]]);
      assert [levels[0][hi - 1]][1..] == [];
    }
  }

  lemma {:induction false} VisitDown(levels: seq<Level>, m: nat, hi: nat)
    requires 0 < m < |levels| && hi <= |levels[m]| && |Flat(levels[m])| == |levels[m - 1]|
    ensures |Flat(levels[m][..hi])| <= |levels[m - 1]|
    ensures Visit(levels, m, 0, hi) == Visit(levels, m - 1, 0, |Flat(levels[m][..hi])|)
  {
    var lv := levels[m];
    FlatConcat(lv[..hi], lv[hi..]);
    assert lv[..hi] + lv[hi..] == lv;
    if 0 < hi {
      VisitDown(levels, m, hi - 1);
      assert lv[..hi] == lv[..hi - 1] + [lv[hi - 1]];
      FlatConcat(lv[..hi - 1], [lv[hi - 1]]);
      assert [lv[hi - 1]][1..] == [];
      VisitConcat(levels, m - 1, 0, |Flat(lv[..hi - 1])|, |Flat(lv[..hi])|);
    }
  }

  /** A traversal from all pages of any level, in particular from the root, visits exactly the
      entries of the leaves in order. */
  lemma {:induction false} VisitAll(levels: seq<Level>, img: map<int, Image>, root: int, cap: nat, m: nat)
    requires Linked(levels, LeafPage, root, cap) && Holds(img, levels) && m < |levels|
    ensures Visit(levels, m, 0, |levels[m]|) == Flat(levels[0])
  {
    if m == 0 {
      VisitLeaves(levels, |levels[0]|);
      assert levels[0][..|levels[0]|] == levels[0];
    } else {
      LinkedLevel(levels, LeafPage, root, cap, img, m - 1);
      VisitAll(levels, img, root, cap, m - 1);
      VisitDown(levels, m, |levels[m]|);
      assert levels[m][..|levels[m]|] == levels[m];
    }
  }

  lemma {:induction false} ChildItem(up: Level, down: Level, j: nat, i: nat)
    requires Flat(up) == Seps(down) && j < |up| && i < |up[j].im.items|
    ensures FirstChild(up, j) + |up[j].im.items| <= |down|
    ensures up[j].im.items[i].pgno == down[FirstChild(up, j) + i].no
  {
    FlatAround(up, j);
    var a := |Flat(up[..j])|;
    assert |Flat(up)| == |down|;
    assert Flat(up)[a + i] == up[j].im.items[i];
    assert Seps(down)[a + i] == up[j].im.items[i];
  }

  /** The page a traversal stands at. */
  lemma {:induction false} PageAt(levels: seq<Level>, img: map<int, Image>, root: int, cap: nat, m: nat, j: nat)
    requires Linked(levels, LeafPage, root, cap) && Holds(img, levels) && m < |levels| && j < |levels[m]|
    ensures levels[m][j].no in img && img[levels[m][j].no] == levels[m][j].im
    ensures 1 <= |levels[m][j].im.items| < cap
    ensures levels[m][j].im.flag == LeafPage <==> m == 0
  {
    LinkedLevel(levels, LeafPage, root, cap, img, m);
    assert LoosePage(levels[m][j], KindAt(LeafPage, m), cap);
  }

  /** The child a traversal goes on to. */
  lemma {:induction false} ChildAt(levels: seq<Level>, img: map<int, Image>, root: int, cap: nat, m: nat, j: nat, i: nat) returns (t: nat)
    requires Linked(levels, LeafPage, root, cap) && Holds(img, levels) && 0 < m < |levels| && j < |levels[m]|
    requires i < |levels[m][j].im.items|
    ensures t == FirstChild(levels[m], j) + i < |levels[m - 1]|
    ensures levels[m][j].im.items[i].pgno == levels[m - 1][t].no
  {
    var up, down := levels[m], levels[m - 1];
    LinkedLevel(levels, LeafPage, root, cap, img, m - 1);
    ChildItem(up, down, j, i);
    t := FirstChild(up, j) + i;
  }
}
