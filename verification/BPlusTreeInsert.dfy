/** What putting an item does to a stack of levels: in place, or by splitting pages upwards. */
module BPlusTreeInsert {
  import opened BPlusTreeModel
  import opened BPlusTreeDescent

  /** Pages outside the given set are the same in both storages. */
  ghost predicate Outside(a: map<int, Image>, b: map<int, Image>, nos: set<int>) {
    forall n :: n !in nos ==> (n in a <==> n in b) && (n in a ==> a[n] == b[n])
  }

  // ---------------------------------------------------------------- the effect of putting an item

  /** Putting an item rewrites the bottom level's reading by sorted insertion, keeps the stack
      well-formed, and touches no page but the stack's own and freshly allocated ones. */
  ghost predicate Put(st: seq<Level>, st2: seq<Level>, kind: Flag, root2: int, cap: nat,
                      img: map<int, Image>, img2: map<int, Image>, live: set<int>, live2: set<int>, it: Item)
    requires st != []
  {
    && StackOk(st2, kind, root2, cap) && Holds(img2, st2)
    && Flat(st2[0]) == InsertSorted(Flat(st[0]), it)
    && (Tight(st[0]) ==> Tight(st2[0]))
    && StackNos(st) <= StackNos(st2) && (StackNos(st2) - StackNos(st)) !! live
    && live2 == live + StackNos(st2)
    && Outside(img, img2, StackNos(st2))
  }

  /** A well-formed level under a stack that lists its separators makes a taller stack. */
  lemma {:induction false} StackCons(w: Level, up: seq<Level>, kind: Flag, root: int, cap: nat, img: map<int, Image>)
    requires LevelOk(w, kind, cap) && HoldsLevel(img, w)
    requires StackOk(up, IdxPage, root, cap) && Holds(img, up)
    requires Flat(up[0]) == Seps(w) && LevelNos(w) !! StackNos(up)
    ensures StackOk([w] + up, kind, root, cap) && Holds(img, [w] + up)
    ensures StackNos([w] + up) == LevelNos(w) + StackNos(up)
  {
    assert ([w] + up)[1..] == up && ([w] + up)[1] == up[0];
  }

  lemma {:induction false} StackOne(w: Level, kind: Flag, cap: nat, img: map<int, Image>)
    requires LevelOk(w, kind, cap) && HoldsLevel(img, w) && |w| == 1
    ensures StackOk([w], kind, w[0].no, cap) && Holds(img, [w]) && StackNos([w]) == {w[0].no}
  {
    assert [w][1..] == [];
    assert LevelNos(w) == {w[0].no};
  }

  /** Replacing the bottom level by one with the same pages and separators. */
  lemma {:induction false} StackSwap(st: seq<Level>, w: Level, kind: Flag, root: int, cap: nat, img: map<int, Image>)
    requires StackOk(st, kind, root, cap) && Holds(img, st[1..])
    requires LevelOk(w, kind, cap) && HoldsLevel(img, w)
    requires Seps(w) == Seps(st[0]) && LevelNos(w) == LevelNos(st[0])
    ensures StackOk([w] + st[1..], kind, root, cap) && Holds(img, [w] + st[1..])
    ensures StackNos([w] + st[1..]) == StackNos(st)
  {
    if |st| == 1 {
      assert Seps(w)[0] == Seps(st[0])[0];
      StackOne(w, kind, cap, img);
      assert [w] + st[1..] == [w];
      assert st[1..] == [];
    } else {
      StackCons(w, st[1..], kind, root, cap, img);
    }
  }

  /** An item taken by the page its key belongs to, with room to spare. */
  lemma {:induction false} PutInPage(lv: Level, kind: Flag, cap: nat, j: nat, p: Pg, it: Item)
    requires LevelOk(lv, kind, cap) && InPage(lv, j, it.idxv)
    requires kind.IdxPage? ==> lv[j].im.pgidx < it.idxv
    requires p == Pg(lv[j].no, lv[j].im.(items := InsertSorted(lv[j].im.items, it))) && |p.im.items| < cap
    ensures LevelOk(lv[j := p], kind, cap)
    ensures Seps(lv[j := p]) == Seps(lv) && LevelNos(lv[j := p]) == LevelNos(lv)
    ensures Flat(lv[j := p]) == InsertSorted(Flat(lv), it)
    ensures Tight(lv) ==> Tight(lv[j := p])
  {
    assert PageOk(lv[j], kind, cap);
    PageTakes(lv[j], kind, cap, it);
    if j + 1 < |lv| {
      assert Before(lv[j], lv[j + 1]);
    }
    ReplaceItems(lv, kind, cap, j, p);
    InsertInLevel(lv, kind, cap, j, it);
  }

  /** The page a key belongs to, seen from the storage. */
  lemma {:induction false} BottomPage(st: seq<Level>, kind: Flag, root: int, cap: nat, img: map<int, Image>, j: nat, it: Item)
    requires StackOk(st, kind, root, cap) && Holds(img, st) && InPage(st[0], j, it.idxv)
    requires kind.IdxPage? ==> st[0][j].im.pgidx < it.idxv
    ensures st[0][j].no in img && img[st[0][j].no] == st[0][j].im
    ensures 1 <= |st[0][j].im.items| < cap && Ascending(st[0][j].im.items)
    ensures it.idxv in AsMap(Flat(st[0])) <==> it.idxv in AsMap(st[0][j].im.items)
    ensures it.idxv in AsMap(Flat(st[0])) ==> AsMap(Flat(st[0]))[it.idxv] == AsMap(st[0][j].im.items)[it.idxv]
    ensures |InsertSorted(st[0][j].im.items, it)|
         == |st[0][j].im.items| + if it.idxv in AsMap(st[0][j].im.items) then 0 else 1
  {
    assert PageOk(st[0][j], kind, cap);
    LookupInPage(st[0], kind, cap, j, it.idxv);
    InsertSortedLength(st[0][j].im.items, it);
  }

  lemma {:induction false} PutNothing(st: seq<Level>, kind: Flag, root: int, cap: nat, img: map<int, Image>, j: nat, it: Item,
                   live: set<int>)
    requires StackOk(st, kind, root, cap) && Holds(img, st) && InPage(st[0], j, it.idxv)
    requires InsertSorted(st[0][j].im.items, it) == st[0][j].im.items && img.Keys <= live
    ensures Put(st, st, kind, root, cap, img, img, live, live, it)
  {
    InsertInLevel(st[0], kind, cap, j, it);
    FlatAround(st[0], j);
    HoldsNos(img, st);
  }

  lemma {:induction false} PutInPlace(st: seq<Level>, kind: Flag, root: int, cap: nat, img: map<int, Image>, j: nat, p: Pg, it: Item,
                   live: set<int>) returns (st2: seq<Level>)
    requires StackOk(st, kind, root, cap) && Holds(img, st) && InPage(st[0], j, it.idxv)
    requires kind.IdxPage? ==> st[0][j].im.pgidx < it.idxv
    requires p == Pg(st[0][j].no, st[0][j].im.(items := InsertSorted(st[0][j].im.items, it)))
    requires |p.im.items| < cap && img.Keys <= live
    ensures Put(st, st2, kind, root, cap, img, img[p.no := p.im], live, live, it)
  {
    var lv := st[0][j := p];
    PutInPage(st[0], kind, cap, j, p, it);
    ReplaceHolds(img, st[0], kind, cap, j, p);
    PutAtBottom(st, kind, root, cap, img, j, p, lv);
    HoldsNos(img, st);
    st2 := [lv] + st[1..];
  }

  lemma {:induction false} PutAtBottom(st: seq<Level>, kind: Flag, root: int, cap: nat, img: map<int, Image>, j: nat, p: Pg, lv: Level)
    requires StackOk(st, kind, root, cap) && Holds(img, st) && j < |st[0]| && p.no == st[0][j].no
    requires LevelOk(lv, kind, cap) && HoldsLevel(img[p.no := p.im], lv)
    requires Seps(lv) == Seps(st[0]) && LevelNos(lv) == LevelNos(st[0])
    ensures StackOk([lv] + st[1..], kind, root, cap) && Holds(img[p.no := p.im], [lv] + st[1..])
    ensures StackNos([lv] + st[1..]) == StackNos(st)
    ensures Outside(img, img[p.no := p.im], StackNos(st))
  {
    assert st[0][j] in st[0];
    assert p.no in LevelNos(st[0]);
    if |st| > 1 {
      HoldsFrame(img, img[p.no := p.im], st[1..]);
    }
    StackSwap(st, lv, kind, root, cap, img[p.no := p.im]);
  }

  lemma {:induction false} ReplaceHolds(img: map<int, Image>, lv: Level, kind: Flag, cap: nat, j: nat, p: Pg)
    requires Ordered(lv, kind, cap) && HoldsLevel(img, lv) && j < |lv| && p.no == lv[j].no
    ensures HoldsLevel(img[p.no := p.im], lv[j := p])
  {
    forall i | 0 <= i < |lv| && i != j ensures lv[i].no != p.no {
      if i < j { assert Before(lv[i], lv[j]); } else { assert Before(lv[j], lv[i]); }
    }
  }

  /** The root is the only page of the top level, and of no other. */
  lemma {:induction false} RootOnTop(st: seq<Level>, kind: Flag, root: int, cap: nat)
    requires StackOk(st, kind, root, cap)
    ensures root in StackNos(st)
    ensures root in LevelNos(st[0]) <==> |st| == 1
  {
    if |st| == 1 {
      assert st[0][0] in st[0];
    } else {
      RootOnTop(st[1..], IdxPage, root, cap);
    }
  }

  // ---------------------------------------------------------------- splitting a page

  /** Pages l and r are the two halves of page j of the level. */
  ghost predicate Halves(lv: Level, kind: Flag, cap: nat, j: nat, l: Pg, r: Pg) {
    && j < |lv|
    && PageOk(l, kind, cap) && PageOk(r, kind, cap)
    && l.no == lv[j].no && l.im.pgidx == lv[j].im.pgidx
    && l.im.right == r.no && r.im.right == lv[j].im.right
    && r.no !in LevelNos(lv)
    && l.im.pgidx < r.im.pgidx && AllBelow(l.im.items, r.im.pgidx)
    && (j + 1 < |lv| ==> AllBelow(r.im.items, lv[j + 1].im.pgidx) && r.im.pgidx < lv[j + 1].im.pgidx)
  }

  /** The bottom level is split in the storage, the levels above do not know yet. */
  ghost predicate SplitState(st: seq<Level>, kind: Flag, root: int, cap: nat, j: nat, l: Pg, r: Pg,
                             img: map<int, Image>, live: set<int>)
  {
    && 3 <= cap && StackOk(st, kind, root, cap) && Halves(st[0], kind, cap, j, l, r)
    && r.no !in StackNos(st)
    && HoldsLevel(img, SplitAt(st[0], j, l, r)) && Holds(img, st[1..])
    && img.Keys <= live
  }

  /** The levels above know about the split. */
  ghost predicate Joined(st: seq<Level>, st2: seq<Level>, kind: Flag, root2: int, cap: nat, j: nat, l: Pg, r: Pg,
                         img: map<int, Image>, img2: map<int, Image>, live: set<int>, live2: set<int>)
    requires st != [] && j < |st[0]|
  {
    && StackOk(st2, kind, root2, cap) && Holds(img2, st2)
    && st2[0] == SplitAt(st[0], j, l, r)
    && StackNos(st) + {r.no} <= StackNos(st2)
    && (StackNos(st2) - StackNos(st) - {r.no}) !! live
    && live2 == live + StackNos(st2)
    && Outside(img, img2, StackNos(st2) - LevelNos(st2[0]))
  }

  /** Cutting an overfull page in the middle gives two well-formed halves. */
  lemma {:induction false} CutPage(p: Pg, kind: Flag, cap: nat, it: Item, rno: int, l: Pg, r: Pg)
    requires 6 <= cap && PageOk(p, kind, cap) && p.im.pgidx <= it.idxv
    requires kind.IdxPage? ==> p.im.pgidx < it.idxv
    requires var s := InsertSorted(p.im.items, it);
             && cap <= |s| + 1 && |s| <= cap
             && l == Pg(p.no, Image(p.im.flag, p.im.pgidx, rno, s[..|s| / 2]))
             && r == Pg(rno, Image(p.im.flag, s[|s| / 2].idxv, p.im.right, s[|s| / 2..]))
    ensures PageOk(l, kind, cap) && PageOk(r, kind, cap)
    ensures l.im.pgidx < r.im.pgidx && AllBelow(l.im.items, r.im.pgidx)
    ensures forall hi :: AllBelow(p.im.items, hi) && it.idxv < hi ==> AllBelow(r.im.items, hi) && r.im.pgidx < hi
    ensures l.im.items + r.im.items == InsertSorted(p.im.items, it)
    ensures p.im.items[0].idxv == p.im.pgidx ==> l.im.items[0].idxv == l.im.pgidx
  {
    PageTakes(p, kind, cap, it);
  }

  lemma {:induction false} SplitInTwo(lv: Level, kind: Flag, cap: nat, j: nat, it: Item, l: Pg, r: Pg)
    requires 6 <= cap && LevelOk(lv, kind, cap) && InPage(lv, j, it.idxv)
    requires kind.IdxPage? ==> lv[j].im.pgidx < it.idxv
    requires var s := InsertSorted(lv[j].im.items, it);
             && cap <= |s| + 1 && |s| <= cap
             && l == Pg(lv[j].no, Image(lv[j].im.flag, lv[j].im.pgidx, r.no, s[..|s| / 2]))
             && r.im == Image(lv[j].im.flag, s[|s| / 2].idxv, lv[j].im.right, s[|s| / 2..])
    requires r.no !in LevelNos(lv)
    ensures Halves(lv, kind, cap, j, l, r)
    ensures Flat(SplitAt(lv, j, l, r)) == InsertSorted(Flat(lv), it)
    ensures Tight(lv) ==> Tight(SplitAt(lv, j, l, r))
  {
    CutPage(lv[j], kind, cap, it, r.no, l, r);
    if j + 1 < |lv| {
      assert Before(lv[j], lv[j + 1]);
    }
    InsertInLevel(lv, kind, cap, j, it);
    SplitFlat(lv, j, l, r);
    if Tight(lv) {
      SplitTight(lv, j, l, r);
    }
  }

  lemma {:induction false} SplitTight(lv: Level, j: nat, l: Pg, r: Pg)
    requires Tight(lv) && j < |lv| && r.im.items != [] && r.im.items[0].idxv == r.im.pgidx
    requires l.im.items != [] && lv[j].im.items != []
    requires lv[j].im.items[0].idxv == lv[j].im.pgidx ==> l.im.items[0].idxv == l.im.pgidx
    ensures Tight(SplitAt(lv, j, l, r))
  {
    var w := SplitAt(lv, j, l, r);
    forall i | 0 < i < |w| && w[i].im.items != [] ensures w[i].im.items[0].idxv == w[i].im.pgidx {
      if i != j + 1 {
        var m := if i <= j then i else i - 1;
        assert lv[m].im.items != [] ==> lv[m].im.items[0].idxv == lv[m].im.pgidx;
      }
    }
  }

  /** Both halves have been written. */
  lemma {:induction false} HalvesHeld(lv: Level, kind: Flag, cap: nat, img: map<int, Image>, j: nat, l: Pg, r: Pg)
    requires Ordered(lv, kind, cap) && HoldsLevel(img, lv) && Halves(lv, kind, cap, j, l, r) && r.no !in img
    ensures HoldsLevel(img[r.no := r.im][l.no := l.im], SplitAt(lv, j, l, r))
  {
    var img2 := img[r.no := r.im][l.no := l.im];
    assert lv[j] in lv;
    ReplaceHolds(img, lv, kind, cap, j, l);
    var v, w := lv[j := l], SplitAt(lv, j, l, r);
    forall i | 0 <= i < |w| ensures w[i].no in img2 && img2[w[i].no] == w[i].im {
      if i != j + 1 {
        var m := if i <= j then i else i - 1;
        assert w[i] == v[m];
      }
    }
  }

  lemma {:induction false} SplitWritten(st: seq<Level>, kind: Flag, root: int, cap: nat, img: map<int, Image>, j: nat, l: Pg, r: Pg, live: set<int>)
    requires 3 <= cap && StackOk(st, kind, root, cap) && Holds(img, st)
    requires Halves(st[0], kind, cap, j, l, r) && r.no !in img && r.no !in StackNos(st)
    requires img.Keys + {r.no} <= live
    ensures SplitState(st, kind, root, cap, j, l, r, img[r.no := r.im][l.no := l.im], live)
  {
    var img2 := img[r.no := r.im][l.no := l.im];
    StackLevel(st, kind, root, cap, img, 0);
    HoldsNos(img, st);
    HalvesHeld(st[0], kind, cap, img, j, l, r);
    assert st[0][j] in st[0];
    if |st| > 1 {
      HoldsFrame(img, img2, st[1..]);
    }
  }

  lemma {:induction false} RootJoins(st: seq<Level>, kind: Flag, root: int, cap: nat, j: nat, l: Pg, r: Pg,
                  img: map<int, Image>, live: set<int>, top: Pg)
    requires |st| == 1 && SplitState(st, kind, root, cap, j, l, r, img, live)
    requires top.no !in live
    requires top.im == Image(IdxPage, l.im.pgidx, END_NO, [Item(l.im.pgidx, l.no), Item(r.im.pgidx, r.no)])
    ensures Joined(st, [SplitAt(st[0], j, l, r)] + [[top]], kind, top.no, cap, j, l, r,
                   img, img[top.no := top.im], live, live + {top.no})
  {
    var w := SplitAt(st[0], j, l, r);
    SplitPage(st[0], kind, cap, j, l, r);
    assert w == [l, r];
    assert Seps(w) == top.im.items;
    assert Flat([top]) == top.im.items by { assert [top][1..] == []; }
    assert forall i :: 0 <= i < |w| ==> w[i].no in img;
    assert LevelNos(w) <= live;
    assert PageOk(top, IdxPage, cap);
    assert NextNo([top], 0) == END_NO;
    StackOne([top], IdxPage, cap, img[top.no := top.im]);
    StackCons(w, [[top]], kind, top.no, cap, img[top.no := top.im]);
    assert StackNos(st) == LevelNos(st[0]) by { assert st[1..] == []; }
  }

  lemma {:induction false} SeparatorAbove(st: seq<Level>, up: seq<Level>, kind: Flag, root: int, cap: nat, j: nat, l: Pg, r: Pg,
                       img: map<int, Image>, live: set<int>)
    requires |st| > 1 && up == st[1..] && SplitState(st, kind, root, cap, j, l, r, img, live)
    ensures Searchable(Item(l.im.pgidx, l.no), IdxPage, up, [], img, root, cap)
  {
    assert Seps(st[0])[j] == Item(l.im.pgidx, l.no);
    assert st[0][j] in st[0];
    assert l.no in LevelNos(st[0]);
    SepsRise(st[0], kind, cap, 0, j);
  }

  lemma {:induction false} NewKeyInPage(st: seq<Level>, up: seq<Level>, kind: Flag, root: int, cap: nat, j: nat, l: Pg, r: Pg,
                     img: map<int, Image>, live: set<int>, ju: nat)
    requires |st| > 1 && up == st[1..] && SplitState(st, kind, root, cap, j, l, r, img, live)
    requires InPage(up[0], ju, l.im.pgidx)
    ensures StackOk(up, IdxPage, root, cap) && Holds(img, up)
    ensures InPage(up[0], ju, r.im.pgidx) && up[0][ju].im.pgidx < r.im.pgidx
    ensures r.im.pgidx !in AsMap(Flat(up[0]))
  {
    assert up[0] == st[1] && StackOk(up, IdxPage, root, cap);
    NewKeyAbove(st[0], up[0], kind, cap, j, l, r, ju);
  }

  /** The new separator goes into the page that holds the old one. */
  /** The new separator lies between those of page j and of the page after it. */
  lemma {:induction false} NewKeyApart(down: Level, kind: Flag, cap: nat, j: nat, l: Pg, r: Pg, t: nat)
    requires LevelOk(down, kind, cap) && Halves(down, kind, cap, j, l, r) && t < |Seps(down)|
    ensures t <= j ==> Seps(down)[t].idxv <= l.im.pgidx
    ensures j < t ==> r.im.pgidx < Seps(down)[t].idxv
  {
    if t <= j { SepsRise(down, kind, cap, t, j); } else { SepsRise(down, kind, cap, j + 1, t); }
  }

  lemma {:induction false} NewKeyAbove(down: Level, up: Level, kind: Flag, cap: nat, j: nat, l: Pg, r: Pg, ju: nat)
    requires LevelOk(down, kind, cap) && LevelOk(up, IdxPage, cap) && Flat(up) == Seps(down)
    requires Halves(down, kind, cap, j, l, r) && InPage(up, ju, l.im.pgidx)
    ensures InPage(up, ju, r.im.pgidx) && up[ju].im.pgidx < r.im.pgidx
    ensures r.im.pgidx !in AsMap(Flat(up))
  {
    var s := Seps(down);
    SepsAscending(down, kind, cap);
    forall t | 0 <= t < |s|
      ensures t <= j ==> s[t].idxv <= l.im.pgidx
      ensures j < t ==> r.im.pgidx < s[t].idxv
    {
      NewKeyApart(down, kind, cap, j, l, r, t);
    }
    AsMapLookup(s, r.im.pgidx);
    if ju + 1 < |up| {
      assert PageOk(up[ju + 1], IdxPage, cap);
      FlatHas(up, ju + 1, up[ju + 1].im.items[0]);
    }
  }

  lemma {:induction false} AboveJoins(st: seq<Level>, up: seq<Level>, kind: Flag, root: int, root2: int, cap: nat, j: nat, l: Pg, r: Pg, up2: seq<Level>,
                   img: map<int, Image>, img2: map<int, Image>, live: set<int>, live2: set<int>)
    requires |st| > 1 && SplitState(st, kind, root, cap, j, l, r, img, live)
    requires up == st[1..] && Put(up, up2, IdxPage, root2, cap, img, img2, live, live2, Item(r.im.pgidx, r.no))
    ensures Joined(st, [SplitAt(st[0], j, l, r)] + up2, kind, root2, cap, j, l, r, img, img2, live, live2)
  {
    var w := SplitAt(st[0], j, l, r);
    SplitPage(st[0], kind, cap, j, l, r);
    HoldsLevelNos(img, w);
    HoldsLevelFrame(img, img2, w, StackNos(up2));
    StackCons(w, up2, kind, root2, cap, img2);
  }

  /** With the levels above told about the split, the item is in. */
  lemma {:induction false} JoinedIsPut(st: seq<Level>, st2: seq<Level>, kind: Flag, root2: int, cap: nat, j: nat, l: Pg, r: Pg,
                    img: map<int, Image>, img2: map<int, Image>, live: set<int>, live2: set<int>, it: Item)
    requires st != [] && j < |st[0]| && l.no == st[0][j].no && r.no !in live
    requires Joined(st, st2, kind, root2, cap, j, l, r, img[r.no := r.im][l.no := l.im], img2, live + {r.no}, live2)
    requires Flat(SplitAt(st[0], j, l, r)) == InsertSorted(Flat(st[0]), it)
    requires Tight(st[0]) ==> Tight(SplitAt(st[0], j, l, r))
    ensures Put(st, st2, kind, root2, cap, img, img2, live, live2, it)
  {
    assert st2[0][j] == l && st2[0][j] in st2[0];
    assert l.no in LevelNos(st2[0]);
  }

  /** A page at the bottom of a stack is stored, and is the root exactly when the stack has one level. */
  lemma {:induction false} PageOfStack(st: seq<Level>, kind: Flag, root: int, cap: nat, img: map<int, Image>, j: nat)
    requires StackOk(st, kind, root, cap) && Holds(img, st) && j < |st[0]|
    ensures StackNos(st) <= img.Keys
    ensures st[0][j].no in img && img[st[0][j].no] == st[0][j].im
    ensures st[0][j].no == root <==> |st| == 1
  {
    StackLevel(st, kind, root, cap, img, 0);
    HoldsNos(img, st);
    RootOnTop(st, kind, root, cap);
    assert st[0][j] in st[0];
    assert st[0][j].no in LevelNos(st[0]);
  }

  /** Freeing the new page and writing the old image back restores the storage. */
  lemma {:induction false} Rollback(img: map<int, Image>, live: set<int>, avail: seq<int>, l: Pg, r: Pg, bak: Image)
    requires l.no in img && img[l.no] == bak && r.no !in img && r.no !in live
    requires avail != [] && avail[0] == r.no
    ensures (img[r.no := r.im][l.no := l.im] - {r.no})[l.no := bak] == img
    ensures live + {r.no} - {r.no} == live
    ensures [r.no] + avail[1..] == avail
  {
  }

  lemma {:induction false} HoldsLevelNos(img: map<int, Image>, lv: Level)
    requires HoldsLevel(img, lv)
    ensures LevelNos(lv) <= img.Keys
  {
  }

  lemma {:induction false} HoldsLevelFrame(img: map<int, Image>, img2: map<int, Image>, lv: Level, nos: set<int>)
    requires HoldsLevel(img, lv) && Outside(img, img2, nos) && LevelNos(lv) !! nos
    ensures HoldsLevel(img2, lv)
  {
    forall i | 0 <= i < |lv| ensures lv[i].no in img2 && img2[lv[i].no] == lv[i].im {
      assert lv[i] in lv;
      assert lv[i].no in LevelNos(lv);
    }
  }
}
