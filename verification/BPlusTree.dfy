/** The B+ tree over a page storage. */
module BPlusTree {
  import opened BPlusTreeModel
  import opened BPlusTreeDescent
  import opened BPlusTreeInsert
  import opened BPlusTreeLookup
  import opened BPlusTreeErase
  import opened PageStorage
  import opened IndexPage

  class BTree {
    const store: Storage
    var rootpgno: int
    ghost var levels: seq<Level>  // what the storage holds, leaves first

    ghost predicate Valid()
      reads this, store
    {
      && store.Valid()
      && if rootpgno == END_NO then levels == [] else
           StackOk(levels, LeafPage, rootpgno, store.Cap()) && Holds(store.img, levels)
    }

    /** What a traversal relies on: every page can be reached from the root. */
    ghost predicate Reachable()
      reads this, store
    {
      && store.Valid()
      && if rootpgno == END_NO then levels == [] else
           Linked(levels, LeafPage, rootpgno, store.Cap()) && Holds(store.img, levels)
    }

    lemma {:induction false} ValidIsReachable()
      requires Valid()
      ensures Reachable()
    {
      if rootpgno != END_NO {
        StackIsLinked(levels, LeafPage, rootpgno, store.Cap());
      }
    }

    /** The entries of the tree in key order. */
    ghost function Entries(): seq<Item>
      reads this
    {
      if levels == [] then [] else Flat(levels[0])
    }

    constructor (store: Storage)
      requires store.Valid()
      ensures Valid() && this.store == store && rootpgno == END_NO && levels == []
    {
      this.store := store;
      rootpgno, levels := END_NO, [];
    }

    method ReadPage(no: int, pg: Page) returns (nst: int)
      requires store.Valid()
      modifies pg
      ensures nst == SUCCESS || nst == ERR_READ || nst == ERR_PAGE
      ensures nst == SUCCESS ==> no in store.img && pg.no == no && pg.AsImage() == store.img[no]
      ensures no in store.img && 1 <= |store.img[no].items| <= store.Cap() ==> nst == SUCCESS
    {
      var r := store.Read(no);
      if r.NoPage? {
        return ERR_READ;
      }
      pg.Load(no, r.im);
      if |pg.items| == 0 || |pg.items| > store.Cap() {
        return ERR_PAGE;
      }
      return SUCCESS;
    }

    method WritePage(no: int, pg: Page) returns (nst: int)
      requires store.Valid()
      modifies store
      ensures store.Valid() && store.live == old(store.live) && store.avail == old(store.avail)
      ensures (nst == SUCCESS) == (1 <= |pg.items| <= store.Cap() && no in store.live)
      ensures nst == SUCCESS ==> store.img == old(store.img)[no := pg.AsImage()]
      ensures nst != SUCCESS ==> store.img == old(store.img)
    {
      if |pg.items| == 0 || |pg.items| > store.Cap() {
        return ERR_PAGE;
      }
      var ok := store.Write(no, pg.AsImage());
      nst := if ok then SUCCESS else ERR_WRITE;
    }

    /** Create a tree of one leaf. The caller's result is left as it was. */
    method CreateRoot(idxv: int, pgno: int) returns (nst: int)
      requires Valid() && rootpgno == END_NO && MIN_IDXV <= idxv
      modifies this, store
      ensures Valid()
      ensures nst == SUCCESS <==> old(store.avail) != []
      ensures nst == SUCCESS ==>
                && Entries() == [Item(idxv, pgno)] && Tight(levels[0])
                && Outside(old(store.img), store.img, StackNos(levels))
                && StackNos(levels) !! old(store.live)
                && store.live == old(store.live) + StackNos(levels)
      ensures nst != SUCCESS ==>
                && nst == ERR_ALLOC && rootpgno == old(rootpgno) && levels == old(levels)
                && store.img == old(store.img) && store.live == old(store.live) && store.avail == old(store.avail)
    {
      var no := store.Alloc();
      if no == END_NO {
        return ERR_ALLOC;
      }
      var pg := new Page(pgno, LeafPage, MIN_IDXV);
      pg.Add(Item(idxv, pgno));
      nst := WritePage(no, pg);
      rootpgno := no;
      levels := [[Pg(no, pg.AsImage())]];
      assert levels[0][1..] == [] && levels[1..] == [];
      assert Flat(levels[0]) == pg.items;
      assert StackNos(levels) == {no};
    }

    /** Put the page number for a key into the tree. When pages run out at any level of a cascade
        of splits, nothing has changed. */
    method Insert(idxv: int, pgno: int, result0: int) returns (nst: int, result: int)
      requires Valid() && MIN_IDXV <= idxv
      modifies this, store
      ensures Valid()
      ensures nst == SUCCESS ==>
                && Entries() == InsertSorted(old(Entries()), Item(idxv, pgno))
                && (old(levels) != [] && Tight(old(levels)[0]) ==> Tight(levels[0]))
                && (old(levels) == [] ==> Tight(levels[0]))
                && StackNos(old(levels)) <= StackNos(levels)
                && (StackNos(levels) - StackNos(old(levels))) !! old(store.live)
                && store.live == old(store.live) + StackNos(levels)
                && Outside(old(store.img), store.img, StackNos(levels))
      ensures nst == SUCCESS ==>
                result == if old(levels) == [] then result0 else PutResult(AsMap(old(Entries())), Item(idxv, pgno))
      ensures |old(levels)| < |old(store.avail)| ==> nst == SUCCESS
      ensures nst != SUCCESS ==>
                && nst == ERR_ALLOC && rootpgno == old(rootpgno) && levels == old(levels)
                && store.img == old(store.img) && store.live == old(store.live) && store.avail == old(store.avail)
    {
      result := result0;
      if rootpgno == END_NO {
        nst := CreateRoot(idxv, pgno);
        return;
      }
      ghost var j, t, m := 0, 0, |levels| - 1;
      StackLevel(levels, LeafPage, rootpgno, store.Cap(), store.img, m);
      RootInPage(levels[m], KindAt(LeafPage, m), store.Cap(), idxv);
      var no := rootpgno;
      var pg := new Page(END_NO, LeafPage, MIN_IDXV);
      while no != END_NO
        invariant unchanged(this) && unchanged(store)
        invariant 0 <= m < |levels| && InPage(levels[m], j, idxv) && no == levels[m][j].no
        decreases m
      {
        KeyPageRead(levels, store.img, rootpgno, store.Cap(), m, j, idxv);
        var rd := ReadPage(no, pg);
        if rd != SUCCESS {
          return FAILED, result;
        }
        var i := pg.BSearch(idxv);
        t := KeyStep(levels, store.img, rootpgno, store.Cap(), m, j, idxv, i);
        if pg.flag == LeafPage {
          ghost var st2;
          nst, result, st2 := InsertIdx(Item(idxv, pgno), no, levels, LeafPage, j);
          if nst == SUCCESS {
            levels := st2;
            RootOnTop(levels, LeafPage, rootpgno, store.Cap());
            HoldsNos(store.img, levels);
          }
          return;
        }
        if idxv < pg.items[i].idxv {
          break;
        }
        no, m, j := pg.items[i].pgno, m - 1, t;
      }
      KeyPageRead(levels, store.img, rootpgno, store.Cap(), m, j, idxv);
      return FAILED, result;
    }

    /** Look up the entry at or just below a key. A key below 0 is found (at the first entry) exactly
        when the tree has a single level. */
    method Find(idxv: int) returns (nst: int, idx: int, pgno: int)
      requires Valid()
      ensures nst == SUCCESS || nst == FAILED
      ensures MIN_IDXV <= idxv ==> (nst == SUCCESS <==> levels != [])
      ensures idxv < MIN_IDXV ==> (nst == SUCCESS <==> |levels| == 1)
      ensures idxv < MIN_IDXV && nst == SUCCESS ==> Entries() != [] && Item(idx, pgno) == Entries()[0]
      ensures nst == SUCCESS ==> Item(idx, pgno) in Entries()
      ensures nst == SUCCESS && idx <= idxv ==> IsFloor(Entries(), idxv, Item(idx, pgno))
      ensures nst == SUCCESS && MIN_IDXV <= idxv ==>
                (idx <= idxv <==> KeyLeafStartsBelow(levels[0], idxv))
      ensures nst == SUCCESS && MIN_IDXV <= idxv && Tight(levels[0]) && Entries()[0].idxv <= idxv ==>
                IsFloor(Entries(), idxv, Item(idx, pgno))
    {
      idx, pgno := 0, END_NO;
      if rootpgno == END_NO {
        return FAILED, idx, pgno;
      }
      ghost var node, cap := Item(idxv, END_NO), store.Cap();
      ghost var m := WalkStart(node, LeafPage, levels, [], store.img, rootpgno, cap);
      ghost var j := 0;
      var no := rootpgno;
      var pg := new Page(END_NO, LeafPage, MIN_IDXV);
      while no != END_NO
        invariant Walk(node, LeafPage, levels, [], store.img, rootpgno, cap, m, j, no)
        invariant idxv < MIN_IDXV ==> m == |levels| - 1
        decreases m
      {
        WalkRead(node, LeafPage, levels, [], store.img, rootpgno, cap, m, j, no);
        var rd := ReadPage(no, pg);
        if rd != SUCCESS {
          return FAILED, idx, pgno;
        }
        var i := pg.BSearch(idxv);
        ghost var t := WalkFind(node, levels, store.img, rootpgno, cap, m, j, no, i);
        if pg.flag == LeafPage {
          idx, pgno := pg.items[i].idxv, pg.items[i].pgno;
          Answered(levels, cap, pg.items[i], idxv, j);
          return SUCCESS, idx, pgno;
        }
        if idxv < pg.items[i].idxv {
          return FAILED, idx, pgno;
        }
        no, m, j := pg.items[i].pgno, m - 1, t;
      }
      WalkRead(node, LeafPage, levels, [], store.img, rootpgno, cap, m, j, no);
      return FAILED, idx, pgno;
    }

    /** Call back every entry of the tree; seen is the list of calls made so far. */
    method Foreach(seen0: seq<Item>) returns (seen: seq<Item>)
      requires Reachable()
      ensures seen == seen0 + Entries()
    {
      if rootpgno == END_NO {
        return seen0;
      }
      ghost var m := |levels| - 1;
      LinkedLevel(levels, LeafPage, rootpgno, store.Cap(), store.img, m);
      VisitAll(levels, store.img, rootpgno, store.Cap(), m);
      assert Visit(levels, m, 0, 1) == Visit(levels, m, 0, 0) + Below(levels, m, 0);
      seen := ForeachFrom(rootpgno, seen0, levels, store.img, rootpgno, store.Cap(), m, 0);
    }

    method ForeachFrom(pgno: int, seen0: seq<Item>, ghost lv: seq<Level>, ghost img: map<int, Image>,
                       ghost root: int, ghost cap: nat, ghost m: nat, ghost j: nat)
      returns (seen: seq<Item>)
      requires store.Valid() && img == store.img && cap == store.Cap()
      requires Linked(lv, LeafPage, root, cap) && Holds(img, lv)
      requires m < |lv| && j < |lv[m]| && pgno == lv[m][j].no
      decreases m, 1
      ensures seen == seen0 + Below(lv, m, j)
    {
      seen := seen0;
      PageAt(lv, img, root, cap, m, j);
      var pg := new Page(END_NO, LeafPage, MIN_IDXV);
      var rd := ReadPage(pgno, pg);
      if rd != SUCCESS {
        return;
      }
      if pg.flag == LeafPage {
        seen := CallEach(pg.items, seen);
      } else {
        seen := ForeachChild(pg.items, seen, lv, img, root, cap, m, j);
      }
    }

    method CallEach(items: seq<Item>, seen0: seq<Item>) returns (seen: seq<Item>)
      ensures seen == seen0 + items
    {
      seen := seen0;
      var i := 0;
      while i < |items|
        invariant 0 <= i <= |items| && seen == seen0 + items[..i]
      {
        seen := seen + [items[i]];
        i := i + 1;
      }
    }

    method ForeachChild(items: seq<Item>, seen0: seq<Item>, ghost lv: seq<Level>, ghost img: map<int, Image>,
                        ghost root: int, ghost cap: nat, ghost m: nat, ghost j: nat)
      returns (seen: seq<Item>)
      requires store.Valid() && img == store.img && cap == store.Cap()
      requires Linked(lv, LeafPage, root, cap) && Holds(img, lv)
      requires 0 < m < |lv| && j < |lv[m]| && items == lv[m][j].im.items
      decreases m, 0
      ensures seen == seen0 + Below(lv, m, j)
    {
      seen := seen0;
      ghost var a := FirstChild(lv[m], j);
      var i := 0;
      while i < |items|
        invariant 0 <= i <= |items| && seen == seen0 + Visit(lv, m - 1, a, a + i)
      {
        ghost var t := ChildAt(lv, img, root, cap, m, j, i);
        seen := ForeachFrom(items[i].pgno, seen, lv, img, root, cap, m - 1, t);
        i := i + 1;
      }
    }

    /** Look for the node in a page of the given kind, from the root down. The stack st holds the
        levels from that kind's level up. It is empty when the node is the root itself, which no
        index page names; low then bounds the walk. */
    method FindInPage(node: Item, kind: Flag, pgin: Page, ghost st: seq<Level>, ghost low: seq<set<int>>)
      returns (nst: int, ipos: int, ghost j: nat)
      requires store.Valid()
      requires Searchable(node, kind, st, low, store.img, rootpgno, store.Cap())
      modifies pgin
      ensures nst == SUCCESS || nst == FAILED
      ensures nst == SUCCESS <==> st != [] && node in Flat(st[0])
      ensures nst == SUCCESS ==>
                && InPage(st[0], j, node.idxv) && pgin.AsPg() == st[0][j]
                && 0 <= ipos < |pgin.items| && pgin.items[ipos] == node
    {
      var pgno := rootpgno;
      ghost var m := WalkStart(node, kind, st, low, store.img, rootpgno, store.Cap());
      ipos := 0;
      j := 0;
      while pgno != END_NO
        invariant Walk(node, kind, st, low, store.img, rootpgno, store.Cap(), m, j, pgno)
        decreases m
      {
        WalkRead(node, kind, st, low, store.img, rootpgno, store.Cap(), m, j, pgno);
        var rd := ReadPage(pgno, pgin);
        if rd != SUCCESS || pgin.items == [] {
          break;
        }
        var i := pgin.BSearch(node.idxv);
        ghost var t := WalkStep(node, kind, st, low, store.img, rootpgno, store.Cap(), m, j, pgno, i);
        if node.idxv == pgin.items[i].idxv && node.pgno == pgin.items[i].pgno && pgin.flag == kind {
          return SUCCESS, i, j;
        } else if node.idxv < pgin.items[i].idxv || pgin.flag == LeafPage {
          break;
        }
        pgno := pgin.items[i].pgno;
        m := m - 1;
        j := t;
      }
      WalkRead(node, kind, st, low, store.img, rootpgno, store.Cap(), m, j, pgno);
      return FAILED, 0, j;
    }

    /** Put an item into page pgno at the bottom of the stack, splitting upwards as far as needed.
        On failure to allocate at any level everything is as it was before. */
    method InsertIdx(it: Item, pgno: int, ghost st: seq<Level>, ghost kind: Flag, ghost j: nat)
      returns (nst: int, result: int, ghost st2: seq<Level>)
      requires store.Valid() && StackOk(st, kind, rootpgno, store.Cap()) && Holds(store.img, st)
      requires InPage(st[0], j, it.idxv) && st[0][j].no == pgno
      requires kind.IdxPage? ==> st[0][j].im.pgidx < it.idxv
      modifies this`rootpgno, store
      decreases |st|, 1
      ensures store.Valid()
      ensures nst == SUCCESS ==>
                Put(st, st2, kind, rootpgno, store.Cap(), old(store.img), store.img, old(store.live), store.live, it)
      ensures nst == SUCCESS ==> result == PutResult(AsMap(Flat(st[0])), it)
      ensures |st| < |old(store.avail)| ==> nst == SUCCESS
      ensures nst != SUCCESS ==>
                && nst == ERR_ALLOC && rootpgno == old(rootpgno)
                && store.img == old(store.img) && store.live == old(store.live) && store.avail == old(store.avail)
    {
      result, st2 := INSERTED, st;
      ghost var cap := store.Cap();
      BottomPage(st, kind, rootpgno, cap, store.img, j, it);
      var pg := new Page(END_NO, LeafPage, MIN_IDXV);
      nst := ReadPage(pgno, pg);
      var bak := pg.AsImage();
      var up := pg.UpdatePgno(it);
      if up == NOT_CHANGE {
        PutNothing(st, kind, rootpgno, cap, store.img, j, it, store.live);
        return SUCCESS, NOT_CHANGE, st;
      }
      if up == UPDATED {
        nst := WritePage(pgno, pg);
        st2 := PutInPlace(st, kind, rootpgno, cap, old(store.img), j, pg.AsPg(), it, store.live);
        return nst, UPDATED, st2;
      }
      pg.Insert(it);
      if |pg.items| + 1 < store.Cap() {
        nst := WritePage(pgno, pg);
        st2 := PutInPlace(st, kind, rootpgno, cap, old(store.img), j, pg.AsPg(), it, store.live);
        return nst, INSERTED, st2;
      }

      nst, result, st2 := SplitIdx(pg, bak, it, st, kind, j);
    }

    /** Cut the page in two and write both halves, the upper one under a new number. */
    method Halve(pg: Page, ghost bak: Image, nno: int, ghost it: Item, ghost st: seq<Level>, ghost kind: Flag, ghost j: nat)
      returns (pgnew: Page)
      requires store.Valid() && StackOk(st, kind, rootpgno, store.Cap()) && Holds(store.img, st)
      requires InPage(st[0], j, it.idxv) && st[0][j] == Pg(pg.no, bak)
      requires kind.IdxPage? ==> bak.pgidx < it.idxv
      requires pg.AsImage() == bak.(items := InsertSorted(bak.items, it))
      requires store.Cap() <= |pg.items| + 1 && |pg.items| <= store.Cap()
      requires nno in store.live && nno !in store.img && nno !in StackNos(st)
      modifies store, pg
      ensures fresh(pgnew) && store.Valid() && pgnew.no == nno && pg.no == old(pg.no)
      ensures SplitState(st, kind, rootpgno, store.Cap(), j, pg.AsPg(), pgnew.AsPg(), store.img, store.live)
      ensures Flat(SplitAt(st[0], j, pg.AsPg(), pgnew.AsPg())) == InsertSorted(Flat(st[0]), it)
      ensures Tight(st[0]) ==> Tight(SplitAt(st[0], j, pg.AsPg(), pgnew.AsPg()))
      ensures store.img == old(store.img)[nno := pgnew.AsImage()][pg.no := pg.AsImage()]
      ensures store.live == old(store.live) && store.avail == old(store.avail)
    {
      ghost var cap := store.Cap();
      pgnew := new Page(nno, pg.flag, MIN_IDXV);
      StackLevel(st, kind, rootpgno, cap, store.img, 0);
      pg.Split(|pg.items| / 2, pgnew);
      ghost var l, r := pg.AsPg(), pgnew.AsPg();
      SplitInTwo(st[0], kind, cap, j, it, l, r);
      var w := WritePage(nno, pgnew);
      w := WritePage(pg.no, pg);
      SplitWritten(st, kind, rootpgno, cap, old(store.img), j, l, r, store.live);
    }

    /** The page in memory has become too full: cut it in two, and tell the levels above. */
    method SplitIdx(pg: Page, bak: Image, ghost it: Item, ghost st: seq<Level>, ghost kind: Flag, ghost j: nat)
      returns (nst: int, result: int, ghost st2: seq<Level>)
      requires store.Valid() && StackOk(st, kind, rootpgno, store.Cap()) && Holds(store.img, st)
      requires InPage(st[0], j, it.idxv) && st[0][j] == Pg(pg.no, bak)
      requires kind.IdxPage? ==> bak.pgidx < it.idxv
      requires pg.AsImage() == bak.(items := InsertSorted(bak.items, it))
      requires store.Cap() <= |pg.items| + 1 && |pg.items| <= store.Cap()
      modifies this`rootpgno, store, pg
      decreases |st|, 0
      ensures store.Valid()
      ensures nst == SUCCESS ==> result == INSERTED
      ensures |st| < |old(store.avail)| ==> nst == SUCCESS
      ensures nst == SUCCESS ==>
                Put(st, st2, kind, rootpgno, store.Cap(), old(store.img), store.img, old(store.live), store.live, it)
      ensures nst != SUCCESS ==>
                && nst == ERR_ALLOC && rootpgno == old(rootpgno)
                && store.img == old(store.img) && store.live == old(store.live) && store.avail == old(store.avail)
    {
      ghost var cap := store.Cap();
      var pgno := pg.no;
      PageOfStack(st, kind, rootpgno, cap, store.img, j);
      var nno := store.Alloc();
      if nno == END_NO {
        return ERR_ALLOC, INSERTED, st;
      }
      var pgnew := Halve(pg, bak, nno, it, st, kind, j);
      ghost var l, r := pg.AsPg(), pgnew.AsPg();
      nst, result, st2 := TellAbove(pg, pgnew, st, kind, j);
      if nst != SUCCESS {
        var ok := store.Free(nno);
        ok := store.Write(pgno, bak);
        Rollback(old(store.img), old(store.live), old(store.avail), l, r, bak);
      } else {
        JoinedIsPut(st, st2, kind, rootpgno, cap, j, l, r, old(store.img), store.img, old(store.live), store.live, it);
      }
    }

    /** Two halves of the root need a new root, others a separator in the level above. */
    method TellAbove(pg: Page, pgnew: Page, ghost st: seq<Level>, ghost kind: Flag, ghost j: nat)
      returns (nst: int, result: int, ghost st2: seq<Level>)
      requires store.Valid() && st != [] && (pg.no == rootpgno <==> |st| == 1)
      requires SplitState(st, kind, rootpgno, store.Cap(), j, pg.AsPg(), pgnew.AsPg(), store.img, store.live)
      modifies this`rootpgno, store
      decreases |st| - 1, 3
      ensures store.Valid()
      ensures nst == SUCCESS ==> result == INSERTED
      ensures |st| <= |old(store.avail)| ==> nst == SUCCESS
      ensures nst == SUCCESS ==>
                Joined(st, st2, kind, rootpgno, store.Cap(), j, pg.AsPg(), pgnew.AsPg(),
                       old(store.img), store.img, old(store.live), store.live)
      ensures nst != SUCCESS ==>
                && nst == ERR_ALLOC && rootpgno == old(rootpgno)
                && store.img == old(store.img) && store.live == old(store.live) && store.avail == old(store.avail)
    {
      if pg.no == rootpgno {
        nst, st2 := GrowRoot(pg, pgnew, st, kind, j);
        result := INSERTED;
      } else {
        nst, result, st2 := InsertAbove(pg, pgnew, st, kind, j);
      }
    }

    /** A new root above the two halves of the old one. */
    method GrowRoot(pg: Page, pgnew: Page, ghost st: seq<Level>, ghost kind: Flag, ghost j: nat)
      returns (nst: int, ghost st2: seq<Level>)
      requires store.Valid() && pg.no == rootpgno && |st| == 1
      requires SplitState(st, kind, rootpgno, store.Cap(), j, pg.AsPg(), pgnew.AsPg(), store.img, store.live)
      modifies this`rootpgno, store
      ensures store.Valid()
      ensures 0 < |old(store.avail)| ==> nst == SUCCESS
      ensures nst == SUCCESS ==>
                Joined(st, st2, kind, rootpgno, store.Cap(), j, pg.AsPg(), pgnew.AsPg(),
                       old(store.img), store.img, old(store.live), store.live)
      ensures nst != SUCCESS ==>
                && nst == ERR_ALLOC && rootpgno == old(rootpgno)
                && store.img == old(store.img) && store.live == old(store.live) && store.avail == old(store.avail)
    {
      st2 := st;
      var rno := store.Alloc();
      if rno == END_NO {
        return ERR_ALLOC, st2;
      }
      var pgroot := new Page(rno, IdxPage, pg.pgidx);
      pgroot.Add(Item(pg.pgidx, pg.no));
      pgroot.Add(Item(pgnew.pgidx, pgnew.no));
      nst := WritePage(rno, pgroot);
      RootJoins(st, kind, rootpgno, store.Cap(), j, pg.AsPg(), pgnew.AsPg(), old(store.img), old(store.live), pgroot.AsPg());
      rootpgno := rno;
      st2 := [SplitAt(st[0], j, pg.AsPg(), pgnew.AsPg())] + [[pgroot.AsPg()]];
    }

    /** Tell the level above about the page split off. */
    method InsertAbove(pg: Page, pgnew: Page, ghost st: seq<Level>, ghost kind: Flag, ghost j: nat)
      returns (nst: int, result: int, ghost st2: seq<Level>)
      requires store.Valid() && |st| > 1
      requires SplitState(st, kind, rootpgno, store.Cap(), j, pg.AsPg(), pgnew.AsPg(), store.img, store.live)
      modifies this`rootpgno, store
      decreases |st| - 1, 2
      ensures store.Valid()
      ensures nst == SUCCESS ==> result == INSERTED
      ensures |st| <= |old(store.avail)| ==> nst == SUCCESS
      ensures nst == SUCCESS ==>
                Joined(st, st2, kind, rootpgno, store.Cap(), j, pg.AsPg(), pgnew.AsPg(),
                       old(store.img), store.img, old(store.live), store.live)
      ensures nst != SUCCESS ==>
                && nst == ERR_ALLOC && rootpgno == old(rootpgno)
                && store.img == old(store.img) && store.live == old(store.live) && store.avail == old(store.avail)
    {
      ghost var cap, l, r, up := store.Cap(), pg.AsPg(), pgnew.AsPg(), st[1..];
      var pgup := new Page(END_NO, LeafPage, MIN_IDXV);
      SeparatorAbove(st, up, kind, rootpgno, cap, j, l, r, store.img, store.live);
      var fst, ipos;
      ghost var ju;
      fst, ipos, ju := FindInPage(Item(pg.pgidx, pg.no), IdxPage, pgup, up, []);
      NewKeyInPage(st, up, kind, rootpgno, cap, j, l, r, store.img, store.live, ju);
      ghost var up2;
      nst, result, up2 := InsertIdx(Item(pgnew.pgidx, pgnew.no), pgup.no, up, IdxPage, ju);
      st2 := [SplitAt(st[0], j, l, r)] + up2;
      if nst == SUCCESS {
        AboveJoins(st, up, kind, old(rootpgno), rootpgno, cap, j, l, r, up2,
                   old(store.img), store.img, old(store.live), store.live);
      }
    }

    // -------------------------------------------------------------- removing entries

    /** Remove exactly one entry, named by its key and page number, and with it the key from the map
        that the entries stand for. Every other entry can still be reached. The result is a
        well-formed tree if and only if the entry was not isolated. */
    method Erase(idxv: int, pgno: int) returns (nst: int)
      requires Valid()
      modifies this, store
      ensures nst == SUCCESS || nst == FAILED
      ensures nst == SUCCESS <==> Item(idxv, pgno) in old(Entries())
      ensures nst == SUCCESS <==> EntryOf(AsMap(old(Entries())), Item(idxv, pgno))
      ensures nst == SUCCESS ==> AsMap(Entries()) == AsMap(old(Entries())) - {idxv}
      ensures nst != SUCCESS ==>
                Valid() && unchanged(store) && rootpgno == old(rootpgno) && levels == old(levels)
      ensures nst == SUCCESS ==>
                && Reachable()
                && Entries() == Remove(old(Entries()), Item(idxv, pgno))
                && (rootpgno == END_NO <==> old(Entries()) == [Item(idxv, pgno)])
                && StackNos(levels) <= StackNos(old(levels))
                && store.live == old(store.live) - (StackNos(old(levels)) - StackNos(levels))
                && Outside(old(store.img), store.img, StackNos(old(levels)))
      ensures nst == SUCCESS ==>
                (Usable(store.img, rootpgno, store.Cap()) <==> !Isolated(old(levels), Item(idxv, pgno)))
      ensures nst == SUCCESS && !Isolated(old(levels), Item(idxv, pgno)) ==> Valid()
    {
      if rootpgno == END_NO {
        return FAILED;
      }
      StackLevel(levels, LeafPage, rootpgno, store.Cap(), store.img, 0);
      RemoveInMap(levels[0], LeafPage, store.Cap(), Item(idxv, pgno));
      ghost var st2;
      nst, st2 := EraseLeafItem(Item(idxv, pgno));
      if nst == SUCCESS {
        levels := st2;
      }
    }

    method EraseLeafItem(it: Item) returns (nst: int, ghost st2: seq<Level>)
      requires Valid() && rootpgno != END_NO
      modifies this`rootpgno, store
      ensures store.Valid() && (nst == SUCCESS || nst == FAILED)
      ensures nst == SUCCESS <==> it in Flat(levels[0])
      ensures nst != SUCCESS ==> unchanged(store) && rootpgno == old(rootpgno)
      ensures nst == SUCCESS ==>
                Removed(levels, st2, LeafPage, rootpgno, store.Cap(),
                        old(store.img), store.img, old(store.live), store.live, it)
      ensures nst == SUCCESS ==> (Usable(store.img, rootpgno, store.Cap()) <==> !Isolated(levels, it))
      ensures nst == SUCCESS && !Isolated(levels, it) && st2 != [] ==> StackOk(st2, LeafPage, rootpgno, store.Cap())
    {
      ghost var cap, st, root, img, live := store.Cap(), levels, rootpgno, store.img, store.live;
      ghost var low := LowStart(st, root, cap, img);
      ghost var jd;
      nst, st2, jd := DelIdx(it, LeafPage, st, low, 0, 0);
      if nst == SUCCESS {
        Outcome(st, root, cap, jd, it, st2, rootpgno, img, store.img, live, store.live);
      }
    }

    /** The item left of the node in the same page. */
    method FindLeft(node: Item, ghost up: seq<Level>, ghost low: seq<set<int>>, ghost ju: nat, ghost iu: nat)
      returns (nst: int, left: Item)
      requires store.Valid() && Searchable(node, IdxPage, up, low, store.img, rootpgno, store.Cap())
      requires up != [] ==> At(up[0], ju, iu, node) && Ordered(up[0], IdxPage, store.Cap())
      ensures nst == SUCCESS <==> up != [] && 0 < iu
      ensures nst == SUCCESS ==> left == up[0][ju].im.items[iu - 1]
    {
      left := Item(0, END_NO);
      var pg := new Page(END_NO, LeafPage, MIN_IDXV);
      var ipos;
      ghost var j;
      if up != [] {
        FlatHas(up[0], ju, node);
      }
      nst, ipos, j := FindInPage(node, IdxPage, pg, up, low);
      if nst == SUCCESS {
        SamePlace(up[0], IdxPage, store.Cap(), j, ipos, ju, iu, node);
      }
      if nst != SUCCESS || ipos == 0 {
        return FAILED, left;
      }
      left := pg.items[ipos - 1];
    }

    /** The item right of the node in the same page. */
    method FindRight(node: Item, ghost up: seq<Level>, ghost low: seq<set<int>>, ghost ju: nat, ghost iu: nat)
      returns (nst: int, right: Item)
      requires store.Valid() && Searchable(node, IdxPage, up, low, store.img, rootpgno, store.Cap())
      requires up != [] ==> At(up[0], ju, iu, node) && Ordered(up[0], IdxPage, store.Cap())
      ensures nst == SUCCESS <==> up != [] && iu + 1 < |up[0][ju].im.items|
      ensures nst == SUCCESS ==> right == up[0][ju].im.items[iu + 1]
    {
      right := Item(0, END_NO);
      var pg := new Page(END_NO, LeafPage, MIN_IDXV);
      var ipos;
      ghost var j;
      if up != [] {
        FlatHas(up[0], ju, node);
      }
      nst, ipos, j := FindInPage(node, IdxPage, pg, up, low);
      if nst == SUCCESS {
        SamePlace(up[0], IdxPage, store.Cap(), j, ipos, ju, iu, node);
      }
      if nst != SUCCESS || |pg.items| <= ipos + 1 {
        return FAILED, right;
      }
      right := pg.items[ipos + 1];
    }

    /** Read the right neighbour, if it has the same parent. */
    method ReadRight(pg: Page, ghost st: seq<Level>, ghost up: seq<Level>, ghost kind: Flag, ghost low: seq<set<int>>,
                     ghost j: nat, ghost i: nat, ghost ju: nat, ghost iu: nat)
      returns (nst: int, pgr: Page)
      requires store.Valid() && Place(st, up, kind, rootpgno, store.Cap(), store.img, low, j, i, ju, iu)
      requires pg.AsPg() == Pg(st[0][j].no, st[0][j].im.(items := RemoveAt(st[0][j].im.items, i)))
      ensures fresh(pgr)
      ensures nst == SUCCESS <==> up != [] && iu + 1 < |up[0][ju].im.items|
      ensures nst == SUCCESS ==>
                && j + 1 < |st[0]| && pgr.AsPg() == st[0][j + 1] && pgr.items != []
                && pg.no in store.img && pgr.no in store.img && pg.no != pgr.no
                && Seps(st[0])[j + 1] == Item(pgr.pgidx, pgr.no)
    {
      pgr := new Page(END_NO, LeafPage, MIN_IDXV);
      PlaceSearch(st, up, kind, rootpgno, store.Cap(), store.img, low, j, i, ju, iu);
      var right;
      nst, right := FindRight(Item(pg.pgidx, pg.no), up, low, ju, iu);
      if nst != SUCCESS {
        return;
      }
      RightNeighbour(st, up, kind, rootpgno, store.Cap(), store.img, low, j, i, ju, iu);
      nst := ReadPage(pg.right, pgr);
    }

    /** Read the left neighbour, if it has the same parent. */
    method ReadLeft(pg: Page, ghost st: seq<Level>, ghost up: seq<Level>, ghost kind: Flag, ghost low: seq<set<int>>,
                    ghost j: nat, ghost i: nat, ghost ju: nat, ghost iu: nat)
      returns (nst: int, pgl: Page)
      requires store.Valid() && Place(st, up, kind, rootpgno, store.Cap(), store.img, low, j, i, ju, iu)
      requires pg.AsPg() == Pg(st[0][j].no, st[0][j].im.(items := RemoveAt(st[0][j].im.items, i)))
      ensures fresh(pgl)
      ensures nst == SUCCESS <==> up != [] && 0 < iu
      ensures nst == SUCCESS ==>
                && 0 < j && pgl.AsPg() == st[0][j - 1] && pgl.items != []
                && pg.no in store.img && pgl.no in store.img && pg.no != pgl.no
                && Seps(st[0])[j] == Item(pg.pgidx, pg.no)
    {
      pgl := new Page(END_NO, LeafPage, MIN_IDXV);
      PlaceSearch(st, up, kind, rootpgno, store.Cap(), store.img, low, j, i, ju, iu);
      var left;
      nst, left := FindLeft(Item(pg.pgidx, pg.no), up, low, ju, iu);
      if nst != SUCCESS {
        return;
      }
      LeftNeighbour(st, up, kind, rootpgno, store.Cap(), store.img, low, j, i, ju, iu);
      nst := ReadPage(left.pgno, pgl);
    }

    /** Write the page that holds both, and free the other one. */
    method StoreMerged(pg: Page, gone: int)
      requires store.Valid() && 1 <= |pg.items| <= store.Cap() && pg.no in store.live && gone in store.live
      modifies store
      ensures store.Valid()
      ensures store.img == Merged(old(store.img), pg.AsPg(), gone) && store.live == old(store.live) - {gone}
    {
      var nst := WritePage(pg.no, pg);
      var ok := store.Free(gone);
    }

    /** Take the right neighbour's items over, if the two together stay below capacity. */
    method MergeRight(pg: Page, ghost st: seq<Level>, ghost up: seq<Level>, ghost kind: Flag, ghost low: seq<set<int>>,
                      ghost j: nat, ghost i: nat, ghost ju: nat, ghost iu: nat)
      returns (nst: int, idel: Item)
      requires store.Valid() && Place(st, up, kind, rootpgno, store.Cap(), store.img, low, j, i, ju, iu)
      requires pg.AsPg() == Pg(st[0][j].no, st[0][j].im.(items := RemoveAt(st[0][j].im.items, i)))
      modifies store
      ensures store.Valid()
      ensures nst == SUCCESS <==>
                up != [] && iu + 1 < |up[0][ju].im.items| && |RightMerge(st[0], j, i).im.items| < store.Cap()
      ensures nst == SUCCESS ==>
                && idel == Seps(st[0])[j + 1]
                && store.img == Merged(old(store.img), RightMerge(st[0], j, i), idel.pgno)
                && store.live == old(store.live) - {idel.pgno}
      ensures nst != SUCCESS ==> unchanged(store)
    {
      idel := Item(0, END_NO);
      var pgr;
      nst, pgr := ReadRight(pg, st, up, kind, low, j, i, ju, iu);
      if nst != SUCCESS {
        return FAILED, idel;
      }
      if |pgr.items| + |pg.items| < store.Cap() {
        var pgn := new Page.Copy(pg);
        idel := Item(pgr.pgidx, pgr.no);
        pgn.items := pgn.items + pgr.items;
        pgn.right := pgr.right;
        assert pgn.AsPg() == RightMerge(st[0], j, i);
        StoreMerged(pgn, idel.pgno);
        return SUCCESS, idel;
      }
      return FAILED, idel;
    }

    /** Hand the items over to the left neighbour, if the two together stay below capacity. */
    method MergeLeft(pg: Page, ghost st: seq<Level>, ghost up: seq<Level>, ghost kind: Flag, ghost low: seq<set<int>>,
                     ghost j: nat, ghost i: nat, ghost ju: nat, ghost iu: nat)
      returns (nst: int, idel: Item)
      requires store.Valid() && Place(st, up, kind, rootpgno, store.Cap(), store.img, low, j, i, ju, iu)
      requires pg.AsPg() == Pg(st[0][j].no, st[0][j].im.(items := RemoveAt(st[0][j].im.items, i)))
      modifies store
      ensures store.Valid()
      ensures nst == SUCCESS <==>
                up != [] && 0 < iu && |LeftMerge(st[0], j, i).im.items| < store.Cap()
      ensures nst == SUCCESS ==>
                && idel == Seps(st[0])[j]
                && store.img == Merged(old(store.img), LeftMerge(st[0], j, i), idel.pgno)
                && store.live == old(store.live) - {idel.pgno}
      ensures nst != SUCCESS ==> unchanged(store)
    {
      idel := Item(0, END_NO);
      var pgl;
      nst, pgl := ReadLeft(pg, st, up, kind, low, j, i, ju, iu);
      if nst != SUCCESS {
        return FAILED, idel;
      }
      if |pgl.items| + |pg.items| < store.Cap() {
        idel := Item(pg.pgidx, pg.no);
        pgl.items := pgl.items + pg.items;
        pgl.right := pg.right;
        assert pgl.AsPg() == LeftMerge(st[0], j, i);
        StoreMerged(pgl, idel.pgno);
        return SUCCESS, idel;
      }
      return FAILED, idel;
    }

    /** Look up the item to be removed, with its page and the item above that names the page. */
    method Locate(idel: Item, kind: Flag, pg: Page, ghost st: seq<Level>, ghost low: seq<set<int>>, ghost jx: nat, ghost ix: nat)
      returns (nst: int, ipos: int, ghost j: nat, ghost up: seq<Level>, ghost ju: nat, ghost iu: nat)
      requires store.Valid() && StackOk(st, kind, rootpgno, store.Cap()) && Holds(store.img, st)
      requires LevelSets(store.img, low, rootpgno) && LowOf(low, st)
      requires kind == IdxPage ==>
                 && At(st[0], jx, ix, idel) && (0 < ix || |st[0][jx].im.items| == 1)
                 && MIN_IDXV <= idel.idxv && idel.pgno !in StackNos(st)
      modifies pg
      ensures nst == SUCCESS || nst == FAILED
      ensures nst == SUCCESS <==> idel in Flat(st[0])
      ensures nst == SUCCESS ==>
                && 0 <= ipos && Place(st, up, kind, rootpgno, store.Cap(), store.img, low, j, ipos, ju, iu)
                && pg.AsPg() == st[0][j] && st[0][j].im.items[ipos] == idel
    {
      up, ju, iu := [], 0, 0;
      if kind == IdxPage {
        FlatHas(st[0], jx, idel);
      }
      nst, ipos, j := FindInPage(idel, kind, pg, st, []);
      if nst != SUCCESS {
        return;
      }
      if kind == IdxPage {
        StackLevel(st, kind, rootpgno, store.Cap(), store.img, 0);
        SamePlace(st[0], kind, store.Cap(), j, ipos, jx, ix, idel);
      }
      up, ju, iu := FindPlace(st, kind, rootpgno, store.Cap(), store.img, low, j, ipos);
    }

    /** Remove an item from the page that holds it and, when few items stay behind, merge pages
        upwards as far as possible. */
    method DelIdx(idel: Item, kind: Flag, ghost st: seq<Level>, ghost low: seq<set<int>>, ghost jx: nat, ghost ix: nat)
      returns (nst: int, ghost st2: seq<Level>, ghost jd: nat)
      requires store.Valid() && StackOk(st, kind, rootpgno, store.Cap()) && Holds(store.img, st)
      requires LevelSets(store.img, low, rootpgno) && LowOf(low, st)
      requires kind == IdxPage ==>
                 && At(st[0], jx, ix, idel) && (0 < ix || |st[0][jx].im.items| == 1)
                 && MIN_IDXV <= idel.idxv && idel.pgno !in StackNos(st)
      modifies this`rootpgno, store
      decreases |st|, 2
      ensures store.Valid()
      ensures nst == SUCCESS || nst == FAILED
      ensures nst == SUCCESS <==> idel in Flat(st[0])
      ensures nst != SUCCESS ==> unchanged(store) && rootpgno == old(rootpgno)
      ensures nst == SUCCESS ==>
                && jd < |st[0]| && idel in st[0][jd].im.items
                && Removed(st, st2, kind, rootpgno, store.Cap(), old(store.img), store.img, old(store.live), store.live, idel)
                && (st2 != [] && !Frail(st, kind, jd) ==> StackOk(st2, kind, rootpgno, store.Cap()))
                && (st2 != [] && kind == LeafPage && Frail(st, kind, jd) ==> st2[0] == RemoveAt(st[0], jd))
    {
      st2 := st;
      var pg := new Page(END_NO, LeafPage, MIN_IDXV);
      var ipos;
      ghost var up, ju, iu;
      nst, ipos, jd, up, ju, iu := Locate(idel, kind, pg, st, low, jx, ix);
      if nst != SUCCESS {
        return;
      }
      pg.items := pg.items[..ipos] + pg.items[ipos + 1..];
      if |pg.items| > store.Cap() / 4 {
        nst, st2 := WriteShrunk(pg, st, up, kind, low, jd, ipos, ju, iu);
      } else {
        nst, st2 := Rebalance(pg, st, up, kind, low, jd, ipos, ju, iu);
      }
    }

    /** Write a page that lost an item but keeps some. */
    method WriteShrunk(pg: Page, ghost st: seq<Level>, ghost up: seq<Level>, ghost kind: Flag, ghost low: seq<set<int>>,
                       ghost j: nat, ghost i: nat, ghost ju: nat, ghost iu: nat)
      returns (nst: int, ghost st2: seq<Level>)
      requires store.Valid() && Place(st, up, kind, rootpgno, store.Cap(), store.img, low, j, i, ju, iu)
      requires pg.AsPg() == Pg(st[0][j].no, st[0][j].im.(items := RemoveAt(st[0][j].im.items, i))) && pg.items != []
      modifies store
      ensures store.Valid() && nst == SUCCESS && st2 != []
      ensures Removed(st, st2, kind, rootpgno, store.Cap(), old(store.img), store.img, old(store.live), store.live,
                      st[0][j].im.items[i])
      ensures StackOk(st2, kind, rootpgno, store.Cap())
    {
      RootOnTop(st, kind, rootpgno, store.Cap());
      HoldsNos(store.img, st);
      st2 := Shrunk(st, up, kind, rootpgno, store.Cap(), store.img, low, j, i, ju, iu, pg.AsPg(), store.live);
      nst := WritePage(pg.no, pg);
    }

    /** The page is down to a quarter or less: merge it with a neighbour under the same parent,
        keep it if that fails, and free it if nothing is left of it. */
    method Rebalance(pg: Page, ghost st: seq<Level>, ghost up: seq<Level>, ghost kind: Flag, ghost low: seq<set<int>>,
                     ghost j: nat, ghost i: nat, ghost ju: nat, ghost iu: nat)
      returns (nst: int, ghost st2: seq<Level>)
      requires store.Valid() && Place(st, up, kind, rootpgno, store.Cap(), store.img, low, j, i, ju, iu)
      requires pg.AsPg() == Pg(st[0][j].no, st[0][j].im.(items := RemoveAt(st[0][j].im.items, i)))
      modifies this`rootpgno, store
      decreases |st|, 1, 2
      ensures store.Valid() && nst == SUCCESS
      ensures Removed(st, st2, kind, rootpgno, store.Cap(), old(store.img), store.img, old(store.live), store.live,
                      st[0][j].im.items[i])
      ensures st2 != [] && !Frail(st, kind, j) ==> StackOk(st2, kind, rootpgno, store.Cap())
      ensures st2 != [] && kind == LeafPage && Frail(st, kind, j) ==> st2[0] == RemoveAt(st[0], j)
    {
      var done;
      done, st2 := MergeAway(pg, st, up, kind, low, j, i, ju, iu);
      nst := SUCCESS;
      if done {
        return;
      }
      if pg.items != [] {
        nst, st2 := WriteShrunk(pg, st, up, kind, low, j, i, ju, iu);
        return;
      }
      NoNeighbour(st, up, kind, rootpgno, store.Cap(), store.img, low, j, i, ju, iu);
      ghost var x, img, live := st[0][j].im.items[i], store.img, store.live;
      PageDropped(st, up, kind, rootpgno, store.Cap(), img, low, j, i, ju, iu, live);
      PlaceSearch(st, up, kind, rootpgno, store.Cap(), store.img, low, j, i, ju, iu);
      var ok := store.Free(pg.no);
      nst := SUCCESS;
      if pg.no == rootpgno {
        rootpgno := END_NO;
        st2 := [];
      } else {
        var idelup := Item(pg.pgidx, pg.no);
        nst, st2 := DelAbove(idelup, st, up, RemoveAt(st[0], j), kind, low, x, img, live, ju, iu);
      }
    }

    /** Merge a page that lost an item with its right or else its left neighbour. */
    method MergeAway(pg: Page, ghost st: seq<Level>, ghost up: seq<Level>, ghost kind: Flag, ghost low: seq<set<int>>,
                     ghost j: nat, ghost i: nat, ghost ju: nat, ghost iu: nat)
      returns (done: bool, ghost st2: seq<Level>)
      requires store.Valid() && Place(st, up, kind, rootpgno, store.Cap(), store.img, low, j, i, ju, iu)
      requires pg.AsPg() == Pg(st[0][j].no, st[0][j].im.(items := RemoveAt(st[0][j].im.items, i)))
      modifies this`rootpgno, store
      decreases |st|, 1, 1
      ensures store.Valid()
      ensures done ==>
                Removed(st, st2, kind, rootpgno, store.Cap(), old(store.img), store.img, old(store.live), store.live,
                        st[0][j].im.items[i])
      ensures done && st2 != [] && !Frail(st, kind, j) ==> StackOk(st2, kind, rootpgno, store.Cap())
      ensures done ==> !(kind == LeafPage && Frail(st, kind, j))
      ensures !done ==> unchanged(store) && rootpgno == old(rootpgno)
      ensures !done ==> (st[0][j].im.right == END_NO || !(up != [] && iu + 1 < |up[0][ju].im.items| && |RightMerge(st[0], j, i).im.items| < store.Cap())) && !(up != [] && 0 < iu && |LeftMerge(st[0], j, i).im.items| < store.Cap())
    {
      if pg.right != END_NO {
        done, st2 := MergeAwayRight(pg, st, up, kind, low, j, i, ju, iu);
        if done {
          return;
        }
      }
      done, st2 := MergeAwayLeft(pg, st, up, kind, low, j, i, ju, iu);
    }

    method MergeAwayRight(pg: Page, ghost st: seq<Level>, ghost up: seq<Level>, ghost kind: Flag, ghost low: seq<set<int>>,
                          ghost j: nat, ghost i: nat, ghost ju: nat, ghost iu: nat)
      returns (done: bool, ghost st2: seq<Level>)
      requires store.Valid() && Place(st, up, kind, rootpgno, store.Cap(), store.img, low, j, i, ju, iu)
      requires pg.AsPg() == Pg(st[0][j].no, st[0][j].im.(items := RemoveAt(st[0][j].im.items, i)))
      modifies this`rootpgno, store
      decreases |st|, 1, 0
      ensures store.Valid()
      ensures done ==>
                Removed(st, st2, kind, rootpgno, store.Cap(), old(store.img), store.img, old(store.live), store.live,
                        st[0][j].im.items[i])
      ensures done && st2 != [] && !Frail(st, kind, j) ==> StackOk(st2, kind, rootpgno, store.Cap())
      ensures done ==> !(kind == LeafPage && Frail(st, kind, j))
      ensures !done ==> unchanged(store) && rootpgno == old(rootpgno)
      ensures !done ==> !(up != [] && iu + 1 < |up[0][ju].im.items| && |RightMerge(st[0], j, i).im.items| < store.Cap())
    {
      ghost var x, img, live := st[0][j].im.items[i], store.img, store.live;
      st2 := st;
      var nst, idelup := MergeRight(pg, st, up, kind, low, j, i, ju, iu);
      done := nst == SUCCESS;
      if done {
        RightMerged(st, up, kind, rootpgno, store.Cap(), img, low, j, i, ju, iu, live);
        FrailNot(st, up, kind, rootpgno, store.Cap(), j, ju, iu);
        nst, st2 := DelAbove(idelup, st, up, MergeAt(st[0], j, RightMerge(st[0], j, i)), kind, low, x, img, live, ju, iu + 1);
      }
    }

    method MergeAwayLeft(pg: Page, ghost st: seq<Level>, ghost up: seq<Level>, ghost kind: Flag, ghost low: seq<set<int>>,
                         ghost j: nat, ghost i: nat, ghost ju: nat, ghost iu: nat)
      returns (done: bool, ghost st2: seq<Level>)
      requires store.Valid() && Place(st, up, kind, rootpgno, store.Cap(), store.img, low, j, i, ju, iu)
      requires pg.AsPg() == Pg(st[0][j].no, st[0][j].im.(items := RemoveAt(st[0][j].im.items, i)))
      modifies this`rootpgno, store
      decreases |st|, 1, 0
      ensures store.Valid()
      ensures done ==>
                Removed(st, st2, kind, rootpgno, store.Cap(), old(store.img), store.img, old(store.live), store.live,
                        st[0][j].im.items[i])
      ensures done && st2 != [] && !Frail(st, kind, j) ==> StackOk(st2, kind, rootpgno, store.Cap())
      ensures done ==> !(kind == LeafPage && Frail(st, kind, j))
      ensures !done ==> unchanged(store) && rootpgno == old(rootpgno)
      ensures !done ==> !(up != [] && 0 < iu && |LeftMerge(st[0], j, i).im.items| < store.Cap())
    {
      ghost var x, img, live := st[0][j].im.items[i], store.img, store.live;
      st2 := st;
      var nst, idelup := MergeLeft(pg, st, up, kind, low, j, i, ju, iu);
      done := nst == SUCCESS;
      if done {
        LeftMerged(st, up, kind, rootpgno, store.Cap(), img, low, j, i, ju, iu, live);
        FrailNot(st, up, kind, rootpgno, store.Cap(), j, ju, iu);
        nst, st2 := DelAbove(idelup, st, up, MergeAt(st[0], j - 1, LeftMerge(st[0], j, i)), kind, low, x, img, live, ju, iu);
      }
    }

    /** Remove the separator of a page that was given up from the level above. */
    method DelAbove(idelup: Item, ghost st: seq<Level>, ghost up: seq<Level>, ghost w: Level, ghost kind: Flag,
                    ghost low: seq<set<int>>, ghost x: Item, ghost img0: map<int, Image>, ghost live0: set<int>,
                    ghost ju: nat, ghost iu: nat)
      returns (nst: int, ghost st2: seq<Level>)
      requires store.Valid() && 1 < |st| && up == st[1..]
      requires CutState(st, w, kind, rootpgno, store.Cap(), idelup, x, img0, store.img, live0, store.live)
      requires At(up[0], ju, iu, idelup) && (0 < iu || |up[0][ju].im.items| == 1)
      requires LevelSets(store.img, low, rootpgno) && LowOf(low, st)
      modifies this`rootpgno, store
      decreases |st|, 0
      ensures store.Valid() && nst == SUCCESS
      ensures Removed(st, st2, kind, rootpgno, store.Cap(), img0, store.img, live0, store.live, x)
      ensures st2 != [] && 0 < iu && LevelOk(w, kind, store.Cap()) ==> StackOk(st2, kind, rootpgno, store.Cap())
      ensures st2 != [] ==> st2[0] == w
    {
      ghost var root, img1, live1 := rootpgno, store.img, store.live;
      CutUpper(st, up, w, kind, root, store.Cap(), idelup, x, img0, img1, live0, live1);
      LowAbove(low, st, up);
      ghost var up2, jd;
      nst, up2, jd := DelIdx(idelup, IdxPage, up, low, ju, iu);
      NotAlone(up, root, store.Cap(), idelup, ju, iu, jd);
      st2 := if up2 == [] then [] else [w] + up2;
      CutJoins(st, up, w, up2, kind, root, rootpgno, store.Cap(), idelup, x, img0, img1, store.img, live0, live1, store.live);
    }
  }
}
