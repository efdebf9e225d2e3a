/** The index of the data table: one B+ tree for each tag. The tree's lookup and insertion are what the
    table takes them for. */
module TableIndex {
  import opened BPlusTreeModel
  import opened BPlusTreeLookup
  import opened BPlusTree
  import opened BPlusTreeSample
  import opened PageStorage
  import DataTable

  /** A tree as the table builds it: by insertions only, the first one at index value 0. */
  ghost predicate IsIndex(tree: BTree)
    reads tree, tree.store
  {
    && tree.Valid()
    && (tree.levels != [] ==>
          Tight(tree.levels[0]) && tree.Entries() != [] && tree.Entries()[0].idxv == MIN_IDXV)
  }

  lemma {:induction false} EntriesAscend(tree: BTree)
    requires tree.Valid()
    ensures Ascending(tree.Entries()) && (tree.levels != [] ==> tree.Entries() != [])
  {
    if tree.levels != [] {
      FlatAscending(tree.levels[0], LeafPage, tree.store.Cap());
      assert PageOk(tree.levels[0][0], LeafPage, tree.store.Cap());
    }
  }

  /** An ascending list has one floor of a key, and it is at the floor position. */
  lemma {:induction false} FloorIsAtPos(s: seq<Item>, k: int, x: Item)
    requires s != [] && Ascending(s) && IsFloor(s, k, x)
    ensures x == s[DataTable.FloorPos(s, k)]
  {
    var p := DataTable.FloorPos(s, k);
    var i :| 0 <= i < |s| && s[i] == x;
    assert s[p] in s;
  }

  /** Lookup names the entry at the floor position; it fails for an empty tree and, below 0, for a
      tree of more than one level. */
  method GetIdx(tree: BTree, idxval: int) returns (ok: bool, ixout: int, ivout: int)
    requires IsIndex(tree)
    ensures ok <==> tree.levels != [] && (MIN_IDXV <= idxval || |tree.levels| == 1)
    ensures ok ==>
              && tree.Entries() != [] && Ascending(tree.Entries())
              && Item(ixout, ivout) == tree.Entries()[DataTable.FloorPos(tree.Entries(), idxval)]
  {
    var nst;
    nst, ixout, ivout := tree.Find(idxval);
    ok := nst == SUCCESS;
    EntriesAscend(tree);
    if ok && MIN_IDXV <= idxval {
      FloorIsAtPos(tree.Entries(), idxval, Item(ixout, ivout));
    }
  }

  /** Insertion is sorted insertion into the entries, or leaves the tree as it was. */
  method InsertIdx(tree: BTree, idxval: int, pgno: int) returns (ok: bool)
    requires IsIndex(tree) && MIN_IDXV <= idxval && (tree.levels == [] ==> idxval == MIN_IDXV)
    modifies tree, tree.store
    ensures IsIndex(tree)
    ensures |old(tree.levels)| < |old(tree.store.avail)| ==> ok
    ensures tree.Entries() == if ok then InsertSorted(old(tree.Entries()), Item(idxval, pgno)) else old(tree.Entries())
    ensures !ok ==> tree.levels == old(tree.levels) && tree.store.img == old(tree.store.img)
  {
    EntriesAscend(tree);
    ghost var before := tree.Entries();
    var nst, result := tree.Insert(idxval, pgno, 0);
    ok := nst == SUCCESS;
  }

  lemma {:induction false} OneLeaf(lv: Level, cap: nat)
    requires LevelOk(lv, LeafPage, cap) && |lv| == 1
    ensures |Flat(lv)| < cap
  {
    assert PageOk(lv[0], LeafPage, cap);
    assert lv[1..] == [];
    assert Flat(lv) == lv[0].im.items + Flat([]);
  }

  /** As soon as a tag has as many data pages as an index page has room for, its tree has more than one
      level, so that queries from below 0 find nothing. */
  lemma {:induction false} ManyPagesManyLevels(tree: BTree)
    requires tree.Valid() && tree.store.Cap() <= |tree.Entries()|
    ensures 1 < |tree.levels|
  {
    assert 6 <= tree.store.Cap();
    if |tree.levels| == 1 {
      OneLeaf(tree.levels[0], tree.store.Cap());
    }
  }

  /** Such an index: 19 data pages in the leaves of a tree of three levels. */
  lemma {:induction false} SampleIndex()
    ensures var st := Tree(7, LAST[..2]);
            && StackOk(st, LeafPage, 10, CAP) && Holds(Stored(7, LAST[..2]), st) && |st| == 3
            && Tight(st[0]) && Flat(st[0]) != [] && Flat(st[0])[0].idxv == MIN_IDXV
  {
    TreeOk(7, LAST[..2]);
    var lv := Tree(7, LAST[..2])[0];
    assert lv[0] == Leaf(0, 7, LAST[..2]);
    assert Flat(lv) == lv[0].im.items + Flat(lv[1..]);
  }
}
