/** A small tree of three levels, and three erasures after which an entry is isolated. */
module BPlusTreeSample {
  import opened BPlusTreeModel
  import opened BPlusTreeInsert
  import opened BPlusTreeErase

  const CAP := 6

  const LAST := [Item(50, 1050), Item(51, 1051), Item(60, 1060)]

  /** Five leaves of three entries, a sixth one with the entries x, and perhaps a seventh. */
  function LeafItems(i: nat, x: seq<Item>): seq<Item> {
    if i < 5 then [Item(10 * i, 1000 + 10 * i), Item(10 * i + 1, 1001 + 10 * i), Item(10 * i + 2, 1002 + 10 * i)]
    else if i == 5 then x
    else [Item(10 * i, 1000 + 10 * i), Item(10 * i + 1, 1001 + 10 * i)]
  }

  /** What the sixth leaf has in the course of the erasures. */
  predicate LastOk(n: nat, x: seq<Item>) {
    (n == 6 && (x == LAST || x == LAST[..2] || x == LAST[..1])) || (n == 7 && x == LAST[..2])
  }

  function Leaf(i: nat, n: nat, x: seq<Item>): Pg {
    Pg(1 + i, Image(LeafPage, 10 * i, if i + 1 < n then 2 + i else END_NO, LeafItems(i, x)))
  }

  function Leaves(n: nat, x: seq<Item>): Level {
    seq(n, i requires 0 <= i < n => Leaf(i, n, x))
  }

  /** The separators of the leaves from a to b. */
  function Entries(a: nat, b: nat): seq<Item>
    requires a <= b
  {
    seq(b - a, i requires 0 <= i < b - a => Item(10 * (a + i), 1 + a + i))
  }

  const LEFT := Pg(8, Image(IdxPage, 0, 9, Entries(0, 5)))
  const ROOT := Pg(10, Image(IdxPage, 0, END_NO, [Item(0, 8), Item(50, 9)]))

  function Right(n: nat): Pg
    requires 5 < n
  {
    Pg(9, Image(IdxPage, 50, END_NO, Entries(5, n)))
  }

  /** The root over two pages; the left one has five children, the right one the rest. */
  function Tree(n: nat, x: seq<Item>): seq<Level>
    requires 5 < n
  {
    [Leaves(n, x)] + ([[LEFT, Right(n)]] + [[ROOT]])
  }

  function LeafImage(no: int, n: nat, x: seq<Item>): Image {
    if 1 <= no then Leaf(no - 1, n, x).im else Leaf(0, n, x).im
  }

  function Stored(n: nat, x: seq<Item>): map<int, Image>
    requires 5 < n
  {
    (map no | 1 <= no <= n :: LeafImage(no, n, x))[8 := LEFT.im][9 := Right(n).im][10 := ROOT.im]
  }

  lemma {:induction false} LeafOk(i: nat, n: nat, x: seq<Item>)
    requires LastOk(n, x)
    ensures PageOk(Leaf(i, n, x), LeafPage, CAP)
  {
  }

  lemma {:induction false} LeafBefore(i: nat, j: nat, n: nat, x: seq<Item>)
    requires i < j < n && LastOk(n, x)
    ensures Before(Leaf(i, n, x), Leaf(j, n, x))
  {
  }

  lemma {:induction false} LeavesStored(n: nat, x: seq<Item>)
    requires LastOk(n, x)
    ensures HoldsLevel(Stored(n, x), Leaves(n, x)) && Chained(Leaves(n, x))
    ensures forall no :: no in LevelNos(Leaves(n, x)) ==> 1 <= no <= n
  {
  }

  lemma {:induction false} LeavesOk(n: nat, x: seq<Item>)
    requires LastOk(n, x)
    ensures LevelOk(Leaves(n, x), LeafPage, CAP) && HoldsLevel(Stored(n, x), Leaves(n, x))
    ensures forall no :: no in LevelNos(Leaves(n, x)) ==> 1 <= no <= n
  {
    var lv := Leaves(n, x);
    forall i | 0 <= i < |lv| ensures PageOk(lv[i], LeafPage, CAP) {
      LeafOk(i, n, x);
    }
    forall i, j | 0 <= i < j < |lv| ensures Before(lv[i], lv[j]) {
      LeafBefore(i, j, n, x);
    }
    LeavesStored(n, x);
  }

  lemma {:induction false} EntriesJoin(a: nat, b: nat, c: nat)
    requires a <= b <= c
    ensures Entries(a, b) + Entries(b, c) == Entries(a, c)
  {
  }

  lemma {:induction false} EntriesAscend(a: nat, b: nat)
    requires a <= b
    ensures Ascending(Entries(a, b)) && AllBelow(Entries(a, b), 10 * b)
  {
  }

  lemma {:induction false} FlatTwo(p: Pg, q: Pg)
    ensures Flat([p, q]) == p.im.items + q.im.items
  {
    assert [p, q][1..] == [q] && [q][1..] == [];
    assert Flat([q]) == q.im.items + Flat([]);
  }

  lemma {:induction false} ParentsOk(n: nat, x: seq<Item>)
    requires LastOk(n, x)
    ensures var up := [[LEFT, Right(n)]] + [[ROOT]];
            StackOk(up, IdxPage, 10, CAP) && Holds(Stored(n, x), up) && StackNos(up) == {8, 9, 10}
    ensures Flat([LEFT, Right(n)]) == Seps(Leaves(n, x))
  {
    var parents, img := [LEFT, Right(n)], Stored(n, x);
    EntriesAscend(0, 5);
    EntriesAscend(5, n);
    assert LevelOk([ROOT], IdxPage, CAP) by { assert PageOk([ROOT][0], IdxPage, CAP); }
    StackOne([ROOT], IdxPage, CAP, img);
    assert LevelOk(parents, IdxPage, CAP) by {
      assert PageOk(parents[0], IdxPage, CAP) && PageOk(parents[1], IdxPage, CAP) && Before(parents[0], parents[1]);
      assert NextNo(parents, 0) == 9 && NextNo(parents, 1) == END_NO;
    }
    assert Seps(parents) == [Item(0, 8), Item(50, 9)];
    assert Flat([ROOT]) == ROOT.im.items by { assert [ROOT][1..] == []; }
    assert LevelNos(parents) == {8, 9};
    StackCons(parents, [[ROOT]], IdxPage, 10, CAP, img);
    FlatTwo(LEFT, Right(n));
    EntriesJoin(0, 5, n);
    assert Seps(Leaves(n, x)) == Entries(0, n);
  }

  lemma {:induction false} TreeOk(n: nat, x: seq<Item>)
    requires LastOk(n, x)
    ensures StackOk(Tree(n, x), LeafPage, 10, CAP) && Holds(Stored(n, x), Tree(n, x))
  {
    LeavesOk(n, x);
    ParentsOk(n, x);
    StackCons(Leaves(n, x), [[LEFT, Right(n)]] + [[ROOT]], LeafPage, 10, CAP, Stored(n, x));
  }

  /** Where no leaf has a single entry, none is isolated. */
  lemma {:induction false} NoneIsolated(st: seq<Level>, y: Item)
    requires st != [] && forall j :: 0 <= j < |st[0]| ==> 1 < |st[0][j].im.items|
    ensures !Isolated(st, y)
  {
  }

  /** In the tree of seven leaves no entry is isolated; in the tree of six leaves whose last one has one
      entry, this one is: erasing it breaks the tree. */
  lemma {:induction false} IsolatedHappens(y: Item)
    ensures StackOk(Tree(7, LAST[..2]), LeafPage, 10, CAP) && Holds(Stored(7, LAST[..2]), Tree(7, LAST[..2]))
    ensures !Isolated(Tree(7, LAST[..2]), y)
    ensures StackOk(Tree(6, LAST[..1]), LeafPage, 10, CAP) && Holds(Stored(6, LAST[..1]), Tree(6, LAST[..1]))
    ensures Isolated(Tree(6, LAST[..1]), Item(50, 1050))
  {
    TreeOk(7, LAST[..2]);
    NoneIsolated(Tree(7, LAST[..2]), y);
    TreeOk(6, LAST[..1]);
    var st: seq<Level> := Tree(6, LAST[..1]);
    assert st[0][5].im.items == [Item(50, 1050)];
    assert st[1] == [LEFT, Right(6)] && st[1][1].im.items == [Seps(st[0])[5]];
    assert IsolatedIn(st, Item(50, 1050), 5);
  }

  /** Three erasures lead from the one tree to the other. The first leaves a quarter of the last leaf,
      which goes into the leaf on its left; their parent is left with one item, which is a quarter of
      a page too, and can not be merged with the page on its left, which has five. The leaf has no
      neighbour under its parent any more, so that the other two erasures only take out entries. */
  lemma {:induction false} ErasedThree()
    ensures var lv, up := Tree(7, LAST[..2])[0], Tree(7, LAST[..2])[1];
            && lv[6].im.items[1] == Item(61, 1061) && lv[6].im.right == END_NO
            && |RemoveAt(lv[6].im.items, 1)| <= CAP / 4 && |LeftMerge(lv, 6, 1).im.items| < CAP
            && up[1].im.items[1] == Seps(lv)[6] && up[1].im.right == END_NO
            && |RemoveAt(up[1].im.items, 1)| <= CAP / 4 && |LeftMerge(up, 1, 1).im.items| == CAP
            && Stored(6, LAST) == Merged(Stored(7, LAST[..2]), LeftMerge(lv, 6, 1), 7)
                                  [9 := up[1].im.(items := RemoveAt(up[1].im.items, 1))]
    ensures var leaf := Tree(6, LAST)[0][5].im;
            && leaf.items[2] == Item(60, 1060) && CAP / 4 < |RemoveAt(leaf.items, 2)|
            && Stored(6, LAST[..2]) == Stored(6, LAST)[6 := leaf.(items := RemoveAt(leaf.items, 2))]
    ensures var leaf, up := Tree(6, LAST[..2])[0][5].im, Tree(6, LAST[..2])[1];
            && leaf.items[1] == Item(51, 1051) && |RemoveAt(leaf.items, 1)| <= CAP / 4
            && up[1].im.items == [Seps(Tree(6, LAST[..2])[0])[5]]
            && Stored(6, LAST[..1]) == Stored(6, LAST[..2])[6 := leaf.(items := RemoveAt(leaf.items, 1))]
  {
    FirstErasure();
    LaterErasures();
  }

  lemma {:induction false} FirstErasure()
    ensures var lv, up := Tree(7, LAST[..2])[0], Tree(7, LAST[..2])[1];
            && lv[6].im.items == [Item(60, 1060), Item(61, 1061)] && LeftMerge(lv, 6, 1) == Leaf(5, 6, LAST)
            && up == [LEFT, Right(7)] && RemoveAt(lv[6].im.items, 1) == [Item(60, 1060)]
            && up[1].im.items == [Item(50, 6), Item(60, 7)] && RemoveAt(up[1].im.items, 1) == [Item(50, 6)]
            && |LeftMerge(up, 1, 1).im.items| == CAP && Seps(lv)[6] == Item(60, 7)
            && Stored(6, LAST) == Merged(Stored(7, LAST[..2]), Leaf(5, 6, LAST), 7)[9 := Right(6).im]
            && up[1].im.(items := [Item(50, 6)]) == Right(6).im
  {
    var lv, up := Tree(7, LAST[..2])[0], Tree(7, LAST[..2])[1];
    assert Entries(5, 7) == [Item(50, 6), Item(60, 7)] && Entries(5, 6) == [Item(50, 6)];
    assert RemoveAt(lv[6].im.items, 1) == [Item(60, 1060)];
    assert RemoveAt(up[1].im.items, 1) == [Item(50, 6)];
    assert LAST[..2] + [Item(60, 1060)] == LAST;
    forall no | 1 <= no <= 5 ensures LeafImage(no, 6, LAST) == LeafImage(no, 7, LAST[..2]) {
    }
    assert Stored(6, LAST)[6] == Leaf(5, 6, LAST).im;
  }

  lemma {:induction false} LaterErasures()
    ensures RemoveAt(LAST, 2) == LAST[..2] && RemoveAt(LAST[..2], 1) == LAST[..1]
    ensures Stored(6, LAST[..2]) == Stored(6, LAST)[6 := Leaf(5, 6, LAST[..2]).im]
    ensures Stored(6, LAST[..1]) == Stored(6, LAST[..2])[6 := Leaf(5, 6, LAST[..1]).im]
    ensures Right(6).im.items == [Item(50, 6)]
  {
    OneLeafStored(LAST, LAST[..2]);
    OneLeafStored(LAST[..2], LAST[..1]);
  }

  lemma {:induction false} OneLeafStored(x: seq<Item>, y: seq<Item>)
    ensures Stored(6, y) == Stored(6, x)[6 := Leaf(5, 6, y).im]
  {
    forall no | 1 <= no <= 5 ensures LeafImage(no, 6, x) == LeafImage(no, 6, y) {
    }
  }
}
