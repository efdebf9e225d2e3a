/** The in-memory index page: header fields and an item vector changed in place. */
module IndexPage {
  import opened BPlusTreeModel
  import opened PageStorage

  const NOT_EXIST := 0
  const NOT_CHANGE := 1
  const UPDATED := 2
  const INSERTED := 3

  /** What putting an item into a map of entries amounts to. */
  function PutResult(m: map<int, int>, it: Item): int {
    if it.idxv !in m then INSERTED else if m[it.idxv] == it.pgno then NOT_CHANGE else UPDATED
  }

  /** The three answers in terms of the map: the key is new, the map stays as it is, or the key gets
      another page number. */
  lemma {:induction false} ResultMeans(m: map<int, int>, it: Item)
    ensures PutResult(m, it) == 3 <==> it.idxv !in m
    ensures PutResult(m, it) == 1 <==> m[it.idxv := it.pgno] == m
    ensures PutResult(m, it) == 2 <==> it.idxv in m && m[it.idxv := it.pgno] != m
  {
    if it.idxv in m {
      assert m[it.idxv := it.pgno][it.idxv] == it.pgno;
    } else {
      assert it.idxv in m[it.idxv := it.pgno];
    }
  }

  class Page {
    var no: int
    var flag: Flag
    var pgidx: int
    var right: int
    var items: seq<Item>

    constructor (no: int, flag: Flag, pgidx: int)
      ensures this.no == no && AsImage() == Image(flag, pgidx, END_NO, [])
    {
      this.no, this.flag, this.pgidx := no, flag, pgidx;
      right, items := END_NO, [];
    }

    constructor Copy(p: Page)
      ensures no == p.no && AsImage() == p.AsImage()
    {
      no, flag, pgidx, right, items := p.no, p.flag, p.pgidx, p.right, p.items;
    }

    function AsImage(): Image
      reads this
    {
      Image(flag, pgidx, right, items)
    }

    function AsPg(): Pg
      reads this
    {
      Pg(no, AsImage())
    }

    method Load(no: int, im: Image)
      modifies this
      ensures this.no == no && AsImage() == im
    {
      this.no := no;
      flag, pgidx, right, items := im.flag, im.pgidx, im.right, im.items;
    }

    /** Append an item at the end. */
    method Add(it: Item)
      modifies this`items
      ensures items == old(items) + [it]
    {
      items := items + [it];
    }

    /** Change the page number of the item with the same key. */
    method UpdatePgno(it: Item) returns (r: int)
      requires Ascending(items)
      modifies this`items
      ensures r == (if PutResult(AsMap(old(items)), it) == INSERTED then NOT_EXIST
                    else PutResult(AsMap(old(items)), it))
      ensures items == if r == NOT_EXIST then old(items) else InsertSorted(old(items), it)
      ensures r == NOT_CHANGE ==> items == old(items)
    {
      var i := 0;
      AsMapLookup(items, it.idxv);
      while i < |items|
        invariant 0 <= i <= |items|
        invariant items == old(items)
        invariant forall m :: 0 <= m < i ==> items[m].idxv != it.idxv
      {
        if items[i].idxv == it.idxv {
          InsertSortedAt(items, i, it);
          assert items[i := items[i]] == items;
          if items[i].pgno == it.pgno {
            return NOT_CHANGE;
          }
          items := items[i := Item(it.idxv, it.pgno)];
          return UPDATED;
        }
        i := i + 1;
      }
      return NOT_EXIST;
    }

    /** Search for the position of a key: linear in short pages, binary in long ones. */
    method BSearch(idxv: int) returns (p: int)
      requires 0 < |items| && Ascending(items)
      ensures IsFloorPos(items, idxv, p)
    {
      var n := |items|;
      if n < 8 {
        var i := n - 1;
        while 0 <= i
          invariant -1 <= i < n
          invariant forall m :: i < m < n ==> idxv < items[m].idxv
        {
          if items[i].idxv <= idxv {
            return i;
          }
          i := i - 1;
        }
        return 0;
      }
      var nh, nl, nm := n - 1, 0, 0;
      while nl <= nh
        invariant 0 <= nl <= nh + 1 <= n
        invariant forall m :: 0 <= m < nl ==> items[m].idxv < idxv
        invariant forall m :: nh < m < n ==> idxv < items[m].idxv
        invariant nl <= nh || nm == nl || nm + 1 == nl
        invariant 0 <= nm < n
      {
        nm := (nh + nl) / 2;
        if idxv == items[nm].idxv {
          return nm;
        } else if items[nm].idxv < idxv {
          nl := nm + 1;
        } else {
          nh := nm - 1;
        }
      }
      while 0 < nm && idxv < items[nm].idxv
        invariant 0 <= nm < n
        invariant forall m :: nm < m < n ==> idxv < items[m].idxv
      {
        nm := nm - 1;
      }
      return nm;
    }

    /** Insert an item whose key the page does not hold. */
    method Insert(it: Item)
      requires Ascending(items) && it.idxv !in AsMap(items)
      modifies this`items
      ensures items == InsertSorted(old(items), it) && |items| == |old(items)| + 1
    {
      AsMapLookup(items, it.idxv);
      if items == [] {
        items := [it];
        return;
      }
      if items[|items| - 1].idxv < it.idxv {
        InsertSortedAt(items, |items|, it);
        assert items[..|items|] + [it] + items[|items|..] == items + [it];
        items := items + [it];
      } else if it.idxv < items[0].idxv {
        InsertSortedAt(items, 0, it);
        items := [it] + items;
      } else {
        var ipos := BSearch(it.idxv);
        InsertSortedAt(items, ipos + 1, it);
        items := items[..ipos + 1] + [it] + items[ipos + 1..];
      }
    }

    /** Move the items from splitpos on to the new page, which becomes the right neighbour. */
    method Split(splitpos: nat, pgnew: Page)
      requires pgnew != this && splitpos < |items| && pgnew.items == []
      modifies this, pgnew
      ensures no == old(no) && AsImage() == Image(old(flag), old(pgidx), old(pgnew.no), old(items)[..splitpos])
      ensures pgnew.no == old(pgnew.no)
      ensures pgnew.AsImage() ==
              Image(old(pgnew.flag), old(items)[splitpos].idxv, old(right), old(items)[splitpos..])
    {
      pgnew.items := items[splitpos..] + pgnew.items;
      pgnew.pgidx := pgnew.items[0].idxv;
      items := items[..splitpos];
      pgnew.right := right;
      right := pgnew.no;
    }
  }
}
