/** A page storage seen through decoded pages: pages are allocated from a list of free pages that
    is used as a stack, and allocation fails exactly when that list is empty. */
module PageStorage {
  import opened BPlusTreeModel

  const SUCCESS := 0
  const FAILED := -1
  const ERR_ALLOC := -3
  const ERR_READ := -4
  const ERR_WRITE := -5
  const ERR_PAGE := -6

  const MIN_PAGE_SIZE := 128
  const MAX_PAGE_SIZE := 32768
  const HEAD_SIZE := 24
  const ITEM_SIZE := 16

  /** The number of items an index page of the given size has room for. */
  function Capacity(pgsize: nat): nat
    requires HEAD_SIZE <= pgsize
  {
    (pgsize - HEAD_SIZE) / ITEM_SIZE
  }

  datatype ReadResult = NoPage | PageImage(im: Image)

  class Storage {
    const pgsize: nat
    var img: map<int, Image>  // what has been written to the pages in use
    var live: set<int>        // pages in use
    var avail: seq<int>       // free pages, the next one to hand out first

    ghost predicate Valid()
      reads this
    {
      && MIN_PAGE_SIZE <= pgsize <= MAX_PAGE_SIZE
      && img.Keys <= live
      && (forall n :: n in live ==> 0 <= n)
      && (forall i :: 0 <= i < |avail| ==> 0 <= avail[i] && avail[i] !in live)
      && (forall i, j :: 0 <= i < j < |avail| ==> avail[i] != avail[j])
    }

    function Cap(): nat
      requires MIN_PAGE_SIZE <= pgsize
    {
      Capacity(pgsize)
    }

    constructor (pgsize: nat, avail: seq<int>)
      requires MIN_PAGE_SIZE <= pgsize <= MAX_PAGE_SIZE
      requires forall i :: 0 <= i < |avail| ==> 0 <= avail[i]
      requires forall i, j :: 0 <= i < j < |avail| ==> avail[i] != avail[j]
      ensures Valid() && this.pgsize == pgsize && this.avail == avail && live == {} && img == map[]
    {
      this.pgsize := pgsize;
      this.avail := avail;
      img, live := map[], {};
    }

    method Alloc() returns (no: int)
      requires Valid()
      modifies this
      ensures Valid() && img == old(img)
      ensures old(avail) == [] ==> no == END_NO && live == old(live) && avail == []
      ensures old(avail) != [] ==>
                no == old(avail)[0] && no !in old(live) && live == old(live) + {no} && avail == old(avail)[1..]
    {
      if avail == [] {
        return END_NO;
      }
      no := avail[0];
      live := live + {no};
      avail := avail[1..];
    }

    method Free(no: int) returns (ok: bool)
      requires Valid()
      modifies this
      ensures Valid() && ok == (no in old(live))
      ensures !ok ==> img == old(img) && live == old(live) && avail == old(avail)
      ensures ok ==> img == old(img) - {no} && live == old(live) - {no} && avail == [no] + old(avail)
    {
      ok := no in live;
      if ok {
        img := img - {no};
        live := live - {no};
        avail := [no] + avail;
      }
    }

    method Read(no: int) returns (r: ReadResult)
      ensures r == if no in img then PageImage(img[no]) else NoPage
    {
      r := if no in img then PageImage(img[no]) else NoPage;
    }

    method Write(no: int, im: Image) returns (ok: bool)
      requires Valid()
      modifies this
      ensures Valid() && live == old(live) && avail == old(avail) && ok == (no in live)
      ensures img == if ok then old(img)[no := im] else old(img)
    {
      ok := no in live;
      if ok {
        img := img[no := im];
      }
    }
  }
}
