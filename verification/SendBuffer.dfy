/** The send buffer: a chain of memory blocks that bytes are appended to at the tail and consumed
    from at the head. */
module SendBuffer {

  type Bytes = seq<int>

  /** A block: the bytes appended to it, and how many of them have been consumed. */
  datatype Block = Block(data: Bytes, pos: nat)

  /** The bytes not consumed yet. */
  function Pending(blocks: seq<Block>): Bytes {
    if blocks == [] then []
    else (if blocks[0].pos <= |blocks[0].data| then blocks[0].data[blocks[0].pos..] else []) + Pending(blocks[1..])
  }

  lemma {:induction false} PendingConcat(a: seq<Block>, b: seq<Block>)
    ensures Pending(a + b) == Pending(a) + Pending(b)
  {
    if a == [] {
      assert a + b == b;
    } else {
      assert (a + b)[1..] == a[1..] + b;
      PendingConcat(a[1..], b);
    }
  }

  /** Between calls no block is used up. */
  ghost predicate BlocksOk(blocks: seq<Block>, blksize: nat) {
    forall i :: 0 <= i < |blocks| ==> blocks[i].pos < |blocks[i].data| <= blksize
  }

  /** What a block more at the tail, or bytes more in the tail block, add. */
  lemma {:induction false} PendingLast(front: seq<Block>, b: Block)
    requires b.pos <= |b.data|
    ensures Pending(front + [b]) == Pending(front) + b.data[b.pos..]
  {
    PendingConcat(front, [b]);
    assert [b][1..] == [];
  }

  lemma {:induction false} PendingMore(blocks: seq<Block>, more: Bytes, blksize: nat)
    requires blocks != [] && BlocksOk(blocks, blksize) && |blocks[|blocks| - 1].data| + |more| <= blksize
    ensures var last := |blocks| - 1;
            var longer := blocks[..last] + [blocks[last].(data := blocks[last].data + more)];
            Pending(longer) == Pending(blocks) + more && BlocksOk(longer, blksize)
  {
    var last := |blocks| - 1;
    var b := blocks[last];
    var c := b.(data := b.data + more);
    assert blocks == blocks[..last] + [b];
    PendingLast(blocks[..last], b);
    PendingLast(blocks[..last], c);
    assert c.data[c.pos..] == b.data[b.pos..] + more;
    assert Pending(blocks[..last]) + (b.data[b.pos..] + more) == Pending(blocks[..last]) + b.data[b.pos..] + more;
  }

  /** The head block without n bytes, or the rest of the chain when that uses it up. */
  function Behead(blocks: seq<Block>, n: nat): seq<Block>
    requires blocks != []
  {
    var b := blocks[0];
    if n < |b.data| - b.pos then [b.(pos := b.pos + n)] + blocks[1..] else blocks[1..]
  }

  /** The chain after n bytes have been taken off the head. */
  ghost predicate TakenOff(before: seq<Block>, blocks: seq<Block>, blksize: nat, n: nat) {
    && BlocksOk(blocks, blksize) && n <= |Pending(before)| && Pending(blocks) == Pending(before)[n..]
    && (blocks != [] ==> before != [] && blocks[|blocks| - 1].data == before[|before| - 1].data)
  }

  /** Consuming part of the head block. */
  lemma {:induction false} HeadConsumed(before: seq<Block>, blocks: seq<Block>, blksize: nat, taken: nat, n: nat)
    requires TakenOff(before, blocks, blksize, taken) && blocks != [] && n <= |blocks[0].data| - blocks[0].pos
    ensures TakenOff(before, Behead(blocks, n), blksize, taken + n)
  {
    var b, rest, all := blocks[0], Behead(blocks, n), Pending(before);
    assert Pending(blocks) == b.data[b.pos..] + Pending(blocks[1..]);
    if n < |b.data| - b.pos {
      assert rest[1..] == blocks[1..];
      assert b.data[b.pos..][n..] == b.data[b.pos + n..];
    }
    assert Pending(rest) == Pending(blocks)[n..];
    assert all[taken..][n..] == all[taken + n..];
  }

  class IoBuffer {
    const blksize: nat
    var blocks: seq<Block>   // head first
    var size: nat
    var sizemax: nat
    var room: nat            // blocks the allocator can still hand out
    ghost var accepted: Bytes
    ghost var consumed: Bytes

    /** First in, first out: what was accepted is what was consumed followed by what is pending; the
        size counts the pending bytes, and is over the limit by at most what is in the tail block. */
    ghost predicate Valid()
      reads this
    {
      && 0 < blksize && BlocksOk(blocks, blksize)
      && size == |Pending(blocks)|
      && accepted == consumed + Pending(blocks)
    }

    /** The size exceeds the limit by less than a block. */
    ghost predicate Bounded()
      reads this
    {
      size <= sizemax + if blocks == [] then 0 else |blocks[|blocks| - 1].data|
    }

    lemma {:induction false} BoundedByOneBlock()
      requires Valid() && Bounded()
      ensures size <= sizemax + blksize
    {
    }

    constructor (blksize: nat, sizemax: nat, room: nat)
      requires 0 < blksize
      ensures Valid() && Bounded() && accepted == [] && consumed == []
      ensures this.blksize == blksize && this.sizemax == sizemax && this.room == room
    {
      this.blksize, this.sizemax, this.room := blksize, sizemax, room;
      blocks, size, accepted, consumed := [], 0, [], [];
    }

    /** How many bytes fit behind those of a block. */
    method Fill(block: Bytes, more: Bytes) returns (n: nat)
      requires |block| < blksize && more != []
      ensures 0 < n <= |more| && |block| + n <= blksize && (n == |more| || |block| + n == blksize)
    {
      n := blksize - |block|;
      if |more| < n { n := |more|; }
    }

    /** Put bytes into a new block at the tail. */
    method NewBlock(more: Bytes) returns (n: nat)
      requires Valid() && more != [] && size <= sizemax && 0 < room
      modifies this
      ensures Valid() && Bounded() && sizemax == old(sizemax) && consumed == old(consumed)
      ensures 0 < n <= |more| && accepted == old(accepted) + more[..n]
    {
      room := room - 1;
      n := Fill([], more);
      var b := Block(more[..n], 0);
      PendingLast(blocks, b);
      blocks := blocks + [b];
      size := size + n;
      accepted := accepted + more[..n];
    }

    /** Put bytes into what room the tail block has. */
    method TopUp(more: Bytes) returns (n: nat)
      requires Valid() && more != [] && blocks != [] && |blocks[|blocks| - 1].data| < blksize
      modifies this
      ensures Valid() && sizemax == old(sizemax) && consumed == old(consumed)
      ensures old(Bounded()) ==> Bounded()
      ensures 0 < n <= |more| && accepted == old(accepted) + more[..n]
    {
      var last := |blocks| - 1;
      var b := blocks[last];
      n := Fill(b.data, more);
      var c := b.(data := b.data + more[..n]);
      PendingMore(blocks, more[..n], blksize);
      blocks := blocks[..last] + [c];
      size := size + n;
      accepted := accepted + more[..n];
    }

    /** Append bytes, block by block. A new block is refused when the size is over the limit or the
        allocator has none; what was appended until then stays. */
    method Append(data: Bytes) returns (all: bool, added: nat)
      requires Valid()
      modifies this
      ensures Valid() && sizemax == old(sizemax) && consumed == old(consumed)
      ensures added <= |data| && (all <==> added == |data|)
      ensures accepted == old(accepted) + data[..added]
      ensures old(Bounded()) ==> Bounded()
      ensures !all ==> sizemax < size || room == 0
    {
      added := 0;
      while added < |data|
        invariant Valid() && sizemax == old(sizemax) && consumed == old(consumed)
        invariant added <= |data| && accepted == old(accepted) + data[..added]
        invariant old(Bounded()) ==> Bounded()
        decreases |data| - added
      {
        var n;
        if blocks == [] || |blocks[|blocks| - 1].data| == blksize {
          if size > sizemax || room == 0 { return false, added; }
          n := NewBlock(data[added..]);
        } else {
          n := TopUp(data[added..]);
        }
        assert data[..added + n] == data[..added] + data[added..][..n];
        added := added + n;
      }
      all := true;
    }

    /** The unread bytes of the head block; none exactly when nothing is pending. */
    method Get() returns (bytes: Bytes)
      requires Valid()
      ensures bytes <= Pending(blocks) && (bytes == [] <==> Pending(blocks) == [])
    {
      if blocks == [] { return []; }
      var b := blocks[0];
      assert Pending(blocks) == b.data[b.pos..] + Pending(blocks[1..]);
      return b.data[b.pos..];
    }

    /** Take bytes off the head, block by block. */
    method TakeOff(zlen: nat) returns (zfree: nat)
      requires BlocksOk(blocks, blksize)
      modifies `blocks, `room
      ensures TakenOff(old(blocks), blocks, blksize, zfree)
      ensures zfree == if zlen <= |Pending(old(blocks))| then zlen else |Pending(old(blocks))|
    {
      zfree := 0;
      while zfree < zlen && blocks != []
        invariant zfree <= zlen && TakenOff(old(blocks), blocks, blksize, zfree)
        decreases |blocks|, zlen - zfree
      {
        var zt := zlen - zfree;
        var b := blocks[0];
        if |b.data| - b.pos <= zt {
          zt := |b.data| - b.pos;
          room := room + 1;
        }
        HeadConsumed(old(blocks), blocks, blksize, zfree, zt);
        blocks := Behead(blocks, zt);
        zfree := zfree + zt;
      }
    }

    /** Consume bytes from the head; blocks that are used up go back to the allocator. */
    method FreeSize(zlen: nat)
      requires Valid()
      modifies this
      ensures Valid() && sizemax == old(sizemax) && accepted == old(accepted)
      ensures var n := if zlen <= old(size) then zlen else old(size);
              consumed == old(consumed) + old(Pending(blocks))[..n] && Pending(blocks) == old(Pending(blocks))[n..]
      ensures old(Bounded()) ==> Bounded()
    {
      ghost var all := Pending(blocks);
      var zfree := TakeOff(zlen);
      size := size - zfree;  // never below 0, so the source's test for it always succeeds
      consumed := consumed + all[..zfree];
      assert all == all[..zfree] + all[zfree..];
    }
  }
}
