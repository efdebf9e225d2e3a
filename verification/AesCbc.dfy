/** Chaining of blocks, padding and the key schedule: the class of ec_aes256.h. */
module AesCbc {
  import opened AesBytes
  import opened AesBlock
  import opened AesCipher
  import opened AesKeys

  const UINT32 := 0x1_0000_0000
  const INTLIMIT := 0x8000_0000

  /** Whole blocks. */
  type Blocks = b: seq<bv8> | |b| % BLOCK == 0 witness []

  function LastBlock(c: Blocks, iv: State): State {
    if |c| == 0 then iv else c[|c| - BLOCK..]
  }

  /** Cipher block chaining: each block is added to the ciphertext of the one before. */
  function CbcEncrypted(p: Blocks, iv: State, w: Schedule): (c: Blocks)
    ensures |c| == |p|
  {
    if |p| == 0 then []
    else
      var c := CbcEncrypted(p[..|p| - BLOCK], iv, w);
      c + Encrypted(Xor(p[|p| - BLOCK..], LastBlock(c, iv)), w)
  }

  function CbcDecrypted(c: Blocks, iv: State, w: Schedule): (p: Blocks)
    ensures |p| == |c|
  {
    if |c| == 0 then []
    else
      CbcDecrypted(c[..|c| - BLOCK], iv, w) + Xor(Decrypted(c[|c| - BLOCK..], w), LastBlock(c[..|c| - BLOCK], iv))
  }

  lemma {:induction false} CbcUndone(p: Blocks, iv: State, w: Schedule)
    ensures CbcDecrypted(CbcEncrypted(p, iv, w), iv, w) == p
  {
    if |p| == 0 {
    } else {
      var front, block := p[..|p| - BLOCK], p[|p| - BLOCK..];
      var c := CbcEncrypted(front, iv, w);
      var last := LastBlock(c, iv);
      var all := CbcEncrypted(p, iv, w);
      assert all[..|p| - BLOCK] == c && all[|p| - BLOCK..] == Encrypted(Xor(block, last), w);
      CbcUndone(front, iv, w);
      DecryptUndoesEncrypt(Xor(block, last), w);
      XorUndoesXor(block, last);
      assert p == front + block;
    }
  }

  lemma {:induction false} BehindFront(c: Blocks, x: State, all: seq<bv8>)
    requires all == c + x
    ensures all[|c|..|c| + BLOCK] == x && (0 < |c| ==> c[|c| - BLOCK..] == all[|c| - BLOCK..|c|])
  {
  }

  /** The block of ciphertext before place i, or the initial vector. */
  function Before(c: seq<bv8>, iv: State, i: nat): State
    requires i % BLOCK == 0 && i <= |c|
  {
    if i == 0 then iv else c[i - BLOCK..i]
  }

  lemma {:induction false} LastCipherBlock(p: Blocks, iv: State, w: Schedule, c: seq<bv8>)
    requires 0 < |p| && c == CbcEncrypted(p, iv, w)
    ensures c[|p| - BLOCK..|p|] == Encrypted(Xor(p[|p| - BLOCK..|p|], Before(c, iv, |p| - BLOCK)), w)
  {
    var front, block := p[..|p| - BLOCK], p[|p| - BLOCK..];
    var d := CbcEncrypted(front, iv, w);
    BehindFront(d, Encrypted(Xor(block, LastBlock(d, iv)), w), c);
    assert LastBlock(d, iv) == Before(c, iv, |d|) && p[|p| - BLOCK..|p|] == block;
  }

  lemma {:induction false} SameLink(p: seq<bv8>, c: seq<bv8>, front: seq<bv8>, d: seq<bv8>, iv: State, i: nat)
    requires i % BLOCK == 0 && i + BLOCK <= |front| == |d| && front <= p && d <= c
    ensures c[i..i + BLOCK] == d[i..i + BLOCK] && p[i..i + BLOCK] == front[i..i + BLOCK]
    ensures Before(c, iv, i) == Before(d, iv, i)
  {
  }

  lemma {:induction false} FrontOfChain(p: Blocks, iv: State, w: Schedule)
    requires 0 < |p|
    ensures CbcEncrypted(p[..|p| - BLOCK], iv, w) <= CbcEncrypted(p, iv, w)
  {
  }

  lemma {:induction false} ChainLink(p: Blocks, iv: State, w: Schedule, c: seq<bv8>, i: nat)
    requires i % BLOCK == 0 && i + BLOCK <= |p| && c == CbcEncrypted(p, iv, w)
    ensures c[i..i + BLOCK] == Encrypted(Xor(p[i..i + BLOCK], Before(c, iv, i)), w)
    decreases |p|
  {
    if i == |p| - BLOCK {
      LastCipherBlock(p, iv, w, c);
    } else {
      var front := p[..|p| - BLOCK];
      var d := CbcEncrypted(front, iv, w);
      FrontOfChain(p, iv, w);
      LowerBlock(i, |p|);
      ChainLink(front, iv, w, d, i);
      SameLink(p, c, front, d, iv, i);
    }
  }

  /** The chain block by block: each block of the plaintext is added to the block of ciphertext before
      it, the first one to the initial vector, and then encrypted. */
  lemma {:induction false} CipherBlock(p: Blocks, iv: State, w: Schedule, c: seq<bv8>, i: nat)
    requires i % BLOCK == 0 && i + BLOCK <= |p| && c == CbcEncrypted(p, iv, w)
    ensures c[i..i + BLOCK] == Encrypted(Xor(p[i..i + BLOCK], if i == 0 then iv else c[i - BLOCK..i]), w)
  {
    ChainLink(p, iv, w, c, i);
  }

  lemma {:induction false} LowerBlock(i: nat, n: nat)
    requires i % BLOCK == 0 && n % BLOCK == 0 && i + BLOCK <= n && i != n - BLOCK
    ensures i + BLOCK <= n - BLOCK
  {
  }

  // ---- Padding ----

  /** The value of a size after a cast to a 32-bit signed integer. */
  function AsInt32(n: int): (r: int)
    ensures 0 <= n ==> r <= n
  {
    var k := n % UINT32;
    if k < INTLIMIT then k else k - UINT32
  }

  /** The remainder of a division by the block size, which has the sign of the dividend. */
  function Remainder(n: int): (r: int)
    ensures -BLOCK < r < BLOCK
  {
    if 0 <= n then n % BLOCK else -(-n % BLOCK)
  }

  /** The value of the bytes appended to a message of n bytes; one byte more than this is appended. */
  function PadValue(n: nat): (v: nat)
    ensures v < 2 * BLOCK && (n + v + 1) % BLOCK == 0
  {
    var r := Remainder(AsInt32(n + 1));
    WholePadded(n, r);
    if r != 0 then BLOCK - r else 0
  }

  lemma {:induction false} DropBlocks(a: int, b: int)
    ensures (BLOCK * a + b) % BLOCK == b % BLOCK
  {
  }

  lemma {:induction false} WholePadded(n: nat, r: int)
    requires r == Remainder(AsInt32(n + 1))
    ensures (n + (if r != 0 then BLOCK - r else 0) + 1) % BLOCK == 0
  {
    var k, q := (n + 1) % UINT32, (n + 1) / UINT32;
    assert n + 1 == BLOCK * (0x1000_0000 * q) + k;
    DropBlocks(0x1000_0000 * q, k);
    var i := AsInt32(n + 1);
    DropBlocks(if k < INTLIMIT then 0 else 0x1000_0000, i);
    assert k % BLOCK == i % BLOCK;
    RemainderFills(n + 1, i, r);
  }

  lemma {:induction false} RemainderFills(n: int, i: int, r: int)
    requires n % BLOCK == i % BLOCK && r == Remainder(i)
    ensures (n + (if r != 0 then BLOCK - r else 0)) % BLOCK == 0
  {
    var q := n / BLOCK;
    if i < 0 { Negative(i); }
    if r != 0 {
      FillsUp(n, q, n % BLOCK, r);
    }
  }

  /** The remainder of a negative number, and the one that is not negative. */
  lemma {:induction false} Negative(i: int)
    ensures i % BLOCK == if -i % BLOCK == 0 then 0 else BLOCK - -i % BLOCK
  {
    var a, b := -i / BLOCK, -i % BLOCK;
    assert i == BLOCK * (-a) - b && i == BLOCK * (-a - 1) + (BLOCK - b);
    DropBlocks(-a, 0);
    DropBlocks(-a - 1, BLOCK - b);
  }

  lemma {:induction false} FillsUp(n: int, q: int, m: int, r: int)
    requires n == BLOCK * q + m && (r == m || r == m - BLOCK)
    ensures (n + (BLOCK - r)) % BLOCK == 0
  {
    DropBlocks(if r == m then q + 1 else q + 2, 0);
  }

  /** The bytes appended all hold the number of bytes appended besides the last. */
  function Padded(m: seq<bv8>): (p: Blocks)
    ensures |p| == |m| + PadValue(|m|) + 1
  {
    m + seq(PadValue(|m|) + 1, _ => PadValue(|m|) as bv8)
  }

  datatype Decoding = Decoding(ok: bool, bytes: seq<bv8>)

  function Unpadded(p: seq<bv8>): Decoding
    requires 0 < |p|
  {
    var ndel := p[|p| - 1] as int;
    if ndel >= BLOCK || ndel >= AsInt32(|p|) then Decoding(false, p) else Decoding(true, p[..|p| - ndel - 1])
  }

  lemma {:induction false} SmallByte(n: nat)
    requires n < 2 * BLOCK
    ensures (n as bv8) as int == n
  {
  }

  /** Sizes that survive the casts to 32-bit integers. */
  predicate Sendable(m: seq<bv8>) {
    |m| % UINT32 < INTLIMIT - BLOCK
  }

  lemma {:induction false} LowBits(n: nat, j: nat)
    requires j <= 2 * BLOCK
    ensures var k := n % UINT32; (n + j) % UINT32 == if k + j < UINT32 then k + j else k + j - UINT32
  {
  }

  /** The decoder accepts the padding of exactly these sizes. */
  lemma {:induction false} AcceptedSizes(n: nat)
    ensures var v := PadValue(n);
            v < BLOCK && v < AsInt32(n + v + 1) <==> n % UINT32 < INTLIMIT - BLOCK
  {
    var k, v := n % UINT32, PadValue(n);
    LowBits(n, 1);
    LowBits(n, v + 1);
    if k < INTLIMIT - 1 {
      assert AsInt32(n + 1) == k + 1;
      SmallPadding(k, v);
    } else if k < UINT32 - 1 {
      assert AsInt32(n + 1) == k + 1 - UINT32;
    }
  }

  lemma {:induction false} SmallPadding(k: nat, v: int)
    requires k < INTLIMIT - 1
    requires v == if (k + 1) % BLOCK != 0 then BLOCK - (k + 1) % BLOCK else 0
    ensures 0 <= v < BLOCK && (k + v + 1 < INTLIMIT <==> k < INTLIMIT - BLOCK)
  {
  }

  /** Unpadding gives a padded message back exactly when its size survives the casts. */
  lemma {:induction false} UnpadUndoesPad(m: seq<bv8>)
    ensures Unpadded(Padded(m)) == Decoding(true, m) <==> Sendable(m)
    ensures Unpadded(Padded(m)).ok <==> Sendable(m)
  {
    SmallByte(PadValue(|m|));
    AcceptedSizes(|m|);
    assert Padded(m)[..|m|] == m;
  }

  /** For the sizes that come back the padding is 1 to 16 bytes, enough for whole blocks, and each of
      them holds how many more there are. */
  lemma {:induction false} PaddingIs(m: seq<bv8>)
    requires Sendable(m)
    ensures var p := Padded(m);
            && m <= p && 1 <= |p| - |m| <= 16 && |p| % 16 == 0
            && forall k :: |m| <= k < |p| ==> p[k] as int == |p| - |m| - 1
  {
    AcceptedSizes(|m|);
    SmallByte(PadValue(|m|));
  }

  // ---- Whole messages ----

  /** How much of a buffer the cipher is told about: its size as a 32-bit number. */
  function Reached(n: nat): (r: nat)
    ensures r <= n && (r == n <==> n < UINT32) && (n % BLOCK == 0 ==> r % BLOCK == 0)
  {
    var q := n / UINT32;
    assert n == 0x1000_0000 * q * BLOCK + n % UINT32;
    n % UINT32
  }

  /** What is behind that stays as it is. */
  function Coded(m: seq<bv8>, iv: State, w: Schedule): (c: Blocks)
    ensures |c| == |Padded(m)|
  {
    var p := Padded(m);
    var n := Reached(|p|);
    CbcEncrypted(p[..n], iv, w) + p[n..]
  }

  predicate Decodable(c: seq<bv8>) {
    0 < |c| && |c| % BLOCK == 0
  }

  function Decoded(c: seq<bv8>, iv: State, w: Schedule): Decoding
    requires Decodable(c)
  {
    var n := Reached(|c|);
    Unpadded(CbcDecrypted(c[..n], iv, w) + c[n..])
  }

  /** The vector with which the next message starts. */
  function NextIv(c: seq<bv8>, iv: State): State
    requires |c| % BLOCK == 0
  {
    LastBlock(c[..Reached(|c|)], iv)
  }

  /** The next message starts with the last block of this one. */
  lemma {:induction false} NextVector(c: seq<bv8>, iv: State)
    requires |c| % BLOCK == 0 && |c| < UINT32
    ensures NextIv(c, iv) == if |c| == 0 then iv else c[|c| - 16..]
  {
    assert c[..|c|] == c;
  }

  /** Decoding what was encoded under the same key and initial vector gives the message back, for
      every message whose size, as a 32-bit number, leaves room for a block below 2^31, and for no
      other. */
  lemma {:induction false} DecodeUndoesEncode(m: seq<bv8>, iv: State, w: Schedule)
    ensures Decodable(Coded(m, iv, w))
    ensures Decoded(Coded(m, iv, w), iv, w) == Decoding(true, m) <==> Sendable(m)
    ensures Decoded(Coded(m, iv, w), iv, w).ok <==> Sendable(m)
  {
    var p, c := Padded(m), Coded(m, iv, w);
    var n := Reached(|p|);
    CbcUndone(p[..n], iv, w);
    assert c[..n] == CbcEncrypted(p[..n], iv, w) && c[n..] == p[n..];
    assert p[..n] + p[n..] == p;
    UnpadUndoesPad(m);
  }

  /** All of a message is encrypted exactly when its padded size is a 32-bit number; what is behind
      that is sent as it is. */
  lemma {:induction false} RestIsPlain(m: seq<bv8>, iv: State, w: Schedule)
    ensures var p, c := Padded(m), Coded(m, iv, w);
            && (c == CbcEncrypted(p, iv, w) || UINT32 <= |p|)
            && (UINT32 <= |p| ==> Reached(|p|) < |p| && c[Reached(|p|)..] == p[Reached(|p|)..])
    ensures |m| < UINT32 - 2 * BLOCK ==> |Padded(m)| < UINT32
    ensures UINT32 - 1 <= |m| ==> UINT32 <= |Padded(m)|
  {
    var p, c := Padded(m), Coded(m, iv, w);
    var n := Reached(|p|);
    assert c[n..] == p[n..];
    if n == |p| {
      assert p[..n] == p && p[n..] == [];
    }
  }

  /** A message of 2^32 + 5 bytes comes back, though only its first block has been encrypted. */
  lemma {:induction false} MostlyPlain(m: seq<bv8>, iv: State, w: Schedule)
    requires |m| == UINT32 + 5
    ensures Sendable(m) && Decoded(Coded(m, iv, w), iv, w) == Decoding(true, m)
    ensures |Padded(m)| == UINT32 + BLOCK && Reached(|Padded(m)|) == BLOCK
    ensures Coded(m, iv, w)[BLOCK..|m|] == m[BLOCK..]
  {
    var n := |m|;
    assert AsInt32(n + 1) == 6 && PadValue(n) == 10 && n % UINT32 == 5;
    assert Reached(n + 11) == BLOCK;
    DecodeUndoesEncode(m, iv, w);
    RestIsPlain(m, iv, w);
    SameMiddle(Coded(m, iv, w), Padded(m), m, BLOCK);
  }

  lemma {:induction false} SameMiddle(c: seq<bv8>, p: seq<bv8>, m: seq<bv8>, i: nat)
    requires |c| == |p| && i <= |m| && m <= p && c[i..] == p[i..]
    ensures c[i..|m|] == m[i..]
  {
    assert c[i..|m|] == c[i..][..|m| - i] && p[i..|m|] == p[i..][..|m| - i];
    assert m == p[..|m|];
  }

  // ---- Runs of messages under one object on each side ----

  /** The receiver holds (w, iv) where the sender does: every message of the run is decoded to itself,
      since both sides keep the last block of one message as the start of the next. */
  ghost predicate RunDecodes(ms: seq<seq<bv8>>, sender: State, receiver: State, w: Schedule) {
    if ms == [] then true
    else
      var c := Coded(ms[0], sender, w);
      && Decodable(c)
      && Decoded(c, receiver, w) == Decoding(true, ms[0])
      && RunDecodes(ms[1..], NextIv(c, sender), NextIv(c, receiver), w)
  }

  ghost predicate AllSendable(ms: seq<seq<bv8>>) {
    forall i :: 0 <= i < |ms| ==> Sendable(ms[i])
  }

  lemma {:induction false} EveryRunDecodes(ms: seq<seq<bv8>>, iv: State, w: Schedule)
    requires AllSendable(ms)
    ensures RunDecodes(ms, iv, iv, w)
  {
    if ms == [] {
    } else {
      var c := Coded(ms[0], iv, w);
      DecodeUndoesEncode(ms[0], iv, w);
      EveryRunDecodes(ms[1..], NextIv(c, iv), w);
    }
  }

  // ---- In place ----

  lemma {:induction false} PutNext(done: seq<bv8>, all: seq<bv8>, at: nat, b: seq<bv8>, x: State)
    requires |done| == at && at + BLOCK <= |all| && b == done + all[at..]
    ensures Get(b, at) == all[at..at + BLOCK]
    ensures Put(b, at, x) == (done + x) + all[at + BLOCK..]
  {
    assert b[at + BLOCK..] == all[at + BLOCK..];
  }

  lemma {:induction false} EncryptNext(p: Blocks, at: nat, iv: State, w: Schedule)
    requires at % BLOCK == 0 && at + BLOCK <= |p|
    ensures var c := CbcEncrypted(p[..at], iv, w);
            CbcEncrypted(p[..at + BLOCK], iv, w) == c + Encrypted(Xor(p[at..at + BLOCK], LastBlock(c, iv)), w)
  {
    assert p[..at + BLOCK][..at] == p[..at];
    assert p[..at + BLOCK][at..] == p[at..at + BLOCK];
  }

  lemma {:induction false} DecryptNext(c: Blocks, at: nat, iv: State, w: Schedule)
    requires at % BLOCK == 0 && at + BLOCK <= |c|
    ensures CbcDecrypted(c[..at + BLOCK], iv, w)
         == CbcDecrypted(c[..at], iv, w) + Xor(Decrypted(c[at..at + BLOCK], w), LastBlock(c[..at], iv))
    ensures LastBlock(c[..at + BLOCK], iv) == c[at..at + BLOCK]
  {
    assert c[..at + BLOCK][..at] == c[..at];
    assert c[..at + BLOCK][at..] == c[at..at + BLOCK];
  }

  /** The buffer with the blocks before `at` encrypted, and the block the next one is added to. */
  ghost predicate EncryptedTo(b: seq<bv8>, last: State, p: Blocks, at: nat, iv: State, w: Schedule) {
    && at % BLOCK == 0 && at <= |p|
    && b == CbcEncrypted(p[..at], iv, w) + p[at..]
    && last == LastBlock(CbcEncrypted(p[..at], iv, w), iv)
  }

  ghost predicate DecryptedTo(b: seq<bv8>, last: State, c: Blocks, at: nat, iv: State, w: Schedule) {
    && at % BLOCK == 0 && at <= |c|
    && b == CbcDecrypted(c[..at], iv, w) + c[at..]
    && last == LastBlock(c[..at], iv)
  }

  lemma {:induction false} EncryptedOneMore(b: seq<bv8>, last: State, p: Blocks, at: nat, iv: State, w: Schedule, x: State)
    requires EncryptedTo(b, last, p, at, iv, w) && at + BLOCK <= |p| == |b|
    requires x == Encrypted(Xor(Get(b, at), last), w)
    ensures EncryptedTo(Put(b, at, x), x, p, at + BLOCK, iv, w)
    ensures Get(Put(b, at, x), at) == x
  {
    var done := CbcEncrypted(p[..at], iv, w);
    PutNext(done, p, at, b, x);
    PutTwice(b, at, x, x);
    EncryptNext(p, at, iv, w);
  }

  lemma {:induction false} DecryptedOneMore(b: seq<bv8>, last: State, c: Blocks, at: nat, iv: State, w: Schedule, x: State)
    requires DecryptedTo(b, last, c, at, iv, w) && at + BLOCK <= |c| == |b|
    requires x == Xor(Decrypted(Get(b, at), w), last)
    ensures DecryptedTo(Put(b, at, x), Get(b, at), c, at + BLOCK, iv, w)
  {
    PutNext(CbcDecrypted(c[..at], iv, w), c, at, b, x);
    DecryptNext(c, at, iv, w);
  }

  lemma {:induction false} NothingYet(b: Blocks, iv: State, w: Schedule)
    ensures EncryptedTo(b, iv, b, 0, iv, w) && DecryptedTo(b, iv, b, 0, iv, w)
  {
    assert b[..0] == [] && [] + b[0..] == b;
  }

  lemma {:induction false} FrontEncrypted(b: seq<bv8>, last: State, p: Blocks, n: nat, iv: State, w: Schedule)
    requires EncryptedTo(b, last, p, n, iv, w)
    ensures b == CbcEncrypted(p[..n], iv, w) + p[n..] && last == LastBlock(b[..n], iv)
  {
    assert b[..n] == CbcEncrypted(p[..n], iv, w);
  }

  method EncryptBlock(buf: array<bv8>, at: nat, iv: State, w: Schedule)
    requires at + BLOCK <= buf.Length
    modifies buf
    ensures buf[..] == Put(old(buf[..]), at, Encrypted(Xor(Get(old(buf[..]), at), iv), w))
  {
    ghost var b := buf[..];
    ghost var x := Xor(Get(b, at), iv);
    XorWith(buf, at, iv);
    ghost var c := buf[..];
    PutTwice(b, at, x, Encrypted(x, w));
    Cipher(buf, at, w);
    IsPutMeans(buf[..], c, at, Encrypted(x, w));
  }

  method DecryptBlock(buf: array<bv8>, at: nat, iv: State, w: Schedule)
    requires at + BLOCK <= buf.Length
    modifies buf
    ensures buf[..] == Put(old(buf[..]), at, Xor(Decrypted(Get(old(buf[..]), at), w), iv))
  {
    ghost var b := buf[..];
    ghost var x := Decrypted(Get(b, at), w);
    PutTwice(b, at, x, Xor(x, iv));
    InvCipher(buf, at, w);
    IsPutMeans(buf[..], b, at, x);
    XorWith(buf, at, iv);
  }

  method EncryptNextBlock(buf: array<bv8>, at: nat, last: State, w: Schedule, ghost p: Blocks, ghost start: State)
    returns (next: State)
    requires at + BLOCK <= buf.Length == |p|
    requires EncryptedTo(buf[..], last, p, at, start, w)
    modifies buf
    ensures EncryptedTo(buf[..], next, p, at + BLOCK, start, w)
  {
    ghost var x := Encrypted(Xor(Get(buf[..], at), last), w);
    EncryptedOneMore(buf[..], last, p, at, start, w, x);
    EncryptBlock(buf, at, last, w);
    next := buf[..][at..at + BLOCK];
    assert next == Get(buf[..], at);
  }

  /** The padding of cbc_encode. */
  method Pad(src: seq<bv8>) returns (vout: Blocks)
    ensures vout == Padded(src)
  {
    var padded := src;
    var nlen := AsInt32(|src| + 1);
    if Remainder(nlen) != 0 {
      var n := BLOCK - Remainder(nlen);
      for i := 0 to n + 1
        invariant padded == src + seq(i, _ => n as bv8)
      {
        padded := padded + [n as bv8];
      }
    } else {
      padded := padded + [0];
    }
    assert padded == Padded(src);
    vout := padded;
  }

  /** The end of cbc_decode. */
  method RemovePadding(p: seq<bv8>) returns (ok: bool, vout: seq<bv8>)
    requires 0 < |p|
    ensures Decoding(ok, vout) == Unpadded(p)
  {
    var ndel := p[|p| - 1] as int;
    if ndel < 0 || ndel >= BLOCK || ndel >= AsInt32(|p|) {
      return false, p;
    }
    return true, p[..|p| - ndel - 1];
  }

  lemma {:induction false} WholeBlock(at: nat, n: nat)
    requires at < n && at % BLOCK == 0 && n % BLOCK == 0
    ensures at + BLOCK <= n && (at + BLOCK) % BLOCK == 0
  {
  }

  class Aes256 {
    var roundKey: Schedule
    var iv: State

    /** init_key_iv */
    method InitKeyIv(key: Key, start: State)
      modifies this
      ensures roundKey == Expansion(key) && iv == start
    {
      roundKey := KeyExpansion(key);
      iv := start;
    }

    /** AES_CBC_encrypt_buffer: the first bytes of the buffer, as many as it is told. */
    method EncryptBuffer(buf: array<bv8>, length: nat)
      requires length <= buf.Length && buf.Length % BLOCK == 0 && length % BLOCK == 0
      modifies buf, this`iv
      ensures buf[..] == CbcEncrypted(old(buf[..length]), old(iv), roundKey) + old(buf[length..])
      ensures iv == LastBlock(buf[..length], old(iv))
    {
      ghost var p: Blocks := buf[..];
      ghost var start := iv;
      var last: State := iv;
      var at := 0;
      NothingYet(p, start, roundKey);
      while at < length
        invariant 0 <= at <= length && at % BLOCK == 0
        invariant EncryptedTo(buf[..], last, p, at, start, roundKey)
      {
        WholeBlock(at, length);
        last := EncryptNextBlock(buf, at, last, roundKey, p, start);
        at := at + BLOCK;
      }
      FrontEncrypted(buf[..], last, p, length, start, roundKey);
      assert p[..length] == old(buf[..length]) && buf[..][..length] == buf[..length];
      iv := last;
    }

    method DecryptNextBlock(buf: array<bv8>, at: nat, ghost c: Blocks, ghost start: State)
      requires at + BLOCK <= buf.Length == |c|
      requires DecryptedTo(buf[..], iv, c, at, start, roundKey)
      modifies buf, this`iv
      ensures DecryptedTo(buf[..], iv, c, at + BLOCK, start, roundKey)
    {
      ghost var b := buf[..];
      ghost var x := Xor(Decrypted(Get(b, at), roundKey), iv);
      DecryptedOneMore(b, iv, c, at, start, roundKey, x);
      var storeNextIv: State := buf[..][at..at + BLOCK];
      assert storeNextIv == Get(b, at);
      DecryptBlock(buf, at, iv, roundKey);
      iv := storeNextIv;
    }

    /** AES_CBC_decrypt_buffer */
    method DecryptBuffer(buf: array<bv8>, length: nat)
      requires length <= buf.Length && buf.Length % BLOCK == 0 && length % BLOCK == 0
      modifies buf, this`iv
      ensures buf[..] == CbcDecrypted(old(buf[..length]), old(iv), roundKey) + old(buf[length..])
      ensures iv == LastBlock(old(buf[..length]), old(iv))
    {
      ghost var c: Blocks := buf[..];
      ghost var start := iv;
      var at := 0;
      NothingYet(c, start, roundKey);
      while at < length
        invariant 0 <= at <= length && at % BLOCK == 0
        invariant DecryptedTo(buf[..], iv, c, at, start, roundKey)
      {
        WholeBlock(at, length);
        DecryptNextBlock(buf, at, c, start);
        at := at + BLOCK;
      }
      assert c[..length] == old(buf[..length]);
    }

    method CbcEncode(src: seq<bv8>) returns (vout: Blocks)
      modifies this`iv
      ensures vout == Coded(src, old(iv), roundKey)
      ensures iv == NextIv(vout, old(iv))
    {
      var padded := Pad(src);
      var buf := new bv8[|padded|](k requires 0 <= k < |padded| => padded[k]);
      assert buf[..] == padded;
      ghost var n := Reached(|padded|);
      assert buf[..n] == padded[..n] && buf[n..] == padded[n..];
      EncryptBuffer(buf, Reached(buf.Length));
      vout := buf[..];
      assert vout[..n] == buf[..n];
    }

    method CbcDecode(src: seq<bv8>) returns (ok: bool, vout: seq<bv8>)
      requires Decodable(src)
      modifies this`iv
      ensures Decoding(ok, vout) == Decoded(src, old(iv), roundKey)
      ensures iv == NextIv(src, old(iv))
    {
      var buf := new bv8[|src|](k requires 0 <= k < |src| => src[k]);
      assert buf[..] == src;
      ghost var n := Reached(|src|);
      assert buf[..n] == src[..n] && buf[n..] == src[n..];
      DecryptBuffer(buf, Reached(buf.Length));
      ok, vout := RemovePadding(buf[..]);
    }
  }

  /** A message from one object to another that started with the same key and initial vector: it
      arrives exactly when its size survives the casts, and the two stay in step. */
  method Transmit(sender: Aes256, receiver: Aes256, m: seq<bv8>) returns (ok: bool, arrived: seq<bv8>)
    requires sender != receiver && sender.roundKey == receiver.roundKey && sender.iv == receiver.iv
    modifies sender`iv, receiver`iv
    ensures Sendable(m) <==> ok && arrived == m
    ensures Sendable(m) <==> ok
    ensures sender.iv == receiver.iv
  {
    DecodeUndoesEncode(m, sender.iv, sender.roundKey);
    var c := sender.CbcEncode(m);
    ok, arrived := receiver.CbcDecode(c);
  }
}
