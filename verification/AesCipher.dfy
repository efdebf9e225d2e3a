/** The cipher of ec_aes256.h as it changes sixteen bytes of a buffer in place. */
module AesCipher {
  import opened AesBytes
  import opened AesBlock

  function Get(b: seq<bv8>, at: nat): State
    requires at + BLOCK <= |b|
  {
    b[at..at + BLOCK]
  }

  /** b with the block at `at` replaced. */
  function Put(b: seq<bv8>, at: nat, s: State): (r: seq<bv8>)
    requires at + BLOCK <= |b|
    ensures |r| == |b|
  {
    b[..at] + s + b[at + BLOCK..]
  }

  lemma {:induction false} PutGet(b: seq<bv8>, at: nat)
    requires at + BLOCK <= |b|
    ensures Put(b, at, Get(b, at)) == b
  {
  }

  lemma {:induction false} PutTwice(b: seq<bv8>, at: nat, s: State, t: State)
    requires at + BLOCK <= |b|
    ensures Get(Put(b, at, s), at) == s
    ensures Put(Put(b, at, s), at, t) == Put(b, at, t)
  {
  }

  lemma {:induction false} PutByte(b: seq<bv8>, at: nat, s: State, k: nat, v: bv8)
    requires at + BLOCK <= |b| && k < BLOCK
    ensures Put(b, at, s)[at + k] == s[k]
    ensures Put(b, at, s)[at + k := v] == Put(b, at, s[k := v])
  {
  }

  ghost predicate Upto(cur: seq<bv8>, s: State, t: State, n: nat) {
    |cur| == BLOCK && forall k :: 0 <= k < BLOCK ==> cur[k] == if k < n then t[k] else s[k]
  }

  lemma {:induction false} UptoStep(cur: seq<bv8>, s: State, t: State, n: nat)
    requires Upto(cur, s, t, n) && n < BLOCK
    ensures cur[n] == s[n]
    ensures Upto(cur[n := t[n]], s, t, n + 1)
  {
  }

  lemma {:induction false} XorAt(s: State, t: State, k: nat)
    requires k < BLOCK
    ensures Xor(s, t)[k] == Add(s[k], t[k])
  {
  }

  /** One byte of the block at `at`, of which the first n are done. */
  method AddByte(buf: array<bv8>, at: nat, n: nat, x: bv8, ghost b: seq<bv8>, ghost s: State, ghost t: State, ghost cur: State)
    returns (ghost next: State)
    requires at + BLOCK <= buf.Length == |b| && buf[..] == Put(b, at, cur)
    requires n < BLOCK && Upto(cur, s, t, n) && t[n] == Add(s[n], x)
    modifies buf
    ensures Upto(next, s, t, n + 1) && buf[..] == Put(b, at, next)
  {
    UptoStep(cur, s, t, n);
    PutByte(b, at, cur, n, t[n]);
    assert buf[..][at + n] == s[n];
    buf[at + n] := Add(buf[at + n], x);
    next := cur[n := t[n]];
  }

  /** Adds the initialization vector to a block. */
  method XorWith(buf: array<bv8>, at: nat, iv: State)
    requires at + BLOCK <= buf.Length
    modifies buf
    ensures buf[..] == Put(old(buf[..]), at, Xor(Get(old(buf[..]), at), iv))
  {
    ghost var b := buf[..];
    ghost var s := Get(b, at);
    ghost var t := Xor(s, iv);
    ghost var cur := s;
    PutGet(b, at);
    for i := 0 to BLOCK
      invariant Upto(cur, s, t, i)
      invariant buf[..] == Put(b, at, cur)
    {
      XorAt(s, iv, i);
      cur := AddByte(buf, at, i, iv[i], b, s, t, cur);
    }
    assert cur == t;
  }

  method AddRoundKey(round: nat, buf: array<bv8>, at: nat, w: Schedule)
    requires round <= ROUNDS
    requires at + BLOCK <= buf.Length
    modifies buf
    ensures buf[..] == Put(old(buf[..]), at, Xor(Get(old(buf[..]), at), RoundKey(w, round)))
  {
    ghost var b := buf[..];
    ghost var s := Get(b, at);
    ghost var key := RoundKey(w, round);
    ghost var t := Xor(s, key);
    ghost var cur := s;
    PutGet(b, at);
    for i := 0 to 4
      invariant Upto(cur, s, t, 4 * i)
      invariant buf[..] == Put(b, at, cur)
    {
      for j := 0 to 4
        invariant Upto(cur, s, t, 4 * i + j)
        invariant buf[..] == Put(b, at, cur)
      {
        var n := 4 * i + j;
        XorAt(s, key, n);
        cur := AddByte(buf, at, n, w[round * BLOCK + n], b, s, t, cur);
      }
    }
    assert cur == t;
  }

  /** The substitutions go row by row. */
  predicate Passed(k: nat, i: nat, j: nat) {
    k % 4 < i || (k % 4 == i && k / 4 < j)
  }

  lemma {:induction false} PassOne(k: nat, i: nat, j: nat)
    requires k < BLOCK && i < 4 && j < 4
    ensures Passed(k, i, j + 1) <==> Passed(k, i, j) || k == 4 * j + i
    ensures Passed(k, i, 4) <==> Passed(k, i + 1, 0)
  {
  }

  ghost predicate Partly(cur: seq<bv8>, s: State, t: State, i: nat, j: nat) {
    |cur| == BLOCK && forall k :: 0 <= k < BLOCK ==> cur[k] == if Passed(k, i, j) then t[k] else s[k]
  }

  lemma {:induction false} PartlyStep(cur: seq<bv8>, s: State, t: State, i: nat, j: nat)
    requires Partly(cur, s, t, i, j) && i < 4 && j < 4
    ensures cur[4 * j + i] == s[4 * j + i]
    ensures Partly(cur[4 * j + i := t[4 * j + i]], s, t, i, j + 1)
  {
    forall k | 0 <= k < BLOCK ensures Passed(k, i, j + 1) <==> Passed(k, i, j) || k == 4 * j + i {
      PassOne(k, i, j);
    }
  }

  lemma {:induction false} PartlyRow(cur: seq<bv8>, s: State, t: State, i: nat)
    requires Partly(cur, s, t, i, 4) && i < 4
    ensures Partly(cur, s, t, i + 1, 0)
  {
    forall k | 0 <= k < BLOCK ensures Passed(k, i, 4) <==> Passed(k, i + 1, 0) {
      PassOne(k, i, 0);
    }
  }

  method SubstituteBytes(buf: array<bv8>, at: nat)
    requires at + BLOCK <= buf.Length
    modifies buf
    ensures buf[..] == Put(old(buf[..]), at, SubBytes(Get(old(buf[..]), at)))
  {
    ghost var b := buf[..];
    ghost var s := Get(b, at);
    ghost var t := SubBytes(s);
    ghost var cur := s;
    PutGet(b, at);
    for i := 0 to 4
      invariant Partly(cur, s, t, i, 0)
      invariant buf[..] == Put(b, at, cur)
    {
      for j := 0 to 4
        invariant Partly(cur, s, t, i, j)
        invariant buf[..] == Put(b, at, cur)
      {
        PartlyStep(cur, s, t, i, j);
        PutByte(b, at, cur, 4 * j + i, t[4 * j + i]);
        assert buf[..][at + (4 * j + i)] == s[4 * j + i];
        buf[at + (4 * j + i)] := SBox(buf[at + (4 * j + i)]);
        cur := cur[4 * j + i := t[4 * j + i]];
      }
      PartlyRow(cur, s, t, i);
    }
    assert cur == t;
  }

  method InvSubstituteBytes(buf: array<bv8>, at: nat)
    requires at + BLOCK <= buf.Length
    modifies buf
    ensures buf[..] == Put(old(buf[..]), at, InvSubBytes(Get(old(buf[..]), at)))
  {
    ghost var b := buf[..];
    ghost var s := Get(b, at);
    ghost var t := InvSubBytes(s);
    ghost var cur := s;
    PutGet(b, at);
    for i := 0 to 4
      invariant Partly(cur, s, t, i, 0)
      invariant buf[..] == Put(b, at, cur)
    {
      for j := 0 to 4
        invariant Partly(cur, s, t, i, j)
        invariant buf[..] == Put(b, at, cur)
      {
        PartlyStep(cur, s, t, i, j);
        PutByte(b, at, cur, 4 * j + i, t[4 * j + i]);
        assert buf[..][at + (4 * j + i)] == s[4 * j + i];
        buf[at + (4 * j + i)] := InvSBox(buf[at + (4 * j + i)]);
        cur := cur[4 * j + i := t[4 * j + i]];
      }
      PartlyRow(cur, s, t, i);
    }
    assert cur == t;
  }

  /** Four bytes of a state, replaced. */
  function With4(s: State, i: nat, v: bv8, j: nat, w: bv8, k: nat, x: bv8, l: nat, y: bv8): State
    requires i < BLOCK && j < BLOCK && k < BLOCK && l < BLOCK
  {
    s[i := v][j := w][k := x][l := y]
  }

  lemma {:induction false} PutFour(b: seq<bv8>, at: nat, s: State, i: nat, v: bv8, j: nat, w: bv8, k: nat, x: bv8, l: nat, y: bv8)
    requires at + BLOCK <= |b| && s == Get(b, at)
    requires i < BLOCK && j < BLOCK && k < BLOCK && l < BLOCK
    ensures b[at + i := v][at + j := w][at + k := x][at + l := y] == Put(b, at, With4(s, i, v, j, w, k, x, l, y))
  {
    PutGet(b, at);
    PutByte(b, at, s, i, v);
    PutByte(b, at, s[i := v], j, w);
    PutByte(b, at, s[i := v][j := w], k, x);
    PutByte(b, at, s[i := v][j := w][k := x], l, y);
  }

  method RotateRow1Left(buf: array<bv8>, at: nat)
    requires at + BLOCK <= buf.Length
    modifies buf
    ensures var s := Get(old(buf[..]), at);
            buf[..] == Put(old(buf[..]), at, With4(s, 1, s[5], 5, s[9], 9, s[13], 13, s[1]))
  {
    ghost var s := Get(buf[..], at);
    PutFour(buf[..], at, s, 1, s[5], 5, s[9], 9, s[13], 13, s[1]);
    var temp := buf[at + 1];
    buf[at + 1] := buf[at + 5];
    buf[at + 5] := buf[at + 9];
    buf[at + 9] := buf[at + 13];
    buf[at + 13] := temp;
  }

  method RotateRow2(buf: array<bv8>, at: nat)
    requires at + BLOCK <= buf.Length
    modifies buf
    ensures var s := Get(old(buf[..]), at);
            buf[..] == Put(old(buf[..]), at, With4(s, 2, s[10], 10, s[2], 6, s[14], 14, s[6]))
  {
    ghost var s := Get(buf[..], at);
    PutFour(buf[..], at, s, 2, s[10], 10, s[2], 6, s[14], 14, s[6]);
    var temp := buf[at + 2];
    buf[at + 2] := buf[at + 10];
    buf[at + 10] := temp;
    temp := buf[at + 6];
    buf[at + 6] := buf[at + 14];
    buf[at + 14] := temp;
  }

  method RotateRow3Left(buf: array<bv8>, at: nat)
    requires at + BLOCK <= buf.Length
    modifies buf
    ensures var s := Get(old(buf[..]), at);
            buf[..] == Put(old(buf[..]), at, With4(s, 3, s[15], 15, s[11], 11, s[7], 7, s[3]))
  {
    ghost var s := Get(buf[..], at);
    PutFour(buf[..], at, s, 3, s[15], 15, s[11], 11, s[7], 7, s[3]);
    var temp := buf[at + 3];
    buf[at + 3] := buf[at + 15];
    buf[at + 15] := buf[at + 11];
    buf[at + 11] := buf[at + 7];
    buf[at + 7] := temp;
  }

  lemma {:induction false} SameAsShifted(s: State, t: State)
    requires t[0] == s[0] && t[4] == s[4] && t[8] == s[8] && t[12] == s[12]
    requires t[1] == s[5] && t[5] == s[9] && t[9] == s[13] && t[13] == s[1]
    requires t[2] == s[10] && t[6] == s[14] && t[10] == s[2] && t[14] == s[6]
    requires t[3] == s[15] && t[7] == s[3] && t[11] == s[7] && t[15] == s[11]
    ensures t == ShiftRows(s)
  {
  }

  lemma {:induction false} RowsShiftedLeft(s: State, t: State, u: State, v: State)
    requires t == With4(s, 1, s[5], 5, s[9], 9, s[13], 13, s[1])
    requires u == With4(t, 2, t[10], 10, t[2], 6, t[14], 14, t[6])
    requires v == With4(u, 3, u[15], 15, u[11], 11, u[7], 7, u[3])
    ensures v == ShiftRows(s)
  {
    SameAsShifted(s, v);
  }

  method ShiftRowsLeft(buf: array<bv8>, at: nat)
    requires at + BLOCK <= buf.Length
    modifies buf
    ensures buf[..] == Put(old(buf[..]), at, ShiftRows(Get(old(buf[..]), at)))
  {
    ghost var b := buf[..];
    RotateRow1Left(buf, at);
    ghost var t := Get(buf[..], at);
    RotateRow2(buf, at);
    ghost var u := Get(buf[..], at);
    RotateRow3Left(buf, at);
    ghost var v := Get(buf[..], at);
    RowsShiftedLeft(Get(b, at), t, u, v);
  }

  method RotateRow1Right(buf: array<bv8>, at: nat)
    requires at + BLOCK <= buf.Length
    modifies buf
    ensures var s := Get(old(buf[..]), at);
            buf[..] == Put(old(buf[..]), at, With4(s, 13, s[9], 9, s[5], 5, s[1], 1, s[13]))
  {
    ghost var s := Get(buf[..], at);
    PutFour(buf[..], at, s, 13, s[9], 9, s[5], 5, s[1], 1, s[13]);
    var temp := buf[at + 13];
    buf[at + 13] := buf[at + 9];
    buf[at + 9] := buf[at + 5];
    buf[at + 5] := buf[at + 1];
    buf[at + 1] := temp;
  }

  method RotateRow3Right(buf: array<bv8>, at: nat)
    requires at + BLOCK <= buf.Length
    modifies buf
    ensures var s := Get(old(buf[..]), at);
            buf[..] == Put(old(buf[..]), at, With4(s, 3, s[7], 7, s[11], 11, s[15], 15, s[3]))
  {
    ghost var s := Get(buf[..], at);
    PutFour(buf[..], at, s, 3, s[7], 7, s[11], 11, s[15], 15, s[3]);
    var temp := buf[at + 3];
    buf[at + 3] := buf[at + 7];
    buf[at + 7] := buf[at + 11];
    buf[at + 11] := buf[at + 15];
    buf[at + 15] := temp;
  }

  lemma {:induction false} SameAsShiftedBack(s: State, t: State)
    requires t[0] == s[0] && t[4] == s[4] && t[8] == s[8] && t[12] == s[12]
    requires t[1] == s[13] && t[5] == s[1] && t[9] == s[5] && t[13] == s[9]
    requires t[2] == s[10] && t[6] == s[14] && t[10] == s[2] && t[14] == s[6]
    requires t[3] == s[7] && t[7] == s[11] && t[11] == s[15] && t[15] == s[3]
    ensures t == InvShiftRows(s)
  {
  }

  lemma {:induction false} RowsShiftedRight(s: State, t: State, u: State, v: State)
    requires t == With4(s, 13, s[9], 9, s[5], 5, s[1], 1, s[13])
    requires u == With4(t, 2, t[10], 10, t[2], 6, t[14], 14, t[6])
    requires v == With4(u, 3, u[7], 7, u[11], 11, u[15], 15, u[3])
    ensures v == InvShiftRows(s)
  {
    SameAsShiftedBack(s, v);
  }

  method ShiftRowsRight(buf: array<bv8>, at: nat)
    requires at + BLOCK <= buf.Length
    modifies buf
    ensures buf[..] == Put(old(buf[..]), at, InvShiftRows(Get(old(buf[..]), at)))
  {
    ghost var b := buf[..];
    RotateRow1Right(buf, at);
    ghost var t := Get(buf[..], at);
    RotateRow2(buf, at);
    ghost var u := Get(buf[..], at);
    RotateRow3Right(buf, at);
    ghost var v := Get(buf[..], at);
    RowsShiftedRight(Get(b, at), t, u, v);
  }

  /** Column i of s, with its bytes taken from t. */
  function ColumnFrom(s: State, t: State, i: nat): State
    requires i < 4
  {
    With4(s, 4 * i, t[4 * i], 4 * i + 1, t[4 * i + 1], 4 * i + 2, t[4 * i + 2], 4 * i + 3, t[4 * i + 3])
  }

  lemma {:induction false} UptoColumn(cur: State, s: State, t: State, i: nat)
    requires Upto(cur, s, t, 4 * i) && i < 4
    ensures forall j :: 4 * i <= j < 4 * i + 4 ==> cur[j] == s[j]
    ensures Upto(ColumnFrom(cur, t, i), s, t, 4 * i + 4)
  {
  }

  lemma {:induction false} ColumnPlaces(i: nat)
    requires i < 4
    ensures Circle(4 * i, 4 * i + 1, 4 * i + 2, 4 * i + 3)
  {
  }

  ghost predicate IsSum(s: State, k0: nat, k1: nat, k2: nat, k3: nat, sum: bv8) {
    k0 < BLOCK && k1 < BLOCK && k2 < BLOCK && k3 < BLOCK && sum == Sum4(s[k0], s[k1], s[k2], s[k3])
  }

  lemma {:induction false} SumTurns(s: State, k0: nat, k1: nat, k2: nat, k3: nat, sum: bv8)
    requires IsSum(s, k0, k1, k2, k3, sum)
    ensures IsSum(s, k1, k2, k3, k0, sum)
  {
    SumAround(s[k0], s[k1], s[k2], s[k3]);
  }

  ghost predicate IsMixed(s: State, k0: nat, k1: nat, sum: bv8, v: bv8) {
    k0 < BLOCK && k1 < BLOCK && v == MixWithSum(s[k0], s[k1], sum)
  }

  lemma {:induction false} MixedByte(s: State, k0: nat, k1: nat, k2: nat, k3: nat, sum: bv8, v: bv8)
    requires IsSum(s, k0, k1, k2, k3, sum) && Circle(k0, k1, k2, k3)
    requires IsMixed(s, k0, k1, sum, v)
    ensures MixColumns(s)[k0] == v
  {
    MixWithSumIsMix(s[k0], s[k1], s[k2], s[k3], sum);
    ColumnByte(MixByte, s, k0, k1, k2, k3);
  }

  lemma {:induction false} MixedWithSum(s: State, k0: nat, k1: nat, k2: nat, k3: nat, sum: bv8, v0: bv8, v1: bv8, v2: bv8, v3: bv8)
    requires IsSum(s, k0, k1, k2, k3, sum) && Circle(k0, k1, k2, k3)
    requires IsMixed(s, k0, k1, sum, v0) && IsMixed(s, k1, k2, sum, v1)
    requires IsMixed(s, k2, k3, sum, v2) && IsMixed(s, k3, k0, sum, v3)
    ensures MixColumns(s)[k0] == v0 && MixColumns(s)[k1] == v1 && MixColumns(s)[k2] == v2 && MixColumns(s)[k3] == v3
  {
    CircleTurns(k0, k1, k2, k3);
    CircleTurns(k1, k2, k3, k0);
    CircleTurns(k2, k3, k0, k1);
    SumTurns(s, k0, k1, k2, k3, sum);
    SumTurns(s, k1, k2, k3, k0, sum);
    SumTurns(s, k2, k3, k0, k1, sum);
    MixedByte(s, k0, k1, k2, k3, sum, v0);
    MixedByte(s, k1, k2, k3, k0, sum, v1);
    MixedByte(s, k2, k3, k0, k1, sum, v2);
    MixedByte(s, k3, k0, k1, k2, sum, v3);
  }

  ghost predicate IsUnmixed(s: State, k0: nat, k1: nat, k2: nat, k3: nat, v: bv8) {
    k0 < BLOCK && k1 < BLOCK && k2 < BLOCK && k3 < BLOCK && v == UnmixByMultiply(s[k0], s[k1], s[k2], s[k3])
  }

  lemma {:induction false} UnmixedByte(s: State, k0: nat, k1: nat, k2: nat, k3: nat, v: bv8)
    requires IsUnmixed(s, k0, k1, k2, k3, v) && Circle(k0, k1, k2, k3)
    ensures InvMixColumns(s)[k0] == v
  {
    UnmixIsInvMix(s[k0], s[k1], s[k2], s[k3]);
    ColumnByte(InvMixByte, s, k0, k1, k2, k3);
  }

  lemma {:induction false} Unmixed(s: State, k0: nat, k1: nat, k2: nat, k3: nat, v0: bv8, v1: bv8, v2: bv8, v3: bv8)
    requires Circle(k0, k1, k2, k3)
    requires IsUnmixed(s, k0, k1, k2, k3, v0) && IsUnmixed(s, k1, k2, k3, k0, v1)
    requires IsUnmixed(s, k2, k3, k0, k1, v2) && IsUnmixed(s, k3, k0, k1, k2, v3)
    ensures InvMixColumns(s)[k0] == v0 && InvMixColumns(s)[k1] == v1
    ensures InvMixColumns(s)[k2] == v2 && InvMixColumns(s)[k3] == v3
  {
    CircleTurns(k0, k1, k2, k3);
    CircleTurns(k1, k2, k3, k0);
    CircleTurns(k2, k3, k0, k1);
    UnmixedByte(s, k0, k1, k2, k3, v0);
    UnmixedByte(s, k1, k2, k3, k0, v1);
    UnmixedByte(s, k2, k3, k0, k1, v2);
    UnmixedByte(s, k3, k0, k1, k2, v3);
  }

  /** Column i of s with the given bytes. */
  function WithColumn(s: State, i: nat, v0: bv8, v1: bv8, v2: bv8, v3: bv8): State
    requires i < 4
  {
    With4(s, 4 * i, v0, 4 * i + 1, v1, 4 * i + 2, v2, 4 * i + 3, v3)
  }

  method MixColumn(buf: array<bv8>, at: nat, i: nat)
    returns (ghost sum: bv8, ghost v0: bv8, ghost v1: bv8, ghost v2: bv8, ghost v3: bv8)
    requires at + BLOCK <= buf.Length && i < 4
    modifies buf
    ensures var s := Get(old(buf[..]), at);
            && IsSum(s, 4 * i, 4 * i + 1, 4 * i + 2, 4 * i + 3, sum)
            && IsMixed(s, 4 * i, 4 * i + 1, sum, v0)
            && IsMixed(s, 4 * i + 1, 4 * i + 2, sum, v1)
            && IsMixed(s, 4 * i + 2, 4 * i + 3, sum, v2)
            && IsMixed(s, 4 * i + 3, 4 * i, sum, v3)
    ensures buf[..] == Put(old(buf[..]), at, WithColumn(Get(old(buf[..]), at), i, v0, v1, v2, v3))
  {
    var m := at + 4 * i;
    ghost var s, before := Get(buf[..], at), buf[..];
    assert buf[m] == s[4 * i] && buf[m + 1] == s[4 * i + 1] && buf[m + 2] == s[4 * i + 2] && buf[m + 3] == s[4 * i + 3];
    var a, b, c, d := buf[m], buf[m + 1], buf[m + 2], buf[m + 3];
    var tmp := Sum4(a, b, c, d);
    sum := tmp;
    v0, v1, v2, v3 := MixWithSum(a, b, tmp), MixWithSum(b, c, tmp), MixWithSum(c, d, tmp), MixWithSum(d, a, tmp);
    buf[m] := MixWithSum(a, b, tmp);
    buf[m + 1] := MixWithSum(b, c, tmp);
    buf[m + 2] := MixWithSum(c, d, tmp);
    buf[m + 3] := MixWithSum(d, a, tmp);
    PutFour(before, at, s, 4 * i, v0, 4 * i + 1, v1, 4 * i + 2, v2, 4 * i + 3, v3);
  }

  method MixAllColumns(buf: array<bv8>, at: nat)
    requires at + BLOCK <= buf.Length
    modifies buf
    ensures buf[..] == Put(old(buf[..]), at, MixColumns(Get(old(buf[..]), at)))
  {
    ghost var b := buf[..];
    ghost var s := Get(b, at);
    ghost var t := MixColumns(s);
    ghost var cur := s;
    PutGet(b, at);
    for i := 0 to 4
      invariant Upto(cur, s, t, 4 * i)
      invariant buf[..] == Put(b, at, cur)
    {
      UptoColumn(cur, s, t, i);
      PutTwice(b, at, cur, ColumnFrom(cur, t, i));
      ghost var sum, v0, v1, v2, v3 := MixColumn(buf, at, i);
      ColumnPlaces(i);
      MixedWithSum(s, 4 * i, 4 * i + 1, 4 * i + 2, 4 * i + 3, sum, v0, v1, v2, v3);
      cur := ColumnFrom(cur, t, i);
    }
    assert cur == t;
  }

  method InvMixColumn(buf: array<bv8>, at: nat, i: nat)
    returns (ghost v0: bv8, ghost v1: bv8, ghost v2: bv8, ghost v3: bv8)
    requires at + BLOCK <= buf.Length && i < 4
    modifies buf
    ensures var s := Get(old(buf[..]), at);
            && IsUnmixed(s, 4 * i, 4 * i + 1, 4 * i + 2, 4 * i + 3, v0)
            && IsUnmixed(s, 4 * i + 1, 4 * i + 2, 4 * i + 3, 4 * i, v1)
            && IsUnmixed(s, 4 * i + 2, 4 * i + 3, 4 * i, 4 * i + 1, v2)
            && IsUnmixed(s, 4 * i + 3, 4 * i, 4 * i + 1, 4 * i + 2, v3)
    ensures buf[..] == Put(old(buf[..]), at, WithColumn(Get(old(buf[..]), at), i, v0, v1, v2, v3))
  {
    var m := at + 4 * i;
    ghost var s := Get(buf[..], at);
    ghost var before := buf[..];
    assert buf[m] == s[4 * i] && buf[m + 1] == s[4 * i + 1] && buf[m + 2] == s[4 * i + 2] && buf[m + 3] == s[4 * i + 3];
    var a, b, c, d := buf[m], buf[m + 1], buf[m + 2], buf[m + 3];
    v0, v1, v2, v3 := UnmixByMultiply(a, b, c, d), UnmixByMultiply(b, c, d, a), UnmixByMultiply(c, d, a, b), UnmixByMultiply(d, a, b, c);
    buf[m] := UnmixByMultiply(a, b, c, d);
    buf[m + 1] := UnmixByMultiply(b, c, d, a);
    buf[m + 2] := UnmixByMultiply(c, d, a, b);
    buf[m + 3] := UnmixByMultiply(d, a, b, c);
    PutFour(before, at, s, 4 * i, v0, 4 * i + 1, v1, 4 * i + 2, v2, 4 * i + 3, v3);
  }

  method InvMixAllColumns(buf: array<bv8>, at: nat)
    requires at + BLOCK <= buf.Length
    modifies buf
    ensures buf[..] == Put(old(buf[..]), at, InvMixColumns(Get(old(buf[..]), at)))
  {
    ghost var b := buf[..];
    ghost var s := Get(b, at);
    ghost var t := InvMixColumns(s);
    ghost var cur := s;
    PutGet(b, at);
    for i := 0 to 4
      invariant Upto(cur, s, t, 4 * i)
      invariant buf[..] == Put(b, at, cur)
    {
      UptoColumn(cur, s, t, i);
      PutTwice(b, at, cur, ColumnFrom(cur, t, i));
      ghost var v0, v1, v2, v3 := InvMixColumn(buf, at, i);
      ColumnPlaces(i);
      Unmixed(s, 4 * i, 4 * i + 1, 4 * i + 2, 4 * i + 3, v0, v1, v2, v3);
      cur := ColumnFrom(cur, t, i);
    }
    assert cur == t;
  }

  // ---- The rounds ----

  /** The block at `at` of b has become s, in c. (Recursive, so that the verifier treats it as a fact
      of its own and does not compare the buffers byte by byte.) */
  ghost predicate IsPut(c: seq<bv8>, b: seq<bv8>, at: nat, s: State)
    decreases at
  {
    if at == 0 then |b| >= BLOCK && c == s + b[BLOCK..]
    else b != [] && c != [] && c[0] == b[0] && IsPut(c[1..], b[1..], at - 1, s)
  }

  lemma {:induction false} IsPutMeans(c: seq<bv8>, b: seq<bv8>, at: nat, s: State)
    ensures IsPut(c, b, at, s) <==> at + BLOCK <= |b| && c == Put(b, at, s)
    decreases at
  {
    if at == 0 {
      if BLOCK <= |b| {
        assert Put(b, 0, s) == s + b[BLOCK..];
      }
    } else if b != [] && c != [] {
      IsPutMeans(c[1..], b[1..], at - 1, s);
      if at + BLOCK <= |b| {
        assert Put(b, at, s) == [b[0]] + Put(b[1..], at - 1, s);
        assert c == [c[0]] + c[1..];
      }
    }
  }

  lemma {:induction false} PutAgain(c: seq<bv8>, d: seq<bv8>, b: seq<bv8>, at: nat, s: State, t: State)
    requires IsPut(c, b, at, s)
    ensures at + BLOCK <= |b| == |c| && Get(c, at) == s
    ensures d == Put(c, at, t) ==> IsPut(d, b, at, t)
  {
    IsPutMeans(c, b, at, s);
    IsPutMeans(d, b, at, t);
    PutTwice(b, at, s, t);
  }

  lemma {:induction false} IsPutSame(b: seq<bv8>, at: nat)
    requires at + BLOCK <= |b|
    ensures IsPut(b, b, at, Get(b, at))
  {
    PutGet(b, at);
    IsPutMeans(b, b, at, Get(b, at));
  }

  /** What SubBytes and ShiftRows make of a state, and back. */
  function Substituted(s: State): State {
    ShiftRows(SubBytes(s))
  }

  function Restored(s: State): State {
    InvSubBytes(InvShiftRows(s))
  }

  method Substitute(buf: array<bv8>, at: nat, ghost b: seq<bv8>, ghost s: State)
    requires at + BLOCK <= buf.Length && IsPut(buf[..], b, at, s)
    modifies buf
    ensures IsPut(buf[..], b, at, SubBytes(s))
  {
    ghost var c, t := buf[..], SubBytes(s);
    PutAgain(c, c, b, at, s, t);
    SubstituteBytes(buf, at);
    PutAgain(c, buf[..], b, at, s, t);
  }

  method Shift(buf: array<bv8>, at: nat, ghost b: seq<bv8>, ghost s: State)
    requires at + BLOCK <= buf.Length && IsPut(buf[..], b, at, s)
    modifies buf
    ensures IsPut(buf[..], b, at, ShiftRows(s))
  {
    ghost var c, t := buf[..], ShiftRows(s);
    PutAgain(c, c, b, at, s, t);
    ShiftRowsLeft(buf, at);
    PutAgain(c, buf[..], b, at, s, t);
  }

  method Mix(buf: array<bv8>, at: nat, ghost b: seq<bv8>, ghost s: State)
    requires at + BLOCK <= buf.Length && IsPut(buf[..], b, at, s)
    modifies buf
    ensures IsPut(buf[..], b, at, MixColumns(s))
  {
    ghost var c, t := buf[..], MixColumns(s);
    PutAgain(c, c, b, at, s, t);
    MixAllColumns(buf, at);
    PutAgain(c, buf[..], b, at, s, t);
  }

  method AddKey(buf: array<bv8>, at: nat, w: Schedule, round: nat, ghost b: seq<bv8>, ghost s: State)
    requires round <= ROUNDS
    requires at + BLOCK <= buf.Length && IsPut(buf[..], b, at, s)
    modifies buf
    ensures IsPut(buf[..], b, at, Xor(s, RoundKey(w, round)))
  {
    ghost var c, t := buf[..], Xor(s, RoundKey(w, round));
    PutAgain(c, c, b, at, s, t);
    AddRoundKey(round, buf, at, w);
    PutAgain(c, buf[..], b, at, s, t);
  }

  method ShiftBack(buf: array<bv8>, at: nat, ghost b: seq<bv8>, ghost s: State)
    requires at + BLOCK <= buf.Length && IsPut(buf[..], b, at, s)
    modifies buf
    ensures IsPut(buf[..], b, at, InvShiftRows(s))
  {
    ghost var c, t := buf[..], InvShiftRows(s);
    PutAgain(c, c, b, at, s, t);
    ShiftRowsRight(buf, at);
    PutAgain(c, buf[..], b, at, s, t);
  }

  method SubstituteBack(buf: array<bv8>, at: nat, ghost b: seq<bv8>, ghost s: State)
    requires at + BLOCK <= buf.Length && IsPut(buf[..], b, at, s)
    modifies buf
    ensures IsPut(buf[..], b, at, InvSubBytes(s))
  {
    ghost var c, t := buf[..], InvSubBytes(s);
    PutAgain(c, c, b, at, s, t);
    InvSubstituteBytes(buf, at);
    PutAgain(c, buf[..], b, at, s, t);
  }

  method Unmix(buf: array<bv8>, at: nat, ghost b: seq<bv8>, ghost s: State)
    requires at + BLOCK <= buf.Length && IsPut(buf[..], b, at, s)
    modifies buf
    ensures IsPut(buf[..], b, at, InvMixColumns(s))
  {
    ghost var c, t := buf[..], InvMixColumns(s);
    PutAgain(c, c, b, at, s, t);
    InvMixAllColumns(buf, at);
    PutAgain(c, buf[..], b, at, s, t);
  }

  /** The buffer after that many rounds, and after the first half of the next one. */
  ghost predicate RoundsDone(c: seq<bv8>, b: seq<bv8>, at: nat, s: State, w: Schedule, rounds: nat) {
    rounds < ROUNDS && IsPut(c, b, at, Rounds(s, w, rounds))
  }

  ghost predicate HalfDone(c: seq<bv8>, b: seq<bv8>, at: nat, s: State, w: Schedule, rounds: nat) {
    rounds < ROUNDS && IsPut(c, b, at, Substituted(Rounds(s, w, rounds)))
  }

  method AddFirstKey(buf: array<bv8>, at: nat, w: Schedule, ghost s: State)
    requires at + BLOCK <= buf.Length && s == Get(buf[..], at)
    modifies buf
    ensures RoundsDone(buf[..], old(buf[..]), at, s, w, 0)
  {
    IsPutSame(buf[..], at);
    AddKey(buf, at, w, 0, buf[..], s);
  }

  method SubstituteAndShift(buf: array<bv8>, at: nat, ghost b: seq<bv8>, ghost s: State, ghost w: Schedule, ghost rounds: nat)
    requires at + BLOCK <= buf.Length && RoundsDone(buf[..], b, at, s, w, rounds)
    modifies buf
    ensures HalfDone(buf[..], b, at, s, w, rounds)
  {
    ghost var t := Rounds(s, w, rounds);
    Substitute(buf, at, b, t);
    Shift(buf, at, b, SubBytes(t));
  }

  method MixAndAddKey(buf: array<bv8>, at: nat, ghost b: seq<bv8>, ghost s: State, w: Schedule, round: nat)
    requires 0 < round < ROUNDS
    requires at + BLOCK <= buf.Length && HalfDone(buf[..], b, at, s, w, round - 1)
    modifies buf
    ensures RoundsDone(buf[..], b, at, s, w, round)
  {
    ghost var t := Substituted(Rounds(s, w, round - 1));
    Mix(buf, at, b, t);
    AddKey(buf, at, w, round, b, MixColumns(t));
  }

  method AddLastKey(buf: array<bv8>, at: nat, ghost b: seq<bv8>, ghost s: State, w: Schedule)
    requires at + BLOCK <= buf.Length && HalfDone(buf[..], b, at, s, w, ROUNDS - 1)
    modifies buf
    ensures IsPut(buf[..], b, at, Encrypted(s, w))
  {
    AddKey(buf, at, w, ROUNDS, b, Substituted(Rounds(s, w, ROUNDS - 1)));
  }

  /** The body of the loop: a whole round, or the first half of the last one. */
  method OneRound(buf: array<bv8>, at: nat, ghost b: seq<bv8>, ghost s: State, w: Schedule, round: nat) returns (last: bool)
    requires 0 < round <= ROUNDS
    requires at + BLOCK <= buf.Length && RoundsDone(buf[..], b, at, s, w, round - 1)
    modifies buf
    ensures last <==> round == ROUNDS
    ensures if last then HalfDone(buf[..], b, at, s, w, ROUNDS - 1) else RoundsDone(buf[..], b, at, s, w, round)
  {
    SubstituteAndShift(buf, at, b, s, w, round - 1);
    if round == ROUNDS {
      return true;
    }
    MixAndAddKey(buf, at, b, s, w, round);
    last := false;
  }

  method AllRounds(buf: array<bv8>, at: nat, ghost s: State, w: Schedule)
    requires at + BLOCK <= buf.Length && s == Get(buf[..], at)
    modifies buf
    ensures HalfDone(buf[..], old(buf[..]), at, s, w, ROUNDS - 1)
  {
    ghost var b := buf[..];
    AddFirstKey(buf, at, w, s);
    var round := 1;
    while true
      invariant 1 <= round <= ROUNDS
      invariant RoundsDone(buf[..], b, at, s, w, round - 1)
      decreases ROUNDS - round
    {
      var last := OneRound(buf, at, b, s, w, round);
      if last {
        break;
      }
      round := round + 1;
    }
  }

  method Cipher(buf: array<bv8>, at: nat, w: Schedule)
    requires at + BLOCK <= buf.Length
    modifies buf
    ensures IsPut(buf[..], old(buf[..]), at, Encrypted(Get(old(buf[..]), at), w))
  {
    ghost var b := buf[..];
    ghost var s := Get(b, at);
    AllRounds(buf, at, s, w);
    AddLastKey(buf, at, b, s, w);
  }

  /** The same on the way back. */
  ghost predicate BackDone(c: seq<bv8>, b: seq<bv8>, at: nat, s: State, w: Schedule, round: nat) {
    round < ROUNDS && IsPut(c, b, at, BackTo(s, w, round))
  }

  ghost predicate BackHalfDone(c: seq<bv8>, b: seq<bv8>, at: nat, s: State, w: Schedule, round: nat) {
    round < ROUNDS && IsPut(c, b, at, Xor(Restored(BackTo(s, w, round)), RoundKey(w, round)))
  }

  method AddOuterKey(buf: array<bv8>, at: nat, w: Schedule, ghost s: State)
    requires at + BLOCK <= buf.Length && s == Get(buf[..], at)
    modifies buf
    ensures BackDone(buf[..], old(buf[..]), at, s, w, ROUNDS - 1)
  {
    IsPutSame(buf[..], at);
    AddKey(buf, at, w, ROUNDS, buf[..], s);
  }

  method RestoreAndAddKey(buf: array<bv8>, at: nat, ghost b: seq<bv8>, ghost s: State, w: Schedule, round: nat)
    requires at + BLOCK <= buf.Length && BackDone(buf[..], b, at, s, w, round)
    modifies buf
    ensures BackHalfDone(buf[..], b, at, s, w, round)
  {
    ghost var t := BackTo(s, w, round);
    ShiftBack(buf, at, b, t);
    SubstituteBack(buf, at, b, InvShiftRows(t));
    AddKey(buf, at, w, round, b, Restored(t));
  }

  method UnmixRound(buf: array<bv8>, at: nat, ghost b: seq<bv8>, ghost s: State, ghost w: Schedule, ghost round: nat)
    requires 0 < round
    requires at + BLOCK <= buf.Length && BackHalfDone(buf[..], b, at, s, w, round)
    modifies buf
    ensures BackDone(buf[..], b, at, s, w, round - 1)
  {
    Unmix(buf, at, b, Xor(Restored(BackTo(s, w, round)), RoundKey(w, round)));
  }

  method InvCipher(buf: array<bv8>, at: nat, w: Schedule)
    requires at + BLOCK <= buf.Length
    modifies buf
    ensures IsPut(buf[..], old(buf[..]), at, Decrypted(Get(old(buf[..]), at), w))
  {
    ghost var b := buf[..];
    ghost var s := Get(b, at);
    AddOuterKey(buf, at, w, s);
    var round := ROUNDS - 1;
    while true
      invariant 0 <= round < ROUNDS
      invariant BackDone(buf[..], b, at, s, w, round)
      decreases round
    {
      RestoreAndAddKey(buf, at, b, s, w, round);
      if round == 0 {
        break;
      }
      UnmixRound(buf, at, b, s, w, round);
      round := round - 1;
    }
  }
}
