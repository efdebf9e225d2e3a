/** The block cipher of ec_aes256.h: sixteen bytes changed in place under a schedule of fifteen round
    keys. Byte k of a state is byte k % 4 of column k / 4, as in section 3.4 of FIPS 197. */
module AesBlock {
  import opened AesBytes

  const BLOCK := 16
  const ROUNDS := 14
  const KEYBYTES := 32
  const SCHEDULE := 240

  type State = s: seq<bv8> | |s| == BLOCK witness seq(BLOCK, _ => 0)

  type Schedule = w: seq<bv8> | |w| == SCHEDULE witness seq(SCHEDULE, _ => 0)

  // ---- The transformations on values (sections 5.1 and 5.3 of FIPS 197) ----

  function Xor(s: State, t: State): State {
    seq(BLOCK, k requires 0 <= k < BLOCK => Add(s[k], t[k]))
  }

  function RoundKey(w: Schedule, round: nat): State
    requires round <= ROUNDS
  {
    w[round * BLOCK..round * BLOCK + BLOCK]
  }

  /** Every byte by itself. */
  function ByBytes(f: bv8 -> bv8, s: State): State {
    seq(BLOCK, k requires 0 <= k < BLOCK => f(s[k]))
  }

  function SubBytes(s: State): State {
    ByBytes(SBox, s)
  }

  function InvSubBytes(s: State): State {
    ByBytes(InvSBox, s)
  }

  function Row(k: nat): (r: nat)
    ensures r < 4
  {
    k % 4
  }

  /** The place in the same row that is n columns further, in circular order. */
  function Along(k: nat, n: nat): (j: nat)
    requires k < BLOCK && n <= 4
    ensures j < BLOCK
  {
    if k + 4 * n < BLOCK then k + 4 * n else k + 4 * n - BLOCK
  }

  /** The place in the same column that is n rows further, in circular order. */
  function Down(k: nat, n: nat): (j: nat)
    requires k < BLOCK && n <= 4
    ensures j < BLOCK
  {
    if Row(k) + n < 4 then k + n else k + n - 4
  }

  /** Row r moves by r columns to the left. */
  function ShiftRows(s: State): State {
    seq(BLOCK, k requires 0 <= k < BLOCK => s[Along(k, Row(k))])
  }

  function InvShiftRows(s: State): State {
    seq(BLOCK, k requires 0 <= k < BLOCK => s[Along(k, 4 - Row(k))])
  }


  /** Every byte from its column, which starts at the byte. */
  function ByColumns(f: (bv8, bv8, bv8, bv8) -> bv8, s: State): State {
    seq(BLOCK, k requires 0 <= k < BLOCK => f(s[k], s[Down(k, 1)], s[Down(k, 2)], s[Down(k, 3)]))
  }

  function MixColumns(s: State): State {
    ByColumns(MixByte, s)
  }

  function InvMixColumns(s: State): State {
    ByColumns(InvMixByte, s)
  }

  /** The state after the first key and that many full rounds. */
  function Rounds(s: State, w: Schedule, rounds: nat): State
    requires rounds < ROUNDS
  {
    if rounds == 0 then Xor(s, RoundKey(w, 0))
    else Xor(MixColumns(ShiftRows(SubBytes(Rounds(s, w, rounds - 1)))), RoundKey(w, rounds))
  }

  function Encrypted(s: State, w: Schedule): State {
    Xor(ShiftRows(SubBytes(Rounds(s, w, ROUNDS - 1))), RoundKey(w, ROUNDS))
  }

  /** The state when the inverse cipher is about to undo the substitution of round `round + 1`. */
  function BackTo(s: State, w: Schedule, round: nat): State
    requires round < ROUNDS
    decreases ROUNDS - round
  {
    if round == ROUNDS - 1 then Xor(s, RoundKey(w, ROUNDS))
    else InvMixColumns(Xor(InvSubBytes(InvShiftRows(BackTo(s, w, round + 1))), RoundKey(w, round + 1)))
  }

  function Decrypted(s: State, w: Schedule): State {
    Xor(InvSubBytes(InvShiftRows(BackTo(s, w, 0))), RoundKey(w, 0))
  }

  // ---- Each inverse transformation undoes its transformation ----

  lemma {:induction false} XorUndoesXor(s: State, t: State)
    ensures Xor(Xor(s, t), t) == s
  {
    forall k | 0 <= k < BLOCK ensures Xor(Xor(s, t), t)[k] == s[k] {
      AddTwice(s[k], t[k]);
    }
  }

  ghost predicate Undoes(g: bv8 -> bv8, f: bv8 -> bv8) {
    forall x :: g(f(x)) == x
  }

  lemma {:induction false} BytesUndone(f: bv8 -> bv8, g: bv8 -> bv8, s: State)
    requires Undoes(g, f)
    ensures ByBytes(g, ByBytes(f, s)) == s
  {
    forall k | 0 <= k < BLOCK ensures ByBytes(g, ByBytes(f, s))[k] == s[k] {
      assert g(f(s[k])) == s[k];
    }
  }

  lemma {:induction false} InvSubUndoesSub(s: State)
    ensures InvSubBytes(SubBytes(s)) == s
  {
    forall x ensures InvSBox(SBox(x)) == x {
      InvSBoxUndoesSBox(x);
    }
    BytesUndone(SBox, InvSBox, s);
  }

  lemma {:induction false} AlongAndBack(k: nat, r: nat)
    requires k < BLOCK && r <= 4
    ensures Along(Along(k, 4 - r), r) == k
  {
  }

  lemma {:induction false} SameRow(k: nat, n: nat)
    requires k < BLOCK && n <= 4
    ensures Row(Along(k, n)) == Row(k)
  {
  }

  lemma {:induction false} DownAndDown(k: nat, n: nat, m: nat)
    requires k < BLOCK && n + m <= 4
    ensures Down(Down(k, n), m) == Down(k, n + m)
  {
  }

  lemma {:induction false} ShiftedAt(s: State, t: State, k: nat, j: nat)
    requires k < BLOCK && t == ShiftRows(s) && j == Along(k, 4 - Row(k))
    ensures t[j] == s[k]
  {
    AlongAndBack(k, Row(k));
    SameRow(k, 4 - Row(k));
  }

  lemma {:induction false} InvShiftUndoesShift(s: State)
    ensures InvShiftRows(ShiftRows(s)) == s
  {
    var t := ShiftRows(s);
    forall k | 0 <= k < BLOCK ensures InvShiftRows(t)[k] == s[k] {
      ShiftedAt(s, t, k, Along(k, 4 - Row(k)));
    }
  }

  ghost predicate UndoesColumn(g: (bv8, bv8, bv8, bv8) -> bv8, f: (bv8, bv8, bv8, bv8) -> bv8, a: bv8, b: bv8, c: bv8, d: bv8) {
    g(f(a, b, c, d), f(b, c, d, a), f(c, d, a, b), f(d, a, b, c)) == a
  }

  ghost predicate UndoesColumns(g: (bv8, bv8, bv8, bv8) -> bv8, f: (bv8, bv8, bv8, bv8) -> bv8) {
    forall a, b, c, d :: UndoesColumn(g, f, a, b, c, d)
  }

  /** The four places of the column of k0, from k0 on. */
  ghost predicate Circle(k0: nat, k1: nat, k2: nat, k3: nat) {
    k0 < BLOCK && k1 == Down(k0, 1) && k2 == Down(k0, 2) && k3 == Down(k0, 3)
  }

  lemma {:induction false} CircleTurns(k0: nat, k1: nat, k2: nat, k3: nat)
    requires Circle(k0, k1, k2, k3)
    ensures Circle(k1, k2, k3, k0)
  {
    DownAndDown(k0, 1, 1);
    DownAndDown(k0, 1, 2);
    DownAndDown(k0, 1, 3);
    DownFour(k0);
  }

  lemma {:induction false} DownFour(k: nat)
    requires k < BLOCK
    ensures Down(k, 4) == k
  {
  }

  lemma {:induction false} ColumnByte(f: (bv8, bv8, bv8, bv8) -> bv8, s: State, k0: nat, k1: nat, k2: nat, k3: nat)
    requires Circle(k0, k1, k2, k3)
    ensures ByColumns(f, s)[k0] == f(s[k0], s[k1], s[k2], s[k3])
  {
  }

  lemma {:induction false} ColumnUndoneAt(f: (bv8, bv8, bv8, bv8) -> bv8, g: (bv8, bv8, bv8, bv8) -> bv8,
                                          s: State, k0: nat, k1: nat, k2: nat, k3: nat)
    requires UndoesColumns(g, f) && Circle(k0, k1, k2, k3)
    ensures ByColumns(g, ByColumns(f, s))[k0] == s[k0]
  {
    CircleTurns(k0, k1, k2, k3);
    CircleTurns(k1, k2, k3, k0);
    CircleTurns(k2, k3, k0, k1);
    var m := ByColumns(f, s);
    ColumnByte(g, m, k0, k1, k2, k3);
    ColumnByte(f, s, k0, k1, k2, k3);
    ColumnByte(f, s, k1, k2, k3, k0);
    ColumnByte(f, s, k2, k3, k0, k1);
    ColumnByte(f, s, k3, k0, k1, k2);
    assert UndoesColumn(g, f, s[k0], s[k1], s[k2], s[k3]);
  }

  lemma {:induction false} ColumnsUndone(f: (bv8, bv8, bv8, bv8) -> bv8, g: (bv8, bv8, bv8, bv8) -> bv8, s: State)
    requires UndoesColumns(g, f)
    ensures ByColumns(g, ByColumns(f, s)) == s
  {
    forall k | 0 <= k < BLOCK ensures ByColumns(g, ByColumns(f, s))[k] == s[k] {
      ColumnUndoneAt(f, g, s, k, Down(k, 1), Down(k, 2), Down(k, 3));
    }
  }

  lemma {:induction false} MixIsUndone()
    ensures UndoesColumns(InvMixByte, MixByte)
  {
    forall a, b, c, d ensures UndoesColumn(InvMixByte, MixByte, a, b, c, d) {
      InvMixUndoesMix(a, b, c, d);
    }
  }

  lemma {:induction false} InvMixUndoesMixColumns(s: State)
    ensures InvMixColumns(MixColumns(s)) == s
  {
    MixIsUndone();
    ColumnsUndone(MixByte, InvMixByte, s);
  }

  /** Going back from the end meets the states of going forward. */
  lemma {:induction false} BackMeetsForward(s: State, w: Schedule, round: nat)
    requires round < ROUNDS
    ensures BackTo(Encrypted(s, w), w, round) == ShiftRows(SubBytes(Rounds(s, w, round)))
    decreases ROUNDS - round
  {
    if round == ROUNDS - 1 {
      XorUndoesXor(ShiftRows(SubBytes(Rounds(s, w, round))), RoundKey(w, ROUNDS));
    } else {
      BackMeetsForward(s, w, round + 1);
      var after := Rounds(s, w, round + 1);
      InvShiftUndoesShift(SubBytes(after));
      InvSubUndoesSub(after);
      XorUndoesXor(MixColumns(ShiftRows(SubBytes(Rounds(s, w, round)))), RoundKey(w, round + 1));
      InvMixUndoesMixColumns(ShiftRows(SubBytes(Rounds(s, w, round))));
    }
  }

  /** The inverse cipher undoes the cipher, for every state and every array of round keys. */
  lemma {:induction false} DecryptUndoesEncrypt(s: State, w: Schedule)
    ensures Decrypted(Encrypted(s, w), w) == s
  {
    BackMeetsForward(s, w, 0);
    InvShiftUndoesShift(SubBytes(Rounds(s, w, 0)));
    InvSubUndoesSub(Rounds(s, w, 0));
    XorUndoesXor(s, RoundKey(w, 0));
  }
}
