/** Known answers of FIPS 197: the key schedule of its appendix A.3 and the cipher of its appendix C.3.
    They fix the schedule and the rounds by numbers; the round trips hold for any array of round keys. */
module AesKnown {
  import opened AesBytes
  import opened AesBlock
  import opened AesKeys

  // ---- One step of the schedule ----

  datatype Eight = Eight(w0: Word, w1: Word, w2: Word, w3: Word, w4: Word, w5: Word, w6: Word, w7: Word)

  function At(e: Eight, k: nat): Word {
    match k
    case 0 => e.w0 case 1 => e.w1 case 2 => e.w2 case 3 => e.w3
    case 4 => e.w4 case 5 => e.w5 case 6 => e.w6 case _ => e.w7
  }

  /** Word k of row r of the schedule. */
  ghost predicate Holds(key: Key, r: nat, k: nat, x: Word) {
    8 * r + k < WORDS && forall i: nat :: i == 8 * r + k ==> KeyWord(key, i) == x
  }

  /** The first words of a row of the schedule. */
  ghost predicate RowIs(key: Key, r: nat, e: Eight, n: nat) {
    forall k :: 0 <= k < n ==> Holds(key, r, k, At(e, k))
  }

  /** The rules of the schedule between one row and the next: what is added to the first word and to
      the fifth, and the sums. */
  predicate Follows(e: Eight, rc: bv8, t: Word, u: Word, f: Eight) {
    && t == XorWord(SubWord(RotWord(e.w7)), Word(rc, 0, 0, 0)) && u == SubWord(f.w3)
    && Sums(e, t, u, f)
  }

  predicate Sums(e: Eight, t: Word, u: Word, f: Eight) {
    && f.w0 == XorWord(e.w0, t) && f.w1 == XorWord(e.w1, f.w0) && f.w2 == XorWord(e.w2, f.w1) && f.w3 == XorWord(e.w3, f.w2)
    && f.w4 == XorWord(e.w4, u) && f.w5 == XorWord(e.w5, f.w4) && f.w6 == XorWord(e.w6, f.w5) && f.w7 == XorWord(e.w7, f.w6)
  }

  lemma {:induction false} ByEight(r: nat, k: nat)
    requires k < 8
    ensures (8 * r + k) % KEYWORDS == k && (8 * r + k) / KEYWORDS == r
  {
  }

  lemma {:induction false} Step(key: Key, i: nat, old8: Word, previous: Word, t: Word)
    requires KEYWORDS <= i < WORDS && KeyWord(key, i - KEYWORDS) == old8 && KeyWord(key, i - 1) == previous
    requires t == Scrambled(previous, i)
    ensures KeyWord(key, i) == XorWord(old8, t)
  {
  }

  lemma {:induction false} WordHolds(key: Key, r: nat, k: nat, i: nat, x: Word)
    requires i == 8 * r + k < WORDS
    ensures Holds(key, r, k, x) <==> KeyWord(key, i) == x
  {
  }

  lemma {:induction false} HoldsNext(key: Key, r: nat, k: nat, l: nat, m: nat, old8: Word, previous: Word, t: Word)
    requires Holds(key, r, k, old8) && Holds(key, m, l, previous) && k < 8 && 8 * m + l == 8 * r + 7 + k
    requires 8 * r + 8 + k < WORDS && t == Scrambled(previous, 8 * r + 8 + k)
    ensures Holds(key, r + 1, k, XorWord(old8, t))
  {
    var i := 8 * r + 8 + k;
    WordHolds(key, r, k, i - 8, old8);
    WordHolds(key, m, l, i - 1, previous);
    Step(key, i, old8, previous, t);
    WordHolds(key, r + 1, k, i, XorWord(old8, t));
  }

  lemma {:induction false} ScrambledFirst(previous: Word, r: nat, rc: bv8)
    requires 8 * r + 8 < WORDS && RoundConstant(r + 1) == rc
    ensures Scrambled(previous, 8 * r + 8) == XorWord(SubWord(RotWord(previous)), Word(rc, 0, 0, 0))
  {
    ByEight(r + 1, 0);
  }

  lemma {:induction false} FirstWord(key: Key, r: nat, old8: Word, previous: Word, t: Word)
    requires Holds(key, r, 0, old8) && Holds(key, r, 7, previous) && 8 * r + 8 < WORDS
    requires t == Scrambled(previous, 8 * r + 8)
    ensures Holds(key, r + 1, 0, XorWord(old8, t))
  {
    HoldsNext(key, r, 0, 7, r, old8, previous, t);
  }

  lemma {:induction false} LaterWord(key: Key, r: nat, k: nat, old8: Word, previous: Word, t: Word)
    requires 0 < k < 8 && 8 * r + 8 + k < WORDS && Holds(key, r, k, old8) && Holds(key, r + 1, k - 1, previous)
    requires t == if k == 4 then SubWord(previous) else previous
    ensures Holds(key, r + 1, k, XorWord(old8, t))
  {
    ScrambledLater(previous, r, k);
    HoldsNext(key, r, k, k - 1, r + 1, old8, previous, t);
  }

  lemma {:induction false} ScrambledLater(previous: Word, r: nat, k: nat)
    requires 0 < k < 8 && 8 * r + 8 + k < WORDS
    ensures Scrambled(previous, 8 * r + 8 + k) == if k == 4 then SubWord(previous) else previous
  {
    ByEight(r + 1, k);
  }

  lemma {:induction false} FourHeld(key: Key, r: nat, f: Eight)
    requires Holds(key, r, 0, f.w0) && Holds(key, r, 1, f.w1) && Holds(key, r, 2, f.w2) && Holds(key, r, 3, f.w3)
    ensures RowIs(key, r, f, 4)
  {
  }

  lemma {:induction false} NextFour(key: Key, r: nat, e: Eight, t: Word, u: Word, f: Eight)
    requires RowIs(key, r, e, 8) && Sums(e, t, u, f) && 8 * r + 12 <= WORDS && Holds(key, r + 1, 0, f.w0)
    ensures RowIs(key, r + 1, f, 4)
  {
    assert Holds(key, r, 1, At(e, 1)) && Holds(key, r, 2, At(e, 2)) && Holds(key, r, 3, At(e, 3));
    LaterWord(key, r, 1, e.w1, f.w0, f.w0);
    LaterWord(key, r, 2, e.w2, f.w1, f.w1);
    LaterWord(key, r, 3, e.w3, f.w2, f.w2);
    FourHeld(key, r + 1, f);
  }

  lemma {:induction false} LastFour(key: Key, r: nat, e: Eight, t: Word, u: Word, f: Eight)
    requires RowIs(key, r, e, 8) && Sums(e, t, u, f) && 8 * r + 16 <= WORDS && RowIs(key, r + 1, f, 4) && Holds(key, r + 1, 4, f.w4)
    ensures RowIs(key, r + 1, f, 8)
  {
    assert Holds(key, r, 5, At(e, 5)) && Holds(key, r, 6, At(e, 6)) && Holds(key, r, 7, At(e, 7));
    LaterWord(key, r, 5, e.w5, f.w4, f.w4);
    LaterWord(key, r, 6, e.w6, f.w5, f.w5);
    LaterWord(key, r, 7, e.w7, f.w6, f.w6);
  }

  lemma {:induction false} NextHalf(key: Key, r: nat, e: Eight, rc: bv8, t: Word, u: Word, f: Eight)
    requires RowIs(key, r, e, 8) && RoundConstant(r + 1) == rc && Follows(e, rc, t, u, f) && 8 * r + 12 <= WORDS
    ensures RowIs(key, r + 1, f, 4)
  {
    assert Holds(key, r, 0, At(e, 0)) && Holds(key, r, 7, At(e, 7));
    ScrambledFirst(e.w7, r, rc);
    FirstWord(key, r, e.w0, e.w7, t);
    NextFour(key, r, e, t, u, f);
  }

  lemma {:induction false} NextRow(key: Key, r: nat, e: Eight, rc: bv8, t: Word, u: Word, f: Eight)
    requires RowIs(key, r, e, 8) && RoundConstant(r + 1) == rc && Follows(e, rc, t, u, f) && 8 * r + 16 <= WORDS
    ensures RowIs(key, r + 1, f, 8)
  {
    NextHalf(key, r, e, rc, t, u, f);
    assert Holds(key, r, 4, At(e, 4)) && Holds(key, r + 1, 3, At(f, 3));
    LaterWord(key, r, 4, e.w4, f.w3, u);
    LastFour(key, r, e, t, u, f);
  }

  lemma {:induction false} KeyHeld(key: Key, k: nat, x: Word)
    requires k < 8 && key[4 * k] == x.b0 && key[4 * k + 1] == x.b1 && key[4 * k + 2] == x.b2 && key[4 * k + 3] == x.b3
    ensures Holds(key, 0, k, x)
  {
  }

  lemma {:induction false} EightHeld(key: Key, r: nat, f: Eight)
    requires Holds(key, r, 0, f.w0) && Holds(key, r, 1, f.w1) && Holds(key, r, 2, f.w2) && Holds(key, r, 3, f.w3)
    requires Holds(key, r, 4, f.w4) && Holds(key, r, 5, f.w5) && Holds(key, r, 6, f.w6) && Holds(key, r, 7, f.w7)
    ensures RowIs(key, r, f, 8)
  {
  }

  lemma {:induction false} Constants()
    ensures RoundConstant(1) == 0x01 && RoundConstant(2) == 0x02 && RoundConstant(3) == 0x04
    ensures RoundConstant(4) == 0x08 && RoundConstant(5) == 0x10 && RoundConstant(6) == 0x20 && RoundConstant(7) == 0x40
  {
    assert RoundConstant(2) == 0x02;
    assert RoundConstant(3) == 0x04;
    assert RoundConstant(4) == 0x08;
    assert RoundConstant(5) == 0x10;
    assert RoundConstant(6) == 0x20;
  }


  // ---- Round keys and states by columns ----

  datatype Quad = Quad(c0: Word, c1: Word, c2: Word, c3: Word)

  function Columns(s: State): Quad {
    Quad(Word(s[0], s[1], s[2], s[3]), Word(s[4], s[5], s[6], s[7]),
         Word(s[8], s[9], s[10], s[11]), Word(s[12], s[13], s[14], s[15]))
  }

  lemma {:induction false} SameColumns(s: State, t: State)
    requires Columns(s) == Columns(t)
    ensures s == t
  {
    var q := Columns(s);
    assert s[0] == q.c0.b0 && s[1] == q.c0.b1 && s[2] == q.c0.b2 && s[3] == q.c0.b3;
    assert s[4] == q.c1.b0 && s[5] == q.c1.b1 && s[6] == q.c1.b2 && s[7] == q.c1.b3;
    assert s[8] == q.c2.b0 && s[9] == q.c2.b1 && s[10] == q.c2.b2 && s[11] == q.c2.b3;
    assert s[12] == q.c3.b0 && s[13] == q.c3.b1 && s[14] == q.c3.b2 && s[15] == q.c3.b3;
    assert forall k :: 0 <= k < BLOCK ==> s[k] == t[k];
  }

  function Front(e: Eight): Quad {
    Quad(e.w0, e.w1, e.w2, e.w3)
  }

  function Back(e: Eight): Quad {
    Quad(e.w4, e.w5, e.w6, e.w7)
  }

  lemma {:induction false} WordOfExpansion(key: Key, i: nat)
    requires i < WORDS
    ensures WordAt(Expansion(key), i) == KeyWord(key, i)
  {
    assert 4 * i / 4 == (4 * i + 1) / 4 == (4 * i + 2) / 4 == (4 * i + 3) / 4 == i;
  }

  lemma {:induction false} BytesOfExpansion(w: Schedule, round: nat, q: Quad)
    requires round <= ROUNDS
    requires WordAt(w, 4 * round) == q.c0 && WordAt(w, 4 * round + 1) == q.c1
    requires WordAt(w, 4 * round + 2) == q.c2 && WordAt(w, 4 * round + 3) == q.c3
    ensures Columns(RoundKey(w, round)) == q
  {
    assert 4 * (4 * round) == round * BLOCK;
  }

  /** Word i of the schedule w. */
  ghost predicate InSchedule(w: Schedule, i: nat, x: Word) {
    i < WORDS && forall j: nat :: j == i ==> WordAt(w, j) == x
  }

  lemma {:induction false} WordHeld(key: Key, r: nat, k: nat, x: Word)
    requires Holds(key, r, k, x)
    ensures InSchedule(Expansion(key), 8 * r + k, x)
  {
    WordOfExpansion(key, 8 * r + k);
  }

  lemma {:induction false} FourWords(w: Schedule, round: nat, q: Quad)
    requires round <= ROUNDS && InSchedule(w, 4 * round, q.c0) && InSchedule(w, 4 * round + 1, q.c1)
    requires InSchedule(w, 4 * round + 2, q.c2) && InSchedule(w, 4 * round + 3, q.c3)
    ensures Columns(RoundKey(w, round)) == q
  {
    BytesOfExpansion(w, round, q);
  }

  /** A row of the schedule holds two round keys. */
  lemma {:induction false} FrontRoundKey(key: Key, r: nat, e: Eight, n: nat)
    requires RowIs(key, r, e, n) && 4 <= n && 8 * r + 4 <= WORDS
    ensures Columns(RoundKey(Expansion(key), 2 * r)) == Front(e)
  {
    assert Holds(key, r, 0, At(e, 0)) && Holds(key, r, 1, At(e, 1)) && Holds(key, r, 2, At(e, 2)) && Holds(key, r, 3, At(e, 3));
    WordHeld(key, r, 0, e.w0);
    WordHeld(key, r, 1, e.w1);
    WordHeld(key, r, 2, e.w2);
    WordHeld(key, r, 3, e.w3);
    FourWords(Expansion(key), 2 * r, Front(e));
  }

  lemma {:induction false} BackRoundKey(key: Key, r: nat, e: Eight)
    requires RowIs(key, r, e, 8) && 8 * r + 8 <= WORDS
    ensures Columns(RoundKey(Expansion(key), 2 * r + 1)) == Back(e)
  {
    assert Holds(key, r, 4, At(e, 4)) && Holds(key, r, 5, At(e, 5)) && Holds(key, r, 6, At(e, 6)) && Holds(key, r, 7, At(e, 7));
    WordHeld(key, r, 4, e.w4);
    WordHeld(key, r, 5, e.w5);
    WordHeld(key, r, 6, e.w6);
    WordHeld(key, r, 7, e.w7);
    FourWords(Expansion(key), 2 * r + 1, Back(e));
  }

  function XorQuad(q: Quad, k: Quad): Quad {
    Quad(XorWord(q.c0, k.c0), XorWord(q.c1, k.c1), XorWord(q.c2, k.c2), XorWord(q.c3, k.c3))
  }

  function SubQuad(q: Quad): Quad {
    Quad(SubWord(q.c0), SubWord(q.c1), SubWord(q.c2), SubWord(q.c3))
  }

  function ShiftQuad(q: Quad): Quad {
    Quad(Word(q.c0.b0, q.c1.b1, q.c2.b2, q.c3.b3), Word(q.c1.b0, q.c2.b1, q.c3.b2, q.c0.b3),
         Word(q.c2.b0, q.c3.b1, q.c0.b2, q.c1.b3), Word(q.c3.b0, q.c0.b1, q.c1.b2, q.c2.b3))
  }

  function MixWord(a: Word): Word {
    Word(MixByte(a.b0, a.b1, a.b2, a.b3), MixByte(a.b1, a.b2, a.b3, a.b0),
         MixByte(a.b2, a.b3, a.b0, a.b1), MixByte(a.b3, a.b0, a.b1, a.b2))
  }

  function MixQuad(q: Quad): Quad {
    Quad(MixWord(q.c0), MixWord(q.c1), MixWord(q.c2), MixWord(q.c3))
  }

  lemma {:induction false} XorColumns(s: State, t: State)
    ensures Columns(Xor(s, t)) == XorQuad(Columns(s), Columns(t))
  {
  }

  lemma {:induction false} SubColumns(s: State)
    ensures Columns(SubBytes(s)) == SubQuad(Columns(s))
  {
  }

  lemma {:induction false} ShiftColumns(s: State)
    ensures Columns(ShiftRows(s)) == ShiftQuad(Columns(s))
  {
  }

  /** A column turned once, twice and three times is mixed by the same function. */
  lemma {:induction false} MixedAt(s: State, k0: nat, k1: nat, k2: nat, k3: nat)
    requires Circle(k0, k1, k2, k3)
    ensures MixColumns(s)[k0] == MixByte(s[k0], s[k1], s[k2], s[k3])
  {
  }

  lemma {:induction false} MixedWord(s: State, c: nat)
    requires c == 0 || c == 4 || c == 8 || c == 12
    ensures var m := MixColumns(s);
            Word(m[c], m[c + 1], m[c + 2], m[c + 3]) == MixWord(Word(s[c], s[c + 1], s[c + 2], s[c + 3]))
  {
    MixedAt(s, c, c + 1, c + 2, c + 3);
    MixedAt(s, c + 1, c + 2, c + 3, c);
    MixedAt(s, c + 2, c + 3, c, c + 1);
    MixedAt(s, c + 3, c, c + 1, c + 2);
  }

  lemma {:induction false} MixedColumns(s: State)
    ensures Columns(MixColumns(s)) == MixQuad(Columns(s))
  {
    MixedWord(s, 0);
    MixedWord(s, 4);
    MixedWord(s, 8);
    MixedWord(s, 12);
  }

  /** A round from one state to the next: after the substitution `sub`, after the mixing `mixed`. */
  predicate OneRound(q: Quad, sub: Quad, mixed: Quad, k: Quad, next: Quad) {
    sub == SubQuad(q) && mixed == MixQuad(ShiftQuad(sub)) && next == XorQuad(mixed, k)
  }

  lemma {:induction false} RoundDone(s: State, w: Schedule, r: nat, q: Quad, sub: Quad, mixed: Quad, k: Quad, next: Quad)
    requires 0 < r < ROUNDS && Columns(Rounds(s, w, r - 1)) == q && Columns(RoundKey(w, r)) == k
    requires OneRound(q, sub, mixed, k, next)
    ensures Columns(Rounds(s, w, r)) == next
  {
    var a := Rounds(s, w, r - 1);
    SubColumns(a);
    ShiftColumns(SubBytes(a));
    MixedColumns(ShiftRows(SubBytes(a)));
    XorColumns(MixColumns(ShiftRows(SubBytes(a))), RoundKey(w, r));
  }

  // ---- Appendix A.3: words 8 to 15 and 56 to 59 ----

  const KEY_A: Key := [0x60, 0x3d, 0xeb, 0x10, 0x15, 0xca, 0x71, 0xbe, 0x2b, 0x73, 0xae, 0xf0, 0x85, 0x7d, 0x77, 0x81,
                       0x1f, 0x35, 0x2c, 0x07, 0x3b, 0x61, 0x08, 0xd7, 0x2d, 0x98, 0x10, 0xa3, 0x09, 0x14, 0xdf, 0xf4]

  const A0 := Eight(
    Word(0x60, 0x3d, 0xeb, 0x10), Word(0x15, 0xca, 0x71, 0xbe), Word(0x2b, 0x73, 0xae, 0xf0), Word(0x85, 0x7d, 0x77, 0x81),
    Word(0x1f, 0x35, 0x2c, 0x07), Word(0x3b, 0x61, 0x08, 0xd7), Word(0x2d, 0x98, 0x10, 0xa3), Word(0x09, 0x14, 0xdf, 0xf4))
  const A1 := Eight(
    Word(0x9b, 0xa3, 0x54, 0x11), Word(0x8e, 0x69, 0x25, 0xaf), Word(0xa5, 0x1a, 0x8b, 0x5f), Word(0x20, 0x67, 0xfc, 0xde),
    Word(0xa8, 0xb0, 0x9c, 0x1a), Word(0x93, 0xd1, 0x94, 0xcd), Word(0xbe, 0x49, 0x84, 0x6e), Word(0xb7, 0x5d, 0x5b, 0x9a))
  const A2 := Eight(
    Word(0xd5, 0x9a, 0xec, 0xb8), Word(0x5b, 0xf3, 0xc9, 0x17), Word(0xfe, 0xe9, 0x42, 0x48), Word(0xde, 0x8e, 0xbe, 0x96),
    Word(0xb5, 0xa9, 0x32, 0x8a), Word(0x26, 0x78, 0xa6, 0x47), Word(0x98, 0x31, 0x22, 0x29), Word(0x2f, 0x6c, 0x79, 0xb3))
  const A3 := Eight(
    Word(0x81, 0x2c, 0x81, 0xad), Word(0xda, 0xdf, 0x48, 0xba), Word(0x24, 0x36, 0x0a, 0xf2), Word(0xfa, 0xb8, 0xb4, 0x64),
    Word(0x98, 0xc5, 0xbf, 0xc9), Word(0xbe, 0xbd, 0x19, 0x8e), Word(0x26, 0x8c, 0x3b, 0xa7), Word(0x09, 0xe0, 0x42, 0x14))
  const A4 := Eight(
    Word(0x68, 0x00, 0x7b, 0xac), Word(0xb2, 0xdf, 0x33, 0x16), Word(0x96, 0xe9, 0x39, 0xe4), Word(0x6c, 0x51, 0x8d, 0x80),
    Word(0xc8, 0x14, 0xe2, 0x04), Word(0x76, 0xa9, 0xfb, 0x8a), Word(0x50, 0x25, 0xc0, 0x2d), Word(0x59, 0xc5, 0x82, 0x39))
  const A5 := Eight(
    Word(0xde, 0x13, 0x69, 0x67), Word(0x6c, 0xcc, 0x5a, 0x71), Word(0xfa, 0x25, 0x63, 0x95), Word(0x96, 0x74, 0xee, 0x15),
    Word(0x58, 0x86, 0xca, 0x5d), Word(0x2e, 0x2f, 0x31, 0xd7), Word(0x7e, 0x0a, 0xf1, 0xfa), Word(0x27, 0xcf, 0x73, 0xc3))
  const A6 := Eight(
    Word(0x74, 0x9c, 0x47, 0xab), Word(0x18, 0x50, 0x1d, 0xda), Word(0xe2, 0x75, 0x7e, 0x4f), Word(0x74, 0x01, 0x90, 0x5a),
    Word(0xca, 0xfa, 0xaa, 0xe3), Word(0xe4, 0xd5, 0x9b, 0x34), Word(0x9a, 0xdf, 0x6a, 0xce), Word(0xbd, 0x10, 0x19, 0x0d))
  // the schedule ends in the middle of this row
  const A7 := Eight(
    Word(0xfe, 0x48, 0x90, 0xd1), Word(0xe6, 0x18, 0x8d, 0x0b), Word(0x04, 0x6d, 0xf3, 0x44), Word(0x70, 0x6c, 0x63, 0x1e),
    Word(0x9b, 0xaa, 0x51, 0x91), Word(0x7f, 0x7f, 0xca, 0xa5), Word(0xe5, 0xa0, 0xa0, 0x6b), Word(0x58, 0xb0, 0xb9, 0x66))

  lemma {:induction false} FirstA0()
    ensures Holds(KEY_A, 0, 0, A0.w0) && Holds(KEY_A, 0, 1, A0.w1)
  {
    KeyHeld(KEY_A, 0, A0.w0);
    KeyHeld(KEY_A, 1, A0.w1);
  }

  lemma {:induction false} FirstA1()
    ensures Holds(KEY_A, 0, 2, A0.w2) && Holds(KEY_A, 0, 3, A0.w3)
  {
    KeyHeld(KEY_A, 2, A0.w2);
    KeyHeld(KEY_A, 3, A0.w3);
  }

  lemma {:induction false} FirstA2()
    ensures Holds(KEY_A, 0, 4, A0.w4) && Holds(KEY_A, 0, 5, A0.w5)
  {
    KeyHeld(KEY_A, 4, A0.w4);
    KeyHeld(KEY_A, 5, A0.w5);
  }

  lemma {:induction false} FirstA3()
    ensures Holds(KEY_A, 0, 6, A0.w6) && Holds(KEY_A, 0, 7, A0.w7)
  {
    KeyHeld(KEY_A, 6, A0.w6);
    KeyHeld(KEY_A, 7, A0.w7);
  }

  lemma {:induction false} FirstA()
    ensures RowIs(KEY_A, 0, A0, 8)
  {
    FirstA0();
    FirstA1();
    FirstA2();
    FirstA3();
    EightHeld(KEY_A, 0, A0);
  }

  lemma {:induction false} ARule1()
    ensures Follows(A0, 0x01, Word(0xfb, 0x9e, 0xbf, 0x01), Word(0xb7, 0x85, 0xb0, 0x1d), A1)
  {
  }

  lemma {:induction false} ARule2()
    ensures Follows(A1, 0x02, Word(0x4e, 0x39, 0xb8, 0xa9), Word(0x1d, 0x19, 0xae, 0x90), A2)
  {
  }

  lemma {:induction false} ARule3()
    ensures Follows(A2, 0x04, Word(0x54, 0xb6, 0x6d, 0x15), Word(0x2d, 0x6c, 0x8d, 0x43), A3)
  {
  }

  lemma {:induction false} ARule4()
    ensures Follows(A3, 0x08, Word(0xe9, 0x2c, 0xfa, 0x01), Word(0x50, 0xd1, 0x5d, 0xcd), A4)
  {
  }

  lemma {:induction false} ARule5()
    ensures Follows(A4, 0x10, Word(0xb6, 0x13, 0x12, 0xcb), Word(0x90, 0x92, 0x28, 0x59), A5)
  {
  }

  lemma {:induction false} ARule6()
    ensures Follows(A5, 0x20, Word(0xaa, 0x8f, 0x2e, 0xcc), Word(0x92, 0x7c, 0x60, 0xbe), A6)
  {
  }

  lemma {:induction false} ARule7()
    ensures Follows(A6, 0x40, Word(0x8a, 0xd4, 0xd7, 0x7a), Word(0x51, 0x50, 0xfb, 0x72), A7)
  {
  }

  lemma {:induction false} RowsA()
    ensures RowIs(KEY_A, 0, A0, 8) && RowIs(KEY_A, 1, A1, 8) && RowIs(KEY_A, 2, A2, 8) && RowIs(KEY_A, 3, A3, 8)
    ensures RowIs(KEY_A, 4, A4, 8) && RowIs(KEY_A, 5, A5, 8) && RowIs(KEY_A, 6, A6, 8) && RowIs(KEY_A, 7, A7, 4)
  {
    Constants();
    FirstA();
    ARule1();
    NextRow(KEY_A, 0, A0, 0x01, Word(0xfb, 0x9e, 0xbf, 0x01), Word(0xb7, 0x85, 0xb0, 0x1d), A1);
    ARule2();
    NextRow(KEY_A, 1, A1, 0x02, Word(0x4e, 0x39, 0xb8, 0xa9), Word(0x1d, 0x19, 0xae, 0x90), A2);
    ARule3();
    NextRow(KEY_A, 2, A2, 0x04, Word(0x54, 0xb6, 0x6d, 0x15), Word(0x2d, 0x6c, 0x8d, 0x43), A3);
    ARule4();
    NextRow(KEY_A, 3, A3, 0x08, Word(0xe9, 0x2c, 0xfa, 0x01), Word(0x50, 0xd1, 0x5d, 0xcd), A4);
    ARule5();
    NextRow(KEY_A, 4, A4, 0x10, Word(0xb6, 0x13, 0x12, 0xcb), Word(0x90, 0x92, 0x28, 0x59), A5);
    ARule6();
    NextRow(KEY_A, 5, A5, 0x20, Word(0xaa, 0x8f, 0x2e, 0xcc), Word(0x92, 0x7c, 0x60, 0xbe), A6);
    ARule7();
    NextHalf(KEY_A, 6, A6, 0x40, Word(0x8a, 0xd4, 0xd7, 0x7a), Word(0x51, 0x50, 0xfb, 0x72), A7);
  }

  lemma {:induction false} RoundKeyA2(w: Schedule)
    requires Columns(RoundKey(w, 2)) == Front(A1)
    ensures w[32..48]
         == [0x9b, 0xa3, 0x54, 0x11, 0x8e, 0x69, 0x25, 0xaf, 0xa5, 0x1a, 0x8b, 0x5f, 0x20, 0x67, 0xfc, 0xde]
  {
    SameColumns(RoundKey(w, 2),
                [0x9b, 0xa3, 0x54, 0x11, 0x8e, 0x69, 0x25, 0xaf, 0xa5, 0x1a, 0x8b, 0x5f, 0x20, 0x67, 0xfc, 0xde]);
  }

  lemma {:induction false} RoundKeyA3(w: Schedule)
    requires Columns(RoundKey(w, 3)) == Back(A1)
    ensures w[48..64]
         == [0xa8, 0xb0, 0x9c, 0x1a, 0x93, 0xd1, 0x94, 0xcd, 0xbe, 0x49, 0x84, 0x6e, 0xb7, 0x5d, 0x5b, 0x9a]
  {
    SameColumns(RoundKey(w, 3),
                [0xa8, 0xb0, 0x9c, 0x1a, 0x93, 0xd1, 0x94, 0xcd, 0xbe, 0x49, 0x84, 0x6e, 0xb7, 0x5d, 0x5b, 0x9a]);
  }

  lemma {:induction false} RoundKeyA14(w: Schedule)
    requires Columns(RoundKey(w, 14)) == Front(A7)
    ensures w[224..240]
         == [0xfe, 0x48, 0x90, 0xd1, 0xe6, 0x18, 0x8d, 0x0b, 0x04, 0x6d, 0xf3, 0x44, 0x70, 0x6c, 0x63, 0x1e]
  {
    SameColumns(RoundKey(w, 14),
                [0xfe, 0x48, 0x90, 0xd1, 0xe6, 0x18, 0x8d, 0x0b, 0x04, 0x6d, 0xf3, 0x44, 0x70, 0x6c, 0x63, 0x1e]);
  }

  /** Bytes 32 to 63 and the last 16 of the schedule of the key of appendix A.3. */
  lemma {:induction false} ScheduleKnown()
    ensures Expansion(KEY_A)[32..48]
         == [0x9b, 0xa3, 0x54, 0x11, 0x8e, 0x69, 0x25, 0xaf, 0xa5, 0x1a, 0x8b, 0x5f, 0x20, 0x67, 0xfc, 0xde]
    ensures Expansion(KEY_A)[48..64]
         == [0xa8, 0xb0, 0x9c, 0x1a, 0x93, 0xd1, 0x94, 0xcd, 0xbe, 0x49, 0x84, 0x6e, 0xb7, 0x5d, 0x5b, 0x9a]
    ensures Expansion(KEY_A)[224..240]
         == [0xfe, 0x48, 0x90, 0xd1, 0xe6, 0x18, 0x8d, 0x0b, 0x04, 0x6d, 0xf3, 0x44, 0x70, 0x6c, 0x63, 0x1e]
  {
    RowsA();
    FrontRoundKey(KEY_A, 1, A1, 8);
    BackRoundKey(KEY_A, 1, A1);
    FrontRoundKey(KEY_A, 7, A7, 4);
    RoundKeyA2(Expansion(KEY_A));
    RoundKeyA3(Expansion(KEY_A));
    RoundKeyA14(Expansion(KEY_A));
  }

  // ---- Appendix C.3 ----

  const KEY_C: Key := [0x00, 0x01, 0x02, 0x03, 0x04, 0x05, 0x06, 0x07, 0x08, 0x09, 0x0a, 0x0b, 0x0c, 0x0d, 0x0e, 0x0f,
                       0x10, 0x11, 0x12, 0x13, 0x14, 0x15, 0x16, 0x17, 0x18, 0x19, 0x1a, 0x1b, 0x1c, 0x1d, 0x1e, 0x1f]

  const C0 := Eight(
    Word(0x00, 0x01, 0x02, 0x03), Word(0x04, 0x05, 0x06, 0x07), Word(0x08, 0x09, 0x0a, 0x0b), Word(0x0c, 0x0d, 0x0e, 0x0f),
    Word(0x10, 0x11, 0x12, 0x13), Word(0x14, 0x15, 0x16, 0x17), Word(0x18, 0x19, 0x1a, 0x1b), Word(0x1c, 0x1d, 0x1e, 0x1f))
  const C1 := Eight(
    Word(0xa5, 0x73, 0xc2, 0x9f), Word(0xa1, 0x76, 0xc4, 0x98), Word(0xa9, 0x7f, 0xce, 0x93), Word(0xa5, 0x72, 0xc0, 0x9c),
    Word(0x16, 0x51, 0xa8, 0xcd), Word(0x02, 0x44, 0xbe, 0xda), Word(0x1a, 0x5d, 0xa4, 0xc1), Word(0x06, 0x40, 0xba, 0xde))
  const C2 := Eight(
    Word(0xae, 0x87, 0xdf, 0xf0), Word(0x0f, 0xf1, 0x1b, 0x68), Word(0xa6, 0x8e, 0xd5, 0xfb), Word(0x03, 0xfc, 0x15, 0x67),
    Word(0x6d, 0xe1, 0xf1, 0x48), Word(0x6f, 0xa5, 0x4f, 0x92), Word(0x75, 0xf8, 0xeb, 0x53), Word(0x73, 0xb8, 0x51, 0x8d))
  const C3 := Eight(
    Word(0xc6, 0x56, 0x82, 0x7f), Word(0xc9, 0xa7, 0x99, 0x17), Word(0x6f, 0x29, 0x4c, 0xec), Word(0x6c, 0xd5, 0x59, 0x8b),
    Word(0x3d, 0xe2, 0x3a, 0x75), Word(0x52, 0x47, 0x75, 0xe7), Word(0x27, 0xbf, 0x9e, 0xb4), Word(0x54, 0x07, 0xcf, 0x39))
  const C4 := Eight(
    Word(0x0b, 0xdc, 0x90, 0x5f), Word(0xc2, 0x7b, 0x09, 0x48), Word(0xad, 0x52, 0x45, 0xa4), Word(0xc1, 0x87, 0x1c, 0x2f),
    Word(0x45, 0xf5, 0xa6, 0x60), Word(0x17, 0xb2, 0xd3, 0x87), Word(0x30, 0x0d, 0x4d, 0x33), Word(0x64, 0x0a, 0x82, 0x0a))
  const C5 := Eight(
    Word(0x7c, 0xcf, 0xf7, 0x1c), Word(0xbe, 0xb4, 0xfe, 0x54), Word(0x13, 0xe6, 0xbb, 0xf0), Word(0xd2, 0x61, 0xa7, 0xdf),
    Word(0xf0, 0x1a, 0xfa, 0xfe), Word(0xe7, 0xa8, 0x29, 0x79), Word(0xd7, 0xa5, 0x64, 0x4a), Word(0xb3, 0xaf, 0xe6, 0x40))
  const C6 := Eight(
    Word(0x25, 0x41, 0xfe, 0x71), Word(0x9b, 0xf5, 0x00, 0x25), Word(0x88, 0x13, 0xbb, 0xd5), Word(0x5a, 0x72, 0x1c, 0x0a),
    Word(0x4e, 0x5a, 0x66, 0x99), Word(0xa9, 0xf2, 0x4f, 0xe0), Word(0x7e, 0x57, 0x2b, 0xaa), Word(0xcd, 0xf8, 0xcd, 0xea))
  // the schedule ends in the middle of this row
  const C7 := Eight(
    Word(0x24, 0xfc, 0x79, 0xcc), Word(0xbf, 0x09, 0x79, 0xe9), Word(0x37, 0x1a, 0xc2, 0x3c), Word(0x6d, 0x68, 0xde, 0x36),
    Word(0x72, 0x1f, 0x7b, 0x9c), Word(0xdb, 0xed, 0x34, 0x7c), Word(0xa5, 0xba, 0x1f, 0xd6), Word(0x68, 0x42, 0xd2, 0x3c))

  lemma {:induction false} FirstC0()
    ensures Holds(KEY_C, 0, 0, C0.w0) && Holds(KEY_C, 0, 1, C0.w1)
  {
    KeyHeld(KEY_C, 0, C0.w0);
    KeyHeld(KEY_C, 1, C0.w1);
  }

  lemma {:induction false} FirstC1()
    ensures Holds(KEY_C, 0, 2, C0.w2) && Holds(KEY_C, 0, 3, C0.w3)
  {
    KeyHeld(KEY_C, 2, C0.w2);
    KeyHeld(KEY_C, 3, C0.w3);
  }

  lemma {:induction false} FirstC2()
    ensures Holds(KEY_C, 0, 4, C0.w4) && Holds(KEY_C, 0, 5, C0.w5)
  {
    KeyHeld(KEY_C, 4, C0.w4);
    KeyHeld(KEY_C, 5, C0.w5);
  }

  lemma {:induction false} FirstC3()
    ensures Holds(KEY_C, 0, 6, C0.w6) && Holds(KEY_C, 0, 7, C0.w7)
  {
    KeyHeld(KEY_C, 6, C0.w6);
    KeyHeld(KEY_C, 7, C0.w7);
  }

  lemma {:induction false} FirstC()
    ensures RowIs(KEY_C, 0, C0, 8)
  {
    FirstC0();
    FirstC1();
    FirstC2();
    FirstC3();
    EightHeld(KEY_C, 0, C0);
  }

  lemma {:induction false} CRule1()
    ensures Follows(C0, 0x01, Word(0xa5, 0x72, 0xc0, 0x9c), Word(0x06, 0x40, 0xba, 0xde), C1)
  {
  }

  lemma {:induction false} CRule2()
    ensures Follows(C1, 0x02, Word(0x0b, 0xf4, 0x1d, 0x6f), Word(0x7b, 0xb0, 0x59, 0x85), C2)
  {
  }

  lemma {:induction false} CRule3()
    ensures Follows(C2, 0x04, Word(0x68, 0xd1, 0x5d, 0x8f), Word(0x50, 0x03, 0xcb, 0x3d), C3)
  {
  }

  lemma {:induction false} CRule4()
    ensures Follows(C3, 0x08, Word(0xcd, 0x8a, 0x12, 0x20), Word(0x78, 0x17, 0x9c, 0x15), C4)
  {
  }

  lemma {:induction false} CRule5()
    ensures Follows(C4, 0x10, Word(0x77, 0x13, 0x67, 0x43), Word(0xb5, 0xef, 0x5c, 0x9e), C5)
  {
  }

  lemma {:induction false} CRule6()
    ensures Follows(C5, 0x20, Word(0x59, 0x8e, 0x09, 0x6d), Word(0xbe, 0x40, 0x9c, 0x67), C6)
  {
  }

  lemma {:induction false} CRule7()
    ensures Follows(C6, 0x40, Word(0x01, 0xbd, 0x87, 0xbd), Word(0x3c, 0x45, 0x1d, 0x05), C7)
  {
  }

  lemma {:induction false} RowsC()
    ensures RowIs(KEY_C, 0, C0, 8) && RowIs(KEY_C, 1, C1, 8) && RowIs(KEY_C, 2, C2, 8) && RowIs(KEY_C, 3, C3, 8)
    ensures RowIs(KEY_C, 4, C4, 8) && RowIs(KEY_C, 5, C5, 8) && RowIs(KEY_C, 6, C6, 8) && RowIs(KEY_C, 7, C7, 4)
  {
    Constants();
    FirstC();
    CRule1();
    NextRow(KEY_C, 0, C0, 0x01, Word(0xa5, 0x72, 0xc0, 0x9c), Word(0x06, 0x40, 0xba, 0xde), C1);
    CRule2();
    NextRow(KEY_C, 1, C1, 0x02, Word(0x0b, 0xf4, 0x1d, 0x6f), Word(0x7b, 0xb0, 0x59, 0x85), C2);
    CRule3();
    NextRow(KEY_C, 2, C2, 0x04, Word(0x68, 0xd1, 0x5d, 0x8f), Word(0x50, 0x03, 0xcb, 0x3d), C3);
    CRule4();
    NextRow(KEY_C, 3, C3, 0x08, Word(0xcd, 0x8a, 0x12, 0x20), Word(0x78, 0x17, 0x9c, 0x15), C4);
    CRule5();
    NextRow(KEY_C, 4, C4, 0x10, Word(0x77, 0x13, 0x67, 0x43), Word(0xb5, 0xef, 0x5c, 0x9e), C5);
    CRule6();
    NextRow(KEY_C, 5, C5, 0x20, Word(0x59, 0x8e, 0x09, 0x6d), Word(0xbe, 0x40, 0x9c, 0x67), C6);
    CRule7();
    NextHalf(KEY_C, 6, C6, 0x40, Word(0x01, 0xbd, 0x87, 0xbd), Word(0x3c, 0x45, 0x1d, 0x05), C7);
  }

  const S0 :=
    Quad(Word(0x00, 0x10, 0x20, 0x30), Word(0x40, 0x50, 0x60, 0x70), Word(0x80, 0x90, 0xa0, 0xb0), Word(0xc0, 0xd0, 0xe0, 0xf0))
  const S1 :=
    Quad(Word(0x4f, 0x63, 0x76, 0x06), Word(0x43, 0xe0, 0xaa, 0x85), Word(0xef, 0xa7, 0x21, 0x32), Word(0x01, 0xa4, 0xe7, 0x05))
  const S2 :=
    Quad(Word(0x18, 0x59, 0xfb, 0xc2), Word(0x8a, 0x1c, 0x00, 0xa0), Word(0x78, 0xed, 0x8a, 0xad), Word(0xc4, 0x2f, 0x61, 0x09))
  const S3 :=
    Quad(Word(0x97, 0x5c, 0x66, 0xc1), Word(0xcb, 0x9f, 0x3f, 0xa8), Word(0xa9, 0x3a, 0x28, 0xdf), Word(0x8e, 0xe1, 0x0f, 0x63))
  const S4 :=
    Quad(Word(0x1c, 0x05, 0xf2, 0x71), Word(0xa4, 0x17, 0xe0, 0x4f), Word(0xf9, 0x21, 0xc5, 0xc1), Word(0x04, 0x70, 0x15, 0x54))
  const S5 :=
    Quad(Word(0xc3, 0x57, 0xaa, 0xe1), Word(0x1b, 0x45, 0xb7, 0xb0), Word(0xa2, 0xc7, 0xbd, 0x28), Word(0xa8, 0xdc, 0x99, 0xfa))
  const S6 :=
    Quad(Word(0x7f, 0x07, 0x41, 0x43), Word(0xcb, 0x4e, 0x24, 0x3e), Word(0xc1, 0x0c, 0x81, 0x5d), Word(0x83, 0x75, 0xd5, 0x4c))
  const S7 :=
    Quad(Word(0xd6, 0x53, 0xa4, 0x69), Word(0x6c, 0xa0, 0xbc, 0x0f), Word(0x5a, 0xca, 0xab, 0x5d), Word(0xb9, 0x6c, 0x5e, 0x7d))
  const S8 :=
    Quad(Word(0x5a, 0xa8, 0x58, 0x39), Word(0x5f, 0xd2, 0x8d, 0x7d), Word(0x05, 0xe1, 0xa3, 0x88), Word(0x68, 0xf3, 0xb9, 0xc5))
  const S9 :=
    Quad(Word(0x4a, 0x82, 0x48, 0x51), Word(0xc5, 0x7e, 0x7e, 0x47), Word(0x64, 0x3d, 0xe5, 0x0c), Word(0x2a, 0xf3, 0xe8, 0xc9))
  const S10 :=
    Quad(Word(0xc1, 0x49, 0x07, 0xf6), Word(0xca, 0x3b, 0x3a, 0xa0), Word(0x70, 0xe9, 0xaa, 0x31), Word(0x3b, 0x52, 0xb5, 0xec))
  const S11 :=
    Quad(Word(0x5f, 0x9c, 0x6a, 0xbf), Word(0xba, 0xc6, 0x34, 0xaa), Word(0x50, 0x40, 0x9f, 0xa7), Word(0x66, 0x67, 0x76, 0x53))
  const S12 :=
    Quad(Word(0x51, 0x66, 0x04, 0x95), Word(0x43, 0x53, 0x95, 0x03), Word(0x14, 0xfb, 0x86, 0xe4), Word(0x01, 0x92, 0x25, 0x21))
  const S13 :=
    Quad(Word(0x62, 0x7b, 0xce, 0xb9), Word(0x99, 0x9d, 0x5a, 0xaa), Word(0xc9, 0x45, 0xec, 0xf4), Word(0x23, 0xf5, 0x6d, 0xa5))

  const U1 :=
    Quad(Word(0x63, 0xca, 0xb7, 0x04), Word(0x09, 0x53, 0xd0, 0x51), Word(0xcd, 0x60, 0xe0, 0xe7), Word(0xba, 0x70, 0xe1, 0x8c))
  const M1 :=
    Quad(Word(0x5f, 0x72, 0x64, 0x15), Word(0x57, 0xf5, 0xbc, 0x92), Word(0xf7, 0xbe, 0x3b, 0x29), Word(0x1d, 0xb9, 0xf9, 0x1a))

  lemma {:induction false} Round1()
    ensures OneRound(S0, U1, M1, Back(C0), S1)
  {
  }

  const U2 :=
    Quad(Word(0x84, 0xfb, 0x38, 0x6f), Word(0x1a, 0xe1, 0xac, 0x97), Word(0xdf, 0x5c, 0xfd, 0x23), Word(0x7c, 0x49, 0x94, 0x6b))
  const M2 :=
    Quad(Word(0xbd, 0x2a, 0x39, 0x5d), Word(0x2b, 0x6a, 0xc4, 0x38), Word(0xd1, 0x92, 0x44, 0x3e), Word(0x61, 0x5d, 0xa1, 0x95))

  lemma {:induction false} Round2()
    ensures OneRound(S1, U2, M2, Front(C1), S2)
  {
  }

  const U3 :=
    Quad(Word(0xad, 0xcb, 0x0f, 0x25), Word(0x7e, 0x9c, 0x63, 0xe0), Word(0xbc, 0x55, 0x7e, 0x95), Word(0x1c, 0x15, 0xef, 0x01))
  const M3 :=
    Quad(Word(0x81, 0x0d, 0xce, 0x0c), Word(0xc9, 0xdb, 0x81, 0x72), Word(0xb3, 0x67, 0x8c, 0x1e), Word(0x88, 0xa1, 0xb5, 0xbd))

  lemma {:induction false} Round3()
    ensures OneRound(S2, U3, M3, Back(C1), S3)
  {
  }

  const U4 :=
    Quad(Word(0x88, 0x4a, 0x33, 0x78), Word(0x1f, 0xdb, 0x75, 0xc2), Word(0xd3, 0x80, 0x34, 0x9e), Word(0x19, 0xf8, 0x76, 0xfb))
  const M4 :=
    Quad(Word(0xb2, 0x82, 0x2d, 0x81), Word(0xab, 0xe6, 0xfb, 0x27), Word(0x5f, 0xaf, 0x10, 0x3a), Word(0x07, 0x8c, 0x00, 0x33))

  lemma {:induction false} Round4()
    ensures OneRound(S3, U4, M4, Front(C2), S4)
  {
  }

  const U5 :=
    Quad(Word(0x9c, 0x6b, 0x89, 0xa3), Word(0x49, 0xf0, 0xe1, 0x84), Word(0x99, 0xfd, 0xa6, 0x78), Word(0xf2, 0x51, 0x59, 0x20))
  const M5 :=
    Quad(Word(0xae, 0xb6, 0x5b, 0xa9), Word(0x74, 0xe0, 0xf8, 0x22), Word(0xd7, 0x3f, 0x56, 0x7b), Word(0xdb, 0x64, 0xc8, 0x77))

  lemma {:induction false} Round5()
    ensures OneRound(S4, U5, M5, Back(C2), S5)
  {
  }

  const U6 :=
    Quad(Word(0x2e, 0x5b, 0xac, 0xf8), Word(0xaf, 0x6e, 0xa9, 0xe7), Word(0x3a, 0xc6, 0x7a, 0x34), Word(0xc2, 0x86, 0xee, 0x2d))
  const M6 :=
    Quad(Word(0xb9, 0x51, 0xc3, 0x3c), Word(0x02, 0xe9, 0xbd, 0x29), Word(0xae, 0x25, 0xcd, 0xb1), Word(0xef, 0xa0, 0x8c, 0xc7))

  lemma {:induction false} Round6()
    ensures OneRound(S5, U6, M6, Front(C3), S6)
  {
  }

  const U7 :=
    Quad(Word(0xd2, 0xc5, 0x83, 0x1a), Word(0x1f, 0x2f, 0x36, 0xb2), Word(0x78, 0xfe, 0x0c, 0x4c), Word(0xec, 0x9d, 0x03, 0x29))
  const M7 :=
    Quad(Word(0xeb, 0xb1, 0x9e, 0x1c), Word(0x3e, 0xe7, 0xc9, 0xe8), Word(0x7d, 0x75, 0x35, 0xe9), Word(0xed, 0x6b, 0x91, 0x44))

  lemma {:induction false} Round7()
    ensures OneRound(S6, U7, M7, Back(C3), S7)
  {
  }

  const U8 :=
    Quad(Word(0xf6, 0xed, 0x49, 0xf9), Word(0x50, 0xe0, 0x65, 0x76), Word(0xbe, 0x74, 0x62, 0x4c), Word(0x56, 0x50, 0x58, 0xff))
  const M8 :=
    Quad(Word(0x51, 0x74, 0xc8, 0x66), Word(0x9d, 0xa9, 0x84, 0x35), Word(0xa8, 0xb3, 0xe6, 0x2c), Word(0xa9, 0x74, 0xa5, 0xea))

  lemma {:induction false} Round8()
    ensures OneRound(S7, U8, M8, Front(C4), S8)
  {
  }

  const U9 :=
    Quad(Word(0xbe, 0xc2, 0x6a, 0x12), Word(0xcf, 0xb5, 0x5d, 0xff), Word(0x6b, 0xf8, 0x0a, 0xc4), Word(0x45, 0x0d, 0x56, 0xa6))
  const M9 :=
    Quad(Word(0x0f, 0x77, 0xee, 0x31), Word(0xd2, 0xcc, 0xad, 0xc0), Word(0x54, 0x30, 0xa8, 0x3f), Word(0x4e, 0xf9, 0x6a, 0xc3))

  lemma {:induction false} Round9()
    ensures OneRound(S8, U9, M9, Back(C4), S9)
  {
  }

  const U10 :=
    Quad(Word(0xd6, 0x13, 0x52, 0xd1), Word(0xa6, 0xf3, 0xf3, 0xa0), Word(0x43, 0x27, 0xd9, 0xfe), Word(0xe5, 0x0d, 0x9b, 0xdd))
  const M10 :=
    Quad(Word(0xbd, 0x86, 0xf0, 0xea), Word(0x74, 0x8f, 0xc4, 0xf4), Word(0x63, 0x0f, 0x11, 0xc1), Word(0xe9, 0x33, 0x12, 0x33))

  lemma {:induction false} Round10()
    ensures OneRound(S9, U10, M10, Front(C5), S10)
  {
  }

  const U11 :=
    Quad(Word(0x78, 0x3b, 0xc5, 0x42), Word(0x74, 0xe2, 0x80, 0xe0), Word(0x51, 0x1e, 0xac, 0xc7), Word(0xe2, 0x00, 0xd5, 0xce))
  const M11 :=
    Quad(Word(0xaf, 0x86, 0x90, 0x41), Word(0x5d, 0x6e, 0x1d, 0xd3), Word(0x87, 0xe5, 0xfb, 0xed), Word(0xd5, 0xc8, 0x90, 0x13))

  lemma {:induction false} Round11()
    ensures OneRound(S10, U11, M11, Back(C5), S11)
  {
  }

  const U12 :=
    Quad(Word(0xcf, 0xde, 0x02, 0x08), Word(0xf4, 0xb4, 0x18, 0xac), Word(0x53, 0x09, 0xdb, 0x5c), Word(0x33, 0x85, 0x38, 0xed))
  const M12 :=
    Quad(Word(0x74, 0x27, 0xfa, 0xe4), Word(0xd8, 0xa6, 0x95, 0x26), Word(0x9c, 0xe8, 0x3d, 0x31), Word(0x5b, 0xe0, 0x39, 0x2b))

  lemma {:induction false} Round12()
    ensures OneRound(S11, U12, M12, Front(C6), S12)
  {
  }

  const U13 :=
    Quad(Word(0xd1, 0x33, 0xf2, 0x2a), Word(0x1a, 0xed, 0x2a, 0x7b), Word(0xfa, 0x0f, 0x44, 0x69), Word(0x7c, 0x4f, 0x3f, 0xfd))
  const M13 :=
    Quad(Word(0x2c, 0x21, 0xa8, 0x20), Word(0x30, 0x6f, 0x15, 0x4a), Word(0xb7, 0x12, 0xc7, 0x5e), Word(0xee, 0x0d, 0xa0, 0x4f))

  lemma {:induction false} Round13()
    ensures OneRound(S12, U13, M13, Back(C6), S13)
  {
  }

  const U14 :=
    Quad(Word(0xaa, 0x21, 0x8b, 0x56), Word(0xee, 0x5e, 0xbe, 0xac), Word(0xdd, 0x6e, 0xce, 0xbf), Word(0x26, 0xe6, 0x3c, 0x06))
  const S14 :=
    Quad(Word(0x8e, 0xa2, 0xb7, 0xca), Word(0x51, 0x67, 0x45, 0xbf), Word(0xea, 0xfc, 0x49, 0x90), Word(0x4b, 0x49, 0x60, 0x89))

  lemma {:induction false} Round14()
    ensures U14 == SubQuad(S13) && S14 == XorQuad(ShiftQuad(U14), Front(C7))
  {
  }

  const PLAIN: State := [0x00, 0x11, 0x22, 0x33, 0x44, 0x55, 0x66, 0x77, 0x88, 0x99, 0xaa, 0xbb, 0xcc, 0xdd, 0xee, 0xff]

  predicate FirstKeys(w: Schedule) {
    && Columns(RoundKey(w, 0)) == Front(C0)
    && Columns(RoundKey(w, 1)) == Back(C0)
    && Columns(RoundKey(w, 2)) == Front(C1)
    && Columns(RoundKey(w, 3)) == Back(C1)
    && Columns(RoundKey(w, 4)) == Front(C2)
    && Columns(RoundKey(w, 5)) == Back(C2)
    && Columns(RoundKey(w, 6)) == Front(C3)
    && Columns(RoundKey(w, 7)) == Back(C3)
  }

  predicate LastKeys(w: Schedule) {
    && Columns(RoundKey(w, 8)) == Front(C4)
    && Columns(RoundKey(w, 9)) == Back(C4)
    && Columns(RoundKey(w, 10)) == Front(C5)
    && Columns(RoundKey(w, 11)) == Back(C5)
    && Columns(RoundKey(w, 12)) == Front(C6)
    && Columns(RoundKey(w, 13)) == Back(C6)
    && Columns(RoundKey(w, 14)) == Front(C7)
  }

  predicate KnownKeys(w: Schedule) {
    FirstKeys(w) && LastKeys(w)
  }

  lemma {:induction false} KeysOfC0(key: Key)
    requires RowIs(key, 0, C0, 8)
    ensures Columns(RoundKey(Expansion(key), 0)) == Front(C0)
    ensures Columns(RoundKey(Expansion(key), 1)) == Back(C0)
  {
    FrontRoundKey(key, 0, C0, 8);
    BackRoundKey(key, 0, C0);
  }

  lemma {:induction false} KeysOfC1(key: Key)
    requires RowIs(key, 1, C1, 8)
    ensures Columns(RoundKey(Expansion(key), 2)) == Front(C1)
    ensures Columns(RoundKey(Expansion(key), 3)) == Back(C1)
  {
    FrontRoundKey(key, 1, C1, 8);
    BackRoundKey(key, 1, C1);
  }

  lemma {:induction false} KeysOfC2(key: Key)
    requires RowIs(key, 2, C2, 8)
    ensures Columns(RoundKey(Expansion(key), 4)) == Front(C2)
    ensures Columns(RoundKey(Expansion(key), 5)) == Back(C2)
  {
    FrontRoundKey(key, 2, C2, 8);
    BackRoundKey(key, 2, C2);
  }

  lemma {:induction false} KeysOfC3(key: Key)
    requires RowIs(key, 3, C3, 8)
    ensures Columns(RoundKey(Expansion(key), 6)) == Front(C3)
    ensures Columns(RoundKey(Expansion(key), 7)) == Back(C3)
  {
    FrontRoundKey(key, 3, C3, 8);
    BackRoundKey(key, 3, C3);
  }

  lemma {:induction false} KeysOfC4(key: Key)
    requires RowIs(key, 4, C4, 8)
    ensures Columns(RoundKey(Expansion(key), 8)) == Front(C4)
    ensures Columns(RoundKey(Expansion(key), 9)) == Back(C4)
  {
    FrontRoundKey(key, 4, C4, 8);
    BackRoundKey(key, 4, C4);
  }

  lemma {:induction false} KeysOfC5(key: Key)
    requires RowIs(key, 5, C5, 8)
    ensures Columns(RoundKey(Expansion(key), 10)) == Front(C5)
    ensures Columns(RoundKey(Expansion(key), 11)) == Back(C5)
  {
    FrontRoundKey(key, 5, C5, 8);
    BackRoundKey(key, 5, C5);
  }

  lemma {:induction false} KeysOfC6(key: Key)
    requires RowIs(key, 6, C6, 8)
    ensures Columns(RoundKey(Expansion(key), 12)) == Front(C6)
    ensures Columns(RoundKey(Expansion(key), 13)) == Back(C6)
  {
    FrontRoundKey(key, 6, C6, 8);
    BackRoundKey(key, 6, C6);
  }

  lemma {:induction false} KeysOfC7(key: Key)
    requires RowIs(key, 7, C7, 4)
    ensures Columns(RoundKey(Expansion(key), 14)) == Front(C7)
  {
    FrontRoundKey(key, 7, C7, 4);
  }

  lemma {:induction false} KeysOfC(key: Key)
    requires RowIs(key, 0, C0, 8) && RowIs(key, 1, C1, 8) && RowIs(key, 2, C2, 8) && RowIs(key, 3, C3, 8)
    requires RowIs(key, 4, C4, 8) && RowIs(key, 5, C5, 8) && RowIs(key, 6, C6, 8) && RowIs(key, 7, C7, 4)
    ensures KnownKeys(Expansion(key))
  {
    KeysOfC0(key);
    KeysOfC1(key);
    KeysOfC2(key);
    KeysOfC3(key);
    KeysOfC4(key);
    KeysOfC5(key);
    KeysOfC6(key);
    KeysOfC7(key);
  }

  lemma {:induction false} StatesKnown0(w: Schedule)
    requires KnownKeys(w)
    ensures Columns(Rounds(PLAIN, w, 0)) == S0
  {
    XorColumns(PLAIN, RoundKey(w, 0));
    assert S0 == XorQuad(Columns(PLAIN), Front(C0));

  }

  lemma {:induction false} StatesKnown1(w: Schedule)
    requires KnownKeys(w) && Columns(Rounds(PLAIN, w, 0)) == S0
    ensures Columns(Rounds(PLAIN, w, 4)) == S4
  {
    Round1();
    RoundDone(PLAIN, w, 1, S0, U1, M1, Back(C0), S1);
    Round2();
    RoundDone(PLAIN, w, 2, S1, U2, M2, Front(C1), S2);
    Round3();
    RoundDone(PLAIN, w, 3, S2, U3, M3, Back(C1), S3);
    Round4();
    RoundDone(PLAIN, w, 4, S3, U4, M4, Front(C2), S4);
  }

  lemma {:induction false} StatesKnown2(w: Schedule)
    requires KnownKeys(w) && Columns(Rounds(PLAIN, w, 4)) == S4
    ensures Columns(Rounds(PLAIN, w, 8)) == S8
  {
    Round5();
    RoundDone(PLAIN, w, 5, S4, U5, M5, Back(C2), S5);
    Round6();
    RoundDone(PLAIN, w, 6, S5, U6, M6, Front(C3), S6);
    Round7();
    RoundDone(PLAIN, w, 7, S6, U7, M7, Back(C3), S7);
    Round8();
    RoundDone(PLAIN, w, 8, S7, U8, M8, Front(C4), S8);
  }

  lemma {:induction false} StatesKnown3(w: Schedule)
    requires KnownKeys(w) && Columns(Rounds(PLAIN, w, 8)) == S8
    ensures Columns(Rounds(PLAIN, w, 13)) == S13
  {
    Round9();
    RoundDone(PLAIN, w, 9, S8, U9, M9, Back(C4), S9);
    Round10();
    RoundDone(PLAIN, w, 10, S9, U10, M10, Front(C5), S10);
    Round11();
    RoundDone(PLAIN, w, 11, S10, U11, M11, Back(C5), S11);
    Round12();
    RoundDone(PLAIN, w, 12, S11, U12, M12, Front(C6), S12);
    Round13();
    RoundDone(PLAIN, w, 13, S12, U13, M13, Back(C6), S13);
  }

  lemma {:induction false} LastState(w: Schedule)
    requires KnownKeys(w)
    ensures Columns(Encrypted(PLAIN, w)) == S14
  {
    StatesKnown0(w);
    StatesKnown1(w);
    StatesKnown2(w);
    StatesKnown3(w);
    Round14();
    FinalRound(PLAIN, w);
  }

  lemma {:induction false} FinalRound(s: State, w: Schedule)
    ensures Columns(Encrypted(s, w)) == XorQuad(ShiftQuad(SubQuad(Columns(Rounds(s, w, 13)))), Columns(RoundKey(w, 14)))
  {
    var a := Rounds(s, w, 13);
    SubColumns(a);
    ShiftColumns(SubBytes(a));
    XorColumns(ShiftRows(SubBytes(a)), RoundKey(w, 14));
  }

  lemma {:induction false} CipherBytes(w: Schedule)
    requires Columns(Encrypted(PLAIN, w)) == S14
    ensures Encrypted(PLAIN, w)
         == [0x8e, 0xa2, 0xb7, 0xca, 0x51, 0x67, 0x45, 0xbf, 0xea, 0xfc, 0x49, 0x90, 0x4b, 0x49, 0x60, 0x89]
  {
    SameColumns(Encrypted(PLAIN, w),
                [0x8e, 0xa2, 0xb7, 0xca, 0x51, 0x67, 0x45, 0xbf, 0xea, 0xfc, 0x49, 0x90, 0x4b, 0x49, 0x60, 0x89]);
  }

  /** The block of appendix C.3 under the key of appendix C.3, there and back. */
  lemma {:induction false} CipherKnown()
    ensures Encrypted(PLAIN, Expansion(KEY_C))
         == [0x8e, 0xa2, 0xb7, 0xca, 0x51, 0x67, 0x45, 0xbf, 0xea, 0xfc, 0x49, 0x90, 0x4b, 0x49, 0x60, 0x89]
    ensures Decrypted([0x8e, 0xa2, 0xb7, 0xca, 0x51, 0x67, 0x45, 0xbf, 0xea, 0xfc, 0x49, 0x90, 0x4b, 0x49, 0x60, 0x89],
                      Expansion(KEY_C)) == PLAIN
  {
    RowsC();
    KeysOfC(KEY_C);
    LastState(Expansion(KEY_C));
    CipherBytes(Expansion(KEY_C));
    DecryptUndoesEncrypt(PLAIN, Expansion(KEY_C));
  }
}
