/** The key schedule of ec_aes256.h for keys of 256 bits. */
module AesKeys {
  import opened AesBytes
  import opened AesBlock

  const WORDS := 60
  const KEYWORDS := 8

  const RCON: seq<bv8> := [0x8d, 0x01, 0x02, 0x04, 0x08, 0x10, 0x20, 0x40, 0x80, 0x1b, 0x36]

  /** The round constant of the standard: {02} to the power i - 1. */
  function RoundConstant(i: nat): bv8
    requires 0 < i
  {
    if i == 1 then 1 else XTime(RoundConstant(i - 1))
  }

  /** The table holds them. */
  lemma {:induction false} TableHoldsPowers(i: nat)
    requires 0 < i < |RCON|
    ensures RCON[i] == RoundConstant(i)
  {
    if 1 < i {
      TableHoldsPowers(i - 1);
      NextPower(i);
    }
  }

  lemma {:induction false} NextPower(i: nat)
    requires 1 < i < |RCON|
    ensures RCON[i] == XTime(RCON[i - 1])
  {
  }

  datatype Word = Word(b0: bv8, b1: bv8, b2: bv8, b3: bv8)

  function RotWord(x: Word): Word {
    Word(x.b1, x.b2, x.b3, x.b0)
  }

  function SubWord(x: Word): Word {
    Word(SBox(x.b0), SBox(x.b1), SBox(x.b2), SBox(x.b3))
  }

  function XorWord(x: Word, y: Word): Word {
    Word(Add(x.b0, y.b0), Add(x.b1, y.b1), Add(x.b2, y.b2), Add(x.b3, y.b3))
  }

  function ByteOf(x: Word, j: nat): bv8 {
    if j == 0 then x.b0 else if j == 1 then x.b1 else if j == 2 then x.b2 else x.b3
  }

  /** What is added to word i - 8 of the schedule (section 5.2 of FIPS 197). */
  function Scrambled(previous: Word, i: nat): Word
    requires KEYWORDS <= i < WORDS
  {
    if i % KEYWORDS == 0 then XorWord(SubWord(RotWord(previous)), Word(RoundConstant(i / KEYWORDS), 0, 0, 0))
    else if i % KEYWORDS == 4 then SubWord(previous)
    else previous
  }

  type Key = k: seq<bv8> | |k| == KEYBYTES witness seq(KEYBYTES, _ => 0)

  function KeyWord(key: Key, i: nat): Word
    requires i < WORDS
  {
    if i < KEYWORDS then Word(key[4 * i], key[4 * i + 1], key[4 * i + 2], key[4 * i + 3])
    else XorWord(KeyWord(key, i - KEYWORDS), Scrambled(KeyWord(key, i - 1), i))
  }

  function KeyByte(key: Key, k: nat): bv8
    requires k < SCHEDULE
  {
    ByteOf(KeyWord(key, k / 4), k % 4)
  }

  function Expansion(key: Key): Schedule {
    seq(SCHEDULE, k requires 0 <= k < SCHEDULE => KeyByte(key, k))
  }

  ghost predicate Filled(w: seq<bv8>, key: Key, words: nat)
    requires |w| == SCHEDULE && words <= WORDS
  {
    forall i :: 0 <= i < words ==> WordAt(w, i) == KeyWord(key, i)
  }

  function WordAt(w: seq<bv8>, i: nat): Word
    requires |w| == SCHEDULE && i < WORDS
  {
    Word(w[4 * i], w[4 * i + 1], w[4 * i + 2], w[4 * i + 3])
  }

  lemma {:induction false} FilledIsExpansion(w: seq<bv8>, key: Key)
    requires |w| == SCHEDULE && Filled(w, key, WORDS)
    ensures w == Expansion(key)
  {
    forall k | 0 <= k < SCHEDULE ensures w[k] == Expansion(key)[k] {
      assert WordAt(w, k / 4) == KeyWord(key, k / 4);
    }
  }

  method SetWord(rk: array<bv8>, i: nat, x: Word)
    requires rk.Length == SCHEDULE && i < WORDS
    modifies rk
    ensures WordAt(rk[..], i) == x
    ensures forall k :: 0 <= k < WORDS && k != i ==> WordAt(rk[..], k) == WordAt(old(rk[..]), k)
  {
    rk[4 * i] := x.b0;
    rk[4 * i + 1] := x.b1;
    rk[4 * i + 2] := x.b2;
    rk[4 * i + 3] := x.b3;
  }

  method Scramble(previous: Word, i: nat) returns (temp: Word)
    requires KEYWORDS <= i < WORDS
    ensures temp == Scrambled(previous, i)
  {
    temp := previous;
    if i % KEYWORDS == 0 {
      TableHoldsPowers(i / KEYWORDS);
      temp := SubWord(RotWord(temp));
      temp := temp.(b0 := Add(temp.b0, RCON[i / KEYWORDS]));
    }
    if i % KEYWORDS == 4 {
      temp := SubWord(temp);
    }
  }

  method NextWord(rk: array<bv8>, i: nat, key: Key) returns (x: Word)
    requires rk.Length == SCHEDULE && KEYWORDS <= i < WORDS
    requires WordAt(rk[..], i - 1) == KeyWord(key, i - 1)
    requires WordAt(rk[..], i - KEYWORDS) == KeyWord(key, i - KEYWORDS)
    ensures x == KeyWord(key, i)
  {
    var k := (i - 1) * 4;
    var temp := Scramble(Word(rk[k], rk[k + 1], rk[k + 2], rk[k + 3]), i);
    k := (i - KEYWORDS) * 4;
    x := XorWord(Word(rk[k], rk[k + 1], rk[k + 2], rk[k + 3]), temp);
  }

  lemma {:induction false} OneMore(w: seq<bv8>, v: seq<bv8>, key: Key, i: nat)
    requires |w| == SCHEDULE == |v| && i < WORDS && Filled(w, key, i)
    requires WordAt(v, i) == KeyWord(key, i)
    requires forall k :: 0 <= k < WORDS && k != i ==> WordAt(v, k) == WordAt(w, k)
    ensures Filled(v, key, i + 1)
  {
  }

  method KeyExpansion(key: Key) returns (w: Schedule)
    ensures w == Expansion(key)
  {
    var rk := new bv8[SCHEDULE];
    for i := 0 to KEYWORDS
      invariant Filled(rk[..], key, i)
    {
      SetWord(rk, i, Word(key[4 * i], key[4 * i + 1], key[4 * i + 2], key[4 * i + 3]));
    }
    for i := KEYWORDS to WORDS
      invariant Filled(rk[..], key, i)
    {
      ghost var before := rk[..];
      var x := NextWord(rk, i, key);
      SetWord(rk, i, x);
      OneMore(before, rk[..], key, i);
    }
    FilledIsExpansion(rk[..], key);
    w := rk[..];
  }
}
