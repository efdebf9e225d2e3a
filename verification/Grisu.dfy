/** Digit generation of the Grisu2 algorithm in 64-bit fixed point. Every arithmetic step is on a
    machine word: that no product or sum overflows is part of what is proved. */
module Grisu {
  import opened Decimal

  newtype u32 = x: int | 0 <= x < 0x1_0000_0000
  newtype u64 = x: int | 0 <= x < 0x1_0000_0000_0000_0000

  const WORD := 0x1_0000_0000_0000_0000

  function Dist(a: int, b: int): nat {
    if a < b then b - a else a - b
  }

  /** The rest after taking k off the last digit. */
  function Candidate(rest0: int, t: int, k: nat): int {
    rest0 + k * t
  }

  /** Of all candidates within delta, the n-th is as close to w as any, and closer than those before. */
  ghost predicate NoneCloser(n: nat, rest0: int, t: int, delta: int, w: int) {
    forall k: nat :: Candidate(rest0, t, k) <= delta ==>
      var a, b := Dist(Candidate(rest0, t, n), w), Dist(Candidate(rest0, t, k), w);
      a <= b && (k < n ==> a < b)
  }

  /** Decrement the last digit while that brings the number closer to the target w, and stays
      within delta of the upper end. The result is the closest of all candidates in the interval. */
  method GrisuRound(buffer: array<char>, len: nat, delta: u64, rest0: u64, tenKappa: u64, w: u64)
    returns (ghost rest: int, ghost n: nat)
    requires 0 < len <= buffer.Length && IsDigit(buffer[len - 1])
    requires rest0 <= delta && 0 < tenKappa
    requires delta as int <= Candidate(rest0 as int, tenKappa as int, DigitValue(buffer[len - 1]))
    modifies buffer
    ensures rest == Candidate(rest0 as int, tenKappa as int, n) && rest <= delta as int
    ensures buffer[..len - 1] == old(buffer[..len - 1]) && buffer[len..] == old(buffer[len..])
    ensures IsDigit(buffer[len - 1]) && DigitValue(buffer[len - 1]) == old(DigitValue(buffer[len - 1])) - n
    ensures NoneCloser(n, rest0 as int, tenKappa as int, delta as int, w as int)
  {
    var r := rest0;
    n := 0;
    ghost var t, d0 := tenKappa as int, DigitValue(buffer[len - 1]);
    while r < w && delta - r >= tenKappa && (r + tenKappa < w || w - r > r + tenKappa - w)
      invariant r as int == Candidate(rest0 as int, t, n) && r <= delta
      invariant n <= d0 && IsDigit(buffer[len - 1]) && DigitValue(buffer[len - 1]) == d0 - n
      invariant buffer[..len - 1] == old(buffer[..len - 1]) && buffer[len..] == old(buffer[len..])
      invariant n == 0 || Dist(r as int, w as int) < Dist(r as int - t, w as int)
      invariant n == 0 || r as int - t < w as int
      decreases delta - r
    {
      OneLess(r as int, n, rest0 as int, t, delta as int, d0);
      buffer[len - 1] := (buffer[len - 1] as int - 1) as char;
      r := r + tenKappa;
      n := n + 1;
    }
    rest := r as int;
    AllClosest(rest0 as int, t, delta as int, w as int, n);
  }

  /** There is a digit left to take one from. */
  lemma {:induction false} OneLess(r: int, n: nat, rest0: int, t: int, delta: int, d0: nat)
    requires r == Candidate(rest0, t, n) && 0 < t && r + t <= delta <= Candidate(rest0, t, d0)
    ensures n + 1 <= d0 && r + t == Candidate(rest0, t, n + 1)
  {
    assert (n + 1) * t == n * t + t;
    if d0 <= n {
      MulLe(d0, n, t);
      assert false;
    }
  }

  lemma {:induction false} MulLe(a: int, b: int, t: int)
    requires a <= b && 0 <= t
    ensures a * t <= b * t
  {
  }

  /** Once the next candidate is no closer, none of the others is. */
  lemma {:induction false} Closest(rest0: int, t: int, delta: int, w: int, n: nat, k: nat)
    requires 0 < t && Candidate(rest0, t, k) <= delta
    requires var r := Candidate(rest0, t, n);
             && (n == 0 || (r - t < w && Dist(r, w) < Dist(r - t, w)))
             && !(r < w && delta - r >= t && (r + t < w || w - r > r + t - w))
    ensures Dist(Candidate(rest0, t, n), w) <= Dist(Candidate(rest0, t, k), w)
    ensures k < n ==> Dist(Candidate(rest0, t, n), w) < Dist(Candidate(rest0, t, k), w)
  {
    var r, c := Candidate(rest0, t, n), Candidate(rest0, t, k);
    if k < n {
      MulLe(k, n - 1, t);
      assert (n - 1) * t == n * t - t;
      assert c <= r - t;
    } else if n < k {
      MulLe(n + 1, k, t);
      assert (n + 1) * t == n * t + t;
      assert r + t <= c;
    }
  }

  lemma {:induction false} AllClosest(rest0: int, t: int, delta: int, w: int, n: nat)
    requires 0 < t
    requires var r := Candidate(rest0, t, n);
             && (n == 0 || (r - t < w && Dist(r, w) < Dist(r - t, w)))
             && !(r < w && delta - r >= t && (r + t < w || w - r > r + t - w))
    ensures NoneCloser(n, rest0, t, delta, w)
  {
    forall k: nat | Candidate(rest0, t, k) <= delta
      ensures Dist(Candidate(rest0, t, n), w) <= Dist(Candidate(rest0, t, k), w)
      ensures k < n ==> Dist(Candidate(rest0, t, n), w) < Dist(Candidate(rest0, t, k), w)
    {
      Closest(rest0, t, delta, w, n, k);
    }
  }

  /** The number of decimal digits of a 32-bit number; zero counts as one digit. */
  method CountDecimalDigit32(n: u32) returns (r: nat)
    ensures 1 <= r <= 10
    ensures (n as int) < Pow10(r) && (1 < r ==> Pow10(r - 1) <= n as int)
  {
    Pow10Table();
    if n < 10 { return 1; }
    if n < 100 { return 2; }
    if n < 1000 { return 3; }
    if n < 10000 { return 4; }
    if n < 100000 { return 5; }
    if n < 1000000 { return 6; }
    if n < 10000000 { return 7; }
    if n < 100000000 { return 8; }
    if n < 1000000000 { return 9; }
    return 10;
  }

  lemma {:induction false} Pow10Table()
    ensures Pow10(0) == 1 && Pow10(1) == 10 && Pow10(2) == 100 && Pow10(3) == 1000 && Pow10(4) == 10000
    ensures Pow10(5) == 100000 && Pow10(6) == 1000000 && Pow10(7) == 10000000 && Pow10(8) == 100000000
    ensures Pow10(9) == 1000000000 && Pow10(10) == 10000000000
  {
    assert Pow10(3) == 1000;
    assert Pow10(6) == 1000000;
    assert Pow10(8) == 100000000;
  }

  /** The divisors of the digit loop, as its switch lists them. */
  function TenPower(k: nat): (r: u32)
    requires k < 10
    ensures r as int == Pow10(k)
  {
    Pow10Table();
    match k
    case 0 => 1
    case 1 => 10
    case 2 => 100
    case 3 => 1000
    case 4 => 10000
    case 5 => 100000
    case 6 => 1000000
    case 7 => 10000000
    case 8 => 100000000
    case _ => 1000000000
  }

  lemma {:induction false} Pow2Range(sh: nat)
    requires 32 <= sh <= 60
    ensures 0x1_0000_0000 <= Pow2(sh) <= 0x1000_0000_0000_0000
  {
    Pow2Small();
    Pow2Grows(32, sh);
    Pow2Grows(sh, 60);
  }

  lemma {:induction false} Pow2Small()
    ensures Pow2(32) == 0x1_0000_0000 && Pow2(60) == 0x1000_0000_0000_0000
  {
    assert Pow2(4) == 16;
    Pow2Add(4, 4);
    Pow2Add(8, 8);
    Pow2Add(16, 16);
    Pow2Add(4, 8);
    Pow2Add(12, 16);
    Pow2Add(28, 32);
  }

  lemma {:induction false} Pow2Grows(a: nat, b: nat)
    requires a <= b
    ensures Pow2(a) <= Pow2(b)
  {
    if a < b {
      Pow2Grows(a, b - 1);
    }
  }

  lemma {:induction false} Pow10Grows(a: nat, b: nat)
    requires a <= b
    ensures Pow10(a) <= Pow10(b)
  {
    if a < b {
      Pow10Grows(a, b - 1);
    }
  }

  /** The digits so far, times their power of ten, plus the remainder, are the number. */
  ghost predicate Split(f: int, unit: int, d: int, rem: int) {
    f == d * unit + rem && 0 <= rem < unit
  }

  /** Digits d, of weight unit, name a number in the interval of width delta below f, and no
      number with one digit less lies inside the interval. */
  ghost predicate InInterval(f: int, delta: int, unit: int, d: int) {
    && f - delta <= d * unit <= f
    && forall t: nat :: t * (10 * unit) <= f ==> t * (10 * unit) <= f - delta
  }

  /** One digit more: the remainder is split by a tenth of the unit. */
  lemma {:induction false} NextDigit(f: int, unit: int, d: int, rem: int, q: int, rem2: int)
    requires Split(f, 10 * unit, d, rem) && 0 < unit
    requires rem == q * unit + rem2 && 0 <= rem2 < unit
    ensures Split(f, unit, d * 10 + q, rem2) && 0 <= q < 10
  {
    assert d * (10 * unit) == (d * 10) * unit;
    assert (d * 10 + q) * unit == (d * 10) * unit + q * unit;
    if 10 <= q { MulLe(10, q, unit); }
    if q < 0 { MulLe(q, -1, unit); }
  }

  /** No more than d whole units fit. */
  lemma {:induction false} AtMost(f: int, unit: int, d: int, rem: int, t: int)
    requires Split(f, unit, d, rem) && t * unit <= f
    ensures t <= d
  {
    assert (d + 1) * unit == d * unit + unit;
    if d + 1 <= t {
      MulLe(d + 1, t, unit);
      assert false;
    }
  }

  /** When the remainder falls below delta for the first time, rounding stays in the interval. */
  lemma {:induction false} Finish(f: int, delta: int, unit: int, d: int, rem: int, q: int, rem2: int, n: nat, rest: int)
    requires Split(f, 10 * unit, d, rem) && Split(f, unit, d * 10 + q, rem2) && 0 < unit
    requires rem == q * unit + rem2 && delta <= rem
    requires rest == rem2 + n * unit && rest <= delta
    ensures InInterval(f, delta, unit, d * 10 + q - n)
  {
    assert (d * 10 + q - n) * unit == (d * 10 + q) * unit - n * unit;
    forall t: nat | t * (10 * unit) <= f ensures t * (10 * unit) <= f - delta {
      AtMost(f, 10 * unit, d, rem, t);
      MulLe(t, d, 10 * unit);
    }
  }

  /** The digits in the buffer. */
  ghost predicate Written(buffer: array<char>, len: nat, d: int)
    reads buffer
  {
    && len <= buffer.Length && AllDigits(buffer[..len]) && Value(buffer[..len]) == d
    && (0 < len ==> buffer[0] != '0')
    && (len == 0 <==> d == 0)
  }

  /** Append a digit, unless it would be a leading zero. */
  method Emit(buffer: array<char>, len: nat, q: nat, ghost d: nat) returns (len2: nat)
    requires Written(buffer, len, d) && q < 10 && len < buffer.Length
    modifies buffer
    ensures Written(buffer, len2, d * 10 + q)
    ensures len2 == if q != 0 || len != 0 then len + 1 else 0
    ensures 0 < len2 ==> IsDigit(buffer[len2 - 1]) && DigitValue(buffer[len2 - 1]) == q
  {
    len2 := len;
    if q != 0 || len != 0 {
      buffer[len] := DigitChar(q);
      len2 := len + 1;
      assert buffer[..len2] == old(buffer[..len]) + [DigitChar(q)];
      ValueAppend(old(buffer[..len]), DigitChar(q));
    }
  }

  /** What rounding leaves in the buffer. */
  lemma {:induction false} Rounded(a: seq<char>, b: seq<char>, n: nat)
    requires 0 < |a| == |b| && a[..|a| - 1] == b[..|b| - 1] && AllDigits(a) && IsDigit(b[|b| - 1])
    requires DigitValue(b[|b| - 1]) == DigitValue(a[|a| - 1]) - n
    ensures AllDigits(b) && Value(b) == Value(a) - n
  {
    forall i | 0 <= i < |b| ensures IsDigit(b[i]) {
      if i < |b| - 1 {
        assert b[i] == b[..|b| - 1][i] == a[i];
      }
    }
  }

  /** No multiple of unit in the interval is closer than d units to the point w below f, and no
      greater one is as close: there is one such d. */
  ghost predicate Nearest(f: int, delta: int, unit: int, d: int, w: int) {
    forall t: nat :: f - delta <= t * unit <= f ==>
      var a, b := Dist(f - d * unit, w), Dist(f - t * unit, w);
      a <= b && (d < t ==> a < b)
  }

  /** Closest among the candidates means closest among all multiples of the unit. */
  lemma {:induction false} NearestOfAll(f: int, delta: int, unit: int, d: int, rest0: int, n: nat, w: int)
    requires Split(f, unit, d, rest0) && 0 < unit
    requires NoneCloser(n, rest0, unit, delta, w)
    ensures Nearest(f, delta, unit, d - n, w)
  {
    assert (d - n) * unit == d * unit - n * unit;
    forall t: nat | f - delta <= t * unit <= f
      ensures Dist(f - (d - n) * unit, w) <= Dist(f - t * unit, w)
      ensures d - n < t ==> Dist(f - (d - n) * unit, w) < Dist(f - t * unit, w)
    {
      AtMost(f, unit, d, rest0, t);
      assert (d - t) * unit == d * unit - t * unit;
      assert Candidate(rest0, unit, d - t) == f - t * unit;
    }
  }

  /** The buffer starts with a decimal number without a leading zero, in the interval and as short
      as any in it. */
  ghost predicate Generated(buffer: array<char>, len: nat, f: int, delta: int, unit: int)
    reads buffer
  {
    && 0 < len <= buffer.Length && AllDigits(buffer[..len]) && buffer[0] != '0'
    && InInterval(f, delta, unit, Value(buffer[..len]))
  }

  /** A digit q has just been taken off the remainder, which thereby fell to delta or below. */
  ghost predicate Ready(f: int, unit: int, d: nat, q: nat, rem: int, rest0: int, delta: int) {
    && Split(f, 10 * unit, d, rem) && Split(f, unit, d * 10 + q, rest0)
    && rem == q * unit + rest0 && rest0 <= delta <= rem && delta < f
  }

  /** The last step of digit generation: round, and be done. */
  method RoundOff(buffer: array<char>, len: nat, delta: u64, rest0: u64, ten: u64, w: u64,
                  ghost f: int, ghost d: nat, ghost rem: int, ghost q: nat)
    requires Written(buffer, len, d * 10 + q) && 0 < ten
    requires 0 < len ==> DigitValue(buffer[len - 1]) == q
    requires Ready(f, ten as int, d, q, rem, rest0 as int, delta as int)
    modifies buffer
    ensures Generated(buffer, len, f, delta as int, ten as int)
    ensures Nearest(f, delta as int, ten as int, Value(buffer[..len]), w as int)
  {
    ghost var before := buffer[..len];
    var rest, n := GrisuRound(buffer, len, delta, rest0, ten, w);
    assert before[..len - 1] == old(buffer[..len - 1]);
    assert buffer[..len][..len - 1] == buffer[..len - 1];
    Rounded(before, buffer[..len], n);
    Finish(f, delta as int, ten as int, d, rem, q, rest0 as int, n, rest);
    NearestOfAll(f, delta as int, ten as int, d * 10 + q, rest0 as int, n, w as int);
    if len == 1 {
      assert Value(buffer[..1]) == DigitValue(buffer[0]);
    } else {
      assert buffer[0] == buffer[..len - 1][0] == before[0];
    }
  }

  /** A number without leading zeros shows its length. */
  lemma {:induction false} LengthOfValue(s: seq<char>)
    requires AllDigits(s) && s != [] && s[0] != '0'
    ensures Pow10(|s| - 1) <= Value(s)
  {
    if |s| == 1 {
      assert Value(s[..0]) == 0;
    } else {
      LengthOfValue(s[..|s| - 1]);
    }
  }

  lemma {:induction false} ShortEnough(s: seq<char>)
    requires AllDigits(s) && (s == [] || s[0] != '0') && Value(s) < WORD
    ensures |s| <= 20
  {
    if 20 < |s| {
      LengthOfValue(s);
      Pow10Grows(20, |s| - 1);
      Pow10Table();
      Pow10Add(10, 10);
      assert false;
    }
  }

  /** The factor that turns a number of weight 10^kappa units into a whole number of units. */
  function Scale(kappa: int): nat {
    if 0 <= kappa then 1 else Pow10(-kappa)
  }

  function Weight(kappa: int, one: nat): nat {
    if 0 <= kappa then Pow10(kappa) * one else one
  }

  /** The target point in units of the current digit, as dtoa_milo.h:297 computes it: the table of
      powers has ten entries, and past its end it reads some other 32-bit number. */
  function ScaledTarget(w: u64, m: nat, entry: u32): u64 {
    var power := if m < 10 then Pow10(m) else entry as int;
    (w as int * power % WORD) as u64
  }

  /** The state of the fraction loop. */
  ghost predicate Fraction(f: int, delta0: int, m: nat, one: int, d: nat, p2: int, delta: int) {
    && Split(Pow10(m) * f, one, d, p2) && delta == Pow10(m) * delta0 && 0 < delta0 <= delta <= p2
    && (d == 0 ==> delta < p2)
  }

  /** One round of the fraction loop, for any divisor of its remainder. */
  lemma {:induction false} FractionStep(f: int, delta0: int, m: nat, one: int, d: nat, p2: int, delta: int, q: nat, rest: nat)
    requires Fraction(f, delta0, m, one, d, p2, delta) && 0 < one
    requires 10 * p2 == q * one + rest && rest < one
    ensures q < 10 && delta0 <= 10 * delta
    ensures d * 10 + q == 0 ==> 10 * delta < rest
    ensures rest <= 10 * delta ==> Ready(Pow10(m + 1) * f, one, d, q, 10 * p2, rest, 10 * delta)
    ensures 10 * delta == Pow10(m + 1) * delta0
    ensures rest >= 10 * delta ==> Fraction(f, delta0, m + 1, one, d * 10 + q, rest, 10 * delta)
  {
    var f0, f1 := Pow10(m) * f, Pow10(m + 1) * f;
    assert f1 == 10 * f0;
    assert Pow10(m + 1) * delta0 == 10 * (Pow10(m) * delta0);
    StepInUnits(f0, f1, one, d, p2, delta, q, rest);
  }

  lemma {:induction false} StepInUnits(f0: int, f1: int, one: int, d: nat, p2: int, delta: int, q: nat, rest: nat)
    requires f1 == 10 * f0 && 0 < one && Split(f0, one, d, p2) && 0 < delta <= p2 && (d == 0 ==> delta < p2)
    requires 10 * p2 == q * one + rest && rest < one
    ensures q < 10 && Split(f1, 10 * one, d, 10 * p2) && Split(f1, one, d * 10 + q, rest)
    ensures 10 * delta < f1 && (d * 10 + q == 0 ==> 10 * delta < rest)
  {
    assert d * (10 * one) == 10 * (d * one);
    NextDigit(f1, one, d, 10 * p2, q, rest);
    if 0 < d {
      MulLe(1, d, one);
    }
  }

  /** The digits of the fraction loop stay below a word. */
  lemma {:induction false} FractionFits(f: nat, delta0: int, m: nat, one: int, d: nat, p2: int, delta: int)
    requires Fraction(f, delta0, m, one, d, p2, delta) && 0 < one
    ensures d <= f
  {
    MulLe(1, delta0, Pow10(m));
    assert Pow10(m) < one;
    MulLe(Pow10(m), one, f);
    assert (f + 1) * one == one * f + one;
    if f < d {
      MulLe(f + 1, d, one);
      assert false;
    }
  }

  /** The state of the integer loop: the digits of weight at least 10^kappa are out. */
  ghost predicate Whole(f: int, delta: int, kappa: nat, one: int, d: nat, p1: int, p2: int) {
    && Split(f, Pow10(kappa) * one, d, p1 * one + p2)
    && 0 <= p1 < Pow10(kappa) && 0 <= p2 < one && delta < p1 * one + p2
  }

  lemma {:induction false} WholeStart(f: int, delta: int, kappa: nat, one: int, p1: int, p2: int)
    requires f == p1 * one + p2 && 0 <= p1 < Pow10(kappa) && 0 <= p2 < one && delta < f
    ensures Whole(f, delta, kappa, one, 0, p1, p2)
  {
    Below(p1, p2, Pow10(kappa), one);
  }

  lemma {:induction false} Regroup(t: int, one: int, q: int, rest1: int)
    ensures 10 * t * one == 10 * (t * one)
    ensures (q * t + rest1) * one == q * (t * one) + rest1 * one
  {
    assert (q * t + rest1) * one == q * t * one + rest1 * one;
    assert q * t * one == q * (t * one);
  }

  lemma {:induction false} Below(p1: int, p2: int, t: int, one: int)
    requires 0 <= p1 < t && 0 <= p2 < one
    ensures 0 <= p1 * one && p1 * one + p2 < t * one && 0 < t * one
  {
    assert (p1 + 1) * one == p1 * one + one;
    MulLe(p1 + 1, t, one);
    MulLe(0, p1, one);
    MulLe(1, t, one);
  }

  lemma {:induction false} WholeStep(f: int, delta: int, kappa: nat, one: int, d: nat, p1: int, p2: int, q: nat, rest1: nat)
    requires Whole(f, delta, kappa + 1, one, d, p1, p2) && 0 < one
    requires p1 == q * Pow10(kappa) + rest1 && rest1 < Pow10(kappa)
    ensures var unit := Pow10(kappa) * one;
            && 0 < unit && Split(f, 10 * unit, d, p1 * one + p2)
            && p1 * one + p2 == q * unit + (rest1 * one + p2)
            && Split(f, unit, d * 10 + q, rest1 * one + p2)
    ensures q < 10
    ensures delta < rest1 * one + p2 ==> Whole(f, delta, kappa, one, d * 10 + q, rest1, p2)
  {
    var unit := Pow10(kappa) * one;
    Regroup(Pow10(kappa), one, q, rest1);
    Below(rest1, p2, Pow10(kappa), one);
    NextDigit(f, unit, d, p1 * one + p2, q, rest1 * one + p2);
  }

  lemma {:induction false} Parts(f: int, one: int)
    requires 0 <= f < WORD && 0x1_0000_0000 <= one
    ensures f == (f / one) * one + f % one && 0 <= f / one < 0x1_0000_0000 && 0 <= f % one < one
  {
    var p1 := f / one;
    assert f == p1 * one + f % one;
    if 0x1_0000_0000 <= p1 {
      MulLe(0x1_0000_0000, p1, one);
      assert false;
    }
    if p1 < 0 {
      MulLe(p1, -1, one);
      assert false;
    }
  }

  lemma {:induction false} PowerFits(f: int, one: int, p1: int, p2: int, k: nat)
    requires f == p1 * one + p2 && f < WORD && 0 <= p2 < one < WORD && 0 <= p1
    requires 1 <= k && (1 < k ==> Pow10(k - 1) <= p1)
    ensures Pow10(k - 1) * one < WORD
  {
    if 1 < k {
      MulLe(Pow10(k - 1), p1, one);
    }
  }

  lemma {:induction false} LowerPower(k: nat, one: int)
    requires 0 < k && 0 <= one && Pow10(k) * one < WORD
    ensures Pow10(k - 1) * one < WORD
  {
    MulLe(Pow10(k - 1), Pow10(k), one);
  }

  lemma {:induction false} RestFits(f: int, unit: int, d: nat, rest: int)
    requires Split(f, unit, d, rest) && 0 < unit
    ensures rest <= f && (d == 0 ==> rest == f)
  {
    MulLe(0, d, unit);
  }

  lemma {:induction false} FractionStart(f: int, delta0: int, one: int, d: nat, p2: int)
    requires Whole(f, delta0, 0, one, d, 0, p2) && 0 < delta0
    ensures Fraction(f, delta0, 0, one, d, p2, delta0)
  {
  }

  /** Shift left; no bit may be lost. */
  function Shift(x: u32, one: u64): (r: u64)
    requires x as int * one as int < WORD
    ensures r as int == x as int * one as int
  {
    MulLe(0, x as int, one as int);
    (x as int * one as int) as u64
  }

  lemma {:induction false} DivMod(x: int, y: int)
    requires 0 <= x && 0 < y
    ensures x == (x / y) * y + x % y && 0 <= x / y <= x && 0 <= x % y < y
  {
    MulLe(1, y, x / y);
  }

  /** What is left at the end of the integer loop is at least the fraction. */
  lemma {:induction false} WholeEnds(f: int, one: int, d: nat, k: nat, p1: int, p2: int)
    requires Split(f, Pow10(k) * one, d, p1 * one + p2) && 0 <= p1 && 0 <= p2 < one
    ensures f % one == p2 <= p1 * one + p2
  {
    Regroup(Pow10(k), one, d, p1);
    SplitRemainder(f, one, d * Pow10(k) + p1, p2);
    MulLe(0, p1, one);
  }

  /** Whole numbers of units need no scaling. */
  lemma {:induction false} Unscaled(k: nat, one: nat, x: int)
    ensures Scale(k) * x == x && Weight(k, one) == Pow10(k) * one
  {
  }

  // ---------------------------------------------------------------- where digit generation stops

  /** After m digits behind the point, what is left lies in the interval. */
  ghost predicate Stops(f: int, delta0: int, one: int, m: nat)
    requires 0 < one
  {
    (Pow10(m) * f) % one < Pow10(m) * delta0
  }

  /** Digit generation gets by with the ten powers of its table: either the digits before the point
      are enough, or nine digits behind it are. */
  ghost predicate StaysInTable(f: int, delta0: int, one: int)
    requires 0 < one
  {
    f % one <= delta0 || Stops(f, delta0, one, 9)
  }

  lemma {:induction false} SplitRemainder(x: int, unit: int, d: int, rem: int)
    requires Split(x, unit, d, rem)
    ensures 0 < unit && x % unit == rem
  {
    var e := x / unit;
    DivModAny(x, unit);
    SameQuotient(unit, d, rem, e, x % unit);
    SameQuotient(unit, e, x % unit, d, rem);
  }

  lemma {:induction false} SameQuotient(unit: int, d: int, r: int, e: int, s: int)
    requires d * unit + r == e * unit + s && 0 <= r < unit && 0 <= s < unit
    ensures d <= e
  {
    assert (e + 1) * unit == e * unit + unit;
    if e < d {
      MulLe(e + 1, d, unit);
      assert false;
    }
  }

  lemma {:induction false} DivModAny(x: int, y: int)
    requires 0 < y
    ensures x == (x / y) * y + x % y && 0 <= x % y < y
  {
  }

  lemma {:induction false} TenTimes(x: int, q: int, r: int, q2: int, r2: int, one: int)
    requires x == q * one + r && 10 * r == q2 * one + r2 && 0 <= q2 && 0 <= r2 < one
    ensures (10 * x) % one == r2 <= 10 * r
  {
    assert (10 * q + q2) * one == 10 * (q * one) + q2 * one;
    SplitRemainder(10 * x, one, 10 * q + q2, r2);
    MulLe(0, q2, one);
  }

  lemma {:induction false} QuotientOfNat(x: nat, y: int)
    requires 0 < y
    ensures 0 <= x / y
  {
  }

  /** What lies in the interval stays in it when one more digit is taken off. */
  lemma {:induction false} StopsNext(f: int, delta0: int, one: int, m: nat)
    requires 0 < one && Stops(f, delta0, one, m)
    ensures Stops(f, delta0, one, m + 1)
  {
    var x := Pow10(m) * f;
    var r := x % one;
    assert Pow10(m + 1) * f == 10 * x && Pow10(m + 1) * delta0 == 10 * (Pow10(m) * delta0);
    DivModAny(x, one);
    DivModAny(10 * r, one);
    QuotientOfNat(10 * r, one);
    TenTimes(x, x / one, r, 10 * r / one, 10 * r % one, one);
  }

  lemma {:induction false} StopsFrom(f: int, delta0: int, one: int, m: nat, n: nat)
    requires 0 < one && m <= n
    ensures Stops(f, delta0, one, m) ==> Stops(f, delta0, one, n)
    decreases n - m
  {
    if m < n && Stops(f, delta0, one, m) {
      StopsNext(f, delta0, one, m);
      StopsFrom(f, delta0, one, m + 1, n);
    }
  }

  /** Nine digits are enough exactly when some number of digits up to nine is. */
  lemma {:induction false} StopsWithinNine(f: int, delta0: int, one: int)
    requires 0 < one
    ensures Stops(f, delta0, one, 9) <==> exists m: nat :: m <= 9 && Stops(f, delta0, one, m)
  {
    forall m: nat | m <= 9 && Stops(f, delta0, one, m) ensures Stops(f, delta0, one, 9) {
      StopsFrom(f, delta0, one, m, 9);
    }
  }

  /** The number of digits behind the point: the fewest with which digit generation stops. */
  ghost predicate Fewest(f: int, delta0: int, one: int, m: nat)
    requires 0 < one
  {
    Stops(f, delta0, one, m) && (1 < m ==> !Stops(f, delta0, one, m - 1))
  }

  lemma {:induction false} FewestInTable(f: int, delta0: int, one: int, m: nat)
    requires 0 < one && 0 < m && Fewest(f, delta0, one, m) && delta0 < f % one
    ensures m < 10 <==> StaysInTable(f, delta0, one)
  {
    if m < 10 {
      StopsFrom(f, delta0, one, m, 9);
    } else {
      StopsFrom(f, delta0, one, 9, m - 1);
    }
  }

  /** How the exponent of the last digit follows from the input. */
  ghost predicate EndsAt(f: int, delta0: int, one: int, kappa: int)
    requires 0 < one
  {
    && (0 <= kappa <==> f % one <= delta0)
    && (-10 < kappa <==> StaysInTable(f, delta0, one))
    && (kappa < 0 ==> Fewest(f, delta0, one, -kappa))
  }

  // ---------------------------------------------------------------- past the end of the table

  /** A multiple t of the unit and the one below it are both in the interval, and the point halfway
      between them lies from a on and before b, seen from f. */
  ghost predicate Halfway(f: int, delta: int, unit: int, t: nat, a: int, b: int) {
    && 0 < t && t * unit <= f && f - delta <= (t - 1) * unit
    && 2 * a <= 2 * (f - t * unit) + unit < 2 * b
  }

  ghost predicate HalfwayPassed(f: int, delta: int, unit: int, a: int, b: int) {
    exists t: nat :: Halfway(f, delta, unit, t, a, b)
  }

  /** The number nearest to a is the one nearest to a later point b exactly when no point halfway
      between two candidates has been passed. */
  lemma {:induction false} StaysNearest(f: int, delta: int, unit: int, d: nat, a: int, b: int)
    requires 0 < unit && a <= b && f - delta <= d * unit <= f && Nearest(f, delta, unit, d, a)
    ensures Nearest(f, delta, unit, d, b) <==> !HalfwayPassed(f, delta, unit, a, b)
  {
    if HalfwayPassed(f, delta, unit, a, b) {
      var t: nat :| Halfway(f, delta, unit, t, a, b);
      NotNearest(f, delta, unit, d, t, a, b);
    } else {
      forall t: nat | f - delta <= t * unit <= f
        ensures Dist(f - d * unit, b) <= Dist(f - t * unit, b)
        ensures d < t ==> Dist(f - d * unit, b) < Dist(f - t * unit, b)
      {
        StillNearer(f, delta, unit, d, t, a, b);
      }
    }
  }

  lemma {:induction false} NotNearest(f: int, delta: int, unit: int, d: nat, t: nat, a: int, b: int)
    requires 0 < unit && f - delta <= d * unit <= f && Nearest(f, delta, unit, d, a) && Halfway(f, delta, unit, t, a, b)
    ensures !Nearest(f, delta, unit, d, b)
  {
    var s: nat := t - 1;
    assert s * unit == t * unit - unit;
    if d < t {
      MulLe(d, s, unit);
      assert false;
    }
    MulLe(t, d, unit);
    assert Dist(f - s * unit, b) < Dist(f - d * unit, b);
  }

  lemma {:induction false} FartherOn(r: int, s: int, a: int, b: int)
    requires s <= r && a <= b && Dist(r, a) <= Dist(s, a)
    ensures Dist(r, b) <= Dist(s, b) && (Dist(r, a) < Dist(s, a) ==> Dist(r, b) < Dist(s, b))
  {
  }

  lemma {:induction false} BeforeHalfway(r: int, s: int, unit: int, b: int)
    requires 0 < unit && r + unit <= s && 2 * b <= 2 * r + unit
    ensures Dist(r, b) <= Dist(s, b)
  {
  }

  lemma {:induction false} StillNearer(f: int, delta: int, unit: int, d: nat, t: nat, a: int, b: int)
    requires 0 < unit && a <= b && f - delta <= d * unit <= f && Nearest(f, delta, unit, d, a)
    requires f - delta <= t * unit <= f && !HalfwayPassed(f, delta, unit, a, b)
    ensures Dist(f - d * unit, b) <= Dist(f - t * unit, b)
    ensures d < t ==> Dist(f - d * unit, b) < Dist(f - t * unit, b)
  {
    if d < t {
      MulLe(d, t, unit);
      FartherOn(f - d * unit, f - t * unit, a, b);
    } else if t < d {
      NotPassed(f, delta, unit, d, t, a, b);
      BeforeHalfway(f - d * unit, f - t * unit, unit, b);
    }
  }

  lemma {:induction false} NotPassed(f: int, delta: int, unit: int, d: nat, t: nat, a: int, b: int)
    requires 0 < unit && t < d && d * unit <= f && f - delta <= t * unit && Nearest(f, delta, unit, d, a)
    requires !HalfwayPassed(f, delta, unit, a, b)
    ensures t * unit + unit <= d * unit && 2 * b <= 2 * (f - d * unit) + unit
  {
    var s: nat := d - 1;
    assert s * unit == d * unit - unit;
    MulLe(t, s, unit);
    assert f - delta <= s * unit <= f;
    assert Dist(f - d * unit, a) <= Dist(f - s * unit, a);
    assert !Halfway(f, delta, unit, d, a, b);
  }

  /** The scaled target read past the table is below the true one. */
  lemma {:induction false} EntryIsLess(w: int, delta0: int, m: nat, entry: int)
    requires 0 <= w <= delta0 && 10 <= m && Pow10(m) * delta0 < WORD && 0 <= entry < 0x1_0000_0000
    ensures 0 <= w * entry <= Pow10(m) * w && w * entry % WORD == w * entry
  {
    Pow10Table();
    Pow10Grows(10, m);
    MulLe(entry, Pow10(m), w);
    MulLe(0, entry, w);
    MulLe(w, delta0, Pow10(m));
    assert w * entry == entry * w;
  }

  /** The two greatest candidates are both in the interval and the target is past halfway. */
  ghost predicate FirstHalfwayPassed(f: int, delta: int, unit: int, b: int)
    requires 0 < unit
  {
    f % unit + unit <= delta && 2 * (f % unit) + unit < 2 * b
  }

  /** Any halfway point before the target has the first one before it. */
  lemma {:induction false} FirstIsFirst(f: nat, delta: nat, unit: nat, t: nat, a: int, b: int)
    requires 0 < unit && Halfway(f, delta, unit, t, a, b)
    ensures FirstHalfwayPassed(f, delta, unit, b)
  {
    var top := f / unit;
    DivModAny(f, unit);
    AtMost(f, unit, top, f % unit, t);
    MulLe(t, top, unit);
    assert (t - 1) * unit == t * unit - unit;
  }

  /** Past the table, nearness survives every entry exactly when the target is not past the point
      halfway between the two greatest candidates. */
  lemma {:induction false} EveryEntryKeeps(f: nat, delta: nat, unit: nat, w: nat, b: int)
    requires 0 < unit && delta <= f
    ensures (forall entry: nat :: entry < 0x1_0000_0000 ==> !HalfwayPassed(f, delta, unit, w * entry, b))
       <==> !FirstHalfwayPassed(f, delta, unit, b)
  {
    if FirstHalfwayPassed(f, delta, unit, b) {
      var top := f / unit;
      DivModAny(f, unit);
      assert (top - 1) * unit == top * unit - unit;
      assert Halfway(f, delta, unit, top, w * 0, b);
      assert HalfwayPassed(f, delta, unit, w * 0, b);
    } else {
      forall entry: nat | entry < 0x1_0000_0000 ensures !HalfwayPassed(f, delta, unit, w * entry, b) {
        if HalfwayPassed(f, delta, unit, w * entry, b) {
          var t: nat :| Halfway(f, delta, unit, t, w * entry, b);
          FirstIsFirst(f, delta, unit, t, w * entry, b);
        }
      }
    }
  }

  /** An input for which ten digits behind the point are needed, and nearness is lost whatever the
      table reads as there. */
  lemma {:induction false} NearnessLost(entry: nat)
    requires entry < 0x1_0000_0000
    ensures Pow2(32) == 0x1_0000_0000 && Fewest(0x1_0000_0002, 1, Pow2(32), 10) && !StaysInTable(0x1_0000_0002, 1, Pow2(32))
    ensures HalfwayPassed(Scale(-10) * 0x1_0000_0002, Scale(-10) * 1, Weight(-10, Pow2(32)), 1 * entry, Scale(-10) * 1)
  {
    Pow2Small();
    Pow10Table();
    var f, one, top: nat := 10_000_000_000 * 0x1_0000_0002, 0x1_0000_0000, 10_000_000_004;
    assert f == top * one + 2_820_130_816;
    assert (top - 1) * one == top * one - one;
    assert Halfway(f, 10_000_000_000, one, top, entry, 10_000_000_000);
  }

  /** One digit behind the point. */
  method FractionDigit(f: u64, delta0: u64, one: u64, buffer: array<char>, len0: nat, p0: u64, q0: u64, ghost m: nat, ghost d: nat)
    returns (len: nat, p2: u64, delta: u64, ghost q: nat)
    requires 0 < one && 21 <= buffer.Length && Written(buffer, len0, d)
    requires one as int <= 0x1000_0000_0000_0000
    requires Fraction(f as int, delta0 as int, m, one as int, d, p0 as int, q0 as int)
    modifies buffer
    ensures Written(buffer, len, d * 10 + q) && (0 < len ==> DigitValue(buffer[len - 1]) == q)
    ensures p2 < delta <==> Stops(f as int, delta0 as int, one as int, m + 1)
    ensures delta as int == 10 * q0 as int == Pow10(m + 1) * delta0 as int
    ensures len <= 21
    ensures if p2 < delta
            then Ready(Pow10(m + 1) * f as int, one as int, d, q, 10 * p0 as int, p2 as int, delta as int)
            else Fraction(f as int, delta0 as int, m + 1, one as int, d * 10 + q, p2 as int, delta as int)
  {
    FractionFits(f as int, delta0 as int, m, one as int, d, p0 as int, q0 as int);
    ShortEnough(buffer[..len0]);
    var p := p0 * 10;
    delta := q0 * 10;
    DivMod(p as int, one as int);
    q := (p / one) as nat;
    FractionStep(f as int, delta0 as int, m, one as int, d, p0 as int, q0 as int, q, (p % one) as nat);
    len := Emit(buffer, len0, (p / one) as nat, d);
    p2 := p % one;
    SplitRemainder(Pow10(m + 1) * f as int, one as int, d * 10 + q, p2 as int);
  }

  /** The second loop of digit generation, for the digits behind the point. */
  method FractionDigits(f: u64, sh: nat, delta0: u64, w: u64, entry: u32, buffer: array<char>, K0: int,
                        len0: nat, ghost d0: nat, rest: u64)
    returns (len: nat, K: int, ghost kappa: int)
    requires 32 <= sh <= 60 && 21 <= buffer.Length
    requires Written(buffer, len0, d0)
    requires Fraction(f as int, delta0 as int, 0, Pow2(sh), d0, rest as int, delta0 as int)
    modifies buffer
    ensures K == K0 + kappa && kappa < 0 && len <= 21
    ensures 0 < Pow2(sh) && Fewest(f as int, delta0 as int, Pow2(sh), -kappa)
    ensures Generated(buffer, len, Scale(kappa) * f as int, Scale(kappa) * delta0 as int, Weight(kappa, Pow2(sh)))
    ensures Nearest(Scale(kappa) * f as int, Scale(kappa) * delta0 as int, Weight(kappa, Pow2(sh)),
                    Value(buffer[..len]), ScaledTarget(w, -kappa, entry) as int)
    ensures w <= delta0 ==>
              (Nearest(Scale(kappa) * f as int, Scale(kappa) * delta0 as int, Weight(kappa, Pow2(sh)),
                       Value(buffer[..len]), Scale(kappa) * w as int)
               <==> -10 < kappa
                    || !HalfwayPassed(Scale(kappa) * f as int, Scale(kappa) * delta0 as int, Weight(kappa, Pow2(sh)),
                                      w as int * entry as int, Scale(kappa) * w as int))
  {
    Pow2Range(sh);
    var one: u64 := Pow2(sh) as u64;
    var p2, delta := rest, delta0;
    var m: nat := 0;
    ghost var d: nat := d0;
    len := len0;
    while true
      invariant Written(buffer, len, d)
      invariant Fraction(f as int, delta0 as int, m, one as int, d, p2 as int, delta as int)
      invariant 0 < m ==> !Stops(f as int, delta0 as int, one as int, m)
      decreases one - delta
    {
      ghost var p0, d0 := p2, d;
      ghost var q;
      len, p2, delta, q := FractionDigit(f, delta0, one, buffer, len, p2, delta, m, d);
      d := d * 10 + q;
      m := m + 1;
      if p2 < delta {
        K := K0 - m;
        kappa := K - K0;
        Land(Pow10(m) * f as int, Pow10(m) * w as int, delta0, w, entry, m, delta, one, buffer, len, p2, d0, 10 * p0 as int, q);
        return;
      }
    }
  }

  /** Round, behind the point: g is the number scaled to the current digit, and v the target. */
  method Land(ghost g: int, ghost v: int, delta0: u64, w: u64, entry: u32, m: nat, delta: u64, one: u64, buffer: array<char>,
              len: nat, p2: u64, ghost d: nat, ghost before: int, ghost q: nat)
    requires Written(buffer, len, d * 10 + q) && 0 < one
    requires 0 < len ==> DigitValue(buffer[len - 1]) == q
    requires delta as int == Pow10(m) * delta0 as int && v == Pow10(m) * w as int
    requires Ready(g, one as int, d, q, before, p2 as int, delta as int)
    modifies buffer
    ensures Generated(buffer, len, g, delta as int, one as int)
    ensures Nearest(g, delta as int, one as int, Value(buffer[..len]), ScaledTarget(w, m, entry) as int)
    ensures w <= delta0 ==>
              (Nearest(g, delta as int, one as int, Value(buffer[..len]), v)
               <==> m < 10 || !HalfwayPassed(g, delta as int, one as int, w as int * entry as int, v))
  {
    var target := ScaledTarget(w, m, entry);
    RoundOff(buffer, len, delta, p2, one, target, g, d, before, q);
    if w <= delta0 {
      TargetReached(g, v, w, delta0, m, delta, one as int, Value(buffer[..len]), entry, target as int);
    }
  }

  /** Nearest to what the code scales the target to, the digits are nearest to the target itself
      in the table, and past it exactly when no halfway point lies between. */
  lemma {:induction false} TargetReached(g: int, v: int, w: u64, delta0: u64, m: nat, delta: u64, one: int, d: nat,
                                         entry: u32, target: int)
    requires w <= delta0 && delta as int == Pow10(m) * delta0 as int && v == Pow10(m) * w as int && 0 < one
    requires target == ScaledTarget(w, m, entry) as int
    requires g - delta as int <= d * one <= g && Nearest(g, delta as int, one, d, target)
    ensures Nearest(g, delta as int, one, d, v)
       <==> m < 10 || !HalfwayPassed(g, delta as int, one, w as int * entry as int, v)
  {
    if m < 10 {
      TargetFits(w as int, delta0 as int, m, delta as int);
      assert target == v;
    } else {
      EntryIsLess(w as int, delta0 as int, m, entry as int);
      StaysNearest(g, delta as int, one, d, target, v);
    }
  }

  lemma {:induction false} TargetFits(w: int, delta0: int, m: nat, delta: int)
    requires 0 <= w <= delta0 && delta == Pow10(m) * delta0 < WORD
    ensures w * Pow10(m) % WORD == Pow10(m) * w
  {
    MulLe(w, delta0, Pow10(m));
    assert w * Pow10(m) == Pow10(m) * w;
    assert 0 <= w * Pow10(m) by { MulLe(0, w, Pow10(m)); }
  }

  /** Round, before the point. */
  method LandWhole(f: u64, delta0: u64, w: u64, ghost one: u64, ghost k: nat, unit: u64, buffer: array<char>, len: nat, rest: u64,
                   ghost d: nat, ghost before: int, ghost q: nat)
    requires Written(buffer, len, d * 10 + q) && 0 < unit && unit as int == Pow10(k) * one as int
    requires 0 < len ==> DigitValue(buffer[len - 1]) == q
    requires Ready(f as int, unit as int, d, q, before, rest as int, delta0 as int)
    modifies buffer
    ensures Generated(buffer, len, Scale(k) * f as int, Scale(k) * delta0 as int, Weight(k, one as int))
    ensures Nearest(Scale(k) * f as int, Scale(k) * delta0 as int, Weight(k, one as int),
                    Value(buffer[..len]), Scale(k) * w as int)
  {
    Unscaled(k, one as int, f as int);
    Unscaled(k, one as int, delta0 as int);
    Unscaled(k, one as int, w as int);
    RoundOff(buffer, len, delta0, rest, unit, w, f as int, d, before, q);
  }

  /** The first loop of digit generation, for the digits before the point. */
  method WholeDigits(f: u64, sh: nat, delta0: u64, w: u64, buffer: array<char>, K0: int)
    returns (done: bool, len: nat, K: int, rest: u64, ghost kappa: int, ghost d: nat)
    requires 32 <= sh <= 60 && 0 < delta0 < f
    requires 21 <= buffer.Length
    modifies buffer
    ensures 0 < Pow2(sh) && (done <==> f as int % Pow2(sh) <= delta0 as int)
    ensures done ==> 0 <= kappa && K == K0 + kappa && len <= 21
    ensures done ==> Generated(buffer, len, Scale(kappa) * f as int, Scale(kappa) * delta0 as int, Weight(kappa, Pow2(sh)))
    ensures done ==> Nearest(Scale(kappa) * f as int, Scale(kappa) * delta0 as int, Weight(kappa, Pow2(sh)),
                             Value(buffer[..len]), Scale(kappa) * w as int)
    ensures !done ==> Written(buffer, len, d)
    ensures !done ==> Fraction(f as int, delta0 as int, 0, Pow2(sh), d, rest as int, delta0 as int)
  {
    Pow2Range(sh);
    var one: u64 := Pow2(sh) as u64;
    Parts(f as int, one as int);
    var p1 := (f / one) as u32;
    var p2 := f % one;
    var k := CountDecimalDigit32(p1);
    len, K, kappa := 0, K0, 0;
    d := 0;
    WholeStart(f as int, delta0 as int, k, one as int, p1 as int, p2 as int);
    PowerFits(f as int, one as int, p1 as int, p2 as int, k);
    while 0 < k
      invariant k <= 10 && len + k <= 10
      invariant Written(buffer, len, d)
      invariant Whole(f as int, delta0 as int, k, one as int, d, p1 as int, p2 as int)
      invariant 0 < k ==> Pow10(k - 1) * one as int < WORD
      decreases k
    {
      k := k - 1;
      var ten := TenPower(k);
      DivMod(p1 as int, ten as int);
      var q := p1 / ten;
      ghost var before, d0 := p1, d;
      p1 := p1 % ten;
      WholeStep(f as int, delta0 as int, k, one as int, d, before as int, p2 as int, q as nat, p1 as nat);
      len := Emit(buffer, len, q as nat, d);
      d := d * 10 + q as int;
      RestFits(f as int, Pow10(k) * one as int, d, p1 as int * one as int + p2 as int);
      rest := Shift(p1, one) + p2;
      if rest <= delta0 {
        K := K0 + k;
        kappa := k;
        WholeEnds(f as int, one as int, d, k, p1 as int, p2 as int);
        LandWhole(f, delta0, w, one, k, Shift(ten, one), buffer, len, rest, d0, before as int * one as int + p2 as int, q as nat);
        done := true;
        return;
      }
      if 0 < k { LowerPower(k, one as int); }
    }
    FractionStart(f as int, delta0 as int, one as int, d, p2 as int);
    WholeEnds(f as int, one as int, d, 0, 0, p2 as int);
    done, rest := false, p2;
  }

  /** Generate the digits of the upper end f * 2^-sh of an interval of width delta0 * 2^-sh, until
      what is left falls below that width, and round towards the point w below the upper end.
      The digits times 10^kappa lie in the interval. They are nearest to that point in it if and only
      if the table of powers is not left or no point halfway between two candidates lies between
      the target and what is computed from the number read past the end of the table. */
  method DigitGen(f: u64, sh: nat, delta0: u64, w: u64, entry: u32, buffer: array<char>, K0: int)
    returns (len: nat, K: int, ghost kappa: int)
    requires 32 <= sh <= 60 && 0 < delta0 < f
    requires 21 <= buffer.Length
    modifies buffer
    ensures K == K0 + kappa && len <= 21 && 0 < Pow2(sh)
    ensures Generated(buffer, len, Scale(kappa) * f as int, Scale(kappa) * delta0 as int, Weight(kappa, Pow2(sh)))
    ensures EndsAt(f as int, delta0 as int, Pow2(sh), kappa)
    ensures 0 <= kappa ==> Nearest(f as int, delta0 as int, Weight(kappa, Pow2(sh)), Value(buffer[..len]), w as int)
    ensures w <= delta0 ==>
              (Nearest(Scale(kappa) * f as int, Scale(kappa) * delta0 as int, Weight(kappa, Pow2(sh)),
                       Value(buffer[..len]), Scale(kappa) * w as int)
               <==> StaysInTable(f as int, delta0 as int, Pow2(sh))
                    || !HalfwayPassed(Scale(kappa) * f as int, Scale(kappa) * delta0 as int, Weight(kappa, Pow2(sh)),
                                      w as int * entry as int, Scale(kappa) * w as int))
  {
    var done, rest;
    ghost var d;
    done, len, K, rest, kappa, d := WholeDigits(f, sh, delta0, w, buffer, K0);
    if !done {
      len, K, kappa := FractionDigits(f, sh, delta0, w, entry, buffer, K0, len, d, rest);
      FewestInTable(f as int, delta0 as int, Pow2(sh), -kappa);
    }
  }
}
