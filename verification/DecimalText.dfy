/** Turning generated digits into text, and what such a text means to a reader. */
module DecimalText {
  import opened Decimal

  /** Position of the first c, or the length of s. */
  function Find(s: seq<char>, c: char): (i: nat)
    ensures i <= |s| && c !in s[..i] && (i < |s| ==> s[i] == c)
  {
    if s == [] || s[0] == c then 0
    else
      var i := Find(s[1..], c);
      assert s[..i + 1] == [s[0]] + s[1..][..i];
      i + 1
  }

  lemma {:induction false} FindAt(s: seq<char>, c: char, i: nat)
    requires i <= |s| && c !in s[..i] && (i < |s| ==> s[i] == c)
    ensures Find(s, c) == i
  {
    if i != 0 {
      assert s[..i][0] == s[0];
      assert s[1..][..i - 1] == s[..i][1..];
      FindAt(s[1..], c, i - 1);
    }
  }

  // A reader of numbers: digits, perhaps a point and more digits, perhaps an 'e' and an integer.

  function Mantissa(s: seq<char>): seq<char> {
    s[..Find(s, 'e')]
  }

  function WholePart(s: seq<char>): seq<char> {
    Mantissa(s)[..Find(Mantissa(s), '.')]
  }

  function FractionPart(s: seq<char>): seq<char> {
    var p := Find(Mantissa(s), '.');
    if p == |Mantissa(s)| then [] else Mantissa(s)[p + 1..]
  }

  predicate IsInteger(t: seq<char>) {
    t != [] && AllDigits(if t[0] == '-' then t[1..] else t) && t != "-"
  }

  function ReadInteger(t: seq<char>): int {
    if t != [] && t[0] == '-' then -Value(t[1..]) else Value(t)
  }

  predicate IsNumber(s: seq<char>) {
    && WholePart(s) != [] && AllDigits(WholePart(s)) && AllDigits(FractionPart(s))
    && (Find(Mantissa(s), '.') < |Mantissa(s)| ==> FractionPart(s) != [])
    && (Find(s, 'e') < |s| ==> IsInteger(s[Find(s, 'e') + 1..]))
  }

  /** The number read is ReadDigits times ten to the power of ReadExponent. */
  function ReadDigits(s: seq<char>): int {
    Value(WholePart(s) + FractionPart(s))
  }

  function ReadExponent(s: seq<char>): int {
    (if Find(s, 'e') == |s| then 0 else ReadInteger(s[Find(s, 'e') + 1..])) - |FractionPart(s)|
  }

  /** m times 10^e equals n times 10^f. */
  predicate SameNumber(m: int, e: int, n: int, f: int) {
    if e <= f then m == n * Pow10(f - e) else n == m * Pow10(e - f)
  }

  lemma {:induction false} MantissaAs(m: seq<char>, a: seq<char>, point: bool, b: seq<char>)
    requires AllDigits(a) && AllDigits(b) && (!point ==> b == [])
    requires m == if point then a + ['.'] + b else a
    ensures Find(m, '.') == |a| && (|a| < |m| <==> point)
    ensures m[..|a|] == a && (point ==> m[|a| + 1..] == b)
    ensures 'e' !in m
  {
    FindAt(m, '.', |a|);
  }

  /** How a text put together from parts is read. */
  lemma {:induction false} ReadsPlain(s: seq<char>, a: seq<char>, point: bool, b: seq<char>)
    requires a != [] && AllDigits(a) && AllDigits(b) && (point <==> b != [])
    requires s == if point then a + ['.'] + b else a
    ensures IsNumber(s) && ReadDigits(s) == Value(a + b) && ReadExponent(s) == -|b|
    ensures Find(s, 'e') == |s| && '\0' !in s
  {
    MantissaAs(s, a, point, b);
    FindAt(s, 'e', |s|);
    assert s[..|s|] == s;
  }

  /** The same with an exponent. */
  lemma {:induction false} ReadsScientific(s: seq<char>, m: seq<char>, a: seq<char>, point: bool, b: seq<char>, t: seq<char>)
    requires a != [] && AllDigits(a) && AllDigits(b) && (point <==> b != []) && IsInteger(t)
    requires m == if point then a + ['.'] + b else a
    requires s == m + ['e'] + t
    ensures IsNumber(s) && ReadDigits(s) == Value(a + b) && ReadExponent(s) == ReadInteger(t) - |b|
    ensures Find(s, 'e') < |s| && WholePart(s) == a
  {
    MantissaAs(m, a, point, b);
    assert s[..|m|] == m;
    FindAt(s, 'e', |m|);
    assert s[|m| + 1..] == t;
    assert Mantissa(s) == m;
    assert WholePart(s) == a;
    assert FractionPart(s) == b;
  }

  lemma {:induction false} NoZero(s: seq<char>, m: seq<char>, a: seq<char>, point: bool, b: seq<char>, t: seq<char>)
    requires AllDigits(a) && AllDigits(b) && IsInteger(t)
    requires m == if point then a + ['.'] + b else a
    requires s == m + ['e'] + t
    ensures '\0' !in s
  {
    assert '\0' !in m;
    assert '\0' !in t by {
      if t[0] == '-' {
        assert t == ['-'] + t[1..];
      }
    }
  }

  /** The string a C reader sees from position `at`: everything before the first zero character. */
  ghost predicate CString(buffer: array<char>, at: nat, end: nat)
    reads buffer
  {
    at <= end < buffer.Length && buffer[end] == '\0' && '\0' !in buffer[at..end]
  }

  /** The table of two-digit numbers: character i is the tens digit of i / 2 for even i, and its
      units digit for odd i. */
  function Lut(i: nat): char
    requires i < 200
  {
    DigitChar(if i % 2 == 0 then i / 2 / 10 else i / 2 % 10)
  }

  lemma {:induction false} TwoDigits(n: nat)
    requires n < 100
    ensures var t := [DigitChar(n / 10), DigitChar(n % 10)]; AllDigits(t) && Value(t) == n
  {
    assert [DigitChar(n / 10), DigitChar(n % 10)][..1] == [DigitChar(n / 10)];
    assert Value([DigitChar(n / 10)]) == n / 10;
  }

  lemma {:induction false} ThreeDigits(n: nat)
    requires n < 1000
    ensures var t := [DigitChar(n / 100), DigitChar(n % 100 / 10), DigitChar(n % 100 % 10)]; AllDigits(t) && Value(t) == n
  {
    var t := [DigitChar(n / 100), DigitChar(n % 100 / 10), DigitChar(n % 100 % 10)];
    TwoDigits(n / 10);
    assert n / 10 / 10 == n / 100 && n / 10 % 10 == n % 100 / 10 && n % 100 % 10 == n % 10;
    assert t[..2] == [DigitChar(n / 10 / 10), DigitChar(n / 10 % 10)];
  }

  /** Write a number below 1000 in decimal. */
  method WriteNatural(n: nat, buffer: array<char>, at: nat) returns (end: nat)
    requires n < 1000 && at + 3 <= buffer.Length
    modifies buffer
    ensures at < end <= at + 3 && AllDigits(buffer[at..end]) && Value(buffer[at..end]) == n
    ensures buffer[..at] == old(buffer[..at])
  {
    if 100 <= n {
      var rest := n % 100;
      ThreeDigits(n);
      buffer[at] := DigitChar(n / 100);
      buffer[at + 1] := Lut(2 * rest);
      buffer[at + 2] := Lut(2 * rest + 1);
      end := at + 3;
      assert buffer[at..end] == [DigitChar(n / 100), DigitChar(rest / 10), DigitChar(rest % 10)];
    } else if 10 <= n {
      TwoDigits(n);
      buffer[at] := Lut(2 * n);
      buffer[at + 1] := Lut(2 * n + 1);
      end := at + 2;
      assert buffer[at..end] == [DigitChar(n / 10), DigitChar(n % 10)];
    } else {
      buffer[at] := DigitChar(n);
      end := at + 1;
      assert buffer[at..end] == [DigitChar(n)];
    }
  }

  /** Write an exponent, and end the string. */
  method WriteExponent(K: int, buffer: array<char>, at: nat) returns (end: nat)
    requires -1000 < K < 1000 && at + 5 <= buffer.Length
    modifies buffer
    ensures at < end <= at + 4 && CString(buffer, at, end)
    ensures IsInteger(buffer[at..end]) && ReadInteger(buffer[at..end]) == K
    ensures buffer[..at] == old(buffer[..at])
  {
    if K < 0 {
      buffer[at] := '-';
      end := WriteNatural(-K, buffer, at + 1);
      assert buffer[at] == buffer[..at + 1][at] == '-';
      assert buffer[..at] == buffer[..at + 1][..at];
      ghost var digits := buffer[at + 1..end];
      buffer[end] := '\0';
      assert buffer[at + 1..end] == digits;
      assert buffer[at..end] == ['-'] + digits;
      assert buffer[at..end][1..] == digits;
    } else {
      end := WriteNatural(K, buffer, at);
      ghost var digits := buffer[at..end];
      buffer[end] := '\0';
      assert buffer[at..end] == digits;
    }
  }

  /** Move n characters to the right; source and target may overlap. */
  method Move(buffer: array<char>, to: nat, from: nat, n: nat)
    requires from <= to && to + n <= buffer.Length
    modifies buffer
    ensures buffer[to..to + n] == old(buffer[from..from + n])
    ensures buffer[..to] == old(buffer[..to]) && buffer[to + n..] == old(buffer[to + n..])
  {
    for i := n downto 0
      invariant forall p :: 0 <= p < to + i || to + n <= p < buffer.Length ==> buffer[p] == old(buffer[p])
      invariant forall p :: to + i <= p < to + n ==> buffer[p] == old(buffer[p - (to - from)])
    {
      buffer[to + i] := buffer[from + i];
    }
  }

  function Zeros(n: nat): seq<char> {
    seq(n, _ => '0')
  }

  /** Fill with zero characters. */
  method Fill(buffer: array<char>, from: nat, to: nat)
    requires from <= to <= buffer.Length
    modifies buffer
    ensures buffer[from..to] == Zeros(to - from)
    ensures buffer[..from] == old(buffer[..from]) && buffer[to..] == old(buffer[to..])
  {
    for i := from to to
      invariant forall p :: from <= p < i ==> buffer[p] == '0'
      invariant forall p :: 0 <= p < from || i <= p < buffer.Length ==> buffer[p] == old(buffer[p])
    {
      buffer[i] := '0';
    }
  }

  /** The text s means digits times 10^k, and is in the notation the size calls for. */
  ghost predicate Shows(s: seq<char>, digits: seq<char>, k: int) {
    && IsNumber(s) && '\0' !in s && SameNumber(ReadDigits(s), ReadExponent(s), Value(digits), k)
    && (-6 < |digits| + k <= 21 <==> Find(s, 'e') == |s|)
    && (Find(s, 'e') < |s| ==> |WholePart(s)| == 1)
  }

  lemma {:induction false} ZerosScale(digits: seq<char>, k: nat)
    ensures Value(digits + Zeros(k) + "0") == Value(digits) * Pow10(k + 1)
  {
    ValueConcat(digits, Zeros(k));
    ValueZeros(k);
    ValueAppend(digits + Zeros(k), '0');
    assert digits + Zeros(k) + ['0'] == digits + Zeros(k) + "0";
    assert Value(digits) * Pow10(k) * 10 == Value(digits) * (10 * Pow10(k));
  }

  lemma {:induction false} PlainForm(s: seq<char>, digits: seq<char>, k: nat)
    requires digits != [] && AllDigits(digits) && |digits| + k <= 21
    requires s == digits + Zeros(k) + ".0"
    ensures Shows(s, digits, k)
  {
    var a := digits + Zeros(k);
    assert s == a + ['.'] + "0";
    ReadsPlain(s, a, true, "0");
    ZerosScale(digits, k);
  }

  lemma {:induction false} PointForm(s: seq<char>, digits: seq<char>, k: int)
    requires var kk := |digits| + k; 0 < kk < |digits| && kk <= 21 && s == digits[..kk] + ['.'] + digits[kk..]
    requires AllDigits(digits)
    ensures Shows(s, digits, k)
  {
    var kk := |digits| + k;
    ReadsPlain(s, digits[..kk], true, digits[kk..]);
    assert digits[..kk] + digits[kk..] == digits;
  }

  lemma {:induction false} LeadingZeros(digits: seq<char>, z: nat)
    ensures Value("0" + (Zeros(z) + digits)) == Value(digits)
  {
    assert "0" + (Zeros(z) + digits) == Zeros(z + 1) + digits;
    ValueConcat(Zeros(z + 1), digits);
    ValueZeros(z + 1);
  }

  lemma {:induction false} SmallForm(s: seq<char>, digits: seq<char>, k: int)
    requires digits != [] && AllDigits(digits) && -6 < |digits| + k <= 0
    requires s == "0." + Zeros(0 - |digits| - k) + digits
    ensures Shows(s, digits, k)
  {
    var b := Zeros(0 - |digits| - k) + digits;
    LeadingZeros(digits, 0 - |digits| - k);
    assert s == "0" + ['.'] + b;
    ReadsPlain(s, "0", true, b);
  }

  function Significand(digits: seq<char>): seq<char>
    requires digits != []
  {
    if |digits| == 1 then digits else digits[..1] + ['.'] + digits[1..]
  }

  lemma {:induction false} ExponentForm(s: seq<char>, digits: seq<char>, k: int, t: seq<char>)
    requires digits != [] && AllDigits(digits) && !(-6 < |digits| + k <= 21)
    requires IsInteger(t) && ReadInteger(t) == |digits| + k - 1
    requires s == Significand(digits) + ['e'] + t
    ensures Shows(s, digits, k)
  {
    var m := Significand(digits);
    var a, b := digits[..1], digits[1..];
    assert a + b == digits;
    assert m == if 1 < |digits| then a + ['.'] + b else a;
    ReadsScientific(s, m, a, 1 < |digits|, b, t);
    NoZero(s, m, a, 1 < |digits|, b, t);
  }

  /** Room for the digits, eight characters more, and the longest plain number. */
  ghost predicate Room(buffer: array<char>, length: nat) {
    24 <= buffer.Length && length + 8 <= buffer.Length && 0 < length
  }

  /** The buffer holds the text s as a C string. */
  ghost predicate Holds(buffer: array<char>, end: nat, s: seq<char>)
    reads buffer
  {
    end < buffer.Length && buffer[end] == '\0' && buffer[..end] == s
  }

  method Plain(buffer: array<char>, length: nat, kk: nat, ghost digits: seq<char>) returns (end: nat)
    requires Room(buffer, length) && buffer[..length] == digits && length <= kk <= 21
    modifies buffer
    ensures Holds(buffer, end, digits + Zeros(kk - length) + ".0")
  {
    Fill(buffer, length, kk);
    assert buffer[..kk] == buffer[..length] + buffer[length..kk];
    assert buffer[..kk] == digits + Zeros(kk - length);
    buffer[kk] := '.';
    buffer[kk + 1] := '0';
    buffer[kk + 2] := '\0';
    end := kk + 2;
    assert buffer[..end] == buffer[..kk] + ".0";
  }

  method Pointed(buffer: array<char>, length: nat, kk: nat, ghost digits: seq<char>) returns (end: nat)
    requires Room(buffer, length) && buffer[..length] == digits && 0 < kk < length
    modifies buffer
    ensures Holds(buffer, end, digits[..kk] + ['.'] + digits[kk..])
  {
    Move(buffer, kk + 1, kk, length - kk);
    assert buffer[..kk] == digits[..kk] && buffer[kk + 1..length + 1] == digits[kk..];
    buffer[kk] := '.';
    buffer[length + 1] := '\0';
    end := length + 1;
    assert buffer[..kk] == digits[..kk] && buffer[kk + 1..end] == digits[kk..];
    assert buffer[..end] == buffer[..kk] + [buffer[kk]] + buffer[kk + 1..end];
  }

  lemma {:induction false} Joined(buffer: array<char>, offset: nat, end: nat)
    requires 2 <= offset <= end <= buffer.Length
    ensures buffer[..end] == buffer[..2] + buffer[2..offset] + buffer[offset..end]
  {
  }

  method Small(buffer: array<char>, length: nat, kk: int, ghost digits: seq<char>) returns (end: nat)
    requires Room(buffer, length) && buffer[..length] == digits && -6 < kk <= 0
    modifies buffer
    ensures Holds(buffer, end, "0." + Zeros(0 - kk) + digits)
  {
    var offset := 2 - kk;
    end := length + offset;
    Move(buffer, offset, 0, length);
    buffer[0] := '0';
    buffer[1] := '.';
    assert buffer[offset..end] == digits;
    assert buffer[..2] == "0.";
    label before:
    Fill(buffer, 2, offset);
    assert buffer[offset..end] == old@before(buffer[offset..end]) by {
      assert buffer[offset..end] == buffer[offset..][..length];
    }
    Joined(buffer, offset, end);
    buffer[end] := '\0';
  }

  /** The digits of an exponent form, in place and followed by the 'e'. */
  method Front(buffer: array<char>, length: nat, ghost digits: seq<char>) returns (at: nat)
    requires Room(buffer, length) && buffer[..length] == digits
    modifies buffer
    ensures at <= length + 2 && at + 5 <= buffer.Length && buffer[..at] == Significand(digits) + ['e']
  {
    if length == 1 {
      buffer[1] := 'e';
      at := 2;
    } else {
      Move(buffer, 2, 1, length - 1);
      assert buffer[2..length + 1] == digits[1..] && buffer[..2][0] == digits[0];
      buffer[1] := '.';
      buffer[length + 1] := 'e';
      at := length + 2;
      assert buffer[..at] == [buffer[0]] + [buffer[1]] + buffer[2..length + 1] + [buffer[length + 1]];
    }
  }

  method Scientific(buffer: array<char>, length: nat, kk: int, ghost digits: seq<char>)
    returns (end: nat, ghost exponent: seq<char>)
    requires Room(buffer, length) && buffer[..length] == digits && -999 < kk < 1001
    modifies buffer
    ensures IsInteger(exponent) && ReadInteger(exponent) == kk - 1
    ensures Holds(buffer, end, Significand(digits) + ['e'] + exponent)
  {
    var at := Front(buffer, length, digits);
    end := WriteExponent(kk - 1, buffer, at);
    exponent := buffer[at..end];
    assert buffer[..end] == buffer[..at] + exponent;
  }

  /** The text for digits times 10^k, when an exponent, if any, is written as t. */
  function Text(digits: seq<char>, k: int, t: seq<char>): seq<char>
    requires digits != []
  {
    var kk := |digits| + k;
    if 0 <= k && kk <= 21 then digits + Zeros(k) + ".0"
    else if 0 < kk <= 21 then digits[..kk] + ['.'] + digits[kk..]
    else if -6 < kk <= 0 then "0." + Zeros(0 - kk) + digits
    else Significand(digits) + ['e'] + t
  }

  lemma {:induction false} TextShows(s: seq<char>, digits: seq<char>, k: int, t: seq<char>)
    requires digits != [] && AllDigits(digits) && s == Text(digits, k, t)
    requires !(-6 < |digits| + k <= 21) ==> IsInteger(t) && ReadInteger(t) == |digits| + k - 1
    ensures Shows(s, digits, k)
  {
    var kk := |digits| + k;
    if 0 <= k && kk <= 21 {
      PlainForm(s, digits, k);
    } else if 0 < kk <= 21 {
      PointForm(s, digits, k);
    } else if -6 < kk <= 0 {
      SmallForm(s, digits, k);
    } else {
      ExponentForm(s, digits, k, t);
    }
  }

  lemma {:induction false} Done(buffer: array<char>, end: nat, digits: seq<char>, k: int, t: seq<char>)
    requires digits != [] && AllDigits(digits)
    requires !(-6 < |digits| + k <= 21) ==> IsInteger(t) && ReadInteger(t) == |digits| + k - 1
    requires Holds(buffer, end, Text(digits, k, t))
    ensures CString(buffer, 0, end) && Shows(buffer[..end], digits, k)
  {
    TextShows(buffer[..end], digits, k, t);
    assert buffer[0..end] == buffer[..end];
  }

  /** Rewrite generated digits into a number: plain with ".0", with a point inside, with leading
      zeros, or in exponent notation. */
  method Prettify(buffer: array<char>, length: nat, k: int) returns (end: nat)
    requires Room(buffer, length) && AllDigits(buffer[..length]) && -999 < length + k < 1001
    modifies buffer
    ensures CString(buffer, 0, end)
    ensures Shows(buffer[..end], old(buffer[..length]), k)
  {
    ghost var digits, exponent := buffer[..length], [];
    var kk := length + k;
    if length <= kk && kk <= 21 {
      end := Plain(buffer, length, kk, digits);
    } else if 0 < kk && kk <= 21 {
      end := Pointed(buffer, length, kk, digits);
    } else if -6 < kk && kk <= 0 {
      end := Small(buffer, length, kk, digits);
    } else {
      end, exponent := Scientific(buffer, length, kk, digits);
    }
    Done(buffer, end, digits, k, exponent);
  }
}
