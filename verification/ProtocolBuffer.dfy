/** Protocol-buffer encoding of integers, and of the index entry of a tag. */
module ProtocolBuffer {
  import opened Decimal
  import opened Octets

  // ---------------------------------------------------------------- base 128 varints

  /** Seven bits to a byte, the low ones first; all bytes but the last have the top bit set. */
  function Varint(v: nat): (r: Bytes)
    ensures 0 < |r|
  {
    if v < 128 then [v] else [v % 128 + 128] + Varint(v / 128)
  }

  /** What a reader of `width`-bit numbers makes of the bytes, from bit `nbit` on: the number, and
      how many bytes it takes. */
  function Decode(bytes: Bytes, nbit: nat, width: nat): (r: Option<(nat, nat)>)
    ensures r.Some? ==> 0 < r.value.1 <= |bytes|
    decreases |bytes|
  {
    if bytes == [] then None
    else
      var part := bytes[0] % 128 * Pow2(nbit);
      if bytes[0] < 128 then Some((part, 1))
      else if nbit + 7 >= width then None
      else
        var more := Decode(bytes[1..], nbit + 7, width);
        if more.None? then None else Some((part + more.value.0, more.value.1 + 1))
  }

  /** One byte of a number: the last one, one that is not, or one too many. */
  lemma {:induction false} DecodeStep(bytes: Bytes, used: nat, nbit: nat, width: nat, part: int)
    requires used < |bytes| && part == bytes[used] % 128 * Pow2(nbit)
    ensures 0 <= part
    ensures var d := Decode(bytes[used..], nbit, width);
            if bytes[used] < 128 then d == Some((part, 1))
            else if nbit + 7 >= width then d == None
            else
              var more := Decode(bytes[used + 1..], nbit + 7, width);
              d == if more.None? then None else Some((part + more.value.0, more.value.1 + 1))
  {
    assert bytes[used..][1..] == bytes[used + 1..];
    MulLe(0, bytes[used] % 128, Pow2(nbit));
  }

  lemma {:induction false} Pow2Seven(n: nat)
    ensures Pow2(n + 7) == 128 * Pow2(n)
  {
    Pow2Add(n, 7);
    assert Pow2(7) == 128;
  }

  lemma {:induction false} Pow2Below(a: nat, b: nat)
    requires Pow2(a) < Pow2(b)
    ensures a < b
  {
    if b <= a {
      Pow2Up(b, a);
      assert false;
    }
  }

  lemma {:induction false} Pow2Up(a: nat, b: nat)
    requires a <= b
    ensures Pow2(a) <= Pow2(b)
  {
    if a < b {
      Pow2Up(a, b - 1);
    }
  }

  lemma {:induction false} MulLe(a: int, b: int, t: int)
    requires a <= b && 0 <= t
    ensures a * t <= b * t
  {
  }

  /** Reading undoes writing, and takes exactly the bytes written, whatever follows them. */
  lemma {:induction false} DecodeVarint(v: nat, rest: Bytes, nbit: nat, width: nat)
    requires v * Pow2(nbit) < Pow2(width)
    ensures Decode(Varint(v) + rest, nbit, width) == Some((v * Pow2(nbit), |Varint(v)|))
    decreases v
  {
    if v >= 128 {
      Pow2Seven(nbit);
      MulLe(128, v, Pow2(nbit));
      Pow2Below(nbit + 7, width);
      var q := v / 128;
      assert v == q * 128 + v % 128;
      Pieces(q, v % 128, Pow2(nbit));
      MulLe(0, v % 128, Pow2(nbit));
      DecodeVarint(q, rest, nbit + 7, width);
      assert (Varint(v) + rest)[1..] == Varint(q) + rest;
      assert (v % 128 + 128) % 128 == v % 128;
    }
  }

  lemma {:induction false} Pieces(q: int, r: int, p: int)
    ensures (q * 128 + r) * p == r * p + q * (128 * p)
  {
    assert (q * 128 + r) * p == q * 128 * p + r * p;
    assert q * 128 * p == q * (128 * p);
  }

  lemma {:induction false} DecodeWhole(v: nat, rest: Bytes, width: nat)
    requires v < Pow2(width)
    ensures Decode(Varint(v) + rest, 0, width) == Some((v, |Varint(v)|))
  {
    DecodeVarint(v, rest, 0, width);
  }

  /** Shift right. */
  function Shr(v: nat, n: nat): nat {
    DivMod(v, Pow2(n));
    v / Pow2(n)
  }

  lemma {:induction false} ShrSeven(v: nat, n: nat)
    ensures Shr(v, n + 7) == Shr(v, n) / 128
  {
    var a, b := Pow2(n), Pow2(n + 7);
    Pow2Seven(n);
    var q, r := v / a, v % a;
    var s, t := q / 128, q % 128;
    DivMod(v, a);
    Pieces(s, t, a);
    assert q == s * 128 + t;
    MulLe(t, 127, a);
    MulLe(0, t, a);
    Quotient(v, b, s, t * a + r);
  }

  lemma {:induction false} DivMod(x: nat, y: nat)
    requires 0 < y
    ensures x == (x / y) * y + x % y && 0 <= x / y && 0 <= x % y < y
  {
  }

  lemma {:induction false} Quotient(v: nat, d: nat, q: nat, r: int)
    requires 0 < d && v == q * d + r && 0 <= r < d
    ensures v / d == q
  {
    var e := v / d - q;
    DivMod(v, d);
    assert e * d == (v / d) * d - q * d;
    if 1 <= e { MulLe(1, e, d); }
    if e <= -1 { MulLe(e, -1, d); }
  }

  lemma {:induction false} ShrSmall(v: nat, n: nat, width: nat)
    requires v < Pow2(width) && width <= n
    ensures Shr(v, n) == 0
  {
    Pow2Up(width, n);
    Quotient(v, Pow2(n), 0, v);
  }

  /** What the loop leaves for the end fits into one byte. */
  lemma {:induction false} LastByte(v: nat, nbit: nat, width: nat)
    requires v < Pow2(width) && width <= nbit + 7
    ensures Shr(v, nbit) < 128
  {
    ShrSmall(v, nbit + 7, width);
    ShrSeven(v, nbit);
  }

  /** One byte of a number, and what is left of it. */
  lemma {:induction false} VarintStep(v: nat, nbit: nat)
    ensures var here, more := Shr(v, nbit), Shr(v, nbit + 7);
            if more == 0 then here < 128 && here % 128 == here && Varint(here) == [here]
            else Varint(here) == [here % 128 + 128] + Varint(more)
  {
    ShrSeven(v, nbit);
  }

  /** Write a number of 32 or 64 bits. */
  method OutVarint(v: nat, width: nat, out0: Bytes) returns (out: Bytes)
    requires (width == 32 || width == 64) && v < Pow2(width)
    ensures out == out0 + Varint(v)
  {
    out := out0;
    var nbit: nat := 0;
    assert Shr(v, 0) == v;
    while true
      invariant nbit + 7 < width
      invariant out + Varint(Shr(v, nbit)) == out0 + Varint(v)
      decreases width - nbit
    {
      VarintStep(v, nbit);
      var ou := Shr(v, nbit) % 128;
      nbit := nbit + 7;
      if Shr(v, nbit) == 0 {
        return out + [ou];
      }
      Associate(out, [ou + 128], Varint(Shr(v, nbit)));
      out := out + [ou + 128];
      if nbit + 7 >= width { break; }
    }
    LastByte(v, nbit, width);
    if Shr(v, nbit) != 0 {
      out := out + [Shr(v, nbit)];
    }
  }

  lemma {:induction false} Associate(a: Bytes, b: Bytes, c: Bytes)
    ensures a + (b + c) == a + b + c
  {
  }

  /** The number of bytes, counted without writing them. */
  method SizeVarint(v: nat, width: nat) returns (n: nat)
    requires (width == 32 || width == 64) && v < Pow2(width)
    ensures n == |Varint(v)|
  {
    var nbit: nat := 0;
    n := 0;
    assert Shr(v, 0) == v;
    while true
      invariant nbit + 7 < width
      invariant n + |Varint(Shr(v, nbit))| == |Varint(v)|
      decreases width - nbit
    {
      VarintStep(v, nbit);
      nbit := nbit + 7;
      n := n + 1;
      if Shr(v, nbit) == 0 { return; }
      if nbit + 7 >= width { break; }
    }
    LastByte(v, nbit, width);
    if Shr(v, nbit) != 0 {
      n := n + 1;
    }
  }

  /** Read a number of the given width; what does not fit is cut off. */
  method GetVarint(bytes: Bytes, width: nat) returns (ok: bool, v: nat, used: nat)
    requires 0 < width
    ensures var d := Decode(bytes, 0, width); ok <==> d.Some?
    ensures ok ==> v == Decode(bytes, 0, width).value.0 % Pow2(width) && used == Decode(bytes, 0, width).value.1
    ensures used <= |bytes|
  {
    v, used := 0, 0;
    if bytes == [] { return false, v, used; }
    var nbit: nat := 0;
    ghost var sum: nat := 0;
    assert bytes[0..] == bytes;
    while true
      invariant used < |bytes| && nbit == 7 * used && nbit < width && v == sum % Pow2(width)
      invariant Decode(bytes[used..], nbit, width).Some? <==> Decode(bytes, 0, width).Some?
      invariant Decode(bytes, 0, width).Some? ==>
                  var d := Decode(bytes[used..], nbit, width).value;
                  Decode(bytes, 0, width).value == (sum + d.0, used + d.1)
      decreases |bytes| - used
    {
      var b := bytes[used];
      var part := b % 128 * Pow2(nbit);
      DecodeStep(bytes, used, nbit, width, part);
      ModAdd(sum, part, Pow2(width));
      v := (v + part) % Pow2(width);
      sum := sum + part;
      used := used + 1;
      if b < 128 { return true, v, used; }
      nbit := nbit + 7;
      if !(used < |bytes| && nbit < width) { return false, v, used; }
    }
  }

  lemma {:induction false} ModAdd(a: nat, b: nat, m: nat)
    requires 0 < m
    ensures (a % m + b) % m == (a + b) % m
  {
    var q := a / m;
    assert a == q * m + a % m;
    var s := a % m + b;
    assert s == (s / m) * m + s % m;
    assert a + b == (q + s / m) * m + s % m by { assert (q + s / m) * m == q * m + (s / m) * m; }
    Quotient(a + b, m, q + s / m, s % m);
  }

  // ---------------------------------------------------------------- zigzag

  /** Signed numbers with the sign in the lowest bit; the shift right keeps the sign. */
  function ZigzagEncode(v: bv64): bv64 {
    (v << 1) ^ (if v & 0x8000_0000_0000_0000 != 0 then 0xFFFF_FFFF_FFFF_FFFF else 0)
  }

  function ZigzagDecode(v: bv64): bv64 {
    (v >> 1) ^ (if v & 1 != 0 then 0xFFFF_FFFF_FFFF_FFFF else 0)
  }

  /** The same for numbers of up to four bytes. */
  function ZigzagEncode32(v: bv32): bv32 {
    (v << 1) ^ (if v & 0x8000_0000 != 0 then 0xFFFF_FFFF else 0)
  }

  function ZigzagDecode32(v: bv32): bv32 {
    (v >> 1) ^ (if v & 1 != 0 then 0xFFFF_FFFF else 0)
  }

  /** A number v >= 0 becomes 2v and a number v < 0, whose complement is -v - 1, becomes 2(-v - 1) + 1;
      decoding undoes encoding. */
  lemma {:induction false} ZigzagMeans(v: bv64)
    ensures v & 0x8000_0000_0000_0000 == 0 ==> ZigzagEncode(v) == v << 1
    ensures v & 0x8000_0000_0000_0000 != 0 ==> ZigzagEncode(v) == (!v << 1) | 1
  {
  }

  lemma {:induction false} ZigzagRoundTrip(v: bv64)
    ensures ZigzagDecode(ZigzagEncode(v)) == v && ZigzagEncode(ZigzagDecode(v)) == v
  {
  }

  lemma {:induction false} ZigzagMeans32(v: bv32)
    ensures v & 0x8000_0000 == 0 ==> ZigzagEncode32(v) == v << 1
    ensures v & 0x8000_0000 != 0 ==> ZigzagEncode32(v) == (!v << 1) | 1
  {
  }

  lemma {:induction false} ZigzagRoundTrip32(v: bv32)
    ensures ZigzagDecode32(ZigzagEncode32(v)) == v && ZigzagEncode32(ZigzagDecode32(v)) == v
  {
  }

  // ---------------------------------------------------------------- the index entry of a tag

  const U32 := 0x1_0000_0000
  const U64 := 0x1_0000_0000_0000_0000
  const I64 := 0x8000_0000_0000_0000

  /** Index entry: page numbers are signed. */
  datatype Entry = Entry(recpos: nat, numidx: nat, rootindxpgno: int, rootdatapgno: int, tagid: nat, name: Bytes)

  const FRESH := Entry(U32 - 1, 0, -1, -1, 0, [])

  ghost predicate EntryOk(e: Entry) {
    && e.recpos < U32 && e.numidx < U32 && e.tagid < U32
    && -I64 <= e.rootindxpgno < I64 && -I64 <= e.rootdatapgno < I64 && |e.name| < U32 / 2
  }

  const ID_NAME := 1
  const ID_RECPOS := 2
  const ID_NUMIDX := 3
  const ID_ROOTINDXPGNO := 4
  const ID_TAGID := 5
  const ID_ROOTDATAPGNO := 6

  /** A signed number as the unsigned one with the same bits, and back. */
  function Unsigned(v: int): nat
    requires -I64 <= v < I64
  {
    if v < 0 then v + U64 else v
  }

  function Signed(v: nat): int {
    if v % U64 < I64 then v % U64 else v % U64 - U64
  }

  /** A number field; zero is left out. */
  function VarField(id: nat, v: nat): Bytes {
    if v == 0 then [] else Varint(id * 8) + Varint(v)
  }

  /** A field of bytes; the empty one is left out. */
  function BytesField(id: nat, data: Bytes): Bytes {
    if data == [] then [] else Varint(id * 8 + 2) + Varint(|data|) + data
  }

  function Encode(e: Entry): Bytes
    requires -I64 <= e.rootindxpgno < I64 && -I64 <= e.rootdatapgno < I64
  {
    VarField(ID_TAGID, e.tagid) + VarField(ID_RECPOS, e.recpos) + VarField(ID_NUMIDX, e.numidx)
    + VarField(ID_ROOTINDXPGNO, Unsigned(e.rootindxpgno)) + VarField(ID_ROOTDATAPGNO, Unsigned(e.rootdatapgno))
    + BytesField(ID_NAME, e.name)
  }

  function OnVar(e: Entry, id: nat, v: nat): Entry {
    if id == ID_RECPOS then e.(recpos := v % U32)
    else if id == ID_NUMIDX then e.(numidx := v % U32)
    else if id == ID_ROOTINDXPGNO then e.(rootindxpgno := Signed(v))
    else if id == ID_ROOTDATAPGNO then e.(rootdatapgno := Signed(v))
    else if id == ID_TAGID then e.(tagid := v % U32)
    else e
  }

  function OnBytes(e: Entry, id: nat, data: Bytes): Entry {
    if id == ID_NAME then e.(name := data) else e
  }

  /** What is reset before parsing: everything but the tag identifier. */
  function Cleared(e: Entry): Entry {
    Entry(0, 0, 0, 0, e.tagid, [])
  }

  datatype Outcome = Parsed(e: Entry) | Failed | NotModelled

  /** The fields of a message, one after the other. */
  function Fields(bytes: Bytes, e: Entry): Outcome
    decreases |bytes|
  {
    if bytes == [] then Parsed(e)
    else
      var key := Decode(bytes, 0, 32);
      if key.None? then Failed
      else Field(key.value.0 % U32 / 8, key.value.0 % U32 % 8, bytes[key.value.1..], e)
  }

  function Field(id: nat, wire: nat, rest: Bytes, e: Entry): Outcome
    decreases |rest|, 1
  {
    if wire == 0 then
      var v := Decode(rest, 0, 64);
      if v.None? then Failed else Fields(rest[v.value.1..], OnVar(e, id, v.value.0 % U64))
    else if wire == 2 then
      var n := Decode(rest, 0, 32);
      if n.None? then Failed
      else
        var size, data := n.value.0 % U32, rest[n.value.1..];
        if size >= U32 / 2 then NotModelled
        else if |data| < size then Failed
        else Fields(data[size..], OnBytes(e, id, data[..size]))
    else if wire == 5 then
      if |rest| < 4 then Failed else Fields(rest[4..], e)
    else if wire == 1 then
      if |rest| < 8 then Failed else Fields(rest[8..], e)
    else Failed
  }

  // ---------------------------------------------------------------- round trip

  lemma {:induction false} Widths()
    ensures Pow2(32) == U32 && Pow2(64) == U64
  {
    assert Pow2(8) == 256;
    Pow2Add(8, 8);
    Pow2Add(16, 16);
    Pow2Add(32, 32);
  }

  /** One key. */
  lemma {:induction false} KeyStep(bytes: Bytes, key: nat, n: nat, e: Entry)
    requires bytes != [] && Decode(bytes, 0, 32) == Some((key, n)) && key < U32
    ensures Fields(bytes, e) == Field(key / 8, key % 8, bytes[n..], e)
  {
    assert key % U32 == key;
  }

  lemma {:induction false} VarStep(rest: Bytes, id: nat, v: nat, n: nat, e: Entry)
    requires Decode(rest, 0, 64) == Some((v, n)) && v < U64
    ensures Field(id, 0, rest, e) == Fields(rest[n..], OnVar(e, id, v))
  {
    assert v % U64 == v;
  }

  lemma {:induction false} BytesStep(rest: Bytes, id: nat, size: nat, n: nat, e: Entry)
    requires Decode(rest, 0, 32) == Some((size, n)) && size < U32 / 2 && size <= |rest| - n
    ensures Field(id, 2, rest, e) == Fields(rest[n..][size..], OnBytes(e, id, rest[n..][..size]))
  {
    assert size % U32 == size;
  }

  lemma {:induction false} ReadKey(id: nat, wire: nat, rest: Bytes, e: Entry)
    requires id < U32 / 8 && wire < 8
    ensures Fields(Varint(id * 8 + wire) + rest, e) == Field(id, wire, rest, e)
  {
    Widths();
    var k := id * 8 + wire;
    DecodeWhole(k, rest, 32);
    var bytes := Varint(k) + rest;
    assert bytes[|Varint(k)|..] == rest;
    KeyStep(bytes, k, |Varint(k)|, e);
    assert k / 8 == id && k % 8 == wire;
  }

  lemma {:induction false} ReadVarField(id: nat, v: nat, rest: Bytes, e: Entry)
    requires id < 1000 && v < U64
    ensures Fields(VarField(id, v) + rest, e) == Fields(rest, if v == 0 then e else OnVar(e, id, v))
  {
    if v == 0 {
      assert VarField(id, v) + rest == rest;
    } else {
      Widths();
      var more := Varint(v) + rest;
      assert VarField(id, v) + rest == Varint(id * 8) + more;
      ReadKey(id, 0, more, e);
      DecodeWhole(v, rest, 64);
      assert more[|Varint(v)|..] == rest;
      VarStep(more, id, v, |Varint(v)|, e);
    }
  }

  lemma {:induction false} BytesFieldParts(id: nat, data: Bytes, rest: Bytes)
    ensures data == [] ==> BytesField(id, data) + rest == rest
    ensures data != [] ==> BytesField(id, data) + rest == Varint(id * 8 + 2) + (Varint(|data|) + (data + rest))
  {
  }

  lemma {:induction false} ReadBytesField(id: nat, data: Bytes, rest: Bytes, e: Entry)
    requires id < 1000 && |data| < U32 / 2
    ensures Fields(BytesField(id, data) + rest, e) == Fields(rest, if data == [] then e else OnBytes(e, id, data))
  {
    BytesFieldParts(id, data, rest);
    if data != [] {
      ReadKey(id, 2, Varint(|data|) + (data + rest), e);
      ReadBytes(id, data, rest, e);
    }
  }

  lemma {:induction false} ReadBytes(id: nat, data: Bytes, rest: Bytes, e: Entry)
    requires |data| < U32 / 2
    ensures Field(id, 2, Varint(|data|) + (data + rest), e) == Fields(rest, OnBytes(e, id, data))
  {
    Widths();
    var more := Varint(|data|) + (data + rest);
    DecodeWhole(|data|, data + rest, 32);
    assert more[|Varint(|data|)|..] == data + rest;
    assert (data + rest)[|data|..] == rest && (data + rest)[..|data|] == data;
    BytesStep(more, id, |data|, |Varint(|data|)|, e);
  }

  lemma {:induction false} SignedBack(v: int)
    requires -I64 <= v < I64
    ensures Unsigned(v) < U64 && Signed(Unsigned(v)) == v && (Unsigned(v) == 0 <==> v == 0)
  {
  }

  /** A value of 32 bits is taken over as it is. */
  lemma {:induction false} NumberTaken(e: Entry, id: nat, v: nat)
    requires v < U32
    ensures id == ID_TAGID ==> OnVar(e, id, v) == e.(tagid := v)
    ensures id == ID_RECPOS ==> OnVar(e, id, v) == e.(recpos := v)
    ensures id == ID_NUMIDX ==> OnVar(e, id, v) == e.(numidx := v)
  {
  }

  /** The message, field by field. */
  lemma {:induction false} ParseNumbers(e: Entry, rest: Bytes, c: Entry)
    requires EntryOk(e) && c.recpos == 0 && c.numidx == 0
    ensures var tagid := if e.tagid == 0 then c.tagid else e.tagid;
            Fields(VarField(ID_TAGID, e.tagid) + (VarField(ID_RECPOS, e.recpos) + (VarField(ID_NUMIDX, e.numidx) + rest)), c)
            == Fields(rest, c.(tagid := tagid, recpos := e.recpos, numidx := e.numidx))
  {
    var f2 := VarField(ID_NUMIDX, e.numidx) + rest;
    var f1 := VarField(ID_RECPOS, e.recpos) + f2;
    var c1 := c.(tagid := if e.tagid == 0 then c.tagid else e.tagid);
    var c2 := c1.(recpos := e.recpos);
    NumberTaken(c, ID_TAGID, e.tagid);
    NumberTaken(c1, ID_RECPOS, e.recpos);
    NumberTaken(c2, ID_NUMIDX, e.numidx);
    ReadVarField(ID_TAGID, e.tagid, f1, c);
    ReadVarField(ID_RECPOS, e.recpos, f2, c1);
    ReadVarField(ID_NUMIDX, e.numidx, rest, c2);
  }

  lemma {:induction false} ParsePages(e: Entry, rest: Bytes, c: Entry)
    requires EntryOk(e) && c.rootindxpgno == 0 && c.rootdatapgno == 0
    ensures Fields(VarField(ID_ROOTINDXPGNO, Unsigned(e.rootindxpgno)) + (VarField(ID_ROOTDATAPGNO, Unsigned(e.rootdatapgno)) + rest), c)
         == Fields(rest, c.(rootindxpgno := e.rootindxpgno, rootdatapgno := e.rootdatapgno))
  {
    SignedBack(e.rootindxpgno);
    SignedBack(e.rootdatapgno);
    var f := VarField(ID_ROOTDATAPGNO, Unsigned(e.rootdatapgno)) + rest;
    ReadVarField(ID_ROOTINDXPGNO, Unsigned(e.rootindxpgno), f, c);
    ReadVarField(ID_ROOTDATAPGNO, Unsigned(e.rootdatapgno), rest, c.(rootindxpgno := e.rootindxpgno));
  }

  /** Parsing what was written gives the entry back, except that a tag identifier of zero is not
      written and not reset, so that the old one of the object stays. */
  lemma {:induction false} ParseUndoesEncode(e: Entry, before: Entry)
    requires EntryOk(e)
    ensures Fields(Encode(e), Cleared(before)) == Parsed(if e.tagid == 0 then e.(tagid := before.tagid) else e)
  {
    var f5 := BytesField(ID_NAME, e.name);
    var f3 := VarField(ID_ROOTINDXPGNO, Unsigned(e.rootindxpgno)) + (VarField(ID_ROOTDATAPGNO, Unsigned(e.rootdatapgno)) + f5);
    Reassociate(e, VarField(ID_RECPOS, e.recpos) + (VarField(ID_NUMIDX, e.numidx) + f3));
    var c := Cleared(before);
    ParseNumbers(e, f3, c);
    var d := c.(tagid := if e.tagid == 0 then c.tagid else e.tagid, recpos := e.recpos, numidx := e.numidx);
    ParsePages(e, f5, d);
    assert f5 + [] == f5;
    ReadBytesField(ID_NAME, e.name, [], d.(rootindxpgno := e.rootindxpgno, rootdatapgno := e.rootdatapgno));
  }

  lemma {:induction false} Reassociate(e: Entry, f1: Bytes)
    requires EntryOk(e)
    requires f1 == VarField(ID_RECPOS, e.recpos) + (VarField(ID_NUMIDX, e.numidx) + (VarField(ID_ROOTINDXPGNO, Unsigned(e.rootindxpgno))
                   + (VarField(ID_ROOTDATAPGNO, Unsigned(e.rootdatapgno)) + BytesField(ID_NAME, e.name))))
    ensures Encode(e) == VarField(ID_TAGID, e.tagid) + f1
  {
  }

  /** Into a fresh object the round trip is exact. */
  lemma {:induction false} ParseFresh(e: Entry)
    requires EntryOk(e)
    ensures Fields(Encode(e), Cleared(FRESH)) == Parsed(e)
  {
    ParseUndoesEncode(e, FRESH);
  }

  /** Into a used object it need not be: the old tag identifier survives a zero. */
  lemma {:induction false} StaleTagId(e: Entry, before: Entry)
    requires EntryOk(e)
    ensures Fields(Encode(e), Cleared(before)) == Parsed(e) <==> e.tagid != 0 || before.tagid == 0
  {
    ParseUndoesEncode(e, before);
  }

  lemma {:induction false} BytesAt(bytes: Bytes, id: nat, e: Entry, size: nat, n: nat)
    requires Decode(bytes, 0, 32).Some? && n == Decode(bytes, 0, 32).value.1 && size == Decode(bytes, 0, 32).value.0 % U32
    ensures Field(id, 2, bytes, e)
         == if size >= U32 / 2 then NotModelled
            else if |bytes| - n < size then Failed
            else Fields(bytes[n + size..], OnBytes(e, id, bytes[n..n + size]))
  {
    if size <= |bytes| - n {
      assert bytes[n..][..size] == bytes[n..n + size] && bytes[n..][size..] == bytes[n + size..];
    }
  }

  /** A field of bytes. */
  method ParseBytes(bytes: Bytes, id: nat, e: Entry) returns (r: Outcome, used: nat)
    ensures used <= |bytes|
    ensures Field(id, 2, bytes, e) == if r.Parsed? then Fields(bytes[used..], r.e) else r
  {
    Widths();
    var ok, size, n := GetVarint(bytes, 32);
    if !ok { return Failed, n; }
    BytesAt(bytes, id, e, size, n);
    if size >= U32 / 2 { return NotModelled, n; }
    if |bytes| - n < size { return Failed, n; }
    return Parsed(OnBytes(e, id, bytes[n..n + size])), n + size;
  }

  /** One field, whatever it is: where it ends, and what it does to the entry. */
  method ParseField(bytes: Bytes, id: nat, wire: nat, e: Entry) returns (r: Outcome, used: nat)
    ensures used <= |bytes|
    ensures Field(id, wire, bytes, e) == if r.Parsed? then Fields(bytes[used..], r.e) else r
  {
    if wire == 0 {
      Widths();
      var ok, v;
      ok, v, used := GetVarint(bytes, 64);
      return if ok then Parsed(OnVar(e, id, v)) else Failed, used;
    } else if wire == 2 {
      r, used := ParseBytes(bytes, id, e);
    } else if wire == 5 || wire == 1 {
      used := if wire == 5 then 4 else 8;
      if |bytes| < used { return Failed, 0; }
      r := Parsed(e);
    } else {
      return Failed, 0;
    }
  }

  /** The key of a field. */
  method GetKey(bytes: Bytes, ghost e: Entry) returns (ok: bool, id: nat, wire: nat, used: nat)
    requires bytes != []
    ensures used <= |bytes| && (ok ==> 0 < used)
    ensures Fields(bytes, e) == if ok then Field(id, wire, bytes[used..], e) else Failed
  {
    Widths();
    var key;
    ok, key, used := GetVarint(bytes, 32);
    id, wire := key / 8, key % 8;
  }

  /** The parser: fields until the bytes are used up. */
  method Parse(bytes: Bytes, before: Entry) returns (r: Outcome)
    ensures r == Fields(bytes, Cleared(before))
  {
    var e := Cleared(before);
    var rest := bytes;
    while rest != []
      invariant Fields(rest, e) == Fields(bytes, Cleared(before))
      decreases |rest|
    {
      var ok, id, wire, used := GetKey(rest, e);
      if !ok { return Failed; }
      rest := rest[used..];
      r, used := ParseField(rest, id, wire, e);
      if !r.Parsed? { return; }
      e := r.e;
      rest := rest[used..];
    }
    r := Parsed(e);
  }

  /** Write the fields of an entry. */
  method OutContent(e: Entry, out0: Bytes) returns (out: Bytes)
    requires EntryOk(e)
    ensures out == out0 + Encode(e)
  {
    SignedBack(e.rootindxpgno);
    SignedBack(e.rootdatapgno);
    out := OutVar(out0, ID_TAGID, e.tagid);
    out := OutVar(out, ID_RECPOS, e.recpos);
    out := OutVar(out, ID_NUMIDX, e.numidx);
    out := OutVar(out, ID_ROOTINDXPGNO, Unsigned(e.rootindxpgno));
    out := OutVar(out, ID_ROOTDATAPGNO, Unsigned(e.rootdatapgno));
    out := OutBytes(out, ID_NAME, e.name);
    Join(out0, VarField(ID_TAGID, e.tagid), VarField(ID_RECPOS, e.recpos), VarField(ID_NUMIDX, e.numidx),
         VarField(ID_ROOTINDXPGNO, Unsigned(e.rootindxpgno)), VarField(ID_ROOTDATAPGNO, Unsigned(e.rootdatapgno)),
         BytesField(ID_NAME, e.name));
  }

  lemma {:induction false} Join(o: Bytes, a: Bytes, b: Bytes, c: Bytes, d: Bytes, e: Bytes, f: Bytes)
    ensures o + a + b + c + d + e + f == o + (a + b + c + d + e + f)
  {
  }

  method OutVar(out0: Bytes, id: nat, v: nat) returns (out: Bytes)
    requires id < 1000 && v < U64
    ensures out == out0 + VarField(id, v)
  {
    Widths();
    if v == 0 { return out0; }
    out := OutVarint(id * 8, 32, out0);
    out := OutVarint(v, 64, out);
    Associate(out0, Varint(id * 8), Varint(v));
  }

  method OutBytes(out0: Bytes, id: nat, data: Bytes) returns (out: Bytes)
    requires id < 1000 && |data| < U32 / 2
    ensures out == out0 + BytesField(id, data)
  {
    Widths();
    if data == [] { return out0; }
    out := OutVarint(id * 8 + 2, 32, out0);
    ghost var k := Varint(id * 8 + 2);
    out := OutVarint(|data|, 64, out);
    assert out + data == out0 + (k + Varint(|data|) + data);
    out := out + data;
  }

  /** The size reckoned in advance is the number of bytes written. */
  method SizeContent(e: Entry) returns (n: nat)
    requires EntryOk(e)
    ensures n == |Encode(e)|
  {
    SignedBack(e.rootindxpgno);
    SignedBack(e.rootdatapgno);
    var a := SizeVar(ID_TAGID, e.tagid);
    var b := SizeVar(ID_RECPOS, e.recpos);
    var c := SizeVar(ID_NUMIDX, e.numidx);
    var d := SizeVar(ID_ROOTINDXPGNO, Unsigned(e.rootindxpgno));
    var f := SizeVar(ID_ROOTDATAPGNO, Unsigned(e.rootdatapgno));
    n := a + b + c + d + f;
    if e.name != [] {
      Widths();
      var k := SizeVarint(ID_NAME * 8 + 2, 32);
      var l := SizeVarint(|e.name|, 64);
      n := n + k + l + |e.name|;
    }
  }

  method SizeVar(id: nat, v: nat) returns (n: nat)
    requires id < 1000 && v < U64
    ensures n == |VarField(id, v)|
  {
    Widths();
    if v == 0 { return 0; }
    var a := SizeVarint(id * 8, 32);
    var b := SizeVarint(v, 64);
    n := a + b;
  }

  // ---------------------------------------------------------------- fields that are passed over

  /** A field of four fixed bytes (wire type 5) or of eight (wire type 1) in front of a message changes
      nothing; cut short it makes the message unreadable. */
  lemma {:induction false} FixedPassedOver(id: nat, data: Bytes, rest: Bytes, e: Entry)
    requires id < U32 / 8
    ensures |data| == 4 ==> Fields(Varint(id * 8 + 5) + (data + rest), e) == Fields(rest, e)
    ensures |data| == 8 ==> Fields(Varint(id * 8 + 1) + (data + rest), e) == Fields(rest, e)
    ensures |data| < 4 ==> Fields(Varint(id * 8 + 5) + data, e) == Failed
    ensures |data| < 8 ==> Fields(Varint(id * 8 + 1) + data, e) == Failed
  {
    ReadKey(id, 5, data + rest, e);
    ReadKey(id, 1, data + rest, e);
    ReadKey(id, 5, data, e);
    ReadKey(id, 1, data, e);
    assert (data + rest)[|data|..] == rest;
  }

  /** A wire type of 3, 4, 6 or 7 makes the message unreadable. */
  lemma {:induction false} UnknownWireType(id: nat, wire: nat, rest: Bytes, e: Entry)
    requires id < U32 / 8 && wire in {3, 4, 6, 7}
    ensures Fields(Varint(id * 8 + wire) + rest, e) == Failed
  {
    ReadKey(id, wire, rest, e);
  }

  /** A number or a string under an identifier that the entry does not have changes nothing. */
  lemma {:induction false} UnknownNumber(id: nat, v: nat, rest: Bytes, e: Entry)
    requires 6 < id < U32 / 8 && v < U64
    ensures Fields(Varint(id * 8) + (Varint(v) + rest), e) == Fields(rest, e)
  {
    Widths();
    var more := Varint(v) + rest;
    ReadKey(id, 0, more, e);
    DecodeWhole(v, rest, 64);
    assert more[|Varint(v)|..] == rest;
    VarStep(more, id, v, |Varint(v)|, e);
  }

  lemma {:induction false} UnknownString(id: nat, data: Bytes, rest: Bytes, e: Entry)
    requires 6 < id < U32 / 8 && |data| < U32 / 2
    ensures Fields(Varint(id * 8 + 2) + (Varint(|data|) + (data + rest)), e) == Fields(rest, e)
  {
    ReadKey(id, 2, Varint(|data|) + (data + rest), e);
    ReadBytes(id, data, rest, e);
  }

  // ---------------------------------------------------------------- bytes as they are sent

  lemma {:induction false} NumbersAsBytes()
    ensures Varint(0) == [0x00] && Varint(127) == [0x7f]
    ensures Varint(128) == [0x80, 0x01] && Varint(300) == [0xac, 0x02] && Varint(16384) == [0x80, 0x80, 0x01]
  {
    assert Varint(128 / 128) == [1] && Varint(300 / 128) == [2];
    assert Varint(16384 / 128) == [0x80] + Varint(1);
    assert Varint(1) == [1];
  }

  /** An entry byte by byte: the fields in the order 5, 2, 3, 4, 6 and 1. */
  lemma {:induction false} EntryAsBytes()
    ensures Encode(Entry(1, 300, 9, 2, 7, [97, 98]))
         == [0x28, 0x07, 0x10, 0x01, 0x18, 0xac, 0x02, 0x20, 0x09, 0x30, 0x02, 0x0a, 0x02, 97, 98]
  {
    NumbersAsBytes();
    assert VarField(ID_TAGID, 7) == [0x28, 0x07];
    assert VarField(ID_RECPOS, 1) == [0x10, 0x01];
    assert VarField(ID_NUMIDX, 300) == [0x18, 0xac, 0x02];
    assert VarField(ID_ROOTINDXPGNO, 9) == [0x20, 0x09];
    assert VarField(ID_ROOTDATAPGNO, 2) == [0x30, 0x02];
    assert BytesField(ID_NAME, [97, 98]) == [0x0a, 0x02, 97, 98];
  }

  /** A page number of -1 is sent in ten bytes. */
  lemma {:induction false} NegativeAsBytes()
    ensures VarField(ID_ROOTINDXPGNO, Unsigned(-1))
         == [0x20, 0xff, 0xff, 0xff, 0xff, 0xff, 0xff, 0xff, 0xff, 0xff, 0x01]
  {
    assert Varint(0x1) == [0x01];
    assert Varint(0xFF) == [0xff] + Varint(0x1);
    assert Varint(0x7FFF) == [0xff] + Varint(0xFF);
    assert Varint(0x3FFFFF) == [0xff] + Varint(0x7FFF);
    assert Varint(0x1FFFFFFF) == [0xff] + Varint(0x3FFFFF);
    assert Varint(0xFFFFFFFFF) == [0xff] + Varint(0x1FFFFFFF);
    assert Varint(0x7FFFFFFFFFF) == [0xff] + Varint(0xFFFFFFFFF);
    assert Varint(0x3FFFFFFFFFFFF) == [0xff] + Varint(0x7FFFFFFFFFF);
    assert Varint(0x1FFFFFFFFFFFFFF) == [0xff] + Varint(0x3FFFFFFFFFFFF);
    assert Varint(0xFFFFFFFFFFFFFFFF) == [0xff] + Varint(0x1FFFFFFFFFFFFFF);
  }
}
