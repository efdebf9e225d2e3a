/** Arithmetic on bytes for the block cipher of ec_aes256.h: the substitution tables and the field
    GF(2^8), as FIPS 197 has them in its sections 4 and 5. */
module AesBytes {
  /** The substitution table, as a choice by the bits of the index. */
  function SBox(x: bv8): bv8 {
    var b7, b6, b5, b4 := x & 0x80 != 0, x & 0x40 != 0, x & 0x20 != 0, x & 0x10 != 0;
    var b3, b2, b1, b0 := x & 0x08 != 0, x & 0x04 != 0, x & 0x02 != 0, x & 0x01 != 0;
    if b7 then
      if b6 then
        if b5 then
          if b4 then
            if b3 then
              if b2 then (if b1 then (if b0 then 0x16 else 0xbb) else (if b0 then 0x54 else 0xb0))
              else (if b1 then (if b0 then 0x0f else 0x2d) else (if b0 then 0x99 else 0x41))
            else
              if b2 then (if b1 then (if b0 then 0x68 else 0x42) else (if b0 then 0xe6 else 0xbf))
              else (if b1 then (if b0 then 0x0d else 0x89) else (if b0 then 0xa1 else 0x8c))
          else
            if b3 then
              if b2 then (if b1 then (if b0 then 0xdf else 0x28) else (if b0 then 0x55 else 0xce))
              else (if b1 then (if b0 then 0xe9 else 0x87) else (if b0 then 0x1e else 0x9b))
            else
              if b2 then (if b1 then (if b0 then 0x94 else 0x8e) else (if b0 then 0xd9 else 0x69))
              else (if b1 then (if b0 then 0x11 else 0x98) else (if b0 then 0xf8 else 0xe1))
        else
          if b4 then
            if b3 then
              if b2 then (if b1 then (if b0 then 0x9e else 0x1d) else (if b0 then 0xc1 else 0x86))
              else (if b1 then (if b0 then 0xb9 else 0x57) else (if b0 then 0x35 else 0x61))
            else
              if b2 then (if b1 then (if b0 then 0x0e else 0xf6) else (if b0 then 0x03 else 0x48))
              else (if b1 then (if b0 then 0x66 else 0xb5) else (if b0 then 0x3e else 0x70))
          else
            if b3 then
              if b2 then (if b1 then (if b0 then 0x8a else 0x8b) else (if b0 then 0xbd else 0x4b))
              else (if b1 then (if b0 then 0x1f else 0x74) else (if b0 then 0xdd else 0xe8))
            else
              if b2 then (if b1 then (if b0 then 0xc6 else 0xb4) else (if b0 then 0xa6 else 0x1c))
              else (if b1 then (if b0 then 0x2e else 0x25) else (if b0 then 0x78 else 0xba))
      else
        if b5 then
          if b4 then
            if b3 then
              if b2 then (if b1 then (if b0 then 0x08 else 0xae) else (if b0 then 0x7a else 0x65))
              else (if b1 then (if b0 then 0xea else 0xf4) else (if b0 then 0x56 else 0x6c))
            else
              if b2 then (if b1 then (if b0 then 0xa9 else 0x4e) else (if b0 then 0xd5 else 0x8d))
              else (if b1 then (if b0 then 0x6d else 0x37) else (if b0 then 0xc8 else 0xe7))
          else
            if b3 then
              if b2 then (if b1 then (if b0 then 0x79 else 0xe4) else (if b0 then 0x95 else 0x91))
              else (if b1 then (if b0 then 0x62 else 0xac) else (if b0 then 0xd3 else 0xc2))
            else
              if b2 then (if b1 then (if b0 then 0x5c else 0x24) else (if b0 then 0x06 else 0x49))
              else (if b1 then (if b0 then 0x0a else 0x3a) else (if b0 then 0x32 else 0xe0))
        else
          if b4 then
            if b3 then
              if b2 then (if b1 then (if b0 then 0xdb else 0x0b) else (if b0 then 0x5e else 0xde))
              else (if b1 then (if b0 then 0x14 else 0xb8) else (if b0 then 0xee else 0x46))
            else
              if b2 then (if b1 then (if b0 then 0x88 else 0x90) else (if b0 then 0x2a else 0x22))
              else (if b1 then (if b0 then 0xdc else 0x4f) else (if b0 then 0x81 else 0x60))
          else
            if b3 then
              if b2 then (if b1 then (if b0 then 0x73 else 0x19) else (if b0 then 0x5d else 0x64))
              else (if b1 then (if b0 then 0x3d else 0x7e) else (if b0 then 0xa7 else 0xc4))
            else
              if b2 then (if b1 then (if b0 then 0x17 else 0x44) else (if b0 then 0x97 else 0x5f))
              else (if b1 then (if b0 then 0xec else 0x13) else (if b0 then 0x0c else 0xcd))
    else
      if b6 then
        if b5 then
          if b4 then
            if b3 then
              if b2 then (if b1 then (if b0 then 0xd2 else 0xf3) else (if b0 then 0xff else 0x10))
              else (if b1 then (if b0 then 0x21 else 0xda) else (if b0 then 0xb6 else 0xbc))
            else
              if b2 then (if b1 then (if b0 then 0xf5 else 0x38) else (if b0 then 0x9d else 0x92))
              else (if b1 then (if b0 then 0x8f else 0x40) else (if b0 then 0xa3 else 0x51))
          else
            if b3 then
              if b2 then (if b1 then (if b0 then 0xa8 else 0x9f) else (if b0 then 0x3c else 0x50))
              else (if b1 then (if b0 then 0x7f else 0x02) else (if b0 then 0xf9 else 0x45))
            else
              if b2 then (if b1 then (if b0 then 0x85 else 0x33) else (if b0 then 0x4d else 0x43))
              else (if b1 then (if b0 then 0xfb else 0xaa) else (if b0 then 0xef else 0xd0))
        else
          if b4 then
            if b3 then
              if b2 then (if b1 then (if b0 then 0xcf else 0x58) else (if b0 then 0x4c else 0x4a))
              else (if b1 then (if b0 then 0x39 else 0xbe) else (if b0 then 0xcb else 0x6a))
            else
              if b2 then (if b1 then (if b0 then 0x5b else 0xb1) else (if b0 then 0xfc else 0x20))
              else (if b1 then (if b0 then 0xed else 0x00) else (if b0 then 0xd1 else 0x53))
          else
            if b3 then
              if b2 then (if b1 then (if b0 then 0x84 else 0x2f) else (if b0 then 0xe3 else 0x29))
              else (if b1 then (if b0 then 0xb3 else 0xd6) else (if b0 then 0x3b else 0x52))
            else
              if b2 then (if b1 then (if b0 then 0xa0 else 0x5a) else (if b0 then 0x6e else 0x1b))
              else (if b1 then (if b0 then 0x1a else 0x2c) else (if b0 then 0x83 else 0x09))
      else
        if b5 then
          if b4 then
            if b3 then
              if b2 then (if b1 then (if b0 then 0x75 else 0xb2) else (if b0 then 0x27 else 0xeb))
              else (if b1 then (if b0 then 0xe2 else 0x80) else (if b0 then 0x12 else 0x07))
            else
              if b2 then (if b1 then (if b0 then 0x9a else 0x05) else (if b0 then 0x96 else 0x18))
              else (if b1 then (if b0 then 0xc3 else 0x23) else (if b0 then 0xc7 else 0x04))
          else
            if b3 then
              if b2 then (if b1 then (if b0 then 0x15 else 0x31) else (if b0 then 0xd8 else 0x71))
              else (if b1 then (if b0 then 0xf1 else 0xe5) else (if b0 then 0xa5 else 0x34))
            else
              if b2 then (if b1 then (if b0 then 0xcc else 0xf7) else (if b0 then 0x3f else 0x36))
              else (if b1 then (if b0 then 0x26 else 0x93) else (if b0 then 0xfd else 0xb7))
        else
          if b4 then
            if b3 then
              if b2 then (if b1 then (if b0 then 0xc0 else 0x72) else (if b0 then 0xa4 else 0x9c))
              else (if b1 then (if b0 then 0xaf else 0xa2) else (if b0 then 0xd4 else 0xad))
            else
              if b2 then (if b1 then (if b0 then 0xf0 else 0x47) else (if b0 then 0x59 else 0xfa))
              else (if b1 then (if b0 then 0x7d else 0xc9) else (if b0 then 0x82 else 0xca))
          else
            if b3 then
              if b2 then (if b1 then (if b0 then 0x76 else 0xab) else (if b0 then 0xd7 else 0xfe))
              else (if b1 then (if b0 then 0x2b else 0x67) else (if b0 then 0x01 else 0x30))
            else
              if b2 then (if b1 then (if b0 then 0xc5 else 0x6f) else (if b0 then 0x6b else 0xf2))
              else (if b1 then (if b0 then 0x7b else 0x77) else (if b0 then 0x7c else 0x63))
  }

  /** The inverse substitution table. */
  function InvSBox(x: bv8): bv8 {
    var b7, b6, b5, b4 := x & 0x80 != 0, x & 0x40 != 0, x & 0x20 != 0, x & 0x10 != 0;
    var b3, b2, b1, b0 := x & 0x08 != 0, x & 0x04 != 0, x & 0x02 != 0, x & 0x01 != 0;
    if b7 then
      if b6 then
        if b5 then
          if b4 then
            if b3 then
              if b2 then (if b1 then (if b0 then 0x7d else 0x0c) else (if b0 then 0x21 else 0x55))
              else (if b1 then (if b0 then 0x63 else 0x14) else (if b0 then 0x69 else 0xe1))
            else
              if b2 then (if b1 then (if b0 then 0x26 else 0xd6) else (if b0 then 0x77 else 0xba))
              else (if b1 then (if b0 then 0x7e else 0x04) else (if b0 then 0x2b else 0x17))
          else
            if b3 then
              if b2 then (if b1 then (if b0 then 0x61 else 0x99) else (if b0 then 0x53 else 0x83))
              else (if b1 then (if b0 then 0x3c else 0xbb) else (if b0 then 0xeb else 0xc8))
            else
              if b2 then (if b1 then (if b0 then 0xb0 else 0xf5) else (if b0 then 0x2a else 0xae))
              else (if b1 then (if b0 then 0x4d else 0x3b) else (if b0 then 0xe0 else 0xa0))
        else
          if b4 then
            if b3 then
              if b2 then (if b1 then (if b0 then 0xef else 0x9c) else (if b0 then 0xc9 else 0x93))
              else (if b1 then (if b0 then 0x9f else 0x7a) else (if b0 then 0xe5 else 0x2d))
            else
              if b2 then (if b1 then (if b0 then 0x0d else 0x4a) else (if b0 then 0xb5 else 0x19))
              else (if b1 then (if b0 then 0xa9 else 0x7f) else (if b0 then 0x51 else 0x60))
          else
            if b3 then
              if b2 then (if b1 then (if b0 then 0x5f else 0xec) else (if b0 then 0x80 else 0x27))
              else (if b1 then (if b0 then 0x59 else 0x10) else (if b0 then 0x12 else 0xb1))
            else
              if b2 then (if b1 then (if b0 then 0x31 else 0xc7) else (if b0 then 0x07 else 0x88))
              else (if b1 then (if b0 then 0x33 else 0xa8) else (if b0 then 0xdd else 0x1f))
      else
        if b5 then
          if b4 then
            if b3 then
              if b2 then (if b1 then (if b0 then 0xf4 else 0x5a) else (if b0 then 0xcd else 0x78))
              else (if b1 then (if b0 then 0xfe else 0xc0) else (if b0 then 0xdb else 0x9a))
            else
              if b2 then (if b1 then (if b0 then 0x20 else 0x79) else (if b0 then 0xd2 else 0xc6))
              else (if b1 then (if b0 then 0x4b else 0x3e) else (if b0 then 0x56 else 0xfc))
          else
            if b3 then
              if b2 then (if b1 then (if b0 then 0x1b else 0xbe) else (if b0 then 0x18 else 0xaa))
              else (if b1 then (if b0 then 0x0e else 0x62) else (if b0 then 0xb7 else 0x6f))
            else
              if b2 then (if b1 then (if b0 then 0x89 else 0xc5) else (if b0 then 0x29 else 0x1d))
              else (if b1 then (if b0 then 0x71 else 0x1a) else (if b0 then 0xf1 else 0x47))
        else
          if b4 then
            if b3 then
              if b2 then (if b1 then (if b0 then 0x6e else 0xdf) else (if b0 then 0x75 else 0x1c))
              else (if b1 then (if b0 then 0xe8 else 0x37) else (if b0 then 0xf9 else 0xe2))
            else
              if b2 then (if b1 then (if b0 then 0x85 else 0x35) else (if b0 then 0xad else 0xe7))
              else (if b1 then (if b0 then 0x22 else 0x74) else (if b0 then 0xac else 0x96))
          else
            if b3 then
              if b2 then (if b1 then (if b0 then 0x73 else 0xe6) else (if b0 then 0xb4 else 0xf0))
              else (if b1 then (if b0 then 0xce else 0xcf) else (if b0 then 0xf2 else 0x97))
            else
              if b2 then (if b1 then (if b0 then 0xea else 0xdc) else (if b0 then 0x67 else 0x4f))
              else (if b1 then (if b0 then 0x41 else 0x11) else (if b0 then 0x91 else 0x3a))
    else
      if b6 then
        if b5 then
          if b4 then
            if b3 then
              if b2 then (if b1 then (if b0 then 0x6b else 0x8a) else (if b0 then 0x13 else 0x01))
              else (if b1 then (if b0 then 0x03 else 0xbd) else (if b0 then 0xaf else 0xc1))
            else
              if b2 then (if b1 then (if b0 then 0x02 else 0x0f) else (if b0 then 0x3f else 0xca))
              else (if b1 then (if b0 then 0x8f else 0x1e) else (if b0 then 0x2c else 0xd0))
          else
            if b3 then
              if b2 then (if b1 then (if b0 then 0x06 else 0x45) else (if b0 then 0xb3 else 0xb8))
              else (if b1 then (if b0 then 0x05 else 0x58) else (if b0 then 0xe4 else 0xf7))
            else
              if b2 then (if b1 then (if b0 then 0x0a else 0xd3) else (if b0 then 0xbc else 0x8c))
              else (if b1 then (if b0 then 0x00 else 0xab) else (if b0 then 0xd8 else 0x90))
        else
          if b4 then
            if b3 then
              if b2 then (if b1 then (if b0 then 0x84 else 0x9d) else (if b0 then 0x8d else 0xa7))
              else (if b1 then (if b0 then 0x57 else 0x46) else (if b0 then 0x15 else 0x5e))
            else
              if b2 then (if b1 then (if b0 then 0xda else 0xb9) else (if b0 then 0xed else 0xfd))
              else (if b1 then (if b0 then 0x50 else 0x48) else (if b0 then 0x70 else 0x6c))
          else
            if b3 then
              if b2 then (if b1 then (if b0 then 0x92 else 0xb6) else (if b0 then 0x65 else 0x5d))
              else (if b1 then (if b0 then 0xcc else 0x5c) else (if b0 then 0xa4 else 0xd4))
            else
              if b2 then (if b1 then (if b0 then 0x16 else 0x98) else (if b0 then 0x68 else 0x86))
              else (if b1 then (if b0 then 0x64 else 0xf6) else (if b0 then 0xf8 else 0x72))
      else
        if b5 then
          if b4 then
            if b3 then
              if b2 then (if b1 then (if b0 then 0x25 else 0xd1) else (if b0 then 0x8b else 0x6d))
              else (if b1 then (if b0 then 0x49 else 0xa2) else (if b0 then 0x5b else 0x76))
            else
              if b2 then (if b1 then (if b0 then 0xb2 else 0x24) else (if b0 then 0xd9 else 0x28))
              else (if b1 then (if b0 then 0x66 else 0xa1) else (if b0 then 0x2e else 0x08))
          else
            if b3 then
              if b2 then (if b1 then (if b0 then 0x4e else 0xc3) else (if b0 then 0xfa else 0x42))
              else (if b1 then (if b0 then 0x0b else 0x95) else (if b0 then 0x4c else 0xee))
            else
              if b2 then (if b1 then (if b0 then 0x3d else 0x23) else (if b0 then 0xc2 else 0xa6))
              else (if b1 then (if b0 then 0x32 else 0x94) else (if b0 then 0x7b else 0x54))
        else
          if b4 then
            if b3 then
              if b2 then (if b1 then (if b0 then 0xcb else 0xe9) else (if b0 then 0xde else 0xc4))
              else (if b1 then (if b0 then 0x44 else 0x43) else (if b0 then 0x8e else 0x34))
            else
              if b2 then (if b1 then (if b0 then 0x87 else 0xff) else (if b0 then 0x2f else 0x9b))
              else (if b1 then (if b0 then 0x82 else 0x39) else (if b0 then 0xe3 else 0x7c))
          else
            if b3 then
              if b2 then (if b1 then (if b0 then 0xfb else 0xd7) else (if b0 then 0xf3 else 0x81))
              else (if b1 then (if b0 then 0x9e else 0xa3) else (if b0 then 0x40 else 0xbf))
            else
              if b2 then (if b1 then (if b0 then 0x38 else 0xa5) else (if b0 then 0x36 else 0x30))
              else (if b1 then (if b0 then 0xd5 else 0x6a) else (if b0 then 0x09 else 0x52))
  }

  lemma {:induction false} InvSBoxUndoesSBox(x: bv8)
    ensures InvSBox(SBox(x)) == x
  {
    assert InvSBox(SBox(x)) == x;
  }

  /** Addition in GF(2^8). */
  function Add(x: bv8, y: bv8): bv8 {
    x ^ y
  }

  /** Multiplication by {02} (section 4.2.1 of FIPS 197): the bit shifted out adds {1b}. */
  function XTime(x: bv8): bv8 {
    var t := x >> 7;
    (x << 1) ^ t ^ (t << 1) ^ (t << 3) ^ (t << 4)
  }

  /** As the source computes it: the bit shifted out, times {1b}. */
  function XTimeByBit(x: bv8): bv8 {
    (x << 1) ^ (((x >> 7) & 1) * 0x1b)
  }

  lemma {:induction false} XTimeByBitIsXTime(x: bv8)
    ensures XTimeByBit(x) == XTime(x)
  {
  }

  /** The product in GF(2^8): the sum of x times the powers of {02} that y is made of (section 4.2). */
  function Product(x: bv8, y: bv8): bv8 {
    var x1 := (x << 1) ^ (if x & 0x80 != 0 then 0x1b else 0);
    var x2 := (x1 << 1) ^ (if x1 & 0x80 != 0 then 0x1b else 0);
    var x3 := (x2 << 1) ^ (if x2 & 0x80 != 0 then 0x1b else 0);
    var x4 := (x3 << 1) ^ (if x3 & 0x80 != 0 then 0x1b else 0);
    var x5 := (x4 << 1) ^ (if x4 & 0x80 != 0 then 0x1b else 0);
    var x6 := (x5 << 1) ^ (if x5 & 0x80 != 0 then 0x1b else 0);
    var x7 := (x6 << 1) ^ (if x6 & 0x80 != 0 then 0x1b else 0);
    (if y & 0x01 != 0 then x else 0) ^ (if y & 0x02 != 0 then x1 else 0)
    ^ (if y & 0x04 != 0 then x2 else 0) ^ (if y & 0x08 != 0 then x3 else 0)
    ^ (if y & 0x10 != 0 then x4 else 0) ^ (if y & 0x20 != 0 then x5 else 0)
    ^ (if y & 0x40 != 0 then x6 else 0) ^ (if y & 0x80 != 0 then x7 else 0)
  }

  /** The affine map of section 5.1.1, and its inverse. */
  function Affine(x: bv8): bv8 {
    x ^ x.RotateLeft(1) ^ x.RotateLeft(2) ^ x.RotateLeft(3) ^ x.RotateLeft(4) ^ 0x63
  }

  function InvAffine(x: bv8): bv8 {
    x.RotateLeft(1) ^ x.RotateLeft(3) ^ x.RotateLeft(6) ^ 0x05
  }

  ghost predicate IsInverse(x: bv8, y: bv8) {
    if x == 0 then y == 0 else Product(x, y) == 1
  }

  /** The table is what the standard says it is: the affine map after inversion, with 0 for the
      inverse of 0. */
  lemma {:induction false} SBoxIsAffineInverse(x: bv8)
    ensures exists y :: IsInverse(x, y) && SBox(x) == Affine(y)
  {
    var y := InvAffine(SBox(x));
    assert SBox(x) == Affine(y);
    assert x != 0 ==> Product(x, y) == 1;
    assert IsInverse(x, y);
  }

  /** Multiplication as the source does it. */
  function Multiply(x: bv8, y: bv8): bv8 {
    ((y & 1) * x) ^ (((y >> 1) & 1) * XTimeByBit(x)) ^ (((y >> 2) & 1) * XTimeByBit(XTimeByBit(x)))
    ^ (((y >> 3) & 1) * XTimeByBit(XTimeByBit(XTimeByBit(x))))
    ^ (((y >> 4) & 1) * XTimeByBit(XTimeByBit(XTimeByBit(XTimeByBit(x)))))
  }

  /** It is the product for the factors InvMixColumns uses. */
  lemma {:induction false} MultiplyIsProduct(x: bv8)
    ensures Multiply(x, 0x09) == Product(x, 0x09)
    ensures Multiply(x, 0x0b) == Product(x, 0x0b)
    ensures Multiply(x, 0x0d) == Product(x, 0x0d)
    ensures Multiply(x, 0x0e) == Product(x, 0x0e)
  {
  }

  lemma {:induction false} ProductByTwo(x: bv8)
    ensures Product(x, 2) == XTime(x) && Product(x, 3) == Add(XTime(x), x)
  {
  }

  /** The products InvMixColumns needs, from powers of {02}. */
  lemma {:induction false} ProductsByPowers(x: bv8, x1: bv8, x2: bv8, x3: bv8)
    requires x1 == XTime(x) && x2 == XTime(x1) && x3 == XTime(x2)
    ensures Product(x, 0x09) == Add(x3, x)
    ensures Product(x, 0x0b) == Add(x3, Add(x1, x))
    ensures Product(x, 0x0d) == Add(x3, Add(x2, x))
    ensures Product(x, 0x0e) == Add(x3, Add(x2, x1))
  {
  }

  // ---- Laws of addition ----

  lemma {:induction false} AddAssociative(a: bv8, b: bv8, c: bv8)
    ensures Add(Add(a, b), c) == Add(a, Add(b, c))
  {
  }

  lemma {:induction false} AddCommutative(a: bv8, b: bv8)
    ensures Add(a, b) == Add(b, a)
  {
  }

  lemma {:induction false} AddTwice(a: bv8, b: bv8)
    ensures Add(Add(a, b), b) == a
    ensures Add(b, Add(b, a)) == a && Add(a, 0) == a
  {
  }

  lemma {:induction false} AddSwap(a: bv8, b: bv8, c: bv8, d: bv8)
    ensures Add(Add(a, b), Add(c, d)) == Add(Add(a, c), Add(b, d))
  {
    AddAssociative(a, b, Add(c, d));
    AddAssociative(b, c, d);
    AddCommutative(b, c);
    AddAssociative(c, b, d);
    AddAssociative(a, c, Add(b, d));
  }

  lemma {:induction false} AddSwapThree(a: bv8, b: bv8, c: bv8, p: bv8, q: bv8, r: bv8)
    ensures Add(Add(a, p), Add(Add(b, q), Add(c, r))) == Add(Add(a, Add(b, c)), Add(p, Add(q, r)))
  {
    AddSwap(b, q, c, r);
    AddSwap(a, p, Add(b, c), Add(q, r));
  }

  lemma {:induction false} XTimeAdds(a: bv8, b: bv8)
    ensures XTime(Add(a, b)) == Add(XTime(a), XTime(b))
  {
  }

  /** Products with the factors of InvMixColumns are additive. */
  lemma {:induction false} ProductsAdd(x: bv8, y: bv8)
    ensures Product(Add(x, y), 0x09) == Add(Product(x, 0x09), Product(y, 0x09))
    ensures Product(Add(x, y), 0x0b) == Add(Product(x, 0x0b), Product(y, 0x0b))
    ensures Product(Add(x, y), 0x0d) == Add(Product(x, 0x0d), Product(y, 0x0d))
    ensures Product(Add(x, y), 0x0e) == Add(Product(x, 0x0e), Product(y, 0x0e))
  {
    var x1, y1 := XTime(x), XTime(y);
    var x2, y2 := XTime(x1), XTime(y1);
    var x3, y3 := XTime(x2), XTime(y2);
    XTimeAdds(x, y);
    XTimeAdds(x1, y1);
    XTimeAdds(x2, y2);
    ProductsByPowers(x, x1, x2, x3);
    ProductsByPowers(y, y1, y2, y3);
    ProductsByPowers(Add(x, y), Add(x1, y1), Add(x2, y2), Add(x3, y3));
    AddSwap(x3, y3, x, y);
    AddSwapThree(x3, x1, x, y3, y1, y);
    AddSwapThree(x3, x2, x, y3, y2, y);
    AddSwapThree(x3, x2, x1, y3, y2, y1);
  }

  // ---- Mixing a column ----

  /** One byte of a column after MixColumns (section 5.1.3) and after InvMixColumns (section 5.3.3);
      a is the byte at this place, b, c and d are those that follow it in circular order. */
  function MixByte(a: bv8, b: bv8, c: bv8, d: bv8): bv8 {
    Add(Add(Product(a, 2), Product(b, 3)), Add(c, d))
  }

  function InvMixByte(a: bv8, b: bv8, c: bv8, d: bv8): bv8 {
    Add(Add(Product(a, 0x0e), Product(b, 0x0b)), Add(Product(c, 0x0d), Product(d, 0x09)))
  }

  lemma {:induction false} InvMixAdds(a: bv8, b: bv8, c: bv8, d: bv8, p: bv8, q: bv8, r: bv8, s: bv8)
    ensures InvMixByte(Add(a, p), Add(b, q), Add(c, r), Add(d, s)) == Add(InvMixByte(a, b, c, d), InvMixByte(p, q, r, s))
  {
    ProductsAdd(a, p);
    ProductsAdd(b, q);
    ProductsAdd(c, r);
    ProductsAdd(d, s);
    AddSwap(Product(a, 0x0e), Product(p, 0x0e), Product(b, 0x0b), Product(q, 0x0b));
    AddSwap(Product(c, 0x0d), Product(r, 0x0d), Product(d, 0x09), Product(s, 0x09));
    AddSwap(Add(Product(a, 0x0e), Product(b, 0x0b)), Add(Product(p, 0x0e), Product(q, 0x0b)),
            Add(Product(c, 0x0d), Product(d, 0x09)), Add(Product(r, 0x0d), Product(s, 0x09)));
  }

  /** What one byte contributes to the four mixed bytes comes back at its own place ... */
  lemma {:induction false} UnmixOwn(a: bv8)
    ensures InvMixByte(Product(a, 2), a, a, Product(a, 3)) == a
  {
  }

  /** ... and not at the others. */
  lemma {:induction false} UnmixOther1(a: bv8)
    ensures InvMixByte(Product(a, 3), Product(a, 2), a, a) == 0
  {
  }

  lemma {:induction false} UnmixOther2(a: bv8)
    ensures InvMixByte(a, Product(a, 3), Product(a, 2), a) == 0
  {
  }

  lemma {:induction false} UnmixOther3(a: bv8)
    ensures InvMixByte(a, a, Product(a, 3), Product(a, 2)) == 0
  {
  }

  lemma {:induction false} AddRotate(a: bv8, b: bv8, c: bv8, d: bv8)
    ensures Add(Add(b, c), Add(d, a)) == Add(Add(a, b), Add(c, d))
  {
    AddCommutative(d, a);
    AddCommutative(Add(b, c), Add(a, d));
    AddSwap(a, d, b, c);
    AddCommutative(d, c);
  }

  /** The mixed bytes below the first, with the contributions of a, b, c and d in this order. */
  lemma {:induction false} MixedSecond(a: bv8, b: bv8, c: bv8, d: bv8)
    ensures MixByte(b, c, d, a) == Add(Add(a, Product(b, 2)), Add(Product(c, 3), d))
  {
    AddRotate(a, Product(b, 2), Product(c, 3), d);
  }

  lemma {:induction false} MixedThird(a: bv8, b: bv8, c: bv8, d: bv8)
    ensures MixByte(c, d, a, b) == Add(Add(a, b), Add(Product(c, 2), Product(d, 3)))
  {
    AddCommutative(Add(Product(c, 2), Product(d, 3)), Add(a, b));
  }

  lemma {:induction false} MixedFourth(a: bv8, b: bv8, c: bv8, d: bv8)
    ensures MixByte(d, a, b, c) == Add(Add(Product(a, 3), b), Add(c, Product(d, 2)))
  {
    AddRotate(Product(d, 2), Product(a, 3), b, c);
  }

  lemma {:induction false} InvMixOfSums(w0: bv8, w1: bv8, w2: bv8, w3: bv8, x0: bv8, x1: bv8, x2: bv8, x3: bv8,
                                        y0: bv8, y1: bv8, y2: bv8, y3: bv8, z0: bv8, z1: bv8, z2: bv8, z3: bv8)
    ensures InvMixByte(Add(Add(w0, x0), Add(y0, z0)), Add(Add(w1, x1), Add(y1, z1)),
                       Add(Add(w2, x2), Add(y2, z2)), Add(Add(w3, x3), Add(y3, z3)))
         == Add(Add(InvMixByte(w0, w1, w2, w3), InvMixByte(x0, x1, x2, x3)),
                Add(InvMixByte(y0, y1, y2, y3), InvMixByte(z0, z1, z2, z3)))
  {
    InvMixAdds(w0, w1, w2, w3, x0, x1, x2, x3);
    InvMixAdds(y0, y1, y2, y3, z0, z1, z2, z3);
    InvMixAdds(Add(w0, x0), Add(w1, x1), Add(w2, x2), Add(w3, x3), Add(y0, z0), Add(y1, z1), Add(y2, z2), Add(y3, z3));
  }

  /** InvMixColumns undoes MixColumns, at any place of a column. */
  lemma {:induction false} InvMixUndoesMix(a: bv8, b: bv8, c: bv8, d: bv8)
    ensures InvMixByte(MixByte(a, b, c, d), MixByte(b, c, d, a), MixByte(c, d, a, b), MixByte(d, a, b, c)) == a
  {
    MixedSecond(a, b, c, d);
    MixedThird(a, b, c, d);
    MixedFourth(a, b, c, d);
    InvMixOfSums(Product(a, 2), a, a, Product(a, 3), Product(b, 3), Product(b, 2), b, b,
                 c, Product(c, 3), Product(c, 2), c, d, d, Product(d, 3), Product(d, 2));
    UnmixOwn(a);
    UnmixOther1(b);
    UnmixOther2(c);
    UnmixOther3(d);
    AddTwice(a, 0);
    AddTwice(0, 0);
  }

  // ---- Mixing as the source does it ----

  function Sum4(a: bv8, b: bv8, c: bv8, d: bv8): bv8 {
    a ^ b ^ c ^ d
  }

  lemma {:induction false} SumAround(a: bv8, b: bv8, c: bv8, d: bv8)
    ensures Sum4(a, b, c, d) == Sum4(b, c, d, a)
  {
  }

  /** A byte of a column from the byte, the one below and the sum of all four. */
  function MixWithSum(a: bv8, b: bv8, sum: bv8): bv8 {
    Add(a, Add(XTimeByBit(Add(a, b)), sum))
  }

  lemma {:induction false} SumByAdd(a: bv8, b: bv8, c: bv8, d: bv8)
    ensures Sum4(a, b, c, d) == Add(a, Add(b, Add(c, d)))
  {
    assert Sum4(a, b, c, d) == Add(a, Add(b, c ^ d));
  }

  /** The source needs one multiplication a byte. */
  lemma {:induction false} MixWithSumIsMix(a: bv8, b: bv8, c: bv8, d: bv8, sum: bv8)
    requires sum == Sum4(a, b, c, d)
    ensures MixWithSum(a, b, sum) == MixByte(a, b, c, d)
  {
    var a1, b1, rest := XTime(a), XTime(b), Add(b, Add(c, d));
    SumByAdd(a, b, c, d);
    XTimeByBitIsXTime(Add(a, b));
    XTimeAdds(a, b);
    AddAssociative(a, Add(a1, b1), Add(a, rest));
    AddCommutative(a, Add(a1, b1));
    AddAssociative(Add(a1, b1), a, Add(a, rest));
    AddTwice(rest, a);
    AddAssociative(a1, b1, rest);
    AddAssociative(b1, b, Add(c, d));
    ProductByTwo(a);
    ProductByTwo(b);
    AddAssociative(a1, Add(b1, b), Add(c, d));
  }

  function UnmixByMultiply(a: bv8, b: bv8, c: bv8, d: bv8): bv8 {
    Sum4(Multiply(a, 0x0e), Multiply(b, 0x0b), Multiply(c, 0x0d), Multiply(d, 0x09))
  }

  lemma {:induction false} SumByPairs(a: bv8, b: bv8, c: bv8, d: bv8)
    ensures Sum4(a, b, c, d) == Add(Add(a, b), Add(c, d))
  {
    SumByAdd(a, b, c, d);
    AddAssociative(a, b, Add(c, d));
  }

  lemma {:induction false} UnmixIsInvMix(a: bv8, b: bv8, c: bv8, d: bv8)
    ensures UnmixByMultiply(a, b, c, d) == InvMixByte(a, b, c, d)
  {
    MultiplyIsProduct(a);
    MultiplyIsProduct(b);
    MultiplyIsProduct(c);
    MultiplyIsProduct(d);
    SumByPairs(Product(a, 0x0e), Product(b, 0x0b), Product(c, 0x0d), Product(d, 0x09));
  }
}
