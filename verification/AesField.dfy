/** Bytes and words of the AES model (aes.py), its Galois multiplications, and the arithmetic of GF(2^8)
    they stand for (section 4 of FIPS 197). */
module AesField {
  // ----- bytes and words -----

  function B2w(b0: bv8, b1: bv8, b2: bv8, b3: bv8): bv32 {
    (b0 as bv32 << 24) + (b1 as bv32 << 16) + (b2 as bv32 << 8) + b3 as bv32
  }

  function W2b(w: bv32): (bv8, bv8, bv8, bv8) {
    ((w >> 24) as bv8, ((w >> 16) & 0xff) as bv8, ((w >> 8) & 0xff) as bv8, (w & 0xff) as bv8)
  }

  lemma BytesOfWord(b0: bv8, b1: bv8, b2: bv8, b3: bv8)
    ensures W2b(B2w(b0, b1, b2, b3)) == (b0, b1, b2, b3)
  {
  }

  lemma WordOfBytes(w: bv32)
    ensures var b := W2b(w); B2w(b.0, b.1, b.2, b.3) == w
  {
  }

  // ----- sums of bytes -----

  function Xor2(a: bv8, b: bv8): bv8 {
    a ^ b
  }

  function Xor3(a: bv8, b: bv8, c: bv8): bv8 {
    a ^ b ^ c
  }

  function Xor4(a: bv8, b: bv8, c: bv8, d: bv8): bv8 {
    a ^ b ^ c ^ d
  }

  // ----- the multiplications of the model -----

  function Gm2(b: bv8): bv8 {
    (b << 1) ^ (0x1b & ((b >> 7) * 0xff))
  }

  function Gm3(b: bv8): bv8 {
    Xor2(Gm2(b), b)
  }

  function Gm4(b: bv8): bv8 {
    Gm2(Gm2(b))
  }

  function Gm8(b: bv8): bv8 {
    Gm2(Gm4(b))
  }

  function Gm09(b: bv8): bv8 {
    Xor2(Gm8(b), b)
  }

  function Gm11(b: bv8): bv8 {
    Xor3(Gm8(b), Gm2(b), b)
  }

  function Gm13(b: bv8): bv8 {
    Xor3(Gm8(b), Gm4(b), b)
  }

  function Gm14(b: bv8): bv8 {
    Xor3(Gm8(b), Gm4(b), Gm2(b))
  }

  // ----- GF(2^8), polynomials over bits modulo x^8 + x^4 + x^3 + x + 1 -----

  /** Multiplication by x (section 4.2.1): a shift, and the reduction when x^8 appears. */
  function XTimes(b: bv8): bv8 {
    if b & 0x80 == 0 then b << 1 else (b << 1) ^ 0x1b
  }

  /** Multiplication by x^n. */
  function XPower(b: bv8, n: nat): bv8 {
    if n == 0 then b else XTimes(XPower(b, n - 1))
  }

  /** Multiplication by the polynomial c: the sum of the multiples by its powers of x. */
  function Times8(b: bv8, c: bv8): bv8 {
    (if c & 0x01 != 0 then b else 0) ^ (if c & 0x02 != 0 then XPower(b, 1) else 0)
    ^ (if c & 0x04 != 0 then XPower(b, 2) else 0) ^ (if c & 0x08 != 0 then XPower(b, 3) else 0)
    ^ (if c & 0x10 != 0 then XPower(b, 4) else 0) ^ (if c & 0x20 != 0 then XPower(b, 5) else 0)
    ^ (if c & 0x40 != 0 then XPower(b, 6) else 0) ^ (if c & 0x80 != 0 then XPower(b, 7) else 0)
  }

  lemma Gm2IsXTimes(b: bv8)
    ensures Gm2(b) == XTimes(b)
  {
  }

  lemma PowersOfModel(b: bv8)
    ensures XPower(b, 1) == Gm2(b) && XPower(b, 2) == Gm4(b) && XPower(b, 3) == Gm8(b)
  {
    Gm2IsXTimes(b);
    Gm2IsXTimes(Gm2(b));
    Gm2IsXTimes(Gm4(b));
    assert XPower(b, 1) == XTimes(XPower(b, 0)) && XPower(b, 2) == XTimes(XPower(b, 1)) && XPower(b, 3) == XTimes(XPower(b, 2));
  }

  /** Each multiplication of the model is multiplication in the field by the constant in its name. */
  lemma MultipliesInField(b: bv8)
    ensures Gm2(b) == Times8(b, 2) && Gm3(b) == Times8(b, 3) && Gm4(b) == Times8(b, 4) && Gm8(b) == Times8(b, 8)
  {
    PowersOfModel(b);
  }

  lemma InverseFactorsMultiplyInField(b: bv8)
    ensures Gm09(b) == Times8(b, 9) && Gm11(b) == Times8(b, 11)
    ensures Gm13(b) == Times8(b, 13) && Gm14(b) == Times8(b, 14)
  {
    PowersOfModel(b);
  }

  // ----- rearranging sums -----

  /** Two sums are equal when together they cancel. */
  lemma SameSum(p: bv8, x: bv8, y: bv8, q: bv8)
    requires p == x && q == y && x ^ y == 0
    ensures p == q
  {
  }

  lemma Substitute2(p: bv8, q: bv8, x: bv8, y: bv8)
    requires p == x && q == y
    ensures Xor2(p, q) == x ^ y
  {
  }

  lemma Substitute3(p: bv8, q: bv8, r: bv8, x: bv8, y: bv8, z: bv8)
    requires p == x && q == y && r == z
    ensures Xor3(p, q, r) == x ^ y ^ z
  {
  }

  lemma Substitute4(p: bv8, q: bv8, r: bv8, s: bv8, x: bv8, y: bv8, z: bv8, w: bv8)
    requires p == x && q == y && r == z && s == w
    ensures Xor4(p, q, r, s) == x ^ y ^ z ^ w
  {
  }

  /** Sums of sums can be taken by rows or by columns. */
  lemma Transpose2(a0: bv8, a1: bv8, a2: bv8, a3: bv8, b0: bv8, b1: bv8, b2: bv8, b3: bv8)
    ensures Xor2(Xor4(a0, a1, a2, a3), Xor4(b0, b1, b2, b3))
         == Xor4(Xor2(a0, b0), Xor2(a1, b1), Xor2(a2, b2), Xor2(a3, b3))
  {
    Rows2(a0, a1, a2, a3, b0, b1, b2, b3);
    Columns2(a0, a1, a2, a3, b0, b1, b2, b3);
    SameSum(Xor2(Xor4(a0, a1, a2, a3), Xor4(b0, b1, b2, b3)),
            (a0 ^ a1 ^ a2 ^ a3) ^ (b0 ^ b1 ^ b2 ^ b3),
            (a0 ^ b0) ^ (a1 ^ b1) ^ (a2 ^ b2) ^ (a3 ^ b3),
            Xor4(Xor2(a0, b0), Xor2(a1, b1), Xor2(a2, b2), Xor2(a3, b3)));
  }

  lemma Rows2(a0: bv8, a1: bv8, a2: bv8, a3: bv8, b0: bv8, b1: bv8, b2: bv8, b3: bv8)
    ensures Xor2(Xor4(a0, a1, a2, a3), Xor4(b0, b1, b2, b3))
         == (a0 ^ a1 ^ a2 ^ a3) ^ (b0 ^ b1 ^ b2 ^ b3)
  {
    Substitute2(Xor4(a0, a1, a2, a3), Xor4(b0, b1, b2, b3),
                a0 ^ a1 ^ a2 ^ a3, b0 ^ b1 ^ b2 ^ b3);
  }

  lemma Columns2(a0: bv8, a1: bv8, a2: bv8, a3: bv8, b0: bv8, b1: bv8, b2: bv8, b3: bv8)
    ensures Xor4(Xor2(a0, b0), Xor2(a1, b1), Xor2(a2, b2), Xor2(a3, b3))
         == (a0 ^ b0) ^ (a1 ^ b1) ^ (a2 ^ b2) ^ (a3 ^ b3)
  {
    Substitute4(Xor2(a0, b0), Xor2(a1, b1), Xor2(a2, b2), Xor2(a3, b3),
                a0 ^ b0, a1 ^ b1, a2 ^ b2, a3 ^ b3);
  }

  lemma Transpose3(a0: bv8, a1: bv8, a2: bv8, a3: bv8, b0: bv8, b1: bv8, b2: bv8, b3: bv8,
                   c0: bv8, c1: bv8, c2: bv8, c3: bv8)
    ensures Xor3(Xor4(a0, a1, a2, a3), Xor4(b0, b1, b2, b3), Xor4(c0, c1, c2, c3))
         == Xor4(Xor3(a0, b0, c0), Xor3(a1, b1, c1), Xor3(a2, b2, c2), Xor3(a3, b3, c3))
  {
    Rows3(a0, a1, a2, a3, b0, b1, b2, b3, c0, c1, c2, c3);
    Columns3(a0, a1, a2, a3, b0, b1, b2, b3, c0, c1, c2, c3);
    SameSum(Xor3(Xor4(a0, a1, a2, a3), Xor4(b0, b1, b2, b3), Xor4(c0, c1, c2, c3)),
            (a0 ^ a1 ^ a2 ^ a3) ^ (b0 ^ b1 ^ b2 ^ b3) ^ (c0 ^ c1 ^ c2 ^ c3),
            (a0 ^ b0 ^ c0) ^ (a1 ^ b1 ^ c1) ^ (a2 ^ b2 ^ c2) ^ (a3 ^ b3 ^ c3),
            Xor4(Xor3(a0, b0, c0), Xor3(a1, b1, c1), Xor3(a2, b2, c2), Xor3(a3, b3, c3)));
  }

  lemma Rows3(a0: bv8, a1: bv8, a2: bv8, a3: bv8, b0: bv8, b1: bv8, b2: bv8, b3: bv8,
              c0: bv8, c1: bv8, c2: bv8, c3: bv8)
    ensures Xor3(Xor4(a0, a1, a2, a3), Xor4(b0, b1, b2, b3), Xor4(c0, c1, c2, c3))
         == (a0 ^ a1 ^ a2 ^ a3) ^ (b0 ^ b1 ^ b2 ^ b3) ^ (c0 ^ c1 ^ c2 ^ c3)
  {
    Substitute3(Xor4(a0, a1, a2, a3), Xor4(b0, b1, b2, b3), Xor4(c0, c1, c2, c3),
                a0 ^ a1 ^ a2 ^ a3, b0 ^ b1 ^ b2 ^ b3, c0 ^ c1 ^ c2 ^ c3);
  }

  lemma Columns3(a0: bv8, a1: bv8, a2: bv8, a3: bv8, b0: bv8, b1: bv8, b2: bv8, b3: bv8,
                 c0: bv8, c1: bv8, c2: bv8, c3: bv8)
    ensures Xor4(Xor3(a0, b0, c0), Xor3(a1, b1, c1), Xor3(a2, b2, c2), Xor3(a3, b3, c3))
         == (a0 ^ b0 ^ c0) ^ (a1 ^ b1 ^ c1) ^ (a2 ^ b2 ^ c2) ^ (a3 ^ b3 ^ c3)
  {
    Substitute4(Xor3(a0, b0, c0), Xor3(a1, b1, c1), Xor3(a2, b2, c2), Xor3(a3, b3, c3),
                a0 ^ b0 ^ c0, a1 ^ b1 ^ c1, a2 ^ b2 ^ c2, a3 ^ b3 ^ c3);
  }

  lemma Transpose4(a0: bv8, a1: bv8, a2: bv8, a3: bv8, b0: bv8, b1: bv8, b2: bv8, b3: bv8,
                   c0: bv8, c1: bv8, c2: bv8, c3: bv8, d0: bv8, d1: bv8, d2: bv8, d3: bv8)
    ensures Xor4(Xor4(a0, a1, a2, a3), Xor4(b0, b1, b2, b3), Xor4(c0, c1, c2, c3), Xor4(d0, d1, d2, d3))
         == Xor4(Xor4(a0, b0, c0, d0), Xor4(a1, b1, c1, d1), Xor4(a2, b2, c2, d2), Xor4(a3, b3, c3, d3))
  {
    Rows4(a0, a1, a2, a3, b0, b1, b2, b3, c0, c1, c2, c3, d0, d1, d2, d3);
    Columns4(a0, a1, a2, a3, b0, b1, b2, b3, c0, c1, c2, c3, d0, d1, d2, d3);
    SameSum(Xor4(Xor4(a0, a1, a2, a3), Xor4(b0, b1, b2, b3), Xor4(c0, c1, c2, c3), Xor4(d0, d1, d2, d3)),
            (a0 ^ a1 ^ a2 ^ a3) ^ (b0 ^ b1 ^ b2 ^ b3) ^ (c0 ^ c1 ^ c2 ^ c3) ^ (d0 ^ d1 ^ d2 ^ d3),
            (a0 ^ b0 ^ c0 ^ d0) ^ (a1 ^ b1 ^ c1 ^ d1) ^ (a2 ^ b2 ^ c2 ^ d2) ^ (a3 ^ b3 ^ c3 ^ d3),
            Xor4(Xor4(a0, b0, c0, d0), Xor4(a1, b1, c1, d1), Xor4(a2, b2, c2, d2), Xor4(a3, b3, c3, d3)));
  }

  lemma Rows4(a0: bv8, a1: bv8, a2: bv8, a3: bv8, b0: bv8, b1: bv8, b2: bv8, b3: bv8,
              c0: bv8, c1: bv8, c2: bv8, c3: bv8, d0: bv8, d1: bv8, d2: bv8, d3: bv8)
    ensures Xor4(Xor4(a0, a1, a2, a3), Xor4(b0, b1, b2, b3), Xor4(c0, c1, c2, c3), Xor4(d0, d1, d2, d3))
         == (a0 ^ a1 ^ a2 ^ a3) ^ (b0 ^ b1 ^ b2 ^ b3) ^ (c0 ^ c1 ^ c2 ^ c3) ^ (d0 ^ d1 ^ d2 ^ d3)
  {
    Substitute4(Xor4(a0, a1, a2, a3), Xor4(b0, b1, b2, b3), Xor4(c0, c1, c2, c3), Xor4(d0, d1, d2, d3),
                a0 ^ a1 ^ a2 ^ a3, b0 ^ b1 ^ b2 ^ b3, c0 ^ c1 ^ c2 ^ c3, d0 ^ d1 ^ d2 ^ d3);
  }

  lemma Columns4(a0: bv8, a1: bv8, a2: bv8, a3: bv8, b0: bv8, b1: bv8, b2: bv8, b3: bv8,
                 c0: bv8, c1: bv8, c2: bv8, c3: bv8, d0: bv8, d1: bv8, d2: bv8, d3: bv8)
    ensures Xor4(Xor4(a0, b0, c0, d0), Xor4(a1, b1, c1, d1), Xor4(a2, b2, c2, d2), Xor4(a3, b3, c3, d3))
         == (a0 ^ b0 ^ c0 ^ d0) ^ (a1 ^ b1 ^ c1 ^ d1) ^ (a2 ^ b2 ^ c2 ^ d2) ^ (a3 ^ b3 ^ c3 ^ d3)
  {
    Substitute4(Xor4(a0, b0, c0, d0), Xor4(a1, b1, c1, d1), Xor4(a2, b2, c2, d2), Xor4(a3, b3, c3, d3),
                a0 ^ b0 ^ c0 ^ d0, a1 ^ b1 ^ c1 ^ d1, a2 ^ b2 ^ c2 ^ d2, a3 ^ b3 ^ c3 ^ d3);
  }

  // ----- the multiplications are linear -----

  lemma Doubles(a: bv8, b: bv8)
    ensures Gm2(Xor2(a, b)) == Xor2(Gm2(a), Gm2(b))
  {
  }

  lemma Nested(a: bv8, b: bv8, c: bv8, d: bv8)
    ensures Xor4(a, b, c, d) == Xor2(Xor2(Xor2(a, b), c), d)
  {
    Substitute2(Xor2(a, b), c, a ^ b, c);
    Substitute2(Xor2(Xor2(a, b), c), d, a ^ b ^ c, d);
  }

  lemma Linear2(a: bv8, b: bv8, c: bv8, d: bv8)
    ensures Gm2(Xor4(a, b, c, d)) == Xor4(Gm2(a), Gm2(b), Gm2(c), Gm2(d))
  {
    Nested(a, b, c, d);
    Nested(Gm2(a), Gm2(b), Gm2(c), Gm2(d));
    Doubles(Xor2(Xor2(a, b), c), d);
    Doubles(Xor2(a, b), c);
    Doubles(a, b);
  }

  lemma Linear4(a: bv8, b: bv8, c: bv8, d: bv8)
    ensures Gm4(Xor4(a, b, c, d)) == Xor4(Gm4(a), Gm4(b), Gm4(c), Gm4(d))
  {
    Linear2(a, b, c, d);
    Linear2(Gm2(a), Gm2(b), Gm2(c), Gm2(d));
  }

  lemma Linear8(a: bv8, b: bv8, c: bv8, d: bv8)
    ensures Gm8(Xor4(a, b, c, d)) == Xor4(Gm8(a), Gm8(b), Gm8(c), Gm8(d))
  {
    Linear4(a, b, c, d);
    Linear2(Gm4(a), Gm4(b), Gm4(c), Gm4(d));
  }

  lemma Linear3(a: bv8, b: bv8, c: bv8, d: bv8)
    ensures Gm3(Xor4(a, b, c, d)) == Xor4(Gm3(a), Gm3(b), Gm3(c), Gm3(d))
  {
    Linear2(a, b, c, d);
    Transpose2(Gm2(a), Gm2(b), Gm2(c), Gm2(d), a, b, c, d);
  }

  lemma Linear09(a: bv8, b: bv8, c: bv8, d: bv8)
    ensures Gm09(Xor4(a, b, c, d)) == Xor4(Gm09(a), Gm09(b), Gm09(c), Gm09(d))
  {
    Linear8(a, b, c, d);
    Transpose2(Gm8(a), Gm8(b), Gm8(c), Gm8(d), a, b, c, d);
  }

  lemma Linear11(a: bv8, b: bv8, c: bv8, d: bv8)
    ensures Gm11(Xor4(a, b, c, d)) == Xor4(Gm11(a), Gm11(b), Gm11(c), Gm11(d))
  {
    Linear8(a, b, c, d);
    Linear2(a, b, c, d);
    Transpose3(Gm8(a), Gm8(b), Gm8(c), Gm8(d), Gm2(a), Gm2(b), Gm2(c), Gm2(d), a, b, c, d);
  }

  lemma Linear13(a: bv8, b: bv8, c: bv8, d: bv8)
    ensures Gm13(Xor4(a, b, c, d)) == Xor4(Gm13(a), Gm13(b), Gm13(c), Gm13(d))
  {
    Linear8(a, b, c, d);
    Linear4(a, b, c, d);
    Transpose3(Gm8(a), Gm8(b), Gm8(c), Gm8(d), Gm4(a), Gm4(b), Gm4(c), Gm4(d), a, b, c, d);
  }

  lemma Linear14(a: bv8, b: bv8, c: bv8, d: bv8)
    ensures Gm14(Xor4(a, b, c, d)) == Xor4(Gm14(a), Gm14(b), Gm14(c), Gm14(d))
  {
    Linear8(a, b, c, d);
    Linear4(a, b, c, d);
    Linear2(a, b, c, d);
    Transpose3(Gm8(a), Gm8(b), Gm8(c), Gm8(d), Gm4(a), Gm4(b), Gm4(c), Gm4(d), Gm2(a), Gm2(b), Gm2(c), Gm2(d));
  }

  // ----- mixing a column -----

  /** The mixed bytes: the matrix of section 5.1.3, row by row. */
  function Mixed(b0: bv8, b1: bv8, b2: bv8, b3: bv8): (bv8, bv8, bv8, bv8) {
    (Xor4(Gm2(b0), Gm3(b1), b2, b3), Xor4(b0, Gm2(b1), Gm3(b2), b3),
     Xor4(b0, b1, Gm2(b2), Gm3(b3)), Xor4(Gm3(b0), b1, b2, Gm2(b3)))
  }

  /** The inverse matrix of section 5.3.3. */
  function InvMixed(b0: bv8, b1: bv8, b2: bv8, b3: bv8): (bv8, bv8, bv8, bv8) {
    (Xor4(Gm14(b0), Gm11(b1), Gm13(b2), Gm09(b3)), Xor4(Gm09(b0), Gm14(b1), Gm11(b2), Gm13(b3)),
     Xor4(Gm13(b0), Gm09(b1), Gm14(b2), Gm11(b3)), Xor4(Gm11(b0), Gm13(b1), Gm09(b2), Gm14(b3)))
  }

  function Mixw(w: bv32): bv32 {
    var (b0, b1, b2, b3) := W2b(w);
    var m := Mixed(b0, b1, b2, b3);
    B2w(m.0, m.1, m.2, m.3)
  }

  function InvMixw(w: bv32): bv32 {
    var (b0, b1, b2, b3) := W2b(w);
    var m := InvMixed(b0, b1, b2, b3);
    B2w(m.0, m.1, m.2, m.3)
  }

  /** The coefficients of the product of the two matrices: one on the diagonal, zero elsewhere. */
  lemma UnmixCoefficients0(b: bv8)
    ensures Xor4(Gm14(Gm2(b)), Gm11(b), Gm13(b), Gm09(Gm3(b))) == b
    ensures Xor4(Gm14(Gm3(b)), Gm11(Gm2(b)), Gm13(b), Gm09(b)) == 0
    ensures Xor4(Gm14(b), Gm11(Gm3(b)), Gm13(Gm2(b)), Gm09(b)) == 0
    ensures Xor4(Gm14(b), Gm11(b), Gm13(Gm3(b)), Gm09(Gm2(b))) == 0
  {
  }

  lemma UnmixCoefficients1(b: bv8)
    ensures Xor4(Gm09(Gm2(b)), Gm14(b), Gm11(b), Gm13(Gm3(b))) == 0
    ensures Xor4(Gm09(Gm3(b)), Gm14(Gm2(b)), Gm11(b), Gm13(b)) == b
    ensures Xor4(Gm09(b), Gm14(Gm3(b)), Gm11(Gm2(b)), Gm13(b)) == 0
    ensures Xor4(Gm09(b), Gm14(b), Gm11(Gm3(b)), Gm13(Gm2(b))) == 0
  {
  }

  lemma UnmixCoefficients2(b: bv8)
    ensures Xor4(Gm13(Gm2(b)), Gm09(b), Gm14(b), Gm11(Gm3(b))) == 0
    ensures Xor4(Gm13(Gm3(b)), Gm09(Gm2(b)), Gm14(b), Gm11(b)) == 0
    ensures Xor4(Gm13(b), Gm09(Gm3(b)), Gm14(Gm2(b)), Gm11(b)) == b
    ensures Xor4(Gm13(b), Gm09(b), Gm14(Gm3(b)), Gm11(Gm2(b))) == 0
  {
  }

  lemma UnmixCoefficients3(b: bv8)
    ensures Xor4(Gm11(Gm2(b)), Gm13(b), Gm09(b), Gm14(Gm3(b))) == 0
    ensures Xor4(Gm11(Gm3(b)), Gm13(Gm2(b)), Gm09(b), Gm14(b)) == 0
    ensures Xor4(Gm11(b), Gm13(Gm3(b)), Gm09(Gm2(b)), Gm14(b)) == 0
    ensures Xor4(Gm11(b), Gm13(b), Gm09(Gm3(b)), Gm14(Gm2(b))) == b
  {
  }

  lemma Unmix0(b0: bv8, b1: bv8, b2: bv8, b3: bv8)
    ensures var m := Mixed(b0, b1, b2, b3); InvMixed(m.0, m.1, m.2, m.3).0 == b0
  {
    Linear14(Gm2(b0), Gm3(b1), b2, b3);
    Linear11(b0, Gm2(b1), Gm3(b2), b3);
    Linear13(b0, b1, Gm2(b2), Gm3(b3));
    Linear09(Gm3(b0), b1, b2, Gm2(b3));
    Transpose4(Gm14(Gm2(b0)), Gm14(Gm3(b1)), Gm14(b2), Gm14(b3),
               Gm11(b0), Gm11(Gm2(b1)), Gm11(Gm3(b2)), Gm11(b3),
               Gm13(b0), Gm13(b1), Gm13(Gm2(b2)), Gm13(Gm3(b3)),
               Gm09(Gm3(b0)), Gm09(b1), Gm09(b2), Gm09(Gm2(b3)));
    UnmixCoefficients0(b0);
    UnmixCoefficients0(b1);
    UnmixCoefficients0(b2);
    UnmixCoefficients0(b3);
  }

  lemma Unmix1(b0: bv8, b1: bv8, b2: bv8, b3: bv8)
    ensures var m := Mixed(b0, b1, b2, b3); InvMixed(m.0, m.1, m.2, m.3).1 == b1
  {
    Linear09(Gm2(b0), Gm3(b1), b2, b3);
    Linear14(b0, Gm2(b1), Gm3(b2), b3);
    Linear11(b0, b1, Gm2(b2), Gm3(b3));
    Linear13(Gm3(b0), b1, b2, Gm2(b3));
    Transpose4(Gm09(Gm2(b0)), Gm09(Gm3(b1)), Gm09(b2), Gm09(b3),
               Gm14(b0), Gm14(Gm2(b1)), Gm14(Gm3(b2)), Gm14(b3),
               Gm11(b0), Gm11(b1), Gm11(Gm2(b2)), Gm11(Gm3(b3)),
               Gm13(Gm3(b0)), Gm13(b1), Gm13(b2), Gm13(Gm2(b3)));
    UnmixCoefficients1(b0);
    UnmixCoefficients1(b1);
    UnmixCoefficients1(b2);
    UnmixCoefficients1(b3);
  }

  lemma Unmix2(b0: bv8, b1: bv8, b2: bv8, b3: bv8)
    ensures var m := Mixed(b0, b1, b2, b3); InvMixed(m.0, m.1, m.2, m.3).2 == b2
  {
    Linear13(Gm2(b0), Gm3(b1), b2, b3);
    Linear09(b0, Gm2(b1), Gm3(b2), b3);
    Linear14(b0, b1, Gm2(b2), Gm3(b3));
    Linear11(Gm3(b0), b1, b2, Gm2(b3));
    Transpose4(Gm13(Gm2(b0)), Gm13(Gm3(b1)), Gm13(b2), Gm13(b3),
               Gm09(b0), Gm09(Gm2(b1)), Gm09(Gm3(b2)), Gm09(b3),
               Gm14(b0), Gm14(b1), Gm14(Gm2(b2)), Gm14(Gm3(b3)),
               Gm11(Gm3(b0)), Gm11(b1), Gm11(b2), Gm11(Gm2(b3)));
    UnmixCoefficients2(b0);
    UnmixCoefficients2(b1);
    UnmixCoefficients2(b2);
    UnmixCoefficients2(b3);
  }

  lemma Unmix3(b0: bv8, b1: bv8, b2: bv8, b3: bv8)
    ensures var m := Mixed(b0, b1, b2, b3); InvMixed(m.0, m.1, m.2, m.3).3 == b3
  {
    Linear11(Gm2(b0), Gm3(b1), b2, b3);
    Linear13(b0, Gm2(b1), Gm3(b2), b3);
    Linear09(b0, b1, Gm2(b2), Gm3(b3));
    Linear14(Gm3(b0), b1, b2, Gm2(b3));
    Transpose4(Gm11(Gm2(b0)), Gm11(Gm3(b1)), Gm11(b2), Gm11(b3),
               Gm13(b0), Gm13(Gm2(b1)), Gm13(Gm3(b2)), Gm13(b3),
               Gm09(b0), Gm09(b1), Gm09(Gm2(b2)), Gm09(Gm3(b3)),
               Gm14(Gm3(b0)), Gm14(b1), Gm14(b2), Gm14(Gm2(b3)));
    UnmixCoefficients3(b0);
    UnmixCoefficients3(b1);
    UnmixCoefficients3(b2);
    UnmixCoefficients3(b3);
  }

  /** The coefficients of the product in the other order. */
  lemma RemixCoefficients0(b: bv8)
    ensures Xor4(Gm2(Gm14(b)), Gm3(Gm09(b)), Gm13(b), Gm11(b)) == b
    ensures Xor4(Gm2(Gm11(b)), Gm3(Gm14(b)), Gm09(b), Gm13(b)) == 0
    ensures Xor4(Gm2(Gm13(b)), Gm3(Gm11(b)), Gm14(b), Gm09(b)) == 0
    ensures Xor4(Gm2(Gm09(b)), Gm3(Gm13(b)), Gm11(b), Gm14(b)) == 0
  {
  }

  lemma RemixCoefficients1(b: bv8)
    ensures Xor4(Gm14(b), Gm2(Gm09(b)), Gm3(Gm13(b)), Gm11(b)) == 0
    ensures Xor4(Gm11(b), Gm2(Gm14(b)), Gm3(Gm09(b)), Gm13(b)) == b
    ensures Xor4(Gm13(b), Gm2(Gm11(b)), Gm3(Gm14(b)), Gm09(b)) == 0
    ensures Xor4(Gm09(b), Gm2(Gm13(b)), Gm3(Gm11(b)), Gm14(b)) == 0
  {
  }

  lemma RemixCoefficients2(b: bv8)
    ensures Xor4(Gm14(b), Gm09(b), Gm2(Gm13(b)), Gm3(Gm11(b))) == 0
    ensures Xor4(Gm11(b), Gm14(b), Gm2(Gm09(b)), Gm3(Gm13(b))) == 0
    ensures Xor4(Gm13(b), Gm11(b), Gm2(Gm14(b)), Gm3(Gm09(b))) == b
    ensures Xor4(Gm09(b), Gm13(b), Gm2(Gm11(b)), Gm3(Gm14(b))) == 0
  {
  }

  lemma RemixCoefficients3(b: bv8)
    ensures Xor4(Gm3(Gm14(b)), Gm09(b), Gm13(b), Gm2(Gm11(b))) == 0
    ensures Xor4(Gm3(Gm11(b)), Gm14(b), Gm09(b), Gm2(Gm13(b))) == 0
    ensures Xor4(Gm3(Gm13(b)), Gm11(b), Gm14(b), Gm2(Gm09(b))) == 0
    ensures Xor4(Gm3(Gm09(b)), Gm13(b), Gm11(b), Gm2(Gm14(b))) == b
  {
  }

  lemma Remix0(b0: bv8, b1: bv8, b2: bv8, b3: bv8)
    ensures var m := InvMixed(b0, b1, b2, b3); Mixed(m.0, m.1, m.2, m.3).0 == b0
  {
    Linear2(Gm14(b0), Gm11(b1), Gm13(b2), Gm09(b3));
    Linear3(Gm09(b0), Gm14(b1), Gm11(b2), Gm13(b3));
    Transpose4(Gm2(Gm14(b0)), Gm2(Gm11(b1)), Gm2(Gm13(b2)), Gm2(Gm09(b3)),
               Gm3(Gm09(b0)), Gm3(Gm14(b1)), Gm3(Gm11(b2)), Gm3(Gm13(b3)),
               Gm13(b0), Gm09(b1), Gm14(b2), Gm11(b3),
               Gm11(b0), Gm13(b1), Gm09(b2), Gm14(b3));
    RemixCoefficients0(b0);
    RemixCoefficients0(b1);
    RemixCoefficients0(b2);
    RemixCoefficients0(b3);
  }

  lemma Remix1(b0: bv8, b1: bv8, b2: bv8, b3: bv8)
    ensures var m := InvMixed(b0, b1, b2, b3); Mixed(m.0, m.1, m.2, m.3).1 == b1
  {
    Linear2(Gm09(b0), Gm14(b1), Gm11(b2), Gm13(b3));
    Linear3(Gm13(b0), Gm09(b1), Gm14(b2), Gm11(b3));
    Transpose4(Gm14(b0), Gm11(b1), Gm13(b2), Gm09(b3),
               Gm2(Gm09(b0)), Gm2(Gm14(b1)), Gm2(Gm11(b2)), Gm2(Gm13(b3)),
               Gm3(Gm13(b0)), Gm3(Gm09(b1)), Gm3(Gm14(b2)), Gm3(Gm11(b3)),
               Gm11(b0), Gm13(b1), Gm09(b2), Gm14(b3));
    RemixCoefficients1(b0);
    RemixCoefficients1(b1);
    RemixCoefficients1(b2);
    RemixCoefficients1(b3);
  }

  lemma Remix2(b0: bv8, b1: bv8, b2: bv8, b3: bv8)
    ensures var m := InvMixed(b0, b1, b2, b3); Mixed(m.0, m.1, m.2, m.3).2 == b2
  {
    Linear2(Gm13(b0), Gm09(b1), Gm14(b2), Gm11(b3));
    Linear3(Gm11(b0), Gm13(b1), Gm09(b2), Gm14(b3));
    Transpose4(Gm14(b0), Gm11(b1), Gm13(b2), Gm09(b3),
               Gm09(b0), Gm14(b1), Gm11(b2), Gm13(b3),
               Gm2(Gm13(b0)), Gm2(Gm09(b1)), Gm2(Gm14(b2)), Gm2(Gm11(b3)),
               Gm3(Gm11(b0)), Gm3(Gm13(b1)), Gm3(Gm09(b2)), Gm3(Gm14(b3)));
    RemixCoefficients2(b0);
    RemixCoefficients2(b1);
    RemixCoefficients2(b2);
    RemixCoefficients2(b3);
  }

  lemma Remix3(b0: bv8, b1: bv8, b2: bv8, b3: bv8)
    ensures var m := InvMixed(b0, b1, b2, b3); Mixed(m.0, m.1, m.2, m.3).3 == b3
  {
    Linear3(Gm14(b0), Gm11(b1), Gm13(b2), Gm09(b3));
    Linear2(Gm11(b0), Gm13(b1), Gm09(b2), Gm14(b3));
    Transpose4(Gm3(Gm14(b0)), Gm3(Gm11(b1)), Gm3(Gm13(b2)), Gm3(Gm09(b3)),
               Gm09(b0), Gm14(b1), Gm11(b2), Gm13(b3),
               Gm13(b0), Gm09(b1), Gm14(b2), Gm11(b3),
               Gm2(Gm11(b0)), Gm2(Gm13(b1)), Gm2(Gm09(b2)), Gm2(Gm14(b3)));
    RemixCoefficients3(b0);
    RemixCoefficients3(b1);
    RemixCoefficients3(b2);
    RemixCoefficients3(b3);
  }

  /** Section 5.1.3: mixing is multiplication of the column by the matrix of 2, 3, 1 and 1. */
  lemma MixwIsMatrix(w: bv32)
    ensures var (b, m) := (W2b(w), W2b(Mixw(w)));
            && m.0 == Xor4(Times8(b.0, 2), Times8(b.1, 3), b.2, b.3)
            && m.1 == Xor4(b.0, Times8(b.1, 2), Times8(b.2, 3), b.3)
            && m.2 == Xor4(b.0, b.1, Times8(b.2, 2), Times8(b.3, 3))
            && m.3 == Xor4(Times8(b.0, 3), b.1, b.2, Times8(b.3, 2))
  {
    var (b0, b1, b2, b3) := W2b(w);
    var m := Mixed(b0, b1, b2, b3);
    BytesOfWord(m.0, m.1, m.2, m.3);
    MultipliesInField(b0);
    MultipliesInField(b1);
    MultipliesInField(b2);
    MultipliesInField(b3);
  }

  /** Mixing a column and unmixing it gives it back, in either order. */
  lemma InvMixwUndoes(w: bv32)
    ensures InvMixw(Mixw(w)) == w
  {
    var (b0, b1, b2, b3) := W2b(w);
    var m := Mixed(b0, b1, b2, b3);
    BytesOfWord(m.0, m.1, m.2, m.3);
    Unmix0(b0, b1, b2, b3);
    Unmix1(b0, b1, b2, b3);
    Unmix2(b0, b1, b2, b3);
    Unmix3(b0, b1, b2, b3);
    WordOfBytes(w);
  }

  lemma MixwUndoes(w: bv32)
    ensures Mixw(InvMixw(w)) == w
  {
    var (b0, b1, b2, b3) := W2b(w);
    var m := InvMixed(b0, b1, b2, b3);
    BytesOfWord(m.0, m.1, m.2, m.3);
    Remix0(b0, b1, b2, b3);
    Remix1(b0, b1, b2, b3);
    Remix2(b0, b1, b2, b3);
    Remix3(b0, b1, b2, b3);
    WordOfBytes(w);
  }
}
