/** The adder that the execution unit shares with its multiplier and divider (zeroriscy_alu.sv). */
module AluAdder {
  import opened Arith

  type Bits32 = x: nat | x < WORD
  type Bits33 = x: nat | x < 0x2_0000_0000
  type Bits34 = x: nat | x < 0x4_0000_0000

  /** The 34-bit sum of the two 33-bit operands. */
  function Sum(x: Bits33, y: Bits33): Bits34 {
    x + y
  }

  /** Bits 32 to 1 of the sum. */
  function Word(ext: Bits34): Bits32 {
    ext / 2 % WORD
  }

  predicate IsEqual(ext: Bits34) {
    Word(ext) == 0
  }

  function Not(x: Bits32): Bits32 {
    WORD - 1 - x
  }

  /** A 32-bit value with a one behind it: two of them carry one into bit 1. */
  function WithCarry(x: Bits32): Bits33 {
    2 * x + 1
  }

  /** The adder subtracts when its second operand is negated. */
  lemma Subtracts(x: Bits32, y: Bits32)
    ensures var ext := Sum(WithCarry(x), WithCarry(Not(y)));
            && ext / 2 == WORD + x - y && Word(ext) == (x - y) % WORD && (IsEqual(ext) <==> x == y)
  {
  }
}

/** What the multiply and divide instructions compute (chapter 7 of the RISC-V Unprivileged ISA), and the
    restoring division loop that both units run. */
module MultDiv {
  import opened AluAdder
  import opened Arith

  datatype Op = MULL | MULH | DIV | REM

  datatype Request = Request(op: Op, signedA: bool, signedB: bool, a: Bits32, b: Bits32)

  predicate IsMult(i: Request) {
    i.op.MULL? || i.op.MULH?
  }

  /** The integer a register stands for: it has these bits, in two's complement when it is signed. */
  predicate StandsFor(x: Bits32, signed: bool, v: int) {
    v % 0x1_0000_0000 == x && if signed then -0x8000_0000 <= v < 0x8000_0000 else 0 <= v < 0x1_0000_0000
  }

  function Signed(x: Bits32, signed: bool): int {
    if signed && x >= 0x8000_0000 then x - 0x1_0000_0000 else x
  }

  /** Every register stands for exactly one integer. */
  lemma SignedIs(x: Bits32, signed: bool, v: int)
    ensures StandsFor(x, signed, v) <==> v == Signed(x, signed)
  {
    assert v == 0x1_0000_0000 * (v / 0x1_0000_0000) + v % 0x1_0000_0000;
  }

  /** The units test the top bit. */
  predicate Negative(x: Bits32, signed: bool) {
    signed && x >= WORD / 2
  }

  lemma NegativeIs(x: Bits32, signed: bool)
    ensures Negative(x, signed) <==> Signed(x, signed) < 0
  {
  }

  function Abs(x: int): nat {
    if x < 0 then -x else x
  }

  function Quotient(x: int, y: int): int
    requires y != 0
  {
    if (x < 0) == (y < 0) then Abs(x) / Abs(y) else -(Abs(x) / Abs(y))
  }

  function Remainder(x: int, y: int): int
    requires y != 0
  {
    if x < 0 then -(Abs(x) % Abs(y)) else Abs(x) % Abs(y)
  }

  /** The architectural result of a request. */
  function Result(i: Request): Bits32 {
    var x, y := Signed(i.a, i.signedA), Signed(i.b, i.signedB);
    match i.op
    case MULL => x * y % WORD
    case MULH => x * y / WORD % WORD
    case DIV => if i.b == 0 then WORD - 1 else Quotient(x, y) % WORD
    case REM => if i.b == 0 then i.a else Remainder(x, y) % WORD
  }

  /** Truncating division: the remainder is smaller than the divisor and has the sign of the dividend. */
  predicate Truncates(x: int, y: int, q: int, r: int) {
    && x == q * y + r && (r == 0 || (r < 0 <==> x < 0))
    && if y > 0 then -y < r < y else y < r < -y
  }

  /** Quotient and remainder are the one pair that divides with truncation. */
  lemma TruncatingDivision(x: int, y: int, q: int, r: int)
    requires y != 0
    ensures Truncates(x, y, q, r) <==> q == Quotient(x, y) && r == Remainder(x, y)
  {
    var aq := if (x < 0) == (y < 0) then q else -q;
    var ar := if x < 0 then -r else r;
    DividesUniquely(Abs(x), Abs(y), aq, ar);
    SignedProducts(y, q);
  }

  lemma DividesUniquely(n: nat, d: nat, q: int, r: int)
    requires d > 0
    ensures n == d * q + r && 0 <= r < d <==> q == n / d && r == n % d
  {
    if 0 <= r < d && n == d * q + r {
      DivModUnique(n, d, q, r);
    }
  }

  lemma SignedProducts(d: int, q: int)
    ensures d * q == q * d && -d * q == -(d * q) && d * -q == -(d * q) && -d * -q == d * q
  {
  }

  /** The two special cases of section 7.2: division by zero, and the one signed overflow. */
  lemma SpecialCases(i: Request)
    requires i.op == DIV || i.op == REM
    ensures i.b == 0 ==> Result(i) == if i.op == DIV then WORD - 1 else i.a
    ensures i.signedA && i.signedB && i.a == WORD / 2 && i.b == WORD - 1
            ==> Result(i) == if i.op == DIV then WORD / 2 else 0
  {
  }

  /** The result in terms of the integers that the operands stand for. */
  lemma Architectural(i: Request, x: int, y: int, q: int, r: int)
    requires StandsFor(i.a, i.signedA, x) && StandsFor(i.b, i.signedB, y)
    ensures i.op == MULL ==> Result(i) == x * y % 0x1_0000_0000
    ensures i.op == MULH ==> Result(i) == x * y / 0x1_0000_0000 % 0x1_0000_0000
    ensures y != 0 && Truncates(x, y, q, r) && i.op == DIV ==> Result(i) == q % 0x1_0000_0000
    ensures y != 0 && Truncates(x, y, q, r) && i.op == REM ==> Result(i) == r % 0x1_0000_0000
    ensures y == 0 && i.op == DIV ==> Result(i) == 0xFFFF_FFFF
    ensures y == 0 && i.op == REM ==> Result(i) == i.a
  {
    SignedIs(i.a, i.signedA, x);
    SignedIs(i.b, i.signedB, y);
    if y != 0 {
      TruncatingDivision(x, y, q, r);
    }
  }

  function Dividend(i: Request): Bits32 {
    Abs(Signed(i.a, i.signedA))
  }

  function Divisor(i: Request): (d: Bits32)
    ensures d == 0 <==> i.b == 0
  {
    Abs(Signed(i.b, i.signedB))
  }

  predicate ChangesSign(i: Request) {
    if i.op.DIV? then Negative(i.a, i.signedA) != Negative(i.b, i.signedB) else Negative(i.a, i.signedA)
  }

  lemma SignedResult(i: Request)
    requires !IsMult(i) && i.b != 0
    ensures var r := if i.op.DIV? then Dividend(i) / Divisor(i) else Dividend(i) % Divisor(i);
            Result(i) == (if ChangesSign(i) then 0 - r else r) % WORD
  {
  }

  // ----- the restoring division loop -----

  /** The states of a division, and its bit counter. */
  datatype Md = MD_IDLE | MD_ABS_A | MD_ABS_B | MD_COMP | MD_LAST | MD_CHANGE_SIGN | MD_FINISH
  type Counter = x: nat | x < 32

  /** The numerator shifted in down to bit s. */
  function Seen(num: nat, s: nat): (r: nat)
    ensures r <= num
  {
    ShrinksBy(num, Pow2(s));
    num / Pow2(s)
  }

  function Over(n: nat, d: nat): (q: nat)
    requires d > 0
    ensures n == d * q + n % d && q <= n
  {
    ShrinksBy(n, d);
    n / d
  }

  /** The quotient bits found by then. */
  function Found(num: nat, d: nat, s: nat): nat
    requires d > 0
  {
    Times(Pow2(s), Over(Seen(num, s), d))
  }

  function Rest(num: nat, d: nat, s: nat): nat
    requires d > 0
  {
    Seen(num, s) % d
  }

  /** The partial remainder with bit s of the numerator shifted in. */
  function Window(num: nat, d: nat, s: nat): nat
    requires d > 0
  {
    2 * Rest(num, d, s + 1) + Bit(num, s)
  }

  /** One step: compare, subtract, set the quotient bit. The partial remainder never outgrows the bits of the
      numerator seen so far, so it needs no 33rd bit. */
  lemma DivisionStep(num: nat, d: nat, s: nat)
    requires d > 0
    ensures Window(num, d, s) <= num
    ensures Window(num, d, s) >= d
            ==> Rest(num, d, s) == Window(num, d, s) - d && Found(num, d, s) == Found(num, d, s + 1) + Pow2(s)
    ensures Window(num, d, s) < d
            ==> Rest(num, d, s) == Window(num, d, s) && Found(num, d, s) == Found(num, d, s + 1)
    ensures Bit(Found(num, d, s + 1), s) == 0
  {
    var hi, lo := Seen(num, s + 1), Seen(num, s);
    NextBit(num, s);
    StepQuotient(lo, d, Over(hi, d), hi % d, Window(num, d, s));
    StepFound(s, Over(hi, d));
  }

  lemma StepQuotient(lo: nat, d: nat, q: nat, r: nat, w: nat)
    requires d > 0 && r < d && 2 * (d * q + r) <= lo <= 2 * (d * q + r) + 1 && w == lo - 2 * (d * q)
    ensures w <= lo
    ensures w >= d ==> lo / d == 2 * q + 1 && lo % d == w - d
    ensures w < d ==> lo / d == 2 * q && lo % d == w
  {
    MulDistribute(d, q, q);
    MulDistribute(d, 2 * q, 1);
    MulMonotone(d, 0, q);
    if w >= d {
      DivModUnique(lo, d, 2 * q + 1, w - d);
    } else {
      DivModUnique(lo, d, 2 * q, w);
    }
  }

  lemma StepFound(s: nat, q: nat)
    ensures Pow2(s + 1) * q == Pow2(s) * (2 * q) && Pow2(s) * (2 * q + 1) == Pow2(s + 1) * q + Pow2(s)
    ensures Bit(Pow2(s + 1) * q, s) == 0
  {
    MulDistribute(Pow2(s), 2 * q, 1);
    MulAssociates(Pow2(s), 2, q);
    DivModUnique(Pow2(s + 1) * q, Pow2(s), 2 * q, 0);
  }

  lemma ShrinksBy(n: nat, d: nat)
    requires d > 0
    ensures 0 <= n / d <= n
  {
    var q := n / d;
    if q < 0 {
      MulMonotone(d, q, -1);
    } else {
      MulMonotone(q, 1, d);
    }
  }

  // ----- the comparator of the division loop -----

  /** Greater-or-equal as the units decide it: from the sign of the difference, or from the top bits. */
  predicate GreaterEqual(x: nat, y: nat, difference: nat) {
    if x / (WORD / 2) % 2 == y / (WORD / 2) % 2 then difference / (WORD / 2) % 2 == 0 else x / (WORD / 2) % 2 == 1
  }

  lemma ComparesUnsigned(x: Bits32, y: Bits32)
    ensures GreaterEqual(x, y, Sum(WithCarry(x), WithCarry(Not(y))) / 2) <==> x >= y
  {
    Subtracts(x, y);
  }

  /** Setting a bit with a bitwise or. */
  function SetBit(n: nat, k: nat): nat {
    if Bit(n, k) == 1 then n else n + Pow2(k)
  }

  lemma SubtractsRemainder(x: Bits32, d: Bits32)
    ensures x % WORD == x && d % WORD == d
    ensures var difference := Sum(WithCarry(x), WithCarry(Not(d))) / 2;
            && (GreaterEqual(x, d, difference) <==> x >= d)
            && (x >= d ==> difference % WORD == x - d)
  {
    Subtracts(x, d);
    ComparesUnsigned(x, d);
    ShiftMod(x - d, -1);
  }

  lemma Negates(x: Bits32)
    ensures Word(Sum(WithCarry(0), WithCarry(Not(x)))) == (if x == 0 then 0 else WORD - x) == (0 - x) % WORD
  {
  }

  lemma FoundBounded(num: nat, d: nat, k: nat)
    requires d > 0
    ensures Found(num, d, k) <= num
  {
    MulMonotone(Pow2(k), Over(Seen(num, k), d), Seen(num, k));
  }

  lemma NothingFound(num: Bits32, d: nat)
    requires d > 0
    ensures Found(num, d, 32) == 0 && Window(num, d, 31) == Bit(num, 31)
  {
    PowersOfTwo();
    DivModUnique(num, WORD, 0, num);
    DivModUnique(0, d, 0, 0);
  }

  lemma ShiftMod(x: int, k: int)
    ensures (x - WORD * k) % WORD == x % WORD && (x - WORD * k) / WORD == x / WORD - k
  {
    DivModUnique(x - WORD * k, WORD, x / WORD - k, x % WORD);
  }
}
