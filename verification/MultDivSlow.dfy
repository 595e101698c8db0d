/** The small multiplier and divider (zeroriscy_multdiv_slow.sv): a Baugh-Wooley bit-serial multiplier and a
    restoring divider over shared shift registers, fed back through the adder of the ALU.

    Main theorem (`Computes`): every request, held stable, is answered after a fixed number of clocks with its
    architectural result, and not before. */
module MultDivSlow {
  import opened AluAdder
  import opened Arith
  import opened MultDiv

  datatype Slow = Slow(cs: Md, counter: Counter, accum: Bits33, aShift: Bits33, bShift: Bits33, numerator: Bits32)

  /** The operand with its sign as bit 32. */
  function Extended(x: Bits32, signed: bool): Bits33 {
    if Negative(x, signed) then x + WORD else x
  }

  /** The partial product of the lowest multiplier bit, with its sign bit inverted. */
  function PartialProduct(a: Bits33, b: Bits33): Bits33 {
    if b % 2 == 0 then WORD else if a >= WORD then a % WORD else WORD + a % WORD
  }

  /** The last partial product, with its other bits inverted. */
  function LastPartialProduct(a: Bits33, b: Bits33): Bits33 {
    if b % 2 == 0 then WORD - 1 else (if a >= WORD then WORD else 0) + Not(a % WORD)
  }

  function OperandA(s: Slow, i: Request): Bits33 {
    if IsMult(i) then s.accum
    else match s.cs
      case MD_IDLE | MD_ABS_A | MD_ABS_B | MD_CHANGE_SIGN => WithCarry(0)
      case MD_COMP | MD_LAST | MD_FINISH => WithCarry(s.accum % WORD)
  }

  function OperandB(s: Slow, i: Request): Bits33 {
    if i.op.MULH? && s.cs.MD_LAST? then LastPartialProduct(s.aShift, s.bShift)
    else if IsMult(i) then PartialProduct(s.aShift, s.bShift)
    else match s.cs
      case MD_IDLE | MD_ABS_B => WithCarry(Not(i.b))
      case MD_ABS_A => WithCarry(Not(i.a))
      case MD_CHANGE_SIGN => WithCarry(Not(s.accum % WORD))
      case MD_COMP | MD_LAST | MD_FINISH => WithCarry(Not(s.bShift % WORD))
  }

  function Adder(s: Slow, i: Request): Bits34 {
    Sum(OperandA(s, i), OperandB(s, i))
  }

  function Low(ext: Bits34): Bits33 {
    ext % (2 * WORD)
  }

  function High(ext: Bits34): Bits33 {
    ext / 2
  }

  function NextRemainder(s: Slow, ext: Bits34): Bits33 {
    if GreaterEqual(s.accum, s.bShift, High(ext)) then High(ext) else s.accum
  }

  function NextQuotient(s: Slow, ext: Bits34): Bits33 {
    if GreaterEqual(s.accum, s.bShift, High(ext)) then SetBit(s.aShift, s.counter) % (2 * WORD) else s.aShift
  }

  predicate Ready(s: Slow, i: Request) {
    s.cs.MD_FINISH? || (s.cs.MD_LAST? && IsMult(i))
  }

  function Output(s: Slow, i: Request): Bits32 {
    if IsMult(i) then Low(Adder(s, i)) % WORD else s.accum % WORD
  }

  // ----- one enabled clock -----

  function Idle(s: Slow, i: Request, ext: Bits34): Slow {
    var a, b := Extended(i.a, i.signedA), Extended(i.b, i.signedB);
    var go := if IsEqual(ext) then MD_FINISH else MD_ABS_A;
    match i.op
    case MULL =>
      s.(counter := 31, aShift := a * 2 % (2 * WORD), accum := PartialProduct(a, b), bShift := b / 2, cs := MD_COMP)
    case MULH =>
      s.(counter := 31, aShift := a, accum := WORD + PartialProduct(a, b) / 2, bShift := b / 2, cs := MD_COMP)
    case DIV => s.(counter := 31, accum := 2 * WORD - 1, cs := go)
    case REM => s.(counter := 31, accum := a, cs := go)
  }

  function Compute(s: Slow, i: Request, ext: Bits34): Slow {
    var n: Counter := (s.counter + 31) % 32;
    var cs := if s.counter == 1 then MD_LAST else MD_COMP;
    match i.op
    case MULL => s.(counter := n, cs := cs, accum := Low(ext), aShift := s.aShift * 2 % (2 * WORD), bShift := s.bShift / 2)
    case MULH => s.(counter := n, cs := cs, accum := High(ext), bShift := s.bShift / 2)
    case DIV | REM =>
      s.(counter := n, cs := cs, aShift := NextQuotient(s, ext),
         accum := 2 * (NextRemainder(s, ext) % WORD) + Bit(s.numerator, n))
  }

  function Last(s: Slow, i: Request, ext: Bits34): Slow {
    match i.op
    case MULL | MULH => s.(accum := Low(ext), cs := MD_IDLE)
    case DIV => s.(accum := NextQuotient(s, ext), cs := MD_CHANGE_SIGN)
    case REM => s.(accum := NextRemainder(s, ext) % WORD, cs := MD_CHANGE_SIGN)
  }

  function Step(s: Slow, i: Request): Slow {
    var ext := Adder(s, i);
    match s.cs
    case MD_IDLE => Idle(s, i, ext)
    case MD_ABS_A => s.(aShift := 0, numerator := if Negative(i.a, i.signedA) then Word(ext) else i.a, cs := MD_ABS_B)
    case MD_ABS_B =>
      s.(accum := Bit(s.numerator, 31), bShift := if Negative(i.b, i.signedB) then Word(ext) else i.b, cs := MD_COMP)
    case MD_COMP => Compute(s, i, ext)
    case MD_LAST => Last(s, i, ext)
    case MD_CHANGE_SIGN => s.(accum := if ChangesSign(i) then Word(ext) else s.accum, cs := MD_FINISH)
    case MD_FINISH => s.(cs := MD_IDLE)
  }

  class SlowRegisters {
    var currState: Md
    var multdivState: Counter
    var accumWindow: Bits33
    var opAShift: Bits33
    var opBShift: Bits33
    var opNumerator: Bits32

    function State(): Slow
      reads this
    {
      Slow(currState, multdivState, accumWindow, opAShift, opBShift, opNumerator)
    }

    constructor ()
      ensures State() == Slow(MD_IDLE, 0, 0, 0, 0, 0)
    {
      currState, multdivState, accumWindow, opAShift, opBShift, opNumerator := MD_IDLE, 0, 0, 0, 0, 0;
    }

    /** The clocked process; nothing moves without an enable. */
    method Clock(multEn: bool, divEn: bool, i: Request) returns (result: Bits32, ready: bool)
      requires multEn || divEn ==> (divEn <==> !IsMult(i))
      modifies this
      ensures State() == if multEn || divEn then Step(old(State()), i) else old(State())
      ensures ready == Ready(old(State()), i)
      ensures multEn || divEn ==> result == Output(old(State()), i)
    {
      var ext := Adder(State(), i);
      var remainder, quotient := NextRemainder(State(), ext), NextQuotient(State(), ext);
      result, ready := if divEn then accumWindow % WORD else Low(ext) % WORD, Ready(State(), i);
      if !multEn && !divEn {
        return;
      }
      match currState {
        case MD_IDLE =>
          var a, b := Extended(i.a, i.signedA), Extended(i.b, i.signedB);
          match i.op {
            case MULL =>
              opAShift, accumWindow, opBShift := a * 2 % (2 * WORD), PartialProduct(a, b), b / 2;
              currState := MD_COMP;
            case MULH =>
              opAShift, accumWindow, opBShift := a, WORD + PartialProduct(a, b) / 2, b / 2;
              currState := MD_COMP;
            case DIV =>
              accumWindow := 2 * WORD - 1;
              currState := if IsEqual(ext) then MD_FINISH else MD_ABS_A;
            case REM =>
              accumWindow := a;
              currState := if IsEqual(ext) then MD_FINISH else MD_ABS_A;
          }
          multdivState := 31;
        case MD_ABS_A =>
          opAShift := 0;
          opNumerator := if Negative(i.a, i.signedA) then Word(ext) else i.a;
          currState := MD_ABS_B;
        case MD_ABS_B =>
          accumWindow := Bit(opNumerator, 31);
          opBShift := if Negative(i.b, i.signedB) then Word(ext) else i.b;
          currState := MD_COMP;
        case MD_COMP =>
          var n: Counter := (multdivState + 31) % 32;
          match i.op {
            case MULL =>
              accumWindow, opAShift, opBShift := Low(ext), opAShift * 2 % (2 * WORD), opBShift / 2;
            case MULH =>
              accumWindow, opBShift := High(ext), opBShift / 2;
            case DIV | REM =>
              accumWindow, opAShift := 2 * (remainder % WORD) + Bit(opNumerator, n), quotient;
          }
          currState := if multdivState == 1 then MD_LAST else MD_COMP;
          multdivState := n;
        case MD_LAST =>
          match i.op {
            case MULL | MULH => accumWindow, currState := Low(ext), MD_IDLE;
            case DIV => accumWindow, currState := quotient, MD_CHANGE_SIGN;
            case REM => accumWindow, currState := remainder % WORD, MD_CHANGE_SIGN;
          }
        case MD_CHANGE_SIGN =>
          currState := MD_FINISH;
          if ChangesSign(i) { accumWindow := Word(ext); }
        case MD_FINISH =>
          currState := MD_IDLE;
      }
    }
  }

  // ----- runs of a request held stable -----

  function Run(s: Slow, i: Request, n: nat): Slow {
    if n == 0 then s else Step(Run(s, i, n - 1), i)
  }

  /** The clocks a request takes before its result is ready. */
  function Latency(i: Request): nat {
    if IsMult(i) then 32 else if i.b == 0 then 1 else 36
  }

  // ----- low product: shift and add modulo 2^32 -----

  predicate Multiplies(s: Slow, k: nat, rest: int) {
    && 1 <= k <= 32 && s.counter == 32 - k && s.cs == (if k == 32 then MD_LAST else MD_COMP) && s.bShift == rest
  }

  /** After k multiplier bits: the sum so far and the shifted multiplicand, modulo 2^32. */
  predicate LowProduct(s: Slow, k: nat, sum: int, shifted: int, rest: int) {
    Multiplies(s, k, rest) && s.accum % WORD == sum % WORD && s.aShift % WORD == shifted % WORD
  }

  /** The multiplier register gives up its lowest bit. */
  lemma ShiftsBit(b: nat, k: nat)
    ensures b / Pow2(k) % 2 == Bit(b, k) && b / Pow2(k) / 2 == b / Pow2(k + 1)
  {
    NextBit(b, k);
  }

  /** One more multiplier bit adds the shifted multiplicand. */
  lemma ProductGrows(a: int, b: nat, k: nat)
    ensures a * (b % Pow2(k + 1)) == a * (b % Pow2(k)) + if b / Pow2(k) % 2 == 1 then a * Pow2(k) else 0
    ensures a * Pow2(k) * 2 == a * Pow2(k + 1)
  {
    NextBit(b, k);
    MulDistribute(a, b % Pow2(k), Pow2(k) * Bit(b, k));
    MulAssociates(a, 2, Pow2(k));
  }

  /** The low halves of the shift registers and the adder work modulo 2^32. */
  lemma AddsPartialProduct(accum: Bits33, a: Bits33, b: Bits33, p: int, q: int)
    requires accum % WORD == p % WORD && a % WORD == q % WORD
    ensures Low(Sum(accum, PartialProduct(a, b))) % WORD == (p + if b % 2 == 1 then q else 0) % WORD
  {
    DropTopBit(accum + PartialProduct(a, b));
    PartialProductMod(a, b);
    AddMod(accum, PartialProduct(a, b), p, if b % 2 == 1 then q else 0);
  }

  lemma PartialProductMod(a: Bits33, b: Bits33)
    ensures PartialProduct(a, b) % WORD == if b % 2 == 1 then a % WORD else 0
  {
  }

  lemma Doubles(a: Bits33, q: int)
    requires a % WORD == q % WORD
    ensures a * 2 % (2 * WORD) % WORD == q * 2 % WORD
  {
    DropTopBit(a * 2);
    AddMod(a, a, q, q);
  }

  lemma DropTopBit(x: nat)
    ensures x % (2 * WORD) % WORD == x % WORD
  {
    var q, r := x / (2 * WORD), x % (2 * WORD);
    DivModUnique(x, WORD, 2 * q + r / WORD, r % WORD);
  }

  lemma AddMod(x: int, y: int, p: int, q: int)
    requires x % WORD == p % WORD && y % WORD == q % WORD
    ensures (x + y) % WORD == (p + q) % WORD
  {
    var k := (x / WORD - p / WORD) + (y / WORD - q / WORD);
    assert x + y == p + q + WORD * k;
    ShiftMod(p + q, -k);
  }

  lemma LowStarts(s: Slow, i: Request)
    requires s.cs.MD_IDLE? && i.op.MULL?
    ensures var b := Extended(i.b, i.signedB);
            LowProduct(Step(s, i), 1, if b % 2 == 1 then i.a else 0, i.a * 2, b / 2)
  {
    var a, b := Extended(i.a, i.signedA), Extended(i.b, i.signedB);
    SignIsTopBit(i.a, i.signedA);
    PartialProductMod(a, b);
    Doubles(a, i.a);
  }

  lemma LowStep(s: Slow, i: Request, k: nat, sum: int, shifted: int, rest: int)
    requires LowProduct(s, k, sum, shifted, rest) && k < 32 && i.op.MULL?
    ensures LowProduct(Step(s, i), k + 1, sum + if rest % 2 == 1 then shifted else 0, shifted * 2, rest / 2)
  {
    AddsPartialProduct(s.accum, s.aShift, s.bShift, sum, shifted);
    Doubles(s.aShift, shifted);
  }

  predicate TracksLow(s: Slow, i: Request, k: nat) {
    var b := Extended(i.b, i.signedB);
    LowProduct(s, k, i.a * (b % Pow2(k)), i.a * Pow2(k), b / Pow2(k))
  }

  lemma LowBegins(s: Slow, i: Request)
    requires s.cs.MD_IDLE? && i.op.MULL?
    ensures TracksLow(Step(s, i), i, 1)
  {
    var b := Extended(i.b, i.signedB);
    LowStarts(s, i);
    ProductGrows(i.a, b, 0);
    ShiftsBit(b, 0);
  }

  lemma LowContinues(s: Slow, i: Request, k: nat)
    requires TracksLow(s, i, k) && k < 32 && i.op.MULL?
    ensures TracksLow(Step(s, i), i, k + 1)
  {
    var b := Extended(i.b, i.signedB);
    LowStep(s, i, k, i.a * (b % Pow2(k)), i.a * Pow2(k), b / Pow2(k));
    ProductGrows(i.a, b, k);
    ShiftsBit(b, k);
  }

  lemma LowOutput(s: Slow, i: Request)
    requires LowProduct(s, 32, i.a * i.b, i.a * WORD, Extended(i.b, i.signedB) / WORD) && i.op.MULL?
    ensures Output(s, i) == Result(i)
  {
    AddsPartialProduct(s.accum, s.aShift, s.bShift, i.a * i.b, i.a * WORD);
    LowIgnoresSigns(i);
    ShiftMod(i.a * i.b, 0 - i.a);
  }

  lemma SignIsTopBit(x: Bits32, signed: bool)
    ensures Extended(x, signed) % WORD == x && Extended(x, signed) / WORD == if Negative(x, signed) then 1 else 0
  {
  }

  lemma LowIgnoresSigns(i: Request)
    ensures Signed(i.a, i.signedA) * Signed(i.b, i.signedB) % WORD == i.a * i.b % WORD
  {
    var na, nb := if Negative(i.a, i.signedA) then 1 else 0, if Negative(i.b, i.signedB) then 1 else 0;
    var x, y := Signed(i.a, i.signedA), Signed(i.b, i.signedB);
    assert x == i.a - na * WORD && y == i.b - nb * WORD;
    assert x * y == i.a * i.b - WORD * (nb * i.a + na * i.b - na * nb * WORD);
    ShiftMod(i.a * i.b, nb * i.a + na * i.b - na * nb * WORD);
  }

  // ----- high product: the window slides over the sum of the partial products -----

  /** WORD plus the partial products so far; the WORD keeps the window non-negative. */
  function Summed(x: int, b: nat, k: nat): int {
    WORD + x * (b % Pow2(k))
  }

  /** After k multiplier bits: the window holds the sum so far, shifted right k places. */
  predicate HighProduct(s: Slow, i: Request, k: nat, sum: int, rest: int) {
    Multiplies(s, k, rest) && s.accum == WORD + sum && s.aShift == Extended(i.a, i.signedA)
  }

  lemma InvertedPartialProducts(i: Request, b: Bits33)
    ensures var a, x := Extended(i.a, i.signedA), Signed(i.a, i.signedA);
            && PartialProduct(a, b) == WORD + (if b % 2 == 1 then x else 0)
            && LastPartialProduct(a, b) == WORD - 1 - (if b % 2 == 1 then x else 0)
  {
  }

  lemma WindowSlides(x: int, b: nat, k: nat)
    ensures Summed(x, b, k + 1) / Pow2(k + 1)
         == (Summed(x, b, k) / Pow2(k) + if b / Pow2(k) % 2 == 1 then x else 0) / 2
  {
    ProductGrows(x, b, k);
    AddsAbove(Summed(x, b, k), Pow2(k), if b / Pow2(k) % 2 == 1 then x else 0);
  }

  lemma AddsAbove(t: int, p: nat, add: int)
    requires p > 0
    ensures (t + add * p) / (2 * p) == (t / p + add) / 2
  {
    MulDistribute(p, t / p, add);
    DivModUnique(t + add * p, p, t / p + add, t % p);
    DivTwice(t + add * p, p, 2);
  }

  lemma HighStarts(s: Slow, i: Request)
    requires s.cs.MD_IDLE? && i.op.MULH?
    ensures var x, b := Signed(i.a, i.signedA), Extended(i.b, i.signedB);
            HighProduct(Step(s, i), i, 1, (WORD + if b % 2 == 1 then x else 0) / 2, b / 2)
  {
    InvertedPartialProducts(i, Extended(i.b, i.signedB));
  }

  lemma HighStep(s: Slow, i: Request, k: nat, sum: int, rest: int)
    requires HighProduct(s, i, k, sum, rest) && k < 32 && i.op.MULH?
    ensures var x := Signed(i.a, i.signedA);
            HighProduct(Step(s, i), i, k + 1, (sum + if rest % 2 == 1 then x else 0) / 2, rest / 2)
  {
    InvertedPartialProducts(i, s.bShift);
  }

  predicate TracksHigh(s: Slow, i: Request, k: nat) {
    var x, b := Signed(i.a, i.signedA), Extended(i.b, i.signedB);
    HighProduct(s, i, k, Summed(x, b, k) / Pow2(k), b / Pow2(k))
  }

  lemma HighBegins(s: Slow, i: Request)
    requires s.cs.MD_IDLE? && i.op.MULH?
    ensures TracksHigh(Step(s, i), i, 1)
  {
    var x, b := Signed(i.a, i.signedA), Extended(i.b, i.signedB);
    HighStarts(s, i);
    NothingSummed(x, b);
    WindowSlides(x, b, 0);
    ShiftsBit(b, 0);
  }

  lemma HighContinues(s: Slow, i: Request, k: nat)
    requires TracksHigh(s, i, k) && k < 32 && i.op.MULH?
    ensures TracksHigh(Step(s, i), i, k + 1)
  {
    var x, b := Signed(i.a, i.signedA), Extended(i.b, i.signedB);
    HighStep(s, i, k, Summed(x, b, k) / Pow2(k), b / Pow2(k));
    WindowSlides(x, b, k);
    ShiftsBit(b, k);
  }

  lemma NothingSummed(x: int, b: nat)
    ensures Summed(x, b, 0) / Pow2(0) == WORD
  {
    assert b % Pow2(0) == 0;
  }

  lemma HighOutput(s: Slow, i: Request)
    requires i.op.MULH?
    requires HighProduct(s, i, 32, (WORD + Signed(i.a, i.signedA) * i.b) / WORD, Extended(i.b, i.signedB) / WORD)
    ensures Output(s, i) == Result(i)
  {
    var x := Signed(i.a, i.signedA);
    SignIsTopBit(i.b, i.signedB);
    InvertedPartialProducts(i, s.bShift);
    var n := if Negative(i.b, i.signedB) then x else 0;
    TakesSign(x, i.b, i.signedB);
    ShiftMod(x * i.b, -1);
    LastAddition(s.accum, LastPartialProduct(s.aShift, s.bShift), x * i.b / WORD, n);
  }

  lemma TakesSign(x: int, b: Bits32, signed: bool)
    ensures x * Signed(b, signed) / WORD == x * b / WORD - if Negative(b, signed) then x else 0
  {
    if Negative(b, signed) {
      assert x * (b - WORD) == x * b - WORD * x;
      ShiftMod(x * b, x);
    }
  }

  lemma LastAddition(accum: Bits33, pp: Bits33, q: int, t: int)
    requires accum == WORD + 1 + q && pp == WORD - 1 - t
    ensures Low(Sum(accum, pp)) % WORD == (q - t) % WORD
  {
    DropTopBit(accum + pp);
    ShiftMod(q - t, -2);
  }

  /** The multiplication loop: k multiplier bits are summed after k clocks. */
  lemma {:induction false} Multiplying(s: Slow, i: Request, k: nat)
    requires s.cs.MD_IDLE? && IsMult(i) && 1 <= k <= 32
    ensures if i.op.MULL? then TracksLow(Run(s, i, k), i, k) else TracksHigh(Run(s, i, k), i, k)
    decreases k
  {
    if k == 1 {
      assert Run(s, i, 1) == Step(Run(s, i, 0), i) == Step(s, i);
      if i.op.MULL? {
        LowBegins(s, i);
      } else {
        HighBegins(s, i);
      }
    } else {
      Multiplying(s, i, k - 1);
      if i.op.MULL? {
        LowContinues(Run(s, i, k - 1), i, k - 1);
      } else {
        HighContinues(Run(s, i, k - 1), i, k - 1);
      }
    }
  }

  lemma MultiplicationAnswers(s: Slow, i: Request)
    requires s.cs.MD_IDLE? && IsMult(i)
    ensures Output(Run(s, i, 32), i) == Result(i)
  {
    PowersOfTwo();
    SignIsTopBit(i.b, i.signedB);
    Multiplying(s, i, 32);
    if i.op.MULL? {
      LowOutput(Run(s, i, 32), i);
    } else {
      HighOutput(Run(s, i, 32), i);
    }
  }

  // ----- division -----

  predicate Loops(s: Slow, i: Request, k: nat, found: nat, window: nat) {
    && k <= 31 && s.counter == k && s.cs == (if k == 0 then MD_LAST else MD_COMP)
    && s.numerator == Dividend(i) && s.bShift == Divisor(i) && s.aShift == found && s.accum == window
  }

  /** The loop state with bits 31 to k of the numerator shifted in. */
  predicate Divides(s: Slow, i: Request, k: nat)
    requires i.b != 0
  {
    Loops(s, i, k, Found(Dividend(i), Divisor(i), k + 1), Window(Dividend(i), Divisor(i), k))
  }

  /** Quotient and remainder after one compare and subtract. */
  lemma Subtraction(s: Slow, i: Request, k: nat, found: nat, window: nat)
    requires Loops(s, i, k, found, window) && !IsMult(i) && (s.cs.MD_COMP? || s.cs.MD_LAST?)
    requires Bit(found, k) == 0 && window < WORD && (window >= Divisor(i) ==> found + Pow2(k) < WORD)
    ensures NextQuotient(s, Adder(s, i)) == if window >= Divisor(i) then found + Pow2(k) else found
    ensures NextRemainder(s, Adder(s, i)) % WORD == if window >= Divisor(i) then window - Divisor(i) else window
  {
    SubtractsRemainder(window, s.bShift);
    if window >= s.bShift {
      DivModUnique(found + Pow2(k), 2 * WORD, 0, found + Pow2(k));
    }
  }

  /** The loop step on the model's own quantities. */
  lemma SubtractionIs(s: Slow, i: Request, k: nat)
    requires i.b != 0 && !IsMult(i) && Divides(s, i, k)
    ensures NextQuotient(s, Adder(s, i)) == Found(Dividend(i), Divisor(i), k) < WORD
    ensures NextRemainder(s, Adder(s, i)) % WORD == Rest(Dividend(i), Divisor(i), k)
  {
    var num, d := Dividend(i), Divisor(i);
    DivisionStep(num, d, k);
    FoundBounded(num, d, k);
    Subtraction(s, i, k, Found(num, d, k + 1), Window(num, d, k));
  }

  lemma ChecksZero(s: Slow, i: Request)
    requires s.cs.MD_IDLE? && !IsMult(i)
    ensures Step(s, i).cs == if i.b == 0 then MD_FINISH else MD_ABS_A
    ensures i.b == 0 ==> Output(Step(s, i), i) == Result(i)
  {
    Negates(i.b);
  }

  lemma TakesAbsolutes(s: Slow, i: Request)
    requires s.cs.MD_ABS_A? && !IsMult(i)
    ensures Step(s, i) == s.(aShift := 0, numerator := Dividend(i), cs := MD_ABS_B)
    ensures Step(Step(s, i), i)
         == s.(aShift := 0, numerator := Dividend(i), accum := Bit(Dividend(i), 31), bShift := Divisor(i), cs := MD_COMP)
  {
    Negates(i.a);
    Negates(i.b);
  }

  lemma DivisionStarts(s: Slow, i: Request)
    requires s.cs.MD_IDLE? && !IsMult(i) && i.b != 0
    ensures Run(s, i, 1).cs.MD_ABS_A? && Run(s, i, 2).cs.MD_ABS_B?
    ensures Loops(Run(s, i, 3), i, 31, 0, Bit(Dividend(i), 31))
  {
    ChecksZero(s, i);
    var s1 := Step(s, i);
    assert s1.counter == 31;
    TakesAbsolutes(s1, i);
    assert Run(s, i, 1) == Step(Run(s, i, 0), i) == s1;
    assert Run(s, i, 2) == Step(s1, i) && Run(s, i, 3) == Step(Run(s, i, 2), i);
  }

  lemma DivisionContinues(s: Slow, i: Request, k: nat)
    requires i.b != 0 && Divides(s, i, k) && k > 0 && !IsMult(i)
    ensures Divides(Step(s, i), i, k - 1)
  {
    SubtractionIs(s, i, k);
  }

  lemma {:induction false} Dividing(s: Slow, i: Request, k: nat)
    requires s.cs.MD_IDLE? && !IsMult(i) && i.b != 0 && k <= 31
    ensures Divides(Run(s, i, 34 - k), i, k)
    decreases 31 - k
  {
    if k == 31 {
      DivisionStarts(s, i);
      NothingFound(Dividend(i), Divisor(i));
    } else {
      Dividing(s, i, k + 1);
      DivisionContinues(Run(s, i, 33 - k), i, k + 1);
    }
  }

  lemma DivisionEnds(s: Slow, i: Request)
    requires !IsMult(i) && i.b != 0 && Divides(s, i, 0)
    ensures var t := Step(s, i);
            t.cs.MD_CHANGE_SIGN? && t.accum == if i.op.DIV? then Dividend(i) / Divisor(i) else Dividend(i) % Divisor(i)
  {
    SubtractionIs(s, i, 0);
    assert Seen(Dividend(i), 0) == Dividend(i);
  }

  lemma SignChanges(s: Slow, i: Request)
    requires !IsMult(i) && s.cs.MD_CHANGE_SIGN? && s.accum < WORD
    ensures Step(s, i).cs.MD_FINISH?
    ensures Output(Step(s, i), i) == (if ChangesSign(i) then 0 - s.accum else s.accum) % WORD
  {
    Negates(s.accum);
  }

  /** The end of every division: the signed quotient or remainder. */
  lemma DivisionAnswers(s: Slow, i: Request)
    requires s.cs.MD_IDLE? && !IsMult(i) && i.b != 0
    ensures Run(s, i, 35).cs.MD_CHANGE_SIGN? && Run(s, i, 36).cs.MD_FINISH? && Run(s, i, 37).cs.MD_IDLE?
    ensures Output(Run(s, i, 36), i) == Result(i)
  {
    Dividing(s, i, 0);
    DivisionEnds(Run(s, i, 34), i);
    ShrinksBy(Dividend(i), Divisor(i));
    SignedResult(i);
    SignChanges(Run(s, i, 35), i);
  }

  // ----- every request -----

  /** The state the unit is in k clocks after a request. */
  function Phase(i: Request, k: nat): Md {
    if k == 0 then MD_IDLE
    else if IsMult(i) then (if k < 32 then MD_COMP else if k == 32 then MD_LAST else MD_IDLE)
    else if i.b == 0 then (if k == 1 then MD_FINISH else MD_IDLE)
    else if k == 1 then MD_ABS_A else if k == 2 then MD_ABS_B else if k <= 33 then MD_COMP
    else if k == 34 then MD_LAST else if k == 35 then MD_CHANGE_SIGN else if k == 36 then MD_FINISH else MD_IDLE
  }

  lemma Phases(s: Slow, i: Request, k: nat)
    requires s.cs.MD_IDLE? && k <= Latency(i) + 1
    ensures Run(s, i, k).cs == Phase(i, k)
  {
    if k == 0 {
    } else if IsMult(i) {
      Multiplying(s, i, if k <= 32 then k else 32);
    } else if i.b == 0 {
      ChecksZero(s, i);
      assert Run(s, i, 1) == Step(Run(s, i, 0), i);
    } else if k < 3 {
      DivisionStarts(s, i);
    } else if k <= 34 {
      Dividing(s, i, 34 - k);
    } else {
      DivisionAnswers(s, i);
    }
  }

  lemma Answers(s: Slow, i: Request)
    requires s.cs.MD_IDLE?
    ensures Output(Run(s, i, Latency(i)), i) == Result(i)
  {
    if IsMult(i) {
      MultiplicationAnswers(s, i);
    } else if i.b == 0 {
      ChecksZero(s, i);
      assert Run(s, i, 1) == Step(Run(s, i, 0), i);
    } else {
      DivisionAnswers(s, i);
    }
  }

  /** The unit answers every request with its architectural result, `Latency` clocks after it starts and no
      sooner, and is then ready for the next. */
  lemma Computes(s: Slow, i: Request)
    requires s.cs.MD_IDLE?
    ensures forall k :: 0 <= k < Latency(i) ==> !Ready(Run(s, i, k), i)
    ensures Ready(Run(s, i, Latency(i)), i) && Output(Run(s, i, Latency(i)), i) == Result(i)
    ensures Run(s, i, Latency(i) + 1).cs.MD_IDLE?
  {
    forall k | 0 <= k <= Latency(i) + 1 ensures Run(s, i, k).cs == Phase(i, k) {
      Phases(s, i, k);
    }
    Answers(s, i);
  }
}
