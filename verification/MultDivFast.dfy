/** The larger multiplier and divider (zeroriscy_multdiv_fast.sv): a 16x16 multiply-accumulate kernel that
    takes three or four clocks, and the same restoring division as the small unit.

    Main theorems: `Computes`, every request gets its architectural result; `NeverOverflows`, the 34-bit signed
    accumulator always holds the exact sum; `AgreesWithSlow`, the two units give the same answers. */
module MultDivFast {
  import opened AluAdder
  import opened Arith
  import opened MultDiv
  import MultDivSlow

  const H: nat := 0x1_0000

  datatype MultState = ALBL | ALBH | AHBL | AHBH

  datatype Fast = Fast(mult: MultState, mac: Bits34, cs: Md, counter: Counter,
                       denominator: Bits32, numerator: Bits32, quotient: Bits32)

  // ----- the multiply-accumulate kernel -----

  /** A 34-bit register read as a signed number. */
  function Signed34(x: Bits34): int {
    if x >= 2 * WORD then x - 4 * WORD else x
  }

  /** A half of an operand, as the 17-bit signed number the kernel multiplies. */
  function LowHalf(x: Bits32): int {
    x % H
  }

  function HighHalf(x: Bits32, signed: bool): int {
    x / H - if Negative(x, signed) then H else 0
  }

  /** The kernel: product plus accumulator, cut to 34 bits. */
  function Mac(x: int, y: int, accum: Bits34): Bits34 {
    (x * y + Signed34(accum)) % (4 * WORD)
  }

  /** What the kernel adds in each state. */
  function Accum(s: Fast, i: Request): Bits34 {
    match s.mult
    case ALBL => 0
    case ALBH => s.mac / H % H
    case AHBL => if i.op.MULL? then s.mac / H % H else s.mac
    case AHBH => s.mac / H + if (i.signedA || i.signedB) && s.mac >= 2 * WORD then (H - 1) * (4 * H) else 0
  }

  function FactorA(s: Fast, i: Request): int {
    if s.mult.ALBL? || s.mult.ALBH? then LowHalf(i.a) else HighHalf(i.a, i.signedA)
  }

  function FactorB(s: Fast, i: Request): int {
    if s.mult.ALBL? || s.mult.AHBL? then LowHalf(i.b) else HighHalf(i.b, i.signedB)
  }

  function MacResult(s: Fast, i: Request): Bits34 {
    Mac(FactorA(s, i), FactorB(s, i), Accum(s, i))
  }

  function MacNext(s: Fast, i: Request): Bits34 {
    if i.op.MULL? && (s.mult.ALBH? || s.mult.AHBL?) then MacResult(s, i) % H * H + s.mac % H else MacResult(s, i)
  }

  function MultNext(s: Fast, i: Request): MultState {
    match s.mult
    case ALBL => ALBH
    case ALBH => AHBL
    case AHBL => if i.op.MULL? then ALBL else AHBH
    case AHBH => ALBL
  }

  // ----- the division state machine -----

  function OperandA(s: Fast): Bits33 {
    if s.cs.MD_COMP? || s.cs.MD_LAST? then WithCarry(s.mac % WORD) else WithCarry(0)
  }

  function OperandB(s: Fast, i: Request): Bits33 {
    match s.cs
    case MD_COMP | MD_LAST => WithCarry(Not(s.denominator))
    case MD_ABS_A => WithCarry(Not(i.a))
    case MD_CHANGE_SIGN => WithCarry(Not(s.mac % WORD))
    case MD_IDLE | MD_ABS_B | MD_FINISH => WithCarry(Not(i.b))
  }

  function Adder(s: Fast, i: Request): Bits34 {
    Sum(OperandA(s), OperandB(s, i))
  }

  function NextRemainder(s: Fast, ext: Bits34): Bits33 {
    if GreaterEqual(s.mac, s.denominator, ext / 2) then ext / 2 else s.mac % (2 * WORD)
  }

  function NextQuotient(s: Fast, ext: Bits34): Bits32 {
    if GreaterEqual(s.mac, s.denominator, ext / 2) then SetBit(s.quotient, s.counter) % WORD else s.quotient
  }

  function DivStep(s: Fast, i: Request): Fast {
    var ext := Adder(s, i);
    var n: Counter := (s.counter + 31) % 32;
    match s.cs
    case MD_IDLE =>
      s.(mac := if i.op.DIV? then 4 * WORD - 1 else i.a, counter := 31, cs := if IsEqual(ext) then MD_FINISH else MD_ABS_A)
    case MD_ABS_A =>
      s.(quotient := 0, numerator := if Negative(i.a, i.signedA) then Word(ext) else i.a, counter := 31, cs := MD_ABS_B)
    case MD_ABS_B =>
      s.(mac := Bit(s.numerator, 31), denominator := if Negative(i.b, i.signedB) then Word(ext) else i.b,
         counter := 31, cs := MD_COMP)
    case MD_COMP =>
      s.(mac := 2 * (NextRemainder(s, ext) % WORD) + Bit(s.numerator, n), quotient := NextQuotient(s, ext),
         counter := n, cs := if s.counter == 1 then MD_LAST else MD_COMP)
    case MD_LAST =>
      s.(mac := if i.op.DIV? then NextQuotient(s, ext) else NextRemainder(s, ext) % WORD, counter := n, cs := MD_CHANGE_SIGN)
    case MD_CHANGE_SIGN => s.(mac := if ChangesSign(i) then Word(ext) else s.mac, counter := n, cs := MD_FINISH)
    case MD_FINISH => s.(counter := n, cs := MD_IDLE)
  }

  function Step(s: Fast, i: Request): Fast {
    if IsMult(i) then s.(mult := MultNext(s, i), mac := MacNext(s, i)) else DivStep(s, i)
  }

  predicate Ready(s: Fast, i: Request) {
    s.mult.AHBH? || (s.mult.AHBL? && i.op.MULL?) || s.cs.MD_FINISH?
  }

  function Output(s: Fast, i: Request): Bits32 {
    if IsMult(i) then MacNext(s, i) % WORD else s.mac % WORD
  }

  class FastRegisters {
    var multState: MultState
    var macRes: Bits34
    var divCounter: Counter
    var divcurrState: Md
    var opDenominator: Bits32
    var opNumerator: Bits32
    var opQuotient: Bits32

    function State(): Fast
      reads this
    {
      Fast(multState, macRes, divcurrState, divCounter, opDenominator, opNumerator, opQuotient)
    }

    constructor ()
      ensures State() == Fast(ALBL, 0, MD_IDLE, 0, 0, 0, 0)
    {
      multState, macRes, divCounter, divcurrState := ALBL, 0, 0, MD_IDLE;
      opDenominator, opNumerator, opQuotient := 0, 0, 0;
    }

    /** The combinational part of the multiplier: kernel result and next state. */
    method MultFsm(i: Request) returns (macNext: Bits34, next: MultState, ready: bool)
      ensures macNext == MacNext(State(), i) && next == MultNext(State(), i)
      ensures ready == (multState.AHBH? || (multState.AHBL? && i.op.MULL?))
    {
      next, ready := multState, false;
      match multState {
        case ALBL =>
          macNext := Mac(LowHalf(i.a), LowHalf(i.b), 0);
          next := ALBH;
        case ALBH =>
          var res := Mac(LowHalf(i.a), HighHalf(i.b, i.signedB), macRes / H % H);
          macNext := if i.op.MULL? then res % H * H + macRes % H else res;
          next := AHBL;
        case AHBL =>
          if i.op.MULL? {
            var res := Mac(HighHalf(i.a, i.signedA), LowHalf(i.b), macRes / H % H);
            macNext := res % H * H + macRes % H;
            ready, next := true, ALBL;
          } else {
            macNext := Mac(HighHalf(i.a, i.signedA), LowHalf(i.b), macRes);
            next := AHBH;
          }
        case AHBH =>
          var accum: Bits34 := macRes / H;
          if (i.signedA || i.signedB) && macRes >= 2 * WORD {
            accum := accum + (H - 1) * (4 * H);
          }
          macNext := Mac(HighHalf(i.a, i.signedA), HighHalf(i.b, i.signedB), accum);
          ready, next := true, ALBL;
      }
    }

    /** The division registers, moved by the division enable. */
    method DivFsm(i: Request)
      requires !IsMult(i)
      modifies this
      ensures State() == Step(old(State()), i)
    {
      var ext := Adder(State(), i);
      var remainder, quotient := NextRemainder(State(), ext), NextQuotient(State(), ext);
      var counter: Counter := (divCounter + 31) % 32;
      match divcurrState {
        case MD_IDLE =>
          macRes := if i.op.DIV? then 4 * WORD - 1 else i.a;
          divcurrState := if IsEqual(ext) then MD_FINISH else MD_ABS_A;
          counter := 31;
        case MD_ABS_A =>
          opQuotient := 0;
          opNumerator := if Negative(i.a, i.signedA) then Word(ext) else i.a;
          divcurrState, counter := MD_ABS_B, 31;
        case MD_ABS_B =>
          macRes := Bit(opNumerator, 31);
          opDenominator := if Negative(i.b, i.signedB) then Word(ext) else i.b;
          divcurrState, counter := MD_COMP, 31;
        case MD_COMP =>
          macRes, opQuotient := 2 * (remainder % WORD) + Bit(opNumerator, counter), quotient;
          divcurrState := if divCounter == 1 then MD_LAST else MD_COMP;
        case MD_LAST =>
          macRes := if i.op.DIV? then quotient else remainder % WORD;
          divcurrState := MD_CHANGE_SIGN;
        case MD_CHANGE_SIGN =>
          if ChangesSign(i) { macRes := Word(ext); }
          divcurrState := MD_FINISH;
        case MD_FINISH =>
          divcurrState := MD_IDLE;
      }
      divCounter := counter;
    }

    /** The clocked process; nothing moves without an enable. */
    method Clock(multEn: bool, divEn: bool, i: Request) returns (result: Bits32, ready: bool)
      requires multEn || divEn ==> (divEn <==> !IsMult(i))
      modifies this
      ensures State() == if multEn || divEn then Step(old(State()), i) else old(State())
      ensures ready == Ready(old(State()), i)
      ensures multEn || divEn ==> result == Output(old(State()), i)
    {
      var macNext, multNext, multReady := MultFsm(i);
      result, ready := if divEn then macRes % WORD else macNext % WORD, multReady || divcurrState.MD_FINISH?;
      if divEn {
        DivFsm(i);
      } else if multEn {
        multState, macRes := multNext, macNext;
      }
    }
  }

  // ----- multiplication -----

  function Run(s: Fast, i: Request, n: nat): Fast {
    if n == 0 then s else Step(Run(s, i, n - 1), i)
  }

  function Latency(i: Request): nat {
    match i.op
    case MULL => 2
    case MULH => 3
    case DIV | REM => if i.b == 0 then 1 else 36
  }

  predicate Resting(s: Fast) {
    s.mult.ALBL? && s.cs.MD_IDLE?
  }

  /** The halves make up the operand. */
  lemma Halves(x: Bits32, signed: bool)
    ensures Signed(x, signed) == HighHalf(x, signed) * H + LowHalf(x)
    ensures 0 <= LowHalf(x) < H && 0 - H < HighHalf(x, signed) < H
  {
  }

  /** The largest product of two halves. */
  const SQUARE: nat := 0xFFFE_0001

  lemma ProductBounds(x: int, y: int)
    requires 0 - H < x < H && 0 - H < y < H
    ensures 0 - SQUARE <= x * y <= SQUARE
    ensures 0 <= x && 0 <= y ==> 0 <= x * y
  {
    MulMonotone(Abs(x), Abs(y), H - 1);
    MulMonotone(H - 1, Abs(x), H - 1);
    SignedProducts(Abs(x), Abs(y));
  }

  /** The kernel is exact while its sum fits the signed 34-bit accumulator. */
  predicate Exact(x: int, y: int, accum: Bits34) {
    0 - 2 * WORD <= x * y + Signed34(accum) < 2 * WORD
  }

  lemma MacIsExact(x: int, y: int, accum: Bits34)
    requires Exact(x, y, accum)
    ensures Signed34(Mac(x, y, accum)) == x * y + Signed34(accum)
  {
  }

  /** The exact sums of the three or four kernel steps. */
  function Sum0(i: Request): int {
    LowHalf(i.a) * LowHalf(i.b)
  }

  function Sum1(i: Request): int {
    LowHalf(i.a) * HighHalf(i.b, i.signedB) + Sum0(i) / H
  }

  function Sum2(i: Request): int {
    HighHalf(i.a, i.signedA) * LowHalf(i.b) + Sum1(i)
  }

  function Sum3(i: Request): int {
    HighHalf(i.a, i.signedA) * HighHalf(i.b, i.signedB) + Sum2(i) / H
  }

  lemma SumBounds(i: Request)
    ensures 0 <= Sum0(i) <= SQUARE && 0 <= Sum0(i) / H < H
    ensures 0 - SQUARE <= Sum1(i) <= SQUARE + H
    ensures 0 - 2 * WORD < 0 - 2 * SQUARE <= Sum2(i) <= 2 * SQUARE + H < 2 * WORD
    ensures 0 - 2 * WORD < Sum3(i) < 2 * WORD
    ensures !i.signedA && !i.signedB ==> 0 <= Sum2(i)
  {
    Halves(i.a, i.signedA);
    Halves(i.b, i.signedB);
    ProductBounds(LowHalf(i.a), LowHalf(i.b));
    ProductBounds(LowHalf(i.a), HighHalf(i.b, i.signedB));
    ProductBounds(HighHalf(i.a, i.signedA), LowHalf(i.b));
    ProductBounds(HighHalf(i.a, i.signedA), HighHalf(i.b, i.signedB));
  }

  /** Long multiplication in base 2^16: the last sum is the high word, and the digits below make the low word. */
  lemma LongMultiplication(ah: int, al: int, bh: int, bl: int)
    ensures var p := al * bl;
            var t := ah * bl + (al * bh + p / H);
            && (ah * H + al) * (bh * H + bl) / WORD == ah * bh + t / H
            && (ah * H + al) * (bh * H + bl) % WORD == t % H * H + p % H
  {
    var p := al * bl;
    var t := ah * bl + (al * bh + p / H);
    SplitProduct(ah, al, bh, bl);
    DivModUnique((ah * H + al) * (bh * H + bl), WORD, ah * bh + t / H, t % H * H + p % H);
  }

  lemma SplitProduct(ah: int, al: int, bh: int, bl: int)
    ensures (ah * H + al) * (bh * H + bl) == WORD * (ah * bh) + H * (ah * bl + al * bh) + al * bl
  {
    MulDistribute(ah * H + al, bh * H, bl);
    MulDistribute(bh * H, ah * H, al);
    MulDistribute(bl, ah * H, al);
    assert (ah * H) * (bh * H) == WORD * (ah * bh);
  }

  lemma ResultIs(i: Request)
    requires IsMult(i)
    ensures Result(i) == if i.op.MULH? then Sum3(i) % WORD else Sum2(i) % H * H + Sum0(i) % H
  {
    Halves(i.a, i.signedA);
    Halves(i.b, i.signedB);
    LongMultiplication(HighHalf(i.a, i.signedA), LowHalf(i.a), HighHalf(i.b, i.signedB), LowHalf(i.b));
  }

  /** What the accumulator register holds on entry to each kernel state. */
  predicate Holds(s: Fast, i: Request) {
    match s.mult
    case ALBL => true
    case ALBH => s.mac == Sum0(i)
    case AHBL => if i.op.MULL? then s.mac == Sum1(i) % H * H + Sum0(i) % H else Signed34(s.mac) == Sum1(i)
    case AHBH => i.op.MULH? && Signed34(s.mac) == Sum2(i)
  }

  /** Arithmetic shift of the accumulator by one half. */
  lemma ShiftsAccumulator(x: Bits34, signed: bool)
    requires !signed ==> x < 2 * WORD
    ensures Signed34(x / H + if signed && x >= 2 * WORD then (H - 1) * (4 * H) else 0) == Signed34(x) / H
  {
  }

  lemma TwoDigits(hi: int, lo: int)
    ensures var w := hi % H * H + lo % H; 0 <= w < WORD && w % H == lo % H && w / H == hi % H && w / H % H == hi % H && w % WORD == w
  {
  }

  lemma AccumIs(s: Fast, i: Request)
    requires Holds(s, i) && IsMult(i)
    ensures Signed34(Accum(s, i)) == match s.mult
              case ALBL => 0
              case ALBH => Sum0(i) / H
              case AHBL => if i.op.MULL? then Sum1(i) % H else Sum1(i)
              case AHBH => Sum2(i) / H
  {
    match s.mult {
      case ALBL =>
      case ALBH =>
        SumBounds(i);
        DivModUnique(Sum0(i) / H, H, 0, Sum0(i) / H);
      case AHBL =>
        TwoDigits(Sum1(i), Sum0(i));
      case AHBH =>
        SumBounds(i);
        ShiftsAccumulator(s.mac, i.signedA || i.signedB);
    }
  }

  /** The signed accumulator is wide enough for every step of every multiplication. */
  lemma NeverOverflows(s: Fast, i: Request)
    requires Holds(s, i) && IsMult(i)
    ensures Exact(FactorA(s, i), FactorB(s, i), Accum(s, i))
    ensures Signed34(MacResult(s, i)) == FactorA(s, i) * FactorB(s, i) + Signed34(Accum(s, i))
  {
    AccumIs(s, i);
    SumBounds(i);
    Halves(i.a, i.signedA);
    Halves(i.b, i.signedB);
    ProductBounds(FactorA(s, i), FactorB(s, i));
    MacIsExact(FactorA(s, i), FactorB(s, i), Accum(s, i));
  }

  /** Every step of the kernel computes its exact sum, or the low digit of it. */
  lemma MacIsSum(s: Fast, i: Request)
    requires Holds(s, i) && IsMult(i)
    ensures var r := MacResult(s, i);
            match s.mult
            case ALBL => r == Sum0(i)
            case ALBH => Signed34(r) == Sum1(i) && r % H == Sum1(i) % H
            case AHBL => if i.op.MULL? then r % H == Sum2(i) % H else Signed34(r) == Sum2(i)
            case AHBH => Signed34(r) == Sum3(i) && r % WORD == Sum3(i) % WORD
  {
    NeverOverflows(s, i);
    AccumIs(s, i);
    SumBounds(i);
    LowDigits(MacResult(s, i));
    AddDigit(HighHalf(i.a, i.signedA) * LowHalf(i.b), Sum1(i));
  }

  lemma LowDigits(x: Bits34)
    ensures x % H == Signed34(x) % H && x % WORD == Signed34(x) % WORD
  {
  }

  lemma AddDigit(x: int, y: int)
    ensures (x + y % H) % H == (x + y) % H
  {
  }

  lemma MultiplicationStep(s: Fast, i: Request)
    requires Holds(s, i) && IsMult(i)
    ensures Holds(Step(s, i), i)
  {
    MacIsSum(s, i);
    TwoDigits(Sum1(i), Sum0(i));
  }

  lemma LowOutput(s: Fast, i: Request)
    requires Holds(s, i) && i.op.MULL? && s.mult.AHBL?
    ensures Output(s, i) == Result(i)
  {
    assert MacNext(s, i) == Sum2(i) % H * H + Sum0(i) % H by {
      MacIsSum(s, i);
      TwoDigits(Sum1(i), Sum0(i));
    }
    TwoDigits(Sum2(i), Sum0(i));
    ResultIs(i);
  }

  lemma HighOutput(s: Fast, i: Request)
    requires Holds(s, i) && i.op.MULH? && s.mult.AHBH?
    ensures Output(s, i) == Result(i)
  {
    MacIsSum(s, i);
    ResultIs(i);
  }

  lemma Multiplies(s: Fast, i: Request)
    requires Resting(s) && IsMult(i)
    ensures var s1, s2, s3 := Run(s, i, 1), Run(s, i, 2), Run(s, i, 3);
            && s1.mult.ALBH? && s2.mult.AHBL? && (i.op.MULH? ==> s3.mult.AHBH?)
            && s1.cs.MD_IDLE? && s2.cs.MD_IDLE? && s3.cs.MD_IDLE?
            && Holds(s1, i) && Holds(s2, i) && Holds(s3, i)
  {
    MultiplicationStep(s, i);
    assert Run(s, i, 1) == Step(Run(s, i, 0), i) == Step(s, i);
    MultiplicationStep(Run(s, i, 1), i);
    MultiplicationStep(Run(s, i, 2), i);
  }

  // ----- division, the same loop as the small unit -----

  predicate Loops(s: Fast, i: Request, k: nat, found: nat, window: nat) {
    && s.mult.ALBL? && k <= 31 && s.counter == k && s.cs == (if k == 0 then MD_LAST else MD_COMP)
    && s.numerator == Dividend(i) && s.denominator == Divisor(i) && s.quotient == found && s.mac == window
  }

  predicate Divides(s: Fast, i: Request, k: nat)
    requires i.b != 0
  {
    Loops(s, i, k, Found(Dividend(i), Divisor(i), k + 1), Window(Dividend(i), Divisor(i), k))
  }

  lemma Subtraction(s: Fast, i: Request, k: nat, found: nat, window: nat)
    requires Loops(s, i, k, found, window) && (s.cs.MD_COMP? || s.cs.MD_LAST?)
    requires Bit(found, k) == 0 && window < WORD && (window >= Divisor(i) ==> found + Pow2(k) < WORD)
    ensures NextQuotient(s, Adder(s, i)) == if window >= Divisor(i) then found + Pow2(k) else found
    ensures NextRemainder(s, Adder(s, i)) % WORD == if window >= Divisor(i) then window - Divisor(i) else window
  {
    SubtractsRemainder(window, s.denominator);
    DivModUnique(window, 2 * WORD, 0, window);
    if window >= s.denominator {
      DivModUnique(found + Pow2(k), WORD, 0, found + Pow2(k));
    }
  }

  lemma SubtractionIs(s: Fast, i: Request, k: nat)
    requires i.b != 0 && Divides(s, i, k)
    ensures NextQuotient(s, Adder(s, i)) == Found(Dividend(i), Divisor(i), k) < WORD
    ensures NextRemainder(s, Adder(s, i)) % WORD == Rest(Dividend(i), Divisor(i), k)
  {
    var num, d := Dividend(i), Divisor(i);
    DivisionStep(num, d, k);
    FoundBounded(num, d, k);
    Subtraction(s, i, k, Found(num, d, k + 1), Window(num, d, k));
  }

  lemma ChecksZero(s: Fast, i: Request)
    requires Resting(s) && !IsMult(i)
    ensures Step(s, i).cs == (if i.b == 0 then MD_FINISH else MD_ABS_A) && Step(s, i).mult.ALBL?
    ensures i.b == 0 ==> Output(Step(s, i), i) == Result(i)
  {
    Negates(i.b);
  }

  lemma TakesAbsolutes(s: Fast, i: Request)
    requires s.cs.MD_ABS_A? && s.mult.ALBL? && !IsMult(i)
    ensures Step(s, i).cs.MD_ABS_B? && Step(s, i).mult.ALBL?
    ensures Loops(Step(Step(s, i), i), i, 31, 0, Bit(Dividend(i), 31))
  {
    Negates(i.a);
    Negates(i.b);
  }

  lemma DivisionStarts(s: Fast, i: Request)
    requires Resting(s) && !IsMult(i) && i.b != 0
    ensures Run(s, i, 1).cs.MD_ABS_A? && Run(s, i, 2).cs.MD_ABS_B? && Divides(Run(s, i, 3), i, 31)
    ensures Run(s, i, 1).mult.ALBL? && Run(s, i, 2).mult.ALBL?
  {
    ChecksZero(s, i);
    assert Run(s, i, 1) == Step(Run(s, i, 0), i) == Step(s, i);
    TakesAbsolutes(Step(s, i), i);
    assert Run(s, i, 2) == Step(Run(s, i, 1), i) && Run(s, i, 3) == Step(Run(s, i, 2), i);
    NothingFound(Dividend(i), Divisor(i));
  }

  lemma DivisionContinues(s: Fast, i: Request, k: nat)
    requires i.b != 0 && Divides(s, i, k) && k > 0 && !IsMult(i)
    ensures Divides(Step(s, i), i, k - 1)
  {
    SubtractionIs(s, i, k);
  }

  lemma {:induction false} Dividing(s: Fast, i: Request, k: nat)
    requires Resting(s) && !IsMult(i) && i.b != 0 && k <= 31
    ensures Divides(Run(s, i, 34 - k), i, k)
    decreases 31 - k
  {
    if k == 31 {
      DivisionStarts(s, i);
    } else {
      Dividing(s, i, k + 1);
      DivisionContinues(Run(s, i, 33 - k), i, k + 1);
    }
  }

  lemma DivisionEnds(s: Fast, i: Request)
    requires !IsMult(i) && i.b != 0 && Divides(s, i, 0)
    ensures var t := Step(s, i);
            && t.cs.MD_CHANGE_SIGN? && t.mult.ALBL?
            && t.mac == if i.op.DIV? then Dividend(i) / Divisor(i) else Dividend(i) % Divisor(i)
  {
    SubtractionIs(s, i, 0);
    assert Seen(Dividend(i), 0) == Dividend(i);
  }

  lemma SignChanges(s: Fast, i: Request)
    requires !IsMult(i) && s.cs.MD_CHANGE_SIGN? && s.mac < WORD
    ensures Step(s, i).cs.MD_FINISH?
    ensures Output(Step(s, i), i) == (if ChangesSign(i) then 0 - s.mac else s.mac) % WORD
  {
    Negates(s.mac);
  }

  lemma DivisionAnswers(s: Fast, i: Request)
    requires Resting(s) && !IsMult(i) && i.b != 0
    ensures Run(s, i, 35).cs.MD_CHANGE_SIGN? && Run(s, i, 36).cs.MD_FINISH? && Resting(Run(s, i, 37))
    ensures Run(s, i, 35).mult.ALBL? && Run(s, i, 36).mult.ALBL?
    ensures Output(Run(s, i, 36), i) == Result(i)
  {
    Dividing(s, i, 0);
    DivisionEnds(Run(s, i, 34), i);
    ShrinksBy(Dividend(i), Divisor(i));
    SignedResult(i);
    SignChanges(Run(s, i, 35), i);
  }

  // ----- every request -----

  lemma DivisionNotReady(s: Fast, i: Request, k: nat)
    requires Resting(s) && !IsMult(i) && i.b != 0 && 1 <= k < 36
    ensures Run(s, i, k).mult.ALBL? && !Run(s, i, k).cs.MD_FINISH?
  {
    if k < 3 {
      DivisionStarts(s, i);
    } else if k <= 34 {
      Dividing(s, i, 34 - k);
    } else {
      DivisionAnswers(s, i);
    }
  }

  lemma NotReadyBefore(s: Fast, i: Request, k: nat)
    requires Resting(s) && k < Latency(i)
    ensures !Ready(Run(s, i, k), i)
  {
    if k == 0 {
    } else if IsMult(i) {
      Multiplies(s, i);
    } else {
      DivisionNotReady(s, i, k);
    }
  }

  lemma MultiplicationAnswers(s: Fast, i: Request)
    requires Resting(s) && IsMult(i)
    ensures Ready(Run(s, i, Latency(i)), i) && Output(Run(s, i, Latency(i)), i) == Result(i)
    ensures Resting(Run(s, i, Latency(i) + 1))
  {
    Multiplies(s, i);
    if i.op.MULL? {
      LowOutput(Run(s, i, 2), i);
    } else {
      HighOutput(Run(s, i, 3), i);
    }
  }

  lemma Answers(s: Fast, i: Request)
    requires Resting(s)
    ensures Ready(Run(s, i, Latency(i)), i) && Output(Run(s, i, Latency(i)), i) == Result(i)
    ensures Resting(Run(s, i, Latency(i) + 1))
  {
    if IsMult(i) {
      MultiplicationAnswers(s, i);
    } else if i.b == 0 {
      ChecksZero(s, i);
      assert Run(s, i, 1) == Step(Run(s, i, 0), i) && Run(s, i, 2) == Step(Run(s, i, 1), i);
    } else {
      DivisionAnswers(s, i);
    }
  }

  /** The unit answers every request with its architectural result, `Latency` clocks after it starts and no
      sooner, and is then at rest again. */
  lemma Computes(s: Fast, i: Request)
    requires Resting(s)
    ensures forall k :: 0 <= k < Latency(i) ==> !Ready(Run(s, i, k), i)
    ensures Ready(Run(s, i, Latency(i)), i) && Output(Run(s, i, Latency(i)), i) == Result(i)
    ensures Resting(Run(s, i, Latency(i) + 1))
  {
    forall k | 0 <= k < Latency(i) ensures !Ready(Run(s, i, k), i) {
      NotReadyBefore(s, i, k);
    }
    Answers(s, i);
  }

  /** Whichever unit is built in, the core sees the same answer to every request; the large unit is never
      slower. */
  lemma AgreesWithSlow(fast: Fast, slow: MultDivSlow.Slow, i: Request)
    requires Resting(fast) && slow.cs.MD_IDLE?
    ensures Output(Run(fast, i, Latency(i)), i)
         == MultDivSlow.Output(MultDivSlow.Run(slow, i, MultDivSlow.Latency(i)), i)
    ensures Latency(i) <= MultDivSlow.Latency(i)
  {
    Computes(fast, i);
    MultDivSlow.Computes(slow, i);
  }
}
