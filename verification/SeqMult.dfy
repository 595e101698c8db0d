/** The sequential multiplier of the micro-code processor (hwpe_ctrl_seq_mult.sv), for operands of aw and bw
    bits: one partial product a clock, and one more clock to negate the product when it is to be inverted.

    Main theorem (`EveryRunMultiplies`): after a start, in any run without another start or clear, the
    partial sum is exact at every clock, and the product is valid on time and stays. */
module SeqMult {
  import opened Arith

  datatype Mult = Mult(cnt: nat, valid: bool, ready: bool, prod: nat)

  datatype In = In(clear: bool, start: bool, a: nat, b: nat, invert: bool)

  /** The modulus of the product register. */
  function Width(aw: nat, bw: nat): (w: nat)
    ensures w > 0
  {
    Pow2(aw + bw)
  }

  /** The partial product of the current bit, or the one that completes a negation. */
  function Shifted(aw: nat, bw: nat, s: Mult, i: In): nat {
    if s.cnt == aw then 1 else if Bit(i.a, s.cnt) == 1 then Times(i.b, Pow2(s.cnt)) % Width(aw, bw) else 0
  }

  predicate LastCount(aw: nat, s: Mult, i: In) {
    (!i.invert && s.cnt == aw - 1) || (i.invert && s.cnt == aw)
  }

  function Counter(aw: nat, s: Mult, i: In): Mult {
    if i.clear then s.(cnt := 0, valid := false, ready := true)
    else if LastCount(aw, s, i) then s.(cnt := 0, valid := true, ready := true)
    else if i.start || s.cnt > 0 then s.(cnt := s.cnt + 1, valid := false, ready := false)
    else s
  }

  function Product(aw: nat, bw: nat, s: Mult, i: In): nat {
    if i.clear then 0
    else if i.start then Shifted(aw, bw, s, i)
    else if s.cnt == aw then (Width(aw, bw) - 1 - s.prod % Width(aw, bw) + Shifted(aw, bw, s, i)) % Width(aw, bw)
    else if s.cnt > 0 then (s.prod + Shifted(aw, bw, s, i)) % Width(aw, bw)
    else s.prod
  }

  function Step(aw: nat, bw: nat, s: Mult, i: In): Mult {
    Counter(aw, s, i).(prod := Product(aw, bw, s, i))
  }

  /** The registers of one instance, and its two clocked processes. */
  class Multiplier {
    const aw: nat
    const bw: nat
    var cnt: nat
    var validQ: bool
    var readyQ: bool
    var prod: nat

    function State(): Mult
      reads this
    {
      Mult(cnt, validQ, readyQ, prod)
    }

    constructor (aw: nat, bw: nat)
      ensures this.aw == aw && this.bw == bw && State() == Mult(0, false, true, 0)
    {
      this.aw, this.bw := aw, bw;
      cnt, validQ, readyQ, prod := 0, false, true, 0;
    }

    method Clock(i: In)
      modifies this
      ensures State() == Step(aw, bw, old(State()), i)
    {
      var shifted, width, count := Shifted(aw, bw, State(), i), Width(aw, bw), cnt;
      if i.clear {
        cnt, validQ, readyQ := 0, false, true;
      } else if (!i.invert && cnt == aw - 1) || (i.invert && cnt == aw) {
        cnt, validQ, readyQ := 0, true, true;
      } else if i.start || cnt > 0 {
        cnt, validQ, readyQ := cnt + 1, false, false;
      }
      if i.clear {
        prod := 0;
      } else if i.start {
        prod := shifted;
      } else if count == aw {
        prod := (width - 1 - prod % width + shifted) % width;
      } else if count > 0 {
        prod := (prod + shifted) % width;
      }
    }
  }

  // ----- runs -----

  function Run(aw: nat, bw: nat, s: Mult, inputs: seq<In>): Mult {
    if inputs == [] then s
    else Step(aw, bw, Run(aw, bw, s, inputs[..|inputs| - 1]), inputs[|inputs| - 1])
  }

  /** The clocks from the start to the valid product. */
  function Busy(aw: nat, invert: bool): nat {
    if invert then aw + 1 else aw
  }

  predicate Same(i: In, a: nat, b: nat, invert: bool) {
    i.a == a && i.b == b && i.invert == invert
  }

  /** One start, no clear, and operands that stay while the unit is busy. */
  predicate Started(aw: nat, inputs: seq<In>, a: nat, b: nat, invert: bool) {
    && (forall k :: 0 <= k < |inputs| ==> !inputs[k].clear && (inputs[k].start <==> k == 0))
    && (forall k :: 0 <= k < |inputs| && k < Busy(aw, invert) ==> Same(inputs[k], a, b, invert))
  }

  /** The product, or its negation modulo the width of the register. */
  function Answer(aw: nat, bw: nat, a: nat, b: nat, invert: bool): nat {
    if invert then (Pow2(aw + bw) - Times(a, b)) % Pow2(aw + bw) else Times(a, b)
  }

  /** What the registers hold n clocks after the start. */
  predicate Tracks(aw: nat, bw: nat, s: Mult, a: nat, b: nat, invert: bool, n: nat) {
    if n < Busy(aw, invert) then
      s == Mult(n, false, false, Times(a % Pow2(n), b))
    else
      s == Mult(0, true, true, Answer(aw, bw, a, b, invert))
  }

  lemma PowersAdd(m: nat, n: nat)
    ensures Pow2(m + n) == Pow2(m) * Pow2(n)
  {
    if m == 0 {
    } else {
      PowersAdd(m - 1, n);
      MulAssociates(2, Pow2(m - 1), Pow2(n));
    }
  }

  lemma ProductBelow(x: nat, y: nat, p: nat, q: nat)
    requires x < p && y < q
    ensures Times(x, y) < Times(p, q)
  {
    MulMonotone(x, y, q);
    MulMonotone(q, x + 1, p);
    MulDistribute(q, x, 1);
  }

  lemma SmallMod(x: nat, m: nat)
    requires x < m
    ensures x % m == x
  {
  }

  /** The partial products and their sums fit the register. */
  lemma FitsRegister(aw: nat, bw: nat, x: nat, b: nat)
    requires x < Pow2(aw) && b < Pow2(bw)
    ensures Times(x, b) < Width(aw, bw) && Times(x, b) % Width(aw, bw) == Times(x, b)
  {
    PowersAdd(aw, bw);
    ProductBelow(x, b, Pow2(aw), Pow2(bw));
    SmallMod(Times(x, b), Width(aw, bw));
  }

  lemma PowersGrow(m: nat, n: nat)
    requires m < n
    ensures Pow2(m) < Pow2(n)
  {
    if m == n - 1 {
    } else {
      PowersGrow(m, n - 1);
    }
  }

  /** One more bit of a adds b times its weight, or nothing. */
  lemma PartialSum(a: nat, b: nat, n: nat)
    ensures Times(a % Pow2(n + 1), b) == Times(a % Pow2(n), b) + if Bit(a, n) == 1 then Times(b, Pow2(n)) else 0
  {
    NextBit(a, n);
    MulDistribute(b, a % Pow2(n), Pow2(n) * Bit(a, n));
  }

  lemma WholeOperand(aw: nat, a: nat)
    requires a < Pow2(aw)
    ensures a % Pow2(aw) == a
  {
    SmallMod(a, Pow2(aw));
  }

  lemma StartTracks(aw: nat, bw: nat, s: Mult, i: In)
    requires aw >= 2 && s.cnt == 0 && i.start && !i.clear && i.a < Pow2(aw) && i.b < Pow2(bw)
    ensures Tracks(aw, bw, Step(aw, bw, s, i), i.a, i.b, i.invert, 1)
  {
    PartialSum(i.a, i.b, 0);
    PowersGrow(0, aw);
    FitsRegister(aw, bw, 1, i.b);
    assert Pow2(0) == 1 && i.a % Pow2(0) == 0 && Times(0, i.b) == 0;
  }

  lemma LowBits(a: nat, aw: nat, n: nat)
    requires a < Pow2(aw)
    ensures a % Pow2(n) < Pow2(aw)
  {
    if a < Pow2(n) {
      SmallMod(a, Pow2(n));
    }
  }

  lemma AddsPartialProduct(aw: nat, bw: nat, s: Mult, i: In, n: nat)
    requires i.a < Pow2(aw) && i.b < Pow2(bw) && 1 <= n < aw && s == Mult(n, false, false, Times(i.a % Pow2(n), i.b))
    requires !i.start && !i.clear
    ensures Product(aw, bw, s, i) == Times(i.a % Pow2(n + 1), i.b)
  {
    PartialSum(i.a, i.b, n);
    PowersGrow(n, aw);
    FitsRegister(aw, bw, Pow2(n), i.b);
    LowBits(i.a, aw, n + 1);
    FitsRegister(aw, bw, i.a % Pow2(n + 1), i.b);
  }

  lemma Negates(aw: nat, bw: nat, s: Mult, i: In)
    requires i.a < Pow2(aw) && i.b < Pow2(bw) && s.cnt == aw > 0 && s.prod == Times(i.a, i.b)
    requires !i.start && !i.clear && i.invert
    ensures Product(aw, bw, s, i) == Answer(aw, bw, i.a, i.b, true)
  {
    FitsRegister(aw, bw, i.a, i.b);
  }

  lemma BusyTracks(aw: nat, bw: nat, s: Mult, i: In, n: nat)
    requires Tracks(aw, bw, s, i.a, i.b, i.invert, n) && 1 <= n < Busy(aw, i.invert)
    requires aw >= 2 && !i.start && !i.clear && i.a < Pow2(aw) && i.b < Pow2(bw)
    ensures Tracks(aw, bw, Step(aw, bw, s, i), i.a, i.b, i.invert, n + 1)
  {
    WholeOperand(aw, i.a);
    if n < aw {
      AddsPartialProduct(aw, bw, s, i, n);
    } else {
      Negates(aw, bw, s, i);
    }
  }

  /** After a start, whatever the operands become once the unit is no longer busy: at clock n the register
      holds the product of the n low bits of a, without overflow, and from clock `Busy` on the valid answer. */
  lemma {:induction false} EveryRunMultiplies(aw: nat, bw: nat, s: Mult, inputs: seq<In>, a: nat, b: nat, invert: bool)
    requires aw >= 2 && a < Pow2(aw) && b < Pow2(bw) && s.cnt == 0
    requires inputs != [] && Started(aw, inputs, a, b, invert)
    ensures Tracks(aw, bw, Run(aw, bw, s, inputs), a, b, invert, |inputs|)
    ensures Times(a % Pow2(|inputs|), b) < Width(aw, bw)
  {
    var n := |inputs| - 1;
    var before, i := inputs[..n], inputs[n];
    LowBits(a, aw, n + 1);
    FitsRegister(aw, bw, a % Pow2(n + 1), b);
    if n == 0 {
      assert Run(aw, bw, s, before) == s;
      StartTracks(aw, bw, s, i);
    } else {
      EveryRunMultiplies(aw, bw, s, before, a, b, invert);
      if n < Busy(aw, invert) {
        BusyTracks(aw, bw, Run(aw, bw, s, before), i, n);
      }
    }
  }

  /** A clear, whatever the unit was doing, leaves the registers as after reset, and the next start multiplies. */
  lemma ClearRestarts(aw: nat, bw: nat, s: Mult, i: In, inputs: seq<In>, a: nat, b: nat, invert: bool)
    requires aw >= 2 && a < Pow2(aw) && b < Pow2(bw) && i.clear
    requires inputs != [] && Started(aw, inputs, a, b, invert)
    ensures Step(aw, bw, s, i) == Mult(0, false, true, 0)
    ensures Tracks(aw, bw, Run(aw, bw, Step(aw, bw, s, i), inputs), a, b, invert, |inputs|)
  {
    EveryRunMultiplies(aw, bw, Step(aw, bw, s, i), inputs, a, b, invert);
  }

  /** An inverted product is the two's complement of the plain one. */
  lemma InvertedIsNegated(aw: nat, bw: nat, a: nat, b: nat)
    requires a < Pow2(aw) && b < Pow2(bw)
    ensures (Answer(aw, bw, a, b, true) + Answer(aw, bw, a, b, false)) % Pow2(aw + bw) == 0
  {
    var w, p := Width(aw, bw), Times(a, b);
    FitsRegister(aw, bw, a, b);
    if p == 0 {
      DivModUnique(w, w, 1, 0);
    } else {
      SmallMod(w - p, w);
      DivModUnique(w, w, 1, 0);
    }
  }
}
