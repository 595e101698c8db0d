/** Number printing and reading (tinyprintf.h): digits into a buffer, back out of a string, and a field of a
    given width. Unsigned ints have 32 bits; strings end with a zero character. */
module TinyPrintf {
  import opened Arith

  const NUL: char := '\0'

  // ----- digits -----

  /** The character of a digit, in either case of letters. */
  function HexDigit(dgt: nat, uc: bool): char
    requires dgt < 16
  {
    (if uc then "0123456789ABCDEF" else "0123456789abcdef")[dgt]
  }

  /** The same as the code computes it. */
  function DigitChar(dgt: nat, uc: bool): char
    requires dgt < 16
  {
    if dgt < 10 then '0' + dgt as char else (if uc then 'A' else 'a') + (dgt - 10) as char
  }

  lemma DigitCharIs(dgt: nat, uc: bool)
    requires dgt < 16
    ensures DigitChar(dgt, uc) == HexDigit(dgt, uc)
  {
  }

  /** The canonical digits of a number: no leading zero, except for zero itself. */
  function Digits(n: nat, base: nat, uc: bool): (s: string)
    requires 2 <= base <= 16
    ensures |s| >= 1
  {
    if n < base then [HexDigit(n, uc)]
    else
      Quotients(n, base);
      Digits(n / base, base, uc) + [HexDigit(n % base, uc)]
  }

  lemma Quotients(n: nat, base: nat)
    requires 2 <= base
    ensures 0 <= n / base && (n >= base ==> 1 <= n / base < n) && n % base < base
  {
    DivModBounds(n, base, n / base);
  }

  lemma DivModBounds(n: nat, base: nat, q: int)
    requires 2 <= base && q == n / base
    ensures 0 <= q && (n >= base ==> 1 <= q < n)
  {
    if q < 0 {
      MulMonotone(base, q, -1);
    } else if n >= base {
      if q == 0 {
        MulMonotone(base, q, 0);
      } else {
        MulMonotone(q, 2, base);
      }
    }
  }

  lemma {:induction false} NoLeadingZero(n: nat, base: nat, uc: bool)
    requires 2 <= base <= 16
    ensures Digits(n, base, uc)[0] == '0' <==> n == 0
  {
    if n < base {
    } else {
      Quotients(n, base);
      NoLeadingZero(n / base, base, uc);
    }
  }

  /** Digits of a number below base^k: at most k of them. */
  lemma {:induction false} DigitCount(n: nat, base: nat, uc: bool, k: nat)
    requires 8 <= base <= 16 && k >= 1 && n < Pow2(3 * k)
    ensures |Digits(n, base, uc)| <= k
  {
    assert Pow2(3) == 8;
    if n < base {
    } else {
      assert k >= 2;
      Quotients(n, base);
      EighthBelow(n, base, k);
      DigitCount(n / base, base, uc, k - 1);
    }
  }

  lemma EighthBelow(n: nat, base: nat, k: nat)
    requires 8 <= base && k >= 2 && n < Pow2(3 * k)
    ensures n / base < Pow2(3 * (k - 1))
  {
    var p, q := Pow2(3 * (k - 1)), n / base;
    assert Pow2(3 * k) == 8 * p by {
      assert Pow2(3 * k) == 2 * Pow2(3 * k - 1) && Pow2(3 * k - 1) == 2 * Pow2(3 * k - 2) && Pow2(3 * k - 2) == 2 * Pow2(3 * k - 3);
    }
    if q >= p {
      MulMonotone(base, p, q);
      MulMonotone(p, 8, base);
    }
  }

  /** Octal, decimal or hexadecimal: eleven digits and the end of the string fit twelve characters. */
  lemma FitsBuffer(n: nat, base: nat, uc: bool)
    requires n < WORD && 8 <= base <= 16
    ensures |Digits(n, base, uc)| + 1 <= 12
  {
    PowersOfTwo();
    DigitCount(n, base, uc, 11);
  }

  // ----- ui2a -----

  function Power(base: nat, j: nat): (p: nat)
    requires base >= 1
    ensures p >= 1
  {
    if j == 0 then 1
    else
      MulMonotone(Power(base, j - 1), 1, base);
      base * Power(base, j - 1)
  }

  /** The digits written while only zeros have been seen. */
  function Written(x: nat, base: nat, uc: bool): string
    requires 2 <= base <= 16
  {
    if x == 0 then "" else Digits(x, base, uc)
  }

  /** Cutting off the top digit: what is left, and the digit. */
  lemma TopDigit(n: nat, d: nat, base: nat)
    requires d >= 1 && base >= 2
    ensures d * base > 0 && n / d / base == n / (d * base) && n / d % base == n % (d * base) / d < base
    ensures n % (d * base) % d == n % d
  {
    var x, y := n / d, n % d;
    var q, z := x / base, x % base;
    DivTwice(n, d, base);
    MulDistribute(d, base * q, z);
    MulAssociates(d, base, q);
    assert n == d * base * q + (d * z + y);
    MulMonotone(d, z, base - 1);
    MulMonotone(d, 0, z);
    MulDistribute(d, base - 1, 1);
    DivModUnique(n, d * base, q, d * z + y);
    DivModUnique(d * z + y, d, z, y);
  }

  lemma NextWritten(x: nat, base: nat, uc: bool)
    requires 2 <= base <= 16 && x > 0
    ensures Digits(x, base, uc) == Written(x / base, base, uc) + [HexDigit(x % base, uc)]
  {
    Quotients(x, base);
    if x < base {
      DivModUnique(x, base, 0, x);
    }
  }

  /** The largest power of the base that is not above the number; the product never overflows. */
  method TopPower(num: nat, base: nat) returns (d: nat, ghost j: nat)
    requires num < WORD && 2 <= base <= 16
    ensures d == Power(base, j) && num / d < base && d < WORD
  {
    d, j := 1, 0;
    while num / d >= base
      invariant d == Power(base, j) && d <= (if num == 0 then 1 else num)
      decreases num - d
    {
      ProductBelow(num, d, base);
      assert d * base < WORD;
      d, j := d * base, j + 1;
    }
  }

  lemma ProductBelow(num: nat, d: nat, base: nat)
    requires d >= 1 && base >= 2 && num / d >= base
    ensures d < d * base <= num && num > 0
  {
    MulMonotone(d, base, num / d);
    MulMonotone(d, 2, base);
  }

  /** The text after one turn of the second loop. */
  function NextText(text: string, dgt: nat, last: bool, uc: bool): string
    requires dgt < 16
  {
    if text != "" || dgt > 0 || last then text + [HexDigit(dgt, uc)] else text
  }

  /** One digit further. */
  lemma NextTextIs(x: nat, base: nat, uc: bool, last: bool)
    requires 2 <= base <= 16
    ensures x % base < base
    ensures NextText(Written(x / base, base, uc), x % base, last, uc)
         == if last then Digits(x, base, uc) else Written(x, base, uc)
  {
    Quotients(x, base);
    if x > 0 {
      NextWritten(x, base, uc);
    } else {
      DivModUnique(0, base, 0, 0);
    }
  }

  /** The number cut below the power d of the base: what is above, and the rest. */
  predicate Cut(num: nat, d: nat, base: nat, above: nat, rest: nat) {
    d >= 1 && base >= 2 && num == d * base * above + rest && rest < d * base
  }

  lemma CutNext(num: nat, d: nat, base: nat, above: nat, rest: nat)
    requires Cut(num, d, base, above, rest)
    ensures num / d / base == above && num / d % base == rest / d && num % d == rest % d
  {
    TopDigit(num, d, base);
    DivModUnique(num, d * base, above, rest);
  }

  lemma CutLower(num: nat, d: nat, lower: nat, base: nat)
    requires lower >= 1 && base >= 2 && lower * base == d
    ensures Cut(num, lower, base, num / d, num % d)
  {
    Quotients(num, d);
  }

  lemma PowerStep(base: nat, j: nat)
    requires base >= 1 && j >= 1
    ensures Power(base, j) == Power(base, j - 1) * base
  {
  }

  lemma WrittenStep(x: nat, base: nat, uc: bool)
    requires 2 <= base <= 16
    ensures x / base >= 0 && |Written(x / base, base, uc)| <= |Written(x, base, uc)|
  {
    Quotients(x, base);
    if x > 0 {
      NextWritten(x, base, uc);
    } else {
      DivModUnique(0, base, 0, 0);
    }
  }

  /** What has been written is never longer than all digits. */
  lemma {:induction false} WrittenShorter(num: nat, base: nat, uc: bool, j: nat)
    requires 2 <= base <= 16
    ensures num / Power(base, j) >= 0 && |Written(num / Power(base, j), base, uc)| <= |Digits(num, base, uc)|
  {
    if j == 0 {
      DivModUnique(num, 1, num, 0);
    } else {
      WrittenShorter(num, base, uc, j - 1);
      PowerStep(base, j);
      DivTwice(num, Power(base, j - 1), base);
      WrittenStep(num / Power(base, j - 1), base, uc);
    }
  }

  /** What one turn of the second loop does to the numbers and to the text. */
  lemma Turn(num: nat, base: nat, uc: bool, d: nat, j: nat, above: nat, rest: nat)
    requires 2 <= base <= 16 && d == Power(base, j) && Cut(num, d, base, above, rest)
    ensures 0 <= rest / d < base && 0 <= d / base < d && 0 <= num / d && (d / base == 0 <==> j == 0)
    ensures j > 0 ==> d / base == Power(base, j - 1) && Cut(num, d / base, base, num / d, rest % d)
    ensures var text := NextText(Written(above, base, uc), rest / d, j == 0, uc);
            |text| <= |Digits(num, base, uc)| && text == if j == 0 then Digits(num, base, uc) else Written(num / d, base, uc)
  {
    CutNext(num, d, base, above, rest);
    NextPower(base, j, d);
    WrittenShorter(num, base, uc, j);
    NextTextIs(num / d, base, uc, j == 0);
    if j == 0 {
      DivModUnique(num, 1, num, 0);
    } else {
      CutLower(num, d, d / base, base);
    }
  }

  /** The number in digits, into the buffer, with the end of the string behind it. */
  method Ui2a(num: nat, base: nat, uc: bool, bf: array<char>)
    requires num < WORD && 8 <= base <= 16 && bf.Length >= 12
    modifies bf
    ensures var s := Digits(num, base, uc);
            && |s| < 12 && bf[..|s|] == s && bf[|s|] == NUL
            && forall k :: |s| < k < bf.Length ==> bf[k] == old(bf[k])
  {
    FitsBuffer(num, base, uc);
    ghost var all := Digits(num, base, uc);
    var d, j := TopPower(num, base);
    var rest, n, at := num, 0, 0;
    ghost var above := 0;
    AboveTop(num, d, base);
    while d != 0
      invariant d == 0 || (d == Power(base, j) && Cut(num, d, base, above, rest))
      invariant 0 <= at == n <= |all| < 12
      invariant bf[..at] == if d == 0 then all else Written(above, base, uc)
      invariant forall k :: |all| < k < bf.Length ==> bf[k] == old(bf[k])
      decreases d
    {
      at, n, rest, d, above, j := PutDigit(num, base, uc, bf, d, rest, n, at, above, j);
    }
    bf[at] := NUL;
  }

  /** One turn of the second loop. */
  method PutDigit(num: nat, base: nat, uc: bool, bf: array<char>, d: nat, rest: nat, n: nat, at: nat,
                  ghost above: nat, ghost j: nat)
    returns (at': nat, n': nat, rest': nat, d': nat, ghost above': nat, ghost j': nat)
    requires num < WORD && 8 <= base <= 16 && bf.Length >= 12
    requires d == Power(base, j) && Cut(num, d, base, above, rest)
    requires at == n <= |Digits(num, base, uc)| < 12 && bf[..at] == Written(above, base, uc)
    modifies bf
    ensures d' == 0 || (d' == Power(base, j') && Cut(num, d', base, above', rest'))
    ensures d' < d && at' == n' <= |Digits(num, base, uc)|
    ensures bf[..at'] == if d' == 0 then Digits(num, base, uc) else Written(above', base, uc)
    ensures forall k :: |Digits(num, base, uc)| <= k < bf.Length ==> bf[k] == old(bf[k])
  {
    Turn(num, base, uc, d, j, above, rest);
    ghost var text := NextText(Written(above, base, uc), rest / d, j == 0, uc);
    var dgt := rest / d;
    rest', d', at', n' := rest % d, d / base, at, n;
    if n' != 0 || dgt > 0 || d' == 0 {
      DigitCharIs(dgt, uc);
      bf[at'] := DigitChar(dgt, uc);
      at', n' := at' + 1, n' + 1;
    }
    assert bf[..at'] == text;
    above', j' := num / d, if j == 0 then 0 else j - 1;
  }

  lemma AboveTop(num: nat, d: nat, base: nat)
    requires d >= 1 && base >= 2 && num / d < base
    ensures Cut(num, d, base, 0, num)
  {
    MulMonotone(d, num / d + 1, base);
    MulDistribute(d, num / d, 1);
  }

  lemma NextPower(base: nat, j: nat, d: nat)
    requires base >= 2 && d == Power(base, j)
    ensures j == 0 ==> d == 1 && d / base == 0
    ensures j > 0 ==> d / base == Power(base, j - 1) && d / base * base == d && 1 <= d / base < d
  {
    if j == 0 {
      DivModUnique(d, base, 0, 1);
    } else {
      DivModUnique(d, base, Power(base, j - 1), 0);
      MulMonotone(Power(base, j - 1), 2, base);
    }
  }

  // ----- a2d and a2u -----

  function A2d(ch: char): int {
    if '0' <= ch <= '9' then ch as int - '0' as int
    else if 'a' <= ch <= 'f' then ch as int - 'a' as int + 10
    else if 'A' <= ch <= 'F' then ch as int - 'A' as int + 10
    else -1
  }

  /** The digits a2u takes: the one equal to the base is taken too. */
  predicate Taken(ch: char, base: nat) {
    0 <= A2d(ch) <= base
  }

  /** The digits of the base, in either case. */
  predicate IsDigit(ch: char, base: nat) {
    exists d: nat :: d < base && d < 16 && ch in [HexDigit(d, true), HexDigit(d, false)]
  }

  function Span(s: string, base: nat): (k: nat)
    ensures k <= |s|
  {
    if s == "" || !Taken(s[0], base) then 0 else 1 + Span(s[1..], base)
  }

  function DigitSpan(s: string, base: nat): (k: nat)
    ensures k <= |s|
  {
    if s == "" || !IsDigit(s[0], base) then 0 else 1 + DigitSpan(s[1..], base)
  }

  /** The number that digits stand for. */
  function Value(s: string, base: nat): int {
    if s == "" then 0 else Value(s[..|s| - 1], base) * base + A2d(s[|s| - 1])
  }

  lemma {:induction false} SpanIs(s: string, base: nat, k: nat)
    requires k < |s| && (forall i :: 0 <= i < k ==> Taken(s[i], base)) && !Taken(s[k], base)
    ensures Span(s, base) == k
  {
    if k == 0 {
    } else {
      SpanIs(s[1..], base, k - 1);
    }
  }

  /** Reads a number from its first character and the text behind it; stops at the first character it does not
      take, at the latest at the end of the string. */
  method A2u(ch: char, text: string, pos: nat, base: nat) returns (next: char, src: nat, num: nat)
    requires pos < |text| && NUL in text[pos..]
    ensures var s := [ch] + text[pos..]; var k := Span(s, base);
            k < |s| && next == s[k] && src == pos + k && num == Value(s[..k], base) % WORD
  {
    ghost var s := [ch] + text[pos..];
    next, src, num := ch, pos, 0;
    ghost var end: nat :| end < |text[pos..]| && text[pos..][end] == NUL;
    ghost var last := end + 1;
    assert s[last] == NUL;
    while Taken(next, base)
      invariant pos <= src <= pos + last && next == s[src - pos]
      invariant forall i :: 0 <= i < src - pos ==> Taken(s[i], base)
      invariant num == Value(s[..src - pos], base) % WORD
      decreases pos + last - src
    {
      assert s[..src - pos + 1][..src - pos] == s[..src - pos];
      Wraps(Value(s[..src - pos], base), base, A2d(next));
      num := (num * base + A2d(next)) % WORD;
      next, src := text[src], src + 1;
    }
    SpanIs(s, base, src - pos);
  }

  lemma Wraps(v: int, base: nat, dgt: int)
    ensures (v % WORD * base + dgt) % WORD == (v * base + dgt) % WORD
  {
    var q, r := v / WORD, v % WORD;
    var t := r * base + dgt;
    assert v * base == WORD * (q * base) + r * base;
    DivModUnique(v * base + dgt, WORD, q * base + t / WORD, t % WORD);
  }

  /** What a2u takes is what it should take, unless the first other character is the digit equal to the base. */
  lemma {:induction false} TakesDigitsOnly(s: string, base: nat)
    requires NUL in s
    ensures DigitSpan(s, base) < |s|
    ensures Span(s, base) == DigitSpan(s, base) <==> A2d(s[DigitSpan(s, base)]) != base
  {
    IsDigitIs(s[0], base);
    if !IsDigit(s[0], base) {
    } else {
      TakesDigitsOnly(s[1..], base);
    }
  }

  /** The digit ten in a decimal number, for example, is read as 1 * 10 + 10. */
  lemma TakesTen()
    ensures Span(['1', 'a', NUL], 10) == 2 && Value("1a", 10) == 20
  {
    assert Span([NUL], 10) == 0;
    assert ['a', NUL][1..] == [NUL] && Span(['a', NUL], 10) == 1;
    assert ['1', 'a', NUL][1..] == ['a', NUL];
    assert "1"[..0] == "" && Value("1", 10) == 1;
    assert "1a"[..1] == "1";
  }

  /** a2d is the inverse of the hexadecimal digits, in either case, and takes nothing else. */
  lemma A2dInverts(ch: char, dgt: nat)
    requires dgt < 16
    ensures A2d(ch) == dgt <==> ch == HexDigit(dgt, true) || ch == HexDigit(dgt, false)
    ensures A2d(ch) < 0 || A2d(ch) < 16
  {
    DigitCharIs(dgt, true);
    DigitCharIs(dgt, false);
  }

  lemma IsDigitIs(ch: char, base: nat)
    ensures IsDigit(ch, base) <==> 0 <= A2d(ch) < base
  {
    if 0 <= A2d(ch) < base {
      A2dInverts(ch, 0);
      A2dInverts(ch, A2d(ch));
    }
    if IsDigit(ch, base) {
      var d: nat :| d < base && d < 16 && ch in [HexDigit(d, true), HexDigit(d, false)];
      A2dInverts(ch, d);
    }
  }

  lemma DigitValue(dgt: nat, uc: bool)
    requires dgt < 16
    ensures A2d(HexDigit(dgt, uc)) == dgt
  {
    DigitCharIs(dgt, uc);
  }

  lemma ValueAppend(s: string, c: char, base: nat)
    ensures Value(s + [c], base) == Value(s, base) * base + A2d(c)
  {
    assert (s + [c])[..|s|] == s;
  }

  lemma {:induction false} DigitsAreTaken(n: nat, base: nat, uc: bool)
    requires 2 <= base <= 16
    ensures forall i :: 0 <= i < |Digits(n, base, uc)| ==> IsDigit(Digits(n, base, uc)[i], base)
  {
    if n >= base {
      Quotients(n, base);
      DigitsAreTaken(n / base, base, uc);
      DigitValue(n % base, uc);
    } else {
      DigitValue(n, uc);
    }
  }

  lemma Recompose(n: nat, base: nat)
    requires base > 0
    ensures n / base * base + n % base == n
  {
  }

  lemma {:induction false} ValueOfDigits(n: nat, base: nat, uc: bool)
    requires 2 <= base <= 16
    ensures Value(Digits(n, base, uc), base) == n
  {
    if n >= base {
      Quotients(n, base);
      ValueOfDigits(n / base, base, uc);
      DigitValue(n % base, uc);
      ValueAppend(Digits(n / base, base, uc), HexDigit(n % base, uc), base);
      Recompose(n, base);
    } else {
      DigitValue(n, uc);
      ValueAppend("", HexDigit(n, uc), base);
      assert [] + [HexDigit(n, uc)] == Digits(n, base, uc);
    }
  }

  lemma {:induction false} SpanAppend(d: string, behind: string, base: nat)
    requires forall i :: 0 <= i < |d| ==> Taken(d[i], base)
    ensures Span(d + behind, base) == |d| + Span(behind, base)
  {
    if d == "" {
      assert d + behind == behind;
    } else {
      assert (d + behind)[1..] == d[1..] + behind;
      SpanAppend(d[1..], behind, base);
    }
  }

  lemma ReadsText(d: string, behind: string, base: nat, n: nat)
    requires behind != "" && (forall i :: 0 <= i < |d| ==> Taken(d[i], base)) && Value(d, base) == n < WORD
    ensures var k := Span(d + behind, base);
            && (k == |d| <==> !Taken(behind[0], base))
            && (k == |d| ==> Value((d + behind)[..k], base) % WORD == n)
  {
    SpanAppend(d, behind, base);
    assert (d + behind)[..|d|] == d;
    assert n % WORD == n;
  }

  /** a2u reads back what ui2a writes: it stops behind the digits exactly when it does not take the character it
      finds there, and then has the number. */
  lemma ReadsBack(n: nat, base: nat, uc: bool, behind: string)
    requires n < WORD && 2 <= base <= 16 && behind != ""
    ensures var d := Digits(n, base, uc); var k := Span(d + behind, base);
            && (k == |d| <==> !Taken(behind[0], base))
            && (k == |d| ==> Value((d + behind)[..k], base) % WORD == n)
  {
    DigitsAreTaken(n, base, uc);
    ValueOfDigits(n, base, uc);
    forall i | 0 <= i < |Digits(n, base, uc)| ensures Taken(Digits(n, base, uc)[i], base) {
      IsDigitIs(Digits(n, base, uc)[i], base);
    }
    ReadsText(Digits(n, base, uc), behind, base, n);
  }

  /** Printing a number into a buffer and reading it back from there. */
  method PrintAndRead(num: nat, base: nat, uc: bool, bf: array<char>) returns (back: nat, next: char)
    requires num < WORD && 8 <= base <= 16 && bf.Length >= 12
    modifies bf
    ensures back == num && next == NUL
  {
    Ui2a(num, base, uc, bf);
    ghost var d := Digits(num, base, uc);
    assert bf[..] == d + bf[|d|..] == [bf[0]] + bf[..][1..];
    assert bf[|d|] == NUL && bf[..][1..][|d| - 1] == NUL;
    ReadsBack(num, base, uc, bf[|d|..]);
    var src;
    next, src, back := A2u(bf[0], bf[..], 1, base);
  }

  // ----- putchw -----

  /** The parameters of a field; no sign is the zero character. */
  datatype Param = Param(width: int, lz: bool, alt: bool, alignLeft: bool, uc: bool, sign: char, base: nat)

  function Text(bf: string): string
    requires NUL in bf
  {
    if bf[0] == NUL then "" else [bf[0]] + Text(bf[1..])
  }

  function Repeat(c: char, n: int): string {
    if n <= 0 then "" else Repeat(c, n - 1) + [c]
  }

  function Sign(p: Param): string {
    if p.sign == NUL then "" else [p.sign]
  }

  function Prefix(p: Param): string {
    if p.alt && p.base == 16 then ['0', if p.uc then 'X' else 'x'] else if p.alt && p.base == 8 then "0" else ""
  }

  /** Fill characters: what the width leaves beside sign, prefix and text. */
  function Fill(p: Param, text: string): int {
    p.width - |text| - |Sign(p)| - |Prefix(p)|
  }

  function Filling(wanted: bool, c: char, n: int): string {
    if wanted then Repeat(c, n) else ""
  }

  /** The field: right-aligned, filled with zeros behind sign and prefix, or left-aligned. */
  function Field(p: Param, text: string): string {
    var n := Fill(p, text);
    Filling(!p.lz && !p.alignLeft, ' ', n) + Sign(p) + Prefix(p) + Filling(p.lz, '0', n) + text
    + Filling(!p.lz && p.alignLeft, ' ', n)
  }

  lemma TextIs(bf: string, k: nat)
    requires k < |bf| && bf[k] == NUL && forall i :: 0 <= i < k ==> bf[i] != NUL
    ensures NUL in bf && Text(bf) == bf[..k]
  {
    if k == 0 {
    } else {
      TextIs(bf[1..], k - 1);
    }
  }

  lemma FirstNul(bf: string) returns (k: nat)
    requires NUL in bf
    ensures k < |bf| && bf[k] == NUL && forall i :: 0 <= i < k ==> bf[i] != NUL
  {
    k := 0;
    while bf[k] != NUL
      invariant k < |bf| && NUL in bf[k..] && forall i :: 0 <= i < k ==> bf[i] != NUL
      decreases |bf| - k
    {
      k := k + 1;
    }
  }

  lemma {:induction false} RepeatLength(c: char, n: int)
    ensures |Repeat(c, n)| == if n <= 0 then 0 else n
  {
    if n <= 0 {
    } else {
      RepeatLength(c, n - 1);
    }
  }

  /** If filling is wanted, a loop that counts n down and puts a character each time. */
  method PutFill(out: string, wanted: bool, c: char, n: int) returns (r: string)
    ensures r == out + Filling(wanted, c, n)
  {
    r := out;
    if wanted {
      ghost var i := 0;
      var left := n;
      while left > 0
        invariant 0 <= i && (n <= 0 ==> i == 0) && (n > 0 ==> left == n - i && i <= n)
        invariant n <= 0 ==> left == n
        invariant r == out + Repeat(c, i)
        decreases left
      {
        r := r + [c];
        left, i := left - 1, i + 1;
      }
    }
  }

  /** Two counts that put the same number of characters. */
  predicate SameFill(n: int, m: int) {
    n == m || (n <= 0 && m <= 0)
  }

  lemma FillingsAre(wanted: bool, c: char, n: int, m: int)
    requires SameFill(n, m)
    ensures Filling(wanted, c, n) == Filling(wanted, c, m)
  {
  }

  /** The number of filling characters, as the function counts them. */
  method CountFill(p: Param, bf: string) returns (n: int)
    requires 0 <= p.width < 0x8000_0000 && NUL in bf
    ensures SameFill(n, Fill(p, Text(bf)))
  {
    ghost var len := FirstNul(bf);
    TextIs(bf, len);
    var at := 0;
    n := p.width;
    while bf[at] != NUL && n > 0
      invariant 0 <= at <= len && n == p.width - at >= 0
      decreases n
    {
      n, at := n - 1, at + 1;
    }
    if p.sign != NUL { n := n - 1; }
    if p.alt && p.base == 16 { n := n - 2; } else if p.alt && p.base == 8 { n := n - 1; }
    FillIs(p, Text(bf), n, at);
  }

  /** Sign and prefix. */
  method PutHead(p: Param, out: string) returns (r: string)
    ensures r == out + Sign(p) + Prefix(p)
  {
    r := out;
    if p.sign != NUL { r := r + [p.sign]; }
    if p.alt && p.base == 16 {
      r := r + ['0'];
      r := r + [if p.uc then 'X' else 'x'];
    } else if p.alt && p.base == 8 {
      r := r + ['0'];
    }
  }

  method PutText(bf: string, out: string) returns (r: string)
    requires NUL in bf
    ensures r == out + Text(bf)
  {
    ghost var len := FirstNul(bf);
    TextIs(bf, len);
    var at := 0;
    r := out;
    while bf[at] != NUL
      invariant 0 <= at <= len && r == out + bf[..at]
      decreases len - at
    {
      r := r + [bf[at]];
      at := at + 1;
    }
  }

  /** Writes a field; the characters it puts, in order. */
  method Putchw(p: Param, bf: string) returns (out: string)
    requires 0 <= p.width < 0x8000_0000 && NUL in bf
    ensures out == Field(p, Text(bf))
  {
    var n := CountFill(p, bf);
    ghost var fill := Fill(p, Text(bf));
    FillingsAre(!p.lz && !p.alignLeft, ' ', n, fill);
    FillingsAre(p.lz, '0', n, fill);
    FillingsAre(!p.lz && p.alignLeft, ' ', n, fill);
    out := PutFill("", !p.lz && !p.alignLeft, ' ', n);
    assert out == Filling(!p.lz && !p.alignLeft, ' ', fill);
    out := PutHead(p, out);
    out := PutFill(out, p.lz, '0', n);
    out := PutText(bf, out);
    out := PutFill(out, !p.lz && p.alignLeft, ' ', n);
  }

  /** The counter of the model gives the same filling: when the text is as wide as the field, none. */
  lemma FillIs(p: Param, text: string, n: int, at: nat)
    requires at <= |text| && at <= p.width && (at == |text| || at == p.width)
    requires n == p.width - at - |Sign(p)| - |Prefix(p)|
    ensures SameFill(n, Fill(p, text))
  {
  }

  /** A field is as wide as asked, or as wide as its text needs. */
  lemma FieldLength(p: Param, text: string)
    ensures var needs := |Sign(p)| + |Prefix(p)| + |text|;
            |Field(p, text)| == if p.width > needs then p.width else needs
  {
    RepeatLength(' ', Fill(p, text));
    RepeatLength('0', Fill(p, text));
  }

  predicate Fills(f: string, from: int, to: int, c: char) {
    0 <= from <= to <= |f| && forall k :: from <= k < to ==> f[k] == c
  }

  /** What stands before the digits: the sign, if there is one, and the mark of base 16 or 8. */
  function Head(p: Param): string {
    (if p.sign == '\0' then "" else [p.sign])
    + (if !p.alt then "" else if p.base == 16 then (if p.uc then "0X" else "0x") else if p.base == 8 then "0" else "")
  }

  /** Three pieces of text in a row. */
  lemma Pieces(f: string, a: string, b: string, c: string)
    requires f == a + b + c
    ensures |f| == |a| + |b| + |c|
    ensures f[..|a|] == a && f[|a|..|a| + |b|] == b && f[|a| + |b|..] == c
  {
  }

  lemma Filled(f: string, from: int, to: int, c: char, n: int)
    requires 0 <= from <= to <= |f| && f[from..to] == Repeat(c, n)
    ensures Fills(f, from, to, c)
  {
    RepeatIs(c, n);
    forall k | from <= k < to ensures f[k] == c {
      assert f[k] == f[from..to][k - from];
    }
  }

  /** Sign and prefix, then zeros, then the digits. */
  predicate ZerosInside(f: string, head: string, text: string) {
    && |head| + |text| <= |f| && f[..|head|] == head && f[|f| - |text|..] == text
    && Fills(f, |head|, |f| - |text|, '0')
  }

  /** Sign and prefix, then the digits, then blanks. */
  predicate BlanksBehind(f: string, head: string, text: string) {
    && |head| + |text| <= |f| && f[..|head|] == head && f[|head|..|head| + |text|] == text
    && Fills(f, |head| + |text|, |f|, ' ')
  }

  /** Blanks, then sign and prefix, then the digits. */
  predicate BlanksBefore(f: string, head: string, text: string) {
    var n := |f| - |head| - |text|;
    n >= 0 && Fills(f, 0, n, ' ') && f[n..n + |head|] == head && f[n + |head|..] == text
  }

  lemma ZeroField(f: string, head: string, text: string, n: int)
    requires f == head + Repeat('0', n) + text
    ensures ZerosInside(f, head, text)
  {
    Pieces(f, head, Repeat('0', n), text);
    Filled(f, |head|, |head| + |Repeat('0', n)|, '0', n);
  }

  lemma LeftField(f: string, head: string, text: string, n: int)
    requires f == head + text + Repeat(' ', n)
    ensures BlanksBehind(f, head, text)
  {
    Pieces(f, head, text, Repeat(' ', n));
    Filled(f, |head| + |text|, |f|, ' ', n);
  }

  lemma RightField(f: string, head: string, text: string, n: int)
    requires f == Repeat(' ', n) + head + text
    ensures BlanksBefore(f, head, text)
  {
    Pieces(f, Repeat(' ', n), head, text);
    Filled(f, 0, |Repeat(' ', n)|, ' ', n);
  }

  /** How a field reads. */
  lemma FieldReads(p: Param, text: string)
    ensures p.lz ==> ZerosInside(Field(p, text), Head(p), text)
    ensures !p.lz && p.alignLeft ==> BlanksBehind(Field(p, text), Head(p), text)
    ensures !p.lz && !p.alignLeft ==> BlanksBefore(Field(p, text), Head(p), text)
  {
    var f, head, n := Field(p, text), Head(p), Fill(p, text);
    assert Sign(p) + Prefix(p) == head;
    if p.lz {
      assert f == head + Repeat('0', n) + text;
      ZeroField(f, head, text, n);
    } else if p.alignLeft {
      assert f == head + text + Repeat(' ', n);
      LeftField(f, head, text, n);
    } else {
      assert f == Repeat(' ', n) + head + text;
      RightField(f, head, text, n);
    }
  }

  lemma {:induction false} RepeatIs(c: char, n: int)
    ensures forall k :: 0 <= k < |Repeat(c, n)| ==> Repeat(c, n)[k] == c
  {
    if n <= 0 {
    } else {
      RepeatIs(c, n - 1);
    }
  }
}
