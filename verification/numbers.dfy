/** Numerals: `fill_numbuf` of lib.c, which writes a number backwards into a small buffer, and what
    its digits mean. */
module Numbers {
  import opened KernelTypes

  const UPPER_DIGITS: string := "0123456789ABCDEF"
  const LOWER_DIGITS: string := "0123456789abcdef"
  const NUMBUFSIZ: nat := 20

  /** A digit alphabet for `base`. */
  ghost predicate Alphabet(digits: string, base: nat) {
    (digits == UPPER_DIGITS || digits == LOWER_DIGITS) && (base == 10 || base == 16)
  }

  /** The numeral of `val`, most significant digit first. */
  function Numeral(val: nat, base: nat, digits: string): (s: string)
    requires 2 <= base <= |digits|
    ensures s != []
    decreases val
  {
    if val < base then [digits[val]]
    else
      DivSmaller(val, base);
      Numeral(val / base, base, digits) + [digits[val % base]]
  }

  lemma DivSmaller(val: nat, base: nat)
    requires 2 <= base <= val
    ensures val / base < val
  {
    var q := val / base;
    assert val == base * q + val % base;
    if q >= val {
      MulMono(q, 2, base);
    }
  }

  function DigitValue(c: char): nat {
    if '0' <= c <= '9' then (c - '0') as nat
    else if 'A' <= c <= 'F' then (c - 'A') as nat + 10
    else if 'a' <= c <= 'f' then (c - 'a') as nat + 10
    else 0
  }

  /** The number a string of digits denotes. */
  function Parse(s: string, base: nat): nat {
    if s == [] then 0 else Parse(s[..|s| - 1], base) * base + DigitValue(s[|s| - 1])
  }

  /** Not a terminator, a blank, a sign or the mark of a base. */
  predicate IsNumeralChar(c: char) {
    c != '\0' && c != ' ' && c != '-' && c != '+' && c != 'x' && c != 'X'
  }

  lemma DigitOf(digits: string, base: nat, d: nat)
    requires Alphabet(digits, base) && d < base
    ensures DigitValue(digits[d]) == d && (digits[d] == '0' <==> d == 0) && IsNumeralChar(digits[d])
  {
  }

  /** Printing and reading back: the numeral denotes the number. */
  lemma {:induction false} ParseNumeral(val: nat, base: nat, digits: string)
    requires Alphabet(digits, base)
    ensures Parse(Numeral(val, base, digits), base) == val
    decreases val
  {
    var s := Numeral(val, base, digits);
    DigitOf(digits, base, val % base);
    if val < base {
      DigitOf(digits, base, val);
      assert s[..0] == [];
    } else {
      DivSmaller(val, base);
      ParseNumeral(val / base, base, digits);
      assert s[..|s| - 1] == Numeral(val / base, base, digits);
    }
  }

  /** Only zero's numeral starts with a zero, and it is that one digit; no character of a numeral is
      a terminator, a blank, a sign or the mark of a base. */
  lemma {:induction false} NoLeadingZero(val: nat, base: nat, digits: string)
    requires Alphabet(digits, base)
    ensures var s := Numeral(val, base, digits);
            && (s[0] == '0' <==> val == 0) && (val == 0 ==> s == "0")
            && forall i | 0 <= i < |s| :: IsNumeralChar(s[i])
    decreases val
  {
    DigitOf(digits, base, val % base);
    if val < base {
      DigitOf(digits, base, val);
    } else {
      DivSmaller(val, base);
      NoLeadingZero(val / base, base, digits);
      assert val / base != 0;
    }
  }

  function Power(base: nat, n: nat): nat {
    if n == 0 then 1 else base * Power(base, n - 1)
  }

  /** A number below `base^n` has a numeral of at most `n` digits. */
  lemma {:induction false} NumeralLength(val: nat, base: nat, digits: string, n: nat)
    requires 2 <= base <= |digits| && n >= 1 && val < Power(base, n)
    ensures |Numeral(val, base, digits)| <= n
    decreases n
  {
    if val >= base {
      DivBelow(val, base, Power(base, n - 1));
      if n > 1 {
        NumeralLength(val / base, base, digits, n - 1);
      }
    }
  }

  lemma DivBelow(val: nat, base: nat, p: nat)
    requires base > 0 && val < base * p
    ensures val / base < p
  {
    var q := val / base;
    assert val == base * q + val % base;
    if q >= p {
      MulMono(base, p, q);
    }
  }

  lemma MulMono(a: nat, x: nat, y: nat)
    requires x <= y
    ensures a * x <= a * y
  {
  }

  /** Ten digits are enough for 32 bits, in base ten or sixteen, and so are 20 bytes. */
  lemma TenDigits(val: uint32, base: nat, digits: string)
    requires Alphabet(digits, base)
    ensures |Numeral(val, base, digits)| <= 10 < NUMBUFSIZ == 20
  {
    TenthPowers();
    NumeralLength(val, base, digits, 10);
  }

  lemma TenthPowers()
    ensures Power(10, 10) == 10_000_000_000 && Power(16, 10) == 0x100_0000_0000
  {
    assert Power(10, 5) == 100_000 && Power(16, 5) == 0x10_0000;
    assert Power(10, 8) == 100_000_000 && Power(16, 8) == 0x1_0000_0000;
  }

  /** The digits `fill_numbuf` leaves: none for zero with precision zero. */
  function Digits(val: uint32, base: nat, digits: string, precision: int): string
    requires 2 <= base <= |digits|
  {
    if precision != 0 || val != 0 then Numeral(val, base, digits) else []
  }

  /** `written` are the last digits of the result; `val` is what is left to write, if any. */
  ghost predicate Progress(v: uint32, base: nat, digits: string, precision: int,
                           more: bool, val: nat, written: string)
  {
    Alphabet(digits, base)
    && Digits(v, base, digits, precision) == (if more then Numeral(val, base, digits) else []) + written
  }

  lemma ProgressShort(v: uint32, base: nat, digits: string, precision: int, val: nat, written: string)
    requires Progress(v, base, digits, precision, true, val, written)
    ensures |written| <= 9
  {
    TenDigits(v, base, digits);
    assert |Numeral(val, base, digits)| >= 1;
    hide Numeral;
  }

  lemma ProgressStep(v: uint32, base: nat, digits: string, precision: int, val: nat, written: string)
    requires Progress(v, base, digits, precision, true, val, written)
    ensures |written| <= 9
    ensures var q := High(val, base);
            && Progress(v, base, digits, precision, q != 0, q, [digits[Low(val, base)]] + written)
            && (q != 0 ==> q < val)
  {
    hide Numeral;
    hide High;
    hide Low;
    ProgressShort(v, base, digits, precision, val, written);
    LastDigit(val, base, digits);
    var q := High(val, base);
    var front := if q != 0 then Numeral(q, base, digits) else [];
    var d := [digits[Low(val, base)]];
    assert (front + d) + written == front + (d + written);
  }

  /** `fill_numbuf`: writes the terminator and then the digits, last one first, below `end`. */
  method FillNumbuf(buf: array<char>, end: nat, v: uint32, base: nat, digits: string, precision: int)
    returns (start: nat)
    requires 11 <= end <= buf.Length && Alphabet(digits, base)
    modifies buf
    ensures start < end && buf[start..end - 1] == Digits(v, base, digits, precision) && buf[end - 1] == '\0'
    ensures forall i | 0 <= i < buf.Length && !(start <= i < end) :: buf[i] == old(buf[i])
  {
    hide Low;
    hide High;
    hide Progress;
    hide Numeral;
    hide Digits;
    var val: nat := v;
    start := end - 1;
    buf[start] := '\0';
    ghost var written: string := [];
    var more := precision != 0 || val != 0;
    ProgressStarts(v, base, digits, precision);
    while more
      invariant start < end && buf[end - 1] == '\0' && buf[start..end - 1] == written
      invariant |written| == end - 1 - start
      invariant Progress(v, base, digits, precision, more, val, written)
      invariant forall i | 0 <= i < buf.Length && !(start <= i < end) :: buf[i] == old(buf[i])
      decreases more, val
    {
      ProgressStep(v, base, digits, precision, val, written);
      var digit := digits[Low(val, base)];
      start := start - 1;
      buf[start] := digit;
      written := [digit] + written;
      val := High(val, base);
      more := val != 0;
    }
    ProgressEnds(v, base, digits, precision, val, written);
  }

  lemma ProgressStarts(v: uint32, base: nat, digits: string, precision: int)
    requires Alphabet(digits, base)
    ensures Progress(v, base, digits, precision, precision != 0 || v != 0, v, [])
  {
  }

  lemma ProgressEnds(v: uint32, base: nat, digits: string, precision: int, val: nat, written: string)
    requires Progress(v, base, digits, precision, false, val, written)
    ensures 2 <= base <= |digits| && Digits(v, base, digits, precision) == written
  {
    assert [] + written == written;
  }

  function Low(val: nat, base: nat): (r: nat)
    requires base > 0
    ensures r < base
  {
    val % base
  }

  function High(val: nat, base: nat): (q: nat)
    requires base > 0
  {
    val / base
  }

  lemma LastDigit(val: nat, base: nat, digits: string)
    requires 2 <= base <= |digits|
    ensures var q := High(val, base);
            && Numeral(val, base, digits)
            == (if q != 0 then Numeral(q, base, digits) else []) + [digits[Low(val, base)]]
            && (q != 0 ==> q < val)
  {
    DivZero(val, base);
    if val >= base {
      DivSmaller(val, base);
    }
  }

  lemma DivZero(val: nat, base: nat)
    requires base > 0
    ensures val / base == 0 <==> val < base
    ensures 0 <= val % base < base && 0 <= val / base
  {
    var q, r := val / base, val % base;
    assert val == base * q + r && 0 <= r < base;
    if val < base && q >= 1 {
      MulMono(base, 1, q);
    }
  }
}
