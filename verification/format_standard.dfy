/** The numeric conversions `%d`, `%u`, `%x` and `%X` against the C standard (C11, section
    7.21.6.1). */
module FormatStandard {
  import opened KernelTypes
  import opened Numbers
  import opened Formatter
  import opened FormatScan

  /** A width or a precision as written, before anybody interprets it. */
  datatype Amount = None | Some(n: int)

  function Raw(c: Count, args: seq<Arg>): Amount {
    match c
    case Absent => None
    case Star => Some(Signed(WordOf(args)))
    case Given(digits) => Some(Parse(digits, 10))
  }

  /** A negative precision is taken as if there were none. */
  predicate Omitted(p: Amount) {
    p.None? || p.n < 0
  }

  /** What the standard asks for: a sign or a base, and the number. */
  datatype Asked = Asked(prefix: string, numeral: string)

  function SignFor(flags: set<char>, x: int32): string {
    if x < 0 then "-" else if '+' in flags then "+" else if ' ' in flags then " " else ""
  }

  /** Only `%d` has a sign, and `#` puts the base before a hexadecimal number other than zero. */
  function AskedFor(c: char, flags: set<char>, w: uint32): Asked
    requires IsNumeric(c)
  {
    if c == 'd' then Asked(SignFor(flags, Signed(w)), Numeral(Magnitude(Signed(w)), 10, UPPER_DIGITS))
    else if c == 'u' then Asked("", Numeral(w, 10, UPPER_DIGITS))
    else Asked(if '#' in flags && w != 0 then ['0', c] else "",
               Numeral(w, 16, if c == 'x' then LOWER_DIGITS else UPPER_DIGITS))
  }

  /** At least as many digits as the precision, made up with leading zeros, and none at all for zero
      with precision zero. */
  function StandardDigits(numeral: string, p: Amount): string {
    if Omitted(p) then numeral
    else if p.n == 0 && numeral == "0" then ""
    else Copies('0', p.n - |numeral|) + numeral
  }

  /** A negative width is the flag `-` with its magnitude as the width.  A precision and left
      justification both override the zero flag. */
  function Standard(a: Asked, flags: set<char>, w: Amount, p: Amount): string {
    var digits := StandardDigits(a.numeral, p);
    Place(Left(flags, w), '0' in flags && Omitted(p), a.prefix, digits, Field(w) - |a.prefix| - |digits|)
  }

  predicate Left(flags: set<char>, w: Amount) {
    '-' in flags || (w.Some? && w.n < 0)
  }

  function Field(w: Amount): nat {
    if w.None? then 0 else if w.n < 0 then -w.n else w.n
  }

  function Place(left: bool, zeros: bool, prefix: string, digits: string, missing: int): string {
    if left then prefix + digits + Copies(' ', missing)
    else if zeros then prefix + Copies('0', missing) + digits
    else Copies(' ', missing) + prefix + digits
  }

  // ----- When the code agrees -----

  /** The precision is absent or no shorter than the number, but zero is no number at precision zero. */
  predicate EnoughPrecision(numeral: string, p: Amount) {
    p.Some? ==> 0 <= p.n && (|numeral| <= p.n || (numeral == "0" && p.n == 0))
  }

  /** How many digits are printed then. */
  function DigitCount(numeral: string, p: Amount): int {
    if p.Some? then p.n else |numeral|
  }

  /** A negative width is no wider than what is printed. */
  predicate WidthUnused(w: Amount, printed: int) {
    w.Some? && w.n < 0 ==> -w.n <= printed
  }

  /** The blank that the code prints where a sign would be passes for padding. */
  predicate BlankHidden(flags: set<char>, w: Amount, p: Amount, digits: int) {
    if w.Some? && w.n < 0 then digits == 0 && w.n == -1
    else if '-' in flags then digits == 0 && Field(w) >= 1
    else !('0' in flags && Omitted(p)) && Field(w) > digits
  }

  /** What a caller can check before printing `word`: the precision is long enough; a negative width is
      not used; and for an unsigned conversion there is no flag `+`, no base is due, and a flag
      blank is hidden. */
  predicate Agrees(c: char, flags: set<char>, w: Amount, p: Amount, word: uint32)
    requires IsNumeric(c)
  {
    var numeral := AskedFor(c, flags, word).numeral;
    var n := DigitCount(numeral, p);
    && EnoughPrecision(numeral, p)
    && if c == 'd' then WidthUnused(w, |SignFor(flags, Signed(word))| + n)
       else
         && '+' !in flags && (c == 'u' || '#' !in flags || word == 0)
         && if ' ' in flags then BlankHidden(flags, w, p, n) else WidthUnused(w, n)
  }

  // ----- Counting the characters that are not blanks -----

  function Ink(s: string): nat {
    if s == [] then 0 else Ink(s[..|s| - 1]) + if s[|s| - 1] == ' ' then 0 else 1
  }

  lemma {:induction false} InkConcat(a: string, b: string)
    ensures Ink(a + b) == Ink(a) + Ink(b)
  {
    if b == [] {
      assert a + b == a;
    } else {
      assert (a + b)[..|a + b| - 1] == a + b[..|b| - 1];
      InkConcat(a, b[..|b| - 1]);
    }
  }

  lemma {:induction false} InkFull(s: string)
    requires forall i | 0 <= i < |s| :: s[i] != ' '
    ensures Ink(s) == |s|
  {
    if s != [] {
      InkFull(s[..|s| - 1]);
    }
  }

  lemma {:induction false} InkBlank(s: string)
    requires forall i | 0 <= i < |s| :: s[i] == ' '
    ensures Ink(s) == 0
  {
    if s != [] {
      InkBlank(s[..|s| - 1]);
    }
  }

  lemma InkField(left: nat, sign: string, digits: string, right: nat)
    requires forall i | 0 <= i < |digits| :: digits[i] != ' '
    ensures Ink(Copies(' ', left) + (sign + digits) + Copies(' ', right)) == Ink(sign) + |digits|
  {
    var l, r := Copies(' ', left), Copies(' ', right);
    hide Ink;
    hide Copies;
    InkConcat(l + (sign + digits), r);
    InkConcat(l, sign + digits);
    InkConcat(sign, digits);
    InkFull(digits);
    InkBlank(l);
    InkBlank(r);
  }

  lemma InkParts(a: string, b: string, c: string)
    ensures Ink(a + b + c) == Ink(a) + Ink(b) + Ink(c)
  {
    hide Ink;
    InkConcat(a + b, c);
    InkConcat(a, b);
  }

  // ----- What the code prints -----

  /** The width and precision the code works with: -1 for none, and zero for a negative precision. */
  function CodeWidth(w: Amount): int {
    if w.None? then -1 else w.n
  }

  function CodePrecision(p: Amount): int {
    if p.None? then -1 else if p.n < 0 then 0 else p.n
  }

  predicate IsNumeral(s: string) {
    s != "" && forall i | 0 <= i < |s| :: IsNumeralChar(s[i])
  }

  /** The item holds the number, in full or, for zero at precision zero, not at all. */
  predicate Holds(item: Item, numeral: string, precision: int) {
    item.numeric && item.data == if precision == 0 && numeral == "0" then "" else numeral
  }

  lemma ItemOf(c: char, flags: set<char>, w: uint32, precision: int)
    requires IsNumeric(c)
    ensures var a, item := AskedFor(c, flags, w), Convert(c, [Word(w)], precision);
            && IsNumeral(a.numeral) && Holds(item, a.numeral, precision)
            && Sign(flags, item) ==
               if c == 'd' then a.prefix else if '+' in flags then "+" else if ' ' in flags then " " else ""
  {
    hide Numeral;
    if c == 'd' {
      NoLeadingZero(Magnitude(Signed(w)), 10, UPPER_DIGITS);
    } else {
      NoLeadingZero(w, if c == 'u' then 10 else 16, if c == 'x' then LOWER_DIGITS else UPPER_DIGITS);
    }
  }

  /** The code's padding. */
  function Padded(sp: Spec, body: string): string {
    var pad := Copies(' ', sp.width - |body|);
    if '-' in sp.flags then body + pad else pad + body
  }

  /** Blanks the code does not print but zeros. */
  predicate ZeroFill(flags: set<char>, p: Amount) {
    Omitted(p) && '0' in flags && '-' !in flags
  }

  /** With enough precision the code's digits are the standard's. */
  lemma SameDigits(sp: Spec, item: Item, numeral: string, p: Amount)
    requires sp.precision == CodePrecision(p) && EnoughPrecision(numeral, p) && Holds(item, numeral, sp.precision)
    ensures var sign, digits := Sign(sp.flags, item), StandardDigits(numeral, p);
            var fill := if ZeroFill(sp.flags, p) then sp.width - |sign| - |digits| else 0;
            && |digits| == DigitCount(numeral, p)
            && Layout(sp, item) == Padded(sp, sign + Copies('0', fill) + digits)
  {
    hide Padded;
    hide Sign;
    LayoutIs(sp, item);
    hide Layout;
    var sign, digits := Sign(sp.flags, item), StandardDigits(numeral, p);
    assert item.data[..Shown(item, sp.precision)] == item.data;
    var z := Zeros(sp, item);
    if p.Some? {
      assert digits == Copies('0', z) + item.data;
      assert sign + Copies('0', z) + item.data == sign + (Copies('0', z) + item.data);
      assert sign + Copies('0', 0) + digits == sign + digits;
    } else {
      assert digits == item.data;
    }
  }

  lemma LayoutIs(sp: Spec, item: Item)
    ensures Layout(sp, item) == Padded(sp, Body(sp, item))
  {
  }

  // ----- Short precisions -----

  lemma DigitsInk(numeral: string, p: Amount)
    requires IsNumeral(numeral) && StandardDigits(numeral, p) != ""
    ensures Ink(StandardDigits(numeral, p)) >= |numeral|
  {
    InkFull(numeral);
    hide Ink;
    if !Omitted(p) {
      InkConcat(Copies('0', p.n - |numeral|), numeral);
    }
  }

  lemma PlaceInk(left: bool, zeros: bool, prefix: string, digits: string, missing: int)
    ensures Ink(Place(left, zeros, prefix, digits, missing)) >= Ink(prefix) + Ink(digits)
  {
    hide Ink;
    hide Copies;
    InkParts(prefix, digits, Copies(' ', missing));
    InkParts(prefix, Copies('0', missing), digits);
    InkParts(Copies(' ', missing), prefix, digits);
  }

  /** A precision shorter than the number, which a negative one always is, makes the code drop
      digits, and no padding hides that. */
  lemma TruncationShows(sp: Spec, item: Item, a: Asked, w: Amount, p: Amount)
    requires sp.precision == CodePrecision(p) && IsNumeral(a.numeral) && Holds(item, a.numeral, sp.precision)
    requires !EnoughPrecision(a.numeral, p) && Ink(Sign(sp.flags, item)) <= Ink(a.prefix)
    ensures Layout(sp, item) != Standard(a, sp.flags, w, p)
  {
    hide Ink;
    hide Layout;
    hide Place;
    hide Sign;
    var sign := Sign(sp.flags, item);
    var shown := item.data[..Shown(item, sp.precision)];
    assert |shown| == sp.precision < |a.numeral|;
    ShortBody(sp, item);
    var digits := StandardDigits(a.numeral, p);
    DigitsInk(a.numeral, p);
    PlaceInk(Left(sp.flags, w), '0' in sp.flags && Omitted(p), a.prefix, digits,
             Field(w) - |a.prefix| - |digits|);
    var left, right := LayoutShape(sp, item);
    InkField(left, sign, shown, right);
  }

  lemma ShortBody(sp: Spec, item: Item)
    requires item.numeric && 0 <= sp.precision <= |item.data|
    ensures Body(sp, item) == Sign(sp.flags, item) + item.data[..Shown(item, sp.precision)]
  {
    hide Sign;
    assert Copies('0', 0) == "";
  }

  // ----- The same sign -----

  /** Then padding decides. */
  lemma SameSign(sp: Spec, item: Item, a: Asked, w: Amount, p: Amount)
    requires sp.width == CodeWidth(w) && sp.precision == CodePrecision(p) && Holds(item, a.numeral, sp.precision)
    requires EnoughPrecision(a.numeral, p) && Sign(sp.flags, item) == a.prefix
    ensures Layout(sp, item) == Standard(a, sp.flags, w, p) <==>
            WidthUnused(w, |a.prefix| + DigitCount(a.numeral, p))
  {
    hide Padded;
    hide Layout;
    hide Sign;
    hide StandardDigits;
    hide EnoughPrecision;
    hide Standard;
    hide DigitCount;
    SameDigits(sp, item, a.numeral, p);
    var digits := StandardDigits(a.numeral, p);
    StandardIs(a, sp.flags, w, p);
    if w.Some? && w.n < 0 {
      NegativePadding(sp, w, p, a.prefix, digits);
    } else {
      SamePadding(sp, w, p, a.prefix, digits);
    }
  }

  lemma StandardIs(a: Asked, flags: set<char>, w: Amount, p: Amount)
    ensures var digits := StandardDigits(a.numeral, p);
            Standard(a, flags, w, p) ==
            Place(Left(flags, w), '0' in flags && Omitted(p), a.prefix, digits, Field(w) - |a.prefix| - |digits|)
  {
  }

  /** A negative width adds nothing to what the code prints, and blanks to what the standard asks for. */
  lemma NegativePadding(sp: Spec, w: Amount, p: Amount, prefix: string, digits: string)
    requires w.Some? && w.n < 0 && sp.width == w.n
    ensures var fill := if ZeroFill(sp.flags, p) then sp.width - |prefix| - |digits| else 0;
            var standard := Place(Left(sp.flags, w), '0' in sp.flags && Omitted(p), prefix, digits,
                                  Field(w) - |prefix| - |digits|);
            Padded(sp, prefix + Copies('0', fill) + digits) == standard <==> -w.n <= |prefix| + |digits|
  {
    var body := prefix + digits;
    var fill := if ZeroFill(sp.flags, p) then sp.width - |prefix| - |digits| else 0;
    assert Copies('0', fill) == "" && prefix + "" + digits == body;
    assert Padded(sp, body) == body;
    assert |body + Copies(' ', Field(w) - |prefix| - |digits|)| > |body| || -w.n <= |body|;
  }

  /** Otherwise the code pads as the standard does. */
  lemma SamePadding(sp: Spec, w: Amount, p: Amount, prefix: string, digits: string)
    requires sp.width == CodeWidth(w) && (w.None? || w.n >= 0)
    ensures var fill := if ZeroFill(sp.flags, p) then sp.width - |prefix| - |digits| else 0;
            Padded(sp, prefix + Copies('0', fill) + digits) ==
            Place(Left(sp.flags, w), '0' in sp.flags && Omitted(p), prefix, digits,
                  Field(w) - |prefix| - |digits|)
  {
    if ZeroFill(sp.flags, p) {
      ZeroPadding(sp, w, p, prefix, digits);
    } else {
      BlankPadding(sp, w, p, prefix, digits);
    }
  }

  lemma ZeroPadding(sp: Spec, w: Amount, p: Amount, prefix: string, digits: string)
    requires sp.width == CodeWidth(w) && (w.None? || w.n >= 0) && ZeroFill(sp.flags, p)
    ensures Padded(sp, prefix + Copies('0', sp.width - |prefix| - |digits|) + digits) ==
            Place(Left(sp.flags, w), true, prefix, digits, Field(w) - |prefix| - |digits|)
  {
    var missing := Field(w) - |prefix| - |digits|;
    var filled := prefix + Copies('0', missing) + digits;
    assert Copies('0', sp.width - |prefix| - |digits|) == Copies('0', missing);
    assert Copies(' ', sp.width - |filled|) == "";
  }

  lemma BlankPadding(sp: Spec, w: Amount, p: Amount, prefix: string, digits: string)
    requires sp.width == CodeWidth(w) && (w.None? || w.n >= 0) && !ZeroFill(sp.flags, p)
    ensures Padded(sp, prefix + Copies('0', 0) + digits) ==
            Place(Left(sp.flags, w), '0' in sp.flags && Omitted(p), prefix, digits,
                  Field(w) - |prefix| - |digits|)
  {
    var missing := Field(w) - |prefix| - |digits|;
    var body := prefix + digits;
    assert prefix + Copies('0', 0) + digits == body;
    assert Copies(' ', sp.width - |body|) == Copies(' ', missing);
    assert Copies(' ', missing) + body == Copies(' ', missing) + prefix + digits;
  }

  // ----- A blank for a sign -----

  /** The code prints a blank where the standard asks for nothing. */
  lemma BlankSign(sp: Spec, item: Item, a: Asked, w: Amount, p: Amount)
    requires sp.width == CodeWidth(w) && sp.precision == CodePrecision(p) && Holds(item, a.numeral, sp.precision)
    requires EnoughPrecision(a.numeral, p) && IsNumeral(a.numeral) && Sign(sp.flags, item) == " " && a.prefix == ""
    ensures Layout(sp, item) == Standard(a, sp.flags, w, p) <==>
            BlankHidden(sp.flags, w, p, DigitCount(a.numeral, p))
  {
    hide Padded;
    hide Layout;
    hide Sign;
    hide EnoughPrecision;
    hide Standard;
    hide DigitCount;
    hide IsNumeralChar;
    hide Place;
    hide BlankHidden;
    SameDigits(sp, item, a.numeral, p);
    var digits := StandardDigits(a.numeral, p);
    NoBlanks(a.numeral, p);
    StandardIs(a, sp.flags, w, p);
    if Left(sp.flags, w) {
      BlankLeft(sp, w, p, digits);
    } else if '0' in sp.flags && Omitted(p) {
      BlankZeros(sp, w, p, digits);
    } else {
      BlankRight(sp, w, p, digits);
    }
  }

  lemma NoBlanks(numeral: string, p: Amount)
    requires IsNumeral(numeral)
    ensures forall i | 0 <= i < |StandardDigits(numeral, p)| :: StandardDigits(numeral, p)[i] != ' '
    ensures Omitted(p) ==> StandardDigits(numeral, p) != ""
  {
  }

  lemma BlankLeft(sp: Spec, w: Amount, p: Amount, digits: string)
    requires sp.width == CodeWidth(w) && Left(sp.flags, w) && forall i | 0 <= i < |digits| :: digits[i] != ' '
    ensures var fill := if ZeroFill(sp.flags, p) then sp.width - 1 - |digits| else 0;
            Padded(sp, " " + Copies('0', fill) + digits) ==
            Place(true, '0' in sp.flags && Omitted(p), "", digits, Field(w) - |digits|) <==>
            BlankHidden(sp.flags, w, p, |digits|)
  {
    var fill := if ZeroFill(sp.flags, p) then sp.width - 1 - |digits| else 0;
    assert Copies('0', fill) == "";
    var body := " " + Copies('0', fill) + digits;
    var code := Padded(sp, body);
    assert code[0] == ' ';
    var standard := Place(true, '0' in sp.flags && Omitted(p), "", digits, Field(w) - |digits|);
    assert standard == digits + Copies(' ', Field(w) - |digits|);
    if digits == "" {
      assert |code| == if w.Some? && w.n >= 1 then w.n else 1;
      assert forall i | 0 <= i < |code| :: code[i] == ' ';
    } else {
      assert standard[0] == digits[0];
    }
  }

  lemma BlankZeros(sp: Spec, w: Amount, p: Amount, digits: string)
    requires sp.width == CodeWidth(w) && !Left(sp.flags, w) && '0' in sp.flags && Omitted(p)
    requires digits != "" && forall i | 0 <= i < |digits| :: digits[i] != ' '
    ensures var fill := if ZeroFill(sp.flags, p) then sp.width - 1 - |digits| else 0;
            Padded(sp, " " + Copies('0', fill) + digits) != Place(false, true, "", digits, Field(w) - |digits|)
    ensures !BlankHidden(sp.flags, w, p, |digits|)
  {
    var body := " " + Copies('0', sp.width - 1 - |digits|) + digits;
    assert Copies(' ', sp.width - |body|) == "";
    assert Padded(sp, body) == body && body[0] == ' ';
    var zeros := Copies('0', Field(w) - |digits|);
    assert (("" + zeros) + digits)[0] == if zeros != "" then '0' else digits[0];
  }

  lemma BlankRight(sp: Spec, w: Amount, p: Amount, digits: string)
    requires sp.width == CodeWidth(w) && !Left(sp.flags, w) && !('0' in sp.flags && Omitted(p))
    ensures var fill := if ZeroFill(sp.flags, p) then sp.width - 1 - |digits| else 0;
            Padded(sp, " " + Copies('0', fill) + digits) ==
            Place(false, '0' in sp.flags && Omitted(p), "", digits, Field(w) - |digits|) <==>
            BlankHidden(sp.flags, w, p, |digits|)
  {
    var body := " " + digits;
    assert " " + Copies('0', 0) + digits == body;
    var standard := Copies(' ', Field(w) - |digits|) + digits;
    assert Copies(' ', Field(w) - |digits|) + "" + digits == standard;
    if Field(w) > |digits| {
      assert Copies(' ', sp.width - |body|) + " " == Copies(' ', Field(w) - |digits|);
      assert Padded(sp, body) == (Copies(' ', sp.width - |body|) + " ") + digits;
    } else {
      assert |standard| == |digits| < |Padded(sp, body)|;
    }
  }

  // ----- Characters only one of them prints -----

  lemma InStandard(a: Asked, flags: set<char>, w: Amount, p: Amount, x: char)
    requires IsNumeral(a.numeral) && x != ' ' && !IsNumeralChar(x)
    ensures x in Standard(a, flags, w, p) <==> x in a.prefix
  {
    var digits := StandardDigits(a.numeral, p);
    assert x !in digits;
    hide StandardDigits;
    assert forall b, n: int :: x in Copies(b, n) ==> x == b;
  }

  lemma InLayout(sp: Spec, item: Item, numeral: string, x: char)
    requires IsNumeral(numeral) && Holds(item, numeral, sp.precision) && x != ' ' && !IsNumeralChar(x)
    ensures x in Layout(sp, item) <==> x in Sign(sp.flags, item)
  {
    hide Sign;
    hide Zeros;
    assert x !in item.data;
    assert forall b, n: int :: x in Copies(b, n) ==> x == b;
  }

  // ----- The comparison -----

  /** The laid out item is what the standard asks for exactly when `Agrees` holds. */
  lemma LayoutMatchesIff(c: char, sp: Spec, w: Amount, p: Amount, word: uint32)
    requires IsNumeric(c) && sp.width == CodeWidth(w) && sp.precision == CodePrecision(p)
    ensures Layout(sp, Convert(c, [Word(word)], sp.precision)) == Standard(AskedFor(c, sp.flags, word), sp.flags, w, p)
            <==> Agrees(c, sp.flags, w, p, word)
  {
    hide Layout;
    hide Standard;
    hide Convert;
    hide Sign;
    hide Numeral;
    hide EnoughPrecision;
    hide WidthUnused;
    hide BlankHidden;
    hide DigitCount;
    hide Holds;
    hide IsNumeral;
    hide Ink;
    var item, a := Convert(c, [Word(word)], sp.precision), AskedFor(c, sp.flags, word);
    ItemOf(c, sp.flags, word, sp.precision);
    if c != 'd' && '+' in sp.flags {
      InLayout(sp, item, a.numeral, '+');
      InStandard(a, sp.flags, w, p, '+');
    } else if c == 'x' || c == 'X' {
      InLayout(sp, item, a.numeral, c);
      InStandard(a, sp.flags, w, p, c);
    }
    var sign := Sign(sp.flags, item);
    if !EnoughPrecision(a.numeral, p) {
      if sign == a.prefix || sign != "+" {
        SignInk(a.prefix, sign);
        TruncationShows(sp, item, a, w, p);
      }
    } else if sign == a.prefix {
      SameSign(sp, item, a, w, p);
    } else if sign == " " && a.prefix == "" {
      BlankSign(sp, item, a, w, p);
    }
  }

  lemma SignInk(prefix: string, sign: string)
    requires sign == prefix || sign == " " || sign == ""
    ensures Ink(sign) <= Ink(prefix)
  {
  }

  // ----- The whole conversion -----

  function Written(c: char, flags: string, w: Count, p: Count): string {
    "%" + WriteSpec(flags, w, p) + [c]
  }

  lemma WrittenRenders(c: char, flags: string, w: Count, p: Count, args: seq<Arg>, color: bv16)
    requires IsNumeric(c) && (forall x | x in flags :: x in FLAG_CHARS) && IsWidth(w)
    ensures var f := Written(c, flags, w, p);
            var sp := Meant(flags, w, p, |f| - 1, args);
            Render(f, 0, args, color) == Glyphs(Layout(sp, Convert(c, [Word(WordOf(sp.args))], sp.precision)), color)
  {
    hide ReadSpec;
    hide Layout;
    hide Meant;
    hide Written;
    hide Convert;
    hide Render;
    var f := Written(c, flags, w, p);
    WrittenReads(c, flags, w, p, args);
    var sp := Meant(flags, w, p, |f| - 1, args);
    OneConversion(c, f, args, color, sp);
  }

  lemma WrittenReads(c: char, flags: string, w: Count, p: Count, args: seq<Arg>)
    requires IsNumeric(c) && (forall x | x in flags :: x in FLAG_CHARS) && IsWidth(w)
    ensures var f := Written(c, flags, w, p);
            && |f| >= 2 && f[0] == '%' && f[|f| - 1] == c
            && ReadSpec(f, 1, args) == Meant(flags, w, p, |f| - 1, args)
            && Meant(flags, w, p, |f| - 1, args).end == |f| - 1
  {
    hide WriteSpec;
    hide ReadSpec;
    var f, spec := Written(c, flags, w, p), WriteSpec(flags, w, p);
    assert f[1..1 + |spec|] == spec;
    SpecReadsBack(f, 1, flags, w, p, args);
  }

  /** A format that is one conversion. */
  lemma OneConversion(c: char, f: string, args: seq<Arg>, color: bv16, sp: Spec)
    requires IsNumeric(c) && |f| >= 2 && f[0] == '%' && f[|f| - 1] == c
    requires ReadSpec(f, 1, args) == sp && sp.end == |f| - 1
    ensures Render(f, 0, args, color) == Glyphs(Layout(sp, Convert(c, [Word(WordOf(sp.args))], sp.precision)), color)
  {
    hide ReadSpec;
    hide Layout;
    hide Convert;
    hide Rest;
    hide WordOf;
    ConvertWord(c, sp.args, sp.precision);
    NothingRendered(f, Rest(sp.args), color);
  }

  lemma ConvertWord(c: char, args: seq<Arg>, precision: int)
    requires IsNumeric(c)
    ensures Convert(c, args, precision) == Convert(c, [Word(WordOf(args))], precision)
  {
    hide Digits;
  }

  lemma NothingRendered(f: string, args: seq<Arg>, color: bv16)
    ensures Render(f, |f|, args, color) == []
  {
  }

  lemma GlyphsInjective(a: string, b: string, color: bv16)
    ensures Glyphs(a, color) == Glyphs(b, color) <==> a == b
  {
    if Glyphs(a, color) == Glyphs(b, color) {
      forall i | 0 <= i < |a| ensures a[i] == b[i] {
        assert Glyphs(a, color)[i] == Glyphs(b, color)[i];
      }
    }
  }

  /** Each numeric conversion prints what the standard says, for any flags, any width and precision,
      in digits or as `*`, and any arguments, exactly when `Agrees` holds of what was written. */
  lemma NumberMatchesStandardIff(c: char, flags: string, w: Count, p: Count, args: seq<Arg>, color: bv16)
    requires IsNumeric(c) && (forall x | x in flags :: x in FLAG_CHARS) && IsWidth(w)
    ensures var rest := Taken(w, args).1;
            var width, precision, word := Raw(w, args), Raw(p, rest), WordOf(Taken(p, rest).1);
            Render(Written(c, flags, w, p), 0, args, color) ==
            Glyphs(Standard(AskedFor(c, Members(flags), word), Members(flags), width, precision), color) <==>
            Agrees(c, Members(flags), width, precision, word)
  {
    hide Render;
    hide Written;
    hide Layout;
    hide Standard;
    hide Agrees;
    hide AskedFor;
    hide Convert;
    hide Parse;
    WrittenRenders(c, flags, w, p, args, color);
    var rest := Taken(w, args).1;
    var width, precision, word := Raw(w, args), Raw(p, rest), WordOf(Taken(p, rest).1);
    var sp := Meant(flags, w, p, |Written(c, flags, w, p)| - 1, args);
    assert sp.width == CodeWidth(width) && sp.precision == CodePrecision(precision) && WordOf(sp.args) == word;
    LayoutMatchesIff(c, sp, width, precision, word);
    GlyphsInjective(Layout(sp, Convert(c, [Word(word)], sp.precision)),
                    Standard(AskedFor(c, Members(flags), word), Members(flags), width, precision), color);
  }

  // ----- Inputs on which they differ -----

  lemma SpecRenders(c: char, f: string, flags: string, w: Count, p: Count, args: seq<Arg>, color: bv16, sp: Spec)
    requires IsNumeric(c) && (forall x | x in flags :: x in FLAG_CHARS) && IsWidth(w)
    requires f == Written(c, flags, w, p) && sp == Meant(flags, w, p, |f| - 1, args)
    ensures Render(f, 0, args, color) == Glyphs(Layout(sp, Convert(c, [Word(WordOf(sp.args))], sp.precision)), color)
  {
    hide *;
    WrittenRenders(c, flags, w, p, args, color);
  }

  /** `%.2d` prints 12345 as `12`, where the standard asks for `12345`. */
  lemma PrecisionTruncates(color: bv16)
    ensures Render("%.2d", 0, [Word(12345)], color) == Glyphs("12", color)
    ensures Standard(AskedFor('d', {}, 12345), {}, None, Some(2)) == "12345"
  {
    hide Render;
    hide Layout;
    hide Numeral;
    hide Convert;
    SmallNumerals();
    assert Members("") == {};
    SpecRenders('d', "%.2d", "", Absent, Given("2"), [Word(12345)], color, Spec({}, -1, 2, 3, [Word(12345)]));
    PrecisionTwo([Word(12345)]);
  }

  lemma SmallNumerals()
    ensures Numeral(0, 10, UPPER_DIGITS) == "0" && Numeral(12345, 10, UPPER_DIGITS) == "12345"
    ensures Numeral(10, 16, LOWER_DIGITS) == "a"
  {
    assert Numeral(12, 10, UPPER_DIGITS) == Numeral(1, 10, UPPER_DIGITS) + "2";
    assert Numeral(123, 10, UPPER_DIGITS) == Numeral(12, 10, UPPER_DIGITS) + "3";
    assert Numeral(1234, 10, UPPER_DIGITS) == Numeral(123, 10, UPPER_DIGITS) + "4";
    assert Numeral(12345, 10, UPPER_DIGITS) == Numeral(1234, 10, UPPER_DIGITS) + "5";
  }

  lemma PrecisionTwo(args: seq<Arg>)
    ensures Layout(Spec({}, -1, 2, 3, args), Convert('d', [Word(12345)], 2)) == "12"
  {
    hide Numeral;
    SmallNumerals();
  }

  /** `%.*d` with -1 and 0 prints nothing, where the standard asks for `0`. */
  lemma NegativePrecisionTruncates(color: bv16)
    ensures Render("%.*d", 0, [Word(0xFFFF_FFFF), Word(0)], color) == Glyphs("", color)
    ensures Standard(AskedFor('d', {}, 0), {}, None, Some(-1)) == "0"
  {
    hide Render;
    hide Layout;
    hide Numeral;
    hide Convert;
    SmallNumerals();
    assert Members("") == {};
    var args := [Word(0xFFFF_FFFF), Word(0)];
    assert args[1..] == [Word(0)];
    SpecRenders('d', "%.*d", "", Absent, Star, args, color, Spec({}, -1, 0, 3, [Word(0)]));
    ZeroAtPrecisionZero(-1, 3, [Word(0)]);
  }

  lemma ZeroAtPrecisionZero(width: int, end: nat, args: seq<Arg>)
    requires width <= -1
    ensures Layout(Spec({}, width, 0, end, args), Convert('d', [Word(0)], 0)) == ""
  {
  }

  /** `%*.0d` with -1 and 0 prints nothing, where the standard asks for one blank. */
  lemma NegativeWidthIsLost(color: bv16)
    ensures Render("%*.0d", 0, [Word(0xFFFF_FFFF), Word(0)], color) == Glyphs("", color)
    ensures Standard(AskedFor('d', {}, 0), {}, Some(-1), Some(0)) == " "
  {
    hide Render;
    hide Layout;
    hide Numeral;
    hide Convert;
    SmallNumerals();
    assert Members("") == {} && Copies(' ', 1) == " ";
    var args := [Word(0xFFFF_FFFF), Word(0)];
    assert args[1..] == [Word(0)];
    SpecRenders('d', "%*.0d", "", Star, Given("0"), args, color, Spec({}, -1, 0, 4, [Word(0)]));
    ZeroAtPrecisionZero(-1, 4, [Word(0)]);
  }

  /** `%#x` prints 10 as `a`, where the standard asks for `0xa`. */
  lemma BaseIsMissing(color: bv16)
    ensures Render("%#x", 0, [Word(10)], color) == Glyphs("a", color)
    ensures Standard(AskedFor('x', {'#'}, 10), {'#'}, None, None) == "0xa"
  {
    hide Render;
    hide Layout;
    hide Numeral;
    hide Convert;
    SmallNumerals();
    assert Members("#") == {'#'};
    SpecRenders('x', "%#x", "#", Absent, Absent, [Word(10)], color, Spec({'#'}, -1, -1, 2, [Word(10)]));
    HexTen([Word(10)]);
  }

  lemma HexTen(args: seq<Arg>)
    ensures Layout(Spec({'#'}, -1, -1, 2, args), Convert('x', [Word(10)], -1)) == "a"
  {
    hide Numeral;
    SmallNumerals();
  }
}
