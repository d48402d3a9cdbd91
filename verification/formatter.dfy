/** The format language of `console_vprintf`: a pure renderer, and the properties of what it
    renders. */
module Formatter {
  import opened KernelTypes
  import opened Numbers
  import opened Console

  /** A variable argument: a word (`int`, `unsigned` or a character) or a string. */
  datatype Arg = Word(w: uint32) | Text(s: string)

  /** The character at index `i`; index `|f|` is the terminator, and nothing beyond it is readable. */
  function At(f: string, i: nat): char
    requires i <= |f|
  {
    if i < |f| then f[i] else '\0'
  }

  function WordOf(args: seq<Arg>): uint32 {
    if args != [] && args[0].Word? then args[0].w else 0
  }

  function TextOf(args: seq<Arg>): string {
    if args != [] && args[0].Text? then args[0].s else []
  }

  function Rest(args: seq<Arg>): seq<Arg> {
    if args == [] then [] else args[1..]
  }

  // ----- Reading a conversion specification -----

  const FLAG_CHARS: string := "#0- +"

  function Flags(f: string, i: nat): (r: (set<char>, nat))
    requires i <= |f|
    ensures i <= r.1 <= |f|
    decreases |f| - i
  {
    if i < |f| && f[i] in FLAG_CHARS then
      var (more, end) := Flags(f, i + 1);
      (more + {f[i]}, end)
    else ({}, i)
  }

  predicate IsDigit(c: char) {
    '0' <= c <= '9'
  }

  /** Reads digits from `i` on, continuing the number `n`. */
  function Number(f: string, i: nat, n: nat): (r: (nat, nat))
    requires i <= |f|
    ensures i <= r.1 <= |f|
    decreases |f| - i
  {
    if i < |f| && IsDigit(f[i]) then Number(f, i + 1, 10 * n + (f[i] - '0') as nat) else (n, i)
  }

  /** A width or a precision: the value, where reading stopped, and the arguments left. */
  datatype Field = Field(value: int, end: nat, args: seq<Arg>)

  function Width(f: string, i: nat, args: seq<Arg>): (r: Field)
    requires i <= |f|
    ensures i <= r.end <= |f|
  {
    if IsDigit(At(f, i)) && At(f, i) != '0' then
      var (n, end) := Number(f, i, 0);
      Field(n, end, args)
    else if At(f, i) == '*' then Field(Signed(WordOf(args)), i + 1, Rest(args))
    else Field(-1, i, args)
  }

  function Precision(f: string, i: nat, args: seq<Arg>): (r: Field)
    requires i <= |f|
    ensures i <= r.end <= |f|
  {
    if At(f, i) != '.' then Field(-1, i, args)
    else if IsDigit(At(f, i + 1)) then
      var (n, end) := Number(f, i + 1, 0);
      Field(n, end, args)
    else if At(f, i + 1) == '*' then
      var p := Signed(WordOf(args));
      Field(if p < 0 then 0 else p, i + 2, Rest(args))
    else Field(0, i + 1, args)
  }

  /** Everything between `%` and the conversion character, which is at index `end`. */
  datatype Spec = Spec(flags: set<char>, width: int, precision: int, end: nat, args: seq<Arg>)

  function ReadSpec(f: string, i: nat, args: seq<Arg>): (r: Spec)
    requires i <= |f|
    ensures i <= r.end <= |f|
  {
    var (flags, i1) := Flags(f, i);
    var width := Width(f, i1, args);
    var precision := Precision(f, width.end, width.args);
    Spec(flags, width.value, precision.value, precision.end, precision.args)
  }

  // ----- Converting one argument -----

  datatype Item = Item(data: string, numeric: bool, negative: bool)

  /** The magnitude `x > 0 ? x : -x`, which is 2^31 for the least integer. */
  function Magnitude(x: int32): uint32 {
    var n: int := x;
    if n > 0 then n else -n
  }

  function Convert(c: char, args: seq<Arg>, precision: int): Item {
    var w := WordOf(args);
    if c == 'd' then Item(Digits(Magnitude(Signed(w)), 10, UPPER_DIGITS, precision), true, Signed(w) < 0)
    else if c == 'u' then Item(Digits(w, 10, UPPER_DIGITS, precision), true, false)
    else if c == 'x' then Item(Digits(w, 16, LOWER_DIGITS, precision), true, false)
    else if c == 'X' then Item(Digits(w, 16, UPPER_DIGITS, precision), true, false)
    else if c == 's' then Item(TextOf(args), false, false)
    else if c == 'c' then Item(if w % 256 == 0 then [] else [(w % 256) as char], false, false)
    else Item([if c == '\0' then '%' else c], false, false)
  }

  predicate TakesArgument(c: char) {
    c == 'd' || c == 'u' || c == 'x' || c == 'X' || c == 's' || c == 'c' || c == 'C'
  }

  // ----- Laying it out -----

  function Copies(c: char, n: int): (s: string)
    ensures |s| == (if n < 0 then 0 else n) && forall i | 0 <= i < |s| :: s[i] == c
  {
    if n <= 0 then [] else seq(n, _ => c)
  }

  function Sign(flags: set<char>, item: Item): string {
    if item.numeric && item.negative then "-"
    else if '+' in flags then "+"
    else if ' ' in flags then " "
    else ""
  }

  /** How much of the data is printed. */
  function Shown(item: Item, precision: int): (n: nat)
    ensures n <= |item.data|
  {
    if 0 <= precision < |item.data| then precision else |item.data|
  }

  function Zeros(sp: Spec, item: Item): nat {
    var len, sign := Shown(item, sp.precision), |Sign(sp.flags, item)|;
    if item.numeric && sp.precision > len then sp.precision - len
    else if '0' in sp.flags && '-' !in sp.flags && item.numeric && sp.precision < 0 && len + sign < sp.width then
      sp.width - len - sign
    else 0
  }

  /** Sign, zeros and data, without padding. */
  function Body(sp: Spec, item: Item): string {
    Sign(sp.flags, item) + Copies('0', Zeros(sp, item)) + item.data[..Shown(item, sp.precision)]
  }

  lemma BodyParts(sp: Spec, item: Item)
    ensures Body(sp, item) ==
            Sign(sp.flags, item) + Copies('0', Zeros(sp, item)) + item.data[..Shown(item, sp.precision)]
  {
  }

  function Layout(sp: Spec, item: Item): string {
    var body := Body(sp, item);
    var pad := Copies(' ', sp.width - |body|);
    if '-' in sp.flags then body + pad else pad + body
  }

  function Glyphs(s: string, color: bv16): (gs: seq<Glyph>)
    ensures |gs| == |s| && forall i | 0 <= i < |s| :: gs[i] == Glyph(s[i], color)
  {
    seq(|s|, i requires 0 <= i < |s| => Glyph(s[i], color))
  }

  function Color(w: uint32): bv16 {
    (w % 0x1_0000) as bv16
  }

  /** What printing `f` from index `i` on puts on the console. */
  function Render(f: string, i: nat, args: seq<Arg>, color: bv16): seq<Glyph>
    requires i <= |f|
    decreases |f| - i
  {
    if i == |f| then []
    else if f[i] != '%' then [Glyph(f[i], color)] + Render(f, i + 1, args, color)
    else
      var sp := ReadSpec(f, i + 1, args);
      var c := At(f, sp.end);
      var left := if TakesArgument(c) then Rest(sp.args) else sp.args;
      var next := if sp.end == |f| then |f| else sp.end + 1;
      if c == 'C' then Render(f, next, left, Color(WordOf(sp.args)))
      else Glyphs(Layout(sp, Convert(c, sp.args, sp.precision)), color) + Render(f, next, left, color)
  }

  // ----- Properties of the layout -----

  /** Every conversion fills exactly the wider of its field and its body. */
  lemma LayoutWidth(sp: Spec, item: Item)
    ensures |Layout(sp, item)| == var n := |Body(sp, item)|; if sp.width > n then sp.width else n
    ensures |Body(sp, item)| == |Sign(sp.flags, item)| + Zeros(sp, item) + Shown(item, sp.precision)
  {
  }

  /** Text without conversions is printed as it is. */
  lemma {:induction false} PlainText(f: string, i: nat, args: seq<Arg>, color: bv16)
    requires i <= |f| && forall j | i <= j < |f| :: f[j] != '%'
    ensures Render(f, i, args, color) == Glyphs(f[i..], color)
    decreases |f| - i
  {
    if i < |f| {
      PlainText(f, i + 1, args, color);
    }
  }

  // ----- Reading numbers back -----

  function StripLeft(s: string): string {
    if s != [] && s[0] == ' ' then StripLeft(s[1..]) else s
  }

  function StripRight(s: string): string {
    if s != [] && s[|s| - 1] == ' ' then StripRight(s[..|s| - 1]) else s
  }

  /** The integer a printed field denotes: blanks around it, an optional sign, digits. */
  function ReadBack(s: string, base: nat): int {
    var t := StripLeft(StripRight(s));
    if t == [] then 0
    else if t[0] == '-' then 0 - Parse(t[1..], base)
    else if t[0] == '+' then Parse(t[1..], base)
    else Parse(t, base)
  }

  lemma {:induction false} StripLeftBlanks(n: nat, t: string)
    requires t != [] && t[0] != ' '
    ensures StripLeft(Copies(' ', n) + t) == t
  {
    if n > 0 {
      assert (Copies(' ', n) + t)[1..] == Copies(' ', n - 1) + t;
      StripLeftBlanks(n - 1, t);
    } else {
      assert Copies(' ', 0) + t == t;
    }
  }

  lemma {:induction false} StripRightBlanks(t: string, n: nat)
    requires t != [] && t[|t| - 1] != ' '
    ensures StripRight(t + Copies(' ', n)) == t
  {
    if n > 0 {
      var s := t + Copies(' ', n);
      assert s[..|s| - 1] == t + Copies(' ', n - 1);
      StripRightBlanks(t, n - 1);
    } else {
      assert t + Copies(' ', 0) == t;
    }
  }

  lemma {:induction false} LeadingZeros(n: nat, t: string, base: nat)
    ensures Parse(Copies('0', n) + t, base) == Parse(t, base)
    decreases |t|, n
  {
    var s := Copies('0', n) + t;
    if t != [] {
      assert s[..|s| - 1] == Copies('0', n) + t[..|t| - 1];
      LeadingZeros(n, t[..|t| - 1], base);
    } else if n > 0 {
      assert s[..|s| - 1] == Copies('0', n - 1) + t;
      LeadingZeros(n - 1, t, base);
    }
  }

  /** Blanks on either side, at most one sign: the field reads as its signed digits. */
  lemma FieldReadsBack(left: nat, sign: string, digits: string, right: nat, base: nat)
    requires sign == "" || sign == "-" || sign == "+" || sign == " "
    requires digits != [] && forall i | 0 <= i < |digits| :: IsNumeralChar(digits[i])
    ensures ReadBack(Copies(' ', left) + (sign + digits) + Copies(' ', right), base) ==
            if sign == "-" then 0 - Parse(digits, base) else Parse(digits, base)
  {
    hide StripLeft;
    hide StripRight;
    hide Parse;
    var body := if sign == " " then digits else sign + digits;
    var lead := if sign == " " then left + 1 else left;
    assert Copies(' ', left) + (sign + digits) == Copies(' ', lead) + body;
    var t := Copies(' ', lead) + body;
    assert body[|body| - 1] == digits[|digits| - 1];
    StripRightBlanks(t, right);
    StripLeftBlanks(lead, body);
    if sign == "-" || sign == "+" {
      assert body[1..] == digits;
    } else {
      assert body == digits;
    }
  }

  lemma LayoutShape(sp: Spec, item: Item) returns (left: nat, right: nat)
    ensures Layout(sp, item) == Copies(' ', left) + Body(sp, item) + Copies(' ', right)
  {
    var n := |Body(sp, item)|;
    var pad: nat := if sp.width > n then sp.width - n else 0;
    if '-' in sp.flags {
      left, right := 0, pad;
    } else {
      left, right := pad, 0;
    }
    assert Copies(' ', sp.width - n) == Copies(' ', pad);
  }

  predicate IsNumeric(c: char) {
    c == 'd' || c == 'u' || c == 'x' || c == 'X'
  }

  function Base(c: char): nat {
    if c == 'x' || c == 'X' then 16 else 10
  }

  /** The argument as the conversion means it. */
  function Meaning(c: char, w: uint32): int {
    if c == 'd' then Signed(w) else w
  }

  /** Without a precision every numeric conversion reads back as its argument, whatever the flags
      and the width: signed for `%d`, including the least integer, unsigned for the others. */
  lemma NumbersReadBack(c: char, sp: Spec, args: seq<Arg>)
    requires IsNumeric(c) && sp.precision < 0
    ensures ReadBack(Layout(sp, Convert(c, args, sp.precision)), Base(c)) == Meaning(c, WordOf(args))
  {
    var item := Convert(c, args, sp.precision);
    ConvertedNumber(c, args, sp.precision);
    hide Convert;
    hide Layout;
    hide Parse;
    var digits := BodyDigits(sp, item, Base(c));
    var left, right := LayoutShape(sp, item);
    FieldReadsBack(left, Sign(sp.flags, item), digits, right, Base(c));
  }

  lemma WholeBody(sp: Spec, item: Item)
    requires sp.precision < 0
    ensures Body(sp, item) == Sign(sp.flags, item) + (Copies('0', Zeros(sp, item)) + item.data)
  {
    hide Zeros;
    assert item.data[..Shown(item, sp.precision)] == item.data;
  }

  /** Without a precision the body of a number is its sign, zeros and all its digits. */
  lemma BodyDigits(sp: Spec, item: Item, base: nat) returns (digits: string)
    requires sp.precision < 0 && item.data != [] && forall i | 0 <= i < |item.data| :: IsNumeralChar(item.data[i])
    ensures Body(sp, item) == Sign(sp.flags, item) + digits
    ensures digits != [] && forall i | 0 <= i < |digits| :: IsNumeralChar(digits[i])
    ensures Parse(digits, base) == Parse(item.data, base)
  {
    hide Zeros;
    hide Body;
    hide Parse;
    hide Sign;
    var z := Zeros(sp, item);
    digits := Copies('0', z) + item.data;
    WholeBody(sp, item);
    LeadingZeros(z, item.data, base);
    forall i | 0 <= i < |digits| ensures IsNumeralChar(digits[i]) {
      assert digits[i] == if i < z then '0' else item.data[i - z];
    }
  }

  /** Without a precision, the data of a numeric conversion is the numeral of its magnitude. */
  lemma ConvertedNumber(c: char, args: seq<Arg>, precision: int)
    requires IsNumeric(c) && precision < 0
    ensures var item := Convert(c, args, precision);
            var w := WordOf(args);
            && item.numeric && (item.negative <==> Meaning(c, w) < 0)
            && item.data != [] && (forall i | 0 <= i < |item.data| :: IsNumeralChar(item.data[i]))
            && Meaning(c, w) == if item.negative then 0 - Parse(item.data, Base(c)) else Parse(item.data, Base(c))
  {
    var w := WordOf(args);
    var v := if c == 'd' then Magnitude(Signed(w)) else w;
    var alphabet := if c == 'x' then LOWER_DIGITS else UPPER_DIGITS;
    ParseNumeral(v, Base(c), alphabet);
    NoLeadingZero(v, Base(c), alphabet);
    hide Numeral;
  }
}
