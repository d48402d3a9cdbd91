/** Conversion specifications read back as they were written. */
module FormatScan {
  import opened KernelTypes
  import opened Numbers
  import opened Formatter

  type Decimal = s: string | forall i | 0 <= i < |s| :: IsDigit(s[i])

  /** A width or a precision as a format can give it.  A precision may have no digits after its point,
      and leading zeros. */
  datatype Count = Absent | Star | Given(digits: Decimal)

  /** A width has digits, and the first one is not zero, which would be a flag. */
  predicate IsWidth(w: Count) {
    w.Given? ==> w.digits != "" && w.digits[0] != '0'
  }

  function WriteWidth(w: Count): string {
    match w
    case Absent => ""
    case Star => "*"
    case Given(digits) => digits
  }

  function WritePrecision(p: Count): string {
    match p
    case Absent => ""
    case Star => ".*"
    case Given(digits) => "." + digits
  }

  /** What stands between `%` and the conversion character. */
  function WriteSpec(flags: string, w: Count, p: Count): string {
    flags + WriteWidth(w) + WritePrecision(p)
  }

  /** The value of a count, and the arguments left after it. */
  function Taken(c: Count, args: seq<Arg>): (int, seq<Arg>) {
    match c
    case Absent => (-1, args)
    case Star => (Signed(WordOf(args)), Rest(args))
    case Given(digits) => (Parse(digits, 10), args)
  }

  function AtLeastZero(p: Count, n: int): int {
    if p.Star? && n < 0 then 0 else n
  }

  function Members(s: string): set<char> {
    set c | c in s
  }

  /** The specification that was meant; `end` is where it ends. */
  function Meant(flags: string, w: Count, p: Count, end: nat, args: seq<Arg>): Spec {
    var (width, left) := Taken(w, args);
    var (precision, left') := Taken(p, left);
    Spec(Members(flags), width, AtLeastZero(p, precision), end, left')
  }

  /** Text `s` stands in `f` at index `i`. */
  ghost predicate Stands(f: string, i: nat, s: string) {
    i + |s| <= |f| && f[i..i + |s|] == s
  }

  lemma StandsSplit(f: string, i: nat, s: string, t: string)
    requires Stands(f, i, s + t)
    ensures Stands(f, i, s) && Stands(f, i + |s|, t)
  {
    assert f[i..i + |s + t|][..|s|] == s && f[i..i + |s + t|][|s|..] == t;
  }

  lemma StandsFirst(f: string, i: nat, s: string)
    requires Stands(f, i, s) && s != ""
    ensures i < |f| && f[i] == s[0] && Stands(f, i + 1, s[1..])
  {
    assert f[i..i + |s|][0] == s[0];
    assert f[i + 1..i + |s|] == s[1..];
  }

  lemma {:induction false} FlagsRead(f: string, i: nat, s: string)
    requires Stands(f, i, s) && (forall c | c in s :: c in FLAG_CHARS)
    requires i + |s| == |f| || f[i + |s|] !in FLAG_CHARS
    ensures Flags(f, i) == (Members(s), i + |s|)
    decreases |s|
  {
    if s != "" {
      StandsFirst(f, i, s);
      FlagsRead(f, i + 1, s[1..]);
      assert Members(s) == Members(s[1..]) + {s[0]};
    } else {
      assert Members(s) == {};
    }
  }

  /** Reading digits from the left, as the loops do. */
  function ReadOn(s: Decimal, n: nat): nat {
    if s == "" then n
    else
      assert IsDigit(s[0]);
      ReadOn(s[1..], 10 * n + (s[0] - '0') as nat)
  }

  lemma {:induction false} ReadOnLast(s: Decimal, n: nat)
    requires s != ""
    ensures ReadOn(s, n) == 10 * ReadOn(s[..|s| - 1], n) + (s[|s| - 1] - '0') as nat
    decreases |s|
  {
    if |s| > 1 {
      ReadOnLast(s[1..], 10 * n + (s[0] - '0') as nat);
      assert s[1..][..|s| - 2] == s[..|s| - 1][1..];
    }
  }

  /** It comes to the same number as reading from the right. */
  lemma {:induction false} ReadOnParses(s: Decimal)
    ensures ReadOn(s, 0) == Parse(s, 10)
    decreases |s|
  {
    if s != "" {
      ReadOnLast(s, 0);
      ReadOnParses(s[..|s| - 1]);
    }
  }

  lemma {:induction false} NumberRead(f: string, i: nat, s: Decimal, n: nat)
    requires Stands(f, i, s)
    requires i + |s| == |f| || !IsDigit(f[i + |s|])
    ensures Number(f, i, n) == (ReadOn(s, n), i + |s|)
    decreases |s|
  {
    if s != "" {
      StandsFirst(f, i, s);
      NumberRead(f, i + 1, s[1..], 10 * n + (s[0] - '0') as nat);
    }
  }

  /** Digits in the format read as their number. */
  lemma DigitsRead(f: string, i: nat, s: Decimal)
    requires Stands(f, i, s) && (i + |s| == |f| || !IsDigit(f[i + |s|]))
    ensures Number(f, i, 0) == (Parse(s, 10), i + |s|)
  {
    NumberRead(f, i, s, 0);
    ReadOnParses(s);
  }

  /** What may follow a specification without going on with it. */
  predicate Closes(w: Count, p: Count, c: char) {
    match p
    case Star => true
    case Given(digits) => !IsDigit(c) && (digits == "" ==> c != '*')
    case Absent =>
      && c != '.'
      && match w
         case Star => true
         case Given(_) => !IsDigit(c)
         case Absent => c !in FLAG_CHARS && !IsDigit(c) && c != '*'
  }

  lemma WidthRead(f: string, i: nat, w: Count, args: seq<Arg>)
    requires Stands(f, i, WriteWidth(w)) && IsWidth(w)
    requires w.Given? ==> !IsDigit(At(f, i + |WriteWidth(w)|))
    requires w.Absent? ==> !IsDigit(At(f, i)) && At(f, i) != '*'
    ensures Width(f, i, args) == Field(Taken(w, args).0, i + |WriteWidth(w)|, Taken(w, args).1)
  {
    match w
    case Absent =>
    case Star => StandsFirst(f, i, "*");
    case Given(digits) =>
      StandsFirst(f, i, digits);
      DigitsRead(f, i, digits);
  }

  lemma PrecisionRead(f: string, i: nat, w: Count, p: Count, args: seq<Arg>)
    requires Stands(f, i, WritePrecision(p)) && Closes(w, p, At(f, i + |WritePrecision(p)|))
    ensures Precision(f, i, args) ==
            Field(AtLeastZero(p, Taken(p, args).0), i + |WritePrecision(p)|, Taken(p, args).1)
  {
    hide Stands;
    hide Number;
    StandsInside(f, i, WritePrecision(p));
    match p
    case Absent =>
    case Star =>
      StandsFirst(f, i, ".*");
      StandsFirst(f, i + 1, "*");
    case Given(digits) =>
      StandsFirst(f, i, WritePrecision(p));
      assert WritePrecision(p)[1..] == digits;
      DigitsRead(f, i + 1, digits);
      if digits != "" {
        StandsFirst(f, i + 1, digits);
        assert IsDigit(digits[0]);
      } else {
        assert !IsDigit(At(f, i + 1)) && At(f, i + 1) != '*';
        assert Parse(digits, 10) == 0;
      }
  }

  lemma StandsInside(f: string, i: nat, s: string)
    requires Stands(f, i, s)
    ensures i + |s| <= |f|
  {
  }

  /** What comes after the flags and after the width. */
  lemma AfterFlags(f: string, i: nat, w: Count, p: Count)
    requires Stands(f, i, WriteWidth(w)) && Stands(f, i + |WriteWidth(w)|, WritePrecision(p)) && IsWidth(w)
    requires Closes(w, p, At(f, i + |WriteWidth(w)| + |WritePrecision(p)|))
    ensures w.Given? ==> !IsDigit(At(f, i + |WriteWidth(w)|))
    ensures w.Absent? ==> !IsDigit(At(f, i)) && At(f, i) != '*'
    ensures i == |f| || f[i] !in FLAG_CHARS
  {
    if p != Absent {
      StandsFirst(f, i + |WriteWidth(w)|, WritePrecision(p));
    }
    match w
    case Absent =>
    case Star => StandsFirst(f, i, "*");
    case Given(digits) => StandsFirst(f, i, digits);
  }

  /** The scanner is a left inverse of writing: any flags in any order, any width and precision, in
      digits or as `*`, in any place of any format, read back as meant, up to the conversion
      character or the end of the format. */
  lemma SpecReadsBack(f: string, i: nat, flags: string, w: Count, p: Count, args: seq<Arg>)
    requires (forall c | c in flags :: c in FLAG_CHARS) && IsWidth(w)
    requires Stands(f, i, WriteSpec(flags, w, p)) && Closes(w, p, At(f, i + |WriteSpec(flags, w, p)|))
    ensures ReadSpec(f, i, args) == Meant(flags, w, p, i + |WriteSpec(flags, w, p)|, args)
  {
    hide Flags;
    hide Width;
    hide Precision;
    hide Taken;
    hide Members;
    hide WriteWidth;
    hide WritePrecision;
    hide Closes;
    SpecParts(f, i, flags, w, p);
    hide Stands;
    AfterFlags(f, i + |flags|, w, p);
    FlagsRead(f, i, flags);
    WidthRead(f, i + |flags|, w, args);
    PrecisionRead(f, i + |flags| + |WriteWidth(w)|, w, p, Taken(w, args).1);
  }

  lemma SpecParts(f: string, i: nat, flags: string, w: Count, p: Count)
    requires Stands(f, i, WriteSpec(flags, w, p))
    ensures Stands(f, i, flags) && Stands(f, i + |flags|, WriteWidth(w))
    ensures Stands(f, i + |flags| + |WriteWidth(w)|, WritePrecision(p))
    ensures i + |flags| + |WriteWidth(w)| + |WritePrecision(p)| == i + |WriteSpec(flags, w, p)| <= |f|
  {
    StandsSplit(f, i, flags + WriteWidth(w), WritePrecision(p));
    StandsSplit(f, i, flags, WriteWidth(w));
  }
}
