/** Whole formats: a format is text and conversions one after the other, and so is what it prints, each
    conversion with the arguments that are its own. */
module FormatPieces {
  import opened KernelTypes
  import opened Numbers
  import opened Console
  import opened Formatter
  import opened FormatScan
  import S = FormatStandard
  import P = Printf

  type Amount = S.Amount

  /** A stretch of text without `%`, a conversion, or a specification that the format ends in. */
  datatype Piece =
    | Plain(s: string)
    | Conversion(flags: string, w: Count, p: Count, c: char)
    | Unfinished(flags: string, w: Count, p: Count)

  predicate AreFlags(flags: string) {
    forall x | x in flags :: x == '#' || x == '0' || x == '-' || x == ' ' || x == '+'
  }

  predicate Proper(piece: Piece) {
    match piece
    case Plain(s) => '%' !in s
    case Conversion(flags, w, p, c) => AreFlags(flags) && IsWidth(w) && Closes(w, p, c) && c != '\0'
    case Unfinished(flags, w, p) => AreFlags(flags) && IsWidth(w)
  }

  predicate AreProper(pieces: seq<Piece>) {
    && (forall k | 0 <= k < |pieces| :: Proper(pieces[k]))
    && (forall k | 0 <= k < |pieces| - 1 :: !pieces[k].Unfinished?)
  }

  function Written(piece: Piece): string {
    match piece
    case Plain(s) => s
    case Conversion(flags, w, p, c) => "%" + WriteSpec(flags, w, p) + [c]
    case Unfinished(flags, w, p) => "%" + WriteSpec(flags, w, p)
  }

  function Whole(pieces: seq<Piece>): string {
    if pieces == [] then "" else Written(pieces[0]) + Whole(pieces[1..])
  }

  // ----- What it prints -----

  function Drop(args: seq<Arg>, n: nat): seq<Arg> {
    if n < |args| then args[n..] else []
  }

  function Stars(w: Count, p: Count): nat {
    (if w.Star? then 1 else 0) + if p.Star? then 1 else 0
  }

  /** The arguments a piece takes: one for each `*`, and one to convert. */
  function Needs(piece: Piece): nat {
    match piece
    case Plain(_) => 0
    case Conversion(_, w, p, c) =>
      Stars(w, p) + if c == 'd' || c == 'u' || c == 'x' || c == 'X' || c == 's' || c == 'c' || c == 'C' then 1 else 0
    case Unfinished(_, w, p) => Stars(w, p)
  }

  /** Data laid out: cut at the precision, after a sign and zeros, in a field of the given width. */
  function Laid(flags: set<char>, w: Amount, p: Amount, numeric: bool, sign: string, data: string): string {
    var precision := if p.Some? && p.n > 0 then p.n else 0;
    var width := if w.Some? then w.n else 0;
    var shown := if p.Some? && precision < |data| then data[..precision] else data;
    var zeros := if !numeric then 0
                 else if p.Some? then precision - |shown|
                 else if '0' in flags && '-' !in flags then width - |sign| - |shown|
                 else 0;
    var body := sign + Copies('0', zeros) + shown;
    var pad := Copies(' ', width - |body|);
    if '-' in flags then body + pad else pad + body
  }

  function PlusSign(flags: set<char>): string {
    if '+' in flags then "+" else if ' ' in flags then " " else ""
  }

  /** A number laid out; zero at precision zero has no digits. */
  function LaidNumber(flags: set<char>, w: Amount, p: Amount, sign: string, n: nat, base: nat, digits: string): string
    requires 2 <= base <= |digits|
  {
    Laid(flags, w, p, true, sign, if n == 0 && p.Some? && p.n <= 0 then "" else Numeral(n, base, digits))
  }

  /** The text of one conversion of the first argument. */
  function Text(flags: set<char>, w: Amount, p: Amount, c: char, args: seq<Arg>): string {
    var word := WordOf(args);
    var sign := PlusSign(flags);
    if c == 'd' && word >= 0x8000_0000 then
      LaidNumber(flags, w, p, "-", 0x1_0000_0000 - word, 10, "0123456789")
    else if c == 'd' || c == 'u' then LaidNumber(flags, w, p, sign, word, 10, "0123456789")
    else if c == 'x' then LaidNumber(flags, w, p, sign, word, 16, "0123456789abcdef")
    else if c == 'X' then LaidNumber(flags, w, p, sign, word, 16, "0123456789ABCDEF")
    else if c == 's' then Laid(flags, w, p, false, sign, TextOf(args))
    else if c == 'c' then Laid(flags, w, p, false, sign, if word % 256 == 0 then "" else [(word % 256) as char])
    else if c == 'C' then ""
    else Laid(flags, w, p, false, sign, [c])
  }

  /** The stars come first, then the argument to convert. */
  function PieceText(piece: Piece, args: seq<Arg>): string {
    if piece.Plain? then piece.s
    else
      var w, p := piece.w, piece.p;
      Text(Members(piece.flags), S.Raw(w, args), S.Raw(p, Drop(args, if w.Star? then 1 else 0)),
           if piece.Conversion? then piece.c else '%', Drop(args, Stars(w, p)))
  }

  /** `%C` sets the colour of everything after it. */
  function ColorAfter(piece: Piece, args: seq<Arg>, color: bv16): bv16 {
    if piece.Conversion? && piece.c == 'C' then (WordOf(Drop(args, Stars(piece.w, piece.p))) % 0x1_0000) as bv16
    else color
  }

  function Output(pieces: seq<Piece>, args: seq<Arg>, color: bv16): seq<Glyph> {
    if pieces == [] then []
    else
      Glyphs(PieceText(pieces[0], args), color)
      + Output(pieces[1..], Drop(args, Needs(pieces[0])), ColorAfter(pieces[0], args, color))
  }

  // ----- One piece -----

  lemma {:induction false} PlainRenders(f: string, i: nat, s: string, args: seq<Arg>, color: bv16)
    requires Stands(f, i, s) && '%' !in s
    ensures i + |s| <= |f| && Render(f, i, args, color) == Glyphs(s, color) + Render(f, i + |s|, args, color)
    decreases |s|
  {
    hide Render;
    if s == "" {
      assert Glyphs(s, color) == [];
    } else {
      StandsFirst(f, i, s);
      assert f[i] == s[0] && s[0] != '%';
      P.RenderPlain(f, i, args, color);
      PlainRenders(f, i + 1, s[1..], args, color);
      assert Glyphs(s, color) == [Glyph(s[0], color)] + Glyphs(s[1..], color);
    }
  }

  lemma DropOne(args: seq<Arg>, n: nat)
    ensures Rest(Drop(args, n)) == Drop(args, n + 1) && Drop(args, 0) == args
  {
  }

  /** The stars take the first arguments. */
  lemma MeantIs(flags: string, w: Count, p: Count, end: nat, args: seq<Arg>)
    ensures var sp := Meant(flags, w, p, end, args);
            && sp.flags == Members(flags) && sp.end == end && sp.args == Drop(args, Stars(w, p))
            && sp.width == S.CodeWidth(S.Raw(w, args))
            && sp.precision == S.CodePrecision(S.Raw(p, Drop(args, if w.Star? then 1 else 0)))
  {
    hide Parse;
    hide Drop;
    DropOne(args, 0);
    DropOne(args, 1);
  }

  lemma SameCopies(c: char, m: int, n: int)
    requires m == n || (m <= 0 && n <= 0)
    ensures Copies(c, m) == Copies(c, n)
  {
  }

  lemma ShownIs(data: string, numeric: bool, negative: bool, p: Amount)
    ensures var item, precision := Item(data, numeric, negative), if p.Some? && p.n > 0 then p.n else 0;
            item.data[..Shown(item, S.CodePrecision(p))] ==
            if p.Some? && precision < |data| then data[..precision] else data
  {
  }

  lemma ZerosAre(sp: Spec, w: Amount, p: Amount, item: Item)
    requires sp.width == S.CodeWidth(w) && sp.precision == S.CodePrecision(p)
    ensures var precision, width := if p.Some? && p.n > 0 then p.n else 0, if w.Some? then w.n else 0;
            var shown := if p.Some? && precision < |item.data| then item.data[..precision] else item.data;
            var sign := Sign(sp.flags, item);
            Copies('0', Zeros(sp, item)) ==
            Copies('0', if !item.numeric then 0
                        else if p.Some? then precision - |shown|
                        else if '0' in sp.flags && '-' !in sp.flags then width - |sign| - |shown|
                        else 0)
  {
    hide Sign;
    hide Copies;
    var precision, width := if p.Some? && p.n > 0 then p.n else 0, if w.Some? then w.n else 0;
    var shown := if p.Some? && precision < |item.data| then item.data[..precision] else item.data;
    var sign := Sign(sp.flags, item);
    SameCopies('0', Zeros(sp, item), if !item.numeric then 0
                                     else if p.Some? then precision - |shown|
                                     else if '0' in sp.flags && '-' !in sp.flags then width - |sign| - |shown|
                                     else 0);
  }

  lemma LaidOut(sp: Spec, w: Amount, p: Amount, item: Item)
    requires sp.width == S.CodeWidth(w) && sp.precision == S.CodePrecision(p)
    ensures Layout(sp, item) == Laid(sp.flags, w, p, item.numeric, Sign(sp.flags, item), item.data)
  {
    hide Sign;
    hide Copies;
    hide Zeros;
    hide Shown;
    ShownIs(item.data, item.numeric, item.negative, p);
    assert Item(item.data, item.numeric, item.negative) == item;
    ZerosAre(sp, w, p, item);
    SameCopies(' ', sp.width - |Body(sp, item)|, (if w.Some? then w.n else 0) - |Body(sp, item)|);
  }

  /** The item of a conversion, laid out. */
  lemma ItemText(flags: set<char>, w: Amount, p: Amount, c: char, end: nat, args: seq<Arg>)
    requires c != '\0' && c != 'C'
    ensures var sp := Spec(flags, S.CodeWidth(w), S.CodePrecision(p), end, args);
            Layout(sp, Convert(c, args, sp.precision)) == Text(flags, w, p, c, args)
  {
    hide Numeral;
    hide Layout;
    hide Laid;
    var sp := Spec(flags, S.CodeWidth(w), S.CodePrecision(p), end, args);
    var item := Convert(c, args, sp.precision);
    LaidOut(sp, w, p, item);
    if c == 'd' || c == 'u' {
      ShortAlphabet(if c == 'd' then Magnitude(Signed(WordOf(args))) else WordOf(args));
    }
  }

  lemma {:induction false} ShortAlphabet(n: nat)
    ensures Numeral(n, 10, UPPER_DIGITS) == Numeral(n, 10, "0123456789")
  {
    if n >= 10 {
      ShortAlphabet(n / 10);
    }
  }

  lemma FlagChars(flags: string)
    requires AreFlags(flags)
    ensures forall x | x in flags :: x in FLAG_CHARS
  {
  }

  /** A specification in its place, read. */
  lemma SpecRead(f: string, i: nat, flags: string, w: Count, p: Count, args: seq<Arg>)
    requires Stands(f, i, "%" + WriteSpec(flags, w, p)) && AreFlags(flags) && IsWidth(w)
    requires Closes(w, p, At(f, i + 1 + |WriteSpec(flags, w, p)|))
    ensures i < |f| && f[i] == '%'
    ensures ReadSpec(f, i + 1, args) == Meant(flags, w, p, i + 1 + |WriteSpec(flags, w, p)|, args)
  {
    hide ReadSpec;
    hide WriteSpec;
    hide Meant;
    hide Closes;
    hide IsWidth;
    var spec := WriteSpec(flags, w, p);
    StandsFirst(f, i, "%" + spec);
    assert ("%" + spec)[1..] == spec;
    FlagChars(flags);
    SpecReadsBack(f, i + 1, flags, w, p, args);
  }

  /** What the definitions say of a conversion. */
  lemma ConversionIs(flags: string, w: Count, p: Count, c: char, args: seq<Arg>, color: bv16)
    ensures var piece, left := Conversion(flags, w, p, c), Drop(args, Stars(w, p));
            && Written(piece) == ("%" + WriteSpec(flags, w, p)) + [c]
            && (Proper(piece) ==> AreFlags(flags) && IsWidth(w) && Closes(w, p, c) && c != '\0')
            && PieceText(piece, args) == Text(Members(flags), S.Raw(w, args),
                 S.Raw(p, Drop(args, if w.Star? then 1 else 0)), c, left)
            && Drop(args, Needs(piece)) == (if TakesArgument(c) then Rest(left) else left)
            && ColorAfter(piece, args, color) == if c == 'C' then Color(WordOf(left)) else color
  {
    hide WriteSpec;
    hide Closes;
    hide IsWidth;
    hide AreFlags;
    hide Text;
    hide Members;
    hide WordOf;
    hide Drop;
    DropOne(args, Stars(w, p));
  }

  lemma ConversionRead(f: string, i: nat, flags: string, w: Count, p: Count, c: char, args: seq<Arg>)
    requires Stands(f, i, ("%" + WriteSpec(flags, w, p)) + [c])
    requires AreFlags(flags) && IsWidth(w) && Closes(w, p, c)
    ensures var end := i + 1 + |WriteSpec(flags, w, p)|;
            && i < |f| && f[i] == '%' && end < |f| && At(f, end) == f[end] == c
            && ReadSpec(f, i + 1, args) == Meant(flags, w, p, end, args)
  {
    hide ReadSpec;
    hide WriteSpec;
    hide Meant;
    hide Closes;
    hide IsWidth;
    hide AreFlags;
    var spec := WriteSpec(flags, w, p);
    StandsSplit(f, i, "%" + spec, [c]);
    StandsFirst(f, i + 1 + |spec|, [c]);
    SpecRead(f, i, flags, w, p, args);
  }

  lemma SpecIs(sp: Spec)
    ensures sp == Spec(sp.flags, sp.width, sp.precision, sp.end, sp.args)
  {
  }

  lemma ConversionRenders(f: string, i: nat, piece: Piece, args: seq<Arg>, color: bv16)
    requires piece.Conversion? && Proper(piece) && Stands(f, i, Written(piece))
    ensures i + |Written(piece)| <= |f|
    ensures Render(f, i, args, color) ==
            Glyphs(PieceText(piece, args), color)
            + Render(f, i + |Written(piece)|, Drop(args, Needs(piece)), ColorAfter(piece, args, color))
  {
    hide *;
    var Conversion(flags, w, p, c) := piece;
    ConversionIs(flags, w, p, c, args, color);
    ConversionRead(f, i, flags, w, p, c, args);
    var end := i + 1 + |WriteSpec(flags, w, p)|;
    var sp := Meant(flags, w, p, end, args);
    MeantIs(flags, w, p, end, args);
    SpecIs(sp);
    P.RenderConversion(f, i, args, color, sp);
    if c == 'C' {
      NoText(flags, w, p, args, color);
      TakesColor();
    } else {
      ItemText(sp.flags, S.Raw(w, args), S.Raw(p, Drop(args, if w.Star? then 1 else 0)), c, end, sp.args);
    }
  }

  lemma TakesColor()
    ensures TakesArgument('C')
  {
  }

  lemma NoText(flags: string, w: Count, p: Count, args: seq<Arg>, color: bv16)
    ensures PieceText(Conversion(flags, w, p, 'C'), args) == ""
    ensures Glyphs(PieceText(Conversion(flags, w, p, 'C'), args), color) == []
  {
    hide Laid;
    hide LaidNumber;
  }

  lemma UnfinishedIs(flags: string, w: Count, p: Count, args: seq<Arg>)
    ensures var piece, left := Unfinished(flags, w, p), Drop(args, Stars(w, p));
            && Written(piece) == "%" + WriteSpec(flags, w, p)
            && (Proper(piece) ==> AreFlags(flags) && IsWidth(w))
            && PieceText(piece, args) == Text(Members(flags), S.Raw(w, args),
                 S.Raw(p, Drop(args, if w.Star? then 1 else 0)), '%', left)
  {
    hide WriteSpec;
    hide IsWidth;
    hide AreFlags;
    hide Text;
    hide Members;
    hide Drop;
  }

  lemma Terminator(f: string)
    ensures At(f, |f|) == '\0' && !TakesArgument('\0')
  {
  }

  lemma UnfinishedRenders(f: string, i: nat, piece: Piece, args: seq<Arg>, color: bv16)
    requires piece.Unfinished? && Proper(piece) && Stands(f, i, Written(piece)) && i + |Written(piece)| == |f|
    ensures Render(f, i, args, color) == Glyphs(PieceText(piece, args), color)
  {
    hide *;
    var Unfinished(flags, w, p) := piece;
    UnfinishedIs(flags, w, p, args);
    EndCloses(w, p);
    Terminator(f);
    SpecRead(f, i, flags, w, p, args);
    MeantIs(flags, w, p, |f|, args);
    var sp := Meant(flags, w, p, |f|, args);
    SpecIs(sp);
    P.RenderConversion(f, i, args, color, sp);
    P.RenderEnd(f, sp.args, color);
    PercentAtEnd(sp.args, sp.precision);
    ItemText(sp.flags, S.Raw(w, args), S.Raw(p, Drop(args, if w.Star? then 1 else 0)), '%', |f|, sp.args);
  }

  lemma EndCloses(w: Count, p: Count)
    ensures Closes(w, p, '\0')
  {
  }

  lemma PercentAtEnd(args: seq<Arg>, precision: int)
    ensures Convert('\0', args, precision) == Convert('%', args, precision)
  {
  }

  // ----- Whole formats -----

  /** What a format prints is what its pieces print, each with its own arguments. */
  lemma {:induction false} PiecesRender(f: string, i: nat, pieces: seq<Piece>, args: seq<Arg>, color: bv16)
    requires AreProper(pieces) && Stands(f, i, Whole(pieces)) && i + |Whole(pieces)| == |f|
    ensures Render(f, i, args, color) == Output(pieces, args, color)
    decreases |pieces|
  {
    hide Render;
    hide Written;
    hide PieceText;
    hide ColorAfter;
    hide Needs;
    hide Glyphs;
    hide Proper;
    hide Drop;
    if pieces == [] {
      P.RenderEnd(f, args, color);
    } else {
      var piece, more := pieces[0], pieces[1..];
      StandsSplit(f, i, Written(piece), Whole(more));
      if piece.Unfinished? {
        assert more == [];
        UnfinishedRenders(f, i, piece, args, color);
      } else {
        PiecesRender(f, i + |Written(piece)|, more, Drop(args, Needs(piece)), ColorAfter(piece, args, color));
        if piece.Plain? {
          PlainPiece(piece, args, color);
          PlainRenders(f, i, piece.s, args, color);
        } else {
          ConversionRenders(f, i, piece, args, color);
        }
      }
    }
  }

  lemma PlainPiece(piece: Piece, args: seq<Arg>, color: bv16)
    requires piece.Plain?
    ensures Written(piece) == PieceText(piece, args) == piece.s && Drop(args, Needs(piece)) == args
    ensures ColorAfter(piece, args, color) == color && (Proper(piece) ==> '%' !in piece.s)
  {
  }

  /** Whole formats. */
  lemma FormatRenders(pieces: seq<Piece>, args: seq<Arg>, color: bv16)
    requires AreProper(pieces)
    ensures Render(Whole(pieces), 0, args, color) == Output(pieces, args, color)
  {
    hide *;
    var f := Whole(pieces);
    WholeStands(f);
    PiecesRender(f, 0, pieces, args, color);
  }

  lemma WholeStands(f: string)
    ensures Stands(f, 0, f)
  {
    assert f[0..0 + |f|] == f;
  }

  // ----- Every format -----

  lemma FlagRun(t: string) returns (n: nat)
    ensures n <= |t| && AreFlags(t[..n]) && (n < |t| ==> t[n] !in FLAG_CHARS)
  {
    n := 0;
    while n < |t| && t[n] in FLAG_CHARS
      invariant n <= |t| && AreFlags(t[..n])
    {
      assert t[..n + 1] == t[..n] + [t[n]];
      n := n + 1;
    }
  }

  lemma DigitRun(t: string) returns (n: nat)
    ensures n <= |t| && (forall i | 0 <= i < n :: IsDigit(t[i])) && (n < |t| ==> !IsDigit(t[n]))
  {
    n := 0;
    while n < |t| && IsDigit(t[n])
      invariant n <= |t| && forall i | 0 <= i < n :: IsDigit(t[i])
    {
      n := n + 1;
    }
  }

  /** The width at the start of `t`, which is not a flag, and the rest. */
  lemma WidthRun(t: string) returns (w: Count, rest: string)
    requires t == "" || t[0] !in FLAG_CHARS
    ensures IsWidth(w) && WriteWidth(w) + rest == t
    ensures rest != "" ==>
            match w
            case Star => true
            case Given(_) => !IsDigit(rest[0])
            case Absent => rest[0] !in FLAG_CHARS && !IsDigit(rest[0]) && rest[0] != '*'
  {
    if t != "" && t[0] == '*' {
      w, rest := Star, t[1..];
    } else {
      var n := DigitRun(t);
      w, rest := if n > 0 then Given(t[..n]) else Absent, t[n..];
    }
  }

  lemma PrecisionRun(t: string) returns (p: Count, rest: string)
    ensures WritePrecision(p) + rest == t && (p.Absent? ==> rest == t)
    ensures rest != "" ==>
            match p
            case Star => true
            case Given(digits) => !IsDigit(rest[0]) && (digits == "" ==> rest[0] != '*')
            case Absent => rest[0] != '.'
  {
    if t == "" || t[0] != '.' {
      p, rest := Absent, t;
    } else if |t| > 1 && t[1] == '*' {
      p, rest := Star, t[2..];
    } else {
      var n := DigitRun(t[1..]);
      p, rest := Given(t[1..][..n]), t[1 + n..];
      assert "." + t[1..][..n] + rest == t;
    }
  }

  /** The specification at the start of `t`, and the rest. */
  lemma FirstSpec(t: string) returns (flags: string, w: Count, p: Count, rest: string)
    ensures AreFlags(flags) && IsWidth(w) && WriteSpec(flags, w, p) + rest == t
    ensures rest != "" ==> Closes(w, p, rest[0])
  {
    hide WriteWidth;
    hide WritePrecision;
    hide AreFlags;
    var n := FlagRun(t);
    var rest0;
    w, rest0 := WidthRun(t[n..]);
    p, rest := PrecisionRun(rest0);
    flags := t[..n];
    assert flags + WriteWidth(w) + WritePrecision(p) + rest == flags + (WriteWidth(w) + (WritePrecision(p) + rest));
  }

  /** The first piece of a format, and the rest. */
  lemma FirstPiece(f: string) returns (piece: Piece, rest: string)
    requires f != "" && P.IsString(f)
    ensures Proper(piece) && Written(piece) + rest == f && |rest| < |f|
    ensures (piece.Unfinished? ==> rest == "") && P.IsString(rest)
  {
    hide WriteSpec;
    hide Closes;
    hide AreFlags;
    hide IsWidth;
    if f[0] != '%' {
      piece, rest := Plain(f[..1]), f[1..];
    } else {
      var flags, w, p, more := FirstSpec(f[1..]);
      assert f == "%" + f[1..];
      if more == "" {
        piece, rest := Unfinished(flags, w, p), "";
        assert WriteSpec(flags, w, p) + more == WriteSpec(flags, w, p);
      } else {
        piece, rest := Conversion(flags, w, p, more[0]), more[1..];
        Regroup("%", WriteSpec(flags, w, p), more);
        assert more[0] in f;
      }
    }
    assert forall x | x in rest :: x in f;
  }

  lemma Regroup(a: string, b: string, c: string)
    requires c != ""
    ensures a + b + [c[0]] + c[1..] == a + (b + c)
    ensures forall x | x in c :: x in a + (b + c)
  {
  }

  /** Every format consists of pieces. */
  lemma {:induction false} InPieces(f: string) returns (pieces: seq<Piece>)
    requires P.IsString(f)
    ensures AreProper(pieces) && Whole(pieces) == f && (f == "" ==> pieces == [])
    decreases |f|
  {
    pieces := [];
    if f != "" {
      var piece, rest := FirstPiece(f);
      hide Proper;
      hide Written;
      var more := InPieces(rest);
      pieces := [piece] + more;
      assert pieces[1..] == more;
    }
  }

  // ----- Consequences -----

  /** The text of a number is what the standard asks for exactly when `Agrees` holds. */
  lemma NumberTextIff(flags: set<char>, w: Amount, p: Amount, c: char, args: seq<Arg>)
    requires IsNumeric(c)
    ensures var word := WordOf(args);
            Text(flags, w, p, c, args) == S.Standard(S.AskedFor(c, flags, word), flags, w, p) <==>
            S.Agrees(c, flags, w, p, word)
  {
    hide Text;
    hide Layout;
    hide Convert;
    hide S.Standard;
    hide S.AskedFor;
    hide S.Agrees;
    var sp := Spec(flags, S.CodeWidth(w), S.CodePrecision(p), 0, args);
    ItemText(flags, w, p, c, 0, args);
    S.ConvertWord(c, args, sp.precision);
    S.LayoutMatchesIff(c, sp, w, p, WordOf(args));
  }

  lemma TwoPieces(a: Piece, b: Piece)
    ensures Whole([a, b]) == Written(a) + Written(b)
  {
    hide Written;
    assert [a, b][1..] == [b] && [b][1..] == [];
    assert Whole([b]) == Written(b) + "";
  }

  lemma TwoOutputs(a: Piece, b: Piece, args: seq<Arg>, color: bv16)
    ensures Output([a, b], args, color) ==
            Glyphs(PieceText(a, args), color) + Glyphs(PieceText(b, Drop(args, Needs(a))), ColorAfter(a, args, color))
  {
    hide PieceText;
    hide Glyphs;
    hide ColorAfter;
    hide Drop;
    hide Needs;
    var left, color' := Drop(args, Needs(a)), ColorAfter(a, args, color);
    assert [a, b][1..] == [b] && [b][1..] == [];
    assert Output([b], left, color') == Glyphs(PieceText(b, left), color') + [];
  }

  lemma DigitLaid(digit: string)
    requires |digit| == 1
    ensures Laid({}, S.None, S.None, true, "", digit) == digit
  {
    assert Copies('0', 0) == "" && Copies(' ', -1) == "";
  }

  lemma DigitText(n: uint32, args: seq<Arg>)
    requires n < 10 && WordOf(args) == n
    ensures Text({}, S.None, S.None, 'd', args) == ["0123456789"[n]]
  {
    hide Laid;
    DigitLaid(["0123456789"[n]]);
  }

  lemma OneDigit(n: uint32, more: seq<Arg>)
    requires n < 10
    ensures var d, args := Conversion("", Absent, Absent, 'd'), [Word(n)] + more;
            && Proper(d) && Written(d) == "%d" && PieceText(d, args) == ["0123456789"[n]]
            && Drop(args, Needs(d)) == more
  {
    hide Text;
    hide Numeral;
    var args := [Word(n)] + more;
    DigitText(n, args);
    assert Members("") == {} && Drop(args, 0) == args;
  }

  /** Each conversion takes its own argument: `%d%d` with 1 and 2 prints `12`. */
  lemma TwoNumbers(color: bv16)
    ensures Render("%d%d", 0, [Word(1), Word(2)], color) == [Glyph('1', color), Glyph('2', color)]
  {
    hide *;
    var d, args := Conversion("", Absent, Absent, 'd'), [Word(1), Word(2)];
    OneDigit(1, [Word(2)]);
    OneDigit(2, []);
    assert args == [Word(1)] + [Word(2)] && [Word(2)] == [Word(2)] + [];
    TwoRendered(d, d, args, color);
    SameColor(d, args, color);
    assert Glyphs("1", color) + Glyphs("2", color) == [Glyph('1', color), Glyph('2', color)];
    assert "%d" + "%d" == "%d%d";
  }

  lemma SameColor(piece: Piece, args: seq<Arg>, color: bv16)
    requires piece.Conversion? ==> piece.c != 'C'
    ensures ColorAfter(piece, args, color) == color
  {
  }

  /** A format of two pieces. */
  lemma TwoRendered(a: Piece, b: Piece, args: seq<Arg>, color: bv16)
    requires Proper(a) && Proper(b) && !a.Unfinished?
    ensures Render(Written(a) + Written(b), 0, args, color) ==
            Glyphs(PieceText(a, args), color) + Glyphs(PieceText(b, Drop(args, Needs(a))), ColorAfter(a, args, color))
  {
    hide *;
    TwoPieces(a, b);
    TwoOutputs(a, b, args, color);
    BothProper(a, b);
    FormatRenders([a, b], args, color);
  }

  lemma BothProper(a: Piece, b: Piece)
    requires Proper(a) && Proper(b) && !a.Unfinished?
    ensures AreProper([a, b])
  {
    hide Proper;
  }

  /** A colour holds from there on: `%Cx` prints the `x` in the colour that was given. */
  lemma ColorHolds(color: bv16)
    ensures Render("%Cx", 0, [Word(0x100)], color) == [Glyph('x', 0x100)]
  {
    hide *;
    var colored, x, args := Conversion("", Absent, Absent, 'C'), Plain("x"), [Word(0x100)];
    ColorPiece(args, color);
    TwoRendered(colored, x, args, color);
    assert Glyphs("", color) + Glyphs("x", 0x100) == [Glyph('x', 0x100)];
    assert "%C" + "x" == "%Cx";
  }

  lemma ColorPiece(args: seq<Arg>, color: bv16)
    requires args == [Word(0x100)]
    ensures var colored, x := Conversion("", Absent, Absent, 'C'), Plain("x");
            && Proper(colored) && Proper(x) && Written(colored) == "%C" && Written(x) == "x"
            && PieceText(colored, args) == "" && ColorAfter(colored, args, color) == 0x100
            && PieceText(x, Drop(args, Needs(colored))) == "x"
  {
    hide Text;
    hide Parse;
    NoText("", Absent, Absent, args, 0);
    assert Drop(args, 0) == args;
  }
}
