/** The loops of `console_vprintf`, writing to the console buffer what `Render` specifies. */
module Printf {
  import opened KernelTypes
  import opened Numbers
  import opened Console
  import opened Formatter

  /** A C string: no terminator inside. */
  predicate IsString(s: string) {
    '\0' !in s
  }

  /** `strnlen`. */
  method Strnlen(s: string, maxlen: nat) returns (n: nat)
    ensures n == if |s| < maxlen then |s| else maxlen
  {
    n := 0;
    while n != maxlen && n != |s|
      invariant n <= maxlen && n <= |s|
      decreases |s| - n
    {
      n := n + 1;
    }
  }

  /** The flag loop, with its search through the flag characters. */
  method ScanFlags(f: string, i: nat) returns (flags: set<char>, end: nat)
    requires i <= |f|
    ensures (flags, end) == Flags(f, i)
  {
    flags, end := {}, i;
    while end < |f|
      invariant i <= end <= |f|
      invariant Flags(f, i).0 == flags + Flags(f, end).0
      invariant Flags(f, i).1 == Flags(f, end).1
      decreases |f| - end
    {
      ghost var more := Flags(f, end + 1).0;
      var flagc := 0;
      while flagc < |FLAG_CHARS| && FLAG_CHARS[flagc] != f[end]
        invariant flagc <= |FLAG_CHARS| && f[end] !in FLAG_CHARS[..flagc]
      {
        flagc := flagc + 1;
      }
      if flagc == |FLAG_CHARS| {
        assert FLAG_CHARS[..flagc] == FLAG_CHARS;
        break;
      }
      assert f[end] in FLAG_CHARS;
      assert flags + (more + {f[end]}) == (flags + {f[end]}) + more;
      flags := flags + {FLAG_CHARS[flagc]};
      end := end + 1;
    }
  }

  /** The digit loops of the width and the precision. */
  method ScanNumber(f: string, i: nat) returns (n: nat, end: nat)
    requires i <= |f|
    ensures (n, end) == Number(f, i, 0)
  {
    n, end := 0, i;
    while IsDigit(At(f, end))
      invariant i <= end <= |f|
      invariant Number(f, i, 0) == Number(f, end, n)
      decreases |f| - end
    {
      n := 10 * n + (f[end] - '0') as nat;
      end := end + 1;
    }
  }

  method ScanSpec(f: string, i: nat, args: seq<Arg>) returns (sp: Spec)
    requires i <= |f|
    ensures sp == ReadSpec(f, i, args)
  {
    var flags, at := ScanFlags(f, i);
    var left := args;
    var width := -1;
    if IsDigit(At(f, at)) && At(f, at) != '0' {
      width, at := ScanNumber(f, at);
    } else if At(f, at) == '*' {
      width := Signed(WordOf(left));
      left := Rest(left);
      at := at + 1;
    }
    var precision := -1;
    if At(f, at) == '.' {
      at := at + 1;
      if IsDigit(At(f, at)) {
        precision, at := ScanNumber(f, at);
      } else if At(f, at) == '*' {
        precision := Signed(WordOf(left));
        left := Rest(left);
        at := at + 1;
      }
      if precision < 0 {
        precision := 0;
      }
    }
    sp := Spec(flags, width, precision, at, left);
  }

  /** The conversion switch: numbers and characters go through the 20-byte buffer. */
  method Fetch(c: char, args: seq<Arg>, precision: int) returns (item: Item)
    ensures item == Convert(c, args, precision)
  {
    var numbuf := new char[NUMBUFSIZ];
    if IsNumeric(c) {
      var w := WordOf(args);
      var negative := false;
      var start;
      if c == 'd' {
        var x := Signed(w);
        start := FillNumbuf(numbuf, NUMBUFSIZ, Magnitude(x), 10, UPPER_DIGITS, precision);
        negative := x < 0;
      } else if c == 'u' {
        start := FillNumbuf(numbuf, NUMBUFSIZ, w, 10, UPPER_DIGITS, precision);
      } else if c == 'x' {
        start := FillNumbuf(numbuf, NUMBUFSIZ, w, 16, LOWER_DIGITS, precision);
      } else {
        start := FillNumbuf(numbuf, NUMBUFSIZ, w, 16, UPPER_DIGITS, precision);
      }
      item := Item(numbuf[start..NUMBUFSIZ - 1], true, negative);
    } else if c == 's' {
      item := Item(TextOf(args), false, false);
    } else {
      if c == 'c' {
        numbuf[0] := (WordOf(args) % 256) as char;
      } else {
        numbuf[0] := if c == '\0' then '%' else c;
      }
      numbuf[1] := '\0';
      item := Item(if numbuf[0] == '\0' then [] else [numbuf[0]], false, false);
    }
  }

  /** A padding loop. */
  method PutCopies(buf: array<bv16>, ghost before: seq<bv16>, ghost pos: nat, ghost gs: seq<Glyph>, cursor: nat,
                   c: char, n: int, color: bv16)
    returns (cursor': nat)
    requires buf.Length == CELLS && cursor <= CELLS && Shows(before, pos, gs, buf[..], cursor)
    modifies buf
    ensures cursor' <= CELLS && Shows(before, pos, gs + Glyphs(Copies(c, n), color), buf[..], cursor')
  {
    hide Shows;
    cursor' := cursor;
    var left := n;
    ghost var done := gs;
    assert gs + Glyphs(Copies(c, 0), color) == gs;
    while left > 0
      invariant cursor' <= CELLS && Shows(before, pos, done, buf[..], cursor')
      invariant n > 0 ==> 0 <= left <= n
      invariant n <= 0 ==> left == n
      invariant done == gs + Glyphs(Copies(c, if n > 0 then n - left else 0), color)
    {
      cursor' := PutNext(buf, before, pos, done, cursor', Glyph(c, color));
      done := done + [Glyph(c, color)];
      left := left - 1;
      assert done == gs + Glyphs(Copies(c, n - left), color);
    }
  }

  /** The data loop. */
  method PutText(buf: array<bv16>, ghost before: seq<bv16>, ghost pos: nat, ghost gs: seq<Glyph>, cursor: nat,
                 s: string, color: bv16)
    returns (cursor': nat)
    requires buf.Length == CELLS && cursor <= CELLS && Shows(before, pos, gs, buf[..], cursor)
    modifies buf
    ensures cursor' <= CELLS && Shows(before, pos, gs + Glyphs(s, color), buf[..], cursor')
  {
    hide Shows;
    cursor' := cursor;
    var i := 0;
    ghost var done := gs;
    assert gs + Glyphs(s[..0], color) == gs;
    while i < |s|
      invariant i <= |s| && cursor' <= CELLS && Shows(before, pos, done, buf[..], cursor')
      invariant done == gs + Glyphs(s[..i], color)
    {
      cursor' := PutNext(buf, before, pos, done, cursor', Glyph(s[i], color));
      done := done + [Glyph(s[i], color)];
      i := i + 1;
      assert done == gs + Glyphs(s[..i], color);
    }
    assert s[..i] == s;
  }

  /** The part of `console_vprintf` after the switch: lengths, sign, zeros, and the four output
      loops. */
  method PutItem(buf: array<bv16>, ghost before: seq<bv16>, ghost pos: nat, ghost gs: seq<Glyph>, cursor: nat,
                 sp: Spec, item: Item, color: bv16)
    returns (cursor': nat)
    requires buf.Length == CELLS && cursor <= CELLS && Shows(before, pos, gs, buf[..], cursor)
    modifies buf
    ensures cursor' <= CELLS && Shows(before, pos, gs + Glyphs(Layout(sp, item), color), buf[..], cursor')
  {
    hide Shows;
    hide Layout;
    hide Body;
    hide Glyphs;
    hide Copies;
    BodyParts(sp, item);
    var len := |item.data|;
    if sp.precision >= 0 {
      len := Strnlen(item.data, sp.precision);
    }
    var sign := if item.numeric && item.negative then "-"
                else if '+' in sp.flags then "+"
                else if ' ' in sp.flags then " "
                else "";
    var zeros := 0;
    if item.numeric && sp.precision > len {
      zeros := sp.precision - len;
    } else if '0' in sp.flags && '-' !in sp.flags && item.numeric && sp.precision < 0 && len + |sign| < sp.width {
      zeros := sp.width - len - |sign|;
    }
    var width := sp.width - (len + zeros + |sign|);
    var front := if '-' in sp.flags then 0 else width;
    var back := if '-' in sp.flags then width else 0;
    assert sign == Sign(sp.flags, item) && zeros == Zeros(sp, item) && len == Shown(item, sp.precision);
    ghost var g1 := gs + Glyphs(Copies(' ', front), color);
    ghost var g2 := g1 + Glyphs(sign, color);
    ghost var g3 := g2 + Glyphs(Copies('0', zeros), color);
    ghost var g4 := g3 + Glyphs(item.data[..len], color);
    cursor' := PutCopies(buf, before, pos, gs, cursor, ' ', front, color);
    cursor' := PutText(buf, before, pos, g1, cursor', sign, color);
    cursor' := PutCopies(buf, before, pos, g2, cursor', '0', zeros, color);
    cursor' := PutText(buf, before, pos, g3, cursor', item.data[..len], color);
    cursor' := PutCopies(buf, before, pos, g4, cursor', ' ', back, color);
    LayoutText(sp, item, front, back);
    FiveParts(gs, Copies(' ', front), sign, Copies('0', zeros), item.data[..len], Copies(' ', back), color);
  }

  /** The padding goes to one side of the body. */
  lemma LayoutText(sp: Spec, item: Item, front: int, back: int)
    requires var pad := sp.width - |Body(sp, item)|;
             if '-' in sp.flags then front == 0 && back == pad else front == pad && back == 0
    ensures Layout(sp, item) == Copies(' ', front) + Body(sp, item) + Copies(' ', back)
  {
  }

  lemma FiveParts(gs: seq<Glyph>, a: string, b: string, c: string, d: string, e: string, color: bv16)
    ensures gs + Glyphs(a, color) + Glyphs(b, color) + Glyphs(c, color) + Glyphs(d, color) + Glyphs(e, color)
            == gs + Glyphs(a + (b + c + d) + e, color)
  {
  }

  /** One turn of the main loop on `%`: the conversion read at `i`, and where it leaves the
      format, the arguments and the colour. */
  lemma RenderConversion(f: string, i: nat, args: seq<Arg>, color: bv16, sp: Spec)
    requires i < |f| && f[i] == '%' && sp == ReadSpec(f, i + 1, args)
    ensures var c := At(f, sp.end);
            var next := if sp.end == |f| then |f| else sp.end + 1;
            Render(f, i, args, color) ==
            if c == 'C' then Render(f, next, Rest(sp.args), Color(WordOf(sp.args)))
            else Glyphs(Layout(sp, Convert(c, sp.args, sp.precision)), color)
                 + Render(f, next, if TakesArgument(c) then Rest(sp.args) else sp.args, color)
  {
    hide ReadSpec;
    hide Layout;
    hide Convert;
    hide Glyphs;
    hide Rest;
    hide WordOf;
    hide Color;
  }

  lemma RenderPlain(f: string, i: nat, args: seq<Arg>, color: bv16)
    requires i < |f| && f[i] != '%'
    ensures Render(f, i, args, color) == [Glyph(f[i], color)] + Render(f, i + 1, args, color)
  {
  }

  lemma RenderEnd(f: string, args: seq<Arg>, color: bv16)
    ensures Render(f, |f|, args, color) == []
  {
  }

  lemma ShowsNothing(before: seq<bv16>, pos: nat)
    requires |before| == CELLS
    ensures Shows(before, pos, [], before, pos)
  {
  }

  lemma Reassociate(a: seq<Glyph>, b: seq<Glyph>, c: seq<Glyph>)
    ensures a + (b + c) == (a + b) + c
  {
  }

  /** `console_vprintf`: the console ends up showing exactly the rendered glyphs, and the format is
      never read beyond its terminator. */
  method ConsoleVprintf(buf: array<bv16>, cursor: nat, color0: bv16, f: string, args: seq<Arg>) returns (cursor': nat)
    requires buf.Length == CELLS && cursor <= CELLS
    requires IsString(f) && forall a | a in args && a.Text? :: IsString(a.s)
    modifies buf
    ensures cursor' <= CELLS && Shows(old(buf[..]), cursor, Render(f, 0, args, color0), buf[..], cursor')
  {
    hide Shows;
    hide Render;
    ghost var before := buf[..];
    ghost var done: seq<Glyph> := [];
    var i, left, color := 0, args, color0;
    cursor' := cursor;
    ShowsNothing(before, cursor);
    while At(f, i) != '\0'
      invariant i <= |f| && cursor' <= CELLS && Shows(before, cursor, done, buf[..], cursor')
      invariant done + Render(f, i, left, color) == Render(f, 0, args, color0)
      decreases |f| - i
    {
      ghost var gs: seq<Glyph>;
      if f[i] != '%' {
        RenderPlain(f, i, left, color);
        gs := [Glyph(f[i], color)];
        cursor' := PutNext(buf, before, cursor, done, cursor', Glyph(f[i], color));
        i := i + 1;
      } else {
        var sp := ScanSpec(f, i + 1, left);
        var c := At(f, sp.end);
        RenderConversion(f, i, left, color, sp);
        if c == 'C' {
          gs := [];
          assert done + gs == done;
          color := Color(WordOf(sp.args));
          left := Rest(sp.args);
        } else {
          var item := Fetch(c, sp.args, sp.precision);
          gs := Glyphs(Layout(sp, item), color);
          cursor' := PutItem(buf, before, cursor, done, cursor', sp, item, color);
          left := if TakesArgument(c) then Rest(sp.args) else sp.args;
        }
        i := if sp.end == |f| then |f| else sp.end + 1;
      }
      Reassociate(done, gs, Render(f, i, left, color));
      done := done + gs;
    }
    assert i == |f|;
    RenderEnd(f, left, color);
    assert done + [] == done;
  }
}
