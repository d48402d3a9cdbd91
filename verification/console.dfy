/** The console of lib.c: `console_putc` on the 80x25 cell buffer, against a ring into which an
    unbounded stream of cells is written. */
module Console {
  import opened KernelTypes

  /** A character with the colour it is printed in. */
  datatype Glyph = Glyph(c: char, color: bv16)

  /** The cell `c | color`. */
  function Cell(c: char, color: bv16): bv16 {
    (((c as int) % 256) as bv16) | color
  }

  /** Blanks from column `pos % 80` to the end of the row. */
  function RowRest(pos: nat): nat {
    80 - pos % 80
  }

  /** What a glyph adds to the cell stream when the stream has reached position `pos`: a newline
      fills the rest of its row. */
  function Expand(pos: nat, g: Glyph): (cells: seq<bv16>)
    ensures |cells| >= 1
  {
    if g.c == '\n' then Blanks(RowRest(pos), Cell(' ', g.color)) else [Cell(g.c, g.color)]
  }

  /** The cell stream of a sequence of glyphs. */
  function Stream(pos: nat, gs: seq<Glyph>): seq<bv16> {
    if gs == [] then []
    else
      var init := Stream(pos, gs[..|gs| - 1]);
      init + Expand(pos + |init|, gs[|gs| - 1])
  }

  /** The cell of the buffer that position `pos + k` of the stream goes to. */
  function Index(pos: nat, k: nat): (i: nat)
    ensures i < CELLS
  {
    (pos + k) % 2000
  }

  /** The buffer after stream `s` is written into it from position `pos` on, round and round. */
  function Ring(cells: seq<bv16>, pos: nat, s: seq<bv16>): (r: seq<bv16>)
    requires |cells| == CELLS
    ensures |r| == CELLS
  {
    if s == [] then cells
    else
      var last := |s| - 1;
      Ring(cells, pos, s[..last])[Index(pos, last) := s[last]]
  }

  /** Where the cursor is left: just past the last cell written, at the end of the buffer rather
      than its beginning. */
  function Cursor(pos: nat, n: nat): nat {
    if n == 0 then pos else Index(pos, n - 1) + 1
  }

  /** Two stream positions share a cell only if they are at least a screen apart. */
  lemma IndexApart(pos: nat, k: nat, l: nat)
    requires k < l && Index(pos, k) == Index(pos, l)
    ensures l - k >= CELLS
  {
  }

  /** Every cell is the target of some position among any 2000 consecutive ones. */
  lemma IndexHit(pos: nat, from: nat, i: nat) returns (k: nat)
    requires i < CELLS
    ensures from <= k < from + CELLS && Index(pos, k) == i
  {
    var here := Index(pos, from);
    k := if here <= i then from + (i - here) else from + (i + 2000 - here);
  }

  /** Cell `i` shows the last element of the stream whose position is `i` modulo 2000. */
  lemma {:induction false} RingShowsLast(cells: seq<bv16>, pos: nat, s: seq<bv16>, k: nat)
    requires |cells| == CELLS && k < |s| <= k + CELLS
    ensures Ring(cells, pos, s)[Index(pos, k)] == s[k]
  {
    hide Index;
    var last := |s| - 1;
    if k < last {
      RingShowsLast(cells, pos, s[..last], k);
      if Index(pos, k) == Index(pos, last) {
        IndexApart(pos, k, last);
      }
    }
  }

  /** A cell no element of the stream goes to keeps its contents. */
  lemma {:induction false} RingKeeps(cells: seq<bv16>, pos: nat, s: seq<bv16>, i: nat)
    requires |cells| == CELLS && i < CELLS
    requires forall k: nat | k < |s| :: Index(pos, k) != i
    ensures Ring(cells, pos, s)[i] == cells[i]
  {
    if s != [] {
      RingKeeps(cells, pos, s[..|s| - 1], i);
    }
  }

  /** Once the stream is a screen long, the screen is its last 2000 cells and nothing else. */
  lemma RingFull(cells: seq<bv16>, pos: nat, s: seq<bv16>, i: nat)
    requires |cells| == CELLS && i < CELLS && |s| >= CELLS
    ensures exists k: nat :: |s| - CELLS <= k < |s| && Index(pos, k) == i && Ring(cells, pos, s)[i] == s[k]
  {
    var k := IndexHit(pos, |s| - CELLS, i);
    RingShowsLast(cells, pos, s, k);
  }

  lemma CursorIndex(pos: nat, n: nat, k: nat)
    ensures Index(Cursor(pos, n), k) == Index(pos, n + k)
    ensures n > 0 ==> Cursor(pos, n) <= CELLS
  {
    if n > 0 {
      ModShift((pos + n - 1) / 2000, (pos + n - 1) % 2000, k + 1);
    }
  }

  lemma ModShift(q: nat, r: nat, y: nat)
    ensures (r + y) % 2000 == (2000 * q + r + y) % 2000
  {
    if q > 0 {
      ModShift(q - 1, r, y);
    }
  }

  /** Writing two streams one after the other is writing their concatenation. */
  lemma {:induction false} RingConcat(cells: seq<bv16>, pos: nat, a: seq<bv16>, b: seq<bv16>)
    requires |cells| == CELLS
    ensures Ring(cells, pos, a + b) == Ring(Ring(cells, pos, a), Cursor(pos, |a|), b)
    ensures Cursor(pos, |a| + |b|) == Cursor(Cursor(pos, |a|), |b|)
  {
    hide Index;
    if b == [] {
      assert a + b == a;
    } else {
      var last := |b| - 1;
      RingConcat(cells, pos, a, b[..last]);
      CursorIndex(pos, |a|, last);
      assert (a + b)[..|a| + last] == a + b[..last];
    }
  }

  /** `n` blanks. */
  function Blanks(n: nat, blank: bv16): (s: seq<bv16>)
    ensures |s| == n && forall i | 0 <= i < n :: s[i] == blank
  {
    seq(n, _ => blank)
  }

  lemma BlankNext(cells: seq<bv16>, pos: nat, n: nat, blank: bv16)
    requires |cells| == CELLS
    ensures Ring(cells, pos, Blanks(n + 1, blank)) == Ring(cells, pos, Blanks(n, blank))[Index(pos, n) := blank]
  {
    assert Blanks(n + 1, blank)[..n] == Blanks(n, blank);
  }

  /** The column of the cursor is that of the stream position, and a row never wraps. */
  lemma RowInside(cursor: nat, n: nat)
    requires cursor <= CELLS
    ensures var start := if cursor >= CELLS then 0 else cursor;
            && start % 80 == cursor % 80
            && (n < RowRest(cursor) ==> Index(cursor, n) == start + n < CELLS)
  {
  }

  /** The newline branch of `console_putc`. */
  method FillRow(buf: array<bv16>, cursor: nat, blank: bv16) returns (cursor': nat)
    requires buf.Length == CELLS && cursor <= CELLS
    modifies buf
    ensures buf[..] == Ring(old(buf[..]), cursor, Blanks(RowRest(cursor), blank))
    ensures cursor' == Cursor(cursor, RowRest(cursor)) <= CELLS
  {
    ghost var before := buf[..];
    cursor' := if cursor >= CELLS then 0 else cursor;
    ghost var start := cursor';
    var pos := cursor' % 80;
    ghost var n := 0;
    RowInside(cursor, 0);
    hide Index;
    while pos != 80
      invariant pos <= 80 && n == pos - cursor % 80 && cursor' == start + n
      invariant buf[..] == Ring(before, cursor, Blanks(n, blank))
      invariant n > 0 ==> cursor' == Cursor(cursor, n)
    {
      RowInside(cursor, n);
      BlankNext(before, cursor, n, blank);
      buf[cursor'] := blank;
      cursor' := cursor' + 1;
      pos := pos + 1;
      n := n + 1;
    }
    CursorIndex(cursor, n, 0);
  }

  /** The cell shows character `c` in colour `color`: the byte of the character with the bits of the
      colour; a colour whose low byte is free is the high byte, and the character the low one. */
  predicate CellShows(cell: bv16, c: char, color: bv16) {
    var low := ((c as int) % 256) as bv16;
    && cell == low | color
    && (color & 0xFF == 0 ==> cell & 0xFF == low && cell & 0xFF00 == color)
  }

  lemma CellBytes(c: char, color: bv16)
    ensures CellShows(Cell(c, color), c, color)
  {
    ByteBits((c as int) % 256, color);
  }

  lemma ByteBits(x: nat, color: bv16)
    requires x < 256
    ensures color & 0xFF == 0 ==> (x as bv16 | color) & 0xFF == x as bv16 && (x as bv16 | color) & 0xFF00 == color
  {
    assert (x as bv16) < 256;
  }

  /** A 'U' in colour 0x100 is 0x0155, and a grey blank 0x0720. */
  lemma SomeCells()
    ensures CellShows(0x0155, 'U', 0x0100) && CellShows(0x0720, ' ', 0x0700)
    ensures !CellShows(0x0055, 'U', 0x0100)
  {
  }

  lemma ExpandCells(cursor: nat, g: Glyph)
    requires cursor <= CELLS
    ensures var s := Expand(cursor, g);
            && 1 <= |s| <= RowRest(cursor) && (g.c != '\n' ==> |s| == 1)
            && (g.c == '\n' ==> ((if cursor == 2000 then 0 else cursor) + |s|) % 80 == 0)
            && forall k | 0 <= k < |s| :: CellShows(s[k], if g.c == '\n' then ' ' else g.c, g.color)
  {
    hide Cell;
    hide CellShows;
    CellBytes(if g.c == '\n' then ' ' else g.c, g.color);
    if cursor < 2000 {
      Column(cursor);
    }
  }

  /** A character goes to the cell at the cursor, or to the first one from the end of the buffer; a
      newline makes the rest of the row blanks of its colour. */
  lemma GlyphCells(cells: seq<bv16>, cursor: nat, g: Glyph, i: nat)
    requires |cells| == CELLS && cursor <= CELLS && i < 2000
    ensures var at := if cursor == 2000 then 0 else cursor;
            var after, end := Ring(cells, cursor, Expand(cursor, g)), Cursor(cursor, |Expand(cursor, g)|);
            && (if g.c == '\n' then at < end <= at + 80 && end % 80 == 0 else end == at + 1) && end <= 2000
            && if at <= i < end then CellShows(after[i], if g.c == '\n' then ' ' else g.c, g.color)
               else after[i] == cells[i]
  {
    hide Expand;
    hide Ring;
    hide Cell;
    hide CellShows;
    var at := if cursor == 2000 then 0 else cursor;
    var s := Expand(cursor, g);
    ExpandCells(cursor, g);
    forall k: nat | k < |s| ensures Index(cursor, k) == at + k < 2000 {
      RowInside(cursor, k);
    }
    if at <= i < at + |s| {
      RingShowsLast(cells, cursor, s, i - at);
    } else {
      RingKeeps(cells, cursor, s, i);
    }
  }

  /** `console_putc`: every store is inside the buffer, and the buffer afterwards is the ring with
      the glyph's cells written into it. */
  method Putc(buf: array<bv16>, cursor: nat, g: Glyph) returns (cursor': nat)
    requires buf.Length == CELLS && cursor <= CELLS
    modifies buf
    ensures var cells := Expand(cursor, g);
            buf[..] == Ring(old(buf[..]), cursor, cells) && cursor' == Cursor(cursor, |cells|) <= CELLS
    ensures var at := if cursor == 2000 then 0 else cursor;
            && (if g.c == '\n' then at < cursor' <= at + 80 && cursor' % 80 == 0 else cursor' == at + 1)
            && forall i: nat | i < 2000 ::
                 if at <= i < cursor' then CellShows(buf[i], if g.c == '\n' then ' ' else g.c, g.color)
                 else buf[i] == old(buf[i])
  {
    hide Ring;
    hide CellShows;
    hide Cell;
    ghost var before := buf[..];
    if g.c == '\n' {
      cursor' := FillRow(buf, cursor, Cell(' ', g.color));
    } else {
      cursor' := if cursor >= CELLS then 0 else cursor;
      RingOne(before, cursor, Cell(g.c, g.color));
      buf[cursor'] := Cell(g.c, g.color);
      cursor' := cursor' + 1;
    }
    forall i: nat | i < 2000
      ensures var at := if cursor == 2000 then 0 else cursor;
              if at <= i < cursor' then CellShows(buf[i], if g.c == '\n' then ' ' else g.c, g.color)
              else buf[i] == old(buf[i])
    {
      GlyphCells(before, cursor, g, i);
    }
    GlyphCells(before, cursor, g, 0);
  }

  lemma RingOne(cells: seq<bv16>, cursor: nat, x: bv16)
    requires |cells| == CELLS && cursor <= CELLS
    ensures var at := if cursor >= CELLS then 0 else cursor;
            Ring(cells, cursor, [x]) == cells[at := x] && Cursor(cursor, 1) == at + 1
  {
    assert [x][..0] == [];
  }

  /** The stream of glyphs printed so far extends glyph by glyph. */
  lemma StreamNext(pos: nat, gs: seq<Glyph>, g: Glyph)
    ensures Stream(pos, gs + [g]) == Stream(pos, gs) + Expand(pos + |Stream(pos, gs)|, g)
  {
    hide Expand;
    var all := gs + [g];
    var init, last := all[..|all| - 1], all[|all| - 1];
    assert init == gs && last == g;
    assert Stream(pos, all) == Stream(pos, init) + Expand(pos + |Stream(pos, init)|, last);
  }

  /** The state of the console after printing `gs` from cursor `pos`. */
  ghost predicate Shows(before: seq<bv16>, pos: nat, gs: seq<Glyph>, cells: seq<bv16>, cursor: nat) {
    && |before| == CELLS && cells == Ring(before, pos, Stream(pos, gs))
    && cursor == Cursor(pos, |Stream(pos, gs)|)
  }

  lemma {:induction false} TextStream(pos: nat, gs: seq<Glyph>)
    requires forall g | g in gs :: g.c != '\n'
    ensures |Stream(pos, gs)| == |gs|
    ensures forall k | 0 <= k < |gs| :: CellShows(Stream(pos, gs)[k], gs[k].c, gs[k].color)
  {
    hide CellShows;
    hide Cell;
    if gs != [] {
      var init, last := gs[..|gs| - 1], gs[|gs| - 1];
      assert last in gs && forall g | g in init :: g in gs;
      TextStream(pos, init);
      CellBytes(last.c, last.color);
      assert Stream(pos, gs) == Stream(pos, init) + [Cell(last.c, last.color)];
    }
  }

  /** Text in one piece: glyphs without a newline that fit behind the cursor are the cells from there on,
      in order, and nothing else changes. */
  lemma TextShown(before: seq<bv16>, pos: nat, gs: seq<Glyph>, cells: seq<bv16>, cursor: nat)
    requires Shows(before, pos, gs, cells, cursor) && (forall g | g in gs :: g.c != '\n') && pos + |gs| <= 2000
    ensures |cells| == |before| == 2000 && cursor == pos + |gs|
    ensures forall k | 0 <= k < |gs| :: CellShows(cells[pos + k], gs[k].c, gs[k].color)
    ensures forall i | 0 <= i < 2000 && !(pos <= i < pos + |gs|) :: cells[i] == before[i]
  {
    hide Stream;
    hide Ring;
    hide CellShows;
    TextStream(pos, gs);
    forall k | 0 <= k < |gs| ensures CellShows(cells[pos + k], gs[k].c, gs[k].color) {
      RingShowsLast(before, pos, Stream(pos, gs), k);
      assert Index(pos, k) == pos + k;
    }
    forall i | 0 <= i < 2000 && !(pos <= i < pos + |gs|) ensures cells[i] == before[i] {
      RingKeeps(before, pos, Stream(pos, gs), i);
    }
  }

  /** A glyph's cells depend only on the column, which the cursor shows. */
  lemma ExpandAtCursor(pos: nat, n: nat, g: Glyph)
    ensures Expand(Cursor(pos, n), g) == Expand(pos + n, g)
  {
    if n > 0 {
      Column(pos + n - 1);
    }
    assert RowRest(Cursor(pos, n)) == RowRest(pos + n);
    hide Cell;
  }

  lemma Column(x: nat)
    ensures (x % 2000 + 1) % 80 == (x + 1) % 80
  {
    var q, r := x / 2000, x % 2000;
    ColumnShift(25 * q, r + 1);
  }

  lemma ColumnShift(m: nat, y: nat)
    ensures (80 * m + y) % 80 == y % 80
  {
    if m > 0 {
      ColumnShift(m - 1, y);
    }
  }

  lemma ShowsNext(before: seq<bv16>, pos: nat, gs: seq<Glyph>, cells: seq<bv16>, cursor: nat, g: Glyph)
    requires Shows(before, pos, gs, cells, cursor)
    ensures var more := Expand(cursor, g);
            Shows(before, pos, gs + [g], Ring(cells, cursor, more), Cursor(cursor, |more|))
  {
    hide Expand;
    hide Index;
    var s := Stream(pos, gs);
    StreamNext(pos, gs, g);
    ExpandAtCursor(pos, |s|, g);
    RingConcat(before, pos, s, Expand(cursor, g));
  }

  /** `console_putc` after any sequence of prints. */
  method PutNext(buf: array<bv16>, ghost before: seq<bv16>, ghost pos: nat, ghost gs: seq<Glyph>, cursor: nat, g: Glyph)
    returns (cursor': nat)
    requires buf.Length == CELLS && cursor <= CELLS && Shows(before, pos, gs, buf[..], cursor)
    modifies buf
    ensures cursor' <= CELLS && Shows(before, pos, gs + [g], buf[..], cursor')
  {
    ghost var cells := buf[..];
    cursor' := Putc(buf, cursor, g);
    ShowsNext(before, pos, gs, cells, cursor, g);
  }
}
