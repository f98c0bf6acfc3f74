/** The BIOS text terminal: a screen of 25 rows of 40 cells that scrolls.  Main result:
    it is a window on a page that only grows, where nothing printed is ever lost. */
module Terminal {
  import opened Words

  const BLANK: u16 := 0x0700
  const NEWLINE: byte := 0x0a

  /** Display memory as words, the visible cells first, and the cursor. */
  datatype Screen = Screen(cells: seq<u16>, x: u16, y: u16)

  predicate CursorInside(s: Screen) {
    s.x < 40 && s.y < 25
  }

  function Blanks(n: nat): (r: seq<u16>)
    ensures |r| == n && forall i :: 0 <= i < n ==> r[i] == BLANK
  {
    seq(n, _ => BLANK)
  }

  function Glyph(c: byte): u16 {
    0x0700 + c
  }

  /** Rows move up by n and blank ones come in; beyond 25 rows all cells are blank.  The
      cursor's row is reduced by n whatever it was, modulo 2^16. */
  function Scroll(s: Screen, n: nat): (r: Screen)
    requires |s.cells| >= 1000
    ensures |r.cells| == |s.cells|
  {
    var gone := if n < 25 then n * 40 else 1000;
    Screen(s.cells[gone..1000] + Blanks(gone) + s.cells[1000..], 0, Wrap16(s.y - n))
  }

  /** Any cell past the end of display memory is not display memory. */
  function Put(s: Screen, c: byte): (r: Screen)
    ensures |r.cells| == |s.cells|
  {
    var at := s.y * 40 + s.x;
    if at < |s.cells| then s.(cells := s.cells[at := Glyph(c)]) else s
  }

  /** The cursor after a character, before any scrolling. */
  function Advance(s: Screen, c: byte): (r: Screen)
    ensures r.cells == s.cells
  {
    var x := Wrap16(s.x + 1);
    if x >= 40 || c == NEWLINE then s.(x := 0, y := Wrap16(s.y + 1)) else s.(x := x)
  }

  function WriteChar(s: Screen, c: byte): (r: Screen)
    requires |s.cells| >= 1000
    ensures |r.cells| == |s.cells|
  {
    var t := Advance(Put(s, c), c);
    if t.y >= 25 then Scroll(t, 1) else t
  }

  function WriteText(s: Screen, text: seq<byte>): (r: Screen)
    requires |s.cells| >= 1000
    ensures |r.cells| == |s.cells|
  {
    if text == [] then s else WriteChar(WriteText(s, text[..|text| - 1]), text[|text| - 1])
  }

  // ------------------------------------------------------------- the page

  /** Paper that never ends: cells of `rows` rows of 40, printed at (x, y). */
  datatype Page = Page(cells: seq<u16>, rows: nat, x: nat, y: nat)

  predicate Ruled(p: Page) {
    |p.cells| == p.rows * 40 && p.x < 40 && p.y < p.rows
  }

  function At(p: Page): nat {
    p.y * 40 + p.x
  }

  function PrintChar(p: Page, c: byte): (r: Page)
    requires Ruled(p)
    ensures Ruled(r)
  {
    var cells := p.cells[At(p) := Glyph(c)];
    if p.x + 1 < 40 && c != NEWLINE then p.(cells := cells, x := p.x + 1)
    else if p.y + 1 < p.rows then p.(cells := cells, x := 0, y := p.y + 1)
    else Page(cells + Blanks(40), p.rows + 1, 0, p.y + 1)
  }

  function Print(p: Page, text: seq<byte>): (r: Page)
    requires Ruled(p)
    ensures Ruled(r)
  {
    if text == [] then p else PrintChar(Print(p, text[..|text| - 1]), text[|text| - 1])
  }

  /** The first 1000 cells are the last 1000 of the page. */
  ghost predicate Windowed(cells: seq<u16>, page: seq<u16>) {
    |cells| >= 1000 && |page| >= 1000 && cells[..1000] == page[|page| - 1000..]
  }

  /** The screen shows the last 25 rows of the page, and the cursors are one place. */
  ghost predicate Shows(s: Screen, p: Page) {
    && Ruled(p) && p.rows >= 25 && |s.cells| >= 1000 && CursorInside(s)
    && Windowed(s.cells, p.cells)
    && s.x == p.x && s.y + p.rows == p.y + 25
  }

  lemma PutShows(s: Screen, p: Page, c: byte)
    requires Shows(s, p)
    ensures s.y * 40 + s.x < 1000 && At(p) == s.y * 40 + s.x + (p.rows * 40 - 1000)
    ensures Put(s, c) == s.(cells := Put(s, c).cells) && Windowed(Put(s, c).cells, p.cells[At(p) := Glyph(c)])
  {
  }

  lemma ScrollShows(s: Screen, cells: seq<u16>)
    requires Windowed(s.cells, cells)
    ensures Windowed(Scroll(s, 1).cells, cells + Blanks(40))
  {
    var r, page := Scroll(s, 1).cells, cells + Blanks(40);
    forall i | 0 <= i < 1000 ensures r[i] == page[|cells| - 960 + i] {
      if i < 960 {
        assert r[i] == s.cells[..1000][i + 40];
      }
    }
    assert r[..1000] == page[|cells| - 960..];
  }

  lemma CharShows(s: Screen, p: Page, c: byte)
    requires Shows(s, p)
    ensures Shows(WriteChar(s, c), PrintChar(p, c))
  {
    PutShows(s, p, c);
    var cells := p.cells[At(p) := Glyph(c)];
    var t := Advance(Put(s, c), c);
    hide Put, Scroll, Windowed, Glyph;
    if t.y >= 25 {
      ScrollShows(t, cells);
      ScrollCursor(t);
    }
  }

  lemma ScrollCursor(s: Screen)
    requires |s.cells| >= 1000 && s.y >= 1
    ensures Scroll(s, 1).x == 0 && Scroll(s, 1).y == s.y - 1
  {
  }

  /** Whatever is written, the screen is the last 25 rows of the page with the same text
      printed on it, and the cursor stays inside. */
  lemma {:induction false} ScreenIsWindow(s: Screen, p: Page, text: seq<byte>)
    requires Shows(s, p)
    ensures Shows(WriteText(s, text), Print(p, text))
  {
    if text != [] {
      ScreenIsWindow(s, p, text[..|text| - 1]);
      CharShows(WriteText(s, text[..|text| - 1]), Print(p, text[..|text| - 1]), text[|text| - 1]);
    }
  }

  /** Every screen with its cursor inside is the window of some page: its own 25 rows. */
  lemma ScreenAsPage(s: Screen)
    requires |s.cells| >= 1000 && CursorInside(s)
    ensures Shows(s, Page(s.cells[..1000], 25, s.x, s.y))
  {
    var page := s.cells[..1000];
    assert page[0..] == page;
  }

  // ------------------------------------------------------------- nothing printed is lost

  lemma PrintCharEffect(p: Page, c: byte)
    requires Ruled(p)
    ensures var r := PrintChar(p, c);
            && At(p) < At(r) && At(p) < |p.cells| <= |r.cells| && p.rows <= r.rows
            && r.cells[At(p)] == Glyph(c)
            && forall i :: 0 <= i < |r.cells| && i != At(p) ==>
                 r.cells[i] == if i < |p.cells| then p.cells[i] else BLANK
  {
    hide Glyph;
  }

  /** A character is printed as its code in the attribute 0x07 where the cursor is; the
      cursor goes on by a column, or to the next row after the fortieth column and after a
      character 10; a row that comes in holds 0x0700. */
  lemma CharacterPrints(p: Page, c: byte)
    requires Ruled(p)
    ensures var r := PrintChar(p, c); var ends := c == 10 || p.x == 39;
            && r.cells[40 * p.y + p.x] == 0x0700 + c as int
            && r.x == (if ends then 0 else p.x + 1)
            && r.y == (if ends then p.y + 1 else p.y)
            && r.rows == (if ends && p.y + 1 == p.rows then p.rows + 1 else p.rows)
            && forall i :: |p.cells| <= i < |r.cells| ==> r.cells[i] == 0x0700
  {
    PrintCharEffect(p, c);
  }

  lemma {:induction false} PrintPrefix(p: Page, text: seq<byte>, k: nat)
    requires Ruled(p) && k <= |text|
    ensures var q, r := Print(p, text[..k]), Print(p, text);
            && At(q) + (|text| - k) <= At(r) && q.rows <= r.rows
            && forall i :: 0 <= i < |q.cells| && !(At(q) <= i < At(r)) ==> r.cells[i] == q.cells[i]
  {
    hide PrintChar;
    if k == |text| {
      assert text[..k] == text;
    } else {
      var most := text[..|text| - 1];
      PrintPrefix(p, most, k);
      assert most[..k] == text[..k];
      var m := Print(p, most);
      PrintCharEffect(m, text[|text| - 1]);
    }
  }

  /** Character k of a text is on the page for good, at the place the first k characters
      lead to; later characters are further on. */
  lemma CharOnPage(p: Page, text: seq<byte>, k: nat)
    requires Ruled(p) && k < |text|
    ensures var at := At(Print(p, text[..k]));
            at < |Print(p, text).cells| && Print(p, text).cells[at] == Glyph(text[k])
            && at < At(Print(p, text[..k + 1])) <= At(Print(p, text))
  {
    hide PrintChar;
    PrintPrefix(p, text, k + 1);
    PrintCharEffect(Print(p, text[..k]), text[k]);
    assert text[..k + 1][..k] == text[..k];
    assert text[..k + 1][|text[..k + 1]| - 1] == text[k];
  }

  /** Everything else on the page is as it was, and rows it has grown by are blank. */
  lemma {:induction false} RestOfPage(p: Page, text: seq<byte>, i: nat)
    requires Ruled(p)
    requires i < |Print(p, text).cells| && forall k :: 0 <= k < |text| ==> i != At(Print(p, text[..k]))
    ensures Print(p, text).cells[i] == if i < |p.cells| then p.cells[i] else BLANK
  {
    hide PrintChar;
    if text != [] {
      var n := |text| - 1;
      PrintCharEffect(Print(p, text[..n]), text[n]);
      var most := text[..n];
      var m := Print(p, most);
      assert i != At(Print(p, text[..n]));
      if i < |m.cells| {
        forall k | 0 <= k < |most| ensures i != At(Print(p, most[..k])) {
          assert most[..k] == text[..k];
        }
        RestOfPage(p, most, i);
      } else {
        PrintPrefix(p, most, 0);
      }
    }
  }

  /** A character is seen after the text if its row is among the last 25, where the
      window puts it. */
  lemma CharOnScreen(s: Screen, p: Page, text: seq<byte>, k: nat)
    requires Shows(s, p) && k < |text|
    ensures var at := At(Print(p, text[..k])); var top := Print(p, text).rows * 40 - 1000;
            at >= top ==> at - top < 1000 && WriteText(s, text).cells[at - top] == Glyph(text[k])
  {
    ScreenIsWindow(s, p, text);
    CharOnPage(p, text, k);
    hide WriteText, Print, Glyph;
    WindowCell(WriteText(s, text), Print(p, text), At(Print(p, text[..k])));
  }

  lemma WindowCell(s: Screen, p: Page, at: nat)
    requires Shows(s, p) && at < |p.cells|
    ensures var top := p.rows * 40 - 1000;
            at >= top ==> at - top < 1000 && s.cells[at - top] == p.cells[at]
  {
    var top := p.rows * 40 - 1000;
    if at >= top {
      assert s.cells[..1000][at - top] == p.cells[top..][at - top];
    }
  }

  /** The scroll service takes any count: the cursor stays on the screen exactly if it
      does not ask for more rows than the cursor is down. */
  lemma ScrollKeepsCursorIff(s: Screen, n: nat)
    requires |s.cells| >= 1000 && CursorInside(s) && n < 0x100
    ensures CursorInside(Scroll(s, n)) <==> n <= s.y
  {
  }

  lemma ScrollIs(s: Screen, n: nat, cells: seq<u16>)
    requires |s.cells| >= 1000 && |cells| == |s.cells|
    requires var gone := if n < 25 then n * 40 else 1000;
             && (forall j :: 0 <= j < 1000 - gone ==> cells[j] == s.cells[j + gone])
             && (forall j :: 1000 - gone <= j < 1000 ==> cells[j] == BLANK)
             && (forall j :: 1000 <= j < |cells| ==> cells[j] == s.cells[j])
    ensures Scroll(s, n) == Screen(cells, 0, Wrap16(s.y - n))
  {
    assert cells == Scroll(s, n).cells;
  }

  // ------------------------------------------------------------- the program

  class Console {
    // display memory, by words
    const vram: array<u16>
    var cursor_x: u16
    var cursor_y: u16

    ghost predicate Valid()
      reads this
    {
      vram.Length >= 1000
    }

    ghost function View(): Screen
      reads this, vram
    {
      Screen(vram[..], cursor_x, cursor_y)
    }

    constructor (vram: array<u16>)
      requires vram.Length >= 1000
      ensures Valid() && this.vram == vram && View() == Screen(vram[..], 0, 0)
    {
      this.vram := vram;
      cursor_x, cursor_y := 0, 0;
    }

    /** Rows are copied upwards in place, each cell read before it is overwritten. */
    method ScrollLines(n: nat)
      requires Valid()
      modifies vram, this`cursor_x, this`cursor_y
      ensures Valid() && View() == Scroll(old(View()), n)
    {
      hide Scroll, Blanks;
      ghost var s := View();
      ghost var gone := if n < 25 then n * 40 else 1000;
      var i := 0;
      while i < (25 - n) * 40
        invariant 0 <= i <= 1000 - gone && cursor_y == s.y
        invariant forall j :: 0 <= j < i ==> vram[j] == s.cells[j + n * 40]
        invariant forall j :: i <= j < vram.Length ==> vram[j] == s.cells[j]
      {
        vram[i] := vram[n * 40 + i];
        i := i + 1;
      }
      while i < 1000
        invariant 1000 - gone <= i <= 1000 && cursor_y == s.y
        invariant forall j :: 0 <= j < 1000 - gone ==> vram[j] == s.cells[j + gone]
        invariant forall j :: 1000 - gone <= j < i ==> vram[j] == BLANK
        invariant forall j :: i <= j < vram.Length ==> vram[j] == s.cells[j]
      {
        vram[i] := BLANK;
        i := i + 1;
      }
      cursor_x := 0;
      cursor_y := Wrap16(cursor_y - n);
      ScrollIs(s, n, vram[..]);
    }

    method PutGlyph(c: byte)
      requires Valid()
      modifies vram
      ensures Valid() && View() == Put(old(View()), c)
    {
      hide Glyph;
      var at := cursor_y * 40 + cursor_x;
      if at < vram.Length {
        vram[at] := Glyph(c);
      }
    }

    method PrintCharacter(c: byte)
      requires Valid()
      modifies vram, this`cursor_x, this`cursor_y
      ensures Valid() && View() == WriteChar(old(View()), c)
    {
      hide Scroll, Put;
      PutGlyph(c);
      cursor_x := Wrap16(cursor_x + 1);
      if cursor_x >= 40 || c == NEWLINE {
        cursor_x := 0;
        cursor_y := Wrap16(cursor_y + 1);
      }
      if cursor_y >= 25 {
        ScrollLines(1);
      }
    }

    /** Writes up to the first zero byte, and counts what it wrote. */
    method WriteString(s: seq<byte>) returns (i: nat)
      requires Valid() && 0 in s
      modifies vram, this`cursor_x, this`cursor_y
      ensures Valid() && i < |s| && s[i] == 0 && 0 !in s[..i]
      ensures View() == WriteText(old(View()), s[..i])
      ensures CursorInside(old(View())) ==>
                var p := Page(old(vram[..1000]), 25, old(cursor_x), old(cursor_y));
                Shows(View(), Print(p, s[..i]))
    {
      hide WriteChar, Shows, Print;
      ghost var start := View();
      i := 0;
      while s[i] != 0
        invariant i < |s| && 0 !in s[..i] && Valid()
        invariant View() == WriteText(start, s[..i])
        decreases |s| - i
      {
        PrintCharacter(s[i]);
        i := i + 1;
        assert s[..i][..i - 1] == s[..i - 1];
        assert i == |s| ==> 0 !in s;
      }
      if CursorInside(start) {
        ScreenAsPage(start);
        ScreenIsWindow(start, Page(start.cells[..1000], 25, start.x, start.y), s[..i]);
      }
    }
  }
}
