/** What the display shows and where a store goes, by addresses and binary digits: the
    colour of every dot of a text screen, and the planes a byte reaches. */
module VgaDots {
  import opened Words
  import opened Arithmetic
  import opened Vga
  import Terminal

  // ------------------------------------------------------------- the colour of a dot

  /** Where the eight fonts begin in plane 2. */
  ghost function FontStart(font: nat): nat
    requires font < 8
  {
    [0, 2, 4, 6, 1, 3, 5, 7][font]
  }

  lemma FontOffsetIs(font: nat)
    requires font < 8
    ensures FontOffset(font) == FontStart(font)
  {
  }

  /** The digits of scanline i of a character: byte i of its sixteen, in plane 2 from where
      the font begins. */
  ghost predicate InFont(v: Adapter, font: nat, chr: byte, i: nat, d: seq<nat>)
    requires Valid(v) && font < 8 && i < 32
  {
    Spells(d, v.planes[2][FontStart(font) + 0x10 * chr as int + i])
  }

  /** The attribute's halves and its bit 3. */
  lemma AttributeParts(high: nat, bold: nat, low: nat)
    requires bold < 2 && low < 8
    ensures var att := 0x10 * high + 8 * bold + low;
            att / 8 % 2 == bold && att % 16 == 8 * bold + low && att / 16 == high
  {
    Eighth(2 * high + bold, low);
    LowBit(high, bold);
    DivMod(high, 8 * bold + low, 16);
  }

  /** Dot j of scanline i of a character is digit j of byte i of its sixteen in the font,
      which bit 3 of the attribute chooses; a lit dot has the low half of the attribute as
      its colour, any other dot the high half. */
  lemma DotColour(v: Adapter, g: Geometry, chr: byte, i: nat, j: nat,
                  high: nat, bold: nat, low: nat, d: seq<nat>)
    requires Valid(v) && Displayable(g) && i < 32 && j < 8 && high < 0x10 && bold < 2 && low < 8
    requires InFont(v, if bold == 1 then g.fontA else g.fontB, chr, i, d)
    ensures Dot(v, g, chr, 0x10 * high + 8 * bold + low, i, j) == if d[j] == 1 then 8 * bold + low else high
  {
    AttributeParts(high, bold, low);
    FontOffsetIs(if bold == 1 then g.fontA else g.fontB);
    DigitAt(d, v.planes[2][FontStart(if bold == 1 then g.fontA else g.fontB) + 0x10 * chr as int + i], j);
    hide FontOffset, FontStart, Spells;
  }

  /** The colour of dot (i, j) of the cell at (row, col), whatever the geometry: the cell's
      character and attribute are the two bytes that the processor sees there. */
  lemma PixelColour(v: Adapter, g: Geometry, row: nat, col: nat, i: nat, j: nat, cell: nat,
                    high: nat, bold: nat, low: nat, d: seq<nat>)
    requires Valid(v) && Fits(g) && InGeometry(g, row, col, i, j)
    requires cell == row * g.cols as int + col && cell < 0x4000
    requires high < 0x10 && bold < 2 && low < 8 && v.planes[1][2 * cell] as int == 0x10 * high + 8 * bold + low
    requires InFont(v, if bold == 1 then g.fontA else g.fontB, v.planes[0][2 * cell], i, d)
    ensures PixelOf(g, row, col, i, j) < 0x1_0000_0000
    ensures AttrIndexText(v, g, PixelOf(g, row, col, i, j)) == Some(if d[j] == 1 then 8 * bold + low else high)
  {
    hide Dot, AttrIndexText, PixelOf, Flat, InFont;
    PixelShowsCell(v, g, row, col, i, j);
    FlatCell(v, cell);
    DotColour(v, g, v.planes[0][2 * cell], i, j, high, bold, low, d);
  }

  /** Every dot is covered: any attribute and any byte of a font can be written so. */
  lemma EveryDotCovered(att: byte, bits: byte) returns (high: nat, bold: nat, low: nat, d: seq<nat>)
    ensures high < 0x10 && bold < 2 && low < 8 && att as int == 0x10 * high + 8 * bold + low
    ensures Spells(d, bits)
  {
    high, bold, low := att / 16, att / 8 % 2, att % 8;
    assert att as int == 8 * (att as int / 8) + att as int % 8;
    d := DigitsOf(bits);
    hide Spells;
  }

  /** From key to glass: once the terminal's cells are in display memory, character k of a
      text, if its row is still on the screen, is drawn in its cell: colour 7 where the
      second font has a digit 1 for it, colour 0 where it has a 0. */
  lemma TextOnGlass(v: Adapter, g: Geometry, s: Terminal.Screen, p: Terminal.Page,
                    text: seq<byte>, k: nat, i: nat, j: nat, d: seq<nat>)
    requires Valid(v) && TerminalGeometry(g) && i < g.reps && j < 8
    requires Terminal.Shows(s, p) && k < |text| && Cells(v) == Terminal.WriteText(s, text).cells
    requires InFont(v, g.fontB, text[k], i, d)
    ensures var q := Terminal.Print(p, text[..k]); var top := Terminal.Print(p, text).rows - 25;
            q.y >= top ==>
              && q.y < top + 25 && q.x < 40 && PixelOf(g, q.y - top, q.x, i, j) < 0x1_0000_0000
              && AttrIndexText(v, g, PixelOf(g, q.y - top, q.x, i, j)) == Some(if d[j] == 1 then 7 else 0)
  {
    hide Dot, PixelOf, AttrIndexText, Flat, Cells, FontStart, Spells,
         Terminal.WriteText, Terminal.Print, Terminal.Glyph, Terminal.Windowed;
    var q, top := Terminal.Print(p, text[..k]), Terminal.Print(p, text).rows - 25;
    if q.y >= top {
      TextInCell(v, g, s, p, text, k, i, j);
      DotColour(v, g, text[k], i, j, 0, 0, 7, d);
    }
  }

  // ------------------------------------------------------------- where a store goes

  /** The four windows of display memory. */
  ghost predicate Within(mm: byte, addr: u32) {
    || (mm == 0 && 0xa0000 <= addr < 0xc0000) || (mm == 1 && 0xa0000 <= addr < 0xb0000)
    || (mm == 2 && 0xb0000 <= addr < 0xb8000) || (mm == 3 && 0xb8000 <= addr < 0xc0000)
  }

  ghost function Start(mm: byte): nat {
    if mm == 2 then 0xb0000 else if mm == 3 then 0xb8000 else 0xa0000
  }

  lemma SyncOffsetIs(mm: byte, addr: u32)
    requires mm < 4
    ensures SyncOffset(mm, addr) == if Within(mm, addr) then Some(addr - Start(mm)) else None
  {
  }

  /** With 64 KB alone no access is in any window: loads give zero and stores are lost. */
  lemma NarrowReachesNothing(v: Adapter, addr: u32, b: byte)
    requires Valid(v) && !v.setup.em
    ensures ReadByte(v, addr) == Some(0) && WriteByte(v, addr, b) == Some(v)
  {
    hide Enabled;
  }

  /** Whether plane n is one that the sequencer sends a byte at this address to: the plane
      of the address modulo four when planes are chained; all planes; or the two planes of
      the address's parity. */
  ghost predicate Routed(s: Setup, addr: u32, n: nat) {
    if s.c4 then n == addr % 4 else s.oe || n % 2 == addr % 2
  }

  ghost function Target(s: Setup, addr: u32): int {
    var a := (if s.c4 then addr - addr % 4 else addr) - Start(s.mm);
    if s.pairs then a - a % 2 else a
  }

  ghost function WithByte(v: Adapter, n: nat, at: nat, b: byte, on: bool): Adapter
    requires Valid(v) && n < 4 && at < 0x1_0000
  {
    if on then v.(planes := v.planes[n := v.planes[n][at := b]]) else v
  }

  /** One plane's part of a store: its place in the window, even when the graphics
      controller works in pairs. */
  lemma PlaneStore(v: Adapter, n: nat, addr: u32, at: nat, b: byte, d: seq<nat>)
    requires Valid(v) && v.setup.wm == 0 && n < 4 && Within(v.setup.mm, addr) && Spells(d, v.setup.mask)
    requires var a := addr as int - Start(v.setup.mm); at == if v.setup.pairs then a - a % 2 else a
    requires at < 0x1_0000
    ensures MaskedWrite(v, n, addr, b) == Some(WithByte(v, n, at, b, d[n] == 1))
    ensures Valid(WithByte(v, n, at, b, d[n] == 1)) && WithByte(v, n, at, b, d[n] == 1).setup == v.setup
  {
    SyncOffsetIs(v.setup.mm, addr);
    EnabledIs(v.setup.mask, n, d);
    hide Enabled, SyncOffset, Spells, Within, Start;
  }

  lemma EnabledIs(mask: byte, n: nat, d: seq<nat>)
    requires n < 4 && Spells(d, mask)
    ensures Enabled(mask, n) <==> d[n] == 1
  {
    DigitAt(d, mask, n);
    hide Spells;
  }

  /** Two planes of one parity, or all four, one after the other. */
  lemma PlanesStore(v: Adapter, first: nat, step: nat, n: nat, addr: u32, at: nat, b: byte, d: seq<nat>)
    requires Valid(v) && v.setup.wm == 0 && Within(v.setup.mm, addr) && Spells(d, v.setup.mask)
    requires var a := addr as int - Start(v.setup.mm); at == if v.setup.pairs then a - a % 2 else a
    requires at < 0x1_0000 && step > 0 && (n == 0 || first + step * (n - 1) < 4)
    requires (step == 1 && first + n == 4) || (step == 2 && first + 2 * n < 6 && (n == 0 || first + 2 * n > 3))
    ensures PlanesWrite(v, first, step, n, addr, b).Some?
    ensures var w := PlanesWrite(v, first, step, n, addr, b).value;
            && w.setup == v.setup && |w.planes| == 4
            && forall k :: 0 <= k < 4 ==>
                 w.planes[k] == if n > 0 && k >= first && (step == 1 || k % 2 == first % 2) && d[k] == 1
                                then v.planes[k][at := b] else v.planes[k]
    decreases n
  {
    hide Within, Start, MaskedWrite;
    if n > 0 {
      PlaneStore(v, first, addr, at, b, d);
      PlanesStore(WithByte(v, first, at, b, d[first] == 1), first + step, step, n - 1, addr, at, b, d);
    }
  }

  lemma ChainedWithin(mm: byte, addr: u32)
    requires Within(mm, addr)
    ensures Within(mm, addr as int - addr as int % 4) && addr / 4 * 4 == addr as int - addr as int % 4
  {
  }

  /** A store changes one byte, at one place, in every plane that the sequencer routes it
      to and the map mask has digit 1 for, and nothing in the others. */
  lemma StoreReaches(v: Adapter, addr: u32, b: byte, d: seq<nat>)
    requires Valid(v) && v.setup.er && v.setup.em && v.setup.wm == 0
    requires Within(v.setup.mm, addr) && Target(v.setup, addr) < 0x1_0000 && Spells(d, v.setup.mask)
    ensures WriteByte(v, addr, b).Some?
    ensures var w := WriteByte(v, addr, b).value; var at := Target(v.setup, addr);
            && w.setup == v.setup && |w.planes| == 4
            && forall n :: 0 <= n < 4 ==>
                 w.planes[n] == if Routed(v.setup, addr, n) && d[n] == 1 then v.planes[n][at := b] else v.planes[n]
  {
    ChainedWithin(v.setup.mm, addr);
    var at := Target(v.setup, addr);
    StartBelow(v.setup.mm, addr);
    hide Spells, Within, Start, MaskedWrite, PlanesWrite;
    if v.setup.c4 {
      PlaneStore(v, addr % 4, addr / 4 * 4, at, b, d);
    } else if v.setup.oe {
      PlanesStore(v, 0, 1, 4, addr, at, b, d);
    } else {
      PlanesStore(v, addr % 2, 2, 2, addr, at, b, d);
    }
  }

  lemma StartBelow(mm: byte, addr: u32)
    requires Within(mm, addr)
    ensures addr >= Start(mm) && addr as int - addr as int % 4 >= Start(mm)
  {
  }
}
