/** The display adapter: four planes behind the sequencer and the graphics controller,
    and the text renderer.  Main results: in the odd/even text setup any run of reads and
    writes behaves as a flat array of bytes, and every pixel is decided by its own cell. */
module Vga {
  import opened Words
  import opened Arithmetic
  import Terminal

  type Plane = p: seq<byte> | |p| == 0x1_0000 witness seq(0x1_0000, _ => 0)

  /** The register fields that route an access. */
  datatype Setup = Setup(
    er: bool,       // access to display memory enabled
    em: bool,       // more than 64 KB
    oe: bool,       // sequencer: all planes at once, rather than by parity
    c4: bool,       // sequencer: chain four planes
    mask: byte,     // map mask
    wm: byte,       // graphics controller: write mode
    pairs: bool,    // graphics controller: odd/even
    ms: byte,       // read map select
    mm: byte)       // memory map

  datatype Adapter = Adapter(setup: Setup, planes: seq<Plane>)

  predicate Valid(v: Adapter) {
    |v.planes| == 4 && v.setup.ms < 4 && v.setup.mm < 4 && v.setup.wm < 4
  }

  // ------------------------------------------------------------- graphics controller

  function AreaBase(mm: byte): u32 {
    if mm <= 1 then 0xa0000 else if mm == 2 then 0xb0000 else 0xb8000
  }

  function AreaSize(mm: byte): u32 {
    if mm == 0 then 0x2_0000 else if mm == 1 then 0x1_0000 else 0x8000
  }

  function SyncOffset(mm: byte, addr: u32): Option<u32> {
    if AreaBase(mm) <= addr < AreaBase(mm) + AreaSize(mm) then Some(addr - AreaBase(mm)) else None
  }

  /** None: past the end of a plane, which ends the program. */
  function GcRead(v: Adapter, addr: u32): Option<byte>
    requires Valid(v)
  {
    match SyncOffset(v.setup.mm, addr)
    case None => Some(0)
    case Some(offset) =>
      if v.setup.wm != 0 then Some(0)
      else if v.setup.pairs then
        if offset / 2 * 2 >= 0x1_0000 then None
        else Some(v.planes[v.setup.ms / 2 * 2 + offset % 2][offset / 2 * 2])
      else if offset >= 0x1_0000 then None
      else Some(v.planes[v.setup.ms][offset])
  }

  function GcWrite(v: Adapter, n: nat, addr: u32, b: byte): (r: Option<Adapter>)
    requires Valid(v) && n < 4
    ensures r.Some? ==> Valid(r.value) && r.value.setup == v.setup
  {
    match SyncOffset(v.setup.mm, addr)
    case None => Some(v)
    case Some(offset) =>
      if v.setup.wm != 0 then Some(v)
      else
        var at := if v.setup.pairs then offset / 2 * 2 else offset;
        if at >= 0x1_0000 then None
        else Some(v.(planes := v.planes[n := v.planes[n][at := b]]))
  }

  // ------------------------------------------------------------- sequencer

  function Enabled(mask: byte, n: nat): bool
    requires n < 4
  {
    mask / [1, 2, 4, 8][n] % 2 == 1
  }

  function MaskedWrite(v: Adapter, n: nat, addr: u32, b: byte): (r: Option<Adapter>)
    requires Valid(v) && n < 4
    ensures r.Some? ==> Valid(r.value) && r.value.setup == v.setup
  {
    if Enabled(v.setup.mask, n) then GcWrite(v, n, addr, b) else Some(v)
  }

  function Narrowed(v: Adapter, addr: u32): u32 {
    if v.setup.em then addr else addr % 0x1_0000
  }

  function PlanesWrite(v: Adapter, first: nat, step: nat, n: nat, addr: u32, b: byte): (r: Option<Adapter>)
    requires Valid(v) && step > 0 && (n == 0 || first + step * (n - 1) < 4)
    ensures r.Some? ==> Valid(r.value) && r.value.setup == v.setup
    decreases n
  {
    if n == 0 then Some(v)
    else
      var t := MaskedWrite(v, first, addr, b);
      if t.None? then None
      else
        assert n > 1 ==> first + step + step * (n - 2) == first + step * (n - 1);
        PlanesWrite(t.value, first + step, step, n - 1, addr, b)
  }

  function SeqWrite(v: Adapter, address: u32, b: byte): (r: Option<Adapter>)
    requires Valid(v)
    ensures r.Some? ==> Valid(r.value) && r.value.setup == v.setup
  {
    var addr := Narrowed(v, address);
    if v.setup.c4 then MaskedWrite(v, addr % 4, addr / 4 * 4, b)
    else if v.setup.oe then PlanesWrite(v, 0, 1, 4, addr, b)
    else PlanesWrite(v, addr % 2, 2, 2, addr, b)
  }

  // ------------------------------------------------------------- the adapter

  function ReadByte(v: Adapter, addr: u32): Option<byte>
    requires Valid(v)
  {
    if v.setup.er then GcRead(v, Narrowed(v, addr)) else Some(0)
  }

  function WriteByte(v: Adapter, addr: u32, b: byte): (r: Option<Adapter>)
    requires Valid(v)
    ensures r.Some? ==> Valid(r.value) && r.value.setup == v.setup
  {
    if v.setup.er then SeqWrite(v, addr, b) else Some(v)
  }

  // ------------------------------------------------------------- a flat array

  /** Odd/even text: even addresses are characters in plane 0, odd ones attributes in
      plane 1, in a window of 32 KB. */
  predicate TextSetup(s: Setup) {
    && s.er && s.em && !s.oe && !s.c4 && s.mask % 16 == 3
    && s.wm == 0 && s.pairs && s.ms < 2 && s.mm == 3
  }

  /** What the processor sees through the window. */
  function Flat(v: Adapter): (f: seq<byte>)
    requires Valid(v)
    ensures |f| == 0x8000
  {
    seq(0x8000, i requires 0 <= i < 0x8000 => v.planes[i % 2][i / 2 * 2])
  }

  predicate InWindow(addr: u32) {
    0xb8000 <= addr < 0xc0000
  }

  lemma ReadIsFlat(v: Adapter, addr: u32)
    requires Valid(v) && TextSetup(v.setup)
    ensures ReadByte(v, addr) == Some(if InWindow(addr) then Flat(v)[addr - 0xb8000] else 0)
  {
  }

  lemma MaskThree(mask: byte, n: nat)
    requires mask % 16 == 3 && n < 4
    ensures Enabled(mask, n) <==> n < 2
  {
    var k := mask / 16;
    assert mask == 16 * k + 3;
  }

  /** A write changes one byte of the window; fonts, in planes 2 and 3, are safe. */
  lemma WriteIsFlat(v: Adapter, addr: u32, b: byte)
    requires Valid(v) && TextSetup(v.setup)
    ensures WriteByte(v, addr, b).Some?
    ensures var w := WriteByte(v, addr, b).value;
            && w.setup == v.setup && w.planes[2..] == v.planes[2..]
            && Flat(w) == if InWindow(addr) then Flat(v)[addr - 0xb8000 := b] else Flat(v)
  {
    hide Enabled, Flat;
    var n := addr % 2;
    MaskThree(v.setup.mask, n);
    MaskThree(v.setup.mask, n + 2);
    assert PlanesWrite(v, n, 2, 2, addr, b) == GcWrite(v, n, addr, b) by {
      OneOfTwo(v, n, addr, b);
    }
    GcWriteIsFlat(v, addr, b);
  }

  lemma OneOfTwo(v: Adapter, n: nat, addr: u32, b: byte)
    requires Valid(v) && n < 2 && Enabled(v.setup.mask, n) && !Enabled(v.setup.mask, n + 2)
    ensures PlanesWrite(v, n, 2, 2, addr, b) == GcWrite(v, n, addr, b)
  {
    hide Enabled, GcWrite;
    var t := GcWrite(v, n, addr, b);
    if t.Some? {
      assert PlanesWrite(t.value, n + 2, 2, 1, addr, b) == PlanesWrite(t.value, n + 4, 2, 0, addr, b);
    }
  }

  lemma GcWriteIsFlat(v: Adapter, addr: u32, b: byte)
    requires Valid(v) && TextSetup(v.setup)
    ensures GcWrite(v, addr % 2, addr, b).Some?
    ensures var w := GcWrite(v, addr % 2, addr, b).value;
            && w.setup == v.setup && w.planes[2..] == v.planes[2..]
            && Flat(w) == if InWindow(addr) then Flat(v)[addr - 0xb8000 := b] else Flat(v)
  {
    var w := GcWrite(v, addr % 2, addr, b).value;
    if InWindow(addr) {
      var at := addr - 0xb8000;
      assert at % 2 == addr % 2;
      assert w.planes == v.planes[at % 2 := v.planes[at % 2][at / 2 * 2 := b]];
      forall i | 0 <= i < 0x8000 ensures Flat(w)[i] == Flat(v)[at := b][i] {
        if i != at && i % 2 == at % 2 {
          assert i / 2 != at / 2;
        }
      }
    }
  }

  /** An access of the processor. */
  datatype Access = Store(addr: u32, b: byte) | Load(addr: u32)

  /** The bytes loaded by a run of accesses, and the adapter after it. */
  function Perform(v: Adapter, run: seq<Access>): (r: Option<(Adapter, seq<byte>)>)
    requires Valid(v)
    ensures r.Some? ==> Valid(r.value.0)
    decreases |run|
  {
    if run == [] then Some((v, []))
    else
      match run[0]
      case Store(addr, b) =>
        var w := WriteByte(v, addr, b);
        if w.None? then None else Perform(w.value, run[1..])
      case Load(addr) =>
        var b := ReadByte(v, addr);
        var rest := Perform(v, run[1..]);
        if b.None? || rest.None? then None else Some((rest.value.0, [b.value] + rest.value.1))
  }

  /** The same run on a plain array at the window, zero elsewhere. */
  function PerformFlat(f: seq<byte>, run: seq<Access>): (seq<byte>, seq<byte>)
    requires |f| == 0x8000
    decreases |run|
  {
    if run == [] then (f, [])
    else
      match run[0]
      case Store(addr, b) => PerformFlat(if InWindow(addr) then f[addr - 0xb8000 := b] else f, run[1..])
      case Load(addr) =>
        var (g, out) := PerformFlat(f, run[1..]);
        (g, [if InWindow(addr) then f[addr - 0xb8000] else 0] + out)
  }

  /** Any run of accesses in the text setup is a run on a flat array, and no run ends the
      program or touches the fonts. */
  lemma {:induction false} PlanesAreFlat(v: Adapter, run: seq<Access>)
    requires Valid(v) && TextSetup(v.setup)
    ensures Perform(v, run).Some?
    ensures var (w, out) := Perform(v, run).value;
            w.setup == v.setup && w.planes[2..] == v.planes[2..] && (Flat(w), out) == PerformFlat(Flat(v), run)
    decreases |run|
  {
    hide Flat, ReadByte, WriteByte;
    if run != [] {
      match run[0]
      case Store(addr, b) =>
        WriteIsFlat(v, addr, b);
        PlanesAreFlat(WriteByte(v, addr, b).value, run[1..]);
      case Load(addr) =>
        ReadIsFlat(v, addr);
        PlanesAreFlat(v, run[1..]);
    }
  }

  // ------------------------------------------------------------- the text renderer

  /** Cells per line, lines per screen and scanlines per line; the font select. */
  datatype Geometry = Geometry(cols: byte, rows: byte, reps: nat, fontA: nat, fontB: nat)

  predicate Displayable(g: Geometry) {
    g.cols > 0 && 1 <= g.reps <= 32 && g.fontA < 8 && g.fontB < 8
  }

  function FontOffset(font: nat): nat
    requires font < 8
  {
    if font >= 4 then font % 4 * 2 + 1 else font * 2
  }

  /** The attribute index of one dot of a cell: the font says which half of the attribute. */
  function Dot(v: Adapter, g: Geometry, chr: byte, att: byte, i: nat, j: nat): byte
    requires Valid(v) && Displayable(g) && i < 32 && j < 8
  {
    var font := if att / 8 % 2 == 1 then g.fontA else g.fontB;
    var bits := v.planes[2][FontOffset(font) + chr * 16 + i];
    if bits / [1, 2, 4, 8, 16, 32, 64, 128][j] % 2 == 1 then att % 16 else att / 16
  }

  /** The renderer's arithmetic for pixel n, in 16-bit variables: cell, row and column of
      the dot within it. */
  function Locate(cols: nat, reps: nat, n: nat): (nat, nat, nat)
    requires cols > 0 && reps > 0
  {
    var line := Wrap16(n / (cols * 8));
    var offset := Wrap16(n % (cols * 8));
    (Wrap16(Wrap16(line / reps * cols) + offset / 8), line % reps, offset % 8)
  }

  /** None when the cell leaves the plane, which ends the program. */
  function AttrIndexText(v: Adapter, g: Geometry, n: nat): Option<byte>
    requires Valid(v) && Displayable(g)
  {
    var (index, i, j) := Locate(g.cols, g.reps, n);
    if index * 2 >= 0x1_0000 then None
    else Some(Dot(v, g, v.planes[0][index * 2], v.planes[1][index * 2], i, j))
  }

  /** The number of the pixel at dot (i, j) of the cell at (row, col). */
  function PixelNumber(cols: nat, reps: nat, row: nat, col: nat, i: nat, j: nat): nat {
    (row * reps + i) * (cols * 8) + (col * 8 + j)
  }

  function PixelOf(g: Geometry, row: nat, col: nat, i: nat, j: nat): nat {
    PixelNumber(g.cols, g.reps, row, col, i, j)
  }

  /** A screen of whole cells that fits in the window. */
  predicate Fits(g: Geometry) {
    Displayable(g) && g.cols as int * g.rows as int <= 0x4000
  }

  predicate InGeometry(g: Geometry, row: nat, col: nat, i: nat, j: nat) {
    row < g.rows as int && col < g.cols as int && i < g.reps && j < 8
  }

  /** What the renderer's nested divisions find. */
  lemma LocateFinds(cols: nat, rows: nat, reps: nat, row: nat, col: nat, i: nat, j: nat)
    requires 0 < cols < 256 && rows < 256 && 0 < reps <= 32 && cols * rows <= 0x4000
    requires row < rows && col < cols && i < reps && j < 8
    ensures Locate(cols, reps, PixelNumber(cols, reps, row, col, i, j)) == (row * cols + col, i, j)
    ensures PixelNumber(cols, reps, row, col, i, j) < 0x1_0000_0000
    ensures row * cols + col < 0x4000
  {
    LineBound(row, reps, i);
    CellBound(row, col, rows, cols);
    DivMod(row, i, reps);
    var line, width, offset := row * reps + i, cols * 8, col * 8 + j;
    DivMod(line, offset, width);
    PixelBound(line, width, offset);
    LocateParts(cols, reps, line, offset, row, i, col, j);
  }

  lemma LocateParts(cols: nat, reps: nat, line: nat, offset: nat, row: nat, i: nat, col: nat, j: nat)
    requires cols > 0 && reps > 0 && j < 8 && offset == col * 8 + j && offset < 0x1_0000 && line < 0x1_0000
    requires line / reps == row && line % reps == i && row * cols + col < 0x4000
    requires var n := line * (cols * 8) + offset; n / (cols * 8) == line && n % (cols * 8) == offset
    ensures Locate(cols, reps, line * (cols * 8) + offset) == (row * cols + col, i, j)
  {
    assert offset / 8 == col && offset % 8 == j;
    hide Wrap16;
    WrapSmall(line);
    WrapSmall(offset);
    WrapSmall(row * cols);
    WrapSmall(row * cols + col);
  }

  lemma WrapSmall(x: nat)
    ensures x < 0x1_0000 ==> Wrap16(x) == x
  {
  }

  lemma LineBound(row: nat, reps: nat, i: nat)
    requires row < 255 && i < reps <= 32
    ensures row * reps + i < 8160
  {
    Product(row, reps, 254, 32);
  }

  lemma PixelBound(line: nat, width: nat, offset: nat)
    requires line < 8160 && offset < width <= 2040
    ensures line * width + offset < 0x1_0000_0000
  {
    Product(line, width, 8160, 2040);
  }

  lemma CellBound(row: nat, col: nat, rows: nat, cols: nat)
    requires row < rows && col < cols
    ensures row * cols + col < rows * cols
  {
    assert row * cols + cols == (row + 1) * cols;
    Product(row + 1, cols, rows, cols);
  }

  /** Every dot (i, j) of the cell at (row, col) is decided by the character and the
      attribute the processor sees at that cell, whatever the geometry. */
  lemma PixelShowsCell(v: Adapter, g: Geometry, row: nat, col: nat, i: nat, j: nat)
    requires Valid(v) && Fits(g) && InGeometry(g, row, col, i, j)
    ensures PixelOf(g, row, col, i, j) < 0x1_0000_0000
    ensures var cell := row * g.cols as int + col;
            cell < 0x4000 && AttrIndexText(v, g, PixelOf(g, row, col, i, j))
                             == Some(Dot(v, g, Flat(v)[2 * cell], Flat(v)[2 * cell + 1], i, j))
  {
    hide Dot, Locate, PixelNumber, Flat;
    CommuteProduct(g.cols, g.rows);
    LocateFinds(g.cols, g.rows, g.reps, row, col, i, j);
    FlatCell(v, row * g.cols as int + col);
  }

  lemma FlatCell(v: Adapter, cell: nat)
    requires Valid(v) && cell < 0x4000
    ensures Flat(v)[2 * cell] == v.planes[0][cell * 2] && Flat(v)[2 * cell + 1] == v.planes[1][cell * 2]
  {
  }

  lemma CommuteProduct(a: nat, b: nat)
    ensures a * b == b * a
  {
  }

  /** ... and every pixel of the screen is such a dot. */
  lemma EveryPixelIsADot(g: Geometry, n: nat) returns (row: nat, col: nat, i: nat, j: nat)
    requires Fits(g) && n < g.rows as int * g.reps * (g.cols as int * 8)
    ensures InGeometry(g, row, col, i, j) && PixelOf(g, row, col, i, j) == n
  {
    row, col, i, j := DotOf(g.cols, g.rows, g.reps, g.rows as int * g.reps, g.cols as int * 8, n);
    hide PixelNumber;
  }

  lemma DotOf(cols: nat, rows: nat, reps: nat, lines: nat, width: nat, n: nat)
    returns (row: nat, col: nat, i: nat, j: nat)
    requires cols > 0 && reps > 0 && lines == rows * reps && width == cols * 8 && n < lines * width
    ensures row < rows && col < cols && i < reps && j < 8
    ensures PixelNumber(cols, reps, row, col, i, j) == n
  {
    hide PixelNumber;
    var line, offset := Divide(n, width, lines);
    row, i := Divide(line, reps, rows);
    col, j := offset / 8, offset % 8;
    Rejoined(cols, reps, row, col, i, j, line, offset);
  }

  lemma Divide(n: nat, d: nat, m: nat) returns (q: nat, r: nat)
    requires d > 0 && n < m * d
    ensures n == q * d + r && r < d && q < m
  {
    q, r := n / d, n % d;
    Division(n, d);
    Below(q, d, m, r);
  }

  lemma Rejoined(cols: nat, reps: nat, row: nat, col: nat, i: nat, j: nat, line: nat, offset: nat)
    requires line == row * reps + i && offset == col * 8 + j
    ensures PixelNumber(cols, reps, row, col, i, j) == line * (cols * 8) + offset
  {
  }

  // ------------------------------------------------------------- words and text

  function CellOf(low: byte, high: byte): u16 {
    low as int + 0x100 * high as int
  }

  /** The window as little-endian words: character low, attribute high. */
  function Cells(v: Adapter): (w: seq<u16>)
    requires Valid(v)
    ensures |w| == 0x4000
  {
    seq(0x4000, c requires 0 <= c < 0x4000 => CellOf(Flat(v)[2 * c], Flat(v)[2 * c + 1]))
  }

  /** A word access goes byte by byte, low byte first. */
  function WriteWord(v: Adapter, addr: u32, x: u16): (r: Option<Adapter>)
    requires Valid(v) && addr < 0xffff_ffff
    ensures r.Some? ==> Valid(r.value)
  {
    var w := WriteByte(v, addr, x % 0x100);
    if w.None? then None else WriteByte(w.value, addr + 1, x / 0x100)
  }

  /** Writing a cell word changes that cell alone: display memory is the array of words
      that the terminal writes to. */
  lemma WriteWordIsCell(v: Adapter, c: nat, x: u16)
    requires Valid(v) && TextSetup(v.setup) && c < 0x4000
    ensures WriteWord(v, 0xb8000 + 2 * c, x).Some?
    ensures var w := WriteWord(v, 0xb8000 + 2 * c, x).value;
            w.setup == v.setup && w.planes[2..] == v.planes[2..] && Cells(w) == Cells(v)[c := x]
  {
    hide Flat, WriteByte;
    WriteIsFlat(v, 0xb8000 + 2 * c, x % 0x100);
    var u := WriteByte(v, 0xb8000 + 2 * c, x % 0x100).value;
    WriteIsFlat(u, 0xb8000 + 2 * c + 1, x / 0x100);
    var w := WriteByte(u, 0xb8000 + 2 * c + 1, x / 0x100).value;
    assert Flat(w) == Flat(v)[2 * c := x % 0x100][2 * c + 1 := x / 0x100];
  }

  /** A 40-column screen of 25 rows. */
  predicate TerminalGeometry(g: Geometry) {
    Fits(g) && g.cols == 40 && g.rows == 25
  }

  /** Once the terminal's cells are in display memory, character k of a text, if its row is
      still on the screen, is what all the dots of its cell show, in the attribute 0x07. */
  lemma TextInCell(v: Adapter, g: Geometry, s: Terminal.Screen, p: Terminal.Page,
                   text: seq<byte>, k: nat, i: nat, j: nat)
    requires Valid(v) && TerminalGeometry(g) && i < g.reps && j < 8
    requires Terminal.Shows(s, p) && k < |text| && Cells(v) == Terminal.WriteText(s, text).cells
    ensures var q := Terminal.Print(p, text[..k]); var top := Terminal.Print(p, text).rows - 25;
            q.y >= top ==>
              && InGeometry(g, q.y - top, q.x, i, j)
              && PixelOf(g, q.y - top, q.x, i, j) < 0x1_0000_0000
              && AttrIndexText(v, g, PixelOf(g, q.y - top, q.x, i, j)) == Some(Dot(v, g, text[k], 0x07, i, j))
  {
    hide Dot, PixelNumber, AttrIndexText, Flat, Cells, Terminal.WriteText, Terminal.Print, Terminal.Glyph,
         Terminal.Windowed;
    var q, top := Terminal.Print(p, text[..k]), Terminal.Print(p, text).rows - 25;
    if q.y >= top {
      CellOnScreen(s, p, text, k);
      var cell := (q.y - top) * 40 + q.x;
      CellParts(v, cell);
      PixelShowsCell(v, g, q.y - top, q.x, i, j);
      SplitGlyph(Flat(v)[2 * cell], Flat(v)[2 * cell + 1], text[k]);
    }
  }

  lemma CellOnScreen(s: Terminal.Screen, p: Terminal.Page, text: seq<byte>, k: nat)
    requires Terminal.Shows(s, p) && k < |text|
    ensures var q := Terminal.Print(p, text[..k]); var top := Terminal.Print(p, text).rows - 25;
            q.y >= top ==>
              && q.y - top < 25 && q.x < 40
              && (q.y - top) * 40 + q.x < |Terminal.WriteText(s, text).cells|
              && Terminal.WriteText(s, text).cells[(q.y - top) * 40 + q.x] == Terminal.Glyph(text[k])
  {
    hide Terminal.WriteText, Terminal.Print, Terminal.Glyph, Terminal.Windowed;
    Terminal.CharOnScreen(s, p, text, k);
  }

  lemma CellParts(v: Adapter, c: nat)
    requires Valid(v) && c < 0x4000
    ensures Cells(v)[c] == CellOf(Flat(v)[2 * c], Flat(v)[2 * c + 1])
  {
    hide Flat;
  }

  lemma SplitGlyph(low: byte, high: byte, c: byte)
    requires CellOf(low, high) == Terminal.Glyph(c)
    ensures low == c && high == 0x07
  {
  }

  // ------------------------------------------------------------- the objects

  /** Fills a buffer with three bytes per pixel; `colours` is what the attribute and
      palette registers make of an attribute index. */
  method DisplayRgbImage(v: Adapter, g: Geometry, buffer: array<byte>, size: u32, colours: seq<u32>)
    returns (alive: bool)
    requires Valid(v) && Displayable(g) && buffer.Length >= 3 * size && |colours| == 256
    modifies buffer
    ensures alive <==> forall n :: 0 <= n < size ==> AttrIndexText(v, g, n).Some?
    ensures alive ==> forall n :: 0 <= n < size ==>
                        Rgb(buffer[..], n, colours[AttrIndexText(v, g, n).value])
    ensures forall q :: 3 * size <= q < buffer.Length ==> buffer[q] == old(buffer[q])
  {
    hide AttrIndexText;
    var n := 0;
    while n < size
      invariant 0 <= n <= size
      invariant forall m :: 0 <= m < n ==> AttrIndexText(v, g, m).Some?
      invariant forall m :: 0 <= m < n ==> Rgb(buffer[..], m, colours[AttrIndexText(v, g, m).value])
      invariant forall q :: 3 * size <= q < buffer.Length ==> buffer[q] == old(buffer[q])
    {
      var index := AttrIndexText(v, g, n);
      if index.None? {
        return false;
      }
      var rgb := colours[index.value];
      ghost var before := buffer[..];
      buffer[3 * n] := rgb % 0x100;
      buffer[3 * n + 1] := rgb / 0x100 % 0x100;
      buffer[3 * n + 2] := rgb / 0x1_0000 % 0x100;
      forall m | 0 <= m < n ensures Rgb(buffer[..], m, colours[AttrIndexText(v, g, m).value]) {
        assert Rgb(before, m, colours[AttrIndexText(v, g, m).value]);
      }
      n := n + 1;
    }
    alive := true;
  }

  ghost predicate Rgb(buffer: seq<byte>, n: nat, colour: u32) {
    && 3 * n + 3 <= |buffer|
    && buffer[3 * n] == colour % 0x100
    && buffer[3 * n + 1] == colour / 0x100 % 0x100
    && buffer[3 * n + 2] == colour / 0x1_0000 % 0x100
  }
}
