/** The instruction decoder.  Main results: decoding and the encoding grammar agree, both
    ways, over all byte strings, modes and prefix sets; so the length consumed is the
    length of the one encoding the bytes begin with. */
module Decoder {
  import opened Words
  import Cpu

  datatype Repetition = None_ | RepZ | RepNZ

  /** A decoded instruction; unions are kept as the raw word that their bytes make. */
  datatype Instr = Instr(lock: bool, rep: Repetition, segment: Option<nat>, operand: bool, address: bool,
                         opcode: u16, modrm: byte, sib: byte, disp: u32, imm: u32, ptr: u16, moffs: u32)

  const EMPTY := Instr(false, None_, None, false, false, 0, 0, 0, 0, 0, 0, 0)

  /** What an opcode is followed by. */
  datatype Shape = Shape(modrm: bool, imm32: bool, imm16: bool, imm8: bool, ptr: bool, moffs: bool)

  datatype Table = Table(common: map<u16, Shape>, mode16: map<u16, Shape>, mode32: map<u16, Shape>)

  function Mod(modrm: byte): nat { modrm / 64 }
  function Rm(modrm: byte): nat { modrm % 8 }
  function Base(sib: byte): nat { sib % 8 }

  /** Little-endian value of up to four bytes. */
  function Value(bytes: seq<byte>): (v: nat)
    requires |bytes| <= 4
    ensures |bytes| == 1 ==> v < 0x100
    ensures |bytes| == 2 ==> v < 0x1_0000
    ensures v < 0x1_0000_0000
  {
    (if |bytes| > 0 then bytes[0] as int else 0) + 0x100 * (if |bytes| > 1 then bytes[1] as int else 0)
    + 0x1_0000 * (if |bytes| > 2 then bytes[2] as int else 0)
    + 0x100_0000 * (if |bytes| > 3 then bytes[3] as int else 0)
  }

  // ------------------------------------------------------------- prefixes

  predicate IsPrefix(b: byte) {
    b in {0x26, 0x2e, 0x36, 0x3e, 0x64, 0x65, 0x66, 0x67, 0xf2, 0xf3, 0xf0}
  }

  /** The CS override falls through to that of SS. */
  function Prefixed(i: Instr, b: byte): Instr {
    if b == 0x26 then i.(segment := Some(Cpu.ES))
    else if b == 0x2e || b == 0x36 then i.(segment := Some(Cpu.SS))
    else if b == 0x3e then i.(segment := Some(Cpu.DS))
    else if b == 0x64 then i.(segment := Some(Cpu.FS))
    else if b == 0x65 then i.(segment := Some(Cpu.GS))
    else if b == 0x66 then i.(operand := true)
    else if b == 0x67 then i.(address := true)
    else if b == 0xf2 then i.(rep := RepNZ)
    else if b == 0xf3 then i.(rep := RepZ)
    else if b == 0xf0 then i.(lock := true)
    else i
  }

  function AllPrefixed(i: Instr, prefixes: seq<byte>): Instr {
    if prefixes == [] then i else Prefixed(AllPrefixed(i, prefixes[..|prefixes| - 1]), prefixes[|prefixes| - 1])
  }

  /** The instruction and the position after the prefixes; None when the bytes run out. */
  function DecodePrefixes(code: seq<byte>, p: nat, i: Instr): (r: Option<(Instr, nat)>)
    ensures r.Some? ==> r.value.1 < |code|
    decreases |code| - p
  {
    if p >= |code| then None
    else if IsPrefix(code[p]) then DecodePrefixes(code, p + 1, Prefixed(i, code[p]))
    else Some((i, p))
  }

  // ------------------------------------------------------------- the other stages

  predicate Mode32(db: bool, i: Instr) {
    db != i.operand
  }

  /** The decoder's and the address calculator's test, as they write it. */
  predicate Address32(db: bool, i: Instr) {
    Mode32(db, i) != (i.operand != i.address)
  }

  function DecodeOpcode(code: seq<byte>, p: nat, i: Instr): Option<(Instr, nat)> {
    if p >= |code| then None
    else if code[p] != 0x0f then Some((i.(opcode := code[p]), p + 1))
    else if p + 1 >= |code| then None
    else Some((i.(opcode := 0x0f00 + code[p + 1] as int), p + 2))
  }

  function ShapeOf(table: Table, db: bool, i: Instr): Option<Shape> {
    if i.opcode in table.common then Some(table.common[i.opcode])
    else
      var m := if Mode32(db, i) then table.mode32 else table.mode16;
      if i.opcode in m then Some(m[i.opcode]) else None
  }

  /** A field of n bytes whose read needs `need` bytes to be there. */
  function Field(code: seq<byte>, p: nat, n: nat, need: nat): Option<seq<byte>>
    requires n <= need
  {
    if p + need <= |code| then Some(code[p..p + n]) else None
  }

  predicate HasSib(wide: bool, modrm: byte) {
    wide && Mod(modrm) != 3 && Rm(modrm) == 4
  }

  /** Bytes of displacement; `sib` is zero when there is none. */
  function DispSize(wide: bool, modrm: byte, sib: byte): (n: nat)
    ensures n in {0, 1, 2, 4}
  {
    if wide then
      if Mod(modrm) == 2 || (Mod(modrm) == 0 && Rm(modrm) == 5) || (Mod(modrm) == 0 && Base(sib) == 5) then 4
      else if Mod(modrm) == 1 then 1 else 0
    else
      if (Mod(modrm) == 0 && Rm(modrm) == 6) || Mod(modrm) == 2 then 2
      else if Mod(modrm) == 1 then 1 else 0
  }

  /** A 16-bit displacement is read as four bytes, of which two are used. */
  function ReadSize(n: nat): nat {
    if n == 2 then 4 else n
  }

  function DecodeModrm(code: seq<byte>, p: nat, db: bool, i: Instr): Option<(Instr, nat)> {
    if p >= |code| then None
    else
      var j := i.(modrm := code[p]);
      var wide := Address32(db, j);
      if HasSib(wide, code[p]) then
        if p + 1 >= |code| then None
        else DecodeDisp(code, p + 2, wide, j.(sib := code[p + 1]))
      else DecodeDisp(code, p + 1, wide, j)
  }

  function DecodeDisp(code: seq<byte>, p: nat, wide: bool, i: Instr): Option<(Instr, nat)> {
    var n := DispSize(wide, i.modrm, i.sib);
    var f := Field(code, p, n, ReadSize(n));
    if f.None? then None else Some((if n == 0 then i else i.(disp := Value(f.value)), p + n))
  }

  function ImmSize(shape: Shape): (n: nat)
    ensures n in {0, 1, 2, 4}
  {
    if shape.imm32 then 4 else if shape.imm16 then 2 else if shape.imm8 then 1 else 0
  }

  function MoffsSize(db: bool, i: Instr): nat {
    if Address32(db, i) then 4 else 2
  }

  function DecodeTail(code: seq<byte>, p: nat, db: bool, shape: Shape, i: Instr): Option<(Instr, nat)> {
    var n := ImmSize(shape);
    var imm := Field(code, p, n, n);
    if imm.None? then None
    else
      var j := if n == 0 then i else i.(imm := Value(imm.value));
      var m := if shape.ptr then 2 else 0;
      var ptr := Field(code, p + n, m, m);
      if ptr.None? then None
      else
        var k := if m == 0 then j else j.(ptr := Value(ptr.value));
        var l := if shape.moffs then MoffsSize(db, i) else 0;
        var moffs := Field(code, p + n + m, l, l);
        if moffs.None? then None
        else Some((if l == 0 then k else k.(moffs := Value(moffs.value)), p + n + m + l))
  }

  /** The instruction the bytes begin with, and the bytes it takes; None when they run
      out or the opcode is unknown. */
  function Decode(code: seq<byte>, db: bool, table: Table): Option<(Instr, nat)> {
    var a := DecodePrefixes(code, 0, EMPTY);
    if a.None? then None
    else
      var b := DecodeOpcode(code, a.value.1, a.value.0);
      if b.None? then None
      else
        var shape := ShapeOf(table, db, b.value.0);
        if shape.None? then None
        else
          var c := if shape.value.modrm then DecodeModrm(code, b.value.1, db, b.value.0) else b;
          if c.None? then None else DecodeTail(code, c.value.1, db, shape.value, c.value.0)
  }

  // ------------------------------------------------------------- the grammar

  /** The parts of an encoded instruction, in order. */
  datatype Encoding = Encoding(prefixes: seq<byte>, opcode: seq<byte>, modrm: seq<byte>, sib: seq<byte>,
                               disp: seq<byte>, imm: seq<byte>, ptr: seq<byte>, moffs: seq<byte>)

  function Bytes(e: Encoding): seq<byte> {
    e.prefixes + (e.opcode + (e.modrm + (e.sib + (e.disp + (e.imm + (e.ptr + e.moffs))))))
  }

  function Head(e: Encoding): Instr
    requires 1 <= |e.opcode| <= 2
  {
    AllPrefixed(EMPTY, e.prefixes).(opcode := if |e.opcode| == 1 then e.opcode[0] else 0x0f00 + e.opcode[1] as int)
  }

  predicate LegalOpcode(opcode: seq<byte>) {
    if |opcode| == 1 then !IsPrefix(opcode[0]) && opcode[0] != 0x0f
    else |opcode| == 2 && opcode[0] == 0x0f
  }

  /** Each part is there exactly when mode, prefixes, opcode and the parts before it say. */
  ghost predicate Legal(e: Encoding, db: bool, table: Table) {
    && (forall b :: b in e.prefixes ==> IsPrefix(b))
    && LegalOpcode(e.opcode)
    && ShapeOf(table, db, Head(e)).Some?
    && var shape := ShapeOf(table, db, Head(e)).value;
       var wide := Address32(db, Head(e));
       && |e.modrm| == (if shape.modrm then 1 else 0)
       && |e.sib| == (if shape.modrm && HasSib(wide, e.modrm[0]) then 1 else 0)
       && |e.disp| == (if shape.modrm then DispSize(wide, e.modrm[0], Only(e.sib)) else 0)
       && |e.imm| == ImmSize(shape)
       && |e.ptr| == (if shape.ptr then 2 else 0)
       && |e.moffs| == (if shape.moffs then MoffsSize(db, Head(e)) else 0)
  }

  function Only(part: seq<byte>): byte {
    if part == [] then 0 else part[0]
  }

  /** The instruction an encoding stands for. */
  function Meaning(e: Encoding): Instr
    requires 1 <= |e.opcode| <= 2 && |e.disp| <= 4 && |e.imm| <= 4 && |e.ptr| <= 2 && |e.moffs| <= 4
  {
    Head(e).(modrm := Only(e.modrm), sib := Only(e.sib), disp := Value(e.disp),
             imm := Value(e.imm), ptr := Value(e.ptr), moffs := Value(e.moffs))
  }

  /** A part lies at a position of the code. */
  predicate At(code: seq<byte>, p: nat, part: seq<byte>) {
    p + |part| <= |code| && code[p..p + |part|] == part
  }

  lemma AtSplit(code: seq<byte>, p: nat, x: seq<byte>, y: seq<byte>)
    ensures At(code, p, x + y) <==> At(code, p, x) && At(code, p + |x|, y)
  {
    if p + |x| + |y| <= |code| {
      assert code[p..p + |x + y|] == code[p..p + |x|] + code[p + |x|..p + |x| + |y|];
      assert (x + y)[..|x|] == x && (x + y)[|x|..] == y;
    }
  }

  /** The parts of an encoding lie one after the other. */
  predicate Laid(code: seq<byte>, e: Encoding) {
    var p1 := |e.prefixes|;
    var p2 := p1 + |e.opcode|;
    var p3 := p2 + |e.modrm|;
    var p4 := p3 + |e.sib|;
    var p5 := p4 + |e.disp|;
    var p6 := p5 + |e.imm|;
    var p7 := p6 + |e.ptr|;
    && At(code, 0, e.prefixes) && At(code, p1, e.opcode) && At(code, p2, e.modrm) && At(code, p3, e.sib)
    && At(code, p4, e.disp) && At(code, p5, e.imm) && At(code, p6, e.ptr) && At(code, p7, e.moffs)
  }

  lemma LaidIff(code: seq<byte>, e: Encoding)
    ensures At(code, 0, Bytes(e)) <==> Laid(code, e)
  {
    hide At;
    var q7 := e.ptr + e.moffs;
    var q6 := e.imm + q7;
    var q5 := e.disp + q6;
    var q4 := e.sib + q5;
    var q3 := e.modrm + q4;
    var q2 := e.opcode + q3;
    var p1 := |e.prefixes|;
    var p2 := p1 + |e.opcode|;
    var p3 := p2 + |e.modrm|;
    var p4 := p3 + |e.sib|;
    var p5 := p4 + |e.disp|;
    var p6 := p5 + |e.imm|;
    AtSplit(code, 0, e.prefixes, q2);
    AtSplit(code, p1, e.opcode, q3);
    AtSplit(code, p2, e.modrm, q4);
    AtSplit(code, p3, e.sib, q5);
    AtSplit(code, p4, e.disp, q6);
    AtSplit(code, p5, e.imm, q7);
    AtSplit(code, p6, e.ptr, e.moffs);
  }

  // ------------------------------------------------------------- prefixes, both ways

  lemma {:induction false} FirstPrefix(i: Instr, prefixes: seq<byte>)
    requires prefixes != []
    ensures AllPrefixed(i, prefixes) == AllPrefixed(Prefixed(i, prefixes[0]), prefixes[1..])
  {
    hide Prefixed;
    var n := |prefixes| - 1;
    if n == 0 {
      assert prefixes[..0] == [] && prefixes[1..] == [];
    } else {
      FirstPrefix(i, prefixes[..n]);
      assert prefixes[..n][1..] == prefixes[1..][..n - 1];
    }
  }

  lemma {:induction false} PrefixesForward(code: seq<byte>, p: nat, i: Instr, prefixes: seq<byte>)
    requires At(code, p, prefixes) && (forall b :: b in prefixes ==> IsPrefix(b))
    requires p + |prefixes| < |code| && !IsPrefix(code[p + |prefixes|])
    ensures DecodePrefixes(code, p, i) == Some((AllPrefixed(i, prefixes), p + |prefixes|))
    decreases |prefixes|
  {
    hide Prefixed, IsPrefix;
    if prefixes != [] {
      FirstPrefix(i, prefixes);
      assert code[p] == prefixes[0] && prefixes[0] in prefixes;
      assert At(code, p + 1, prefixes[1..]) by {
        AtSplit(code, p, prefixes[..1], prefixes[1..]);
        assert prefixes == prefixes[..1] + prefixes[1..];
      }
      PrefixesForward(code, p + 1, Prefixed(i, code[p]), prefixes[1..]);
    }
  }

  lemma {:induction false} PrefixesBackward(code: seq<byte>, p: nat, i: Instr)
    requires DecodePrefixes(code, p, i).Some?
    ensures var (j, q) := DecodePrefixes(code, p, i).value;
            && p <= q < |code| && !IsPrefix(code[q])
            && (forall b :: b in code[p..q] ==> IsPrefix(b)) && j == AllPrefixed(i, code[p..q])
    decreases |code| - p
  {
    hide Prefixed, IsPrefix;
    if IsPrefix(code[p]) {
      PrefixesBackward(code, p + 1, Prefixed(i, code[p]));
      var q := DecodePrefixes(code, p, i).value.1;
      FirstPrefix(i, code[p..q]);
      assert code[p..q] == [code[p]] + code[p + 1..q];
    }
  }

  /** The last segment prefix decides, and one for CS counts as one for SS. */
  lemma SegmentPrefix(i: Instr, prefixes: seq<byte>, b: byte)
    requires b in {0x26, 0x2e, 0x36, 0x3e, 0x64, 0x65}
    ensures AllPrefixed(i, prefixes + [b]).segment.Some?
    ensures AllPrefixed(i, prefixes + [b]).segment == Some(Cpu.SS) <==> b == 0x2e || b == 0x36
    ensures AllPrefixed(i, prefixes + [b]).segment != Some(Cpu.CS)
  {
    assert (prefixes + [b])[..|prefixes|] == prefixes;
  }

  // ------------------------------------------------------------- stages, both ways

  lemma PrefixesKeepFields(prefixes: seq<byte>)
    ensures var i := AllPrefixed(EMPTY, prefixes);
            i.modrm == 0 && i.sib == 0 && i.disp == 0 && i.imm == 0 && i.ptr == 0 && i.moffs == 0 && i.opcode == 0
  {
    if prefixes != [] {
      PrefixesKeepFields(prefixes[..|prefixes| - 1]);
    }
  }

  lemma FieldAt(code: seq<byte>, p: nat, part: seq<byte>, need: nat)
    requires At(code, p, part) && |part| <= need && p + need <= |code|
    ensures Field(code, p, |part|, need) == Some(part)
  {
  }

  lemma DispForward(code: seq<byte>, p: nat, wide: bool, i: Instr, disp: seq<byte>)
    requires At(code, p, disp) && |disp| == DispSize(wide, i.modrm, i.sib) && p + ReadSize(|disp|) <= |code|
    requires i.disp == 0
    ensures DecodeDisp(code, p, wide, i) == Some((i.(disp := Value(disp)), p + |disp|))
  {
    hide DispSize, Value;
    FieldAt(code, p, disp, ReadSize(|disp|));
    NoValue();
  }

  lemma NoValue()
    ensures Value([]) == 0
  {
  }

  lemma ModrmForward(code: seq<byte>, p: nat, db: bool, i: Instr, modrm: seq<byte>, sib: seq<byte>, disp: seq<byte>)
    requires |modrm| == 1 && i.disp == 0 && i.sib == 0 && var wide := Address32(db, i);
             && |sib| == (if HasSib(wide, modrm[0]) then 1 else 0) && |disp| == DispSize(wide, modrm[0], Only(sib))
    requires At(code, p, modrm) && At(code, p + 1, sib) && At(code, p + 1 + |sib|, disp)
    requires p + 1 + |sib| + ReadSize(|disp|) <= |code|
    ensures DecodeModrm(code, p, db, i)
            == Some((i.(modrm := modrm[0], sib := Only(sib), disp := Value(disp)), p + 1 + |sib| + |disp|))
  {
    hide DispSize, Value, HasSib, DecodeDisp;
    var j := i.(modrm := modrm[0], sib := Only(sib));
    DispForward(code, p + 1 + |sib|, Address32(db, i), j, disp);
    assert code[p] == modrm[0];
    assert |sib| == 1 ==> code[p + 1] == sib[0];
    assert |sib| == 0 ==> j == i.(modrm := code[p]);
  }

  lemma TailForward(code: seq<byte>, p: nat, db: bool, shape: Shape, i: Instr,
                    imm: seq<byte>, ptr: seq<byte>, moffs: seq<byte>)
    requires i.imm == 0 && i.ptr == 0 && i.moffs == 0 && |imm| == ImmSize(shape) &&
             |ptr| == (if shape.ptr then 2 else 0)
    requires |moffs| == if shape.moffs then MoffsSize(db, i) else 0
    requires At(code, p, imm) && At(code, p + |imm|, ptr) && At(code, p + |imm| + |ptr|, moffs)
    ensures DecodeTail(code, p, db, shape, i)
            == Some((i.(imm := Value(imm), ptr := Value(ptr), moffs := Value(moffs)), p + |imm| + |ptr| + |moffs|))
  {
    hide Value, ImmSize, Address32;
    FieldAt(code, p, imm, |imm|);
    FieldAt(code, p + |imm|, ptr, |ptr|);
    FieldAt(code, p + |imm| + |ptr|, moffs, |moffs|);
    NoValue();
  }

  lemma OpcodeForward(code: seq<byte>, p: nat, i: Instr, opcode: seq<byte>)
    requires At(code, p, opcode) && LegalOpcode(opcode)
    ensures DecodeOpcode(code, p, i)
            == Some((i.(opcode := if |opcode| == 1 then opcode[0] else 0x0f00 + opcode[1] as int), p + |opcode|))
    ensures !IsPrefix(code[p])
  {
    assert code[p] == opcode[0];
    assert |opcode| == 2 ==> code[p + 1] == opcode[1];
  }

  /** A 16-bit displacement is followed by the two bytes its long read takes along. */
  predicate LongReadFits(code: seq<byte>, e: Encoding) {
    |e.disp| == 2 ==> |e.prefixes| + |e.opcode| + |e.modrm| + |e.sib| + 4 <= |code|
  }

  /** Decoding what the grammar encodes gives it back, and consumes exactly its bytes,
      whatever follows; something must follow only a 16-bit displacement at the end. */
  lemma DecodeEncoded(code: seq<byte>, e: Encoding, db: bool, table: Table)
    requires Legal(e, db, table) && At(code, 0, Bytes(e)) && LongReadFits(code, e)
    ensures Decode(code, db, table) == Some((Meaning(e), |Bytes(e)|))
  {
    LaidIff(code, e);
    hide Value, AllPrefixed, IsPrefix, DispSize, HasSib, ImmSize, DecodeModrm, DecodeTail, DecodeOpcode,
         DecodePrefixes, ShapeOf, MoffsSize, Bytes, At;
    BytesLength(e);
    var p1 := |e.prefixes|;
    var p2 := p1 + |e.opcode|;
    OpcodeForward(code, p1, AllPrefixed(EMPTY, e.prefixes), e.opcode);
    AtInside(code, p1, e.opcode);
    PrefixesForward(code, 0, EMPTY, e.prefixes);
    PrefixesKeepFields(e.prefixes);
    NoValue();
    var shape := ShapeOf(table, db, Head(e)).value;
    var i := Head(e);
    if shape.modrm {
      DispInside(code, p2 + |e.modrm| + |e.sib|, e.disp);
      ModrmForward(code, p2, db, i, e.modrm, e.sib, e.disp);
      i := i.(modrm := e.modrm[0], sib := Only(e.sib), disp := Value(e.disp));
    }
    SameMoffs(db, Head(e), i);
    TailForward(code, p2 + |e.modrm| + |e.sib| + |e.disp|, db, shape, i, e.imm, e.ptr, e.moffs);
  }

  lemma DispInside(code: seq<byte>, p: nat, disp: seq<byte>)
    requires At(code, p, disp) && (|disp| == 2 ==> p + 4 <= |code|)
    ensures p + ReadSize(|disp|) <= |code|
  {
  }

  lemma AtInside(code: seq<byte>, p: nat, part: seq<byte>)
    requires At(code, p, part)
    ensures p + |part| <= |code|
  {
  }

  lemma BytesLength(e: Encoding)
    ensures |Bytes(e)| == |e.prefixes| + |e.opcode| + |e.modrm| + |e.sib| + |e.disp| + |e.imm| + |e.ptr| + |e.moffs|
  {
  }

  lemma SameMoffs(db: bool, i: Instr, j: Instr)
    requires j == i.(modrm := j.modrm, sib := j.sib, disp := j.disp)
    ensures MoffsSize(db, i) == MoffsSize(db, j)
  {
  }

  lemma DispBackward(code: seq<byte>, p: nat, wide: bool, i: Instr) returns (disp: seq<byte>)
    requires DecodeDisp(code, p, wide, i).Some? && i.disp == 0
    ensures At(code, p, disp) && |disp| == DispSize(wide, i.modrm, i.sib) && p + ReadSize(|disp|) <= |code|
    ensures DecodeDisp(code, p, wide, i).value == (i.(disp := Value(disp)), p + |disp|)
  {
    hide DispSize, Value;
    var n := DispSize(wide, i.modrm, i.sib);
    disp := code[p..p + n];
    NoValue();
  }

  lemma ModrmBackward(code: seq<byte>, p: nat, db: bool, i: Instr)
    returns (modrm: seq<byte>, sib: seq<byte>, disp: seq<byte>)
    requires DecodeModrm(code, p, db, i).Some? && i.disp == 0 && i.sib == 0
    ensures |modrm| == 1 && var wide := Address32(db, i);
            && |sib| == (if HasSib(wide, modrm[0]) then 1 else 0) && |disp| == DispSize(wide, modrm[0], Only(sib))
    ensures At(code, p, modrm) && At(code, p + 1, sib) && At(code, p + 1 + |sib|, disp)
    ensures p + 1 + |sib| + ReadSize(|disp|) <= |code|
    ensures DecodeModrm(code, p, db, i).value
            == (i.(modrm := modrm[0], sib := Only(sib), disp := Value(disp)), p + 1 + |sib| + |disp|)
  {
    hide DispSize, Value, HasSib, DecodeDisp;
    modrm := [code[p]];
    var j := i.(modrm := code[p]);
    var wide := Address32(db, j);
    if HasSib(wide, code[p]) {
      sib := [code[p + 1]];
      disp := DispBackward(code, p + 2, wide, j.(sib := code[p + 1]));
    } else {
      sib := [];
      disp := DispBackward(code, p + 1, wide, j);
    }
  }

  lemma TailBackward(code: seq<byte>, p: nat, db: bool, shape: Shape, i: Instr)
    returns (imm: seq<byte>, ptr: seq<byte>, moffs: seq<byte>)
    requires i.imm == 0 && i.ptr == 0 && i.moffs == 0 && DecodeTail(code, p, db, shape, i).Some?
    ensures |imm| == ImmSize(shape) && |ptr| == (if shape.ptr then 2 else 0)
    ensures |moffs| == if shape.moffs then MoffsSize(db, i) else 0
    ensures At(code, p, imm) && At(code, p + |imm|, ptr) && At(code, p + |imm| + |ptr|, moffs)
    ensures DecodeTail(code, p, db, shape, i).value
            == (i.(imm := Value(imm), ptr := Value(ptr), moffs := Value(moffs)), p + |imm| + |ptr| + |moffs|)
  {
    hide Value, ImmSize, Address32;
    var n := ImmSize(shape);
    var m := if shape.ptr then 2 else 0;
    var l := if shape.moffs then MoffsSize(db, i) else 0;
    imm, ptr, moffs := code[p..p + n], code[p + n..p + n + m], code[p + n + m..p + n + m + l];
    NoValue();
  }

  lemma OpcodeBackward(code: seq<byte>, p: nat, i: Instr) returns (opcode: seq<byte>)
    requires DecodeOpcode(code, p, i).Some? && p < |code| && !IsPrefix(code[p])
    ensures LegalOpcode(opcode) && At(code, p, opcode)
    ensures DecodeOpcode(code, p, i).value
            == (i.(opcode := if |opcode| == 1 then opcode[0] else 0x0f00 + opcode[1] as int), p + |opcode|)
  {
    opcode := if code[p] != 0x0f then [code[p]] else code[p..p + 2];
  }

  /** The stage a shape may leave out. */
  function DecodeMiddle(code: seq<byte>, p: nat, db: bool, shape: Shape, i: Instr): Option<(Instr, nat)> {
    if shape.modrm then DecodeModrm(code, p, db, i) else Some((i, p))
  }

  lemma MiddleBackward(code: seq<byte>, p: nat, db: bool, shape: Shape, i: Instr)
    returns (modrm: seq<byte>, sib: seq<byte>, disp: seq<byte>)
    requires DecodeMiddle(code, p, db, shape, i).Some? && i.modrm == 0 && i.disp == 0 && i.sib == 0 && p <= |code|
    ensures |modrm| == (if shape.modrm then 1 else 0)
    ensures var wide := Address32(db, i);
            && |sib| == (if shape.modrm && HasSib(wide, modrm[0]) then 1 else 0)
            && |disp| == (if shape.modrm then DispSize(wide, modrm[0], Only(sib)) else 0)
    ensures At(code, p, modrm) && At(code, p + |modrm|, sib) && At(code, p + |modrm| + |sib|, disp)
    ensures p + |modrm| + |sib| + ReadSize(|disp|) <= |code|
    ensures DecodeMiddle(code, p, db, shape, i).value
            == (i.(modrm := Only(modrm), sib := Only(sib), disp := Value(disp)), p + |modrm| + |sib| + |disp|)
  {
    hide DispSize, Value, HasSib, DecodeModrm;
    modrm, sib, disp := [], [], [];
    NoValue();
    if shape.modrm {
      modrm, sib, disp := ModrmBackward(code, p, db, i);
    }
  }

  lemma FrontBackward(code: seq<byte>) returns (prefixes: seq<byte>, opcode: seq<byte>)
    requires DecodePrefixes(code, 0, EMPTY).Some?
    requires var (i, p) := DecodePrefixes(code, 0, EMPTY).value; DecodeOpcode(code, p, i).Some?
    ensures (forall b :: b in prefixes ==> IsPrefix(b)) && LegalOpcode(opcode)
    ensures At(code, 0, prefixes) && At(code, |prefixes|, opcode)
    ensures var (i, p) := DecodePrefixes(code, 0, EMPTY).value;
            DecodeOpcode(code, p, i).value
            == (AllPrefixed(EMPTY, prefixes).(opcode := if |opcode| == 1 then opcode[0] else 0x0f00 + opcode[1] as int),
                |prefixes| + |opcode|)
  {
    hide AllPrefixed, IsPrefix, DecodeOpcode, DecodePrefixes;
    var (i, p) := DecodePrefixes(code, 0, EMPTY).value;
    PrefixesBackward(code, 0, EMPTY);
    prefixes := code[0..p];
    opcode := OpcodeBackward(code, p, i);
  }

  /** Whatever is decoded is an encoding of the grammar that the bytes begin with: the
      length consumed is that encoding's, and the fields are its meaning. */
  lemma DecodedIsEncoded(code: seq<byte>, db: bool, table: Table) returns (e: Encoding)
    requires Decode(code, db, table).Some?
    ensures Legal(e, db, table) && At(code, 0, Bytes(e)) && LongReadFits(code, e)
    ensures Decode(code, db, table).value == (Meaning(e), |Bytes(e)|)
  {
    hide Value, AllPrefixed, IsPrefix, DispSize, HasSib, ImmSize, DecodeModrm, DecodeTail, DecodeOpcode,
         DecodePrefixes, ShapeOf, MoffsSize, Bytes, At, LegalOpcode, Address32;
    var prefixes, opcode := FrontBackward(code);
    OpcodeLength(opcode);
    AtInside(code, |prefixes|, opcode);
    PrefixesKeepFields(prefixes);
    var head := Head(Encoding(prefixes, opcode, [], [], [], [], [], []));
    var shape := ShapeOf(table, db, head).value;
    var modrm, sib, disp := MiddleBackward(code, |prefixes| + |opcode|, db, shape, head);
    var i := head.(modrm := Only(modrm), sib := Only(sib), disp := Value(disp));
    var p := |prefixes| + |opcode| + |modrm| + |sib| + |disp|;
    SameMoffs(db, head, i);
    var imm, ptr, moffs := TailBackward(code, p, db, shape, i);
    e := Encoding(prefixes, opcode, modrm, sib, disp, imm, ptr, moffs);
    BytesLength(e);
    LaidIff(code, e);
  }

  lemma OpcodeLength(opcode: seq<byte>)
    requires LegalOpcode(opcode)
    ensures 1 <= |opcode| <= 2
  {
  }

  /** The instruction has a 16-bit displacement. */
  predicate HasDisp16(i: Instr, db: bool, table: Table) {
    && ShapeOf(table, db, i).Some? && ShapeOf(table, db, i).value.modrm
    && DispSize(Address32(db, i), i.modrm, i.sib) == 2
  }

  /** So no two instructions begin the same bytes: what follows cannot change how an
      instruction is read, nor whether, unless a 16-bit displacement is cut off. */
  lemma OneReading(code: seq<byte>, other: seq<byte>, db: bool, table: Table)
    requires Decode(code, db, table).Some?
    requires var (i, n) := Decode(code, db, table).value;
             n <= |other| && n <= |code| && other[..n] == code[..n] && (HasDisp16(i, db, table) ==> n + 2 <= |other|)
    ensures Decode(other, db, table) == Decode(code, db, table)
  {
    hide Decode, Bytes, Legal, Meaning, HasDisp16;
    var e := DecodedIsEncoded(code, db, table);
    var n := |Bytes(e)|;
    BytesLength(e);
    assert other[0..n] == other[..n] && code[0..n] == code[..n];
    LongDisp(e, db, table);
    DecodeEncoded(other, e, db, table);
  }

  lemma LongDisp(e: Encoding, db: bool, table: Table)
    requires Legal(e, db, table)
    ensures |e.disp| <= 4 && |e.imm| <= 4 && |e.ptr| <= 2 && |e.moffs| <= 4 && 1 <= |e.opcode| <= 2
    ensures |e.disp| == 2 ==> HasDisp16(Meaning(e), db, table)
  {
    hide Value, AllPrefixed, IsPrefix, DispSize;
  }
}
