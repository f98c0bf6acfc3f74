/** Effective addresses.  Main results: the calculator reads exactly the displacement the
    decoder filled, and when its address and its default segment are those of section
    17.2.1 of the Intel 80386 Programmer's Reference Manual. */
module Addressing {
  import opened Words
  import opened Decoder
  import Cpu

  // general registers by number
  const BX := 3
  const SP := 4
  const BP := 5
  const SI := 6
  const DI := 7

  type Registers = r: seq<u32> | |r| == 8 witness seq(8, _ => 0)

  function Index(sib: byte): nat { sib / 8 % 8 }
  function Scale(sib: byte): nat { [1, 2, 4, 8][sib / 64] }

  // the displacement union, read at each of its widths
  function Disp8(i: Instr): int {
    var b := i.disp % 0x100;
    if b < 0x80 then b else b - 0x100
  }

  function Disp16(i: Instr): int {
    Signed16(Wrap16(i.disp))
  }

  // ------------------------------------------------------------- the calculator

  /** calc_modrm16: the sum is a 32-bit word. */
  function Calc16(i: Instr, r: Registers): (u32, nat) {
    var mod, rm := Mod(i.modrm), Rm(i.modrm);
    var disp := if mod == 1 then Disp8(i) else if mod == 2 then Disp16(i) else 0;
    var (base, seg) :=
      if rm == 0 || rm == 1 || rm == 7 then (r[BX] % 0x1_0000, Cpu.DS)
      else if rm == 2 || rm == 3 || rm == 6 then
        if mod == 0 && rm == 6 then (Disp16(i), Cpu.DS) else (r[BP] % 0x1_0000, Cpu.SS)
      else (0, Cpu.DS);
    var index := if rm < 6 then (if rm % 2 == 1 then r[DI] % 0x1_0000 else r[SI] % 0x1_0000) else 0;
    (Wrap32(disp + base + index), seg)
  }

  /** calc_sib: base and default segment; None for the forms that end the program. */
  function CalcSib(i: Instr, r: Registers): Option<(int, nat)> {
    var index := r[Index(i.sib)] * Scale(i.sib);
    if Base(i.sib) == 5 && Mod(i.modrm) == 0 then Some((i.disp + index, Cpu.DS))
    else if Base(i.sib) == 4 then
      if i.sib / 64 == 0 then Some((index, Cpu.SS)) else None
    else Some((r[Base(i.sib)] + index, Cpu.DS))
  }

  function Calc32(i: Instr, r: Registers): Option<(u32, nat)> {
    var mod, rm := Mod(i.modrm), Rm(i.modrm);
    var disp := if mod == 1 then Disp8(i) else if mod == 2 then i.disp as int else 0;
    if rm == 4 then
      var sib := CalcSib(i, r);
      if sib.None? then None else Some((Wrap32(disp + sib.value.0), sib.value.1))
    else if rm == 5 && mod == 0 then Some((Wrap32(disp + i.disp), Cpu.DS))
    else Some((Wrap32(disp + r[rm]), if rm == 5 then Cpu.SS else Cpu.DS))
  }

  // ------------------------------------------------------------- the manual

  /** The signed number that displacement bytes are. */
  function Displacement(disp: seq<byte>): int
    requires |disp| <= 4
  {
    var v := Value(disp);
    if |disp| == 1 then (if v < 0x80 then v else v - 0x100)
    else if |disp| == 2 then (if v < 0x8000 then v else v - 0x1_0000)
    else v
  }

  /** A sum of up to two registers and a displacement; `scale` multiplies the second. */
  datatype Form = Form(base: Option<nat>, index: Option<nat>, scale: nat)

  function Sum(f: Form, r: Registers, modulus: nat): int
    requires modulus > 0 && (f.base.Some? ==> f.base.value < 8) && (f.index.Some? ==> f.index.value < 8)
  {
    (if f.base.Some? then r[f.base.value] % modulus else 0)
    + (if f.index.Some? then r[f.index.value] % modulus * f.scale else 0)
  }

  /** Table 17-2, with registers by number: 3 is BX, 5 BP, 6 SI and 7 DI. */
  function Form16(modrm: byte): (f: Form)
    ensures (f.base.Some? ==> f.base.value < 8) && (f.index.Some? ==> f.index.value < 8) && f.scale == 1
  {
    match Rm(modrm)
    case 0 => Form(Some(3), Some(6), 1)
    case 1 => Form(Some(3), Some(7), 1)
    case 2 => Form(Some(5), Some(6), 1)
    case 3 => Form(Some(5), Some(7), 1)
    case 4 => Form(None, Some(6), 1)
    case 5 => Form(None, Some(7), 1)
    case 6 => if Mod(modrm) == 0 then Form(None, None, 1) else Form(Some(5), None, 1)
    case _ => Form(Some(3), None, 1)
  }

  /** Tables 17-3 and 17-4. */
  function Form32(modrm: byte, sib: byte): (f: Form)
    ensures (f.base.Some? ==> f.base.value < 8) && (f.index.Some? ==> f.index.value < 8)
  {
    if Rm(modrm) == 4 then
      Form(if Base(sib) == 5 && Mod(modrm) == 0 then None else Some(Base(sib)),
           if Index(sib) == 4 then None else Some(Index(sib)), Scale(sib))
    else if Rm(modrm) == 5 && Mod(modrm) == 0 then Form(None, None, 1)
    else Form(Some(Rm(modrm)), None, 1)
  }

  /** SS, 2, is the default segment when the base is BP or SP, else it is DS, 3. */
  function SegmentOf(f: Form): nat {
    if f.base == Some(5) || f.base == Some(4) then 2 else 3
  }

  // ------------------------------------------------------------- the calculator against the manual

  /** Address size is decided by the mode and the prefix 0x67 alone. */
  lemma AddressSize(db: bool, prefixes: seq<byte>)
    ensures Address32(db, AllPrefixed(EMPTY, prefixes)) <==> db != (0x67 in prefixes)
  {
    AddressPrefix(prefixes);
  }

  lemma {:induction false} AddressPrefix(prefixes: seq<byte>)
    ensures AllPrefixed(EMPTY, prefixes).address <==> 0x67 in prefixes
  {
    if prefixes != [] {
      var n := |prefixes| - 1;
      AddressPrefix(prefixes[..n]);
      assert prefixes == prefixes[..n] + [prefixes[n]];
    }
  }

  /** The instruction has a memory operand of this address size. */
  ghost predicate MemoryOperand(e: Encoding, db: bool, table: Table, wide: bool) {
    && Legal(e, db, table) && |e.modrm| == 1 && Mod(e.modrm[0]) != 3 && Address32(db, Head(e)) == wide
  }

  lemma Widths(disp: seq<byte>, i: Instr)
    requires |disp| in {0, 1, 2, 4} && i.disp == Value(disp)
    ensures |disp| == 1 ==> Disp8(i) == Displacement(disp)
    ensures |disp| == 2 ==> Disp16(i) == Displacement(disp)
    ensures |disp| == 4 || |disp| == 0 ==> i.disp as int == Displacement(disp)
    ensures |disp| == 0 ==> i.disp == 0
  {
  }

  /** What the grammar lets a memory operand have. */
  lemma OperandParts(e: Encoding, db: bool, table: Table, wide: bool)
    requires MemoryOperand(e, db, table, wide)
    ensures |e.sib| == (if wide && Rm(e.modrm[0]) == 4 then 1 else 0)
    ensures |e.disp| == DispSize(wide, e.modrm[0], Only(e.sib))
    ensures |e.imm| <= 4 && |e.ptr| <= 2 && |e.moffs| <= 4 && 1 <= |e.opcode| <= 2
    ensures Meaning(e).modrm == e.modrm[0] && Meaning(e).sib == Only(e.sib) && Meaning(e).disp == Value(e.disp)
  {
    hide AllPrefixed, Value, ShapeOf, DispSize;
  }

  /** All 16-bit forms: address modulo 2^16 and default segment are the manual's, with the
      displacement bytes of the encoding; the full 32-bit word is right exactly when the
      sum needs no wrapping. */
  lemma Address16(e: Encoding, db: bool, table: Table, r: Registers)
    requires MemoryOperand(e, db, table, false)
    ensures |e.disp| <= 4 && |e.imm| <= 4 && |e.ptr| <= 2 && |e.moffs| <= 4 && 1 <= |e.opcode| <= 2
    ensures var (addr, seg) := Calc16(Meaning(e), r); var f := Form16(e.modrm[0]);
            var sum := Sum(f, r, 0x1_0000) + Displacement(e.disp);
            && Wrap16(addr) == Wrap16(sum) && seg == SegmentOf(f)
            && (addr == Wrap16(sum) <==> 0 <= sum < 0x1_0000)
  {
    hide Value, AllPrefixed, Legal, Disp8, Disp16, Displacement, Wrap16, Wrap32;
    OperandParts(e, db, table, false);
    var i := Meaning(e);
    Widths(e.disp, i);
    DisplacementRange(e.disp);
    var sum := Sum(Form16(e.modrm[0]), r, 0x1_0000) + Displacement(e.disp);
    assert Calc16(i, r) == (Wrap32(sum), SegmentOf(Form16(e.modrm[0])));
    WordOfWide(sum);
  }

  lemma DisplacementRange(disp: seq<byte>)
    requires |disp| in {0, 1, 2}
    ensures -0x8000 <= Displacement(disp) < 0x8000
    ensures |disp| == 0 ==> Displacement(disp) == 0
  {
  }

  lemma WordOfWide(x: int)
    requires -0x8000 <= x < 0x4_0000
    ensures Wrap16(Wrap32(x)) == Wrap16(x) && (Wrap32(x) == Wrap16(x) <==> 0 <= x < 0x1_0000)
  {
    if x < 0 {
      assert Wrap32(x) as int == x + 0x1_0000_0000;
      Wrap16Step(x, 0x1_0000);
    } else {
      assert Wrap32(x) == x;
    }
  }

  /** The 32-bit forms without SIB: address and default segment are the manual's. */
  lemma Address32Plain(e: Encoding, db: bool, table: Table, r: Registers)
    requires MemoryOperand(e, db, table, true) && Rm(e.modrm[0]) != 4
    ensures |e.disp| <= 4 && |e.imm| <= 4 && |e.ptr| <= 2 && |e.moffs| <= 4 && 1 <= |e.opcode| <= 2
    ensures var f := Form32(e.modrm[0], 0);
            Calc32(Meaning(e), r) == Some((Wrap32(Sum(f, r, 0x1_0000_0000) + Displacement(e.disp)), SegmentOf(f)))
  {
    hide Value, AllPrefixed, Legal, Disp8, Displacement, Wrap32;
    OperandParts(e, db, table, true);
    Widths(e.disp, Meaning(e));
    NoDisplacement(e.disp);
  }

  lemma NoDisplacement(disp: seq<byte>)
    requires |disp| <= 4
    ensures |disp| == 0 ==> Displacement(disp) == 0
  {
  }

  /** The forms with SIB.  The calculator takes a base of ESP as none and an index of "none"
      as ESP: it ends the program for a base of ESP with a scale; otherwise its address is
      the manual's exactly when the stack pointer it drops or adds does not matter, and its
      default segment unless the base is EBP. */
  lemma Address32Sib(e: Encoding, db: bool, table: Table, r: Registers)
    requires MemoryOperand(e, db, table, true) && Rm(e.modrm[0]) == 4
    ensures |e.sib| == 1 && |e.disp| <= 4 && |e.imm| <= 4 && |e.ptr| <= 2 && |e.moffs| <= 4 && 1 <= |e.opcode| <= 2
    ensures var sib, mod := e.sib[0], Mod(e.modrm[0]); var f := Form32(e.modrm[0], sib);
            var base, index, scale := Base(sib), Index(sib), Scale(sib);
            && (Calc32(Meaning(e), r).None? <==> base == 4 && scale != 1)
            && (Calc32(Meaning(e), r).Some? ==>
                  var (addr, seg) := Calc32(Meaning(e), r).value;
                  && (addr == Wrap32(Sum(f, r, 0x1_0000_0000) + Displacement(e.disp)) <==>
                        || (base == 4 && index == 4)
                        || (base != 4 && index != 4)
                        || (base == 4 && index != 4 && r[SP] == 0)
                        || (base != 4 && index == 4 && r[SP] * scale % 0x1_0000_0000 == 0))
                  && (seg == SegmentOf(f) <==> !(base == 5 && mod != 0)))
  {
    hide Value, AllPrefixed, Legal, Disp8, Displacement, Wrap32, Scale, DispSize, Calc32, Form32, Sum, SegmentOf;
    OperandParts(e, db, table, true);
    var i := Meaning(e);
    SibEnds(i, r);
    if Calc32(i, r).Some? {
      SibSum(i, e.disp, r);
      SibAddress(Sum(Form32(i.modrm, i.sib), r, 0x1_0000_0000) + Displacement(e.disp), r[SP],
                 Scale(i.sib), Base(i.sib) == 4, Index(i.sib) == 4);
    }
  }

  /** Where the calculator gives up, and the segment it takes. */
  lemma SibEnds(i: Instr, r: Registers)
    requires Rm(i.modrm) == 4
    ensures Calc32(i, r).None? <==> Base(i.sib) == 4 && Scale(i.sib) != 1
    ensures Calc32(i, r).Some? ==>
              (Calc32(i, r).value.1 == SegmentOf(Form32(i.modrm, i.sib)) <==> !(Base(i.sib) == 5 && Mod(i.modrm) != 0))
  {
    hide Disp8, Wrap32;
  }

  /** How far the calculator's sum is from the manual's. */
  function SibSlip(right: int, sp: u32, scale: nat, noBase: bool, noIndex: bool): int {
    right - (if noBase then sp as int else 0) + (if noIndex then sp * scale else 0)
  }

  lemma SibSum(i: Instr, disp: seq<byte>, r: Registers)
    requires Rm(i.modrm) == 4 && Mod(i.modrm) != 3 && |disp| <= 4 && i.disp == Value(disp)
    requires |disp| == DispSize(true, i.modrm, i.sib) && Calc32(i, r).Some?
    ensures var right := Sum(Form32(i.modrm, i.sib), r, 0x1_0000_0000) + Displacement(disp);
            && Calc32(i, r).value.0 == Wrap32(SibSlip(right, r[SP], Scale(i.sib), Base(i.sib) == 4, Index(i.sib) == 4))
            && (Base(i.sib) == 4 ==> Scale(i.sib) == 1)
  {
    SibEnds(i, r);
    SibDisplacement(i, disp);
    SibRegisters(i, r);
    hide Value, Disp8, Displacement, Wrap32, Scale, DispSize, Form32, Sum, CalcSib;
  }

  /** The displacement the calculator adds, in the sum or as the base. */
  function SibDisp(i: Instr): int {
    if Mod(i.modrm) == 1 then Disp8(i)
    else if Mod(i.modrm) == 2 || (Base(i.sib) == 5 && Mod(i.modrm) == 0) then i.disp
    else 0
  }

  lemma SibDisplacement(i: Instr, disp: seq<byte>)
    requires Rm(i.modrm) == 4 && Mod(i.modrm) != 3 && |disp| <= 4 && i.disp == Value(disp)
    requires |disp| == DispSize(true, i.modrm, i.sib)
    ensures SibDisp(i) == Displacement(disp)
  {
    Widths(disp, i);
    NoDisplacement(disp);
    hide Value, Disp8, Displacement;
  }

  lemma SibRegisters(i: Instr, r: Registers)
    requires Rm(i.modrm) == 4 && CalcSib(i, r).Some?
    ensures (if Mod(i.modrm) == 1 then Disp8(i) else if Mod(i.modrm) == 2 then i.disp as int else 0)
            + CalcSib(i, r).value.0
            == SibSlip(Sum(Form32(i.modrm, i.sib), r, 0x1_0000_0000) + SibDisp(i), r[SP], Scale(i.sib),
                       Base(i.sib) == 4, Index(i.sib) == 4)
  {
    hide Disp8, Scale;
    assert forall k :: 0 <= k < 8 ==> r[k] % 0x1_0000_0000 == r[k];
  }

  lemma SibAddress(right: int, sp: u32, scale: nat, noBase: bool, noIndex: bool)
    requires noBase ==> scale == 1
    ensures Wrap32(SibSlip(right, sp, scale, noBase, noIndex)) == Wrap32(right) <==>
              || (noBase && noIndex) || (!noBase && !noIndex)
              || (noBase && !noIndex && sp == 0)
              || (!noBase && noIndex && sp * scale % 0x1_0000_0000 == 0)
  {
    WrapEqual(SibSlip(right, sp, scale, noBase, noIndex), right);
    hide Wrap32;
  }

  lemma WrapEqual(x: int, y: int)
    ensures Wrap32(x) == Wrap32(y) <==> (x - y) % 0x1_0000_0000 == 0
  {
    var k := y / 0x1_0000_0000;
    Wrap32Step(x, -k);
    Wrap32Step(y, -k);
  }
}
