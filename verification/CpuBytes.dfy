/** The processor's structures byte by byte and bit by bit: descriptors, gates, frames
    and task state segments, and where translation, delivery and task switches take
    them from, with every offset and every bit written out. */
module CpuBytes {
  import opened Words
  import opened Memory
  import Arithmetic
  import opened Cpu
  import opened Interrupts
  import InterruptTheorems
  import InterruptNests
  import TaskSwitch

  /** Little-endian words, spelled out. */
  function Le16(mem: Ram, p: int): nat
    requires Inside(mem, p, 2)
  {
    mem[p] as int + 0x100 * mem[p + 1] as int
  }

  function Le32(mem: Ram, p: int): nat
    requires Inside(mem, p, 4)
  {
    mem[p] as int + 0x100 * mem[p + 1] as int + 0x1_0000 * mem[p + 2] as int + 0x100_0000 * mem[p + 3] as int
  }

  lemma WordsOnBytes(mem: Ram, p: int)
    ensures Inside(mem, p, 2) ==> Word(mem, p) == Le16(mem, p)
    ensures Inside(mem, p, 4) ==> Dword(mem, p) == Le32(mem, p)
  {
  }

  function Modulo32(x: int): int {
    x % 0x1_0000_0000
  }

  // ------------------------------------------------------------- descriptors

  /** Whether and what a selector loads in protected mode: the table by bit 2, the entry
      by the upper 13 bits, no null selector for CS and SS, and the fields of the eight
      bytes. */
  lemma SelectorLoads(s: State, seg: nat, index: nat, local: bool, rpl: nat)
    requires WellFormed(s) && seg < 6 && s.pe && index < 0x2000 && rpl < 4
    ensures var sel := 8 * index + (if local then 4 else 0) + rpl;
            var table := if local then s.ldtr else s.gdtr;
            var p := Modulo32(table.base + 8 * index);
            && (LoadSeg(s, seg, sel).Some? <==>
                  && !((seg == 1 || seg == 2) && index == 0)
                  && 8 * index <= table.limit && Inside(s.mem, p, 8))
            && (LoadSeg(s, seg, sel).Some? ==>
                  var r := LoadSeg(s, seg, sel).value;
                  && r.sel == sel && r.cache.access == s.mem[p + 5]
                  && r.cache.base == Le16(s.mem, p + 2) + 0x1_0000 * s.mem[p + 4] as int
                                     + 0x100_0000 * s.mem[p + 7] as int
                  && r.cache.limit == Le16(s.mem, p) + 0x1_0000 * (s.mem[p + 6] as int % 0x10)
                  && r.cache.avl == (s.mem[p + 6] as int / 0x10 % 2 == 1)
                  && r.cache.db == (s.mem[p + 6] as int / 0x40 % 2 == 1)
                  && r.cache.g == (s.mem[p + 6] as int / 0x80 % 2 == 1))
  {
    var sel: u16 := 8 * index + (if local then 4 else 0) + rpl;
    SelectorParts(index, local, rpl);
    var p := Wrap32((if local then s.ldtr else s.gdtr).base + 8 * index);
    if Inside(s.mem, p, 8) {
      WordsOnBytes(s.mem, p);
      WordsOnBytes(s.mem, p + 2);
    }
    hide Word;
  }

  lemma SelectorParts(index: nat, local: bool, rpl: nat)
    requires index < 0x2000 && rpl < 4
    ensures var sel := 8 * index + (if local then 4 else 0) + rpl;
            sel < 0x1_0000 && sel / 8 * 8 == 8 * index && Bit(sel, 2) == local && Rpl(sel) == rpl
  {
    SelectorSums(index, if local then 1 else 0, rpl);
  }

  lemma SelectorSums(index: nat, local: nat, rpl: nat)
    requires local < 2 && rpl < 4
    ensures var sel := 8 * index + 4 * local + rpl;
            sel / 8 == index && sel / 4 % 2 == local && sel % 4 == rpl
  {
    Arithmetic.Eighth(index, 4 * local + rpl);
    Arithmetic.Quarter(2 * index + local, rpl);
    Arithmetic.LowBit(index, local);
  }

  /** In real mode the base is the selector times 16, and the rest stays as it was. */
  lemma RealSelectorLoads(s: State, seg: nat, sel: u16)
    requires WellFormed(s) && seg < 6 && !s.pe
    ensures LoadSeg(s, seg, sel).Some?
    ensures var c, was := LoadSeg(s, seg, sel).value.cache, s.segs[seg].cache;
            && LoadSeg(s, seg, sel).value.sel == sel && c.base == 0x10 * sel
            && (c.limit, c.access, c.avl, c.db, c.g) == (was.limit, was.access, was.avl, was.db, was.g)
  {
  }

  // ------------------------------------------------------------- translation

  /** An access byte: present, two bits of privilege, segment, code, then conforming or
      expand-down, then readable or writable, then accessed. */
  function AccessByte(p: bool, dpl: nat, s: bool, code: bool, third: bool, second: bool, a: bool): byte
    requires dpl < 4
  {
    (if p then 0x80 else 0) + 0x20 * dpl + (if s then 0x10 else 0) + (if code then 8 else 0)
    + (if third then 4 else 0) + (if second then 2 else 0) + (if a then 1 else 0)
  }

  lemma AccessBits(p: bool, dpl: nat, s: bool, code: bool, third: bool, second: bool, a: bool)
    requires dpl < 4
    ensures var access := AccessByte(p, dpl, s, code, third, second, a);
            Dpl(access) == dpl && Bit(access, 3) == code && Bit(access, 2) == third && Bit(access, 1) == second
  {
    BitSums(if p then 1 else 0, dpl, if s then 1 else 0, if code then 1 else 0, if third then 1 else 0,
            if second then 1 else 0, if a then 1 else 0);
  }

  lemma BitSums(p: nat, dpl: nat, s: nat, c: nat, t: nat, d: nat, a: nat)
    requires p < 2 && dpl < 4 && s < 2 && c < 2 && t < 2 && d < 2 && a < 2
    ensures var x := 0x80 * p + 0x20 * dpl + 0x10 * s + 8 * c + 4 * t + 2 * d + a;
            x / 32 % 4 == dpl && x / 8 % 2 == c && x / 4 % 2 == t && x / 2 % 2 == d
  {
    var h := 8 * p + 2 * dpl + s;
    Arithmetic.Digits(2 * h + c, t, d, a);
    Arithmetic.LowBit(h, c);
    Privilege(p, dpl, 0x10 * s + 8 * c + 4 * t + 2 * d + a);
  }

  lemma Privilege(p: nat, dpl: nat, low: nat)
    requires low < 0x20 && dpl < 4
    ensures (0x80 * p + 0x20 * dpl + low) / 0x20 % 4 == dpl
  {
    Thirty2(4 * p + dpl, low);
    Arithmetic.Quarter(p, dpl);
  }

  lemma Thirty2(h: nat, low: nat)
    requires low < 0x20
    ensures (0x20 * h + low) / 0x20 == h
  {
  }

  /** Protected-mode translation with paging off: who may do what, up to which offset, and
      to which address.  Granularity multiplies the limit by 4096, modulo 2^32, and an
      expand-down segment begins at its base less its limit. */
  lemma Translates(s: State, mode: AccessMode, seg: nat, vaddr: u32,
                   present: bool, dpl: nat, system: bool, code: bool, third: bool, second: bool, accessed: bool)
    requires WellFormed(s) && seg < 6 && s.pe && dpl < 4
    requires s.segs[seg].cache.access == AccessByte(present, dpl, system, code, third, second, accessed)
    ensures var c, cpl := s.segs[seg].cache, s.segs[1].sel as int % 4;
            var limit := if c.g then Modulo32(0x1000 * c.limit) else c.limit;
            var base := if !code && third then c.base - limit else c.base;
            var address := Modulo32(base + vaddr);
            Physical(s, mode, seg, vaddr) ==
            if vaddr > limit then None
            else if code then
              if mode.Write? || (mode.Read? && !second) || (cpl > dpl && !(mode.Exec? && third)) then None
              else Some(if s.a20 then address else address % 0x10_0000)
            else
              if mode.Exec? || (mode.Write? && !second) || cpl > dpl then None
              else Some(if s.a20 then address else address % 0x10_0000)
  {
    AccessBits(present, dpl, system, code, third, second, accessed);
    var c := s.segs[seg].cache;
    WrapOfWrap(c.base - LimitOf(c), vaddr);
    hide Bit, Dpl, AccessByte;
  }

  lemma WrapOfWrap(x: int, y: int)
    ensures Wrap32(Wrap32(x) + y) == Modulo32(x + y)
  {
    WrapTwice(x, -y);
    hide Wrap32;
    assert x - -y == x + y && Wrap32(x) - -y == Wrap32(x) + y;
    Wraps(x + y);
  }

  lemma Wraps(x: int)
    ensures Wrap32(x) == Modulo32(x)
  {
  }

  lemma RealTranslates(s: State, mode: AccessMode, seg: nat, vaddr: u32)
    requires WellFormed(s) && seg < 6 && !s.pe
    ensures var address := Modulo32(0x10 * s.segs[seg].sel + vaddr);
            Physical(s, mode, seg, vaddr) == Some(if s.a20 then address else address % 0x10_0000)
  {
  }

  // ------------------------------------------------------------- delivery

  /** Where a delivery goes in real mode: the vector's entry is four bytes, the offset
      first; beyond memory it reads as zero.  The flags stay. */
  lemma DeliversReal(s: State, v: Vector)
    requires WellFormed(s) && !s.pe && Deliver(s, v).Some?
    ensures var d := Deliver(s, v).value; var p := Modulo32(s.idtr.base + 4 * v.id);
            && 4 * v.id <= s.idtr.limit && d.eflags == s.eflags
            && d.segs[1].cache.base == 0x10 * d.segs[1].sel
            && d.segs[1].sel == (if Inside(s.mem, p, 4) then Le16(s.mem, p + 2) else 0)
            && d.eip == s.eip as int / 0x1_0000 * 0x1_0000 + (if Inside(s.mem, p, 4) then Le16(s.mem, p) else 0)
  {
    hide PushAll, Saved, FrameWidth, Word, WithLow;
    var p := Wrap32(s.idtr.base + v.id * 4);
    if Inside(s.mem, p, 4) {
      WordsOnBytes(s.mem, p);
      WordsOnBytes(s.mem, p + 2);
    }
    var g := Lookup(s, v).value;
    var t := SaveRegs(s, false).value;
    PushedRegisters(s, FrameWidth(s), Saved(s, false));
    hide Lookup, SaveRegs;
    RealSelectorLoads(t, CS, g.sel);
    hide LoadSeg;
    LowHalf(s.eip, g.offset);
    hide Modulo32;
  }

  lemma LowHalf(eip: u32, offset: u32)
    ensures offset < 0x1_0000 ==>
              WithLow(eip, Wrap16(offset)) == eip as int / 0x1_0000 * 0x1_0000 + offset
  {
  }

  lemma {:induction false} PushedRegisters(s: State, w: Width, vs: seq<u32>)
    requires WellFormed(s) && PushAll(s, w, vs).Some?
    ensures var t := PushAll(s, w, vs).value;
            t.eip == s.eip && t.eflags == s.eflags && t.segs == s.segs && t.pe == s.pe
  {
    if vs != [] {
      PushedRegisters(s, w, vs[..|vs| - 1]);
    }
  }

  /** Where it goes in protected mode: a gate is eight bytes, with the selector in bytes 2
      and 3 and the offset in 0, 1, 6 and 7; byte 5 has the present bit, two bits of
      privilege and, lowest, three of type. */
  lemma DeliversProtected(s: State, v: Vector)
    requires WellFormed(s) && s.pe && Deliver(s, v).Some?
    ensures var d := Deliver(s, v).value; var p := Modulo32(s.idtr.base + 8 * v.id);
            var cpl := s.segs[1].sel as int % 4;
            && 8 * v.id <= s.idtr.limit && Inside(s.mem, p, 8)
            && s.mem[p + 5] >= 0x80 && Le16(s.mem, p + 2) % 4 <= cpl
            && (v.hard || cpl <= s.mem[p + 5] as int / 0x20 % 4)
            && d.segs[1].sel == Le16(s.mem, p + 2)
            && d.eip == Le16(s.mem, p) + 0x1_0000 * Le16(s.mem, p + 6)
            && d.eflags == (if s.mem[p + 5] % 8 == 6 then WithoutIf(s.eflags) else s.eflags)
  {
    hide PushAll, Saved, FrameWidth, Word, Bit, LoadSeg, Onto, Dpl, FlagsInside;
    var p := Wrap32(s.idtr.base + v.id * 8);
    GateBytes(s, v);
    var g := Lookup(s, v).value;
    var u := Onto(s, ChangesRing(s, g)).value;
    InterruptNests.OntoParts(s, ChangesRing(s, g));
    PushedRegisters(u, FrameWidth(s), Saved(s, ChangesRing(s, g)));
    SegmentLoaded(SaveRegs(s, ChangesRing(s, g)).value, g.sel);
    hide Lookup, SaveRegs, SetSegment, Modulo32;
    ClearsIf(s.eflags, g.kind == 6);
  }

  lemma SegmentLoaded(t: State, sel: u16)
    requires WellFormed(t) && SetSegment(t, CS, sel).Some?
    ensures var r := SetSegment(t, CS, sel).value; r.segs[1].sel == sel && r.eflags == t.eflags && r.eip == t.eip
  {
  }

  lemma GateBytes(s: State, v: Vector)
    requires WellFormed(s) && s.pe && Lookup(s, v).Some?
    ensures var g := Lookup(s, v).value; var p := Modulo32(s.idtr.base + 8 * v.id);
            && 8 * v.id <= s.idtr.limit && Inside(s.mem, p, 8)
            && g.sel == Le16(s.mem, p + 2) && g.offset == Le16(s.mem, p) + 0x1_0000 * Le16(s.mem, p + 6)
            && g.kind == s.mem[p + 5] % 8 && g.present == (s.mem[p + 5] >= 0x80)
            && g.dpl == s.mem[p + 5] as int / 0x20 % 4
  {
    var p := Wrap32(s.idtr.base + v.id * 8);
    if Inside(s.mem, p, 8) {
      WordsOnBytes(s.mem, p);
      WordsOnBytes(s.mem, p + 2);
      WordsOnBytes(s.mem, p + 6);
    }
    hide Word;
  }

  /** The flags with IF, bit 9, clear and all others as they were. */
  function WithoutIf(eflags: u32): nat {
    eflags as int / 0x400 * 0x400 + eflags as int % 0x200
  }

  lemma ClearsIf(eflags: u32, masks: bool)
    ensures FlagsInside(eflags, masks) == if masks then WithoutIf(eflags) else eflags
  {
    var h, l := eflags as int / 0x400, eflags as int % 0x400;
    assert eflags as int == 0x400 * h + l;
    assert eflags as int / 0x200 == 2 * h + l / 0x200;
    assert eflags as int % 0x200 == l % 0x200;
  }

  // ------------------------------------------------------------- frames

  /** Slot k of a stack, w bytes to a slot: the offset is SP or ESP less w*(k+1), modulo
      its own size. */
  lemma SlotAddress(s: State, w: Width, k: nat)
    requires WellFormed(s) && Slot(s, w, k).Some?
    ensures Physical(s, Write, 2, (s.gp[4] - w * (k + 1)) % (if w == 2 then 0x1_0000 else 0x1_0000_0000))
            == Slot(s, w, k)
  {
    TopLowered(s.gp[ESP], w, w * (k + 1));
    hide Lowered, Top, Physical;
  }

  /** The bytes of a frame: highest, on a change of ring, the outer SS and ESP, then in any
      case EFLAGS, CS and, lowest, EIP; two bytes each in real mode, four in protected. */
  lemma FrameBytes(s: State, v: Vector)
    requires InterruptTheorems.Accepted(s, v)
    ensures FrameAt(InterruptTheorems.FrameState(s, v), Deliver(s, v).value.mem, if s.pe then 4 else 2,
                    Layout(s, ChangesRing(s, Lookup(s, v).value)))
  {
    InterruptTheorems.DeliverEffect(s, v);
    SavedValues(s, ChangesRing(s, Lookup(s, v).value));
    hide Slot, Get, Lowered, Lookup, Deliver, Saved, Onto, SlotHolds, Layout, InterruptTheorems.FrameState, ChangesRing;
    var u, mem, w := InterruptTheorems.FrameState(s, v), Deliver(s, v).value.mem, FrameWidth(s);
    var vs := InterruptTheorems.FrameValues(s, v);
    forall k | 0 <= k < |vs| ensures SlotHolds(u, mem, w, k, vs[k]) {
      SlotOnBytes(u, mem, w, k);
    }
  }

  /** The values of a frame, highest address first. */
  function Layout(s: State, change: bool): seq<int>
    requires WellFormed(s)
  {
    if !s.pe then [s.eflags as int % 0x1_0000, s.segs[1].sel, s.eip as int % 0x1_0000]
    else if change then [s.segs[2].sel, s.gp[4], s.eflags, s.segs[1].sel, s.eip]
    else [s.eflags, s.segs[1].sel, s.eip]
  }

  ghost predicate FrameAt(u: State, mem: Ram, w: Width, vs: seq<int>)
    requires WellFormed(u)
  {
    forall k :: 0 <= k < |vs| ==> SlotHolds(u, mem, w, k, vs[k])
  }

  /** The value's bytes, lowest first, are in the slot. */
  ghost predicate SlotHolds(u: State, mem: Ram, w: Width, k: nat, value: int)
    requires WellFormed(u)
  {
    && Slot(u, w, k).Some? && Inside(mem, Slot(u, w, k).value, w)
    && value == if w == 2 then Le16(mem, Slot(u, w, k).value) else Le32(mem, Slot(u, w, k).value)
  }

  lemma SlotOnBytes(u: State, mem: Ram, w: Width, k: nat)
    requires WellFormed(u) && Slot(u, w, k).Some? && Inside(mem, Slot(u, w, k).value, w)
    ensures SlotHolds(u, mem, w, k, Get(mem, Slot(u, w, k).value, w))
  {
    WordsOnBytes(mem, Slot(u, w, k).value);
    hide Slot, Word, Dword;
  }

  lemma EspInside(s: State, v: Vector)
    requires InterruptTheorems.Accepted(s, v)
    ensures var n := |InterruptTheorems.FrameValues(s, v)|; var w := FrameWidth(s);
            Deliver(s, v).value.gp[ESP] == Lowered(InterruptTheorems.FrameState(s, v).gp[ESP], w, w * n)
  {
    InterruptTheorems.DeliverEffect(s, v);
    hide Slot, Get, Lowered, Deliver, Lookup, SlotsInRam, InterruptTheorems.FrameState, InterruptTheorems.FrameValues;
  }

  /** Without a change of ring the frame is on the interrupted stack, six bytes down in
      real mode, where SP alone moves, and twelve in protected. */
  lemma FrameBelow(s: State, v: Vector)
    requires InterruptTheorems.Accepted(s, v) && !(s.pe && ChangesRing(s, Lookup(s, v).value))
    ensures InterruptTheorems.FrameState(s, v) == s
    ensures var esp: int := Deliver(s, v).value.gp[4];
            if s.pe then esp == Modulo32(s.gp[4] as int - 12)
            else Modulo16(esp) == Modulo16(s.gp[4] as int - 6) && esp / 0x1_0000 == s.gp[4] as int / 0x1_0000
  {
    hide Slot, Get, Lowered, Deliver, Saved, Modulo32, Modulo16, SlotsInRam, Lookup;
    EspInside(s, v);
    InterruptNests.SavedSize(s, false);
    StackMoves(s.gp[ESP], FrameWidth(s), 3);
  }

  /** With a change of ring it is twenty bytes down from the stack that the task's segment
      names: ESP in bytes 4 to 7, SS in bytes 8 and 9. */
  lemma FrameInner(s: State, v: Vector)
    requires InterruptTheorems.Accepted(s, v) && s.pe && ChangesRing(s, Lookup(s, v).value)
    ensures Inside(s.mem, s.tr.base, 104)
    ensures var u := InterruptTheorems.FrameState(s, v); var top := Le32(s.mem, s.tr.base + 4);
            && u.gp[4] == top && u.segs[2].sel == Le16(s.mem, s.tr.base + 8)
            && Deliver(s, v).value.gp[4] == Modulo32(top - 20)
  {
    hide Slot, Get, Lowered, Lookup, Deliver, Saved, Onto, Modulo32, Le32, Le16, SlotsInRam;
    EspInside(s, v);
    InterruptNests.OntoParts(s, true);
    InnerStack(s, true);
    InterruptNests.SavedSize(s, true);
    StackMoves(InterruptTheorems.FrameState(s, v).gp[ESP], 4, 5);
  }

  function Modulo16(x: int): int {
    x % 0x1_0000
  }

  lemma SavedValues(s: State, change: bool)
    requires WellFormed(s)
    ensures Saved(s, change) == Layout(s, s.pe && change)
  {
  }

  lemma StackMoves(esp: u32, w: Width, n: nat)
    requires n == 3 || n == 5
    ensures w == 2 ==> Modulo16(Lowered(esp, w, w * n)) == Modulo16(esp - 2 * n)
    ensures w == 2 ==> Lowered(esp, w, w * n) as int / 0x1_0000 == esp as int / 0x1_0000
    ensures w == 4 ==> Lowered(esp, w, w * n) == Modulo32(esp - 4 * n)
  {
    TopLowered(esp, w, w * n);
    LowReplaced(esp, Wrap16(esp - w * n));
    hide WithLow;
  }

  lemma InnerStack(s: State, change: bool)
    requires WellFormed(s) && Onto(s, change).Some? && s.pe && change
    ensures Inside(s.mem, s.tr.base, 104) && Onto(s, change).value.gp[4] == Le32(s.mem, s.tr.base + 4)
    ensures Onto(s, change).value.segs[2].sel == Le16(s.mem, s.tr.base + 8)
  {
    WordsOnBytes(s.mem, s.tr.base + 4);
    WordsOnBytes(s.mem, s.tr.base + 8);
    hide Word, Dword;
  }
}
