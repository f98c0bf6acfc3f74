/** Deliveries nested in deliveries. */
module InterruptNests {
  import opened Words
  import opened Memory
  import opened Cpu
  import opened Interrupts
  import opened InterruptTheorems

  // ------------------------------------------------------------- descriptor tables

  /** A byte some entry of the table may be read from, wrap of the address included. */
  predicate TableByte(table: TableReg, q: int) {
    Wrap32(q - table.base) < table.limit as int + 8
  }

  ghost predicate SameTables(s: State, t: State) {
    && s.gdtr == t.gdtr && s.ldtr == t.ldtr && s.idtr == t.idtr && s.pe == t.pe && |s.mem| == |t.mem|
    && forall q :: 0 <= q < |s.mem| && (TableByte(s.gdtr, q) || TableByte(s.ldtr, q) || TableByte(s.idtr, q)) ==>
         s.mem[q] == t.mem[q]
  }

  lemma EntryBytes(table: TableReg, index: nat, size: nat, q: int)
    requires index <= table.limit && size <= 8 && q < 0x1_0000_0000
    requires Wrap32(table.base + index) <= q < Wrap32(table.base + index) + size
    ensures TableByte(table, q)
  {
    var p := Wrap32(table.base + index);
    var k := (table.base + index) / 0x1_0000_0000;
    assert q - table.base == index + (q - p) + -k * 0x1_0000_0000;
    Wrap32Step(index + (q - p), -k);
  }

  lemma DescriptorSame(a: Ram, b: Ram, p: int)
    requires Inside(a, p, 8) && SameRange(a, b, p, 8)
    ensures ReadDescriptor(a, p) == ReadDescriptor(b, p)
  {
    hide Word, Bit;
    WordSame(a, b, p);
    WordSame(a, b, p + 2);
  }

  lemma LoadSegTables(s: State, t: State, seg: nat, sel: u16)
    requires WellFormed(s) && WellFormed(t) && seg < 6 && SameTables(s, t)
    requires !s.pe ==> t.segs[seg].cache == s.segs[seg].cache.(base := t.segs[seg].cache.base)
    ensures LoadSeg(t, seg, sel) == LoadSeg(s, seg, sel)
  {
    hide Bit, ReadDescriptor, TableByte, Wrap32;
    if s.pe {
      var table := if Bit(sel, 2) then s.ldtr else s.gdtr;
      var index := sel / 8 * 8;
      var p := Wrap32(table.base + index);
      if index <= table.limit && Inside(s.mem, p, 8) {
        forall q | p <= q < p + 8 ensures s.mem[q] == t.mem[q] {
          EntryBytes(table, index, 8, q);
        }
        DescriptorSame(s.mem, t.mem, p);
      }
    }
  }

  lemma LookupTables(s: State, t: State, v: Vector)
    requires WellFormed(s) && WellFormed(t) && SameTables(s, t)
    ensures Lookup(t, v) == Lookup(s, v)
  {
    hide Bit, Dpl, Word, TableByte, Wrap32;
    var size: nat := if s.pe then 8 else 4;
    var index := v.id * size;
    var p := Wrap32(s.idtr.base + index);
    if index <= s.idtr.limit && Inside(s.mem, p, size) {
      forall q | p <= q < p + size ensures s.mem[q] == t.mem[q] {
        EntryBytes(s.idtr, index, size, q);
      }
      WordSame(s.mem, t.mem, p);
      WordSame(s.mem, t.mem, p + 2);
      if s.pe {
        WordSame(s.mem, t.mem, p + 6);
      }
    }
  }

  // ------------------------------------------------------------- n deliveries, n returns

  /** Each vector is delivered inside the handler of the one before it; then every
      handler returns. */
  function Nest(s: State, vs: seq<Vector>): (r: Option<State>)
    requires WellFormed(s)
    ensures r.Some? ==> WellFormed(r.value)
    decreases |vs|
  {
    if vs == [] then Some(s)
    else
      match Deliver(s, vs[0])
      case None => None
      case Some(d) =>
        match Nest(d, vs[1..])
        case None => None
        case Some(b) => Iret(b, false)
  }

  /** Every delivery of a nest happens, and every return gives back the whole state its
      delivery interrupted, but for memory, which a return leaves as it finds it. */
  ghost predicate Restores(s: State, vs: seq<Vector>)
    requires WellFormed(s)
    decreases |vs|
  {
    vs == [] ||
    (&& Deliver(s, vs[0]).Some?
     && var d := Deliver(s, vs[0]).value;
        && Restores(d, vs[1..]) && Nest(d, vs[1..]).Some?
        && var b := Nest(d, vs[1..]).value;
           Iret(b, false) == Some(s.(mem := b.mem)))
  }

  // ------------------------------------------------------------- rings

  /** The privilege level, where there is one. */
  function Ring(s: State): nat
    requires WellFormed(s)
  {
    if s.pe then Cpl(s) else 0
  }

  /** The ring a vector's handler runs in. */
  function RingInside(s: State, ring: nat, v: Vector): nat {
    if s.pe && Lookup(s, v).Some? then Rpl(Lookup(s, v).value.sel) else ring
  }

  predicate Lowers(s: State, ring: nat, v: Vector) {
    RingInside(s, ring, v) != ring
  }

  /** How many of the deliveries change ring. */
  function Lowerings(s: State, ring: nat, vs: seq<Vector>): (n: nat)
    ensures n <= |vs|
    decreases |vs|
  {
    if vs == [] then 0
    else (if Lowers(s, ring, vs[0]) then 1 else 0) + Lowerings(s, RingInside(s, ring, vs[0]), vs[1..])
  }

  /** How many come before the first that does. */
  function Before(s: State, ring: nat, vs: seq<Vector>): (n: nat)
    ensures n <= |vs| && (Lowerings(s, ring, vs) > 0 ==> n < |vs|)
    decreases |vs|
  {
    if vs == [] || Lowers(s, ring, vs[0]) then 0
    else 1 + Before(s, RingInside(s, ring, vs[0]), vs[1..])
  }

  /** The vector has a gate that the ring may enter, at the same or a lower ring, whose
      code segment makes `iret` pop what delivery pushes: 32-bit code in protected mode,
      16-bit in real mode. */
  ghost predicate Enterable(s: State, ring: nat, v: Vector)
    requires WellFormed(s)
  {
    && Lookup(s, v).Some?
    && var g := Lookup(s, v).value;
       && (s.pe ==> g.present && Rpl(g.sel) <= ring && (v.hard || ring <= g.dpl))
       && LoadSeg(s, CS, g.sel).Some? && LoadSeg(s, CS, g.sel).value.cache.db == s.pe
  }

  ghost predicate AllEnterable(s: State, ring: nat, vs: seq<Vector>)
    requires WellFormed(s)
    decreases |vs|
  {
    vs == [] || (Enterable(s, ring, vs[0]) && AllEnterable(s, RingInside(s, ring, vs[0]), vs[1..]))
  }

  // ------------------------------------------------------------- stacks

  /** n slots below the stack pointer are memory, all different, and reach no table. */
  ghost predicate RoomBelow(s: State, n: nat)
    requires WellFormed(s)
  {
    var w := FrameWidth(s);
    && w * n <= Span(w, s.a20) && SlotsInRam(s, w, n)
    && forall q :: 0 <= q < |s.mem| && InFrame(s, w, n, q) ==>
         !TableByte(s.gdtr, q) && !TableByte(s.ldtr, q) && !TableByte(s.idtr, q)
  }

  /** The bytes of the running task's segment that name its inner stack. */
  predicate StackField(s: State, q: int) {
    s.tr.base as int + 4 <= q < s.tr.base as int + 10
  }

  /** Slots used on the interrupted stack: three for each delivery before the ring changes. */
  function OuterSlots(s: State, vs: seq<Vector>): nat
    requires WellFormed(s)
  {
    3 * Before(s, Ring(s), vs)
  }

  /** Slots used on the inner stack: five for the change of ring, three for each
      delivery after it. */
  function InnerSlots(s: State, vs: seq<Vector>): nat
    requires WellFormed(s)
  {
    if Lowerings(s, Ring(s), vs) == 0 then 0 else 5 + 3 * (|vs| - Before(s, Ring(s), vs) - 1)
  }

  /** There is an inner stack with room for n slots, and m slots of the outer stack keep
      off the fields that name it. */
  ghost predicate InnerReady(s: State, n: nat, m: nat)
    requires WellFormed(s)
  {
    && LoadSeg(s, SS, s.segs[SS].sel) == Some(s.segs[SS])
    && Onto(s, true).Some? && RoomBelow(Onto(s, true).value, n)
    && forall q :: InFrame(s, FrameWidth(s), m, q) ==> !StackField(s, q)
  }

  /** Conditions on the state before the first delivery: CS means what its selector
      loads, NT is clear, every vector can be entered, the frames fit in memory below the
      stack pointer without reaching a table, and if the ring is changed there is an
      inner stack for that, which two changes must not use to overwrite its own address. */
  ghost predicate Nestable(s: State, vs: seq<Vector>) {
    && WellFormed(s)
    && LoadSeg(s, CS, s.segs[CS].sel) == Some(s.segs[CS])
    && (s.pe ==> !Bit(s.eflags, 14))
    && AllEnterable(s, Ring(s), vs)
    && RoomBelow(s, OuterSlots(s, vs))
    && (Lowerings(s, Ring(s), vs) > 0 ==> InnerReady(s, InnerSlots(s, vs), OuterSlots(s, vs)))
    && (Lowerings(s, Ring(s), vs) > 1 ==>
          forall q :: InFrame(Onto(s, true).value, FrameWidth(s), InnerSlots(s, vs), q) ==> !StackField(s, q))
  }

  /** The two stacks do not overlap. */
  ghost predicate StacksApart(s: State, vs: seq<Vector>)
    requires WellFormed(s)
  {
    Lowerings(s, Ring(s), vs) > 0 && Onto(s, true).Some? ==>
      forall q :: InFrame(s, FrameWidth(s), OuterSlots(s, vs), q) ==>
        !InFrame(Onto(s, true).value, FrameWidth(s), InnerSlots(s, vs), q)
  }

  /** A byte in a slot that a nest uses. */
  ghost predicate Used(s: State, vs: seq<Vector>, q: int)
    requires WellFormed(s)
  {
    || InFrame(s, FrameWidth(s), OuterSlots(s, vs), q)
    || (Lowerings(s, Ring(s), vs) > 0 && Onto(s, true).Some?
        && InFrame(Onto(s, true).value, FrameWidth(s), InnerSlots(s, vs), q))
  }

  /** Memory is the same but below SS:ESP and below the inner stack pointer. */
  ghost predicate OnlyBelow(s: State, vs: seq<Vector>, mem: Ram)
    requires WellFormed(s)
  {
    |mem| == |s.mem| && forall q :: 0 <= q < |mem| && !Used(s, vs, q) ==> mem[q] == s.mem[q]
  }

  lemma FewerSlots(s: State, n: nat, m: nat)
    requires WellFormed(s) && n <= m
    ensures RoomBelow(s, m) ==> RoomBelow(s, n)
    ensures forall q :: InFrame(s, FrameWidth(s), n, q) ==> InFrame(s, FrameWidth(s), m, q)
  {
    hide Slot, TableByte, Span;
    var w := FrameWidth(s);
    assert w * n <= w * m;
  }

  lemma TablesClear(u: State, s: State, t: State, n: nat)
    requires WellFormed(u) && WellFormed(s) && WellFormed(t) && RoomBelow(u, n)
    requires Untouched(s.mem, t.mem, u, FrameWidth(u), n) && |u.mem| == |s.mem|
    requires u.gdtr == s.gdtr == t.gdtr && u.ldtr == s.ldtr == t.ldtr && u.idtr == s.idtr == t.idtr && t.pe == s.pe
    ensures SameTables(s, t)
  {
    hide Slot, TableByte, InFrame;
  }

  // ------------------------------------------------------------- entering a handler

  /** The handler's state d, entered from s with a frame of n slots pushed from u. */
  ghost predicate Entered(s: State, u: State, n: nat, d: State) {
    && WellFormed(s) && WellFormed(u) && WellFormed(d) && u == s.(gp := u.gp, segs := s.segs[SS := u.segs[SS]])
    && u.gp == s.gp[ESP := u.gp[ESP]]
    && d.gp == u.gp[ESP := Lowered(u.gp[ESP], FrameWidth(s), FrameWidth(s) * n)]
    && d.segs == u.segs[CS := d.segs[CS]] && d.segs[CS].cache.db == s.pe
    && d == s.(gp := d.gp, eip := d.eip, eflags := d.eflags, segs := d.segs, mem := d.mem)
    && Untouched(s.mem, d.mem, u, FrameWidth(s), n)
    && (s.pe ==> Cpl(d) <= Cpl(s))
    && (!s.pe ==> d.eflags == s.eflags && d.eip / 0x1_0000 == s.eip / 0x1_0000
                  && d.segs[CS].cache == s.segs[CS].cache.(base := d.segs[CS].cache.base))
    && (s.pe && !Bit(s.eflags, 14) ==> !Bit(d.eflags, 14))
    && LoadSeg(d, CS, d.segs[CS].sel) == Some(d.segs[CS])
  }

  lemma OntoParts(s: State, change: bool)
    requires WellFormed(s) && Onto(s, change).Some?
    ensures var u := Onto(s, change).value;
            && WellFormed(u) && u == s.(gp := u.gp, segs := s.segs[SS := u.segs[SS]])
            && u.gp == s.gp[ESP := u.gp[ESP]] && u.segs[CS] == s.segs[CS] && FrameWidth(u) == FrameWidth(s)
            && (!(s.pe && change) ==> u == s)
  {
    hide LoadSeg, Word, Dword;
    var u := Onto(s, change).value;
    assert !(s.pe && change) ==> s.segs == s.segs[SS := s.segs[SS]] && s.gp == s.gp[ESP := s.gp[ESP]];
  }

  lemma SavedSize(s: State, change: bool)
    requires WellFormed(s)
    ensures |Saved(s, change)| == if s.pe && change then 5 else 3
  {
  }

  lemma Acceptable(s: State, v: Vector)
    requires WellFormed(s) && Enterable(s, Ring(s), v)
    requires var change := Lowers(s, Ring(s), v);
             Onto(s, change).Some? && RoomBelow(Onto(s, change).value, if change then 5 else 3)
    ensures Accepted(s, v) && FrameState(s, v) == Onto(s, Lowers(s, Ring(s), v)).value
    ensures |FrameValues(s, v)| == if Lowers(s, Ring(s), v) then 5 else 3
    ensures LoadSeg(s, CS, Lookup(s, v).value.sel) == Some(Deliver(s, v).value.segs[CS])
  {
    hide Slot, Get, Lowered, PushAll, InFrame, Lookup, LoadSeg, TableByte, Span, Onto, Saved;
    var g, change := Lookup(s, v).value, Lowers(s, Ring(s), v);
    var u := Onto(s, change).value;
    OntoParts(s, change);
    SavedFits(s, change);
    SavedSize(s, change);
    PushAllEffect(u, FrameWidth(s), Saved(s, change));
    var t := PushAll(u, FrameWidth(s), Saved(s, change)).value;
    TablesClear(u, s, t, if change then 5 else 3);
    LoadSegPushed(s, u, t, g.sel);
  }

  lemma LoadSegPushed(s: State, u: State, t: State, sel: u16)
    requires WellFormed(s) && WellFormed(t) && SameTables(s, t) && t.segs[CS] == s.segs[CS]
    ensures LoadSeg(t, CS, sel) == LoadSeg(s, CS, sel)
  {
    hide LoadSeg, SameTables;
    LoadSegTables(s, t, CS, sel);
  }

  lemma MaskKeepsNt(eflags: u32, masks: bool)
    ensures Bit(FlagsInside(eflags, masks), 14) == Bit(eflags, 14)
  {
    if masks && eflags / 512 % 2 == 1 {
      var k, r := eflags / 1024, eflags % 512;
      assert eflags == 1024 * k + 512 + r;
      HighBits(k, 512 + r);
      HighBits(k, r);
    }
  }

  lemma HighBits(k: nat, t: nat)
    requires t < 1024
    ensures (1024 * k + t) / 16384 == k / 16
  {
    var q, m := k / 16, k % 16;
    assert 1024 * k + t == 16384 * q + (1024 * m + t);
  }

  /** How EIP and the flags enter the handler. */
  lemma DeliverRegisters(s: State, v: Vector)
    requires WellFormed(s) && Deliver(s, v).Some?
    ensures var d := Deliver(s, v).value;
            if s.pe then exists masks :: d.eflags == FlagsInside(s.eflags, masks)
            else d.eflags == s.eflags && d.eip / 0x1_0000 == s.eip / 0x1_0000
  {
    hide Lookup, PushAll, SetSegment, FlagsInside, WithLow, Saved, FrameWidth;
    var g := Lookup(s, v).value;
    var t := SaveRegs(s, ChangesRing(s, g)).value;
    PushAllRegisters(Onto(s, ChangesRing(s, g)).value, FrameWidth(s), Saved(s, ChangesRing(s, g)));
    OntoRegisters(s, ChangesRing(s, g));
    SetSegmentRegisters(t, CS, g.sel);
    assert s.pe ==> Deliver(s, v).value.eflags == FlagsInside(s.eflags, g.kind == 6);
    LowReplaced(s.eip, Wrap16(g.offset));
  }

  lemma OntoRegisters(s: State, change: bool)
    requires WellFormed(s) && Onto(s, change).Some?
    ensures Onto(s, change).value.eflags == s.eflags && Onto(s, change).value.eip == s.eip
  {
  }

  lemma SetSegmentRegisters(s: State, seg: nat, sel: u16)
    requires WellFormed(s) && seg < 6 && SetSegment(s, seg, sel).Some?
    ensures SetSegment(s, seg, sel).value.eflags == s.eflags && SetSegment(s, seg, sel).value.eip == s.eip
  {
  }

  lemma {:induction false} PushAllRegisters(s: State, w: Width, vs: seq<u32>)
    requires WellFormed(s) && PushAll(s, w, vs).Some?
    ensures PushAll(s, w, vs).value.eflags == s.eflags && PushAll(s, w, vs).value.eip == s.eip
  {
    if vs != [] {
      PushAllRegisters(s, w, vs[..|vs| - 1]);
    }
  }

  lemma LoadSegReal(s: State, seg: nat, sel: u16)
    requires WellFormed(s) && seg < 6
    ensures !s.pe ==> LoadSeg(s, seg, sel) == Some(Seg(sel, s.segs[seg].cache.(base := sel * 16)))
  {
  }

  lemma SameHigh(x: u32, y: u32)
    requires x / 0x1_0000 == y / 0x1_0000
    ensures WithLow(y, Wrap16(x)) == x
  {
  }

  /** A delivery that can be entered, with room for its frame, enters the handler. */
  lemma Enters(s: State, v: Vector)
    requires WellFormed(s) && Enterable(s, Ring(s), v)
    requires var change := Lowers(s, Ring(s), v);
             Onto(s, change).Some? && RoomBelow(Onto(s, change).value, if change then 5 else 3)
    ensures var change := Lowers(s, Ring(s), v); var u := Onto(s, change).value;
            && Accepted(s, v) && FrameState(s, v) == u && |FrameValues(s, v)| == (if change then 5 else 3)
            && Entered(s, u, if change then 5 else 3, Deliver(s, v).value)
            && SameTables(s, Deliver(s, v).value)
            && Ring(Deliver(s, v).value) == RingInside(s, Ring(s), v)
  {
    hide Slot, Get, Lowered, InFrame, Lookup, LoadSeg, TableByte, Deliver, Bit, SlotsInRam, FlagsInside, FrameValues,
         FrameState, Onto, Span;
    Acceptable(s, v);
    DeliverEffect(s, v);
    DeliverRegisters(s, v);
    var change := Lowers(s, Ring(s), v);
    var u, d, g := Onto(s, change).value, Deliver(s, v).value, Lookup(s, v).value;
    OntoParts(s, change);
    MaskKeepsNt(s.eflags, true);
    MaskKeepsNt(s.eflags, false);
    TablesClear(u, s, d, if change then 5 else 3);
    LoadSegReal(s, CS, g.sel);
    LoadSegTables(s, d, CS, g.sel);
  }

  // ------------------------------------------------------------- what carries over

  /** What the handler's state has of the interrupted one. */
  ghost predicate Carries(s: State, d: State) {
    && WellFormed(s) && WellFormed(d) && SameTables(s, d) && d.tr == s.tr
    && (!s.pe ==> d.segs[CS].cache == s.segs[CS].cache.(base := d.segs[CS].cache.base))
  }

  lemma {:induction false} SameGates(s: State, d: State, ring: nat, vs: seq<Vector>)
    requires Carries(s, d)
    ensures Lowerings(d, ring, vs) == Lowerings(s, ring, vs) && Before(d, ring, vs) == Before(s, ring, vs)
    ensures AllEnterable(s, ring, vs) ==> AllEnterable(d, ring, vs)
    decreases |vs|
  {
    if vs != [] {
      hide LoadSeg, Lookup, SameTables;
      LookupTables(s, d, vs[0]);
      if Lookup(s, vs[0]).Some? {
        LoadSegTables(s, d, CS, Lookup(s, vs[0]).value.sel);
      }
      SameGates(s, d, RingInside(s, ring, vs[0]), vs[1..]);
    }
  }

  lemma {:induction false} RealModeNeverLowers(s: State, ring: nat, vs: seq<Vector>)
    requires !s.pe
    ensures Lowerings(s, ring, vs) == 0 && Before(s, ring, vs) == |vs|
    decreases |vs|
  {
    if vs != [] {
      RealModeNeverLowers(s, ring, vs[1..]);
    }
  }

  lemma {:induction false} NoneBefore(s: State, ring: nat, vs: seq<Vector>)
    ensures Lowerings(s, ring, vs) == 0 ==> Before(s, ring, vs) == |vs|
    decreases |vs|
  {
    if vs != [] {
      NoneBefore(s, RingInside(s, ring, vs[0]), vs[1..]);
    }
  }

  /** A stack seen from further down and from a ring that sees no less: its slots are
      the slots of the first, and the two parts share no byte. */
  lemma Deeper(u: State, d: State, n: nat, m: nat)
    requires WellFormed(u) && WellFormed(d) && RoomBelow(u, n + m)
    requires d.segs[SS] == u.segs[SS] && d.pe == u.pe && d.a20 == u.a20 && |d.mem| == |u.mem|
    requires d.gdtr == u.gdtr && d.ldtr == u.ldtr && d.idtr == u.idtr && (u.pe ==> Cpl(d) <= Cpl(u))
    requires d.gp[ESP] == Lowered(u.gp[ESP], FrameWidth(u), FrameWidth(u) * n)
    ensures RoomBelow(d, m)
    ensures forall k: nat :: k < m ==> Slot(d, FrameWidth(u), k) == Slot(u, FrameWidth(u), n + k)
    ensures forall q :: InFrame(d, FrameWidth(u), m, q) ==> InFrame(u, FrameWidth(u), n + m, q)
    ensures forall q :: InFrame(d, FrameWidth(u), m, q) ==> !InFrame(u, FrameWidth(u), n, q)
  {
    hide Lowered, TableByte, Slot, Span;
    var w := FrameWidth(u);
    assert w * m <= w * (n + m);
    forall k: nat | k < m
      ensures Slot(d, w, k) == Slot(u, w, n + k) && Slot(d, w, k).Some?
    {
      SlotSeen(u, d, w, n, k);
    }
    forall q | InFrame(d, w, m, q)
      ensures InFrame(u, w, n + m, q) && !InFrame(u, w, n, q)
    {
      var k: nat :| k < m && Slot(d, w, k).Some? && Slot(d, w, k).value <= q < Slot(d, w, k).value + w;
      assert Slot(u, w, n + k) == Slot(d, w, k);
      forall j: nat | j < n && Slot(u, w, j).Some?
        ensures !(Slot(u, w, j).value <= q < Slot(u, w, j).value + w)
      {
        assert w * (n + k - j) + w <= w * (n + m) by { Scaled(w, n + k - j + 1, n + m); }
        SlotsDisjoint(u, w, j, n + k);
      }
    }
    RoomSeen(u, d, n, m);
  }

  lemma Scaled(w: nat, a: nat, b: nat)
    requires a <= b
    ensures w * (a - 1) + w == w * a <= w * b
  {
  }

  lemma RoomSeen(u: State, d: State, n: nat, m: nat)
    requires WellFormed(u) && WellFormed(d) && RoomBelow(u, n + m)
    requires d.pe == u.pe && d.a20 == u.a20 && |d.mem| == |u.mem|
    requires d.gdtr == u.gdtr && d.ldtr == u.ldtr && d.idtr == u.idtr
    requires forall k: nat :: k < m ==> Slot(d, FrameWidth(u), k) == Slot(u, FrameWidth(u), n + k)
    requires forall q :: InFrame(d, FrameWidth(u), m, q) ==> InFrame(u, FrameWidth(u), n + m, q)
    ensures RoomBelow(d, m)
  {
    hide TableByte, Slot, Span, InFrame;
    var w := FrameWidth(u);
    assert w * m <= w * (n + m) by { Scaled(w, m + 1, n + m + 1); }
    forall k | 0 <= k < m
      ensures Slot(d, w, k).Some? && !Device(Slot(d, w, k).value) && InRam(d.mem, Slot(d, w, k).value)
    {
      assert Slot(d, w, k) == Slot(u, w, n + k);
    }
  }

  lemma SlotSeen(u: State, d: State, w: Width, n: nat, k: nat)
    requires WellFormed(u) && WellFormed(d) && Slot(u, w, n + k).Some?
    requires d.segs[SS] == u.segs[SS] && d.pe == u.pe && d.a20 == u.a20 && (u.pe ==> Cpl(d) <= Cpl(u))
    requires d.gp[ESP] == Lowered(u.gp[ESP], w, w * n)
    ensures Slot(d, w, k) == Slot(u, w, n + k)
  {
    hide Lowered, Top, Masked, LimitOf, BaseOf;
    LoweredTwice(u.gp[ESP], w, w * n, w * (k + 1));
    assert w * n + w * (k + 1) == w * (n + k + 1);
  }

  /** The inner stack is where it was. */
  lemma InnerKept(s: State, d: State)
    requires Carries(s, d) && s.pe && Onto(s, true).Some?
    requires forall q :: StackField(s, q) && 0 <= q < |s.mem| ==> d.mem[q] == s.mem[q]
    ensures Onto(d, true).Some?
    ensures Onto(d, true).value.segs[SS] == Onto(s, true).value.segs[SS]
    ensures Onto(d, true).value.gp[ESP] == Onto(s, true).value.gp[ESP]
  {
    hide LoadSeg, SameTables, Word, Dword;
    assert |s.mem| == |d.mem| && s.pe == d.pe by { TablesSize(s, d); }
    WordSame(s.mem, d.mem, s.tr.base + 8);
    DwordSame(s.mem, d.mem, s.tr.base + 4);
    LoadSegTables(s, d, SS, Word(s.mem, s.tr.base + 8));
  }

  lemma TablesSize(s: State, d: State)
    requires SameTables(s, d)
    ensures |s.mem| == |d.mem| && s.pe == d.pe && s.gdtr == d.gdtr && s.ldtr == d.ldtr && s.idtr == d.idtr
  {
  }

  /** ... and has the same room. */
  lemma InnerStays(s: State, d: State, n: nat)
    requires Carries(s, d) && s.pe && Onto(s, true).Some? && d.a20 == s.a20 && Cpl(d) <= Cpl(s)
    requires forall q :: StackField(s, q) && 0 <= q < |s.mem| ==> d.mem[q] == s.mem[q]
    requires RoomBelow(Onto(s, true).value, n)
    ensures Onto(d, true).Some? && RoomBelow(Onto(d, true).value, n)
    ensures forall k: nat :: k < n ==> Slot(Onto(d, true).value, 4, k) == Slot(Onto(s, true).value, 4, k)
    ensures forall q :: InFrame(Onto(d, true).value, 4, n, q) ==> InFrame(Onto(s, true).value, 4, n, q)
  {
    hide Onto, Slot, TableByte, Lowered, Span, InFrame, RoomBelow;
    InnerKept(s, d);
    OntoParts(s, true);
    OntoParts(d, true);
    TablesSize(s, d);
    hide SameTables;
    LoweredTwice(Onto(s, true).value.gp[ESP], 4, 0, 0);
    Deeper(Onto(s, true).value, Onto(d, true).value, 0, n);
  }

  lemma InnerLoaded(s: State, d: State)
    requires Carries(s, d) && s.pe && Onto(s, true).Some?
    ensures var seg := Onto(s, true).value.segs[SS]; LoadSeg(d, SS, seg.sel) == Some(seg)
  {
    hide SameTables, Word, Dword, Bit;
    var sel := Word(s.mem, s.tr.base + 8);
    LoadSegTables(s, d, SS, sel);
    assert s.pe == d.pe by { TablesSize(s, d); }
  }

  // ------------------------------------------------------------- one level further in

  /** How the slots divide between the first delivery and the rest. */
  lemma SlotCounts(s: State, vs: seq<Vector>)
    requires WellFormed(s) && vs != []
    ensures var ring := Ring(s); var inside := RingInside(s, ring, vs[0]); var k := Before(s, inside, vs[1..]);
            && (!Lowers(s, ring, vs[0]) ==>
                  && OuterSlots(s, vs) == 3 + 3 * k
                  && (Lowerings(s, inside, vs[1..]) > 0 ==> InnerSlots(s, vs) == 5 + 3 * (|vs[1..]| - k - 1)))
            && (Lowers(s, ring, vs[0]) ==>
                  && OuterSlots(s, vs) == 0 && 5 + 3 * k <= InnerSlots(s, vs)
                  && (Lowerings(s, inside, vs[1..]) > 0 ==> 5 + 3 * (|vs[1..]| - k - 1) <= InnerSlots(s, vs)))
  {
    hide RingInside;
  }

  lemma FirstRoom(s: State, vs: seq<Vector>)
    requires Nestable(s, vs) && vs != []
    ensures var change := Lowers(s, Ring(s), vs[0]);
            && Onto(s, change).Some?
            && RoomBelow(Onto(s, change).value,
                         (if change then 5 else 3) + 3 * Before(s, RingInside(s, Ring(s), vs[0]), vs[1..]))
    ensures Enterable(s, Ring(s), vs[0])
    ensures AllEnterable(s, RingInside(s, Ring(s), vs[0]), vs[1..])
  {
    hide LoadSeg, RoomBelow, Lookup, InFrame, StackField, Onto;
    var change := Lowers(s, Ring(s), vs[0]);
    SlotCounts(s, vs);
    if change {
      OntoParts(s, true);
      FewerSlots(Onto(s, true).value, 5 + 3 * Before(s, RingInside(s, Ring(s), vs[0]), vs[1..]), InnerSlots(s, vs));
    } else {
      NoChange(s);
    }
  }

  lemma NoChange(s: State)
    requires WellFormed(s)
    ensures Onto(s, false) == Some(s)
  {
  }

  /** The first delivery of a nest, and what the handler has for the rest. */
  ghost predicate FirstStep(s: State, vs: seq<Vector>, d: State)
    requires WellFormed(s) && vs != []
  {
    var change := Lowers(s, Ring(s), vs[0]);
    var n := if change then 5 else 3;
    && Accepted(s, vs[0]) && Deliver(s, vs[0]) == Some(d) && Onto(s, change).Some?
    && FrameState(s, vs[0]) == Onto(s, change).value && |FrameValues(s, vs[0])| == n
    && Entered(s, Onto(s, change).value, n, d) && Carries(s, d)
    && Ring(d) == RingInside(s, Ring(s), vs[0])
    && Lowerings(d, Ring(d), vs[1..]) == Lowerings(s, Ring(s), vs) - (if change then 1 else 0)
    && OuterSlots(d, vs[1..]) == 3 * Before(s, Ring(d), vs[1..])
    && AllEnterable(d, Ring(d), vs[1..])
    && RoomBelow(d, OuterSlots(d, vs[1..]))
    && (forall q :: InFrame(d, FrameWidth(s), OuterSlots(d, vs[1..]), q) ==>
          && !InFrame(Onto(s, change).value, FrameWidth(s), n, q)
          && InFrame(Onto(s, change).value, FrameWidth(s), n + OuterSlots(d, vs[1..]), q))
  }

  lemma TakesFirstStep(s: State, vs: seq<Vector>)
    requires Nestable(s, vs) && vs != []
    ensures WellFormed(s) && Deliver(s, vs[0]).Some? && FirstStep(s, vs, Deliver(s, vs[0]).value)
  {
    hide LoadSeg, RoomBelow, Lookup, InFrame, StackField, Onto, Deliver, FrameState, FrameValues, SlotsInRam, Lowered,
         Bit, Span, Slot, TableByte, Enterable, Untouched;
    FirstRoom(s, vs);
    var change, v := Lowers(s, Ring(s), vs[0]), vs[0];
    var u, n := Onto(s, change).value, if change then 5 else 3;
    var k := Before(s, RingInside(s, Ring(s), v), vs[1..]);
    OntoParts(s, change);
    FewerSlots(u, n, n + 3 * k);
    Enters(s, v);
    var d := Deliver(s, v).value;
    TablesSize(s, d);
    hide SameTables;
    SameGates(s, d, Ring(d), vs[1..]);
    Deeper(u, d, n, 3 * k);
  }

  /** Inside the first handler the rest of the nest can still be run. */
  lemma StillNestable(s: State, vs: seq<Vector>, d: State)
    requires Nestable(s, vs) && vs != [] && FirstStep(s, vs, d)
    ensures Nestable(d, vs[1..])
  {
    hide LoadSeg, RoomBelow, Lookup, InFrame, StackField, Onto, Deliver, FrameState, FrameValues, SlotsInRam, Lowered,
         Bit, Span, Slot, TableByte, Enterable, AllEnterable, Accepted, InnerReady;
    if Lowerings(d, Ring(d), vs[1..]) > 0 {
      PeOfLowering(d, Ring(d), vs[1..]);
      if Lowers(s, Ring(s), vs[0]) {
        InnerAfterChange(s, vs, d);
      } else {
        InnerAfterSame(s, vs, d);
      }
    }
  }

  lemma PeOfLowering(s: State, ring: nat, vs: seq<Vector>)
    ensures Lowerings(s, ring, vs) > 0 ==> s.pe
  {
    if !s.pe {
      RealModeNeverLowers(s, ring, vs);
    }
  }

  lemma InnerAfterSame(s: State, vs: seq<Vector>, d: State)
    requires Nestable(s, vs) && vs != [] && FirstStep(s, vs, d) && !Lowers(s, Ring(s), vs[0])
    requires Lowerings(d, Ring(d), vs[1..]) > 0
    ensures InnerReady(d, InnerSlots(d, vs[1..]), OuterSlots(d, vs[1..]))
    ensures InnerSlots(d, vs[1..]) == InnerSlots(s, vs) && 3 + OuterSlots(d, vs[1..]) == OuterSlots(s, vs)
    ensures Onto(s, true).Some?
    ensures forall q :: InFrame(Onto(d, true).value, 4, InnerSlots(d, vs[1..]), q) ==>
              InFrame(Onto(s, true).value, 4, InnerSlots(s, vs), q)
    ensures Lowerings(d, Ring(d), vs[1..]) > 1 ==>
              forall q :: InFrame(Onto(d, true).value, 4, InnerSlots(d, vs[1..]), q) ==> !StackField(d, q)
  {
    hide LoadSeg, RoomBelow, Lookup, Onto, Deliver, FrameState, FrameValues, SlotsInRam, Lowered, Bit, Span, Slot,
         TableByte, Enterable, AllEnterable, Accepted, InFrame, SameTables, RingInside;
    PeOfLowering(s, Ring(s), vs);
    SlotCounts(s, vs);
    SameGates(s, d, Ring(d), vs[1..]);
    NoChange(s);
    FewerSlots(s, 3, OuterSlots(s, vs));
    TablesSize(s, d);
    InnerStays(s, d, InnerSlots(s, vs));
    LoadSegTables(s, d, SS, s.segs[SS].sel);
  }

  lemma InnerAfterChange(s: State, vs: seq<Vector>, d: State)
    requires Nestable(s, vs) && vs != [] && FirstStep(s, vs, d) && Lowers(s, Ring(s), vs[0])
    requires Lowerings(d, Ring(d), vs[1..]) > 0
    ensures InnerReady(d, InnerSlots(d, vs[1..]), OuterSlots(d, vs[1..]))
    ensures Lowerings(d, Ring(d), vs[1..]) > 1 ==>
              forall q :: InFrame(Onto(d, true).value, 4, InnerSlots(d, vs[1..]), q) ==> !StackField(d, q)
  {
    hide LoadSeg, RoomBelow, Lookup, Onto, Deliver, FrameState, FrameValues, SlotsInRam, Lowered, Bit, Span, Slot,
         TableByte, Enterable, AllEnterable, Accepted, InFrame, SameTables, RingInside;
    PeOfLowering(s, Ring(s), vs);
    SlotCounts(s, vs);
    SameGates(s, d, Ring(d), vs[1..]);
    var u, n := Onto(s, true).value, InnerSlots(s, vs);
    OntoParts(s, true);
    FewerSlots(u, 5, n);
    FewerSlots(u, 5 + OuterSlots(d, vs[1..]), n);
    TablesSize(s, d);
    InnerStays(s, d, n);
    InnerLoaded(s, d);
    OntoParts(d, true);
    FewerSlots(Onto(d, true).value, InnerSlots(d, vs[1..]), n);
  }

  // ------------------------------------------------------------- returning

  /** A handler whose memory kept the frame and the tables, and which is otherwise where
      it began, returns to the interrupted state. */
  lemma ReturnsTo(s: State, v: Vector, u: State, n: nat, d: State, b: State)
    requires Accepted(s, v) && Deliver(s, v) == Some(d) && FrameState(s, v) == u && |FrameValues(s, v)| == n
    requires Entered(s, u, n, d) && WellFormed(b) && b == d.(mem := b.mem) && |b.mem| == |s.mem|
    requires forall q :: 0 <= q < |b.mem| && InFrame(u, FrameWidth(s), n, q) ==> b.mem[q] == d.mem[q]
    requires SameTables(s, b)
    requires LoadSeg(s, CS, s.segs[CS].sel) == Some(s.segs[CS]) && (s.pe ==> !Bit(s.eflags, 14))
    requires ChangesRing(s, Lookup(s, v).value) ==> LoadSeg(s, SS, s.segs[SS].sel) == Some(s.segs[SS])
    ensures Iret(b, false) == Some(s.(mem := b.mem))
  {
    hide Slot, Lowered, InFrame, Lookup, Deliver, Bit, SlotsInRam, FrameValues, FrameState, Onto, LoadSeg, Iret,
         TableByte, WithLow, Wrap16;
    LoadSegTables(s, b, CS, s.segs[CS].sel);
    if ChangesRing(s, Lookup(s, v).value) {
      LoadSegTables(s, b, SS, s.segs[SS].sel);
    }
    hide SameTables;
    assert Returning(s, v, b, false);
    IretUndoesDelivery(s, v, b, false);
    hide Returning;
    RestoredIsStart(s, u, n, d, b);
  }

  lemma RestoredIsStart(s: State, u: State, n: nat, d: State, b: State)
    requires Entered(s, u, n, d) && WellFormed(b) && b == d.(mem := b.mem)
    ensures Restored(s, b) == s.(mem := b.mem)
  {
    hide LoadSeg, Untouched, Bit, Lowered, Wrap16;
    assert b.gp[ESP := s.gp[ESP]] == s.gp;
    assert b.segs[CS := s.segs[CS]][SS := s.segs[SS]] == s.segs;
    if !s.pe {
      SameHigh(s.eip, b.eip);
      SameHigh(s.eflags, b.eflags);
    }
  }

  /** Whatever the rest of the nest uses, the nest uses; the first frame is not part of
      it, and is used too. */
  lemma UsedInside(s: State, vs: seq<Vector>, d: State)
    requires Nestable(s, vs) && vs != [] && FirstStep(s, vs, d) && Nestable(d, vs[1..])
    requires StacksApart(s, vs) && Lowerings(s, Ring(s), vs) <= 1
    ensures StacksApart(d, vs[1..])
    ensures var u := Onto(s, Lowers(s, Ring(s), vs[0])).value;
            var n := if Lowers(s, Ring(s), vs[0]) then 5 else 3;
            forall q :: && (Used(d, vs[1..], q) ==> Used(s, vs, q) && !InFrame(u, FrameWidth(s), n, q))
                        && (InFrame(u, FrameWidth(s), n, q) ==> Used(s, vs, q))
  {
    hide LoadSeg, RoomBelow, Lookup, Onto, Deliver, FrameState, FrameValues, SlotsInRam, Lowered, Bit, Span, Slot,
         TableByte, Enterable, AllEnterable, Accepted, InFrame, SameTables, RingInside, InnerReady, StackField;
    SlotCounts(s, vs);
    SameGates(s, d, Ring(d), vs[1..]);
    PeOfLowering(s, Ring(s), vs);
    NoChange(s);
    if Lowers(s, Ring(s), vs[0]) {
      OntoParts(s, true);
      FewerSlots(Onto(s, true).value, 5 + OuterSlots(d, vs[1..]), InnerSlots(s, vs));
      FewerSlots(Onto(s, true).value, 5, InnerSlots(s, vs));
    } else {
      FewerSlots(s, 3, OuterSlots(s, vs));
      if Lowerings(d, Ring(d), vs[1..]) > 0 {
        InnerAfterSame(s, vs, d);
      } else {
        NoneBefore(s, Ring(d), vs[1..]);
      }
    }
  }

  /** Memory that changed only where the nest may leaves every table alone. */
  lemma TablesSurvive(s: State, vs: seq<Vector>, b: State)
    requires Nestable(s, vs) && WellFormed(b) && OnlyBelow(s, vs, b.mem)
    requires b.gdtr == s.gdtr && b.ldtr == s.ldtr && b.idtr == s.idtr && b.pe == s.pe
    ensures SameTables(s, b)
  {
    hide LoadSeg, Lookup, Bit, Slot, TableByte, AllEnterable, InFrame, SlotsInRam, Span;
    PeOfLowering(s, Ring(s), vs);
    if Onto(s, true).Some? {
      OntoParts(s, true);
      hide Onto;
    }
  }

  /** Conditions on the first state alone, in real and protected mode, with the ring kept
      or lowered once: n deliveries and n returns succeed, every return gives back what its
      delivery interrupted, hidden parts and flags included, and memory differs only in
      slots below SS:ESP and, if the ring is lowered, below the inner stack pointer. */
  lemma {:induction false} NestRestores(s: State, vs: seq<Vector>)
    requires Nestable(s, vs) && StacksApart(s, vs) && Lowerings(s, Ring(s), vs) <= 1
    ensures Restores(s, vs) && Nest(s, vs).Some?
    ensures Nest(s, vs).value == s.(mem := Nest(s, vs).value.mem)
    ensures OnlyBelow(s, vs, Nest(s, vs).value.mem)
    decreases |vs|
  {
    if vs != [] {
      hide Nestable, Entered, Accepted, Deliver, Iret, Onto, Used, FrameState, FrameValues, StacksApart, LoadSeg, Bit,
           InFrame, Carries, RoomBelow, OuterSlots, AllEnterable;
      TakesFirstStep(s, vs);
      var d := Deliver(s, vs[0]).value;
      StillNestable(s, vs, d);
      UsedInside(s, vs, d);
      NestRestores(d, vs[1..]);
      LastReturn(s, vs, d, Nest(d, vs[1..]).value);
    }
  }

  lemma LastReturn(s: State, vs: seq<Vector>, d: State, b: State)
    requires Nestable(s, vs) && vs != [] && FirstStep(s, vs, d) && Nestable(d, vs[1..])
    requires StacksApart(s, vs) && Lowerings(s, Ring(s), vs) <= 1
    requires WellFormed(b) && b == d.(mem := b.mem) && OnlyBelow(d, vs[1..], b.mem)
    ensures Iret(b, false) == Some(s.(mem := b.mem)) && OnlyBelow(s, vs, b.mem)
  {
    UsedInside(s, vs, d);
    hide LoadSeg, RoomBelow, Lookup, Onto, Deliver, FrameState, FrameValues, SlotsInRam, Lowered, Bit, Span, Slot,
         TableByte, Enterable, AllEnterable, Accepted, InFrame, SameTables, RingInside, StackField, Iret, Used,
         StacksApart;
    var change := Lowers(s, Ring(s), vs[0]);
    TablesSize(s, d);
    OntoWidth(s, change);
    TablesSurvive(s, vs, b);
    RingOfGate(s, vs[0]);
    ReturnsTo(s, vs[0], Onto(s, change).value, if change then 5 else 3, d, b);
  }

  lemma OntoWidth(s: State, change: bool)
    requires WellFormed(s) && Onto(s, change).Some?
    ensures FrameWidth(Onto(s, change).value) == FrameWidth(s)
  {
    OntoParts(s, change);
  }

  lemma RingOfGate(s: State, v: Vector)
    requires WellFormed(s) && Lookup(s, v).Some?
    ensures ChangesRing(s, Lookup(s, v).value) <==> Lowers(s, Ring(s), v)
  {
    hide Lookup;
  }
}
