/** Exactly when changes of ring work: when a delivery can make one, and how many a nest
    survives. */
module InterruptLimits {
  import opened Words
  import opened Memory
  import opened Cpu
  import opened Interrupts
  import opened InterruptTheorems
  import opened InterruptNests
  import TaskSwitch

  // ------------------------------------------------------------- when a ring can be changed

  /** The stack as a state at ring 0 sees it. */
  function AsRingZero(u: State): State
    requires WellFormed(u)
  {
    u.(segs := u.segs[CS := u.segs[CS].(sel := u.segs[CS].sel / 4 * 4)])
  }

  lemma SlotOpen(u: State, k: nat)
    requires WellFormed(u) && u.pe && Slot(AsRingZero(u), 4, k).Some? && Cpl(u) <= Dpl(u.segs[SS].cache.access)
    ensures Slot(u, 4, k) == Slot(AsRingZero(u), 4, k)
  {
    hide Lowered, Top, Masked, LimitOf, BaseOf, Bit, Dpl;
    assert u.segs[CS].sel / 4 * 4 % 4 == 0;
  }

  lemma RoomOpen(u: State, n: nat)
    requires WellFormed(u) && u.pe && RoomBelow(AsRingZero(u), n) && Cpl(u) <= Dpl(u.segs[SS].cache.access)
    ensures RoomBelow(u, n)
  {
    hide Slot, TableByte, Span, Dpl;
    forall k: nat | k < n ensures Slot(u, 4, k) == Slot(AsRingZero(u), 4, k) {
      assert Slot(AsRingZero(u), 4, k).Some?;
      SlotOpen(u, k);
    }
  }

  /** A delivery that must change ring, with everything else in order, happens exactly
      when the inner stack's privilege level admits the ring that is interrupted: the
      frame is pushed before CS changes. */
  lemma RingChangeIff(s: State, v: Vector)
    requires WellFormed(s) && Lookup(s, v).Some? && MayEnter(s, v, Lookup(s, v).value)
    requires ChangesRing(s, Lookup(s, v).value) && LoadSeg(s, CS, Lookup(s, v).value.sel).Some?
    requires Onto(s, true).Some? && RoomBelow(AsRingZero(Onto(s, true).value), 5)
    ensures Deliver(s, v).Some? <==> Cpl(s) <= Dpl(Onto(s, true).value.segs[SS].cache.access)
  {
    hide Slot, Get, Lowered, PushAll, InFrame, Lookup, LoadSeg, TableByte, Span, Onto, Saved, Dpl;
    var g, u := Lookup(s, v).value, Onto(s, true).value;
    OntoParts(s, true);
    if Deliver(s, v).Some? {
      RingChangeNeedsOpenStack(s, v);
    }
    if Cpl(s) <= Dpl(u.segs[SS].cache.access) {
      RoomOpen(u, 5);
      SavedFits(s, true);
      SavedSize(s, true);
      PushAllEffect(u, 4, Saved(s, true));
      var t := PushAll(u, 4, Saved(s, true)).value;
      TablesClear(u, s, t, 5);
      LoadSegPushed(s, u, t, g.sel);
    }
  }

  // ------------------------------------------------------------- a second change of ring

  /** Whichever way it goes on, an `iret` ends in the code segment it popped. */
  lemma IretTakesCode(b: State)
    requires WellFormed(b) && Mode32(b, false) && Iret(b, false).Some?
    ensures PopThree(b, 4).Some?
    ensures Iret(b, false).value.segs[CS].sel == Wrap16(PopThree(b, 4).value.2)
  {
    hide PopThree, Bit, Wrap16, IretWide;
    var (t, eip, cs, flags) := PopThree(b, 4).value;
    WideTakesCode(t.(eip := eip, eflags := flags), Wrap16(cs), Cpl(b));
  }

  lemma WideTakesCode(s: State, cs: u16, cpl: nat)
    requires WellFormed(s) && IretWide(s, cs, cpl).Some?
    ensures IretWide(s, cs, cpl).value.segs[CS].sel == cs
  {
    hide LoadSeg, Bit, TaskSwitch.SwitchTask, Word, Pop, Wrap16;
    SegmentTaken(s, CS, cs);
    if Bit(s.eflags, 14) {
      SegmentTaken(TaskSwitch.SwitchTask(s, Word(s.mem, s.tr.base)).value, CS, cs);
    } else if Rpl(cs) > cpl {
      var esp := Pop(s, 4).value;
      var ss := Pop(esp.0, 4).value;
      SegmentTaken(SetSegment(WithEsp(ss.0, esp.1), SS, Wrap16(ss.1)).value, CS, cs);
    }
  }

  lemma SegmentTaken(s: State, seg: nat, sel: u16)
    requires WellFormed(s) && seg < 6
    ensures SetSegment(s, seg, sel).Some? ==> SetSegment(s, seg, sel).value.segs[seg].sel == sel
  {
  }

  /** ... which it finds two values up the stack. */
  lemma PopsSecond(u: State, b: State, n: nat, code: u32)
    requires WellFormed(u) && WellFormed(b) && b.pe && u.pe && n >= 2 && SlotsInRam(u, 4, n) && |b.mem| == |u.mem|
    requires b.segs[SS] == u.segs[SS] && b.a20 == u.a20 && Cpl(b) <= Cpl(u)
    requires b.gp[ESP] == Lowered(u.gp[ESP], 4, 4 * n) && Get(b.mem, Slot(u, 4, n - 2).value, 4) == code
    requires PopThree(b, 4).Some?
    ensures PopThree(b, 4).value.2 == code
  {
    hide Slot, Get, Lowered, Pop;
    PopSlot(u, b, 4, n - 1);
    var c := WithEsp(b, Lowered(u.gp[ESP], 4, 4 * (n - 1)));
    PopSlot(u, c, 4, n - 2);
  }

  /** A later change of ring starts at the same inner stack pointer as an earlier one, so
      its frame lies over the earlier frame: afterwards the code segment saved there is one
      of the inner ring. */
  lemma {:induction false} FrameOverwritten(h: State, vs: seq<Vector>)
    requires Nestable(h, vs) && Lowerings(h, Ring(h), vs) == 1 && Restores(h, vs)
    ensures Nest(h, vs).Some? && h.pe && Onto(h, true).Some? && SlotsInRam(Onto(h, true).value, 4, 5)
    ensures |Nest(h, vs).value.mem| == |h.mem|
    ensures var code := Get(Nest(h, vs).value.mem, Slot(Onto(h, true).value, 4, 3).value, 4);
            code < 0x1_0000 && Rpl(code) == Ring(h)
    decreases |vs|
  {
    hide Nestable, Entered, Accepted, Deliver, Iret, Onto, Used, FrameState, FrameValues, StacksApart, LoadSeg, Bit,
         InFrame, Carries, RoomBelow, OuterSlots, AllEnterable, Slot, Get, SlotsInRam;
    TakesFirstStep(h, vs);
    var d := Deliver(h, vs[0]).value;
    StillNestable(h, vs, d);
    InnerRoom(h, vs);
    if Lowers(h, Ring(h), vs[0]) {
      NoInner(d, vs[1..]);
      NestRestores(d, vs[1..]);
      OverwrittenNow(h, vs, d, Nest(d, vs[1..]).value);
    } else {
      FrameOverwritten(d, vs[1..]);
      SameInnerSlot(h, vs, d);
    }
  }

  lemma NoInner(d: State, vs: seq<Vector>)
    requires WellFormed(d) && Lowerings(d, Ring(d), vs) == 0
    ensures StacksApart(d, vs)
    ensures forall q :: Used(d, vs, q) <==> InFrame(d, FrameWidth(d), OuterSlots(d, vs), q)
  {
  }

  lemma InnerRoom(s: State, vs: seq<Vector>)
    requires Nestable(s, vs) && Lowerings(s, Ring(s), vs) > 0
    ensures s.pe && Onto(s, true).Some? && RoomBelow(Onto(s, true).value, 5) && SlotsInRam(Onto(s, true).value, 4, 5)
  {
    hide LoadSeg, Lookup, Bit, Slot, TableByte, AllEnterable, InFrame, Onto, Span, Before;
    PeOfLowering(s, Ring(s), vs);
    OntoParts(s, true);
    FewerSlots(Onto(s, true).value, 5, InnerSlots(s, vs));
    hide SlotsInRam;
  }

  lemma OverwrittenNow(h: State, vs: seq<Vector>, d: State, b: State)
    requires Nestable(h, vs) && vs != [] && FirstStep(h, vs, d) && Lowers(h, Ring(h), vs[0])
    requires Lowerings(d, Ring(d), vs[1..]) == 0 && h.pe && Onto(h, true).Some?
    requires SlotsInRam(Onto(h, true).value, 4, 5) && OnlyBelow(d, vs[1..], b.mem)
    ensures Get(b.mem, Slot(Onto(h, true).value, 4, 3).value, 4) == h.segs[CS].sel && Rpl(h.segs[CS].sel) == Ring(h)
  {
    hide Nestable, LoadSeg, RoomBelow, Lookup, Onto, FrameState, Lowered, Bit, Span, Slot, Get, Used, Deliver,
         TableByte, AllEnterable, InFrame, SlotsInRam, Entered, Carries;
    var u := Onto(h, true).value;
    DeliverEffect(h, vs[0]);
    SavedCode(h, vs[0]);
    NoInner(d, vs[1..]);
    WidthOf(h, u, d);
    SlotInside(u, 5, 3, h.mem, d.mem, b.mem, d, OuterSlots(d, vs[1..]));
  }

  lemma WidthOf(h: State, u: State, d: State)
    requires h.pe && Entered(h, u, 5, d)
    ensures FrameWidth(h) == 4 && FrameWidth(d) == 4 && |d.mem| == |h.mem| && |u.mem| == |h.mem|
  {
  }

  lemma SavedCode(h: State, v: Vector)
    requires WellFormed(h) && h.pe && Lookup(h, v).Some? && |FrameValues(h, v)| == 5
    ensures FrameValues(h, v)[3] == h.segs[CS].sel
  {
    hide Lookup;
  }

  lemma SlotInside(u: State, n: nat, k: nat, was: Ram, mem: Ram, after: Ram, d: State, m: nat)
    requires WellFormed(u) && WellFormed(d) && k < n && SlotsInRam(u, 4, n) && |u.mem| == |mem| == |after|
    requires forall q :: InFrame(d, 4, m, q) ==> !InFrame(u, 4, n, q)
    requires forall q :: 0 <= q < |after| && !InFrame(d, 4, m, q) ==> after[q] == mem[q]
    ensures Get(after, Slot(u, 4, k).value, 4) == Get(mem, Slot(u, 4, k).value, 4)
  {
    hide Slot, Get;
    SlotInFrame(u, 4, n, k);
    hide InFrame;
    GetSame(mem, after, Slot(u, 4, k).value, 4);
  }

  lemma SameInnerSlot(s: State, vs: seq<Vector>, d: State)
    requires Nestable(s, vs) && vs != [] && FirstStep(s, vs, d) && !Lowers(s, Ring(s), vs[0])
    requires Lowerings(d, Ring(d), vs[1..]) > 0
    ensures Onto(s, true).Some? && Onto(d, true).Some? && RoomBelow(Onto(s, true).value, 5)
    ensures Slot(Onto(d, true).value, 4, 3) == Slot(Onto(s, true).value, 4, 3)
    ensures Ring(d) == Ring(s) && |d.mem| == |s.mem|
  {
    hide LoadSeg, RoomBelow, Lookup, Onto, Deliver, FrameState, FrameValues, SlotsInRam, Lowered, Bit, Span, Slot,
         TableByte, Enterable, AllEnterable, Accepted, InFrame, SameTables, RingInside;
    PeOfLowering(s, Ring(s), vs);
    InnerRoom(s, vs);
    NoChange(s);
    SlotCounts(s, vs);
    FewerSlots(s, 3, OuterSlots(s, vs));
    TablesSize(s, d);
    InnerStays(s, d, 5);
  }

  /** With two changes of ring, even if all that comes after the first is restored, its
      own return goes to the ring it came to and not to the one it came from. */
  lemma SecondChangeLost(s: State, vs: seq<Vector>)
    requires Nestable(s, vs) && vs != [] && Lowers(s, Ring(s), vs[0]) && Lowerings(s, Ring(s), vs) == 2
    requires Deliver(s, vs[0]).Some? ==> Restores(Deliver(s, vs[0]).value, vs[1..])
    ensures Nest(s, vs).Some? ==> Cpl(Nest(s, vs).value) != Cpl(s)
  {
    hide Nestable, Entered, Accepted, Deliver, Onto, FrameState, FrameValues, LoadSeg, Bit, InFrame, Carries,
         RoomBelow, OuterSlots, AllEnterable, Slot, Get, SlotsInRam, Iret;
    TakesFirstStep(s, vs);
    var d := Deliver(s, vs[0]).value;
    StillNestable(s, vs, d);
    FrameOverwritten(d, vs[1..]);
    InnerRoom(s, vs);
    var b := Nest(d, vs[1..]).value;
    RestsAsEntered(d, vs[1..]);
    ChangeLost(s, vs, d, b);
  }

  /** What a restored nest has changed is memory alone. */
  lemma RestsAsEntered(d: State, vs: seq<Vector>)
    requires WellFormed(d) && vs != [] && Restores(d, vs) && Nest(d, vs).Some?
    ensures Nest(d, vs).value == d.(mem := Nest(d, vs).value.mem)
  {
    hide Deliver, Iret;
  }

  lemma ChangeLost(s: State, vs: seq<Vector>, d: State, b: State)
    requires Nestable(s, vs) && vs != [] && FirstStep(s, vs, d) && Nestable(d, vs[1..])
    requires Lowers(s, Ring(s), vs[0]) && Lowerings(d, Ring(d), vs[1..]) == 1
    requires Nest(d, vs[1..]) == Some(b) && b == d.(mem := b.mem) && |b.mem| == |d.mem| && WellFormed(b)
    requires s.pe && Onto(s, true).Some? && SlotsInRam(Onto(s, true).value, 4, 5)
    requires Onto(d, true).Some? && SlotsInRam(Onto(d, true).value, 4, 5)
    requires var code := Get(b.mem, Slot(Onto(d, true).value, 4, 3).value, 4); code < 0x1_0000 && Rpl(code) == Ring(d)
    ensures Nest(s, vs).Some? ==> Cpl(Nest(s, vs).value) != Cpl(s)
  {
    InnerSlotAfterChange(s, vs, d);
    hide LoadSeg, RoomBelow, Lookup, Onto, Deliver, FrameState, FrameValues, SlotsInRam, Lowered, Bit, Span, Slot,
         TableByte, Enterable, AllEnterable, Accepted, InFrame, SameTables, RingInside, Get, PopThree, Iret, Nestable;
    OntoParts(s, true);
    BalancedAt(s, Onto(s, true).value, d, b);
    hide Entered;
    TakesCodeAt(Onto(s, true).value, b, Get(b.mem, Slot(Onto(s, true).value, 4, 3).value, 4));
    NestEnd(s, vs, d, b);
  }

  lemma NestEnd(s: State, vs: seq<Vector>, d: State, b: State)
    requires WellFormed(s) && vs != [] && Deliver(s, vs[0]) == Some(d) && Nest(d, vs[1..]) == Some(b)
    ensures Nest(s, vs) == Iret(b, false)
  {
    hide Deliver, Iret;
  }

  lemma BalancedAt(s: State, u: State, d: State, b: State)
    requires Entered(s, u, 5, d) && s.pe && WellFormed(b) && b == d.(mem := b.mem) && |b.mem| == |d.mem|
    ensures b.pe && u.pe && Mode32(b, false) && |b.mem| == |u.mem| && b.segs[SS] == u.segs[SS] && b.a20 == u.a20
    ensures b.gp[ESP] == Lowered(u.gp[ESP], 4, 4 * 5) && Cpl(u) == Cpl(s) && Cpl(b) == Cpl(d) <= Cpl(u)
  {
    hide LoadSeg, Lowered, Bit;
  }

  lemma TakesCodeAt(u: State, b: State, code: u32)
    requires WellFormed(u) && WellFormed(b) && b.pe && u.pe && Mode32(b, false) && |b.mem| == |u.mem|
    requires b.segs[SS] == u.segs[SS] && b.a20 == u.a20 && Cpl(b) <= Cpl(u) && SlotsInRam(u, 4, 5)
    requires b.gp[ESP] == Lowered(u.gp[ESP], 4, 4 * 5) && Get(b.mem, Slot(u, 4, 3).value, 4) == code && code < 0x1_0000
    ensures Iret(b, false).Some? ==> Iret(b, false).value.segs[CS].sel == code
  {
    hide Slot, Get, Lowered, SlotsInRam, PopThree, Iret;
    if Iret(b, false).Some? {
      IretTakesCode(b);
      PopsSecond(u, b, 5, code);
      assert Wrap16(code) == code;
    }
  }

  lemma InnerSlotAfterChange(s: State, vs: seq<Vector>, d: State)
    requires Nestable(s, vs) && vs != [] && FirstStep(s, vs, d) && Lowers(s, Ring(s), vs[0])
    requires Lowerings(d, Ring(d), vs[1..]) > 0
    ensures Onto(s, true).Some? && Onto(d, true).Some?
    ensures Slot(Onto(d, true).value, 4, 3) == Slot(Onto(s, true).value, 4, 3)
  {
    hide LoadSeg, RoomBelow, Lookup, Onto, Deliver, FrameState, FrameValues, SlotsInRam, Lowered, Bit, Span, Slot,
         TableByte, Enterable, AllEnterable, Accepted, InFrame, SameTables, RingInside;
    PeOfLowering(s, Ring(s), vs);
    InnerRoom(s, vs);
    OntoParts(s, true);
    FewerSlots(Onto(s, true).value, 5, InnerSlots(s, vs));
    TablesSize(s, d);
    InnerStays(s, d, 5);
  }

  lemma {:induction false} NeverRestores(s: State, vs: seq<Vector>)
    requires Nestable(s, vs) && Lowerings(s, Ring(s), vs) >= 2
    ensures !Restores(s, vs)
    decreases |vs|
  {
    hide Nestable, Entered, Accepted, Deliver, Onto, FrameState, FrameValues, LoadSeg, Bit, InFrame, Carries,
         RoomBelow, OuterSlots, AllEnterable, Iret;
    TakesFirstStep(s, vs);
    var d := Deliver(s, vs[0]).value;
    StillNestable(s, vs, d);
    if Lowerings(d, Ring(d), vs[1..]) >= 2 {
      NeverRestores(d, vs[1..]);
    } else if Restores(d, vs[1..]) {
      SecondChangeLost(s, vs);
      if Restores(s, vs) {
        NestHappens(s, vs);
        RestsAsEntered(s, vs);
      }
    }
  }

  lemma NestHappens(s: State, vs: seq<Vector>)
    requires WellFormed(s) && Restores(s, vs)
    ensures Nest(s, vs).Some?
  {
    hide Deliver, Iret;
  }

  /** Given the conditions on the first state, every return of a nest gives back what its
      delivery interrupted if and only if the ring is changed at most once. */
  lemma NestRestoresIff(s: State, vs: seq<Vector>)
    requires WellFormed(s) && Nestable(s, vs) && StacksApart(s, vs)
    ensures Restores(s, vs) <==> Lowerings(s, Ring(s), vs) <= 1
  {
    hide Nestable, StacksApart, Restores, Used, Onto;
    if Lowerings(s, Ring(s), vs) <= 1 {
      NestRestores(s, vs);
    } else {
      NeverRestores(s, vs);
    }
  }
}
