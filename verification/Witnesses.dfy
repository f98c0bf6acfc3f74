/** States that meet the conditions of the long-run theorems: none of them is about
    nothing. */
module Witnesses {
  import opened Words
  import opened Memory
  import opened Cpu
  import Interrupts
  import InterruptNests
  import InterruptLimits
  import Paging
  import InterruptTheorems
  import InterruptEpisodes
  import TaskSwitch
  import FloppyDrive
  import FloppyProtocol
  import FloppyRefinement

  // ------------------------------------------------------------- nesting in real mode

  function RealSeg(sel: u16): Seg {
    Seg(sel, SegCache(sel * 16, 0xffff, 0x93, false, false, false))
  }

  /** 128 KB of zeros, the stack at 1000:8000. */
  function RealMachine(): State {
    State([0, 0, 0, 0, 0x8000, 0, 0, 0], 0x100, 0x202,
          [RealSeg(0), RealSeg(0), RealSeg(0x1000), RealSeg(0), RealSeg(0), RealSeg(0)],
          TableReg(0, 0, 0), TableReg(0, 0, 0x3ff), TableReg(0, 0, 0), TableReg(0, 0, 0),
          false, 0, true, seq(0x2_0000, _ => 0))
  }

  lemma RealSlot(k: nat)
    requires k < 6000
    ensures Slot(RealMachine(), 2, k) == Some(0x1_8000 - 2 * (k + 1))
  {
    var s := RealMachine();
    TopLowered(s.gp[ESP], 2, 2 * (k + 1));
    hide Lowered, Top;
  }

  /** A thousand interrupts, of any vectors, can nest in it. */
  lemma NestingHappens(vs: seq<Interrupts.Vector>)
    requires |vs| <= 1000
    ensures InterruptNests.Nestable(RealMachine(), vs) && InterruptNests.StacksApart(RealMachine(), vs)
  {
    var s := RealMachine();
    InterruptNests.RealModeNeverLowers(s, 0, vs);
    RealEnterable(vs);
    RealRoom(3 * |vs|);
    hide InterruptNests.RoomBelow, InterruptNests.AllEnterable, InterruptNests.Lowerings, InterruptNests.Before;
  }

  lemma RealRoom(n: nat)
    requires n <= 3000
    ensures InterruptNests.RoomBelow(RealMachine(), n)
  {
    hide Slot;
    var s := RealMachine();
    assert s.mem == seq(0x2_0000, _ => 0);
    forall k | 0 <= k < n
      ensures Slot(s, 2, k).Some? && !Device(Slot(s, 2, k).value) && InRam(s.mem, Slot(s, 2, k).value)
    {
      RealSlot(k);
    }
    forall q | 0 <= q < |s.mem| && InFrame(s, 2, n, q)
      ensures && !InterruptNests.TableByte(s.gdtr, q) && !InterruptNests.TableByte(s.ldtr, q)
              && !InterruptNests.TableByte(s.idtr, q)
    {
      var k: nat :| k < n && Slot(s, 2, k).Some? && Slot(s, 2, k).value <= q < Slot(s, 2, k).value + 2;
      RealSlot(k);
    }
  }

  lemma {:induction false} RealEnterable(vs: seq<Interrupts.Vector>)
    ensures InterruptNests.AllEnterable(RealMachine(), 0, vs)
  {
    if vs != [] {
      RealGate(vs[0]);
      RealEnterable(vs[1..]);
    }
  }

  lemma RealGate(v: Interrupts.Vector)
    ensures Interrupts.Lookup(RealMachine(), v) == Some(Interrupts.Gate(0, 0, 0, 0, true))
  {
    var s := RealMachine();
    assert Wrap32(v.id * 4) == v.id * 4;
    assert forall q :: 0 <= q < |s.mem| ==> s.mem[q] == 0;
  }

  // ------------------------------------------------------------- two tasks

  /** A global table with a task at 8, a task at 16 and code and data at 24, and a second
      task's segment with its CS and SS at 24. */
  function TaskByte(q: nat): byte {
    if q == 8 || q == 16 then 103
    else if q == 11 then 0x10
    else if q == 19 then 0x11
    else if q == 13 || q == 21 then 0x81
    else if q == 29 then 0x9b
    else if q == 0x114c || q == 0x1150 then 24
    else 0
  }

  function TaskMemory(): (mem: Ram)
    ensures |mem| == 0x2000
  {
    seq(0x2000, q requires 0 <= q < 0x2000 => TaskByte(q))
  }

  lemma WordAt(p: nat)
    requires p < 0x1fff
    ensures TaskMemory()[p] == TaskByte(p)
    ensures Word(TaskMemory(), p) as int == TaskByte(p) as int + 0x100 * TaskByte(p + 1) as int
  {
    hide TaskByte;
  }

  /** The eight bytes of a descriptor. */
  lemma DescriptorAt(p: nat)
    requires p < 0x1000
    ensures Word(TaskMemory(), p) as int == TaskByte(p) as int + 0x100 * TaskByte(p + 1) as int
    ensures Word(TaskMemory(), p + 2) as int == TaskByte(p + 2) as int + 0x100 * TaskByte(p + 3) as int
    ensures forall k :: p + 4 <= k < p + 8 ==> TaskMemory()[k] == TaskByte(k)
  {
    hide TaskMemory, TaskByte, Word;
    WordAt(p);
    WordAt(p + 2);
    WordAt(p + 4);
    WordAt(p + 5);
    WordAt(p + 6);
    WordAt(p + 7);
  }

  const CODE := Seg(24, SegCache(0, 0, 0x9b, false, false, false))
  const NULL := Seg(0, SegCache(0, 0, 0, false, false, false))

  function TaskMachine(): State {
    State([1, 2, 3, 4, 5, 6, 7, 8], 0x100, 2, [NULL, CODE, CODE, NULL, NULL, NULL],
          TableReg(0, 0, 31), TableReg(0, 0, 0), TableReg(0, 0, 0), TableReg(8, 0x1000, 103),
          true, 0, true, TaskMemory())
  }

  function OtherTask(): TaskSwitch.Context {
    TaskSwitch.Context([0, 0, 0, 0, 0, 0, 0, 0], 0, 0, 0, [NULL, CODE, CODE, NULL, NULL, NULL],
                       TableReg(0, 0, 0), TableReg(16, 0x1100, 103))
  }

  lemma TaskSegments()
    ensures var s := TaskMachine();
            && (forall i :: 0 <= i < 6 && i != 1 && i != 2 ==> LoadSeg(s, i, 0) == Some(NULL))
            && LoadSeg(s, 1, 24) == Some(CODE) && LoadSeg(s, 2, 24) == Some(CODE)
  {
    hide TaskMemory, ReadDescriptor;
    CodeAndNull();
    assert Wrap32(0) == 0 && Wrap32(24) == 24;
    hide Wrap32;
  }

  lemma TaskTables()
    ensures var s := TaskMachine();
            && TaskSwitch.LoadLdtr(s, 0) == Some(TableReg(0, 0, 0))
            && TaskSwitch.LoadTr(s, 8) == Some(TableReg(8, 0x1000, 103))
            && TaskSwitch.LoadTr(s, 16) == Some(TableReg(16, 0x1100, 103))
  {
    hide TaskMemory, Word;
    DescriptorAt(0);
    DescriptorAt(8);
    DescriptorAt(16);
  }

  lemma CodeAndNull()
    ensures ReadDescriptor(TaskMemory(), 0) == NULL.cache
    ensures ReadDescriptor(TaskMemory(), 24) == CODE.cache
  {
    hide TaskMemory, Word;
    DescriptorAt(0);
    DescriptorAt(24);
  }

  lemma StoredWord(i: nat)
    requires i < 26
    ensures Dword(TaskMemory(), 0x1100 + 4 * i) == if i == 19 || i == 20 then 24 else 0
  {
    hide TaskMemory, Word;
    var p := 0x1100 + 4 * i;
    WordAt(p);
    WordAt(p + 2);
    assert p == 0x114c <==> i == 19;
    assert p == 0x1150 <==> i == 20;
  }

  lemma OtherTaskStored()
    ensures TaskSwitch.Holds(TaskMemory(), OtherTask())
  {
    hide TaskMemory, Dword;
    forall i | 0 <= i < 26
      ensures Dword(TaskMemory(), 0x1100 + 4 * i) == if i == 19 || i == 20 then 24 else 0
    {
      StoredWord(i);
    }
    var ws := TaskSwitch.ReadTss(TaskMemory(), 0x1100);
    assert ws[10..18] == OtherTask().gp;
  }

  /** The machine may switch to the other task, and back. */
  lemma SwitchingHappens()
    ensures TaskSwitch.Inv(TaskMachine(), map[16 := OtherTask()])
    ensures TaskSwitch.Settled(TaskMachine(), TaskSwitch.ContextOf(TaskMachine()))
    ensures TaskSwitch.AllAdmitted(TaskMachine(), map[16 := OtherTask()], [TaskSwitch.Switch(16), TaskSwitch.Switch(8)])
  {
    hide LoadSeg, TaskSwitch.LoadTr, TaskSwitch.LoadLdtr, TaskMemory, TaskSwitch.Holds, TaskSwitch.SwitchTask;
    TasksSettled();
    OtherTaskStored();
    var s, suspended := TaskMachine(), map[16 := OtherTask()];
    hide TaskSwitch.Settled;
    TaskSwitch.SwitchRestores(s, suspended, 16);
    var t := TaskSwitch.SwitchTask(s, 16).value;
    var after := TaskSwitch.SuspendedAfter(s, suspended, TaskSwitch.Switch(16));
    assert after == map[8 := TaskSwitch.ContextOf(s)];
    SettledAfter(s, t);
  }

  lemma TasksSettled()
    ensures TaskSwitch.Settled(TaskMachine(), TaskSwitch.ContextOf(TaskMachine()))
    ensures TaskSwitch.Settled(TaskMachine(), OtherTask())
    ensures TaskSwitch.LoadTr(TaskMachine(), 8) == Some(TaskMachine().tr)
  {
    hide LoadSeg, TaskSwitch.LoadTr, TaskSwitch.LoadLdtr, TaskMemory;
    TaskSegments();
    TaskTables();
  }

  lemma SettledAfter(s: State, t: State)
    requires s == TaskMachine() && TaskSwitch.SwitchTask(s, 16) == Some(t) && TaskSwitch.ContextOf(t) == OtherTask()
    ensures TaskSwitch.Settled(t, TaskSwitch.ContextOf(t))
  {
    TasksSettled();
    hide TaskSwitch.Settled, TaskSwitch.Holds, TaskSwitch.SwitchTask, TaskMemory;
    OtherTaskStored();
    TaskParts();
    TaskSwitch.SwitchLoads(s, OtherTask());
    TaskSwitch.SaveKeepsTable(s);
    hide TaskSwitch.Save;
    TaskSwitch.SettledSame(s, t, OtherTask());
  }

  lemma TaskParts()
    ensures var s := TaskMachine();
            && WellFormed(s) && TaskSwitch.TableInRam(s) && TaskSwitch.OwnSegment(s)
            && TaskSwitch.ClearOfTable(s, OtherTask().tr) && TaskSwitch.Apart(OtherTask().tr, s.tr)
  {
    hide TaskMemory, TaskSwitch.LoadTr;
    TaskTables();
  }

  // ------------------------------------------------------------- interrupts from ring 3

  /** Flat code of ring 0 at 24, of ring 3 at 32 and of ring 1 at 48, flat data of ring 3
      at 40 and of ring 0 at 56; gates for all rings at 0x800, the first into ring 0 and the
      second into ring 1; and a task at 0x1000 whose inner stack is the selector given. */
  function RingByte(q: nat, ss0: byte): byte {
    if q == 24 || q == 25 || q == 32 || q == 33 || q == 40 || q == 41
       || q == 48 || q == 49 || q == 56 || q == 57 then 0xff
    else if q == 30 || q == 38 || q == 46 || q == 54 || q == 62 then 0xcf
    else if q == 29 then 0x9b
    else if q == 37 then 0xfb
    else if q == 45 then 0xf3
    else if q == 53 then 0xbb
    else if q == 61 then 0x93
    else if q == 0x802 then 24
    else if q == 0x80a then 49
    else if q == 0x805 || q == 0x80d then 0xee
    else if q == 0x1005 then 0x1f
    else if q == 0x1008 then ss0
    else 0
  }

  function RingMemory(ss0: byte): (mem: Ram)
    ensures |mem| == 0x2000
  {
    seq(0x2000, q requires 0 <= q < 0x2000 => RingByte(q, ss0))
  }

  lemma RingWord(p: nat, ss0: byte)
    requires p < 0x1fff
    ensures RingMemory(ss0)[p] == RingByte(p, ss0)
    ensures Word(RingMemory(ss0), p) as int == RingByte(p, ss0) as int + 0x100 * RingByte(p + 1, ss0) as int
  {
    hide RingByte;
  }

  function Flat(access: byte): SegCache {
    SegCache(0, 0xf_ffff, access, false, true, true)
  }

  lemma RingDescriptor(p: nat, access: byte, ss0: byte)
    requires || (p == 24 && access == 0x9b) || (p == 32 && access == 0xfb) || (p == 40 && access == 0xf3)
             || (p == 48 && access == 0xbb) || (p == 56 && access == 0x93)
    ensures ReadDescriptor(RingMemory(ss0), p) == Flat(access)
  {
    hide RingMemory, Word;
    RingWord(p, ss0);
    RingWord(p + 2, ss0);
    RingWord(p + 4, ss0);
    RingWord(p + 5, ss0);
    RingWord(p + 6, ss0);
    RingWord(p + 7, ss0);
  }

  function RingMachine(ss0: byte): State {
    var data := Seg(0x2b, Flat(0xf3));
    State([0, 0, 0, 0, 0x1800, 0, 0, 0], 0x100, 0x202, [data, Seg(0x23, Flat(0xfb)), data, data, data, data],
          TableReg(0, 0, 63), TableReg(0, 0x800, 15), TableReg(0, 0, 63), TableReg(8, 0x1000, 103),
          true, 0, true, RingMemory(ss0))
  }

  lemma SmallAddresses()
    ensures forall x: nat :: x < 0x2000 ==> Wrap32(x) == x
  {
  }

  lemma RingLoads(sel: u16, seg: nat, ss0: byte)
    requires seg == CS || seg == SS
    ensures var s := RingMachine(ss0);
            && WellFormed(s)
            && (sel == 24 ==> LoadSeg(s, seg, sel) == Some(Seg(24, Flat(0x9b))))
            && (sel == 49 ==> LoadSeg(s, seg, sel) == Some(Seg(49, Flat(0xbb))))
            && (sel == 0x23 ==> LoadSeg(s, seg, sel) == Some(Seg(0x23, Flat(0xfb))))
            && (sel == 0x2b ==> LoadSeg(s, seg, sel) == Some(Seg(0x2b, Flat(0xf3))))
            && (sel == 56 ==> LoadSeg(s, seg, sel) == Some(Seg(56, Flat(0x93))))
  {
    hide RingMemory, ReadDescriptor, Flat, Bit;
    SmallAddresses();
    hide Wrap32;
    RingDescriptor(24, 0x9b, ss0);
    RingDescriptor(32, 0xfb, ss0);
    RingDescriptor(40, 0xf3, ss0);
    RingDescriptor(48, 0xbb, ss0);
    RingDescriptor(56, 0x93, ss0);
  }

  const TO_KERNEL := Interrupts.Vector(0, true)
  const TO_DRIVER := Interrupts.Vector(1, true)

  lemma RingGates(ss0: byte)
    ensures Interrupts.Lookup(RingMachine(ss0), TO_KERNEL) == Some(Interrupts.Gate(24, 0, 6, 3, true))
    ensures Interrupts.Lookup(RingMachine(ss0), TO_DRIVER) == Some(Interrupts.Gate(49, 0, 6, 3, true))
  {
    hide RingMemory, Word;
    RingWord(0x800, ss0);
    RingWord(0x802, ss0);
    RingWord(0x805, ss0);
    RingWord(0x806, ss0);
    RingWord(0x808, ss0);
    RingWord(0x80a, ss0);
    RingWord(0x80d, ss0);
    RingWord(0x80e, ss0);
  }

  /** On the inner stack. */
  function RingInner(ss0: byte): State {
    var s := RingMachine(ss0);
    s.(gp := [0, 0, 0, 0, 0x1f00, 0, 0, 0],
       segs := s.segs[SS := if ss0 == 56 then Seg(56, Flat(0x93)) else Seg(0x2b, Flat(0xf3))])
  }

  lemma RingTss(ss0: byte)
    ensures Dword(RingMemory(ss0), 0x1004) == 0x1f00 && Word(RingMemory(ss0), 0x1008) == ss0
  {
    hide RingMemory, Word;
    RingWord(0x1004, ss0);
    RingWord(0x1006, ss0);
    RingWord(0x1008, ss0);
  }

  lemma RingStack(ss0: byte)
    requires ss0 == 0x2b || ss0 == 56
    ensures Interrupts.Onto(RingMachine(ss0), true) == Some(RingInner(ss0))
  {
    hide RingMemory, Word, Dword, LoadSeg, Flat;
    RingLoads(ss0, SS, ss0);
    RingTss(ss0);
    var s := RingMachine(ss0);
    assert s.gp[ESP := 0x1f00] == RingInner(ss0).gp;
  }

  lemma RingSlot(u: State, k: nat)
    requires WellFormed(u) && u.pe && u.a20 && u.gp[ESP] == 0x1f00 && k < 8
    requires u.segs[SS].cache == Flat(0xf3) || (u.segs[SS].cache == Flat(0x93) && Cpl(u) == 0)
    ensures Slot(u, 4, k) == Some(0x1f00 - 4 * (k + 1))
  {
  }

  /** Eight slots of the inner stack, for whoever may use it. */
  lemma RingRoom(u: State)
    requires WellFormed(u) && u.pe && u.a20 && u.gp[ESP] == 0x1f00 && |u.mem| == 0x2000
    requires u.segs[SS].cache == Flat(0xf3) || (u.segs[SS].cache == Flat(0x93) && Cpl(u) == 0)
    requires u.gdtr == u.ldtr == TableReg(0, 0, 63) && u.idtr == TableReg(0, 0x800, 15)
    ensures InterruptNests.RoomBelow(u, 8)
    ensures forall q :: InFrame(u, 4, 8, q) ==> 0x1ee0 <= q < 0x1f00
  {
    hide Slot, Flat;
    forall k: nat | k < 8 ensures Slot(u, 4, k) == Some(0x1f00 - 4 * (k + 1)) {
      RingSlot(u, k);
    }
  }

  lemma RingFirst(vs: seq<Interrupts.Vector>)
    requires vs == [TO_KERNEL] || vs == [TO_DRIVER, TO_KERNEL]
    ensures var s := RingMachine(0x2b);
            && InterruptNests.AllEnterable(s, 3, vs) && InterruptNests.Before(s, 3, vs) == 0
            && InterruptNests.Lowerings(s, 3, vs) == |vs|
  {
    hide RingMemory, LoadSeg, Interrupts.Lookup, InterruptNests.Before;
    var s := RingMachine(0x2b);
    RingGates(0x2b);
    RingLoads(24, CS, 0x2b);
    RingLoads(49, CS, 0x2b);
    if vs == [TO_DRIVER, TO_KERNEL] {
      assert vs[1..] == [TO_KERNEL];
    }
    RingBefore(vs);
  }

  lemma RingBefore(vs: seq<Interrupts.Vector>)
    requires vs == [TO_KERNEL] || vs == [TO_DRIVER, TO_KERNEL]
    ensures InterruptNests.Before(RingMachine(0x2b), 3, vs) == 0
  {
    hide RingMemory, Interrupts.Lookup;
    RingGates(0x2b);
  }

  lemma RingNestable(vs: seq<Interrupts.Vector>)
    requires vs == [TO_KERNEL] || vs == [TO_DRIVER, TO_KERNEL]
    ensures var s := RingMachine(0x2b); InterruptNests.Nestable(s, vs) && InterruptNests.StacksApart(s, vs)
  {
    hide RingMemory, LoadSeg, Interrupts.Lookup, Interrupts.Onto, InFrame, Slot, InterruptNests.AllEnterable,
         InterruptNests.Before, InterruptNests.Lowerings;
    var s := RingMachine(0x2b);
    RingFirst(vs);
    RingStack(0x2b);
    RingRoom(RingInner(0x2b));
    RingLoads(0x23, CS, 0x2b);
    RingLoads(0x2b, SS, 0x2b);
    NoFrame(s);
    InterruptNests.FewerSlots(RingInner(0x2b), 5 + 3 * (|vs| - 1), 8);
    hide InterruptNests.RoomBelow;
  }

  lemma NoFrame(s: State)
    requires WellFormed(s)
    ensures InterruptNests.RoomBelow(s, 0) && forall w: Width, q :: !InFrame(s, w, 0, q)
  {
  }

  /** Code of ring 3 is interrupted by a handler of ring 0, and gets its state back. */
  lemma RingChangeHappens()
    ensures var s := RingMachine(0x2b);
            && InterruptNests.Nestable(s, [TO_KERNEL]) && InterruptNests.StacksApart(s, [TO_KERNEL])
            && InterruptNests.Lowerings(s, InterruptNests.Ring(s), [TO_KERNEL]) == 1
            && InterruptNests.Nest(s, [TO_KERNEL]).Some?
  {
    hide InterruptNests.Nestable, InterruptNests.StacksApart, InterruptNests.Lowerings, InterruptNests.Nest, RingMemory,
         InterruptNests.AllEnterable, InterruptNests.OnlyBelow, InterruptNests.Restores, InterruptNests.Before;
    RingNestable([TO_KERNEL]);
    RingFirst([TO_KERNEL]);
    InterruptNests.NestRestores(RingMachine(0x2b), [TO_KERNEL]);
  }

  /** It is interrupted by a handler of ring 1, and that by one of ring 0: the second frame
      lies over the first, and when all have returned it is not ring 3 that runs. */
  lemma SecondChangeFails()
    ensures var s, vs := RingMachine(0x2b), [TO_DRIVER, TO_KERNEL];
            && InterruptNests.Nestable(s, vs) && InterruptNests.StacksApart(s, vs)
            && InterruptNests.Lowerings(s, InterruptNests.Ring(s), vs) == 2
            && !InterruptNests.Restores(s, vs)
            && Cpl(s) == 3 && (InterruptNests.Nest(s, vs).Some? ==> Cpl(InterruptNests.Nest(s, vs).value) != 3)
  {
    hide InterruptNests.Nestable, InterruptNests.StacksApart, InterruptNests.Lowerings, InterruptNests.Nest, RingMemory,
         InterruptNests.AllEnterable, InterruptNests.Restores;
    RingNestable([TO_DRIVER, TO_KERNEL]);
    RingFirst([TO_DRIVER, TO_KERNEL]);
    TwoChanges(RingMachine(0x2b), [TO_DRIVER, TO_KERNEL]);
  }

  lemma TwoChanges(s: State, vs: seq<Interrupts.Vector>)
    requires WellFormed(s) && |vs| == 2 && InterruptNests.Nestable(s, vs) && InterruptNests.StacksApart(s, vs)
    requires InterruptNests.Lowerings(s, InterruptNests.Ring(s), vs) == 2
    ensures !InterruptNests.Restores(s, vs)
    ensures InterruptNests.Nest(s, vs).Some? ==> Cpl(InterruptNests.Nest(s, vs).value) != Cpl(s)
  {
    BothLower(s, InterruptNests.Ring(s), vs);
    hide InterruptNests.Nestable, InterruptNests.StacksApart, InterruptNests.Lowerings, InterruptNests.Nest,
         InterruptNests.Restores, Interrupts.Deliver, InterruptNests.Lowers, InterruptNests.Ring;
    InterruptLimits.NestRestoresIff(s, vs);
    SecondAlone(s, vs);
    InterruptLimits.SecondChangeLost(s, vs);
  }

  lemma BothLower(s: State, ring: nat, vs: seq<Interrupts.Vector>)
    requires |vs| == 2 && InterruptNests.Lowerings(s, ring, vs) == 2
    ensures InterruptNests.Lowers(s, ring, vs[0])
  {
    hide InterruptNests.Lowers, InterruptNests.RingInside;
  }

  lemma SecondAlone(s: State, vs: seq<Interrupts.Vector>)
    requires InterruptNests.Nestable(s, vs) && |vs| == 2 && InterruptNests.Lowerings(s, InterruptNests.Ring(s), vs) == 2
    ensures Interrupts.Deliver(s, vs[0]).Some? && InterruptNests.Restores(Interrupts.Deliver(s, vs[0]).value, vs[1..])
  {
    hide Interrupts.Deliver, Interrupts.Lookup, InterruptNests.Restores, InterruptNests.RoomBelow, InFrame, LoadSeg,
         InterruptNests.Entered, InterruptNests.Carries, InterruptTheorems.Accepted, Interrupts.Onto;
    InterruptNests.TakesFirstStep(s, vs);
    var d := Interrupts.Deliver(s, vs[0]).value;
    InterruptNests.StillNestable(s, vs, d);
    NoOuter(d, vs[1..]);
    hide InterruptNests.Nestable;
    InterruptNests.NestRestores(d, vs[1..]);
  }

  lemma NoOuter(d: State, vs: seq<Interrupts.Vector>)
    requires WellFormed(d) && |vs| == 1 && InterruptNests.Lowerings(d, InterruptNests.Ring(d), vs) == 1
    ensures InterruptNests.StacksApart(d, vs)
  {
    hide Interrupts.Lookup, Interrupts.Onto;
    assert vs[1..] == [];
    NoFrame(d);
  }

  /** With an inner stack of the handler's own ring, as it should be, nothing else about
      the machine being different, the delivery throws. */
  lemma PrivateStackRefused()
    ensures var s := RingMachine(56);
            && Interrupts.MayEnter(s, TO_KERNEL, Interrupts.Gate(24, 0, 6, 3, true))
            && Interrupts.Onto(s, true) == Some(RingInner(56))
            && Dpl(RingInner(56).segs[SS].cache.access) == Rpl(24)
            && Interrupts.Deliver(s, TO_KERNEL).None?
  {
    hide RingMemory, LoadSeg, Interrupts.Lookup, Interrupts.Onto, Interrupts.Deliver, InFrame, Slot;
    RingGates(56);
    RingLoads(24, CS, 56);
    RingStack(56);
    var u := InterruptLimits.AsRingZero(RingInner(56));
    RingRoom(u);
    InterruptNests.FewerSlots(u, 5, 8);
    hide InterruptNests.RoomBelow;
    InterruptLimits.RingChangeIff(RingMachine(56), TO_KERNEL);
  }

  /** As a course of its own, with a handler that returns at once. */
  lemma RingCourseHappens()
    ensures WellFormed(RingMachine(0x2b))
    ensures InterruptEpisodes.Polite(RingMachine(0x2b),
              InterruptEpisodes.Interrupted(TO_KERNEL, InterruptEpisodes.End, false, InterruptEpisodes.End), {})
  {
    hide RingMemory, Slot, LoadSeg, InFrame, Interrupts.Lookup, Interrupts.Onto, InterruptEpisodes.Interruptible,
         InterruptEpisodes.Guarded, InterruptTheorems.Restored, Interrupts.Deliver, SlotsInRam, InterruptNests.Nestable,
         InterruptNests.AllEnterable, InterruptNests.Lowerings, InterruptNests.Before, InterruptNests.FirstStep;
    var s := RingMachine(0x2b);
    RingInterruptible();
    RingDelivered();
    var d := Interrupts.Deliver(s, TO_KERNEL).value;
    assert InterruptEpisodes.Balanced(s, TO_KERNEL, d, false);
  }

  lemma RingInterruptible()
    ensures InterruptEpisodes.Interruptible(RingMachine(0x2b), TO_KERNEL, {})
    ensures InterruptTheorems.Accepted(RingMachine(0x2b), TO_KERNEL)
  {
    hide RingMemory, Slot, LoadSeg, InFrame, Interrupts.Lookup, Interrupts.Onto, Interrupts.Deliver, SlotsInRam,
         InterruptNests.AllEnterable, InterruptNests.Lowerings, InterruptNests.Before, InterruptNests.Nestable,
         InterruptTheorems.Accepted, InterruptTheorems.FrameState, InterruptTheorems.FrameValues,
         InterruptNests.Entered, InterruptNests.Carries, InterruptNests.RoomBelow;
    RingNestable([TO_KERNEL]);
    InterruptNests.TakesFirstStep(RingMachine(0x2b), [TO_KERNEL]);
    RingGates(0x2b);
    RingStack(0x2b);
    RingLoads(0x23, CS, 0x2b);
    RingLoads(0x2b, SS, 0x2b);
    RingRoom(RingInner(0x2b));
    InterruptNests.FewerSlots(RingInner(0x2b), 5, 8);
    RingNeeded();
    hide InterruptEpisodes.Needed;
    assert Interrupts.FrameWidth(RingInner(0x2b)) == 4;
    OffDescriptors(RingMachine(0x2b), TO_KERNEL, RingInner(0x2b));
  }

  lemma OffDescriptors(s: State, v: Interrupts.Vector, u: State)
    requires WellFormed(s) && WellFormed(u) && InterruptTheorems.Accepted(s, v) && s.pe
    requires InterruptTheorems.FrameState(s, v) == u && |InterruptTheorems.FrameValues(s, v)| == 5
    requires forall q :: InFrame(u, 4, 5, q) ==> 0x1ee0 <= q < 0x1f00
    requires forall q :: InterruptEpisodes.Needed(s, q) ==> 32 <= q < 48
    requires LoadSeg(s, CS, s.segs[CS].sel) == Some(s.segs[CS]) && LoadSeg(s, SS, s.segs[SS].sel) == Some(s.segs[SS])
    requires !Bit(s.eflags, 14)
    ensures InterruptEpisodes.Interruptible(s, v, {})
  {
    hide Slot, LoadSeg, InFrame, Bit, InterruptTheorems.Accepted, InterruptEpisodes.Needed,
         InterruptTheorems.FrameState,
         InterruptTheorems.FrameValues;
  }

  lemma RingNeeded()
    ensures forall q :: InterruptEpisodes.Needed(RingMachine(0x2b), q) ==> 32 <= q < 48
  {
    hide RingMemory, Flat, Wrap32;
    assert Wrap32(32) == 32 && Wrap32(40) == 40 by { SmallAddresses(); }
  }

  lemma RingDelivered()
    ensures var d := Interrupts.Deliver(RingMachine(0x2b), TO_KERNEL);
            d.Some? && d.value.segs[CS].cache.db && WellFormed(d.value)
  {
    hide RingMemory, Slot, LoadSeg, InFrame, Interrupts.Lookup, Interrupts.Onto, Interrupts.Deliver, SlotsInRam,
         InterruptNests.AllEnterable, InterruptNests.Lowerings, InterruptNests.Before, InterruptNests.Nestable,
         InterruptTheorems.Accepted, InterruptTheorems.FrameState, InterruptTheorems.FrameValues,
         InterruptNests.Carries, InterruptNests.RoomBelow;
    RingNestable([TO_KERNEL]);
    InterruptNests.TakesFirstStep(RingMachine(0x2b), [TO_KERNEL]);
  }

  // ------------------------------------------------------------- stale pages

  /** A directory at 0x1000 with one entry, whose low byte is given, for a table at 0x2000
      that maps page 0 to the frame at 0x100 times the byte given. */
  function PageMemory(directory: byte, frame: byte): (mem: Ram)
    ensures |mem| == 0x5000
  {
    seq(0x5000, _ => 0)[0x1000 := directory][0x1001 := 0x20][0x2000 := 7][0x2001 := frame]
  }

  lemma PageEntries(directory: byte, frame: byte)
    ensures var mem := PageMemory(directory, frame);
            && Paging.Entry(mem, 0x1000) == Some(0x2000 + directory)
            && Paging.Entry(mem, 0x2000) == Some(7 + 0x100 * frame)
  {
  }

  lemma PageRemapped()
    ensures PageMemory(7, 0x30)[0x2001 := 0x40] == PageMemory(7, 0x40)
  {
  }

  /** What the walk makes of address 0, and an empty cache. */
  lemma PageZero(directory: byte, frame: byte, cpl: nat)
    requires (directory == 3 || directory == 7) && (frame == 0x30 || frame == 0x40)
    ensures var mem := PageMemory(directory, frame);
            && Paging.Walk(mem, 0x1000, Paging.Read, cpl, 0)
               == (if directory == 3 && cpl > 2 then Paging.PageFault(0) else Paging.Physical(0x100 * frame))
            && (cpl == 0 ==>
                  Paging.Translate([], mem, 0x1000, Paging.Read, cpl, 0)
                  == (Paging.Fill([], 0, 7 + 0x100 * frame), Paging.Physical(0x100 * frame)))
  {
    hide PageMemory, Paging.Fill, Paging.Entry;
    PageEntries(directory, frame);
  }

  lemma CachedPage(cache: Paging.Cache, mem: Ram, cpl: nat)
    requires Paging.Lookup(cache, 0) == Some(0x3007)
    ensures Paging.Translate(cache, mem, 0x1000, Paging.Read, cpl, 0).1 == Paging.Physical(0x3000)
  {
    hide Paging.Entry;
  }

  const READ := Paging.Access(Paging.Read, 0, 0)

  lemma AfterRead(directory: byte)
    requires directory == 3 || directory == 7
    ensures var s := Paging.System([], PageMemory(directory, 0x30));
            Paging.ApplyAll(s, 0x1000, [READ]) == s.(cache := Paging.Fill([], 0, 0x3007))
  {
    hide PageMemory, Paging.Fill, Paging.Translate;
    PageZero(directory, 0x30, 0);
    assert [READ][..0] == [];
  }

  /** A page is read, its table entry is changed, and it is read again at the old address. */
  lemma RemappedPageIsStale()
    ensures var runs := [(0x1000, [READ, Paging.Store(0x2001, 0x40)])];
            var t := Paging.ApplyRuns(Paging.System([], PageMemory(7, 0x30)), runs);
            && Paging.Translate(t.cache, t.mem, 0x1000, Paging.Read, 0, 0).1 == Paging.Physical(0x3000)
            && Paging.Walk(t.mem, 0x1000, Paging.Read, 0, 0) == Paging.Physical(0x4000)
  {
    hide PageMemory, Paging.Fill, Paging.Translate, Paging.Walk;
    var s, es := Paging.System([], PageMemory(7, 0x30)), [READ, Paging.Store(0x2001, 0x40)];
    AfterRead(7);
    assert es[..1] == [READ];
    PageRemapped();
    var t := Paging.System(Paging.Fill([], 0, 0x3007), PageMemory(7, 0x40));
    assert Paging.ApplyAll(s, 0x1000, es) == t;
    assert [(0x1000 as u32, es)][..0] == [];
    PageZero(7, 0x40, 0);
    CachedPage(t.cache, t.mem, 0);
  }

  /** A page is read with CR3 at one directory, CR3 is loaded with another that maps it
      nowhere, and it is read again as before. */
  lemma ReloadedPageIsStale(mem: Ram)
    requires |mem| == 0x5000 && mem == PageMemory(7, 0x30)
    ensures var t := Paging.ApplyRuns(Paging.System([], mem), [(0x1000, [READ]), (0x3000, [])]);
            && Paging.Translate(t.cache, t.mem, 0x3000, Paging.Read, 0, 0).1 == Paging.Physical(0x3000)
            && Paging.Walk(t.mem, 0x3000, Paging.Read, 0, 0) == Paging.PageFault(0)
  {
    hide PageMemory, Paging.Fill, Paging.ApplyRuns, Paging.Translate, Paging.Walk, Paging.Apply;
    AfterRead(7);
    TwoRuns(Paging.System([], mem), (0x1000, [READ]), (0x3000, []));
    UnmappedZero();
    CachedElsewhere(Paging.Fill([], 0, 0x3007), mem);
  }

  lemma UnmappedZero()
    ensures Paging.Walk(PageMemory(7, 0x30), 0x3000, Paging.Read, 0, 0) == Paging.PageFault(0)
  {
    NoDirectory();
    EmptyDirectory(PageMemory(7, 0x30));
  }

  lemma EmptyDirectory(mem: Ram)
    requires Paging.Entry(mem, 0x3000) == Some(0)
    ensures Paging.Walk(mem, 0x3000, Paging.Read, 0, 0) == Paging.PageFault(0)
  {
    FirstEntry();
    NotPresent(mem, 0x3000, 0, 0, 0);
  }

  lemma FirstEntry()
    ensures Paging.PdeAddress(0x3000, Paging.Vpn(0)) == 0x3000
  {
  }

  lemma NotPresent(mem: Ram, cr3: u32, cpl: nat, addr: u32, pde: u32)
    requires Paging.Entry(mem, Paging.PdeAddress(cr3, Paging.Vpn(addr))) == Some(pde) && pde % 2 == 0
    ensures Paging.Walk(mem, cr3, Paging.Read, cpl, addr) == Paging.PageFault(addr)
  {
    hide Paging.Entry, Paging.PdeAddress, Paging.Vpn, Paging.PteAddress;
  }

  lemma TwoRuns(s: Paging.System, a: (u32, seq<Paging.Event>), b: (u32, seq<Paging.Event>))
    ensures Paging.ApplyRuns(s, [a, b]) == Paging.ApplyAll(Paging.ApplyAll(s, a.0, a.1), b.0, b.1)
  {
    hide Paging.ApplyAll;
    assert [a, b][..1] == [a] && [a][..0] == [];
    assert Paging.ApplyRuns(s, []) == s;
    assert Paging.ApplyRuns(s, [a]) == Paging.ApplyAll(s, a.0, a.1);
  }

  lemma CachedElsewhere(cache: Paging.Cache, mem: Ram)
    requires Paging.Lookup(cache, 0) == Some(0x3007)
    ensures Paging.Translate(cache, mem, 0x3000, Paging.Read, 0, 0).1 == Paging.Physical(0x3000)
  {
    hide Paging.Entry;
  }

  lemma NoDirectory()
    ensures Paging.Entry(PageMemory(7, 0x30), 0x3000) == Some(0)
  {
  }

  /** A supervisor reads a page under a directory entry for supervisors only; then a user
      reads it, which the directory denies. */
  lemma SupervisorPageLeaks()
    ensures var t := Paging.ApplyAll(Paging.System([], PageMemory(3, 0x30)), 0x1000, [READ]);
            && Paging.Coherent(t.cache, t.mem, 0x1000)
            && Paging.Translate(t.cache, t.mem, 0x1000, Paging.Read, 3, 0).1 == Paging.Physical(0x3000)
            && Paging.Walk(t.mem, 0x1000, Paging.Read, 3, 0) == Paging.PageFault(0)
  {
    var mem := PageMemory(3, 0x30);
    Paging.TranslateKeepsCoherent([], mem, 0x1000, Paging.Read, 0, 0);
    hide PageMemory, Paging.Fill, Paging.Translate, Paging.Walk, Paging.Coherent;
    PageZero(3, 0x30, 0);
    PageZero(3, 0x30, 3);
    AfterRead(3);
    CachedPage(Paging.Fill([], 0, 0x3007), mem, 3);
  }

  // ------------------------------------------------------------- a floppy program

  /** Write a sector, then read it back elsewhere. */
  function FloppyScript(): FloppyRefinement.Script {
    FloppyRefinement.Script(
      FloppyRefinement.Flat(seq(0x1_0000, _ => 0),
                            seq(4, _ => FloppyRefinement.FlatDisk(true, seq(FloppyDrive.DISK_SZ, _ => 0), 0)), true),
      [FloppyProtocol.WriteSector(0, 0, 0, 1, 0x1000), FloppyProtocol.ReadSector(0, 0, 0, 1, 0x2000)], [0, 0, 0])
  }

  lemma FloppyProgramHappens()
    ensures FloppyRefinement.Legal(FloppyScript())
  {
    hide FloppyRefinement.Gather, FloppyRefinement.Scatter;
    var s := FloppyScript();
    assert FloppyRefinement.FlatOk(s.start);
    assert FloppyRefinement.At(s, 0) == s.start;
    assert FloppyRefinement.Allowed(s.start, s.prog[0]);
    FloppyRefinement.ExecOk(s.start, s.prog[0]);
    assert FloppyRefinement.At(s, 1) == FloppyRefinement.Exec(s.start, s.prog[0]);
  }
}
