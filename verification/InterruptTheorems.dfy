/** What delivery and `iret` do to each other. */
module InterruptTheorems {
  import opened Words
  import opened Memory
  import opened Cpu
  import opened Interrupts

  // ------------------------------------------------------------- one delivery

  /** The delivery happens, and its frame lies in memory rather than past its end. */
  ghost predicate Accepted(s: State, v: Vector) {
    && WellFormed(s) && Deliver(s, v).Some?
    && Lookup(s, v).Some? && Onto(s, ChangesRing(s, Lookup(s, v).value)).Some?
    && SlotsInRam(FrameState(s, v), FrameWidth(s), |FrameValues(s, v)|)
  }

  /** The state whose stack takes the frame. */
  ghost function FrameState(s: State, v: Vector): (u: State)
    requires WellFormed(s) && Lookup(s, v).Some? && Onto(s, ChangesRing(s, Lookup(s, v).value)).Some?
    ensures WellFormed(u) && u.pe == s.pe && u.a20 == s.a20 && u.segs[CS] == s.segs[CS] && u.mem == s.mem
    ensures u == s.(gp := u.gp, segs := u.segs)
  {
    Onto(s, ChangesRing(s, Lookup(s, v).value)).value
  }

  ghost function FrameValues(s: State, v: Vector): (vs: seq<u32>)
    requires WellFormed(s) && Lookup(s, v).Some?
    ensures 3 <= |vs| <= 5
  {
    Saved(s, ChangesRing(s, Lookup(s, v).value))
  }

  /** A byte of the frame that delivering v to s leaves. */
  ghost predicate FrameByte(s: State, v: Vector, q: int)
    requires Accepted(s, v)
  {
    InFrame(FrameState(s, v), FrameWidth(s), |FrameValues(s, v)|, q)
  }

  lemma SavedFits(s: State, change: bool)
    requires WellFormed(s)
    ensures forall k :: 0 <= k < |Saved(s, change)| ==> Saved(s, change)[k] < Modulus(FrameWidth(s))
  {
  }

  /** What a delivery leaves: the frame in its slots, ESP below it, no other byte changed,
      the handler's segment in CS, and the table registers as they were. */
  lemma DeliverEffect(s: State, v: Vector)
    requires Accepted(s, v)
    ensures var d, u, w, vs := Deliver(s, v).value, FrameState(s, v), FrameWidth(s), FrameValues(s, v);
            && d.gp == u.gp[ESP := Lowered(u.gp[ESP], w, w * |vs|)]
            && d.segs[SS] == u.segs[SS] && d.segs[CS].sel == Lookup(s, v).value.sel
            && d.segs == u.segs[CS := d.segs[CS]]
            && d == s.(gp := d.gp, eip := d.eip, eflags := d.eflags, segs := d.segs, mem := d.mem)
            && Untouched(s.mem, d.mem, u, w, |vs|)
            && forall k :: 0 <= k < |vs| ==> Get(d.mem, Slot(u, w, k).value, w) == vs[k]
  {
    hide Slot, Get, Lowered, PushAll, Onto, Saved, InFrame, FrameWidth, Lookup;
    var g := Lookup(s, v).value;
    var u := FrameState(s, v);
    SavedFits(s, ChangesRing(s, g));
    PushAllEffect(u, FrameWidth(s), FrameValues(s, v));
  }

  // ------------------------------------------------------------- one return

  /** b is where the handler of v, entered from s, executes `iret`: stack pointer, CS and
      SS are as the handler found them, the frame is as it was left, the operand size is
      that of the frame, and the selectors to be restored still mean what s has loaded.
      The handler may have done anything else. */
  ghost predicate Returning(s: State, v: Vector, b: State, override: bool)
    requires Accepted(s, v)
  {
    var d := Deliver(s, v).value;
    && WellFormed(b) && b.pe == s.pe && b.a20 == s.a20 && |b.mem| == |s.mem|
    && b.segs[CS] == d.segs[CS] && b.segs[SS] == d.segs[SS] && b.gp[ESP] == d.gp[ESP]
    && Mode32(b, override) == s.pe && (s.pe ==> !Bit(s.eflags, 14))
    && (forall q :: 0 <= q < |b.mem| && FrameByte(s, v, q) ==> b.mem[q] == d.mem[q])
    && LoadSeg(b, CS, s.segs[CS].sel) == Some(s.segs[CS])
    && (ChangesRing(s, Lookup(s, v).value) ==> LoadSeg(b, SS, s.segs[SS].sel) == Some(s.segs[SS]))
  }

  /** What b becomes when the context of s is put back into it. */
  ghost function Restored(s: State, b: State): State
    requires WellFormed(s) && WellFormed(b)
  {
    b.(gp := b.gp[ESP := s.gp[ESP]], segs := b.segs[CS := s.segs[CS]][SS := s.segs[SS]],
       eip := if s.pe then s.eip else WithLow(b.eip, Wrap16(s.eip)),
       eflags := if s.pe then s.eflags else WithLow(b.eflags, Wrap16(s.eflags)))
  }

  /** A state that can pop the frame pushed from u, the first n slots being left on it. */
  ghost predicate Poppable(u: State, b: State, w: Width, n: nat, vs: seq<u32>) {
    && WellFormed(u) && WellFormed(b) && n <= |vs| && SlotsInRam(u, w, |vs|) && |b.mem| == |u.mem|
    && b.segs[SS] == u.segs[SS] && b.pe == u.pe && b.a20 == u.a20 && (u.pe ==> Cpl(b) <= Cpl(u))
    && b.gp[ESP] == Lowered(u.gp[ESP], w, w * n)
    && forall k :: 0 <= k < |vs| ==> Get(b.mem, Slot(u, w, k).value, w) == vs[k]
  }

  lemma PopBack(u: State, b: State, w: Width, n: nat, vs: seq<u32>)
    requires 0 < n && Poppable(u, b, w, n, vs)
    ensures WellFormed(u) && WellFormed(b)
    ensures Pop(b, w) == Some((WithEsp(b, Lowered(u.gp[ESP], w, w * (n - 1))), vs[n - 1]))
    ensures Poppable(u, WithEsp(b, Lowered(u.gp[ESP], w, w * (n - 1))), w, n - 1, vs)
  {
    hide Slot, Get, Lowered, Pop;
    PopSlot(u, b, w, n - 1);
  }

  lemma PopThreeBack(u: State, b: State, w: Width, n: nat, vs: seq<u32>)
    requires 3 <= n && Poppable(u, b, w, n, vs)
    ensures WellFormed(u) && WellFormed(b)
    ensures var t := WithEsp(b, Lowered(u.gp[ESP], w, w * (n - 3)));
            PopThree(b, w) == Some((t, vs[n - 1], vs[n - 2], vs[n - 3])) && Poppable(u, t, w, n - 3, vs)
  {
    hide Slot, Get, Lowered, Pop, Poppable;
    PopBack(u, b, w, n, vs);
    var b1 := WithEsp(b, Lowered(u.gp[ESP], w, w * (n - 1)));
    PopBack(u, b1, w, n - 1, vs);
    var b2 := WithEsp(b1, Lowered(u.gp[ESP], w, w * (n - 2)));
    PopBack(u, b2, w, n - 2, vs);
    assert WithEsp(b2, Lowered(u.gp[ESP], w, w * (n - 3))) == WithEsp(b, Lowered(u.gp[ESP], w, w * (n - 3)));
  }

  /** The handler's state can pop the frame of its delivery. */
  lemma FramePoppable(s: State, v: Vector, b: State, override: bool)
    requires Accepted(s, v) && Returning(s, v, b, override)
    ensures var vs := FrameValues(s, v); Poppable(FrameState(s, v), b, FrameWidth(s), |vs|, vs)
  {
    hide Slot, Get, Lowered, Lookup, Deliver, FrameState, FrameValues, InFrame, LoadSeg, Bit;
    DeliverEffect(s, v);
    var d, u, w, vs := Deliver(s, v).value, FrameState(s, v), FrameWidth(s), FrameValues(s, v);
    forall k | 0 <= k < |vs| ensures Get(b.mem, Slot(u, w, k).value, w) == vs[k] {
      SlotInFrame(u, w, |vs|, k);
      GetSame(d.mem, b.mem, Slot(u, w, k).value, w);
    }
    LevelInside(s, v);
  }

  lemma SlotInFrame(u: State, w: Width, n: nat, k: nat)
    requires WellFormed(u) && k < n && Slot(u, w, k).Some?
    ensures forall q :: Slot(u, w, k).value <= q < Slot(u, w, k).value + w ==> InFrame(u, w, n, q)
  {
  }

  /** The handler's ring is at most the interrupted one. */
  lemma LevelInside(s: State, v: Vector)
    requires WellFormed(s) && Deliver(s, v).Some? && Lookup(s, v).Some?
    ensures s.pe ==> Rpl(Lookup(s, v).value.sel) <= Cpl(s)
  {
    hide SaveRegs, Lookup, SetSegment;
  }

  /** The return facts that do not speak of the frame. */
  lemma ReturningFacts(s: State, v: Vector, b: State, override: bool)
    requires Accepted(s, v) && Returning(s, v, b, override)
    ensures WellFormed(b) && b.pe == s.pe && Mode32(b, override) == s.pe && (s.pe ==> !Bit(s.eflags, 14))
    ensures LoadSeg(b, CS, s.segs[CS].sel) == Some(s.segs[CS])
    ensures ChangesRing(s, Lookup(s, v).value) ==> LoadSeg(b, SS, s.segs[SS].sel) == Some(s.segs[SS])
    ensures s.pe ==> Cpl(b) == Rpl(Lookup(s, v).value.sel)
  {
    hide Slot, Get, Lowered, Lookup, Deliver, FrameState, FrameValues, InFrame, LoadSeg, Bit;
    DeliverEffect(s, v);
  }

  /** Without a change of ring the frame goes on the interrupted stack. */
  lemma FrameOnSame(s: State, v: Vector)
    requires Accepted(s, v) && !ChangesRing(s, Lookup(s, v).value)
    ensures FrameState(s, v) == s
    ensures FrameValues(s, v) == if s.pe then [s.eflags, s.segs[CS].sel, s.eip]
                                 else [s.eflags % 0x1_0000, s.segs[CS].sel, s.eip % 0x1_0000]
  {
    hide Slot, Get, Lowered, Lookup, Deliver, InFrame, SlotsInRam;
  }

  lemma FrameOnInner(s: State, v: Vector)
    requires Accepted(s, v) && ChangesRing(s, Lookup(s, v).value)
    ensures FrameValues(s, v) == [s.segs[SS].sel, s.gp[ESP], s.eflags, s.segs[CS].sel, s.eip]
  {
    hide Slot, Get, Lowered, Lookup, Deliver, InFrame, SlotsInRam;
  }

  lemma StackSame(s: State, v: Vector, b: State, override: bool)
    requires Accepted(s, v) && Returning(s, v, b, override)
    ensures b.segs[SS] == FrameState(s, v).segs[SS]
  {
    hide Slot, Get, Lowered, Lookup, Deliver, InFrame, SlotsInRam, FrameState, FrameValues, LoadSeg;
    DeliverEffect(s, v);
  }

  /** Delivery then `iret`: the interrupted EIP, CS, flags, SS and ESP come back exactly,
      hidden parts included, at the same ring or from an inner one, in both modes; all
      else is as the handler left it. */
  lemma IretUndoesDelivery(s: State, v: Vector, b: State, override: bool)
    requires Accepted(s, v) && Returning(s, v, b, override)
    ensures Iret(b, override) == Some(Restored(s, b))
  {
    hide Returning, Poppable, FrameState, FrameValues, Lookup, Iret, Restored, LoadSeg, Bit, PopThree, Lowered,
         Deliver, SlotsInRam, Mode32;
    FramePoppable(s, v, b, override);
    ReturningFacts(s, v, b, override);
    StackSame(s, v, b, override);
    LevelInside(s, v);
    hide Accepted;
    if ChangesRing(s, Lookup(s, v).value) {
      FrameOnInner(s, v);
      IretOuter(s, FrameState(s, v), b, override, FrameValues(s, v));
    } else {
      FrameOnSame(s, v);
      if s.pe {
        IretSameRing(s, b, override, FrameValues(s, v));
      } else {
        IretReal(s, b, override, FrameValues(s, v));
      }
    }
  }

  lemma IretReal(s: State, b: State, override: bool, vs: seq<u32>)
    requires WellFormed(s) && WellFormed(b) && !s.pe && !b.pe && !Mode32(b, override) && b.segs[SS] == s.segs[SS]
    requires vs == [s.eflags % 0x1_0000, s.segs[CS].sel, s.eip % 0x1_0000] && Poppable(s, b, 2, 3, vs)
    requires LoadSeg(b, CS, s.segs[CS].sel) == Some(s.segs[CS])
    ensures Iret(b, override) == Some(Restored(s, b))
  {
    hide PopThree, WithLow, LoadSeg, Bit, Poppable, Lowered;
    PopThreeBack(s, b, 2, 3, vs);
    LoweredTwice(s.gp[ESP], 2, 0, 0);
    assert b.segs[CS := s.segs[CS]] == b.segs[CS := s.segs[CS]][SS := s.segs[SS]];
    var t := WithEsp(b, s.gp[ESP]);
    var r := t.(eip := WithLow(b.eip, Wrap16(s.eip)), eflags := WithLow(b.eflags, Wrap16(s.eflags)));
    LoadSegLocal(b, r, CS, s.segs[CS].sel);
    assert Wrap16(Wrap16(s.eip)) == Wrap16(s.eip) && Wrap16(Wrap16(s.eflags)) == Wrap16(s.eflags);
    assert Wrap16(s.segs[CS].sel) == s.segs[CS].sel;
  }

  lemma LoadSegLocal(s: State, t: State, seg: nat, sel: u16)
    requires WellFormed(s) && WellFormed(t) && seg < 6
    requires t.mem == s.mem && t.gdtr == s.gdtr && t.ldtr == s.ldtr && t.pe == s.pe
    requires t.segs[seg].cache == s.segs[seg].cache || s.pe
    ensures LoadSeg(t, seg, sel) == LoadSeg(s, seg, sel)
  {
    hide Bit;
  }

  lemma IretSameRing(s: State, b: State, override: bool, vs: seq<u32>)
    requires WellFormed(s) && WellFormed(b) && s.pe && b.pe && Mode32(b, override) && b.segs[SS] == s.segs[SS]
    requires vs == [s.eflags, s.segs[CS].sel, s.eip] && Poppable(s, b, 4, 3, vs)
    requires LoadSeg(b, CS, s.segs[CS].sel) == Some(s.segs[CS]) && !Bit(s.eflags, 14) && Cpl(s) == Cpl(b)
    ensures Iret(b, override) == Some(Restored(s, b))
  {
    hide PopThree, LoadSeg, Bit, IretOutward, IretNested, Poppable, Lowered;
    PopThreeBack(s, b, 4, 3, vs);
    LoweredTwice(s.gp[ESP], 4, 0, 0);
    assert b.segs[CS := s.segs[CS]] == b.segs[CS := s.segs[CS]][SS := s.segs[SS]];
    var r := WithEsp(b, s.gp[ESP]).(eip := s.eip, eflags := s.eflags);
    LoadSegLocal(b, r, CS, s.segs[CS].sel);
    assert Wrap16(s.segs[CS].sel) == s.segs[CS].sel;
  }

  lemma IretOuter(s: State, u: State, b: State, override: bool, vs: seq<u32>)
    requires WellFormed(s) && WellFormed(u) && WellFormed(b) && s.pe && b.pe && Mode32(b, override) && Cpl(s) > Cpl(b)
    requires vs == [s.segs[SS].sel, s.gp[ESP], s.eflags, s.segs[CS].sel, s.eip]
    requires Poppable(u, b, 4, 5, vs)
    requires LoadSeg(b, CS, s.segs[CS].sel) == Some(s.segs[CS]) && !Bit(s.eflags, 14)
    requires LoadSeg(b, SS, s.segs[SS].sel) == Some(s.segs[SS])
    ensures Iret(b, override) == Some(Restored(s, b))
  {
    hide PopThree, LoadSeg, Bit, IretOutward, IretNested, Lowered, Poppable, Restored;
    PopThreeBack(u, b, 4, 5, vs);
    var t := WithEsp(b, Lowered(u.gp[ESP], 4, 8));
    var r := t.(eip := s.eip, eflags := s.eflags);
    assert Wrap16(s.segs[CS].sel) == s.segs[CS].sel;
    PoppableElsewhere(u, t, r, 4, 2, vs);
    OutwardBack(s, u, r, vs, b);
  }

  lemma PoppableElsewhere(u: State, b: State, t: State, w: Width, n: nat, vs: seq<u32>)
    requires Poppable(u, b, w, n, vs) && t == b.(eip := t.eip, eflags := t.eflags)
    ensures Poppable(u, t, w, n, vs)
  {
    hide Slot, Get, Lowered;
  }

  /** The second half of an `iret` to an outer ring. */
  lemma OutwardBack(s: State, u: State, t: State, vs: seq<u32>, b: State)
    requires Poppable(u, t, 4, 2, vs) && WellFormed(s) && WellFormed(b) && s.pe && b.pe
    requires vs[0] == s.segs[SS].sel && vs[1] == s.gp[ESP]
    requires t == b.(gp := t.gp, eip := s.eip, eflags := s.eflags) && t.gp == b.gp[ESP := t.gp[ESP]]
    requires LoadSeg(b, CS, s.segs[CS].sel) == Some(s.segs[CS])
    requires LoadSeg(b, SS, s.segs[SS].sel) == Some(s.segs[SS])
    ensures IretOutward(t, s.segs[CS].sel) == Some(Restored(s, b))
  {
    hide Slot, Get, Lowered, Pop, LoadSeg, Bit, Poppable;
    PopBack(u, t, 4, 2, vs);
    var t1 := WithEsp(t, Lowered(u.gp[ESP], 4, 4));
    PopBack(u, t1, 4, 1, vs);
    var t2 := WithEsp(WithEsp(t1, Lowered(u.gp[ESP], 4, 0)), s.gp[ESP]);
    assert t2.gp == b.gp[ESP := s.gp[ESP]];
    LoadSegLocal(b, t2, SS, s.segs[SS].sel);
    var t3 := t2.(segs := t2.segs[SS := s.segs[SS]]);
    LoadSegLocal(b, t3, CS, s.segs[CS].sel);
    assert t3.segs[CS := s.segs[CS]] == b.segs[CS := s.segs[CS]][SS := s.segs[SS]];
  }

  // ------------------------------------------------------------- when it goes wrong

  /** The frame is pushed before CS changes, so an inner stack must be open to the outer
      ring: a delivery that changes ring succeeds only if SS's privilege level allows the
      interrupted one. */
  lemma RingChangeNeedsOpenStack(s: State, v: Vector)
    requires WellFormed(s) && Deliver(s, v).Some? && ChangesRing(s, Lookup(s, v).value)
    ensures Onto(s, true).Some? && Cpl(s) <= Dpl(Onto(s, true).value.segs[SS].cache.access)
  {
    hide Lookup, SetSegment, LimitOf, BaseOf, Masked, Lowered, Put, Bit, Dpl, Top;
    var u, vs := Onto(s, true).value, Saved(s, true);
    FirstPush(u, 4, vs);
    var t := WithEsp(u, Lowered(u.gp[ESP], 4, 4));
    assert Push(u, 4, vs[0]).Some? ==> Physical(t, Write, SS, Top(t.gp[ESP], 4)).Some?;
    OntoCode(s);
  }

  lemma OntoCode(s: State)
    requires WellFormed(s) && Onto(s, true).Some?
    ensures Onto(s, true).value.segs[CS] == s.segs[CS] && Onto(s, true).value.pe == s.pe
  {
  }

  lemma {:induction false} FirstPush(u: State, w: Width, vs: seq<u32>)
    requires WellFormed(u) && vs != [] && PushAll(u, w, vs).Some?
    ensures Push(u, w, vs[0]).Some?
  {
    hide Push;
    if |vs| > 1 {
      FirstPush(u, w, vs[..|vs| - 1]);
    } else {
      assert vs[..0] == [];
    }
  }

  /** A stack of the handler's own ring, as the processor's manual asks for, is therefore
      refused: no delivery with such a stack ever changes ring. */
  lemma StackOfInnerRingRefused(s: State, v: Vector)
    requires WellFormed(s) && Lookup(s, v).Some? && ChangesRing(s, Lookup(s, v).value) && Onto(s, true).Some?
    requires Dpl(Onto(s, true).value.segs[SS].cache.access) == Rpl(Lookup(s, v).value.sel)
    ensures Deliver(s, v).None?
  {
    hide Lookup, Onto, SetSegment, SaveRegs, Bit, Dpl, Rpl;
    if Deliver(s, v).Some? {
      RingChangeNeedsOpenStack(s, v);
      LevelInside(s, v);
    }
  }

  lemma PopEsp(s: State, w: Width)
    requires WellFormed(s) && Pop(s, w).Some?
    ensures Pop(s, w).value.0 == WithEsp(s, Lowered(s.gp[ESP], w, -(w as int)))
  {
  }

  lemma PopThreeEsp(s: State, w: Width)
    requires WellFormed(s) && PopThree(s, w).Some?
    ensures PopThree(s, w).value.0.gp[ESP] == Lowered(s.gp[ESP], w, -3 * w)
  {
    hide Pop, Lowered;
    PopEsp(s, w);
    var a := Pop(s, w).value.0;
    PopEsp(a, w);
    var b := Pop(a, w).value.0;
    PopEsp(b, w);
    LoweredTwice(s.gp[ESP], w, -(w as int), -(w as int));
    LoweredTwice(s.gp[ESP], w, -2 * w, -(w as int));
  }

  lemma SixOff(esp: u32)
    ensures Lowered(Lowered(esp, 4, 12), 2, -6) != esp
  {
    hide Lowered;
    var e := Lowered(esp, 4, 12);
    TwelveDown(esp);
    TopLowered(e, 2, -6);
    ModuloApart(e, esp);
  }

  lemma TwelveDown(esp: u32)
    ensures var e := Lowered(esp, 4, 12) as int; e == esp - 12 || e == esp - 12 + 0x1_0000_0000
  {
    WrapDown(esp, 12, 0x1_0000_0000);
  }

  lemma ModuloApart(e: int, x: int)
    requires e == x - 12 || e == x - 12 + 0x1_0000_0000
    ensures (e + 6) % 0x1_0000 != x % 0x1_0000
  {
    var k, r := x / 0x1_0000, x % 0x1_0000;
    var j, q := (e + 6) / 0x1_0000, (e + 6) % 0x1_0000;
    assert x == k * 0x1_0000 + r && e + 6 == j * 0x1_0000 + q;
  }

  /** With the other operand size, `iret` takes half the frame: where the right size
      restores the stack pointer, the wrong one never does. */
  lemma OtherSizeMisses(s: State, v: Vector, b: State, override: bool)
    requires Accepted(s, v) && Returning(s, v, b, override) && s.pe && !ChangesRing(s, Lookup(s, v).value)
    ensures Iret(b, !override).Some? ==> Iret(b, !override).value.gp[ESP] != s.gp[ESP]
  {
    hide Slot, Get, Lowered, Lookup, Deliver, FrameState, FrameValues, InFrame, LoadSeg, Bit, PopThree, WithLow,
         Accepted;
    ReturningFacts(s, v, b, override);
    FramePoppable(s, v, b, override);
    FrameOnSame(s, v);
    if Iret(b, !override).Some? {
      PopThreeEsp(b, 2);
      SixOff(s.gp[ESP]);
    }
  }
}
