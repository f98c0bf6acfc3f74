/** Handlers that do real work: between a delivery and its `iret` a handler may run
    anything, be interrupted itself on its own or an inner stack, and so on to any
    depth, as long as it leaves the frames and descriptors the pending returns need. */
module InterruptEpisodes {
  import opened Words
  import opened Memory
  import opened Cpu
  import opened Interrupts
  import opened InterruptTheorems
  import InterruptNests

  /** What a processor does: work to some next state, or take an interrupt whose handler
      has a course of its own that ends in an `iret`. */
  datatype Course = End
                  | Work(next: State, rest: Course)
                  | Interrupted(v: Vector, body: Course, override: bool, rest: Course)

  function Perform(s: State, c: Course): (r: Option<State>)
    requires WellFormed(s)
    ensures r.Some? ==> WellFormed(r.value)
    decreases c, 0
  {
    match c
    case End => Some(s)
    case Work(next, rest) => if WellFormed(next) then Perform(next, rest) else None
    case Interrupted(v, body, override, rest) =>
      var t := Handle(s, v, body, override);
      if t.None? then None else Perform(t.value, rest)
  }

  /** One interrupt from delivery to return. */
  function Handle(s: State, v: Vector, body: Course, override: bool): (r: Option<State>)
    requires WellFormed(s)
    ensures r.Some? ==> WellFormed(r.value)
    decreases body, 1
  {
    if Deliver(s, v).None? then None
    else
      var b := Perform(Deliver(s, v).value, body);
      if b.None? then None else Iret(b.value, override)
  }

  // ------------------------------------------------------------- what must be left alone

  /** A byte of the descriptor that a selector names. */
  predicate DescriptorByte(s: State, sel: u16, q: int) {
    var p := Wrap32((if Bit(sel, 2) then s.ldtr else s.gdtr).base + sel / 8 * 8);
    s.pe && p <= q < p + 8
  }

  ghost predicate Needed(s: State, q: int)
    requires WellFormed(s)
  {
    DescriptorByte(s, s.segs[CS].sel, q) || DescriptorByte(s, s.segs[SS].sel, q)
  }

  /** The bytes a pending return depends on: its frame, and the descriptors it reloads. */
  ghost function Guarded(s: State, v: Vector): set<int>
    requires Accepted(s, v)
  {
    set q | 0 <= q < |s.mem| && (FrameByte(s, v, q) || Needed(s, q))
  }

  ghost predicate KeepsLive(s: State, t: State, live: set<int>) {
    && WellFormed(t) && t.pe == s.pe && t.a20 == s.a20 && t.gdtr == s.gdtr && t.ldtr == s.ldtr
    && |t.mem| == |s.mem| && forall q :: q in live && 0 <= q < |s.mem| ==> t.mem[q] == s.mem[q]
  }

  /** An interrupt may come: CS and SS mean what their selectors load, NT is clear, and
      the frame lands neither on bytes that pending returns need nor on those
      descriptors. */
  ghost predicate Interruptible(s: State, v: Vector, live: set<int>) {
    && Accepted(s, v)
    && LoadSeg(s, CS, s.segs[CS].sel) == Some(s.segs[CS])
    && LoadSeg(s, SS, s.segs[SS].sel) == Some(s.segs[SS])
    && (s.pe ==> !Bit(s.eflags, 14))
    && forall q :: 0 <= q < |s.mem| && FrameByte(s, v, q) ==> q !in live && !Needed(s, q)
  }

  /** The handler has balanced its stack and is about to return in its own code. */
  ghost predicate Balanced(s: State, v: Vector, b: State, override: bool)
    requires Accepted(s, v)
  {
    var d := Deliver(s, v).value;
    && WellFormed(b) && b.segs[CS] == d.segs[CS] && b.segs[SS] == d.segs[SS] && b.gp[ESP] == d.gp[ESP]
    && Mode32(b, override) == s.pe
  }

  /** Every part of a course leaves alone what is live at that point. */
  ghost predicate Polite(s: State, c: Course, live: set<int>)
    requires WellFormed(s)
    decreases c
  {
    match c
    case End => true
    case Work(next, rest) => KeepsLive(s, next, live) && Polite(next, rest, live)
    case Interrupted(v, body, override, rest) =>
      && Interruptible(s, v, live)
      && Polite(Deliver(s, v).value, body, live + Guarded(s, v))
      && (Perform(Deliver(s, v).value, body).Some? ==>
            var b := Perform(Deliver(s, v).value, body).value;
            && Balanced(s, v, b, override)
            && Polite(Restored(s, b), rest, live))
  }

  // ------------------------------------------------------------- the result

  lemma DeliverKeepsLive(s: State, v: Vector, live: set<int>)
    requires Interruptible(s, v, live)
    ensures KeepsLive(s, Deliver(s, v).value, live)
  {
    hide Slot, Get, Lowered, Lookup, Deliver, FrameState, FrameValues, InFrame, LoadSeg, Bit, SlotsInRam, Needed;
    DeliverEffect(s, v);
  }

  lemma LoadKept(s: State, t: State, seg: nat, sel: u16)
    requires WellFormed(s) && WellFormed(t) && seg < 6 && s.pe && t.pe && |s.mem| == |t.mem|
    requires t.gdtr == s.gdtr && t.ldtr == s.ldtr
    requires forall q :: 0 <= q < |s.mem| && DescriptorByte(s, sel, q) ==> t.mem[q] == s.mem[q]
    ensures LoadSeg(t, seg, sel) == LoadSeg(s, seg, sel)
  {
    hide Bit, ReadDescriptor, Wrap32;
    var table := if Bit(sel, 2) then s.ldtr else s.gdtr;
    var p := Wrap32(table.base + sel / 8 * 8);
    if Inside(s.mem, p, 8) {
      forall q | p <= q < p + 8 ensures s.mem[q] == t.mem[q] {
        assert DescriptorByte(s, sel, q);
      }
      InterruptNests.DescriptorSame(s.mem, t.mem, p);
    }
  }

  /** A polite, balanced handler is in a position to return. */
  lemma PoliteReturns(s: State, v: Vector, b: State, override: bool, live: set<int>)
    requires Interruptible(s, v, live) && Balanced(s, v, b, override)
    requires KeepsLive(Deliver(s, v).value, b, live + Guarded(s, v))
    ensures Returning(s, v, b, override)
  {
    hide Slot, Get, Lowered, Lookup, Deliver, FrameState, FrameValues, InFrame, LoadSeg, Bit, SlotsInRam, FrameByte,
         DescriptorByte;
    DeliverEffect(s, v);
    DeliverKeepsLive(s, v, set q | 0 <= q < |s.mem| && Needed(s, q));
    if s.pe {
      LoadKept(s, b, CS, s.segs[CS].sel);
      LoadKept(s, b, SS, s.segs[SS].sel);
    } else {
      RealCode(s, v, b, override);
    }
  }

  lemma RealCode(s: State, v: Vector, b: State, override: bool)
    requires Accepted(s, v) && Balanced(s, v, b, override) && !s.pe && !b.pe
    requires LoadSeg(s, CS, s.segs[CS].sel) == Some(s.segs[CS])
    ensures LoadSeg(b, CS, s.segs[CS].sel) == Some(s.segs[CS])
    ensures !ChangesRing(s, Lookup(s, v).value)
  {
    hide Slot, Get, Lowered, Lookup, FrameState, FrameValues, InFrame, Bit, SlotsInRam, FrameByte, PushAll, Saved,
         FrameWidth;
    var t := SaveRegs(s, ChangesRing(s, Lookup(s, v).value)).value;
    PushAllSegments(s, FrameWidth(s), Saved(s, false));
    InterruptNests.LoadSegReal(t, CS, Lookup(s, v).value.sel);
    InterruptNests.LoadSegReal(s, CS, s.segs[CS].sel);
    InterruptNests.LoadSegReal(b, CS, s.segs[CS].sel);
  }

  lemma {:induction false} PushAllSegments(s: State, w: Width, vs: seq<u32>)
    requires WellFormed(s) && PushAll(s, w, vs).Some?
    ensures PushAll(s, w, vs).value.segs == s.segs && PushAll(s, w, vs).value.pe == s.pe
  {
    if vs != [] {
      PushAllSegments(s, w, vs[..|vs| - 1]);
    }
  }

  lemma RestoredKeepsLive(s: State, d: State, b: State, live: set<int>, more: set<int>)
    requires WellFormed(s) && KeepsLive(s, d, live) && KeepsLive(d, b, live + more)
    ensures KeepsLive(s, Restored(s, b), live)
  {
    hide WithLow, Wrap16;
    forall q | q in live && 0 <= q < |s.mem| ensures b.mem[q] == s.mem[q] {
      assert q in live + more;
    }
  }

  /** One interrupt of a polite course: given that the handler's own course succeeds and
      is polite, the return restores the interrupted context. */
  lemma HandleRestores(s: State, v: Vector, body: Course, override: bool, live: set<int>, b: State)
    requires Interruptible(s, v, live) && Perform(Deliver(s, v).value, body) == Some(b)
    requires Balanced(s, v, b, override) && KeepsLive(Deliver(s, v).value, b, live + Guarded(s, v))
    ensures Handle(s, v, body, override) == Some(Restored(s, b)) && KeepsLive(s, Restored(s, b), live)
  {
    hide Returning, Restored, Balanced, Interruptible, Iret, Perform, KeepsLive, Guarded;
    PoliteReturns(s, v, b, override, live);
    assert Accepted(s, v) by { InterruptibleAccepted(s, v, live); }
    IretUndoesDelivery(s, v, b, override);
    DeliverKeepsLive(s, v, live);
    RestoredKeepsLive(s, Deliver(s, v).value, b, live, Guarded(s, v));
  }

  lemma InterruptibleAccepted(s: State, v: Vector, live: set<int>)
    requires Interruptible(s, v, live)
    ensures Accepted(s, v)
  {
    hide Accepted, LoadSeg, Bit;
  }

  /** Whatever the depth, a polite course never throws and leaves the live bytes alone. */
  lemma {:induction false} PoliteSucceeds(s: State, c: Course, live: set<int>)
    requires WellFormed(s) && Polite(s, c, live)
    ensures Perform(s, c).Some? && KeepsLive(s, Perform(s, c).value, live)
    decreases c, 0
  {
    hide Interruptible, Balanced, Deliver, Restored, Iret, Guarded, Handle;
    match c
    case End =>
    case Work(next, rest) =>
      PoliteSucceeds(next, rest, live);
    case Interrupted(v, body, override, rest) =>
      InterruptibleAccepted(s, v, live);
      EpisodeRestores(s, v, body, override, rest, live);
      PoliteSucceeds(Handle(s, v, body, override).value, rest, live);
  }

  /** An interrupt whose handler runs a polite course of any depth: the interrupted EIP,
      CS, flags, SS and ESP come back as they were, hidden parts included, and all else is
      as the handler left it. */
  lemma {:induction false} EpisodeRestores(s: State, v: Vector, body: Course, override: bool, rest: Course,
                                           live: set<int>)
    requires WellFormed(s) && Polite(s, Interrupted(v, body, override, rest), live)
    ensures Accepted(s, v) && Perform(Deliver(s, v).value, body).Some?
    ensures var b := Perform(Deliver(s, v).value, body).value;
            && Handle(s, v, body, override) == Some(Restored(s, b))
            && KeepsLive(s, Restored(s, b), live) && Polite(Restored(s, b), rest, live)
    decreases body, 1
  {
    hide Balanced, Deliver, Restored, Iret, Guarded, Handle;
    InterruptibleAccepted(s, v, live);
    PoliteSucceeds(Deliver(s, v).value, body, live + Guarded(s, v));
    HandleRestores(s, v, body, override, live, Perform(Deliver(s, v).value, body).value);
  }
}
