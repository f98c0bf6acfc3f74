/** Properties of the cascaded controllers over all runs of the machine. */
module PicTheorems {
  import opened Words
  import opened Pic

  // ------------------------------------------------------------- who may interrupt whom

  function Only(line: nat): Lines
    requires line < 8
  {
    NONE[line := true]
  }

  /** With exactly one line in service, exactly the lines before it may interrupt. */
  lemma OneInService(p: Chip, j: nat, line: nat)
    requires j < 8 && line < 8 && p.isr == Only(j)
    ensures Passes(p.isr, line) <==> line < j
  {
    BelowMask(p.isr, line);
    ValueOfNone(p.isr);
    hide Value;
  }

  /** The full nesting of the 8259A: a line may interrupt only lines after it. */
  predicate FullNesting(isr: Lines, line: nat)
    requires line < 8
  {
    line < Lowest(isr)
  }

  /** The emulated test is full nesting for every line exactly as long as at most one
      line is in service. */
  lemma NestingIff(p: Chip)
    ensures (forall line: nat :: line < 8 ==> (Passes(p.isr, line) <==> FullNesting(p.isr, line)))
            <==> !Any(p.isr) || Lowest(p.isr) == Highest(p.isr)
  {
    ValueOfNone(p.isr);
    hide Value, Lowest, Highest;
    if Any(p.isr) {
      forall line: nat | line < 8
        ensures Passes(p.isr, line) <==> line < Highest(p.isr) || (line == Highest(p.isr) && Lowest(p.isr) < line)
      {
        BelowMask(p.isr, line);
      }
      assert Passes(p.isr, Lowest(p.isr)) <==> Lowest(p.isr) < Highest(p.isr);
      assert !FullNesting(p.isr, Lowest(p.isr));
    }
  }

  /** Two in service, and the first of them interrupts its own handler. */
  lemma SecondLevelReenters(p: Chip)
    requires p.isr == Only(1)[3 := true]
    ensures Passes(p.isr, 1) && Passes(p.isr, 2) && !FullNesting(p.isr, 1) && !FullNesting(p.isr, 2)
  {
  }

  // ------------------------------------------------------------- initialisation

  function DataWords(icw1: byte): nat {
    if icw1 / 2 % 2 == 1 then 1 else if icw1 % 2 == 1 then 3 else 2
  }

  function Feed(p: Chip, data: seq<byte>): Chip
    decreases |data|
  {
    if data == [] then p else Feed(Data(p, data[0]).0, data[1..])
  }

  /** From power-on, a command and as many data bytes as it asks for initialise the
      controller with those bytes; any further data byte only sets the mask. */
  lemma InitialisationTakes(p: Chip, icw1: byte, data: seq<byte>)
    requires p.stage == -1 && |data| == DataWords(icw1)
    ensures var q := Feed(Command(p, icw1), data);
            && q.stage == 0 && q.icw1 == icw1 && q.icw2 == data[0]
            && q.icw3 == (if |data| >= 2 then data[1] else p.icw3)
            && q.icw4 == (if |data| == 3 then data[2] else p.icw4)
            && q == p.(icw1 := q.icw1, icw2 := q.icw2, icw3 := q.icw3, icw4 := q.icw4, stage := 0)
            && forall v :: Data(q, v) == (q.(imr := LinesOf(v)), false)
  {
    var a := Command(p, icw1);
    var b := Data(a, data[0]).0;
    assert Feed(a, data) == Feed(b, data[1..]);
    if |data| >= 2 {
      var c := Data(b, data[1]).0;
      assert data[1..][0] == data[1] && data[1..][1..] == data[2..];
      assert Feed(b, data[1..]) == Feed(c, data[2..]);
      if |data| == 3 {
        assert data[2..][0] == data[2] && data[2..][1..] == [];
        assert Feed(c, data[2..]) == Data(c, data[2]).0;
      }
    }
  }

  // ------------------------------------------------------------- one poll

  /** A poll changes only the request latches and the request register, and adds at most
      the line it answers for. */
  lemma PollEffect(p: Chip)
    ensures var (q, ok) := Poll(p); var line := Asking(p);
            && q == p.(raised := q.raised, irr := q.irr)
            && (ok <==> p.stage == 0 && line < 8 && Passes(p.isr, line))
            && q.irr == (if ok then p.irr[line := true] else p.irr)
  {
    hide Passes, Asking;
  }

  /** The line a master poll comes to first: a device's, or the slave's if its own poll
      succeeds; 8 if nobody asks. */
  function PolledLine(m: Chip, s: Chip): nat {
    if SlaveOpen(m) && 2 < MasterAsking(m) && Poll(s).1 then 2 else MasterAsking(m)
  }

  lemma MasterPollEffect(m: Chip, s: Chip)
    ensures var (n, t, ok) := PollWithSlave(m, s); var line := PolledLine(m, s);
            && n == m.(raised := n.raised, irr := n.irr)
            && n.raised == (if m.stage == 0 && line < 8 && line != 2 then m.raised[line := false] else m.raised)
            && t == (if m.stage == 0 && SlaveOpen(m) && 2 < MasterAsking(m) then Poll(s).0 else s)
            && (ok <==> m.stage == 0 && line < 8 && Passes(m.isr, line))
            && n.irr == (if ok then m.irr[line := true] else m.irr)
            && (ok && line == 2 ==> Poll(s) == (t, true))
  {
    NotCascade(m);
    hide Passes, MasterAsking, SlaveOpen, Poll, Lowest, Value, Request, Consumed;
    var asking := MasterAsking(m);
    RequestEffect(m, 2);
    RequestEffect(Consumed(m, asking), asking);
    ConsumedEffect(m, asking);
  }

  lemma NotCascade(m: Chip)
    ensures MasterAsking(m) != 2
  {
  }

  lemma RequestEffect(p: Chip, line: nat)
    requires line <= 8
    ensures var (q, ok) := Request(p, line);
            && q == p.(irr := q.irr) && (ok <==> line < 8 && Passes(p.isr, line))
            && q.irr == (if ok then p.irr[line := true] else p.irr)
  {
    hide Passes;
  }

  lemma ConsumedEffect(p: Chip, line: nat)
    requires line <= 8
    ensures Consumed(p, line) == p.(raised := if line == 8 then p.raised else p.raised[line := false])
  {
  }

  // ------------------------------------------------------------- one check

  /** Both controllers are initialised for 8086 vectors, the master cascaded on exactly
      the line the slave is told, with vectors that stop short of 0xff; and no request of
      the master is outstanding. */
  predicate Configured(y: System) {
    && y.m.stage == 0 && y.s.stage == 0 && y.m.irr == NONE
    && Mode8086(y.m) && Mode8086(y.s) && !Single(y.m)
    && y.m.icw3 == 4 && NamedLine(y.s.icw3) == 2 && Offset(y.m) < 248
  }

  lemma OneRequest(line: nat)
    requires line < 8
    ensures Lowest(Only(line)) == line && Only(line)[line := false] == NONE
    ensures LinesOf(4)[line] <==> line == 2
  {
  }

  lemma LowestOfSet(r: Lines, line: nat)
    requires line < 8
    ensures Any(r[line := true]) && Lowest(r[line := true]) <= line
  {
    hide Lowest;
    assert r[line := true][line];
  }

  lemma IdOfVector(p: Chip, line: nat)
    requires line < 8 && Mode8086(p)
    ensures VectorOf(p, line) == p.icw2 / 8 * 8 + line
    ensures Signed8(VectorOf(p, line)) % 0x100 == VectorOf(p, line)
    ensures Signed8(VectorOf(p, line)) == SLAVE_INTR <==> VectorOf(p, line) == 0xff
  {
    hide Mode8086;
    assert p.icw2 / 8 * 8 + line < 0x100;
  }

  /** What a check with interrupts enabled does to the machine, in full.  The request
      polled is used up whether or not it may interrupt: a refused one is lost. */
  ghost predicate Checked(y: System, z: System, ok: bool) {
    var line := PolledLine(y.m, y.s);
    && (ok <==> line < 8 && Passes(y.m.isr, line))
    && z.m == y.m.(raised := if line < 8 && line != 2 then y.m.raised[line := false] else y.m.raised,
                   isr := if ok && !AutoEoi(y.m) then y.m.isr[line := true] else y.m.isr)
    && var t := if SlaveOpen(y.m) && 2 < MasterAsking(y.m) then Poll(y.s).0 else y.s;
       if !ok then z.queue == y.queue && z.s == t
       else if line != 2 then z.queue == y.queue + [y.m.icw2 / 8 * 8 + line] && z.s == t
       else
         var low := Lowest(t.irr);
         && Poll(y.s).1 && Any(t.irr) && low <= Asking(y.s) < 8
         && z.queue == y.queue + [y.s.icw2 / 8 * 8 + low]
         && z.s == InService(t, low)
  }

  /** A check never ends the program.  It accepts exactly the first unmasked line that
      asks, if that may interrupt; a device's line gives the master's vector for it; on
      the cascaded line the slave does have a request, and its first one gives the
      vector.  No request stays behind in the master. */
  lemma CheckEffect(y: System)
    requires Configured(y)
    ensures CheckIrq(y, true).Some?
    ensures var (z, ok) := CheckIrq(y, true).value; Checked(y, z, ok) && Configured(z)
  {
    hide Value, Lowest, Passes, Poll, PollWithSlave, PolledLine, Signed8, VectorOf, Offset, Asking, MasterAsking,
         Mode8086, Single, AutoEoi, AcknowledgeMaster, AcknowledgeSlave, SlaveOpen;
    var line := PolledLine(y.m, y.s);
    MasterPollEffect(y.m, y.s);
    PollEffect(y.s);
    var (m, t, ok) := PollWithSlave(y.m, y.s);
    SameConfiguration(y.m, m);
    SameConfiguration(y.s, t);
    if ok {
      AcknowledgeOne(m, line);
      var n := AcknowledgeMaster(m).0;
      SameConfiguration(y.m, n);
      if line == 2 {
        LowestOfSet(y.s.irr, Asking(y.s));
        AcknowledgeCascaded(t, n);
        SameConfiguration(y.s, InService(t, Lowest(t.irr)));
      } else {
        IdOfVector(m, line);
        BelowFull(m, line);
      }
    }
  }

  lemma AcknowledgeOne(p: Chip, line: nat)
    requires line < 8 && p.irr == Only(line) && !Single(p) && p.icw3 == 4
    ensures AcknowledgeMaster(p) == (p.(irr := NONE, isr := if AutoEoi(p) then p.isr else p.isr[line := true]),
                                     if line == 2 then SLAVE_INTR else Signed8(VectorOf(p, line)))
  {
    hide Value, Lowest, Signed8, VectorOf, Single, AutoEoi;
    OneRequest(line);
  }

  lemma AcknowledgeCascaded(p: Chip, m: Chip)
    requires Any(p.irr) && !Single(m) && m.icw3 == 4 && NamedLine(p.icw3) == 2 && Mode8086(p)
    ensures Lowest(p.irr) < 8
    ensures var low := Lowest(p.irr);
            AcknowledgeSlave(p, m).Some? && AcknowledgeSlave(p, m).value.0 == InService(p, low)
            && AcknowledgeSlave(p, m).value.1 % 0x100 == p.icw2 / 8 * 8 + low
  {
    hide Value, Lowest, Signed8, VectorOf, Single, AutoEoi, InService, Mode8086;
    OneRequest(2);
    IdOfVector(p, Lowest(p.irr));
  }

  lemma SameConfiguration(p: Chip, q: Chip)
    ensures q == p.(raised := q.raised, irr := q.irr, isr := q.isr) ==>
              && Mode8086(q) == Mode8086(p) && Single(q) == Single(p) && AutoEoi(q) == AutoEoi(p)
              && Offset(q) == Offset(p)
  {
  }

  lemma BelowFull(p: Chip, line: nat)
    requires line < 8 && Offset(p) < 248
    ensures VectorOf(p, line) != 0xff
  {
    hide Offset;
  }

  // ------------------------------------------------------------- whole runs

  predicate SameWords(p: Chip, q: Chip) {
    q.icw1 == p.icw1 && q.icw2 == p.icw2 && q.icw3 == p.icw3 && q.icw4 == p.icw4 && q.stage == p.stage
  }

  /** What every event keeps of a controller that is initialised. */
  predicate Frozen(p: Chip, q: Chip) {
    p.stage == 0 ==> SameWords(p, q)
  }

  lemma AcknowledgeFreezes(p: Chip, m: Chip)
    ensures SameWords(p, AcknowledgeMaster(p).0)
    ensures AcknowledgeSlave(p, m).Some? ==> SameWords(p, AcknowledgeSlave(p, m).value.0)
  {
    hide Lowest, Signed8, VectorOf, Single, AutoEoi, NamedLine;
  }

  lemma CheckFreezes(y: System, interrupts: bool)
    requires CheckIrq(y, interrupts).Some?
    ensures SameWords(y.m, CheckIrq(y, interrupts).value.0.m) && SameWords(y.s, CheckIrq(y, interrupts).value.0.s)
  {
    hide Poll, PollWithSlave, PolledLine, Passes, Asking, AcknowledgeMaster, AcknowledgeSlave;
    MasterPollEffect(y.m, y.s);
    PollEffect(y.s);
    var (m, s, ok) := PollWithSlave(y.m, y.s);
    AcknowledgeFreezes(m, m);
    AcknowledgeFreezes(s, AcknowledgeMaster(m).0);
  }

  lemma WriteFreezes(p: Chip, v: byte)
    ensures Frozen(p, Command(p, v)) && Frozen(p, Data(p, v).0)
    ensures p.stage == 0 ==> !Data(p, v).1
  {
    hide Lowest, EndsInterrupt, NamesLine, NamedLine, Single, WantsIcw4;
  }

  lemma EventFreezes(y: System, e: Event)
    requires Happen(y, e).Some?
    ensures Frozen(y.m, Happen(y, e).value.m) && Frozen(y.s, Happen(y, e).value.s)
  {
    hide Lowest, Poll, CheckIrq, Command, Data;
    match e
    case Check(interrupts) => CheckFreezes(y, interrupts);
    case ToCommand(slave, v) => WriteFreezes(if slave then y.s else y.m, v);
    case ToData(slave, v) =>
      WriteFreezes(if slave then y.s else y.m, v);
      PollEffect(y.s);
    case _ =>
  }

  /** Once a controller is initialised its initialisation words never change again. */
  lemma {:induction false} WordsNeverChange(y: System, events: seq<Event>)
    requires Run(y, events).Some?
    ensures Frozen(y.m, Run(y, events).value.m) && Frozen(y.s, Run(y, events).value.s)
    decreases |events|
  {
    if events != [] {
      EventFreezes(y, events[0]);
      WordsNeverChange(Happen(y, events[0]).value, events[1..]);
    }
  }

  /** No longer reaching than before: once non-empty, the in-service register only loses
      lines or gains lines up to its highest. */
  ghost predicate NoHigher(before: Lines, after: Lines) {
    Any(before) && Any(after) ==> Highest(after) <= Highest(before)
  }

  lemma SetNoHigher(isr: Lines, line: nat)
    requires line < 8 && Passes(isr, line)
    ensures NoHigher(isr, isr[line := true])
  {
    hide Value;
    ValueOfNone(isr);
    if Any(isr) {
      BelowMask(isr, line);
      hide Highest, Lowest;
    }
  }

  lemma ResetNoHigher(isr: Lines, line: nat)
    requires line < 8
    ensures NoHigher(isr, isr[line := false])
  {
    hide Highest, Lowest, Value;
  }

  lemma PassesBelow(isr: Lines, line: nat, low: nat)
    requires low <= line < 8 && Passes(isr, line)
    ensures Passes(isr, low)
  {
    assert Weight(low) <= Weight(line);
    hide Value;
  }

  lemma CommandNoHigher(p: Chip, v: byte)
    ensures NoHigher(p.isr, Command(p, v).isr)
  {
    hide Highest, Lowest, Value, EndsInterrupt, NamesLine;
    ResetNoHigher(p.isr, NamedLine(v));
    if Any(p.isr) {
      ResetNoHigher(p.isr, Lowest(p.isr));
    }
  }

  lemma CheckNoHigher(y: System)
    requires Configured(y)
    ensures CheckIrq(y, true).Some?
    ensures var z := CheckIrq(y, true).value.0; NoHigher(y.m.isr, z.m.isr) && NoHigher(y.s.isr, z.s.isr)
  {
    hide Value, Lowest, Highest, Passes, Poll, Asking, MasterAsking, SlaveOpen, CheckIrq, AutoEoi, NoHigher;
    CheckEffect(y);
    NotCascade(y.m);
    PollEffect(y.s);
    var line := PolledLine(y.m, y.s);
    assert NoHigher(y.m.isr, y.m.isr) && NoHigher(y.s.isr, y.s.isr) by { SameNoHigher(y.m.isr); SameNoHigher(y.s.isr); }
    if CheckIrq(y, true).value.1 {
      SetNoHigher(y.m.isr, line);
      if line == 2 {
        var low := Lowest(Poll(y.s).0.irr);
        PassesBelow(y.s.isr, Asking(y.s), low);
        SetNoHigher(y.s.isr, low);
      }
    }
  }

  lemma SameNoHigher(isr: Lines)
    ensures NoHigher(isr, isr)
  {
  }

  /** Every event keeps a configured machine running and configured, and lets neither
      controller reach higher while it is in service. */
  lemma EventKeeps(y: System, e: Event)
    requires Configured(y)
    ensures Happen(y, e).Some?
    ensures var z := Happen(y, e).value;
            Configured(z) && NoHigher(y.m.isr, z.m.isr) && NoHigher(y.s.isr, z.s.isr)
  {
    hide Value, Lowest, Highest, Poll, CheckIrq, Single, WantsIcw4, Mode8086, Offset, NoHigher, Command, Data,
         NamedLine;
    SameNoHigher(y.m.isr);
    SameNoHigher(y.s.isr);
    match e
    case Check(interrupts) =>
      CheckMasked(y);
      CheckEffect(y);
      CheckNoHigher(y);
    case ToCommand(slave, v) =>
      var p := if slave then y.s else y.m;
      CommandEffect(p, v);
      CommandNoHigher(p, v);
      ConfiguredSame(p, Command(p, v));
    case ToData(slave, v) =>
      var p := if slave then y.s else y.m;
      MaskWrite(p, v);
      ConfiguredSame(p, p.(imr := LinesOf(v)));
    case Raise(slave, line) =>
      ConfiguredSame(y.m, Happen(y, e).value.m);
      ConfiguredSame(y.s, Happen(y, e).value.s);
    case Taken =>
  }

  lemma MaskWrite(p: Chip, v: byte)
    requires p.stage == 0
    ensures Data(p, v) == (p.(imr := LinesOf(v)), false)
  {
  }

  lemma CheckMasked(y: System)
    ensures CheckIrq(y, false) == Some((y, false))
  {
  }

  lemma CommandEffect(p: Chip, v: byte)
    requires p.stage == 0
    ensures Command(p, v) == p.(isr := Command(p, v).isr)
  {
    hide Lowest, EndsInterrupt, NamesLine, NamedLine;
  }

  lemma ConfiguredSame(p: Chip, q: Chip)
    ensures SameWords(p, q) ==> Mode8086(q) == Mode8086(p) && Single(q) == Single(p) && Offset(q) == Offset(p)
  {
  }

  /** A configured machine runs for ever: no run ends the program, and after every run
      the master has no request outstanding, so every queued vector is of the line just
      polled (CheckEffect). */
  lemma {:induction false} RunStaysConfigured(y: System, events: seq<Event>)
    requires Configured(y)
    ensures Run(y, events).Some? && Configured(Run(y, events).value)
    decreases |events|
  {
    if events != [] {
      EventKeeps(y, events[0]);
      hide Configured, Happen;
      RunStaysConfigured(Happen(y, events[0]).value, events[1..]);
    }
  }

  /** The controller is in service at every point of a run. */
  ghost predicate AlwaysInService(y: System, events: seq<Event>, slave: bool)
    decreases |events|
  {
    && Any(if slave then y.s.isr else y.m.isr)
    && (events == [] || (Happen(y, events[0]).Some? ==>
          AlwaysInService(Happen(y, events[0]).value, events[1..], slave)))
  }

  /** From the moment a controller is in service until it is idle again, its highest line
      in service never rises, whatever is raised, polled, acknowledged or ended. */
  lemma {:induction false} HighestNeverRises(y: System, events: seq<Event>, slave: bool)
    requires Configured(y) && AlwaysInService(y, events, slave)
    ensures Run(y, events).Some?
    ensures var z := Run(y, events).value;
            var before, after := if slave then y.s.isr else y.m.isr, if slave then z.s.isr else z.m.isr;
            Any(before) && Any(after) && Highest(after) <= Highest(before)
    decreases |events|
  {
    if events != [] {
      EventKeeps(y, events[0]);
      hide Configured, Happen, Highest;
      HighestNeverRises(Happen(y, events[0]).value, events[1..], slave);
    }
  }
}
