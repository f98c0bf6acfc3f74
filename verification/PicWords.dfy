/** The controllers' command and initialisation words bit by bit, and what an interrupt
    and its end leave behind. */
module PicWords {
  import opened Words
  import opened Arithmetic
  import opened Pic
  import opened PicTheorems

  // ------------------------------------------------------------- bits

  /** Bit i of a byte is line i. */
  lemma LinesOnBits(b0: nat, b1: nat, b2: nat, b3: nat, b4: nat, b5: nat, b6: nat, b7: nat)
    requires b0 < 2 && b1 < 2 && b2 < 2 && b3 < 2 && b4 < 2 && b5 < 2 && b6 < 2 && b7 < 2
    ensures var v := b0 + 2 * b1 + 4 * b2 + 8 * b3 + 0x10 * b4 + 0x20 * b5 + 0x40 * b6 + 0x80 * b7;
            LinesOf(v) == [b0 == 1, b1 == 1, b2 == 1, b3 == 1, b4 == 1, b5 == 1, b6 == 1, b7 == 1]
  {
    var d: seq<nat> := [b0, b1, b2, b3, b4, b5, b6, b7];
    var v := b0 + 2 * b1 + 4 * b2 + 8 * b3 + 0x10 * b4 + 0x20 * b5 + 0x40 * b6 + 0x80 * b7;
    assert Spells(d, v);
    hide Spells, LinesOf;
    forall j | 0 <= j < 8 ensures LinesOf(v)[j] == (d[j] == 1) {
      LineIsDigit(v, d, j);
    }
  }

  lemma LineIsDigit(v: byte, d: seq<nat>, j: nat)
    requires Spells(d, v) && j < 8
    ensures |d| == 8 && LinesOf(v)[j] == (d[j] == 1)
  {
    assert Weight(j) == [1, 2, 4, 8, 16, 32, 64, 128][j];
    DigitAt(d, v, j);
    hide Spells, Weight;
  }

  /** ICW4 has the 8086 mode in bit 0 and the automatic end of interrupt in bit 1. */
  lemma ModeBits(p: Chip, x: nat, auto: nat, mode: nat)
    requires auto < 2 && mode < 2 && p.icw4 as int == 4 * x + 2 * auto + mode
    ensures AutoEoi(p) == (auto == 1) && Mode8086(p) == (mode == 1)
  {
    LowBit(2 * x + auto, mode);
    LowBit(x, auto);
  }

  /** The word that completes an initialisation is ICW2 for a controller alone, which has
      bit 1 of ICW1; ICW3 without bit 0 of ICW1; else ICW4.  The devices of a master are
      then asked once and their requests forgotten, but for the slave on line 2, which is
      polled if it is there. */
  lemma CompletionAsks(y: System, v: byte, x: nat, single: nat, four: nat)
    requires 2 <= y.m.stage <= 4 && single < 2 && four < 2 && y.m.icw1 as int == 4 * x + 2 * single + four
    ensures Data(y.m, v).1 <==>
              || (y.m.stage == 2 && single == 1) || (y.m.stage == 3 && four == 0) || y.m.stage == 4
    ensures var w := MasterData(y, v);
            if Data(y.m, v).1 then
              && w.m.stage == 0
              && (forall i :: 0 <= i < 8 ==> w.m.raised[i] == (y.m.raised[i] && (i == 2 || !y.m.wired[i])))
              && w.s == (if y.m.wired[2] then Poll(y.s).0 else y.s)
            else w.m.stage == y.m.stage + 1 && w.m.raised == y.m.raised && w.s == y.s
  {
    LowBit(2 * x + single, four);
    LowBit(x, single);
    hide Poll;
  }

  /** The vector of a line: in 8086 mode the upper five bits of ICW2 and the line; without
      it, the upper three bits of ICW1 plus eight times the lower three of ICW2, and the
      line, modulo 256. */
  lemma VectorBits(p: Chip, line: nat, high1: nat, low1: nat, high2: nat, low2: nat)
    requires line < 8 && low1 < 0x20 && low2 < 8
    requires p.icw1 as int == 0x20 * high1 + low1 && p.icw2 as int == 8 * high2 + low2
    ensures VectorOf(p, line) as int
            == if Mode8086(p) then 8 * high2 + line else (high1 + 8 * low2 + line) % 0x100
  {
    Eighth(high2, low2);
    Above(p.icw1 as int, 0x20, high1, low1);
    hide Mode8086;
  }

  // ------------------------------------------------------------- end of interrupt

  /** A command to an initialised controller, bit by bit: bit 5 ends an interrupt, that of
      the line in bits 0 to 2 if bit 6 is set, else that of the first line in service.
      Without bit 5 nothing happens. */
  lemma EndOfInterrupt(p: Chip, v: byte, r: nat, sl: nat, e: nat, x: nat, l: nat)
    requires p.stage == 0 && r < 2 && sl < 2 && e < 2 && x < 4 && l < 8
    requires v as int == 0x80 * r + 0x40 * sl + 0x20 * e + 8 * x + l
    ensures e == 0 ==> Command(p, v) == p
    ensures e == 1 && sl == 1 ==> Command(p, v) == p.(isr := p.isr[l := false])
    ensures e == 1 && sl == 0 ==>
              && ((forall j :: 0 <= j < 8 ==> !p.isr[j]) ==> Command(p, v) == p)
              && forall f: nat :: f < 8 && p.isr[f] && (forall j :: 0 <= j < f ==> !p.isr[j]) ==>
                   Command(p, v) == p.(isr := p.isr[f := false])
  {
    CommandBits(v, r, sl, e, x, l);
    hide EndsInterrupt, NamesLine, NamedLine;
    forall f: nat | f < 8 && p.isr[f] && (forall j :: 0 <= j < f ==> !p.isr[j])
      ensures Lowest(p.isr) == f
    {
      hide Lowest;
    }
  }

  lemma CommandBits(v: byte, r: nat, sl: nat, e: nat, x: nat, l: nat)
    requires r < 2 && sl < 2 && e < 2 && x < 4 && l < 8
    requires v as int == 0x80 * r + 0x40 * sl + 0x20 * e + 8 * x + l
    ensures EndsInterrupt(v) == (e == 1) && NamesLine(v) == (sl == 1) && NamedLine(v) == l
  {
    Above(v as int, 0x20, 4 * r + 2 * sl + e, 8 * x + l);
    LowBit(2 * r + sl, e);
    Above(v as int, 0x40, 2 * r + sl, 0x20 * e + 8 * x + l);
    LowBit(r, sl);
    Eighth(0x10 * r + 8 * sl + 4 * e + x, l);
  }

  /** A single line in service is ended by naming it and by not naming it. */
  function EndOf(line: nat, specific: bool): byte
    requires line < 8
  {
    if specific then 0x60 + line else 0x20
  }

  lemma EndsOnly(p: Chip, line: nat, specific: bool)
    requires line < 8 && p.stage == 0 && p.isr == Only(line)
    ensures Command(p, EndOf(line, specific)) == p.(isr := NONE)
  {
    var v := EndOf(line, specific);
    EndOfInterrupt(p, v, 0, if specific then 1 else 0, 1, 0, if specific then line else 0);
    hide Command;
    assert forall j :: 0 <= j < line ==> !p.isr[j];
    assert p.isr[line := false] == NONE;
  }

  // ------------------------------------------------------------- the whole life of an interrupt

  /** The events from a check to the next of the same line. */
  function Again(line: nat, specific: bool): seq<Event>
    requires line < 8
  {
    [Check(true), ToCommand(false, EndOf(line, specific)), Raise(false, line), Check(true)]
  }

  /** A refused slave stays refused. */
  lemma SlaveStillSilent(s: Chip)
    requires s.stage == 0 && !Poll(s).1
    ensures !Poll(Poll(s).0).1
  {
    PollEffect(s);
    var t := Poll(s).0;
    PollEffect(t);
    LaterAsking(s);
    hide Poll, Passes, Asking;
    if Asking(t) < 8 && Asking(s) < 8 && Passes(s.isr, Asking(t)) {
      PassesBelow(s.isr, Asking(t), Asking(s));
    }
  }

  lemma LaterAsking(s: Chip)
    requires s.stage == 0
    ensures Asking(s) <= Asking(Poll(s).0)
  {
    var t := Poll(s).0;
    AskingParts(s);
    AskingParts(t);
    hide Passes, Asking;
  }

  lemma AskingParts(p: Chip)
    ensures Asking(p) < 8 ==> p.wired[Asking(p)] && !p.imr[Asking(p)] && p.raised[Asking(p)]
    ensures forall j :: 0 <= j < Asking(p) ==> !(p.wired[j] && !p.imr[j] && p.raised[j])
  {
    hide Lowest;
    var r: Lines := seq(8, i requires 0 <= i < 8 => p.wired[i] && !p.imr[i] && p.raised[i]);
    assert forall j :: 0 <= j < 8 ==> r[j] == (p.wired[j] && !p.imr[j] && p.raised[j]);
    assert Asking(p) == Lowest(r);
  }

  /** An idle master with no automatic end of interrupt takes an interrupt of a device; its
      handler ends it, in either way, and the master is idle again; the device asks again,
      and the same line is accepted with the same vector. */
  lemma ServedAgain(y: System, specific: bool)
    requires Configured(y) && y.m.isr == NONE && y.m.icw4 as int / 2 % 2 == 0
    requires var line := PolledLine(y.m, y.s); line < 8 && line != 2
    ensures var line := PolledLine(y.m, y.s); var run := Run(y, Again(line, specific)[..2]);
            run.Some? && run.value.m.isr == NONE
    ensures var line := PolledLine(y.m, y.s); var run := Run(y, Again(line, specific));
            var vector := y.m.icw2 as int / 8 * 8 + line;
            run.Some? && run.value.queue == y.queue + [vector] + [vector] && run.value.m.isr == Only(line)
  {
    hide Configured, PolledLine, CheckIrq, Poll, MasterAsking, SlaveOpen, Command, Run, Again, EndOf;
    var line := PolledLine(y.m, y.s);
    var z := FirstCheck(y, line);
    var w := z.(m := z.m.(isr := NONE));
    var again := w.(m := w.m.(raised := w.m.raised[line := true]));
    EndsOnly(z.m, line, specific);
    SameLineAgain(y, z, again, line);
    var last := FirstCheck(again, line);
    RunOfFour(y, z, w, again, last, line, specific);
  }

  lemma FirstCheck(y: System, line: nat) returns (z: System)
    requires Configured(y) && y.m.isr == NONE && y.m.icw4 as int / 2 % 2 == 0
    requires line == PolledLine(y.m, y.s) && line < 8 && line != 2
    ensures CheckIrq(y, true) == Some((z, true)) && Configured(z) && z.m.stage == 0
    ensures z.m == y.m.(raised := y.m.raised[line := false], isr := Only(line))
    ensures z.queue == y.queue + [y.m.icw2 as int / 8 * 8 + line]
    ensures z.s == if SlaveOpen(y.m) && 2 < MasterAsking(y.m) then Poll(y.s).0 else y.s
  {
    CheckEffect(y);
    IdlePasses(line);
    hide Configured, PolledLine, CheckIrq, SlaveOpen, MasterAsking, Poll, Passes;
    z := CheckIrq(y, true).value.0;
  }

  lemma IdlePasses(line: nat)
    requires line < 8
    ensures Passes(NONE, line)
  {
  }

  lemma SameLineAgain(y: System, z: System, again: System, line: nat)
    requires Configured(y) && Configured(z) && line == PolledLine(y.m, y.s) && line < 8 && line != 2
    requires z.m == y.m.(raised := y.m.raised[line := false], isr := Only(line))
    requires z.s == if SlaveOpen(y.m) && 2 < MasterAsking(y.m) then Poll(y.s).0 else y.s
    requires again == z.(m := y.m.(raised := y.m.raised[line := true], isr := NONE))
    ensures PolledLine(again.m, again.s) == line && Configured(again)
  {
    AsksAt(y.m, line);
    SlaveStillSilentIf(y.s);
    hide Poll, MasterAsking;
    SameConfiguration(z.m, again.m);
  }

  lemma SlaveStillSilentIf(s: Chip)
    requires s.stage == 0
    ensures !Poll(s).1 ==> !Poll(Poll(s).0).1
  {
    if !Poll(s).1 {
      SlaveStillSilent(s);
    }
  }

  lemma AsksAt(m: Chip, line: nat)
    requires line < 8 && MasterAsking(m) == line
    ensures m.raised[line]
    ensures m.(raised := m.raised[line := true], isr := NONE) == m.(isr := NONE)
    ensures MasterAsking(m.(isr := NONE)) == line
  {
    hide Lowest;
    assert m.raised[line := true] == m.raised;
  }

  lemma RunOfFour(y: System, z: System, w: System, again: System, last: System, line: nat, specific: bool)
    requires line < 8 && CheckIrq(y, true) == Some((z, true)) && CheckIrq(again, true) == Some((last, true))
    requires w == z.(m := Command(z.m, EndOf(line, specific)))
    requires again == w.(m := w.m.(raised := w.m.raised[line := true]))
    ensures Run(y, Again(line, specific)[..2]) == Some(w) && Run(y, Again(line, specific)) == Some(last)
  {
    hide CheckIrq, Command, EndOf;
    var es := Again(line, specific);
    assert es[..2] == [es[0], es[1]] && es[..2][1..] == [es[1]] && [es[1]][1..] == [];
    assert Run(w, []) == Some(w) && Run(z, [es[1]]) == Some(w);
    assert es[1..][1..] == [es[2], es[3]] && [es[2], es[3]][1..] == [es[3]] && [es[3]][1..] == [];
    assert Run(last, []) == Some(last) && Run(again, [es[3]]) == Some(last);
    assert Run(w, [es[2], es[3]]) == Some(last);
    assert es[1..] == [es[1], es[2], es[3]] && Run(z, es[1..]) == Some(last);
  }

  /** The same for a device of the slave: its handler ends the interrupt at both
      controllers. */
  function CascadedAgain(line: nat, first: bool, second: bool): seq<Event>
    requires line < 8
  {
    [Check(true), ToCommand(true, EndOf(line, first)), ToCommand(false, EndOf(2, second)), Raise(true, line),
     Check(true)]
  }

  lemma CascadedServedAgain(y: System, first: bool, second: bool)
    requires Configured(y) && y.m.isr == NONE && y.s.isr == NONE && y.s.irr == NONE
    requires y.m.icw4 as int / 2 % 2 == 0 && y.s.icw4 as int / 2 % 2 == 0 && PolledLine(y.m, y.s) == 2
    ensures Asking(y.s) < 8
    ensures var line := Asking(y.s); var run := Run(y, CascadedAgain(line, first, second)[..3]);
            run.Some? && run.value.m.isr == NONE && run.value.s.isr == NONE
    ensures var line := Asking(y.s); var run := Run(y, CascadedAgain(line, first, second));
            var vector := y.s.icw2 as int / 8 * 8 + line;
            run.Some? && run.value.queue == y.queue + [vector] + [vector] && run.value.s.isr == Only(line)
  {
    hide Configured, PolledLine, CheckIrq, Poll, MasterAsking, SlaveOpen, Command, Run, CascadedAgain, EndOf, Asking;
    var z, line := CascadedCheck(y);
    var w := z.(s := z.s.(isr := NONE), m := z.m.(isr := NONE));
    var again := w.(s := w.s.(raised := w.s.raised[line := true]));
    EndsOnly(z.s, line, first);
    EndsOnly(z.m, 2, second);
    SameCascadeAgain(y, z, again, line);
    var last, l := CascadedCheck(again);
    RunOfFive(y, z, again, last, line, first, second);
  }

  lemma CascadedCheck(y: System) returns (z: System, line: nat)
    requires Configured(y) && y.m.isr == NONE && y.s.isr == NONE && y.s.irr == NONE
    requires y.m.icw4 as int / 2 % 2 == 0 && y.s.icw4 as int / 2 % 2 == 0 && PolledLine(y.m, y.s) == 2
    ensures line == Asking(y.s) && line < 8
    ensures CheckIrq(y, true) == Some((z, true)) && Configured(z) && z.m.stage == 0 && z.s.stage == 0
    ensures z.m == y.m.(isr := Only(2))
    ensures z.s == y.s.(raised := y.s.raised[line := false], isr := Only(line))
    ensures z.queue == y.queue + [y.s.icw2 as int / 8 * 8 + line]
  {
    CheckEffect(y);
    IdlePasses(2);
    line := Asking(y.s);
    NotCascade(y.m);
    SlavePolled(y.s);
    hide Configured, CheckIrq, SlaveOpen, MasterAsking, Poll, Passes, Asking, Lowest;
    z := CheckIrq(y, true).value.0;
    OneRequest(line);
    assert Only(line)[line := false] == NONE;
  }

  lemma SlavePolled(s: Chip)
    requires s.stage == 0 && s.irr == NONE && Poll(s).1
    ensures Asking(s) < 8 && Poll(s).0 == s.(raised := s.raised[Asking(s) := false], irr := Only(Asking(s)))
  {
    hide Asking, Passes;
  }

  lemma SameCascadeAgain(y: System, z: System, again: System, line: nat)
    requires Configured(y) && Configured(z) && PolledLine(y.m, y.s) == 2 && line == Asking(y.s) && line < 8
    requires y.m.isr == NONE && y.s.isr == NONE && y.s.irr == NONE
    requires z.m == y.m.(isr := Only(2)) && z.s == y.s.(raised := y.s.raised[line := false], isr := Only(line))
    requires again == z.(m := y.m, s := y.s.(raised := y.s.raised[line := true]))
    ensures again.s == y.s && PolledLine(again.m, again.s) == 2 && Configured(again)
  {
    AskingParts(y.s);
    assert y.s.raised[line := true] == y.s.raised;
    hide Asking, PolledLine;
  }

  lemma RunOfFive(y: System, z: System, again: System, last: System, line: nat, first: bool, second: bool)
    requires line < 8 && CheckIrq(y, true) == Some((z, true)) && CheckIrq(again, true) == Some((last, true))
    requires var w := z.(s := Command(z.s, EndOf(line, first)), m := Command(z.m, EndOf(2, second)));
             again == w.(s := w.s.(raised := w.s.raised[line := true]))
    ensures var w := z.(s := Command(z.s, EndOf(line, first)), m := Command(z.m, EndOf(2, second)));
            Run(y, CascadedAgain(line, first, second)[..3]) == Some(w)
    ensures Run(y, CascadedAgain(line, first, second)) == Some(last)
  {
    hide CheckIrq, Command, EndOf;
    var es := CascadedAgain(line, first, second);
    var u := z.(s := Command(z.s, EndOf(line, first)));
    var w := u.(m := Command(z.m, EndOf(2, second)));
    assert es[..3] == [es[0], es[1], es[2]] && es[..3][1..] == [es[1], es[2]] && [es[1], es[2]][1..] == [es[2]];
    assert [es[2]][1..] == [] && Run(w, []) == Some(w) && Run(u, [es[2]]) == Some(w);
    assert Run(z, [es[1], es[2]]) == Some(w);
    assert [es[4]][1..] == [] && Run(last, []) == Some(last) && Run(again, [es[4]]) == Some(last);
    assert [es[3], es[4]][1..] == [es[4]] && Run(w, [es[3], es[4]]) == Some(last);
    assert es[2..] == [es[2], es[3], es[4]] && es[2..][1..] == [es[3], es[4]] && Run(u, es[2..]) == Some(last);
    assert es[1..][1..] == es[2..] && Run(z, es[1..]) == Some(last);
  }
}
