/** The controllers as objects: scan loops over the lines and registers updated in place,
    proved against the functions of module Pic. */
module PicUnits {
  import opened Words
  import opened Pic

  class Unit {
    var wired: Lines
    var raised: Lines
    var imr: Lines
    var irr: Lines
    var isr: Lines
    var icw1: byte
    var icw2: byte
    var icw3: byte
    var icw4: byte
    var stage: int
    // the controller connected to line 2, if any
    const slave: Unit?

    function View(): Chip
      reads this
    {
      Chip(wired, raised, imr, irr, isr, icw1, icw2, icw3, icw4, stage)
    }

    /** The mask and the initialisation words are whatever memory held. */
    constructor (slave: Unit?, wired: Lines, imr: Lines, icw1: byte, icw2: byte, icw3: byte, icw4: byte)
      ensures this.slave == slave
      ensures View() == Chip(wired, NONE, imr, NONE, NONE, icw1, icw2, icw3, icw4, -1)
    {
      this.slave, this.wired, this.imr := slave, wired, imr;
      this.icw1, this.icw2, this.icw3, this.icw4 := icw1, icw2, icw3, icw4;
      raised, irr, isr, stage := NONE, NONE, NONE, -1;
    }

    ghost predicate Cascaded()
      reads this
    {
      slave != null ==> slave != this && slave.slave == null
    }

    /** A device's request is taken by asking for it. */
    method CheckDevice(line: nat) returns (yes: bool)
      requires line < 8
      modifies this`raised
      ensures yes == old(raised)[line]
      ensures raised == if yes then old(raised)[line := false] else old(raised)
    {
      yes := raised[line];
      if yes {
        raised := raised[line := false];
      }
    }

    /** Asks the lines in turn until one says yes; that line becomes a request if it may
        interrupt what is in service. */
    method PollNextIrq() returns (ok: bool)
      requires Cascaded()
      modifies this`raised, this`irr, if slave == null then {} else {slave}
      ensures slave == null ==> (View(), ok) == Poll(old(View()))
      ensures slave != null ==> (View(), slave.View(), ok) == PollWithSlave(old(View()), old(slave.View()))
      decreases if slave == null then 0 else 1
    {
      hide Lowest, Value, Weight, Asking, MasterAsking;
      if stage != 0 {
        return false;
      }
      ghost var answer := if slave == null then (View(), false) else Poll(slave.View());
      var i := 0;
      var found := false;
      while i < 8 && !found
        invariant 0 <= i <= 8 && (found ==> i < 8)
        invariant View() == if found && !(slave != null && i == 2) then old(View()).(raised := old(raised)[i := false])
            else old(View())
        invariant found && !(slave != null && i == 2) ==> Unmasked(old(View()), i) && old(raised)[i]
        invariant forall j :: 0 <= j < i && Unmasked(old(View()), j) && !(slave != null && j == 2) ==> !old(raised)[j]
        invariant slave != null && i > 2 && Unmasked(old(View()), 2) ==> !answer.1
        invariant slave != null && found && i == 2 ==> Unmasked(old(View()), 2) && answer.1
        invariant slave != null ==>
                    slave.View() == if Unmasked(old(View()), 2) && (i > 2 || (i == 2 && found)) then answer.0
                      else old(slave.View())
        decreases 8 - i, !found
      {
        if wired[i] && !imr[i] {
          if slave != null && i == 2 {
            found := slave.PollNextIrq();
          } else {
            found := CheckDevice(i);
          }
        }
        if !found {
          i := i + 1;
        }
      }
      if slave == null {
        AskingIs(old(View()), i);
      } else {
        MasterAskingIs(old(View()), i);
      }
      if i == 8 {
        return false;
      }
      if Value(isr) != 0 && Weight(i) >= Value(isr) {
        return false;
      }
      irr := irr[i := true];
      ok := true;
    }

    method GetNextIntrNum(master: Unit?) returns (ok: bool, n: int)
      requires master != this
      modifies this`irr, this`isr
      ensures master == null ==> ok && (View(), n) == AcknowledgeMaster(old(View()))
      ensures master != null ==> ok == AcknowledgeSlave(old(View()), master.View()).Some?
      ensures master != null && ok ==> (View(), n) == AcknowledgeSlave(old(View()), master.View()).value
    {
      hide Lowest, LinesOf, VectorOf;
      var line := 0;
      while line < 8 && !irr[line]
        invariant line <= 8 && forall j :: 0 <= j < line ==> !irr[j]
      {
        line := line + 1;
      }
      LowestIs(irr, line);
      if line == 8 {
        return true, SLAVE_INTR;
      }
      ghost var before := View();
      if !AutoEoi(View()) {
        isr := isr[line := true];
      }
      irr := irr[line := false];
      assert View() == InService(before, line);
      assert VectorOf(View(), line) == VectorOf(before, line) by { VectorKept(before, View(), line); }
      if master == null && !Single(View()) && LinesOf(icw3)[line] {
        return true, SLAVE_INTR;
      }
      if master != null && (Single(master.View()) || !LinesOf(master.icw3)[icw3 % 8]) {
        return false, 0;
      }
      return true, Signed8(VectorOf(View(), line));
    }

    method SendCommand(v: byte)
      modifies this`icw1, this`stage, this`isr
      ensures View() == Command(old(View()), v)
    {
      hide Lowest;
      if stage == -1 {
        icw1, stage := v, 2;
        return;
      }
      if EndsInterrupt(v) {
        if NamesLine(v) {
          isr := isr[v % 8 := false];
        } else {
          var line := 0;
          while line < 8 && !isr[line]
            invariant line <= 8 && forall j :: 0 <= j < line ==> !isr[j]
          {
            line := line + 1;
          }
          LowestIs(isr, line);
          if line < 8 {
            isr := isr[line := false];
          }
        }
      }
    }

    /** A byte for the data port: when it completes the initialisation, whatever is on each
        line is asked once, a slave by polling it, and the answers are forgotten. */
    method SendData(v: byte)
      requires Cascaded()
      modifies this, if slave == null then {} else {slave}
      ensures slave == null ==> View() == var (p, done) := Data(old(View()), v); if done then Settled(p) else p
      ensures slave != null ==>
                var y := System(old(View()), old(slave.View()), []);
                System(View(), slave.View(), []) == MasterData(y, v)
    {
      hide LinesOf, Poll, PollWithSlave;
      var done := TakeData(v);
      if done {
        ghost var before := View();
        ghost var polled := if slave == null then View() else Poll(slave.View()).0;
        var i := 0;
        while i < 8
          invariant 0 <= i <= 8 && View() == before.(raised := raised)
          invariant forall j :: 0 <= j < 8 ==>
                      raised[j] == (before.raised[j] && (j >= i || !wired[j] || (slave != null && j == 2)))
          invariant slave != null ==> slave.slave == null && slave != this
          invariant slave != null ==> slave.View() == if i > 2 && wired[2] then polled else old(slave.View())
        {
          if wired[i] {
            if slave != null && i == 2 {
              var _ := slave.PollNextIrq();
            } else {
              var _ := CheckDevice(i);
            }
          }
          i := i + 1;
        }
        assert slave == null ==> raised == Settled(before).raised;
        assert slave != null ==> raised == SettledMaster(before).raised;
      }
    }

    method TakeData(v: byte) returns (done: bool)
      modifies this`icw2, this`icw3, this`icw4, this`stage, this`imr
      ensures (View(), done) == Data(old(View()), v)
    {
      hide LinesOf;
      if stage == 0 || stage == -1 {
        imr := LinesOf(v);
        return false;
      }
      if stage == 2 {
        icw2 := v;
        done := icw1 / 2 % 2 == 1;
      } else if stage == 3 {
        icw3 := v;
        done := icw1 % 2 == 0;
      } else {
        if stage == 4 {
          icw4 := v;
        }
        done := true;
      }
      stage := if done then 0 else stage + 1;
    }
  }

  /** The two controllers and the queue the processor takes interrupts from. */
  class InterruptsSystem {
    const master: Unit
    const slave: Unit
    var queue: seq<byte>

    ghost predicate Valid()
    {
      master.slave == slave && slave.slave == null && master != slave
    }

    function View(): System
      reads this, master, slave
    {
      System(master.View(), slave.View(), queue)
    }

    constructor (master: Unit, slave: Unit)
      requires master.slave == slave && slave.slave == null && master != slave
      ensures Valid() && this.master == master && this.slave == slave && queue == []
    {
      this.master, this.slave, queue := master, slave, [];
    }

    /** Polls for a hardware interrupt and queues it; `alive` is false when the program
        ends in the attempt. */
    method ChkIrq(interrupts: bool) returns (alive: bool, found: bool)
      requires Valid()
      modifies this`queue, master, slave
      ensures alive == CheckIrq(old(View()), interrupts).Some?
      ensures alive ==> (View(), found) == CheckIrq(old(View()), interrupts).value
    {
      hide PollWithSlave, AcknowledgeMaster, AcknowledgeSlave;
      if !interrupts {
        return true, false;
      }
      var ok := master.PollNextIrq();
      if !ok {
        return true, false;
      }
      var n;
      ok, n := master.GetNextIntrNum(null);
      if n == SLAVE_INTR {
        ok, n := slave.GetNextIntrNum(master);
        if !ok {
          return false, false;
        }
      }
      queue := queue + [n % 0x100];
      return true, true;
    }
  }

  lemma VectorKept(p: Chip, q: Chip, line: nat)
    requires line < 8 && q == p.(irr := q.irr, isr := q.isr)
    ensures VectorOf(p, line) == VectorOf(q, line)
  {
  }

  lemma LowestIs(r: Lines, line: nat)
    requires line <= 8 && (line < 8 ==> r[line]) && forall j :: 0 <= j < line ==> !r[j]
    ensures Lowest(r) == line
  {
    hide Lowest;
  }

  predicate Unmasked(p: Chip, line: nat)
    requires line < 8
  {
    p.wired[line] && !p.imr[line]
  }

  /** Where a scan that found nobody before line i, and somebody there, ends. */
  lemma AskingIs(p: Chip, i: nat)
    requires i <= 8 && (i < 8 ==> Unmasked(p, i) && p.raised[i])
    requires forall j :: 0 <= j < i && Unmasked(p, j) ==> !p.raised[j]
    ensures Asking(p) == i
  {
    hide Lowest;
    var r: Lines := seq(8, j requires 0 <= j < 8 => p.wired[j] && !p.imr[j] && p.raised[j]);
    assert forall j :: 0 <= j < 8 ==> r[j] == (Unmasked(p, j) && p.raised[j]);
    LowestIs(r, i);
  }

  lemma MasterAskingIs(m: Chip, i: nat)
    requires i <= 8 && (i < 8 && i != 2 ==> Unmasked(m, i) && m.raised[i])
    requires forall j :: 0 <= j < i && Unmasked(m, j) && j != 2 ==> !m.raised[j]
    ensures if i == 2 then 2 < MasterAsking(m) else MasterAsking(m) == i
  {
    hide Lowest;
    var r: Lines := seq(8, j requires 0 <= j < 8 => j != 2 && m.wired[j] && !m.imr[j] && m.raised[j]);
    assert forall j :: 0 <= j < 8 ==> r[j] == (j != 2 && Unmasked(m, j) && m.raised[j]);
    if i != 2 {
      LowestIs(r, i);
    } else {
      assert !r[2] && MasterAsking(m) == Lowest(r);
    }
  }
}
