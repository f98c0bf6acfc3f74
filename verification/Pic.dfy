/** The cascaded interrupt controllers: initialisation, polling, acknowledgement and end
    of interrupt, and the check for hardware interrupts that drives them. */
module Pic {
  import opened Words

  // ------------------------------------------------------------- registers by line

  /** A register of eight lines. */
  type Lines = r: seq<bool> | |r| == 8 witness seq(8, _ => false)

  const NONE: Lines := [false, false, false, false, false, false, false, false]

  function Weight(line: nat): nat
    requires line < 8
  {
    [1, 2, 4, 8, 16, 32, 64, 128][line]
  }

  /** The register as the byte the program keeps it in. */
  function Value(r: Lines): byte {
    (if r[0] then 1 else 0) + (if r[1] then 2 else 0) + (if r[2] then 4 else 0) + (if r[3] then 8 else 0)
    + (if r[4] then 16 else 0) + (if r[5] then 32 else 0) + (if r[6] then 64 else 0) + (if r[7] then 128 else 0)
  }

  function LinesOf(v: byte): Lines {
    seq(8, i requires 0 <= i < 8 => v / Weight(i) % 2 == 1)
  }

  /** The first line that is set, or 8. */
  function Lowest(r: Lines): (line: nat)
    ensures line <= 8 && (line < 8 ==> r[line])
    ensures forall j :: 0 <= j < line ==> !r[j]
  {
    if r[0] then 0 else if r[1] then 1 else if r[2] then 2 else if r[3] then 3
    else if r[4] then 4 else if r[5] then 5 else if r[6] then 6 else if r[7] then 7 else 8
  }

  predicate Any(r: Lines) {
    Lowest(r) < 8
  }

  /** The last line that is set. */
  function Highest(r: Lines): (line: nat)
    requires Any(r)
    ensures line < 8 && r[line]
    ensures forall j :: line < j < 8 ==> !r[j]
  {
    if r[7] then 7 else if r[6] then 6 else if r[5] then 5 else if r[4] then 4
    else if r[3] then 3 else if r[2] then 2 else if r[1] then 1 else 0
  }

  /** The comparison the poll makes with the whole in-service byte, read by lines: below
      the highest line in service, or that line itself when another is in service too. */
  lemma BelowMask(r: Lines, line: nat)
    requires Any(r) && line < 8
    ensures Weight(line) < Value(r) <==>
            line < Highest(r) || (line == Highest(r) && Lowest(r) < Highest(r))
  {
  }

  lemma ValueOfNone(r: Lines)
    ensures Value(r) == 0 <==> !Any(r)
  {
  }

  // ------------------------------------------------------------- one controller

  /** `wired` are the lines with a device, `raised` the requests of those devices.
      `stage` is -1 before initialisation, 0 after it, else the number of the next
      initialisation word. */
  datatype Chip = Chip(wired: Lines, raised: Lines, imr: Lines, irr: Lines, isr: Lines,
                       icw1: byte, icw2: byte, icw3: byte, icw4: byte, stage: int)

  predicate Single(p: Chip) { p.icw1 / 2 % 2 == 1 }
  predicate WantsIcw4(p: Chip) { p.icw1 % 2 == 1 }
  predicate AutoEoi(p: Chip) { p.icw4 / 2 % 2 == 1 }
  predicate Mode8086(p: Chip) { p.icw4 % 2 == 1 }

  /** The test a polled line must pass to become a request. */
  predicate Passes(isr: Lines, line: nat)
    requires line < 8
  {
    Value(isr) == 0 || Weight(line) < Value(isr)
  }

  /** What a poll does with the first line that asks. */
  function Request(p: Chip, line: nat): (Chip, bool)
    requires line <= 8
  {
    if line == 8 || !Passes(p.isr, line) then (p, false) else (p.(irr := p.irr[line := true]), true)
  }

  function Consumed(p: Chip, line: nat): Chip
    requires line <= 8
  {
    if line == 8 then p else p.(raised := p.raised[line := false])
  }

  /** The first line whose device asks and is not masked, or 8. */
  function Asking(p: Chip): (line: nat)
    ensures line <= 8
  {
    Lowest(seq(8, i requires 0 <= i < 8 => p.wired[i] && !p.imr[i] && p.raised[i]))
  }

  function Poll(p: Chip): (Chip, bool) {
    if p.stage != 0 then (p, false)
    else
      Request(Consumed(p, Asking(p)), Asking(p))
  }

  /** The devices of the master that ask and are not masked; not its slave, on line 2. */
  function MasterAsking(m: Chip): (line: nat)
    ensures line <= 8
  {
    Lowest(seq(8, i requires 0 <= i < 8 => i != 2 && m.wired[i] && !m.imr[i] && m.raised[i]))
  }

  /** The slave's line is not masked. */
  predicate SlaveOpen(m: Chip) {
    m.wired[2] && !m.imr[2]
  }

  /** The poll of a master: the slave is polled in its turn, when no device on an earlier
      line asks, and what its poll does to it stays done. */
  function PollWithSlave(m: Chip, s: Chip): (Chip, Chip, bool) {
    if m.stage != 0 then (m, s, false)
    else
      var (t, yes) := if SlaveOpen(m) && 2 < MasterAsking(m) then Poll(s) else (s, false);
      var line := if yes then 2 else MasterAsking(m);
      var (n, ok) := Request(if yes then m else Consumed(m, line), line);
      (n, t, ok)
  }

  // ------------------------------------------------------------- acknowledgement

  function Signed8(x: byte): int {
    if x < 0x80 then x else x - 0x100
  }

  function Offset(p: Chip): byte {
    if Mode8086(p) then p.icw2 / 8 * 8 else p.icw1 / 32 + p.icw2 % 8 * 8
  }

  function VectorOf(p: Chip, line: nat): byte
    requires line < 8
  {
    (Offset(p) + line) % 0x100
  }

  function InService(p: Chip, line: nat): Chip
    requires line < 8
  {
    p.(irr := p.irr[line := false], isr := if AutoEoi(p) then p.isr else p.isr[line := true])
  }

  /** The signed byte that stands for "the slave knows", and for "no request". */
  const SLAVE_INTR := -1

  function AcknowledgeMaster(p: Chip): (Chip, int) {
    var line := Lowest(p.irr);
    if line == 8 then (p, SLAVE_INTR)
    else if !Single(p) && LinesOf(p.icw3)[line] then (InService(p, line), SLAVE_INTR)
    else (InService(p, line), Signed8(VectorOf(p, line)))
  }

  /** The slave's answer; None when the master it was set up for does not have it, which
      ends the program. */
  function AcknowledgeSlave(p: Chip, m: Chip): Option<(Chip, int)> {
    var line := Lowest(p.irr);
    if line == 8 then Some((p, SLAVE_INTR))
    else if Single(m) || !LinesOf(m.icw3)[NamedLine(p.icw3)] then None
    else Some((InService(p, line), Signed8(VectorOf(p, line))))
  }

  // ------------------------------------------------------------- commands

  // operation command word 2
  predicate EndsInterrupt(v: byte) { v / 32 % 2 == 1 }
  predicate NamesLine(v: byte) { v / 64 % 2 == 1 }

  function NamedLine(v: byte): (line: nat)
    ensures line < 8
  {
    v % 8
  }

  function Command(p: Chip, v: byte): Chip {
    if p.stage == -1 then p.(icw1 := v, stage := 2)
    else if !EndsInterrupt(v) then p
    else if NamesLine(v) then p.(isr := p.isr[NamedLine(v) := false])
    else if !Any(p.isr) then p
    else p.(isr := p.isr[Lowest(p.isr) := false])
  }

  /** A byte for the data port; true when it completes the initialisation. */
  function Data(p: Chip, v: byte): (Chip, bool) {
    if p.stage == 0 || p.stage == -1 then (p.(imr := LinesOf(v)), false)
    else if p.stage == 2 then
      if Single(p) then (p.(icw2 := v, stage := 0), true) else (p.(icw2 := v, stage := 3), false)
    else if p.stage == 3 then
      if WantsIcw4(p) then (p.(icw3 := v, stage := 4), false) else (p.(icw3 := v, stage := 0), true)
    else if p.stage == 4 then (p.(icw4 := v, stage := 0), true)
    else (p.(stage := 0), true)
  }

  /** Completing the initialisation asks every device once and forgets the answers. */
  function Settled(p: Chip): Chip {
    p.(raised := seq(8, i requires 0 <= i < 8 => p.raised[i] && !p.wired[i]))
  }

  function SettledMaster(m: Chip): Chip {
    m.(raised := seq(8, i requires 0 <= i < 8 => m.raised[i] && (!m.wired[i] || i == 2)))
  }

  // ------------------------------------------------------------- both controllers

  datatype System = System(m: Chip, s: Chip, queue: seq<byte>)

  function CheckIrq(y: System, interrupts: bool): Option<(System, bool)> {
    if !interrupts then Some((y, false))
    else
      var (m, s, ok) := PollWithSlave(y.m, y.s);
      if !ok then Some((y.(m := m, s := s), false))
      else
        var (n, id) := AcknowledgeMaster(m);
        if id != SLAVE_INTR then Some((System(n, s, y.queue + [id % 0x100]), true))
        else
          var a := AcknowledgeSlave(s, n);
          if a.None? then None else Some((System(n, a.value.0, y.queue + [a.value.1 % 0x100]), true))
  }

  function MasterData(y: System, v: byte): System {
    var (m, done) := Data(y.m, v);
    if done then y.(m := SettledMaster(m),
                    s := if m.wired[2] then Poll(y.s).0 else y.s)
    else y.(m := m)
  }

  function SlaveData(y: System, v: byte): System {
    var (s, done) := Data(y.s, v);
    y.(s := if done then Settled(s) else s)
  }

  /** Whatever the machine does that concerns the controllers. */
  datatype Event = Raise(slave: bool, line: nat)
                 | Check(interrupts: bool)
                 | ToCommand(slave: bool, v: byte)
                 | ToData(slave: bool, v: byte)
                 | Taken

  /** One event; None when the program ends. */
  function Happen(y: System, e: Event): Option<System> {
    match e
    case Raise(slave, line) =>
      if line >= 8 then Some(y)
      else if slave then Some(y.(s := y.s.(raised := y.s.raised[line := true])))
      else Some(y.(m := y.m.(raised := y.m.raised[line := true])))
    case Check(interrupts) =>
      var r := CheckIrq(y, interrupts);
      if r.None? then None else Some(r.value.0)
    case ToCommand(slave, v) => Some(if slave then y.(s := Command(y.s, v)) else y.(m := Command(y.m, v)))
    case ToData(slave, v) => Some(if slave then SlaveData(y, v) else MasterData(y, v))
    case Taken => Some(if y.queue == [] then y else y.(queue := y.queue[1..]))
  }

  function Run(y: System, events: seq<Event>): Option<System>
    decreases |events|
  {
    if events == [] then Some(y)
    else
      var t := Happen(y, events[0]);
      if t.None? then None else Run(t.value, events[1..])
  }
}
