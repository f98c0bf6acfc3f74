/** The exchange between the BIOS disk routines on the CPU thread and the worker
    thread of the floppy controller, as interleaved atomic steps.  Every access to a
    shared field is a step of its own; what a thread does to its private state rides
    along with the access before it.  `None` is a thread that spins. */
module FloppyProtocol {
  import opened Words
  import opened FloppyDrive

  // ------------------------------------------------------------- the client

  /** One sector transfer of `disk.asm`, or the configure command of the BIOS. */
  datatype Request = Configure(a: byte, b: byte, c: byte)
                   | ReadSector(slot: byte, track: byte, head: byte, sector: byte, buf: u16)
                   | WriteSector(slot: byte, track: byte, head: byte, sector: byte, buf: u16)

  const FDD_READ_TRACK: byte := 0x02
  const FDD_WRITE_DATA: byte := 0x05
  const FDD_READ_DATA: byte := 0x06
  const FDD_CONFIGURE: byte := 0x13

  /** The command byte and its eight (or three) arguments, in the order of the stack
      bytes that `fdd_args` sends: drive, cylinder, head, sector, N, EOT, GPL, DTL. */
  function Header(r: Request): seq<byte> {
    match r
    case Configure(a, b, c) => [0x13, a, b, c]
    case ReadSector(slot, track, head, sector, _) => [0x06, slot, track, head, sector, 0x02, 0x12, 0x00, 0xff]
    case WriteSector(slot, track, head, sector, _) =>
      [0x05, slot, track, head, sector, 0x02, 0x12, 0x00, 0xff]
  }

  /** `cmp bx, di` / `jl`: a signed comparison of two offsets. */
  predicate JumpLess(bx: u16, di: u16) {
    Signed16(bx) < Signed16(di)
  }

  /** The loop over the buffer goes on after its i-th byte. */
  predicate LoopAgain(buf: u16, i: nat) {
    JumpLess(Wrap16(buf + i), Wrap16(buf + 0x200))
  }

  datatype Stage = Data | Status

  datatype CpuPc = Send(k: nat)                        // out dx, al
                 | AwaitRqm                            // read_busywait
                 | AwaitInt(stage: Stage, k: nat)      // read_datareg: while (!sra.INT)
                 | Load(stage: Stage, k: nat)          // read_datareg: v = curr_command
                 | Lower(stage: Stage, k: nat, v: byte) // read_datareg: sra.INT = 0
                 | Halted

  // ------------------------------------------------------------- the worker

  datatype WorkerPc = Poll                                             // while (queue.empty())
                    | TakeCommand
                    | SetRqm(cmd: byte)
                    | TakeArgs(cmd: byte, args: seq<byte>)
                    | SeekSector(cmd: byte, args: seq<byte>)
                    | TakeData(cmd: byte, args: seq<byte>, k: nat)
                    | Fetch(cmd: byte, args: seq<byte>, k: nat)
                    | AwaitFree(cmd: byte, args: seq<byte>, k: nat, v: byte)  // while (sra.INT)
                    | Store(cmd: byte, args: seq<byte>, k: nat, v: byte)      // curr_command = v
                    | Raise(cmd: byte, args: seq<byte>, k: nat, v: byte)      // sra.INT = 1
                    | ClearRqm
                    | Crashed                                                 // DEBUG_ERROR

  /** The whole machine.  `issued` counts the requests the CPU has finished, `served`
      the commands the worker has finished, and `got` is the history of the bytes
      read in the current exchange: the last two only record what happened. */
  datatype Machine = Machine(queue: seq<byte>, max: nat, intr: bool, curr: byte, rqm: bool,
                             worker: WorkerPc, drives: seq<Drive>, eis: bool, st: seq<byte>, served: nat,
                             cpu: CpuPc, ram: seq<byte>, issued: nat, got: seq<byte>)

  predicate WellFormed(m: Machine) {
    |m.drives| == 4 && |m.st| == 3 && |m.ram| == 0x1_0000
  }

  function Pow2(n: nat): nat {
    if n == 0 then 1 else 2 * Pow2(n - 1)
  }

  function ArgCount(cmd: byte): nat {
    if cmd == FDD_CONFIGURE then 3 else 8
  }

  /** Bytes transferred by a command: 128 times 2 to the N, and a whole track of
      sectors for `FDD_READ_TRACK`. */
  function ByteCount(cmd: byte, args: seq<byte>): nat
    requires |args| == 8
  {
    if cmd == FDD_READ_TRACK then Pow2(args[4]) * 128 * 18 else Pow2(args[4]) * 128
  }

  function BytesToHost(cmd: byte, args: seq<byte>): nat
    requires |args| == 8
  {
    if cmd == FDD_WRITE_DATA then 0 else ByteCount(cmd, args)
  }

  function StatusByte(m: Machine, args: seq<byte>, j: nat): byte
    requires WellFormed(m) && |args| == 8 && j < 7
  {
    var d := m.drives[args[0] % 4];
    if j < 3 then m.st[j]
    else if j == 3 then d.track % 0x100
    else if j == 4 then d.head % 0x100
    else if j == 5 then d.sector % 0x100
    else args[4]
  }

  function SeekTarget(cmd: byte, args: seq<byte>): (int, int, int)
    requires |args| == 8
  {
    (args[1], args[2], if cmd == FDD_READ_TRACK then 1 else args[3])
  }

  function TakeCommandStep(m: Machine): Option<Machine> {
    if m.queue == [] then None else
      var cmd := m.queue[0];
      var n := m.(queue := m.queue[1..]);
      if cmd >= 32 then Some(n.(worker := Crashed))
      else if cmd == FDD_CONFIGURE then Some(n.(worker := TakeArgs(cmd, [])))
      else if cmd in {FDD_READ_TRACK, FDD_WRITE_DATA, FDD_READ_DATA} then Some(n.(worker := SetRqm(cmd)))
      else Some(n.(curr := 0x80, worker := Poll))
  }

  /** Which command bytes the worker knows: 2, 5 and 6 transfer, 0x13 configures, 32 and
      more end the program, and to any other it answers with 0x80 at once. */
  lemma CommandBytes(m: Machine)
    requires m.queue != []
    ensures var n := TakeCommandStep(m).value; var cmd := m.queue[0];
            && TakeCommandStep(m).Some? && n.queue == m.queue[1..]
            && (n.worker == SetRqm(cmd) <==> cmd == 2 || cmd == 5 || cmd == 6)
            && (n.worker == TakeArgs(cmd, []) <==> cmd == 0x13) && (n.worker == Crashed <==> cmd >= 32)
            && (n.worker == Poll ==> n.curr == 0x80) && (n.worker != Poll ==> n.curr == m.curr)
            && n == m.(queue := n.queue, worker := n.worker, curr := n.curr)
  {
  }

  /** A track read, command 2, starts at sector 1 whatever sector it names, and transfers
      eighteen sectors; the other two start at the sector named and transfer one.  What
      the eighteen are, `FloppyDrive.TrackBytes` says. */
  lemma TransferSizes(cmd: byte, args: seq<byte>)
    requires |args| == 8 && args[4] == 2 && (cmd == 2 || cmd == 5 || cmd == 6)
    ensures SeekTarget(cmd, args) == (args[1], args[2], if cmd == 2 then 1 else args[3])
    ensures BytesToHost(cmd, args) == if cmd == 2 then 9216 else if cmd == 6 then 512 else 0
    ensures ArgCount(cmd) == 8
  {
    assert Pow2(2) == 2 * Pow2(1) == 4;
  }

  function TakeArgsStep(m: Machine, cmd: byte, args: seq<byte>): Option<Machine> {
    if m.queue == [] then None else
      var more := args + [m.queue[0]];
      var n := m.(queue := m.queue[1..]);
      if |more| != ArgCount(cmd) then Some(n.(worker := TakeArgs(cmd, more)))
      else if cmd == FDD_CONFIGURE then
        Some(n.(eis := more[1] / 64 % 2 == 1, worker := Poll, served := m.served + 1))
      else Some(n.(worker := SeekSector(cmd, more)))
  }

  function SeekStep(m: Machine, cmd: byte, args: seq<byte>): Option<Machine>
    requires WellFormed(m) && |args| == 8
  {
    var slot := args[0] % 4;
    var (t, h, s) := SeekTarget(cmd, args);
    var sought := if m.eis then Seek(m.drives[slot], t, h, s) else Some(m.drives[slot]);
    if sought.None? then Some(m.(worker := Crashed))
    else Some(m.(drives := m.drives[slot := sought.value],
                 worker := if cmd == FDD_WRITE_DATA then TakeData(cmd, args, 0) else Fetch(cmd, args, 0)))
  }

  function TakeDataStep(m: Machine, cmd: byte, args: seq<byte>, k: nat): Option<Machine>
    requires WellFormed(m) && |args| == 8
  {
    if k >= ByteCount(cmd, args) then Some(m.(worker := Fetch(cmd, args, 0)))
    else if m.queue == [] then None
    else
      var slot := args[0] % 4;
      if !m.drives[slot].present then Some(m.(worker := Crashed))
      else Some(m.(queue := m.queue[1..],
                   drives := m.drives[slot := WriteByte(m.drives[slot], m.queue[0])],
                   worker := TakeData(cmd, args, k + 1)))
  }

  function FetchStep(m: Machine, cmd: byte, args: seq<byte>, k: nat): Option<Machine>
    requires WellFormed(m) && |args| == 8
  {
    var count := BytesToHost(cmd, args);
    if k >= count + 7 then Some(m.(worker := ClearRqm))
    else if k >= count then Some(m.(worker := AwaitFree(cmd, args, k, StatusByte(m, args, k - count))))
    else
      var slot := args[0] % 4;
      if !m.drives[slot].present then Some(m.(worker := Crashed))
      else
        var (d, v) := ReadByte(m.drives[slot]);
        Some(m.(drives := m.drives[slot := d], worker := AwaitFree(cmd, args, k, v)))
  }

  /** One step of the worker thread. */
  function WorkerStep(m: Machine): Option<Machine>
    requires WellFormed(m)
  {
    match m.worker
    case Poll => if m.queue == [] then None else Some(m.(worker := TakeCommand))
    case TakeCommand => TakeCommandStep(m)
    case SetRqm(cmd) => Some(m.(rqm := true, worker := TakeArgs(cmd, [])))
    case TakeArgs(cmd, args) => TakeArgsStep(m, cmd, args)
    case SeekSector(cmd, args) => if |args| != 8 then None else SeekStep(m, cmd, args)
    case TakeData(cmd, args, k) => if |args| != 8 then None else TakeDataStep(m, cmd, args, k)
    case Fetch(cmd, args, k) => if |args| != 8 then None else FetchStep(m, cmd, args, k)
    case AwaitFree(cmd, args, k, v) => if m.intr then None else Some(m.(worker := Store(cmd, args, k, v)))
    case Store(cmd, args, k, v) => Some(m.(curr := v, worker := Raise(cmd, args, k, v)))
    case Raise(cmd, args, k, v) => Some(m.(intr := true, worker := Fetch(cmd, args, k + 1)))
    case ClearRqm => Some(m.(rqm := false, worker := Poll, served := m.served + 1))
    case Crashed => None
  }

  /** Where the CPU goes once a request is over. */
  function NextRequest(m: Machine, prog: seq<Request>): Machine {
    m.(issued := m.issued + 1, got := [],
       cpu := if m.issued + 1 < |prog| then Send(0) else Halted)
  }

  /** The byte the CPU sends next: the header, then for a write the buffer. */
  function ByteToSend(m: Machine, r: Request, k: nat): byte
    requires WellFormed(m) && (k < |Header(r)| || r.WriteSector?)
  {
    if k < |Header(r)| then Header(r)[k] else m.ram[Wrap16(r.buf + (k - |Header(r)|))]
  }

  function AfterSend(m: Machine, prog: seq<Request>, r: Request, k: nat): Machine {
    if k < |Header(r)| then m.(cpu := Send(k))
    else match r
      case Configure(_, _, _) => NextRequest(m, prog)
      case ReadSector(_, _, _, _, _) => m.(cpu := AwaitRqm)
      case WriteSector(_, _, _, _, buf) =>
        if k == |Header(r)| || LoopAgain(buf, k - |Header(r)|) then m.(cpu := Send(k))
        else m.(cpu := AwaitInt(Status, 0))
  }

  /** `in al, dx` has completed: in the data loop the byte goes to es:bx. */
  function AfterReceive(m: Machine, prog: seq<Request>, r: Request, stage: Stage, k: nat, v: byte): Machine
    requires WellFormed(m) && (stage.Data? ==> r.ReadSector?)
  {
    var n := m.(intr := false, got := m.got + [v]);
    if stage.Data? then
      var stored := n.(ram := m.ram[Wrap16(r.buf + k) := v]);
      if LoopAgain(r.buf, k + 1) then stored.(cpu := AwaitInt(Data, k + 1))
      else stored.(cpu := AwaitInt(Status, 0))
    else if k + 1 < 7 then n.(cpu := AwaitInt(Status, k + 1))
    else NextRequest(n, prog)
  }

  /** One step of the CPU thread running the requests of a program in order. */
  function CpuStep(m: Machine, prog: seq<Request>): Option<Machine>
    requires WellFormed(m)
  {
    if m.issued >= |prog| then None else
      var r := prog[m.issued];
      match m.cpu
      case Send(k) =>
        if m.max > 0 && |m.queue| >= m.max then None
        else if k >= |Header(r)| && !r.WriteSector? then None
        else Some(AfterSend(m.(queue := m.queue + [ByteToSend(m, r, k)]), prog, r, k + 1))
      case AwaitRqm =>
        if m.rqm then Some(m.(cpu := AwaitInt(Data, 0))) else None
      case AwaitInt(stage, k) =>
        if m.intr then Some(m.(cpu := Load(stage, k))) else None
      case Load(stage, k) =>
        Some(m.(cpu := Lower(stage, k, m.curr)))
      case Lower(stage, k, v) =>
        if stage.Data? && !r.ReadSector? then None
        else Some(AfterReceive(m, prog, r, stage, k, v))
      case Halted => None
  }

  /** An interleaving: at each point either thread moves, or one of them spins. */
  ghost predicate Next(m: Machine, n: Machine, prog: seq<Request>)
    requires WellFormed(m)
  {
    n == m || WorkerStep(m) == Some(n) || CpuStep(m, prog) == Some(n)
  }

  ghost predicate Run(ms: seq<Machine>, prog: seq<Request>) {
    |ms| > 0 && (forall i :: 0 <= i < |ms| ==> WellFormed(ms[i]))
    && forall i :: 0 <= i < |ms| - 1 ==> Next(ms[i], ms[i + 1], prog)
  }

  /** Power-on: nothing queued, the mailbox empty, the worker polling.  RQM is not
      initialised by the constructor, so it may read either way. */
  predicate Initial(m: Machine, prog: seq<Request>) {
    && WellFormed(m)
    && m.queue == [] && !m.intr && m.worker == Poll && m.served == 0
    && m.issued == 0 && m.got == [] && m.cpu == (if prog == [] then Halted else Send(0))
  }

  // ------------------------------------------------------------- the buffer loop

  /** Buffers at which the signed comparison ends the loop after one byte. */
  predicate BadBuffer(buf: u16) {
    0x7e00 <= buf <= 0x7ffe
  }

  /** For every buffer offset, the do-while loop of the BIOS moves 512 bytes exactly
      when the offset is not in the bad range, where it moves one. */
  lemma LoopLength(buf: u16)
    ensures !BadBuffer(buf) ==> forall i {:trigger LoopAgain(buf, i)} ::
            1 <= i <= 512 ==> (LoopAgain(buf, i) <==> i < 512)
    ensures BadBuffer(buf) ==> !LoopAgain(buf, 1)
  {
    forall i | 1 <= i <= 512
      ensures !BadBuffer(buf) ==> (LoopAgain(buf, i) <==> i < 512)
    {
      LoopAt(buf, i);
    }
    LoopAt(buf, 1);
  }

  lemma LoopAt(buf: u16, i: nat)
    requires 1 <= i <= 512
    ensures !BadBuffer(buf) ==> (LoopAgain(buf, i) <==> i < 512)
    ensures BadBuffer(buf) ==> !LoopAgain(buf, 1)
  {
  }

  method CountTransfers(buf: u16) returns (n: nat)
    ensures n == (if BadBuffer(buf) then 1 else 512)
  {
    var bx: int := buf;
    n := 0;
    while true
      invariant bx == Wrap16(buf + n)
      invariant n <= 511 && (n > 0 ==> !BadBuffer(buf))
      decreases 512 - n
    {
      LoopAt(buf, n + 1);
      bx, n := Wrap16(bx + 1), n + 1;
      if !JumpLess(bx, Wrap16(buf + 0x200)) {
        break;
      }
    }
  }
}
