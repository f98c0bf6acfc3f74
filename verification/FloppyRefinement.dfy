/** The two threads together compute what a single thread would on flat disk images:
    an invariant of every interleaving, and what it gives when the program is over. */
module FloppyRefinement {
  import opened Words
  import opened FloppyDrive
  import opened FloppyProtocol

  // ------------------------------------------------------------- the reference

  datatype FlatDisk = FlatDisk(present: bool, image: seq<byte>, cursor: nat)

  datatype Flat = Flat(ram: seq<byte>, disks: seq<FlatDisk>, eis: bool)

  predicate FlatOk(f: Flat) {
    && |f.ram| == 0x1_0000 && |f.disks| == 4
    && forall i :: 0 <= i < 4 && f.disks[i].present ==>
         |f.disks[i].image| == DISK_SZ && f.disks[i].cursor < DISK_SZ && f.disks[i].cursor % 0x200 == 0
  }

  /** The 512 buffer bytes from an offset on, wrapping inside the segment. */
  function Gather(ram: seq<byte>, buf: u16): (s: seq<byte>)
    requires |ram| == 0x1_0000
    ensures |s| == 512
  {
    seq(512, i requires 0 <= i < 512 => ram[Wrap16(buf + i)])
  }

  /** Storing bytes one after the other from an offset on. */
  function Scatter(ram: seq<byte>, buf: u16, bytes: seq<byte>): (r: seq<byte>)
    requires |ram| == 0x1_0000
    ensures |r| == 0x1_0000
  {
    if bytes == [] then ram
    else Scatter(ram, buf, bytes[..|bytes| - 1])[Wrap16(buf + |bytes| - 1) := bytes[|bytes| - 1]]
  }

  predicate Transfers(r: Request) {
    !r.Configure?
  }

  /** With implied seek the sector addressed, otherwise wherever the drive stands. */
  function StartOf(f: Flat, r: Request): int
    requires FlatOk(f) && Transfers(r)
  {
    if f.eis then Base(r.track, r.head, r.sector) else f.disks[r.slot % 4].cursor
  }

  /** What a caller has to respect: a disk in the drive, an address on it, not the
      last sector, and a buffer at which the copy loop works. */
  predicate Allowed(f: Flat, r: Request)
    requires FlatOk(f)
  {
    Transfers(r) ==>
      && f.disks[r.slot % 4].present
      && (f.eis ==> ValidChs(r.track, r.head, r.sector))
      && 0 <= StartOf(f, r) && StartOf(f, r) + 512 < DISK_SZ
      && !BadBuffer(r.buf)
  }

  function Patch(image: seq<byte>, start: nat, data: seq<byte>): seq<byte>
    requires start + |data| <= |image|
  {
    image[..start] + data + image[start + |data|..]
  }

  function Exec(f: Flat, r: Request): Flat
    requires FlatOk(f) && Allowed(f, r)
  {
    match r
    case Configure(_, b, _) => f.(eis := b / 64 % 2 == 1)
    case ReadSector(slot, _, _, _, buf) =>
      var start := StartOf(f, r);
      var disk := f.disks[slot % 4];
      f.(ram := Scatter(f.ram, buf, disk.image[start..start + 512]),
         disks := f.disks[slot % 4 := disk.(cursor := start + 512)])
    case WriteSector(slot, _, _, _, buf) =>
      var start := StartOf(f, r);
      var disk := f.disks[slot % 4];
      f.(disks := f.disks[slot % 4 := disk.(image := Patch(disk.image, start, Gather(f.ram, buf)),
                                            cursor := start + 512)])
  }

  /** The bytes the client sends for a request. */
  function Message(f: Flat, r: Request): (s: seq<byte>)
    requires FlatOk(f)
    ensures |s| == |Header(r)| + if r.WriteSector? then 512 else 0
  {
    Header(r) + if r.WriteSector? then Gather(f.ram, r.buf) else []
  }

  /** The result bytes of a transfer that ended at an offset: three status registers,
      then the cylinder, head and sector that follow, then N. */
  function Results(st: seq<byte>, cursor: nat): (s: seq<byte>)
    requires |st| == 3 && cursor < DISK_SZ
    ensures |s| == 7
  {
    st + [cursor / 18432, cursor / 9216 % 2, cursor / 512 % 18 + 1, 2]
  }

  /** The bytes the controller answers to a request. */
  function Answer(st: seq<byte>, f: Flat, r: Request): (s: seq<byte>)
    requires |st| == 3 && FlatOk(f) && Allowed(f, r)
    ensures |s| == AnswerLength(r)
  {
    if r.Configure? then []
    else
      (if r.ReadSector? then f.disks[r.slot % 4].image[StartOf(f, r)..StartOf(f, r) + 512] else [])
      + Results(st, StartOf(f, r) + 512)
  }

  function AnswerLength(r: Request): nat {
    if r.Configure? then 0 else if r.ReadSector? then 519 else 7
  }

  // ------------------------------------------------------------- whole programs

  datatype Script = Script(start: Flat, prog: seq<Request>, st: seq<byte>)

  ghost predicate Legal(s: Script)
  {
    && |s.st| == 3 && FlatOk(s.start)
    && forall i :: 0 <= i < |s.prog| ==> FlatOk(At(s, i)) && Allowed(At(s, i), s.prog[i])
  }

  /** The reference machine after i requests. */
  ghost function At(s: Script, i: nat): Flat
    requires i <= |s.prog|
  {
    if i == 0 then s.start
    else
      var f := At(s, i - 1);
      if FlatOk(f) && Allowed(f, s.prog[i - 1]) then Exec(f, s.prog[i - 1]) else f
  }

  lemma ExecOk(f: Flat, r: Request)
    requires FlatOk(f) && Allowed(f, r)
    ensures FlatOk(Exec(f, r))
  {
    hide Base, Scatter, Gather, BadBuffer;
    if Transfers(r) {
      StartAtSector(f, r);
    }
  }

  lemma AtOk(s: Script, i: nat)
    requires Legal(s) && i <= |s.prog|
    ensures FlatOk(At(s, i))
    ensures i < |s.prog| ==> Allowed(At(s, i), s.prog[i]) && At(s, i + 1) == Exec(At(s, i), s.prog[i])
  {
    hide FlatOk, Allowed, Exec;
    if i == |s.prog| && i > 0 {
      ExecOk(At(s, i - 1), s.prog[i - 1]);
    }
  }

  lemma StartAtSector(f: Flat, r: Request)
    requires FlatOk(f) && Transfers(r) && Allowed(f, r)
    ensures StartOf(f, r) % 0x200 == 0
  {
    BaseAtSector(r.track, r.head, r.sector);
  }

  ghost function MessageAt(s: Script, i: nat): (a: seq<byte>)
    requires Legal(s) && i < |s.prog|
    ensures |a| == |Header(s.prog[i])| + if s.prog[i].WriteSector? then 512 else 0
  {
    Message(At(s, i), s.prog[i])
  }

  ghost function AnswerAt(s: Script, i: nat): (a: seq<byte>)
    requires Legal(s) && i < |s.prog|
    ensures |a| == AnswerLength(s.prog[i])
  {
    Answer(s.st, At(s, i), s.prog[i])
  }

  /** All bytes sent, and all answered, for the first i requests. */
  ghost function Sent(s: Script, i: nat): seq<byte>
    requires Legal(s) && i <= |s.prog|
  {
    if i == 0 then [] else Sent(s, i - 1) + MessageAt(s, i - 1)
  }

  ghost function Answered(s: Script, i: nat): seq<byte>
    requires Legal(s) && i <= |s.prog|
  {
    if i == 0 then [] else Answered(s, i - 1) + AnswerAt(s, i - 1)
  }

  lemma {:induction false} SentGrows(s: Script, i: nat, j: nat)
    requires Legal(s) && i <= j <= |s.prog|
    ensures Sent(s, i) <= Sent(s, j)
    decreases j
  {
    hide FlatOk, Allowed, Exec, MessageAt;
    if i < j {
      SentGrows(s, i, j - 1);
    }
  }

  lemma {:induction false} AnsweredGrows(s: Script, i: nat, j: nat)
    requires Legal(s) && i <= j <= |s.prog|
    ensures Answered(s, i) <= Answered(s, j)
    decreases j
  {
    hide FlatOk, Allowed, Exec, AnswerAt;
    if i < j {
      AnsweredGrows(s, i, j - 1);
    }
  }

  // ------------------------------------------------------------- the invariant

  /** How far a position in the answer stream is: the data bytes come first. */
  function Received(r: Request, stage: Stage, k: nat): nat {
    if stage.Data? then k else (if r.ReadSector? then 512 else 0) + k
  }

  predicate InStage(r: Request, stage: Stage, k: nat) {
    if stage.Data? then r.ReadSector? && k < 512 else Transfers(r) && k < 7
  }

  /** Bytes of the current message that the CPU has sent. */
  function OutCount(m: Machine, length: nat): nat {
    if m.cpu.Send? then m.cpu.k else length
  }

  ghost function SentSoFar(m: Machine, s: Script): seq<byte>
    requires Legal(s) && m.issued <= |s.prog|
    requires m.issued < |s.prog| ==> OutCount(m, |MessageAt(s, m.issued)|) <= |MessageAt(s, m.issued)|
  {
    if m.issued == |s.prog| then Sent(s, m.issued)
    else Sent(s, m.issued) + MessageAt(s, m.issued)[..OutCount(m, |MessageAt(s, m.issued)|)]
  }

  ghost predicate CpuOk(m: Machine, s: Script)
    requires Legal(s)
  {
    && |m.ram| == 0x1_0000
    && m.issued <= |s.prog|
    && if m.issued == |s.prog| then m.cpu.Halted? && m.got == [] && m.ram == At(s, m.issued).ram
       else
         var r, f := s.prog[m.issued], At(s, m.issued);
         match m.cpu
         case Send(k) => k < |MessageAt(s, m.issued)| && m.got == [] && m.ram == f.ram
         case AwaitRqm => r.ReadSector? && m.got == [] && m.ram == f.ram
         case AwaitInt(stage, k) => InStage(r, stage, k) && Reading(m, s, stage, k)
         case Load(stage, k) => InStage(r, stage, k) && Reading(m, s, stage, k) && m.intr
         case Lower(stage, k, v) =>
           InStage(r, stage, k) && Reading(m, s, stage, k) && m.intr
        && v == AnswerAt(s, m.issued)[Received(r, stage, k)]
         case Halted => false
  }

  /** In the middle of an answer: what was read is its prefix, and the buffer holds
      the data read so far. */
  ghost predicate Reading(m: Machine, s: Script, stage: Stage, k: nat)
    requires Legal(s) && m.issued < |s.prog| && InStage(s.prog[m.issued], stage, k)
  {
    var r, f := s.prog[m.issued], At(s, m.issued);
    && m.got == AnswerAt(s, m.issued)[..Received(r, stage, k)]
    && m.ram == if r.ReadSector? then Scatter(f.ram, r.buf, AnswerAt(s, m.issued)[..if stage.Data? then k else 512])
                else f.ram
  }

  /** A drive stands for a flat disk: aligned, same image, same place. */
  predicate Stands(d: Drive, fd: FlatDisk) {
    d.present == fd.present && (d.present ==> Aligned(d) && d.image == fd.image && d.pos == fd.cursor)
  }

  predicate AllStand(drives: seq<Drive>, disks: seq<FlatDisk>) {
    |drives| == |disks| == 4 && forall i :: 0 <= i < 4 ==> Stands(drives[i], disks[i])
  }

  /** All drives but one stand for their flat disks, and that one is synced at an
      offset over an image. */
  predicate Transferring(drives: seq<Drive>, disks: seq<FlatDisk>, slot: nat, pos: int, image: seq<byte>)
    requires slot < 4
  {
    && |drives| == |disks| == 4
    && (forall i :: 0 <= i < 4 && i != slot ==> Stands(drives[i], disks[i]))
    && Synced(drives[slot]) && drives[slot].pos == pos && drives[slot].image == image
  }

  function Least(a: nat, b: nat): nat {
    if a < b then a else b
  }

  /** The drive of the current command after k data bytes have passed. */
  ghost predicate DriveAfter(m: Machine, s: Script, k: nat)
    requires Legal(s) && m.served < |s.prog| && Transfers(s.prog[m.served]) && k <= 512
  {
    var r, f := s.prog[m.served], At(s, m.served);
    var disk := f.disks[r.slot % 4];
    Transferring(m.drives, f.disks, r.slot % 4, StartOf(f, r) + k,
                 if r.ReadSector? then disk.image
                 else Patch(disk.image, StartOf(f, r), Gather(f.ram, r.buf)[..k]))
  }

  ghost predicate Busy(m: Machine, s: Script, cmd: byte)
    requires Legal(s)
  {
    m.served < |s.prog| && cmd == Header(s.prog[m.served])[0]
  }

  ghost predicate BusyWith(m: Machine, s: Script, cmd: byte, args: seq<byte>)
    requires Legal(s)
  {
    Busy(m, s, cmd) && Transfers(s.prog[m.served]) && args == Header(s.prog[m.served])[1..] && m.rqm
  }

  /** Data bytes of a request that go to the host. */
  function ToHost(r: Request): nat {
    if r.ReadSector? then 512 else 0
  }

  /** Data bytes moved once k answer bytes have been fetched. */
  function Moved(r: Request, k: nat): nat {
    if r.ReadSector? then Least(k, 512) else 512
  }

  ghost predicate Offering(m: Machine, s: Script, cmd: byte, args: seq<byte>, k: nat, v: byte)
    requires Legal(s)
  {
    && BusyWith(m, s, cmd, args) && k < AnswerLength(s.prog[m.served])
    && v == AnswerAt(s, m.served)[k] && DriveAfter(m, s, Moved(s.prog[m.served], k + 1))
  }

  ghost predicate WorkerOk(m: Machine, s: Script)
    requires Legal(s)
  {
    && m.st == s.st
    && m.served <= |s.prog| && m.eis == At(s, m.served).eis
    && match m.worker
       case Poll => AllStand(m.drives, At(s, m.served).disks)
       case TakeCommand => AllStand(m.drives, At(s, m.served).disks) && m.queue != []
       case SetRqm(cmd) =>
         Busy(m, s, cmd) && Transfers(s.prog[m.served]) && AllStand(m.drives, At(s, m.served).disks)
       case TakeArgs(cmd, args) =>
         && Busy(m, s, cmd) && |args| < ArgCount(cmd) && args == Header(s.prog[m.served])[1..1 + |args|]
         && (Transfers(s.prog[m.served]) ==> m.rqm)
         && AllStand(m.drives, At(s, m.served).disks)
       case SeekSector(cmd, args) =>
         BusyWith(m, s, cmd, args) && AllStand(m.drives, At(s, m.served).disks)
       case TakeData(cmd, args, k) =>
         BusyWith(m, s, cmd, args) && s.prog[m.served].WriteSector? && k <= 512 && DriveAfter(m, s, k)
       case Fetch(cmd, args, k) =>
         && BusyWith(m, s, cmd, args) && k <= AnswerLength(s.prog[m.served])
         && DriveAfter(m, s, Moved(s.prog[m.served], k))
       case AwaitFree(cmd, args, k, v) => Offering(m, s, cmd, args, k, v)
       case Store(cmd, args, k, v) => Offering(m, s, cmd, args, k, v) && !m.intr
       case Raise(cmd, args, k, v) => Offering(m, s, cmd, args, k, v) && !m.intr && m.curr == v
       case ClearRqm =>
         m.served < |s.prog| && Transfers(s.prog[m.served]) && DriveAfter(m, s, 512)
       case Crashed => false
  }

  /** Bytes of the current message the worker has taken, and of the current answer it
      has put into the mailbox. */
  function TakenCount(w: WorkerPc, length: nat): nat {
    match w
    case Poll => 0
    case TakeCommand => 0
    case SetRqm(_) => 1
    case TakeArgs(_, args) => 1 + |args|
    case SeekSector(_, _) => 9
    case TakeData(_, _, k) => 9 + k
    case _ => length
  }

  function RaisedCount(w: WorkerPc, length: nat): nat {
    match w
    case Fetch(_, _, k) => k
    case AwaitFree(_, _, k, _) => k
    case Store(_, _, k, _) => k
    case Raise(_, _, k, _) => k
    case ClearRqm => length
    case _ => 0
  }

  ghost function Prefix(a: seq<byte>, k: nat): seq<byte> {
    if k <= |a| then a[..k] else a
  }

  ghost function TakenSoFar(m: Machine, s: Script): seq<byte>
    requires Legal(s) && m.served <= |s.prog|
  {
    if m.served == |s.prog| then Sent(s, m.served)
    else Sent(s, m.served) + Prefix(MessageAt(s, m.served), TakenCount(m.worker, |MessageAt(s, m.served)|))
  }

  ghost function RaisedSoFar(m: Machine, s: Script): seq<byte>
    requires Legal(s) && m.served <= |s.prog|
  {
    if m.served == |s.prog| then Answered(s, m.served)
    else Answered(s, m.served) + Prefix(AnswerAt(s, m.served), RaisedCount(m.worker, |AnswerAt(s, m.served)|))
  }

  /** What was sent is what was taken followed by the queue. */
  ghost predicate QueueOk(m: Machine, s: Script)
    requires Legal(s) && CpuOk(m, s) && WorkerOk(m, s)
  {
    SentSoFar(m, s) == TakenSoFar(m, s) + m.queue
  }

  /** What was raised is what was received, and at most the one byte in the mailbox. */
  ghost predicate MailOk(m: Machine, s: Script)
    requires Legal(s) && CpuOk(m, s) && WorkerOk(m, s)
  {
    RaisedSoFar(m, s) == Answered(s, m.issued) + m.got + if m.intr then [m.curr] else []
  }

  ghost predicate Inv(m: Machine, s: Script)
    requires Legal(s)
  {
    WellFormed(m) && CpuOk(m, s) && WorkerOk(m, s) && QueueOk(m, s) && MailOk(m, s)
  }
}
