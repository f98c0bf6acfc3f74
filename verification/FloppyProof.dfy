/** Every step of either thread keeps the invariant of FloppyRefinement. */
module FloppyProof {
  import opened Words
  import opened FloppyDrive
  import opened FloppyProtocol
  import opened FloppyRefinement

  // ------------------------------------------------------------- the two streams

  lemma SentSoFarBound(m: Machine, s: Script)
    requires Legal(s) && CpuOk(m, s)
    ensures SentSoFar(m, s) <= Sent(s, |s.prog|)
  {
    hide Legal, FlatOk, Allowed, MessageAt, AnswerAt, Reading, Header;
    SentGrows(s, m.issued, |s.prog|);
    if m.issued < |s.prog| {
      SentGrows(s, m.issued + 1, |s.prog|);
      assert SentSoFar(m, s) <= Sent(s, m.issued + 1);
    }
  }

  lemma Bounds(m: Machine, s: Script)
    requires Legal(s) && CpuOk(m, s) && WorkerOk(m, s)
    ensures m.served <= |s.prog| && m.issued <= |s.prog| && m.st == s.st
    ensures m.issued < |s.prog| ==> OutCount(m, |MessageAt(s, m.issued)|) <= |MessageAt(s, m.issued)|
  {
    hide Legal, FlatOk, Allowed, MessageAt, AnswerAt, Reading;
  }

  /** Two readings of one stream agree on the byte after their common part. */
  lemma StreamHead(all: seq<byte>, base: seq<byte>, msg: seq<byte>, k: nat, rest: seq<byte>)
    requires base + msg <= all && k < |msg| && rest != []
    requires base + msg[..k] + rest <= all
    ensures rest[0] == msg[k]
  {
    assert all[|base| + k] == (base + msg)[|base| + k] == msg[k];
    assert all[|base| + k] == (base + msg[..k] + rest)[|base| + k] == rest[0];
  }

  /** A queued byte is the next byte of the message the worker is at. */
  lemma QueueHead(m: Machine, s: Script)
    requires Legal(s) && Inv(m, s) && m.queue != []
    ensures m.served < |s.prog|
    ensures var k := TakenCount(m.worker, |MessageAt(s, m.served)|);
            k < |MessageAt(s, m.served)| ==> m.queue[0] == MessageAt(s, m.served)[k]
  {
    hide Legal, FlatOk, Allowed, MessageAt, AnswerAt, CpuOk, WorkerOk, SentSoFar, MailOk, TakenCount, Header;
    Bounds(m, s);
    SentSoFarBound(m, s);
    var all := Sent(s, |s.prog|);
    assert m.served < |s.prog|;
    var msg := MessageAt(s, m.served);
    var k := TakenCount(m.worker, |msg|);
    if k < |msg| {
      SentGrows(s, m.served + 1, |s.prog|);
      assert Prefix(msg, k) == msg[..k];
      StreamHead(all, Sent(s, m.served), msg, k, m.queue);
    }
  }

  lemma RaisedSoFarBound(m: Machine, s: Script)
    requires Legal(s) && m.served <= |s.prog|
    ensures RaisedSoFar(m, s) <= Answered(s, |s.prog|)
  {
    hide Legal, FlatOk, Allowed, MessageAt, AnswerAt, Header, RaisedCount;
    AnsweredGrows(s, m.served, |s.prog|);
    if m.served < |s.prog| {
      AnsweredGrows(s, m.served + 1, |s.prog|);
      assert RaisedSoFar(m, s) <= Answered(s, m.served + 1);
    }
  }

  lemma GotIsPrefix(m: Machine, s: Script)
    requires Legal(s) && CpuOk(m, s) && m.issued < |s.prog|
    ensures |m.got| <= |AnswerAt(s, m.issued)| && m.got == AnswerAt(s, m.issued)[..|m.got|]
  {
    hide Legal, FlatOk, Allowed, MessageAt, AnswerAt, Scatter;
  }

  /** A byte in the mailbox is the next byte of the answer the CPU is reading. */
  lemma MailHead(m: Machine, s: Script)
    requires Legal(s) && Inv(m, s) && m.intr && m.issued < |s.prog|
    requires |m.got| < |AnswerAt(s, m.issued)|
    ensures m.curr == AnswerAt(s, m.issued)[|m.got|]
  {
    hide Legal, FlatOk, Allowed, MessageAt, AnswerAt, CpuOk, WorkerOk, RaisedSoFar, QueueOk;
    Bounds(m, s);
    RaisedSoFarBound(m, s);
    AnsweredGrows(s, m.issued + 1, |s.prog|);
    var k := |m.got|;
    GotIsPrefix(m, s);
    StreamHead(Answered(s, |s.prog|), Answered(s, m.issued), AnswerAt(s, m.issued), k, [m.curr]);
  }

  // ------------------------------------------------------------- framing

  /** The CPU's part of the invariant does not look at what the worker changes. */
  lemma CpuFrame(m: Machine, n: Machine, s: Script)
    requires Legal(s) && CpuOk(m, s)
    requires (n.cpu, n.ram, n.issued, n.got) == (m.cpu, m.ram, m.issued, m.got)
    requires m.intr ==> n.intr
    ensures CpuOk(n, s) && SentSoFar(n, s) == SentSoFar(m, s)
  {
    hide Legal, FlatOk, Allowed, MessageAt, AnswerAt, Header;
  }

  /** The worker's part does not look at what the CPU changes. */
  lemma WorkerFrame(m: Machine, n: Machine, s: Script)
    requires Legal(s) && WorkerOk(m, s)
    requires (n.worker, n.drives, n.eis, n.st, n.served, n.rqm, n.curr)
             == (m.worker, m.drives, m.eis, m.st, m.served, m.rqm, m.curr)
    requires n.intr ==> m.intr
    requires m.queue == [] || n.queue != []
    ensures WorkerOk(n, s) && TakenSoFar(n, s) == TakenSoFar(m, s) && RaisedSoFar(n, s) == RaisedSoFar(m, s)
  {
    hide Legal, FlatOk, Allowed, MessageAt, AnswerAt, AllStand, Transferring, Patch, Gather, Header, Prefix,
         Answered, Sent;
  }

  lemma PrefixStep(a: seq<byte>, k: nat)
    requires k < |a|
    ensures Prefix(a, k + 1) == Prefix(a, k) + [a[k]]
  {
  }

  lemma Shift(sent: seq<byte>, taken: seq<byte>, queue: seq<byte>)
    requires sent == taken + queue && queue != []
    ensures sent == (taken + [queue[0]]) + queue[1..]
  {
  }

  /** A worker step that takes one byte off the queue. */
  lemma TookOne(m: Machine, n: Machine, s: Script)
    requires Legal(s) && Inv(m, s) && m.queue != [] && m.served < |s.prog|
    requires n.queue == m.queue[1..]
    requires (n.cpu, n.ram, n.issued, n.got, n.intr, n.curr) == (m.cpu, m.ram, m.issued, m.got, m.intr, m.curr)
    requires n.served == m.served && WellFormed(n) && WorkerOk(n, s)
    requires var length := |MessageAt(s, m.served)|;
             TakenCount(m.worker, length) < length && TakenCount(n.worker, length) == TakenCount(m.worker, length) + 1
    requires RaisedCount(m.worker, |AnswerAt(s, m.served)|) == RaisedCount(n.worker, |AnswerAt(s, m.served)|)
    ensures Inv(n, s)
  {
    hide Legal, FlatOk, Allowed, MessageAt, AnswerAt, CpuOk, WorkerOk, SentSoFar, TakenCount, RaisedCount, Prefix,
         Header;
    CpuFrame(m, n, s);
    QueueHead(m, s);
    PrefixStep(MessageAt(s, m.served), TakenCount(m.worker, |MessageAt(s, m.served)|));
    assert TakenSoFar(n, s) == TakenSoFar(m, s) + [m.queue[0]];
    Bounds(m, s);
    Shift(SentSoFar(m, s), TakenSoFar(m, s), m.queue);
    assert RaisedSoFar(n, s) == RaisedSoFar(m, s);
  }

  /** A worker step that moves no byte. */
  lemma MovedNone(m: Machine, n: Machine, s: Script)
    requires Legal(s) && Inv(m, s)
    requires (n.queue, n.cpu, n.ram, n.issued, n.got, n.intr) == (m.queue, m.cpu, m.ram, m.issued, m.got, m.intr)
    requires n.intr ==> n.curr == m.curr
    requires WellFormed(n) && WorkerOk(n, s)
    requires TakenSoFar(n, s) == TakenSoFar(m, s) && RaisedSoFar(n, s) == RaisedSoFar(m, s)
    ensures Inv(n, s)
  {
    CpuFrame(m, n, s);
    hide FlatOk, Allowed, MessageAt, AnswerAt, CpuOk, WorkerOk, SentSoFar, TakenSoFar, RaisedSoFar;
  }

  // ------------------------------------------------------------- the worker

  lemma PollKeeps(m: Machine, n: Machine, s: Script)
    requires Legal(s) && Inv(m, s) && m.worker.Poll? && WorkerStep(m) == Some(n)
    ensures Inv(n, s)
  {
    hide FlatOk, Allowed, MessageAt, AnswerAt, AllStand;
    hide TakeCommandStep, TakeArgsStep, SeekStep, TakeDataStep, FetchStep;
    MovedNone(m, n, s);
  }

  lemma MessageHeader(s: Script, i: nat, k: nat)
    requires Legal(s) && i < |s.prog| && k < |Header(s.prog[i])|
    ensures k < |MessageAt(s, i)| && MessageAt(s, i)[k] == Header(s.prog[i])[k]
  {
  }

  lemma TakeCommandKeeps(m: Machine, n: Machine, s: Script)
    requires Legal(s) && Inv(m, s) && m.worker.TakeCommand? && WorkerStep(m) == Some(n)
    ensures Inv(n, s)
  {
    hide FlatOk, Allowed, AllStand, AnswerAt, CpuOk, SentSoFar, QueueOk, MailOk, MessageAt;
    hide TakeArgsStep, SeekStep, TakeDataStep, FetchStep;
    QueueHead(m, s);
    MessageHeader(s, m.served, 0);
    TookOne(m, n, s);
  }

  lemma SetRqmKeeps(m: Machine, n: Machine, s: Script)
    requires Legal(s) && Inv(m, s) && m.worker.SetRqm? && WorkerStep(m) == Some(n)
    ensures Inv(n, s)
  {
    hide FlatOk, Allowed, AllStand, AnswerAt, CpuOk, SentSoFar, QueueOk, MailOk, MessageAt;
    hide TakeCommandStep, TakeArgsStep, SeekStep, TakeDataStep, FetchStep;
    MovedNone(m, n, s);
  }

  lemma SliceStep(a: seq<byte>, k: nat)
    requires 1 <= k < |a|
    ensures a[1..k] + [a[k]] == a[1..k + 1]
  {
  }

  /** The next queued byte is the next argument. */
  lemma NextArgument(m: Machine, s: Script, cmd: byte, args: seq<byte>)
    requires Legal(s) && Inv(m, s) && m.worker == TakeArgs(cmd, args) && m.queue != []
    ensures m.served < |s.prog| && |args| < ArgCount(cmd) && ArgCount(cmd) == |Header(s.prog[m.served])| - 1
    ensures args + [m.queue[0]] == Header(s.prog[m.served])[1..2 + |args|]
  {
    hide Legal, FlatOk, Allowed, AllStand, AnswerAt, CpuOk, SentSoFar, QueueOk, MailOk, MessageAt;
    QueueHead(m, s);
    MessageHeader(s, m.served, 1 + |args|);
    SliceStep(Header(s.prog[m.served]), 1 + |args|);
  }

  lemma TakeArgsKeeps(m: Machine, n: Machine, s: Script)
    requires Legal(s) && Inv(m, s) && m.worker.TakeArgs? && WorkerStep(m) == Some(n)
    ensures Inv(n, s)
  {
    hide Legal, FlatOk, Allowed, AllStand, AnswerAt, CpuOk, SentSoFar, QueueOk, MailOk, MessageAt;
    hide TakeCommandStep, SeekStep, TakeDataStep, FetchStep;
    NextArgument(m, s, m.worker.cmd, m.worker.args);
    var more := m.worker.args + [m.queue[0]];
    if n.served == m.served {
      assert WorkerOk(n, s);
      TookOne(m, n, s);
    } else {
      ConfigureKeeps(m, n, s, more);
    }
  }

  lemma ConfigureKeeps(m: Machine, n: Machine, s: Script, args: seq<byte>)
    requires Legal(s) && Inv(m, s) && m.worker.TakeArgs? && WorkerStep(m) == Some(n)
    requires m.queue != [] && args == m.worker.args + [m.queue[0]]
    requires m.worker.cmd == FDD_CONFIGURE && |args| == 3 && args == Header(s.prog[m.served])[1..4]
    ensures Inv(n, s)
  {
    hide Legal, FlatOk, Allowed, AllStand, CpuOk, SentSoFar, AnswerAt, MessageAt, At;
    hide TakeCommandStep, SeekStep, TakeDataStep, FetchStep;
    CpuFrame(m, n, s);
    QueueHead(m, s);
    assert s.prog[m.served].Configure?;
    AtOk(s, m.served);
    assert WorkerOk(n, s);
    PrefixStep(MessageAt(s, m.served), 3);
    assert TakenSoFar(n, s) == TakenSoFar(m, s) + [m.queue[0]];
    Bounds(m, s);
    Shift(SentSoFar(m, s), TakenSoFar(m, s), m.queue);
    assert RaisedSoFar(n, s) == RaisedSoFar(m, s);
  }

  lemma SectorCount(args: seq<byte>)
    requires |args| == 8 && args[4] == 2
    ensures Pow2(args[4]) * 128 == 512
  {
    assert Pow2(2) == 2 * Pow2(1) == 4;
  }

  /** What the worker reads out of the eight argument bytes. */
  lemma ArgsOf(r: Request, cmd: byte, args: seq<byte>)
    requires Transfers(r) && cmd == Header(r)[0] && args == Header(r)[1..]
    ensures |args| == 8 && args[0] == r.slot && args[4] == 2
    ensures cmd == FDD_WRITE_DATA <==> r.WriteSector?
    ensures ByteCount(cmd, args) == 512 && BytesToHost(cmd, args) == ToHost(r)
    ensures SeekTarget(cmd, args) == (r.track, r.head, r.sector)
    ensures |Header(r)| == 9
  {
    SectorCount(args);
  }

  lemma SeekStands(m: Machine, s: Script, r: Request, f: Flat)
    requires FlatOk(f) && Allowed(f, r) && Transfers(r)
    requires AllStand(m.drives, f.disks)
    ensures var d := m.drives[r.slot % 4];
            && (f.eis ==> Seek(d, r.track, r.head, r.sector).Some?)
            && var e := if f.eis then Seek(d, r.track, r.head, r.sector).value else d;
               Transferring(m.drives[r.slot % 4 := e], f.disks, r.slot % 4, StartOf(f, r), f.disks[r.slot % 4].image)
  {
    hide Base, SeekOffset, BadBuffer;
    var d := m.drives[r.slot % 4];
    if f.eis {
      SeekLandsIff(d, r.track, r.head, r.sector);
    }
  }

  lemma SeekWorkerOk(m: Machine, n: Machine, s: Script)
    requires Legal(s) && Inv(m, s) && m.worker.SeekSector? && WorkerStep(m) == Some(n)
    ensures WellFormed(n) && WorkerOk(n, s)
    ensures n == m.(drives := n.drives, worker := n.worker)
    ensures n.worker == if s.prog[m.served].WriteSector? then TakeData(m.worker.cmd, m.worker.args, 0)
                        else Fetch(m.worker.cmd, m.worker.args, 0)
  {
    hide Legal, AllStand, Transferring, CpuOk, SentSoFar, QueueOk, MailOk, Seek, Base, BadBuffer, MessageAt, AnswerAt;
    hide TakeCommandStep, TakeArgsStep, TakeDataStep, FetchStep, Header, ByteCount, BytesToHost, SeekTarget;
    var r, f := s.prog[m.served], At(s, m.served);
    AtOk(s, m.served);
    ArgsOf(r, m.worker.cmd, m.worker.args);
    SeekStands(m, s, r, f);
    var disk, start := f.disks[r.slot % 4], StartOf(f, r);
    assert Gather(f.ram, r.buf)[..0] == [];
    PatchNothing(disk.image, start);
  }

  lemma PatchNothing(image: seq<byte>, start: nat)
    requires start <= |image|
    ensures Patch(image, start, []) == image
  {
  }

  lemma SeekKeeps(m: Machine, n: Machine, s: Script)
    requires Legal(s) && Inv(m, s) && m.worker.SeekSector? && WorkerStep(m) == Some(n)
    ensures Inv(n, s)
  {
    hide Legal, CpuOk, SentSoFar, QueueOk, MailOk, MessageAt, AnswerAt, WorkerStep, WorkerOk, FlatOk, Allowed;
    Bounds(m, s);
    SeekWorkerOk(m, n, s);
    assert m.served < |s.prog| && |Header(s.prog[m.served])| == 9 by {
      ServingTransfer(m, s);
    }
    MovedNone(m, n, s);
  }

  /** From the seek to the last status byte the worker is at a transfer. */
  lemma ServingTransfer(m: Machine, s: Script)
    requires Legal(s) && WorkerOk(m, s)
    requires m.worker.SeekSector? || m.worker.TakeData? || m.worker.Fetch?
    ensures m.served < |s.prog| && Transfers(s.prog[m.served])
    ensures m.worker.cmd == Header(s.prog[m.served])[0] && m.worker.args == Header(s.prog[m.served])[1..]
    ensures |Header(s.prog[m.served])| == 9
  {
    hide Legal, MessageAt, AnswerAt, AllStand, DriveAfter;
  }

  lemma PatchStep(image: seq<byte>, start: nat, data: seq<byte>, k: nat)
    requires start + |data| <= |image| && k < |data|
    ensures Patch(image, start, data[..k])[start + k := data[k]] == Patch(image, start, data[..k + 1])
  {
  }

  lemma TakeDataStores(m: Machine, s: Script, k: nat)
    requires Legal(s) && WellFormed(m) && m.served < |s.prog| && s.prog[m.served].WriteSector? && k < 512
    requires DriveAfter(m, s, k)
    ensures var r, f := s.prog[m.served], At(s, m.served);
            FlatOk(f) && m.drives[r.slot % 4].present
            && DriveAfter(m.(drives := m.drives[r.slot % 4 :=
                          WriteByte(m.drives[r.slot % 4], Gather(f.ram, r.buf)[k])]), s, k + 1)
  {
    hide Legal, Base, BadBuffer, WriteByte, Synced, Stands, Patch, Gather, MessageAt, Seek;
    var r, f := s.prog[m.served], At(s, m.served);
    AtOk(s, m.served);
    WriteByteSynced(m.drives[r.slot % 4], Gather(f.ram, r.buf)[k]);
    PatchStep(f.disks[r.slot % 4].image, StartOf(f, r), Gather(f.ram, r.buf), k);
    SyncedPresent(m.drives[r.slot % 4]);
  }

  lemma BufferByte(s: Script, i: nat, k: nat)
    requires Legal(s) && i < |s.prog| && s.prog[i].WriteSector? && k < 512
    ensures FlatOk(At(s, i)) && MessageAt(s, i)[9 + k] == Gather(At(s, i).ram, s.prog[i].buf)[k]
  {
    hide Gather;
    AtOk(s, i);
  }

  lemma TakeDataKeeps(m: Machine, n: Machine, s: Script)
    requires Legal(s) && Inv(m, s) && m.worker.TakeData? && WorkerStep(m) == Some(n)
    ensures Inv(n, s)
  {
    hide Legal, CpuOk, SentSoFar, QueueOk, MailOk, WriteByte, Transferring, Patch, Gather, AnswerAt, MessageAt,
         FlatOk, Allowed;
    hide TakeCommandStep, TakeArgsStep, SeekStep, FetchStep, Header, ByteCount, BytesToHost, SeekTarget;
    var r, k := s.prog[m.served], m.worker.k;
    ServingTransfer(m, s);
    ArgsOf(r, m.worker.cmd, m.worker.args);
    if k == 512 {
      assert WorkerOk(n, s);
      MovedNone(m, n, s);
    } else {
      QueueHead(m, s);
      BufferByte(s, m.served, k);
      TakeDataStores(m, s, k);
      assert WorkerOk(n, s);
      TookOne(m, n, s);
    }
  }

  lemma SyncedPresent(d: Drive)
    requires Synced(d)
    ensures d.present
  {
  }

  /** The odometer of a synced drive, read off its offset. */
  lemma Decode(d: Drive)
    requires Synced(d)
    ensures d.track == d.pos / 18432 && d.head == d.pos / 9216 % 2 && d.sector == d.pos / 512 % 18 + 1
    ensures d.track < 0x100 && d.head < 0x100 && d.sector < 0x100
  {
    assert d.pos == ((d.track * 2 + d.head) * 18 + d.sector - 1) * 512 + d.progress;
    assert d.pos / 512 == (d.track * 2 + d.head) * 18 + d.sector - 1;
    assert d.pos / 9216 == d.track * 2 + d.head;
  }

  lemma AnswerStatus(st: seq<byte>, f: Flat, r: Request, j: nat)
    requires |st| == 3 && FlatOk(f) && Allowed(f, r) && Transfers(r) && j < 7
    ensures Answer(st, f, r)[ToHost(r) + j] == Results(st, StartOf(f, r) + 512)[j]
  {
    hide Base, BadBuffer, Results;
  }

  lemma WholeSectorMoved(m: Machine, s: Script)
    requires Legal(s) && WellFormed(m) && m.served < |s.prog| && Transfers(s.prog[m.served])
    requires DriveAfter(m, s, 512)
    ensures var r, f := s.prog[m.served], At(s, m.served);
            && FlatOk(f)
            && Synced(m.drives[r.slot % 4]) && m.drives[r.slot % 4].pos == StartOf(f, r) + 512
  {
    hide Base, Synced, StartOf, Patch, Gather, Allowed;
    AtOk(s, m.served);
  }

  lemma StatusIsAnswer(m: Machine, s: Script, args: seq<byte>, j: nat)
    requires Legal(s) && WellFormed(m) && m.st == s.st && m.served < |s.prog| && j < 7
    requires Transfers(s.prog[m.served]) && |args| == 8 && args[0] == s.prog[m.served].slot && args[4] == 2
    requires DriveAfter(m, s, 512)
    ensures StatusByte(m, args, j) == AnswerAt(s, m.served)[ToHost(s.prog[m.served]) + j]
  {
    hide Legal, Base, BadBuffer, Synced, MessageAt, FlatOk, Allowed, Answer, StartOf, DriveAfter;
    var r, f := s.prog[m.served], At(s, m.served);
    AtOk(s, m.served);
    WholeSectorMoved(m, s);
    Decode(m.drives[r.slot % 4]);
    AnswerStatus(s.st, f, r, j);
    TransferFits(f, r);
    StatusDigits(m, args, j, StartOf(f, r) + 512);
  }

  lemma TransferFits(f: Flat, r: Request)
    requires FlatOk(f) && Allowed(f, r) && Transfers(r)
    ensures 0 <= StartOf(f, r) && StartOf(f, r) + 512 < DISK_SZ
  {
  }

  lemma StatusDigits(m: Machine, args: seq<byte>, j: nat, cursor: nat)
    requires WellFormed(m) && |args| == 8 && j < 7 && args[4] == 2 && cursor < DISK_SZ
    requires var d := m.drives[args[0] % 4];
             d.track == cursor / 18432 && d.head == cursor / 9216 % 2 &&
             d.sector == cursor / 512 % 18 + 1 && d.track < 0x100
    ensures StatusByte(m, args, j) == Results(m.st, cursor)[j]
  {
  }

  lemma FetchData(m: Machine, s: Script, k: nat)
    requires Legal(s) && WellFormed(m) && m.served < |s.prog| && s.prog[m.served].ReadSector? && k < 512
    requires DriveAfter(m, s, k)
    ensures var slot := s.prog[m.served].slot % 4;
            var (d, v) := ReadByte(m.drives[slot]);
            && m.drives[slot].present
            && v == AnswerAt(s, m.served)[k]
            && DriveAfter(m.(drives := m.drives[slot := d]), s, k + 1)
  {
    hide Legal, Base, BadBuffer, ReadByte, Synced, Stands, Patch, Gather, MessageAt, Results, Seek;
    var r, f := s.prog[m.served], At(s, m.served);
    AtOk(s, m.served);
    ReadByteSynced(m.drives[r.slot % 4]);
    SyncedPresent(m.drives[r.slot % 4]);
  }

  lemma FetchedOk(m: Machine, n: Machine, s: Script, k: nat, v: byte)
    requires Legal(s) && WorkerOk(m, s) && m.worker.Fetch? && m.worker.k == k
    requires m.served < |s.prog| && k < AnswerLength(s.prog[m.served])
    requires n == m.(drives := n.drives, worker := AwaitFree(m.worker.cmd, m.worker.args, k, v))
    requires v == AnswerAt(s, m.served)[k]
    requires Transfers(s.prog[m.served]) && DriveAfter(n, s, Moved(s.prog[m.served], k + 1))
    ensures WorkerOk(n, s)
  {
    hide Legal, MessageAt, AnswerAt, AllStand, DriveAfter, Header, Moved;
  }

  lemma FetchWorkerOk(m: Machine, n: Machine, s: Script)
    requires Legal(s) && Inv(m, s) && m.worker.Fetch? && WorkerStep(m) == Some(n)
    ensures WellFormed(n) && WorkerOk(n, s) && n == m.(drives := n.drives, worker := n.worker)
    ensures m.served < |s.prog|
    ensures (n.worker.AwaitFree? && n.worker.k == m.worker.k)
            || (n.worker.ClearRqm? && m.worker.k == AnswerLength(s.prog[m.served]))
  {
    hide Legal, CpuOk, SentSoFar, QueueOk, MailOk, ReadByte, Seek, Transferring, Patch, Gather, MessageAt, AnswerAt,
         StatusByte, FlatOk, Allowed, Prefix;
    hide TakeCommandStep, TakeArgsStep, SeekStep, TakeDataStep, Header, ByteCount, BytesToHost, SeekTarget;
    var r, k, args := s.prog[m.served], m.worker.k, m.worker.args;
    ServingTransfer(m, s);
    ArgsOf(r, m.worker.cmd, args);
    FetchDrive(m, s);
    if k == AnswerLength(r) {
      assert WorkerOk(n, s);
    } else if k >= ToHost(r) {
      StatusIsAnswer(m, s, args, k - ToHost(r));
      FetchedOk(m, n, s, k, n.worker.v);
    } else {
      FetchData(m, s, k);
      FetchedOk(m, n, s, k, n.worker.v);
    }
  }

  lemma FetchKeeps(m: Machine, n: Machine, s: Script)
    requires Legal(s) && Inv(m, s) && m.worker.Fetch? && WorkerStep(m) == Some(n)
    ensures Inv(n, s)
  {
    hide Legal, WorkerStep, CpuOk, SentSoFar, QueueOk, MailOk, FlatOk, Allowed, MessageAt, AnswerAt, Header, DriveAfter;
    FetchWorkerOk(m, n, s);
    MovedNone(m, n, s);
  }

  lemma FetchDrive(m: Machine, s: Script)
    requires Legal(s) && WorkerOk(m, s) && m.worker.Fetch?
    ensures m.served < |s.prog| && Transfers(s.prog[m.served]) && m.st == s.st
    ensures m.worker.k <= AnswerLength(s.prog[m.served])
    ensures DriveAfter(m, s, Moved(s.prog[m.served], m.worker.k))
  {
    hide Legal, MessageAt, AnswerAt, AllStand, DriveAfter, Header, Moved;
  }

  lemma OfferKeeps(m: Machine, n: Machine, s: Script)
    requires Legal(s) && Inv(m, s) && (m.worker.AwaitFree? || m.worker.Store?) && WorkerStep(m) == Some(n)
    ensures Inv(n, s)
  {
    hide Legal, CpuOk, SentSoFar, QueueOk, MailOk, Transferring, FlatOk, Allowed, MessageAt, AnswerAt, Header, Patch,
         Gather;
    hide TakeCommandStep, TakeArgsStep, SeekStep, TakeDataStep, FetchStep;
    assert WorkerOk(n, s);
    MovedNone(m, n, s);
  }

  lemma RaiseKeeps(m: Machine, n: Machine, s: Script)
    requires Legal(s) && Inv(m, s) && m.worker.Raise? && WorkerStep(m) == Some(n)
    ensures Inv(n, s)
  {
    hide Legal, CpuOk, SentSoFar, Transferring, FlatOk, Allowed, MessageAt, AnswerAt, Header, Patch, Gather, Prefix;
    hide TakeCommandStep, TakeArgsStep, SeekStep, TakeDataStep, FetchStep;
    CpuFrame(m, n, s);
    PrefixStep(AnswerAt(s, m.served), m.worker.k);
    assert WorkerOk(n, s);
    assert TakenSoFar(n, s) == TakenSoFar(m, s);
    assert RaisedSoFar(n, s) == RaisedSoFar(m, s) + [m.curr];
  }

  lemma AlignedAtSector(d: Drive)
    requires Synced(d) && d.pos % 0x200 == 0
    ensures Aligned(d)
  {
    WholeSectorProgress(d, d.pos);
  }

  lemma BoundaryStands(m: Machine, s: Script)
    requires Legal(s) && WellFormed(m) && m.served < |s.prog| && Transfers(s.prog[m.served])
    requires DriveAfter(m, s, 512)
    ensures AllStand(m.drives, At(s, m.served + 1).disks)
    ensures At(s, m.served + 1).eis == At(s, m.served).eis
  {
    hide Legal, Base, BadBuffer, Synced, MessageAt, AnswerAt, Scatter, Gather, StartOf, Patch, FlatOk, Allowed;
    var r, f := s.prog[m.served], At(s, m.served);
    AtOk(s, m.served);
    StartAtSector(f, r);
    WholeSectorMoved(m, s);
    AlignedAtSector(m.drives[r.slot % 4]);
    SyncedPresent(m.drives[r.slot % 4]);
    WholeBuffer(f, r);
    DiskPresent(f, r);
  }

  lemma DiskPresent(f: Flat, r: Request)
    requires FlatOk(f) && Allowed(f, r) && Transfers(r)
    ensures f.disks[r.slot % 4].present
  {
  }

  lemma WholeBuffer(f: Flat, r: Request)
    requires FlatOk(f) && Transfers(r)
    ensures Gather(f.ram, r.buf)[..512] == Gather(f.ram, r.buf)
  {
  }

  lemma ClearRqmKeeps(m: Machine, n: Machine, s: Script)
    requires Legal(s) && Inv(m, s) && m.worker.ClearRqm? && WorkerStep(m) == Some(n)
    ensures Inv(n, s)
  {
    hide Legal, CpuOk, SentSoFar, QueueOk, MailOk, MessageAt, AnswerAt, FlatOk, Allowed, AllStand, DriveAfter, Header;
    hide TakeCommandStep, TakeArgsStep, SeekStep, TakeDataStep, FetchStep;
    BoundaryStands(m, s);
    assert WorkerOk(n, s);
    assert TakenSoFar(n, s) == TakenSoFar(m, s);
    assert RaisedSoFar(n, s) == RaisedSoFar(m, s);
    MovedNone(m, n, s);
  }

  lemma WorkerKeeps(m: Machine, n: Machine, s: Script)
    requires Legal(s) && Inv(m, s) && WorkerStep(m) == Some(n)
    ensures Inv(n, s)
  {
    hide CpuOk, SentSoFar, FlatOk, Allowed, QueueOk, MailOk;
    hide TakeCommandStep, TakeArgsStep, SeekStep, TakeDataStep, FetchStep;
    match m.worker
    case Poll => PollKeeps(m, n, s);
    case TakeCommand => TakeCommandKeeps(m, n, s);
    case SetRqm(_) => SetRqmKeeps(m, n, s);
    case TakeArgs(_, _) => TakeArgsKeeps(m, n, s);
    case SeekSector(_, _) => SeekKeeps(m, n, s);
    case TakeData(_, _, _) => TakeDataKeeps(m, n, s);
    case Fetch(_, _, _) => FetchKeeps(m, n, s);
    case AwaitFree(_, _, _, _) => OfferKeeps(m, n, s);
    case Store(_, _, _, _) => OfferKeeps(m, n, s);
    case Raise(_, _, _, _) => RaiseKeeps(m, n, s);
    case ClearRqm => ClearRqmKeeps(m, n, s);
    case Crashed =>
  }
}
