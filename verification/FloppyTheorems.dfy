/** The CPU's half of the invariant proof, and what the invariant means: every
    interleaving of every legal program computes the reference machine's result. */
module FloppyTheorems {
  import opened Words
  import opened FloppyDrive
  import opened FloppyProtocol
  import opened FloppyRefinement
  import opened FloppyProof

  // ------------------------------------------------------------- sending

  lemma SentByte(m: Machine, s: Script, k: nat)
    requires Legal(s) && Inv(m, s) && m.issued < |s.prog| && m.cpu == Send(k)
    ensures k < |MessageAt(s, m.issued)|
    ensures k < |Header(s.prog[m.issued])| || s.prog[m.issued].WriteSector?
    ensures ByteToSend(m, s.prog[m.issued], k) == MessageAt(s, m.issued)[k]
    ensures m.got == [] && m.ram == At(s, m.issued).ram
  {
    hide Legal, WorkerOk, QueueOk, MailOk, AnswerAt, Allowed, Scatter;
    AtOk(s, m.issued);
  }

  /** The CPU moves on to the next request once the current one is answered. */
  lemma MovesOn(m: Machine, n: Machine, s: Script)
    requires Legal(s) && m.issued < |s.prog|
    requires n.issued == m.issued + 1 && n.got == []
    requires n.cpu == if n.issued < |s.prog| then Send(0) else Halted
    requires |n.ram| == 0x1_0000 && n.ram == At(s, m.issued + 1).ram
    ensures CpuOk(n, s) && SentSoFar(n, s) == Sent(s, m.issued) + MessageAt(s, m.issued)
    ensures Answered(s, n.issued) == Answered(s, m.issued) + AnswerAt(s, m.issued)
  {
    hide Legal, MessageAt, AnswerAt, Allowed, FlatOk;
    assert |Header(s.prog[m.issued])| > 0;
    if n.issued < |s.prog| {
      assert |MessageAt(s, n.issued)| > 0;
      assert MessageAt(s, n.issued)[..0] == [];
    }
  }

  lemma ConfigureSent(m: Machine, n: Machine, s: Script)
    requires Legal(s) && Inv(m, s) && m.issued < |s.prog| && s.prog[m.issued].Configure?
    requires m.cpu == Send(3)
    requires n == NextRequest(m.(queue := m.queue + [ByteToSend(m, s.prog[m.issued], 3)]), s.prog)
    ensures Inv(n, s)
  {
    hide Legal, MessageAt, AnswerAt, Allowed, FlatOk, CpuOk, WorkerOk, SentSoFar, ByteToSend;
    SentByte(m, s, 3);
    AtOk(s, m.issued);
    MovesOn(m, n, s);
    WorkerFrame(m, n, s);
    SendGrows(m, s, 3);
    assert MessageAt(s, m.issued)[..4] == MessageAt(s, m.issued);
  }

  lemma SendGrows(m: Machine, s: Script, k: nat)
    requires Legal(s) && Inv(m, s) && m.issued < |s.prog| && m.cpu == Send(k)
    ensures k < |MessageAt(s, m.issued)|
    ensures Sent(s, m.issued) + MessageAt(s, m.issued)[..k + 1]
            == TakenSoFar(m, s) + (m.queue + [ByteToSend(m, s.prog[m.issued], k)])
  {
    hide Legal, MessageAt, AnswerAt, Allowed, FlatOk, CpuOk, WorkerOk, ByteToSend, TakenSoFar, MailOk, Header, Sent;
    SentByte(m, s, k);
    Bounds(m, s);
    var msg := MessageAt(s, m.issued);
    assert msg[..k + 1] == msg[..k] + [msg[k]];
    assert SentSoFar(m, s) == Sent(s, m.issued) + msg[..k];
    assert TakenSoFar(m, s) + (m.queue + [msg[k]]) == (TakenSoFar(m, s) + m.queue) + [msg[k]];
  }

  /** Sending a byte that does not end the request. */
  lemma SentMore(m: Machine, n: Machine, s: Script, k: nat)
    requires Legal(s) && Inv(m, s) && m.issued < |s.prog| && m.cpu == Send(k)
    requires n == m.(queue := m.queue + [ByteToSend(m, s.prog[m.issued], k)], cpu := n.cpu)
    requires CpuOk(n, s) && OutCount(n, |MessageAt(s, m.issued)|) == k + 1
    ensures Inv(n, s)
  {
    hide Legal, MessageAt, AnswerAt, Allowed, FlatOk, CpuOk, WorkerOk, ByteToSend;
    SendGrows(m, s, k);
    WorkerFrame(m, n, s);
    Bounds(m, s);
  }

  lemma SendKeeps(m: Machine, n: Machine, s: Script)
    requires Legal(s) && Inv(m, s) && m.cpu.Send? && CpuStep(m, s.prog) == Some(n)
    ensures Inv(n, s)
  {
    hide Legal, MessageAt, AnswerAt, Allowed, FlatOk, WorkerOk, QueueOk, MailOk, ByteToSend, AfterReceive, LoopAgain,
         Scatter;
    var r, k := s.prog[m.issued], m.cpu.k;
    SentByte(m, s, k);
    if r.Configure? && k == 3 {
      ConfigureSent(m, n, s);
    } else {
      AtOk(s, m.issued);
      SentCpuOk(m, n, s, k);
      SentMore(m, n, s, k);
    }
  }

  lemma SentCpuOk(m: Machine, n: Machine, s: Script, k: nat)
    requires Legal(s) && Inv(m, s) && m.cpu == Send(k) && CpuStep(m, s.prog) == Some(n)
    requires m.issued < |s.prog| && !(s.prog[m.issued].Configure? && k == 3)
    ensures n == m.(queue := m.queue + [ByteToSend(m, s.prog[m.issued], k)], cpu := n.cpu)
    ensures CpuOk(n, s) && OutCount(n, |MessageAt(s, m.issued)|) == k + 1
  {
    hide Legal, MessageAt, AnswerAt, FlatOk, WorkerOk, QueueOk, MailOk, ByteToSend, AfterReceive, LoopAgain, Scatter,
         Allowed;
    var r := s.prog[m.issued];
    AtOk(s, m.issued);
    SentByte(m, s, k);
    if Transfers(r) {
      GoodBuffer(s, m.issued);
    }
    if r.WriteSector? && k + 1 > 9 {
      LoopLength(r.buf);
      assert LoopAgain(r.buf, k + 1 - 9) <==> k + 1 - 9 < 512;
    }
    if n.cpu.AwaitInt? {
      assert AnswerAt(s, m.issued)[..0] == [];
    }
  }

  lemma GoodBuffer(s: Script, i: nat)
    requires Legal(s) && i < |s.prog| && Transfers(s.prog[i])
    ensures !BadBuffer(s.prog[i].buf)
  {
    AtOk(s, i);
  }

  // ------------------------------------------------------------- receiving

  lemma BusyWaitKeeps(m: Machine, n: Machine, s: Script)
    requires Legal(s) && Inv(m, s) && (m.cpu.AwaitRqm? || m.cpu.AwaitInt? || m.cpu.Load?)
    requires CpuStep(m, s.prog) == Some(n)
    ensures Inv(n, s)
  {
    hide Legal, MessageAt, AnswerAt, Allowed, FlatOk, WorkerOk, AfterSend, AfterReceive, LoopAgain, ByteToSend;
    WorkerFrame(m, n, s);
    var r := s.prog[m.issued];
    if m.cpu.AwaitRqm? {
      assert AnswerAt(s, m.issued)[..0] == [];
    } else if m.cpu.Load? {
      ReadLength(m, s, m.cpu.stage, m.cpu.k);
      MailHead(m, s);
    }
    assert CpuOk(n, s);
    assert SentSoFar(n, s) == SentSoFar(m, s);
  }

  lemma ReadLength(m: Machine, s: Script, stage: Stage, k: nat)
    requires Legal(s) && m.issued < |s.prog| && InStage(s.prog[m.issued], stage, k) && Reading(m, s, stage, k)
    ensures Received(s.prog[m.issued], stage, k) < |AnswerAt(s, m.issued)|
    ensures |m.got| == Received(s.prog[m.issued], stage, k)
  {
    hide Legal, AnswerAt, FlatOk, Allowed, Scatter;
  }

  /** The data part of an answer is the sector. */
  lemma AnswerData(s: Script, i: nat)
    requires Legal(s) && i < |s.prog| && s.prog[i].ReadSector?
    ensures At(s, i + 1).ram == Scatter(At(s, i).ram, s.prog[i].buf, AnswerAt(s, i)[..512])
  {
    hide Legal, Scatter, BadBuffer, Base;
    AtOk(s, i);
    var f, r := At(s, i), s.prog[i];
    var start := StartOf(f, r);
    assert AnswerAt(s, i)[..512] == f.disks[r.slot % 4].image[start..start + 512];
  }

  lemma ScatterStep(ram: seq<byte>, buf: u16, bytes: seq<byte>, k: nat)
    requires |ram| == 0x1_0000 && k < |bytes|
    ensures Scatter(ram, buf, bytes[..k + 1]) == Scatter(ram, buf, bytes[..k])[Wrap16(buf + k) := bytes[k]]
  {
    var b := bytes[..k + 1];
    assert b[..|b| - 1] == bytes[..k] && b[|b| - 1] == bytes[k];
  }

  /** Emptying the mailbox, once the CPU's part of the invariant is known. */
  lemma Received1(m: Machine, n: Machine, s: Script)
    requires Legal(s) && Inv(m, s) && m.intr && !n.intr
    requires (n.queue, n.worker, n.drives, n.eis, n.st, n.served, n.rqm, n.curr)
          == (m.queue, m.worker, m.drives, m.eis, m.st, m.served, m.rqm, m.curr)
    requires WellFormed(n) && CpuOk(n, s) && SentSoFar(n, s) == SentSoFar(m, s)
    requires Answered(s, n.issued) + n.got == Answered(s, m.issued) + m.got + [m.curr]
    ensures Inv(n, s)
  {
    hide Legal, CpuOk, WorkerOk, TakenSoFar, RaisedSoFar, SentSoFar, Answered;
    WorkerFrame(m, n, s);
  }

  lemma LowerKeeps(m: Machine, n: Machine, s: Script)
    requires Legal(s) && Inv(m, s) && m.cpu.Lower? && CpuStep(m, s.prog) == Some(n)
    ensures Inv(n, s)
  {
    hide Legal, MessageAt, AnswerAt, Allowed, FlatOk, WorkerOk, QueueOk, MailOk, AfterSend, LoopAgain, ByteToSend,
         Scatter, SentSoFar;
    var r, stage, k, v := s.prog[m.issued], m.cpu.stage, m.cpu.k, m.cpu.v;
    ReadLength(m, s, stage, k);
    MailHead(m, s);
    if stage.Data? {
      DataStored(m, n, s);
    } else if k + 1 < 7 {
      StatusRead(m, n, s);
    } else {
      RequestDone(m, n, s);
    }
    Received1(m, n, s);
  }

  lemma StatusRead(m: Machine, n: Machine, s: Script)
    requires Legal(s) && Inv(m, s) && m.cpu.Lower? && m.cpu.stage.Status? && m.cpu.k + 1 < 7
    requires CpuStep(m, s.prog) == Some(n)
    ensures CpuOk(n, s) && SentSoFar(n, s) == SentSoFar(m, s)
    ensures n.issued == m.issued && n.got == m.got + [m.cpu.v]
  {
    hide Legal, MessageAt, AnswerAt, Allowed, FlatOk, WorkerOk, QueueOk, MailOk, AfterSend, LoopAgain, ByteToSend,
         Scatter;
    var k := m.cpu.k;
    ReadLength(m, s, Status, k);
    var answer, at := AnswerAt(s, m.issued), Received(s.prog[m.issued], Status, k);
    assert answer[..at + 1] == answer[..at] + [m.cpu.v];
  }

  lemma RequestDone(m: Machine, n: Machine, s: Script)
    requires Legal(s) && Inv(m, s) && m.cpu.Lower? && m.cpu.stage.Status? && m.cpu.k + 1 == 7
    requires CpuStep(m, s.prog) == Some(n)
    ensures CpuOk(n, s) && SentSoFar(n, s) == SentSoFar(m, s)
    ensures m.issued < |s.prog| && Answered(s, n.issued) == Answered(s, m.issued) + (m.got + [m.cpu.v])
  {
    hide Legal, MessageAt, AnswerAt, Allowed, FlatOk, WorkerOk, QueueOk, MailOk, AfterSend, LoopAgain, ByteToSend,
         Scatter, SentSoFar, Sent, Answered, At;
    RamAfter(m, s);
    RamLength(s, m.issued + 1);
    MovesOn(m, n, s);
    WholeMessageSent(m, s);
    ReadLength(m, s, Status, m.cpu.k);
    var answer, at := AnswerAt(s, m.issued), Received(s.prog[m.issued], Status, m.cpu.k);
    assert answer == answer[..at] + [answer[at]];
  }

  lemma WholeMessageSent(m: Machine, s: Script)
    requires Legal(s) && CpuOk(m, s) && m.issued < |s.prog| && !m.cpu.Send?
    ensures SentSoFar(m, s) == Sent(s, m.issued) + MessageAt(s, m.issued)
  {
    hide Legal, MessageAt, AnswerAt, FlatOk, Allowed, Scatter, Reading;
  }

  lemma RamAfter(m: Machine, s: Script)
    requires Legal(s) && CpuOk(m, s) && m.issued < |s.prog| && m.cpu.Lower? && m.cpu.stage.Status?
    ensures m.ram == At(s, m.issued + 1).ram
  {
    hide Legal, MessageAt, AnswerAt, FlatOk, Allowed, Scatter, Gather;
    AtOk(s, m.issued);
    if s.prog[m.issued].ReadSector? {
      AnswerData(s, m.issued);
    }
  }

  lemma DataStored(m: Machine, n: Machine, s: Script)
    requires Legal(s) && Inv(m, s) && m.cpu.Lower? && m.cpu.stage.Data? && CpuStep(m, s.prog) == Some(n)
    ensures CpuOk(n, s) && SentSoFar(n, s) == SentSoFar(m, s)
    ensures n.issued == m.issued && n.got == m.got + [m.cpu.v]
  {
    hide Legal, MessageAt, AnswerAt, Allowed, FlatOk, WorkerOk, QueueOk, MailOk, AfterSend, LoopAgain, ByteToSend,
         Scatter;
    var r, k, v := s.prog[m.issued], m.cpu.k, m.cpu.v;
    AtOk(s, m.issued);
    ReadLength(m, s, m.cpu.stage, k);
    GoodBuffer(s, m.issued);
    LoopLength(r.buf);
    assert LoopAgain(r.buf, k + 1) <==> k + 1 < 512;
    var answer := AnswerAt(s, m.issued);
    assert answer[..k + 1] == answer[..k] + [v];
    RamLength(s, m.issued);
    ScatterStep(At(s, m.issued).ram, r.buf, answer, k);
  }

  lemma RamLength(s: Script, i: nat)
    requires Legal(s) && i <= |s.prog|
    ensures |At(s, i).ram| == 0x1_0000
  {
    AtOk(s, i);
  }

  lemma CpuKeeps(m: Machine, n: Machine, s: Script)
    requires Legal(s) && Inv(m, s) && CpuStep(m, s.prog) == Some(n)
    ensures Inv(n, s)
  {
    hide Legal, CpuOk, WorkerOk, QueueOk, MailOk, AfterSend, AfterReceive, ByteToSend;
    match m.cpu
    case Send(_) => SendKeeps(m, n, s);
    case AwaitRqm => BusyWaitKeeps(m, n, s);
    case AwaitInt(_, _) => BusyWaitKeeps(m, n, s);
    case Load(_, _) => BusyWaitKeeps(m, n, s);
    case Lower(_, _, _) => LowerKeeps(m, n, s);
    case Halted =>
  }

  // ------------------------------------------------------------- every run

  /** Power-on of a machine whose memory and drives are those of the reference. */
  ghost predicate StartsAs(m: Machine, s: Script)
    requires Legal(s)
  {
    Initial(m, s.prog) && m.ram == s.start.ram && m.eis == s.start.eis && m.st == s.st
    && AllStand(m.drives, s.start.disks)
  }

  lemma StartInv(m: Machine, s: Script)
    requires Legal(s) && StartsAs(m, s)
    ensures Inv(m, s)
  {
    if s.prog != [] {
      AtOk(s, 0);
      assert |Header(s.prog[0])| > 0;
    }
  }

  lemma {:induction false} RunKeeps(ms: seq<Machine>, s: Script)
    requires Legal(s) && Run(ms, s.prog) && StartsAs(ms[0], s)
    ensures Inv(ms[|ms| - 1], s)
  {
    hide Legal, Inv, StartsAs, WellFormed;
    if |ms| == 1 {
      StartInv(ms[0], s);
    } else {
      var init := ms[..|ms| - 1];
      RunKeeps(init, s);
      var m, n := ms[|ms| - 2], ms[|ms| - 1];
      assert Next(m, n, s.prog);
      if WorkerStep(m) == Some(n) {
        WorkerKeeps(m, n, s);
      } else if CpuStep(m, s.prog) == Some(n) {
        CpuKeeps(m, n, s);
      }
    }
  }

  /** Nothing moves any more: the program is over, the queue and the mailbox are empty
      and the worker polls. */
  predicate Finished(m: Machine) {
    m.cpu.Halted? && m.queue == [] && !m.intr && m.worker.Poll?
  }

  lemma {:induction false} SentStrict(s: Script, i: nat, j: nat)
    requires Legal(s) && i <= j <= |s.prog|
    ensures |Sent(s, i)| + (j - i) <= |Sent(s, j)|
    decreases j
  {
    hide Legal, FlatOk, Allowed, MessageAt;
    if i < j {
      SentStrict(s, i, j - 1);
      assert |Header(s.prog[j - 1])| > 0;
    }
  }

  lemma AllServed(m: Machine, s: Script)
    requires Legal(s) && Inv(m, s) && Finished(m)
    ensures m.served == |s.prog| && m.issued == |s.prog|
  {
    hide Legal, FlatOk, Allowed, MessageAt, AnswerAt, MailOk, AllStand;
    SentStrict(s, m.served, |s.prog|);
  }

  lemma EndState(m: Machine, s: Script)
    requires Legal(s) && Inv(m, s)
    ensures m.cpu.Halted? ==> m.ram == At(s, |s.prog|).ram
    ensures Finished(m) ==> AllStand(m.drives, At(s, |s.prog|).disks) && m.eis == At(s, |s.prog|).eis
    ensures m.worker != Crashed
  {
    hide Legal, FlatOk, Allowed, MessageAt, AnswerAt, MailOk, QueueOk, AllStand, At;
    if Finished(m) {
      AllServed(m, s);
    }
  }

  /** In every interleaving of every legal program: a CPU that is through has in its
      memory what the reference machine has, and once the worker is through as well
      the drives stand for the reference disks. */
  lemma InterleavingsRefine(ms: seq<Machine>, s: Script)
    requires Legal(s) && Run(ms, s.prog) && StartsAs(ms[0], s)
    ensures var m := ms[|ms| - 1];
            && (m.cpu.Halted? ==> m.ram == At(s, |s.prog|).ram)
            && (Finished(m) ==> AllStand(m.drives, At(s, |s.prog|).disks) && m.eis == At(s, |s.prog|).eis)
            && m.worker != Crashed
  {
    var m := ms[|ms| - 1];
    RunKeeps(ms, s);
    hide Legal, Run, StartsAs, Inv, At, AllStand;
    EndState(m, s);
  }

  /** In every reachable state, over the whole life of the machine: the bytes raised
      are the bytes received, in order, and at most the one now in the mailbox; and
      what the CPU has of the current answer is its beginning. */
  lemma NothingLostOrDuplicated(ms: seq<Machine>, s: Script)
    requires Legal(s) && Run(ms, s.prog) && StartsAs(ms[0], s)
    ensures var m := ms[|ms| - 1];
            && m.served <= |s.prog| && m.issued <= |s.prog|
            && RaisedSoFar(m, s) == Answered(s, m.issued) + m.got + (if m.intr then [m.curr] else [])
            && (m.issued < |s.prog| ==> m.got <= AnswerAt(s, m.issued))
  {
    var m := ms[|ms| - 1];
    RunKeeps(ms, s);
    hide Legal, FlatOk, Allowed, MessageAt, AnswerAt, AllStand, Run, StartsAs, RaisedSoFar, CpuOk, WorkerOk, QueueOk;
    Bounds(m, s);
    if m.issued < |s.prog| {
      GotIsPrefix(m, s);
    }
  }

  // ------------------------------------------------------------- the reference keeps data

  lemma {:induction false} ScatterElsewhere(ram: seq<byte>, buf: u16, bytes: seq<byte>, j: nat)
    requires |ram| == 0x1_0000 && |bytes| <= 512 && j < 0x1_0000
    requires Wrap16(j - buf) >= |bytes|
    ensures Scatter(ram, buf, bytes)[j] == ram[j]
  {
    if bytes != [] {
      assert Wrap16(buf + (|bytes| - 1)) != j;
      ScatterElsewhere(ram, buf, bytes[..|bytes| - 1], j);
    }
  }

  lemma {:induction false} ScatterAt(ram: seq<byte>, buf: u16, bytes: seq<byte>, i: nat)
    requires |ram| == 0x1_0000 && |bytes| <= 512 && i < |bytes|
    ensures Scatter(ram, buf, bytes)[Wrap16(buf + i)] == bytes[i]
  {
    if i < |bytes| - 1 {
      ScatterAt(ram, buf, bytes[..|bytes| - 1], i);
      assert Wrap16(buf + i) != Wrap16(buf + |bytes| - 1);
    }
  }

  /** Reading a buffer back gives the bytes that were stored, even across the end of
      the segment. */
  lemma GatherScatter(ram: seq<byte>, buf: u16, bytes: seq<byte>)
    requires |ram| == 0x1_0000 && |bytes| == 512
    ensures Gather(Scatter(ram, buf, bytes), buf) == bytes
  {
    forall i | 0 <= i < 512
      ensures Gather(Scatter(ram, buf, bytes), buf)[i] == bytes[i]
    {
      ScatterAt(ram, buf, bytes, i);
    }
  }

  /** Request i writes the sector of a slot that starts at an offset. */
  ghost predicate Writes(s: Script, i: nat, slot: nat, start: int)
    requires Legal(s) && i < |s.prog|
  {
    s.prog[i].WriteSector? && s.prog[i].slot % 4 == slot && StartOf(At(s, i), s.prog[i]) == start
  }

  lemma SectorKept(s: Script, i: nat, slot: nat, start: nat)
    requires Legal(s) && i < |s.prog| && slot < 4 && start % 0x200 == 0 && start + 512 <= DISK_SZ
    requires |At(s, i).disks| == 4 && At(s, i).disks[slot].present && |At(s, i).disks[slot].image| == DISK_SZ
    requires !Writes(s, i, slot, start)
    ensures |At(s, i + 1).disks| == 4 && At(s, i + 1).disks[slot].present && |At(s, i + 1).disks[slot].image| == DISK_SZ
    ensures At(s, i + 1).disks[slot].image[start..start + 512] == At(s, i).disks[slot].image[start..start + 512]
  {
    hide Legal, BadBuffer, Base, Scatter, Gather;
    AtOk(s, i);
    AtOk(s, i + 1);
    var f, r := At(s, i), s.prog[i];
    if Transfers(r) {
      StartAtSector(f, r);
      if r.WriteSector? && r.slot % 4 == slot {
        OtherSector(f.disks[slot].image, StartOf(f, r), Gather(f.ram, r.buf), start);
      }
    }
    hide Patch, StartOf;
  }

  lemma OtherSector(image: seq<byte>, at: nat, data: seq<byte>, start: nat)
    requires |data| == 512 && at + 512 <= |image| && start + 512 <= |image|
    requires at % 0x200 == 0 && start % 0x200 == 0 && at != start
    ensures Patch(image, at, data)[start..start + 512] == image[start..start + 512]
  {
    assert at + 512 <= start || start + 512 <= at;
  }

  lemma {:induction false} SectorStays(s: Script, i: nat, j: nat, slot: nat, start: nat)
    requires Legal(s) && i <= j <= |s.prog| && slot < 4 && start % 0x200 == 0 && start + 512 <= DISK_SZ
    requires |At(s, i).disks| == 4 && At(s, i).disks[slot].present && |At(s, i).disks[slot].image| == DISK_SZ
    requires forall k :: i <= k < j ==> !Writes(s, k, slot, start)
    ensures |At(s, j).disks| == 4 && At(s, j).disks[slot].present && |At(s, j).disks[slot].image| == DISK_SZ
    ensures At(s, j).disks[slot].image[start..start + 512] == At(s, i).disks[slot].image[start..start + 512]
    decreases j
  {
    hide Legal, FlatOk, Allowed, Exec, Writes;
    if i < j {
      SectorStays(s, i, j - 1, slot, start);
      SectorKept(s, j - 1, slot, start);
    }
  }

  lemma SectorWritten(f: Flat, r: Request)
    requires FlatOk(f) && Allowed(f, r) && r.WriteSector?
    ensures var start, slot, g := StartOf(f, r), r.slot % 4, Exec(f, r);
            && 0 <= start && start + 512 <= DISK_SZ && |g.disks| == 4 && g.disks[slot].present
            && |g.disks[slot].image| == DISK_SZ && g.disks[slot].image[start..start + 512] == Gather(f.ram, r.buf)
  {
    hide Base, Gather;
  }

  /** A read returns what was last written to its sector, whatever came in between. */
  lemma ReadReturnsLastWrite(s: Script, i: nat, j: nat)
    requires Legal(s) && i < j < |s.prog|
    requires s.prog[i].WriteSector? && s.prog[j].ReadSector? && s.prog[i].slot % 4 == s.prog[j].slot % 4
    requires StartOf(At(s, i), s.prog[i]) == StartOf(At(s, j), s.prog[j])
    requires forall k :: i < k < j ==> !Writes(s, k, s.prog[j].slot % 4, StartOf(At(s, j), s.prog[j]))
    ensures FlatOk(At(s, i)) && FlatOk(At(s, j + 1))
    ensures Gather(At(s, j + 1).ram, s.prog[j].buf) == Gather(At(s, i).ram, s.prog[i].buf)
  {
    hide Legal, Allowed, FlatOk, Exec, Scatter, Gather, Writes, StartOf;
    AtOk(s, i);
    AtOk(s, j);
    AtOk(s, j + 1);
    var f, r := At(s, i), s.prog[i];
    var slot, start := r.slot % 4, StartOf(f, r);
    StartAtSector(f, r);
    SectorWritten(f, r);
    SectorStays(s, i + 1, j, slot, start);
    RamLength(s, i);
    RamLength(s, j);
    var written := Gather(f.ram, r.buf);
    ReadFills(At(s, j), s.prog[j]);
    GatherScatter(At(s, j).ram, s.prog[j].buf, written);
  }

  lemma ReadFills(f: Flat, r: Request)
    requires FlatOk(f) && Allowed(f, r) && r.ReadSector?
    ensures var start, disk := StartOf(f, r), f.disks[r.slot % 4];
            Exec(f, r).ram == Scatter(f.ram, r.buf, disk.image[start..start + 512])
  {
  }

  /** A write leaves every other byte of every disk alone, and the memory too. */
  lemma WriteTouchesOneSector(f: Flat, r: Request)
    requires FlatOk(f) && Allowed(f, r) && r.WriteSector?
    ensures var g, slot, start := Exec(f, r), r.slot % 4, StartOf(f, r);
            && g.ram == f.ram
            && (forall k :: 0 <= k < 4 && k != slot ==> g.disks[k] == f.disks[k])
            && |g.disks[slot].image| == DISK_SZ
            && (forall p :: 0 <= p < DISK_SZ ==>
                  g.disks[slot].image[p]
                  == (if start <= p < start + 512 then f.ram[Wrap16(r.buf + (p - start))] else f.disks[slot].image[p]))
  {
    hide Base;
    var image, start := f.disks[r.slot % 4].image, StartOf(f, r);
    assert |Patch(image, start, Gather(f.ram, r.buf))| == DISK_SZ;
  }
}
