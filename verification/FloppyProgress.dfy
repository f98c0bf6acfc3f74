/** The exchange cannot get stuck and cannot go on for ever: in every reachable
    unfinished state some thread has a step that is not a spin, and every such step
    uses up some of a fixed amount of work. */
module FloppyProgress {
  import opened Words
  import opened FloppyDrive
  import opened FloppyProtocol
  import opened FloppyRefinement
  import opened FloppyProof
  import opened FloppyTheorems

  // ------------------------------------------------------------- the measure

  function MessageLength(r: Request): nat {
    |Header(r)| + if r.WriteSector? then 512 else 0
  }

  function CpuCost(r: Request): nat {
    MessageLength(r) + 1 + 3 * AnswerLength(r)
  }

  /** Steps the CPU has left in the current request. */
  function CpuLeft(pc: CpuPc, r: Request): int {
    match pc
    case Send(k) => CpuCost(r) - k
    case AwaitRqm => 1 + 3 * AnswerLength(r)
    case AwaitInt(stage, k) => 3 * (AnswerLength(r) - Received(r, stage, k))
    case Load(stage, k) => 3 * (AnswerLength(r) - Received(r, stage, k)) - 1
    case Lower(stage, k, _) => 3 * (AnswerLength(r) - Received(r, stage, k)) - 2
    case Halted => 0
  }

  function DataIn(r: Request): nat {
    if r.WriteSector? then 512 else 0
  }

  function AfterArgs(r: Request): nat {
    if r.Configure? then 0 else 4 * AnswerLength(r) + DataIn(r) + 4
  }

  function WorkerCost(r: Request): nat {
    AfterArgs(r) + |Header(r)| + 2
  }

  /** Steps the worker has left in the current command. */
  function WorkerLeft(pc: WorkerPc, r: Request): int {
    match pc
    case Poll => WorkerCost(r)
    case TakeCommand => WorkerCost(r) - 1
    case SetRqm(_) => AfterArgs(r) + |Header(r)|
    case TakeArgs(_, args) => AfterArgs(r) + |Header(r)| - 1 - |args|
    case SeekSector(_, _) => AfterArgs(r)
    case TakeData(_, _, k) => 4 * AnswerLength(r) + 3 + (DataIn(r) - k)
    case Fetch(_, _, k) => 4 * (AnswerLength(r) - k) + 2
    case AwaitFree(_, _, k, _) => 4 * (AnswerLength(r) - k) + 1
    case Store(_, _, k, _) => 4 * (AnswerLength(r) - k)
    case Raise(_, _, k, _) => 4 * (AnswerLength(r) - k) - 1
    case ClearRqm => 1
    case Crashed => 0
  }

  function CpuRest(prog: seq<Request>, i: nat): nat
    decreases |prog| - i
  {
    if i >= |prog| then 0 else CpuCost(prog[i]) + CpuRest(prog, i + 1)
  }

  function WorkerRest(prog: seq<Request>, i: nat): nat
    decreases |prog| - i
  {
    if i >= |prog| then 0 else WorkerCost(prog[i]) + WorkerRest(prog, i + 1)
  }

  function CpuPart(pc: CpuPc, issued: nat, prog: seq<Request>): int {
    if issued < |prog| then CpuLeft(pc, prog[issued]) + CpuRest(prog, issued + 1) else 0
  }

  function WorkerPart(pc: WorkerPc, served: nat, prog: seq<Request>): int {
    if served < |prog| then WorkerLeft(pc, prog[served]) + WorkerRest(prog, served + 1) else 0
  }

  function Work(m: Machine, prog: seq<Request>): int {
    CpuPart(m.cpu, m.issued, prog) + WorkerPart(m.worker, m.served, prog)
  }

  lemma WorkBounded(m: Machine, s: Script)
    requires Legal(s) && Inv(m, s)
    ensures 0 <= Work(m, s.prog)
  {
    CpuPartBounded(m, s);
    WorkerPartBounded(m, s);
    hide Legal, Inv, CpuPart, WorkerPart;
  }

  lemma CpuPartBounded(m: Machine, s: Script)
    requires Legal(s) && Inv(m, s)
    ensures 0 <= CpuPart(m.cpu, m.issued, s.prog)
  {
    hide Legal, FlatOk, Allowed, MessageAt, AnswerAt, AllStand, DriveAfter, QueueOk, MailOk, Reading, WorkerOk;
  }

  lemma WorkerPartBounded(m: Machine, s: Script)
    requires Legal(s) && Inv(m, s)
    ensures 0 <= WorkerPart(m.worker, m.served, s.prog)
  {
    hide Legal, FlatOk, Allowed, MessageAt, AnswerAt, AllStand, DriveAfter, QueueOk, MailOk, Reading, CpuOk;
  }

  // ------------------------------------------------------------- every step counts

  /** A fresh request holds all of its cost. */
  lemma NextHoldsCost(prog: seq<Request>, i: nat)
    requires i < |prog|
    ensures CpuPart(if i + 1 < |prog| then Send(0) else Halted, i + 1, prog) == CpuRest(prog, i + 1)
    ensures WorkerPart(Poll, i + 1, prog) == WorkerRest(prog, i + 1)
  {
  }

  lemma CpuStepWorks(m: Machine, n: Machine, s: Script)
    requires Legal(s) && Inv(m, s) && CpuStep(m, s.prog) == Some(n)
    ensures Work(n, s.prog) < Work(m, s.prog)
  {
    hide Legal, FlatOk, Allowed, AnswerAt, MessageAt, WorkerOk, QueueOk, MailOk, Reading, LoopAgain, ByteToSend,
         WorkerPart, CpuRest, AfterSend, AfterReceive, Header, BadBuffer, AllStand, DriveAfter;
    NextHoldsCost(s.prog, m.issued);
    if m.cpu.Lower? {
      LowerWorks(m, n, s);
    } else if m.cpu.Send? {
      SendWorks(m, n, s);
    }
  }

  lemma HeaderLength(r: Request)
    ensures |Header(r)| == if r.Configure? then 4 else 9
  {
  }

  lemma SendWorks(m: Machine, n: Machine, s: Script)
    requires Legal(s) && Inv(m, s) && m.cpu.Send? && CpuStep(m, s.prog) == Some(n)
    ensures n.worker == m.worker && n.served == m.served
    ensures CpuPart(n.cpu, n.issued, s.prog) < CpuPart(m.cpu, m.issued, s.prog)
  {
    hide Legal, FlatOk, Allowed, AnswerAt, MessageAt, WorkerOk, QueueOk, MailOk, Reading, LoopAgain, ByteToSend,
         WorkerPart, CpuRest, AfterReceive, Header, BadBuffer, AllStand, DriveAfter;
    NextHoldsCost(s.prog, m.issued);
    HeaderLength(s.prog[m.issued]);
    if s.prog[m.issued].WriteSector? && m.cpu.k >= 9 {
      LoopEnds(s, m.issued, m.cpu.k - 8);
    }
  }

  lemma LowerWorks(m: Machine, n: Machine, s: Script)
    requires Legal(s) && Inv(m, s) && m.cpu.Lower? && CpuStep(m, s.prog) == Some(n)
    ensures n.worker == m.worker && n.served == m.served
    ensures CpuPart(n.cpu, n.issued, s.prog) < CpuPart(m.cpu, m.issued, s.prog)
  {
    hide Legal, FlatOk, Allowed, AnswerAt, MessageAt, WorkerOk, QueueOk, MailOk, Reading, LoopAgain, ByteToSend,
         WorkerPart, CpuRest, AfterSend;
    NextHoldsCost(s.prog, m.issued);
    if m.cpu.stage.Data? {
      LoopEnds(s, m.issued, m.cpu.k + 1);
    }
  }

  lemma LoopEnds(s: Script, i: nat, k: nat)
    requires Legal(s) && i < |s.prog| && Transfers(s.prog[i]) && 1 <= k <= 512
    ensures LoopAgain(s.prog[i].buf, k) <==> k < 512
  {
    hide Legal;
    GoodBuffer(s, i);
    LoopLength(s.prog[i].buf);
  }

  lemma WorkerStepWorks(m: Machine, n: Machine, s: Script)
    requires Legal(s) && Inv(m, s) && WorkerStep(m) == Some(n)
    ensures Work(n, s.prog) < Work(m, s.prog)
  {
    hide Legal, WorkerPart, CpuPart, CpuOk, WorkerOk, QueueOk, MailOk, TakeArgsStep, SeekStep, TakeDataStep, FetchStep;
    if m.worker.Poll? || m.worker.TakeCommand? {
      QueueHead(m, s);
      CommandWorks(m, n, s);
    } else if m.worker.SeekSector? {
      SeekWorks(m, n, s);
    } else if m.worker.TakeData? {
      TakeDataWorks(m, n, s);
    } else if m.worker.Fetch? {
      FetchWorks(m, n, s);
    } else if m.worker.TakeArgs? {
      ArgsWork(m, n, s);
    } else {
      PlainWorks(m, n, s);
    }
  }

  lemma PlainWorks(m: Machine, n: Machine, s: Script)
    requires Legal(s) && Inv(m, s) && WorkerStep(m) == Some(n)
    requires m.worker.SetRqm? || m.worker.AwaitFree? || m.worker.Store? || m.worker.Raise? || m.worker.ClearRqm?
    ensures n.cpu == m.cpu && n.issued == m.issued
    ensures WorkerPart(n.worker, n.served, s.prog) < WorkerPart(m.worker, m.served, s.prog)
  {
    hide Legal, FlatOk, Allowed, MessageAt, AnswerAt, CpuOk, QueueOk, MailOk, AllStand, DriveAfter, CpuPart, WorkerRest;
    hide TakeCommandStep, TakeArgsStep, SeekStep, TakeDataStep, FetchStep;
    if m.worker.ClearRqm? {
      NextHoldsCost(s.prog, m.served);
    } else if m.worker.SetRqm? {
      assert |Header(s.prog[m.served])| > 0;
    }
  }

  lemma CommandWorks(m: Machine, n: Machine, s: Script)
    requires Legal(s) && Inv(m, s) && (m.worker.Poll? || m.worker.TakeCommand?) && WorkerStep(m) == Some(n)
    requires m.served < |s.prog|
    ensures n.cpu == m.cpu && n.issued == m.issued
    ensures WorkerPart(n.worker, n.served, s.prog) < WorkerPart(m.worker, m.served, s.prog)
  {
    hide Legal, FlatOk, Allowed, MessageAt, AnswerAt, CpuOk, QueueOk, MailOk, AllStand, WorkerRest;
    QueueHead(m, s);
    MessageHeader(s, m.served, 0);
  }

  lemma ArgsWork(m: Machine, n: Machine, s: Script)
    requires Legal(s) && Inv(m, s) && m.worker.TakeArgs? && WorkerStep(m) == Some(n)
    ensures n.cpu == m.cpu && n.issued == m.issued
    ensures WorkerPart(n.worker, n.served, s.prog) < WorkerPart(m.worker, m.served, s.prog)
  {
    hide Legal, FlatOk, Allowed, MessageAt, AnswerAt, CpuOk, QueueOk, MailOk, AllStand, WorkerRest;
    NextArgument(m, s, m.worker.cmd, m.worker.args);
    ArgumentHeader(m, s);
    NextHoldsCost(s.prog, m.served);
  }

  lemma ArgumentHeader(m: Machine, s: Script)
    requires Legal(s) && WorkerOk(m, s) && m.worker.TakeArgs?
    ensures m.served < |s.prog| && (m.worker.cmd == FDD_CONFIGURE <==> s.prog[m.served].Configure?)
  {
    hide Legal, FlatOk, Allowed, MessageAt, AnswerAt, AllStand;
  }

  lemma SeekWorks(m: Machine, n: Machine, s: Script)
    requires Legal(s) && Inv(m, s) && WorkerStep(m) == Some(n) && m.worker.SeekSector?
    ensures n.cpu == m.cpu && n.issued == m.issued
    ensures WorkerPart(n.worker, n.served, s.prog) < WorkerPart(m.worker, m.served, s.prog)
  {
    hide Legal, CpuOk, WorkerOk, QueueOk, MailOk, WorkerRest, Header, Seek, ReadByte, WriteByte, StatusByte,
         ByteCount, BytesToHost, SeekTarget;
    hide TakeCommandStep, TakeArgsStep, TakeDataStep, FetchStep;
    WorkerKeeps(m, n, s);
    NotCrashed(n, s);
    ServingTransfer(m, s);
    TransferCounts(m, s);
    ArgsOf(s.prog[m.served], m.worker.cmd, m.worker.args);
  }

  lemma TakeDataWorks(m: Machine, n: Machine, s: Script)
    requires Legal(s) && Inv(m, s) && WorkerStep(m) == Some(n) && m.worker.TakeData?
    ensures n.cpu == m.cpu && n.issued == m.issued
    ensures WorkerPart(n.worker, n.served, s.prog) < WorkerPart(m.worker, m.served, s.prog)
  {
    hide Legal, CpuOk, WorkerOk, QueueOk, MailOk, WorkerRest, Header, Seek, ReadByte, WriteByte, StatusByte,
         ByteCount, BytesToHost, SeekTarget;
    hide TakeCommandStep, TakeArgsStep, SeekStep, FetchStep;
    WorkerKeeps(m, n, s);
    NotCrashed(n, s);
    ServingTransfer(m, s);
    TransferCounts(m, s);
    ArgsOf(s.prog[m.served], m.worker.cmd, m.worker.args);
  }

  lemma FetchWorks(m: Machine, n: Machine, s: Script)
    requires Legal(s) && Inv(m, s) && WorkerStep(m) == Some(n) && m.worker.Fetch?
    ensures n.cpu == m.cpu && n.issued == m.issued
    ensures WorkerPart(n.worker, n.served, s.prog) < WorkerPart(m.worker, m.served, s.prog)
  {
    hide Legal, CpuOk, WorkerOk, QueueOk, MailOk, WorkerRest, Header, Seek, ReadByte, WriteByte, StatusByte,
         ByteCount, BytesToHost, SeekTarget;
    hide TakeCommandStep, TakeArgsStep, SeekStep, TakeDataStep;
    WorkerKeeps(m, n, s);
    NotCrashed(n, s);
    ServingTransfer(m, s);
    TransferCounts(m, s);
    ArgsOf(s.prog[m.served], m.worker.cmd, m.worker.args);
  }

  lemma NotCrashed(m: Machine, s: Script)
    requires Legal(s) && WorkerOk(m, s)
    ensures !m.worker.Crashed?
  {
  }

  lemma TransferCounts(m: Machine, s: Script)
    requires Legal(s) && WorkerOk(m, s)
    requires m.worker.TakeData? || m.worker.Fetch? || m.worker.SeekSector?
    ensures m.served < |s.prog|
    ensures m.worker.TakeData? ==> s.prog[m.served].WriteSector? && m.worker.k <= 512
    ensures m.worker.Fetch? ==> m.worker.k <= AnswerLength(s.prog[m.served])
  {
    hide Legal, FlatOk, Allowed, MessageAt, AnswerAt, AllStand, DriveAfter, Header;
  }

  /** A thread moves. */
  ghost predicate Moves(m: Machine, n: Machine, prog: seq<Request>)
    requires WellFormed(m)
  {
    WorkerStep(m) == Some(n) || CpuStep(m, prog) == Some(n)
  }

  /** However the threads are scheduled, the moves between any two states of a run
      are bounded by the work the first one holds. */
  lemma {:induction false} MovesBounded(ms: seq<Machine>, s: Script)
    requires Legal(s) && |ms| > 0 && Inv(ms[0], s)
    requires forall i :: 0 <= i < |ms| ==> WellFormed(ms[i])
    requires forall i :: 0 <= i < |ms| - 1 ==> Moves(ms[i], ms[i + 1], s.prog)
    ensures Inv(ms[|ms| - 1], s)
    ensures |ms| - 1 <= Work(ms[0], s.prog) - Work(ms[|ms| - 1], s.prog)
    ensures |ms| - 1 <= Work(ms[0], s.prog)
  {
    hide Legal, Inv, WellFormed, Work;
    if |ms| > 1 {
      var init := ms[..|ms| - 1];
      MovesBounded(init, s);
      var m, n := ms[|ms| - 2], ms[|ms| - 1];
      assert Moves(m, n, s.prog);
      if WorkerStep(m) == Some(n) {
        WorkerKeeps(m, n, s);
        WorkerStepWorks(m, n, s);
      } else {
        CpuKeeps(m, n, s);
        CpuStepWorks(m, n, s);
      }
    }
    WorkBounded(ms[|ms| - 1], s);
  }

  // ------------------------------------------------------------- no deadlock

  lemma {:induction false} AnsweredLengths(s: Script, i: nat, j: nat)
    requires Legal(s) && i <= j <= |s.prog|
    ensures |Answered(s, i)| <= |Answered(s, j)|
    ensures i < j ==> |Answered(s, i)| + AnswerLength(s.prog[i]) <= |Answered(s, j)|
  {
    hide Legal, FlatOk, Allowed;
    AnsweredGrows(s, i, j);
    if i < j {
      AnsweredGrows(s, i + 1, j);
    }
  }

  lemma SentLengths(s: Script, i: nat, j: nat)
    requires Legal(s) && i < j <= |s.prog|
    ensures |Sent(s, i)| + MessageLength(s.prog[i]) <= |Sent(s, j)|
  {
    hide Legal, FlatOk, Allowed;
    SentGrows(s, i + 1, j);
  }

  /** A worker part-way through a message has taken no whole number of messages. */
  lemma PartMessage(s: Script, i: nat, k: nat, j: nat)
    requires Legal(s) && i < |s.prog| && j <= |s.prog| && 0 < k < MessageLength(s.prog[i])
    ensures |Sent(s, i)| + k != |Sent(s, j)|
  {
    hide Legal;
    if i < j {
      SentLengths(s, i, j);
    } else {
      SentStrict(s, j, i);
    }
  }

  /** Lengths of the four streams, where the sequences themselves do not matter. */
  ghost predicate Balanced(m: Machine, s: Script, sent: int, taken: int, raised: int)
    requires Legal(s) && m.issued <= |s.prog| && m.served <= |s.prog|
  {
    && (if m.issued == |s.prog| then sent == |Sent(s, m.issued)|
        else sent == |Sent(s, m.issued)| + OutCount(m, MessageLength(s.prog[m.issued])))
    && (if m.served == |s.prog| then taken == |Sent(s, m.served)|
        else taken == |Sent(s, m.served)| + TakenCount(m.worker, MessageLength(s.prog[m.served])))
    && (if m.served == |s.prog| then raised == |Answered(s, m.served)|
        else raised == |Answered(s, m.served)| + RaisedCount(m.worker, AnswerLength(s.prog[m.served])))
    && sent == taken + |m.queue|
    && raised == |Answered(s, m.issued)| + |m.got| + if m.intr then 1 else 0
  }

  lemma Balance(m: Machine, s: Script) returns (sent: int, taken: int, raised: int)
    requires Legal(s) && Inv(m, s)
    ensures m.issued <= |s.prog| && m.served <= |s.prog| && Balanced(m, s, sent, taken, raised)
  {
    hide Legal, FlatOk, Allowed, CpuOk, WorkerOk;
    Bounds(m, s);
    if m.served < |s.prog| {
      CountsFit(m, s);
    }
    sent, taken, raised := |SentSoFar(m, s)|, |TakenSoFar(m, s)|, |RaisedSoFar(m, s)|;
  }

  lemma CountsFit(m: Machine, s: Script)
    requires Legal(s) && WorkerOk(m, s) && m.served < |s.prog|
    ensures TakenCount(m.worker, MessageLength(s.prog[m.served])) <= MessageLength(s.prog[m.served])
    ensures RaisedCount(m.worker, AnswerLength(s.prog[m.served])) <= AnswerLength(s.prog[m.served])
  {
    hide Legal, FlatOk, Allowed, MessageAt, AnswerAt, AllStand, DriveAfter;
  }

  /** What a CPU that cannot move is waiting for. */
  lemma CpuWaits(m: Machine, s: Script)
    requires Legal(s) && Inv(m, s) && CpuStep(m, s.prog).None?
    ensures m.issued <= |s.prog|
    ensures m.cpu.Halted? <==> m.issued == |s.prog|
    ensures m.cpu.Halted? ==> m.got == []
    ensures m.cpu.Send? ==> m.queue != [] && m.cpu.k < MessageLength(s.prog[m.issued]) && m.got == []
    ensures m.cpu.AwaitRqm? ==> !m.rqm && m.got == [] && AnswerLength(s.prog[m.issued]) == 519
    ensures m.cpu.AwaitInt? ==> !m.intr && |m.got| < AnswerLength(s.prog[m.issued])
    ensures m.cpu.Halted? || m.cpu.Send? || m.cpu.AwaitRqm? || m.cpu.AwaitInt?
  {
    hide Legal, FlatOk, Allowed, WorkerOk, QueueOk, MailOk, Scatter, AfterSend, AfterReceive;
    if m.issued < |s.prog| && m.cpu.AwaitInt? {
      ReadLength(m, s, m.cpu.stage, m.cpu.k);
    }
  }

  /** What a worker that cannot move is waiting for. */
  lemma WorkerWaits(m: Machine, s: Script)
    requires Legal(s) && Inv(m, s) && WorkerStep(m).None?
    ensures m.served <= |s.prog|
    ensures m.worker.Poll? ==> m.queue == []
    ensures m.worker.TakeArgs? || m.worker.TakeData? ==>
              && m.queue == [] && m.served < |s.prog|
              && 0 < TakenCount(m.worker, MessageLength(s.prog[m.served])) < MessageLength(s.prog[m.served])
    ensures m.worker.AwaitFree? ==>
              && m.intr && m.rqm && m.served < |s.prog| && m.worker.k < AnswerLength(s.prog[m.served])
    ensures m.worker.Poll? || m.worker.TakeArgs? || m.worker.TakeData? || m.worker.AwaitFree?
  {
    hide Legal, FlatOk, Allowed, CpuOk, QueueOk, MailOk, AllStand, DriveAfter, MessageAt, AnswerAt;
    hide Seek, ReadByte, WriteByte, StatusByte, ByteCount, BytesToHost, SeekTarget;
    if m.worker.SeekSector? || m.worker.TakeData? || m.worker.Fetch? {
      ServingTransfer(m, s);
      ArgsOf(s.prog[m.served], m.worker.cmd, m.worker.args);
    }
  }

  /** In every reachable state in which neither thread can move, all is done. */
  lemma StuckIsFinished(m: Machine, s: Script)
    requires Legal(s) && Inv(m, s) && WorkerStep(m).None? && CpuStep(m, s.prog).None?
    ensures Finished(m)
  {
    hide Legal, FlatOk, Allowed, CpuOk, WorkerOk, QueueOk, MailOk, WorkerStep, CpuStep, Sent, Answered, Inv;
    CpuWaits(m, s);
    WorkerWaits(m, s);
    var sent, taken, raised := Balance(m, s);
    if m.worker.Poll? {
      StuckAtPoll(m, s, sent, taken, raised);
    } else if m.worker.TakeArgs? || m.worker.TakeData? {
      var k := TakenCount(m.worker, MessageLength(s.prog[m.served]));
      if m.issued == |s.prog| {
        PartMessage(s, m.served, k, m.issued);
      } else {
        SentNext(s, m.issued);
        PartMessage(s, m.served, k, m.issued + 1);
      }
    } else {
      StuckAtMailbox(m, s, sent, taken, raised);
    }
  }

  lemma SentNext(s: Script, i: nat)
    requires Legal(s) && i < |s.prog|
    ensures |Sent(s, i + 1)| == |Sent(s, i)| + MessageLength(s.prog[i])
    ensures |Answered(s, i + 1)| == |Answered(s, i)| + AnswerLength(s.prog[i])
  {
    hide Legal, FlatOk, Allowed;
  }

  /** A polling worker with nothing queued has served all that was issued. */
  lemma StuckAtPoll(m: Machine, s: Script, sent: int, taken: int, raised: int)
    requires Legal(s) && m.issued <= |s.prog| && m.served <= |s.prog| && Balanced(m, s, sent, taken, raised)
    requires m.worker.Poll? && m.queue == []
    requires m.cpu.Halted? <==> m.issued == |s.prog|
    requires m.cpu.Halted? ==> m.got == []
    requires m.cpu.Send? ==> m.queue != []
    requires m.cpu.AwaitRqm? ==> m.got == [] && AnswerLength(s.prog[m.issued]) == 519
    requires m.cpu.AwaitInt? ==> !m.intr && |m.got| < AnswerLength(s.prog[m.issued])
    requires m.cpu.Halted? || m.cpu.Send? || m.cpu.AwaitRqm? || m.cpu.AwaitInt?
    ensures Finished(m)
  {
    hide Legal, FlatOk, Allowed, Sent, Answered, Header;
    if m.issued == |s.prog| {
      AnsweredLengths(s, m.served, m.issued);
    } else {
      SentNext(s, m.issued);
      if m.served <= m.issued {
        SentStrict(s, m.served, m.issued + 1);
      } else {
        AnsweredLengths(s, m.issued + 1, m.served);
      }
    }
  }

  /** A worker waiting at a full mailbox has a CPU that is about to empty it. */
  lemma StuckAtMailbox(m: Machine, s: Script, sent: int, taken: int, raised: int)
    requires Legal(s) && m.issued <= |s.prog| && m.served < |s.prog| && Balanced(m, s, sent, taken, raised)
    requires m.worker.AwaitFree? && m.intr && m.worker.k < AnswerLength(s.prog[m.served])
    requires m.cpu.Halted? <==> m.issued == |s.prog|
    requires m.cpu.Halted? ==> m.got == []
    requires m.cpu.Send? ==> m.queue != [] && m.cpu.k < MessageLength(s.prog[m.issued]) && m.got == []
    ensures !m.cpu.Halted? && !m.cpu.Send?
  {
    hide Legal, FlatOk, Allowed, Sent, Answered, Header;
    SentNext(s, m.served);
    if m.issued > m.served {
      AnsweredLengths(s, m.served, m.issued);
    } else if m.issued < |s.prog| {
      SentNext(s, m.issued);
      SentStrict(s, m.issued + 1, m.served + 1);
    }
  }

  lemma StartWork(m: Machine, s: Script)
    requires Legal(s) && StartsAs(m, s)
    ensures Work(m, s.prog) == CpuRest(s.prog, 0) + WorkerRest(s.prog, 0)
  {
    hide Legal, AllStand;
  }

  /** The read/write exchange of every legal program ends: from power-on, at most a
      fixed number of moves can be made, and a run that has no move left has finished
      with the memory and the disks of the reference machine. */
  lemma ExchangeTerminates(ms: seq<Machine>, s: Script)
    requires Legal(s) && |ms| > 0 && StartsAs(ms[0], s)
    requires forall i :: 0 <= i < |ms| ==> WellFormed(ms[i])
    requires forall i :: 0 <= i < |ms| - 1 ==> Moves(ms[i], ms[i + 1], s.prog)
    ensures |ms| - 1 <= CpuRest(s.prog, 0) + WorkerRest(s.prog, 0)
    ensures var m := ms[|ms| - 1];
            WorkerStep(m).None? && CpuStep(m, s.prog).None? ==>
              && Finished(m)
              && m.ram == At(s, |s.prog|).ram
              && AllStand(m.drives, At(s, |s.prog|).disks)
  {
    var m := ms[|ms| - 1];
    StartInv(ms[0], s);
    MovesBounded(ms, s);
    hide Legal, FlatOk, Allowed, Inv, WorkerStep, CpuStep, At, AllStand, StartsAs, Moves, Finished, WellFormed;
    StartWork(ms[0], s);
    if WorkerStep(m).None? && CpuStep(m, s.prog).None? {
      StuckIsFinished(m, s);
      EndState(m, s);
    }
  }
}
