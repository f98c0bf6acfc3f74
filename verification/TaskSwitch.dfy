/** Hardware task switching: the running task's context is stored in its task state
    segment and another task's is loaded.  Main result: over every run of work and
    switches, a task that is switched back to has exactly the context it was left with. */
module TaskSwitch {
  import opened Words
  import opened Memory
  import opened Cpu

  // ------------------------------------------------------------- task state segments

  /** A task state segment, as 26 little-endian words of four bytes. */
  type Tss = ws: seq<u32> | |ws| == 26 witness seq(26, _ => 0)

  const TSS_SIZE := 104

  function ReadTss(mem: Ram, base: int): Tss
    requires Inside(mem, base, TSS_SIZE)
  {
    seq(26, i requires 0 <= i < 26 => Dword(mem, base + 4 * i))
  }

  function ByteOf(v: u32, k: nat): byte
    requires k < 4
  {
    v / [1, 0x100, 0x1_0000, 0x100_0000][k] % 0x100
  }

  function WriteTss(mem: Ram, base: int, ws: Tss): (r: Ram)
    requires Inside(mem, base, TSS_SIZE)
    ensures |r| == |mem|
  {
    mem[..base] + seq(TSS_SIZE, i requires 0 <= i < TSS_SIZE => ByteOf(ws[i / 4], i % 4)) + mem[base + TSS_SIZE..]
  }

  /** The running task's registers, over the fields of its old image that are kept:
      back link, ring stacks, the upper halves of selector fields, trap and I/O map. */
  function SavedImage(s: State, image: Tss): Tss
    requires WellFormed(s)
  {
    image[..7] + [s.cr3, s.eip, s.eflags] + s.gp
      + seq(6, i requires 0 <= i < 6 => WithLow(image[18 + i], s.segs[i].sel))
      + [WithLow(image[24], s.ldtr.sel), image[25]]
  }

  // ------------------------------------------------------------- table registers

  function SystemBase(mem: Ram, p: int): u32
    requires Inside(mem, p, 8)
  {
    mem[p + 7] as int * 0x100_0000 + mem[p + 4] as int * 0x1_0000 + Word(mem, p + 2) as int
  }

  /** set_ldtr: the limit keeps its low 16 bits, and the selector is an offset as it is. */
  function LoadLdtr(s: State, sel: u16): Option<TableReg> {
    var p := Wrap32(s.gdtr.base + sel);
    if sel > s.gdtr.limit || !Inside(s.mem, p, 8) then None
    else Some(TableReg(sel, SystemBase(s.mem, p), Word(s.mem, p)))
  }

  /** set_tr: the same, for a descriptor whose type is an available task. */
  function LoadTr(s: State, sel: u16): Option<TableReg> {
    var p := Wrap32(s.gdtr.base + sel);
    if sel > s.gdtr.limit || !Inside(s.mem, p, 8) || s.mem[p + 5] % 8 != 1 then None
    else Some(TableReg(sel, SystemBase(s.mem, p), Word(s.mem, p)))
  }

  // ------------------------------------------------------------- the switch

  /** The TSS that TR names is large enough and in memory. */
  predicate TssUsable(s: State) {
    s.tr.limit as int >= TSS_SIZE - 1 && Inside(s.mem, s.tr.base, TSS_SIZE)
  }

  function SetSegments(s: State, sels: seq<u16>, n: nat): (r: Option<State>)
    requires WellFormed(s) && |sels| == 6 && n <= 6
    ensures r.Some? ==> WellFormed(r.value)
  {
    if n == 0 then Some(s)
    else
      var t := SetSegments(s, sels, n - 1);
      if t.None? then None else SetSegment(t.value, n - 1, sels[n - 1])
  }

  function Selectors(ws: Tss): (sels: seq<u16>)
    ensures |sels| == 6 && forall i :: 0 <= i < 6 ==> sels[i] == Wrap16(ws[18 + i])
  {
    seq(6, i requires 0 <= i < 6 => Wrap16(ws[18 + i]))
  }

  function Save(s: State): State
    requires WellFormed(s) && TssUsable(s)
  {
    s.(mem := WriteTss(s.mem, s.tr.base, SavedImage(s, ReadTss(s.mem, s.tr.base))))
  }

  /** Loads the context that TR's segment holds and links it back to `prev`.  Segments
      come before LDTR, so a local selector would be looked up in the old table. */
  function Resume(s: State, prev: u16): (r: Option<State>)
    requires WellFormed(s) && TssUsable(s)
    ensures r.Some? ==> WellFormed(r.value)
  {
    var ws := ReadTss(s.mem, s.tr.base);
    var t := s.(mem := PutWord(s.mem, s.tr.base, prev), cr3 := ws[7], eip := ws[8], eflags := ws[9], gp := ws[10..18]);
    match SetSegments(t, Selectors(ws), 6)
    case None => None
    case Some(u) =>
      var ldtr := LoadLdtr(u, Wrap16(ws[24]));
      if ldtr.None? then None else Some(u.(ldtr := ldtr.value))
  }

  function SwitchTask(s: State, sel: u16): (r: Option<State>)
    requires WellFormed(s)
    ensures r.Some? ==> WellFormed(r.value)
  {
    if !TssUsable(s) then None
    else
      var saved := Save(s);
      var tr := LoadTr(saved, sel);
      if tr.None? then None
      else
        var t := saved.(tr := tr.value);
        if !TssUsable(t) then None else Resume(t, s.tr.sel)
  }

  // ------------------------------------------------------------- what a task owns

  /** Everything a task switch stores and loads, hidden parts included. */
  datatype Context = Context(gp: seq<u32>, eip: u32, eflags: u32, cr3: u32,
                             segs: seq<Seg>, ldtr: TableReg, tr: TableReg)

  function ContextOf(s: State): Context {
    Context(s.gp, s.eip, s.eflags, s.cr3, s.segs, s.ldtr, s.tr)
  }

  /** A context all of whose hidden parts come from the global table. */
  ghost predicate Settled(s: State, c: Context)
    requires WellFormed(s)
  {
    && |c.gp| == 8 && |c.segs| == 6 && s.pe
    && (forall i :: 0 <= i < 6 ==> !Bit(c.segs[i].sel, 2) && LoadSeg(s, i, c.segs[i].sel) == Some(c.segs[i]))
    && LoadLdtr(s, c.ldtr.sel) == Some(c.ldtr)
    && LoadTr(s, c.tr.sel) == Some(c.tr)
    && c.tr.limit as int >= TSS_SIZE - 1 && Inside(s.mem, c.tr.base, TSS_SIZE)
  }

  /** A task's segment holds its context. */
  ghost predicate Holds(mem: Ram, c: Context) {
    && |c.gp| == 8 && |c.segs| == 6 && Inside(mem, c.tr.base, TSS_SIZE)
    && var ws := ReadTss(mem, c.tr.base);
       && ws[7] == c.cr3 && ws[8] == c.eip && ws[9] == c.eflags && ws[10..18] == c.gp
       && (forall i :: 0 <= i < 6 ==> Wrap16(ws[18 + i]) == c.segs[i].sel)
       && Wrap16(ws[24]) == c.ldtr.sel
  }

  /** The bytes any global descriptor may be read from. */
  ghost predicate InTable(s: State, q: int) {
    s.gdtr.base <= q < s.gdtr.base + s.gdtr.limit as int + 8
  }

  predicate Apart(a: TableReg, b: TableReg) {
    a.base as int + TSS_SIZE <= b.base || b.base as int + TSS_SIZE <= a.base
  }

  /** The segment of a task keeps clear of the global table. */
  ghost predicate ClearOfTable(s: State, tr: TableReg) {
    tr.base as int + TSS_SIZE <= s.gdtr.base || s.gdtr.base as int + s.gdtr.limit as int + 8 <= tr.base
  }

  ghost predicate SameTable(s: State, t: State) {
    && s.gdtr == t.gdtr && s.pe == t.pe && |s.mem| == |t.mem|
    && forall q :: InTable(s, q) && 0 <= q < |s.mem| ==> s.mem[q] == t.mem[q]
  }

  ghost predicate TableInRam(s: State) {
    s.pe && Inside(s.mem, s.gdtr.base, s.gdtr.limit as int + 8)
  }

  // ------------------------------------------------------------- storing and loading

  lemma ByteSum(v: u32)
    ensures ByteOf(v, 0) as int + 0x100 * ByteOf(v, 1) as int
            + 0x1_0000 * (ByteOf(v, 2) as int + 0x100 * ByteOf(v, 3) as int) == v
  {
    var high, low := v / 0x1_0000, v % 0x1_0000;
    MiddleByte(high, low);
    assert v / 0x100_0000 == high / 0x100;
  }

  lemma MiddleByte(high: u16, low: u16)
    ensures (high as int * 0x1_0000 + low) / 0x100 % 0x100 == low / 0x100
    ensures (high as int * 0x1_0000 + low) % 0x100 == low % 0x100
  {
    var a, b := low / 0x100, low % 0x100;
    assert high as int * 0x1_0000 + low == (high as int * 0x100 + a) * 0x100 + b;
    assert (high as int * 0x1_0000 + low) / 0x100 == high as int * 0x100 + a;
  }

  lemma ReadWriteTss(mem: Ram, base: int, ws: Tss)
    requires Inside(mem, base, TSS_SIZE)
    ensures ReadTss(WriteTss(mem, base, ws), base) == ws
    ensures SameElsewhere(WriteTss(mem, base, ws), mem, base, TSS_SIZE)
  {
    hide WriteTss, Dword;
    forall i | 0 <= i < 26 ensures Dword(WriteTss(mem, base, ws), base + 4 * i) == ws[i] {
      TssWord(mem, base, ws, i);
    }
    TssElsewhere(mem, base, ws);
  }

  lemma TssWord(mem: Ram, base: int, ws: Tss, i: nat)
    requires Inside(mem, base, TSS_SIZE) && i < 26
    ensures Dword(WriteTss(mem, base, ws), base + 4 * i) == ws[i]
  {
    hide WriteTss, ByteOf;
    TssByte(mem, base, ws, i, 0);
    TssByte(mem, base, ws, i, 1);
    TssByte(mem, base, ws, i, 2);
    TssByte(mem, base, ws, i, 3);
    ByteSum(ws[i]);
  }

  lemma TssByte(mem: Ram, base: int, ws: Tss, i: nat, k: nat)
    requires Inside(mem, base, TSS_SIZE) && i < 26 && k < 4
    ensures WriteTss(mem, base, ws)[base + 4 * i + k] == ByteOf(ws[i], k)
  {
    hide ByteOf;
    assert (4 * i + k) / 4 == i && (4 * i + k) % 4 == k;
  }

  lemma TssElsewhere(mem: Ram, base: int, ws: Tss)
    requires Inside(mem, base, TSS_SIZE)
    ensures SameElsewhere(WriteTss(mem, base, ws), mem, base, TSS_SIZE)
  {
    hide ByteOf;
  }

  lemma SaveHolds(s: State)
    requires WellFormed(s) && TssUsable(s)
    ensures Holds(Save(s).mem, ContextOf(s))
    ensures SameElsewhere(Save(s).mem, s.mem, s.tr.base, TSS_SIZE)
  {
    hide ReadTss, WriteTss;
    var image := ReadTss(s.mem, s.tr.base);
    var ws := SavedImage(s, image);
    ReadWriteTss(s.mem, s.tr.base, ws);
    forall i | 0 <= i < 6 ensures Wrap16(ws[18 + i]) == s.segs[i].sel {
      assert ws[18 + i] == WithLow(image[18 + i], s.segs[i].sel);
    }
    assert ws[10..18] == s.gp;
  }

  /** A context stays in its segment while all but the segment's back link is unchanged. */
  lemma HoldsSame(a: Ram, b: Ram, c: Context)
    requires Holds(a, c) && SameRange(a, b, c.tr.base + 4, TSS_SIZE - 4)
    ensures Holds(b, c)
  {
    hide Dword;
    var x, y := ReadTss(a, c.tr.base), ReadTss(b, c.tr.base);
    forall i | 1 <= i < 26 ensures x[i] == y[i] {
      DwordSame(a, b, c.tr.base + 4 * i);
    }
    assert x[10..18] == y[10..18];
  }

  lemma LoadSegSame(s: State, t: State, i: nat, sel: u16)
    requires WellFormed(s) && WellFormed(t) && i < 6 && TableInRam(s) && SameTable(s, t) && !Bit(sel, 2)
    ensures LoadSeg(t, i, sel) == LoadSeg(s, i, sel)
  {
    hide Bit, Word;
    var index := sel / 8 * 8;
    if index <= s.gdtr.limit {
      var p := s.gdtr.base as int + index;
      assert Wrap32(p) == p;
      forall q | p <= q < p + 8 ensures s.mem[q] == t.mem[q] {
        assert InTable(s, q);
      }
      WordSame(s.mem, t.mem, p);
      WordSame(s.mem, t.mem, p + 2);
      assert ReadDescriptor(s.mem, p) == ReadDescriptor(t.mem, p);
    }
  }

  lemma LoadTableSame(s: State, t: State, sel: u16)
    requires WellFormed(s) && WellFormed(t) && TableInRam(s) && SameTable(s, t)
    ensures LoadLdtr(t, sel) == LoadLdtr(s, sel) && LoadTr(t, sel) == LoadTr(s, sel)
  {
    hide Word;
    if sel <= s.gdtr.limit {
      var p := s.gdtr.base as int + sel;
      assert Wrap32(p) == p;
      forall q | p <= q < p + 8 ensures s.mem[q] == t.mem[q] {
        assert InTable(s, q);
      }
      WordSame(s.mem, t.mem, p);
      WordSame(s.mem, t.mem, p + 2);
    }
  }

  lemma SettledSame(s: State, t: State, c: Context)
    requires WellFormed(s) && WellFormed(t) && TableInRam(s) && SameTable(s, t) && Settled(s, c)
    ensures Settled(t, c)
  {
    hide Bit, LoadSeg, LoadLdtr, LoadTr;
    forall i | 0 <= i < 6 ensures LoadSeg(t, i, c.segs[i].sel) == Some(c.segs[i]) {
      LoadSegSame(s, t, i, c.segs[i].sel);
    }
    LoadTableSame(s, t, c.ldtr.sel);
    LoadTableSame(s, t, c.tr.sel);
  }

  lemma {:induction false} SetSegmentsEffect(s: State, sels: seq<u16>, c: Context, n: nat)
    requires WellFormed(s) && |sels| == 6 && n <= 6 && TableInRam(s) && Settled(s, c)
    requires forall i :: 0 <= i < 6 ==> sels[i] == c.segs[i].sel
    ensures SetSegments(s, sels, n) == Some(s.(segs := c.segs[..n] + s.segs[n..]))
  {
    hide Bit, LoadSeg, LoadLdtr, LoadTr;
    if n == 0 {
      assert s.segs == c.segs[..0] + s.segs[0..];
    } else {
      SetSegmentsEffect(s, sels, c, n - 1);
      var t := SetSegments(s, sels, n - 1).value;
      LoadSegSame(s, t, n - 1, sels[n - 1]);
      assert t.segs[n - 1 := c.segs[n - 1]] == c.segs[..n] + s.segs[n..];
    }
  }

  /** Loading a settled context brings every part of it back, and writes the back link only. */
  lemma ResumeRestores(s: State, prev: u16, c: Context)
    requires WellFormed(s) && TableInRam(s) && Settled(s, c) && Holds(s.mem, c)
    requires s.tr == c.tr && ClearOfTable(s, c.tr)
    ensures Resume(s, prev).Some?
    ensures var r := Resume(s, prev).value;
            ContextOf(r) == c && SameElsewhere(r.mem, s.mem, c.tr.base, 2) &&
            SameTable(s, r) && Word(r.mem, c.tr.base) == prev
  {
    hide Bit, LoadSeg, LoadLdtr, LoadTr, ReadTss, PutWord;
    var ws := ReadTss(s.mem, s.tr.base);
    PutWordGet(s.mem, s.tr.base, prev);
    var t := s.(mem := PutWord(s.mem, s.tr.base, prev), cr3 := ws[7], eip := ws[8], eflags := ws[9], gp := ws[10..18]);
    SettledSame(s, t, c);
    var sels := Selectors(ws);
    SetSegmentsEffect(t, sels, c, 6);
    var u := t.(segs := c.segs);
    assert c.segs[..6] + t.segs[6..] == c.segs;
    LoadTableSame(t, u, c.ldtr.sel);
  }

  // ------------------------------------------------------------- whole runs

  /** The running task works for a while, or another task is switched to. */
  datatype Step = Work(next: State) | Switch(sel: u16)

  /** A task that is not running: its context is settled, and stored away from the table. */
  ghost predicate Parked(s: State, c: Context)
    requires WellFormed(s)
  {
    Settled(s, c) && Holds(s.mem, c) && ClearOfTable(s, c.tr)
  }

  /** The TSS of the running task. */
  ghost predicate OwnSegment(s: State)
    requires WellFormed(s)
  {
    LoadTr(s, s.tr.sel) == Some(s.tr) && TssUsable(s) && ClearOfTable(s, s.tr)
  }

  /** What a machine with suspended tasks keeps: their contexts are settled and stored,
      and no two segments, nor a segment and the global table, overlap. */
  ghost predicate Inv(s: State, suspended: map<u16, Context>) {
    && WellFormed(s) && TableInRam(s)
    && OwnSegment(s) && s.tr.sel !in suspended
    && (forall n :: n in suspended ==>
          && suspended[n].tr.sel == n && Apart(suspended[n].tr, s.tr)
          && Parked(s, suspended[n]))
    && forall n, m :: n in suspended && m in suspended && n != m ==> Apart(suspended[n].tr, suspended[m].tr)
  }

  /** Anything at all, except for the global table, TR and the suspended tasks' segments. */
  ghost predicate KeepsTasks(s: State, t: State, suspended: map<u16, Context>) {
    && WellFormed(t) && SameTable(s, t) && t.tr == s.tr
    && forall n :: n in suspended ==> SameRange(s.mem, t.mem, suspended[n].tr.base, TSS_SIZE)
  }

  /** A step this result is about: a switch leaves settled registers for a suspended task. */
  ghost predicate Admitted(s: State, suspended: map<u16, Context>, step: Step)
    requires WellFormed(s)
  {
    match step
    case Work(next) => KeepsTasks(s, next, suspended)
    case Switch(sel) => sel in suspended && Settled(s, ContextOf(s))
  }

  ghost function SuspendedAfter(s: State, suspended: map<u16, Context>, step: Step): map<u16, Context> {
    match step
    case Work(_) => suspended
    case Switch(sel) => (suspended - {sel})[s.tr.sel := ContextOf(s)]
  }

  ghost function After(s: State, step: Step): Option<State>
    requires WellFormed(s)
  {
    match step
    case Work(next) => Some(next)
    case Switch(sel) => SwitchTask(s, sel)
  }

  /** The end of a run, with the contexts suspended then; None when a step is not
      admitted or throws. */
  ghost function Run(s: State, suspended: map<u16, Context>, steps: seq<Step>): Option<(State, map<u16, Context>)>
    decreases |steps|
  {
    if !WellFormed(s) then None
    else if steps == [] then Some((s, suspended))
    else if After(s, steps[0]).None? then None
    else Run(After(s, steps[0]).value, SuspendedAfter(s, suspended, steps[0]), steps[1..])
  }

  /** Every step of a run is admitted where it is taken. */
  ghost predicate AllAdmitted(s: State, suspended: map<u16, Context>, steps: seq<Step>)
    decreases |steps|
  {
    steps == [] || (WellFormed(s) && Admitted(s, suspended, steps[0])
                    && (After(s, steps[0]).Some? ==>
                          AllAdmitted(After(s, steps[0]).value, SuspendedAfter(s, suspended, steps[0]), steps[1..])))
  }

  lemma ParkedKept(s: State, t: State, c: Context)
    requires WellFormed(s) && WellFormed(t) && TableInRam(s) && SameTable(s, t) && Parked(s, c)
    requires SameRange(s.mem, t.mem, c.tr.base + 4, TSS_SIZE - 4)
    ensures Parked(t, c)
  {
    hide Settled, Holds;
    SettledSame(s, t, c);
    HoldsSame(s.mem, t.mem, c);
  }

  lemma OwnSegmentKept(s: State, t: State)
    requires WellFormed(s) && WellFormed(t) && TableInRam(s) && SameTable(s, t) && OwnSegment(s) && t.tr == s.tr
    ensures OwnSegment(t)
  {
    hide LoadTr;
    LoadTableSame(s, t, s.tr.sel);
  }

  lemma WorkKeeps(s: State, suspended: map<u16, Context>, t: State)
    requires Inv(s, suspended) && KeepsTasks(s, t, suspended)
    ensures Inv(t, suspended)
  {
    hide Parked, OwnSegment;
    OwnSegmentKept(s, t);
    forall n | n in suspended ensures Parked(t, suspended[n]) {
      ParkedKept(s, t, suspended[n]);
    }
  }

  lemma SaveOnlyMemory(s: State)
    requires WellFormed(s) && TssUsable(s)
    ensures Save(s) == s.(mem := Save(s).mem) && |Save(s).mem| == |s.mem|
  {
  }

  lemma SaveKeepsTable(s: State)
    requires WellFormed(s) && TableInRam(s) && TssUsable(s) && ClearOfTable(s, s.tr)
    ensures SameTable(s, Save(s))
  {
    SaveHolds(s);
    SaveOnlyMemory(s);
    hide Save, Holds;
  }

  /** Storing the running context parks it. */
  lemma SaveParks(s: State)
    requires WellFormed(s) && TableInRam(s) && OwnSegment(s) && Settled(s, ContextOf(s))
    ensures Parked(Save(s), ContextOf(s))
  {
    hide LoadTr, Settled, Holds, Save;
    SaveHolds(s);
    SaveOnlyMemory(s);
    SaveKeepsTable(s);
    SettledSame(s, Save(s), ContextOf(s));
  }

  /** ... and leaves what is parked elsewhere. */
  lemma SaveKeepsParked(s: State, c: Context)
    requires WellFormed(s) && TableInRam(s) && OwnSegment(s) && Parked(s, c) && Apart(c.tr, s.tr)
    ensures Parked(Save(s), c)
  {
    hide LoadTr, Parked, Save, Holds;
    SaveHolds(s);
    SaveOnlyMemory(s);
    SaveKeepsTable(s);
    ParkedKept(s, Save(s), c);
  }

  /** Switching to a parked context. */
  lemma SwitchLoads(s: State, c: Context)
    requires WellFormed(s) && TableInRam(s) && OwnSegment(s) && Parked(s, c) && Apart(c.tr, s.tr)
    ensures SwitchTask(s, c.tr.sel).Some?
    ensures var t := SwitchTask(s, c.tr.sel).value;
            && ContextOf(t) == c && SameTable(Save(s), t)
            && SameElsewhere(t.mem, Save(s).mem, c.tr.base, 2)
            && Inside(t.mem, c.tr.base, 2) && Word(t.mem, c.tr.base) == s.tr.sel
  {
    hide Save, Resume, LoadSeg, LoadLdtr, ReadTss, Bit, LoadTr, Word;
    SaveKeepsParked(s, c);
    SaveOnlyMemory(s);
    var m := Save(s).(tr := c.tr);
    SettledSame(Save(s), m, c);
    ResumeRestores(m, s.tr.sel, c);
  }

  /** A switch to a suspended task never throws, gives the task the very context it was
      suspended with, links it back, and suspends the task that was running. */
  lemma SwitchRestores(s: State, suspended: map<u16, Context>, sel: u16)
    requires Inv(s, suspended) && sel in suspended && Settled(s, ContextOf(s))
    ensures SwitchTask(s, sel).Some?
    ensures var t := SwitchTask(s, sel).value;
            && ContextOf(t) == suspended[sel]
            && Inside(t.mem, t.tr.base, 2) && Word(t.mem, t.tr.base) == s.tr.sel
            && Inv(t, SuspendedAfter(s, suspended, Switch(sel)))
  {
    hide Save, SwitchTask, Settled, Parked, OwnSegment, TssUsable, ClearOfTable, Word;
    assert OwnSegment(s) ==> TssUsable(s) by { TssOfOwn(s); }
    SwitchLoads(s, suspended[sel]);
    SwitchKeepsOthers(s, suspended, sel, SwitchTask(s, sel).value);
  }

  lemma TssOfOwn(s: State)
    requires WellFormed(s)
    ensures OwnSegment(s) ==> TssUsable(s) && Inside(s.mem, s.tr.base, TSS_SIZE)
  {
  }

  lemma SwitchKeepsOthers(s: State, suspended: map<u16, Context>, sel: u16, t: State)
    requires Inv(s, suspended) && sel in suspended && Settled(s, ContextOf(s))
    requires WellFormed(t) && TssUsable(s) && SameTable(Save(s), t) && ContextOf(t) == suspended[sel]
    requires SameElsewhere(t.mem, Save(s).mem, suspended[sel].tr.base, 2)
    ensures Inv(t, SuspendedAfter(s, suspended, Switch(sel)))
  {
    hide Save, Settled, Parked, OwnSegment, TssUsable;
    var c := suspended[sel];
    SaveOnlyMemory(s);
    SaveKeepsParked(s, c);
    SaveParks(s);
    OwnAfter(Save(s), t, c);
    forall n | n in SuspendedAfter(s, suspended, Switch(sel))
      ensures Parked(t, SuspendedAfter(s, suspended, Switch(sel))[n])
    {
      var d := SuspendedAfter(s, suspended, Switch(sel))[n];
      if n != s.tr.sel {
        SaveKeepsParked(s, d);
      }
      ParkedAfter(Save(s), t, c, d);
    }
  }

  lemma ParkedAfter(s: State, t: State, c: Context, d: Context)
    requires WellFormed(s) && WellFormed(t) && TableInRam(s) && SameTable(s, t) && Parked(s, d)
    requires Apart(c.tr, d.tr) && SameElsewhere(t.mem, s.mem, c.tr.base, 2)
    ensures Parked(t, d)
  {
    hide Parked;
    ParkedKept(s, t, d);
  }

  lemma OwnAfter(s: State, t: State, c: Context)
    requires WellFormed(s) && WellFormed(t) && TableInRam(s) && SameTable(s, t) && Parked(s, c) && t.tr == c.tr
    ensures OwnSegment(t)
  {
    hide LoadTr, LoadSeg, LoadLdtr, Holds;
    LoadTableSame(s, t, c.tr.sel);
  }

  /** No admitted run throws, and the suspended contexts stay what and where they are. */
  lemma {:induction false} RunKeepsTasks(s: State, suspended: map<u16, Context>, steps: seq<Step>)
    requires Inv(s, suspended) && AllAdmitted(s, suspended, steps)
    ensures Run(s, suspended, steps).Some?
    ensures var (t, left) := Run(s, suspended, steps).value; Inv(t, left)
    decreases |steps|
  {
    if steps != [] {
      hide Inv, Admitted, SuspendedAfter, After;
      StepKeeps(s, suspended, steps[0]);
      RunKeepsTasks(After(s, steps[0]).value, SuspendedAfter(s, suspended, steps[0]), steps[1..]);
    }
  }

  lemma StepKeeps(s: State, suspended: map<u16, Context>, step: Step)
    requires Inv(s, suspended) && Admitted(s, suspended, step)
    ensures WellFormed(s) && After(s, step).Some?
    ensures Inv(After(s, step).value, SuspendedAfter(s, suspended, step))
    ensures forall n :: n in suspended && step != Switch(n) ==>
              n in SuspendedAfter(s, suspended, step) && SuspendedAfter(s, suspended, step)[n] == suspended[n]
  {
    hide Settled, Parked, OwnSegment, SwitchTask, KeepsTasks;
    match step
    case Work(next) => WorkKeeps(s, suspended, next);
    case Switch(sel) => SwitchRestores(s, suspended, sel);
  }

  /** However long other tasks run, the first switch to a suspended task resumes it
      with the context it was suspended with. */
  lemma {:induction false} ResumedAsLeft(s: State, suspended: map<u16, Context>, steps: seq<Step>, n: u16)
    requires Inv(s, suspended) && n in suspended && Switch(n) !in steps
    requires AllAdmitted(s, suspended, steps + [Switch(n)])
    ensures Run(s, suspended, steps + [Switch(n)]).Some?
    ensures ContextOf(Run(s, suspended, steps + [Switch(n)]).value.0) == suspended[n]
    decreases |steps|
  {
    hide Inv, Admitted, SuspendedAfter, After;
    var all := steps + [Switch(n)];
    if steps == [] {
      assert all == [Switch(n)];
      ResumedNow(s, suspended, n);
    } else {
      StepKeeps(s, suspended, all[0]);
      assert all[1..] == steps[1..] + [Switch(n)];
      ResumedAsLeft(After(s, all[0]).value, SuspendedAfter(s, suspended, all[0]), steps[1..], n);
    }
  }

  lemma ResumedNow(s: State, suspended: map<u16, Context>, n: u16)
    requires Inv(s, suspended) && n in suspended && AllAdmitted(s, suspended, [Switch(n)])
    ensures Run(s, suspended, [Switch(n)]).Some?
    ensures ContextOf(Run(s, suspended, [Switch(n)]).value.0) == suspended[n]
  {
    hide Inv, SwitchTask, Settled, KeepsTasks, Run;
    SwitchRestores(s, suspended, n);
    RunOne(s, suspended, Switch(n));
  }

  lemma RunOne(s: State, suspended: map<u16, Context>, step: Step)
    requires WellFormed(s) && After(s, step).Some? && WellFormed(After(s, step).value)
    ensures Run(s, suspended, [step]) == Some((After(s, step).value, SuspendedAfter(s, suspended, step)))
  {
    hide After, SuspendedAfter;
  }

  /** The whole story: task A is left for B, anything admitted happens, tasks come and go,
      A is switched back to, and every register of A is what it was, hidden parts included. */
  lemma SwitchBackRestores(s: State, suspended: map<u16, Context>, b: u16, between: seq<Step>)
    requires Inv(s, suspended) && Switch(s.tr.sel) !in between
    requires AllAdmitted(s, suspended, [Switch(b)] + between + [Switch(s.tr.sel)])
    ensures var run := Run(s, suspended, [Switch(b)] + between + [Switch(s.tr.sel)]);
            run.Some? && ContextOf(run.value.0) == ContextOf(s)
  {
    hide Settled, SwitchTask, Parked, OwnSegment;
    var all := [Switch(b)] + between + [Switch(s.tr.sel)];
    assert all[1..] == between + [Switch(s.tr.sel)];
    StepKeeps(s, suspended, all[0]);
    ResumedAsLeft(After(s, all[0]).value, SuspendedAfter(s, suspended, all[0]), between, s.tr.sel);
  }
}
