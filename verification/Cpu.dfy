/** The part of the processor that context is saved in and restored from: registers,
    segment caches, descriptor tables, and a stack addressed through SS.  Paging is
    off; `None` is an exception thrown, the process ended by a failed range check, or
    an access that leaves memory for a device or for what lies beyond it. */
module Cpu {
  import opened Words
  import opened Memory

  datatype AccessMode = Read | Write | Exec

  /** The hidden part of a segment register; `access` is the descriptor's access byte. */
  datatype SegCache = SegCache(base: u32, limit: u32, access: byte, avl: bool, db: bool, g: bool)

  datatype Seg = Seg(sel: u16, cache: SegCache)

  datatype TableReg = TableReg(sel: u16, base: u32, limit: u16)

  datatype State = State(gp: seq<u32>, eip: u32, eflags: u32, segs: seq<Seg>,
                         gdtr: TableReg, idtr: TableReg, ldtr: TableReg, tr: TableReg,
                         pe: bool, cr3: u32, a20: bool, mem: Ram)

  // indices of segment registers, and of ESP among the general ones
  const ES := 0
  const CS := 1
  const SS := 2
  const DS := 3
  const FS := 4
  const GS := 5
  const ESP := 4

  predicate WellFormed(s: State) {
    |s.gp| == 8 && |s.segs| == 6 && |s.mem| < 0x1_0000_0000
  }

  function Bit(v: int, n: nat): bool
    requires n < 16
  {
    v / [1, 2, 4, 8, 16, 32, 64, 128, 256, 512, 1024, 2048, 4096, 8192, 16384, 32768][n] % 2 == 1
  }

  function Rpl(sel: u16): nat {
    sel % 4
  }

  function Cpl(s: State): nat
    requires WellFormed(s)
  {
    Rpl(s.segs[CS].sel)
  }

  function Dpl(access: byte): nat {
    access / 32 % 4
  }

  // ------------------------------------------------------------- segmentation

  predicate Allows(c: SegCache, mode: AccessMode, cpl: nat) {
    if Bit(c.access, 3) then // code
      && !mode.Write?
      && (mode.Read? ==> Bit(c.access, 1))
      && (cpl > Dpl(c.access) ==> mode.Exec? && Bit(c.access, 2))
    else
      && !mode.Exec?
      && (mode.Write? ==> Bit(c.access, 1))
      && cpl <= Dpl(c.access)
  }

  function LimitOf(c: SegCache): u32 {
    if c.g then Wrap32(c.limit * 0x1000) else c.limit
  }

  function BaseOf(c: SegCache): u32 {
    if !Bit(c.access, 3) && Bit(c.access, 2) then Wrap32(c.base - LimitOf(c)) else c.base
  }

  function Masked(a20: bool, addr: u32): int {
    if a20 then addr else addr % 0x10_0000
  }

  /** trans_v2p with paging off. */
  function Physical(s: State, mode: AccessMode, seg: nat, vaddr: u32): Option<int>
    requires WellFormed(s) && seg < 6
  {
    var c := s.segs[seg].cache;
    if s.pe then
      if !Allows(c, mode, Cpl(s)) || vaddr > LimitOf(c) then None
      else Some(Masked(s.a20, Wrap32(BaseOf(c) + vaddr)))
    else Some(Masked(s.a20, Wrap32(s.segs[seg].sel * 16 + vaddr)))
  }

  /** The last three addresses, where the 32-bit range test of memory wraps, passes, and
      lets the access out of the array. */
  predicate RangeWraps(p: int) {
    p >= 0xffff_fffd
  }

  /** What is not served by memory: the region that the machine maps to the display, and
      addresses beyond the array. */
  predicate Device(p: int) {
    0xa0000 <= p < 0xc0000 || RangeWraps(p)
  }

  /** Whatever its size, an access is served by memory when four bytes fit. */
  predicate InRam(mem: Ram, p: int) {
    Inside(mem, p, 4)
  }

  /** The segment register that loading a selector would give. */
  function LoadSeg(s: State, seg: nat, sel: u16): Option<Seg>
    requires WellFormed(s) && seg < 6
  {
    if s.pe then
      var table := if Bit(sel, 2) then s.ldtr else s.gdtr;
      var index := sel / 8 * 8;
      var p := Wrap32(table.base + index);
      if (seg == CS || seg == SS) && index == 0 then None
      else if index > table.limit || !Inside(s.mem, p, 8) then None
      else Some(Seg(sel, ReadDescriptor(s.mem, p)))
    else Some(Seg(sel, s.segs[seg].cache.(base := sel * 16)))
  }

  function ReadDescriptor(mem: Ram, p: int): SegCache
    requires Inside(mem, p, 8)
  {
    SegCache(mem[p + 7] as int * 0x100_0000 + mem[p + 4] as int * 0x1_0000 + Word(mem, p + 2) as int,
             mem[p + 6] as int % 16 * 0x1_0000 + Word(mem, p) as int,
             mem[p + 5], Bit(mem[p + 6], 4), Bit(mem[p + 6], 6), Bit(mem[p + 6], 7))
  }

  function SetSegment(s: State, seg: nat, sel: u16): (r: Option<State>)
    requires WellFormed(s) && seg < 6
    ensures r.Some? ==> WellFormed(r.value)
  {
    var loaded := LoadSeg(s, seg, sel);
    if loaded.None? then None else Some(s.(segs := s.segs[seg := loaded.value]))
  }

  // ------------------------------------------------------------- the stack

  /** Operand width of a push or pop, in bytes. */
  type Width = w: nat | w == 2 || w == 4 witness 2

  function Modulus(w: Width): nat {
    if w == 2 then 0x1_0000 else 0x1_0000_0000
  }

  /** ESP moved down by n: a 16-bit push moves SP alone, and wraps within it. */
  function Lowered(esp: u32, w: Width, n: int): u32 {
    if w == 2 then WithLow(esp, Wrap16(esp - n)) else Wrap32(esp - n)
  }

  function Top(esp: u32, w: Width): u32 {
    if w == 2 then esp % 0x1_0000 else esp
  }

  function Get(mem: Ram, p: int, w: Width): u32
    requires Inside(mem, p, w)
  {
    if w == 2 then Word(mem, p) else Dword(mem, p)
  }

  function Put(mem: Ram, p: int, w: Width, v: u32): (r: Ram)
    requires Inside(mem, p, w)
    ensures |r| == |mem|
  {
    if w == 2 then PutWord(mem, p, v % 0x1_0000) else PutDword(mem, p, v)
  }

  function WithEsp(s: State, esp: u32): State
    requires WellFormed(s)
  {
    s.(gp := s.gp[ESP := esp])
  }

  function Push(s: State, w: Width, v: u32): (r: Option<State>)
    requires WellFormed(s)
    ensures r.Some? ==> WellFormed(r.value) && |r.value.mem| == |s.mem|
  {
    var t := WithEsp(s, Lowered(s.gp[ESP], w, w));
    match Physical(t, Write, SS, Top(t.gp[ESP], w))
    case None => None
    case Some(p) =>
      if Device(p) then None
      else Some(if InRam(t.mem, p) then t.(mem := Put(t.mem, p, w, v)) else t)
  }

  function Pop(s: State, w: Width): (r: Option<(State, u32)>)
    requires WellFormed(s)
    ensures r.Some? ==> WellFormed(r.value.0)
  {
    match Physical(s, Read, SS, Top(s.gp[ESP], w))
    case None => None
    case Some(p) =>
      if Device(p) then None
      else Some((WithEsp(s, Lowered(s.gp[ESP], w, -(w as int))), if InRam(s.mem, p) then Get(s.mem, p, w) else 0))
  }

  function PushAll(s: State, w: Width, vs: seq<u32>): (r: Option<State>)
    requires WellFormed(s)
    ensures r.Some? ==> WellFormed(r.value) && |r.value.mem| == |s.mem|
  {
    if vs == [] then Some(s)
    else
      var t := PushAll(s, w, vs[..|vs| - 1]);
      if t.None? then None else Push(t.value, w, vs[|vs| - 1])
  }

  // ------------------------------------------------------------- slots

  /** The address of the k-th value pushed from a state, first pushed first. */
  function Slot(s: State, w: Width, k: nat): Option<int>
    requires WellFormed(s)
  {
    Physical(s, Write, SS, Top(Lowered(s.gp[ESP], w, w * (k + 1)), w))
  }

  /** All n slots are addressable memory. */
  ghost predicate SlotsInRam(s: State, w: Width, n: nat)
    requires WellFormed(s)
  {
    forall k :: 0 <= k < n ==> Slot(s, w, k).Some? && !Device(Slot(s, w, k).value) && InRam(s.mem, Slot(s, w, k).value)
  }

  /** The bytes of the first n slots. */
  ghost function Frame(s: State, w: Width, n: nat): set<int>
    requires WellFormed(s)
  {
    set q | 0 <= q < |s.mem| && InFrame(s, w, n, q)
  }

  ghost predicate InFrame(s: State, w: Width, n: nat, q: int)
    requires WellFormed(s)
  {
    exists k :: 0 <= k < n && Slot(s, w, k).Some? && Slot(s, w, k).value <= q < Slot(s, w, k).value + w
  }

  lemma LoweredTwice(esp: u32, w: Width, a: int, b: int)
    ensures Lowered(Lowered(esp, w, a), w, b) == Lowered(esp, w, a + b)
    ensures Lowered(esp, w, 0) == esp
  {
    hide WithLow;
    var down := Lowered(esp, w, a);
    WrapTwice(esp - a, b);
    LowReplaced(esp, Wrap16(esp - a));
    LowReplaced(esp, Wrap16(esp));
    if w == 2 {
      assert Wrap16(down - b) == Wrap16(Wrap16(esp - a) - b) by { WrapTwice(down, b); }
      LowTwice(esp, Wrap16(esp - a), Wrap16(down - b));
    }
  }

  lemma LowTwice(word: u32, a: u16, b: u16)
    ensures WithLow(WithLow(word, a), b) == WithLow(word, b)
  {
    LowReplaced(word, a);
  }

  /** How far down a stack goes before it meets itself: SP wraps within 64 KB, ESP
      within the address space, or within the megabyte that the A20 gate leaves. */
  function Span(w: Width, a20: bool): nat {
    if w == 2 then 0x1_0000 else if a20 then 0x1_0000_0000 else 0x10_0000
  }

  /** Two slots less than a span apart never share a byte: not across the wrap of SP or
      ESP, not across the end of the address space, not through the A20 mask. */
  lemma SlotsDisjoint(s: State, w: Width, j: nat, k: nat)
    requires WellFormed(s) && j < k && w * (k - j) + w <= Span(w, s.a20)
    requires Slot(s, w, j).Some? && Slot(s, w, k).Some?
    ensures Slot(s, w, j).value + w <= Slot(s, w, k).value || Slot(s, w, k).value + w <= Slot(s, w, j).value
  {
    hide Allows, Bit, Masked, Wrap32, Top, Lowered, LimitOf, BaseOf, Span;
    var d := w * (k - j);
    var base := StackBase(s);
    var vj, vk := Offset(s, w, j), Offset(s, w, k);
    assert w <= d;
    SpanBelow(w, s.a20);
    OffsetStep(s, w, j, k, d);
    LinearGap(base, vj, vk, w, d);
    GapApart(Wrap32(base as int + vj), Wrap32(base as int + vk), w, d, s.a20);
  }

  /** A span apart, slots are in one place. */
  lemma SlotsMeet(s: State, w: Width, j: nat, k: nat)
    requires WellFormed(s) && j < k && w * (k - j) == Span(w, s.a20)
    requires Slot(s, w, j).Some? && Slot(s, w, k).Some?
    ensures Slot(s, w, j) == Slot(s, w, k)
  {
    hide Allows, Bit, Masked, Wrap32, Top, Lowered, LimitOf, BaseOf;
    var a, span := w * (j + 1), w * (k - j);
    assert w * (k + 1) == a + span;
    TopLowered(s.gp[ESP], w, a);
    TopLowered(s.gp[ESP], w, a + span);
    if w == 2 || s.a20 {
      WholeTurn(s.gp[ESP] - a, Modulus(w));
    } else {
      WrapDown(s.gp[ESP] - a, span, 0x1_0000_0000);
      MegabyteTurn(StackBase(s), Offset(s, w, j), Offset(s, w, k));
    }
  }

  lemma WholeTurn(x: int, m: int)
    requires m == 0x1_0000 || m == 0x1_0000_0000
    ensures (x - m) % m == x % m
  {
  }

  lemma MegabyteTurn(base: u32, v: u32, u: u32)
    requires u as int == v as int - 0x10_0000 || u as int == v as int - 0x10_0000 + 0x1_0000_0000
    ensures Masked(false, Wrap32(base + v)) == Masked(false, Wrap32(base + u))
  {
    var x, y := Wrap32(base + v), Wrap32(base + u);
    assert x as int == if base + v < 0x1_0000_0000 then base + v else base + v - 0x1_0000_0000;
    assert y as int == if base + u < 0x1_0000_0000 then base + u else base + u - 0x1_0000_0000;
  }

  function StackBase(s: State): u32
    requires WellFormed(s)
  {
    if s.pe then BaseOf(s.segs[SS].cache) else s.segs[SS].sel * 16
  }

  function Offset(s: State, w: Width, k: nat): u32
    requires WellFormed(s)
  {
    Top(Lowered(s.gp[ESP], w, w * (k + 1)), w)
  }

  lemma SpanBelow(w: Width, a20: bool)
    ensures Span(w, a20) <= Modulus(w) && (!a20 ==> Span(w, a20) <= 0x10_0000)
  {
  }

  /** Slot k lies d below slot j, up to the wrap of the stack pointer. */
  lemma OffsetStep(s: State, w: Width, j: nat, k: nat, d: int)
    requires WellFormed(s) && j <= k && d == w * (k - j) && d < Modulus(w)
    ensures Offset(s, w, k) as int == Offset(s, w, j) - d || Offset(s, w, k) as int == Offset(s, w, j) - d + Modulus(w)
    ensures w == 2 ==> Offset(s, w, j) < 0x1_0000 && Offset(s, w, k) < 0x1_0000
    ensures Slot(s, w, j).Some? ==> Slot(s, w, j).value == Masked(s.a20, Wrap32(StackBase(s) + Offset(s, w, j)))
    ensures Slot(s, w, k).Some? ==> Slot(s, w, k).value == Masked(s.a20, Wrap32(StackBase(s) + Offset(s, w, k)))
  {
    hide Allows, Bit, Masked, Wrap32, Top, Lowered, LimitOf, BaseOf;
    var a := w * (j + 1);
    assert w * (k + 1) == a + d;
    TopLowered(s.gp[ESP], w, a);
    TopLowered(s.gp[ESP], w, a + d);
    WrapDown(s.gp[ESP] - a, d, Modulus(w));
  }

  /** The top of the stack moves as a whole word of its own width. */
  lemma TopLowered(esp: u32, w: Width, a: int)
    ensures Top(Lowered(esp, w, a), w) == (esp - a) % Modulus(w)
  {
  }

  lemma WrapDown(x: int, d: int, m: int)
    requires 0 <= d < m && (m == 0x1_0000 || m == 0x1_0000_0000)
    ensures (x - d) % m == x % m - d || (x - d) % m == x % m - d + m
  {
  }

  /** Slots are d apart as addresses too, up to the wraps of SP and of the address space. */
  predicate Gap(gap: int, w: Width, d: int) {
    || gap == -d || gap == 0x1_0000_0000 - d
    || (w == 2 && (gap == 0x1_0000 - d || gap == 0x1_0000 - d - 0x1_0000_0000))
  }

  lemma LinearGap(base: u32, v: u32, u: u32, w: Width, d: int)
    requires w <= d < Modulus(w) && (u as int == v - d || u as int == v - d + Modulus(w))
    requires w == 2 ==> v < 0x1_0000 && u < 0x1_0000
    ensures Gap(Wrap32(base + u) as int - Wrap32(base + v) as int, w, d)
  {
    assert Wrap32(base + u) as int == if base + u < 0x1_0000_0000 then base + u else base + u - 0x1_0000_0000;
    assert Wrap32(base + v) as int == if base + v < 0x1_0000_0000 then base + v else base + v - 0x1_0000_0000;
  }

  lemma GapApart(x: u32, y: u32, w: Width, d: int, a20: bool)
    requires w <= d && d + w <= Span(w, a20) && Gap(y as int - x as int, w, d)
    ensures Masked(a20, x) + w <= Masked(a20, y) || Masked(a20, y) + w <= Masked(a20, x)
  {
    if !a20 {
      var i, j := x / 0x10_0000, y / 0x10_0000;
      var p, q := x % 0x10_0000, y % 0x10_0000;
      assert x as int == i * 0x10_0000 + p && y as int == j * 0x10_0000 + q;
      if w == 2 {
      } else {
      }
    }
  }

  /** A push puts its value into the slot, moves ESP, and changes nothing else. */
  lemma PushEffect(s: State, w: Width, v: u32)
    requires WellFormed(s) && v < Modulus(w) && SlotsInRam(s, w, 1)
    ensures Push(s, w, v).Some?
    ensures var t := Push(s, w, v).value; var p := Slot(s, w, 0).value;
            && t == s.(gp := s.gp[ESP := Lowered(s.gp[ESP], w, w)], mem := t.mem)
            && |t.mem| == |s.mem| && Get(t.mem, p, w) == v
            && SameElsewhere(t.mem, s.mem, p, w)
  {
    hide Lowered, Top, PutWord, PutDword, Word, Dword, Masked;
    assert Slot(s, w, 0).Some?;
    var esp := Lowered(s.gp[ESP], w, w);
    PhysicalSame(s, WithEsp(s, esp), Top(esp, w));
    var p := Slot(s, w, 0).value;
    if w == 2 {
      PutWordGet(s.mem, p, v);
    } else {
      PutDwordGet(s.mem, p, v);
    }
  }

  /** Where SS leads depends on SS, the privilege level and the mode alone. */
  ghost predicate SameStack(s: State, t: State) {
    && WellFormed(s) && WellFormed(t)
    && s.segs[SS] == t.segs[SS] && s.pe == t.pe && s.a20 == t.a20 && (s.pe ==> Cpl(s) == Cpl(t))
  }

  lemma PhysicalSame(s: State, t: State, vaddr: u32)
    requires SameStack(s, t)
    ensures Physical(s, Write, SS, vaddr) == Physical(t, Write, SS, vaddr)
  {
  }

  /** Pushing a list of values: one slot each, first pushed highest; ESP moves once per
      value, and no other byte or register changes. */
  lemma {:induction false} PushAllEffect(s: State, w: Width, vs: seq<u32>)
    requires WellFormed(s) && SlotsInRam(s, w, |vs|) && |vs| <= 5
    requires forall k :: 0 <= k < |vs| ==> vs[k] < Modulus(w)
    ensures PushAll(s, w, vs).Some?
    ensures var t := PushAll(s, w, vs).value;
            && t == s.(gp := s.gp[ESP := Lowered(s.gp[ESP], w, w * |vs|)], mem := t.mem)
            && |t.mem| == |s.mem|
            && (forall k :: 0 <= k < |vs| ==> Get(t.mem, Slot(s, w, k).value, w) == vs[k])
            && Untouched(s.mem, t.mem, s, w, |vs|)
  {
    hide Lowered, Top, PutWord, PutDword, Word, Dword, Masked, Physical, Push, Span;
    if vs == [] {
      LoweredTwice(s.gp[ESP], w, 0, 0);
      assert w * |vs| == 0;
      assert s.gp[ESP := s.gp[ESP]] == s.gp;
    } else {
      var n := |vs| - 1;
      PushAllEffect(s, w, vs[..n]);
      var u := PushAll(s, w, vs[..n]).value;
      SlotShift(s, u, w, n);
      PushEffect(u, w, vs[n]);
      var t := Push(u, w, vs[n]).value;
      LoweredTwice(s.gp[ESP], w, w * n, w);
      assert w * n + w == w * |vs|;
      forall k | 0 <= k < |vs| ensures Get(t.mem, Slot(s, w, k).value, w) == vs[k] {
        if k < n {
          assert Get(u.mem, Slot(s, w, k).value, w) == vs[..n][k];
          FewInSpan(w, s.a20, n - k);
          SlotsDisjoint(s, w, k, n);
          ApartKept(u.mem, t.mem, Slot(s, w, k).value, Slot(s, w, n).value, w);
        }
      }
    }
  }

  /** Memory outside the first n slots is unchanged. */
  ghost predicate Untouched(a: Ram, b: Ram, s: State, w: Width, n: nat)
    requires WellFormed(s)
  {
    |a| == |b| && forall q :: 0 <= q < |a| && !InFrame(s, w, n, q) ==> a[q] == b[q]
  }

  /** After n pushes the next slot is slot n of the start. */
  lemma SlotShift(s: State, u: State, w: Width, n: nat)
    requires SameStack(s, u) && u.gp[ESP] == Lowered(s.gp[ESP], w, w * n)
    ensures forall k: nat :: Slot(u, w, k) == Slot(s, w, n + k)
  {
    hide Lowered, Top;
    forall k: nat ensures Slot(u, w, k) == Slot(s, w, n + k) {
      LoweredTwice(s.gp[ESP], w, w * n, w * (k + 1));
      assert w * n + w * (k + 1) == w * (n + k + 1);
      PhysicalSame(s, u, Top(Lowered(u.gp[ESP], w, w * (k + 1)), w));
    }
  }

  /** A store of one value leaves a value that is apart from it. */
  lemma ApartKept(a: Ram, b: Ram, p: int, q: int, w: Width)
    requires Inside(a, p, w) && SameElsewhere(b, a, q, w) && (p + w <= q || q + w <= p)
    ensures Get(b, p, w) == Get(a, p, w)
  {
    GetSame(a, b, p, w);
  }

  lemma FewInSpan(w: Width, a20: bool, d: nat)
    requires d < 5
    ensures w * d + w <= Span(w, a20)
  {
    assert w * d <= 4 * d;
  }

  lemma GetSame(a: Ram, b: Ram, p: int, w: Width)
    requires Inside(a, p, w) && SameRange(a, b, p, w)
    ensures Get(a, p, w) == Get(b, p, w)
  {
    hide Word, Dword;
    if w == 2 {
      WordSame(a, b, p);
    } else {
      DwordSame(a, b, p);
    }
  }

  /** Popping from slot k, possibly at a more privileged level: the slot's value comes
      back and ESP moves back up by one value. */
  lemma PopSlot(s: State, b: State, w: Width, k: nat)
    requires WellFormed(s) && Slot(s, w, k).Some? && !Device(Slot(s, w, k).value) && InRam(b.mem, Slot(s, w, k).value)
    requires WellFormed(b) && b.segs[SS] == s.segs[SS] && b.pe == s.pe && b.a20 == s.a20 && (s.pe ==> Cpl(b) <= Cpl(s))
    requires b.gp[ESP] == Lowered(s.gp[ESP], w, w * (k + 1))
    ensures Pop(b, w) == Some((WithEsp(b, Lowered(s.gp[ESP], w, w * k)), Get(b.mem, Slot(s, w, k).value, w)))
  {
    hide Lowered, Top, Masked, LimitOf, BaseOf;
    LoweredTwice(s.gp[ESP], w, w * (k + 1), -(w as int));
    assert w * (k + 1) - w == w * k;
  }

  /** Pushing a list is pushing its parts in turn. */
  lemma {:induction false} PushAllAppend(s: State, w: Width, xs: seq<u32>, ys: seq<u32>)
    requires WellFormed(s)
    ensures PushAll(s, w, xs + ys) == var t := PushAll(s, w, xs); if t.None? then None else PushAll(t.value, w, ys)
  {
    hide Push;
    if ys == [] {
      assert xs + ys == xs;
    } else {
      PushAllAppend(s, w, xs, ys[..|ys| - 1]);
      assert (xs + ys)[..|xs + ys| - 1] == xs + ys[..|ys| - 1];
    }
  }
}
