/** Repeated string instructions with 16-bit counters: how often they run, and what a
    whole run amounts to. */
module Strings {
  import opened Words
  import opened Memory
  import opened Cpu
  import Alu

  datatype Repeat = Once | WhileZero | WhileNotZero

  // indices of the counter and of the two pointers
  const ECX := 1
  const ESI := 6
  const EDI := 7

  function Low(s: State, r: nat): u16
    requires WellFormed(s) && r < 8
  {
    Wrap16(s.gp[r])
  }

  function Bump(s: State, r: nat, d: int): (t: State)
    requires WellFormed(s) && r < 8
    ensures WellFormed(t)
  {
    s.(gp := s.gp[r := WithLow(s.gp[r], Wrap16(s.gp[r] + d))])
  }

  /** Where a data access lands; None for a fault or a device. */
  function Address(s: State, mode: AccessMode, seg: nat, offset: u16): Option<int>
    requires WellFormed(s) && seg < 6
  {
    var p := Physical(s, mode, seg, offset);
    if p.None? || Device(p.value) then None else p
  }

  // ------------------------------------------------------------- moving words

  function Step(df: bool, size: nat): int {
    if df then -(size as int) else size
  }

  /** One word from DS:SI to ES:DI; memory past the end reads as zero and drops writes. */
  function MoveWord(s: State, df: bool): (r: Option<State>)
    requires WellFormed(s)
    ensures r.Some? ==> WellFormed(r.value)
  {
    var p := Address(s, Read, DS, Low(s, ESI));
    if p.None? then None
    else
      var word := if InRam(s.mem, p.value) then Word(s.mem, p.value) else 0;
      var q := Address(s, Write, ES, Low(s, EDI));
      if q.None? then None
      else
        var t := if InRam(s.mem, q.value) then s.(mem := PutWord(s.mem, q.value, word)) else s;
        Some(Bump(Bump(t, ESI, Step(df, 2)), EDI, Step(df, 2)))
  }

  /** How many rounds CX still stands for: zero counts as 65536. */
  function Rounds(s: State): nat
    requires WellFormed(s)
  {
    if Low(s, ECX) == 0 then 0x1_0000 else Low(s, ECX)
  }

  /** The instruction: repeated until CX runs out or, whatever the prefix, ZF is set;
      a move does not change ZF. */
  function Movsw(s: State, rep: Repeat, zero: bool, df: bool): (r: Option<State>)
    requires WellFormed(s)
    ensures r.Some? ==> WellFormed(r.value)
    decreases Rounds(s)
  {
    var t := MoveWord(s, df);
    if t.None? then None
    else if rep == Once then t
    else
      var u := Bump(t.value, ECX, -1);
      CountDown(s, t.value);
      if Low(u, ECX) == 0 || zero then Some(u) else Movsw(u, rep, zero, df)
  }

  lemma CountDown(s: State, t: State)
    requires WellFormed(s) && WellFormed(t) && t.gp[ECX] == s.gp[ECX]
    ensures var u := Bump(t, ECX, -1); Low(u, ECX) as int == Rounds(s) - 1
  {
    hide WithLow;
    LowReplaced(t.gp[ECX], Wrap16(t.gp[ECX] as int - 1));
    OneLess(t.gp[ECX]);
  }

  lemma OneLess(x: u32)
    ensures Wrap16(x as int - 1) as int == if Wrap16(x) == 0 then 0xffff else Wrap16(x) - 1
    ensures Wrap16(Wrap16(x as int - 1)) == Wrap16(x as int - 1)
  {
    var k, r := x / 0x1_0000, x % 0x1_0000;
    assert x == k * 0x1_0000 + r;
    Wrap16Step(r as int - 1, k);
  }

  /** k rounds in sequence, each one seeing what the one before it wrote. */
  function MoveTimes(s: State, df: bool, k: nat): (r: Option<State>)
    requires WellFormed(s)
    ensures r.Some? ==> WellFormed(r.value)
    decreases k
  {
    if k == 0 then Some(s)
    else
      var t := MoveWord(s, df);
      if t.None? then None else MoveTimes(Bump(t.value, ECX, -1), df, k - 1)
  }

  /** One round changes the two pointers and at most one word of memory. */
  lemma MoveWordEffect(s: State, df: bool)
    requires WellFormed(s) && MoveWord(s, df).Some?
    ensures var t := MoveWord(s, df).value; var d := Step(df, 2);
            && |t.mem| == |s.mem| && t == s.(gp := t.gp, mem := t.mem)
            && t.gp == s.gp[ESI := WithLow(s.gp[ESI], Wrap16(s.gp[ESI] + d))]
                           [EDI := WithLow(s.gp[EDI], Wrap16(s.gp[EDI] + d))]
  {
    hide Physical, WithLow, Wrap16;
  }

  /** The instruction runs as many rounds as CX says, 65536 for zero, if ZF is clear when
      it starts; with ZF set it runs one, whichever prefix it carries. */
  lemma {:induction false} MovswRounds(s: State, rep: Repeat, zero: bool, df: bool)
    requires WellFormed(s) && rep != Once
    ensures Movsw(s, rep, zero, df) == MoveTimes(s, df, if zero then 1 else Rounds(s))
    decreases Rounds(s)
  {
    hide MoveWord;
    if MoveWord(s, df).Some? {
      var t := MoveWord(s, df).value;
      MoveWordEffect(s, df);
      CountDown(s, t);
      var u := Bump(t, ECX, -1);
      assert MoveTimes(u, df, 0) == Some(u);
      if !zero && Low(u, ECX) != 0 {
        MovswRounds(u, rep, zero, df);
      }
    }
  }

  /** A register moved by x: its low half, modulo 2^16, and no more. */
  function Moved(r: u32, x: int): u32 {
    WithLow(r, Wrap16(r + x))
  }

  lemma MovedTwice(r: u32, x: int, y: int)
    ensures Moved(Moved(r, x), y) == Moved(r, x + y)
    ensures Moved(r, 0) == r
  {
    hide WithLow;
    var m := Moved(r, x) as int;
    LowReplaced(r, Wrap16(r + x));
    assert Wrap16(m) == Wrap16(r + x);
    WrapTwice(m, -y);
    WrapTwice(r + x, -y);
    LowReplaced(r, 0);
    LowTwice(r, Wrap16(r + x), Wrap16(m + y));
    hide Wrap16;
  }

  /** After k rounds: SI and DI have moved k words, CX has gone down by k, each modulo
      2^16 in its low half; nothing else but memory has changed. */
  lemma {:induction false} MoveTimesRegisters(s: State, df: bool, k: nat)
    requires WellFormed(s) && MoveTimes(s, df, k).Some?
    ensures var t := MoveTimes(s, df, k).value; var d := Step(df, 2);
            && |t.mem| == |s.mem| && t == s.(gp := t.gp, mem := t.mem)
            && t.gp == s.gp[ESI := Moved(s.gp[ESI], k * d)][EDI := Moved(s.gp[EDI], k * d)]
                           [ECX := Moved(s.gp[ECX], -(k as int))]
    decreases k
  {
    hide MoveWord, WithLow, Wrap16, Moved;
    var d := Step(df, 2);
    MovedTwice(s.gp[ESI], d, (k - 1) * d);
    MovedTwice(s.gp[EDI], d, (k - 1) * d);
    MovedTwice(s.gp[ECX], -1, 1 - k);
    if k > 0 {
      MoveWordEffect(s, df);
      var u := Bump(MoveWord(s, df).value, ECX, -1);
      MoveTimesRegisters(u, df, k - 1);
      BumpedAll(s, u, d);
      assert d + (k - 1) * d == k * d;
    }
  }

  lemma BumpedAll(s: State, u: State, d: int)
    requires WellFormed(s) && WellFormed(u)
    requires u.gp == s.gp[ESI := WithLow(s.gp[ESI], Wrap16(s.gp[ESI] + d))]
                         [EDI := WithLow(s.gp[EDI], Wrap16(s.gp[EDI] + d))]
                         [ECX := WithLow(s.gp[ECX], Wrap16(s.gp[ECX] as int - 1))]
    ensures u.gp == s.gp[ESI := Moved(s.gp[ESI], d)][EDI := Moved(s.gp[EDI], d)][ECX := Moved(s.gp[ECX], -1)]
  {
    hide WithLow, Wrap16;
  }

  // ------------------------------------------------------------- the block move

  /** k words from DS:SI upwards lie in memory from a on. */
  ghost predicate Linear(s: State, mode: AccessMode, seg: nat, offset: int, a: int, k: nat)
    requires WellFormed(s) && seg < 6
  {
    forall i :: 0 <= i < k ==>
      Address(s, mode, seg, Wrap16(offset + 2 * i)) == Some(a + 2 * i) && InRam(s.mem, a + 2 * i)
  }

  /** Where neither end wraps, moving k words upwards moves the whole block as it was,
      also when the blocks overlap, as long as the destination does not start inside the
      source; no other byte changes. */
  lemma {:induction false} BlockMove(s: State, k: nat, a: int, b: int)
    requires WellFormed(s) && (b <= a || a + 2 * k <= b)
    requires Inside(s.mem, a, 2 * k) && Linear(s, Read, DS, s.gp[ESI], a, k)
    requires Inside(s.mem, b, 2 * k) && Linear(s, Write, ES, s.gp[EDI], b, k)
    ensures MoveTimes(s, false, k).Some?
    ensures var t := MoveTimes(s, false, k).value;
            && |t.mem| == |s.mem|
            && t.mem[b..b + 2 * k] == s.mem[a..a + 2 * k]
            && SameElsewhere(t.mem, s.mem, b, 2 * k)
    decreases k
  {
    hide Address, WithLow, Wrap16, Word, PutWord, MoveWord, Linear, Bump;
    if k > 0 {
      hide SameElsewhere, InRam;
      FirstWord(s, k, a, b);
      var u := Bump(MoveWord(s, false).value, ECX, -1);
      BlockMove(u, k - 1, a + 2, b + 2);
      var t := MoveTimes(u, false, k - 1).value;
      BlockJoin(s.mem, u.mem, t.mem, 2 * k, a, b);
    }
  }

  /** A first word and the rest of a block, moved one after the other, are the block. */
  lemma BlockJoin(s: Ram, u: Ram, t: Ram, size: nat, a: int, b: int)
    requires 2 <= size && Inside(s, a, size) && Inside(s, b, size) && (b <= a || a + size <= b)
    requires SameElsewhere(u, s, b, 2) && u[b] == s[a] && u[b + 1] == s[a + 1]
    requires SameElsewhere(t, u, b + 2, size - 2) && t[b + 2..b + size] == u[a + 2..a + size]
    ensures t[b..b + size] == s[a..a + size] && SameElsewhere(t, s, b, size)
  {
    assert u[a + 2..a + size] == s[a + 2..a + size];
    assert t[b..b + size] == t[b..b + 2] + t[b + 2..b + size];
    assert s[a..a + size] == s[a..a + 2] + s[a + 2..a + size];
  }

  lemma FirstWord(s: State, k: nat, a: int, b: int)
    requires WellFormed(s) && k > 0 && (b <= a || a + 2 * k <= b)
    requires Linear(s, Read, DS, s.gp[ESI], a, k) && Linear(s, Write, ES, s.gp[EDI], b, k)
    ensures MoveWord(s, false).Some?
    ensures var u := Bump(MoveWord(s, false).value, ECX, -1);
            && |u.mem| == |s.mem| && SameElsewhere(u.mem, s.mem, b, 2)
            && 0 <= a && a + 2 <= |s.mem| && 0 <= b && b + 2 <= |s.mem|
            && u.mem[b] == s.mem[a] && u.mem[b + 1] == s.mem[a + 1]
            && Linear(u, Read, DS, u.gp[ESI], a + 2, k - 1) && Linear(u, Write, ES, u.gp[EDI], b + 2, k - 1)
  {
    hide Address, Wrap16, WithLow;
    assert Address(s, Read, DS, Wrap16(s.gp[ESI] + 2 * 0)) == Some(a + 2 * 0) && InRam(s.mem, a + 2 * 0);
    assert Address(s, Write, ES, Wrap16(s.gp[EDI] + 2 * 0)) == Some(b + 2 * 0) && InRam(s.mem, b + 2 * 0);
    WordBytes(s.mem, a, b);
    MoveWordEffect(s, false);
    var u := Bump(MoveWord(s, false).value, ECX, -1);
    LinearOn(s, u, Read, DS, ESI, a, k);
    LinearOn(s, u, Write, ES, EDI, b, k);
  }

  lemma WordBytes(mem: Ram, a: int, b: int)
    requires Inside(mem, a, 2) && Inside(mem, b, 2)
    ensures var r := PutWord(mem, b, Word(mem, a));
            r[b] == mem[a] && r[b + 1] == mem[a + 1] && SameElsewhere(r, mem, b, 2)
  {
  }

  lemma LinearOn(s: State, u: State, mode: AccessMode, seg: nat, r: nat, a: int, k: nat)
    requires WellFormed(s) && WellFormed(u) && k > 0 && seg < 6 && r < 8
    requires u.segs == s.segs && u.pe == s.pe && u.a20 == s.a20 && |u.mem| == |s.mem|
    requires u.gp[r] == WithLow(s.gp[r], Wrap16(s.gp[r] as int + 2)) && Linear(s, mode, seg, s.gp[r], a, k)
    ensures Linear(u, mode, seg, u.gp[r], a + 2, k - 1)
  {
    hide Physical, Wrap16, WithLow;
    forall i | 0 <= i < k - 1
      ensures Address(u, mode, seg, Wrap16(u.gp[r] + 2 * i)) == Some(a + 2 + 2 * i) && InRam(u.mem, a + 2 + 2 * i)
    {
      MovedOffset(s.gp[r], 2 * i);
      PhysicalAlike(s, u, mode, seg, Wrap16(u.gp[r] + 2 * i));
      assert Address(s, mode, seg, Wrap16(s.gp[r] + 2 * (i + 1))) == Some(a + 2 * (i + 1));
    }
  }

  lemma MovedOffset(r: u32, i: nat)
    ensures Wrap16(WithLow(r, Wrap16(r as int + 2)) as int + i) == Wrap16(r as int + (i + 2))
  {
    hide WithLow;
    var m := WithLow(r, Wrap16(r as int + 2)) as int;
    LowReplaced(r, Wrap16(r as int + 2));
    assert Wrap16(m) == Wrap16(r as int + 2);
    WrapTwice(m, -(i as int));
    WrapTwice(r as int + 2, -(i as int));
    hide Wrap16;
  }

  lemma PhysicalAlike(s: State, u: State, mode: AccessMode, seg: nat, offset: u16)
    requires WellFormed(s) && WellFormed(u) && seg < 6
    requires u.segs == s.segs && u.pe == s.pe && u.a20 == s.a20
    ensures Physical(u, mode, seg, offset) == Physical(s, mode, seg, offset)
  {
  }

  // ------------------------------------------------------------- comparing bytes

  function ReadByte(s: State, seg: nat, offset: u16): Option<byte>
    requires WellFormed(s) && seg < 6
  {
    var p := Address(s, Read, seg, offset);
    if p.None? then None else Some(if InRam(s.mem, p.value) then s.mem[p.value] else 0)
  }

  /** The j-th pair a comparison in direction d looks at: source and destination byte. */
  function Pair(s: State, seg: nat, df: bool, j: nat): Option<(byte, byte)>
    requires WellFormed(s) && seg < 6
  {
    var x := ReadByte(s, seg, Wrap16(s.gp[ESI] + j * Step(df, 1)));
    var y := ReadByte(s, ES, Wrap16(s.gp[EDI] + j * Step(df, 1)));
    if x.None? || y.None? then None else Some((x.value, y.value))
  }

  function Compared(pair: (byte, byte)): Alu.Flags {
    Alu.AfterSub(8, pair.0, pair.1)
  }

  function Past(s: State, df: bool): (t: State)
    requires WellFormed(s)
    ensures WellFormed(t)
  {
    Bump(Bump(s, ESI, Step(df, 1)), EDI, Step(df, 1))
  }

  /** The prefix says whether equal or different bytes end the comparison. */
  predicate Ends(rep: Repeat, zero: bool) {
    if rep == WhileZero then !zero else zero
  }

  function Cmpsb(s: State, seg: nat, rep: Repeat, df: bool): (r: Option<(State, Alu.Flags)>)
    requires WellFormed(s) && seg < 6
    ensures r.Some? ==> WellFormed(r.value.0)
    decreases Rounds(s)
  {
    var pair := Pair(s, seg, df, 0);
    if pair.None? then None
    else
      var f := Compared(pair.value);
      var t := Past(s, df);
      if rep == Once then Some((t, f))
      else
        var u := Bump(t, ECX, -1);
        CountDown(s, t);
        if Low(u, ECX) == 0 || Ends(rep, f.zero) then Some((u, f)) else Cmpsb(u, seg, rep, df)
  }

  /** The state k rounds of comparing lead to. */
  ghost function Compares(s: State, df: bool, k: nat): State
    requires WellFormed(s)
  {
    var d := Step(df, 1);
    s.(gp := s.gp[ESI := Moved(s.gp[ESI], k * d)][EDI := Moved(s.gp[EDI], k * d)][ECX := Moved(s.gp[ECX], -(k as int))])
  }

  /** The comparison ends with its pair k - 1: k is what CX stands for, or that pair is
      the first to end it. */
  ghost predicate StopsAfter(s: State, seg: nat, rep: Repeat, df: bool, k: nat)
    requires WellFormed(s) && seg < 6
  {
    && 0 < k <= Rounds(s)
    && (forall j: nat :: j < k ==> Pair(s, seg, df, j).Some?)
    && (forall j: nat :: j < k - 1 ==> !Ends(rep, Equal(Pair(s, seg, df, j).value)))
    && (k == Rounds(s) || Ends(rep, Equal(Pair(s, seg, df, k - 1).value)))
  }

  predicate Equal(pair: (byte, byte)) {
    pair.0 == pair.1
  }

  lemma Verdict(pair: (byte, byte))
    ensures Compared(pair).zero == Equal(pair) && Compared(pair).carry == (pair.0 < pair.1)
  {
    Alu.SubFacts(8, pair.0, pair.1);
    hide Alu.AfterSub;
  }

  lemma NextPair(s: State, seg: nat, df: bool, j: nat)
    requires WellFormed(s) && seg < 6
    ensures Pair(Bump(Past(s, df), ECX, -1), seg, df, j) == Pair(s, seg, df, j + 1)
  {
    hide Wrap16, WithLow, Physical;
    var d := Step(df, 1);
    var u := Bump(Past(s, df), ECX, -1);
    assert d + j * d == (j + 1) * d;
    OffsetMoved(s.gp[ESI], d, j * d);
    OffsetMoved(s.gp[EDI], d, j * d);
    PhysicalAlike(s, u, Read, seg, Wrap16(s.gp[ESI] + (j + 1) * d));
    PhysicalAlike(s, u, Read, ES, Wrap16(s.gp[EDI] + (j + 1) * d));
  }

  lemma OffsetMoved(r: u32, x: int, y: int)
    ensures Wrap16(WithLow(r, Wrap16(r as int + x)) as int + y) == Wrap16(r as int + (x + y))
  {
    hide WithLow;
    var m := WithLow(r, Wrap16(r as int + x)) as int;
    LowReplaced(r, Wrap16(r as int + x));
    assert Wrap16(m) == Wrap16(r as int + x);
    WrapTwice(m, -y);
    WrapTwice(r as int + x, -y);
    hide Wrap16;
  }

  lemma NextCompares(s: State, df: bool, k: nat)
    requires WellFormed(s)
    ensures Compares(Bump(Past(s, df), ECX, -1), df, k) == Compares(s, df, k + 1)
  {
    hide Wrap16, WithLow;
    var d := Step(df, 1);
    assert d + k * d == (k + 1) * d;
    MovedTwice(s.gp[ESI], d, k * d);
    MovedTwice(s.gp[EDI], d, k * d);
    MovedTwice(s.gp[ECX], -1, -(k as int));
    var u := Bump(Past(s, df), ECX, -1);
    assert u.gp[ESI] == Moved(s.gp[ESI], d) && u.gp[EDI] == Moved(s.gp[EDI], d) && u.gp[ECX] == Moved(s.gp[ECX], -1);
    hide Moved;
    assert Compares(u, df, k).gp == Compares(s, df, k + 1).gp;
  }

  /** One round: it ends the instruction, or the next one goes on from where it led. */
  lemma CmpsbRound(s: State, seg: nat, rep: Repeat, df: bool)
    requires WellFormed(s) && seg < 6 && rep != Once
    ensures var u := Bump(Past(s, df), ECX, -1);
            && (Rounds(s) > 1 ==> Rounds(u) == Rounds(s) - 1)
            && Cmpsb(s, seg, rep, df)
               == if Pair(s, seg, df, 0).None? then None
                  else
                    var pair := Pair(s, seg, df, 0).value;
                    if Rounds(s) == 1 || Ends(rep, Equal(pair)) then Some((u, Compared(pair)))
                    else Cmpsb(u, seg, rep, df)
  {
    var t := Past(s, df);
    PastKeepsCount(s, df);
    CountDown(s, t);
    hide Pair, Compared, Past, Bump, Low, Equal;
    if Pair(s, seg, df, 0).Some? {
      Verdict(Pair(s, seg, df, 0).value);
    }
  }

  /** The two prefixes compare up to and including the first pair that ends them, or as
      many pairs as CX says; SI, DI and CX have moved by that many, and the flags are those
      of the last pair. */
  lemma {:induction false} CmpsbStops(s: State, seg: nat, rep: Repeat, df: bool, k: nat)
    requires WellFormed(s) && seg < 6 && rep != Once && StopsAfter(s, seg, rep, df, k)
    ensures Cmpsb(s, seg, rep, df) == Some((Compares(s, df, k), Compared(Pair(s, seg, df, k - 1).value)))
    decreases k
  {
    hide Pair, Compared, Past, Bump, Rounds, Moved, Cmpsb, Equal;
    var u := Bump(Past(s, df), ECX, -1);
    CmpsbRound(s, seg, rep, df);
    if k == 1 {
      NextCompares(s, df, 0);
      NoCompares(u, df);
    } else {
      assert !Ends(rep, Equal(Pair(s, seg, df, 0).value));
      forall j: nat ensures Pair(u, seg, df, j) == Pair(s, seg, df, j + 1) {
        NextPair(s, seg, df, j);
      }
      NextCompares(s, df, k - 1);
      CmpsbStops(u, seg, rep, df, k - 1);
    }
  }

  lemma PastKeepsCount(s: State, df: bool)
    requires WellFormed(s)
    ensures Past(s, df).gp[ECX] == s.gp[ECX]
  {
    hide WithLow, Wrap16;
  }

  lemma NoCompares(s: State, df: bool)
    requires WellFormed(s)
    ensures Compares(s, df, 0) == s
  {
    MovedTwice(s.gp[ESI], 0, 0);
    MovedTwice(s.gp[EDI], 0, 0);
    MovedTwice(s.gp[ECX], 0, 0);
    hide Moved;
    assert Compares(s, df, 0).gp == s.gp;
  }

  /** A comparison that does not fault stops at exactly one such place. */
  lemma {:induction false} CmpsbStopsSomewhere(s: State, seg: nat, rep: Repeat, df: bool) returns (k: nat)
    requires WellFormed(s) && seg < 6 && rep != Once && Cmpsb(s, seg, rep, df).Some?
    ensures StopsAfter(s, seg, rep, df, k)
    decreases Rounds(s)
  {
    hide Pair, Compared, Past, Bump, Rounds, Equal, Cmpsb;
    var u := Bump(Past(s, df), ECX, -1);
    CmpsbRound(s, seg, rep, df);
    RoundsPositive(s);
    var pair := Pair(s, seg, df, 0).value;
    if Rounds(s) == 1 || Ends(rep, Equal(pair)) {
      k := 1;
    } else {
      var n := CmpsbStopsSomewhere(u, seg, rep, df);
      k := n + 1;
      forall j: nat ensures Pair(u, seg, df, j) == Pair(s, seg, df, j + 1) {
        NextPair(s, seg, df, j);
      }
      ShiftStop(s, u, seg, rep, df, n);
    }
  }

  lemma RoundsPositive(s: State)
    requires WellFormed(s)
    ensures 1 <= Rounds(s) <= 0x1_0000
  {
  }

  lemma ShiftStop(s: State, u: State, seg: nat, rep: Repeat, df: bool, n: nat)
    requires WellFormed(s) && WellFormed(u) && seg < 6 && StopsAfter(u, seg, rep, df, n) && Rounds(u) == Rounds(s) - 1
    requires forall j: nat :: Pair(u, seg, df, j) == Pair(s, seg, df, j + 1)
    requires Pair(s, seg, df, 0).Some? && !Ends(rep, Equal(Pair(s, seg, df, 0).value))
    ensures StopsAfter(s, seg, rep, df, n + 1)
  {
    hide Pair, Rounds, Equal;
    forall j: nat | j < n + 1 ensures Pair(s, seg, df, j).Some? {
      if j > 0 {
        assert Pair(u, seg, df, j - 1) == Pair(s, seg, df, j - 1 + 1);
      }
    }
    forall j: nat | j < n ensures !Ends(rep, Equal(Pair(s, seg, df, j).value)) {
      if j > 0 {
        assert Pair(u, seg, df, j - 1) == Pair(s, seg, df, j - 1 + 1);
      }
    }
    assert Pair(u, seg, df, n - 1) == Pair(s, seg, df, n - 1 + 1);
  }

  /** What REPE leaves for the program to test: ZF says whether the whole blocks are
      equal, and if not, CF whether the first difference is below. */
  lemma RepeVerdict(s: State, seg: nat, df: bool, k: nat)
    requires WellFormed(s) && seg < 6 && StopsAfter(s, seg, WhileZero, df, k)
    ensures Cmpsb(s, seg, WhileZero, df).Some?
    ensures var f := Cmpsb(s, seg, WhileZero, df).value.1; var last := Pair(s, seg, df, k - 1).value;
            && (f.zero <==> forall j: nat :: j < k ==> Equal(Pair(s, seg, df, j).value))
            && (f.zero ==> k == Rounds(s))
            && (!f.zero ==> (f.carry <==> last.0 < last.1))
  {
    CmpsbStops(s, seg, WhileZero, df, k);
    var last := Pair(s, seg, df, k - 1).value;
    hide Pair, Cmpsb, Compares, Low, Compared;
    Verdict(last);
  }
}
