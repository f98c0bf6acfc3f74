/** The string instructions on registers and bytes: what one of them does without a prefix,
    and what REPNE leaves for the program to test. */
module StringBytes {
  import opened Words
  import opened Memory
  import opened Cpu
  import opened Strings
  import Alu

  /** A pointer register after an element: its low half goes up or down by the element's
      size, modulo 2^16. */
  function Stepped(r: u32, size: nat, df: bool): u32
    requires size < 0x1_0000
  {
    r / 0x1_0000 * 0x1_0000 + (r as int + (if df then 0x1_0000 - size else size)) % 0x1_0000
  }

  lemma SteppedIs(r: u32, size: nat, df: bool)
    requires size < 0x1_0000
    ensures WithLow(r, Wrap16(r + Step(df, size))) == Stepped(r, size, df)
  {
    Wrap16Step(r as int - size, 1);
  }

  /** An access that memory serves: no fault, and neither the display's region nor the last
      three addresses. */
  ghost predicate Served(p: Option<int>) {
    p.Some? && !(0xa0000 <= p.value < 0xc0000) && p.value < 0xffff_fffd
  }

  /** The byte at an address, zero unless four bytes fit from p on. */
  ghost function At(mem: Ram, p: int, k: nat): byte
    requires k < 2
  {
    if 0 <= p && p + 4 <= |mem| then mem[p + k] else 0
  }

  /** MOVSW without a prefix, from DS:SI to ES:DI: two bytes are copied, as they were, SI
      and DI are stepped by two, and nothing else changes.  It fails exactly if one of
      the two accesses does. */
  lemma MovesOneWord(s: State, zero: bool, df: bool)
    requires WellFormed(s)
    ensures var from, to := Physical(s, Read, 3, s.gp[6] % 0x1_0000), Physical(s, Write, 0, s.gp[7] % 0x1_0000);
            && (Movsw(s, Once, zero, df).Some? <==> Served(from) && Served(to))
            && (Movsw(s, Once, zero, df).Some? ==>
                  var t := Movsw(s, Once, zero, df).value; var a, b := from.value, to.value;
                  && t.mem == (if 0 <= b && b + 4 <= |s.mem|
                               then s.mem[b := At(s.mem, a, 0)][b + 1 := At(s.mem, a, 1)] else s.mem)
                  && t.gp == s.gp[6 := Stepped(s.gp[6], 2, df)][7 := Stepped(s.gp[7], 2, df)]
                  && t == s.(mem := t.mem, gp := t.gp))
  {
    hide Physical, Stepped, Step, WithLow, Wrap16, At, MoveWord, Served;
    MovesIff(s, df);
    if Movsw(s, Once, zero, df).Some? {
      CopiesWord(s, df);
      MoveWordEffect(s, df);
      SteppedIs(s.gp[6], 2, df);
      SteppedIs(s.gp[7], 2, df);
    }
  }

  lemma MovesIff(s: State, df: bool)
    requires WellFormed(s)
    ensures MoveWord(s, df).Some?
            <==> Served(Physical(s, Read, 3, s.gp[6] % 0x1_0000)) && Served(Physical(s, Write, 0, s.gp[7] % 0x1_0000))
  {
    hide Physical, Bump, Step, Word, PutWord;
  }

  lemma CopiesWord(s: State, df: bool)
    requires WellFormed(s) && MoveWord(s, df).Some?
    ensures var from, to := Physical(s, Read, 3, s.gp[6] % 0x1_0000), Physical(s, Write, 0, s.gp[7] % 0x1_0000);
            && from.Some? && to.Some?
            && var a, b := from.value, to.value;
               MoveWord(s, df).value.mem == if 0 <= b && b + 4 <= |s.mem|
                                            then s.mem[b := At(s.mem, a, 0)][b + 1 := At(s.mem, a, 1)] else s.mem
  {
    var from, to := Physical(s, Read, 3, s.gp[6] % 0x1_0000), Physical(s, Write, 0, s.gp[7] % 0x1_0000);
    SplitWord(s.mem, from.value, to.value);
    hide Physical, Bump, WithLow, Step, Word, PutWord, At;
  }

  lemma SplitWord(mem: Ram, a: int, b: int)
    ensures InRam(mem, b) ==>
              PutWord(mem, b, if InRam(mem, a) then Word(mem, a) else 0)
              == mem[b := At(mem, a, 0)][b + 1 := At(mem, a, 1)]
  {
    SplitBytes(At(mem, a, 0), At(mem, a, 1));
  }

  lemma SplitBytes(low: byte, high: byte)
    ensures (low as int + 0x100 * high as int) % 0x100 == low && (low as int + 0x100 * high as int) / 0x100 == high
  {
  }

  /** CX counts the rounds, and zero stands for 65536 of them. */
  lemma RoundsOfCx(s: State)
    requires WellFormed(s)
    ensures Rounds(s) == if s.gp[1] % 0x1_0000 == 0 then 65536 else s.gp[1] % 0x1_0000
  {
  }

  /** CMPSB without a prefix: the flags of the byte at seg:SI less the byte at ES:DI, SI and
      DI stepped by one, and nothing else. */
  lemma ComparesOneByte(s: State, seg: nat, df: bool)
    requires WellFormed(s) && seg < 6
    ensures var from, to := Physical(s, Read, seg, s.gp[6] % 0x1_0000), Physical(s, Read, 0, s.gp[7] % 0x1_0000);
            && (Cmpsb(s, seg, Once, df).Some? <==> Served(from) && Served(to))
            && (Cmpsb(s, seg, Once, df).Some? ==>
                  var (t, f) := Cmpsb(s, seg, Once, df).value;
                  var x, y := At(s.mem, from.value, 0), At(s.mem, to.value, 0);
                  && t == s.(gp := s.gp[6 := Stepped(s.gp[6], 1, df)][7 := Stepped(s.gp[7], 1, df)])
                  && f.zero == (x == y) && f.carry == (x < y)
                  && f.sign == ((x as int - y as int) % 0x100 >= 0x80)
                  && f.overflow == !(-0x80 <= Alu.Signed(8, x) - Alu.Signed(8, y) < 0x80)
                  && f.parity == Alu.EvenBits((x as int - y as int) % 0x100, 8))
  {
    FirstPair(s, seg, df);
    UnfoldOnce(s, seg, df);
    PastIs(s, df);
    hide Physical, Stepped, At, Pair, Cmpsb, Past, Compared, Served, Alu.EvenBits, Alu.Signed;
    if Pair(s, seg, df, 0).Some? {
      FlagsOf(Pair(s, seg, df, 0).value);
    }
  }

  lemma UnfoldOnce(s: State, seg: nat, df: bool)
    requires WellFormed(s) && seg < 6
    ensures Cmpsb(s, seg, Once, df)
            == var pair := Pair(s, seg, df, 0);
               if pair.None? then None else Some((Past(s, df), Compared(pair.value)))
  {
    hide Pair, Past, Compared;
  }

  lemma PastIs(s: State, df: bool)
    requires WellFormed(s)
    ensures Past(s, df) == s.(gp := s.gp[6 := Stepped(s.gp[6], 1, df)][7 := Stepped(s.gp[7], 1, df)])
  {
    hide Stepped, Step, WithLow, Wrap16;
    SteppedIs(s.gp[6], 1, df);
    SteppedIs(s.gp[7], 1, df);
    assert Bump(s, 6, Step(df, 1)) == s.(gp := s.gp[6 := Stepped(s.gp[6], 1, df)]);
  }

  lemma FlagsOf(pair: (byte, byte))
    ensures var f := Compared(pair); var (x, y) := pair;
            && f.zero == (x == y) && f.carry == (x < y)
            && f.sign == ((x as int - y as int) % 0x100 >= 0x80)
            && f.overflow == !(-0x80 <= Alu.Signed(8, x) - Alu.Signed(8, y) < 0x80)
            && f.parity == Alu.EvenBits((x as int - y as int) % 0x100, 8)
  {
    Alu.SubFacts(8, pair.0, pair.1);
    hide Alu.AfterSub, Alu.EvenBits;
  }

  lemma FirstPair(s: State, seg: nat, df: bool)
    requires WellFormed(s) && seg < 6
    ensures var from, to := Physical(s, Read, seg, s.gp[6] % 0x1_0000), Physical(s, Read, 0, s.gp[7] % 0x1_0000);
            Pair(s, seg, df, 0) == if Served(from) && Served(to)
                                   then Some((At(s.mem, from.value, 0), At(s.mem, to.value, 0))) else None
  {
    assert 0 * Step(df, 1) == 0;
    hide Physical, Step;
  }

  /** What REPNE leaves: ZF says whether a pair was equal; it is then the last one, and no
      pair before it was.  If none is, CX has run out. */
  lemma RepneVerdict(s: State, seg: nat, df: bool, k: nat)
    requires WellFormed(s) && seg < 6 && StopsAfter(s, seg, WhileNotZero, df, k)
    ensures Cmpsb(s, seg, WhileNotZero, df).Some?
    ensures var f := Cmpsb(s, seg, WhileNotZero, df).value.1;
            && (f.zero <==> Equal(Pair(s, seg, df, k - 1).value))
            && (forall j: nat :: j < k - 1 ==> !Equal(Pair(s, seg, df, j).value))
            && (!f.zero ==> k == Rounds(s))
  {
    CmpsbStops(s, seg, WhileNotZero, df, k);
    hide Pair, Cmpsb, Compares, Low, Compared;
    Verdict(Pair(s, seg, df, k - 1).value);
  }
}
