/** The string instructions as loops over the processor object. */
module StringUnits {
  import opened Words
  import opened Memory
  import opened Cpu
  import opened Processor
  import opened Strings
  import Alu

  method Access(proc: CpuI386, mode: AccessMode, seg: nat, offset: u16) returns (p: Option<int>)
    requires proc.Valid() && seg < 6
    ensures p == Address(proc.View(), mode, seg, offset)
    ensures p.Some? ==> p.value >= 0
  {
    hide Physical;
    p := proc.TransV2p(mode, seg, offset);
    if p.Some? && Device(p.value) {
      p := None;
    }
  }

  method Adjust(proc: CpuI386, r: nat, d: int)
    requires proc.Valid() && r < 8
    modifies proc.gp
    ensures proc.Valid() && proc.View() == Bump(old(proc.View()), r, d)
  {
    hide WithLow, Wrap16;
    proc.gp[r] := WithLow(proc.gp[r], Wrap16(proc.gp[r] + d));
  }

  method MoveWord(proc: CpuI386, df: bool) returns (ok: bool)
    requires proc.Valid()
    modifies proc.gp, proc.mem
    ensures proc.Valid()
    ensures ok == Strings.MoveWord(old(proc.View()), df).Some?
    ensures ok ==> proc.View() == Strings.MoveWord(old(proc.View()), df).value
  {
    hide Physical, Word, PutWord, Address, Bump;
    var p := Access(proc, Read, DS, Wrap16(proc.gp[ESI]));
    if p.None? {
      return false;
    }
    var word: u16 := 0;
    if InRam(proc.mem[..], p.value) {
      word := Word(proc.mem[..], p.value);
    }
    var q := Access(proc, Write, ES, Wrap16(proc.gp[EDI]));
    if q.None? {
      return false;
    }
    proc.WriteMem(2, q.value, word);
    assert word % 0x1_0000 == word;
    Adjust(proc, ESI, Step(df, 2));
    Adjust(proc, EDI, Step(df, 2));
    ok := true;
  }

  method Movsw(proc: CpuI386, rep: Repeat, zero: bool, df: bool) returns (ok: bool)
    requires proc.Valid()
    modifies proc.gp, proc.mem
    ensures proc.Valid()
    ensures ok == Strings.Movsw(old(proc.View()), rep, zero, df).Some?
    ensures ok ==> proc.View() == Strings.Movsw(old(proc.View()), rep, zero, df).value
  {
    hide Strings.MoveWord, Bump, Wrap16;
    ghost var start := proc.View();
    var again := true;
    while again
      invariant proc.Valid()
      invariant Strings.Movsw(start, rep, zero, df)
                == if again then Strings.Movsw(proc.View(), rep, zero, df) else Some(proc.View())
      decreases again, Rounds(proc.View())
    {
      ghost var s := proc.View();
      ok := MoveWord(proc, df);
      if !ok {
        return;
      }
      again := false;
      if rep != Once {
        MoveWordEffect(s, df);
        CountDown(s, proc.View());
        Adjust(proc, ECX, -1);
        again := !(Wrap16(proc.gp[ECX]) == 0 || zero);
      }
    }
    ok := true;
  }

  method ReadByte(proc: CpuI386, seg: nat, offset: u16) returns (b: Option<byte>)
    requires proc.Valid() && seg < 6
    ensures b == Strings.ReadByte(proc.View(), seg, offset)
  {
    hide Address;
    var p := Access(proc, Read, seg, offset);
    if p.None? {
      return None;
    }
    b := Some(if p.value + 4 <= proc.mem.Length then proc.mem[p.value] else 0);
  }

  method Cmpsb(proc: CpuI386, seg: nat, rep: Repeat, df: bool, flags: Alu.FlagsRegister) returns (ok: bool)
    requires proc.Valid() && seg < 6
    modifies proc.gp, flags
    ensures proc.Valid()
    ensures ok == Strings.Cmpsb(old(proc.View()), seg, rep, df).Some?
    ensures ok ==> (proc.View(), flags.View()) == Strings.Cmpsb(old(proc.View()), seg, rep, df).value
  {
    hide Strings.ReadByte, Bump, Wrap16, Alu.AfterSub;
    ghost var start := proc.View();
    var again := true;
    while again
      invariant proc.Valid()
      invariant Strings.Cmpsb(start, seg, rep, df)
                == if again then Strings.Cmpsb(proc.View(), seg, rep, df) else Some((proc.View(), flags.View()))
      decreases again, Rounds(proc.View())
    {
      ghost var s := proc.View();
      assert 0 * Step(df, 1) == 0;
      var x := ReadByte(proc, seg, Wrap16(proc.gp[ESI]));
      if x.None? {
        return false;
      }
      var y := ReadByte(proc, ES, Wrap16(proc.gp[EDI]));
      if y.None? {
        return false;
      }
      flags.UpdateSub(8, x.value, y.value);
      assert Alu.Reduced(8, y.value) == y.value;
      Adjust(proc, ESI, Step(df, 1));
      Adjust(proc, EDI, Step(df, 1));
      again := false;
      if rep != Once {
        PastKeepsCount(s, df);
        CountDown(s, proc.View());
        Adjust(proc, ECX, -1);
        again := !(Wrap16(proc.gp[ECX]) == 0 || Ends(rep, flags.zero));
      }
    }
    ok := true;
  }
}
