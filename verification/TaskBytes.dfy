/** Task state segments and system descriptors byte by byte: what a task switch stores,
    keeps and loads, with every offset written out. */
module TaskBytes {
  import opened Words
  import opened Memory
  import opened Cpu
  import opened TaskSwitch
  import opened CpuBytes

  /** The offsets a switch stores to: CR3, EIP, EFLAGS and the eight general registers,
      then the lower halves of seven selector fields. */
  predicate Stored(o: int) {
    28 <= o < 72 || (72 <= o < 100 && o % 4 < 2)
  }

  lemma ByteRead(mem: Ram, p: int, k: nat)
    requires Inside(mem, p, 4) && k < 4
    ensures ByteOf(Dword(mem, p), k) == mem[p + k]
  {
    WordsOnBytes(mem, p);
    hide Dword;
    DigitRead(mem[p], mem[p + 1], mem[p + 2], mem[p + 3]);
  }

  lemma DigitRead(a: byte, b: byte, c: byte, d: byte)
    ensures var v := a as int + 0x100 * b as int + 0x1_0000 * c as int + 0x100_0000 * d as int;
            v < 0x1_0000_0000 && ByteOf(v, 0) == a && ByteOf(v, 1) == b && ByteOf(v, 2) == c && ByteOf(v, 3) == d
  {
    var v := a as int + 0x100 * b as int + 0x1_0000 * c as int + 0x100_0000 * d as int;
    assert v / 0x100 == b as int + 0x100 * c as int + 0x1_0000 * d as int;
    assert v / 0x1_0000 == c as int + 0x100 * d as int;
    assert v / 0x100_0000 == d as int;
  }

  lemma UpperKept(word: u32, low: u16, k: nat)
    requires 2 <= k < 4
    ensures ByteOf(WithLow(word, low), k) == ByteOf(word, k)
  {
    var h := word / 0x1_0000;
    LowReplaced(word, low);
    assert WithLow(word, low) / 0x1_0000 == h;
    assert WithLow(word, low) / 0x100_0000 == h / 0x100 && word / 0x100_0000 == h / 0x100;
  }

  lemma LowRead(mem: Ram, p: int, word: u32, low: u16)
    requires Inside(mem, p, 4) && Dword(mem, p) == WithLow(word, low)
    ensures Le16(mem, p) == low
  {
    LowReplaced(word, low);
    LowOfDword(mem, p);
    hide WithLow, Dword;
  }

  lemma LowOfDword(mem: Ram, p: int)
    requires Inside(mem, p, 4)
    ensures Le16(mem, p) == Dword(mem, p) % 0x1_0000
  {
    WordsOnBytes(mem, p);
    hide Dword;
    var high := mem[p + 2] as int + 0x100 * mem[p + 3] as int;
    assert Le32(mem, p) == Le16(mem, p) + 0x1_0000 * high;
  }

  /** What a switch stores of the running task, and what of its segment it leaves alone:
      the back link, the ring stacks, the upper halves of selector fields, the trap bit
      and the I/O map. */
  lemma StoresContext(s: State)
    requires WellFormed(s) && TssUsable(s)
    ensures var m, a := Save(s).mem, s.tr.base;
            && |m| == |s.mem|
            && Le32(m, a + 28) == s.cr3 && Le32(m, a + 32) == s.eip && Le32(m, a + 36) == s.eflags
            && (forall i :: 0 <= i < 8 ==> Le32(m, a + 40 + 4 * i) == s.gp[i])
            && (forall i :: 0 <= i < 6 ==> Le16(m, a + 72 + 4 * i) == s.segs[i].sel)
            && Le16(m, a + 96) == s.ldtr.sel
  {
    hide Save, SavedImage, ReadTss, Le32, Le16;
    SaveOnlyMemory(s);
    var a := s.tr.base as int;
    forall i | 0 <= i < 26 ensures Inside(Save(s).mem, a + 4 * i, 4) && Le32(Save(s).mem, a + 4 * i) == Image(s)[i] {
      StoredWord(s, i);
    }
    ImageWords(s);
    assert a + 28 == a + 4 * 7 && a + 32 == a + 4 * 8 && a + 36 == a + 4 * 9;
    forall i | 0 <= i < 8 ensures Le32(Save(s).mem, a + 40 + 4 * i) == s.gp[i] {
      assert a + 40 + 4 * i == a + 4 * (10 + i);
    }
    forall i | 0 <= i < 6 ensures Le16(Save(s).mem, a + 72 + 4 * i) == s.segs[i].sel {
      assert a + 72 + 4 * i == a + 4 * (18 + i);
      StoredSelector(s, 18 + i, s.segs[i].sel);
    }
    assert a + 96 == a + 4 * 24;
    StoredSelector(s, 24, s.ldtr.sel);
  }

  function Image(s: State): Tss
    requires WellFormed(s) && TssUsable(s)
  {
    SavedImage(s, ReadTss(s.mem, s.tr.base))
  }

  lemma ImageWords(s: State)
    requires WellFormed(s) && TssUsable(s)
    ensures var was, ws := ReadTss(s.mem, s.tr.base), Image(s);
            && ws[..7] == was[..7] && ws[7] == s.cr3 && ws[8] == s.eip && ws[9] == s.eflags && ws[25] == was[25]
            && (forall i :: 0 <= i < 8 ==> ws[10 + i] == s.gp[i])
            && (forall i :: 0 <= i < 6 ==> ws[18 + i] == WithLow(was[18 + i], s.segs[i].sel))
            && ws[24] == WithLow(was[24], s.ldtr.sel)
  {
    hide WithLow, ReadTss;
  }

  lemma StoredWord(s: State, i: nat)
    requires WellFormed(s) && TssUsable(s) && i < 26
    ensures Inside(Save(s).mem, s.tr.base + 4 * i, 4)
    ensures Le32(Save(s).mem, s.tr.base + 4 * i) == Image(s)[i]
    ensures Dword(Save(s).mem, s.tr.base + 4 * i) == Image(s)[i]
  {
    TssWord(s.mem, s.tr.base, Image(s), i);
    hide WriteTss, Dword, SavedImage, Le32;
    WordsOnBytes(Save(s).mem, s.tr.base + 4 * i);
  }

  lemma StoredSelector(s: State, i: nat, sel: u16)
    requires WellFormed(s) && TssUsable(s) && i < 26
    requires Image(s)[i] == WithLow(ReadTss(s.mem, s.tr.base)[i], sel)
    ensures Inside(Save(s).mem, s.tr.base + 4 * i, 4) && Le16(Save(s).mem, s.tr.base + 4 * i) == sel
  {
    StoredWord(s, i);
    hide Save, SavedImage, ReadTss, Dword, WithLow, Le16, Le32;
    LowRead(Save(s).mem, s.tr.base + 4 * i, ReadTss(s.mem, s.tr.base)[i], sel);
  }

  lemma KeepsTheRest(s: State, q: int)
    requires WellFormed(s) && TssUsable(s) && 0 <= q < |s.mem| && !Stored(q - s.tr.base)
    ensures Save(s).mem[q] == s.mem[q]
  {
    var a := s.tr.base as int;
    if a <= q < a + 104 {
      var i, k := (q - a) / 4, (q - a) % 4;
      assert q == a + 4 * i + k;
      KeptWord(s, i, k);
    } else {
      TssElsewhere(s.mem, a, Image(s));
      hide WriteTss, SavedImage, ReadTss;
    }
  }

  lemma KeptWord(s: State, i: nat, k: nat)
    requires WellFormed(s) && TssUsable(s) && i < 26 && k < 4 && !Stored(4 * i + k)
    ensures Save(s).mem[s.tr.base + 4 * i + k] == s.mem[s.tr.base + 4 * i + k]
  {
    ImageWords(s);
    hide Save, SavedImage, ReadTss, WithLow, Image;
    var was, ws := ReadTss(s.mem, s.tr.base), Image(s);
    if i < 7 {
      assert ws[..7][i] == was[..7][i];
      KeptSame(s, i, k);
    } else if i == 25 {
      KeptSame(s, i, k);
    } else if i == 24 {
      KeptUpper(s, i, k, s.ldtr.sel);
    } else {
      assert i >= 18 && ws[18 + (i - 18)] == WithLow(was[18 + (i - 18)], s.segs[i - 18].sel);
      KeptUpper(s, i, k, s.segs[i - 18].sel);
    }
  }

  lemma BytesOfImage(s: State, i: nat, k: nat)
    requires WellFormed(s) && TssUsable(s) && i < 26 && k < 4
    ensures var p := s.tr.base as int + 4 * i + k;
            && Save(s).mem[p] == ByteOf(Image(s)[i], k)
            && s.mem[p] == ByteOf(ReadTss(s.mem, s.tr.base)[i], k)
  {
    TssByte(s.mem, s.tr.base, Image(s), i, k);
    hide WriteTss, SavedImage, ByteOf, Dword;
    ByteRead(s.mem, s.tr.base + 4 * i, k);
  }

  lemma KeptSame(s: State, i: nat, k: nat)
    requires WellFormed(s) && TssUsable(s) && i < 26 && k < 4 && Image(s)[i] == ReadTss(s.mem, s.tr.base)[i]
    ensures Save(s).mem[s.tr.base + 4 * i + k] == s.mem[s.tr.base + 4 * i + k]
  {
    SaveOnlyMemory(s);
    hide Save, Image, ReadTss, ByteOf;
    BytesOfImage(s, i, k);
  }

  lemma KeptUpper(s: State, i: nat, k: nat, sel: u16)
    requires WellFormed(s) && TssUsable(s) && i < 26 && 2 <= k < 4
    requires Image(s)[i] == WithLow(ReadTss(s.mem, s.tr.base)[i], sel)
    ensures Save(s).mem[s.tr.base + 4 * i + k] == s.mem[s.tr.base + 4 * i + k]
  {
    SaveOnlyMemory(s);
    hide Save, Image, ReadTss, ByteOf, WithLow;
    BytesOfImage(s, i, k);
    UpperKept(ReadTss(s.mem, s.tr.base)[i], sel, k);
  }

  /** What resuming a task loads, and the two bytes of its segment that are written. */
  lemma LoadsContext(s: State, prev: u16)
    requires WellFormed(s) && TssUsable(s) && Resume(s, prev).Some?
    ensures var t, m, a := Resume(s, prev).value, s.mem, s.tr.base;
            && t.cr3 == Le32(m, a + 28) && t.eip == Le32(m, a + 32) && t.eflags == Le32(m, a + 36)
            && (forall i :: 0 <= i < 8 ==> t.gp[i] == Le32(m, a + 40 + 4 * i))
            && (forall i :: 0 <= i < 6 ==> t.segs[i].sel == Le16(m, a + 72 + 4 * i))
            && t.ldtr.sel == Le16(m, a + 96)
            && t.mem == m[a := prev % 0x100][a + 1 := prev / 0x100]
  {
    var a := s.tr.base as int;
    var ws := ReadTss(s.mem, a);
    forall i | 0 <= i < 26 ensures ws[i] == Le32(s.mem, a + 4 * i) && Wrap16(ws[i]) == Le16(s.mem, a + 4 * i) {
      WordsOnBytes(s.mem, a + 4 * i);
      LowOfDword(s.mem, a + 4 * i);
    }
    PutBytes(s.mem, a, prev);
    ResumedWords(s, prev);
    hide Dword, Wrap16, ReadTss, Resume, Le32, Le16, PutWord;
    var r := Resume(s, prev).value;
    assert a + 28 == a + 4 * 7 && a + 32 == a + 4 * 8 && a + 36 == a + 4 * 9 && a + 96 == a + 4 * 24;
    forall i | 0 <= i < 8 ensures r.gp[i] == Le32(s.mem, a + 40 + 4 * i) {
      assert a + 40 + 4 * i == a + 4 * (10 + i);
    }
    forall i | 0 <= i < 6 ensures r.segs[i].sel == Le16(s.mem, a + 72 + 4 * i) {
      assert a + 72 + 4 * i == a + 4 * (18 + i);
    }
  }

  lemma ResumedWords(s: State, prev: u16)
    requires WellFormed(s) && TssUsable(s) && Resume(s, prev).Some?
    ensures var r, ws := Resume(s, prev).value, ReadTss(s.mem, s.tr.base);
            && r.cr3 == ws[7] && r.eip == ws[8] && r.eflags == ws[9] && |r.segs| == 6
            && (forall i :: 0 <= i < 8 ==> r.gp[i] == ws[10 + i])
            && (forall i :: 0 <= i < 6 ==> r.segs[i].sel == Wrap16(ws[18 + i]))
            && r.ldtr.sel == Wrap16(ws[24]) && r.mem == PutWord(s.mem, s.tr.base, prev)
  {
    var ws := ReadTss(s.mem, s.tr.base);
    var t := s.(mem := PutWord(s.mem, s.tr.base, prev), cr3 := ws[7], eip := ws[8], eflags := ws[9], gp := ws[10..18]);
    hide ReadTss, PutWord, LoadSeg, SetSegments, Wrap16;
    SegmentsLoaded(t, Selectors(ws), 6);
  }

  lemma PutBytes(mem: Ram, p: int, v: u16)
    requires Inside(mem, p, 2)
    ensures PutWord(mem, p, v) == mem[p := v % 0x100][p + 1 := v / 0x100]
  {
  }

  lemma {:induction false} SegmentsLoaded(s: State, sels: seq<u16>, n: nat)
    requires WellFormed(s) && |sels| == 6 && n <= 6 && SetSegments(s, sels, n).Some?
    ensures var t := SetSegments(s, sels, n).value;
            && t == s.(segs := t.segs) && |t.segs| == 6
            && forall i :: 0 <= i < n ==> t.segs[i].sel == sels[i]
  {
    if n > 0 {
      SegmentsLoaded(s, sels, n - 1);
      var t := SetSegments(s, sels, n - 1).value;
      OneLoaded(t, n - 1, sels[n - 1]);
      hide LoadSeg, SetSegment;
    }
  }

  lemma OneLoaded(t: State, seg: nat, sel: u16)
    requires WellFormed(t) && seg < 6 && SetSegment(t, seg, sel).Some?
    ensures var r := SetSegment(t, seg, sel).value;
            r == t.(segs := t.segs[seg := r.segs[seg]]) && r.segs[seg].sel == sel
  {
  }

  /** System descriptors: the selector is an offset into the global table as it stands,
      the base is split as in segment descriptors, the limit is its lower sixteen bits, and
      the type of a task is 1 in the lowest three bits of byte 5. */
  lemma SystemLoads(s: State, sel: u16)
    ensures var p := Modulo32(s.gdtr.base + sel); var fits := sel <= s.gdtr.limit && Inside(s.mem, p, 8);
            && (LoadLdtr(s, sel).Some? <==> fits)
            && (LoadTr(s, sel).Some? <==> fits && s.mem[p + 5] % 8 == 1)
            && (fits ==>
                  var t := TableReg(sel, BaseBytes(s.mem, p), Le16(s.mem, p));
                  && LoadLdtr(s, sel) == Some(t)
                  && (s.mem[p + 5] % 8 == 1 ==> LoadTr(s, sel) == Some(t)))
  {
    var p := Wrap32(s.gdtr.base + sel);
    if Inside(s.mem, p, 8) {
      WordsOnBytes(s.mem, p);
      WordsOnBytes(s.mem, p as int + 2);
    }
    hide Word;
  }

  function BaseBytes(mem: Ram, p: int): u32
    requires Inside(mem, p, 8)
  {
    mem[p + 2] as int + 0x100 * mem[p + 3] as int + 0x1_0000 * mem[p + 4] as int + 0x100_0000 * mem[p + 7] as int
  }
}
