/** The processor object, updating its registers and memory in place, proved against the
    functions that the theorems about interrupts and tasks are stated for.  A result of
    `false` is an exception thrown part way; what it leaves behind is not described. */
module Processor {
  import opened Words
  import opened Memory
  import opened Cpu
  import Interrupts
  import TaskSwitch

  class CpuI386 {
    const gp: array<u32>
    const segs: array<Seg>
    const mem: array<byte>
    var eip: u32
    var eflags: u32
    var gdtr: TableReg
    var idtr: TableReg
    var ldtr: TableReg
    var tr: TableReg
    var pe: bool
    var cr3: u32
    var a20: bool
    var queue: seq<Interrupts.Vector>

    ghost predicate Valid()
      reads this
    {
      gp.Length == 8 && segs.Length == 6 && mem.Length < 0x1_0000_0000
    }

    ghost function View(): (s: State)
      reads this, gp, segs, mem
      requires Valid()
      ensures WellFormed(s)
    {
      State(gp[..], eip, eflags, segs[..], gdtr, idtr, ldtr, tr, pe, cr3, a20, mem[..])
    }

    constructor (size: u32, ip: u32, cs: u16)
      ensures Valid() && fresh(gp) && fresh(segs) && fresh(mem) && mem.Length == size
      ensures !View().pe && View().eip == ip && View().segs[CS].sel == cs && queue == []
    {
      gp := new u32[8](_ => 0);
      var code := SegCache(0xffff_0000, 0xffff, 0x8b, false, false, false);
      var data := SegCache(0, 0xffff, 0x83, false, false, false);
      segs := new Seg[6](i => if i == CS then Seg(cs, code) else Seg(0, data));
      mem := new byte[size](_ => 0);
      eip, eflags, pe, cr3, a20, queue := ip, 2, false, 0, false, [];
      gdtr, idtr, ldtr, tr := TableReg(0, 0, 0xffff), TableReg(0, 0, 0xffff), TableReg(0, 0, 0xffff), TableReg(0, 0, 0);
    }

    method SetSegment(seg: nat, sel: u16) returns (ok: bool)
      requires Valid() && seg < 6
      modifies segs
      ensures Valid()
      ensures ok == Cpu.SetSegment(old(View()), seg, sel).Some?
      ensures ok ==> View() == Cpu.SetSegment(old(View()), seg, sel).value
    {
      var cache := segs[seg].cache;
      if pe {
        var table := if Bit(sel, 2) then ldtr else gdtr;
        var index := sel / 8 * 8;
        if ((seg == CS || seg == SS) && index == 0) || index > table.limit {
          return false;
        }
        var p := Wrap32(table.base + index);
        if p + 8 > mem.Length {
          return false;
        }
        cache := ReadDescriptor(mem[..], p);
      } else {
        cache := cache.(base := sel * 16);
      }
      segs[seg] := Seg(sel, cache);
      ok := true;
    }

    method TransV2p(mode: AccessMode, seg: nat, vaddr: u32) returns (p: Option<int>)
      requires Valid() && seg < 6
      ensures p == Physical(View(), mode, seg, vaddr)
      ensures p.Some? ==> p.value >= 0
    {
      var address: u32;
      if pe {
        var cache, cpl := segs[seg].cache, Rpl(segs[CS].sel);
        var limit := LimitOf(cache);
        if !Allows(cache, mode, cpl) || vaddr > limit {
          return None;
        }
        var base := cache.base;
        if !Bit(cache.access, 3) && Bit(cache.access, 2) {
          base := Wrap32(base - limit);
        }
        address := Wrap32(base + vaddr);
      } else {
        address := Wrap32(segs[seg].sel * 16 + vaddr);
      }
      p := Some(if a20 then address else address % 0x10_0000);
    }

    method WriteMem(w: Width, p: int, v: u32)
      requires Valid() && 0 <= p
      modifies mem
      ensures Valid()
      ensures mem[..] == if InRam(old(mem[..]), p) then Put(old(mem[..]), p, w, v) else old(mem[..])
    {
      if p + 4 <= mem.Length {
        mem[p] := v % 0x100;
        mem[p + 1] := v % 0x1_0000 / 0x100;
        if w == 4 {
          mem[p + 2] := v / 0x1_0000 % 0x100;
          mem[p + 3] := v / 0x1_0000 / 0x100;
        }
      }
    }

    method Push(w: Width, v: u32) returns (ok: bool)
      requires Valid()
      modifies gp, mem
      ensures Valid()
      ensures ok == Cpu.Push(old(View()), w, v).Some?
      ensures ok ==> View() == Cpu.Push(old(View()), w, v).value
    {
      hide Put, Lowered, Top, Physical;
      gp[ESP] := Lowered(gp[ESP], w, w);
      assert View() == WithEsp(old(View()), Lowered(old(gp[ESP]), w, w));
      var address := TransV2p(Write, SS, Top(gp[ESP], w));
      if address.None? || Device(address.value) {
        return false;
      }
      WriteMem(w, address.value, v);
      ok := true;
    }

    method Pop(w: Width) returns (ok: bool, v: u32)
      requires Valid()
      modifies gp
      ensures Valid()
      ensures ok == Cpu.Pop(old(View()), w).Some?
      ensures ok ==> (View(), v) == Cpu.Pop(old(View()), w).value
    {
      hide Get, Lowered, Top, Physical;
      var address := TransV2p(Read, SS, Top(gp[ESP], w));
      if address.None? || Device(address.value) {
        return false, 0;
      }
      v := if InRam(mem[..], address.value) then Get(mem[..], address.value, w) else 0;
      gp[ESP] := Lowered(gp[ESP], w, -(w as int));
      ok := true;
    }

    /** Three pushes, the first value first. */
    method PushThree(w: Width, a: u32, b: u32, c: u32) returns (ok: bool)
      requires Valid()
      modifies gp, mem
      ensures Valid()
      ensures ok == PushAll(old(View()), w, [a, b, c]).Some?
      ensures ok ==> View() == PushAll(old(View()), w, [a, b, c]).value
    {
      hide Cpu.Push;
      ghost var s := View();
      PushAllThree(s, w, a, b, c);
      ok := Push(w, a);
      if ok {
        ok := Push(w, b);
        if ok {
          ok := Push(w, c);
        }
      }
    }

    /** The first half of save_regs on a change of ring: to the inner stack, and the outer
        one's SS and ESP onto it; `more` is what will be pushed after them. */
    method PushOuterStack(ghost more: seq<u32>) returns (ok: bool)
      requires Valid() && pe && |more| == 3
      modifies gp, segs, mem
      ensures Valid()
      ensures var u := Interrupts.Onto(old(View()), true);
              var vs := [old(segs[SS]).sel, old(gp[ESP])];
              && (ok <==> u.Some? && PushAll(u.value, 4, vs).Some?)
              && (ok ==> View() == PushAll(u.value, 4, vs).value)
              && (ok ==> PushAll(u.value, 4, vs + more) == PushAll(View(), 4, more))
              && (!ok ==> u.None? || PushAll(u.value, 4, vs + more).None?)
    {
      hide PushAll, Cpu.SetSegment, Word, Dword;
      ghost var s := View();
      if tr.limit < 103 || tr.base as int + 104 > mem.Length {
        return false;
      }
      var ss, esp := segs[SS].sel, gp[ESP];
      var ss0, esp0 := Word(mem[..], tr.base + 8), Dword(mem[..], tr.base + 4);
      ok := SetSegment(SS, ss0);
      if !ok {
        return;
      }
      gp[ESP] := esp0;
      ghost var u := View();
      assert u == WithEsp(Cpu.SetSegment(s, SS, ss0).value, esp0);
      PushAllAppend(u, 4, [ss, esp], more);
      PushAllTwo(u, 4, ss, esp);
      ok := Push(4, ss);
      if ok {
        ok := Push(4, esp);
      }
    }

    method SaveRegs(change: bool) returns (ok: bool)
      requires Valid()
      modifies gp, segs, mem
      ensures Valid()
      ensures ok == Interrupts.SaveRegs(old(View()), change).Some?
      ensures ok ==> View() == Interrupts.SaveRegs(old(View()), change).value
    {
      hide PushAll, Cpu.SetSegment, Word, Dword;
      ghost var s := View();
      if pe {
        var cs, flags, ip := segs[CS].sel, eflags, eip;
        if change {
          ok := PushOuterStack([flags, cs, ip]);
          if !ok {
            return;
          }
        }
        ok := PushThree(4, flags, cs, ip);
        assert [] + [flags, cs, ip] == [flags, cs, ip];
      } else {
        ok := PushThree(2, eflags % 0x1_0000, segs[CS].sel, eip % 0x1_0000);
      }
    }

    /** Takes the oldest queued interrupt, if there is one. */
    method HandleInterrupt() returns (ok: bool)
      requires Valid()
      modifies this`queue, this`eip, this`eflags, gp, segs, mem
      ensures Valid()
      ensures old(queue) == [] ==> ok && View() == old(View()) && queue == []
      ensures old(queue) != [] ==> queue == old(queue)[1..]
      ensures old(queue) != [] ==> ok == Interrupts.Deliver(old(View()), old(queue)[0]).Some?
      ensures old(queue) != [] && ok ==> View() == Interrupts.Deliver(old(View()), old(queue)[0]).value
    {
      hide Interrupts.SaveRegs, Cpu.SetSegment, Word, Bit, Dpl, WithLow;
      if queue == [] {
        return true;
      }
      var v := queue[0];
      queue := queue[1..];
      ghost var s := View();
      var g := Interrupts.Lookup(State(gp[..], eip, eflags, segs[..], gdtr, idtr, ldtr, tr, pe, cr3, a20, mem[..]), v);
      if g.None? {
        return false;
      }
      var gate := g.value;
      var cpl := Rpl(segs[CS].sel);
      if pe && (!gate.present || cpl < Rpl(gate.sel) || (!v.hard && cpl > gate.dpl)) {
        return false;
      }
      ok := SaveRegs(pe && cpl != Rpl(gate.sel));
      if !ok {
        return;
      }
      ok := SetSegment(CS, gate.sel);
      if !ok {
        return;
      }
      if pe {
        eip := gate.offset;
        eflags := Interrupts.FlagsInside(eflags, gate.kind == 6);
      } else {
        eip := WithLow(eip, Wrap16(gate.offset));
      }
    }

    method PopThree(w: Width) returns (ok: bool, a: u32, b: u32, c: u32)
      requires Valid()
      modifies gp
      ensures Valid()
      ensures ok == Interrupts.PopThree(old(View()), w).Some?
      ensures ok ==> Interrupts.PopThree(old(View()), w) == Some((View(), a, b, c))
    {
      hide Cpu.Pop;
      b, c := 0, 0;
      ok, a := Pop(w);
      if ok {
        ok, b := Pop(w);
        if ok {
          ok, c := Pop(w);
        }
      }
    }

    method Iret(override: bool) returns (ok: bool)
      requires Valid()
      modifies this, gp, segs, mem
      ensures Valid()
      ensures ok == Interrupts.Iret(old(View()), override).Some?
      ensures ok ==> View() == Interrupts.Iret(old(View()), override).value
    {
      hide Interrupts.PopThree, Cpu.SetSegment, Bit, WithLow, TaskSwitch.SwitchTask, Word, Cpu.Pop;
      var cpl := Rpl(segs[CS].sel);
      var ip, cs, flags;
      if segs[CS].cache.db != override {
        ok, ip, cs, flags := PopThree(4);
        if !ok {
          return;
        }
        eip, eflags := ip, flags;
        if Bit(flags, 14) {
          if tr.base as int + 104 > mem.Length {
            return false;
          }
          ok := SwitchTask(Word(mem[..], tr.base));
        } else if Rpl(Wrap16(cs)) > cpl {
          var esp, ss;
          ok, esp := Pop(4);
          if ok {
            ok, ss := Pop(4);
            if ok {
              gp[ESP] := esp;
              ok := SetSegment(SS, Wrap16(ss));
            }
          }
        }
      } else {
        ok, ip, cs, flags := PopThree(2);
        if ok {
          eip := WithLow(eip, Wrap16(ip));
          eflags := WithLow(eflags, Wrap16(flags));
        }
      }
      if ok {
        ok := SetSegment(CS, Wrap16(cs));
      }
    }

    method SetLdtr(sel: u16) returns (ok: bool)
      requires Valid()
      modifies this`ldtr
      ensures Valid()
      ensures ok == TaskSwitch.LoadLdtr(old(View()), sel).Some?
      ensures ok ==> ldtr == TaskSwitch.LoadLdtr(old(View()), sel).value
    {
      hide Word;
      var p := Wrap32(gdtr.base + sel);
      if sel > gdtr.limit || p + 8 > mem.Length {
        return false;
      }
      ldtr := TableReg(sel, TaskSwitch.SystemBase(mem[..], p), Word(mem[..], p));
      ok := true;
    }

    method SetTr(sel: u16) returns (ok: bool)
      requires Valid()
      modifies this`tr
      ensures Valid()
      ensures ok == TaskSwitch.LoadTr(old(View()), sel).Some?
      ensures ok ==> tr == TaskSwitch.LoadTr(old(View()), sel).value
    {
      hide Word;
      var p := Wrap32(gdtr.base + sel);
      if sel > gdtr.limit || p + 8 > mem.Length || mem[p + 5] % 8 != 1 {
        return false;
      }
      tr := TableReg(sel, TaskSwitch.SystemBase(mem[..], p), Word(mem[..], p));
      ok := true;
    }

    /** Copies a task state segment into memory, byte by byte. */
    method WriteData(base: nat, image: TaskSwitch.Tss)
      requires Valid() && base + 104 <= mem.Length
      modifies mem
      ensures Valid() && mem[..] == TaskSwitch.WriteTss(old(mem[..]), base, image)
    {
      hide TaskSwitch.ByteOf;
      var i := 0;
      while i < 104
        invariant 0 <= i <= 104
        invariant forall k :: 0 <= k < i ==> mem[base + k] == TaskSwitch.ByteOf(image[k / 4], k % 4)
        invariant forall q :: 0 <= q < mem.Length && !(base <= q < base + i) ==> mem[q] == old(mem[q])
      {
        mem[base + i] := TaskSwitch.ByteOf(image[i / 4], i % 4);
        i := i + 1;
      }
      ghost var want := TaskSwitch.WriteTss(old(mem[..]), base, image);
      forall q | 0 <= q < mem.Length ensures mem[q] == want[q] {
        if base <= q < base + 104 {
          assert mem[base + (q - base)] == TaskSwitch.ByteOf(image[(q - base) / 4], (q - base) % 4);
        }
      }
    }

    method SwitchTask(sel: u16) returns (ok: bool)
      requires Valid()
      modifies this, gp, segs, mem
      ensures Valid()
      ensures ok == TaskSwitch.SwitchTask(old(View()), sel).Some?
      ensures ok ==> View() == TaskSwitch.SwitchTask(old(View()), sel).value
    {
      hide TaskSwitch.WriteTss, TaskSwitch.ReadTss, TaskSwitch.SavedImage, TaskSwitch.LoadTr, TaskSwitch.Resume;
      var prev := tr.sel;
      if tr.limit < 103 || tr.base as int + 104 > mem.Length {
        return false;
      }
      var image := TaskSwitch.ReadTss(mem[..], tr.base);
      var running := State(gp[..], eip, eflags, segs[..], gdtr, idtr, ldtr, tr, pe, cr3, a20, mem[..]);
      WriteData(tr.base, TaskSwitch.SavedImage(running, image));
      assert View() == TaskSwitch.Save(old(View()));
      ok := SetTr(sel);
      if !ok {
        return;
      }
      if tr.limit < 103 || tr.base as int + 104 > mem.Length {
        return false;
      }
      ok := Resume(prev);
    }

    /** The second half of a task switch. */
    method Resume(prev: u16) returns (ok: bool)
      requires Valid() && TaskSwitch.TssUsable(View())
      modifies this, gp, segs, mem
      ensures Valid()
      ensures ok == TaskSwitch.Resume(old(View()), prev).Some?
      ensures ok ==> View() == TaskSwitch.Resume(old(View()), prev).value
    {
      hide TaskSwitch.ReadTss, TaskSwitch.LoadLdtr, Cpu.SetSegment;
      var image := TaskSwitch.ReadTss(mem[..], tr.base);
      mem[tr.base], mem[tr.base + 1] := prev % 0x100, prev / 0x100;
      assert mem[..] == PutWord(old(mem[..]), tr.base, prev);
      cr3, eip, eflags := image[7], image[8], image[9];
      forall i | 0 <= i < 8 {
        gp[i] := image[10 + i];
      }
      assert gp[..] == image[10..18];
      ghost var t := View();
      ghost var sels := TaskSwitch.Selectors(image);
      assert t == ResumeStart(old(View()), prev);
      ok := true;
      var i := 0;
      while i < 6
        invariant 0 <= i <= 6 && Valid()
        invariant ok && TaskSwitch.SetSegments(t, sels, i) == Some(View())
        modifies segs
      {
        ok := SetSegment(i, Wrap16(image[18 + i]));
        if !ok {
          SetSegmentsFail(t, sels, i + 1, 6);
          return;
        }
        i := i + 1;
      }
      ok := SetLdtr(Wrap16(image[24]));
    }
  }

  /** A task switch after the plain registers are loaded, before the segments. */
  ghost function ResumeStart(s: State, prev: u16): State
    requires WellFormed(s) && TaskSwitch.TssUsable(s)
  {
    var ws := TaskSwitch.ReadTss(s.mem, s.tr.base);
    s.(mem := PutWord(s.mem, s.tr.base, prev), cr3 := ws[7], eip := ws[8], eflags := ws[9], gp := ws[10..18])
  }

  lemma SetSegmentsFail(s: State, sels: seq<u16>, n: nat, m: nat)
    requires WellFormed(s) && |sels| == 6 && n <= m <= 6 && TaskSwitch.SetSegments(s, sels, n).None?
    ensures TaskSwitch.SetSegments(s, sels, m).None?
  {
  }

  lemma PushAllTwo(s: State, w: Width, a: u32, b: u32)
    requires WellFormed(s)
    ensures PushAll(s, w, [a, b]) == var t := Cpu.Push(s, w, a); if t.None? then None else Cpu.Push(t.value, w, b)
  {
    hide Cpu.Push;
    PushAllOne(s, w, a);
    assert [a, b][..1] == [a];
  }

  lemma PushAllThree(s: State, w: Width, a: u32, b: u32, c: u32)
    requires WellFormed(s)
    ensures PushAll(s, w, [a, b, c]) ==
            var t := Cpu.Push(s, w, a);
            if t.None? then None
            else
              var u := Cpu.Push(t.value, w, b);
              if u.None? then None else Cpu.Push(u.value, w, c)
  {
    hide Cpu.Push;
    PushAllTwo(s, w, a, b);
    assert [a, b, c][..2] == [a, b];
  }

  lemma PushAllOne(s: State, w: Width, a: u32)
    requires WellFormed(s)
    ensures PushAll(s, w, [a]) == Cpu.Push(s, w, a)
  {
    hide Cpu.Push;
    assert [a][..0] == [];
  }
}
