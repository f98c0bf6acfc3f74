/** The adapter as an object with its planes in memory, proved against module Vga. */
module VgaUnits {
  import opened Words
  import opened Vga

  class DisplayAdapter {
    var setup: Setup
    const plane: array2<byte>

    ghost predicate Valid()
      reads this
    {
      plane.Length0 == 4 && plane.Length1 == 0x1_0000 && setup.ms < 4 && setup.mm < 4 && setup.wm < 4
    }

    ghost function PlaneAt(n: nat): (p: Plane)
      reads this, plane
      requires Valid() && n < 4
    {
      seq(0x1_0000, o requires 0 <= o < 0x1_0000 && Valid() && n < 4 reads this, plane => plane[n, o])
    }

    ghost function View(): (v: Adapter)
      reads this, plane
      requires Valid()
      ensures Vga.Valid(v) && v.setup == setup
      ensures forall n, o :: 0 <= n < 4 && 0 <= o < 0x1_0000 ==> v.planes[n][o] == plane[n, o]
    {
      Adapter(setup, [PlaneAt(0), PlaneAt(1), PlaneAt(2), PlaneAt(3)])
    }

    constructor (setup: Setup)
      requires setup.ms < 4 && setup.mm < 4 && setup.wm < 4
      ensures Valid() && this.setup == setup && fresh(plane)
    {
      this.setup := setup;
      plane := new byte[4, 0x1_0000]((_, _) => 0);
    }

    method GcWrite(n: nat, address: u32, b: byte) returns (alive: bool)
      requires Valid() && n < 4
      modifies plane
      ensures Valid()
      ensures alive == Vga.GcWrite(old(View()), n, address, b).Some?
      ensures alive ==> View() == Vga.GcWrite(old(View()), n, address, b).value
    {
      hide SyncOffset;
      var offset := SyncOffset(setup.mm, address);
      if offset.None? || setup.wm != 0 {
        return true;
      }
      var at := if setup.pairs then offset.value / 2 * 2 else offset.value;
      if at >= 0x1_0000 {
        return false;
      }
      ghost var before := View();
      plane[n, at] := b;
      SamePlanes(View(), before.(planes := before.planes[n := before.planes[n][at := b]]));
      alive := true;
    }

    method GcRead(address: u32) returns (alive: bool, b: byte)
      requires Valid()
      ensures alive == Vga.GcRead(View(), address).Some?
      ensures alive ==> b == Vga.GcRead(View(), address).value
    {
      hide SyncOffset;
      var offset := SyncOffset(setup.mm, address);
      if offset.None? || setup.wm != 0 {
        return true, 0;
      }
      var n, at := setup.ms as nat, offset.value;
      if setup.pairs {
        n, at := setup.ms / 2 * 2 + at % 2, at / 2 * 2;
      }
      if at >= 0x1_0000 {
        return false, 0;
      }
      return true, plane[n, at];
    }

    method MaskedWrite(n: nat, addr: u32, b: byte) returns (alive: bool)
      requires Valid() && n < 4
      modifies plane
      ensures Valid()
      ensures alive == Vga.MaskedWrite(old(View()), n, addr, b).Some?
      ensures alive ==> View() == Vga.MaskedWrite(old(View()), n, addr, b).value
    {
      hide Enabled, Vga.GcWrite;
      alive := true;
      if Enabled(setup.mask, n) {
        alive := GcWrite(n, addr, b);
      }
    }

    /** Routes a write to the planes: by the low address bits, all four, or the two of
        its parity. */
    method SeqWrite(address: u32, b: byte) returns (alive: bool)
      requires Valid()
      modifies plane
      ensures Valid()
      ensures alive == Vga.SeqWrite(old(View()), address, b).Some?
      ensures alive ==> View() == Vga.SeqWrite(old(View()), address, b).value
    {
      hide Vga.MaskedWrite;
      var addr := if setup.em then address else address % 0x1_0000;
      if setup.c4 {
        alive := MaskedWrite(addr % 4, addr / 4 * 4, b);
      } else if setup.oe {
        ghost var start := View();
        var i := 0;
        alive := true;
        while i < 4
          invariant 0 <= i <= 4 && Valid() && alive
          invariant PlanesWrite(start, 0, 1, 4, addr, b) == PlanesWrite(View(), i, 1, 4 - i, addr, b)
        {
          alive := MaskedWrite(i, addr, b);
          if !alive {
            return;
          }
          i := i + 1;
        }
      } else {
        alive := MaskedWrite(addr % 2, addr, b);
        if alive {
          alive := MaskedWrite(addr % 2 + 2, addr, b);
        }
        assert forall v: Adapter | Vga.Valid(v) :: PlanesWrite(v, addr % 2 + 4, 2, 0, addr, b) == Some(v);
      }
    }

    method WriteByte(addr: u32, b: byte) returns (alive: bool)
      requires Valid()
      modifies plane
      ensures Valid()
      ensures alive == Vga.WriteByte(old(View()), addr, b).Some?
      ensures alive ==> View() == Vga.WriteByte(old(View()), addr, b).value
    {
      hide Vga.SeqWrite;
      alive := true;
      if setup.er {
        alive := SeqWrite(addr, b);
      }
    }

    method ReadByte(addr: u32) returns (alive: bool, b: byte)
      requires Valid()
      ensures alive == Vga.ReadByte(View(), addr).Some?
      ensures alive ==> b == Vga.ReadByte(View(), addr).value
    {
      hide Vga.GcRead;
      if !setup.er {
        return true, 0;
      }
      alive, b := GcRead(if setup.em then addr else addr % 0x1_0000);
    }
  }

  lemma SamePlanes(v: Adapter, w: Adapter)
    requires Vga.Valid(v) && Vga.Valid(w) && v.setup == w.setup
    requires forall n, o :: 0 <= n < 4 && 0 <= o < 0x1_0000 ==> v.planes[n][o] == w.planes[n][o]
    ensures v == w
  {
    forall n | 0 <= n < 4 ensures v.planes[n] == w.planes[n] {
    }
  }
}
