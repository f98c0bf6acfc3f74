/** The decoder as it works: one instruction record filled in step by step while the
    instruction pointer moves on, proved against module Decoder. */
module DecoderUnits {
  import opened Words
  import opened Decoder
  import Cpu

  class Decoding {
    const code: seq<byte>
    const db: bool
    var eip: nat
    var instr: Instr

    constructor (code: seq<byte>, db: bool)
      ensures this.code == code && this.db == db && eip == 0 && instr == EMPTY
    {
      this.code, this.db, eip, instr := code, db, 0, EMPTY;
    }

    method Prefixes() returns (ok: bool)
      modifies this
      ensures ok == DecodePrefixes(code, old(eip), old(instr)).Some?
      ensures ok ==> (instr, eip) == DecodePrefixes(code, old(eip), old(instr)).value
    {
      hide Prefixed, IsPrefix;
      while eip < |code|
        invariant DecodePrefixes(code, old(eip), old(instr)) == DecodePrefixes(code, eip, instr)
        decreases |code| - eip
      {
        var b := code[eip];
        if !IsPrefix(b) {
          return true;
        }
        TakePrefix(b);
        eip := eip + 1;
      }
      ok := false;
    }

    method TakePrefix(b: byte)
      modifies this`instr
      ensures instr == Prefixed(old(instr), b)
    {
      match b
      case 0x26 => instr := instr.(segment := Some(Cpu.ES));
      case 0x2e =>
        instr := instr.(segment := Some(Cpu.CS));
        instr := instr.(segment := Some(Cpu.SS));
      case 0x36 => instr := instr.(segment := Some(Cpu.SS));
      case 0x3e => instr := instr.(segment := Some(Cpu.DS));
      case 0x64 => instr := instr.(segment := Some(Cpu.FS));
      case 0x65 => instr := instr.(segment := Some(Cpu.GS));
      case 0x66 => instr := instr.(operand := true);
      case 0x67 => instr := instr.(address := true);
      case 0xf2 => instr := instr.(rep := RepNZ);
      case 0xf3 => instr := instr.(rep := RepZ);
      case 0xf0 => instr := instr.(lock := true);
      case _ =>
    }

    method Opcode() returns (ok: bool)
      modifies this
      ensures ok == DecodeOpcode(code, old(eip), old(instr)).Some?
      ensures ok ==> (instr, eip) == DecodeOpcode(code, old(eip), old(instr)).value
    {
      if eip >= |code| {
        return false;
      }
      var opcode := code[eip];
      eip := eip + 1;
      if opcode != 0x0f {
        instr := instr.(opcode := opcode);
      } else {
        if eip >= |code| {
          return false;
        }
        instr := instr.(opcode := 0x0f00 + code[eip] as int);
        eip := eip + 1;
      }
      ok := true;
    }

    method ModrmSibDisp() returns (ok: bool)
      modifies this
      ensures ok == DecodeModrm(code, old(eip), db, old(instr)).Some?
      ensures ok ==> (instr, eip) == DecodeModrm(code, old(eip), db, old(instr)).value
    {
      hide DecodeDisp;
      if eip >= |code| {
        return false;
      }
      instr := instr.(modrm := code[eip]);
      eip := eip + 1;
      var mod, rm := Mod(instr.modrm), Rm(instr.modrm);
      if (db != instr.operand) != (instr.operand != instr.address) {
        if mod != 3 && rm == 4 {
          if eip >= |code| {
            return false;
          }
          instr := instr.(sib := code[eip]);
          eip := eip + 1;
        }
        ok := DisplacementOf(true);
      } else {
        ok := DisplacementOf(false);
      }
    }

    method DisplacementOf(wide: bool) returns (ok: bool)
      modifies this
      ensures ok == DecodeDisp(code, old(eip), wide, old(instr)).Some?
      ensures ok ==> (instr, eip) == DecodeDisp(code, old(eip), wide, old(instr)).value
    {
      hide Value;
      var mod, rm := Mod(instr.modrm), Rm(instr.modrm);
      if wide {
        if mod == 2 || (mod == 0 && rm == 5) || (mod == 0 && Base(instr.sib) == 5) {
          ok := Displacement(4, 4);
        } else if mod == 1 {
          ok := Displacement(1, 1);
        } else {
          ok := eip <= |code|;
        }
      } else {
        if (mod == 0 && rm == 6) || mod == 2 {
          ok := Displacement(2, 4);
        } else if mod == 1 {
          ok := Displacement(1, 1);
        } else {
          ok := eip <= |code|;
        }
      }
    }

    /** n bytes of displacement, of a read of `need` bytes. */
    method Displacement(n: nat, need: nat) returns (ok: bool)
      requires 0 < n <= need <= 4
      modifies this
      ensures ok == Field(code, old(eip), n, need).Some?
      ensures ok ==> instr == old(instr).(disp := Value(Field(code, old(eip), n, need).value)) && eip == old(eip) + n
    {
      hide Value;
      ok := eip + need <= |code|;
      if ok {
        instr := instr.(disp := Value(code[eip..eip + n]));
        eip := eip + n;
      }
    }

    method Tail(shape: Shape) returns (ok: bool)
      modifies this
      ensures ok == DecodeTail(code, old(eip), db, shape, old(instr)).Some?
      ensures ok ==> (instr, eip) == DecodeTail(code, old(eip), db, shape, old(instr)).value
    {
      hide Value, Address32, ImmSize, Field;
      var bytes;
      var n := ImmSize(shape);
      ok, bytes := Take(n);
      if !ok {
        return;
      }
      if n > 0 {
        instr := instr.(imm := Value(bytes));
      }
      ok, bytes := Take(if shape.ptr then 2 else 0);
      if !ok {
        return;
      }
      if shape.ptr {
        instr := instr.(ptr := Value(bytes));
      }
      AddressSame(db, old(instr), instr);
      ok, bytes := Take(if shape.moffs then MoffsSize(db, instr) else 0);
      if ok && shape.moffs {
        instr := instr.(moffs := Value(bytes));
      }
    }

    /** The next n bytes. */
    method Take(n: nat) returns (ok: bool, bytes: seq<byte>)
      modifies this`eip
      ensures ok == Field(code, old(eip), n, n).Some?
      ensures ok ==> bytes == Field(code, old(eip), n, n).value && |bytes| == n && eip == old(eip) + n
    {
      ok := eip + n <= |code|;
      if ok {
        bytes := code[eip..eip + n];
        eip := eip + n;
      } else {
        bytes := [];
      }
    }

    method DecodeAll(table: Table) returns (ok: bool)
      requires eip == 0 && instr == EMPTY
      modifies this
      ensures ok == Decode(code, db, table).Some?
      ensures ok ==> (instr, eip) == Decode(code, db, table).value
    {
      hide DecodePrefixes, DecodeOpcode, DecodeModrm, DecodeTail, ShapeOf;
      ok := Prefixes();
      if ok {
        ok := Opcode();
        if ok {
          var shape := ShapeOf(table, db, instr);
          if shape.None? {
            return false;
          }
          if shape.value.modrm {
            ok := ModrmSibDisp();
          }
          if ok {
            ok := Tail(shape.value);
          }
        }
      }
    }
  }

  lemma AddressSame(db: bool, i: Instr, j: Instr)
    requires j.operand == i.operand && j.address == i.address
    ensures Address32(db, j) == Address32(db, i)
  {
  }
}
