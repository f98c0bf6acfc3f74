/** The encoding of instructions spelled out: which bytes there are, from the opcode's
    flags, the mode and the prefixes alone, and what number each field is. */
module DecoderFields {
  import opened Words
  import opened Decoder
  import opened Addressing
  import Cpu

  // ------------------------------------------------------------- prefixes

  /** The bytes that may come before an opcode. */
  lemma PrefixBytes(b: byte)
    ensures IsPrefix(b) <==>
              || b == 0x26 || b == 0x2e || b == 0x36 || b == 0x3e || b == 0x64 || b == 0x65 // segments
              || b == 0x66 || b == 0x67                                                     // sizes
              || b == 0xf0 || b == 0xf2 || b == 0xf3                                        // lock and repeat
  {
  }

  lemma {:induction false} OperandPrefix(prefixes: seq<byte>)
    ensures AllPrefixed(EMPTY, prefixes).operand <==> 0x66 in prefixes
    ensures AllPrefixed(EMPTY, prefixes).lock <==> 0xf0 in prefixes
  {
    if prefixes != [] {
      var n := |prefixes| - 1;
      OperandPrefix(prefixes[..n]);
      assert prefixes == prefixes[..n] + [prefixes[n]];
    }
  }

  /** The last segment prefix decides, whatever other prefixes follow it: ES is 0, SS 2 (for
      CS as well), DS 3, FS 4 and GS 5. */
  lemma {:induction false} LastSegment(before: seq<byte>, b: byte, others: seq<byte>)
    requires b == 0x26 || b == 0x2e || b == 0x36 || b == 0x3e || b == 0x64 || b == 0x65
    requires forall k :: 0 <= k < |others| ==> others[k] == 0x66 || others[k] == 0x67 || others[k] >= 0xf0
    ensures AllPrefixed(EMPTY, before + [b] + others).segment
            == Some(if b == 0x26 then 0 else if b == 0x3e then 3 else if b == 0x64 then 4
                    else if b == 0x65 then 5 else 2)
    decreases |others|
  {
    var all := before + [b] + others;
    var n := |all| - 1;
    if others == [] {
      assert all[..n] == before && all[n] == b;
    } else {
      assert all[..n] == before + [b] + others[..|others| - 1] && all[n] == others[|others| - 1];
      LastSegment(before, b, others[..|others| - 1]);
    }
  }

  lemma {:induction false} NoSegment(prefixes: seq<byte>)
    requires forall k :: 0 <= k < |prefixes| ==> prefixes[k] == 0x66 || prefixes[k] == 0x67 || prefixes[k] >= 0xf0
    ensures AllPrefixed(EMPTY, prefixes).segment == None
  {
    if prefixes != [] {
      NoSegment(prefixes[..|prefixes| - 1]);
    }
  }

  /** The last repeat prefix decides: 0xf3 repeats while equal, 0xf2 while not. */
  lemma {:induction false} LastRepeat(before: seq<byte>, b: byte, others: seq<byte>)
    requires b == 0xf2 || b == 0xf3
    requires forall k :: 0 <= k < |others| ==> others[k] != 0xf2 && others[k] != 0xf3
    ensures AllPrefixed(EMPTY, before + [b] + others).rep == if b == 0xf3 then RepZ else RepNZ
    decreases |others|
  {
    var all := before + [b] + others;
    var n := |all| - 1;
    if others == [] {
      assert all[..n] == before && all[n] == b;
    } else {
      assert all[..n] == before + [b] + others[..|others| - 1] && all[n] == others[|others| - 1];
      LastRepeat(before, b, others[..|others| - 1]);
    }
  }

  lemma {:induction false} NoRepeat(prefixes: seq<byte>)
    requires forall k :: 0 <= k < |prefixes| ==> prefixes[k] != 0xf2 && prefixes[k] != 0xf3
    ensures AllPrefixed(EMPTY, prefixes).rep == None_
  {
    if prefixes != [] {
      NoRepeat(prefixes[..|prefixes| - 1]);
    }
  }

  // ------------------------------------------------------------- the fields of ModRM and SIB

  /** ModRM is two bits of mode, three of register and three of memory form; SIB two of
      scale, three of index and three of base. */
  lemma ModrmParts(a: nat, b: nat, c: nat)
    requires a < 4 && b < 8 && c < 8
    ensures var x := 0x40 * a + 8 * b + c;
            && Mod(x) == a && Rm(x) == c && Base(x) == c && Index(x) == b
            && Scale(x) == if a == 0 then 1 else if a == 1 then 2 else if a == 2 then 4 else 8
  {
    var x := 0x40 * a + 8 * b + c;
    Eighths(8 * a + b, c);
    Eighths(a, b);
    assert x / 8 == 8 * a + b;
    Sixteen4(a, 8 * b + c);
  }

  lemma Eighths(h: nat, low: nat)
    requires low < 8
    ensures (8 * h + low) / 8 == h && (8 * h + low) % 8 == low
  {
  }

  lemma Sixteen4(h: nat, low: nat)
    requires low < 0x40
    ensures (0x40 * h + low) / 0x40 == h
  {
  }

  // ------------------------------------------------------------- the encoding, spelled out

  /** The number of an opcode: its one byte, or 0x0f00 and its second byte. */
  function Number(opcode: seq<byte>): u16
    requires |opcode| == 1 || |opcode| == 2
  {
    if |opcode| == 1 then opcode[0] else 0x0f00 + opcode[1] as int
  }

  /** The flags of an opcode: common ones first, then those of the operand size, which is
      the mode's unless the prefix 0x66 turns it. */
  function Flags(table: Table, db: bool, prefixes: seq<byte>, number: u16): Option<Shape> {
    if number in table.common then Some(table.common[number])
    else if db != (0x66 in prefixes) then
      if number in table.mode32 then Some(table.mode32[number]) else None
    else if number in table.mode16 then Some(table.mode16[number])
    else None
  }

  /** Which bytes an encoding has.  The address size is the mode's unless the prefix 0x67
      turns it.  With 32-bit addresses a memory form 4 has a SIB byte; the displacement has
      four bytes in mode 2, in mode 0 with form 5, and in mode 0 with SIB base 5, and one
      byte in mode 1.  With 16-bit addresses it has two bytes in mode 2 and in mode 0 with
      form 6, and one in mode 1.  The immediate has the bytes of its flag; a far selector
      has two; a memory offset has the bytes of the address size. */
  ghost predicate Spelled(e: Encoding, db: bool, table: Table) {
    && (forall b :: b in e.prefixes ==> IsPrefix(b))
    && (|e.opcode| == 1 || |e.opcode| == 2)
    && (if |e.opcode| == 1 then !IsPrefix(e.opcode[0]) && e.opcode[0] != 0x0f else e.opcode[0] == 0x0f)
    && Flags(table, db, e.prefixes, Number(e.opcode)).Some?
    && var f := Flags(table, db, e.prefixes, Number(e.opcode)).value;
       var wide := db != (0x67 in e.prefixes);
       && |e.modrm| == (if f.modrm then 1 else 0)
       && (!f.modrm ==> e.sib == [] && e.disp == [])
       && (f.modrm ==> SpelledMemory(e.modrm[0], e.sib, e.disp, wide))
       && |e.imm| == (if f.imm32 then 4 else if f.imm16 then 2 else if f.imm8 then 1 else 0)
       && |e.ptr| == (if f.ptr then 2 else 0)
       && |e.moffs| == (if !f.moffs then 0 else if wide then 4 else 2)
  }

  predicate SpelledMemory(modrm: byte, sib: seq<byte>, disp: seq<byte>, wide: bool) {
    var mode, form := modrm as int / 0x40, modrm as int % 8;
    if wide then
      && |sib| == (if mode != 3 && form == 4 then 1 else 0)
      && |disp| == (if mode == 2 || (mode == 0 && (form == 5 || (form == 4 && sib[0] as int % 8 == 5))) then 4
                    else if mode == 1 then 1 else 0)
    else
      && sib == []
      && |disp| == (if mode == 2 || (mode == 0 && form == 6) then 2 else if mode == 1 then 1 else 0)
  }

  /** Bytes as a number, lowest first. */
  function Le(bytes: seq<byte>): nat
    requires |bytes| in {0, 1, 2, 4}
  {
    if |bytes| == 0 then 0
    else if |bytes| == 1 then bytes[0]
    else if |bytes| == 2 then bytes[0] as int + 0x100 * bytes[1] as int
    else bytes[0] as int + 0x100 * bytes[1] as int + 0x1_0000 * bytes[2] as int + 0x100_0000 * bytes[3] as int
  }

  lemma LeIsValue(bytes: seq<byte>)
    requires |bytes| in {0, 1, 2, 4}
    ensures Value(bytes) == Le(bytes)
  {
  }

  lemma MemoryIff(modrm: byte, sib: seq<byte>, disp: seq<byte>, wide: bool)
    ensures SpelledMemory(modrm, sib, disp, wide) <==>
              |sib| == (if HasSib(wide, modrm) then 1 else 0) && |disp| == DispSize(wide, modrm, Only(sib))
  {
  }

  lemma HeadFlags(e: Encoding, db: bool, table: Table)
    requires 1 <= |e.opcode| <= 2
    ensures ShapeOf(table, db, Head(e)) == Flags(table, db, e.prefixes, Number(e.opcode))
    ensures Address32(db, Head(e)) <==> db != (0x67 in e.prefixes)
  {
    OperandPrefix(e.prefixes);
    AddressPrefix(e.prefixes);
    hide AllPrefixed;
  }

  /** The grammar is what is spelled out. */
  lemma SpelledIsLegal(e: Encoding, db: bool, table: Table)
    ensures Spelled(e, db, table) <==> Legal(e, db, table)
  {
    if 1 <= |e.opcode| <= 2 {
      HeadFlags(e, db, table);
      hide IsPrefix, AllPrefixed, Head, ShapeOf, Flags, SpelledMemory, HasSib, DispSize, Address32;
      if Flags(table, db, e.prefixes, Number(e.opcode)).Some?
         && Flags(table, db, e.prefixes, Number(e.opcode)).value.modrm && |e.modrm| == 1 {
        MemoryIff(e.modrm[0], e.sib, e.disp, db != (0x67 in e.prefixes));
      }
      SameTail(e, db, table);
    }
  }

  lemma SameTail(e: Encoding, db: bool, table: Table)
    requires 1 <= |e.opcode| <= 2
    ensures MoffsSize(db, Head(e)) == if db != (0x67 in e.prefixes) then 4 else 2
    ensures forall f: Shape :: ImmSize(f) == if f.imm32 then 4 else if f.imm16 then 2 else if f.imm8 then 1 else 0
  {
    HeadFlags(e, db, table);
    hide Address32, Head;
  }

  /** Every byte string that begins with an encoding as spelled out is read as that: its
      length, and each field as the number its bytes are, whatever follows.  (A 16-bit
      displacement must be followed by two bytes.) */
  lemma ReadsFields(code: seq<byte>, e: Encoding, db: bool, table: Table, rest: seq<byte>)
    requires Spelled(e, db, table)
    requires code == e.prefixes + e.opcode + e.modrm + e.sib + e.disp + e.imm + e.ptr + e.moffs + rest
    requires |e.disp| == 2 ==> |e.imm| + |e.ptr| + |e.moffs| + |rest| >= 2
    ensures Decode(code, db, table).Some?
    ensures var (i, n) := Decode(code, db, table).value;
            && n + |rest| == |code|
            && i.opcode == Number(e.opcode)
            && i.modrm == Only(e.modrm) && i.sib == Only(e.sib) && |e.disp| in {0, 1, 2, 4} && i.disp == Le(e.disp)
            && |e.imm| in {0, 1, 2, 4} && i.imm == Le(e.imm)
            && |e.ptr| in {0, 2} && i.ptr == Le(e.ptr) && |e.moffs| in {0, 2, 4} && i.moffs == Le(e.moffs)
  {
    SpelledIsLegal(e, db, table);
    SpelledSizes(e, db, table);
    assert code[0..|Bytes(e)|] == Bytes(e) by { BytesFirst(code, e, rest); }
    BytesLength(e);
    hide Spelled, Legal, Decode, Bytes, AllPrefixed, Value, Le;
    DecodeEncoded(code, e, db, table);
    LeIsValue(e.disp);
    LeIsValue(e.imm);
    LeIsValue(e.ptr);
    LeIsValue(e.moffs);
  }

  lemma BytesFirst(code: seq<byte>, e: Encoding, rest: seq<byte>)
    requires code == e.prefixes + e.opcode + e.modrm + e.sib + e.disp + e.imm + e.ptr + e.moffs + rest
    ensures code[0..|Bytes(e)|] == Bytes(e)
  {
    assert code == Bytes(e) + rest;
  }

  lemma SpelledSizes(e: Encoding, db: bool, table: Table)
    requires Spelled(e, db, table)
    ensures |e.disp| in {0, 1, 2, 4} && |e.imm| in {0, 1, 2, 4} && |e.ptr| in {0, 2} && |e.moffs| in {0, 2, 4}
    ensures 1 <= |e.opcode| <= 2
  {
    hide IsPrefix, Flags;
  }

  /** And every instruction that is read is such an encoding. */
  lemma ReadIsSpelled(code: seq<byte>, db: bool, table: Table) returns (e: Encoding, rest: seq<byte>)
    requires Decode(code, db, table).Some?
    ensures Spelled(e, db, table)
    ensures code == e.prefixes + e.opcode + e.modrm + e.sib + e.disp + e.imm + e.ptr + e.moffs + rest
    ensures |rest| == |code| - Decode(code, db, table).value.1
  {
    e := DecodedIsEncoded(code, db, table);
    SpelledIsLegal(e, db, table);
    rest := code[|Bytes(e)|..];
    assert code == code[0..|Bytes(e)|] + rest;
    BytesFlat(e);
    hide Spelled, Legal, Decode, Bytes;
  }

  lemma BytesFlat(e: Encoding)
    ensures Bytes(e) == e.prefixes + e.opcode + e.modrm + e.sib + e.disp + e.imm + e.ptr + e.moffs
  {
  }
}
