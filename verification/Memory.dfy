/** Physical memory as bytes, with little-endian words in it. */
module Memory {
  import opened Words

  type Ram = seq<byte>

  predicate Inside(mem: Ram, p: int, size: nat) {
    0 <= p && p + size <= |mem|
  }

  function Word(mem: Ram, p: int): u16
    requires Inside(mem, p, 2)
  {
    mem[p] as int + 0x100 * mem[p + 1] as int
  }

  function Dword(mem: Ram, p: int): u32
    requires Inside(mem, p, 4)
  {
    Word(mem, p) as int + 0x1_0000 * Word(mem, p + 2) as int
  }

  function PutWord(mem: Ram, p: int, v: u16): (r: Ram)
    requires Inside(mem, p, 2)
    ensures |r| == |mem|
  {
    mem[p := v % 0x100][p + 1 := v / 0x100]
  }

  function PutDword(mem: Ram, p: int, v: u32): (r: Ram)
    requires Inside(mem, p, 4)
    ensures |r| == |mem|
  {
    PutWord(PutWord(mem, p, v % 0x1_0000), p + 2, v / 0x1_0000)
  }

  /** Two memories hold the same bytes in a range. */
  ghost predicate SameRange(a: Ram, b: Ram, p: int, size: nat) {
    |a| == |b| && forall q :: p <= q < p + size && 0 <= q < |a| ==> a[q] == b[q]
  }

  /** Two memories hold the same bytes outside a range. */
  ghost predicate SameElsewhere(a: Ram, b: Ram, p: int, size: nat) {
    |a| == |b| && forall q :: 0 <= q < |a| && !(p <= q < p + size) ==> a[q] == b[q]
  }

  lemma PutWordGet(mem: Ram, p: int, v: u16)
    requires Inside(mem, p, 2)
    ensures Word(PutWord(mem, p, v), p) == v
    ensures SameElsewhere(PutWord(mem, p, v), mem, p, 2)
  {
  }

  lemma PutDwordGet(mem: Ram, p: int, v: u32)
    requires Inside(mem, p, 4)
    ensures Dword(PutDword(mem, p, v), p) == v
    ensures SameElsewhere(PutDword(mem, p, v), mem, p, 4)
  {
    var low := PutWord(mem, p, v % 0x1_0000);
    PutWordGet(mem, p, v % 0x1_0000);
    PutWordGet(low, p + 2, v / 0x1_0000);
    hide PutWord;
    WordSame(PutDword(mem, p, v), low, p);
  }

  lemma WordSame(a: Ram, b: Ram, p: int)
    requires Inside(a, p, 2) && SameRange(a, b, p, 2)
    ensures Word(a, p) == Word(b, p)
  {
  }

  lemma DwordSame(a: Ram, b: Ram, p: int)
    requires Inside(a, p, 4) && SameRange(a, b, p, 4)
    ensures Dword(a, p) == Dword(b, p)
  {
    WordSame(a, b, p);
    WordSame(a, b, p + 2);
  }
}
