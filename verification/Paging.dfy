/** Two-level address translation in front of a cache of page table entries that is
    never flushed. */
module Paging {
  import opened Words
  import opened Memory
  import Arithmetic

  datatype Mode = Read | Write | Exec

  /** A translated address; a page fault, with the address left in CR2; a general
      protection fault; or a table entry outside the memory, which ends the process. */
  datatype Outcome = Physical(paddr: int) | PageFault(cr2: u32) | ProtectionFault | OutOfMemory

  function Entry(mem: Ram, p: int): Option<u32> {
    if Inside(mem, p, 4) then Some(Dword(mem, p)) else None
  }

  // the bits of a directory or table entry
  predicate Present(e: u32) { e % 2 == 1 }
  predicate Writable(e: u32) { e / 2 % 2 == 1 }
  predicate User(e: u32) { e / 4 % 2 == 1 }

  function Frame(e: u32): int {
    e / 0x1000 * 0x1000
  }

  /** What an entry, of either level, lets through. */
  predicate Permits(e: u32, mode: Mode, cpl: nat) {
    Present(e) && (mode.Write? ==> Writable(e)) && (cpl > 2 ==> User(e))
  }

  function Vpn(addr: u32): nat {
    addr / 0x1000
  }

  function PdeAddress(cr3: u32, vpn: nat): int {
    Frame(cr3) + vpn / 0x400 * 4
  }

  function PteAddress(pde: u32, vpn: nat): int {
    Frame(pde) + vpn % 0x400 * 4
  }

  /** The last step, for a page table entry found either way. */
  function Check(pte: u32, mode: Mode, cpl: nat, addr: u32): Outcome {
    if Permits(pte, mode, cpl) then Physical(Frame(pte) + addr % 0x1000) else PageFault(addr)
  }

  /** Translation as the tables have it: both levels looked up and checked. */
  function Walk(mem: Ram, cr3: u32, mode: Mode, cpl: nat, addr: u32): Outcome {
    match Entry(mem, PdeAddress(cr3, Vpn(addr)))
    case None => OutOfMemory
    case Some(pde) =>
      if !Permits(pde, mode, cpl) then PageFault(addr)
      else match Entry(mem, PteAddress(pde, Vpn(addr)))
           case None => OutOfMemory
           case Some(pte) => Check(pte, mode, cpl, addr)
  }

  // ------------------------------------------------------------- the cached translation

  type Cache = seq<Option<u32>>

  function Lookup(cache: Cache, vpn: nat): Option<u32> {
    if vpn < |cache| then cache[vpn] else None
  }

  function Fill(cache: Cache, vpn: nat, pte: u32): (r: Cache)
    ensures Lookup(r, vpn) == Some(pte)
    ensures forall v: nat {:trigger Lookup(r, v)} :: v != vpn ==> Lookup(r, v) == Lookup(cache, v)
  {
    var grown := if vpn < |cache| then cache else cache + seq(vpn + 1 - |cache|, _ => None);
    grown[vpn := Some(pte)]
  }

  /** The entry the translation will check: cached, or read under a permitting
      directory entry. */
  function FindPte(cache: Cache, mem: Ram, cr3: u32, mode: Mode, cpl: nat, addr: u32): (Cache, Option<u32>, Outcome) {
    match Lookup(cache, Vpn(addr))
    case Some(pte) => (cache, Some(pte), OutOfMemory)
    case None =>
      match Entry(mem, PdeAddress(cr3, Vpn(addr)))
      case None => (cache, None, OutOfMemory)
      case Some(pde) =>
        if !Permits(pde, mode, cpl) then (cache, None, PageFault(addr))
        else match Entry(mem, PteAddress(pde, Vpn(addr)))
             case None => (cache, None, OutOfMemory)
             case Some(pte) => (Fill(cache, Vpn(addr), pte), Some(pte), OutOfMemory)
  }

  function Translate(cache: Cache, mem: Ram, cr3: u32, mode: Mode, cpl: nat, addr: u32): (Cache, Outcome) {
    var (after, pte, failure) := FindPte(cache, mem, cr3, mode, cpl, addr);
    (after, if pte.Some? then Check(pte.value, mode, cpl, addr) else failure)
  }

  // ------------------------------------------------------------- the tables on bytes

  /** The four bytes at a place, lowest first. */
  function Bytes(mem: Ram, p: int): nat
    requires Inside(mem, p, 4)
  {
    mem[p] as int + 0x100 * mem[p + 1] as int + 0x1_0000 * mem[p + 2] as int + 0x100_0000 * mem[p + 3] as int
  }

  /** An entry of either level: frame number, nine bits that do not matter here, user,
      writable, present. */
  function EntryOf(frame: nat, rest: nat, user: bool, writable: bool, present: bool): nat {
    0x1000 * frame + 8 * rest + (if user then 4 else 0) + (if writable then 2 else 0) + (if present then 1 else 0)
  }

  /** Who may use an entry. */
  predicate Lets(user: bool, writable: bool, present: bool, mode: Mode, cpl: nat) {
    present && (mode == Write ==> writable) && (cpl >= 3 ==> user)
  }

  lemma EntryParts(e: u32, frame: nat, rest: nat, user: bool, writable: bool, present: bool, mode: Mode, cpl: nat)
    requires e == EntryOf(frame, rest, user, writable, present) && rest < 0x200
    ensures Frame(e) == 0x1000 * frame
    ensures Permits(e, mode, cpl) == Lets(user, writable, present, mode, cpl)
  {
    EntrySums(frame, rest, if user then 1 else 0, if writable then 1 else 0, if present then 1 else 0);
  }

  lemma EntrySums(frame: nat, rest: nat, u: nat, w: nat, p: nat)
    requires rest < 0x200 && u < 2 && w < 2 && p < 2
    ensures var e := 0x1000 * frame + 8 * rest + 4 * u + 2 * w + p;
            e / 0x1000 == frame && e / 4 % 2 == u && e / 2 % 2 == w && e % 2 == p
  {
    Arithmetic.Digits(0x200 * frame + rest, u, w, p);
    FrameNumber(frame, 8 * rest + 4 * u + 2 * w + p);
  }

  lemma FrameNumber(frame: nat, low: nat)
    requires low < 0x1000
    ensures (0x1000 * frame + low) / 0x1000 == frame
  {
  }

  lemma EntryOnBytes(mem: Ram, p: int)
    requires Inside(mem, p, 4)
    ensures Entry(mem, p) == Some(Bytes(mem, p))
  {
  }

  lemma AddressParts(cr3: u32, c: nat, x: nat, d: nat, t: nat, o: nat)
    requires cr3 == 0x1000 * c + x && x < 0x1000 && c < 0x10_0000
    requires d < 0x400 && t < 0x400 && o < 0x1000
    ensures var addr := 0x40_0000 * d + 0x1000 * t + o;
            && addr < 0x1_0000_0000 && addr % 0x1000 == o && Vpn(addr) == 0x400 * d + t
            && PdeAddress(cr3, Vpn(addr)) == 0x1000 * c + 4 * d
            && forall m: nat, e: u32 {:trigger PteAddress(e, Vpn(addr)), 0x1000 * m} ::
                 Frame(e) == 0x1000 * m ==> PteAddress(e, Vpn(addr)) == 0x1000 * m + 4 * t
  {
    var addr := 0x40_0000 * d + 0x1000 * t + o;
    assert addr / 0x1000 == 0x400 * d + t;
    assert (0x400 * d + t) / 0x400 == d && (0x400 * d + t) % 0x400 == t;
    assert cr3 / 0x1000 == c;
    hide Frame;
    assert Frame(cr3) == 0x1000 * c by { FrameOf(cr3, c); }
  }

  lemma FrameOf(cr3: u32, c: nat)
    requires cr3 / 0x1000 == c
    ensures Frame(cr3) == 0x1000 * c
  {
  }

  /** The walk, on bytes: the upper ten bits of the address index the directory, whose
      number is that of CR3; the next ten the table that the directory entry names; and the
      lower twelve the frame that the table entry names.  Either entry may deny the access. */
  lemma WalkOnBytes(mem: Ram, cr3: u32, c: nat, x: nat, d: nat, t: nat, o: nat, mode: Mode, cpl: nat,
                    m: nat, rest1: nat, user1: bool, writable1: bool, present1: bool)
    requires cr3 == 0x1000 * c + x && x < 0x1000 && c < 0x10_0000 && d < 0x400 && t < 0x400 && o < 0x1000
    requires rest1 < 0x200 && Inside(mem, 0x1000 * c + 4 * d, 4)
    requires Bytes(mem, 0x1000 * c + 4 * d) == EntryOf(m, rest1, user1, writable1, present1)
    ensures var addr := 0x40_0000 * d + 0x1000 * t + o;
            && (!Lets(user1, writable1, present1, mode, cpl) ==> Walk(mem, cr3, mode, cpl, addr) == PageFault(addr))
            && (Lets(user1, writable1, present1, mode, cpl) ==>
                  if !Inside(mem, 0x1000 * m + 4 * t, 4) then Walk(mem, cr3, mode, cpl, addr) == OutOfMemory
                  else
                    forall n: nat, rest: nat, user: bool, writable: bool, present: bool ::
                      rest < 0x200 && Bytes(mem, 0x1000 * m + 4 * t) == EntryOf(n, rest, user, writable, present) ==>
                        Walk(mem, cr3, mode, cpl, addr)
                        == if Lets(user, writable, present, mode, cpl) then Physical(0x1000 * n + o)
                           else PageFault(addr))
  {
    var addr := 0x40_0000 * d + 0x1000 * t + o;
    AddressParts(cr3, c, x, d, t, o);
    EntryOnBytes(mem, 0x1000 * c + 4 * d);
    var pde: u32 := Bytes(mem, 0x1000 * c + 4 * d);
    EntryParts(pde, m, rest1, user1, writable1, present1, mode, cpl);
    hide Entry, Permits, Frame, PdeAddress, PteAddress, Vpn, Lets;
    assert PteAddress(pde, Vpn(addr)) == 0x1000 * m + 4 * t;
    if Inside(mem, 0x1000 * m + 4 * t, 4) {
      EntryOnBytes(mem, 0x1000 * m + 4 * t);
      var pte: u32 := Bytes(mem, 0x1000 * m + 4 * t);
      forall n: nat, rest: nat, user: bool, writable: bool, present: bool |
        rest < 0x200 && Bytes(mem, 0x1000 * m + 4 * t) == EntryOf(n, rest, user, writable, present)
        ensures Frame(pte) == 0x1000 * n && Permits(pte, mode, cpl) == Lets(user, writable, present, mode, cpl)
      {
        EntryParts(pte, n, rest, user, writable, present, mode, cpl);
      }
      hide Bytes, EntryOf;
    } else {
      NoEntry(mem, 0x1000 * m + 4 * t);
    }
  }

  lemma NoEntry(mem: Ram, p: int)
    requires !Inside(mem, p, 4)
    ensures Entry(mem, p).None?
  {
  }

  // ------------------------------------------------------------- coherence

  /** A cached entry is the one the walk finds under a present directory entry. */
  predicate Agrees(mem: Ram, cr3: u32, vpn: nat, pte: u32) {
    var pde := Entry(mem, PdeAddress(cr3, vpn));
    pde.Some? && Present(pde.value) && Entry(mem, PteAddress(pde.value, vpn)) == Some(pte)
  }

  ghost predicate Coherent(cache: Cache, mem: Ram, cr3: u32) {
    forall vpn: nat {:trigger Lookup(cache, vpn)} ::
      Lookup(cache, vpn).Some? ==> Agrees(mem, cr3, vpn, Lookup(cache, vpn).value)
  }

  lemma TranslateKeepsCoherent(cache: Cache, mem: Ram, cr3: u32, mode: Mode, cpl: nat, addr: u32)
    requires Coherent(cache, mem, cr3)
    ensures Coherent(Translate(cache, mem, cr3, mode, cpl, addr).0, mem, cr3)
  {
    hide Dword, Frame;
  }

  /** The directory lets an access through. */
  predicate DirectoryPermits(mem: Ram, cr3: u32, mode: Mode, cpl: nat, addr: u32) {
    var pde := Entry(mem, PdeAddress(cr3, Vpn(addr)));
    pde.Some? && Permits(pde.value, mode, cpl)
  }

  /** With a coherent cache the translation differs from the walk in one case only:
      a cached entry that permits what the directory denies. */
  lemma TranslateIsWalkIff(cache: Cache, mem: Ram, cr3: u32, mode: Mode, cpl: nat, addr: u32)
    requires Coherent(cache, mem, cr3)
    ensures Translate(cache, mem, cr3, mode, cpl, addr).1 == Walk(mem, cr3, mode, cpl, addr)
       <==> !(&& Lookup(cache, Vpn(addr)).Some? && Permits(Lookup(cache, Vpn(addr)).value, mode, cpl)
              && !DirectoryPermits(mem, cr3, mode, cpl, addr))
  {
    hide Dword, Frame;
    assert Lookup(cache, Vpn(addr)).Some? ==> Agrees(mem, cr3, Vpn(addr), Lookup(cache, Vpn(addr)).value);
  }

  /** Hit or miss, a walk that succeeds is what the translation gives. */
  lemma WalkSucceedsTranslateAgrees(cache: Cache, mem: Ram, cr3: u32, mode: Mode, cpl: nat, addr: u32)
    requires Coherent(cache, mem, cr3) && Walk(mem, cr3, mode, cpl, addr).Physical?
    ensures Translate(cache, mem, cr3, mode, cpl, addr).1 == Walk(mem, cr3, mode, cpl, addr)
  {
    hide Dword, Frame, Permits;
    TranslateIsWalkIff(cache, mem, cr3, mode, cpl, addr);
  }

  /** Directory entries that deny nothing beyond not being present. */
  ghost predicate OpenDirectory(mem: Ram, cr3: u32) {
    forall vpn: nat {:trigger PdeAddress(cr3, vpn)} :: vpn < 0x10_0000 ==>
      var pde := Entry(mem, PdeAddress(cr3, vpn));
      pde.Some? && Present(pde.value) ==> Writable(pde.value) && User(pde.value)
  }

  /** Over such a directory they agree on everything, faults and CR2 included. */
  lemma OpenDirectoryTranslateIsWalk(cache: Cache, mem: Ram, cr3: u32, mode: Mode, cpl: nat, addr: u32)
    requires Coherent(cache, mem, cr3) && OpenDirectory(mem, cr3)
    ensures Translate(cache, mem, cr3, mode, cpl, addr).1 == Walk(mem, cr3, mode, cpl, addr)
  {
    hide Dword, Frame;
    TranslateIsWalkIff(cache, mem, cr3, mode, cpl, addr);
    assert Lookup(cache, Vpn(addr)).Some? ==> Agrees(mem, cr3, Vpn(addr), Lookup(cache, Vpn(addr)).value);
    assert PdeAddress(cr3, Vpn(addr)) == PdeAddress(cr3, Vpn(addr));
  }

  /** Where both entries let an access through, the walk, and the translation from an empty
      cache, reach the byte at the address's offset in the frame of the table entry. */
  lemma PageReached(mem: Ram, cr3: u32, c: nat, x: nat, d: nat, t: nat, o: nat, mode: Mode, cpl: nat,
                    m: nat, rest1: nat, user1: bool, writable1: bool, n: nat, rest2: nat, user2: bool, writable2: bool)
    requires cr3 == 0x1000 * c + x && x < 0x1000 && c < 0x10_0000 && d < 0x400 && t < 0x400 && o < 0x1000
    requires rest1 < 0x200 && rest2 < 0x200
    requires Inside(mem, 0x1000 * c + 4 * d, 4) && Inside(mem, 0x1000 * m + 4 * t, 4)
    requires Bytes(mem, 0x1000 * c + 4 * d) == EntryOf(m, rest1, user1, writable1, true)
    requires Bytes(mem, 0x1000 * m + 4 * t) == EntryOf(n, rest2, user2, writable2, true)
    requires mode == Write ==> writable1 && writable2
    requires cpl >= 3 ==> user1 && user2
    ensures var addr := 0x40_0000 * d + 0x1000 * t + o;
            && Walk(mem, cr3, mode, cpl, addr) == Physical(0x1000 * n + o)
            && Translate([], mem, cr3, mode, cpl, addr).1 == Physical(0x1000 * n + o)
  {
    WalkOnBytes(mem, cr3, c, x, d, t, o, mode, cpl, m, rest1, user1, writable1, true);
    hide Walk, Translate, Bytes, EntryOf, Entry;
    WalkSucceedsTranslateAgrees([], mem, cr3, mode, cpl, 0x40_0000 * d + 0x1000 * t + o);
  }

  // ------------------------------------------------------------- runs

  /** What can happen between loads of CR3. */
  datatype Event = Access(mode: Mode, cpl: nat, addr: u32) | Store(p: nat, v: byte)

  /** A byte of the directory, or of a table under a present directory entry. */
  ghost predicate TableByte(mem: Ram, cr3: u32, p: int) {
    || Frame(cr3) <= p < Frame(cr3) + 0x1000
    || exists vpn: nat {:trigger PdeAddress(cr3, vpn)} ::
         && vpn < 0x10_0000 && Entry(mem, PdeAddress(cr3, vpn)).Some?
         && var pde := Entry(mem, PdeAddress(cr3, vpn)).value;
            Present(pde) && Frame(pde) <= p < Frame(pde) + 0x1000
  }

  /** The machine that the events run on. */
  datatype System = System(cache: Cache, mem: Ram)

  function Apply(s: System, cr3: u32, e: Event): System {
    match e
    case Access(mode, cpl, addr) => s.(cache := Translate(s.cache, s.mem, cr3, mode, cpl, addr).0)
    case Store(p, v) => if p < |s.mem| then s.(mem := s.mem[p := v]) else s
  }

  function ApplyAll(s: System, cr3: u32, es: seq<Event>): System {
    if es == [] then s else Apply(ApplyAll(s, cr3, es[..|es| - 1]), cr3, es[|es| - 1])
  }

  /** No event of the run writes into the tables as they are at that time. */
  ghost predicate LeavesTables(s: System, cr3: u32, es: seq<Event>) {
    forall i :: 0 <= i < |es| && es[i].Store? ==> !TableByte(ApplyAll(s, cr3, es[..i]).mem, cr3, es[i].p)
  }

  /** The cached page numbers are those of 32-bit addresses. */
  predicate Small(cache: Cache) {
    |cache| <= 0x10_0000
  }

  lemma TranslateKeepsSmall(cache: Cache, mem: Ram, cr3: u32, mode: Mode, cpl: nat, addr: u32)
    requires Small(cache)
    ensures Small(Translate(cache, mem, cr3, mode, cpl, addr).0)
  {
    hide Entry, Permits, PdeAddress, PteAddress;
  }

  lemma StoreElsewhere(mem: Ram, p: nat, v: byte, q: int)
    requires p < |mem| && !(q <= p < q + 4)
    ensures Entry(mem[p := v], q) == Entry(mem, q)
  {
    if Inside(mem, q, 4) {
      DwordSame(mem[p := v], mem, q);
    }
  }

  lemma StoreKeepsAgrees(mem: Ram, cr3: u32, p: nat, v: byte, vpn: nat, pte: u32)
    requires vpn < 0x10_0000 && p < |mem| && !TableByte(mem, cr3, p)
    requires Agrees(mem, cr3, vpn, pte)
    ensures Agrees(mem[p := v], cr3, vpn, pte)
  {
    var at := PdeAddress(cr3, vpn);
    StoreElsewhere(mem, p, v, at);
    var pde := Entry(mem, at).value;
    StoreElsewhere(mem, p, v, PteAddress(pde, vpn));
  }

  lemma StoreKeepsCoherent(s: System, cr3: u32, p: nat, v: byte)
    requires Coherent(s.cache, s.mem, cr3) && Small(s.cache) && p < |s.mem| && !TableByte(s.mem, cr3, p)
    ensures Coherent(s.cache, s.mem[p := v], cr3)
  {
    forall vpn: nat | Lookup(s.cache, vpn).Some?
      ensures Agrees(s.mem[p := v], cr3, vpn, Lookup(s.cache, vpn).value)
    {
      StoreKeepsAgrees(s.mem, cr3, p, v, vpn, Lookup(s.cache, vpn).value);
    }
  }

  /** Over every run of accesses, in any mode and at any privilege level, and of
      stores outside the tables, the cache stays coherent. */
  lemma {:induction false} RunStaysCoherent(s: System, cr3: u32, es: seq<Event>)
    requires Coherent(s.cache, s.mem, cr3) && Small(s.cache) && LeavesTables(s, cr3, es)
    ensures var t := ApplyAll(s, cr3, es); Coherent(t.cache, t.mem, cr3) && Small(t.cache)
  {
    hide Coherent, TableByte, Translate;
    if es != [] {
      var init, e := es[..|es| - 1], es[|es| - 1];
      assert forall i :: 0 <= i < |init| ==> init[..i] == es[..i];
      RunStaysCoherent(s, cr3, init);
      var t := ApplyAll(s, cr3, init);
      match e
      case Access(mode, cpl, addr) =>
        TranslateKeepsCoherent(t.cache, t.mem, cr3, mode, cpl, addr);
        TranslateKeepsSmall(t.cache, t.mem, cr3, mode, cpl, addr);
      case Store(p, v) =>
        if p < |t.mem| {
          StoreKeepsCoherent(t, cr3, p, v);
        }
    }
  }

  /** After every such run from an empty cache, what the walk over the present memory
      grants, the translation grants, at the same address. */
  lemma RunTranslatesLikeWalk(mem: Ram, cr3: u32, es: seq<Event>, mode: Mode, cpl: nat, addr: u32)
    requires LeavesTables(System([], mem), cr3, es)
    ensures var t := ApplyAll(System([], mem), cr3, es);
            && (Walk(t.mem, cr3, mode, cpl, addr).Physical? ==>
                  Translate(t.cache, t.mem, cr3, mode, cpl, addr).1 == Walk(t.mem, cr3, mode, cpl, addr))
            && (OpenDirectory(t.mem, cr3) ==>
                  Translate(t.cache, t.mem, cr3, mode, cpl, addr).1 == Walk(t.mem, cr3, mode, cpl, addr))
  {
    var t := ApplyAll(System([], mem), cr3, es);
    RunStaysCoherent(System([], mem), cr3, es);
    hide Walk, Translate, Coherent, OpenDirectory;
    if Walk(t.mem, cr3, mode, cpl, addr).Physical? {
      WalkSucceedsTranslateAgrees(t.cache, t.mem, cr3, mode, cpl, addr);
    }
    if OpenDirectory(t.mem, cr3) {
      OpenDirectoryTranslateIsWalk(t.cache, t.mem, cr3, mode, cpl, addr);
    }
  }

  // ------------------------------------------------------------- never flushed

  /** An entry once cached is used for ever after, whatever is stored, tables
      included, and whatever CR3 is loaded. */
  lemma {:induction false} CachedForEver(s: System, cr3: u32, es: seq<Event>, vpn: nat)
    requires Lookup(s.cache, vpn).Some?
    ensures Lookup(ApplyAll(s, cr3, es).cache, vpn) == Lookup(s.cache, vpn)
  {
    if es != [] {
      CachedForEver(s, cr3, es[..|es| - 1], vpn);
    }
  }

  /** Runs under one value of CR3 after another. */
  function ApplyRuns(s: System, runs: seq<(u32, seq<Event>)>): System {
    if runs == [] then s
    else
      var last := runs[|runs| - 1];
      ApplyAll(ApplyRuns(s, runs[..|runs| - 1]), last.0, last.1)
  }

  lemma {:induction false} CachedThroughLoads(s: System, runs: seq<(u32, seq<Event>)>, vpn: nat)
    requires Lookup(s.cache, vpn).Some?
    ensures Lookup(ApplyRuns(s, runs).cache, vpn) == Lookup(s.cache, vpn)
  {
    if runs != [] {
      var n := |runs| - 1;
      CachedThroughLoads(s, runs[..n], vpn);
      CachedForEver(ApplyRuns(s, runs[..n]), runs[n].0, runs[n].1, vpn);
    }
  }

  /** The tables now lead an access to the frame of an entry. */
  predicate LeadsTo(mem: Ram, cr3: u32, mode: Mode, cpl: nat, vpn: nat, frame: int) {
    var pde := Entry(mem, PdeAddress(cr3, vpn));
    && pde.Some? && Permits(pde.value, mode, cpl)
    && var pte := Entry(mem, PteAddress(pde.value, vpn));
       pte.Some? && Permits(pte.value, mode, cpl) && Frame(pte.value) == frame
  }

  /** The tables now deny an access, at the first level or the second. */
  predicate Denies(mem: Ram, cr3: u32, mode: Mode, cpl: nat, vpn: nat) {
    var pde := Entry(mem, PdeAddress(cr3, vpn));
    && pde.Some?
    && (!Permits(pde.value, mode, cpl) ||
        var pte := Entry(mem, PteAddress(pde.value, vpn));
        pte.Some? && !Permits(pte.value, mode, cpl))
  }

  /** A page cached once, even by an access that faulted on it, is translated by its old
      entry for good, whatever is stored, tables included, and whatever CR3 is loaded.  If
      the old entry permits the access, that is right exactly when the tables now permit it
      too, at both levels, and lead to the same frame; if it denies the access, exactly
      when the tables now deny it as well. */
  lemma StaleIff(s: System, runs: seq<(u32, seq<Event>)>, cr3: u32, mode: Mode, cpl: nat, addr: u32)
    requires Lookup(s.cache, Vpn(addr)).Some?
    ensures var t, entry := ApplyRuns(s, runs), Lookup(s.cache, Vpn(addr)).value;
            Translate(t.cache, t.mem, cr3, mode, cpl, addr).1 == Walk(t.mem, cr3, mode, cpl, addr)
            <==> if Permits(entry, mode, cpl) then LeadsTo(t.mem, cr3, mode, cpl, Vpn(addr), Frame(entry))
                 else Denies(t.mem, cr3, mode, cpl, Vpn(addr))
  {
    hide Dword, Frame, Permits, PdeAddress, PteAddress;
    CachedThroughLoads(s, runs, Vpn(addr));
  }

  class PagingSystem {
    var cache: Cache
    var cr2: u32
    var cr3: u32
    var protectedMode: bool
    var memory: array<byte>

    constructor (mem: array<byte>)
      ensures cache == [] && memory == mem
    {
      cache, memory := [], mem;
      cr2, cr3, protectedMode := 0, 0, false;
    }

    method SearchCachedPage(vpn: nat) returns (res: Option<u32>)
      ensures res == Lookup(cache, vpn)
    {
      if !(vpn < |cache|) || cache[vpn].None? {
        return None;
      }
      res := cache[vpn];
    }

    method CachePage(vpn: nat, pte: u32)
      modifies `cache
      ensures cache == Fill(old(cache), vpn, pte)
    {
      if !(vpn < |cache|) {
        cache := cache + seq(vpn + 1 - |cache|, _ => None);
      }
      cache := cache[vpn := Some(pte)];
    }

    method TranslateAddr(mode: Mode, cpl: nat, addr: u32) returns (r: Outcome)
      requires Coherent(cache, memory[..], cr3)
      modifies `cache, `cr2
      ensures !protectedMode ==> r.ProtectionFault? && cache == old(cache)
      ensures protectedMode ==> (cache, r) == Translate(old(cache), memory[..], cr3, mode, cpl, addr)
      ensures cr2 == if r.PageFault? then addr else old(cr2)
      ensures Coherent(cache, memory[..], cr3)
      ensures protectedMode && Walk(memory[..], cr3, mode, cpl, addr).Physical? ==>
                r == Walk(memory[..], cr3, mode, cpl, addr)
    {
      TranslateKeepsCoherent(cache, memory[..], cr3, mode, cpl, addr);
      if protectedMode && Walk(memory[..], cr3, mode, cpl, addr).Physical? {
        WalkSucceedsTranslateAgrees(cache, memory[..], cr3, mode, cpl, addr);
      }
      hide Coherent;
      if !protectedMode {
        return ProtectionFault;
      }
      var vpn := Vpn(addr);
      var found := SearchCachedPage(vpn);
      var pte: u32;
      if found.None? {
        var pde := Entry(memory[..], PdeAddress(cr3, vpn));
        if pde.None? {
          return OutOfMemory;
        }
        if !Present(pde.value) || (!Writable(pde.value) && mode.Write?) || (!User(pde.value) && cpl > 2) {
          cr2 := addr;
          return PageFault(addr);
        }
        var read := Entry(memory[..], PteAddress(pde.value, vpn));
        if read.None? {
          return OutOfMemory;
        }
        pte := read.value;
        CachePage(vpn, pte);
      } else {
        pte := found.value;
      }
      if !Present(pte) || (!Writable(pte) && mode.Write?) || (!User(pte) && cpl > 2) {
        cr2 := addr;
        return PageFault(addr);
      }
      r := Physical(Frame(pte) + addr % 0x1000);
    }
  }
}
