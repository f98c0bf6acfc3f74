/** The lookup of the device behind a port or a memory address: the last range that
    begins at or below it, if it reaches that far. */
module IoMap {
  import opened Words

  datatype Region = Region(size: nat, handler: nat)

  /** Ranges by where they begin. */
  type Regions = map<nat, Region>

  datatype Assignment = Assignment(base: nat, region: Region)

  predicate Covers(a: Assignment, addr: nat) {
    a.base <= addr < a.base + a.region.size
  }

  /** The greatest key not above addr: what comes before the map's upper bound. */
  function Floor(m: Regions, addr: nat): (k: Option<nat>)
    ensures k.Some? ==> k.value in m && k.value <= addr && forall j: nat :: k.value < j <= addr ==> j !in m
    ensures k.None? ==> forall j: nat :: j <= addr ==> j !in m
  {
    if addr in m then Some(addr) else if addr == 0 then None else Floor(m, addr - 1)
  }

  /** find_region_it: where the range begins that holds addr. */
  function Find(m: Regions, addr: nat): Option<nat> {
    var k := Floor(m, addr);
    if k.Some? && addr < k.value + m[k.value].size then k else None
  }

  /** A range assigned at an occupied base replaces what was there. */
  function Assigned(list: seq<Assignment>): Regions {
    if list == [] then map[] else Assigned(list[..|list| - 1])[list[|list| - 1].base := list[|list| - 1].region]
  }

  /** The reference: look at the assignments one by one. */
  function Scan(list: seq<Assignment>, addr: nat): Option<nat> {
    if list == [] then None
    else if Covers(list[0], addr) then Some(list[0].base)
    else Scan(list[1..], addr)
  }

  predicate DistinctBases(list: seq<Assignment>) {
    forall i, j :: 0 <= i < |list| && 0 <= j < |list| && i != j ==> list[i].base != list[j].base
  }

  /** No range begins inside another. */
  predicate NoneInside(list: seq<Assignment>) {
    forall i, j :: 0 <= i < |list| && 0 <= j < |list| && i != j ==> !Covers(list[i], list[j].base)
  }

  ghost predicate Disjoint(list: seq<Assignment>) {
    forall i, j, addr: nat :: 0 <= i < |list| && 0 <= j < |list| && i != j ==>
      !(Covers(list[i], addr) && Covers(list[j], addr))
  }

  lemma DisjointMeansNoneInside(list: seq<Assignment>)
    requires Disjoint(list) && forall a :: a in list ==> a.region.size > 0
    ensures NoneInside(list) && DistinctBases(list)
  {
    forall i, j | 0 <= i < |list| && 0 <= j < |list| && i != j
      ensures !Covers(list[i], list[j].base) && list[i].base != list[j].base
    {
      assert list[j] in list && list[i] in list;
      assert Covers(list[j], list[j].base) && Covers(list[i], list[i].base);
    }
  }

  lemma {:induction false} AssignedHas(list: seq<Assignment>)
    requires DistinctBases(list)
    ensures forall i :: 0 <= i < |list| ==>
              list[i].base in Assigned(list) && Assigned(list)[list[i].base] == list[i].region
    ensures forall k :: k in Assigned(list) ==> exists i :: 0 <= i < |list| && list[i].base == k
  {
    if list != [] {
      AssignedHas(list[..|list| - 1]);
    }
  }

  lemma {:induction false} ScanFinds(list: seq<Assignment>, addr: nat)
    ensures Scan(list, addr).None? ==> forall i :: 0 <= i < |list| ==> !Covers(list[i], addr)
    ensures Scan(list, addr).Some? ==>
              exists i :: 0 <= i < |list| && Covers(list[i], addr) && Scan(list, addr).value == list[i].base
  {
    if list != [] && !Covers(list[0], addr) {
      ScanFinds(list[1..], addr);
      if Scan(list[1..], addr).Some? {
        var i :| 0 <= i < |list[1..]| && Covers(list[1..][i], addr) && Scan(list[1..], addr).value == list[1..][i].base;
        assert list[i + 1] == list[1..][i];
      }
    }
  }

  /** Where a covering range is found, and where not. */
  lemma FindsCover(list: seq<Assignment>, i: nat, addr: nat)
    requires DistinctBases(list) && i < |list| && Covers(list[i], addr)
    requires forall j :: 0 <= j < |list| ==> !(list[i].base < list[j].base <= addr)
    ensures Find(Assigned(list), addr) == Some(list[i].base)
  {
    AssignedHas(list);
    hide Assigned;
  }

  lemma FindsOnlyCover(list: seq<Assignment>, addr: nat)
    requires DistinctBases(list) && Find(Assigned(list), addr).Some?
    ensures exists i :: 0 <= i < |list| && Covers(list[i], addr) && Find(Assigned(list), addr).value == list[i].base
  {
    AssignedHas(list);
    hide Assigned;
  }

  /** For ranges that do not overlap, assigned in any order, the lookup and the scan
      agree at every address. */
  lemma LookupIsScan(list: seq<Assignment>, addr: nat)
    requires Disjoint(list) && forall a :: a in list ==> a.region.size > 0
    ensures Find(Assigned(list), addr) == Scan(list, addr)
  {
    DisjointMeansNoneInside(list);
    ScanFinds(list, addr);
    if Scan(list, addr).Some? {
      var i: nat :| i < |list| && Covers(list[i], addr) && Scan(list, addr).value == list[i].base;
      forall j | 0 <= j < |list| ensures !(list[i].base < list[j].base <= addr) {
        assert i != j ==> !Covers(list[i], list[j].base);
      }
      FindsCover(list, i, addr);
    } else if Find(Assigned(list), addr).Some? {
      FindsOnlyCover(list, addr);
    }
  }

  /** The lookup finds the range for every address of every range if and only if no range
      begins inside another. */
  lemma LookupRightIff(list: seq<Assignment>)
    requires DistinctBases(list)
    ensures (forall i, addr: nat :: 0 <= i < |list| && Covers(list[i], addr) ==>
              Find(Assigned(list), addr) == Some(list[i].base))
            <==> NoneInside(list)
  {
    if NoneInside(list) {
      forall i, addr: nat | 0 <= i < |list| && Covers(list[i], addr)
        ensures Find(Assigned(list), addr) == Some(list[i].base)
      {
        forall j | 0 <= j < |list| ensures !(list[i].base < list[j].base <= addr) {
          assert i != j ==> !Covers(list[i], list[j].base);
        }
        FindsCover(list, i, addr);
      }
    } else {
      var i, j :| 0 <= i < |list| && 0 <= j < |list| && i != j && Covers(list[i], list[j].base);
      AssignedHas(list);
      hide Assigned;
      assert list[j].base in Assigned(list);
      assert Floor(Assigned(list), list[j].base) == Some(list[j].base);
      assert Find(Assigned(list), list[j].base) != Some(list[i].base);
    }
  }

  /** find_region_base answers 0 for "none": right exactly when no range begins at 0. */
  function FindBase(m: Regions, addr: nat): nat {
    if Find(m, addr).Some? then Find(m, addr).value else 0
  }

  ghost predicate ZeroMeansNone(m: Regions) {
    forall addr: nat :: FindBase(m, addr) == 0 <==> Find(m, addr).None?
  }

  lemma ZeroMeansNoneIff(list: seq<Assignment>)
    requires DistinctBases(list) && forall a :: a in list ==> a.region.size > 0
    ensures ZeroMeansNone(Assigned(list)) <==> forall i :: 0 <= i < |list| ==> list[i].base != 0
  {
    AssignedHas(list);
    var m := Assigned(list);
    hide Assigned;
    if i :| 0 <= i < |list| && list[i].base == 0 {
      assert list[i] in list;
      assert Find(m, 0) == Some(0);
      assert FindBase(m, 0) == 0;
    }
  }

  /** The handler that a look at the assignments one by one finds. */
  function ScanHandler(list: seq<Assignment>, addr: nat): Option<nat> {
    if list == [] then None
    else if Covers(list[0], addr) then Some(list[0].region.handler)
    else ScanHandler(list[1..], addr)
  }

  lemma {:induction false} ScanHandlerFinds(list: seq<Assignment>, addr: nat)
    ensures ScanHandler(list, addr).Some? <==> Scan(list, addr).Some?
    ensures Scan(list, addr).Some? ==>
              exists i :: && 0 <= i < |list| && Covers(list[i], addr) && Scan(list, addr).value == list[i].base
                          && ScanHandler(list, addr).value == list[i].region.handler
  {
    if list != [] && !Covers(list[0], addr) {
      ScanHandlerFinds(list[1..], addr);
      if Scan(list[1..], addr).Some? {
        var i :| && 0 <= i < |list[1..]| && Covers(list[1..][i], addr)
                 && Scan(list[1..], addr).value == list[1..][i].base
                 && ScanHandler(list[1..], addr).value == list[1..][i].region.handler;
        assert list[i + 1] == list[1..][i];
      }
    }
  }

  /** For non-empty ranges that do not overlap, the handler found through the map is the
      one the scan finds. */
  lemma HandlerIsScan(list: seq<Assignment>, addr: nat)
    requires Disjoint(list) && forall a :: a in list ==> a.region.size > 0
    ensures Find(Assigned(list), addr).Some? ==> Find(Assigned(list), addr).value in Assigned(list)
    ensures ScanHandler(list, addr) ==
            if Find(Assigned(list), addr).Some? then Some(Assigned(list)[Find(Assigned(list), addr).value].handler)
            else None
  {
    LookupIsScan(list, addr);
    ScanHandlerFinds(list, addr);
    DisjointMeansNoneInside(list);
    AssignedHas(list);
    hide Assigned, Find, Scan, ScanHandler;
  }

  /** The manager of ports and that of memory regions; the log is of what was assigned. */
  class Manager {
    var regions: Regions
    ghost var log: seq<Assignment>

    ghost predicate Valid()
      reads this
    {
      regions == Assigned(log)
    }

    constructor ()
      ensures Valid() && log == []
    {
      regions := map[];
      log := [];
    }

    method Assign(base: nat, size: nat, handler: nat)
      requires Valid()
      modifies this
      ensures Valid() && log == old(log) + [Assignment(base, Region(size, handler))]
    {
      regions := regions[base := Region(size, handler)];
      log := log + [Assignment(base, Region(size, handler))];
      assert log[..|log| - 1] == old(log);
    }

    /** The handler at an address, if any: whatever was assigned, the one of the last range
        that begins there or below, if it reaches that far; and if no two of the ranges
        assigned so far overlap, the one that a look at them one by one finds. */
    method FindHandler(addr: nat) returns (handler: Option<nat>)
      requires Valid()
      ensures handler == if Find(regions, addr).Some? then Some(regions[Find(regions, addr).value].handler) else None
      ensures Disjoint(log) && (forall a :: a in log ==> a.region.size > 0) ==> handler == ScanHandler(log, addr)
    {
      if Disjoint(log) && forall a :: a in log ==> a.region.size > 0 {
        HandlerIsScan(log, addr);
      }
      var k := Floor(regions, addr);
      if k.None? || !(addr < k.value + regions[k.value].size) {
        return None;
      }
      return Some(regions[k.value].handler);
    }
  }
}
