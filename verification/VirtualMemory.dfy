/**
 * Address spaces, mappings and regions (kernel/mm/vmm.c, region.c, mapping.c) on x86,
 * with user-mode loads and stores, proved to behave as the eager reference.
 */
module VirtualMemory {
  import opened Errors
  import opened Lists
  import opened PhysicalMemory
  import opened X86Paging
  import opened CowModel
  import opened MemoryHistory

  /** The pages start .. start+n-1. */
  ghost function PageSet(start: nat, n: nat): set<nat> {
    if n == 0 then {} else PageSet(start, n - 1) + {start + n - 1}
  }

  lemma {:induction false} PageSetExact(start: nat, n: nat)
    ensures forall v: nat :: v in PageSet(start, n) <==> start <= v < start + n
  {
    if n != 0 {
      PageSetExact(start, n - 1);
    }
  }

  lemma Overwrite(m: UserTables, s: nat, x: map<nat, Pte>, y: map<nat, Pte>)
    ensures m[s := x][s := y] == m[s := y]
    ensures s in m && m[s] == y ==> m[s := x][s := y] == m
  {
  }

  lemma RangeMapStep(m: map<nat, Pte>, start: nat, frames: seq<nat>, i: nat, write: bool)
    requires i < |frames|
    ensures Put(m + RangeMap(start, frames[..i], write), start + i, Some(Pte(true, write, true, frames[i]))) ==
            m + RangeMap(start, frames[..i + 1], write)
  {
    var a := (m + RangeMap(start, frames[..i], write))[start + i := Pte(true, write, true, frames[i])];
    var b := m + RangeMap(start, frames[..i + 1], write);
    forall v: nat
      ensures v in a <==> v in b
      ensures v in a ==> a[v] == b[v]
    {
      if start <= v < start + i {
        assert RangeMap(start, frames[..i], write)[v] == RangeEntry(start, frames[..i], write, v);
        assert RangeMap(start, frames[..i + 1], write)[v] == RangeEntry(start, frames[..i + 1], write, v);
      } else if v == start + i {
        assert RangeMap(start, frames[..i + 1], write)[v] == RangeEntry(start, frames[..i + 1], write, v);
      }
    }
  }

  lemma RangeMapUndo(m: map<nat, Pte>, start: nat, frames: seq<nat>, write: bool)
    requires forall v: nat :: start <= v < start + |frames| ==> v !in m
    ensures (m + RangeMap(start, frames, write)) - PageSet(start, |frames|) == m
  {
    PageSetExact(start, |frames|);
  }

  lemma RangeMapMembers(m: map<nat, Pte>, start: nat, frames: seq<nat>, i: nat, write: bool)
    requires i <= |frames|
    ensures m + RangeMap(start, frames[..0], write) == m && frames[..|frames|] == frames
    ensures forall v: nat :: start <= v < start + i ==> v in m + RangeMap(start, frames[..i], write)
    ensures start + i in m <==> start + i in m + RangeMap(start, frames[..i], write)
    ensures start + i in m ==> (m + RangeMap(start, frames[..i], write))[start + i] == m[start + i]
    ensures i < |frames| && start + i in m ==> !RangeFree(m, start, |frames|)
    ensures (forall v: nat :: start <= v < start + |frames| ==> v !in m) ==> RangeFree(m, start, |frames|)
  {
  }

  lemma UnmapStep(m: map<nat, Pte>, start: nat, i: nat)
    ensures Put(m - PageSet(start, i), start + i, None) == m - PageSet(start, i + 1)
    ensures m - PageSet(start, 0) == m
    ensures start + i in m ==> start + i in m - PageSet(start, i)
  {
    PageSetExact(start, i);
  }

  /** `__unmap_mapping` on pages of the active address space that are all present. */
  method UnmapRange(pt: Paging, start: nat, n: nat) returns (err: Errno)
    requires pt.Valid() && pt.active in pt.registered && start + n <= USER_PAGES
    requires forall v: nat :: start <= v < start + n ==> v in pt.UserMaps()[pt.active]
    modifies pt`tables
    ensures pt.Valid() && err == Ok
    ensures pt.UserMaps() == old(pt.UserMaps())[pt.active := old(pt.UserMaps())[pt.active] - PageSet(start, n)]
    ensures pt.KernelMap() == old(pt.KernelMap())
    ensures forall w :: old(pt.HasTable(w)) ==> pt.HasTable(w)
    ensures pt.Slots() == old(pt.Slots())
  {
    hide Wf, UserMapsOf, KernelMapOf, PageSet, Put, Paging.Valid, Paging.HasTable, Paging.Slots;
    pt.Domain();
    ghost var maps0 := pt.UserMaps();
    ghost var m0 := maps0[pt.active];
    err := Ok;
    var i := 0;
    UnmapStep(m0, start, 0);
    Overwrite(maps0, pt.active, m0, m0);
    while err == Ok && i < n
      invariant 0 <= i <= n && err == Ok
      invariant pt.Valid() && pt.KernelMap() == old(pt.KernelMap())
      invariant pt.UserMaps() == maps0[pt.active := m0 - PageSet(start, i)]
      invariant forall w :: old(pt.HasTable(w)) ==> pt.HasTable(w)
      invariant pt.Slots() == old(pt.Slots())
    {
      UnmapStep(m0, start, i);
      err := pt.UnmapPage(start + i);
      Overwrite(maps0, pt.active, m0 - PageSet(start, i), m0 - PageSet(start, i + 1));
      i := i + 1;
    }
  }

  /** Page `k` of a range is the first one of the range in a directory entry without page table. */
  ghost predicate NewSlot(slots: set<nat>, start: nat, k: nat) {
    (start + k) / ENTRIES !in slots && (k == 0 || (start + k - 1) / ENTRIES != (start + k) / ENTRIES)
  }

  /** How many page tables are missing for the pages start .. start+n-1. */
  ghost function Missing(slots: set<nat>, start: nat, n: nat): nat {
    if n == 0 then 0 else Missing(slots, start, n - 1) + if NewSlot(slots, start, n - 1) then 1 else 0
  }

  /** The directory entries in use once these pages are mapped. */
  ghost function Touched(slots: set<nat>, start: nat, n: nat): set<nat> {
    if n == 0 then slots else Touched(slots, start, n - 1) + {(start + n - 1) / ENTRIES}
  }

  lemma TouchNone(slots: set<nat>, start: nat)
    ensures Touched(slots, start, 0) == slots && Missing(slots, start, 0) == 0
  {
  }

  lemma {:induction false} TouchedBelow(slots: set<nat>, start: nat, n: nat)
    ensures slots <= Touched(slots, start, n)
    ensures forall i :: i in Touched(slots, start, n) && i !in slots ==> n > 0 && i <= (start + n - 1) / ENTRIES
  {
    if n > 0 {
      TouchedBelow(slots, start, n - 1);
    }
  }

  lemma TouchOne(slots: set<nat>, start: nat, k: nat)
    ensures Touched(slots, start, k + 1) == Touched(slots, start, k) + {(start + k) / ENTRIES}
    ensures (start + k) / ENTRIES !in Touched(slots, start, k) <==> NewSlot(slots, start, k)
    ensures Missing(slots, start, k + 1) == Missing(slots, start, k) + if NewSlot(slots, start, k) then 1 else 0
  {
    TouchedBelow(slots, start, k);
  }

  lemma {:induction false} MissingGrows(slots: set<nat>, start: nat, k: nat, n: nat)
    requires k <= n
    ensures Missing(slots, start, k) <= Missing(slots, start, n)
    ensures k < n && NewSlot(slots, start, k) ==> Missing(slots, start, k) < Missing(slots, start, n)
    decreases n
  {
    if k + 1 < n {
      MissingGrows(slots, start, k, n - 1);
    }
  }

  /** No table is missing where all are there. */
  lemma {:induction false} NoneMissing(slots: set<nat>, start: nat, n: nat)
    requires forall v: nat :: start <= v < start + n ==> v / ENTRIES in slots
    ensures Missing(slots, start, n) == 0 && Touched(slots, start, n) == slots
  {
    if n > 0 {
      NoneMissing(slots, start, n - 1);
      assert (start + n - 1) / ENTRIES in slots;
    }
  }

  lemma NotFree<T>(m: map<nat, T>, start: nat, n: nat, v: nat)
    requires start <= v < start + n
    ensures v in m ==> !RangeFree(m, start, n)
  {
  }

  lemma FreeInView<T, U>(m: map<nat, T>, m': map<nat, U>, start: nat, n: nat)
    requires m.Keys == m'.Keys
    ensures RangeFree(m, start, n) <==> RangeFree(m', start, n)
  {
    assert forall v :: v in m <==> v in m.Keys;
    assert forall v :: v in m' <==> v in m'.Keys;
  }

  lemma AllFree<T>(m: map<nat, T>, start: nat, n: nat)
    requires forall v: nat :: start <= v < start + n ==> v !in m
    ensures RangeFree(m, start, n)
  {
  }

  /** `map_mapping`: all pages, or none. */
  method MapRange(pt: Paging, start: nat, frames: seq<nat>, prot: Prot) returns (err: Errno)
    requires pt.Valid() && pt.active in pt.registered && start + |frames| <= USER_PAGES && prot.user
    modifies pt`dirs, pt`tables, pt`kdir, pt.pm`free, pt.pm`used, pt.pm`owner
    ensures pt.Valid() && pt.KernelMap() == old(pt.KernelMap())
    ensures forall w :: old(pt.HasTable(w)) ==> pt.HasTable(w)
    ensures RegionFrames(pt.pm.owner) == old(RegionFrames(pt.pm.owner))
    ensures err == Ok ==> RangeFree(old(pt.UserMaps())[pt.active], start, |frames|)
    ensures err == Ok ==>
              pt.UserMaps() ==
              old(pt.UserMaps())[pt.active := old(pt.UserMaps())[pt.active] + RangeMap(start, frames, prot.write)]
    ensures err != Ok ==> pt.UserMaps() == old(pt.UserMaps())
    ensures err == Ok <==> RangeFree(old(pt.UserMaps())[pt.active], start, |frames|) &&
                           Missing(old(pt.Slots()), start, |frames|) <= |old(pt.pm.free)|
    ensures err == Ok ==>
              |pt.pm.free| == |old(pt.pm.free)| - Missing(old(pt.Slots()), start, |frames|) &&
              pt.Slots() == Touched(old(pt.Slots()), start, |frames|)
  {
    hide *;
    pt.Domain();
    ghost var maps0 := pt.UserMaps();
    ghost var m0 := maps0[pt.active];
    ghost var slots0 := pt.Slots();
    TouchNone(slots0, start);
    RangeMapMembers(m0, start, frames, 0, prot.write);
    Overwrite(maps0, pt.active, m0, m0);
    for i := 0 to |frames|
      invariant pt.Valid() && pt.KernelMap() == old(pt.KernelMap())
      invariant forall w :: old(pt.HasTable(w)) ==> pt.HasTable(w)
      invariant RegionFrames(pt.pm.owner) == old(RegionFrames(pt.pm.owner))
      invariant forall v: nat :: start <= v < start + i ==> v !in m0
      invariant pt.UserMaps() == maps0[pt.active := m0 + RangeMap(start, frames[..i], prot.write)]
      invariant pt.Slots() == Touched(slots0, start, i) && |pt.pm.free| == |old(pt.pm.free)| - Missing(slots0, start, i)
    {
      pt.Domain();
      RangeMapMembers(m0, start, frames, i, prot.write);
      RangeMapStep(m0, start, frames, i, prot.write);
      TouchOne(slots0, start, i);
      MissingGrows(slots0, start, i, |frames|);
      err := MapOne(pt, frames[i], start + i, prot);
      if err != Ok {
        NotFree(m0, start, |frames|, start + i);
        RangeMapUndo(m0, start, frames[..i], prot.write);
        var _ := UnmapRange(pt, start, i);
        Overwrite(maps0, pt.active, m0 + RangeMap(start, frames[..i], prot.write), m0);
        return;
      }
      Overwrite(maps0, pt.active, m0 + RangeMap(start, frames[..i], prot.write),
                m0 + RangeMap(start, frames[..i + 1], prot.write));
    }
    RangeMapMembers(m0, start, frames, |frames|, prot.write);
    AllFree(m0, start, |frames|);
    return Ok;
  }

  /** `paging_map` on a user page, as `map_mapping` sees it. */
  method MapOne(pt: Paging, frame: nat, v: nat, prot: Prot) returns (err: Errno)
    requires pt.Valid() && pt.active in pt.registered && v < USER_PAGES && prot.user
    modifies pt`dirs, pt`tables, pt`kdir, pt.pm`free, pt.pm`used, pt.pm`owner
    ensures pt.Valid() && pt.KernelMap() == old(pt.KernelMap())
    ensures forall w :: old(pt.HasTable(w)) ==> pt.HasTable(w)
    ensures RegionFrames(pt.pm.owner) == old(RegionFrames(pt.pm.owner))
    ensures err == Ok <==>
              v !in old(pt.UserMaps())[pt.active] && (v / ENTRIES in old(pt.Slots()) || old(pt.pm.free) != [])
    ensures err == Ok ==> pt.Slots() == old(pt.Slots()) + {v / ENTRIES}
    ensures err == Ok ==> |pt.pm.free| == |old(pt.pm.free)| - if v / ENTRIES in old(pt.Slots()) then 0 else 1
    ensures err == Ok ==>
              pt.UserMaps() ==
              old(pt.UserMaps())[pt.active := Put(old(pt.UserMaps())[pt.active], v,
                                                  Some(Pte(true, prot.write, true, frame)))]
    ensures err != Ok ==> pt.UserMaps() == old(pt.UserMaps())
  {
    hide Wf, Flat, Walk, SlotsOf;
    pt.SlotTable(v);
    err := pt.MapPage(frame, v, prot);
    if pt.pm.owner != old(pt.pm.owner) {
      OwnerViews(old(pt.pm.owner), old(pt.pm.free)[0], TableOwner(pt.active, v));
    }
  }

  /** `update_user_mapping_prot` on the pages of a mapping, which are all present. */
  method ProtectRange(pt: Paging, start: nat, n: nat, prot: Prot, ghost frames: seq<nat>) returns (err: Errno)
    requires pt.Valid() && pt.active in pt.registered && start + n <= USER_PAGES && prot.user && |frames| == n
    requires forall v: nat :: start <= v < start + n ==>
               v in pt.UserMaps()[pt.active] && pt.UserMaps()[pt.active][v].address == frames[v - start]
    modifies pt`tables
    ensures pt.Valid() && err == Ok
    ensures pt.UserMaps() ==
            old(pt.UserMaps())[pt.active := old(pt.UserMaps())[pt.active] + RangeMap(start, frames, prot.write)]
    ensures pt.KernelMap() == old(pt.KernelMap())
    ensures forall w :: old(pt.HasTable(w)) ==> pt.HasTable(w)
  {
    hide Wf, UserMapsOf, KernelMapOf, RangeMap, Put, Paging.Valid, Paging.HasTable;
    pt.Domain();
    ghost var maps0 := pt.UserMaps();
    ghost var m0 := maps0[pt.active];
    RangeMapMembers(m0, start, frames, 0, prot.write);
    Overwrite(maps0, pt.active, m0, m0);
    err := Ok;
    for i := 0 to n
      invariant pt.Valid() && pt.KernelMap() == old(pt.KernelMap())
      invariant pt.UserMaps() == maps0[pt.active := m0 + RangeMap(start, frames[..i], prot.write)]
      invariant forall w :: old(pt.HasTable(w)) ==> pt.HasTable(w)
    {
      RangeMapMembers(m0, start, frames, i, prot.write);
      RangeMapStep(m0, start, frames, i, prot.write);
      var e := pt.UpdateProt(start + i, prot);
      assert e == Ok;
      Overwrite(maps0, pt.active, m0 + RangeMap(start, frames[..i], prot.write),
                m0 + RangeMap(start, frames[..i + 1], prot.write));
    }
    RangeMapMembers(m0, start, frames, n, prot.write);
  }

  lemma Remap(maps: UserTables, s: nat, start: nat, frames: seq<nat>, write: bool)
    requires s in maps
    ensures var m := maps[s] - PageSet(start, |frames|);
      && RangeFree(m, start, |frames|)
      && maps[s := m][s := m + RangeMap(start, frames, write)] == maps[s := maps[s] + RangeMap(start, frames, write)]
  {
    PageSetExact(start, |frames|);
    var m := maps[s] - PageSet(start, |frames|);
    assert m + RangeMap(start, frames, write) == maps[s] + RangeMap(start, frames, write);
  }

  /** Beyond `rf0`, the region frames are frames lo .. hi-1 of region `r`. */
  ghost predicate Taken(rf0: map<nat, Owner>, rf: map<nat, Owner>, r: nat, frames: seq<nat>, lo: nat, hi: nat) {
    && lo <= hi <= |frames|
    && (forall j :: lo <= j < hi ==>
          frames[j] != 0 && frames[j] !in rf0 && frames[j] in rf && rf[frames[j]] == RegionFrame(r, j))
    && (forall f :: f in rf0 ==> f in rf && rf[f] == rf0[f])
    && (forall f :: f in rf && f !in rf0 ==>
          rf[f].RegionFrame? && rf[f].region == r && lo <= rf[f].index < hi && frames[rf[f].index] == f)
  }

  lemma TakeNone(rf: map<nat, Owner>, r: nat, frames: seq<nat>)
    ensures Taken(rf, rf, r, frames, 0, 0)
  {
  }

  lemma TakeOne(rf0: map<nat, Owner>, rf: map<nat, Owner>, r: nat, frames: seq<nat>, i: nat, f: nat)
    requires Taken(rf0, rf, r, frames, 0, i) && i < |frames| && f != 0 && f !in rf
    ensures Taken(rf0, rf[f := RegionFrame(r, i)], r, frames[i := f], 0, i + 1)
  {
  }

  lemma DropOne(rf0: map<nat, Owner>, rf: map<nat, Owner>, r: nat, frames: seq<nat>, i: nat, hi: nat)
    requires Taken(rf0, rf, r, frames, i, hi) && i < hi
    ensures Taken(rf0, rf - {frames[i]}, r, frames, i + 1, hi)
  {
    forall j | i + 1 <= j < hi
      ensures frames[j] != frames[i]
    {
      assert rf[frames[i]] == RegionFrame(r, i) && rf[frames[j]] == RegionFrame(r, j);
    }
  }

  lemma NoneTaken(rf0: map<nat, Owner>, rf: map<nat, Owner>, r: nat, frames: seq<nat>, hi: nat)
    requires Taken(rf0, rf, r, frames, hi, hi)
    ensures rf == rf0
  {
  }

  /** The frame loop of `__region_init`: fills `frames` until no frame is left. */
  method AllocFrames(pt: Paging, r: nat, n: nat) returns (ok: bool, frames: seq<nat>, ghost taken: nat)
    requires pt.Valid()
    modifies pt.pm`free, pt.pm`used, pt.pm`owner
    ensures pt.Valid()
    ensures |frames| == n && Taken(old(RegionFrames(pt.pm.owner)), RegionFrames(pt.pm.owner), r, frames, 0, taken)
    ensures forall j :: taken <= j < n ==> frames[j] == 0
    ensures ok <==> taken == n
    ensures ok <==> n <= |old(pt.pm.free)|
    ensures |pt.pm.free| == |old(pt.pm.free)| - taken
  {
    hide *;
    ghost var rf0 := RegionFrames(pt.pm.owner);
    frames := seq(n, _ => 0);
    TakeNone(rf0, r, frames);
    ok, taken := true, 0;
    var i := 0;
    while ok && i < n
      invariant 0 <= i <= n && |frames| == n && pt.Valid()
      invariant ok ==> taken == i
      invariant !ok ==> taken < n && pt.pm.free == []
      invariant Taken(rf0, RegionFrames(pt.pm.owner), r, frames, 0, taken)
      invariant forall j :: taken <= j < n ==> frames[j] == 0
      invariant |pt.pm.free| == |old(pt.pm.free)| - taken
    {
      ghost var owner, rf := pt.pm.owner, RegionFrames(pt.pm.owner);
      var f := pt.AllocRegionFrame(r, i);
      if f == 0 {
        ok := false;
        assert frames[i := 0] == frames;
      } else {
        RegionFramesOwned(owner, f);
        TakeOne(rf0, rf, r, frames, i, f);
        taken := taken + 1;
      }
      frames := frames[i := f];
      i := i + 1;
    }
  }

  lemma RegionFramesOwned(o: map<nat, Owner>, f: nat)
    ensures f in RegionFrames(o) ==> f in o
  {
  }

  /** The frame loop of `region_reset`: gives back every frame that was obtained, once. */
  method FreeFrames(pt: Paging, r: nat, frames: seq<nat>, ghost taken: nat, ghost rf0: map<nat, Owner>)
    requires pt.Valid() && Taken(rf0, RegionFrames(pt.pm.owner), r, frames, 0, taken)
    requires forall j :: taken <= j < |frames| ==> frames[j] == 0
    modifies pt.pm`free, pt.pm`used, pt.pm`owner
    ensures pt.Valid() && RegionFrames(pt.pm.owner) == rf0
    ensures |pt.pm.free| == |old(pt.pm.free)| + taken
  {
    for i := 0 to |frames|
      invariant pt.Valid()
      invariant Taken(rf0, RegionFrames(pt.pm.owner), r, frames, if i < taken then i else taken, taken)
      invariant |pt.pm.free| == |old(pt.pm.free)| + if i < taken then i else taken
    {
      hide Wf, Paging.Valid;
      if frames[i] != 0 {
        DropOne(rf0, RegionFrames(pt.pm.owner), r, frames, i, taken);
        pt.FreeRegionFrame(frames[i]);
      }
    }
    NoneTaken(rf0, RegionFrames(pt.pm.owner), r, frames, taken);
  }

  /** A region made of frames that were just taken. */
  lemma AddRegion(regions: Regions, rf0: map<nat, Owner>, rf: map<nat, Owner>, mem: Memory, mem': Memory, r: nat,
                  prot: Prot, frames: seq<nat>, stale: seq<Page>)
    requires RegionsOk(regions, rf0, mem, r) && Taken(rf0, rf, r, frames, 0, |frames|) && prot.user
    requires Filled(mem, mem', frames, stale) && |stale| == |frames| && forall k :: 0 <= k < |stale| ==>
               |stale[k]| == PAGE_SIZE
    ensures RegionsOk(regions[r := Region(prot, frames, 1)], rf, mem', r + 1)
    ensures SameBacking(rf0, rf, regions, regions[r := Region(prot, frames, 1)], mem, mem')
    ensures r !in regions && forall k :: 0 <= k < |frames| ==> frames[k] !in rf0
    ensures forall k :: 0 <= k < |frames| ==> frames[k] in mem' && mem'[frames[k]] == stale[k]
  {
    assert forall f :: f in rf0 ==> f !in frames;
    AddedOk(regions, rf0, rf, mem, mem', r, prot, frames, stale);
    AddedBacking(regions, rf0, rf, mem, mem', r, Region(prot, frames, 1), stale);
    hide RegionsOk, SameBacking;
  }

  lemma AddedOk(regions: Regions, rf0: map<nat, Owner>, rf: map<nat, Owner>, mem: Memory, mem': Memory, r: nat,
                prot: Prot, frames: seq<nat>, stale: seq<Page>)
    requires RegionsOk(regions, rf0, mem, r) && Taken(rf0, rf, r, frames, 0, |frames|) && prot.user
    requires Filled(mem, mem', frames, stale) && |stale| == |frames| && forall k :: 0 <= k < |stale| ==>
               |stale[k]| == PAGE_SIZE
    requires forall f :: f in rf0 ==> f !in frames
    ensures RegionsOk(regions[r := Region(prot, frames, 1)], rf, mem', r + 1)
  {
  }

  lemma AddedBacking(regions: Regions, rf0: map<nat, Owner>, rf: map<nat, Owner>, mem: Memory, mem': Memory, r: nat,
                     region: Region, stale: seq<Page>)
    requires RegionsOk(regions, rf0, mem, r) && Taken(rf0, rf, r, region.frames, 0, |region.frames|)
    requires Filled(mem, mem', region.frames, stale) && forall f :: f in rf0 ==> f !in region.frames
    ensures SameBacking(rf0, rf, regions, regions[r := region], mem, mem')
  {
  }

  lemma TakenWithout(regions: Regions, rf0: map<nat, Owner>, rf: map<nat, Owner>, mem: Memory, r: nat, frames: seq<nat>)
    requires RegionsOk(regions, rf0, mem, r) && Taken(rf0, rf, r, frames, 0, |frames|)
    ensures Without(rf, r) == rf0
  {
  }

  lemma NothingChanged(rf: map<nat, Owner>, regions: Regions, mem: Memory)
    ensures SameBacking(rf, rf, regions, regions, mem, mem)
  {
  }

  /** The frames hold `pages`; all other memory is as before. */
  ghost predicate Filled(mem: Memory, mem': Memory, frames: seq<nat>, pages: seq<Page>) {
    && |pages| == |frames|
    && (forall k :: 0 <= k < |frames| ==> frames[k] in mem' && mem'[frames[k]] == pages[k])
    && (forall f :: f !in frames ==> (f in mem <==> f in mem') && (f in mem ==> mem'[f] == mem[f]))
  }

  ghost function Without(rf: map<nat, Owner>, r: nat): map<nat, Owner> {
    map f | f in rf && !(rf[f].RegionFrame? && rf[f].region == r) :: rf[f]
  }

  lemma RegionTaken(regions: Regions, rf: map<nat, Owner>, mem: Memory, next: nat, r: nat)
    requires RegionsOk(regions, rf, mem, next) && r in regions && 0 !in rf
    ensures Taken(Without(rf, r), rf, r, regions[r].frames, 0, |regions[r].frames|)
    ensures RegionsOk(regions - {r}, Without(rf, r), mem, next)
  {
  }

  /** Dropping a region that no mapping holds. */
  lemma TablesFewer(regions: Regions, regions': Regions, mappings: Mappings, home: Homes, um: UserTables, next: nat,
                    r: nat)
    requires MapsOk(mappings, home, regions, next) && TablesOk({}, regions, mappings, home, um) &&
             regions' == regions - {r}
    requires forall m :: m in mappings ==> mappings[m].region != r
    ensures MapsOk(mappings, home, regions', next) && TablesOk({}, regions', mappings, home, um)
  {
    forall m, v: nat | m in mappings && home[m] !in {} && Covers(mappings[m], v)
      ensures PageOk(m, v, {}, regions', mappings, home, um)
    {
      assert PageOk(m, v, {}, regions, mappings, home, um);
    }
  }

  lemma FewerBacking(rf0: map<nat, Owner>, rf: map<nat, Owner>, regions0: Regions, regions: Regions, mem0: Memory,
                     mem: Memory)
    requires SameBacking(rf0, rf, regions0, regions, mem0, mem)
    ensures SameBacking(rf0, rf, regions0, regions, mem, mem)
  {
  }

  /** An address space lives as long as its process or the processor refers to it. */
  ghost predicate SpacesFit(spaces: map<nat, Space>, held: set<nat>, current: Option<nat>, registered: seq<nat>,
                            active: nat) {
    && spaces.Keys == Elems(registered) && held <= spaces.Keys
    && (current.None? ==> active !in registered)
    && (current.Some? ==> current.value in spaces && active == current.value)
    && forall s :: s in spaces ==>
         spaces[s].refcnt == (if s in held then 1 else 0) + (if current == Some(s) then 1 else 0) &&
           spaces[s].refcnt >= 1
  }

  lemma SpacesKept(spaces: map<nat, Space>, spaces': map<nat, Space>, held: set<nat>, current: Option<nat>,
                   registered: seq<nat>, active: nat)
    requires SpacesFit(spaces, held, current, registered, active) && SameSpaces(spaces, spaces')
    ensures SpacesFit(spaces', held, current, registered, active)
  {
  }

  lemma CurrentSpace(spaces: map<nat, Space>, held: set<nat>, current: Option<nat>, registered: seq<nat>, active: nat)
    requires SpacesFit(spaces, held, current, registered, active) && current.Some?
    ensures current.value in spaces && active == current.value && current.value in registered
  {
  }

  lemma FitCreate(spaces: map<nat, Space>, held: set<nat>, current: Option<nat>, registered: seq<nat>, active: nat,
                  c: nat)
    requires SpacesFit(spaces, held, current, registered, active) && c !in spaces && c != active
    ensures SpacesFit(spaces[c := Space([], 1)], held + {c}, current, registered + [c], active)
  {
    assert Elems(registered + [c]) == Elems(registered) + {c};
  }

  /** The process drops its reference: the space stays only if the processor is still on it. */
  lemma FitExit(spaces: map<nat, Space>, held: set<nat>, current: Option<nat>, registered: seq<nat>, active: nat,
                s: nat,
                registered': seq<nat>)
    requires SpacesFit(spaces, held, current, registered, active) && s in held
    requires forall x :: x in registered' <==> x in registered && x != s
    ensures s in spaces && s in registered
    ensures var spaces' := spaces[s := spaces[s].(refcnt := spaces[s].refcnt - 1)];
      && (spaces'[s].refcnt == 0 <==> current != Some(s))
      && (current == Some(s) ==> SpacesFit(spaces', held - {s}, current, registered, active))
      && (current != Some(s) ==> SpacesFit(spaces' - {s}, held - {s}, current, registered', active) && active != s)
  {
    assert Elems(registered') == Elems(registered) - {s};
  }

  lemma Registered(spaces: map<nat, Space>, held: set<nat>, current: Option<nat>, registered: seq<nat>, active: nat)
    requires SpacesFit(spaces, held, current, registered, active)
    ensures forall s :: s in spaces <==> s in registered
  {
  }

  /** Every space is held by one process, and by nobody else. */
  ghost predicate OnlyHeld(spaces: map<nat, Space>, held: set<nat>) {
    forall s :: s in spaces ==> s in held && spaces[s].refcnt == 1
  }

  /** The processor lets go of the current space, which may then be nobody's. */
  lemma FitLeave(spaces: map<nat, Space>, held: set<nat>, current: Option<nat>, registered: seq<nat>, active: nat)
    requires SpacesFit(spaces, held, current, registered, active)
    ensures spaces.Keys == Elems(registered) && held <= spaces.Keys
    ensures current.None? ==> OnlyHeld(spaces, held) && active !in spaces && active !in registered
    ensures current.Some? ==>
              var s := current.value;
              && s in spaces && s in registered && active == s
              && var spaces' := spaces[s := spaces[s].(refcnt := spaces[s].refcnt - 1)];
              && (spaces'[s].refcnt == 0 <==> s !in held)
              && (s in held ==> OnlyHeld(spaces', held))
              && (s !in held ==> OnlyHeld(spaces' - {s}, held))
  {
  }

  lemma FitSwitch(spaces: map<nat, Space>, held: set<nat>, registered: seq<nat>, c: nat)
    requires spaces.Keys == Elems(registered) && held <= spaces.Keys && c in held
    requires OnlyHeld(spaces, held)
    ensures c in registered && SpacesFit(spaces[c := spaces[c].(refcnt := 2)], held, Some(c), registered, c)
  {
  }

  lemma NoSpaces(spaces: map<nat, Space>, registered: seq<nat>, active: nat)
    requires |spaces| == 0 && registered == []
    ensures SpacesFit(spaces, {}, None, registered, active)
  {
  }

  lemma SourceSizes(regions: Regions, rf: map<nat, Owner>, mem: Memory, next: nat, r: nat)
    requires RegionsOk(regions, rf, mem, next) && r in regions
    ensures regions[r].prot.user
    ensures forall k :: 0 <= k < |regions[r].frames| ==>
              regions[r].frames[k] in mem && |mem[regions[r].frames[k]]| == PAGE_SIZE
  {
  }

  /** Filling the frames of a region that is new since `rf0` does not disturb what backs the old ones. */
  lemma CopyBacking(rf0: map<nat, Owner>, rf: map<nat, Owner>, regions0: Regions, regions: Regions, mem0: Memory,
                    mem1: Memory, mem2: Memory, next: nat, r2: nat)
    requires SameBacking(rf0, rf, regions0, regions, mem0, mem1)
    requires r2 in regions && Without(rf, r2) == rf0
    requires forall k :: 0 <= k < |regions[r2].frames| ==>
               regions[r2].frames[k] in rf && rf[regions[r2].frames[k]] == RegionFrame(r2, k)
    requires forall f :: f !in regions[r2].frames ==> (f in mem2 <==> f in mem1) && (f in mem2 ==> mem2[f] == mem1[f])
    ensures SameBacking(rf0, rf, regions0, regions, mem0, mem2)
  {
    forall f | f in rf0
      ensures f !in regions[r2].frames
    {
    }
  }

  lemma CopyPlan(regions: Regions, mem: Memory, r: nat, r2: nat)
    requires r in regions && r2 in regions && SameContents(mem, regions[r].frames, regions[r2].frames)
    ensures |regions[r].frames| == |regions[r2].frames|
  {
  }

  lemma NowWritable(m: map<nat, Pte>, mp: Mapping, frames: seq<nat>, write: bool)
    requires |frames| == mp.pages
    ensures write ==> AllWritable(m + RangeMap(mp.start, frames, write), mp)
  {
    if write {
      forall v: nat | Covers(mp, v)
        ensures v in m + RangeMap(mp.start, frames, write) && (m + RangeMap(mp.start, frames, write))[v].rw
      {
        RangeWritable(m, mp.start, frames, v);
      }
    }
  }

  lemma SelfContents(regions: Regions, mem: Memory, r: nat)
    requires r in regions && forall k :: 0 <= k < |regions[r].frames| ==> regions[r].frames[k] in mem
    ensures SameContents(mem, regions[r].frames, regions[r].frames)
  {
  }

  lemma RefPositive(regions: Regions, rf: map<nat, Owner>, mem: Memory, next: nat, r: nat)
    requires RegionsOk(regions, rf, mem, next) && r in regions
    ensures regions[r].refcnt >= 1
  {
  }

  lemma PageWritable(um: map<nat, Pte>, mp: Mapping, v: nat)
    requires AllWritable(um, mp) && Covers(mp, v)
    ensures v in um && um[v].rw
  {
  }

  lemma WithoutKeeps(rf: map<nat, Owner>, r: nat)
    ensures forall f :: f in rf && rf[f].RegionFrame? && rf[f].region != r ==>
              f in Without(rf, r) && Without(rf, r)[f] == rf[f]
  {
  }

  lemma ForgetList(spaces: map<nat, Space>, home: Homes, s: nat)
    requires ListsOk(spaces, home) && forall m :: m in home ==> home[m] != s
    ensures ListsOk(spaces - {s}, home)
  {
  }

  lemma ViewsForget(spaces: map<nat, Space>, um: UserTables, rf: map<nat, Owner>, regions: Regions, mem: Memory, s: nat)
    ensures Views(spaces - {s}, um - {s}, rf, regions, mem) == Views(spaces - {s}, um, rf, regions, mem)
    ensures Views(spaces - {s}, um, rf, regions, mem) == Views(spaces, um, rf, regions, mem) - {s}
  {
  }

  /** Only reference counts of address spaces differ. */
  lemma RefsOnly(spaces: map<nat, Space>, spaces': map<nat, Space>, home: Homes, um: UserTables, rf: map<nat, Owner>,
                 regions: Regions, mem: Memory)
    requires ListsOk(spaces, home) && spaces'.Keys == spaces.Keys
    requires forall s :: s in spaces ==> spaces'[s].maps == spaces[s].maps
    ensures ListsOk(spaces', home) && Views(spaces', um, rf, regions, mem) == Views(spaces, um, rf, regions, mem)
  {
  }

  /** The boot directory is no process's address space. */
  lemma BootSpace(regions: Regions, mappings: Mappings, home: Homes, spaces: map<nat, Space>, um: UserTables, next: nat,
                  boot: nat, rf: map<nat, Owner>, mem: Memory)
    requires MapsOk(mappings, home, regions, next) && ListsOk(spaces, home) && boot !in spaces
    requires DisjointOk({}, mappings, home) && TablesOk({}, regions, mappings, home, um)
    ensures TablesOk({}, regions, mappings, home, um - {boot})
    ensures Views(spaces, um - {boot}, rf, regions, mem) == Views(spaces, um, rf, regions, mem)
  {
    HideSpace(regions, mappings, home, um, next, boot);
    ForgetSpace(regions, mappings, home, um, next, boot);
  }

  lemma SourceRegion(mappings: Mappings, home: Homes, regions: Regions, next: nat, m: nat)
    requires MapsOk(mappings, home, regions, next) && m in mappings
    ensures mappings[m].region in regions
  {
  }

  /** What a mapping's move from the shared region to its copy `r2` does to the books. */
  lemma SplitDone(spaces: map<nat, Space>, regions: Regions, regions': Regions, mappings: Mappings, home: Homes,
                  um: UserTables,
                  um': UserTables, m: nat, r2: nat, rf: map<nat, Owner>, mem: Memory, nextRegion: nat, nextMapping: nat)
    requires m in mappings && m in home && r2 in regions && mappings[m].region in regions && mappings[m].region != r2
    requires forall q :: q in mappings ==> mappings[q].region != r2
    requires SameContents(mem, regions[mappings[m].region].frames, regions[r2].frames)
    requires regions[mappings[m].region].prot == regions[r2].prot && home[m] in um
    requires var r := mappings[m].region; regions' == regions[r := regions[r].(refcnt := regions[r].refcnt - 1)]
    requires um' == um[home[m] := um[home[m]] + RangeMap(mappings[m].start, regions[r2].frames, regions[r2].prot.write)]
    requires Shape({}, regions, mappings, home, spaces, rf, um, mem, nextRegion, nextMapping) &&
             RefsOk(regions, mappings, {r2})
    ensures m in mappings && MapsOk(Moved(mappings, m, r2), home, regions', nextMapping)
    ensures m in mappings && DisjointOk({}, Moved(mappings, m, r2), home)
    ensures m in mappings && TablesOk({}, regions', Moved(mappings, m, r2), home, um')
    ensures m in mappings && RefsOk(regions', Moved(mappings, m, r2), {})
    ensures Views(spaces, um', rf, regions', mem) == Views(spaces, um, rf, regions, mem)
    ensures r2 in regions && m in mappings && m in home && home[m] in um' &&
            (regions[r2].prot.write ==> AllWritable(um'[home[m]], mappings[m]))
  {
    hide RegionsOk, DisjointOk, TablesOk, RefsOk, ListsOk, MapsOk, Views, RangeMap, SameContents, Moved, AllWritable;
    var r, mp, s := mappings[m].region, mappings[m], home[m];
    PagesOf(regions, mappings, home, um, nextMapping, m);
    CopyPlan(regions, mem, r, r2);
    SplitTables(regions, mappings, home, um, m, r2, nextMapping, um');
    TablesRegions({}, regions, regions', Moved(mappings, m, r2), home, um', nextMapping);
    SplitRefs(regions, mappings, m, r2);
    ViewsSplit(spaces, um, um', s, mp.start, r, r2, rf, regions, mem, nextRegion);
    ViewsRefcnt(spaces, um', rf, regions, mem, r, regions[r].refcnt - 1);
    NowWritable(um[s], mp, regions[r2].frames, regions[r2].prot.write);
  }

  /** A fresh region `r2` now holds what region `r` holds, and nobody sees a difference. */
  lemma CopyDone(spaces: map<nat, Space>, mappings: Mappings, home: Homes, um: UserTables, nextMapping: nat,
                 rf0: map<nat, Owner>, rf: map<nat, Owner>, regions0: Regions, regions: Regions, mem0: Memory,
                   mem1: Memory,
                 mem: Memory, nextRegion0: nat, nextRegion: nat, r: nat, r2: nat)
    requires r in regions && r2 in regions && |regions[r].frames| == |regions[r2].frames|
    requires forall k :: 0 <= k < |regions[r].frames| ==>
               regions[r].frames[k] in mem1 && regions[r].frames[k] !in regions[r2].frames
    requires forall k :: 0 <= k < |regions[r2].frames| ==>
               regions[r2].frames[k] in mem && mem[regions[r2].frames[k]] == mem1[regions[r].frames[k]]
    requires forall f :: f !in regions[r2].frames ==> (f in mem <==> f in mem1) && (f in mem ==> mem[f] == mem1[f])
    requires Without(rf, r2) == rf0 && SameBacking(rf0, rf, regions0, regions, mem0, mem1)
    requires RegionsOk(regions, rf, mem1, nextRegion) && RegionsOk(regions0, rf0, mem0, nextRegion0)
    requires MapsOk(mappings, home, regions0, nextMapping) && TablesOk({}, regions0, mappings, home, um)
    ensures RegionsOk(regions, rf, mem, nextRegion) && SameContents(mem, regions[r].frames, regions[r2].frames)
    ensures Views(spaces, um, rf, regions, mem) == Views(spaces, um, rf0, regions0, mem0)
  {
    FramesOwned(regions, rf, mem1, nextRegion, r2);
    hide RegionsOk, TablesOk, MapsOk, Views, SameBacking, Without;
    SourceSizes(regions, rf, mem1, nextRegion, r);
    RegionsRewritten(regions, rf, mem1, mem, nextRegion, r2);
    CopyBacking(rf0, rf, regions0, regions, mem0, mem1, mem, nextRegion, r2);
    ViewsKept(spaces, regions0, mappings, home, rf0, um, mem0, nextRegion0, nextMapping, rf, regions, mem);
  }

  lemma FramesOwned(regions: Regions, rf: map<nat, Owner>, mem: Memory, next: nat, r: nat)
    requires RegionsOk(regions, rf, mem, next) && r in regions
    ensures forall k :: 0 <= k < |regions[r].frames| ==>
              regions[r].frames[k] in rf && rf[regions[r].frames[k]] == RegionFrame(r, k)
  {
  }

  lemma UnrefRegions(regions: Regions, rf: map<nat, Owner>, mem: Memory, next: nat, r: nat)
    requires RegionsOk(regions, rf, mem, next) && r in regions
    ensures regions[r].refcnt > 0
    ensures regions[r].refcnt > 1 ==>
              RegionsOk(regions[r := regions[r].(refcnt := regions[r].refcnt - 1)], rf, mem, next)
    ensures RegionsOk(regions - {r}, Without(rf, r), mem, next)
  {
  }

  lemma HeldSpace(spaces: map<nat, Space>, held: set<nat>, current: Option<nat>, registered: seq<nat>, active: nat,
                  c: nat)
    requires SpacesFit(spaces, held, current, registered, active) && c in spaces
    ensures c in registered && (current.Some? ==> current.value in registered)
  {
  }

  lemma ViewsSameSpaces(spaces: map<nat, Space>, spaces': map<nat, Space>, um: UserTables, rf: map<nat, Owner>,
                        regions: Regions, mem: Memory, c: nat)
    requires spaces.Keys == spaces'.Keys
    ensures Views(spaces', um, rf, regions, mem) == Views(spaces, um, rf, regions, mem)
    ensures Views(spaces' - {c}, um, rf, regions, mem) == Views(spaces - {c}, um, rf, regions, mem)
  {
  }

  lemma HeldFacts(spaces: map<nat, Space>, held: set<nat>, current: Option<nat>, registered: seq<nat>, active: nat)
    requires SpacesFit(spaces, held, current, registered, active)
    ensures forall c :: c in held ==> c in spaces
  {
  }

  lemma ViewsDomain(spaces: map<nat, Space>, um: UserTables, rf: map<nat, Owner>, regions: Regions, mem: Memory)
    ensures forall c :: c in Views(spaces, um, rf, regions, mem) ==> c in spaces
  {
  }

  lemma CoversBytes(mp: Mapping, a: nat)
    ensures Covers(mp, a / PAGE_SIZE) <==> mp.start * PAGE_SIZE <= a < (mp.start + mp.pages) * PAGE_SIZE
  {
  }

  lemma SilentStep(e: EagerState, event: Event)
    requires event == Silent
    ensures EagerStep(e, event) == Some(e)
  {
  }

  lemma BreakThere(e: EagerState, breaks: map<nat, nat>, s: nat)
    requires BreaksFit(e, breaks) && s in breaks
    ensures s in e && (breaks[s] % PAGE_SIZE == 0 || breaks[s] / PAGE_SIZE in e[s])
  {
  }

  lemma BreakMoved(e: EagerState, breaks: map<nat, nat>, s: nat, brk: nat)
    requires BreaksFit(e, breaks) && s in e && (brk % PAGE_SIZE == 0 || brk / PAGE_SIZE in e[s])
    ensures BreaksFit(e, breaks[s := brk])
  {
  }

  datatype StoreOutcome = Stored | Killed | Panicked

  /** Exactly one mapping is new: `id`, of the pages start .. start+n-1 in space `s`. */
  ghost predicate Added(mappings: Mappings, mappings': Mappings, home: Homes, home': Homes, id: nat, s: nat, start: nat,
                        n: nat, growsDown: bool)
  {
    && id !in mappings && id in mappings' && mappings' == mappings[id := mappings'[id]] && home' == home[id := s]
    && mappings'[id].start == start && mappings'[id].pages == n && mappings'[id].growsDown == growsDown
  }

  ghost predicate KeepsMappings(mappings: Mappings, mappings': Mappings, home: Homes, home': Homes) {
    forall m :: m in mappings && m in home ==>
        m in mappings' && mappings'[m] == mappings[m] && m in home' && home'[m] == home[m]
  }

  lemma AddedKeeps(mappings: Mappings, mappings': Mappings, home: Homes, home': Homes, id: nat, s: nat, start: nat,
                   n: nat)
    requires Added(mappings, mappings', home, home', id, s, start, n, false)
    ensures KeepsMappings(mappings, mappings', home, home') && id in mappings' && id in home' && home'[id] == s
    ensures mappings'[id].start == start && mappings'[id].pages == n
  {
  }

  /** Region `r2` is new, private to the running code, and holds what region `r` holds. */
  ghost predicate CopyOf(regions0: Regions, regions: Regions, mappings: Mappings, mem: Memory, r: nat, r2: nat) {
    && r in regions0 && r2 !in regions0 && r2 in regions && regions == regions0[r2 := regions[r2]]
    && regions[r2].refcnt == 1 && regions[r2].prot == regions[r].prot
    && SameContents(mem, regions[r].frames, regions[r2].frames)
    && forall q :: q in mappings ==> mappings[q].region != r2
  }

  /** The kernel pages of `heap` lead to their frames, and no two of them to the same one. */
  ghost predicate KernelFits(kernel: map<nat, Pte>, heap: map<nat, nat>) {
    && (forall v :: v in heap ==> v in kernel && kernel[v] == Pte(true, true, false, heap[v]))
    && (forall v, w :: v in heap && w in heap && v != w ==> kernel[v].address != kernel[w].address)
  }

  lemma KernelAbsent(kernel: map<nat, Pte>, heap: map<nat, nat>, v: nat)
    requires KernelFits(kernel, heap)
    ensures v !in kernel ==> v !in heap
  {
  }

  lemma KernelGrows(kernel: map<nat, Pte>, heap: map<nat, nat>, v: nat, f: nat)
    requires KernelFits(kernel, heap) && v !in kernel && f !in heap.Values
    ensures KernelFits(kernel[v := Pte(true, true, false, f)], heap[v := f])
  {
    assert forall w :: w in heap ==> heap[w] in heap.Values;
  }

  /** The requests of a run. Those that the kernel's callers must not make are ignored. */
  datatype Request =
    | SpawnRequest(heapOk: bool)
    | ForkRequest(heapOk: bool, copies: nat)
    | ExitRequest(space: nat)
    | SwitchRequest(space: nat)
    | MapRequest(addr: nat, size: nat, write: bool, growsDown: bool, heapOk: bool, stale: seq<Page>)
    | LoadRequest(addr: nat)
    | StoreRequest(addr: nat, value: int, heapOk: bool, blank: Page)
    | KernelPageRequest(page: nat)
    | ImageRequest(brk: nat)
    | SbrkRequest(increment: nat, heapOk: bool, blank: Page)

  predicate MapAllowed(addr: nat, size: nat, stale: seq<Page>) {
    && addr % PAGE_SIZE == 0 && size > 0 && addr + size <= USER_PAGES * PAGE_SIZE
    && |stale| == (size + PAGE_SIZE - 1) / PAGE_SIZE && forall k :: 0 <= k < |stale| ==> |stale[k]| == PAGE_SIZE
  }

  lemma PagesNeeded(addr: nat, size: nat, stale: seq<Page>)
    requires MapAllowed(addr, size, stale)
    ensures |stale| == (size + PAGE_SIZE - 1) / PAGE_SIZE > 0 && addr / PAGE_SIZE + |stale| <= USER_PAGES
    ensures forall k :: 0 <= k < |stale| ==> |stale[k]| == PAGE_SIZE
  {
  }

  datatype Range = Range(start: nat, pages: nat)

  /**
   * A mapping as `sys_sbrk` sees it: the page after its last one, whether it may be written and whether it grows down.
   */
  datatype Top = Top(end: nat, write: bool, growsDown: bool)

  /**
   * What a request depends on: the current space and those held by processes, what they observe, their breaks, the
   * number of free frames, the directory entries with a page table, the number of mappings, the mappings of the
   * current space whose region is shared, those around its break, the kernel's pages and the frames given to them.
   */
  datatype Moment = Moment(current: Option<nat>, held: set<nat>, memory: EagerState, breaks: map<nat, nat>, free: nat,
                           slots: set<nat>, maps: nat, shared: set<Range>, tops: set<Top>, kernel: map<nat, Pte>,
                           heap: map<nat, nat>)

  /** There is memory for `n` new pages from `start`, their tables included, and nothing is in the way. */
  ghost predicate Grants(m: Moment, heapOk: bool, start: nat, n: nat) {
    && m.current.Some? && m.current.value in m.memory && heapOk && RangeFree(m.memory[m.current.value], start, n)
    && n + Missing(m.slots, start, n) <= m.free
  }

  /** Neither the current space nor the processes, their breaks or the kernel's pages have changed. */
  ghost predicate Kept(m: Moment, m': Moment) {
    && m'.current == m.current && m'.held == m.held && m'.breaks == m.breaks && m'.kernel == m.kernel
    && m'.heap == m.heap
  }

  /** A process with space `c` has joined, at the price of `cost` frames; its break is 0. */
  ghost predicate Joined(m: Moment, m': Moment, c: nat, cost: nat) {
    && m'.current == m.current && m'.held == m.held + {c} && m'.breaks == m.breaks[c := 0] && m'.kernel == m.kernel
    && m'.free == m.free - cost && m'.slots == m.slots && m'.heap == m.heap
  }

  /** The pages `start` .. `start + n - 1` of the current space have been paid for, their tables included. */
  ghost predicate Paid(m: Moment, m': Moment, start: nat, n: nat) {
    m'.free == m.free - n - Missing(m.slots, start, n) && m'.slots == Touched(m.slots, start, n)
  }

  /** A store needs a copy of a shared mapping, and there is no memory for it. */
  ghost predicate Blocked(m: Moment, heapOk: bool, v: nat) {
    exists q :: q in m.shared && q.start <= v < q.start + q.pages && !(heapOk && q.pages <= m.free)
  }

  /** After a store to page `v`, `free` frames are left: the frames of a copy are paid for, nothing else. */
  ghost predicate CopyPaid(m: Moment, v: nat, free: int) {
    && (forall q :: q in m.shared && q.start <= v < q.start + q.pages ==> free == m.free - q.pages)
    && ((forall q :: q in m.shared ==> !(q.start <= v < q.start + q.pages)) ==> free == m.free)
  }

  /** The pages that a moved break asks for. */
  datatype Growth = Inside | Fresh(start: nat, pages: nat, write: bool)

  ghost function GrowthBeyond(t: Top, brk: nat, increment: nat): Growth {
    if brk + increment - 1 < t.end * PAGE_SIZE then Inside
    else Fresh(t.end, (brk + increment - (t.end * PAGE_SIZE - 1) + PAGE_SIZE - 1) / PAGE_SIZE, t.write)
  }

  ghost function GrowthOf(tops: set<Top>, brk: nat, increment: nat): Growth {
    if tops == {} then Fresh(brk / PAGE_SIZE, (increment + PAGE_SIZE - 1) / PAGE_SIZE, true)
    else
      var t :| t in tops;
      GrowthBeyond(t, brk, increment)
  }

  /**
   * What a process gets from a moved break: every byte up to the new break is there; the pages it had are untouched,
   * and the new ones lie between the breaks, hold `blank` and may be written if the page of the old break may, or if
   * there is none.
   */
  ghost predicate Extended(e: EagerSpace, e': EagerSpace, brk: nat, increment: nat, blank: Page) {
    && (forall v :: v in e ==> v in e' && e'[v] == e[v])
    && (forall v :: v in e' && v !in e ==>
          && brk / PAGE_SIZE <= v && v * PAGE_SIZE <= brk + increment
          && e'[v] == Cell(if brk / PAGE_SIZE in e then e[brk / PAGE_SIZE].writable else true, blank))
    && (forall a :: brk <= a < brk + increment ==> a / PAGE_SIZE in e')
  }

  /** ... in the current space, and nothing in the others. */
  ghost predicate Stretched(e: EagerState, e': EagerState, current: Option<nat>, brk: nat, increment: nat,
                            blank: Page) {
    && current.Some? && current.value in e && current.value in e' && e' == e[current.value := e'[current.value]]
    && Extended(e[current.value], e'[current.value], brk, increment, blank)
  }

  /** The mapping `t` holds the break, and reaches from there to its end. */
  ghost predicate TopFits(t: Top, e: EagerSpace, brk: nat) {
    && brk / PAGE_SIZE in e && e[brk / PAGE_SIZE].writable == t.write
    && forall v :: brk / PAGE_SIZE <= v < t.end ==> v in e
  }

  lemma BeyondExtends(e: EagerSpace, e': EagerSpace, t: Top, brk: nat, increment: nat, blank: Page)
    requires TopFits(t, e, brk) && brk < t.end * PAGE_SIZE && increment > 0
    requires match GrowthBeyond(t, brk, increment)
             case Inside => e' == e
             case Fresh(start, n, write) => e' == EagerMap(e, start, write, Blanks(n, blank)) && RangeFree(e, start, n)
    ensures Extended(e, e', brk, increment, blank)
  {
    var g := GrowthBeyond(t, brk, increment);
    if g.Fresh? {
      RoundUp(brk + increment - (t.end * PAGE_SIZE - 1), g.pages);
      BlankCells(e, e', g.start, g.write, g.pages, blank);
      hide EagerMap, FreshCell;
      forall a | brk <= a < brk + increment
        ensures a / PAGE_SIZE in e'
      {
        if a / PAGE_SIZE < t.end {
          assert brk / PAGE_SIZE <= a / PAGE_SIZE;
        }
      }
    } else {
      forall a | brk <= a < brk + increment
        ensures a / PAGE_SIZE in e'
      {
        assert brk / PAGE_SIZE <= a / PAGE_SIZE < t.end;
      }
    }
  }

  /** ... and if no mapping holds the break, which is page aligned then. */
  lemma AloneExtends(e: EagerSpace, e': EagerSpace, brk: nat, increment: nat, blank: Page)
    requires brk % PAGE_SIZE == 0 && brk / PAGE_SIZE !in e && increment > 0
    requires match GrowthOf({}, brk, increment)
             case Inside => e' == e
             case Fresh(start, n, write) => e' == EagerMap(e, start, write, Blanks(n, blank)) && RangeFree(e, start, n)
    ensures Extended(e, e', brk, increment, blank)
  {
    var g := GrowthOf({}, brk, increment);
    RoundUp(increment, g.pages);
    BlankCells(e, e', g.start, g.write, g.pages, blank);
    hide EagerMap, FreshCell;
  }

  lemma RoundUp(x: nat, n: nat)
    requires x > 0 && n == (x + PAGE_SIZE - 1) / PAGE_SIZE
    ensures n > 0 && (n - 1) * PAGE_SIZE < x <= n * PAGE_SIZE
  {
  }

  lemma BlankCells(e: EagerSpace, e': EagerSpace, start: nat, write: bool, n: nat, blank: Page)
    requires e' == EagerMap(e, start, write, Blanks(n, blank)) && RangeFree(e, start, n)
    ensures forall v: nat :: v in e' <==> v in e || start <= v < start + n
    ensures forall v :: v in e ==> e'[v] == e[v]
    ensures forall v: nat :: start <= v < start + n ==> v in e' && e'[v] == Cell(write, blank)
  {
    forall v: nat | start <= v < start + n
      ensures v in e' && e'[v] == Cell(write, blank)
    {
      assert e'[v] == FreshCell(start, write, Blanks(n, blank), v);
    }
  }

  lemma OneGrowth(t: Top, brk: nat, increment: nat)
    ensures GrowthOf({t}, brk, increment) == GrowthBeyond(t, brk, increment)
  {
  }

  /** A creation of blank pages, in the memory of the current space. */
  lemma CreatedCells(g: Growth, heapOk: bool, blank: Page, err: Errno, event: Event, m: Moment, m': Moment, s: nat)
    requires Grew(g, heapOk, blank, err, event, m, m') && err == Ok && EagerStep(m.memory, event) == Some(m'.memory)
    requires m.current == Some(s) && s in m.memory
    ensures s in m'.memory && m'.memory == m.memory[s := m'.memory[s]]
    ensures match g
            case Inside => m'.memory[s] == m.memory[s]
            case Fresh(start, n, write) =>
              && m'.memory[s] == EagerMap(m.memory[s], start, write, Blanks(n, blank))
              && RangeFree(m.memory[s], start, n)
  {
    hide RangeFree, EagerMap, Missing, Touched;
  }

  function Blanks(n: nat, blank: Page): (pages: seq<Page>)
    ensures |pages| == n && forall k :: 0 <= k < n ==> pages[k] == blank
  {
    seq(n, _ => blank)
  }

  /** `sys_sbrk` is modelled for this increment. */
  ghost predicate SbrkAllowed(m: Moment, increment: nat, blank: Page) {
    && m.current.Some? && m.current.value in m.breaks && increment > 0 && |blank| == PAGE_SIZE
    && m.breaks[m.current.value] + increment + PAGE_SIZE <= USER_PAGES * PAGE_SIZE
    && forall t :: t in m.tops ==> !t.growsDown
  }

  ghost predicate SbrkAnswer(m: Moment, increment: nat, heapOk: bool, blank: Page, event: Event, m': Moment)
    requires SbrkAllowed(m, increment, blank)
  {
    var s, brk := m.current.value, m.breaks[m.current.value];
    var g := GrowthOf(m.tops, brk, increment);
    if g.Inside? || Grants(m, heapOk, g.start, g.pages) then
      && Stretched(m.memory, m'.memory, m.current, brk, increment, blank)
      && Kept(m.(breaks := m.breaks[s := brk + increment]), m')
      && if g.Inside? then event == Silent && m'.free == m.free
         else event == NewMapping(s, g.start, g.write, Blanks(g.pages, blank)) && Paid(m, m', g.start, g.pages)
    else
      event == Silent && Kept(m, m')
  }

  ghost predicate StoreAnswer(m: Moment, addr: nat, value: int, heapOk: bool, event: Event, panicked: bool, m': Moment)
    requires m.current.Some?
  {
    var s := m.current.value;
    && s in m.memory
    && if !EagerWritable(m.memory[s], addr) then event == StoreKilled(s, addr) && !panicked && m' == m
       else if Blocked(m, heapOk, addr / PAGE_SIZE) then event == Silent && panicked && Kept(m, m')
       else
         && event == StoreDone(s, addr, value) && !panicked && Kept(m, m')
         && CopyPaid(m, addr / PAGE_SIZE, m'.free) && m'.slots == m.slots
  }

  /** The number of frames that kernel page `page` costs. */
  function KernelCost(slots: set<nat>, page: nat): nat {
    if page / ENTRIES in slots then 1 else 2
  }

  /** The requests that the kernel's callers may make; the others are ignored. */
  ghost predicate Legal(request: Request, m: Moment) {
    match request
    case SpawnRequest(_) => true
    case ForkRequest(_, _) => m.current.Some?
    case ExitRequest(space) => space in m.held
    case SwitchRequest(space) => space in m.held
    case MapRequest(addr, size, _, _, _, stale) => m.current.Some? && MapAllowed(addr, size, stale)
    case LoadRequest(_) => m.current.Some?
    case StoreRequest(_, _, _, blank) => m.current.Some? && |blank| == PAGE_SIZE
    case KernelPageRequest(page) => USER_PAGES <= page < KERNEL_END_PAGE && page != RESERVED_PAGE
    case ImageRequest(brk) => m.current.Some? && brk % PAGE_SIZE == 0
    case SbrkRequest(increment, _, blank) => SbrkAllowed(m, increment, blank)
  }

  /** The one event that answers a legal request at a moment, and what the request does to processes and memory. */
  ghost predicate Answer(request: Request, event: Event, panicked: bool, m: Moment, m': Moment)
    requires Legal(request, m)
  {
    match request
    case SpawnRequest(heapOk) =>
      if heapOk && m.free > 0 then event.Spawned? && Joined(m, m', event.space, 1)
      else event == Silent && Kept(m, m') && m'.free == m.free && m'.slots == m.slots
    case ForkRequest(heapOk, copies) =>
      if heapOk && m.maps <= copies && UserSlots(m.slots) < m.free then
        event.Forked? && event.space == m.current.value && Joined(m, m', event.child, 1 + UserSlots(m.slots))
      else
        event == Silent && Kept(m, m')
    case ExitRequest(space) =>
      && event == (if m.current != Some(space) then Gone(space) else Silent)
      && Kept(m.(held := m.held - {space}, breaks := NextBreaks(m.breaks, event)), m')
    case SwitchRequest(space) =>
      && event == (if m.current.Some? && m.current.value !in m.held then Gone(m.current.value) else Silent)
      && Kept(m.(current := Some(space), breaks := NextBreaks(m.breaks, event)), m')
    case MapRequest(addr, size, write, _, heapOk, stale) =>
      if Grants(m, heapOk, addr / PAGE_SIZE, |stale|) then
        && event == NewMapping(m.current.value, addr / PAGE_SIZE, write, stale)
        && Kept(m, m') && Paid(m, m', addr / PAGE_SIZE, |stale|)
      else
        event == Silent && Kept(m, m')
    case LoadRequest(addr) =>
      && m' == m && m.current.value in m.memory
      && event == Loaded(m.current.value, addr, EagerRead(m.memory[m.current.value], addr))
    case StoreRequest(addr, value, heapOk, blank) => StoreAnswer(m, addr, value, heapOk, event, panicked, m')
    case KernelPageRequest(page) =>
      && event == Silent
      && if page !in m.kernel && KernelCost(m.slots, page) <= m.free then
           && page in m'.kernel && page !in m.heap
           && var f := m'.kernel[page].address;
           && f !in m.heap.Values
           && Kept(m.(kernel := m.kernel[page := Pte(true, true, false, f)], heap := m.heap[page := f]), m')
           && m'.free == m.free - KernelCost(m.slots, page) && m'.slots == m.slots + {page / ENTRIES}
         else
           Kept(m, m')
    case ImageRequest(brk) => event == Silent && m' == m.(breaks := m.breaks[m.current.value := brk], tops := m'.tops)
    case SbrkRequest(increment, heapOk, blank) => SbrkAnswer(m, increment, heapOk, blank, event, m')
  }

  ghost predicate Answers(request: Request, event: Event, panicked: bool, m: Moment, m': Moment) {
    && EagerStep(m.memory, event) == Some(m'.memory) && (!request.StoreRequest? ==> !panicked)
    && if Legal(request, m) then Answer(request, event, panicked, m, m') else event == Silent && !panicked && m' == m
  }

  /** An answer is a step of the reference. */
  lemma AnswerStep(request: Request, event: Event, panicked: bool, m: Moment, m': Moment)
    requires Answers(request, event, panicked, m, m')
    ensures EagerStep(m.memory, event) == Some(m'.memory)
  {
    hide EagerStep, Legal, Answer;
  }

  /** Kernel pages keep their frames, and new ones get frames of their own. */
  lemma AnswerKernel(request: Request, event: Event, panicked: bool, m: Moment, m': Moment)
    requires Answers(request, event, panicked, m, m') && KernelFits(m.kernel, m.heap)
    ensures KernelFits(m'.kernel, m'.heap)
  {
    hide EagerStep, KernelFits, Grants, Blocked, UserSlots, MapAllowed, GrowthOf, NextBreaks, CopyPaid, Missing,
         Touched;
    if request.KernelPageRequest? && m'.heap != m.heap {
      KernelGrows(m.kernel, m.heap, request.page, m'.kernel[request.page].address);
    }
  }

  /** What a process can count on: a request that can be satisfied is, and shows. */
  ghost predicate Satisfied(request: Request, event: Event, panicked: bool, m: Moment, m': Moment) {
    match request
    case SpawnRequest(heapOk) =>
      heapOk && m.free >= 1 ==>
        event.Spawned? && event.space !in m.memory && m'.memory == m.memory[event.space := map[]] &&
        event.space in m'.held
    case ForkRequest(heapOk, copies) =>
      m.current.Some? && m.current.value in m.memory && heapOk && m.maps <= copies && m.free > UserSlots(m.slots) ==>
        event.Forked? && event.child !in m.memory && event.child in m'.held &&
        m'.memory == m.memory[event.child := m.memory[m.current.value]]
    case ExitRequest(space) =>
      space in m.held ==> m'.held == m.held - {space} && (m.current != Some(space) ==> m'.memory == m.memory - {space})
    case SwitchRequest(space) => space in m.held ==> m'.current == Some(space)
    case MapRequest(addr, size, write, _, heapOk, stale) =>
      m.current.Some? && addr % 4096 == 0 && 0 < size && addr + size <= 0xc000_0000 &&
      |stale| == (size + 4095) / 4096 && (forall k :: 0 <= k < |stale| ==> |stale[k]| == 4096) &&
      Grants(m, heapOk, addr / 4096, |stale|) ==>
        event == NewMapping(m.current.value, addr / 4096, write, stale)
    case LoadRequest(addr) => m.current.Some? ==> event.Loaded? && event.space == m.current.value && event.addr == addr
    case StoreRequest(addr, value, heapOk, blank) =>
      m.current.Some? && |blank| == 4096 && m.current.value in m.memory ==>
        if !EagerWritable(m.memory[m.current.value], addr) then event == StoreKilled(m.current.value, addr)
        else
          (heapOk && forall q :: q in m.shared ==> q.pages <= m.free) ==>
              event == StoreDone(m.current.value, addr, value)
    case KernelPageRequest(page) =>
      0xc_0000 < page < 0xf_f800 && page !in m.kernel && m.free >= 2 ==> page in m'.kernel && page in m'.heap
    case ImageRequest(brk) =>
      m.current.Some? && brk % 4096 == 0 ==> m'.breaks == m.breaks[m.current.value := brk]
    case SbrkRequest(increment, heapOk, blank) =>
      m.current.Some? && m.current.value in m.breaks && increment > 0 && |blank| == 4096 && m.tops == {} &&
      m.breaks[m.current.value] + increment + 4096 <= 0xc000_0000 &&
      Grants(m, heapOk, m.breaks[m.current.value] / 4096, (increment + 4095) / 4096) ==>
        m'.breaks == m.breaks[m.current.value := m.breaks[m.current.value] + increment]
  }

  lemma RequestsSatisfied(request: Request, event: Event, panicked: bool, m: Moment, m': Moment)
    requires Answers(request, event, panicked, m, m')
    ensures Satisfied(request, event, panicked, m, m')
  {
    hide Missing, Touched, RangeFree, EagerWritable, EagerStore, EagerCreate, EagerRead, Extended;
  }

  /** A new or lost process leaves open only what surrounds the break. */
  lemma AnswerBreaks(request: Request, event: Event, m: Moment, m1: Moment, m2: Moment)
    requires Answers(request, event, false, m, m1) && m2 == m1.(tops := m2.tops) && (event == Silent ==> m2 == m1)
    requires request.SpawnRequest? || request.ForkRequest? || request.ExitRequest? || request.SwitchRequest?
    ensures Answers(request, event, false, m, m2)
  {
    hide EagerStep, UserSlots, NextBreaks;
  }

  /** A mapping of `n` blank pages was created if and only if there was room for it. */
  ghost predicate Created(m: Moment, heapOk: bool, start: nat, n: nat, write: bool, blank: Page, err: Errno,
                          event: Event, m': Moment)
  {
    && m.current.Some? && (err == Ok <==> Grants(m, heapOk, start, n)) && Kept(m, m') && (err == Ok ==>
           Paid(m, m', start, n))
    && event == if err == Ok then NewMapping(m.current.value, start, write, Blanks(n, blank)) else Silent
  }

  ghost predicate Grew(g: Growth, heapOk: bool, blank: Page, err: Errno, event: Event, m: Moment, m': Moment) {
    if g.Inside? then err == Ok && event == Silent && m' == m
    else Created(m, heapOk, g.start, g.pages, g.write, blank, err, event, m')
  }

  /** Every process has a break, which is page aligned or in a page of its memory. */
  ghost predicate BreaksFit(e: EagerState, breaks: map<nat, nat>) {
    breaks.Keys == e.Keys && forall s :: s in breaks ==> breaks[s] % PAGE_SIZE == 0 || breaks[s] / PAGE_SIZE in e[s]
  }

  /** A new process starts with the break 0: `process_init` clears it, and fork does not copy it. */
  function NextBreaks(breaks: map<nat, nat>, event: Event): map<nat, nat> {
    match event
    case Spawned(s) => breaks[s := 0]
    case Forked(_, c) => breaks[c := 0]
    case Gone(s) => breaks - {s}
    case _ => breaks
  }

  /** Pages do not go away before their process does. */
  lemma BreaksStep(e: EagerState, event: Event, breaks: map<nat, nat>)
    requires BreaksFit(e, breaks) && EagerStep(e, event).Some?
    ensures BreaksFit(EagerStep(e, event).value, NextBreaks(breaks, event))
  {
  }

  class Vmm {
    const pt: Paging
    var regions: Regions
    var mappings: Mappings
    var spaces: map<nat, Space>
    /** current_vmm, and the address spaces that a process holds. */
    var current: Option<nat>
    var held: set<nat>
    /** The contents of the frames that regions own. */
    var mem: Memory
    var nextRegion: nat
    var nextMapping: nat
    /** The break of the process of each address space. */
    var breaks: map<nat, nat>
    ghost var home: Homes

    ghost function Rf(): map<nat, Owner>
      reads this, pt, pt.pm
    {
      RegionFrames(pt.pm.owner)
    }

    /** Regions, mappings and page tables fit together, outside the spaces of `x`. */
    ghost predicate Consistent(x: set<nat>, loose: set<nat>)
      reads this, pt, pt.pm
    {
      && Shape(x, regions, mappings, home, spaces, Rf(), pt.UserMaps(), mem, nextRegion, nextMapping)
      && RefsOk(regions, mappings, loose)
    }

    ghost predicate SpacesOk()
      reads this, pt
    {
      SpacesFit(spaces, held, current, pt.registered, pt.active)
    }

    ghost predicate Valid()
      reads this, pt, pt.pm, pt.pm.early, pt.pm.descriptors
    {
      pt.Valid() && pt.ReservedFree() && Consistent({}, {}) && SpacesOk()
    }

    /** What every process observes of its memory. */
    ghost function Abs(): EagerState
      reads this, pt, pt.pm
    {
      Views(spaces, pt.UserMaps(), Rf(), regions, mem)
    }

    constructor (pt: Paging)
      requires pt.Valid() && pt.ReservedFree() && pt.registered == [] && |RegionFrames(pt.pm.owner)| == 0
      requires KernelFits(pt.KernelMap(), pt.heap)
      ensures Valid() && BreaksOk() && KernelOk() && this.pt == pt && current == None && held == {} && Abs() == map[]
    {
      this.pt := pt;
      regions, mappings, spaces, mem, home := map[], map[], map[], map[], map[];
      current, held, nextRegion, nextMapping := None, {}, 0, 0;
      breaks := map[];
      new;
      hide *;
      Start();
    }

    lemma Start()
      requires pt.Valid() && pt.ReservedFree() && pt.registered == [] && |RegionFrames(pt.pm.owner)| == 0
      requires |regions| == 0 && |mappings| == 0 && |spaces| == 0 && |home| == 0
      requires current == None && held == {} && nextRegion == 0 && nextMapping == 0 && |breaks| == 0
      requires KernelFits(pt.KernelMap(), pt.heap)
      ensures Valid() && Abs() == map[] && BreaksOk() && KernelOk()
    {
      hide Shape, RefsOk, Paging.Valid, Paging.UserMaps, Paging.ReservedFree, RegionFrames, SpacesFit, NothingMapped;
      NoSpaces(spaces, pt.registered, pt.active);
      pt.BootMaps();
      EmptyShape(regions, mappings, home, spaces, RegionFrames(pt.pm.owner), pt.UserMaps(), mem);
    }

    /** `region_create`. `heapOk`: the heap provides the descriptor; `stale`: what fresh frames happen to hold. */
    method RegionCreate(n: nat, prot: Prot, heapOk: bool, stale: seq<Page>) returns (err: Errno, r: nat)
      requires pt.Valid() && RegionsOk(regions, Rf(), mem, nextRegion)
      requires n > 0 && prot.user && |stale| == n && forall k :: 0 <= k < n ==> |stale[k]| == PAGE_SIZE
      modifies this`regions, this`mem, this`nextRegion, pt.pm`free, pt.pm`used, pt.pm`owner
      ensures pt.Valid() && RegionsOk(regions, Rf(), mem, nextRegion)
      ensures err == Ok <==> heapOk && n <= |old(pt.pm.free)|
      ensures err in {Ok, ENOMEM}
      ensures err != Ok ==> regions == old(regions) && mem == old(mem) && nextRegion == old(nextRegion)
      ensures err != Ok ==> Rf() == old(Rf()) && |pt.pm.free| == |old(pt.pm.free)|
      ensures err == Ok ==> r == old(nextRegion) && nextRegion == r + 1 && r !in old(regions)
      ensures err == Ok ==> r in regions && regions == old(regions)[r := regions[r]]
      ensures err == Ok ==> regions[r].prot == prot && regions[r].refcnt == 1 && |regions[r].frames| == n
      ensures err == Ok ==> forall k :: 0 <= k < n ==>
                regions[r].frames[k] in mem && mem[regions[r].frames[k]] == stale[k]
      ensures err == Ok ==> forall k :: 0 <= k < n ==> regions[r].frames[k] !in old(Rf())
      ensures err == Ok ==> |pt.pm.free| == |old(pt.pm.free)| - n && Without(Rf(), r) == old(Rf())
      ensures SameBacking(old(Rf()), Rf(), old(regions), regions, old(mem), mem)
    {
      hide Wf, Paging.Valid, RegionsOk, Taken, Filled, SameBacking, RegionFrames;
      NothingChanged(Rf(), regions, mem);
      if !heapOk {
        return ENOMEM, 0;
      }
      r := nextRegion;
      var ok, frames, taken := AllocFrames(pt, r, n);
      if !ok {
        FreeFrames(pt, r, frames, taken, old(Rf()));
        return ENOMEM, 0;
      }
      var mem' := FillFrames(mem, frames, stale, old(Rf()), Rf(), r);
      AddRegion(regions, old(Rf()), Rf(), mem, mem', r, prot, frames, stale);
      TakenWithout(regions, old(Rf()), Rf(), mem, r, frames);
      mem := mem';
      regions := regions[r := Region(prot, frames, 1)];
      nextRegion := r + 1;
      return Ok, r;
    }

    static method FillFrames(mem: Memory, frames: seq<nat>, stale: seq<Page>,
                             ghost rf0: map<nat, Owner>, ghost rf: map<nat, Owner>, ghost r: nat) returns (mem': Memory)
      requires |stale| == |frames| && Taken(rf0, rf, r, frames, 0, |frames|)
      ensures Filled(mem, mem', frames, stale)
    {
      mem' := mem;
      for i := 0 to |frames|
        invariant forall k :: 0 <= k < i ==> frames[k] in mem' && mem'[frames[k]] == stale[k]
        invariant forall f :: f !in frames ==> (f in mem <==> f in mem') && (f in mem ==> mem'[f] == mem[f])
      {
        assert forall k :: 0 <= k < i ==> rf[frames[k]] != rf[frames[i]];
        mem' := mem'[frames[i] := stale[i]];
      }
    }

    /** `region_unref`: the last reference gives every frame back. */
    method RegionUnref(r: nat)
      requires pt.Valid() && RegionsOk(regions, Rf(), mem, nextRegion) && r in regions
      modifies this`regions, pt.pm`free, pt.pm`used, pt.pm`owner
      ensures pt.Valid() && RegionsOk(regions, Rf(), mem, nextRegion)
      ensures old(regions)[r].refcnt > 1 ==>
                regions == old(regions)[r := old(regions)[r].(refcnt := old(regions)[r].refcnt - 1)] &&
                Rf() == old(Rf()) && pt.pm.free == old(pt.pm.free)
      ensures old(regions)[r].refcnt == 1 ==>
                regions == old(regions) - {r} && Rf() == Without(old(Rf()), r) &&
                |pt.pm.free| == |old(pt.pm.free)| + |old(regions)[r].frames|
    {
      hide Wf, Paging.Valid, Taken, Without, RegionFrames, RegionsOk;
      pt.Domain();
      UnrefRegions(regions, Rf(), mem, nextRegion, r);
      if regions[r].refcnt > 1 {
        regions := regions[r := regions[r].(refcnt := regions[r].refcnt - 1)];
      } else {
        RegionTaken(regions, Rf(), mem, nextRegion, r);
        FreeFrames(pt, r, regions[r].frames, |regions[r].frames|, Without(Rf(), r));
        regions := regions - {r};
      }
    }

    /** `add_mapping`: after the first mapping that starts higher, else at the end. */
    method AddMapping(maps: seq<nat>, start: nat, id: nat) returns (r: seq<nat>)
      requires NoDup(maps) && id !in maps && forall m :: m in maps ==> m in mappings
      ensures NoDup(r) && forall m :: m in r <==> m == id || m in maps
    {
      var k := 0;
      while k < |maps| && mappings[maps[k]].start <= start
        invariant 0 <= k <= |maps|
      {
        k := k + 1;
      }
      if k < |maps| {
        k := k + 1;
      }
      r := maps[..k] + [id] + maps[k..];
      assert maps == maps[..k] + maps[k..];
    }

    /** The state right after `region_create`: consistent, with one reference held by the running code. */
    lemma RegionJoined(regions0: Regions, rf0: map<nat, Owner>, mem0: Memory, nextRegion0: nat, r: nat)
      requires Shape({}, regions0, mappings, home, spaces, rf0, pt.UserMaps(), mem0, nextRegion0, nextMapping)
      requires RefsOk(regions0, mappings, {}) && r !in regions0 && r in regions && regions == regions0[r := regions[r]]
      requires regions[r].refcnt == 1 && RegionsOk(regions, Rf(), mem, nextRegion)
      requires SameBacking(rf0, Rf(), regions0, regions, mem0, mem)
      ensures Consistent({}, {r}) && Abs() == Views(spaces, pt.UserMaps(), rf0, regions0, mem0)
      ensures forall m :: m in mappings ==> mappings[m].region != r
    {
      hide RegionsOk, MapsOk, ListsOk, DisjointOk, TablesOk, RefsOk, SameBacking, View;
      NewRegionRefs(regions0, mappings, home, r, regions[r], nextMapping);
      TablesRegions({}, regions0, regions, mappings, home, pt.UserMaps(), nextMapping);
      ViewsKept(spaces, regions0, mappings, home, rf0, pt.UserMaps(), mem0, nextRegion0, nextMapping, Rf(), regions,
                mem);
    }

    /** The end of `vmm_create_user_mapping`: the mapping, whose pages are in place, joins the list. */
    method EnterMapping(start: nat, n: nat, write: bool, growsDown: bool, r: nat, ghost um0: UserTables,
                        ghost stale: seq<Page>)
      requires current.Some? && current.value in spaces && current.value in um0
      requires r in regions && forall m :: m in mappings ==> mappings[m].region != r
      requires n == |regions[r].frames| > 0 && start + n <= USER_PAGES && write == regions[r].prot.write
      requires RangeFree(um0[current.value], start, n)
      requires pt.UserMaps() ==
               um0[current.value := um0[current.value] + RangeMap(start, regions[r].frames, regions[r].prot.write)]
      requires |stale| == n
      requires forall k :: 0 <= k < |stale| ==> regions[r].frames[k] in mem && mem[regions[r].frames[k]] == stale[k]
      requires RefsOk(regions, mappings, {r})
      requires Shape({}, regions, mappings, home, spaces, Rf(), um0, mem, nextRegion, nextMapping)
      modifies this`mappings, this`spaces, this`home, this`nextMapping
      ensures SameSpaces(old(spaces), spaces)
      ensures mappings == old(mappings)[old(nextMapping) := Mapping(start, n, growsDown, r)]
      ensures home == old(home)[old(nextMapping) := current.value] && old(nextMapping) !in old(mappings)
      ensures Abs() == EagerCreate(Views(old(spaces), um0, Rf(), regions, mem), current.value, start, write, stale)
      ensures Consistent({}, {})
    {
      hide RegionsOk, DisjointOk, TablesOk, RefsOk, ListsOk, MapsOk, RangeFree, View, RangeMap, Paging.Valid,
           UserMapsOf, Covers, Views, EagerCreate, RegionFrames;
      ListFacts(spaces, mappings, home, regions, nextMapping, current.value);
      var s, id := current.value, nextMapping;
      ghost var mappings0, home0, spaces0 := mappings, home, spaces;
      var mp := Mapping(start, |regions[r].frames|, growsDown, r);
      var maps := AddMapping(spaces[s].maps, start, id);
      AddMappingTables(regions, mappings0, home0, um0, id, mp, s, nextMapping, pt.UserMaps());
      AddHolder(regions, mappings0, r, id, mp);
      InsertList(spaces0, home0, s, id, maps);
      mappings := mappings[id := mp];
      home := home[id := s];
      spaces := spaces[s := spaces[s].(maps := maps)];
      nextMapping := id + 1;
      ViewsAddMapping(spaces0, spaces, um0, pt.UserMaps(), s, start, r, Rf(), regions, mem, nextRegion, stale);
    }

    /** `mapping_destroy` for a mapping that could not be entered: its region goes again. */
    method DropFreshRegion(r: nat, ghost regions0: Regions, ghost rf0: map<nat, Owner>, ghost mem0: Memory)
      requires pt.Valid() && Consistent({}, {r}) && r in regions && r !in regions0 &&
               regions == regions0[r := regions[r]]
      requires regions[r].refcnt == 1 && Without(Rf(), r) == rf0 && SameBacking(rf0, Rf(), regions0, regions, mem0, mem)
      requires RefsOk(regions0, mappings, {}) && forall m :: m in mappings ==> mappings[m].region != r
      modifies this`regions, pt.pm`free, pt.pm`used, pt.pm`owner
      ensures pt.Valid() && Consistent({}, {}) && regions == regions0 && Rf() == rf0 && Abs() == old(Abs())
    {
      hide RegionsOk, DisjointOk, TablesOk, MapsOk, ListsOk, RefsOk, View, Paging.Valid, UserMapsOf, Covers, Without,
           SameBacking;
      ghost var rf1, regions1 := Rf(), regions;
      RegionUnref(r);
      assert regions == regions0;
      TablesFewer(regions1, regions, mappings, home, pt.UserMaps(), nextMapping, r);
      FewerBacking(rf0, rf1, regions0, regions1, mem0, mem);
      ViewsKept(spaces, regions, mappings, home, Rf(), pt.UserMaps(), mem, nextRegion, nextMapping, rf1, regions1, mem);
    }

    /** `vmm_create_user_mapping` on a page-aligned range of the current user space. */
    method CreateUserMapping(addr: nat, size: nat, write: bool, growsDown: bool, heapOk: bool, stale: seq<Page>)
      returns (err: Errno)
      requires Valid() && current.Some?
      requires MapAllowed(addr, size, stale)
      modifies this`regions, this`mappings, this`spaces, this`home, this`mem, this`nextRegion, this`nextMapping
      modifies pt`dirs, pt`tables, pt`kdir, pt.pm`free, pt.pm`used, pt.pm`owner
      ensures Valid() && current.value in old(Abs())
      ensures err == Ok ==> Abs() == EagerCreate(old(Abs()), current.value, addr / PAGE_SIZE, write, stale)
      ensures err == Ok ==> RangeFree(old(Abs())[current.value], addr / PAGE_SIZE, |stale|)
      ensures err == Ok ==>
                Added(old(mappings), mappings, old(home), home, old(nextMapping), current.value, addr / PAGE_SIZE,
                      |stale|, growsDown)
      ensures err != Ok ==>
                Abs() == old(Abs()) && mappings == old(mappings) && home == old(home) && regions == old(regions)
      ensures err == Ok <==>
                && heapOk && RangeFree(old(Abs())[current.value], addr / PAGE_SIZE, |stale|)
                && |stale| + Missing(old(pt.Slots()), addr / PAGE_SIZE, |stale|) <= |old(pt.pm.free)|
      ensures err == Ok ==>
                |pt.pm.free| == |old(pt.pm.free)| - |stale| - Missing(old(pt.Slots()), addr / PAGE_SIZE, |stale|) &&
                pt.Slots() == Touched(old(pt.Slots()), addr / PAGE_SIZE, |stale|)
      ensures pt.KernelMap() == old(pt.KernelMap())
    {
      hide RegionsOk, DisjointOk, TablesOk, RefsOk, View, RangeMap, Paging.Valid, Paging.UserMaps, Covers, SameBacking,
           Without, ListsOk, MapsOk, SpacesFit, SameSpaces, Views, RegionFrames, EagerCreate, Paging.KernelMap,
           MapAllowed, Missing, Touched, Paging.Slots, RangeFree, Added;
      CurrentSpace(spaces, held, current, pt.registered, pt.active);
      PagesNeeded(addr, size, stale);
      var n := (size + PAGE_SIZE - 1) / PAGE_SIZE;
      var start := addr / PAGE_SIZE;
      ghost var rf0, regions0, mem0, nextRegion0 := Rf(), regions, mem, nextRegion;
      SpaceVisible(current.value);
      var r: nat;
      err, r := RegionCreate(n, Prot(write, true), heapOk, stale);
      if err == Ok {
        RegionJoined(regions0, rf0, mem0, nextRegion0, r);
        err := PlaceRegion(start, growsDown, r, stale, regions0, rf0, mem0);
      }
    }

    /** The rest of `vmm_create_user_mapping`: the pages of the new region `r` are mapped, or the region goes again. */
    method PlaceRegion(start: nat, growsDown: bool, r: nat, ghost stale: seq<Page>, ghost regions0: Regions,
                       ghost rf0: map<nat, Owner>, ghost mem0: Memory)
      returns (err: Errno)
      requires pt.Valid() && pt.ReservedFree() && Consistent({}, {r}) && SpacesOk() && current.Some?
      requires r !in regions0 && r in regions && regions == regions0[r := regions[r]]
      requires regions[r].refcnt == 1 && regions[r].prot.user && |stale| == |regions[r].frames| > 0
      requires start + |stale| <= USER_PAGES && RefsOk(regions0, mappings, {})
      requires forall k :: 0 <= k < |stale| ==> regions[r].frames[k] in mem && mem[regions[r].frames[k]] == stale[k]
      requires Without(Rf(), r) == rf0 && SameBacking(rf0, Rf(), regions0, regions, mem0, mem)
      requires forall m :: m in mappings ==> mappings[m].region != r
      modifies this`regions, this`mappings, this`spaces, this`home, this`nextMapping
      modifies pt`dirs, pt`tables, pt`kdir, pt.pm`free, pt.pm`used, pt.pm`owner
      ensures current.value in old(Abs())
      ensures err == Ok <==> RangeFree(old(Abs())[current.value], start, |stale|) &&
                             Missing(old(pt.Slots()), start, |stale|) <= |old(pt.pm.free)|
      ensures err == Ok ==> Abs() == EagerCreate(old(Abs()), current.value, start, old(regions)[r].prot.write, stale)
      ensures err == Ok ==>
                |pt.pm.free| == |old(pt.pm.free)| - Missing(old(pt.Slots()), start, |stale|) &&
                pt.Slots() == Touched(old(pt.Slots()), start, |stale|)
      ensures err == Ok ==>
                Added(old(mappings), mappings, old(home), home, old(nextMapping), current.value, start, |stale|,
                      growsDown)
      ensures err != Ok ==>
                Abs() == old(Abs()) && mappings == old(mappings) && home == old(home) && regions == regions0
      ensures pt.KernelMap() == old(pt.KernelMap()) && Valid()
    {
      hide RegionsOk, DisjointOk, TablesOk, RefsOk, View, RangeMap, Paging.Valid, Paging.UserMaps, Covers, SameBacking,
           Without, ListsOk, MapsOk, SpacesFit, SameSpaces, Views, RegionFrames, EagerCreate, Paging.KernelMap,
           Missing, Touched, Paging.Slots, RangeFree;
      CurrentSpace(spaces, held, current, pt.registered, pt.active);
      ghost var um0 := pt.UserMaps();
      pt.Domain();
      ViewKeys(spaces, um0, Rf(), regions, mem, current.value);
      FreeInView(um0[current.value], Abs()[current.value], start, |stale|);
      err := MapRange(pt, start, regions[r].frames, regions[r].prot);
      if err != Ok {
        DropFreshRegion(r, regions0, rf0, mem0);
        return;
      }
      EnterMapping(start, |regions[r].frames|, regions[r].prot.write, growsDown, r, um0, stale);
      SpacesKept(old(spaces), spaces, held, current, pt.registered, pt.active);
    }

    /**
     * One page of `copy_mapping_pages` (`paging_copy_page`): through the reserved page, which is free, so it cannot
     * fail.
     */
    method CopyPage(v: nat, dst: nat)
      requires pt.Valid() && pt.ReservedFree() && v < USER_PAGES && v in pt.UserMaps()[pt.active]
      requires pt.UserMaps()[pt.active][v].address in mem
      modifies this`mem, pt`dirs, pt`tables, pt`kdir, pt.pm`free, pt.pm`used, pt.pm`owner
      ensures pt.Valid() && pt.ReservedFree() && pt.UserMaps() == old(pt.UserMaps()) && Rf() == old(Rf())
      ensures pt.KernelMap() == old(pt.KernelMap()) && pt.pm.free == old(pt.pm.free) && pt.Slots() == old(pt.Slots())
      ensures forall w :: old(pt.HasTable(w)) ==> pt.HasTable(w)
      ensures mem == old(mem)[dst := old(mem)[pt.UserMaps()[pt.active][v].address]]
    {
      hide Wf, Paging.Valid, Paging.UserMaps, Paging.KernelMap;
      pt.Domain();
      var err := pt.OpenWindow(dst);
      assert err == Ok && pt.KernelMap()[RESERVED_PAGE].address == dst;
      var src := pt.Translate(v);
      mem := mem[dst := mem[src]];
      PutBack(old(pt.KernelMap()), RESERVED_PAGE, Pte(true, true, false, dst));
      pt.CloseWindow();
    }

    /** `copy_mapping_pages` */
    method CopyPages(start: nat, frames: seq<nat>, ghost source: seq<nat>)
      requires pt.Valid() && pt.ReservedFree() && start + |frames| <= USER_PAGES && |source| == |frames|
      requires forall v: nat :: start <= v < start + |frames| ==>
                 v in pt.UserMaps()[pt.active] && pt.UserMaps()[pt.active][v].address == source[v - start]
      requires forall k :: 0 <= k < |source| ==> source[k] in mem && source[k] !in frames
      requires NoDup(frames)
      modifies this`mem, pt`dirs, pt`tables, pt`kdir, pt.pm`free, pt.pm`used, pt.pm`owner
      ensures pt.Valid() && pt.ReservedFree() && pt.UserMaps() == old(pt.UserMaps()) && Rf() == old(Rf())
      ensures pt.KernelMap() == old(pt.KernelMap()) && pt.pm.free == old(pt.pm.free) && pt.Slots() == old(pt.Slots())
      ensures forall w :: old(pt.HasTable(w)) ==> pt.HasTable(w)
      ensures forall k :: 0 <= k < |frames| ==> frames[k] in mem && mem[frames[k]] == old(mem)[source[k]]
      ensures forall f :: f !in frames ==> (f in mem <==> f in old(mem)) && (f in mem ==> mem[f] == old(mem)[f])
    {
      hide Wf, Paging.Valid, Paging.UserMaps, Paging.KernelMap, Paging.HasTable, Paging.ReservedFree, RegionFrames,
           Paging.Slots;
      pt.Domain();
      for i := 0 to |frames|
        invariant pt.Valid() && pt.ReservedFree() && pt.UserMaps() == old(pt.UserMaps()) && Rf() == old(Rf())
        invariant pt.KernelMap() == old(pt.KernelMap()) && pt.pm.free == old(pt.pm.free) &&
                  pt.Slots() == old(pt.Slots())
        invariant forall w :: old(pt.HasTable(w)) ==> pt.HasTable(w)
        invariant forall k :: 0 <= k < i ==> frames[k] in mem && mem[frames[k]] == old(mem)[source[k]]
        invariant forall f :: f !in frames ==> (f in mem <==> f in old(mem)) && (f in mem ==> mem[f] == old(mem)[f])
      {
        assert source[i] !in frames;
        CopyPage(start + i, frames[i]);
      }
    }

    /** The first half of `handle_cow_fault` on a shared region: a private copy, contents included. */
    method CowCopy(m: nat, r: nat, heapOk: bool, stale: seq<Page>) returns (err: Errno, r2: nat)
      requires m in mappings && m in home && current == Some(home[m])
      requires r == mappings[m].region && |stale| == mappings[m].pages && forall k :: 0 <= k < |stale| ==>
                 |stale[k]| == PAGE_SIZE
      requires Valid()
      modifies this`regions, this`mem, this`nextRegion
      modifies pt`dirs, pt`tables, pt`kdir, pt.pm`free, pt.pm`used, pt.pm`owner
      ensures pt.Valid() && pt.ReservedFree() && pt.UserMaps() == old(pt.UserMaps())
      ensures forall w :: old(pt.HasTable(w)) ==> pt.HasTable(w)
      ensures err == Ok <==> heapOk && |stale| <= |old(pt.pm.free)|
      ensures Abs() == old(Abs()) && (err != Ok ==> Valid())
      ensures pt.KernelMap() == old(pt.KernelMap()) && pt.Slots() == old(pt.Slots())
      ensures err == Ok ==> |pt.pm.free| == |old(pt.pm.free)| - |stale|
      ensures err == Ok ==> Consistent({}, {r2}) && CopyOf(old(regions), regions, mappings, mem, r, r2)
    {
      hide RegionsOk, DisjointOk, TablesOk, RefsOk, View, Paging.Valid, Paging.UserMaps, SameBacking, Without, ListsOk,
           MapsOk, SpacesFit, Views, RegionFrames, Paging.HasTable, Paging.ReservedFree;
      ghost var rf0, regions0, mem0, nextRegion0, um0 := Rf(), regions, mem, nextRegion, pt.UserMaps();
      CurrentSpace(spaces, held, current, pt.registered, pt.active);
      PagesOf(regions, mappings, home, um0, nextMapping, m);
      SourceSizes(regions, rf0, mem0, nextRegion, r);
      err, r2 := RegionCreate(mappings[m].pages, regions[r].prot, heapOk, stale);
      if err != Ok {
        return;
      }
      RegionJoined(regions0, rf0, mem0, nextRegion0, r2);
      FrameFacts(regions, Rf(), mem, nextRegion, r, r2);
      ghost var mem1 := mem;
      CopyPages(mappings[m].start, regions[r2].frames, regions[r].frames);
      CopyDone(spaces, mappings, home, um0, nextMapping, rf0, Rf(), regions0, regions, mem0, mem1, mem, nextRegion0,
               nextRegion, r, r2);
    }

    /** Mapped pages have their tables. */
    lemma SlotsThere(start: nat, n: nat)
      requires pt.Valid() && pt.active in pt.UserMaps()
      requires forall v: nat :: start <= v < start + n ==> v in pt.UserMaps()[pt.active]
      ensures Missing(pt.Slots(), start, n) == 0 && Touched(pt.Slots(), start, n) == pt.Slots()
    {
      hide Paging.Valid, Paging.UserMaps, Paging.HasTable, Paging.Slots;
      pt.Domain();
      forall v: nat | start <= v < start + n
        ensures v / ENTRIES in pt.Slots()
      {
        pt.SlotTable(v);
      }
      NoneMissing(pt.Slots(), start, n);
    }

    /** The second half: the mapping leaves the shared region for the copy. */
    method CowMove(m: nat, r2: nat, ghost regions0: Regions)
      requires m in mappings && m in home && current == Some(home[m])
      requires CopyOf(regions0, regions, mappings, mem, mappings[m].region, r2) &&
               regions0[mappings[m].region].refcnt > 1
      requires pt.Valid() && pt.ReservedFree() && SpacesOk() && Consistent({}, {r2})
      modifies this`regions, this`mappings
      modifies pt`dirs, pt`tables, pt`kdir, pt.pm`free, pt.pm`used, pt.pm`owner
      ensures Valid() && Abs() == old(Abs())
      ensures pt.KernelMap() == old(pt.KernelMap()) && pt.Slots() == old(pt.Slots())
      ensures |pt.pm.free| == |old(pt.pm.free)|
      ensures regions0[old(mappings)[m].region].prot.write ==>
                current.value in pt.UserMaps() && AllWritable(pt.UserMaps()[current.value], old(mappings)[m])
    {
      hide RegionsOk, DisjointOk, TablesOk, RefsOk, View, Paging.Valid, Paging.UserMaps, ListsOk, MapsOk, SpacesFit,
           Views, RegionFrames, Paging.HasTable, Paging.KernelMap, RangeMap, RangeFree, Paging.Slots, PageSet,
             SameContents, Moved,
           AllWritable;
      CurrentSpace(spaces, held, current, pt.registered, pt.active);
      var mp, s := mappings[m], current.value;
      ghost var um0 := pt.UserMaps();
      PagesOf(regions, mappings, home, um0, nextMapping, m);
      CopyPlan(regions, mem, mp.region, r2);
      SourceSizes(regions, Rf(), mem, nextRegion, r2);
      pt.Domain();
      SlotsThere(mp.start, mp.pages);
      Remap(um0, s, mp.start, regions[r2].frames, regions[r2].prot.write);
      SplitDone(spaces, regions, regions[mp.region := regions[mp.region].(refcnt := regions[mp.region].refcnt - 1)],
                mappings,
                home, um0, um0[s := um0[s] + RangeMap(mp.start, regions[r2].frames, regions[r2].prot.write)],
                m, r2, Rf(), mem, nextRegion, nextMapping);
      var e := UnmapRange(pt, mp.start, mp.pages);
      RegionUnref(mp.region);
      mappings := Moved(mappings, m, r2);
      e := MapRange(pt, mp.start, regions[r2].frames, regions[r2].prot);
      assert e == Ok &&
             pt.UserMaps() == um0[s := um0[s] + RangeMap(mp.start, regions[r2].frames, regions[r2].prot.write)];
    }

    /** `find_mapping` in the current address space; mappings are page aligned. */
    method FindMapping(v: nat) returns (r: Option<nat>)
      requires current.Some? && current.value in spaces && ListsOk(spaces, home) &&
               MapsOk(mappings, home, regions, nextMapping)
      ensures r.Some? ==>
                r.value in mappings && r.value in home && home[r.value] == current.value && Covers(mappings[r.value], v)
      ensures r.None? ==> forall m :: m in mappings && home[m] == current.value ==> !Covers(mappings[m], v)
    {
      var maps := spaces[current.value].maps;
      ListFacts(spaces, mappings, home, regions, nextMapping, current.value);
      for i := 0 to |maps|
        invariant forall k :: 0 <= k < i ==> !Covers(mappings[maps[k]], v)
      {
        var m := maps[i];
        assert m in maps;
        if mappings[m].start <= v < mappings[m].start + mappings[m].pages {
          return Some(m);
        }
      }
      return None;
    }

    /** `handle_cow_fault` on a mapping of the current space. */
    method HandleCowFault(m: nat, heapOk: bool, blank: Page) returns (err: Errno)
      requires Valid() && current.Some? && m in mappings && m in home && home[m] == current.value
      requires mappings[m].region in regions && |blank| == PAGE_SIZE
      modifies this`regions, this`mappings, this`mem, this`nextRegion
      modifies pt`dirs, pt`tables, pt`kdir, pt.pm`free, pt.pm`used, pt.pm`owner
      ensures Valid() && Abs() == old(Abs())
      ensures err == Ok <==> old(regions[mappings[m].region].refcnt) == 1 ||
                             (heapOk && old(mappings)[m].pages <= |old(pt.pm.free)|)
      ensures pt.KernelMap() == old(pt.KernelMap()) && pt.Slots() == old(pt.Slots())
      ensures err == Ok ==>
                |pt.pm.free| ==
                |old(pt.pm.free)| - if old(regions[mappings[m].region].refcnt) == 1 then 0 else old(mappings)[m].pages
      ensures err == Ok && old(regions[mappings[m].region].prot.write) ==>
                current.value in pt.UserMaps() && AllWritable(pt.UserMaps()[current.value], old(mappings)[m])
    {
      hide RegionsOk, DisjointOk, TablesOk, RefsOk, View, Paging.Valid, Paging.UserMaps, ListsOk, MapsOk, SpacesFit,
           Views, RegionFrames, Paging.HasTable, Paging.KernelMap, RangeMap, SameContents, AllWritable;
      CurrentSpace(spaces, held, current, pt.registered, pt.active);
      var mp, r := mappings[m], mappings[m].region;
      PagesOf(regions, mappings, home, pt.UserMaps(), nextMapping, m);
      SourceSizes(regions, Rf(), mem, nextRegion, r);
      if regions[r].refcnt == 1 {
        ghost var um0 := pt.UserMaps();
        err := ProtectRange(pt, mp.start, mp.pages, regions[r].prot, regions[r].frames);
        ResetTables(regions, mappings, home, um0, m, nextMapping, pt.UserMaps());
        SelfContents(regions, mem, r);
        ViewsSplit(spaces, um0, pt.UserMaps(), current.value, mp.start, r, r, Rf(), regions, mem, nextRegion);
        NowWritable(um0[current.value], mp, regions[r].frames, regions[r].prot.write);
      } else {
        RefPositive(regions, Rf(), mem, nextRegion, r);
        var r2: nat;
        err, r2 := CowCopy(m, r, heapOk, seq(mp.pages, _ => blank));
        if err == Ok {
          CowMove(m, r2, old(regions));
        }
      }
    }

    /** A user-mode load. A page that is absent faults, and the fault kills the process. */
    method UserLoad(addr: nat) returns (r: Option<int>)
      requires Valid() && current.Some?
      ensures current.value in Abs() && r == EagerRead(Abs()[current.value], addr)
    {
      hide RegionsOk, DisjointOk, TablesOk, RefsOk, Paging.Valid, UserMapsOf, ListsOk, MapsOk, SpacesFit, RegionFrames,
           Flat;
      CurrentSpace(spaces, held, current, pt.registered, pt.active);
      pt.Domain();
      ghost var s, v := current.value, addr / PAGE_SIZE;
      ViewKeys(spaces, pt.UserMaps(), Rf(), regions, mem, s);
      if addr / PAGE_SIZE >= USER_PAGES {
        return None;
      }
      var e := pt.ReadEntry(addr / PAGE_SIZE);
      if e.present {
        ghost var m := PageFacts(regions, mappings, home, Rf(), pt.UserMaps(), mem, nextRegion, nextMapping, s, v);
        if e.user {
          return Some(mem[e.address][addr % PAGE_SIZE]);
        }
      }
      return None;
    }

    /** The processor's store through a writable user translation. */
    method StoreThrough(addr: nat, b: int)
      requires Valid() && current.Some? && addr / PAGE_SIZE < USER_PAGES
      requires current.value in pt.UserMaps() && addr / PAGE_SIZE in pt.UserMaps()[current.value]
      requires pt.UserMaps()[current.value][addr / PAGE_SIZE].rw
      modifies this`mem
      ensures Valid() && Abs() == EagerStore(old(Abs()), current.value, addr, b)
      ensures current.value in old(Abs()) && EagerWritable(old(Abs())[current.value], addr)
    {
      hide RegionsOk, DisjointOk, TablesOk, RefsOk, Paging.Valid, UserMapsOf, ListsOk, MapsOk, SpacesFit, RegionFrames,
           Flat, View, EagerWritable;
      CurrentSpace(spaces, held, current, pt.registered, pt.active);
      pt.Domain();
      ghost var s, v := current.value, addr / PAGE_SIZE;
      ViewKeys(spaces, pt.UserMaps(), Rf(), regions, mem, s);
      ghost var m := PageFacts(regions, mappings, home, Rf(), pt.UserMaps(), mem, nextRegion, nextMapping, s, v);
      var f := pt.Translate(addr / PAGE_SIZE);
      mem := mem[f := mem[f][addr % PAGE_SIZE := b]];
      ViewsStore(spaces, regions, mappings, home, Rf(), pt.UserMaps(), old(mem), nextRegion, nextMapping, s, addr, b,
                 mem);
    }

    /** Whether the reference lets the current process write `addr`, in terms of its mappings. */
    lemma WritableMapping(m: nat, addr: nat)
      requires Valid() && current.Some? && m in mappings && m in home && home[m] == current.value
      requires Covers(mappings[m], addr / PAGE_SIZE)
      ensures current.value in Abs() && mappings[m].region in regions
      ensures EagerWritable(Abs()[current.value], addr) <==> regions[mappings[m].region].prot.write
      ensures addr / PAGE_SIZE in Abs()[current.value]
      ensures Abs()[current.value][addr / PAGE_SIZE].writable == regions[mappings[m].region].prot.write
    {
      hide RegionsOk, DisjointOk, TablesOk, RefsOk, Paging.Valid, UserMapsOf, ListsOk, MapsOk, SpacesFit, RegionFrames,
           Flat;
      CurrentSpace(spaces, held, current, pt.registered, pt.active);
      pt.Domain();
      var s, v := current.value, addr / PAGE_SIZE;
      CoveredPresent(regions, mappings, home, pt.UserMaps(), nextMapping, m, v);
      ViewKeys(spaces, pt.UserMaps(), Rf(), regions, mem, s);
      var q := PageFacts(regions, mappings, home, Rf(), pt.UserMaps(), mem, nextRegion, nextMapping, s, v);
      SameMapping(mappings, home, m, q, v);
    }

    lemma UnmappedPage(addr: nat)
      requires Valid() && current.Some?
      requires forall m :: m in mappings && m in home && home[m] == current.value ==>
                 !Covers(mappings[m], addr / PAGE_SIZE)
      ensures current.value in Abs() && !EagerWritable(Abs()[current.value], addr)
    {
      hide RegionsOk, DisjointOk, TablesOk, RefsOk, Paging.Valid, UserMapsOf, ListsOk, MapsOk, SpacesFit, RegionFrames,
           Flat;
      CurrentSpace(spaces, held, current, pt.registered, pt.active);
      pt.Domain();
      var s, v := current.value, addr / PAGE_SIZE;
      ViewKeys(spaces, pt.UserMaps(), Rf(), regions, mem, s);
      if v in pt.UserMaps()[s] {
        var q := PageFacts(regions, mappings, home, Rf(), pt.UserMaps(), mem, nextRegion, nextMapping, s, v);
      }
    }

    /**
     * A user-mode store. If the translation does not allow it, `vmm_handle_page_fault` runs
     * and the store is retried; the retry always succeeds.
     */
    method UserStore(addr: nat, b: int, heapOk: bool, blank: Page) returns (outcome: StoreOutcome)
      requires Valid() && current.Some? && |blank| == PAGE_SIZE
      modifies this`regions, this`mappings, this`mem, this`nextRegion
      modifies pt`dirs, pt`tables, pt`kdir, pt.pm`free, pt.pm`used, pt.pm`owner
      ensures Valid() && current.value in old(Abs())
      ensures outcome == Killed <==> !EagerWritable(old(Abs())[current.value], addr)
      ensures outcome == Stored ==> Abs() == EagerStore(old(Abs()), current.value, addr, b)
      ensures outcome != Stored ==> Abs() == old(Abs())
      ensures outcome == Panicked <==>
                EagerWritable(old(Abs())[current.value], addr) && Blocked(old(Now()), heapOk, addr / PAGE_SIZE)
      ensures outcome == Killed ==> Now() == old(Now())
      ensures outcome == Stored ==> CopyPaid(old(Now()), addr / PAGE_SIZE, |pt.pm.free|)
      ensures pt.KernelMap() == old(pt.KernelMap()) && pt.Slots() == old(pt.Slots())
    {
      hide RegionsOk, DisjointOk, TablesOk, RefsOk, Paging.Valid, Paging.UserMaps, ListsOk, MapsOk, SpacesFit,
           RegionFrames, Views, EagerWritable, Covers, Paging.ReservedFree, Now, Blocked, CopyPaid,
           Paging.KernelMap, Paging.Slots, EagerStore, AllWritable;
      CurrentSpace(spaces, held, current, pt.registered, pt.active);
      pt.Domain();
      if addr / PAGE_SIZE >= USER_PAGES {
        BeyondUser(addr);
        return Killed;
      }
      var e := pt.ReadEntry(addr / PAGE_SIZE);
      if e.present && e.rw && e.user {
        NotBlocked(addr / PAGE_SIZE, heapOk);
        StoreThrough(addr, b);
        return Stored;
      }
      var found := FindMapping(addr / PAGE_SIZE);
      if found.None? {
        UnmappedPage(addr);
        return Killed;
      }
      WritableMapping(found.value, addr);
      BlockedBy(found.value, addr / PAGE_SIZE, heapOk);
      if !regions[mappings[found.value].region].prot.write {
        return Killed;
      }
      var err := HandleCowFault(found.value, heapOk, blank);
      if err != Ok {
        return Panicked;
      }
      PageWritable(pt.UserMaps()[current.value], old(mappings)[found.value], addr / PAGE_SIZE);
      StoreThrough(addr, b);
      return Stored;
    }

    /** A store to a page of mapping `m` needs a copy if the region is shared. */
    lemma BlockedBy(m: nat, v: nat, heapOk: bool)
      requires Valid() && m in mappings && m in home && current == Some(home[m]) && Covers(mappings[m], v)
      ensures mappings[m].region in regions
      ensures Blocked(Now(), heapOk, v) <==>
              regions[mappings[m].region].refcnt != 1 && !(heapOk && mappings[m].pages <= |pt.pm.free|)
      ensures CopyPaid(Now(), v, |pt.pm.free| - if regions[mappings[m].region].refcnt == 1 then
                         0 else mappings[m].pages)
    {
      hide RegionsOk, DisjointOk, TablesOk, RefsOk, Paging.Valid, ListsOk, SpacesFit, RegionFrames, Views, Tops,
           Paging.Slots, Paging.KernelMap, Paging.UserMaps;
      SourceRegion(mappings, home, regions, nextMapping, m);
      RefPositive(regions, Rf(), mem, nextRegion, mappings[m].region);
      forall q | q in mappings && q in home && current == Some(home[q]) && Covers(mappings[q], v)
        ensures q == m
      {
        SameMapping(mappings, home, q, m, v);
      }
      assert regions[mappings[m].region].refcnt > 1 ==>
          Range(mappings[m].start, mappings[m].pages) in SharedRanges();
    }

    /** A page that the tables let the process write is not shared. */
    lemma NotBlocked(v: nat, heapOk: bool)
      requires Valid() && current.Some? && current.value in pt.UserMaps() && v in pt.UserMaps()[current.value]
      requires pt.UserMaps()[current.value][v].rw
      ensures !Blocked(Now(), heapOk, v) && CopyPaid(Now(), v, |pt.pm.free|)
    {
      hide RegionsOk, DisjointOk, TablesOk, RefsOk, Paging.Valid, ListsOk, SpacesFit, RegionFrames, Views, Tops,
           Paging.Slots, Paging.KernelMap, Paging.UserMaps, MapsOk;
      forall m | m in mappings && m in home && current == Some(home[m]) && Covers(mappings[m], v)
        ensures mappings[m].region in regions && regions[mappings[m].region].refcnt == 1
      {
        PageInvariant(m, v);
      }
    }

    lemma BeyondUser(addr: nat)
      requires Valid() && current.Some? && addr / PAGE_SIZE >= USER_PAGES
      ensures current.value in Abs() && !EagerWritable(Abs()[current.value], addr)
    {
      hide RegionsOk, DisjointOk, TablesOk, RefsOk, Paging.Valid, UserMapsOf, ListsOk, MapsOk, SpacesFit, RegionFrames,
           Flat;
      CurrentSpace(spaces, held, current, pt.registered, pt.active);
      pt.Domain();
      ViewKeys(spaces, pt.UserMaps(), Rf(), regions, mem, current.value);
    }

    /** What the address spaces other than `s` observe. */
    ghost function Others(s: nat): EagerState
      reads this, pt, pt.pm
    {
      Views(spaces - {s}, pt.UserMaps(), Rf(), regions, mem)
    }

    /** One turn of `vmm_destroy_mappings`. */
    method DropMapping(s: nat, m: nat)
      requires pt.Valid() && Consistent({s}, {}) && s in spaces && m in spaces[s].maps
      modifies this`regions, this`mappings, this`home, this`spaces, pt.pm`free, pt.pm`used, pt.pm`owner
      ensures pt.Valid() && Consistent({s}, {}) && Others(s) == old(Others(s))
      ensures s in spaces && spaces == old(spaces)[s := old(spaces)[s].(maps := Erase(old(spaces)[s].maps, m))]
      ensures |spaces[s].maps| == |old(spaces)[s].maps| - 1
    {
      hide RegionsOk, DisjointOk, TablesOk, RefsOk, MapsOk, ListsOk, NoDup, Erase, Holders, View, Paging.Valid,
           Paging.UserMaps, Views, RegionFrames, Without;
      ghost var regions0, mappings0, home0, spaces0, rf0 := regions, mappings, home, spaces, Rf();
      ListFacts(spaces, mappings, home, regions, nextMapping, s);
      HomeFacts(spaces, mappings, home, regions, nextMapping, s, m);
      var r := mappings[m].region;
      RefPositive(regions, rf0, mem, nextRegion, r);
      EraseList(spaces, home, s, m);
      EraseNoDup(spaces[s].maps, m);
      DropRefs(regions, mappings, m);
      RegionUnref(r);
      WithoutKeeps(rf0, r);
      DropTables({s}, regions0, mappings0, home0, pt.UserMaps(), m, nextMapping, regions);
      ViewsDrop(s, spaces - {s}, regions0, mappings0, home0, rf0, pt.UserMaps(), mem, nextRegion, nextMapping, m,
                regions, Rf());
      mappings := mappings - {m};
      home := home - {m};
      spaces := spaces[s := spaces[s].(maps := Erase(spaces[s].maps, m))];
      assert spaces - {s} == spaces0 - {s};
    }

    /** `vmm_destroy_mappings` */
    method DestroyMappings(s: nat)
      requires pt.Valid() && Consistent({s}, {}) && s in spaces
      modifies this`regions, this`mappings, this`home, this`spaces, pt.pm`free, pt.pm`used, pt.pm`owner
      ensures pt.Valid() && Consistent({s}, {}) && Others(s) == old(Others(s))
      ensures s in spaces && spaces == old(spaces)[s := old(spaces)[s].(maps := [])]
      ensures forall m :: m in home ==> home[m] != s
    {
      hide RegionsOk, DisjointOk, TablesOk, RefsOk, MapsOk, View, Paging.Valid, Paging.UserMaps, Views, RegionFrames;
      while spaces[s].maps != []
        invariant pt.Valid() && Consistent({s}, {}) && Others(s) == old(Others(s))
        invariant s in spaces && spaces == old(spaces)[s := old(spaces)[s].(maps := spaces[s].maps)]
        decreases |spaces[s].maps|
      {
        DropMapping(s, spaces[s].maps[0]);
      }
    }

    /** `vmm_destroy`, for a space that nobody refers to any more and that may still be the active one. */
    method TearDown(s: nat)
      requires pt.Valid() && Consistent({s}, {}) && s in spaces && s in pt.registered
      modifies this`regions, this`mappings, this`home, this`spaces
      modifies pt`dirs, pt`registered, pt.pm`free, pt.pm`used, pt.pm`owner
      ensures pt.pm.Valid() && NoDup(pt.registered) && pt.registered == Erase(old(pt.registered), s)
      ensures forall x :: x in pt.registered <==> x in old(pt.registered) && x != s
      ensures forall x :: x in pt.registered ==> x in pt.pm.owner && pt.pm.owner[x].Directory?
      ensures Wf(old(pt.Live()) - {s}, pt.dirs, pt.tables, pt.kdir, pt.pm.owner)
      ensures UserMapsOf(old(pt.Live()) - {s}, pt.dirs, pt.tables) == old(pt.UserMaps()) - {s}
      ensures s != pt.active ==> pt.Valid() && pt.UserMaps() == old(pt.UserMaps()) - {s} && (old(pt.ReservedFree()) ==>
                  pt.ReservedFree()) && pt.KernelMap() == old(pt.KernelMap())
      ensures HeapOwned(pt.heap, pt.pm.owner)
      ensures spaces == old(spaces) - {s} && RefsOk(regions, mappings, {})
      ensures Shape({}, regions, mappings, home, spaces, Rf(), old(pt.UserMaps()) - {s}, mem, nextRegion, nextMapping)
      ensures Views(spaces, old(pt.UserMaps()) - {s}, Rf(), regions, mem) == old(Others(s))
    {
      hide RegionsOk, DisjointOk, TablesOk, RefsOk, MapsOk, ListsOk, NoDup, Erase, View, Paging.Valid, PageFrames.Valid,
           Views, RegionFrames, Wf, UserMapsOf, Paging.ReservedFree, HeapOwned;
      ghost var um0 := pt.UserMaps();
      DestroyMappings(s);
      ForgetSpace(regions, mappings, home, um0, nextMapping, s);
      ForgetList(spaces, home, s);
      pt.DestroyDir(s);
      ViewsForget(spaces, um0, Rf(), regions, mem, s);
      spaces := spaces - {s};
      assert s != pt.active ==> pt.Live() == old(pt.Live()) - {s};
    }

    /** `vmm_unref` by the process that held `s`. */
    method Exit(s: nat)
      requires Valid() && s in held
      modifies this`regions, this`mappings, this`home, this`spaces, this`held
      modifies pt`dirs, pt`registered, pt.pm`free, pt.pm`used, pt.pm`owner
      ensures Valid() && held == old(held) - {s} && pt.KernelMap() == old(pt.KernelMap())
      ensures Abs() == if current == Some(s) then old(Abs()) else old(Abs()) - {s}
    {
      hide RegionsOk, DisjointOk, TablesOk, RefsOk, MapsOk, ListsOk, View, Paging.Valid, PageFrames.Valid, Views,
           RegionFrames, Wf,
           UserMapsOf, Paging.ReservedFree, NoDup, Erase, SpacesFit, Elems;
      ghost var spaces0 := spaces;
      FitExit(spaces, held, current, pt.registered, pt.active, s, Erase(pt.registered, s)) by {
        pt.ErasedRegistered(s);
      }
      held := held - {s};
      spaces := spaces[s := spaces[s].(refcnt := spaces[s].refcnt - 1)];
      RefsOnly(spaces0, spaces, home, pt.UserMaps(), Rf(), regions, mem);
      if spaces[s].refcnt == 0 {
        HideSpace(regions, mappings, home, pt.UserMaps(), nextMapping, s);
        ViewsForget(spaces, pt.UserMaps(), Rf(), regions, mem, s);
        TearDown(s);
      }
    }

    /** The first half of `vmm_switch_to`: the processor drops its reference to the current space. */
    method LeaveCurrent()
      requires Valid()
      modifies this`regions, this`mappings, this`home, this`spaces
      modifies pt`dirs, pt`registered, pt.pm`free, pt.pm`used, pt.pm`owner
      ensures pt.pm.Valid() && NoDup(pt.registered) &&
              Wf(Elems(pt.registered), pt.dirs, pt.tables, pt.kdir, pt.pm.owner)
      ensures forall x :: x in pt.registered ==> x in pt.pm.owner && pt.pm.owner[x].Directory?
      ensures HeapOwned(pt.heap, pt.pm.owner)
      ensures spaces.Keys == Elems(pt.registered) && held <= spaces.Keys
      ensures OnlyHeld(spaces, held)
      ensures RefsOk(regions, mappings, {})
      ensures var um := UserMapsOf(Elems(pt.registered), pt.dirs, pt.tables);
        && Shape({}, regions, mappings, home, spaces, Rf(), um, mem, nextRegion, nextMapping)
        && Views(spaces, um, Rf(), regions, mem) ==
           if current.Some? && current.value !in held then old(Abs()) - {current.value} else old(Abs())
    {
      hide RegionsOk, DisjointOk, TablesOk, RefsOk, MapsOk, ListsOk, View, Views, RegionFrames, Wf, UserMapsOf,
           Paging.ReservedFree, NoDup, Erase, KernelFlat, PageFrames.Valid, KernelMapOf, HeapOwned, SpacesFit,
           OnlyHeld;
      pt.SwitchReady();
      FitLeave(spaces, held, current, pt.registered, pt.active);
      ghost var spaces0, um0 := spaces, pt.UserMaps();
      if current.Some? {
        var s := current.value;
        spaces := spaces[s := spaces[s].(refcnt := spaces[s].refcnt - 1)];
        RefsOnly(spaces0, spaces, home, um0, Rf(), regions, mem);
        if spaces[s].refcnt == 0 {
          HideSpace(regions, mappings, home, um0, nextMapping, s);
          ViewsForget(spaces, um0, Rf(), regions, mem, s);
          TearDown(s);
          assert old(pt.Live()) - {s} == Elems(pt.registered);
        } else {
          assert {pt.active} - Elems(pt.registered) == {};
          assert um0 - {} == um0;
        }
      } else {
        BootSpace(regions, mappings, home, spaces, um0, nextMapping, pt.active, Rf(), mem);
        assert {pt.active} - Elems(pt.registered) == {pt.active};
      }
    }

    /** `vmm_switch_to` a space that a process holds; the one left behind is destroyed if nobody else holds it. */
    method SwitchTo(c: nat)
      requires Valid() && c in held
      modifies this`regions, this`mappings, this`home, this`spaces, this`current
      modifies pt`dirs, pt`registered, pt`active, pt.pm`free, pt.pm`used, pt.pm`owner
      ensures Valid() && current == Some(c) && pt.KernelMap() == old(pt.KernelMap())
      ensures Abs() == if old(current).Some? && old(current).value !in held then
                old(Abs()) - {old(current).value} else old(Abs())
    {
      hide RegionsOk, DisjointOk, TablesOk, RefsOk, MapsOk, ListsOk, View, Views, RegionFrames, Wf, UserMapsOf,
           Paging.ReservedFree, Paging.Valid, NoDup, KernelFlat, PageFrames.Valid, KernelMapOf, SpacesFit, HeapOwned;
      if current == Some(c) {
        return;
      }
      pt.SwitchReady();
      LeaveCurrent();
      FitSwitch(spaces, held, pt.registered, c);
      current := Some(c);
      ghost var spaces1 := spaces;
      spaces := spaces[c := spaces[c].(refcnt := spaces[c].refcnt + 1)];
      pt.Switch(c);
      RefsOnly(spaces1, spaces, home, pt.UserMaps(), Rf(), regions, mem);
    }

    /** `vmm_create`, for a process that then holds the space. */
    method CreateSpace(heapOk: bool) returns (err: Errno, c: nat)
      requires Valid()
      modifies this`spaces, this`held
      modifies pt`dirs, pt`tables, pt`kdir, pt`registered, pt.pm`free, pt.pm`used, pt.pm`owner
      ensures Valid()
      ensures err == Ok <==> heapOk && old(pt.pm.free) != []
      ensures err in {Ok, ENOMEM} && |pt.pm.free| == |old(pt.pm.free)| - if err == Ok then 1 else 0
      ensures pt.Slots() == old(pt.Slots()) && pt.KernelMap() == old(pt.KernelMap())
      ensures err != Ok ==> Abs() == old(Abs()) && spaces == old(spaces) && held == old(held)
      ensures err == Ok ==> c !in old(spaces) && spaces == old(spaces)[c := Space([], 1)] && held == old(held) + {c}
      ensures err == Ok ==> Abs() == old(Abs())[c := map[]]
      ensures err == Ok ==> c in pt.dirs && |pt.dirs[c]| == ENTRIES && forall i :: 0 <= i < USER_DIR ==>
                !pt.dirs[c][i].present
    {
      hide RegionsOk, DisjointOk, TablesOk, RefsOk, MapsOk, ListsOk, View, Views, RegionFrames, Wf, UserMapsOf,
           Paging.ReservedFree, Paging.Valid, NoDup, KernelMapOf, SpacesFit;
      if !heapOk {
        return ENOMEM, 0;
      }
      ghost var um0 := pt.UserMaps();
      pt.Domain();
      Registered(spaces, held, current, pt.registered, pt.active);
      err, c := pt.CreateDir();
      if err != Ok {
        return;
      }
      JoinSpace(regions, mappings, home, spaces, um0, Rf(), mem, nextMapping, c);
      FitCreate(spaces, held, current, old(pt.registered), pt.active, c);
      spaces := spaces[c := Space([], 1)];
      held := held + {c};
    }

    /** `mapping_copy_create` and its place in the clone's list. */
    method CopyMapping(src: nat, c: nat)
      requires Consistent({c}, {}) && src in mappings && c in spaces
      modifies this`regions, this`mappings, this`home, this`spaces, this`nextMapping
      ensures Consistent({c}, {}) && SameButRefs(old(regions), regions)
      ensures mappings == old(mappings)[old(nextMapping) := old(mappings)[src]] && old(nextMapping) !in old(mappings)
      ensures spaces == old(spaces)[c := old(spaces)[c].(maps := old(spaces)[c].maps + [old(nextMapping)])]
    {
      hide RegionsOk, DisjointOk, TablesOk, RefsOk, MapsOk, ListsOk, NoDup, UserMapsOf, RegionFrames;
      ListFacts(spaces, mappings, home, regions, nextMapping, c);
      SourceRegion(mappings, home, regions, nextMapping, src);
      var id, r := nextMapping, mappings[src].region;
      ghost var regions0, mappings0, home0, spaces0 := regions, mappings, home, spaces;
      RefRegions(regions, Rf(), mem, nextRegion, r);
      AppendList(spaces, home, c, id);
      regions := regions[r := regions[r].(refcnt := regions[r].refcnt + 1)];
      mappings := mappings[id := mappings[src]];
      home := home[id := c];
      spaces := spaces[c := spaces[c].(maps := spaces[c].maps + [id])];
      nextMapping := id + 1;
      CopyTables({c}, regions0, mappings0, home0, pt.UserMaps(), c, src, id, regions);
      CopyRefs(regions0, mappings0, src, id, regions);
    }

    /** The list loop of `vmm_clone`; the heap provides `copies` descriptors. */
    method CloneMappings(p: nat, c: nat, copies: nat) returns (ok: bool)
      requires Consistent({c}, {}) && p in spaces && c in spaces && p != c && spaces[c].maps == []
      modifies this`regions, this`mappings, this`home, this`spaces, this`nextMapping
      ensures Consistent({c}, {}) && SameButRefs(old(regions), regions)
      ensures c in spaces && spaces == old(spaces)[c := old(spaces)[c].(maps := spaces[c].maps)]
      ensures ok <==> |old(spaces)[p].maps| <= copies
      ensures ok ==> Twin(mappings, home, p, c, spaces[p].maps, spaces[c].maps)
    {
      hide RegionsOk, DisjointOk, TablesOk, RefsOk, MapsOk, ListsOk, NoDup, UserMapsOf, RegionFrames, Twin;
      var maps := spaces[p].maps;
      ListFacts(spaces, mappings, home, regions, nextMapping, p);
      for k := 0 to |maps|
        invariant k <= copies
        invariant Consistent({c}, {}) && SameButRefs(old(regions), regions)
        invariant c in spaces && spaces == old(spaces)[c := old(spaces)[c].(maps := spaces[c].maps)]
        invariant |spaces[c].maps| == k && forall m :: m in maps ==> m in mappings
        invariant forall j :: 0 <= j < k ==>
                    spaces[c].maps[j] in mappings && mappings[maps[j]] == mappings[spaces[c].maps[j]]
      {
        if k == copies {
          return false;
        }
        assert maps[k] in maps;
        CopyMapping(maps[k], c);
      }
      TwinLists(spaces, mappings, home, p, c);
      return true;
    }

    /** `vmm_clone` of the current space into the new, still hidden space `c`. */
    method Clone(c: nat, copies: nat) returns (ok: bool)
      requires pt.Valid() && pt.ReservedFree() && Consistent({c}, {}) && SpacesOk() && current.Some?
      requires c in spaces && c != current.value && spaces[c].maps == []
      requires c in pt.dirs && |pt.dirs[c]| == ENTRIES && forall i :: 0 <= i < USER_DIR ==> !pt.dirs[c][i].present
      modifies this`regions, this`mappings, this`home, this`spaces, this`nextMapping
      modifies pt`dirs, pt`tables, pt.pm`free, pt.pm`used, pt.pm`owner
      ensures pt.Valid() && pt.ReservedFree() && SpacesOk() && c in spaces && SameSpaces(old(spaces), spaces)
      ensures ok ==> Consistent({}, {}) && current.value in old(Abs()) &&
                     Abs() == old(Abs())[c := old(Abs())[current.value]]
      ensures !ok ==> Consistent({c}, {}) && Others(c) == old(Others(c))
      ensures ok <==> |old(spaces)[current.value].maps| <= copies && UserSlots(old(pt.Slots())) <= |old(pt.pm.free)|
      ensures ok ==> |pt.pm.free| == |old(pt.pm.free)| - UserSlots(old(pt.Slots())) && pt.Slots() == old(pt.Slots())
      ensures pt.KernelMap() == old(pt.KernelMap())
    {
      hide RegionsOk, DisjointOk, TablesOk, RefsOk, MapsOk, ListsOk, NoDup, UserMapsOf, RegionFrames, Twin, Views, Wf,
           Paging.Valid, Paging.ReservedFree, SpacesFit, Shared, Copied, SameButRefs;
      CurrentSpace(spaces, held, current, pt.registered, pt.active);
      HeldSpace(spaces, held, current, pt.registered, pt.active, c);
      pt.Domain();
      var p := current.value;
      ghost var regions0, spaces0, um0 := regions, spaces, pt.UserMaps();
      ViewKeys(spaces, um0, Rf(), regions, mem, p);
      ok := CloneMappings(p, c, copies);
      SpacesKept(spaces0, spaces, held, current, pt.registered, pt.active);
      ViewsSameButRefs(spaces, um0, Rf(), regions0, regions, mem);
      ViewsSameButRefs(spaces - {c}, um0, Rf(), regions0, regions, mem);
      ViewsSameSpaces(spaces0, spaces, um0, Rf(), regions0, mem, c);
      if ok {
        ghost var done;
        ok, done := pt.CloneCow(c);
        if ok {
          CloneTables(regions, mappings, home, um0, nextMapping, p, c, spaces[p].maps, spaces[c].maps, pt.UserMaps());
          ViewsClone(spaces, um0, Rf(), regions, mem, p, c);
        } else {
          SharedTables({c}, regions, mappings, home, um0, nextMapping, p, done, c, Copied(um0[p], done));
          ViewsWithout(spaces, um0, Rf(), regions, mem, p, done, c, Copied(um0[p], done));
          ViewsHidden(spaces, um0, Rf(), regions, mem, c);
        }
      }
    }

    /** The part of `sys_fork` that concerns memory: create, clone, and give everything back on failure. */
    method Fork(heapOk: bool, copies: nat) returns (err: Errno, c: nat)
      requires Valid() && current.Some? && current.value in spaces
      modifies this`regions, this`mappings, this`home, this`spaces, this`nextMapping, this`held
      modifies pt`dirs, pt`tables, pt`kdir, pt`registered, pt.pm`free, pt.pm`used, pt.pm`owner
      ensures Valid()
      ensures err == Ok ==> c !in old(spaces) && held == old(held) + {c} && current.value in old(Abs())
      ensures err == Ok ==> Abs() == old(Abs())[c := old(Abs())[current.value]]
      ensures err != Ok ==> Abs() == old(Abs()) && held == old(held)
      ensures err == Ok <==> heapOk && |old(spaces)[current.value].maps| <= copies &&
                             UserSlots(old(pt.Slots())) < |old(pt.pm.free)|
      ensures err == Ok ==> |pt.pm.free| == |old(pt.pm.free)| - 1 - UserSlots(old(pt.Slots())) &&
                            pt.Slots() == old(pt.Slots())
      ensures pt.KernelMap() == old(pt.KernelMap())
    {
      hide RegionsOk, DisjointOk, TablesOk, RefsOk, MapsOk, ListsOk, NoDup, UserMapsOf, RegionFrames, Views, Wf,
           Paging.Valid, Paging.ReservedFree, SpacesFit, Paging.KernelMap, Paging.Slots, UserSlots;
      CurrentSpace(spaces, held, current, pt.registered, pt.active);
      HeldFacts(spaces, held, current, pt.registered, pt.active);
      ViewsDomain(spaces, pt.UserMaps(), Rf(), regions, mem);
      err, c := CreateSpace(heapOk);
      if err != Ok {
        return;
      }
      assert old(Abs())[c := map[]] - {c} == old(Abs());
      CurrentSpace(spaces, held, current, pt.registered, pt.active);
      HideSpace(regions, mappings, home, pt.UserMaps(), nextMapping, c);
      ViewsForget(spaces, pt.UserMaps(), Rf(), regions, mem, c);
      var ok := Clone(c, copies);
      if !ok {
        Abandon(c);
        return ENOMEM, 0;
      }
    }

    /** `vmm_unref` of a space that was never completed. */
    method Abandon(c: nat)
      requires pt.Valid() && pt.ReservedFree() && Consistent({c}, {}) && SpacesOk() && c in held && current != Some(c)
      modifies this`regions, this`mappings, this`home, this`spaces, this`held
      modifies pt`dirs, pt`registered, pt.pm`free, pt.pm`used, pt.pm`owner
      ensures Valid() && held == old(held) - {c} && Abs() == old(Others(c)) && pt.KernelMap() == old(pt.KernelMap())
    {
      hide RegionsOk, DisjointOk, TablesOk, RefsOk, MapsOk, ListsOk, View, Paging.Valid, PageFrames.Valid, Views,
           RegionFrames, Wf,
           UserMapsOf, Paging.ReservedFree, NoDup, Erase, SpacesFit, Elems;
      ghost var spaces0 := spaces;
      FitExit(spaces, held, current, pt.registered, pt.active, c, Erase(pt.registered, c)) by {
        pt.ErasedRegistered(c);
      }
      held := held - {c};
      spaces := spaces[c := spaces[c].(refcnt := spaces[c].refcnt - 1)];
      RefsOnly(spaces0, spaces, home, pt.UserMaps(), Rf(), regions, mem);
      ViewsSameSpaces(spaces0, spaces, pt.UserMaps(), Rf(), regions, mem, c);
      TearDown(c);
    }

    /** Every kernel page that got a frame leads to it, writable and for the kernel only. */
    ghost predicate KernelOk()
      reads this, pt
    {
      KernelFits(pt.KernelMap(), pt.heap)
    }

    /** One page of `kheap_sbrk`: a frame of the kernel's own, mapped in every address space. */
    method MapKernelPage(v: nat) returns (err: Errno)
      requires Valid() && KernelOk() && USER_PAGES <= v < KERNEL_END_PAGE && v != RESERVED_PAGE
      modifies pt`dirs, pt`tables, pt`kdir, pt`heap, pt.pm`free, pt.pm`used, pt.pm`owner
      ensures Valid() && KernelOk() && Abs() == old(Abs())
      ensures err != Ok ==> pt.KernelMap() == old(pt.KernelMap()) && pt.heap == old(pt.heap)
      ensures err == Ok ==> v !in old(pt.KernelMap()) && v in pt.KernelMap() && v !in old(pt.heap)
      ensures err == Ok ==>
                var f := pt.KernelMap()[v].address;
                && f in old(pt.pm.free) && f in pt.pm.owner && pt.pm.owner[f] == KernelPage(v)
                && pt.KernelMap() == old(pt.KernelMap())[v := Pte(true, true, false, f)]
                && pt.heap == old(pt.heap)[v := f] && f !in old(pt.heap).Values
      ensures err == Ok <==> v !in old(pt.KernelMap()) &&
                             (if v / ENTRIES in old(pt.Slots()) then 1 else 2) <= |old(pt.pm.free)|
      ensures err == Ok ==>
                |pt.pm.free| == |old(pt.pm.free)| - (if v / ENTRIES in old(pt.Slots()) then 1 else 2) &&
                pt.Slots() == old(pt.Slots()) + {v / ENTRIES}
    {
      hide Shape, RefsOk, Views, Paging.Valid, RegionFrames, Wf, Paging.UserMaps, Paging.KernelMap, Paging.Slots,
           Paging.ReservedFree, SpacesFit, HeapOwned, KernelFits;
      KernelAbsent(pt.KernelMap(), pt.heap, v);
      var f: nat;
      err, f := GiveFrame(v);
      if err == Ok {
        pt.AdoptPage(v, f);
        KernelGrows(old(pt.KernelMap()), old(pt.heap), v, f);
      }
    }

    /** A frame is taken and mapped at kernel page `v`; it is lost if the page cannot be mapped. */
    method GiveFrame(v: nat) returns (err: Errno, f: nat)
      requires Valid() && USER_PAGES <= v < KERNEL_END_PAGE && v != RESERVED_PAGE
      modifies pt`dirs, pt`tables, pt`kdir, pt.pm`free, pt.pm`used, pt.pm`owner
      ensures Valid() && Abs() == old(Abs())
      ensures err != Ok ==> pt.KernelMap() == old(pt.KernelMap())
      ensures err == Ok ==>
                && v !in old(pt.KernelMap()) && pt.KernelMap() == old(pt.KernelMap())[v := Pte(true, true, false, f)]
                && f in old(pt.pm.free) && f != 0 && f in pt.pm.owner && pt.pm.owner[f] == KernelUse && f !in pt.Live()
      ensures err == Ok <==> v !in old(pt.KernelMap()) &&
                             (if v / ENTRIES in old(pt.Slots()) then 1 else 2) <= |old(pt.pm.free)|
      ensures err == Ok ==>
                |pt.pm.free| == |old(pt.pm.free)| - (if v / ENTRIES in old(pt.Slots()) then 1 else 2) &&
                pt.Slots() == old(pt.Slots()) + {v / ENTRIES}
    {
      hide RegionsOk, DisjointOk, TablesOk, RefsOk, MapsOk, ListsOk, View, Paging.Valid, Views, RegionFrames, Wf,
           UserMapsOf, KernelMapOf, SpacesFit, SlotsOf, HeapOwned;
      pt.SlotTable(v);
      f := pt.AllocDir();
      if f == 0 {
        return ENOMEM, 0;
      }
      ghost var owner0, free0 := pt.pm.owner, pt.pm.free;
      err := pt.MapPage(f, v, Prot(true, false));
      if pt.pm.owner != owner0 {
        OwnerViews(owner0, free0[0], TableOwner(pt.active, v));
      }
    }

    /** `vmm_range_is_free`, over the pages start .. start+n-1 */
    method RangeIsFree(start: nat, n: nat) returns (free: bool)
      requires current.Some? && current.value in spaces && ListsOk(spaces, home) &&
               MapsOk(mappings, home, regions, nextMapping)
      ensures free <==> RangeUncovered(start, n)
    {
      var i := 0;
      while i < n
        invariant 0 <= i <= n
        invariant RangeUncovered(start, i)
      {
        var found := FindMapping(start + i);
        if found.Some? {
          return false;
        }
        i := i + 1;
      }
      return true;
    }

    /** Address `a` lies in a mapping of the current space. */
    ghost predicate Mapped(a: nat)
      reads this
    {
      current.Some? && exists m :: m in mappings && m in home && home[m] == current.value &&
                                   Covers(mappings[m], a / PAGE_SIZE)
    }

    ghost predicate RangeUncovered(start: nat, n: nat)
      requires current.Some?
      reads this
    {
      forall m, v: nat :: m in mappings && m in home && home[m] == current.value && start <= v < start + n ==>
          !Covers(mappings[m], v)
    }

    /** No page of the range is covered by a mapping if and only if none is in the space's memory. */
    lemma RangeUnmapped(start: nat, n: nat)
      requires Valid() && current.Some?
      ensures current.value in Abs()
      ensures RangeFree(Abs()[current.value], start, n) <==> RangeUncovered(start, n)
    {
      hide Valid, Abs, Covers;
      BreakMapped(0);
      if RangeUncovered(start, n) {
        forall v: nat | start <= v < start + n
          ensures v !in Abs()[current.value]
        {
          BreakMapped(v * PAGE_SIZE);
        }
      } else {
        var m, v: nat :| m in mappings && m in home && home[m] == current.value && start <= v < start + n &&
                         Covers(mappings[m], v);
        BreakMapped(v * PAGE_SIZE);
        assert v * PAGE_SIZE / PAGE_SIZE == v;
        NotFree(Abs()[current.value], start, n, v);
      }
    }

    /** The rights of a mapping show in all its pages. */
    lemma TopTrue(m: nat, brk: nat)
      requires Valid() && m in mappings && m in home && current == Some(home[m]) && mappings[m].region in regions
      requires mappings[m].start * PAGE_SIZE <= brk < (mappings[m].start + mappings[m].pages) * PAGE_SIZE
      ensures current.value in Abs() && TopFits(TopOf(m), Abs()[current.value], brk)
      ensures brk < TopOf(m).end * PAGE_SIZE
    {
      hide Valid, Abs, EagerWritable;
      CoversBytes(mappings[m], brk);
      WritableMapping(m, brk);
      forall v | brk / PAGE_SIZE <= v < TopOf(m).end
        ensures v in Abs()[current.value]
      {
        assert v * PAGE_SIZE / PAGE_SIZE == v;
        WritableMapping(m, v * PAGE_SIZE);
      }
    }

    /** `vmm_extend_user_mapping` of the mapping `m` that holds the break and does not grow down. */
    method ExtendMapping(m: nat, brk: nat, increment: nat, heapOk: bool, blank: Page, ghost t: Top)
      returns (err: Errno, event: Event)
      requires increment > 0 && |blank| == PAGE_SIZE
      requires m in mappings && m in home && current == Some(home[m]) && !mappings[m].growsDown
      requires mappings[m].region in regions && t == TopOf(m)
      requires mappings[m].start * PAGE_SIZE <= brk < (mappings[m].start + mappings[m].pages) * PAGE_SIZE
      requires brk + increment + PAGE_SIZE <= USER_PAGES * PAGE_SIZE
      requires Valid()
      modifies this`regions, this`mappings, this`spaces, this`home, this`mem, this`nextRegion, this`nextMapping
      modifies pt`dirs, pt`tables, pt`kdir, pt.pm`free, pt.pm`used, pt.pm`owner
      ensures Grew(GrowthBeyond(t, brk, increment), heapOk, blank, err, event, old(Now()), Now())
      ensures KeepsMappings(old(mappings), mappings, old(home), home)
      ensures err != Ok ==> mappings == old(mappings)
      ensures err == Ok ==> forall a :: brk <= a < brk + increment ==> Mapped(a)
      ensures err == Ok ==> (brk + increment) % PAGE_SIZE == 0 || Mapped(brk + increment)
      ensures err == Ok ==> Stretched(old(Abs()), Abs(), current, brk, increment, blank)
      ensures Valid() && EagerStep(old(Abs()), event) == Some(Abs())
    {
      hide RegionsOk, DisjointOk, TablesOk, RefsOk, Paging.Valid, Views, RegionFrames, UserMapsOf, KernelMapOf,
           SpacesFit, EagerCreate, RangeFree, Paging.ReservedFree, Wf, Covers, ListsOk, MapsOk, Paging.Slots, Missing,
           Touched, Tops, SharedRanges, EagerStep, Paid, Extended, TopFits;
      CurrentSpace(spaces, held, current, pt.registered, pt.active);
      SpaceVisible(current.value);
      TopTrue(m, brk);
      var mp := mappings[m];
      var end := (mp.start + mp.pages) * PAGE_SIZE;
      err, event := Ok, Silent;
      SilentStep(Abs(), event);
      if end <= brk + increment - 1 {
        var diff := brk + increment - (end - 1);
        RangeUnmapped(mp.start + mp.pages, (diff + PAGE_SIZE - 1) / PAGE_SIZE);
        var free := RangeIsFree(mp.start + mp.pages, (diff + PAGE_SIZE - 1) / PAGE_SIZE);
        if !free {
          return EINVAL, Silent;
        }
        err, event := Create(end, diff, regions[mp.region].prot.write, heapOk, blank);
      }
      if err == Ok {
        CreatedCells(GrowthBeyond(t, brk, increment), heapOk, blank, err, event, old(Now()), Now(), current.value);
        BeyondExtends(old(Abs())[current.value], Abs()[current.value], t, brk, increment, blank);
        assert m in mappings && mappings[m] == mp;
        forall a | brk <= a < end
          ensures Mapped(a)
        {
          CoversBytes(mp, a);
        }
      }
    }

    /**
     * The mapping part of `sys_sbrk`, for a break that is page aligned or in a mapping, outside mappings that grow
     * down.
     */
    method MoveBreak(brk: nat, increment: nat, heapOk: bool, blank: Page) returns (err: Errno, event: Event)
      requires current.Some? && increment > 0 && |blank| == PAGE_SIZE
      requires brk % PAGE_SIZE == 0 || Mapped(brk)
      requires brk + increment + PAGE_SIZE <= USER_PAGES * PAGE_SIZE
      requires forall t :: t in Tops(brk) ==> !t.growsDown
      requires Valid()
      modifies this`regions, this`mappings, this`spaces, this`home, this`mem, this`nextRegion, this`nextMapping
      modifies pt`dirs, pt`tables, pt`kdir, pt.pm`free, pt.pm`used, pt.pm`owner
      ensures Grew(GrowthOf(old(Tops(brk)), brk, increment), heapOk, blank, err, event, old(Now()), Now())
      ensures KeepsMappings(old(mappings), mappings, old(home), home)
      ensures err != Ok ==> mappings == old(mappings)
      ensures err == Ok ==> forall a :: brk <= a < brk + increment ==> Mapped(a)
      ensures err == Ok ==> (brk + increment) % PAGE_SIZE == 0 || Mapped(brk + increment)
      ensures err == Ok ==> Stretched(old(Abs()), Abs(), current, brk, increment, blank)
      ensures Valid() && EagerStep(old(Abs()), event) == Some(Abs())
    {
      hide RegionsOk, DisjointOk, TablesOk, RefsOk, Paging.Valid, Views, RegionFrames, UserMapsOf, KernelMapOf,
           SpacesFit, EagerCreate, RangeFree, Paging.ReservedFree, Wf, Covers, ListsOk, MapsOk, EagerStep, Grew,
           Tops, Stretched, SharedRanges, GrowthOf, Mapped;
      CurrentSpace(spaces, held, current, pt.registered, pt.active);
      var found := FindMapping(brk / PAGE_SIZE);
      if found.None? {
        NoTop(brk);
        BreakMapped(brk);
        NothingAt(brk);
        err, event := Create(brk, increment, true, heapOk, blank);
        CreateGrew(brk, increment, heapOk, blank, err, event, old(Now()), Now());
        MovedAlone(brk, increment, heapOk, blank, err, event, old(Now()));
      } else {
        OneTop(brk, found.value);
        CoversBytes(mappings[found.value], brk);
        OneGrowth(TopOf(found.value), brk, increment);
        err, event := ExtendMapping(found.value, brk, increment, heapOk, blank, TopOf(found.value));
      }
    }

    lemma NothingAt(brk: nat)
      requires current.Some? && forall m :: m in mappings && m in home && home[m] == current.value ==>
                 !Covers(mappings[m], brk / PAGE_SIZE)
      ensures !Mapped(brk)
    {
    }

    /** A break in no mapping moves. */
    lemma MovedAlone(brk: nat, increment: nat, heapOk: bool, blank: Page, err: Errno, event: Event, m: Moment)
      requires Valid() && current.Some? && m.current == current && current.value in m.memory && increment > 0
      requires Grew(GrowthOf({}, brk, increment), heapOk, blank, err, event, m, Now())
      requires EagerStep(m.memory, event) == Some(Abs()) && brk % PAGE_SIZE == 0
      requires brk / PAGE_SIZE !in m.memory[current.value]
      ensures err == Ok ==> Stretched(m.memory, Abs(), current, brk, increment, blank)
    {
      hide Valid, Abs, Grew, GrowthOf, EagerStep, Extended, EagerMap, RangeFree, Tops, SharedRanges;
      if err == Ok {
        CreatedCells(GrowthOf({}, brk, increment), heapOk, blank, err, event, m, Now(), current.value);
        AloneExtends(m.memory[current.value], Abs()[current.value], brk, increment, blank);
      }
    }

    /** The break of every process is page aligned or in its memory. */
    ghost predicate BreaksOk()
      reads this, pt, pt.pm
    {
      BreaksFit(Abs(), breaks)
    }

    ghost function TopOf(m: nat): Top
      requires m in mappings && mappings[m].region in regions
      reads this
    {
      Top(mappings[m].start + mappings[m].pages, regions[mappings[m].region].prot.write, mappings[m].growsDown)
    }

    /** The mappings of the current space around address `a`: one or none. */
    ghost function Tops(a: nat): set<Top>
      reads this
    {
      set m | m in mappings && m in home && current == Some(home[m]) && Covers(mappings[m], a / PAGE_SIZE) &&
              mappings[m].region in regions :: TopOf(m)
    }

    ghost function SharedRanges(): set<Range>
      reads this
    {
      set m | m in mappings && m in home && current == Some(home[m]) && mappings[m].region in regions &&
              regions[mappings[m].region].refcnt > 1 :: Range(mappings[m].start, mappings[m].pages)
    }

    ghost function Now(): Moment
      reads this, pt, pt.pm
    {
      Moment(current, held, Abs(), breaks, |pt.pm.free|, pt.Slots(),
             if current.Some? && current.value in spaces then |spaces[current.value].maps| else 0, SharedRanges(),
             if current.Some? && current.value in breaks then Tops(breaks[current.value])
                                                              else {}, pt.KernelMap(), pt.heap)
    }

    lemma NoTop(a: nat)
      requires Valid() && current.Some?
      requires forall m :: m in mappings && home[m] == current.value ==> !Covers(mappings[m], a / PAGE_SIZE)
      ensures Tops(a) == {}
    {
      hide Shape, RefsOk, Paging.Valid, SpacesFit, Covers;
    }

    lemma OneTop(a: nat, m: nat)
      requires Valid() && m in mappings && m in home && current == Some(home[m]) && Covers(mappings[m], a / PAGE_SIZE)
      ensures mappings[m].region in regions && Tops(a) == {TopOf(m)} && !(TopOf(m).growsDown) == !mappings[m].growsDown
    {
      hide RegionsOk, TablesOk, RefsOk, Paging.Valid, ListsOk, SpacesFit, RegionFrames, Covers, DisjointOk;
      SourceRegion(mappings, home, regions, nextMapping, m);
      hide MapsOk;
      forall q | q in mappings && q in home && current == Some(home[q]) && Covers(mappings[q], a / PAGE_SIZE)
        ensures q == m
      {
        SameMapping(mappings, home, q, m, a / PAGE_SIZE);
      }
      assert TopOf(m) in Tops(a);
    }

    static lemma CreateGrew(brk: nat, increment: nat, heapOk: bool, blank: Page, err: Errno, event: Event, m: Moment,
                            m': Moment)
      requires Created(m, heapOk, brk / PAGE_SIZE, (increment + PAGE_SIZE - 1) / PAGE_SIZE, true, blank, err, event, m')
      ensures Grew(GrowthOf({}, brk, increment), heapOk, blank, err, event, m, m')
    {
    }

    /**
     * `sys_sbrk` by a positive increment, outside mappings that grow down: on success every byte between the old
     * and the new break is mapped, and nothing else changes in any address space. It fails if and only if the pages
     * beyond the mapping that holds the break are not free or there is no memory for them.
     */
    method Sbrk(increment: nat, heapOk: bool, blank: Page) returns (err: Errno, event: Event)
      requires Valid() && BreaksOk() && SbrkAllowed(Now(), increment, blank)
      modifies this`regions, this`mappings, this`spaces, this`home, this`mem, this`nextRegion, this`nextMapping,
               this`breaks
      modifies pt`dirs, pt`tables, pt`kdir, pt.pm`free, pt.pm`used, pt.pm`owner
      ensures Valid() && BreaksOk() && EagerStep(old(Abs()), event) == Some(Abs())
      ensures SbrkAnswer(old(Now()), increment, heapOk, blank, event, Now())
      ensures KeepsMappings(old(mappings), mappings, old(home), home)
      ensures var brk := old(breaks)[current.value];
              if err == Ok then
                breaks == old(breaks)[current.value := brk + increment] &&
                (forall a :: brk <= a < brk + increment ==> Mapped(a)) &&
                Stretched(old(Abs()), Abs(), current, brk, increment, blank)
              else
                breaks == old(breaks) && mappings == old(mappings) && Abs() == old(Abs())
    {
      hide Valid, Abs, EagerStep, Covers, BreaksFit, Mapped, Grew, GrowthOf, Grants, Tops, SharedRanges,
           Stretched;
      var s, brk := current.value, breaks[current.value];
      BreakMapped(brk);
      BreakThere(Abs(), breaks, s);
      err, event := MoveBreak(brk, increment, heapOk, blank);
      BreaksStep(old(Abs()), event, breaks);
      ghost var m1 := Now();
      assert event.NewMapping? || event == Silent by {
        GrewEvent(GrowthOf(old(Tops(brk)), brk, increment), heapOk, blank, err, event, old(Now()), m1);
      }
      if event == Silent {
        SilentStep(old(Abs()), event);
      }
      if err == Ok {
        BreakMapped(brk + increment);
        BreakMoved(Abs(), breaks, s, brk + increment);
        SetBreaks(breaks[s := brk + increment]);
      }
      GrewAnswer(increment, heapOk, blank, err, event, old(Now()), m1, Now());
    }

    static lemma GrewEvent(g: Growth, heapOk: bool, blank: Page, err: Errno, event: Event, m: Moment, m': Moment)
      requires Grew(g, heapOk, blank, err, event, m, m')
      ensures event.NewMapping? || event == Silent
    {
    }

    /** What the mapping part did, and the break that moves on success, answer the request. */
    static lemma GrewAnswer(increment: nat, heapOk: bool, blank: Page, err: Errno, event: Event, m: Moment, m1: Moment,
                            m': Moment)
      requires SbrkAllowed(m, increment, blank)
      requires Grew(GrowthOf(m.tops, m.breaks[m.current.value], increment), heapOk, blank, err, event, m, m1)
      requires err != Ok ==> m' == m1
      requires err == Ok ==>
                 m' == m1.(breaks := m.breaks[m.current.value := m.breaks[m.current.value] + increment],
                           tops := m'.tops)
      requires err == Ok ==>
                 Stretched(m.memory, m'.memory, m.current, m.breaks[m.current.value], increment, blank)
      ensures SbrkAnswer(m, increment, heapOk, blank, event, m')
    {
      hide Grants, GrowthOf, Missing, Touched, Stretched;
    }

    /** `vmm_create_user_mapping` as `sys_sbrk` uses it. */
    method Create(addr: nat, size: nat, write: bool, heapOk: bool, blank: Page) returns (err: Errno, event: Event)
      requires Valid() && current.Some? && addr % PAGE_SIZE == 0 && size > 0 && addr + size <= USER_PAGES * PAGE_SIZE
      requires |blank| == PAGE_SIZE
      modifies this`regions, this`mappings, this`spaces, this`home, this`mem, this`nextRegion, this`nextMapping
      modifies pt`dirs, pt`tables, pt`kdir, pt.pm`free, pt.pm`used, pt.pm`owner
      ensures Created(old(Now()), heapOk, addr / PAGE_SIZE, (size + PAGE_SIZE - 1) / PAGE_SIZE, write, blank, err,
                      event,
                      Now())
      ensures KeepsMappings(old(mappings), mappings, old(home), home)
      ensures err != Ok ==> mappings == old(mappings)
      ensures err == Ok ==> forall a :: addr <= a < addr + (size + PAGE_SIZE - 1) / PAGE_SIZE * PAGE_SIZE ==> Mapped(a)
      ensures Valid() && EagerStep(old(Abs()), event) == Some(Abs())
    {
      hide RegionsOk, DisjointOk, TablesOk, RefsOk, ListsOk, Paging.Valid, Views, RegionFrames, UserMapsOf, KernelMapOf,
           SpacesFit, Paging.ReservedFree, Wf, Paging.Slots, Missing, RangeFree, EagerCreate, Touched, Tops,
             SharedRanges, Added,
           Mapped, Blanks, MapsOk;
      var n := (size + PAGE_SIZE - 1) / PAGE_SIZE;
      ghost var id, s := nextMapping, current.value;
      CurrentSpace(spaces, held, current, pt.registered, pt.active);
      var pages := Blanks(n, blank);
      err := CreateUserMapping(addr, size, write, false, heapOk, pages);
      CurrentSpace(spaces, held, current, pt.registered, pt.active);
      event := Silent;
      if err == Ok {
        event := NewMapping(current.value, addr / PAGE_SIZE, write, pages);
        AddedKeeps(old(mappings), mappings, old(home), home, id, s, addr / PAGE_SIZE, n);
        NowMapped(id, addr, n);
      }
    }

    lemma NowMapped(id: nat, addr: nat, n: nat)
      requires id in mappings && id in home && current == Some(home[id]) && addr % PAGE_SIZE == 0
      requires mappings[id].start == addr / PAGE_SIZE && mappings[id].pages == n
      ensures forall a :: addr <= a < addr + n * PAGE_SIZE ==> Mapped(a)
    {
      forall a | addr <= a < addr + n * PAGE_SIZE
        ensures Mapped(a)
      {
        assert Covers(mappings[id], a / PAGE_SIZE);
      }
    }

    method SetBreaks(b: map<nat, nat>)
      requires Valid()
      modifies this`breaks
      ensures Valid() && breaks == b && Abs() == old(Abs()) && forall a :: old(Mapped(a)) ==> Mapped(a)
      ensures Now() == old(Now()).(breaks := b, tops := Now().tops)
    {
      hide Shape, RefsOk, Paging.Valid, Paging.ReservedFree, Paging.UserMaps, SpacesFit, Views, Covers;
      breaks := b;
    }

    lemma BreakMapped(a: nat)
      requires Valid() && current.Some?
      ensures current.value in Abs() && (a / PAGE_SIZE in Abs()[current.value] <==> Mapped(a))
    {
      hide RegionsOk, DisjointOk, TablesOk, RefsOk, Paging.Valid, UserMapsOf, ListsOk, MapsOk, SpacesFit, RegionFrames,
           Flat;
      CurrentSpace(spaces, held, current, pt.registered, pt.active);
      pt.Domain();
      var s, v := current.value, a / PAGE_SIZE;
      ViewKeys(spaces, pt.UserMaps(), Rf(), regions, mem, s);
      if v in pt.UserMaps()[s] {
        var q := PageFacts(regions, mappings, home, Rf(), pt.UserMaps(), mem, nextRegion, nextMapping, s, v);
      }
      if m :| m in mappings && m in home && home[m] == s && Covers(mappings[m], v) {
        CoveredPresent(regions, mappings, home, pt.UserMaps(), nextMapping, m, v);
      }
    }

    /** A request about processes: the event, and what becomes of the breaks. */
    method ServeProcess(request: Request) returns (event: Event)
      requires Valid()
      requires request.SpawnRequest? || request.ForkRequest? || request.ExitRequest? || request.SwitchRequest?
      modifies this, pt, pt.pm
      ensures Valid() && breaks == old(breaks)
      ensures Answers(request, event, false, old(Now()), Now().(breaks := NextBreaks(breaks, event)))
    {
      hide Valid, Abs, Tops, SharedRanges, Paging.Slots, Paging.KernelMap, UserSlots;
      event := Silent;
      SpaceFacts();
      match request
      case SpawnRequest(heapOk) =>
        var err, c := CreateSpace(heapOk);
        if err == Ok {
          event := Spawned(c);
        }
      case ForkRequest(heapOk, copies) =>
        if current.Some? {
          var err, c := Fork(heapOk, copies);
          if err == Ok {
            event := Forked(current.value, c);
          }
        }
      case ExitRequest(space) =>
        if space in held {
          SpaceVisible(space);
          Exit(space);
          if current != Some(space) {
            event := Gone(space);
          }
        }
      case SwitchRequest(space) =>
        if space in held {
          if current.Some? {
            SpaceVisible(current.value);
            if current.value !in held {
              event := Gone(current.value);
            }
          }
          SwitchTo(space);
        }
    }

    method ServeMap(request: Request) returns (event: Event)
      requires Valid() && request.MapRequest?
      modifies this, pt, pt.pm
      ensures Valid() && breaks == old(breaks) && NextBreaks(breaks, event) == breaks
      ensures Answers(request, event, false, old(Now()), Now())
    {
      hide Valid, Abs, Tops, SharedRanges, Paging.Slots, Paging.KernelMap, EagerCreate, RangeFree, Missing, Touched,
           MapAllowed;
      event := Silent;
      if current.Some? && MapAllowed(request.addr, request.size, request.stale) {
        SpaceFacts();
        SpaceVisible(current.value);
        var err := CreateUserMapping(request.addr, request.size, request.write, request.growsDown, request.heapOk,
                                     request.stale);
        if err == Ok {
          event := NewMapping(current.value, request.addr / PAGE_SIZE, request.write, request.stale);
        }
      }
    }

    method ServeAccess(request: Request) returns (event: Event, panicked: bool)
      requires Valid() && (request.LoadRequest? || request.StoreRequest?)
      modifies this, pt, pt.pm
      ensures Valid() && breaks == old(breaks) && NextBreaks(breaks, event) == breaks
      ensures Answers(request, event, panicked, old(Now()), Now())
    {
      hide Valid, Abs, Tops, SharedRanges, Paging.Slots, Paging.KernelMap, EagerRead, EagerWritable, EagerStore,
           Blocked,
           CopyPaid;
      event, panicked := Silent, false;
      match request
      case LoadRequest(addr) =>
        if current.Some? {
          var got := UserLoad(addr);
          event := Loaded(current.value, addr, got);
        }
      case StoreRequest(addr, value, heapOk, blank) =>
        if current.Some? && |blank| == PAGE_SIZE {
          var outcome := UserStore(addr, value, heapOk, blank);
          match outcome
          case Stored => event := StoreDone(current.value, addr, value);
          case Killed => event := StoreKilled(current.value, addr);
          case Panicked => panicked := true;
        }
    }

    method ServeKernelPage(request: Request)
      requires Valid() && KernelOk() && request.KernelPageRequest?
      modifies pt, pt.pm
      ensures Valid() && Answers(request, Silent, false, old(Now()), Now())
    {
      hide Valid, Abs, Paging.Slots, KernelFits, Paging.KernelMap;
      if USER_PAGES <= request.page < KERNEL_END_PAGE && request.page != RESERVED_PAGE {
        var _ := MapKernelPage(request.page);
      }
    }

    /** A request about memory. */
    method ServeMemory(request: Request) returns (event: Event, panicked: bool)
      requires Valid() && KernelOk()
      requires request.MapRequest? || request.LoadRequest? || request.StoreRequest? || request.KernelPageRequest?
      modifies this, pt, pt.pm
      ensures Valid() && breaks == old(breaks) && NextBreaks(breaks, event) == breaks
      ensures Answers(request, event, panicked, old(Now()), Now())
    {
      hide Valid, Now, Answers;
      event, panicked := Silent, false;
      if request.MapRequest? {
        event := ServeMap(request);
      } else if request.KernelPageRequest? {
        ServeKernelPage(request);
      } else {
        event, panicked := ServeAccess(request);
      }
    }

    /** A request about the break of the running process. */
    method ServeBreak(request: Request) returns (event: Event)
      requires Valid() && BreaksOk() && (request.ImageRequest? || request.SbrkRequest?)
      modifies this, pt, pt.pm
      ensures Valid() && BreaksOk() && Answers(request, event, false, old(Now()), Now())
    {
      hide Valid, Abs, EagerStep, BreaksFit, Tops, SharedRanges, Paging.Slots, Paging.KernelMap, SbrkAnswer,
           SbrkAllowed;
      event := Silent;
      SilentStep(old(Abs()), event);
      match request
      case ImageRequest(brk) =>
        if current.Some? && brk % PAGE_SIZE == 0 {
          SpaceFacts();
          SpaceVisible(current.value);
          BreakMoved(Abs(), breaks, current.value, brk);
          SetBreaks(breaks[current.value := brk]);
        }
      case SbrkRequest(increment, heapOk, blank) =>
        var allowed := MaySbrk(increment, blank);
        if allowed {
          var err;
          err, event := Sbrk(increment, heapOk, blank);
        }
    }

    /** One request, and the event that answers it. After a panic the kernel does nothing more. */
    method Perform(request: Request) returns (event: Event, panicked: bool)
      requires Valid() && BreaksOk() && KernelOk()
      modifies this, pt, pt.pm
      ensures Valid() && BreaksOk() && KernelOk() && Answers(request, event, panicked, old(Now()), Now())
    {
      hide Valid, Abs, BreaksFit, Answers, Tops, SharedRanges, KernelFits, Paging.KernelMap;
      panicked := false;
      if request.ImageRequest? || request.SbrkRequest? {
        event := ServeBreak(request);
      } else if request.MapRequest? || request.LoadRequest? || request.StoreRequest? || request.KernelPageRequest? {
        event, panicked := ServeMemory(request);
        AnswerStep(request, event, panicked, old(Now()), Now());
        BreaksStep(old(Abs()), event, breaks);
      } else {
        event := ServeProcess(request);
        ghost var m := Now().(breaks := NextBreaks(breaks, event));
        AnswerStep(request, event, false, old(Now()), m);
        BreaksStep(old(Abs()), event, breaks);
        if event != Silent {
          SetBreaks(NextBreaks(breaks, event));
        }
        AnswerBreaks(request, event, old(Now()), m, Now());
      }
      AnswerKernel(request, event, panicked, old(Now()), Now());
    }

    /**
     * `sys_sbrk` as modelled: a positive increment, room in the user half, and a break outside growing-down mappings.
     */
    method MaySbrk(increment: nat, blank: Page) returns (may: bool)
      requires Valid() && BreaksOk()
      ensures may <==> SbrkAllowed(Now(), increment, blank)
    {
      hide RegionsOk, TablesOk, RefsOk, Paging.Valid, Views, RegionFrames, UserMapsOf, KernelMapOf, SpacesFit,
           Paging.ReservedFree, Wf, ListsOk, MapsOk, Covers, DisjointOk, Tops, SharedRanges, Paging.Slots;
      if current.None? || increment == 0 || |blank| != PAGE_SIZE {
        return false;
      }
      CurrentSpace(spaces, held, current, pt.registered, pt.active);
      SpaceVisible(current.value);
      var brk := breaks[current.value];
      var found := FindMapping(brk / PAGE_SIZE);
      if found.Some? {
        OneTop(brk, found.value);
        may := brk + increment + PAGE_SIZE <= USER_PAGES * PAGE_SIZE && !mappings[found.value].growsDown;
      } else {
        NoTop(brk);
        may := brk + increment + PAGE_SIZE <= USER_PAGES * PAGE_SIZE;
      }
    }

    lemma SpaceFacts()
      requires Valid()
      ensures forall c :: c in held ==> c in spaces
      ensures forall c :: c in Abs() ==> c in spaces
      ensures current.Some? ==> current.value in spaces
    {
      hide RegionsOk, DisjointOk, TablesOk, RefsOk, MapsOk, ListsOk, Paging.Valid, RegionFrames, UserMapsOf;
    }

    lemma SpaceVisible(s: nat)
      requires Valid() && s in spaces
      ensures s in Abs()
    {
      hide RegionsOk, DisjointOk, TablesOk, RefsOk, MapsOk, ListsOk, Wf, Flat;
    }

    /**
     * Every run, whatever is requested, shows exactly the events that the reference, which copies at fork, would
     * show; and the reference ends where the processes' memory ends. Each request is granted, refused or fatal
     * exactly when the state it meets says so.
     */
    method Run(requests: seq<Request>) returns (events: seq<Event>, panicked: bool, ghost moments: seq<Moment>)
      requires Valid() && BreaksOk() && KernelOk()
      modifies this, pt, pt.pm
      ensures Valid() && BreaksOk() && KernelOk() && Replay(old(Abs()), events) == Some(Abs())
      ensures forall i :: 0 <= i < |events| ==> Remembers(old(Abs()), events[..i], events[i])
      ensures |events| <= |requests| && (!panicked ==> |events| == |requests|)
      ensures |moments| == |events| + 1 && moments[0] == old(Now()) && moments[|events|] == Now()
      ensures forall i :: 0 <= i < |events| ==>
                Answers(requests[i], events[i], panicked && i == |events| - 1, moments[i], moments[i + 1])
      ensures forall i :: 0 <= i <= |events| ==> KernelFits(moments[i].kernel, moments[i].heap)
    {
      hide Valid, Abs, BreaksFit, Answers, Tops, SharedRanges, EagerStep, KernelFits, Remembers, Replay;
      events, panicked, moments := [], false, [Now()];
      ReplayNone(Abs());
      var i := 0;
      while i < |requests| && !panicked
        invariant Valid() && BreaksOk() && KernelOk() && Replay(old(Abs()), events) == Some(Abs()) &&
                  |events| == i <= |requests|
        invariant |moments| == i + 1 && moments[0] == old(Now()) && moments[i] == Now()
        invariant forall k :: 0 <= k < i ==>
                    Answers(requests[k], events[k], panicked && k == i - 1, moments[k], moments[k + 1])
        invariant forall k :: 0 <= k <= i ==> KernelFits(moments[k].kernel, moments[k].heap)
        decreases |requests| - i
      {
        var event: Event;
        ghost var m := Now();
        event, panicked := Perform(requests[i]);
        AnswerStep(requests[i], event, panicked, m, Now());
        ReplayNext(old(Abs()), events, event);
        events, moments := events + [event], moments + [Now()];
        i := i + 1;
      }
      AllRemember(old(Abs()), events);
    }

    /** Page by page: where a mapping's page leads, who counts as a holder, and when it may be written. */
    lemma PageInvariant(m: nat, v: nat)
      requires Valid() && m in mappings && Covers(mappings[m], v)
      ensures m in home && home[m] in pt.UserMaps() && v in pt.UserMaps()[home[m]] && mappings[m].region in regions
      ensures |regions[mappings[m].region].frames| == mappings[m].pages
      ensures var e := pt.UserMaps()[home[m]][v]; var r := regions[mappings[m].region];
        && e.address == r.frames[v - mappings[m].start]
        && r.refcnt == |Holders(mappings, mappings[m].region)|
        && (e.rw ==> r.prot.write && r.refcnt == 1)
    {
      hide RegionsOk, ListsOk, SpacesFit, Paging.Valid, Paging.UserMaps, Wf;
      var r := mappings[m].region;
      assert PageOk(m, v, {}, regions, mappings, home, pt.UserMaps());
      if pt.UserMaps()[home[m]][v].rw {
        assert Holders(mappings, r) == HoldersOut(mappings, home, r, {}) by {
          assert forall q :: q in Holders(mappings, r) ==> q in home.Keys;
        }
      }
    }

    /** No two mappings of an address space overlap, although creation never compares them. */
    lemma NeverOverlap(a: nat, b: nat, v: nat)
      requires Valid() && a in mappings && b in mappings && a in home && b in home && home[a] == home[b]
      requires Covers(mappings[a], v) && Covers(mappings[b], v)
      ensures a == b
    {
      hide RegionsOk, ListsOk, SpacesFit, Paging.Valid, Paging.UserMaps, TablesOk, MapsOk;
    }

    /** No page of a process leads to a frame of a kernel page. */
    lemma KernelPagesPrivate(v: nat, s: nat, u: nat)
      requires Valid() && KernelOk() && v in pt.heap && s in pt.UserMaps() && u in pt.UserMaps()[s]
      ensures v in pt.KernelMap() && pt.UserMaps()[s][u].address != pt.KernelMap()[v].address
    {
      hide DisjointOk, RefsOk, ListsOk, SpacesFit, MapsOk, TablesOk, Wf, UserMapsOf, KernelMapOf;
      var m := PageSource({}, regions, mappings, home, Rf(), pt.UserMaps(), mem, nextRegion, nextMapping, s, u);
      assert pt.UserMaps()[s][u].address in Rf();
    }

    /** Every page frame is free or has exactly one owner, and the owner really refers to it. */
    lemma FramesConserved(f: nat)
      requires Valid()
      ensures f < pt.pm.top && f % PAGE_SIZE == 0 <==> f in pt.pm.free || f in pt.pm.owner
      ensures f in pt.pm.free ==> f !in pt.pm.owner
      ensures f in pt.pm.owner && pt.pm.owner[f].RegionFrame? ==>
                var o := pt.pm.owner[f];
                o.region in regions && o.index < |regions[o.region].frames| && regions[o.region].frames[o.index] == f
      ensures f in pt.pm.owner && pt.pm.owner[f].UserTable? ==>
                var o := pt.pm.owner[f];
                o.dir in pt.Live() && o.dir in pt.dirs && o.index < |pt.dirs[o.dir]| &&
                pt.dirs[o.dir][o.index].present && pt.dirs[o.dir][o.index].address == f
      ensures f in pt.pm.owner && pt.pm.owner[f].Directory? ==> f in pt.Live()
      ensures f in pt.pm.owner && pt.pm.owner[f].KernelPage? ==>
                var v := pt.pm.owner[f].page;
                v in pt.heap && pt.heap[v] == f
      ensures f in pt.pm.owner && pt.pm.owner[f].KernelTable? ==>
                var k := pt.pm.owner[f].index - USER_DIR;
                0 <= k < |pt.kdir| && pt.kdir[k].present && pt.kdir[k].address == f
      ensures forall r, k :: r in regions && 0 <= k < |regions[r].frames| ==>
                regions[r].frames[k] in pt.pm.owner && pt.pm.owner[regions[r].frames[k]] == RegionFrame(r, k)
    {
      hide MapsOk, ListsOk, SpacesFit, TablesOk, DisjointOk, RefsOk;
      if f in pt.pm.owner && pt.pm.owner[f].RegionFrame? {
        assert f in Rf();
      }
      forall r, k | r in regions && 0 <= k < |regions[r].frames|
        ensures regions[r].frames[k] in pt.pm.owner && pt.pm.owner[regions[r].frames[k]] == RegionFrame(r, k)
      {
        assert regions[r].frames[k] in Rf();
      }
    }
  }
}
