/**
 * Page frames (kernel/mm/memory.c): the early frames, the descriptor table that
 * `memory_init` builds, and the free and used lists.
 *
 * A frame is named by its physical address; address 0 is NULL.
 */
module PhysicalMemory {
  import opened Lists

  const PAGE_SIZE := 4096
  const EARLY_FRAMES := 1024
  /** The mark `memory_init` leaves in the slots that the early table describes. */
  const EARLY_MARK := -1

  datatype MemArea = MemArea(start: nat, size: nat)

  /** What a used frame is used for. Kept as ghost state: every used frame has exactly one owner. */
  datatype Owner =
    | KernelUse
    | KernelPage(page: nat)
    | Directory
    | UserTable(dir: nat, index: nat)
    | KernelTable(index: nat)
    | RegionFrame(region: nat, index: nat)

  /** The frames that belong to regions. */
  ghost function RegionFrames(o: map<nat, Owner>): map<nat, Owner> {
    map f | f in o && o[f].RegionFrame? :: o[f]
  }

  /** The frames that belong to page directories and page tables. */
  ghost function PagingFrames(o: map<nat, Owner>): map<nat, Owner> {
    map f | f in o && (o[f].Directory? || o[f].UserTable? || o[f].KernelTable?) :: o[f]
  }

  /** Frames that are neither a region's nor the page tables' do not show in either view. */
  lemma OwnerViews(o: map<nat, Owner>, f: nat, who: Owner)
    requires f in o ==> o[f] == KernelUse
    ensures !who.RegionFrame? ==> RegionFrames(o[f := who]) == RegionFrames(o)
    ensures who.RegionFrame? || who.KernelUse? || who.KernelPage? ==> PagingFrames(o[f := who]) == PagingFrames(o)
    ensures RegionFrames(o - {f}) == RegionFrames(o) && PagingFrames(o - {f}) == PagingFrames(o)
  {
  }

  /** The frames of kernel pages are exactly those that `heap` names, each for its page. */
  ghost predicate HeapOwned(heap: map<nat, nat>, o: map<nat, Owner>) {
    && (forall v :: v in heap ==> heap[v] in o && o[heap[v]] == KernelPage(v))
    && (forall f :: f in o && o[f].KernelPage? ==> o[f].page in heap && heap[o[f].page] == f)
  }

  /** No two pages share a frame. */
  lemma HeapDistinct(heap: map<nat, nat>, o: map<nat, Owner>, v: nat, w: nat)
    requires HeapOwned(heap, o) && v in heap && w in heap && heap[v] == heap[w]
    ensures v == w
  {
    assert KernelPage(v) == KernelPage(w);
  }

  lemma HeapKept(heap: map<nat, nat>, o: map<nat, Owner>, f: nat, who: Owner)
    requires HeapOwned(heap, o) && !who.KernelPage? && (f in o ==> !o[f].KernelPage?)
    ensures HeapOwned(heap, o[f := who]) && HeapOwned(heap, o - {f})
  {
  }

  lemma HeapGrows(heap: map<nat, nat>, o: map<nat, Owner>, v: nat, f: nat)
    requires HeapOwned(heap, o) && v !in heap && f in o && o[f] == KernelUse
    ensures HeapOwned(heap[v := f], o[f := KernelPage(v)]) && f !in heap.Values
  {
    assert forall w :: w in heap ==> heap[w] != f;
  }

  lemma HeapDropped(heap: map<nat, nat>, o: map<nat, Owner>, dropped: set<nat>)
    requires HeapOwned(heap, o) && forall f :: f in dropped && f in o ==> !o[f].KernelPage?
    ensures HeapOwned(heap, o - dropped)
  {
  }

  lemma RegionOwner(o: map<nat, Owner>, f: nat, who: Owner)
    requires f !in o && who.RegionFrame?
    ensures RegionFrames(o[f := who]) == RegionFrames(o)[f := who] && PagingFrames(o[f := who]) == PagingFrames(o)
  {
  }

  lemma RegionFrameGone(o: map<nat, Owner>, f: nat)
    requires f in RegionFrames(o)
    ensures f in o && PagingFrames(o - {f}) == PagingFrames(o) && RegionFrames(o - {f}) == RegionFrames(o) - {f}
  {
  }

  lemma DropPagingOwners(o: map<nat, Owner>, dropped: set<nat>)
    requires forall f :: f in dropped && f in o ==> !o[f].RegionFrame?
    ensures RegionFrames(o - dropped) == RegionFrames(o)
  {
  }

  ghost predicate Holds(a: MemArea, addr: nat) {
    a.start <= addr < a.start + a.size
  }

  ghost predicate Sorted(layout: seq<MemArea>) {
    forall i, j :: 0 <= i < j < |layout| ==> layout[i].start + layout[i].size <= layout[j].start
  }

  /** A page that `init_frames` must hand to the used list. */
  ghost predicate Reserved(addr: nat, layout: seq<MemArea>, kernel: MemArea) {
    || addr < PAGE_SIZE
    || Holds(kernel, addr)
    || exists k :: 0 <= k < |layout| && Holds(layout[k], addr)
  }

  /** No page of [lo, hi) outside the kernel image is exactly the end of an area. */
  ghost predicate NoStall(lo: nat, hi: nat, layout: seq<MemArea>, kernel: MemArea) {
    forall addr :: lo <= addr < hi && addr % PAGE_SIZE == 0 && addr >= PAGE_SIZE && !Holds(kernel, addr) ==>
      !Stalls(addr, layout)
  }

  ghost predicate Stalls(addr: nat, layout: seq<MemArea>) {
    exists k :: 0 <= k < |layout| && addr == layout[k].start + layout[k].size
  }

  /** The pages lo .. hi-1 that are reserved, or those that are not, in address order. */
  ghost function Pages(lo: nat, hi: nat, reserved: bool, layout: seq<MemArea>, kernel: MemArea): seq<nat>
    requires lo <= hi
    decreases hi
  {
    if lo == hi then []
    else
      Pages(lo, hi - 1, reserved, layout, kernel) +
      if Reserved((hi - 1) * PAGE_SIZE, layout, kernel) == reserved then [(hi - 1) * PAGE_SIZE] else []
  }

  lemma {:induction false} PagesExact(lo: nat, hi: nat, reserved: bool, layout: seq<MemArea>, kernel: MemArea)
    requires lo <= hi
    ensures NoDup(Pages(lo, hi, reserved, layout, kernel))
    ensures forall a: nat :: a in Pages(lo, hi, reserved, layout, kernel) <==>
              lo * PAGE_SIZE <= a < hi * PAGE_SIZE && a % PAGE_SIZE == 0 && Reserved(a, layout, kernel) == reserved
    decreases hi
  {
    if lo < hi {
      PagesExact(lo, hi - 1, reserved, layout, kernel);
    }
  }

  lemma ConcatNoDup<T>(a: seq<T>, b: seq<T>)
    requires NoDup(a) && NoDup(b) && forall x :: x in a ==> x !in b
    ensures NoDup(a + b)
  {
    forall i, j | 0 <= i < j < |a + b|
      ensures (a + b)[i] != (a + b)[j]
    {
      if i < |a| <= j {
        assert a[i] in a && b[j - |a|] in b;
      }
    }
  }

  ghost predicate Partitioned(free: seq<nat>, used: seq<nat>, owner: map<nat, Owner>, lo: nat, hi: nat) {
    && NoDup(free) && NoDup(used)
    && (forall a :: a in free ==> a !in used)
    && (forall a: nat :: a in free || a in used <==> lo <= a < hi && a % PAGE_SIZE == 0)
    && (forall a :: a in used <==> a in owner)
    && 0 !in free
  }

  /** Frames that `memory_init` finds in use belong to the kernel, unless they were taken before. */
  ghost function Adopted(used: seq<nat>, owner: map<nat, Owner>): map<nat, Owner> {
    map a | a in used :: if a in owner then owner[a] else KernelUse
  }

  lemma PartitionOwned(hole: nat, end: nat, layout: seq<MemArea>, kernel: MemArea, free0: seq<nat>, used0: seq<nat>,
                       owner0: map<nat, Owner>, free: seq<nat>, used: seq<nat>)
    requires 0 < hole && hole + EARLY_FRAMES <= end
    requires Partitioned(free0, used0, owner0, hole * PAGE_SIZE, (hole + EARLY_FRAMES) * PAGE_SIZE)
    requires free == free0 + Pages(0, hole, false, layout, kernel) + Pages(hole + EARLY_FRAMES, end, false, layout,
                                                                           kernel)
    requires used == used0 + Pages(0, hole, true, layout, kernel) + Pages(hole + EARLY_FRAMES, end, true, layout,
                                                                          kernel)
    ensures Partitioned(free, used, Adopted(used, owner0), 0, end * PAGE_SIZE)
    ensures 0 in used && 0 !in owner0
    ensures forall a: nat :: a < end * PAGE_SIZE && a % PAGE_SIZE == 0 && !InHole(a, hole) ==>
              (a in used <==> Reserved(a, layout, kernel))
    ensures forall a: nat :: InHole(a, hole) ==> (a in used <==> a in used0)
  {
    hide Pages, Reserved, NoDup;
    PartitionAfterInit(hole, end, layout, kernel, free0, used0, free, used);
  }

  /** The lists that the two scans of `memory_init` add to are still a partition. */
  lemma PartitionAfterInit(hole: nat, end: nat, layout: seq<MemArea>, kernel: MemArea,
                           free0: seq<nat>, used0: seq<nat>, free: seq<nat>, used: seq<nat>)
    requires 0 < hole && hole + EARLY_FRAMES <= end
    requires NoDup(free0) && NoDup(used0) && forall a :: a in free0 ==> a !in used0
    requires forall a :: a in free0 || a in used0 <==> InHole(a, hole)
    requires free == free0 + Pages(0, hole, false, layout, kernel) + Pages(hole + EARLY_FRAMES, end, false, layout,
                                                                           kernel)
    requires used == used0 + Pages(0, hole, true, layout, kernel) + Pages(hole + EARLY_FRAMES, end, true, layout,
                                                                          kernel)
    ensures NoDup(free) && NoDup(used)
    ensures forall a :: a in free ==> a !in used
    ensures forall a: nat :: a in free || a in used <==> a < end * PAGE_SIZE && a % PAGE_SIZE == 0
    ensures 0 in used && 0 !in free
    ensures forall a: nat :: a < end * PAGE_SIZE && a % PAGE_SIZE == 0 && !InHole(a, hole) ==>
              (a in used <==> Reserved(a, layout, kernel))
    ensures forall a: nat :: InHole(a, hole) ==> (a in used <==> a in used0)
  {
    PagesExact(0, hole, false, layout, kernel);
    PagesExact(0, hole, true, layout, kernel);
    PagesExact(hole + EARLY_FRAMES, end, false, layout, kernel);
    PagesExact(hole + EARLY_FRAMES, end, true, layout, kernel);
    ConcatNoDup(free0, Pages(0, hole, false, layout, kernel));
    ConcatNoDup(used0, Pages(0, hole, true, layout, kernel));
    ConcatNoDup(free0 + Pages(0, hole, false, layout, kernel), Pages(hole + EARLY_FRAMES, end, false, layout, kernel));
    ConcatNoDup(used0 + Pages(0, hole, true, layout, kernel), Pages(hole + EARLY_FRAMES, end, true, layout, kernel));
    forall a: nat | a < end * PAGE_SIZE && a % PAGE_SIZE == 0
      ensures a in free || a in used
    {
      if InHole(a, hole) {
        assert a in free0 || a in used0;
      } else if a in Pages(0, hole, Reserved(a, layout, kernel), layout, kernel) {
      } else {
        assert a in Pages(hole + EARLY_FRAMES, end, Reserved(a, layout, kernel), layout, kernel);
      }
    }
  }

  ghost predicate InHole(a: nat, hole: nat) {
    hole * PAGE_SIZE <= a < (hole + EARLY_FRAMES) * PAGE_SIZE && a % PAGE_SIZE == 0
  }

  /**
   * The search of `memory_layout_find_area` between two positions. It accepts the one-past-the-end address of
   * an area, so the answer for an address that ends one area and starts the next depends on where it looks first.
   */
  function Search(addr: nat, layout: seq<MemArea>, lo: int, hi: int): (r: Option<MemArea>)
    requires 0 <= lo <= |layout| && -1 <= hi < |layout|
    ensures r.Some? ==> r.value in layout && r.value.start <= addr <= r.value.start + r.value.size
    decreases hi - lo + 1
  {
    if lo > hi then None
    else
      var mid := (lo + hi) / 2;
      if addr > layout[mid].start + layout[mid].size then Search(addr, layout, mid + 1, hi)
      else if addr < layout[mid].start then Search(addr, layout, lo, mid - 1)
      else Some(layout[mid])
  }

  /** The area `memory_layout_find_area` returns. */
  function Area(addr: nat, layout: seq<MemArea>, kernel: MemArea): Option<MemArea> {
    if addr < PAGE_SIZE then Some(MemArea(0, PAGE_SIZE))
    else if kernel.start <= addr < kernel.start + kernel.size then Some(kernel)
    else Search(addr, layout, 0, |layout| - 1)
  }

  /** Nothing is found if and only if no area between the two positions holds the address or ends there. */
  lemma {:induction false} SearchExact(addr: nat, layout: seq<MemArea>, lo: int, hi: int)
    requires Sorted(layout) && 0 <= lo <= |layout| && -1 <= hi < |layout|
    ensures Search(addr, layout, lo, hi).None? <==>
            forall k :: lo <= k <= hi ==> !(layout[k].start <= addr <= layout[k].start + layout[k].size)
    decreases hi - lo + 1
  {
    if lo <= hi {
      var mid := (lo + hi) / 2;
      if addr > layout[mid].start + layout[mid].size {
        SearchExact(addr, layout, mid + 1, hi);
        assert forall k :: lo <= k < mid ==> layout[k].start + layout[k].size <= layout[mid].start;
      } else if addr < layout[mid].start {
        SearchExact(addr, layout, lo, mid - 1);
        assert forall k :: mid < k <= hi ==> layout[mid].start + layout[mid].size <= layout[k].start;
      }
    }
  }

  /** `memory_layout_find_area` finds an area if and only if one holds the address or ends there. */
  method FindArea(addr: nat, layout: seq<MemArea>, kernel: MemArea) returns (r: Option<MemArea>)
    requires Sorted(layout)
    ensures r == Area(addr, layout, kernel)
    ensures r.None? <==> addr >= PAGE_SIZE && !Holds(kernel, addr) &&
                         forall k :: 0 <= k < |layout| ==>
                             !(layout[k].start <= addr <= layout[k].start + layout[k].size)
    ensures addr < PAGE_SIZE ==> r == Some(MemArea(0, PAGE_SIZE))
    ensures addr >= PAGE_SIZE && Holds(kernel, addr) ==> r == Some(kernel)
    ensures addr >= PAGE_SIZE && !Holds(kernel, addr) && r.Some? ==>
              r.value in layout && r.value.start <= addr <= r.value.start + r.value.size
  {
    if addr < PAGE_SIZE {
      return Some(MemArea(0, PAGE_SIZE));
    }
    if kernel.start <= addr < kernel.start + kernel.size {
      return Some(kernel);
    }
    SearchExact(addr, layout, 0, |layout| - 1);
    hide Sorted;
    var lo, hi := 0, |layout| - 1;
    while lo <= hi
      invariant 0 <= lo <= |layout| && -1 <= hi < |layout|
      invariant Search(addr, layout, lo, hi) == Search(addr, layout, 0, |layout| - 1)
    {
      var mid := (lo + hi) / 2;
      if addr > layout[mid].start + layout[mid].size {
        lo := mid + 1;
      } else if addr < layout[mid].start {
        hi := mid - 1;
      } else {
        return Some(layout[mid]);
      }
    }
    return None;
  }

  /** The inner loop of `init_frames`: page by page to the end of an area or of the memory. */
  function Skip(addr: nat, end: nat, top: nat): nat
    decreases top - addr
  {
    if addr < end && addr < top then Skip(addr + PAGE_SIZE, end, top) else addr
  }

  /** One turn of the outer loop of `init_frames`. */
  function ScanNext(addr: nat, top: nat, layout: seq<MemArea>, kernel: MemArea): nat {
    var m := Area(addr, layout, kernel);
    if m.Some? then Skip(addr, m.value.start + m.value.size, top) else addr + PAGE_SIZE
  }

  /** Where the outer loop stands after `n` turns. */
  function ScanAt(n: nat, base: nat, top: nat, layout: seq<MemArea>, kernel: MemArea): nat {
    if n == 0 then base
    else
      var addr := ScanAt(n - 1, base, top, layout, kernel);
      if addr < top then ScanNext(addr, top, layout, kernel) else addr
  }

  /** The area found for the address ends there. */
  predicate Stuck(addr: nat, layout: seq<MemArea>, kernel: MemArea) {
    && addr >= PAGE_SIZE && !(kernel.start <= addr < kernel.start + kernel.size)
    && var m := Area(addr, layout, kernel);
    m.Some? && m.value.start + m.value.size == addr
  }

  lemma {:induction false} SkipMoves(addr: nat, end: nat, top: nat)
    ensures Skip(addr, end, top) >= addr && (Skip(addr, end, top) == addr <==> addr >= end || addr >= top)
    decreases top - addr
  {
    if addr < end && addr < top {
      SkipMoves(addr + PAGE_SIZE, end, top);
    }
  }

  /** A turn of the outer loop makes no progress if and only if the area found for the address ends there. */
  lemma ScanStep(addr: nat, top: nat, layout: seq<MemArea>, kernel: MemArea)
    requires addr < top
    ensures ScanNext(addr, top, layout, kernel) >= addr
    ensures ScanNext(addr, top, layout, kernel) == addr <==> Stuck(addr, layout, kernel)
  {
    var m := Area(addr, layout, kernel);
    if m.Some? {
      SkipMoves(addr, m.value.start + m.value.size, top);
    }
  }

  /** The scan of [base, top) comes to an end. */
  ghost predicate Finishes(base: nat, top: nat, layout: seq<MemArea>, kernel: MemArea) {
    exists n: nat :: ScanAt(n, base, top, layout, kernel) >= top
  }

  /** No address that the scan of [base, top) reaches is stuck. */
  ghost predicate NeverStuck(base: nat, top: nat, layout: seq<MemArea>, kernel: MemArea) {
    forall n: nat :: ScanAt(n, base, top, layout, kernel) < top ==>
        !Stuck(ScanAt(n, base, top, layout, kernel), layout, kernel)
  }

  lemma {:induction false} ScanGrows(i: nat, n: nat, base: nat, top: nat, layout: seq<MemArea>, kernel: MemArea)
    requires i <= n
    ensures ScanAt(i, base, top, layout, kernel) <= ScanAt(n, base, top, layout, kernel)
    ensures var addr := ScanAt(i, base, top, layout, kernel);
            addr < top && Stuck(addr, layout, kernel) ==> ScanAt(n, base, top, layout, kernel) == addr
    decreases n
  {
    if i < n {
      ScanGrows(i, n - 1, base, top, layout, kernel);
      var addr := ScanAt(n - 1, base, top, layout, kernel);
      if addr < top {
        ScanStep(addr, top, layout, kernel);
      }
    }
  }

  lemma {:induction false} ScanAdvances(n: nat, base: nat, top: nat, layout: seq<MemArea>, kernel: MemArea)
    requires NeverStuck(base, top, layout, kernel)
    ensures ScanAt(n, base, top, layout, kernel) >= base + n || ScanAt(n, base, top, layout, kernel) >= top
  {
    if n > 0 {
      ScanAdvances(n - 1, base, top, layout, kernel);
      var addr := ScanAt(n - 1, base, top, layout, kernel);
      if addr < top {
        ScanStep(addr, top, layout, kernel);
      }
    }
  }

  /** `init_frames` ends if and only if it reaches no address at which the area it finds ends. */
  lemma ScanEnds(base: nat, top: nat, layout: seq<MemArea>, kernel: MemArea)
    ensures Finishes(base, top, layout, kernel) <==> NeverStuck(base, top, layout, kernel)
  {
    if NeverStuck(base, top, layout, kernel) {
      ScanAdvances(top, base, top, layout, kernel);
      assert ScanAt(top, base, top, layout, kernel) >= top;
    }
    if n: nat :| ScanAt(n, base, top, layout, kernel) >= top {
      forall i: nat | ScanAt(i, base, top, layout, kernel) < top
        ensures !Stuck(ScanAt(i, base, top, layout, kernel), layout, kernel)
      {
        ScanGrows(if i <= n then i else n, if i <= n then n else i, base, top, layout, kernel);
      }
    }
  }

  /** A kernel image of one page, and an area of one page right after the early frames: `memory_init` hangs. */
  lemma HangingLayout(top: nat)
    requires top > 0x502000
    ensures var layout, kernel := [MemArea(0x501000, 0x1000)], MemArea(0x100000, 0x1000);
            && Sorted(layout) && Stuck(0x502000, layout, kernel)
            && !Finishes(kernel.start + kernel.size + EARLY_FRAMES * PAGE_SIZE, top, layout, kernel)
  {
    var layout, kernel := [MemArea(0x501000, 0x1000)], MemArea(0x100000, 0x1000);
    assert Area(0x502000, layout, kernel) == Some(layout[0]) && Stuck(0x502000, layout, kernel);
    FinishesExact(0x501000, top, layout, kernel);
  }

  /** A scan never jumps over an address at which it would get stuck. */
  lemma {:induction false} SkipBelow(addr: nat, end: nat, top: nat, limit: nat)
    requires addr % PAGE_SIZE == 0 && limit % PAGE_SIZE == 0 && addr <= limit && end <= limit
    ensures Skip(addr, end, top) <= limit
    decreases top - addr
  {
    if addr < end && addr < top {
      SkipBelow(addr + PAGE_SIZE, end, top, limit);
    }
  }

  lemma AreaBefore(addr: nat, layout: seq<MemArea>, kernel: MemArea, limit: nat)
    requires Sorted(layout) && addr < limit && Stuck(limit, layout, kernel)
    ensures Area(addr, layout, kernel).Some? ==>
              Area(addr, layout, kernel).value.start + Area(addr, layout, kernel).value.size <= limit
  {
  }

  lemma {:induction false} ScanBelow(n: nat, base: nat, top: nat, layout: seq<MemArea>, kernel: MemArea, limit: nat)
    requires Sorted(layout) && base % PAGE_SIZE == 0 && limit % PAGE_SIZE == 0 && base <= limit < top
    requires Stuck(limit, layout, kernel)
    ensures ScanAt(n, base, top, layout, kernel) <= limit
  {
    if n > 0 {
      ScanBelow(n - 1, base, top, layout, kernel, limit);
      ScanAligned(n - 1, base, top, layout, kernel);
      var addr := ScanAt(n - 1, base, top, layout, kernel);
      if addr == limit {
        ScanStep(addr, top, layout, kernel);
      } else {
        AreaBefore(addr, layout, kernel, limit);
        var m := Area(addr, layout, kernel);
        if m.Some? {
          SkipBelow(addr, m.value.start + m.value.size, top, limit);
        }
      }
    }
  }

  /** For a sorted layout, `init_frames` ends if and only if no page it is to describe would stop it. */
  lemma FinishesExact(base: nat, top: nat, layout: seq<MemArea>, kernel: MemArea)
    requires Sorted(layout) && base % PAGE_SIZE == 0
    ensures Finishes(base, top, layout, kernel) <==>
            forall addr :: base <= addr < top && addr % PAGE_SIZE == 0 ==> !Stuck(addr, layout, kernel)
  {
    ScanEnds(base, top, layout, kernel);
    if addr :| base <= addr < top && addr % PAGE_SIZE == 0 && Stuck(addr, layout, kernel) {
      forall n: nat
        ensures ScanAt(n, base, top, layout, kernel) < top
      {
        ScanBelow(n, base, top, layout, kernel, addr);
      }
    } else {
      forall n: nat | ScanAt(n, base, top, layout, kernel) < top
        ensures !Stuck(ScanAt(n, base, top, layout, kernel), layout, kernel)
      {
        ScanAligned(n, base, top, layout, kernel);
        ScanGrows(0, n, base, top, layout, kernel);
      }
    }
  }

  /** No area starts where another one ends. */
  ghost predicate Separated(layout: seq<MemArea>) {
    forall i, j :: 0 <= i < j < |layout| ==> layout[i].start + layout[i].size < layout[j].start
  }

  /**
   * `init_frames` ends if no page outside the kernel image is exactly the end of an area; if no area starts where
   * another one ends, it ends only then.
   */
  lemma NoStallExact(base: nat, top: nat, layout: seq<MemArea>, kernel: MemArea)
    requires Sorted(layout) && base % PAGE_SIZE == 0
    ensures NoStall(base, top, layout, kernel) ==> Finishes(base, top, layout, kernel)
    ensures Separated(layout) && Finishes(base, top, layout, kernel) ==> NoStall(base, top, layout, kernel)
  {
    FinishesExact(base, top, layout, kernel);
    forall addr | base <= addr < top && addr % PAGE_SIZE == 0
      ensures Stuck(addr, layout, kernel) ==> addr >= PAGE_SIZE && !Holds(kernel, addr) && Stalls(addr, layout)
      ensures Separated(layout) && addr >= PAGE_SIZE && !Holds(kernel, addr) && Stalls(addr, layout) ==>
                Stuck(addr, layout, kernel)
    {
      SearchExact(addr, layout, 0, |layout| - 1);
    }
  }

  lemma {:induction false} SkipAligned(addr: nat, end: nat, top: nat)
    requires addr % PAGE_SIZE == 0
    ensures Skip(addr, end, top) % PAGE_SIZE == 0
    decreases top - addr
  {
    if addr < end && addr < top {
      SkipAligned(addr + PAGE_SIZE, end, top);
    }
  }

  lemma {:induction false} ScanAligned(n: nat, base: nat, top: nat, layout: seq<MemArea>, kernel: MemArea)
    requires base % PAGE_SIZE == 0
    ensures ScanAt(n, base, top, layout, kernel) % PAGE_SIZE == 0
  {
    if n > 0 {
      ScanAligned(n - 1, base, top, layout, kernel);
      var addr := ScanAt(n - 1, base, top, layout, kernel);
      var m := Area(addr, layout, kernel);
      if m.Some? {
        SkipAligned(addr, m.value.start + m.value.size, top);
      }
    }
  }

  /** An area found where the scan is not stuck reaches past the page, and all its pages from there are reserved. */
  lemma ScanProgress(paddr: nat, layout: seq<MemArea>, kernel: MemArea, m: Option<MemArea>)
    requires !Stuck(paddr, layout, kernel) && m == Area(paddr, layout, kernel)
    requires m.None? ==>
               forall k :: 0 <= k < |layout| ==> !(layout[k].start <= paddr <= layout[k].start + layout[k].size)
    ensures m.None? ==> !Reserved(paddr, layout, kernel)
    ensures m.Some? ==> paddr < m.value.start + m.value.size
    ensures m.Some? ==> forall a :: paddr <= a < m.value.start + m.value.size ==> Reserved(a, layout, kernel)
  {
    if paddr >= PAGE_SIZE && !Holds(kernel, paddr) && m.Some? {
      var k :| 0 <= k < |layout| && layout[k] == m.value;
      forall a | paddr <= a < m.value.start + m.value.size
        ensures Reserved(a, layout, kernel)
      {
        assert Holds(layout[k], a);
      }
    }
  }

  /** Two page-aligned addresses are a page apart or more. */
  lemma PageApart(a: nat, b: nat)
    requires a % PAGE_SIZE == 0 && b % PAGE_SIZE == 0 && a < b
    ensures a + PAGE_SIZE <= b && (b - a) / PAGE_SIZE > 0
  {
  }

  class PageFrames {
    var free: seq<nat>
    var used: seq<nat>
    var base: nat
    var top: nat
    const early: array<int>
    var descriptors: array<int>
    ghost var owner: map<nat, Owner>

    /** The early table describes EARLY_FRAMES consecutive frames from the kernel's top page. */
    ghost predicate EarlyTable()
      reads this, early
    {
      && early.Length == EARLY_FRAMES
      && early[0] >= PAGE_SIZE && early[0] % PAGE_SIZE == 0
      && forall i :: 0 <= i < EARLY_FRAMES ==> early[i] == early[0] + i * PAGE_SIZE
    }

    /** The two lists hold every page frame of [lo, hi) once, and the used ones have an owner. */
    ghost predicate Partition(lo: nat, hi: nat)
      reads this
    {
      Partitioned(free, used, owner, lo, hi)
    }

    /** Before `memory_init`: only the early frames are managed. */
    ghost predicate EarlyValid()
      reads this, early
    {
      EarlyTable() && Partition(early[0], early[0] + EARLY_FRAMES * PAGE_SIZE)
    }

    /** Slot k of the descriptor table describes address k * PAGE_SIZE, or defers to the early table. */
    ghost predicate IndexOk()
      reads this, early, descriptors
    {
      && EarlyTable() && early != descriptors
      && top % PAGE_SIZE == 0 && descriptors.Length == top / PAGE_SIZE
      && early[0] + EARLY_FRAMES * PAGE_SIZE <= top
      && forall k :: 0 <= k < descriptors.Length ==>
           descriptors[k] == if early[0] / PAGE_SIZE <= k < early[0] / PAGE_SIZE + EARLY_FRAMES then EARLY_MARK
                             else k * PAGE_SIZE
    }

    ghost predicate Valid()
      reads this, early, descriptors
    {
      && base == PAGE_SIZE
      && IndexOk()
      && Partition(0, top)
      && 0 in owner && owner[0] == KernelUse
    }

    /** `__memory_early_init` */
    constructor EarlyInit(kernelTop: nat)
      requires kernelTop % PAGE_SIZE == 0 && kernelTop >= PAGE_SIZE
      ensures EarlyValid() && fresh(early)
      ensures early[0] == kernelTop && |free| == EARLY_FRAMES && used == []
    {
      early := new int[EARLY_FRAMES];
      descriptors := new int[0];
      base, top := 0, 0;
      owner := map[];
      used := [];
      free := [];
      new;
      var i, paddr := 0, kernelTop;
      while i < EARLY_FRAMES
        invariant 0 <= i <= EARLY_FRAMES && paddr == kernelTop + i * PAGE_SIZE
        invariant fresh(early) && early.Length == EARLY_FRAMES
        invariant owner == map[] && used == []
        invariant forall k :: 0 <= k < i ==> early[k] == kernelTop + k * PAGE_SIZE
        invariant |free| == i && forall k :: 0 <= k < i ==> free[k] == kernelTop + k * PAGE_SIZE
      {
        early[i] := paddr;
        free := free + [paddr];
        i, paddr := i + 1, paddr + PAGE_SIZE;
      }
      forall a: nat
        ensures a in free <==> early[0] <= a < early[0] + EARLY_FRAMES * PAGE_SIZE && a % PAGE_SIZE == 0
      {
        if early[0] <= a < early[0] + EARLY_FRAMES * PAGE_SIZE && a % PAGE_SIZE == 0 {
          assert free[(a - kernelTop) / PAGE_SIZE] == a;
        }
      }
    }

    /**
     * `i` pages from address `base` are described, by the slots from `offset` on, and chained after what the lists
     * held before.
     */
    ghost predicate Scanned(base: nat, offset: nat, i: nat, layout: seq<MemArea>, kernel: MemArea,
                            free0: seq<nat>, used0: seq<nat>, table0: seq<int>)
      reads this, descriptors
    {
      var lo := base / PAGE_SIZE;
      && offset + i <= descriptors.Length == |table0|
      && free == free0 + Pages(lo, lo + i, false, layout, kernel)
      && used == used0 + Pages(lo, lo + i, true, layout, kernel)
      && forall k :: 0 <= k < descriptors.Length ==>
           descriptors[k] == if offset <= k < offset + i then base + (k - offset) * PAGE_SIZE else table0[k]
    }

    /** One turn of `init_frames`: fills descriptor `i` and chains it on the list `reserved` selects. */
    method Describe(offset: nat, i: nat, paddr: nat, reserved: bool, ghost base: nat, ghost layout: seq<MemArea>,
                    ghost kernel: MemArea, ghost free0: seq<nat>, ghost used0: seq<nat>, ghost table0: seq<int>)
      requires offset + i < descriptors.Length && descriptors != early && reserved == Reserved(paddr, layout, kernel)
      requires base % PAGE_SIZE == 0 && paddr == base + i * PAGE_SIZE
      requires Scanned(base, offset, i, layout, kernel, free0, used0, table0)
      modifies this`free, this`used, descriptors
      ensures Scanned(base, offset, i + 1, layout, kernel, free0, used0, table0)
    {
      hide Reserved;
      descriptors[offset + i] := paddr;
      if reserved {
        used := used + [paddr];
      } else {
        free := free + [paddr];
      }
      assert (base / PAGE_SIZE + i) * PAGE_SIZE == paddr;
    }

    /** The inner loop of `init_frames`: the address and the index advance together. */
    method DescribeArea(offset: nat, start: nat, first: nat, top: nat, end: nat, ghost base: nat,
                        ghost layout: seq<MemArea>, ghost kernel: MemArea, ghost free0: seq<nat>,
                        ghost used0: seq<nat>, ghost table0: seq<int>)
      returns (i: nat, paddr: nat)
      requires base % PAGE_SIZE == 0 && top % PAGE_SIZE == 0 && start == base + first * PAGE_SIZE && start < top
      requires start < end && offset + (top - base) / PAGE_SIZE <= descriptors.Length && descriptors != early
      requires forall a :: start <= a < end ==> Reserved(a, layout, kernel)
      requires Scanned(base, offset, first, layout, kernel, free0, used0, table0)
      modifies this`free, this`used, descriptors
      ensures start < paddr <= top && paddr == base + i * PAGE_SIZE && paddr == Skip(start, end, top)
      ensures Scanned(base, offset, i, layout, kernel, free0, used0, table0)
    {
      hide Reserved, Scanned;
      i, paddr := first, start;
      while paddr < end && paddr < top
        invariant start <= paddr <= top && paddr == base + i * PAGE_SIZE
        invariant Skip(paddr, end, top) == Skip(start, end, top)
        invariant Scanned(base, offset, i, layout, kernel, free0, used0, table0)
        decreases top - paddr
      {
        PageApart(paddr, top);
        Describe(offset, i, paddr, true, base, layout, kernel, free0, used0, table0);
        i, paddr := i + 1, paddr + PAGE_SIZE;
      }
    }

    /**
     * `init_frames` of [base, top) with the descriptors from slot `offset` on: returns how many it filled. Address
     * and index are two variables; that they never part is what makes the table an index.
     */
    method InitFrames(base: nat, top: nat, offset: nat, layout: seq<MemArea>, kernel: MemArea) returns (i: nat)
      requires base % PAGE_SIZE == 0 && top % PAGE_SIZE == 0 && base <= top
      requires offset + (top - base) / PAGE_SIZE <= descriptors.Length && descriptors != early
      requires Sorted(layout) && Finishes(base, top, layout, kernel)
      modifies this`free, this`used, descriptors
      ensures i == (top - base) / PAGE_SIZE
      ensures free == old(free) + Pages(base / PAGE_SIZE, top / PAGE_SIZE, false, layout, kernel)
      ensures used == old(used) + Pages(base / PAGE_SIZE, top / PAGE_SIZE, true, layout, kernel)
      ensures forall k :: 0 <= k < descriptors.Length ==>
                descriptors[k] ==
                if offset <= k < offset + i then base + (k - offset) * PAGE_SIZE else old(descriptors[k])
    {
      hide Reserved, Finishes, Area, Stuck, Skip, Sorted;
      ghost var free0, used0, table0 := free, used, descriptors[..];
      ScanEnds(base, top, layout, kernel);
      var paddr := base;
      i := 0;
      ghost var n := 0;
      while paddr < top
        invariant base <= paddr <= top && paddr == base + i * PAGE_SIZE
        invariant paddr == ScanAt(n, base, top, layout, kernel)
        invariant Scanned(base, offset, i, layout, kernel, free0, used0, table0)
        decreases top - paddr
      {
        PageApart(paddr, top);
        var m := FindArea(paddr, layout, kernel);
        ScanProgress(paddr, layout, kernel, m);
        if m.Some? {
          i, paddr := DescribeArea(offset, paddr, i, top, m.value.start + m.value.size, base, layout, kernel, free0,
                                   used0, table0);
        } else {
          Describe(offset, i, paddr, false, base, layout, kernel, free0, used0, table0);
          i, paddr := i + 1, paddr + PAGE_SIZE;
        }
        n := n + 1;
      }
    }

    /** `memory_init`: two scans around the hole that the early table describes. */
    method MemoryInit(ramSize: nat, layout: seq<MemArea>, kernel: MemArea)
      requires EarlyValid()
      requires Sorted(layout)
      requires early[0] + EARLY_FRAMES * PAGE_SIZE <= ramSize / PAGE_SIZE * PAGE_SIZE
      requires Finishes(0, early[0], layout, kernel)
      requires Finishes(early[0] + EARLY_FRAMES * PAGE_SIZE, ramSize / PAGE_SIZE * PAGE_SIZE, layout, kernel)
      modifies this
      ensures Valid() && fresh(descriptors)
      ensures top == ramSize / PAGE_SIZE * PAGE_SIZE
      ensures forall a: nat :: InHole(a, early[0] / PAGE_SIZE) ==> (a in used <==> a in old(used))
      ensures forall a: nat :: a < top && a % PAGE_SIZE == 0 && !InHole(a, early[0] / PAGE_SIZE) ==>
                (a in used <==> Reserved(a, layout, kernel))
      ensures forall a :: a in owner ==> owner[a] == if a in old(owner) then old(owner)[a] else KernelUse
    {
      hide Partitioned, Pages, Reserved, Finishes, Sorted, InHole, IndexOk;
      base, top := PAGE_SIZE, ramSize / PAGE_SIZE * PAGE_SIZE;
      var hole, end := early[0] / PAGE_SIZE, ramSize / PAGE_SIZE;
      assert early[0] == hole * PAGE_SIZE;
      BuildTable(hole, end, layout, kernel);
      PartitionOwned(hole, end, layout, kernel, old(free), old(used), owner, free, used);
      owner := Adopted(used, owner);
      IndexReady(hole, end);
    }

    lemma IndexReady(hole: nat, end: nat)
      requires EarlyTable() && early != descriptors && early[0] == hole * PAGE_SIZE && hole + EARLY_FRAMES <= end
      requires top == end * PAGE_SIZE && descriptors.Length == end
      requires forall k :: 0 <= k < end ==>
                 descriptors[k] == if hole <= k < hole + EARLY_FRAMES then EARLY_MARK else k * PAGE_SIZE
      ensures IndexOk()
    {
    }

    /**
     * The table is filled from its start, and `descriptor` runs along it: past the first scan, past the early frames.
     */
    method BuildTable(ghost hole: nat, end: nat, layout: seq<MemArea>, kernel: MemArea)
      requires EarlyTable() && early[0] == hole * PAGE_SIZE && hole + EARLY_FRAMES <= end
      requires Sorted(layout) && Finishes(0, early[0], layout, kernel)
      requires Finishes(early[0] + EARLY_FRAMES * PAGE_SIZE, end * PAGE_SIZE, layout, kernel)
      modifies this`free, this`used, this`descriptors
      ensures fresh(descriptors) && descriptors.Length == end
      ensures free == old(free) + Pages(0, hole, false, layout, kernel) + Pages(hole + EARLY_FRAMES, end, false, layout,
                                                                                kernel)
      ensures used == old(used) + Pages(0, hole, true, layout, kernel) + Pages(hole + EARLY_FRAMES, end, true, layout,
                                                                               kernel)
      ensures forall k :: 0 <= k < end ==>
                descriptors[k] == if hole <= k < hole + EARLY_FRAMES then EARLY_MARK else k * PAGE_SIZE
    {
      hide Pages, Finishes, Sorted;
      descriptors := new int[end];
      var descriptor := 0;
      var n := InitFrames(0, early[0], descriptor, layout, kernel);
      descriptor := descriptor + n;
      MarkEarly(descriptor);
      descriptor := descriptor + EARLY_FRAMES;
      n := InitFrames(early[EARLY_FRAMES - 1] + PAGE_SIZE, end * PAGE_SIZE, descriptor, layout, kernel);
    }

    method MarkEarly(hole: nat)
      requires hole + EARLY_FRAMES <= descriptors.Length && descriptors != early
      modifies descriptors
      ensures forall k :: 0 <= k < descriptors.Length ==>
                descriptors[k] == if hole <= k < hole + EARLY_FRAMES then EARLY_MARK else old(descriptors[k])
    {
      for i := 0 to EARLY_FRAMES
        invariant forall k :: 0 <= k < descriptors.Length ==>
                    descriptors[k] == if hole <= k < hole + i then EARLY_MARK else old(descriptors[k])
      {
        descriptors[hole + i] := EARLY_MARK;
      }
    }

    /** `get_page_frame_at`: the address stored in the descriptor found for `addr`, or None for NULL. */
    method GetPageFrameAt(addr: nat) returns (described: Option<nat>)
      requires Valid()
      ensures described == if addr % PAGE_SIZE == 0 && base <= addr < top then Some(addr) else None
    {
      if addr % PAGE_SIZE != 0 || addr < base || addr >= top {
        return None;
      }
      var pf := descriptors[addr / PAGE_SIZE];
      if pf == EARLY_MARK {
        var start := early[0];
        return Some(early[(addr - start) / PAGE_SIZE]);
      }
      return Some(pf);
    }

    /** `memory_page_frame_alloc` while the frames of [lo, hi) are managed. */
    method Take(ghost who: Owner, ghost lo: nat, ghost hi: nat) returns (f: nat)
      requires Partition(lo, hi)
      modifies this`free, this`used, this`owner
      ensures Partition(lo, hi)
      ensures f == 0 <==> old(free) == []
      ensures f == 0 ==> free == old(free) && used == old(used) && owner == old(owner)
      ensures f != 0 ==> f == old(free)[0] && free == old(free)[1..] && used == old(used) + [f]
      ensures f != 0 ==> f !in old(owner) && owner == old(owner)[f := who]
    {
      if free == [] {
        return 0;
      }
      f := free[0];
      PopNoDup(free);
      AppendNoDup(used, f);
      free := free[1..];
      used := used + [f];
      owner := owner[f := who];
    }

    /** `memory_page_frame_alloc` before `memory_init`: an early frame. */
    method EarlyAlloc(ghost who: Owner) returns (f: nat)
      requires EarlyValid()
      modifies this`free, this`used, this`owner
      ensures EarlyValid()
      ensures f == 0 <==> old(free) == []
      ensures f == 0 ==> free == old(free) && used == old(used) && owner == old(owner)
      ensures f != 0 ==> f == old(free)[0] && free == old(free)[1..] && used == old(used) + [f]
      ensures f != 0 ==> f !in old(owner) && owner == old(owner)[f := who]
    {
      hide Partition;
      f := Take(who, early[0], early[0] + EARLY_FRAMES * PAGE_SIZE);
    }

    /** `memory_page_frame_alloc` */
    method Alloc(ghost who: Owner) returns (f: nat)
      requires Valid()
      modifies this`free, this`used, this`owner
      ensures Valid()
      ensures f == 0 <==> old(free) == []
      ensures f == 0 ==> free == old(free) && used == old(used) && owner == old(owner)
      ensures f != 0 ==> f == old(free)[0] && free == old(free)[1..] && used == old(used) + [f]
      ensures f != 0 ==> f !in old(owner) && owner == old(owner)[f := who]
    {
      hide Partition;
      f := Take(who, 0, top);
    }

    /** `memory_page_frame_free`, for a frame the caller owns or an address that has no descriptor. */
    method Free(addr: nat) returns (ok: bool)
      requires Valid()
      requires addr % PAGE_SIZE == 0 && base <= addr < top ==> addr in owner
      modifies this`free, this`used, this`owner
      ensures Valid()
      ensures ok <==> addr % PAGE_SIZE == 0 && base <= addr < top
      ensures !ok ==> free == old(free) && used == old(used) && owner == old(owner)
      ensures ok ==> free == [addr] + old(free) && used == Erase(old(used), addr) && owner == old(owner) - {addr}
    {
      var pf := GetPageFrameAt(addr);
      if pf.None? {
        return false;
      }
      assert pf.value == addr;
      EraseNoDup(used, addr);
      AppendNoDup(free, addr);
      used := Erase(used, addr);
      free := [addr] + free;
      owner := owner - {addr};
      return true;
    }
  }
}
