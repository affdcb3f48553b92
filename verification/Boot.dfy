/**
 * Bringing up memory on x86 (arch/x86/arch.c): from the directory and the table in the kernel image, through
 * the early frames and the first pages of the heap, to a memory manager without address spaces.
 */
module Boot {
  import opened Lists
  import opened PhysicalMemory
  import opened X86Paging
  import opened VirtualMemory

  /** The kernel image is loaded at 1 MB, and the boot table covers the first 4 MB. */
  const KERNEL_BASE := 0x100000
  const BOOT_TABLE_END := 0x400000
  /** X86_MEMORY_HARDWARE_MAP */
  const MMIO_START := 0xa0000
  const MMIO_SIZE := 0x100000
  /** KHEAP_INITIAL_SIZE, in pages */
  const HEAP_PAGES := 128

  function Layout(): seq<MemArea> {
    [MemArea(MMIO_START, MMIO_SIZE)]
  }

  function Image(kernelTop: nat): MemArea
    requires kernelTop >= KERNEL_BASE
  {
    MemArea(KERNEL_BASE, kernelTop - KERNEL_BASE)
  }

  /** The scans of `memory_init` end on this machine: the only area ends inside the image or past the first scan. */
  lemma LayoutFinishes(kernelTop: nat, ramSize: nat)
    requires kernelTop >= KERNEL_BASE && kernelTop % PAGE_SIZE == 0
    ensures Sorted(Layout()) && Finishes(0, kernelTop, Layout(), Image(kernelTop))
    ensures Finishes(kernelTop + EARLY_FRAMES * PAGE_SIZE, ramSize / PAGE_SIZE * PAGE_SIZE, Layout(), Image(kernelTop))
  {
    var layout, kernel := Layout(), Image(kernelTop);
    forall addr: nat | Stalls(addr, layout)
      ensures addr == MMIO_START + MMIO_SIZE
    {
    }
    NoStallExact(0, kernelTop, layout, kernel);
    NoStallExact(kernelTop + EARLY_FRAMES * PAGE_SIZE, ramSize / PAGE_SIZE * PAGE_SIZE, layout, kernel);
  }

  /** The directory and its tables before `memory_init`: the boot table, and tables made of early frames. */
  ghost predicate Booting(dir: seq<Pde>, tables: Tables, image: nat, owner: map<nat, Owner>) {
    && |dir| == ENTRIES
    && (forall i :: 0 <= i < ENTRIES && (i < USER_DIR || i >= KERNEL_DIR_END) ==> !dir[i].present)
    && (forall f :: f in tables ==> |tables[f]| == ENTRIES)
    && dir[USER_DIR].present && dir[USER_DIR].address == image && image in tables && image !in owner
    && !tables[image][0].present
    && (forall i :: USER_DIR < i < KERNEL_DIR_END && dir[i].present ==>
          dir[i].address in tables && dir[i].address in owner && owner[dir[i].address] == KernelTable(i))
    && (forall f :: f in owner && owner[f] != KernelUse && !owner[f].KernelPage? ==>
          && owner[f].KernelTable? && USER_DIR < owner[f].index < KERNEL_DIR_END
          && dir[owner[f].index].present && dir[owner[f].index].address == f)
  }

  /** Pages other than `page` are mapped as before. */
  ghost predicate OnlyPage(dir: seq<Pde>, tables: Tables, dir': seq<Pde>, tables': Tables, page: nat) {
    forall v: nat :: USER_PAGES <= v < KERNEL_END_PAGE && v != page ==> Walk(dir', tables', v) == Walk(dir, tables, v)
  }

  /** Another table, made of the frame `t`: nothing is mapped in it. */
  lemma BootTable(dir: seq<Pde>, tables: Tables, image: nat, owner: map<nat, Owner>, slot: nat, t: nat)
    requires Booting(dir, tables, image, owner) && USER_DIR < slot < KERNEL_DIR_END && !dir[slot].present
    requires t !in owner && t != image
    ensures var dir', tables' := dir[slot := Pde(true, true, false, t)], tables[t := ZeroTable()];
            && Booting(dir', tables', image, owner[t := KernelTable(slot)])
            && forall v: nat :: USER_PAGES <= v < KERNEL_END_PAGE ==> Walk(dir', tables', v) == Walk(dir, tables, v)
  {
  }

  /** Another page in one of the tables. */
  lemma BootPage(dir: seq<Pde>, tables: Tables, image: nat, owner: map<nat, Owner>, page: nat, f: nat)
    requires Booting(dir, tables, image, owner) && RESERVED_PAGE < page < KERNEL_END_PAGE && dir[page / ENTRIES].present
    ensures dir[page / ENTRIES].address in tables && |tables[dir[page / ENTRIES].address]| == ENTRIES
    ensures var t := dir[page / ENTRIES].address;
            var tables' := tables[t := tables[t][page % ENTRIES := Pte(true, true, false, f)]];
            && Booting(dir, tables', image, owner) && Walk(dir, tables', page) == Some(Pte(true, true, false, f))
            && OnlyPage(dir, tables, dir, tables', page)
  {
    var t := dir[page / ENTRIES].address;
    forall v: nat | USER_PAGES <= v < KERNEL_END_PAGE && v != page && dir[v / ENTRIES].present &&
      dir[v / ENTRIES].address == t
      ensures v / ENTRIES == page / ENTRIES && v % ENTRIES != page % ENTRIES
    {
    }
  }

  /** A used frame joins the kernel's. */
  lemma BootFrame(dir: seq<Pde>, tables: Tables, image: nat, owner: map<nat, Owner>, f: nat, page: nat)
    requires Booting(dir, tables, image, owner) && f !in owner && f != image
    ensures Booting(dir, tables, image, owner[f := KernelPage(page)])
  {
  }

  /** The page tables are as the paging code needs them once the image's frames have their owners. */
  lemma BootWf(boot: nat, dir: seq<Pde>, tables: Tables, image: nat, early: map<nat, Owner>, owner: map<nat, Owner>)
    requires Booting(dir, tables, image, early) && image in owner && owner[image] == KernelTable(USER_DIR)
    requires forall f :: f in early ==> f in owner
    requires forall f :: f in owner && f != image ==> owner[f] == if f in early then early[f] else KernelUse
    ensures Wf({boot}, map[boot := dir], tables, dir[USER_DIR..KERNEL_DIR_END], owner) && |RegionFrames(owner)| == 0
  {
    var kdir := dir[USER_DIR..KERNEL_DIR_END];
    assert forall k :: 0 <= k < KERNEL_DIR ==> kdir[k] == dir[USER_DIR + k];
    assert RegionFrames(owner) == map[];
  }

  lemma EarlyFrames(pm: PageFrames)
    requires pm.EarlyValid()
    ensures pm.early.Length > 0 && forall a :: a in pm.free ==> a >= pm.early[0]
  {
  }

  /** One turn of `kheap_sbrk` before `memory_init`: a frame is taken and mapped, with a table of its own if need be. */
  method HeapPage(pm: PageFrames, page: nat, dir: seq<Pde>, tables: Tables, ghost image: nat, ghost heap: map<nat, nat>)
    returns (dir': seq<Pde>, tables': Tables, f: nat)
    requires pm.EarlyValid() && |pm.free| >= 2 && image < pm.early[0] && RESERVED_PAGE < page < KERNEL_END_PAGE
    requires Booting(dir, tables, image, pm.owner) && HeapOwned(heap, pm.owner) && page !in heap
    modifies pm`free, pm`used, pm`owner
    ensures pm.EarlyValid() && |pm.free| >= |old(pm.free)| - 2
    ensures Booting(dir', tables', image, pm.owner) && HeapOwned(heap[page := f], pm.owner) && f in old(pm.free)
    ensures Walk(dir', tables', page) == Some(Pte(true, true, false, f)) && OnlyPage(dir, tables, dir', tables', page)
  {
    BootingShape(dir, tables, image, pm.owner);
    hide Booting, OnlyPage, PageFrames.EarlyValid, Walk, ZeroTable, HeapOwned;
    EarlyFrames(pm);
    f := pm.EarlyAlloc(KernelPage(page));
    BootFrame(dir, tables, image, old(pm.owner), f, page);
    HeapTaken(heap, old(pm.owner), page, f);
    dir', tables' := dir, tables;
    var slot := page / ENTRIES;
    if !dir[slot].present {
      EarlyFrames(pm);
      ghost var owner := pm.owner;
      var t := pm.EarlyAlloc(KernelTable(slot));
      BootTable(dir, tables, image, owner, slot, t);
      HeapKept(heap[page := f], owner, t, KernelTable(slot));
      dir', tables' := dir[slot := Pde(true, true, false, t)], tables[t := ZeroTable()];
    }
    BootPage(dir', tables', image, pm.owner, page, f);
    var t := dir'[slot].address;
    ghost var tables1 := tables';
    tables' := tables'[t := tables'[t][page % ENTRIES := Pte(true, true, false, f)]];
    OnlyPageLater(dir, tables, dir', tables1, tables', page);
  }

  lemma HeapTaken(heap: map<nat, nat>, o: map<nat, Owner>, page: nat, f: nat)
    requires HeapOwned(heap, o) && page !in heap && f !in o
    ensures HeapOwned(heap[page := f], o[f := KernelPage(page)])
  {
  }

  lemma OnlyPageLater(dir: seq<Pde>, tables: Tables, dir': seq<Pde>, tables1: Tables, tables': Tables, page: nat)
    requires forall v: nat :: USER_PAGES <= v < KERNEL_END_PAGE ==> Walk(dir', tables1, v) == Walk(dir, tables, v)
    requires OnlyPage(dir', tables1, dir', tables', page)
    ensures OnlyPage(dir, tables, dir', tables', page)
  {
    hide Walk;
  }

  lemma BootingShape(dir: seq<Pde>, tables: Tables, image: nat, owner: map<nat, Owner>)
    requires Booting(dir, tables, image, owner)
    ensures |dir| == ENTRIES && dir[USER_DIR].present
  {
  }

  /** The first `n` pages of the heap are mapped, writable, to the frames that `heap` names. */
  ghost predicate HeapMapped(dir: seq<Pde>, tables: Tables, heap: map<nat, nat>, start: nat, n: nat) {
    && (forall v: nat :: v in heap <==> start <= v < start + n)
    && (forall v :: v in heap ==> Walk(dir, tables, v) == Some(Pte(true, true, false, heap[v])))
  }

  lemma HeapGrown(dir: seq<Pde>, tables: Tables, dir': seq<Pde>, tables': Tables, heap: map<nat, nat>, start: nat,
                  n: nat,
                  f: nat)
    requires HeapMapped(dir, tables, heap, start, n) && USER_PAGES <= start && start + n < KERNEL_END_PAGE
    requires Walk(dir', tables', start + n) == Some(Pte(true, true, false, f))
    requires OnlyPage(dir, tables, dir', tables', start + n)
    ensures HeapMapped(dir', tables', heap[start + n := f], start, n + 1)
  {
    hide Walk;
  }

  /** `kheap_init`: the pages of the initial heap, each with a frame of its own. */
  method HeapInit(pm: PageFrames, start: nat, dir: seq<Pde>, tables: Tables, ghost image: nat)
    returns (dir': seq<Pde>, tables': Tables, ghost heap: map<nat, nat>)
    requires pm.EarlyValid() && |pm.free| == EARLY_FRAMES && image < pm.early[0] && pm.owner == map[]
    requires RESERVED_PAGE < start && start + HEAP_PAGES <= KERNEL_END_PAGE && Booting(dir, tables, image, pm.owner)
    modifies pm`free, pm`used, pm`owner
    ensures pm.EarlyValid() && Booting(dir', tables', image, pm.owner)
    ensures HeapMapped(dir', tables', heap, start, HEAP_PAGES) && HeapOwned(heap, pm.owner)
  {
    hide Booting, OnlyPage, PageFrames.EarlyValid, Walk, HeapOwned, HeapMapped;
    EarlyFrames(pm);
    dir', tables', heap := dir, tables, map[];
    NoHeap(dir, tables, start);
    for k := 0 to HEAP_PAGES
      invariant pm.EarlyValid() && |pm.free| >= EARLY_FRAMES - 2 * k && pm.early.Length > 0 && image < pm.early[0]
      invariant Booting(dir', tables', image, pm.owner) && HeapMapped(dir', tables', heap, start, k)
      invariant HeapOwned(heap, pm.owner)
    {
      ghost var dir1, tables1 := dir', tables';
      HeapEnd(dir', tables', heap, start, k);
      var f: nat;
      dir', tables', f := HeapPage(pm, start + k, dir', tables', image, heap);
      HeapGrown(dir1, tables1, dir', tables', heap, start, k, f);
      heap := heap[start + k := f];
    }
  }

  lemma NoHeap(dir: seq<Pde>, tables: Tables, start: nat)
    ensures HeapMapped(dir, tables, map[], start, 0) && HeapOwned(map[], map[])
  {
  }

  lemma HeapEnd(dir: seq<Pde>, tables: Tables, heap: map<nat, nat>, start: nat, n: nat)
    requires HeapMapped(dir, tables, heap, start, n)
    ensures start + n !in heap
  {
  }

  /** The boot directory after `cleanup_boot_pd`: one entry, without the write bit. */
  function BootDir(image: nat): seq<Pde> {
    seq(ENTRIES, i => if i == USER_DIR then Pde(true, false, false, image) else NULL_PDE)
  }

  lemma BootStart(image: nat, entries: seq<Pte>)
    requires |entries| == ENTRIES && !entries[0].present
    ensures Booting(BootDir(image), map[image := entries], image, map[])
  {
  }

  lemma HeapInMap(boot: nat, dir: seq<Pde>, tables: Tables, heap: map<nat, nat>, owner: map<nat, Owner>, start: nat,
                  n: nat)
    requires HeapMapped(dir, tables, heap, start, n) && USER_PAGES <= start && start + n <= KERNEL_END_PAGE
    requires HeapOwned(heap, owner)
    ensures KernelFits(KernelMapOf(boot, map[boot := dir], tables), heap)
    ensures forall v: nat :: v in heap <==> start <= v < start + n
  {
    hide Walk, HeapOwned;
    forall v, w | v in heap && w in heap && v != w
      ensures heap[v] != heap[w]
    {
      if heap[v] == heap[w] {
        HeapDistinct(heap, owner, v, w);
      }
    }
  }

  lemma ReservedStaysFree(boot: nat, dir: seq<Pde>, tables: Tables, image: nat, owner: map<nat, Owner>)
    requires Booting(dir, tables, image, owner)
    ensures RESERVED_PAGE !in KernelMapOf(boot, map[boot := dir], tables)
    ensures forall i :: 0 <= i < USER_DIR ==> !dir[i].present
  {
  }

  /** `memory_init`, after which the frames of the image have owners too. */
  method FramesUp(pm: PageFrames, ramSize: nat, boot: nat, image: nat)
    requires pm.EarlyValid() && KERNEL_BASE < pm.early[0]
    requires boot % PAGE_SIZE == 0 && image % PAGE_SIZE == 0 && boot != image
    requires KERNEL_BASE <= boot < pm.early[0] && KERNEL_BASE <= image < pm.early[0]
    requires pm.early[0] + EARLY_FRAMES * PAGE_SIZE <= ramSize / PAGE_SIZE * PAGE_SIZE
    modifies pm
    ensures pm.Valid() && pm.top == ramSize / PAGE_SIZE * PAGE_SIZE
    ensures forall f :: f in old(pm.owner) ==> f in pm.owner
    ensures forall f :: f in pm.owner && f != image ==>
              pm.owner[f] == if f in old(pm.owner) then old(pm.owner)[f] else KernelUse
    ensures image in pm.owner && pm.owner[image] == KernelTable(USER_DIR)
    ensures boot in pm.owner && (boot !in old(pm.owner) ==> pm.owner[boot] == KernelUse)
    ensures Claimed(pm.free, pm.used, pm.early[0])
  {
    LayoutFinishes(pm.early[0], ramSize);
    hide Finishes, Sorted, Layout, Image, PageFrames.IndexOk, NoDup, Claimed, Reserved;
    assert Holds(Image(pm.early[0]), boot) && Holds(Image(pm.early[0]), image) by {
      ImageHolds(pm.early[0], boot);
      ImageHolds(pm.early[0], image);
    }
    pm.MemoryInit(ramSize, Layout(), Image(pm.early[0]));
    LayoutClaims(pm.early[0], pm.free, pm.used, pm.owner, pm.top);
    pm.owner := pm.owner[image := KernelTable(USER_DIR)];
  }

  /**
   * Conventional memory below 0xa0000 is free but for the null page; from there to the end of the kernel image, the
   * video memory and the firmware included, everything is in use.
   */
  ghost predicate Claimed(free: seq<nat>, used: seq<nat>, kernelTop: nat) {
    && (forall a: nat :: a % PAGE_SIZE == 0 && PAGE_SIZE <= a < 0xa0000 ==> a in free)
    && (forall a: nat :: a % PAGE_SIZE == 0 && 0xa0000 <= a < kernelTop ==> a in used && a !in free)
  }

  lemma LayoutClaims(kernelTop: nat, free: seq<nat>, used: seq<nat>, owner: map<nat, Owner>, top: nat)
    requires KERNEL_BASE < kernelTop <= top && kernelTop % PAGE_SIZE == 0 && Partitioned(free, used, owner, 0, top)
    requires forall a: nat :: a < top && a % PAGE_SIZE == 0 && !InHole(a, kernelTop / PAGE_SIZE) ==>
               (a in used <==> Reserved(a, Layout(), Image(kernelTop)))
    ensures Claimed(free, used, kernelTop)
  {
    forall a: nat | a % PAGE_SIZE == 0 && PAGE_SIZE <= a < kernelTop
      ensures Reserved(a, Layout(), Image(kernelTop)) <==> 0xa0000 <= a
    {
      assert Holds(Layout()[0], a) <==> 0xa0000 <= a < 0x1a0000;
    }
    hide Reserved, NoDup;
  }

  lemma ImageHolds(kernelTop: nat, f: nat)
    requires KERNEL_BASE <= f < kernelTop
    ensures Holds(Image(kernelTop), f)
  {
  }

  /** The boot directory becomes the active one. */
  method Mount(pm: PageFrames, ramSize: nat, boot: nat, image: nat, dir: seq<Pde>, tables: Tables,
               ghost heap: map<nat, nat>)
    returns (pt: Paging)
    requires pm.EarlyValid() && Booting(dir, tables, image, pm.owner) && KERNEL_BASE < pm.early[0]
    requires boot % PAGE_SIZE == 0 && image % PAGE_SIZE == 0 && boot != image
    requires KERNEL_BASE <= boot < pm.early[0] && KERNEL_BASE <= image < pm.early[0]
    requires pm.early[0] + EARLY_FRAMES * PAGE_SIZE <= ramSize / PAGE_SIZE * PAGE_SIZE
    requires HeapOwned(heap, pm.owner)
    modifies pm
    ensures fresh(pt) && pt.heap == heap && Claimed(pm.free, pm.used, pm.early[0]) && HeapOwned(heap, pm.owner)
    ensures pt.pm == pm && pt.Valid() && pt.ReservedFree() && pt.registered == [] && pt.active == boot
    ensures pt.dirs == map[boot := dir] && pt.tables == tables && |RegionFrames(pm.owner)| == 0
    ensures pm.top == ramSize / PAGE_SIZE * PAGE_SIZE
  {
    hide Booting, Wf, RegionFrames, PageFrames.Valid, PageFrames.EarlyValid, KernelMapOf, Paging.Valid,
         HeapOwned, Claimed;
    BootingShape(dir, tables, image, pm.owner);
    EarlyOwners(pm);
    ghost var owner := pm.owner;
    FramesUp(pm, ramSize, boot, image);
    BootWf(boot, dir, tables, image, owner, pm.owner);
    ReservedStaysFree(boot, dir, tables, image, owner);
    HeapStays(heap, owner, pm.owner, image);
    pt := new Paging(pm, boot, dir, tables, heap);
  }

  lemma HeapStays(heap: map<nat, nat>, early: map<nat, Owner>, owner: map<nat, Owner>, image: nat)
    requires HeapOwned(heap, early) && image !in early && image in owner && owner[image] == KernelTable(USER_DIR)
    requires forall f :: f in early ==> f in owner
    requires forall f :: f in owner && f != image ==> owner[f] == if f in early then early[f] else KernelUse
    ensures HeapOwned(heap, owner)
  {
  }

  lemma EarlyOwners(pm: PageFrames)
    requires pm.EarlyValid()
    ensures pm.early.Length > 0 && forall f: nat :: f < pm.early[0] ==> f !in pm.owner
  {
  }

  /**
   * `arch_mm_init`, with the directory and the table of the image at `boot` and `image`, and the table as
   * `cleanup_boot_pt` leaves it: memory management comes up, with the initial heap mapped.
   */
  method MemoryUp(kernelTop: nat, ramSize: nat, boot: nat, image: nat, entries: seq<Pte>) returns (vmm: Vmm)
    requires KERNEL_BASE < kernelTop <= BOOT_TABLE_END && kernelTop % PAGE_SIZE == 0
    requires boot % PAGE_SIZE == 0 && image % PAGE_SIZE == 0 && boot != image
    requires KERNEL_BASE <= boot < kernelTop && KERNEL_BASE <= image < kernelTop
    requires |entries| == ENTRIES && forall i :: 0 <= i < MMIO_START / PAGE_SIZE ==> !entries[i].present
    requires kernelTop + EARLY_FRAMES * PAGE_SIZE <= ramSize / PAGE_SIZE * PAGE_SIZE
    ensures fresh(vmm) && vmm.Valid() && vmm.BreaksOk() && vmm.KernelOk() && vmm.current == None && vmm.held == {}
    ensures var start := USER_PAGES + kernelTop / PAGE_SIZE;
            forall v: nat :: v in vmm.pt.heap <==> start <= v < start + HEAP_PAGES
    ensures Claimed(vmm.pt.pm.free, vmm.pt.pm.used, kernelTop)
    ensures vmm.pt.active == boot && vmm.pt.pm.top == ramSize / PAGE_SIZE * PAGE_SIZE
  {
    var pm := new PageFrames.EarlyInit(kernelTop);
    assert pm.owner == map[];
    BootStart(image, entries);
    hide Booting, PageFrames.EarlyValid, Vmm.Valid, Paging.Valid, HeapMapped, KernelMapOf, Wf, BootDir,
         HeapOwned, KernelFits, Claimed, RegionFrames, Vmm.BreaksOk;
    var start := USER_PAGES + kernelTop / PAGE_SIZE;
    var dir, tables, heap := HeapInit(pm, start, BootDir(image), map[image := entries], image);
    var pt := Mount(pm, ramSize, boot, image, dir, tables, heap);
    HeapInMap(boot, dir, tables, heap, pm.owner, start, HEAP_PAGES);
    vmm := new Vmm(pt);
  }
}
