/**
 * The two-level page tables of 32-bit x86 (arch/x86/mm/paging.c), refining one flat map
 * from virtual page to page table entry per address space and one for the kernel half.
 *
 * Directories and tables are read and written directly: the recursive windows through
 * which the kernel reaches them are not modelled.
 */
module X86Paging {
  import opened Errors
  import opened Lists
  import opened PhysicalMemory

  const ENTRIES := 1024
  const USER_DIR := 768
  const KERNEL_DIR_END := 1022
  const KERNEL_DIR := 254
  const USER_PAGES := 786432
  const KERNEL_END_PAGE := 1046528
  /** KERNEL_SPACE_RESERVED: the page through which other frames are written. */
  const RESERVED_PAGE := 786432

  datatype Prot = Prot(write: bool, user: bool)
  datatype Pde = Pde(present: bool, rw: bool, user: bool, address: nat)
  datatype Pte = Pte(present: bool, rw: bool, user: bool, address: nat)
  type Tables = map<nat, seq<Pte>>

  const NULL_PDE := Pde(false, false, false, 0)
  const NULL_PTE := Pte(false, false, false, 0)

  function ZeroTable(): seq<Pte> {
    seq(ENTRIES, _ => NULL_PTE)
  }

  /** A directory in which only the recursive entry is present. */
  function BlankDir(pd: nat): (d: seq<Pde>)
    ensures |d| == ENTRIES && forall i :: 0 <= i < ENTRIES - 1 ==> d[i] == NULL_PDE
  {
    seq(ENTRIES, i => if i == ENTRIES - 1 then Pde(true, true, false, pd) else NULL_PDE)
  }

  /**
   * The processor's walk: an access right of a user page holds only if both levels grant it. Kernel pages are
   * written by the supervisor with CR0.WP clear, so the write bit of their directory entry (which the boot
   * directory leaves clear) does not count.
   */
  function Walk(d: seq<Pde>, tables: Tables, v: nat): Option<Pte> {
    if v / ENTRIES < |d| && d[v / ENTRIES].present && d[v / ENTRIES].address in tables then
      var pde := d[v / ENTRIES];
      var pt := tables[pde.address];
      if v % ENTRIES < |pt| && pt[v % ENTRIES].present then
        var pte := pt[v % ENTRIES];
        Some(Pte(true, (pde.rw || v >= USER_PAGES) && pte.rw, pde.user && pte.user, pte.address))
      else None
    else None
  }

  ghost function Flat(d: seq<Pde>, tables: Tables, lo: nat, hi: nat): map<nat, Pte> {
    map v: nat | lo <= v < hi && Walk(d, tables, v).Some? :: Walk(d, tables, v).value
  }

  ghost predicate NothingMapped(um: map<nat, map<nat, Pte>>) {
    forall c, v :: c in um ==> v !in um[c]
  }

  /** The present entries of a directory. */
  ghost function SlotsOf(d: seq<Pde>): set<nat> {
    set i: nat | i < |d| && d[i].present
  }

  lemma SlotPut(d: seq<Pde>, i: nat, e: Pde)
    requires i < |d| && e.present
    ensures SlotsOf(d[i := e]) == SlotsOf(d) + {i}
  {
  }

  /** How many of the first `n` entries are present. */
  ghost function Present(d: seq<Pde>, n: nat): nat
    requires n <= |d|
  {
    if n == 0 then 0 else Present(d, n - 1) + if d[n - 1].present then 1 else 0
  }

  /** How many user entries are present. */
  ghost function UserSlots(slots: set<nat>): nat {
    |set i | i in slots && i < USER_DIR|
  }

  lemma {:induction false} PresentBelow(d: seq<Pde>, n: nat)
    requires n <= |d|
    ensures Present(d, n) == |set i | i in SlotsOf(d) && i < n|
  {
    if n > 0 {
      PresentBelow(d, n - 1);
      var before := set i | i in SlotsOf(d) && i < n - 1;
      assert (set i | i in SlotsOf(d) && i < n) == before + (if d[n - 1].present then {n - 1} else {});
    } else {
      assert (set i | i in SlotsOf(d) && i < 0) == {};
    }
  }

  lemma {:induction false} PresentGrows(d: seq<Pde>, i: nat, n: nat)
    requires i <= n <= |d|
    ensures Present(d, i) <= Present(d, n) && (i < n && d[i].present ==> Present(d, i) < Present(d, n))
    decreases n
  {
    if i + 1 < n {
      PresentGrows(d, i, n - 1);
    }
  }

  /** The flat user maps of the live directories. */
  ghost function UserMapsOf(live: set<nat>, dirs: map<nat, seq<Pde>>, tables: Tables): map<nat, map<nat, Pte>> {
    map c | c in live && c in dirs :: Flat(dirs[c], tables, 0, USER_PAGES)
  }

  ghost function KernelMapOf(active: nat, dirs: map<nat, seq<Pde>>, tables: Tables): map<nat, Pte> {
    if active in dirs then Flat(dirs[active], tables, USER_PAGES, KERNEL_END_PAGE) else map[]
  }

  ghost predicate OwnedTable(e: Pde, who: Owner, tables: Tables, owner: map<nat, Owner>) {
    (who.UserTable? ==> e.rw) && e.address in tables && e.address in owner && owner[e.address] == who
  }

  /** Every present entry of a live directory leads to a table that only it owns, and every owned table is reachable. */
  ghost predicate Wf(live: set<nat>, dirs: map<nat, seq<Pde>>, tables: Tables, kdir: seq<Pde>, owner: map<nat, Owner>) {
    && |kdir| == KERNEL_DIR
    && (forall f :: f in tables ==> |tables[f]| == ENTRIES)
    && (forall c :: c in live ==> c in dirs && |dirs[c]| == ENTRIES && dirs[c][USER_DIR..KERNEL_DIR_END] == kdir)
    && (forall c, i :: c in live && 0 <= i < USER_DIR && dirs[c][i].present ==>
          dirs[c][i].user && OwnedTable(dirs[c][i], UserTable(c, i), tables, owner))
    && (forall k :: 0 <= k < KERNEL_DIR && kdir[k].present ==>
          OwnedTable(kdir[k], KernelTable(USER_DIR + k), tables, owner))
    && (forall f :: f in owner && owner[f].UserTable? ==>
          var c, i := owner[f].dir, owner[f].index;
          c in live && i < USER_DIR && dirs[c][i].present && dirs[c][i].address == f)
    && (forall f :: f in owner && owner[f].KernelTable? ==>
          var k := owner[f].index - USER_DIR;
          0 <= k < KERNEL_DIR && kdir[k].present && kdir[k].address == f)
    && (forall f :: f in owner && owner[f].Directory? ==> f in live)
  }

  lemma WalkBySlot(d: seq<Pde>, e: seq<Pde>, tables: Tables, v: nat)
    requires v / ENTRIES < |d| && v / ENTRIES < |e| && d[v / ENTRIES] == e[v / ENTRIES]
    ensures Walk(d, tables, v) == Walk(e, tables, v)
  {
  }

  /** Changing who owns region frames and kernel pages leaves the page tables well formed. */
  lemma WfReowned(live: set<nat>, dirs: map<nat, seq<Pde>>, tables: Tables, kdir: seq<Pde>,
                  o: map<nat, Owner>, p: map<nat, Owner>)
    requires Wf(live, dirs, tables, kdir, o) && PagingFrames(o) == PagingFrames(p)
    ensures Wf(live, dirs, tables, kdir, p)
  {
    forall c, i | c in live && 0 <= i < USER_DIR && dirs[c][i].present
      ensures OwnedTable(dirs[c][i], UserTable(c, i), tables, p)
    {
      assert dirs[c][i].address in PagingFrames(o);
    }
    forall k | 0 <= k < KERNEL_DIR && kdir[k].present
      ensures OwnedTable(kdir[k], KernelTable(USER_DIR + k), tables, p)
    {
      assert kdir[k].address in PagingFrames(o);
    }
    assert forall f :: f in PagingFrames(p) ==> f in PagingFrames(o) && o[f] == p[f];
  }

  /** The kernel map that the shared directory entries stand for. */
  ghost function KernelFlat(kdir: seq<Pde>, tables: Tables): map<nat, Pte> {
    Flat(seq(USER_DIR, _ => NULL_PDE) + kdir, tables, USER_PAGES, KERNEL_END_PAGE)
  }

  /** Every live address space translates every kernel page alike. */
  lemma KernelAgrees(live: set<nat>, dirs: map<nat, seq<Pde>>, tables: Tables, kdir: seq<Pde>, owner: map<nat, Owner>,
                     c: nat)
    requires Wf(live, dirs, tables, kdir, owner) && c in live
    ensures KernelMapOf(c, dirs, tables) == KernelFlat(kdir, tables)
    ensures dirs[c][USER_DIR] == kdir[0]
  {
    var d := seq(USER_DIR, _ => NULL_PDE) + kdir;
    assert dirs[c][USER_DIR..KERNEL_DIR_END][0] == kdir[0];
    forall v: nat | USER_PAGES <= v < KERNEL_END_PAGE
      ensures Walk(dirs[c], tables, v) == Walk(d, tables, v)
    {
      assert dirs[c][v / ENTRIES] == dirs[c][USER_DIR..KERNEL_DIR_END][v / ENTRIES - USER_DIR] == d[v / ENTRIES];
    }
  }

  /** The owner a table must have for the walk of `v` in directory `c` to go through it. */
  ghost function TableOwner(c: nat, v: nat): Owner {
    if v < USER_PAGES then UserTable(c, v / ENTRIES) else KernelTable(v / ENTRIES)
  }

  lemma WalkOwner(live: set<nat>, dirs: map<nat, seq<Pde>>, tables: Tables, kdir: seq<Pde>,
                  owner: map<nat, Owner>, c: nat, v: nat)
    requires Wf(live, dirs, tables, kdir, owner) && c in live && v < KERNEL_END_PAGE
    requires dirs[c][v / ENTRIES].present
    ensures var t := dirs[c][v / ENTRIES].address;
            t in tables && t in owner && owner[t] == TableOwner(c, v) && (v < USER_PAGES ==> dirs[c][v / ENTRIES].rw) &&
            (v < USER_PAGES ==> dirs[c][v / ENTRIES].user)
  {
    if v >= USER_PAGES {
      var k := v / ENTRIES - USER_DIR;
      assert dirs[c][v / ENTRIES] == dirs[c][USER_DIR..KERNEL_DIR_END][k] == kdir[k];
    }
  }

  /** Writing a table changes only the walks of the pages that its owner covers. */
  lemma WalkElsewhere(live: set<nat>, dirs: map<nat, seq<Pde>>, tables: Tables, kdir: seq<Pde>,
                      owner: map<nat, Owner>, t: nat, pt: seq<Pte>, c: nat, v: nat)
    requires Wf(live, dirs, tables, kdir, owner) && c in live && v < KERNEL_END_PAGE
    requires t in owner ==> owner[t] != TableOwner(c, v)
    ensures Walk(dirs[c], tables[t := pt], v) == Walk(dirs[c], tables, v)
  {
    if dirs[c][v / ENTRIES].present {
      WalkOwner(live, dirs, tables, kdir, owner, c, v);
    }
  }

  lemma SameWalks(live: set<nat>, dirs: map<nat, seq<Pde>>, tables: Tables, dirs': map<nat, seq<Pde>>, tables': Tables)
    requires forall x :: x in live ==> x in dirs && x in dirs'
    requires forall x, v: nat :: x in live && v < KERNEL_END_PAGE ==>
               Walk(dirs'[x], tables', v) == Walk(dirs[x], tables, v)
    ensures UserMapsOf(live, dirs', tables') == UserMapsOf(live, dirs, tables)
    ensures forall x :: x in live ==> KernelMapOf(x, dirs', tables') == KernelMapOf(x, dirs, tables)
  {
    forall x | x in live
      ensures Flat(dirs'[x], tables', 0, USER_PAGES) == Flat(dirs[x], tables, 0, USER_PAGES)
      ensures Flat(dirs'[x], tables', USER_PAGES, KERNEL_END_PAGE) == Flat(dirs[x], tables, USER_PAGES, KERNEL_END_PAGE)
    {
    }
  }

  /** A fresh zeroed user table leaves the tables well formed. */
  lemma NewUserTableWf(live: set<nat>, dirs: map<nat, seq<Pde>>, tables: Tables, kdir: seq<Pde>, owner: map<nat, Owner>,
                       c: nat, i: nat, t: nat, dirs': map<nat, seq<Pde>>, tables': Tables)
    requires Wf(live, dirs, tables, kdir, owner) && c in live && i < USER_DIR
    requires !dirs[c][i].present && t !in owner
    requires dirs' == dirs[c := dirs[c][i := Pde(true, true, true, t)]] && tables' == tables[t := ZeroTable()]
    ensures Wf(live, dirs', tables', kdir, owner[t := UserTable(c, i)])
  {
    var owner' := owner[t := UserTable(c, i)];
    assert dirs'[c][USER_DIR..KERNEL_DIR_END] == dirs[c][USER_DIR..KERNEL_DIR_END];
    forall x, j | x in live && 0 <= j < USER_DIR && dirs'[x][j].present
      ensures dirs'[x][j].user && OwnedTable(dirs'[x][j], UserTable(x, j), tables', owner')
    {
      if x != c || j != i {
        assert dirs'[x][j] == dirs[x][j];
      }
    }
    forall f | f in owner' && owner'[f].UserTable?
      ensures var x, j := owner'[f].dir, owner'[f].index;
              x in live && j < USER_DIR && dirs'[x][j].present && dirs'[x][j].address == f
    {
    }
  }

  /** ... and no translation changes. */
  lemma NewUserTableFlat(live: set<nat>, dirs: map<nat, seq<Pde>>, tables: Tables, kdir: seq<Pde>, owner: map<nat,
                         Owner>,
                         c: nat, i: nat, t: nat, dirs': map<nat, seq<Pde>>, tables': Tables)
    requires Wf(live, dirs, tables, kdir, owner) && c in live && i < USER_DIR
    requires !dirs[c][i].present && t !in owner
    requires dirs' == dirs[c := dirs[c][i := Pde(true, true, true, t)]] && tables' == tables[t := ZeroTable()]
    ensures UserMapsOf(live, dirs', tables') == UserMapsOf(live, dirs, tables)
    ensures forall x :: x in live ==> KernelMapOf(x, dirs', tables') == KernelMapOf(x, dirs, tables)
  {
    forall x, v: nat | x in live && v < KERNEL_END_PAGE
      ensures Walk(dirs'[x], tables', v) == Walk(dirs[x], tables, v)
    {
      WalkElsewhere(live, dirs, tables, kdir, owner, t, ZeroTable(), x, v);
    }
    SameWalks(live, dirs, tables, dirs', tables');
  }

  /** The same for a kernel table, entered in every live directory at once. */
  lemma NewKernelTableWf(live: set<nat>, dirs: map<nat, seq<Pde>>, tables: Tables, kdir: seq<Pde>, owner: map<nat,
                         Owner>,
                         k: nat, e: Pde, dirs': map<nat, seq<Pde>>, tables': Tables)
    requires Wf(live, dirs, tables, kdir, owner) && k < KERNEL_DIR
    requires !kdir[k].present && e.present && e.rw && e.address !in owner
    requires forall c :: c in live ==> c in dirs' && dirs'[c] == dirs[c][USER_DIR + k := e]
    requires tables' == tables[e.address := ZeroTable()]
    ensures Wf(live, dirs', tables', kdir[k := e], owner[e.address := KernelTable(USER_DIR + k)])
  {
    var owner' := owner[e.address := KernelTable(USER_DIR + k)];
    forall c | c in live
      ensures dirs'[c][USER_DIR..KERNEL_DIR_END] == kdir[k := e]
    {
    }
    forall x, j | x in live && 0 <= j < USER_DIR && dirs'[x][j].present
      ensures dirs'[x][j].user && OwnedTable(dirs'[x][j], UserTable(x, j), tables', owner')
    {
      assert dirs'[x][j] == dirs[x][j];
    }
  }

  lemma NewKernelTableFlat(live: set<nat>, dirs: map<nat, seq<Pde>>, tables: Tables, kdir: seq<Pde>,
                           owner: map<nat, Owner>, k: nat, e: Pde, dirs': map<nat, seq<Pde>>, tables': Tables)
    requires Wf(live, dirs, tables, kdir, owner) && k < KERNEL_DIR
    requires !kdir[k].present && e.present && e.rw && e.address !in owner
    requires forall x :: x in live ==> x in dirs' && dirs'[x] == dirs[x][USER_DIR + k := e]
    requires tables' == tables[e.address := ZeroTable()]
    ensures UserMapsOf(live, dirs', tables') == UserMapsOf(live, dirs, tables)
    ensures forall x :: x in live ==> KernelMapOf(x, dirs', tables') == KernelMapOf(x, dirs, tables)
  {
    forall x, v: nat | x in live && v < KERNEL_END_PAGE
      ensures Walk(dirs'[x], tables', v) == Walk(dirs[x], tables, v)
    {
      assert dirs[x][USER_DIR + k] == dirs[x][USER_DIR..KERNEL_DIR_END][k] == kdir[k];
      WalkElsewhere(live, dirs, tables, kdir, owner, e.address, ZeroTable(), x, v);
    }
    SameWalks(live, dirs, tables, dirs', tables');
  }

  /** The map with page `v` bound to `e`, or unbound. */
  ghost function Put(m: map<nat, Pte>, v: nat, e: Option<Pte>): map<nat, Pte> {
    if e.Some? then m[v := e.value] else m - {v}
  }

  lemma PutBack(m: map<nat, Pte>, v: nat, e: Pte)
    requires v !in m
    ensures m[v := e] - {v} == m
  {
  }

  ghost function AsEntry(e: Pte): Option<Pte> {
    if e.present then Some(e) else None
  }

  /**
   * Writing the entry of page `v` changes the walk of `v`, in the directory that owns the table or, for kernel pages,
   * in all.
   */
  lemma WriteWalks(live: set<nat>, dirs: map<nat, seq<Pde>>, tables: Tables, kdir: seq<Pde>, owner: map<nat, Owner>,
                   c: nat, v: nat, e: Pte, tables': Tables)
    requires Wf(live, dirs, tables, kdir, owner) && c in live && v < KERNEL_END_PAGE
    requires dirs[c][v / ENTRIES].present && (v >= USER_PAGES ==> !e.user)
    requires var t := dirs[c][v / ENTRIES].address;
             t in tables && tables' == tables[t := tables[t][v % ENTRIES := e]]
    ensures Wf(live, dirs, tables', kdir, owner)
    ensures forall x, w: nat :: x in live && w < KERNEL_END_PAGE && !(w == v && (x == c || v >= USER_PAGES)) ==>
              Walk(dirs[x], tables', w) == Walk(dirs[x], tables, w)
    ensures Walk(dirs[c], tables', v) == AsEntry(e)
  {
    var t := dirs[c][v / ENTRIES].address;
    WalkOwner(live, dirs, tables, kdir, owner, c, v);
    forall x, w: nat | x in live && w < KERNEL_END_PAGE && !(w == v && (x == c || v >= USER_PAGES))
      ensures Walk(dirs[x], tables', w) == Walk(dirs[x], tables, w)
    {
      if TableOwner(x, w) == owner[t] {
        assert w / ENTRIES == v / ENTRIES && w % ENTRIES != v % ENTRIES;
      } else {
        WalkElsewhere(live, dirs, tables, kdir, owner, t, tables'[t], x, w);
      }
    }
  }

  /** ... so it rewrites exactly that page of the flat map. */
  lemma WriteMaps(live: set<nat>, dirs: map<nat, seq<Pde>>, tables: Tables, tables': Tables, c: nat, v: nat, e: Pte)
    requires c in live && v < KERNEL_END_PAGE && forall x :: x in live ==> x in dirs
    requires forall x, w: nat :: x in live && w < KERNEL_END_PAGE && !(w == v && (x == c || v >= USER_PAGES)) ==>
               Walk(dirs[x], tables', w) == Walk(dirs[x], tables, w)
    requires Walk(dirs[c], tables', v) == AsEntry(e)
    ensures var m := UserMapsOf(live, dirs, tables);
            UserMapsOf(live, dirs, tables') == if v < USER_PAGES then m[c := Put(m[c], v, AsEntry(e))] else m
    ensures var k := KernelMapOf(c, dirs, tables);
            KernelMapOf(c, dirs, tables') == if v < USER_PAGES then k else Put(k, v, AsEntry(e))
  {
    forall x | x in live
      ensures UserMapsOf(live, dirs, tables')[x] ==
              if x == c && v < USER_PAGES then Put(UserMapsOf(live, dirs, tables)[c], v, AsEntry(e))
              else UserMapsOf(live, dirs, tables)[x]
    {
      FlatPut(dirs[x], tables, tables', 0, USER_PAGES, v);
    }
    FlatPut(dirs[c], tables, tables', USER_PAGES, KERNEL_END_PAGE, v);
  }

  lemma FlatPut(d: seq<Pde>, tables: Tables, tables': Tables, lo: nat, hi: nat, v: nat)
    requires forall w: nat :: lo <= w < hi && w != v ==> Walk(d, tables', w) == Walk(d, tables, w)
    ensures lo <= v < hi ==> Flat(d, tables', lo, hi) == Put(Flat(d, tables, lo, hi), v, Walk(d, tables', v))
    ensures !(lo <= v < hi) || Walk(d, tables', v) == Walk(d, tables, v) ==>
              Flat(d, tables', lo, hi) == Flat(d, tables, lo, hi)
  {
  }

  /** The first `i` slots of the map `m0` of space `s` are shared with space `c`. */
  ghost predicate ClonedTo(maps0: map<nat, map<nat, Pte>>, m0: map<nat, Pte>, s: nat, c: nat, i: nat,
                           maps: map<nat, map<nat, Pte>>)
  {
    maps == maps0[s := Shared(m0, i)][c := Copied(m0, i)]
  }

  lemma ClonedStart(maps0: map<nat, map<nat, Pte>>, s: nat, c: nat)
    requires s in maps0 && c in maps0 && Shared(maps0[s], 0) == maps0[s] && Copied(maps0[s], 0) == maps0[c]
    ensures ClonedTo(maps0, maps0[s], s, c, 0, maps0)
  {
    hide Shared, Copied;
  }

  lemma ClonedStep(maps0: map<nat, map<nat, Pte>>, m0: map<nat, Pte>, s: nat, c: nat, i: nat, maps: map<nat, map<nat,
                   Pte>>)
    requires ClonedTo(maps0, m0, s, c, i, maps) && s != c
    ensures s in maps && c in maps && maps[s] == Shared(m0, i) && maps[c] == Copied(m0, i)
    ensures ClonedTo(maps0, m0, s, c, i + 1, maps[s := Shared(m0, i + 1)][c := Copied(m0, i + 1)])
  {
    hide Shared, Copied;
  }

  lemma ClonedEnd(maps0: map<nat, map<nat, Pte>>, m0: map<nat, Pte>, s: nat, c: nat, i: nat, maps: map<nat, map<nat,
                  Pte>>)
    requires ClonedTo(maps0, m0, s, c, i, maps)
    ensures maps == maps0[s := Shared(m0, i)][c := Copied(m0, i)]
  {
    hide Shared, Copied;
  }

  /** The first `i` user entries of directory `c` have been cleared, and their tables given back. */
  ghost predicate ClearedTo(dirs0: map<nat, seq<Pde>>, owner0: map<nat, Owner>, c: nat, i: nat, dropped: set<nat>,
                            dirs: map<nat, seq<Pde>>, owner: map<nat, Owner>)
  {
    && c in dirs && |dirs[c]| == ENTRIES && dirs == dirs0[c := dirs[c]] && owner == owner0 - dropped
    && (forall k :: 0 <= k < i && k < ENTRIES ==> !dirs[c][k].present)
    && (forall f :: f in dropped ==> f in owner0 && owner0[f].UserTable? && owner0[f].dir == c)
  }

  lemma ClearStart(dirs: map<nat, seq<Pde>>, owner: map<nat, Owner>, c: nat)
    requires c in dirs && |dirs[c]| == ENTRIES
    ensures ClearedTo(dirs, owner, c, 0, {}, dirs, owner)
  {
  }

  lemma ClearStep(dirs0: map<nat, seq<Pde>>, owner0: map<nat, Owner>, c: nat, i: nat, dropped: set<nat>,
                  dirs: map<nat, seq<Pde>>, owner: map<nat, Owner>)
    requires ClearedTo(dirs0, owner0, c, i, dropped, dirs, owner) && i < USER_DIR
    ensures c in dirs && |dirs[c]| == ENTRIES
    ensures !dirs[c][i].present ==> ClearedTo(dirs0, owner0, c, i + 1, dropped, dirs, owner)
    ensures var t := dirs[c][i].address;
            t in owner && owner[t] == UserTable(c, i) ==>
              ClearedTo(dirs0, owner0, c, i + 1, dropped + {t}, dirs[c := dirs[c][i := NULL_PDE]], owner - {t})
  {
  }

  lemma ClearEnd(dirs0: map<nat, seq<Pde>>, owner0: map<nat, Owner>, c: nat, dropped: set<nat>,
                 dirs: map<nat, seq<Pde>>, owner: map<nat, Owner>)
    requires ClearedTo(dirs0, owner0, c, USER_DIR, dropped, dirs, owner)
    ensures c in dirs && |dirs[c]| == ENTRIES && dirs == dirs0[c := dirs[c]] && owner == owner0 - dropped
    ensures forall k :: 0 <= k < USER_DIR ==> !dirs[c][k].present
    ensures forall f :: f in dropped ==> f in owner0 && owner0[f].UserTable? && owner0[f].dir == c
  {
  }

  lemma TableThere(live: set<nat>, dirs: map<nat, seq<Pde>>, tables: Tables, kdir: seq<Pde>, owner: map<nat, Owner>,
                   c: nat, i: nat)
    requires Wf(live, dirs, tables, kdir, owner) && c in live && i < USER_DIR && dirs[c][i].present
    ensures dirs[c][i].address in owner && owner[dirs[c][i].address] == UserTable(c, i)
  {
  }

  lemma WfDir(live: set<nat>, dirs: map<nat, seq<Pde>>, tables: Tables, kdir: seq<Pde>, owner: map<nat, Owner>, c: nat)
    requires Wf(live, dirs, tables, kdir, owner) && c in live
    ensures c in dirs && |dirs[c]| == ENTRIES
  {
  }

  /** Giving a table back together with its directory entry. */
  lemma DropUserTable(live: set<nat>, dirs: map<nat, seq<Pde>>, tables: Tables, kdir: seq<Pde>, owner: map<nat, Owner>,
                      c: nat, i: nat, dirs': map<nat, seq<Pde>>)
    requires Wf(live, dirs, tables, kdir, owner) && c in live && i < USER_DIR && dirs[c][i].present
    requires dirs' == dirs[c := dirs[c][i := NULL_PDE]]
    ensures Wf(live, dirs', tables, kdir, owner - {dirs[c][i].address})
  {
    var owner' := owner - {dirs[c][i].address};
    assert dirs'[c][USER_DIR..KERNEL_DIR_END] == dirs[c][USER_DIR..KERNEL_DIR_END];
    forall x, j | x in live && 0 <= j < USER_DIR && dirs'[x][j].present
      ensures dirs'[x][j].user && OwnedTable(dirs'[x][j], UserTable(x, j), tables, owner')
    {
      assert dirs'[x][j] == dirs[x][j];
    }
    forall f | f in owner' && owner'[f].UserTable?
      ensures var x, j := owner'[f].dir, owner'[f].index;
              x in live && j < USER_DIR && dirs'[x][j].present && dirs'[x][j].address == f
    {
    }
  }

  /** A directory without user entries can leave, and one can join. */
  lemma DropDirectory(live: set<nat>, dirs: map<nat, seq<Pde>>, tables: Tables, kdir: seq<Pde>, owner: map<nat, Owner>,
                      c: nat)
    requires Wf(live, dirs, tables, kdir, owner) && c in live
    requires forall i :: 0 <= i < USER_DIR ==> !dirs[c][i].present
    requires c in owner && !owner[c].UserTable? && !owner[c].KernelTable?
    ensures Wf(live - {c}, dirs, tables, kdir, owner - {c})
    ensures !owner[c].Directory? ==> Wf(live - {c}, dirs, tables, kdir, owner)
  {
  }

  lemma SameDirs(live: set<nat>, dirs: map<nat, seq<Pde>>, dirs': map<nat, seq<Pde>>, tables: Tables, kdir: seq<Pde>,
                 owner: map<nat, Owner>)
    requires Wf(live, dirs, tables, kdir, owner) && forall c :: c in live ==> c in dirs' && dirs'[c] == dirs[c]
    ensures Wf(live, dirs', tables, kdir, owner)
    ensures UserMapsOf(live, dirs', tables) == UserMapsOf(live, dirs, tables)
    ensures forall c :: c in live ==> KernelMapOf(c, dirs', tables) == KernelMapOf(c, dirs, tables)
  {
  }

  lemma LeaveMaps(live: set<nat>, dirs: map<nat, seq<Pde>>, dirs': map<nat, seq<Pde>>, tables: Tables, c: nat)
    requires c in dirs' && dirs' == dirs[c := dirs'[c]]
    ensures UserMapsOf(live - {c}, dirs', tables) == UserMapsOf(live, dirs, tables) - {c}
    ensures forall x :: x != c ==> KernelMapOf(x, dirs', tables) == KernelMapOf(x, dirs, tables)
  {
  }

  lemma EmptyHalf(d: seq<Pde>, tables: Tables)
    requires |d| == ENTRIES && forall i :: 0 <= i < USER_DIR ==> !d[i].present
    ensures Flat(d, tables, 0, USER_PAGES) == map[]
  {
    forall v: nat | v < USER_PAGES
      ensures Walk(d, tables, v).None?
    {
      assert !d[v / ENTRIES].present;
    }
  }

  lemma JoinDirectory(live: set<nat>, dirs: map<nat, seq<Pde>>, tables: Tables, kdir: seq<Pde>, owner: map<nat, Owner>,
                      c: nat, d: seq<Pde>)
    requires Wf(live, dirs, tables, kdir, owner) && c !in live && c in owner && owner[c] == KernelUse
    requires |d| == ENTRIES && d[USER_DIR..KERNEL_DIR_END] == kdir && forall i :: 0 <= i < USER_DIR ==> !d[i].present
    ensures Wf(live + {c}, dirs[c := d], tables, kdir, owner[c := Directory])
    ensures UserMapsOf(live + {c}, dirs[c := d], tables) == UserMapsOf(live, dirs, tables)[c := map[]]
    ensures forall x :: x in live ==> KernelMapOf(x, dirs[c := d], tables) == KernelMapOf(x, dirs, tables)
  {
    var dirs': map<nat, seq<Pde>>, owner': map<nat, Owner> := dirs[c := d], owner[c := Directory];
    forall x, j | x in live + {c} && 0 <= j < USER_DIR && dirs'[x][j].present
      ensures dirs'[x][j].user && OwnedTable(dirs'[x][j], UserTable(x, j), tables, owner')
    {
      assert x != c && dirs'[x][j] == dirs[x][j];
    }
    EmptyHalf(d, tables);
  }

  /** The flat map with the pages of the first `n` directory slots made read-only. */
  ghost function Shared(m: map<nat, Pte>, n: nat): map<nat, Pte> {
    map v | v in m :: if v / ENTRIES < n then m[v].(rw := false) else m[v]
  }

  /** The read-only copy of the pages of the first `n` directory slots. */
  ghost function Copied(m: map<nat, Pte>, n: nat): map<nat, Pte> {
    map v | v in m && v / ENTRIES < n :: m[v].(rw := false)
  }

  function ReadOnly(e: Pte): Pte {
    if e.present then e.(rw := false) else e
  }

  lemma CloneStart(live: set<nat>, dirs: map<nat, seq<Pde>>, tables: Tables, p: nat, c: nat)
    requires p in live && c in live && p in dirs && c in dirs
    requires |dirs[c]| == ENTRIES && forall i :: 0 <= i < USER_DIR ==> !dirs[c][i].present
    ensures var m := UserMapsOf(live, dirs, tables); m == m[p := Shared(m[p], 0)][c := Copied(m[p], 0)]
  {
    EmptyHalf(dirs[c], tables);
    var m := UserMapsOf(live, dirs, tables);
    assert Shared(m[p], 0) == m[p] && Copied(m[p], 0) == map[];
  }

  /** A slot without page table has no page to share. */
  lemma SlotEmpty(live: set<nat>, dirs: map<nat, seq<Pde>>, tables: Tables, p: nat, i: nat, m0: map<nat, Pte>)
    requires p in live && p in dirs && i < |dirs[p]| && !dirs[p][i].present
    requires UserMapsOf(live, dirs, tables)[p] == Shared(m0, i)
    ensures Shared(m0, i + 1) == Shared(m0, i) && Copied(m0, i + 1) == Copied(m0, i)
  {
    forall v | v in m0
      ensures v / ENTRIES != i
    {
      assert v in UserMapsOf(live, dirs, tables)[p];
      assert Walk(dirs[p], tables, v).Some?;
    }
  }

  ghost function ReadOnlyOption(e: Option<Pte>): Option<Pte> {
    if e.Some? then Some(e.value.(rw := false)) else None
  }

  /** How the walk of page `v` in space `x` changes when `c` copies slot `i` of `p`. */
  ghost predicate CowWalk(dirs: map<nat, seq<Pde>>, tables: Tables, tables': Tables, p: nat, c: nat, i: nat, x: nat,
                          v: nat)
    requires x in dirs && p in dirs
  {
    Walk(dirs[x], tables', v) ==
      if (x == p || x == c) && v / ENTRIES == i then ReadOnlyOption(Walk(dirs[p], tables, v))
                                                     else Walk(dirs[x], tables, v)
  }

  /** Copying one table read-only and making the original read-only, seen from the flat maps. */
  lemma CowTable(live: set<nat>, dirs: map<nat, seq<Pde>>, tables: Tables, kdir: seq<Pde>, owner: map<nat, Owner>,
                 p: nat, c: nat, i: nat, tables': Tables)
    requires Wf(live, dirs, tables, kdir, owner) && p in live && c in live && p != c && i < USER_DIR
    requires dirs[p][i].present && dirs[c][i].present
    requires var s, t := dirs[p][i].address, dirs[c][i].address;
      && s in tables && t in tables && tables[t] == ZeroTable()
      && s in tables' && t in tables' && tables' == tables[t := tables'[t]][s := tables'[s]]
      && |tables'[s]| == |tables'[t]| == ENTRIES
      && (forall j :: 0 <= j < ENTRIES ==> tables'[s][j] == ReadOnly(tables[s][j]))
      && (forall j :: 0 <= j < ENTRIES ==>
            tables'[t][j] == if tables[s][j].present then ReadOnly(tables[s][j]) else NULL_PTE)
    ensures Wf(live, dirs, tables', kdir, owner)
    ensures forall x, v: nat :: x in live && v < KERNEL_END_PAGE ==> CowWalk(dirs, tables, tables', p, c, i, x, v)
  {
    var s, t := dirs[p][i].address, dirs[c][i].address;
    assert OwnedTable(dirs[p][i], UserTable(p, i), tables, owner);
    assert OwnedTable(dirs[c][i], UserTable(c, i), tables, owner);
    forall x, v: nat | x in live && v < KERNEL_END_PAGE
      ensures CowWalk(dirs, tables, tables', p, c, i, x, v)
    {
      if dirs[x][v / ENTRIES].present {
        WalkOwner(live, dirs, tables, kdir, owner, x, v);
      }
    }
  }

  /** The tables of two address spaces are different frames. */
  lemma TwoTables(live: set<nat>, dirs: map<nat, seq<Pde>>, tables: Tables, kdir: seq<Pde>, owner: map<nat, Owner>,
                  p: nat, c: nat, i: nat)
    requires Wf(live, dirs, tables, kdir, owner) && p in live && c in live && p != c && i < USER_DIR
    requires dirs[p][i].present && dirs[c][i].present
    ensures dirs[p][i].address in tables && |tables[dirs[p][i].address]| == ENTRIES
    ensures dirs[p][i].address != dirs[c][i].address
  {
    assert OwnedTable(dirs[p][i], UserTable(p, i), tables, owner);
    assert OwnedTable(dirs[c][i], UserTable(c, i), tables, owner);
  }

  /** ... and so one more directory slot of the flat maps is shared and copied. */
  lemma CowMaps(live: set<nat>, dirs: map<nat, seq<Pde>>, tables: Tables, tables': Tables, p: nat, c: nat, i: nat,
                m0: map<nat, Pte>)
    requires p in live && c in live && p != c && i < USER_DIR && forall x :: x in live ==> x in dirs
    requires forall x, v: nat :: x in live && v < KERNEL_END_PAGE ==> CowWalk(dirs, tables, tables', p, c, i, x, v)
    requires UserMapsOf(live, dirs, tables)[p] == Shared(m0, i) && UserMapsOf(live, dirs, tables)[c] == Copied(m0, i)
    ensures UserMapsOf(live, dirs, tables') ==
            UserMapsOf(live, dirs, tables)[p := Shared(m0, i + 1)][c := Copied(m0, i + 1)]
    ensures KernelMapOf(p, dirs, tables') == KernelMapOf(p, dirs, tables)
  {
    var p0, p1 := Flat(dirs[p], tables, 0, USER_PAGES), Flat(dirs[p], tables', 0, USER_PAGES);
    var c0, c1 := Flat(dirs[c], tables, 0, USER_PAGES), Flat(dirs[c], tables', 0, USER_PAGES);
    forall v: nat | v < USER_PAGES
      ensures At(p1, v) == if v / ENTRIES == i then ReadOnlyOption(At(p0, v)) else At(p0, v)
      ensures At(c1, v) == if v / ENTRIES == i then ReadOnlyOption(At(p0, v)) else At(c0, v)
    {
      assert CowWalk(dirs, tables, tables', p, c, i, p, v) && CowWalk(dirs, tables, tables', p, c, i, c, v);
      FlatAt(dirs[p], tables, v);
      FlatAt(dirs[p], tables', v);
      FlatAt(dirs[c], tables, v);
      FlatAt(dirs[c], tables', v);
    }
    SharedStep(p0, p1, i, m0);
    CopiedStep(p0, c0, c1, i, m0);
    forall x, v: nat | x in live && v < KERNEL_END_PAGE && (v >= USER_PAGES || (x != p && x != c))
      ensures Walk(dirs[x], tables', v) == Walk(dirs[x], tables, v)
    {
      assert CowWalk(dirs, tables, tables', p, c, i, x, v);
    }
    CowElsewhere(live, dirs, tables, tables', p, c);
  }

  lemma CowElsewhere(live: set<nat>, dirs: map<nat, seq<Pde>>, tables: Tables, tables': Tables, p: nat, c: nat)
    requires p in live && c in live && forall x :: x in live ==> x in dirs
    requires forall x: nat, v: nat :: x in live && v < KERNEL_END_PAGE && (v >= USER_PAGES || (x != p && x != c)) ==>
               Walk(dirs[x], tables', v) == Walk(dirs[x], tables, v)
    ensures UserMapsOf(live, dirs, tables') ==
            UserMapsOf(live, dirs,
                       tables)[p := Flat(dirs[p], tables', 0, USER_PAGES)][c := Flat(dirs[c], tables', 0, USER_PAGES)]
    ensures KernelMapOf(p, dirs, tables') == KernelMapOf(p, dirs, tables)
  {
    forall x | x in live && x != p && x != c
      ensures Flat(dirs[x], tables', 0, USER_PAGES) == Flat(dirs[x], tables, 0, USER_PAGES)
    {
      FlatPut(dirs[x], tables, tables', 0, USER_PAGES, USER_PAGES);
    }
    FlatPut(dirs[p], tables, tables', USER_PAGES, KERNEL_END_PAGE, KERNEL_END_PAGE);
    hide Flat, Walk;
  }

  ghost function At(m: map<nat, Pte>, v: nat): Option<Pte> {
    if v in m then Some(m[v]) else None
  }

  lemma FlatAt(d: seq<Pde>, tables: Tables, v: nat)
    requires v < USER_PAGES
    ensures At(Flat(d, tables, 0, USER_PAGES), v) == Walk(d, tables, v)
  {
  }

  lemma SharedStep(m: map<nat, Pte>, m': map<nat, Pte>, i: nat, m0: map<nat, Pte>)
    requires m == Shared(m0, i) && forall v :: v in m || v in m' ==> v < USER_PAGES
    requires forall v: nat :: v < USER_PAGES ==>
               At(m', v) == if v / ENTRIES == i then ReadOnlyOption(At(m, v)) else At(m, v)
    ensures m' == Shared(m0, i + 1)
  {
    forall v: nat
      ensures At(m', v) == At(Shared(m0, i + 1), v)
    {
      assert v in m0 <==> v in m;
    }
    SameAt(m', Shared(m0, i + 1));
  }

  lemma CopiedStep(m: map<nat, Pte>, n: map<nat, Pte>, n': map<nat, Pte>, i: nat, m0: map<nat, Pte>)
    requires m == Shared(m0, i) && n == Copied(m0, i) && forall v :: v in m || v in n' ==> v < USER_PAGES
    requires forall v: nat :: v < USER_PAGES ==>
               At(n', v) == if v / ENTRIES == i then ReadOnlyOption(At(m, v)) else At(n, v)
    ensures n' == Copied(m0, i + 1)
  {
    forall v: nat
      ensures At(n', v) == At(Copied(m0, i + 1), v)
    {
      assert v in m0 <==> v in m;
    }
    SameAt(n', Copied(m0, i + 1));
  }

  lemma SameAt(m: map<nat, Pte>, n: map<nat, Pte>)
    requires forall v: nat :: At(m, v) == At(n, v)
    ensures m == n
  {
    forall v: nat
      ensures v in m <==> v in n
      ensures v in m ==> m[v] == n[v]
    {
      assert At(m, v) == At(n, v);
    }
  }

  class Paging {
    const pm: PageFrames
    /** Contents of the frames used as page directories and as page tables. */
    var dirs: map<nat, seq<Pde>>
    var tables: Tables
    /** cr3, and the cr3 of every address space in vmm_list. */
    var active: nat
    var registered: seq<nat>
    /** The kernel part that all live directories share. */
    ghost var kdir: seq<Pde>
    /** The kernel pages that got a frame of their own, and the frame. */
    ghost var heap: map<nat, nat>

    /** The state that boot leaves: one directory, without user entries, and no address space yet. */
    constructor (pm: PageFrames, boot: nat, bootDir: seq<Pde>, bootTables: Tables, ghost bootHeap: map<nat, nat>)
      requires pm.Valid() && boot in pm.owner && pm.owner[boot].KernelUse?
      requires |bootDir| == ENTRIES && forall i :: 0 <= i < USER_DIR ==> !bootDir[i].present
      requires Wf({boot}, map[boot := bootDir], bootTables, bootDir[USER_DIR..KERNEL_DIR_END], pm.owner)
      requires HeapOwned(bootHeap, pm.owner)
      ensures Valid() && this.pm == pm && active == boot && registered == [] && heap == bootHeap
      ensures dirs == map[boot := bootDir] && tables == bootTables
    {
      this.pm := pm;
      dirs, tables := map[boot := bootDir], bootTables;
      active, registered := boot, [];
      kdir, heap := bootDir[USER_DIR..KERNEL_DIR_END], bootHeap;
      new;
      assert Live() == {boot};
    }

    ghost function Live(): set<nat>
      reads this
    {
      Elems(registered) + {active}
    }

    ghost predicate Valid()
      reads this, pm, pm.early, pm.descriptors
    {
      && pm.Valid()
      && NoDup(registered)
      && (forall c :: c in Live() ==> c in dirs && |dirs[c]| == ENTRIES)
      && Wf(Live(), dirs, tables, kdir, pm.owner)
      && (forall c :: c in registered ==> c in pm.owner && pm.owner[c].Directory?)
      && active in pm.owner && (active in registered || pm.owner[active].KernelUse?)
      && (active !in registered ==> forall i :: 0 <= i < USER_DIR ==> !dirs[active][i].present)
      && HeapOwned(heap, pm.owner)
    }

    /** The flat user map of every live address space. */
    ghost function UserMaps(): map<nat, map<nat, Pte>>
      reads this
    {
      UserMapsOf(Live(), dirs, tables)
    }

    ghost function KernelMap(): map<nat, Pte>
      reads this
    {
      KernelMapOf(active, dirs, tables)
    }

    lemma BootMaps()
      requires Valid() && registered == []
      ensures NothingMapped(UserMaps())
    {
      hide Wf;
      EmptyHalf(dirs[active], tables);
    }

    lemma ErasedRegistered(c: nat)
      requires Valid()
      ensures forall x :: x in Erase(registered, c) <==> x in registered && x != c
    {
      EraseNoDup(registered, c);
    }

    /**
     * The active directory and all registered ones have the same kernel entries, so a kernel page leads to the same
     * frame.
     */
    lemma KernelEverywhere(c: nat, d: nat, v: nat)
      requires Valid() && c in Live() && d in Live() && USER_PAGES <= v < KERNEL_END_PAGE
      ensures c in dirs && d in dirs && |dirs[c]| == |dirs[d]| == ENTRIES
      ensures forall i :: USER_DIR <= i < KERNEL_DIR_END ==> dirs[c][i] == dirs[d][i]
      ensures Walk(dirs[c], tables, v) == Walk(dirs[d], tables, v)
    {
      hide PageFrames.Valid, NoDup, Walk;
      forall i | USER_DIR <= i < KERNEL_DIR_END
        ensures dirs[c][i] == kdir[i - USER_DIR] == dirs[d][i]
      {
        assert dirs[c][USER_DIR..KERNEL_DIR_END][i - USER_DIR] == dirs[d][USER_DIR..KERNEL_DIR_END][i - USER_DIR];
      }
      WalkBySlot(dirs[c], dirs[d], tables, v);
    }

    lemma Domain()
      requires Valid()
      ensures 0 !in RegionFrames(pm.owner)
      ensures UserMaps().Keys == Live() && active in UserMaps()
      ensures forall c :: c in registered ==> c in UserMaps()
      ensures forall c, v :: c in UserMaps() && v in UserMaps()[c] ==> v < USER_PAGES
      ensures forall v :: v in UserMaps()[active] ==> HasTable(v)
    {
      hide Wf;
    }

    /** The directory entries of the active address space that have a page table. */
    ghost function Slots(): set<nat>
      reads this
    {
      if active in dirs then SlotsOf(dirs[active]) else {}
    }

    lemma SlotTable(v: nat)
      ensures HasTable(v) <==> v / ENTRIES in Slots()
    {
    }

    /** Page `v` of the active address space has a page table. */
    ghost predicate HasTable(v: nat)
      reads this
    {
      active in dirs && v / ENTRIES < |dirs[active]| && dirs[active][v / ENTRIES].present
    }

    /** `vmm_sync_kernel_space` with `paging_sync_kernel_space`: copies one directory entry to the other spaces. */
    method SyncKernelSpace(pdi: nat)
      requires pdi < ENTRIES && NoDup(registered)
      requires forall c :: c in Live() ==> c in dirs && |dirs[c]| == ENTRIES
      modifies this`dirs
      ensures forall c :: c in Live() ==> c in dirs && dirs[c] == old(dirs)[c][pdi := old(dirs)[active][pdi]]
    {
      for n := 0 to |registered|
        invariant forall c :: c in Live() ==> c in dirs && |dirs[c]| == ENTRIES
        invariant dirs[active] == old(dirs)[active]
        invariant forall c :: c in registered[..n] ==> dirs[c] == old(dirs)[c][pdi := old(dirs)[active][pdi]]
        invariant forall c :: c in Live() && c !in registered[..n] ==> dirs[c] == old(dirs)[c]
      {
        var c := registered[n];
        assert registered[..n + 1] == registered[..n] + [c];
        if c != active {
          dirs := dirs[c := dirs[c][pdi := dirs[active][pdi]]];
        } else {
          assert dirs[c] == dirs[c][pdi := dirs[c][pdi]];
        }
      }
      assert registered[..|registered|] == registered;
      assert dirs[active] == dirs[active][pdi := dirs[active][pdi]];
    }

    /** Enters the fresh frame `t` as a zeroed page table in slot `i` of directory `c`. */
    method NewUserTable(c: nat, i: nat, t: nat, ghost owner: map<nat, Owner>)
      requires i < USER_DIR && t !in owner && c in Live()
      requires NoDup(registered) && Wf(Live(), dirs, tables, kdir, owner) && !dirs[c][i].present
      modifies this`dirs, this`tables
      ensures Wf(Live(), dirs, tables, kdir, owner[t := UserTable(c, i)])
      ensures UserMaps() == old(UserMaps()) && KernelMap() == old(KernelMap())
      ensures dirs == old(dirs)[c := old(dirs)[c][i := Pde(true, true, true, t)]]
      ensures t in tables && tables[t] == ZeroTable()
    {
      ghost var dirs0, tables0 := dirs, tables;
      dirs := dirs[c := dirs[c][i := Pde(true, true, true, t)]];
      tables := tables[t := ZeroTable()];
      NewUserTableWf(Live(), dirs0, tables0, kdir, owner, c, i, t, dirs, tables);
      NewUserTableFlat(Live(), dirs0, tables0, kdir, owner, c, i, t, dirs, tables);
    }

    /** A page table for kernel page `v`, entered in every address space. */
    method NewKernelTable(v: nat, t: nat, user: bool, ghost owner: map<nat, Owner>)
      requires USER_PAGES <= v < KERNEL_END_PAGE && t !in owner
      requires NoDup(registered) && Wf(Live(), dirs, tables, kdir, owner) && !dirs[active][v / ENTRIES].present
      modifies this`dirs, this`tables, this`kdir
      ensures Wf(Live(), dirs, tables, kdir, owner[t := KernelTable(v / ENTRIES)])
      ensures UserMaps() == old(UserMaps()) && KernelMap() == old(KernelMap())
      ensures forall c :: c in Live() ==> c in dirs && dirs[c] == old(dirs)[c][v / ENTRIES := Pde(true, true, user, t)]
    {
      ghost var dirs0, tables0, kdir0 := dirs, tables, kdir;
      var pdi := v / ENTRIES;
      dirs := dirs[active := dirs[active][pdi := Pde(true, true, user, t)]];
      tables := tables[t := ZeroTable()];
      SyncKernelSpace(pdi);
      ghost var e := Pde(true, true, user, t);
      assert dirs0[active][USER_DIR..KERNEL_DIR_END][pdi - USER_DIR] == dirs0[active][pdi];
      kdir := kdir[pdi - USER_DIR := e];
      NewKernelTableWf(Live(), dirs0, tables0, kdir0, owner, pdi - USER_DIR, e, dirs, tables);
      NewKernelTableFlat(Live(), dirs0, tables0, kdir0, owner, pdi - USER_DIR, e, dirs, tables);
    }

    /** First half of `paging_map`: a page table for `v`, shared with every address space if `v` is a kernel page. */
    method EnsureTable(v: nat, user: bool) returns (ok: bool)
      requires Valid() && v < KERNEL_END_PAGE
      requires v < USER_PAGES ==> user && active in registered
      modifies this`dirs, this`tables, this`kdir, pm`free, pm`used, pm`owner
      ensures Valid()
      ensures UserMaps() == old(UserMaps()) && KernelMap() == old(KernelMap())
      ensures ok <==> old(HasTable(v)) || old(pm.free) != []
      ensures ok ==> HasTable(v)
      ensures !ok || old(HasTable(v)) ==> pm.free == old(pm.free) && pm.owner == old(pm.owner)
      ensures ok && !old(HasTable(v)) ==> pm.free == old(pm.free)[1..] && old(pm.free)[0] !in old(pm.owner) &&
                                          pm.owner == old(pm.owner)[old(pm.free)[0] := TableOwner(active, v)]
      ensures forall w :: old(HasTable(w)) ==> HasTable(w)
      ensures Slots() == old(Slots()) + if ok then {v / ENTRIES} else {}
    {
      hide Wf, SlotsOf, HeapOwned;
      SlotTable(v);
      if dirs[active][v / ENTRIES].present {
        assert Slots() == Slots() + {v / ENTRIES};
        return true;
      }
      var t := pm.Alloc(TableOwner(active, v));
      if t == 0 {
        return false;
      }
      assert pm.owner == old(pm.owner)[t := TableOwner(active, v)];
      HeapKept(heap, old(pm.owner), t, TableOwner(active, v));
      SlotPut(dirs[active], v / ENTRIES, Pde(true, true, user, t));
      if v < USER_PAGES {
        NewUserTable(active, v / ENTRIES, t, old(pm.owner));
      } else {
        NewKernelTable(v, t, user, old(pm.owner));
      }
      return true;
    }

    /** Writes one present-table entry of the active address space. */
    method WriteEntry(v: nat, e: Pte)
      requires Valid() && v < KERNEL_END_PAGE && HasTable(v)
      requires v >= USER_PAGES ==> !e.user
      modifies this`tables
      ensures Valid()
      ensures v < USER_PAGES ==> UserMaps() == old(UserMaps())[active := Put(old(UserMaps())[active], v, AsEntry(e))] &&
                                 KernelMap() == old(KernelMap())
      ensures v >= USER_PAGES ==> UserMaps() == old(UserMaps()) && KernelMap() == Put(old(KernelMap()), v, AsEntry(e))
    {
      WalkOwner(Live(), dirs, tables, kdir, pm.owner, active, v);
      ghost var tables0 := tables;
      var t := dirs[active][v / ENTRIES].address;
      tables := tables[t := tables[t][v % ENTRIES := e]];
      WriteWalks(Live(), dirs, tables0, kdir, pm.owner, active, v, e, tables);
      WriteMaps(Live(), dirs, tables0, tables, active, v, e);
    }

    /** Reads one entry of the active address space; a page without table has none. */
    method ReadEntry(v: nat) returns (e: Pte)
      requires Valid() && v < KERNEL_END_PAGE
      ensures v < USER_PAGES ==> (e.present <==> v in UserMaps()[active]) && (e.present ==> e == UserMaps()[active][v])
      ensures v >= USER_PAGES ==>
                (e.present <==> v in KernelMap()) && (e.present ==> e.address == KernelMap()[v].address)
      ensures e.present ==> HasTable(v)
    {
      if !dirs[active][v / ENTRIES].present {
        return NULL_PTE;
      }
      WalkOwner(Live(), dirs, tables, kdir, pm.owner, active, v);
      e := tables[dirs[active][v / ENTRIES].address][v % ENTRIES];
    }

    /** `paging_map` */
    method MapPage(frame: nat, v: nat, prot: Prot) returns (err: Errno)
      requires Valid() && v < KERNEL_END_PAGE
      requires prot.user <==> v < USER_PAGES
      requires v < USER_PAGES ==> active in registered
      modifies this`dirs, this`tables, this`kdir, pm`free, pm`used, pm`owner
      ensures Valid()
      ensures err == ENOMEM <==> !old(HasTable(v)) && old(pm.free) == []
      ensures err == EFAULT <==> v in if v < USER_PAGES then old(UserMaps())[active] else old(KernelMap())
      ensures err in {Ok, ENOMEM, EFAULT}
      ensures err != Ok || v >= USER_PAGES ==> UserMaps() == old(UserMaps())
      ensures err != Ok || v < USER_PAGES ==> KernelMap() == old(KernelMap())
      ensures err == Ok && v < USER_PAGES ==>
                UserMaps() == old(UserMaps())[active := Put(old(UserMaps())[active], v,
                                                            Some(Pte(true, prot.write, true, frame)))]
      ensures err == Ok && v >= USER_PAGES ==> KernelMap() == old(KernelMap())[v := Pte(true, prot.write, false, frame)]
      ensures err == Ok ==> HasTable(v)
      ensures forall w :: old(HasTable(w)) ==> HasTable(w)
      ensures Slots() == old(Slots()) + if err == ENOMEM then {} else {v / ENTRIES}
      ensures err == ENOMEM || old(HasTable(v)) ==> pm.free == old(pm.free) && pm.owner == old(pm.owner)
      ensures err != ENOMEM && !old(HasTable(v)) ==>
                pm.free == old(pm.free)[1..] && old(pm.free)[0] !in old(pm.owner) &&
                pm.owner == old(pm.owner)[old(pm.free)[0] := TableOwner(active, v)]
    {
      hide Wf, SlotsOf;
      var ok := EnsureTable(v, prot.user);
      if !ok {
        return ENOMEM;
      }
      var e := ReadEntry(v);
      if e.present {
        return EFAULT;
      }
      WriteEntry(v, Pte(true, prot.write, prot.user, frame));
      return Ok;
    }

    /** `paging_unmap` */
    method UnmapPage(v: nat) returns (err: Errno)
      requires Valid() && v < KERNEL_END_PAGE
      modifies this`tables
      ensures Valid()
      ensures err == Ok <==> v in if v < USER_PAGES then old(UserMaps())[active] else old(KernelMap())
      ensures err in {Ok, EFAULT}
      ensures v < USER_PAGES ==> UserMaps() == old(UserMaps())[active := Put(old(UserMaps())[active], v, None)] &&
                                 KernelMap() == old(KernelMap())
      ensures v >= USER_PAGES ==> UserMaps() == old(UserMaps()) && KernelMap() == Put(old(KernelMap()), v, None)
      ensures forall w :: old(HasTable(w)) ==> HasTable(w)
      ensures Slots() == old(Slots())
    {
      hide Wf, SlotsOf;
      var e := ReadEntry(v);
      if !e.present {
        if v < USER_PAGES {
          assert Put(UserMaps()[active], v, None) == UserMaps()[active];
        } else {
          assert Put(KernelMap(), v, None) == KernelMap();
        }
        return EFAULT;
      }
      WriteEntry(v, NULL_PTE);
      return Ok;
    }

    /** `paging_update_prot` on a user page */
    method UpdateProt(v: nat, prot: Prot) returns (err: Errno)
      requires Valid() && v < USER_PAGES
      modifies this`tables
      ensures Valid()
      ensures err == Ok <==> v in old(UserMaps())[active]
      ensures err in {Ok, EINVAL}
      ensures KernelMap() == old(KernelMap())
      ensures err != Ok ==> UserMaps() == old(UserMaps())
      ensures err == Ok ==>
                UserMaps() == old(UserMaps())[active := Put(old(UserMaps())[active], v, Some(
                  Pte(true, prot.write, prot.user, old(UserMaps())[active][v].address)))]
      ensures forall w :: old(HasTable(w)) ==> HasTable(w)
      ensures Slots() == old(Slots())
    {
      hide Wf, SlotsOf;
      var e := ReadEntry(v);
      if !e.present {
        return EINVAL;
      }
      WriteEntry(v, e.(rw := prot.write, user := prot.user));
      return Ok;
    }

    /** A frame for page `k` of region `r`. */
    method AllocRegionFrame(r: nat, k: nat) returns (f: nat)
      requires Valid()
      modifies pm`free, pm`used, pm`owner
      ensures Valid()
      ensures f == 0 <==> old(pm.free) == []
      ensures f == 0 ==> pm.free == old(pm.free) && pm.owner == old(pm.owner)
      ensures f != 0 ==> pm.free == old(pm.free)[1..] && f !in old(pm.owner)
      ensures f != 0 ==> RegionFrames(pm.owner) == old(RegionFrames(pm.owner))[f := RegionFrame(r, k)]
    {
      hide Wf, RegionFrames, PagingFrames, PageFrames.Valid, NoDup, HeapOwned;
      ghost var owner0 := pm.owner;
      f := pm.Alloc(RegionFrame(r, k));
      if f == 0 {
        return;
      }
      HeapKept(heap, owner0, f, RegionFrame(r, k));
      RegionOwner(owner0, f, RegionFrame(r, k));
      WfReowned(Live(), dirs, tables, kdir, owner0, pm.owner);
    }

    /** Gives a region's frame back. */
    method FreeRegionFrame(f: nat)
      requires Valid() && f in RegionFrames(pm.owner)
      modifies pm`free, pm`used, pm`owner
      ensures Valid() && pm.free == [f] + old(pm.free)
      ensures RegionFrames(pm.owner) == old(RegionFrames(pm.owner)) - {f}
    {
      hide Wf, NoDup, Erase, PagingFrames, HeapOwned;
      ghost var owner0 := pm.owner;
      var _ := pm.Free(f);
      HeapKept(heap, owner0, f, KernelUse);
      RegionFrameGone(owner0, f);
      WfReowned(Live(), dirs, tables, kdir, owner0, pm.owner);
    }

    /** The page through which the kernel writes other frames is free. */
    ghost predicate ReservedFree()
      reads this
    {
      HasTable(RESERVED_PAGE) && RESERVED_PAGE !in KernelMap()
    }

    /** The frame that user page `v` of the active space translates to. */
    method Translate(v: nat) returns (f: nat)
      requires Valid() && v < USER_PAGES && v in UserMaps()[active]
      ensures f == UserMaps()[active][v].address
    {
      hide Wf;
      var e := ReadEntry(v);
      f := e.address;
    }

    /** Maps the reserved page onto `frame`. */
    method OpenWindow(frame: nat) returns (err: Errno)
      requires Valid()
      modifies this`dirs, this`tables, this`kdir, pm`free, pm`used, pm`owner
      ensures Valid() && UserMaps() == old(UserMaps()) && (forall w :: old(HasTable(w)) ==> HasTable(w))
      ensures err == Ok ==> KernelMap() == old(KernelMap())[RESERVED_PAGE := Pte(true, true, false, frame)]
      ensures err == Ok ==> RESERVED_PAGE !in old(KernelMap()) && HasTable(RESERVED_PAGE)
      ensures err != Ok ==> KernelMap() == old(KernelMap())
      ensures old(ReservedFree()) ==> err == Ok && pm.free == old(pm.free) && Slots() == old(Slots())
      ensures RegionFrames(pm.owner) == old(RegionFrames(pm.owner))
      ensures forall f :: f in old(pm.owner) ==> f in pm.owner && pm.owner[f] == old(pm.owner)[f]
    {
      hide Wf, SlotsOf;
      SlotTable(RESERVED_PAGE);
      err := MapPage(frame, RESERVED_PAGE, Prot(true, false));
    }

    method CloseWindow()
      requires Valid() && RESERVED_PAGE in KernelMap() && HasTable(RESERVED_PAGE)
      modifies this`tables
      ensures ReservedFree()
      ensures Valid() && UserMaps() == old(UserMaps()) && (forall w :: old(HasTable(w)) ==> HasTable(w))
      ensures KernelMap() == old(KernelMap()) - {RESERVED_PAGE} && Slots() == old(Slots())
    {
      hide Wf, SlotsOf;
      var _ := UnmapPage(RESERVED_PAGE);
    }

    /** `paging_switch_cr3`, to a registered address space; the one left behind may be gone already. */
    method Switch(c: nat)
      requires pm.Valid() && NoDup(registered) && Wf(Elems(registered), dirs, tables, kdir, pm.owner)
      requires forall x :: x in registered ==> x in pm.owner && pm.owner[x].Directory?
      requires c in registered && HeapOwned(heap, pm.owner)
      modifies this`active
      ensures Valid() && active == c
      ensures UserMaps() == UserMapsOf(Elems(registered), dirs, tables)
      ensures KernelMap() == KernelFlat(kdir, tables)
      ensures kdir[0].present && RESERVED_PAGE !in KernelFlat(kdir, tables) ==> ReservedFree()
    {
      active := c;
      assert Live() == Elems(registered);
      KernelAgrees(Live(), dirs, tables, kdir, pm.owner, c);
      hide Flat, Walk, UserMapsOf;
    }

    /** What `Switch` needs to know of a valid state. */
    lemma SwitchReady()
      requires Valid()
      ensures Wf(Elems(registered), dirs, tables, kdir, pm.owner)
      ensures UserMapsOf(Elems(registered), dirs, tables) == UserMaps() - ({active} - Elems(registered))
      ensures KernelMap() == KernelFlat(kdir, tables)
      ensures |kdir| == KERNEL_DIR && (ReservedFree() ==> kdir[0].present && RESERVED_PAGE !in KernelFlat(kdir, tables))
    {
      KernelAgrees(Live(), dirs, tables, kdir, pm.owner, active);
      if active !in registered {
        DropDirectory(Live(), dirs, tables, kdir, pm.owner, active);
        assert Live() - {active} == Elems(registered);
      } else {
        assert Live() == Elems(registered);
      }
      hide Flat, Walk;
    }

    /** `init_kernel_space`: the kernel part of the active directory, copied into a new one. */
    method InitKernelSpace(pd: nat)
      requires Valid() && pd !in Live()
      requires pd in dirs && |dirs[pd]| == ENTRIES && forall i :: 0 <= i < USER_DIR ==> !dirs[pd][i].present
      modifies this`dirs
      ensures Valid() && UserMaps() == old(UserMaps()) && KernelMap() == old(KernelMap())
      ensures old(ReservedFree()) ==> ReservedFree()
      ensures pd in dirs && |dirs[pd]| == ENTRIES && dirs[pd][USER_DIR..KERNEL_DIR_END] == kdir
      ensures forall i :: 0 <= i < USER_DIR ==> !dirs[pd][i].present
      ensures dirs[active] == old(dirs)[active] && Slots() == old(Slots())
    {
      for i := USER_DIR to KERNEL_DIR_END
        invariant pd in dirs && |dirs[pd]| == ENTRIES
        invariant forall x :: x in Live() ==> x in dirs && dirs[x] == old(dirs)[x]
        invariant forall k :: 0 <= k < USER_DIR ==> !dirs[pd][k].present
        invariant forall k :: USER_DIR <= k < i ==> dirs[pd][k] == dirs[active][k]
      {
        dirs := dirs[pd := dirs[pd][i := dirs[active][i]]];
      }
      assert dirs[pd][USER_DIR..KERNEL_DIR_END] == dirs[active][USER_DIR..KERNEL_DIR_END];
      SameDirs(Live(), old(dirs), dirs, tables, kdir, pm.owner);
    }

    /** Writing a directory that nobody uses yet. */
    method PutDir(pd: nat, d: seq<Pde>)
      requires Valid() && pd !in Live()
      modifies this`dirs
      ensures Valid() && UserMaps() == old(UserMaps()) && KernelMap() == old(KernelMap()) && dirs == old(dirs)[pd := d]
      ensures forall w :: old(HasTable(w)) ==> HasTable(w)
      ensures Slots() == old(Slots())
    {
      hide Wf, NoDup, PageFrames.Valid, UserMapsOf, KernelMapOf;
      SameDirs(Live(), dirs, dirs[pd := d], tables, kdir, pm.owner);
      dirs := dirs[pd := d];
    }

    /** `init_pd_recursive_entry`: a zeroed directory with its recursive entry, written through the reserved page. */
    method ZeroDir(pd: nat) returns (err: Errno)
      requires Valid() && pd in pm.owner && pd !in Live()
      modifies this`dirs, this`tables, this`kdir, pm`free, pm`used, pm`owner
      ensures Valid() && UserMaps() == old(UserMaps()) && KernelMap() == old(KernelMap())
      ensures old(ReservedFree()) ==>
                err == Ok && ReservedFree() && pm.free == old(pm.free) && Slots() == old(Slots())
      ensures RegionFrames(pm.owner) == old(RegionFrames(pm.owner)) && pd in pm.owner &&
              pm.owner[pd] == old(pm.owner)[pd]
      ensures err == Ok ==> pd in dirs && dirs[pd] == BlankDir(pd)
    {
      hide Valid, UserMaps, KernelMap, BlankDir, RegionFrames, SlotsOf;
      err := OpenWindow(pd);
      if err != Ok {
        return;
      }
      PutDir(pd, BlankDir(pd));
      PutBack(old(KernelMap()), RESERVED_PAGE, Pte(true, true, false, pd));
      CloseWindow();
    }

    /** `create_pd_and_init_kernel`, first step. */
    method AllocDir() returns (pd: nat)
      requires Valid()
      modifies pm`free, pm`used, pm`owner
      ensures Valid()
      ensures pd == 0 <==> old(pm.free) == []
      ensures |pm.free| == |old(pm.free)| - if pd == 0 then 0 else 1
      ensures RegionFrames(pm.owner) == old(RegionFrames(pm.owner))
      ensures pd != 0 ==> pd !in old(pm.owner) && pd !in Live() && pd in pm.owner && pm.owner[pd] == KernelUse
      ensures pd != 0 ==> pd in old(pm.free)
    {
      hide Wf, HeapOwned;
      pd := pm.Alloc(KernelUse);
      HeapKept(heap, old(pm.owner), pd, KernelUse);
      OwnerViews(old(pm.owner), pd, KernelUse);
      WfReowned(Live(), dirs, tables, kdir, old(pm.owner), pm.owner);
    }

    method FreeDir(pd: nat)
      requires Valid() && pd in pm.owner && pd !in Live() && pm.owner[pd] == KernelUse
      modifies pm`free, pm`used, pm`owner
      ensures Valid() && RegionFrames(pm.owner) == old(RegionFrames(pm.owner))
    {
      hide Wf, HeapOwned;
      var _ := pm.Free(pd);
      HeapKept(heap, old(pm.owner), pd, KernelUse);
      OwnerViews(old(pm.owner), pd, KernelUse);
      WfReowned(Live(), dirs, tables, kdir, old(pm.owner), pm.owner);
    }

    /** Frame `f`, in use by the kernel, is the frame of kernel page `v` from now on. */
    method AdoptPage(v: nat, f: nat)
      requires Valid() && v !in heap && f != 0 && f in pm.owner && f !in Live() && pm.owner[f] == KernelUse
      modifies this`heap, pm`owner
      ensures Valid() && heap == old(heap)[v := f] && f !in old(heap).Values
      ensures pm.owner == old(pm.owner)[f := KernelPage(v)]
      ensures UserMaps() == old(UserMaps()) && KernelMap() == old(KernelMap()) && Slots() == old(Slots())
      ensures old(ReservedFree()) ==> ReservedFree()
      ensures RegionFrames(pm.owner) == old(RegionFrames(pm.owner))
    {
      hide Wf, HeapOwned, RegionFrames, PagingFrames;
      HeapGrows(heap, pm.owner, v, f);
      OwnerViews(pm.owner, f, KernelPage(v));
      WfReowned(Live(), dirs, tables, kdir, pm.owner, pm.owner[f := KernelPage(v)]);
      pm.owner := pm.owner[f := KernelPage(v)];
      heap := heap[v := f];
    }

    /** Registers a directory that has the kernel's entries and no user entry. */
    method RegisterDir(pd: nat)
      requires Valid() && pd in pm.owner && pd !in Live() && pm.owner[pd] == KernelUse
      requires pd != 0 && pd in dirs && |dirs[pd]| == ENTRIES && dirs[pd][USER_DIR..KERNEL_DIR_END] == kdir
      requires forall i :: 0 <= i < USER_DIR ==> !dirs[pd][i].present
      modifies this`registered, pm`owner
      ensures Valid() && registered == old(registered) + [pd]
      ensures UserMaps() == old(UserMaps())[pd := map[]] && KernelMap() == old(KernelMap())
      ensures old(ReservedFree()) ==> ReservedFree()
      ensures RegionFrames(pm.owner) == old(RegionFrames(pm.owner))
    {
      hide Wf, HeapOwned;
      JoinDirectory(Live(), dirs, tables, kdir, pm.owner, pd, dirs[pd]);
      assert dirs == dirs[pd := dirs[pd]];
      AppendNoDup(registered, pd);
      HeapKept(heap, pm.owner, pd, Directory);
      OwnerViews(pm.owner, pd, Directory);
      pm.owner := pm.owner[pd := Directory];
      registered := registered + [pd];
      assert Live() == old(Live()) + {pd};
    }

    /** `create_pd_and_init_kernel` and the registration in `vmm_create`. */
    method CreateDir() returns (err: Errno, pd: nat)
      requires Valid()
      modifies this`dirs, this`tables, this`kdir, this`registered, pm`free, pm`used, pm`owner
      ensures Valid() && KernelMap() == old(KernelMap())
      ensures old(ReservedFree()) ==> ReservedFree() && (err == Ok <==> old(pm.free) != [])
      ensures old(ReservedFree()) ==> err in {Ok, ENOMEM} && Slots() == old(Slots())
      ensures old(ReservedFree()) ==> |pm.free| == |old(pm.free)| - if err == Ok then 1 else 0
      ensures RegionFrames(pm.owner) == old(RegionFrames(pm.owner))
      ensures err != Ok ==> UserMaps() == old(UserMaps()) && registered == old(registered)
      ensures err == Ok ==> pd !in old(pm.owner) && pd !in old(Live()) && registered == old(registered) + [pd]
      ensures err == Ok ==> UserMaps() == old(UserMaps())[pd := map[]]
      ensures err == Ok ==> pd in dirs && |dirs[pd]| == ENTRIES && forall i :: 0 <= i < USER_DIR ==>
                !dirs[pd][i].present
    {
      hide Wf, SlotsOf;
      pd := AllocDir();
      if pd == 0 {
        return ENOMEM, 0;
      }
      err := ZeroDir(pd);
      if err != Ok {
        FreeDir(pd);
        return err, 0;
      }
      InitKernelSpace(pd);
      RegisterDir(pd);
    }

    lemma FrameThere(f: nat)
      requires pm.Valid() && f in pm.owner && !pm.owner[f].KernelUse?
      ensures f % PAGE_SIZE == 0 && pm.base <= f < pm.top
    {
    }

    /** One turn of `paging_clear_userspace`. */
    method DropTable(c: nat, i: nat)
      requires pm.Valid() && Wf(Live(), dirs, tables, kdir, pm.owner) && c in Live() && i < USER_DIR &&
               dirs[c][i].present
      modifies this`dirs, pm`free, pm`used, pm`owner
      ensures pm.Valid() && Wf(Live(), dirs, tables, kdir, pm.owner)
      ensures dirs == old(dirs)[c := old(dirs)[c][i := NULL_PDE]]
      ensures |pm.free| == |old(pm.free)| + 1
      ensures var t := old(dirs)[c][i].address;
              t in old(pm.owner) && old(pm.owner)[t] == UserTable(c, i) && pm.owner == old(pm.owner) - {t}
    {
      hide Wf, PageFrames.Valid;
      WfDir(Live(), dirs, tables, kdir, pm.owner, c);
      var t := dirs[c][i].address;
      TableThere(Live(), dirs, tables, kdir, pm.owner, c, i);
      FrameThere(t);
      DropUserTable(Live(), dirs, tables, kdir, pm.owner, c, i, dirs[c := dirs[c][i := NULL_PDE]]);
      var _ := pm.Free(t);
      dirs := dirs[c := dirs[c][i := NULL_PDE]];
    }

    /** `paging_clear_userspace`: gives back every page table of the user half. */
    method ClearUserspace(c: nat) returns (ghost dropped: set<nat>)
      requires pm.Valid() && Wf(Live(), dirs, tables, kdir, pm.owner) && c in Live()
      modifies this`dirs, pm`free, pm`used, pm`owner
      ensures pm.Valid() && Wf(Live(), dirs, tables, kdir, pm.owner) && |pm.free| >= |old(pm.free)|
      ensures c in dirs && dirs == old(dirs)[c := dirs[c]]
      ensures forall i :: 0 <= i < USER_DIR ==> !dirs[c][i].present
      ensures pm.owner == old(pm.owner) - dropped
      ensures forall f :: f in dropped ==>
                f in old(pm.owner) && old(pm.owner)[f].UserTable? && old(pm.owner)[f].dir == c
    {
      hide Wf, PageFrames.Valid, ClearedTo, OwnedTable;
      WfDir(Live(), dirs, tables, kdir, pm.owner, c);
      dropped := {};
      ghost var dirs0, owner0 := dirs, pm.owner;
      ClearStart(dirs0, owner0, c);
      for i := 0 to USER_DIR
        invariant pm.Valid() && Wf(Live(), dirs, tables, kdir, pm.owner) && |pm.free| >= |old(pm.free)|
        invariant c in dirs && |dirs[c]| == ENTRIES && ClearedTo(dirs0, owner0, c, i, dropped, dirs, pm.owner)
      {
        ClearStep(dirs0, owner0, c, i, dropped, dirs, pm.owner);
        if dirs[c][i].present {
          dropped := dropped + {dirs[c][i].address};
          DropTable(c, i);
        }
      }
      ClearEnd(dirs0, owner0, c, dropped, dirs, pm.owner);
    }

    /** `x86_vmm_reset` for a directory that is no longer registered. */
    method FreeDirectory(c: nat)
      requires pm.Valid() && Wf(Live(), dirs, tables, kdir, pm.owner)
      requires c in Live() && c in pm.owner && pm.owner[c].Directory?
      modifies this`dirs, pm`free, pm`used, pm`owner
      ensures pm.Valid() && Wf(Live() - {c}, dirs, tables, kdir, pm.owner)
      ensures c in dirs && dirs == old(dirs)[c := dirs[c]]
      ensures |pm.free| > |old(pm.free)|
      ensures RegionFrames(pm.owner) == old(RegionFrames(pm.owner))
      ensures forall f :: f in old(pm.owner) && f != c && !old(pm.owner)[f].UserTable? ==>
                f in pm.owner && pm.owner[f] == old(pm.owner)[f]
      ensures old(HeapOwned(heap, pm.owner)) ==> HeapOwned(heap, pm.owner)
    {
      hide Wf, HeapOwned;
      ghost var dropped := ClearUserspace(c);
      DropDirectory(Live(), dirs, tables, kdir, pm.owner, c);
      var _ := pm.Free(c);
      assert pm.owner == old(pm.owner) - (dropped + {c});
      DropPagingOwners(old(pm.owner), dropped + {c});
      if HeapOwned(heap, old(pm.owner)) {
        HeapDropped(heap, old(pm.owner), dropped + {c});
      }
    }

    /** `list_erase` and `x86_vmm_reset` in `vmm_destroy`; the active directory may be the one that goes. */
    method DestroyDir(c: nat)
      requires Valid() && c in registered
      modifies this`dirs, this`registered, pm`free, pm`used, pm`owner
      ensures pm.Valid() && NoDup(registered) && registered == Erase(old(registered), c)
      ensures forall x :: x in registered <==> x in old(registered) && x != c
      ensures Wf(old(Live()) - {c}, dirs, tables, kdir, pm.owner)
      ensures UserMapsOf(old(Live()) - {c}, dirs, tables) == old(UserMaps()) - {c}
      ensures c != active ==> Valid() && KernelMap() == old(KernelMap()) && (old(ReservedFree()) ==> ReservedFree())
      ensures |pm.free| > |old(pm.free)|
      ensures forall x :: x in registered ==> x in pm.owner && pm.owner[x].Directory?
      ensures RegionFrames(pm.owner) == old(RegionFrames(pm.owner)) && HeapOwned(heap, pm.owner)
    {
      hide Wf, HeapOwned;
      FreeDirectory(c);
      EraseNoDup(registered, c);
      registered := Erase(registered, c);
      LeaveMaps(old(Live()), old(dirs), dirs, tables, c);
      assert c != active ==> Live() == old(Live()) - {c};
    }

    /** The inner loop of `paging_clone_current_cow`: one page table, shared read-only by both sides. */
    method CowEntries(s: nat, t: nat)
      requires s in tables && t in tables && s != t
      requires |tables[s]| == ENTRIES && tables[t] == ZeroTable()
      modifies this`tables
      ensures s in tables && t in tables && tables == old(tables)[t := tables[t]][s := tables[s]]
      ensures |tables[s]| == |tables[t]| == ENTRIES
      ensures forall j :: 0 <= j < ENTRIES ==> tables[s][j] == ReadOnly(old(tables)[s][j])
      ensures forall j :: 0 <= j < ENTRIES ==>
                tables[t][j] == if old(tables)[s][j].present then ReadOnly(old(tables)[s][j]) else NULL_PTE
    {
      for j := 0 to ENTRIES
        invariant s in tables && t in tables && tables == old(tables)[t := tables[t]][s := tables[s]]
        invariant |tables[s]| == |tables[t]| == ENTRIES
        invariant forall k :: 0 <= k < ENTRIES ==>
                    tables[s][k] == if k < j then ReadOnly(old(tables)[s][k]) else old(tables)[s][k]
        invariant forall k :: 0 <= k < ENTRIES ==>
                    tables[t][k] == if k < j && old(tables)[s][k].present then ReadOnly(old(tables)[s][k]) else NULL_PTE
      {
        if tables[s][j].present {
          var e := tables[s][j].(rw := false);
          tables := tables[t := tables[t][j := e]];
          tables := tables[s := tables[s][j := e]];
        }
      }
    }

    /** A zeroed page table for an absent user slot, or 0 when no frame is left. */
    method FreshTable(c: nat, i: nat) returns (t: nat)
      requires Valid() && c in registered && i < USER_DIR && !dirs[c][i].present
      modifies this`dirs, this`tables, pm`free, pm`used, pm`owner
      ensures Valid() && UserMaps() == old(UserMaps()) && KernelMap() == old(KernelMap())
      ensures t == 0 <==> old(pm.free) == []
      ensures t == 0 ==> dirs == old(dirs)
      ensures t != 0 ==> dirs == old(dirs)[c := old(dirs)[c][i := Pde(true, true, true, t)]]
      ensures t != 0 ==> t in tables && tables[t] == ZeroTable()
      ensures |pm.free| == |old(pm.free)| - if t == 0 then 0 else 1
      ensures RegionFrames(pm.owner) == old(RegionFrames(pm.owner))
    {
      hide Wf, UserMapsOf, KernelMapOf, RegionFrames, HeapOwned;
      ghost var owner0 := pm.owner;
      t := pm.Alloc(UserTable(c, i));
      if t == 0 {
        return;
      }
      assert pm.owner == owner0[t := UserTable(c, i)];
      HeapKept(heap, owner0, t, UserTable(c, i));
      OwnerViews(owner0, t, UserTable(c, i));
      NewUserTable(c, i, t, owner0);
    }

    /** One turn of `paging_clone_current_cow`, for a slot that has a page table. */
    method CloneTable(c: nat, i: nat, ghost m0: map<nat, Pte>) returns (ok: bool)
      requires Valid() && active in registered && c in registered && c != active && i < USER_DIR
      requires dirs[active][i].present && !dirs[c][i].present
      requires UserMaps()[active] == Shared(m0, i) && UserMaps()[c] == Copied(m0, i)
      modifies this`dirs, this`tables, pm`free, pm`used, pm`owner
      ensures Valid() && KernelMap() == old(KernelMap())
      ensures ok <==> old(pm.free) != []
      ensures !ok ==> UserMaps() == old(UserMaps()) && dirs == old(dirs)
      ensures ok ==> UserMaps() == old(UserMaps())[active := Shared(m0, i + 1)][c := Copied(m0, i + 1)]
      ensures ok ==> forall k :: i < k < USER_DIR ==> dirs[c][k] == old(dirs)[c][k]
      ensures dirs[active] == old(dirs)[active]
      ensures |pm.free| == |old(pm.free)| - if ok then 1 else 0
      ensures RegionFrames(pm.owner) == old(RegionFrames(pm.owner))
    {
      hide Wf, Shared, Copied, PageFrames.Valid, NoDup, RegionFrames, UserMapsOf, KernelMapOf;
      var t := FreshTable(c, i);
      if t == 0 {
        return false;
      }
      var s := dirs[active][i].address;
      TwoTables(Live(), dirs, tables, kdir, pm.owner, active, c, i);
      ghost var tables0 := tables;
      CowEntries(s, t);
      CowTable(Live(), dirs, tables0, kdir, pm.owner, active, c, i, tables);
      CowMaps(Live(), dirs, tables0, tables, active, c, i, m0);
      return true;
    }

    /** One turn of `paging_clone_current_cow`. */
    method CloneSlot(c: nat, i: nat, ghost m0: map<nat, Pte>) returns (ok: bool)
      requires Valid() && active in registered && c in registered && c != active && i < USER_DIR
      requires forall k :: i <= k < USER_DIR ==> !dirs[c][k].present
      requires UserMaps()[active] == Shared(m0, i) && UserMaps()[c] == Copied(m0, i)
      modifies this`dirs, this`tables, pm`free, pm`used, pm`owner
      ensures Valid() && KernelMap() == old(KernelMap())
      ensures old(ReservedFree()) ==> ReservedFree()
      ensures ok <==> !old(dirs)[active][i].present || old(pm.free) != []
      ensures !ok ==> UserMaps() == old(UserMaps())
      ensures ok ==> UserMaps() == old(UserMaps())[active := Shared(m0, i + 1)][c := Copied(m0, i + 1)]
      ensures ok ==> forall k :: i < k < USER_DIR ==> !dirs[c][k].present
      ensures |pm.free| == |old(pm.free)| - if ok && old(dirs)[active][i].present then 1 else 0
      ensures dirs[active] == old(dirs)[active]
      ensures RegionFrames(pm.owner) == old(RegionFrames(pm.owner))
    {
      hide Wf;
      if dirs[active][i].present {
        ok := CloneTable(c, i, m0);
      } else {
        SlotEmpty(Live(), dirs, tables, active, i, m0);
        ok := true;
      }
    }

    /**
     * `paging_clone_current_cow`: `done` slots of the directory were cloned. Each is shared
     * read-only by both sides; the others are still private to the active space.
     */
    method CloneCow(c: nat) returns (ok: bool, ghost done: nat)
      requires Valid() && active in registered && c in registered && c != active
      requires forall i :: 0 <= i < USER_DIR ==> !dirs[c][i].present
      modifies this`dirs, this`tables, pm`free, pm`used, pm`owner
      ensures Valid() && KernelMap() == old(KernelMap())
      ensures old(ReservedFree()) ==> ReservedFree()
      ensures var m0 := old(UserMaps())[active];
              UserMaps() == old(UserMaps())[active := Shared(m0, done)][c := Copied(m0, done)]
      ensures done <= USER_DIR && (ok <==> done == USER_DIR)
      ensures ok <==> UserSlots(old(Slots())) <= |old(pm.free)|
      ensures ok ==> |pm.free| == |old(pm.free)| - UserSlots(old(Slots())) && Slots() == old(Slots())
      ensures RegionFrames(pm.owner) == old(RegionFrames(pm.owner))
    {
      hide Wf, Shared, Copied, Flat, Walk, PageFrames.Valid, NoDup, KernelMapOf, RegionFrames, UserMapsOf, ClonedTo,
           SlotsOf;
      ghost var maps0 := UserMaps();
      Domain();
      PresentBelow(dirs[active], USER_DIR);
      ghost var m0 := maps0[active];
      CloneStart(Live(), dirs, tables, active, c);
      ClonedStart(maps0, active, c);
      for i := 0 to USER_DIR
        invariant Valid() && KernelMap() == old(KernelMap()) && (old(ReservedFree()) ==> ReservedFree())
        invariant ClonedTo(maps0, m0, active, c, i, UserMaps())
        invariant forall k :: i <= k < USER_DIR ==> !dirs[c][k].present
        invariant dirs[active] == old(dirs)[active] && |pm.free| == |old(pm.free)| - Present(dirs[active], i)
        invariant RegionFrames(pm.owner) == old(RegionFrames(pm.owner))
      {
        PresentGrows(dirs[active], i, USER_DIR);
        ClonedStep(maps0, m0, active, c, i, UserMaps());
        ok := CloneSlot(c, i, m0);
        if !ok {
          done := i;
          ClonedEnd(maps0, m0, active, c, done, UserMaps());
          return;
        }
      }
      ClonedEnd(maps0, m0, active, c, USER_DIR, UserMaps());
      return true, USER_DIR;
    }
  }
}
