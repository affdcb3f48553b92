/**
 * What copy-on-write is meant to look like, and the invariant it rests on.
 *
 * `EagerState` is the reference: every address space has private pages and fork copies
 * them all at once. The rest of the module states, on plain values, how regions,
 * mappings, reference counts and flat page tables fit together.
 */
module CowModel {
  import opened Lists
  import opened PhysicalMemory
  import opened X86Paging

  type Page = seq<int>

  /** One private page of the reference: may the process write it, and what it holds. */
  datatype Cell = Cell(writable: bool, page: Page)
  type EagerSpace = map<nat, Cell>
  type EagerState = map<nat, EagerSpace>

  function EagerRead(s: EagerSpace, addr: nat): Option<int> {
    var v := addr / PAGE_SIZE;
    if v in s && addr % PAGE_SIZE < |s[v].page| then Some(s[v].page[addr % PAGE_SIZE]) else None
  }

  predicate EagerWritable(s: EagerSpace, addr: nat) {
    var v := addr / PAGE_SIZE;
    v in s && s[v].writable && addr % PAGE_SIZE < |s[v].page|
  }

  function EagerWrite(s: EagerSpace, addr: nat, b: int): EagerSpace {
    var v := addr / PAGE_SIZE;
    if EagerWritable(s, addr) then s[v := Cell(true, s[v].page[addr % PAGE_SIZE := b])] else s
  }

  /** `pages` become the contents of fresh pages from `start` on. */
  function EagerMap(s: EagerSpace, start: nat, writable: bool, pages: seq<Page>): EagerSpace {
    s + map v: nat | start <= v < start + |pages| :: FreshCell(start, writable, pages, v)
  }

  function EagerStore(e: EagerState, s: nat, addr: nat, b: int): EagerState {
    if s in e then e[s := EagerWrite(e[s], addr, b)] else e
  }

  /** The reference after a mapping was created in space `s`. */
  function EagerCreate(e: EagerState, s: nat, start: nat, writable: bool, pages: seq<Page>): EagerState {
    if s in e then e[s := EagerMap(e[s], start, writable, pages)] else e
  }

  /** None of the pages start .. start+n-1 is in use. */
  ghost predicate RangeFree<T>(s: map<nat, T>, start: nat, n: nat) {
    forall v: nat :: start <= v < start + n ==> v !in s
  }

  function FreshCell(start: nat, writable: bool, pages: seq<Page>, v: nat): Cell
    requires start <= v < start + |pages|
  {
    Cell(writable, pages[v - start])
  }

  /** What a run of the memory system shows to the outside. */
  datatype Event =
    | Spawned(space: nat)
    | Forked(space: nat, child: nat)
    | Gone(space: nat)
    | NewMapping(space: nat, start: nat, writable: bool, pages: seq<Page>)
    | Loaded(space: nat, addr: nat, got: Option<int>)
    | StoreDone(space: nat, addr: nat, value: int)
    | StoreKilled(space: nat, addr: nat)
    | Silent

  /** One step of the reference; None if the reference could not have shown this event. */
  ghost function EagerStep(e: EagerState, event: Event): Option<EagerState> {
    match event
    case Spawned(s) => if s !in e then Some(e[s := map[]]) else None
    case Forked(s, c) => if s in e && c !in e then Some(e[c := e[s]]) else None
    case Gone(s) => if s in e then Some(e - {s}) else None
    case NewMapping(s, start, writable, pages) =>
      if s in e && RangeFree(e[s], start, |pages|) then Some(EagerCreate(e, s, start, writable, pages)) else None
    case Loaded(s, addr, got) => if s in e && EagerRead(e[s], addr) == got then Some(e) else None
    case StoreDone(s, addr, value) => if s in e && EagerWritable(e[s], addr) then
        Some(EagerStore(e, s, addr, value)) else None
    case StoreKilled(s, addr) => if s in e && !EagerWritable(e[s], addr) then Some(e) else None
    case Silent => Some(e)
  }

  /** The reference after a whole run. */
  ghost function Replay(e: EagerState, events: seq<Event>): Option<EagerState> {
    if events == [] then Some(e)
    else
      var before := Replay(e, events[..|events| - 1]);
      if before.None? then None else EagerStep(before.value, events[|events| - 1])
  }

  datatype Region = Region(prot: Prot, frames: seq<nat>, refcnt: int)
  datatype Mapping = Mapping(start: nat, pages: nat, growsDown: bool, region: nat)
  datatype Space = Space(maps: seq<nat>, refcnt: int)

  type Regions = map<nat, Region>
  type Mappings = map<nat, Mapping>
  type Homes = map<nat, nat>
  type Memory = map<nat, Page>
  type UserTables = map<nat, map<nat, Pte>>

  ghost predicate Covers(m: Mapping, v: nat) {
    m.start <= v < m.start + m.pages
  }

  /** Every page of mapping `m` is present and writable. */
  ghost predicate AllWritable(um: map<nat, Pte>, m: Mapping) {
    forall v: nat :: Covers(m, v) ==> v in um && um[v].rw
  }

  /** What a process observes of the page that frame `f` backs. */
  ghost function CellAt(f: nat, rf: map<nat, Owner>, regions: Regions, mem: Memory): Cell {
    Cell(f in rf && rf[f].RegionFrame? && rf[f].region in regions && regions[rf[f].region].prot.write,
         if f in mem then mem[f] else [])
  }

  ghost function View(um: map<nat, Pte>, rf: map<nat, Owner>, regions: Regions, mem: Memory): EagerSpace {
    map v | v in um :: CellAt(um[v].address, rf, regions, mem)
  }

  /** Every region owns its frames, and every frame owned by a region is one of its frames. */
  ghost predicate RegionsOk(regions: Regions, rf: map<nat, Owner>, mem: Memory, next: nat) {
    && (forall r :: r in regions ==> r < next && regions[r].refcnt >= 1 && regions[r].prot.user)
    && (forall r, k :: r in regions && 0 <= k < |regions[r].frames| ==>
          var f := regions[r].frames[k];
          f in rf && rf[f] == RegionFrame(r, k) && f in mem && |mem[f]| == PAGE_SIZE)
    && (forall f :: f in rf ==>
          && rf[f].RegionFrame? && rf[f].region in regions
          && rf[f].index < |regions[rf[f].region].frames| && regions[rf[f].region].frames[rf[f].index] == f)
  }

  ghost predicate MapsOk(mappings: Mappings, home: Homes, regions: Regions, next: nat) {
    && home.Keys == mappings.Keys
    && (forall m :: m in mappings ==>
          && m < next
          && mappings[m].region in regions
          && mappings[m].pages == |regions[mappings[m].region].frames| > 0
          && mappings[m].start + mappings[m].pages <= USER_PAGES)
  }

  /** Each address space lists exactly its mappings, once each. */
  ghost predicate ListsOk(spaces: map<nat, Space>, home: Homes) {
    && (forall m :: m in home ==> home[m] in spaces)
    && (forall s :: s in spaces ==> NoDup(spaces[s].maps))
    && (forall s, m :: s in spaces ==> (m in spaces[s].maps <==> m in home && home[m] == s))
  }

  ghost function Holders(mappings: Mappings, r: nat): set<nat> {
    set m | m in mappings && mappings[m].region == r
  }

  /** A reference count is the number of mappings, plus one if the running code holds a reference too. */
  ghost predicate RefsOk(regions: Regions, mappings: Mappings, loose: set<nat>) {
    forall r :: r in regions ==> regions[r].refcnt == |Holders(mappings, r)| + if r in loose then 1 else 0
  }

  /** The mappings of one address space never overlap, outside the spaces of `x`. */
  ghost predicate DisjointOk(x: set<nat>, mappings: Mappings, home: Homes) {
    forall a, b, v: nat :: a in mappings && b in mappings && a in home && b in home && home[a] == home[b] &&
                           home[a] !in x ==>
      (Covers(mappings[a], v) && Covers(mappings[b], v) ==> a == b)
  }

  /** The mappings of region `r` outside the address spaces of `x`. */
  ghost function HoldersOut(mappings: Mappings, home: Homes, r: nat, x: set<nat>): set<nat> {
    set m | m in mappings && mappings[m].region == r && m in home && home[m] !in x
  }

  /** Page `v` of mapping `m` translates to its frame, and is writable only for a sole holder. */
  ghost predicate PageOk(m: nat, v: nat, x: set<nat>, regions: Regions, mappings: Mappings, home: Homes, um: UserTables)
    requires m in mappings && m in home && mappings[m].region in regions
    requires mappings[m].pages == |regions[mappings[m].region].frames| && Covers(mappings[m], v)
  {
    var r := mappings[m].region;
    && home[m] in um && v in um[home[m]]
    && var e := um[home[m]][v];
    && e.address == regions[r].frames[v - mappings[m].start] && e.user && e.present
    && (e.rw ==> regions[r].prot.write && HoldersOut(mappings, home, r, x) == {m})
  }

  /** Page tables and mappings agree, for every address space outside `x`. */
  ghost predicate TablesOk(x: set<nat>, regions: Regions, mappings: Mappings, home: Homes, um: UserTables)
    requires home.Keys == mappings.Keys
    requires forall m :: m in mappings ==> mappings[m].region in regions
    requires forall m :: m in mappings ==> mappings[m].pages == |regions[mappings[m].region].frames|
  {
    && (forall m, v: nat :: m in mappings && home[m] !in x && Covers(mappings[m], v) ==>
          PageOk(m, v, x, regions, mappings, home, um))
    && (forall s, v :: s in um && s !in x && v in um[s] ==> Mapped(mappings, home, s, v))
  }

  ghost predicate Mapped(mappings: Mappings, home: Homes, s: nat, v: nat) {
    exists m :: m in mappings && m in home && home[m] == s && Covers(mappings[m], v)
  }

  /** Everything but the reference counts. */
  ghost predicate Shape(x: set<nat>, regions: Regions, mappings: Mappings, home: Homes, spaces: map<nat, Space>,
                        rf: map<nat, Owner>, um: UserTables, mem: Memory, nextRegion: nat, nextMapping: nat)
  {
    && RegionsOk(regions, rf, mem, nextRegion)
    && MapsOk(mappings, home, regions, nextMapping)
    && ListsOk(spaces, home)
    && DisjointOk(x, mappings, home)
    && TablesOk(x, regions, mappings, home, um)
  }

  /** A page is backed by the frame of exactly one mapping page. */
  lemma PageSource(x: set<nat>, regions: Regions, mappings: Mappings, home: Homes, rf: map<nat, Owner>, um: UserTables,
                   mem: Memory, nextRegion: nat, nextMapping: nat, s: nat, v: nat) returns (m: nat)
    requires RegionsOk(regions, rf, mem, nextRegion) && MapsOk(mappings, home, regions, nextMapping)
    requires TablesOk(x, regions, mappings, home, um)
    requires s in um && s !in x && v in um[s]
    ensures m in mappings && home[m] == s && Covers(mappings[m], v) && PageOk(m, v, x, regions, mappings, home, um)
    ensures var f := um[s][v].address;
            f in rf && rf[f] == RegionFrame(mappings[m].region, v - mappings[m].start) && f in mem &&
              |mem[f]| == PAGE_SIZE
  {
    assert Mapped(mappings, home, s, v);
    m :| m in mappings && m in home && home[m] == s && Covers(mappings[m], v);
    assert PageOk(m, v, x, regions, mappings, home, um);
  }

  /** A writable translation is the only one that leads to its frame: the heart of copy-on-write. */
  lemma WritableIsPrivate(regions: Regions, mappings: Mappings, home: Homes, rf: map<nat, Owner>, um: UserTables,
                          mem: Memory, nextRegion: nat, nextMapping: nat, s: nat, v: nat, s': nat, v': nat)
    requires RegionsOk(regions, rf, mem, nextRegion) && MapsOk(mappings, home, regions, nextMapping)
    requires TablesOk({}, regions, mappings, home, um)
    requires s in um && v in um[s] && um[s][v].rw && s' in um && v' in um[s']
    requires um[s][v].address == um[s'][v'].address
    ensures s == s' && v == v'
  {
    var m := PageSource({}, regions, mappings, home, rf, um, mem, nextRegion, nextMapping, s, v);
    var m' := PageSource({}, regions, mappings, home, rf, um, mem, nextRegion, nextMapping, s', v');
    assert m' in HoldersOut(mappings, home, mappings[m].region, {});
  }

  /** A store through a writable translation changes the reference state of that space only. */
  lemma StoreIsEager(regions: Regions, mappings: Mappings, home: Homes, rf: map<nat, Owner>, um: UserTables,
                     mem: Memory, nextRegion: nat, nextMapping: nat, s: nat, addr: nat, b: int, mem': Memory)
    requires RegionsOk(regions, rf, mem, nextRegion) && MapsOk(mappings, home, regions, nextMapping)
    requires TablesOk({}, regions, mappings, home, um)
    requires s in um && addr / PAGE_SIZE in um[s] && um[s][addr / PAGE_SIZE].rw
    requires var f := um[s][addr / PAGE_SIZE].address;
             f in mem && |mem[f]| == PAGE_SIZE && mem' == mem[f := mem[f][addr % PAGE_SIZE := b]]
    ensures RegionsOk(regions, rf, mem', nextRegion)
    ensures EagerWritable(View(um[s], rf, regions, mem), addr)
    ensures forall t :: t in um ==>
              View(um[t], rf, regions, mem') ==
              if t == s then EagerWrite(View(um[s], rf, regions, mem), addr, b) else View(um[t], rf, regions, mem)
  {
    var v := addr / PAGE_SIZE;
    var f := um[s][v].address;
    var m := PageSource({}, regions, mappings, home, rf, um, mem, nextRegion, nextMapping, s, v);
    forall t, w | t in um && w in um[t] && !(t == s && w == v)
      ensures um[t][w].address != f
    {
      if um[t][w].address == f {
        WritableIsPrivate(regions, mappings, home, rf, um, mem, nextRegion, nextMapping, s, v, t, w);
      }
    }
    var p := mem[f][addr % PAGE_SIZE := b];
    ViewStored(um[s], rf, regions, mem, v, p);
    forall t | t in um && t != s
      ensures View(um[t], rf, regions, mem') == View(um[t], rf, regions, mem)
    {
      ViewUntouched(um[t], rf, regions, mem, f, p);
    }
  }

  lemma ViewUntouched(um: map<nat, Pte>, rf: map<nat, Owner>, regions: Regions, mem: Memory, f: nat, p: Page)
    requires forall w :: w in um ==> um[w].address != f
    ensures View(um, rf, regions, mem[f := p]) == View(um, rf, regions, mem)
  {
  }

  lemma ViewStored(um: map<nat, Pte>, rf: map<nat, Owner>, regions: Regions, mem: Memory, v: nat, p: Page)
    requires v in um && um[v].address in mem && forall w :: w in um && w != v ==> um[w].address != um[v].address
    ensures var e := View(um, rf, regions, mem);
            e[v].page == mem[um[v].address] &&
              View(um, rf, regions, mem[um[v].address := p]) == e[v := Cell(e[v].writable, p)]
  {
  }

  ghost function RangeEntry(start: nat, frames: seq<nat>, write: bool, v: nat): Pte
    requires start <= v < start + |frames|
  {
    Pte(true, write, true, frames[v - start])
  }

  /** The entries that map `frames` from page `start` on. */
  ghost function RangeMap(start: nat, frames: seq<nat>, write: bool): map<nat, Pte> {
    map v: nat | start <= v < start + |frames| :: RangeEntry(start, frames, write, v)
  }

  /** A new holder of a region that nobody held. */
  lemma AddHolder(regions: Regions, mappings: Mappings, r: nat, id: nat, mp: Mapping)
    requires RefsOk(regions, mappings, {r}) && r in regions && id !in mappings && mp.region == r
    ensures RefsOk(regions, mappings[id := mp], {})
  {
    forall q | q in regions
      ensures |Holders(mappings[id := mp], q)| == |Holders(mappings, q)| + if q == r then 1 else 0
    {
      if q == r {
        assert Holders(mappings[id := mp], q) == Holders(mappings, q) + {id};
      } else {
        assert Holders(mappings[id := mp], q) == Holders(mappings, q);
      }
    }
  }

  /** Entering a new mapping whose pages were all absent: nothing overlaps, every other page is untouched. */
  lemma AddMappingTables(regions: Regions, mappings: Mappings, home: Homes, um: UserTables, id: nat, mp: Mapping,
                         s: nat,
                         nextMapping: nat, um': UserTables)
    requires MapsOk(mappings, home, regions, nextMapping) && DisjointOk({}, mappings, home)
    requires TablesOk({}, regions, mappings, home, um)
    requires id == nextMapping && s in um && mp.region in regions && mp.pages == |regions[mp.region].frames| > 0
    requires mp.start + mp.pages <= USER_PAGES
    requires forall m :: m in mappings ==> mappings[m].region != mp.region
    requires RangeFree(um[s], mp.start, mp.pages)
    requires um' == um[s := um[s] + RangeMap(mp.start, regions[mp.region].frames, regions[mp.region].prot.write)]
    ensures MapsOk(mappings[id := mp], home[id := s], regions, nextMapping + 1)
    ensures DisjointOk({}, mappings[id := mp], home[id := s])
    ensures TablesOk({}, regions, mappings[id := mp], home[id := s], um')
  {
    var mappings', home' := mappings[id := mp], home[id := s];
    forall m, v: nat | m in mappings && home[m] == s && Covers(mappings[m], v)
      ensures !Covers(mp, v)
    {
      assert PageOk(m, v, {}, regions, mappings, home, um);
    }
    assert DisjointOk({}, mappings', home');
    forall m, v: nat | m in mappings' && Covers(mappings'[m], v)
      ensures PageOk(m, v, {}, regions, mappings', home', um')
    {
      hide DisjointOk, Mapped;
      AddPage(regions, mappings, home, um, id, mp, s, um', m, v);
    }
    MappedGrows(mappings, home, id, mp, s);
    forall t, v | t in um' && v in um'[t]
      ensures Mapped(mappings', home', t, v)
    {
      hide DisjointOk, PageOk;
      if t in um && v in um[t] {
        assert Mapped(mappings, home, t, v);
      } else {
        assert Covers(mappings'[id], v) && home'[id] == t;
      }
    }
  }

  lemma AddPage(regions: Regions, mappings: Mappings, home: Homes, um: UserTables, id: nat, mp: Mapping, s: nat,
                um': UserTables, m: nat, v: nat)
    requires home.Keys == mappings.Keys && id !in mappings && s in um && mp.region in regions
    requires mp.pages == |regions[mp.region].frames| && RangeFree(um[s], mp.start, mp.pages)
    requires forall q :: q in mappings ==> mappings[q].region != mp.region
    requires um' == um[s := um[s] + RangeMap(mp.start, regions[mp.region].frames, regions[mp.region].prot.write)]
    requires m in mappings[id := mp] && Covers(mappings[id := mp][m], v)
    requires m != id ==> mappings[m].region in regions && mappings[m].pages == |regions[mappings[m].region].frames| &&
                         PageOk(m, v, {}, regions, mappings, home, um)
    ensures PageOk(m, v, {}, regions, mappings[id := mp], home[id := s], um')
  {
    var mappings', home' := mappings[id := mp], home[id := s];
    if m == id {
      assert um'[s][v] == RangeEntry(mp.start, regions[mp.region].frames, regions[mp.region].prot.write, v);
      assert HoldersOut(mappings', home', mp.region, {}) == {id};
    } else {
      assert HoldersOut(mappings', home', mappings[m].region, {}) == HoldersOut(mappings, home, mappings[m].region, {});
    }
  }

  /** The new pages show what their frames hold; all others are as before. */
  lemma AddMappingView(um: map<nat, Pte>, start: nat, r: nat, rf: map<nat, Owner>, regions: Regions, mem: Memory,
                       nextRegion: nat, pages: seq<Page>)
    requires RegionsOk(regions, rf, mem, nextRegion) && r in regions
    requires |pages| == |regions[r].frames|
    requires forall k :: 0 <= k < |pages| ==> regions[r].frames[k] in mem && pages[k] == mem[regions[r].frames[k]]
    ensures View(um + RangeMap(start, regions[r].frames, regions[r].prot.write), rf, regions, mem) ==
            EagerMap(View(um, rf, regions, mem), start, regions[r].prot.write, pages)
  {
    hide RegionsOk, CellAt;
    FreshCells(r, rf, regions, mem, nextRegion, pages);
    var frames, write := regions[r].frames, regions[r].prot.write;
    var um' := um + RangeMap(start, frames, write);
    var new' := View(um', rf, regions, mem);
    var ref' := EagerMap(View(um, rf, regions, mem), start, write, pages);
    forall v: nat
      ensures v in new' <==> v in ref'
      ensures v in new' ==> new'[v] == ref'[v]
    {
      if start <= v < start + |frames| {
        assert um'[v] == RangeEntry(start, frames, write, v);
        assert ref'[v] == FreshCell(start, write, pages, v);
      }
    }
  }

  lemma FreshCells(r: nat, rf: map<nat, Owner>, regions: Regions, mem: Memory, nextRegion: nat, pages: seq<Page>)
    requires RegionsOk(regions, rf, mem, nextRegion) && r in regions && |pages| == |regions[r].frames|
    requires forall k :: 0 <= k < |pages| ==> regions[r].frames[k] in mem && pages[k] == mem[regions[r].frames[k]]
    ensures forall k :: 0 <= k < |pages| ==>
              CellAt(regions[r].frames[k], rf, regions, mem) == Cell(regions[r].prot.write, pages[k])
  {
  }

  function Moved(mappings: Mappings, m: nat, r2: nat): Mappings
    requires m in mappings
  {
    mappings[m := mappings[m].(region := r2)]
  }

  lemma SplitHolders(mappings: Mappings, home: Homes, m: nat, r2: nat, q: nat)
    requires m in mappings && m in home && q in mappings && q != m && mappings[q].region != r2
    requires forall p :: p in mappings ==> mappings[p].region != r2
    ensures HoldersOut(Moved(mappings, m, r2), home, r2, {}) == {m}
    ensures mappings[q].region != mappings[m].region ==>
              HoldersOut(Moved(mappings, m, r2), home, mappings[q].region, {}) ==
              HoldersOut(mappings, home, mappings[q].region, {})
    ensures mappings[q].region == mappings[m].region ==> m in HoldersOut(mappings, home, mappings[q].region, {})
  {
  }

  lemma SplitMapped(mappings: Mappings, home: Homes, m: nat, r2: nat, t: nat, v: nat)
    requires m in mappings && Mapped(mappings, home, t, v)
    ensures Mapped(Moved(mappings, m, r2), home, t, v)
  {
    var q :| q in mappings && q in home && home[q] == t && Covers(mappings[q], v);
    assert Covers(Moved(mappings, m, r2)[q], v);
  }

  /** The state after a copy-on-write fault on mapping `m` of a shared region: it alone holds the copy `r2`. */
  lemma SplitTables(regions: Regions, mappings: Mappings, home: Homes, um: UserTables, m: nat, r2: nat,
                    nextMapping: nat,
                    um': UserTables)
    requires MapsOk(mappings, home, regions, nextMapping) && DisjointOk({}, mappings, home)
    requires TablesOk({}, regions, mappings, home, um)
    requires m in mappings && r2 in regions && |regions[r2].frames| == mappings[m].pages
    requires forall q :: q in mappings ==> mappings[q].region != r2
    requires home[m] in um
    requires um' == um[home[m] := um[home[m]] + RangeMap(mappings[m].start, regions[r2].frames, regions[r2].prot.write)]
    ensures MapsOk(Moved(mappings, m, r2), home, regions, nextMapping)
    ensures DisjointOk({}, Moved(mappings, m, r2), home)
    ensures TablesOk({}, regions, Moved(mappings, m, r2), home, um')
  {
    var mappings' := Moved(mappings, m, r2);
    assert forall q :: q in mappings ==> mappings'[q] == if q == m then mappings[m].(region := r2) else mappings[q];
    forall q, v: nat
      ensures q in mappings ==> (Covers(mappings'[q], v) <==> Covers(mappings[q], v))
    {
    }
    hide Moved;
    forall q, v: nat | q in mappings' && Covers(mappings'[q], v)
      ensures PageOk(q, v, {}, regions, mappings', home, um')
    {
      hide Mapped, RangeMap;
      SplitPage(regions, mappings, home, um, m, r2, um', q, v);
    }
    forall t, v | t in um' && v in um'[t]
      ensures Mapped(mappings', home, t, v)
    {
      hide PageOk, DisjointOk;
      if Covers(mappings[m], v) {
        CoveredPresent(regions, mappings, home, um, nextMapping, m, v);
      }
      assert t in um && v in um[t];
      SplitMapped(mappings, home, m, r2, t, v);
    }
  }

  lemma SplitPage(regions: Regions, mappings: Mappings, home: Homes, um: UserTables, m: nat, r2: nat,
                  um': UserTables, q: nat, v: nat)
    requires home.Keys == mappings.Keys && m in mappings && q in mappings && mappings[q].region in regions
    requires mappings[q].pages == |regions[mappings[q].region].frames| && Covers(mappings[q], v)
    requires DisjointOk({}, mappings, home) && PageOk(q, v, {}, regions, mappings, home, um)
    requires r2 in regions && |regions[r2].frames| == mappings[m].pages
    requires forall p :: p in mappings ==> mappings[p].region != r2
    requires home[m] in um
    requires um' == um[home[m] := um[home[m]] + RangeMap(mappings[m].start, regions[r2].frames, regions[r2].prot.write)]
    ensures PageOk(q, v, {}, regions, Moved(mappings, m, r2), home, um')
  {
    var s, frames := home[m], regions[r2].frames;
    if q == m {
      assert um'[s][v] == RangeEntry(mappings[m].start, frames, regions[r2].prot.write, v);
      assert HoldersOut(Moved(mappings, m, r2), home, r2, {}) == {m};
    } else {
      assert home[q] == s ==> !Covers(mappings[m], v);
      assert um'[home[q]][v] == um[home[q]][v];
      SplitHolders(mappings, home, m, r2, q);
    }
  }

  /** Reference counts after the split: `m` left region `r` for the copy. */
  lemma SplitRefs(regions: Regions, mappings: Mappings, m: nat, r2: nat)
    requires RefsOk(regions, mappings, {r2}) && m in mappings && mappings[m].region in regions
    requires r2 in regions && mappings[m].region != r2
    ensures var r := mappings[m].region;
            RefsOk(regions[r := regions[r].(refcnt := regions[r].refcnt - 1)], Moved(mappings, m, r2), {})
  {
    var r := mappings[m].region;
    var mappings' := Moved(mappings, m, r2);
    assert Holders(mappings', r) == Holders(mappings, r) - {m};
    assert Holders(mappings', r2) == Holders(mappings, r2) + {m};
    forall q | q in regions && q != r && q != r2
      ensures Holders(mappings', q) == Holders(mappings, q)
    {
    }
  }

  /** The pages of `m` show the copied contents, so nobody sees a difference. */
  lemma SplitView(um: map<nat, Pte>, start: nat, r: nat, r2: nat, rf: map<nat, Owner>, regions: Regions, mem: Memory,
                  nextRegion: nat)
    requires RegionsOk(regions, rf, mem, nextRegion) && r in regions && r2 in regions
    requires SameContents(mem, regions[r].frames, regions[r2].frames) && regions[r].prot == regions[r2].prot
    requires forall v: nat :: start <= v < start + |regions[r].frames| ==>
               v in um && um[v].address == regions[r].frames[v - start]
    ensures View(um + RangeMap(start, regions[r2].frames, regions[r2].prot.write), rf, regions, mem) ==
            View(um, rf, regions, mem)
  {
    var frames := regions[r2].frames;
    var um' := um + RangeMap(start, frames, regions[r2].prot.write);
    forall v: nat | start <= v < start + |frames|
      ensures v in um && CellAt(um'[v].address, rf, regions, mem) == CellAt(um[v].address, rf, regions, mem)
    {
      assert um'[v] == RangeEntry(start, frames, regions[r2].prot.write, v);
      assert regions[r].frames[v - start] in rf && frames[v - start] in rf;
    }
  }

  lemma SoleHolder(regions: Regions, mappings: Mappings, m: nat)
    requires RefsOk(regions, mappings, {}) && m in mappings && mappings[m].region in regions
    requires regions[mappings[m].region].refcnt == 1
    ensures Holders(mappings, mappings[m].region) == {m}
  {
    var h := Holders(mappings, mappings[m].region);
    assert m in h;
    forall q | q in h
      ensures q == m
    {
      if q != m {
        SubsetSize({q, m}, h);
      }
    }
  }

  /** A sole holder may get write access back. */
  lemma ResetTables(regions: Regions, mappings: Mappings, home: Homes, um: UserTables, m: nat, nextMapping: nat,
                    um': UserTables)
    requires MapsOk(mappings, home, regions, nextMapping) && DisjointOk({}, mappings, home)
    requires TablesOk({}, regions, mappings, home, um)
    requires RefsOk(regions, mappings, {}) && m in mappings && regions[mappings[m].region].refcnt == 1
    requires home[m] in um
    requires var r := mappings[m].region;
             um' == um[home[m] := um[home[m]] + RangeMap(mappings[m].start, regions[r].frames, regions[r].prot.write)]
    ensures TablesOk({}, regions, mappings, home, um')
  {
    var s, r := home[m], mappings[m].region;
    SoleHolder(regions, mappings, m);
    assert HoldersOut(mappings, home, r, {}) == {m} by {
      assert forall q :: q in HoldersOut(mappings, home, r, {}) ==> q in Holders(mappings, r);
      assert m in HoldersOut(mappings, home, r, {});
    }
    forall q, v: nat | q in mappings && Covers(mappings[q], v)
      ensures PageOk(q, v, {}, regions, mappings, home, um')
    {
      ResetPage(regions, mappings, home, um, m, um', q, v);
    }
    forall t, v | t in um' && v in um'[t]
      ensures Mapped(mappings, home, t, v)
    {
      if !(t in um && v in um[t]) {
        assert Covers(mappings[m], v);
      }
    }
  }

  lemma ResetPage(regions: Regions, mappings: Mappings, home: Homes, um: UserTables, m: nat, um': UserTables, q: nat,
                  v: nat)
    requires home.Keys == mappings.Keys && m in mappings && q in mappings && home[m] in um
    requires mappings[q].region in regions && mappings[m].region in regions
    requires mappings[q].pages == |regions[mappings[q].region].frames| && Covers(mappings[q], v)
    requires mappings[m].pages == |regions[mappings[m].region].frames|
    requires DisjointOk({}, mappings, home) && PageOk(q, v, {}, regions, mappings, home, um)
    requires HoldersOut(mappings, home, mappings[m].region, {}) == {m}
    requires var r := mappings[m].region;
             um' == um[home[m] := um[home[m]] + RangeMap(mappings[m].start, regions[r].frames, regions[r].prot.write)]
    ensures PageOk(q, v, {}, regions, mappings, home, um')
  {
    var s, r := home[m], mappings[m].region;
    if q == m {
      assert um'[s][v] == RangeEntry(mappings[m].start, regions[r].frames, regions[r].prot.write, v);
    } else {
      assert home[q] == s ==> !Covers(mappings[m], v);
      assert um'[home[q]][v] == um[home[q]][v];
    }
  }

  lemma {:induction false} SubsetSize<T>(a: set<T>, b: set<T>)
    requires a <= b
    ensures |a| <= |b|
  {
    if a != {} {
      var x :| x in a;
      SubsetSize(a - {x}, b - {x});
    }
  }

  /** `mapping_copy_create` during a clone: one more reference, held by a space that is not yet visible. */
  lemma OneMoreHolder(mappings: Mappings, src: nat, id: nat, q: nat)
    requires src in mappings && id !in mappings
    ensures Holders(mappings[id := mappings[src]], q) ==
            Holders(mappings, q) + if q == mappings[src].region then {id} else {}
    ensures |Holders(mappings[id := mappings[src]], q)| ==
            |Holders(mappings, q)| + if q == mappings[src].region then 1 else 0
  {
    assert id !in Holders(mappings, q);
  }

  lemma CopyRefs(regions: Regions, mappings: Mappings, src: nat, id: nat, regions': Regions)
    requires RefsOk(regions, mappings, {}) && id !in mappings && src in mappings && mappings[src].region in regions
    requires var r := mappings[src].region; regions' == regions[r := regions[r].(refcnt := regions[r].refcnt + 1)]
    ensures RefsOk(regions', mappings[id := mappings[src]], {})
  {
    var r, mappings' := mappings[src].region, mappings[id := mappings[src]];
    forall q | q in regions
      ensures |Holders(mappings', q)| == |Holders(mappings, q)| + if q == r then 1 else 0
    {
      OneMoreHolder(mappings, src, id, q);
    }
    hide Holders;
  }

  lemma CopyTables(x: set<nat>, regions: Regions, mappings: Mappings, home: Homes, um: UserTables, c: nat, src: nat,
                   id: nat, regions': Regions)
    requires MapsOk(mappings, home, regions, id) && DisjointOk(x, mappings, home) &&
             TablesOk(x, regions, mappings, home, um)
    requires c in x && src in mappings
    requires var r := mappings[src].region; regions' == regions[r := regions[r].(refcnt := regions[r].refcnt + 1)]
    ensures MapsOk(mappings[id := mappings[src]], home[id := c], regions', id + 1)
    ensures DisjointOk(x, mappings[id := mappings[src]], home[id := c])
    ensures TablesOk(x, regions', mappings[id := mappings[src]], home[id := c], um)
  {
    var mappings', home' := mappings[id := mappings[src]], home[id := c];
    forall m, v: nat | m in mappings' && home'[m] !in x && Covers(mappings'[m], v)
      ensures PageOk(m, v, x, regions', mappings', home', um)
    {
      assert PageOk(m, v, x, regions, mappings, home, um);
      assert HoldersOut(mappings', home', mappings[m].region, x) == HoldersOut(mappings, home, mappings[m].region, x);
    }
    MappedGrows(mappings, home, id, mappings[src], c);
  }

  lemma MappedGrows(mappings: Mappings, home: Homes, id: nat, mp: Mapping, c: nat)
    requires id !in mappings
    ensures forall t, v :: Mapped(mappings, home, t, v) ==> Mapped(mappings[id := mp], home[id := c], t, v)
  {
    forall t, v | Mapped(mappings, home, t, v)
      ensures Mapped(mappings[id := mp], home[id := c], t, v)
    {
      var m :| m in mappings && m in home && home[m] == t && Covers(mappings[m], v);
      assert Covers(mappings[id := mp][m], v);
    }
  }

  /** The mappings of `c` are the mappings of `p`, one for one. */
  ghost predicate Twin(mappings: Mappings, home: Homes, p: nat, c: nat, ps: seq<nat>, cs: seq<nat>) {
    && |ps| == |cs| && NoDup(ps) && NoDup(cs)
    && (forall m :: m in ps <==> m in home && home[m] == p)
    && (forall m :: m in cs <==> m in home && home[m] == c)
    && (forall k :: 0 <= k < |ps| ==> ps[k] in mappings && cs[k] in mappings && mappings[ps[k]] == mappings[cs[k]])
  }

  /** Both sides of a finished clone translate every page alike, and neither may write. */
  lemma CloneTables(regions: Regions, mappings: Mappings, home: Homes, um: UserTables, nextMapping: nat, p: nat, c: nat,
                    ps: seq<nat>, cs: seq<nat>, um': UserTables)
    requires MapsOk(mappings, home, regions, nextMapping)
    requires DisjointOk({c}, mappings, home) && TablesOk({c}, regions, mappings, home, um)
    requires p != c && p in um && c in um && Twin(mappings, home, p, c, ps, cs)
    requires um' == um[p := Shared(um[p], USER_DIR)][c := Copied(um[p], USER_DIR)]
    ensures DisjointOk({}, mappings, home) && TablesOk({}, regions, mappings, home, um')
  {
    CloneDisjoint(mappings, home, p, c, ps, cs);
    forall m, v: nat | m in mappings && Covers(mappings[m], v)
      ensures PageOk(m, v, {}, regions, mappings, home, um')
    {
      ClonePage(regions, mappings, home, um, nextMapping, p, c, ps, cs, um', m, v);
    }
    forall t, v | t in um' && v in um'[t]
      ensures Mapped(mappings, home, t, v)
    {
      hide PageOk, MapsOk;
      if t == c {
        assert v in um[p];
        CloneMapped(mappings, home, p, c, ps, cs, v);
      }
    }
  }

  lemma ClonePage(regions: Regions, mappings: Mappings, home: Homes, um: UserTables, nextMapping: nat, p: nat, c: nat,
                  ps: seq<nat>, cs: seq<nat>, um': UserTables, m: nat, v: nat)
    requires MapsOk(mappings, home, regions, nextMapping) && TablesOk({c}, regions, mappings, home, um)
    requires p != c && p in um && c in um && Twin(mappings, home, p, c, ps, cs)
    requires um' == um[p := Shared(um[p], USER_DIR)][c := Copied(um[p], USER_DIR)]
    requires m in mappings && Covers(mappings[m], v)
    ensures PageOk(m, v, {}, regions, mappings, home, um')
  {
    hide Mapped, DisjointOk;
    if home[m] == c {
      var k :| 0 <= k < |cs| && cs[k] == m;
      assert PageOk(ps[k], v, {c}, regions, mappings, home, um);
      assert um'[c][v] == um[p][v].(rw := false);
    } else {
      assert PageOk(m, v, {c}, regions, mappings, home, um);
      if home[m] != p {
        CloneHolders(mappings, home, p, c, ps, cs, m);
      }
    }
  }

  lemma CloneMapped(mappings: Mappings, home: Homes, p: nat, c: nat, ps: seq<nat>, cs: seq<nat>, v: nat)
    requires Twin(mappings, home, p, c, ps, cs) && Mapped(mappings, home, p, v)
    ensures Mapped(mappings, home, c, v)
  {
    var m :| m in mappings && m in home && home[m] == p && Covers(mappings[m], v);
    var k :| 0 <= k < |ps| && ps[k] == m;
    assert cs[k] in cs && Covers(mappings[cs[k]], v);
  }

  lemma CloneDisjoint(mappings: Mappings, home: Homes, p: nat, c: nat, ps: seq<nat>, cs: seq<nat>)
    requires p != c && DisjointOk({c}, mappings, home) && Twin(mappings, home, p, c, ps, cs)
    ensures DisjointOk({}, mappings, home)
  {
    forall a, b, v: nat | a in mappings && b in mappings && a in home && b in home && home[a] == home[b] == c
      ensures Covers(mappings[a], v) && Covers(mappings[b], v) ==> a == b
    {
      if Covers(mappings[a], v) && Covers(mappings[b], v) {
        var i :| 0 <= i < |cs| && cs[i] == a;
        var j :| 0 <= j < |cs| && cs[j] == b;
        assert ps[i] in ps && ps[j] in ps;
      }
    }
  }

  /** A space that is neither parent nor child shares no region with the child. */
  lemma CloneHolders(mappings: Mappings, home: Homes, p: nat, c: nat, ps: seq<nat>, cs: seq<nat>, m: nat)
    requires p != c && Twin(mappings, home, p, c, ps, cs)
    requires m in mappings && m in home && home[m] != p && home[m] != c
    ensures HoldersOut(mappings, home, mappings[m].region, {c}) == {m} ==>
              HoldersOut(mappings, home, mappings[m].region, {}) == {m}
  {
    var r := mappings[m].region;
    if q :| q in HoldersOut(mappings, home, r, {}) && home[q] == c {
      var k :| 0 <= k < |cs| && cs[k] == q;
      assert ps[k] in HoldersOut(mappings, home, r, {c}) && ps[k] != m;
    } else {
      assert HoldersOut(mappings, home, r, {c}) == HoldersOut(mappings, home, r, {});
    }
  }

  /** Sharing does not change what is observed, and the child observes what the parent does. */
  lemma CloneView(m: map<nat, Pte>, rf: map<nat, Owner>, regions: Regions, mem: Memory, n: nat)
    requires forall v :: v in m ==> v < USER_PAGES
    ensures View(Shared(m, n), rf, regions, mem) == View(m, rf, regions, mem)
    ensures View(Copied(m, USER_DIR), rf, regions, mem) == View(m, rf, regions, mem)
  {
  }

  /** Dropping a mapping takes one reference off its region. */
  lemma DropRefs(regions: Regions, mappings: Mappings, m: nat)
    requires RefsOk(regions, mappings, {}) && m in mappings && mappings[m].region in regions
    ensures var r := mappings[m].region;
      && RefsOk(regions[r := regions[r].(refcnt := regions[r].refcnt - 1)], mappings - {m}, {})
      && (regions[r].refcnt == 1 ==> Holders(mappings, r) == {m} && RefsOk(regions - {r}, mappings - {m}, {}))
  {
    var r := mappings[m].region;
    if regions[r].refcnt == 1 {
      SoleHolder(regions, mappings, m);
    }
    forall q | q in regions
      ensures |Holders(mappings - {m}, q)| == |Holders(mappings, q)| - if q == r then 1 else 0
    {
      if q == r {
        assert Holders(mappings - {m}, q) == Holders(mappings, q) - {m};
      } else {
        assert Holders(mappings - {m}, q) == Holders(mappings, q);
      }
    }
  }

  /** Dropping a mapping of a space that is going away leaves every other space's pages as they are. */
  lemma DropTables(x: set<nat>, regions: Regions, mappings: Mappings, home: Homes, um: UserTables, m: nat, next: nat,
                   regions': Regions)
    requires MapsOk(mappings, home, regions, next) && DisjointOk(x, mappings, home) &&
             TablesOk(x, regions, mappings, home, um)
    requires m in mappings && home[m] in x
    requires var r := mappings[m].region;
      || regions' == regions[r := regions[r].(refcnt := regions[r].refcnt - 1)]
      || (Holders(mappings, r) == {m} && regions' == regions - {r})
    ensures MapsOk(mappings - {m}, home - {m}, regions', next)
    ensures DisjointOk(x, mappings - {m}, home - {m})
    ensures TablesOk(x, regions', mappings - {m}, home - {m}, um)
  {
    var mappings', home' := mappings - {m}, home - {m};
    forall q | q in mappings'
      ensures mappings[q].region in regions'
    {
      assert q in Holders(mappings, mappings[q].region);
    }
    forall q, v: nat | q in mappings' && home'[q] !in x && Covers(mappings'[q], v)
      ensures PageOk(q, v, x, regions', mappings', home', um)
    {
      assert PageOk(q, v, x, regions, mappings, home, um);
      assert HoldersOut(mappings', home', mappings[q].region, x) == HoldersOut(mappings, home, mappings[q].region, x);
    }
    forall t, v | t in um && t !in x && v in um[t]
      ensures Mapped(mappings', home', t, v)
    {
      assert Mapped(mappings, home, t, v);
      var q :| q in mappings && q in home && home[q] == t && Covers(mappings[q], v);
      assert q in mappings';
    }
  }

  lemma EraseList(spaces: map<nat, Space>, home: Homes, s: nat, m: nat)
    requires ListsOk(spaces, home) && s in spaces && m in home && home[m] == s
    ensures ListsOk(spaces[s := spaces[s].(maps := Erase(spaces[s].maps, m))], home - {m})
  {
    EraseNoDup(spaces[s].maps, m);
  }

  /** A space may be hidden before it is taken apart, and forgotten when it has no mapping left. */
  lemma HideSpace(regions: Regions, mappings: Mappings, home: Homes, um: UserTables, next: nat, s: nat)
    requires MapsOk(mappings, home, regions, next) && DisjointOk({}, mappings, home) &&
             TablesOk({}, regions, mappings, home, um)
    ensures DisjointOk({s}, mappings, home) && TablesOk({s}, regions, mappings, home, um)
  {
    forall m, v: nat | m in mappings && home[m] !in {s} && Covers(mappings[m], v)
      ensures PageOk(m, v, {s}, regions, mappings, home, um)
    {
      assert PageOk(m, v, {}, regions, mappings, home, um);
      if HoldersOut(mappings, home, mappings[m].region, {}) == {m} {
        assert HoldersOut(mappings, home, mappings[m].region, {s}) == {m} by {
          assert m in HoldersOut(mappings, home, mappings[m].region, {s});
          assert forall q :: q in HoldersOut(mappings, home, mappings[m].region, {s}) ==>
                   q in HoldersOut(mappings, home, mappings[m].region, {});
        }
      }
    }
  }

  lemma ForgetSpace(regions: Regions, mappings: Mappings, home: Homes, um: UserTables, next: nat, s: nat)
    requires MapsOk(mappings, home, regions, next) && DisjointOk({s}, mappings, home) &&
             TablesOk({s}, regions, mappings, home, um)
    requires forall m :: m in home ==> home[m] != s
    ensures DisjointOk({}, mappings, home) && TablesOk({}, regions, mappings, home, um - {s})
  {
    forall m, v: nat | m in mappings && Covers(mappings[m], v)
      ensures PageOk(m, v, {}, regions, mappings, home, um - {s})
    {
      assert PageOk(m, v, {s}, regions, mappings, home, um);
      assert HoldersOut(mappings, home, mappings[m].region, {}) == HoldersOut(mappings, home, mappings[m].region, {s});
    }
  }

  /** Every page of `um` is backed by a region frame of `rf`. */
  ghost predicate Backed(um: map<nat, Pte>, rf: map<nat, Owner>) {
    forall v :: v in um ==> um[v].address in rf && rf[um[v].address].RegionFrame?
  }

  lemma AllBacked(regions: Regions, mappings: Mappings, home: Homes, rf: map<nat, Owner>, um: UserTables, mem: Memory,
                  nextRegion: nat, nextMapping: nat, x: set<nat>, s: nat)
    requires RegionsOk(regions, rf, mem, nextRegion) && MapsOk(mappings, home, regions, nextMapping)
    requires TablesOk(x, regions, mappings, home, um) && s in um && s !in x
    ensures Backed(um[s], rf)
  {
    forall v | v in um[s]
      ensures um[s][v].address in rf && rf[um[s][v].address].RegionFrame?
    {
      var _ := PageSource(x, regions, mappings, home, rf, um, mem, nextRegion, nextMapping, s, v);
    }
  }

  /** The two states agree on what the region frames of `rf` hold and on who may write them. */
  ghost predicate SameBacking(rf: map<nat, Owner>, rf': map<nat, Owner>, regions: Regions, regions': Regions,
                              mem: Memory, mem': Memory)
  {
    forall f :: f in rf && rf[f].RegionFrame? ==>
      && f in rf' && rf'[f] == rf[f]
      && (rf[f].region in regions <==> rf[f].region in regions')
      && (rf[f].region in regions ==> regions[rf[f].region].prot == regions'[rf[f].region].prot)
      && (f in mem <==> f in mem') && (f in mem ==> mem[f] == mem'[f])
  }

  lemma ViewKept(um: map<nat, Pte>, rf: map<nat, Owner>, rf': map<nat, Owner>, regions: Regions, regions': Regions,
                 mem: Memory, mem': Memory)
    requires Backed(um, rf) && SameBacking(rf, rf', regions, regions', mem, mem')
    ensures View(um, rf', regions', mem') == View(um, rf, regions, mem) && Backed(um, rf')
  {
  }

  /** Reference counts and further regions do not matter to the page tables. */
  lemma TablesRegions(x: set<nat>, regions: Regions, regions': Regions, mappings: Mappings, home: Homes, um: UserTables,
                      next: nat)
    requires MapsOk(mappings, home, regions, next) && TablesOk(x, regions, mappings, home, um)
    requires forall r :: r in regions ==>
               r in regions' && regions'[r].frames == regions[r].frames && regions'[r].prot == regions[r].prot
    ensures MapsOk(mappings, home, regions', next) && TablesOk(x, regions', mappings, home, um)
  {
    forall m, v: nat | m in mappings && home[m] !in x && Covers(mappings[m], v)
      ensures PageOk(m, v, x, regions', mappings, home, um)
    {
      assert PageOk(m, v, x, regions, mappings, home, um);
    }
  }

  lemma NewRegionRefs(regions: Regions, mappings: Mappings, home: Homes, r: nat, region: Region, next: nat)
    requires RefsOk(regions, mappings, {}) && MapsOk(mappings, home, regions, next) && r !in regions &&
             region.refcnt == 1
    ensures RefsOk(regions[r := region], mappings, {r})
    ensures forall m :: m in mappings ==> mappings[m].region != r
  {
    assert Holders(mappings, r) == {};
  }

  lemma InsertList(spaces: map<nat, Space>, home: Homes, s: nat, id: nat, maps: seq<nat>)
    requires ListsOk(spaces, home) && s in spaces && id !in home
    requires NoDup(maps) && forall m :: m in maps <==> m == id || m in spaces[s].maps
    ensures ListsOk(spaces[s := spaces[s].(maps := maps)], home[id := s])
  {
  }

  ghost function Views(spaces: map<nat, Space>, um: UserTables, rf: map<nat, Owner>, regions: Regions,
                       mem: Memory): EagerState {
    map s | s in spaces && s in um :: View(um[s], rf, regions, mem)
  }

  /** A change that touches neither the pages nor what backs them is not observable. */
  lemma ViewsKept(spaces: map<nat, Space>, regions: Regions, mappings: Mappings, home: Homes, rf: map<nat, Owner>,
                  um: UserTables, mem: Memory, nextRegion: nat, nextMapping: nat,
                  rf': map<nat, Owner>, regions': Regions, mem': Memory)
    requires RegionsOk(regions, rf, mem, nextRegion) && MapsOk(mappings, home, regions, nextMapping)
    requires TablesOk({}, regions, mappings, home, um) && SameBacking(rf, rf', regions, regions', mem, mem')
    ensures Views(spaces, um, rf', regions', mem') == Views(spaces, um, rf, regions, mem)
  {
    forall s | s in spaces && s in um
      ensures View(um[s], rf', regions', mem') == View(um[s], rf, regions, mem)
    {
      AllBacked(regions, mappings, home, rf, um, mem, nextRegion, nextMapping, {}, s);
      ViewKept(um[s], rf, rf', regions, regions', mem, mem');
    }
  }

  lemma ViewKeys(spaces: map<nat, Space>, um: UserTables, rf: map<nat, Owner>, regions: Regions, mem: Memory, s: nat)
    requires s in spaces && s in um
    ensures s in Views(spaces, um, rf, regions, mem) && Views(spaces, um, rf, regions, mem)[s].Keys == um[s].Keys
    ensures Views(spaces, um, rf, regions, mem)[s] == View(um[s], rf, regions, mem)
  {
  }

  lemma ViewsAddMapping(spaces: map<nat, Space>, spaces': map<nat, Space>, um: UserTables, um': UserTables, s: nat,
                        start: nat, r: nat, rf: map<nat, Owner>, regions: Regions, mem: Memory, nextRegion: nat,
                          pages: seq<Page>)
    requires RegionsOk(regions, rf, mem, nextRegion) && r in regions && |pages| == |regions[r].frames|
    requires forall k :: 0 <= k < |pages| ==> regions[r].frames[k] in mem && pages[k] == mem[regions[r].frames[k]]
    requires s in spaces && s in um && spaces.Keys == spaces'.Keys
    requires um' == um[s := um[s] + RangeMap(start, regions[r].frames, regions[r].prot.write)]
    ensures Views(spaces', um', rf, regions, mem) ==
            EagerCreate(Views(spaces, um, rf, regions, mem), s, start, regions[r].prot.write, pages)
  {
    hide RegionsOk, View, Views, RangeMap, EagerMap;
    AddMappingView(um[s], start, r, rf, regions, mem, nextRegion, pages);
    ViewsPut(spaces, spaces', um, s, um[s] + RangeMap(start, regions[r].frames, regions[r].prot.write), rf, regions,
             mem);
    ViewKeys(spaces, um, rf, regions, mem, s);
  }

  lemma ViewsPut(spaces: map<nat, Space>, spaces': map<nat, Space>, um: UserTables, s: nat, m: map<nat, Pte>,
                 rf: map<nat, Owner>, regions: Regions, mem: Memory)
    requires s in spaces && s in um && spaces.Keys == spaces'.Keys
    ensures Views(spaces', um[s := m], rf, regions, mem) ==
            Views(spaces, um, rf, regions, mem)[s := View(m, rf, regions, mem)]
  {
    hide View;
    assert forall t :: t in spaces <==> t in spaces'.Keys;
  }

  lemma ListFacts(spaces: map<nat, Space>, mappings: Mappings, home: Homes, regions: Regions, next: nat, s: nat)
    requires ListsOk(spaces, home) && MapsOk(mappings, home, regions, next) && s in spaces
    ensures NoDup(spaces[s].maps) && next !in spaces[s].maps && next !in mappings && next !in home
    ensures forall m :: m in spaces[s].maps ==> m in mappings
  {
    assert next !in mappings.Keys && next !in home.Keys;
    assert forall m :: m in spaces[s].maps ==> m in home.Keys;
  }

  lemma HomeFacts(spaces: map<nat, Space>, mappings: Mappings, home: Homes, regions: Regions, next: nat, s: nat, m: nat)
    requires ListsOk(spaces, home) && MapsOk(mappings, home, regions, next) && s in spaces && m in spaces[s].maps
    ensures m in mappings && m in home && home[m] == s && mappings[m].region in regions && m < next
  {
  }

  lemma EmptyShape(regions: Regions, mappings: Mappings, home: Homes, spaces: map<nat, Space>, rf: map<nat, Owner>,
                   um: UserTables, mem: Memory)
    requires |regions| == |mappings| == |home| == |spaces| == |rf| == 0 && NothingMapped(um)
    ensures Shape({}, regions, mappings, home, spaces, rf, um, mem, 0, 0) && RefsOk(regions, mappings, {})
  {
  }

  /** The same address spaces, with the same references. */
  ghost predicate SameSpaces(spaces: map<nat, Space>, spaces': map<nat, Space>) {
    spaces.Keys == spaces'.Keys && forall s :: s in spaces ==> spaces[s].refcnt == spaces'[s].refcnt
  }

  ghost predicate SameContents(mem: Memory, a: seq<nat>, b: seq<nat>) {
    |a| == |b| && forall k :: 0 <= k < |a| ==> a[k] in mem && b[k] in mem && mem[a[k]] == mem[b[k]]
  }

  lemma FrameFacts(regions: Regions, rf: map<nat, Owner>, mem: Memory, next: nat, r: nat, r2: nat)
    requires RegionsOk(regions, rf, mem, next) && r in regions && r2 in regions && r != r2
    ensures NoDup(regions[r2].frames)
    ensures forall k :: 0 <= k < |regions[r].frames| ==>
              regions[r].frames[k] in mem && regions[r].frames[k] !in regions[r2].frames
  {
    var frames := regions[r2].frames;
    assert forall j :: 0 <= j < |frames| ==> rf[frames[j]] == RegionFrame(r2, j);
  }

  lemma PagesOf(regions: Regions, mappings: Mappings, home: Homes, um: UserTables, next: nat, m: nat)
    requires MapsOk(mappings, home, regions, next) && TablesOk({}, regions, mappings, home, um) && m in mappings
    ensures mappings[m].region in regions && |regions[mappings[m].region].frames| == mappings[m].pages > 0
    ensures mappings[m].start + mappings[m].pages <= USER_PAGES && home[m] in um
    ensures forall v: nat :: mappings[m].start <= v < mappings[m].start + mappings[m].pages ==>
              v in um[home[m]] && um[home[m]][v].address == regions[mappings[m].region].frames[v - mappings[m].start]
  {
    assert PageOk(m, mappings[m].start, {}, regions, mappings, home, um);
    forall v: nat | mappings[m].start <= v < mappings[m].start + mappings[m].pages
      ensures v in um[home[m]] && um[home[m]][v].address == regions[mappings[m].region].frames[v - mappings[m].start]
    {
      assert Covers(mappings[m], v);
      assert PageOk(m, v, {}, regions, mappings, home, um);
    }
  }

  /** Overwriting memory that only belongs to region `r2` keeps the regions well formed. */
  lemma RegionsRewritten(regions: Regions, rf: map<nat, Owner>, mem: Memory, mem': Memory, next: nat, r2: nat)
    requires RegionsOk(regions, rf, mem, next) && r2 in regions
    requires forall k :: 0 <= k < |regions[r2].frames| ==>
               regions[r2].frames[k] in mem' && |mem'[regions[r2].frames[k]]| == PAGE_SIZE
    requires forall f :: f !in regions[r2].frames ==> (f in mem' <==> f in mem) && (f in mem ==> mem'[f] == mem[f])
    ensures RegionsOk(regions, rf, mem', next)
  {
    forall r, k | r in regions && 0 <= k < |regions[r].frames|
      ensures var f := regions[r].frames[k];
              f in rf && rf[f] == RegionFrame(r, k) && f in mem' && |mem'[f]| == PAGE_SIZE
    {
      var f := regions[r].frames[k];
      if f in regions[r2].frames {
        var j :| 0 <= j < |regions[r2].frames| && regions[r2].frames[j] == f;
      }
    }
  }

  lemma ViewsSplit(spaces: map<nat, Space>, um: UserTables, um': UserTables, s: nat, start: nat, r: nat, r2: nat,
                   rf: map<nat, Owner>, regions: Regions, mem: Memory, nextRegion: nat)
    requires RegionsOk(regions, rf, mem, nextRegion) && r in regions && r2 in regions && s in um
    requires SameContents(mem, regions[r].frames, regions[r2].frames) && regions[r].prot == regions[r2].prot
    requires forall v: nat :: start <= v < start + |regions[r].frames| ==>
               v in um[s] && um[s][v].address == regions[r].frames[v - start]
    requires um' == um[s := um[s] + RangeMap(start, regions[r2].frames, regions[r2].prot.write)]
    ensures Views(spaces, um', rf, regions, mem) == Views(spaces, um, rf, regions, mem)
  {
    SplitView(um[s], start, r, r2, rf, regions, mem, nextRegion);
    forall t | t in um && t != s
      ensures um'[t] == um[t]
    {
    }
  }

  /** Reference counts are not observable. */
  lemma ViewsRefcnt(spaces: map<nat, Space>, um: UserTables, rf: map<nat, Owner>, regions: Regions, mem: Memory, r: nat,
                    n: int)
    requires r in regions
    ensures Views(spaces, um, rf, regions[r := regions[r].(refcnt := n)], mem) == Views(spaces, um, rf, regions, mem)
  {
    forall s | s in um
      ensures View(um[s], rf, regions[r := regions[r].(refcnt := n)], mem) == View(um[s], rf, regions, mem)
    {
    }
  }

  /** After the split, or the reset, every page of the mapping may be written. */
  lemma RangeWritable(m: map<nat, Pte>, start: nat, frames: seq<nat>, v: nat)
    requires start <= v < start + |frames|
    ensures v in m + RangeMap(start, frames, true) && (m + RangeMap(start, frames, true))[v].rw
  {
    assert RangeMap(start, frames, true)[v] == RangeEntry(start, frames, true, v);
  }

  lemma ViewsStore(spaces: map<nat, Space>, regions: Regions, mappings: Mappings, home: Homes, rf: map<nat, Owner>,
                   um: UserTables, mem: Memory, nextRegion: nat, nextMapping: nat, s: nat, addr: nat, b: int,
                     mem': Memory)
    requires RegionsOk(regions, rf, mem, nextRegion) && MapsOk(mappings, home, regions, nextMapping)
    requires TablesOk({}, regions, mappings, home, um)
    requires s in spaces && s in um && addr / PAGE_SIZE in um[s] && um[s][addr / PAGE_SIZE].rw
    requires var f := um[s][addr / PAGE_SIZE].address;
             f in mem && |mem[f]| == PAGE_SIZE && mem' == mem[f := mem[f][addr % PAGE_SIZE := b]]
    ensures RegionsOk(regions, rf, mem', nextRegion)
    ensures EagerWritable(View(um[s], rf, regions, mem), addr)
    ensures Views(spaces, um, rf, regions, mem') == EagerStore(Views(spaces, um, rf, regions, mem), s, addr, b)
  {
    hide RegionsOk, MapsOk, TablesOk, View, EagerWrite, EagerWritable;
    StoreIsEager(regions, mappings, home, rf, um, mem, nextRegion, nextMapping, s, addr, b, mem');
  }

  /** The frame behind a present page, what it holds, and the mapping it belongs to. */
  lemma PageFacts(regions: Regions, mappings: Mappings, home: Homes, rf: map<nat, Owner>, um: UserTables, mem: Memory,
                  nextRegion: nat, nextMapping: nat, s: nat, v: nat) returns (m: nat)
    requires RegionsOk(regions, rf, mem, nextRegion) && MapsOk(mappings, home, regions, nextMapping)
    requires TablesOk({}, regions, mappings, home, um) && s in um && v in um[s]
    ensures m in mappings && m in home && home[m] == s && Covers(mappings[m], v) && mappings[m].region in regions
    ensures um[s][v].address in mem && |mem[um[s][v].address]| == PAGE_SIZE && um[s][v].user
    ensures View(um[s], rf, regions, mem)[v] == Cell(regions[mappings[m].region].prot.write, mem[um[s][v].address])
    ensures um[s][v].rw ==> regions[mappings[m].region].prot.write
  {
    m := PageSource({}, regions, mappings, home, rf, um, mem, nextRegion, nextMapping, s, v);
  }

  /** A page that some mapping covers is present. */
  lemma CoveredPresent(regions: Regions, mappings: Mappings, home: Homes, um: UserTables, next: nat, m: nat, v: nat)
    requires MapsOk(mappings, home, regions, next) && TablesOk({}, regions, mappings, home, um)
    requires m in mappings && Covers(mappings[m], v)
    ensures home[m] in um && v in um[home[m]]
  {
    assert PageOk(m, v, {}, regions, mappings, home, um);
  }

  lemma SameMapping(mappings: Mappings, home: Homes, a: nat, b: nat, v: nat)
    requires DisjointOk({}, mappings, home) && a in mappings && b in mappings && a in home && b in home
    requires home[a] == home[b] && Covers(mappings[a], v) && Covers(mappings[b], v)
    ensures a == b
  {
  }

  /** A new address space, empty. */
  lemma JoinSpace(regions: Regions, mappings: Mappings, home: Homes, spaces: map<nat, Space>, um: UserTables,
                  rf: map<nat, Owner>, mem: Memory, next: nat, c: nat)
    requires MapsOk(mappings, home, regions, next) && ListsOk(spaces, home) && TablesOk({}, regions, mappings, home, um)
    requires c !in spaces && c !in um
    ensures ListsOk(spaces[c := Space([], 1)], home) && TablesOk({}, regions, mappings, home, um[c := map[]])
    ensures Views(spaces[c := Space([], 1)], um[c := map[]], rf, regions,
                  mem) == Views(spaces, um, rf, regions, mem)[c := map[]]
  {
    hide TablesOk, ListsOk, MapsOk, Views;
    JoinList(spaces, home, c);
    JoinTables(regions, mappings, home, um, next, c);
    JoinViews(spaces, um, rf, regions, mem, c);
  }

  lemma JoinList(spaces: map<nat, Space>, home: Homes, c: nat)
    requires ListsOk(spaces, home) && c !in spaces
    ensures ListsOk(spaces[c := Space([], 1)], home) && forall m :: m in home ==> home[m] != c
  {
  }

  lemma JoinTables(regions: Regions, mappings: Mappings, home: Homes, um: UserTables, next: nat, c: nat)
    requires MapsOk(mappings, home, regions, next) && TablesOk({}, regions, mappings, home, um) && c !in um
    requires forall m :: m in home ==> home[m] != c
    ensures TablesOk({}, regions, mappings, home, um[c := map[]])
  {
    forall m, v: nat | m in mappings && Covers(mappings[m], v)
      ensures PageOk(m, v, {}, regions, mappings, home, um[c := map[]])
    {
      assert PageOk(m, v, {}, regions, mappings, home, um);
    }
    hide PageOk, MapsOk;
  }

  lemma JoinViews(spaces: map<nat, Space>, um: UserTables, rf: map<nat, Owner>, regions: Regions, mem: Memory, c: nat)
    requires c !in spaces && c !in um
    ensures Views(spaces[c := Space([], 1)], um[c := map[]], rf, regions,
                  mem) == Views(spaces, um, rf, regions, mem)[c := map[]]
  {
    assert View(map[], rf, regions, mem) == map[];
    hide View;
  }

  /** Write access may be taken away, and a hidden space may be given any page. */
  lemma SharedTables(x: set<nat>, regions: Regions, mappings: Mappings, home: Homes, um: UserTables, next: nat, p: nat,
                     n: nat, c: nat, cm: map<nat, Pte>)
    requires MapsOk(mappings, home, regions, next) && TablesOk(x, regions, mappings, home, um) && p in um && c in x &&
             p != c
    ensures TablesOk(x, regions, mappings, home, um[p := Shared(um[p], n)][c := cm])
  {
    var um' := um[p := Shared(um[p], n)][c := cm];
    forall m, v: nat | m in mappings && home[m] !in x && Covers(mappings[m], v)
      ensures PageOk(m, v, x, regions, mappings, home, um')
    {
      assert PageOk(m, v, x, regions, mappings, home, um);
    }
    forall s, v | s in um' && s !in x && v in um'[s]
      ensures Mapped(mappings, home, s, v)
    {
      assert v in um[s];
    }
  }

  lemma CellDrop(regions: Regions, mappings: Mappings, rf: map<nat, Owner>, mem: Memory, nextRegion: nat, m: nat,
                 q: nat,
                 f: nat, regions': Regions, rf': map<nat, Owner>)
    requires RegionsOk(regions, rf, mem, nextRegion) && m in mappings && q in mappings && q != m
    requires mappings[m].region in regions && mappings[q].region in regions
    requires f in rf && rf[f].RegionFrame? && rf[f].region == mappings[q].region
    requires var r := mappings[m].region;
      || (regions' == regions[r := regions[r].(refcnt := regions[r].refcnt - 1)] && rf' == rf)
      || (Holders(mappings, r) == {m} && regions' == regions - {r} &&
          forall f :: f in rf && rf[f].RegionFrame? && rf[f].region != r ==> f in rf' && rf'[f] == rf[f])
    ensures CellAt(f, rf', regions', mem) == CellAt(f, rf, regions, mem)
  {
    if mappings[q].region == mappings[m].region {
      assert q in Holders(mappings, mappings[m].region);
    }
  }

  /** Dropping a mapping of a hidden space `s` is not observable in the others. */
  lemma ViewsDrop(s: nat, spaces: map<nat, Space>, regions: Regions, mappings: Mappings, home: Homes, rf: map<nat,
                  Owner>,
                  um: UserTables, mem: Memory, nextRegion: nat, nextMapping: nat, m: nat, regions': Regions,
                    rf': map<nat, Owner>)
    requires RegionsOk(regions, rf, mem, nextRegion) && MapsOk(mappings, home, regions, nextMapping)
    requires TablesOk({s}, regions, mappings, home, um) && s !in spaces && m in mappings && home[m] == s
    requires var r := mappings[m].region;
      || (regions' == regions[r := regions[r].(refcnt := regions[r].refcnt - 1)] && rf' == rf)
      || (Holders(mappings, r) == {m} && regions' == regions - {r} &&
          forall f :: f in rf && rf[f].RegionFrame? && rf[f].region != r ==> f in rf' && rf'[f] == rf[f])
    ensures Views(spaces, um, rf', regions', mem) == Views(spaces, um, rf, regions, mem)
  {
    forall t, v | t in spaces && t in um && v in um[t]
      ensures CellAt(um[t][v].address, rf', regions', mem) == CellAt(um[t][v].address, rf, regions, mem)
    {
      var q := PageSource({s}, regions, mappings, home, rf, um, mem, nextRegion, nextMapping, t, v);
      hide TablesOk, MapsOk, CellAt;
      CellDrop(regions, mappings, rf, mem, nextRegion, m, q, um[t][v].address, regions', rf');
    }
    hide RegionsOk, MapsOk, TablesOk, CellAt;
    forall t | t in spaces && t in um
      ensures View(um[t], rf', regions', mem) == View(um[t], rf, regions, mem)
    {
      hide RegionsOk, MapsOk, TablesOk, CellAt;
    }
  }

  /** Regions with the same frames and the same protection. */
  ghost predicate SameButRefs(regions: Regions, regions': Regions) {
    regions.Keys == regions'.Keys &&
    forall r :: r in regions ==> regions'[r].frames == regions[r].frames && regions'[r].prot == regions[r].prot
  }

  lemma ViewsSameButRefs(spaces: map<nat, Space>, um: UserTables, rf: map<nat, Owner>, regions: Regions,
                         regions': Regions,
                         mem: Memory)
    requires SameButRefs(regions, regions')
    ensures Views(spaces, um, rf, regions', mem) == Views(spaces, um, rf, regions, mem)
  {
    forall s | s in um
      ensures View(um[s], rf, regions', mem) == View(um[s], rf, regions, mem)
    {
    }
  }

  /** The observable outcome of a finished clone: the child starts with what the parent has. */
  lemma ViewsClone(spaces: map<nat, Space>, um: UserTables, rf: map<nat, Owner>, regions: Regions, mem: Memory, p: nat,
                   c: nat)
    requires p in spaces && c in spaces && p in um && c in um && p != c && forall v :: v in um[p] ==> v < USER_PAGES
    ensures Views(spaces, um[p := Shared(um[p], USER_DIR)][c := Copied(um[p], USER_DIR)], rf, regions, mem) ==
            Views(spaces, um, rf, regions, mem)[c := Views(spaces, um, rf, regions, mem)[p]]
  {
    CloneView(um[p], rf, regions, mem, USER_DIR);
  }

  /** What the other spaces observe while `c` is hidden does not depend on `c`. */
  lemma ViewsWithout(spaces: map<nat, Space>, um: UserTables, rf: map<nat, Owner>, regions: Regions, mem: Memory,
                     p: nat,
                     n: nat, c: nat, cm: map<nat, Pte>)
    requires p in um && p != c && forall v :: v in um[p] ==> v < USER_PAGES
    ensures Views(spaces - {c}, um[p := Shared(um[p], n)][c := cm], rf, regions,
                  mem) == Views(spaces - {c}, um, rf, regions, mem)
  {
    CloneView(um[p], rf, regions, mem, n);
    hide View, Shared;
  }

  lemma ViewsHidden(spaces: map<nat, Space>, um: UserTables, rf: map<nat, Owner>, regions: Regions, mem: Memory, c: nat)
    ensures Views(spaces - {c}, um, rf, regions, mem) == Views(spaces, um, rf, regions, mem) - {c}
    ensures Views(spaces - {c}, um - {c}, rf, regions, mem) == Views(spaces - {c}, um, rf, regions, mem)
  {
    hide View;
  }

  lemma RefRegions(regions: Regions, rf: map<nat, Owner>, mem: Memory, next: nat, r: nat)
    requires RegionsOk(regions, rf, mem, next) && r in regions
    ensures RegionsOk(regions[r := regions[r].(refcnt := regions[r].refcnt + 1)], rf, mem, next)
    ensures SameButRefs(regions, regions[r := regions[r].(refcnt := regions[r].refcnt + 1)])
  {
  }

  lemma AppendList(spaces: map<nat, Space>, home: Homes, c: nat, id: nat)
    requires ListsOk(spaces, home) && c in spaces && id !in home
    ensures ListsOk(spaces[c := spaces[c].(maps := spaces[c].maps + [id])], home[id := c])
  {
    var s := spaces[c].maps;
    AppendNoDup(s, id);
    InsertList(spaces, home, c, id, s + [id]);
  }

  lemma TwinLists(spaces: map<nat, Space>, mappings: Mappings, home: Homes, p: nat, c: nat)
    requires ListsOk(spaces, home) && p in spaces && c in spaces && |spaces[p].maps| == |spaces[c].maps|
    requires forall k :: 0 <= k < |spaces[p].maps| ==>
               spaces[p].maps[k] in mappings && spaces[c].maps[k] in mappings &&
                 mappings[spaces[p].maps[k]] == mappings[spaces[c].maps[k]]
    ensures Twin(mappings, home, p, c, spaces[p].maps, spaces[c].maps)
  {
  }
}
