/**
 * The three-level page tables of ARMv7 (arch/arm/v7/paging.c), in the long-descriptor format of
 * section B3.6 of ARM DDI 0406C.
 *
 * Pages are numbered by address / 4096. User tables hang off a level-1 table; the kernel's level-2
 * table is fixed. A user table is reached through a kernel page mapped for the occasion, its window.
 */
module ArmPaging {
  import opened Errors
  import opened Lists
  import opened PhysicalMemory

  const LV1 := 4
  const LV2 := 512
  const LV3 := 512
  const USER_PAGES := LV1 * LV2 * LV3

  /** `map_page` uses the level-2 entries below this one. */
  const FREE_END := LV2 - 3
  const WINDOWS := FREE_END * LV3

  datatype Prot = Prot(write: bool, user: bool, device: bool)

  datatype Desc = Desc(valid: bool, address: nat, prot: Prot)

  type Table = seq<Desc>

  type Tables = map<nat, Table>

  type Owners = map<nat, Owner>

  const NONE := Desc(false, 0, Prot(false, false, false))

  function Zeros(n: nat): (t: Table)
    ensures |t| == n && forall k :: 0 <= k < n ==> t[k] == NONE
  {
    if n == 0 then [] else Zeros(n - 1) + [NONE]
  }

  function Zero(): (t: Table)
    ensures |t| == LV2 && Clean(t) && forall k :: 0 <= k < LV2 ==> t[k] == NONE
  {
    Zeros(LV2)
  }

  /** `make_lv1_descriptor`, `make_lv2_descriptor` */
  function TableDesc(f: nat): Desc {
    Desc(true, f, Prot(true, false, false))
  }

  // Descriptor words

  const ADDRESSES := 0x1_0000_0000
  const FRAMES := 0x10_0000

  /** AF, AP_USER, AP_RO, ATTR_DEV and DESC_PAGE */
  const AF := 0x400
  const AP_USER := 0x40
  const AP_RO := 0x80
  const ATTR_DEV := 0x4
  const DESC_PAGE := 0x3

  /** The fields of a descriptor do not overlap: the bitwise or of `make_lv3_descriptor` is a sum. */
  lemma PackIsSum(address: bv64, user: bv64, ro: bv64, device: bv64)
    requires address & 0xfffff000 == address
    requires (user == 0 || user == 0x40) && (ro == 0 || ro == 0x80) && (device == 0 || device == 0x4)
    ensures address | 0x400 | user | ro | device | 0x3 == address + 0x400 + user + ro + device + 0x3
  {
  }

  /** `make_lv3_descriptor` */
  function MakeWord(address: nat, prot: Prot): nat {
    address + AF + (if prot.user then AP_USER else 0) + (if prot.write then 0 else AP_RO) +
    (if prot.device then ATTR_DEV else 0) + DESC_PAGE
  }

  predicate Bit(word: nat, b: nat)
    requires b > 0
  {
    word / b % 2 == 1
  }

  /** `valid_descriptor` */
  predicate WordValid(word: nat) {
    word % 2 == 1
  }

  /** `descriptor_address` */
  function WordAddress(word: nat): nat {
    word / PAGE_SIZE % FRAMES * PAGE_SIZE
  }

  /** What the processor makes of a word. */
  function Decode(word: nat): Desc {
    if WordValid(word) then
      Desc(true, WordAddress(word), Prot(!Bit(word, AP_RO), Bit(word, AP_USER), Bit(word, ATTR_DEV)))
    else
      NONE
  }

  /** A page-aligned 32-bit address. */
  predicate IsFrame(f: nat) {
    f % PAGE_SIZE == 0 && f < ADDRESSES
  }

  predicate Fits(d: Desc) {
    d == NONE || (d.valid && IsFrame(d.address))
  }

  function Encode(d: Desc): nat {
    if d.valid then MakeWord(d.address, d.prot) else 0
  }

  lemma LowBits(n: nat, low: nat)
    requires n < FRAMES && low < PAGE_SIZE
    ensures WordValid(n * PAGE_SIZE + low) == WordValid(low) && WordAddress(n * PAGE_SIZE + low) == n * PAGE_SIZE
    ensures Bit(n * PAGE_SIZE + low, AP_RO) == Bit(low, AP_RO)
    ensures Bit(n * PAGE_SIZE + low, AP_USER) == Bit(low, AP_USER)
    ensures Bit(n * PAGE_SIZE + low, ATTR_DEV) == Bit(low, ATTR_DEV)
  {
    hide Bit, WordAddress, WordValid;
    LowestBit(n, low);
    AccessBit(n, low);
    UserBit(n, low);
    DeviceBit(n, low);
  }

  lemma LowestBit(n: nat, low: nat)
    requires n < FRAMES && low < PAGE_SIZE
    ensures WordValid(n * PAGE_SIZE + low) == WordValid(low) && WordAddress(n * PAGE_SIZE + low) == n * PAGE_SIZE
  {
    assert (n * PAGE_SIZE + low) / PAGE_SIZE == n;
  }

  lemma AccessBit(n: nat, low: nat)
    ensures Bit(n * PAGE_SIZE + low, AP_RO) == Bit(low, AP_RO)
  {
    assert (n * PAGE_SIZE + low) / AP_RO == n * 32 + low / AP_RO;
  }

  lemma UserBit(n: nat, low: nat)
    ensures Bit(n * PAGE_SIZE + low, AP_USER) == Bit(low, AP_USER)
  {
    assert (n * PAGE_SIZE + low) / AP_USER == n * 64 + low / AP_USER;
  }

  lemma DeviceBit(n: nat, low: nat)
    ensures Bit(n * PAGE_SIZE + low, ATTR_DEV) == Bit(low, ATTR_DEV)
  {
    assert (n * PAGE_SIZE + low) / ATTR_DEV == n * 1024 + low / ATTR_DEV;
  }

  /** Packing loses nothing: the processor finds the address and the protection that were packed. */
  lemma WordRoundTrip(d: Desc)
    requires Fits(d)
    ensures Decode(Encode(d)) == d
  {
    if d.valid {
      LowBits(d.address / PAGE_SIZE, MakeWord(0, d.prot));
      assert MakeWord(d.address, d.prot) == d.address / PAGE_SIZE * PAGE_SIZE + MakeWord(0, d.prot);
      assert d.address / PAGE_SIZE * PAGE_SIZE == d.address;
    }
  }

  lemma DecodeFits(word: nat)
    ensures Fits(Decode(word))
  {
  }

  /** `lv3_descriptor_update_prot` changes the protection and keeps the address. */
  lemma WordUpdate(word: nat, prot: Prot)
    requires WordValid(word)
    ensures Decode(MakeWord(WordAddress(word), prot)) == Decode(word).(prot := prot)
  {
    DecodeFits(word);
    WordRoundTrip(Decode(word).(prot := prot));
  }

  /** `lv3_descriptor_set_ro` takes away write access and nothing else. */
  lemma WordReadOnly(word: nat)
    requires WordValid(word)
    ensures var ro := if Bit(word, AP_RO) then word else word + AP_RO;
            Decode(ro) == Decode(word).(prot := Decode(word).prot.(write := false))
  {
    hide Bit, WordAddress, WordValid;
    if !Bit(word, AP_RO) {
      OtherBits(word);
      SameFrame(word);
    }
  }

  lemma OtherBits(word: nat)
    requires !Bit(word, AP_RO)
    ensures WordValid(word + AP_RO) == WordValid(word) && Bit(word + AP_RO, AP_RO)
    ensures Bit(word + AP_RO, AP_USER) == Bit(word, AP_USER) && Bit(word + AP_RO, ATTR_DEV) == Bit(word, ATTR_DEV)
  {
    assert (word + 0x80) / 0x80 == word / 0x80 + 1;
    assert (word + 0x80) / 0x40 == word / 0x40 + 2;
    assert (word + 0x80) / 0x4 == word / 0x4 + 32;
  }

  lemma SameFrame(word: nat)
    requires !Bit(word, AP_RO)
    ensures WordAddress(word + AP_RO) == WordAddress(word)
  {
    var n := word / 0x80;
    assert word / 0x1000 == n / 32 && (word + 0x80) / 0x1000 == (n + 1) / 32;
  }

  type Words = map<nat, seq<nat>>

  function PutWord(t: seq<nat>, k: nat, word: nat): seq<nat>
    requires k < |t|
  {
    t[k := word]
  }

  /** The words in memory show the processor these tables. */
  ghost predicate Coded(words: Words, tables: Tables) {
    && words.Keys == tables.Keys
    && (forall f :: f in words ==> |words[f]| == |tables[f]|)
    && (forall f, k :: f in words && 0 <= k < |words[f]| ==> tables[f][k] == Decode(words[f][k]))
  }

  lemma CodedAt(words: Words, tables: Tables, f: nat, k: nat)
    requires Coded(words, tables) && f in tables && k < |tables[f]|
    ensures f in words && k < |words[f]| && tables[f][k] == Decode(words[f][k]) && Fits(tables[f][k])
    ensures tables[f][k].valid == WordValid(words[f][k])
  {
    DecodeFits(words[f][k]);
  }

  lemma CodedPut(words: Words, tables: Tables, f: nat, k: nat, word: nat)
    requires Coded(words, tables) && f in tables && k < |tables[f]|
    ensures f in words && k < |words[f]|
    ensures Coded(words[f := PutWord(words[f], k, word)], tables[f := tables[f][k := Decode(word)]])
  {
    hide Decode;
  }

  function ZeroWords(n: nat): (t: seq<nat>)
    ensures |t| == n && forall k :: 0 <= k < n ==> t[k] == 0
  {
    if n == 0 then [] else ZeroWords(n - 1) + [0]
  }

  lemma CodedWipe(words: Words, tables: Tables, f: nat)
    requires Coded(words, tables)
    ensures Coded(words[f := ZeroWords(LV2)], tables[f := Zero()])
  {
    assert Decode(0) == NONE;
    hide Decode;
  }

  // User tables

  ghost function UserOwners(owner: Owners): Owners {
    map f | f in owner && owner[f].UserTable? :: owner[f]
  }

  ghost function KernelOwners(owner: Owners): Owners {
    map f | f in owner && owner[f].KernelTable? :: owner[f]
  }

  ghost function Owned(tables: Tables, o: Owners): Tables {
    map f | f in o && f in tables :: tables[f]
  }

  /** Who owns the level-2 table of a root, and the level-3 table of a level-2 table. */
  function Lv2Owner(root: nat, i: nat): Owner {
    UserTable(root, i)
  }

  function Lv3Owner(f: nat, j: nat): Owner {
    UserTable(f, LV1 + j)
  }

  /** An entry that is not valid is the zero word. */
  ghost predicate Clean(t: Table) {
    forall k :: 0 <= k < |t| ==> t[k].valid || t[k] == NONE
  }

  /** Frame `f` holds a table of its own, for `who`. */
  ghost predicate IsTable(ut: Tables, uo: Owners, f: nat, who: Owner) {
    f in uo && uo[f] == who && f in ut && |ut[f]| == LV2 && Clean(ut[f])
  }

  /** Every table of every address space is a frame owned by exactly that place in the tree. */
  ghost predicate UserWf(roots: Tables, ut: Tables, uo: Owners) {
    && (forall s :: s in roots ==> |roots[s]| == LV1 && Clean(roots[s]))
    && (forall s, i :: s in roots && 0 <= i < LV1 && roots[s][i].valid ==>
          IsTable(ut, uo, roots[s][i].address, Lv2Owner(s, i)))
    && (forall s, i, j :: s in roots && 0 <= i < LV1 && roots[s][i].valid && 0 <= j < LV2 &&
                          ut[roots[s][i].address][j].valid ==>
          IsTable(ut, uo, ut[roots[s][i].address][j].address, Lv3Owner(roots[s][i].address, j)))
  }

  ghost function EntryAt(t: Tables, f: nat, i: nat): Option<Desc> {
    if f in t && i < |t[f]| && t[f][i].valid then Some(t[f][i]) else None
  }

  /** The level-3 table of slot (i, j). */
  ghost function Lv3Of(roots: Tables, ut: Tables, s: nat, i: nat, j: nat): Option<nat> {
    var d := EntryAt(roots, s, i);
    if d.None? then None else
    var e := EntryAt(ut, d.value.address, j);
    if e.None? then None else Some(e.value.address)
  }

  /** What the hardware finds at slot (i, j, k). */
  ghost function Walk(roots: Tables, ut: Tables, s: nat, i: nat, j: nat, k: nat): Option<Desc> {
    var g := Lv3Of(roots, ut, s, i, j);
    if g.Some? then EntryAt(ut, g.value, k) else None
  }

  ghost function At(roots: Tables, ut: Tables, s: nat, v: nat): Option<Desc> {
    Walk(roots, ut, s, v / (LV2 * LV3), v / LV3 % LV2, v % LV3)
  }

  /** The flat map of an address space. */
  ghost function Flat(roots: Tables, ut: Tables, s: nat): map<nat, Desc> {
    map v: nat | v < USER_PAGES && At(roots, ut, s, v).Some? :: At(roots, ut, s, v).value
  }

  ghost function FlatMaps(roots: Tables, ut: Tables): map<nat, map<nat, Desc>> {
    map s | s in roots :: Flat(roots, ut, s)
  }

  /** Two pages are the same exactly when all three indices are. */
  lemma Indices(v: nat, w: nat)
    requires v / (LV2 * LV3) == w / (LV2 * LV3) && v / LV3 % LV2 == w / LV3 % LV2 && v % LV3 == w % LV3
    ensures v == w
  {
    assert v / LV3 == v / (LV2 * LV3) * LV2 + v / LV3 % LV2;
    assert w / LV3 == w / (LV2 * LV3) * LV2 + w / LV3 % LV2;
  }

  /** An empty level-2 table in an absent slot changes no translation. */
  lemma AddLv2(roots: Tables, ut: Tables, uo: Owners, s: nat, i: nat, f: nat)
    requires UserWf(roots, ut, uo) && s in roots && i < LV1 && !roots[s][i].valid && f !in uo
    ensures var roots', ut', uo' := roots[s := roots[s][i := TableDesc(f)]], ut[f := Zero()], uo[f := Lv2Owner(s, i)];
            && UserWf(roots', ut', uo')
            && (forall t, a: nat, b: nat, c: nat :: t in roots ==>
                  Walk(roots', ut', t, a, b, c) == Walk(roots, ut, t, a, b, c))
  {
  }

  /** ... and so does an empty level-3 table. */
  lemma AddLv3(roots: Tables, ut: Tables, uo: Owners, s: nat, i: nat, j: nat, g: nat)
    requires UserWf(roots, ut, uo) && s in roots && i < LV1 && j < LV2 && roots[s][i].valid && g !in uo
    requires !ut[roots[s][i].address][j].valid
    ensures var f := roots[s][i].address;
            var ut', uo' := ut[g := Zero()][f := ut[f][j := TableDesc(g)]], uo[g := Lv3Owner(f, j)];
            && UserWf(roots, ut', uo')
            && (forall t, a: nat, b: nat, c: nat :: t in roots ==>
                  Walk(roots, ut', t, a, b, c) == Walk(roots, ut, t, a, b, c))
  {
  }

  /** Writing a level-3 entry changes one translation. */
  lemma WriteLv3(roots: Tables, ut: Tables, uo: Owners, s: nat, i: nat, j: nat, k: nat, d: Desc)
    requires UserWf(roots, ut, uo) && s in roots && i < LV1 && j < LV2 && k < LV3 && Lv3Of(roots, ut, s, i, j).Some?
    requires d.valid || d == NONE
    ensures var g := Lv3Of(roots, ut, s, i, j).value;
            && g in ut && |ut[g]| == LV3
            && var ut' := ut[g := ut[g][k := d]];
            && UserWf(roots, ut', uo)
            && (forall t, a: nat, b: nat, c: nat :: t in roots ==>
                  Walk(roots, ut', t, a, b, c) ==
                  if (t, a, b, c) == (s, i, j, k) then (if d.valid then Some(d) else None)
                                                       else Walk(roots, ut, t, a, b, c))
  {
  }

  /** The same, on the flat maps. */
  lemma FlatSame(roots: Tables, ut: Tables, roots': Tables, ut': Tables)
    requires roots'.Keys == roots.Keys
    requires forall t, a: nat, b: nat, c: nat :: t in roots ==>
               Walk(roots', ut', t, a, b, c) == Walk(roots, ut, t, a, b, c)
    ensures FlatMaps(roots', ut') == FlatMaps(roots, ut)
  {
    hide Walk;
    forall t, v: nat | t in roots
      ensures At(roots', ut', t, v) == At(roots, ut, t, v)
    {
    }
    hide At;
    forall t | t in roots
      ensures Flat(roots', ut', t) == Flat(roots, ut, t)
    {
    }
  }

  lemma FlatWrite(roots: Tables, ut: Tables, ut': Tables, s: nat, v: nat, d: Desc)
    requires s in roots && v < USER_PAGES
    requires forall t, a: nat, b: nat, c: nat :: t in roots ==>
               Walk(roots, ut', t, a, b, c) ==
               if (t, a, b, c) == (s, v / (LV2 * LV3), v / LV3 % LV2, v % LV3) then (if d.valid then Some(d) else None)
               else Walk(roots, ut, t, a, b, c)
    ensures FlatMaps(roots, ut') ==
            FlatMaps(roots, ut)[s := if d.valid then Flat(roots, ut, s)[v := d] else Flat(roots, ut, s) - {v}]
  {
    hide Walk;
    forall t, w: nat | t in roots
      ensures At(roots, ut', t, w) == if t == s && w == v then (if d.valid then Some(d) else None)
                                                               else At(roots, ut, t, w)
    {
      if t == s && w / (LV2 * LV3) == v / (LV2 * LV3) && w / LV3 % LV2 == v / LV3 % LV2 && w % LV3 == v % LV3 {
        Indices(v, w);
      }
    }
    hide At;
    forall t | t in roots && t != s
      ensures Flat(roots, ut', t) == Flat(roots, ut, t)
    {
    }
    assert Flat(roots, ut', s) == if d.valid then Flat(roots, ut, s)[v := d] else Flat(roots, ut, s) - {v};
  }

  // The kernel's windows

  ghost predicate KernelWf(lv2: Table, kt: Tables, ko: Owners) {
    |lv2| == LV2 && forall j :: 0 <= j < FREE_END && lv2[j].valid ==> IsTable(kt, ko, lv2[j].address, KernelTable(j))
  }

  ghost function KernelWalk(lv2: Table, kt: Tables, j: nat, k: nat): Option<Desc> {
    if j < |lv2| && lv2[j].valid && lv2[j].address in kt && k < |kt[lv2[j].address]| && kt[lv2[j].address][k].valid then
      Some(kt[lv2[j].address][k])
    else
      None
  }

  /** The kernel pages below FREE_END. */
  ghost function KernelFlat(lv2: Table, kt: Tables): map<nat, Desc> {
    map w: nat | w < WINDOWS && KernelWalk(lv2, kt, w / LV3, w % LV3).Some? ::
        KernelWalk(lv2, kt, w / LV3, w % LV3).value
  }

  lemma AddKernelTable(lv2: Table, kt: Tables, ko: Owners, j: nat, f: nat)
    requires KernelWf(lv2, kt, ko) && j < FREE_END && !lv2[j].valid && f !in ko
    ensures KernelWf(lv2[j := TableDesc(f)], kt[f := Zero()], ko[f := KernelTable(j)])
    ensures KernelFlat(lv2[j := TableDesc(f)], kt[f := Zero()]) == KernelFlat(lv2, kt)
  {
    forall a: nat, b: nat | a < FREE_END
      ensures KernelWalk(lv2[j := TableDesc(f)], kt[f := Zero()], a, b) == KernelWalk(lv2, kt, a, b)
    {
    }
    hide KernelWalk, KernelWf;
  }

  lemma WriteKernelEntry(lv2: Table, kt: Tables, ko: Owners, j: nat, k: nat, d: Desc)
    requires KernelWf(lv2, kt, ko) && j < FREE_END && k < LV3 && lv2[j].valid && (d.valid || d == NONE)
    ensures var f := lv2[j].address;
            && f in kt && |kt[f]| == LV3
            && var kt' := kt[f := kt[f][k := d]];
            && KernelWf(lv2, kt', ko)
            && KernelFlat(lv2, kt') == if d.valid then KernelFlat(lv2, kt)[j * LV3 + k := d]
                                                       else KernelFlat(lv2, kt) - {j * LV3 + k}
  {
    var f := lv2[j].address;
    var kt' := kt[f := kt[f][k := d]];
    forall a: nat, b: nat | a < FREE_END
      ensures KernelWalk(lv2, kt', a, b) == if (a, b) == (j, k) then (if d.valid then Some(d) else None)
                                                                     else KernelWalk(lv2, kt, a, b)
    {
    }
    hide KernelWalk, KernelWf;
    forall w: nat
      ensures w == j * LV3 + k <==> w / LV3 == j && w % LV3 == k
    {
    }
  }

  /** The tables of the two halves are different frames. */
  lemma KernelWrite(tables: Tables, owner: Owners, f: nat, t: Table)
    requires f in owner && owner[f].KernelTable?
    ensures Owned(tables[f := t], UserOwners(owner)) == Owned(tables, UserOwners(owner))
    ensures Owned(tables[f := t], KernelOwners(owner)) == Owned(tables, KernelOwners(owner))[f := t]
  {
  }

  lemma UserWrite(tables: Tables, owner: Owners, f: nat, t: Table)
    requires f in owner && owner[f].UserTable?
    ensures Owned(tables[f := t], UserOwners(owner)) == Owned(tables, UserOwners(owner))[f := t]
    ensures Owned(tables[f := t], KernelOwners(owner)) == Owned(tables, KernelOwners(owner))
  {
  }

  /** A fresh frame for the kernel's tables, and for a user table. */
  lemma NewKernelOwner(tables: Tables, owner: Owners, f: nat, j: nat)
    requires f !in owner
    ensures var owner' := owner[f := KernelTable(j)];
            && UserOwners(owner') == UserOwners(owner) &&
               KernelOwners(owner') == KernelOwners(owner)[f := KernelTable(j)]
            && Owned(tables[f := Zero()], KernelOwners(owner')) == Owned(tables, KernelOwners(owner))[f := Zero()]
            && Owned(tables[f := Zero()], UserOwners(owner')) == Owned(tables, UserOwners(owner))
    ensures f !in KernelOwners(owner)
  {
  }

  lemma NewUserOwner(tables: Tables, owner: Owners, f: nat, who: Owner)
    requires f !in owner && who.UserTable?
    ensures var owner' := owner[f := who];
            && KernelOwners(owner') == KernelOwners(owner) && UserOwners(owner') == UserOwners(owner)[f := who]
            && Owned(tables, KernelOwners(owner')) == Owned(tables, KernelOwners(owner))
            && Owned(tables[f := Zero()], UserOwners(owner')) == Owned(tables, UserOwners(owner))[f := Zero()]
            && UserOwners(owner' - {f}) == UserOwners(owner) && KernelOwners(owner' - {f}) == KernelOwners(owner)
    ensures f !in UserOwners(owner)
  {
  }

  lemma UserGone(tables: Tables, owner: Owners, g: nat)
    requires g in owner && owner[g].UserTable?
    ensures UserOwners(owner - {g}) == UserOwners(owner) - {g} && KernelOwners(owner - {g}) == KernelOwners(owner)
    ensures Owned(tables, UserOwners(owner - {g})) == Owned(tables, UserOwners(owner)) - {g}
  {
  }

  /** Entry `k` below entry `j` of the level-2 table `f` has been set to `d`; `g` is the level-3 table. */
  ghost predicate MappedAt(ut: Tables, uo: Owners, f: nat, j: nat, k: nat, d: Desc, g: nat, ut': Tables, uo': Owners) {
    && f in ut && j < |ut[f]|
    && if ut[f][j].valid then
         && g == ut[f][j].address && g in ut && k < |ut[g]| && !ut[g][k].valid && uo' == uo &&
            ut' == ut[g := ut[g][k := d]]
       else
         && k < LV3 && g !in uo && uo' == uo[g := Lv3Owner(f, j)]
         && ut' == ut[g := Zero()][f := ut[f][j := TableDesc(g)]][g := Zero()[k := d]]
  }

  /** Equal views show equal tables. */
  lemma OwnedSame(tables: Tables, owner: Owners, tables': Tables, owner': Owners, f: nat)
    requires Owned(tables, UserOwners(owner)) == Owned(tables', UserOwners(owner')) &&
             UserOwners(owner) == UserOwners(owner')
    requires f in owner && owner[f].UserTable? && f in tables
    ensures f in owner' && owner'[f] == owner[f] && f in tables' && tables'[f] == tables[f]
  {
    assert f in UserOwners(owner) && f in Owned(tables, UserOwners(owner));
    assert f in UserOwners(owner') && f in Owned(tables', UserOwners(owner'));
  }

  /** The user tables once entry `j` of `f` leads to the fresh frame `g`, and a window has been opened. */
  ghost predicate Fresh(tables: Tables, owner: Owners, f: nat, j: nat, g: nat, tables': Tables, owner': Owners)
  {
    && f in owner && owner[f].UserTable? && f in tables && j < |tables[f]| && g !in owner
    && UserOwners(owner') == UserOwners(owner)[g := Lv3Owner(f, j)]
    && f in owner' && g in owner' && owner'[f] == owner[f] && owner'[g] == Lv3Owner(f, j)
    && f in tables' && tables'[f] == tables[f][j := TableDesc(g)]
    && Owned(tables', UserOwners(owner)) == Owned(tables, UserOwners(owner))[f := tables[f][j := TableDesc(g)]]
  }

  lemma FreshOpen(tables: Tables, owner: Owners, f: nat, j: nat, g: nat, tables': Tables, owner': Owners)
    requires f in owner && owner[f].UserTable? && f in tables && j < |tables[f]| && g !in owner
    requires UserOwners(owner') == UserOwners(owner[g := Lv3Owner(f, j)])
    requires Owned(tables', UserOwners(owner')) == Owned(tables[f := tables[f][j := TableDesc(g)]], UserOwners(owner'))
    ensures Fresh(tables, owner, f, j, g, tables', owner')
  {
    var o, t := owner[g := Lv3Owner(f, j)], tables[f := tables[f][j := TableDesc(g)]];
    NewUserOwner(tables, owner, g, Lv3Owner(f, j));
    assert f in UserOwners(owner') && g in UserOwners(owner');
    forall x | x in UserOwners(owner)
      ensures x in t <==> x in tables'
      ensures x in t ==> tables'[x] == t[x]
    {
      assert x in UserOwners(owner');
      assert x in t <==> x in Owned(t, UserOwners(owner'));
      assert x in tables' <==> x in Owned(tables', UserOwners(owner'));
    }
  }

  /** The rollback leaves no trace. */
  lemma FreshGone(tables: Tables, owner: Owners, f: nat, j: nat, g: nat, tables': Tables, owner': Owners)
    requires Fresh(tables, owner, f, j, g, tables', owner') && tables[f][j] == NONE
    ensures UserOwners(owner' - {g}) == UserOwners(owner)
    ensures Owned(tables'[f := tables'[f][j := NONE]], UserOwners(owner' - {g})) == Owned(tables, UserOwners(owner))
  {
    UserGone(tables', owner', g);
    assert tables[f][j := TableDesc(g)][j := NONE] == tables[f];
    assert f in UserOwners(owner) && f in Owned(tables, UserOwners(owner));
    OwnedPut(tables', UserOwners(owner), f, tables[f]);
    assert UserOwners(owner)[g := Lv3Owner(f, j)] - {g} == UserOwners(owner);
  }

  lemma OwnedPut(tables: Tables, o: Owners, f: nat, t: Table)
    requires f in o
    ensures Owned(tables[f := t], o) == Owned(tables, o)[f := t]
  {
  }

  lemma FreshSet(tables: Tables, owner: Owners, f: nat, j: nat, g: nat, tables': Tables, owner': Owners, t: Table)
    requires Fresh(tables, owner, f, j, g, tables', owner')
    ensures var ut := Owned(tables, UserOwners(owner));
            Owned(tables'[g := t], UserOwners(owner')) == ut[f := tables[f][j := TableDesc(g)]][g := t]
    ensures g !in UserOwners(owner)
  {
  }

  /** A fresh table is cleared. */
  ghost function Cleared(ut: Tables, f: nat, isNew: bool): Tables {
    if isNew then ut[f := Zero()] else ut
  }

  /** Two kernel pages are free for windows. */
  ghost predicate TwoWindows(km: map<nat, Desc>) {
    exists x: nat, y: nat :: x < y < WINDOWS && x !in km && y !in km
  }

  /** On the flat maps, the page `v` appears and nothing else changes. */
  lemma MapEffect(roots: Tables, ut: Tables, uo: Owners, s: nat, v: nat, f: nat, g: nat, d: Desc, ut': Tables,
                  uo': Owners)
    requires UserWf(roots, ut, uo) && s in roots && v < USER_PAGES && d.valid
    requires var i, j, k := v / (LV2 * LV3), v / LV3 % LV2, v % LV3;
             roots[s][i].valid && roots[s][i].address == f && MappedAt(ut, uo, f, j, k, d, g, ut', uo')
    ensures UserWf(roots, ut', uo') && v !in Flat(roots, ut, s)
    ensures FlatMaps(roots, ut') == FlatMaps(roots, ut)[s := Flat(roots, ut, s)[v := d]]
  {
    hide UserWf, Walk;
    var i, j, k := v / (LV2 * LV3), v / LV3 % LV2, v % LV3;
    var ut1, uo1 := ut, uo;
    NotThere(roots, ut, uo, s, i, j, k, f, g);
    if !ut[f][j].valid {
      AddLv3(roots, ut, uo, s, i, j, g);
      ut1, uo1 := ut[g := Zero()][f := ut[f][j := TableDesc(g)]], uo[g := Lv3Owner(f, j)];
      FlatSame(roots, ut, roots, ut1);
      assert Flat(roots, ut1, s) == FlatMaps(roots, ut1)[s] == FlatMaps(roots, ut)[s] == Flat(roots, ut, s);
    }
    assert Lv3Of(roots, ut1, s, i, j) == Some(g);
    WriteLv3(roots, ut1, uo1, s, i, j, k, d);
    assert ut' == ut1[g := ut1[g][k := d]] && uo' == uo1;
    hide MappedAt;
    FlatWrite(roots, ut1, ut', s, v, d);
  }

  lemma NotThere(roots: Tables, ut: Tables, uo: Owners, s: nat, i: nat, j: nat, k: nat, f: nat, g: nat)
    requires UserWf(roots, ut, uo) && s in roots && i < LV1 && j < LV2 && k < LV3
    requires roots[s][i].valid && roots[s][i].address == f && f in ut && j < |ut[f]|
    requires ut[f][j].valid ==> g == ut[f][j].address && g in ut && k < |ut[g]| && !ut[g][k].valid
    ensures Walk(roots, ut, s, i, j, k).None?
    ensures |roots[s]| == LV1 && f in uo
  {
  }

  lemma ThereOrNot(roots: Tables, ut: Tables, s: nat, v: nat, f: nat)
    requires s in roots && v < USER_PAGES && |roots[s]| == LV1
    requires roots[s][v / (LV2 * LV3)].valid && roots[s][v / (LV2 * LV3)].address == f
    ensures Lv3Valid(ut, f, v / LV3 % LV2, v % LV3) <==> v in Flat(roots, ut, s)
  {
  }

  lemma RootAbsent(roots: Tables, ut: Tables, s: nat, v: nat)
    requires s in roots && v < USER_PAGES && |roots[s]| == LV1 && !roots[s][v / (LV2 * LV3)].valid
    ensures v !in Flat(roots, ut, s)
  {
  }

  lemma AbsentStays(roots: Tables, ut: Tables, s: nat, v: nat)
    requires s in roots && v !in Flat(roots, ut, s)
    ensures FlatMaps(roots, ut)[s := Flat(roots, ut, s) - {v}] == FlatMaps(roots, ut)
  {
    hide Flat;
    assert Flat(roots, ut, s) - {v} == Flat(roots, ut, s);
  }

  lemma EmptyBelow(ut: Tables, f: nat, j: nat, k: nat)
    requires f in ut && ut[f] == Zero()
    ensures !Lv3Valid(ut, f, j, k)
  {
  }

  lemma FlatOf(roots: Tables, ut: Tables, roots': Tables, ut': Tables, s: nat)
    requires s in roots && s in roots' && FlatMaps(roots', ut') == FlatMaps(roots, ut)
    ensures Flat(roots', ut', s) == Flat(roots, ut, s)
  {
    assert FlatMaps(roots', ut')[s] == FlatMaps(roots, ut)[s];
  }

  /** What a fresh frame held before it is cleared does not matter. */
  lemma NewView(tables: Tables, owner: Owners, f: nat, who: Owner)
    requires f !in owner && who.UserTable?
    ensures Owned(tables, UserOwners(owner[f := who]))[f := Zero()] == Owned(tables, UserOwners(owner))[f := Zero()]
    ensures Owned(tables, UserOwners(owner[f := who])) - {f} == Owned(tables, UserOwners(owner))
    ensures Owned(tables, UserOwners(owner))[f := Zero()] - {f} == Owned(tables, UserOwners(owner))
    ensures UserOwners(owner[f := who]) - {f} == UserOwners(owner)
  {
  }

  lemma StillOwner(owner: Owners, owner': Owners, f: nat)
    requires UserOwners(owner) == UserOwners(owner') && f in owner && owner[f].UserTable?
    ensures f in owner' && owner'[f] == owner[f]
  {
    assert f in UserOwners(owner');
  }

  /** What `paging_user_unmap` and `paging_update_user_prot` do to a valid entry. */
  datatype Edit = Clear | Protect(prot: Prot)

  datatype Outcome = NoTable | NoMemory | Missing | Done

  function Edited(d: Desc, e: Edit): Desc {
    if e.Clear? then NONE else Desc(true, d.address, e.prot)
  }

  /** The flat maps after the edit of page `v`. */
  ghost predicate EditedMap(roots: Tables, ut: Tables, s: nat, v: nat, e: Edit, maps: map<nat, map<nat, Desc>>) {
    var m := Flat(roots, ut, s);
    && s in roots && v in m
    && maps ==
       match e
       case Clear => FlatMaps(roots, ut)[s := m - {v}]
       case Protect(prot) => FlatMaps(roots, ut)[s := m[v := Desc(true, m[v].address, prot)]]
  }

  lemma EditEffect(roots: Tables, ut: Tables, uo: Owners, s: nat, v: nat, f: nat, g: nat, e: Edit, ut': Tables)
    requires UserWf(roots, ut, uo) && s in roots && v < USER_PAGES && |roots[s]| == LV1
    requires roots[s][v / (LV2 * LV3)].valid && roots[s][v / (LV2 * LV3)].address == f
    requires EntryAt(ut, f, v / LV3 % LV2).Some? && EntryAt(ut, f, v / LV3 % LV2).value.address == g
    requires EntryAt(ut, g, v % LV3).Some? && ut' == ut[g := ut[g][v % LV3 := Edited(ut[g][v % LV3], e)]]
    ensures UserWf(roots, ut', uo) && EditedMap(roots, ut, s, v, e, FlatMaps(roots, ut'))
  {
    var i, j, k := v / (LV2 * LV3), v / LV3 % LV2, v % LV3;
    assert At(roots, ut, s, v) == Some(ut[g][k]);
    assert v in Flat(roots, ut, s) && Flat(roots, ut, s)[v] == ut[g][k];
    hide UserWf, Walk;
    WriteLv3(roots, ut, uo, s, i, j, k, Edited(ut[g][k], e));
    FlatWrite(roots, ut, ut', s, v, Edited(ut[g][k], e));
    hide Flat, FlatMaps;
  }

  lemma RootAdded(roots: Tables, ut: Tables, s: nat)
    requires s !in roots
    ensures FlatMaps(roots[s := Zeros(LV1)], ut) == FlatMaps(roots, ut)[s := map[]]
  {
    var roots' := roots[s := Zeros(LV1)];
    forall v: nat
      ensures At(roots', ut, s, v).None?
    {
    }
    forall t, v: nat | t in roots
      ensures At(roots', ut, t, v) == At(roots, ut, t, v)
    {
    }
    hide At;
    forall t | t in roots
      ensures Flat(roots', ut, t) == Flat(roots, ut, t)
    {
    }
    assert Flat(roots', ut, s) == map[];
    hide Flat;
  }

  ghost predicate SomeWindow(km: map<nat, Desc>) {
    exists x: nat :: x < WINDOWS && x !in km
  }

  lemma OneOfTwo(km: map<nat, Desc>, w: nat, d: Desc)
    requires TwoWindows(km)
    ensures SomeWindow(km) && SomeWindow(km[w := d])
  {
    var x: nat, y: nat :| x < y < WINDOWS && x !in km && y !in km;
    assert x != w || y != w;
    assert x !in km[w := d] || y !in km[w := d];
  }

  ghost predicate Lv3Valid(ut: Tables, f: nat, j: nat, k: nat) {
    EntryAt(ut, f, j).Some? && EntryAt(ut, EntryAt(ut, f, j).value.address, k).Some?
  }

  lemma WindowIndex(j: nat, k: nat)
    requires j < FREE_END && k < LV3
    ensures j * LV3 + k < WINDOWS && (j * LV3 + k) / LV3 == j && (j * LV3 + k) % LV3 == k
  {
  }

  lemma MappedWindow(lv2: Table, kt: Tables, ko: Owners, w: nat)
    requires KernelWf(lv2, kt, ko) && w in KernelFlat(lv2, kt)
    ensures w < WINDOWS && |lv2| == LV2 && w / LV3 < FREE_END && lv2[w / LV3].valid && w == w / LV3 * LV3 + w % LV3
  {
  }

  /** The level-3 entry of a window tells whether the window is mapped. */
  lemma WindowEntry(lv2: Table, tables: Tables, ko: Owners, w: nat)
    requires KernelWf(lv2, Owned(tables, ko), ko) && w < WINDOWS && |lv2| == LV2 && lv2[w / LV3].valid
    ensures w / LV3 < FREE_END && w == w / LV3 * LV3 + w % LV3
    ensures lv2[w / LV3].address in tables && |tables[lv2[w / LV3].address]| == LV3
    ensures w in KernelFlat(lv2, Owned(tables, ko)) <==> tables[lv2[w / LV3].address][w % LV3].valid
  {
    assert IsTable(Owned(tables, ko), ko, lv2[w / LV3].address, KernelTable(w / LV3));
  }

  /** No page below FREE_END is free in the entries above `j`. */
  ghost predicate FullAbove(lv2: Table, kt: Tables, j: int) {
    forall a: nat, k: nat :: j < a < FREE_END && k < LV3 ==> KernelWalk(lv2, kt, a, k).Some?
  }

  /** Frame `f` holds a level-2 table whose entry `j`, if valid, leads to a level-3 table. */
  ghost predicate IsLevel2(tables: Tables, owner: Owners, f: nat, j: nat) {
    && f in owner && owner[f].UserTable? && f in tables && |tables[f]| == LV2 && j < LV2 && Clean(tables[f])
    && (tables[f][j].valid ==>
          IsTable(Owned(tables, UserOwners(owner)), UserOwners(owner), tables[f][j].address, Lv3Owner(f, j)) &&
                               tables[f][j].address != f)
  }

  lemma Level2Kept(tables: Tables, owner: Owners, tables': Tables, owner': Owners, f: nat, j: nat)
    requires Owned(tables, UserOwners(owner)) == Owned(tables', UserOwners(owner')) &&
             UserOwners(owner) == UserOwners(owner')
    requires IsLevel2(tables, owner, f, j)
    ensures IsLevel2(tables', owner', f, j)
  {
    OwnedSame(tables, owner, tables', owner', f);
    hide UserOwners, Owned, IsTable, Clean;
  }

  lemma Level2New(tables: Tables, owner: Owners, f: nat, j: nat)
    requires f in owner && owner[f].UserTable? && j < LV2
    ensures IsLevel2(tables[f := Zero()], owner, f, j)
  {
    hide UserOwners, Owned, IsTable;
  }

  /** The level-2 table of a valid root entry. */
  lemma Level2Of(roots: Tables, tables: Tables, owner: Owners, s: nat, i: nat, j: nat)
    requires UserWf(roots, Owned(tables, UserOwners(owner)), UserOwners(owner)) && s in roots && i < LV1 && j < LV2
    requires roots[s][i].valid
    ensures IsLevel2(tables, owner, roots[s][i].address, j)
  {
  }

  lemma RootShape(roots: Tables, ut: Tables, uo: Owners, s: nat)
    requires UserWf(roots, ut, uo) && s in roots
    ensures |roots[s]| == LV1 && forall i :: 0 <= i < LV1 ==> roots[s][i].valid || roots[s][i] == NONE
  {
  }

  lemma Level2Parts(tables: Tables, owner: Owners, f: nat, j: nat)
    requires IsLevel2(tables, owner, f, j)
    ensures f in owner && owner[f].UserTable? && f in tables && |tables[f]| == LV2 && j < LV2
    ensures tables[f][j].valid ==> tables[f][j].address in owner && owner[tables[f][j].address].UserTable? &&
                                   tables[f][j].address in tables && |tables[tables[f][j].address]| == LV3
  {
  }

  lemma WindowGone(km: map<nat, Desc>, w: nat, d: Desc)
    requires w !in km
    ensures km[w := d] - {w} == km
  {
  }

  class Mmu {
    const pm: PageFrames

    /** The descriptor words of the tables in page frames, and the tables that the processor sees in them. */
    var words: Words
    ghost var tables: Tables

    var lv2: Table

    /** The level-1 tables of the address spaces, which live in the kernel heap. */
    var roots: Tables

    constructor (frames: PageFrames)
      requires frames.Valid() && frames.top <= ADDRESSES
      ensures pm == frames && Valid() && roots == map[] && KernelMap() == map[]
    {
      pm, words, tables, lv2, roots := frames, map[], map[], Zero(), map[];
    }

    /** An entry as the processor reads it. */
    method Load(f: nat, k: nat) returns (d: Desc)
      requires Coded(words, tables) && f in tables && k < |tables[f]|
      ensures d == tables[f][k] && Fits(d)
    {
      CodedAt(words, tables, f, k);
      d := Decode(words[f][k]);
    }

    /** A descriptor word is packed and written. */
    method Store(f: nat, k: nat, d: Desc)
      requires Coded(words, tables) && f in tables && k < |tables[f]| && Fits(d)
      modifies this`tables, this`words
      ensures Coded(words, tables) && tables == old(tables)[f := old(tables)[f][k := d]]
      ensures f in words && k < |words[f]| && words[f][k] == Encode(d)
    {
      CodedPut(words, tables, f, k, Encode(d));
      WordRoundTrip(d);
      words := words[f := PutWord(words[f], k, Encode(d))];
      tables := tables[f := tables[f][k := d]];
    }

    /** A table is cleared. */
    method Wipe(f: nat)
      requires Coded(words, tables)
      modifies this`tables, this`words
      ensures Coded(words, tables) && tables == old(tables)[f := Zero()]
    {
      CodedWipe(words, tables, f);
      words := words[f := ZeroWords(LV2)];
      tables := tables[f := Zero()];
    }

    ghost predicate Kernel()
      reads this, pm, pm.early, pm.descriptors
    {
      pm.Valid() && pm.top <= ADDRESSES && Coded(words, tables) &&
        KernelWf(lv2, Owned(tables, KernelOwners(pm.owner)), KernelOwners(pm.owner))
    }

    ghost function KernelMap(): map<nat, Desc>
      reads this, pm
    {
      KernelFlat(lv2, Owned(tables, KernelOwners(pm.owner)))
    }

    ghost function UserTables(): Tables
      reads this, pm
    {
      Owned(tables, UserOwners(pm.owner))
    }

    ghost predicate Valid()
      reads this, pm, pm.early, pm.descriptors
    {
      Kernel() && UserWf(roots, UserTables(), UserOwners(pm.owner))
    }

    /** The scan of `map_page`: from the last usable level-2 entry down, the first with a free page. */
    method FindWindow() returns (found: bool, j: nat, k: nat)
      requires Kernel()
      ensures found ==> j < FREE_END && k < LV3 && KernelWalk(lv2, Owned(tables, KernelOwners(pm.owner)), j, k).None?
      ensures found && lv2[j].valid ==> lv2[j].address in tables && k < |tables[lv2[j].address]|
      ensures !found ==> forall w: nat :: w < WINDOWS ==> w in KernelMap()
    {
      ghost var kt := Owned(tables, KernelOwners(pm.owner));
      var i := FREE_END - 1;
      found, j, k := false, 0, 0;
      while i >= 0
        invariant -1 <= i < FREE_END && FullAbove(lv2, kt, i)
      {
        if !lv2[i].valid {
          return true, i, 0;
        }
        assert IsTable(kt, KernelOwners(pm.owner), lv2[i].address, KernelTable(i));
        k := 0;
        while k < LV3
          invariant 0 <= k <= LV3 && forall b: nat :: b < k ==> KernelWalk(lv2, kt, i, b).Some?
        {
          CodedAt(words, tables, lv2[i].address, k);
          if !WordValid(words[lv2[i].address][k]) {
            break;
          }
          k := k + 1;
        }
        if k < LV3 {
          return true, i, k;
        }
        i := i - 1;
      }
      k := 0;
    }

    /** A level-3 table for entry `j` of the kernel's level-2 table. */
    method EnsureKernelTable(j: nat) returns (ok: bool)
      requires Kernel() && j < FREE_END && |lv2| == LV2
      modifies this`tables, this`words, this`lv2, pm`free, pm`used, pm`owner
      ensures Kernel() && UserTables() == old(UserTables()) && UserOwners(pm.owner) == old(UserOwners(pm.owner))
      ensures KernelMap() == old(KernelMap()) && |lv2| == LV2 && (ok ==> lv2[j].valid)
      ensures ok <==> old(lv2)[j].valid || old(pm.free) != []
      ensures !ok ==> pm.free == old(pm.free)
      ensures |pm.free| >= |old(pm.free)| - 1
    {
      hide Coded, IsFrame, KernelWf, PageFrames.Valid, KernelFlat, UserOwners, KernelOwners, Owned;
      if lv2[j].valid {
        return true;
      }
      ghost var owner0, kt0 := pm.owner, Owned(tables, KernelOwners(pm.owner));
      var f := pm.Alloc(KernelTable(j));
      if f == 0 {
        return false;
      }
      NewKernelOwner(tables, owner0, f, j);
      AddKernelTable(lv2, kt0, KernelOwners(owner0), j, f);
      lv2 := lv2[j := TableDesc(f)];
      Wipe(f);
      return true;
    }

    method WriteWindow(j: nat, k: nat, d: Desc)
      requires Kernel() && j < FREE_END && k < LV3 && |lv2| == LV2 && lv2[j].valid && Fits(d)
      modifies this`tables, this`words
      ensures Kernel() && UserTables() == old(UserTables())
      ensures KernelMap() == if d.valid then old(KernelMap())[j * LV3 + k := d] else old(KernelMap()) - {j * LV3 + k}
    {
      hide Coded, IsFrame, PageFrames.Valid, KernelFlat;
      ghost var kt := Owned(tables, KernelOwners(pm.owner));
      var a := lv2[j].address;
      assert IsTable(kt, KernelOwners(pm.owner), a, KernelTable(j));
      WriteKernelEntry(lv2, kt, KernelOwners(pm.owner), j, k, d);
      KernelWrite(tables, pm.owner, a, tables[a][k := d]);
      Store(a, k, d);
      hide KernelWf, Owned, UserOwners, KernelOwners;
    }

    /** `map_page`: a kernel page that shows `frame`. */
    method MapPage(frame: nat) returns (w: Option<nat>)
      requires Kernel() && IsFrame(frame)
      modifies this`tables, this`words, this`lv2, pm`free, pm`used, pm`owner
      ensures Kernel() && UserTables() == old(UserTables()) && UserOwners(pm.owner) == old(UserOwners(pm.owner))
      ensures w.Some? ==> w.value < WINDOWS && w.value !in old(KernelMap()) &&
                          KernelMap() == old(KernelMap())[w.value := TableDesc(frame)]
      ensures w.None? ==> KernelMap() == old(KernelMap()) && pm.free == old(pm.free)
      ensures |pm.free| >= |old(pm.free)| - 1
      ensures old(pm.free) != [] && SomeWindow(old(KernelMap())) ==> w.Some?
    {
      hide Coded, IsFrame, PageFrames.Valid, UserOwners, KernelOwners, Owned, KernelWalk;
      var found, j, k := FindWindow();
      if !found {
        return None;
      }
      WindowIndex(j, k);
      assert j * LV3 + k !in KernelMap();
      hide KernelWf, KernelFlat;
      var ok := EnsureKernelTable(j);
      if !ok {
        return None;
      }
      WriteWindow(j, k, TableDesc(frame));
      return Some(j * LV3 + k);
    }

    /** `unmap_page` of a page whose level-3 table is there. */
    method UnmapPage(w: nat) returns (err: Errno)
      requires Kernel() && (w in KernelMap() || (w < WINDOWS && |lv2| == LV2 && lv2[w / LV3].valid))
      modifies this`tables, this`words
      ensures Kernel() && UserTables() == old(UserTables()) && KernelMap() == old(KernelMap()) - {w}
      ensures err == if w in old(KernelMap()) then Ok else EINVAL
    {
      hide Coded, IsFrame, KernelWf, PageFrames.Valid, UserOwners, KernelOwners, Owned, KernelWalk, KernelFlat;
      ghost var kt := Owned(tables, KernelOwners(pm.owner));
      if w in KernelMap() {
        MappedWindow(lv2, kt, KernelOwners(pm.owner), w);
      }
      WindowEntry(lv2, tables, KernelOwners(pm.owner), w);
      var d := Load(lv2[w / LV3].address, w % LV3);
      if !d.valid {
        assert KernelMap() - {w} == KernelMap();
        return EINVAL;
      }
      WriteWindow(w / LV3, w % LV3, NONE);
      return Ok;
    }

    /** Frame `f` holds a level-2 table whose entry `j`, if valid, leads to a level-3 table. */
    ghost predicate Level2(f: nat, j: nat)
      reads this, pm
    {
      IsLevel2(tables, pm.owner, f, j)
    }

    /** The body of the innermost step of `paging_user_map`: the window on the level-3 table is open. */
    method SetEntry(g: nat, k: nat, d: Desc, isNew: bool) returns (err: Errno)
      requires Kernel() && g in pm.owner && pm.owner[g].UserTable? && k < LV3 && d.valid && Fits(d)
      requires !isNew ==> g in tables && |tables[g]| == LV3
      modifies this`tables, this`words
      ensures Kernel() && KernelMap() == old(KernelMap()) && (err == Ok || err == EADDRINUSE)
      ensures err == EADDRINUSE <==> !isNew && old(tables)[g][k].valid
      ensures tables == if isNew then old(tables)[g := Zero()[k := d]] else if err == Ok then
                old(tables)[g := old(tables)[g][k := d]] else old(tables)
    {
      hide Coded, IsFrame, KernelWf, PageFrames.Valid, KernelFlat, UserOwners, KernelOwners, Owned;
      if isNew {
        UserWrite(tables, pm.owner, g, Zero());
        Wipe(g);
      }
      var e := Load(g, k);
      if e.valid {
        return EADDRINUSE;
      }
      UserWrite(tables, pm.owner, g, tables[g][k := d]);
      Store(g, k, d);
      return Ok;
    }

    /** A fresh level-3 table for an absent entry, not yet cleared. */
    method NewLv3(f: nat, j: nat) returns (g: nat)
      requires Kernel() && Level2(f, j) && !tables[f][j].valid
      modifies this`tables, this`words, pm`free, pm`used, pm`owner
      ensures Kernel() && KernelMap() == old(KernelMap())
      ensures g == 0 <==> old(pm.free) == []
      ensures g == 0 ==> tables == old(tables) && pm.owner == old(pm.owner)
      ensures g != 0 ==>
                g !in old(pm.owner) && pm.owner == old(pm.owner)[g := Lv3Owner(f, j)] && |pm.free| == |old(pm.free)| - 1
      ensures g != 0 ==> tables == old(tables)[f := old(tables)[f][j := TableDesc(g)]]
    {
      hide Coded, IsFrame, KernelWf, PageFrames.Valid, KernelFlat, UserOwners, KernelOwners, Owned;
      ghost var owner0 := pm.owner;
      g := pm.Alloc(Lv3Owner(f, j));
      if g != 0 {
        NewUserOwner(tables, owner0, g, Lv3Owner(f, j));
        UserWrite(tables, pm.owner, f, tables[f][j := TableDesc(g)]);
        FrameOk(g);
        Store(f, j, TableDesc(g));
      }
    }

    /** The rollback of `NewLv3`. */
    method DropLv3(f: nat, j: nat, g: nat)
      requires Kernel() && g in pm.owner && pm.owner[g].UserTable? && f in pm.owner && pm.owner[f].UserTable? && f != g
      requires f in tables && j < |tables[f]|
      modifies this`tables, this`words, pm`free, pm`used, pm`owner
      ensures Kernel() && KernelMap() == old(KernelMap())
      ensures pm.owner == old(pm.owner) - {g} && tables == old(tables)[f := old(tables)[f][j := NONE]]
      ensures pm.free == [g] + old(pm.free)
    {
      hide Coded, IsFrame, KernelWf, PageFrames.Valid, KernelFlat, UserOwners, KernelOwners, Owned;
      FrameOk(g);
      UserGone(tables, pm.owner, g);
      var ok := pm.Free(g);
      UserWrite(tables, pm.owner, f, tables[f][j := NONE]);
      Store(f, j, NONE);
    }

    lemma FrameOk(g: nat)
      requires pm.Valid() && g in pm.owner && !pm.owner[g].KernelUse?
      ensures g % PAGE_SIZE == 0 && pm.base <= g < pm.top && (pm.top <= ADDRESSES ==> IsFrame(g))
    {
    }

    /** The part of `paging_user_map` below a level-2 table whose window is open, with its part of the rollback. */
    method MapLv3(f: nat, j: nat, k: nat, d: Desc) returns (err: Errno, g: nat)
      requires Kernel() && Level2(f, j) && k < LV3 && d.valid && Fits(d)
      modifies this`tables, this`words, this`lv2, pm`free, pm`used, pm`owner
      ensures Kernel() && KernelMap() == old(KernelMap())
      ensures err == Ok ==>
                MappedAt(old(UserTables()), old(UserOwners(pm.owner)), f, j, k, d, g, UserTables(),
                         UserOwners(pm.owner))
      ensures err != Ok ==> UserTables() == old(UserTables()) && UserOwners(pm.owner) == old(UserOwners(pm.owner))
      ensures err == EADDRINUSE ==> Lv3Valid(old(UserTables()), f, j, k)
      ensures err in {Ok, ENOMEM, EADDRINUSE}
      ensures |old(pm.free)| >= 2 && SomeWindow(old(KernelMap())) && !Lv3Valid(old(UserTables()), f, j, k) ==> err == Ok
    {
      hide Coded, IsFrame, KernelWf, PageFrames.Valid, KernelFlat, Zero;
      var e := Load(f, j);
      if e.valid {
        g := e.address;
        err := MapThere(g, k, d);
      } else {
        err, g := MapNew(f, j, k, d);
      }
    }

    /** ... when the level-3 table exists. */
    method MapThere(table: nat, k: nat, d: Desc) returns (err: Errno)
      requires Kernel() && table in pm.owner && pm.owner[table].UserTable? && table in tables && |tables[table]| == LV3
      requires k < LV3 && d.valid && Fits(d)
      modifies this`tables, this`words, this`lv2, pm`free, pm`used, pm`owner
      ensures Kernel() && KernelMap() == old(KernelMap()) && UserOwners(pm.owner) == old(UserOwners(pm.owner))
      ensures err == Ok || err == ENOMEM || err == EADDRINUSE
      ensures err == Ok ==> !old(tables)[table][k].valid &&
                            UserTables() == old(UserTables())[table := old(tables)[table][k := d]]
      ensures err != Ok ==> UserTables() == old(UserTables())
      ensures err == EADDRINUSE ==> old(tables)[table][k].valid
      ensures old(pm.free) != [] && SomeWindow(old(KernelMap())) && !old(tables)[table][k].valid ==> err == Ok
    {
      hide Coded, IsFrame, KernelWf, PageFrames.Valid, KernelFlat;
      FrameOk(table);
      ghost var ut := UserTables();
      var w := MapPage(table);
      OwnedSame(old(tables), old(pm.owner), tables, pm.owner, table);
      if w.None? {
        return ENOMEM;
      }
      UserWrite(tables, pm.owner, table, tables[table][k := d]);
      err := SetEntry(table, k, d, false);
      hide UserOwners, KernelOwners, Owned;
      var _ := UnmapPage(w.value);
    }

    /** ... when it does not. */
    method MapNew(f: nat, j: nat, k: nat, d: Desc) returns (err: Errno, g: nat)
      requires Kernel() && Level2(f, j) && !tables[f][j].valid && k < LV3 && d.valid && Fits(d)
      modifies this`tables, this`words, this`lv2, pm`free, pm`used, pm`owner
      ensures Kernel() && KernelMap() == old(KernelMap()) && (err == Ok || err == ENOMEM)
      ensures err == Ok ==>
                && g !in old(UserOwners(pm.owner))
                && UserOwners(pm.owner) == old(UserOwners(pm.owner))[g := Lv3Owner(f, j)]
                && UserTables() == old(UserTables())[f := old(tables)[f][j := TableDesc(g)]][g := Zero()[k := d]]
      ensures err != Ok ==> UserTables() == old(UserTables()) && UserOwners(pm.owner) == old(UserOwners(pm.owner))
      ensures |old(pm.free)| >= 2 && SomeWindow(old(KernelMap())) ==> err == Ok
    {
      hide Coded, IsFrame, KernelWf, PageFrames.Valid, KernelFlat;
      ghost var owner0, tables0 := pm.owner, tables;
      g := NewLv3(f, j);
      if g == 0 {
        return ENOMEM, 0;
      }
      FrameOk(g);
      var w := MapPage(g);
      FreshOpen(tables0, owner0, f, j, g, tables, pm.owner);
      if w.None? {
        FreshGone(tables0, owner0, f, j, g, tables, pm.owner);
        DropLv3(f, j, g);
        return ENOMEM, 0;
      }
      ghost var tables2 := tables;
      err := SetEntry(g, k, d, true);
      FreshSet(tables0, owner0, f, j, g, tables2, pm.owner, Zero()[k := d]);
      hide UserOwners, KernelOwners, Owned;
      var _ := UnmapPage(w.value);
    }

    ghost function UserMaps(): map<nat, map<nat, Desc>>
      reads this, pm
    {
      FlatMaps(roots, UserTables())
    }

    /** The flat map is what the processor makes of the packed words: every page of it is a valid word in memory. */
    lemma WordsSpeak(s: nat, v: nat) returns (g: nat)
      requires Valid() && s in roots && v in Flat(roots, UserTables(), s)
      ensures g in words && v % LV3 < |words[g]| && WordValid(words[g][v % LV3])
      ensures Decode(words[g][v % LV3]) == Flat(roots, UserTables(), s)[v]
    {
      hide KernelWf, PageFrames.Valid, UserWf, Decode;
      g := Lv3Of(roots, UserTables(), s, v / (LV2 * LV3), v / LV3 % LV2).value;
      CodedAt(words, tables, g, v % LV3);
    }

    /** The part of `paging_user_map` below a root: the window on the level-2 table, and all that follows. */
    method MapLv2(f: nat, j: nat, k: nat, d: Desc, isNew: bool) returns (err: Errno, g: nat)
      requires Kernel() && f in pm.owner && pm.owner[f].UserTable? && j < LV2 && k < LV3 && d.valid && Fits(d)
      requires !isNew ==> Level2(f, j)
      modifies this`tables, this`words, this`lv2, pm`free, pm`used, pm`owner
      ensures Kernel() && KernelMap() == old(KernelMap())
      ensures err == Ok ==>
                MappedAt(Cleared(old(UserTables()), f, isNew), old(UserOwners(pm.owner)), f, j, k, d, g, UserTables(),
                         UserOwners(pm.owner))
      ensures err != Ok ==> UserOwners(pm.owner) == old(UserOwners(pm.owner)) &&
                            (UserTables() == old(UserTables()) || UserTables() == Cleared(old(UserTables()), f, isNew))
      ensures err == EADDRINUSE ==> Lv3Valid(Cleared(old(UserTables()), f, isNew), f, j, k)
      ensures err in {Ok, ENOMEM, EADDRINUSE}
      ensures !Lv3Valid(Cleared(old(UserTables()), f, isNew), f, j, k) ==>
                |old(pm.free)| >= 3 && TwoWindows(old(KernelMap())) ==> err == Ok
    {
      hide Coded, IsFrame, KernelWf, PageFrames.Valid, KernelFlat, MappedAt, Lv3Valid, UserOwners, KernelOwners, Owned,
           IsLevel2, TwoWindows;
      FrameOk(f);
      ghost var owner0, tables0, km := pm.owner, tables, KernelMap();
      var w := MapPage(f);
      if TwoWindows(km) {
        OneOfTwo(km, if w.Some? then w.value else 0, TableDesc(f));
      }
      if w.None? {
        return ENOMEM, 0;
      }
      WindowGone(km, w.value, TableDesc(f));
      StillOwner(owner0, pm.owner, f);
      if isNew {
        UserWrite(tables, pm.owner, f, Zero());
        Level2New(tables, pm.owner, f, j);
        Wipe(f);
      } else {
        Level2Kept(tables0, owner0, tables, pm.owner, f, j);
      }
      err, g := MapLv3(f, j, k, d);
      var _ := UnmapPage(w.value);
    }

    /**
     * `paging_user_map`: the page appears in the flat map, or nothing changes; whatever level fails, the frames
     * taken on the way are given back and no window stays open.
     */
    method UserMap(s: nat, v: nat, frame: nat, prot: Prot) returns (err: Errno)
      requires Valid() && s in roots && v < USER_PAGES && IsFrame(frame)
      modifies this`tables, this`words, this`lv2, this`roots, pm`free, pm`used, pm`owner
      ensures Valid() && KernelMap() == old(KernelMap())
      ensures err == Ok ==> v !in Flat(old(roots), old(UserTables()), s) && UserMaps() ==
                            old(UserMaps())[s := Flat(old(roots), old(UserTables()), s)[v := Desc(true, frame, prot)]]
      ensures err != Ok ==>
                UserMaps() == old(UserMaps()) && roots == old(roots) &&
                UserOwners(pm.owner) == old(UserOwners(pm.owner))
      ensures err == EADDRINUSE ==> v in Flat(old(roots), old(UserTables()), s)
      ensures |old(pm.free)| >= 4 && TwoWindows(old(KernelMap())) && v !in Flat(old(roots), old(UserTables()), s) ==>
                err == Ok
    {
      hide Coded, IsFrame, KernelWf, PageFrames.Valid, KernelFlat, MappedAt, FlatMaps, Flat, Walk;
      var i := v / (LV2 * LV3);
      if roots[s][i].valid {
        err := UserMapBelow(s, v, Desc(true, frame, prot));
      } else {
        err := UserMapNew(s, v, Desc(true, frame, prot));
      }
    }

    method UserMapBelow(s: nat, v: nat, d: Desc) returns (err: Errno)
      requires Valid() && s in roots && v < USER_PAGES && |roots[s]| == LV1 && roots[s][v / (LV2 * LV3)].valid &&
               d.valid && Fits(d)
      modifies this`tables, this`words, this`lv2, pm`free, pm`used, pm`owner
      ensures Valid() && KernelMap() == old(KernelMap())
      ensures err == Ok ==> v !in Flat(roots, old(UserTables()), s) &&
                            UserMaps() == old(UserMaps())[s := Flat(roots, old(UserTables()), s)[v := d]]
      ensures err != Ok ==> UserMaps() == old(UserMaps()) && UserOwners(pm.owner) == old(UserOwners(pm.owner))
      ensures err == EADDRINUSE ==> v in Flat(roots, old(UserTables()), s)
      ensures |old(pm.free)| >= 3 && TwoWindows(old(KernelMap())) && v !in Flat(roots, old(UserTables()), s) ==>
                err == Ok
    {
      hide Coded, IsFrame, KernelWf, PageFrames.Valid, KernelFlat, MappedAt, FlatMaps, Flat, Walk, Lv3Valid, TwoWindows;
      ghost var ut, uo := UserTables(), UserOwners(pm.owner);
      var i, j, k := v / (LV2 * LV3), v / LV3 % LV2, v % LV3;
      var f := roots[s][i].address;
      assert IsTable(ut, uo, f, Lv2Owner(s, i));
      assert Level2(f, j);
      ThereOrNot(roots, ut, s, v, f);
      hide UserWf, Level2, IsTable, UserOwners, Owned;
      var g: nat;
      err, g := MapLv2(f, j, k, d, false);
      if err == Ok {
        MapEffect(roots, ut, uo, s, v, f, g, d, UserTables(), UserOwners(pm.owner));
      }
    }

    method UserMapNew(s: nat, v: nat, d: Desc) returns (err: Errno)
      requires Valid() && s in roots && v < USER_PAGES && |roots[s]| == LV1 && !roots[s][v / (LV2 * LV3)].valid &&
               d.valid && Fits(d)
      modifies this`tables, this`words, this`lv2, this`roots, pm`free, pm`used, pm`owner
      ensures Valid() && KernelMap() == old(KernelMap()) && v !in Flat(old(roots), old(UserTables()), s)
      ensures err == Ok || err == ENOMEM
      ensures err == Ok ==> UserMaps() == old(UserMaps())[s := Flat(old(roots), old(UserTables()), s)[v := d]]
      ensures err != Ok ==>
                UserMaps() == old(UserMaps()) && roots == old(roots) &&
                UserOwners(pm.owner) == old(UserOwners(pm.owner))
      ensures |old(pm.free)| >= 4 && TwoWindows(old(KernelMap())) ==> err == Ok
    {
      hide Coded, IsFrame, KernelWf, PageFrames.Valid, KernelFlat, MappedAt, FlatMaps, Flat, Walk, Lv3Valid, TwoWindows,
           UserOwners, KernelOwners, Owned;
      ghost var roots0, ut, owner0 := roots, UserTables(), pm.owner;
      var i, j, k := v / (LV2 * LV3), v / LV3 % LV2, v % LV3;
      RootAbsent(roots, ut, s, v);
      assert roots[s][i] == NONE;
      var f := pm.Alloc(Lv2Owner(s, i));
      if f == 0 {
        return ENOMEM;
      }
      NewUserOwner(tables, owner0, f, Lv2Owner(s, i));
      NewView(tables, owner0, f, Lv2Owner(s, i));
      AddLv2(roots, ut, UserOwners(owner0), s, i, f);
      hide UserWf;
      roots := roots[s := roots[s][i := TableDesc(f)]];
      FlatSame(roots0, ut, roots, ut[f := Zero()]);
      EmptyBelow(ut[f := Zero()], f, j, k);
      var g: nat;
      err, g := MapLv2(f, j, k, d, true);
      if err == Ok {
        MapEffect(roots, ut[f := Zero()], UserOwners(owner0)[f := Lv2Owner(s, i)], s, v, f, g, d, UserTables(),
                  UserOwners(pm.owner));
        FlatOf(roots0, ut, roots, ut[f := Zero()], s);
      } else {
        StillOwner(owner0[f := Lv2Owner(s, i)], pm.owner, f);
        GiveBack(s, i, f);
        assert roots[s] == roots0[s] && roots == roots0;
      }
    }

    /** The last rung of the rollback. */
    method GiveBack(s: nat, i: nat, f: nat)
      requires Kernel() && f in pm.owner && pm.owner[f].UserTable? && s in roots && i < |roots[s]|
      modifies this`roots, pm`free, pm`used, pm`owner
      ensures Kernel() && KernelMap() == old(KernelMap())
      ensures UserTables() == old(UserTables()) - {f} && UserOwners(pm.owner) == old(UserOwners(pm.owner)) - {f}
      ensures roots == old(roots)[s := old(roots)[s][i := NONE]]
    {
      hide Coded, IsFrame, KernelWf, PageFrames.Valid, KernelFlat, UserOwners, KernelOwners, Owned;
      FrameOk(f);
      UserGone(tables, pm.owner, f);
      var _ := pm.Free(f);
      roots := roots[s := roots[s][i := NONE]];
    }

    /** Replaces a valid level-3 entry; the window on the table is opened and closed. */
    method EditThere(table: nat, k: nat, e: Edit) returns (o: Outcome)
      requires Kernel() && table in pm.owner && pm.owner[table].UserTable? && table in tables &&
               |tables[table]| == LV3 && k < LV3
      modifies this`tables, this`words, this`lv2, pm`free, pm`used, pm`owner
      ensures Kernel() && KernelMap() == old(KernelMap()) && UserOwners(pm.owner) == old(UserOwners(pm.owner)) &&
              o != NoTable
      ensures o == Done ==>
                && old(tables)[table][k].valid
                && UserTables() ==
                   old(UserTables())[table := old(tables)[table][k := Edited(old(tables)[table][k], e)]]
      ensures o != Done ==> UserTables() == old(UserTables())
      ensures o == Missing ==> !old(tables)[table][k].valid
      ensures old(pm.free) != [] && SomeWindow(old(KernelMap())) ==>
                o == if old(tables)[table][k].valid then Done else Missing
    {
      hide Coded, IsFrame, KernelWf, PageFrames.Valid, KernelFlat;
      FrameOk(table);
      var w := MapPage(table);
      OwnedSame(old(tables), old(pm.owner), tables, pm.owner, table);
      if w.None? {
        return NoMemory;
      }
      o := Missing;
      var d := Load(table, k);
      if d.valid {
        d := Edited(d, e);
        UserWrite(tables, pm.owner, table, tables[table][k := d]);
        Store(table, k, d);
        o := Done;
      }
      hide UserOwners, KernelOwners, Owned;
      var _ := UnmapPage(w.value);
    }

    /** The common walk of `paging_update_user_prot` and `paging_user_unmap`. */
    method EditEntry(s: nat, v: nat, e: Edit) returns (o: Outcome)
      requires Valid() && s in roots && v < USER_PAGES
      modifies this`tables, this`words, this`lv2, pm`free, pm`used, pm`owner
      ensures Valid() && KernelMap() == old(KernelMap()) && UserOwners(pm.owner) == old(UserOwners(pm.owner))
      ensures o == Done ==> EditedMap(old(roots), old(UserTables()), s, v, e, UserMaps())
      ensures o != Done ==> UserMaps() == old(UserMaps())
      ensures o == Missing || o == NoTable ==> v !in Flat(roots, old(UserTables()), s)
      ensures o == NoTable <==> EntryAt(roots, s, v / (LV2 * LV3)).None?
      ensures |old(pm.free)| >= 2 && TwoWindows(old(KernelMap())) ==> o != NoMemory
      ensures |old(pm.free)| >= 2 && TwoWindows(old(KernelMap())) && v in Flat(roots, old(UserTables()), s) ==>
                o == Done
    {
      hide Coded, IsFrame, KernelWf, PageFrames.Valid, KernelFlat, FlatMaps, Flat, Walk, TwoWindows, UserWf, UserOwners,
           KernelOwners, Owned, IsLevel2, EditedMap;
      var i := v / (LV2 * LV3);
      RootShape(roots, UserTables(), UserOwners(pm.owner), s);
      if !roots[s][i].valid {
        RootAbsent(roots, UserTables(), s, v);
        return NoTable;
      }
      Level2Of(roots, tables, pm.owner, s, i, v / LV3 % LV2);
      o := EditWindow(s, v, roots[s][i].address, e);
    }

    /** ... with the window on the level-2 table opened and closed. */
    method EditWindow(s: nat, v: nat, f: nat, e: Edit) returns (o: Outcome)
      requires Valid() && s in roots && v < USER_PAGES &&
               EntryAt(roots, s, v / (LV2 * LV3)) == Some(roots[s][v / (LV2 * LV3)])
      requires f == roots[s][v / (LV2 * LV3)].address && Level2(f, v / LV3 % LV2)
      modifies this`tables, this`words, this`lv2, pm`free, pm`used, pm`owner
      ensures Valid() && KernelMap() == old(KernelMap()) && UserOwners(pm.owner) == old(UserOwners(pm.owner)) &&
              o != NoTable
      ensures o == Done ==> EditedMap(old(roots), old(UserTables()), s, v, e, UserMaps())
      ensures o != Done ==> UserMaps() == old(UserMaps())
      ensures o == Missing ==> v !in Flat(roots, old(UserTables()), s)
      ensures |old(pm.free)| >= 2 && TwoWindows(old(KernelMap())) ==> o != NoMemory
      ensures |old(pm.free)| >= 2 && TwoWindows(old(KernelMap())) && v in Flat(roots, old(UserTables()), s) ==>
                o == Done
    {
      hide Coded, IsFrame, KernelWf, PageFrames.Valid, KernelFlat, FlatMaps, Flat, Walk, TwoWindows, UserWf, UserOwners,
           KernelOwners, Owned, IsLevel2, EditedMap, EntryAt;
      Level2Parts(tables, pm.owner, f, v / LV3 % LV2);
      FrameOk(f);
      ghost var owner0, tables0, km := pm.owner, tables, KernelMap();
      var w := MapPage(f);
      if TwoWindows(km) {
        OneOfTwo(km, if w.Some? then w.value else 0, TableDesc(f));
      }
      if w.None? {
        return NoMemory;
      }
      WindowGone(km, w.value, TableDesc(f));
      Level2Kept(tables0, owner0, tables, pm.owner, f, v / LV3 % LV2);
      o := EditBelow(s, v, f, e);
      var _ := UnmapPage(w.value);
    }

    /** ... below the level-2 table, whose window is open. */
    method EditBelow(s: nat, v: nat, f: nat, e: Edit) returns (o: Outcome)
      requires Valid() && s in roots && v < USER_PAGES &&
               EntryAt(roots, s, v / (LV2 * LV3)) == Some(roots[s][v / (LV2 * LV3)])
      requires f == roots[s][v / (LV2 * LV3)].address && Level2(f, v / LV3 % LV2)
      modifies this`tables, this`words, this`lv2, pm`free, pm`used, pm`owner
      ensures Valid() && KernelMap() == old(KernelMap()) && UserOwners(pm.owner) == old(UserOwners(pm.owner)) &&
              o != NoTable
      ensures o == Done ==> EditedMap(old(roots), old(UserTables()), s, v, e, UserMaps())
      ensures o != Done ==> UserTables() == old(UserTables())
      ensures o == Missing ==> v !in Flat(roots, old(UserTables()), s)
      ensures old(pm.free) != [] && SomeWindow(old(KernelMap())) ==> o != NoMemory
      ensures old(pm.free) != [] && SomeWindow(old(KernelMap())) && v in Flat(roots, old(UserTables()), s) ==> o == Done
    {
      hide Coded, IsFrame, KernelWf, PageFrames.Valid, KernelFlat, FlatMaps, Flat, Walk, SomeWindow, EditedMap;
      ghost var ut, uo := UserTables(), UserOwners(pm.owner);
      var i, j, k := v / (LV2 * LV3), v / LV3 % LV2, v % LV3;
      ThereOrNot(roots, ut, s, v, f);
      var d := Load(f, j);
      if !d.valid {
        return Missing;
      }
      var g := d.address;
      hide UserWf;
      o := EditThere(g, k, e);
      if o == Done {
        EditEffect(roots, ut, uo, s, v, f, g, e, UserTables());
      }
    }

    /** `paging_update_user_prot` */
    method UpdateUserProt(s: nat, v: nat, prot: Prot) returns (err: Errno)
      requires Valid() && s in roots && v < USER_PAGES
      modifies this`tables, this`words, this`lv2, pm`free, pm`used, pm`owner
      ensures Valid() && KernelMap() == old(KernelMap()) && UserOwners(pm.owner) == old(UserOwners(pm.owner))
      ensures err == Ok ==>
                var m := Flat(old(roots), old(UserTables()), s);
                v in m && UserMaps() == old(UserMaps())[s := m[v := Desc(true, m[v].address, prot)]]
      ensures err != Ok ==> UserMaps() == old(UserMaps())
      ensures err == EINVAL ==> v !in Flat(roots, old(UserTables()), s)
      ensures |old(pm.free)| >= 2 && TwoWindows(old(KernelMap())) ==>
                (err == Ok <==> v in Flat(roots, old(UserTables()), s))
    {
      hide Kernel, UserWf, FlatMaps, Flat, TwoWindows;
      var o := EditEntry(s, v, Protect(prot));
      err := if o == Done then Ok else if o == NoMemory then ENOMEM else EINVAL;
    }

    /**
     * `paging_user_unmap`: the page is gone from the flat map. A missing level-2 or level-3 entry is not
     * reported, because the error is set behind the jump; only a missing root entry is.
     */
    method UserUnmap(s: nat, v: nat) returns (err: Errno)
      requires Valid() && s in roots && v < USER_PAGES
      modifies this`tables, this`words, this`lv2, pm`free, pm`used, pm`owner
      ensures Valid() && KernelMap() == old(KernelMap()) && UserOwners(pm.owner) == old(UserOwners(pm.owner))
      ensures err == Ok ==> UserMaps() == old(UserMaps())[s := Flat(roots, old(UserTables()), s) - {v}]
      ensures err != Ok ==> UserMaps() == old(UserMaps())
      ensures err == EINVAL <==> EntryAt(roots, s, v / (LV2 * LV3)).None?
      ensures |old(pm.free)| >= 2 && TwoWindows(old(KernelMap())) ==>
                (err == Ok <==> EntryAt(roots, s, v / (LV2 * LV3)).Some?)
    {
      hide Kernel, UserWf, Flat, TwoWindows;
      var o := EditEntry(s, v, Clear);
      err := if o == NoTable then EINVAL else if o == NoMemory then ENOMEM else Ok;
      ghost var m := Flat(roots, old(UserTables()), s);
      assert m == old(UserMaps())[s] && (v !in m ==> m - {v} == m);
    }

    /**
     * A page that is not mapped is reported as unmapped, if its level-1 entry leads to a table because of
     * another page.
     */
    method UnmapAbsent(s: nat, v: nat, other: nat) returns (err: Errno)
      requires Valid() && s in roots && v < USER_PAGES && other < USER_PAGES && |pm.free| >= 2 &&
               TwoWindows(KernelMap())
      requires v !in Flat(roots, UserTables(), s) && other in Flat(roots, UserTables(), s)
      requires v / (LV2 * LV3) == other / (LV2 * LV3)
      modifies this`tables, this`words, this`lv2, pm`free, pm`used, pm`owner
      ensures Valid() && err == Ok && UserMaps() == old(UserMaps())
    {
      hide Kernel, Flat, TwoWindows, FlatMaps;
      RootShape(roots, UserTables(), UserOwners(pm.owner), s);
      if !roots[s][other / (LV2 * LV3)].valid {
        RootAbsent(roots, UserTables(), s, other);
      }
      hide UserWf;
      AbsentStays(roots, UserTables(), s, v);
      err := UserUnmap(s, v);
    }

    /** `create`: an empty root; the heap may refuse the descriptor or the table. */
    method NewRoot(s: nat, heapOk: bool, tableOk: bool) returns (err: Errno)
      requires Valid() && s !in roots
      modifies this`roots
      ensures Valid() && KernelMap() == old(KernelMap()) && err in {Ok, ENOMEM} && (err == Ok <==> heapOk && tableOk)
      ensures roots == if err == Ok then old(roots)[s := Zeros(LV1)] else old(roots)
      ensures UserMaps() == if err == Ok then old(UserMaps())[s := map[]] else old(UserMaps())
    {
      hide Coded, IsFrame, KernelWf, PageFrames.Valid, KernelFlat, Flat;
      if !heapOk || !tableOk {
        return ENOMEM;
      }
      RootAdded(roots, UserTables(), s);
      roots := roots[s := Zeros(LV1)];
      return Ok;
    }
  }
}
