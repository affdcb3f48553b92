/**
 * The kernel heap: `kmalloc`, `kfree` and the growing area under them (kernel/kmalloc.c, kernel/kheap.c).
 *
 * `headers` holds what lies in memory: an address is a key when the 16 bytes there carry the magic
 * number. Nothing keeps payloads or freed blocks from looking like a header.
 */
module KernelHeap {
  import opened Lists

  const WORD := 0x1_0000_0000
  const PAGE_SIZE := 4096
  const HEADER := 16
  const ALIGNMENT := 16
  const INITIAL_SIZE := 0x80000
  const KERNEL_BASE := 0xC000_0000
  const KERNEL_TOP := 0xFF80_0000

  /** The largest request whose size survives the 32-bit rounding. */
  const MAX_REQUEST := WORD - 32

  datatype Header = Header(next: nat, size: nat, used: bool)

  datatype Block = Block(size: nat, used: bool)

  type Headers = map<nat, Header>

  type Blocks = map<nat, Block>

  predicate IsAligned(x: nat) {
    x % ALIGNMENT == 0
  }

  /** `align_up` on 32-bit values, to the alignment of a block. */
  function AlignUp(v: nat): nat {
    var w := (v + ALIGNMENT - 1) % WORD;
    w - w % ALIGNMENT
  }

  function PageAlignUp(v: nat): nat {
    var w := (v + PAGE_SIZE - 1) % WORD;
    w - w % PAGE_SIZE
  }

  /** The size of the block that serves a request, header included. */
  function Rounded(size: nat): nat {
    AlignUp((size + HEADER) % WORD)
  }

  function PagesFor(increment: nat): nat {
    PageAlignUp(increment) / PAGE_SIZE
  }

  function Twice(size: nat): nat {
    size * 2 % WORD
  }

  /** A block is large enough for its request exactly up to `MAX_REQUEST`; above it the sum wraps. */
  lemma RequestLimit(size: nat)
    requires size < WORD
    ensures Rounded(size) >= size + HEADER <==> size <= MAX_REQUEST
    ensures size <= MAX_REQUEST ==> size + HEADER <= Rounded(size) < size + HEADER + ALIGNMENT
    ensures size > MAX_REQUEST ==> Rounded(size) == 0 || Rounded(size) == ALIGNMENT
    ensures IsAligned(Rounded(size)) && Rounded(size) < WORD
  {
    var v := (size + HEADER) % WORD;
    var w := (v + 15) % WORD;
    if size <= MAX_REQUEST {
      assert v == size + HEADER && w == v + 15;
    } else if size < WORD - HEADER {
      assert v == size + HEADER && w == v + 15 - WORD < 16;
    } else {
      assert v == size + HEADER - WORD && w == v + 15 < 31;
    }
  }

  /** A growth that does not wrap gives at least what was asked, in whole pages. */
  lemma PagesCover(increment: nat)
    requires increment < WORD
    ensures PagesFor(increment) * PAGE_SIZE >= increment || PagesFor(increment) == 0
    ensures PagesFor(increment) * PAGE_SIZE < increment + PAGE_SIZE
    ensures increment == 0 ==> PagesFor(increment) == 0
    ensures 0 < increment <= WORD - PAGE_SIZE ==> PagesFor(increment) > 0
    ensures increment > WORD - PAGE_SIZE ==> PagesFor(increment) == 0
  {
    var w := (increment + 4095) % WORD;
    if increment <= WORD - PAGE_SIZE {
      assert w == increment + 4095;
    } else {
      assert w == increment + 4095 - WORD < 4096;
    }
  }

  /** The blocks from `a` up to `b` follow each other without a gap; the last one points to `stop`. */
  ghost predicate Tiles(h: Headers, a: nat, b: nat, stop: nat)
    decreases b - a
  {
    a == b ||
    (&& a < b && a in h && 0 < h[a].size && IsAligned(h[a].size) && a + h[a].size <= b
     && h[a].next == (if a + h[a].size == b then stop else a + h[a].size)
     && Tiles(h, a + h[a].size, b, stop))
  }

  /** The blocks met when walking from `a` to `b`. */
  ghost function BlocksIn(h: Headers, a: nat, b: nat): Blocks
    decreases b - a
  {
    if a < b && a in h && 0 < h[a].size && a + h[a].size <= b then
      BlocksIn(h, a + h[a].size, b)[a := Block(h[a].size, h[a].used)]
    else
      map[]
  }

  /** `h'` holds the same headers as `h` for the blocks between `a` and `b`. */
  ghost predicate Agree(h: Headers, h': Headers, a: nat, b: nat) {
    forall x :: x in BlocksIn(h, a, b) ==> x in h && x in h' && h'[x] == h[x]
  }

  lemma {:induction false} InRange(h: Headers, a: nat, b: nat, x: nat)
    requires x in BlocksIn(h, a, b)
    ensures a <= x < b && x in h && BlocksIn(h, a, b)[x] == Block(h[x].size, h[x].used)
    ensures h[x].size > 0 && x + h[x].size <= b
    decreases b - a
  {
    if x != a {
      InRange(h, a + h[a].size, b, x);
    }
  }

  lemma {:induction false} Frame(h: Headers, h': Headers, a: nat, b: nat, stop: nat)
    requires Tiles(h, a, b, stop) && Agree(h, h', a, b)
    ensures Tiles(h', a, b, stop) && BlocksIn(h', a, b) == BlocksIn(h, a, b)
    decreases b - a
  {
    if a < b {
      assert a in BlocksIn(h, a, b);
      Frame(h, h', a + h[a].size, b, stop);
    }
  }

  lemma {:induction false} Join(h: Headers, a: nat, b: nat, c: nat, stop: nat)
    requires Tiles(h, a, b, b) && Tiles(h, b, c, stop) && b < c
    ensures Tiles(h, a, c, stop) && BlocksIn(h, a, c) == BlocksIn(h, a, b) + BlocksIn(h, b, c)
    ensures a <= b
    decreases b - a
  {
    if a < b {
      Join(h, a + h[a].size, b, c, stop);
      forall x | x in BlocksIn(h, b, c)
        ensures x != a
      {
        InRange(h, b, c, x);
      }
    }
  }

  /** The last block may be made to point elsewhere. */
  lemma {:induction false} Separate(h: Headers, a: nat, b: nat)
    requires a <= b
    ensures forall x :: x in BlocksIn(h, a, b) ==> a <= x < b && x in h
  {
    forall x | x in BlocksIn(h, a, b)
      ensures a <= x < b && x in h
    {
      InRange(h, a, b, x);
    }
  }

  /** A walk that ends at the null pointer ends at one address only. */
  lemma {:induction false} OneEnd(h: Headers, a: nat, e: nat, e': nat)
    requires Tiles(h, a, e, 0) && Tiles(h, a, e', 0) && 0 < a < e && a < e'
    ensures e == e'
    decreases e - a
  {
    var b := a + h[a].size;
    if b < e && b < e' {
      OneEnd(h, b, e, e');
    }
  }

  /** A block that points to itself is in no tiling. */
  lemma {:induction false} NoLoop(h: Headers, a: nat, b: nat, e: nat)
    requires Tiles(h, a, b, b) && a <= b && a < e && 0 < a && b in h && h[b].next == b
    ensures !Tiles(h, a, e, 0)
    decreases b - a
  {
    if a < b && a + h[a].size < e {
      NoLoop(h, a + h[a].size, b, e);
    }
  }

  /** Two blocks never overlap. */
  lemma {:induction false} Disjoint(h: Headers, a: nat, b: nat, x: nat, y: nat)
    requires x in BlocksIn(h, a, b) && y in BlocksIn(h, a, b) && x < y
    ensures x + BlocksIn(h, a, b)[x].size <= y
    decreases b - a
  {
    InRange(h, a, b, x);
    InRange(h, a, b, y);
    if x != a {
      Disjoint(h, a + h[a].size, b, x, y);
    } else {
      InRange(h, a + h[a].size, b, y);
    }
  }

  /** Every address of the tiled range lies in a block. */
  lemma {:induction false} NoGap(h: Headers, a: nat, b: nat, stop: nat, z: nat) returns (x: nat)
    requires Tiles(h, a, b, stop) && a <= z < b
    ensures x in BlocksIn(h, a, b) && x <= z < x + BlocksIn(h, a, b)[x].size
    decreases b - a
  {
    if z < a + h[a].size {
      x := a;
    } else {
      x := NoGap(h, a + h[a].size, b, stop, z);
      InRange(h, a + h[a].size, b, x);
    }
  }

  lemma {:induction false} Aligned(h: Headers, a: nat, b: nat, stop: nat, x: nat)
    requires Tiles(h, a, b, stop) && IsAligned(a) && x in BlocksIn(h, a, b)
    ensures IsAligned(x) && x in h && IsAligned(h[x].size)
    decreases b - a
  {
    if x != a {
      Aligned(h, a + h[a].size, b, stop, x);
    }
  }

  lemma AlignedPayload(b: nat)
    requires IsAligned(b)
    ensures IsAligned(b + HEADER)
  {
  }

  /** A block of the tiling cuts it in two. */
  lemma {:induction false} Cut(h: Headers, a: nat, b: nat, stop: nat, x: nat)
    requires Tiles(h, a, b, stop) && x in BlocksIn(h, a, b)
    ensures Tiles(h, a, x, x) && Tiles(h, x, b, stop) && x < b
    decreases b - a
  {
    if x != a {
      Cut(h, a + h[a].size, b, stop, x);
      InRange(h, a + h[a].size, b, x);
    }
  }

  /** A free block that can serve `n` bytes. */
  ghost predicate Fits(bs: Blocks, x: nat, n: nat) {
    x in bs && !bs[x].used && bs[x].size >= n
  }

  ghost predicate NoFit(bs: Blocks, n: nat) {
    forall x :: x in bs ==> !Fits(bs, x, n)
  }

  /** ... and the first one of the heap. */
  ghost predicate FirstFit(bs: Blocks, b: nat, n: nat) {
    Fits(bs, b, n) && forall x :: x in bs && Fits(bs, x, n) ==> b <= x
  }

  lemma FitAt(h: Headers, a: nat, b: nat, e: nat, n: nat)
    requires Tiles(h, a, b, b) && Tiles(h, b, e, 0) && b < e
    requires forall x :: x in BlocksIn(h, a, b) ==> !Fits(BlocksIn(h, a, b), x, n)
    ensures b in h && Fits(BlocksIn(h, a, e), b, n) <==> h[b].size >= n && !h[b].used
    ensures if h[b].size >= n && !h[b].used then FirstFit(BlocksIn(h, a, e), b, n)
            else h[b].next == 0 ==> NoFit(BlocksIn(h, a, e), n)
  {
    Join(h, a, b, e, 0);
    Separate(h, a, b);
    Separate(h, b, e);
  }

  /** What a tiling shows about one of its blocks. */
  lemma BlockAt(h: Headers, a: nat, b: nat, e: nat, n: nat)
    requires Tiles(h, a, b, b) && Tiles(h, b, e, 0) && b < e
    ensures b in h && Fits(BlocksIn(h, a, e), b, n) <==> h[b].size >= n && !h[b].used
  {
    Join(h, a, b, e, 0);
  }

  lemma OverTop(h: Headers, a: nat, e: nat)
    requires Tiles(h, a, e + PAGE_SIZE, 0) && 0 < a < e
    ensures !Tiles(h, a, e, 0)
  {
    if Tiles(h, a, e, 0) {
      OneEnd(h, a, e, e + PAGE_SIZE);
    }
  }

  /** Block `b` is handed out for `n` bytes; what is left of a block more than twice as large stays free. */
  ghost function Carve(bs: Blocks, b: nat, n: nat): Blocks
    requires b in bs && bs[b].size >= n
  {
    if bs[b].size > 2 * n then
      bs[b := Block(n, true)][b + n := Block(bs[b].size - n, false)]
    else
      bs[b := Block(bs[b].size, true)]
  }

  /** The heap that ended at `e` has `more` free bytes at its end, in block `b`. */
  ghost predicate GrownBy(bs: Blocks, bs': Blocks, b: nat, e: nat, more: nat) {
    || (b == e && bs' == bs[b := Block(more, false)] && forall x :: x in bs && x + bs[x].size == e ==> bs[x].used)
    || (b in bs && !bs[b].used && b + bs[b].size == e && bs' == bs[b := Block(bs[b].size + more, false)])
  }

  /** Block `b` is free and has swallowed the free blocks behind it, up to a used one or the end. */
  ghost predicate Merged(bs: Blocks, bs': Blocks, b: nat, m: nat, e: nat) {
    && (b + m == e || (b + m in bs && bs[b + m].used))
    && (forall x :: x in bs && b < x < b + m ==> !bs[x].used)
    && bs' == (map x | x in bs && (x < b || b + m <= x) :: bs[x])[b := Block(m, false)]
  }

  /** The blocks lie below `e` and do not overlap. */
  ghost predicate InOrder(bs: Blocks, e: nat) {
    && (forall x :: x in bs ==> 0 < bs[x].size && x + bs[x].size <= e)
    && (forall x, y :: x in bs && y in bs && x < y ==> x + bs[x].size <= y)
  }

  /** A freed block has its own room and that of the free block behind it, and what it borders on is used. */
  lemma MergedRoom(bs: Blocks, bs': Blocks, b: nat, m: nat, e: nat)
    requires InOrder(bs, e) && Merged(bs, bs', b, m, e) && 0 < m && b in bs
    ensures b in bs' && !bs'[b].used && bs[b].size <= bs'[b].size
    ensures var n := b + bs[b].size; n in bs && !bs[n].used ==> bs[b].size + bs[n].size <= bs'[b].size && n !in bs'
    ensures b + bs'[b].size in bs' ==> bs'[b + bs'[b].size].used
  {
  }

  /** What a request of `size` bytes is entitled to. */
  ghost predicate Served(size: nat, n: nat) {
    size + HEADER <= n <= 2 * Rounded(size)
  }

  /** The used blocks are those handed out, each large enough for its request. */
  ghost predicate Serves(bs: Blocks, asked: map<nat, nat>) {
    && (forall b :: b in asked <==> b in bs && bs[b].used)
    && (forall b :: b in asked ==> Served(asked[b], bs[b].size))
  }

  lemma ServeCarve(h: Headers, a: nat, e: nat, asked: map<nat, nat>, b: nat, size: nat)
    requires Serves(BlocksIn(h, a, e), asked) && Fits(BlocksIn(h, a, e), b, Rounded(size)) && size < WORD
    ensures Serves(Carve(BlocksIn(h, a, e), b, Rounded(size)), asked[b := size]) <==> size <= MAX_REQUEST
  {
    var bs, n := BlocksIn(h, a, e), Rounded(size);
    var bs' := Carve(bs, b, n);
    RequestLimit(size);
    if bs[b].size > 2 * n && n > 0 {
      if b + n in bs {
        Disjoint(h, a, e, b, b + n);
      }
      assert b + n !in bs;
    }
    assert b in bs';
    hide Rounded, BlocksIn;
  }

  lemma ServeGrown(h: Headers, a: nat, e: nat, asked: map<nat, nat>, bs': Blocks, b: nat, more: nat)
    requires Serves(BlocksIn(h, a, e), asked) && GrownBy(BlocksIn(h, a, e), bs', b, e, more)
    ensures Serves(bs', asked)
  {
    if e in BlocksIn(h, a, e) {
      InRange(h, a, e, e);
    }
  }

  /** The payload of a block is never the place of another block. */
  lemma PayloadFree(h: Headers, a: nat, e: nat, b: nat, x: nat)
    requires b in BlocksIn(h, a, e) && b < x < b + BlocksIn(h, a, e)[b].size
    ensures x !in BlocksIn(h, a, e)
  {
    if x in BlocksIn(h, a, e) {
      Disjoint(h, a, e, b, x);
    }
  }

  /** The live blocks are where they were and as large as they were. */
  ghost predicate Keeps(bs: Blocks, bs': Blocks, asked: map<nat, nat>) {
    forall b :: b in asked ==> b in bs && b in bs' && bs'[b] == bs[b]
  }

  lemma KeepCarve(h: Headers, a: nat, e: nat, asked: map<nat, nat>, b: nat, n: nat)
    requires Serves(BlocksIn(h, a, e), asked) && Fits(BlocksIn(h, a, e), b, n) && n > 0
    ensures Keeps(BlocksIn(h, a, e), Carve(BlocksIn(h, a, e), b, n), asked) && b !in asked
  {
    if BlocksIn(h, a, e)[b].size > 2 * n {
      PayloadFree(h, a, e, b, b + n);
    }
  }

  lemma Unmoved(bs: Blocks, asked: map<nat, nat>)
    requires Serves(bs, asked)
    ensures Keeps(bs, bs, asked)
  {
  }

  lemma KeepGrown(h: Headers, a: nat, e: nat, asked: map<nat, nat>, bs': Blocks, b: nat, more: nat)
    requires Serves(BlocksIn(h, a, e), asked) && GrownBy(BlocksIn(h, a, e), bs', b, e, more)
    ensures Keeps(BlocksIn(h, a, e), bs', asked)
  {
    if e in BlocksIn(h, a, e) {
      InRange(h, a, e, e);
    }
  }

  /** A new header for the block at `b`, which keeps its place in the tiling. */
  lemma Replace(h: Headers, a: nat, b: nat, e: nat, h': Headers)
    requires Tiles(h, a, b, b) && Agree(h, h', a, b) && a <= b < e && Tiles(h', b, e, 0)
    ensures Tiles(h', a, e, 0) && BlocksIn(h', a, e) == BlocksIn(h, a, b) + BlocksIn(h', b, e)
  {
    Frame(h, h', a, b, b);
    Join(h', a, b, e, 0);
  }

  /** What the end of `kmalloc` makes of the headers when it takes `n` bytes at `b`. */
  ghost function TakenHeaders(h: Headers, b: nat, n: nat): Headers
    requires b in h && h[b].size >= n
  {
    if h[b].size > 2 * n then
      h[b := Header(b + n, n, true)][b + n := Header(h[b].next, h[b].size - n, false)]
    else
      h[b := h[b].(used := true)]
  }

  /** One block in front of a tiling. */
  lemma Cons(h: Headers, b: nat, e: nat)
    requires b in h && 0 < h[b].size && IsAligned(h[b].size) && b + h[b].size <= e
    requires h[b].next == if b + h[b].size == e then 0 else b + h[b].size
    requires Tiles(h, b + h[b].size, e, 0)
    ensures Tiles(h, b, e, 0) && BlocksIn(h, b, e) == BlocksIn(h, b + h[b].size, e)[b := Block(h[b].size, h[b].used)]
  {
  }

  lemma Head(h: Headers, b: nat, e: nat)
    requires Tiles(h, b, e, 0) && b < e
    ensures b in h && 0 < h[b].size && IsAligned(h[b].size) && b + h[b].size <= e
    ensures h[b].next == if b + h[b].size == e then 0 else b + h[b].size
    ensures Tiles(h, b + h[b].size, e, 0)
    ensures BlocksIn(h, b, e) == BlocksIn(h, b + h[b].size, e)[b := Block(h[b].size, h[b].used)]
  {
  }

  lemma CarveFirst(bs: Blocks, b: nat, size: nat, used: bool, n: nat)
    requires 0 < n <= size
    ensures Carve(bs[b := Block(size, used)], b, n) ==
            if size > 2 * n then bs[b + n := Block(size - n, false)][b := Block(n, true)]
                                 else bs[b := Block(size, true)]
  {
  }

  lemma CarveTail(h: Headers, b: nat, e: nat, n: nat)
    requires Tiles(h, b, e, 0) && b < e && b in h && h[b].size >= n > 0 && IsAligned(n)
    ensures Tiles(TakenHeaders(h, b, n), b, e, 0)
    ensures b in BlocksIn(h, b, e) && BlocksIn(h, b, e)[b].size == h[b].size
    ensures BlocksIn(TakenHeaders(h, b, n), b, e) == Carve(BlocksIn(h, b, e), b, n)
  {
    hide Tiles, BlocksIn, Carve;
    var h' := TakenHeaders(h, b, n);
    Head(h, b, e);
    var rest := b + h[b].size;
    CarveFirst(BlocksIn(h, rest, e), b, h[b].size, h[b].used, n);
    Separate(h, rest, e);
    Frame(h, h', rest, e, 0);
    if h[b].size > 2 * n {
      Cons(h', b + n, e);
    }
    Cons(h', b, e);
  }

  lemma CarveSum(front: Blocks, back: Blocks, b: nat, n: nat)
    requires b in back && back[b].size >= n && forall x :: x in front ==> x < b
    ensures Carve(front + back, b, n) == front + Carve(back, b, n)
  {
  }

  lemma CarveTiles(h: Headers, a: nat, b: nat, e: nat, n: nat, h': Headers)
    requires Tiles(h, a, b, b) && Tiles(h, b, e, 0) && a <= b < e && b in h && h[b].size >= n > 0 && IsAligned(n)
    requires h' == TakenHeaders(h, b, n)
    ensures Tiles(h', a, e, 0) && b in BlocksIn(h, a, e) && BlocksIn(h, a, e)[b].size >= n
    ensures BlocksIn(h', a, e) == Carve(BlocksIn(h, a, e), b, n)
  {
    hide Tiles, BlocksIn;
    CarveTail(h, b, e, n);
    Join(h, a, b, e, 0);
    Separate(h, a, b);
    Replace(h, a, b, e, h');
    CarveSum(BlocksIn(h, a, b), BlocksIn(h, b, e), b, n);
    hide Carve, TakenHeaders;
  }

  /** The last block, used, gets a free block of `more` bytes behind it. */
  lemma ExtendByBlock(h: Headers, a: nat, b: nat, e: nat, more: nat, h': Headers)
    requires Tiles(h, a, b, b) && Tiles(h, b, e, 0) && a <= b < e && b in h && h[b].next == 0 && h[b].used && e > 0
    requires 0 < more && IsAligned(more)
    requires h' == h[e := Header(0, more, false)][b := h[b].(next := e)]
    ensures b + h[b].size == e && Tiles(h', a, e, e) && Tiles(h', e, e + more, 0) && e in h' &&
            h'[e] == Header(0, more, false)
    ensures Tiles(h', a, e + more, 0)
    ensures GrownBy(BlocksIn(h, a, e), BlocksIn(h', a, e + more), e, e, more)
  {
    Join(h, a, b, e, 0);
    Separate(h, a, b);
    Frame(h, h', a, b, b);
    assert Tiles(h', b, e, e);
    Join(h', a, b, e, e);
    assert BlocksIn(h', e, e + more) == map[e := Block(more, false)];
    Join(h', a, e, e + more, 0);
    assert BlocksIn(h', b, e) == BlocksIn(h, b, e);
    forall x | x in BlocksIn(h, a, e) && x + BlocksIn(h, a, e)[x].size == e
      ensures x == b
    {
      if x != b {
        InRange(h, a, e, x);
        InRange(h, a, e, b);
        if x < b {
          Disjoint(h, a, e, x, b);
        } else {
          Disjoint(h, a, e, b, x);
        }
      }
    }
  }

  /** The last block, free, becomes larger. */
  lemma ExtendBlock(h: Headers, a: nat, b: nat, e: nat, more: nat, h': Headers)
    requires Tiles(h, a, b, b) && Tiles(h, b, e, 0) && a <= b < e && b in h && h[b].next == 0 && !h[b].used
    requires 0 < more && IsAligned(more)
    requires h' == h[b := h[b].(size := h[b].size + more)]
    ensures b + h[b].size == e && Tiles(h', a, b, b) && Tiles(h', b, e + more, 0)
    ensures Tiles(h', a, e + more, 0)
    ensures GrownBy(BlocksIn(h, a, e), BlocksIn(h', a, e + more), b, e, more)
  {
    Join(h, a, b, e, 0);
    Separate(h, a, b);
    assert BlocksIn(h', b, e + more) == map[b := Block(h[b].size + more, false)];
    Frame(h, h', a, b, b);
    Replace(h, a, b, e + more, h');
  }

  /** Split at zero bytes, a block becomes its own successor and the heap is tiled no more. */
  lemma SplitAtZero(h: Headers, a: nat, b: nat, e: nat, h': Headers)
    requires Tiles(h, a, b, b) && 0 < a <= b < e && b in h
    requires b in h' && h'[b].next == b && h' == h[b := h'[b]]
    ensures forall x: nat :: a < x ==> !Tiles(h', a, x, 0)
  {
    Separate(h, a, b);
    Frame(h, h', a, b, b);
    forall x: nat | a < x
      ensures !Tiles(h', a, x, 0)
    {
      NoLoop(h', a, b, x);
    }
  }

  /** The blocks from `lo` on. */
  ghost function Tail(bs: Blocks, lo: nat): Blocks {
    map x | x in bs && lo <= x :: bs[x]
  }

  ghost predicate FreeBetween(bs: Blocks, lo: nat, hi: nat) {
    forall x :: x in bs && lo < x < hi ==> !bs[x].used
  }

  /** `m` bytes from `b` on can become one free block. */
  ghost predicate Mergeable(h: Headers, b: nat, m: nat, e: nat) {
    && 0 < m && b + m <= e && IsAligned(m) && Tiles(h, b + m, e, 0)
    && FreeBetween(BlocksIn(h, b, e), b, b + m)
    && BlocksIn(h, b + m, e) == Tail(BlocksIn(h, b, e), b + m)
  }

  lemma MergeStart(h: Headers, b: nat, e: nat)
    requires Tiles(h, b, e, 0) && b < e
    ensures b in h && Mergeable(h, b, h[b].size, e)
  {
    Head(h, b, e);
    Separate(h, b + h[b].size, e);
    hide BlocksIn, Tiles;
  }

  lemma MergeStep(h: Headers, b: nat, m: nat, e: nat)
    requires Mergeable(h, b, m, e) && b + m < e
    ensures b + m in h && h[b + m].next == (if b + m + h[b + m].size == e then 0 else b + m + h[b + m].size)
    ensures Tiles(h, b + m, e, 0)
    ensures !h[b + m].used ==> Mergeable(h, b, m + h[b + m].size, e)
  {
    Head(h, b + m, e);
    Separate(h, b + m + h[b + m].size, e);
    TailStep(BlocksIn(h, b, e), b + m, b + m + h[b + m].size, BlocksIn(h, b + m + h[b + m].size, e),
             Block(h[b + m].size, h[b + m].used));
    hide BlocksIn, Tiles;
  }

  lemma TailStep(bs: Blocks, x: nat, y: nat, rest: Blocks, block: Block)
    requires rest[x := block] == Tail(bs, x) && x < y && forall z :: z in rest ==> y <= z
    ensures rest == Tail(bs, y) && x in bs && bs[x] == block
    ensures forall z :: z in bs && x < z ==> y <= z
  {
    assert x in Tail(bs, x);
    forall z | z in bs && x < z
      ensures z in rest && rest[z] == bs[z]
    {
      assert z in Tail(bs, x);
    }
    forall z | z in rest
      ensures z in bs
    {
      assert z in Tail(bs, x);
    }
  }

  lemma MergedMap(front: Blocks, back: Blocks, b: nat, m: nat, e: nat)
    requires (forall x :: x in front ==> x < b) && (forall x :: x in back ==> b <= x) && m > 0
    requires FreeBetween(back, b, b + m) && (b + m == e || (b + m in back && back[b + m].used))
    ensures Merged(front + back, front + Tail(back, b + m)[b := Block(m, false)], b, m, e)
  {
  }

  /** The headers after `kfree` has merged `m` bytes into block `b`. */
  lemma MergeTiles(h: Headers, a: nat, b: nat, m: nat, e: nat, h': Headers)
    requires Tiles(h, a, b, b) && Tiles(h, b, e, 0) && a <= b < e && Mergeable(h, b, m, e)
    requires h' == h[b := Header(if b + m == e then 0 else b + m, m, false)]
    requires b + m < e ==> b + m in h && h[b + m].used
    ensures Tiles(h', a, e, 0)
    ensures Merged(BlocksIn(h, a, e), BlocksIn(h', a, e), b, m, e)
  {
    hide Tiles, BlocksIn;
    Separate(h, a, b);
    Separate(h, b, e);
    Separate(h, b + m, e);
    Frame(h, h', b + m, e, 0);
    Cons(h', b, e);
    Replace(h, a, b, e, h');
    Join(h, a, b, e, 0);
    if b + m < e {
      Head(h, b + m, e);
      assert b + m in Tail(BlocksIn(h, b, e), b + m);
    }
    MergedMap(BlocksIn(h, a, b), BlocksIn(h, b, e), b, m, e);
    hide Merged, FreeBetween, Tail;
  }

  lemma ServeMerged(bs: Blocks, asked: map<nat, nat>, bs': Blocks, b: nat, m: nat, e: nat)
    requires Serves(bs, asked) && b in asked && Merged(bs, bs', b, m, e) && m > 0
    ensures Serves(bs', asked - {b}) && Keeps(bs, bs', asked - {b})
  {
  }

  lemma Apart(h: Headers, a: nat, e: nat)
    ensures var bs := BlocksIn(h, a, e);
            forall x, y :: x in bs && y in bs && x < y ==> x + bs[x].size <= y
  {
    forall x, y | x in BlocksIn(h, a, e) && y in BlocksIn(h, a, e) && x < y
      ensures x + BlocksIn(h, a, e)[x].size <= y
    {
      Disjoint(h, a, e, x, y);
    }
  }

  /** What a client holds: the pointer it was given and what it asked for. */
  datatype Grant = Grant(p: nat, size: nat)

  datatype Op =
    | Malloc(client: nat, size: nat, avail: nat)
    | Free(client: nat)
    | Refused(p: nat)
    | Store(client: nat, offset: nat, word: Option<Header>)

  /** The blocks, the end of the heap and what the clients hold. */
  datatype Moment = Moment(blocks: Blocks, end: nat, clients: map<nat, Grant>)

  /** The client holds nothing yet, the size does not wrap, and all the pages that growth may need can be had. */
  predicate MayAsk(k: nat, size: nat, avail: nat, end: nat, clients: map<nat, Grant>) {
    k !in clients && size <= MAX_REQUEST && PagesFor(Rounded(size)) <= avail && end + avail * PAGE_SIZE <= KERNEL_TOP
  }

  /** Block `b` was cut from a heap that had grown by `more` bytes. */
  ghost predicate GrownFor(bs: Blocks, bs': Blocks, b: nat, e: nat, more: nat, n: nat) {
    exists grown :: GrownBy(bs, grown, b, e, more) && Fits(grown, b, n) && bs' == Carve(grown, b, n)
  }

  /** Block `b` is free again, together with the free blocks behind it. */
  ghost predicate Freed(bs: Blocks, bs': Blocks, b: nat, e: nat) {
    exists m: nat :: Merged(bs, bs', b, m, e)
  }

  /** The grant of client `k` comes from the first block that fits, or from new pages if there is none. */
  ghost predicate Placed(k: nat, size: nat, m: Moment, m': Moment) {
    && k in m'.clients && m'.clients[k].p >= HEADER && m'.clients == m.clients[k := Grant(m'.clients[k].p, size)]
    && var b, n := m'.clients[k].p - HEADER, Rounded(size);
    if NoFit(m.blocks, n) then
      && m'.end == m.end + PagesFor(n) * PAGE_SIZE
      && GrownFor(m.blocks, m'.blocks, b, m.end, PagesFor(n) * PAGE_SIZE, n)
    else
      m'.end == m.end && FirstFit(m.blocks, b, n) && m'.blocks == Carve(m.blocks, b, n)
  }

  /** What an operation must do. Only a request that would wrap the growth, and finds no block, is turned down. */
  ghost predicate Performed(op: Op, m: Moment, m': Moment) {
    match op
    case Malloc(k, size, avail) =>
      if MayAsk(k, size, avail, m.end, m.clients) && (NoFit(m.blocks, Rounded(size)) ==>
                                                        PagesFor(Rounded(size)) > 0) then
        Placed(k, size, m, m')
      else
        m' == m
    case Free(k) =>
      if k in m.clients then
        && m'.clients == m.clients - {k} && m'.end == m.end && m.clients[k].p >= HEADER
        && Freed(m.blocks, m'.blocks, m.clients[k].p - HEADER, m.end)
      else
        m' == m
    case _ => m' == m
  }

  /** While there are pages for it, every request that does not wrap is granted, and nobody else's grant changes. */
  lemma AskedIsGranted(k: nat, size: nat, avail: nat, m: Moment, m': Moment)
    requires Performed(Malloc(k, size, avail), m, m') && k !in m.clients && size + 4128 <= 0x1_0000_0000
    requires size + 4128 <= avail * 4096 && m.end + avail * 4096 <= 0xff80_0000
    ensures k in m'.clients && m'.clients[k].size == size && m'.clients == m.clients[k := m'.clients[k]]
  {
    RequestLimit(size);
    PagesCover(Rounded(size));
    hide NoFit, FirstFit, Fits, Carve, GrownBy, GrownFor, Rounded, PagesFor;
  }

  ghost predicate Granted(clients: map<nat, Grant>, asked: map<nat, nat>) {
    && (forall k :: k in clients ==> clients[k].p >= HEADER && clients[k].p - HEADER in asked &&
                                     asked[clients[k].p - HEADER] == clients[k].size)
    && (forall k, l :: k in clients && l in clients && clients[k].p == clients[l].p ==> k == l)
  }

  /** Client `k` holds the same grant, in the same block. */
  ghost predicate Untouched(clients: map<nat, Grant>, live: map<nat, Grant>, bs: Blocks, bs': Blocks, k: nat) {
    && k in clients && k in live && live[k] == clients[k] && clients[k].p >= HEADER
    && clients[k].p - HEADER in bs && clients[k].p - HEADER in bs'
    && bs'[clients[k].p - HEADER] == bs[clients[k].p - HEADER]
  }

  lemma GrantsKept(clients: map<nat, Grant>, asked: map<nat, nat>, bs: Blocks, bs': Blocks)
    requires Granted(clients, asked) && Keeps(bs, bs', asked)
    ensures forall k :: k in clients ==> Untouched(clients, clients, bs, bs', k)
  {
  }

  lemma GrantAdded(clients: map<nat, Grant>, asked: map<nat, nat>, bs: Blocks, bs': Blocks, k: nat, p: nat, size: nat)
    requires Granted(clients, asked) && Keeps(bs, bs', asked) && k !in clients && p >= HEADER && p - HEADER !in asked
    ensures Granted(clients[k := Grant(p, size)], asked[p - HEADER := size])
    ensures forall j :: j in clients ==> Untouched(clients, clients[k := Grant(p, size)], bs, bs', j)
  {
  }

  lemma GrantDropped(clients: map<nat, Grant>, asked: map<nat, nat>, bs: Blocks, bs': Blocks, k: nat)
    requires Granted(clients, asked) && k in clients && clients[k].p >= HEADER &&
             Keeps(bs, bs', asked - {clients[k].p - HEADER})
    ensures Granted(clients - {k}, asked - {clients[k].p - HEADER})
    ensures forall j :: j in clients && j != k ==> Untouched(clients, clients - {k}, bs, bs', j)
  {
  }

  class Heap {
    var headers: Headers
    var start: nat
    var end: nat

    /** What each live block was asked for. */
    ghost var asked: map<nat, nat>

    ghost function BlockMap(): Blocks
      reads this
    {
      BlocksIn(headers, start, end)
    }

    ghost predicate Tiled(e: nat)
      reads this
    {
      && KERNEL_BASE <= start < end <= KERNEL_TOP && IsAligned(start)
      && start < e && Tiles(headers, start, e, 0)
    }

    ghost predicate Valid()
      reads this
    {
      Tiled(end) && Serves(BlockMap(), asked)
    }

    /**
     * `kheap_sbrk`. `avail` pages can be had before the frame allocator or the kernel mapping refuses one.
     * The refused page is counted, so the result is the growth exactly when no page was refused.
     */
    method Sbrk(increment: nat, avail: nat) returns (got: nat)
      requires increment < WORD
      modifies this`end
      ensures var pages := PagesFor(increment);
              && end == old(end) + (if avail < pages then avail else pages) * PAGE_SIZE
              && got == (if avail < pages then avail + 1 else pages) * PAGE_SIZE
      ensures got == end - old(end) <==> PagesFor(increment) <= avail
      ensures IsAligned(got)
    {
      var pages := PagesFor(increment);
      var i, err := 0, false;
      while i < pages && !err
        invariant i <= pages
        invariant end == old(end) + (if err then i - 1 else i) * PAGE_SIZE
        invariant if err then i == avail + 1 else i <= avail
        decreases pages - i
      {
        if i == avail {
          err := true;
        } else {
          end := end + PAGE_SIZE;
        }
        i := i + 1;
      }
      got := i * PAGE_SIZE;
    }

    /**
     * `kheap_init` and `kmalloc_init`; 128 pages are asked for, but the heap is set up even when the last one is
     * refused.
     */
    method Init(first: nat, avail: nat) returns (ok: bool)
      requires KERNEL_BASE <= first && IsAligned(first) && first + avail * PAGE_SIZE <= KERNEL_TOP
      modifies this
      ensures start == first && (ok <==> avail >= INITIAL_SIZE / PAGE_SIZE - 1)
      ensures ok ==> Valid() && asked == map[] && BlockMap() == map[start := Block(end - start, false)]
      ensures ok ==> end - start == (if avail == INITIAL_SIZE / PAGE_SIZE - 1 then
                                       INITIAL_SIZE - PAGE_SIZE else INITIAL_SIZE)
    {
      start, end := first, first;
      assert PagesFor(INITIAL_SIZE) == 128;
      var got := Sbrk(INITIAL_SIZE, avail);
      if got < INITIAL_SIZE {
        return false;
      }
      headers := headers[start := Header(0, end - start, false)];
      asked := map[];
      assert BlocksIn(headers, end, end) == map[];
      return true;
    }

    /** The search loop of `kmalloc`: the first free block that is large enough, or the last block. */
    method FindFit(n: nat) returns (block: nat)
      requires Tiled(end)
      ensures Tiles(headers, start, block, block) && Tiles(headers, block, end, 0) && start <= block < end &&
              block in headers
      ensures if headers[block].size < n || headers[block].used then NoFit(BlockMap(), n) && headers[block].next == 0
              else FirstFit(BlockMap(), block, n)
    {
      block := start;
      while headers[block].next != 0 && (headers[block].size < n || headers[block].used)
        invariant start <= block < end && block in headers
        invariant Tiles(headers, start, block, block) && Tiles(headers, block, end, 0)
        invariant forall x :: x in BlocksIn(headers, start, block) ==> !Fits(BlocksIn(headers, start, block), x, n)
        decreases end - block
      {
        ghost var b := block;
        block := headers[block].next;
        assert BlocksIn(headers, block, block) == map[];
        assert BlocksIn(headers, b, block) == map[b := Block(headers[b].size, headers[b].used)];
        Join(headers, start, b, block, block);
      }
      FitAt(headers, start, block, end, n);
    }

    /** The end of `kmalloc`: split the block when it is more than twice as large, and mark it used. */
    method Take(block: nat, n: nat, ghost e: nat)
      requires start <= block < e && block in headers && e - start < WORD / 2
      requires Tiles(headers, start, block, block) && Tiles(headers, block, e, 0)
      requires !headers[block].used && headers[block].size >= n && IsAligned(n)
      requires start > 0
      modifies this`headers
      ensures n > 0 ==> Tiles(headers, start, e, 0)
      ensures n > 0 ==>
                block in old(BlocksIn(headers, start, e)) && old(BlocksIn(headers, start, e))[block].size >= n &&
                        BlocksIn(headers, start, e) == Carve(old(BlocksIn(headers, start, e)), block, n)
      ensures n == 0 ==> forall x: nat :: start < x ==> !Tiles(headers, start, x, 0)
    {
      ghost var h := headers;
      if headers[block].size > Twice(n) {
        var size := headers[block].size;
        headers := headers[block := headers[block].(size := n)];
        var second := block + n;
        headers := headers[second := Header(headers[block].next, size - n, false)];
        headers := headers[block := headers[block].(next := second)];
      }
      headers := headers[block := headers[block].(used := true)];
      if n == 0 {
        SplitAtZero(h, start, block, e, headers);
      } else {
        hide Tiles, BlocksIn;
        CarveTiles(h, start, block, e, n, headers);
      }
    }

    /** The middle of `kmalloc`: the last block does not do, and the heap has been given `more` bytes. */
    method Extend(last: nat, more: nat, ghost e: nat) returns (block: nat)
      requires 0 < start <= last < e && last in headers && headers[last].next == 0 && 0 < more && IsAligned(more)
      requires Tiles(headers, start, last, last) && Tiles(headers, last, e, 0)
      modifies this`headers
      ensures Tiles(headers, start, block, block) && Tiles(headers, block, e + more, 0) && start <= block < e + more
      ensures block in headers && !headers[block].used && headers[block].size >= more
      ensures Tiles(headers, start, e + more, 0)
      ensures GrownBy(old(BlocksIn(headers, start, e)), BlocksIn(headers, start, e + more), block, e, more)
    {
      ghost var h := headers;
      if headers[last].used {
        block := last + headers[last].size;
        headers := headers[block := Header(0, more, false)];
        headers := headers[last := headers[last].(next := block)];
        ExtendByBlock(h, start, last, e, more, headers);
      } else {
        block := last;
        headers := headers[block := headers[block].(size := headers[block].size + more)];
        ExtendBlock(h, start, last, e, more, headers);
      }
    }

    /** The way through `kmalloc` when a block was found. */
    method TakeFound(block: nat, n: nat, ghost size: nat)
      requires Valid() && size < WORD && n == Rounded(size) && IsAligned(n)
      requires FirstFit(BlockMap(), block, n) && block in headers && headers[block].size >= n && !headers[block].used
      requires Tiles(headers, start, block, block) && Tiles(headers, block, end, 0) && start <= block < end
      modifies this`headers, this`asked
      ensures asked == old(asked)[block := size]
      ensures Valid() <==> size <= MAX_REQUEST
      ensures n > 0 ==> Tiled(end) && BlockMap() == Carve(old(BlockMap()), block, n)
      ensures n > 0 ==> Keeps(old(BlockMap()), BlockMap(), old(asked)) && block !in old(asked)
    {
      hide Tiles, BlocksIn, Rounded, Serves, Keeps;
      if n > 0 {
        KeepCarve(headers, start, end, asked, block, n);
      }
      RequestLimit(size);
      ServeCarve(headers, start, end, asked, block, size);
      Take(block, n, end);
      asked := asked[block := size];
    }

    /** ... and when the heap had to grow. */
    method TakeGrown(last: nat, n: nat, more: nat, ghost e: nat, ghost size: nat)
      returns (p: nat, block: nat, ghost grown: Blocks)
      requires size < WORD && 0 < n == Rounded(size) && IsAligned(n) && 0 < more && IsAligned(more)
      requires KERNEL_BASE <= start <= last < e <= end <= KERNEL_TOP && IsAligned(start)
      requires last in headers && headers[last].next == 0 && e + more <= end + PAGE_SIZE
      requires Tiles(headers, start, last, last) && Tiles(headers, last, e, 0) && Tiles(headers, start, e, 0)
      requires Serves(BlocksIn(headers, start, e), asked)
      modifies this`headers, this`asked
      ensures p == 0 || p == block + HEADER
      ensures n <= more ==> p != 0
      ensures asked == if p == 0 then old(asked) else old(asked)[block := size]
      ensures Tiled(e + more) && GrownBy(old(BlocksIn(headers, start, e)), grown, block, e, more)
      ensures p != 0 ==> Fits(grown, block, n) && BlocksIn(headers, start, e + more) == Carve(grown, block, n)
      ensures Serves(BlocksIn(headers, start, e + more), asked) <==> p == 0 || size <= MAX_REQUEST
      ensures Keeps(old(BlocksIn(headers, start, e)), BlocksIn(headers, start, e + more), old(asked))
      ensures p != 0 ==> block !in old(asked)
    {
      hide Tiles, BlocksIn, Rounded, Serves, GrownBy, Carve;
      ghost var h := headers;
      block := Extend(last, more, e);
      grown := BlocksIn(headers, start, e + more);
      ServeGrown(h, start, e, asked, grown, block, more);
      KeepGrown(h, start, e, asked, grown, block, more);
      if headers[block].size < n {
        return 0, block, grown;
      }
      BlockAt(headers, start, block, e + more, n);
      ServeCarve(headers, start, e + more, asked, block, size);
      KeepCarve(headers, start, e + more, asked, block, n);
      Take(block, n, e + more);
      p := block + HEADER;
      asked := asked[block := size];
    }

    /** `kmalloc`; `grown` is the heap after `kheap_sbrk`, when it was needed. */
    method Kmalloc(size: nat, avail: nat) returns (p: nat, ghost grown: Blocks)
      requires Valid() && size < WORD && end + avail * PAGE_SIZE <= KERNEL_TOP
      modifies this`headers, this`end, this`asked
      ensures p == 0 || p >= HEADER
      ensures asked == if p == 0 then old(asked) else old(asked)[p - HEADER := size]
      ensures Valid() <==> (size <= MAX_REQUEST || (Rounded(size) == 0 && NoFit(old(BlockMap()), 0))) &&
                           (NoFit(old(BlockMap()), Rounded(size)) ==> PagesFor(Rounded(size)) <= avail)
      ensures !NoFit(old(BlockMap()), Rounded(size)) && Rounded(size) > 0 ==>
                && p != 0 && FirstFit(old(BlockMap()), p - HEADER, Rounded(size)) && end == old(end)
                && Tiled(end) && BlockMap() == Carve(old(BlockMap()), p - HEADER, Rounded(size))
      ensures NoFit(old(BlockMap()), Rounded(size)) && PagesFor(Rounded(size)) == 0 ==>
                p == 0 && headers == old(headers) && end == old(end)
      ensures NoFit(old(BlockMap()), Rounded(size)) && 0 < PagesFor(Rounded(size)) <= avail ==>
                && p != 0 && end == old(end) + PagesFor(Rounded(size)) * PAGE_SIZE
                && GrownBy(old(BlockMap()), grown, p - HEADER, old(end), end - old(end))
                && Fits(grown, p - HEADER, Rounded(size))
                && Tiled(end) && BlockMap() == Carve(grown, p - HEADER, Rounded(size))
      ensures NoFit(old(BlockMap()), Rounded(size)) && avail < PagesFor(Rounded(size)) ==> Tiled(end + PAGE_SIZE)
      ensures Valid() ==> Keeps(old(BlockMap()), BlockMap(), old(asked)) && (p != 0 ==> p - HEADER !in old(asked))
    {
      hide Tiles, BlocksIn, Rounded, Serves, GrownBy, Carve, PagesFor, Keeps, IsAligned;
      Unmoved(BlockMap(), asked);
      var n := Rounded(size);
      RequestLimit(size);
      PagesCover(n);
      grown := BlockMap();
      var block := FindFit(n);
      if headers[block].size < n || headers[block].used {
        ghost var e := end;
        var more := Sbrk(n, avail);
        if more == 0 {
          return 0, grown;
        }
        p, block, grown := TakeGrown(block, n, more, e, size);
        if more != end - e {
          OverTop(headers, start, end);
        }
      } else {
        TakeFound(block, n, size);
        p := block + HEADER;
      }
    }

    /**
     * What `kfree` demands: the pointer is null, misaligned or has no used header before it, and is then
     * refused, or it is the payload of a block. Payload bytes that pass for a used header are not told apart.
     */
    ghost predicate Freeable(p: nat)
      reads this
    {
      p == 0 || !IsAligned(p) || p - HEADER !in headers || !headers[p - HEADER].used || p - HEADER in BlockMap()
    }

    lemma LiveHeader()
      requires Valid()
      ensures forall b :: b in asked ==>
                b in BlockMap() && start <= b < end && IsAligned(b + HEADER) && b in headers && headers[b].used
      ensures forall b :: b in headers && headers[b].used && b in BlockMap() ==> b in asked
    {
      forall b | b in BlockMap()
        ensures start <= b < end && IsAligned(b + HEADER) && b in headers && headers[b].used == BlockMap()[b].used
      {
        InRange(headers, start, end, b);
        Aligned(headers, start, end, 0, b);
        AlignedPayload(b);
      }
    }

    /** `kfree`; `m` is the size of the block afterwards. */
    method Kfree(p: nat) returns (ghost m: nat)
      requires Valid() && Freeable(p)
      modifies this`headers, this`asked
      ensures Valid()
      ensures if p >= HEADER && p - HEADER in old(asked) then
                asked == old(asked) - {p - HEADER} && Merged(old(BlockMap()), BlockMap(), p - HEADER, m, end)
              else
                headers == old(headers) && asked == old(asked)
      ensures Keeps(old(BlockMap()), BlockMap(), asked)
    {
      hide Tiles, BlocksIn, Serves, Merged, Keeps, IsAligned;
      Unmoved(BlockMap(), asked);
      m := 0;
      LiveHeader();
      if p == 0 || !IsAligned(p) {
        return;
      }
      var b := p - HEADER;
      if b !in headers || !headers[b].used {
        return;
      }
      m := MergeForward(b);
    }

    /** The loop of `kfree`: takes in the free blocks behind `b`. */
    method MergeForward(b: nat) returns (size: nat)
      requires Valid() && b in asked && b in headers && b in BlockMap() && start <= b < end
      modifies this`headers, this`asked
      ensures Valid() && asked == old(asked) - {b}
      ensures Merged(old(BlockMap()), BlockMap(), b, size, end) && Keeps(old(BlockMap()), BlockMap(), asked)
    {
      hide Tiles, BlocksIn, Serves, Merged, Mergeable, Keeps;
      ghost var h := headers;
      Cut(h, start, end, 0, b);
      MergeStart(h, b, end);
      Head(h, b, end);
      size := headers[b].size;
      var next := headers[b].next;
      if next != 0 {
        MergeStep(h, b, size, end);
      }
      while next != 0 && !headers[next].used
        invariant headers == h && asked == old(asked) && Mergeable(h, b, size, end) && 0 < size && b + size <= end
        invariant next == (if b + size == end then 0 else b + size)
        invariant next != 0 ==> next in headers
        decreases end - b - size
      {
        MergeStep(h, b, size, end);
        Head(h, next, end);
        size := size + headers[next].size;
        next := headers[next].next;
        if next != 0 {
          MergeStep(h, b, size, end);
        }
      }
      headers := headers[b := Header(next, size, false)];
      asked := asked - {b};
      MergeTiles(h, start, b, size, end, headers);
      ServeMerged(BlocksIn(h, start, end), old(asked), BlockMap(), b, size, end);
    }

    /** The owner of a live block writes into its payload; the bytes at `x` may now look like any header, or none. */
    method Write(b: nat, x: nat, word: Option<Header>)
      requires Valid() && b in asked && b + HEADER <= x < b + HEADER + asked[b]
      modifies this`headers
      ensures Valid() && BlockMap() == old(BlockMap())
    {
      ghost var h := headers;
      assert b + HEADER + asked[b] <= b + BlockMap()[b].size;
      PayloadFree(headers, start, end, b, x);
      headers := if word.Some? then headers[x := word.value] else headers - {x};
      hide Tiles, BlocksIn, Serves;
      Separate(h, start, end);
      Frame(h, headers, start, end, 0);
    }

    lemma BlocksInOrder()
      requires Valid()
      ensures InOrder(BlockMap(), end)
    {
      hide Tiles, BlocksIn, Serves;
      forall x | x in BlockMap()
        ensures 0 < BlockMap()[x].size && x + BlockMap()[x].size <= end
      {
        InRange(headers, start, end, x);
      }
      forall x, y | x in BlockMap() && y in BlockMap() && x < y
        ensures x + BlockMap()[x].size <= y
      {
        Disjoint(headers, start, end, x, y);
      }
    }

    /** The blocks cover the heap without gap or overlap. */
    lemma Cover(z: nat) returns (x: nat)
      requires Valid() && start <= z < end
      ensures x in BlockMap() && x <= z < x + BlockMap()[x].size
      ensures forall y :: y in BlockMap() && y <= z < y + BlockMap()[y].size ==> y == x
    {
      x := NoGap(headers, start, end, 0, z);
      Apart(headers, start, end);
      hide Tiles, BlocksIn, Serves;
    }

    /**
     * Every live payload is aligned, inside the heap, large enough for its request and at most twice the
     * rounded request; two of them never overlap.
     */
    lemma LivePayloads(b: nat, c: nat)
      requires Valid() && b in asked && c in asked
      ensures b in BlockMap() && c in BlockMap()
      ensures start <= b && b + BlockMap()[b].size <= end && IsAligned(b + HEADER)
      ensures asked[b] <= BlockMap()[b].size - HEADER && BlockMap()[b].size <= 2 * Rounded(asked[b])
      ensures b < c ==> b + BlockMap()[b].size <= c
    {
      hide Tiles, BlocksIn, Rounded;
      InRange(headers, start, end, b);
      Aligned(headers, start, end, 0, b);
      AlignedPayload(b);
      hide IsAligned;
      Apart(headers, start, end);
    }

    /** The heap as its clients see it. */
    ghost function Now(clients: map<nat, Grant>): Moment
      reads this
    {
      Moment(BlockMap(), end, clients)
    }

    /** A request of client `k`, while growth is satisfied in full. */
    method Request(k: nat, size: nat, avail: nat, clients: map<nat, Grant>) returns (live: map<nat, Grant>)
      requires Valid() && Granted(clients, asked)
      modifies this`headers, this`end, this`asked
      ensures Valid() && Granted(live, asked)
      ensures Performed(Malloc(k, size, avail), old(Now(clients)), Now(live))
      ensures forall j :: j in clients ==> Untouched(clients, live, old(BlockMap()), BlockMap(), j)
    {
      hide Tiles, BlocksIn, Serves, Rounded, PagesFor, Carve, GrownBy, NoFit, FirstFit, Keeps, Untouched, IsAligned,
           Fits;
      live := clients;
      ghost var bs, asked0 := BlockMap(), asked;
      Unmoved(bs, asked);
      GrantsKept(clients, asked, bs, bs);
      if MayAsk(k, size, avail, end, clients) {
        RequestLimit(size);
        var p, grown := Kmalloc(size, avail);
        GrantsKept(clients, asked0, bs, BlockMap());
        if p != 0 {
          live := live[k := Grant(p, size)];
          assert NoFit(bs, Rounded(size)) ==>
              GrownFor(bs, BlockMap(), p - HEADER, old(end), PagesFor(Rounded(size)) * PAGE_SIZE, Rounded(size));
          GrantAdded(clients, asked0, bs, BlockMap(), k, p, size);
        }
      }
    }

    /** Client `k` releases what it holds. */
    method Release(k: nat, clients: map<nat, Grant>) returns (live: map<nat, Grant>)
      requires Valid() && Granted(clients, asked)
      modifies this`headers, this`asked
      ensures Valid() && Granted(live, asked)
      ensures Performed(Free(k), old(Now(clients)), Now(live))
      ensures forall j :: j in clients && j != k ==> Untouched(clients, live, old(BlockMap()), BlockMap(), j)
    {
      hide Tiles, BlocksIn, Serves, Merged, Keeps, Untouched, IsAligned;
      live := clients;
      ghost var bs, asked0 := BlockMap(), asked;
      Unmoved(bs, asked);
      GrantsKept(clients, asked, bs, bs);
      if k in live {
        LiveHeader();
        ghost var m := Kfree(live[k].p);
        live := live - {k};
        assert Freed(bs, BlockMap(), clients[k].p - HEADER, end);
        GrantDropped(clients, asked0, bs, BlockMap(), k);
      }
    }

    /** One operation of a client that keeps to the rules, while growth is satisfied in full. */
    method Perform(op: Op, clients: map<nat, Grant>) returns (live: map<nat, Grant>)
      requires Valid() && Granted(clients, asked)
      modifies this`headers, this`end, this`asked
      ensures Valid() && Granted(live, asked)
      ensures Performed(op, old(Now(clients)), Now(live))
      ensures forall k :: k in clients && op != Free(k) ==> Untouched(clients, live, old(BlockMap()), BlockMap(), k)
    {
      hide Tiles, BlocksIn, Serves, Rounded, PagesFor, Carve, GrownBy, Merged, NoFit, FirstFit, Keeps, Untouched,
           IsAligned;
      live := clients;
      Unmoved(BlockMap(), asked);
      GrantsKept(clients, asked, BlockMap(), BlockMap());
      match op
      case Malloc(k, size, avail) => live := Request(k, size, avail, clients);
      case Free(k) => live := Release(k, clients);
      case Refused(p) =>
        if !IsAligned(p) || p == 0 {
          LiveHeader();
          ghost var _ := Kfree(p);
        }
      case Store(k, offset, word) =>
        if k in live && offset < live[k].size {
          Write(live[k].p - HEADER, live[k].p + offset, word);
        }
    }

    /**
     * Over any run the heap stays well-formed, every operation does what it must at the moment it comes, and a
     * grant that was not released is where it was.
     */
    method Run(ops: seq<Op>, clients: map<nat, Grant>) returns (live: map<nat, Grant>, ghost moments: seq<Moment>)
      requires Valid() && Granted(clients, asked)
      modifies this`headers, this`end, this`asked
      ensures Valid() && Granted(live, asked)
      ensures |moments| == |ops| + 1 && moments[0] == old(Now(clients)) && moments[|ops|] == Now(live)
      ensures forall i :: 0 <= i < |ops| ==> Performed(ops[i], moments[i], moments[i + 1])
      ensures forall k :: k in clients && Free(k) !in ops ==> Untouched(clients, live, old(BlockMap()), BlockMap(), k)
    {
      hide Tiles, BlocksIn, Granted, Performed;
      live, moments := clients, [Now(clients)];
      Unmoved(BlockMap(), asked);
      GrantsKept(clients, asked, BlockMap(), BlockMap());
      hide Serves, Keeps;
      for i := 0 to |ops|
        invariant Valid() && Granted(live, asked)
        invariant |moments| == i + 1 && moments[0] == old(Now(clients)) && moments[i] == Now(live)
        invariant forall j :: 0 <= j < i ==> Performed(ops[j], moments[j], moments[j + 1])
        invariant forall k :: k in clients && Free(k) !in ops[..i] ==>
                    Untouched(clients, live, old(BlockMap()), BlockMap(), k)
      {
        assert ops[..i + 1] == ops[..i] + [ops[i]];
        live := Perform(ops[i], live);
        moments := moments + [Now(live)];
      }
    }
  }
}
