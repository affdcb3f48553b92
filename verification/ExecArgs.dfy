/**
 * The argument block that `exec` lays out on the new user stack (kernel/exec.c), and how a program
 * reads it back.
 */
module ExecArgs {
  import opened Errors

  type Byte = b: int | 0 <= b < 256

  type Memory = map<nat, Byte>

  /** A C string without its terminator. */
  type Str = seq<Byte>

  const WORD_BYTES := 4
  const WORD := 0x1_0000_0000

  // Writing

  /** The four bytes of a 32-bit word, lowest first. */
  function Bytes(w: nat): seq<Byte> {
    [w % 256, w / 256 % 256, w / 65536 % 256, w / 16777216 % 256]
  }

  /** Memory after `data` has been written at `a`. */
  function Write(mem: Memory, a: nat, data: seq<Byte>): Memory {
    map x | x in mem :: if a <= x < a + |data| then data[x - a] else mem[x]
  }

  predicate Mapped(mem: Memory, a: nat, n: nat) {
    forall x: nat :: a <= x < a + n ==> x in mem
  }

  /** `user_args_data_size`: every string with its terminator. */
  function DataSize(args: seq<Str>): nat {
    if args == [] then 0 else DataSize(args[..|args| - 1]) + |args[|args| - 1]| + 1
  }

  /** `user_args_array_size`: the pointers and the final NULL. */
  function ArraySize(args: seq<Str>): nat {
    (|args| + 1) * WORD_BYTES
  }

  /** Where string `k` starts when the strings end at `top`. */
  function StartOf(args: seq<Str>, top: nat, k: nat): int
    requires k <= |args|
  {
    top - DataSize(args) + DataSize(args[..k])
  }

  function AlignDown(a: nat): nat {
    a - a % WORD_BYTES
  }

  function ArrayOf(args: seq<Str>, top: nat): nat
    requires DataSize(args) + ArraySize(args) <= top
  {
    AlignDown(top - DataSize(args) - ArraySize(args))
  }

  lemma {:induction false} DataGrows(args: seq<Str>, i: nat, k: nat)
    requires i < k <= |args|
    ensures DataSize(args[..i]) + |args[i]| + 1 == DataSize(args[..i + 1]) <= DataSize(args[..k])
    decreases k
  {
    assert args[..i + 1][..i] == args[..i];
    if i + 1 < k {
      assert args[..k][..k - 1] == args[..k - 1];
      DataGrows(args, i, k - 1);
    }
  }

  // Reading

  ghost function WordAt(mem: Memory, a: nat): nat {
    if Mapped(mem, a, WORD_BYTES) then
      mem[a] as int + 256 * mem[a + 1] as int + 65536 * mem[a + 2] as int + 16777216 * mem[a + 3] as int
    else
      0
  }

  /** The C string at `a`, read up to its terminator or to `limit`. */
  ghost function StringAt(mem: Memory, a: nat, limit: nat): Str
    decreases limit - a
  {
    if a < limit && a in mem && mem[a] != 0 then [mem[a]] + StringAt(mem, a + 1, limit) else []
  }

  /** The strings of a NULL-terminated array of pointers. */
  ghost function VectorAt(mem: Memory, a: nat, limit: nat): seq<Str>
    decreases limit - a
  {
    if a < limit && WordAt(mem, a) != 0 then
        [StringAt(mem, WordAt(mem, a), limit)] + VectorAt(mem, a + WORD_BYTES, limit) else []
  }

  /** `s` and its terminator lie at `a`. */
  ghost predicate Holds(mem: Memory, a: nat, data: seq<Byte>) {
    Mapped(mem, a, |data|) && forall x: nat :: a <= x < a + |data| ==> mem[x] == data[x - a]
  }

  ghost predicate NulFree(s: Str) {
    forall k :: 0 <= k < |s| ==> s[k] != 0
  }

  lemma Digits(w: nat)
    requires w < WORD
    ensures w == w % 256 + 256 * (w / 256 % 256) + 65536 * (w / 65536 % 256) + 16777216 * (w / 16777216 % 256)
  {
    assert w / 65536 == w / 256 / 256 && w / 16777216 == w / 65536 / 256;
  }

  lemma WordRoundTrip(mem: Memory, a: nat, w: nat)
    requires Holds(mem, a, Bytes(w)) && w < WORD
    ensures WordAt(mem, a) == w
  {
    Digits(w);
    assert mem[a] == Bytes(w)[0] && mem[a + 1] == Bytes(w)[1] && mem[a + 2] == Bytes(w)[2] && mem[a + 3] == Bytes(w)[3];
  }

  lemma {:induction false} StringRoundTrip(mem: Memory, a: nat, s: Str, limit: nat)
    requires Holds(mem, a, s + [0]) && NulFree(s) && a + |s| < limit
    ensures StringAt(mem, a, limit) == s
    decreases |s|
  {
    assert mem[a] == (s + [0])[0];
    if s != [] {
      assert (s + [0])[1..] == s[1..] + [0];
      StringRoundTrip(mem, a + 1, s[1..], limit);
    }
  }

  /** The block of `args` whose strings end at `top`: pointer `k` leads to string `k`, and NULL closes the array. */
  ghost predicate Laid(mem: Memory, args: seq<Str>, top: nat, table: nat, n: nat)
    requires n <= |args|
  {
    forall k :: 0 <= k < n ==>
      && 0 < StartOf(args, top, k) && Holds(mem, table + WORD_BYTES * k, Bytes(StartOf(args, top, k)))
      && Holds(mem, StartOf(args, top, k), args[k] + [0])
  }

  lemma StartBounds(args: seq<Str>, top: nat, k: nat)
    requires k < |args|
    ensures StartOf(args, top, 0) <= StartOf(args, top, k)
    ensures StartOf(args, top, k) + |args[k]| + 1 == StartOf(args, top, k + 1) <= top
  {
    DataGrows(args, k, |args|);
    assert args[..|args|] == args;
    assert args[..0] == [];
  }

  /** Reading the block back gives the strings, in order. */
  lemma {:induction false} VectorRoundTrip(mem: Memory, args: seq<Str>, top: nat, table: nat, i: nat, limit: nat)
    requires Laid(mem, args, top, table, |args|) && Holds(mem, table + WORD_BYTES * |args|, Bytes(0)) && i <= |args|
    requires (forall s :: s in args ==> NulFree(s)) && table + ArraySize(args) <= top < WORD && top < limit
    ensures VectorAt(mem, table + WORD_BYTES * i, limit) == args[i..]
    decreases |args| - i
  {
    hide Holds, WordAt, StringAt, StartOf, DataSize, NulFree, Bytes;
    if i == |args| {
      WordRoundTrip(mem, table + WORD_BYTES * i, 0);
    } else {
      StartBounds(args, top, i);
      WordRoundTrip(mem, table + WORD_BYTES * i, StartOf(args, top, i));
      assert args[i] in args;
      StringRoundTrip(mem, StartOf(args, top, i), args[i], limit);
      VectorRoundTrip(mem, args, top, table, i + 1, limit);
      assert args[i..] == [args[i]] + args[i + 1..];
    }
  }

  lemma WriteHolds(mem: Memory, a: nat, data: seq<Byte>)
    requires Mapped(mem, a, |data|)
    ensures Holds(Write(mem, a, data), a, data)
  {
  }

  lemma WriteElsewhere(mem: Memory, a: nat, data: seq<Byte>, b: nat, other: seq<Byte>)
    requires Holds(mem, b, other) && (b + |other| <= a || a + |data| <= b)
    ensures Holds(Write(mem, a, data), b, other)
  {
  }

  /** One turn of the loop of `user_args_copy_to_user`: string and pointer `i` are added, the earlier ones stay. */
  lemma LayOne(mem: Memory, args: seq<Str>, top: nat, table: nat, i: nat, mem': Memory)
    requires i < |args| && Laid(mem, args, top, table, i) && 0 < table &&
             table + ArraySize(args) <= StartOf(args, top, 0)
    requires 0 <= StartOf(args, top, i) && Mapped(mem, StartOf(args, top, i), |args[i]| + 1) &&
             Mapped(mem, table + WORD_BYTES * i, WORD_BYTES)
    requires mem' == Write(Write(mem, StartOf(args, top, i), args[i] + [0]), table + WORD_BYTES * i,
                           Bytes(StartOf(args, top, i)))
    ensures Laid(mem', args, top, table, i + 1)
  {
    hide Holds, Write, StartOf, DataSize, Mapped;
    var a, data := StartOf(args, top, i), args[i] + [0];
    var p, word := table + WORD_BYTES * i, Bytes(a);
    var mem1 := Write(mem, a, data);
    MappedKept(mem, a, data, p, WORD_BYTES);
    StartBounds(args, top, i);
    WriteHolds(mem, a, data);
    WriteElsewhere(mem1, p, word, a, data);
    WriteHolds(mem1, p, word);
    forall k | 0 <= k < i
      ensures Holds(mem', table + WORD_BYTES * k, Bytes(StartOf(args, top, k))) &&
              Holds(mem', StartOf(args, top, k), args[k] + [0])
    {
      StartBounds(args, top, k);
      StartOrder(args, top, k + 1, i);
      WriteElsewhere(mem, a, data, table + WORD_BYTES * k, Bytes(StartOf(args, top, k)));
      WriteElsewhere(mem1, p, word, table + WORD_BYTES * k, Bytes(StartOf(args, top, k)));
      WriteElsewhere(mem, a, data, StartOf(args, top, k), args[k] + [0]);
      WriteElsewhere(mem1, p, word, StartOf(args, top, k), args[k] + [0]);
    }
  }

  lemma MappedKept(mem: Memory, a: nat, data: seq<Byte>, b: nat, n: nat)
    requires Mapped(mem, b, n)
    ensures Mapped(Write(mem, a, data), b, n)
  {
  }

  lemma StartOrder(args: seq<Str>, top: nat, i: nat, k: nat)
    requires i <= k <= |args|
    ensures StartOf(args, top, i) <= StartOf(args, top, k)
  {
    if i < k {
      DataGrows(args, i, k);
    }
  }

  lemma LaidElsewhere(mem: Memory, args: seq<Str>, top: nat, table: nat, a: nat, data: seq<Byte>)
    requires Laid(mem, args, top, table, |args|) && table + ArraySize(args) <= StartOf(args, top, 0)
    requires a + |data| <= table || top <= a ||
             (table + WORD_BYTES * |args| <= a && a + |data| <= StartOf(args, top, 0))
    ensures Laid(Write(mem, a, data), args, top, table, |args|)
  {
    hide Holds, Write, DataSize, StartOf, Bytes;
    forall k | 0 <= k < |args|
      ensures Holds(Write(mem, a, data), table + WORD_BYTES * k, Bytes(StartOf(args, top, k)))
      ensures Holds(Write(mem, a, data), StartOf(args, top, k), args[k] + [0])
    {
      StartBounds(args, top, k);
      BytesLength(StartOf(args, top, k));
      WriteElsewhere(mem, a, data, table + WORD_BYTES * k, Bytes(StartOf(args, top, k)));
      WriteElsewhere(mem, a, data, StartOf(args, top, k), args[k] + [0]);
    }
  }

  /** Nothing outside [lo, hi) has changed. */
  ghost predicate SameOutside(mem: Memory, mem': Memory, lo: int, hi: int) {
    mem'.Keys == mem.Keys && forall x :: x in mem && !(lo <= x < hi) ==> mem'[x] == mem[x]
  }

  lemma BytesLength(w: nat)
    ensures |Bytes(w)| == WORD_BYTES
  {
  }

  lemma Nothing(mem: Memory, args: seq<Str>, top: nat, table: nat)
    ensures Laid(mem, args, top, table, 0)
  {
  }

  /** The array lies below the strings, aligned, with at most three bytes between them. */
  lemma ArrayFacts(args: seq<Str>, top: nat)
    requires DataSize(args) + ArraySize(args) + WORD_BYTES <= top
    ensures StartOf(args, top, 0) == top - DataSize(args)
    ensures 0 < ArrayOf(args, top) && ArrayOf(args, top) % WORD_BYTES == 0
    ensures 0 <= StartOf(args, top, 0) - (ArrayOf(args, top) + ArraySize(args)) < WORD_BYTES
  {
    assert args[..0] == [];
  }

  /** The three words under the argument array. */
  ghost function MainWritten(mem: Memory, args: nat, argc: nat, argv: nat, envp: nat): Memory {
    Write(Write(Write(mem, args + 8, Bytes(envp)), args + 4, Bytes(argv)), args, Bytes(argc))
  }

  /** Where the three words go: all addresses follow from the sizes. */
  function ArgsAt(top: nat, argv: seq<Str>, envp: seq<Str>): int
    requires DataSize(envp) + ArraySize(envp) + DataSize(argv) + ArraySize(argv) + 6 * WORD_BYTES <= top
  {
    ArrayOf(argv, ArrayOf(envp, top)) - 3 * WORD_BYTES
  }

  /**
   * The bound of argv's block is checked against the start of envp's block instead of the top of the stack: a
   * block no larger than the stack passes even if it lies below the bottom.
   */
  ghost predicate Spills(bottom: nat, size: nat, argv: seq<Str>, envp: seq<Str>) {
    && 0 < size && DataSize(envp) + ArraySize(envp) <= bottom + size - 1
    && var e := ArrayOf(envp, bottom + size - 1);
    && DataSize(argv) + ArraySize(argv) <= e
    && ArrayOf(argv, e) < bottom <= e && e - ArrayOf(argv, e) <= size
  }

  /** The stack that exec creates: one page below the end of the user half. */
  const STACK_SIZE := 4096
  const STACK_BOTTOM := 0xc0000000 - STACK_SIZE

  /** Four arguments of 1017 characters and no environment: the array of argv starts four bytes below the stack. */
  lemma SpillExample(arg: Str)
    requires |arg| == 1017
    ensures var argv := [arg, arg, arg, arg];
            && Spills(STACK_BOTTOM, STACK_SIZE, argv, [])
            && Lowest(STACK_BOTTOM, STACK_SIZE, argv, []) == STACK_BOTTOM - 4
  {
    var argv := [arg, arg, arg, arg];
    assert argv[..3] == [arg, arg, arg] && argv[..3][..2] == [arg, arg] && argv[..3][..2][..1] == [arg];
    assert DataSize([arg]) == 1018 && DataSize([arg, arg]) == 2036 && DataSize([arg, arg, arg]) == 3054;
    assert DataSize(argv) == 4072 && DataSize([]) == 0;
    assert ArrayOf([], STACK_BOTTOM + STACK_SIZE - 1) == 0xbffffff8;
    assert ArrayOf(argv, 0xbffffff8) == STACK_BOTTOM - 4;
  }

  /** The lowest byte that may be written. */
  ghost function Lowest(bottom: nat, size: nat, argv: seq<Str>, envp: seq<Str>): nat {
    if Spills(bottom, size, argv, envp) then ArrayOf(argv, ArrayOf(envp, bottom + size - 1)) else bottom
  }

  /** From the bottom up: the three words, argv's array, its strings, envp's array, its strings. */
  ghost predicate InStack(bottom: nat, top: nat, argv: seq<Str>, envp: seq<Str>, args: nat) {
    && DataSize(envp) + ArraySize(envp) <= top
    && var envpTable := ArrayOf(envp, top);
    && DataSize(argv) + ArraySize(argv) <= envpTable
    && var argvTable := ArrayOf(argv, envpTable);
    && bottom <= args && args % WORD_BYTES == 0 && args + 3 * WORD_BYTES == argvTable
    && argvTable + ArraySize(argv) <= StartOf(argv, envpTable, 0) && StartOf(argv, envpTable, |argv|) == envpTable
    && envpTable + ArraySize(envp) <= StartOf(envp, top, 0) && StartOf(envp, top, |envp|) == top
  }

  /** What the new program finds. */
  ghost predicate ReadsBack(mem: Memory, args: nat, limit: nat, argv: seq<Str>, envp: seq<Str>) {
    && WordAt(mem, args) == |argv|
    && VectorAt(mem, WordAt(mem, args + 4), limit) == argv
    && VectorAt(mem, WordAt(mem, args + 8), limit) == envp
  }

  /** How the parts of the block lie, whether it fits the stack or not. */
  lemma Places(bottom: nat, top: nat, argv: seq<Str>, envp: seq<Str>)
    requires bottom % WORD_BYTES == 0 && bottom <= top
    requires DataSize(envp) + ArraySize(envp) + DataSize(argv) + ArraySize(argv) + 6 * WORD_BYTES <= bottom
    ensures var e := ArrayOf(envp, top);
            && DataSize(argv) + ArraySize(argv) + WORD_BYTES <= e
            && var a := ArrayOf(argv, e);
            && 3 * WORD_BYTES <= a < e < top && a + ArraySize(argv) <= e && e + ArraySize(envp) <= top
            && a + ArraySize(argv) <= StartOf(argv, e, 0) && e + ArraySize(envp) <= StartOf(envp, top, 0)
            && (bottom <= a - 3 * WORD_BYTES + 1 ==> InStack(bottom, top, argv, envp, a - 3 * WORD_BYTES))
            && (bottom <= a - 3 * WORD_BYTES <==> bottom <= a - 3 * WORD_BYTES + 1)
  {
    assert argv[..|argv|] == argv && envp[..|envp|] == envp;
    hide DataSize, AlignDown;
    ArrayFacts(envp, top);
    var e := ArrayOf(envp, top);
    ArrayFacts(argv, e);
    WordBelow(bottom, ArrayOf(argv, e));
    hide ArrayOf;
  }

  /** The bounds checked for the two arrays, in terms of the bottom. */
  lemma TablePlaces(bottom: nat, size: nat, argv: seq<Str>, envp: seq<Str>)
    requires bottom % WORD_BYTES == 0 && 0 < size
    requires DataSize(envp) + ArraySize(envp) + DataSize(argv) + ArraySize(argv) + 6 * WORD_BYTES <= bottom
    ensures var e := ArrayOf(envp, bottom + size - 1);
            && DataSize(argv) + ArraySize(argv) + WORD_BYTES <= e
            && (e + size < bottom + size - 1 <==> e < bottom)
            && (ArrayOf(argv, e) - 3 * WORD_BYTES + size >= bottom + size - 1 ==>
                  ArrayOf(argv, e) - 3 * WORD_BYTES >= bottom)
  {
    hide DataSize, AlignDown;
    ArrayFacts(envp, bottom + size - 1);
    ArrayFacts(argv, ArrayOf(envp, bottom + size - 1));
    WordBelow(bottom, ArrayOf(argv, ArrayOf(envp, bottom + size - 1)));
    hide ArrayOf;
  }

  lemma WordBelow(bottom: nat, a: nat)
    requires bottom % WORD_BYTES == 0 && a % WORD_BYTES == 0
    ensures (a - 3 * WORD_BYTES) % WORD_BYTES == 0
    ensures bottom <= a - 3 * WORD_BYTES <==> bottom <= a - 3 * WORD_BYTES + 1
  {
  }

  lemma HoldsSame(mem: Memory, mem': Memory, a: nat, data: seq<Byte>, lo: int, hi: int)
    requires Holds(mem, a, data) && SameOutside(mem, mem', lo, hi) && (a + |data| <= lo || hi <= a)
    ensures Holds(mem', a, data)
  {
  }

  lemma LaidSame(mem: Memory, mem': Memory, args: seq<Str>, top: nat, table: nat, lo: int, hi: int)
    requires Laid(mem, args, top, table, |args|) && Holds(mem, table + WORD_BYTES * |args|, Bytes(0))
    requires table + ArraySize(args) <= StartOf(args, top, 0) && SameOutside(mem, mem', lo, hi) && hi <= table
    ensures Laid(mem', args, top, table, |args|) && Holds(mem', table + WORD_BYTES * |args|, Bytes(0))
  {
    hide Holds, DataSize, StartOf, Bytes, SameOutside;
    HoldsSame(mem, mem', table + WORD_BYTES * |args|, Bytes(0), lo, hi);
    forall k | 0 <= k < |args|
      ensures Holds(mem', table + WORD_BYTES * k, Bytes(StartOf(args, top, k)))
      ensures Holds(mem', StartOf(args, top, k), args[k] + [0])
    {
      StartBounds(args, top, k);
      HoldsSame(mem, mem', table + WORD_BYTES * k, Bytes(StartOf(args, top, k)), lo, hi);
      HoldsSame(mem, mem', StartOf(args, top, k), args[k] + [0], lo, hi);
    }
  }

  lemma MainReads(mem: Memory, args: nat, argc: nat, argv: nat, envp: nat)
    requires Mapped(mem, args, 3 * WORD_BYTES) && argc < WORD && argv < WORD && envp < WORD
    ensures var mem' := MainWritten(mem, args, argc, argv, envp);
            WordAt(mem', args) == argc && WordAt(mem', args + 4) == argv && WordAt(mem', args + 8) == envp
  {
    hide Write, Bytes, WordAt;
    BytesLength(argc);
    BytesLength(argv);
    BytesLength(envp);
    var mem1 := Write(mem, args + 8, Bytes(envp));
    var mem2 := Write(mem1, args + 4, Bytes(argv));
    var mem3 := Write(mem2, args, Bytes(argc));
    WriteHolds(mem, args + 8, Bytes(envp));
    MappedKept(mem, args + 8, Bytes(envp), args, 3 * WORD_BYTES);
    WriteElsewhere(mem1, args + 4, Bytes(argv), args + 8, Bytes(envp));
    WriteHolds(mem1, args + 4, Bytes(argv));
    MappedKept(mem1, args + 4, Bytes(argv), args, 3 * WORD_BYTES);
    WriteElsewhere(mem2, args, Bytes(argc), args + 8, Bytes(envp));
    WriteElsewhere(mem2, args, Bytes(argc), args + 4, Bytes(argv));
    WriteHolds(mem2, args, Bytes(argc));
    hide Holds;
    WordRoundTrip(mem3, args, argc);
    WordRoundTrip(mem3, args + 4, argv);
    WordRoundTrip(mem3, args + 8, envp);
  }

  class UserStack {
    var mem: Memory

    /** `copy_to_user`; what a fault leaves behind is not described. */
    method CopyToUser(a: nat, data: seq<Byte>) returns (err: Errno)
      modifies this
      ensures SameOutside(old(mem), mem, a, a + |data|)
      ensures err == if Mapped(old(mem), a, |data|) then Ok else EFAULT
      ensures err == Ok ==> mem == Write(old(mem), a, data)
    {
      if !Mapped(mem, a, |data|) {
        return EFAULT;
      }
      mem := Write(mem, a, data);
      return Ok;
    }

    /** One turn of the loop of `user_args_copy_to_user`. */
    method CopyOne(args: seq<Str>, top: nat, table: nat, i: nat, data: nat) returns (err: Errno)
      requires i < |args| && data == StartOf(args, top, i) && Laid(mem, args, top, table, i)
      requires 0 < table && table + ArraySize(args) <= StartOf(args, top, 0)
      modifies this
      ensures SameOutside(old(mem), mem, table, top) && err in {Ok, EFAULT}
      ensures Mapped(old(mem), table, top - table) ==> err == Ok
      ensures err == Ok ==> Laid(mem, args, top, table, i + 1)
    {
      hide Laid, Holds, StartOf, DataSize, Write, Bytes;
      StartBounds(args, top, i);
      err := CopyToUser(data, args[i] + [0]);
      if err != Ok {
        return;
      }
      assert |Bytes(data)| == WORD_BYTES by {
        BytesLength(data);
      }
      MappedKept(old(mem), data, args[i] + [0], table + WORD_BYTES * i, 0);
      err := CopyToUser(table + WORD_BYTES * i, Bytes(data));
      if err == Ok {
        LayOne(old(mem), args, top, table, i, mem);
      }
    }

    /** `user_args_copy_to_user` */
    method CopyArgs(args: seq<Str>, top: nat, size: nat) returns (err: Errno, table: nat)
      requires DataSize(args) + ArraySize(args) + WORD_BYTES <= top && top + size < WORD
      modifies this
      ensures table == ArrayOf(args, top) && SameOutside(old(mem), mem, table, top)
      ensures err == ENOMEM <==> table + size < top
      ensures err == ENOMEM ==> mem == old(mem)
      ensures table + size >= top && Mapped(old(mem), table, top - table) ==> err == Ok
      ensures err == Ok ==> Laid(mem, args, top, table, |args|) && Holds(mem, table + WORD_BYTES * |args|, Bytes(0))
    {
      hide Laid, Holds, DataSize, Bytes, Write;
      var data := top - DataSize(args);
      table := AlignDown(data - ArraySize(args));
      ArrayFacts(args, top);
      if table + size < top {
        return ENOMEM, table;
      }
      Nothing(mem, args, top, table);
      for i := 0 to |args|
        invariant data == StartOf(args, top, i) && SameOutside(old(mem), mem, table, top)
        invariant Laid(mem, args, top, table, i)
      {
        hide StartOf, AlignDown;
        StartBounds(args, top, i);
        err := CopyOne(args, top, table, i, data);
        if err != Ok {
          return err, table;
        }
        data := data + |args[i]| + 1;
      }
      ghost var mem0 := mem;
      BytesLength(0);
      err := CopyToUser(table + WORD_BYTES * |args|, Bytes(0));
      if err == Ok {
        WriteHolds(mem0, table + WORD_BYTES * |args|, Bytes(0));
        LaidElsewhere(mem0, args, top, table, table + WORD_BYTES * |args|, Bytes(0));
      }
    }

    /** `main_args_copy_to_user`: argc, argv and envp below the argument array. */
    method CopyMainArgs(argc: nat, argv: nat, envp: nat, top: nat, size: nat) returns (err: Errno, args: nat)
      requires argv >= 3 * WORD_BYTES && argv + size < WORD
      modifies this
      ensures args == argv - 3 * WORD_BYTES && SameOutside(old(mem), mem, args, argv)
      ensures err == ENOMEM <==> args + size < top
      ensures err == ENOMEM ==> mem == old(mem)
      ensures args + size >= top && Mapped(old(mem), args, 3 * WORD_BYTES) ==> err == Ok
      ensures err == Ok ==>
                mem == MainWritten(old(mem), args, argc, argv, envp) && Mapped(old(mem), args, 3 * WORD_BYTES)
    {
      hide Bytes, Write;
      args := argv - 3 * WORD_BYTES;
      if args + size < top {
        return ENOMEM, args;
      }
      BytesLength(envp);
      BytesLength(argv);
      BytesLength(argc);
      err := CopyToUser(args + 8, Bytes(envp));
      if err != Ok {
        return err, args;
      }
      err := CopyToUser(args + 4, Bytes(argv));
      if err != Ok {
        return err, args;
      }
      err := CopyToUser(args, Bytes(argc));
    }

    /**
     * `setup_user_args`. Success means that everything lies inside the stack and that argc, argv and envp
     * read back are what was given; and it succeeds whenever there is room for it all. Bytes below the stack
     * are written if and only if argv's block spills, and then the call fails.
     */
    method Setup(bottom: nat, size: nat, argv: seq<Str>, envp: seq<Str>) returns (err: Errno, args: nat)
      requires bottom % WORD_BYTES == 0 && 0 < size && bottom + 2 * size < WORD
      requires DataSize(envp) + ArraySize(envp) + DataSize(argv) + ArraySize(argv) + 6 * WORD_BYTES <= bottom
      requires (forall s :: s in argv ==> NulFree(s)) && (forall s :: s in envp ==> NulFree(s)) && |argv| < WORD
      modifies this
      ensures err == Ok ==>
                InStack(bottom, bottom + size - 1, argv, envp, args) &&
                SameOutside(old(mem), mem, args, bottom + size - 1)
      ensures err == Ok ==> ReadsBack(mem, args, bottom + size, argv, envp)
      ensures Mapped(old(mem), bottom, size) ==> (err == Ok <==> ArgsAt(bottom + size - 1, argv, envp) >= bottom)
      ensures SameOutside(old(mem), mem, Lowest(bottom, size, argv, envp), bottom + size - 1)
      ensures Spills(bottom, size, argv, envp) ==> err != Ok
      ensures Spills(bottom, size, argv, envp) && Mapped(old(mem), bottom, size) ==>
                var a, e := Lowest(bottom, size, argv, envp), ArrayOf(envp, bottom + size - 1);
                Mapped(old(mem), a, bottom - a) ==> err == ENOMEM && Laid(mem, argv, e, a, |argv|)
    {
      hide Laid, Holds, Write, Bytes, DataSize, WordAt, VectorAt, NulFree, ArraySize, StartOf, AlignDown, ArrayOf;
      var top := bottom + size - 1;
      var envpTable, argvTable: nat;
      Places(bottom, top, argv, envp);
      TablePlaces(bottom, size, argv, envp);
      err, envpTable := CopyArgs(envp, top, size);
      if err != Ok {
        return err, 0;
      }
      ghost var mem1 := mem;
      err, argvTable := CopyArgs(argv, envpTable, size);
      if err != Ok {
        return err, 0;
      }
      ghost var mem2 := mem;
      LaidSame(mem1, mem2, envp, top, envpTable, argvTable, envpTable);
      err, args := CopyMainArgs(|argv|, argvTable, envpTable, top, size);
      if err != Ok {
        return err, 0;
      }
      LaidSame(mem2, mem, envp, top, envpTable, args, argvTable);
      LaidSame(mem2, mem, argv, envpTable, argvTable, args, argvTable);
      MainReads(mem2, args, |argv|, argvTable, envpTable);
      VectorRoundTrip(mem, argv, envpTable, argvTable, 0, bottom + size);
      VectorRoundTrip(mem, envp, top, envpTable, 0, bottom + size);
      assert argv[0..] == argv && envp[0..] == envp;
    }
  }
}
