/**
 * The byte ring of include/libk/deque.h and the pipe built on it (fs/pipe.c).
 */
module Pipes {
  import opened Errors

  /** PIPE_BUFFER_SIZE: one slot of the ring always stays empty. */
  const BUFFER_SIZE := 128

  type Byte = b: int | 0 <= b < 256

  /** The next index of a ring of `n` slots. */
  function After(i: nat, n: nat): (r: nat)
    requires i < n
    ensures r == if i + 1 == n then 0 else i + 1
  {
    (i + 1) % n
  }

  class Deque {
    const buffer: array<Byte>
    var head: nat
    var tail: nat

    ghost predicate Valid()
      reads this
    {
      head < buffer.Length && tail < buffer.Length
    }

    /** The bytes from head to tail, around the end of the buffer. */
    ghost function Contents(): seq<Byte>
      requires Valid()
      reads this, buffer
    {
      if head <= tail then buffer[head..tail] else buffer[head..] + buffer[..tail]
    }

    predicate Empty()
      reads this
    {
      head == tail
    }

    predicate Full()
      requires Valid()
      reads this
    {
      After(tail, buffer.Length) == head
    }

    constructor (size: nat)
      requires size > 0
      ensures Valid() && fresh(buffer) && buffer.Length == size && Contents() == []
    {
      buffer := new Byte[size](_ => 0);
      head, tail := 0, 0;
    }

    /** The ring is full one byte before its size. */
    lemma Capacity()
      requires Valid()
      ensures |Contents()| < buffer.Length
      ensures Empty() <==> Contents() == []
      ensures Full() <==> |Contents()| == buffer.Length - 1
    {
      hide After;
    }

    method PushBack(data: Byte) returns (err: Errno)
      requires Valid()
      modifies this`tail, buffer
      ensures Valid()
      ensures err == if |old(Contents())| == buffer.Length - 1 then ENOSPC else Ok
      ensures Contents() == if err == Ok then old(Contents()) + [data] else old(Contents())
    {
      hide After;
      Capacity();
      if Full() {
        return ENOSPC;
      }
      buffer[tail] := data;
      tail := After(tail, buffer.Length);
      return Ok;
    }

    method PushFront(data: Byte) returns (err: Errno)
      requires Valid()
      modifies this`head, buffer
      ensures Valid()
      ensures err == if |old(Contents())| == buffer.Length - 1 then ENOSPC else Ok
      ensures Contents() == if err == Ok then [data] + old(Contents()) else old(Contents())
    {
      hide After;
      Capacity();
      if Full() {
        return ENOSPC;
      }
      head := if head == 0 then buffer.Length - 1 else head - 1;
      buffer[head] := data;
      return Ok;
    }

    method PopFront() returns (err: Errno, data: Byte)
      requires Valid()
      modifies this`head
      ensures Valid()
      ensures err == if old(Contents()) == [] then ESPIPE else Ok
      ensures if err == Ok then old(Contents()) == [data] + Contents() else Contents() == old(Contents())
    {
      hide After;
      Capacity();
      data := 0;
      if Empty() {
        return ESPIPE, data;
      }
      data := buffer[head];
      head := After(head, buffer.Length);
      err := Ok;
    }

    method PopBack() returns (err: Errno, data: Byte)
      requires Valid()
      modifies this`tail
      ensures Valid()
      ensures err == if old(Contents()) == [] then ESPIPE else Ok
      ensures if err == Ok then old(Contents()) == Contents() + [data] else Contents() == old(Contents())
    {
      hide After;
      Capacity();
      data := 0;
      if Empty() {
        return ESPIPE, data;
      }
      tail := if tail == 0 then buffer.Length - 1 else tail - 1;
      data := buffer[tail];
      err := Ok;
    }
  }

  /** What a visit comes to; a change of the ends comes to nothing. */
  datatype Outcome = Asleep | EndOfFile | BrokenPipe | Moved(data: seq<Byte>) | Changed

  /** One visit to the pipe's lock: a call, or the return of a sleeper. */
  datatype Visit =
    | Read(count: nat, woken: bool)
    | Write(data: seq<Byte>, woken: bool)
    | Ends(readers: nat, writers: nat)

  /** A pipe without its ring: the bytes in it and the numbers of open ends. */
  datatype State = State(buffered: seq<Byte>, readers: nat, writers: nat)

  function Min(a: nat, b: nat): nat {
    if a <= b then a else b
  }

  /** What a visit must come to, and what it leaves. */
  function Visited(v: Visit, s: State): (Outcome, State)
    requires |s.buffered| < BUFFER_SIZE
  {
    match v
    case Read(count, woken) =>
      if s.buffered == [] then (if s.writers == 0 && !woken then EndOfFile else Asleep, s)
      else
        var n := if count == 0 then 1 else Min(count, |s.buffered|);
        (Moved(s.buffered[..n]), s.(buffered := s.buffered[n..]))
    case Write(data, woken) =>
      if s.readers == 0 && !woken then (BrokenPipe, s)
      else if |s.buffered| == BUFFER_SIZE - 1 then (Asleep, s)
      else
        var n := Min(|data|, BUFFER_SIZE - 1 - |s.buffered|);
        (Moved(data[..n]), s.(buffered := s.buffered + data[..n]))
    case Ends(r, w) => (Changed, s.(readers := r, writers := w))
  }

  /** A run of visits: their outcomes and the state they leave. */
  function Visits(visits: seq<Visit>, s: State): (r: (seq<Outcome>, State))
    requires |s.buffered| < BUFFER_SIZE
    ensures |r.0| == |visits| && |r.1.buffered| < BUFFER_SIZE
  {
    if visits == [] then ([], s)
    else
      var last := |visits| - 1;
      var before := Visits(visits[..last], s);
      var o := Visited(visits[last], before.1);
      (before.0 + [o.0], o.1)
  }

  /** The bytes that the reads of a run returned, one after the other. */
  function BytesRead(visits: seq<Visit>, outcomes: seq<Outcome>): seq<Byte>
    requires |outcomes| == |visits|
  {
    if visits == [] then []
    else
      var last := |visits| - 1;
      BytesRead(visits[..last], outcomes[..last]) +
      if visits[last].Read? && outcomes[last].Moved? then outcomes[last].data else []
  }

  /** The bytes that the writes of a run got rid of. */
  function BytesWritten(visits: seq<Visit>, outcomes: seq<Outcome>): seq<Byte>
    requires |outcomes| == |visits|
  {
    if visits == [] then []
    else
      var last := |visits| - 1;
      BytesWritten(visits[..last], outcomes[..last]) +
      if visits[last].Write? && outcomes[last].Moved? then outcomes[last].data else []
  }

  /** A read takes from the front, a write adds at the back. */
  lemma VisitMoves(v: Visit, s: State)
    requires |s.buffered| < BUFFER_SIZE
    ensures var r := Visited(v, s); var data := if r.0.Moved? then r.0.data else [];
            if v.Read? then s.buffered == data + r.1.buffered
            else r.1.buffered == s.buffered + data && (v.Ends? ==> data == [])
  {
  }

  /** No byte is lost, doubled or reordered: what was read, then what is buffered, is what was there, then written. */
  lemma {:induction false} FirstInFirstOut(visits: seq<Visit>, s: State)
    requires |s.buffered| < BUFFER_SIZE
    ensures var r := Visits(visits, s);
            BytesRead(visits, r.0) + r.1.buffered == s.buffered + BytesWritten(visits, r.0)
  {
    hide Visited;
    if visits != [] {
      var last := |visits| - 1;
      FirstInFirstOut(visits[..last], s);
      var before, r := Visits(visits[..last], s), Visits(visits, s);
      VisitMoves(visits[last], before.1);
      assert r.0[..last] == before.0;
      var read, written := BytesRead(visits[..last], before.0), BytesWritten(visits[..last], before.0);
      var data := if r.0[last].Moved? then r.0[last].data else [];
      if visits[last].Read? {
        assert BytesWritten(visits, r.0) == written;
        assert read + data + r.1.buffered == read + (data + r.1.buffered);
      } else {
        assert BytesRead(visits, r.0) == read && BytesWritten(visits, r.0) == written + data;
        assert read + (before.1.buffered + data) == read + before.1.buffered + data;
        assert s.buffered + (written + data) == s.buffered + written + data;
      }
    }
  }

  /**
   * A byte that was written and not yet read is in the pipe: with nothing there before, reads are a prefix of writes.
   */
  lemma ReadsFollowWrites(visits: seq<Visit>, s: State)
    requires s.buffered == []
    ensures var r := Visits(visits, s);
            BytesRead(visits, r.0) <= BytesWritten(visits, r.0) &&
            |BytesWritten(visits, r.0)| - |BytesRead(visits, r.0)| < BUFFER_SIZE
  {
    FirstInFirstOut(visits, s);
    var r := Visits(visits, s);
    assert BytesWritten(visits, r.0) == BytesRead(visits, r.0) + r.1.buffered;
  }

  class Pipe {
    const ring: Deque
    var readers: nat
    var writers: nat

    ghost predicate Valid()
      reads this, ring, ring.buffer
    {
      ring.Valid() && ring.buffer.Length == BUFFER_SIZE && |ring.Contents()| < BUFFER_SIZE
    }

    ghost function Now(): State
      requires Valid()
      reads this, ring, ring.buffer
    {
      State(ring.Contents(), readers, writers)
    }

    /** `pipe_init` */
    constructor ()
      ensures Valid() && fresh(ring) && fresh(ring.buffer) && Now() == State([], 0, 0)
    {
      ring := new Deque(BUFFER_SIZE);
      readers, writers := 0, 0;
    }

    /** The loop of `__pipe_read`: at least one byte, then up to `count` while there are any. */
    method Drain(count: nat) returns (data: seq<Byte>)
      requires Valid() && ring.Contents() != []
      modifies ring`head
      ensures Valid() && old(ring.Contents()) == data + ring.Contents()
      ensures |data| == if count == 0 then 1 else Min(count, |old(ring.Contents())|)
    {
      hide Deque.Contents, Deque.Full, Deque.Valid;
      var err, c := ring.PopFront();
      data := [c];
      while |data| < count && !ring.Empty()
        invariant ring.Valid() && old(ring.Contents()) == data + ring.Contents() && |data| >= 1
        invariant |data| <= count || |data| == 1
        decreases count - |data|
      {
        ring.Capacity();
        err, c := ring.PopFront();
        data := data + [c];
      }
      ring.Capacity();
    }

    /** The loop of `__pipe_write`: as much as fits. */
    method Fill(data: seq<Byte>) returns (n: nat)
      requires Valid()
      modifies ring`tail, ring.buffer
      ensures Valid() && n == Min(|data|, BUFFER_SIZE - 1 - |old(ring.Contents())|)
      ensures ring.Contents() == old(ring.Contents()) + data[..n]
    {
      hide Deque.Contents, Deque.Full, Deque.Valid;
      n := 0;
      ring.Capacity();
      while n < |data| && !ring.Full()
        invariant ring.Valid() && n <= |data| && ring.Contents() == old(ring.Contents()) + data[..n]
      {
        ring.Capacity();
        var _ := ring.PushBack(data[n]);
        n := n + 1;
      }
      ring.Capacity();
    }

    /** `__pipe_read`; a reader that was asleep does not look at the writers again. */
    method ReadVisit(count: nat, woken: bool) returns (o: Outcome)
      requires Valid()
      modifies ring`head
      ensures Valid() && (o, Now()) == Visited(Read(count, woken), old(Now()))
      ensures o.Moved? <==> old(ring.Contents()) != []
      ensures o.Moved? ==> old(ring.Contents()) == o.data + ring.Contents() && (|o.data| <= count <==> count >= 1)
      ensures o.Moved? ==> |o.data| >= 1 && (|o.data| < count ==> ring.Contents() == [])
      ensures o == EndOfFile <==> old(ring.Contents()) == [] && writers == 0 && !woken
      ensures o == Asleep <==> old(ring.Contents()) == [] && (writers > 0 || woken)
    {
      hide Deque.Contents, Deque.Full, Deque.Valid;
      ring.Capacity();
      if ring.Empty() {
        return if writers == 0 && !woken then EndOfFile else Asleep;
      }
      var data := Drain(count);
      o := Moved(data);
    }

    /** `__pipe_write` */
    method WriteVisit(data: seq<Byte>, woken: bool) returns (o: Outcome)
      requires Valid()
      modifies ring`tail, ring.buffer
      ensures Valid() && (o, Now()) == Visited(Write(data, woken), old(Now()))
      ensures o.Moved? ==> o.data <= data && ring.Contents() == old(ring.Contents()) + o.data
      ensures o.Moved? ==> o.data == data || |ring.Contents()| == BUFFER_SIZE - 1
      ensures o == BrokenPipe <==> readers == 0 && !woken
      ensures o == Asleep <==> (readers > 0 || woken) && |old(ring.Contents())| == BUFFER_SIZE - 1
    {
      hide Deque.Contents, Deque.Full, Deque.Valid;
      ring.Capacity();
      if readers == 0 && !woken {
        return BrokenPipe;
      }
      if ring.Full() {
        return Asleep;
      }
      var n := Fill(data);
      o := Moved(data[..n]);
    }

    /** Any interleaving of visits: the ring buffer comes to what the byte sequence comes to. */
    method Run(visits: seq<Visit>) returns (outcomes: seq<Outcome>)
      requires Valid()
      modifies this, ring, ring.buffer
      ensures Valid() && (outcomes, Now()) == Visits(visits, old(Now()))
      ensures BytesRead(visits, outcomes) + ring.Contents() == old(ring.Contents()) + BytesWritten(visits, outcomes)
    {
      hide Deque.Contents, Deque.Full, Deque.Valid, Visited;
      outcomes := [];
      for i := 0 to |visits|
        invariant Valid() && (outcomes, Now()) == Visits(visits[..i], old(Now()))
      {
        var o;
        match visits[i] {
          case Read(count, woken) => o := ReadVisit(count, woken);
          case Write(data, woken) => o := WriteVisit(data, woken);
          case Ends(r, w) => o := SetEnds(r, w);
        }
        outcomes := outcomes + [o];
        assert visits[..i + 1][..i] == visits[..i];
      }
      assert visits[..|visits|] == visits;
      FirstInFirstOut(visits, old(Now()));
    }

    /** `pipe_add_reader`, `pipe_remove_writer` and their like: the numbers of open ends. */
    method SetEnds(r: nat, w: nat) returns (o: Outcome)
      requires Valid()
      modifies this`readers, this`writers
      ensures Valid() && (o, Now()) == Visited(Ends(r, w), old(Now()))
    {
      readers, writers := r, w;
      o := Changed;
    }
  }
}
