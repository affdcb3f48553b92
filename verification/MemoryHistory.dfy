/**
 * What the reference memory means to its processes: a load shows the value stored last, by the process itself or by
 * an ancestor before the fork, or else what the mapping was created with.
 */
module MemoryHistory {
  import opened Lists
  import opened PhysicalMemory
  import opened CowModel

  /** A byte that was stored is read back, and no other byte changes. */
  lemma ReadBack(s: EagerSpace, addr: nat, b: int, x: nat)
    requires EagerWritable(s, addr)
    ensures EagerRead(EagerWrite(s, addr, b), x) == if x == addr then Some(b) else EagerRead(s, x)
    ensures EagerWritable(EagerWrite(s, addr, b), x) <==> EagerWritable(s, x)
  {
    assert x / PAGE_SIZE == addr / PAGE_SIZE && x % PAGE_SIZE == addr % PAGE_SIZE ==> x == addr;
  }

  /** Byte `k` of page `j` of a new mapping is what the page held, and may be stored to if the mapping allows it. */
  lemma ReadFresh(s: EagerSpace, start: nat, writable: bool, pages: seq<Page>, j: nat, k: nat)
    requires j < |pages| && k < |pages[j]| && k < PAGE_SIZE
    ensures var m, x := EagerMap(s, start, writable, pages), (start + j) * PAGE_SIZE + k;
            EagerRead(m, x) == Some(pages[j][k]) && (EagerWritable(m, x) <==> writable)
  {
    var m, x := EagerMap(s, start, writable, pages), (start + j) * PAGE_SIZE + k;
    assert x / PAGE_SIZE == start + j && x % PAGE_SIZE == k;
    assert m[start + j] == FreshCell(start, writable, pages, start + j);
  }

  /** The other pages are as before. */
  lemma ReadElsewhere(s: EagerSpace, start: nat, writable: bool, pages: seq<Page>, x: nat)
    requires !(start <= x / PAGE_SIZE < start + |pages|)
    ensures EagerRead(EagerMap(s, start, writable, pages), x) == EagerRead(s, x)
    ensures EagerWritable(EagerMap(s, start, writable, pages), x) <==> EagerWritable(s, x)
  {
  }

  /** A page too short to hold the byte shows nothing there. */
  lemma ReadShort(s: EagerSpace, start: nat, writable: bool, pages: seq<Page>, x: nat)
    requires start <= x / PAGE_SIZE < start + |pages| && x % PAGE_SIZE >= |pages[x / PAGE_SIZE - start]|
    ensures var m := EagerMap(s, start, writable, pages); EagerRead(m, x) == None && !EagerWritable(m, x)
  {
    var m := EagerMap(s, start, writable, pages);
    assert m[x / PAGE_SIZE] == FreshCell(start, writable, pages, x / PAGE_SIZE);
  }

  /** Address `addr` lies in a mapping of `pages` from `start` on. */
  ghost predicate InMapping(start: nat, pages: seq<Page>, addr: nat) {
    start <= addr / PAGE_SIZE < start + |pages|
  }

  /** What `addr` of space `s` shows after the events of a run that began with the memory `e`. */
  ghost function Shown(e: EagerState, events: seq<Event>, s: nat, addr: nat): Option<int> {
    if events == [] then if s in e then EagerRead(e[s], addr) else None
    else
      var before := events[..|events| - 1];
      match events[|events| - 1]
      case StoreDone(t, a, value) => if t == s && a == addr then Some(value) else Shown(e, before, s, addr)
      case NewMapping(t, start, _, pages) =>
        if t != s || !InMapping(start, pages, addr) then Shown(e, before, s, addr)
        else
          var page := pages[addr / PAGE_SIZE - start];
          if addr % PAGE_SIZE < |page| then Some(page[addr % PAGE_SIZE]) else None
      case Forked(t, c) => Shown(e, before, if c == s then t else s, addr)
      case Spawned(t) => if t == s then None else Shown(e, before, s, addr)
      case _ => Shown(e, before, s, addr)
  }

  /**
   * Whether `addr` of space `s` may be stored to after the events: as its mapping was created, here or before a fork.
   */
  ghost predicate Allowed(e: EagerState, events: seq<Event>, s: nat, addr: nat) {
    if events == [] then s in e && EagerWritable(e[s], addr)
    else
      var before := events[..|events| - 1];
      match events[|events| - 1]
      case NewMapping(t, start, writable, pages) =>
        if t != s || !InMapping(start, pages, addr) then Allowed(e, before, s, addr)
        else writable && addr % PAGE_SIZE < |pages[addr / PAGE_SIZE - start]|
      case Forked(t, c) => Allowed(e, before, if c == s then t else s, addr)
      case Spawned(t) => t != s && Allowed(e, before, s, addr)
      case _ => Allowed(e, before, s, addr)
  }

  lemma OneStep(e: EagerState, event: Event, s: nat, addr: nat)
    requires EagerStep(e, event).Some? && s in EagerStep(e, event).value
    ensures var m := EagerStep(e, event).value[s];
      match event
      case StoreDone(t, a, value) =>
        && s in e && (EagerWritable(m, addr) <==> EagerWritable(e[s], addr))
        && EagerRead(m, addr) == if t == s && a == addr then Some(value) else EagerRead(e[s], addr)
      case NewMapping(t, start, writable, pages) =>
        && s in e
        && if t != s || !InMapping(start, pages, addr) then
             EagerRead(m, addr) == EagerRead(e[s], addr) && (EagerWritable(m, addr) <==> EagerWritable(e[s], addr))
           else
             var page := pages[addr / PAGE_SIZE - start];
             && EagerRead(m, addr) == (if addr % PAGE_SIZE < |page| then Some(page[addr % PAGE_SIZE]) else None)
             && (EagerWritable(m, addr) <==> writable && addr % PAGE_SIZE < |page|)
      case Forked(t, c) => t in e && (c != s ==> s in e) && m == e[if c == s then t else s]
      case Spawned(t) => if t == s then EagerRead(m, addr) == None && !EagerWritable(m, addr) else s in e && m == e[s]
      case _ => s in e && m == e[s]
  {
    hide EagerRead, EagerWritable, EagerWrite, EagerMap;
    match event
    case StoreDone(t, a, value) =>
      if t == s {
        ReadBack(e[s], a, value, addr);
      }
    case NewMapping(t, start, writable, pages) =>
      if t == s {
        if !InMapping(start, pages, addr) {
          ReadElsewhere(e[s], start, writable, pages, addr);
        } else if addr % PAGE_SIZE < |pages[addr / PAGE_SIZE - start]| {
          ReadFresh(e[s], start, writable, pages, addr / PAGE_SIZE - start, addr % PAGE_SIZE);
        } else {
          ReadShort(e[s], start, writable, pages, addr);
        }
      }
    case Spawned(t) =>
      if t == s {
        NothingThere(addr);
      }
    case _ =>
  }

  lemma NothingThere(addr: nat)
    ensures EagerRead(map[], addr) == None && !EagerWritable(map[], addr)
  {
  }

  /** The memory that a run ends with shows its history. */
  lemma {:induction false} HistoryShown(e: EagerState, events: seq<Event>, s: nat, addr: nat)
    requires Replay(e, events).Some? && s in Replay(e, events).value
    ensures EagerRead(Replay(e, events).value[s], addr) == Shown(e, events, s, addr)
    ensures EagerWritable(Replay(e, events).value[s], addr) <==> Allowed(e, events, s, addr)
    decreases |events|
  {
    hide EagerRead, EagerWritable, EagerStep, InMapping;
    if events != [] {
      var before, last := events[..|events| - 1], events[|events| - 1];
      var e1 := Replay(e, before).value;
      OneStep(e1, last, s, addr);
      if last.Forked? {
        HistoryShown(e, before, if last.child == s then last.space else s, addr);
      } else if s in e1 {
        HistoryShown(e, before, s, addr);
      }
    }
  }

  /** A load shows the history; a store is done if and only if the history allows it. */
  ghost predicate Remembers(e: EagerState, before: seq<Event>, event: Event) {
    match event
    case Loaded(s, addr, got) => got == Shown(e, before, s, addr)
    case StoreDone(s, addr, _) => Allowed(e, before, s, addr)
    case StoreKilled(s, addr) => !Allowed(e, before, s, addr)
    case _ => true
  }

  lemma {:induction false} ReplayPrefix(e: EagerState, events: seq<Event>, i: nat)
    requires Replay(e, events).Some? && i < |events|
    ensures Replay(e, events[..i]).Some? && EagerStep(Replay(e, events[..i]).value, events[i]).Some?
    decreases |events|
  {
    hide EagerStep;
    var last := |events| - 1;
    if i < last {
      ReplayPrefix(e, events[..last], i);
      assert events[..last][..i] == events[..i];
    }
  }

  /** Every event of a run that the reference can show remembers what came before it. */
  lemma RunRemembers(e: EagerState, events: seq<Event>, i: nat)
    requires Replay(e, events).Some? && i < |events|
    ensures Remembers(e, events[..i], events[i])
  {
    hide EagerRead, EagerWritable, Shown, Allowed, Replay;
    ReplayPrefix(e, events, i);
    match events[i]
    case Loaded(s, addr, _) => HistoryShown(e, events[..i], s, addr);
    case StoreDone(s, addr, _) => HistoryShown(e, events[..i], s, addr);
    case StoreKilled(s, addr) => HistoryShown(e, events[..i], s, addr);
    case _ =>
  }

  lemma AllRemember(e: EagerState, events: seq<Event>)
    requires Replay(e, events).Some?
    ensures forall i :: 0 <= i < |events| ==> Remembers(e, events[..i], events[i])
  {
    hide Remembers, Replay;
    forall i | 0 <= i < |events|
      ensures Remembers(e, events[..i], events[i])
    {
      RunRemembers(e, events, i);
    }
  }

  lemma ReplayNone(e: EagerState)
    ensures Replay(e, []) == Some(e)
  {
  }

  lemma ReplayNext(e: EagerState, events: seq<Event>, event: Event)
    requires Replay(e, events).Some?
    ensures Replay(e, events + [event]) == EagerStep(Replay(e, events).value, event)
  {
    hide EagerStep;
    assert (events + [event])[..|events|] == events;
  }

  /** A store is seen by every later load of the process, until it stores there again. */
  lemma {:induction false} StoreLasts(e: EagerState, before: seq<Event>, s: nat, addr: nat, value: int,
                                      since: seq<Event>)
    requires Replay(e, before + [StoreDone(s, addr, value)] + since).Some?
    requires forall i :: 0 <= i < |since| ==>
               match since[i]
               case StoreDone(t, a, _) => t != s || a != addr
               case Gone(t) => t != s
               case _ => true
    ensures Shown(e, before + [StoreDone(s, addr, value)] + since, s, addr) == Some(value)
    ensures var r := Replay(e, before + [StoreDone(s, addr, value)] + since).value;
            s in r && addr / PAGE_SIZE in r[s]
    decreases |since|
  {
    hide EagerRead;
    var events := before + [StoreDone(s, addr, value)] + since;
    if since == [] {
      assert events == before + [StoreDone(s, addr, value)] && events[..|events| - 1] == before;
    } else {
      var since' := since[..|since| - 1];
      assert events[..|events| - 1] == before + [StoreDone(s, addr, value)] + since';
      assert events[|events| - 1] == since[|since| - 1];
      StoreLasts(e, before, s, addr, value, since');
    }
  }
}
