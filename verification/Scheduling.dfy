/**
 * The scheduler with everything a thread can sleep on: ready queues (kernel/sched/sched.c), wait queues
 * (kernel/sched/wait.c), timers (kernel/time/time.c), semaphores (kernel/locking/semaphore.c) and the
 * reaper (kernel/sched/reaper.c), as one machine.
 *
 * Kernel code is not preempted, so a step runs from one switch point to the next, with one exception:
 * `semaphore_down` lowers its counter with interrupts enabled, and the clock or another interrupt may be
 * served before the caller is queued. Lowering and blocking are therefore two steps, and ticks, wake-ups
 * and `semaphore_up` may come between them.
 *
 * A thread that goes to sleep by `wait_wait` or `sched_nanosleep` is one step here: no interrupt between its
 * entry in the list and the switch. What such an interrupt does is in `SleepWindow`.
 */
module Scheduling {
  import opened Errors
  import opened Lists

  const LEVELS := 5
  const LEVEL_MIN := 0
  const LEVEL_MAX := 4
  const NS_IN_SEC := 1_000_000_000

  /** The semaphore of the reaper, and its wait queue. */
  const REAPER_SEM := 0

  datatype Time = Time(sec: nat, nsec: nat)

  /** `timespec_add` */
  function TimeAdd(a: Time, b: Time): Time {
    var sum := a.nsec + b.nsec;
    Time(a.sec + b.sec + sum / NS_IN_SEC, sum % NS_IN_SEC)
  }

  /** `time_cmp` */
  function TimeCmp(a: Time, b: Time): int {
    var sec := a.sec - b.sec;
    if sec == 0 then a.nsec - b.nsec else sec
  }

  /** `time_cmp` orders normalised times by their nanoseconds. */
  lemma TimeOrder(a: Time, b: Time)
    requires a.nsec < NS_IN_SEC && b.nsec < NS_IN_SEC
    ensures TimeCmp(a, b) >= 0 <==> a.sec * NS_IN_SEC + a.nsec >= b.sec * NS_IN_SEC + b.nsec
    ensures TimeAdd(a, b).nsec < NS_IN_SEC
    ensures TimeAdd(a, b).sec * NS_IN_SEC + TimeAdd(a, b).nsec == (a.sec + b.sec) * NS_IN_SEC + a.nsec + b.nsec
  {
  }

  datatype State = Running | Ready | Sleeping | Dead

  datatype Thread = Thread(priority: nat, state: State, refcnt: nat, alarm: Time)

  type Threads = map<nat, Thread>

  /** The lists a thread can be chained in. */
  datatype Queue = ReadyQ(level: nat) | WaitQ(id: nat) | TimerQ

  datatype Place = Nowhere | Current | In(queue: Queue)

  type Places = map<nat, Place>

  /** What the invariants speak about. */
  datatype Sys = Sys(threads: Threads, ready: seq<seq<nat>>, waits: map<nat, seq<nat>>, timers: seq<nat>,
                     current: Option<nat>, leaving: bool, place: Places, held: map<nat, nat>,
                     locked: set<nat>, idle: nat, reaper: nat)

  ghost predicate Exists(s: Sys, q: Queue) {
    match q
    case ReadyQ(p) => p < |s.ready|
    case WaitQ(w) => w in s.waits
    case TimerQ => true
  }

  ghost function Members(s: Sys, q: Queue): seq<nat> {
    if !Exists(s, q) then [] else
    match q
    case ReadyQ(p) => s.ready[p]
    case WaitQ(w) => s.waits[w]
    case TimerQ => s.timers
  }

  ghost function WithMembers(s: Sys, q: Queue, l: seq<nat>): Sys
    requires Exists(s, q)
  {
    match q
    case ReadyQ(p) => s.(ready := s.ready[p := l])
    case WaitQ(w) => s.(waits := s.waits[w := l])
    case TimerQ => s.(timers := l)
  }

  /** Every thread is in at most one list, once, and is in no list while it runs. */
  ghost predicate Placed(s: Sys) {
    && |s.ready| == LEVELS && s.place.Keys == s.threads.Keys
    && (forall t :: t in s.threads ==> s.threads[t].priority < LEVELS)
    && (forall q :: NoDup(Members(s, q)))
    && (forall q, t :: t in Members(s, q) <==> t in s.place && s.place[t] == In(q))
    && (forall t :: t in s.place && s.place[t].In? && s.place[t].queue.ReadyQ? ==>
          s.place[t].queue.level == s.threads[t].priority)
    && (forall t :: t in s.place && s.place[t] == Current ==> s.current == Some(t))
    && (s.current.Some? ==> s.current.value in s.threads && (s.leaving <==> s.place[s.current.value] != Current))
  }

  /** A thread is referenced by the list it is in or by `current_thread`, and by the holders outside. */
  ghost predicate Counted(s: Sys) {
    && s.held.Keys == s.threads.Keys
    && (forall t :: t in s.threads && t in s.place ==>
          s.threads[t].refcnt == s.held[t] + (if s.place[t] == Nowhere then 0 else 1))
  }

  ghost predicate StateFits(where: Place, state: State) {
    match where
    case Nowhere => true
    case Current => state == Running
    case In(q) => if q.ReadyQ? then state == Ready else state == Sleeping || state == Dead
  }

  /** A thread's state goes with its place. */
  ghost predicate Settled(s: Sys) {
    forall t :: t in s.threads && t in s.place ==> StateFits(s.place[t], s.threads[t].state)
  }

  /** The two kernel threads that live forever; nobody else waits for the reaper's semaphore. */
  ghost predicate Kernel(s: Sys) {
    && s.idle in s.threads && s.reaper in s.threads && s.idle != s.reaper
    && s.idle in s.held && s.reaper in s.held && s.held[s.idle] >= 1 && s.held[s.reaper] >= 1
    && s.idle !in s.locked && s.reaper !in s.locked
    && s.threads[s.idle].priority == LEVEL_MIN && s.threads[s.reaper].priority == LEVEL_MAX
    && s.threads[s.idle].state != Dead && s.threads[s.reaper].state != Dead
    && (forall t :: t in s.place && s.place[t] == In(WaitQ(REAPER_SEM)) ==> t == s.reaper)
  }

  ghost predicate Book(s: Sys) {
    Counted(s) && Settled(s) && Kernel(s)
  }

  ghost predicate Core(s: Sys) {
    Placed(s) && Book(s)
  }

  /** Threads without a reference wait for the reaper, each once. */
  ghost predicate Doomed(threads: Threads, reaperList: seq<nat>) {
    && NoDup(reaperList)
    && (forall t :: t in reaperList <==> t in threads && threads[t].refcnt == 0)
  }

  /** What happens to the ready queues. */
  datatype Event = Push(thread: nat, level: nat) | Pick(thread: nat) | Unchain(thread: nat, level: nat)

  /** `first_non_empty_queue_priority` */
  ghost function First(ready: seq<seq<nat>>, i: nat): (p: nat)
    requires i < |ready|
    ensures p <= i && (ready[p] == [] ==> p == 0) && forall j :: p < j <= i ==> ready[j] == []
  {
    if ready[i] == [] && i > 0 then First(ready, i - 1) else i
  }

  ghost function Apply(ready: seq<seq<nat>>, e: Event): (r: seq<seq<nat>>)
    requires |ready| == LEVELS
    ensures |r| == LEVELS
  {
    match e
    case Push(t, p) => if p < LEVELS then ready[p := ready[p] + [t]] else ready
    case Unchain(t, p) => if p < LEVELS then ready[p := Erase(ready[p], t)] else ready
    case Pick(_) => var p := First(ready, LEVEL_MAX); if ready[p] == [] then ready else ready[p := ready[p][1..]]
  }

  /** The ready queues after a history of events. */
  ghost function Queues(trace: seq<Event>): (r: seq<seq<nat>>)
    ensures |r| == LEVELS
  {
    if trace == [] then [[], [], [], [], []] else Apply(Queues(trace[..|trace| - 1]), trace[|trace| - 1])
  }

  /** The ready queues have the history `trace`, and every pick took the front of the first non-empty one. */
  ghost predicate Recorded(ready: seq<seq<nat>>, trace: seq<Event>) {
    && ready == Queues(trace)
    && (forall j :: 0 <= j < |trace| && trace[j].Pick? ==> PicksFront(Queues(trace[..j]), trace[j].thread))
  }

  ghost predicate PicksFront(ready: seq<seq<nat>>, t: nat)
    requires |ready| == LEVELS
  {
    var q := ready[First(ready, LEVEL_MAX)];
    q != [] && q[0] == t
  }

  lemma Record(ready: seq<seq<nat>>, trace: seq<Event>, e: Event)
    requires Recorded(ready, trace) && |ready| == LEVELS && (e.Pick? ==> PicksFront(ready, e.thread))
    ensures Recorded(Apply(ready, e), trace + [e])
  {
    assert (trace + [e])[..|trace|] == trace;
    forall j | 0 <= j < |trace|
      ensures (trace + [e])[..j] == trace[..j]
    {
    }
    hide Apply, PicksFront;
  }

  function Picks(trace: seq<Event>): nat {
    if trace == [] then 0 else Picks(trace[1..]) + if trace[0].Pick? then 1 else 0
  }

  lemma {:induction false} EraseKeepsOrder(q: seq<nat>, u: nat, k: nat)
    requires k < |q| && q[k] != u
    ensures (k < |Erase(q, u)| && Erase(q, u)[k] == q[k]) ||
            (k > 0 && k - 1 < |Erase(q, u)| && Erase(q, u)[k - 1] == q[k])
  {
    if q[0] != u && k > 0 {
      EraseKeepsOrder(q[1..], u, k - 1);
    }
  }

  /** Thread `t` waits at place `k` of level `p`, and nothing is ready above. */
  ghost predicate WaitsAt(ready: seq<seq<nat>>, t: nat, p: nat, k: nat) {
    |ready| == LEVELS && p < LEVELS && k < |ready[p]| && ready[p][k] == t
  }

  ghost predicate EmptyAbove(ready: seq<seq<nat>>, p: nat)
    requires |ready| == LEVELS
  {
    forall l :: p < l < LEVELS ==> ready[l] == []
  }

  /**
   * Bounded waiting: a thread with `k` threads ahead of it at its level is picked within `k + 1` picks,
   * whatever is queued or taken off meanwhile, as long as nothing is ready above when a thread is picked.
   */
  lemma {:induction false} BoundedWaiting(trace: seq<Event>, i: nat, t: nat, p: nat, k: nat) returns (j: nat)
    requires i <= |trace| && WaitsAt(Queues(trace[..i]), t, p, k) && Recorded(Queues(trace), trace)
    requires forall m :: i <= m < |trace| && trace[m].Pick? ==> EmptyAbove(Queues(trace[..m]), p)
    requires Unchain(t, p) !in trace[i..] && Picks(trace[i..]) > k
    ensures i <= j < |trace| && trace[j] == Pick(t) && Picks(trace[i..j]) <= k
    decreases |trace| - i
  {
    hide Queues, WaitsAt, EmptyAbove, PicksFront, Apply;
    var ready, e := Queues(trace[..i]), trace[i];
    QueuesNext(trace, i);
    assert trace[i..] == [e] + trace[i + 1..];
    if e.Pick? && k == 0 {
      PickedFirst(ready, t, p, e.thread);
      j := i;
      assert trace[i..i] == [];
    } else {
      var k' := MovesUp(ready, e, t, p, k);
      j := BoundedWaiting(trace, i + 1, t, p, k');
      assert trace[i..j] == [e] + trace[i + 1..j];
    }
  }

  lemma QueuesNext(trace: seq<Event>, i: nat)
    requires i < |trace|
    ensures Queues(trace[..i + 1]) == Apply(Queues(trace[..i]), trace[i])
  {
    assert trace[..i + 1][..i] == trace[..i];
  }

  lemma PickedFirst(ready: seq<seq<nat>>, t: nat, p: nat, u: nat)
    requires WaitsAt(ready, t, p, 0) && EmptyAbove(ready, p) && PicksFront(ready, u)
    ensures t == u
  {
    assert First(ready, LEVEL_MAX) == p;
  }

  /** One event: the thread keeps its place or moves up, and a pick moves it up. */
  lemma MovesUp(ready: seq<seq<nat>>, e: Event, t: nat, p: nat, k: nat) returns (k': nat)
    requires WaitsAt(ready, t, p, k) && e != Unchain(t, p)
    requires e.Pick? ==> EmptyAbove(ready, p) && k > 0
    ensures WaitsAt(Apply(ready, e), t, p, k') && k' <= k && (e.Pick? ==> k' == k - 1)
  {
    k' := k;
    if e.Pick? {
      assert First(ready, LEVEL_MAX) == p;
      k' := k - 1;
    } else if e.Unchain? && e.level == p {
      EraseKeepsOrder(ready[p], e.thread, k);
      if !WaitsAt(Apply(ready, e), t, p, k) {
        k' := k - 1;
      }
    }
  }

  lemma Facts(s: Sys, t: nat)
    requires Core(s) && t in s.threads
    ensures |s.ready| == LEVELS && s.threads[t].priority < LEVELS && t in s.place && t in s.held
    ensures s.threads[t].refcnt == s.held[t] + if s.place[t] == Nowhere then 0 else 1
    ensures StateFits(s.place[t], s.threads[t].state) && (s.place[t] == In(WaitQ(REAPER_SEM)) ==> t == s.reaper)
    ensures t == s.idle || t == s.reaper ==> s.held[t] > 0 && s.threads[t].state != Dead && t !in s.locked
    ensures s.idle in s.threads && s.reaper in s.threads && s.idle != s.reaper
    ensures s.threads[s.idle].priority == LEVEL_MIN && s.threads[s.reaper].priority == LEVEL_MAX
  {
  }

  /** A thread that is in no list gets a new record; `refs` references to it are held outside. */
  ghost function Kept(s: Sys, t: nat, th: Thread, refs: nat): Sys {
    s.(threads := s.threads[t := th], held := s.held[t := refs])
  }

  lemma Keep(s: Sys, t: nat, th: Thread, refs: nat)
    requires Core(s) && t in s.threads && th.priority == s.threads[t].priority
    requires th.refcnt - refs == if s.place[t] == Nowhere then 0 else 1
    requires StateFits(s.place[t], th.state)
    requires t == s.idle || t == s.reaper ==> refs > 0 && th.state != Dead
    ensures Core(Kept(s, t, th, refs))
  {
    hide Placed, Book;
    Facts(s, t);
    assert s.place[t := s.place[t]] == s.place;
    PlacedById(s, Kept(s, t, th, refs));
    BookChange(s, Kept(s, t, th, refs), t);
  }

  /** What a change of one thread, its place and the references to it must respect. */
  lemma BookChange(s: Sys, s': Sys, t: nat)
    requires Book(s) && t in s.threads && t in s'.threads && t in s'.place && t in s'.held
    requires s'.threads == s.threads[t := s'.threads[t]] && s'.threads[t].priority == s.threads[t].priority
    requires s'.place == s.place[t := s'.place[t]] && s'.held == s.held[t := s'.held[t]]
    requires s'.locked == s.locked && s'.idle == s.idle && s'.reaper == s.reaper
    requires s'.threads[t].refcnt == s'.held[t] + if s'.place[t] == Nowhere then 0 else 1
    requires StateFits(s'.place[t], s'.threads[t].state)
    requires s'.place[t] == In(WaitQ(REAPER_SEM)) ==> t == s.reaper
    requires t == s.idle || t == s.reaper ==> s'.held[t] > 0 && s'.threads[t].state != Dead
    ensures Book(s')
  {
  }

  /** The lists do not depend on states and reference counts. */
  lemma PlacedById(s: Sys, s': Sys)
    requires Placed(s) && s'.threads.Keys == s.threads.Keys
    requires forall t :: t in s.threads ==> s'.threads[t].priority == s.threads[t].priority
    requires s'.ready == s.ready && s'.waits == s.waits && s'.timers == s.timers
    requires s'.current == s.current && s'.leaving == s.leaving && s'.place == s.place
    ensures Placed(s')
  {
    assert forall q :: Members(s', q) == Members(s, q);
    hide NoDup, Members;
  }

  /** A thread that is in no list is chained, and the list takes a reference. */
  ghost function Chained(s: Sys, t: nat, q: Queue, state: State): Sys
    requires Exists(s, q) && t in s.threads
  {
    var th := s.threads[t];
    WithMembers(s, q, Members(s, q) + [t]).(place := s.place[t := In(q)],
                                            threads := s.threads[t := th.(state := state, refcnt := th.refcnt + 1)])
  }

  /** Only the list `q` changes, by thread `t`. */
  lemma Relist(s: Sys, q: Queue, l: seq<nat>, t: nat, where: Place)
    requires Placed(s) && Exists(s, q) && t in s.threads && NoDup(l) && where != Current && s.place[t] != Current
    requires forall u :: u in l <==> if u == t then where == In(q) else u in Members(s, q)
    requires s.place[t] == In(q) || s.place[t] == Nowhere
    requires where.In? ==> where == In(q) && (q.ReadyQ? ==> q.level == s.threads[t].priority)
    ensures Placed(WithMembers(s, q, l).(place := s.place[t := where]))
  {
    hide NoDup, Members, WithMembers, Exists;
    ListsChanged(s, q, l, s.place[t := where]);
  }

  lemma ListsChanged(s: Sys, q: Queue, l: seq<nat>, place: Places)
    requires Exists(s, q)
    ensures var s' := WithMembers(s, q, l).(place := place);
            && (forall r :: Members(s', r) == if r == q then l else Members(s, r))
            && |s'.ready| == |s.ready| && s'.threads == s.threads && s'.current == s.current && s'.leaving == s.leaving
  {
  }

  lemma ChainPlaced(s: Sys, t: nat, q: Queue)
    requires Placed(s) && Exists(s, q) && t in s.threads && s.place[t] == Nowhere
    requires q.ReadyQ? ==> q.level == s.threads[t].priority
    ensures Placed(WithMembers(s, q, Members(s, q) + [t]).(place := s.place[t := In(q)]))
  {
    assert t !in Members(s, q);
    AppendNoDup(Members(s, q), t);
    hide NoDup, Members, WithMembers, Exists;
    Relist(s, q, Members(s, q) + [t], t, In(q));
  }

  lemma Chain(s: Sys, t: nat, q: Queue, state: State)
    requires Core(s) && Exists(s, q) && t in s.threads && s.place[t] == Nowhere
    requires StateFits(In(q), state) && (q.ReadyQ? ==> q.level == s.threads[t].priority)
    requires q == WaitQ(REAPER_SEM) ==> t == s.reaper
    requires t == s.idle || t == s.reaper ==> state != Dead
    ensures Core(Chained(s, t, q, state))
  {
    hide Placed, Book, Members, Exists;
    Facts(s, t);
    ChainPlaced(s, t, q);
    PlacedById(WithMembers(s, q, Members(s, q) + [t]).(place := s.place[t := In(q)]), Chained(s, t, q, state));
    BookChange(s, Chained(s, t, q, state), t);
  }

  /** ... in its ready queue. */
  lemma ChainReady(s: Sys, t: nat)
    requires Core(s) && t in s.threads && s.place[t] == Nowhere
    ensures var th := s.threads[t];
            && th.priority < |s.ready| && Exists(s, ReadyQ(th.priority)) &&
               Core(Chained(s, t, ReadyQ(th.priority), Ready))
            && Chained(s, t, ReadyQ(th.priority), Ready) ==
               s.(ready := s.ready[th.priority := s.ready[th.priority] + [t]],
                  place := s.place[t := In(ReadyQ(th.priority))],
                  threads := s.threads[t := th.(state := Ready)][t := th.(state := Ready, refcnt := th.refcnt + 1)])
  {
    hide Placed, Book;
    Facts(s, t);
    Chain(s, t, ReadyQ(s.threads[t].priority), Ready);
  }

  /** A thread is taken out of its list; the reference of the list stays in the hand of the caller. */
  ghost function Unchained(s: Sys, t: nat, q: Queue): Sys
    requires Exists(s, q) && t in s.held
  {
    WithMembers(s, q, Erase(Members(s, q), t)).(place := s.place[t := Nowhere], held := s.held[t := s.held[t] + 1])
  }

  lemma UnlinkPlaced(s: Sys, t: nat, q: Queue)
    requires Placed(s) && t in s.threads && s.place[t] == In(q)
    ensures Exists(s, q) && Placed(WithMembers(s, q, Erase(Members(s, q), t)).(place := s.place[t := Nowhere]))
  {
    assert t in Members(s, q);
    EraseNoDup(Members(s, q), t);
    hide NoDup, Members, WithMembers, Exists, Erase;
    Relist(s, q, Erase(Members(s, q), t), t, Nowhere);
  }

  lemma Unlink(s: Sys, t: nat, q: Queue)
    requires Core(s) && t in s.threads && s.place[t] == In(q)
    ensures Exists(s, q) && Core(Unchained(s, t, q))
  {
    hide Placed, Book, Members, Exists;
    Facts(s, t);
    UnlinkPlaced(s, t, q);
    PlacedById(WithMembers(s, q, Erase(Members(s, q), t)).(place := s.place[t := Nowhere]), Unchained(s, t, q));
    BookChange(s, Unchained(s, t, q), t);
  }

  lemma EraseFront(s: seq<nat>)
    requires s != []
    ensures Erase(s, s[0]) == s[1..]
  {
  }

  lemma Alive(threads: Threads, reaperList: seq<nat>, t: nat, th: Thread)
    requires Doomed(threads, reaperList) && t in threads && threads[t].refcnt > 0 && th.refcnt > 0
    ensures Doomed(threads[t := th], reaperList)
  {
  }

  ghost function Lighter(th: Thread): Thread
    requires th.refcnt > 0
  {
    th.(refcnt := th.refcnt - 1)
  }

  /** The reaper is woken from its semaphore. */
  ghost function Woken(s: Sys): Sys
    requires s.reaper in s.threads && |s.ready| == LEVELS
  {
    s.(waits := s.waits[REAPER_SEM := []],
       ready := s.ready[LEVEL_MAX := s.ready[LEVEL_MAX] + [s.reaper]],
       place := s.place[s.reaper := In(ReadyQ(LEVEL_MAX))],
       threads := s.threads[s.reaper := s.threads[s.reaper].(state := Ready)])
  }

  lemma KernelFacts(s: Sys)
    requires Core(s)
    ensures s.idle in s.threads && s.reaper in s.threads && s.idle in s.place && s.reaper in s.place
  {
  }

  lemma OnlyOne(l: seq<nat>, x: nat)
    requires NoDup(l) && forall t :: t in l ==> t == x
    ensures l == [] || l == [x]
  {
    assert |l| >= 2 ==> l[0] != l[1];
    forall i | 0 <= i < |l|
      ensures l[i] == x
    {
      assert l[i] in l;
    }
  }

  lemma QueuePlaces(s: Sys, q: Queue)
    requires Core(s)
    ensures NoDup(Members(s, q)) && forall t :: t in Members(s, q) <==> t in s.place && s.place[t] == In(q)
  {
    hide NoDup, Members;
  }

  /** The reaper's queue holds the reaper or nobody. */
  lemma ReaperQueue(s: Sys)
    requires Core(s) && REAPER_SEM in s.waits
    ensures s.reaper in s.place
    ensures s.waits[REAPER_SEM] == if s.place[s.reaper] == In(WaitQ(REAPER_SEM)) then [s.reaper] else []
  {
    hide NoDup, Placed, Counted, Settled;
    KernelFacts(s);
    QueuePlaces(s, WaitQ(REAPER_SEM));
    var l := Members(s, WaitQ(REAPER_SEM));
    assert forall t :: t in l ==> t == s.reaper;
    OnlyOne(l, s.reaper);
    assert l == [s.reaper] ==> s.reaper in l;
  }

  lemma WakeSteps(s: Sys)
    requires Core(s) && REAPER_SEM in s.waits && s.reaper in s.place && s.place[s.reaper] == In(WaitQ(REAPER_SEM))
    ensures s.waits[REAPER_SEM] == [s.reaper] && s.reaper in s.threads && s.reaper in s.held && s.held[s.reaper] >= 1
    ensures var s1 := Unchained(s, s.reaper, WaitQ(REAPER_SEM));
            && |s.ready| == LEVELS && Core(s1) && s.threads[s.reaper].state != Dead && s.reaper !in s.locked
            && s.threads[s.reaper].priority == LEVEL_MAX && s.threads[s.reaper].refcnt > 0
            && s1 == s.(waits := s.waits[REAPER_SEM := []], place := s.place[s.reaper := Nowhere],
                        held := s.held[s.reaper := s.held[s.reaper] + 1])
            && var s2 := Chained(s1, s.reaper, ReadyQ(LEVEL_MAX), Ready);
            Kept(s2, s.reaper, Lighter(s2.threads[s.reaper]), s.held[s.reaper]) == Woken(s)
  {
    hide Core;
    KernelFacts(s);
    ReaperQueue(s);
    Facts(s, s.reaper);
    Unlink(s, s.reaper, WaitQ(REAPER_SEM));
    EraseFront(s.waits[REAPER_SEM]);
    var s1 := Unchained(s, s.reaper, WaitQ(REAPER_SEM));
    var s2 := Chained(s1, s.reaper, ReadyQ(LEVEL_MAX), Ready);
    assert s2.held[s.reaper := s.held[s.reaper]] == s.held;
    assert Kept(s2, s.reaper, Lighter(s2.threads[s.reaper]), s.held[s.reaper]).threads == Woken(s).threads;
  }

  /** The list of the reaper is behind by thread `t`. */
  ghost predicate DoomedBut(threads: Threads, reaperList: seq<nat>, t: nat) {
    && NoDup(reaperList)
    && (forall u :: u in reaperList <==> u in threads && threads[u].refcnt == 0 && u != t)
  }

  lemma Doom(threads: Threads, reaperList: seq<nat>, t: nat, th: Thread)
    requires Doomed(threads, reaperList) && t in threads && threads[t].refcnt > 0 && th.refcnt == 0
    ensures DoomedBut(threads[t := th], reaperList, t)
  {
  }

  lemma DoomPush(threads: Threads, reaperList: seq<nat>, t: nat)
    requires DoomedBut(threads, reaperList, t) && t in threads && threads[t].refcnt == 0
    ensures Doomed(threads, reaperList + [t])
  {
    AppendNoDup(reaperList, t);
  }

  /** How a semaphore has been used. */
  datatype Calls = Calls(initial: nat, downs: nat, ups: nat)

  /**
   * The rest of the state: the reaper's list, the semaphores with their history, the history of the ready
   * queues, the semaphore the running thread has lowered and will block on, and the number of calls of
   * `semaphore_up` the reaper's semaphore had seen when the reaper last lowered it.
   */
  datatype Rest = Rest(list: seq<nat>, sems: map<nat, int>, calls: map<nat, Calls>, trace: seq<Event>,
                       pending: Option<nat>, mark: nat)

  /** `semaphore_up` of the reaper's semaphore, before anybody is woken. */
  ghost function Raised(r: Rest, t: nat): Rest
    requires REAPER_SEM in r.sems && REAPER_SEM in r.calls
  {
    var c := r.calls[REAPER_SEM];
    r.(list := r.list + [t], sems := r.sems[REAPER_SEM := r.sems[REAPER_SEM] + 1],
       calls := r.calls[REAPER_SEM := c.(ups := c.ups + 1)])
  }

  /** The scheduler's books: the whole state except the clock and what the reaper has done. */
  datatype Books = Books(sys: Sys, rest: Rest)

  ghost predicate MayDrop(s: Sys, r: Rest, t: nat) {
    && t in s.threads && t in s.held && s.held[t] > 0 && s.threads[t].refcnt > 0 && REAPER_SEM in s.waits
    && REAPER_SEM in r.sems && REAPER_SEM in r.calls && s.reaper in s.threads && |s.ready| == LEVELS
  }

  /** `thread_unref`: the last reference gone, the thread goes to the reaper, which is woken if it sleeps. */
  ghost function Dropped(b: Books, t: nat): Books {
    var s, r := b.sys, b.rest;
    if !MayDrop(s, r, t) then b
    else
      var dropped := Kept(s, t, Lighter(s.threads[t]), s.held[t] - 1);
      if s.threads[t].refcnt > 1 then
        Books(dropped, r)
      else if r.sems[REAPER_SEM] >= -1 && s.waits[REAPER_SEM] != [] then
        Books(Woken(dropped), Raised(r, t).(trace := r.trace + [Push(s.reaper, LEVEL_MAX)]))
      else
        Books(dropped, Raised(r, t))
  }

  /** What `thread_unref` does. */
  ghost predicate UnrefOf(s: Sys, r: Rest, t: nat, s': Sys, r': Rest) {
    MayDrop(s, r, t) && Books(s', r') == Dropped(Books(s, r), t)
  }

  /**
   * A thread between the two halves of `semaphore_down` is the running one; it is the reaper for the reaper's
   * semaphore.
   */
  ghost predicate Window(s: Sys, r: Rest) {
    r.pending.Some? ==>
      && s.current.Some? && !s.leaving && s.current != Some(s.idle) && r.pending.value in r.sems
      && (s.current == Some(s.reaper) <==> r.pending == Some(REAPER_SEM))
  }

  /**
   * The reaper's semaphore counts its list. Once lowered below zero it has grown by the calls of `semaphore_up`
   * since; the reaper goes on only when it is not negative.
   */
  ghost predicate Reaping(s: Sys, r: Rest, popping: bool) {
    && REAPER_SEM in s.waits && REAPER_SEM in r.sems && REAPER_SEM in r.calls && s.reaper in s.place && Window(s, r)
    && r.mark <= r.calls[REAPER_SEM].ups && r.sems[REAPER_SEM] == |r.list| - (if popping then 1 else 0)
    && if s.place[s.reaper] == In(WaitQ(REAPER_SEM)) || r.pending == Some(REAPER_SEM) then
         popping && r.sems[REAPER_SEM] == r.calls[REAPER_SEM].ups - r.mark - 1
       else
         r.sems[REAPER_SEM] >= 0
  }

  /**
   * The value of a semaphore accounts for its calls; with its waiters and the thread about to wait it is not negative.
   */
  ghost predicate Balanced(waits: map<nat, seq<nat>>, r: Rest) {
    && r.sems.Keys == r.calls.Keys && REAPER_SEM in r.sems
    && (forall i :: i in r.sems ==>
          && i in waits && r.sems[i] == r.calls[i].initial + r.calls[i].ups - r.calls[i].downs
          && r.sems[i] + |waits[i]| + (if r.pending == Some(i) then 1 else 0) >= 0)
  }

  /** The idle thread is always there to run, and the reaper is never lost. */
  ghost predicate Standing(s: Sys) {
    IdleStands(s) && ReaperStands(s)
  }

  ghost predicate IdleStands(s: Sys) {
    s.idle in s.place && (s.place[s.idle] == Current || s.place[s.idle] == In(ReadyQ(LEVEL_MIN)))
  }

  ghost predicate ReaperStands(s: Sys) {
    s.reaper in s.place && s.place[s.reaper] in {Current, In(ReadyQ(LEVEL_MAX)), In(WaitQ(REAPER_SEM))}
  }

  lemma UnrefKeeps(s: Sys, r: Rest, t: nat, s': Sys, r': Rest, popping: bool)
    requires Core(s) && UnrefOf(s, r, t, s', r') && Reaping(s, r, popping) && Balanced(s.waits, r)
    ensures Reaping(s', r', popping) && Balanced(s'.waits, r')
    ensures Standing(s) ==> Standing(s')
    ensures s'.current == s.current && s'.leaving == s.leaving && s'.threads.Keys == s.threads.Keys &&
            r.trace <= r'.trace
    ensures t in s.held && s.held[t] > 0 && s'.held == s.held[t := s.held[t] - 1]
  {
    hide Core, Reaping, Balanced, Standing, Woken;
    ReaperQueue(s);
    KernelFacts(s);
    WokenParts(Kept(s, t, Lighter(s.threads[t]), s.held[t] - 1));
    UnrefReaps(s, r, t, s', r', popping);
    UnrefBalances(s, r, t, s', r');
    if Standing(s) {
      UnrefStands(s, r, t, s', r');
    }
  }

  lemma WokenParts(s: Sys)
    requires s.reaper in s.threads && |s.ready| == LEVELS
    ensures var s' := Woken(s);
            && s'.current == s.current && s'.leaving == s.leaving && s'.threads.Keys == s.threads.Keys &&
               s'.held == s.held
            && s'.waits == s.waits[REAPER_SEM := []]
  {
  }

  lemma UnrefReaps(s: Sys, r: Rest, t: nat, s': Sys, r': Rest, popping: bool)
    requires Core(s) && UnrefOf(s, r, t, s', r') && Reaping(s, r, popping)
    ensures Reaping(s', r', popping)
  {
    hide Core;
    ReaperQueue(s);
  }

  lemma UnrefBalances(s: Sys, r: Rest, t: nat, s': Sys, r': Rest)
    requires Core(s) && UnrefOf(s, r, t, s', r') && Balanced(s.waits, r)
    ensures Balanced(s'.waits, r')
  {
    hide Core;
    ReaperQueue(s);
  }

  lemma UnrefStands(s: Sys, r: Rest, t: nat, s': Sys, r': Rest)
    requires Core(s) && UnrefOf(s, r, t, s', r') && Standing(s)
    ensures Standing(s')
  {
    hide Core;
    KernelApart(s);
  }

  lemma KernelApart(s: Sys)
    requires Core(s)
    ensures s.idle != s.reaper
  {
  }

  /** The front of a list is taken off it. */
  lemma PopFront(s: Sys, q: Queue)
    requires Core(s) && Members(s, q) != []
    ensures var t := Members(s, q)[0];
            && t in s.threads && t in s.place && s.place[t] == In(q) && t in s.held && Exists(s, q)
            && Core(Unchained(s, t, q)) && Erase(Members(s, q), t) == Members(s, q)[1..]
  {
    hide Core, Members;
    var t := Members(s, q)[0];
    QueuePlaces(s, q);
    assert t in Members(s, q);
    PlaceFacts(s, t);
    Unlink(s, t, q);
    EraseFront(Members(s, q));
  }

  lemma PlaceFacts(s: Sys, t: nat)
    requires Core(s) && t in s.place
    ensures t in s.threads && t in s.held
  {
  }

  /** `next`, taken off its ready queue, becomes the running thread. */
  ghost function Switched(s: Sys, next: nat): Sys
    requires next in s.threads && next in s.held && s.held[next] > 0
    requires s.current.Some? ==> s.current.value in s.held && s.current.value != next
  {
    s.(current := Some(next), leaving := false, place := PlacesAfter(s, next), held := HeldAfter(s, next),
       threads := s.threads[next := s.threads[next].(state := Running)])
  }

  ghost function PlacesAfter(s: Sys, next: nat): Places {
    (if s.current.Some? && !s.leaving then s.place[s.current.value := Nowhere] else s.place)[next := Current]
  }

  ghost function HeldAfter(s: Sys, next: nat): map<nat, nat>
    requires next in s.held && s.held[next] > 0 && (s.current.Some? ==> s.current.value in s.held)
  {
    (if s.current.Some? && !s.leaving then s.held[s.current.value := s.held[s.current.value] + 1] else s.held)
    [next := s.held[next] - 1]
  }

  lemma SwitchedIs(s: Sys, next: nat)
    requires next in s.threads && next in s.held && s.held[next] > 0
    requires s.current.Some? ==> s.current.value in s.held && s.current.value != next
    ensures Switched(s, next) ==
            s.(current := Some(next), leaving := false, place := PlacesAfter(s, next), held := HeldAfter(s, next),
               threads := s.threads[next := s.threads[next].(state := Running)])
  {
  }

  lemma SwitchPlaced(s: Sys, next: nat)
    requires Placed(s) && next in s.threads && next in s.place && s.place[next] == Nowhere && next in s.held &&
             s.held[next] > 0
    requires s.current.Some? ==> s.current.value in s.held && s.current.value != next
    ensures Placed(Switched(s, next))
  {
    var s' := Switched(s, next);
    assert forall q :: Members(s', q) == Members(s, q);
    hide NoDup, Members;
  }

  lemma SwitchBook(s: Sys, next: nat)
    requires Book(s) && s.place.Keys == s.threads.Keys && next in s.threads && s.place[next] == Nowhere
    requires next in s.held && s.held[next] > 0 && (next == s.idle || next == s.reaper ==> s.held[next] > 1)
    requires s.current.Some? ==> s.current.value in s.threads && s.current.value in s.held && s.current.value != next
    requires s.current.Some? && !s.leaving ==> s.place[s.current.value] == Current
    ensures Book(Switched(s, next))
  {
  }

  lemma CurrentFacts(s: Sys)
    requires Core(s) && s.current.Some?
    ensures s.current.value in s.threads && s.current.value in s.place && s.current.value in s.held
    ensures !s.leaving ==> s.place[s.current.value] == Current && s.threads[s.current.value].state == Running
  {
  }

  /** The kernel threads are not asleep elsewhere, and the running thread is not ready. */
  ghost predicate MaySwitch(s: Sys) {
    && Standing(s) && |s.ready| == LEVELS && s.ready[First(s.ready, LEVEL_MAX)] != []
    && (s.current.Some? && s.leaving ==>
          && s.current.value in s.threads && s.threads[s.current.value].state != Running
          && s.current.value in s.place && !(s.place[s.current.value].In? && s.place[s.current.value].queue.ReadyQ?))
  }

  /** A thread that had given up its place is left as it was. */
  ghost predicate LeftBehind(s: Sys, r: Rest, s': Sys, r': Rest) {
    && s.current.Some? && s'.current.Some? && s.current != s'.current && s'.waits == s.waits && s'.timers == s.timers
    && r' == r.(trace := r.trace + [Pick(s'.current.value)])
    && s.current.value in s.threads && s.current.value in s'.threads &&
       s'.threads[s.current.value] == s.threads[s.current.value]
  }

  /** A thread that could go on was put at the end of its queue, right after the pick. */
  ghost predicate WentBack(s: Sys, r: Rest, s': Sys, r': Rest) {
    && s.current.Some? && s'.current.Some? && s.current.value in s.threads
    && var t := s.current.value;
    && MadeReady(s, t, s')
    && (t !in s.locked ==> r'.trace == r.trace + [Pick(s'.current.value)] + [Push(t, s.threads[t].priority)])
  }

  /** The state between the choice of the next thread and the return of the previous one. */
  ghost predicate Over(s: Sys, r: Rest, s': Sys, r': Rest) {
    && s'.current.Some? && s'.current != s.current && !s'.leaving
    && s'.locked == s.locked && s'.idle == s.idle && s'.reaper == s.reaper && s'.waits == s.waits &&
       s'.timers == s.timers
    && r' == r.(trace := r.trace + [Pick(s'.current.value)])
    && (s.current.Some? ==> s.current.value in s.threads && s.current.value in s'.threads &&
                            s'.threads[s.current.value] == s.threads[s.current.value])
    && if s.current.Some? && s.threads[s.current.value].state == Running then
         var t := s.current.value;
         && !s.leaving && t in s'.place && t in s'.held && s'.place[t] == Nowhere && s'.held[t] >= 1
         && (t == s.idle || t == s.reaper ==> s'.held[t] >= 2)
         && (t != s.idle ==> IdleStands(s')) && (t != s.reaper ==> ReaperStands(s'))
         && s'.held[t := s'.held[t] - 1] == s.held
       else
         (s.current.Some? ==> s.leaving) && Standing(s') && s'.held == s.held
  }

  lemma SwitchOver(s: Sys, next: nat, r: Rest, popping: bool)
    requires Core(s) && MaySwitch(s) && Reaping(s, r, popping) && Balanced(s.waits, r) && r.pending.None?
    requires var q := ReadyQ(First(s.ready, LEVEL_MAX)); next in s.place && s.place[next] == In(q)
    ensures var q := ReadyQ(First(s.ready, LEVEL_MAX));
            && Exists(s, q) && next in s.held && next in s.threads && (s.current.Some? ==>
                   s.current.value in s.held && s.current.value != next)
            && var s1 := Unchained(s, next, q);
            && s1.held[next] > 0 && s1.threads[next].refcnt > 0
            && var s', r' := Switched(s1, next), r.(trace := r.trace + [Pick(next)]);
            Core(s') && Reaping(s', r', popping) && Balanced(s'.waits, r') && Over(s, r, s', r')
  {
    hide Placed, Book, Members, First, Over;
    var q := ReadyQ(First(s.ready, LEVEL_MAX));
    PlaceFacts(s, next);
    Facts(s, next);
    KernelFacts(s);
    Unlink(s, next, q);
    var s1 := Unchained(s, next, q);
    if s.current.Some? {
      CurrentFacts(s);
      CurrentFacts(s1);
    }
    Facts(s1, next);
    PlacedKeys(s1);
    SwitchPlaced(s1, next);
    SwitchBook(s1, next);
    OverHolds(s, r, next, q);
  }

  lemma OverHolds(s: Sys, r: Rest, next: nat, q: Queue)
    requires Core(s) && MaySwitch(s) && q.ReadyQ? && Exists(s, q) && next in s.threads && next in s.held &&
             next in s.place && s.place[next] == In(q)
    requires s.current.Some? ==> s.current.value in s.held && s.current.value != next
    ensures Over(s, r, Switched(Unchained(s, next, q), next), r.(trace := r.trace + [Pick(next)]))
  {
    hide Placed, Book, Members, First, Exists;
    KernelFacts(s);
    KernelCurrent(s);
    if s.current.Some? {
      CurrentFacts(s);
      Facts(s, s.current.value);
    }
    SwitchHeld(s, next, q);
  }

  /** The references in hand after the choice: that of the thread that has to go back. */
  lemma SwitchHeld(s: Sys, next: nat, q: Queue)
    requires Exists(s, q) && next in s.held && next in s.threads
    requires s.current.Some? ==> s.current.value in s.held && s.current.value != next
    ensures var s' := Switched(Unchained(s, next, q), next);
            if s.current.Some? && !s.leaving then
              var t := s.current.value;
              t in s'.held && s'.held[t] == s.held[t] + 1 && s'.held[t := s'.held[t] - 1] == s.held
            else
              s'.held == s.held
  {
    hide Members, Exists;
  }

  lemma UnchainedParts(s: Sys, t: nat, q: Queue)
    requires Exists(s, q) && t in s.held
    ensures var s' := Unchained(s, t, q);
            && s'.threads == s.threads && s'.held == s.held[t := s.held[t] + 1] && s'.current == s.current
            && s'.place == s.place[t := Nowhere] && s'.leaving == s.leaving && s'.idle == s.idle &&
               s'.reaper == s.reaper
  {
  }

  lemma RequeuedCurrent(s: Sys, r: Rest, t: nat, s': Sys, r': Rest)
    requires Requeued(s, r, t, s', r')
    ensures s'.current == s.current && s'.leaving == s.leaving
  {
  }

  /** The whole switch, from the choice to the return of the previous thread. */
  lemma SwitchEnd(s: Sys, r: Rest, s1: Sys, r1: Rest, s': Sys, r': Rest)
    requires Over(s, r, s1, r1)
    requires if s.current.Some? && s.threads[s.current.value].state == Running then
               Requeued(s1, r1, s.current.value, s', r')
             else s' == s1 && r' == r1
    ensures s'.held == s.held && s'.current == s1.current
    ensures r1.trace <= r'.trace ==> r.trace + [Pick(s1.current.value)] <= r'.trace
    ensures s.current.Some? && s.leaving ==> LeftBehind(s, r, s', r')
    ensures s.current.Some? && !s.leaving ==> WentBack(s, r, s', r')
  {
  }

  /** What `sched_add_thread` does to a thread in no list: dead ones are left, those of a locked process only marked. */
  ghost predicate AddedBy(s: Sys, trace: seq<Event>, t: nat, s': Sys, trace': seq<Event>) {
    && t in s.threads
    && var th := s.threads[t];
    if th.state == Dead then
      s' == s && trace' == trace
    else if t in s.locked then
      s' == s.(threads := s.threads[t := th.(state := Ready)]) && trace' == trace
    else
      && Exists(s, ReadyQ(th.priority)) && s' == Chained(s, t, ReadyQ(th.priority), Ready)
      && trace' == trace + [Push(t, th.priority)]
  }

  /** It does not concern the reaper's books, and it puts the kernel threads back. */
  lemma AddKeeps(s: Sys, r: Rest, t: nat, s': Sys, r': Rest, popping: bool)
    requires Core(s) && t in s.threads && s.place[t] == Nowhere && Reaping(s, r, popping) && Balanced(s.waits, r)
    requires AddedBy(s, r.trace, t, s', r'.trace) && r' == r.(trace := r'.trace)
    ensures Reaping(s', r', popping) && Balanced(s'.waits, r') && r.trace <= r'.trace
    ensures t == s.idle || IdleStands(s) ==> IdleStands(s')
    ensures t == s.reaper || ReaperStands(s) ==> ReaperStands(s')
    ensures t in s'.threads && t in s'.held && s'.held == s.held && s'.threads[t].refcnt > 0 <== s.threads[t].refcnt > 0
  {
    hide Placed;
    Facts(s, t);
  }

  /** What becomes of a thread that goes back to its queue, and of the others. */
  ghost predicate Requeued(s: Sys, r: Rest, t: nat, s': Sys, r': Rest) {
    && s'.timers == s.timers && s'.current == s.current && s'.leaving == s.leaving && s'.threads.Keys == s.threads.Keys
    && REAPER_SEM in s'.waits && s'.waits == s.waits[REAPER_SEM := s'.waits[REAPER_SEM]]
    && REAPER_SEM in r'.sems && r'.sems == r.sems[REAPER_SEM := r'.sems[REAPER_SEM]]
    && (forall u :: u in s.threads ==> s'.threads[u].alarm == s.threads[u].alarm)
    && (forall u :: u in s.threads && u != t && u != s.reaper ==> s'.threads[u] == s.threads[u])
    && t in s.threads && t in s'.threads && t in s'.place
    && t in s.held && s.held[t] > 0 && s'.held == s.held[t := s.held[t] - 1]
    && r'.pending == r.pending && r'.mark == r.mark
    && (s.threads[t].state == Dead ==> s'.threads[t].refcnt == s.threads[t].refcnt - 1)
    && (s.threads[t].state != Dead && t !in s.locked ==>
          s'.place[t] == In(ReadyQ(s.threads[t].priority)) && r'.trace == r.trace + [Push(t, s.threads[t].priority)])
    && (forall u :: u in s.place && u != t && u != s.reaper ==> u in s'.place && s'.place[u] == s.place[u])
  }

  lemma RequeueEffect(s: Sys, r: Rest, t: nat, s1: Sys, r1: Rest, s': Sys, r': Rest)
    requires Core(s) && t in s.threads && s.place[t] == Nowhere && REAPER_SEM in s.waits && t in s.held && s.held[t] > 0
    requires UnrefOf(s1, r1, t, s', r') && r1 == r.(trace := r1.trace) && Core(s1) &&
             AddedBy(s, r.trace, t, s1, r1.trace)
    ensures Requeued(s, r, t, s', r')
  {
    hide Core, UnrefOf, AddedBy;
    KernelFacts(s);
    AddEffect(s, r.trace, t, s1, r1.trace);
    UnrefEffect(s1, r1, t, s', r');
  }

  lemma AddEffect(s: Sys, trace: seq<Event>, t: nat, s': Sys, trace': seq<Event>)
    requires Core(s) && t in s.threads && s.place[t] == Nowhere && AddedBy(s, trace, t, s', trace')
    ensures s'.timers == s.timers && s'.waits == s.waits && s'.held == s.held && s'.reaper == s.reaper
    ensures s'.current == s.current && s'.leaving == s.leaving && s'.threads.Keys == s.threads.Keys &&
            s'.place.Keys == s.place.Keys
    ensures forall u :: u in s.threads ==> s'.threads[u].alarm == s.threads[u].alarm
    ensures forall u :: u in s.threads && u != t ==> s'.threads[u] == s.threads[u]
    ensures forall u :: u in s.place && u != t ==> s'.place[u] == s.place[u]
    ensures t in s'.place && s'.place[t] != In(WaitQ(REAPER_SEM))
    ensures s.threads[t].state != Dead && t !in s.locked ==>
              s'.place[t] == In(ReadyQ(s.threads[t].priority)) && trace' == trace + [Push(t, s.threads[t].priority)]
    ensures s.threads[t].state == Dead ==> s' == s
  {
    hide Placed, Book, Members;
    PlacedKeys(s);
  }

  /** `thread_unref` touches the thread's count, and else only the reaper. */
  lemma UnrefEffect(s: Sys, r: Rest, t: nat, s': Sys, r': Rest)
    requires Core(s) && UnrefOf(s, r, t, s', r')
    ensures s'.timers == s.timers && s'.current == s.current && s'.leaving == s.leaving &&
            s'.threads.Keys == s.threads.Keys
    ensures REAPER_SEM in s'.waits && s'.waits == s.waits[REAPER_SEM := s'.waits[REAPER_SEM]]
    ensures REAPER_SEM in r'.sems && r'.sems == r.sems[REAPER_SEM := r'.sems[REAPER_SEM]]
    ensures forall u :: u in s.threads ==> s'.threads[u].alarm == s.threads[u].alarm
    ensures forall u :: u in s.threads && u != t && u != s.reaper ==> s'.threads[u] == s.threads[u]
    ensures forall u :: u in s.place && u != s.reaper ==> u in s'.place && s'.place[u] == s.place[u]
    ensures t in s.place && t in s'.place && (s.place[t] != In(WaitQ(REAPER_SEM)) ==> s'.place[t] == s.place[t])
    ensures t in s.held && s.held[t] > 0 && s'.held == s.held[t := s.held[t] - 1]
    ensures s.place[t] != Nowhere ==> r'.trace == r.trace
    ensures r'.pending == r.pending && r'.mark == r.mark
    ensures s.threads[t].state == Dead ==> s'.threads[t].refcnt == s.threads[t].refcnt - 1
  {
    hide Placed, Book, Members;
    PlacedKeys(s);
    Facts(s, t);
    KernelFacts(s);
    ReaperQueue(s);
  }

  lemma StandingParts(s: Sys)
    requires Standing(s)
    ensures IdleStands(s) && ReaperStands(s)
  {
  }

  /** A sleeper has been taken off the list `q` and made ready, or forgotten if it is dead. */
  ghost predicate Roused(s: Sys, r: Rest, q: Queue, t: nat, s': Sys, r': Rest) {
    && Exists(s, q) && Exists(s', q) && Members(s', q) == Erase(Members(s, q), t)
    && REAPER_SEM in s.waits && REAPER_SEM in s'.waits && s'.waits.Keys == s.waits.Keys
    && (forall w :: w in s.waits && w != REAPER_SEM && WaitQ(w) != q ==> s'.waits[w] == s.waits[w])
    && (q != TimerQ ==> s'.timers == s.timers)
    && s'.current == s.current && s'.leaving == s.leaving && s'.threads.Keys == s.threads.Keys
    && REAPER_SEM in r'.sems && r'.sems == r.sems[REAPER_SEM := r'.sems[REAPER_SEM]]
    && (forall u :: u in s.threads ==> s'.threads[u].alarm == s.threads[u].alarm)
    && (forall u :: u in s.threads && u != t && u != s.reaper ==> s'.threads[u] == s.threads[u])
    && t in s.threads && t in s'.threads && t in s'.place && s'.held == s.held
    && r'.pending == r.pending && r'.mark == r.mark
    && (s.threads[t].state == Dead ==> s'.threads[t].refcnt == s.threads[t].refcnt - 1)
    && (s.threads[t].state != Dead && t !in s.locked ==>
          s'.place[t] == In(ReadyQ(s.threads[t].priority)) && r'.trace == r.trace + [Push(t, s.threads[t].priority)])
    && (forall u :: u in s.place && u != t && u != s.reaper ==> u in s'.place && s'.place[u] == s.place[u])
  }

  lemma RouseEffect(s: Sys, r: Rest, q: Queue, t: nat, s': Sys, r': Rest)
    requires Exists(s, q) && t in s.held && t in s.place && REAPER_SEM in s.waits && q != WaitQ(REAPER_SEM) &&
             !q.ReadyQ?
    requires Requeued(Unchained(s, t, q), r, t, s', r')
    ensures Roused(s, r, q, t, s', r')
  {
    var s1 := Unchained(s, t, q);
    assert s1.held[t := s1.held[t] - 1] == s.held;
    assert Members(s1, q) == Erase(Members(s, q), t);
    assert forall u :: u in s.place && u != t ==> u in s1.place && s1.place[u] == s.place[u];
    hide Erase;
  }

  /**
   * A thread that slept in `s` is ready in `s'`, unless it was dead or its process locked; a dead one has lost a
   * reference.
   */
  ghost predicate MadeReady(s: Sys, t: nat, s': Sys) {
    && t in s.threads && t in s'.threads && t in s'.place
    && (s.threads[t].state == Dead ==> s'.threads[t].refcnt == s.threads[t].refcnt - 1)
    && (s.threads[t].state != Dead && t !in s.locked ==> s'.place[t] == In(ReadyQ(s.threads[t].priority)))
  }

  lemma RousedThere(s: Sys, r: Rest, w: nat, t: nat, s': Sys, r': Rest)
    requires Roused(s, r, WaitQ(w), t, s', r')
    ensures w in s'.waits
  {
  }

  lemma FiredThere(s: Sys, r: Rest, t: nat, s': Sys, r': Rest)
    requires Roused(s, r, TimerQ, t, s', r')
    ensures t in s'.threads && s'.held == s.held && r'.pending == r.pending
  {
  }

  lemma RousedSems(s: Sys, r: Rest, w: nat, t: nat, s': Sys, r': Rest)
    requires Roused(s, r, WaitQ(w), t, s', r') && w != REAPER_SEM
    ensures (w in r.sems <==> w in r'.sems) && (w in r.sems ==> r'.sems[w] == r.sems[w])
    ensures s'.held == s.held && r'.pending == r.pending
  {
  }

  /** The first `n` sleepers of queue `w` have been woken. */
  ghost predicate Waking(s: Sys, w: nat, n: nat, s': Sys) {
    && w in s.waits && w in s'.waits && n <= |s.waits[w]| && s'.waits[w] == s.waits[w][n..] && s'.locked == s.locked
    && s'.reaper == s.reaper && s.reaper !in s.waits[w] && NoDup(s.waits[w])
    && (forall u :: u in s.waits[w] ==> u in s.threads && u in s'.threads && u in s'.place)
    && (forall i :: n <= i < |s.waits[w]| ==> s'.threads[s.waits[w][i]] == s.threads[s.waits[w][i]])
    && (forall i :: 0 <= i < n ==> MadeReady(s, s.waits[w][i], s'))
  }

  lemma WakingParts(s: Sys, w: nat, n: nat, s': Sys)
    requires Waking(s, w, n, s')
    ensures w in s.waits && w in s'.waits && n <= |s.waits[w]| && s'.waits[w] == s.waits[w][n..]
    ensures forall i :: 0 <= i < n ==> MadeReady(s, s.waits[w][i], s')
  {
  }

  lemma WakingStart(s: Sys, w: nat)
    requires Core(s) && Standing(s) && w in s.waits && w != REAPER_SEM
    ensures Waking(s, w, 0, s)
  {
    hide Placed, Book, NoDup;
    QueuePlaces(s, WaitQ(w));
    PlacedKeys(s);
    KernelFacts(s);
    assert Members(s, WaitQ(w)) == s.waits[w];
  }

  lemma WakingStep(s: Sys, w: nat, n: nat, s1: Sys, r1: Rest, s2: Sys, r2: Rest)
    requires Waking(s, w, n, s1) && n < |s.waits[w]| && s2.locked == s1.locked && s2.reaper == s1.reaper
    requires Roused(s1, r1, WaitQ(w), s1.waits[w][0], s2, r2) && s2.place.Keys == s2.threads.Keys
    ensures Waking(s, w, n + 1, s2)
  {
    hide NoDup;
    EraseFront(s1.waits[w]);
    Different(s.waits[w], n);
  }

  lemma NonePending(s: Sys, r: Rest, popping: bool)
    requires Reaping(s, r, popping)
    ensures s.current.None? ==> r.pending.None?
  {
  }

  lemma ReapingFacts(s: Sys, r: Rest, popping: bool)
    requires Reaping(s, r, popping) && Balanced(s.waits, r)
    ensures REAPER_SEM in s.waits && REAPER_SEM in r.sems && REAPER_SEM in r.calls
  {
  }

  lemma PlacedKeys(s: Sys)
    requires Core(s)
    ensures s.place.Keys == s.threads.Keys == s.held.Keys
  {
  }

  lemma KernelCurrent(s: Sys)
    requires Core(s)
    ensures forall t :: t in s.place && s.place[t] == Current ==> s.current == Some(t) && !s.leaving
  {
  }

  /** A thread is ready somewhere unless the idle thread runs alone. */
  lemma SomebodyReady(s: Sys)
    requires Core(s) && Standing(s) && s.current != Some(s.idle)
    ensures |s.ready| == LEVELS && s.ready[First(s.ready, LEVEL_MAX)] != []
  {
    hide Placed, Book, First;
    KernelFacts(s);
    Facts(s, s.idle);
    KernelCurrent(s);
    QueuePlaces(s, ReadyQ(LEVEL_MIN));
    assert s.idle in Members(s, ReadyQ(LEVEL_MIN));
  }

  /** The running thread gives up the processor: its reference is in the hand of the code under way. */
  ghost function Vacated(s: Sys): Sys
    requires s.current.Some? && s.current.value in s.held
  {
    s.(leaving := true, place := s.place[s.current.value := Nowhere],
       held := s.held[s.current.value := s.held[s.current.value] + 1])
  }

  lemma Vacate(s: Sys)
    requires Core(s) && s.current.Some? && !s.leaving
    ensures s.current.value in s.held && Core(Vacated(s))
  {
    hide Placed, Book;
    var t := s.current.value;
    CurrentFacts(s);
    Facts(s, t);
    VacatePlaced(s);
    BookChange(s, Vacated(s), t);
  }

  lemma VacatePlaced(s: Sys)
    requires Placed(s) && s.current.Some? && !s.leaving && s.current.value in s.held
    ensures Placed(Vacated(s))
  {
    assert forall q :: Members(Vacated(s), q) == Members(s, q);
    hide NoDup, Members;
  }

  /** The running thread sleeps in the list `q`, which now holds the reference. */
  ghost function Asleep(s: Sys, q: Queue): Sys
    requires s.current.Some? && s.current.value in s.threads && Exists(s, q)
  {
    var t := s.current.value;
    WithMembers(s, q, Members(s, q) + [t]).(leaving := true, place := s.place[t := In(q)],
                                            threads := s.threads[t := s.threads[t].(state := Sleeping)])
  }

  lemma FallAsleep(s: Sys, q: Queue)
    requires Core(s) && s.current.Some? && !s.leaving && s.current != Some(s.idle) && Exists(s, q) && !q.ReadyQ?
    requires q == WaitQ(REAPER_SEM) ==> s.current == Some(s.reaper)
    ensures s.current.value in s.threads && Core(Asleep(s, q))
  {
    hide Core, Members, Exists;
    var t := s.current.value;
    CurrentFacts(s);
    Facts(s, t);
    Vacate(s);
    var s1 := Vacated(s);
    assert Exists(s1, q) && Members(s1, q) == Members(s, q) by {
      SameQueues(s, s1, q);
    }
    Chain(s1, t, q, Sleeping);
    var s2 := Chained(s1, t, q, Sleeping);
    Keep(s2, t, Lighter(s2.threads[t]), s.held[t]);
    assert s2.held[t := s.held[t]] == s.held;
    assert s2.place == s.place[t := In(q)];
    assert Kept(s2, t, Lighter(s2.threads[t]), s.held[t]) == Asleep(s, q);
  }

  lemma AsleepIs(s: Sys, w: nat)
    requires s.current.Some? && s.current.value in s.threads && w in s.waits
    ensures var t := s.current.value;
            Asleep(s, WaitQ(w)) ==
            s.(waits := s.waits[w := s.waits[w] + [t]], leaving := true, place := s.place[t := In(WaitQ(w))],
               threads := s.threads[t := s.threads[t].(state := Sleeping)])
  {
  }

  lemma AsleepTimer(s: Sys)
    requires s.current.Some? && s.current.value in s.threads
    ensures var s' := Asleep(s, TimerQ);
            && s'.timers == s.timers + [s.current.value] && s'.leaving && s'.current == s.current
            && s.current.value in s'.threads
            && s'.threads[s.current.value].alarm == s.threads[s.current.value].alarm
  {
  }

  lemma AsleepParts(s: Sys, q: Queue)
    requires s.current.Some? && s.current.value in s.threads && Exists(s, q)
    ensures var s' := Asleep(s, q); s'.current == s.current && s'.leaving && s'.held == s.held
  {
  }

  lemma SameQueues(s: Sys, s': Sys, q: Queue)
    requires s'.ready == s.ready && s'.waits == s.waits && s'.timers == s.timers
    ensures Exists(s', q) == Exists(s, q) && Members(s', q) == Members(s, q)
  {
  }

  /** A semaphore: its value, the threads in its queue, and those that have lowered it and are about to queue. */
  datatype Sem = Sem(value: int, waiters: nat, window: nat)

  datatype SemStep = Lower | Block | Raise

  /** The two halves of `semaphore_down`, and `semaphore_up`, which wakes nobody while the value is negative. */
  function SemNext(s: Sem, step: SemStep): Sem {
    match step
    case Lower => Sem(s.value - 1, s.waiters, if s.value - 1 < 0 then s.window + 1 else s.window)
    case Block => if s.window > 0 then Sem(s.value, s.waiters + 1, s.window - 1) else s
    case Raise => Sem(s.value + 1, if s.value + 1 >= 0 && s.waiters > 0 then s.waiters - 1 else s.waiters, s.window)
  }

  function SemAfter(s: Sem, steps: seq<SemStep>): Sem {
    if steps == [] then s else SemNext(SemAfter(s, steps[..|steps| - 1]), steps[|steps| - 1])
  }

  function Count(steps: seq<SemStep>, step: SemStep): nat {
    if steps == [] then 0
    else Count(steps[..|steps| - 1], step) + if steps[|steps| - 1] == step then 1 else 0
  }

  /** In every interleaving from `n`, at most `n` threads are past the semaphore. */
  lemma {:induction false} SemaphoreSafe(n: nat, steps: seq<SemStep>)
    ensures var s := SemAfter(Sem(n, 0, 0), steps);
            && s.value == n + Count(steps, Raise) - Count(steps, Lower) && s.value + s.waiters + s.window >= 0
            && Count(steps, Lower) - s.waiters - s.window - Count(steps, Raise) <= n
  {
    if steps != [] {
      SemaphoreSafe(n, steps[..|steps| - 1]);
    }
  }

  /** Every missing unit has its waiter. */
  ghost predicate Exact(s: Sem) {
    s.waiters + s.window == if s.value < 0 then -s.value else 0
  }

  /** `semaphore_up` keeps the count of waiters exact if and only if at most one thread waits and none is about to. */
  lemma OneWaiter(s: Sem)
    requires Exact(s)
    ensures Exact(SemNext(s, Lower)) && Exact(SemNext(s, Block))
    ensures Exact(SemNext(s, Raise)) <==> s.waiters <= 1 && s.window == 0
  {
    if s.value >= 0 {
      assert s.waiters == 0 && s.window == 0;
    } else {
      assert s.waiters + s.window == -s.value;
    }
  }

  /**
   * A waiter is left asleep at the value 0 by two calls for two waiters, and by one call between the halves of a down.
   */
  lemma LostWakeup()
    ensures var two := SemNext(SemNext(SemNext(SemNext(Sem(0, 0, 0), Lower), Block), Lower), Block);
            two == Sem(-2, 2, 0) && SemNext(SemNext(two, Raise), Raise) == Sem(0, 1, 0)
    ensures SemNext(SemNext(SemNext(Sem(0, 0, 0), Lower), Raise), Block) == Sem(0, 1, 0)
  {
  }

  /** Semaphore `i` of the machine. */
  ghost function SemOf(s: Sys, r: Rest, i: nat): Sem
    requires i in r.sems && i in s.waits
  {
    Sem(r.sems[i], |s.waits[i]|, if r.pending == Some(i) then 1 else 0)
  }

  /** A thread other than the reaper sleeps in a list that is not a semaphore's. */
  lemma AsleepKeeps(s: Sys, q: Queue, r: Rest, popping: bool)
    requires Core(s) && s.current.Some? && !s.leaving && s.current != Some(s.idle) && s.current != Some(s.reaper)
    requires Exists(s, q) && !q.ReadyQ? && (q.WaitQ? ==> q.id !in r.sems)
    requires Reaping(s, r, popping) && Balanced(s.waits, r) && Standing(s) && s.current.value in s.threads &&
             r.pending.None?
    ensures var s' := Asleep(s, q); Reaping(s', r, popping) && Balanced(s'.waits, r) && MaySwitch(s')
  {
    hide Placed, Book, First;
    CurrentFacts(s);
    SomebodyReady(s);
  }

  /** The first half of `semaphore_down` on the books. */
  ghost function Lowered(r: Rest, i: nat): Rest
    requires i in r.sems && i in r.calls
  {
    r.(sems := r.sems[i := r.sems[i] - 1], calls := r.calls[i := r.calls[i].(downs := r.calls[i].downs + 1)],
       pending := if r.sems[i] - 1 < 0 then Some(i) else None,
       mark := if i == REAPER_SEM then r.calls[i].ups else r.mark)
  }

  /** The caller has lowered semaphore `i`, and will block if the value became negative. */
  ghost predicate LoweredBy(s: Sys, r: Rest, i: nat, s': Sys, r': Rest) {
    && i in s.waits && i in r.sems && s' == s && r'.sems.Keys == r.sems.Keys
    && SemOf(s', r', i) == SemNext(SemOf(s, r, i), Lower) && r'.sems == r.sems[i := r'.sems[i]]
    && r'.list == r.list && r'.trace == r.trace && (r'.pending.Some? ==> r'.pending == Some(i))
  }

  lemma LowerKeeps(s: Sys, r: Rest, i: nat, popping: bool)
    requires Core(s) && s.current.Some? && !s.leaving && REAPER_SEM in r.sems && r.pending.None?
    requires Reaping(s, r, popping) && Balanced(s.waits, r) && i in r.sems
    requires if i == REAPER_SEM then s.current == Some(s.reaper) && !popping
                                     else s.current != Some(s.reaper) && s.current != Some(s.idle)
    ensures i in s.waits && i in r.calls
    ensures Reaping(s, Lowered(r, i), popping || i == REAPER_SEM) && Balanced(s.waits, Lowered(r, i))
    ensures LoweredBy(s, r, i, s, Lowered(r, i))
  {
    hide Placed, Book, First;
    CurrentFacts(s);
    Facts(s, s.current.value);
  }

  /** The caller is asleep at the end of the queue of the semaphore it had lowered. */
  ghost predicate BlockedBy(s: Sys, r: Rest, s': Sys, r': Rest) {
    && r.pending.Some? && s.current.Some? && r.pending.value in s.waits && r.pending.value in s'.waits
    && r.pending.value in r.sems && r.pending.value in r'.sems
    && var i := r.pending.value;
    && SemOf(s', r', i) == SemNext(SemOf(s, r, i), Block) && s'.waits == s.waits[i := s.waits[i] + [s.current.value]]
    && r' == r.(pending := None, trace := r'.trace)
  }

  lemma BlockEffect(s: Sys, r: Rest, s': Sys, r': Rest)
    requires r.pending.Some? && s.current.Some? && s.current.value in s.threads
    requires r.pending.value in s.waits && r.pending.value in r.sems
    requires LeftBehind(Asleep(s, WaitQ(r.pending.value)), r.(pending := None), s', r')
    ensures BlockedBy(s, r, s', r')
  {
  }

  lemma BlockKeeps(s: Sys, r: Rest, popping: bool)
    requires Core(s) && Reaping(s, r, popping) && Balanced(s.waits, r) && Standing(s) && r.pending.Some?
    ensures s.current.Some? && s.current.value in s.threads && !s.leaving && s.current != Some(s.idle)
    ensures r.pending.value in s.waits && r.pending.value in r.sems
    ensures r.pending.value == REAPER_SEM ==> s.current == Some(s.reaper)
    ensures var s' := Asleep(s, WaitQ(r.pending.value));
            var r' := r.(pending := None);
            Reaping(s', r', popping) && Balanced(s'.waits, r') && MaySwitch(s')
  {
    hide Placed, Book, First;
    CurrentFacts(s);
    Facts(s, s.current.value);
    SomebodyReady(s);
    ReaperQueue(s);
  }

  /** `__thread_destroy` of a thread nobody refers to. */
  ghost function Destroyed(s: Sys, t: nat): Sys {
    s.(threads := s.threads - {t}, place := s.place - {t}, held := s.held - {t}, locked := s.locked - {t})
  }

  lemma DestroyedParts(s: Sys, t: nat)
    ensures var s' := Destroyed(s, t);
            && s'.threads == s.threads - {t} && s'.held == s.held - {t} && s'.current == s.current &&
               s'.leaving == s.leaving
            && s'.ready == s.ready && s'.waits == s.waits
  {
  }

  lemma Destroy(s: Sys, t: nat)
    requires Core(s) && t in s.threads && s.threads[t].refcnt == 0 && s.current != Some(t)
    ensures Core(Destroyed(s, t)) && t != s.idle && t != s.reaper
  {
    hide Placed, Book;
    Facts(s, t);
    DestroyPlaced(s, t);
    DestroyBook(s, t);
  }

  lemma DestroyPlaced(s: Sys, t: nat)
    requires Placed(s) && t in s.threads && s.place[t] == Nowhere && s.current != Some(t)
    ensures Placed(Destroyed(s, t))
  {
    var s' := Destroyed(s, t);
    forall q
      ensures Members(s', q) == Members(s, q)
    {
    }
    hide NoDup, Members;
  }

  lemma DestroyBook(s: Sys, t: nat)
    requires Book(s) && t != s.idle && t != s.reaper
    ensures Book(Destroyed(s, t))
  {
  }

  /** The reaper runs past its `semaphore_down` only with something to pop. */
  lemma NeverEmpty(s: Sys, r: Rest)
    requires Core(s) && Reaping(s, r, true) && !s.leaving && r.pending.None?
    ensures s.current == Some(s.reaper) ==> r.list != []
  {
    hide Placed, Book;
    if s.current.Some? {
      CurrentFacts(s);
    }
  }

  lemma ReaperAwake(s: Sys, r: Rest, popping: bool)
    requires Core(s) && Reaping(s, r, popping) && !s.leaving
    ensures s.current == Some(s.reaper) && popping && r.pending.None? ==> r.list != []
    ensures r.pending == Some(REAPER_SEM) ==> s.place[s.reaper] != In(WaitQ(REAPER_SEM))
  {
    hide Placed, Book;
    if s.current.Some? {
      CurrentFacts(s);
    }
  }

  /** In the window the reaper runs, and nobody waits for its semaphore. */
  lemma WindowFacts(s: Sys, r: Rest, popping: bool)
    requires Core(s) && Reaping(s, r, popping) && !s.leaving && r.pending == Some(REAPER_SEM)
    ensures s.current == Some(s.reaper) && s.waits[REAPER_SEM] == []
  {
    hide Core;
    ReaperQueue(s);
    ReaperAwake(s, r, popping);
  }

  lemma PopKeeps(s: Sys, r: Rest, t: nat)
    requires Core(s) && Reaping(s, r, true) && Balanced(s.waits, r) && Standing(s) && s.current == Some(s.reaper) &&
             !s.leaving && r.pending.None?
    requires r.list != [] && t != s.idle && t != s.reaper
    ensures var s', r' := Destroyed(s, t), r.(list := r.list[1..]);
            Reaping(s', r', false) && Balanced(s'.waits, r') && Standing(s')
  {
    hide Placed, Book;
    CurrentFacts(s);
  }

  lemma DoomPop(threads: Threads, reaperList: seq<nat>)
    requires Doomed(threads, reaperList) && reaperList != []
    ensures reaperList[0] in threads && threads[reaperList[0]].refcnt == 0
    ensures Doomed(threads - {reaperList[0]}, reaperList[1..])
  {
    assert reaperList[0] in reaperList;
    PopNoDup(reaperList);
  }

  /** The running thread dies: its last own reference is in the hand of `sched_exit`. */
  ghost function Dying(s: Sys): Sys
    requires s.current.Some? && s.current.value in s.held && s.current.value in s.threads
  {
    var t := s.current.value;
    Vacated(s).(threads := s.threads[t := s.threads[t].(state := Dead)])
  }

  lemma Die(s: Sys, r: Rest, popping: bool)
    requires Core(s) && s.current.Some? && !s.leaving && s.current != Some(s.idle) && s.current != Some(s.reaper)
    requires Reaping(s, r, popping) && Balanced(s.waits, r) && Standing(s) && Doomed(s.threads, r.list) &&
             r.pending.None?
    ensures s.current.value in s.held && s.current.value in s.threads
    ensures var s' := Dying(s);
            && Core(s') && Reaping(s', r, popping) && Balanced(s'.waits, r) && Standing(s') &&
               Doomed(s'.threads, r.list)
            && var t := s.current.value;
            && t in s'.held && s'.held[t] >= 1 && t in s'.threads && s'.threads[t] == s.threads[t].(state := Dead)
            && t in s'.place && s'.place[t] == Nowhere && s'.held[t := s'.held[t] - 1] == s.held
  {
    hide Placed, Book, Doomed;
    var t := s.current.value;
    CurrentFacts(s);
    Vacate(s);
    Facts(s, t);
    var s1 := Vacated(s);
    Keep(s1, t, s.threads[t].(state := Dead), s1.held[t]);
    assert s1.held[t := s1.held[t]] == s1.held;
    Alive(s.threads, r.list, t, s.threads[t].(state := Dead));
  }

  /** After the death of the running thread another one can be picked. */
  lemma DeadMaySwitch(s: Sys, r: Rest, s': Sys, r': Rest)
    requires Core(s) && s.current.Some? && s.leaving && s.current != Some(s.idle) && s.current != Some(s.reaper) &&
             Standing(s')
    requires s.current.value in s.threads && s.threads[s.current.value].state == Dead &&
             s.place[s.current.value] == Nowhere
    requires UnrefOf(s, r, s.current.value, s', r') && Core(s')
    ensures MaySwitch(s') && s'.current == s.current && s'.leaving
    ensures s.current.value in s'.threads && s'.threads[s.current.value].state == Dead
    ensures r'.list == r.list + if s.threads[s.current.value].refcnt == 1 then [s.current.value] else []
  {
    hide Placed, Book, First, Reaping;
    KernelFacts(s);
    CurrentFacts(s);
    SomebodyReady(s');
  }

  lemma TimerSleep(s: Sys, r: Rest, popping: bool, alarm: Time)
    requires Core(s) && s.current.Some? && !s.leaving && s.current != Some(s.idle) && s.current != Some(s.reaper)
    requires Reaping(s, r, popping) && Balanced(s.waits, r) && Standing(s) && Doomed(s.threads, r.list) &&
             r.pending.None?
    ensures s.current.value in s.threads && s.threads[s.current.value].refcnt > 0
    ensures var t := s.current.value;
            var s' := Asleep(s.(threads := s.threads[t := s.threads[t].(alarm := alarm)]), TimerQ);
            Core(s') && Reaping(s', r, popping) && Balanced(s'.waits, r) && MaySwitch(s') && Doomed(s'.threads, r.list)
  {
    hide Placed, Book, First, Members, Doomed;
    var t := s.current.value;
    CurrentFacts(s);
    Facts(s, t);
    var th := s.threads[t].(alarm := alarm);
    Keep(s, t, th, s.held[t]);
    assert s.held[t := s.held[t]] == s.held;
    var s1 := s.(threads := s.threads[t := th]);
    FallAsleep(s1, TimerQ);
    AsleepKeeps(s1, TimerQ, r, popping);
    Alive(s.threads, r.list, t, th.(state := Sleeping));
    assert Asleep(s1, TimerQ).threads == s.threads[t := th.(state := Sleeping)];
  }

  /** A sleeping thread is taken off its list, which is not the reaper's. */
  lemma RouseKeeps(s: Sys, q: Queue, t: nat, r: Rest, popping: bool)
    requires Core(s) && Reaping(s, r, popping) && Balanced(s.waits, r) && Standing(s)
    requires t in s.place && s.place[t] == In(q) && !q.ReadyQ? && q != WaitQ(REAPER_SEM)
    requires q.WaitQ? && q.id in r.sems ==> r.sems[q.id] >= 0
    ensures Exists(s, q) && t in s.held && t in s.threads && t != s.idle && t != s.reaper
    ensures var s' := Unchained(s, t, q);
            && Core(s') && Reaping(s', r, popping) && Balanced(s'.waits, r) && Standing(s') && t in s'.held &&
               s'.held[t] >= 1
            && t in s'.place && s'.place[t] == Nowhere
  {
    hide Placed, Book, Members;
    PlaceFacts(s, t);
    KernelFacts(s);
    Unlink(s, t, q);
  }

  /** A whole turn of the reaper on the books. */
  lemma PopStep(s: Sys, r: Rest)
    requires Core(s) && Reaping(s, r, true) && Balanced(s.waits, r) && Standing(s) && Doomed(s.threads, r.list)
    requires s.current == Some(s.reaper) && !s.leaving && r.pending.None?
    ensures r.list != []
    ensures var s', r' := Destroyed(s, r.list[0]), r.(list := r.list[1..]);
            Core(s') && Reaping(s', r', false) && Balanced(s'.waits, r') && Standing(s') && Doomed(s'.threads, r'.list)
  {
    hide Core, Reaping, Balanced, Standing, Doomed;
    NeverEmpty(s, r);
    DoomPop(s.threads, r.list);
    CurrentFacts(s);
    Facts(s, s.reaper);
    Destroy(s, r.list[0]);
    PopKeeps(s, r, r.list[0]);
  }

  /** `semaphore_up` on the books, before anybody is woken. */
  ghost function Released(r: Rest, i: nat): Rest
    requires i in r.sems && i in r.calls
  {
    r.(sems := r.sems[i := r.sems[i] + 1], calls := r.calls[i := r.calls[i].(ups := r.calls[i].ups + 1)])
  }

  /** The effect of `semaphore_up`: `n` threads were woken, from the front of the queue. */
  ghost predicate UppedBy(s: Sys, r: Rest, i: nat, n: nat, s': Sys, r': Rest) {
    && i in s.waits && i in s'.waits && i in r.sems && i in r'.sems
    && SemOf(s', r', i) == SemNext(SemOf(s, r, i), Raise)
    && n <= 1 && n <= |s.waits[i]| && s'.waits[i] == s.waits[i][n..]
    && (n == 1 ==> MadeReady(s, s.waits[i][0], s'))
  }

  lemma UpEffect(s: Sys, r: Rest, i: nat, n: nat, s': Sys, r': Rest)
    requires i in s.waits && i in s'.waits && i in r.sems && i in r'.sems && r'.sems[i] == r.sems[i] + 1
    requires r'.pending == r.pending && n <= |s.waits[i]| && s'.waits[i] == s.waits[i][n..]
    requires n == if r.sems[i] + 1 >= 0 && s.waits[i] != [] then 1 else 0
    requires n == 1 ==> MadeReady(s, s.waits[i][0], s')
    ensures UppedBy(s, r, i, n, s', r')
  {
    hide MadeReady;
  }

  lemma UpKeeps(s: Sys, r: Rest, i: nat, popping: bool)
    requires Reaping(s, r, popping) && Balanced(s.waits, r) && i in r.sems && i != REAPER_SEM
    ensures i in s.waits && i in r.calls && Reaping(s, Released(r, i), popping) && Balanced(s.waits, Released(r, i))
  {
  }

  /** The timers that have not run out. */
  ghost function Pending(l: seq<nat>, threads: Threads, now: Time): seq<nat> {
    if l == [] then []
    else
      var t := l[|l| - 1];
      Pending(l[..|l| - 1], threads, now) + if t in threads && TimeCmp(now, threads[t].alarm) >= 0 then [] else [t]
  }

  lemma {:induction false} PendingFrom(l: seq<nat>, threads: Threads, now: Time)
    ensures forall t :: t in Pending(l, threads, now) ==> t in l
  {
    if l != [] {
      PendingFrom(l[..|l| - 1], threads, now);
    }
  }

  lemma {:induction false} EraseMiddle(a: seq<nat>, t: nat, b: seq<nat>)
    requires t !in a
    ensures Erase(a + [t] + b, t) == a + b
  {
    if a == [] {
      assert a + [t] + b == [t] + b;
    } else {
      EraseMiddle(a[1..], t, b);
      assert (a + [t] + b)[1..] == a[1..] + [t] + b;
      assert a + b == [a[0]] + (a[1..] + b);
    }
  }

  /** The first `j` timers of `s` have been looked at; `i` of them are still pending. */
  ghost predicate Ticking(s: Sys, now: Time, i: nat, j: nat, s': Sys) {
    && j <= |s.timers| && s'.timers == Pending(s.timers[..j], s.threads, now) + s.timers[j..]
    && i == |Pending(s.timers[..j], s.threads, now)| && s'.locked == s.locked && s'.reaper == s.reaper
    && s.reaper !in s.timers && NoDup(s.timers)
    && (forall u :: u in s.timers ==> u in s.threads && u in s'.threads && u in s'.place)
    && (forall k :: j <= k < |s.timers| ==> s'.threads[s.timers[k]] == s.threads[s.timers[k]])
    && (forall k :: 0 <= k < j && TimeCmp(now, s.threads[s.timers[k]].alarm) >= 0 ==> MadeReady(s, s.timers[k], s'))
  }

  lemma TickingStart(s: Sys, now: Time)
    requires Core(s) && Standing(s)
    ensures Ticking(s, now, 0, 0, s)
  {
    hide Placed, Book, NoDup;
    QueuePlaces(s, TimerQ);
    PlacedKeys(s);
    KernelFacts(s);
    assert Members(s, TimerQ) == s.timers;
  }

  /** A timer that has not run out stays. */
  lemma TickingPass(s: Sys, now: Time, i: nat, j: nat, s': Sys)
    requires Ticking(s, now, i, j, s') && i < |s'.timers|
    ensures j < |s.timers| && s'.timers[i] == s.timers[j] && s.timers[j] in s.threads
    ensures s.timers[j] in s'.threads && s'.threads[s.timers[j]] == s.threads[s.timers[j]]
    ensures TimeCmp(now, s.threads[s.timers[j]].alarm) < 0 ==> Ticking(s, now, i + 1, j + 1, s')
    ensures s.timers[j] in s'.timers
  {
    assert s.timers[j] in s.timers;
    assert s.timers[..j + 1][..j] == s.timers[..j];
  }

  lemma TickingEnd(s: Sys, now: Time, i: nat, j: nat, s': Sys)
    requires Ticking(s, now, i, j, s') && i >= |s'.timers|
    ensures s'.timers == Pending(s.timers, s.threads, now) && s.timers[..j] == s.timers
    ensures forall t :: t in s.timers && t in s.threads && TimeCmp(now, s.threads[t].alarm) >= 0 ==> MadeReady(s, t, s')
  {
    assert s.timers[..j] == s.timers;
  }

  /** One that has run out is taken off, and its thread is made ready. */
  lemma TickingFire(s: Sys, now: Time, i: nat, j: nat, s1: Sys, r1: Rest, s2: Sys, r2: Rest, s3: Sys)
    requires Ticking(s, now, i, j, s1) && j < |s.timers| && TimeCmp(now, s.threads[s.timers[j]].alarm) >= 0
    requires Roused(s1, r1, TimerQ, s.timers[j], s2, r2) && s2.place.Keys == s2.threads.Keys &&
             s2.locked == s1.locked && s2.reaper == s1.reaper
    requires s3 == s2.(threads := s3.threads) && s3.threads.Keys == s2.threads.Keys
    requires forall u :: u in s2.threads && u != s.timers[j] ==> s3.threads[u] == s2.threads[u]
    requires s.timers[j] in s2.threads && s3.threads[s.timers[j]].refcnt == s2.threads[s.timers[j]].refcnt
    ensures Ticking(s, now, i, j + 1, s3)
  {
    hide NoDup, Pending, Erase, TimeCmp;
    FireList(s.timers, j, s.threads, now);
    Different(s.timers, j);
  }

  lemma Different(l: seq<nat>, j: nat)
    requires NoDup(l) && j < |l|
    ensures forall k :: 0 <= k < |l| ==> l[k] in l
    ensures forall k :: 0 <= k < |l| && k != j ==> l[k] != l[j]
  {
  }

  lemma FireList(timers: seq<nat>, j: nat, threads: Threads, now: Time)
    requires j < |timers| && NoDup(timers) && timers[j] in threads && TimeCmp(now, threads[timers[j]].alarm) >= 0
    ensures Pending(timers[..j + 1], threads, now) == Pending(timers[..j], threads, now)
    ensures Erase(Pending(timers[..j], threads, now) + timers[j..], timers[j]) ==
            Pending(timers[..j + 1], threads, now) + timers[j + 1..]
  {
    var front := timers[..j];
    assert timers[..j + 1][..j] == front;
    assert timers[j] !in front;
    PendingFrom(front, threads, now);
    EraseMiddle(Pending(front, threads, now), timers[j], timers[j + 1..]);
    assert Pending(front, threads, now) + timers[j..] == Pending(front, threads, now) + [timers[j]] + timers[j + 1..];
  }

  /** A record may change where nobody looks: not its priority, state or references. */
  lemma Touch(s: Sys, r: Rest, t: nat, th: Thread, popping: bool)
    requires Core(s) && t in s.threads && th == s.threads[t].(alarm := th.alarm)
    requires Reaping(s, r, popping) && Balanced(s.waits, r) && Standing(s) && Doomed(s.threads, r.list)
    ensures var s' := s.(threads := s.threads[t := th]);
            Core(s') && Reaping(s', r, popping) && Balanced(s'.waits, r) && Standing(s') && Doomed(s'.threads, r.list)
  {
    hide Placed, Book;
    Facts(s, t);
    Keep(s, t, th, s.held[t]);
    assert s.held[t := s.held[t]] == s.held;
  }

  ghost predicate Fine(s: Sys, r: Rest, popping: bool) {
    Core(s) && Reaping(s, r, popping) && Balanced(s.waits, r) && Standing(s) && Doomed(s.threads, r.list)
  }

  /** A new thread, referenced by its creator and in no list. */
  ghost function Born(s: Sys, t: nat, priority: nat): Sys {
    s.(threads := s.threads[t := Thread(priority, Ready, 1, Time(0, 0))], place := s.place[t := Nowhere],
       held := s.held[t := 1])
  }

  lemma Bear(s: Sys, r: Rest, t: nat, priority: nat, popping: bool)
    requires Fine(s, r, popping) && t !in s.threads && priority < LEVELS
    ensures Fine(Born(s, t, priority), r, popping)
  {
    hide Placed, Book;
    PlacedKeys(s);
    KernelFacts(s);
    BearPlaced(s, t, priority);
    BearBook(s, t, priority);
  }

  lemma BearPlaced(s: Sys, t: nat, priority: nat)
    requires Placed(s) && t !in s.threads && priority < LEVELS
    ensures Placed(Born(s, t, priority))
  {
    assert forall q :: Members(Born(s, t, priority), q) == Members(s, q);
    hide NoDup, Members;
  }

  lemma BearBook(s: Sys, t: nat, priority: nat)
    requires Book(s) && t !in s.threads
    ensures Book(Born(s, t, priority))
  {
  }

  /** One reference more. */
  lemma HoldKeeps(s: Sys, r: Rest, t: nat, popping: bool)
    requires Fine(s, r, popping) && t in s.threads && s.threads[t].refcnt > 0
    ensures t in s.held && Fine(Kept(s, t, s.threads[t].(refcnt := s.threads[t].refcnt + 1), s.held[t] + 1), r, popping)
  {
    hide Placed, Book;
    Facts(s, t);
    Keep(s, t, s.threads[t].(refcnt := s.threads[t].refcnt + 1), s.held[t] + 1);
  }

  /** A ready thread other than the kernel's is taken off its queue and gets the state `state`. */
  lemma RemoveKeeps(s: Sys, r: Rest, r': Rest, t: nat, state: State, popping: bool)
    requires Fine(s, r, popping) && t in s.threads && t in s.place && t != s.idle && t != s.reaper
    requires s.place[t] == In(ReadyQ(s.threads[t].priority)) && r' == r.(trace := r'.trace)
    ensures var q := ReadyQ(s.threads[t].priority);
            && Exists(s, q) && t in s.held
            && var s' := Unchained(s, t, q);
            && s'.held[t] >= 1 && Fine(s'.(threads := s.threads[t := s.threads[t].(state := state)]), r', popping)
  {
    hide Placed, Book, Members;
    Facts(s, t);
    var q := ReadyQ(s.threads[t].priority);
    Unlink(s, t, q);
    var s' := Unchained(s, t, q);
    Keep(s', t, s.threads[t].(state := state), s'.held[t]);
    assert s'.held[t := s'.held[t]] == s'.held;
    Alive(s.threads, r.list, t, s.threads[t].(state := state));
  }

  /** A thread that sleeps or is in no list dies where it is. */
  lemma DieElsewhere(s: Sys, r: Rest, t: nat, popping: bool)
    requires Fine(s, r, popping) && t in s.threads && t in s.place && t != s.idle && t != s.reaper
    requires s.place[t] != Current && !(s.place[t].In? && s.place[t].queue.ReadyQ?)
    ensures Fine(s.(threads := s.threads[t := s.threads[t].(state := Dead)]), r, popping)
  {
    hide Placed, Book;
    Facts(s, t);
    Keep(s, t, s.threads[t].(state := Dead), s.held[t]);
    assert s.held[t := s.held[t]] == s.held;
  }

  lemma DequeuedThere(s: Sys, r: Rest, t: nat, s': Sys, r': Rest)
    requires Core(s) && UnrefOf(s, r, t, s', r') && t in s.place && s.place[t] == Nowhere && t != s.reaper
    ensures t in s'.threads && t in s'.place && s'.place[t] == Nowhere
    ensures s.threads[t].refcnt > 0 && s'.threads[t] == Lighter(s.threads[t])
  {
    hide Placed, Book, Members;
    KernelFacts(s);
    Facts(s, t);
  }

  lemma ReadyMember(s: Sys, t: nat)
    requires Core(s) && t in s.threads
    ensures t in s.place && s.threads[t].priority < |s.ready| == LEVELS
    ensures t in s.ready[s.threads[t].priority] <==> s.place[t].In? && s.place[t].queue.ReadyQ?
    ensures t in s.ready[s.threads[t].priority] ==> s.place[t] == In(ReadyQ(s.threads[t].priority))
    ensures s.place[t] == Current ==> s.current == Some(t)
  {
    Facts(s, t);
    QueuePlaces(s, ReadyQ(s.threads[t].priority));
    assert Members(s, ReadyQ(s.threads[t].priority)) == s.ready[s.threads[t].priority];
    hide NoDup, Members, Counted, Settled, Kernel;
  }

  lemma NewQueue(s: Sys, r: Rest, w: nat, popping: bool)
    requires Fine(s, r, popping) && w !in s.waits
    ensures Fine(s.(waits := s.waits[w := []]), r, popping) && w !in r.sems
  {
    hide Placed, Book;
    NewQueuePlaced(s, w);
    NewQueueBook(s, w);
  }

  lemma NewQueuePlaced(s: Sys, w: nat)
    requires Placed(s) && w !in s.waits
    ensures Placed(s.(waits := s.waits[w := []]))
  {
    var s' := s.(waits := s.waits[w := []]);
    forall q
      ensures Members(s', q) == Members(s, q)
    {
    }
    hide NoDup, Members;
  }

  lemma NewQueueBook(s: Sys, w: nat)
    requires Book(s)
    ensures Book(s.(waits := s.waits[w := []]))
  {
  }

  lemma NewSemaphore(s: Sys, r: Rest, i: nat, n: nat, popping: bool)
    requires Fine(s, r, popping) && i !in r.sems && i in s.waits && s.waits[i] == []
    ensures Fine(s, r.(sems := r.sems[i := n], calls := r.calls[i := Calls(n, 0, 0)]), popping)
  {
    hide Core;
  }

  lemma LockKeeps(s: Sys, r: Rest, locked: set<nat>, popping: bool)
    requires Fine(s, r, popping) && s.idle !in locked && s.reaper !in locked
    ensures Fine(s.(locked := locked), r, popping)
  {
    hide Placed;
    PlacedById(s, s.(locked := locked));
  }

  lemma Elsewhere(s: Sys, t: nat)
    requires Core(s) && t in s.threads && !s.leaving
    ensures t in s.place && t in s.held && s.threads[t].refcnt == s.held[t] + if s.place[t] == Nowhere then 0 else 1
    ensures s.place[t] == Nowhere <==>
            && s.current != Some(t) && t !in s.timers
            && (forall p :: 0 <= p < |s.ready| ==> t !in s.ready[p]) && (forall w :: w in s.waits ==> t !in s.waits[w])
  {
    hide Core, NoDup;
    Facts(s, t);
    KernelCurrent(s);
    if s.current.Some? {
      CurrentFacts(s);
    }
    forall q
      ensures t in Members(s, q) <==> s.place[t] == In(q)
    {
      QueuePlaces(s, q);
    }
    assert s.timers == Members(s, TimerQ);
    assert forall p :: 0 <= p < |s.ready| ==> s.ready[p] == Members(s, ReadyQ(p));
    assert forall w :: w in s.waits ==> s.waits[w] == Members(s, WaitQ(w));
    assert s.place[t].In? ==> t in Members(s, s.place[t].queue);
  }

  /** The state after `sched_init`, `idle_init` and `reaper_init`. */
  function Boot(idle: nat, reaper: nat): Sys {
    Sys(map[idle := Thread(LEVEL_MIN, Ready, 2, Time(0, 0)), reaper := Thread(LEVEL_MAX, Ready, 2, Time(0, 0))],
        [[idle], [], [], [], [reaper]], map[REAPER_SEM := []], [], None, false,
        map[idle := In(ReadyQ(LEVEL_MIN)), reaper := In(ReadyQ(LEVEL_MAX))], map[idle := 1, reaper := 1], {}, idle,
          reaper)
  }

  function BootRest(idle: nat, reaper: nat): Rest {
    Rest([], map[REAPER_SEM := 0], map[REAPER_SEM := Calls(0, 0, 0)], [Push(idle, LEVEL_MIN), Push(reaper, LEVEL_MAX)],
         None, 0)
  }

  lemma BootPlaced(idle: nat, reaper: nat)
    requires idle != reaper
    ensures Placed(Boot(idle, reaper))
  {
    var s := Boot(idle, reaper);
    forall q
      ensures Members(s, q) == if q == ReadyQ(LEVEL_MIN) then [idle] else if q == ReadyQ(LEVEL_MAX) then
                [reaper] else []
    {
    }
    hide Members;
  }

  lemma BootQueues(idle: nat, reaper: nat)
    ensures Recorded([[idle], [], [], [], [reaper]], [Push(idle, LEVEL_MIN), Push(reaper, LEVEL_MAX)])
  {
    var e, f := Push(idle, LEVEL_MIN), Push(reaper, LEVEL_MAX);
    Record([[], [], [], [], []], [], e);
    assert [] + [idle] == [idle] && [] + [reaper] == [reaper];
    assert [] + [e] == [e] && [e] + [f] == [e, f];
    assert Apply([[], [], [], [], []], e) == [[idle], [], [], [], []];
    Record([[idle], [], [], [], []], [e], f);
    assert Apply([[idle], [], [], [], []], f) == [[idle], [], [], [], [reaper]];
    hide Recorded;
  }

  lemma Begin(idle: nat, reaper: nat)
    requires idle != reaper
    ensures Fine(Boot(idle, reaper), BootRest(idle, reaper), false)
  {
    BootPlaced(idle, reaper);
    hide Placed;
  }

  /** `sched_add_thread` */
  ghost function Admitted(b: Books, t: nat): Books {
    if t !in b.sys.threads || b.sys.threads[t].state == Dead then b
    else
      var th := b.sys.threads[t];
      if t in b.sys.locked then b.(sys := b.sys.(threads := b.sys.threads[t := th.(state := Ready)]))
      else if !Exists(b.sys, ReadyQ(th.priority)) then b
      else
        Books(Chained(b.sys, t, ReadyQ(th.priority), Ready),
              b.rest.(trace := b.rest.trace + [Push(t, th.priority)]))
  }

  /** A thread whose reference is in hand goes to its ready queue. */
  ghost function SentBack(b: Books, t: nat): Books {
    Dropped(Admitted(b, t), t)
  }

  ghost predicate MayPick(s: Sys) {
    && |s.ready| == LEVELS && s.ready[First(s.ready, LEVEL_MAX)] != []
    && var next := s.ready[First(s.ready, LEVEL_MAX)][0];
    && next in s.threads && next in s.held && (s.current.Some? ==> s.current.value in s.held && s.current.value != next)
  }

  /** The first thread of the highest level runs. */
  ghost function Picked(b: Books): Books {
    if !MayPick(b.sys) then b
    else
      var p := First(b.sys.ready, LEVEL_MAX);
      var next := b.sys.ready[p][0];
      Books(Switched(Unchained(b.sys, next, ReadyQ(p)), next), b.rest.(trace := b.rest.trace + [Pick(next)]))
  }

  /** `sched_schedule_yield`: a thread that was still running goes back to its queue after the pick. */
  ghost function Yielded(b: Books): Books {
    var c := b.sys.current;
    if c.Some? && c.value in b.sys.threads && b.sys.threads[c.value].state == Running then SentBack(Picked(b), c.value)
    else Picked(b)
  }

  /** The running thread has put itself in the list `q` and yields. */
  ghost function SleptIn(b: Books, q: Queue): Books {
    if b.sys.current.Some? && b.sys.current.value in b.sys.threads && Exists(b.sys, q) then
      Yielded(b.(sys := Asleep(b.sys, q)))
    else
      b
  }

  /** A sleeper is taken off the list `q` and sent to its ready queue. */
  ghost function TakenFrom(b: Books, q: Queue, t: nat): Books {
    if Exists(b.sys, q) && t in b.sys.held then SentBack(b.(sys := Unchained(b.sys, t, q)), t) else b
  }

  /** `wait_wake` of the first `n` sleepers. */
  ghost function WokenFirst(b: Books, w: nat, n: nat): Books {
    if n == 0 then b
    else
      var before := WokenFirst(b, w, n - 1);
      if w in before.sys.waits && before.sys.waits[w] != [] then TakenFrom(before, WaitQ(w), before.sys.waits[w][0])
      else before
  }

  /** One timer of the list, at time `now`. */
  ghost function TimerTurn(b: Books, t: nat, now: Time): Books {
    if t in b.sys.threads && TimeCmp(now, b.sys.threads[t].alarm) >= 0 then
      WithAlarm(TakenFrom(b, TimerQ, t), t, Time(0, 0))
    else
      b
  }

  /** The timers of `l`, in turn. */
  ghost function TimersTurn(b: Books, l: seq<nat>, now: Time): Books {
    if l == [] then b else TimerTurn(TimersTurn(b, l[..|l| - 1], now), l[|l| - 1], now)
  }

  /** The running thread dies and drops the reference it ran on. */
  ghost function Died(b: Books): Books {
    var c := b.sys.current;
    if c.Some? && c.value in b.sys.held && c.value in b.sys.threads then Dropped(b.(sys := Dying(b.sys)), c.value)
                                                                         else b
  }

  ghost function WithAlarm(b: Books, t: nat, alarm: Time): Books {
    if t in b.sys.threads then
      b.(sys := b.sys.(threads := b.sys.threads[t := b.sys.threads[t].(alarm := alarm)]))
    else b
  }

  /** `semaphore_up` */
  ghost function Upped(b: Books, i: nat): Books {
    if i in b.rest.sems && i in b.rest.calls && i in b.sys.waits then
      var b' := b.(rest := Released(b.rest, i));
      if b.rest.sems[i] + 1 >= 0 && b.sys.waits[i] != [] then WokenFirst(b', i, 1) else b'
    else b
  }

  /** A thread leaves its ready queue, which drops its reference. */
  ghost function Withdrawn(b: Books, t: nat): Books {
    if t in b.sys.threads && t in b.sys.held && Exists(b.sys, ReadyQ(b.sys.threads[t].priority)) then
      var p := b.sys.threads[t].priority;
      Dropped(Books(Unchained(b.sys, t, ReadyQ(p)), b.rest.(trace := b.rest.trace + [Unchain(t, p)])), t)
    else b
  }

  /** `exit_thread` of a thread that does not run. */
  ghost function Killed(b: Books, t: nat): Books {
    if t in b.sys.threads && Exists(b.sys, ReadyQ(b.sys.threads[t].priority)) then
      var b' := b.(sys := b.sys.(threads := b.sys.threads[t := b.sys.threads[t].(state := Dead)]));
      if t in b.sys.ready[b.sys.threads[t].priority] then Withdrawn(b', t) else b'
    else b
  }

  lemma LoweredTrace(r: Rest, i: nat)
    requires i in r.sems && i in r.calls
    ensures Lowered(r, i).trace == r.trace
  {
  }

  lemma TimersNext(b: Books, l: seq<nat>, j: nat, now: Time)
    requires j < |l|
    ensures TimersTurn(b, l[..j + 1], now) == TimerTurn(TimersTurn(b, l[..j], now), l[j], now)
  {
    hide TimerTurn;
    assert l[..j + 1][..j] == l[..j];
  }

  lemma NoTimers(b: Books, l: seq<nat>, now: Time)
    ensures TimersTurn(b, l[..0], now) == b
  {
  }

  lemma WokenNext(b: Books, w: nat, n: nat, b': Books)
    requires b' == WokenFirst(b, w, n) && w in b'.sys.waits && b'.sys.waits[w] != []
    ensures WokenFirst(b, w, n + 1) == TakenFrom(b', WaitQ(w), b'.sys.waits[w][0])
  {
    hide TakenFrom;
  }

  lemma WokenNone(b: Books, w: nat)
    ensures WokenFirst(b, w, 0) == b
  {
  }

  lemma PickedIs(s: Sys, r: Rest, next: nat)
    requires |s.ready| == LEVELS && s.ready[First(s.ready, LEVEL_MAX)] != []
    requires next == s.ready[First(s.ready, LEVEL_MAX)][0] && next in s.threads && next in s.held
    requires s.current.Some? ==> s.current.value in s.held && s.current.value != next
    ensures var s1 := Unchained(s, next, ReadyQ(First(s.ready, LEVEL_MAX)));
            && next in s1.threads && next in s1.held && s1.held[next] > 0 && s1.current == s.current
            && (s1.current.Some? ==> s1.current.value in s1.held)
            && Picked(Books(s, r)) == Books(Switched(s1, next), r.(trace := r.trace + [Pick(next)]))
  {
    hide First, Switched;
  }

  lemma DiedIs(b: Books, t: nat)
    requires b.sys.current == Some(t) && t in b.sys.held && t in b.sys.threads
    ensures Died(b) == Dropped(b.(sys := Dying(b.sys)), t)
  {
    hide Dropped, Dying;
  }

  lemma UnrefIs(s: Sys, r: Rest, t: nat, s': Sys, r': Rest)
    requires UnrefOf(s, r, t, s', r')
    ensures Books(s', r') == Dropped(Books(s, r), t)
  {
    hide Dropped, MayDrop;
  }

  lemma AdmittedIs(s: Sys, r: Rest, t: nat, s': Sys, r': Rest)
    requires AddedBy(s, r.trace, t, s', r'.trace) && r' == r.(trace := r'.trace)
    ensures Books(s', r') == Admitted(Books(s, r), t)
  {
    hide Chained, Exists;
  }

  /** What may happen next. The last group is done to a thread by the rest of the kernel. */
  datatype Step =
    | Yields | Expires | Waits(queue: nat) | Wakes(queue: nat, nb: nat) | Downs(sem: nat) | Blocks | Ups(sem: nat)
    | Sleeps(delay: Time) | Exits | Ticks(tick: Time) | Reaps | QueueInit(queue: nat) | SemInit(sem: nat, n: nat)
    | Spawns(thread: nat, priority: nat, heapOk: bool, stackOk: bool) | On(thread: nat, action: Action)

  datatype Action = Admission | Holding | Dropping | Removal | Killing | Locking(lock: bool)

  /** The books, the clock, whether the reaper is about to pop its list, and the threads it has destroyed. */
  datatype Machine = Machine(books: Books, now: Time, popping: bool, destroyed: seq<nat>)

  /** A thread other than the two kernel threads runs, and is not about to block. */
  ghost predicate OrdinaryRuns(b: Books) {
    && b.sys.current.Some? && b.sys.current != Some(b.sys.idle) && b.sys.current != Some(b.sys.reaper)
    && b.rest.pending.None?
  }

  /** A thread is in no list and does not run. */
  predicate InNoList(t: nat, ready: seq<seq<nat>>, waits: map<nat, seq<nat>>, timers: seq<nat>, current: Option<nat>) {
    && current != Some(t) && t !in timers
    && (forall p :: 0 <= p < |ready| ==> t !in ready[p])
    && (forall w :: w in waits ==> t !in waits[w])
  }

  ghost predicate LegalOn(b: Books, t: nat, action: Action) {
    var s := b.sys;
    && t in s.threads && t != s.idle && t != s.reaper
    && var loose := InNoList(t, s.ready, s.waits, s.timers, s.current);
    match action
    case Admission => loose && s.threads[t].refcnt > 0
    case Holding => s.threads[t].refcnt > 0
    case Dropping => s.threads[t].refcnt > (if loose then 0 else 1)
    case Removal => true
    case Killing => s.current != Some(t)
    case Locking(_) => true
  }

  /** The steps that can be taken; the others leave the machine as it is. */
  ghost predicate Legal(step: Step, b: Books) {
    var s, r := b.sys, b.rest;
    match step
    case Yields => s.current.Some? && s.current != Some(s.reaper) && r.pending.None?
    case Expires => OrdinaryRuns(b) || s.current.None?
    case Waits(w) => OrdinaryRuns(b) && w in s.waits && w !in r.sems
    case Wakes(w, _) => w in s.waits && w !in r.sems && w != REAPER_SEM
    case Downs(i) => OrdinaryRuns(b) && i in r.sems && i != REAPER_SEM && i in r.calls
    case Blocks => r.pending.Some?
    case Ups(i) => i in r.sems && i != REAPER_SEM
    case Sleeps(_) => OrdinaryRuns(b)
    case Exits => OrdinaryRuns(b)
    case Ticks(_) => true
    case Reaps => s.current == Some(s.reaper) && r.pending.None? && REAPER_SEM in r.sems && REAPER_SEM in r.calls
    case QueueInit(w) => w !in s.waits
    case SemInit(i, _) => i !in s.waits
    case Spawns(t, priority, heapOk, stackOk) => t !in s.threads && priority < LEVELS && heapOk && stackOk
    case On(t, action) => LegalOn(b, t, action)
  }

  ghost function Acted(b: Books, t: nat, action: Action): Books
    requires LegalOn(b, t, action)
  {
    match action
    case Admission => Admitted(b, t)
    case Holding =>
      var th := b.sys.threads[t];
      if t in b.sys.held then b.(sys := Kept(b.sys, t, th.(refcnt := th.refcnt + 1), b.sys.held[t] + 1)) else b
    case Dropping => Dropped(b, t)
    case Removal =>
      if b.sys.threads[t].priority < |b.sys.ready| && t in b.sys.ready[b.sys.threads[t].priority] then Withdrawn(b, t)
      else b
    case Killing => Killed(b, t)
    case Locking(lock) =>
      b.(sys := b.sys.(locked := if lock then b.sys.locked + {t} else b.sys.locked - {t}))
  }

  /** What a step does to the books, at the time `now`. */
  ghost function Stepped(step: Step, b: Books, now: Time, popping: bool): Books
    requires Legal(step, b)
  {
    var s, r := b.sys, b.rest;
    match step
    case Yields => if |s.ready| == LEVELS && First(s.ready, LEVEL_MAX) == LEVEL_MIN then b else Yielded(b)
    case Expires => Yielded(b)
    case Waits(w) => SleptIn(b, WaitQ(w))
    case Wakes(w, nb) => WokenFirst(b, w, if nb <= |s.waits[w]| then nb else |s.waits[w]|)
    case Downs(i) => b.(rest := Lowered(r, i))
    case Blocks => SleptIn(b.(rest := r.(pending := None)), WaitQ(r.pending.value))
    case Ups(i) => Upped(b, i)
    case Sleeps(delay) => SleptIn(WithAlarm(b, s.current.value, TimeAdd(now, delay)), TimerQ)
    case Exits => Yielded(Died(b))
    case Ticks(tick) => TimersTurn(b, s.timers, TimeAdd(now, tick))
    case Reaps =>
      if !popping then b.(rest := Lowered(r, REAPER_SEM))
      else if r.list != [] then Books(Destroyed(s, r.list[0]), r.(list := r.list[1..]))
      else b
    case QueueInit(w) => b.(sys := s.(waits := s.waits[w := []]))
    case SemInit(i, n) =>
      Books(s.(waits := s.waits[i := []]), r.(sems := r.sems[i := n], calls := r.calls[i := Calls(n, 0, 0)]))
    case Spawns(t, priority, _, _) => b.(sys := Born(s, t, priority))
    case On(t, action) => Acted(b, t, action)
  }

  /** One step of the machine. */
  ghost function Next(step: Step, m: Machine): Machine {
    if !Legal(step, m.books) then m
    else
      Machine(Stepped(step, m.books, m.now, m.popping),
              if step.Ticks? then TimeAdd(m.now, step.tick) else m.now,
              if step.Reaps? then !m.popping else m.popping,
              if step.Reaps? && m.popping && m.books.rest.list != [] then m.destroyed + [m.books.rest.list[0]]
              else m.destroyed)
  }

  /** The machine unfolded, kind by kind. */
  lemma NextSwitch(m: Machine)
    ensures var s, r := m.books.sys, m.books.rest;
            && Next(Yields, m) ==
               (if s.current.None? || s.current == Some(s.reaper) || r.pending.Some? ||
                   (|s.ready| == LEVELS && First(s.ready, LEVEL_MAX) == LEVEL_MIN) then m
                else m.(books := Yielded(m.books)))
            && Next(Expires, m) ==
               (if OrdinaryRuns(m.books) || s.current.None? then m.(books := Yielded(m.books)) else m)
            && Next(Exits, m) == if OrdinaryRuns(m.books) then m.(books := Yielded(Died(m.books))) else m
  {
    hide First, Yielded, Died, OrdinaryRuns;
  }

  lemma NextSleep(m: Machine, w: nat, i: nat, delay: Time)
    ensures var s, r := m.books.sys, m.books.rest;
            && Next(Waits(w), m) ==
               (if OrdinaryRuns(m.books) && w in s.waits && w !in r.sems then m.(books := SleptIn(m.books, WaitQ(w)))
                                                                              else m)
            && Next(Downs(i), m) ==
               (if OrdinaryRuns(m.books) && i in r.sems && i != REAPER_SEM && i in r.calls then
                  m.(books := m.books.(rest := Lowered(r, i)))
                else m)
            && Next(Blocks, m) ==
               (if r.pending.Some? then
                  m.(books := SleptIn(m.books.(rest := r.(pending := None)), WaitQ(r.pending.value)))
                else m)
            && Next(Sleeps(delay), m) ==
               if OrdinaryRuns(m.books) && s.current.Some? then
                 m.(books := SleptIn(WithAlarm(m.books, s.current.value, TimeAdd(m.now, delay)), TimerQ))
               else m
  {
    hide SleptIn, Lowered, WithAlarm, TimeAdd;
  }

  lemma NextWake(m: Machine, w: nat, nb: nat, i: nat, tick: Time)
    ensures var s, r := m.books.sys, m.books.rest;
            && Next(Wakes(w, nb), m) ==
               (if w in s.waits && w !in r.sems && w != REAPER_SEM then
                  m.(books := WokenFirst(m.books, w, if nb <= |s.waits[w]| then nb else |s.waits[w]|))
                else m)
            && Next(Ups(i), m) == (if i in r.sems && i != REAPER_SEM then m.(books := Upped(m.books, i)) else m)
            && Next(Ticks(tick), m) ==
               m.(books := TimersTurn(m.books, s.timers, TimeAdd(m.now, tick)), now := TimeAdd(m.now, tick))
  {
    hide WokenFirst, Upped, TimersTurn, TimeAdd;
  }

  lemma NextReap(m: Machine)
    ensures var s, r := m.books.sys, m.books.rest;
            Next(Reaps, m) ==
            if s.current != Some(s.reaper) || r.pending.Some? || REAPER_SEM !in r.sems || REAPER_SEM !in r.calls then m
            else if !m.popping then m.(books := m.books.(rest := Lowered(r, REAPER_SEM)), popping := true)
            else if r.list != [] then
              m.(books := Books(Destroyed(s, r.list[0]), r.(list := r.list[1..])), popping := false,
                 destroyed := m.destroyed + [r.list[0]])
            else m.(popping := false)
  {
    hide Lowered, Destroyed;
  }

  lemma NextNew(m: Machine, w: nat, n: nat, t: nat, priority: nat, heapOk: bool, stackOk: bool)
    ensures var s, r := m.books.sys, m.books.rest;
            && Next(QueueInit(w), m) ==
               (if w in s.waits then m else m.(books := m.books.(sys := s.(waits := s.waits[w := []]))))
            && Next(SemInit(w, n), m) ==
               (if w in s.waits then m
                else
                  m.(books := Books(s.(waits := s.waits[w := []]),
                                    r.(sems := r.sems[w := n], calls := r.calls[w := Calls(n, 0, 0)]))))
            && Next(Spawns(t, priority, heapOk, stackOk), m) ==
               if t !in s.threads && priority < LEVELS && heapOk && stackOk then
                 m.(books := m.books.(sys := Born(s, t, priority)))
               else m
  {
    hide Born;
  }

  lemma NextOn(m: Machine, t: nat, action: Action)
    ensures Next(On(t, action), m) ==
            if LegalOn(m.books, t, action) then m.(books := Acted(m.books, t, action)) else m
  {
    hide LegalOn, Acted;
  }

  /** A thread that yields or is preempted gives way to the first one of the highest level in use. */
  lemma SwitchShows(m: Machine)
    requires MayPick(m.books.sys) && m.books.sys.current.Some? && m.books.rest.pending.None?
    ensures var s, t := m.books.sys, m.books.sys.current.value;
            var next := s.ready[First(s.ready, LEVEL_MAX)][0];
            && (t != s.idle && t != s.reaper ==> Next(Expires, m).books.sys.current == Some(next))
            && (t != s.reaper && First(s.ready, LEVEL_MAX) > 0 ==> Next(Yields, m).books.sys.current == Some(next))
  {
    hide Next, First, SentBack, Picked, Died;
    NextSwitch(m);
    PickedShows(m.books);
    SentBackShows(Picked(m.books), m.books.sys.current.value);
  }

  /** A thread that waits is the last of its queue; one that lowers a semaphore below zero is about to wait there. */
  lemma SleepShows(m: Machine, w: nat, i: nat)
    requires m.books.sys.current.Some? && m.books.sys.current.value in m.books.sys.threads && m.books.rest.pending.None?
    requires m.books.sys.current != Some(m.books.sys.idle) && m.books.sys.current != Some(m.books.sys.reaper)
    ensures var s, r, t := m.books.sys, m.books.rest, m.books.sys.current.value;
            && (w in s.waits && w !in r.sems ==> Next(Waits(w), m).books.sys.waits == s.waits[w := s.waits[w] + [t]])
            && (i in r.sems && i in r.calls && i != 0 ==>
                  Next(Downs(i), m).books.rest.sems == r.sems[i := r.sems[i] - 1] &&
                  (Next(Downs(i), m).books.rest.pending == Some(i) <==> r.sems[i] <= 0))
  {
    hide Next, First, Picked, SentBack, WithAlarm, TimeAdd;
    NextSleep(m, w, i, Time(0, 0));
    var s := m.books.sys;
    if w in s.waits {
      AsleepIs(s, w);
      PickedWaits(m.books.(sys := Asleep(s, WaitQ(w))));
    }
  }

  lemma PickedWaits(b: Books)
    ensures Picked(b).sys.waits == b.sys.waits
  {
    hide First;
  }

  lemma PickedShows(b: Books)
    requires MayPick(b.sys)
    ensures Picked(b).sys.current == Some(b.sys.ready[First(b.sys.ready, LEVEL_MAX)][0])
  {
    hide First;
  }

  lemma SentBackShows(b: Books, t: nat)
    ensures SentBack(b, t).sys.current == b.sys.current
  {
    hide Exists, Members;
  }

  /** The thread is in no list and does not run. */
  ghost predicate Idles(s: Sys, t: nat) {
    t in s.threads && InNoList(t, s.ready, s.waits, s.timers, s.current)
  }

  /**
   * A live thread of a locked process that is admitted becomes ready without joining a list; admitted again once the
   * process is unlocked, it is the last one of its queue.
   */
  lemma LockedWaits(m: Machine, t: nat)
    requires Idles(m.books.sys, t) && t != m.books.sys.idle && t != m.books.sys.reaper && t in m.books.sys.locked
    requires m.books.sys.threads[t].refcnt > 0 && m.books.sys.threads[t].state != Dead
    requires m.books.sys.threads[t].priority < LEVELS == |m.books.sys.ready|
    ensures var m1 := Next(On(t, Admission), m); var m3 := Next(On(t, Admission), Next(On(t, Locking(false)), m1));
            && Idles(m1.books.sys, t) && m1.books.sys.threads[t].state == Ready
            && m1.books.sys.ready == m.books.sys.ready && m1.books.rest.trace == m.books.rest.trace
            && var p := m.books.sys.threads[t].priority;
            && m3.books.sys.ready == m.books.sys.ready[p := m.books.sys.ready[p] + [t]]
            && t in m3.books.sys.threads && m3.books.sys.threads[t].refcnt == m.books.sys.threads[t].refcnt + 1
            && m3.books.rest.trace == m.books.rest.trace + [Push(t, p)]
  {
    hide Next;
    NextOn(m, t, Admission);
    var m1 := Next(On(t, Admission), m);
    NextOn(m1, t, Locking(false));
    NextOn(Next(On(t, Locking(false)), m1), t, Admission);
  }

  ghost function After(steps: seq<Step>, m: Machine): Machine {
    if steps == [] then m else Next(steps[|steps| - 1], After(steps[..|steps| - 1], m))
  }

  class Scheduler {
    var threads: Threads
    var ready: seq<seq<nat>>
    var current: Option<nat>
    var waits: map<nat, seq<nat>>
    var timers: seq<nat>
    var now: Time
    var sems: map<nat, int>
    var reaperList: seq<nat>

    /** Threads of processes in the state PROC_LOCKED. */
    var locked: set<nat>

    /** The reaper has lowered its semaphore and not yet popped its list. */
    var popping: bool

    /** The semaphore the running thread has lowered below zero, between the two halves of `semaphore_down`. */
    var pending: Option<nat>

    const idle: nat
    const reaper: nat

    ghost var place: Places

    /** The references held elsewhere: by creators, by process thread lists and by code under way. */
    ghost var held: map<nat, nat>

    /** The running thread has given up its place and will be switched away from. */
    ghost var leaving: bool

    ghost var calls: map<nat, Calls>

    /** The calls of `semaphore_up` for the reaper when it last lowered its semaphore. */
    ghost var mark: nat

    ghost var trace: seq<Event>
    ghost var reaped: seq<nat>
    ghost var destroyed: seq<nat>

    ghost function State(): Sys
      reads this
    {
      Sys(threads, ready, waits, timers, current, leaving, place, held, locked, idle, reaper)
    }

    ghost function Others(): Rest
      reads this
    {
      Rest(reaperList, sems, calls, trace, pending, mark)
    }

    ghost function Ledger(): Books
      reads this
    {
      Books(State(), Others())
    }

    ghost function Now(): Machine
      reads this
    {
      Machine(Ledger(), now, popping, destroyed)
    }

    ghost predicate Sane()
      reads this
    {
      Core(State()) && Recorded(ready, trace) && Doomed(threads, reaperList) && reaped == destroyed + reaperList
    }

    /** `sched_add_thread`, for a thread that is in no list. */
    method AddThread(t: nat)
      requires Sane() && t in threads && place[t] == Nowhere && threads[t].refcnt > 0
      modifies this`threads, this`ready, this`place, this`trace
      ensures Sane()
      ensures AddedBy(old(State()), old(trace), t, State(), trace)
    {
      hide Recorded, Core, Doomed, Chained, Exists, Members;
      Facts(State(), t);
      if threads[t].state != Dead {
        ghost var s := State();
        threads := threads[t := threads[t].(state := Ready)];
        if t in locked {
          Keep(s, t, threads[t], held[t]);
          assert held[t := held[t]] == held;
        } else {
          var p := threads[t].priority;
          ChainReady(s, t);
          Record(ready, trace, Push(t, p));
          ready := ready[p := ready[p] + [t]];
          threads := threads[t := threads[t].(refcnt := threads[t].refcnt + 1)];
          trace := trace + [Push(t, p)];
          place := place[t := In(ReadyQ(p))];
          assert State() == Chained(s, t, ReadyQ(p), Ready);
        }
        Alive(s.threads, reaperList, t, threads[t]);
        assert threads == s.threads[t := threads[t]];
      }
    }

    /** `refcount_dec` in `thread_unref`. */
    method DropReference(t: nat)
      requires Core(State()) && t in threads && t in held && held[t] >= 1 && (t == idle || t == reaper ==> held[t] >= 2)
      modifies this`threads, this`held
      ensures Core(State())
      ensures old(threads)[t].refcnt > 0 && State() == Kept(old(State()), t, Lighter(old(threads)[t]), old(held)[t] - 1)
    {
      hide Core;
      Facts(State(), t);
      Keep(State(), t, Lighter(threads[t]), held[t] - 1);
      threads := threads[t := threads[t].(refcnt := threads[t].refcnt - 1)];
      held := held[t := held[t] - 1];
    }

    /** `wait_wake` on the semaphore of the reaper, where the reaper sleeps. */
    method WakeReaper()
      requires Sane() && REAPER_SEM in waits && reaper in place && place[reaper] == In(WaitQ(REAPER_SEM))
      modifies this`threads, this`ready, this`waits, this`place, this`held, this`trace
      ensures Sane() && |old(ready)| == LEVELS && State() == Woken(old(State())) &&
              trace == old(trace) + [Push(reaper, LEVEL_MAX)]
    {
      hide Core, Recorded, Doomed, Apply, Woken, Unchained, Members;
      ghost var s := State();
      WakeSteps(s);
      waits := waits[REAPER_SEM := waits[REAPER_SEM][1..]];
      place := place[reaper := Nowhere];
      held := held[reaper := held[reaper] + 1];
      assert State() == Unchained(s, reaper, WaitQ(REAPER_SEM));
      AddThread(reaper);
      ghost var threads0 := threads;
      DropReference(reaper);
      Alive(threads0, reaperList, reaper, threads[reaper]);
    }

    /** The list and the counter of `reaper_reap`. */
    method Raise(t: nat)
      requires REAPER_SEM in sems && REAPER_SEM in calls && reaped == destroyed + reaperList
      modifies this`reaperList, this`reaped, this`sems, this`calls
      ensures Others() == Raised(old(Others()), t) && reaped == destroyed + reaperList
    {
      reaperList := reaperList + [t];
      reaped := reaped + [t];
      sems := sems[REAPER_SEM := sems[REAPER_SEM] + 1];
      calls := calls[REAPER_SEM := calls[REAPER_SEM].(ups := calls[REAPER_SEM].ups + 1)];
    }

    /** `reaper_reap`: the thread goes to the end of the list and `semaphore_up` is called. */
    method Reap(t: nat)
      requires Core(State()) && Recorded(ready, trace) && reaped == destroyed + reaperList
      requires t in threads && threads[t].refcnt == 0 && DoomedBut(threads, reaperList, t)
      requires REAPER_SEM in waits && REAPER_SEM in sems && REAPER_SEM in calls
      modifies this`threads, this`ready, this`waits, this`place, this`held, this`trace, this`reaperList, this`reaped,
               this`sems, this`calls
      ensures Sane() && |old(ready)| == LEVELS && reaper in old(threads)
      ensures if old(sems)[REAPER_SEM] >= -1 && old(waits)[REAPER_SEM] != [] then
                State() == Woken(old(State())) &&
                  Others() == Raised(old(Others()), t).(trace := old(trace) + [Push(reaper, LEVEL_MAX)])
              else
                State() == old(State()) && Others() == Raised(old(Others()), t)
    {
      hide Core, Recorded, Doomed, DoomedBut, Woken;
      Facts(State(), t);
      ReaperQueue(State());
      DoomPush(threads, reaperList, t);
      Raise(t);
      if sems[REAPER_SEM] >= 0 && waits[REAPER_SEM] != [] {
        WakeReaper();
      }
    }

    /** `thread_unref`: the last reference gone, the thread is handed to the reaper. */
    method Unref(t: nat)
      requires Sane() && t in threads && t in held && held[t] >= 1 && (t == idle || t == reaper ==> held[t] >= 2)
      requires REAPER_SEM in waits && REAPER_SEM in sems && REAPER_SEM in calls
      modifies this`threads, this`ready, this`waits, this`place, this`held, this`trace, this`reaperList, this`reaped,
               this`sems, this`calls
      ensures Sane() && UnrefOf(old(State()), old(Others()), t, State(), Others())
    {
      hide Core, Recorded, Doomed, DoomedBut;
      Facts(State(), t);
      ghost var threads0 := threads;
      DropReference(t);
      if threads[t].refcnt == 0 {
        Doom(threads0, reaperList, t, threads[t]);
        Reap(t);
      } else {
        Alive(threads0, reaperList, t, threads[t]);
      }
    }

    /** `first_non_empty_queue_priority` */
    method FirstNonEmpty() returns (i: nat)
      requires |ready| == LEVELS
      ensures i == First(ready, LEVEL_MAX)
    {
      i := LEVEL_MAX;
      while ready[i] == [] && i > 0
        invariant i < LEVELS && First(ready, i) == First(ready, LEVEL_MAX)
      {
        i := i - 1;
      }
    }

    /** `next_thread` */
    method NextThread() returns (next: nat)
      requires Sane() && |ready| == LEVELS && ready[First(ready, LEVEL_MAX)] != []
      modifies this`ready, this`place, this`held, this`trace
      ensures Sane() && trace == old(trace) + [Pick(next)]
      ensures var q := ReadyQ(First(old(ready), LEVEL_MAX));
              && Exists(old(State()), q) && next == old(ready)[q.level][0] && next in old(held)
              && next in old(place) && old(place)[next] == In(q) && State() == Unchained(old(State()), next, q)
    {
      hide Core, Recorded, Doomed, First;
      ghost var s := State();
      var p := FirstNonEmpty();
      assert Members(s, ReadyQ(p)) == ready[p];
      PopFront(s, ReadyQ(p));
      next := ready[p][0];
      Record(ready, trace, Pick(next));
      trace := trace + [Pick(next)];
      ready := ready[p := ready[p][1..]];
      place := place[next := Nowhere];
      held := held[next := held[next] + 1];
    }

    ghost predicate Booked()
      reads this
    {
      Sane() && Reaping(State(), Others(), popping) && Balanced(waits, Others())
    }

    /** The invariant of the machine, between two steps. */
    ghost predicate Valid()
      reads this
    {
      Booked() && !leaving && Standing(State())
    }

    /** `sched_add_thread` followed by `thread_unref`, for a thread whose reference is in hand. */
    method Requeue(t: nat)
      requires Booked() && t in threads && t in place && t in held && place[t] == Nowhere && held[t] >= 1
      requires t == idle || t == reaper ==> held[t] >= 2
      requires (t != idle ==> IdleStands(State())) && (t != reaper ==> ReaperStands(State()))
      modifies this`threads, this`ready, this`waits, this`place, this`held, this`trace, this`reaperList, this`reaped,
               this`sems, this`calls
      ensures Booked() && Standing(State()) && old(trace) <= trace
      ensures Requeued(old(State()), old(Others()), t, State(), Others())
      ensures Ledger() == SentBack(old(Ledger()), t)
    {
      hide Core, Recorded, Doomed, Reaping, Balanced, IdleStands, ReaperStands, UnrefOf, Members, Requeued, AddedBy,
           Dropped, Admitted;
      ghost var s, r := State(), Others();
      Facts(s, t);
      ReapingFacts(s, r, popping);
      AddThread(t);
      ghost var s1, r1 := State(), Others();
      AddKeeps(s, r, t, s1, r1, popping);
      AdmittedIs(s, r, t, s1, r1);
      Unref(t);
      UnrefKeeps(s1, r1, t, State(), Others(), popping);
      UnrefIs(s1, r1, t, State(), Others());
      RequeueEffect(s, r, t, s1, r1, State(), Others());
    }

    /** `set_current_thread` */
    method SetCurrent(next: nat)
      requires next in threads && next in held && held[next] > 0 && threads[next].refcnt > 0 &&
               Doomed(threads, reaperList)
      requires current.Some? ==> current.value in held && current.value != next
      modifies this`threads, this`place, this`held, this`current, this`leaving
      ensures State() == Switched(old(State()), next) && Doomed(threads, reaperList) && current == Some(next) &&
              !leaving
    {
      hide Doomed, Switched;
      SwitchedIs(State(), next);
      Alive(threads, reaperList, next, threads[next].(state := Running));
      MoveOver(next);
      current := Some(next);
      threads := threads[next := threads[next].(state := Running)];
      leaving := false;
    }

    /**
     * The reference of the queue passes to `current_thread`, and that of the thread before into the hand of the caller.
     */
    ghost method MoveOver(next: nat)
      requires next in held && held[next] > 0 && (current.Some? ==> current.value in held && current.value != next)
      modifies this`place, this`held
      ensures place == PlacesAfter(old(State()), next) && held == HeldAfter(old(State()), next)
    {
      if current.Some? && !leaving {
        place := place[current.value := Nowhere];
        held := held[current.value := held[current.value] + 1];
      }
      place := place[next := Current];
      held := held[next := held[next] - 1];
    }

    /** `sched_schedule_yield`, without the delivery of signals. */
    method Switch()
      requires Booked() && MaySwitch(State()) && pending.None?
      modifies this`threads, this`ready, this`waits, this`place, this`held, this`trace, this`reaperList, this`reaped,
               this`sems, this`calls
      modifies this`current, this`leaving
      ensures Valid() && |old(ready)| == LEVELS && old(ready)[First(old(ready), LEVEL_MAX)] != []
      ensures current == Some(old(ready)[First(old(ready), LEVEL_MAX)][0])
      ensures old(trace) + [Pick(current.value)] <= trace
      ensures old(current).Some? && old(leaving) ==> LeftBehind(old(State()), old(Others()), State(), Others())
      ensures held == old(held)
      ensures old(current).Some? && !old(leaving) ==> WentBack(old(State()), old(Others()), State(), Others())
      ensures Ledger() == Yielded(old(Ledger()))
    {
      hide Core, Recorded, Doomed, Reaping, Balanced, First, IdleStands, ReaperStands, LeftBehind, WentBack, Requeued,
           MaySwitch, Picked, SentBack;
      ghost var s, r := State(), Others();
      var prev := current;
      PickNext();
      ghost var s1, r1 := State(), Others();
      if prev.Some? && threads[prev.value].state == Running {
        Requeue(prev.value);
        RequeuedCurrent(s1, r1, prev.value, State(), Others());
      }
      SwitchEnd(s, r, s1, r1, State(), Others());
    }

    /** The first half of `sched_schedule_yield`: the next thread is taken and runs. */
    method PickNext()
      requires Booked() && MaySwitch(State()) && pending.None?
      modifies this`threads, this`ready, this`place, this`held, this`trace, this`current, this`leaving
      ensures Booked() && |old(ready)| == LEVELS && old(ready)[First(old(ready), LEVEL_MAX)] != []
      ensures current == Some(old(ready)[First(old(ready), LEVEL_MAX)][0])
      ensures Over(old(State()), old(Others()), State(), Others()) && Ledger() == Picked(old(Ledger()))
    {
      hide Core, Recorded, Doomed, Reaping, Balanced, First, Members, IdleStands, ReaperStands, Unchained, Switched,
           Over, Picked;
      ghost var s, r := State(), Others();
      var next := NextThread();
      SwitchOver(s, next, r, popping);
      UnchainedParts(s, next, ReadyQ(First(s.ready, LEVEL_MAX)));
      PickedIs(s, r, next);
      SetCurrent(next);
    }

    /** `sched_yield`: nothing happens when only the lowest level could offer a thread. */
    method Yield()
      requires Valid() && current.Some? && pending.None?
      modifies this`threads, this`ready, this`waits, this`place, this`held, this`trace, this`reaperList, this`reaped,
               this`sems, this`calls
      modifies this`current, this`leaving
      ensures Valid() && current.Some? && |old(ready)| == LEVELS
      ensures var p := First(old(ready), LEVEL_MAX);
              if p == LEVEL_MIN then State() == old(State()) && Others() == old(Others())
              else old(ready)[p] != [] && current == Some(old(ready)[p][0]) &&
                   WentBack(old(State()), old(Others()), State(), Others())
      ensures held == old(held)
      ensures Ledger() == if First(old(ready), LEVEL_MAX) == LEVEL_MIN then old(Ledger()) else Yielded(old(Ledger()))
      ensures old(trace) <= trace
    {
      hide Core, Recorded, Doomed, Reaping, Balanced, IdleStands, ReaperStands, WentBack, LeftBehind, Yielded;
      KernelFacts(State());
      Facts(State(), idle);
      var p := FirstNonEmpty();
      if p != LEVEL_MIN {
        Switch();
      }
    }

    /** `sched_schedule`, when the quantum of a user thread is over, and `sched_start`. */
    method Preempt()
      requires Valid() && current != Some(idle) && pending.None?
      modifies this`threads, this`ready, this`waits, this`place, this`held, this`trace, this`reaperList, this`reaped,
               this`sems, this`calls
      modifies this`current, this`leaving
      ensures Valid() && |old(ready)| == LEVELS
      ensures var p := First(old(ready), LEVEL_MAX); old(ready)[p] != [] && current == Some(old(ready)[p][0])
      ensures Ledger() == Yielded(old(Ledger()))
      ensures held == old(held) && (old(current).Some? ==> WentBack(old(State()), old(Others()), State(), Others()))
      ensures old(trace) <= trace
    {
      hide Core, Recorded, Doomed, Reaping, Balanced, IdleStands, ReaperStands, WentBack, LeftBehind, Yielded;
      SomebodyReady(State());
      Switch();
    }

    /** `__sched_sleep`: the running thread gives up its own reference, after somebody else took one. */
    method SchedSleep()
      requires current.Some? && current.value in threads && threads[current.value].refcnt > 1
      modifies this`threads
      ensures var th := old(threads)[current.value];
              threads == old(threads)[current.value := th.(state := Sleeping, refcnt := th.refcnt - 1)]
    {
      var t := current.value;
      threads := threads[t := threads[t].(state := Sleeping)];
      threads := threads[t := threads[t].(refcnt := threads[t].refcnt - 1)];
    }

    /** The part of `wait_wait` before the switch. */
    method EnterWait(w: nat)
      requires Sane() && current.Some? && !leaving && current != Some(idle) && w in waits
      requires w == REAPER_SEM ==> current == Some(reaper)
      modifies this`threads, this`waits, this`place, this`leaving
      ensures current.value in old(threads) && State() == Asleep(old(State()), WaitQ(w)) && Sane()
    {
      hide Core, Recorded, Doomed, Asleep;
      ghost var s := State();
      var t := current.value;
      CurrentFacts(s);
      Facts(s, t);
      FallAsleep(s, WaitQ(w));
      AsleepIs(s, w);
      Alive(s.threads, reaperList, t, s.threads[t].(state := Sleeping));
      waits := waits[w := waits[w] + [t]];
      FallSleeping();
      place := place[t := In(WaitQ(w))];
      leaving := true;
    }

    /** The list takes a reference, then the running thread gives up its own. */
    method FallSleeping()
      requires current.Some? && current.value in threads && threads[current.value].refcnt > 0
      modifies this`threads
      ensures threads == old(threads)[current.value := old(threads)[current.value].(state := Sleeping)]
    {
      var t := current.value;
      threads := threads[t := threads[t].(refcnt := threads[t].refcnt + 1)];
      SchedSleep();
      assert threads[t] == old(threads)[t].(state := Sleeping);
    }

    /** What a thread other than the two kernel threads may be doing when it calls into the scheduler. */
    ghost predicate Ordinary()
      reads this
    {
      Valid() && current.Some? && current != Some(idle) && current != Some(reaper) && pending.None?
    }

    /** `wait_wait` on a queue that belongs to no semaphore. */
    method Wait(w: nat)
      requires Ordinary() && w in waits && w !in sems
      modifies this`threads, this`ready, this`waits, this`place, this`held, this`trace, this`reaperList, this`reaped,
               this`sems, this`calls
      modifies this`current, this`leaving
      ensures Valid() && current.Some? && waits == old(waits)[w := old(waits)[w] + [old(current).value]] &&
              held == old(held)
      ensures Ledger() == SleptIn(old(Ledger()), WaitQ(w)) && old(trace) <= trace
    {
      hide Core, Recorded, Doomed, Reaping, Balanced, Standing, MaySwitch, Yielded, Asleep;
      CurrentFacts(State());
      ReapingFacts(State(), Others(), popping);
      AsleepKeeps(State(), WaitQ(w), Others(), popping);
      AsleepParts(State(), WaitQ(w));
      AsleepIs(State(), w);
      EnterWait(w);
      Switch();
    }

    /** The first half of `semaphore_down`, by an ordinary thread. */
    method Down(i: nat)
      requires Ordinary() && i in sems && i != REAPER_SEM
      modifies this`sems, this`calls, this`pending, this`mark
      ensures i in old(sems) && i in old(calls) && Others() == Lowered(old(Others()), i)
      ensures Valid() && LoweredBy(old(State()), old(Others()), i, State(), Others())
    {
      hide Core, Recorded, Doomed, Reaping, Balanced, Standing, LoweredBy;
      ReapingFacts(State(), Others(), popping);
      LowerKeeps(State(), Others(), i, popping);
      LowerValue(i);
    }

    /** `atomic_int_dec_return` in `semaphore_down`, and the test of its result. */
    method LowerValue(i: nat)
      requires i in sems && i in calls
      modifies this`sems, this`calls, this`pending, this`mark
      ensures Others() == Lowered(old(Others()), i)
    {
      mark := if i == REAPER_SEM then calls[i].ups else mark;
      sems := sems[i := sems[i] - 1];
      calls := calls[i := calls[i].(downs := calls[i].downs + 1)];
      pending := if sems[i] < 0 then Some(i) else None;
    }

    /** The second half of `semaphore_down`: `wait_wait`. */
    method Blocking()
      requires Valid() && pending.Some?
      modifies this`threads, this`ready, this`waits, this`place, this`held, this`trace, this`reaperList, this`reaped,
               this`sems, this`calls
      modifies this`current, this`leaving, this`pending
      ensures Valid() && pending.None? && current.Some? && held == old(held)
      ensures BlockedBy(old(State()), old(Others()), State(), Others())
      ensures Ledger() ==
              SleptIn(Books(old(State()), old(Others()).(pending := None)), WaitQ(old(pending).value))
      ensures old(trace) <= trace
    {
      hide Core, Recorded, Doomed, Reaping, Balanced, Standing, MaySwitch, BlockedBy, LeftBehind, Asleep, Yielded;
      ghost var s, r := State(), Others();
      BlockKeeps(s, r, popping);
      var i := pending.value;
      EnterWait(i);
      AsleepParts(s, WaitQ(i));
      pending := None;
      Switch();
      BlockEffect(s, r, State(), Others());
    }

    /** The first half of a turn of `reaper_work`: its `semaphore_down`, up to the test of the value. */
    method ReaperDown()
      requires Valid() && current == Some(reaper) && !popping && pending.None?
      modifies this`sems, this`calls, this`pending, this`mark, this`popping
      ensures REAPER_SEM in old(sems) && REAPER_SEM in old(calls) && Others() == Lowered(old(Others()), REAPER_SEM)
      ensures Valid() && popping && LoweredBy(old(State()), old(Others()), REAPER_SEM, State(), Others())
    {
      hide Core, Recorded, Doomed, Reaping, Balanced, Standing, LoweredBy;
      ReapingFacts(State(), Others(), popping);
      LowerKeeps(State(), Others(), REAPER_SEM, popping);
      LowerValue(REAPER_SEM);
      popping := true;
    }

    /** The second half: the list is not empty, and its first thread is destroyed. */
    method ReaperPop()
      requires Valid() && current == Some(reaper) && popping && pending.None?
      modifies this`threads, this`place, this`held, this`locked, this`reaperList, this`destroyed, this`popping
      ensures old(reaperList) != [] && State() == Destroyed(old(State()), old(reaperList)[0])
      ensures Valid() && !popping && current == old(current)
      ensures old(reaperList) != [] && reaperList == old(reaperList)[1..] &&
              destroyed == old(destroyed) + [old(reaperList)[0]]
      ensures threads == old(threads) - {old(reaperList)[0]} && held == old(held) - {old(reaperList)[0]}
    {
      hide Core, Recorded, Doomed, Reaping, Balanced, Standing, Destroyed;
      PopStep(State(), Others());
      DestroyedParts(State(), reaperList[0]);
      var marked := reaperList[0];
      assert (destroyed + [marked]) + reaperList[1..] == reaped;
      reaperList := reaperList[1..];
      destroyed := destroyed + [marked];
      Bury(marked);
      popping := false;
    }

    /** `__thread_destroy` */
    method Bury(t: nat)
      modifies this`threads, this`locked, this`place, this`held
      ensures State() == Destroyed(old(State()), t)
    {
      threads := threads - {t};
      locked := locked - {t};
      place := place - {t};
      held := held - {t};
    }

    /** `sched_exit` */
    method Exit()
      requires Ordinary()
      modifies this`threads, this`ready, this`waits, this`place, this`held, this`trace, this`reaperList, this`reaped,
               this`sems, this`calls
      modifies this`current, this`leaving
      ensures Valid() && current.Some? && old(current).value in old(threads) && old(current).value in threads
      ensures threads[old(current).value].state == Dead
      ensures reaperList == old(reaperList) + if old(threads)[old(current).value].refcnt == 1 then
                [old(current).value] else []
      ensures held == old(held) && Ledger() == Yielded(Died(old(Ledger())))
      ensures old(trace) <= trace
    {
      hide Core, Recorded, Doomed, Reaping, Balanced, Standing, MaySwitch, Yielded, Died;
      Perish();
      Switch();
    }

    /** The part of `sched_exit` before the switch. */
    method Perish()
      requires Ordinary()
      modifies this`threads, this`ready, this`waits, this`place, this`held, this`trace, this`reaperList, this`reaped,
               this`sems, this`calls
      modifies this`leaving
      ensures current.Some? && current.value in old(threads) && current.value in threads
      ensures leaving && threads[current.value].state == Dead && MaySwitch(State()) && Booked()
      ensures reaperList == old(reaperList) + if old(threads)[current.value].refcnt == 1 then [current.value] else []
      ensures held == old(held) && Ledger() == Died(old(Ledger()))
      ensures old(trace) <= trace
    {
      hide Core, Recorded, Doomed, Reaping, Balanced, Standing, MaySwitch, Dying, Dropped, Died;
      var t := current.value;
      Die(State(), Others(), popping);
      DiedIs(Ledger(), t);
      MarkDead();
      ReleaseSelf();
    }

    /** `thread_unref` by a thread that has just died. */
    method ReleaseSelf()
      requires Booked() && Standing(State()) && current.Some? && leaving && current != Some(idle)
      requires current != Some(reaper) && current.value in threads && threads[current.value].state == Dead
      requires current.value in place && place[current.value] == Nowhere && current.value in held
      requires held[current.value] >= 1
      modifies this`threads, this`ready, this`waits, this`place, this`held, this`trace, this`reaperList, this`reaped,
               this`sems, this`calls
      ensures current.value in threads && threads[current.value].state == Dead && old(trace) <= trace
      ensures reaperList == old(reaperList) + if old(threads)[current.value].refcnt == 1 then [current.value] else []
      ensures held == old(held)[current.value := old(held)[current.value] - 1]
      ensures Ledger() == Dropped(old(Ledger()), current.value) && MaySwitch(State()) && Booked()
    {
      hide Core, Recorded, Doomed, Reaping, Balanced, Standing, MaySwitch, UnrefOf, Dropped, MayDrop;
      ghost var s, r := State(), Others();
      var t := current.value;
      ReapingFacts(s, r, popping);
      Unref(t);
      UnrefKeeps(s, r, t, State(), Others(), popping);
      UnrefIs(s, r, t, State(), Others());
      DeadMaySwitch(s, r, State(), Others());
    }

    method MarkDead()
      requires current.Some? && current.value in held && current.value in threads
      modifies this`threads, this`place, this`held, this`leaving
      ensures State() == Dying(old(State())) && leaving
    {
      var t := current.value;
      threads := threads[t := threads[t].(state := Dead)];
      leaving := true;
      place := place[t := Nowhere];
      held := held[t := held[t] + 1];
    }

    /** `sched_nanosleep` */
    method Nanosleep(delay: Time)
      requires Ordinary()
      modifies this`threads, this`ready, this`waits, this`timers, this`place, this`held, this`trace, this`reaperList,
               this`reaped, this`sems, this`calls
      modifies this`current, this`leaving
      ensures Valid() && current.Some? && timers == old(timers) + [old(current).value]
      ensures old(current).value in threads && threads[old(current).value].alarm == TimeAdd(now, delay)
      ensures held == old(held)
      ensures Ledger() == SleptIn(WithAlarm(old(Ledger()), old(current).value, TimeAdd(now, delay)), TimerQ)
      ensures old(trace) <= trace
    {
      hide Core, Recorded, Doomed, Reaping, Balanced, Standing, MaySwitch, Yielded, Asleep, TimeAdd;
      EnterTimers(delay);
      Switch();
    }

    /** The part of `sched_nanosleep` before the switch. */
    method EnterTimers(delay: Time)
      requires Ordinary()
      modifies this`threads, this`timers, this`place, this`leaving
      ensures current.Some? && current.value in old(threads) && Others() == old(Others())
      ensures State() == Asleep(WithAlarm(old(Ledger()), current.value, TimeAdd(now, delay)).sys, TimerQ)
      ensures current.value in threads && threads[current.value].alarm == TimeAdd(now, delay)
      ensures leaving && timers == old(timers) + [current.value] && MaySwitch(State()) && Booked()
    {
      hide Core, Recorded, Doomed, Reaping, Balanced, Standing, MaySwitch, TimeAdd, Asleep;
      ghost var s, r := State(), Others();
      var t := current.value;
      TimerSleep(s, r, popping, TimeAdd(now, delay));
      Register(TimeAdd(now, delay));
      ghost var b := WithAlarm(Books(s, r), t, TimeAdd(now, delay));
      AsleepTimer(b.sys);
    }

    /** `timer_register`, and the thread gives up its own reference. */
    method Register(alarm: Time)
      requires current.Some? && current.value in threads && threads[current.value].refcnt > 0
      modifies this`threads, this`timers, this`place, this`leaving
      ensures State() == Asleep(WithAlarm(old(Ledger()), current.value, alarm).sys, TimerQ)
    {
      var t := current.value;
      threads := threads[t := threads[t].(alarm := alarm)];
      timers := timers + [t];
      FallSleeping();
      place := place[t := In(TimerQ)];
      leaving := true;
    }

    /** One turn of `wait_wake`. */
    method WakeOne(w: nat)
      requires Booked() && Standing(State()) && w in waits && waits[w] != [] && w != REAPER_SEM && (w in sems ==>
                   sems[w] >= 0)
      modifies this`threads, this`ready, this`waits, this`place, this`held, this`trace, this`reaperList, this`reaped,
               this`sems, this`calls
      ensures Booked() && Standing(State()) && w in waits
      ensures Roused(old(State()), old(Others()), WaitQ(w), old(waits)[w][0], State(), Others())
      ensures Ledger() == TakenFrom(old(Ledger()), WaitQ(w), old(waits)[w][0]) && old(trace) <= trace
    {
      hide Core, Recorded, Doomed, Reaping, Balanced, Standing, Requeued, IdleStands, ReaperStands, Roused,
           SentBack, Unchained;
      ghost var s, r := State(), Others();
      PopFront(s, WaitQ(w));
      ReapingFacts(s, r, popping);
      var t := waits[w][0];
      RouseKeeps(s, WaitQ(w), t, r, popping);
      TakeWaiter(w);
      StandingParts(State());
      Requeue(t);
      RouseEffect(s, r, WaitQ(w), t, State(), Others());
      RousedThere(s, r, w, t, State(), Others());
    }

    /** `list_pop_front` from a wait queue; the reference of the list is in hand. */
    method TakeWaiter(w: nat)
      requires w in waits && waits[w] != [] && waits[w][0] in held
      modifies this`waits, this`place, this`held
      ensures State() == Unchained(old(State()), old(waits)[w][0], WaitQ(w))
    {
      var t := waits[w][0];
      EraseFront(waits[w]);
      waits := waits[w := waits[w][1..]];
      place := place[t := Nowhere];
      held := held[t := held[t] + 1];
    }

    /** `wait_wake`: the first `nb` threads of the queue, or all of them. */
    method Wake(w: nat, nb: nat) returns (n: nat)
      requires Booked() && Standing(State()) && w in waits && w != REAPER_SEM && (w in sems ==> sems[w] >= 0)
      modifies this`threads, this`ready, this`waits, this`place, this`held, this`trace, this`reaperList, this`reaped,
               this`sems, this`calls
      ensures Booked() && Standing(State()) && w in waits && w in old(waits)
      ensures n == (if nb <= |old(waits)[w]| then nb else |old(waits)[w]|) && waits[w] == old(waits)[w][n..]
      ensures (w in old(sems) ==> w in sems && sems[w] == old(sems)[w]) && held == old(held)
      ensures forall i :: 0 <= i < n ==> MadeReady(old(State()), old(waits)[w][i], State())
      ensures Ledger() == WokenFirst(old(Ledger()), w, n) && old(trace) <= trace
    {
      hide Core, Recorded, Doomed, Reaping, Balanced, Standing, Roused, TakenFrom, WokenFirst, Waking, MadeReady;
      ghost var s := State();
      n := 0;
      WakingStart(s, w);
      WokenNone(Ledger(), w);
      while waits[w] != [] && n < nb
        invariant Booked() && Standing(State()) && n <= nb && w in waits && Waking(s, w, n, State()) &&
                  old(trace) <= trace
        invariant Ledger() == WokenFirst(old(Ledger()), w, n)
        invariant (w in old(sems) <==> w in sems) && (w in sems ==> sems[w] == old(sems)[w]) && held == old(held)
        decreases nb - n
      {
        ghost var s1, r1 := State(), Others();
        WakingParts(s, w, n, s1);
        WokenNext(old(Ledger()), w, n, Ledger());
        WakeOne(w);
        PlacedKeys(State());
        WakingStep(s, w, n, s1, r1, State(), Others());
        RousedSems(s1, r1, w, s1.waits[w][0], State(), Others());
        n := n + 1;
        WakingParts(s, w, n, State());
      }
      WakingParts(s, w, n, State());
    }

    /** `semaphore_up` */
    method Up(i: nat) returns (n: nat)
      requires Valid() && i in sems && i != REAPER_SEM
      modifies this`threads, this`ready, this`waits, this`place, this`held, this`trace, this`reaperList, this`reaped,
               this`sems, this`calls
      ensures Valid() && held == old(held)
      ensures UppedBy(old(State()), old(Others()), i, n, State(), Others())
      ensures Ledger() == Upped(old(Ledger()), i) && old(trace) <= trace
    {
      hide Core, Recorded, Doomed, Reaping, Balanced, Standing, MadeReady, UppedBy, WokenFirst;
      ghost var s, r := State(), Others();
      UpKeeps(s, r, i, popping);
      RaiseValue(i);
      n := 0;
      WokenNone(Ledger(), i);
      if sems[i] >= 0 {
        n := Wake(i, 1);
      }
      UpEffect(s, r, i, n, State(), Others());
    }

    /** `atomic_int_inc_return` in `semaphore_up`. */
    method RaiseValue(i: nat)
      requires i in sems && i in calls
      modifies this`sems, this`calls
      ensures Others() == Released(old(Others()), i)
    {
      sems := sems[i := sems[i] + 1];
      calls := calls[i := calls[i].(ups := calls[i].ups + 1)];
    }

    /** One timer that has run out, in `time_update_timer_list` and `sched_timer_callback`. */
    method Fire(t: nat)
      requires Booked() && Standing(State()) && t in timers
      modifies this`threads, this`ready, this`waits, this`timers, this`place, this`held, this`trace, this`reaperList,
               this`reaped, this`sems, this`calls
      ensures Booked() && Standing(State())
      ensures Roused(old(State()), old(Others()), TimerQ, t, State(), Others())
      ensures Ledger() == TakenFrom(old(Ledger()), TimerQ, t) && old(trace) <= trace
    {
      hide Core, Recorded, Doomed, Reaping, Balanced, Standing, Requeued, IdleStands, ReaperStands, Roused, SentBack,
           Unchained, Erase;
      ghost var s, r := State(), Others();
      QueuePlaces(s, TimerQ);
      ReapingFacts(s, r, popping);
      RouseKeeps(s, TimerQ, t, r, popping);
      TakeTimer(t);
      StandingParts(State());
      Requeue(t);
      RouseEffect(s, r, TimerQ, t, State(), Others());
    }

    /** `list_erase` from the timers; the reference of the list is in hand. */
    method TakeTimer(t: nat)
      requires t in held
      modifies this`timers, this`place, this`held
      ensures State() == Unchained(old(State()), t, TimerQ)
    {
      timers := Erase(timers, t);
      place := place[t := Nowhere];
      held := held[t := held[t] + 1];
    }

    /** `timer_reset` */
    method ResetTimer(t: nat)
      requires Booked() && Standing(State()) && t in threads
      modifies this`threads
      ensures Ledger() == WithAlarm(old(Ledger()), t, Time(0, 0))
      ensures Booked() && Standing(State()) && threads == old(threads)[t := old(threads)[t].(alarm := Time(0, 0))]
    {
      hide Core, Recorded, Doomed, Reaping, Balanced, Standing;
      Touch(State(), Others(), t, threads[t].(alarm := Time(0, 0)), popping);
      threads := threads[t := threads[t].(alarm := Time(0, 0))];
    }

    /** One turn of the loop of `time_update_timer_list`. */
    method TickAt(i: nat, ghost s: Sys, ghost j: nat) returns (k: nat)
      requires Booked() && Standing(State()) && Ticking(s, now, i, j, State()) && i < |timers|
      modifies this`threads, this`ready, this`waits, this`timers, this`place, this`held, this`trace, this`reaperList,
               this`reaped, this`sems, this`calls
      ensures Booked() && Standing(State()) && Ticking(s, now, k, j + 1, State()) && j < |s.timers| && held == old(held)
      ensures Ledger() == TimerTurn(old(Ledger()), s.timers[j], now) && old(trace) <= trace
    {
      hide Core, Recorded, Doomed, Reaping, Balanced, Standing, Roused, Ticking, TakenFrom, WithAlarm;
      var t := timers[i];
      TickingPass(s, now, i, j, State());
      if TimeCmp(now, threads[t].alarm) >= 0 {
        ghost var s1, r1 := State(), Others();
        Fire(t);
        ghost var s2, r2 := State(), Others();
        PlacedKeys(s2);
        FiredThere(s1, r1, t, s2, r2);
        ResetTimer(t);
        TickingFire(s, now, i, j, s1, r1, s2, r2, State());
        k := i;
      } else {
        k := i + 1;
      }
    }

    /** `time_tick`: exactly the sleepers whose time has come are made ready; the others keep their order. */
    method Tick(tick: Time)
      requires Valid()
      modifies this`threads, this`ready, this`waits, this`timers, this`place, this`held, this`trace, this`reaperList,
               this`reaped, this`sems, this`calls
      modifies this`now
      ensures Valid() && now == TimeAdd(old(now), tick) && timers == Pending(old(timers), old(threads), now) &&
              held == old(held)
      ensures forall t :: t in old(timers) && t in old(threads) && TimeCmp(now, old(threads)[t].alarm) >= 0 ==>
                MadeReady(old(State()), t, State())
      ensures Ledger() == TimersTurn(old(Ledger()), old(timers), now) && old(trace) <= trace
    {
      hide Core, Recorded, Doomed, Reaping, Balanced, Standing, Roused, Ticking, Pending, MadeReady, TimerTurn,
           TimersTurn, TimeAdd,
           TimeCmp;
      now := TimeAdd(now, tick);
      ghost var s := State();
      TickingStart(s, now);
      NoTimers(old(Ledger()), s.timers, now);
      var i: nat := 0;
      ghost var j: nat := 0;
      while i < |timers|
        invariant Booked() && Standing(State()) && now == TimeAdd(old(now), tick) && Ticking(s, now, i, j, State()) &&
                  held == old(held) && old(trace) <= trace
        invariant j <= |s.timers| && Ledger() == TimersTurn(old(Ledger()), s.timers[..j], now)
        decreases |s.timers| - j
      {
        i := TickAt(i, s, j);
        TimersNext(old(Ledger()), s.timers, j, now);
        j := j + 1;
      }
      TickingEnd(s, now, i, j, State());
    }

    /** `__thread_create`; the heap may refuse the descriptor or the stack. */
    method Spawn(t: nat, priority: nat, heapOk: bool, stackOk: bool) returns (err: Errno)
      requires Valid() && t !in threads && priority < LEVELS
      modifies this`threads, this`place, this`held
      ensures Valid() && (err == Ok <==> heapOk && stackOk) && err in {Ok, ENOMEM}
      ensures State() == if err == Ok then Born(old(State()), t, priority) else old(State())
      ensures err == Ok ==> threads == old(threads)[t := Thread(priority, Ready, 1, Time(0, 0))] && place[t] == Nowhere
      ensures err == Ok ==> held == old(held)[t := 1]
    {
      hide Core, Recorded, Doomed, Reaping, Balanced, Standing;
      if !heapOk || !stackOk {
        return ENOMEM;
      }
      Bear(State(), Others(), t, priority, popping);
      threads := threads[t := Thread(priority, Ready, 1, Time(0, 0))];
      place := place[t := Nowhere];
      held := held[t := 1];
      return Ok;
    }

    /** `sched_add_thread` by the creator, or when a process is unlocked. */
    method Admit(t: nat)
      requires Valid() && t in threads && t in place && place[t] == Nowhere && threads[t].refcnt > 0
      modifies this`threads, this`ready, this`place, this`trace
      ensures Valid() && held == old(held) && AddedBy(old(State()), old(trace), t, State(), trace)
      ensures Ledger() == Admitted(old(Ledger()), t) && old(trace) <= trace
    {
      hide Core, Recorded, Doomed, Reaping, Balanced, IdleStands, ReaperStands, AddedBy, Admitted;
      ghost var s, r := State(), Others();
      AddThread(t);
      AdmittedIs(s, r, t, State(), Others());
      AddKeeps(s, r, t, State(), Others(), popping);
    }

    /** `thread_ref` by a holder outside the scheduler. */
    method Hold(t: nat)
      requires Valid() && t in threads && t in held && threads[t].refcnt > 0
      modifies this`threads, this`held
      ensures State() == Kept(old(State()), t, old(threads)[t].(refcnt := old(threads)[t].refcnt + 1), old(held)[t] + 1)
      ensures Valid() && held == old(held)[t := old(held)[t] + 1]
    {
      hide Core, Recorded, Doomed, Reaping, Balanced, Standing;
      HoldKeeps(State(), Others(), t, popping);
      threads := threads[t := threads[t].(refcnt := threads[t].refcnt + 1)];
      held := held[t := held[t] + 1];
    }

    /** `thread_unref` by a holder outside the scheduler. */
    method Drop(t: nat)
      requires Valid() && t in threads && t in held && held[t] >= 1 && (t == idle || t == reaper ==> held[t] >= 2)
      modifies this`threads, this`ready, this`waits, this`place, this`held, this`trace, this`reaperList, this`reaped,
               this`sems, this`calls
      ensures Valid() && held == old(held)[t := old(held)[t] - 1]
      ensures reaperList == old(reaperList) + if old(threads)[t].refcnt == 1 then [t] else []
      ensures Ledger() == Dropped(old(Ledger()), t) && old(trace) <= trace
    {
      hide Core, Recorded, Doomed, Reaping, Balanced, Standing;
      ghost var s, r := State(), Others();
      ReapingFacts(s, r, popping);
      Unref(t);
      UnrefKeeps(s, r, t, State(), Others(), popping);
      UnrefIs(s, r, t, State(), Others());
    }

    /** `sched_remove_thread` */
    method Remove(t: nat) returns (ok: bool)
      requires Valid() && t in threads && t != idle && t != reaper
      modifies this`threads, this`ready, this`waits, this`place, this`held, this`trace, this`reaperList, this`reaped,
               this`sems, this`calls
      ensures Valid() && held == old(held) && t in threads
      ensures |old(ready)| == LEVELS && (ok <==> t in old(ready)[old(threads)[t].priority])
      ensures if ok then t in place && place[t] == Nowhere && old(threads)[t].refcnt > 0 &&
                         threads[t] == Lighter(old(threads)[t]) else State() == old(State()) &&
                                                                     Others() == old(Others())
      ensures Ledger() == (if ok then Withdrawn(old(Ledger()), t) else old(Ledger())) && old(trace) <= trace
    {
      hide Core, Recorded, Doomed, Reaping, Balanced, Standing, Withdrawn;
      ghost var s, r := State(), Others();
      ReadyMember(s, t);
      ok := t in ready[threads[t].priority];
      if ok {
        RemoveKeeps(s, r, r.(trace := r.trace + [Unchain(t, threads[t].priority)]), t, threads[t].state, popping);
        assert threads[t := threads[t]] == threads;
        Dequeue(t);
      }
    }

    /** The thread leaves its ready queue and the reference of the queue is dropped. */
    method Dequeue(t: nat)
      requires Recorded(ready, trace) && reaped == destroyed + reaperList && !leaving && t in threads && t in held
      requires Exists(State(), ReadyQ(threads[t].priority)) && |ready| == LEVELS
      requires Fine(Unchained(State(), t, ReadyQ(threads[t].priority)),
                    Others().(trace := trace + [Unchain(t, threads[t].priority)]), popping)
      requires t != idle && t != reaper
      modifies this`threads, this`ready, this`waits, this`place, this`held, this`trace, this`reaperList, this`reaped,
               this`sems, this`calls
      ensures Valid() && held == old(held) && t in threads && t in place && place[t] == Nowhere
      ensures old(threads)[t].refcnt > 0 && threads[t] == Lighter(old(threads)[t])
      ensures Ledger() == Withdrawn(old(Ledger()), t) && old(trace) <= trace
    {
      hide Core, Recorded, Doomed, Reaping, Balanced, Standing, UnrefOf, Unchained, Dropped;
      UnchainedParts(State(), t, ReadyQ(threads[t].priority));
      Unlist(t);
      ghost var s, r := State(), Others();
      assert held[t := held[t] - 1] == old(held);
      ReapingFacts(s, r, popping);
      Unref(t);
      UnrefKeeps(s, r, t, State(), Others(), popping);
      UnrefIs(s, r, t, State(), Others());
      DequeuedThere(s, r, t, State(), Others());
    }

    /** `list_erase` from the ready queue. */
    method Unlist(t: nat)
      requires Recorded(ready, trace) && t in threads && t in held && |ready| == LEVELS
      requires Exists(State(), ReadyQ(threads[t].priority))
      modifies this`ready, this`place, this`held, this`trace
      ensures State() == Unchained(old(State()), t, ReadyQ(threads[t].priority)) && Recorded(ready, trace)
      ensures trace == old(trace) + [Unchain(t, threads[t].priority)]
    {
      hide Recorded;
      var p := threads[t].priority;
      Record(ready, trace, Unchain(t, p));
      trace := trace + [Unchain(t, p)];
      ready := ready[p := Erase(ready[p], t)];
      place := place[t := Nowhere];
      held := held[t := held[t] + 1];
    }

    /** `exit_thread`, for a thread that is not running. */
    method Kill(t: nat)
      requires Valid() && t in threads && t != idle && t != reaper && current != Some(t)
      modifies this`threads, this`ready, this`waits, this`place, this`held, this`trace, this`reaperList, this`reaped,
               this`sems, this`calls
      ensures Valid() && held == old(held) && t in threads && threads[t].state == Dead
      ensures t in place && !(place[t].In? && place[t].queue.ReadyQ?)
      ensures |old(ready)| == LEVELS && old(threads)[t].priority < LEVELS
      ensures Ledger() == Killed(old(Ledger()), t) && old(trace) <= trace
    {
      hide Core, Recorded, Doomed, Reaping, Balanced, Standing, Withdrawn;
      ghost var s, r := State(), Others();
      ReadyMember(s, t);
      var p := threads[t].priority;
      threads := threads[t := threads[t].(state := Dead)];
      if t in ready[p] {
        RemoveKeeps(s, r, r.(trace := r.trace + [Unchain(t, p)]), t, Dead, popping);
        Dequeue(t);
      } else {
        DieElsewhere(s, r, t, popping);
      }
    }

    /** A process becomes PROC_LOCKED, or is unlocked. */
    method SetLocked(t: nat, lock: bool)
      requires Valid() && t in threads && t != idle && t != reaper
      modifies this`locked
      ensures Valid() && locked == if lock then old(locked) + {t} else old(locked) - {t}
    {
      hide Core, Recorded, Doomed, Reaping, Balanced, Standing;
      KernelFacts(State());
      Facts(State(), idle);
      Facts(State(), reaper);
      LockKeeps(State(), Others(), if lock then locked + {t} else locked - {t}, popping);
      locked := if lock then locked + {t} else locked - {t};
    }

    predicate Loose(t: nat)
      reads this
    {
      t in threads && InNoList(t, ready, waits, timers, current)
    }

    lemma LooseIsNowhere(t: nat)
      requires Valid() && t in threads
      ensures t in place && t in held
      ensures Loose(t) <==> place[t] == Nowhere
      ensures threads[t].refcnt == held[t] + if Loose(t) then 0 else 1
    {
      hide Doomed, Reaping, Balanced, Standing, Recorded;
      Elsewhere(State(), t);
      hide Placed;
    }

    /** `sched_init`, `idle_init` and `reaper_init` */
    constructor (i: nat, r: nat)
      requires i != r
      ensures Valid() && Now() == Machine(Books(Boot(i, r), BootRest(i, r)), Time(0, 0), false, [])
    {
      var s, rest := Boot(i, r), BootRest(i, r);
      idle, reaper := i, r;
      threads, ready, waits, timers, current := s.threads, s.ready, s.waits, s.timers, None;
      now, locked, popping, pending, mark := Time(0, 0), {}, false, None, 0;
      sems, reaperList := rest.sems, rest.list;
      place, held, leaving := s.place, s.held, false;
      calls, trace, reaped, destroyed := rest.calls, rest.trace, [], [];
      new;
      hide *;
      Start();
    }

    lemma Start()
      requires idle != reaper && var s := Boot(idle, reaper);
               && threads == s.threads && ready == s.ready && waits == s.waits && timers == s.timers && current == None
               && locked == {} && place == s.place && held == s.held && !leaving
      requires var r := BootRest(idle, reaper); sems == r.sems && reaperList == r.list && calls == r.calls &&
                                                trace == r.trace
      requires !popping && pending == None && mark == 0 && reaped == [] && destroyed == [] && now == Time(0, 0)
      ensures Valid() && Now() == Machine(Books(Boot(idle, reaper), BootRest(idle, reaper)), Time(0, 0), false, [])
    {
      hide Core, Recorded, Doomed, Reaping, Balanced, Standing;
      Begin(idle, reaper);
      BootQueues(idle, reaper);
    }

    /** `wait_init` */
    method InitQueue(w: nat)
      requires Valid() && w !in waits
      modifies this`waits
      ensures Valid() && waits == old(waits)[w := []]
    {
      hide Core, Recorded, Doomed, Reaping, Balanced, Standing;
      NewQueue(State(), Others(), w, popping);
      waits := waits[w := []];
    }

    /** `semaphore_init` */
    method InitSemaphore(i: nat, n: nat)
      requires Valid() && i !in waits
      modifies this`waits, this`sems, this`calls
      ensures Valid() && waits == old(waits)[i := []] && sems == old(sems)[i := n]
      ensures calls == old(calls)[i := Calls(n, 0, 0)]
    {
      hide Core, Recorded, Doomed, Reaping, Balanced, Standing;
      NewQueue(State(), Others(), i, popping);
      NewSemaphore(State().(waits := waits[i := []]), Others(), i, n, popping);
      waits := waits[i := []];
      sems := sems[i := n];
      calls := calls[i := Calls(n, 0, 0)];
    }

    /** Every thread is in at most one list, the ready queue of its own level if in any, and in none while it runs. */
    lemma OnePlace(t: nat, q: Queue, r: Queue)
      requires Valid() && t in Members(State(), q)
      ensures t in threads && current != Some(t) && (q.ReadyQ? ==> q.level == threads[t].priority)
      ensures t in Members(State(), r) ==> q == r
    {
      hide Recorded, Doomed, Reaping, Balanced, Standing, Members, NoDup, Book;
    }

    /** At most as many threads are past a semaphore as it was initialised to. */
    lemma AtMostInitial(i: nat)
      requires Valid() && i in sems
      ensures i in waits && i in calls
      ensures var c, w := calls[i], SemOf(State(), Others(), i);
              w.value + w.waiters + w.window >= 0 && c.downs - w.waiters - w.window - c.ups <= c.initial
    {
      hide Core, Recorded, Doomed, Reaping, Standing;
    }

    /**
     * The reaper's list is what was reaped and not yet destroyed, in order, and it is not empty when the reaper pops.
     * The count of the reaper's semaphore is exact if and only if no thread was reaped since the reaper lowered it.
     */
    lemma ReaperExact()
      requires Valid()
      ensures reaped == destroyed + reaperList && NoDup(reaperList)
      ensures forall t :: t in reaperList <==> t in threads && threads[t].refcnt == 0
      ensures REAPER_SEM in sems && REAPER_SEM in waits && REAPER_SEM in calls
      ensures sems[REAPER_SEM] == |reaperList| - if popping then 1 else 0
      ensures current == Some(reaper) && popping && pending.None? ==> reaperList != []
      ensures var w := SemOf(State(), Others(), REAPER_SEM);
              Exact(w) <==> w.waiters + w.window == 0 || calls[REAPER_SEM].ups == mark
    {
      hide Core, Recorded, Balanced, Standing, NoDup;
      ReaperQueue(State());
      ReaperAwake(State(), Others(), popping);
    }

    /**
     * A thread whose last reference is a timer is reaped by a tick between the two halves of the reaper's
     * `semaphore_down`: nobody is woken, and the reaper goes to sleep with the thread in its list.
     */
    method LateReaper(tick: Time, ghost t: nat)
      requires Valid() && pending == Some(REAPER_SEM) && t in timers && t in threads
      requires threads[t].state == Dead && threads[t].refcnt == 1 && TimeCmp(TimeAdd(now, tick), threads[t].alarm) >= 0
      modifies this
      ensures Valid() && REAPER_SEM in sems && REAPER_SEM in waits
      ensures waits[REAPER_SEM] == [reaper] && t in reaperList && sems[REAPER_SEM] >= 0
      ensures !Exact(SemOf(State(), Others(), REAPER_SEM))
    {
      hide Core, Recorded, Doomed, Reaping, Balanced, Standing, Pending, SemNext, TimeCmp, TimeAdd;
      Tick(tick);
      ReaperExact();
      WindowFacts(State(), Others(), popping);
      Blocking();
    }

    /** What the guards of the steps rely on. */
    lemma Guards()
      requires Valid()
      ensures REAPER_SEM in waits && REAPER_SEM in sems && REAPER_SEM in calls && |ready| == LEVELS
      ensures (forall i :: i in sems ==> i in calls) && (current.None? ==> pending.None?)
    {
      hide Core, Recorded, Doomed, Standing;
      KernelFacts(State());
      Facts(State(), idle);
    }

    predicate OrdinaryRunning()
      reads this
    {
      current.Some? && current != Some(idle) && current != Some(reaper) && pending.None?
    }

    method PerformYield()
      requires Valid()
      modifies this
      ensures Valid() && Now() == Next(Yields, old(Now())) && held == old(held) && old(trace) <= trace
    {
      hide Valid, Next, Yielded, Died, WentBack, First;
      Guards();
      NextSwitch(Now());
      if current.Some? && current != Some(reaper) && pending.None? {
        Yield();
      }
    }

    method PerformExpiry()
      requires Valid()
      modifies this
      ensures Valid() && Now() == Next(Expires, old(Now())) && held == old(held) && old(trace) <= trace
    {
      hide Valid, Next, Yielded, Died, WentBack, First;
      Guards();
      NextSwitch(Now());
      if OrdinaryRunning() || current.None? {
        Preempt();
      }
    }

    method PerformExit()
      requires Valid()
      modifies this
      ensures Valid() && Now() == Next(Exits, old(Now())) && held == old(held) && old(trace) <= trace
    {
      hide Valid, Next, Yielded, Died, First;
      NextSwitch(Now());
      if OrdinaryRunning() {
        Exit();
      }
    }

    method PerformWait(w: nat)
      requires Valid()
      modifies this
      ensures Valid() && Now() == Next(Waits(w), old(Now())) && held == old(held) && old(trace) <= trace
    {
      hide Valid, Next, SleptIn, Lowered, WithAlarm, TimeAdd;
      NextSleep(Now(), w, 0, now);
      if OrdinaryRunning() && w in waits && w !in sems {
        Wait(w);
      }
    }

    method PerformDown(i: nat)
      requires Valid()
      modifies this
      ensures Valid() && Now() == Next(Downs(i), old(Now())) && held == old(held) && trace == old(trace)
    {
      hide Valid, Next, SleptIn, LoweredBy, Lowered, WithAlarm, TimeAdd;
      Guards();
      NextSleep(Now(), 0, i, now);
      if OrdinaryRunning() && i in sems && i != REAPER_SEM {
        Down(i);
        LoweredTrace(old(Others()), i);
      }
    }

    method PerformBlock()
      requires Valid()
      modifies this
      ensures Valid() && Now() == Next(Blocks, old(Now())) && held == old(held) && old(trace) <= trace
    {
      hide Valid, Next, SleptIn, BlockedBy, Lowered, WithAlarm, TimeAdd;
      NextSleep(Now(), 0, 0, now);
      if pending.Some? {
        Blocking();
      }
    }

    method PerformSleep(delay: Time)
      requires Valid()
      modifies this
      ensures Valid() && Now() == Next(Sleeps(delay), old(Now())) && held == old(held) && old(trace) <= trace
    {
      hide Valid, Next, SleptIn, Lowered, WithAlarm, TimeAdd;
      NextSleep(Now(), 0, 0, delay);
      if OrdinaryRunning() {
        Nanosleep(delay);
      }
    }

    method PerformWake(w: nat, nb: nat)
      requires Valid()
      modifies this
      ensures Valid() && Now() == Next(Wakes(w, nb), old(Now())) && held == old(held) && old(trace) <= trace
    {
      hide Next, Core, Recorded, Doomed, Reaping, Balanced, Standing, MadeReady, WokenFirst, Upped,
           TimersTurn, TimeAdd;
      NextWake(Now(), w, nb, 0, now);
      if w in waits && w !in sems && w != REAPER_SEM {
        var _ := Wake(w, nb);
      }
    }

    method PerformUp(i: nat)
      requires Valid()
      modifies this
      ensures Valid() && Now() == Next(Ups(i), old(Now())) && held == old(held) && old(trace) <= trace
    {
      hide Valid, Next, UppedBy, WokenFirst, Upped, TimersTurn, TimeAdd;
      NextWake(Now(), 0, 0, i, now);
      if i in sems && i != REAPER_SEM {
        var _ := Up(i);
      }
    }

    method PerformTick(tick: Time)
      requires Valid()
      modifies this
      ensures Valid() && Now() == Next(Ticks(tick), old(Now())) && held == old(held) && old(trace) <= trace
    {
      hide Valid, Next, MadeReady, Pending, WokenFirst, Upped, TimersTurn, TimeAdd, TimeCmp;
      NextWake(Now(), 0, 0, 0, tick);
      Tick(tick);
    }

    method PerformReap()
      requires Valid()
      modifies this
      ensures Valid() && Now() == Next(Reaps, old(Now())) && trace == old(trace)
    {
      hide Valid, Next, LoweredBy, Lowered, Destroyed;
      Guards();
      NextReap(Now());
      if current == Some(reaper) && pending.None? {
        if popping {
          ReaperPop();
        } else {
          ReaperDown();
          LoweredTrace(old(Others()), REAPER_SEM);
        }
      }
    }

    method PerformSpawn(t: nat, priority: nat, heapOk: bool, stackOk: bool)
      requires Valid()
      modifies this
      ensures Valid() && Now() == Next(Spawns(t, priority, heapOk, stackOk), old(Now())) && trace == old(trace)
    {
      hide Valid, Born, Next;
      NextNew(Now(), 0, 0, t, priority, heapOk, stackOk);
      if t !in threads && priority < LEVELS {
        var _ := Spawn(t, priority, heapOk, stackOk);
      }
    }

    method PerformQueue(w: nat)
      requires Valid()
      modifies this
      ensures Valid() && Now() == Next(QueueInit(w), old(Now())) && trace == old(trace) && held == old(held)
    {
      hide Valid, Born, Next;
      NextNew(Now(), w, 0, 0, 0, false, false);
      if w !in waits {
        InitQueue(w);
      }
    }

    method PerformSemaphore(i: nat, n: nat)
      requires Valid()
      modifies this
      ensures Valid() && Now() == Next(SemInit(i, n), old(Now())) && trace == old(trace) && held == old(held)
    {
      hide Valid, Born, Next;
      NextNew(Now(), i, n, 0, 0, false, false);
      if i !in waits {
        InitSemaphore(i, n);
      }
    }

    method PerformAdmit(t: nat)
      requires Valid()
      modifies this
      ensures Valid() && Now() == Next(On(t, Admission), old(Now())) && old(trace) <= trace
    {
      hide Valid, Next, InNoList, Admitted, AddedBy;
      NextOn(Now(), t, Admission);
      if t in threads && t != idle && t != reaper {
        LooseIsNowhere(t);
        if Loose(t) && threads[t].refcnt > 0 {
          Admit(t);
        }
      }
    }

    method PerformHold(t: nat)
      requires Valid()
      modifies this
      ensures Valid() && Now() == Next(On(t, Holding), old(Now())) && old(trace) <= trace
    {
      hide Valid, Next, InNoList, Kept;
      NextOn(Now(), t, Holding);
      if t in threads && t != idle && t != reaper {
        LooseIsNowhere(t);
        if threads[t].refcnt > 0 {
          Hold(t);
        }
      }
    }

    method PerformDrop(t: nat)
      requires Valid()
      modifies this
      ensures Valid() && Now() == Next(On(t, Dropping), old(Now())) && old(trace) <= trace
    {
      hide Valid, Next, InNoList, Dropped;
      NextOn(Now(), t, Dropping);
      if t in threads && t != idle && t != reaper {
        LooseIsNowhere(t);
        if threads[t].refcnt > (if Loose(t) then 0 else 1) {
          Drop(t);
        }
      }
    }

    method PerformRemove(t: nat)
      requires Valid()
      modifies this
      ensures Valid() && Now() == Next(On(t, Removal), old(Now())) && old(trace) <= trace
    {
      hide Valid, Next, InNoList, Withdrawn;
      NextOn(Now(), t, Removal);
      if t in threads && t != idle && t != reaper {
        ThreadFacts(t);
        var _ := Remove(t);
      }
    }

    method PerformKill(t: nat)
      requires Valid()
      modifies this
      ensures Valid() && Now() == Next(On(t, Killing), old(Now())) && old(trace) <= trace
    {
      hide Valid, Next, InNoList, Killed;
      NextOn(Now(), t, Killing);
      if t in threads && t != idle && t != reaper {
        if current != Some(t) {
          Kill(t);
        }
      }
    }

    method PerformLock(t: nat, lock: bool)
      requires Valid()
      modifies this
      ensures Valid() && Now() == Next(On(t, Locking(lock)), old(Now())) && old(trace) <= trace
    {
      hide Valid, Next, InNoList;
      NextOn(Now(), t, Locking(lock));
      if t in threads && t != idle && t != reaper {
        SetLocked(t, lock);
      }
    }

    lemma ThreadFacts(t: nat)
      requires Valid() && t in threads
      ensures |ready| == LEVELS && threads[t].priority < LEVELS && t in held
    {
      hide Core, Recorded, Doomed, Reaping, Balanced, Standing;
      Facts(State(), t);
    }

    /** One step of the machine, taken if it is legal. */
    method Perform(step: Step)
      requires Valid()
      modifies this
      ensures Valid() && Now() == Next(step, old(Now())) && old(trace) <= trace
      ensures !(step.Spawns? || step.Reaps? || step.On?) ==> held == old(held)
    {
      hide Valid, Now, Next;
      match step
      case Yields => PerformYield();
      case Expires => PerformExpiry();
      case Exits => PerformExit();
      case Waits(w) => PerformWait(w);
      case Downs(i) => PerformDown(i);
      case Blocks => PerformBlock();
      case Sleeps(delay) => PerformSleep(delay);
      case Wakes(w, nb) => PerformWake(w, nb);
      case Ups(i) => PerformUp(i);
      case Ticks(tick) => PerformTick(tick);
      case Reaps => PerformReap();
      case Spawns(t, priority, heapOk, stackOk) => PerformSpawn(t, priority, heapOk, stackOk);
      case QueueInit(w) => PerformQueue(w);
      case SemInit(i, n) => PerformSemaphore(i, n);
      case On(t, Admission) => PerformAdmit(t);
      case On(t, Holding) => PerformHold(t);
      case On(t, Dropping) => PerformDrop(t);
      case On(t, Removal) => PerformRemove(t);
      case On(t, Killing) => PerformKill(t);
      case On(t, Locking(lock)) => PerformLock(t, lock);
    }

    /** Every run keeps the invariant, and does step by step what the machine must do. */
    method Run(steps: seq<Step>)
      requires Valid()
      modifies this
      ensures Valid() && Now() == After(steps, old(Now()))
      ensures old(trace) <= trace
    {
      hide Next, Core, Recorded, Doomed, Reaping, Balanced, Standing;
      for k := 0 to |steps|
        invariant Valid() && Now() == After(steps[..k], old(Now())) && old(trace) <= trace
      {
        assert steps[..k + 1][..k] == steps[..k];
        Perform(steps[k]);
      }
      assert steps[..|steps|] == steps;
    }

    /**
     * A thread that stood `k` places from the front of its level when the history was `before` has been picked
     * within the next `k + 1` picks, if there were that many and nothing was ready above at any of them.
     */
    lemma Served(before: seq<Event>, t: nat, p: nat, k: nat) returns (j: nat)
      requires Valid() && before <= trace && WaitsAt(Queues(before), t, p, k)
      requires forall m :: |before| <= m < |trace| && trace[m].Pick? ==> EmptyAbove(Queues(trace[..m]), p)
      requires Unchain(t, p) !in trace[|before|..] && Picks(trace[|before|..]) > k
      ensures |before| <= j < |trace| && trace[j] == Pick(t) && Picks(trace[|before|..j]) <= k
    {
      hide Core, Doomed, Reaping, Balanced, Standing, WaitsAt, EmptyAbove, Queues, PicksFront;
      assert trace[..|before|] == before;
      j := BoundedWaiting(trace, |before|, t, p, k);
    }
  }
}
