/**
 * A run that leaves the reaper asleep with a thread in its list. The idle thread is 0, the reaper is 1, and two
 * threads 2 and 3 are created: 3 exits while 2, killed in its sleep, is kept alive by its timer alone.
 */
module ReaperRace {
  import opened Lists
  import opened Scheduling

  /** What a pick does when the running thread has left its place: `next` is the first of the highest level in use. */
  lemma PickAt(b: Books, p: nat, next: nat, others: seq<nat>)
    requires |b.sys.ready| == LEVELS && p < LEVELS && b.sys.ready[p] == [next] + others
    requires forall j :: p < j < LEVELS ==> b.sys.ready[j] == []
    requires next in b.sys.threads && next in b.sys.held
    requires b.sys.current.Some? ==> b.sys.leaving && b.sys.current.value in b.sys.held && b.sys.current.value != next
    ensures Picked(b) ==
            Books(b.sys.(ready := b.sys.ready[p := others], current := Some(next), leaving := false,
                         place := b.sys.place[next := Current],
                         threads := b.sys.threads[next := b.sys.threads[next].(state := Running)]),
                  b.rest.(trace := b.rest.trace + [Pick(next)]))
  {
    assert First(b.sys.ready, LEVEL_MAX) == p;
    EraseFront(b.sys.ready[p]);
    assert b.sys.held[next := b.sys.held[next] + 1][next := b.sys.held[next]] == b.sys.held;
    assert b.sys.place[next := Nowhere][next := Current] == b.sys.place[next := Current];
  }

  /** States are compared field by field. */
  lemma Same(s: Sys, s': Sys)
    requires s.threads == s'.threads && s.ready == s'.ready && s.waits == s'.waits && s.timers == s'.timers
    requires s.current == s'.current && s.leaving == s'.leaving && s.place == s'.place && s.held == s'.held
    requires s.locked == s'.locked && s.idle == s'.idle && s.reaper == s'.reaper
    ensures s == s'
  {
  }

  ghost function Listed(t: nat, where: Place, q: Queue): seq<nat> {
    if where == In(q) then [t] else []
  }

  /** The four threads at their places. */
  ghost function Scene(reaper: State, a: Thread, b: Thread, atReaper: Place, atA: Place, atB: Place): Sys {
    Sys(map[0 := Thread(LEVEL_MIN, Ready, 2, Time(0, 0)), 1 := Thread(LEVEL_MAX, reaper, 2, Time(0, 0)), 2 := a,
            3 := b],
        [[0], [], Listed(2, atA, ReadyQ(2)) + Listed(3, atB, ReadyQ(2)), [], Listed(1, atReaper, ReadyQ(LEVEL_MAX))],
        map[REAPER_SEM := Listed(1, atReaper, WaitQ(REAPER_SEM))], Listed(2, atA, TimerQ),
        if atReaper == Current then Some(1) else if atA == Current then Some(2) else if atB == Current then Some(3)
        else None,
        false, map[0 := In(ReadyQ(LEVEL_MIN)), 1 := atReaper, 2 := atA, 3 := atB],
        map[0 := 1, 1 := 1, 2 := 0, 3 := 0], {}, 0, 1)
  }

  ghost function Worker(state: State, refcnt: nat, alarm: Time): Thread {
    Thread(2, state, refcnt, alarm)
  }

  ghost function Counts(list: seq<nat>, value: int, downs: nat, ups: nat, trace: seq<Event>, pending: Option<nat>,
                        mark: nat): Rest
  {
    Rest(list, map[REAPER_SEM := value], map[REAPER_SEM := Calls(0, downs, ups)], trace, pending, mark)
  }

  const ZERO := Time(0, 0)
  const LEVEL2 := In(ReadyQ(2))
  const TOP := In(ReadyQ(LEVEL_MAX))
  const DOWN := In(WaitQ(REAPER_SEM))

  /** Both threads are ready, and the reaper has not run yet. */
  ghost function Start(trace: seq<Event>): Books {
    Books(Scene(Ready, Worker(Ready, 1, ZERO), Worker(Ready, 1, ZERO), TOP, LEVEL2, LEVEL2),
          Counts([], 0, 0, 0, trace, None, 0))
  }

  /** The reaper runs. */
  ghost function Running1(trace: seq<Event>, value: int, downs: nat, pending: Option<nat>): Books {
    Books(Scene(Running, Worker(Ready, 1, ZERO), Worker(Ready, 1, ZERO), Current, LEVEL2, LEVEL2),
          Counts([], value, downs, 0, trace, pending, 0))
  }

  /** The reaper sleeps, and thread 2 runs. */
  ghost function Running2(trace: seq<Event>): Books {
    Books(Scene(Sleeping, Worker(Running, 1, ZERO), Worker(Ready, 1, ZERO), DOWN, Current, LEVEL2),
          Counts([], -1, 1, 0, trace, None, 0))
  }

  /** Thread 2 sleeps or is dead, in the timer list, and thread 3 runs. */
  ghost function Running3(trace: seq<Event>, state: State, alarm: Time): Books {
    Books(Scene(Sleeping, Worker(state, 1, alarm), Worker(Running, 1, ZERO), DOWN, In(TimerQ), Current),
          Counts([], -1, 1, 0, trace, None, 0))
  }

  /** Thread 3 has died, and has woken the reaper. */
  ghost function Mourning(trace: seq<Event>, alarm: Time): Books {
    Books(Scene(Running, Worker(Dead, 1, alarm), Worker(Dead, 0, ZERO), Current, In(TimerQ), Nowhere),
          Counts([3], 0, 1, 1, trace, None, 0))
  }

  lemma ReaperStarts(trace: seq<Event>)
    ensures Next(Expires, Machine(Start(trace), ZERO, false, [])) ==
            Machine(Running1(trace + [Pick(1)], 0, 0, None), ZERO, false, [])
  {
    hide Picked;
    PickAt(Start(trace), LEVEL_MAX, 1, []);
    Same(Picked(Start(trace)).sys, Running1(trace + [Pick(1)], 0, 0, None).sys);
  }

  lemma ReaperLowers(trace: seq<Event>)
    ensures Next(Reaps, Machine(Running1(trace, 0, 0, None), ZERO, false, [])) ==
            Machine(Running1(trace, -1, 1, Some(REAPER_SEM)), ZERO, true, [])
  {
  }

  lemma ReaperSleeps(trace: seq<Event>)
    ensures SleptIn(Running1(trace, -1, 1, None), WaitQ(REAPER_SEM)) == Running2(trace + [Pick(2)])
  {
    hide Picked;
    var b := Running1(trace, -1, 1, None);
    assert [2] + [3] == [2, 3] && [] + [1] == [1] && [] + [3] == [3];
    var b' := b.(sys := Asleep(b.sys, WaitQ(REAPER_SEM)));
    PickAt(b', 2, 2, [3]);
    Same(Picked(b').sys, Running2(trace + [Pick(2)]).sys);
  }

  lemma ReaperBlocks(trace: seq<Event>)
    ensures Next(Blocks, Machine(Running1(trace, -1, 1, Some(REAPER_SEM)), ZERO, true, [])) ==
            Machine(Running2(trace + [Pick(2)]), ZERO, true, [])
  {
    hide SleptIn, Scene;
    ReaperSleeps(trace);
    var b := Running1(trace, -1, 1, Some(REAPER_SEM));
    assert b.(rest := b.rest.(pending := None)) == Running1(trace, -1, 1, None);
    assert Legal(Blocks, b);
    assert Stepped(Blocks, b, ZERO, true) == Running2(trace + [Pick(2)]);
  }

  lemma WorkerSleeps(trace: seq<Event>, alarm: Time)
    ensures SleptIn(WithAlarm(Running2(trace), 2, alarm), TimerQ) == Running3(trace + [Pick(3)], Sleeping, alarm)
  {
    hide Picked;
    var b := WithAlarm(Running2(trace), 2, alarm);
    assert [] + [3] == [3] + [] && [] + [2] == [2];
    var b' := b.(sys := Asleep(b.sys, TimerQ));
    PickAt(b', 2, 3, []);
    var none: seq<nat> := [];
    assert Running3(trace + [Pick(3)], Sleeping, alarm).sys.ready[2] == none + none == none;
    Same(Picked(b').sys, Running3(trace + [Pick(3)], Sleeping, alarm).sys);
  }

  lemma WorkerNaps(trace: seq<Event>, delay: Time)
    ensures Next(Sleeps(delay), Machine(Running2(trace), ZERO, true, [])) ==
            Machine(Running3(trace + [Pick(3)], Sleeping, TimeAdd(ZERO, delay)), ZERO, true, [])
  {
    hide SleptIn, TimeAdd, WithAlarm;
    WorkerSleeps(trace, TimeAdd(ZERO, delay));
    assert Legal(Sleeps(delay), Running2(trace));
  }

  lemma WorkerKilled(trace: seq<Event>, alarm: Time)
    ensures Next(On(2, Killing), Machine(Running3(trace, Sleeping, alarm), ZERO, true, [])) ==
            Machine(Running3(trace, Dead, alarm), ZERO, true, [])
  {
    assert 2 !in Running3(trace, Sleeping, alarm).sys.ready[2];
  }

  /** The other thread has died; the reaper is ready. */
  ghost function Woke(trace: seq<Event>, alarm: Time): Books {
    Books(Scene(Ready, Worker(Dead, 1, alarm), Worker(Dead, 0, ZERO), TOP, In(TimerQ), Nowhere)
          .(current := Some(3), leaving := true),
          Counts([3], 0, 1, 1, trace + [Push(1, LEVEL_MAX)], None, 0))
  }

  /** Thread 3 dies; its reference is in the hand of `sched_exit`. */
  ghost function Expiring(refcnt: nat, alarm: Time): Sys {
    Scene(Sleeping, Worker(Dead, 1, alarm), Worker(Dead, refcnt, ZERO), DOWN, In(TimerQ), Nowhere)
    .(current := Some(3), leaving := true, held := map[0 := 1, 1 := 1, 2 := 0, 3 := refcnt])
  }

  lemma OtherDying(trace: seq<Event>, alarm: Time)
    ensures var s := Running3(trace, Dead, alarm).sys;
            3 in s.held && 3 in s.threads && s.current == Some(3) && Dying(s) == Expiring(1, alarm)
  {
  }

  lemma OtherLighter(alarm: Time)
    ensures Kept(Expiring(1, alarm), 3, Worker(Dead, 0, ZERO), 0) == Expiring(0, alarm)
  {
    Same(Kept(Expiring(1, alarm), 3, Worker(Dead, 0, ZERO), 0), Expiring(0, alarm));
  }

  lemma ReaperWakes(alarm: Time)
    ensures Woken(Expiring(0, alarm)) == Woke([], alarm).sys
  {
    assert [] + [1] == [1];
    Same(Woken(Expiring(0, alarm)), Woke([], alarm).sys);
  }

  lemma OtherDropped(alarm: Time, r: Rest)
    requires r.sems == map[REAPER_SEM := -1] && r.calls == map[REAPER_SEM := Calls(0, 1, 0)] && r.list == []
    ensures Dropped(Books(Expiring(1, alarm), r), 3) ==
            Books(Woke([], alarm).sys, Counts([3], 0, 1, 1, r.trace + [Push(1, LEVEL_MAX)], r.pending, r.mark))
  {
    hide Woken, Kept;
    OtherLighter(alarm);
    ReaperWakes(alarm);
    assert [] + [3] == [3];
  }

  lemma OtherDies(trace: seq<Event>, alarm: Time)
    ensures Died(Running3(trace, Dead, alarm)) == Woke(trace, alarm)
  {
    hide Dropped, Dying, Scene, Expiring;
    OtherDying(trace, alarm);
    OtherDropped(alarm, Running3(trace, Dead, alarm).rest);
  }

  lemma OtherExits(trace: seq<Event>, alarm: Time)
    ensures Next(Exits, Machine(Running3(trace, Dead, alarm), ZERO, true, [])) ==
            Machine(Mourning(trace + [Push(1, LEVEL_MAX)] + [Pick(1)], alarm), ZERO, true, [])
  {
    hide Picked, Died;
    OtherDies(trace, alarm);
    PickAt(Woke(trace, alarm), LEVEL_MAX, 1, []);
    Same(Picked(Woke(trace, alarm)).sys, Mourning(trace + [Push(1, LEVEL_MAX)] + [Pick(1)], alarm).sys);
  }

  /** The reaper destroys thread 3 and comes back to its semaphore: the clock may now strike. */
  lemma ReaperReturns(trace: seq<Event>, alarm: Time)
    ensures var m := Next(Reaps, Next(Reaps, Machine(Mourning(trace, alarm), ZERO, true, [])));
            && m.books.rest.pending == Some(REAPER_SEM) && m.popping && m.now == ZERO
            && m.books.sys == Destroyed(Mourning(trace, alarm).sys, 3)
  {
  }

  /** Thread `t` of level 2 is ready, with `held` references from outside. */
  ghost function Listing(b: Books, t: nat, refcnt: nat, held: nat): Books
    requires |b.sys.ready| == LEVELS
  {
    Books(b.sys.(threads := b.sys.threads[t := Worker(Ready, refcnt, ZERO)],
                 ready := b.sys.ready[2 := b.sys.ready[2] + [t]], place := b.sys.place[t := LEVEL2],
                 held := b.sys.held[t := held]),
          b.rest.(trace := b.rest.trace + [Push(t, 2)]))
  }

  /** Thread `t` of level 2 has been created, made ready and left to the scheduler. */
  ghost function Launched(b: Books, t: nat): Books
    requires |b.sys.ready| == LEVELS
  {
    Listing(b, t, 1, 0)
  }

  lemma LaunchAdmitted(b: Books, t: nat)
    requires |b.sys.ready| == LEVELS && t !in b.sys.locked
    ensures Admitted(b.(sys := Born(b.sys, t, 2)), t) == Listing(b, t, 2, 1)
  {
    var b1 := b.(sys := Born(b.sys, t, 2));
    Same(Admitted(b1, t).sys, Listing(b, t, 2, 1).sys);
  }

  lemma LaunchDropped(b: Books, t: nat)
    requires |b.sys.ready| == LEVELS && b.sys.reaper in b.sys.threads
    requires REAPER_SEM in b.sys.waits && REAPER_SEM in b.rest.sems && REAPER_SEM in b.rest.calls
    ensures Dropped(Listing(b, t, 2, 1), t) == Launched(b, t)
  {
    var b2 := Listing(b, t, 2, 1);
    Same(Kept(b2.sys, t, Lighter(b2.sys.threads[t]), 0), Launched(b, t).sys);
  }

  lemma Launch(b: Books, t: nat)
    requires t !in b.sys.threads && |b.sys.ready| == LEVELS && t != b.sys.idle && t != b.sys.reaper
    requires t !in b.sys.locked && InNoList(t, b.sys.ready, b.sys.waits, b.sys.timers, b.sys.current)
    requires REAPER_SEM in b.sys.waits && REAPER_SEM in b.rest.sems && REAPER_SEM in b.rest.calls
    requires b.sys.reaper in b.sys.threads
    ensures Next(On(t, Dropping),
                 Next(On(t, Admission), Next(Spawns(t, 2, true, true), Machine(b, ZERO, false, [])))) ==
            Machine(Launched(b, t), ZERO, false, [])
  {
    hide Next, Admitted, Dropped, Launched;
    var m := Machine(b, ZERO, false, []);
    var b1, b2 := b.(sys := Born(b.sys, t, 2)), Listing(b, t, 2, 1);
    NextNew(m, 0, 0, t, 2, true, true);
    NextOn(m.(books := b1), t, Admission);
    LaunchAdmitted(b, t);
    assert b2.sys.ready[2] == b.sys.ready[2] + [t];
    NextOn(m.(books := b2), t, Dropping);
    LaunchDropped(b, t);
  }

  /** The machine after `sched_init`, `idle_init` and `reaper_init`. */
  ghost function Initial(): Books {
    Books(Boot(0, 1), BootRest(0, 1))
  }

  lemma LaunchBoth()
    ensures |Initial().sys.ready| == LEVELS && |Launched(Initial(), 2).sys.ready| == LEVELS
    ensures Launched(Launched(Initial(), 2), 3) ==
            Start([Push(0, LEVEL_MIN), Push(1, LEVEL_MAX), Push(2, 2), Push(3, 2)])
    ensures InNoList(2, Initial().sys.ready, Initial().sys.waits, Initial().sys.timers, Initial().sys.current)
    ensures var s := Launched(Initial(), 2).sys; InNoList(3, s.ready, s.waits, s.timers, s.current)
  {
    assert [] + [2] == [2] && [2] + [3] == [2, 3];
  }

  lemma {:induction false} AfterBoth(a: seq<Step>, b: seq<Step>, m: Machine)
    ensures After(a + b, m) == After(b, After(a, m))
  {
    hide Next;
    if b == [] {
      assert a + b == a;
    } else {
      AfterBoth(a, b[..|b| - 1], m);
      assert (a + b)[..|a + b| - 1] == a + b[..|b| - 1];
    }
  }

  lemma AfterThree(a: Step, b: Step, c: Step, m: Machine)
    ensures After([a, b, c], m) == Next(c, Next(b, Next(a, m)))
  {
    hide Next;
    assert [a, b, c][..2] == [a, b] && [a, b][..1] == [a] && [a][..0] == [];
    assert After([a], m) == Next(a, m) && After([a, b], m) == Next(b, After([a], m));
  }

  lemma AfterTwo(a: Step, b: Step, m: Machine)
    ensures After([a, b], m) == Next(b, Next(a, m))
  {
    hide Next;
    assert [a, b][..1] == [a] && [a][..0] == [];
    assert After([a], m) == Next(a, m);
  }

  function Creation(t: nat): seq<Step> {
    [Spawns(t, 2, true, true), On(t, Admission), On(t, Dropping)]
  }

  /** Until the reaper is at its semaphore again; what follows is one tick. */
  function Story(delay: Time): seq<Step> {
    Creation(2) + Creation(3) + [Expires, Reaps, Blocks] + [Sleeps(delay), On(2, Killing), Exits] + [Reaps, Reaps]
  }

  lemma Created()
    ensures After(Creation(2) + Creation(3), Machine(Initial(), ZERO, false, [])) ==
            Machine(Start([Push(0, LEVEL_MIN), Push(1, LEVEL_MAX), Push(2, 2), Push(3, 2)]), ZERO, false, [])
  {
    hide Next, After, Launched, Start, Initial;
    var m := Machine(Initial(), ZERO, false, []);
    LaunchBoth();
    InitialFits();
    SecondFits();
    Launch(Initial(), 2);
    Launch(Launched(Initial(), 2), 3);
    AfterThree(Spawns(2, 2, true, true), On(2, Admission), On(2, Dropping), m);
    AfterThree(Spawns(3, 2, true, true), On(3, Admission), On(3, Dropping), After(Creation(2), m));
    AfterBoth(Creation(2), Creation(3), m);
  }

  /** The state that the late reaper starts from is reached by a run from the initialisation. */
  lemma WindowReached(delay: Time)
    ensures var m := After(Story(delay), Machine(Initial(), ZERO, false, []));
            && m.books.rest.pending == Some(REAPER_SEM) && m.now == ZERO && 2 in m.books.sys.timers
            && 2 in m.books.sys.threads && m.books.sys.threads[2] == Worker(Dead, 1, TimeAdd(ZERO, delay))
  {
    hide Next, After, Launched, Start, Running1, Running2, Running3, Initial, TimeAdd, Mourning;
    var m, alarm := Machine(Initial(), ZERO, false, []), TimeAdd(ZERO, delay);
    var a, b, c := Creation(2) + Creation(3), [Expires, Reaps, Blocks], [Sleeps(delay), On(2, Killing), Exits];
    var t0 := [Push(0, LEVEL_MIN), Push(1, LEVEL_MAX), Push(2, 2), Push(3, 2)];
    var t1, t2, t3 := t0 + [Pick(1)], t0 + [Pick(1)] + [Pick(2)], t0 + [Pick(1)] + [Pick(2)] + [Pick(3)];
    Created();
    AfterBoth(a, b, m);
    AfterThree(Expires, Reaps, Blocks, After(a, m));
    ReaperStarts(t0);
    ReaperLowers(t1);
    ReaperBlocks(t1);
    AfterBoth(a + b, c, m);
    AfterThree(Sleeps(delay), On(2, Killing), Exits, After(a + b, m));
    WorkerNaps(t2, delay);
    WorkerKilled(t3, alarm);
    OtherExits(t3, alarm);
    AfterBoth(a + b + c, [Reaps, Reaps], m);
    AfterTwo(Reaps, Reaps, After(a + b + c, m));
    ReaperReturns(t3 + [Push(1, LEVEL_MAX)] + [Pick(1)], alarm);
    MourningFacts(t3 + [Push(1, LEVEL_MAX)] + [Pick(1)], alarm);
  }

  lemma MourningFacts(trace: seq<Event>, alarm: Time)
    ensures var s := Destroyed(Mourning(trace, alarm).sys, 3);
            2 in s.timers && 2 in s.threads && s.threads[2] == Worker(Dead, 1, alarm)
  {
  }

  lemma InitialFits()
    ensures var b := Initial();
            && 2 !in b.sys.threads && 2 != b.sys.idle && 2 != b.sys.reaper && 2 !in b.sys.locked
            && REAPER_SEM in b.sys.waits && REAPER_SEM in b.rest.sems && REAPER_SEM in b.rest.calls
            && b.sys.reaper in b.sys.threads
  {
  }

  lemma SecondFits()
    requires |Initial().sys.ready| == LEVELS
    ensures var b := Launched(Initial(), 2);
            && 3 !in b.sys.threads && 3 != b.sys.idle && 3 != b.sys.reaper && 3 !in b.sys.locked
            && REAPER_SEM in b.sys.waits && REAPER_SEM in b.rest.sems && REAPER_SEM in b.rest.calls
            && b.sys.reaper in b.sys.threads
  {
  }

  /** Initialisation, the story, and a tick in the window: the reaper sleeps, and thread 2 stays in its list. */
  method Race(delay: Time) returns (m: Scheduler)
    ensures m.Valid() && REAPER_SEM in m.sems && REAPER_SEM in m.waits
    ensures m.waits[REAPER_SEM] == [m.reaper] && 2 in m.reaperList && m.sems[REAPER_SEM] >= 0
  {
    hide After, Story, Initial, TimeAdd;
    m := new Scheduler(0, 1);
    assert m.Now() == Machine(Initial(), ZERO, false, []) by { InitialIs(); }
    m.Run(Story(delay));
    WindowReached(delay);
    m.LateReaper(delay, 2);
  }

  lemma InitialIs()
    ensures Initial() == Books(Boot(0, 1), BootRest(0, 1))
  {
  }
}
