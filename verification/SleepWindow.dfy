/**
 * Between `timer_register`, or the push of `wait_wait`, and the switch, interrupts are on: the running thread is
 * already in the list (kernel/sched/sched.c, kernel/sched/wait.c). What the clock or a wake-up does then.
 */
module SleepWindow {
  import opened Lists
  import opened Scheduling

  /** The running thread has entered the list `q`, which holds a reference, and has not given up the processor. */
  ghost function Entered(b: Books, q: Queue, alarm: Time): Books
    requires b.sys.current.Some? && b.sys.current.value in b.sys.threads && Exists(b.sys, q)
  {
    var t := b.sys.current.value;
    var th := b.sys.threads[t];
    b.(sys := WithMembers(b.sys, q, Members(b.sys, q) + [t])
              .(threads := b.sys.threads[t := th.(refcnt := th.refcnt + 1, alarm := alarm)]))
  }

  /** Nothing has happened to thread `t`. */
  ghost predicate Untouched(b: Books, b': Books, t: nat) {
    && b'.sys.current == b.sys.current && b'.sys.locked == b.sys.locked && b'.sys.reaper == b.sys.reaper
    && |b'.sys.ready| == |b.sys.ready| && (t in b.sys.threads ==> t in b'.sys.threads)
    && (t in b.sys.threads ==> b'.sys.threads[t] == b.sys.threads[t])
    && (t in b.sys.held ==> t in b'.sys.held && b'.sys.held[t] == b.sys.held[t])
    && (forall p :: 0 <= p < |b.sys.ready| ==> (t in b'.sys.ready[p] <==> t in b.sys.ready[p]))
    && (MayWake(b) ==> MayWake(b'))
  }

  ghost predicate MayWake(b: Books) {
    && REAPER_SEM in b.sys.waits && REAPER_SEM in b.rest.sems && REAPER_SEM in b.rest.calls
    && b.sys.reaper in b.sys.threads && |b.sys.ready| == LEVELS
  }

  lemma UntouchedTwice(b: Books, b1: Books, b2: Books, t: nat)
    requires Untouched(b, b1, t) && Untouched(b1, b2, t)
    ensures Untouched(b, b2, t)
  {
    hide MayWake;
  }

  lemma AdmittedUntouched(b: Books, u: nat, t: nat)
    requires u != t
    ensures Untouched(b, Admitted(b, u), t) && Admitted(b, u).sys.waits == b.sys.waits
  {
  }

  lemma DroppedUntouched(b: Books, u: nat, t: nat)
    requires u != t && t != b.sys.reaper
    ensures Untouched(b, Dropped(b, u), t)
    ensures forall w :: w != REAPER_SEM && w in b.sys.waits ==>
              w in Dropped(b, u).sys.waits && Dropped(b, u).sys.waits[w] == b.sys.waits[w]
  {
  }

  lemma UnchainedUntouched(b: Books, q: Queue, u: nat, t: nat)
    requires u != t && !q.ReadyQ? && Exists(b.sys, q) && u in b.sys.held
    ensures Untouched(b, b.(sys := Unchained(b.sys, u, q)), t)
    ensures q.WaitQ? ==> Unchained(b.sys, u, q).waits == b.sys.waits[q.id := Erase(b.sys.waits[q.id], u)]
  {
  }

  /** Another thread leaves its list. */
  lemma TakenUntouched(b: Books, q: Queue, u: nat, t: nat)
    requires u != t && t != b.sys.reaper && !q.ReadyQ? && q != WaitQ(REAPER_SEM)
    ensures Untouched(b, TakenFrom(b, q, u), t)
    ensures q.WaitQ? && q.id in b.sys.waits && u in b.sys.held ==>
              q.id in TakenFrom(b, q, u).sys.waits && TakenFrom(b, q, u).sys.waits[q.id] == Erase(b.sys.waits[q.id], u)
  {
    hide Untouched, Admitted, Dropped;
    if Exists(b.sys, q) && u in b.sys.held {
      var b1 := b.(sys := Unchained(b.sys, u, q));
      UnchainedUntouched(b, q, u, t);
      AdmittedUntouched(b1, u, t);
      SameReaper(b1, Admitted(b1, u), t);
      DroppedUntouched(Admitted(b1, u), u, t);
      UntouchedTwice(b, b1, Admitted(b1, u), t);
      UntouchedTwice(b, Admitted(b1, u), Dropped(Admitted(b1, u), u), t);
    } else {
      Nothing(b, t);
    }
  }

  lemma SameReaper(b: Books, b': Books, t: nat)
    requires Untouched(b, b', t)
    ensures b'.sys.reaper == b.sys.reaper
  {
  }

  lemma Nothing(b: Books, t: nat)
    ensures Untouched(b, b, t)
  {
  }

  /** The running thread itself is taken off a list: it is ready and runs, unless its process is locked. */
  lemma TakenItself(b: Books, q: Queue, t: nat)
    requires b.sys.current == Some(t) && t in b.sys.threads && t in b.sys.held && Exists(b.sys, q) && !q.ReadyQ?
    requires b.sys.threads[t].state == Running && b.sys.threads[t].refcnt >= 2 && b.sys.threads[t].priority < LEVELS
    requires MayWake(b) && forall p :: 0 <= p < LEVELS ==> t !in b.sys.ready[p]
    ensures var b', p := TakenFrom(b, q, t), b.sys.threads[t].priority;
            && b'.sys.current == Some(t) && |b'.sys.ready| == LEVELS && t in b'.sys.threads
            && b'.sys.threads[t].state == Ready && (t in b'.sys.ready[p] <==> t !in b.sys.locked)
  {
    var b1 := b.(sys := Unchained(b.sys, t, q));
    assert b1.sys.ready == b.sys.ready && b1.sys.threads == b.sys.threads && b1.sys.locked == b.sys.locked;
    var b2 := Admitted(b1, t);
    assert b2.sys.threads[t].refcnt >= 2 && b2.sys.held == b1.sys.held && b1.sys.held[t] > 0;
    assert MayDrop(b2.sys, b2.rest, t);
  }

  lemma TimerUntouched(b: Books, u: nat, t: nat, now: Time)
    requires u != t && t != b.sys.reaper
    ensures Untouched(b, TimerTurn(b, u, now), t)
  {
    hide Untouched, TakenFrom, TimeCmp;
    Nothing(b, t);
    TakenUntouched(b, TimerQ, u, t);
    var b1 := TakenFrom(b, TimerQ, u);
    AlarmUntouched(b1, u, t);
    UntouchedTwice(b, b1, WithAlarm(b1, u, Time(0, 0)), t);
  }

  lemma AlarmUntouched(b: Books, u: nat, t: nat)
    requires u != t
    ensures Untouched(b, WithAlarm(b, u, Time(0, 0)), t)
  {
  }

  lemma {:induction false} TimersUntouched(b: Books, l: seq<nat>, t: nat, now: Time)
    requires t !in l && t != b.sys.reaper
    ensures Untouched(b, TimersTurn(b, l, now), t)
  {
    hide Untouched, TimerTurn;
    Nothing(b, t);
    if l != [] {
      var b1 := TimersTurn(b, l[..|l| - 1], now);
      TimersUntouched(b, l[..|l| - 1], t, now);
      SameReaper(b, b1, t);
      TimerUntouched(b1, l[|l| - 1], t, now);
      UntouchedTwice(b, b1, TimerTurn(b1, l[|l| - 1], now), t);
    }
  }

  /** What is known of the running thread. */
  lemma RunningFacts(s: Sys)
    requires Core(s) && s.current.Some? && !s.leaving
    ensures var t := s.current.value;
            && t in s.threads && t in s.held && s.threads[t].state == Running && s.threads[t].priority < LEVELS
            && s.threads[t].refcnt >= 1 && |s.ready| == LEVELS && s.reaper in s.threads && t !in s.timers
            && (forall p :: 0 <= p < LEVELS ==> t !in s.ready[p]) && (forall w :: w in s.waits ==> t !in s.waits[w])
  {
    hide Core, NoDup;
    CurrentFacts(s);
    Facts(s, s.current.value);
    RunsInNoList(s);
  }

  lemma RunsInNoList(s: Sys)
    requires Core(s) && s.current.Some? && !s.leaving
    ensures var t := s.current.value;
            && t !in s.timers && (forall p :: 0 <= p < |s.ready| ==> t !in s.ready[p])
            && (forall w :: w in s.waits ==> t !in s.waits[w])
  {
    hide Core, NoDup;
    var t := s.current.value;
    CurrentFacts(s);
    forall q
      ensures t !in Members(s, q)
    {
      QueuePlaces(s, q);
    }
    assert s.timers == Members(s, TimerQ);
    assert forall p :: 0 <= p < |s.ready| ==> s.ready[p] == Members(s, ReadyQ(p));
    assert forall w :: w in s.waits ==> s.waits[w] == Members(s, WaitQ(w));
  }

  /**
   * A tick in the window of `sched_nanosleep` puts the running thread in a ready queue if and only if its own alarm
   * is due by then, unless its process is locked.
   */
  lemma TickInWindow(b: Books, alarm: Time, now: Time)
    requires Core(b.sys) && b.sys.current.Some? && !b.sys.leaving && b.sys.current != Some(b.sys.reaper)
    requires REAPER_SEM in b.sys.waits && REAPER_SEM in b.rest.sems && REAPER_SEM in b.rest.calls
    requires b.sys.current.value in b.sys.threads
    ensures var t := b.sys.current.value; var w := Entered(b, TimerQ, alarm);
                                          var b' := TimersTurn(w, w.sys.timers, now);
            && b'.sys.current == Some(t) && b.sys.threads[t].priority < |b'.sys.ready|
            && (t in b'.sys.ready[b.sys.threads[t].priority] <==> TimeCmp(now, alarm) >= 0 && t !in b.sys.locked)
  {
    hide Core, TimerTurn, TimeCmp;
    RunningFacts(b.sys);
    var t, w := b.sys.current.value, Entered(b, TimerQ, alarm);
    assert w.sys.timers == b.sys.timers + [t] && w.sys.timers[..|b.sys.timers|] == b.sys.timers;
    var b1 := TimersTurn(w, b.sys.timers, now);
    TimersUntouched(w, b.sys.timers, t, now);
    assert TimersTurn(w, w.sys.timers, now) == TimerTurn(b1, t, now);
    TimerItself(b1, t, now);
  }

  lemma TimerItself(b: Books, t: nat, now: Time)
    requires b.sys.current == Some(t) && t in b.sys.threads && t in b.sys.held
    requires b.sys.threads[t].state == Running && b.sys.threads[t].refcnt >= 2 && b.sys.threads[t].priority < LEVELS
    requires MayWake(b) && forall p :: 0 <= p < LEVELS ==> t !in b.sys.ready[p]
    ensures var b', p := TimerTurn(b, t, now), b.sys.threads[t].priority;
            && b'.sys.current == Some(t) && |b'.sys.ready| == LEVELS
            && (t in b'.sys.ready[p] <==> TimeCmp(now, b.sys.threads[t].alarm) >= 0 && t !in b.sys.locked)
  {
    hide TakenFrom, TimeCmp;
    TakenItself(b, TimerQ, t);
  }

  /** The first `n` sleepers are woken, all of them before thread `t`. */
  lemma {:induction false} WokenUntouched(b: Books, w: nat, n: nat, t: nat)
    requires w in b.sys.waits && w != REAPER_SEM && n <= |b.sys.waits[w]| && t !in b.sys.waits[w][..n]
    requires t != b.sys.reaper && forall u :: u in b.sys.waits[w] ==> u in b.sys.held
    ensures Untouched(b, WokenFirst(b, w, n), t)
    ensures w in WokenFirst(b, w, n).sys.waits && WokenFirst(b, w, n).sys.waits[w] == b.sys.waits[w][n..]
    ensures b.sys.held.Keys <= WokenFirst(b, w, n).sys.held.Keys
  {
    hide Untouched, TakenFrom;
    Nothing(b, t);
    if n > 0 {
      var b1 := WokenFirst(b, w, n - 1);
      assert t !in b.sys.waits[w][..n - 1] by {
        assert b.sys.waits[w][..n][..n - 1] == b.sys.waits[w][..n - 1];
      }
      WokenUntouched(b, w, n - 1, t);
      var u := b.sys.waits[w][n - 1];
      assert b1.sys.waits[w][0] == u && u in b.sys.waits[w] && u in b.sys.waits[w][..n];
      SameReaper(b, b1, t);
      TakenUntouched(b1, WaitQ(w), u, t);
      EraseFront(b1.sys.waits[w]);
      TakenHeld(b1, WaitQ(w), u);
      UntouchedTwice(b, b1, TakenFrom(b1, WaitQ(w), u), t);
    }
  }

  lemma TakenHeld(b: Books, q: Queue, u: nat)
    ensures b.sys.held.Keys <= TakenFrom(b, q, u).sys.held.Keys
  {
    hide Admitted, Dropped;
    if Exists(b.sys, q) && u in b.sys.held {
      var b1 := b.(sys := Unchained(b.sys, u, q));
      AdmittedHeld(b1, u);
      DroppedHeld(Admitted(b1, u), u);
    }
  }

  lemma AdmittedHeld(b: Books, u: nat)
    ensures Admitted(b, u).sys.held == b.sys.held
  {
  }

  lemma DroppedHeld(b: Books, u: nat)
    ensures b.sys.held.Keys <= Dropped(b, u).sys.held.Keys
  {
  }

  /**
   * A wake-up in the window of `wait_wait` puts the running thread in a ready queue if and only if it wakes more
   * threads than waited before it, unless its process is locked.
   */
  lemma WakeInWindow(b: Books, w: nat, n: nat)
    requires Core(b.sys) && b.sys.current.Some? && !b.sys.leaving && b.sys.current != Some(b.sys.reaper)
    requires REAPER_SEM in b.sys.waits && REAPER_SEM in b.rest.sems && REAPER_SEM in b.rest.calls
    requires w in b.sys.waits && w != REAPER_SEM && n <= |b.sys.waits[w]| + 1
    requires b.sys.current.value in b.sys.threads
    ensures var t := b.sys.current.value;
            var b' := WokenFirst(Entered(b, WaitQ(w), b.sys.threads[t].alarm), w, n);
            && b'.sys.current == Some(t) && b.sys.threads[t].priority < |b'.sys.ready|
            && (t in b'.sys.ready[b.sys.threads[t].priority] <==> n > |b.sys.waits[w]| && t !in b.sys.locked)
  {
    hide Core, TakenFrom;
    RunningFacts(b.sys);
    WaitersHeld(b.sys, w);
    var t := b.sys.current.value;
    var e := Entered(b, WaitQ(w), b.sys.threads[t].alarm);
    var l := |b.sys.waits[w]|;
    assert e.sys.waits[w] == b.sys.waits[w] + [t] && e.sys.waits[w][..l] == b.sys.waits[w];
    var k := if n <= l then n else l;
    assert t !in e.sys.waits[w][..k] by {
      assert e.sys.waits[w][..k] == b.sys.waits[w][..k];
    }
    WokenUntouched(e, w, k, t);
    if n > l {
      var b1 := WokenFirst(e, w, l);
      assert b1.sys.waits[w] == [t];
      TakenItself(b1, WaitQ(w), t);
    }
  }

  lemma WaitersHeld(s: Sys, w: nat)
    requires Core(s) && w in s.waits
    ensures forall u :: u in s.waits[w] ==> u in s.held
  {
    hide Core;
    QueuePlaces(s, WaitQ(w));
    PlacedKeys(s);
    forall u | u in s.waits[w]
      ensures u in s.held
    {
      Facts(s, u);
    }
  }
}
