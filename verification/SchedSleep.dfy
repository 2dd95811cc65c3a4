/** Going to sleep over whole runs. sched_sleep marks the process before it disables interrupts and queues it
    afterwards; a switch in between loses the process for ever. */
module SchedSleep {
  import opened Sched

  // ---- lost processes ----

  ghost predicate IsParked(s: Sys, i: int) { 0 <= i < |s.info| && s.info[i].state == Parked }

  /** A process that is marked but not queued, and no longer current. */
  ghost predicate Lost(s: Sys, i: int) { IsParked(s, i) && i != s.current }

  ghost predicate NoneLost(s: Sys) { forall i :: IsParked(s, i) ==> i == s.current }

  /** Every SLEEPING process is in the sleep queue. */
  ghost predicate AllQueued(s: Sys) { forall i :: 0 <= i < |s.info| ==> s.info[i].state != Parked }

  lemma {:induction false} WakeOther(s: Sys, n: nat, i: int)
    requires Inv(s) && n <= |s.sleep| && 0 <= i < SLOTS && i !in s.sleep
    ensures |WakeFrom(s, n).info| == SLOTS && WakeFrom(s, n).info[i] == s.info[i] && i !in WakeFrom(s, n).sleep
    decreases |s.sleep| - n
  {
    if n < |s.sleep| {
      if s.info[s.sleep[n]].sleepUntil <= s.now {
        WakeOneKeeps(s, n);
        assert s.sleep[n] in s.sleep;
        WithoutHas(s.sleep, n, i);
        WakeOther(WakeOne(s, n), n, i);
      } else {
        WakeOther(s, n + 1, i);
      }
    }
  }

  /** Waking makes nobody parked. */
  lemma {:induction false} WakeParks(s: Sys, n: nat, i: int)
    requires Inv(s) && n <= |s.sleep| && IsParked(WakeFrom(s, n), i)
    ensures IsParked(s, i)
    decreases |s.sleep| - n
  {
    if n < |s.sleep| {
      if s.info[s.sleep[n]].sleepUntil <= s.now {
        WakeOneKeeps(s, n);
        WakeParks(WakeOne(s, n), n, i);
      } else {
        WakeParks(s, n + 1, i);
      }
    }
  }

  /** A switch does not touch a parked process and runs another one. */
  lemma SwitchLeaves(s: Sys, i: int)
    requires Inv(s) && IsParked(s, i)
    ensures Lost(Switched(s), i)
  {
    assert i != 0 && OneRole(s, i);
    WakeKeeps(s, 0);
    WakeOther(s, 0, i);
    var t := WakeFrom(s, 0);
    RequeueKeeps(t);
    var u := Requeue(t);
    assert u.info[i] == s.info[i];
    assert OneRole(u, i);
    if u.ready != [] { assert u.ready[0] in u.ready; }
  }

  lemma SwitchParks(s: Sys, i: int)
    requires Inv(s) && IsParked(Switched(s), i)
    ensures IsParked(s, i)
  {
    WakeKeeps(s, 0);
    var t := WakeFrom(s, 0);
    RequeueKeeps(t);
    assert IsParked(t, i);
    WakeParks(s, 0, i);
  }

  lemma {:induction false} WokenParks(s: Sys, channel: nat, k: nat, i: int)
    requires |s.info| == SLOTS && k <= SLOTS
    ensures |WokenFrom(s, channel, k).info| == SLOTS && WokenFrom(s, channel, k).current == s.current
    ensures IsParked(WokenFrom(s, channel, k), i) <==> IsParked(s, i)
    decreases SLOTS - k
  {
    if k < SLOTS { WokenParks(if Waits(s.info[k], channel) then Unblocked(s, k) else s, channel, k + 1, i); }
  }

  /** Who is parked after a step: only a mark parks, only the queue step of the process itself ends it. */
  lemma StepParks(s: Sys, e: Event, i: int)
    requires Enabled(s, e)
    ensures IsParked(Step(s, e), i) <==>
      (IsParked(s, i) && !(e == Queue && i == s.current)) || (e.Mark? && i == s.current)
    ensures e != Switch ==> Step(s, e).current == s.current
    ensures e == Switch && IsParked(s, i) ==> i != Step(s, e).current
  {
    match e {
      case Switch =>
        if IsParked(s, i) { SwitchLeaves(s, i); }
        if IsParked(Switched(s), i) { SwitchParks(s, i); }
      case Wakeup(channel) => WokenParks(s, channel, 0, i);
      case _ =>
    }
  }

  /** A lost process stays lost: no later run dispatches it. */
  lemma {:induction false} LostForever(s: Sys, es: seq<Event>, i: int)
    requires Inv(s) && Lost(s, i) && Runs(s, es)
    ensures Lost(Final(s, es), i)
    decreases |es|
  {
    if es != [] {
      StepParks(s, es[0], i);
      StepKeeps(s, es[0]);
      LostForever(Step(s, es[0]), es[1..], i);
    }
  }

  /** No switch falls between a mark and the next queue step; `open` says that one is under way. */
  ghost predicate Orderly(es: seq<Event>, open: bool)
    decreases |es|
  {
    es == [] ||
    match es[0]
    case Mark(_) => Orderly(es[1..], true)
    case Queue => Orderly(es[1..], false)
    case Switch => !open && Orderly(es[1..], false)
    case _ => Orderly(es[1..], open)
  }

  /** Whole runs: nobody is lost exactly when no switch fell between the two halves of a sleep. */
  lemma {:induction false} NoneLostIff(s: Sys, es: seq<Event>)
    requires Inv(s) && NoneLost(s) && Runs(s, es)
    ensures NoneLost(Final(s, es)) <==> Orderly(es, IsParked(s, s.current))
    decreases |es|
  {
    if es != [] {
      var e, t := es[0], Step(s, es[0]);
      var c := s.current;
      StepKeeps(s, e);
      forall i
        ensures IsParked(t, i) <==> (IsParked(s, i) && !(e == Queue && i == c)) || (e.Mark? && i == c)
      {
        StepParks(s, e, i);
      }
      StepParks(s, e, c);
      if e == Switch && IsParked(s, c) {
        LostForever(t, es[1..], c);
      } else {
        assert NoneLost(t);
        NoneLostIff(t, es[1..]);
        assert e == Switch ==> !IsParked(t, t.current);
        CurrentParks(s, e);
      }
    }
  }

  lemma CurrentParks(s: Sys, e: Event)
    requires Enabled(s, e) && NoneLost(s) && !(e == Switch && IsParked(s, s.current))
    ensures IsParked(Step(s, e), Step(s, e).current) <==>
      match e case Mark(_) => true case Queue => false case Switch => false case _ => IsParked(s, s.current)
  {
    StepParks(s, e, Step(s, e).current);
  }

  /** After such a run, outside a sleep that is under way, the partition is complete: every SLEEPING process is
      once in the sleep queue. */
  lemma FullPartition(s: Sys, es: seq<Event>, i: int)
    requires Inv(s) && AllQueued(s) && Runs(s, es) && Orderly(es, false) && 0 < i < SLOTS
    ensures var t := Final(s, es);
      && Inv(t)
      && (IsParked(t, i) ==> Parking(t) && i == t.current)
      && (!Parking(t) ==> AllQueued(t))
      && (t.info[i].state == Sleeping ==> Count(t.sleep, i) == 1 && Count(t.ready, i) == 0)
  {
    RunKeeps(s, es);
    NoneLostIff(s, es);
    var t := Final(s, es);
    Partition(t, i);
    if !Parking(t) {
      forall j | 0 <= j < |t.info| ensures t.info[j].state != Parked { assert IsParked(t, j) ==> j == t.current; }
    }
  }

  /** Between the two halves of one sleep: the process can still be queued, and then nothing is amiss, exactly
      when no switch happened. Otherwise no run ever makes it good again. */
  lemma RestoredIff(s: Sys, ms: nat, mid: seq<Event>)
    requires UserRuns(s) && AllQueued(s) && Runs(Marked(s, ms), mid) && Queue !in mid
    ensures var t := Final(Marked(s, ms), mid);
      && (Switch !in mid ==> Parking(t) && t.current == s.current && AllQueued(Queued(t)))
      && (Switch in mid ==> Lost(t, s.current) && forall es :: Runs(t, es) ==> Lost(Final(t, es), s.current))
      && (Switch !in mid <==> exists es :: Runs(t, es) && AllQueued(Final(t, es)))
  {
    hide Inv, Marked, Queued;
    var t := Final(Marked(s, ms), mid);
    if Switch !in mid {
      Restores(s, ms, mid);
      assert [Queue][1..] == [];
      assert Runs(t, [Queue]) && Final(t, [Queue]) == Queued(t);
    } else {
      Loses(s, ms, mid);
      forall es | Runs(t, es) ensures !AllQueued(Final(t, es)) { assert Lost(Final(t, es), s.current); }
    }
  }

  lemma Restores(s: Sys, ms: nat, mid: seq<Event>)
    requires UserRuns(s) && AllQueued(s) && Runs(Marked(s, ms), mid) && Queue !in mid && Switch !in mid
    ensures var t := Final(Marked(s, ms), mid);
      Parking(t) && t.current == s.current && AllQueued(Queued(t))
  {
    var m := Marked(s, ms);
    var t := Final(m, mid);
    MarkedKeeps(s, ms);
    ParkedThrough(m, mid, s.current);
    WithoutSwitch(m, mid);
    NoneLostIff(m, mid);
    forall i | 0 <= i < |Queued(t).info| ensures Queued(t).info[i].state != Parked {
      assert IsParked(t, i) ==> i == t.current;
    }
  }

  lemma Loses(s: Sys, ms: nat, mid: seq<Event>)
    requires UserRuns(s) && Runs(Marked(s, ms), mid) && Queue !in mid && Switch in mid
    ensures var t := Final(Marked(s, ms), mid);
      Lost(t, s.current) && forall es :: Runs(t, es) ==> Lost(Final(t, es), s.current)
  {
    var m := Marked(s, ms);
    MarkedKeeps(s, ms);
    RunKeeps(m, mid);
    WithSwitch(m, mid);
    var t := Final(m, mid);
    forall es | Runs(t, es) ensures Lost(Final(t, es), s.current) { LostForever(t, es, s.current); }
  }

  lemma {:induction false} ParkedThrough(s: Sys, mid: seq<Event>, i: int)
    requires Inv(s) && Runs(s, mid) && IsParked(s, i) && Queue !in mid
    ensures IsParked(Final(s, mid), i)
    decreases |mid|
  {
    if mid != [] {
      StepParks(s, mid[0], i);
      StepKeeps(s, mid[0]);
      ParkedThrough(Step(s, mid[0]), mid[1..], i);
    }
  }

  lemma {:induction false} WithoutSwitch(s: Sys, mid: seq<Event>)
    requires Inv(s) && Runs(s, mid) && Switch !in mid
    ensures Final(s, mid).current == s.current && Orderly(mid, IsParked(s, s.current)) && Inv(Final(s, mid))
    decreases |mid|
  {
    if mid != [] {
      StepParks(s, mid[0], s.current);
      StepKeeps(s, mid[0]);
      WithoutSwitch(Step(s, mid[0]), mid[1..]);
      OrderlyNoSwitch(mid, IsParked(s, s.current));
    }
  }

  lemma {:induction false} OrderlyNoSwitch(es: seq<Event>, open: bool)
    requires Switch !in es
    ensures Orderly(es, open)
    decreases |es|
  {
    if es != [] {
      OrderlyNoSwitch(es[1..], true);
      OrderlyNoSwitch(es[1..], false);
    }
  }

  lemma {:induction false} WithSwitch(s: Sys, mid: seq<Event>)
    requires Parking(s) && Runs(s, mid) && Switch in mid && Queue !in mid
    ensures Lost(Final(s, mid), s.current)
    decreases |mid|
  {
    var t := Step(s, mid[0]);
    StepKeeps(s, mid[0]);
    StepParks(s, mid[0], s.current);
    if mid[0] == Switch { LostForever(t, mid[1..], s.current); } else { WithSwitch(t, mid[1..]); }
  }

  /** A caller that enters with interrupts disabled cannot be lost: the two halves follow each other. */
  lemma SleepWithInterruptsOff(s: Sys, ms: nat)
    requires UserRuns(s) && AllQueued(s)
    ensures Runs(s, [Mark(ms), Queue]) && AllQueued(Final(s, [Mark(ms), Queue]))
    ensures s.current in Final(s, [Mark(ms), Queue]).sleep
  {
    RestoredIff(s, ms, []);
    MarkedKeeps(s, ms);
    var es := [Mark(ms), Queue];
    assert es[1..] == [Queue] && [Queue][1..] == [];
    var m := Marked(s, ms);
    WithHas(m.sleep, SleepPos(m.info, m.sleep, m.info[m.current].sleepUntil, 0), m.current, m.current);
  }

  // ---- a run that loses a process ----

  function Thread(pid: nat, state: State, until: nat): Proc { Proc(pid, 0, state, SLICE, until, 0, 0, NONE) }

  /** Two threads besides idle. */
  ghost function Two(a: Proc, b: Proc, ready: seq<int>, sleep: seq<int>, current: int, now: nat): Sys {
    Sys(BootTable()[1 := a][2 := b], ready, sleep, current, now, 3)
  }

  lemma FirstUnusedIs(info: seq<Proc>, i: nat, k: nat)
    requires |info| == SLOTS && i <= k < SLOTS && info[k].state == Unused
    requires forall j :: i <= j < k ==> info[j].state != Unused
    ensures FirstUnused(info, i) == k
  {
  }

  /** The run `es` leads from `s` to `t`. */
  ghost predicate Reaches(s: Sys, es: seq<Event>, t: Sys) { Inv(s) && Runs(s, es) && Final(s, es) == t && Inv(t) }

  lemma {:induction false} ReachesNext(s: Sys, es: seq<Event>, t: Sys, e: Event, u: Sys)
    requires Reaches(s, es, t) && Enabled(t, e) && Step(t, e) == u
    ensures Reaches(s, es + [e], u)
    decreases |es|
  {
    StepKeeps(t, e);
    if es == [] {
      assert ([] + [e])[1..] == [];
    } else {
      StepKeeps(s, es[0]);
      ReachesNext(Step(s, es[0]), es[1..], t, e, u);
      assert (es + [e])[1..] == es[1..] + [e];
    }
  }

  ghost function S2(): Sys { Two(Thread(1, Ready, 0), Thread(2, Ready, 0), [0, 1, 2], [], 0, 0) }
  ghost function S3(): Sys { Two(Thread(1, Ready, 0), Thread(2, Ready, 0), [1, 2], [], 0, 0) }
  ghost function S4(): Sys { Two(Thread(1, Running, 0), Thread(2, Ready, 0), [2], [], 1, 0) }
  ghost function S6(): Sys { Two(Thread(1, Sleeping, 1), Thread(2, Ready, 0), [2], [1], 1, 0) }
  ghost function S7(): Sys { Two(Thread(1, Sleeping, 1), Thread(2, Running, 0), [], [1], 2, 0) }
  ghost function S9(): Sys { Two(Thread(1, Sleeping, 1), Thread(2, Parked, 5).(ticksLeft := SLICE - 1), [], [1], 2, 1) }

  lemma FirstCreate()
    ensures Inv(Boot()) && Step(Boot(), Create(true)).info == BootTable()[1 := Thread(1, Ready, 0)]
    ensures var t := Step(Boot(), Create(true)); t == Sys(t.info, [0, 1], [], 0, 0, 2)
  {
    hide BootTable;
    BootInv();
    FirstUnusedIs(Boot().info, 0, 1);
  }

  lemma SecondCreate(s: Sys)
    requires Inv(s) && s.info == BootTable()[1 := Thread(1, Ready, 0)] && s == Sys(s.info, [0, 1], [], 0, 0, 2)
    ensures Step(s, Create(true)) == S2()
  {
    hide BootTable;
    FirstUnusedIs(s.info, 0, 2);
  }

  lemma FirstSwitch()
    requires Inv(S2())
    ensures Step(S2(), Switch) == S3()
  {
    hide BootTable;
    var s := S2();
    assert s.info[0 := s.info[0]] == s.info;
  }

  lemma SecondSwitch()
    requires Inv(S3())
    ensures Step(S3(), Switch) == S4()
  {
    hide BootTable;
    assert Step(S3(), Switch).info == S4().info;
  }

  lemma FirstSleeps()
    requires Inv(S4())
    ensures UserRuns(S4()) && Parking(Marked(S4(), 1)) && Queued(Marked(S4(), 1)) == S6()
  {
    hide BootTable;
    MarkedKeeps(S4(), 1);
    var m := Marked(S4(), 1);
    assert m.info[1].sleepUntil == 1;
    assert Queued(m).sleep == [1] && Queued(m).info == S6().info;
  }

  lemma ThirdSwitch()
    requires Inv(S6())
    ensures Step(S6(), Switch) == S7()
  {
    hide BootTable;
    assert WakeFrom(S6(), 1) == S6() && WakeFrom(S6(), 0) == S6();
    assert Step(S6(), Switch).info == S7().info;
  }

  lemma SecondMarks()
    requires Inv(S7())
    ensures UserRuns(S7()) && Parking(Marked(S7(), 5)) && Ticked(Marked(S7(), 5)) == S9()
  {
    hide BootTable;
    MarkedKeeps(S7(), 5);
    assert Ticked(Marked(S7(), 5)).info == S9().info;
  }

  const WINDOW := [Create(true), Create(true), Switch, Switch, Mark(1), Queue, Switch, Mark(5), Tick]

  lemma Next(k: nat, t: Sys, u: Sys)
    requires k < |WINDOW| && Reaches(Boot(), WINDOW[..k], t) && Enabled(t, WINDOW[k]) && Step(t, WINDOW[k]) == u
    ensures Reaches(Boot(), WINDOW[..k + 1], u)
  {
    ReachesNext(Boot(), WINDOW[..k], t, WINDOW[k], u);
    assert WINDOW[..k] + [WINDOW[k]] == WINDOW[..k + 1];
  }

  lemma WindowReached()
    ensures Reaches(Boot(), WINDOW, S9())
  {
    hide BootTable, Inv, Two, Marked, Queued, Ticked, Switched, Created;
    FirstCreate();
    assert WINDOW[..0] == [];
    Next(0, Boot(), Step(Boot(), Create(true)));
    SecondCreate(Step(Boot(), Create(true)));
    Next(1, Step(Boot(), Create(true)), S2());
    FirstSwitch();
    Next(2, S2(), S3());
    SecondSwitch();
    Next(3, S3(), S4());
    FirstSleeps();
    Next(4, S4(), Marked(S4(), 1));
    Next(5, Marked(S4(), 1), S6());
    ThirdSwitch();
    Next(6, S6(), S7());
    SecondMarks();
    Next(7, S7(), Marked(S7(), 5));
    Next(8, Marked(S7(), 5), S9());
    assert WINDOW[..9] == WINDOW;
  }

  lemma S9Facts()
    ensures IsParked(S9(), 2) && S9().current == 2 && |S9().info| == SLOTS && S9().info[2].state == Parked
    ensures S9().sleep == [1] && S9().info[1].sleepUntil <= S9().now
  {
    hide BootTable;
  }

  /** From boot: two threads; the first sleeps for a tick; the second marks itself, and the tick finds the first
      one due, so the timer asks for a switch (Scheduler.TimerTick). That switch falls before the second thread
      is queued, and no run after it ever dispatches the thread. */
  lemma LosingRun(es: seq<Event>)
    ensures Reaches(Boot(), WINDOW, S9()) && Parking(S9()) && S9().current == 2
    ensures S9().sleep == [1] && S9().info[1].sleepUntil <= S9().now
    ensures Runs(Switched(S9()), es) ==>
      Final(Switched(S9()), es).current != 2 && IsParked(Final(Switched(S9()), es), 2)
  {
    hide BootTable, Two, Thread, Inv, Switched, Final, Runs;
    WindowReached();
    S9Facts();
    SwitchLeaves(S9(), 2);
    StepKeeps(S9(), Switch);
    if Runs(Switched(S9()), es) { LostForever(Switched(S9()), es, 2); }
  }

  // ---- how long a sleep lasts ----

  ghost function Ticks(es: seq<Event>): nat {
    if es == [] then 0 else (if es[0] == Tick then 1 else 0) + Ticks(es[1..])
  }

  lemma StepClock(s: Sys, e: Event)
    requires Enabled(s, e)
    ensures Step(s, e).now == if e == Tick then (s.now + 1) % TWO_32 else s.now
  {
    match e {
      case Switch => WakeKeeps(s, 0);
      case Wakeup(channel) => WokenClock(s, channel, 0);
      case _ =>
    }
  }

  lemma {:induction false} WokenClock(s: Sys, channel: nat, k: nat)
    requires |s.info| == SLOTS && k <= SLOTS
    ensures WokenFrom(s, channel, k).now == s.now
    decreases SLOTS - k
  {
    if k < SLOTS { WokenClock(if Waits(s.info[k], channel) then Unblocked(s, k) else s, channel, k + 1); }
  }

  /** The process is asleep at every point of the run. */
  ghost predicate Asleep(s: Sys, es: seq<Event>, i: int)
    requires Runs(s, es)
    decreases |es|
  {
    i in s.sleep && (es == [] || Asleep(Step(s, es[0]), es[1..], i))
  }

  /** No switch of the run comes at or after the deadline. */
  ghost predicate NoneDue(s: Sys, es: seq<Event>, until: nat)
    requires Runs(s, es)
    decreases |es|
  {
    es == [] || ((es[0] == Switch ==> s.now < until) && NoneDue(Step(s, es[0]), es[1..], until))
  }

  /** Over whole runs a process sleeps exactly as long as no switch comes at or after its deadline. */
  lemma {:induction false} AsleepIff(s: Sys, es: seq<Event>, i: int)
    requires Inv(s) && Runs(s, es) && i in s.sleep
    ensures 0 <= i < SLOTS && (Asleep(s, es, i) <==> NoneDue(s, es, s.info[i].sleepUntil))
    decreases |es|
  {
    if es != [] {
      var e, t := es[0], Step(s, es[0]);
      StepKeeps(s, e);
      NoEarlyWake(s, e, i);
      if i in t.sleep {
        DeadlineKept(s, e, i);
        AsleepIff(t, es[1..], i);
      }
    }
  }

  /** While the clock stays below the deadline no switch is due. */
  lemma {:induction false} EarlyRun(s: Sys, es: seq<Event>, until: nat)
    requires Inv(s) && Runs(s, es) && s.now + Ticks(es) < until <= TWO_32
    ensures NoneDue(s, es, until)
    decreases |es|
  {
    if es != [] {
      StepKeeps(s, es[0]);
      StepClock(s, es[0]);
      EarlyRun(Step(s, es[0]), es[1..], until);
    }
  }

  /** The state right after a sleep of `ms` milliseconds has begun. */
  ghost function Asked(s: Sys, ms: nat): Sys
    requires UserRuns(s)
  {
    MarkedKeeps(s, ms);
    Queued(Marked(s, ms))
  }

  lemma AskedIs(s: Sys, ms: nat)
    requires UserRuns(s)
    ensures var t := Asked(s, ms);
      && Inv(t) && t.now == s.now && s.current in t.sleep && |t.info| == SLOTS
      && 0 <= s.current < SLOTS && t.info[s.current].sleepUntil == (s.now + SleepTicks(ms)) % TWO_32
  {
    MarkedKeeps(s, ms);
    var m := Marked(s, ms);
    QueuedKeeps(m);
    WithHas(m.sleep, SleepPos(m.info, m.sleep, m.info[m.current].sleepUntil, 0), m.current, m.current);
  }

  /** A process that asks for `ms` milliseconds sleeps through every run of fewer ticks. */
  lemma NotBefore(s: Sys, ms: nat, es: seq<Event>)
    requires UserRuns(s) && s.now + SleepTicks(ms) < TWO_32 && Runs(Asked(s, ms), es) && Ticks(es) < SleepTicks(ms)
    ensures Asleep(Asked(s, ms), es, s.current)
  {
    AskedIs(s, ms);
    EarlyRun(Asked(s, ms), es, s.now + SleepTicks(ms));
    AsleepIff(Asked(s, ms), es, s.current);
  }

  /** The first switch at or after the deadline readies it, or even runs it. */
  lemma FirstDueSwitch(s: Sys, i: int)
    requires Inv(s) && i in s.sleep && 0 <= i < SLOTS && s.info[i].sleepUntil <= s.now
    ensures var t := Switched(s);
      i !in t.sleep && (i in t.ready || i == t.current) && |t.info| == SLOTS
      && (t.info[i].state == Ready || t.info[i].state == Running)
  {
    NoEarlyWake(s, Switch, i);
    StepKeeps(s, Switch);
    assert s.sleep[..0] == [];
    WakeExact(s, 0, i);
    WakeKeeps(s, 0);
    var u := Requeue(WakeFrom(s, 0));
    RequeueKeeps(WakeFrom(s, 0));
    assert i in u.ready;
    if i != u.ready[0] { WithoutHas(u.ready, 0, i); }
    assert i != 0;
    assert OneRole(Switched(s), i);
  }

  /** The deadline is ahead, so that a switch at once leaves the process asleep, exactly when the clock does not
      wrap before it. */
  lemma SleepHoldsIff(s: Sys, ms: nat)
    requires UserRuns(s) && s.now < TWO_32
    ensures var t := Asked(s, ms);
      Inv(t) && (s.current in Switched(t).sleep <==> s.now + SleepTicks(ms) < TWO_32)
  {
    AskedIs(s, ms);
    var t := Asked(s, ms);
    NoEarlyWake(t, Switch, s.current);
    TicksSmall(ms);
    hide SleepTicks;
  }

  lemma TicksSmall(ms: nat)
    ensures 1 <= SleepTicks(ms) < TWO_32
  {
  }
}
