/** What each step of the scheduler does to each slot and to the two queues, told without the steps' own code. */
module SchedSpec {
  import opened Sched

  // ---- a switch ----

  predicate IsDue(info: seq<Proc>, now: nat, i: int)
  {
    0 <= i < |info| && info[i].sleepUntil <= now
  }

  /** The slots of a queue whose deadline has passed, in order. */
  ghost function DueOf(info: seq<Proc>, now: nat, q: seq<int>): seq<int> {
    if q == [] then [] else (if IsDue(info, now, q[0]) then [q[0]] else []) + DueOf(info, now, q[1..])
  }

  /** The others. */
  ghost function RestOf(info: seq<Proc>, now: nat, q: seq<int>): seq<int> {
    if q == [] then [] else (if IsDue(info, now, q[0]) then [] else [q[0]]) + RestOf(info, now, q[1..])
  }

  /** Only the deadlines of the queue's own slots matter. */
  lemma {:induction false} DueSame(info: seq<Proc>, info': seq<Proc>, now: nat, q: seq<int>)
    requires |info| == |info'| && forall i :: i in q && 0 <= i < |info| ==> info'[i].sleepUntil == info[i].sleepUntil
    ensures DueOf(info', now, q) == DueOf(info, now, q) && RestOf(info', now, q) == RestOf(info, now, q)
  {
    if q != [] {
      assert q[0] in q && forall i :: i in q[1..] ==> i in q;
      DueSame(info, info', now, q[1..]);
    }
  }

  lemma DueNext(info: seq<Proc>, now: nat, q: seq<int>)
    requires q != []
    ensures var due := IsDue(info, now, q[0]);
      && DueOf(info, now, q) == (if due then [q[0]] else []) + DueOf(info, now, q[1..])
      && RestOf(info, now, q) == (if due then [] else [q[0]]) + RestOf(info, now, q[1..])
  {
  }

  lemma NoneDue(info: seq<Proc>, now: nat)
    ensures DueOf(info, now, []) == [] && RestOf(info, now, []) == []
  {
  }

  ghost predicate Wakes(s: Sys, i: int) { i in s.sleep && IsDue(s.info, s.now, i) }

  /** The due slots of a queue have become READY, and no other slot has changed. */
  ghost predicate Awake(info: seq<Proc>, info': seq<Proc>, now: nat, q: seq<int>) {
    && |info'| == |info| == SLOTS
    && forall i :: 0 <= i < SLOTS ==> info'[i] == AwakeIn(info, now, q, i)
  }

  ghost function AwakeIn(info: seq<Proc>, now: nat, q: seq<int>, i: int): Proc
    requires 0 <= i < |info|
  {
    if i in q && IsDue(info, now, i) then info[i].(state := Ready, sleepUntil := 0) else info[i]
  }

  lemma AwakeNext(info: seq<Proc>, info': seq<Proc>, now: nat, q: seq<int>)
    requires |info| == SLOTS && q != [] && 0 <= q[0] < SLOTS && q[0] !in q[1..]
    requires var x := q[0];
      Awake(if IsDue(info, now, x) then info[x := info[x].(state := Ready, sleepUntil := 0)] else info, info', now, q[1..])
    ensures Awake(info, info', now, q)
  {
    assert q == [q[0]] + q[1..];
  }

  /** The loop over the sleep queue, from position `n` on. */
  lemma {:induction false} WakeIs(s: Sys, n: nat)
    requires Inv(s) && n <= |s.sleep|
    ensures var t, q := WakeFrom(s, n), s.sleep[n..];
      && t == s.(info := t.info, ready := s.ready + DueOf(s.info, s.now, q),
                 sleep := s.sleep[..n] + RestOf(s.info, s.now, q))
      && Awake(s.info, t.info, s.now, q)
    decreases |s.sleep| - n
  {
    hide Inv, WakeOne, Awake, DueOf, RestOf;
    if n < |s.sleep| {
      WakeStep(s, n);
      var x, q := s.sleep[n], s.sleep[n..];
      assert q[1..] == s.sleep[n + 1..] && q[0] == x;
      DueNext(s.info, s.now, q);
      if s.info[x].sleepUntil <= s.now {
        WakeOneKeeps(s, n);
        var u := WakeOne(s, n);
        WakeIs(u, n);
        DueSame(s.info, u.info, s.now, q[1..]);
      } else {
        assert s.sleep[..n + 1] == s.sleep[..n] + [x];
        WakeIs(s, n + 1);
      }
      AwakeNext(s.info, WakeFrom(s, n).info, s.now, q);
    } else {
      assert s.sleep[n..] == [] && s.sleep[..n] == s.sleep;
      TableSize(s);
      NoneAwake(s.info, s.now);
      NoneDue(s.info, s.now);
    }
  }

  lemma NoneAwake(info: seq<Proc>, now: nat)
    requires |info| == SLOTS
    ensures Awake(info, info, now, [])
  {
  }

  lemma WakeStep(s: Sys, n: nat)
    requires Inv(s) && n < |s.sleep|
    ensures |s.info| == SLOTS && Slots(s.sleep) && n <= |WakeOne(s, n).sleep|
    ensures var u, x := WakeOne(s, n), s.sleep[n];
      && u.sleep[n..] == s.sleep[n + 1..] && u.sleep[..n] == s.sleep[..n] && u.ready == s.ready + [x]
      && x !in s.sleep[n + 1..] && 0 <= x < SLOTS == |s.info|
      && u.info == s.info[x := s.info[x].(state := Ready, sleepUntil := 0)]
      && u == s.(info := u.info, ready := u.ready, sleep := u.sleep)
  {
  }

  /** The queue that a switch picks from: those that were ready, then those whose deadline has passed, then the
      process that is taken off the CPU. */
  ghost function Line(s: Sys): seq<int>
    requires Inv(s)
  {
    s.ready + DueOf(s.info, s.now, s.sleep) + (if UserRuns(s) then [s.current] else [])
  }

  /** The slot of a process after a switch to `next`. */
  ghost function SlotAfter(s: Sys, next: int, i: int): Proc
    requires Inv(s) && 0 <= i < SLOTS
  {
    var p := if Wakes(s, i) then s.info[i].(sleepUntil := 0) else s.info[i];
    if i == next then p.(state := Running, ticksLeft := if i == s.current then p.ticksLeft else 10)
    else if Wakes(s, i) || (i == s.current && UserRuns(s)) then p.(state := Ready)
    else p
  }

  /** A switch runs the first in line, or idle; nobody else's slot changes except for those who joined the line. */
  lemma SwitchExact(s: Sys)
    requires Inv(s)
    ensures var t, line := Switched(s), Line(s);
      && t == s.(info := t.info, current := if line == [] then 0 else line[0],
                 ready := if line == [] then [] else line[1..], sleep := RestOf(s.info, s.now, s.sleep))
      && |t.info| == SLOTS && forall i :: 0 <= i < SLOTS ==> t.info[i] == SlotAfter(s, t.current, i)
  {
    hide WakeFrom, Requeue, Dispatch, Awake, DueOf, RestOf, SlotAfter;
    WakeIs(s, 0);
    WakeKeeps(s, 0);
    assert s.sleep[0..] == s.sleep && s.sleep[..0] == [];
    var w := WakeFrom(s, 0);
    CurrentAwake(s);
    RequeueKeeps(w);
    RequeueIs(w);
    DispatchIs(Requeue(w));
    CurrentIn(s, w);
    hide Inv;
    var t := Switched(s);
    forall i | 0 <= i < SLOTS ensures t.info[i] == SlotAfter(s, t.current, i) { SlotIs(s, w.info, t, i); }
  }

  lemma RequeueIs(s: Sys)
    requires Inv(s)
    ensures Requeue(s) ==
      if UserRuns(s) then s.(info := s.info[s.current := s.info[s.current].(state := Ready)], ready := s.ready + [s.current])
      else s
  {
    CurrentAwake(s);
  }

  /** Waking others does not change who is taken off the CPU. */
  lemma CurrentIn(s: Sys, w: Sys)
    requires Inv(s) && Inv(w) && w.current == s.current && Awake(s.info, w.info, s.now, s.sleep)
    ensures UserRuns(w) <==> UserRuns(s)
    ensures |s.info| == SLOTS && 0 <= s.current < SLOTS
  {
    CurrentAwake(s);
    CurrentAwake(w);
    assert w.info[s.current] == AwakeIn(s.info, s.now, s.sleep, s.current);
    if s.current != 0 { assert OneRole(s, s.current) && OneRole(w, s.current); }
  }

  lemma SlotIs(s: Sys, info: seq<Proc>, t: Sys, i: int)
    requires Inv(s) && Awake(s.info, info, s.now, s.sleep) && 0 <= i < SLOTS && 0 <= t.current < SLOTS
    requires var r := if UserRuns(s) then info[s.current := info[s.current].(state := Ready)] else info;
      t.info == r[t.current := Started(r[t.current], t.current == s.current)]
    ensures t.info[i] == SlotAfter(s, t.current, i)
  {
    assert info[i] == AwakeIn(s.info, s.now, s.sleep, i);
    assert info[t.current] == AwakeIn(s.info, s.now, s.sleep, t.current);
  }

  /** Whoever runs is not asleep. */
  lemma CurrentAwake(s: Sys)
    requires Inv(s)
    ensures s.info[s.current].state == Running ==> s.current !in s.sleep
    ensures s.info[s.current].state == Running && s.info[s.current].pid != 0 <==> UserRuns(s)
  {
    if s.current != 0 { assert OneRole(s, s.current); }
  }

  /** The process that is taken off the CPU keeps it exactly if nobody else is in line; otherwise it is READY and the
      last in the ready queue. */
  lemma Preempted(s: Sys)
    requires UserRuns(s)
    ensures var t, c := Switched(s), s.current;
      && |t.info| == SLOTS
      && (t.current == c <==> s.ready == [] && DueOf(s.info, s.now, s.sleep) == [])
      && (t.current == c ==> t.info[c] == s.info[c])
      && (t.current != c ==>
          t.info[c] == s.info[c].(state := Ready) && t.ready != [] && t.ready[|t.ready| - 1] == c)
  {
    SwitchExact(s);
    CurrentAwake(s);
    var others := s.ready + DueOf(s.info, s.now, s.sleep);
    assert Line(s) == others + [s.current];
    assert s.current !in others by {
      assert OneRole(s, s.current);
      DueIn(s.info, s.now, s.sleep);
    }
    if others != [] { assert Line(s)[0] == others[0] && others[0] in others; }
  }

  lemma {:induction false} DueIn(info: seq<Proc>, now: nat, q: seq<int>)
    ensures forall i :: i in DueOf(info, now, q) <==> i in q && IsDue(info, now, i)
    ensures forall i :: i in RestOf(info, now, q) <==> i in q && !IsDue(info, now, i)
  {
    if q != [] {
      DueIn(info, now, q[1..]);
      assert q == [q[0]] + q[1..];
    }
  }

  // ---- every step ----

  /** The slot that a new thread gets. */
  ghost predicate GetsSlot(s: Sys, e: Event, i: int)
    requires Inv(s) && 0 <= i < SLOTS
  {
    e.Create? && s.info[i].state == Unused && forall k :: 0 <= k < i ==> s.info[k].state != Unused
  }

  /** The slot that a wait releases. */
  ghost predicate IsReaped(s: Sys, e: Event, i: int)
    requires Inv(s) && 0 <= i < SLOTS
  {
    e.Reap? && Reapable(s.info[i], e.pid) && forall k :: 0 <= k < i ==> !Reapable(s.info[k], e.pid)
  }

  ghost predicate FirstInLine(s: Sys, i: int)
    requires Inv(s)
  {
    if Line(s) == [] then i == 0 else Line(s)[0] == i
  }

  /** What makes a slot enter a state. */
  ghost predicate Cause(s: Sys, e: Event, i: int, b: State)
    requires Inv(s) && 0 <= i < SLOTS
  {
    match b
    case Running => e == Switch && FirstInLine(s, i)
    case Ready =>
      || (GetsSlot(s, e, i) && e.stack)
      || (e.Wakeup? && Waits(s.info[i], e.channel))
      || (e == Switch && !FirstInLine(s, i) && (Wakes(s, i) || (i == s.current && UserRuns(s))))
    case Parked => e.Mark? && i == s.current
    case Sleeping => e == Queue && i == s.current
    case Blocked => e.BlockOn? && i == s.current
    case Zombie => e.Exit? && i == s.current
    case Unused => IsReaped(s, e, i)
  }

  /** In every step, a slot enters a state for that cause and for no other. */
  lemma Transitions(s: Sys, e: Event, i: int, b: State)
    requires Enabled(s, e) && 0 <= i < SLOTS && s.info[i].state != b
    ensures |Step(s, e).info| == SLOTS
    ensures Step(s, e).info[i].state == b <==> Cause(s, e, i, b)
  {
    match e {
      case Switch => SwitchExact(s); SwitchCause(s, i, b);
      case Wakeup(channel) => WakeupExact(s, channel, 0, i);
      case _ =>
    }
  }

  lemma SwitchCause(s: Sys, i: int, b: State)
    requires Inv(s) && 0 <= i < SLOTS && s.info[i].state != b
    requires |Switched(s).info| == SLOTS && FirstInLine(s, Switched(s).current)
    requires Switched(s).info[i] == SlotAfter(s, Switched(s).current, i)
    ensures Switched(s).info[i].state == b <==> Cause(s, Switch, i, b)
  {
  }

  /** Identity and exit status of a slot change only when it is given to a new thread or its process exits. */
  lemma Identity(s: Sys, e: Event, i: int)
    requires Enabled(s, e) && 0 <= i < SLOTS
    ensures |Step(s, e).info| == SLOTS
    ensures var p, q := s.info[i], Step(s, e).info[i];
      if GetsSlot(s, e, i) then q.pid == s.nextPid && q.ppid == s.info[s.current].pid && q.exitCode == 0
      else
        && q.pid == p.pid && q.ppid == p.ppid
        && q.exitCode == if e.Exit? && i == s.current then e.code else p.exitCode
  {
    match e {
      case Switch => SwitchExact(s);
      case Wakeup(channel) => WakeupExact(s, channel, 0, i);
      case _ =>
    }
  }

  /** Pids go round from 1 to 9999; each thread that finds a slot takes the next. */
  lemma PidsGoRound(s: Sys, e: Event)
    requires Enabled(s, e)
    ensures 1 <= s.nextPid <= 9999
    ensures Step(s, e).nextPid ==
      if e.Create? && (exists i :: 0 <= i < SLOTS && s.info[i].state == Unused) then s.nextPid % 9999 + 1 else s.nextPid
  {
    match e {
      case Switch => SwitchExact(s);
      case Wakeup(channel) => WokenPid(s, channel, 0);
      case _ =>
    }
  }

  lemma {:induction false} WokenPid(s: Sys, channel: nat, i: nat)
    requires |s.info| == SLOTS && i <= SLOTS
    ensures WokenFrom(s, channel, i).nextPid == s.nextPid
    decreases SLOTS - i
  {
    if i < SLOTS { WokenPid(if Waits(s.info[i], channel) then Unblocked(s, i) else s, channel, i + 1); }
  }

  ghost function Ticks(n: nat): seq<Event> { seq(n, _ => Tick) }

  /** A process that a switch has brought on the CPU has ten ticks: after nine it has one left, with which the timer
      asks for the next switch. */
  lemma {:induction false} Slice(s: Sys, n: nat)
    requires CurrentRuns(s) && n < s.info[s.current].ticksLeft
    ensures Runs(s, Ticks(n))
    ensures var t := Final(s, Ticks(n));
      && t == s.(info := t.info, now := if n == 0 then s.now else (s.now + n) % 0x1_0000_0000)
      && t.info == s.info[s.current := s.info[s.current].(ticksLeft := s.info[s.current].ticksLeft - n)]
    decreases n
  {
    hide Inv, Ticked;
    CurrentFree(s);
    if n > 0 {
      TickedIs(s);
      Slice(Ticked(s), n - 1);
      ClockAdds(s.now, n - 1);
      assert Ticks(n)[1..] == Ticks(n - 1);
    }
  }

  lemma TickedIs(s: Sys)
    requires CurrentRuns(s) && s.info[s.current].ticksLeft > 1
    ensures CurrentRuns(Ticked(s))
    ensures var p := s.info[s.current];
      Ticked(s) == s.(now := (s.now + 1) % TWO_32, info := s.info[s.current := p.(ticksLeft := p.ticksLeft - 1)])
  {
    StepKeeps(s, Tick);
  }

  lemma ClockAdds(now: nat, n: nat)
    ensures ((now + 1) % TWO_32 + n) % TWO_32 == (now + 1 + n) % TWO_32
  {
  }

  // ---- the queues ----

  /** The slots from `i` on that wait for the channel, in order. */
  ghost function WaitersFrom(info: seq<Proc>, channel: nat, i: nat): seq<int>
    requires |info| == SLOTS && i <= SLOTS
    decreases SLOTS - i
  {
    if i == SLOTS then [] else (if Waits(info[i], channel) then [i] else []) + WaitersFrom(info, channel, i + 1)
  }

  lemma {:induction false} WaitersSame(info: seq<Proc>, info': seq<Proc>, channel: nat, i: nat)
    requires |info| == |info'| == SLOTS && i <= SLOTS && forall k :: i <= k < SLOTS ==> info'[k] == info[k]
    ensures WaitersFrom(info', channel, i) == WaitersFrom(info, channel, i)
    decreases SLOTS - i
  {
    if i < SLOTS { WaitersSame(info, info', channel, i + 1); }
  }

  lemma {:induction false} WokenQueues(s: Sys, channel: nat, i: nat)
    requires |s.info| == SLOTS && i <= SLOTS
    ensures var t := WokenFrom(s, channel, i);
      t == s.(info := t.info, ready := s.ready + WaitersFrom(s.info, channel, i))
    decreases SLOTS - i
  {
    if i < SLOTS {
      var u := if Waits(s.info[i], channel) then Unblocked(s, i) else s;
      WokenQueues(u, channel, i + 1);
      WaitersSame(s.info, u.info, channel, i + 1);
    }
  }

  /** Who joins the ready queue at its end, and in which order, when there is no switch. */
  ghost function Joins(s: Sys, e: Event): seq<int>
    requires Inv(s)
  {
    if e.Wakeup? then WaitersFrom(s.info, e.channel, 0)
    else if e.Create? && e.stack && FirstUnused(s.info, 0) < SLOTS then [FirstUnused(s.info, 0)]
    else []
  }

  /** Without a switch nobody leaves a queue or the CPU. Only `Queue` adds a sleeper: behind all with an earlier or the
      same deadline, before all others. Only the timer moves the clock. */
  lemma QueuesExact(s: Sys, e: Event)
    requires Enabled(s, e) && e != Switch
    ensures var t := Step(s, e);
      && t.current == s.current && t.ready == s.ready + Joins(s, e)
      && t.now == (if e == Tick then (s.now + 1) % 0x1_0000_0000 else s.now)
      && (e != Queue ==> t.sleep == s.sleep)
    ensures e == Queue ==> exists n: nat :: n <= |s.sleep| && QueuedAt(s, Step(s, e), n)
  {
    match e {
      case Wakeup(channel) => WokenQueues(s, channel, 0);
      case Queue => QueuedThere(s);
      case _ =>
    }
  }

  ghost predicate QueuedAt(s: Sys, t: Sys, n: nat)
    requires Inv(s) && n <= |s.sleep|
  {
    var until := s.info[s.current].sleepUntil;
    && t.sleep == s.sleep[..n] + [s.current] + s.sleep[n..]
    && (forall k :: 0 <= k < n ==> s.info[s.sleep[k]].sleepUntil <= until)
    && forall k :: n <= k < |s.sleep| ==> s.info[s.sleep[k]].sleepUntil > until
  }

  lemma QueuedThere(s: Sys)
    requires Parking(s)
    ensures exists n: nat :: n <= |s.sleep| && QueuedAt(s, Queued(s), n)
  {
    var n := SleepPos(s.info, s.sleep, s.info[s.current].sleepUntil, 0);
    assert forall k :: n < k < |s.sleep| ==> s.info[s.sleep[n]].sleepUntil <= s.info[s.sleep[k]].sleepUntil;
    assert QueuedAt(s, Queued(s), n);
  }

  // ---- blocking ----

  lemma {:induction false} BlockedStays(s: Sys, es: seq<Event>, i: int, channel: nat)
    requires Inv(s) && Runs(s, es) && 0 < i < SLOTS && Waits(s.info[i], channel) && Wakeup(channel) !in es
    ensures |Final(s, es).info| == SLOTS && Waits(Final(s, es).info[i], channel)
    decreases |es|
  {
    if es != [] {
      StepKeeps(s, es[0]);
      BlockedStep(s, es[0], i, channel);
      assert forall e :: e in es[1..] ==> e in es;
      BlockedStays(Step(s, es[0]), es[1..], i, channel);
    }
  }

  lemma BlockedStep(s: Sys, e: Event, i: int, channel: nat)
    requires Enabled(s, e) && 0 < i < SLOTS && Waits(s.info[i], channel) && e != Wakeup(channel)
    ensures |Step(s, e).info| == SLOTS && Waits(Step(s, e).info[i], channel)
  {
    StepKeeps(s, e);
    assert OneRole(s, i);
    match e {
      case Switch =>
        SwitchExact(s);
        DueIn(s.info, s.now, s.sleep);
      case Wakeup(c) => WakeupExact(s, c, 0, i);
      case _ =>
    }
  }

  /** A process that blocks on a channel stays blocked through every run without a wakeup of that channel, and the first
      one makes it READY, in the ready queue. */
  lemma BlockUntilWakeup(s: Sys, channel: nat, es: seq<Event>)
    requires UserRuns(s) && Inv(BlockedOn(s, channel)) && Runs(BlockedOn(s, channel), es) && Wakeup(channel) !in es
    ensures var t, i := Final(BlockedOn(s, channel), es), s.current;
      && Inv(t) && t.info[i].state == Blocked
      && var u := Step(t, Wakeup(channel));
      |u.info| == SLOTS && u.info[i].state == Ready && i in u.ready
  {
    var b := BlockedOn(s, channel);
    RunKeeps(b, es);
    BlockedStays(b, es, s.current, channel);
    var t := Final(b, es);
    WakeupExact(t, channel, 0, s.current);
    StepKeeps(t, Wakeup(channel));
    assert OneRole(Step(t, Wakeup(channel)), s.current);
  }

  // ---- exit status ----

  /** No wait of the run releases slot `i`. */
  ghost predicate Unreaped(s: Sys, es: seq<Event>, i: int)
    requires Inv(s) && Runs(s, es) && 0 <= i < SLOTS
    decreases |es|
  {
    es == [] || (!IsReaped(s, es[0], i) && (StepKeeps(s, es[0]); Unreaped(Step(s, es[0]), es[1..], i)))
  }

  lemma {:induction false} ZombieStays(s: Sys, es: seq<Event>, i: int)
    requires Inv(s) && Runs(s, es) && 0 < i < SLOTS && s.info[i].state == Zombie && Unreaped(s, es, i)
    ensures var q := Final(s, es).info;
      && |q| == SLOTS && q[i].state == Zombie && q[i].pid == s.info[i].pid
      && q[i].exitCode == s.info[i].exitCode
    decreases |es|
  {
    if es != [] {
      StepKeeps(s, es[0]);
      Identity(s, es[0], i);
      ZombieStep(s, es[0], i);
      ZombieStays(Step(s, es[0]), es[1..], i);
    }
  }

  lemma ZombieStep(s: Sys, e: Event, i: int)
    requires Enabled(s, e) && 0 < i < SLOTS && s.info[i].state == Zombie && !IsReaped(s, e, i)
    ensures |Step(s, e).info| == SLOTS && Step(s, e).info[i].state == Zombie
    ensures !GetsSlot(s, e, i) && !(e.Exit? && i == s.current)
  {
    StepKeeps(s, e);
    var b := Step(s, e).info[i].state;
    if b != Zombie {
      Transitions(s, e, i, b);
      assert OneRole(s, i);
      DueIn(s.info, s.now, s.sleep);
    }
  }

  /** The code given to exit is the one that the wait which releases the process returns, whatever happens in between;
      and a wait finds it as long as no lower slot holds a zombie of the same pid. */
  lemma ExitStatus(s: Sys, code: int, es: seq<Event>)
    requires UserRuns(s) && Inv(Exited(s, code)) && Runs(Exited(s, code), es) && Unreaped(Exited(s, code), es, s.current)
    ensures var t, pid := Final(Exited(s, code), es), s.info[s.current].pid;
      && |t.info| == SLOTS && Reapable(t.info[s.current], pid) && t.info[s.current].exitCode == code
      && FirstZombie(t.info, pid, 0) <= s.current
      && (FirstZombie(t.info, pid, 0) == s.current <==> forall k :: 0 <= k < s.current ==> !Reapable(t.info[k], pid))
  {
    ZombieStays(Exited(s, code), es, s.current);
  }
}
