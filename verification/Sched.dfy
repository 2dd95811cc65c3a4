/** The process scheduler. One `next` field per slot links the ready queue and the sleep queue,
    so a slot may be in at most one of them; interrupt-disabled regions are atomic steps. */
module Sched {
  const SLOTS := 64
  const NONE := -1
  const SLICE := 10
  const MAX_PID := 10000
  const TWO_32 := 0x1_0000_0000

  /** The code has one value, SLEEPING, for Parked and Sleeping, and no branch of it reads that value: a process
      is Parked from the moment it marks itself until it is in the sleep queue. */
  datatype State = Unused | Ready | Running | Parked | Sleeping | Blocked | Zombie

  datatype Proc = Proc(pid: nat, ppid: nat, state: State, ticksLeft: nat, sleepUntil: nat,
                       exitCode: int, waitingFor: nat, next: int)

  const EMPTY := Proc(0, 0, Unused, 0, 0, 0, 0, NONE)

  // ---- intrusive lists ----

  ghost predicate Slots(q: seq<int>) {
    && (forall k :: 0 <= k < |q| ==> 0 <= q[k] < SLOTS)
    && (forall j, k :: 0 <= j < k < |q| ==> q[j] != q[k])
  }

  function Head(q: seq<int>): int { if q == [] then NONE else q[0] }

  function Last(q: seq<int>): int { if q == [] then NONE else q[|q| - 1] }

  function After(q: seq<int>, k: nat): int { if k + 1 < |q| then q[k + 1] else NONE }

  /** The `next` fields link exactly the slots of `q`, in order. */
  ghost predicate Chain(procs: seq<Proc>, q: seq<int>)
    requires |procs| == SLOTS && Slots(q)
  {
    forall k {:trigger After(q, k)} :: 0 <= k < |q| ==> procs[q[k]].next == After(q, k)
  }

  /** Changing a slot outside the list, or keeping its link, leaves the list alone. */
  lemma ChainKept(procs: seq<Proc>, q: seq<int>, i: int, p: Proc)
    requires |procs| == SLOTS && Slots(q) && Chain(procs, q) && 0 <= i < SLOTS
    requires i !in q || p.next == procs[i].next
    ensures Chain(procs[i := p], q)
  {
  }

  lemma ChainAppend(procs: seq<Proc>, q: seq<int>, i: int)
    requires |procs| == SLOTS && Slots(q) && Chain(procs, q) && 0 <= i < SLOTS && i !in q
    ensures Slots(q + [i])
    ensures var ps := procs[i := procs[i].(next := NONE)];
      Chain(if q == [] then ps else ps[Last(q) := ps[Last(q)].(next := i)], q + [i])
  {
    var r := q + [i];
    forall k | 0 <= k < |q| - 1 ensures After(r, k) == After(q, k) == procs[q[k]].next && r[k] == q[k] != Last(q) {
    }
  }

  lemma ChainTail(procs: seq<Proc>, q: seq<int>)
    requires |procs| == SLOTS && Slots(q) && Chain(procs, q) && q != []
    ensures Slots(q[1..]) && Chain(procs, q[1..]) && q[0] !in q[1..]
    ensures Head(q[1..]) == procs[q[0]].next == After(q, 0)
    ensures q[1..] != [] ==> Last(q[1..]) == Last(q)
  {
    var r := q[1..];
    assert procs[q[0]].next == After(q, 0);
    forall k | 0 <= k < |r| ensures procs[r[k]].next == After(r, k) {
      assert r[k] == q[k + 1] && After(r, k) == After(q, k + 1);
    }
  }

  function Without(q: seq<int>, n: nat): (r: seq<int>)
    requires n < |q|
    ensures |r| == |q| - 1
    ensures forall k {:trigger r[k]} :: 0 <= k < n ==> r[k] == q[k]
    ensures forall k {:trigger r[k]} :: n <= k < |r| ==> r[k] == q[k + 1]
  {
    q[..n] + q[n + 1..]
  }

  lemma SlotsWithout(q: seq<int>, n: nat)
    requires Slots(q) && n < |q|
    ensures Slots(Without(q, n)) && q[n] !in Without(q, n)
  {
    hide Without;
  }

  /** Unlinking element `n`: the element before it, if any, takes over its link. */
  lemma ChainWithout(procs: seq<Proc>, q: seq<int>, n: nat)
    requires |procs| == SLOTS && Slots(q) && Chain(procs, q) && n < |q|
    ensures Slots(Without(q, n)) && procs[q[n]].next == After(q, n)
    ensures Chain(if n == 0 then procs else procs[q[n - 1] := procs[q[n - 1]].(next := After(q, n))], Without(q, n))
  {
    SlotsWithout(q, n);
    var r := Without(q, n);
    SlotsAt(q, n);
    var ps := if n == 0 then procs else procs[q[n - 1] := procs[q[n - 1]].(next := After(q, n))];
    hide Without, Slots;
    forall k | 0 <= k < |r| ensures ps[r[k]].next == After(r, k) {
      if k < n - 1 {
        SlotsApart(q, k, n - 1);
        assert r[k] == q[k] && After(r, k) == After(q, k);
      } else if k == n - 1 {
        assert r[k] == q[k] && After(r, k) == After(q, n);
      } else {
        if n > 0 { SlotsApart(q, n - 1, k + 1); }
        assert r[k] == q[k + 1] && After(r, k) == After(q, k + 1);
      }
    }
  }

  lemma SlotsAt(q: seq<int>, n: nat)
    requires Slots(q) && n < |q|
    ensures 0 <= q[n] < SLOTS && (n > 0 ==> 0 <= q[n - 1] < SLOTS)
  {
  }

  lemma SlotsApart(q: seq<int>, j: nat, k: nat)
    requires Slots(q) && j < k < |q|
    ensures q[j] != q[k] && 0 <= q[j] < SLOTS && 0 <= q[k] < SLOTS
  {
  }

  /** Inserting `i` before position `n`. */
  function With(q: seq<int>, n: nat, i: int): (r: seq<int>)
    requires n <= |q|
    ensures |r| == |q| + 1
    ensures forall k {:trigger r[k]} :: 0 <= k < n ==> r[k] == q[k]
    ensures r[n] == i
    ensures forall k {:trigger r[k]} :: n < k < |r| ==> r[k] == q[k - 1]
  {
    q[..n] + [i] + q[n..]
  }

  lemma SlotsWith(q: seq<int>, n: nat, i: int)
    requires Slots(q) && n <= |q| && 0 <= i < SLOTS && i !in q
    ensures Slots(With(q, n, i)) && (n > 0 ==> 0 <= q[n - 1] < SLOTS && q[n - 1] != i)
  {
    hide With;
  }

  lemma ChainWith(procs: seq<Proc>, q: seq<int>, n: nat, i: int)
    requires |procs| == SLOTS && Slots(q) && Chain(procs, q) && n <= |q| && 0 <= i < SLOTS && i !in q
    ensures Slots(With(q, n, i))
    ensures var ps := procs[i := procs[i].(next := if n < |q| then q[n] else NONE)];
      Chain(if n == 0 then ps else ps[q[n - 1] := ps[q[n - 1]].(next := i)], With(q, n, i))
  {
    SlotsWith(q, n, i);
    var r := With(q, n, i);
    var p1 := procs[i := procs[i].(next := if n < |q| then q[n] else NONE)];
    var ps := if n == 0 then p1 else p1[q[n - 1] := p1[q[n - 1]].(next := i)];
    hide With, Slots;
    forall k | 0 <= k < |r| ensures ps[r[k]].next == After(r, k) {
      if k < n - 1 {
        SlotsApart(q, k, n - 1);
        assert r[k] == q[k] && After(r, k) == After(q, k);
      } else if k == n - 1 {
        assert r[k] == q[k];
      } else if k > n {
        if n > 0 { SlotsApart(q, n - 1, k - 1); }
        assert r[k] == q[k - 1] && After(r, k) == After(q, k - 1);
      }
    }
  }

  // ---- the scheduler as a state machine ----

  /** Process table without links, the two queues, the running slot and the clock. */
  datatype Sys = Sys(info: seq<Proc>, ready: seq<int>, sleep: seq<int>, current: int, now: nat, nextPid: nat)

  /** Sleepers are queued by deadline. */
  ghost predicate Sorted(info: seq<Proc>, sleep: seq<int>)
    requires |info| == SLOTS && Slots(sleep)
  {
    forall j, k :: 0 <= j < k < |sleep| ==> info[sleep[j]].sleepUntil <= info[sleep[k]].sleepUntil
  }

  /** What every step keeps. Slot 0 is the idle loop: it is RUNNING even when switched out, and
      it is in the ready queue only before the first switch, at its head. */
  ghost predicate Inv(s: Sys) {
    && |s.info| == SLOTS && 0 <= s.current < SLOTS && Slots(s.ready) && Slots(s.sleep)
    && 1 <= s.nextPid < MAX_PID
    && s.info[0].pid == 0 && s.info[0].state == Running
    && (forall i :: 0 < i < SLOTS ==> OneRole(s, i))
    && 0 !in s.sleep
    && (0 in s.ready ==> s.current == 0 && s.ready[0] == 0)
    && s.info[s.current].state != Unused
    && Sorted(s.info, s.sleep)
  }

  /** The state of a slot says which queue it is in. */
  ghost predicate OneRole(s: Sys, i: int)
    requires |s.info| == SLOTS && 0 <= i < SLOTS
  {
    && (s.info[i].state == Ready <==> i in s.ready)
    && (s.info[i].state == Sleeping <==> i in s.sleep)
    && (s.info[i].state == Running ==> i == s.current)
    && (s.info[i].state != Unused ==> s.info[i].pid != 0)
  }

  ghost function WakeOne(s: Sys, n: nat): Sys
    requires |s.info| == SLOTS && Slots(s.sleep) && n < |s.sleep|
  {
    var i := s.sleep[n];
    s.(info := s.info[i := s.info[i].(state := Ready, sleepUntil := 0)],
       sleep := Without(s.sleep, n), ready := s.ready + [i])
  }

  /** Wakes the sleepers from position `n` on whose deadline has passed. */
  ghost function WakeFrom(s: Sys, n: nat): Sys
    requires Inv(s) && n <= |s.sleep|
    decreases |s.sleep| - n
  {
    if n == |s.sleep| then s
    else if s.info[s.sleep[n]].sleepUntil <= s.now then
      WakeOneKeeps(s, n);
      WakeFrom(WakeOne(s, n), n)
    else WakeFrom(s, n + 1)
  }

  lemma WakeOneKeeps(s: Sys, n: nat)
    requires Inv(s) && n < |s.sleep|
    ensures Inv(WakeOne(s, n))
  {
    var i, t := s.sleep[n], WakeOne(s, n);
    SlotsWithout(s.sleep, n);
    assert s.sleep[n] in s.sleep;
    assert i != 0 && i !in s.ready by { assert OneRole(s, i); }
    forall j | 0 < j < SLOTS ensures OneRole(t, j) {
      assert OneRole(s, j);
      if j != i { WithoutHas(s.sleep, n, j); }
    }
    forall j, k | 0 <= j < k < |t.sleep| ensures t.info[t.sleep[j]].sleepUntil <= t.info[t.sleep[k]].sleepUntil {
      SlotsApart(t.sleep, j, k);
      assert t.sleep[j] in t.sleep && t.sleep[k] in t.sleep;
    }
  }

  lemma WithoutHas(q: seq<int>, n: nat, x: int)
    requires n < |q| && x != q[n]
    ensures x in Without(q, n) <==> x in q
  {
    if x in q {
      var k :| 0 <= k < |q| && q[k] == x;
      assert if k < n then Without(q, n)[k] == x else Without(q, n)[k - 1] == x;
    }
  }

  /** A running process other than idle goes to the end of the ready queue. */
  ghost function Requeue(s: Sys): Sys
    requires Inv(s)
  {
    var c := s.current;
    if s.info[c].state == Running && s.info[c].pid != 0
    then s.(info := s.info[c := s.info[c].(state := Ready)], ready := s.ready + [c]) else s
  }

  lemma RequeueKeeps(s: Sys)
    requires Inv(s)
    ensures var t := Requeue(s); |t.info| == SLOTS && Inv(t) && (t.current != 0 ==> t.info[t.current].state != Running)
  {
    var c, t := s.current, Requeue(s);
    if c != 0 { assert OneRole(s, c); }
    forall j | 0 < j < SLOTS ensures OneRole(t, j) { assert OneRole(s, j); }
    if t != s {
      forall j, k | 0 <= j < k < |t.sleep| ensures t.info[t.sleep[j]].sleepUntil <= t.info[t.sleep[k]].sleepUntil {
        SlotsApart(s.sleep, j, k);
      }
    }
  }

  /** The head of the ready queue runs next; idle runs when the queue is empty. */
  ghost function Dispatch(s: Sys): Sys
    requires Inv(s)
  {
    var next := if s.ready == [] then 0 else s.ready[0];
    var rest := if s.ready == [] then [] else s.ready[1..];
    var p := s.info[next].(state := Running);
    s.(info := s.info[next := if next == s.current then p else p.(ticksLeft := SLICE)], ready := rest, current := next)
  }

  lemma DispatchKeeps(s: Sys)
    requires Inv(s) && (s.current != 0 ==> s.info[s.current].state != Running)
    ensures Inv(Dispatch(s)) && 0 !in Dispatch(s).ready
  {
    var t := Dispatch(s);
    var next := t.current;
    if s.ready != [] { assert s.ready[0] in s.ready; }
    forall j | 0 < j < SLOTS ensures OneRole(t, j) {
      assert OneRole(s, j);
      if s.ready != [] && j != next { WithoutHas(s.ready, 0, j); }
    }
    if next != 0 { assert OneRole(s, next); }
    forall j, k | 0 <= j < k < |t.sleep| ensures t.info[t.sleep[j]].sleepUntil <= t.info[t.sleep[k]].sleepUntil {
      SlotsApart(s.sleep, j, k);
    }
  }

  lemma {:induction false} WakeKeeps(s: Sys, n: nat)
    requires Inv(s) && n <= |s.sleep|
    ensures Inv(WakeFrom(s, n)) && WakeFrom(s, n).current == s.current && WakeFrom(s, n).now == s.now
    decreases |s.sleep| - n
  {
    if n < |s.sleep| {
      if s.info[s.sleep[n]].sleepUntil <= s.now {
        WakeOneKeeps(s, n);
        WakeKeeps(WakeOne(s, n), n);
      } else {
        WakeKeeps(s, n + 1);
      }
    }
  }

  ghost function Switched(s: Sys): Sys
    requires Inv(s)
  {
    WakeKeeps(s, 0);
    RequeueKeeps(WakeFrom(s, 0));
    Dispatch(Requeue(WakeFrom(s, 0)))
  }

  // ---- the other steps ----

  /** One timer interrupt; a slice that runs out starts again and asks for a switch. */
  ghost function Ticked(s: Sys): Sys
    requires Inv(s)
  {
    var c := s.info[s.current];
    var left := if c.ticksLeft > 0 then c.ticksLeft - 1 else 0;
    s.(now := (s.now + 1) % TWO_32,
       info := s.info[s.current := c.(ticksLeft := if left == 0 && c.state == Running then SLICE else left)])
  }

  function FirstUnused(info: seq<Proc>, i: nat): (r: nat)
    requires |info| == SLOTS && i <= SLOTS
    ensures i <= r <= SLOTS && (r < SLOTS ==> info[r].state == Unused)
    ensures forall k :: i <= k < r ==> info[k].state != Unused
    decreases SLOTS - i
  {
    if i == SLOTS || info[i].state == Unused then i else FirstUnused(info, i + 1)
  }

  function NextPid(pid: nat): nat { if pid + 1 >= MAX_PID then 1 else pid + 1 }

  /** A new thread takes the first unused slot; without a kernel stack the slot stays unused,
      but its pid is spent. */
  ghost function Created(s: Sys, stack: bool): Sys
    requires Inv(s)
  {
    var i := FirstUnused(s.info, 0);
    if i == SLOTS then s
    else
      var p := Proc(s.nextPid, s.info[s.current].pid, if stack then Ready else Unused, SLICE, 0, 0, 0, NONE);
      s.(info := s.info[i := p], ready := if stack then s.ready + [i] else s.ready, nextPid := NextPid(s.nextPid))
  }

  /** Milliseconds to ticks in 32-bit arithmetic, at least 1. */
  function SleepTicks(ms: nat): nat {
    var t := ms * 1000 % TWO_32 / 1000;
    if t == 0 then 1 else t
  }

  /** Sleepers with a deadline up to `until` come first. */
  ghost function SleepPos(info: seq<Proc>, q: seq<int>, until: nat, n: nat): (r: nat)
    requires |info| == SLOTS && Slots(q) && n <= |q|
    ensures n <= r <= |q| && (r < |q| ==> info[q[r]].sleepUntil > until)
    ensures forall k :: n <= k < r ==> info[q[k]].sleepUntil <= until
    decreases |q| - n
  {
    if n < |q| && info[q[n]].sleepUntil <= until then SleepPos(info, q, until, n + 1) else n
  }

  ghost predicate UserRuns(s: Sys) { Inv(s) && s.current != 0 && s.info[s.current].state == Running }

  /** The first half of going to sleep: state and deadline are set, with interrupts still enabled. */
  ghost function Marked(s: Sys, ms: nat): Sys
    requires UserRuns(s)
  {
    s.(info := s.info[s.current := s.info[s.current].(state := Parked,
                                                      sleepUntil := (s.now + SleepTicks(ms)) % TWO_32)])
  }

  /** The current process is between the two halves. */
  ghost predicate Parking(s: Sys) { Inv(s) && s.current != 0 && s.info[s.current].state == Parked }

  /** The second half: it takes its place in the sleep queue. */
  ghost function Queued(s: Sys): Sys
    requires Parking(s)
  {
    var p := s.info[s.current];
    s.(info := s.info[s.current := p.(state := Sleeping)],
       sleep := With(s.sleep, SleepPos(s.info, s.sleep, p.sleepUntil, 0), s.current))
  }

  ghost function Exited(s: Sys, code: int): Sys
    requires UserRuns(s)
  {
    s.(info := s.info[s.current := s.info[s.current].(state := Zombie, exitCode := code)])
  }

  ghost function BlockedOn(s: Sys, channel: nat): Sys
    requires UserRuns(s)
  {
    s.(info := s.info[s.current := s.info[s.current].(state := Blocked, waitingFor := channel)])
  }

  predicate Waits(p: Proc, channel: nat) { p.state == Blocked && p.waitingFor == channel }

  ghost function Unblocked(s: Sys, i: nat): Sys
    requires |s.info| == SLOTS && i < SLOTS
  {
    s.(info := s.info[i := s.info[i].(state := Ready, waitingFor := 0)], ready := s.ready + [i])
  }

  ghost function WokenFrom(s: Sys, channel: nat, i: nat): Sys
    requires |s.info| == SLOTS && i <= SLOTS
    decreases SLOTS - i
  {
    if i == SLOTS then s
    else if Waits(s.info[i], channel) then WokenFrom(Unblocked(s, i), channel, i + 1)
    else WokenFrom(s, channel, i + 1)
  }

  predicate Reapable(p: Proc, pid: nat) { p.pid == pid && p.state == Zombie }

  function FirstZombie(info: seq<Proc>, pid: nat, i: nat): (r: nat)
    requires |info| == SLOTS && i <= SLOTS
    ensures i <= r <= SLOTS && (r < SLOTS ==> Reapable(info[r], pid))
    ensures forall k :: i <= k < r ==> !Reapable(info[k], pid)
    decreases SLOTS - i
  {
    if i == SLOTS || Reapable(info[i], pid) then i else FirstZombie(info, pid, i + 1)
  }

  ghost predicate CurrentRuns(s: Sys) { Inv(s) && s.info[s.current].state == Running }

  ghost function Reaped(s: Sys, pid: nat): Sys
    requires CurrentRuns(s)
  {
    var i := FirstZombie(s.info, pid, 0);
    if i == SLOTS then s else s.(info := s.info[i := s.info[i].(state := Unused)])
  }

  datatype Event = Switch | Tick | Create(stack: bool) | Mark(ms: nat) | Queue | Exit(code: int)
                 | BlockOn(channel: nat) | Wakeup(channel: nat) | Reap(pid: nat)

  /** Processes other than idle sleep, exit and block; a running process waits; interrupts and wakeups happen at any
      time, also
      while a process is between the two halves of going to sleep. */
  ghost predicate Enabled(s: Sys, e: Event) {
    match e
    case Switch | Tick | Create(_) | Wakeup(_) => Inv(s)
    case Mark(_) | Exit(_) | BlockOn(_) => UserRuns(s)
    case Reap(_) => CurrentRuns(s)
    case Queue => Parking(s)
  }

  ghost function Step(s: Sys, e: Event): Sys
    requires Enabled(s, e)
  {
    match e
    case Switch => Switched(s)
    case Tick => Ticked(s)
    case Create(stack) => Created(s, stack)
    case Mark(ms) => Marked(s, ms)
    case Queue => Queued(s)
    case Exit(code) => Exited(s, code)
    case BlockOn(channel) => BlockedOn(s, channel)
    case Wakeup(channel) => WokenFrom(s, channel, 0)
    case Reap(pid) => Reaped(s, pid)
  }

  /** A change to one slot that leaves the queues and its role alone. */
  lemma SameRoles(s: Sys, t: Sys, i: int)
    requires Inv(s) && 0 <= i < SLOTS && |t.info| == SLOTS
    requires t.ready == s.ready && t.sleep == s.sleep && t.current == s.current && 1 <= t.nextPid < MAX_PID
    requires forall j :: 0 <= j < SLOTS && j != i ==> t.info[j] == s.info[j]
    requires i in s.sleep ==> t.info[i].sleepUntil == s.info[i].sleepUntil
    requires i > 0 ==> OneRole(t, i)
    requires t.info[0].pid == 0 && t.info[0].state == Running && t.info[t.current].state != Unused
    ensures Inv(t)
  {
    forall j | 0 < j < SLOTS ensures OneRole(t, j) { assert OneRole(s, j); }
    forall j, k | 0 <= j < k < |t.sleep| ensures t.info[t.sleep[j]].sleepUntil <= t.info[t.sleep[k]].sleepUntil {
      SlotsApart(s.sleep, j, k);
      assert s.sleep[j] in s.sleep && s.sleep[k] in s.sleep;
    }
  }

  lemma CreatedKeeps(s: Sys, stack: bool)
    requires Inv(s)
    ensures Inv(Created(s, stack))
  {
    var i, t := FirstUnused(s.info, 0), Created(s, stack);
    if i < SLOTS {
      assert i != 0 && i != s.current;
      assert OneRole(s, i);
      forall j | 0 < j < SLOTS ensures OneRole(t, j) { assert OneRole(s, j); }
      forall j, k | 0 <= j < k < |t.sleep| ensures t.info[t.sleep[j]].sleepUntil <= t.info[t.sleep[k]].sleepUntil {
        SlotsApart(s.sleep, j, k);
        assert s.sleep[j] in s.sleep && s.sleep[k] in s.sleep;
      }
    }
  }

  lemma MarkedKeeps(s: Sys, ms: nat)
    requires UserRuns(s)
    ensures Inv(Marked(s, ms)) && Parking(Marked(s, ms))
  {
    assert OneRole(s, s.current);
    SameRoles(s, Marked(s, ms), s.current);
  }

  lemma QueuedKeeps(s: Sys)
    requires Parking(s)
    ensures Inv(Queued(s))
  {
    var c, t := s.current, Queued(s);
    var until := s.info[c].sleepUntil;
    var n := SleepPos(s.info, s.sleep, until, 0);
    assert OneRole(s, c);
    SlotsWith(s.sleep, n, c);
    forall j | 0 < j < SLOTS ensures OneRole(t, j) {
      assert OneRole(s, j);
      WithHas(s.sleep, n, c, j);
    }
    WithHas(s.sleep, n, c, 0);
    SortedWith(s.info, t.info, s.sleep, n, c, until);
  }

  lemma WithHas(q: seq<int>, n: nat, i: int, x: int)
    requires n <= |q|
    ensures x in With(q, n, i) <==> x == i || x in q
  {
    var r := With(q, n, i);
    if x in q {
      var k :| 0 <= k < |q| && q[k] == x;
      assert if k < n then r[k] == x else r[k + 1] == x;
    }
    assert r[n] == i;
    if x in r {
      var k :| 0 <= k < |r| && r[k] == x;
      assert k == n || (if k < n then q[k] == x else q[k - 1] == x);
    }
  }

  lemma SortedWith(info: seq<Proc>, info': seq<Proc>, q: seq<int>, n: nat, c: int, until: nat)
    requires |info| == |info'| == SLOTS && Slots(q) && Sorted(info, q) && n <= |q| && 0 <= c < SLOTS && c !in q
    requires Slots(With(q, n, c))
    requires forall k :: 0 <= k < n ==> info[q[k]].sleepUntil <= until
    requires n < |q| ==> info[q[n]].sleepUntil > until
    requires info'[c].sleepUntil == until && forall j :: 0 <= j < SLOTS && j != c ==> info'[j] == info[j]
    ensures Sorted(info', With(q, n, c))
  {
    var r := With(q, n, c);
    hide With;
    forall j, k | 0 <= j < k < |r| ensures info'[r[j]].sleepUntil <= info'[r[k]].sleepUntil {
      SlotsApart(r, j, k);
      var a, b := if j < n then j else j - 1, if k < n then k else k - 1;
      if j == n {
        assert r[k] == q[b] && q[b] in q;
        if b > n { assert info[q[n]].sleepUntil <= info[q[b]].sleepUntil; }
      } else if k == n {
        assert r[j] == q[a] && q[a] in q;
      } else {
        assert r[j] == q[a] && r[k] == q[b] && q[a] in q && q[b] in q;
      }
    }
  }

  lemma UnblockedKeeps(s: Sys, i: nat)
    requires Inv(s) && i < SLOTS && s.info[i].state == Blocked
    ensures Inv(Unblocked(s, i)) && s.ready <= Unblocked(s, i).ready && i !in s.ready && i !in s.sleep
  {
    var t := Unblocked(s, i);
    assert OneRole(s, i);
    forall j | 0 < j < SLOTS ensures OneRole(t, j) { assert OneRole(s, j); }
    forall j, k | 0 <= j < k < |t.sleep| ensures t.info[t.sleep[j]].sleepUntil <= t.info[t.sleep[k]].sleepUntil {
      SlotsApart(s.sleep, j, k);
    }
  }

  lemma {:induction false} WokenKeeps(s: Sys, channel: nat, i: nat)
    requires Inv(s) && i <= SLOTS
    ensures Inv(WokenFrom(s, channel, i)) && s.ready <= WokenFrom(s, channel, i).ready
    decreases SLOTS - i
  {
    if i < SLOTS {
      if Waits(s.info[i], channel) {
        UnblockedKeeps(s, i);
        WokenKeeps(Unblocked(s, i), channel, i + 1);
      } else {
        WokenKeeps(s, channel, i + 1);
      }
    }
  }

  lemma ReapedKeeps(s: Sys, pid: nat)
    requires CurrentRuns(s)
    ensures Inv(Reaped(s, pid))
  {
    var i := FirstZombie(s.info, pid, 0);
    if i < SLOTS {
      assert i != 0;
      assert OneRole(s, i);
      SameRoles(s, Reaped(s, pid), i);
    }
  }

  lemma CurrentKeeps(s: Sys, t: Sys)
    requires Inv(s) && t == s.(info := t.info, now := t.now) && |t.info| == SLOTS
    requires t.info == s.info[s.current := t.info[s.current]]
    requires t.info[s.current].pid == s.info[s.current].pid
    requires t.info[s.current].state == s.info[s.current].state
      || (UserRuns(s) && (t.info[s.current].state == Blocked || t.info[s.current].state == Zombie))
    requires t.info[s.current].sleepUntil == s.info[s.current].sleepUntil
    ensures Inv(t)
  {
    if s.current != 0 { assert OneRole(s, s.current); }
    SameRoles(s, t, s.current);
  }

  /** Every step keeps the invariant. */
  lemma StepKeeps(s: Sys, e: Event)
    requires Enabled(s, e)
    ensures Inv(Step(s, e))
  {
    match e {
      case Switch =>
        WakeKeeps(s, 0);
        RequeueKeeps(WakeFrom(s, 0));
        DispatchKeeps(Requeue(WakeFrom(s, 0)));
      case Tick => CurrentKeeps(s, Ticked(s));
      case Create(stack) => CreatedKeeps(s, stack);
      case Mark(ms) => MarkedKeeps(s, ms);
      case Queue => QueuedKeeps(s);
      case Exit(code) => CurrentKeeps(s, Exited(s, code));
      case BlockOn(channel) => CurrentKeeps(s, BlockedOn(s, channel));
      case Wakeup(channel) => WokenKeeps(s, channel, 0);
      case Reap(pid) => ReapedKeeps(s, pid);
    }
  }

  // ---- whole runs ----

  /** Every event of the run is enabled when it happens. */
  ghost predicate Runs(s: Sys, es: seq<Event>)
    decreases |es|
  {
    es == [] || (Enabled(s, es[0]) && Runs(Step(s, es[0]), es[1..]))
  }

  ghost function Final(s: Sys, es: seq<Event>): Sys
    requires Runs(s, es)
    decreases |es|
  {
    if es == [] then s else Final(Step(s, es[0]), es[1..])
  }

  lemma {:induction false} RunKeeps(s: Sys, es: seq<Event>)
    requires Inv(s) && Runs(s, es)
    ensures Inv(Final(s, es))
    decreases |es|
  {
    if es != [] {
      StepKeeps(s, es[0]);
      RunKeeps(Step(s, es[0]), es[1..]);
    }
  }

  /** How many times a slot appears in a queue. */
  ghost function Count(q: seq<int>, i: int): nat {
    if q == [] then 0 else (if q[0] == i then 1 else 0) + Count(q[1..], i)
  }

  lemma {:induction false} CountOnce(q: seq<int>, i: int)
    requires Slots(q)
    ensures Count(q, i) == if i in q then 1 else 0
  {
    if q != [] {
      assert Slots(q[1..]);
      CountOnce(q[1..], i);
      if q[0] == i { assert i !in q[1..]; }
    }
  }

  /** In every reachable state a live slot other than idle has exactly one place: it is current
      and RUNNING, or READY and once in the ready queue, or SLEEPING and once in the sleep queue,
      or BLOCKED or ZOMBIE in neither. */
  lemma Partition(s: Sys, i: int)
    requires Inv(s) && 0 < i < SLOTS
    ensures match s.info[i].state
      case Unused => i != s.current && Count(s.ready, i) == 0 && Count(s.sleep, i) == 0
      case Running => i == s.current && Count(s.ready, i) == 0 && Count(s.sleep, i) == 0
      case Ready => Count(s.ready, i) == 1 && Count(s.sleep, i) == 0
      case Sleeping => Count(s.ready, i) == 0 && Count(s.sleep, i) == 1
      case Parked | Blocked | Zombie => Count(s.ready, i) == 0 && Count(s.sleep, i) == 0
  {
    assert OneRole(s, i);
    CountOnce(s.ready, i);
    CountOnce(s.sleep, i);
  }

  lemma OneRuns(s: Sys, i: int, j: int)
    requires Inv(s) && 0 < i < SLOTS && 0 < j < SLOTS && s.info[i].state == Running && s.info[j].state == Running
    ensures i == j == s.current
  {
    assert OneRole(s, i) && OneRole(s, j);
  }

  // ---- waking ----

  /** A sleeper leaves the sleep queue at a switch exactly when its deadline has passed, and then
      it is in the ready queue. */
  lemma {:induction false} WakeExact(s: Sys, n: nat, i: int)
    requires Inv(s) && n <= |s.sleep| && i in s.sleep && (i in s.sleep[..n] ==> s.info[i].sleepUntil > s.now)
    ensures i in WakeFrom(s, n).sleep <==> s.info[i].sleepUntil > s.now
    ensures s.info[i].sleepUntil <= s.now ==> i in WakeFrom(s, n).ready
    decreases |s.sleep| - n
  {
    if n < |s.sleep| {
      var x := s.sleep[n];
      if s.info[x].sleepUntil <= s.now {
        WakeOneKeeps(s, n);
        WakeOneExact(s, n, i);
        hide Inv, WakeOne;
        if x == i { WakeReady(WakeOne(s, n), n, i); } else { WakeExact(WakeOne(s, n), n, i); }
      } else {
        assert s.sleep[..n + 1] == s.sleep[..n] + [x];
        WakeExact(s, n + 1, i);
      }
    } else {
      assert s.sleep[..n] == s.sleep;
    }
  }

  /** Waking element `n` moves it to the ready queue and leaves the other sleepers as they are. */
  lemma WakeOneExact(s: Sys, n: nat, i: int)
    requires Inv(s) && n < |s.sleep| && i in s.sleep
    ensures var t := WakeOne(s, n);
      && |t.info| == SLOTS && n <= |t.sleep| == |s.sleep| - 1 && t.now == s.now && i != 0
      && (i == s.sleep[n] ==> i in t.ready)
      && (i != s.sleep[n] ==> i in t.sleep && t.sleep[..n] == s.sleep[..n] && t.info[i] == s.info[i])
  {
    hide Without;
    if i != s.sleep[n] { WithoutHas(s.sleep, n, i); }
    assert Without(s.sleep, n)[..n] == s.sleep[..n];
  }

  /** Waking does not touch slots whose deadline lies ahead. */
  lemma {:induction false} WakeInfo(s: Sys, n: nat, i: int)
    requires Inv(s) && n <= |s.sleep| && 0 <= i < SLOTS && s.info[i].sleepUntil > s.now
    ensures |WakeFrom(s, n).info| == SLOTS && WakeFrom(s, n).info[i] == s.info[i]
    decreases |s.sleep| - n
  {
    if n < |s.sleep| {
      if s.info[s.sleep[n]].sleepUntil <= s.now {
        WakeOneKeeps(s, n);
        WakeInfo(WakeOne(s, n), n, i);
      } else {
        WakeInfo(s, n + 1, i);
      }
    }
  }

  lemma {:induction false} WakeGrows(s: Sys, n: nat)
    requires Inv(s) && n <= |s.sleep|
    ensures s.ready <= WakeFrom(s, n).ready
    decreases |s.sleep| - n
  {
    if n < |s.sleep| {
      if s.info[s.sleep[n]].sleepUntil <= s.now {
        WakeOneKeeps(s, n);
        WakeGrows(WakeOne(s, n), n);
        assert s.ready <= WakeOne(s, n).ready;
      } else {
        WakeGrows(s, n + 1);
      }
    }
  }

  /** A ready slot is not put to sleep by waking others. */
  lemma WakeReady(s: Sys, n: nat, i: int)
    requires Inv(s) && n <= |s.sleep| && i in s.ready && i != 0
    ensures i in WakeFrom(s, n).ready && i !in WakeFrom(s, n).sleep
  {
    WakeGrows(s, n);
    WakeKeeps(s, n);
    var t := WakeFrom(s, n);
    assert i in t.ready by { var k :| 0 <= k < |s.ready| && s.ready[k] == i; assert t.ready[k] == i; }
    assert 0 <= i < SLOTS;
    assert OneRole(t, i);
  }

  /** No process wakes before its deadline, and none sleeps past the first switch after it. */
  lemma NoEarlyWake(s: Sys, e: Event, i: int)
    requires Enabled(s, e) && i in s.sleep
    ensures i !in Step(s, e).sleep <==> e == Switch && s.info[i].sleepUntil <= s.now
  {
    assert 0 <= i < SLOTS && i != 0;
    match e {
      case Switch =>
        assert s.sleep[..0] == [];
        WakeExact(s, 0, i);
      case Queue =>
        WithHas(s.sleep, SleepPos(s.info, s.sleep, s.info[s.current].sleepUntil, 0), s.current, i);
      case Wakeup(channel) => WokenSleep(s, channel, 0);
      case _ =>
    }
  }

  /** While a process sleeps its deadline stays the same. */
  lemma DeadlineKept(s: Sys, e: Event, i: int)
    requires Enabled(s, e) && i in s.sleep && i in Step(s, e).sleep
    ensures 0 <= i < SLOTS && |Step(s, e).info| == SLOTS && Step(s, e).info[i].sleepUntil == s.info[i].sleepUntil
  {
    StepKeeps(s, e);
    NoEarlyWake(s, e, i);
    assert i != 0 && OneRole(s, i);
    match e {
      case Switch =>
        WakeInfo(s, 0, i);
        WakeKeeps(s, 0);
        RequeueKeeps(WakeFrom(s, 0));
      case Wakeup(channel) => WokenInfo(s, channel, 0, i);
      case _ =>
    }
  }

  lemma {:induction false} WokenInfo(s: Sys, channel: nat, i: nat, j: int)
    requires |s.info| == SLOTS && i <= SLOTS && 0 <= j < SLOTS
    ensures |WokenFrom(s, channel, i).info| == SLOTS
    ensures WokenFrom(s, channel, i).info[j].sleepUntil == s.info[j].sleepUntil
    decreases SLOTS - i
  {
    if i < SLOTS {
      if Waits(s.info[i], channel) {
        WokenInfo(Unblocked(s, i), channel, i + 1, j);
      } else {
        WokenInfo(s, channel, i + 1, j);
      }
    }
  }

  lemma {:induction false} WokenSleep(s: Sys, channel: nat, i: nat)
    requires |s.info| == SLOTS && i <= SLOTS
    ensures WokenFrom(s, channel, i).sleep == s.sleep
    decreases SLOTS - i
  {
    if i < SLOTS {
      if Waits(s.info[i], channel) {
        WokenSleep(Unblocked(s, i), channel, i + 1);
      } else {
        WokenSleep(s, channel, i + 1);
      }
    }
  }

  /** A wakeup makes ready exactly the processes blocked on its channel. */
  lemma {:induction false} WakeupExact(s: Sys, channel: nat, i: nat, j: int)
    requires |s.info| == SLOTS && i <= j < SLOTS
    ensures |WokenFrom(s, channel, i).info| == SLOTS
    ensures WokenFrom(s, channel, i).info[j] ==
            if Waits(s.info[j], channel) then s.info[j].(state := Ready, waitingFor := 0) else s.info[j]
    decreases SLOTS - i
  {
    var t := if Waits(s.info[i], channel) then Unblocked(s, i) else s;
    if i < j { WakeupExact(t, channel, i + 1, j); } else { WokenBelow(t, channel, i + 1, j); }
  }

  lemma {:induction false} WokenBelow(s: Sys, channel: nat, i: nat, j: int)
    requires |s.info| == SLOTS && 0 <= j < i <= SLOTS
    ensures |WokenFrom(s, channel, i).info| == SLOTS && WokenFrom(s, channel, i).info[j] == s.info[j]
    decreases SLOTS - i
  {
    if i < SLOTS { WokenBelow(if Waits(s.info[i], channel) then Unblocked(s, i) else s, channel, i + 1, j); }
  }

  /** A sleep of `ms` milliseconds lasts `ms` ticks (1 for 0) exactly while 32 bits hold it. */
  lemma SleepTicksExact(ms: nat)
    requires ms < TWO_32
    ensures SleepTicks(ms) == (if ms == 0 then 1 else ms) <==> ms * 1000 < TWO_32
  {
    if ms * 1000 >= TWO_32 {
      assert ms * 1000 % TWO_32 <= ms * 1000 - TWO_32;
    }
  }

  // ---- fairness ----

  /** At a switch the head of the ready queue runs and every other entry moves up one place. */
  lemma SwitchAdvances(s: Sys, k: nat)
    requires Inv(s) && k < |s.ready|
    ensures k == 0 ==> Switched(s).current == s.ready[0]
    ensures k > 0 ==> k - 1 < |Switched(s).ready| && Switched(s).ready[k - 1] == s.ready[k]
  {
    WakeKeeps(s, 0);
    WakeGrows(s, 0);
    var t := Requeue(WakeFrom(s, 0));
    assert s.ready <= WakeFrom(s, 0).ready <= t.ready;
    assert t.ready[k] == s.ready[k] && t.ready[0] == s.ready[0];
  }

  lemma OthersAppend(s: Sys, e: Event)
    requires Enabled(s, e) && e != Switch
    ensures s.ready <= Step(s, e).ready
  {
    match e {
      case Wakeup(channel) => WokenKeeps(s, channel, 0);
      case _ =>
    }
  }

  ghost function Switches(es: seq<Event>): nat {
    if es == [] then 0 else (if es[0] == Switch then 1 else 0) + Switches(es[1..])
  }

  /** Bounded waiting: whatever else happens, the process at position `k` of the ready queue is
      running right after the (k+1)-th switch. */
  lemma {:induction false} BoundedWaiting(s: Sys, es: seq<Event>, k: nat)
    requires Inv(s) && Runs(s, es) && k < |s.ready|
    requires Switches(es) == k + 1 && es[|es| - 1] == Switch
    ensures Final(s, es).current == s.ready[k]
    decreases |es|
  {
    StepKeeps(s, es[0]);
    var t := Step(s, es[0]);
    if |es| == 1 {
      assert es[1..] == [];
      SwitchAdvances(s, 0);
    } else {
      assert es[1..][|es| - 2] == Switch;
      SwitchesLast(es[1..]);
      if es[0] == Switch {
        SwitchAdvances(s, k);
        BoundedWaiting(t, es[1..], k - 1);
      } else {
        OthersAppend(s, es[0]);
        BoundedWaiting(t, es[1..], k);
      }
    }
  }

  lemma {:induction false} SwitchesLast(es: seq<Event>)
    requires es != [] && es[|es| - 1] == Switch
    ensures Switches(es) >= 1
  {
    if |es| > 1 {
      assert es[1..][|es| - 2] == Switch;
      SwitchesLast(es[1..]);
    }
  }

  // ---- the implementation ----

  ghost predicate Disjoint(a: seq<int>, b: seq<int>) { forall x :: x in a ==> x !in b }

  /** The table without its links. */
  ghost predicate InfoIs(procs: seq<Proc>, info: seq<Proc>) {
    && |procs| == |info| == SLOTS
    && forall i :: 0 <= i < SLOTS ==> procs[i].(next := NONE) == info[i]
  }

  /** The two queues, linked through one table. */
  ghost predicate Lists(procs: seq<Proc>, rq: seq<int>, sq: seq<int>) {
    && |procs| == SLOTS && Slots(rq) && Slots(sq) && Disjoint(rq, sq)
    && Chain(procs, rq) && Chain(procs, sq)
  }

  lemma ListsFacts(procs: seq<Proc>, rq: seq<int>, sq: seq<int>)
    requires Lists(procs, rq, sq)
    ensures |procs| == SLOTS
    ensures Head(rq) == NONE <==> rq == []
    ensures Head(sq) == NONE <==> sq == []
    ensures rq != [] ==> 0 <= Head(rq) < SLOTS && 0 <= Last(rq) < SLOTS
    ensures sq != [] ==> 0 <= Head(sq) < SLOTS
  {
    if rq != [] { SlotsAt(rq, 0); SlotsAt(rq, |rq| - 1); }
    if sq != [] { SlotsAt(sq, 0); }
  }

  lemma ListsAt(procs: seq<Proc>, rq: seq<int>, sq: seq<int>, n: nat)
    requires Lists(procs, rq, sq) && n < |sq|
    ensures |procs| == SLOTS && 0 <= sq[n] < SLOTS && procs[sq[n]].next == After(sq, n)
    ensures n + 1 < |sq| ==> 0 <= sq[n + 1] < SLOTS
  {
    SlotsAt(sq, n);
    if n + 1 < |sq| { SlotsAt(sq, n + 1); }
  }

  /** Changing a slot without changing its link, or one in neither queue, keeps both queues. */
  lemma ListsSet(procs: seq<Proc>, rq: seq<int>, sq: seq<int>, i: int, p: Proc)
    requires Lists(procs, rq, sq) && 0 <= i < SLOTS && (p.next == procs[i].next || (i !in rq && i !in sq))
    ensures Lists(procs[i := p], rq, sq)
  {
    hide Chain, Slots;
    ChainKept(procs, rq, i, p);
    ChainKept(procs, sq, i, p);
  }

  lemma ListsAppend(procs: seq<Proc>, rq: seq<int>, sq: seq<int>, i: int)
    requires Lists(procs, rq, sq) && 0 <= i < SLOTS && i !in rq && i !in sq
    ensures var ps := procs[i := procs[i].(next := NONE)];
      && (rq == [] ==> Lists(ps, rq + [i], sq))
      && (rq != [] ==> 0 <= Last(rq) < SLOTS && Lists(ps[Last(rq) := ps[Last(rq)].(next := i)], rq + [i], sq))
  {
    ChainAppend(procs, rq, i);
    if rq != [] { SlotsAt(rq, |rq| - 1); assert Last(rq) in rq; }
    hide Chain, Slots;
    var ps := procs[i := procs[i].(next := NONE)];
    ChainKept(procs, sq, i, ps[i]);
    if rq != [] { ChainKept(ps, sq, Last(rq), ps[Last(rq)].(next := i)); }
  }

  lemma ListsPop(procs: seq<Proc>, rq: seq<int>, sq: seq<int>)
    requires Lists(procs, rq, sq) && rq != []
    ensures |procs| == SLOTS && 0 <= rq[0] < SLOTS && procs[rq[0]].next == Head(rq[1..])
    ensures Lists(procs[rq[0] := procs[rq[0]].(next := NONE)], rq[1..], sq)
    ensures rq[1..] != [] ==> Last(rq[1..]) == Last(rq)
  {
    ChainTail(procs, rq);
    SlotsAt(rq, 0);
    assert rq[0] in rq;
    hide Chain, Slots;
    ChainKept(procs, rq[1..], rq[0], procs[rq[0]].(next := NONE));
    ChainKept(procs, sq, rq[0], procs[rq[0]].(next := NONE));
  }

  lemma ListsUnlink(procs: seq<Proc>, rq: seq<int>, sq: seq<int>, n: nat)
    requires Lists(procs, rq, sq) && n < |sq|
    ensures |procs| == SLOTS && 0 <= sq[n] < SLOTS && procs[sq[n]].next == After(sq, n)
    ensures n == 0 ==> Lists(procs, rq, Without(sq, n)) && Head(Without(sq, n)) == After(sq, n)
    ensures n > 0 ==>
      && 0 <= sq[n - 1] < SLOTS && Head(Without(sq, n)) == Head(sq)
      && Lists(procs[sq[n - 1] := procs[sq[n - 1]].(next := After(sq, n))], rq, Without(sq, n))
  {
    ChainWithout(procs, sq, n);
    SlotsAt(sq, n);
    if n > 0 { assert sq[n - 1] in sq; }
    forall x | x in rq ensures x !in Without(sq, n) {
      assert sq[n] in sq;
      WithoutHas(sq, n, x);
    }
    hide Chain, Slots;
    if n > 0 { ChainKept(procs, rq, sq[n - 1], procs[sq[n - 1]].(next := After(sq, n))); }
  }

  lemma ListsInsert(procs: seq<Proc>, rq: seq<int>, sq: seq<int>, n: nat, i: int)
    requires Lists(procs, rq, sq) && n <= |sq| && 0 <= i < SLOTS && i !in rq && i !in sq
    ensures |procs| == SLOTS
    ensures var ps := procs[i := procs[i].(next := if n < |sq| then sq[n] else NONE)];
      if n == 0 then Lists(ps, rq, With(sq, n, i)) && Head(With(sq, n, i)) == i
      else
        && 0 <= sq[n - 1] < SLOTS && Head(With(sq, n, i)) == Head(sq)
        && Lists(ps[sq[n - 1] := ps[sq[n - 1]].(next := i)], rq, With(sq, n, i))
  {
    ChainWith(procs, sq, n, i);
    if n > 0 { SlotsAt(sq, n - 1); assert sq[n - 1] in sq; }
    forall x | x in rq ensures x !in With(sq, n, i) { WithHas(sq, n, i, x); }
    hide Chain, Slots;
    var ps := procs[i := procs[i].(next := if n < |sq| then sq[n] else NONE)];
    ChainKept(procs, rq, i, ps[i]);
    if n > 0 { ChainKept(ps, rq, sq[n - 1], ps[sq[n - 1]].(next := i)); }
  }

  /** Links are not part of the table's information. */
  lemma InfoNext(procs: seq<Proc>, info: seq<Proc>, i: int, n: int)
    requires InfoIs(procs, info) && 0 <= i < SLOTS
    ensures |procs| == |info| == SLOTS && InfoIs(procs[i := procs[i].(next := n)], info)
    ensures procs[i].(next := NONE) == info[i]
  {
  }

  lemma InfoSet(procs: seq<Proc>, info: seq<Proc>, i: int, p: Proc)
    requires InfoIs(procs, info) && 0 <= i < SLOTS
    ensures |procs| == |info| == SLOTS && InfoIs(procs[i := p], info[i := p.(next := NONE)])
    ensures procs[i].(next := NONE) == info[i]
  {
  }

  /** A running process is in neither queue. */
  lemma CurrentFree(s: Sys)
    requires Inv(s)
    ensures 0 <= s.current < SLOTS && |s.info| == SLOTS
    ensures s.info[s.current].state == Running && s.info[s.current].pid != 0 ==>
      s.current !in s.ready && s.current !in s.sleep
    ensures UserRuns(s) ==> s.info[s.current].pid != 0
  {
    if s.current != 0 { assert OneRole(s, s.current); }
  }

  /** An unused slot is in neither queue. */
  lemma CreatedFree(s: Sys)
    requires Inv(s)
    ensures var i := FirstUnused(s.info, 0); i < SLOTS ==> i !in s.ready && i !in s.sleep
  {
    var i := FirstUnused(s.info, 0);
    if i < SLOTS && i != 0 { assert OneRole(s, i); }
  }

  lemma TableSize(s: Sys)
    requires Inv(s)
    ensures |s.info| == SLOTS
  {
  }

  lemma ParkedFree(s: Sys)
    requires Parking(s)
    ensures s.current !in s.ready && s.current !in s.sleep && 0 <= s.current < SLOTS
  {
    assert OneRole(s, s.current);
  }

  /** The successor of element `n` takes its place when it is unlinked. */
  lemma AfterWithout(q: seq<int>, n: nat)
    requires Slots(q) && n < |q|
    ensures After(q, n) == if n < |Without(q, n)| then Without(q, n)[n] else NONE
    ensures After(q, n) == NONE ==> n == |Without(q, n)|
  {
    if n + 1 < |q| { SlotsAt(q, n + 1); }
  }

  function Woken(p: Proc): Proc { p.(state := Ready, sleepUntil := 0) }

  function Started(p: Proc, again: bool): Proc {
    p.(state := Running, ticksLeft := if again then p.ticksLeft else SLICE)
  }

  lemma RowsAgree(p: Proc, q: Proc, again: bool)
    requires p.(next := NONE) == q
    ensures Woken(p).(next := NONE) == Woken(q) && Started(p, again).(next := NONE) == Started(q, again)
    ensures Started(p, again).next == p.next && Woken(p).state == Ready
    ensures p.pid == q.pid && p.state == q.state
  {
  }

  lemma WakeOneIs(s: Sys, n: nat)
    requires |s.info| == SLOTS && Slots(s.sleep) && n < |s.sleep|
    ensures var i := s.sleep[n];
      WakeOne(s, n) == Sys(s.info[i := Woken(s.info[i])], s.ready + [i], Without(s.sleep, n), s.current, s.now,
                           s.nextPid)
  {
  }

  lemma DispatchIs(s: Sys)
    requires Inv(s)
    ensures var next := if s.ready == [] then 0 else s.ready[0];
      Dispatch(s) == Sys(s.info[next := Started(s.info[next], next == s.current)],
                         if s.ready == [] then [] else s.ready[1..], s.sleep, next, s.now, s.nextPid)
  {
  }

  /** A sleeper is not ready. */
  lemma SleeperFree(s: Sys, n: nat)
    requires Inv(s) && n < |s.sleep|
    ensures s.sleep[n] !in s.ready && s.sleep[n] !in Without(s.sleep, n) && 0 <= s.sleep[n] < SLOTS
  {
    SlotsWithout(s.sleep, n);
    assert s.sleep[n] in s.sleep;
    assert OneRole(s, s.sleep[n]);
  }

  function BootTable(): (t: seq<Proc>)
    ensures |t| == SLOTS && t[0] == EMPTY.(state := Running, ticksLeft := SLICE)
    ensures forall i :: 0 < i < SLOTS ==> t[i] == EMPTY
  {
    [EMPTY.(state := Running, ticksLeft := SLICE)] + seq(SLOTS - 1, _ => EMPTY)
  }

  /** Only idle exists: it is current and alone in the ready queue. */
  ghost function Boot(): Sys { Sys(BootTable(), [0], [], 0, 0, 1) }

  lemma BootInv()
    ensures Inv(Boot())
  {
    hide BootTable;
    forall i | 0 < i < SLOTS ensures OneRole(Boot(), i) { }
  }

  class Scheduler {
    var procs: seq<Proc>
    var current: int
    var readyHead: int
    var readyTail: int
    var sleepHead: int
    var nextPid: nat
    var needResched: bool
    var ticks: nat
    ghost var sys: Sys

    ghost predicate Linked(rq: seq<int>, sq: seq<int>)
      reads this`procs, this`readyHead, this`readyTail, this`sleepHead
    {
      Lists(procs, rq, sq) && readyHead == Head(rq) && readyTail == Last(rq) && sleepHead == Head(sq)
    }

    ghost predicate Matches(t: Sys)
      reads this`procs, this`readyHead, this`readyTail, this`sleepHead, this`current, this`nextPid, this`ticks
    {
      && InfoIs(procs, t.info) && Linked(t.ready, t.sleep)
      && current == t.current && nextPid == t.nextPid && ticks == t.now
    }

    ghost predicate Valid()
      reads this
    {
      Inv(sys) && Matches(sys)
    }

    /** Only the idle process exists: it is current and alone in the ready queue. */
    constructor ()
      ensures Valid() && sys == Boot()
      ensures sys.current == 0 && sys.ready == [0] && sys.sleep == [] && sys.now == 0 && sys.nextPid == 1
      ensures forall i :: 0 <= i < SLOTS ==> sys.info[i].state == if i == 0 then Running else Unused
    {
      BootInv();
      procs := BootTable();
      current, readyHead, readyTail, sleepHead := 0, 0, 0, NONE;
      nextPid, needResched, ticks := 1, false, 0;
      sys := Boot();
    }

    /** Appends a READY slot that is in neither queue; any other slot is left alone. */
    method EnqueueReady(p: int, ghost rq: seq<int>, ghost sq: seq<int>, ghost info: seq<Proc>)
      requires Linked(rq, sq) && 0 <= p < SLOTS && InfoIs(procs, info)
      requires info[p].state == Ready ==> p !in rq && p !in sq
      modifies this`procs, this`readyHead, this`readyTail
      ensures InfoIs(procs, info)
      ensures Linked(if info[p].state == Ready then rq + [p] else rq, sq)
    {
      hide Lists, InfoIs;
      InfoNext(procs, info, p, NONE);
      if procs[p].state != Ready {
        return;
      }
      ListsFacts(procs, rq, sq);
      ListsAppend(procs, rq, sq, p);
      procs := procs[p := procs[p].(next := NONE)];
      if readyHead == NONE {
        readyHead, readyTail := p, p;
      } else {
        InfoNext(procs, info, readyTail, p);
        procs := procs[readyTail := procs[readyTail].(next := p)];
        readyTail := p;
      }
    }

    /** Takes the head of the ready queue, or returns NONE. */
    method DequeueReady(ghost rq: seq<int>, ghost sq: seq<int>, ghost info: seq<Proc>) returns (p: int)
      requires Linked(rq, sq) && InfoIs(procs, info)
      modifies this`procs, this`readyHead, this`readyTail
      ensures InfoIs(procs, info) && p == Head(rq)
      ensures Linked(if rq == [] then [] else rq[1..], sq)
    {
      hide Lists, InfoIs;
      ListsFacts(procs, rq, sq);
      p := readyHead;
      if p != NONE {
        ListsPop(procs, rq, sq);
        InfoNext(procs, info, p, NONE);
        readyHead := procs[p].next;
        procs := procs[p := procs[p].(next := NONE)];
        ListsFacts(procs, rq[1..], sq);
        if readyHead == NONE {
          readyTail := NONE;
        }
      }
    }

    /** Wakes expired sleepers, requeues the running process and dispatches the next one. */
    method DoSwitch()
      requires Valid()
      modifies this
      ensures Valid() && sys == Step(old(sys), Switch) && !needResched
    {
      StepKeeps(sys, Switch);
      SwitchTo(Switched(sys));
      sys := Switched(sys);
    }

    method SwitchTo(ghost t: Sys)
      requires Valid() && t == Switched(sys)
      modifies this`procs, this`readyHead, this`readyTail, this`sleepHead, this`current, this`needResched
      ensures Matches(t) && !needResched
    {
      hide Inv, Lists, InfoIs, WakeFrom, Requeue, Dispatch;
      ghost var s1 := WakeSleepers();
      RequeueKeeps(s1);
      RequeueCurrent(s1);
      DispatchStep(Requeue(s1), t);
    }

    method RequeueCurrent(ghost s: Sys)
      requires Inv(s) && Matches(s)
      modifies this`procs, this`readyHead, this`readyTail
      ensures Matches(Requeue(s))
    {
      CurrentFree(s);
      hide Inv, Lists, InfoIs;
      InfoNext(procs, s.info, current, NONE);
      if procs[current].state == Running && procs[current].pid != 0 {
        MakeReady(current, procs[current].(state := Ready), s.ready, s.sleep, s.info);
      }
    }

    method PickNext(ghost rq: seq<int>, ghost sq: seq<int>, ghost info: seq<Proc>) returns (next: int)
      requires Linked(rq, sq) && InfoIs(procs, info)
      modifies this`procs, this`readyHead, this`readyTail
      ensures InfoIs(procs, info) && Linked(if rq == [] then [] else rq[1..], sq)
      ensures 0 <= next < SLOTS && next == if rq == [] then 0 else rq[0]
    {
      hide Lists, InfoIs;
      ListsFacts(procs, rq, sq);
      next := DequeueReady(rq, sq, info);
      if next == NONE {
        next := 0;
      }
    }

    method DispatchNext(ghost s: Sys, ghost next': int, ghost rest: seq<int>)
      requires InfoIs(procs, s.info) && Linked(s.ready, s.sleep) && current == s.current
      requires next' == (if s.ready == [] then 0 else s.ready[0]) && rest == if s.ready == [] then [] else s.ready[1..]
      modifies this`procs, this`readyHead, this`readyTail, this`current, this`needResched
      ensures 0 <= next' < |s.info| && InfoIs(procs, s.info[next' := Started(s.info[next'], next' == s.current)])
      ensures Linked(rest, s.sleep) && current == next' && !needResched
    {
      hide Lists, InfoIs, Started;
      var next := PickNext(s.ready, s.sleep, s.info);
      InfoNext(procs, s.info, next, NONE);
      RowsAgree(procs[next], s.info[next], next == current);
      SetSlot(next, Started(procs[next], next == current), rest, s.sleep, s.info);
      needResched := false;
      current := next;
    }

    /** Runs the head of the ready queue, or idle. */
    method DispatchStep(ghost s: Sys, ghost u: Sys)
      requires Inv(s) && Matches(s) && u == Dispatch(s)
      modifies this`procs, this`readyHead, this`readyTail, this`current, this`needResched
      ensures Matches(u) && !needResched
    {
      DispatchIs(s);
      DispatchNext(s, u.current, u.ready);
    }

    /** Changes a slot but not its link. */
    method SetSlot(i: int, p: Proc, ghost rq: seq<int>, ghost sq: seq<int>, ghost info: seq<Proc>)
      requires Linked(rq, sq) && InfoIs(procs, info) && 0 <= i < SLOTS && p.next == procs[i].next
      modifies this`procs
      ensures InfoIs(procs, info[i := p.(next := NONE)]) && Linked(rq, sq)
    {
      hide Lists, InfoIs;
      ListsSet(procs, rq, sq, i, p);
      InfoSet(procs, info, i, p);
      procs := procs[i := p];
    }

    /** Makes a slot READY with the given contents and queues it. */
    method MakeReady(i: int, p: Proc, ghost rq: seq<int>, ghost sq: seq<int>, ghost info: seq<Proc>)
      requires Linked(rq, sq) && InfoIs(procs, info) && 0 <= i < SLOTS && i !in rq && i !in sq && p.state == Ready
      modifies this`procs, this`readyHead, this`readyTail
      ensures InfoIs(procs, info[i := p.(next := NONE)]) && Linked(rq + [i], sq)
    {
      hide Lists, InfoIs;
      ListsSet(procs, rq, sq, i, p);
      InfoSet(procs, info, i, p);
      procs := procs[i := p];
      EnqueueReady(i, rq, sq, info[i := p.(next := NONE)]);
    }

    /** The loop over the sleep queue. */
    method WakeSleepers() returns (ghost t: Sys)
      requires Valid()
      modifies this`procs, this`readyHead, this`readyTail, this`sleepHead
      ensures t == WakeFrom(sys, 0) && Inv(t) && Matches(t)
    {
      hide Lists, InfoIs;
      t := sys;
      var sp, prev := sleepHead, NONE;
      ghost var n := 0;
      ListsFacts(procs, t.ready, t.sleep);
      while sp != NONE
        invariant Inv(t) && Matches(t) && n <= |t.sleep| && t.now == sys.now
        invariant sp == (if n < |t.sleep| then t.sleep[n] else NONE) && prev == (if n > 0 then t.sleep[n - 1] else NONE)
        invariant sp == NONE ==> n == |t.sleep|
        invariant WakeFrom(t, n) == WakeFrom(sys, 0)
        decreases |t.sleep| - n
      {
        ListsAt(procs, t.ready, t.sleep, n);
        InfoNext(procs, t.info, sp, NONE);
        if procs[sp].sleepUntil <= ticks {
          WakeOneKeeps(t, n);
          sp := Awaken(sp, prev, t, n, WakeOne(t, n));
          t := WakeOne(t, n);
        } else {
          prev, sp := sp, procs[sp].next;
          n := n + 1;
        }
      }
    }

    /** Moves sleeper number `n` to the ready queue and returns its successor. */
    method Awaken(sp: int, prev: int, ghost t: Sys, ghost n: nat, ghost u: Sys) returns (next: int)
      requires Inv(t) && Matches(t) && n < |t.sleep| && sp == t.sleep[n] && u == WakeOne(t, n)
      requires prev == if n > 0 then t.sleep[n - 1] else NONE
      modifies this`procs, this`readyHead, this`readyTail, this`sleepHead
      ensures InfoIs(procs, u.info) && Linked(u.ready, u.sleep)
      ensures next == if n < |Without(t.sleep, n)| then Without(t.sleep, n)[n] else NONE
      ensures next == NONE ==> n == |Without(t.sleep, n)|
    {
      SleeperFree(t, n);
      AfterWithout(t.sleep, n);
      WakeOneIs(t, n);
      hide Inv, Lists, InfoIs, Without, After, Slots, Head, Last, WakeOne, Woken;
      next := Unlink(sp, prev, t.ready, t.sleep, n, t.info);
      InfoNext(procs, t.info, sp, NONE);
      RowsAgree(procs[sp], t.info[sp], true);
      MakeReady(sp, Woken(procs[sp]), t.ready, Without(t.sleep, n), t.info);
    }

    method Unlink(sp: int, prev: int, ghost rq: seq<int>, ghost sq: seq<int>, ghost n: nat, ghost info: seq<Proc>)
        returns (next: int)
      requires Linked(rq, sq) && InfoIs(procs, info) && n < |sq| && sp == sq[n]
      requires prev == if n > 0 then sq[n - 1] else NONE
      modifies this`procs, this`sleepHead
      ensures Linked(rq, Without(sq, n)) && InfoIs(procs, info) && next == After(sq, n)
    {
      hide Lists, InfoIs, Without, After;
      ListsUnlink(procs, rq, sq, n);
      next := procs[sp].next;
      if prev != NONE {
        InfoNext(procs, info, prev, next);
        procs := procs[prev := procs[prev].(next := next)];
      } else {
        sleepHead := next;
      }
    }

    /** Changes one slot, but neither its link nor a queue. */
    method Become(i: int, p: Proc, ghost t: Sys)
      requires Linked(sys.ready, sys.sleep) && InfoIs(procs, sys.info) && Inv(t)
      requires 0 <= i < SLOTS && p.next == procs[i].next
      requires t == sys.(info := t.info, now := ticks) && t.info == sys.info[i := p.(next := NONE)]
      requires current == sys.current && nextPid == sys.nextPid
      modifies this`procs, this`sys
      ensures Valid() && sys == t
    {
      hide Inv, Lists, InfoIs;
      SetSlot(i, p, sys.ready, sys.sleep, sys.info);
      sys := t;
    }

    method ExitWith(code: int)
      requires Valid() && UserRuns(sys)
      modifies this
      ensures Valid() && sys == Step(old(sys), Exit(code))
    {
      StepKeeps(sys, Exit(code));
      Become(current, procs[current].(state := Zombie, exitCode := code), Exited(sys, code));
    }

    method BlockCurrent(channel: nat)
      requires Valid() && UserRuns(sys)
      modifies this
      ensures Valid() && sys == Step(old(sys), BlockOn(channel))
    {
      StepKeeps(sys, BlockOn(channel));
      Become(current, procs[current].(state := Blocked, waitingFor := channel), BlockedOn(sys, channel));
    }

    /** Readies every process blocked on the channel, in slot order. */
    method WakeChannel(channel: nat)
      requires Valid()
      modifies this
      ensures Valid() && sys == Step(old(sys), Wakeup(channel))
      ensures needResched <==> old(needResched) || exists i :: 0 <= i < SLOTS && Waits(old(sys).info[i], channel)
    {
      hide Inv, Lists, InfoIs;
      ghost var s := sys;
      TableSize(s);
      var i := 0;
      while i < SLOTS
        invariant 0 <= i <= SLOTS && |sys.info| == |s.info| == SLOTS && Valid()
        invariant WokenFrom(sys, channel, i) == WokenFrom(s, channel, 0)
        invariant forall k :: i <= k < SLOTS ==> sys.info[k] == s.info[k]
        invariant needResched <==> old(needResched) || exists k :: 0 <= k < i && Waits(s.info[k], channel)
      {
        var woke := WakeSlot(i, channel);
        needResched := needResched || woke;
        i := i + 1;
      }
    }

    /** Readies one slot if it waits for the channel. */
    method WakeSlot(i: nat, channel: nat) returns (woke: bool)
      requires Valid() && i < SLOTS && |sys.info| == SLOTS
      modifies this`procs, this`readyHead, this`readyTail, this`sys
      ensures Valid() && |sys.info| == SLOTS && woke == Waits(old(sys).info[i], channel)
      ensures sys == if woke then Unblocked(old(sys), i) else old(sys)
    {
      hide Inv, Lists, InfoIs;
      InfoNext(procs, sys.info, i, NONE);
      woke := Waits(procs[i], channel);
      if woke {
        Unblock(i);
      }
    }

    method Unblock(i: nat)
      requires Valid() && i < SLOTS && |sys.info| == SLOTS && sys.info[i].state == Blocked
      modifies this`procs, this`readyHead, this`readyTail, this`sys
      ensures Valid() && sys == Unblocked(old(sys), i)
    {
      UnblockedKeeps(sys, i);
      InfoNext(procs, sys.info, i, NONE);
      hide Inv, Lists, InfoIs;
      MakeReady(i, procs[i].(state := Ready, waitingFor := 0), sys.ready, sys.sleep, sys.info);
      sys := Unblocked(sys, i);
    }

    method FindZombie(pid: nat) returns (i: nat)
      requires Valid()
      ensures i == FirstZombie(sys.info, pid, 0)
    {
      hide Lists;
      i := 0;
      while i < SLOTS && !Reapable(procs[i], pid)
        invariant i <= SLOTS && FirstZombie(sys.info, pid, i) == FirstZombie(sys.info, pid, 0)
      {
        InfoNext(procs, sys.info, i, NONE);
        i := i + 1;
      }
      if i < SLOTS { InfoNext(procs, sys.info, i, NONE); }
    }

    /** Releases the first zombie with this pid and returns its exit code. */
    method ReapZombie(pid: nat) returns (found: bool, status: int)
      requires Valid() && CurrentRuns(sys)
      modifies this`procs, this`sys
      ensures Valid() && sys == Step(old(sys), Reap(pid))
      ensures found <==> FirstZombie(old(sys).info, pid, 0) < SLOTS
      ensures found ==> status == old(sys).info[FirstZombie(old(sys).info, pid, 0)].exitCode
    {
      StepKeeps(sys, Reap(pid));
      hide Inv, Lists, InfoIs, FirstZombie;
      found, status := false, 0;
      var i := FindZombie(pid);
      if i < SLOTS {
        InfoNext(procs, sys.info, i, NONE);
        found, status := true, procs[i].exitCode;
        Become(i, procs[i].(state := Unused), Reaped(sys, pid));
      }
    }

    method FindUnused() returns (i: nat)
      requires Valid()
      ensures i == FirstUnused(sys.info, 0)
    {
      hide Lists;
      i := 0;
      while i < SLOTS && procs[i].state != Unused
        invariant i <= SLOTS && FirstUnused(sys.info, i) == FirstUnused(sys.info, 0)
      {
        InfoNext(procs, sys.info, i, NONE);
        i := i + 1;
      }
      if i < SLOTS { InfoNext(procs, sys.info, i, NONE); }
    }

    /** Creates a thread in the first unused slot; `stack` says whether a kernel stack was found. */
    method CreateThread(stack: bool) returns (pid: int)
      requires Valid()
      modifies this
      ensures Valid() && sys == Step(old(sys), Create(stack))
      ensures pid == if stack && FirstUnused(old(sys).info, 0) < SLOTS then old(sys).nextPid else -1
    {
      StepKeeps(sys, Create(stack));
      CreatedFree(sys);
      var i := FindUnused();
      if i == SLOTS {
        return -1;
      }
      pid := AddThread(i, stack, Created(sys, stack));
    }

    method AddThread(i: nat, stack: bool, ghost t: Sys) returns (pid: int)
      requires Valid() && Inv(t) && i < SLOTS && i !in sys.ready && i !in sys.sleep
      requires t == sys.(info := t.info, ready := t.ready, nextPid := NextPid(nextPid))
      requires t.ready == if stack then sys.ready + [i] else sys.ready
      requires t.info == sys.info[i := Proc(nextPid, sys.info[current].pid, if stack then Ready else Unused, SLICE, 0,
                                            0, 0, NONE)]
      modifies this
      ensures Valid() && sys == t && pid == if stack then old(nextPid) else -1
    {
      hide Inv, Lists, InfoIs;
      var p := NewProc(stack);
      Place(i, p, sys.ready, sys.sleep, sys.info);
      sys := t;
      pid := if stack then p.pid else -1;
    }

    /** The contents of a new slot; takes a pid. */
    method NewProc(stack: bool) returns (p: Proc)
      requires Valid()
      modifies this`nextPid
      ensures p == Proc(old(nextPid), sys.info[current].pid, if stack then Ready else Unused, SLICE, 0, 0, 0, NONE)
      ensures nextPid == NextPid(old(nextPid))
    {
      hide Inv, Lists, InfoIs;
      CurrentFree(sys);
      InfoNext(procs, sys.info, current, NONE);
      p := Proc(nextPid, procs[current].pid, if stack then Ready else Unused, SLICE, 0, 0, 0, NONE);
      nextPid := if nextPid + 1 >= MAX_PID then 1 else nextPid + 1;
    }

    /** Fills a slot that is in neither queue and queues it if it is READY. */
    method Place(i: int, p: Proc, ghost rq: seq<int>, ghost sq: seq<int>, ghost info: seq<Proc>)
      requires Linked(rq, sq) && InfoIs(procs, info) && 0 <= i < SLOTS && i !in rq && i !in sq && p.next == NONE
      modifies this`procs, this`readyHead, this`readyTail
      ensures InfoIs(procs, info[i := p]) && Linked(if p.state == Ready then rq + [i] else rq, sq)
    {
      hide Lists, InfoIs;
      ListsSet(procs, rq, sq, i, p);
      InfoSet(procs, info, i, p);
      procs := procs[i := p];
      EnqueueReady(i, rq, sq, info[i := p]);
    }

    /** The first half of sched_sleep, with interrupts enabled. */
    method MarkSleeping(ms: nat)
      requires Valid() && UserRuns(sys)
      modifies this
      ensures Valid() && sys == Step(old(sys), Mark(ms))
    {
      StepKeeps(sys, Mark(ms));
      Become(current, procs[current].(state := Parked, sleepUntil := (ticks + SleepTicks(ms)) % TWO_32),
             Marked(sys, ms));
    }

    /** The second half: the current process goes behind every sleeper with an earlier or equal deadline. */
    method QueueSleeper()
      requires Valid() && Parking(sys)
      modifies this
      ensures Valid() && sys == Step(old(sys), Queue)
    {
      QueuedKeeps(sys);
      ParkedFree(sys);
      hide Inv, Lists, InfoIs, SleepPos, With;
      ghost var t := Queued(sys);
      InfoNext(procs, sys.info, current, NONE);
      QueueCurrent(procs[current].sleepUntil, t);
      sys := t;
    }

    /** Both halves, as a caller that keeps interrupts off gets them. */
    method SleepFor(ms: nat)
      requires Valid() && UserRuns(sys)
      modifies this
      ensures Valid() && UserRuns(old(sys)) && Parking(Marked(old(sys), ms)) && sys == Queued(Marked(old(sys), ms))
    {
      MarkedKeeps(sys, ms);
      MarkSleeping(ms);
      QueueSleeper();
    }

    method QueueCurrent(until: nat, ghost t: Sys)
      requires Valid() && Parking(sys) && current !in sys.ready && current !in sys.sleep
      requires t.info == sys.info[current := sys.info[current].(state := Sleeping)]
      modifies this`procs, this`sleepHead
      ensures InfoIs(procs, t.info)
      ensures Linked(sys.ready, With(sys.sleep, SleepPos(sys.info, sys.sleep, until, 0), current))
    {
      CurrentFree(sys);
      hide Inv, Lists, InfoIs, SleepPos, With;
      var prev, at, n := FindPlace(until);
      InfoNext(procs, sys.info, current, NONE);
      SetSlot(current, procs[current].(state := Sleeping), sys.ready, sys.sleep, sys.info);
      Insert(prev, at, sys.ready, sys.sleep, n, t.info);
    }

    method FindPlace(until: nat) returns (prev: int, at: int, ghost n: nat)
      requires Valid()
      ensures n == SleepPos(sys.info, sys.sleep, until, 0)
      ensures prev == (if n > 0 then sys.sleep[n - 1] else NONE)
      ensures at == (if n < |sys.sleep| then sys.sleep[n] else NONE)
    {
      hide Lists, InfoIs;
      prev, at, n := NONE, sleepHead, 0;
      ListsFacts(procs, sys.ready, sys.sleep);
      while at != NONE && procs[at].sleepUntil <= until
        invariant n <= |sys.sleep| && SleepPos(sys.info, sys.sleep, until, n) == SleepPos(sys.info, sys.sleep, until, 0)
        invariant prev == (if n > 0 then sys.sleep[n - 1] else NONE)
        invariant at == (if n < |sys.sleep| then sys.sleep[n] else NONE) && (at == NONE ==> n == |sys.sleep|)
        invariant at != NONE ==> 0 <= at < |procs|
        decreases |sys.sleep| - n
      {
        ListsAt(procs, sys.ready, sys.sleep, n);
        InfoNext(procs, sys.info, at, NONE);
        prev, at, n := at, procs[at].next, n + 1;
      }
      if at != NONE {
        InfoNext(procs, sys.info, at, NONE);
      }
    }

    /** Links the current slot in front of `at`. */
    method Insert(prev: int, at: int, ghost rq: seq<int>, ghost sq: seq<int>, ghost n: nat, ghost info: seq<Proc>)
      requires Linked(rq, sq) && InfoIs(procs, info) && 0 <= current < SLOTS && current !in rq && current !in sq
      requires n <= |sq| && at == (if n < |sq| then sq[n] else NONE) && prev == (if n > 0 then sq[n - 1] else NONE)
      modifies this`procs, this`sleepHead
      ensures InfoIs(procs, info) && Linked(rq, With(sq, n, current))
    {
      hide Lists, InfoIs, With;
      ListsInsert(procs, rq, sq, n, current);
      InfoNext(procs, info, current, at);
      procs := procs[current := procs[current].(next := at)];
      if prev != NONE {
        InfoNext(procs, info, prev, current);
        procs := procs[prev := procs[prev].(next := current)];
      } else {
        sleepHead := current;
      }
    }

    /** One timer interrupt. A switch is asked for when the slice ends or a sleeper is due. */
    method TimerTick()
      requires Valid()
      modifies this
      ensures Valid() && sys == Step(old(sys), Tick)
      ensures needResched <==>
        || old(needResched)
        || (old(sys).info[old(sys).current].state == Running && old(sys).info[old(sys).current].ticksLeft <= 1)
        || exists k :: 0 <= k < |sys.sleep| && sys.info[sys.sleep[k]].sleepUntil <= sys.now
    {
      StepKeeps(sys, Tick);
      CurrentFree(sys);
      ghost var t := Ticked(sys);
      ticks := (ticks + 1) % TWO_32;
      InfoNext(procs, sys.info, current, NONE);
      var p := procs[current];
      var left := if p.ticksLeft > 0 then p.ticksLeft - 1 else 0;
      if left == 0 && p.state == Running {
        left := SLICE;
        needResched := true;
      }
      Become(current, p.(ticksLeft := left), t);
      var due := AnyDue();
      needResched := needResched || due;
    }

    /** Whether the sleep queue holds an expired deadline. */
    method AnyDue() returns (due: bool)
      requires Valid()
      ensures due <==> exists k :: 0 <= k < |sys.sleep| && sys.info[sys.sleep[k]].sleepUntil <= sys.now
    {
      hide Lists, InfoIs;
      var sp := sleepHead;
      ghost var n := 0;
      ListsFacts(procs, sys.ready, sys.sleep);
      while sp != NONE
        invariant n <= |sys.sleep| && sp == (if n < |sys.sleep| then sys.sleep[n]
                                             else NONE) && (sp == NONE ==> n == |sys.sleep|)
        invariant forall k :: 0 <= k < n ==> sys.info[sys.sleep[k]].sleepUntil > sys.now
        decreases |sys.sleep| - n
      {
        ListsAt(procs, sys.ready, sys.sleep, n);
        InfoNext(procs, sys.info, sp, NONE);
        if procs[sp].sleepUntil <= ticks {
          return true;
        }
        sp, n := procs[sp].next, n + 1;
      }
      return false;
    }
  }
}
