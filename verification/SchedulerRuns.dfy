/** What becomes of the threads of a run: killed, exited, forked and requeued ones, and sleepers by the clock. */
module SchedulerRuns {
  import opened Options
  import opened RunQueue
  import opened Scheduler

  // ---------------------------------------------------------------- the clock

  /** The timer interrupts in the steps from index `a` up to `b`. */
  function Ticks(es: seq<Event>, a: nat, b: nat): nat
    requires a <= b <= |es|
    decreases b
  {
    if a == b then 0 else Ticks(es, a, b - 1) + (if es[b - 1].Tick? then 1 else 0)
  }

  /** A step of a run, by itself. */
  ghost predicate Goes(s: State, e: Event, t: State) {
    Inv(s) && Possible(s, e) && Step(s, e) == Some(t) && Inv(t)
  }

  lemma StepGoes(ss: seq<State>, es: seq<Event>, i: nat)
    requires Run(ss, es) && Inv(ss[0]) && i < |es|
    ensures Goes(ss[i], es[i], ss[i + 1])
  {
    RunInv(ss, es, i);
    assert StepAt(ss, es, i);
    StepInv(ss[i], es[i]);
  }

  lemma PickTicks(p: State)
    ensures Pick(p).Some? ==> Pick(p).value.ticks == p.ticks && Pick(p).value.gone == p.gone
  {
  }

  lemma PrepareTicks(s: State, e: Event)
    ensures Prepare(s, e).ticks == if e.Tick? then (s.ticks + 1) % 65536 else s.ticks
  {
  }

  lemma StepTicks(s: State, e: Event, t: State)
    requires Step(s, e) == Some(t)
    ensures t.ticks == if e.Tick? then (s.ticks + 1) % 65536 else s.ticks
  {
    PrepareTicks(s, e);
    PickTicks(Prepare(s, e));
  }

  lemma AddTick(x: nat)
    ensures (x % 65536 + 1) % 65536 == (x + 1) % 65536
  {
  }

  lemma TicksInRange(ss: seq<State>, es: seq<Event>, a: nat)
    requires Run(ss, es) && Inv(ss[0]) && a <= |es|
    ensures ss[a].ticks < 65536
  {
    RunInv(ss, es, a);
  }

  lemma TickAt(ss: seq<State>, es: seq<Event>, i: nat)
    requires Run(ss, es) && Inv(ss[0]) && i < |es|
    ensures ss[i + 1].ticks == if es[i].Tick? then (ss[i].ticks + 1) % 65536 else ss[i].ticks
  {
    StepGoes(ss, es, i);
    StepTicks(ss[i], es[i], ss[i + 1]);
  }

  /** Every timer interrupt counts, in 16 bits, and nothing else does. */
  lemma {:induction false} RunTicks(ss: seq<State>, es: seq<Event>, a: nat, b: nat)
    requires Run(ss, es) && Inv(ss[0]) && a <= b <= |es|
    ensures ss[b].ticks == (ss[a].ticks + Ticks(es, a, b)) % 65536
    decreases b
  {
    if a == b {
      TicksInRange(ss, es, a);
    } else {
      RunTicks(ss, es, a, b - 1);
      TickAt(ss, es, b - 1);
      AddTick(ss[a].ticks + Ticks(es, a, b - 1));
    }
  }

  /** The second boundaries among the first `x` counts from 0 on: 656 in every round of the counter. */
  function Seconds(x: nat): nat {
    x / 65536 * 656 + x % 65536 / 100
  }

  lemma NextSecond(x: nat)
    ensures Seconds(x + 1) == Seconds(x) + (if (x + 1) % 65536 % 100 == 0 then 1 else 0)
  {
    if (x + 1) % 65536 == 0 {
      assert x % 65536 == 65535 && (x + 1) / 65536 == x / 65536 + 1;
    } else {
      assert (x + 1) % 65536 == x % 65536 + 1 && (x + 1) / 65536 == x / 65536;
    }
  }

  lemma BoundaryAt(s: State, x: nat)
    requires s.ticks == x % 65536
    ensures Seconds(x + 1) == Seconds(x) + (if AtBoundary(s) then 1 else 0)
  {
    AddTick(x);
    NextSecond(x);
  }

  /** How many boundaries a number of timer interrupts brings. */
  lemma {:induction false} RunSeconds(ss: seq<State>, es: seq<Event>, a: nat, b: nat)
    requires Run(ss, es) && Inv(ss[0]) && a <= b <= |es|
    ensures Boundaries(ss, es, a, b) == Seconds(ss[a].ticks + Ticks(es, a, b)) - Seconds(ss[a].ticks)
    decreases b
  {
    if a < b {
      RunSeconds(ss, es, a, b - 1);
      RunTicks(ss, es, a, b - 1);
      OneMore(ss, es, a, b, ss[a].ticks, ss[a].ticks + Ticks(es, a, b - 1));
    }
  }

  lemma OneMore(ss: seq<State>, es: seq<Event>, a: nat, b: nat, t: nat, x: nat)
    requires |ss| == |es| + 1 && a < b <= |es| && x == t + Ticks(es, a, b - 1) && ss[b - 1].ticks == x % 65536
    requires Boundaries(ss, es, a, b - 1) == Seconds(x) - Seconds(t)
    ensures Boundaries(ss, es, a, b) == Seconds(t + Ticks(es, a, b)) - Seconds(t)
  {
    BoundaryAt(ss[b - 1], x);
  }

  lemma NoWrap(x: nat, k: nat)
    requires x % 65536 + k < 65536
    ensures (x + k) % 65536 == x % 65536 + k
  {
  }

  lemma WrapsAt(x: nat, k: nat)
    requires x % 65536 + k == 65536
    ensures (x + k) % 65536 == 0
  {
  }

  /** Boundaries are 100 interrupts apart, except that the one at which the counter wraps comes after 36. */
  lemma SecondLength(x: nat, k: nat)
    requires x % 65536 % 100 == 0
    ensures var n := if x % 65536 == 65500 then 36 else 100;
            && (x + n) % 65536 % 100 == 0
            && (0 < k < n ==> (x + k) % 65536 % 100 != 0)
  {
    if x % 65536 == 65500 {
      WrapsAt(x, 36);
      if k < 36 {
        NoWrap(x, k);
      }
    } else {
      NoWrap(x, 100);
      if k < 100 {
        NoWrap(x, k);
      }
    }
  }

  /** The boundaries since the call of sleep at index `a`, by the clock. */
  function Elapsed(ss: seq<State>, es: seq<Event>, a: nat, b: nat): int
    requires |ss| == |es| + 1 && a < b <= |es|
  {
    Seconds(ss[a].ticks + Ticks(es, a + 1, b)) - Seconds(ss[a].ticks)
  }

  lemma ElapsedIs(ss: seq<State>, es: seq<Event>, a: nat, b: nat)
    requires Run(ss, es) && Inv(ss[0]) && a < b <= |es| && es[a].Sleep?
    ensures Boundaries(ss, es, a + 1, b) == Elapsed(ss, es, a, b)
  {
    TickAt(ss, es, a);
    RunSeconds(ss, es, a + 1, b);
  }

  /** A thread that calls sleep(n) with a positive stored counter is skipped until timer interrupts have brought that
      many boundaries since, and is awake after the interrupt that brings the last one. */
  lemma SleepByClock(ss: seq<State>, es: seq<Event>, a: nat, b: nat, n: nat)
    requires Run(ss, es) && Inv(ss[0]) && a < b <= |es| && es[a] == Sleep(n) && Int32(n) > 0
    ensures Elapsed(ss, es, a, b) < Int32(n) ==> Asleep(ss[b], ss[a].current, Int32(n) - Elapsed(ss, es, a, b))
    ensures a + 1 < b && Elapsed(ss, es, a, b - 1) < Int32(n) == Elapsed(ss, es, a, b) ==> Awake(ss[b], ss[a].current)
  {
    ElapsedIs(ss, es, a, b);
    if a + 1 < b {
      ElapsedIs(ss, es, a, b - 1);
    }
    SleepRun(ss, es, a, b, n);
  }

  // ---------------------------------------------------------------- killed and exited threads

  /** The thread is queued and dead. */
  predicate Dead(s: State, t: nat) {
    t in s.q && t in s.alive && !s.alive[t] && s.current != t
  }

  lemma KillStarts(s: State)
    requires Inv(s) && s.current != s.start
    ensures Step(s, Kill).Some? && Dead(Step(s, Kill).value, s.current)
  {
    var p := Prepare(s, Kill);
    StepInv(s, Kill);
    PrepareLoose(s, Kill);
    UnlinkCurrentSame(s);
    assert p.q[|s.q|] == s.current;
    PickSkips(p, |s.q|);
  }

  lemma DeadStep(s: State, e: Event, u: State, t: nat)
    requires Goes(s, e, u) && Dead(s, t)
    ensures Dead(u, t)
  {
    PrepareSleeper(s, e, t);
    if !e.Spawn? {
      PrepareLoose(s, e);
      PickSleeper(Prepare(s, e), t);
    }
  }

  lemma KillStep(s: State, e: Event, u: State)
    requires Goes(s, e, u) && e.Kill?
    ensures Dead(u, s.current)
  {
    KillStarts(s);
  }

  /** A thread that is killed stays dead, is never dispatched again, and stays in the queue. */
  lemma {:induction false} KilledStaysDead(ss: seq<State>, es: seq<Event>, a: nat, b: nat)
    requires Run(ss, es) && Inv(ss[0]) && a < b <= |es| && es[a] == Kill
    ensures Dead(ss[b], ss[a].current)
    decreases b
  {
    StepGoes(ss, es, b - 1);
    if a == b - 1 {
      KillStep(ss[a], es[a], ss[b]);
    } else {
      KilledStaysDead(ss, es, a, b - 1);
      DeadStep(ss[b - 1], es[b - 1], ss[b], ss[a].current);
    }
  }

  /** The thread has exited: it is neither queued nor running. */
  ghost predicate Exited(s: State, t: nat) {
    t in s.gone && t !in s.q && s.current != t
  }

  lemma ExitedStep(s: State, e: Event, u: State, t: nat)
    requires Goes(s, e, u) && (t in s.gone || (e.Exit? && t == s.current))
    ensures Exited(u, t)
  {
    PickTicks(Prepare(s, e));
  }

  /** A thread that exits is neither queued nor dispatched ever again. */
  lemma {:induction false} ExitedStaysGone(ss: seq<State>, es: seq<Event>, a: nat, b: nat)
    requires Run(ss, es) && Inv(ss[0]) && a < b <= |es| && es[a] == Exit
    ensures Exited(ss[b], ss[a].current)
    decreases b
  {
    StepGoes(ss, es, b - 1);
    if a < b - 1 {
      ExitedStaysGone(ss, es, a, b - 1);
    }
    ExitedStep(ss[b - 1], es[b - 1], ss[b], ss[a].current);
  }

  // ---------------------------------------------------------------- threads that can run

  /** The thread is the last in the queue, or was dispatched at once. */
  predicate Last(s: State, t: nat) {
    Awake(s, t) && (s.current == t || (s.q != [] && s.q[|s.q| - 1] == t))
  }

  /** The pick takes the eligible thread at the end of the queue, or leaves it there. */
  lemma PickLast(p: State)
    requires Loose(p) && p.q != [] && Eligible(p, p.q[|p.q| - 1])
    ensures Pick(p).Some? && Last(Pick(p).value, p.q[|p.q| - 1])
  {
    PickFinds(p);
  }

  /** A timer interrupt, a plain system call, a yield and an exec leave the running thread awake and alive, last in the
      queue unless it goes on at once. */
  lemma RequeuedLast(s: State, e: Event)
    requires Inv(s) && Possible(s, e) && (e.Tick? || e.Syscall? || e.Yield? || e.Exec?)
    ensures Step(s, e).Some? && Last(Step(s, e).value, s.current)
  {
    var p := Prepare(s, e);
    PrepareLoose(s, e);
    assert p.q == s.q + [s.current];
    PickLast(p);
  }

  /** A spawned thread is awake, alive and last in the queue. */
  lemma SpawnStarts(s: State, t: nat)
    requires Inv(s) && Possible(s, Spawn(t))
    ensures Step(s, Spawn(t)).Some? && Last(Step(s, Spawn(t)).value, t) && Step(s, Spawn(t)).value.current == s.current
  {
    StepInv(s, Spawn(t));
  }

  lemma PickBefore(p: State, n: nat)
    requires Loose(p) && n + 2 == |p.q| && Eligible(p, p.q[n]) && Eligible(p, p.q[n + 1])
    ensures Pick(p).Some?
    ensures var t := Pick(p).value;
            && Awake(t, p.q[n]) && Awake(t, p.q[n + 1]) && |t.q| == n + 1 && t.q[n] == p.q[n + 1]
            && (t.current == p.q[n] || (n > 0 && t.q[n - 1] == p.q[n]))
  {
    PickFinds(p);
    WithoutBefore(p.q, n, First(p, 0));
  }

  lemma WithoutBefore(q: seq<nat>, n: nat, i: nat)
    requires n + 2 == |q| && i <= n
    ensures |Without(q, i)| == n + 1 && Without(q, i)[n] == q[n + 1] && (i < n ==> Without(q, i)[n - 1] == q[n])
  {
  }

  /** After a fork both threads are awake and alive; the parent is last in the queue, and the child is dispatched at once
      or queued right before it. */
  lemma ForkStarts(s: State, c: nat)
    requires Inv(s) && Possible(s, Fork(c))
    ensures Step(s, Fork(c)).Some?
    ensures var t := Step(s, Fork(c)).value;
            && Awake(t, c) && Awake(t, s.current) && |t.q| == |s.q| + 1 && t.q[|s.q|] == s.current
            && (t.current == c || (s.q != [] && t.q[|s.q| - 1] == c))
  {
    var p := Prepare(s, Fork(c));
    PrepareLoose(s, Fork(c));
    assert p.q == s.q + [c] + [s.current];
    assert p.q[|s.q|] == c && p.q[|s.q| + 1] == s.current;
    PickBefore(p, |s.q|);
  }

  lemma ForkStep(s: State, e: Event, t: State)
    requires Goes(s, e, t) && e.Fork?
    ensures Awake(t, e.child) && |t.q| == |s.q| + 1 && (t.current == e.child || (s.q != [] && t.q[|s.q| - 1] == e.child))
  {
    ForkStarts(s, e.child);
  }

  /** Every forked child runs: it is dispatched within as many picks after the fork as threads were queued before it. */
  lemma ChildRuns(ss: seq<State>, es: seq<Event>, a: nat, c: nat) returns (i: nat)
    requires Run(ss, es) && Inv(ss[0]) && a < |es| && es[a] == Fork(c)
    requires Picks(es, a + 1, |es|) >= |ss[a].q|
    ensures a < i <= |es| && ss[i].current == c && Picks(es, a + 1, i) <= |ss[a].q|
  {
    ForkAt(ss, es, a, c, |ss[a].q|);
    i := a + 1;
    if ss[a + 1].current != c {
      i := BoundedWaiting(ss, es, a + 1, |ss[a].q| - 1);
    }
  }

  lemma ForkAt(ss: seq<State>, es: seq<Event>, a: nat, c: nat, k: nat)
    requires Run(ss, es) && Inv(ss[0]) && a < |es| && es[a] == Fork(c) && k == |ss[a].q|
    ensures Inv(ss[a + 1])
    ensures ss[a + 1].current == c || (0 < k < |ss[a + 1].q| && ss[a + 1].q[k - 1] == c && Eligible(ss[a + 1], c))
  {
    StepGoes(ss, es, a);
    ForkStep(ss[a], es[a], ss[a + 1]);
  }
}
