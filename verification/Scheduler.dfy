/** The scheduler as a machine whose steps run from one dispatch to the next. */
module Scheduler {
  import opened Options
  import opened RunQueue

  /** The run queue with its links, the fields of every thread that the scheduler looks at, the running thread,
      the Start thread, the 16-bit tick counter, the threads made so far, and those that have exited. */
  datatype State = State(links: Links, q: seq<nat>, sleeping: map<nat, int>, alive: map<nat, bool>,
                         current: nat, start: nat, ticks: nat, made: set<nat>, gone: set<nat>)

  predicate Eligible(s: State, t: nat) {
    t in s.sleeping && s.sleeping[t] == 0 && t in s.alive && s.alive[t]
  }

  // ---------------------------------------------------------------- parts of a step

  /** The index of the first awake and alive thread from index `i` on, or the length of the queue. */
  function First(s: State, i: nat): (r: nat)
    requires i <= |s.q|
    ensures i <= r <= |s.q|
    ensures forall j :: i <= j < r ==> !Eligible(s, s.q[j])
    ensures r < |s.q| ==> Eligible(s, s.q[r])
    decreases |s.q| - i
  {
    if i == |s.q| || Eligible(s, s.q[i]) then i else First(s, i + 1)
  }

  /** next_runnable_kthread and the switch to what it returns; None is the panic. */
  function Pick(s: State): Option<State> {
    var i := First(s, 0);
    if i == |s.q| || s.q[i] !in s.links.prev || s.q[i] !in s.links.next then None
    else Some(s.(links := Unlink(s.links, s.q[i]), q := Without(s.q, i), current := s.q[i]))
  }

  /** runnable_kthread. */
  function Enqueue(s: State, t: nat): State {
    s.(links := Append(s.links, t), q := s.q + [t])
  }

  /** remove_runnable_kthread on the running thread, which is not queued. */
  function UnlinkCurrent(s: State): State {
    if s.current in s.links.prev && s.current in s.links.next then s.(links := Unlink(s.links, s.current)) else s
  }

  /** The sleep countdown at a second boundary. */
  function Countdown(s: State): State {
    s.(sleeping := map t: nat | t in s.sleeping :: if t in s.q && s.sleeping[t] > 0 then s.sleeping[t] - 1 else s.sleeping[t])
  }

  predicate AtBoundary(s: State) {
    (s.ticks + 1) % 65536 % 100 == 0
  }

  /** timer_handler. */
  function TimerHandler(s: State): State {
    var t := s.(ticks := (s.ticks + 1) % 65536);
    if AtBoundary(s) then Countdown(t) else t
  }

  /** The conversion of sleep's 64-bit argument to the int field. */
  function Int32(n: nat): int {
    var m := n % 0x1_0000_0000;
    if m < 0x8000_0000 then m else m - 0x1_0000_0000
  }

  // ---------------------------------------------------------------- steps

  datatype Event =
    | Tick                // timer interrupt
    | Syscall             // a system call or resolved page fault that does nothing else to the scheduler
    | Fork(child: nat)
    | Sleep(n: nat)
    | Exec                // exec of a member of the archive
    | Exit
    | Kill                // a fault that ends the thread
    | Yield               // the Start thread's loop
    | Spawn(t: nat)       // the Start thread makes the first user thread

  /** What the threads do: Start only yields, is preempted and spawns; the others do the rest.  New threads are
      new. */
  predicate Possible(s: State, e: Event) {
    match e
    case Tick => true
    case Yield => s.current == s.start
    case Spawn(t) => s.current == s.start && t != 0 && t !in s.made
    case Fork(t) => s.current != s.start && t != 0 && t !in s.made
    case _ => s.current != s.start
  }

  /** Fork copies the fields of the running thread to the new one. */
  function Copied(s: State, c: nat): State {
    s.(sleeping := s.sleeping[c := if s.current in s.sleeping then s.sleeping[s.current] else 0],
       alive := s.alive[c := if s.current in s.alive then s.alive[s.current] else true],
       made := s.made + {c})
  }

  /** The step up to the pick. */
  function Prepare(s: State, e: Event): State {
    match e
    case Tick => var t := TimerHandler(s); Enqueue(t, t.current)
    case Syscall => Enqueue(s, s.current)
    case Fork(c) => Enqueue(Enqueue(Copied(s, c), c), s.current)
    case Sleep(n) => Enqueue(s.(sleeping := s.sleeping[s.current := Int32(n)]), s.current)
    case Exec => Enqueue(s.(sleeping := s.sleeping[s.current := 0], alive := s.alive[s.current := true]), s.current)
    case Exit => UnlinkCurrent(s).(gone := s.gone + {s.current})
    case Kill =>
      var t := UnlinkCurrent(UnlinkCurrent(s.(alive := s.alive[s.current := false])));
      Enqueue(t, s.current)
    case Yield => Enqueue(s, s.current)
    case Spawn(c) =>
      Enqueue(s.(sleeping := s.sleeping[c := 0], alive := s.alive[c := true], made := s.made + {c}), c)
  }

  function Step(s: State, e: Event): Option<State> {
    if e.Spawn? then Some(Prepare(s, e)) else Pick(Prepare(s, e))
  }

  // ---------------------------------------------------------------- the invariant

  /** What holds between the requeue and the pick: every thread that is not gone is queued exactly once. */
  ghost predicate Loose(s: State) {
    && Queue(s.links, s.q) && Known(s)
    && (forall t {:trigger t in s.q} {:trigger t in s.made} :: t in s.q <==> t in s.made && t !in s.gone)
  }

  ghost predicate Known(s: State) {
    && s.ticks < 65536
    && 0 !in s.made && s.gone <= s.made && s.start in s.made && s.start !in s.gone && Eligible(s, s.start)
    && (forall t {:trigger t in s.sleeping} {:trigger t in s.alive} :: t in s.made ==> t in s.sleeping && t in s.alive)
  }

  /** After every step: every thread that is not gone is either running or queued, exactly once; the running
      thread is awake and alive, and its stale links name queue neighbours unless it is Start. */
  ghost predicate Inv(s: State) {
    && Queue(s.links, s.q) && Known(s) && s.current !in s.q && s.current in s.made && s.current !in s.gone
    && (forall t {:trigger t in s.q} {:trigger t in s.made} :: t in s.q || t == s.current <==> t in s.made && t !in s.gone)
    && Eligible(s, s.current)
    && (s.current != s.start ==> Adjacent(s.links, s.q, s.current))
  }

  /** The pick always finds a thread: at the latest Start. */
  lemma PickFinds(s: State)
    requires Loose(s)
    ensures First(s, 0) < |s.q| && Pick(s).Some? && Inv(Pick(s).value)
  {
    var k: nat :| k < |s.q| && s.q[k] == s.start;
    var i := First(s, 0);
    assert i <= k;
    UnlinkMember(s.links, s.q, i);
    WithoutDistinct(s.q, i);
    assert Between(Unlink(s.links, s.q[i]), Without(s.q, i), s.q[i], i);
  }

  /** Exit and kill unlink a thread that is not queued: nothing happens. */
  lemma UnlinkCurrentSame(s: State)
    requires Inv(s) && s.current != s.start
    ensures UnlinkCurrent(s) == s
  {
    var i: nat :| Between(s.links, s.q, s.current, i);
    UnlinkStaleSame(s.links, s.q, s.current, i);
  }

  lemma InAppend(q: seq<nat>, c: nat)
    ensures forall t {:trigger t in q + [c]} :: t in q + [c] <==> t in q || t == c
  {
  }

  lemma EnqueueCurrent(s: State)
    requires Queue(s.links, s.q) && Known(s) && s.current !in s.q && s.current in s.made && s.current !in s.gone
    requires forall t {:trigger t in s.q} {:trigger t in s.made} :: t in s.q || t == s.current <==> t in s.made && t !in s.gone
    ensures Loose(Enqueue(s, s.current))
  {
    AppendQueue(s.links, s.q, s.current);
  }

  lemma PrepareLoose(s: State, e: Event)
    requires Inv(s) && Possible(s, e) && !e.Spawn?
    ensures Loose(Prepare(s, e))
  {
    match e
    case Tick => EnqueueCurrent(TimerHandler(s));
    case Syscall => EnqueueCurrent(s);
    case Yield => EnqueueCurrent(s);
    case Sleep(n) => EnqueueCurrent(s.(sleeping := s.sleeping[s.current := Int32(n)]));
    case Exec => EnqueueCurrent(s.(sleeping := s.sleeping[s.current := 0], alive := s.alive[s.current := true]));
    case Exit => UnlinkCurrentSame(s);
    case Kill => KillLoose(s);
    case Fork(c) => ForkLoose(s, c);
  }

  lemma KillLoose(s: State)
    requires Inv(s) && s.current != s.start
    ensures Loose(Prepare(s, Kill))
  {
    UnlinkCurrentSame(s);
    var t := s.(alive := s.alive[s.current := false]);
    assert UnlinkCurrent(t) == t;
    EnqueueCurrent(t);
  }

  lemma ForkLoose(s: State, c: nat)
    requires Inv(s) && c != 0 && c !in s.made
    ensures Loose(Prepare(s, Fork(c)))
  {
    AppendQueue(s.links, s.q, c);
    InAppend(s.q, c);
    AppendQueue(Append(s.links, c), s.q + [c], s.current);
    InAppend(s.q + [c], s.current);
  }

  /** Every step succeeds, without the panic, and keeps the invariant. */
  lemma StepInv(s: State, e: Event)
    requires Inv(s) && Possible(s, e)
    ensures Step(s, e).Some? && Inv(Step(s, e).value)
  {
    if e.Spawn? {
      AppendQueue(s.links, s.q, e.t);
      InAppend(s.q, e.t);
    } else {
      PrepareLoose(s, e);
      PickFinds(Prepare(s, e));
    }
  }

  // ---------------------------------------------------------------- runs

  ghost predicate Taken(s: State, e: Event, t: State) {
    Possible(s, e) && Step(s, e) == Some(t)
  }

  ghost predicate Run(ss: seq<State>, es: seq<Event>) {
    |ss| == |es| + 1 && forall i: nat {:trigger StepAt(ss, es, i)} :: i < |es| ==> StepAt(ss, es, i)
  }

  ghost predicate StepAt(ss: seq<State>, es: seq<Event>, i: nat)
    requires |ss| == |es| + 1 && i < |es|
  {
    Taken(ss[i], es[i], ss[i + 1])
  }

  /** The invariant holds throughout every run. */
  lemma {:induction false} RunInv(ss: seq<State>, es: seq<Event>, k: nat)
    requires Run(ss, es) && Inv(ss[0]) && k <= |es|
    ensures Inv(ss[k])
  {
    if k > 0 {
      RunInv(ss, es, k - 1);
      assert StepAt(ss, es, k - 1);
      StepInv(ss[k - 1], es[k - 1]);
    }
  }

  /** No step that is possible in a run panics. */
  lemma RunNeverPanics(ss: seq<State>, es: seq<Event>, k: nat, e: Event)
    requires Run(ss, es) && Inv(ss[0]) && k <= |es| && Possible(ss[k], e)
    ensures Step(ss[k], e).Some?
  {
    RunInv(ss, es, k);
    StepInv(ss[k], e);
  }

  /** scheduler_init: the boot thread starts the Start thread and schedules without queueing itself. */
  lemma BootInv(main: nat, start: nat)
    requires main != 0 && start != 0 && main != start
    ensures var s := State(Links(0, 0, map[], map[]), [], map[main := 0, start := 0], map[main := true, start := true],
                           main, start, 0, {start}, {});
            Pick(Enqueue(s, start)).Some? && Inv(Pick(Enqueue(s, start)).value)
  {
    var s := State(Links(0, 0, map[], map[]), [], map[main := 0, start := 0], map[main := true, start := true],
                   main, start, 0, {start}, {});
    AppendQueue(s.links, s.q, start);
    InAppend(s.q, start);
    PickFinds(Enqueue(s, start));
  }

  // ---------------------------------------------------------------- bounded waiting

  /** The number of picks in the events from index `a` up to `b`: a step other than a spawn contains one. */
  function Picks(es: seq<Event>, a: nat, b: nat): nat
    requires a <= b <= |es|
    decreases b - a
  {
    if a == b then 0 else (if es[a].Spawn? then 0 else 1) + Picks(es, a + 1, b)
  }

  lemma PrepareKeeps(s: State, e: Event, k: nat)
    requires Inv(s) && Possible(s, e) && k < |s.q|
    ensures var p := Prepare(s, e);
            k < |p.q| && p.q[k] == s.q[k] && (Eligible(s, s.q[k]) ==> Eligible(p, s.q[k]))
  {
    assert s.q[k] in s.q;
    if e.Exit? {
      UnlinkCurrentSame(s);
    }
  }

  /** One step brings an eligible thread at least one place forward, or dispatches it. */
  lemma WaitStep(s: State, e: Event, k: nat)
    requires Inv(s) && Possible(s, e) && k < |s.q| && Eligible(s, s.q[k]) && Step(s, e).Some?
    ensures var t := Step(s, e).value;
            if e.Spawn? then k < |t.q| && t.q[k] == s.q[k] && Eligible(t, s.q[k])
            else t.current == s.q[k] || (0 < k <= |t.q| && t.q[k - 1] == s.q[k] && Eligible(t, s.q[k]))
  {
    PrepareKeeps(s, e, k);
  }

  lemma WaitAt(ss: seq<State>, es: seq<Event>, a: nat, k: nat)
    requires Run(ss, es) && a < |es| && Inv(ss[a]) && k < |ss[a].q| && Eligible(ss[a], ss[a].q[k])
    ensures Inv(ss[a + 1])
    ensures if es[a].Spawn? then k < |ss[a + 1].q| && ss[a + 1].q[k] == ss[a].q[k] && Eligible(ss[a + 1], ss[a].q[k])
            else ss[a + 1].current == ss[a].q[k] ||
                 (0 < k <= |ss[a + 1].q| && ss[a + 1].q[k - 1] == ss[a].q[k] && Eligible(ss[a + 1], ss[a].q[k]))
  {
    assert StepAt(ss, es, a);
    StepInv(ss[a], es[a]);
    WaitStep(ss[a], es[a], k);
  }

  /** An eligible thread at index `k` is dispatched no later than the pick number `k + 1`. */
  lemma {:induction false} BoundedWaiting(ss: seq<State>, es: seq<Event>, a: nat, k: nat) returns (i: nat)
    requires Run(ss, es) && a <= |es| && Inv(ss[a]) && k < |ss[a].q| && Eligible(ss[a], ss[a].q[k])
    requires Picks(es, a, |es|) >= k + 1
    ensures a < i <= |es| && ss[i].current == ss[a].q[k] && Picks(es, a, i) <= k + 1
    decreases |es| - a
  {
    WaitAt(ss, es, a, k);
    if es[a].Spawn? {
      i := BoundedWaiting(ss, es, a + 1, k);
    } else if ss[a + 1].current == ss[a].q[k] {
      i := a + 1;
    } else {
      i := BoundedWaiting(ss, es, a + 1, k - 1);
    }
  }

  // ---------------------------------------------------------------- sleeping

  /** How many second boundaries the timer counts in the steps from index `a` up to `b`. */
  function Boundaries(ss: seq<State>, es: seq<Event>, a: nat, b: nat): nat
    requires |ss| == |es| + 1 && a <= b <= |es|
    decreases b
  {
    if a == b then 0
    else Boundaries(ss, es, a, b - 1) + (if es[b - 1].Tick? && AtBoundary(ss[b - 1]) then 1 else 0)
  }

  function CountedOnce(s: State, e: Event, n: int): int {
    if e.Tick? && AtBoundary(s) && n > 0 then n - 1 else n
  }

  lemma PrepareSleeper(s: State, e: Event, t: nat)
    requires Inv(s) && Possible(s, e) && t in s.q
    ensures var p := Prepare(s, e);
            && t in p.q && t in s.sleeping && t in p.sleeping && p.sleeping[t] == CountedOnce(s, e, s.sleeping[t])
            && t in s.alive && t in p.alive && p.alive[t] == s.alive[t]
  {
    var k: nat :| k < |s.q| && s.q[k] == t;
    PrepareKeeps(s, e, k);
    if e.Exit? || e.Kill? {
      UnlinkCurrentSame(s);
    }
  }

  lemma PickSleeper(p: State, t: nat)
    requires Loose(p) && t in p.q
    ensures Pick(p).Some?
    ensures var u := Pick(p).value;
            u.sleeping == p.sleeping && u.alive == p.alive && (t in u.q || (u.current == t && Eligible(u, t)))
  {
    PickFinds(p);
    WithoutDistinct(p.q, First(p, 0));
  }

  /** One step counts a queued sleeper down at a boundary and otherwise leaves it alone; it stays queued unless
      it woke up. */
  lemma SleepStep(s: State, e: Event, t: nat)
    requires Inv(s) && Possible(s, e) && t in s.q
    ensures Step(s, e).Some?
    ensures var u := Step(s, e).value;
            && t in s.sleeping && t in u.sleeping && u.sleeping[t] == CountedOnce(s, e, s.sleeping[t])
            && t in s.alive && t in u.alive && u.alive[t] == s.alive[t]
            && (t in u.q || (u.current == t && u.sleeping[t] == 0))
  {
    PrepareSleeper(s, e, t);
    if !e.Spawn? {
      PrepareLoose(s, e);
      PickSleeper(Prepare(s, e), t);
    }
  }

  /** The thread waits in the queue, alive, with a counter that is not 0, so that no pick takes it. */
  predicate Asleep(s: State, t: nat, n: int) {
    n != 0 && t in s.q && s.current != t && t in s.sleeping && s.sleeping[t] == n && t in s.alive && s.alive[t]
  }

  /** The thread is running, or waits in the queue and may be picked. */
  predicate Awake(s: State, t: nat) {
    (t in s.q || s.current == t) && Eligible(s, t)
  }

  /** One step of a sleeping thread. */
  lemma AsleepStep(ss: seq<State>, es: seq<Event>, b: nat, t: nat, n: int)
    requires Run(ss, es) && Inv(ss[0]) && b < |es| && Asleep(ss[b], t, n)
    ensures var c := CountedOnce(ss[b], es[b], n);
            if c == 0 then Awake(ss[b + 1], t) else Asleep(ss[b + 1], t, c)
  {
    RunInv(ss, es, b);
    assert StepAt(ss, es, b);
    SleepStep(ss[b], es[b], t);
    StepInv(ss[b], es[b]);
  }

  /** A thread with counter n > 0 is skipped until exactly n boundaries have passed, and is awake then. */
  lemma {:induction false} SleepExact(ss: seq<State>, es: seq<Event>, a: nat, b: nat, t: nat, n: nat)
    requires Run(ss, es) && Inv(ss[0]) && a <= b <= |es| && n > 0 && Asleep(ss[a], t, n)
    requires a < b ==> Boundaries(ss, es, a, b - 1) < n
    ensures var c := Boundaries(ss, es, a, b);
            c <= n && if c < n then Asleep(ss[b], t, n - c) else Awake(ss[b], t)
    decreases b
  {
    if a < b {
      SleepExact(ss, es, a, b - 1, t, n);
      AsleepStep(ss, es, b - 1, t, n - Boundaries(ss, es, a, b - 1));
    }
  }

  /** A thread with a negative counter is never counted down and never picked. */
  lemma {:induction false} SleepForever(ss: seq<State>, es: seq<Event>, a: nat, b: nat, t: nat, n: int)
    requires Run(ss, es) && Inv(ss[0]) && a <= b <= |es| && n < 0 && Asleep(ss[a], t, n)
    ensures Asleep(ss[b], t, n)
    decreases b
  {
    if a < b {
      SleepForever(ss, es, a, b - 1, t, n);
      AsleepStep(ss, es, b - 1, t, n);
    }
  }

  /** sleep(n) stores n exactly when n is below 2^31; what it stores is negative exactly when the low 32 bits are at
      least 2^31, and 0 exactly when they are 0. */
  lemma StoredExact(n: nat)
    ensures Int32(n) == n <==> n < 0x8000_0000
    ensures Int32(n) < 0 <==> n % 0x1_0000_0000 >= 0x8000_0000
    ensures Int32(n) == 0 <==> n % 0x1_0000_0000 == 0
  {
    assert n < 0x1_0000_0000 ==> n % 0x1_0000_0000 == n;
  }

  /** sleep(n) puts the thread to sleep with the stored counter, or leaves it awake when that is 0. */
  lemma SleepStarts(s: State, n: nat)
    requires Inv(s) && s.current != s.start
    ensures Step(s, Sleep(n)).Some?
    ensures var t := Step(s, Sleep(n)).value;
            if Int32(n) == 0 then Awake(t, s.current) else Asleep(t, s.current, Int32(n))
  {
    var p := Prepare(s, Sleep(n));
    StepInv(s, Sleep(n));
    PrepareLoose(s, Sleep(n));
    assert p.q[|s.q|] == s.current;
    if Int32(n) == 0 {
      WithoutDistinct(p.q, First(p, 0));
      assert s.current in p.q;
    } else {
      PickSkips(p, |s.q|);
    }
  }

  lemma SleepAt(ss: seq<State>, es: seq<Event>, a: nat, n: nat)
    requires Run(ss, es) && Inv(ss[0]) && a < |es| && es[a] == Sleep(n)
    ensures if Int32(n) == 0 then Awake(ss[a + 1], ss[a].current) else Asleep(ss[a + 1], ss[a].current, Int32(n))
  {
    RunInv(ss, es, a);
    assert StepAt(ss, es, a);
    SleepStarts(ss[a], n);
  }

  /** What sleep(n) does over every run: the thread is skipped until exactly the stored number of boundaries have
      passed since, for ever when that number is negative, and not at all when it is 0.  The stored number is n
      exactly when n is below 2^31. */
  lemma SleepRun(ss: seq<State>, es: seq<Event>, a: nat, b: nat, n: nat)
    requires Run(ss, es) && Inv(ss[0]) && a < b <= |es| && es[a] == Sleep(n)
    ensures Int32(n) == n <==> n < 0x8000_0000
    ensures Int32(n) < 0 ==> Asleep(ss[b], ss[a].current, Int32(n))
    ensures Int32(n) == 0 ==> Awake(ss[a + 1], ss[a].current)
    ensures Int32(n) > 0 && (a + 1 < b ==> Boundaries(ss, es, a + 1, b - 1) < Int32(n)) ==>
              var c := Boundaries(ss, es, a + 1, b);
              c <= Int32(n) && if c < Int32(n) then Asleep(ss[b], ss[a].current, Int32(n) - c) else Awake(ss[b], ss[a].current)
  {
    StoredExact(n);
    SleepAt(ss, es, a, n);
    if Int32(n) < 0 {
      SleepForever(ss, es, a + 1, b, ss[a].current, Int32(n));
    } else if Int32(n) > 0 && (a + 1 < b ==> Boundaries(ss, es, a + 1, b - 1) < Int32(n)) {
      SleepExact(ss, es, a + 1, b, ss[a].current, Int32(n));
    }
  }

  /** The pick leaves a thread queued that is asleep or dead. */
  lemma PickSkips(p: State, k: nat)
    requires Loose(p) && k < |p.q| && !Eligible(p, p.q[k])
    ensures Pick(p).Some? && p.q[k] in Pick(p).value.q && Pick(p).value.sleeping == p.sleeping
  {
    PickFinds(p);
    WithoutDistinct(p.q, First(p, 0));
    assert p.q[k] in p.q;
  }

  // ---------------------------------------------------------------- what the conditions are for

  lemma NonNull(l: Links, q: seq<nat>, i: nat)
    requires Queue(l, q) && i < |q|
    ensures q[i] != 0
  {
    assert Node(l, q, i);
  }

  /** Only Start may find its stale links out of date: after it was picked from the end of the queue and spawned
      a thread, they no longer name neighbours, and unlinking it would change the queue. */
  lemma SpawnOutdates(s: State, t: nat)
    requires Inv(s) && s.current == s.start && Adjacent(s.links, s.q, s.start) && s.links.next[s.start] == 0
    requires t != 0 && t !in s.made
    ensures var u := Step(s, Spawn(t)).value;
            && s.start in u.links.prev && s.start in u.links.next
            && !Queue(Unlink(u.links, s.start), u.q)
  {
    var u := Step(s, Spawn(t)).value;
    var i: nat :| Between(s.links, s.q, s.start, i);
    if i < |s.q| {
      NonNull(s.links, s.q, i);
    }
    AppendQueue(s.links, s.q, t);
    if s.q != [] {
      assert Node(s.links, s.q, |s.q| - 1);
      assert u.q[|s.q| - 1] == s.q[|s.q| - 1];
    }
    assert Unlink(u.links, s.start).tail == At(s.q, |s.q| - 1);
    assert At(u.q, |u.q| - 1) == t;
  }

  // ---------------------------------------------------------------- the code

  /** The sleep counters after the countdown has reached index `k` of the queue. */
  ghost function CountedTo(s: State, k: nat): map<nat, int>
    requires k <= |s.q|
  {
    map t: nat | t in s.sleeping :: if t in s.q[..k] && s.sleeping[t] > 0 then s.sleeping[t] - 1 else s.sleeping[t]
  }

  lemma CountedNext(s: State, k: nat)
    requires k < |s.q| && Distinct(s.q) && s.q[k] in s.sleeping
    ensures CountedTo(s, k)[s.q[k]] == s.sleeping[s.q[k]]
    ensures CountedTo(s, k + 1) == if s.sleeping[s.q[k]] > 0 then CountedTo(s, k)[s.q[k] := s.sleeping[s.q[k]] - 1] else CountedTo(s, k)
  {
    assert s.q[..k + 1] == s.q[..k] + [s.q[k]];
    forall j: nat | j < k ensures s.q[j] != s.q[k] {
      assert Differ(s.q, j, k);
    }
  }

  lemma CountedAll(s: State)
    ensures CountedTo(s, |s.q|) == Countdown(s).sleeping
  {
    assert s.q[..|s.q|] == s.q;
  }

  lemma CurrentHasLinks(s: State)
    requires Inv(s) && s.current != s.start
    ensures s.current in s.links.prev && s.current in s.links.next
  {
    var i: nat :| Between(s.links, s.q, s.current, i);
  }

  lemma NodeFacts(l: Links, q: seq<nat>, i: nat)
    requires Queue(l, q) && i < |q|
    ensures q[i] in q && q[i] in l.next && l.next[q[i]] == At(q, i + 1)
  {
    assert Node(l, q, i);
  }

  /** A crawl that meets null, or a thread that is not queued, is past the end. */
  lemma EndReached(l: Links, q: seq<nat>, i: nat, t: nat)
    requires Queue(l, q) && i <= |q| && (At(q, i) == 0 || At(q, i) == t) && (t == 0 || t !in q)
    ensures i == |q|
  {
    if i < |q| {
      NodeFacts(l, q, i);
      NonNull(l, q, i);
    }
  }

  class Kernel {
    var head: nat
    var tail: nat
    var prev: map<nat, nat>
    var next: map<nat, nat>
    var sleeping: map<nat, int>
    var alive: map<nat, bool>
    var currentThread: nat
    var totalTicks: nat
    ghost var q: seq<nat>
    ghost var start: nat
    ghost var made: set<nat>
    ghost var gone: set<nat>

    ghost function Now(): State
      reads this
    {
      State(Links(head, tail, prev, next), q, sleeping, alive, currentThread, start, totalTicks, made, gone)
    }

    /** append_run_queue, on the run queue. */
    method RunnableKthread(t: nat)
      modifies this`head, this`tail, this`prev, this`next, this`q
      ensures Now() == Enqueue(old(Now()), t)
    {
      next := next[t := 0];
      if tail == 0 {
        head, tail := t, t;
        prev := prev[t := 0];
      } else {
        next := next[tail := t];
        prev := prev[t := tail];
        tail := t;
      }
      q := q + [t];
    }

    /** remove_runnable_kthread, on the run queue. */
    method RemoveRunnable(t: nat)
      requires t in prev && t in next
      modifies this`head, this`tail, this`prev, this`next
      ensures Links(head, tail, prev, next) == Unlink(old(Links(head, tail, prev, next)), t)
    {
      if prev[t] != 0 {
        next := next[prev[t] := next[t]];
      } else {
        head := next[t];
      }
      if next[t] != 0 {
        prev := prev[next[t] := prev[t]];
      } else {
        tail := prev[t];
      }
    }

    /** The search of next_runnable_kthread: the first thread that is awake and alive, or null. */
    method FindRunnable() returns (crawl: nat)
      requires Queue(Now().links, q) && forall t :: t in q ==> t in sleeping && t in alive
      ensures crawl == At(q, First(Now(), 0))
    {
      crawl := head;
      ghost var i := 0;
      while crawl != 0
        invariant i <= |q| && crawl == At(q, i) && First(Now(), i) == First(Now(), 0)
        decreases |q| - i
      {
        assert Node(Now().links, q, i);
        if sleeping[crawl] == 0 && alive[crawl] {
          return;
        }
        crawl := next[crawl];
        i := i + 1;
      }
      EndReached(Now().links, q, i, 0);
    }

    /** next_runnable_kthread and the assignment of currentThread; false is the panic. */
    method NextRunnable() returns (ok: bool)
      requires Queue(Now().links, q) && forall t :: t in q ==> t in sleeping && t in alive
      modifies this
      ensures Pick(old(Now())) == if ok then Some(Now()) else None
    {
      ghost var i := First(Now(), 0);
      var crawl := FindRunnable();
      if i < |q| {
        assert Node(Now().links, q, i);
      }
      if crawl == 0 {
        return false;
      }
      RemoveRunnable(crawl);
      q := Without(q, i);
      currentThread := crawl;
      ok := true;
    }

    /** The pick that ends a step. */
    method Dispatch() returns (ok: bool)
      requires Loose(Now())
      modifies this
      ensures ok && Pick(old(Now())) == Some(Now()) && Inv(Now())
    {
      PickFinds(Now());
      ok := NextRunnable();
    }

    /** One turn of the loop of timer_handler. */
    method CountThread(t: nat, ghost s: State, ghost i: nat)
      requires i < |s.q| && Distinct(s.q) && s.q[i] == t && t in s.sleeping && sleeping == CountedTo(s, i)
      modifies this`sleeping
      ensures sleeping == CountedTo(s, i + 1)
    {
      CountedNext(s, i);
      if sleeping[t] > 0 {
        sleeping := sleeping[t := sleeping[t] - 1];
      }
    }

    /** The loop of timer_handler over the run queue. */
    method CountDown()
      requires Queue(Now().links, q) && currentThread !in q && forall t :: t in q ==> t in sleeping
      modifies this`sleeping
      ensures sleeping == CountedTo(old(Now()), |q|)
    {
      ghost var s := Now();
      var crawl := head;
      ghost var i := 0;
      while crawl != 0 && crawl != currentThread
        invariant i <= |s.q| && crawl == At(s.q, i) && sleeping == CountedTo(s, i)
        decreases |s.q| - i
      {
        NodeFacts(s.links, s.q, i);
        CountThread(crawl, s, i);
        crawl := next[crawl];
        i := i + 1;
      }
      EndReached(s.links, s.q, i, currentThread);
    }

    /** timer_handler. */
    method Timer()
      requires Queue(Now().links, q) && currentThread !in q && forall t :: t in q ==> t in sleeping
      modifies this`totalTicks, this`sleeping
      ensures Now() == TimerHandler(old(Now()))
    {
      totalTicks := (totalTicks + 1) % 65536;
      if totalTicks % 100 == 0 {
        CountedAll(Now());
        CountDown();
      }
    }

    /** A timer interrupt: the handler, the requeue and the pick of irq.s. */
    method TimerInterrupt() returns (ok: bool)
      requires Inv(Now())
      modifies this
      ensures ok && Step(old(Now()), Tick) == Some(Now()) && Inv(Now())
    {
      PrepareLoose(Now(), Tick);
      Timer();
      RunnableKthread(currentThread);
      ok := Dispatch();
    }

    /** remove_runnable_kthread on the running thread. */
    method RemoveCurrent()
      requires currentThread in prev && currentThread in next
      modifies this`head, this`tail, this`prev, this`next
      ensures Now() == UnlinkCurrent(old(Now()))
    {
      RemoveRunnable(currentThread);
    }

    /** exit: sys_exit, then Schedule. */
    method SysExit() returns (ok: bool)
      requires Inv(Now()) && currentThread != start
      modifies this
      ensures ok && Step(old(Now()), Exit) == Some(Now()) && Inv(Now())
    {
      PrepareLoose(Now(), Exit);
      CurrentHasLinks(Now());
      RemoveCurrent();
      gone := gone + {currentThread};
      ok := Dispatch();
    }

    /** The kill branch of page_fault_handler. */
    method KillCurrent()
      requires Inv(Now()) && currentThread != start
      modifies this
      ensures Now() == Prepare(old(Now()), Kill)
    {
      ghost var s := Now().(alive := alive[currentThread := false]);
      CurrentHasLinks(Now());
      UnlinkCurrentSame(Now());
      alive := alive[currentThread := false];
      RemoveCurrent();
      assert Now() == s;
      RemoveCurrent();
      RunnableKthread(currentThread);
    }

    /** A fault that ends the thread, with the requeue and the pick of isr.s. */
    method PageFaultKill() returns (ok: bool)
      requires Inv(Now()) && currentThread != start
      modifies this
      ensures ok && Step(old(Now()), Kill) == Some(Now()) && Inv(Now())
    {
      PrepareLoose(Now(), Kill);
      KillCurrent();
      ok := Dispatch();
    }

    /** The copy of the thread structure in fork. */
    method CopyThread(child: nat)
      requires currentThread in sleeping && currentThread in alive
      modifies this`sleeping, this`alive, this`made
      ensures Now() == Copied(old(Now()), child)
    {
      sleeping := sleeping[child := sleeping[currentThread]];
      alive := alive[child := alive[currentThread]];
      made := made + {child};
    }

    /** fork's runnable_kthread on the child, then the requeue and the pick of isr.s. */
    method ForkSyscall(child: nat) returns (ok: bool)
      requires Inv(Now()) && currentThread != start && child != 0 && child !in made
      modifies this
      ensures ok && Step(old(Now()), Fork(child)) == Some(Now()) && Inv(Now())
    {
      PrepareLoose(Now(), Fork(child));
      CopyThread(child);
      RunnableKthread(child);
      RunnableKthread(currentThread);
      ok := Dispatch();
    }

    /** Yield: requeue and Schedule, without the window between them. */
    method YieldCpu() returns (ok: bool)
      requires Inv(Now()) && currentThread == start
      modifies this
      ensures ok && Step(old(Now()), Yield) == Some(Now()) && Inv(Now())
    {
      PrepareLoose(Now(), Yield);
      RunnableKthread(currentThread);
      ok := Dispatch();
    }

    /** sleep, then the requeue and the pick of isr.s. */
    method SleepSyscall(n: nat) returns (ok: bool)
      requires Inv(Now()) && currentThread != start
      modifies this
      ensures ok && Step(old(Now()), Sleep(n)) == Some(Now()) && Inv(Now())
    {
      PrepareLoose(Now(), Sleep(n));
      sleeping := sleeping[currentThread := Int32(n)];
      RunnableKthread(currentThread);
      ok := Dispatch();
    }

    /** do_execve of a member of the archive: the thread is reset and queued, and Schedule follows. */
    method ExecSyscall() returns (ok: bool)
      requires Inv(Now()) && currentThread != start
      modifies this
      ensures ok && Step(old(Now()), Exec) == Some(Now()) && Inv(Now())
    {
      PrepareLoose(Now(), Exec);
      alive := alive[currentThread := true];
      sleeping := sleeping[currentThread := 0];
      RunnableKthread(currentThread);
      ok := Dispatch();
    }
  }
}
