/** The push trigger of the GitHub app (`handle_push_trigger_for_new_commits`): per pull request one push is processed, one
    more waits, and the rest are discarded. A step is what runs between two awaits: admitting a push, resuming a
    notified task, and releasing after the processing. */
module PushTrigger {
  import opened PyText
  import opened TimeoutDict

  /** The interval in which the dictionaries are meant to be swept, as they do not give one. */
  const REFRESH_INTERVAL := 60

  type Task = int

  datatype Phase = Running | Waiting | Notified | Done | Discarded

  datatype Event = Arrive(task: Task) | Wake(task: Task) | Finish(task: Task)

  /** One pull request: the counter, the tasks waiting on its condition, and where each task stands. */
  datatype State = State(counter: int, waiters: seq<Task>, phase: map<Task, Phase>)

  const INIT := State(0, [], map[])

  function MaxActive(backlog: bool): int { if backlog then 2 else 1 }

  function Step(backlog: bool, s: State, e: Event): Option<State> {
    match e
    case Arrive(t) =>
      if t in s.phase then None
      else if s.counter < MaxActive(backlog) then
        if s.counter == 1 then Some(State(s.counter + 1, s.waiters + [t], s.phase[t := Waiting]))
        else Some(State(s.counter + 1, s.waiters, s.phase[t := Running]))
      else Some(s.(phase := s.phase[t := Discarded]))
    case Wake(t) =>
      if t in s.phase && s.phase[t] == Notified then Some(s.(phase := s.phase[t := Running])) else None
    case Finish(t) =>
      if t in s.phase && s.phase[t] == Running then
        if s.waiters != [] then
          Some(State(s.counter - 1, s.waiters[1..], s.phase[t := Done][s.waiters[0] := Notified]))
        else Some(State(s.counter - 1, s.waiters, s.phase[t := Done]))
      else None
  }

  /** A run from the start. */
  function Run(backlog: bool, events: seq<Event>): Option<State> {
    if events == [] then Some(INIT)
    else
      var before := Run(backlog, events[..|events| - 1]);
      if before.None? then None else Step(backlog, before.value, events[|events| - 1])
  }

  // ---------- the program's dictionaries ----------

  datatype Admission = Runs | Waits | Skipped

  /** The module-level dictionaries, which are meant to time out, and for the proof where each task stands. A condition is
      the list of tasks that wait on it; waiting and notifying change it in place, without the dictionary. */
  class PushTriggers {
    const counters: TimedDict<string, int>
    const conditions: TimedDict<string, seq<Task>>
    ghost var phase: map<string, map<Task, Phase>>
    const backlog: bool
    ghost const made: int

    constructor (backlog: bool, ttl: Option<int>, now: int)
      ensures this.backlog == backlog && made == now && Valid() && fresh(counters) && fresh(conditions)
      ensures forall url :: StateOf(url) == INIT
    {
      this.backlog := backlog;
      made := now;
      counters := new TimedDict(Settings(ttl, REFRESH_INTERVAL, true, None), now);
      conditions := new TimedDict(Settings(ttl, REFRESH_INTERVAL, true, Some([])), now);
      phase := map[];
    }

    /** Neither dictionary has been swept. */
    ghost predicate Valid()
      reads this, counters, conditions
    {
      && counters.cfg.default.None? && counters.cfg.touchOnGet && counters.lastRefresh + counters.cfg.interval == made
      && conditions.cfg.default == Some([]) && conditions.lastRefresh + conditions.cfg.interval == made
    }

    /** The state of one pull request; keys that are missing stand for nothing so far. */
    ghost function StateOf(url: string): State
      reads this, counters, conditions
    {
      State(if url in counters.items then counters.items[url] else 0,
            if url in conditions.items then conditions.items[url] else [],
            if url in phase then phase[url] else map[])
    }

    /** `counters[url] += change` */
    method Count(url: string, change: int, now: int)
      requires Valid() && now > made && url in counters.items
      modifies counters
      ensures Valid() && counters.items == old(counters.items)[url := old(counters.items)[url] + change]
    {
      var active := counters.GetItem(url, now);
      counters.SetItem(url, active.value + change, now);
    }

    /** `conditions[url]`, made if it is not there. */
    method Condition(url: string, now: int) returns (waiters: seq<Task>)
      requires Valid() && now > made
      modifies conditions
      ensures Valid() && waiters == if url in old(conditions.items) then old(conditions.items)[url] else []
      ensures conditions.items == old(conditions.items)[url := waiters]
    {
      var condition := conditions.GetItem(url, now);
      waiters := condition.value;
    }

    /** A task is counted if fewer are active than may be. */
    method Enter(url: string, now: int) returns (active: int, entered: bool)
      requires Valid() && now > made
      modifies counters
      ensures Valid() && active == (if url in old(counters.items) then old(counters.items)[url] else 0)
      ensures entered <==> active < MaxActive(backlog)
      ensures counters.items == old(counters.items)[url := active + if entered then 1 else 0]
    {
      active := counters.SetDefaultItem(url, 0, now);
      var maxActiveTasks := if backlog then 2 else 1;
      entered := active < maxActiveTasks;
      if entered {
        Count(url, 1, now);
      }
    }

    /** A push arrives, some time after the dictionaries were made: up to the first await. */
    method Admit(url: string, task: Task, now: int) returns (a: Admission)
      requires Valid() && now > made && task !in StateOf(url).phase
      modifies this, counters, conditions
      ensures Valid() && Step(backlog, old(StateOf(url)), Arrive(task)) == Some(StateOf(url))
      ensures forall other :: other != url ==> StateOf(other) == old(StateOf(other))
      ensures a == match StateOf(url).phase[task] case Running => Runs case Waiting => Waits case _ => Skipped
    {
      ghost var tasks := StateOf(url).phase;
      var currentActiveTasks, entered := Enter(url, now);
      if !entered {
        phase := phase[url := tasks[task := Discarded]];
        return Skipped;
      }
      var waiters := Condition(url, now);
      if currentActiveTasks == 1 {
        waiters := Condition(url, now);
        conditions.items := conditions.items[url := waiters + [task]];
        phase := phase[url := tasks[task := Waiting]];
        a := Waits;
      } else {
        phase := phase[url := tasks[task := Running]];
        a := Runs;
      }
    }

    /** A notified task goes on. */
    method Resume(url: string, task: Task)
      requires Valid() && task in StateOf(url).phase && StateOf(url).phase[task] == Notified
      modifies this`phase
      ensures Valid() && Step(backlog, old(StateOf(url)), Wake(task)) == Some(StateOf(url))
      ensures forall other :: other != url ==> StateOf(other) == old(StateOf(other))
    {
      phase := phase[url := phase[url][task := Running]];
    }

    /** The processing is over: one waiting task is notified and the counter goes down. */
    method Release(url: string, task: Task, now: int) returns (woken: Option<Task>)
      requires Valid() && now > made
      requires task in StateOf(url).phase && StateOf(url).phase[task] == Running && url in counters.items
      modifies this, counters, conditions
      ensures Valid() && Step(backlog, old(StateOf(url)), Finish(task)) == Some(StateOf(url))
      ensures forall other :: other != url ==> StateOf(other) == old(StateOf(other))
      ensures woken == if old(StateOf(url)).waiters == [] then None else Some(old(StateOf(url)).waiters[0])
    {
      ghost var tasks := phase[url][task := Done];
      var waiters := Condition(url, now);
      waiters := Condition(url, now);
      if waiters != [] {
        var first := waiters[0];
        woken := Some(first);
        conditions.items := conditions.items[url := waiters[1..]];
        phase := phase[url := tasks[first := Notified]];
      } else {
        woken := None;
        phase := phase[url := tasks];
      }
      Count(url, -1, now);
    }
  }

  // ---------- safety ----------

  ghost function In(s: State, p: Phase): set<Task> { set t | t in s.phase && s.phase[t] == p }

  /** What holds in every reachable state. */
  ghost predicate Safe(backlog: bool, s: State) {
    && s.counter == |In(s, Running)| + |In(s, Notified)| + |In(s, Waiting)|
    && s.counter <= MaxActive(backlog)
    && |In(s, Running)| + |In(s, Notified)| <= 1
    && |In(s, Waiting)| <= 1
    && (|In(s, Waiting)| > 0 ==> |In(s, Running)| + |In(s, Notified)| == 1)
    && |s.waiters| == |In(s, Waiting)|
    && (forall i :: 0 <= i < |s.waiters| ==> s.waiters[i] in s.phase && s.phase[s.waiters[i]] == Waiting)
  }

  lemma {:induction false} Member<T>(s: set<T>) returns (x: T)
    requires |s| > 0
    ensures x in s
  {
    assert s != {};
    x :| x in s;
  }

  /** How the tasks in each phase change when one task changes its phase. */
  lemma {:induction false} InAfter(s: State, s': State, t: Task, q: Phase)
    requires s'.phase == s.phase[t := q]
    ensures forall p :: In(s', p) == if p == q then In(s, p) + {t} else In(s, p) - {t}
  {
  }

  lemma {:induction false} OneMore(s: State, s': State, t: Task, q: Phase, p: Phase)
    requires t !in s.phase && s'.phase == s.phase[t := q]
    ensures |In(s', p)| == |In(s, p)| + (if p == q then 1 else 0)
  {
    InAfter(s, s', t, q);
    assert t !in In(s, p);
    assert In(s, p) - {t} == In(s, p);
  }

  lemma {:induction false} ArriveSafe(backlog: bool, s: State, t: Task)
    requires Safe(backlog, s) && t !in s.phase
    ensures Safe(backlog, Step(backlog, s, Arrive(t)).value)
  {
    var s' := Step(backlog, s, Arrive(t)).value;
    OneMore(s, s', t, s'.phase[t], Running);
    OneMore(s, s', t, s'.phase[t], Notified);
    OneMore(s, s', t, s'.phase[t], Waiting);
  }

  lemma {:induction false} WakeSafe(backlog: bool, s: State, t: Task)
    requires Safe(backlog, s) && Step(backlog, s, Wake(t)).Some?
    ensures Safe(backlog, Step(backlog, s, Wake(t)).value)
  {
    var s' := Step(backlog, s, Wake(t)).value;
    assert t in In(s, Notified) && t !in In(s, Running) && t !in In(s, Waiting);
    InAfter(s, s', t, Running);
    assert In(s, Waiting) - {t} == In(s, Waiting);
  }

  lemma {:induction false} FinishSafe(backlog: bool, s: State, t: Task)
    requires Safe(backlog, s) && Step(backlog, s, Finish(t)).Some?
    ensures Safe(backlog, Step(backlog, s, Finish(t)).value)
  {
    var s' := Step(backlog, s, Finish(t)).value;
    assert t in In(s, Running) && t !in In(s, Notified) && t !in In(s, Waiting);
    if s.waiters == [] {
      InAfter(s, s', t, Done);
      assert In(s, Waiting) - {t} == In(s, Waiting) && In(s, Notified) - {t} == In(s, Notified);
    } else {
      var w := s.waiters[0];
      assert w in In(s, Waiting) && w != t && w !in In(s, Notified) && w !in In(s, Running);
      var mid := State(s.counter, s.waiters, s.phase[t := Done]);
      InAfter(s, mid, t, Done);
      InAfter(mid, s', w, Notified);
    }
  }

  /** In every reachable state the counter counts the running, notified and waiting tasks; there are at most two (one
      without the backlog), at most one of them running or notified and at most one waiting; and where a task waits,
      there is one that will notify it or one already notified. */
  lemma {:induction false} AlwaysSafe(backlog: bool, events: seq<Event>)
    requires Run(backlog, events).Some?
    ensures Safe(backlog, Run(backlog, events).value)
  {
    if events == [] {
      assert forall p :: In(INIT, p) == {};
    } else {
      AlwaysSafe(backlog, events[..|events| - 1]);
      var s := Run(backlog, events[..|events| - 1]).value;
      match events[|events| - 1] {
        case Arrive(t) => ArriveSafe(backlog, s, t);
        case Wake(t) => WakeSafe(backlog, s, t);
        case Finish(t) => FinishSafe(backlog, s, t);
      }
    }
  }

  // ---------- no push is lost ----------

  /** Event j starts the processing of a push. */
  ghost predicate Starts(backlog: bool, events: seq<Event>, j: int) {
    0 <= j < |events| && Run(backlog, events[..j]).Some? &&
    (events[j].Wake? || (events[j].Arrive? && Run(backlog, events[..j]).value.counter == 0))
  }

  /** A task that is still to be started. */
  predicate Pends(s: State, t: Task) { t in s.phase && (s.phase[t] == Waiting || s.phase[t] == Notified) }

  ghost predicate Due(s: State) { exists t :: Pends(s, t) }

  lemma {:induction false} StartsStay(backlog: bool, events: seq<Event>, j: int)
    requires events != [] && 0 <= j < |events| - 1
    ensures Starts(backlog, events[..|events| - 1], j) <==> Starts(backlog, events, j)
  {
    assert events[..|events| - 1][..j] == events[..j];
  }

  /** A push finds the counter at 0 and starts, or some task pends after it. */
  lemma {:induction false} PendsAfterArrival(s: State, t: Task)
    requires Safe(true, s) && t !in s.phase
    ensures s.counter == 0 || Due(Step(true, s, Arrive(t)).value)
  {
    var s' := Step(true, s, Arrive(t)).value;
    if s.counter == 1 {
      assert Pends(s', t);
    } else if s.counter > 1 {
      var w := Member(In(s, Waiting));
      assert Pends(s', w);
    }
  }

  /** A task that pends goes on doing so until its own start. */
  lemma {:induction false} PendsOn(backlog: bool, s: State, e: Event, t: Task)
    requires Step(backlog, s, e).Some? && Pends(s, t) && e != Wake(t)
    ensures Pends(Step(backlog, s, e).value, t)
  {
  }

  /** With the backlog, every push that arrives, admitted or discarded, is followed by a start at or after its arrival, or
      a start is still due. */
  lemma {:induction false} NoPushLost(events: seq<Event>, i: nat)
    requires Run(true, events).Some? && i < |events| && events[i].Arrive?
    ensures (exists j :: i <= j < |events| && Starts(true, events, j)) || Due(Run(true, events).value)
  {
    var n := |events| - 1;
    var init, e := events[..n], events[n];
    if i == n {
      AlwaysSafe(true, init);
      PendsAfterArrival(Run(true, init).value, e.task);
      assert Run(true, init).value.counter == 0 ==> Starts(true, events, n);
    } else {
      NoPushLost(init, i);
      if j :| i <= j < n && Starts(true, init, j) {
        StartsStay(true, events, j);
      } else {
        var t :| Pends(Run(true, init).value, t);
        if e == Wake(t) {
          assert Starts(true, events, n);
        } else {
          PendsOn(true, Run(true, init).value, e, t);
        }
      }
    }
  }

  lemma {:induction false} NoneActive(backlog: bool, s: State)
    requires Safe(backlog, s) && s.counter == 0
    ensures forall t :: t in s.phase ==> s.phase[t] == Done || s.phase[t] == Discarded
  {
    assert In(s, Running) == {} && In(s, Notified) == {} && In(s, Waiting) == {};
    forall t | t in s.phase ensures s.phase[t] == Done || s.phase[t] == Discarded {
      assert t !in In(s, Running) && t !in In(s, Notified) && t !in In(s, Waiting);
    }
  }

  /** So once nothing is active, the last start is no earlier than the last push. */
  lemma {:induction false} AllPushesStarted(events: seq<Event>, i: nat)
    requires Run(true, events).Some? && Run(true, events).value.counter == 0
    requires i < |events| && events[i].Arrive?
    ensures exists j :: i <= j < |events| && Starts(true, events, j)
  {
    NoPushLost(events, i);
    AlwaysSafe(true, events);
    NoneActive(true, Run(true, events).value);
  }

  /** Without the backlog no task ever waits. */
  lemma {:induction false} StepNothingDue(s: State, e: Event)
    requires Safe(false, s) && !Due(s) && Step(false, s, e).Some?
    ensures !e.Wake? && !Due(Step(false, s, e).value)
  {
    var s' := Step(false, s, e).value;
    assert !Pends(s, e.task);
    NoneWaits(s, e);
    forall t ensures !Pends(s', t) {
      assert !Pends(s, t);
    }
  }

  lemma {:induction false} NoneWaits(s: State, e: Event)
    requires Safe(false, s) && !Due(s) && Step(false, s, e).Some?
    ensures !e.Wake? && s.waiters == [] && (e.Arrive? ==> s.counter != 1 || s.counter >= MaxActive(false))
  {
    assert !Pends(s, e.task);
    assert forall t :: t in In(s, Waiting) ==> Pends(s, t);
    assert In(s, Waiting) == {};
  }

  lemma {:induction false} NothingDue(events: seq<Event>)
    requires Run(false, events).Some?
    ensures !Due(Run(false, events).value) && forall j :: 0 <= j < |events| ==> !events[j].Wake?
  {
    if events != [] {
      var n := |events| - 1;
      NothingDue(events[..n]);
      AlwaysSafe(false, events[..n]);
      StepNothingDue(Run(false, events[..n]).value, events[n]);
    }
  }

  lemma {:induction false} PrefixRuns(backlog: bool, events: seq<Event>, n: nat)
    requires Run(backlog, events).Some? && n <= |events|
    ensures Run(backlog, events[..n]).Some?
    ensures n < |events| ==>
              && Run(backlog, events[..n + 1]).Some?
              && Run(backlog, events[..n + 1]) == Step(backlog, Run(backlog, events[..n]).value, events[n])
    decreases |events|
  {
    if n < |events| {
      var init := events[..|events| - 1];
      assert init[..n] == events[..n];
      PrefixRuns(backlog, init, n);
      if n + 1 < |events| {
        assert init[..n + 1] == events[..n + 1];
      } else {
        assert events[..n + 1] == events;
      }
    } else {
      assert events[..n] == events;
    }
  }

  /** The counter after the first n events of a run. */
  ghost function CounterAt(events: seq<Event>, n: nat): int
    requires n <= |events|
  {
    var s := Run(false, events[..n]);
    if s.Some? then s.value.counter else 0
  }

  lemma {:induction false} StepCounter(s: State, e: Event)
    requires Safe(false, s) && !Due(s) && Step(false, s, e).Some?
    ensures !e.Wake? && 0 <= s.counter <= 1
    ensures Step(false, s, e).value.counter == if e.Arrive? then 1 else 0
    ensures e.Finish? ==> s.counter == 1
  {
    NoneWaits(s, e);
    if e.Finish? {
      assert e.task in In(s, Running);
      SomeMember(In(s, Running), e.task);
    }
  }

  lemma {:induction false} SomeMember<T>(s: set<T>, x: T)
    requires x in s
    ensures |s| >= 1
  {
    assert s == (s - {x}) + {x};
  }

  lemma {:induction false} CounterAfter(events: seq<Event>, e: Event)
    requires Run(false, events).Some? && Step(false, Run(false, events).value, e).Some?
    ensures var n := Run(false, events).value.counter;
            !e.Wake? && 0 <= n <= 1 && (e.Finish? ==> n == 1)
            && Step(false, Run(false, events).value, e).value.counter == if e.Arrive? then 1 else 0
  {
    NothingDue(events);
    AlwaysSafe(false, events);
    StepCounter(Run(false, events).value, e);
  }

  /** Without the backlog the counter is 1 after a push and 0 after an end of the processing. */
  lemma {:induction false} CounterStep(events: seq<Event>, n: nat)
    requires Run(false, events).Some? && n < |events|
    ensures 0 <= CounterAt(events, n) <= 1 && !events[n].Wake?
    ensures CounterAt(events, n + 1) == if events[n].Arrive? then 1 else 0
    ensures events[n].Finish? ==> CounterAt(events, n) == 1
    ensures Starts(false, events, n) <==> CounterAt(events, n) == 0
  {
    PrefixRuns(false, events, n);
    CounterBetween(events[..n], events[..n + 1], events[n]);
  }

  lemma {:induction false} CounterBetween(init: seq<Event>, more: seq<Event>, e: Event)
    requires Run(false, init).Some? && Run(false, more).Some? && Run(false, more) == Step(false, Run(false, init).value, e)
    ensures var n := Run(false, init).value.counter;
            !e.Wake? && 0 <= n <= 1 && (e.Finish? ==> n == 1)
            && Run(false, more).value.counter == if e.Arrive? then 1 else 0
  {
    CounterAfter(init, e);
  }

  /** From a busy counter to a start the processing ends in between. */
  lemma {:induction false} EndsBeforeStart(events: seq<Event>, n: nat, j: nat)
    requires Run(false, events).Some? && n <= j < |events| && Starts(false, events, j) && CounterAt(events, n) == 1
    ensures exists f :: n <= f < j && events[f].Finish?
    decreases j - n
  {
    CounterStep(events, n);
    CounterStep(events, j);
    if !events[n].Finish? {
      EndsBeforeStart(events, n + 1, j);
    }
  }

  /** Without the backlog a push is followed by a start exactly if it finds the counter at 0 itself, or the processing ends
      after it and another push comes after that. */
  lemma {:induction false} StartsWithoutBacklog(events: seq<Event>, i: nat)
    requires Run(false, events).Some? && i < |events| && events[i].Arrive?
    ensures (exists j :: i <= j < |events| && Starts(false, events, j)) <==>
            || CounterAt(events, i) == 0
            || (exists f, j :: i < f < j < |events| && events[f].Finish? && events[j].Arrive?)
  {
    CounterStep(events, i);
    if CounterAt(events, i) == 0 {
      assert Starts(false, events, i);
    } else {
      if j :| i <= j < |events| && Starts(false, events, j) {
        EndsBeforeStart(events, i, j);
        var f :| i <= f < j && events[f].Finish?;
        assert events[j].Arrive? by { CounterStep(events, j); }
        assert i < f < j;
      }
      if f, j :| i < f < j < |events| && events[f].Finish? && events[j].Arrive? {
        CounterStep(events, f);
        CounterStep(events, f + 1);
        assert Starts(false, events, f + 1);
      }
    }
  }

  /** Without the backlog a push that arrives during the processing is lost if no other follows. */
  lemma {:induction false} PushLostWithoutBacklog()
    ensures var events := [Arrive(1), Arrive(2), Finish(1)];
            Run(false, events) == Some(State(0, [], map[1 := Done, 2 := Discarded]))
            && !exists j :: 1 <= j < 3 && Starts(false, events, j)
  {
    var events := [Arrive(1), Arrive(2), Finish(1)];
    assert events[..2][..1] == events[..1] && events[..1][..0] == [];
    assert Run(false, events[..1]) == Some(State(1, [], map[1 := Running]));
    assert Run(false, events[..2]) == Some(State(1, [], map[1 := Running, 2 := Discarded]));
    assert map[1 := Running, 2 := Discarded][1 := Done] == map[1 := Done, 2 := Discarded];
    assert events[..|events| - 1] == events[..2];
  }

  // ---------- every admitted task runs once ----------

  /** How often a task is started in a run. */
  ghost function StartsOf(backlog: bool, events: seq<Event>, t: Task): nat
    requires Run(backlog, events).Some?
  {
    if events == [] then 0
    else
      var init, e := events[..|events| - 1], events[|events| - 1];
      StartsOf(backlog, init, t)
      + (if e == Wake(t) || (e == Arrive(t) && Run(backlog, init).value.counter == 0) then 1 else 0)
  }

  /** A task has been started once if it runs or is done, and not at all otherwise. */
  lemma {:induction false} StartedOnce(backlog: bool, events: seq<Event>, t: Task)
    requires Run(backlog, events).Some?
    ensures var phase := Run(backlog, events).value.phase;
            StartsOf(backlog, events, t) == if t in phase && (phase[t] == Running || phase[t] == Done) then 1 else 0
  {
    if events != [] {
      var init := events[..|events| - 1];
      StartedOnce(backlog, init, t);
      AlwaysSafe(backlog, init);
    }
  }

  // ---------- the tasks drain ----------

  ghost function Work(s: State): nat { 3 * |In(s, Waiting)| + 2 * |In(s, Notified)| + |In(s, Running)| }

  lemma {:induction false} OneLess(s: State, s': State, t: Task, from: Phase, to: Phase, p: Phase)
    requires t in s.phase && s.phase[t] == from != to
    requires In(s', p) == if p == to then In(s, p) + {t} else In(s, p) - {t}
    ensures |In(s', p)| == |In(s, p)| + (if p == to then 1 else 0) - (if p == from then 1 else 0)
  {
    assert t in In(s, p) <==> p == from;
    assert p != from ==> In(s, p) - {t} == In(s, p);
  }

  /** How the work changes when one task changes its phase. */
  lemma {:induction false} WorkAfter(s: State, s': State, t: Task, from: Phase, to: Phase)
    requires t in s.phase && s.phase[t] == from != to && s'.phase == s.phase[t := to]
    ensures Work(s') == Work(s) - Weight(from) + Weight(to)
  {
    InAfter(s, s', t, to);
    OneLess(s, s', t, from, to, Waiting);
    OneLess(s, s', t, from, to, Notified);
    OneLess(s, s', t, from, to, Running);
  }

  function Weight(p: Phase): nat {
    match p case Waiting => 3 case Notified => 2 case Running => 1 case _ => 0
  }

  lemma {:induction false} WorkFalls(backlog: bool, s: State, e: Event)
    requires Safe(backlog, s) && !e.Arrive? && Step(backlog, s, e).Some?
    ensures Work(Step(backlog, s, e).value) < Work(s)
  {
    var s' := Step(backlog, s, e).value;
    if e.Wake? {
      WorkAfter(s, s', e.task, Notified, Running);
    } else {
      var mid := State(s.counter, s.waiters, s.phase[e.task := Done]);
      WorkAfter(s, mid, e.task, Running, Done);
      if s.waiters != [] {
        WorkAfter(mid, s', s.waiters[0], Waiting, Notified);
      }
    }
  }

  /** While the counter is positive some task can go on without a push arriving. */
  lemma {:induction false} SomeStep(backlog: bool, s: State) returns (e: Event)
    requires Safe(backlog, s) && s.counter > 0
    ensures !e.Arrive? && Step(backlog, s, e).Some?
  {
    if |In(s, Running)| > 0 {
      var t := Member(In(s, Running));
      e := Finish(t);
    } else {
      var t := Member(In(s, Notified));
      e := Wake(t);
    }
  }

  /** Steps without arrivals are fewer than the work there is; when none is left to do, every task is done or discarded. */
  lemma {:induction false} Drains(backlog: bool, events: seq<Event>, more: seq<Event>)
    requires Run(backlog, events + more).Some? && forall e :: e in more ==> !e.Arrive?
    ensures Run(backlog, events).Some?
    ensures Work(Run(backlog, events + more).value) + |more| <= Work(Run(backlog, events).value)
    ensures var s := Run(backlog, events + more).value;
            s.counter == 0 ==> forall t :: t in s.phase ==> s.phase[t] == Done || s.phase[t] == Discarded
  {
    if more == [] {
      assert events + more == events;
    } else {
      var init, e := more[..|more| - 1], more[|more| - 1];
      var all := events + more;
      assert all[..|all| - 1] == events + init && all[|all| - 1] == e;
      Drains(backlog, events, init);
      AlwaysSafe(backlog, events + init);
      WorkFalls(backlog, Run(backlog, events + init).value, e);
    }
    AlwaysSafe(backlog, events + more);
    if Run(backlog, events + more).value.counter == 0 {
      NoneActive(backlog, Run(backlog, events + more).value);
    }
  }

  /** From every reachable state the tasks can run to the end, in no more steps than there is work. */
  lemma {:induction false} CanDrain(backlog: bool, events: seq<Event>) returns (more: seq<Event>)
    requires Run(backlog, events).Some?
    ensures |more| <= Work(Run(backlog, events).value) && forall e :: e in more ==> !e.Arrive?
    ensures Run(backlog, events + more).Some? && Run(backlog, events + more).value.counter == 0
    decreases Work(Run(backlog, events).value)
  {
    var s := Run(backlog, events).value;
    AlwaysSafe(backlog, events);
    if s.counter == 0 {
      more := [];
      assert events + more == events;
    } else {
      var e := SomeStep(backlog, s);
      WorkFalls(backlog, s, e);
      assert (events + [e])[..|events|] == events;
      var rest := CanDrain(backlog, events + [e]);
      more := [e] + rest;
      assert events + more == events + [e] + rest;
    }
  }

  // ---------- pull requests do not interact ----------

  /** An event of one of many pull requests. */
  datatype Global = Global(url: string, event: Event)

  function Get(world: map<string, State>, url: string): State { if url in world then world[url] else INIT }

  function RunAll(backlog: bool, events: seq<Global>): Option<map<string, State>> {
    if events == [] then Some(map[])
    else
      var before, e := RunAll(backlog, events[..|events| - 1]), events[|events| - 1];
      if before.None? then None
      else
        var s := Step(backlog, Get(before.value, e.url), e.event);
        if s.None? then None else Some(before.value[e.url := s.value])
  }

  function Own(events: seq<Global>, url: string): seq<Event> {
    if events == [] then []
    else Own(events[..|events| - 1], url)
         + (if events[|events| - 1].url == url then [events[|events| - 1].event] else [])
  }

  /** However the events of several pull requests are interleaved, each of them stands where its own events take it. */
  lemma {:induction false} Independent(backlog: bool, events: seq<Global>, url: string)
    requires RunAll(backlog, events).Some?
    ensures Run(backlog, Own(events, url)) == Some(Get(RunAll(backlog, events).value, url))
  {
    if events != [] {
      var init, e := events[..|events| - 1], events[|events| - 1];
      Independent(backlog, init, url);
      if e.url == url {
        var own := Own(init, url);
        assert (own + [e.event])[..|own|] == own;
      } else {
        assert Own(init, url) + [] == Own(init, url);
      }
    }
  }

  /** And events run together exactly if those of each pull request run by themselves. */
  lemma {:induction false} RunsTogether(backlog: bool, events: seq<Global>)
    ensures RunAll(backlog, events).Some? <==> forall url :: Run(backlog, Own(events, url)).Some?
  {
    if events == [] {
    } else {
      var init, e := events[..|events| - 1], events[|events| - 1];
      RunsTogether(backlog, init);
      forall url
        ensures Run(backlog, Own(events, url)) ==
                if url != e.url then Run(backlog, Own(init, url))
                else if Run(backlog, Own(init, url)).None? then None
                else Step(backlog, Run(backlog, Own(init, url)).value, e.event)
      {
        var own := Own(init, url);
        assert url == e.url ==> (own + [e.event])[..|own|] == own;
        assert own + [] == own;
      }
      if RunAll(backlog, init).Some? {
        Independent(backlog, init, e.url);
        assert forall url :: Run(backlog, Own(init, url)).Some?;
        assert Run(backlog, Own(events, e.url)) == Step(backlog, Run(backlog, Own(init, e.url)).value, e.event);
      } else {
        var url :| Run(backlog, Own(init, url)).None?;
        assert Run(backlog, Own(events, url)).None?;
      }
    }
  }
}
