/** What holds of every run of the persistent job scheduler (pkg/scheduler/scheduler.go). */
module SchedulerRuns {
  import opened Types
  import opened SchedulerProtocol

  // ---------- Spacing of executions ----------

  /** Execution `e` against the last one recorded before it. */
  predicate Spaced(previous: Entry, e: Entry)
    requires previous.Committed? && e.Committed?
  {
    // recorded times are a full period apart
    && e.recorded >= previous.recorded + e.period
    // so are the actual times of a ticker's executions
    && (!e.first ==> e.tick >= previous.tick + e.period * SECOND)
    // a first execution after Start may be early by the fraction of a second that storing rounds off
    && e.tick > previous.tick + (e.period - 1) * SECOND
  }

  predicate SpacedLog(log: seq<Entry>) {
    forall i | 0 <= i < |log| && log[i].Committed? ::
      var previous := LastCommit(log[..i], log[i].name);
      previous.Some? ==> Spaced(previous.value, log[i])
  }

  lemma SpacedLogAppend(log: seq<Entry>, e: Entry)
    requires SpacedLog(log)
    requires e.Committed? ==> var p := LastCommit(log, e.name); p.Some? ==> Spaced(p.value, e)
    ensures SpacedLog(log + [e])
  {
    var log' := log + [e];
    forall i | 0 <= i < |log'| && log'[i].Committed?
      ensures var p := LastCommit(log'[..i], log'[i].name); p.Some? ==> Spaced(p.value, log'[i])
    {
      if i < |log| {
        assert log'[..i] == log[..i] && log'[i] == log[i];
      } else {
        assert log'[..i] == log;
      }
    }
  }

  /** A tick committed after another is spaced from it. */
  lemma CommitIsSpaced(s: State, l: Label)
    requires Invariant(s) && WorkerStep(s, l).Some? && (l.FirstFire? || l.TickFire?)
    ensures var e := WorkerStep(s, l).value.log[|s.log|];
            && e.Committed? && e.name == l.name
            && e.recorded >= s.jobs[l.name].last
            && (LastCommit(s.log, l.name).Some? ==> Spaced(LastCommit(s.log, l.name).value, e))
  {
  }

  lemma StepKeepsSpacing(s: State, l: Label)
    requires Invariant(s) && SpacedLog(s.log) && Step(s, l).Some?
    ensures SpacedLog(Step(s, l).value.log)
  {
    if !IsControl(l) {
      var s' := WorkerStep(s, l).value;
      if |s'.log| > |s.log| {
        if l.FirstFire? || l.TickFire? {
          CommitIsSpaced(s, l);
        }
        SpacedLogAppend(s.log, s'.log[|s.log|]);
      }
    }
  }

  lemma {:induction false} RunKeepsSpacing(states: seq<State>, labels: seq<Label>, k: nat)
    requires IsRun(states, labels) && k < |states|
    ensures SpacedLog(states[k].log)
  {
    if k > 0 {
      RunKeepsSpacing(states, labels, k - 1);
      RunKeepsInvariant(states, labels, k - 1);
      assert Step(states[k - 1], labels[k - 1]) == Some(states[k - 1 + 1]);
      StepKeepsSpacing(states[k - 1], labels[k - 1]);
    } else {
      assert states[0].log == [];
    }
  }

  /**
   * Scheduler spacing. In every run with any Start, Stop, crash, Schedule and tick, two consecutive executions of a
   * job are recorded at least one period apart, by the period that the Start which armed the later one had read; the
   * ticks of a ticker are also really that far apart, and any two executions are by less than a second short of it.
   */
  lemma ExecutionsSpaced(states: seq<State>, labels: seq<Label>, k: nat, i: nat)
    requires IsRun(states, labels) && k < |states| && i < |states[k].log| && states[k].log[i].Committed?
    requires LastCommit(states[k].log[..i], states[k].log[i].name).Some?
    ensures Spaced(LastCommit(states[k].log[..i], states[k].log[i].name).value, states[k].log[i])
  {
    RunKeepsSpacing(states, labels, k);
  }

  /**
   * After a restart, the first timer of a job that was last executed at `tick` is due a full period after that iff
   * the execution was on a whole second, or the period has already passed when the timer is armed.
   */
  lemma FirstTimerMeetsPeriodIff(s: State, name: string)
    requires Invariant(s) && name in s.pending && name in s.registry && LastCommit(s.log, name).Some?
    ensures var tick := LastCommit(s.log, name).value.tick;
            var w := ControlStep(s, Arm(name)).value.workers[name];
            && w.First? && w.period == s.pending[name].period
            && (w.due >= tick + w.period * SECOND <==> tick % SECOND == 0 || s.now >= tick + w.period * SECOND)
  {
  }

  /** Two executions of one job, less than the period of the later one apart. */
  predicate TooClose(s: State) {
    && |s.log| == 2 && s.log[0].Committed? && s.log[1].Committed? && s.log[0].name == s.log[1].name
    && s.log[1].tick - s.log[0].tick < s.log[1].period * SECOND
  }

  // A job of period 10 s, executed at 1.9 s and, after a crash, again at 11 s.
  const T1 := 1_900_000_000
  const T2 := 11_000_000_000
  const E0 := State(T1, map["j" := Job(ZERO_TIME, 10)], {"j"}, map[], map[], [])
  const E1 := E0.(pending := E0.jobs)
  const E2 := E1.(workers := E1.workers["j" := First(T1, 10)], pending := E1.pending - {"j"})
  const E3 := E2.(jobs := E2.jobs["j" := Job(1, 10)], workers := E2.workers["j" := FirstCommitted(T1, 10)],
                  log := E2.log + [Committed("j", T1, 1, 10, true)])
  const E4 := E3.(pending := map[], workers := map[])
  const E5 := E4.(now := T2)
  const E6 := E5.(pending := E5.jobs)
  const E7 := E6.(workers := E6.workers["j" := First(T2, 10)], pending := E6.pending - {"j"})
  const E8 := E7.(jobs := E7.jobs["j" := Job(11, 10)], workers := E7.workers["j" := FirstCommitted(T2, 10)],
                  log := E7.log + [Committed("j", T2, 11, 10, true)])

  lemma EarlySteps()
    ensures Step(E0, StartRead) == Some(E1) && Step(E1, Arm("j")) == Some(E2)
    ensures Step(E2, FirstFire("j", T1)) == Some(E3) && Step(E3, Crash) == Some(E4)
  {
  }

  lemma EarlyStepsAfterCrash()
    ensures Step(E4, Advance(T2)) == Some(E5) && Step(E5, StartRead) == Some(E6)
    ensures Step(E6, Arm("j")) == Some(E7)
  {
  }

  lemma EarlyLastStep()
    ensures Step(E7, FirstFire("j", T2)) == Some(E8) && TooClose(E8)
  {
  }

  predicate Reaches(states: seq<State>, labels: seq<Label>, last: State) {
    IsRun(states, labels) && states[|labels|] == last
  }

  lemma ExtendRun(states: seq<State>, labels: seq<Label>, last: State, l: Label, next: State)
    requires Reaches(states, labels, last) && Step(last, l) == Some(next)
    ensures Reaches(states + [next], labels + [l], next)
  {
  }

  lemma EarlyRunUpToCrash() returns (states: seq<State>, labels: seq<Label>)
    ensures Reaches(states, labels, E4)
  {
    EarlySteps();
    states, labels := [E0], [];
    ExtendRun(states, labels, E0, StartRead, E1);
    states, labels := states + [E1], labels + [StartRead];
    ExtendRun(states, labels, E1, Arm("j"), E2);
    states, labels := states + [E2], labels + [Arm("j")];
    ExtendRun(states, labels, E2, FirstFire("j", T1), E3);
    states, labels := states + [E3], labels + [FirstFire("j", T1)];
    ExtendRun(states, labels, E3, Crash, E4);
    states, labels := states + [E4], labels + [Crash];
  }

  /** The shortfall is real. */
  lemma EarlyFirstExecution()
    ensures exists states: seq<State>, labels: seq<Label> :: IsRun(states, labels) && TooClose(states[|labels|])
  {
    EarlyStepsAfterCrash();
    EarlyLastStep();
    var states, labels := EarlyRunUpToCrash();
    ExtendRun(states, labels, E4, Advance(T2), E5);
    states, labels := states + [E5], labels + [Advance(T2)];
    ExtendRun(states, labels, E5, StartRead, E6);
    states, labels := states + [E6], labels + [StartRead];
    ExtendRun(states, labels, E6, Arm("j"), E7);
    states, labels := states + [E7], labels + [Arm("j")];
    ExtendRun(states, labels, E7, FirstFire("j", T2), E8);
  }

  // ---------- The first execution after Start ----------

  predicate EndsLife(l: Label) {
    l.Stop? || l.Crash?
  }

  predicate ExecutesFirst(l: Label, name: string) {
    (l.FirstFire? || l.FirstFail?) && l.name == name
  }

  lemma {:induction false} FirstTimerWaits(states: seq<State>, labels: seq<Label>, i: nat, j: nat, name: string)
    requires IsRun(states, labels) && i < j < |states| && labels[i] == Arm(name)
    requires forall k | i < k < j :: !EndsLife(labels[k]) && !ExecutesFirst(labels[k], name)
    ensures name in states[i].pending && name in states[j].workers
    ensures states[j].workers[name] == FirstTimer(states[i].pending[name], states[i].now)
  {
    var k := j - 1;
    assert Step(states[k], labels[k]) == Some(states[k + 1]);
    if k > i {
      FirstTimerWaits(states, labels, i, k, name);
      RunKeepsInvariant(states, labels, k);
    }
  }

  /**
   * The first execution after Start comes no earlier than max(now, last + period), for the time at which its timer was
   * armed and the stored last execution and period that Start read.
   */
  lemma FirstExecutionDue(states: seq<State>, labels: seq<Label>, i: nat, j: nat, name: string)
    requires IsRun(states, labels) && i < j < |labels| && labels[i] == Arm(name)
    requires labels[j].FirstFire? && labels[j].name == name
    requires forall k | i < k < j :: !EndsLife(labels[k]) && !ExecutesFirst(labels[k], name)
    ensures name in states[i].pending && name in states[i].jobs
    ensures var job := states[i].pending[name];
            && job.last == states[i].jobs[name].last
            && labels[j].tick >= Max(states[i].now, (job.last + job.period) * SECOND)
  {
    RunKeepsInvariant(states, labels, i);
    FirstTimerWaits(states, labels, i, j, name);
    assert Step(states[i], labels[i]) == Some(states[i + 1]);
    assert Step(states[j], labels[j]) == Some(states[j + 1]);
  }

  /** A first timer that has come due can fire, and what follows a tick can follow. */
  lemma FirstTickFollows(s: State, name: string, tick: int)
    requires name in s.workers && s.workers[name].First? && name in s.jobs && s.workers[name].due <= tick <= s.now
    ensures var period := s.workers[name].period;
            var fired := Step(s, FirstFire(name, tick));
            && fired.Some? && name in fired.value.jobs && fired.value.jobs[name].last == tick / SECOND
            && var ran := Step(fired.value, FirstBody(name));
            && ran.Some? && ran.value.log == fired.value.log + [Ran(name, tick)]
            && var ticking := Step(ran.value, MakeTicker(name));
            && ticking.Some? && name in ticking.value.workers
            && ticking.value.workers[name] == if period > 0 then Ticking(s.now + period * SECOND, period) else Dead
  {
  }

  /**
   * And it may come at any time from then on: the timer that a Start armed fires at once for a job that is overdue, and
   * otherwise when the period is over. Once it has fired, the tick's transaction, the body and the ticker follow.
   */
  lemma FirstExecutionPossible(states: seq<State>, labels: seq<Label>, i: nat, j: nat, name: string, tick: int)
    requires IsRun(states, labels) && i < j < |states| && labels[i] == Arm(name)
    requires forall k | i < k < j :: !EndsLife(labels[k]) && !ExecutesFirst(labels[k], name)
    requires name in states[i].pending
    requires var (job, armedAt) := (states[i].pending[name], states[i].now);
             var over := (job.last + job.period) * SECOND;
             (if over <= armedAt then armedAt else over) <= tick <= states[j].now
    ensures var period := states[i].pending[name].period;
            var fired := Step(states[j], FirstFire(name, tick));
            && fired.Some? && name in fired.value.jobs && fired.value.jobs[name].last == tick / SECOND
            && var ran := Step(fired.value, FirstBody(name));
            && ran.Some? && ran.value.log == fired.value.log + [Ran(name, tick)]
            && var ticking := Step(ran.value, MakeTicker(name));
            && ticking.Some? && name in ticking.value.workers
            && ticking.value.workers[name] ==
               if period > 0 then Ticking(states[j].now + period * SECOND, period) else Dead
  {
    FirstTimerWaits(states, labels, i, j, name);
    RunKeepsInvariant(states, labels, j);
    FirstTickFollows(states[j], name, tick);
  }

  // ---------- The ticks of a ticker ----------

  /** The tick of a ticker that is next, or is being handled. */
  function NextTick(w: Worker): Option<int> {
    match w
    case Ticking(next, _) => Some(next)
    case TickCommitted(tick, _) => Some(tick)
    case _ => None
  }

  /** The step is done with a tick of the job: it was handled, or it failed or was dropped. */
  predicate EndsTick(l: Label, name: string) {
    (l.TickSkip? || l.TickBody?) && l.name == name
  }

  function TicksEnded(labels: seq<Label>, name: string): nat {
    if labels == [] then 0
    else TicksEnded(labels[..|labels| - 1], name) + if EndsTick(labels[|labels| - 1], name) then 1 else 0
  }

  lemma TickStep(s: State, l: Label, name: string)
    requires Invariant(s) && Step(s, l).Some? && !EndsLife(l) && name in s.workers && NextTick(s.workers[name]).Some?
    ensures var s' := Step(s, l).value;
            && name in s'.workers
            && (s'.workers[name].Dead?
                || (s'.workers[name].period == s.workers[name].period
                    && NextTick(s'.workers[name])
                       == Some(NextTick(s.workers[name]).value
                               + if EndsTick(l, name) then s.workers[name].period * SECOND else 0)))
  {
    if IsControl(l) {
      ControlLeavesTicker(s, l, name);
    }
  }

  lemma ControlLeavesTicker(s: State, l: Label, name: string)
    requires Invariant(s) && ControlStep(s, l).Some? && !EndsLife(l) && name in s.workers
    ensures name in ControlStep(s, l).value.workers && ControlStep(s, l).value.workers[name] == s.workers[name]
  {
  }

  lemma DeadStays(s: State, l: Label, name: string)
    requires Invariant(s) && Step(s, l).Some? && !EndsLife(l) && name in s.workers && s.workers[name].Dead?
    ensures name in Step(s, l).value.workers && Step(s, l).value.workers[name].Dead?
  {
  }

  /** When the tick after `n` others comes, of a ticker made at `start`. */
  function GridTime(start: int, n: nat, period: int): int {
    start + (n + 1) * (period * SECOND)
  }

  /** The worker has ended, or its tick is due at that time. */
  predicate OnGrid(w: Worker, period: int, due: int) {
    w.Dead? || (period > 0 && NextTick(w) == Some(due) && w.period == period)
  }

  lemma OnePeriodOn(start: int, n: nat, period: int)
    ensures GridTime(start, n, period) + period * SECOND == GridTime(start, n + 1, period)
  {
  }

  lemma GridBegins(s: State, name: string)
    requires Step(s, MakeTicker(name)).Some?
    ensures var s' := Step(s, MakeTicker(name)).value;
            && name in s.workers && s.workers[name].FirstDone? && name in s'.workers
            && OnGrid(s'.workers[name], s.workers[name].period, GridTime(s.now, 0, s.workers[name].period))
  {
  }

  lemma GridStep(s: State, l: Label, name: string, start: int, n: nat, period: int)
    requires Invariant(s) && Step(s, l).Some? && !EndsLife(l)
    requires name in s.workers && OnGrid(s.workers[name], period, GridTime(start, n, period))
    ensures name in Step(s, l).value.workers
    ensures OnGrid(Step(s, l).value.workers[name], period,
                   GridTime(start, if EndsTick(l, name) then n + 1 else n, period))
  {
    if s.workers[name].Dead? {
      DeadStays(s, l, name);
    } else {
      TickStep(s, l, name);
      OnePeriodOn(start, n, period);
    }
  }

  lemma TicksEndedExtend(labels: seq<Label>, i: nat, k: nat, name: string)
    requires i <= k < |labels|
    ensures TicksEnded(labels[i..k + 1], name) ==
            TicksEnded(labels[i..k], name) + if EndsTick(labels[k], name) then 1 else 0
  {
    var window := labels[i..k + 1];
    assert window[..|window| - 1] == labels[i..k];
  }

  /**
   * A ticker keeps to its grid: as long as the scheduler runs and no body panics, the tick that is next, or is being
   * handled, is one period after the ticker was made and one more for each tick that was handled, failed or dropped.
   */
  lemma {:induction false} TicksOnGrid(states: seq<State>, labels: seq<Label>, i: nat, j: nat, name: string)
    requires IsRun(states, labels) && i < j < |states| && labels[i] == MakeTicker(name)
    requires forall k | i < k < j :: !EndsLife(labels[k])
    ensures name in states[i].workers && states[i].workers[name].FirstDone? && name in states[j].workers
    ensures var period := states[i].workers[name].period;
            OnGrid(states[j].workers[name], period,
                   GridTime(states[i].now, TicksEnded(labels[i + 1..j], name), period))
  {
    var k := j - 1;
    assert Step(states[k], labels[k]) == Some(states[k + 1]);
    if k > i {
      TicksOnGrid(states, labels, i, k, name);
      RunKeepsInvariant(states, labels, k);
      TicksEndedExtend(labels, i + 1, k, name);
      GridStep(states[k], labels[k], name, states[i].now, TicksEnded(labels[i + 1..k], name),
               states[i].workers[name].period);
    } else {
      GridBegins(states[i], name);
      assert labels[i + 1..j] == [];
    }
  }

  /** A tick that has come can be handled: its time is committed, its body runs, and the next is one period on. */
  lemma TickPossible(states: seq<State>, labels: seq<Label>, j: nat, name: string)
    requires IsRun(states, labels) && j < |states| && name in states[j].workers && states[j].workers[name].Ticking?
    requires states[j].workers[name].next <= states[j].now
    ensures var w := states[j].workers[name];
            var fired := Step(states[j], TickFire(name));
            && fired.Some? && name in fired.value.jobs && fired.value.jobs[name].last == w.next / SECOND
            && var ran := Step(fired.value, TickBody(name));
            && ran.Some? && ran.value.log == fired.value.log + [Ran(name, w.next)]
            && name in ran.value.workers && ran.value.workers[name] == Ticking(w.next + w.period * SECOND, w.period)
  {
    RunKeepsInvariant(states, labels, j);
  }

  // ---------- The period in force ----------

  function PeriodOf(w: Worker): Option<int> {
    if w.Dead? then None else Some(w.period)
  }

  /** What Start has read and not yet armed is what was stored when it read. */
  lemma {:induction false} PendingIsSnapshot(states: seq<State>, labels: seq<Label>, h: nat, i: nat, name: string)
    requires IsRun(states, labels) && h < i < |states| && labels[h] == StartRead
    requires forall k | h < k < i :: labels[k] != StartRead
    requires name in states[i].pending
    ensures name in states[h].jobs && states[i].pending[name] == states[h].jobs[name]
  {
    var k := i - 1;
    assert Step(states[k], labels[k]) == Some(states[k + 1]);
    if h < k {
      PendingIsSnapshot(states, labels, h, k, name);
    }
  }

  lemma StepKeepsPeriod(s: State, l: Label, name: string)
    requires Invariant(s) && Step(s, l).Some? && !EndsLife(l) && name in s.workers
    ensures var s' := Step(s, l).value;
            && name in s'.workers
            && (PeriodOf(s'.workers[name]) == PeriodOf(s.workers[name]) || s'.workers[name].Dead?)
            && (!IsControl(l) && |s'.log| > |s.log| && s'.log[|s.log|].Committed? && l.name == name ==>
                  Some(s'.log[|s.log|].period) == PeriodOf(s.workers[name]))
  {
  }

  lemma {:induction false} WorkerKeepsPeriod(states: seq<State>, labels: seq<Label>, i: nat, j: nat, name: string)
    requires IsRun(states, labels) && i < j < |states| && labels[i] == Arm(name)
    requires forall k | i < k < j :: !EndsLife(labels[k])
    ensures name in states[i].pending && name in states[j].workers
    ensures states[j].workers[name].Dead?
            || PeriodOf(states[j].workers[name]) == Some(states[i].pending[name].period)
  {
    var k := j - 1;
    assert Step(states[k], labels[k]) == Some(states[k + 1]);
    if i < k {
      WorkerKeepsPeriod(states, labels, i, k, name);
      RunKeepsInvariant(states, labels, k);
      StepKeepsPeriod(states[k], labels[k], name);
    }
  }

  /**
   * The period by which an execution is spaced is the one that was stored when the Start that armed the job read it,
   * whatever has been scheduled since.
   */
  lemma ExecutionUsesPeriodOfItsStart(states: seq<State>, labels: seq<Label>, h: nat, i: nat, j: nat, name: string)
    requires IsRun(states, labels) && h < i < j < |labels|
    requires labels[h] == StartRead && labels[i] == Arm(name) && forall k | h < k < i :: labels[k] != StartRead
    requires forall k | i < k < j :: !EndsLife(labels[k])
    requires labels[j].FirstFire? || labels[j].TickFire?
    requires labels[j].name == name
    ensures name in states[h].jobs && |states[j + 1].log| == |states[j].log| + 1
    ensures var e := states[j + 1].log[|states[j].log|];
            e.Committed? && e.name == name && e.period == states[h].jobs[name].period
  {
    WorkerKeepsPeriod(states, labels, i, j, name);
    PendingIsSnapshot(states, labels, h, i, name);
    RunKeepsInvariant(states, labels, j);
    assert Step(states[j], labels[j]) == Some(states[j + 1]);
    StepKeepsPeriod(states[j], labels[j], name);
  }

  // ---------- Bodies run only after their time is committed ----------

  function Commits(log: seq<Entry>, name: string): nat {
    if log == [] then 0
    else Commits(log[..|log| - 1], name)
         + if log[|log| - 1].Committed? && log[|log| - 1].name == name then 1 else 0
  }

  function Bodies(log: seq<Entry>, name: string): nat {
    if log == [] then 0
    else Bodies(log[..|log| - 1], name) + if log[|log| - 1].Ran? && log[|log| - 1].name == name then 1 else 0
  }

  /** How many bodies of a job are accounted to it: those that ran and the one still to run. */
  function Owed(s: State, name: string): nat {
    Bodies(s.log, name) + if name in s.workers && Handling(s.workers[name]) then 1 else 0
  }

  /** Each body is paid for by a commit of its own: one more commit than bodies while one is still to run. */
  ghost predicate BodiesPaid(s: State) {
    forall name :: Owed(s, name) <= Commits(s.log, name)
  }

  /** Before each body, the last commit of its job is of that body's tick. */
  predicate BodiesTimed(log: seq<Entry>) {
    forall i | 0 <= i < |log| && log[i].Ran? ::
      var c := LastCommit(log[..i], log[i].name); c.Some? && c.value.tick == log[i].tick
  }

  lemma BodiesTimedAppend(log: seq<Entry>, e: Entry)
    requires BodiesTimed(log)
    requires e.Ran? ==> var c := LastCommit(log, e.name); c.Some? && c.value.tick == e.tick
    ensures BodiesTimed(log + [e])
  {
    var log' := log + [e];
    forall i | 0 <= i < |log'| && log'[i].Ran?
      ensures var c := LastCommit(log'[..i], log'[i].name); c.Some? && c.value.tick == log'[i].tick
    {
      assert log'[..i] == log[..i];
    }
  }

  lemma StepKeepsBodiesTimed(s: State, l: Label)
    requires Invariant(s) && BodiesTimed(s.log) && Step(s, l).Some?
    ensures BodiesTimed(Step(s, l).value.log)
  {
    var s' := Step(s, l).value;
    if |s'.log| > |s.log| {
      assert WorkerOk(s, l.name, s.workers[l.name]);
      BodiesTimedAppend(s.log, s'.log[|s.log|]);
    }
  }

  lemma ControlKeepsBodiesPaid(s: State, l: Label)
    requires BodiesPaid(s) && ControlStep(s, l).Some?
    ensures BodiesPaid(ControlStep(s, l).value)
  {
  }

  lemma CountsAppend(log: seq<Entry>, e: Entry, name: string)
    ensures Commits(log + [e], name) == Commits(log, name) + if e.Committed? && e.name == name then 1 else 0
    ensures Bodies(log + [e], name) == Bodies(log, name) + if e.Ran? && e.name == name then 1 else 0
  {
    assert (log + [e])[..|log|] == log;
  }

  /** Which entry a step of a job's goroutines adds, and whether a body is still to run before and after it. */
  lemma WorkerStepAdds(s: State, l: Label)
    requires WorkerStep(s, l).Some?
    ensures var s' := WorkerStep(s, l).value;
            && l.name in s.workers && s'.workers == s.workers[l.name := s'.workers[l.name]]
            && (if l.FirstFire? || l.TickFire? then
                  && |s'.log| == |s.log| + 1 && s'.log == s.log + [s'.log[|s.log|]]
                  && s'.log[|s.log|].Committed? && s'.log[|s.log|].name == l.name
                  && !Handling(s.workers[l.name]) && Handling(s'.workers[l.name])
                else if l.FirstBody? || l.TickBody? || l.TickPanic? then
                  && |s'.log| == |s.log| + 1 && s'.log == s.log + [s'.log[|s.log|]]
                  && s'.log[|s.log|].Ran? && s'.log[|s.log|].name == l.name
                  && Handling(s.workers[l.name]) && !Handling(s'.workers[l.name])
                else
                  s'.log == s.log && Handling(s.workers[l.name]) == Handling(s'.workers[l.name]))
  {
  }

  lemma WorkerStepOwes(s: State, l: Label, name: string)
    requires WorkerStep(s, l).Some? && Owed(s, name) <= Commits(s.log, name)
    ensures Owed(WorkerStep(s, l).value, name) <= Commits(WorkerStep(s, l).value.log, name)
  {
    var log := WorkerStep(s, l).value.log;
    WorkerStepAdds(s, l);
    if |log| > |s.log| {
      CountsAppend(s.log, log[|s.log|], name);
    }
  }

  lemma WorkerKeepsBodiesPaid(s: State, l: Label)
    requires BodiesPaid(s) && WorkerStep(s, l).Some?
    ensures BodiesPaid(WorkerStep(s, l).value)
  {
    forall name
      ensures Owed(WorkerStep(s, l).value, name) <= Commits(WorkerStep(s, l).value.log, name)
    {
      WorkerStepOwes(s, l, name);
    }
  }

  lemma {:induction false} RunKeepsBodiesPaid(states: seq<State>, labels: seq<Label>, k: nat)
    requires IsRun(states, labels) && k < |states|
    ensures BodiesPaid(states[k]) && BodiesTimed(states[k].log)
  {
    if k > 0 {
      RunKeepsBodiesPaid(states, labels, k - 1);
      RunKeepsInvariant(states, labels, k - 1);
      assert Step(states[k - 1], labels[k - 1]) == Some(states[k - 1 + 1]);
      StepKeepsBodiesTimed(states[k - 1], labels[k - 1]);
      if IsControl(labels[k - 1]) {
        ControlKeepsBodiesPaid(states[k - 1], labels[k - 1]);
      } else {
        WorkerKeepsBodiesPaid(states[k - 1], labels[k - 1]);
      }
    }
  }

  /**
   * No job body runs without its time having been committed first: the last commit before a body is of that body's
   * tick, and there are never more bodies than commits.
   */
  lemma BodyOnlyAfterCommit(states: seq<State>, labels: seq<Label>, k: nat, i: nat)
    requires IsRun(states, labels) && k < |states| && i < |states[k].log| && states[k].log[i].Ran?
    ensures var c := LastCommit(states[k].log[..i], states[k].log[i].name);
            c.Some? && c.value.tick == states[k].log[i].tick
    ensures Bodies(states[k].log, states[k].log[i].name) <= Commits(states[k].log, states[k].log[i].name)
  {
    RunKeepsBodiesPaid(states, labels, k);
  }

  /** No tick comes before its time, and none in the future. */
  lemma NoTickBeforeItsTime(s: State, name: string)
    ensures forall tick | Step(s, FirstFire(name, tick)).Some? ::
              name in s.workers && s.workers[name].First? && s.workers[name].due <= tick <= s.now
    ensures Step(s, FirstFail(name)).Some? ==>
              name in s.workers && s.workers[name].First? && s.workers[name].due <= s.now
    ensures Step(s, TickFire(name)).Some? || Step(s, TickSkip(name)).Some? ==>
              name in s.workers && s.workers[name].Ticking? && s.workers[name].next <= s.now
  {
  }

  /** Stop waits: it ends no body that is running, and as soon as none is, it drops every timer. */
  lemma StopWaits(s: State)
    ensures Step(s, Stop) ==
            if exists name :: name in s.workers && (s.workers[name].FirstCommitted? || s.workers[name].TickCommitted?)
            then None else Some(s.(pending := map[], workers := map[]))
  {
  }

  // ---------- A goroutine that ended ----------

  /** A step that executes a job: its time is committed, or its body begins. */
  predicate Executes(l: Label, name: string) {
    (l.FirstFire? || l.FirstBody? || l.TickFire? || l.TickBody? || l.TickPanic?) && l.name == name
  }

  lemma DeadStepKeeps(s: State, l: Label, name: string)
    requires Invariant(s) && Step(s, l).Some? && !EndsLife(l) && name in s.workers && s.workers[name].Dead?
    ensures name in Step(s, l).value.workers && Step(s, l).value.workers[name].Dead? && !Executes(l, name)
  {
    DeadStays(s, l, name);
  }

  /**
   * A job whose body has panicked on a tick of its ticker, or whose period was not positive, is not executed again, nor
   * does its body run, before the scheduler is stopped or the process ends; nothing that is scheduled changes that.
   */
  lemma {:induction false} DeadJobNeverExecutes(states: seq<State>, labels: seq<Label>, i: nat, j: nat, name: string)
    requires IsRun(states, labels) && i <= j < |labels|
    requires name in states[i].workers && states[i].workers[name].Dead?
    requires forall k | i <= k <= j :: !EndsLife(labels[k])
    ensures name in states[j].workers && states[j].workers[name].Dead? && !Executes(labels[j], name)
  {
    if i < j {
      DeadJobNeverExecutes(states, labels, i, j - 1, name);
      RunKeepsInvariant(states, labels, j - 1);
      assert Step(states[j - 1], labels[j - 1]) == Some(states[j - 1 + 1]);
      DeadStepKeeps(states[j - 1], labels[j - 1], name);
    }
    RunKeepsInvariant(states, labels, j);
    assert Step(states[j], labels[j]) == Some(states[j + 1]);
    DeadStepKeeps(states[j], labels[j], name);
  }

  /** And a panic on a tick has just that effect. */
  lemma PanicKillsJob(states: seq<State>, labels: seq<Label>, i: nat, j: nat, name: string)
    requires IsRun(states, labels) && i < j < |labels| && labels[i] == TickPanic(name)
    requires forall k | i < k <= j :: !EndsLife(labels[k])
    ensures !Executes(labels[j], name)
  {
    assert Step(states[i], labels[i]) == Some(states[i + 1]);
    DeadJobNeverExecutes(states, labels, i + 1, j, name);
  }

  // ---------- No lost updates ----------

  /** The period of the last Schedule of a job among `labels`, as stored. */
  function LastScheduled(labels: seq<Label>, name: string): Option<int> {
    if labels == [] then None
    else
      var l := labels[|labels| - 1];
      if l.Schedule? && l.name == name then Some(TruncateToSeconds(l.period))
      else LastScheduled(labels[..|labels| - 1], name)
  }

  /** One transaction never moves a job's last execution back nor loses the job, and only Schedule sets its period. */
  lemma StepKeepsJob(s: State, l: Label, name: string)
    requires Invariant(s) && Step(s, l).Some? && name in s.jobs
    ensures var s' := Step(s, l).value;
            && name in s'.jobs && s'.jobs[name].last >= s.jobs[name].last
            && s'.jobs[name].period
               == if l.Schedule? && l.name == name then TruncateToSeconds(l.period) else s.jobs[name].period
  {
  }

  lemma LastScheduledExtend(labels: seq<Label>, i: nat, k: nat, name: string)
    requires i < k <= |labels|
    ensures LastScheduled(labels[i..k], name) ==
            var l := labels[k - 1];
            if l.Schedule? && l.name == name then Some(TruncateToSeconds(l.period))
            else LastScheduled(labels[i..k - 1], name)
  {
    var window := labels[i..k];
    assert window[..|window| - 1] == labels[i..k - 1];
  }

  /**
   * No lost updates. In every serialised interleaving of Schedule, Start and tick transactions, a job's last execution
   * never goes backwards, and its period is always that of the last committed Schedule, or the one stored initially.
   */
  lemma {:induction false} NoLostUpdates(states: seq<State>, labels: seq<Label>, i: nat, k: nat, name: string)
    requires IsRun(states, labels) && i <= k < |states| && name in states[i].jobs
    ensures name in states[k].jobs && states[k].jobs[name].last >= states[i].jobs[name].last
    ensures var scheduled := LastScheduled(labels[i..k], name);
            states[k].jobs[name].period == if scheduled.Some? then scheduled.value else states[i].jobs[name].period
  {
    if i < k {
      NoLostUpdates(states, labels, i, k - 1, name);
      RunKeepsInvariant(states, labels, k - 1);
      assert Step(states[k - 1], labels[k - 1]) == Some(states[k - 1 + 1]);
      StepKeepsJob(states[k - 1], labels[k - 1], name);
      LastScheduledExtend(labels, i, k, name);
    }
  }
}
