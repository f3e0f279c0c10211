/**
 * The persistent job scheduler (pkg/scheduler/scheduler.go) as steps: its storage transactions, its first-shot timers
 * and tickers, and any interleaving of these with Schedule calls, stops, crashes and restarts. The clock is exact and
 * never goes back; a ticker's ticks lie on its own grid.
 */
module SchedulerProtocol {
  import opened Types

  /** Nanoseconds in a second. Stored times and periods are whole seconds (pkg/scheduler/storage/sqlite/jobs.go). */
  const SECOND := 1_000_000_000

  /** Unix() of Go's zero time, which stands for "never executed". */
  const ZERO_TIME := -62135596800

  datatype Job = Job(last: int, period: int)

  /** What runs for one job after Start. The first tick is `First`'s; the ticker is made once that is handled. */
  datatype Worker =
    | First(due: int, period: int)
    | FirstCommitted(tick: int, period: int)
    | FirstDone(period: int)
    | Ticking(next: int, period: int)
    | TickCommitted(tick: int, period: int)
    | Dead

  /** History: an execution time that was committed, and a job body that began to run. `period` is the one Start read. */
  datatype Entry =
    | Committed(name: string, tick: int, recorded: int, period: int, first: bool)
    | Ran(name: string, tick: int)

  datatype State = State(
    now: int,
    jobs: map<string, Job>,
    registry: set<string>,
    pending: map<string, Job>,
    workers: map<string, Worker>,
    log: seq<Entry>
  )

  datatype Label =
    | Advance(to: int)
    | Schedule(name: string, period: int)
    | Register(name: string)
    | StartRead
    | Arm(name: string)
    | ArmFail(name: string)
    | FirstFire(name: string, tick: int)
    | FirstFail(name: string)
    | FirstBody(name: string)
    | MakeTicker(name: string)
    | TickFire(name: string)
    | TickSkip(name: string)
    | TickBody(name: string)
    | TickPanic(name: string)
    | Stop
    | Crash

  /** Go's integer division truncates toward zero. */
  function TruncateToSeconds(period: int): (r: int)
    ensures period >= 0 ==> r * SECOND <= period < (r + 1) * SECOND
    ensures period < 0 ==> (r - 1) * SECOND < period <= r * SECOND
  {
    if period >= 0 then period / SECOND else -(-period / SECOND)
  }

  /** Unix(): whole seconds, rounded down. */
  function Unix(t: int): int {
    t / SECOND
  }

  function Max(a: int, b: int): int {
    if a < b then b else a
  }

  /** Schedule keeps the last execution time of a known job and replaces its period. */
  function Rescheduled(jobs: map<string, Job>, name: string, period: int): map<string, Job> {
    jobs[name := Job(if name in jobs then jobs[name].last else ZERO_TIME, TruncateToSeconds(period))]
  }

  /** updateJobExecutionTime. */
  function Executed(jobs: map<string, Job>, name: string, tick: int): map<string, Job>
    requires name in jobs
  {
    jobs[name := jobs[name].(last := Unix(tick))]
  }

  /** The timer for the first execution: due at last + period, or now if that has passed. */
  function FirstTimer(job: Job, now: int): Worker {
    First(Max(now, (job.last + job.period) * SECOND), job.period)
  }

  function Handling(w: Worker): bool {
    w.FirstCommitted? || w.TickCommitted?
  }

  /** Schedule, registration and Start. Start reads all jobs in one transaction, then arms one timer after another. */
  function ControlStep(s: State, l: Label): Option<State> {
    match l
    case Advance(to) => if to < s.now then None else Some(s.(now := to))
    case Schedule(name, period) => Some(s.(jobs := Rescheduled(s.jobs, name, period)))
    case Register(name) => Some(s.(registry := s.registry + {name}))
    case StartRead => if s.workers != map[] || s.pending != map[] then None else Some(s.(pending := s.jobs))
    case Arm(name) =>
      if name !in s.pending || name !in s.registry then None
      else Some(s.(workers := s.workers[name := FirstTimer(s.pending[name], s.now)], pending := s.pending - {name}))
    case ArmFail(name) =>
      if name !in s.pending || name in s.registry then None else Some(s.(pending := map[]))
    case Stop =>
      if exists name :: name in s.workers && Handling(s.workers[name]) then None
      else Some(s.(pending := map[], workers := map[]))
    case Crash => Some(s.(pending := map[], workers := map[]))
    case _ => None
  }

  /** One job's goroutines: the transaction of a tick, the job body, and the making of the ticker. */
  function WorkerStep(s: State, l: Label): Option<State> {
    match l
    case FirstFire(name, tick) =>
      if name !in s.workers || !s.workers[name].First? || name !in s.jobs then None
      else
        var w := s.workers[name];
        if !(w.due <= tick <= s.now) then None
        else Some(s.(jobs := Executed(s.jobs, name, tick),
                     workers := s.workers[name := FirstCommitted(tick, w.period)],
                     log := s.log + [Committed(name, tick, Unix(tick), w.period, true)]))
    case FirstFail(name) =>
      if name !in s.workers || !s.workers[name].First? || s.now < s.workers[name].due then None
      else Some(s.(workers := s.workers[name := FirstDone(s.workers[name].period)]))
    case FirstBody(name) =>
      if name !in s.workers || !s.workers[name].FirstCommitted? then None
      else
        var w := s.workers[name];
        Some(s.(workers := s.workers[name := FirstDone(w.period)], log := s.log + [Ran(name, w.tick)]))
    case MakeTicker(name) =>
      if name !in s.workers || !s.workers[name].FirstDone? then None
      else
        // a ticker for a period that is not positive panics, and the goroutine recovers and ends
        var period := s.workers[name].period;
        Some(s.(workers := s.workers[name := if period <= 0 then Dead else Ticking(s.now + period * SECOND, period)]))
    case TickFire(name) =>
      if name !in s.workers || !s.workers[name].Ticking? || name !in s.jobs || s.now < s.workers[name].next then None
      else
        var w := s.workers[name];
        Some(s.(jobs := Executed(s.jobs, name, w.next),
                workers := s.workers[name := TickCommitted(w.next, w.period)],
                log := s.log + [Committed(name, w.next, Unix(w.next), w.period, false)]))
    case TickSkip(name) =>
      // the transaction failed, or the tick was dropped because the previous one was still being handled
      if name !in s.workers || !s.workers[name].Ticking? || s.now < s.workers[name].next then None
      else
        var w := s.workers[name];
        Some(s.(workers := s.workers[name := Ticking(w.next + w.period * SECOND, w.period)]))
    case TickBody(name) =>
      if name !in s.workers || !s.workers[name].TickCommitted? then None
      else
        var w := s.workers[name];
        Some(s.(workers := s.workers[name := Ticking(w.tick + w.period * SECOND, w.period)],
                log := s.log + [Ran(name, w.tick)]))
    case TickPanic(name) =>
      // the goroutine of the ticker recovers and ends; after the first tick the ticker is made in any case
      if name !in s.workers || !s.workers[name].TickCommitted? then None
      else
        var w := s.workers[name];
        Some(s.(workers := s.workers[name := Dead], log := s.log + [Ran(name, w.tick)]))
    case _ => None
  }

  predicate IsControl(l: Label) {
    l.Advance? || l.Schedule? || l.Register? || l.StartRead? || l.Arm? || l.ArmFail? || l.Stop? || l.Crash?
  }

  function Step(s: State, l: Label): Option<State> {
    if IsControl(l) then ControlStep(s, l) else WorkerStep(s, l)
  }

  /** Where a sequence of steps leads, if all of them are enabled. */
  function After(s: State, labels: seq<Label>): Option<State>
    decreases |labels|
  {
    if labels == [] then Some(s)
    else if Step(s, labels[0]).None? then None
    else After(Step(s, labels[0]).value, labels[1..])
  }

  lemma StepThen(s: State, l: Label, rest: seq<Label>)
    ensures After(s, [l] + rest) == if Step(s, l).None? then None else After(Step(s, l).value, rest)
  {
    assert ([l] + rest)[1..] == rest;
  }

  /** Start arms one job after another, in the order the rows come, until one has no handler. */
  function ArmLabels(order: seq<string>, registry: set<string>): seq<Label> {
    if order == [] then []
    else if order[0] !in registry then [ArmFail(order[0])]
    else [Arm(order[0])] + ArmLabels(order[1..], registry)
  }

  /** The timers after that. */
  function ArmAll(jobs: map<string, Job>, registry: set<string>, workers: map<string, Worker>, now: int,
                  order: seq<string>): map<string, Worker>
    decreases |order|
  {
    if order == [] || order[0] !in registry || order[0] !in jobs then workers
    else ArmAll(jobs, registry, workers[order[0] := FirstTimer(jobs[order[0]], now)], now, order[1..])
  }

  lemma {:induction false} ArmIsRun(s: State, jobs: map<string, Job>, order: seq<string>)
    requires s.pending.Keys == (set name | name in order) && forall i, j | 0 <= i < j < |order| :: order[i] != order[j]
    requires forall name | name in s.pending :: name in jobs && s.pending[name] == jobs[name]
    ensures After(s, ArmLabels(order, s.registry)) ==
            Some(s.(pending := map[], workers := ArmAll(jobs, s.registry, s.workers, s.now, order)))
    decreases |order|
  {
    if order == [] {
      assert s.pending == map[];
    } else {
      var name := order[0];
      assert name in s.pending.Keys;
      if name in s.registry {
        var s' := Step(s, Arm(name)).value;
        assert order == [name] + order[1..] && name !in order[1..];
        StepThen(s, Arm(name), ArmLabels(order[1..], s.registry));
        ArmIsRun(s', jobs, order[1..]);
      }
    }
  }

  /** Start on a stopped scheduler is a run: it reads all jobs and then arms them. */
  lemma StartIsRun(s: State, order: seq<string>)
    requires s.workers == map[] && s.pending == map[]
    requires s.jobs.Keys == (set name | name in order) && forall i, j | 0 <= i < j < |order| :: order[i] != order[j]
    ensures After(s, [StartRead] + ArmLabels(order, s.registry)) ==
            Some(s.(workers := ArmAll(s.jobs, s.registry, map[], s.now, order)))
  {
    StepThen(s, StartRead, ArmLabels(order, s.registry));
    ArmIsRun(s.(pending := s.jobs), s.jobs, order);
  }

  /** Any stored jobs, none of them executed in the future, and a clock past Go's zero time. */
  predicate Initial(s: State) {
    && s.now >= ZERO_TIME * SECOND
    && s.pending == map[] && s.workers == map[] && s.log == []
    && forall name | name in s.jobs :: s.jobs[name].last * SECOND <= s.now
  }

  predicate IsRun(states: seq<State>, labels: seq<Label>) {
    && |states| == |labels| + 1
    && Initial(states[0])
    && forall k {:trigger Step(states[k], labels[k])} | 0 <= k < |labels| ::
         Step(states[k], labels[k]) == Some(states[k + 1])
  }

  // ---------- The invariant ----------

  /** The last execution of a job that was committed. */
  function LastCommit(log: seq<Entry>, name: string): (r: Option<Entry>)
    ensures r.Some? ==> r.value.Committed? && r.value.name == name && r.value in log
  {
    if log == [] then None
    else
      var e := log[|log| - 1];
      if e.Committed? && e.name == name then Some(e) else LastCommit(log[..|log| - 1], name)
  }

  predicate JobOk(s: State, name: string)
    requires name in s.jobs
  {
    && s.jobs[name].last * SECOND <= s.now
    && var c := LastCommit(s.log, name);
       c.Some? ==> s.jobs[name].last == c.value.recorded == Unix(c.value.tick) && c.value.tick <= s.now
  }

  /** A worker's next tick is at least a period, in stored seconds, after the stored last execution. */
  predicate WorkerOk(s: State, name: string, w: Worker)
    requires name in s.jobs
  {
    var last := s.jobs[name].last;
    var c := LastCommit(s.log, name);
    match w
    case First(due, period) => Unix(due) >= last + period && Unix(due) >= last
    case FirstCommitted(tick, _) => c.Some? && c.value.tick == tick
    case FirstDone(_) => true
    case Ticking(next, period) =>
      period > 0 && Unix(next) >= last + period && (c.Some? ==> next >= c.value.tick + period * SECOND)
    case TickCommitted(tick, period) => period > 0 && c.Some? && c.value.tick == tick
    case Dead => true
  }

  ghost predicate Invariant(s: State) {
    && s.now >= ZERO_TIME * SECOND
    && (forall name | name in s.jobs :: JobOk(s, name))
    && (forall e | e in s.log && e.Committed? :: e.name in s.jobs)
    && (forall name | name in s.pending ::
          name in s.jobs && name !in s.workers && s.pending[name].last == s.jobs[name].last)
    && (forall name | name in s.workers :: name in s.jobs && WorkerOk(s, name, s.workers[name]))
  }

  lemma UnixOfSeconds(t: int, seconds: int)
    ensures Unix(t + seconds * SECOND) == Unix(t) + seconds
    ensures Unix(seconds * SECOND) == seconds
    ensures Unix(t) * SECOND <= t < (Unix(t) + 1) * SECOND
    ensures t >= seconds * SECOND ==> Unix(t) >= seconds
  {
  }

  lemma LastCommitAppend(log: seq<Entry>, e: Entry, name: string)
    ensures LastCommit(log + [e], name) == if e.Committed? && e.name == name then Some(e) else LastCommit(log, name)
  {
  }

  lemma ArmKeepsInvariant(s: State, name: string)
    requires Invariant(s) && ControlStep(s, Arm(name)).Some?
    ensures Invariant(ControlStep(s, Arm(name)).value)
  {
  }

  lemma ScheduleKeepsInvariant(s: State, name: string, period: int)
    requires Invariant(s)
    ensures Invariant(s.(jobs := Rescheduled(s.jobs, name, period)))
  {
    if name !in s.jobs {
      assert LastCommit(s.log, name).None?;
    } else {
      assert JobOk(s, name);
    }
  }

  lemma ControlKeepsInvariant(s: State, l: Label)
    requires Invariant(s) && ControlStep(s, l).Some?
    ensures Invariant(ControlStep(s, l).value)
  {
    if l.Arm? {
      ArmKeepsInvariant(s, l.name);
    } else if l.Schedule? {
      ScheduleKeepsInvariant(s, l.name, l.period);
    }
  }

  /** A step of one job's goroutines concerns that job alone. */
  lemma WorkerFrame(s: State, s': State, name: string, e: Option<Entry>)
    requires Invariant(s) && name in s.workers && name in s.jobs && name in s'.workers && name in s'.jobs
    requires s'.now == s.now && s'.pending == s.pending
    requires s'.jobs.Keys == s.jobs.Keys && forall n | n in s.jobs && n != name :: s'.jobs[n] == s.jobs[n]
    requires s'.workers.Keys == s.workers.Keys && forall n | n in s.workers && n != name :: s'.workers[n] == s.workers[n]
    requires s'.log == s.log + if e.Some? then [e.value] else []
    requires e.Some? ==> e.value.name == name
    requires JobOk(s', name) && WorkerOk(s', name, s'.workers[name])
    ensures Invariant(s')
  {
    forall n | n != name
      ensures LastCommit(s'.log, n) == LastCommit(s.log, n)
    {
      if e.Some? {
        LastCommitAppend(s.log, e.value, n);
      } else {
        assert s'.log == s.log;
      }
    }
    forall n | n in s'.jobs
      ensures JobOk(s', n)
    {
      assert JobOk(s, n);
    }
    forall n | n in s'.workers
      ensures n in s'.jobs && WorkerOk(s', n, s'.workers[n])
    {
      assert WorkerOk(s, n, s.workers[n]);
    }
  }

  lemma CommitKeepsInvariant(s: State, l: Label)
    requires Invariant(s) && WorkerStep(s, l).Some? && (l.FirstFire? || l.TickFire?)
    ensures Invariant(WorkerStep(s, l).value)
  {
    var s' := WorkerStep(s, l).value;
    var w := s.workers[l.name];
    var tick := if l.FirstFire? then l.tick else w.next;
    var e := Committed(l.name, tick, Unix(tick), w.period, l.FirstFire?);
    assert WorkerOk(s, l.name, w) && JobOk(s, l.name);
    LastCommitAppend(s.log, e, l.name);
    UnixOfSeconds(tick, 0);
    WorkerFrame(s, s', l.name, Some(e));
  }

  /** A job body that runs, or panics, leaves the stored times alone. */
  lemma BodyKeepsInvariant(s: State, l: Label)
    requires Invariant(s) && WorkerStep(s, l).Some? && (l.FirstBody? || l.TickBody? || l.TickPanic?)
    ensures Invariant(WorkerStep(s, l).value)
  {
    var w := s.workers[l.name];
    assert WorkerOk(s, l.name, w) && JobOk(s, l.name);
    UnixOfSeconds(w.tick, w.period);
    LastCommitAppend(s.log, Ran(l.name, w.tick), l.name);
    WorkerFrame(s, WorkerStep(s, l).value, l.name, Some(Ran(l.name, w.tick)));
  }

  lemma MakeTickerKeepsInvariant(s: State, name: string)
    requires Invariant(s) && WorkerStep(s, MakeTicker(name)).Some?
    ensures Invariant(WorkerStep(s, MakeTicker(name)).value)
  {
    assert WorkerOk(s, name, s.workers[name]) && JobOk(s, name);
    UnixOfSeconds(s.now, s.workers[name].period);
    UnixOfSeconds(s.now, s.jobs[name].last);
    WorkerFrame(s, WorkerStep(s, MakeTicker(name)).value, name, None);
  }

  /** A tick whose transaction failed, or that was dropped. */
  lemma SkipKeepsInvariant(s: State, l: Label)
    requires Invariant(s) && WorkerStep(s, l).Some? && (l.FirstFail? || l.TickSkip?)
    ensures Invariant(WorkerStep(s, l).value)
  {
    var w := s.workers[l.name];
    assert WorkerOk(s, l.name, w) && JobOk(s, l.name);
    if l.TickSkip? {
      UnixOfSeconds(w.next, w.period);
    }
    WorkerFrame(s, WorkerStep(s, l).value, l.name, None);
  }

  lemma WorkerKeepsInvariant(s: State, l: Label)
    requires Invariant(s) && WorkerStep(s, l).Some?
    ensures Invariant(WorkerStep(s, l).value)
  {
    if l.FirstFire? || l.TickFire? {
      CommitKeepsInvariant(s, l);
    } else if l.FirstBody? || l.TickBody? || l.TickPanic? {
      BodyKeepsInvariant(s, l);
    } else if l.MakeTicker? {
      MakeTickerKeepsInvariant(s, l.name);
    } else {
      SkipKeepsInvariant(s, l);
    }
  }

  lemma {:induction false} RunKeepsInvariant(states: seq<State>, labels: seq<Label>, k: nat)
    requires IsRun(states, labels) && k < |states|
    ensures Invariant(states[k])
  {
    if k > 0 {
      RunKeepsInvariant(states, labels, k - 1);
      assert Step(states[k - 1], labels[k - 1]) == Some(states[k - 1 + 1]);
      if IsControl(labels[k - 1]) {
        ControlKeepsInvariant(states[k - 1], labels[k - 1]);
      } else {
        WorkerKeepsInvariant(states[k - 1], labels[k - 1]);
      }
    }
  }
}
