/**
 * The scheduler object (pkg/scheduler/scheduler.go): the stored job records, the registry of handlers and the timers,
 * updated in place by Start, Stop, Schedule and a tick's transaction. Each method takes the transitions of module
 * SchedulerProtocol.
 */
module Scheduler {
  import opened Types
  import opened SchedulerProtocol

  class Scheduler {
    /** The job table as last committed. */
    var jobs: map<string, Job>
    var registry: set<string>
    /** The timer of each job whose goroutines run. */
    var workers: map<string, Worker>

    constructor (jobs: map<string, Job>)
      ensures this.jobs == jobs && registry == {} && workers == map[]
    {
      this.jobs, registry, workers := jobs, {}, map[];
    }

    /** The state as the protocol sees it, `pending` being what a Start in progress has read but not yet armed. */
    ghost function Value(now: int, pending: map<string, Job>, log: seq<Entry>): State
      reads this
    {
      State(now, jobs, registry, pending, workers, log)
    }

    method RegisterJobHandler(name: string)
      modifies this`registry
      ensures registry == old(registry) + {name}
      ensures forall now: int, pending: map<string, Job>, log: seq<Entry> ::
                Step(old(Value(now, pending, log)), Register(name)) == Some(Value(now, pending, log))
    {
      registry := registry + {name};
    }

    /** Reads the job, keeps its last execution time, and writes it back with the new period, in one transaction. */
    method Schedule(period: int, name: string, sessionOk: bool, readOk: bool, writeOk: bool, commitOk: bool)
      returns (ok: bool)
      modifies this`jobs
      ensures ok <==> sessionOk && readOk && writeOk && commitOk
      ensures !ok ==> jobs == old(jobs)
      ensures ok ==>
                && jobs.Keys == old(jobs).Keys + {name}
                && (forall other | other in old(jobs) && other != name :: jobs[other] == old(jobs)[other])
                && jobs[name].last == (if name in old(jobs) then old(jobs)[name].last else -62135596800)
                && jobs[name].period == TruncateToSeconds(period)
      ensures ok ==> forall now: int, pending: map<string, Job>, log: seq<Entry> ::
                Step(old(Value(now, pending, log)), SchedulerProtocol.Schedule(name, period))
                == Some(Value(now, pending, log))
    {
      if !sessionOk || !readOk {
        return false;
      }
      var lastExecutedAt := ZERO_TIME;
      if name in jobs {
        lastExecutedAt := jobs[name].last;
      }
      if !writeOk || !commitOk {
        return false;
      }
      jobs := jobs[name := Job(lastExecutedAt, TruncateToSeconds(period))];
      return true;
    }

    /** The transaction of a tick; a job that is not stored fails it. */
    method UpdateJobExecutionTime(name: string, tick: int, sessionOk: bool, readOk: bool, writeOk: bool, commitOk: bool)
      returns (ok: bool)
      modifies this`jobs
      ensures ok <==> sessionOk && readOk && name in old(jobs) && writeOk && commitOk
      ensures jobs == if ok then old(jobs)[name := Job(tick / SECOND, old(jobs)[name].period)] else old(jobs)
    {
      if !sessionOk || !readOk || name !in jobs {
        return false;
      }
      var job := jobs[name].(last := Unix(tick));
      if !writeOk || !commitOk {
        return false;
      }
      jobs := jobs[name := job];
      return true;
    }

    /** The first tick of a job: its transaction, and the body only if that committed. */
    method HandleFirstTick(name: string, tick: int, sessionOk: bool, readOk: bool, writeOk: bool, commitOk: bool)
      returns (ran: bool)
      requires name in workers && workers[name].First? && workers[name].due <= tick
      modifies this`jobs, this`workers
      ensures ran <==> sessionOk && readOk && name in old(jobs) && writeOk && commitOk
      ensures jobs == if ran then old(jobs)[name := Job(tick / SECOND, old(jobs)[name].period)] else old(jobs)
      ensures workers == old(workers)[name := FirstDone(old(workers)[name].period)]
      ensures forall now: int, pending: map<string, Job>, log: seq<Entry> | now >= tick ::
                var s := old(Value(now, pending, log));
                if ran then
                  var committed := Step(s, FirstFire(name, tick));
                  && committed.Some?
                  && Step(committed.value, FirstBody(name))
                     == Some(Value(now, pending, log + [Committed(name, tick, Unix(tick), s.workers[name].period, true),
                                                        Ran(name, tick)]))
                else
                  Step(s, FirstFail(name)) == Some(Value(now, pending, log))
    {
      ghost var period := workers[name].period;
      ran := UpdateJobExecutionTime(name, tick, sessionOk, readOk, writeOk, commitOk);
      workers := workers[name := FirstDone(workers[name].period)];
      forall now: int, pending: map<string, Job>, log: seq<Entry> | now >= tick && ran
        ensures var committed := Step(old(Value(now, pending, log)), FirstFire(name, tick));
                && committed.Some?
                && Step(committed.value, FirstBody(name))
                   == Some(Value(now, pending, log + [Committed(name, tick, Unix(tick), period, true), Ran(name, tick)]))
      {
        var w := old(workers);
        assert w[name := FirstCommitted(tick, period)][name := FirstDone(period)] == w[name := FirstDone(period)];
        assert log + [Committed(name, tick, Unix(tick), period, true)] + [Ran(name, tick)]
               == log + [Committed(name, tick, Unix(tick), period, true), Ran(name, tick)];
      }
    }

    /** Once the first tick is handled, the ticker is made; for a period that is not positive that panics. */
    method StartTicker(name: string, now: int)
      requires name in workers && workers[name].FirstDone?
      modifies this`workers
      ensures var period := old(workers)[name].period;
              workers == old(workers)[name := if period > 0 then Ticking(now + period * SECOND, period) else Dead]
      ensures forall pending: map<string, Job>, log: seq<Entry> ::
                Step(old(Value(now, pending, log)), MakeTicker(name)) == Some(Value(now, pending, log))
    {
      var period := workers[name].period;
      if period <= 0 {
        workers := workers[name := Dead];
      } else {
        workers := workers[name := Ticking(now + period * SECOND, period)];
      }
    }

    /**
     * A tick of a job's ticker: its transaction, and the body only if that committed. A body that panics ends the
     * goroutine.
     */
    method HandleTick(name: string, sessionOk: bool, readOk: bool, writeOk: bool, commitOk: bool, panics: bool)
      returns (ran: bool)
      requires name in workers && workers[name].Ticking?
      modifies this`jobs, this`workers
      ensures ran <==> sessionOk && readOk && name in old(jobs) && writeOk && commitOk
      ensures var w := old(workers)[name];
              && jobs == (if ran then old(jobs)[name := Job(w.next / SECOND, old(jobs)[name].period)] else old(jobs))
              && workers == old(workers)[name := if ran && panics then Dead
                                                 else Ticking(w.next + w.period * SECOND, w.period)]
      ensures var w := old(workers)[name];
              forall now: int, pending: map<string, Job>, log: seq<Entry> | now >= w.next ::
                var s := old(Value(now, pending, log));
                if ran then
                  var committed := Step(s, TickFire(name));
                  && committed.Some?
                  && Step(committed.value, if panics then TickPanic(name) else TickBody(name))
                     == Some(Value(now, pending, log + [Committed(name, w.next, Unix(w.next), w.period, false),
                                                        Ran(name, w.next)]))
                else
                  Step(s, TickSkip(name)) == Some(Value(now, pending, log))
    {
      ghost var before := workers;
      var Ticking(tick, period) := workers[name];
      ran := UpdateJobExecutionTime(name, tick, sessionOk, readOk, writeOk, commitOk);
      if ran && panics {
        workers := workers[name := Dead];
      } else {
        workers := workers[name := Ticking(tick + period * SECOND, period)];
      }
      forall now: int, pending: map<string, Job>, log: seq<Entry> | now >= tick && ran
        ensures var committed := Step(old(Value(now, pending, log)), TickFire(name));
                && committed.Some?
                && Step(committed.value, if panics then TickPanic(name) else TickBody(name))
                   == Some(Value(now, pending,
                                 log + [Committed(name, tick, Unix(tick), period, false), Ran(name, tick)]))
      {
        assert before[name := TickCommitted(tick, period)][name := workers[name]] == workers;
        assert log + [Committed(name, tick, Unix(tick), period, false)] + [Ran(name, tick)]
               == log + [Committed(name, tick, Unix(tick), period, false), Ran(name, tick)];
      }
    }

    /**
     * Start on a stopped scheduler: one timer per stored job, in the order the rows come, until one has no handler.
     * Timers armed before that stay armed.
     */
    method Start(order: seq<string>, now: int, sessionOk: bool, readOk: bool) returns (ok: bool)
      requires workers == map[]
      requires (set name | name in order) == jobs.Keys && forall i, j | 0 <= i < j < |order| :: order[i] != order[j]
      modifies this`workers
      ensures ok <==> sessionOk && readOk && jobs.Keys <= registry
      ensures ok ==> workers.Keys == jobs.Keys
      ensures forall name | name in workers ::
                && name in jobs && name in registry
                && var (w, job) := (workers[name], jobs[name]);
                   && w.First? && w.period == job.period
                   && w.due == if (job.last + job.period) * SECOND <= now then now
                               else (job.last + job.period) * SECOND
      ensures sessionOk && readOk ==>
                exists n: nat :: n <= |order| && workers.Keys == (set i | 0 <= i < n :: order[i])
                  && (n < |order| ==> order[n] !in registry)
      ensures sessionOk && readOk ==> forall log: seq<Entry> ::
                After(old(Value(now, map[], log)), [StartRead] + ArmLabels(order, registry))
                == Some(Value(now, map[], log))
    {
      if !sessionOk || !readOk {
        return false;
      }
      assert forall i | 0 <= i < |order| :: order[i] in jobs.Keys;
      forall log: seq<Entry> {
        StartIsRun(Value(now, map[], log), order);
      }
      ghost var n;
      ok, n := ArmJobs(order, now);
    }

    /** The loop of Start, which arms the first `n` jobs. */
    method ArmJobs(order: seq<string>, now: int) returns (ok: bool, ghost n: nat)
      requires workers == map[] && forall i | 0 <= i < |order| :: order[i] in jobs
      modifies this`workers
      ensures workers == ArmAll(jobs, registry, map[], now, order)
      ensures forall name | name in workers ::
                name in jobs && name in registry && workers[name] == FirstTimer(jobs[name], now)
      ensures n <= |order| && workers.Keys == (set i | 0 <= i < n :: order[i])
      ensures (forall i | 0 <= i < n :: order[i] in registry) && (n < |order| ==> order[n] !in registry)
      ensures ok <==> n == |order|
    {
      for i := 0 to |order|
        invariant workers.Keys == set j | 0 <= j < i :: order[j]
        invariant forall j | 0 <= j < i :: order[j] in registry
        invariant forall name | name in workers ::
                    name in jobs && name in registry && workers[name] == FirstTimer(jobs[name], now)
        invariant ArmAll(jobs, registry, workers, now, order[i..]) == ArmAll(jobs, registry, map[], now, order)
      {
        var name := order[i];
        assert order[i..][0] == name && order[i..][1..] == order[i + 1..];
        if name !in registry {
          return false, i;
        }
        var job := jobs[name];
        var wait := (job.last + job.period) * SECOND - now;
        var durationUntilFirstExecution := if wait < 0 then 0 else wait;
        workers := workers[name := First(now + durationUntilFirstExecution, job.period)];
      }
      return true, |order|;
    }

    /** Waits for every handler in progress, so none is left when the timers are dropped. */
    method Stop()
      requires forall name | name in workers :: !Handling(workers[name])
      modifies this`workers
      ensures workers == map[]
      ensures forall now: int, pending: map<string, Job>, log: seq<Entry> ::
                Step(old(Value(now, pending, log)), SchedulerProtocol.Stop) == Some(Value(now, map[], log))
    {
      var names := workers.Keys;
      while names != {}
        invariant names == workers.Keys
        decreases |names|
      {
        var name :| name in names;
        workers := workers - {name};
        names := names - {name};
      }
      assert workers == map[];
    }
  }
}
