/**
 * The reservation listener under interleaving and crashes (internal/eventlistener). A subscribe call is a commit and
 * a timer reset; a bought-event handler is a notification, a commit and a timer reset; a timeout handler reads the
 * shared timer field again at each of its calls. Each of these is a separate step, any number of them are in progress
 * at once, and the process may crash and start again between any two.
 */
module ListenerProtocol {
  import opened Types
  import opened Subscriptions

  /**
   * A timeout handler, with the token the timer field named each time so far that the handler needed one: `due` when
   * the timer fired, `seen` when it asked for the status and was told reserved, `noted` when it sent the notification,
   * `removed` when it asked for the deletion. The handler itself keeps none of them.
   */
  datatype Expiry =
    | Fired(due: nat)
    | Checked(due: nat, seen: nat)
    | Notified(due: nat, seen: nat, noted: nat)
    | Removing(due: nat, seen: nat, noted: nat, removed: nat)
    | Ending

  /** A call in progress. */
  datatype Proc =
    | Subscribing(sub: Subscription)
    | BoughtStarted(token: nat)
    | BoughtNotified(token: nat)
    | BoughtEnding(token: nat)
    | Expiring(at: Expiry)
    | Finalizing(token: nat, notified: bool)

  /** `todo` is what the startup scan has not looked at, `current` the settled row it is about to remove. */
  datatype Mode = Down | Scanning(todo: set<Subscription>, current: Option<Subscription>, best: Option<Subscription>) | Up

  datatype State = State(
    mode: Mode,
    table: Table,
    cancellations: set<nat>,
    timer: Option<Subscription>,
    armed: bool,
    procs: map<nat, Proc>,
    log: seq<Note>
  )

  datatype Label =
    | StartUp
    | ScanReserved(sub: Subscription)
    | ScanSettled(sub: Subscription, bought: bool)
    | ScanRemove
    | ScanDone
    | Crash
    | SubscribeCommit(pid: nat, sub: Subscription)
    | SubscribeReset(pid: nat)
    | BoughtBegin(pid: nat, token: nat)
    | BoughtNotify(pid: nat)
    | BoughtCommit(pid: nat, cancellable: bool)
    | BoughtGiveUp(pid: nat)
    | BoughtReset(pid: nat, pick: Option<Subscription>)
    | Fire(pid: nat)
    | ExpiryStatus(pid: nat, reserved: bool)
    | ExpiryNotify(pid: nat)
    | ExpiryRecord(pid: nat)
    | ExpiryRemove(pid: nat)
    | ExpiryCommit(pid: nat)
    | ExpiryGiveUp(pid: nat)
    | ExpiryReset(pid: nat, pick: Option<Subscription>)
    | SubscribeCancellation(token: nat)
    | FinalizeBegin(pid: nat, token: nat)
    | FinalizeNotify(pid: nat)
    | FinalizeCommit(pid: nat)
    | FinalizeGiveUp(pid: nat)
    | NotifyProposal(token: nat, status: ProposalStatus)

  /** The process is gone; the durable tables, and what was already notified, are not. */
  function Crashed(s: State): State {
    s.(mode := Down, timer := None, armed := false, procs := map[])
  }

  ghost predicate MayPick(t: Table, pick: Option<Subscription>) {
    if t == map[] then pick.None? else pick.Some? && IsMin(t, pick.value)
  }

  predicate Running(s: State, pid: nat) {
    s.mode.Up? && pid in s.procs
  }

  predicate ExpiringProc(s: State, pid: nat) {
    Running(s, pid) && s.procs[pid].Expiring?
  }

  function Move(s: State, pid: nat, p: Proc): State {
    s.(procs := s.procs[pid := p])
  }

  function Finish(s: State, pid: nat): State {
    s.(procs := s.procs - {pid})
  }

  /** Stops the timer and arms it for `pick`. */
  function ResetFromDB(s: State, pick: Option<Subscription>): State {
    s.(timer := pick, armed := pick.Some?)
  }

  function ResetIfAfter(s: State, sub: Subscription): State {
    if s.timer.Some? && s.timer.value.timeout <= sub.timeout then s else s.(timer := Some(sub), armed := true)
  }

  function ResetIfMatch(s: State, token: nat, pick: Option<Subscription>): State {
    if s.timer.Some? && s.timer.value.token != token then s else ResetFromDB(s, pick)
  }

  ghost function StartupStep(s: State, l: Label): Option<State> {
    match l
    case StartUp =>
      if !s.mode.Down? then None
      else Some(s.(mode := Scanning(set token | token in s.table :: s.table[token], None, None)))
    case ScanReserved(sub) =>
      if !s.mode.Scanning? || s.mode.current.Some? || sub !in s.mode.todo then None
      else
        var best := if sub.timeout < BestTimeout(s.mode.best) then Some(sub) else s.mode.best;
        Some(s.(mode := Scanning(s.mode.todo - {sub}, None, best)))
    case ScanSettled(sub, bought) =>
      if !s.mode.Scanning? || s.mode.current.Some? || sub !in s.mode.todo then None
      else Some(s.(mode := Scanning(s.mode.todo - {sub}, Some(sub), s.mode.best),
                   log := s.log + [if bought then BoughtNote(sub.token, sub.mint) else SettledSeen(sub.token)]))
    case ScanRemove =>
      if !s.mode.Scanning? || s.mode.current.None? then None
      else Some(s.(mode := s.mode.(current := None), table := s.table - {s.mode.current.value.token}))
    case ScanDone =>
      if !s.mode.Scanning? || s.mode.current.Some? || s.mode.todo != {} then None
      else Some(s.(mode := Up, timer := s.mode.best, armed := s.mode.best.Some?))
    case Crash => Some(Crashed(s))
    case _ => None
  }

  /** Subscribe calls and bought-event handlers. An insert needs a new token; a removal needs the row to be there. */
  ghost function HandlerStep(s: State, l: Label): Option<State> {
    match l
    case SubscribeCommit(pid, sub) =>
      if !s.mode.Up? || pid in s.procs || sub.token in s.table then None
      else Some(Move(s, pid, Subscribing(sub)).(table := s.table[sub.token := sub]))
    case SubscribeReset(pid) =>
      if !Running(s, pid) || !s.procs[pid].Subscribing? then None
      else Some(Finish(ResetIfAfter(s, s.procs[pid].sub), pid))
    case BoughtBegin(pid, token) =>
      if !s.mode.Up? || pid in s.procs then None
      else Some(Move(s, pid, BoughtStarted(token)))
    case BoughtNotify(pid) =>
      if !Running(s, pid) || !s.procs[pid].BoughtStarted? || s.procs[pid].token !in s.table then None
      else
        var token := s.procs[pid].token;
        Some(Move(s, pid, BoughtNotified(token)).(log := s.log + [BoughtNote(token, s.table[token].mint)]))
    case BoughtCommit(pid, cancellable) =>
      if !Running(s, pid) || !s.procs[pid].BoughtNotified? || s.procs[pid].token !in s.table
         || (cancellable && s.procs[pid].token in s.cancellations) then None
      else
        var token := s.procs[pid].token;
        Some(Move(s, pid, BoughtEnding(token)).(table := s.table - {token},
             cancellations := s.cancellations + if cancellable then {token} else {}))
    case BoughtGiveUp(pid) =>
      if !Running(s, pid) || !(s.procs[pid].BoughtStarted? || s.procs[pid].BoughtNotified?) then None
      else Some(Move(s, pid, BoughtEnding(s.procs[pid].token)))
    case BoughtReset(pid, pick) =>
      if !Running(s, pid) || !s.procs[pid].BoughtEnding? || !MayPick(s.table, pick) then None
      else Some(Finish(ResetIfMatch(s, s.procs[pid].token, pick), pid))
    case _ => None
  }

  /**
   * The timeout handler. Each of its calls reads the timer field anew; a nil field there panics in the timer's own
   * goroutine, which ends the process.
   */
  ghost function ExpiryStep(s: State, l: Label): Option<State> {
    match l
    case Fire(pid) =>
      if !s.mode.Up? || pid in s.procs || !s.armed || s.timer.None? then None
      else Some(Move(s, pid, Expiring(Fired(s.timer.value.token))).(armed := false))
    case ExpiryStatus(pid, reserved) =>
      if !ExpiringProc(s, pid) || !s.procs[pid].at.Fired? then None
      else if s.timer.None? then Some(Crashed(s))
      else Some(Move(s, pid, Expiring(if reserved then Checked(s.procs[pid].at.due, s.timer.value.token) else Ending)))
    case ExpiryNotify(pid) =>
      if !ExpiringProc(s, pid) || !s.procs[pid].at.Checked? then None
      else if s.timer.None? then Some(Crashed(s))
      else
        var sub, at := s.timer.value, s.procs[pid].at;
        Some(Move(s, pid, Expiring(Notified(at.due, at.seen, sub.token))).(
               log := s.log + [ExpiredNote(sub.token, sub.mint)]))
    case ExpiryRecord(pid) =>
      if !ExpiringProc(s, pid) || !s.procs[pid].at.Notified? then None
      else if s.timer.None? then Some(Crashed(s))
      else Some(s)
    case ExpiryRemove(pid) =>
      if !ExpiringProc(s, pid) || !s.procs[pid].at.Notified? then None
      else if s.timer.None? then Some(Crashed(s))
      else if s.timer.value.token !in s.table then Some(Move(s, pid, Expiring(Ending)))
      else
        var at := s.procs[pid].at;
        Some(Move(s, pid, Expiring(Removing(at.due, at.seen, at.noted, s.timer.value.token))))
    case ExpiryCommit(pid) =>
      if !ExpiringProc(s, pid) || !s.procs[pid].at.Removing? || s.procs[pid].at.removed !in s.table then None
      else Some(Move(s, pid, Expiring(Ending)).(table := s.table - {s.procs[pid].at.removed}))
    case ExpiryGiveUp(pid) =>
      if !ExpiringProc(s, pid) then None
      else Some(Move(s, pid, Expiring(Ending)))
    case ExpiryReset(pid, pick) =>
      if !ExpiringProc(s, pid) || !s.procs[pid].at.Ending? || !MayPick(s.table, pick) then None
      else Some(Finish(ResetFromDB(s, pick), pid))
    case _ => None
  }

  /** Cancellation subscriptions; the startup check finalizes by the same steps as the event handler. */
  ghost function CancellationStep(s: State, l: Label): Option<State> {
    match l
    case SubscribeCancellation(token) =>
      if !s.mode.Up? || token in s.cancellations then None
      else Some(s.(cancellations := s.cancellations + {token}))
    case FinalizeBegin(pid, token) =>
      if !s.mode.Up? || pid in s.procs || token !in s.cancellations then None
      else Some(Move(s, pid, Finalizing(token, false)))
    case FinalizeNotify(pid) =>
      if !Running(s, pid) || !s.procs[pid].Finalizing? || s.procs[pid].notified then None
      else
        var token := s.procs[pid].token;
        Some(Move(s, pid, Finalizing(token, true)).(log := s.log + [ProposalNote(token, Finalized)]))
    case FinalizeCommit(pid) =>
      if !Running(s, pid) || !s.procs[pid].Finalizing? || !s.procs[pid].notified
         || s.procs[pid].token !in s.cancellations then None
      else Some(Finish(s, pid).(cancellations := s.cancellations - {s.procs[pid].token}))
    case FinalizeGiveUp(pid) =>
      if !Running(s, pid) || !s.procs[pid].Finalizing? then None
      else Some(Finish(s, pid))
    case NotifyProposal(token, status) =>
      if !s.mode.Up? || !(status.Pending? || status.Rejected? || status.Withdrawn?) then None
      else Some(s.(log := s.log + [ProposalNote(token, status)]))
    case _ => None
  }

  predicate IsStartup(l: Label) {
    l.StartUp? || l.ScanReserved? || l.ScanSettled? || l.ScanRemove? || l.ScanDone? || l.Crash?
  }

  predicate IsCancellation(l: Label) {
    l.SubscribeCancellation? || l.FinalizeBegin? || l.FinalizeNotify? || l.FinalizeCommit? || l.FinalizeGiveUp?
    || l.NotifyProposal?
  }

  predicate IsHandler(l: Label) {
    l.SubscribeCommit? || l.SubscribeReset? || l.BoughtBegin? || l.BoughtNotify? || l.BoughtCommit?
    || l.BoughtGiveUp? || l.BoughtReset?
  }

  ghost function Step(s: State, l: Label): Option<State> {
    if IsStartup(l) then StartupStep(s, l)
    else if IsCancellation(l) then CancellationStep(s, l)
    else if IsHandler(l) then HandlerStep(s, l)
    else ExpiryStep(s, l)
  }

  ghost predicate Initial(s: State) {
    TableOk(s.table) && s.mode.Down? && s.timer.None? && !s.armed && s.procs == map[]
  }

  /** A run: any tables to begin with, and any interleaving of steps. */
  ghost predicate IsRun(states: seq<State>, labels: seq<Label>) {
    && |states| == |labels| + 1
    && Initial(states[0])
    && forall k {:trigger Step(states[k], labels[k])} | 0 <= k < |labels| ::
         Step(states[k], labels[k]) == Some(states[k + 1])
  }

  /** Where a sequence of steps leads, if all of them are enabled. */
  ghost function After(s: State, labels: seq<Label>): Option<State> {
    if labels == [] then Some(s)
    else
      var before := After(s, labels[..|labels| - 1]);
      if before.None? then None else Step(before.value, labels[|labels| - 1])
  }

  lemma Then(s: State, labels: seq<Label>, l: Label)
    ensures After(s, labels + [l]) == if After(s, labels).None? then None else Step(After(s, labels).value, l)
  {
    assert (labels + [l])[..|labels|] == labels;
  }

  lemma {:induction false} AfterAppend(s: State, a: seq<Label>, b: seq<Label>)
    ensures After(s, a + b) == if After(s, a).None? then None else After(After(s, a).value, b)
  {
    if b == [] {
      assert a + b == a;
    } else {
      assert (a + b)[..|a + b| - 1] == a + b[..|b| - 1];
      AfterAppend(s, a, b[..|b| - 1]);
    }
  }

  /** The states that a sequence of steps passes through. */
  ghost function Trace(s: State, labels: seq<Label>): (t: seq<State>)
    requires After(s, labels).Some?
    ensures |t| == |labels|
    ensures ([s] + t)[|labels|] == After(s, labels).value
  {
    if labels == [] then []
    else Trace(s, labels[..|labels| - 1]) + [After(s, labels).value]
  }

  /** Steps taken from the end of a run make it a longer run. */
  lemma {:induction false} AfterExtendsRun(states: seq<State>, labels: seq<Label>, more: seq<Label>)
    requires IsRun(states, labels) && After(states[|labels|], more).Some?
    ensures IsRun(states + Trace(states[|labels|], more), labels + more)
  {
    var longer := states + Trace(states[|labels|], more);
    if more == [] {
      assert labels + more == labels && longer == states;
    } else {
      var fewer, l := more[..|more| - 1], more[|more| - 1];
      AfterExtendsRun(states, labels, fewer);
      var shorter := states + Trace(states[|labels|], fewer);
      assert labels + more == labels + fewer + [l];
      assert longer == shorter + [After(states[|labels|], more).value];
      forall k | 0 <= k < |labels + more|
        ensures Step(longer[k], (labels + more)[k]) == Some(longer[k + 1])
      {
        if k < |labels + fewer| {
          assert Step(shorter[k], (labels + fewer)[k]) == Some(shorter[k + 1]);
        } else {
          assert shorter[k] == ([states[|labels|]] + Trace(states[|labels|], fewer))[|fewer|];
        }
      }
    }
  }

  // ---------- No missed deadline ----------

  ghost predicate HandlerRunning(s: State) {
    exists pid :: pid in s.procs && s.procs[pid].Expiring?
  }

  /** The row's subscribe call has committed but not yet reset the timer. */
  ghost predicate CallPending(s: State, sub: Subscription) {
    exists pid :: pid in s.procs && s.procs[pid] == Subscribing(sub)
  }

  ghost predicate TimerCovers(s: State, sub: Subscription) {
    s.armed && s.timer.Some? && s.timer.value.timeout <= sub.timeout
  }

  ghost predicate Covered(s: State, sub: Subscription) {
    TimerCovers(s, sub) || HandlerRunning(s)
  }

  ghost predicate CoverageInvariant(s: State) {
    && TableOk(s.table)
    && (s.armed ==> s.timer.Some?)
    && match s.mode
       case Down => s.timer.None? && s.procs == map[]
       case Scanning(todo, current, best) =>
         && s.timer.None? && s.procs == map[]
         && (best.Some? ==> best.value.timeout < MAX_TIME)
         && forall token | token in s.table :: var sub := s.table[token];
              sub in todo || (current.Some? && current.value.token == token) || BestTimeout(best) <= sub.timeout
       case Up =>
         && (s.timer.Some? && !s.armed ==> HandlerRunning(s))
         && forall token | token in s.table && s.table[token].timeout < MAX_TIME ::
              CallPending(s, s.table[token]) || Covered(s, s.table[token])
  }

  lemma StartupKeepsCoverage(s: State, l: Label)
    requires CoverageInvariant(s) && StartupStep(s, l).Some?
    ensures CoverageInvariant(StartupStep(s, l).value)
  {
  }

  /** Replacing a process keeps a timeout handler running unless it was the one replaced. */
  lemma OthersKeepRunning(s: State, s': State, pid: nat)
    requires forall q | q in s.procs && q != pid :: q in s'.procs && s'.procs[q] == s.procs[q]
    ensures HandlerRunning(s) && (pid in s.procs ==> !s.procs[pid].Expiring?) ==> HandlerRunning(s')
    ensures pid in s'.procs && s'.procs[pid].Expiring? ==> HandlerRunning(s')
    ensures forall sub | CallPending(s, sub) && (pid in s.procs ==> s.procs[pid] != Subscribing(sub)) ::
              CallPending(s', sub)
  {
    if HandlerRunning(s) {
      var q :| q in s.procs && s.procs[q].Expiring?;
      assert q != pid ==> q in s'.procs && s'.procs[q].Expiring?;
    }
    forall sub | CallPending(s, sub) && (pid in s.procs ==> s.procs[pid] != Subscribing(sub))
      ensures CallPending(s', sub)
    {
      var q :| q in s.procs && s.procs[q] == Subscribing(sub);
      assert q in s'.procs;
    }
  }

  lemma SubscribesKeepCoverage(s: State, l: Label)
    requires CoverageInvariant(s) && HandlerStep(s, l).Some? && (l.SubscribeCommit? || l.SubscribeReset?)
    ensures CoverageInvariant(HandlerStep(s, l).value)
  {
    OthersKeepRunning(s, HandlerStep(s, l).value, l.pid);
  }

  lemma HandlersKeepCoverage(s: State, l: Label)
    requires CoverageInvariant(s) && HandlerStep(s, l).Some?
    ensures CoverageInvariant(HandlerStep(s, l).value)
  {
    if l.SubscribeCommit? || l.SubscribeReset? {
      SubscribesKeepCoverage(s, l);
    } else {
      OthersKeepRunning(s, HandlerStep(s, l).value, l.pid);
    }
  }

  lemma ExpiriesKeepCoverage(s: State, l: Label)
    requires CoverageInvariant(s) && ExpiryStep(s, l).Some?
    ensures CoverageInvariant(ExpiryStep(s, l).value)
  {
    var s' := ExpiryStep(s, l).value;
    if s'.mode.Up? {
      OthersKeepRunning(s, s', l.pid);
    }
  }

  lemma CancellationsKeepCoverage(s: State, l: Label)
    requires CoverageInvariant(s) && CancellationStep(s, l).Some?
    ensures CoverageInvariant(CancellationStep(s, l).value)
  {
    if !l.SubscribeCancellation? && !l.NotifyProposal? {
      OthersKeepRunning(s, CancellationStep(s, l).value, l.pid);
    }
  }

  lemma StepKeepsCoverage(s: State, l: Label)
    requires CoverageInvariant(s) && Step(s, l).Some?
    ensures CoverageInvariant(Step(s, l).value)
  {
    if IsStartup(l) {
      StartupKeepsCoverage(s, l);
    } else if IsCancellation(l) {
      CancellationsKeepCoverage(s, l);
    } else if IsHandler(l) {
      HandlersKeepCoverage(s, l);
    } else {
      ExpiriesKeepCoverage(s, l);
    }
  }

  lemma {:induction false} RunKeepsCoverage(states: seq<State>, labels: seq<Label>, k: nat)
    requires IsRun(states, labels) && k < |states|
    ensures CoverageInvariant(states[k])
  {
    if k > 0 {
      RunKeepsCoverage(states, labels, k - 1);
      assert Step(states[k - 1], labels[k - 1]) == Some(states[k - 1 + 1]);
      StepKeepsCoverage(states[k - 1], labels[k - 1]);
    }
  }

  /**
   * No missed deadline. In every reachable state of a running process, a stored subscription whose subscribe call has
   * returned is covered: the timer is armed for no later than its timeout, or a timeout handler is running, which
   * will still reset the timer. (A deadline at the very end of time is never picked up by the startup scan.)
   */
  lemma NoMissedDeadline(states: seq<State>, labels: seq<Label>, k: nat, token: nat)
    requires IsRun(states, labels) && k < |states| && states[k].mode.Up?
    requires token in states[k].table && states[k].table[token].timeout < MAX_TIME
    requires !CallPending(states[k], states[k].table[token])
    ensures TimerCovers(states[k], states[k].table[token]) || HandlerRunning(states[k])
  {
    RunKeepsCoverage(states, labels, k);
  }

  /** Once no call is in progress the armed timer is no later than the earliest stored deadline. */
  lemma QuiescentTimerIsEarliest(states: seq<State>, labels: seq<Label>, k: nat)
    requires IsRun(states, labels) && k < |states| && states[k].mode.Up? && states[k].procs == map[]
    requires exists token :: token in states[k].table && states[k].table[token].timeout < MAX_TIME
    ensures states[k].armed && states[k].timer.Some?
    ensures forall token | token in states[k].table ::
              states[k].timer.value.timeout <= states[k].table[token].timeout
  {
    RunKeepsCoverage(states, labels, k);
    var s := states[k];
    var t :| t in s.table && s.table[t].timeout < MAX_TIME;
    assert TimerCovers(s, s.table[t]);
    forall token | token in s.table
      ensures s.timer.value.timeout <= s.table[token].timeout
    {
      if s.table[token].timeout < MAX_TIME {
        assert TimerCovers(s, s.table[token]);
      }
    }
  }
}
