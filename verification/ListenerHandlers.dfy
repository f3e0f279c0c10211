/**
 * What the handlers of the reservation listener (internal/eventlistener/subscription_token_bought.go and
 * subscription_cancellation.go) do, on values: the outcome of each for every combination of failing calls, and the
 * steps of the protocol it takes when nothing else runs beside it.
 */
module ListenerHandlers {
  import opened Types
  import opened Subscriptions
  import P = ListenerProtocol

  /** Which calls of one run of a handler succeed. `cancellable` is None when the chain call fails. */
  datatype SubscribeEnv = SubscribeEnv(sessionOk: bool, addOk: bool, commitOk: bool)

  datatype BoughtEnv = BoughtEnv(sessionOk: bool, getOk: bool, notifyOk: bool, cancellable: Option<bool>, addOk: bool,
                                 removeOk: bool, commitOk: bool, readOk: bool)

  datatype TimeoutEnv = TimeoutEnv(status: Option<Status>, sessionOk: bool, notifyOk: bool, recordOk: bool,
                                   removeOk: bool, commitOk: bool, readOk: bool)

  datatype ProposalEnv = ProposalEnv(status: Option<ProposalStatus>, reasonsOk: bool, sessionOk: bool, notifyOk: bool,
                                     removeOk: bool, commitOk: bool)

  datatype ScanEnv = ScanEnv(status: Option<Status>, notifyOk: bool, sessionOk: bool, removeOk: bool, commitOk: bool)

  // ---------- What each handler does to the tables and the log ----------

  predicate BoughtNotified(t: Table, token: nat, env: BoughtEnv) {
    env.sessionOk && env.getOk && token in t && env.notifyOk
  }

  predicate BoughtCommits(t: Table, cancellations: set<nat>, token: nat, env: BoughtEnv) {
    && BoughtNotified(t, token, env)
    && env.cancellable.Some? && (env.cancellable.value ==> env.addOk && token !in cancellations)
    && env.removeOk && env.commitOk
  }

  predicate ExpiryNotified(env: TimeoutEnv) {
    env.status == Some(Reserved) && env.sessionOk && env.notifyOk
  }

  predicate ExpiryCommits(t: Table, token: nat, recordExpiration: bool, env: TimeoutEnv) {
    && ExpiryNotified(env) && (recordExpiration ==> env.recordOk)
    && token in t && env.removeOk && env.commitOk
  }

  /** The timer guards exactly the earliest deadline: it holds a row iff there is one, and a row of least timeout. */
  ghost predicate Exact(t: Table, timer: Option<Subscription>, armed: bool) {
    && TableOk(t)
    && (armed <==> timer.Some?)
    && (timer.Some? <==> t != map[])
    && (timer.Some? ==> IsMin(t, timer.value))
  }

  // ---------- The steps each handler takes ----------

  /** A running process with no call in progress. */
  ghost predicate Idle(s: P.State) {
    s.mode.Up? && s.procs == map[]
  }

  /** An otherwise idle process with one call in progress. */
  ghost function With(s: P.State, p: P.Proc): P.State {
    s.(procs := map[0 := p])
  }

  lemma Moves(s: P.State, p: P.Proc, q: P.Proc)
    ensures P.Move(With(s, p), 0, q) == With(s, q)
    ensures s.procs == map[] ==> P.Move(s, 0, p) == With(s, p) && P.Finish(With(s, p), 0) == s
  {
    assert map[0 := p][0 := q] == map[0 := q];
    assert map[0 := p] - {0} == map[];
    assert s.procs == map[] ==> s.procs[0 := p] == map[0 := p];
  }

  /** One step and then the rest. */
  lemma StepThen(s: P.State, l: P.Label, rest: seq<P.Label>)
    ensures P.After(s, [l] + rest) == if P.Step(s, l).None? then None else P.After(P.Step(s, l).value, rest)
  {
    SingleStep(s, l);
    P.AfterAppend(s, [l], rest);
  }

  lemma SingleStep(s: P.State, l: P.Label)
    ensures P.After(s, [l]) == P.Step(s, l)
  {
    P.Then(s, [], l);
    assert [] + [l] == [l];
  }

  function SubscribeLabels(s: Subscription, ok: bool): seq<P.Label> {
    if ok then [P.SubscribeCommit(0, s)] + [P.SubscribeReset(0)] else []
  }

  lemma SubscribeSteps(s: P.State, sub: Subscription)
    requires Idle(s) && sub.token !in s.table
    ensures var stored := s.(table := s.table[sub.token := sub]);
            && P.Step(s, P.SubscribeCommit(0, sub)) == Some(With(stored, P.Subscribing(sub)))
            && P.Step(With(stored, P.Subscribing(sub)), P.SubscribeReset(0)) == Some(P.ResetIfAfter(stored, sub))
  {
    Moves(s, P.Subscribing(sub), P.Subscribing(sub));
    Moves(P.ResetIfAfter(s, sub), P.Subscribing(sub), P.Subscribing(sub));
  }

  lemma SubscribeIsRun(s: P.State, sub: Subscription, ok: bool)
    requires Idle(s) && (ok ==> sub.token !in s.table)
    ensures P.After(s, SubscribeLabels(sub, ok)) ==
            Some(if ok then P.ResetIfAfter(s.(table := s.table[sub.token := sub]), sub) else s)
  {
    if ok {
      SubscribeSteps(s, sub);
      SingleStep(s, P.SubscribeCommit(0, sub));
      P.Then(s, [P.SubscribeCommit(0, sub)], P.SubscribeReset(0));
    }
  }

  /** The handler's steps up to its deferred timer reset. */
  function BoughtFront(t: Table, cancellations: set<nat>, token: nat, env: BoughtEnv): seq<P.Label> {
    [P.BoughtBegin(0, token)]
    + (if BoughtNotified(t, token, env) then [P.BoughtNotify(0)] else [])
    + [if BoughtCommits(t, cancellations, token, env) then P.BoughtCommit(0, env.cancellable.value)
       else P.BoughtGiveUp(0)]
  }

  /** The process after the handler's transaction. */
  ghost function AfterBought(s: P.State, token: nat, env: BoughtEnv): P.State {
    var done := BoughtCommits(s.table, s.cancellations, token, env);
    s.(table := if done then s.table - {token} else s.table,
       cancellations := s.cancellations + (if done && env.cancellable.value then {token} else {}),
       log := s.log + if BoughtNotified(s.table, token, env) then [BoughtNote(token, s.table[token].mint)] else [])
  }

  lemma BoughtNotifyIsRun(s: P.State, token: nat, env: BoughtEnv)
    requires Idle(s)
    ensures var notified := BoughtNotified(s.table, token, env);
            P.After(With(s, P.BoughtStarted(token)), if notified then [P.BoughtNotify(0)] else []) ==
            Some(With(s.(log := AfterBought(s, token, env).log),
                      if notified then P.BoughtNotified(token) else P.BoughtStarted(token)))
  {
    var started := With(s, P.BoughtStarted(token));
    SingleStep(started, P.BoughtNotify(0));
    Moves(s, P.BoughtStarted(token), P.BoughtNotified(token));
    assert s.log + [] == s.log;
  }

  lemma BoughtEndIsRun(s: P.State, token: nat, env: BoughtEnv)
    requires Idle(s)
    ensures var done := BoughtCommits(s.table, s.cancellations, token, env);
            var at := if BoughtNotified(s.table, token, env) then P.BoughtNotified(token) else P.BoughtStarted(token);
            P.Step(With(s.(log := AfterBought(s, token, env).log), at),
                   if done then P.BoughtCommit(0, env.cancellable.value) else P.BoughtGiveUp(0)) ==
            Some(With(AfterBought(s, token, env), P.BoughtEnding(token)))
  {
    var at := if BoughtNotified(s.table, token, env) then P.BoughtNotified(token) else P.BoughtStarted(token);
    Moves(s, at, P.BoughtEnding(token));
    assert s.cancellations + {} == s.cancellations;
  }

  lemma BoughtFrontIsRun(s: P.State, token: nat, env: BoughtEnv)
    requires Idle(s)
    ensures P.After(s, BoughtFront(s.table, s.cancellations, token, env)) ==
            Some(With(AfterBought(s, token, env), P.BoughtEnding(token)))
  {
    var begin := P.BoughtBegin(0, token);
    var notify := if BoughtNotified(s.table, token, env) then [P.BoughtNotify(0)] else [];
    var end := if BoughtCommits(s.table, s.cancellations, token, env) then P.BoughtCommit(0, env.cancellable.value)
               else P.BoughtGiveUp(0);
    Moves(s, P.BoughtStarted(token), P.BoughtStarted(token));
    StepThen(s, begin, notify);
    BoughtNotifyIsRun(s, token, env);
    P.Then(s, [begin] + notify, end);
    BoughtEndIsRun(s, token, env);
  }

  /** `next` is what the reset read from the table. */
  function BoughtLabels(t: Table, cancellations: set<nat>, token: nat, env: BoughtEnv, next: Option<Subscription>)
    : seq<P.Label>
  {
    BoughtFront(t, cancellations, token, env) + [P.BoughtReset(0, next)]
  }

  lemma BoughtResets(s: P.State, s': P.State, token: nat)
    requires Idle(s) && Idle(s') && Exact(s'.table, s'.timer, s'.armed)
    requires s' == s.(timer := s'.timer, armed := s'.armed)
    requires s.timer.Some? && s.timer.value.token != token ==> s'.timer == s.timer && s'.armed == s.armed
    ensures P.Step(With(s, P.BoughtEnding(token)), P.BoughtReset(0, s'.timer)) == Some(s')
  {
    Moves(s', P.BoughtEnding(token), P.BoughtEnding(token));
  }

  lemma BoughtIsRun(s: P.State, s': P.State, token: nat, env: BoughtEnv)
    requires Idle(s) && Idle(s') && Exact(s'.table, s'.timer, s'.armed)
    requires var done := BoughtCommits(s.table, s.cancellations, token, env);
             && s'.table == (if done then s.table - {token} else s.table)
             && s'.cancellations == s.cancellations + (if done && env.cancellable.value then {token} else {})
    requires s'.log == s.log + if BoughtNotified(s.table, token, env) then [BoughtNote(token, s.table[token].mint)]
                               else []
    requires s.timer.Some? && s.timer.value.token != token ==> s'.timer == s.timer && s'.armed == s.armed
    ensures P.After(s, BoughtLabels(s.table, s.cancellations, token, env, s'.timer)) == Some(s')
  {
    BoughtFrontIsRun(s, token, env);
    P.Then(s, BoughtFront(s.table, s.cancellations, token, env), P.BoughtReset(0, s'.timer));
    BoughtResets(AfterBought(s, token, env), s', token);
  }

  function ExpiryRemoval(t: Table, token: nat, env: TimeoutEnv): seq<P.Label> {
    if !env.removeOk then [P.ExpiryGiveUp(0)]
    else if token !in t then [P.ExpiryRemove(0)]
    else [P.ExpiryRemove(0)] + [if env.commitOk then P.ExpiryCommit(0) else P.ExpiryGiveUp(0)]
  }

  /** The timeout handler's steps from the notification on, up to its deferred timer reset. */
  function ExpiryBack(t: Table, token: nat, recordExpiration: bool, env: TimeoutEnv): seq<P.Label> {
    if recordExpiration then
      if env.recordOk then [P.ExpiryRecord(0)] + ExpiryRemoval(t, token, env) else [P.ExpiryGiveUp(0)]
    else ExpiryRemoval(t, token, env)
  }

  /** From a reserved status on. */
  function ExpiryMiddle(t: Table, token: nat, recordExpiration: bool, env: TimeoutEnv): seq<P.Label> {
    if ExpiryNotified(env) then [P.ExpiryNotify(0)] + ExpiryBack(t, token, recordExpiration, env)
    else [P.ExpiryGiveUp(0)]
  }

  /** From its firing on. */
  function ExpiryRest(t: Table, token: nat, recordExpiration: bool, env: TimeoutEnv): seq<P.Label> {
    match env.status
    case None => [P.ExpiryGiveUp(0)]
    case Some(Reserved) => [P.ExpiryStatus(0, true)] + ExpiryMiddle(t, token, recordExpiration, env)
    case _ => [P.ExpiryStatus(0, false)]
  }

  function ExpiryLabels(t: Table, token: nat, recordExpiration: bool, env: TimeoutEnv, next: Option<Subscription>)
    : seq<P.Label>
  {
    [P.Fire(0)] + ExpiryRest(t, token, recordExpiration, env) + [P.ExpiryReset(0, next)]
  }

  lemma ExpiryGivesUp(s: P.State, at: P.Expiry)
    requires Idle(s)
    ensures P.Step(With(s, P.Expiring(at)), P.ExpiryGiveUp(0)) == Some(With(s, P.Expiring(P.Ending)))
    ensures P.After(With(s, P.Expiring(at)), [P.ExpiryGiveUp(0)]) == Some(With(s, P.Expiring(P.Ending)))
  {
    Moves(s, P.Expiring(at), P.Expiring(P.Ending));
    SingleStep(With(s, P.Expiring(at)), P.ExpiryGiveUp(0));
  }

  lemma ExpiryRemoves(s: P.State, t: nat)
    requires Idle(s) && s.timer.Some? && s.timer.value.token == t
    ensures var end := if t in s.table then P.Removing(t, t, t, t) else P.Ending;
            P.After(With(s, P.Expiring(P.Notified(t, t, t))), [P.ExpiryRemove(0)]) == Some(With(s, P.Expiring(end)))
  {
    var end := if t in s.table then P.Removing(t, t, t, t) else P.Ending;
    Moves(s, P.Expiring(P.Notified(t, t, t)), P.Expiring(end));
    SingleStep(With(s, P.Expiring(P.Notified(t, t, t))), P.ExpiryRemove(0));
  }

  lemma ExpiryCommitsRow(s: P.State, t: nat)
    requires Idle(s) && t in s.table
    ensures P.Step(With(s, P.Expiring(P.Removing(t, t, t, t))), P.ExpiryCommit(0)) ==
            Some(With(s.(table := s.table - {t}), P.Expiring(P.Ending)))
  {
    Moves(s, P.Expiring(P.Removing(t, t, t, t)), P.Expiring(P.Ending));
  }

  lemma ExpiryRemovalIsRun(s: P.State, t: nat, env: TimeoutEnv)
    requires Idle(s) && s.timer.Some? && s.timer.value.token == t
    ensures var done := t in s.table && env.removeOk && env.commitOk;
            P.After(With(s, P.Expiring(P.Notified(t, t, t))), ExpiryRemoval(s.table, t, env)) ==
            Some(With(s.(table := if done then s.table - {t} else s.table), P.Expiring(P.Ending)))
  {
    if !env.removeOk {
      ExpiryGivesUp(s, P.Notified(t, t, t));
    } else {
      ExpiryRemoves(s, t);
      if t in s.table {
        ExpiryGivesUp(s, P.Removing(t, t, t, t));
        ExpiryCommitsRow(s, t);
        P.Then(With(s, P.Expiring(P.Notified(t, t, t))), [P.ExpiryRemove(0)],
               if env.commitOk then P.ExpiryCommit(0) else P.ExpiryGiveUp(0));
      }
    }
  }

  lemma ExpiryBackIsRun(s: P.State, t: nat, recordExpiration: bool, env: TimeoutEnv)
    requires Idle(s) && s.timer.Some? && s.timer.value.token == t && ExpiryNotified(env)
    ensures P.After(With(s, P.Expiring(P.Notified(t, t, t))), ExpiryBack(s.table, t, recordExpiration, env)) ==
            Some(With(s.(table := if ExpiryCommits(s.table, t, recordExpiration, env) then s.table - {t} else s.table),
                      P.Expiring(P.Ending)))
  {
    var notified := With(s, P.Expiring(P.Notified(t, t, t)));
    ExpiryRemovalIsRun(s, t, env);
    if recordExpiration {
      if env.recordOk {
        StepThen(notified, P.ExpiryRecord(0), ExpiryRemoval(s.table, t, env));
        assert P.Step(notified, P.ExpiryRecord(0)) == Some(notified);
      } else {
        ExpiryGivesUp(s, P.Notified(t, t, t));
      }
    }
  }

  /** The process after the handler's transaction. */
  ghost function AfterExpiry(s: P.State, recordExpiration: bool, env: TimeoutEnv): P.State
    requires s.timer.Some?
  {
    var sub := s.timer.value;
    s.(armed := false,
       table := if ExpiryCommits(s.table, sub.token, recordExpiration, env) then s.table - {sub.token} else s.table,
       log := s.log + if ExpiryNotified(env) then [ExpiredNote(sub.token, sub.mint)] else [])
  }

  lemma ExpiryNotifies(s: P.State, t: nat)
    requires Idle(s) && s.timer.Some? && s.timer.value.token == t
    ensures P.Step(With(s, P.Expiring(P.Checked(t, t))), P.ExpiryNotify(0)) ==
            Some(With(s.(log := s.log + [ExpiredNote(t, s.timer.value.mint)]), P.Expiring(P.Notified(t, t, t))))
  {
    Moves(s, P.Expiring(P.Checked(t, t)), P.Expiring(P.Notified(t, t, t)));
  }

  lemma ExpiryMiddleIsRun(s: P.State, t: nat, recordExpiration: bool, env: TimeoutEnv)
    requires Idle(s) && s.timer.Some? && s.timer.value.token == t && !s.armed && env.status == Some(Reserved)
    ensures P.After(With(s, P.Expiring(P.Checked(t, t))), ExpiryMiddle(s.table, t, recordExpiration, env)) ==
            Some(With(AfterExpiry(s, recordExpiration, env), P.Expiring(P.Ending)))
  {
    if ExpiryNotified(env) {
      StepThen(With(s, P.Expiring(P.Checked(t, t))), P.ExpiryNotify(0), ExpiryBack(s.table, t, recordExpiration, env));
      ExpiryNotifies(s, t);
      ExpiryBackIsRun(s.(log := s.log + [ExpiredNote(t, s.timer.value.mint)]), t, recordExpiration, env);
    } else {
      ExpiryGivesUp(s, P.Checked(t, t));
      assert s.log + [] == s.log;
    }
  }

  lemma ExpiryUnreserved(s: P.State, t: nat, recordExpiration: bool, env: TimeoutEnv)
    requires Idle(s) && s.timer.Some? && s.timer.value.token == t && !s.armed && env.status != Some(Reserved)
    ensures P.After(With(s, P.Expiring(P.Fired(t))), ExpiryRest(s.table, t, recordExpiration, env)) ==
            Some(With(AfterExpiry(s, recordExpiration, env), P.Expiring(P.Ending)))
  {
    var fired := With(s, P.Expiring(P.Fired(t)));
    Moves(s, P.Expiring(P.Fired(t)), P.Expiring(P.Ending));
    ExpiryGivesUp(s, P.Fired(t));
    SingleStep(fired, P.ExpiryStatus(0, false));
    assert AfterExpiry(s, recordExpiration, env) == s;
  }

  lemma ExpiryStatusIsRun(s: P.State, t: nat, recordExpiration: bool, env: TimeoutEnv)
    requires Idle(s) && s.timer.Some? && s.timer.value.token == t && !s.armed
    ensures P.After(With(s, P.Expiring(P.Fired(t))), ExpiryRest(s.table, t, recordExpiration, env)) ==
            Some(With(AfterExpiry(s, recordExpiration, env), P.Expiring(P.Ending)))
  {
    if env.status == Some(Reserved) {
      StepThen(With(s, P.Expiring(P.Fired(t))), P.ExpiryStatus(0, true),
               ExpiryMiddle(s.table, t, recordExpiration, env));
      Moves(s, P.Expiring(P.Fired(t)), P.Expiring(P.Checked(t, t)));
      ExpiryMiddleIsRun(s, t, recordExpiration, env);
    } else {
      ExpiryUnreserved(s, t, recordExpiration, env);
    }
  }

  lemma ExpiryResets(s: P.State, s': P.State)
    requires Idle(s) && Idle(s') && Exact(s'.table, s'.timer, s'.armed)
    requires s' == s.(timer := s'.timer, armed := s'.armed)
    ensures P.Step(With(s, P.Expiring(P.Ending)), P.ExpiryReset(0, s'.timer)) == Some(s')
  {
    Moves(s', P.Expiring(P.Ending), P.Expiring(P.Ending));
  }

  lemma ExpiryIsRun(s: P.State, s': P.State, recordExpiration: bool, env: TimeoutEnv)
    requires Idle(s) && s.armed && s.timer.Some? && Idle(s') && Exact(s'.table, s'.timer, s'.armed)
    requires var sub := s.timer.value;
             && s'.table == (if ExpiryCommits(s.table, sub.token, recordExpiration, env) then s.table - {sub.token}
                             else s.table)
             && s'.log == s.log + (if ExpiryNotified(env) then [ExpiredNote(sub.token, sub.mint)] else [])
             && s'.cancellations == s.cancellations
    ensures P.After(s, ExpiryLabels(s.table, s.timer.value.token, recordExpiration, env, s'.timer)) == Some(s')
  {
    var t := s.timer.value.token;
    var rest := ExpiryRest(s.table, t, recordExpiration, env);
    Moves(s, P.Expiring(P.Fired(t)), P.Expiring(P.Fired(t)));
    StepThen(s, P.Fire(0), rest);
    ExpiryStatusIsRun(s.(armed := false), t, recordExpiration, env);
    P.Then(s, [P.Fire(0)] + rest, P.ExpiryReset(0, s'.timer));
    ExpiryResets(AfterExpiry(s, recordExpiration, env), s');
  }

  /** A finalized cancellation, once its session is open. */
  function FinalizeLabels(token: nat, notifyOk: bool, removed: bool): seq<P.Label> {
    [P.FinalizeBegin(0, token)]
    + (if notifyOk then [P.FinalizeNotify(0)] else [])
    + [if notifyOk && removed then P.FinalizeCommit(0) else P.FinalizeGiveUp(0)]
  }

  lemma FinalizeBegins(s: P.State, token: nat)
    requires Idle(s) && token in s.cancellations
    ensures P.Step(s, P.FinalizeBegin(0, token)) == Some(With(s, P.Finalizing(token, false)))
  {
    Moves(s, P.Finalizing(token, false), P.Finalizing(token, false));
  }

  lemma FinalizeNotifies(s: P.State, token: nat)
    requires Idle(s)
    ensures P.Step(With(s, P.Finalizing(token, false)), P.FinalizeNotify(0)) ==
            Some(With(s.(log := s.log + [ProposalNote(token, Finalized)]), P.Finalizing(token, true)))
  {
    Moves(s, P.Finalizing(token, false), P.Finalizing(token, true));
  }

  lemma FinalizeEnds(s: P.State, token: nat, notified: bool)
    requires Idle(s)
    ensures P.Step(With(s, P.Finalizing(token, notified)), P.FinalizeGiveUp(0)) == Some(s)
    ensures notified && token in s.cancellations ==>
              P.Step(With(s, P.Finalizing(token, notified)), P.FinalizeCommit(0)) ==
              Some(s.(cancellations := s.cancellations - {token}))
  {
    Moves(s, P.Finalizing(token, notified), P.Finalizing(token, notified));
  }

  lemma FinalizeIsRun(s: P.State, token: nat, notifyOk: bool, removed: bool)
    requires Idle(s) && token in s.cancellations
    ensures P.After(s, FinalizeLabels(token, notifyOk, removed)) ==
            Some(s.(cancellations := if notifyOk && removed then s.cancellations - {token} else s.cancellations,
                    log := s.log + if notifyOk then [ProposalNote(token, Finalized)] else []))
  {
    var begin := [P.FinalizeBegin(0, token)];
    FinalizeBegins(s, token);
    SingleStep(s, begin[0]);
    if notifyOk {
      var noted := s.(log := s.log + [ProposalNote(token, Finalized)]);
      FinalizeNotifies(s, token);
      P.Then(s, begin, P.FinalizeNotify(0));
      FinalizeEnds(noted, token, true);
      P.Then(s, begin + [P.FinalizeNotify(0)], if removed then P.FinalizeCommit(0) else P.FinalizeGiveUp(0));
    } else {
      FinalizeEnds(s, token, false);
      P.Then(s, begin, P.FinalizeGiveUp(0));
      assert begin + [] == begin && s.log + [] == s.log;
    }
  }

  // ---------- The startup scan ----------

  /** `best` is the running minimum; `failed` once any call has failed, which ends the scan. */
  datatype Scan = Scan(table: Table, log: seq<Note>, best: Option<Subscription>, failed: bool)

  function ScanOne(st: Scan, s: Subscription, env: ScanEnv): Scan {
    if env.status.None? then st.(failed := true)
    else if env.status == Some(Reserved) then
      if s.timeout < BestTimeout(st.best) then st.(best := Some(s)) else st
    else if env.status == Some(Bought) && !env.notifyOk then st.(failed := true)
    else
      var noted := st.(log := st.log + [if env.status == Some(Bought) then BoughtNote(s.token, s.mint)
                                        else SettledSeen(s.token)]);
      if env.sessionOk && env.removeOk && s.token in st.table && env.commitOk
      then noted.(table := st.table - {s.token})
      else noted.(failed := true)
  }

  function ScanAll(st: Scan, all: seq<Subscription>, env: nat -> ScanEnv): Scan
    decreases |all|
  {
    if all == [] || st.failed then st
    else ScanAll(ScanOne(st, all[0], env(all[0].token)), all[1..], env)
  }

  /** `all` lists the rows of the table, each once, in any order. */
  ghost predicate Lists(all: seq<Subscription>, t: Table) {
    && (forall s | s in all :: s.token in t && t[s.token] == s)
    && (forall token | token in t :: t[token] in all)
    && (forall i, j | 0 <= i < j < |all| :: all[i].token != all[j].token)
  }

  /** The scan saw the row settled, and if it was bought told the partner so with the row's mint ID. */
  ghost predicate SettledBy(log: seq<Note>, s: Subscription, env: ScanEnv) {
    match env.status
    case Some(Bought) => BoughtNote(s.token, s.mint) in log
    case Some(OtherStatus) => SettledSeen(s.token) in log
    case _ => false
  }

  /** Where a scan stands: what is left to look at is still stored, and `best` is the minimum of what was kept. */
  ghost predicate ScanInvariant(st: Scan, left: seq<Subscription>) {
    && TableOk(st.table)
    && (forall s | s in left :: s.token in st.table && st.table[s.token] == s)
    && (forall i, j | 0 <= i < j < |left| :: left[i].token != left[j].token)
    && (st.best.Some? ==> st.best.value.timeout < MAX_TIME
                          && st.best.value !in left
                          && st.best.value.token in st.table && st.table[st.best.value.token] == st.best.value)
    && (forall token | token in st.table && st.table[token] !in left ::
          BestTimeout(st.best) <= st.table[token].timeout)
  }

  /** A row that is kept becomes the minimum if it is earlier. */
  lemma ScanKept(st: Scan, left: seq<Subscription>)
    requires ScanInvariant(st, left) && left != []
    ensures var s := left[0];
            ScanInvariant(if s.timeout < BestTimeout(st.best) then st.(best := Some(s)) else st, left[1..])
  {
  }

  /** A row that is settled leaves the table, and the rows left to look at are still there. */
  lemma ScanRemoved(st: Scan, left: seq<Subscription>, log: seq<Note>)
    requires ScanInvariant(st, left) && left != []
    ensures ScanInvariant(st.(table := st.table - {left[0].token}, log := log), left[1..])
  {
  }

  lemma ScanOneInvariant(st: Scan, left: seq<Subscription>, env: ScanEnv)
    requires ScanInvariant(st, left) && left != [] && !ScanOne(st, left[0], env).failed
    ensures ScanInvariant(ScanOne(st, left[0], env), left[1..])
  {
    var st' := ScanOne(st, left[0], env);
    if st'.table != st.table {
      ScanRemoved(st, left, st'.log);
    } else {
      ScanKept(st, left);
    }
  }

  lemma ScanOneKeeps(st: Scan, left: seq<Subscription>, env: ScanEnv)
    requires ScanInvariant(st, left) && left != []
    ensures var st' := ScanOne(st, left[0], env);
            && (!st'.failed ==> ScanInvariant(st', left[1..]))
            && st.log <= st'.log
            && st'.table.Keys <= st.table.Keys
            && (forall token | token in st.table && token !in st'.table ::
                  token == left[0].token && SettledBy(st'.log, left[0], env))
            && (forall token | token in st'.table :: st'.table[token] == st.table[token])
            && (!st'.failed && left[0].token in st'.table ==> env.status == Some(Reserved))
  {
    if !ScanOne(st, left[0], env).failed {
      ScanOneInvariant(st, left, env);
    }
  }

  /**
   * The startup scan: when no call fails, what remains is still reserved and the result is a row of least timeout
   * among those below the largest time, if there is one. Whether or not a call fails, every row that is gone was
   * notified as bought with its own mint ID, or its token was seen in some other settled status.
   */
  lemma {:induction false} ScanCorrect(st: Scan, left: seq<Subscription>, env: nat -> ScanEnv)
    requires ScanInvariant(st, left) && !st.failed
    ensures var end := ScanAll(st, left, env);
            && (!end.failed ==> ScanInvariant(end, []))
            && st.log <= end.log
            && end.table.Keys <= st.table.Keys
            && (forall token | token in st.table && token !in end.table ::
                  SettledBy(end.log, st.table[token], env(token)))
            && (forall token | token in end.table :: end.table[token] == st.table[token])
            && (!end.failed ==> forall s | s in left && s.token in end.table :: env(s.token).status == Some(Reserved))
    decreases |left|
  {
    if left != [] {
      var next := ScanOne(st, left[0], env(left[0].token));
      ScanOneKeeps(st, left, env(left[0].token));
      if !next.failed {
        ScanCorrect(next, left[1..], env);
        var end := ScanAll(next, left[1..], env);
        forall token | token in st.table && token !in end.table
          ensures SettledBy(end.log, st.table[token], env(token))
        {
          if token !in next.table {
            assert forall n | n in next.log :: n in end.log;
          }
        }
        assert forall s | s in left && s != left[0] :: s in left[1..];
      }
    }
  }

  /** What a scan of all rows comes to: every row it removed is accounted for, and its result makes the timer exact. */
  lemma ScanOutcome(t: Table, log: seq<Note>, all: seq<Subscription>, env: nat -> ScanEnv)
    requires TableOk(t) && Lists(all, t)
    ensures var end := ScanAll(Scan(t, log, None, false), all, env);
            && TableOk(end.table)
            && (forall token | token in end.table :: token in t && end.table[token] == t[token])
            && (forall token | token in t && token !in end.table ::
                  SettledBy(end.log, t[token], env(token)) && Accounted(end.log, token))
            && (!end.failed ==>
                  && (forall token | token in end.table :: env(token).status == Some(Reserved))
                  && (Exact(end.table, end.best, end.best.Some?) <==>
                        end.table == map[]
                        || exists token :: token in end.table && end.table[token].timeout < MAX_TIME))
  {
    var start := Scan(t, log, None, false);
    var end := ScanAll(start, all, env);
    assert forall token | token in t :: t[token] in all;
    ScanCorrect(start, all, env);
    forall token | token in t && token !in end.table
      ensures Accounted(end.log, token)
    {
      assert SettledBy(end.log, t[token], env(token));
      var n := if env(token).status == Some(Bought) then BoughtNote(token, t[token].mint) else SettledSeen(token);
      assert n in end.log;
    }
  }

  /** Everything that one row needs succeeds. */
  predicate RowDone(e: ScanEnv) {
    || e.status == Some(Reserved)
    || ((e.status == Some(OtherStatus) || (e.status == Some(Bought) && e.notifyOk))
        && e.sessionOk && e.removeOk && e.commitOk)
  }

  /** What is noted of one row, whether or not it can then be removed. */
  function RowNotes(s: Subscription, e: ScanEnv): seq<Note> {
    if e.status == Some(Bought) && e.notifyOk then [BoughtNote(s.token, s.mint)]
    else if e.status == Some(OtherStatus) then [SettledSeen(s.token)]
    else []
  }

  function ScanNotes(rows: seq<Subscription>, env: nat -> ScanEnv): seq<Note> {
    if rows == [] then [] else RowNotes(rows[0], env(rows[0].token)) + ScanNotes(rows[1..], env)
  }

  lemma ScanOneExact(st: Scan, left: seq<Subscription>, env: ScanEnv)
    requires ScanInvariant(st, left) && left != [] && !st.failed
    ensures var s, st' := left[0], ScanOne(st, left[0], env);
            && (st'.failed <==> !RowDone(env))
            && st'.log == st.log + RowNotes(s, env)
            && st'.table == if RowDone(env) && env.status != Some(Reserved) then st.table - {s.token} else st.table
  {
    assert st.log + [] == st.log;
    match env.status {
      case None =>
      case Some(Reserved) =>
      case Some(Bought) =>
      case Some(OtherStatus) =>
    }
  }

  /** The tokens of the rows that were seen settled. */
  function SettledTokens(rows: seq<Subscription>, env: nat -> ScanEnv): set<nat> {
    set i | 0 <= i < |rows| && env(rows[i].token).status != Some(Reserved) :: rows[i].token
  }

  /**
   * The scan has dealt with the rows in order, up to the first of which something fails, `n`: before it each settled row
   * is noted and removed and each reserved one kept; it is noted but kept; after it nothing is touched.
   */
  ghost predicate StopsAt(st: Scan, rows: seq<Subscription>, env: nat -> ScanEnv, end: Scan, n: nat) {
    && n <= |rows|
    && (forall i | 0 <= i < n :: RowDone(env(rows[i].token)))
    && (n < |rows| ==> !RowDone(env(rows[n].token)))
    && (end.failed <==> n < |rows|)
    && end.log == st.log + ScanNotes(rows[..if n < |rows| then n + 1 else n], env)
    && end.table == st.table - SettledTokens(rows[..n], env)
  }

  /** The notes and the settled tokens of rows are those of the first and of the rest. */
  lemma FirstAndRest(rows: seq<Subscription>, env: nat -> ScanEnv, k: nat)
    requires 1 <= k <= |rows|
    ensures ScanNotes(rows[..k], env)
            == RowNotes(rows[0], env(rows[0].token)) + ScanNotes(rows[1..][..k - 1], env)
    ensures SettledTokens(rows[..k], env)
            == (if env(rows[0].token).status != Some(Reserved) then {rows[0].token} else {})
               + SettledTokens(rows[1..][..k - 1], env)
  {
    var upto, rest := rows[..k], rows[1..][..k - 1];
    assert upto[0] == rows[0] && upto[1..] == rest;
    forall i | 1 <= i < k && env(upto[i].token).status != Some(Reserved)
      ensures upto[i].token in SettledTokens(rest, env)
    {
      assert upto[i] == rest[i - 1];
    }
  }

  lemma StopsAtStep(st: Scan, next: Scan, rows: seq<Subscription>, env: nat -> ScanEnv, end: Scan, n: nat)
    requires rows != [] && RowDone(env(rows[0].token)) && StopsAt(next, rows[1..], env, end, n)
    requires next.log == st.log + RowNotes(rows[0], env(rows[0].token))
    requires next.table == if env(rows[0].token).status != Some(Reserved) then st.table - {rows[0].token} else st.table
    ensures StopsAt(st, rows, env, end, n + 1)
  {
    FirstAndRest(rows, env, n + 1);
    NotesStep(st.log, next.log, end.log, rows, env, if n + 1 < |rows| then n + 2 else n + 1);
    forall i | 0 <= i < n + 1
      ensures RowDone(env(rows[i].token))
    {
      assert i > 0 ==> rows[i] == rows[1..][i - 1];
    }
  }

  lemma NotesStep(before: seq<Note>, next: seq<Note>, end: seq<Note>, rows: seq<Subscription>, env: nat -> ScanEnv,
                  k: nat)
    requires 1 <= k <= |rows| && next == before + RowNotes(rows[0], env(rows[0].token))
    requires end == next + ScanNotes(rows[1..][..k - 1], env)
    ensures end == before + ScanNotes(rows[..k], env)
  {
    FirstAndRest(rows, env, k);
  }

  lemma StopsHere(st: Scan, rows: seq<Subscription>, env: nat -> ScanEnv, end: Scan)
    requires rows != [] && !RowDone(env(rows[0].token)) && end.failed && end.table == st.table
    requires end.log == st.log + RowNotes(rows[0], env(rows[0].token))
    ensures StopsAt(st, rows, env, end, 0)
  {
    FirstAndRest(rows, env, 1);
    assert rows[1..][..0] == [];
  }

  lemma {:induction false} ScanExact(st: Scan, left: seq<Subscription>, env: nat -> ScanEnv) returns (n: nat)
    requires ScanInvariant(st, left) && !st.failed
    ensures StopsAt(st, left, env, ScanAll(st, left, env), n)
    decreases |left|
  {
    if left == [] {
      n := 0;
    } else {
      var e := env(left[0].token);
      var next := ScanOne(st, left[0], e);
      ScanOneExact(st, left, e);
      if next.failed {
        n := 0;
        StopsHere(st, left, env, next);
      } else {
        ScanOneKeeps(st, left, e);
        n := ScanExact(next, left[1..], env);
        StopsAtStep(st, next, left, env, ScanAll(st, left, env), n);
        n := n + 1;
      }
    }
  }

  lemma ScanSucceedsIff(t: Table, log: seq<Note>, all: seq<Subscription>, env: nat -> ScanEnv)
    requires TableOk(t) && Lists(all, t)
    ensures !ScanAll(Scan(t, log, None, false), all, env).failed <==> forall s | s in all :: RowDone(env(s.token))
  {
    assert forall token | token in t :: t[token] in all;
    var n := ScanExact(Scan(t, log, None, false), all, env);
    assert n < |all| ==> all[n] in all;
  }

  // ---------- The steps of the startup scan ----------

  /** The steps for one row, and whether the scan goes on. */
  function RowLabels(s: Subscription, env: ScanEnv): (seq<P.Label>, bool) {
    if env.status.None? then ([], false)
    else if env.status == Some(Reserved) then ([P.ScanReserved(s)], true)
    else if env.status == Some(Bought) && !env.notifyOk then ([], false)
    else if env.sessionOk && env.removeOk && env.commitOk
    then ([P.ScanSettled(s, env.status == Some(Bought))] + [P.ScanRemove], true)
    else ([P.ScanSettled(s, env.status == Some(Bought))], false)
  }

  /** The whole scan: a failure ends the process, success starts the timer. */
  function ScanLabels(left: seq<Subscription>, env: nat -> ScanEnv): seq<P.Label> {
    if left == [] then [P.ScanDone]
    else
      var (labels, more) := RowLabels(left[0], env(left[0].token));
      labels + if more then ScanLabels(left[1..], env) else [P.Crash]
  }

  ghost function ScanState(st: Scan, left: seq<Subscription>, cancellations: set<nat>): P.State {
    P.State(P.Scanning((set s | s in left), None, st.best), st.table, cancellations, None, false, map[], st.log)
  }

  ghost function DownState(t: Table, cancellations: set<nat>, log: seq<Note>): P.State {
    P.State(P.Down, t, cancellations, None, false, map[], log)
  }

  ghost function ScannedState(end: Scan, cancellations: set<nat>): P.State {
    if end.failed then DownState(end.table, cancellations, end.log)
    else P.State(P.Up, end.table, cancellations, end.best, end.best.Some?, map[], end.log)
  }

  lemma RestOfRows(left: seq<Subscription>)
    requires left != [] && forall i, j | 0 <= i < j < |left| :: left[i].token != left[j].token
    ensures (set s | s in left) - {left[0]} == set s | s in left[1..]
  {
    assert left == [left[0]] + left[1..];
    assert left[0] !in left[1..];
  }

  /** A row has been seen settled, and notified if it was bought, but not yet removed. */
  ghost function SettledState(st: Scan, left: seq<Subscription>, cancellations: set<nat>, bought: bool): P.State
    requires left != []
  {
    P.State(P.Scanning((set s | s in left[1..]), Some(left[0]), st.best), st.table, cancellations, None, false, map[],
            st.log + [if bought then BoughtNote(left[0].token, left[0].mint) else SettledSeen(left[0].token)])
  }

  lemma RowSettles(st: Scan, left: seq<Subscription>, cancellations: set<nat>, bought: bool)
    requires ScanInvariant(st, left) && left != []
    ensures P.After(ScanState(st, left, cancellations), [P.ScanSettled(left[0], bought)]) ==
            Some(SettledState(st, left, cancellations, bought))
  {
    RestOfRows(left);
    SingleStep(ScanState(st, left, cancellations), P.ScanSettled(left[0], bought));
  }

  lemma SettledIsRun(st: Scan, left: seq<Subscription>, cancellations: set<nat>, env: ScanEnv)
    requires ScanInvariant(st, left) && left != [] && !st.failed
    requires env.status.Some? && !env.status.value.Reserved? && (env.status.value.Bought? ==> env.notifyOk)
    ensures var st', (labels, more) := ScanOne(st, left[0], env), RowLabels(left[0], env);
            && more == !st'.failed
            && P.After(ScanState(st, left, cancellations), if more then labels else labels + [P.Crash]) ==
               Some(if more then ScanState(st', left[1..], cancellations) else ScannedState(st', cancellations))
  {
    var s, bought := ScanState(st, left, cancellations), env.status == Some(Bought);
    var settled := [P.ScanSettled(left[0], bought)];
    RowSettles(st, left, cancellations, bought);
    P.Then(s, settled, if RowLabels(left[0], env).1 then P.ScanRemove else P.Crash);
  }

  lemma RowIsRun(st: Scan, left: seq<Subscription>, cancellations: set<nat>, env: ScanEnv)
    requires ScanInvariant(st, left) && left != [] && !st.failed
    ensures var st', (labels, more) := ScanOne(st, left[0], env), RowLabels(left[0], env);
            && more == !st'.failed
            && P.After(ScanState(st, left, cancellations), if more then labels else labels + [P.Crash]) ==
               Some(if more then ScanState(st', left[1..], cancellations) else ScannedState(st', cancellations))
  {
    var s, row := ScanState(st, left, cancellations), left[0];
    var (labels, more) := RowLabels(row, env);
    if env.status == Some(Reserved) {
      RestOfRows(left);
      SingleStep(s, P.ScanReserved(row));
    } else if env.status.None? || (env.status == Some(Bought) && !env.notifyOk) {
      SingleStep(s, P.Crash);
      assert [] + [P.Crash] == [P.Crash];
    } else {
      SettledIsRun(st, left, cancellations, env);
    }
  }

  lemma {:induction false} ScanIsRun(st: Scan, left: seq<Subscription>, cancellations: set<nat>, env: nat -> ScanEnv)
    requires ScanInvariant(st, left) && !st.failed
    ensures P.After(ScanState(st, left, cancellations), ScanLabels(left, env)) ==
            Some(ScannedState(ScanAll(st, left, env), cancellations))
    decreases |left|
  {
    var s := ScanState(st, left, cancellations);
    if left == [] {
      SingleStep(s, P.ScanDone);
      assert (set row | row in left) == {};
    } else {
      var e := env(left[0].token);
      var (labels, more) := RowLabels(left[0], e);
      RowIsRun(st, left, cancellations, e);
      if more {
        ScanOneKeeps(st, left, e);
        P.AfterAppend(s, labels, ScanLabels(left[1..], env));
        ScanIsRun(ScanOne(st, left[0], e), left[1..], cancellations, env);
      }
    }
  }

  lemma ScanBegins(t: Table, cancellations: set<nat>, log: seq<Note>, all: seq<Subscription>)
    requires TableOk(t) && Lists(all, t)
    ensures ScanInvariant(Scan(t, log, None, false), all)
    ensures P.Step(DownState(t, cancellations, log), P.StartUp) ==
            Some(ScanState(Scan(t, log, None, false), all, cancellations))
  {
    assert forall token | token in t :: t[token] in all;
    assert (set token | token in t :: t[token]) == set s | s in all;
  }

  /** The scan at the start of a process is a run of the protocol from where the last process left the tables. */
  lemma StartIsRun(t: Table, cancellations: set<nat>, log: seq<Note>, all: seq<Subscription>, env: nat -> ScanEnv)
    requires TableOk(t) && Lists(all, t)
    ensures P.After(DownState(t, cancellations, log), [P.StartUp] + ScanLabels(all, env)) ==
            Some(ScannedState(ScanAll(Scan(t, log, None, false), all, env), cancellations))
  {
    StepThen(DownState(t, cancellations, log), P.StartUp, ScanLabels(all, env));
    ScanBegins(t, cancellations, log, all);
    ScanIsRun(Scan(t, log, None, false), all, cancellations, env);
  }

  // ---------- The startup check of cancellations ----------

  /** `failed` once any call has failed, which ends the check. */
  datatype Check = Check(cancellations: set<nat>, log: seq<Note>, failed: bool)

  /** A finalized cancellation is notified, removed and committed; any other known proposal is notified and stays. */
  function CheckOne(st: Check, token: nat, env: ProposalEnv): Check {
    match env.status
    case None => st.(failed := true)
    case Some(UnknownStatus) => st.(failed := true)
    case Some(NoProposal) => st
    case Some(Finalized) =>
      if !env.sessionOk || !env.notifyOk then st.(failed := true)
      else
        var noted := st.(log := st.log + [ProposalNote(token, Finalized)]);
        if env.removeOk && token in st.cancellations && env.commitOk
        then noted.(cancellations := st.cancellations - {token}) else noted.(failed := true)
    case Some(status) =>
      if !env.reasonsOk || !env.notifyOk then st.(failed := true)
      else st.(log := st.log + [ProposalNote(token, status)])
  }

  function CheckAll(st: Check, all: seq<nat>, env: nat -> ProposalEnv): Check
    decreases |all|
  {
    if all == [] || st.failed then st
    else CheckAll(CheckOne(st, all[0], env(all[0])), all[1..], env)
  }

  /** The status of the token is known, and unless it has no proposal it was notified. */
  ghost predicate Informed(log: seq<Note>, token: nat, env: ProposalEnv) {
    && env.status.Some? && env.status != Some(UnknownStatus)
    && (env.status != Some(NoProposal) ==> ProposalNote(token, env.status.value) in log)
  }

  /**
   * Whether or not a call fails, only finalized tokens are removed, each after its notification; when none fails,
   * every token's status was known, was notified unless there is no proposal, and exactly the finalized ones are gone.
   */
  lemma {:induction false} CheckCorrect(st: Check, all: seq<nat>, env: nat -> ProposalEnv)
    requires !st.failed && (forall token | token in all :: token in st.cancellations)
    requires forall i, j | 0 <= i < j < |all| :: all[i] != all[j]
    ensures var end := CheckAll(st, all, env);
            && end.cancellations <= st.cancellations && st.log <= end.log
            && (forall token | token in st.cancellations - end.cancellations ::
                  token in all && env(token).status == Some(Finalized) && ProposalNote(token, Finalized) in end.log)
            && (!end.failed ==> forall token | token in all ::
                  && Informed(end.log, token, env(token))
                  && (token in end.cancellations <==> env(token).status != Some(Finalized)))
    decreases |all|
  {
    if all != [] {
      var next := CheckOne(st, all[0], env(all[0]));
      assert all == [all[0]] + all[1..];
      if !next.failed {
        CheckCorrect(next, all[1..], env);
        var end := CheckAll(next, all[1..], env);
        assert forall n | n in next.log :: n in end.log;
        assert all[0] !in all[1..];
      }
    }
  }

  /** Everything that one token needs succeeds. */
  predicate TokenDone(e: ProposalEnv) {
    || e.status == Some(NoProposal)
    || ((e.status == Some(Pending) || e.status == Some(Rejected) || e.status == Some(Withdrawn))
        && e.reasonsOk && e.notifyOk)
    || (e.status == Some(Finalized) && e.sessionOk && e.notifyOk && e.removeOk && e.commitOk)
  }

  /** What the partner is told of one token. */
  function TokenNotes(token: nat, e: ProposalEnv): seq<Note> {
    if e.status == Some(Finalized) && e.sessionOk && e.notifyOk then [ProposalNote(token, Finalized)]
    else if (e.status == Some(Pending) || e.status == Some(Rejected) || e.status == Some(Withdrawn))
            && e.reasonsOk && e.notifyOk then [ProposalNote(token, e.status.value)]
    else []
  }

  function CheckNotes(tokens: seq<nat>, env: nat -> ProposalEnv): seq<Note> {
    if tokens == [] then [] else TokenNotes(tokens[0], env(tokens[0])) + CheckNotes(tokens[1..], env)
  }

  lemma CheckOneExact(st: Check, token: nat, env: ProposalEnv)
    requires !st.failed && token in st.cancellations
    ensures var st' := CheckOne(st, token, env);
            && (st'.failed <==> !TokenDone(env))
            && st'.log == st.log + TokenNotes(token, env)
            && st'.cancellations == if TokenDone(env) && env.status == Some(Finalized)
                                    then st.cancellations - {token} else st.cancellations
  {
    assert st.log + [] == st.log;
  }

  function FinalizedTokens(tokens: seq<nat>, env: nat -> ProposalEnv): set<nat> {
    set i | 0 <= i < |tokens| && env(tokens[i]).status == Some(Finalized) :: tokens[i]
  }

  /** The check, too, has dealt with the tokens in order, up to the first of which something fails, `n`. */
  ghost predicate CheckStopsAt(st: Check, tokens: seq<nat>, env: nat -> ProposalEnv, end: Check, n: nat) {
    && n <= |tokens|
    && (forall i | 0 <= i < n :: TokenDone(env(tokens[i])))
    && (n < |tokens| ==> !TokenDone(env(tokens[n])))
    && (end.failed <==> n < |tokens|)
    && end.log == st.log + CheckNotes(tokens[..if n < |tokens| then n + 1 else n], env)
    && end.cancellations == st.cancellations - FinalizedTokens(tokens[..n], env)
  }

  lemma FirstAndRestOfTokens(tokens: seq<nat>, env: nat -> ProposalEnv, k: nat)
    requires 1 <= k <= |tokens|
    ensures CheckNotes(tokens[..k], env) == TokenNotes(tokens[0], env(tokens[0])) + CheckNotes(tokens[1..][..k - 1], env)
    ensures FinalizedTokens(tokens[..k], env)
            == (if env(tokens[0]).status == Some(Finalized) then {tokens[0]} else {})
               + FinalizedTokens(tokens[1..][..k - 1], env)
  {
    var upto, rest := tokens[..k], tokens[1..][..k - 1];
    assert upto[0] == tokens[0] && upto[1..] == rest;
    forall i | 1 <= i < k && env(upto[i]).status == Some(Finalized)
      ensures upto[i] in FinalizedTokens(rest, env)
    {
      assert upto[i] == rest[i - 1];
    }
  }

  lemma CheckStopsAtStep(st: Check, next: Check, tokens: seq<nat>, env: nat -> ProposalEnv, end: Check, n: nat)
    requires tokens != [] && TokenDone(env(tokens[0])) && CheckStopsAt(next, tokens[1..], env, end, n)
    requires next.log == st.log + TokenNotes(tokens[0], env(tokens[0]))
    requires next.cancellations == if env(tokens[0]).status == Some(Finalized) then st.cancellations - {tokens[0]}
                                   else st.cancellations
    ensures CheckStopsAt(st, tokens, env, end, n + 1)
  {
    FirstAndRestOfTokens(tokens, env, n + 1);
    ProposalNotesStep(st.log, next.log, end.log, tokens, env, if n + 1 < |tokens| then n + 2 else n + 1);
    forall i | 0 <= i < n + 1
      ensures TokenDone(env(tokens[i]))
    {
      assert i > 0 ==> tokens[i] == tokens[1..][i - 1];
    }
  }

  lemma ProposalNotesStep(before: seq<Note>, next: seq<Note>, end: seq<Note>, tokens: seq<nat>,
                          env: nat -> ProposalEnv, k: nat)
    requires 1 <= k <= |tokens| && next == before + TokenNotes(tokens[0], env(tokens[0]))
    requires end == next + CheckNotes(tokens[1..][..k - 1], env)
    ensures end == before + CheckNotes(tokens[..k], env)
  {
    FirstAndRestOfTokens(tokens, env, k);
  }

  lemma CheckStopsHere(st: Check, tokens: seq<nat>, env: nat -> ProposalEnv, end: Check)
    requires tokens != [] && !TokenDone(env(tokens[0])) && end.failed && end.cancellations == st.cancellations
    requires end.log == st.log + TokenNotes(tokens[0], env(tokens[0]))
    ensures CheckStopsAt(st, tokens, env, end, 0)
  {
    FirstAndRestOfTokens(tokens, env, 1);
    assert tokens[1..][..0] == [];
  }

  lemma {:induction false} CheckExact(st: Check, all: seq<nat>, env: nat -> ProposalEnv) returns (n: nat)
    requires !st.failed && (forall token | token in all :: token in st.cancellations)
    requires forall i, j | 0 <= i < j < |all| :: all[i] != all[j]
    ensures CheckStopsAt(st, all, env, CheckAll(st, all, env), n)
    decreases |all|
  {
    if all == [] {
      n := 0;
    } else {
      var e := env(all[0]);
      var next := CheckOne(st, all[0], e);
      CheckOneExact(st, all[0], e);
      if next.failed {
        n := 0;
        CheckStopsHere(st, all, env, next);
      } else {
        assert all[0] !in all[1..];
        n := CheckExact(next, all[1..], env);
        CheckStopsAtStep(st, next, all, env, CheckAll(st, all, env), n);
        n := n + 1;
      }
    }
  }

  lemma CheckSucceedsIff(st: Check, all: seq<nat>, env: nat -> ProposalEnv)
    requires !st.failed && (forall token | token in all :: token in st.cancellations)
    requires forall i, j | 0 <= i < j < |all| :: all[i] != all[j]
    ensures !CheckAll(st, all, env).failed <==> forall token | token in all :: TokenDone(env(token))
  {
    var n := CheckExact(st, all, env);
    assert n < |all| ==> all[n] in all;
  }

  /** The steps of one token. */
  function TokenLabels(token: nat, env: ProposalEnv): seq<P.Label> {
    match env.status
    case Some(Finalized) =>
      if env.sessionOk then FinalizeLabels(token, env.notifyOk, env.removeOk && env.commitOk) else []
    case Some(NoProposal) => []
    case Some(UnknownStatus) => []
    case Some(status) => if env.reasonsOk && env.notifyOk then [P.NotifyProposal(token, status)] else []
    case None => []
  }

  function CheckLabels(st: Check, all: seq<nat>, env: nat -> ProposalEnv): seq<P.Label>
    decreases |all|
  {
    if all == [] || st.failed then []
    else TokenLabels(all[0], env(all[0])) + CheckLabels(CheckOne(st, all[0], env(all[0])), all[1..], env)
  }

  lemma FinalizedIsRun(s: P.State, token: nat, env: ProposalEnv)
    requires Idle(s) && token in s.cancellations && env.status == Some(Finalized)
    ensures var end := CheckOne(Check(s.cancellations, s.log, false), token, env);
            P.After(s, TokenLabels(token, env)) == Some(s.(cancellations := end.cancellations, log := end.log))
  {
    FinalizeIsRun(s, token, env.notifyOk, env.removeOk && env.commitOk);
    assert s.log + [] == s.log;
  }

  lemma ProposalIsRun(s: P.State, token: nat, status: ProposalStatus)
    requires Idle(s) && (status.Pending? || status.Rejected? || status.Withdrawn?)
    ensures P.After(s, [P.NotifyProposal(token, status)]) == Some(s.(log := s.log + [ProposalNote(token, status)]))
  {
    var l := P.NotifyProposal(token, status);
    SingleStep(s, l);
    assert P.Step(s, l) == P.CancellationStep(s, l);
  }

  lemma TokenIsRun(s: P.State, token: nat, env: ProposalEnv)
    requires Idle(s) && token in s.cancellations
    ensures var end := CheckOne(Check(s.cancellations, s.log, false), token, env);
            P.After(s, TokenLabels(token, env)) == Some(s.(cancellations := end.cancellations, log := end.log))
  {
    match env.status
    case Some(Finalized) => FinalizedIsRun(s, token, env);
    case Some(Pending) => ProposalIsRun(s, token, Pending);
    case Some(Rejected) => ProposalIsRun(s, token, Rejected);
    case Some(Withdrawn) => ProposalIsRun(s, token, Withdrawn);
    case _ =>
  }

  lemma {:induction false} CheckIsRun(s: P.State, st: Check, all: seq<nat>, env: nat -> ProposalEnv)
    requires Idle(s) && s.cancellations == st.cancellations && s.log == st.log && !st.failed
    requires forall token | token in all :: token in st.cancellations
    requires forall i, j | 0 <= i < j < |all| :: all[i] != all[j]
    ensures var end := CheckAll(st, all, env);
            P.After(s, CheckLabels(st, all, env)) == Some(s.(cancellations := end.cancellations, log := end.log))
    decreases |all|
  {
    if all != [] {
      var next := CheckOne(st, all[0], env(all[0]));
      var s' := s.(cancellations := next.cancellations, log := next.log);
      TokenIsRun(s, all[0], env(all[0]));
      assert st == Check(s.cancellations, s.log, false);
      P.AfterAppend(s, TokenLabels(all[0], env(all[0])), CheckLabels(next, all[1..], env));
      if !next.failed {
        assert all[0] !in all[1..];
        CheckIsRun(s', next, all[1..], env);
      }
    }
  }
}
