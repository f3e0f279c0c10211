/**
 * The reservation listener with handlers that run one at a time (internal/eventlistener/subscription_token_bought.go
 * and subscription_cancellation.go): one timer, two durable tables written in transactions, and calls to the partner
 * plugin and the chain, each of which may fail.
 */
module EventListener {
  import opened Types
  import opened Subscriptions
  import opened ListenerHandlers
  import P = ListenerProtocol

  class EventListener {
    const recordExpiration: bool

    /** The durable tables, as last committed. */
    var table: Table
    var cancellations: set<nat>

    var timerSubscription: Option<Subscription>
    /** The timer will still fire. */
    var armed: bool

    /** What was acknowledged by the partner plugin, or seen settled, so far. */
    ghost var log: seq<Note>

    /** A process that starts on existing tables, before its startup scan. */
    constructor (recordExpiration: bool, table: Table, cancellations: set<nat>)
      requires TableOk(table)
      ensures this.recordExpiration == recordExpiration && this.table == table && this.cancellations == cancellations
      ensures timerSubscription == None && !armed && log == []
    {
      this.recordExpiration, this.table, this.cancellations := recordExpiration, table, cancellations;
      timerSubscription, armed, log := None, false, [];
    }

    /** The timer guards exactly the earliest deadline. */
    ghost predicate Exact()
      reads this
    {
      ListenerHandlers.Exact(table, timerSubscription, armed)
    }

    /** The running process as a state of the protocol, between calls. */
    ghost function Value(): P.State
      reads this
    {
      P.State(P.Up, table, cancellations, timerSubscription, armed, map[], log)
    }

    /** A failed add, remove or commit leaves the tables as they were; the insert fails on an existing token. */
    method SubscribeTokenBoughtEvent(token: nat, mint: string, timeout: int, env: SubscribeEnv) returns (ok: bool)
      requires Exact()
      modifies this`table, this`timerSubscription, this`armed
      ensures Exact()
      ensures ok <==> env.sessionOk && env.addOk && token !in old(table) && env.commitOk
      ensures var s := Subscription(token, mint, timeout + 2);
              && table == (if ok then old(table)[token := s] else old(table))
              && timerSubscription == (if ok && (old(timerSubscription).None?
                                                 || s.timeout < old(timerSubscription).value.timeout)
                                       then Some(s) else old(timerSubscription))
      ensures P.After(old(Value()), SubscribeLabels(Subscription(token, mint, timeout + 2), ok))
              == Some(Value())
    {
      var subscription := Subscription(token, mint, timeout + CHECK_BLOCKCHAIN_DELAY);
      SubscribeIsRun(Value(), subscription, env.sessionOk && env.addOk && token !in table && env.commitOk);
      if !env.sessionOk {
        return false;
      }
      var session := table;
      if !env.addOk || token in session {
        return false;
      }
      session := session[token := subscription];
      if !env.commitOk {
        return false;
      }
      table := session;
      ResetTimerIfAfter(subscription);
      return true;
    }

    /** Re-arms the timer when the new subscription is earlier than the one it guards. */
    method ResetTimerIfAfter(s: Subscription)
      requires TableOk(table) && s.token in table && table[s.token] == s
      requires armed <==> timerSubscription.Some?
      requires timerSubscription.Some? ==> IsMin(table - {s.token}, timerSubscription.value)
      requires timerSubscription.None? ==> table - {s.token} == map[]
      modifies this`timerSubscription, this`armed
      ensures Exact()
      ensures timerSubscription ==
              if old(timerSubscription).None? || s.timeout < old(timerSubscription).value.timeout then Some(s)
              else old(timerSubscription)
    {
      assert forall token | token in table && token != s.token :: token in table - {s.token};
      if timerSubscription.Some? && timerSubscription.value.timeout <= s.timeout {
        return;
      }
      timerSubscription, armed := Some(s), true;
    }

    /**
     * Stops the timer and re-arms it from the table. The result is exact iff the table could be read or is empty,
     * whatever the timer held before.
     */
    method ResetTimerFromDB(readOk: bool)
      requires TableOk(table)
      modifies this`timerSubscription, this`armed
      ensures Exact() <==> readOk || table == map[]
      ensures !readOk ==> timerSubscription == None && !armed
    {
      timerSubscription, armed := None, false;
      if readOk && table != map[] {
        MinExists(table);
        var next := PickMin();
        timerSubscription, armed := Some(next), true;
      }
    }

    /** A row of least timeout. */
    method PickMin() returns (s: Subscription)
      requires TableOk(table) && table != map[]
      ensures IsMin(table, s)
    {
      var todo := table.Keys;
      var token :| token in todo;
      s := table[token];
      todo := todo - {token};
      while todo != {}
        invariant todo <= table.Keys
        invariant s.token in table && table[s.token] == s
        invariant forall k | k in table && k !in todo :: s.timeout <= table[k].timeout
        decreases |todo|
      {
        token :| token in todo;
        if table[token].timeout < s.timeout {
          s := table[token];
        }
        todo := todo - {token};
      }
    }

    method ResetTimerIfMatch(token: nat, readOk: bool)
      requires TableOk(table) && (armed <==> timerSubscription.Some?)
      requires timerSubscription.Some? && timerSubscription.value.token != token ==> IsMin(table, timerSubscription.value)
      modifies this`timerSubscription, this`armed
      ensures readOk ==> Exact()
      ensures if old(timerSubscription).Some? && old(timerSubscription).value.token != token then
                timerSubscription == old(timerSubscription) && armed == old(armed)
              else !readOk ==> timerSubscription == None && !armed
    {
      if timerSubscription.Some? && timerSubscription.value.token != token {
        return;
      }
      ResetTimerFromDB(readOk);
    }

    /**
     * Returns the block number of the event when it needs no further handling, and 0 when it failed. The row leaves iff
     * every call on its way succeeds; a booking that can be cancelled is besides entered among the cancellations.
     */
    method TokenBoughtEventHandler(token: nat, block: nat, env: BoughtEnv) returns (processed: nat)
      requires Exact()
      modifies this
      ensures env.readOk ==> Exact()
      ensures if old(timerSubscription).Some? && old(timerSubscription).value.token != token then
                timerSubscription == old(timerSubscription) && armed == old(armed)
              else !env.readOk ==> timerSubscription == None && !armed
      ensures log == old(log) + if env.sessionOk && env.getOk && token in old(table) && env.notifyOk
                                then [BoughtNote(token, old(table)[token].mint)] else []
      ensures table == old(table) || table == old(table) - {token}
      ensures token in old(table) ==>
                (token !in table <==>
                   && env.sessionOk && env.getOk && env.notifyOk
                   && (env.cancellable == Some(false)
                       || (env.cancellable == Some(true) && env.addOk && token !in old(cancellations)))
                   && env.removeOk && env.commitOk)
      ensures cancellations == if token in old(table) && token !in table && env.cancellable == Some(true)
                               then old(cancellations) + {token} else old(cancellations)
      ensures processed == if env.sessionOk && env.getOk && token !in table then block else 0
      ensures env.readOk ==>
                P.After(old(Value()), BoughtLabels(old(table), old(cancellations), token, env, timerSubscription))
                == Some(Value())
    {
      processed := HandleBought(token, block, env);
      assert cancellations + {} == cancellations;
      ResetTimerIfMatch(token, env.readOk);
      if env.readOk {
        BoughtIsRun(old(Value()), Value(), token, env);
      }
    }

    /** The handler's transaction, before its deferred timer reset. */
    method HandleBought(token: nat, block: nat, env: BoughtEnv) returns (processed: nat)
      requires TableOk(table)
      modifies this`table, this`cancellations, this`log
      ensures TableOk(table)
      ensures var done := BoughtCommits(old(table), old(cancellations), token, env);
              && table == (if done then old(table) - {token} else old(table))
              && cancellations == old(cancellations) + (if done && env.cancellable.value then {token} else {})
              && processed == if done || (env.sessionOk && env.getOk && token !in old(table)) then block else 0
      ensures log == old(log) + if BoughtNotified(old(table), token, env)
                                then [BoughtNote(token, old(table)[token].mint)] else []
    {
      if !env.sessionOk {
        return 0;
      }
      var session, cancellationSession := table, cancellations;
      if !env.getOk {
        return 0;
      }
      if token !in session {
        return block;
      }
      var subscription := session[token];
      if !env.notifyOk {
        return 0;
      }
      log := log + [BoughtNote(subscription.token, subscription.mint)];
      if env.cancellable.None? {
        return 0;
      }
      if env.cancellable.value {
        if !env.addOk || subscription.token in cancellationSession {
          return 0;
        }
        cancellationSession := cancellationSession + {subscription.token};
      }
      if !env.removeOk {
        return 0;
      }
      session := session - {subscription.token};
      if !env.commitOk {
        return 0;
      }
      table, cancellations := session, cancellationSession;
      return block;
    }

    /**
     * Runs when the timer fires; whatever fails, the timer is then reset from the table. The row leaves iff it is still
     * reserved and every call on its way succeeds.
     */
    method TokenBoughtTimeoutHandler(env: TimeoutEnv)
      requires TableOk(table) && timerSubscription.Some?
      modifies this`table, this`timerSubscription, this`armed, this`log
      ensures if env.readOk then Exact() else timerSubscription == None && !armed
      ensures var s := old(timerSubscription).value;
              && log == old(log) + (if env.status == Some(Reserved) && env.sessionOk && env.notifyOk
                                    then [ExpiredNote(s.token, s.mint)] else [])
              && (table == old(table) || table == old(table) - {s.token})
              && (s.token in old(table) ==>
                    (s.token !in table <==>
                       && env.status == Some(Reserved) && env.sessionOk && env.notifyOk
                       && (recordExpiration ==> env.recordOk) && env.removeOk && env.commitOk))
      ensures old(armed) && env.readOk ==>
                P.After(old(Value()), ExpiryLabels(old(table), old(timerSubscription).value.token, recordExpiration, env,
                                                   timerSubscription))
                == Some(Value())
    {
      HandleTimeout(timerSubscription.value, env);
      ResetTimerFromDB(env.readOk);
      if old(armed) && env.readOk {
        ExpiryIsRun(old(Value()), Value(), recordExpiration, env);
      }
    }

    method HandleTimeout(s: Subscription, env: TimeoutEnv)
      requires TableOk(table)
      modifies this`table, this`log
      ensures TableOk(table)
      ensures table == if ExpiryCommits(old(table), s.token, recordExpiration, env) then old(table) - {s.token}
                       else old(table)
      ensures log == old(log) + if ExpiryNotified(env) then [ExpiredNote(s.token, s.mint)] else []
    {
      if env.status != Some(Reserved) || !env.sessionOk {
        return;
      }
      var session := table;
      if !env.notifyOk {
        return;
      }
      log := log + [ExpiredNote(s.token, s.mint)];
      if recordExpiration && !env.recordOk {
        return;
      }
      if !env.removeOk || s.token !in session {
        return;
      }
      session := session - {s.token};
      if !env.commitOk {
        return;
      }
      table := session;
    }

    /**
     * The loop over the stored subscriptions, each settled one notified and removed in its own transaction; `rows` is
     * None when reading them fails.
     */
    method StartupCheck(rows: Option<seq<Subscription>>, env: nat -> ScanEnv)
      returns (ok: bool, next: Option<Subscription>)
      requires TableOk(table) && (rows.Some? ==> Lists(rows.value, table))
      modifies this`table, this`log
      ensures rows.None? ==> !ok && table == old(table) && log == old(log)
      ensures rows.Some? ==>
                var end := ScanAll(Scan(old(table), old(log), None, false), rows.value, env);
                ok == !end.failed && table == end.table && log == end.log && (ok ==> next == end.best)
    {
      if rows.None? {
        return false, None;
      }
      var all := rows.value;
      ghost var start := Scan(table, log, None, false);
      next := None;
      ok := true;
      for i := 0 to |all|
        invariant ScanAll(Scan(table, log, next, false), all[i..], env) == ScanAll(start, all, env)
      {
        var s := all[i];
        assert all[i..][0] == s && all[i..][1..] == all[i + 1..];
        var e := env(s.token);
        if e.status.None? {
          return false, None;
        }
        if e.status != Some(Reserved) {
          if e.status == Some(Bought) {
            if !e.notifyOk {
              return false, None;
            }
            log := log + [BoughtNote(s.token, s.mint)];
          } else {
            log := log + [SettledSeen(s.token)];
          }
          if !e.sessionOk || !e.removeOk || s.token !in table || !e.commitOk {
            return false, None;
          }
          table := table - {s.token};
        } else {
          var nextTimeoutTime := if next.None? then MAX_TIME else next.value.timeout;
          if s.timeout < nextTimeoutTime {
            next := Some(s);
          }
        }
      }
    }

    /**
     * The scan, then the timer: exact afterwards iff no stored deadline is at the very end of time. Rows are removed
     * only when settled; the whole is the protocol's startup, which a failing call ends.
     */
    method StartTokenBoughtSubscriptions(rows: Option<seq<Subscription>>, env: nat -> ScanEnv) returns (ok: bool)
      requires TableOk(table) && (rows.Some? ==> Lists(rows.value, table))
      modifies this`table, this`log, this`timerSubscription, this`armed
      ensures ok ==> (Exact() <==> table == map[] || exists token :: token in table && table[token].timeout < MAX_TIME)
      ensures forall token | token in table :: token in old(table) && table[token] == old(table)[token]
      ensures forall token | token in old(table) && token !in table ::
                SettledBy(log, old(table)[token], env(token)) && Accounted(log, token)
      ensures ok ==> forall token | token in table :: env(token).status == Some(Reserved)
      ensures ok <==> rows.Some? && forall s | s in rows.value ::
                var e := env(s.token);
                || e.status == Some(Reserved)
                || ((e.status == Some(OtherStatus) || (e.status == Some(Bought) && e.notifyOk))
                    && e.sessionOk && e.removeOk && e.commitOk)
      ensures rows.None? ==> !ok && Value() == old(Value())
      ensures rows.Some? ==>
                && ok == !ScanAll(Scan(old(table), old(log), None, false), rows.value, env).failed
                && P.After(DownState(old(table), old(cancellations), old(log)),
                           [P.StartUp] + ScanLabels(rows.value, env))
                   == Some(if ok then Value() else DownState(table, cancellations, log))
    {
      if rows.Some? {
        ScanOutcome(table, log, rows.value, env);
        ScanSucceedsIff(table, log, rows.value, env);
        StartIsRun(table, cancellations, log, rows.value, env);
      }
      var next;
      ok, next := StartupCheck(rows, env);
      if !ok {
        return;
      }
      timerSubscription, armed := next, next.Some?;
    }

    // ---------- Cancellations ----------

    /** The protocol's step iff every call succeeds and the token is new; otherwise nothing. */
    method SubscribeCancellationEvents(token: nat, env: SubscribeEnv) returns (ok: bool)
      modifies this`cancellations
      ensures var step := P.Step(old(Value()), P.SubscribeCancellation(token));
              if step.Some? && env.sessionOk && env.addOk && env.commitOk then step == Some(Value())
              else Value() == old(Value())
      ensures ok <==> env.sessionOk && env.addOk && token !in old(cancellations) && env.commitOk
      ensures cancellations == if ok then old(cancellations) + {token} else old(cancellations)
    {
      if !env.sessionOk || !env.addOk || token in cancellations || !env.commitOk {
        return false;
      }
      cancellations := cancellations + {token};
      return true;
    }

    /** A finalized cancellation: notify, remove, commit; shared by the event handler and the startup check. */
    method Finalize(token: nat, sessionOk: bool, notifyOk: bool, removeOk: bool, commitOk: bool) returns (ok: bool)
      modifies this`cancellations, this`log
      ensures ok <==> sessionOk && notifyOk && removeOk && token in old(cancellations) && commitOk
      ensures cancellations == if ok then old(cancellations) - {token} else old(cancellations)
      ensures log == old(log) + if sessionOk && notifyOk then [ProposalNote(token, Finalized)] else []
      ensures sessionOk && token in old(cancellations) ==>
                P.After(old(Value()), FinalizeLabels(token, notifyOk, removeOk && commitOk)) == Some(Value())
    {
      if token in cancellations {
        FinalizeIsRun(Value(), token, notifyOk, removeOk && commitOk);
      }
      if !sessionOk || !notifyOk {
        return false;
      }
      log := log + [ProposalNote(token, Finalized)];
      if !removeOk || token !in cancellations || !commitOk {
        return false;
      }
      cancellations := cancellations - {token};
      return true;
    }

    /** The loop over the stored cancellation subscriptions; `rows` is None when reading them fails. */
    method CancellationStartupCheck(rows: Option<seq<nat>>, env: nat -> ProposalEnv) returns (ok: bool)
      requires rows.Some? ==> (set token | token in rows.value) == cancellations
      requires rows.Some? ==> forall i, j | 0 <= i < j < |rows.value| :: rows.value[i] != rows.value[j]
      modifies this`cancellations, this`log
      ensures rows.None? ==> !ok && Value() == old(Value())
      ensures rows.Some? ==>
                var start := Check(old(cancellations), old(log), false);
                && Check(cancellations, log, !ok) == CheckAll(start, rows.value, env)
                && (ok <==> forall token | token in rows.value ::
                      var e := env(token);
                      || e.status == Some(NoProposal)
                      || ((e.status == Some(Pending) || e.status == Some(Rejected) || e.status == Some(Withdrawn))
                          && e.reasonsOk && e.notifyOk)
                      || (e.status == Some(Finalized) && e.sessionOk && e.notifyOk && e.removeOk && e.commitOk))
                && P.After(old(Value()), CheckLabels(start, rows.value, env)) == Some(Value())
    {
      if rows.None? {
        return false;
      }
      ghost var start := Check(cancellations, log, false);
      CheckIsRun(Value(), start, rows.value, env);
      CheckSucceedsIff(start, rows.value, env);
      ok := CheckProposals(rows.value, env);
    }

    /** The loop of the startup check. */
    method CheckProposals(all: seq<nat>, env: nat -> ProposalEnv) returns (ok: bool)
      modifies this`cancellations, this`log
      ensures Check(cancellations, log, !ok) == CheckAll(Check(old(cancellations), old(log), false), all, env)
    {
      ghost var start := Check(cancellations, log, false);
      for i := 0 to |all|
        invariant CheckAll(Check(cancellations, log, false), all[i..], env) == CheckAll(start, all, env)
      {
        var token := all[i];
        assert all[i..][0] == token && all[i..][1..] == all[i + 1..];
        var e := env(token);
        if e.status.None? || e.status == Some(UnknownStatus) {
          return false;
        }
        if e.status == Some(Finalized) {
          ok := Finalize(token, e.sessionOk, e.notifyOk, e.removeOk, e.commitOk);
          if !ok {
            return;
          }
        } else if e.status != Some(NoProposal) {
          if !e.reasonsOk || !e.notifyOk {
            return false;
          }
          log := log + [ProposalNote(token, e.status.value)];
        }
      }
      return true;
    }

    method CancellationFinalizedEventHandler(token: nat, block: nat, sessionOk: bool, getOk: bool, notifyOk: bool,
                                             removeOk: bool, commitOk: bool) returns (processed: nat)
      modifies this`cancellations, this`log
      ensures var present := token in old(cancellations);
              var done := sessionOk && getOk && present && notifyOk && removeOk && commitOk;
              && cancellations == (if done then old(cancellations) - {token} else old(cancellations))
              && log == (old(log) + if sessionOk && getOk && present && notifyOk then [ProposalNote(token, Finalized)]
                                    else [])
              && processed == if done || (sessionOk && getOk && !present) then block else 0
      ensures P.After(old(Value()), if sessionOk && getOk && token in old(cancellations)
                                    then FinalizeLabels(token, notifyOk, removeOk && commitOk) else [])
              == Some(Value())
    {
      if !sessionOk || !getOk {
        return 0;
      }
      if token !in cancellations {
        return block;
      }
      var ok := Finalize(token, true, notifyOk, removeOk, commitOk);
      return if ok then block else 0;
    }
  }
}
