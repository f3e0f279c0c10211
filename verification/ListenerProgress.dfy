/**
 * What can happen from any state that a run of the listener reaches, however many other calls are in progress: a call
 * that begins can go through all its steps, none of which another call can disable by just being there, and after a
 * crash the startup scan can run over whatever tables are left.
 */
module ListenerProgress {
  import opened Types
  import opened Subscriptions
  import opened ListenerHandlers
  import P = ListenerProtocol

  /** The state with call `pid` at `p` beside the calls that are there. */
  ghost function Beside(s: P.State, pid: nat, p: P.Proc): P.State {
    s.(procs := s.procs[pid := p])
  }

  lemma MovesBeside(s: P.State, pid: nat, p: P.Proc, q: P.Proc)
    requires pid !in s.procs
    ensures P.Move(Beside(s, pid, p), pid, q) == Beside(s, pid, q)
    ensures P.Finish(Beside(s, pid, p), pid) == s
  {
    assert s.procs[pid := p][pid := q] == s.procs[pid := q];
    assert s.procs[pid := p] - {pid} == s.procs;
  }

  lemma Pick(t: Table) returns (next: Option<Subscription>)
    requires TableOk(t)
    ensures P.MayPick(t, next)
  {
    if t == map[] {
      next := None;
    } else {
      MinExists(t);
      var sub :| IsMin(t, sub);
      next := Some(sub);
    }
  }

  // ---------- A purchase ----------

  lemma BoughtSteps(s: P.State, pid: nat, token: nat, cancellable: bool)
    requires s.mode.Up? && pid !in s.procs && token in s.table && (cancellable ==> token !in s.cancellations)
    ensures var noted := s.(log := s.log + [BoughtNote(token, s.table[token].mint)]);
            && P.Step(s, P.BoughtBegin(pid, token)) == Some(Beside(s, pid, P.BoughtStarted(token)))
            && P.Step(Beside(s, pid, P.BoughtStarted(token)), P.BoughtNotify(pid))
               == Some(Beside(noted, pid, P.BoughtNotified(token)))
            && P.Step(Beside(noted, pid, P.BoughtNotified(token)), P.BoughtCommit(pid, cancellable))
               == Some(Beside(noted.(table := s.table - {token},
                                     cancellations := s.cancellations + if cancellable then {token} else {}),
                              pid, P.BoughtEnding(token)))
  {
    MovesBeside(s, pid, P.BoughtStarted(token), P.BoughtNotified(token));
    MovesBeside(s, pid, P.BoughtNotified(token), P.BoughtEnding(token));
  }

  lemma BoughtResetStep(s: P.State, pid: nat, token: nat, next: Option<Subscription>)
    requires s.mode.Up? && pid !in s.procs && P.MayPick(s.table, next)
    ensures P.Step(Beside(s, pid, P.BoughtEnding(token)), P.BoughtReset(pid, next))
            == Some(P.ResetIfMatch(s, token, next))
  {
    MovesBeside(P.ResetIfMatch(s, token, next), pid, P.BoughtEnding(token), P.BoughtEnding(token));
  }

  /** A stored token that is bought can be announced and settled at once, and the timer then guards what is left. */
  lemma PurchasePossible(states: seq<P.State>, labels: seq<P.Label>, k: nat, pid: nat, token: nat, cancellable: bool)
    returns (next: Option<Subscription>)
    requires P.IsRun(states, labels) && k < |states| && states[k].mode.Up? && pid !in states[k].procs
    requires token in states[k].table && (cancellable ==> token !in states[k].cancellations)
    ensures var s := states[k];
            P.After(s, [P.BoughtBegin(pid, token)]
                       + ([P.BoughtNotify(pid)] + ([P.BoughtCommit(pid, cancellable)] + [P.BoughtReset(pid, next)])))
            == Some(P.ResetIfMatch(s.(log := s.log + [BoughtNote(token, s.table[token].mint)],
                                      table := s.table - {token},
                                      cancellations := s.cancellations + if cancellable then {token} else {}),
                                   token, next))
    ensures P.MayPick(states[k].table - {token}, next)
  {
    var s := states[k];
    P.RunKeepsCoverage(states, labels, k);
    next := Pick(s.table - {token});
    var noted := s.(log := s.log + [BoughtNote(token, s.table[token].mint)]);
    var settled := noted.(table := s.table - {token},
                          cancellations := s.cancellations + if cancellable then {token} else {});
    BoughtSteps(s, pid, token, cancellable);
    BoughtResetStep(settled, pid, token, next);
    var reset := [P.BoughtReset(pid, next)];
    var commit := [P.BoughtCommit(pid, cancellable)] + reset;
    StepThen(s, P.BoughtBegin(pid, token), [P.BoughtNotify(pid)] + commit);
    StepThen(Beside(s, pid, P.BoughtStarted(token)), P.BoughtNotify(pid), commit);
    StepThen(Beside(noted, pid, P.BoughtNotified(token)), P.BoughtCommit(pid, cancellable), reset);
    SingleStep(Beside(settled, pid, P.BoughtEnding(token)), P.BoughtReset(pid, next));
  }

  // ---------- An expiry ----------

  lemma AnnounceSteps(s: P.State, pid: nat, t: nat)
    requires s.mode.Up? && pid !in s.procs && s.timer.Some? && s.timer.value.token == t
    ensures P.Step(Beside(s, pid, P.Expiring(P.Fired(t))), P.ExpiryStatus(pid, true))
            == Some(Beside(s, pid, P.Expiring(P.Checked(t, t))))
    ensures P.Step(Beside(s, pid, P.Expiring(P.Checked(t, t))), P.ExpiryNotify(pid))
            == Some(Beside(s.(log := s.log + [ExpiredNote(t, s.timer.value.mint)]), pid,
                           P.Expiring(P.Notified(t, t, t))))
  {
    MovesBeside(s, pid, P.Expiring(P.Fired(t)), P.Expiring(P.Checked(t, t)));
    MovesBeside(s, pid, P.Expiring(P.Checked(t, t)), P.Expiring(P.Notified(t, t, t)));
  }

  lemma RemoveSteps(s: P.State, pid: nat, t: nat)
    requires s.mode.Up? && pid !in s.procs && s.timer.Some? && s.timer.value.token == t && t in s.table
    ensures P.Step(Beside(s, pid, P.Expiring(P.Notified(t, t, t))), P.ExpiryRemove(pid))
            == Some(Beside(s, pid, P.Expiring(P.Removing(t, t, t, t))))
    ensures P.Step(Beside(s, pid, P.Expiring(P.Removing(t, t, t, t))), P.ExpiryCommit(pid))
            == Some(Beside(s.(table := s.table - {t}), pid, P.Expiring(P.Ending)))
  {
    MovesBeside(s, pid, P.Expiring(P.Notified(t, t, t)), P.Expiring(P.Removing(t, t, t, t)));
    MovesBeside(s, pid, P.Expiring(P.Removing(t, t, t, t)), P.Expiring(P.Ending));
  }

  lemma ExpiryResetStep(s: P.State, pid: nat, next: Option<Subscription>)
    requires s.mode.Up? && pid !in s.procs && P.MayPick(s.table, next)
    ensures P.Step(Beside(s, pid, P.Expiring(P.Ending)), P.ExpiryReset(pid, next)) == Some(P.ResetFromDB(s, next))
  {
    MovesBeside(P.ResetFromDB(s, next), pid, P.Expiring(P.Ending), P.Expiring(P.Ending));
  }

  /** What follows the announcement. */
  function Removal(pid: nat, next: Option<Subscription>): seq<P.Label> {
    [P.ExpiryRemove(pid)] + ([P.ExpiryCommit(pid)] + [P.ExpiryReset(pid, next)])
  }

  lemma RemovalPossible(s: P.State, pid: nat, t: nat, next: Option<Subscription>)
    requires s.mode.Up? && pid !in s.procs && s.timer.Some? && s.timer.value.token == t && t in s.table
    requires P.MayPick(s.table - {t}, next)
    ensures P.After(Beside(s, pid, P.Expiring(P.Notified(t, t, t))), Removal(pid, next))
            == Some(P.ResetFromDB(s.(table := s.table - {t}), next))
  {
    RemoveSteps(s, pid, t);
    ExpiryResetStep(s.(table := s.table - {t}), pid, next);
    var reset := [P.ExpiryReset(pid, next)];
    StepThen(Beside(s, pid, P.Expiring(P.Notified(t, t, t))), P.ExpiryRemove(pid), [P.ExpiryCommit(pid)] + reset);
    StepThen(Beside(s, pid, P.Expiring(P.Removing(t, t, t, t))), P.ExpiryCommit(pid), reset);
    SingleStep(Beside(s.(table := s.table - {t}), pid, P.Expiring(P.Ending)), P.ExpiryReset(pid, next));
  }

  /**
   * A deadline that the armed timer guards can be met at once: the timer fires, and the row, if it is still reserved, is
   * announced as expired and deleted, and the timer then guards what is left.
   */
  lemma ExpiryPossible(states: seq<P.State>, labels: seq<P.Label>, k: nat, pid: nat) returns (next: Option<Subscription>)
    requires P.IsRun(states, labels) && k < |states| && states[k].mode.Up? && pid !in states[k].procs
    requires states[k].armed
    ensures states[k].timer.Some?
    ensures var s, sub := states[k], states[k].timer.value;
            sub.token in s.table ==>
              && P.After(s, [P.Fire(pid)] + ([P.ExpiryStatus(pid, true)] + ([P.ExpiryNotify(pid)] + Removal(pid, next))))
                 == Some(P.ResetFromDB(s.(log := s.log + [ExpiredNote(sub.token, sub.mint)],
                                          table := s.table - {sub.token}), next))
              && P.MayPick(s.table - {sub.token}, next)
  {
    var s := states[k];
    P.RunKeepsCoverage(states, labels, k);
    var t := s.timer.value.token;
    next := Pick(s.table - {t});
    if t in s.table {
      var fired := s.(armed := false);
      var noted := fired.(log := s.log + [ExpiredNote(t, s.timer.value.mint)]);
      assert P.Step(s, P.Fire(pid)) == Some(Beside(fired, pid, P.Expiring(P.Fired(t))));
      AnnounceSteps(fired, pid, t);
      RemovalPossible(noted, pid, t, next);
      var notify := [P.ExpiryNotify(pid)] + Removal(pid, next);
      StepThen(s, P.Fire(pid), [P.ExpiryStatus(pid, true)] + notify);
      StepThen(Beside(fired, pid, P.Expiring(P.Fired(t))), P.ExpiryStatus(pid, true), notify);
      StepThen(Beside(fired, pid, P.Expiring(P.Checked(t, t))), P.ExpiryNotify(pid), Removal(pid, next));
    }
  }

  // ---------- Subscriptions and cancellations ----------

  /** A token that is not stored can be subscribed to at once, and the timer takes it into account. */
  lemma SubscribePossible(s: P.State, pid: nat, sub: Subscription)
    requires s.mode.Up? && pid !in s.procs && sub.token !in s.table
    ensures P.After(s, [P.SubscribeCommit(pid, sub)] + [P.SubscribeReset(pid)])
            == Some(P.ResetIfAfter(s.(table := s.table[sub.token := sub]), sub))
  {
    var stored := s.(table := s.table[sub.token := sub]);
    MovesBeside(s, pid, P.Subscribing(sub), P.Subscribing(sub));
    MovesBeside(P.ResetIfAfter(stored, sub), pid, P.Subscribing(sub), P.Subscribing(sub));
    StepThen(s, P.SubscribeCommit(pid, sub), [P.SubscribeReset(pid)]);
    SingleStep(Beside(stored, pid, P.Subscribing(sub)), P.SubscribeReset(pid));
  }

  /** A stored cancellation that is finalized can be announced and removed at once. */
  lemma FinalizePossible(s: P.State, pid: nat, token: nat)
    requires s.mode.Up? && pid !in s.procs && token in s.cancellations
    ensures P.After(s, [P.FinalizeBegin(pid, token)] + ([P.FinalizeNotify(pid)] + [P.FinalizeCommit(pid)]))
            == Some(s.(cancellations := s.cancellations - {token}, log := s.log + [ProposalNote(token, Finalized)]))
  {
    FinalizeSteps(s, pid, token);
    StepThen(s, P.FinalizeBegin(pid, token), [P.FinalizeNotify(pid)] + [P.FinalizeCommit(pid)]);
    StepThen(Beside(s, pid, P.Finalizing(token, false)), P.FinalizeNotify(pid), [P.FinalizeCommit(pid)]);
    SingleStep(Beside(s.(log := s.log + [ProposalNote(token, Finalized)]), pid, P.Finalizing(token, true)),
               P.FinalizeCommit(pid));
  }

  lemma FinalizeSteps(s: P.State, pid: nat, token: nat)
    requires s.mode.Up? && pid !in s.procs && token in s.cancellations
    ensures var noted := s.(log := s.log + [ProposalNote(token, Finalized)]);
            && P.Step(s, P.FinalizeBegin(pid, token)) == Some(Beside(s, pid, P.Finalizing(token, false)))
            && P.Step(Beside(s, pid, P.Finalizing(token, false)), P.FinalizeNotify(pid))
               == Some(Beside(noted, pid, P.Finalizing(token, true)))
            && P.Step(Beside(noted, pid, P.Finalizing(token, true)), P.FinalizeCommit(pid))
               == Some(noted.(cancellations := s.cancellations - {token}))
  {
    MovesBeside(s, pid, P.Finalizing(token, false), P.Finalizing(token, true));
    MovesBeside(s, pid, P.Finalizing(token, true), P.Finalizing(token, true));
  }

  // ---------- What cannot happen ----------

  /**
   * A timer that was stopped does not fire. Storage refuses to insert a token that is there and to remove one that is
   * not, and nothing is removed that its handler has not announced before.
   */
  lemma StepsRefused(s: P.State, pid: nat)
    ensures P.Step(s, P.Fire(pid)).Some? ==> s.mode.Up? && s.armed && pid !in s.procs
    ensures forall sub: Subscription | sub.token in s.table :: P.Step(s, P.SubscribeCommit(pid, sub)).None?
    ensures forall token | token in s.cancellations :: P.Step(s, P.SubscribeCancellation(token)).None?
    ensures forall cancellable | P.Step(s, P.BoughtCommit(pid, cancellable)).Some? ::
              && P.Running(s, pid) && s.procs[pid].BoughtNotified? && s.procs[pid].token in s.table
              && (cancellable ==> s.procs[pid].token !in s.cancellations)
    ensures P.Step(s, P.ExpiryCommit(pid)).Some? ==>
              P.ExpiringProc(s, pid) && s.procs[pid].at.Removing? && s.procs[pid].at.removed in s.table
    ensures P.Step(s, P.FinalizeCommit(pid)).Some? ==>
              && P.Running(s, pid) && s.procs[pid].Finalizing? && s.procs[pid].notified
              && s.procs[pid].token in s.cancellations
  {
  }

  // ---------- Failure ----------

  /** Any call may fail at any of its stages before the last, and then goes on to its timer reset, or is done. */
  lemma FailurePossible(s: P.State, pid: nat)
    requires s.mode.Up? && pid in s.procs
    ensures s.procs[pid].BoughtStarted? || s.procs[pid].BoughtNotified? ==>
              P.Step(s, P.BoughtGiveUp(pid)) == Some(P.Move(s, pid, P.BoughtEnding(s.procs[pid].token)))
    ensures s.procs[pid].Expiring? ==> P.Step(s, P.ExpiryGiveUp(pid)) == Some(P.Move(s, pid, P.Expiring(P.Ending)))
    ensures s.procs[pid].Finalizing? ==> P.Step(s, P.FinalizeGiveUp(pid)) == Some(P.Finish(s, pid))
  {
  }

  /** A timeout handler that finds the timer field nil panics, and the tables and the notes are all that is left. */
  lemma NilFieldEndsProcess(s: P.State, pid: nat)
    requires s.mode.Up? && pid in s.procs && s.procs[pid].Expiring? && s.timer.None?
    ensures var down := DownState(s.table, s.cancellations, s.log);
            match s.procs[pid].at
            case Fired(_) => P.Step(s, P.ExpiryStatus(pid, true)) == P.Step(s, P.ExpiryStatus(pid, false)) == Some(down)
            case Checked(_, _) => P.Step(s, P.ExpiryNotify(pid)) == Some(down)
            case Notified(_, _, _) => P.Step(s, P.ExpiryRecord(pid)) == P.Step(s, P.ExpiryRemove(pid)) == Some(down)
            case _ => true
  {
  }

  // ---------- Crash and recovery ----------

  lemma CrashAndScan(states: seq<P.State>, labels: seq<P.Label>, k: nat, all: seq<Subscription>, env: nat -> ScanEnv)
    requires P.IsRun(states, labels) && k < |states| && Lists(all, states[k].table)
    ensures TableOk(states[k].table)
    ensures var s := states[k];
            P.After(s, [P.Crash] + ([P.StartUp] + ScanLabels(all, env)))
            == Some(ScannedState(ScanAll(Scan(s.table, s.log, None, false), all, env), s.cancellations))
  {
    var s := states[k];
    P.RunKeepsCoverage(states, labels, k);
    StepThen(s, P.Crash, [P.StartUp] + ScanLabels(all, env));
    assert P.Step(s, P.Crash) == Some(DownState(s.table, s.cancellations, s.log));
    StartIsRun(s.table, s.cancellations, s.log, all, env);
  }

  /**
   * At any moment of a run the process may crash, whatever calls are in progress, and the next one scans the rows as they
   * were last committed. If no row fails it ends idle, with just the reserved rows and a sound timer, and every row that
   * it removed is accounted for.
   */
  lemma RecoveryPossible(states: seq<P.State>, labels: seq<P.Label>, k: nat, all: seq<Subscription>,
                         env: nat -> ScanEnv)
    requires P.IsRun(states, labels) && k < |states| && Lists(all, states[k].table)
    ensures var s := states[k];
            var end := P.After(s, [P.Crash] + ([P.StartUp] + ScanLabels(all, env)));
            && end.Some? && end.value.cancellations == s.cancellations
            && (end.value.mode.Up? <==> forall sub | sub in all :: RowDone(env(sub.token)))
            && (forall token | token in end.value.table :: token in s.table && end.value.table[token] == s.table[token])
            && (forall token | token in s.table && token !in end.value.table :: Accounted(end.value.log, token))
            && (end.value.mode.Up? ==>
                  && Idle(end.value)
                  && (forall token | token in end.value.table :: env(token).status == Some(Reserved))
                  && (Exact(end.value.table, end.value.timer, end.value.armed) <==>
                        end.value.table == map[]
                        || exists token :: token in end.value.table && end.value.table[token].timeout < MAX_TIME))
  {
    CrashAndScan(states, labels, k, all, env);
    ScanOutcome(states[k].table, states[k].log, all, env);
    ScanSucceedsIff(states[k].table, states[k].log, all, env);
  }
}
