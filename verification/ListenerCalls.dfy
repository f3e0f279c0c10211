/**
 * The handlers of module ListenerHandlers as parts of whole runs: a process whose calls come one after another, from any
 * start and with any failures, inherits what holds of all runs, and needs no guard for it.
 */
module ListenerCalls {
  import opened Types
  import opened Subscriptions
  import opened ListenerHandlers
  import P = ListenerProtocol
  import D = ListenerDrops
  import X = ListenerExpiries

  /** The step belongs to call 0, or to none. */
  predicate OfCallZero(l: P.Label) {
    P.IsStartup(l) || l.SubscribeCancellation? || l.NotifyProposal? || l.pid == 0
  }

  predicate OneCall(labels: seq<P.Label>) {
    forall k | 0 <= k < |labels| :: OfCallZero(labels[k])
  }

  lemma Joined(a: seq<P.Label>, b: seq<P.Label>)
    requires OneCall(a) && OneCall(b)
    ensures OneCall(a + b)
  {
  }

  lemma SubscribeIsOneCall(s: Subscription, ok: bool)
    ensures OneCall(SubscribeLabels(s, ok))
  {
  }

  lemma BoughtIsOneCall(t: Table, cancellations: set<nat>, token: nat, env: BoughtEnv, next: Option<Subscription>)
    ensures OneCall(BoughtLabels(t, cancellations, token, env, next))
  {
  }

  lemma ExpiryBackIsOneCall(t: Table, token: nat, recordExpiration: bool, env: TimeoutEnv)
    ensures OneCall(ExpiryBack(t, token, recordExpiration, env))
  {
    assert OneCall(ExpiryRemoval(t, token, env));
    Joined([P.ExpiryRecord(0)], ExpiryRemoval(t, token, env));
  }

  lemma ExpiryIsOneCall(t: Table, token: nat, recordExpiration: bool, env: TimeoutEnv, next: Option<Subscription>)
    ensures OneCall(ExpiryLabels(t, token, recordExpiration, env, next))
  {
    ExpiryBackIsOneCall(t, token, recordExpiration, env);
    Joined([P.ExpiryNotify(0)], ExpiryBack(t, token, recordExpiration, env));
    assert OneCall(ExpiryMiddle(t, token, recordExpiration, env));
    Joined([P.ExpiryStatus(0, true)], ExpiryMiddle(t, token, recordExpiration, env));
    assert OneCall(ExpiryRest(t, token, recordExpiration, env));
    Joined([P.Fire(0)], ExpiryRest(t, token, recordExpiration, env));
  }

  lemma TokenIsOneCall(token: nat, env: ProposalEnv)
    ensures OneCall(TokenLabels(token, env))
  {
  }

  lemma {:induction false} ScanIsOneCall(left: seq<Subscription>, env: nat -> ScanEnv)
    ensures OneCall(ScanLabels(left, env))
  {
    if left != [] {
      ScanIsOneCall(left[1..], env);
    }
  }

  lemma {:induction false} CheckIsOneCall(st: Check, all: seq<nat>, env: nat -> ProposalEnv)
    ensures OneCall(CheckLabels(st, all, env))
    decreases |all|
  {
    if all != [] && !st.failed {
      TokenIsOneCall(all[0], env(all[0]));
      CheckIsOneCall(CheckOne(st, all[0], env(all[0])), all[1..], env);
    }
  }

  predicate AtMostCallZero(s: P.State) {
    s.procs.Keys <= {0}
  }

  lemma HandlerOfOneCall(s: P.State, l: P.Label)
    requires AtMostCallZero(s) && P.HandlerStep(s, l).Some? && l.pid == 0
    ensures AtMostCallZero(P.HandlerStep(s, l).value)
  {
  }

  lemma ExpiryOfOneCall(s: P.State, l: P.Label)
    requires AtMostCallZero(s) && P.ExpiryStep(s, l).Some? && l.pid == 0
    ensures AtMostCallZero(P.ExpiryStep(s, l).value)
  {
  }

  lemma StepOfOneCall(s: P.State, l: P.Label)
    requires AtMostCallZero(s) && OfCallZero(l) && P.Step(s, l).Some?
    ensures AtMostCallZero(P.Step(s, l).value)
  {
    if P.IsHandler(l) {
      HandlerOfOneCall(s, l);
    } else if !P.IsStartup(l) && !P.IsCancellation(l) {
      ExpiryOfOneCall(s, l);
    }
  }

  lemma {:induction false} TraceOfOneCall(s: P.State, labels: seq<P.Label>)
    requires AtMostCallZero(s) && OneCall(labels) && P.After(s, labels).Some?
    ensures AtMostCallZero(P.After(s, labels).value)
    ensures forall k | 0 <= k < |labels| :: AtMostCallZero(P.Trace(s, labels)[k])
  {
    if labels != [] {
      var front := labels[..|labels| - 1];
      TraceOfOneCall(s, front);
      StepOfOneCall(P.After(s, front).value, labels[|labels| - 1]);
    }
  }

  /** A call taken from the end of a serial run makes a longer serial run. */
  lemma CallExtendsRun(states: seq<P.State>, labels: seq<P.Label>, call: seq<P.Label>)
    requires P.IsRun(states, labels) && X.Serial(states) && AtMostCallZero(states[|labels|])
    requires OneCall(call) && P.After(states[|labels|], call).Some?
    ensures var states' := states + P.Trace(states[|labels|], call);
            && P.IsRun(states', labels + call) && X.Serial(states')
            && states'[|labels + call|] == P.After(states[|labels|], call).value
  {
    var s := states[|labels|];
    var states' := states + P.Trace(s, call);
    P.AfterExtendsRun(states, labels, call);
    TraceOfOneCall(s, call);
    assert states'[|labels + call|] == ([s] + P.Trace(s, call))[|call|];
    forall k | 0 <= k < |states'|
      ensures X.OneAtATime(states'[k])
    {
      if k < |states| {
        assert X.OneAtATime(states[k]);
      } else {
        assert AtMostCallZero(P.Trace(s, call)[k - |states|]);
      }
    }
  }

  /**
   * A handler inherits the theorems about runs. When a process whose calls have come one after another takes one more and
   * is idle again, its armed timer is no later than any deadline stored, and each row ever stored that is not stored any
   * more was announced as bought, seen settled, or has properly expired.
   */
  lemma CallInherits(states: seq<P.State>, labels: seq<P.Label>, call: seq<P.Label>, s': P.State)
    requires P.IsRun(states, labels) && X.Serial(states) && AtMostCallZero(states[|labels|])
    requires OneCall(call) && P.After(states[|labels|], call) == Some(s')
    ensures Idle(s') ==> forall token | token in s'.table && s'.table[token].timeout < MAX_TIME ::
                           P.TimerCovers(s', s'.table[token])
    ensures var states' := states + P.Trace(states[|labels|], call);
            && P.IsRun(states', labels + call) && X.Serial(states') && X.ProperDrops(states', labels + call)
            && forall i, token | 0 <= i < |states'| && token in states'[i].table && token !in s'.table ::
                 exists j :: i <= j < |labels + call| && X.Leaves(states', j, token)
                             && X.Proper(states', labels + call, j, token)
  {
    CallExtendsRun(states, labels, call);
    var states', labels' := states + P.Trace(states[|labels|], call), labels + call;
    X.SerialRunsGuarded(states', labels');
    X.GuardedDropsProper(states', labels');
    P.RunKeepsCoverage(states', labels', |labels'|);
    forall i: nat, token | i < |states'| && token in states'[i].table && token !in s'.table
      ensures exists j :: i <= j < |labels'| && X.Leaves(states', j, token) && X.Proper(states', labels', j, token)
    {
      X.NothingLost(states', labels', i, |labels'|, token);
    }
  }
}
