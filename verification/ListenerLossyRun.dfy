/**
 * Runs of the reservation listener in which a row is lost, or expires before its time: the timeout handler reads the
 * shared timer field (internal/eventlistener/subscription_token_bought.go) again after another handler has moved it on.
 * Token 1 is bought just as it expires, and the purchase falls between two of the reads.
 */
module ListenerLossyRun {
  import opened Types
  import opened Subscriptions
  import opened ListenerProtocol
  import opened ListenerDrops
  import opened ListenerExpiries

  const A := Subscription(1, "a", 10)
  const B := Subscription(2, "b", 20)

  const S0 := State(Down, map[1 := A, 2 := B], {}, None, false, map[], [])
  const S1 := S0.(mode := Scanning({A, B}, None, None))
  const S2 := S1.(mode := Scanning({A, B} - {A}, None, Some(A)))
  const S3 := S2.(mode := Scanning({A, B} - {A} - {B}, None, Some(A)))
  const S4 := S3.(mode := Up, timer := Some(A), armed := true)

  /** A timeout handler is at work, the timer names `timer`, and these rows and notes are there. */
  function Handling(at: Expiry, table: Table, timer: Subscription, armed: bool, log: seq<Note>): State {
    State(Up, table, {}, Some(timer), armed, map[0 := Expiring(at)], log)
  }

  /** Before the purchase of token 1, and after it. */
  function Before(at: Expiry, log: seq<Note>): State {
    Handling(at, map[1 := A, 2 := B], A, false, log)
  }

  function Behind(at: Expiry, log: seq<Note>): State {
    Handling(at, map[2 := B], B, true, log)
  }

  /** Which of the guards have held so far. */
  datatype Guards = Guards(status: bool, notify: bool, remove: bool)

  ghost predicate Run(states: seq<State>, labels: seq<Label>, last: State, g: Guards) {
    && IsRun(states, labels) && states[0] == S0 && states[|labels|] == last
    && g == Guards(StatusGuarded(states, labels), NotifyGuarded(states, labels), RemoveGuarded(states, labels))
  }

  lemma GuardsExtend(states: seq<State>, labels: seq<Label>, l: Label, next: State)
    requires |states| == |labels| + 1
    ensures var states', labels', last := states + [next], labels + [l], states[|labels|];
            && (StatusGuarded(states', labels') <==> StatusGuarded(states, labels) && StatusGuard(last, l))
            && (NotifyGuarded(states', labels') <==> NotifyGuarded(states, labels) && NotifyGuard(last, l))
            && (RemoveGuarded(states', labels') <==> RemoveGuarded(states, labels) && RemoveGuard(last, l))
  {
    var states', labels', last := states + [next], labels + [l], states[|labels|];
    assert states'[|labels|] == last && labels'[|labels|] == l;
    assert forall k | 0 <= k < |labels| :: states'[k] == states[k] && labels'[k] == labels[k];
  }

  lemma Extend(states: seq<State>, labels: seq<Label>, last: State, g: Guards, l: Label, next: State)
    returns (states': seq<State>, labels': seq<Label>)
    requires Run(states, labels, last, g) && Step(last, l) == Some(next)
    ensures states' == states + [next] && labels' == labels + [l]
    ensures Run(states', labels', next, Guards(g.status && StatusGuard(last, l), g.notify && NotifyGuard(last, l),
                                               g.remove && RemoveGuard(last, l)))
  {
    states', labels' := states + [next], labels + [l];
    GuardsExtend(states, labels, l, next);
    forall k | 0 <= k < |labels'|
      ensures Step(states'[k], labels'[k]) == Some(states'[k + 1])
    {
      if k < |labels| {
        assert Step(states[k], labels[k]) == Some(states[k + 1]);
      }
    }
  }

  // ---------- The pieces of the runs ----------

  lemma ScanSteps()
    ensures Step(S0, StartUp) == Some(S1)
    ensures Step(S1, ScanReserved(A)) == Some(S2)
    ensures Step(S2, ScanReserved(B)) == Some(S3)
    ensures Step(S3, ScanDone) == Some(S4)
  {
    assert S0.table[1] == A && S0.table[2] == B;
    assert (set token | token in S0.table :: S0.table[token]) == {A, B};
  }

  lemma FireStep()
    ensures Step(S4, Fire(0)) == Some(Before(Fired(1), []))
  {
    assert map[][0 := Expiring(Fired(1))] == map[0 := Expiring(Fired(1))];
  }

  /** The timer, armed for token 1, fires. */
  lemma FiredRun() returns (states: seq<State>, labels: seq<Label>)
    ensures Run(states, labels, Before(Fired(1), []), Guards(true, true, true))
  {
    ScanSteps();
    FireStep();
    var g := Guards(true, true, true);
    states, labels := [S0], [];
    states, labels := Extend(states, labels, S0, g, StartUp, S1);
    states, labels := Extend(states, labels, S1, g, ScanReserved(A), S2);
    states, labels := Extend(states, labels, S2, g, ScanReserved(B), S3);
    states, labels := Extend(states, labels, S3, g, ScanDone, S4);
    states, labels := Extend(states, labels, S4, g, Fire(0), Before(Fired(1), []));
  }

  /** A handler's next stage replaces the one it is in. */
  lemma Advances(s: State, a: Expiry, b: Expiry)
    requires s.procs == map[0 := Expiring(a)]
    ensures Move(s, 0, Expiring(b)).procs == map[0 := Expiring(b)]
  {
  }

  lemma StatusStep(s: State, due: nat)
    requires s.mode.Up? && s.timer.Some? && s.procs == map[0 := Expiring(Fired(due))]
    ensures Step(s, ExpiryStatus(0, true)) == Some(s.(procs := map[0 := Expiring(Checked(due, s.timer.value.token))]))
  {
    Advances(s, Fired(due), Checked(due, s.timer.value.token));
  }

  lemma NotifyStep(s: State, due: nat, seen: nat)
    requires s.mode.Up? && s.timer.Some? && s.procs == map[0 := Expiring(Checked(due, seen))]
    ensures var sub := s.timer.value;
            Step(s, ExpiryNotify(0)) == Some(s.(procs := map[0 := Expiring(Notified(due, seen, sub.token))],
                                                log := s.log + [ExpiredNote(sub.token, sub.mint)]))
  {
    Advances(s, Checked(due, seen), Notified(due, seen, s.timer.value.token));
  }

  lemma RemoveStep(s: State, due: nat, seen: nat, noted: nat)
    requires s.mode.Up? && s.timer.Some? && s.procs == map[0 := Expiring(Notified(due, seen, noted))]
    requires s.timer.value.token in s.table
    ensures Step(s, ExpiryRemove(0)) ==
            Some(s.(procs := map[0 := Expiring(Removing(due, seen, noted, s.timer.value.token))]))
  {
    Advances(s, Notified(due, seen, noted), Removing(due, seen, noted, s.timer.value.token));
  }

  lemma CommitStep(s: State, at: Expiry)
    requires s.mode.Up? && at.Removing? && at.removed in s.table && s.procs == map[0 := Expiring(at)]
    ensures Step(s, ExpiryCommit(0)) == Some(s.(procs := map[0 := Expiring(Ending)], table := s.table - {at.removed}))
  {
    Advances(s, at, Ending);
  }

  /** The bought-event handler of token 1, beside a timeout handler that stays where it is. */
  function Buying(at: Expiry, p: Proc, log: seq<Note>): State {
    Before(at, log).(procs := map[0 := Expiring(at), 1 := p])
  }

  lemma BuyingSteps(at: Expiry, log: seq<Note>)
    ensures var log' := log + [BoughtNote(1, "a")];
            && Step(Before(at, log), BoughtBegin(1, 1)) == Some(Buying(at, BoughtStarted(1), log))
            && Step(Buying(at, BoughtStarted(1), log), BoughtNotify(1)) == Some(Buying(at, BoughtNotified(1), log'))
  {
    assert map[1 := A, 2 := B][1] == A;
    assert map[0 := Expiring(at)][1 := BoughtStarted(1)] == map[0 := Expiring(at), 1 := BoughtStarted(1)];
    assert map[0 := Expiring(at), 1 := BoughtStarted(1)][1 := BoughtNotified(1)]
           == map[0 := Expiring(at), 1 := BoughtNotified(1)];
  }

  lemma BuyingCommit(at: Expiry, log: seq<Note>)
    ensures Step(Buying(at, BoughtNotified(1), log), BoughtCommit(1, false)) ==
            Some(Buying(at, BoughtEnding(1), log).(table := map[2 := B]))
  {
    assert map[1 := A, 2 := B] - {1} == map[2 := B];
    assert Buying(at, BoughtNotified(1), log).cancellations + {} == {};
    assert map[0 := Expiring(at), 1 := BoughtNotified(1)][1 := BoughtEnding(1)]
           == map[0 := Expiring(at), 1 := BoughtEnding(1)];
  }

  lemma BuyingReset(at: Expiry, log: seq<Note>)
    ensures Step(Buying(at, BoughtEnding(1), log).(table := map[2 := B]), BoughtReset(1, Some(B))) ==
            Some(Behind(at, log))
  {
    assert IsMin(map[2 := B], B);
    assert map[0 := Expiring(at), 1 := BoughtEnding(1)] - {1} == map[0 := Expiring(at)];
  }

  /** Token 1 is bought, and the timer moves on to token 2. */
  lemma PurchaseRun(states: seq<State>, labels: seq<Label>, at: Expiry, log: seq<Note>, g: Guards)
    returns (states': seq<State>, labels': seq<Label>)
    requires Run(states, labels, Before(at, log), g)
    ensures Run(states', labels', Behind(at, log + [BoughtNote(1, "a")]), g)
  {
    var log' := log + [BoughtNote(1, "a")];
    BuyingSteps(at, log);
    BuyingCommit(at, log');
    BuyingReset(at, log');
    states', labels' := Extend(states, labels, Before(at, log), g, BoughtBegin(1, 1), Buying(at, BoughtStarted(1), log));
    states', labels' := Extend(states', labels', Buying(at, BoughtStarted(1), log), g, BoughtNotify(1),
                               Buying(at, BoughtNotified(1), log'));
    states', labels' := Extend(states', labels', Buying(at, BoughtNotified(1), log'), g, BoughtCommit(1, false),
                               Buying(at, BoughtEnding(1), log').(table := map[2 := B]));
    states', labels' := Extend(states', labels', Buying(at, BoughtEnding(1), log').(table := map[2 := B]), g,
                               BoughtReset(1, Some(B)), Behind(at, log'));
  }

  lemma DeletionSteps(due: nat, seen: nat, noted: nat, log: seq<Note>)
    ensures Step(Behind(Notified(due, seen, noted), log), ExpiryRemove(0)) ==
            Some(Behind(Removing(due, seen, noted, 2), log))
    ensures Step(Behind(Removing(due, seen, noted, 2), log), ExpiryCommit(0)) ==
            Some(Behind(Ending, log).(table := map[]))
  {
    RemoveStep(Behind(Notified(due, seen, noted), log), due, seen, noted);
    CommitStep(Behind(Removing(due, seen, noted, 2), log), Removing(due, seen, noted, 2));
    assert map[2 := B] - {2} == map[];
  }

  lemma DeletionGuards(due: nat, seen: nat, noted: nat, log: seq<Note>)
    ensures var s, l := Behind(Notified(due, seen, noted), log), ExpiryRemove(0);
            StatusGuard(s, l) && NotifyGuard(s, l) && (RemoveGuard(s, l) <==> noted == 2)
    ensures var s, l := Behind(Removing(due, seen, noted, 2), log), ExpiryCommit(0);
            StatusGuard(s, l) && NotifyGuard(s, l) && RemoveGuard(s, l)
  {
  }

  /** The handler deletes token 2, of which it has not always been in charge. */
  lemma DeletionRun(states: seq<State>, labels: seq<Label>, due: nat, seen: nat, noted: nat, log: seq<Note>, g: Guards)
    returns (states': seq<State>, labels': seq<Label>)
    requires Run(states, labels, Behind(Notified(due, seen, noted), log), g) && due != 2
    ensures Run(states', labels', Behind(Ending, log).(table := map[]), g.(remove := g.remove && noted == 2))
    ensures !ProperDrops(states', labels')
  {
    var notified, at := Notified(due, seen, noted), Removing(due, seen, noted, 2);
    DeletionSteps(due, seen, noted, log);
    DeletionGuards(due, seen, noted, log);
    states', labels' := Extend(states, labels, Behind(notified, log), g, ExpiryRemove(0), Behind(at, log));
    var k := |labels'|;
    states', labels' := Extend(states', labels', Behind(at, log), g.(remove := g.remove && noted == 2), ExpiryCommit(0),
                               Behind(Ending, log).(table := map[]));
    CommittedImproperly(states', labels', k);
  }

  lemma CommittedImproperly(states: seq<State>, labels: seq<Label>, k: nat)
    requires IsRun(states, labels) && k + 1 == |labels| && labels[k] == ExpiryCommit(0)
    requires ExpiringProc(states[k], 0) && states[k].procs[0].at.Removing?
             && states[k].procs[0].at.due != states[k].procs[0].at.removed
    ensures !ProperDrops(states, labels)
  {
    assert !CommitGuard(states[k], labels[k]);
    ProperDropsIff(states, labels);
  }

  // ---------- The runs ----------

  /** Started with the rows A and B, the run ends without the row B, which left without proper cause. */
  ghost predicate Loses(states: seq<State>, labels: seq<Label>) {
    && IsRun(states, labels) && states[0].table == map[1 := A, 2 := B]
    && 2 !in states[|labels|].table && !ProperDrops(states, labels)
  }

  /**
   * The purchase falls between the announcement and the deletion: token 1 is announced as expired, token 2 is deleted,
   * and nobody is ever told of it. Only the guard at the deletion fails.
   */
  lemma SilentDropRun()
    ensures exists states: seq<State>, labels: seq<Label> ::
              && Loses(states, labels) && !Accounted(states[|labels|].log, 2) && !NoSilent(states)
              && StatusGuarded(states, labels) && NotifyGuarded(states, labels) && !RemoveGuarded(states, labels)
  {
    var g := Guards(true, true, true);
    var states, labels := FiredRun();
    StatusStep(Before(Fired(1), []), 1);
    states, labels := Extend(states, labels, Before(Fired(1), []), g, ExpiryStatus(0, true), Before(Checked(1, 1), []));
    NotifyStep(Before(Checked(1, 1), []), 1, 1);
    var log := [ExpiredNote(1, "a")];
    assert [] + log == log;
    states, labels := Extend(states, labels, Before(Checked(1, 1), []), g, ExpiryNotify(0),
                             Before(Notified(1, 1, 1), log));
    states, labels := PurchaseRun(states, labels, Notified(1, 1, 1), log, g);
    states, labels := DeletionRun(states, labels, 1, 1, 1, log + [BoughtNote(1, "a")], g);
    UnaccountedLoss(states, labels);
    assert Loses(states, labels);
  }

  lemma UnaccountedLoss(states: seq<State>, labels: seq<Label>)
    requires IsRun(states, labels) && 2 in states[0].table && 2 !in states[|labels|].table
    requires states[|labels|].log == [ExpiredNote(1, "a"), BoughtNote(1, "a")]
    ensures !Accounted(states[|labels|].log, 2) && !NoSilent(states)
  {
    if NoSilent(states) {
      SilentlyAccounted(states, labels, |labels|, 2);
    }
  }

  /** In a run that drops nothing silently, what has left the table is accounted for. */
  lemma {:induction false} SilentlyAccounted(states: seq<State>, labels: seq<Label>, k: nat, token: nat)
    requires IsRun(states, labels) && NoSilent(states) && k < |states|
    requires token in states[0].table && token !in states[k].table
    ensures Accounted(states[k].log, token)
  {
    if token !in states[k - 1].table {
      SilentlyAccounted(states, labels, k - 1, token);
    } else {
      assert token in states[k - 1].table && token !in states[k - 1 + 1].table;
    }
    RunKeepsDropInvariant(states, labels, k - 1);
    RunKeepsCoverage(states, labels, k - 1);
    assert Step(states[k - 1], labels[k - 1]) == Some(states[k - 1 + 1]);
    StepDrops(states[k - 1], labels[k - 1]);
    AccountedKept(states[k - 1].log, states[k].log, token);
  }

  /**
   * The purchase falls between the status and the announcement: the status is read of token 1, but token 2, which was
   * never checked, is announced as expired and deleted. Only the guard at the announcement fails.
   */
  lemma MisannouncedRun()
    ensures exists states: seq<State>, labels: seq<Label> ::
              && Loses(states, labels)
              && states[|labels|].log == [BoughtNote(1, "a"), ExpiredNote(2, "b")]
              && StatusGuarded(states, labels) && !NotifyGuarded(states, labels) && RemoveGuarded(states, labels)
  {
    var g := Guards(true, true, true);
    var states, labels := FiredRun();
    StatusStep(Before(Fired(1), []), 1);
    states, labels := Extend(states, labels, Before(Fired(1), []), g, ExpiryStatus(0, true), Before(Checked(1, 1), []));
    states, labels := PurchaseRun(states, labels, Checked(1, 1), [], g);
    var log := [BoughtNote(1, "a")];
    assert [] + log == log;
    NotifyStep(Behind(Checked(1, 1), log), 1, 1);
    states, labels := Extend(states, labels, Behind(Checked(1, 1), log), g, ExpiryNotify(0),
                             Behind(Notified(1, 1, 2), log + [ExpiredNote(2, "b")]));
    states, labels := DeletionRun(states, labels, 1, 1, 2, log + [ExpiredNote(2, "b")], Guards(true, false, true));
    assert Loses(states, labels);
  }

  /**
   * The purchase falls between the firing and the status: the timer fires for token 1, but token 2, which is reserved
   * and whose deadline has not come, is announced as expired and deleted. Only the guard at the status fails.
   */
  lemma EarlyExpiryRun()
    ensures exists states: seq<State>, labels: seq<Label> ::
              && Loses(states, labels)
              && states[|labels|].log == [BoughtNote(1, "a"), ExpiredNote(2, "b")]
              && !StatusGuarded(states, labels) && NotifyGuarded(states, labels) && RemoveGuarded(states, labels)
  {
    var states, labels := FiredRun();
    states, labels := PurchaseRun(states, labels, Fired(1), [], Guards(true, true, true));
    var g, log := Guards(false, true, true), [BoughtNote(1, "a")];
    assert [] + log == log;
    StatusStep(Behind(Fired(1), log), 1);
    states, labels := Extend(states, labels, Behind(Fired(1), log), Guards(true, true, true), ExpiryStatus(0, true),
                             Behind(Checked(1, 2), log));
    NotifyStep(Behind(Checked(1, 2), log), 1, 2);
    states, labels := Extend(states, labels, Behind(Checked(1, 2), log), g, ExpiryNotify(0),
                             Behind(Notified(1, 2, 2), log + [ExpiredNote(2, "b")]));
    states, labels := DeletionRun(states, labels, 1, 2, 2, log + [ExpiredNote(2, "b")], g);
    assert Loses(states, labels);
  }
}
