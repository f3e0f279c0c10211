/**
 * Under interleaving and crashes, what may leave the two tables of the reservation listener
 * (internal/eventlistener), and what must have been said before.
 */
module ListenerDrops {
  import opened Types
  import opened Subscriptions
  import opened ListenerProtocol

  /** What a process announced before it goes on to delete. */
  ghost predicate ProcAccounted(log: seq<Note>, p: Proc) {
    match p
    case BoughtNotified(token) => BoughtAnnounced(log, token)
    case Expiring(Notified(_, _, noted)) => Accounted(log, noted)
    case Expiring(Removing(_, _, noted, _)) => Accounted(log, noted)
    case Finalizing(token, notified) => notified ==> FinalizedNoted(log, token)
    case _ => true
  }

  /** What the startup scan announced, or saw, before it goes on to delete. */
  ghost predicate Settled(log: seq<Note>, token: nat) {
    BoughtAnnounced(log, token) || SettledSeen(token) in log
  }

  ghost predicate DropInvariant(s: State) {
    && (forall pid | pid in s.procs :: ProcAccounted(s.log, s.procs[pid]))
    && (s.mode.Scanning? && s.mode.current.Some? ==> Settled(s.log, s.mode.current.value.token))
  }

  /** The step is the commit of a timeout handler that announced one token and deletes another. */
  ghost predicate DisplacedDeletion(s: State, l: Label, token: nat) {
    && l.ExpiryCommit? && l.pid in s.procs && s.procs[l.pid].Expiring? && s.procs[l.pid].at.Removing?
    && s.procs[l.pid].at.removed == token && s.procs[l.pid].at.noted != token
  }

  /** What one step may remove, and what must have been said before. */
  ghost predicate DropsOnlyAccounted(s: State, l: Label, s': State) {
    && s.log <= s'.log
    && (forall token | token in s.table && token !in s'.table ::
          Accounted(s.log, token) || DisplacedDeletion(s, l, token))
    && (forall token | token in s.cancellations && token !in s'.cancellations :: FinalizedNoted(s.log, token))
  }

  lemma StartupDrops(s: State, l: Label)
    requires DropInvariant(s) && StartupStep(s, l).Some?
    requires s.mode.Scanning? ==> s.procs == map[]
    ensures DropsOnlyAccounted(s, l, StartupStep(s, l).value)
    ensures DropInvariant(StartupStep(s, l).value)
  {
  }

  lemma HandlerDrops(s: State, l: Label)
    requires DropInvariant(s) && HandlerStep(s, l).Some?
    ensures DropsOnlyAccounted(s, l, HandlerStep(s, l).value)
    ensures DropInvariant(HandlerStep(s, l).value)
  {
  }

  lemma ExpiryDrops(s: State, l: Label)
    requires DropInvariant(s) && ExpiryStep(s, l).Some?
    ensures DropsOnlyAccounted(s, l, ExpiryStep(s, l).value)
    ensures DropInvariant(ExpiryStep(s, l).value)
  {
  }

  lemma CancellationDrops(s: State, l: Label)
    requires DropInvariant(s) && CancellationStep(s, l).Some?
    ensures DropsOnlyAccounted(s, l, CancellationStep(s, l).value)
    ensures DropInvariant(CancellationStep(s, l).value)
  {
  }

  lemma StepDrops(s: State, l: Label)
    requires DropInvariant(s) && Step(s, l).Some?
    requires s.mode.Scanning? ==> s.procs == map[]
    ensures DropsOnlyAccounted(s, l, Step(s, l).value)
    ensures DropInvariant(Step(s, l).value)
  {
    if IsStartup(l) {
      StartupDrops(s, l);
    } else if IsCancellation(l) {
      CancellationDrops(s, l);
    } else if IsHandler(l) {
      HandlerDrops(s, l);
    } else {
      ExpiryDrops(s, l);
    }
  }

  lemma {:induction false} RunKeepsDropInvariant(states: seq<State>, labels: seq<Label>, k: nat)
    requires IsRun(states, labels) && k < |states|
    ensures DropInvariant(states[k])
  {
    if k > 0 {
      RunKeepsDropInvariant(states, labels, k - 1);
      RunKeepsCoverage(states, labels, k - 1);
      assert Step(states[k - 1], labels[k - 1]) == Some(states[k - 1 + 1]);
      StepDrops(states[k - 1], labels[k - 1]);
    }
  }

  /**
   * In every run, whatever fails, interleaves or crashes, there is only one way for a token to leave the token-bought
   * table without having been announced or seen settled: a timeout handler that announced one token deletes another.
   */
  lemma OnlyDisplacedDeletionsDrop(states: seq<State>, labels: seq<Label>, k: nat, token: nat)
    requires IsRun(states, labels) && k < |labels|
    requires token in states[k].table && token !in states[k + 1].table
    ensures Accounted(states[k].log, token) || DisplacedDeletion(states[k], labels[k], token)
  {
    RunKeepsDropInvariant(states, labels, k);
    RunKeepsCoverage(states, labels, k);
    assert Step(states[k], labels[k]) == Some(states[k + 1]);
    StepDrops(states[k], labels[k]);
  }

  /** Whatever leaves the token-bought table was announced, or seen settled, before it left. */
  ghost predicate NoSilent(states: seq<State>) {
    forall k, token | 0 <= k < |states| - 1 && token in states[k].table && token !in states[k + 1].table ::
      Accounted(states[k].log, token)
  }

  /** No timeout handler that announced one token deletes another of which nobody was told. */
  ghost predicate NoUnannouncedDisplacement(states: seq<State>, labels: seq<Label>) {
    forall k, token | 0 <= k < |labels| && k < |states| && DisplacedDeletion(states[k], labels[k], token) ::
      Accounted(states[k].log, token)
  }

  /** A run drops nothing silently iff no timeout handler deletes an unannounced row in place of the one it announced. */
  lemma NoSilentIff(states: seq<State>, labels: seq<Label>)
    requires IsRun(states, labels)
    ensures NoSilent(states) <==> NoUnannouncedDisplacement(states, labels)
  {
    if NoSilent(states) {
      forall k, token | 0 <= k < |labels| && k < |states| && DisplacedDeletion(states[k], labels[k], token)
        ensures Accounted(states[k].log, token)
      {
        assert Step(states[k], labels[k]) == Some(states[k + 1]);
      }
    } else {
      var k, token :| 0 <= k < |states| - 1 && token in states[k].table && token !in states[k + 1].table
                      && !Accounted(states[k].log, token);
      OnlyDisplacedDeletionsDrop(states, labels, k, token);
    }
  }

  /** In every run, a token that has left the cancellation table was first successfully notified as finalized. */
  lemma {:induction false} NoSilentCancellationDrop(states: seq<State>, labels: seq<Label>, i: nat, k: nat, token: nat)
    requires IsRun(states, labels) && i <= k < |states|
    requires token in states[i].cancellations && token !in states[k].cancellations
    ensures FinalizedNoted(states[k].log, token)
  {
    var j := k - 1;
    RunKeepsDropInvariant(states, labels, j);
    RunKeepsCoverage(states, labels, j);
    assert Step(states[j], labels[j]) == Some(states[j + 1]);
    StepDrops(states[j], labels[j]);
    if token !in states[j].cancellations {
      NoSilentCancellationDrop(states, labels, i, j, token);
    }
    AccountedKept(states[j].log, states[k].log, token);
  }
}
