/** What the event listener stores and reports (internal/eventlistener), and minimum-timeout lookups. */
module Subscriptions {
  import opened Types

  /** Timeouts are whole Unix seconds, as stored. */
  datatype Subscription = Subscription(token: nat, mint: string, timeout: int)

  type Table = map<nat, Subscription>

  /** The largest second a Go time can hold; the startup scan starts its running minimum here. */
  const MAX_TIME := 0x8000_0000_0000_0000 - 62135596801

  /** Two seconds, added because the chain's clock may lag. */
  const CHECK_BLOCKCHAIN_DELAY := 2

  datatype Status = Reserved | Bought | OtherStatus

  datatype ProposalStatus = NoProposal | Pending | Rejected | Withdrawn | Finalized | UnknownStatus

  /** What the partner plugin was successfully told, and statuses that settle a token without telling it. */
  datatype Note =
    | BoughtNote(token: nat, mint: string)
    | ExpiredNote(token: nat, mint: string)
    | SettledSeen(token: nat)
    | ProposalNote(token: nat, status: ProposalStatus)

  /** Rows are stored under their own token. */
  ghost predicate TableOk(t: Table) {
    forall token | token in t :: t[token].token == token
  }

  /** A row that `GetTokenBoughtSubscriptionByMinTimeout` may return: several can share the least timeout. */
  ghost predicate IsMin(t: Table, s: Subscription) {
    s.token in t && t[s.token] == s && forall token | token in t :: s.timeout <= t[token].timeout
  }

  lemma {:induction false} MinExists(t: Table)
    requires TableOk(t) && t != map[]
    ensures exists s :: IsMin(t, s)
    decreases |t|
  {
    var token :| token in t;
    var rest := t - {token};
    assert |rest| < |t| by {
      assert rest.Keys == t.Keys - {token};
    }
    if rest == map[] {
      assert t.Keys == {token} by {
        assert forall k | k in t && k != token :: k in rest;
      }
      assert IsMin(t, t[token]);
    } else {
      MinExists(rest);
      var s :| IsMin(rest, s);
      var m := if t[token].timeout < s.timeout then t[token] else s;
      assert forall k | k in t && k != token :: k in rest;
      assert IsMin(t, m);
    }
  }

  /** The token was announced as bought or expired, or the startup scan saw it settled. */
  ghost predicate Accounted(log: seq<Note>, token: nat) {
    exists n :: n in log && n.token == token && (n.BoughtNote? || n.ExpiredNote? || n.SettledSeen?)
  }

  ghost predicate BoughtAnnounced(log: seq<Note>, token: nat) {
    exists n :: n in log && n.token == token && n.BoughtNote?
  }

  ghost predicate FinalizedNoted(log: seq<Note>, token: nat) {
    ProposalNote(token, Finalized) in log
  }

  lemma AccountedKept(before: seq<Note>, after: seq<Note>, token: nat)
    requires before <= after
    ensures Accounted(before, token) ==> Accounted(after, token)
    ensures BoughtAnnounced(before, token) ==> BoughtAnnounced(after, token)
    ensures FinalizedNoted(before, token) ==> FinalizedNoted(after, token)
  {
  }

  /** The running minimum of the startup scan. */
  function BestTimeout(best: Option<Subscription>): int {
    if best.None? then MAX_TIME else best.value.timeout
  }
}
