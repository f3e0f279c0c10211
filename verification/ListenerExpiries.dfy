/**
 * What a timeout handler (internal/eventlistener/subscription_token_bought.go) does in the course of a run. It reads the
 * shared timer field anew for the status, for the notification and for the deletion, and keeps nothing of what it read;
 * so whether the token it deletes is the one that expired is a matter of what else has moved the field meanwhile.
 */
module ListenerExpiries {
  import opened Types
  import opened Subscriptions
  import opened ListenerProtocol
  import opened ListenerDrops

  // ---------- What a handler has done so far ----------

  /** Call `pid` is one and the same timeout handler after step `j` and up to state `k`. */
  ghost predicate SameHandler(states: seq<State>, pid: nat, j: nat, k: nat) {
    j < k < |states| && forall i | j < i <= k :: pid in states[i].procs && states[i].procs[pid].Expiring?
  }

  /** Step `j` is `l`, taken while the timer named the token. */
  ghost predicate Took(states: seq<State>, labels: seq<Label>, j: nat, l: Label, token: nat) {
    && j < |labels| && j < |states|
    && labels[j] == l && states[j].timer.Some? && states[j].timer.value.token == token
  }

  /** The handler running as `pid` in state `k` has earlier taken step `l` while the timer named the token. */
  ghost predicate Earlier(states: seq<State>, labels: seq<Label>, k: nat, pid: nat, l: Label, token: nat) {
    exists j: nat :: Took(states, labels, j, l, token) && SameHandler(states, pid, j, k)
  }

  /** The timer fired for the token, and so started the handler. */
  ghost predicate FiredFor(states: seq<State>, labels: seq<Label>, k: nat, pid: nat, token: nat) {
    Earlier(states, labels, k, pid, Fire(pid), token)
  }

  /** The handler asked for the status of the token and was told that it is still reserved. */
  ghost predicate SawReserved(states: seq<State>, labels: seq<Label>, k: nat, pid: nat, token: nat) {
    Earlier(states, labels, k, pid, ExpiryStatus(pid, true), token)
  }

  /** The handler announced the token as expired. */
  ghost predicate Announced(states: seq<State>, labels: seq<Label>, k: nat, pid: nat, token: nat) {
    Earlier(states, labels, k, pid, ExpiryNotify(pid), token)
  }

  lemma EarlierKept(states: seq<State>, labels: seq<Label>, k: nat, pid: nat, l: Label, token: nat)
    requires Earlier(states, labels, k, pid, l, token)
    requires k + 1 < |states| && pid in states[k + 1].procs && states[k + 1].procs[pid].Expiring?
    ensures Earlier(states, labels, k + 1, pid, l, token)
  {
    var j: nat :| Took(states, labels, j, l, token) && SameHandler(states, pid, j, k);
    assert SameHandler(states, pid, j, k + 1);
  }

  lemma EarlierNow(states: seq<State>, labels: seq<Label>, k: nat, pid: nat, l: Label, token: nat)
    requires Took(states, labels, k, l, token)
    requires k + 1 < |states| && pid in states[k + 1].procs && states[k + 1].procs[pid].Expiring?
    ensures Earlier(states, labels, k + 1, pid, l, token)
  {
    assert SameHandler(states, pid, k, k + 1);
  }

  /** What the state of a handler tells of its past. */
  ghost predicate History(states: seq<State>, labels: seq<Label>, k: nat, pid: nat, at: Expiry) {
    && (!at.Ending? ==> FiredFor(states, labels, k, pid, at.due))
    && (!at.Ending? && !at.Fired? ==> SawReserved(states, labels, k, pid, at.seen))
    && (at.Notified? || at.Removing? ==> Announced(states, labels, k, pid, at.noted))
  }

  /** How far a handler can have come, given how far it had come before. */
  predicate Continues(a: Expiry, b: Expiry) {
    b.Ending?
    || (&& !a.Ending? && b.due == a.due
        && (!a.Fired? ==> !b.Fired? && b.seen == a.seen)
        && (a.Notified? || a.Removing? ==> (b.Notified? || b.Removing?) && b.noted == a.noted))
  }

  predicate IsExpiry(l: Label) {
    !IsStartup(l) && !IsCancellation(l) && !IsHandler(l)
  }

  /** A timeout handler in `s'` was already there in `s`. */
  predicate Unmoved(s: State, s': State, pid: nat) {
    pid in s'.procs && s'.procs[pid].Expiring? ==> pid in s.procs && s.procs[pid] == s'.procs[pid]
  }

  lemma HandlersLeave(s: State, l: Label, pid: nat)
    requires HandlerStep(s, l).Some?
    ensures Unmoved(s, HandlerStep(s, l).value, pid)
  {
  }

  lemma ExpiriesLeave(s: State, l: Label, pid: nat)
    requires ExpiryStep(s, l).Some? && l.pid != pid
    ensures Unmoved(s, ExpiryStep(s, l).value, pid)
  {
  }

  /** A timeout handler moves by its own steps only. */
  lemma OthersLeave(s: State, l: Label, pid: nat)
    requires Step(s, l).Some? && !(IsExpiry(l) && l.pid == pid)
    ensures Unmoved(s, Step(s, l).value, pid)
  {
    if IsHandler(l) {
      HandlersLeave(s, l, pid);
    } else if IsExpiry(l) {
      ExpiriesLeave(s, l, pid);
    }
  }

  lemma StepContinues(s: State, l: Label, pid: nat)
    requires Step(s, l).Some? && pid in s.procs && s.procs[pid].Expiring?
    requires var s' := Step(s, l).value; pid in s'.procs && s'.procs[pid].Expiring?
    ensures Continues(s.procs[pid].at, Step(s, l).value.procs[pid].at)
  {
    if IsExpiry(l) && l.pid == pid {
      OwnStep(s, l);
    } else {
      OthersLeave(s, l, pid);
    }
  }

  /** A step of a handler is from one stage to the next, unless it ends the call or the process. */
  predicate GoesTo(a: Expiry, l: Label, timer: Option<Subscription>, b: Expiry) {
    || b.Ending?
    || b == a
    || (timer.Some? && l.ExpiryStatus? && l.reserved && a.Fired? && b == Checked(a.due, timer.value.token))
    || (timer.Some? && l.ExpiryNotify? && a.Checked? && b == Notified(a.due, a.seen, timer.value.token))
    || (timer.Some? && l.ExpiryRemove? && a.Notified? && b == Removing(a.due, a.seen, a.noted, timer.value.token))
  }

  lemma OwnStep(s: State, l: Label)
    requires IsExpiry(l) && Step(s, l).Some? && l.pid in Step(s, l).value.procs
    ensures Step(s, l).value.procs[l.pid].Expiring?
    ensures l.Fire? ==> l.pid !in s.procs && s.timer.Some?
                        && Step(s, l).value.procs[l.pid].at == Fired(s.timer.value.token)
    ensures !l.Fire? ==> ExpiringProc(s, l.pid)
                         && GoesTo(s.procs[l.pid].at, l, s.timer, Step(s, l).value.procs[l.pid].at)
    ensures l.ExpiryRemove? && Step(s, l).value.procs[l.pid].at.Removing? ==>
              s.timer.Some? && s.timer.value.token in s.table
  {
  }

  /** What the steps that matter lead to when the timer is set. */
  lemma OwnReads(s: State, l: Label)
    requires IsExpiry(l) && Step(s, l).Some? && s.timer.Some?
    ensures (l.ExpiryStatus? && l.reserved) || l.ExpiryNotify? ==>
              l.pid in Step(s, l).value.procs && Step(s, l).value.procs[l.pid].Expiring?
    ensures l.ExpiryStatus? && l.reserved ==>
              Step(s, l).value.procs[l.pid].at == Checked(s.procs[l.pid].at.due, s.timer.value.token)
    ensures l.ExpiryNotify? ==>
              Step(s, l).value.procs[l.pid].at ==
              Notified(s.procs[l.pid].at.due, s.procs[l.pid].at.seen, s.timer.value.token)
  {
  }

  /** Where a token first enters what a handler carries. */
  lemma StepLearns(s: State, l: Label, pid: nat)
    requires Step(s, l).Some?
    requires var s' := Step(s, l).value; pid in s'.procs && s'.procs[pid].Expiring?
    ensures var b := Step(s, l).value.procs[pid].at;
            && (l == Fire(pid) ==> s.timer.Some? && b == Fired(s.timer.value.token))
            && (l == ExpiryStatus(pid, true) && s.timer.Some? ==> b.Checked? && b.seen == s.timer.value.token)
            && (l == ExpiryNotify(pid) && s.timer.Some? ==> b.Notified? && b.noted == s.timer.value.token)
            && (pid !in s.procs || !s.procs[pid].Expiring? ==> l == Fire(pid))
            && (pid in s.procs && s.procs[pid].Expiring? ==>
                  var a := s.procs[pid].at;
                  && (a.Fired? && !b.Fired? && !b.Ending? ==> l == ExpiryStatus(pid, true) && s.timer.Some?)
                  && (a.Checked? && (b.Notified? || b.Removing?) ==> l == ExpiryNotify(pid) && s.timer.Some?))
  {
    if IsExpiry(l) && l.pid == pid {
      OwnStep(s, l);
      if s.timer.Some? {
        OwnReads(s, l);
      }
    } else {
      OthersLeave(s, l, pid);
    }
  }

  lemma HistoryStep(states: seq<State>, labels: seq<Label>, k: nat, pid: nat)
    requires IsRun(states, labels) && k < |labels|
    requires pid in states[k + 1].procs && states[k + 1].procs[pid].Expiring?
    requires pid in states[k].procs && states[k].procs[pid].Expiring? ==>
               History(states, labels, k, pid, states[k].procs[pid].at)
    ensures History(states, labels, k + 1, pid, states[k + 1].procs[pid].at)
  {
    var s, l, b := states[k], labels[k], states[k + 1].procs[pid].at;
    assert Step(s, l) == Some(states[k + 1]);
    StepLearns(s, l, pid);
    if l == Fire(pid) {
      EarlierNow(states, labels, k, pid, l, s.timer.value.token);
    } else {
      var a := s.procs[pid].at;
      StepContinues(s, l, pid);
      if !b.Ending? {
        EarlierKept(states, labels, k, pid, Fire(pid), a.due);
        if a.Fired? && !b.Fired? {
          EarlierNow(states, labels, k, pid, l, s.timer.value.token);
        } else if !a.Fired? {
          EarlierKept(states, labels, k, pid, ExpiryStatus(pid, true), a.seen);
          if a.Notified? || a.Removing? {
            EarlierKept(states, labels, k, pid, ExpiryNotify(pid), a.noted);
          } else if b.Notified? || b.Removing? {
            EarlierNow(states, labels, k, pid, l, s.timer.value.token);
          }
        }
      }
    }
  }

  lemma {:induction false} RunHistory(states: seq<State>, labels: seq<Label>, k: nat, pid: nat)
    requires IsRun(states, labels) && k < |states| && pid in states[k].procs && states[k].procs[pid].Expiring?
    ensures History(states, labels, k, pid, states[k].procs[pid].at)
  {
    if k > 0 {
      if pid in states[k - 1].procs && states[k - 1].procs[pid].Expiring? {
        RunHistory(states, labels, k - 1, pid);
      }
      HistoryStep(states, labels, k - 1, pid);
    }
  }

  lemma {:induction false} HandlerContinues(states: seq<State>, labels: seq<Label>, pid: nat, j: nat, k: nat)
    requires IsRun(states, labels) && SameHandler(states, pid, j, k)
    ensures Continues(states[j + 1].procs[pid].at, states[k].procs[pid].at)
  {
    if j + 1 < k {
      HandlerContinues(states, labels, pid, j, k - 1);
      assert Step(states[k - 1], labels[k - 1]) == Some(states[k - 1 + 1]);
      StepContinues(states[k - 1], labels[k - 1], pid);
    }
  }

  /** And conversely: what a handler that has not given up did earlier is what its state tells. */
  lemma PastIsHistory(states: seq<State>, labels: seq<Label>, k: nat, pid: nat, token: nat)
    requires IsRun(states, labels) && k < |states|
    requires pid in states[k].procs && states[k].procs[pid].Expiring? && !states[k].procs[pid].at.Ending?
    ensures var at := states[k].procs[pid].at;
            && (FiredFor(states, labels, k, pid, token) <==> token == at.due)
            && (SawReserved(states, labels, k, pid, token) <==> !at.Fired? && token == at.seen)
            && (Announced(states, labels, k, pid, token) <==> (at.Notified? || at.Removing?) && token == at.noted)
  {
    RunHistory(states, labels, k, pid);
    forall l | l in {Fire(pid), ExpiryStatus(pid, true), ExpiryNotify(pid)}
               && Earlier(states, labels, k, pid, l, token)
      ensures var at := states[k].procs[pid].at;
              if l.Fire? then token == at.due
              else if l.ExpiryStatus? then !at.Fired? && token == at.seen
              else (at.Notified? || at.Removing?) && token == at.noted
    {
      var j: nat :| Took(states, labels, j, l, token) && SameHandler(states, pid, j, k);
      assert Step(states[j], labels[j]) == Some(states[j + 1]);
      StepLearns(states[j], labels[j], pid);
      HandlerContinues(states, labels, pid, j, k);
    }
  }

  // ---------- The three guards ----------

  /** A handler that is told that the timer's token is reserved asks about the one for which the timer fired. */
  ghost predicate StatusGuard(s: State, l: Label) {
    l.ExpiryStatus? && l.reserved && ExpiringProc(s, l.pid) && s.procs[l.pid].at.Fired? && s.timer.Some? ==>
      s.timer.value.token == s.procs[l.pid].at.due
  }

  /** A handler that announces the timer's token announces the one it saw reserved. */
  ghost predicate NotifyGuard(s: State, l: Label) {
    l.ExpiryNotify? && ExpiringProc(s, l.pid) && s.procs[l.pid].at.Checked? && s.timer.Some? ==>
      s.timer.value.token == s.procs[l.pid].at.seen
  }

  /** A handler that goes on to delete the timer's token deletes the one it announced. */
  ghost predicate RemoveGuard(s: State, l: Label) {
    l.ExpiryRemove? && ExpiringProc(s, l.pid) && s.procs[l.pid].at.Notified?
    && s.timer.Some? && s.timer.value.token in s.table ==>
      s.timer.value.token == s.procs[l.pid].at.noted
  }

  ghost predicate StatusGuarded(states: seq<State>, labels: seq<Label>) {
    forall k | 0 <= k < |labels| && k < |states| :: StatusGuard(states[k], labels[k])
  }

  ghost predicate NotifyGuarded(states: seq<State>, labels: seq<Label>) {
    forall k | 0 <= k < |labels| && k < |states| :: NotifyGuard(states[k], labels[k])
  }

  ghost predicate RemoveGuarded(states: seq<State>, labels: seq<Label>) {
    forall k | 0 <= k < |labels| && k < |states| :: RemoveGuard(states[k], labels[k])
  }

  /** Step `k` adds an expiry note of the token to what was announced. */
  ghost predicate Expires(states: seq<State>, k: nat, token: nat) {
    k + 1 < |states| && exists mint :: states[k + 1].log == states[k].log + [ExpiredNote(token, mint)]
  }

  lemma ExpiryNoteStep(s: State, l: Label, token: nat, mint: string)
    requires Step(s, l).Some? && Step(s, l).value.log == s.log + [ExpiredNote(token, mint)]
    ensures l.ExpiryNotify? && ExpiringProc(s, l.pid) && s.procs[l.pid].at.Checked?
    ensures s.timer == Some(Subscription(token, mint, s.timer.value.timeout))
  {
    var log := Step(s, l).value.log;
    assert log[|s.log|] == ExpiredNote(token, mint);
  }

  /** Each expiry note is of the token that its handler saw reserved. */
  ghost predicate NotesSeen(states: seq<State>, labels: seq<Label>) {
    forall k, token | 0 <= k < |labels| && Expires(states, k, token) ::
      labels[k].ExpiryNotify? && SawReserved(states, labels, k, labels[k].pid, token)
  }

  /** Each token seen reserved is the one for which the handler's timer fired. */
  ghost predicate ReservedDue(states: seq<State>, labels: seq<Label>) {
    forall k, pid, token | Took(states, labels, k, ExpiryStatus(pid, true), token) ::
      FiredFor(states, labels, k, pid, token)
  }

  /**
   * In any run, each token that a handler is told is reserved is the one for which its timer fired, iff the timer still
   * names that one whenever a handler asks.
   */
  lemma ReservedDueIff(states: seq<State>, labels: seq<Label>)
    requires IsRun(states, labels)
    ensures ReservedDue(states, labels) <==> StatusGuarded(states, labels)
  {
    forall k: nat, pid, token | Took(states, labels, k, ExpiryStatus(pid, true), token)
      ensures FiredFor(states, labels, k, pid, token) <==> StatusGuard(states[k], labels[k])
    {
      assert Step(states[k], labels[k]) == Some(states[k + 1]);
      PastIsHistory(states, labels, k, pid, token);
    }
    forall k | 0 <= k < |labels| && !StatusGuard(states[k], labels[k])
      ensures Took(states, labels, k, ExpiryStatus(labels[k].pid, true), states[k].timer.value.token)
    {
    }
  }

  /**
   * In any run, each token announced as expired is one that the same handler saw still reserved, iff whenever a handler
   * sends its announcement the timer names the token whose status that handler was told.
   */
  lemma NotesSeenIff(states: seq<State>, labels: seq<Label>)
    requires IsRun(states, labels)
    ensures NotesSeen(states, labels) <==> NotifyGuarded(states, labels)
  {
    forall k, token | 0 <= k < |labels| && Expires(states, k, token)
      ensures labels[k].ExpiryNotify?
      ensures SawReserved(states, labels, k, labels[k].pid, token) <==> NotifyGuard(states[k], labels[k])
    {
      assert Step(states[k], labels[k]) == Some(states[k + 1]);
      var mint :| states[k + 1].log == states[k].log + [ExpiredNote(token, mint)];
      ExpiryNoteStep(states[k], labels[k], token, mint);
      PastIsHistory(states, labels, k, labels[k].pid, token);
    }
    forall k | 0 <= k < |labels| && !NotifyGuard(states[k], labels[k])
      ensures Expires(states, k, states[k].timer.value.token)
    {
      assert Step(states[k], labels[k]) == Some(states[k + 1]);
      var sub := states[k].timer.value;
      assert states[k + 1].log == states[k].log + [ExpiredNote(sub.token, sub.mint)];
    }
  }

  /** Step `k` commits the handler `pid` to the deletion of the token's row. */
  ghost predicate Selects(states: seq<State>, labels: seq<Label>, k: nat, pid: nat, token: nat) {
    && k < |labels| && k + 1 < |states| && labels[k] == ExpiryRemove(pid)
    && pid in states[k + 1].procs && states[k + 1].procs[pid].Expiring?
    && states[k + 1].procs[pid].at.Removing? && states[k + 1].procs[pid].at.removed == token
  }

  /** Each row that a handler goes on to delete is of the token it announced. */
  ghost predicate RemovalsAnnounced(states: seq<State>, labels: seq<Label>) {
    forall k, pid, token | Selects(states, labels, k, pid, token) :: Announced(states, labels, k, pid, token)
  }

  lemma RemoveSelects(s: State, l: Label)
    requires l.ExpiryRemove? && Step(s, l).Some? && s.timer.Some? && s.timer.value.token in s.table
    ensures ExpiringProc(s, l.pid) && s.procs[l.pid].at.Notified?
    ensures l.pid in Step(s, l).value.procs
    ensures Step(s, l).value.procs[l.pid] ==
            Expiring(Removing(s.procs[l.pid].at.due, s.procs[l.pid].at.seen, s.procs[l.pid].at.noted,
                              s.timer.value.token))
  {
  }

  /**
   * In any run, each row that a handler goes on to delete is of the token it announced, iff the timer still names that
   * one whenever a handler looks up what to delete and finds it.
   */
  lemma RemovalsAnnouncedIff(states: seq<State>, labels: seq<Label>)
    requires IsRun(states, labels)
    ensures RemovalsAnnounced(states, labels) <==> RemoveGuarded(states, labels)
  {
    forall k: nat, pid, token | Selects(states, labels, k, pid, token)
      ensures Announced(states, labels, k, pid, token) <==> RemoveGuard(states[k], labels[k])
    {
      assert Step(states[k], labels[k]) == Some(states[k + 1]);
      OwnStep(states[k], labels[k]);
      RemoveSelects(states[k], labels[k]);
      PastIsHistory(states, labels, k, pid, token);
    }
    forall k | 0 <= k < |labels| && !RemoveGuard(states[k], labels[k])
      ensures Selects(states, labels, k, labels[k].pid, states[k].timer.value.token)
    {
      assert Step(states[k], labels[k]) == Some(states[k + 1]);
      RemoveSelects(states[k], labels[k]);
    }
  }

  // ---------- What timeout handlers delete ----------

  /** Step `k` takes the row of the token out of the table. */
  predicate Leaves(states: seq<State>, k: nat, token: nat) {
    k + 1 < |states| && token in states[k].table && token !in states[k + 1].table
  }

  /** The timer of the handler `pid` fired for the token, and the handler saw it reserved and announced it. */
  ghost predicate Expired(states: seq<State>, labels: seq<Label>, k: nat, pid: nat, token: nat) {
    && FiredFor(states, labels, k, pid, token)
    && SawReserved(states, labels, k, pid, token)
    && Announced(states, labels, k, pid, token)
  }

  /** The row that step `k` deletes was announced as bought or seen settled, or it has properly expired. */
  ghost predicate Proper(states: seq<State>, labels: seq<Label>, k: nat, token: nat)
    requires k < |labels| && k < |states|
  {
    match labels[k]
    case BoughtCommit(_, _) => BoughtAnnounced(states[k].log, token)
    case ScanRemove => Settled(states[k].log, token)
    case ExpiryCommit(pid) => Expired(states, labels, k, pid, token)
    case _ => false
  }

  ghost predicate ProperDrops(states: seq<State>, labels: seq<Label>)
    requires |states| == |labels| + 1
  {
    forall k, token | Leaves(states, k, token) :: Proper(states, labels, k, token)
  }

  /** A timeout handler about to delete has dealt with one and the same token throughout. */
  ghost predicate CommitGuard(s: State, l: Label) {
    l.ExpiryCommit? && ExpiringProc(s, l.pid) && s.procs[l.pid].at.Removing? ==>
      var at := s.procs[l.pid].at;
      at.due == at.seen == at.noted == at.removed
  }

  ghost predicate CommitGuarded(states: seq<State>, labels: seq<Label>) {
    forall k | 0 <= k < |labels| && k < |states| :: CommitGuard(states[k], labels[k])
  }

  /** What takes a row out of the table. */
  lemma LeavesBy(s: State, l: Label, token: nat)
    requires Step(s, l).Some? && token in s.table && token !in Step(s, l).value.table
    ensures (l.BoughtCommit? && Running(s, l.pid) && s.procs[l.pid] == BoughtNotified(token))
            || (l.ScanRemove? && s.mode.Scanning? && s.mode.current.Some? && s.mode.current.value.token == token)
            || (l.ExpiryCommit? && ExpiringProc(s, l.pid) && s.procs[l.pid].at.Removing?
                && s.procs[l.pid].at.removed == token)
  {
  }

  lemma OthersAnnounced(s: State, l: Label, token: nat)
    requires DropInvariant(s) && Step(s, l).Some? && token in s.table && token !in Step(s, l).value.table
    ensures l.BoughtCommit? ==> BoughtAnnounced(s.log, token)
    ensures l.ScanRemove? ==> Settled(s.log, token)
  {
    LeavesBy(s, l, token);
    if l.BoughtCommit? {
      assert ProcAccounted(s.log, s.procs[l.pid]);
    }
  }

  lemma ProperIff(states: seq<State>, labels: seq<Label>, k: nat, token: nat)
    requires IsRun(states, labels) && Leaves(states, k, token)
    ensures Proper(states, labels, k, token) <==> CommitGuard(states[k], labels[k])
  {
    assert Step(states[k], labels[k]) == Some(states[k + 1]);
    LeavesBy(states[k], labels[k], token);
    if labels[k].ExpiryCommit? {
      PastIsHistory(states, labels, k, labels[k].pid, token);
    } else {
      RunKeepsDropInvariant(states, labels, k);
      OthersAnnounced(states[k], labels[k], token);
    }
  }

  /**
   * In any run, every row that leaves the table was announced as bought, seen settled by a startup scan, or deleted by a
   * timeout handler whose timer fired for that row and which saw it reserved and announced it, iff every handler that
   * deletes has dealt with one token throughout.
   */
  lemma ProperDropsIff(states: seq<State>, labels: seq<Label>)
    requires IsRun(states, labels)
    ensures ProperDrops(states, labels) <==> CommitGuarded(states, labels)
  {
    forall k: nat, token | Leaves(states, k, token)
      ensures Proper(states, labels, k, token) <==> CommitGuard(states[k], labels[k])
    {
      ProperIff(states, labels, k, token);
    }
    forall k | 0 <= k < |labels| && !CommitGuard(states[k], labels[k])
      ensures Leaves(states, k, states[k].procs[labels[k].pid].at.removed)
    {
      assert Step(states[k], labels[k]) == Some(states[k + 1]);
    }
  }

  /** What the guards keep: each token that a handler carries is the one before it. */
  ghost predicate Faithful(status: bool, notify: bool, remove: bool, p: Proc) {
    p.Expiring? ==>
      && (status && !p.at.Ending? && !p.at.Fired? ==> p.at.seen == p.at.due)
      && (notify && (p.at.Notified? || p.at.Removing?) ==> p.at.noted == p.at.seen)
      && (remove && p.at.Removing? ==> p.at.removed == p.at.noted)
  }

  lemma GuardedStepFaithful(s: State, l: Label, pid: nat, status: bool, notify: bool, remove: bool)
    requires (status ==> StatusGuard(s, l)) && (notify ==> NotifyGuard(s, l)) && (remove ==> RemoveGuard(s, l))
    requires Step(s, l).Some? && pid in Step(s, l).value.procs
    requires pid in s.procs ==> Faithful(status, notify, remove, s.procs[pid])
    ensures Faithful(status, notify, remove, Step(s, l).value.procs[pid])
  {
    if IsExpiry(l) && l.pid == pid {
      OwnStep(s, l);
    } else {
      OthersLeave(s, l, pid);
    }
  }

  lemma {:induction false} GuardedRunFaithful(states: seq<State>, labels: seq<Label>, k: nat, pid: nat, status: bool,
                                             notify: bool, remove: bool)
    requires IsRun(states, labels) && k < |states| && pid in states[k].procs
    requires (status ==> StatusGuarded(states, labels)) && (notify ==> NotifyGuarded(states, labels))
             && (remove ==> RemoveGuarded(states, labels))
    ensures Faithful(status, notify, remove, states[k].procs[pid])
  {
    if k > 0 {
      if pid in states[k - 1].procs {
        GuardedRunFaithful(states, labels, k - 1, pid, status, notify, remove);
      }
      assert Step(states[k - 1], labels[k - 1]) == Some(states[k - 1 + 1]);
      GuardedStepFaithful(states[k - 1], labels[k - 1], pid, status, notify, remove);
    }
  }

  /**
   * With the guards at the announcement and at the deletion, every row that a timeout handler deletes was seen reserved
   * and announced by that handler; with the guard at the status as well, its timer fired for that row.
   */
  lemma DeletedRowsExpired(states: seq<State>, labels: seq<Label>, k: nat, pid: nat, token: nat)
    requires IsRun(states, labels) && NotifyGuarded(states, labels) && RemoveGuarded(states, labels)
    requires k < |labels| && labels[k] == ExpiryCommit(pid) && Leaves(states, k, token)
    ensures SawReserved(states, labels, k, pid, token) && Announced(states, labels, k, pid, token)
    ensures StatusGuarded(states, labels) ==> FiredFor(states, labels, k, pid, token)
  {
    assert Step(states[k], labels[k]) == Some(states[k + 1]);
    GuardedRunFaithful(states, labels, k, pid, StatusGuarded(states, labels), true, true);
    PastIsHistory(states, labels, k, pid, token);
  }

  ghost predicate Guarded(states: seq<State>, labels: seq<Label>) {
    StatusGuarded(states, labels) && NotifyGuarded(states, labels) && RemoveGuarded(states, labels)
  }

  lemma GuardedDropsProper(states: seq<State>, labels: seq<Label>)
    requires IsRun(states, labels) && Guarded(states, labels)
    ensures ProperDrops(states, labels)
  {
    forall k: nat, token | Leaves(states, k, token)
      ensures Proper(states, labels, k, token)
    {
      if labels[k].ExpiryCommit? {
        DeletedRowsExpired(states, labels, k, labels[k].pid, token);
      } else {
        ProperIff(states, labels, k, token);
      }
    }
  }

  /**
   * Nothing is lost. In every run with failures, interleavings and crashes at any point in which the three guards hold, a
   * token that is no longer in the table left it at a step for which there was proper cause.
   */
  lemma {:induction false} NothingLost(states: seq<State>, labels: seq<Label>, i: nat, k: nat, token: nat)
    requires IsRun(states, labels) && Guarded(states, labels) && i <= k < |states|
    requires token in states[i].table && token !in states[k].table
    ensures exists j :: i <= j < k && Leaves(states, j, token) && Proper(states, labels, j, token)
  {
    GuardedDropsProper(states, labels);
    if token !in states[k - 1].table {
      NothingLost(states, labels, i, k - 1, token);
    } else {
      assert Leaves(states, k - 1, token);
    }
  }

  // ---------- One call at a time ----------

  /** No two calls are ever in progress together. */
  ghost predicate OneAtATime(s: State) {
    forall p, q | p in s.procs && q in s.procs :: p == q
  }

  ghost predicate Serial(states: seq<State>) {
    forall k | 0 <= k < |states| :: OneAtATime(states[k])
  }

  /** The timer, unless it is nil, still names what the handler has dealt with. */
  predicate Undisturbed(timer: Option<Subscription>, p: Proc) {
    p.Expiring? && !p.at.Ending? ==>
      && (timer.Some? ==> timer.value.token == p.at.due)
      && (!p.at.Fired? ==> p.at.seen == p.at.due)
      && (p.at.Notified? || p.at.Removing? ==> p.at.noted == p.at.due)
  }

  /** Beside a timeout handler that is alone, no other step moves the timer. */
  lemma AloneKeepsTimer(s: State, l: Label, pid: nat)
    requires OneAtATime(s) && Step(s, l).Some? && OneAtATime(Step(s, l).value)
    requires s.mode.Scanning? ==> s.procs == map[]
    requires pid in s.procs && s.procs[pid].Expiring? && pid in Step(s, l).value.procs
    ensures Step(s, l).value.timer == s.timer
  {
  }

  lemma SerialStepUndisturbed(s: State, l: Label, pid: nat)
    requires OneAtATime(s) && Step(s, l).Some? && OneAtATime(Step(s, l).value) && pid in Step(s, l).value.procs
    requires s.mode.Scanning? ==> s.procs == map[]
    requires pid in s.procs ==> Undisturbed(s.timer, s.procs[pid])
    ensures Undisturbed(Step(s, l).value.timer, Step(s, l).value.procs[pid])
  {
    if IsExpiry(l) && l.pid == pid {
      OwnStep(s, l);
    } else {
      OthersLeave(s, l, pid);
    }
    if pid in s.procs && s.procs[pid].Expiring? {
      AloneKeepsTimer(s, l, pid);
    }
  }

  lemma {:induction false} SerialRunUndisturbed(states: seq<State>, labels: seq<Label>, k: nat, pid: nat)
    requires IsRun(states, labels) && Serial(states) && k < |states| && pid in states[k].procs
    ensures Undisturbed(states[k].timer, states[k].procs[pid])
  {
    if k > 0 {
      if pid in states[k - 1].procs {
        SerialRunUndisturbed(states, labels, k - 1, pid);
      }
      RunKeepsCoverage(states, labels, k - 1);
      assert Step(states[k - 1], labels[k - 1]) == Some(states[k - 1 + 1]);
      assert OneAtATime(states[k - 1]) && OneAtATime(states[k - 1 + 1]);
      SerialStepUndisturbed(states[k - 1], labels[k - 1], pid);
    }
  }

  /** Without interleaving the guards hold by themselves, whatever fails and wherever the process crashes. */
  lemma SerialRunsGuarded(states: seq<State>, labels: seq<Label>)
    requires IsRun(states, labels) && Serial(states)
    ensures Guarded(states, labels)
  {
    forall k | 0 <= k < |labels|
      ensures StatusGuard(states[k], labels[k]) && NotifyGuard(states[k], labels[k])
              && RemoveGuard(states[k], labels[k])
    {
      var l := labels[k];
      if (l.ExpiryStatus? || l.ExpiryNotify? || l.ExpiryRemove?) && l.pid in states[k].procs {
        SerialRunUndisturbed(states, labels, k, l.pid);
      }
    }
  }
}
