/**
 * Request/response correlation (internal/messaging/processor.go): a map from request IDs to unbuffered channels, shared
 * by concurrent SendRequestMessage calls and forwarders of incoming responses. Registering, looking up, the rendezvous
 * on the channel, closing it, timing out and deleting the map entry are separate steps, in any interleaving.
 */
module Correlation {
  import opened Types

  datatype Message = Message(requestID: string, content: int)

  /** Where a SendRequestMessage call stands. `Waiting` is its select; in `Leaving` only its deferred delete is left. */
  datatype Phase = Preparing | Waiting | Leaving | Returned

  /** A call and the channel it made: what was received from it, and how often it was closed. */
  datatype Request = Request(id: string, phase: Phase, received: seq<Message>, closes: nat)

  /** A forwarder blocked in its send, or past it and about to close. `to` is the call whose channel it found. */
  datatype Forwarder = Sending(to: nat, msg: Message) | Closing(to: nat)

  /** `channels` maps a request ID to the call that owns the channel. Calls stay in `requests` after returning. */
  datatype State = State(
    channels: map<string, nat>,
    requests: map<nat, Request>,
    forwarders: map<nat, Forwarder>
  )

  datatype Label =
    | Begin(pid: nat, id: string)
    | Sent(pid: nat)
    | PrepareFailed(pid: nat)
    | Lookup(fid: nat, msg: Message)
    | Rendezvous(fid: nat, pid: nat)
    | Close(fid: nat)
    | SendOnClosed(fid: nat)
    | Timeout(pid: nat)
    | ReceiveFromClosed(pid: nat)
    | Delete(pid: nat)

  predicate InPhase(s: State, pid: nat, phase: Phase) {
    pid in s.requests && s.requests[pid].phase == phase
  }

  function Move(s: State, pid: nat, phase: Phase): State
    requires pid in s.requests
  {
    s.(requests := s.requests[pid := s.requests[pid].(phase := phase)])
  }

  function Step(s: State, l: Label): Option<State> {
    match l
    case Begin(pid, id) =>
      if pid in s.requests then None
      else Some(s.(channels := s.channels[id := pid], requests := s.requests[pid := Request(id, Preparing, [], 0)]))
    case Sent(pid) => if !InPhase(s, pid, Preparing) then None else Some(Move(s, pid, Waiting))
    case PrepareFailed(pid) => if !InPhase(s, pid, Preparing) then None else Some(Move(s, pid, Leaving))
    case Lookup(fid, msg) =>
      if fid in s.forwarders then None
      else if msg.requestID !in s.channels then Some(s)
      else Some(s.(forwarders := s.forwarders[fid := Sending(s.channels[msg.requestID], msg)]))
    case Rendezvous(fid, pid) =>
      if fid !in s.forwarders || !s.forwarders[fid].Sending? || s.forwarders[fid].to != pid
         || !InPhase(s, pid, Waiting) || s.requests[pid].closes > 0 then None
      else
        var r := s.requests[pid];
        Some(s.(requests := s.requests[pid := r.(phase := Leaving, received := r.received + [s.forwarders[fid].msg])],
                forwarders := s.forwarders[fid := Closing(pid)]))
    case Close(fid) =>
      if fid !in s.forwarders || !s.forwarders[fid].Closing? || s.forwarders[fid].to !in s.requests then None
      else
        var r := s.requests[s.forwarders[fid].to];
        Some(s.(requests := s.requests[s.forwarders[fid].to := r.(closes := r.closes + 1)],
                forwarders := s.forwarders - {fid}))
    case SendOnClosed(fid) =>
      // the blocked send panics, and the forwarder's goroutine recovers and ends
      if fid !in s.forwarders || !s.forwarders[fid].Sending? || s.forwarders[fid].to !in s.requests
         || s.requests[s.forwarders[fid].to].closes == 0 then None
      else Some(s.(forwarders := s.forwarders - {fid}))
    case Timeout(pid) => if !InPhase(s, pid, Waiting) then None else Some(Move(s, pid, Leaving))
    case ReceiveFromClosed(pid) =>
      // a receive from a closed channel yields nil, which the call would take for its response
      if !InPhase(s, pid, Waiting) || s.requests[pid].closes == 0 then None else Some(Move(s, pid, Leaving))
    case Delete(pid) =>
      if !InPhase(s, pid, Leaving) then None
      else Some(Move(s, pid, Returned).(channels := s.channels - {s.requests[pid].id}))
  }

  predicate Initial(s: State) {
    s.channels == map[] && s.requests == map[] && s.forwarders == map[]
  }

  predicate IsRun(states: seq<State>, labels: seq<Label>) {
    && |states| == |labels| + 1
    && Initial(states[0])
    && forall k {:trigger Step(states[k], labels[k])} | 0 <= k < |labels| ::
         Step(states[k], labels[k]) == Some(states[k + 1])
  }

  // ---------- At most one message, the right one, and one close after it ----------

  predicate RequestOk(r: Request) {
    && |r.received| <= 1
    && (forall m | m in r.received :: m.requestID == r.id)
    && r.closes <= |r.received|
    && (r.phase.Preparing? || r.phase.Waiting? ==> r.received == [])
  }

  ghost predicate Invariant(s: State) {
    && (forall pid | pid in s.requests :: RequestOk(s.requests[pid]))
    && (forall id | id in s.channels :: s.channels[id] in s.requests && s.requests[s.channels[id]].id == id)
    && (forall fid | fid in s.forwarders ::
          var f := s.forwarders[fid];
          && f.to in s.requests
          && (f.Sending? ==> f.msg.requestID == s.requests[f.to].id)
          && (f.Closing? ==> |s.requests[f.to].received| == 1 && s.requests[f.to].closes == 0))
    && (forall f, g | f in s.forwarders && g in s.forwarders && f != g
                      && s.forwarders[f].Closing? && s.forwarders[g].Closing? ::
          s.forwarders[f].to != s.forwarders[g].to)
  }

  /** A call moves on by itself: it neither receives nor closes. */
  lemma MoveKeepsInvariant(s: State, pid: nat, phase: Phase)
    requires Invariant(s) && pid in s.requests && RequestOk(s.requests[pid].(phase := phase))
    ensures Invariant(Move(s, pid, phase))
  {
    var s' := Move(s, pid, phase);
    forall p | p in s'.requests
      ensures p in s.requests && s'.requests[p].id == s.requests[p].id && s'.requests[p].closes == s.requests[p].closes
              && s'.requests[p].received == s.requests[p].received && RequestOk(s'.requests[p])
    {
      assert RequestOk(s.requests[p]);
    }
  }

  lemma CallKeepsInvariant(s: State, l: Label)
    requires Invariant(s) && Step(s, l).Some?
    requires l.Begin? || l.Sent? || l.PrepareFailed? || l.Timeout? || l.ReceiveFromClosed? || l.Delete?
    ensures Invariant(Step(s, l).value)
  {
    if !l.Begin? {
      assert RequestOk(s.requests[l.pid]);
      MoveKeepsInvariant(s, l.pid, if l.Sent? then Waiting else if l.Delete? then Returned else Leaving);
    }
  }

  lemma RendezvousKeepsInvariant(s: State, fid: nat, pid: nat)
    requires Invariant(s) && Step(s, Rendezvous(fid, pid)).Some?
    ensures Invariant(Step(s, Rendezvous(fid, pid)).value)
  {
    assert RequestOk(s.requests[pid]);
    assert forall f | f in s.forwarders && s.forwarders[f].Closing? :: s.forwarders[f].to != pid;
  }

  /** The other steps of a forwarder. */
  lemma ForwarderKeepsInvariant(s: State, l: Label)
    requires Invariant(s) && Step(s, l).Some?
    requires l.Lookup? || l.Close? || l.SendOnClosed?
    ensures Invariant(Step(s, l).value)
  {
    if l.Close? {
      assert RequestOk(s.requests[s.forwarders[l.fid].to]);
    }
  }

  lemma StepKeepsInvariant(s: State, l: Label)
    requires Invariant(s) && Step(s, l).Some?
    ensures Invariant(Step(s, l).value)
  {
    if l.Rendezvous? {
      RendezvousKeepsInvariant(s, l.fid, l.pid);
    } else if l.Lookup? || l.Close? || l.SendOnClosed? {
      ForwarderKeepsInvariant(s, l);
    } else {
      CallKeepsInvariant(s, l);
    }
  }

  lemma {:induction false} RunKeepsInvariant(states: seq<State>, labels: seq<Label>, k: nat)
    requires IsRun(states, labels) && k < |states|
    ensures Invariant(states[k])
  {
    if k > 0 {
      RunKeepsInvariant(states, labels, k - 1);
      assert Step(states[k - 1], labels[k - 1]) == Some(states[k - 1 + 1]);
      StepKeepsInvariant(states[k - 1], labels[k - 1]);
    }
  }

  /**
   * Request correlation. Over all interleavings of calls, duplicate responses, timeouts and deletes, and even when
   * request IDs collide, each call receives at most one message, which carries its request ID; its channel is closed
   * at most once, and only after that message was received; and no call ever takes a closed channel for a response.
   */
  lemma RequestsCorrelated(states: seq<State>, labels: seq<Label>, k: nat, pid: nat)
    requires IsRun(states, labels) && k < |states| && pid in states[k].requests
    ensures var r := states[k].requests[pid];
            && |r.received| <= 1
            && (forall m | m in r.received :: m.requestID == r.id)
            && r.closes <= |r.received|
    ensures Step(states[k], ReceiveFromClosed(pid)).None?
  {
    RunKeepsInvariant(states, labels, k);
    assert RequestOk(states[k].requests[pid]);
  }

  lemma StepKeepsReceived(s: State, l: Label, pid: nat)
    requires Invariant(s) && Step(s, l).Some? && pid in s.requests && s.requests[pid].received != []
    ensures var s' := Step(s, l).value;
            pid in s'.requests && s'.requests[pid].id == s.requests[pid].id
            && s'.requests[pid].received == s.requests[pid].received
  {
    assert RequestOk(s.requests[pid]);
  }

  /** Nothing received is ever taken back or changed, so a call that has received its message keeps it. */
  lemma {:induction false} ReceivedIsFinal(states: seq<State>, labels: seq<Label>, i: nat, k: nat, pid: nat)
    requires IsRun(states, labels) && i <= k < |states| && pid in states[i].requests
    requires states[i].requests[pid].received != []
    ensures pid in states[k].requests && states[k].requests[pid].id == states[i].requests[pid].id
    ensures states[k].requests[pid].received == states[i].requests[pid].received
  {
    if i < k {
      ReceivedIsFinal(states, labels, i, k - 1, pid);
      RunKeepsInvariant(states, labels, k - 1);
      assert Step(states[k - 1], labels[k - 1]) == Some(states[k - 1 + 1]);
      StepKeepsReceived(states[k - 1], labels[k - 1], pid);
    }
  }

  // ---------- A response reaches its call ----------

  /** A forwarder finds the channel that is registered under the ID, whatever the call is doing; without one it ends. */
  lemma LookupFinds(s: State, fid: nat, msg: Message)
    requires fid !in s.forwarders
    ensures Step(s, Lookup(fid, msg)) ==
            Some(if msg.requestID in s.channels
                 then s.(forwarders := s.forwarders[fid := Sending(s.channels[msg.requestID], msg)]) else s)
  {
  }

  /** Where a call ends that received `received` over its channel. */
  predicate Ended(s: State, s': State, pid: nat, received: seq<Message>)
    requires pid in s.requests
  {
    && s'.requests == s.requests[pid := Request(s.requests[pid].id, Returned, received, |received|)]
    && s'.channels == s.channels - {s.requests[pid].id}
  }

  /**
   * A forwarder that sends to a waiting call is received: the rendezvous, the close and the call's delete are enabled one
   * after another, and the call ends with just that message.
   */
  lemma SenderIsReceived(s: State, fid: nat, pid: nat)
    requires Invariant(s) && fid in s.forwarders && s.forwarders[fid].Sending? && s.forwarders[fid].to == pid
    requires InPhase(s, pid, Waiting)
    ensures var met := Step(s, Rendezvous(fid, pid));
            && met.Some?
            && var closed := Step(met.value, Close(fid));
            && closed.Some?
            && var end := Step(closed.value, Delete(pid));
            && end.Some? && Ended(s, end.value, pid, [s.forwarders[fid].msg])
            && end.value.forwarders == s.forwarders - {fid}
  {
    var r, msg := s.requests[pid], s.forwarders[fid].msg;
    assert RequestOk(r) && r.received + [msg] == [msg];
    var met := s.(requests := s.requests[pid := Request(r.id, Leaving, [msg], 0)],
                  forwarders := s.forwarders[fid := Closing(pid)]);
    assert Step(s, Rendezvous(fid, pid)) == Some(met);
    var closed := s.(requests := s.requests[pid := Request(r.id, Leaving, [msg], 1)],
                     forwarders := s.forwarders - {fid});
    assert met.requests[pid := Request(r.id, Leaving, [msg], 1)] == closed.requests;
    assert met.forwarders - {fid} == closed.forwarders;
    assert Step(met, Close(fid)) == Some(closed);
  }

  /**
   * A response reaches its call. In every reachable state, whatever other calls and forwarders are doing, a response whose
   * ID is that of a registered waiting call can be handed to it at once, by a forwarder that is then done.
   */
  lemma ResponseReachesCall(states: seq<State>, labels: seq<Label>, k: nat, fid: nat, msg: Message)
    requires IsRun(states, labels) && k < |states| && fid !in states[k].forwarders
    requires msg.requestID in states[k].channels && InPhase(states[k], states[k].channels[msg.requestID], Waiting)
    ensures var s, pid := states[k], states[k].channels[msg.requestID];
            var found := Step(s, Lookup(fid, msg));
            && found.Some?
            && var met := Step(found.value, Rendezvous(fid, pid));
            && met.Some?
            && var closed := Step(met.value, Close(fid));
            && closed.Some?
            && var end := Step(closed.value, Delete(pid));
            && end.Some? && end.value.forwarders == s.forwarders
            && end.value.requests == s.requests[pid := Request(msg.requestID, Returned, [msg], 1)]
            && end.value.channels == s.channels - {msg.requestID}
  {
    var s, pid := states[k], states[k].channels[msg.requestID];
    RunKeepsInvariant(states, labels, k);
    LookupFinds(s, fid, msg);
    var found := Step(s, Lookup(fid, msg)).value;
    StepKeepsInvariant(s, Lookup(fid, msg));
    SenderIsReceived(found, fid, pid);
    assert found.forwarders - {fid} == s.forwarders;
  }

  /** A call that begins is registered under its ID, and once it has sent its request it waits. */
  lemma CallBegins(s: State, pid: nat, id: string)
    requires pid !in s.requests
    ensures var begun := Step(s, Begin(pid, id));
            && begun.Some?
            && var sent := Step(begun.value, Sent(pid));
            && sent.Some? && InPhase(sent.value, pid, Waiting) && sent.value.requests[pid] == Request(id, Waiting, [], 0)
            && sent.value.channels == s.channels[id := pid] && sent.value.forwarders == s.forwarders
            && forall other | other in s.requests ::
                 other in sent.value.requests && sent.value.requests[other] == s.requests[other]
  {
  }

  /** A call that fails to prepare, or waits too long, ends without a message, and its ID is free again. */
  lemma CallEndsWithout(s: State, pid: nat)
    requires Invariant(s) && (InPhase(s, pid, Preparing) || InPhase(s, pid, Waiting))
    ensures var left := Step(s, if InPhase(s, pid, Preparing) then PrepareFailed(pid) else Timeout(pid));
            && left.Some?
            && var end := Step(left.value, Delete(pid));
            && end.Some? && Ended(s, end.value, pid, []) && end.value.forwarders == s.forwarders
  {
    var r := s.requests[pid];
    assert RequestOk(r) && r.closes == 0;
    assert s.requests[pid := r.(phase := Leaving)][pid := r.(phase := Returned)] == s.requests[pid := r.(phase := Returned)];
  }

  /** Until the call waits, and once its channel is closed, a forwarder that sends to it stays blocked. */
  lemma RendezvousIff(s: State, fid: nat)
    requires Invariant(s) && fid in s.forwarders && s.forwarders[fid].Sending?
    ensures Step(s, Rendezvous(fid, s.forwarders[fid].to)).Some? <==> InPhase(s, s.forwarders[fid].to, Waiting)
    ensures Step(s, SendOnClosed(fid)).Some? <==> s.requests[s.forwarders[fid].to].closes > 0
  {
    assert RequestOk(s.requests[s.forwarders[fid].to]);
  }

  /** A forwarder that is blocked when the channel is closed ends, and changes nothing else. */
  lemma LateSenderEnds(s: State, fid: nat)
    requires Invariant(s) && fid in s.forwarders && s.forwarders[fid].Sending?
    requires s.requests[s.forwarders[fid].to].closes > 0
    ensures Step(s, SendOnClosed(fid)) == Some(s.(forwarders := s.forwarders - {fid}))
    ensures Step(s, Rendezvous(fid, s.forwarders[fid].to)).None?
  {
  }

  // ---------- The map holds exactly the requests in progress ----------

  predicate InProgress(s: State, pid: nat) {
    pid in s.requests && !s.requests[pid].phase.Returned?
  }

  /** Each call in progress is registered under its ID, and nothing else is. */
  ghost predicate MapExact(s: State) {
    && (forall pid | InProgress(s, pid) ::
          s.requests[pid].id in s.channels && s.channels[s.requests[pid].id] == pid)
    && (forall id | id in s.channels :: InProgress(s, s.channels[id]) && s.requests[s.channels[id]].id == id)
  }

  /** No call begins with the ID of a call in progress. */
  ghost predicate UniqueIDs(states: seq<State>, labels: seq<Label>)
    requires |states| == |labels| + 1
  {
    forall k, pid | 0 <= k < |labels| && labels[k].Begin? && InProgress(states[k], pid) ::
      states[k].requests[pid].id != labels[k].id
  }

  lemma OthersKeepMapExact(s: State, l: Label)
    requires MapExact(s) && Step(s, l).Some? && !l.Begin?
    ensures MapExact(Step(s, l).value)
  {
    var s' := Step(s, l).value;
    forall pid | InProgress(s', pid)
      ensures s'.requests[pid].id in s'.channels && s'.channels[s'.requests[pid].id] == pid
    {
      assert InProgress(s, pid);
      if l.Delete? {
        assert InProgress(s, l.pid);
      }
    }
    forall id | id in s'.channels
      ensures InProgress(s', s'.channels[id]) && s'.requests[s'.channels[id]].id == id
    {
      assert InProgress(s, s.channels[id]);
    }
  }

  /** From an exact map, a step leads to an exact map unless it begins a call with an ID that is in progress. */
  lemma StepKeepsMapExactIff(s: State, l: Label)
    requires MapExact(s) && Step(s, l).Some?
    ensures MapExact(Step(s, l).value) <==>
            !(l.Begin? && exists pid :: InProgress(s, pid) && s.requests[pid].id == l.id)
  {
    var s' := Step(s, l).value;
    if l.Begin? {
      if pid :| InProgress(s, pid) && s.requests[pid].id == l.id {
        assert InProgress(s', pid) && s'.channels[l.id] != pid;
      } else {
        forall pid | InProgress(s', pid) && pid != l.pid
          ensures s'.requests[pid].id in s'.channels && s'.channels[s'.requests[pid].id] == pid
        {
          assert InProgress(s, pid);
        }
        forall id | id in s'.channels && id != l.id
          ensures InProgress(s', s'.channels[id]) && s'.requests[s'.channels[id]].id == id
        {
          assert InProgress(s, s.channels[id]);
        }
      }
    } else {
      OthersKeepMapExact(s, l);
    }
  }

  lemma {:induction false} UniqueRunMapExact(states: seq<State>, labels: seq<Label>, k: nat)
    requires IsRun(states, labels) && UniqueIDs(states, labels) && k < |states|
    ensures MapExact(states[k])
  {
    if k > 0 {
      UniqueRunMapExact(states, labels, k - 1);
      assert Step(states[k - 1], labels[k - 1]) == Some(states[k - 1 + 1]);
      StepKeepsMapExactIff(states[k - 1], labels[k - 1]);
    }
  }

  /**
   * The map holds exactly the requests in progress, throughout a run, iff no call in that run begins with the request
   * ID of a call still in progress.
   */
  lemma MapExactIffUniqueIDs(states: seq<State>, labels: seq<Label>)
    requires IsRun(states, labels)
    ensures (forall k | 0 <= k < |states| :: MapExact(states[k])) <==> UniqueIDs(states, labels)
  {
    if UniqueIDs(states, labels) {
      forall k | 0 <= k < |states| {
        UniqueRunMapExact(states, labels, k);
      }
    } else {
      var k, pid :| 0 <= k < |labels| && labels[k].Begin? && InProgress(states[k], pid)
                    && states[k].requests[pid].id == labels[k].id;
      assert Step(states[k], labels[k]) == Some(states[k + 1]);
      if MapExact(states[k]) {
        StepKeepsMapExactIff(states[k], labels[k]);
      }
    }
  }

  // ---------- A collision ----------

  /** Two calls begin with the same ID; the first fails to prepare and takes the second's channel out of the map. */
  const C0 := State(map[], map[], map[])
  const C1 := State(map["r" := 0], map[0 := Request("r", Preparing, [], 0)], map[])
  const C2 := State(map["r" := 1], C1.requests[1 := Request("r", Preparing, [], 0)], map[])
  const C3 := Move(C2, 0, Leaving)
  const C4 := Move(C3, 0, Returned).(channels := map[])

  /** A call still in progress that no response can reach. */
  predicate Orphaned(s: State, pid: nat) {
    InProgress(s, pid) && s.requests[pid].id !in s.channels
  }

  /** What uniqueness prevents: a run in which a call loses its channel while it is in progress. */
  lemma CollidingRun()
    ensures exists states: seq<State>, labels: seq<Label>, k: nat ::
              IsRun(states, labels) && k < |states| && Orphaned(states[k], 1)
  {
    var states := [C0, C1, C2, C3, C4];
    var labels := [Begin(0, "r"), Begin(1, "r"), PrepareFailed(0), Delete(0)];
    assert C1.channels["r" := 1] == C2.channels && C3.channels - {"r"} == C4.channels;
    assert Step(states[0], labels[0]) == Some(states[1]);
    assert Step(states[1], labels[1]) == Some(states[2]);
    assert Step(states[2], labels[2]) == Some(states[3]);
    assert Step(states[3], labels[3]) == Some(states[4]);
    assert IsRun(states, labels) && Orphaned(states[4], 1);
  }
}
