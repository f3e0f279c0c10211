/**
 * The expiring cache of bot authorisations (pkg/ttm_accounts/ttm_accounts.go), shared by concurrent lookups. A lookup
 * reads the cache, on a miss asks the chain, and stores the answer; other lookups may do any of this in between.
 */
module BotAuthCache {
  import opened Types

  /** The account and the bot that an answer is about. */
  type Key = (Address, Address)

  datatype Val = Val(allowed: bool, expiresAt: int)

  type Cache = map<Key, Val>

  /** A cached answer that has not expired. */
  function CacheHit(cache: Cache, key: Key, now: int): Option<bool> {
    if key in cache && now < cache[key].expiresAt then Some(cache[key].allowed) else None
  }

  function CacheStore(cache: Cache, timeout: int, key: Key, allowed: bool, now: int): Cache {
    if timeout > 0 then cache[key := Val(allowed, now + timeout)] else cache
  }

  /** One lookup by itself: its result and the cache after it. `answer` is what the chain says, None an error. */
  function Lookup(cache: Cache, timeout: int, key: Key, readAt: int, answer: Option<bool>, storeAt: int)
    : (Option<bool>, Cache)
  {
    var hit := CacheHit(cache, key, readAt);
    if hit.Some? then (hit, cache)
    else if answer.None? then (None, cache)
    else (answer, CacheStore(cache, timeout, key, answer.value, storeAt))
  }

  class Service {
    const timeout: int
    var cache: Cache

    constructor (timeout: int)
      ensures this.timeout == timeout && cache == map[]
    {
      this.timeout, cache := timeout, map[];
    }

    /** `answer` is what the chain would say; `readAt` and `storeAt` are the clock readings. */
    method IsBotAllowed(key: Key, readAt: int, answer: Option<bool>, storeAt: int) returns (r: Option<bool>)
      modifies this`cache
      ensures var hit := key in old(cache) && readAt < old(cache)[key].expiresAt;
              && r == (if hit then Some(old(cache)[key].allowed) else answer)
              && cache == if hit || answer.None? || timeout <= 0 then old(cache)
                          else old(cache)[key := Val(answer.value, storeAt + timeout)]
      ensures (r, cache) == Lookup(old(cache), timeout, key, readAt, answer, storeAt)
    {
      if key in cache && readAt < cache[key].expiresAt {
        return Some(cache[key].allowed);
      }
      if answer.None? {
        return None;
      }
      if timeout > 0 {
        cache := cache[key := Val(answer.value, storeAt + timeout)];
      }
      return answer;
    }
  }

  // ---------- Concurrent lookups ----------

  /** A lookup that missed: when it began, and the chain's answer once given. */
  datatype Fetch =
    | Asking(key: Key, begun: int)
    | Answered(key: Key, begun: int, asked: int, allowed: bool)

  /** Where a cached value came from: the lookup that fetched it began, was answered and stored at these times. */
  datatype Origin = Origin(begun: int, asked: int, stored: int)

  /** An answer that was returned without error at time `at`; `fetch` is how long its lookup took to fetch it. */
  datatype Answer = Answer(key: Key, allowed: bool, at: int, asked: int, fetch: int)

  datatype State = State(
    now: int,
    cache: Cache,
    origins: map<Key, Origin>,
    lookups: map<nat, Fetch>,
    answers: seq<Answer>
  )

  datatype Label =
    | Advance(to: int)
    | Hit(key: Key)
    | Miss(pid: nat, key: Key)
    | Reply(pid: nat)
    | Fail(pid: nat)
    | Store(pid: nat)

  /** `chain` is what the chain answers about a key at a time. */
  function Step(chain: (Key, int) -> bool, timeout: int, s: State, l: Label): Option<State> {
    match l
    case Advance(to) => if to < s.now then None else Some(s.(now := to))
    case Hit(key) =>
      var hit := CacheHit(s.cache, key, s.now);
      if hit.None? || key !in s.origins then None
      else
        var o := s.origins[key];
        Some(s.(answers := s.answers + [Answer(key, hit.value, s.now, o.asked, o.stored - o.begun)]))
    case Miss(pid, key) =>
      if pid in s.lookups || CacheHit(s.cache, key, s.now).Some? then None
      else Some(s.(lookups := s.lookups[pid := Asking(key, s.now)]))
    case Reply(pid) =>
      if pid !in s.lookups || !s.lookups[pid].Asking? then None
      else
        var q := s.lookups[pid];
        Some(s.(lookups := s.lookups[pid := Answered(q.key, q.begun, s.now, chain(q.key, s.now))]))
    case Fail(pid) =>
      if pid !in s.lookups || !s.lookups[pid].Asking? then None else Some(s.(lookups := s.lookups - {pid}))
    case Store(pid) =>
      if pid !in s.lookups || !s.lookups[pid].Answered? then None
      else
        var q := s.lookups[pid];
        Some(s.(cache := CacheStore(s.cache, timeout, q.key, q.allowed, s.now),
                origins := if timeout > 0 then s.origins[q.key := Origin(q.begun, q.asked, s.now)] else s.origins,
                lookups := s.lookups - {pid},
                answers := s.answers + [Answer(q.key, q.allowed, s.now, q.asked, s.now - q.begun)]))
  }

  predicate Initial(s: State) {
    s.cache == map[] && s.origins == map[] && s.lookups == map[] && s.answers == []
  }

  predicate IsRun(chain: (Key, int) -> bool, timeout: int, states: seq<State>, labels: seq<Label>) {
    && |states| == |labels| + 1
    && Initial(states[0])
    && forall k {:trigger Step(chain, timeout, states[k], labels[k])} | 0 <= k < |labels| ::
         Step(chain, timeout, states[k], labels[k]) == Some(states[k + 1])
  }

  /** The answer is one the chain gave, at most `timeout` plus the time its lookup took ago. */
  predicate Fresh(chain: (Key, int) -> bool, timeout: int, a: Answer) {
    a.allowed == chain(a.key, a.asked) && a.asked <= a.at && a.fetch >= 0
    && (a.at - a.asked <= a.fetch || a.at - a.asked < timeout + a.fetch)
  }

  /** The value under a key is what the chain gave to the lookup that stored it. */
  predicate ValOk(chain: (Key, int) -> bool, timeout: int, now: int, key: Key, v: Val, o: Origin) {
    o.begun <= o.asked <= o.stored <= now && v == Val(chain(key, o.asked), o.stored + timeout)
  }

  predicate FetchOk(chain: (Key, int) -> bool, now: int, q: Fetch) {
    q.begun <= now && (q.Answered? ==> q.begun <= q.asked <= now && q.allowed == chain(q.key, q.asked))
  }

  predicate Invariant(chain: (Key, int) -> bool, timeout: int, s: State) {
    && s.cache.Keys == s.origins.Keys
    && (timeout <= 0 ==> s.cache == map[])
    && (forall key | key in s.cache && key in s.origins ::
          ValOk(chain, timeout, s.now, key, s.cache[key], s.origins[key]))
    && (forall pid | pid in s.lookups :: FetchOk(chain, s.now, s.lookups[pid]))
    && (forall a | a in s.answers :: Fresh(chain, timeout, a))
  }

  lemma StoreKeepsInvariant(chain: (Key, int) -> bool, timeout: int, s: State, pid: nat)
    requires Invariant(chain, timeout, s) && Step(chain, timeout, s, Store(pid)).Some?
    ensures Invariant(chain, timeout, Step(chain, timeout, s, Store(pid)).value)
  {
    assert FetchOk(chain, s.now, s.lookups[pid]);
  }

  lemma HitKeepsInvariant(chain: (Key, int) -> bool, timeout: int, s: State, key: Key)
    requires Invariant(chain, timeout, s) && Step(chain, timeout, s, Hit(key)).Some?
    ensures Invariant(chain, timeout, Step(chain, timeout, s, Hit(key)).value)
  {
    assert ValOk(chain, timeout, s.now, key, s.cache[key], s.origins[key]);
  }

  lemma AdvanceKeepsInvariant(chain: (Key, int) -> bool, timeout: int, s: State, to: int)
    requires Invariant(chain, timeout, s) && s.now <= to
    ensures Invariant(chain, timeout, s.(now := to))
  {
    forall key | key in s.cache && key in s.origins
      ensures ValOk(chain, timeout, to, key, s.cache[key], s.origins[key])
    {
      assert ValOk(chain, timeout, s.now, key, s.cache[key], s.origins[key]);
    }
    forall pid | pid in s.lookups
      ensures FetchOk(chain, to, s.lookups[pid])
    {
      assert FetchOk(chain, s.now, s.lookups[pid]);
    }
  }

  /** A miss, the chain's answer to it, or its failure. */
  lemma FetchKeepsInvariant(chain: (Key, int) -> bool, timeout: int, s: State, l: Label)
    requires Invariant(chain, timeout, s) && Step(chain, timeout, s, l).Some? && (l.Miss? || l.Reply? || l.Fail?)
    ensures Invariant(chain, timeout, Step(chain, timeout, s, l).value)
  {
    if l.Reply? {
      assert FetchOk(chain, s.now, s.lookups[l.pid]);
    }
  }

  lemma StepKeepsInvariant(chain: (Key, int) -> bool, timeout: int, s: State, l: Label)
    requires Invariant(chain, timeout, s) && Step(chain, timeout, s, l).Some?
    ensures Invariant(chain, timeout, Step(chain, timeout, s, l).value)
  {
    match l
    case Advance(to) => AdvanceKeepsInvariant(chain, timeout, s, to);
    case Hit(key) => HitKeepsInvariant(chain, timeout, s, key);
    case Store(pid) => StoreKeepsInvariant(chain, timeout, s, pid);
    case _ => FetchKeepsInvariant(chain, timeout, s, l);
  }

  lemma {:induction false} RunKeepsInvariant(chain: (Key, int) -> bool, timeout: int, states: seq<State>,
                                             labels: seq<Label>, k: nat)
    requires IsRun(chain, timeout, states, labels) && k < |states|
    ensures Invariant(chain, timeout, states[k])
  {
    if k > 0 {
      RunKeepsInvariant(chain, timeout, states, labels, k - 1);
      assert Step(chain, timeout, states[k - 1], labels[k - 1]) == Some(states[k - 1 + 1]);
      StepKeepsInvariant(chain, timeout, states[k - 1], labels[k - 1]);
    }
  }

  /**
   * Bounded staleness. With any number of concurrent lookups storing in any order, every answer returned without error
   * is one the chain gave no longer ago than the cache timeout plus the duration of the lookup that fetched it; and
   * with a timeout that is not positive nothing is ever cached.
   */
  lemma AnswersBoundedStale(chain: (Key, int) -> bool, timeout: int, states: seq<State>, labels: seq<Label>, k: nat,
                            a: Answer)
    requires IsRun(chain, timeout, states, labels) && k < |states| && a in states[k].answers
    ensures a.allowed == chain(a.key, a.asked)
    ensures 0 <= a.at - a.asked <= (if timeout > 0 then timeout else 0) + a.fetch
    ensures timeout <= 0 ==> states[k].cache == map[]
  {
    RunKeepsInvariant(chain, timeout, states, labels, k);
    assert Fresh(chain, timeout, a);
  }

  // ---------- What is stored answers ----------

  /** The step stores an answer about the key. */
  predicate Stores(s: State, l: Label, key: Key) {
    l.Store? && l.pid in s.lookups && s.lookups[l.pid].key == key
  }

  /** The key's entry has this value, and is there to be hit. */
  predicate Holds(s: State, key: Key, v: Val) {
    key in s.cache && key in s.origins && s.cache[key] == v
  }

  lemma HoldsUntilStored(chain: (Key, int) -> bool, timeout: int, s: State, l: Label, key: Key, v: Val)
    requires Step(chain, timeout, s, l).Some? && Holds(s, key, v) && !Stores(s, l, key)
    ensures Holds(Step(chain, timeout, s, l).value, key, v)
  {
  }

  lemma {:induction false} StoredHolds(chain: (Key, int) -> bool, timeout: int, states: seq<State>, labels: seq<Label>,
                                       i: nat, j: nat, pid: nat)
    requires IsRun(chain, timeout, states, labels) && i < j < |states| && timeout > 0 && labels[i] == Store(pid)
    requires pid in states[i].lookups
    requires forall k | i < k < j :: !Stores(states[k], labels[k], states[i].lookups[pid].key)
    ensures var q := states[i].lookups[pid];
            q.Answered? && Holds(states[j], q.key, Val(q.allowed, states[i].now + timeout))
  {
    var k := j - 1;
    assert Step(chain, timeout, states[k], labels[k]) == Some(states[k + 1]);
    if i < k {
      StoredHolds(chain, timeout, states, labels, i, k, pid);
      HoldsUntilStored(chain, timeout, states[k], labels[k], states[i].lookups[pid].key,
                       Val(states[i].lookups[pid].allowed, states[i].now + timeout));
    }
  }

  /**
   * A cached answer is used until it expires: from the moment it is stored and for the whole timeout, unless another
   * answer about the same key is stored meanwhile, every lookup of the key hits with that answer and none asks the chain;
   * once the timeout is over none hits.
   */
  lemma CachedUntilExpiry(chain: (Key, int) -> bool, timeout: int, states: seq<State>, labels: seq<Label>, i: nat, j: nat,
                          pid: nat, other: nat)
    requires IsRun(chain, timeout, states, labels) && i < j < |states| && timeout > 0 && labels[i] == Store(pid)
    requires forall k | i < k < j && pid in states[i].lookups ::
               !Stores(states[k], labels[k], states[i].lookups[pid].key)
    requires other !in states[j].lookups
    ensures pid in states[i].lookups && states[i].lookups[pid].Answered?
    ensures var q := states[i].lookups[pid];
            if states[j].now < states[i].now + timeout then
              var hit := Step(chain, timeout, states[j], Hit(q.key));
              && hit.Some? && |hit.value.answers| == |states[j].answers| + 1
              && hit.value.answers[|states[j].answers|].allowed == q.allowed
              && Step(chain, timeout, states[j], Miss(other, q.key)).None?
            else
              && Step(chain, timeout, states[j], Hit(q.key)).None?
              && Step(chain, timeout, states[j], Miss(other, q.key)).Some?
  {
    assert Step(chain, timeout, states[i], labels[i]) == Some(states[i + 1]);
    StoredHolds(chain, timeout, states, labels, i, j, pid);
  }

  // ---------- A lookup by itself ----------

  function After(chain: (Key, int) -> bool, timeout: int, s: State, labels: seq<Label>): Option<State>
    decreases |labels|
  {
    if labels == [] then Some(s)
    else
      var next := Step(chain, timeout, s, labels[0]);
      if next.None? then None else After(chain, timeout, next.value, labels[1..])
  }

  lemma StepThen(chain: (Key, int) -> bool, timeout: int, s: State, l: Label, rest: seq<Label>)
    ensures After(chain, timeout, s, [l] + rest) ==
            var next := Step(chain, timeout, s, l);
            if next.None? then None else After(chain, timeout, next.value, rest)
  {
    assert ([l] + rest)[1..] == rest;
  }

  /** The steps of a lookup that nothing else comes between; the chain answers, or fails to, at `askedAt`. */
  function LookupLabels(hit: bool, pid: nat, key: Key, askedAt: int, answered: bool, storeAt: int): seq<Label> {
    if hit then [Hit(key)] + []
    else
      [Miss(pid, key)] + ([Advance(askedAt)]
                          + if answered then [Reply(pid)] + ([Advance(storeAt)] + ([Store(pid)] + []))
                            else [Fail(pid)] + [])
  }

  /** A lookup that missed leaves nothing behind but what it stores. */
  lemma FetchIsRun(chain: (Key, int) -> bool, timeout: int, s: State, pid: nat, key: Key, begun: int, storeAt: int)
    requires pid !in s.lookups && s.now <= storeAt
    ensures var asking := s.(lookups := s.lookups[pid := Asking(key, begun)]);
            var end := After(chain, timeout, asking, [Reply(pid)] + ([Advance(storeAt)] + ([Store(pid)] + [])));
            && end.Some? && end.value.lookups == s.lookups
            && end.value.cache == CacheStore(s.cache, timeout, key, chain(key, s.now), storeAt)
            && end.value.answers == s.answers + [Answer(key, chain(key, s.now), storeAt, s.now, storeAt - begun)]
  {
    var asking := s.(lookups := s.lookups[pid := Asking(key, begun)]);
    var answered := Answered(key, begun, s.now, chain(key, s.now));
    StepThen(chain, timeout, asking, Reply(pid), [Advance(storeAt)] + ([Store(pid)] + []));
    var s1 := asking.(lookups := asking.lookups[pid := answered]);
    StepThen(chain, timeout, s1, Advance(storeAt), [Store(pid)] + []);
    StepThen(chain, timeout, s1.(now := storeAt), Store(pid), []);
    assert s1.lookups - {pid} == s.lookups;
  }

  /**
   * IsBotAllowed is a run of the protocol: with the chain answering as it does when asked, the lookup returns what its
   * last step records, and leaves the cache as its steps do.
   */
  lemma LookupIsRun(chain: (Key, int) -> bool, timeout: int, s: State, pid: nat, key: Key, askedAt: int, answered: bool,
                    storeAt: int)
    requires Invariant(chain, timeout, s) && pid !in s.lookups && s.now <= askedAt <= storeAt
    ensures var hit := CacheHit(s.cache, key, s.now).Some?;
            var (r, cache) := Lookup(s.cache, timeout, key, s.now, if answered then Some(chain(key, askedAt)) else None,
                                     storeAt);
            var end := After(chain, timeout, s, LookupLabels(hit, pid, key, askedAt, answered, storeAt));
            && end.Some? && end.value.cache == cache && end.value.lookups == s.lookups
            && (r.None? ==> end.value.answers == s.answers)
            && (r.Some? ==>
                  && |end.value.answers| == |s.answers| + 1 && end.value.answers[..|s.answers|] == s.answers
                  && var a := end.value.answers[|s.answers|];
                     a.key == key && a.allowed == r.value && a.at == if hit then s.now else storeAt)
  {
    if CacheHit(s.cache, key, s.now).Some? {
      StepThen(chain, timeout, s, Hit(key), []);
    } else {
      var asking := s.(lookups := s.lookups[pid := Asking(key, s.now)]);
      var rest := if answered then [Reply(pid)] + ([Advance(storeAt)] + ([Store(pid)] + [])) else [Fail(pid)] + [];
      StepThen(chain, timeout, s, Miss(pid, key), [Advance(askedAt)] + rest);
      StepThen(chain, timeout, asking, Advance(askedAt), rest);
      if answered {
        FetchIsRun(chain, timeout, s.(now := askedAt), pid, key, s.now, storeAt);
      } else {
        StepThen(chain, timeout, asking.(now := askedAt), Fail(pid), []);
        assert asking.lookups - {pid} == s.lookups;
      }
    }
  }
}
