/**
 Delivery of merchant webhooks: a first attempt, then retries from a Redis sorted set that any
 number of workers poll. Every Redis command and every HTTP delivery is one step; steps of
 different threads interleave freely. Each thread is either free, with the rest of a polled
 batch to go through, or busy with one webhook.
 */
module WebhookProtocol {
  import opened Text
  import Systems

  /** `merchant:order` */
  type Key = string

  const MAX_ATTEMPTS: nat := 5
  const RETRY_BATCH: nat := 10
  const DATA_TTL := 86_400_000_000_000
  const RETRY_DELAYS: seq<int> :=
    [10_000_000_000, 30_000_000_000, 90_000_000_000, 270_000_000_000, 810_000_000_000]

  /** The clock counts nanoseconds; scores of the retry queue are whole seconds. */
  function Unix(t: int): int {
    t / 1_000_000_000
  }

  lemma UnixOrder(x: int, y: int)
    ensures x <= y ==> Unix(x) <= Unix(y)
    ensures Unix(x) <= Unix(y) ==> x < y + 1_000_000_000
  {}

  /** The payload kept for a retry: attempts made so far, and when Redis forgets it. */
  datatype Stored = Stored(attempt: nat, expiresAt: int)

  /** What a busy thread does next. `attempt` is the counter carried in the payload. */
  datatype Job =
    | Loading
    | Delivering(attempt: nat, retry: bool)
    | Storing(attempt: nat, due: int)
    | Enqueueing(attempt: nat, due: int)
    | RecordingExhausted(attempt: nat)
    | DroppingExhausted
    | Clearing(attempt: nat)
    | RecordingDelivered(attempt: nat)

  datatype Thread =
    | Free(todo: seq<Key>)
    | Busy(key: Key, job: Job, todo: seq<Key>)

  /** What has happened to one webhook: deliveries made, deliveries failed, steps spent on it. */
  datatype History = History(deliveries: nat, failures: nat, steps: nat)

  datatype State = State(
    now: int,
    data: map<Key, Stored>,
    queue: map<Key, int>,
    delivered: map<Key, nat>,
    exhausted: map<Key, nat>,
    threads: seq<Thread>,
    log: map<Key, History>,
    failedAt: map<Key, int>,
    lost: set<Key>)

  datatype Action =
    | Tick(nanos: nat)
    | Send(t: nat, key: Key)
    | Poll(t: nat, asOf: int, batch: seq<Key>)
    | Claim(t: nat)
    | Load(t: nat)
    | Deliver(t: nat, ok: bool)
    | Advance(t: nat)

  // ------------------------------------------------------------------
  // The steps
  // ------------------------------------------------------------------

  /** A possible answer of ZRANGEBYSCORE -inf asOf LIMIT 0 10: the due keys of lowest score. */
  predicate IsDueBatch(queue: map<Key, int>, asOf: int, batch: seq<Key>) {
    && |batch| <= RETRY_BATCH
    && (forall i :: 0 <= i < |batch| ==> batch[i] in queue && queue[batch[i]] <= asOf)
    && (forall i, j :: 0 <= i < j < |batch| ==> batch[i] != batch[j] && queue[batch[i]] <= queue[batch[j]])
    && (forall k :: k in queue && queue[k] <= asOf && k !in batch ==>
          |batch| == RETRY_BATCH && forall i :: 0 <= i < |batch| ==> queue[batch[i]] <= queue[k])
  }

  predicate Enabled(s: State, a: Action) {
    match a
    case Tick(_) => true
    case Send(t, k) => t < |s.threads| && s.threads[t] == Free([]) && k !in s.log
    case Poll(t, asOf, batch) =>
      t < |s.threads| && s.threads[t] == Free([]) && asOf <= Unix(s.now) && IsDueBatch(s.queue, asOf, batch)
    case Claim(t) => t < |s.threads| && s.threads[t].Free? && s.threads[t].todo != []
    case Load(t) => t < |s.threads| && s.threads[t].Busy? && s.threads[t].job.Loading?
    case Deliver(t, _) =>
      t < |s.threads| && s.threads[t].Busy? && s.threads[t].job.Delivering? && s.threads[t].key in s.log
    case Advance(t) =>
      t < |s.threads| && s.threads[t].Busy? && !s.threads[t].job.Loading? && !s.threads[t].job.Delivering?
  }

  function Counted(log: map<Key, History>, k: Key): map<Key, History> {
    if k in log then log[k := log[k].(steps := log[k].steps + 1)] else log
  }

  /** The command a busy thread issues when neither the payload nor the merchant has to answer. */
  function AdvanceJob(s: State, t: nat): State
    requires t < |s.threads| && s.threads[t].Busy?
    requires !s.threads[t].job.Loading? && !s.threads[t].job.Delivering?
  {
    var Busy(k, job, todo) := s.threads[t];
    var s1 := s.(log := Counted(s.log, k));
    match job
    case Storing(a, due) =>
      s1.(data := s.data[k := Stored(a, s.now + DATA_TTL)],
          threads := s.threads[t := Busy(k, Enqueueing(a, due), todo)])
    case Enqueueing(a, due) =>
      s1.(queue := s.queue[k := due], threads := s.threads[t := Free(todo)])
    case RecordingExhausted(a) =>
      s1.(exhausted := s.exhausted[k := a], threads := s.threads[t := Busy(k, DroppingExhausted, todo)])
    case DroppingExhausted =>
      s1.(data := s.data - {k}, threads := s.threads[t := Free(todo)])
    case Clearing(a) =>
      s1.(data := s.data - {k}, threads := s.threads[t := Busy(k, RecordingDelivered(a), todo)])
    case RecordingDelivered(a) =>
      s1.(delivered := s.delivered[k := a + 1], threads := s.threads[t := Free(todo)])
  }

  /** The thread's next job once the merchant has answered. */
  function AfterDelivery(now: int, attempt: nat, retry: bool, ok: bool): Job {
    if ok then (if retry then Clearing(attempt) else RecordingDelivered(attempt))
    else if attempt + 1 >= MAX_ATTEMPTS then RecordingExhausted(attempt + 1)
    else Storing(attempt + 1, Unix(now + RETRY_DELAYS[attempt]))
  }

  function Apply(s: State, a: Action): State
    requires Enabled(s, a)
  {
    match a
    case Tick(nanos) => s.(now := s.now + nanos)
    case Send(t, k) =>
      s.(threads := s.threads[t := Busy(k, Delivering(0, false), [])], log := s.log[k := History(0, 0, 1)])
    case Poll(t, _, batch) => s.(threads := s.threads[t := Free(batch)])
    case Claim(t) =>
      var k, rest := s.threads[t].todo[0], s.threads[t].todo[1..];
      if k in s.queue then
        s.(queue := s.queue - {k}, threads := s.threads[t := Busy(k, Loading, rest)], log := Counted(s.log, k))
      else s.(threads := s.threads[t := Free(rest)])
    case Load(t) =>
      var Busy(k, _, todo) := s.threads[t];
      var s1 := s.(log := Counted(s.log, k));
      if k in s.data && s.now < s.data[k].expiresAt then
        s1.(threads := s.threads[t := Busy(k, Delivering(s.data[k].attempt, true), todo)])
      else s1.(threads := s.threads[t := Free(todo)], lost := s.lost + {k})
    case Deliver(t, ok) =>
      var Busy(k, job, todo) := s.threads[t];
      var h := s.log[k];
      var h' := History(h.deliveries + 1, if ok then h.failures else h.failures + 1, h.steps + 1);
      s.(log := s.log[k := h'], failedAt := if ok then s.failedAt else s.failedAt[k := s.now],
         threads := s.threads[t := Busy(k, AfterDelivery(s.now, job.attempt, job.retry, ok), todo)])
    case Advance(t) => AdvanceJob(s, t)
  }

  function Next(s: State, a: Action): Option<State> {
    if Enabled(s, a) then Some(Apply(s, a)) else None
  }

  ghost predicate Runs(s: State, actions: seq<Action>, s': State) {
    Systems.Run(Next, s, actions, s')
  }

  /** Nothing sent yet, all threads free. */
  ghost predicate Initial(s: State) {
    && s.data == map[] && s.queue == map[] && s.delivered == map[] && s.exhausted == map[]
    && s.log == map[] && s.failedAt == map[] && s.lost == {}
    && forall t :: 0 <= t < |s.threads| ==> s.threads[t] == Free([])
  }

  // ------------------------------------------------------------------
  // The invariant
  // ------------------------------------------------------------------

  predicate IsOn(t: Thread, k: Key) {
    t.Busy? && t.key == k
  }

  /** Thread `t` is the one that must bring webhook `k` further. */
  predicate Holds(s: State, t: nat, k: Key) {
    t < |s.threads| && IsOn(s.threads[t], k) && !s.threads[t].job.DroppingExhausted?
  }

  predicate Settled(s: State, k: Key) {
    k in s.delivered || k in s.exhausted || k in s.lost
  }

  /** What a thread's next job says about the webhook's past: failures, deliveries and steps so far. */
  ghost predicate JobFits(s: State, k: Key, job: Job) {
    && k in s.log
    && match job
       case Loading =>
         k in s.data && 1 <= s.data[k].attempt <= 4
         && var a := s.data[k].attempt; s.log[k] == History(a, a, 5 * a)
       case Delivering(a, retry) =>
         a <= 4 && retry == (a > 0) && s.log[k] == History(a, a, if a == 0 then 1 else 5 * a + 1)
       case Storing(a, _) => 1 <= a <= 4 && s.log[k] == History(a, a, 5 * a - 3)
       case Enqueueing(a, _) =>
         1 <= a <= 4 && s.log[k] == History(a, a, 5 * a - 2) && k in s.data && s.data[k].attempt == a
       case RecordingExhausted(a) => a == 5 && s.log[k] == History(5, 5, 22)
       case DroppingExhausted => k in s.exhausted && s.log[k] == History(5, 5, 23)
       case Clearing(a) => 1 <= a <= 4 && s.log[k] == History(a + 1, a, 5 * a + 2)
       case RecordingDelivered(a) => a <= 4 && s.log[k] == History(a + 1, a, if a == 0 then 2 else 5 * a + 3)
  }

  ghost predicate QueuedFits(s: State, k: Key) {
    && k in s.log && k in s.data && 1 <= s.data[k].attempt <= 4
    && var a := s.data[k].attempt; s.log[k] == History(a, a, 5 * a - 1)
  }

  ghost predicate SettledFits(s: State, k: Key) {
    && k in s.log
    && s.log[k].steps <= 24
    && (k in s.delivered ==>
          && k !in s.exhausted && k !in s.lost
          && 1 <= s.delivered[k] <= 5
          && s.log[k].deliveries == s.delivered[k] && s.log[k].failures == s.delivered[k] - 1)
    && (k in s.exhausted ==> k !in s.lost && s.exhausted[k] == 5 && s.log[k].deliveries == 5 && s.log[k].failures == 5)
    && (k in s.lost ==> 1 <= s.log[k].deliveries <= 4 && s.log[k].failures == s.log[k].deliveries)
  }

  /** Webhook `k`, if sent, is in exactly one place: queued, held by exactly one thread, or settled. */
  ghost predicate KeyInv(s: State, k: Key) {
    && (k in s.queue ==> QueuedFits(s, k) && !Settled(s, k))
    && (forall t :: 0 <= t < |s.threads| && IsOn(s.threads[t], k) ==>
          JobFits(s, k, s.threads[t].job) && k !in s.queue
          && (s.threads[t].job.DroppingExhausted? || !Settled(s, k)))
    && (forall t, u ::
          0 <= t < |s.threads| && 0 <= u < |s.threads| && IsOn(s.threads[t], k) && IsOn(s.threads[u], k) ==> t == u)
    && (Settled(s, k) ==> SettledFits(s, k))
    && (k in s.log && k !in s.queue && !Settled(s, k) ==> exists t :: 0 <= t < |s.threads| && Holds(s, t, k))
  }

  ghost predicate Inv(s: State) {
    forall k :: KeyInv(s, k)
  }

  lemma InitialInv(s: State)
    requires Initial(s)
    ensures Inv(s)
  {}

  /** `k` looks the same in both states, except for threads that are not on it. */
  ghost predicate SameFor(s: State, s': State, k: Key) {
    && (k in s.queue <==> k in s'.queue) && (k in s.queue ==> s.queue[k] == s'.queue[k])
    && (k in s.data <==> k in s'.data) && (k in s.data ==> s.data[k] == s'.data[k])
    && (k in s.delivered <==> k in s'.delivered) && (k in s.delivered ==> s.delivered[k] == s'.delivered[k])
    && (k in s.exhausted <==> k in s'.exhausted) && (k in s.exhausted ==> s.exhausted[k] == s'.exhausted[k])
    && (k in s.log <==> k in s'.log) && (k in s.log ==> s.log[k] == s'.log[k])
    && (k in s.failedAt <==> k in s'.failedAt) && (k in s.failedAt ==> s.failedAt[k] == s'.failedAt[k])
    && (k in s.lost <==> k in s'.lost)
    && |s'.threads| == |s.threads|
    && forall t :: 0 <= t < |s.threads| ==>
         s'.threads[t] == s.threads[t] || (!IsOn(s.threads[t], k) && !IsOn(s'.threads[t], k))
  }

  lemma OtherKeysKept(s: State, s': State, k: Key)
    requires KeyInv(s, k) && SameFor(s, s', k)
    ensures KeyInv(s', k)
  {
    if k in s.log && k !in s.queue && !Settled(s, k) {
      var t :| 0 <= t < |s.threads| && Holds(s, t, k);
      assert Holds(s', t, k);
    }
  }

  /** The key an action works on; polls, ticks and claims of an already claimed key work on none. */
  function KeyOf(s: State, a: Action): (k: Key)
    requires Enabled(s, a)
  {
    match a
    case Tick(_) => ""
    case Send(_, k) => k
    case Poll(_, _, _) => ""
    case Claim(t) => s.threads[t].todo[0]
    case Load(t) => s.threads[t].key
    case Deliver(t, _) => s.threads[t].key
    case Advance(t) => s.threads[t].key
  }

  lemma OtherKeysSameStoring(s: State, t: nat, k: Key)
    requires t < |s.threads| && s.threads[t].Busy? && s.threads[t].key != k
    requires s.threads[t].job.Storing? || s.threads[t].job.Enqueueing?
    ensures SameFor(s, AdvanceJob(s, t), k)
  {}

  lemma OtherKeysSameExhausted(s: State, t: nat, k: Key)
    requires t < |s.threads| && s.threads[t].Busy? && s.threads[t].key != k
    requires s.threads[t].job.RecordingExhausted? || s.threads[t].job.DroppingExhausted?
    ensures SameFor(s, AdvanceJob(s, t), k)
  {}

  lemma OtherKeysSameDelivered(s: State, t: nat, k: Key)
    requires t < |s.threads| && s.threads[t].Busy? && s.threads[t].key != k
    requires s.threads[t].job.Clearing? || s.threads[t].job.RecordingDelivered?
    ensures SameFor(s, AdvanceJob(s, t), k)
  {}

  lemma OtherKeysSameAdvance(s: State, t: nat, k: Key)
    requires t < |s.threads| && s.threads[t].Busy? && s.threads[t].key != k
    requires !s.threads[t].job.Loading? && !s.threads[t].job.Delivering?
    ensures SameFor(s, AdvanceJob(s, t), k)
  {
    match s.threads[t].job
    case Storing(_, _) => OtherKeysSameStoring(s, t, k);
    case Enqueueing(_, _) => OtherKeysSameStoring(s, t, k);
    case RecordingExhausted(_) => OtherKeysSameExhausted(s, t, k);
    case DroppingExhausted => OtherKeysSameExhausted(s, t, k);
    case Clearing(_) => OtherKeysSameDelivered(s, t, k);
    case RecordingDelivered(_) => OtherKeysSameDelivered(s, t, k);
  }

  lemma OtherKeysSameClaim(s: State, a: Action, k: Key)
    requires Enabled(s, a) && a.Claim? && k != KeyOf(s, a)
    ensures SameFor(s, Apply(s, a), k)
  {}

  lemma OtherKeysSameLoad(s: State, a: Action, k: Key)
    requires Enabled(s, a) && a.Load? && k != KeyOf(s, a)
    ensures SameFor(s, Apply(s, a), k)
  {}

  lemma OtherKeysSameDeliver(s: State, a: Action, k: Key)
    requires Enabled(s, a) && a.Deliver? && k != KeyOf(s, a)
    ensures SameFor(s, Apply(s, a), k)
  {}

  lemma OtherKeysSame(s: State, a: Action, k: Key)
    requires Enabled(s, a) && (k != KeyOf(s, a) || a.Tick? || a.Poll?)
    ensures SameFor(s, Apply(s, a), k)
  {
    match a
    case Tick(_) =>
    case Send(_, _) =>
    case Poll(_, _, _) =>
    case Claim(_) => OtherKeysSameClaim(s, a, k);
    case Load(_) => OtherKeysSameLoad(s, a, k);
    case Deliver(_, _) => OtherKeysSameDeliver(s, a, k);
    case Advance(t) => OtherKeysSameAdvance(s, t, k);
  }

  lemma SendKeeps(s: State, a: Action)
    requires Inv(s) && Enabled(s, a) && a.Send?
    ensures KeyInv(Apply(s, a), a.key)
  {
    assert KeyInv(s, a.key);
    assert Holds(Apply(s, a), a.t, a.key);
  }

  lemma ClaimKeeps(s: State, a: Action)
    requires Inv(s) && Enabled(s, a) && a.Claim?
    ensures KeyInv(Apply(s, a), KeyOf(s, a))
  {
    var k := KeyOf(s, a);
    assert KeyInv(s, k);
    if k in s.queue {
      assert Holds(Apply(s, a), a.t, k);
    } else {
      OtherKeysKept(s, Apply(s, a), k);
    }
  }

  lemma LoadKeeps(s: State, a: Action)
    requires Inv(s) && Enabled(s, a) && a.Load?
    ensures KeyInv(Apply(s, a), KeyOf(s, a))
  {
    var k := KeyOf(s, a);
    assert KeyInv(s, k);
    if s.now < s.data[k].expiresAt {
      assert Holds(Apply(s, a), a.t, k);
    }
  }

  lemma DeliverKeeps(s: State, a: Action)
    requires Inv(s) && Enabled(s, a) && a.Deliver?
    ensures KeyInv(Apply(s, a), KeyOf(s, a))
  {
    var k := KeyOf(s, a);
    assert KeyInv(s, k);
    assert Holds(Apply(s, a), a.t, k);
  }

  lemma StoringKeeps(s: State, t: nat)
    requires t < |s.threads| && s.threads[t].Busy? && KeyInv(s, s.threads[t].key)
    requires s.threads[t].job.Storing? || s.threads[t].job.Enqueueing?
    ensures KeyInv(AdvanceJob(s, t), s.threads[t].key)
  {
    if s.threads[t].job.Storing? {
      assert Holds(AdvanceJob(s, t), t, s.threads[t].key);
    }
  }

  lemma ExhaustedKeeps(s: State, t: nat)
    requires t < |s.threads| && s.threads[t].Busy? && KeyInv(s, s.threads[t].key)
    requires s.threads[t].job.RecordingExhausted? || s.threads[t].job.DroppingExhausted?
    ensures KeyInv(AdvanceJob(s, t), s.threads[t].key)
  {}

  lemma DeliveredKeeps(s: State, t: nat)
    requires t < |s.threads| && s.threads[t].Busy? && KeyInv(s, s.threads[t].key)
    requires s.threads[t].job.Clearing? || s.threads[t].job.RecordingDelivered?
    ensures KeyInv(AdvanceJob(s, t), s.threads[t].key)
  {
    if s.threads[t].job.Clearing? {
      assert Holds(AdvanceJob(s, t), t, s.threads[t].key);
    }
  }

  lemma AdvanceKeeps(s: State, t: nat)
    requires t < |s.threads| && s.threads[t].Busy? && KeyInv(s, s.threads[t].key)
    requires !s.threads[t].job.Loading? && !s.threads[t].job.Delivering?
    ensures KeyInv(AdvanceJob(s, t), s.threads[t].key)
  {
    match s.threads[t].job
    case Storing(_, _) => StoringKeeps(s, t);
    case Enqueueing(_, _) => StoringKeeps(s, t);
    case RecordingExhausted(_) => ExhaustedKeeps(s, t);
    case DroppingExhausted => ExhaustedKeeps(s, t);
    case Clearing(_) => DeliveredKeeps(s, t);
    case RecordingDelivered(_) => DeliveredKeeps(s, t);
  }

  lemma StepKeeps(s: State, a: Action)
    requires Inv(s) && Enabled(s, a)
    ensures Inv(Apply(s, a))
  {
    forall k
      ensures KeyInv(Apply(s, a), k)
    {
      assert KeyInv(s, k);
      if k != KeyOf(s, a) || a.Tick? || a.Poll? {
        OtherKeysSame(s, a, k);
        OtherKeysKept(s, Apply(s, a), k);
      } else {
        match a
        case Send(_, _) => SendKeeps(s, a);
        case Claim(_) => ClaimKeeps(s, a);
        case Load(_) => LoadKeeps(s, a);
        case Deliver(_, _) => DeliverKeeps(s, a);
        case Advance(t) => AdvanceKeeps(s, t);
      }
    }
  }

  lemma {:induction false} RunKeeps(s: State, actions: seq<Action>, s': State)
    requires Inv(s) && Runs(s, actions, s')
    ensures Inv(s')
    decreases |actions|
  {
    if actions != [] {
      StepKeeps(s, actions[0]);
      RunKeeps(Apply(s, actions[0]), actions[1..], s');
    }
  }

  // ------------------------------------------------------------------
  // What holds in every run
  // ------------------------------------------------------------------

  ghost predicate Reachable(s: State) {
    exists start, actions :: Initial(start) && Runs(start, actions, s)
  }

  lemma ReachableInv(s: State)
    requires Reachable(s)
    ensures Inv(s)
  {
    var start, actions :| Initial(start) && Runs(start, actions, s);
    InitialInv(start);
    RunKeeps(start, actions, s);
  }

  /** How many of a run's steps are deliveries of `k` that the merchant answered with `ok`. */
  ghost function Deliveries(s: State, actions: seq<Action>, k: Key, ok: bool): nat
    decreases |actions|
  {
    if actions == [] || !Enabled(s, actions[0]) then 0
    else
      (if actions[0].Deliver? && actions[0].ok == ok && s.threads[actions[0].t].key == k then 1 else 0)
      + Deliveries(Apply(s, actions[0]), actions[1..], k, ok)
  }

  /** The history kept for a webhook counts exactly the delivery steps of the run. */
  lemma {:induction false} HistoryCounts(s: State, actions: seq<Action>, s': State, k: Key)
    requires Runs(s, actions, s') && k in s.log
    ensures k in s'.log
    ensures s'.log[k].failures == s.log[k].failures + Deliveries(s, actions, k, false)
    ensures s'.log[k].deliveries
         == s.log[k].deliveries + Deliveries(s, actions, k, false) + Deliveries(s, actions, k, true)
    decreases |actions|
  {
    if actions != [] {
      var next := Apply(s, actions[0]);
      HistoryStep(s, actions[0], k);
      HistoryCounts(next, actions[1..], s', k);
    }
  }

  lemma HistoryStep(s: State, a: Action, k: Key)
    requires Enabled(s, a) && k in s.log
    ensures k in Apply(s, a).log
    ensures var h, h' := s.log[k], Apply(s, a).log[k];
            if a.Deliver? && s.threads[a.t].key == k
            then h'.deliveries == h.deliveries + 1 && h'.failures == h.failures + (if a.ok then 0 else 1)
            else h'.deliveries == h.deliveries && h'.failures == h.failures
  {
    if a.Advance? {
      AdvanceLogs(s, a.t);
    }
  }

  lemma AdvanceLogs(s: State, t: nat)
    requires t < |s.threads| && s.threads[t].Busy?
    requires !s.threads[t].job.Loading? && !s.threads[t].job.Delivering?
    ensures AdvanceJob(s, t).log == Counted(s.log, s.threads[t].key)
  {
    match s.threads[t].job
    case Storing(_, _) =>
    case Enqueueing(_, _) =>
    case RecordingExhausted(_) =>
    case DroppingExhausted =>
    case Clearing(_) =>
    case RecordingDelivered(_) =>
  }

  /** In any run, from the moment it is sent, a webhook is delivered at most five times, and succeeds at most once. */
  lemma AtMostFiveDeliveries(s: State, actions: seq<Action>, s': State, k: Key)
    requires Reachable(s) && k !in s.log && Runs(s, actions, s')
    requires actions != [] && actions[0].Send? && actions[0].key == k
    ensures Deliveries(s, actions, k, true) <= 1
    ensures Deliveries(s, actions, k, false) + Deliveries(s, actions, k, true) <= 5
    ensures k in s'.exhausted ==> Deliveries(s, actions, k, false) == 5 && Deliveries(s, actions, k, true) == 0
    ensures k in s'.delivered ==> Deliveries(s, actions, k, true) == 1
  {
    ReachableInv(s);
    var next := Apply(s, actions[0]);
    HistoryCounts(next, actions[1..], s', k);
    StepKeeps(s, actions[0]);
    RunKeeps(next, actions[1..], s');
    PlaceOf(s', k);
  }

  /** A sent webhook is queued, held by one thread, or settled in one way, and its history is bounded. */
  lemma PlaceOf(s: State, k: Key)
    requires Inv(s) && k in s.log
    ensures k in s.queue || Settled(s, k) || exists t :: 0 <= t < |s.threads| && Holds(s, t, k)
    ensures s.log[k].failures <= s.log[k].deliveries <= s.log[k].failures + 1 && s.log[k].deliveries <= 5
    ensures s.log[k].steps <= 24
    ensures k in s.exhausted ==> s.log[k].failures == s.log[k].deliveries == 5
    ensures k in s.delivered ==> s.log[k].deliveries == s.log[k].failures + 1
  {
    assert KeyInv(s, k);
    if k in s.queue {
    } else if Settled(s, k) {
    } else {
      var t :| 0 <= t < |s.threads| && Holds(s, t, k);
      assert JobFits(s, k, s.threads[t].job);
    }
  }

  /** No two threads deliver the same webhook at once, and none delivers one that is queued or settled. */
  lemma OneDeliveryInFlight(s: State, k: Key, t: nat, u: nat)
    requires Reachable(s) && t < |s.threads| && u < |s.threads|
    requires IsOn(s.threads[t], k) && s.threads[t].job.Delivering?
    requires IsOn(s.threads[u], k)
    ensures t == u
    ensures k !in s.queue && !Settled(s, k)
  {
    ReachableInv(s);
    assert KeyInv(s, k);
  }

  /** The payload of a queued webhook is in Redis with an attempt count of 1 to 4, the failures so far. */
  lemma QueuedPayload(s: State, k: Key)
    requires Reachable(s) && k in s.queue
    ensures k in s.data && 1 <= s.data[k].attempt <= 4
    ensures k in s.log && s.log[k].failures == s.log[k].deliveries == s.data[k].attempt
  {
    ReachableInv(s);
    assert KeyInv(s, k);
  }

  /** Exhausted means five failures: the receipt is there, or its writer is on its way. */
  lemma ExhaustedIffFiveFailed(s: State, k: Key)
    requires Reachable(s) && k in s.log
    ensures s.log[k].failures == 5 <==>
            k in s.exhausted
            || exists t :: 0 <= t < |s.threads| && IsOn(s.threads[t], k) && s.threads[t].job.RecordingExhausted?
    ensures !(k in s.delivered && k in s.exhausted)
  {
    ReachableInv(s);
    PlaceOf(s, k);
    assert KeyInv(s, k);
    if s.log[k].failures == 5 && k !in s.exhausted {
      var t :| 0 <= t < |s.threads| && Holds(s, t, k);
      assert JobFits(s, k, s.threads[t].job);
    }
  }

  /** Once every thread is idle and the queue is empty, each webhook ended in exactly one way. */
  lemma AllSettled(s: State, k: Key)
    requires Reachable(s) && k in s.log && s.queue == map[]
    requires forall t :: 0 <= t < |s.threads| ==> s.threads[t].Free?
    ensures (k in s.delivered && k !in s.exhausted && k !in s.lost)
         || (k !in s.delivered && k in s.exhausted && k !in s.lost)
         || (k !in s.delivered && k !in s.exhausted && k in s.lost)
  {
    ReachableInv(s);
    assert KeyInv(s, k);
  }

  /** A claimed retry is given up without a receipt exactly when its payload has outlived its 24 hours. */
  lemma LostIffExpired(s: State, t: nat)
    requires Reachable(s) && Enabled(s, Load(t))
    ensures s.threads[t].key in s.data
    ensures s.threads[t].key in Apply(s, Load(t)).lost <==> s.data[s.threads[t].key].expiresAt <= s.now
  {
    ReachableInv(s);
    assert KeyInv(s, s.threads[t].key) && IsOn(s.threads[t], s.threads[t].key);
  }

  // ------------------------------------------------------------------
  // When a retry is claimed
  // ------------------------------------------------------------------

  ghost predicate PolledOnlyBy(actions: seq<Action>, w: nat) {
    forall i :: 0 <= i < |actions| && actions[i].Poll? ==> actions[i].t == w
  }

  function Todo(s: State, t: nat): seq<Key>
    requires t < |s.threads|
  {
    s.threads[t].todo
  }

  /** Only `w` has a batch left, and everything in it is queued and due. */
  ghost predicate BatchIsDue(s: State, w: nat) {
    && (forall t :: 0 <= t < |s.threads| && t != w ==> Todo(s, t) == [])
    && (w < |s.threads| ==>
          && (forall i :: 0 <= i < |Todo(s, w)| ==> Todo(s, w)[i] in s.queue && s.queue[Todo(s, w)[i]] <= Unix(s.now))
          && (forall i, j :: 0 <= i < j < |Todo(s, w)| ==> Todo(s, w)[i] != Todo(s, w)[j]))
  }

  lemma SameBatchStaysDue(s: State, s': State, w: nat)
    requires BatchIsDue(s, w) && s.now <= s'.now && |s'.threads| == |s.threads|
    requires forall u :: 0 <= u < |s.threads| ==> Todo(s', u) == Todo(s, u)
    requires forall k :: k in s.queue ==> k in s'.queue && s'.queue[k] == s.queue[k]
    ensures BatchIsDue(s', w)
  {
    UnixOrder(s.now, s'.now);
    if w < |s.threads| {
      assert Todo(s', w) == Todo(s, w);
    }
  }

  lemma AdvanceThreads(s: State, t: nat)
    requires t < |s.threads| && s.threads[t].Busy?
    requires !s.threads[t].job.Loading? && !s.threads[t].job.Delivering?
    ensures AdvanceJob(s, t).now == s.now && |AdvanceJob(s, t).threads| == |s.threads|
    ensures Todo(AdvanceJob(s, t), t) == Todo(s, t)
    ensures forall u :: 0 <= u < |s.threads| && u != t ==> AdvanceJob(s, t).threads[u] == s.threads[u]
  {
    match s.threads[t].job
    case Storing(_, _) =>
    case Enqueueing(_, _) =>
    case RecordingExhausted(_) =>
    case DroppingExhausted =>
    case Clearing(_) =>
    case RecordingDelivered(_) =>
  }

  lemma AdvanceQueue(s: State, t: nat)
    requires t < |s.threads| && s.threads[t].Busy?
    requires !s.threads[t].job.Loading? && !s.threads[t].job.Delivering?
    ensures AdvanceJob(s, t).queue - {s.threads[t].key} == s.queue - {s.threads[t].key}
  {
    match s.threads[t].job
    case Storing(_, _) =>
    case Enqueueing(_, _) =>
    case RecordingExhausted(_) =>
    case DroppingExhausted =>
    case Clearing(_) =>
    case RecordingDelivered(_) =>
  }

  lemma BatchStaysDueAdvance(s: State, t: nat, w: nat)
    requires t < |s.threads| && s.threads[t].Busy? && KeyInv(s, s.threads[t].key) && BatchIsDue(s, w)
    requires !s.threads[t].job.Loading? && !s.threads[t].job.Delivering?
    ensures BatchIsDue(AdvanceJob(s, t), w)
  {
    var s', key := AdvanceJob(s, t), s.threads[t].key;
    AdvanceThreads(s, t);
    AdvanceQueue(s, t);
    assert IsOn(s.threads[t], key);
    forall k | k in s.queue
      ensures k in s'.queue && s'.queue[k] == s.queue[k]
    {
      assert k in s.queue - {key};
    }
    SameBatchStaysDue(s, s', w);
  }

  lemma BatchStaysDueClaim(s: State, t: nat, w: nat)
    requires Enabled(s, Claim(t)) && BatchIsDue(s, w)
    ensures BatchIsDue(Apply(s, Claim(t)), w)
  {
    var s' := Apply(s, Claim(t));
    assert Todo(s, t) != [];
    assert t == w;
    assert Todo(s, w)[0] in s.queue;
    assert Todo(s', w) == Todo(s, w)[1..];
    assert forall u :: 0 <= u < |s.threads| && u != w ==> Todo(s', u) == Todo(s, u);
  }

  lemma BatchStaysDuePoll(s: State, a: Action, w: nat)
    requires Enabled(s, a) && BatchIsDue(s, w) && a.Poll? && a.t == w
    ensures BatchIsDue(Apply(s, a), w)
  {
    var s' := Apply(s, a);
    assert Todo(s', w) == a.batch;
    assert forall u :: 0 <= u < |s.threads| && u != w ==> Todo(s', u) == Todo(s, u);
  }

  lemma BatchStaysDue(s: State, a: Action, w: nat)
    requires Inv(s) && Enabled(s, a) && BatchIsDue(s, w) && (a.Poll? ==> a.t == w)
    ensures BatchIsDue(Apply(s, a), w)
  {
    match a
    case Tick(_) => SameBatchStaysDue(s, Apply(s, a), w);
    case Send(_, _) => SameBatchStaysDue(s, Apply(s, a), w);
    case Poll(_, _, _) => BatchStaysDuePoll(s, a, w);
    case Claim(t) => BatchStaysDueClaim(s, t, w);
    case Load(_) => SameBatchStaysDue(s, Apply(s, a), w);
    case Deliver(_, _) => SameBatchStaysDue(s, Apply(s, a), w);
    case Advance(t) =>
      assert KeyInv(s, s.threads[t].key);
      BatchStaysDueAdvance(s, t, w);
  }

  lemma {:induction false} BatchStaysDueInRun(s: State, actions: seq<Action>, s': State, w: nat)
    requires Inv(s) && Runs(s, actions, s') && BatchIsDue(s, w) && PolledOnlyBy(actions, w)
    ensures BatchIsDue(s', w)
    decreases |actions|
  {
    if actions != [] {
      StepKeeps(s, actions[0]);
      BatchStaysDue(s, actions[0], w);
      BatchStaysDueInRun(Apply(s, actions[0]), actions[1..], s', w);
    }
  }

  /** With a single polling worker every claim succeeds, and none comes before the webhook is due. */
  lemma SoleWorkerClaimsOnTime(start: State, actions: seq<Action>, s: State, w: nat, t: nat)
    requires Initial(start) && Runs(start, actions, s) && PolledOnlyBy(actions, w)
    requires Enabled(s, Claim(t))
    ensures t == w && s.threads[t].todo[0] in s.queue && s.queue[s.threads[t].todo[0]] <= Unix(s.now)
  {
    InitialInv(start);
    BatchStaysDueInRun(start, actions, s, w);
    assert Todo(s, t) == s.threads[t].todo;
  }
}
