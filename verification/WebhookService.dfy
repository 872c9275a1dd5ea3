/**
 The notification service's methods, written over the Redis data they share with every other
 thread. Before each command any number of steps of other threads may happen; whatever they are,
 a call is a run of the protocol and keeps its invariant.
 */
module WebhookService {
  import opened WebhookProtocol
  import Systems

  /** What no step takes back: time, the threads, the webhooks sent and the receipts written. */
  ghost predicate Grows(s: State, s': State) {
    && s.now <= s'.now && |s'.threads| == |s.threads|
    && s.log.Keys <= s'.log.Keys && s.delivered.Keys <= s'.delivered.Keys && s.exhausted.Keys <= s'.exhausted.Keys
  }

  /** A later state of the same system. */
  ghost predicate Later(s: State, s': State) {
    Systems.Reaches(Next, s, s') && Inv(s') && Grows(s, s')
  }

  lemma LaterRefl(s: State)
    requires Inv(s)
    ensures Later(s, s)
  {
    Systems.ReachesSelf(Next, s);
  }

  lemma ClaimGrows(s: State, t: nat)
    requires Enabled(s, Claim(t))
    ensures Grows(s, Apply(s, Claim(t)))
  {}

  lemma LoadGrows(s: State, t: nat)
    requires Enabled(s, Load(t))
    ensures Grows(s, Apply(s, Load(t)))
  {}

  lemma DeliverGrows(s: State, t: nat, ok: bool)
    requires Enabled(s, Deliver(t, ok))
    ensures Grows(s, Apply(s, Deliver(t, ok)))
  {}

  lemma ApplyGrows(s: State, a: Action)
    requires Enabled(s, a)
    ensures Grows(s, Apply(s, a))
  {
    match a
    case Tick(_) =>
    case Send(_, _) =>
    case Poll(_, _, _) =>
    case Claim(t) => ClaimGrows(s, t);
    case Load(t) => LoadGrows(s, t);
    case Deliver(t, ok) => DeliverGrows(s, t, ok);
    case Advance(t) => AdvanceJobGrows(s, t);
  }

  lemma AdvanceReceipts(s: State, t: nat)
    requires t < |s.threads| && s.threads[t].Busy?
    requires !s.threads[t].job.Loading? && !s.threads[t].job.Delivering?
    ensures s.delivered.Keys <= AdvanceJob(s, t).delivered.Keys && s.exhausted.Keys <= AdvanceJob(s, t).exhausted.Keys
  {
    match s.threads[t].job
    case Storing(_, _) =>
    case Enqueueing(_, _) =>
    case RecordingExhausted(_) =>
    case DroppingExhausted =>
    case Clearing(_) =>
    case RecordingDelivered(_) =>
  }

  lemma AdvanceJobGrows(s: State, t: nat)
    requires t < |s.threads| && s.threads[t].Busy?
    requires !s.threads[t].job.Loading? && !s.threads[t].job.Delivering?
    ensures Grows(s, AdvanceJob(s, t))
  {
    AdvanceLogs(s, t);
    AdvanceThreads(s, t);
    AdvanceReceipts(s, t);
  }

  lemma LaterThen(s: State, mid: State, a: Action)
    requires Later(s, mid) && Enabled(mid, a)
    ensures Later(s, Apply(mid, a))
  {
    Systems.ReachesThen(Next, s, mid, a, Apply(mid, a));
    StepKeeps(mid, a);
    ApplyGrows(mid, a);
  }

  lemma LaterTrans(s: State, mid: State, s': State)
    requires Later(s, mid) && Later(mid, s')
    ensures Later(s, s')
  {
    Systems.ReachesOn(Next, s, mid, s');
  }

  /** Steps have been spent on webhook `k` since `s`. */
  predicate Moved(s: State, s': State, k: Key) {
    k in s.log && k in s'.log && s.log[k].steps < s'.log[k].steps
  }

  /** Nothing leaves the queue without a step spent on it. */
  predicate QueuedOrMoved(s: State, s': State, k: Key) {
    k in s.log && k in s'.log && s.log[k].steps <= s'.log[k].steps
    && (k in s.queue && k !in s'.queue ==> Moved(s, s', k))
  }

  lemma AdvanceMoves(s: State, t: nat, k: Key)
    requires t < |s.threads| && s.threads[t].Busy? && k in s.log
    requires !s.threads[t].job.Loading? && !s.threads[t].job.Delivering?
    ensures QueuedOrMoved(s, AdvanceJob(s, t), k)
  {
    AdvanceLogs(s, t);
    AdvanceQueue(s, t);
    match s.threads[t].job
    case Storing(_, _) =>
    case Enqueueing(_, _) =>
    case RecordingExhausted(_) =>
    case DroppingExhausted =>
    case Clearing(_) =>
    case RecordingDelivered(_) =>
  }

  lemma StepMoves(s: State, a: Action, k: Key)
    requires Enabled(s, a) && k in s.log
    ensures QueuedOrMoved(s, Apply(s, a), k)
  {
    if a.Advance? {
      AdvanceMoves(s, a.t, k);
    }
  }

  lemma {:induction false} RunMoves(s: State, actions: seq<Action>, s': State, k: Key)
    requires Runs(s, actions, s') && k in s.log
    ensures QueuedOrMoved(s, s', k)
    decreases |actions|
  {
    if actions != [] {
      StepMoves(s, actions[0], k);
      RunMoves(Apply(s, actions[0]), actions[1..], s', k);
    }
  }

  lemma StepsRise(s: State, s': State, k: Key)
    requires Later(s, s') && k in s.log
    ensures QueuedOrMoved(s, s', k)
  {
    var actions :| Systems.Run(Next, s, actions, s');
    RunMoves(s, actions, s', k);
  }

  lemma MovedStays(s: State, mid: State, s': State, k: Key)
    requires Moved(s, mid, k) && Later(mid, s')
    ensures Moved(s, s', k)
  {
    StepsRise(mid, s', k);
  }

  ghost predicate AllMoved(s: State, s': State, keys: seq<Key>) {
    forall k :: k in keys ==> Moved(s, s', k)
  }

  lemma AllMovedStay(s: State, mid: State, s': State, keys: seq<Key>)
    requires AllMoved(s, mid, keys) && Later(mid, s')
    ensures AllMoved(s, s', keys)
  {
    forall k | k in keys
      ensures Moved(s, s', k)
    {
      MovedStays(s, mid, s', k);
    }
  }

  lemma BatchIsKnown(s: State, asOf: int, batch: seq<Key>)
    requires Inv(s) && IsDueBatch(s.queue, asOf, batch)
    ensures forall k :: k in batch ==> k in s.queue && k in s.log
  {
    forall k | k in batch
      ensures k in s.queue && k in s.log
    {
      assert KeyInv(s, k);
    }
  }

  /** A step that is not thread `t`'s own. */
  predicate ByOthers(a: Action, t: nat) {
    match a
    case Tick(_) => true
    case Send(u, _) => u != t
    case Poll(u, _, _) => u != t
    case Claim(u) => u != t
    case Load(u) => u != t
    case Deliver(u, _) => u != t
    case Advance(u) => u != t
  }

  lemma OthersLeaveThread(s: State, a: Action, t: nat)
    requires Enabled(s, a) && ByOthers(a, t) && t < |s.threads|
    ensures t < |Apply(s, a).threads| && Apply(s, a).threads[t] == s.threads[t]
  {
    if a.Advance? {
      AdvanceThreads(s, a.t);
    }
  }

  /** What is posted to the merchant, with its counter of attempts made. */
  class WebhookPayload {
    const key: Key
    var attempt: nat

    constructor (key: Key, attempt: nat)
      ensures this.key == key && this.attempt == attempt
    {
      this.key := key;
      this.attempt := attempt;
    }
  }

  class WebhookService {
    var now: int
    var data: map<Key, Stored>
    var queue: map<Key, int>
    var delivered: map<Key, nat>
    var exhausted: map<Key, nat>
    // Where each thread is, and what has happened so far.
    var threads: seq<Thread>
    var log: map<Key, History>
    var failedAt: map<Key, int>
    var lost: set<Key>

    function View(): State
      reads this
    {
      State(now, data, queue, delivered, exhausted, threads, log, failedAt, lost)
    }

    /** Retry `attempt + 1` of the webhook is in the queue, due at second `due`, with its payload. */
    ghost predicate IsQueued(key: Key, attempt: nat, due: int)
      reads this
    {
      key in queue && queue[key] == due && key in data && data[key].attempt == attempt
    }

    /** The same, due at the second of some time from `lo` to `hi`. */
    ghost predicate IsQueuedBetween(key: Key, attempt: nat, lo: int, hi: int)
      reads this
    {
      key in queue && IsQueued(key, attempt, queue[key]) && Unix(lo) <= queue[key] <= Unix(hi)
    }

    ghost predicate IsAt(t: nat, thread: Thread)
      reads this
    {
      t < |threads| && threads[t] == thread
    }

    constructor (workers: nat)
      ensures Inv(View()) && Initial(View()) && |threads| == workers
    {
      now, data, queue, delivered, exhausted := 0, map[], map[], map[], map[];
      threads, log, failedAt, lost := seq(workers, _ => Free([])), map[], map[], {};
    }

    /** Other threads take any steps they can, and time may pass. */
    method Interleave(t: nat)
      requires Inv(View()) && t < |threads|
      modifies this
      ensures Later(old(View()), View()) && IsAt(t, old(threads)[t])
    {
      LaterRefl(View());
      var n: int := *;
      while n > 0
        invariant Later(old(View()), View()) && IsAt(t, old(threads)[t])
      {
        var a: Action := *;
        if Enabled(View(), a) && ByOthers(a, t) {
          LaterThen(old(View()), View(), a);
          OthersLeaveThread(View(), a, t);
          var s := Apply(View(), a);
          now, data, queue, delivered, exhausted := s.now, s.data, s.queue, s.delivered, s.exhausted;
          threads, log, failedAt, lost := s.threads, s.log, s.failedAt, s.lost;
        }
        n := n - 1;
      }
    }

    method Note(t: nat, key: Key, thread: Thread)
      requires t < |threads|
      modifies `threads, `log
      ensures threads == old(threads)[t := thread] && log == Counted(old(log), key)
    {
      threads, log := threads[t := thread], Counted(log, key);
    }

    // ----------------------------------------------------------------
    // One Redis command or one HTTP request
    // ----------------------------------------------------------------

    method SetData(t: nat, key: Key, attempt: nat, ghost due: int, ghost todo: seq<Key>)
      requires IsAt(t, Busy(key, Storing(attempt, due), todo)) && Inv(View())
      modifies this
      ensures View() == Apply(old(View()), Advance(t)) && Later(old(View()), View())
      ensures IsAt(t, Busy(key, Enqueueing(attempt, due), todo))
    {
      LaterRefl(View());
      LaterThen(View(), View(), Advance(t));
      data := data[key := Stored(attempt, now + DATA_TTL)];
      Note(t, key, Busy(key, Enqueueing(attempt, threads[t].job.due), threads[t].todo));
    }

    method ZAdd(t: nat, key: Key, due: int, ghost attempt: nat, ghost todo: seq<Key>)
      requires IsAt(t, Busy(key, Enqueueing(attempt, due), todo)) && Inv(View())
      modifies this
      ensures View() == Apply(old(View()), Advance(t)) && Later(old(View()), View())
      ensures IsAt(t, Free(todo)) && IsQueued(key, attempt, due)
    {
      assert KeyInv(View(), key) && IsOn(threads[t], key);
      assert JobFits(View(), key, threads[t].job);
      LaterRefl(View());
      LaterThen(View(), View(), Advance(t));
      queue := queue[key := due];
      Note(t, key, Free(threads[t].todo));
    }

    method SetExhausted(t: nat, key: Key, attempt: nat, ghost todo: seq<Key>)
      requires IsAt(t, Busy(key, RecordingExhausted(attempt), todo)) && Inv(View())
      modifies this
      ensures View() == Apply(old(View()), Advance(t)) && Later(old(View()), View())
      ensures IsAt(t, Busy(key, DroppingExhausted, todo))
    {
      LaterRefl(View());
      LaterThen(View(), View(), Advance(t));
      exhausted := exhausted[key := attempt];
      Note(t, key, Busy(key, DroppingExhausted, threads[t].todo));
    }

    method DelData(t: nat, key: Key)
      requires t < |threads| && IsOn(threads[t], key) && Inv(View())
      requires threads[t].job.DroppingExhausted? || threads[t].job.Clearing?
      modifies this
      ensures View() == Apply(old(View()), Advance(t)) && Later(old(View()), View())
      ensures var Busy(_, job, todo) := old(threads)[t];
              IsAt(t, if job.Clearing? then Busy(key, RecordingDelivered(job.attempt), todo) else Free(todo))
      ensures key !in data
    {
      LaterRefl(View());
      LaterThen(View(), View(), Advance(t));
      data := data - {key};
      var Busy(_, job, todo) := threads[t];
      Note(t, key, if job.Clearing? then Busy(key, RecordingDelivered(job.attempt), todo) else Free(todo));
    }

    method SetDelivered(t: nat, key: Key, attempts: nat, ghost todo: seq<Key>)
      requires attempts > 0 && IsAt(t, Busy(key, RecordingDelivered(attempts - 1), todo)) && Inv(View())
      modifies this
      ensures View() == Apply(old(View()), Advance(t)) && Later(old(View()), View())
      ensures IsAt(t, Free(todo))
    {
      LaterRefl(View());
      LaterThen(View(), View(), Advance(t));
      delivered := delivered[key := attempts];
      Note(t, key, Free(threads[t].todo));
    }

    /** GET of the payload; nothing when Redis has dropped it. */
    method GetData(t: nat, key: Key) returns (wp: WebhookPayload?)
      requires t < |threads| && IsOn(threads[t], key) && threads[t].job.Loading? && Inv(View())
      modifies this
      ensures View() == Apply(old(View()), Load(t)) && Later(old(View()), View())
      ensures wp == null ==> IsAt(t, Free(old(threads)[t].todo)) && key in lost
      ensures wp != null ==> fresh(wp) && wp.key == key
                             && IsAt(t, Busy(key, Delivering(wp.attempt, true), old(threads)[t].todo))
    {
      LaterRefl(View());
      LaterThen(View(), View(), Load(t));
      var todo := threads[t].todo;
      if key in data && now < data[key].expiresAt {
        var attempt := data[key].attempt;
        wp := new WebhookPayload(key, attempt);
        Note(t, key, Busy(key, Delivering(attempt, true), todo));
      } else {
        wp := null;
        Note(t, key, Free(todo));
        lost := lost + {key};
      }
    }

    /** ZREM, which tells whether this caller removed the key. */
    method ZRem(t: nat, key: Key) returns (removed: bool)
      requires t < |threads| && threads[t].Free? && threads[t].todo != [] && threads[t].todo[0] == key && Inv(View())
      modifies this
      ensures View() == Apply(old(View()), Claim(t)) && Later(old(View()), View())
      ensures removed == (key in old(queue))
      ensures var rest := old(threads)[t].todo[1..]; IsAt(t, if removed then Busy(key, Loading, rest) else Free(rest))
    {
      LaterRefl(View());
      LaterThen(View(), View(), Claim(t));
      var rest := threads[t].todo[1..];
      removed := key in queue;
      if removed {
        queue := queue - {key};
        Note(t, key, Busy(key, Loading, rest));
      } else {
        threads := threads[t := Free(rest)];
      }
    }

    /** ZRANGEBYSCORE -inf asOf LIMIT 0 10. */
    method ZRangeByScore(t: nat, asOf: int) returns (members: seq<Key>)
      requires IsAt(t, Free([])) && asOf <= Unix(now) && Inv(View())
      modifies `threads
      ensures IsDueBatch(old(queue), asOf, members)
      ensures View() == Apply(old(View()), Poll(t, asOf, members)) && Later(old(View()), View())
      ensures IsAt(t, Free(members))
    {
      LaterRefl(View());
      members := LowestDue(asOf);
      LaterThen(View(), View(), Poll(t, asOf, members));
      threads := threads[t := Free(members)];
    }

    method LowestDue(asOf: int) returns (members: seq<Key>)
      ensures IsDueBatch(queue, asOf, members) && |members| <= 10
      ensures forall i :: 0 <= i < |members| ==> members[i] in queue && queue[members[i]] <= asOf
      ensures forall i, j :: 0 <= i < j < |members| ==>
                members[i] != members[j] && queue[members[i]] <= queue[members[j]]
      ensures forall k :: k in queue && queue[k] <= asOf && k !in members ==>
                |members| == 10 && forall i :: 0 <= i < |members| ==> queue[members[i]] <= queue[k]
    {
      members := [];
      var due := set k | k in queue && queue[k] <= asOf;
      while due != {} && |members| < RETRY_BATCH
        invariant |members| <= RETRY_BATCH
        invariant due <= queue.Keys && forall k :: k in due ==> k !in members
        invariant forall k :: k in queue && queue[k] <= asOf <==> k in due || k in members
        invariant forall i, k :: 0 <= i < |members| && k in due ==> queue[members[i]] <= queue[k]
        invariant forall i :: 0 <= i < |members| ==> members[i] in queue
        invariant forall i, j :: 0 <= i < j < |members| ==>
                    members[i] != members[j] && queue[members[i]] <= queue[members[j]]
        decreases due
      {
        Systems.LowestExists(queue, due);
        var k :| k in due && forall j :: j in due ==> queue[k] <= queue[j];
        members, due := members + [k], due - {k};
      }
    }

    /** POST to the merchant, who may answer either way. */
    method HttpPost(t: nat, wp: WebhookPayload, ghost retry: bool, ghost todo: seq<Key>) returns (ok: bool)
      requires IsAt(t, Busy(wp.key, Delivering(wp.attempt, retry), todo)) && Inv(View())
      modifies this
      ensures Enabled(old(View()), Deliver(t, ok))
      ensures View() == Apply(old(View()), Deliver(t, ok)) && Later(old(View()), View())
      ensures now == old(now) && IsAt(t, Busy(wp.key, AfterDelivery(now, wp.attempt, retry, ok), todo))
    {
      LaterRefl(View());
      assert KeyInv(View(), wp.key) && IsOn(threads[t], wp.key);
      ok := *;
      LaterThen(View(), View(), Deliver(t, ok));
      NoteAnswer(t, wp.key, ok);
    }

    method NoteAnswer(t: nat, key: Key, ok: bool)
      requires t < |threads| && threads[t].Busy? && threads[t].job.Delivering? && key in log
      modifies `threads, `log, `failedAt
      ensures log == old(log)[key := History(old(log)[key].deliveries + 1,
                                             if ok then old(log)[key].failures else old(log)[key].failures + 1,
                                             old(log)[key].steps + 1)]
      ensures failedAt == if ok then old(failedAt) else old(failedAt)[key := now]
      ensures var Busy(_, job, todo) := old(threads)[t];
              threads == old(threads)[t := Busy(key, AfterDelivery(now, job.attempt, job.retry, ok), todo)]
    {
      var h := log[key];
      log := log[key := History(h.deliveries + 1, if ok then h.failures else h.failures + 1, h.steps + 1)];
      if !ok {
        failedAt := failedAt[key := now];
      }
      var Busy(_, job, todo) := threads[t];
      threads := threads[t := Busy(key, AfterDelivery(now, job.attempt, job.retry, ok), todo)];
    }

    // ----------------------------------------------------------------
    // The service's methods
    // ----------------------------------------------------------------

    method MarkDelivered(t: nat, wp: WebhookPayload, ghost todo: seq<Key>)
      requires IsAt(t, Busy(wp.key, RecordingDelivered(wp.attempt), todo)) && Inv(View())
      modifies this
      ensures Later(old(View()), View()) && IsAt(t, Free(todo))
      ensures wp.key in delivered
    {
      Interleave(t);
      ghost var mid := View();
      SetDelivered(t, wp.key, wp.attempt + 1, todo);
      LaterTrans(old(View()), mid, View());
    }

    method MarkExhausted(t: nat, wp: WebhookPayload, ghost todo: seq<Key>)
      requires IsAt(t, Busy(wp.key, RecordingExhausted(wp.attempt), todo)) && Inv(View())
      modifies this
      ensures Later(old(View()), View()) && IsAt(t, Free(todo))
      ensures wp.key in exhausted && wp.key !in data
    {
      Interleave(t);
      ghost var mid := View();
      SetExhausted(t, wp.key, wp.attempt, todo);
      LaterTrans(old(View()), mid, View());
      mid := View();
      Interleave(t);
      LaterTrans(old(View()), mid, View());
      mid := View();
      DelData(t, wp.key);
      LaterTrans(old(View()), mid, View());
    }

    /** Right after a failed delivery: queue the next attempt, or give up after the fifth. */
    method ScheduleRetry(t: nat, wp: WebhookPayload, ghost retry: bool, ghost todo: seq<Key>) returns (givenUp: bool)
      requires IsAt(t, Busy(wp.key, AfterDelivery(now, wp.attempt, retry, false), todo)) && Inv(View())
      modifies this, wp
      ensures Later(old(View()), View()) && IsAt(t, Free(todo))
      ensures wp.attempt == old(wp.attempt) + 1 && givenUp == (wp.attempt >= MAX_ATTEMPTS)
      ensures givenUp ==> wp.key in exhausted && wp.key !in data
      ensures !givenUp ==> IsQueued(wp.key, wp.attempt, Unix(old(now) + RETRY_DELAYS[wp.attempt - 1]))
    {
      wp.attempt := wp.attempt + 1;
      if wp.attempt >= MAX_ATTEMPTS {
        MarkExhausted(t, wp, todo);
        return true;
      }
      var delay := RETRY_DELAYS[wp.attempt - 1];
      var nextRetryAt := now + delay;
      var score := Unix(nextRetryAt);
      Interleave(t);
      ghost var mid := View();
      SetData(t, wp.key, wp.attempt, score, todo);
      LaterTrans(old(View()), mid, View());
      mid := View();
      Interleave(t);
      LaterTrans(old(View()), mid, View());
      mid := View();
      ZAdd(t, wp.key, score, wp.attempt, todo);
      LaterTrans(old(View()), mid, View());
      givenUp := false;
    }

    /**
     Sends a new webhook on an idle thread. There is no error, whether it is delivered at once or queued
     for a retry ten seconds later.
     */
    method SendWebhook(t: nat, key: Key) returns (ok: bool)
      requires IsAt(t, Free([])) && Inv(View()) && key !in log
      modifies this
      ensures Later(old(View()), View()) && IsAt(t, Free([]))
      ensures key in log && ok
      ensures key in delivered || IsQueuedBetween(key, 1, old(now) + RETRY_DELAYS[0], now + RETRY_DELAYS[0])
    {
      LaterRefl(View());
      LaterThen(View(), View(), Send(t, key));
      var wp := new WebhookPayload(key, 0);
      threads, log := threads[t := Busy(key, Delivering(0, false), [])], log[key := History(0, 0, 1)];
      ghost var mid := View();
      Interleave(t);
      LaterTrans(old(View()), mid, View());
      mid := View();
      ok := DeliverNew(t, wp);
      LaterTrans(old(View()), mid, View());
      UnixOrder(old(now) + RETRY_DELAYS[0], mid.now + RETRY_DELAYS[0]);
    }

    /** The first delivery of a webhook and what follows it. */
    method DeliverNew(t: nat, wp: WebhookPayload) returns (ok: bool)
      requires IsAt(t, Busy(wp.key, Delivering(wp.attempt, false), [])) && wp.attempt == 0 && Inv(View())
      modifies this, wp
      ensures Later(old(View()), View()) && IsAt(t, Free([])) && ok
      ensures wp.key in delivered
              || IsQueuedBetween(wp.key, 1, old(now) + RETRY_DELAYS[0], now + RETRY_DELAYS[0])
    {
      var delivered := HttpPost(t, wp, false, []);
      ghost var mid := View();
      if !delivered {
        var givenUp := ScheduleRetry(t, wp, false, []);
        LaterTrans(old(View()), mid, View());
        UnixOrder(old(now) + RETRY_DELAYS[0], now + RETRY_DELAYS[0]);
        return !givenUp;
      }
      MarkDelivered(t, wp, []);
      LaterTrans(old(View()), mid, View());
      ok := true;
    }

    /**
     Retries a webhook this thread has claimed. There is no error if it ends delivered or queued again;
     there is one if its payload is gone or the retry was the last.
     */
    method RetryWebhook(t: nat, key: Key, ghost todo: seq<Key>) returns (ok: bool)
      requires IsAt(t, Busy(key, Loading, todo)) && Inv(View())
      modifies this
      ensures Later(old(View()), View()) && IsAt(t, Free(todo))
      ensures ok ==> key in delivered || (key in queue && key in data && 2 <= data[key].attempt <= 4)
      ensures !ok ==> key in lost || (key in exhausted && key !in data)
    {
      Interleave(t);
      ghost var mid := View();
      var wp := GetData(t, key);
      LaterTrans(old(View()), mid, View());
      if wp == null {
        return false;
      }
      mid := View();
      Interleave(t);
      LaterTrans(old(View()), mid, View());
      mid := View();
      ok := RedeliverLoaded(t, wp, todo);
      LaterTrans(old(View()), mid, View());
    }

    /** The rest of a retry, once the payload is loaded. */
    method RedeliverLoaded(t: nat, wp: WebhookPayload, ghost todo: seq<Key>) returns (ok: bool)
      requires IsAt(t, Busy(wp.key, Delivering(wp.attempt, true), todo)) && Inv(View())
      modifies this, wp
      ensures Later(old(View()), View()) && IsAt(t, Free(todo))
      ensures ok ==> wp.key in delivered || (wp.key in queue && wp.key in data && 2 <= data[wp.key].attempt <= 4)
      ensures !ok ==> wp.key in exhausted && wp.key !in data
    {
      assert KeyInv(View(), wp.key) && IsOn(threads[t], wp.key);
      assert JobFits(View(), wp.key, threads[t].job);
      var delivered := HttpPost(t, wp, true, todo);
      ghost var mid := View();
      if !delivered {
        var givenUp := ScheduleRetry(t, wp, true, todo);
        LaterTrans(old(View()), mid, View());
        return !givenUp;
      }
      Interleave(t);
      LaterTrans(old(View()), mid, View());
      mid := View();
      DelData(t, wp.key);
      LaterTrans(old(View()), mid, View());
      mid := View();
      MarkDelivered(t, wp, todo);
      LaterTrans(old(View()), mid, View());
      ok := true;
    }

    /** Claims one webhook of a batch and retries it, unless another worker has claimed it since the poll. */
    method ClaimAndRetry(t: nat, key: Key, ghost rest: seq<Key>, ghost read: State)
      requires IsAt(t, Free([key] + rest)) && Inv(View()) && Later(read, View())
      requires key in read.queue && key in read.log
      modifies this
      ensures Later(old(View()), View()) && Later(read, View()) && IsAt(t, Free(rest))
      ensures Moved(read, View(), key)
    {
      Interleave(t);
      ghost var mid := View();
      LaterTrans(read, old(View()), mid);
      StepsRise(read, mid, key);
      var removed := ZRem(t, key);
      LaterTrans(old(View()), mid, View());
      LaterTrans(read, mid, View());
      assert ([key] + rest)[1..] == rest;
      if !removed {
        return;
      }
      mid := View();
      var _ := RetryWebhook(t, key, rest);
      LaterTrans(old(View()), mid, View());
      MovedStays(read, mid, View(), key);
      LaterTrans(read, mid, View());
    }

    /** The loop over a polled batch. */
    method ClaimEach(t: nat, members: seq<Key>, ghost read: State)
      requires IsAt(t, Free(members)) && Inv(View()) && Later(read, View())
      requires forall k :: k in members ==> k in read.queue && k in read.log
      modifies this
      ensures Later(old(View()), View()) && Later(read, View()) && IsAt(t, Free([]))
      ensures AllMoved(read, View(), members)
    {
      LaterRefl(View());
      for i := 0 to |members|
        invariant Later(old(View()), View()) && Later(read, View()) && IsAt(t, Free(members[i..]))
        invariant AllMoved(read, View(), members[..i])
      {
        ghost var mid := View();
        assert members[i..] == [members[i]] + members[i + 1..];
        ClaimAndRetry(t, members[i], members[i + 1..], read);
        LaterTrans(old(View()), mid, View());
        AllMovedStay(read, mid, View(), members[..i]);
        assert members[..i + 1] == members[..i] + [members[i]];
      }
      assert members[..|members|] == members;
    }

    /**
     One poll cycle of a worker: reads the due keys, then claims and retries each one. `read` is the state
     the query saw, `batch` its answer; afterwards every key of the batch has been claimed, by this worker
     or by another.
     */
    method PollAndRetry(t: nat) returns (ghost read: State, ghost asOf: int, ghost batch: seq<Key>)
      requires IsAt(t, Free([])) && Inv(View())
      modifies this
      ensures Later(old(View()), View()) && IsAt(t, Free([]))
      ensures Later(old(View()), read) && Later(read, View())
      ensures Unix(old(now)) <= asOf <= Unix(read.now) && IsDueBatch(read.queue, asOf, batch)
      ensures forall k :: k in batch ==> k in read.log && k in log && read.log[k].steps < log[k].steps
    {
      var cutoff := Unix(now);
      Interleave(t);
      UnixOrder(old(now), now);
      read, asOf := View(), cutoff;
      var members := ZRangeByScore(t, cutoff);
      batch := members;
      LaterTrans(old(View()), read, View());
      BatchIsKnown(read, cutoff, members);
      ghost var mid := View();
      ClaimEach(t, members, read);
      LaterTrans(old(View()), mid, View());
    }
  }
}
