/**
 When retries of webhooks come, with any number of polling workers. Along a run it is noted when each
 thread last polled, when each webhook was last queued and for which second, and which webhooks were
 last claimed before their time. Steps are numbered in the order they happen.
 */
module WebhookTiming {
  import opened WebhookProtocol
  import Systems

  datatype Notes = Notes(
    step: nat,
    polled: map<nat, nat>,
    enqueued: map<Key, nat>,
    due: map<Key, int>,
    early: set<Key>)

  const BEGIN := Notes(1, map[], map[], map[], {})

  function PolledAt(h: Notes, t: nat): nat {
    if t in h.polled then h.polled[t] else 0
  }

  function EnqueuedAt(h: Notes, k: Key): nat {
    if k in h.enqueued then h.enqueued[k] else 0
  }

  function Noted(h: Notes, s: State, a: Action): Notes
    requires Enabled(s, a)
  {
    var next := h.(step := h.step + 1);
    match a
    case Poll(t, _, _) => next.(polled := h.polled[t := h.step])
    case Claim(t) =>
      var k := s.threads[t].todo[0];
      if k !in s.queue then next
      else next.(early := if Unix(s.now) < s.queue[k] then h.early + {k} else h.early - {k})
    case Advance(t) =>
      if s.threads[t].job.Enqueueing? then
        next.(enqueued := h.enqueued[s.threads[t].key := h.step],
              due := h.due[s.threads[t].key := s.threads[t].job.due])
      else next
    case _ => next
  }

  function After(h: Notes, s: State, actions: seq<Action>): Notes
    decreases |actions|
  {
    if actions == [] || !Enabled(s, actions[0]) then h
    else After(Noted(h, s, actions[0]), Apply(s, actions[0]), actions[1..])
  }

  // ------------------------------------------------------------------
  // Stale batches
  // ------------------------------------------------------------------

  /** A queued webhook of a batch is due, unless it was queued again after the poll. */
  predicate BatchTells(s: State, h: Notes, t: nat, k: Key)
    requires t < |s.threads|
  {
    && PolledAt(h, t) < h.step && EnqueuedAt(h, k) < h.step
    && (k in Todo(s, t) && k in s.queue && EnqueuedAt(h, k) <= PolledAt(h, t) ==> s.queue[k] <= Unix(s.now))
    && (k in s.queue ==> k in h.due && h.due[k] == s.queue[k])
  }

  /** The step puts `k` into the queue. */
  predicate Enqueues(s: State, a: Action, k: Key)
    requires Enabled(s, a)
  {
    a.Advance? && s.threads[a.t].key == k && s.threads[a.t].job.Enqueueing?
  }

  lemma NotesStep(s: State, h: Notes, a: Action, t: nat, k: Key)
    requires Enabled(s, a)
    ensures Noted(h, s, a).step == h.step + 1
    ensures PolledAt(Noted(h, s, a), t) == if a.Poll? && a.t == t then h.step else PolledAt(h, t)
    ensures EnqueuedAt(Noted(h, s, a), k) == if Enqueues(s, a, k) then h.step else EnqueuedAt(h, k)
    ensures Enqueues(s, a, k) ==> Noted(h, s, a).due == h.due[k := s.threads[a.t].job.due]
    ensures !Enqueues(s, a, k) && k in h.due ==> k in Noted(h, s, a).due && Noted(h, s, a).due[k] == h.due[k]
  {}

  lemma AdvanceEffect(s: State, u: nat, t: nat, k: Key)
    requires Enabled(s, Advance(u)) && t < |s.threads|
    ensures Todo(AdvanceJob(s, u), t) == Todo(s, t)
    ensures AdvanceJob(s, u).now == s.now && |AdvanceJob(s, u).threads| == |s.threads|
    ensures k in AdvanceJob(s, u).queue ==>
              if Enqueues(s, Advance(u), k) then AdvanceJob(s, u).queue[k] == s.threads[u].job.due
              else k in s.queue && AdvanceJob(s, u).queue[k] == s.queue[k]
  {
    AdvanceThreads(s, u);
    if k != s.threads[u].key {
      AdvanceQueue(s, u);
      assert k in AdvanceJob(s, u).queue ==> k in AdvanceJob(s, u).queue - {s.threads[u].key};
    }
  }

  /** Time goes on, and a batch only shrinks until the next poll. */
  lemma BatchEffect(s: State, a: Action, t: nat, k: Key)
    requires Enabled(s, a) && t < |s.threads|
    ensures s.now <= Apply(s, a).now && |Apply(s, a).threads| == |s.threads|
    ensures k in Todo(Apply(s, a), t) ==>
              if a.Poll? && a.t == t then k in s.queue && s.queue[k] <= Unix(s.now) else k in Todo(s, t)
  {
    if a.Advance? {
      AdvanceEffect(s, a.t, t, k);
    }
  }

  lemma QueueEffect(s: State, a: Action, k: Key)
    requires Enabled(s, a) && k in Apply(s, a).queue
    ensures if Enqueues(s, a, k) then Apply(s, a).queue[k] == s.threads[a.t].job.due
            else k in s.queue && Apply(s, a).queue[k] == s.queue[k]
  {
    if a.Advance? {
      AdvanceEffect(s, a.t, a.t, k);
    }
  }

  lemma TellsStep(s: State, h: Notes, a: Action, t: nat, k: Key)
    requires Enabled(s, a) && t < |s.threads| && BatchTells(s, h, t, k)
    ensures BatchTells(Apply(s, a), Noted(h, s, a), t, k)
  {
    BatchEffect(s, a, t, k);
    if k in Apply(s, a).queue {
      QueueEffect(s, a, k);
    }
    NotesStep(s, h, a, t, k);
    UnixOrder(s.now, Apply(s, a).now);
    TellsOn(s, h, Apply(s, a), Noted(h, s, a), t, k, Enqueues(s, a, k), a.Poll? && a.t == t);
  }

  lemma TellsOn(s: State, h: Notes, s': State, h': Notes, t: nat, k: Key, enqueues: bool, polls: bool)
    requires t < |s.threads| == |s'.threads| && BatchTells(s, h, t, k) && Unix(s.now) <= Unix(s'.now)
    requires h'.step == h.step + 1
    requires PolledAt(h', t) == if polls then h.step else PolledAt(h, t)
    requires EnqueuedAt(h', k) == if enqueues then h.step else EnqueuedAt(h, k)
    requires k in Todo(s', t) ==> if polls then k in s.queue && s.queue[k] <= Unix(s.now) else k in Todo(s, t)
    requires k in s'.queue ==>
               if enqueues then k in h'.due && h'.due[k] == s'.queue[k]
               else k in s.queue && s'.queue[k] == s.queue[k] && (k in h.due ==> k in h'.due && h'.due[k] == h.due[k])
    requires !(enqueues && polls)
    ensures BatchTells(s', h', t, k)
  {}

  lemma {:induction false} ThreadsStay(s: State, actions: seq<Action>, s': State)
    requires Runs(s, actions, s')
    ensures |s'.threads| == |s.threads|
    decreases |actions|
  {
    if actions != [] {
      if actions[0].Advance? {
        AdvanceThreads(s, actions[0].t);
      }
      ThreadsStay(Apply(s, actions[0]), actions[1..], s');
    }
  }

  lemma {:induction false} TellsRun(s: State, h: Notes, actions: seq<Action>, s': State, t: nat, k: Key)
    requires Runs(s, actions, s') && t < |s.threads| && BatchTells(s, h, t, k)
    ensures t < |s'.threads| && BatchTells(s', After(h, s, actions), t, k)
    decreases |actions|
  {
    if actions != [] {
      BatchEffect(s, actions[0], t, k);
      TellsStep(s, h, actions[0], t, k);
      TellsRun(Apply(s, actions[0]), Noted(h, s, actions[0]), actions[1..], s', t, k);
    }
  }

  // ------------------------------------------------------------------
  // Back-off
  // ------------------------------------------------------------------

  /** The wait after `a` failed attempts ends in second `due`. */
  predicate WaitsUntil(s: State, k: Key, a: nat, due: int) {
    1 <= a <= 4 && k in s.failedAt && Unix(s.failedAt[k] + RETRY_DELAYS[a - 1]) == due
  }

  /** By second `until` the wait after `a` failed attempts is over, but for what rounding to seconds cuts off. */
  predicate WaitedFor(s: State, k: Key, a: nat, until: int) {
    1 <= a <= 4 && k in s.failedAt && Unix(s.failedAt[k] + RETRY_DELAYS[a - 1]) <= until
  }

  ghost predicate JobSpaced(s: State, h: Notes, k: Key, job: Job) {
    match job
    case Loading => k !in h.early ==> k in s.data && WaitedFor(s, k, s.data[k].attempt, Unix(s.now))
    case Delivering(a, retry) => retry && k !in h.early ==> WaitedFor(s, k, a, Unix(s.now))
    case Storing(a, due) => WaitsUntil(s, k, a, due)
    case Enqueueing(a, due) => WaitsUntil(s, k, a, due)
    case _ => true
  }

  /**
   Webhook `k` is queued for the second its back-off ends in. Unless its last claim was early, it is being
   retried at a time its back-off allows.
   */
  ghost predicate Spaced(s: State, h: Notes, k: Key) {
    && (k in s.queue ==> k in s.data && WaitsUntil(s, k, s.data[k].attempt, s.queue[k]))
    && (forall t :: 0 <= t < |s.threads| && IsOn(s.threads[t], k) ==> JobSpaced(s, h, k, s.threads[t].job))
  }

  lemma OthersStaySpaced(s: State, s': State, h: Notes, h': Notes, k: Key)
    requires Spaced(s, h, k) && SameFor(s, s', k) && s.now <= s'.now && (k in h'.early <==> k in h.early)
    ensures Spaced(s', h', k)
  {
    UnixOrder(s.now, s'.now);
  }

  lemma SpacedAfterClaim(s: State, h: Notes, t: nat)
    requires Enabled(s, Claim(t)) && KeyInv(s, s.threads[t].todo[0]) && Spaced(s, h, s.threads[t].todo[0])
    ensures Spaced(Apply(s, Claim(t)), Noted(h, s, Claim(t)), s.threads[t].todo[0])
  {}

  lemma SpacedAfterLoad(s: State, h: Notes, t: nat)
    requires Enabled(s, Load(t)) && KeyInv(s, s.threads[t].key) && Spaced(s, h, s.threads[t].key)
    ensures Spaced(Apply(s, Load(t)), Noted(h, s, Load(t)), s.threads[t].key)
  {
    assert IsOn(s.threads[t], s.threads[t].key);
  }

  lemma SpacedAfterDeliver(s: State, h: Notes, t: nat, ok: bool)
    requires Enabled(s, Deliver(t, ok)) && KeyInv(s, s.threads[t].key) && Spaced(s, h, s.threads[t].key)
    ensures Spaced(Apply(s, Deliver(t, ok)), Noted(h, s, Deliver(t, ok)), s.threads[t].key)
  {
    assert IsOn(s.threads[t], s.threads[t].key);
    assert JobFits(s, s.threads[t].key, s.threads[t].job);
  }

  lemma SpacedAfterStoring(s: State, h: Notes, t: nat)
    requires t < |s.threads| && s.threads[t].Busy? && KeyInv(s, s.threads[t].key) && Spaced(s, h, s.threads[t].key)
    requires s.threads[t].job.Storing? || s.threads[t].job.Enqueueing?
    ensures Spaced(AdvanceJob(s, t), h, s.threads[t].key)
  {
    assert IsOn(s.threads[t], s.threads[t].key);
  }

  lemma SpacedAfterOther(s: State, h: Notes, t: nat)
    requires t < |s.threads| && s.threads[t].Busy? && KeyInv(s, s.threads[t].key) && Spaced(s, h, s.threads[t].key)
    requires var job := s.threads[t].job;
             job.RecordingExhausted? || job.DroppingExhausted? || job.Clearing? || job.RecordingDelivered?
    ensures Spaced(AdvanceJob(s, t), h, s.threads[t].key)
  {
    assert IsOn(s.threads[t], s.threads[t].key);
  }

  lemma SpacedAfterAdvance(s: State, h: Notes, t: nat)
    requires Enabled(s, Advance(t)) && KeyInv(s, s.threads[t].key) && Spaced(s, h, s.threads[t].key)
    ensures Spaced(AdvanceJob(s, t), h, s.threads[t].key)
  {
    if s.threads[t].job.Storing? || s.threads[t].job.Enqueueing? {
      SpacedAfterStoring(s, h, t);
    } else {
      SpacedAfterOther(s, h, t);
    }
  }

  lemma SameEarly(s: State, h: Notes, h': Notes, k: Key)
    requires Spaced(s, h, k) && h'.early == h.early
    ensures Spaced(s, h', k)
  {}

  /** A step of the thread that has the webhook in hand. */
  lemma SpacedOwnStep(s: State, h: Notes, a: Action, k: Key)
    requires Enabled(s, a) && KeyInv(s, k) && Spaced(s, h, k) && k == KeyOf(s, a) && !a.Tick? && !a.Poll?
    ensures Spaced(Apply(s, a), Noted(h, s, a), k)
  {
    match a
    case Send(_, _) =>
    case Claim(t) => SpacedAfterClaim(s, h, t);
    case Load(t) => SpacedAfterLoad(s, h, t);
    case Deliver(t, ok) => SpacedAfterDeliver(s, h, t, ok);
    case Advance(t) =>
      SpacedAfterAdvance(s, h, t);
      SameEarly(AdvanceJob(s, t), h, Noted(h, s, a), k);
  }

  lemma EarlyElsewhere(s: State, h: Notes, a: Action, k: Key)
    requires Enabled(s, a) && (k != KeyOf(s, a) || a.Tick? || a.Poll?)
    ensures k in Noted(h, s, a).early <==> k in h.early
  {}

  lemma SpacedStep(s: State, h: Notes, a: Action, k: Key)
    requires Inv(s) && Enabled(s, a) && Spaced(s, h, k)
    ensures Spaced(Apply(s, a), Noted(h, s, a), k)
  {
    assert KeyInv(s, k);
    if k != KeyOf(s, a) || a.Tick? || a.Poll? {
      OtherKeysSame(s, a, k);
      NowGrows(s, a);
      EarlyElsewhere(s, h, a, k);
      OthersStaySpaced(s, Apply(s, a), h, Noted(h, s, a), k);
    } else {
      SpacedOwnStep(s, h, a, k);
    }
  }

  lemma NowGrows(s: State, a: Action)
    requires Enabled(s, a)
    ensures s.now <= Apply(s, a).now
  {
    if a.Advance? {
      AdvanceThreads(s, a.t);
    }
  }

  lemma {:induction false} SpacedRun(s: State, h: Notes, actions: seq<Action>, s': State, k: Key)
    requires Inv(s) && Runs(s, actions, s') && Spaced(s, h, k)
    ensures Inv(s') && Spaced(s', After(h, s, actions), k)
    decreases |actions|
  {
    if actions != [] {
      StepKeeps(s, actions[0]);
      SpacedStep(s, h, actions[0], k);
      SpacedRun(Apply(s, actions[0]), Noted(h, s, actions[0]), actions[1..], s', k);
    }
  }

  /** A queued webhook is due in the second its back-off ends: 10, 30, 90 or 270 seconds after its last failure. */
  lemma DueAfterBackOff(s: State, k: Key)
    requires Reachable(s) && k in s.queue
    ensures k in s.log && k in s.failedAt && 1 <= s.log[k].failures <= 4
    ensures var wait := match s.log[k].failures case 1 => 10 case 2 => 30 case 3 => 90 case _ => 270;
            s.queue[k] == Unix(s.failedAt[k]) + wait
  {
    var start, actions :| Initial(start) && Runs(start, actions, s);
    InitialInv(start);
    SpacedRun(start, BEGIN, actions, s, k);
    assert KeyInv(s, k);
  }

  /**
   Exactly when a claim is early, with any number of workers: when the webhook was queued again after the
   claimer's poll, for a second that is still ahead. It is then, and only then, claimed within its
   back-off.
   */
  lemma ClaimIsEarlyIff(start: State, actions: seq<Action>, s: State, t: nat)
    requires Initial(start) && Runs(start, actions, s) && Enabled(s, Claim(t)) && s.threads[t].todo[0] in s.queue
    ensures var k, h := s.threads[t].todo[0], After(BEGIN, start, actions);
            && k in h.due && k in s.data
            && (Unix(s.now) < s.queue[k] <==> PolledAt(h, t) < EnqueuedAt(h, k) && Unix(s.now) < h.due[k])
            && (Unix(s.now) < s.queue[k] <==> !WaitedFor(s, k, s.data[k].attempt, Unix(s.now)))
  {
    var k := s.threads[t].todo[0];
    InitialInv(start);
    ThreadsStay(start, actions, s);
    TellsRun(start, BEGIN, actions, s, t, k);
    SpacedRun(start, BEGIN, actions, s, k);
    assert BatchTells(s, After(BEGIN, start, actions), t, k);
  }

  /**
   With any number of workers a retry never comes a full second earlier than its back-off after the last
   failure, unless it was claimed early: both the due time and the time of the poll are cut to seconds.
   */
  lemma RetriesAreSpaced(start: State, actions: seq<Action>, s: State, t: nat, ok: bool)
    requires Initial(start) && Runs(start, actions, s) && Enabled(s, Deliver(t, ok))
    requires s.threads[t].key !in After(BEGIN, start, actions).early
    ensures var k := s.threads[t].key;
            var failures := s.log[k].failures;
            failures > 0 ==>
              && failures <= 4 && k in s.failedAt
              && s.failedAt[k] + (match failures case 1 => 10 case 2 => 30 case 3 => 90 case _ => 270) * 1_000_000_000
                 < s.now + 1_000_000_000
  {
    var k := s.threads[t].key;
    InitialInv(start);
    SpacedRun(start, BEGIN, actions, s, k);
    assert KeyInv(s, k) && IsOn(s.threads[t], k);
    assert JobFits(s, k, s.threads[t].job);
    assert JobSpaced(s, After(BEGIN, start, actions), k, s.threads[t].job);
    var failures := s.log[k].failures;
    if failures > 0 {
      UnixOrder(s.failedAt[k] + RETRY_DELAYS[failures - 1], s.now);
    }
  }

  lemma {:induction false} SoleWorkerRun(s: State, h: Notes, actions: seq<Action>, s': State, w: nat)
    requires Inv(s) && Runs(s, actions, s') && BatchIsDue(s, w) && PolledOnlyBy(actions, w) && h.early == {}
    ensures After(h, s, actions).early == {}
    decreases |actions|
  {
    if actions != [] {
      StepKeeps(s, actions[0]);
      BatchStaysDue(s, actions[0], w);
      if actions[0].Claim? {
        assert Todo(s, actions[0].t) == s.threads[actions[0].t].todo;
      }
      SoleWorkerRun(Apply(s, actions[0]), Noted(h, s, actions[0]), actions[1..], s', w);
    }
  }

  /** With a single polling worker nothing is claimed early, so every retry is spaced. */
  lemma SoleWorkerIsNeverEarly(start: State, actions: seq<Action>, s: State, w: nat)
    requires Initial(start) && Runs(start, actions, s) && PolledOnlyBy(actions, w)
    ensures After(BEGIN, start, actions).early == {}
  {
    InitialInv(start);
    SoleWorkerRun(start, BEGIN, actions, s, w);
  }

  // ------------------------------------------------------------------
  // How long a payload is kept
  // ------------------------------------------------------------------

  /** The payload was stored after the last failure, for 24 hours from then. */
  predicate StoredSinceFailure(s: State, k: Key) {
    k in s.data && k in s.failedAt && s.failedAt[k] + DATA_TTL <= s.data[k].expiresAt
  }

  ghost predicate JobKept(s: State, k: Key, job: Job) {
    match job
    case Loading => StoredSinceFailure(s, k)
    case Storing(_, _) => k in s.failedAt && s.failedAt[k] <= s.now
    case Enqueueing(_, _) => StoredSinceFailure(s, k)
    case _ => true
  }

  ghost predicate Kept(s: State, k: Key) {
    && (k in s.data ==> s.data[k].expiresAt <= s.now + DATA_TTL)
    && (k in s.queue ==> StoredSinceFailure(s, k))
    && (k in s.lost ==> k in s.failedAt && s.failedAt[k] + DATA_TTL <= s.now)
    && (forall t :: 0 <= t < |s.threads| && IsOn(s.threads[t], k) ==> JobKept(s, k, s.threads[t].job))
  }

  lemma OthersStayKept(s: State, s': State, k: Key)
    requires Kept(s, k) && SameFor(s, s', k) && s.now <= s'.now
    ensures Kept(s', k)
  {}

  lemma KeptAfterClaim(s: State, t: nat)
    requires Enabled(s, Claim(t)) && KeyInv(s, s.threads[t].todo[0]) && Kept(s, s.threads[t].todo[0])
    ensures Kept(Apply(s, Claim(t)), s.threads[t].todo[0])
  {}

  lemma KeptAfterLoad(s: State, t: nat)
    requires Enabled(s, Load(t)) && KeyInv(s, s.threads[t].key) && Kept(s, s.threads[t].key)
    ensures Kept(Apply(s, Load(t)), s.threads[t].key)
  {
    assert IsOn(s.threads[t], s.threads[t].key);
  }

  lemma KeptAfterDeliver(s: State, t: nat, ok: bool)
    requires Enabled(s, Deliver(t, ok)) && KeyInv(s, s.threads[t].key) && Kept(s, s.threads[t].key)
    ensures Kept(Apply(s, Deliver(t, ok)), s.threads[t].key)
  {
    assert IsOn(s.threads[t], s.threads[t].key);
    assert JobFits(s, s.threads[t].key, s.threads[t].job);
  }

  lemma KeptAfterStoring(s: State, t: nat)
    requires t < |s.threads| && s.threads[t].Busy? && KeyInv(s, s.threads[t].key) && Kept(s, s.threads[t].key)
    requires s.threads[t].job.Storing? || s.threads[t].job.Enqueueing?
    ensures Kept(AdvanceJob(s, t), s.threads[t].key)
  {
    assert IsOn(s.threads[t], s.threads[t].key);
  }

  lemma KeptAfterOther(s: State, t: nat)
    requires t < |s.threads| && s.threads[t].Busy? && KeyInv(s, s.threads[t].key) && Kept(s, s.threads[t].key)
    requires var job := s.threads[t].job;
             job.RecordingExhausted? || job.DroppingExhausted? || job.Clearing? || job.RecordingDelivered?
    ensures Kept(AdvanceJob(s, t), s.threads[t].key)
  {
    assert IsOn(s.threads[t], s.threads[t].key);
  }

  lemma KeptOwnStep(s: State, a: Action, k: Key)
    requires Enabled(s, a) && KeyInv(s, k) && Kept(s, k) && k == KeyOf(s, a) && !a.Tick? && !a.Poll?
    ensures Kept(Apply(s, a), k)
  {
    match a
    case Send(_, _) =>
    case Claim(t) => KeptAfterClaim(s, t);
    case Load(t) => KeptAfterLoad(s, t);
    case Deliver(t, ok) => KeptAfterDeliver(s, t, ok);
    case Advance(t) =>
      if s.threads[t].job.Storing? || s.threads[t].job.Enqueueing? {
        KeptAfterStoring(s, t);
      } else {
        KeptAfterOther(s, t);
      }
  }

  lemma KeptStep(s: State, a: Action, k: Key)
    requires Inv(s) && Enabled(s, a) && Kept(s, k)
    ensures Kept(Apply(s, a), k)
  {
    assert KeyInv(s, k);
    if k != KeyOf(s, a) || a.Tick? || a.Poll? {
      OtherKeysSame(s, a, k);
      NowGrows(s, a);
      OthersStayKept(s, Apply(s, a), k);
    } else {
      KeptOwnStep(s, a, k);
    }
  }

  lemma {:induction false} KeptRun(s: State, actions: seq<Action>, s': State, k: Key)
    requires Inv(s) && Runs(s, actions, s') && Kept(s, k)
    ensures Kept(s', k)
    decreases |actions|
  {
    if actions != [] {
      StepKeeps(s, actions[0]);
      KeptStep(s, actions[0], k);
      KeptRun(Apply(s, actions[0]), actions[1..], s', k);
    }
  }

  /**
   A payload waiting for its retry is kept until 24 hours after the last failure, and never for more than
   24 hours from now; so a webhook is lost only when a worker came for it 24 hours after its last failure.
   */
  lemma PayloadLivesADay(s: State, k: Key)
    requires Reachable(s)
    ensures k in s.queue ==>
              && k in s.data && k in s.failedAt
              && s.failedAt[k] + 86_400_000_000_000 <= s.data[k].expiresAt <= s.now + 86_400_000_000_000
    ensures k in s.lost ==> k in s.failedAt && s.failedAt[k] + 86_400_000_000_000 <= s.now
  {
    var start, actions :| Initial(start) && Runs(start, actions, s);
    InitialInv(start);
    KeptRun(start, actions, s, k);
  }

  // ------------------------------------------------------------------
  // Early claims
  // ------------------------------------------------------------------

  lemma ReachableThen(s: State, a: Action)
    requires Reachable(s) && Enabled(s, a)
    ensures Reachable(Apply(s, a))
  {
    var start, actions :| Initial(start) && Runs(start, actions, s);
    Systems.Then(Next, start, actions, s, a, Apply(s, a));
    assert Runs(start, actions + [a], Apply(s, a));
  }

  /** With two workers a stale batch lets one of them claim a webhook 30 seconds before it is due. */
  lemma StaleBatchClaimsEarly(k: Key) returns (s: State)
    ensures Reachable(s) && Enabled(s, Claim(1)) && s.threads[1].todo[0] == k
    ensures k in s.queue && s.queue[k] == Unix(s.now) + 30
  {
    s := State(0, map[], map[], map[], map[], [Free([]), Free([])], map[], map[], {});
    assert Runs(s, [], s);
    s := FailFirst(s, k);
    ReachableThen(s, Tick(10_000_000_000));
    s := Apply(s, Tick(10_000_000_000));
    s := PollTwice(s, k);
    s := FailSecond(s, k);
  }

  /** Even a single worker may retry almost a second early: here 9 seconds and a nanosecond after the failure. */
  lemma RoundingComesEarly(k: Key) returns (s: State)
    ensures Reachable(s) && |s.threads| == 1 && Enabled(s, Deliver(0, true)) && s.threads[0].key == k
    ensures k in s.failedAt && s.now == s.failedAt[k] + 9_000_000_001
  {
    s := State(0, map[], map[], map[], map[], [Free([])], map[], map[], {});
    assert Runs(s, [], s);
    assert Initial(s);
    ReachableThen(s, Tick(999_999_999));
    s := Apply(s, Tick(999_999_999));
    ReachableThen(s, Send(0, k));
    s := Apply(s, Send(0, k));
    assert s.threads[0] == Busy(k, Delivering(0, false), []);
    s := FailAttempt(s, 0);
    ReachableThen(s, Tick(9_000_000_001));
    s := Apply(s, Tick(9_000_000_001));
    s := RetryAt(s, k);
  }

  lemma RetryAt(s: State, k: Key) returns (s': State)
    requires Reachable(s) && s.now == 10_000_000_000 && s.queue == map[k := 10] && s.threads == [Free([])]
    requires k in s.data && s.now < s.data[k].expiresAt && k in s.log
    ensures Reachable(s') && s'.now == s.now && s'.failedAt == s.failedAt && |s'.threads| == 1
    ensures Enabled(s', Deliver(0, true)) && s'.threads[0].key == k
  {
    assert IsDueBatch(s.queue, 10, [k]);
    ReachableThen(s, Poll(0, 10, [k]));
    s' := ClaimAndLoad(Apply(s, Poll(0, 10, [k])), 0);
  }

  lemma PollTwice(s: State, k: Key) returns (s': State)
    requires Reachable(s) && s.now == 10_000_000_000 && s.queue == map[k := 10] && s.threads == [Free([]), Free([])]
    ensures Reachable(s') && s' == s.(threads := [Free([k]), Free([k])])
  {
    assert IsDueBatch(s.queue, 10, [k]);
    ReachableThen(s, Poll(0, 10, [k]));
    s' := Apply(s, Poll(0, 10, [k]));
    ReachableThen(s', Poll(1, 10, [k]));
    s' := Apply(s', Poll(1, 10, [k]));
  }

  lemma FailFirst(s: State, k: Key) returns (s': State)
    requires Reachable(s) && s == State(0, map[], map[], map[], map[], [Free([]), Free([])], map[], map[], {})
    ensures Reachable(s') && s'.now == 0 && s'.queue == map[k := 10] && s'.threads == [Free([]), Free([])]
    ensures s'.data == map[k := Stored(1, DATA_TTL)] && k in s'.log
  {
    ReachableThen(s, Send(0, k));
    s' := Apply(s, Send(0, k));
    assert s'.threads[0] == Busy(k, Delivering(0, false), []);
    s' := FailAttempt(s', 0);
  }

  lemma FailSecond(s: State, k: Key) returns (s': State)
    requires Reachable(s) && s.now == 10_000_000_000 && s.queue == map[k := 10] && s.threads == [Free([k]), Free([k])]
    requires s.data == map[k := Stored(1, DATA_TTL)] && k in s.log
    ensures Reachable(s') && s'.now == 10_000_000_000 && s'.queue == map[k := 40] && s'.threads == [Free([]), Free([k])]
  {
    s' := ClaimAndLoad(s, 0);
    assert s.threads[0].todo[1..] == [];
    assert s'.threads == [Busy(k, Delivering(1, true), []), Free([k])];
    s' := FailAttempt(s', 0);
  }

  lemma ClaimAndLoad(s: State, t: nat) returns (s': State)
    requires Reachable(s) && Enabled(s, Claim(t))
    requires var k := s.threads[t].todo[0];
             k in s.queue && k in s.log && k in s.data && s.now < s.data[k].expiresAt
    ensures var k := s.threads[t].todo[0];
            && Reachable(s') && s'.now == s.now && s'.queue == s.queue - {k} && s'.data == s.data && k in s'.log
            && s'.failedAt == s.failedAt
            && s'.threads == s.threads[t := Busy(k, Delivering(s.data[k].attempt, true), s.threads[t].todo[1..])]
  {
    ReachableThen(s, Claim(t));
    s' := Apply(s, Claim(t));
    ReachableThen(s', Load(t));
    s' := Apply(s', Load(t));
  }

  lemma FailAttempt(s: State, t: nat) returns (s': State)
    requires Reachable(s) && t < |s.threads| && s.threads[t].Busy? && s.threads[t].key in s.log
    requires s.threads[t].job.Delivering? && s.threads[t].job.attempt < 4
    ensures var Busy(k, job, todo) := s.threads[t];
            && Reachable(s') && s'.now == s.now && k in s'.log
            && s'.data == s.data[k := Stored(job.attempt + 1, s.now + DATA_TTL)]
            && s'.queue == s.queue[k := Unix(s.now + RETRY_DELAYS[job.attempt])]
            && s'.failedAt == s.failedAt[k := s.now]
            && s'.threads == s.threads[t := Free(todo)]
  {
    var Busy(k, job, todo) := s.threads[t];
    ReachableThen(s, Deliver(t, false));
    s' := Apply(s, Deliver(t, false));
    s' := Requeue(s', t, job.attempt + 1, Unix(s.now + RETRY_DELAYS[job.attempt]));
  }

  lemma Requeue(s: State, t: nat, a: nat, due: int) returns (s': State)
    requires Reachable(s) && t < |s.threads| && s.threads[t].Busy? && s.threads[t].key in s.log
    requires s.threads[t].job == Storing(a, due)
    ensures var Busy(k, _, todo) := s.threads[t];
            && Reachable(s') && s'.now == s.now && k in s'.log
            && s'.data == s.data[k := Stored(a, s.now + DATA_TTL)]
            && s'.queue == s.queue[k := due] && s'.failedAt == s.failedAt
            && s'.threads == s.threads[t := Free(todo)]
  {
    ReachableThen(s, Advance(t));
    s' := Apply(s, Advance(t));
    ReachableThen(s', Advance(t));
    s' := Apply(s', Advance(t));
  }
}
