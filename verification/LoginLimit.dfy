/**
 The limit on login tries from one address: a Redis counter that each try increments, that expires an
 hour after it stood at one, and that a successful login decrements again. Times are in seconds.
 */
module LoginLimit {
  import opened Text

  const MAX_LOGIN_ATTEMPTS_PER_IP: int := 10
  const LOGIN_RATE_LIMIT_WINDOW: int := 3600

  datatype Counter = Counter(count: int, expiresAt: Option<int>)

  /** The counter of an address as it was last written; it may have expired since. */
  type Entry = Option<Counter>

  predicate IsLive(e: Entry, now: int) {
    e.Some? && (e.value.expiresAt.Some? ==> now < e.value.expiresAt.value)
  }

  function CountAt(e: Entry, now: int): int {
    if IsLive(e, now) then e.value.count else 0
  }

  /** INCR, and EXPIRE when the answer is one. */
  function Incremented(e: Entry, now: int): Counter {
    var n := CountAt(e, now) + 1;
    Counter(n, if n == 1 then Some(now + LOGIN_RATE_LIMIT_WINDOW)
               else if IsLive(e, now) then e.value.expiresAt else None)
  }

  /** DECR, which makes an expired counter anew, with no expiry. */
  function Decremented(e: Entry, now: int): Counter {
    Counter(CountAt(e, now) - 1, if IsLive(e, now) then e.value.expiresAt else None)
  }

  predicate Refuses(e: Entry, now: int) {
    Incremented(e, now).count > MAX_LOGIN_ATTEMPTS_PER_IP
  }

  /** The counter after a try, which if let through may succeed. */
  function Tried(e: Entry, now: int, later: int, loggedIn: bool): Counter {
    var counter := Incremented(e, now);
    if loggedIn && !Refuses(e, now) then Decremented(Some(counter), later) else counter
  }

  /** What a counter looks like that was last written by time `now`. */
  predicate Fits(e: Entry, now: int) {
    e.Some? ==>
      match e.value.expiresAt
      case Some(end) => 0 <= e.value.count && end <= now + LOGIN_RATE_LIMIT_WINDOW
      case None => -1 <= e.value.count <= 0
  }

  lemma TriedFits(e: Entry, now: int, later: int, loggedIn: bool)
    requires Fits(e, now) && now <= later
    ensures Fits(Some(Tried(e, now, later, loggedIn)), later)
  {}

  function Windows(from: int, until: int): nat {
    if until < from then 0 else (until - from) / LOGIN_RATE_LIMIT_WINDOW
  }

  lemma WindowsShrink(from: int, later: int, until: int)
    requires from <= later
    ensures Windows(later, until) <= Windows(from, until)
    ensures later <= until && from + LOGIN_RATE_LIMIT_WINDOW <= later ==>
              1 + Windows(later, until) <= Windows(from, until)
    ensures later <= from + LOGIN_RATE_LIMIT_WINDOW ==> Windows(from, until) <= 1 + Windows(later, until)
  {}

  function Left(count: int): nat {
    if count < MAX_LOGIN_ATTEMPTS_PER_IP then MAX_LOGIN_ATTEMPTS_PER_IP - count else 0
  }

  /** How many more tries may be let through from `from` to `until` without one succeeding. */
  function Room(e: Entry, from: int, until: int): nat {
    if until < from then 0
    else if !IsLive(e, from) then 10 + 11 * Windows(from, until)
    else match e.value.expiresAt
      case None => Left(e.value.count) + 11 * Windows(from, until)
      case Some(end) => Left(e.value.count) + if until < end then 0 else 11 * (1 + Windows(end, until))
  }

  lemma RoomShrinks(e: Entry, from: int, later: int, until: int)
    requires from <= later
    ensures Room(e, later, until) <= Room(e, from, until)
  {
    WindowsShrink(from, later, until);
    if IsLive(e, from) && e.value.expiresAt.Some? && e.value.expiresAt.value <= later {
      WindowsShrink(e.value.expiresAt.value, later, until);
    }
  }

  lemma IncrementUsesRoom(e: Entry, now: int, until: int)
    requires Fits(e, now) && now <= until
    ensures Room(Some(Incremented(e, now)), now, until) + (if Refuses(e, now) then 0 else 1) <= Room(e, now, until)
  {
    WindowsShrink(now, now + LOGIN_RATE_LIMIT_WINDOW, until);
    if IsLive(e, now) && e.value.expiresAt.Some? {
      WindowsShrink(now, e.value.expiresAt.value, until);
    }
  }

  /** A success gives back what its try used, and no more. */
  lemma SuccessKeepsRoom(e: Entry, now: int, later: int, until: int)
    requires Fits(e, now) && now <= until && now <= later && !Refuses(e, now)
    ensures Room(Some(Tried(e, now, later, true)), later, until) <= Room(e, now, until)
  {
    WindowsShrink(now, later, until);
    WindowsShrink(now, now + LOGIN_RATE_LIMIT_WINDOW, until);
    if IsLive(e, now) && e.value.expiresAt.Some? {
      WindowsShrink(now, e.value.expiresAt.value, until);
      if e.value.expiresAt.value <= later {
        WindowsShrink(e.value.expiresAt.value, later, until);
      }
    }
  }

  /** A try that is let through and fails uses up some room; no try makes any. */
  lemma TryUsesRoom(e: Entry, now: int, later: int, loggedIn: bool, until: int)
    requires Fits(e, now) && now <= later && now <= until
    ensures var room := Room(Some(Tried(e, now, later, loggedIn)), later, until);
            room + (if Refuses(e, now) || loggedIn then 0 else 1) <= Room(e, now, until)
  {
    if loggedIn && !Refuses(e, now) {
      SuccessKeepsRoom(e, now, later, until);
    } else {
      IncrementUsesRoom(e, now, until);
      RoomShrinks(Some(Incremented(e, now)), now, later, until);
    }
  }

  lemma RoomBounded(e: Entry, from: int, time: nat)
    requires Fits(e, from)
    ensures Room(e, from, from + time) <= 21 + 11 * (time / 3600)
    ensures e == None ==> Room(e, from, from + time) <= 10 + 11 * (time / 3600)
  {
    if IsLive(e, from) && e.value.expiresAt.Some? {
      WindowsShrink(from, e.value.expiresAt.value, from + time);
    }
  }

  /**
   A successful login leaves a counter below zero, which never expires, if and only if the counter expired
   while it was under way or was below zero before.
   */
  lemma BelowZeroIff(e: Entry, now: int, later: int)
    requires Fits(e, now) && now <= later && !Refuses(e, now)
    ensures Tried(e, now, later, true).count < 0 <==>
            CountAt(e, now) < 0 || !IsLive(Some(Incremented(e, now)), later)
    ensures Tried(e, now, later, true).count < 0 ==> Tried(e, now, later, true).expiresAt.None?
  {}
}
