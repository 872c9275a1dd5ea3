/**
 The authentication service's methods, over the user table and the sessions kept in Redis. Each call
 is one step of the runs in AuthRuns.
 */
module AuthService {
  import opened Text
  import opened Lockout
  import opened LoginLimit
  import opened AuthRuns

  /** One failure more, and from the fifth on a lock of fifteen minutes. */
  function FailureCounted(users: map<string, User>, email: string, later: int): map<string, User>
    requires email in users
  {
    var n := users[email].throttle.failures + 1;
    users[email := users[email].(throttle := Throttle(n, if n >= 5 then Some(later + 900) else None))]
  }

  /** The tries counted for an address; none once its counter has expired. */
  function TriesOf(limits: map<string, Counter>, clientIP: string, now: int): int {
    if clientIP in limits && (limits[clientIP].expiresAt == None || now < limits[clientIP].expiresAt.value)
    then limits[clientIP].count
    else 0
  }

  /** The counter of an address after another try: the first one sets it to expire in an hour. */
  function TryCounted(limits: map<string, Counter>, clientIP: string, now: int): Counter {
    var n := TriesOf(limits, clientIP, now) + 1;
    Counter(n, if n == 1 then Some(now + 3600) else if clientIP in limits then limits[clientIP].expiresAt else None)
  }

  /** The counter after a login succeeded: a try fewer, or anew if it has expired. */
  function TakenBack(c: Counter, later: int): Counter {
    if c.expiresAt.Some? && c.expiresAt.value <= later then Counter(-1, None) else Counter(c.count - 1, c.expiresAt)
  }

  /** What a login does to the limit on its address. */
  lemma LimitAfterLogin(s: State, c: Call)
    requires Enabled(s, c) && c.Login?
    ensures LoginOutcome(s, c).RateLimited? <==> TriesOf(s.limits, c.clientIP, c.now) >= 10
    ensures var counter := TryCounted(s.limits, c.clientIP, c.now);
            Apply(s, c).limits
            == s.limits[c.clientIP := if LoginOutcome(s, c).LoggedIn? then TakenBack(counter, c.later) else counter]
  {}

  /** What a login does to accounts and sessions. */
  lemma AccountsAfterLogin(s: State, c: Call)
    requires Valid(s) && Enabled(s, c) && c.Login?
    ensures var r, s' := LoginOutcome(s, c), Apply(s, c);
            && (r.LoggedIn? ==>
                  && c.email in s.users
                  && s'.users == s.users[c.email := s.users[c.email].(throttle := Throttle(0, None))]
                  && s'.created == s.created[c.id := c.later])
            && (IsFailure(r) ==> c.email in s.users && s'.users == FailureCounted(s.users, c.email, c.later))
            && (!r.LoggedIn? && !IsFailure(r) ==> s'.users == s.users)
            && (!r.LoggedIn? ==> s'.sessions == s.sessions && s'.created == s.created)
  {}

  class AuthService {
    const hash: string -> string
    var limits: map<string, Counter>
    var users: map<string, User>
    var sessions: map<SessionId, Stored>
    // When each session was created, and the sessions that were ended.
    ghost var created: map<SessionId, int>
    ghost var ended: set<SessionId>

    ghost function View(): State
      reads this
    {
      State(limits, users, sessions, created, ended)
    }

    constructor (users: map<string, User>, hash: string -> string)
      requires forall email :: email in users ==> ThrottleFits(users[email].throttle, MAX_FAILED_ATTEMPTS)
      ensures Initial(View()) && Valid(View()) && this.users == users && this.hash == hash
    {
      this.hash, this.users := hash, users;
      limits, sessions, created, ended := map[], map[], map[], {};
    }

    // ----------------------------------------------------------------
    // Login
    // ----------------------------------------------------------------

    /** INCR: the counter one higher, with the expiry it has; an expired counter starts at one. */
    method Incr(key: string, now: int) returns (n: int)
      modifies `limits
      ensures n == CountAt(LimitOf(old(View()), key), now) + 1
      ensures var e := LimitOf(old(View()), key);
              limits == old(limits)[key := Counter(n, if IsLive(e, now) then e.value.expiresAt else None)]
    {
      if key in limits && (limits[key].expiresAt.Some? ==> now < limits[key].expiresAt.value) {
        n := limits[key].count + 1;
        limits := limits[key := Counter(n, limits[key].expiresAt)];
      } else {
        n := 1;
        limits := limits[key := Counter(1, None)];
      }
    }

    method Decr(key: string, now: int)
      modifies `limits
      ensures limits == old(limits)[key := Decremented(LimitOf(old(View()), key), now)]
    {
      if key in limits && (limits[key].expiresAt.Some? ==> now < limits[key].expiresAt.value) {
        limits := limits[key := Counter(limits[key].count - 1, limits[key].expiresAt)];
      } else {
        limits := limits[key := Counter(-1, None)];
      }
    }

    /** The seconds to wait when the limit on an address is exceeded, else zero. */
    method CountTry(clientIP: string, now: int) returns (retryAfter: int)
      modifies `limits
      ensures limits == old(limits)[clientIP := Incremented(LimitOf(old(View()), clientIP), now)]
      ensures retryAfter > 0 <==> Refuses(LimitOf(old(View()), clientIP), now)
      ensures retryAfter >= 0
      ensures retryAfter > 0 ==>
                var c := limits[clientIP];
                retryAfter == if c.expiresAt.Some? then c.expiresAt.value - now else LOGIN_RATE_LIMIT_WINDOW
    {
      var attemptCount := Incr(clientIP, now);
      if attemptCount == 1 {
        limits := limits[clientIP := Counter(1, Some(now + LOGIN_RATE_LIMIT_WINDOW))];
      }
      if attemptCount > MAX_LOGIN_ATTEMPTS_PER_IP {
        var ttl := if limits[clientIP].expiresAt.Some? then limits[clientIP].expiresAt.value - now else -1;
        return if ttl <= 0 then LOGIN_RATE_LIMIT_WINDOW else ttl;
      }
      return 0;
    }

    method RecordFailedAttempt(email: string, now: int, later: int)
      requires Valid(View()) && email in users && !Locked(users[email].throttle, now)
      modifies `users
      ensures View() == Recorded(old(View()), email, now, later)
    {
      var user := users[email];
      assert ThrottleFits(user.throttle, MAX_FAILED_ATTEMPTS);
      var attempts := user.throttle.failures + 1;
      var lockedUntil := None;
      if attempts >= MAX_FAILED_ATTEMPTS {
        lockedUntil := Some(later + LOCK_DURATION);
      }
      users := users[email := user.(throttle := Throttle(attempts, lockedUntil))];
    }

    method StoreSession(id: SessionId, s: Session, now: int)
      modifies `sessions
      ensures sessions == old(sessions)[id := Stored(s, now + SESSION_TTL)]
    {
      sessions := sessions[id := Stored(s, now + SESSION_TTL)];
    }

    /** Looks the account up and checks lock, password and code; a wrong one is recorded. */
    method CheckAccount(email: string, passwordOk: bool, codeGiven: bool, codeOk: bool, now: int, later: int,
                        ghost c: Call) returns (r: LoginResult)
      requires Valid(View()) && c.Login? && c.email == email && c.passwordOk == passwordOk
      requires c.codeGiven == codeGiven && c.codeOk == codeOk && c.now == now
      modifies `users
      ensures r == AccountOutcome(old(View()), c)
      ensures View() == if IsFailure(r) then Recorded(old(View()), email, now, later) else old(View())
      ensures r.LoggedIn? ==> email in users
    {
      if email !in users {
        return UnknownUser;
      }
      var user := users[email];
      if !user.active {
        return Disabled;
      }
      if user.throttle.lockedUntil.Some? && now < user.throttle.lockedUntil.value {
        return AccountLocked;
      }
      if !passwordOk {
        RecordFailedAttempt(email, now, later);
        return WrongPassword;
      }
      if user.totpEnabled {
        if !codeGiven {
          return CodeRequired;
        }
        if !codeOk {
          RecordFailedAttempt(email, now, later);
          return WrongCode;
        }
      }
      return LoggedIn;
    }

    /** A successful login: forgets the failures, takes back the try and stores a new session. */
    method StartSession(email: string, clientIP: string, userAgent: string, id: SessionId, later: int, ghost c: Call)
      requires email in users && c.Login? && c.email == email && c.clientIP == clientIP
      requires c.agentHash == hash(userAgent) && c.id == id && c.later == later
      modifies this
      ensures View() == Granted(old(View()), c)
    {
      users := users[email := users[email].(throttle := Throttle(0, None))];
      Decr(clientIP, later);
      var s := Session(email, later, later + SESSION_TTL, clientIP, hash(userAgent), Throttle(0, None));
      StoreSession(id, s, later);
      created := created[id := later];
    }

    /**
     `passwordOk` and `codeOk` are the answers of bcrypt and the TOTP check; `id` is a new UUID. A refusal by
     the limit on the address comes with the seconds to wait.
     */
    method Login(email: string, passwordOk: bool, codeGiven: bool, codeOk: bool, clientIP: string, userAgent: string,
                 id: SessionId, now: int, later: int) returns (r: LoginResult, retryAfter: int)
      requires Valid(View()) && id !in created && now <= later
      modifies this
      ensures Valid(View())
      ensures var c := AuthRuns.Login(email, passwordOk, codeGiven, codeOk, clientIP, hash(userAgent), id, now, later);
              r == LoginOutcome(old(View()), c) && View() == Apply(old(View()), c)
      ensures r.RateLimited? <==> TriesOf(old(limits), clientIP, now) >= 10
      ensures var c := TryCounted(old(limits), clientIP, now);
              && limits == old(limits)[clientIP := if r.LoggedIn? then TakenBack(c, later) else c]
              && (r.RateLimited? ==> retryAfter == if c.expiresAt.Some? then c.expiresAt.value - now else 3600)
      ensures r.RateLimited? <==> retryAfter > 0
      ensures r.LoggedIn? ==>
                && id in sessions && sessions[id].keyExpiresAt == later + 86400
                && sessions[id].session == Session(email, later, later + 86400, clientIP, hash(userAgent),
                                                   Throttle(0, None))
                && users == old(users)[email := old(users)[email].(throttle := Throttle(0, None))]
      ensures IsFailure(r) ==> email in old(users) && users == FailureCounted(old(users), email, later)
      ensures !r.LoggedIn? && !IsFailure(r) ==> users == old(users)
      ensures !r.LoggedIn? ==> sessions == old(sessions) && created == old(created)
      ensures !r.RateLimited? ==> (r.UnknownUser? <==> email !in old(users))
      ensures !r.RateLimited? ==> (r.Disabled? <==> email in old(users) && !old(users)[email].active)
      ensures !r.RateLimited? && !r.UnknownUser? && !r.Disabled? ==>
                var user := old(users)[email];
                var codeMissing, codeWrong := user.totpEnabled && !codeGiven, user.totpEnabled && codeGiven && !codeOk;
                && (r.AccountLocked? <==> Locked(user.throttle, now))
                && (r.WrongPassword? <==> !Locked(user.throttle, now) && !passwordOk)
                && (r.CodeRequired? <==> !Locked(user.throttle, now) && passwordOk && codeMissing)
                && (r.WrongCode? <==> !Locked(user.throttle, now) && passwordOk && codeWrong)
                && (r.LoggedIn? <==> !Locked(user.throttle, now) && passwordOk && !codeMissing && !codeWrong)
    {
      ghost var c := AuthRuns.Login(email, passwordOk, codeGiven, codeOk, clientIP, hash(userAgent), id, now, later);
      ValidStep(View(), c);
      LoginOutcomes(View(), c);
      LimitAfterLogin(View(), c);
      AccountsAfterLogin(View(), c);
      retryAfter := CountTry(clientIP, now);
      if retryAfter > 0 {
        return RateLimited, retryAfter;
      }
      r := CheckAccount(email, passwordOk, codeGiven, codeOk, now, later, c);
      if r.LoggedIn? {
        StartSession(email, clientIP, userAgent, id, later, c);
      }
    }

    // ----------------------------------------------------------------
    // Sessions
    // ----------------------------------------------------------------

    method Drop(id: SessionId)
      modifies `sessions, `ended
      ensures View() == Dropped(old(View()), id)
    {
      sessions := sessions - {id};
      ended := ended + {id};
    }

    /**
     Accepts a session exactly when its key is alive, its own end has not passed and address and agent
     fit; any other live session is ended. No session is accepted later than 24 hours after its login,
     and none that was ended.
     */
    method ValidateSession(id: SessionId, clientIP: string, userAgent: string, now: int)
      returns (r: SessionResult, session: Option<Session>)
      requires Valid(View())
      modifies `sessions, `ended
      ensures Valid(View())
      ensures var c := Validate(id, clientIP, userAgent != "", hash(userAgent), now);
              r == ValidateOutcome(old(View()), c) && View() == Apply(old(View()), c)
      ensures session == if r.Accepted? then Some(old(sessions)[id].session) else None
      ensures r.NotFound? <==> !Alive(old(View()), id, now)
      ensures r.Accepted? <==>
              && Alive(old(View()), id, now)
              && var s := old(sessions)[id].session;
              && now <= s.expiresAt
              && (s.clientIP == "" || clientIP == "" || s.clientIP == clientIP)
              && (s.userAgentHash == "" || userAgent == "" || s.userAgentHash == hash(userAgent))
      ensures r.Accepted? ==> id in created && now <= created[id] + SESSION_TTL && id !in old(ended)
      ensures !(r.Accepted? || r.NotFound?) ==> id !in sessions && id in ended
    {
      ghost var c := Validate(id, clientIP, userAgent != "", hash(userAgent), now);
      ValidStep(View(), c);
      if !(id in sessions && now < sessions[id].keyExpiresAt) {
        return NotFound, None;
      }
      var s := sessions[id].session;
      if now > s.expiresAt {
        Drop(id);
        return SessionExpired, None;
      }
      if s.clientIP != "" && clientIP != "" && s.clientIP != clientIP {
        Drop(id);
        return IPMismatch, None;
      }
      if s.userAgentHash != "" && userAgent != "" {
        var currentHash := hash(userAgent);
        if s.userAgentHash != currentHash {
          Drop(id);
          return AgentMismatch, None;
        }
      }
      return Accepted, Some(s);
    }

    /**
     Checks a second-factor code. The session's own end is not looked at, and every answer that is
     stored gives the key a fresh 24 hours; the session's creation and end stay as they were.
     */
    method ValidateTOTPForSession(id: SessionId, codeOk: bool, now: int, later: int) returns (r: CodeResult)
      requires Valid(View()) && now <= later
      modifies `sessions
      ensures Valid(View())
      ensures r == CodeOutcome(old(View()), Code(id, codeOk, now, later))
      ensures View() == Apply(old(View()), Code(id, codeOk, now, later))
      ensures r.CodeNotFound? <==> !Alive(old(View()), id, now)
      ensures Alive(old(View()), id, now) ==>
                var t := old(sessions)[id].session.throttle;
                && (r.CodeLocked? <==> Locked(t, now))
                && (r.CodeAccepted? <==> !Locked(t, now) && codeOk)
                && (r.CodeRejected? <==> !Locked(t, now) && !codeOk)
      ensures r.CodeAccepted? || r.CodeRejected? ==>
                var s := old(sessions)[id].session;
                var n := s.throttle.failures + 1;
                var t := if codeOk then Throttle(0, None) else Throttle(n, if n >= 3 then Some(later + 300) else None);
                sessions == old(sessions)[id := Stored(s.(throttle := t), later + 86400)]
    {
      ValidStep(View(), Code(id, codeOk, now, later));
      CodeEffect(View(), Code(id, codeOk, now, later));
      if !(id in sessions && now < sessions[id].keyExpiresAt) {
        return CodeNotFound;
      }
      var s := sessions[id].session;
      if s.throttle.lockedUntil.Some? && now < s.throttle.lockedUntil.value {
        return CodeLocked;
      }
      if codeOk {
        s := s.(throttle := Throttle(0, None));
        StoreSession(id, s, later);
        return CodeAccepted;
      }
      s := s.(throttle := s.throttle.(failures := s.throttle.failures + 1));
      if s.throttle.failures >= MAX_TOTP_FAILURES {
        s := s.(throttle := s.throttle.(lockedUntil := Some(later + TOTP_LOCK_DURATION)));
      }
      StoreSession(id, s, later);
      return CodeRejected;
    }

    method Logout(id: SessionId, now: int) returns (found: bool)
      requires Valid(View())
      modifies `sessions, `ended
      ensures Valid(View()) && View() == Apply(old(View()), AuthRuns.Logout(id, now))
      ensures found == Alive(old(View()), id, now) && (found ==> id in ended && id !in sessions)
    {
      ValidStep(View(), AuthRuns.Logout(id, now));
      found := id in sessions && now < sessions[id].keyExpiresAt;
      if found {
        Drop(id);
      }
    }
  }
}
