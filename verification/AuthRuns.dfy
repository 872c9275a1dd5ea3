/**
 Logins, second-factor codes, session checks and logouts, in any order and for any accounts and
 sessions. Calls come one after another, times are in seconds. Passwords and codes are right or wrong
 as bcrypt and the TOTP check say; a user agent is represented by its hash.
 */
module AuthRuns {
  import opened Text
  import opened Lockout
  import opened LoginLimit
  import Systems

  type SessionId = string

  const MAX_FAILED_ATTEMPTS: nat := 5
  const LOCK_DURATION: nat := 900
  const MAX_TOTP_FAILURES: nat := 3
  const TOTP_LOCK_DURATION: nat := 300
  const SESSION_TTL: nat := 86400

  datatype User = User(active: bool, totpEnabled: bool, throttle: Throttle)

  datatype Session = Session(
    email: string,
    createdAt: int,
    expiresAt: int,
    clientIP: string,
    userAgentHash: string,
    throttle: Throttle)

  /** A session as Redis keeps it: the key is gone from `keyExpiresAt` on. */
  datatype Stored = Stored(session: Session, keyExpiresAt: int)

  /** The tables, and what has happened: when each session was created, and which were ended. */
  datatype State = State(
    limits: map<string, Counter>,
    users: map<string, User>,
    sessions: map<SessionId, Stored>,
    created: map<SessionId, int>,
    ended: set<SessionId>)

  datatype Call =
    | Login(email: string, passwordOk: bool, codeGiven: bool, codeOk: bool, clientIP: string, agentHash: string,
            id: SessionId, now: int, later: int)
    | Code(id: SessionId, codeOk: bool, now: int, later: int)
    | Validate(id: SessionId, clientIP: string, agentGiven: bool, agentHash: string, now: int)
    | Logout(id: SessionId, now: int)

  datatype LoginResult =
    | LoggedIn
    | RateLimited
    | UnknownUser
    | Disabled
    | AccountLocked
    | WrongPassword
    | CodeRequired
    | WrongCode

  datatype CodeResult = CodeAccepted | CodeNotFound | CodeLocked | CodeRejected

  datatype SessionResult = Accepted | NotFound | SessionExpired | IPMismatch | AgentMismatch

  // ------------------------------------------------------------------
  // The calls
  // ------------------------------------------------------------------

  predicate Alive(s: State, id: SessionId, now: int) {
    id in s.sessions && now < s.sessions[id].keyExpiresAt
  }

  /** The login counter of an address. */
  function LimitOf(s: State, clientIP: string): Entry {
    if clientIP in s.limits then Some(s.limits[clientIP]) else None
  }

  function LoginOutcome(s: State, c: Call): LoginResult
    requires c.Login?
  {
    if Refuses(LimitOf(s, c.clientIP), c.now) then RateLimited else AccountOutcome(s, c)
  }

  /** The outcome of a login that the limit on its address lets through. */
  function AccountOutcome(s: State, c: Call): LoginResult
    requires c.Login?
  {
    if c.email !in s.users then UnknownUser
    else
      var user := s.users[c.email];
      if !user.active then Disabled
      else if Locked(user.throttle, c.now) then AccountLocked
      else if !c.passwordOk then WrongPassword
      else if user.totpEnabled && !c.codeGiven then CodeRequired
      else if user.totpEnabled && !c.codeOk then WrongCode
      else LoggedIn
  }

  /** When a login ends in which way. */
  lemma LoginOutcomes(s: State, c: Call)
    requires c.Login?
    ensures var r := LoginOutcome(s, c);
            && (r.RateLimited? <==> Refuses(LimitOf(s, c.clientIP), c.now))
            && (!r.RateLimited? ==>
                  && (r.UnknownUser? <==> c.email !in s.users)
                  && (r.Disabled? <==> c.email in s.users && !s.users[c.email].active)
                  && (!r.UnknownUser? && !r.Disabled? ==>
                        var user := s.users[c.email];
                        var locked := Locked(user.throttle, c.now);
                        var codeMissing := user.totpEnabled && !c.codeGiven;
                        var codeWrong := user.totpEnabled && c.codeGiven && !c.codeOk;
                        && (r.AccountLocked? <==> locked)
                        && (r.WrongPassword? <==> !locked && !c.passwordOk)
                        && (r.CodeRequired? <==> !locked && c.passwordOk && codeMissing)
                        && (r.WrongCode? <==> !locked && c.passwordOk && codeWrong)
                        && (r.LoggedIn? <==> !locked && c.passwordOk && !codeMissing && !codeWrong)))
  {}

  function CodeOutcome(s: State, c: Call): CodeResult
    requires c.Code?
  {
    if !Alive(s, c.id, c.now) then CodeNotFound
    else if Locked(s.sessions[c.id].session.throttle, c.now) then CodeLocked
    else if c.codeOk then CodeAccepted
    else CodeRejected
  }

  predicate IsChecked(s: State, c: Call)
    requires c.Code?
  {
    CodeOutcome(s, c).CodeAccepted? || CodeOutcome(s, c).CodeRejected?
  }

  function ValidateOutcome(s: State, c: Call): SessionResult
    requires c.Validate?
  {
    if !Alive(s, c.id, c.now) then NotFound
    else
      var session := s.sessions[c.id].session;
      if c.now > session.expiresAt then SessionExpired
      else if session.clientIP != "" && c.clientIP != "" && session.clientIP != c.clientIP then IPMismatch
      else if session.userAgentHash != "" && c.agentGiven && session.userAgentHash != c.agentHash then AgentMismatch
      else Accepted
  }

  /** Session ids are new UUIDs. */
  predicate Enabled(s: State, c: Call) {
    match c
    case Login(_, _, _, _, _, _, id, now, later) => id !in s.created && now <= later
    case Code(_, _, now, later) => now <= later
    case _ => true
  }

  function Dropped(s: State, id: SessionId): State {
    s.(sessions := s.sessions - {id}, ended := s.ended + {id})
  }

  function Apply(s: State, c: Call): State
    requires Enabled(s, c)
  {
    match c
    case Login(email, _, _, _, clientIP, _, _, now, later) =>
      var s1 := s.(limits := s.limits[clientIP := Incremented(LimitOf(s, clientIP), now)]);
      (match LoginOutcome(s, c)
       case LoggedIn => Granted(s1, c)
       case WrongPassword => Recorded(s1, email, now, later)
       case WrongCode => Recorded(s1, email, now, later)
       case _ => s1)
    case Code(id, codeOk, now, later) =>
      if IsChecked(s, c) then
        var session := s.sessions[id].session;
        var t := Step(session.throttle, MAX_TOTP_FAILURES, TOTP_LOCK_DURATION, Attempt(now, later, codeOk));
        s.(sessions := s.sessions[id := Stored(session.(throttle := t), later + SESSION_TTL)])
      else s
    case Validate(id, _, _, _, _) =>
      if ValidateOutcome(s, c).Accepted? || ValidateOutcome(s, c).NotFound? then s else Dropped(s, id)
    case Logout(id, now) => if Alive(s, id, now) then Dropped(s, id) else s
  }

  /** The account's failures are forgotten, the try is taken back and the session is stored. */
  function Granted(s: State, c: Call): State
    requires c.Login? && c.email in s.users
  {
    var session := Session(c.email, c.later, c.later + SESSION_TTL, c.clientIP, c.agentHash, Throttle(0, None));
    s.(limits := s.limits[c.clientIP := Decremented(LimitOf(s, c.clientIP), c.later)],
       users := s.users[c.email := s.users[c.email].(throttle := Throttle(0, None))],
       sessions := s.sessions[c.id := Stored(session, c.later + SESSION_TTL)],
       created := s.created[c.id := c.later])
  }

  /** A failure is counted against the account. */
  function Recorded(s: State, email: string, now: int, later: int): State
    requires email in s.users
  {
    var t := Step(s.users[email].throttle, MAX_FAILED_ATTEMPTS, LOCK_DURATION, Attempt(now, later, false));
    s.(users := s.users[email := s.users[email].(throttle := t)])
  }

  function Next(s: State, c: Call): Option<State> {
    if Enabled(s, c) then Some(Apply(s, c)) else None
  }

  ghost predicate Runs(s: State, calls: seq<Call>, s': State) {
    Systems.Run(Next, s, calls, s')
  }

  function EndOf(c: Call): int {
    match c
    case Login(_, _, _, _, _, _, _, _, later) => later
    case Code(_, _, _, later) => later
    case Validate(_, _, _, _, now) => now
    case Logout(_, now) => now
  }

  /** One call after another, from `from` to `until`. */
  ghost predicate Ordered(calls: seq<Call>, from: int, until: int) {
    && (forall i :: 0 <= i < |calls| ==> from <= calls[i].now <= EndOf(calls[i]) && calls[i].now <= until)
    && (forall i, j :: 0 <= i < j < |calls| ==> EndOf(calls[i]) <= calls[j].now)
  }

  // ------------------------------------------------------------------
  // What every call keeps
  // ------------------------------------------------------------------

  /** A lock is only ever set together with a full count. */
  predicate ThrottleFits(t: Throttle, max: nat) {
    t.lockedUntil.Some? ==> t.failures >= max
  }

  predicate SessionFits(s: Session, created: int) {
    s.createdAt == created && s.expiresAt == created + SESSION_TTL && ThrottleFits(s.throttle, MAX_TOTP_FAILURES)
  }

  ghost predicate Valid(s: State) {
    && (forall id :: id in s.sessions ==>
          id in s.created && id !in s.ended && SessionFits(s.sessions[id].session, s.created[id]))
    && (forall email :: email in s.users ==> ThrottleFits(s.users[email].throttle, MAX_FAILED_ATTEMPTS))
    && s.ended <= s.created.Keys
  }

  lemma ValidStep(s: State, c: Call)
    requires Valid(s) && Enabled(s, c)
    ensures Valid(Apply(s, c))
    ensures s.created.Keys <= Apply(s, c).created.Keys && s.ended <= Apply(s, c).ended
  {}

  lemma {:induction false} ValidRun(s: State, calls: seq<Call>, s': State)
    requires Valid(s) && Runs(s, calls, s')
    ensures Valid(s') && s.ended <= s'.ended
    decreases |calls|
  {
    if calls != [] {
      ValidStep(s, calls[0]);
      ValidRun(Apply(s, calls[0]), calls[1..], s');
    }
  }

  // ------------------------------------------------------------------
  // Codes per session
  // ------------------------------------------------------------------

  function ThrottleOf(s: State, id: SessionId): Throttle {
    if id in s.sessions then s.sessions[id].session.throttle else Throttle(0, None)
  }

  /** The session stored again with another throttle, for 24 hours from `later`. */
  function Written(s: State, id: SessionId, t: Throttle, later: int): State {
    if id in s.sessions then
      s.(sessions := s.sessions[id := Stored(s.sessions[id].session.(throttle := t), later + 86400)])
    else s
  }

  /** What a code does to a session: a right one clears the failures, the third wrong one locks for five minutes. */
  lemma CodeEffect(s: State, c: Call)
    requires Valid(s) && Enabled(s, c) && c.Code?
    ensures match CodeOutcome(s, c)
            case CodeAccepted => Apply(s, c) == Written(s, c.id, Throttle(0, None), c.later)
            case CodeRejected =>
              var n := ThrottleOf(s, c.id).failures + 1;
              Apply(s, c) == Written(s, c.id, Throttle(n, if n >= 3 then Some(c.later + 300) else None), c.later)
            case _ => Apply(s, c) == s
  {}

  /** How many codes given for the session were looked at. */
  function CodesChecked(s: State, calls: seq<Call>, id: SessionId): nat
    decreases |calls|
  {
    if calls == [] || !Enabled(s, calls[0]) then 0
    else
      var c := calls[0];
      (if c.Code? && c.id == id && IsChecked(s, c) then 1 else 0)
      + CodesChecked(Apply(s, c), calls[1..], id)
  }

  /** The codes given while the session's key is alive. */
  function CodeAttempts(s: State, calls: seq<Call>, id: SessionId): seq<Attempt>
    decreases |calls|
  {
    if calls == [] || !Enabled(s, calls[0]) then []
    else
      var c := calls[0];
      (if c.Code? && c.id == id && Alive(s, id, c.now) then [Attempt(c.now, c.later, c.codeOk)] else [])
      + CodeAttempts(Apply(s, c), calls[1..], id)
  }

  ghost predicate NoCorrectCode(calls: seq<Call>, id: SessionId) {
    forall i :: 0 <= i < |calls| && calls[i].Code? && calls[i].id == id ==> !calls[i].codeOk
  }

  /** A session that is gone stays gone. */
  lemma {:induction false} GoneStaysGone(s: State, calls: seq<Call>, id: SessionId)
    requires id in s.created && id !in s.sessions
    ensures CodeAttempts(s, calls, id) == [] && CodesChecked(s, calls, id) == 0
    decreases |calls|
  {
    if calls != [] && Enabled(s, calls[0]) {
      GoneStaysGone(Apply(s, calls[0]), calls[1..], id);
    }
  }

  /** How one call changes a session's throttle. */
  lemma ThrottleStep(s: State, c: Call, id: SessionId)
    requires Valid(s) && Enabled(s, c)
    ensures var t, t' := ThrottleOf(s, id), ThrottleOf(Apply(s, c), id);
            if c.Code? && c.id == id && Alive(s, id, c.now) then
              t' == Step(t, MAX_TOTP_FAILURES, TOTP_LOCK_DURATION, Attempt(c.now, c.later, c.codeOk))
            else t' == t || (id in s.created && id !in Apply(s, c).sessions && id in Apply(s, c).created)
  {}

  lemma {:induction false} CodesAreChecks(s: State, calls: seq<Call>, id: SessionId)
    requires Valid(s)
    ensures CodesChecked(s, calls, id)
         == |Checks(ThrottleOf(s, id), MAX_TOTP_FAILURES, TOTP_LOCK_DURATION, CodeAttempts(s, calls, id))|
    decreases |calls|
  {
    if calls != [] && Enabled(s, calls[0]) {
      var c, next := calls[0], Apply(s, calls[0]);
      ValidStep(s, c);
      CodesAreChecks(next, calls[1..], id);
      ThrottleStep(s, c, id);
      if c.Code? && c.id == id && Alive(s, id, c.now) {
        var a := Attempt(c.now, c.later, c.codeOk);
        assert CodeAttempts(s, calls, id)[1..] == CodeAttempts(next, calls[1..], id);
      } else {
        assert CodeAttempts(s, calls, id) == CodeAttempts(next, calls[1..], id);
        if ThrottleOf(next, id) != ThrottleOf(s, id) {
          GoneStaysGone(next, calls[1..], id);
        }
      }
    }
  }

  lemma OrderedRest(calls: seq<Call>, from: int, until: int)
    requires Ordered(calls, from, until) && calls != []
    ensures Ordered(calls[1..], EndOf(calls[0]), until)
  {}

  lemma GuessesFromEarlier(attempts: seq<Attempt>, from: int, later: int, until: int)
    requires Guesses(attempts, later, until) && from <= later
    ensures Guesses(attempts, from, until)
  {}

  lemma {:induction false} CodeAttemptsAreGuesses(s: State, calls: seq<Call>, id: SessionId, from: int, until: int)
    requires Ordered(calls, from, until) && NoCorrectCode(calls, id)
    ensures Guesses(CodeAttempts(s, calls, id), from, until)
    decreases |calls|
  {
    if calls != [] && Enabled(s, calls[0]) {
      var c := calls[0];
      OrderedRest(calls, from, until);
      CodeAttemptsAreGuesses(Apply(s, c), calls[1..], id, EndOf(c), until);
      var rest := CodeAttempts(Apply(s, c), calls[1..], id);
      if c.Code? && c.id == id && Alive(s, id, c.now) {
        GuessesCons(Attempt(c.now, c.later, c.codeOk), rest, from, until);
      } else {
        GuessesFromEarlier(rest, from, EndOf(c), until);
        assert [] + rest == rest;
      }
    }
  }

  /**
   Over any calls by anyone within `time` seconds, at most 3 codes plus one every 5 minutes are checked
   against a session to which no correct code is given.
   */
  lemma SessionCodesBounded(s: State, calls: seq<Call>, id: SessionId, from: int, time: nat)
    requires Valid(s) && Ordered(calls, from, from + time) && NoCorrectCode(calls, id)
    ensures CodesChecked(s, calls, id) <= 3 + time / 300
  {
    CodesAreChecks(s, calls, id);
    CodeAttemptsAreGuesses(s, calls, id, from, from + time);
    GuessesAreBounded(ThrottleOf(s, id), MAX_TOTP_FAILURES, TOTP_LOCK_DURATION, CodeAttempts(s, calls, id), from, time);
  }

  // ------------------------------------------------------------------
  // Failures per account
  // ------------------------------------------------------------------

  predicate IsFailure(r: LoginResult) {
    r.WrongPassword? || r.WrongCode?
  }

  function FailuresRecorded(s: State, calls: seq<Call>, email: string): nat
    decreases |calls|
  {
    if calls == [] || !Enabled(s, calls[0]) then 0
    else
      var c := calls[0];
      (if c.Login? && c.email == email && IsFailure(LoginOutcome(s, c)) then 1 else 0)
      + FailuresRecorded(Apply(s, c), calls[1..], email)
  }

  /** A login of an active account, let through by its address's limit, that fails if the account is not locked. */
  predicate WouldFail(s: State, c: Call, email: string) {
    && c.Login? && c.email == email && email in s.users && s.users[email].active
    && !Refuses(LimitOf(s, c.clientIP), c.now)
    && (!c.passwordOk || (s.users[email].totpEnabled && c.codeGiven && !c.codeOk))
  }

  function LoginAttempts(s: State, calls: seq<Call>, email: string): seq<Attempt>
    decreases |calls|
  {
    if calls == [] || !Enabled(s, calls[0]) then []
    else
      var c := calls[0];
      (if WouldFail(s, c, email) then [Attempt(c.now, c.later, false)] else [])
      + LoginAttempts(Apply(s, c), calls[1..], email)
  }

  ghost predicate NeverLoggedIn(s: State, calls: seq<Call>, email: string)
    decreases |calls|
  {
    calls != [] && Enabled(s, calls[0]) ==>
      && !(calls[0].Login? && calls[0].email == email && LoginOutcome(s, calls[0]).LoggedIn?)
      && NeverLoggedIn(Apply(s, calls[0]), calls[1..], email)
  }

  lemma AccountStep(s: State, c: Call, email: string)
    requires Enabled(s, c) && email in s.users
    requires !(c.Login? && c.email == email && LoginOutcome(s, c).LoggedIn?)
    ensures email in Apply(s, c).users
    ensures Apply(s, c).users[email].throttle ==
            if WouldFail(s, c, email) then
              Step(s.users[email].throttle, MAX_FAILED_ATTEMPTS, LOCK_DURATION, Attempt(c.now, c.later, false))
            else s.users[email].throttle
    ensures c.Login? && c.email == email && IsFailure(LoginOutcome(s, c)) <==>
            WouldFail(s, c, email) && !Locked(s.users[email].throttle, c.now)
  {}

  lemma {:induction false} FailuresAreChecks(s: State, calls: seq<Call>, email: string)
    requires email in s.users && NeverLoggedIn(s, calls, email)
    ensures FailuresRecorded(s, calls, email)
         == |Checks(s.users[email].throttle, MAX_FAILED_ATTEMPTS, LOCK_DURATION, LoginAttempts(s, calls, email))|
    decreases |calls|
  {
    if calls != [] && Enabled(s, calls[0]) {
      var c, next := calls[0], Apply(s, calls[0]);
      AccountStep(s, c, email);
      FailuresAreChecks(next, calls[1..], email);
      if WouldFail(s, c, email) {
        assert LoginAttempts(s, calls, email)[1..] == LoginAttempts(next, calls[1..], email);
      } else {
        assert LoginAttempts(s, calls, email) == LoginAttempts(next, calls[1..], email);
      }
    }
  }

  lemma {:induction false} LoginAttemptsAreGuesses(s: State, calls: seq<Call>, email: string, from: int, until: int)
    requires Ordered(calls, from, until)
    ensures Guesses(LoginAttempts(s, calls, email), from, until)
    decreases |calls|
  {
    if calls != [] && Enabled(s, calls[0]) {
      var c := calls[0];
      OrderedRest(calls, from, until);
      LoginAttemptsAreGuesses(Apply(s, c), calls[1..], email, EndOf(c), until);
      var rest := LoginAttempts(Apply(s, c), calls[1..], email);
      if WouldFail(s, c, email) {
        GuessesCons(Attempt(c.now, c.later, false), rest, from, until);
      } else {
        GuessesFromEarlier(rest, from, EndOf(c), until);
        assert [] + rest == rest;
      }
    }
  }

  /**
   Over any calls by anyone within `time` seconds, at most 5 failures plus one every 15 minutes are
   recorded for an account that is not logged in to.
   */
  lemma AccountFailuresBounded(s: State, calls: seq<Call>, email: string, from: int, time: nat)
    requires email in s.users && Ordered(calls, from, from + time) && NeverLoggedIn(s, calls, email)
    ensures FailuresRecorded(s, calls, email) <= 5 + time / 900
  {
    FailuresAreChecks(s, calls, email);
    LoginAttemptsAreGuesses(s, calls, email, from, from + time);
    GuessesAreBounded(s.users[email].throttle, MAX_FAILED_ATTEMPTS, LOCK_DURATION, LoginAttempts(s, calls, email),
                      from, time);
  }

  // ------------------------------------------------------------------
  // Tries per address
  // ------------------------------------------------------------------

  /** The logins from an address that the limit lets through and that do not succeed. */
  function FailedTries(s: State, calls: seq<Call>, clientIP: string): nat
    decreases |calls|
  {
    if calls == [] || !Enabled(s, calls[0]) then 0
    else
      var c := calls[0];
      (if c.Login? && c.clientIP == clientIP && !LoginOutcome(s, c).RateLimited? && !LoginOutcome(s, c).LoggedIn?
       then 1 else 0)
      + FailedTries(Apply(s, c), calls[1..], clientIP)
  }

  lemma LimitStep(s: State, c: Call, clientIP: string)
    requires Enabled(s, c)
    ensures LimitOf(Apply(s, c), clientIP) ==
            if c.Login? && c.clientIP == clientIP then
              Some(Tried(LimitOf(s, clientIP), c.now, c.later, LoginOutcome(s, c).LoggedIn?))
            else LimitOf(s, clientIP)
  {}

  lemma {:induction false} TriesUseRoom(s: State, calls: seq<Call>, clientIP: string, from: int, until: int)
    requires Ordered(calls, from, until) && Fits(LimitOf(s, clientIP), from)
    ensures FailedTries(s, calls, clientIP) <= Room(LimitOf(s, clientIP), from, until)
    decreases |calls|
  {
    if calls != [] && Enabled(s, calls[0]) {
      var c, e := calls[0], LimitOf(s, clientIP);
      OrderedRest(calls, from, until);
      LimitStep(s, c, clientIP);
      if c.Login? && c.clientIP == clientIP {
        RoomShrinks(e, from, c.now, until);
        TryUsesRoom(e, c.now, c.later, LoginOutcome(s, c).LoggedIn?, until);
        TriedFits(e, c.now, c.later, LoginOutcome(s, c).LoggedIn?);
      } else {
        RoomShrinks(e, from, EndOf(c), until);
      }
      TriesUseRoom(Apply(s, c), calls[1..], clientIP, EndOf(c), until);
    }
  }

  /**
   Over any calls by anyone within `time` seconds, the limit lets at most 21 logins from an address through
   that do not succeed, plus eleven an hour; ten plus eleven an hour if the address has no counter yet.
   */
  lemma AddressTriesBounded(s: State, calls: seq<Call>, clientIP: string, from: int, time: nat)
    requires Ordered(calls, from, from + time) && Fits(LimitOf(s, clientIP), from)
    ensures FailedTries(s, calls, clientIP) <= 21 + 11 * (time / 3600)
    ensures clientIP !in s.limits ==> FailedTries(s, calls, clientIP) <= 10 + 11 * (time / 3600)
  {
    TriesUseRoom(s, calls, clientIP, from, from + time);
    RoomBounded(LimitOf(s, clientIP), from, time);
  }

  // ------------------------------------------------------------------
  // The end of a session
  // ------------------------------------------------------------------

  ghost predicate Initial(s: State) {
    s.limits == map[] && s.sessions == map[] && s.created == map[] && s.ended == {}
    && forall email :: email in s.users ==> ThrottleFits(s.users[email].throttle, MAX_FAILED_ATTEMPTS)
  }

  /** The call is a login that succeeds and makes session `id`, for its own account, address and agent. */
  predicate Made(s: State, c: Call, id: SessionId, session: Session) {
    && c.Login? && c.id == id && LoginOutcome(s, c).LoggedIn?
    && session.email == c.email && session.clientIP == c.clientIP && session.userAgentHash == c.agentHash
    && session.createdAt == c.later && session.expiresAt == c.later + 86400
  }

  /** The `i`-th call of the run made the session. */
  ghost predicate MadeBy(start: State, calls: seq<Call>, i: nat, id: SessionId, session: Session) {
    i < |calls| && exists s :: Runs(start, calls[..i], s) && Made(s, calls[i], id, session)
  }

  ghost predicate MadeInRun(start: State, calls: seq<Call>, id: SessionId, session: Session) {
    exists i: nat :: MadeBy(start, calls, i, id, session)
  }

  lemma MadeAtOnce(s: State, calls: seq<Call>, id: SessionId, session: Session)
    requires calls != [] && Made(s, calls[0], id, session)
    ensures MadeInRun(s, calls, id, session)
  {
    assert calls[..0] == [] && Runs(s, [], s);
    assert MadeBy(s, calls, 0, id, session);
  }

  lemma MadeLater(s: State, calls: seq<Call>, id: SessionId, session: Session)
    requires calls != [] && Enabled(s, calls[0]) && MadeInRun(Apply(s, calls[0]), calls[1..], id, session)
    ensures MadeInRun(s, calls, id, session)
  {
    var next := Apply(s, calls[0]);
    var i: nat :| MadeBy(next, calls[1..], i, id, session);
    var mid :| Runs(next, calls[1..][..i], mid) && Made(mid, calls[1..][i], id, session);
    assert calls[..i + 1][0] == calls[0] && calls[..i + 1][1..] == calls[1..][..i];
    assert Runs(s, calls[..i + 1], mid) && Made(mid, calls[i + 1], id, session);
    assert MadeBy(s, calls, i + 1, id, session);
  }

  /** The same session, but for its second-factor failures. */
  predicate SameSession(s: Session, s': Session) {
    s'.(throttle := s.throttle) == s
  }

  lemma SessionStep(s: State, c: Call, id: SessionId)
    requires Enabled(s, c) && id in Apply(s, c).sessions
    ensures var session := Apply(s, c).sessions[id].session;
            || (id in s.sessions && SameSession(s.sessions[id].session, session))
            || Made(s, c, id, session)
  {}

  /** A session that is stored was there before the run, or a login of the run made it. */
  lemma {:induction false} SessionsAreMade(s: State, calls: seq<Call>, s': State, id: SessionId) returns (made: Session)
    requires Runs(s, calls, s') && id in s'.sessions
    ensures SameSession(made, s'.sessions[id].session)
    ensures (id in s.sessions && SameSession(s.sessions[id].session, made)) || MadeInRun(s, calls, id, made)
    decreases |calls|
  {
    if calls == [] {
      made := s.sessions[id].session;
    } else {
      var c, next := calls[0], Apply(s, calls[0]);
      made := SessionsAreMade(next, calls[1..], s', id);
      if id in next.sessions && SameSession(next.sessions[id].session, made) {
        SessionStep(s, c, id);
        if Made(s, c, id, next.sessions[id].session) {
          made := next.sessions[id].session;
          MadeAtOnce(s, calls, id, made);
        }
      } else {
        MadeLater(s, calls, id, made);
      }
    }
  }

  /**
   In any run a session is accepted only if it was never ended, within 24 hours of the login that made it,
   and from the address and with the agent of that login, unless one side gives none.
   */
  lemma AcceptedWithinADay(start: State, calls: seq<Call>, s: State, c: Call)
    requires Initial(start) && Runs(start, calls, s) && c.Validate? && ValidateOutcome(s, c).Accepted?
    ensures c.id !in s.ended
    ensures exists made :: MadeInRun(start, calls, c.id, made) && FitsLogin(made, c)
  {
    ValidRun(start, calls, s);
    var made := SessionsAreMade(start, calls, s, c.id);
  }

  /** The call comes in time, and from where and with what the session was made. */
  predicate FitsLogin(made: Session, c: Call)
    requires c.Validate?
  {
    && c.now <= made.createdAt + 86400
    && (made.clientIP == "" || c.clientIP == "" || made.clientIP == c.clientIP)
    && (made.userAgentHash == "" || !c.agentGiven || made.userAgentHash == c.agentHash)
  }

  lemma {:induction false} EndedStaysEnded(s: State, calls: seq<Call>, s': State, c: Call)
    requires Valid(s) && Runs(s, calls, s') && c.Validate? && c.id in s.ended
    ensures !ValidateOutcome(s', c).Accepted?
  {
    ValidRun(s, calls, s');
  }

  /** The call stores the session. */
  predicate Writes(s: State, c: Call, id: SessionId) {
    c.id == id && ((c.Login? && LoginOutcome(s, c).LoggedIn?) || (c.Code? && IsChecked(s, c)))
  }

  /** When the session was last written: at its login, or at the last code checked against it. */
  function LastWritten(s: State, calls: seq<Call>, id: SessionId, at: int): int
    decreases |calls|
  {
    if calls == [] || !Enabled(s, calls[0]) then at
    else
      var c := calls[0];
      LastWritten(Apply(s, c), calls[1..], id, if Writes(s, c, id) then EndOf(c) else at)
  }

  /** The key of a session that was not ended runs out 24 hours after it was last written. */
  predicate KeyFits(s: State, id: SessionId, at: int) {
    id in s.created && id !in s.ended ==> id in s.sessions && s.sessions[id].keyExpiresAt == at + SESSION_TTL
  }

  lemma KeyStep(s: State, c: Call, id: SessionId, at: int)
    requires Valid(s) && Enabled(s, c) && KeyFits(s, id, at)
    ensures KeyFits(Apply(s, c), id, if Writes(s, c, id) then EndOf(c) else at)
  {}

  lemma {:induction false} KeyRun(s: State, calls: seq<Call>, s': State, id: SessionId, at: int)
    requires Valid(s) && Runs(s, calls, s') && KeyFits(s, id, at)
    ensures Valid(s') && KeyFits(s', id, LastWritten(s, calls, id, at))
    decreases |calls|
  {
    if calls != [] {
      var c := calls[0];
      ValidStep(s, c);
      KeyStep(s, c, id, at);
      KeyRun(Apply(s, c), calls[1..], s', id, if Writes(s, c, id) then EndOf(c) else at);
    }
  }

  /**
   In any run a session's key is alive exactly while the session was not ended and its login or the last
   code checked against it is less than 24 hours old. Its own end does not matter.
   */
  lemma KeyLivesIff(start: State, calls: seq<Call>, s: State, id: SessionId, now: int)
    requires Initial(start) && Runs(start, calls, s)
    ensures Alive(s, id, now) <==>
            id in s.created && id !in s.ended && now < LastWritten(start, calls, id, 0) + 86400
  {
    KeyRun(start, calls, s, id, 0);
  }

  /**
   A code is still looked at after the session's own end: any code accepted at `u`, before the end,
   keeps the key alive for 24 hours, so that at `v`, after the end, a code is checked although the
   session is no longer accepted.
   */
  lemma CodesOutliveSession(s: State, id: SessionId, u: int, v: int, codeOk: bool, clientIP: string, agentHash: string)
    requires Valid(s) && Alive(s, id, u) && !Locked(s.sessions[id].session.throttle, u)
    requires u <= s.sessions[id].session.expiresAt < v < u + 86400
    ensures var s' := Apply(s, Code(id, true, u, u));
            && Runs(s, [Code(id, true, u, u)], s')
            && (CodeOutcome(s', Code(id, codeOk, v, v)) == if codeOk then CodeAccepted else CodeRejected)
            && ValidateOutcome(s', Validate(id, clientIP, true, agentHash, v)).SessionExpired?
  {
    var s' := Apply(s, Code(id, true, u, u));
    assert Systems.Run(Next, s', [], s');
    assert [Code(id, true, u, u)][1..] == [];
  }
}
