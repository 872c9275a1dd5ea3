/**
 The first three checks on an incoming bank SMS: not seen before, from a known sender, and neither
 too old nor from the future. Times in nanoseconds. Redis is asked once per call, atomically, so
 calls overlap freely: each brings its own three clock readings, in the order of their Redis commands.
 */
module SmsReplay {
  import opened Text

  datatype Sms = Sms(sender: string, message: string, receivedAt: int)

  datatype Outcome = Duplicate | UnknownSender | TooOld | FromFuture | Fresh

  /** An SMS that got past the checks, with the times of its Redis command and of its last check. */
  datatype Pass = Pass(sms: Sms, seenAt: int, doneAt: int)

  const MINUTE := 60_000_000_000
  const DUPLICATE_KEY_TTL := 24 * 60 * MINUTE
  const MAX_SMS_AGE := 5 * MINUTE

  // ------------------------------------------------------------------
  // The key
  // ------------------------------------------------------------------

  /** What is hashed. The hash is taken to be injective, so this stands for the Redis key. */
  function HashInput(s: Sms): string {
    s.sender + "|" + s.message + "|" + Signed(s.receivedAt)
  }

  /** The text up to the last '|', and the rest. */
  lemma LastBar(a: string, m: string, b: string, n: string)
    requires a + "|" + m == b + "|" + n && '|' !in m && '|' !in n
    ensures a == b && m == n
  {
    var s := a + "|" + m;
    assert s[|a|] == '|' && s[|b|] == '|';
    assert forall i :: |a| < i < |s| ==> s[i] == m[i - |a| - 1];
    assert forall i :: |b| < i < |s| ==> s[i] == n[i - |b| - 1];
    assert |a| == |b|;
    assert a == s[..|a|] && b == s[..|b|];
    assert m == s[|a| + 1..] && n == s[|b| + 1..];
  }

  lemma FirstBar(a: string, m: string, b: string, n: string)
    requires a + "|" + m == b + "|" + n && '|' !in a && '|' !in b
    ensures a == b && m == n
  {
    var s := a + "|" + m;
    assert s[|a|] == '|' && s[|b|] == '|';
    assert forall i :: 0 <= i < |a| ==> s[i] == a[i];
    assert forall i :: 0 <= i < |b| ==> s[i] == b[i];
    assert |a| == |b|;
    assert a == s[..|a|] && b == s[..|b|];
    assert m == s[|a| + 1..] && n == s[|b| + 1..];
  }

  lemma SignedInjective(m: int, n: int)
    requires Signed(m) == Signed(n)
    ensures m == n
  {
    SignedRoundTrip(m);
    SignedRoundTrip(n);
  }

  /** Two messages share a key exactly when they share the time and the text "sender|message". */
  lemma SameKeyIff(s: Sms, t: Sms)
    ensures HashInput(s) == HashInput(t) <==>
            s.receivedAt == t.receivedAt && s.sender + "|" + s.message == t.sender + "|" + t.message
  {
    if HashInput(s) == HashInput(t) {
      LastBar(s.sender + "|" + s.message, Signed(s.receivedAt), t.sender + "|" + t.message, Signed(t.receivedAt));
      SignedInjective(s.receivedAt, t.receivedAt);
    }
  }

  /** For senders without a '|' the key tells any two messages apart. */
  lemma KeyIsInjective(s: Sms, t: Sms)
    requires '|' !in s.sender && '|' !in t.sender
    ensures HashInput(s) == HashInput(t) <==> s == t
  {
    SameKeyIff(s, t);
    if HashInput(s) == HashInput(t) {
      FirstBar(s.sender, s.message, t.sender, t.message);
    }
  }

  /** For other senders it does not: the delimiter does not keep these two apart. */
  lemma BarsCollide(at: int)
    ensures HashInput(Sms("A|B", "C", at)) == HashInput(Sms("A", "B|C", at))
  {
    SameKeyIff(Sms("A|B", "C", at), Sms("A", "B|C", at));
    assert "A|B" + "|" + "C" == "A" + "|" + "B|C";
  }

  // ------------------------------------------------------------------
  // The checks
  // ------------------------------------------------------------------

  class ParserService {
    const knownSenders: set<string>
    var seen: map<string, int>
    ghost var clock: int
    ghost var passed: set<Pass>

    ghost predicate Valid()
      reads this
    {
      forall p :: p in passed ==>
        && p.seenAt <= clock
        && HashInput(p.sms) in seen && p.seenAt + DUPLICATE_KEY_TTL <= seen[HashInput(p.sms)]
        && p.sms.receivedAt <= p.doneAt + MINUTE
    }

    constructor (knownSenders: set<string>, now: int)
      ensures Valid() && this.knownSenders == knownSenders && seen == map[] && passed == {} && clock == now
    {
      this.knownSenders, seen, clock, passed := knownSenders, map[], now, {};
    }

    predicate Seen(s: Sms, now: int)
      reads this
    {
      HashInput(s) in seen && now < seen[HashInput(s)]
    }

    /** SETNX with a time to live. */
    method IsDuplicate(s: Sms, now: int) returns (duplicate: bool)
      modifies `seen
      ensures duplicate == old(Seen(s, now))
      ensures seen == if duplicate then old(seen) else old(seen)[HashInput(s) := now + 86_400_000_000_000]
    {
      var key := HashInput(s);
      duplicate := key in seen && now < seen[key];
      if !duplicate {
        seen := seen[key := now + DUPLICATE_KEY_TTL];
      }
    }

    /**
     `seenAt`, `agedAt` and `doneAt` are the clock at the Redis command, the age check and the future
     check. Whatever calls came before, the same SMS passes again only if an earlier call that passed
     it took at least 24 hours less 6 minutes from its Redis command to its last check.
     */
    method ProcessSMS(s: Sms, seenAt: int, agedAt: int, doneAt: int) returns (r: Outcome)
      requires Valid() && clock <= seenAt <= agedAt <= doneAt
      modifies this
      ensures Valid() && clock == seenAt
      ensures r.Duplicate? <==> old(Seen(s, seenAt))
      ensures r.Fresh? <==>
              && !old(Seen(s, seenAt)) && s.sender in knownSenders
              && agedAt - s.receivedAt <= 300_000_000_000 && s.receivedAt <= doneAt + 60_000_000_000
      ensures r.UnknownSender? <==> !old(Seen(s, seenAt)) && s.sender !in knownSenders
      ensures r.TooOld? <==>
              && !old(Seen(s, seenAt)) && s.sender in knownSenders && agedAt - s.receivedAt > 300_000_000_000
      ensures passed == if r.Fresh? then old(passed) + {Pass(s, seenAt, doneAt)} else old(passed)
      ensures seen == if r.Duplicate? then old(seen) else old(seen)[HashInput(s) := seenAt + 86_400_000_000_000]
      ensures r.Fresh? ==>
                forall p :: p in old(passed) && p.sms == s ==> p.doneAt - p.seenAt >= 86_040_000_000_000
    {
      clock := seenAt;
      var duplicate := IsDuplicate(s, seenAt);
      if duplicate {
        return Duplicate;
      }
      if s.sender !in knownSenders {
        return UnknownSender;
      }
      var age := agedAt - s.receivedAt;
      if age > MAX_SMS_AGE {
        return TooOld;
      }
      if s.receivedAt > doneAt + MINUTE {
        return FromFuture;
      }
      passed := passed + {Pass(s, seenAt, doneAt)};
      return Fresh;
    }
  }

  /** When every call that passed was quicker than that, no SMS has passed twice. */
  ghost predicate AllQuick(passed: set<Pass>) {
    forall p :: p in passed ==> p.doneAt - p.seenAt < DUPLICATE_KEY_TTL - 6 * MINUTE
  }

  ghost predicate WasPassed(passed: set<Pass>, s: Sms) {
    exists p :: p in passed && p.sms == s
  }

  lemma PassedGrows(passed: set<Pass>, p: Pass, s: Sms)
    ensures WasPassed(passed + {p}, s) <==> WasPassed(passed, s) || s == p.sms
  {
    assert p in passed + {p};
    assert forall q :: q in passed ==> q in passed + {p};
  }

  /** Any run of calls: as long as calls are quick, each SMS gets past the checks at most once. */
  method ProcessAll(service: ParserService, calls: seq<(Sms, int, int, int)>) returns (accepted: seq<Sms>)
    requires service.Valid() && service.passed == {}
    requires forall i :: 0 <= i < |calls| ==> service.clock <= calls[i].1 <= calls[i].2 <= calls[i].3
    requires forall i, j :: 0 <= i < j < |calls| ==> calls[i].1 <= calls[j].1
    modifies service
    ensures forall s :: s in accepted <==> WasPassed(service.passed, s)
    ensures AllQuick(service.passed) ==> forall i, j :: 0 <= i < j < |accepted| ==> accepted[i] != accepted[j]
  {
    accepted := [];
    for i := 0 to |calls|
      invariant service.Valid()
      invariant forall j :: i <= j < |calls| ==> service.clock <= calls[j].1
      invariant forall s :: s in accepted <==> WasPassed(service.passed, s)
      invariant AllQuick(service.passed) ==> forall j, k :: 0 <= j < k < |accepted| ==> accepted[j] != accepted[k]
    {
      ghost var before := service.passed;
      var (s, seenAt, agedAt, doneAt) := calls[i];
      var r := service.ProcessSMS(s, seenAt, agedAt, doneAt);
      if r.Fresh? {
        assert AllQuick(service.passed) ==> AllQuick(before) && !WasPassed(before, s);
        forall x
          ensures WasPassed(service.passed, x) <==> WasPassed(before, x) || x == s
        {
          PassedGrows(before, Pass(s, seenAt, doneAt), x);
        }
        accepted := accepted + [s];
      }
    }
  }

  /** A call of exactly 24 hours less 6 minutes is too slow: its SMS passes again. */
  method SlowCallPassesTwice(sender: string, message: string) returns (first: Outcome, second: Outcome)
    ensures first == second == Fresh
  {
    var service := new ParserService({sender}, 0);
    var doneAt := DUPLICATE_KEY_TTL - 6 * MINUTE;
    var s := Sms(sender, message, doneAt + MINUTE);
    first := service.ProcessSMS(s, 0, 0, doneAt);
    second := service.ProcessSMS(s, DUPLICATE_KEY_TTL, DUPLICATE_KEY_TTL, DUPLICATE_KEY_TTL);
  }
}
