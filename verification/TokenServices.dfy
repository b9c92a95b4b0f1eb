/**
 The services around SessionTokens as objects. Other requests run between any two of their calls to the settings
 database and the revocation store.
 */
module TokenServices {
  import opened Common
  import opened SessionTokens

  datatype Outcome<T> = Done(value: T) | AuthenticationError | PolicyError | Unavailable

  /**
   The clock, the settings rows, the revocation store and every token signed so far; `failures` counts the calls of
   the services to them that went wrong.
   */
  class Backend {
    var sys: System
    var failures: nat

    ghost predicate Valid()
      reads this
    {
      Reachable(sys)
    }

    method Take(step: Step)
      requires Valid() && Enabled(sys, step)
      modifies this`sys
      ensures Valid() && Inv(sys) && sys == Apply(old(sys), step) && Later(old(sys), sys)
    {
      InvHolds(sys);
      OneStep(sys, step);
      RunMovesForward(sys, [step]);
      ReachableRun(sys, [step]);
      sys := Apply(sys, step);
    }

    /** Any other requests, and time. */
    method Others()
      requires Valid()
      modifies this`sys
      ensures Valid() && Inv(sys) && Later(old(sys), sys) && old(sys).read <= sys.read
    {
      assert Legal(sys, []);
      var steps: seq<Step> :| Legal(sys, steps);
      InvHolds(sys);
      RunMovesForward(sys, steps);
      ReadsStay(sys, steps);
      ReachableRun(sys, steps);
      sys := After(sys, steps);
    }

    method Fails() returns (failed: bool)
      modifies this`failures
      ensures failures == if failed then old(failures) + 1 else old(failures)
    {
      failed := *;
      failures := if failed then failures + 1 else failures;
    }
  }

  lemma {:induction false} ReadsStay(s: System, steps: seq<Step>)
    requires Legal(s, steps)
    ensures s.read <= After(s, steps).read
    decreases steps
  {
    if steps != [] {
      ReadsStay(Apply(s, steps[0]), steps[1..]);
    }
  }

  class AuthSecurity {
    const backend: Backend

    constructor (backend: Backend)
      ensures this.backend == backend
    {
      this.backend := backend;
    }

    /** For every token that is still alive, the answer is whether it was ever revoked. */
    method IsRevokedNow(jti: nat) returns (r: Outcome<bool>)
      requires backend.Valid()
      modifies backend`failures
      ensures backend.failures >= old(backend.failures) && (r.Done? || r.Unavailable?)
      ensures r.Done? <==> backend.failures == old(backend.failures)
      ensures r.Done? ==> forall t | t in backend.sys.issued && t.jti == jti && backend.sys.now < t.exp as real ::
        r.value <==> jti in backend.sys.everRevoked
    {
      InvHolds(backend.sys);
      var raised := backend.Fails();
      r := if raised then Unavailable else Done(IsRevoked(backend.sys.store, jti, backend.sys.now));
    }

    /** The clock is read first and the entry written some time later. */
    method Revoke(token: Token) returns (r: Outcome<()>)
      requires backend.Valid() && token in backend.sys.issued
      modifies backend
      ensures backend.Valid() && Later(old(backend.sys), backend.sys) && backend.failures >= old(backend.failures)
      ensures r == if backend.failures == old(backend.failures) then Done(()) else Unavailable
      ensures r.Done? ==> token.jti in backend.sys.everRevoked && token.jti in backend.sys.store
      ensures r.Done? ==> token.exp as real <= backend.sys.store[token.jti]
                            <= backend.sys.now + Max(1.0, token.exp as real - old(backend.sys).now + 1.0)
    {
      InvHolds(backend.sys);
      var readAt := backend.sys.now;
      backend.Others();
      var raised := backend.Fails();
      if raised {
        return Unavailable;
      }
      backend.Take(SessionTokens.Revoke(token, readAt));
      r := Done(());
    }
  }

  /** What is there stays; what is missing comes from the defaults, and the first version once both are there. */
  predicate FilledIn(was: Settings, now: Settings, username: string, password: string) {
    && now.username == (if was.username != "" then was.username else username)
    && (was.password != NoPassword ==> now.password == was.password)
    && (was.password == NoPassword ==>
          now.password == if password == "" then NoPassword else Hashed(password))
    && (was.password == NoPassword && password != "" ==> 12 <= |password| <= 72)
    && now.version == (if was.version.None? && now.username != "" && now.password != NoPassword then Some(1)
                       else was.version)
  }

  class AuthStateService {
    const backend: Backend

    constructor (backend: Backend)
      ensures this.backend == backend
    {
      this.backend := backend;
    }

    /** The version no token leads and every live session has; the refusal of a negative one is never taken. */
    method CurrentSessionVersion() returns (r: Outcome<int>)
      requires backend.Valid()
      modifies backend`failures
      ensures backend.failures >= old(backend.failures) && (r.Done? || r.Unavailable?)
      ensures r.Done? <==> backend.failures == old(backend.failures)
      ensures r.Done? ==> r.value == CurrentVersion(backend.sys.settings) >= 0
      ensures r.Done? ==> var row := backend.sys.settings.version; r.value == if row.Some? then row.value else 0
      ensures r.Done? ==> forall t | t in backend.sys.issued ::
        t.version <= r.value && (Validates(backend.sys, t) ==> t.version == r.value)
    {
      InvHolds(backend.sys);
      var raised := backend.Fails();
      r := if raised || CurrentVersion(backend.sys.settings) < 0 then Unavailable
           else Done(CurrentVersion(backend.sys.settings));
    }

    /** One transaction under the advisory lock. */
    method GetCredentials(username: string, password: string) returns (r: Outcome<Settings>)
      requires backend.Valid()
      modifies backend
      ensures backend.Valid() && Later(old(backend.sys), backend.sys)
      ensures r.Done? ==> WithDefaults(old(backend.sys).settings, username, password) == Some(r.value)
      ensures r.Done? ==> backend.sys.settings == r.value && CurrentVersion(r.value) in backend.sys.read
      ensures r.PolicyError? ==> WithDefaults(old(backend.sys).settings, username, password).None?
      ensures !r.Done? ==> backend.sys == old(backend.sys) && (r.PolicyError? || r.Unavailable?)
      ensures r.Unavailable? <==> backend.failures > old(backend.failures)
      ensures var was := old(backend.sys).settings;
        && (r.PolicyError? ==> was.password == NoPassword && password != "" && !(12 <= |password| <= 72))
        && (r.Done? ==> FilledIn(was, r.value, username, password))
    {
      InvHolds(backend.sys);
      var raised := backend.Fails();
      if raised {
        return Unavailable;
      }
      var filled := WithDefaults(backend.sys.settings, username, password);
      if filled.None? {
        return PolicyError;
      }
      backend.Take(ReadCredentials(username, password));
      r := Done(filled.value);
    }

    /**
     The policy is checked first, before the current password. With success every session from before the call
     is over, and the new password alone opens new ones.
     */
    method RotatePassword(current: string, replacement: string) returns (r: Outcome<bool>)
      requires backend.Valid()
      modifies backend
      ensures backend.Valid() && Later(old(backend.sys), backend.sys)
      ensures r.PolicyError? <==> !(12 <= |replacement| <= 72)
      ensures r == Done(true) ==>
        && Verifies(current, old(backend.sys).settings.password)
        && backend.sys.settings.username == old(backend.sys).settings.username
        && CurrentVersion(backend.sys.settings) == CurrentVersion(old(backend.sys).settings) + 1
        && (forall t :: t in backend.sys.issued ==> !Validates(backend.sys, t))
        && (forall candidate :: Verifies(candidate, backend.sys.settings.password) <==> candidate == replacement)
      ensures r != Done(true) ==> backend.sys == old(backend.sys)
      ensures r == Done(false) ==> !Verifies(current, old(backend.sys).settings.password)
      ensures r.Unavailable? <==> backend.failures > old(backend.failures)
      ensures r.Done? || r.PolicyError? || r.Unavailable?
    {
      InvHolds(backend.sys);
      if !PolicyAccepts(replacement) {
        return PolicyError;
      }
      var raised := backend.Fails();
      if raised {
        return Unavailable;
      }
      if !Verifies(current, backend.sys.settings.password) {
        return Done(false);
      }
      backend.Take(Rotate(current, replacement));
      r := Done(true);
    }
  }

  class JWTService {
    const backend: Backend
    const revocations: AuthSecurity
    const sessionVersions: AuthStateService
    const expiryHours: int

    predicate Wired()
    {
      revocations.backend == backend && sessionVersions.backend == backend
    }

    /** The number of hours is positive; any other is refused at start-up. */
    constructor (backend: Backend, revocations: AuthSecurity, sessionVersions: AuthStateService, expiryHours: int)
      requires revocations.backend == backend && sessionVersions.backend == backend && expiryHours >= 1
      ensures Wired() && this.backend == backend && this.expiryHours == expiryHours
    {
      this.backend, this.revocations, this.sessionVersions := backend, revocations, sessionVersions;
      this.expiryHours := expiryHours;
    }

    /** A login passes on the version it has read; without one the current version is read here. */
    method EncodeToken(hours: Option<int>, version: Option<int>) returns (r: Outcome<Token>)
      requires Wired() && backend.Valid() && (version.Some? ==> version.value in backend.sys.read)
      modifies backend
      ensures backend.Valid() && Later(old(backend.sys), backend.sys)
      ensures r.Done? <==> backend.failures == old(backend.failures)
      ensures r.Done? ==> r.value in backend.sys.issued && FreshJti(old(backend.sys), r.value.jti)
      ensures r.Done? ==>
        r.value.version == if version.Some? then version.value else CurrentVersion(old(backend.sys).settings)
      ensures r.Done? ==> r.value.version <= CurrentVersion(backend.sys.settings)
      ensures r.Done? ==>
        r.value.exp == ExpiryOf(old(backend.sys).now, if hours.Some? then hours.value else expiryHours)
      ensures r.Done? ==> var lifetime := 3600.0 * (if hours.Some? then hours.value else expiryHours) as real;
        r.value.exp as real <= old(backend.sys).now + lifetime < r.value.exp as real + 1.0
    {
      InvHolds(backend.sys);
      var exp := ExpiryOf(backend.sys.now, if hours.Some? then hours.value else expiryHours);
      var used: int;
      if version.Some? {
        used := version.value;
      } else {
        var read := sessionVersions.CurrentSessionVersion();
        if !read.Done? {
          return Unavailable;
        }
        used := read.value;
        backend.Take(ReadVersion);
      }
      backend.Others();
      var jti := NewIdentifier();
      backend.Take(Issue(used, jti, exp));
      r := Done(Token(jti, exp, used));
    }

    /** A random identifier, never used before. */
    method NewIdentifier() returns (jti: nat)
      ensures FreshJti(backend.sys, jti)
    {
      ghost var above := AboveAll(backend.sys.issued);
      assert FreshJti(backend.sys, above);
      jti :| FreshJti(backend.sys, jti);
    }

    method DecodeToken(token: Token) returns (r: Outcome<Token>)
      ensures r == if Decodes(token, backend.sys.issued, backend.sys.now) then Done(token) else AuthenticationError
    {
      r := if token in backend.sys.issued && backend.sys.now < token.exp as real then Done(token)
           else AuthenticationError;
    }

    /**
     Decoding, the revocation store and the session version are three looks at three moments. Acceptance means
     a version that is current at the end, a token alive at the start, and, unless the token expired during the
     call, one that nobody had revoked before it. A refusal of an issued token always has its reason.
     */
    method ValidateToken(token: Token) returns (r: Outcome<Token>)
      requires Wired() && backend.Valid()
      modifies backend
      ensures backend.Valid() && Later(old(backend.sys), backend.sys)
      ensures r.Done? ==> r.value == token && token in backend.sys.issued && old(backend.sys).now < token.exp as real
      ensures r.Done? ==> token.version == CurrentVersion(backend.sys.settings)
      ensures r.Done? && backend.sys.now < token.exp as real ==> token.jti !in old(backend.sys).everRevoked
      ensures r.AuthenticationError? && token in old(backend.sys).issued ==> !Validates(backend.sys, token)
      ensures r.Unavailable? <==> backend.failures > old(backend.failures)
      ensures r.Done? || r.AuthenticationError? || r.Unavailable?
    {
      backend.Others();
      var decoded := DecodeToken(token);
      if !decoded.Done? {
        return AuthenticationError;
      }
      backend.Others();
      var revoked := revocations.IsRevokedNow(token.jti);
      if !revoked.Done? {
        return Unavailable;
      }
      if revoked.value {
        return AuthenticationError;
      }
      backend.Others();
      var version := sessionVersions.CurrentSessionVersion();
      if !version.Done? {
        return Unavailable;
      }
      if version.value != token.version {
        return AuthenticationError;
      }
      r := Done(token);
    }

    method RevokeToken(token: Token) returns (r: Outcome<()>)
      requires Wired() && backend.Valid()
      modifies backend
      ensures backend.Valid() && Later(old(backend.sys), backend.sys)
      ensures r.Done? ==> token.jti in backend.sys.everRevoked && !Validates(backend.sys, token)
      ensures r.AuthenticationError? <==> !Decodes(token, old(backend.sys).issued, old(backend.sys).now)
      ensures r.Unavailable? <==> backend.failures > old(backend.failures)
    {
      var decoded := DecodeToken(token);
      if !decoded.Done? {
        return AuthenticationError;
      }
      r := revocations.Revoke(token);
      InvHolds(backend.sys);
    }
  }

  lemma AboveAll(tokens: set<Token>) returns (id: nat)
    ensures forall t :: t in tokens ==> t.jti < id
  {
    if tokens == {} {
      id := 0;
    } else {
      var t :| t in tokens;
      id := AboveAll(tokens - {t});
      if t.jti >= id {
        id := t.jti + 1;
      }
    }
  }

  /**
   Why acceptance says nothing of a token that expires during the call: decoding just before the expiry and
   asking the store just after it, when the entry is gone, lets a revoked token through both.
   */
  lemma ExpiryBetweenTheLooks() returns (s: System, later: System, t: Token)
    ensures Reachable(s) && Reachable(later) && t.jti in s.everRevoked && Later(s, later)
    ensures Decodes(t, s.issued, s.now) && !IsRevoked(later.store, t.jti, later.now)
    ensures t.version == CurrentVersion(later.settings)
  {
    var s0 := System(0.0, Settings("admin", Hashed("a long password"), Some(1)), map[], {}, {}, {});
    t := Token(0, 3600, 1);
    assert Initial(s0) && Legal(s0, []) && After(s0, []) == s0;
    OneStep(s0, ReadVersion);
    ReachableRun(s0, [ReadVersion]);
    OneStep(Apply(s0, ReadVersion), Issue(1, 0, 3600));
    ReachableRun(Apply(s0, ReadVersion), [Issue(1, 0, 3600)]);
    var s1 := Apply(Apply(s0, ReadVersion), Issue(1, 0, 3600));
    OneStep(s1, SessionTokens.Revoke(t, 0.0));
    ReachableRun(s1, [SessionTokens.Revoke(t, 0.0)]);
    s := Apply(s1, SessionTokens.Revoke(t, 0.0));
    OneStep(s, Pass(3600.0));
    ReachableRun(s, [Pass(3600.0)]);
    later := Apply(s, Pass(3600.0));
  }
}
