/**
 Tokens, revocations and the session version together. Signatures are unforgeable: only an issued token
 decodes. Passwords stand for their hashes. A revocation is an entry of a store that forgets it when its
 time to live is over; the session version is a row that a password rotation raises.
 */
module SessionTokens {
  import opened Common

  const MIN_PASSWORD_LENGTH := 12
  const MAX_PASSWORD_BYTES := 72

  /** `exp` is in whole seconds; `jti` is the token's own identifier. */
  datatype Token = Token(jti: nat, exp: int, version: int)

  datatype Password = NoPassword | Plain(text: string) | Hashed(text: string)

  /** The three rows of the authentication settings; an empty user name counts as missing. */
  datatype Settings = Settings(username: string, password: Password, version: Option<int>)

  predicate PolicyAccepts(password: string) {
    MIN_PASSWORD_LENGTH <= |password| <= MAX_PASSWORD_BYTES
  }

  /** Hashing a stored plain password looks at its first 72 bytes only. */
  function Cut(text: string): string {
    if |text| <= MAX_PASSWORD_BYTES then text else text[..MAX_PASSWORD_BYTES]
  }

  predicate Verifies(candidate: string, configured: Password) {
    && |candidate| <= MAX_PASSWORD_BYTES
    && match configured
       case NoPassword => false
       case Plain(text) => candidate == Cut(text)
       case Hashed(text) => candidate == text
  }

  function CurrentVersion(settings: Settings): int {
    if settings.version.Some? then settings.version.value else 0
  }

  // ------------------------------------------------------------------------------ the operations

  /** `get_credentials`: fill in what is missing from the defaults; None when the default is refused. */
  function WithDefaults(settings: Settings, username: string, password: string): Option<Settings> {
    var named := if settings.username == "" then settings.(username := username) else settings;
    if named.password == NoPassword && password != "" && !PolicyAccepts(password) then None
    else
      var missing := named.password == NoPassword && password != "";
      var keyed := if missing then named.(password := Hashed(password)) else named;
      Some(if keyed.username != "" && keyed.password != NoPassword && keyed.version.None?
           then keyed.(version := Some(1)) else keyed)
  }

  /** `rotate_password`: None when the current password is wrong or the new one is refused. */
  function Rotated(settings: Settings, current: string, replacement: string): Option<Settings> {
    if !PolicyAccepts(replacement) || !Verifies(current, settings.password) then None
    else Some(settings.(password := Hashed(replacement), version := Some(CurrentVersion(settings) + 1)))
  }

  function Upgraded(settings: Settings, expected: Password): Settings {
    if settings.password == expected && expected.Plain? then settings.(password := Hashed(Cut(expected.text)))
    else settings
  }

  /** Upgrading a plain password to a hash lets exactly the same candidates in, and leaves every session alone. */
  lemma UpgradeKeepsLogins(settings: Settings, expected: Password, candidate: string)
    ensures Verifies(candidate, Upgraded(settings, expected).password) == Verifies(candidate, settings.password)
    ensures CurrentVersion(Upgraded(settings, expected)) == CurrentVersion(settings)
    ensures Upgraded(settings, expected).password.Plain? <==> settings.password.Plain? && settings.password != expected
    ensures Upgraded(settings, expected) == settings.(password := Upgraded(settings, expected).password)
  {
  }

  /** Who gets in: the hash knows the whole candidate, a stored plain password its first 72 bytes. */
  lemma VerifiesExactly(candidate: string, configured: Password)
    ensures configured.NoPassword? ==> !Verifies(candidate, configured)
    ensures configured.Hashed? ==>
      (Verifies(candidate, configured) <==> candidate == configured.text && |candidate| <= 72)
    ensures configured.Plain? ==> (Verifies(candidate, configured) <==>
      candidate <= configured.text && |candidate| <= 72 && (|candidate| == 72 || candidate == configured.text))
  {
  }

  /** A rotation needs an acceptable new password and the right current one, and raises the version by one. */
  lemma RotationNeeds(settings: Settings, current: string, replacement: string)
    ensures var rotated := Rotated(settings, current, replacement);
      && (rotated.Some? <==> 12 <= |replacement| <= 72 && Verifies(current, settings.password))
      && (rotated.Some? ==> rotated.value.username == settings.username)
      && (rotated.Some? ==> rotated.value.password == Hashed(replacement))
      && (rotated.Some? ==> CurrentVersion(rotated.value) == CurrentVersion(settings) + 1)
  {
  }

  /** The expiry claim: the instant of issue plus the hours, cut to a whole second. */
  function ExpiryOf(now: real, hours: int): int {
    (now + (hours * 3600) as real).Floor
  }

  /** Seconds a revocation is kept. */
  function RevocationTtl(exp: int, now: real): int {
    if exp - now.Floor >= 1 then exp - now.Floor else 1
  }

  predicate Decodes(t: Token, issued: set<Token>, now: real) {
    t in issued && now < t.exp as real
  }

  predicate IsRevoked(store: map<nat, real>, jti: nat, now: real) {
    jti in store && now < store[jti]
  }

  // --------------------------------------------------------------------------------- the system

  /**
   `store` maps a revoked identifier to the instant its entry disappears. `read` holds the versions that
   logins and issuers have read and may still put into a token. `everRevoked` is history: no code looks at it. A
   revocation stores an entry whose time to live was computed from an earlier reading of the clock.
   */
  datatype System = System(
    now: real, settings: Settings, store: map<nat, real>, issued: set<Token>, read: set<int>, everRevoked: set<nat>)

  datatype Step =
    | Pass(dt: real)
    | ReadCredentials(username: string, password: string)
    | ReadVersion
    | Issue(version: int, jti: nat, exp: int)
    | Rotate(current: string, replacement: string)
    | Upgrade(expected: Password)
    | Revoke(token: Token, readAt: real)

  predicate FreshJti(s: System, jti: nat) {
    forall t :: t in s.issued ==> t.jti != jti
  }

  predicate Enabled(s: System, step: Step) {
    match step
    case Pass(dt) => dt >= 0.0
    case ReadCredentials(_, _) => true
    case ReadVersion => true
    case Issue(version, jti, _) => version in s.read && FreshJti(s, jti)
    case Rotate(_, _) => true
    case Upgrade(_) => true
    case Revoke(token, readAt) => token in s.issued && readAt <= s.now
  }

  function Apply(s: System, step: Step): System
    requires Enabled(s, step)
  {
    match step
    case Pass(dt) => s.(now := s.now + dt)
    case ReadCredentials(username, password) =>
      var filled := WithDefaults(s.settings, username, password);
      if filled.None? then s
      else s.(settings := filled.value, read := s.read + {CurrentVersion(filled.value)})
    case ReadVersion => s.(read := s.read + {CurrentVersion(s.settings)})
    case Issue(version, jti, exp) => s.(issued := s.issued + {Token(jti, exp, version)})
    case Rotate(current, replacement) =>
      var rotated := Rotated(s.settings, current, replacement);
      if rotated.None? then s else s.(settings := rotated.value)
    case Upgrade(expected) => s.(settings := Upgraded(s.settings, expected))
    case Revoke(token, readAt) =>
      s.(store := s.store[token.jti := s.now + RevocationTtl(token.exp, readAt) as real],
         everRevoked := s.everRevoked + {token.jti})
  }

  predicate Validates(s: System, t: Token) {
    && Decodes(t, s.issued, s.now)
    && !IsRevoked(s.store, t.jti, s.now)
    && CurrentVersion(s.settings) == t.version
  }

  predicate Initial(s: System) {
    s.store == map[] && s.issued == {} && s.read == {} && s.everRevoked == {} && CurrentVersion(s.settings) >= 0
  }

  predicate Legal(s: System, steps: seq<Step>)
    decreases steps
  {
    steps == [] || (Enabled(s, steps[0]) && Legal(Apply(s, steps[0]), steps[1..]))
  }

  function After(s: System, steps: seq<Step>): System
    requires Legal(s, steps)
    decreases steps
  {
    if steps == [] then s else After(Apply(s, steps[0]), steps[1..])
  }

  ghost predicate Reachable(s: System) {
    exists s0, steps :: Initial(s0) && Legal(s0, steps) && After(s0, steps) == s
  }

  lemma {:induction false} RunsJoin(s: System, a: seq<Step>, b: seq<Step>)
    requires Legal(s, a) && Legal(After(s, a), b)
    ensures Legal(s, a + b) && After(s, a + b) == After(After(s, a), b)
    decreases a
  {
    if a == [] {
      assert a + b == b;
    } else {
      hide Enabled, Apply;
      RunsJoin(Apply(s, a[0]), a[1..], b);
      assert (a + b)[1..] == a[1..] + b;
    }
  }

  lemma ReachableRun(s: System, steps: seq<Step>)
    requires Reachable(s) && Legal(s, steps)
    ensures Reachable(After(s, steps))
  {
    var s0, earlier :| Initial(s0) && Legal(s0, earlier) && After(s0, earlier) == s;
    RunsJoin(s0, earlier, steps);
  }

  lemma OneStep(s: System, step: Step)
    requires Enabled(s, step)
    ensures Legal(s, [step]) && After(s, [step]) == Apply(s, step)
  {
    assert Legal(Apply(s, step), []) && [step][1..] == [];
  }

  // ---------------------------------------------------------------------------------- invariants

  predicate UniqueJti(issued: set<Token>) {
    forall t, u :: t in issued && u in issued && t.jti == u.jti ==> t == u
  }

  /** Every revocation on record outlives the token it is about. */
  predicate RevocationsCover(s: System) {
    forall t :: t in s.issued ==>
      if t.jti in s.everRevoked then t.jti in s.store && s.store[t.jti] >= t.exp as real else t.jti !in s.store
  }

  predicate VersionsBelow(s: System) {
    && CurrentVersion(s.settings) >= 0
    && (forall t :: t in s.issued ==> t.version <= CurrentVersion(s.settings))
    && (forall v :: v in s.read ==> v <= CurrentVersion(s.settings))
  }

  function Ids(issued: set<Token>): set<nat> {
    set t | t in issued :: t.jti
  }

  predicate Known(s: System) {
    s.everRevoked <= Ids(s.issued) && s.store.Keys <= Ids(s.issued)
  }

  predicate Inv(s: System) {
    UniqueJti(s.issued) && RevocationsCover(s) && VersionsBelow(s) && Known(s)
  }

  /** The entry is there until the token is dead anyway, and gone within a second after. */
  lemma TtlCoversTheToken(exp: int, now: real)
    ensures now + RevocationTtl(exp, now) as real >= exp as real
    ensures exp > now.Floor ==> now + RevocationTtl(exp, now) as real < (exp + 1) as real
    ensures exp <= now.Floor ==> RevocationTtl(exp, now) == 1
  {
  }

  lemma VersionStep(s: System, step: Step)
    requires VersionsBelow(s) && Enabled(s, step)
    ensures VersionsBelow(Apply(s, step))
    ensures CurrentVersion(s.settings) <= CurrentVersion(Apply(s, step).settings)
  {
  }

  lemma IssueKeeps(s: System, t: Token)
    requires UniqueJti(s.issued) && RevocationsCover(s) && Known(s) && FreshJti(s, t.jti)
    ensures var s' := s.(issued := s.issued + {t}); UniqueJti(s'.issued) && RevocationsCover(s') && Known(s')
  {
    var s' := s.(issued := s.issued + {t});
    assert Ids(s'.issued) == Ids(s.issued) + {t.jti};
    assert t.jti !in Ids(s.issued);
  }

  lemma RevokeKeeps(s: System, t: Token, readAt: real)
    requires UniqueJti(s.issued) && RevocationsCover(s) && Known(s) && Enabled(s, Revoke(t, readAt))
    ensures var s' := Apply(s, Revoke(t, readAt)); UniqueJti(s'.issued) && RevocationsCover(s') && Known(s')
  {
    TtlCoversTheToken(t.exp, readAt);
  }

  lemma InvStep(s: System, step: Step)
    requires Inv(s) && Enabled(s, step)
    ensures Inv(Apply(s, step))
  {
    VersionStep(s, step);
    match step
    case Issue(version, jti, exp) => IssueKeeps(s, Token(jti, exp, version));
    case Revoke(token, readAt) => RevokeKeeps(s, token, readAt);
    case _ =>
  }

  lemma {:induction false} InvRun(s: System, steps: seq<Step>)
    requires Inv(s) && Legal(s, steps)
    ensures Inv(After(s, steps))
    decreases steps
  {
    if steps != [] {
      InvStep(s, steps[0]);
      InvRun(Apply(s, steps[0]), steps[1..]);
    }
  }

  lemma InvHolds(s: System)
    requires Reachable(s)
    ensures Inv(s)
  {
    var s0, steps :| Initial(s0) && Legal(s0, steps) && After(s0, steps) == s;
    InvRun(s0, steps);
  }

  /** What never goes back: versions, issued tokens, revocations, the clock. */
  predicate Later(s: System, t: System) {
    && CurrentVersion(s.settings) <= CurrentVersion(t.settings) && s.issued <= t.issued
    && s.everRevoked <= t.everRevoked && s.now <= t.now
  }

  lemma {:induction false} RunMovesForward(s: System, steps: seq<Step>)
    requires Inv(s) && Legal(s, steps)
    ensures Later(s, After(s, steps)) && Inv(After(s, steps))
    decreases steps
  {
    if steps != [] {
      InvStep(s, steps[0]);
      VersionStep(s, steps[0]);
      RunMovesForward(Apply(s, steps[0]), steps[1..]);
    }
  }

  // ------------------------------------------------------------------------------------ theorems

  /**
   Main result: the forgetting store answers like one that never forgets. In every reachable state an issued
   token validates exactly when it has not expired, was never revoked, and carries the current version.
   */
  lemma ValidatesExactly(s: System, t: Token)
    requires Reachable(s) && t in s.issued
    ensures Validates(s, t) <==>
      s.now < t.exp as real && t.jti !in s.everRevoked && t.version == CurrentVersion(s.settings)
  {
    InvHolds(s);
  }

  /** A revoked token never validates again, in any state of any later run. */
  lemma RevokedStaysDead(s: System, t: Token, readAt: real, steps: seq<Step>)
    requires Reachable(s) && Enabled(s, Revoke(t, readAt)) && Legal(Apply(s, Revoke(t, readAt)), steps)
    ensures !Validates(After(Apply(s, Revoke(t, readAt)), steps), t)
  {
    InvHolds(s);
    InvStep(s, Revoke(t, readAt));
    RunMovesForward(Apply(s, Revoke(t, readAt)), steps);
  }

  /**
   A successful rotation kills every session from before it for good: tokens already issued, and also tokens a
   login issues later from credentials it had read before.
   */
  lemma RotationEndsOlderSessions(s: System, current: string, replacement: string, steps: seq<Step>, t: Token)
    requires Reachable(s) && Rotated(s.settings, current, replacement).Some?
    requires Legal(Apply(s, Rotate(current, replacement)), steps)
    requires t in s.issued || t.version in s.read
    ensures !Validates(After(Apply(s, Rotate(current, replacement)), steps), t)
  {
    InvHolds(s);
    InvStep(s, Rotate(current, replacement));
    RunMovesForward(Apply(s, Rotate(current, replacement)), steps);
  }

  /** Once issued, a token decodes in every later state exactly until its expiry; before, it decodes in none. */
  lemma DecodesUntilExpiry(s: System, steps: seq<Step>, t: Token)
    requires Reachable(s) && Legal(s, steps)
    ensures t in s.issued ==>
      (Decodes(t, After(s, steps).issued, After(s, steps).now) <==> After(s, steps).now < t.exp as real)
    ensures t !in After(s, steps).issued ==> !Decodes(t, s.issued, s.now)
  {
    InvHolds(s);
    RunMovesForward(s, steps);
  }

  /** A token issued for some hours lives until the whole second in which they are over, counted from its issue. */
  lemma TokenLivesItsHours(s: System, steps: seq<Step>, t: Token, start: real, hours: int)
    requires Reachable(s) && Legal(s, steps) && t in s.issued && t.exp == ExpiryOf(start, hours)
    ensures Decodes(t, After(s, steps).issued, After(s, steps).now) <==>
      After(s, steps).now < (start + 3600.0 * hours as real).Floor as real
  {
    DecodesUntilExpiry(s, steps, t);
  }

  /** No token ever carries a version above the stored one, and the stored one never falls. */
  lemma VersionsNeverLead(s: System, steps: seq<Step>, t: Token)
    requires Reachable(s) && Legal(s, steps) && t in After(s, steps).issued
    ensures t.version <= CurrentVersion(After(s, steps).settings)
    ensures CurrentVersion(s.settings) <= CurrentVersion(After(s, steps).settings)
  {
    InvHolds(s);
    RunMovesForward(s, steps);
  }

  /** Reading the credentials of a configured administrator changes nothing, whatever the defaults. */
  lemma ReadingIsHarmlessOnceConfigured(settings: Settings, username: string, password: string)
    requires settings.username != "" && settings.password != NoPassword && settings.version.Some?
    ensures WithDefaults(settings, username, password) == Some(settings)
  {
  }
}
