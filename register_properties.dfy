/** What the registration route promises, stated over `PostOutcome` and the
    challenge table (src/app/api/auth/register/route.ts). */
module RegisterProperties {
  import opened Common
  import opened Strings
  import opened Challenges
  import opened Register
  import Auth

  /** A body that fails the discriminated union gets 400 "Invalid request
      data"; one that is not JSON at all gets 500; neither changes anything. */
  lemma InvalidBodyRefused(w: World, body: Body, nowMs: int, newUserId: string, env: Auth.Env, isEmail: string -> bool)
    requires !ParseRegistration(body, isEmail).Valid?
    ensures var o := PostOutcome(w, body, nowMs, newUserId, env, isEmail);
      && o.world == w
      && (body.Unreadable? ==> o.reply == Reply(500, Failure("Registration failed"), None))
      && (!body.Unreadable? ==> o.reply == Reply(400, InvalidRequestData, None))
  {
  }

  /** A password registration for an e-mail already stored is refused with
      400 and inserts nothing. */
  lemma DuplicateEmailRefused(w: World, email: string, password: string, nowMs: int, newUserId: string,
                              env: Auth.Env, isEmail: string -> bool)
    requires WellFormed(PasswordRegistration(email, password), isEmail)
    requires EmailTaken(w.users, email)
    ensures var o := PostOutcome(w, Object(Encode(PasswordRegistration(email, password))), nowMs, newUserId, env, isEmail);
      o.world == w && o.reply == Reply(400, Failure("Email already registered"), None)
  {
    ParseEncoded(PasswordRegistration(email, password), isEmail);
  }

  /** A password registration for a new e-mail inserts exactly one user,
      holding that e-mail, the bcrypt hash at cost 10 and type "password",
      and answers with its id and a session cookie for it. */
  lemma PasswordRegistrationInserts(w: World, email: string, password: string, nowMs: int, newUserId: string,
                                    env: Auth.Env, isEmail: string -> bool)
    requires WellFormed(PasswordRegistration(email, password), isEmail)
    requires !EmailTaken(w.users, email) && !UserIdTaken(w.users, newUserId)
    ensures var o := PostOutcome(w, Object(Encode(PasswordRegistration(email, password))), nowMs, newUserId, env, isEmail);
      && o.world.users == w.users + [User(newUserId, Some(email), Some(Bcrypt(password, 10)), "password", false)]
      && o.world.challenges == w.challenges && o.world.credentials == w.credentials
      && o.reply.status == 200 && o.reply.body == Registered(newUserId, "password")
      && o.reply.session.Some? && o.reply.session.value.value.claims.sub == Some(newUserId)
  {
    ParseEncoded(PasswordRegistration(email, password), isEmail);
  }

  /** Registering the same e-mail twice: the second attempt is refused and
      leaves a single row for that e-mail. */
  lemma RegisteringTwiceFails(w: World, email: string, p1: string, p2: string, nowMs: int,
                                                 id1: string, id2: string, env: Auth.Env, isEmail: string -> bool)
    requires WellFormed(PasswordRegistration(email, p1), isEmail) && WellFormed(PasswordRegistration(email, p2), isEmail)
    requires !EmailTaken(w.users, email) && !UserIdTaken(w.users, id1)
    ensures var o1 := PostOutcome(w, Object(Encode(PasswordRegistration(email, p1))), nowMs, id1, env, isEmail);
      var o2 := PostOutcome(o1.world, Object(Encode(PasswordRegistration(email, p2))), nowMs, id2, env, isEmail);
      && o2.reply == Reply(400, Failure("Email already registered"), None)
      && o2.world == o1.world
      && |o2.world.users| == |w.users| + 1
  {
    PasswordRegistrationInserts(w, email, p1, nowMs, id1, env, isEmail);
    var o1 := PostOutcome(w, Object(Encode(PasswordRegistration(email, p1))), nowMs, id1, env, isEmail);
    assert o1.world.users[|w.users|].email == Some(email);
    assert EmailTaken(o1.world.users, email);
    DuplicateEmailRefused(o1.world, email, p2, nowMs, id2, env, isEmail);
  }

  /** A passkey registration naming an unknown challenge, or one with
      `expiresAt < now`, is refused with 400 and changes nothing. */
  lemma UnknownOrExpiredChallengeRefused(w: World, r: Registration, nowMs: int, newUserId: string,
                                         env: Auth.Env, isEmail: string -> bool)
    requires r.WebauthnRegistration? && WellFormed(r, isEmail)
    requires !Accepts(w.challenges, r.challengeId, nowMs)
    ensures var o := PostOutcome(w, Object(Encode(r)), nowMs, newUserId, env, isEmail);
      o.world == w && o.reply == Reply(400, Failure("Invalid or expired challenge"), None)
  {
    ParseEncoded(r, isEmail);
  }

  /** Once a passkey registration gets past the challenge check, the
      challenge is gone whatever happens next, even when an insert fails. */
  lemma ChallengeDeletedBeforeInserts(w: World, r: Registration, nowMs: int, newUserId: string,
                                      env: Auth.Env, isEmail: string -> bool)
    requires r.WebauthnRegistration? && WellFormed(r, isEmail)
    requires Accepts(w.challenges, r.challengeId, nowMs)
    ensures var o := PostOutcome(w, Object(Encode(r)), nowMs, newUserId, env, isEmail);
      o.world.challenges == w.challenges - {r.challengeId}
  {
    ParseEncoded(r, isEmail);
  }

  /** Replaying a challenge id that a passkey registration already got past
      is refused with 400, at any later time, whatever else the body says. */
  lemma ReplayRefused(w: World, r1: Registration, r2: Registration, t1: int, t2: int,
                                         id1: string, id2: string, env: Auth.Env, isEmail: string -> bool)
    requires r1.WebauthnRegistration? && WellFormed(r1, isEmail) && Accepts(w.challenges, r1.challengeId, t1)
    requires r2.WebauthnRegistration? && WellFormed(r2, isEmail) && r2.challengeId == r1.challengeId
    ensures var o1 := PostOutcome(w, Object(Encode(r1)), t1, id1, env, isEmail);
      var o2 := PostOutcome(o1.world, Object(Encode(r2)), t2, id2, env, isEmail);
      o2.reply == Reply(400, Failure("Invalid or expired challenge"), None) && o2.world == o1.world
  {
    ChallengeDeletedBeforeInserts(w, r1, t1, id1, env, isEmail);
    var o1 := PostOutcome(w, Object(Encode(r1)), t1, id1, env, isEmail);
    assert !Accepts(o1.world.challenges, r2.challengeId, t2);
    UnknownOrExpiredChallengeRefused(o1.world, r2, t2, id2, env, isEmail);
  }

  /** A passkey registration with a live challenge, a new e-mail and new
      ids inserts one "webauthn" user and one credential that points at it,
      and answers with that user's id and a session cookie. */
  lemma PasskeyRegistrationInserts(w: World, r: Registration, nowMs: int, newUserId: string,
                                   env: Auth.Env, isEmail: string -> bool)
    requires r.WebauthnRegistration? && WellFormed(r, isEmail)
    requires Accepts(w.challenges, r.challengeId, nowMs)
    requires Truthy(r.optEmail) && !EmailTaken(w.users, r.optEmail.value)
    requires !UserIdTaken(w.users, newUserId) && !CredentialIdTaken(w.credentials, r.credentialId)
    ensures var o := PostOutcome(w, Object(Encode(r)), nowMs, newUserId, env, isEmail);
      && o.world.users == w.users + [User(newUserId, r.optEmail, None, "webauthn", false)]
      && o.world.credentials == w.credentials + [Credential(r.credentialId, newUserId, r.publicKey, r.counter, r.transports)]
      && o.world.challenges == w.challenges - {r.challengeId}
      && o.reply.status == 200 && o.reply.body == Registered(newUserId, "webauthn")
      && o.reply.session.Some? && o.reply.session.value.value.claims.sub == Some(newUserId)
  {
    ParseEncoded(r, isEmail);
    var u := User(newUserId, r.optEmail, None, "webauthn", false);
    assert UserIdTaken(w.users + [u], newUserId) by {
      assert u in w.users + [u];
    }
  }

  /** The users table declares `email` NOT NULL, so a passkey registration
      without an e-mail consumes its challenge and then fails with 500,
      inserting no user. */
  lemma PasskeyWithoutEmailFails(w: World, r: Registration, nowMs: int, newUserId: string,
                                 env: Auth.Env, isEmail: string -> bool)
    requires r.WebauthnRegistration? && WellFormed(r, isEmail) && !Truthy(r.optEmail)
    requires Accepts(w.challenges, r.challengeId, nowMs)
    ensures var o := PostOutcome(w, Object(Encode(r)), nowMs, newUserId, env, isEmail);
      && o.reply == Reply(500, Failure("Registration failed"), None)
      && o.world == w.(challenges := w.challenges - {r.challengeId})
  {
    ParseEncoded(r, isEmail);
  }

  /** Every POST keeps the tables within their constraints. */
  lemma PostKeepsTablesValid(w: World, body: Body, nowMs: int, newUserId: string, env: Auth.Env, isEmail: string -> bool)
    requires TablesValid(w.users, w.credentials)
    ensures var o := PostOutcome(w, body, nowMs, newUserId, env, isEmail);
      TablesValid(o.world.users, o.world.credentials)
  {
    match ParseRegistration(body, isEmail)
    case BadJson =>
    case SchemaError =>
    case Valid(PasswordRegistration(email, password)) =>
      var u := User(newUserId, Some(email), Some(Bcrypt(password, BcryptCost)), "password", false);
      if !EmailTaken(w.users, email) && UserInsertable(w.users, u) {
        InsertUserKeepsValid(w.users, w.credentials, u);
      }
    case Valid(WebauthnRegistration(email, credentialId, publicKey, counter, transports, challengeId)) =>
      var u := User(newUserId, if Truthy(email) then email else None, None, "webauthn", false);
      if Accepts(w.challenges, challengeId, nowMs) && UserInsertable(w.users, u) {
        InsertUserKeepsValid(w.users, w.credentials, u);
        var c := Credential(credentialId, newUserId, publicKey, counter, transports);
        if CredentialInsertable(w.users + [u], w.credentials, c) {
          InsertCredentialKeepsValid(w.users + [u], w.credentials, c);
        }
      }
  }

  /** A challenge issued by GET can be used by a passkey registration up to
      five minutes later, and the registration removes it. */
  lemma IssueThenRegister(w: World, challengeBytes: seq<Byte>, idBytes: seq<Byte>, issuedAt: int,
                                             r: Registration, nowMs: int, newUserId: string,
                                             env: Auth.Env, isEmail: string -> bool)
    requires r.WebauthnRegistration? && WellFormed(r, isEmail) && r.challengeId == HexEncode(idBytes)
    requires issuedAt <= nowMs <= issuedAt + ChallengeTtl
    ensures var issued := w.(challenges := AfterIssue(w.challenges, HexEncode(idBytes), challengeBytes, issuedAt));
      var o := PostOutcome(issued, Object(Encode(r)), nowMs, newUserId, env, isEmail);
      && o.reply != Reply(400, Failure("Invalid or expired challenge"), None)
      && HexEncode(idBytes) !in o.world.challenges
  {
    var issued := w.(challenges := AfterIssue(w.challenges, HexEncode(idBytes), challengeBytes, issuedAt));
    IssuedAcceptedForFiveMinutes(w.challenges, HexEncode(idBytes), challengeBytes, issuedAt, nowMs);
    ChallengeDeletedBeforeInserts(issued, r, nowMs, newUserId, env, isEmail);
  }
}
