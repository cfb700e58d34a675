/** The registration route (src/app/api/auth/register/route.ts): request
    validation, the password and passkey branches of POST, challenge issue
    in GET, and the user and credential tables they write. */
module Register {
  import opened Common
  import opened Strings
  import opened Challenges
  import Auth

  // ---------------------------------------------------------------------
  // Request bodies and their validation

  /** A JSON value, as far as the schemas look at it. */
  datatype Json = JString(s: string) | JStringArray(items: seq<string>) | JOther

  /** `await request.json()`: text that is not JSON, a JSON value that is not
      an object, or an object. */
  datatype Body = Unreadable | NotAnObject | Object(fields: map<string, Json>)

  /** The two members of the `registrationSchema` discriminated union. */
  datatype Registration =
    | PasswordRegistration(email: string, password: string)
    | WebauthnRegistration(optEmail: Option<string>, credentialId: string, publicKey: string,
                           counter: string, transports: Option<seq<string>>, challengeId: string)

  /** `request.json()` threw, `registrationSchema.parse` threw a ZodError, or
      the parsed data. */
  datatype Parsed = BadJson | SchemaError | Valid(data: Registration)

  /** `.min(8)` on the password, counted in UTF-16 code units. */
  const MinPasswordLength: nat := 8

  predicate RequiredString(f: map<string, Json>, k: string) {
    k in f && f[k].JString?
  }

  predicate OptionalString(f: map<string, Json>, k: string) {
    k !in f || f[k].JString?
  }

  function OptString(f: map<string, Json>, k: string): Option<string> {
    if k in f && f[k].JString? then Some(f[k].s) else None
  }

  /** `registrationSchema.parse(body)`. `isEmail` is zod's e-mail check.
      Keys the schemas do not name are dropped, as `z.object` does. */
  function ParseRegistration(body: Body, isEmail: string -> bool): (p: Parsed)
    ensures p.BadJson? <==> body.Unreadable?
    ensures p.Valid? ==> body.Object? && "type" in body.fields
  {
    match body
    case Unreadable => BadJson
    case NotAnObject => SchemaError
    case Object(f) =>
      if "type" in f && f["type"] == JString("password") then
        if RequiredString(f, "email") && isEmail(f["email"].s)
          && RequiredString(f, "password") && Utf16Length(f["password"].s) >= MinPasswordLength
        then Valid(PasswordRegistration(f["email"].s, f["password"].s))
        else SchemaError
      else if "type" in f && f["type"] == JString("webauthn") then
        if OptionalString(f, "email") && ("email" in f ==> isEmail(f["email"].s))
          && RequiredString(f, "credentialId") && RequiredString(f, "publicKey")
          && RequiredString(f, "counter") && RequiredString(f, "challengeId")
          && ("transports" !in f || f["transports"].JStringArray?)
        then Valid(WebauthnRegistration(
          OptString(f, "email"), f["credentialId"].s, f["publicKey"].s, f["counter"].s,
          if "transports" in f then Some(f["transports"].items) else None,
          f["challengeId"].s))
        else SchemaError
      else SchemaError
  }

  /** What the schema demands beyond the shape of the fields. */
  predicate WellFormed(r: Registration, isEmail: string -> bool) {
    match r
    case PasswordRegistration(email, password) =>
      isEmail(email) && Utf16Length(password) >= MinPasswordLength
    case WebauthnRegistration(email, _, _, _, _, _) =>
      email.Some? ==> isEmail(email.value)
  }

  /** The JSON object a client sends for `r`. */
  function Encode(r: Registration): map<string, Json> {
    match r
    case PasswordRegistration(email, password) =>
      map["type" := JString("password"), "email" := JString(email), "password" := JString(password)]
    case WebauthnRegistration(email, credentialId, publicKey, counter, transports, challengeId) =>
      var required := map["type" := JString("webauthn"), "credentialId" := JString(credentialId),
        "publicKey" := JString(publicKey), "counter" := JString(counter),
        "challengeId" := JString(challengeId)];
      var withEmail := if email.Some? then required["email" := JString(email.value)] else required;
      if transports.Some? then withEmail["transports" := JStringArray(transports.value)] else withEmail
  }

  /** Every well-formed registration is accepted as itself. */
  lemma ParseEncoded(r: Registration, isEmail: string -> bool)
    requires WellFormed(r, isEmail)
    ensures ParseRegistration(Object(Encode(r)), isEmail) == Valid(r)
  {
    var f := Encode(r);
    assert f["type"] == JString(if r.PasswordRegistration? then "password" else "webauthn");
    if r.WebauthnRegistration? {
      assert "password" != "webauthn";
      assert f["type"] != JString("password");
    }
  }

  /** Whatever is accepted is well formed, and the body holds exactly its
      encoding on the keys the schema reads. */
  lemma ParseSound(body: Body, isEmail: string -> bool)
    requires ParseRegistration(body, isEmail).Valid?
    ensures var r := ParseRegistration(body, isEmail).data;
      && WellFormed(r, isEmail)
      && forall k :: k in Encode(r) ==> k in body.fields && body.fields[k] == Encode(r)[k]
  {
  }

  /** A password of fewer than eight UTF-16 code units fails validation. */
  lemma ShortPasswordRejected(f: map<string, Json>, isEmail: string -> bool)
    requires "type" in f && f["type"] == JString("password")
    requires "password" in f && f["password"].JString? && Utf16Length(f["password"].s) < 8
    ensures ParseRegistration(Object(f), isEmail) == SchemaError
  {
  }

  // ---------------------------------------------------------------------
  // The users and webauthn_credentials tables

  /** bcrypt, kept symbolic: the hash of `password` at work factor `cost`. */
  datatype PasswordHash = Bcrypt(password: string, cost: nat)
  const BcryptCost: nat := 10

  datatype User = User(id: string, email: Option<string>, passwordHash: Option<PasswordHash>,
                       registrationType: string, completedRegistration: bool)
  datatype Credential = Credential(id: string, userId: string, publicKey: string,
                                   counter: string, transports: Option<seq<string>>)

  predicate EmailTaken(users: seq<User>, email: string) {
    exists u :: u in users && u.email == Some(email)
  }

  predicate UserIdTaken(users: seq<User>, id: string) {
    exists u :: u in users && u.id == id
  }

  predicate CredentialIdTaken(credentials: seq<Credential>, id: string) {
    exists c :: c in credentials && c.id == id
  }

  /** The users table's constraints: `id` is the primary key, `email` is
      NOT NULL and UNIQUE. An insert that breaks one throws. */
  predicate UserInsertable(users: seq<User>, u: User) {
    u.email.Some? && !EmailTaken(users, u.email.value) && !UserIdTaken(users, u.id)
  }

  /** The credentials table's constraints: `id` is the primary key and
      `userId` references an existing user. */
  predicate CredentialInsertable(users: seq<User>, credentials: seq<Credential>, c: Credential) {
    !CredentialIdTaken(credentials, c.id) && UserIdTaken(users, c.userId)
  }

  /** What the table constraints guarantee of the stored rows. */
  ghost predicate TablesValid(users: seq<User>, credentials: seq<Credential>) {
    && (forall i, j :: 0 <= i < j < |users| ==> users[i].id != users[j].id)
    && (forall i, j :: 0 <= i < j < |users| ==> users[i].email != users[j].email)
    && (forall i :: 0 <= i < |users| ==> users[i].email.Some?)
    && (forall i, j :: 0 <= i < j < |credentials| ==> credentials[i].id != credentials[j].id)
    && (forall i :: 0 <= i < |credentials| ==> UserIdTaken(users, credentials[i].userId))
  }

  lemma InsertUserKeepsValid(users: seq<User>, credentials: seq<Credential>, u: User)
    requires TablesValid(users, credentials) && UserInsertable(users, u)
    ensures TablesValid(users + [u], credentials)
  {
    var users' := users + [u];
    forall i, j | 0 <= i < j < |users'|
      ensures users'[i].id != users'[j].id && users'[i].email != users'[j].email
    {
      if j == |users| {
        assert users'[i] in users;
      }
    }
    forall i | 0 <= i < |credentials| ensures UserIdTaken(users', credentials[i].userId) {
      assert UserIdTaken(users, credentials[i].userId);
      var w :| w in users && w.id == credentials[i].userId;
      assert w in users';
    }
  }

  lemma InsertCredentialKeepsValid(users: seq<User>, credentials: seq<Credential>, c: Credential)
    requires TablesValid(users, credentials) && CredentialInsertable(users, credentials, c)
    ensures TablesValid(users, credentials + [c])
  {
    var credentials' := credentials + [c];
    forall i, j | 0 <= i < j < |credentials'| ensures credentials'[i].id != credentials'[j].id {
      if j == |credentials| {
        assert credentials'[i] in credentials;
      }
    }
  }

  /** The users table with `email` nullable, as the optional e-mail of a
      passkey registration needs: `id` is the primary key and `email` is
      UNIQUE among the rows that have one. */
  predicate UserInsertableNullable(users: seq<User>, u: User) {
    (u.email.Some? ==> !EmailTaken(users, u.email.value)) && !UserIdTaken(users, u.id)
  }

  ghost predicate TablesValidNullable(users: seq<User>, credentials: seq<Credential>) {
    && (forall i, j :: 0 <= i < j < |users| ==> users[i].id != users[j].id)
    && (forall i, j :: 0 <= i < j < |users| && users[i].email.Some? ==> users[i].email != users[j].email)
    && (forall i, j :: 0 <= i < j < |credentials| ==> credentials[i].id != credentials[j].id)
    && (forall i :: 0 <= i < |credentials| ==> UserIdTaken(users, credentials[i].userId))
  }

  /** With the nullable column, the user row the passkey branch builds for
      a registration without an e-mail is insertable whenever its id is
      new, and the insert keeps the constraints; the NOT NULL column
      refuses that row. */
  lemma NullableEmailAdmitsPasskey(users: seq<User>, credentials: seq<Credential>, id: string)
    requires TablesValidNullable(users, credentials) && !UserIdTaken(users, id)
    ensures var u := User(id, None, None, "webauthn", false);
      && !UserInsertable(users, u)
      && UserInsertableNullable(users, u)
      && TablesValidNullable(users + [u], credentials)
  {
    InsertUserNullableKeepsValid(users, credentials, User(id, None, None, "webauthn", false));
  }

  lemma InsertUserNullableKeepsValid(users: seq<User>, credentials: seq<Credential>, u: User)
    requires TablesValidNullable(users, credentials) && UserInsertableNullable(users, u)
    ensures TablesValidNullable(users + [u], credentials)
  {
    var users' := users + [u];
    forall i, j | 0 <= i < j < |users'|
      ensures users'[i].id != users'[j].id
      ensures users'[i].email.Some? ==> users'[i].email != users'[j].email
    {
      if j == |users| {
        assert users'[i] in users;
      }
    }
    forall i | 0 <= i < |credentials| ensures UserIdTaken(users', credentials[i].userId) {
      assert UserIdTaken(users, credentials[i].userId);
      var w :| w in users && w.id == credentials[i].userId;
      assert w in users';
    }
  }

  class UserStore {
    var users: seq<User>
    var credentials: seq<Credential>

    constructor ()
      ensures users == [] && credentials == []
    {
      users, credentials := [], [];
    }

    /** `db.insert(users).values(u)`: appends the row, or throws (reported
        as `false`) and changes nothing when a constraint forbids it. */
    method InsertUser(u: User) returns (ok: bool)
      modifies this
      ensures ok == UserInsertable(old(users), u)
      ensures users == if ok then old(users) + [u] else old(users)
      ensures credentials == old(credentials)
    {
      ok := UserInsertable(users, u);
      if ok {
        users := users + [u];
      }
    }

    /** `db.insert(webauthnCredentials).values(c)`. */
    method InsertCredential(c: Credential) returns (ok: bool)
      modifies this
      ensures ok == CredentialInsertable(old(users), old(credentials), c)
      ensures credentials == if ok then old(credentials) + [c] else old(credentials)
      ensures users == old(users)
    {
      ok := CredentialInsertable(users, credentials, c);
      if ok {
        credentials := credentials + [c];
      }
    }
  }

  // ---------------------------------------------------------------------
  // Responses and the two handlers

  /** `Buffer.toString("base64url")`, kept symbolic (section 5 of RFC 4648). */
  datatype Base64Url = Base64Url(bytes: seq<Byte>)

  datatype ReplyBody =
    | Registered(userId: string, registrationType: string)
    | Failure(error: string)
    | InvalidRequestData
    | ChallengeIssued(challenge: Base64Url, challengeId: string)

  /** A JSON response, with the `session` cookie when one is set. */
  datatype Reply = Reply(status: int, body: ReplyBody, session: Option<Auth.SessionCookie>)

  /** Everything the two handlers read and write. */
  datatype World = World(challenges: map<string, Challenge>, users: seq<User>, credentials: seq<Credential>)
  datatype Outcome = Outcome(world: World, reply: Reply)

  const RegistrationFailed: Reply := Reply(500, Failure("Registration failed"), None)
  const EmailAlreadyRegistered: Reply := Reply(400, Failure("Email already registered"), None)
  const InvalidChallenge: Reply := Reply(400, Failure("Invalid or expired challenge"), None)

  function Success(userId: string, registrationType: string, nowMs: int, env: Auth.Env): Reply {
    Reply(200, Registered(userId, registrationType), Some(Auth.GetSessionCookie(userId, nowMs, env)))
  }

  /** POST at time `nowMs`; `newUserId` is the id the database would draw. */
  function PostOutcome(w: World, body: Body, nowMs: int, newUserId: string, env: Auth.Env,
                       isEmail: string -> bool): Outcome
  {
    match ParseRegistration(body, isEmail)
    case BadJson => Outcome(w, RegistrationFailed)
    case SchemaError => Outcome(w, Reply(400, InvalidRequestData, None))
    case Valid(PasswordRegistration(email, password)) =>
      if EmailTaken(w.users, email) then Outcome(w, EmailAlreadyRegistered)
      else
        var u := User(newUserId, Some(email), Some(Bcrypt(password, BcryptCost)), "password", false);
        if !UserInsertable(w.users, u) then Outcome(w, RegistrationFailed)
        else Outcome(w.(users := w.users + [u]), Success(newUserId, "password", nowMs, env))
    case Valid(WebauthnRegistration(email, credentialId, publicKey, counter, transports, challengeId)) =>
      if !Accepts(w.challenges, challengeId, nowMs) then Outcome(w, InvalidChallenge)
      else
        var w1 := w.(challenges := w.challenges - {challengeId});
        var u := User(newUserId, if Truthy(email) then email else None, None, "webauthn", false);
        if !UserInsertable(w1.users, u) then Outcome(w1, RegistrationFailed)
        else
          var w2 := w1.(users := w1.users + [u]);
          var c := Credential(credentialId, newUserId, publicKey, counter, transports);
          if !CredentialInsertable(w2.users, w2.credentials, c) then Outcome(w2, RegistrationFailed)
          else Outcome(w2.(credentials := w2.credentials + [c]), Success(newUserId, "webauthn", nowMs, env))
  }

  /** POST /api/auth/register. */
  method Post(challenges: ChallengeStore, db: UserStore, body: Body, nowMs: int, newUserId: string,
              env: Auth.Env, isEmail: string -> bool) returns (reply: Reply)
    modifies challenges, db
    ensures var o := PostOutcome(World(old(challenges.entries), old(db.users), old(db.credentials)),
                                 body, nowMs, newUserId, env, isEmail);
      && reply == o.reply
      && challenges.entries == o.world.challenges
      && db.users == o.world.users
      && db.credentials == o.world.credentials
  {
    var parsed := ParseRegistration(body, isEmail);
    match parsed
    case BadJson =>
      return RegistrationFailed;
    case SchemaError =>
      return Reply(400, InvalidRequestData, None);
    case Valid(PasswordRegistration(email, password)) =>
      if EmailTaken(db.users, email) {
        return EmailAlreadyRegistered;
      }
      var passwordHash := Bcrypt(password, BcryptCost);
      var ok := db.InsertUser(User(newUserId, Some(email), Some(passwordHash), "password", false));
      if !ok {
        return RegistrationFailed;
      }
      reply := Success(newUserId, "password", nowMs, env);
    case Valid(WebauthnRegistration(email, credentialId, publicKey, counter, transports, challengeId)) =>
      var challenge := challenges.Consume(challengeId, nowMs);
      if challenge.None? {
        return InvalidChallenge;
      }
      var ok := db.InsertUser(User(newUserId, if Truthy(email) then email else None, None, "webauthn", false));
      if !ok {
        return RegistrationFailed;
      }
      ok := db.InsertCredential(Credential(credentialId, newUserId, publicKey, counter, transports));
      if !ok {
        return RegistrationFailed;
      }
      reply := Success(newUserId, "webauthn", nowMs, env);
  }

  /** GET /api/auth/register with 32 random challenge bytes and 16 random
      id bytes drawn by `crypto.randomBytes`. */
  method Get(challenges: ChallengeStore, challengeBytes: seq<Byte>, idBytes: seq<Byte>, nowMs: int)
    returns (reply: Reply)
    requires |challengeBytes| == 32 && |idBytes| == 16
    modifies challenges
    ensures challenges.entries == AfterIssue(old(challenges.entries), HexEncode(idBytes), challengeBytes, nowMs)
    ensures reply == Reply(200, ChallengeIssued(Base64Url(challengeBytes), HexEncode(idBytes)), None)
    ensures |reply.body.challengeId| == 32
  {
    var challengeId := HexEncode(idBytes);
    challenges.Issue(challengeId, challengeBytes, nowMs);
    reply := Reply(200, ChallengeIssued(Base64Url(challengeBytes), challengeId), None);
  }
}
