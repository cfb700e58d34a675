# fidena-client: a Dafny model of the session gate and its request handlers

fidena-client is a personal-finance web application. This project models:

- Registration (`src/app/api/auth/register/route.ts`):
  - the password and passkey (WebAuthn) branches of POST;
  - challenge issue in GET;
  - the in-memory challenge table with its five-minute expiry and its sweep.
- Session tokens and the session cookie (`src/lib/auth.ts`).
- The request gate (`src/proxy.ts`). It routes the gated API paths through `processSession`, which attaches an `x-user-id` header or, failing that, tries to redirect to the login page.
- The merchants API (`src/app/api/merchants/route.ts`) and the merchant-creation rule it validates with (`src/lib/zodForms.ts`).
- Four pieces of client-side state logic:
  - the label picker (`labelsSelect.tsx`);
  - the signed amount field (`amountSelect.tsx`);
  - the sidebar's name and initials helpers (`sidebar.tsx`);
  - the registration wizard's step counter (`src/app/auth/register/page.tsx`).

Each source file becomes one module:

| module | file |
|---|---|
| `Challenges` | `challenges.dfy` |
| `Register`, `RegisterProperties` | `register.dfy`, `register_properties.dfy` |
| `Auth` | `auth.dfy` |
| `RequestGate` | `proxy.dfy` |
| `PathPattern` | `path_pattern.dfy` (a reading of the URLPattern pathname syntax) |
| `MerchantForm` | `merchant_form.dfy` |
| `Merchants` | `merchants.dfy` |
| `LabelsPicker` | `labels_select.dfy` |
| `AmountInput` | `amount_select.dfy` |
| `Sidebar` | `sidebar.dfy` |
| `Wizard` | `wizard.dfy` |

`Common` and `Strings` hold the shared value types and the JavaScript string built-ins the app relies on: `split`, `join`, `replace`, `trim`, hex encoding, and UTF-16 length and code units.

Where the source changes state in place, the model does too:

- The challenge `Map` is a class with a `map` field. Its sweep is a loop over the keys.
- The users, credentials, labels and merchant tables are classes whose methods append rows.
- The proxy's matcher search is a nested loop.
- The wizard's `currentStep` is a class field.

Each method is proved equal to a specification function of the old state and the inputs, and the lemmas are stated over those functions. The handlers that only compute new arrays or values are functions: the label picker, the amount field, the sidebar helpers and the merchants GET assembly.

External collaborators become parameters:

- the wall clock (`nowMs`);
- `crypto.randomBytes` (the drawn bytes);
- the id the database draws for a new user;
- zod's e-mail check (`isEmail`);
- URLPattern's `test`;
- `verifyJWT` inside the proxy;
- the failure of a merchants transaction (`txFails`).

HMAC signing, bcrypt and base64url are symbolic constructors. A signature tag equals another only when the key and the signed data are equal.

## Model

| member | source | states |
|---|---|---|
| Common.Coalesce | src/app/api/merchants/route.ts:45-47 | `a ?? b`: the first operand when present, the second otherwise |
| Strings.Before | src/components/sidebar.tsx:51 | `s.split(c)[0]` is a prefix of `s` without `c`; it is shorter than `s` exactly when `s` holds `c`, and then it stops at the first `c` |
| Strings.Split | src/components/sidebar.tsx:56 | `split` yields at least one part; the first is the text before the first separator; no part holds the separator |
| Strings.SplitAvoids | src/components/sidebar.tsx:56 | a character the string does not hold is in none of its parts |
| Strings.JoinSplit | src/components/sidebar.tsx:56 | joining the parts of a split with the same separator gives back the string |
| Strings.ReplaceFirst | src/components/sidebar.tsx:51 | `replace(".", " ")` keeps the length; it changes nothing without a `.`; otherwise it replaces only the first one |
| Strings.ReplaceFirstAt | src/components/sidebar.tsx:51 | position by position, only the first "." changes, and it becomes the replacement |
| Strings.ReplaceFirstAvoids | src/components/sidebar.tsx:51 | `replace` introduces no character except the replacement |
| Strings.Trim | src/app/home/transactions/new/labelsSelect.tsx:66-67 | `trim()` is the slice of `s` after its leading whitespace, followed only by whitespace, with no whitespace at either end; it is empty exactly when `s` is all whitespace |
| Strings.Utf16Length | src/app/api/auth/register/route.ts:12 | zod's `min(8)` counts UTF-16 code units: between one and two per character |
| Strings.Utf16Char | src/components/sidebar.tsx:56 | a character below U+10000 is one code unit equal to itself; above, a high and a low surrogate from which the character is recovered |
| Strings.Utf16 | src/components/sidebar.tsx:56 | a string as JavaScript stores it has as many code units as `length` reports and begins with its first character's encoding |
| Strings.FirstCodeUnit | src/components/sidebar.tsx:56 | `s[0]` is the first character below U+10000 and a lone high surrogate above |
| Strings.HexEncode | src/app/api/auth/register/route.ts:135 | `toString("hex")` gives two lowercase hex digits per byte |
| Strings.HexRoundTrip | src/app/api/auth/register/route.ts:135 | the challenge id decodes back to the 16 bytes it was made from |
| Strings.HexInjective | src/app/api/auth/register/route.ts:135 | distinct random byte strings give distinct challenge ids |
| Auth.GenerateJwt | src/lib/auth.ts:17-22 | the token has an HS256 header and the payload's iat, iss and sub; its `exp` is the signing time plus seven days, whatever exp the payload had |
| Auth.JwtVerify | src/lib/auth.ts:26 | jwtVerify accepts only a parsed token with an HMAC algorithm, the tag of its own header and claims under the secret, and an exp after now; it then yields those claims |
| Auth.VerifyJwt | src/lib/auth.ts:24-31 | `verifyJWT` yields the payload exactly when jwtVerify accepts, and null on every rejection |
| Auth.SessionPayload | src/lib/auth.ts:34-43 | the payload holds iat = now, sub = the user id, iss = "fidena-next-backend_" + version, and exp = iat + 2592000 |
| Auth.GetSessionCookie | src/lib/auth.ts:33-52 | iat is the current time floored to seconds; the token's subject and issuer are the user's; its exp is iat plus seven days; the cookie is httpOnly, path "/", sameSite lax, maxAge 2592000, and secure exactly in production |
| Auth.GeneratedTokenVerifies | src/lib/auth.ts:17-31 | a token verifies under its own secret exactly until seven days after signing, and then yields the signed claims |
| Auth.TamperedTokenFails | src/lib/auth.ts:24-31 | a token with changed claims, or one signed under another key, never verifies |
| Auth.CookieOutlivesToken | src/lib/auth.ts:20-46 | between day 7 and day 30 after login the browser still sends the cookie, but its token no longer verifies |
| Auth.GetSessionCookieIntended | src/lib/auth.ts:38-43 | corrected cookie: the token carries the payload's exp = iat + maxAge, with the same cookie attributes |
| Auth.IntendedTokenLastsAsCookie | src/lib/auth.ts:35-46 | with the corrected expiry, the token verifies exactly while the cookie lives |
| Challenges.Unexpired | src/app/api/auth/register/route.ts:144-148 | the sweep keeps exactly the entries with `expiresAt >= now`, unchanged |
| Challenges.IssuedAcceptedForFiveMinutes | src/app/api/auth/register/route.ts:138-141 | a challenge issued at t is accepted at `now` exactly when now <= t + 300000 ms |
| Challenges.IssueKeepsOthers | src/app/api/auth/register/route.ts:138-148 | at any time after the GET, another id is accepted exactly when it was accepted before the GET |
| Challenges.SweepsCompose | src/app/api/auth/register/route.ts:144-148 | a sweep at t1 followed by one at a later t2 equals one sweep at t2 |
| Challenges.ChallengeStore.constructor | src/app/api/auth/register/route.ts:31 | the table starts empty |
| Challenges.ChallengeStore.Issue | src/app/api/auth/register/route.ts:138-148 | the new table is the old one with the challenge set to expire at now + 300000, then swept; the new entry is present and every entry is live |
| Challenges.ChallengeStore.Consume | src/app/api/auth/register/route.ts:74-82 | returns the bytes exactly when the id is present and not expired, and then deletes it; otherwise the table is unchanged |
| Challenges.ConsumeTwice | src/app/api/auth/register/route.ts:74-82 | a second consumption of the same id, at the same or a later time, is always refused |
| Register.ParseRegistration | src/app/api/auth/register/route.ts:9-36 | non-JSON is the only input that is not a schema error or a parse; whatever parses came from an object with a `type` key |
| Register.ParseEncoded | src/app/api/auth/register/route.ts:9-28 | every well-formed registration body is accepted as itself |
| Register.ParseSound | src/app/api/auth/register/route.ts:9-28 | whatever is accepted is well formed, and the body holds exactly its fields |
| Register.ShortPasswordRejected | src/app/api/auth/register/route.ts:12 | a password shorter than 8 UTF-16 code units fails validation |
| Register.InsertUserKeepsValid | src/lib/db/schema.ts:3-11 | an insert the users table allows keeps ids unique, e-mails unique and non-null, and credentials pointing at users |
| Register.InsertCredentialKeepsValid | src/lib/db/schema.ts:13-22 | an insert the credentials table allows keeps credential ids unique |
| Register.InsertUserNullableKeepsValid | src/lib/db/schema.ts:3-11 | corrected: with `email` nullable and unique where present, an allowed user insert keeps the table's constraints |
| Register.NullableEmailAdmitsPasskey | src/app/api/auth/register/route.ts:85-91 | corrected: the passkey user row without an e-mail is refused by the NOT NULL column but accepted by a nullable one whenever its id is new |
| Register.UserStore.InsertUser | src/app/api/auth/register/route.ts:55-62 | the user row is appended exactly when the table constraints allow it; otherwise nothing changes |
| Register.UserStore.InsertCredential | src/app/api/auth/register/route.ts:93-99 | the credential row is appended exactly when its id is new and its user exists |
| Register.Post | src/app/api/auth/register/route.ts:33-130 | the reply and the new challenge, user and credential tables are those of the POST specification for the old state and the body |
| Register.Get | src/app/api/auth/register/route.ts:132-161 | the table gains the challenge under the hex of the 16 id bytes, then is swept; the reply carries the challenge and its 32-character id |
| RegisterProperties.InvalidBodyRefused | src/app/api/auth/register/route.ts:111-128 | a body that fails the schema gets 400 "Invalid request data"; non-JSON gets 500; neither changes any table |
| RegisterProperties.DuplicateEmailRefused | src/app/api/auth/register/route.ts:40-49 | a password registration for a stored e-mail gets 400 "Email already registered" and changes nothing |
| RegisterProperties.PasswordRegistrationInserts | src/app/api/auth/register/route.ts:51-72 | a new e-mail inserts exactly one "password" user with the bcrypt hash at cost 10; the reply is 200 with its id and a session cookie for it |
| RegisterProperties.RegisteringTwiceFails | src/app/api/auth/register/route.ts:38-72 | registering the same e-mail twice refuses the second attempt and leaves one row for it |
| RegisterProperties.UnknownOrExpiredChallengeRefused | src/app/api/auth/register/route.ts:74-80 | a passkey registration with an unknown or expired challenge gets 400 and changes nothing |
| RegisterProperties.ChallengeDeletedBeforeInserts | src/app/api/auth/register/route.ts:82-99 | once the challenge check passes, the challenge is deleted whatever the inserts do |
| RegisterProperties.ReplayRefused | src/app/api/auth/register/route.ts:74-82 | replaying a consumed challenge id is refused at any later time |
| RegisterProperties.PasskeyRegistrationInserts | src/app/api/auth/register/route.ts:82-109 | with a live challenge and new ids, one "webauthn" user and one credential pointing at it are inserted, and the reply is 200 with a session cookie |
| RegisterProperties.PasskeyWithoutEmailFails | src/app/api/auth/register/route.ts:85-91 | without an e-mail the NOT NULL constraint makes the user insert fail: 500, with the challenge already gone |
| RegisterProperties.PostKeepsTablesValid | src/app/api/auth/register/route.ts:33-130 | every POST keeps the user and credential tables within their constraints |
| RegisterProperties.IssueThenRegister | src/app/api/auth/register/route.ts:74-161 | a challenge from GET lets a passkey registration through for five minutes |
| PathPattern.LiteralMatchesItself | src/proxy.ts:13 | a pattern without named groups matches exactly its own text |
| PathPattern.TrailingGroup | src/proxy.ts:14 | a literal prefix plus `:name` matches the prefix followed by one non-empty segment |
| RequestGate.FirstMatch | src/proxy.ts:29-42 | the index of the first matcher one of whose patterns accepts the path; none exactly when no matcher does |
| RequestGate.ProcessSession | src/proxy.ts:47-59 | throws exactly when there is neither an `x-user-id` header nor a non-empty session cookie; otherwise `x-user-id` is set and every other header is kept |
| RequestGate.RunHandler | src/proxy.ts:18-25 | forwards exactly when `processSession` returns headers, with those headers; as written, a missing session ends in a server error; corrected, in a redirect to the request's own origin |
| RequestGate.NextRedirect | src/proxy.ts:23 | `NextResponse.redirect` redirects exactly when the URL parses without a base, and fails otherwise |
| RequestGate.LoginPathRelative | src/proxy.ts:23 | "/auth/login" has no scheme, so it does not parse without a base |
| RequestGate.OriginKeepsScheme | src/proxy.ts:23 | a path resolved against an absolute origin stays absolute |
| RequestGate.Proxy | src/proxy.ts:29-45 | the nested first-match loop answers what the routing specification says |
| RequestGate.UnmatchedIsForwarded | src/proxy.ts:44 | a path no pattern accepts is forwarded unchanged |
| RequestGate.FirstMatchDecides | src/proxy.ts:30-42 | entries after the first matching one never change the answer |
| RequestGate.SimpleMatcherGates | src/proxy.ts:10-27 | the table runs the session handler exactly on paths one of its four patterns accepts |
| RequestGate.ExistingUserIdPassesThrough | src/proxy.ts:48 | an existing `x-user-id` header passes through unchanged, and cookies are not read |
| RequestGate.MissingCookieFails | src/proxy.ts:20-24 | as written: with no `x-user-id` and no non-empty session cookie, the redirect to the relative /auth/login throws, so the answer is a server error and not a redirect |
| RequestGate.GatedWithoutSessionFails | src/proxy.ts:10-27 | as written: GET /api/user without a session ends in a server error |
| RequestGate.MissingCookieRedirects | src/proxy.ts:20-24 | corrected: the handler redirects a request with no session to /auth/login on the request's own origin |
| RequestGate.AbsoluteGateNeverFails | src/proxy.ts:10-45 | corrected: every request is forwarded, with or without new headers, or redirected to the login page; never a server error |
| RequestGate.VerifiedCookieForwardsSubject | src/proxy.ts:53-58 | a verified cookie forwards with `x-user-id` = the subject, and every other header is kept |
| RequestGate.UnverifiedCookieForwardsEmptyId | src/proxy.ts:53-56 | a cookie that fails verification is forwarded with `x-user-id` = "", not redirected |
| RequestGate.GatedPaths | src/proxy.ts:12-17 | the gated paths are exactly /api/bank-accounts, /api/bank-accounts/ plus one segment, /api/user and /api/user/complete-registration |
| RequestGate.AccountPattern | src/proxy.ts:14 | the `:path` pattern matches exactly one non-empty segment below /api/bank-accounts/ |
| RequestGate.LiteralPattern | src/proxy.ts:13-16 | each literal pattern matches only its own path |
| RequestGate.LabelsNotGated | src/proxy.ts:12-17 | /api/labels is forwarded unchanged |
| MerchantForm.RefinementIssues | src/lib/zodForms.ts:17-33 | no issue with a truthy underlyingMerchantId; otherwise the look issue exactly when both color and pfpLocation are falsy, and the name issue exactly when name is falsy, in that order |
| MerchantForm.AcceptedIff | src/lib/zodForms.ts:18-31 | accepted exactly when built on a merchant, or when it has a name and a colour or a picture |
| MerchantForm.BothIssues | src/lib/zodForms.ts:19-31 | a new merchant with no name, colour or picture gets both issues |
| Merchants.LabelDtos | src/app/api/merchants/route.ts:48-53 | one label DTO per linked label, in order; [] when the relation is absent |
| Merchants.MapLabels | src/app/api/merchants/route.ts:49-53 | the label rows map one-to-one, in order, to their id, name and colour |
| Merchants.UserMerchantDto | src/app/api/merchants/route.ts:43-54 | name, pfpLocation and colour fall back from the user merchant, to its underlying merchant, to "Unknown Merchant" or absent |
| Merchants.GlobalDto | src/app/api/merchants/route.ts:55-61 | a global merchant keeps its fields and has no default labels |
| Merchants.ReferencedIds | src/app/api/merchants/route.ts:34-36 | the ids listed are exactly the non-null merchantIds of the user merchants |
| Merchants.Unreferenced | src/app/api/merchants/route.ts:38-40 | the kept global merchants are exactly those whose id is not referenced |
| Merchants.MapUserMerchants | src/app/api/merchants/route.ts:43-54 | one DTO per user merchant, in query order |
| Merchants.MapGlobals | src/app/api/merchants/route.ts:55-61 | one DTO per kept global merchant, in query order |
| Merchants.ListMerchants | src/app/api/merchants/route.ts:42-62 | all user merchants first, in order, then the unreferenced global merchants, in order |
| Merchants.ReferencedGlobalExcluded | src/app/api/merchants/route.ts:34-62 | no entry after the user merchants carries an id some user merchant references |
| Merchants.UnreferencedGlobalListed | src/app/api/merchants/route.ts:38-62 | a global merchant nobody references is listed after the user merchants |
| Merchants.NewLabelRows | src/app/api/merchants/route.ts:85-91 | one label row per new label, in order, numbered from the serial's next value |
| Merchants.Serials | src/app/api/merchants/route.ts:93-95 | the pushed ids are consecutive serial values, in insertion order |
| Merchants.LinkIds | src/app/api/merchants/route.ts:81-96 | `defaultLabelIds` is the requested ids followed by the new labels' ids, in order |
| Merchants.Links | src/app/api/merchants/route.ts:105-110 | one link row per collected id, in order, all to the new merchant |
| Merchants.Inserts | src/app/api/merchants/route.ts:83-111 | the transaction inserts the merchant, the links whatever their number, and the new labels exactly when `newDefaultLabels` is given |
| Merchants.EmptyInsertsFail | src/app/api/merchants/route.ts:84-110 | as written: some insert passes no rows exactly when `newDefaultLabels` is an empty array or there is no label to link |
| Merchants.NonEmptyInserts | src/app/api/merchants/route.ts:83-111 | keeps exactly the inserts that pass at least one row |
| Merchants.GuardedInserts | src/app/api/merchants/route.ts:83-111 | corrected: no insert is empty, the merchant is always inserted, and every non-empty insert of the written transaction is kept |
| Merchants.CollectLinkIds | src/app/api/merchants/route.ts:81-96 | the push loop leaves `defaultLabelIds` equal to the requested ids followed by the created labels' ids |
| Merchants.FreshLabelsKeepValid | src/app/api/merchants/route.ts:85-91 | rows numbered from the serial counter keep every label id below the advanced counter |
| Merchants.MerchantStore.Post | src/app/api/merchants/route.ts:74-121 | a rejected body, an insert without rows or a failed transaction gives 500 and changes nothing; otherwise 204, with the new labels, one user merchant and its links appended; the serial invariant is kept |
| Merchants.CreatedLabelsLinked | src/app/api/merchants/route.ts:84-96 | each inserted label is linked, in insertion order, after the requested ones |
| Merchants.NewIdsFresh | src/app/api/merchants/route.ts:85-91 | new label ids differ from every earlier label id |
| LabelsPicker.Without | src/app/home/transactions/new/labelsSelect.tsx:83-84 | the filter removes every label of that name and keeps every other one |
| LabelsPicker.WithoutConcat | src/app/home/transactions/new/labelsSelect.tsx:83-84 | the filter keeps order: it distributes over concatenation |
| LabelsPicker.Select | src/app/home/transactions/new/labelsSelect.tsx:74-80 | appends the label exactly when its name is new; distinct names stay distinct; the search is cleared |
| LabelsPicker.Remove | src/app/home/transactions/new/labelsSelect.tsx:82-85 | no label of that name remains in either list, and all others remain |
| LabelsPicker.Create | src/app/home/transactions/new/labelsSelect.tsx:65-72 | as written: a no-op for a blank search or when a name equals the untrimmed search; otherwise appends one label with id -length, the trimmed name and the selected colour, clears the search and picks a palette colour |
| LabelsPicker.CreateDuplicatesName | src/app/home/transactions/new/labelsSelect.tsx:66-67 | the search "food " next to a label "food" yields two labels named "food" |
| LabelsPicker.CreateChecked | src/app/home/transactions/new/labelsSelect.tsx:65-72 | corrected: the duplicate test uses the trimmed name, so distinct names stay distinct |
| LabelsPicker.Absent | src/app/home/transactions/new/labelsSelect.tsx:55-56 | keeps exactly the defaults whose name is not among the chosen labels |
| LabelsPicker.AbsentKeepsAll | src/app/home/transactions/new/labelsSelect.tsx:55-59 | a filter of equal length returns its input, so no default was chosen |
| LabelsPicker.AbsentDropsNothing | src/app/home/transactions/new/labelsSelect.tsx:55-59 | with no default chosen, the filter keeps them all |
| LabelsPicker.AbsentEmpty | src/app/home/transactions/new/labelsSelect.tsx:55-56 | with every default chosen, the filter keeps none |
| LabelsPicker.MergeDefaults | src/app/home/transactions/new/labelsSelect.tsx:54-63 | with no default chosen, nothing changes; otherwise the absent defaults follow the old labels, and every default name is then chosen |
| LabelsPicker.MergedNamesPresent | src/app/home/transactions/new/labelsSelect.tsx:55-61 | after the append, every default's name occurs in the labels |
| LabelsPicker.MergeSettles | src/app/home/transactions/new/labelsSelect.tsx:54-63 | as values, running the effect on its own result changes nothing; React compares by reference, so this alone does not stop it |
| LabelsPicker.MergeEffectGuarded | src/app/home/transactions/new/labelsSelect.tsx:54-63 | corrected: the state is the merged value, and a setter is called exactly when that value differs from the old one |
| LabelsPicker.EffectRuns | src/app/home/transactions/new/labelsSelect.tsx:54-63 | counts the effect runs React makes, each run that calls a setter scheduling another, up to a bound |
| LabelsPicker.MergeEffectNeverSettles | src/app/home/transactions/new/labelsSelect.tsx:54-63 | as written: every run hands a setter a new array, so from any state the effect re-runs without end |
| LabelsPicker.GuardedEffectSettles | src/app/home/transactions/new/labelsSelect.tsx:54-63 | corrected: React runs the effect at most twice |
| AmountInput.HandleAmountChange | src/app/home/transactions/new/amountSelect.tsx:22-32 | "+" gives income and "-" an expense, with that one character dropped; any other input is kept verbatim and leaves the flag alone |
| AmountInput.InputRecovered | src/app/home/transactions/new/amountSelect.tsx:22-32 | nothing typed is lost: the flag's sign plus the amount, or the amount alone, is the input |
| AmountInput.OneSignStripped | src/app/home/transactions/new/amountSelect.tsx:23-25 | "+-5" gives amount "-5", as income |
| AmountInput.UnsignedIsFixed | src/app/home/transactions/new/amountSelect.tsx:29-30 | an unsigned amount fed back in changes nothing |
| Sidebar.LocalPart | src/components/sidebar.tsx:51 | the local part is a prefix of the address and holds no "@" |
| Sidebar.EmailToName | src/components/sidebar.tsx:49-52 | "" for a missing or empty address; otherwise the local part with only its first "." turned into a space |
| Sidebar.NonEmpty | src/components/sidebar.tsx:56 | no more segments than given, none of them empty |
| Sidebar.NonEmptyMembers | src/components/sidebar.tsx:56 | the filter keeps exactly the non-empty segments |
| Sidebar.Initials | src/components/sidebar.tsx:56 | one initial per non-empty segment; an empty segment's `s[0]` is undefined and joins as nothing |
| Sidebar.InitialsAreFirstUnits | src/components/sidebar.tsx:56 | the k-th initial is the first UTF-16 code unit of the k-th non-empty segment |
| Sidebar.InitialsSkipEmpty | src/components/sidebar.tsx:56 | the initials of the segments are those of their non-empty segments |
| Sidebar.NonEmptyKeepsAll | src/components/sidebar.tsx:56 | segments that are all non-empty are kept as they are |
| Sidebar.InitialsAvoid | src/components/sidebar.tsx:56 | a character below the surrogate range that no segment holds never appears among the initials |
| Sidebar.EmailToInitials | src/components/sidebar.tsx:54-57 | nothing for a missing or empty address; otherwise the first code unit of each non-empty '.'-separated segment of the local part, in order; never a "." or "@" |
| Sidebar.InitialsInOrder | src/components/sidebar.tsx:56 | when no segment is empty, one initial per segment: its first code unit, in order |
| Sidebar.AstralInitialIsSurrogate | src/components/sidebar.tsx:56 | a segment starting with U+1F600 contributes only the lone high surrogate U+D83D |
| Wizard.Next | src/app/auth/register/page.tsx:28-32 | one step forward below the last step; a no-op on the last |
| Wizard.Back | src/app/auth/register/page.tsx:34-38 | one step back above step 0; a no-op at 0 |
| Wizard.RunStaysInRange | src/app/auth/register/page.tsx:15-38 | from a valid step, any sequence of presses stays within 0..3 |
| Wizard.NextThenBack | src/app/auth/register/page.tsx:28-38 | forward then back returns to the same step below the last |
| Wizard.Page.constructor | src/app/auth/register/page.tsx:15 | the wizard starts on step 0 |
| Wizard.Page.HandleNext | src/app/auth/register/page.tsx:28-32 | the step becomes Next of the old step and stays within 0..3 |
| Wizard.Page.HandleBack | src/app/auth/register/page.tsx:34-38 | the step becomes Back of the old step and stays within 0..3 |

## Left out

- I/O:
  - request parsing beyond the JSON shape the schemas inspect;
  - logging;
  - the fetch effects of the client components.
- The clock is a parameter and is read once per request. The source calls `Date.now()` separately at route.ts:75, 140 and 145.
- The label picker's `open` flag and popover are not modelled. Of React's rendering only the re-runs of the merge effect are modelled (`EffectRuns`). Reference identity is reduced to one rule: a setter handed a new array always counts as a change.
- The page.tsx:40-52 effect that jumps to step 2 after fetching the user is not modelled. It is a fetch effect.
- GET /api/auth/register's 500 path, where `randomBytes` throws, is not modelled.
- Infrastructure failures of the database are not modelled, except for the merchants transaction failure (`txFails`).
- Postgres serial counters advance even when a transaction rolls back. The model keeps them unchanged on a rollback.
- RequestGate.NextRedirect: only the scheme test of URL parsing is modelled, which is what decides "/auth/login". The rest of the URL parser is not modelled.
- `verifyJWT` is a parameter of the proxy. `Auth.VerifyJwt` gives its meaning; the proxy lemmas hold for any verifier.
- URLPattern matching is a parameter `test` of the proxy. `PathPattern` reads only literal characters and `:name` groups. The concrete path lemmas hold for that reading only.
- Header names are taken as already lower-case. Headers' case-insensitivity is not modelled.
- The challenge bytes stored by GET are never compared with the credential in POST. The model likewise only checks that the challenge exists and is live.
- HMAC, bcrypt and base64url are symbolic. Their algorithms, the key encoding, and jose's other claim checks (nbf, iat with maxTokenAge, crit) are not modelled.
- Zod's e-mail check is a parameter. Zod's `number()` accepts non-integers, which the model's `int` label ids do not.
- Merchants GET takes the query results as input. The database's ordering is unspecified; the model keeps the order it is given.
- `underlyingMerchantId` is validated by the merchant schema but never stored by POST, as in the source.
- Register.Get: requires 32 challenge bytes and 16 id bytes, which is what `randomBytes(32)` and `randomBytes(16)` always return.
- LabelsPicker.Create: `pick` stands for `Math.floor(Math.random() * 10)`. Its requires `pick < 10` is the range that expression always yields.
- Wizard.Page.HandleNext: requires the step to be in 0..3. The page never leaves that range, as `RunStaysInRange` shows.
- Wizard.Page.HandleBack: requires the step to be in 0..3, for the same reason.

## Findings

| source | as written | input that shows it | evidently intended | confidence | as-written member | corrected member |
|---|---|---|---|---|---|---|
| src/app/home/transactions/new/labelsSelect.tsx:66-67 | the duplicate test compares existing names with the untrimmed search, but the new label is named with the trimmed search | chosen labels [{name: "food"}] and search "food " | no second label named "food": test the trimmed name | not executed; follows from the code | LabelsPicker.CreateDuplicatesName | LabelsPicker.CreateChecked |
| src/lib/auth.ts:20-43 | the payload sets `exp: now + maxAge` (30 days), but `setExpirationTime("7d")` runs after the payload is copied in and replaces it with now + 7 days | a session cookie from day 0, sent on day 8: the browser still sends it, and `verifyJWT` returns null | the token expires with the cookie, after 30 days | not executed; relies on jose's SignJWT overwriting `exp` | Auth.CookieOutlivesToken | Auth.GetSessionCookieIntended |
| src/app/home/transactions/new/labelsSelect.tsx:54-63 | both branches of the effect hand a setter a new array, from `filter` or a spread, even when its elements are unchanged; React compares state and dependencies with `Object.is`, so every run re-renders and runs the effect again | the picker mounted with no labels and no merchant defaults: the first branch stores a new empty array, and the effect runs without end | call a setter only when the value changes | not executed; relies on React comparing by reference | LabelsPicker.MergeEffectNeverSettles | LabelsPicker.GuardedEffectSettles |
| src/proxy.ts:20-24 | with no session, the `catch` block calls `NextResponse.redirect('/auth/login')`; Next.js refuses the relative URL by throwing, so the proxy throws and the request ends in a server error | GET /api/user with no `session` cookie and no `x-user-id` header | a redirect to `new URL('/auth/login', req.url)` | not executed; relies on `NextResponse.redirect` checking its URL | RequestGate.MissingCookieFails | RequestGate.AbsoluteGateNeverFails |
| src/app/api/auth/register/route.ts:85-91 | the passkey schema makes `email` optional and the insert writes `data.email \|\| null`, but src/lib/db/schema.ts:5 declares the column NOT NULL; the challenge is deleted before the insert fails | a `webauthn` body without `email` and with a live challenge: 500 "Registration failed", and the challenge is gone | `email` nullable and unique where present, as the optional field implies | not executed; follows from the route and the table definition | RegisterProperties.PasskeyWithoutEmailFails | Register.NullableEmailAdmitsPasskey |
| src/app/api/merchants/route.ts:84-110 | the inserts are issued whatever the length of their arrays, and drizzle's `values([])` throws, which rolls the transaction back | the body `{name: "Cafe", color: "#fff"}` with no labels: 500 | skip an insert that has no rows | not executed; relies on drizzle refusing an empty `values` array | Merchants.EmptyInsertsFail | Merchants.GuardedInserts |

The models of the routes, the proxy and the picker keep the code as written, and each corrected member stands beside them:

- `Register.Post` and `RegisterProperties` issue the cookie as written. The corrected cookie differs only in the token's `exp`, and no registration property depends on it.
- `Register.Post` checks the NOT NULL e-mail. The nullable column is modelled at the table only.
- `Merchants.MerchantStore.Post` answers 500 when an insert has no rows.
- `RequestGate.SimpleMatcher` uses the handler as written. `RequestGate.SimpleMatcherAbsolute` uses the corrected one.
- The picker's effect as written is `LabelsPicker.MergeEffect`. The corrected one is `LabelsPicker.MergeEffectGuarded`.
