# A verified model of the OpenID Provider

The repository is a small OpenID Provider that lets Discord users of one guild
log in to registered clients. Its core is a protocol of four kinds of requests
(`/authorize`, the Discord callback, `/token`, the admin API) that run
concurrently over two Durable Objects, one for short-lived authorization
records and one for dynamic clients. This project models that core in Dafny and
proves what it keeps.

## How the model is laid out

| modules | what they model |
|---|---|
| `Basics`, `Text`, `Base64`, `Form`, `Params`, `OAuth`, `Encodings` | text as bytes, base64 (RFC 4648), UTF-8 (RFC 3629), form encoding, parameters |
| `Util`, `Pkce`, `Jwk` | entropy and tokens, S256, key sizes |
| `Client`, `ClientRecords`, `Registry`, `Resolver`, `Admin` | static and dynamic clients, secret rotation, the registry object and its client, the admin API |
| `Code`, `AuthorizationStore`, `Durable` | transactions and codes, the in-memory store, the storage object with its alarm |
| `Authorize`, `Callback`, `Token` | the three handlers, as written and cut at their awaits |
| `AuthorizeAnswers`, `CallbackAnswers`, `TokenAnswers` | every answer of a handler, and what it leaves in the store, under its exact condition on the raw request |
| `Protocol`, `Handlers`, `Failures` | all requests as one step system, the handlers as its undisturbed runs, and what a failed call does |
| `Provenance`, `SingleUse`, `NonInterference`, `Cutoff`, `Redirects`, `RotationRuns`, `RecordRuns`, `StaticSecrets`, `TokenRequest`, `Completeness`, `LoginQuery`, `StraightLogin`, `ExpiredRedirect` | what holds of every interleaved run |

In `Protocol` each request is a process that goes from await to await. Any
number of processes interleave with sweeps and admin changes; a storage call may
work, never arrive, or take effect and lose its answer; Discord and the signer
answer anything; every request carries its own clock reading and nothing relates
the readings of different requests. Each step adds one entry to a log and notes
when it sends a browser to a client's URI, and the theorems are about that log, those redirects
and the states a run passes through. No theorem
assumes that random draws differ or that SHA-256 has no collisions: the digest is
any function to 32 bytes, and single use is counted per hash.

Code that changes things in place is modelled in place: `InMemoryStore`,
`AuthorizationState`, `InMemoryClientRegistry`, `ClientRegistryState`,
`RecordCell` and `EntropySource` are classes, and the handlers are methods with
the branches of the source. Each is proved equal to a function of the old state,
and the properties are proved about those functions.

## Where the code surprises

- A code is deleted when it is consumed, before the token is signed, so a
  signer failure or a lost storage answer burns it. `SingleUse.CodesAreConserved`
  counts these cases. `docs/DESIGN.md:435` lists a `consumed_at` field; there is none.
- A client disabled between `/authorize` and the callback is promised no Discord
  exchange, no code and no redirect (`crates/oidc-core/src/callback.rs:56-60`).
  The first two hold. The third does not: an expired transaction is answered to
  its redirect URI before the client is looked at (lines 96-101).
  `ExpiredRedirect.DisabledClientIsRedirectedTo` is a run from the beginning in
  which that happens. It is the exact exemption:
  `Redirects.UnregisteredCallback` says that such a callback redirects if and
  only if its transaction has expired, and `Cutoff.NoRedirectAfterDisable` and
  `Redirects.RedirectsAreTraced` hold of every run with that one exception.
- Registration does not limit the length of a redirect URI (`validate_metadata`,
  `crates/oidc-core/src/registry.rs:130-159`; `validate_client`,
  `crates/oidc-core/src/client.rs:129-168`), and `/authorize` refuses one over
  2048 bytes (`crates/oidc-core/src/authorize.rs:23`). The two do not fit together:
  a client all of whose URIs are longer is registered, resolves, and can never be
  logged in to (`LoginQuery.LongUrisNeverProceed`). The exact condition is that
  one registered URI is within the limit (`LoginQuery.LoginPossibleExactly`), and
  then every client that resolves can be logged in to
  (`StraightLogin.EveryClientCanLogIn`).
- A failed admin request may have changed the registry: an insertion that takes
  effect and loses its answer is answered with status 500. `Admin.CreateClient`
  says exactly when.
- `/authorize` accepts challenges of 43 to 128 characters, but a challenge can be
  redeemed if and only if it has 43 characters and decodes
  (`Pkce.RedeemableExactly`); 44 times `A` is accepted and never verifies
  (`Pkce.AcceptedButUnredeemable`).
- The alarm bound on expired records depends on explicit sweeps being asked for
  with a time not behind the object's clock. That is the exact condition
  (`Durable.SweepBoundExact`): one sweep asked for an earlier time can leave a
  record in storage 120 s past its expiry (`Durable.StaleSweepBreaks`), and
  repeated ones can keep it there for ever (`Durable.StarvedRecordStays`).
  Nothing in the worker calls its `sweep_expired`
  (`crates/discord-oidc-worker/src/do_store.rs:134-147`), so today only the
  alarm sweeps.
- `alg` and `use` of an operator-supplied key are documented as enforced when
  present (`crates/oidc-core/src/jwk.rs:108-111`). They are when present as text;
  present as anything else they pass like absent ones (`Jwk.AlgEnforcedExactly`).
- The bound is `expires_at + 120` for records put before they expire; a record
  put already expired stays at most 120 s.

## Model

| member | source | states |
|---|---|---|
| Provenance.TokensAreFaithful | crates/oidc-core/src/callback.rs:94-213 | Every token of every interleaved run has its chain of earlier steps in order (request, stored, taken, resolved, Discord token, user, guild member with the same access token, code, client found, authentication, consumption), says what that one request asked for of a client that the registry resolved at `/authorize`, at the callback and at `/token`, carries a 43-character access token whose `at_hash` is the first half of its digest, and comes at most 658 s after the request with no assumption on clocks |
| Provenance.TokenHasTrail | crates/oidc-core/src/token.rs:200-297 | The chain itself: positions in the log and the data that must agree between them |
| Provenance.TokensGrantOpenid | crates/oidc-core/src/authorize.rs:201-220 | With a validated configuration every token grants `openid`, and exactly the requested scopes its client may have |
| Provenance.RunKeepsInv | crates/oidc-core/src/token.rs:141-160 | The invariant behind it survives any run: each log entry rests on an earlier one, each waiting request on what it has already logged, each stored record on the step that stored it |
| Provenance.CallbackStep | crates/oidc-core/src/callback.rs:61-221 | No callback step, whatever fault or upstream answer, breaks that invariant |
| Provenance.ExchangeStep | crates/oidc-core/src/token.rs:259-283 | Nor does consuming or signing |
| Provenance.AuthenticationStep | crates/oidc-core/src/token.rs:123-195 | A token request passes authentication only as a public client that resolves with method `none`, or as a confidential one that resolved with `client_secret_basic` in an earlier step and whose secret verifies |
| Provenance.RecordsAreCurrent | crates/oidc-core/src/resolver.rs:84-123 | The registry that a logged request, refusal, resolution or authentication saw is the registry of that moment of the run |
| Provenance.DiscordStateIsStored | crates/oidc-core/src/authorize.rs:368-372 | In every run a request sent on to Discord is sent with the state under which it has itself stored its transaction, and asks for consent exactly when its one `prompt` contains that word |
| SingleUse.CodesAreConserved | crates/oidc-core/src/store.rs:134-155 | In every run and for every hash: puts = issued + signer failures + lost answers + in flight + expired on use + swept + overwritten + live (single use of section 4.1.2 of RFC 6749) |
| SingleUse.TwoTokensTwoCodes | crates/oidc-core/src/token.rs:259-295 | Two tokens for one hash mean that two codes with that hash were stored |
| SingleUse.CodesPerTransaction | crates/oidc-core/src/store.rs:106-121 | Codes stored for a Discord state, plus callbacks holding it, plus the live transaction, never exceed the transactions stored under it |
| SingleUse.TwoCodesTwoTransactions | crates/oidc-core/src/callback.rs:94-113 | Two codes for one Discord state mean that two transactions were stored under it |
| NonInterference.CodeStepExact | crates/oidc-core/src/store.rs:134-173 | One step leaves a stored code as it is if and only if it is not a different put under its hash, a full match, or a use or sweep at or after expiry |
| NonInterference.CodeStaysExactly | crates/oidc-core/src/code.rs:101-129 | A code stays identical throughout a run if and only if no step of it is one of those, however many mismatched attempts it holds |
| NonInterference.LaterExchangeSucceeds | crates/oidc-core/src/store.rs:140-154 | After such a run the matching exchange still gets the code |
| NonInterference.TransactionStepExact | crates/oidc-core/src/store.rs:98-121 | The same exact condition for a stored transaction |
| Cutoff.DisableCutsOff | crates/oidc-core/src/token.rs:141-194 | While a dynamic client stays disabled, nobody who had not passed the last registry check resolves or authenticates, authorizes, contacts Discord, stores or removes a code, gets a token or is sent on to it by a callback, and `/authorize` sends nobody to it at all; the one exemption is the answer to an expired transaction |
| Cutoff.NoTokenAfterDisable | crates/oidc-core/src/callback.rs:119-141 | In a run from the start: whatever happens for the client after its disabling comes from a request already past the check at that moment |
| Cutoff.NoRedirectAfterDisable | crates/oidc-core/src/callback.rs:56-60 | In a run from the start no redirect for the client after its disabling comes from `/authorize`, and one from a callback comes from a request already past the check, or answers an expired transaction |
| Cutoff.DisabledDoesNotResolve | crates/oidc-core/src/resolver.rs:84-123 | A disabled client neither resolves nor authenticates |
| Redirects.RedirectsAreTraced | crates/oidc-core/src/callback.rs:94-213 | Every redirect to a client in every run: one of a callback goes to the redirect URI of a transaction whose request proceeded with that URI registered, with that request's own `state`, with a code only if this callback has stored it, and, unless the transaction had expired when taken, the client resolved again in this callback with the URI still registered; an error redirect of `/authorize` goes to the requested URI, registered to the client that this request resolved, with the request's state and the code of its fault |
| Redirects.UnregisteredCallback | crates/oidc-core/src/callback.rs:94-141 | A callback whose client or redirect URI is no longer registered stores nothing and redirects if and only if its transaction has expired |
| ExpiredRedirect.DisabledClientIsRedirectedTo | crates/oidc-core/src/callback.rs:96-101 | A run from the beginning, for every public client the admin API can create with a URI short enough: created, asked for, disabled, called back 600 s later, and the one redirect of the run goes to the disabled client, against the promise of lines 56-60 |
| Redirects.RedirectsAreLogged | crates/oidc-core/src/callback.rs:20-32 | No step that answers with a redirect to a client goes unnoticed in the model |
| Completeness.HonestLoginSucceeds | crates/oidc-core/src/authorize.rs:142-304 | From any reachable state with a proceeding request and in any interleaving: a callback within 600 s with the state that `/authorize` answered, a token request within 60 s of it, a client good whenever it is looked at and own records undisturbed give a redirect with the code and the request's own `state`, and a token with its nonce, granted scope, client and user, and a matching `at_hash` |
| Completeness.PrintedLoginSucceeds | crates/oidc-core/src/token.rs:215-252 | The same with the query Discord prints and the body and header a client prints: every length and format guard on the way is proved to let them pass |
| StraightLogin.StraightLoginSucceeds | crates/oidc-core/src/token.rs:200-297 | After any admin history, for every client that resolves (static or dynamic, public or confidential) and every request of it that proceeds, the run without interleaving ends with such a token |
| StraightLogin.EveryClientCanLogIn | crates/oidc-core/src/authorize.rs:142-304 | The assumptions can be met: after any admin history, every client that resolves gets a token over each of its redirect URIs of at most 2048 bytes, with any credentials that verify, by the printed query, callback, body and header |
| StraightLogin.CreatedClientCanLogIn | crates/oidc-core/src/admin.rs:165-215 | In particular a confidential client just created, with the secret it was created with |
| LoginQuery.LoginPossibleExactly | crates/oidc-core/src/authorize.rs:142-304 | Some query of at most 8192 bytes lets a client proceed if and only if one of its registered URIs has at most 2048 bytes |
| LoginQuery.LongUrisNeverProceed | crates/oidc-core/src/registry.rs:130-159 | Every client that the admin API accepts with longer URIs only resolves, and no request of it proceeds |
| LoginQuery.LongUriIsRegistered | crates/oidc-core/src/registry.rs:130-159 | Such a client is accepted whenever the URI rule accepts one long URI |
| LoginQuery.QueryFits | crates/oidc-core/src/authorize.rs:21-23 | The query of a client with id and URI at their limits, fully percent-encoded, is within 8192 bytes and is read back |
| Completeness.CallbackSucceeds | crates/oidc-core/src/callback.rs:87-213 | The callback half: the code is stored and sent to the registered redirect URI |
| Completeness.PrintedQueryCarriesCode | crates/oidc-core/src/callback.rs:75-92 | The query Discord redirects with is read as state, code and no error |
| TokenRequest.BodyFits | crates/oidc-core/src/token.rs:215-252 | The limits fit together: a body with code, redirect URI, verifier and id at their limits, fully percent-encoded, is within 8192 bytes |
| TokenRequest.ConformingBodyAsks | crates/oidc-core/tests/support/mod.rs:267-286 | The body a client builds is read back with each value exactly once, for every UTF-8 redirect URI and id |
| TokenRequest.ConformingHeaderShows | crates/oidc-core/tests/support/mod.rs:258-265 | The header a client builds decodes to its id and secret |
| TokenRequest.RequestIsRead | crates/oidc-core/src/token.rs:215-252 | With such a body and header a request passes every check before the first registry read |
| Handlers.AuthorizeAlone | crates/oidc-core/src/authorize.rs:319-375 | The `/authorize` process run without interleaving and faults ends as the handler does |
| Handlers.CallbackAlone | crates/oidc-core/src/callback.rs:61-221 | Likewise the callback |
| Handlers.TokenAlone | crates/oidc-core/src/token.rs:200-297 | Likewise `/token` |
| Durable.StoreRefinement | crates/discord-oidc-worker/src/durable.rs:122-186 | For every sequence of operations the one prefixed map answers as the two-map store, sweep counts included, and then stands for the records of that store and for no others |
| Durable.ServedRefines | crates/discord-oidc-worker/src/durable.rs:122-186 | One event of the object is one operation of the store |
| Durable.KeysDistinct | crates/discord-oidc-worker/src/durable.rs:19-28 | `tx:` and `code:` keys are injective and never meet |
| Durable.SweepCountsAgree | crates/discord-oidc-worker/src/durable.rs:79-106 | Counting expired keys gives the sum of expired transactions and codes |
| Durable.AuthorizationState.CollectExpired | crates/discord-oidc-worker/src/durable.rs:79-106 | The loop finds exactly the expired keys, each once, and counts the others |
| Durable.AuthorizationState.RunSweep | crates/discord-oidc-worker/src/durable.rs:79-106 | A sweep removes exactly the expired entries, counts them, and re-arms when any remain |
| Durable.AuthorizationState.Fetch | crates/discord-oidc-worker/src/durable.rs:122-186 | The request handler does to storage and alarm what the specification says |
| Durable.AuthorizationState.EnsureAlarm | crates/discord-oidc-worker/src/durable.rs:109-114 | A put arms the alarm only when none is pending |
| Durable.AuthorizationState.Alarm | crates/discord-oidc-worker/src/durable.rs:189-193 | The alarm sweeps at its own time |
| Durable.RunIsTimely | crates/discord-oidc-worker/src/durable.rs:79-114 | In every timed run with punctual sweeps a non-empty object has an alarm at most 120 s away and no later than any record's deadline |
| Durable.NoOverstay | crates/discord-oidc-worker/src/durable.rs:189-193 | So no record is in storage at `expires_at + 120` unless it was put already expired |
| Durable.StaleSweepBreaks | crates/discord-oidc-worker/src/durable.rs:79-106 | For every earlier time there is a run from the empty object, with that one stale sweep, after which a code put 60 s before its expiry is stored 120 s after it |
| Durable.SweepBoundExact | crates/discord-oidc-worker/src/durable.rs:79-114 | A sweep at `clock` asked for `now` can never lead to an overstay if and only if `now >= clock` |
| Durable.StarvedRecordStays | crates/discord-oidc-worker/src/durable.rs:79-106 | Repeated stale sweeps keep one expired record in storage for any number of rounds |
| Durable.AlarmHasCause | crates/discord-oidc-worker/src/durable.rs:79-114 | In every run a pending alarm is due exactly 120 s after the last event with a reason to set it: a put with none pending, or a sweep that left something |
| Durable.IdleObjectSleeps | crates/discord-oidc-worker/src/durable.rs:79-106 | An alarm that finds everything expired leaves the object empty with no alarm |
| AuthorizationStore.ConsumeExact | crates/oidc-core/src/store.rs:134-155 | Consumption succeeds exactly on a full match in time; the code is removed exactly on that or expiry; everything else is untouched |
| AuthorizationStore.InMemoryStore.Take | crates/oidc-core/src/store.rs:106-121 | Removes the transaction whether live or expired and says which |
| AuthorizationStore.InMemoryStore.Consume | crates/oidc-core/src/store.rs:134-155 | The in-place consume is that specification |
| AuthorizationStore.InMemoryStore.SweepExpired | crates/oidc-core/src/store.rs:157-173 | Both retain passes: what is kept and how many went |
| AuthorizationStore.Retain | crates/oidc-core/src/store.rs:157-173 | `retain` with a counter, in any iteration order |
| Authorize.VerdictExact | crates/oidc-core/src/authorize.rs:142-304 | Authorization proceeds if and only if a predicate on the raw parameter list holds; an error redirect goes only to a URI registered to the client |
| Authorize.UnknownParametersIgnored | crates/oidc-core/src/authorize.rs:31-42 | Parameters outside the known names never change the verdict |
| Authorize.GrantedExact | crates/oidc-core/src/authorize.rs:201-220 | The grant is exactly requested and allowed, without duplicates, in order of first request |
| Authorize.GrantResplits | crates/oidc-core/src/authorize.rs:201-220 | The granted scope string splits back into the grant |
| Authorize.Validate | crates/oidc-core/src/authorize.rs:142-304 | The branch chain over the collected parameters gives that verdict |
| Authorize.CheckKnownParameters | crates/oidc-core/src/authorize.rs:176-188 | The loop over known names finds a repetition or an over-long value if there is one |
| Authorize.HandleAuthorize | crates/oidc-core/src/authorize.rs:319-375 | Response, stored transaction and entropy used, in every branch |
| AuthorizeAnswers.AuthorizeExact | crates/oidc-core/src/authorize.rs:319-375 | What a request that reaches a client is answered and what it stores, from the raw query: it is sent to Discord with the second drawn token, and a transaction with its own parameters is stored under it, or its fault goes to the requested URI with its own `state` |
| AuthorizeAnswers.UnreachedIsRefused | crates/oidc-core/src/authorize.rs:142-174 | Every other request gets the error page and changes nothing |
| AuthorizeAnswers.FaultExact | crates/oidc-core/src/authorize.rs:176-304 | Each error code is reported exactly under its own condition on the raw parameter list, earlier faults hiding later ones, and none exactly if the list is in order |
| Encodings.NumbersParse | crates/oidc-core/src/authorize.rs:284-293 | A printed number is an accepted `max_age` exactly below 2^64 |
| Callback.ReadParameters | crates/oidc-core/src/callback.rs:75-85 | The loop keeps the first value of each parameter |
| Callback.HandleCallback | crates/oidc-core/src/callback.rs:61-221 | Response, store and entropy used, in every branch |
| Callback.FinishCallback | crates/oidc-core/src/callback.rs:143-213 | The Discord calls and the code put |
| CallbackAnswers.CallbackExact | crates/oidc-core/src/callback.rs:87-221 | The answer to every callback for a stored transaction, from its first `code` and `error`, the registry and what Discord says to that code and its access token about the configured guild; the transaction is gone, and a code is stored exactly when one is sent, for that user and under the digest of its plaintext |
| CallbackAnswers.UnknownIsNotFound | crates/oidc-core/src/callback.rs:87-112 | Every other callback gets the error page and changes nothing |
| CallbackAnswers.SanitizeExact | crates/oidc-core/src/callback.rs:43-51 | Of Discord's errors exactly three names are passed on as they are, and all others as `access_denied` |
| Token.AuthenticateClient | crates/oidc-core/src/token.rs:123-195 | Which client, if any, the header and body authenticate |
| Token.AuthenticateBasic | crates/oidc-core/src/token.rs:123-168 | The HTTP Basic branch |
| Token.HandleToken | crates/oidc-core/src/token.rs:200-297 | Response and store in every branch, the code gone before signing; a token is the next 32 random bytes, and the left half of its digest is the `at_hash` |
| TokenAnswers.TokenExact | crates/oidc-core/src/token.rs:200-297 | Every answer under its exact condition on the raw body and header: malformed, other grant type, not authenticated (a body `client_id` that differs from the header's included), incomplete, not matching, signer failure, token; and exactly which code goes |
| Failures.FailedCall | crates/oidc-core/src/callback.rs:109-136 | A request whose storage or registry call fails ends in a server error, and leaves the store as it was or, if only the answer was lost, as if the call had worked |
| Failures.NoCallNoFailure | crates/oidc-core/src/resolver.rs:84-123 | No other step can fail that way; a request never calls out to find a static client |
| Failures.FailedSigner | crates/oidc-core/src/token.rs:280-283 | A signer that fails is answered as a server error, with the code gone |
| Params.Collect | crates/oidc-core/src/token.rs:75-83 | The map-filling loop collects all values of each name in order |
| Params.SingleAt | crates/oidc-core/src/token.rs:86-92 | Without repetition a pair's value is what its name looks up |
| Form.BasicRoundTrip | crates/oidc-core/src/token.rs:96-111 | For all UTF-8 ids and secrets the encoded header decodes to exactly the pair (section 2.3.1 of RFC 6749) |
| Form.FormRoundTrip | crates/oidc-core/tests/support/mod.rs:267-286 | Parsing an encoded body gives its pairs back |
| Encodings.BasicExact | crates/oidc-core/src/token.rs:96-111 | A header is read as an id and a secret exactly if it is the scheme and the padded base64 of two parts, the first up to the first colon, that decode to them |
| Encodings.AnySpellingDecodes | crates/oidc-core/src/token.rs:106-111 | Whichever escapes are chosen, of either case, form text is read as meant |
| Encodings.HexExact | crates/oidc-core/src/token.rs:106-111 | The hex digits of an escape, in order and of either case |
| Encodings.StrayPercent | crates/oidc-core/src/token.rs:106-111 | A percent sign that no two hex digits follow stands for itself |
| Encodings.PairExact | crates/oidc-core/src/token.rs:75-83 | A segment is split at its first equals sign, or has the empty value |
| Encodings.CharactersExact | crates/oidc-core/src/authorize.rs:201-220 | Which ASCII characters are space, and which are digits |
| Encodings.FormSegments | crates/oidc-core/src/token.rs:75-83 | A form is its non-empty segments between ampersands, each read as one pair |
| Encodings.EncodedIsUtf8 | crates/oidc-core/src/token.rs:101-111 | The UTF-8 of any scalar values (RFC 3629) is accepted |
| Encodings.Utf8IsEncoded | crates/oidc-core/src/token.rs:101-111 | And only that: no overlong form, surrogate or truncated sequence |
| Encodings.WordsExact | crates/oidc-core/src/authorize.rs:201-220 | The words of a scope or prompt are its longest runs without space |
| Encodings.TrimExact | crates/oidc-core/src/registry.rs:135-139 | Trimming cuts off all the space around a text and nothing else |
| Base64.DecodeEncode | crates/oidc-core/src/util.rs:33-41 | Decoding undoes encoding, with exact length and alphabet (section 5 of RFC 4648) |
| Base64.EncodeDecode | crates/oidc-core/src/util.rs:38-41 | Decoding accepts only what encoding writes |
| Base64.AlphabetOrder | crates/oidc-core/src/util.rs:33-41 | Both alphabets are those of tables 1 and 2 of RFC 4648, in order |
| Base64.GroupBits | crates/oidc-core/src/util.rs:33-41 | Each group of three bytes is the same 24-bit number as its four characters |
| Base64.TailBits | crates/oidc-core/src/util.rs:33-41 | The last one or two bytes are theirs, followed by zero bits |
| Base64.StandardRoundTrip | crates/oidc-core/src/token.rs:99-100 | The padded standard alphabet as well |
| Base64.StandardDecodeExact | crates/oidc-core/src/token.rs:99-100 | Padded text decodes only if it is what encoding writes, padding included |
| Util.TokenShape | crates/oidc-core/src/util.rs:28-48 | Tokens and hashes are 43 URL-safe characters that determine their 32 bytes |
| Util.HashExact | crates/oidc-core/src/util.rs:28-31 | A hash decodes to the digest, so two texts have one hash exactly when they have one digest |
| Util.RandomToken | crates/oidc-core/src/util.rs:44-48 | Fills and encodes the next 32 bytes of the stream |
| Pkce.VerifyIsDecodeEquality | crates/oidc-core/src/pkce.rs:31-37 | S256 verification accepts exactly the challenges that decode to the digest of a valid verifier (section 4.6 of RFC 7636) |
| Pkce.FormsExact | crates/oidc-core/src/pkce.rs:11-29 | Which verifiers (section 4.1 of RFC 7636) and challenges are well formed |
| Pkce.ChallengeOfVerifier | crates/oidc-core/src/pkce.rs:17-37 | Every valid verifier has an accepted 43-character challenge that verifies |
| Pkce.UnredeemableChallenge | crates/oidc-core/src/pkce.rs:23-37 | Accepted challenges that are longer, or decode to nothing, never verify |
| Pkce.RedeemableChallenge | crates/oidc-core/src/pkce.rs:23-37 | All others do, for some digest function |
| Pkce.RedeemableExactly | crates/oidc-core/src/pkce.rs:23-37 | Some verifier verifies a challenge under some digest function if and only if it has 43 characters and decodes |
| Pkce.AcceptedButUnredeemable | crates/oidc-core/src/pkce.rs:23-37 | 44 times `A` is an accepted challenge that no verifier matches |
| Jwk.UintBitsExact | crates/oidc-core/src/jwk.rs:77-85 | The bit length is k if and only if the decoded value N satisfies 2^(k-1) <= N < 2^k, for any number of leading zero bytes; none if and only if invalid or zero |
| Jwk.AcceptedKeysAreStrong | crates/oidc-core/src/jwk.rs:112-153 | An accepted key has a modulus of at least 2^2047 |
| Jwk.AcceptedExactly | crates/oidc-core/src/jwk.rs:112-153 | A key is accepted exactly if it is public, its numbers and fields are in order, and then as it says |
| Jwk.RejectedExactly | crates/oidc-core/src/jwk.rs:112-153 | Each reason of refusal holds exactly under its own condition |
| Jwk.AlgEnforcedExactly | crates/oidc-core/src/jwk.rs:133-140 | `alg` and `use` of an acceptable key are enforced exactly when they are text |
| Jwk.WeakKeysAreShort | crates/oidc-core/src/jwk.rs:127-133 | A key refused as weak has a smaller one |
| Jwk.LoadKeys | crates/oidc-core/src/config.rs:152-173 | The loop, for any key validation: it succeeds if and only if every key is valid and all key ids, the signing key's included, are distinct; otherwise it reports the fault of the first key that is not |
| Jwk.LoadAdditionalKeys | crates/oidc-core/src/config.rs:152-173 | The same with the validation of public keys |
| Client.BuildRegistry | crates/oidc-core/src/client.rs:175-235 | Succeeds if and only if the declarative conditions hold: valid clients, distinct ids, secrets of 16 bytes or more for exactly the confidential ones; otherwise it reports the first fault |
| Client.ValidateClient | crates/oidc-core/src/client.rs:129-168 | No fault if and only if the client is valid, and otherwise the first in source order |
| Client.FindIsLookup | crates/oidc-core/src/client.rs:63-65 | With distinct ids the linear search finds each client under its id |
| Client.SecretsAreForConfidential | crates/oidc-core/src/client.rs:195-235 | A configured secret belongs to a confidential client |
| StaticSecrets.StaticSecretExact | crates/oidc-core/src/resolver.rs:110-113 | A static id verifies a secret exactly if it is the text of the last configured pair under that id |
| StaticSecrets.OneTextEach | crates/oidc-core/src/config.rs:192 | There is exactly one such text for a confidential client, and none for a public one |
| StaticSecrets.StaticSecretsOfRuns | crates/oidc-core/src/resolver.rs:104-123 | In every interleaved run a static client authenticates by secret only with that text |
| StaticSecrets.TokensOfStaticClients | crates/oidc-core/src/token.rs:123-195 | So every token of a static confidential client was asked for with it |
| StaticSecrets.SecretDecides | crates/oidc-core/src/token.rs:157-168 | A request with any other text is answered 401, one with that text goes on |
| ClientRecords.SecretHistory | crates/oidc-core/src/registry.rs:294-328 | After any history a secret verifies if and only if the client is active and confidential and its hash is the last of the full rotation log, or the one before it within 600 s of the last rotation |
| ClientRecords.FewSecrets | crates/oidc-core/src/registry.rs:308-328 | At most two hashes are accepted at a time, one after the overlap |
| RotationRuns.SecretsOfRuns | crates/oidc-core/src/resolver.rs:104-123 | In every interleaved run a dynamic client authenticates by secret only with one whose hash the rotation log of the admin steps before that moment accepts, and only while active |
| RotationRuns.TokensFollowRotation | crates/oidc-core/src/token.rs:123-195 | So every token of a confidential dynamic client was asked for with its newest secret, or with the one before it less than 600 s after the newest was set |
| RotationRuns.SecretsFollowHistory | crates/oidc-core/src/registry.rs:294-328 | For every admin history the secret check is the rule over the client's full rotation log |
| RotationRuns.FewSecretsAtOnce | crates/oidc-core/src/registry.rs:308-328 | Of any three secrets a client can authenticate with at a moment, two have the same hash |
| ClientRecords.RunSummary | crates/oidc-core/src/registry.rs:264-304 | The three secret fields and the status summarize the whole log without loss |
| ClientRecords.ApplyKeepsRecord | crates/oidc-core/src/registry.rs:264-304 | Every transition keeps the record in order and its identity unchanged |
| ClientRecords.MetadataOfHistory | crates/oidc-core/src/registry.rs:264-269 | After any history the metadata is that of the last update, or of the creation: status changes and rotations leave it alone |
| ClientRecords.UpdatedAtOfHistory | crates/oidc-core/src/registry.rs:264-304 | `updated_at` is the time of the last operation that changed anything |
| ClientRecords.DisabledAtOfHistory | crates/oidc-core/src/registry.rs:273-290 | `disabled_at` is the time of the operation that disabled the client for good until now |
| RecordRuns.ResolutionFollowsHistory | crates/oidc-core/src/resolver.rs:84-101 | After any admin history a dynamic id resolves exactly while its client is active, with the redirect URIs of the last update |
| RecordRuns.RedirectUrisFollowUpdates | crates/oidc-core/src/callback.rs:119-141 | In every interleaved run a dynamic client is authorized, refused and called back only on a redirect URI it was given last, and only while active |
| RecordRuns.RemovedUriIsUnused | crates/oidc-core/src/registry.rs:264-269 | So a URI that the last update left out is used no more |
| ClientRecords.RecordCell.RotateSecret | crates/oidc-core/src/registry.rs:294-304 | The in-place rotation is that transition |
| ClientRecords.ValidateMetadata | crates/oidc-core/src/registry.rs:130-159 | Valid metadata is accepted trimmed; everything else is refused with the first fault in source order, down to the first bad redirect URI |
| ClientRecords.GeneratedIdIsDynamic | crates/oidc-core/src/registry.rs:174-196 | Sixteen random bytes give an id that passes the data plane's format guard and determines them |
| ClientRecords.DynamicIdExact | crates/oidc-core/src/registry.rs:188-196 | The guard accepts exactly `oji_` and 22 URL-safe characters |
| Resolver.ReachableRegistry | crates/oidc-core/src/registry.rs:221-304 | Every registry reachable by permitted admin operations is in order: keys, ids, policies, secret fields, disabled times, redirect URIs |
| Resolver.AdministeredKeeps | crates/oidc-core/src/admin.rs:152-163 | One operation keeps that, removes no record, changes no identity and leaves static clients as they were |
| Resolver.AdministeredTouchesOne | crates/oidc-core/src/registry.rs:435-490 | An operation touches no other client, and an insertion under a taken id nothing |
| Resolver.ReachableTimes | crates/oidc-core/src/registry.rs:264-304 | Under a clock that does not run backwards: created <= disabled <= updated <= now |
| Resolver.NoShadowing | crates/oidc-core/src/resolver.rs:84-101 | Every active dynamic record is what its id resolves to, and every other id resolves statically |
| Resolver.SecretsVerifyOnlyForConfidential | crates/oidc-core/src/resolver.rs:104-123 | A secret verifies only for a client that resolves and is confidential, static or dynamic |
| Resolver.ResolvedClient | crates/oidc-core/src/resolver.rs:84-101 | What every resolved client satisfies |
| Registry.RegistryRefinement | crates/discord-oidc-worker/src/registry_client.rs:61-185 | For every sequence of operations, each with its own transport fault, the client and object pair answers as the in-memory registry, list order included, and ends with the same records |
| Registry.RemoteIsReference | crates/discord-oidc-worker/src/durable.rs:313-386 | One call through printed path, dispatch and reply is one operation |
| Registry.PathRoundTrip | crates/discord-oidc-worker/src/durable.rs:313-386 | A printed path parses to exactly the id and action it was made from |
| Registry.ListingUnique | crates/discord-oidc-worker/src/durable.rs:267-285 | The sorted listing is unique, so both sides list the same |
| Registry.LessExact | crates/oidc-core/src/registry.rs:431-433 | The order of listings is decided at the first differing byte, a prefix first |
| Registry.ClientRegistryState.List | crates/discord-oidc-worker/src/durable.rs:267-285 | The object's list is that listing of its prefixed keys, whatever other keys there are |
| Registry.ClientRegistryState.Mutate | crates/discord-oidc-worker/src/durable.rs:289-305 | Read, modify, write changes one record |
| Registry.ClientRegistryState.Fetch | crates/discord-oidc-worker/src/durable.rs:313-386 | The dispatch does what the specification of the object says |
| Registry.RegistryClient.Call | crates/discord-oidc-worker/src/registry_client.rs:33-185 | A call sends the printed request and reads the reply; it is a storage error exactly without a binding, on an unexpected reply, or when the request or its answer is lost, and in the last case it has taken effect |
| Registry.Ask | crates/oidc-core/src/registry.rs:423-490 | The registry as the handlers see it: the reference behind a call that may fail |
| Registry.InMemoryClientRegistry.List | crates/oidc-core/src/registry.rs:431-433 | All records, each once, by ascending id |
| Registry.InMemoryClientRegistry.RotateSecret | crates/oidc-core/src/registry.rs:475-490 | Rotates, or says that the client is unknown or has no secret |
| Admin.CreateClient | crates/oidc-core/src/admin.rs:165-215 | A 201 is answered exactly when the body is valid and an insertion is confirmed; it adds one record under the first drawn id that is neither static nor taken, of the body's type and metadata, active, created at that time, which then resolves with the body's redirect URIs; a confidential one has the hash of the token drawn first, which is returned and verifies. Any other answer leaves the registry unchanged if and only if no insertion under a free id lost its answer |
| Admin.InsertFresh | crates/oidc-core/src/admin.rs:184-214 | The retry loop, with a fault of its own for each attempt |
| Admin.UpdateClient | crates/oidc-core/src/admin.rs:260-295 | Exactly when it changes the registry and what it answers, storage errors included; a valid body that arrives replaces the metadata of the client and nothing else, and an active client then resolves with exactly the body's redirect URIs |
| Admin.SetStatus | crates/oidc-core/src/admin.rs:297-320 | Unless the request is lost the record ends in the requested status, otherwise as it was, and resolves exactly if that is active; a storage error is answered exactly when the call fails |
| Admin.RotateSecret | crates/oidc-core/src/admin.rs:322-351 | Afterwards exactly two secrets verify, the returned one at once and the old one for 600 s more, and nothing else of the record has changed; which error is answered in every other case |
| Admin.RouteExact | crates/oidc-core/src/admin.rs:372-409 | A path is the collection exactly if it is the root, a client exactly if it is the root, slashes and a plain id, an action exactly with one of the three names after that |
| Admin.HandleAdminRequest | crates/oidc-core/src/admin.rs:361-410 | Every route and verb is served exactly as its operation is, everything else is 404 or 405, a change of a static id 409; whatever happens to the registry calls, at most one permitted operation happens and the registry stays in order |

## Left out

- Integer width: times are unbounded integers; an `i64` overflow near the end of its range is not modelled.
- Digest, signature and comparison internals: SHA-256 is any function to 32 bytes, signing is a step that succeeds or fails, and comparison is equality.
- The `url` crate: whether a redirect URI is valid is an arbitrary predicate (the completeness theorems assume that it refuses the empty text), and a redirect is modelled as its URI and parameters, not as printed text.
- JSON, serde and HTTP headers: bodies and replies are decoded values; key objects are maps from names to values.
- Error descriptions, HTML pages, the discovery and JWKS documents, and log hygiene.
- The admin bearer check and the body length limit of the admin API: one branch each.
- The worker's routing, memoized runtime, Discord client and WebCrypto signer: their answers are inputs of the steps.
- Unicode: whitespace is the ASCII set, in trimming display names and splitting scopes; what lossy decoding writes for malformed UTF-8 is left open.
- Storage failures inside one object event: an event either happens whole or not at all. That it may be lost, or its answer, is modelled.
- Batches of deletes: the storage of the object deletes expired keys in one assignment instead of batches.
- Entropy shared between requests: in `Protocol` each step draws arbitrary bytes, which includes whatever one shared stream gives; the handlers run alone draw from one stream.
- The remaining fields of the configuration: issuer syntax, required fields and the ID Token lifetime range.
- Durable.RunIsTimely: alarms are taken to fire at their time; a late platform alarm lengthens the bound by its delay.
