# nginx-auth-webauthn: a verified model

This project models three cooperating parts of nginx-auth-webauthn in Dafny 4.11
and proves properties of them.

**The login protocol over shared Redis.** Any number of nginx nodes and admin
tools share one Redis. Every handler is a sequence of single Redis commands
which interleave freely with those of the others; a command may be answered,
may take effect and lose its reply, or may not happen. `Protocol.dfy` is that
state machine, `Log.dfy` the history it leaves, and `Traces.dfy` holds the
theorems about all its runs: challenge conservation and single use, provenance
of every request the gate admits, revocation under races, the order of sign
counters, and the client quota. `Handlers.dfy` and `Login.dfy` are the handlers
themselves, as imperative code against a Redis connection (`Redis.dfy`) with
one flat key space. Before each of their commands other processes do whatever
they like (`Handlers.OthersAct` promises nothing else), and each command is
proved to be a step of the protocol on the four stores (`Stores.dfy`) that the
key space represents (`KeySpace.dfy`). `Schedule.dfy` puts the two together: a
handler's turns are its process's steps in a run, so that what holds of all
runs holds of these handlers. `Credential.dfy`, `RateLimit.dfy`, `Index.dfy`,
`Assertion.dfy`, `ClientData.dfy` and `Gate.dfy` are the decisions in between.

**The codecs.** base64url, JSON escaping and the formatted responses, decimal
integers, authenticatorData, the CBOR encoder with a decoder for RFC 8949, COSE
keys and attestation objects. What the module writes for others is read back by
readers that know nothing of how it was written (`Responses.dfy`, `Cookie.dfy`),
and what it reads from others is printed for it by the test tool (`Tool.dfy`) and
by a printer for all of CBOR (`CborPrinter.dfy`).

**The malloc-backed pool** of the admin tool: two linked lists over a heap.

## How to read it

`dafny verify dfyconfig.toml` checks everything. Conventions:

- Text is `string`, one char per octet; the statements hold for every char.
  Binary data is `bytes`. Offsets are naturals, so that a method verifies means
  that no offset underflows and no index leaves its buffer. Buffers of fixed
  size are `Buffer`, which refuses to be written past its end: a formatter that
  verifies has an output that fits for every input.
- Machine arithmetic is written out: the base64url accumulator is a 32-bit word
  that wraps (`ngx_compat.c:339` leaves signed overflow undefined), the decimal
  accumulator is a 64-bit word that must not overflow, casts to `int64_t` and
  `int` are two's complement, and `-(int64_t) acc` at magnitude 2^63
  (`ngx_auth_webauthn_credential.c:126`) yields -2^63.
- What is not up to the program is a parameter: what becomes of the n-th
  exchange with Redis is `fate(n)`, whether the n-th malloc succeeds likewise.
- Assumptions, all visible as parameters: SHA-256, key loading and signature
  checks are functions (`Assertion.Oracle`, `Attestation.Oracle`, `loads`); JSON
  parsing of client input is a function to a tree; base64url decoding of client
  input is any function (`ClientData.Decoder`), because the module is linked
  with nginx core's decoder and the admin tool with the port that
  `Base64url.dfy` models; a token's signature verifies
  only if the verify handler minted that token. Redis commands are atomic, its
  clock never goes back, a key with expiry e can be read until e, exclusive.
  Each node reads a clock of its own, and nothing is assumed about those.
- The protocol's log is a history, not state of the program: entries name
  earlier entries by position, and no step depends on them, except that a token
  is the entry which minted it.

## Where the code and its documentation differ

The model follows the code.

- `tools/admin/ngx_compat/ngx_compat.c:10` calls the pool leak-free. Data that
  `ngx_pool_cleanup_add` allocates for a non-zero size is never freed; the pool
  leaves nothing behind exactly when no such cleanup was added (`Pool.LeakFree`).
- `tools/admin/ngx_compat/ngx_compat.c:312` speaks of trailing `=`. The decoder
  skips `=` anywhere (`Base64url.DecodeInto`).
- `docs/DIRECTIVES.md:303` says that `lax` logs. The counter check neither logs
  nor rejects under `lax`, so `lax` and `off` decide alike
  (`Assertion.CheckCounter`).
- `src/ngx_auth_webauthn_authdata.c:43` says that nothing follows the prefix of
  an assertion. Whatever follows is accepted and ignored
  (`AuthData.PrintInvertsParse`).

Two promises of the documentation are made exact:

- `docs/DIRECTIVES.md:153` allows for a burst of up to twice the maximum across
  a window boundary. The bound is one less, 2 * max - 1, in any interval as long
  as the window (`RateLimit.WindowBound`), and that one is reached
  (`RateLimit.WindowBoundIsTight`).
- `docs/SECURITY.md:34` compares a counter with the stored value, which
  `Traces.AcceptedAdvances` proves of every accepted strict verify. Whether that
  keeps accepted counters in order depends on the stored value alone: it does if
  and only if the stored value has not fallen behind (`Traces.CheckKeepsOrder`).
  Verifies that do not overlap, with updates that take effect, never let it fall
  behind (`Traces.CountersClimb`); an overlap (`Overlap.CounterFalls`) or one
  failed update (`Overlap.FailedUpdateLosesTheOrder`) can.

## Model

| member | source | states |
|---|---|---|
| Protocol.RunKeeps | src/ngx_http_auth_webauthn_module.c:1364-1636 | every reachable state, under any interleaving and any failures, is what its history says: challenges, records and quota counters in Redis, and the local variables of every handler in flight; and every history entry is justified by earlier ones |
| Protocol.StepKeeps | src/ngx_http_auth_webauthn_module.c:1474-1529 | each single command, gate decision or passage of time keeps that invariant |
| Protocol.VerifyKeeps | src/ngx_auth_webauthn_challenge.c:82-111 | the GETDEL step keeps it: a challenge is found only while live, and found once |
| Protocol.LookupKeeps | src/ngx_http_auth_webauthn_module.c:1484-1514 | the HGETALL step with its local check keeps it: only a usable record that passes moves a verify on |
| Protocol.SaveKeeps | src/ngx_auth_webauthn_credential.c:377-415 | the counter HSET keeps it, although it does not look at what is stored and the handler goes on whatever becomes of it |
| Protocol.MintKeeps | src/ngx_http_auth_webauthn_module.c:1534-1573 | minting keeps it: a verify mints once, from the record its own lookup read |
| Protocol.GateKeeps | src/ngx_http_auth_webauthn_module.c:1826-1897 | an admission is justified by a minted token of the same relying party that has not expired |
| Protocol.PutKeeps | src/ngx_auth_webauthn_credential.c:286-371 | registration keeps it: HSET merges over whatever the record held |
| Protocol.DeleteKeeps | src/ngx_auth_webauthn_credential.c:433-463 | the DEL step keeps it, in any race with counter updates |
| Protocol.HitKeeps | src/ngx_auth_webauthn_redis.c:562-567 | the quota script keeps the counter of each client a run of that client's hits alone |
| Schedule.OthersLeave | src/ngx_http_auth_webauthn_module.c:1364-1636 | the steps of others do not move a handler in flight |
| Schedule.HandlerInRun | src/ngx_http_auth_webauthn_module.c:1364-1636 | a handler that starts in a reachable state leaves a reachable one, in which its process's steps are its turns in order |
| Traces.ChallengesConserved | src/ngx_auth_webauthn_challenge.c:39-111 | for every nonce in every run: issues = consumptions + lost replies + expiries + overwrites + 1 if live, so consumptions never exceed issues |
| Traces.ConsumedInTime | src/ngx_auth_webauthn_challenge.c:70-110 | a consumption takes a challenge that was issued less than its time to live before, with no other issue, consumption or expiry of it in between |
| Traces.LiveExactly | src/ngx_auth_webauthn_challenge.c:58-110 | in every run a challenge is live if and only if it was issued less than its time to live ago and neither consumed nor reissued since: none is lost early |
| Traces.OneTokenPerIssue | src/ngx_http_auth_webauthn_module.c:1474-1573 | every token goes back to an issued challenge, and no two tokens to the same issue, however many nodes race |
| Traces.Provenance | src/ngx_http_auth_webauthn_module.c:1831-1897 | whoever the gate admits as user u at t presented a token with subject u, this audience and an expiry after t, minted at t0 > t - jwt_ttl for the same relying party by one verify, whose lookup read a record of user u, registered under that key to that user and not deleted since, after that same verify consumed a challenge within its time to live |
| Traces.StoredRecord | src/ngx_auth_webauthn_credential.c:339-356 | a stored hash carries identity, key and algorithm of the registration in force and the counter last written; without a registration in force it holds at most sign_count and last_used_at |
| Traces.AcceptedRecord | src/ngx_http_auth_webauthn_module.c:1484-1513 | an accepted verify read user, key and algorithm of the registration in force at its lookup, and the counter last written |
| Traces.RevokedStaysRemnant | src/ngx_auth_webauthn_credential.c:440-448 | after DEL and until the next registration the hash holds at most sign_count and last_used_at, even if a verify in flight recreated it |
| Traces.RevokedIsRejected | src/ngx_auth_webauthn_credential.c:257-260 | every verify whose lookup falls between a DEL and the next registration is rejected, in every interleaving |
| Traces.NoSessionStartsAfterRevocation | src/ngx_http_auth_webauthn_module.c:1486-1529 | a token minted after a DEL comes from a lookup before it |
| Traces.AcceptedAdvances | src/ngx_auth_webauthn_assertion.c:21-44 | with any overlap, an accepted count exceeds the value last written before its own lookup, or both are zero |
| Traces.CheckKeepsOrder | src/ngx_auth_webauthn_assertion.c:200-206 | at an accepted strict verify, every count the check would accept goes ahead of an earlier accepted one if and only if the counter stored at the lookup is at least that one, with any overlap and any failures |
| Traces.SerializedKeepsStored | src/ngx_http_auth_webauthn_module.c:1516-1529 | serialized verifies with updates that take effect never let the stored counter fall behind an accepted one |
| Traces.CountersClimb | src/ngx_http_auth_webauthn_module.c:1495-1529 | serialized verifies under a strict policy with updates that take effect accept a run of zeros followed by a strictly increasing sequence, all ahead of the registered value |
| Traces.StoredIsLastAccepted | src/ngx_http_auth_webauthn_module.c:1516-1529 | between serialized verifies the stored count is the one accepted last, or the registered one |
| Traces.QuotaHolds | src/ngx_http_auth_webauthn_module.c:1105-1148 | in every run at most 2 * max - 1 of the requests that Redis counts for a client are within the quota in any interval as long as the window, whatever other clients and nodes do |
| Traces.HitAdmits | src/ngx_http_auth_webauthn_module.c:1133-1147 | the count an answered script reports is at most the maximum if and only if the hit adds one to the admissions, and then it does in every interval around the instant |
| Traces.LimiterHolds | src/ngx_http_auth_webauthn_module.c:1105-1148 | in every run the limiter lets a client in at most 2 * max - 1 times in any interval as long as the window, of the calls that Redis answered |
| Traces.HitsAreARun | src/ngx_auth_webauthn_redis.c:551-610 | the hits of one client among all events are a run of that client's counter, with the same admissions |
| Overlap.RacesLoseTheOrder | src/ngx_http_auth_webauthn_module.c:1486-1529 | two overlapping verifies with any two counts ahead of the stored one are both accepted and both written; the later write stays |
| Overlap.CounterFalls | src/ngx_http_auth_webauthn_module.c:1486-1529 | concretely, under a strict policy an accepted 7 is followed by an accepted 5, which Redis keeps |
| Overlap.FailedUpdateLosesTheOrder | src/ngx_http_auth_webauthn_module.c:1516-1529 | without any overlap, one failed update lets a later verify be accepted with a count behind an earlier accepted one |
| KeySpace.KeysApart | src/ngx_auth_webauthn_credential.c:30-81 | the four key builders are injective and their images pairwise disjoint, for all byte strings and every prefix |
| KeySpace.IssueRefines | src/ngx_auth_webauthn_challenge.c:58-74 | SET EX on a challenge key changes that challenge and nothing of the other stores |
| KeySpace.ExpiryRefines | src/ngx_auth_webauthn_redis.c:613-694 | Redis dropping expired strings drops the challenges that have run out and nothing of the other stores |
| KeySpace.ConsumeRefines | src/ngx_auth_webauthn_challenge.c:99-110 | GETDEL on a challenge key finds it exactly when it is live, and removes it alone |
| KeySpace.ReadRefines | src/ngx_auth_webauthn_credential.c:164-178 | HGETALL on a record key sees that record and nothing else |
| KeySpace.WriteRefines | src/ngx_auth_webauthn_credential.c:356-358 | HSET on a record key merges into that record and frames the other stores |
| KeySpace.DropRefines | src/ngx_auth_webauthn_credential.c:440-448 | DEL on a record key removes that record alone |
| KeySpace.IndexRefines | src/ngx_auth_webauthn_credential.c:360-371 | SADD and SREM on an index key change that user's index alone |
| KeySpace.HitRefines | src/ngx_http_auth_webauthn_module.c:1120-1135 | the quota script on a client's key changes that client's counter alone |
| Handlers.ChallengeKey | src/ngx_auth_webauthn_challenge.c:16-36 | the key written octet by octet into a buffer of its exact length |
| Handlers.RecordKey | src/ngx_auth_webauthn_credential.c:30-51 | likewise for records |
| Handlers.UserKey | src/ngx_auth_webauthn_credential.c:54-81 | likewise for user indexes |
| Handlers.QuotaKey | src/ngx_http_auth_webauthn_module.c:1120-1131 | likewise for quota counters |
| Handlers.ChallengeIssue | src/ngx_auth_webauthn_challenge.c:39-79 | one SET EX, a protocol step with the outcome the connection gives it, and OK exactly if answered; without a command and ERROR exactly unless 0 < ttl <= UINT32_MAX (others acting before each command) |
| Handlers.ChallengeConsume | src/ngx_auth_webauthn_challenge.c:82-111 | one GETDEL, a protocol step: ERROR exactly if unanswered, otherwise OK exactly if the challenge was live at that moment, DECLINED if not; without a command and DECLINED unless 32 octets long (others acting before each command) |
| Handlers.CredentialGet | src/ngx_auth_webauthn_credential.c:144-263 | one HGETALL: ERROR exactly if unanswered, otherwise what the record means at that moment (others acting before each command) |
| Handlers.CredentialPut | src/ngx_auth_webauthn_credential.c:266-374 | empty ids are refused without a command; otherwise HSET, then SADD if that was answered, each a protocol step, and OK exactly if both were answered (others acting before each command) |
| Handlers.UpdateCounter | src/ngx_auth_webauthn_credential.c:377-415 | one HSET of the two counter fields into whatever the record holds at that moment; success exactly if answered (others acting before each command) |
| Handlers.CredentialDelete | src/ngx_auth_webauthn_credential.c:418-466 | HGETALL; DEL if the record was usable at that moment; SREM if that was answered and the record had named a user; each a protocol step; DECLINED exactly for an unusable record, OK exactly if all were answered (others acting before each command) |
| Handlers.QuotaAllows | src/ngx_http_auth_webauthn_module.c:1105-1148 | an answered call lets the client in if and only if its hit adds one to what the quota admits at that instant; an unanswered one always does; off sends nothing and allows (others acting before each command) |
| Handlers.CallInRun | src/ngx_http_auth_webauthn_module.c:1105-1148 | a call from a reachable state, with whatever others do before it, makes a longer run, and counts there as let in exactly if the quota admits its hit |
| Login.ChallengeContent | src/ngx_http_auth_webauthn_module.c:1151-1280 | 429 exactly if Redis answered and the hit is not one the quota admits, and then no further command is sent; otherwise 200 exactly if the SET and, for a named user, the SMEMBERS are answered, and 500 if not, with exactly those commands sent; a success offers a challenge live when issued and lists exactly the ids indexed under the user, the same empty list for an unknown and an absent user (others acting before each command) |
| Login.ChallengeOffers | src/ngx_http_auth_webauthn_module.c:1253-1277 | a client reads in it the nonce's text, the relying party, the time to live in milliseconds, the wish for verification and the listed ids, each in its place, if and only if the configured strings and the ids are plain |
| Login.ParsePosted | src/ngx_http_auth_webauthn_module.c:1401-1432 | accepts exactly the bodies with a non-empty id and three non-empty fields that decode, under whatever base64url decoder the module is linked with |
| Login.VerifyDone | src/ngx_http_auth_webauthn_module.c:1363-1636 | a body that is no verify request is rejected and nothing is sent; any other makes exactly the commands of a verify, each a protocol step, as far as they succeed; 200 with the session cookie and the user exactly if they run to the end, 500 exactly if only the signer failed, and one and the same 401 otherwise (others acting before each command) |
| Login.VerifyNamed | src/ngx_http_auth_webauthn_module.c:1474-1573 | GETDEL; HGETALL if that was answered and the challenge live at that moment; HSET if that was answered and the record of that moment passes; the session if the signer works, whatever became of the HSET (others acting before each command) |
| Login.SessionExactly | src/ngx_http_auth_webauthn_module.c:1474-1573 | a session is minted if and only if the challenge has 32 octets and was live at an answered GETDEL, the record passed at an answered HGETALL, and the signer works; its user is the record's of that moment; every other failure before the signer, a missing credential included, gets the identical response |
| Login.SucceedsExactly | src/ngx_auth_webauthn_assertion.c:128-239 | a record passes if and only if the posted octets conform to the location's own settings, to the challenge and to the counter stored, and the record's key signed them |
| Login.SessionMeans | src/ngx_http_auth_webauthn_module.c:1474-1573 | a session is minted if and only if the challenge was live when consumed, the record usable when read, type, challenge, origin, relying party, UP, AT, ED, UV and counter of the posted octets are as this location demands, the signature is good over them, and the signer works |
| Login.Grant | src/ngx_http_auth_webauthn_module.c:1534-1624 | the token is the signed claims text, the response carries it as the cookie and names the user, exactly if the signer works |
| Login.GrantedMeans | src/ngx_http_auth_webauthn_module.c:1575-1618 | the body reads as the user and the expiry whatever the user id holds, and the cookie as token and configured attributes, each in its place, if and only if none of these holds a separator |
| Login.SessionInRun | src/ngx_http_auth_webauthn_module.c:1364-1636 | a verify that starts in a reachable state is part of a run, its commands are its process's steps there, and its session is that run's last token |
| Login.VerdictIsAcceptable | src/ngx_http_auth_webauthn_module.c:1494-1514 | the protocol's local check is the verdict of assertion_verify |
| Gate.Access | src/ngx_http_auth_webauthn_module.c:1836-1897 | admits exactly tokens with this rp_id, this issuer and an expiry ahead; user and credential are the claims' |
| Gate.TokenReads | src/ngx_http_auth_webauthn_module.c:1552-1563 | a minted text reads back as minted if and only if rp_id and credential id are plain, and then says what was minted claim by claim |
| Gate.GateStepIsAccess | src/ngx_http_auth_webauthn_module.c:1850-1883 | the protocol's gate step is that decision on the token's text, and the user is the stored user_id, for every token but exactly those whose rp_id or credential id needs escaping |
| Gate.AdmittedTextNamesUser | src/ngx_http_auth_webauthn_module.c:1546-1563 | in every run with relying-party and registered credential ids that need no escaping and clocks within int64, the text of the token behind any admitted request parses, passes the gate, and names the admitted user |
| Redis.HSetArguments | src/ngx_auth_webauthn_redis.c:229-251 | the argument array is HSET, the key, and names and values in turn |
| Redis.ArgumentsMean | src/ngx_auth_webauthn_redis.c:243-251 | what the array makes the server assign is the pairs in order |
| Redis.Regroup | src/ngx_auth_webauthn_redis.c:311-341 | regrouping a reply gives back the listing it flattens |
| Redis.Redis.SetFields | src/ngx_auth_webauthn_redis.c:207-265 | HSET merges; no pairs, no command |
| Redis.Redis.AllFields | src/ngx_auth_webauthn_redis.c:268-353 | a listing with distinct names of exactly the stored hash |
| Redis.Redis.AllMembers | src/ngx_auth_webauthn_redis.c:436-509 | each member once |
| Redis.Redis.GetAndDelete | src/ngx_auth_webauthn_redis.c:657-693 | found exactly if a live string was there, and then removed |
| Redis.Redis.SetExpiring | src/ngx_auth_webauthn_redis.c:613-654 | the value with its expiry, over whatever was there |
| Redis.Redis.Increment | src/ngx_auth_webauthn_redis.c:551-610 | one atomic run of the script |
| RateLimit.CounterRefinesWindows | src/ngx_auth_webauthn_redis.c:562-567 | after each hit the counter is its rank in the fixed window that the hit times alone determine, and the expiry is the one the window's first hit set |
| RateLimit.LifetimeAdmitsFirstMax | src/ngx_http_auth_webauthn_module.c:1133-1147 | every lifetime admits exactly its first max hits |
| RateLimit.LifetimesApart | src/ngx_auth_webauthn_redis.c:562-567 | lifetimes are contiguous and start at least a window apart |
| RateLimit.WindowBound | src/ngx_http_auth_webauthn_module.c:1088-1148 | from any counter whose live expiry, if it has one, is at most a window ahead, as the script sets it: at most 2 * max - 1 admissions in any half-open interval of window length |
| RateLimit.WindowBoundIsTight | src/ngx_http_auth_webauthn_module.c:1088-1148 | for every positive max and every window of at least two seconds some run reaches that bound |
| RateLimit.OrphanExpires | src/ngx_auth_webauthn_redis.c:556-560 | a counter without expiry gets one on its first hit and restarts at 1 a window later |
| Credential.BuildPairs | src/ngx_auth_webauthn_credential.c:293-354 | six pairs, then transports and aaguid when given, in eight slots |
| Credential.Get | src/ngx_auth_webauthn_credential.c:180-262 | the loop over a listing in any order returns what the hash means |
| Credential.UsableExactly | src/ngx_auth_webauthn_credential.c:180-262 | a hash is a usable record if and only if it has a key, a non-zero 32-bit algorithm and no counter outside 32 bits; each field then says what the field of its name holds |
| Credential.ListingOrder | src/ngx_auth_webauthn_credential.c:180-255 | listings that are permutations of each other mean the same hash, so code and result do not depend on the order |
| Credential.PutGetRoundTrip | src/ngx_auth_webauthn_credential.c:293-358 | get after put returns the record if and only if nothing it left out was already stored, in particular on a fresh key |
| Credential.GetAfterPut | src/ngx_auth_webauthn_credential.c:339-356 | re-registration without transports or aaguid keeps the stored ones; without key or alg the record is unusable |
| Credential.GetAfterUpdate | src/ngx_auth_webauthn_credential.c:377-415 | a counter update changes count and time of a usable record alone, and makes no usable record of a hash without key or alg |
| Credential.RemnantIsUnusable | src/ngx_auth_webauthn_credential.c:257-260 | a hash that a counter update alone recreated is declined |
| Index.RegisterIsSteps | src/ngx_auth_webauthn_credential.c:286-371 | registration without interleaving is its two protocol steps |
| Index.RemoveIsSteps | src/ngx_auth_webauthn_credential.c:433-463 | deletion without interleaving is its two or three protocol steps |
| Index.UsableIsListed | src/ngx_auth_webauthn_credential.c:360-371 | in every serialized run a usable record is in its own user's index |
| Index.RegisterKeepsExact | src/ngx_auth_webauthn_credential.c:356-371 | exact agreement survives a registration if and only if the id is not recorded under another user |
| Index.OthersKeepExact | src/ngx_auth_webauthn_credential.c:433-463 | counter updates and deletions keep it always |
| Index.IndexIsExact | src/ngx_auth_webauthn_credential.c:356-371 | if no id is registered under two users, every index is exactly the ids whose record names its user |
| Index.IndexIsUsableIds | src/ngx_auth_webauthn_credential.c:356-463 | with key and alg in every registration, that is exactly the ids with a usable record of the user |
| Index.IndexedWasRegistered | src/ngx_auth_webauthn_credential.c:356-371 | in every run, interleaved and failing as it may be, an index lists only ids that were registered for its user |
| Decimal.Atoi64 | src/ngx_auth_webauthn_credential.c:84-129 | accepts exactly an optional minus and digits of any number with a value in int64, returns it, and never overflows the unsigned accumulator |
| Decimal.ParsePrint | src/ngx_auth_webauthn_credential.c:305-331 | parsing inverts printing on every int64 |
| Decimal.PrintLength | src/ngx_auth_webauthn_credential.c:22-23 | every int64 prints in at most 20 chars |
| ClientData.Verify | src/ngx_auth_webauthn_clientdata.c:41-153 | OK exactly if type, challenge, allow-listed origin and crossOrigin pass, under whatever base64url decoder is linked; never an error |
| ClientData.ExtractChallenge | src/ngx_http_auth_webauthn_module.c:1434-1456 | the challenge that clientDataJSON names under whatever base64url decoder is linked, or none |
| ClientData.NamedChallengeAgrees | src/ngx_auth_webauthn_clientdata.c:85-114 | with the challenge the handler named and consumed the comparison cannot fail, with any other it must |
| Assertion.CheckCounter | src/ngx_auth_webauthn_assertion.c:21-44 | strict: ahead, or both zero; lax and off: always |
| Assertion.CheckSignature | src/ngx_auth_webauthn_assertion.c:53-125 | OK exactly for a supported algorithm, a key of its type and a valid signature; DECLINED exactly for a cleanly refuted one |
| Assertion.CheckAuthData | src/ngx_auth_webauthn_assertion.c:161-198 | length, AT and ED clear, rpIdHash, UP, and UV if required; the counter is octets 33 to 36 |
| Assertion.Verify | src/ngx_auth_webauthn_assertion.c:128-239 | OK if and only if the posted octets conform and the signature over the authenticator data followed by the hash of the client data is good, with the reported counter; DECLINED if and only if they do not or it is refuted |
| Assertion.ConformsExactly | src/ngx_auth_webauthn_assertion.c:137-206 | what the checks before the signature demand, member by member of the document and octet by octet of the authenticator data, with the flags as bit masks |
| Assertion.SignatureExactly | src/ngx_auth_webauthn_assertion.c:53-125 | the signature is good, or refuted, over exactly those octets in that order, under the digest and by a key of the type of its algorithm |
| Assertion.ConsumedChallengeAgrees | src/ngx_http_auth_webauthn_module.c:1500-1514 | in the handler the challenge comparison is redundant after the consume |
| Tool.PrintedConforms | t/data/webauthn_tool.py:191-197 | an assertion the test tool prints conforms if and only if type, challenge, origin, relying party and counter are good, and verification is there where required |
| Tool.AssertAndVerify | t/data/webauthn_tool.py:191-205 | printed and verified under an ES256 key: accepted with the printed counter if nothing is bad and the signature is good over the printed octets followed by the hash of the client data; declined if anything is bad or the signature is refuted |
| Tool.PrintedBodyPosts | t/data/webauthn_tool.py:207-218 | the handler takes from a printed body what was put into it, each part in its own place |
| Base64url.DecodeInto | tools/admin/ngx_compat/ngx_compat.c:315-349 | the wrapping 32-bit accumulator computes the octets of the ideal bit stream with = deleted, and rejects exactly other chars |
| Base64url.EncodeInto | tools/admin/ngx_compat/ngx_compat.c:250-286 | the encoder computes the sextets of the bit stream, zero-filled |
| Base64url.RoundTrip | tools/admin/ngx_compat/ngx_compat.c:250-349 | decoding an encoding gives the octets back, with = inserted anywhere |
| Base64url.LengthMacros | tools/admin/ngx_compat/ngx_compat.h:159-160 | the length macros are enough for both |
| Base64url.BasisIsInverse | tools/admin/ngx_compat/ngx_compat.c:289-308 | the decoder's char table inverts the encoder's |
| Base64url.EncodeUnique | tools/admin/ngx_compat/ngx_compat.c:263-285 | the encoding is the only text with those bits and fill |
| JsonText.JsonEscape | src/ngx_http_auth_webauthn_module.c:1019-1061 | computes the escaped text within six octets per input octet |
| JsonText.ReadEscaped | src/ngx_http_auth_webauthn_module.c:1039-1057 | an escaped value between quotes is read back whole by a reader for section 7 of RFC 8259 |
| JsonText.EscapeInjective | src/ngx_http_auth_webauthn_module.c:1039-1057 | escaping is injective |
| JsonText.EscapeHasNoControl | src/ngx_http_auth_webauthn_module.c:1048-1055 | the output holds no control octet |
| JsonText.RawMemberReads | src/ngx_http_auth_webauthn_module.c:1558-1562 | a member written without escaping reads back exactly when it is plain |
| JsonText.RawValueReads | src/ngx_http_auth_webauthn_module.c:1558-1562 | before the end of an object or another member, the value read is the value written without escaping if and only if it is plain, wherever its reading ends |
| JsonText.RawMemberIsRead | src/ngx_http_auth_webauthn_module.c:1558-1562 | such a member and those after it read as meant if and only if it is plain and they do |
| Formats.WriteClaims | src/ngx_http_auth_webauthn_module.c:1546-1563 | the claims object, within its allocation for all lengths |
| Formats.ClaimsReadBack | src/ngx_http_auth_webauthn_module.c:1552-1563 | the claims object reads back as its seven members if and only if rp_id, credential id and jti, which are written without escaping, are plain; sub is the stored user id whatever it holds |
| Formats.WriteCookie | src/ngx_http_auth_webauthn_module.c:1575-1594 | the cookie, within its allocation |
| Cookie.CookieReadsBack | src/ngx_http_auth_webauthn_module.c:1583-1594 | the header reads, along section 5.2 of RFC 6265, as the name and token and all its attributes if and only if name, token, path and domain hold no separator |
| Formats.WriteSuccess | src/ngx_http_auth_webauthn_module.c:1608-1618 | the success body, within its allocation |
| Formats.WriteHmacKey | src/ngx_http_auth_webauthn_module.c:1676-1683 | the HMAC key document, within its allocation |
| Formats.WritePemKey | src/ngx_http_auth_webauthn_module.c:1692-1702 | the PEM key document, within its allocation |
| Formats.PemKeyReadsBack | src/ngx_http_auth_webauthn_module.c:1692-1702 | it carries the PEM text itself |
| Formats.WriteChallenge | src/ngx_http_auth_webauthn_module.c:1253-1277 | the challenge body, within its allocation for any number of credentials |
| Formats.ReadBody | src/ngx_http_auth_webauthn_module.c:1294-1329 | the concatenated chain, unless it is empty, over 64 KiB or partly on disk |
| Responses.ChallengeReadsBack | src/ngx_http_auth_webauthn_module.c:1266-1277 | the challenge body reads as challenge, rpId, timeout, userVerification and the list of public-key entries with the ids in order, if and only if the strings written without escaping are plain |
| Responses.EntriesRead | src/ngx_http_auth_webauthn_module.c:1271-1276 | the list reads as an entry for each id in order, up to its end, if and only if every id is plain |
| Responses.SuccessReadsBack | src/ngx_http_auth_webauthn_module.c:1608-1618 | the success body reads as ok, the user id whatever it holds, and the expiry |
| Responses.RejectionReadsBack | src/ngx_http_auth_webauthn_module.c:1285-1291 | the rejection body says that and nothing else |
| Responses.HmacKeyReadsBack | src/ngx_http_auth_webauthn_module.c:1676-1683 | the HMAC key document reads as one oct key with its value and algorithm if and only if both are plain |
| AuthData.Parse | src/ngx_auth_webauthn_authdata.c:11-81 | the parsed fields, or DECLINED exactly for too short a layout; no read leaves the buffer |
| AuthData.Layout | src/ngx_auth_webauthn_authdata.c:11-81 | where every field lies and how its numbers are spelled, octet by octet; the attested fields are filled exactly if the flags have the bit 0x40 |
| AuthData.FlagBits | src/ngx_auth_webauthn_authdata.h:24-27 | the flags for presence, verification, attested data and extensions are the bits 0x01, 0x04, 0x40 and 0x80 |
| AuthData.AuthDataOf | t/data/webauthn_tool.py:121-132 | the printer's octets |
| AuthData.ParseInvertsPrint | src/ngx_auth_webauthn_authdata.c:11-81 | parsing inverts printing on all fields |
| AuthData.PrintInvertsParse | src/ngx_auth_webauthn_authdata.c:42-80 | on accepted input with AT the fields print to exactly the octets read; without AT the tail is lost, and nothing else |
| Cbor.Cbor | t/data/webauthn_tool.py:71-89 | the encoder with its dict loop computes the reference encoding, or fails where it raises |
| Cbor.RoundTrip | t/data/webauthn_tool.py:57-89 | the decoder inverts it at any depth and leaves exactly what follows |
| Cbor.PrefixFree | t/data/webauthn_tool.py:57-89 | no encoding is a proper prefix of another; encoding is injective |
| Cbor.HeadIsShortest | t/data/webauthn_tool.py:57-68 | the head is the only shortest one for its value |
| Cbor.EncodingIsShortest | t/data/webauthn_tool.py:57-89 | of all octet strings that decode to a value the encoder's is the single shortest |
| Cbor.DecodeExtends | src/ngx_auth_webauthn_cose.c:261-269 | octets after an item of any kind, of definite or indefinite length, change neither the item nor its extent |
| CborPrinter.DecodePrinted | src/ngx_auth_webauthn_attestation.c:162-170 | every item of every kind, tags, floats and chunked and open forms included, printed along section 3 of RFC 8949 and at any depth, is read back with exactly what follows |
| CborPrinter.EncodeIsPrint | t/data/webauthn_tool.py:71-89 | the tool's encoder is that printer with the shortest heads |
| Cose.CoseIntExact | src/ngx_auth_webauthn_cose.c:37-56 | exact if and only if the argument is below 2^63; above it is off by 2^64 |
| Cose.TwoSpellings | src/ngx_auth_webauthn_cose.c:44-53 | so every int64 is taken from exactly two spellings |
| Cose.Collect | src/ngx_auth_webauthn_cose.c:278-302 | the loop keeps the last value under each label |
| Cose.Interpret | src/ngx_auth_webauthn_cose.c:304-339 | a key exactly when the collected values describe one of the three supported types |
| Cose.ToKey | src/ngx_auth_webauthn_cose.c:236-350 | OK with the described key, DECLINED for a map of definite or indefinite length that describes none, ERROR without a leading map or when OpenSSL refuses |
| Cose.AnswersOnce | src/ngx_auth_webauthn_cose.c:236-350 | there is one answer for each input |
| Cose.TrailingIgnored | src/ngx_auth_webauthn_cose.c:261-269 | octets after the key do not change the answer |
| Cose.CoseKeyEncodes | t/data/webauthn_tool.py:102-114 | the tool's key, octet by octet |
| Cose.CoseKey | t/data/webauthn_tool.py:102-114 | computes that encoding for any coordinates |
| Cose.CoseKeyRoundTrip | t/data/webauthn_tool.py:102-114 | a key the tool prints is extracted as its point, with or without octets after it |
| Cose.OkpKeyRoundTrip | src/ngx_auth_webauthn_cose.c:304-339 | an Ed25519 key as section 13.2 of RFC 8152 writes it is extracted as its point |
| Cose.RsaKeyRoundTrip | src/ngx_auth_webauthn_cose.c:304-339 | an RSA key as section 4 of RFC 8230 writes it is extracted as its modulus and exponent, each in its place |
| Attestation.ParseStmt | src/ngx_auth_webauthn_attestation.c:80-130 | last alg as a C int, last sig, any non-empty x5c; DECLINED exactly for no map or a sig that is no definite byte string |
| Attestation.PackedStatement | src/ngx_auth_webauthn_attestation.c:80-130 | a packed statement gives its algorithm and signature, and counts as certified exactly if its chain, of either length form, is not empty |
| Attestation.Parse | src/ngx_auth_webauthn_attestation.c:133-234 | OK exactly for one map, of definite or indefinite length, with definite text fmt and bytes authData and a proper attStmt if any |
| Attestation.MeansOnce | src/ngx_auth_webauthn_attestation.c:172-225 | an object means one thing |
| Attestation.TrailingRejected | src/ngx_auth_webauthn_attestation.c:162-170 | anything after a complete item is rejected |
| Attestation.VerifyPacked | src/ngx_auth_webauthn_attestation.c:251-335 | OK exactly for a self-signature with the embedded key and its algorithm; ERROR exactly when the key or the check fails |
| Attestation.Verify | src/ngx_auth_webauthn_attestation.c:338-394 | none passes under either policy for the right relying party; otherwise only a self-signed packed without certificates, where asked for |
| Attestation.SelfSignedExactly | src/ngx_auth_webauthn_attestation.c:251-335 | a self-attestation is good if and only if the flags have the bit 0x40 and the embedded key, with its own algorithm and digest, signed the authenticator data followed by the client data hash |
| Attestation.AlgorithmTables | src/ngx_auth_webauthn_attestation.c:289-300 | both verifiers and the key extraction agree on digest and key type of -7, -8 and -257, and on no other algorithm |
| Attestation.RegistrationReadsBack | t/data/webauthn_tool.py:165-176 | what the tool prints parses back to the credential id, counter and key it was made of |
| Pool.Pool.constructor | tools/admin/ngx_compat/ngx_compat.c:93-110 | an empty pool |
| Pool.Pool.Palloc | tools/admin/ngx_compat/ngx_compat.c:175-197 | succeeds exactly if both mallocs do: a block at an address that was not live goes first in the list; otherwise everything is as it was |
| Pool.Pool.Pfree | tools/admin/ngx_compat/ngx_compat.c:221-242 | succeeds if and only if the block is live, and takes out that block and no other |
| Pool.Pool.Unlink | tools/admin/ngx_compat/ngx_compat.c:232-236 | the unlinking branch removes the node at its position and frees its two addresses |
| Pool.Pool.CleanupAdd | tools/admin/ngx_compat/ngx_compat.c:142-172 | succeeds exactly if its mallocs do: a hook without handler goes first in the list, with data of its own exactly if a size was asked for |
| Pool.Pool.Destroy | tools/admin/ngx_compat/ngx_compat.c:113-139 | every set handler runs once, last added first; every address is freed once, except data of cleanups |
| Pool.HeldAfterFree | tools/admin/ngx_compat/ngx_compat.c:221-242 | without its block the pool still holds live, distinct addresses, and the freed block is nowhere in it |
| Pool.LeakFree | tools/admin/ngx_compat/ngx_compat.c:142-165 | destruction leaves nothing of the pool if and only if no cleanup has data of its own |
| Pool.Session | tools/admin/ngx_compat/ngx_compat.c:93-242 | over any sequence of operations and any failures of malloc: the handlers of exactly the cleanups whose mallocs succeeded run, once each and in reverse order; foreign memory is untouched; all memory is given back if and only if none of those cleanups came with a size |

## Left out

- Login.VerifyDone: asks that the clock plus the token's life stay within int64, because the C sum beyond it is
  undefined (`src/ngx_http_auth_webauthn_module.c:1561`).
- Traces.QuotaHolds: does not bound the requests let in while Redis does not answer, because the limiter fails open (`src/ngx_http_auth_webauthn_module.c:1133-1141`).
- Cryptography: OpenSSL is a set of functions; DER and PEM encodings, key
  building and constant-time comparison are not modelled.
- libcbor where it departs from section 3 of RFC 8949: its nesting limit and its
  refusal of unassigned simple values.
- JSON parsing of requests, and the JWT library: a tree and a minted set stand
  for them. Only the reading of what this module itself writes is modelled: objects,
  arrays, strings, integers and booleans of RFC 8259 without whitespace.
- hiredis: connecting, AUTH, SELECT, timeouts, reply memory and reply types that
  Redis does not give for these commands. A failed connection is an event that
  does not happen.
- 64-bit overflow of INCR, and Redis refusing a command on a key that foreign
  software filled with another type.
- nginx itself: directives, configuration, variables, header injection,
  redirects, cookie parsing, request method checks, request body reading beyond
  the buffer chain, and nginx core's own base64url decoder, which is any function
  to the handlers; the port in the admin tool is modelled.
- Allocation failures, except in the pool; each ends its request with an error
  before or between commands, which the protocol covers as a handler that stops.
- Percent-decoding of the user_id argument; it is a parameter, absent when the
  argument is missing or empty before decoding.
- The 500 responses for missing directives and for a connection to Redis that does
  not come about.
- Randomness: challenges and token ids are parameters, and nothing assumes that
  they differ.
- The admin tool's option parsing, printing and time formatting; its register
  and revoke are `Handlers.CredentialPut` and `Handlers.CredentialDelete`.
- Cleanup handlers that use the pool they are registered with.
- The relation of node clocks to the Redis clock: times before and after a token
  is minted compare readings of node clocks, challenge lifetimes compare readings
  of the Redis clock.
