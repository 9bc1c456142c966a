# A verified model of the Incus SPIRE attestor

The attestor lets a SPIRE server establish that an agent runs inside one particular Incus virtual machine. The guest
sends claims; the server finds the one allowed VM they describe, stores a fresh nonce under a fresh key in that VM's
configuration, tells the guest the key, and expects the nonce back. Then it removes the key, and only then issues
attributes. This project models that protocol and proves, for every input, every port behaviour and every
interleaving, what its parts promise and what they promise together.

`dafny verify dfyconfig.toml` checks everything.

## How it is organised

| files | what they hold |
|---|---|
| Base, Strings, Encoding, Utf8 | options, results and error classes; string order, sort and compact; hex and unpadded base64url; UTF-8 validity and replacement |
| Attest, Selectors, Config | claims, keys and nonces; selector construction; configuration validation |
| Json, Wire, Structs, WireAccepts, WireProofs | JSON trees, tokens and the duplicate-name walker; the three message codecs; exactly what they accept; sizes and round trips |
| Backoff, Incus, Mutation | delays and the virtual clock; records, ETags and faults; the one-key mutation loop |
| Interleaving, Refinement, Ownership, Walkthroughs | any number of attempts and operators on one store, step by step; the mutation loop as a run of it; who owns a key when; concrete runs |
| Resolve, Random, Service, Guest, HonestRun | the search for the VM, the shared random source, the server's run, the guest's run, and all three parties composed |
| Runtime, Metadata | publication and retirement of server runtimes; the guest's metadata parser |

Code that works step by step in the repository is a method or a class here, with the loops it has there. Its contract
ties it to a function or a small state machine, and the lemmas are about that function or machine. The mutation loop
is the widest case: `Mutation.Mutate` is the loop, it follows the automaton `Mutation.Next`, and `Interleaving` steps
any number of copies of the same automaton against one store under the same contract (`Mutation.Lawful`);
`Refinement.MutateIsARun` proves that each call of the loop is a run of that system. `HonestRun` then takes every reply that guest and server
get about the store from one such run.

## What is trusted

- Strings are sequences of bytes, one character a byte, as in Go.
- The case-insensitive field lookup of `encoding/json`, `uuid.Parse` and `strings.TrimSpace` are abstract functions.
  `Wire.Contract` and `Attest.UuidContract` say what is assumed: canonical UUID text parses to itself, is plain ASCII
  and has 36 characters.
- `json.Marshal` replaces each byte that starts no UTF-8 character by U+FFFD and escapes as `Wire.EscapedHead` says.
- `json.Decoder.Token` returns delimiters properly nested, and only a string where a member name stands; the strings it
  returns are valid UTF-8 (used only where `WireProofs.TokensUtf8` is named).
- The remote store: an ETag is never empty and determines the whole record; an accepted PUT commits at once, against
  the If-Match condition of section 13.1.1 of RFC 9110, and replaces only the writable part of the record; a 404 is
  only returned for an instance that is absent; an error reply or a failed wait may follow a commit; a PUT that
  reports an operation has committed; nothing commits after the call has returned.
- Attempt IDs are fresh: no two attempts have the same one, and no record holds its key before it begins.
- A project is looked up once in a search, so each lookup has one reply; the replies may be of different instants.
- A backoff wait completes only if it began before its context's deadline.

## What is not true of the code, and what is

- A cleanup that returned nil does not keep the nonce off its target when operators may do anything. Two runs show it,
  both from any store with the target: `Walkthroughs.RenamedAwayAndBack`, in which the instance is renamed away while
  the cleanup looks for it, and `Walkthroughs.UuidChangedAndBack`, in which only its UUID is changed and changed back,
  and what is back is the attempt's own nonce. `Ownership.NonceComesBack` is the exact condition, for all runs and all
  operators, both for the nonce and for the key with any value: there is an instant of the cleanup at which the key was
  gone, and later the target has it if and only if an operator's edit of that instance since then put the record back,
  wrote the key, or made its UUID the target's again (`Ownership.Restores`), and no edit since undid that
  (`Ownership.Removes`). So operators who from the end of the unset on spare that one instance are enough
  (`Ownership.CleanedForGood`).
- A failed update says nothing about the store: `Interleaving.FailedUpdateTellsNothing`.
- A payload does not come back as it was when a text in it is not valid UTF-8: `WireProofs.InvalidUtf8DoesNotComeBack`
  exhibits a name that is the one byte 0xFF, and `WireProofs.PayloadRoundTrip` says the claims come back, apart from
  the spelling of the UUID, if and only if every text is valid UTF-8.
- An accepted payload may be too large to be encoded again, because a text takes more bytes escaped:
  `WireProofs.AcceptedButTooLarge` exhibits names of 10887 to 65320 characters `<`. `WireProofs.DecodedPayload` and
  `WireProofs.PayloadSize` say exactly when.
- The duplicate-name walker compares names exactly, while struct decoding also matches them case-insensitively, so an
  accepted object may give one field several times under case variants: `WireProofs.LastVariantCounts` exhibits a
  response with two nonces, of which the last counts. The results in `WireAccepts` cover such objects;
  `WireAccepts.ExactStruct` is what remains when there are no variants.
- `Attest` handles a failing `EncodeChallenge`; within a run it cannot fail, neither on grammar nor on size
  (`WireProofs.ChallengeRoundTrip` with `Attest.KeyBijection`).

## Model

| member | source | states |
|---|---|---|
| Mutation.Mutate | internal/incus/host/mutation.go:83-98 | whatever the server and other writers do during the call: every commit is an edit of exactly the call's key on the record current at that instant, which is the target; nil means the purpose of the call held at some instant of it; a fault is returned only for a context error, a replaced target, or a fault that is no conflict, no busy status, no timeout, nothing temporary and no network error; a wait follows only the opposite kind; the waits asked for are exactly the doubling delays, as many as the log has, and bounded by the time left |
| Mutation.CallIsExplained | internal/incus/host/mutation.go:83-138 | each exchange of a call follows from the reply before it: a GET first, a PUT exactly after a target record with work to do, a wait exactly after a fault worth it, the end exactly on success or any other fault; stated by statuses and flags alone |
| Walkthroughs.ConflictIsRetried | internal/incus/host/mutation.go:83-98 | from any fresh store, an operator's edit between GET and PUT makes the PUT a conflict, and after one wait a second round reaches Holding on the edited record |
| Incus.TargetExactly | internal/incus/host/mutation.go:141-159 | the record is the target exactly when its name, its kind, the parsed UUID of its merged configuration and the project, if it names one, are the target's |
| Refinement.MutateIsARun | internal/incus/host/mutation.go:83-138 | each call of the loop, with the log and the result it returns, is a run of the step system, the exchanges being the attempt's steps and everyone else operators; so what is proved of all runs holds of the loop |
| Refinement.OperatorsReach | internal/incus/host/mutation.go:100-138 | operators' edits can take any store to any other, so nothing is assumed of the other writers |
| Mutation.MutateOnce | internal/incus/host/mutation.go:101-138 | one fetch, revalidation and guarded write: the same guarantees for one attempt, including a vanished, replaced or already clean target on unset |
| Mutation.PutAndWait | internal/incus/host/mutation.go:119-138 | from a revalidated record on, success means the purpose was achieved although an error may hide a commit |
| Mutation.GuardedUpdate | internal/incus/host/mutation.go:119-133 | the PUT under the fetched ETag writes either nothing or exactly the one key; without a fault the purpose holds at once |
| Mutation.OneKeyEditKeepsTheRest | internal/incus/host/mutation.go:112-133 | an edit keeps every other key, every other writable field, the identity, and every other record |
| Interleaving.NoLostUpdate | internal/incus/host/mutation.go:101-138 | in every run of any number of attempts and operators, a commit changes exactly its attempt's key of the current record, which is the target; every other attempt step changes nothing |
| Interleaving.FailedUpdateTellsNothing | internal/incus/host/mutation.go:66-72 | the same fault may follow a commit or none: both are possible, the attempt goes on identically, and only the store differs |
| Interleaving.SuccessMeansAchieved | internal/incus/host/mutation.go:66-98 | in every run, nil from a set means the target held the nonce at an instant of that call; nil from an unset means that at an instant of it the instance was absent, not the target, or without the key |
| Interleaving.OperatorEditsIntact | internal/incus/host/mutation.go:112-138 | over every run, each instance is, outside the reserved namespace and under every key that no attempt uses there, exactly what the operators' own edits would have made of it |
| Interleaving.DoneIsSettled | internal/incus/host/mutation.go:66-98 | once a set or unset is done, there was an instant of the call that achieved its purpose, and since then every instance is, in the view of that key, what the operators' edits alone made of it |
| Interleaving.EveryAttemptIsCleaned | internal/server/service.go:95-135 | in every run, an attempt that is cleaning or closed, whether its set failed or not, was at an instant of that run at the very start of its unset |
| Interleaving.ArmedAlways | internal/incus/host/mutation.go:106-130 | in every run, whoever is about to write holds a revalidated record and the ETag of that very record |
| Ownership.NonceComesBack | internal/server/cleanup.go:30-38 | for every run and all operators, after a cleanup that returned nil: at an instant of it the key was gone, and later the target has the nonce, or the key with any value, if and only if an operator's edit of that instance since then put the record back, wrote the key or restored the UUID, and no later edit undid it |
| Ownership.HoldsAfterEdit | internal/incus/host/mutation.go:141-159 | the edits that bring a nonce or key back and those that take it away, exactly |
| Ownership.ClosedKeyIsTheOperators | internal/server/cleanup.go:30-38 | after an attempt closed, with or without success, each instance, its identity and the key included, is what the operators' edits made of what it was then |
| Walkthroughs.RenamedAwayAndBack | internal/incus/host/mutation.go:74-80 | from any initial store with the target there is a run in which cleanup returns nil and the nonce is back, by renaming |
| Walkthroughs.UuidChangedAndBack | internal/incus/host/mutation.go:140-159 | and one in which operators only change the UUID and change it back |
| Ownership.KeyOwnership | internal/server/service.go:88-135 | a key present where no attempt has it as its own is what the operators left there; an attempt's key, with operators careful about that attempt from its beginning, is present only on its target, which is still that VM, and only until its unset is done |
| Ownership.CleanedForGood | internal/server/cleanup.go:30-38 | if operators, from the end of the unset on, spare that one instance, then in every continuation the target is absent, another VM, or without the key |
| Ownership.PresentWhileHolding | internal/server/service.go:104-133 | from the end of the set to the start of cleanup the target holds the nonce, and a guest read returns exactly its text, if edits of that instance leave key and UUID alone |
| Incus.SnapshotIsTarget | internal/incus/host/map.go:22-61 | a looked-up record is the target of its own snapshot exactly when it is a VM, and the snapshot carries the project and name asked for |
| Incus.MapsExactly | internal/incus/host/map.go:22-61 | which replies map to a snapshot, exactly, and what every field of it is: local keys over profile keys, the standalone location for none; every failure is a denial |
| Service.HostService.Attest | internal/server/service.go:67-145 | for every port behaviour, the effects, each lookup included, and the error are those of the run function, the deferred second cleanup adding nothing |
| Service.HostService.Challenge | internal/server/service.go:95-145 | the part under the armed cleanup: same effects and error as specified, and the cleanup has run once on every return |
| Service.Cleanup.Run | internal/server/cleanup.go:31-38 | the first call unsets the key once and remembers the result; later calls return it and do nothing |
| Service.CleanupExactlyOnce | internal/server/service.go:95-135 | for every port behaviour, unset is called exactly once, after set and for the same instance and key, if and only if set was called; set and attributes occur at most once |
| Service.AttributesOnlyAfterProof | internal/server/service.go:104-144 | attributes are sent only last, right after a successful set, challenge, response with this attempt's nonce, and unset, in that order |
| Service.FailedStepKeepsItsClass | internal/server/cleanup.go:40-49 | for every cleanup result, a failed step returns its own error; a failed cleanup decides only when all else succeeded; attributes are not sent in either case |
| Service.SuccessIsProven | internal/server/service.go:67-145 | a run that returns nil sent attributes of an allowed VM that matches the claims, after that VM returned this attempt's nonce; the set, the challenge, the unset and the send all succeeded, and the agent ID is spelled from the trust domain and the parsed UUID |
| Service.SuccessHasSent | internal/server/service.go:141-144 | nil if and only if the last effect is the sending of the attributes and that sending succeeded |
| Service.FirstFailureDecides | internal/server/service.go:67-145 | for every port behaviour: the error is that of the first of the fourteen steps, in program order, that fails by its own fields, the unset counted after the response; the effects stop right there, and from the set on the unset is among them |
| Service.LookupsStayAllowed | internal/server/service.go:71-86 | an instance is looked up only for a strict payload with valid claims, under the claimed name, in allowed projects, in the hinted one alone if there is a hint, and nowhere twice |
| Service.ChallengeMatchesSet | internal/server/service.go:92-117 | the challenge follows the set at once and decodes to the key that was stored under, which is an attempt's; the stored text is the one encoding of a nonce |
| Service.AttributesNeedTheStoredText | internal/server/service.go:119-144 | attributes are sent only if the response was a strict message of the exact shape around the very text that was stored |
| Guest.PollConfig | internal/agent/poll.go:105-131 | for every sequence of reads: every read before the last found nothing or failed by a timeout or temporary error that is no context error; a last value is returned; after a last read that found nothing the error is a context error; any other error is that of a last fatal read; the delays asked for are exactly the doubling ones, their number bounded by the time left |
| Guest.PolledMeans | internal/agent/poll.go:105-131 | the same for every outcome that the specification of the polling allows, hence wherever the composed run uses it |
| Guest.GuestService.Attest | internal/agent/service.go:54-101 | for every port behaviour, the effects and the error are those of the run function |
| Guest.FirstFailureDecides | internal/agent/service.go:54-101 | the error is that of the first of the ten steps that fails by its own fields, the last being the sending of the response, and the effects stop there |
| Guest.GuestDiscipline | internal/agent/service.go:48-101 | config is read only under the key of a well-formed challenge already received; a response is sent last, at most once, and carries the nonce whose exact text was polled |
| Guest.SentPayloadDecodes | internal/agent/service.go:59-73 | a payload is sent once, right after reading claims that are valid, and decodes to them with the canonical UUID |
| Walkthroughs.SetCanSucceed | internal/incus/host/mutation.go:101-138 | on any store with the target and without the key, one undisturbed round of replies sets the nonce |
| Walkthroughs.UnsetCanSucceed | internal/incus/host/mutation.go:101-138 | and one more removes it, closes the attempt without error, and leaves the store exactly as it was |
| HonestRun.ServerReadsGuestClaims | internal/agent/service.go:59-73 | the server decodes and accepts exactly the claims a guest managed to send, with a canonical UUID |
| HonestRun.GuestAnswers | internal/agent/service.go:75-100 | a guest that reads the stored text sends a response that the server decodes to the stored nonce |
| HonestRun.GuestReadsNonce | internal/agent/poll.go:105-131 | for every sequence of reads at any instants of the run, before the nonce is visible or while it is held, with any faults the polling survives: once one of them is without fault while the nonce is held, the polling returns exactly the stored text |
| HonestRun.OneRecordResolves | internal/server/resolve.go:12-67 | if exactly one allowed record is the VM of the claims, the lookups on that store resolve to its snapshot, with and without a hint |
| HonestRun.HonestRunSucceeds | internal/server/service.go:67-145 | on any run of the store with gentle operators, all replies about the store taken from it: with an accepted configuration, one matching record, selectors in bounds and messages delivered, the guest succeeds and the server returns what the unset returned; if nil, its last effect attests exactly that record, and with careful operators the key is nowhere |
| HonestRun.AttestationCanSucceed | internal/server/service.go:67-145 | from a store alone with one matching record, such a run and such replies exist: both sides succeed, the record is attested, the store is left as it was |
| HonestRun.NilIsProven | internal/server/service.go:67-145 | for every guest, every network and every other writer, a nil from the server proves: the attributes were sent without error and are those of the record of a VM that an allowed project held before the attempt and that matches the claims; for claims without a project, every other allowed project, at the instant it was asked, held no such record or one that does not match; that VM held the nonce during the set; the response carried exactly that nonce; and the key was gone from it during the cleanup |
| Service.HostService.ResolveUnhinted | internal/server/resolve.go:42-67 | the counting loop asks one project after the other up to the first failing lookup, and returns the only match, or denies, or returns that error |
| Service.HostService.ResolveHinted | internal/server/resolve.go:23-39 | at most one lookup, in the hinted project if it is allowed |
| Resolve.HintedExactly | internal/server/resolve.go:23-39 | which result and error each reply leads to when a project is claimed |
| Resolve.UnhintedExactly | internal/server/resolve.go:42-67 | the first failing lookup decides with its error; without one, the only match is returned, and denied is the answer if and only if there is none or more than one |
| Resolve.AskedExactly | internal/server/resolve.go:42-67 | projects are asked in order up to and including the first failing lookup, and all of them if none fails |
| Resolve.UnhintedAgrees | internal/server/resolve.go:23-67 | the unhinted search returns I if and only if no lookup failed and exactly one allowed project, given as a hint, would succeed, and that one yields I |
| Resolve.ResolvedIsAllowed | internal/server/resolve.go:12-67 | whatever is resolved is a VM of an allowed project, found in that project, that matches the claims |
| Resolve.OneMatchResolves | internal/server/resolve.go:12-67 | a single match is found with and without a hint |
| Resolve.MatchIsIdentity | internal/attest/claims.go:46-98 | claims match exactly when they are the instance's complete identity up to UUID spelling and an omitted project; every mismatch is a denial |
| Resolve.HostLookupIsScoped | internal/incus/host/client.go:102-123 | whatever the server answers, a found instance belongs to the project that was asked and has the name asked for |
| Resolve.LookupExactly | internal/incus/host/client.go:102-123 | not found if and only if the reply is a 404; every other fault is a fault of the lookup, and so is every record that cannot be mapped |
| Random.Reader.ReadRandomPair | internal/server/service.go:148-165 | for every short-read and error pattern: ID then nonce from one 32-byte window, or, after a read that failed, fewer than 32 bytes gone; its reads are a run of the concurrent machine |
| Random.Reader.ReadFull | internal/server/service.go:152-159 | fills one 16-byte array from consecutive bytes or fails short of it, after exactly one failed read; an error with the last byte is dropped |
| Random.RandomWindows | internal/server/service.go:147-165 | over every interleaving, each success has its own contiguous window, and no two attempts, failed ones included, share a byte |
| Random.FailureIsFault | internal/server/service.go:152-159 | in every run, an attempt fails if and only if one of its reads failed before the 16 bytes it read for were complete; short reads alone never fail it |
| Backoff.DelayClosedForm | internal/incus/host/retry.go:50-56 | the n-th delay is min(25·2^n, 250) ms |
| Backoff.TotalWaitClosedForm | internal/agent/poll.go:96-102 | from four full waits on, exactly 375 + 250(n-4) ms have been waited |
| Backoff.WaitsBeforeDeadline | internal/agent/poll.go:105-131 | a call that began its last wait in time made at most MaxWaits of them, the bound in the contracts of both loops; with a timeout of T >= 375 ms at most 4 + (T-375)/250 waits end in time |
| Backoff.Clock.Wait | internal/agent/poll.go:60-69 | a completed wait began before the deadline and took its full delay |
| Json.RejectDuplicateNames | internal/wire/decode.go:153-162 | accepts exactly the token streams of one value without a repeated name, and nothing after it |
| Json.RejectDuplicateValue | internal/wire/decode.go:165-184 | the recursive walk over the decoder's cursor decides as its specification on the remaining stream, and stops right after the value |
| Json.RejectDuplicateObject | internal/wire/decode.go:187-210 | the loop that grows the set of seen names, likewise |
| Json.RejectDuplicateArray | internal/wire/decode.go:213-223 | the loop over elements, likewise |
| Json.WalkWritten | internal/wire/decode.go:165-223 | on the tokens of any value followed by anything: succeeds exactly when no object at any depth repeats a name, and leaves exactly the rest |
| Json.WalkerAccepts | internal/wire/decode.go:152-223 | on any token stream at all: succeeds, leaving rest, if and only if the stream is a duplicate-free value followed by rest |
| Json.ReadWritten | internal/wire/decode.go:78-88 | reading inverts writing, for every value and every rest |
| Json.ReadConsumes | internal/wire/decode.go:78-88 | what the reader consumes are the tokens of the value it returns |
| Wire.DecodeMessage | internal/wire/decode.go:54-75 | size, UTF-8, duplicate and trailing-data checks with the walker's own loops |
| Wire.ParseNonceExact | internal/wire/response.go:89-102 | ParseNonce(s) = n if and only if s is the unpadded base64url text of n: no padding, stray bits or line breaks |
| Wire.EscapesExactly | internal/wire/decode.go:42-51 | how many bytes each character takes in a JSON text, case by case: controls, quote and backslash, the HTML characters, U+2028 and U+2029, and bytes that start no character |
| Encoding.Base64Exact | internal/wire/response.go:89-102 | within one encoded length the strict decoder accepts exactly the encoder's image, for every length |
| Encoding.Base64At | internal/wire/response.go:50-61 | each character of an encoding is the symbol of the 6 bits that stand there in its group of three bytes |
| Encoding.QuantumIsNumber | internal/wire/response.go:50-61 | the sextets of a group and its bytes are the same 24-bit number, big end first, zeros after the last byte |
| WireProofs.ChallengeIsSpelled | internal/wire/challenge.go:49-63 | the tokens of an encoded challenge, word by word |
| WireProofs.ResponseIsSpelled | internal/wire/response.go:50-61 | the tokens of an encoded response |
| WireProofs.PayloadIsSpelled | internal/wire/payload.go:69-102 | the tokens of an encoded payload |
| WireProofs.ChallengeRoundTrip | internal/wire/challenge.go:49-93 | encoding fails on the key grammar and on nothing else, never on size; decoding returns the key |
| WireProofs.ResponseRoundTrip | internal/wire/response.go:50-86 | every nonce has a response, and it decodes to that nonce |
| WireProofs.PayloadEncodes | internal/wire/payload.go:69-102 | encoding succeeds exactly on claims with a UUID, the four required texts and a size in bounds |
| WireProofs.PayloadRoundTrip | internal/wire/payload.go:69-170 | an encoded payload always decodes, an empty project to an absent one; to the original claims with canonical UUID if and only if every text is valid UTF-8 |
| WireProofs.InvalidUtf8DoesNotComeBack | internal/wire/decode.go:42-51 | claims named by the byte 0xFF are encoded, with any UUID, and decode to another name |
| WireProofs.PayloadSize | internal/wire/decode.go:42-51 | the exact byte size of a payload |
| WireProofs.AcceptedButTooLarge | internal/wire/payload.go:69-170 | payloads that are accepted within the bound and whose claims cannot be encoded within it |
| WireProofs.LastVariantCounts | internal/wire/response.go:64-86 | a response that gives the nonce under its name and under a case variant is accepted, and the last one counts |
| Utf8.CoerceKeepsValid | internal/wire/decode.go:42-51 | json.Marshal keeps a text if and only if it is valid UTF-8 |
| Utf8.CoerceIsValid | internal/wire/decode.go:42-51 | and what it writes is always valid |
| Utf8.ValidIsEncoded | internal/wire/decode.go:63-75 | a byte string is valid UTF-8 if and only if it is the encoding of some sequence of Unicode scalar values |
| WireAccepts.ReadIsStrict | internal/wire/decode.go:63-98 | the generic checks accept exactly one duplicate-free value in bounds; every failure is the invalid class |
| WireProofs.DecodedPayload | internal/wire/payload.go:105-182 | an accepted payload, its strings being valid UTF-8 as the decoder returns them, is strict and complete with a canonical UUID; it can be encoded again if and only if it still fits, and then decodes to itself |
| WireProofs.DecodedOthers | internal/wire/challenge.go:49-93 | an accepted challenge or response is strict, can be encoded again, and agrees with what it was |
| WireProofs.OneFieldSize | internal/wire/decode.go:42-51 | the exact byte size of a challenge or response, hence its bound |
| Structs.StructAccepts | internal/wire/decode.go:78-88 | strict struct decoding takes an object exactly when every name goes to a field, exactly or by case, and every value fits; a field is left with the last value given, null in plain text fields aside |
| WireAccepts.FitsExactly | internal/wire/decode.go:78-88 | which values fit a field of each kind: text or null, an integer within 64 bits or null, anything raw |
| WireAccepts.ExactStruct | internal/wire/decode.go:78-88 | an object without case variants gives the expected fields exactly when it has those members and no others, in some order |
| WireAccepts.TypedAccepts | internal/wire/decode.go:101-120 | the type/version wrapper returns data exactly when it gives the wanted type, version 1 and that data, and nothing else |
| WireAccepts.TypedUnsupported | internal/wire/decode.go:101-142 | it is unsupported exactly for another nonempty type, or the right type with another version; every other error is the invalid class |
| WireAccepts.EnvelopeAccepts | internal/wire/decode.go:54-60 | the envelope is accepted with a body exactly when it is strict and gives version 1 and that body, and nothing else |
| WireAccepts.EnvelopeUnsupported | internal/wire/decode.go:123-131 | it is unsupported exactly when it is strict, fits and gives another version number; every other error is the invalid class |
| WireAccepts.ChallengeAccepts | internal/wire/challenge.go:66-93 | a challenge decodes to key if and only if it is strict, has the shape around that text, and key is well formed |
| WireAccepts.ResponseAccepts | internal/wire/response.go:64-86 | a response decodes to n if and only if it is strict and has the shape around the text of n |
| WireAccepts.PayloadAccepts | internal/wire/payload.go:105-170 | a payload decodes to claims if and only if it is strict, with one evidence item that gives the required texts, a UUID, and a nonempty project or none |
| WireAccepts.OneFieldErrors | internal/wire/decode.go:101-142 | a challenge or response that fails is invalid, or unsupported exactly when its envelope or its wrapper is |
| WireAccepts.DecoderErrors | internal/wire/challenge.go:66-93 | of a challenge and of a response, including their own checks of the key and the nonce, every error is invalid or, exactly for another version or type, unsupported |
| WireAccepts.PayloadErrors | internal/wire/payload.go:105-170 | a payload that fails is invalid, or unsupported exactly when its envelope or its one evidence item is |
| Attest.NewConfigKey | internal/attest/nonce.go:20-33 | the scanning loop accepts exactly the key grammar |
| Attest.KeyBijection | internal/attest/nonce.go:20-38 | a text is a key if and only if it is the key of an attempt ID, and of only one |
| Attest.KeysAreDistinct | internal/attest/nonce.go:36-38 | every attempt's key is accepted and distinct attempts have distinct keys |
| Attest.KeyIsSpelled | internal/attest/nonce.go:36-38 | the key is the namespace, written out, and the hex text of the attempt ID, 58 characters in all |
| Encoding.HexAt | internal/attest/nonce.go:36-38 | each two hex digits of a key are the high and low half of that byte of the attempt ID |
| Selectors.BuildSelectors | internal/attest/attributes.go:35-72 | the whole function with its loops and early exits equals the specification |
| Selectors.Generate | internal/attest/attributes.go:36-55 | the appending loops produce every selector in order, or stop at a reserved key |
| Selectors.WithinBytes | internal/attest/attributes.go:64-71 | the early exit of the summing loop is exact |
| Selectors.SelectorsRefineSet | internal/attest/attributes.go:35-81 | success is the strictly increasing listing of the selector set; failure if and only if a key is reserved or that set is over 100 members or its texts after the first colon are over 32768 bytes in all |
| Selectors.ValueLenExactly | internal/attest/attributes.go:75-81 | the bytes counted of a selector are those after its first colon, and none without a colon |
| Selectors.ReservedExactly | internal/attest/attributes.go:46-49 | a key is reserved exactly when it begins with the nonce namespace, dot included |
| Strings.LeqIsLexicographic | internal/attest/attributes.go:57-58 | the order sorted by is equality or a smaller byte, or the end, at the first difference |
| Selectors.AttributesExactly | internal/attest/attributes.go:16-32 | attributes exist exactly for a valid instance with selectors in bounds; the agent ID is spelled from the trust domain and the parsed UUID; every failure is a denial |
| Selectors.SelectorsIgnoreOrder | internal/attest/attributes.go:43-58 | permuting or repeating profiles and user keys changes nothing |
| Config.ValidateServer | internal/config/validate.go:46-59 | accepts exactly when no attribute has a violation, which is spelled out attribute by attribute |
| Config.ValidateProjects | internal/config/validate.go:78-99 | collects every violation of the allowlist and nothing else |
| Config.ValidateUserSelectors | internal/config/validate.go:102-123 | collects every violation of the selector keys and nothing else |
| Config.AcceptedProjects | internal/config/validate.go:41-45 | no violation if and only if one to 32 distinct nonempty projects |
| Config.AcceptedSelectors | internal/config/validate.go:101-137 | no violation if and only if at most 32 distinct user keys outside the reserved namespace |
| Config.AllowedExactly | internal/config/validate.go:126-137 | a selector key is allowed exactly when it has text after `user.` and is neither the nonce namespace nor below it |
| Config.AcceptedConfigIsSafe | internal/config/validate.go:102-137 | an accepted configuration never meets the reserved-key denial, never exceeds the count with at most 64 distinct profiles, and emits no selector in the nonce namespace |
| Config.EntryNotReserved | internal/attest/attributes.go:46-55 | appending a colon and a value cannot move a key into the namespace |
| Runtime.BuildsNeverOverlap | internal/spire/server.go:61-84 | over all interleavings at most one Configure is between its lock and its return |
| Runtime.ClientsConserved | internal/spire/server.go:54-84 | whenever no Configure is in progress, every client ever connected is current and never closed, or idle-closed exactly once |
| Runtime.FailedConfigureChangesNothing | internal/spire/runtime.go:100-109 | a Configure that fails, whatever ran beside it, leaves the pointer and every client as they were before its lock; at most it connected one client, which it closed once |
| Runtime.AttestationKeepsItsRuntime | internal/spire/server.go:87-93 | an attestation keeps one runtime, whose client had never been closed when it was loaded, even in the middle of a Configure, and is closed later at most once, only after being superseded |
| Runtime.ServerPlugin.Configure | internal/spire/server.go:61-84 | from any conserved state: the new client is current and never closed, the old one closed once more, a failed client closed once |
| Runtime.ConfigureRefines | internal/spire/server.go:61-84 | the machine's steps of one Configure end where the method ends |
| Runtime.CleanupNeverChangesTheCode | internal/spire/runtime.go:143-161 | the status code of a failed step is the same for every cleanup result, even a cancellation |
| Runtime.CodeExactly | internal/spire/runtime.go:143-161 | which status code each set of error classes gets, and in which precedence |
| Metadata.ParseMetadata | internal/incus/guest/claims.go:115-140 | the flagged loop returns, for each of the two keys, the value of the first line that gives it, and the empty text exactly when no line does |
| Metadata.MetaIsFirst | internal/incus/guest/claims.go:115-140 | the specification's value of a key is that of the first line giving it, if and only if there is one |
| Metadata.LineExactly | internal/incus/guest/claims.go:121-137 | a trimmed line without a colon gives nothing; else its part before the first colon, trimmed, names the field and the rest, trimmed, is the value |
| Metadata.LinesExactly | internal/incus/guest/claims.go:115-119 | the lines hold no newline and joined by newlines are the document |
| Metadata.FirstWins | internal/incus/guest/claims.go:114-140 | parsing a, newline, b is a filled in by b for the keys a never mentions |

## Left out

- HTTP, TLS, Unix sockets, files and gRPC streams: they are the ports, with arbitrary results.
- The Incus client library: only the store contract above; an operation commits before its call returns, or not at all.
- The byte level of JSON (lexing, unescaping, nesting limit): messages start as tokens with a size and two flags.
- Which strings count as case variants of a field name.
- HCL and duration decoding, `ValidateAgent`, `readCredential`, `decodeInfo` and the collection of guest claims.
- Error texts and the wrappers that keep secrets out of them: only what inspection of an error can see is kept.
- Constant-time comparison and the quality of randomness.
- Goroutines and timers: receives are arbitrary results, waits are on a virtual clock.
- Panics: the deferred cleanup is modelled on every return, not on unwinding.
- Slices, arrays and maps that the source copies defensively or edits in place are values, so aliasing is not modelled.
- `internal/spire/agent.go`: the server's publication machine without retirement.
- Ownership.KeyOwnership: what it says of an attempt's own key needs operators careful about that attempt; for all operators the exact statements are Ownership.NonceComesBack, for a cleaned target, and Interleaving.OperatorEditsIntact, everywhere else.
- Random.Reader.ReadFull: a reader that forever returns neither bytes nor an error is cut off after any number of such reads.
- Guest.PollConfig: a wait that fails returns a cancellation or a deadline, which is all the source's own wait returns.
