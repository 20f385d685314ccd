# Dilla verification

A Dafny 4.11 model of the parts of Dilla whose correctness is hard to see by reading one function,
with proofs over every input, every run and every interleaving. `dafny verify dfyconfig.toml` checks it.

| file | what it models |
|---|---|
| `SenderKeyExchange.dfy`, `SenderKeyTermination.dfy` | The sender-key exchange of a channel as a state machine of N peers and a broadcasting hub, each handler run cut at its `await`s: every pair exchanges, and it stops |
| `SenderKeyAuthenticity.dfy` | Whose keys the peers end up with: exactly which identities a peer holds a key for, and exactly when those keys are authentic |
| `KeyDistributeHandler.dfy` | One client's handler and its set of remembered strings, proved to take exactly the machine's steps |
| `Challenges.dfy`, `Tickets.dfy` | Login and enrollment challenges, WebSocket tickets, their background sweeps, and history-based references they refine |
| `Tokens.dfy`, `Sessions.dfy`, `SlidingSessions.dfy` | Access and refresh tokens, revocation, device cut-offs and sliding refresh over whole runs |
| `SessionMachine.dfy`, `SessionLaws.dfy` | An abstract machine of sessions, without tables, ids or collection, that the service refines, and what each event means for the people it concerns |
| `AuthService.dfy` | The service as a class over its maps and tables, every method tied to a step of those runs |
| `Layers.dfy`, `Streaming.dfy`, `OriginalNetwork.dfy` | The re-exported noise-suppression network: chunked inference equals whole-sequence inference, and both compute the original network frame by frame |
| `DecryptionCaches.dfy`, `SentCache.dfy`, `MessageDecryption.dfy` | The three caches in front of message decryption, and the module that updates them |
| `PeerSessions.dfy` | Concurrent session set-up behind one promise per peer |
| `AuthUrl.dfy`, `AuthUrlReading.dfy` | Percent-encoding, URL-safe base64 and the two auth URLs, and how a browser and `URLSearchParams` read them back |
| `MessageGroups.dfy` | Greedy stacking of messages |
| `Reactions.dfy` | The reaction list and the set of pairs it stands for |
| `Roles.dfy` | Resolved roles, live role updates and the permission bitmask |

Where the source changes state the model does too: `AuthService`, `MessageDecryption`, `CryptoService`,
`Client` and `Buffers` are classes whose methods are proved against functions, and the run theorems are
about those functions. The lemmas that end a file's argument are the results; the others lead up to them.

## Assumptions

- Random ids, nonces and jtis never repeat (`FreshIds`, `FreshNonces`, `FreshJti`). Only the service and
  nodes that share its secret can sign a token (`Presentable`). SHA-256, key parsing and signature
  verification are parameters; injectivity of the hash is asked for only by `DigestUsedOnce`.
- Both clocks never run backwards. The JWT library's expiry leeway is a parameter of any size.
- Database and cache writes may fail where the source handles it (`writes`, `writeOk`, `readOk`).
- The hub delivers every broadcast to every subscriber, the sender included, in any order
  (`server-rs/src/ws/client.rs:541-553`), and stamps it with the sender's user id.
- A payload is a text that names an identity (`Config.owner`, the JSON's `sender_id`), under which the key
  is filed; nothing compares it with the stamped sender (`client/src/services/crypto/groupSession.ts:81-97`).
  `Completeness` and `Convergence` promise the key of a peer whose own payloads name itself (`NamesItself`),
  `KeyIsAuthentic` asks that every filed payload names its broadcaster (`FilesHonestly`).
- Each client's group session exists before its handler runs; two racing first uses could create it twice.
- Channel and user ids hold no colon (they are UUIDs); payloads may.
- A ciphertext determines its plaintext (`Honest`). `encryptChannel` returns the base64 of a JSON text
  (`client/src/services/crypto/cryptoManager.ts:368-381`), so a ciphertext is never empty
  (`NoEmptyCiphertext`); the guard before the eviction of the oldest entry is then always passed.
- Layers of the network other than the three windowed convolutions and the GRUs work frame by frame.

## Where the code and its comments differ

- A revoked token is refused only while `expires_at > now` (`server-rs/src/db/jwt_revocation_queries.rs:26`).
  The validator tolerates expired tokens for the leeway, so a revoked token is accepted again from its
  expiry to the end of the leeway. `RevokedAcceptedExactly` and `OneTokenAtATime` give the exact window,
  `RevokedAcceptedExample` and `TwoTokensExample` reach it.
- The ticket sweep keeps tickets under 30 s, validation refuses those over 30 s. At exactly 30 s the sweep
  can be seen: `SweepVisibleExactly`.
- The durable cache compares sources only when the wire text is not empty: `EmptyContentExactly`.
- The self-sender test of the key handler compares a server user id with a base64 public key, which are
  never equal; a peer therefore echoes its own first broadcast once. Termination does not need that test.
- The nonce and the salt are printed into the URLs unescaped. They read back exactly if they hold no `&`,
  `#`, `+`, tab or line break and no `%` with two hex digits: `RegisterUrlExactly`, `LoginUrlExactly`. The
  generated nonce and a padded base64 salt meet that.
- The comments call a held key the sender's. A payload that names somebody else is filed as theirs:
  `ForgedKeyExample`; `AuthenticExactly` gives the condition.
- `server-rs/src/db/device_queries.rs:156-157` says tokens of a revoked device live on; the access validator
  refuses them (`server-rs/src/auth.rs:460-462`), while its refresh tokens are still accepted.
- Removing a reaction for a user who is not in the entry lowers the count alone: `RemoveCorrectExactly`.

## Model

| member | source | states |
|---|---|---|
| SenderKeyExchange.InvStep | client/src/hooks/useChannelEvents.ts:170-224 | Every step of every interleaving keeps the pair invariant: p filed a payload of q's, or a broadcast, a handler run or an echo that will bring it is pending, or processing failed on one side of the pair |
| SenderKeyExchange.KeepsAbsorbing | client/src/hooks/useChannelEvents.ts:198-216 | A payload inside `processSenderKey` ends as a filed key with an echo to follow, or as a recorded failure |
| SenderKeyExchange.ReceiveHandsOver | client/src/hooks/useChannelEvents.ts:194-199 | A delivered payload, duplicate or not, was filed, is being absorbed, or was recorded as failed |
| SenderKeyExchange.EveryPairExchanged | client/src/hooks/useChannelEvents.ts:210-219 | Whatever the join and delivery order, when nothing is pending every joined peer has filed a payload of every other joined peer; a failed processing costs only its own pair |
| SenderKeyExchange.RecordExactly | client/src/hooks/useChannelEvents.ts:198-203 | Over a run a pair counts as failed exactly if `processSenderKey` threw on one of its packets, a packet as filed exactly if its key was stored, a peer as joined exactly if it subscribed |
| SenderKeyExchange.BroadcastReaches | server-rs/src/ws/client.rs:541-553 | A broadcast puts one copy under way to every subscriber, the sender included, and to nobody else |
| SenderKeyTermination.MeasureFalls | client/src/hooks/useChannelEvents.ts:189-223 | Every join, broadcast, delivery, absorption and echo strictly lowers the measure |
| SenderKeyTermination.Termination | client/src/hooks/useChannelEvents.ts:85-92 | With n peers and m payloads every schedule has at most (n+2)(n+n²m) steps; the seen-set alone bounds it |
| SenderKeyTermination.Progress | client/src/hooks/useChannelEvents.ts:170-224 | While anything is pending some step other than a join can be taken |
| SenderKeyTermination.EchoedOnce | client/src/hooks/useChannelEvents.ts:194-196 | Over a whole run no (receiver, sender, payload) is echoed twice |
| SenderKeyTermination.EchoFollowsAbsorb | client/src/hooks/useChannelEvents.ts:198-216 | Every echo of a run follows the successful processing of that packet, from a named sender other than the peer's own identity |
| SenderKeyAuthenticity.HeldExactly | client/src/services/crypto/groupSession.ts:81-97 | In every run a peer holds a key for an identity exactly if it filed a payload that names this identity, whoever broadcast it |
| SenderKeyAuthenticity.Completeness | client/src/pages/ChannelView.tsx:45-59 | Whatever the join and delivery order and whatever the others broadcast, when nothing is pending every joined peer holds a key for the identity of every other joined peer that names itself, or processing failed on their pair |
| SenderKeyAuthenticity.Convergence | client/src/hooks/useChannelEvents.ts:210-219 | A run that can go no further has completed the exchange with every peer that names itself |
| SenderKeyAuthenticity.AuthenticExactly | client/src/services/crypto/cryptoManager.ts:437-455 | Throughout a run every held key was broadcast by the peer it is held for, if and only if every filed payload names its broadcaster |
| SenderKeyAuthenticity.KeyIsAuthentic | client/src/services/crypto/groupSession.ts:72-97 | When every filed payload names its broadcaster, a key held for a peer is a payload this very peer broadcast |
| SenderKeyAuthenticity.ForgedKeyExample | client/src/hooks/useChannelEvents.ts:199 | A peer that broadcasts a payload naming another makes the receiver hold it as that other's key, who sent nothing |
| KeyDistributeHandler.RememberedInjective | client/src/hooks/useChannelEvents.ts:194 | The remembered string tells apart any two (channel, sender, payload), payloads with colons included |
| KeyDistributeHandler.Client.OnDistribute | client/src/hooks/useChannelEvents.ts:170-196 | The synchronous prefix takes exactly the machine's receive step; not ready, it changes nothing |
| KeyDistributeHandler.Client.FileSenderKey | client/src/services/crypto/groupSession.ts:81-97 | The key is filed under the identity its payload names, overwriting what was there |
| KeyDistributeHandler.Client.OnProcess | client/src/hooks/useChannelEvents.ts:198-216 | Filing the key and deciding the echo is exactly the machine's absorb step, a throw its failing step; other channels are untouched |
| Layers.ConvCut | scripts/reexport-dfn3-onnx.py:83-84 | A temporal convolution may be cut anywhere if its last frames are carried over, also when a piece is shorter than the context; the carried context is the same too |
| Layers.StackCut | scripts/reexport-dfn3-onnx.py:96 | Stacked GRU layers over a whole sequence equal the two halves with hidden states threaded |
| Layers.ZeroContextIsPadding | scripts/reexport-dfn3-onnx.py:67-72 | Removing the temporal pad and starting from a zero context computes the original layer |
| Streaming.EncodeCut | scripts/reexport-dfn3-onnx.py:82-102 | The encoder on two pieces in turn equals the encoder on both joined: all seven outputs, both contexts, the hidden state |
| Streaming.DecodeErbCut | scripts/reexport-dfn3-onnx.py:110-118 | The same for the ERB decoder |
| Streaming.DecodeDfCut | scripts/reexport-dfn3-onnx.py:127-137 | The same for the DF decoder, with and without its skip |
| Streaming.StreamingEquivalence | scripts/reexport-dfn3-onnx.py:221-275 | For every network, input, initial state and chunking, chunk-by-chunk outputs and final states equal one call on the whole |
| Streaming.Causality | scripts/reexport-dfn3-onnx.py:82-137 | The first t frames of mask, coefficients and SNR depend on the first t input frames only |
| Streaming.Buffers.Write | scripts/reexport-dfn3-onnx.py:259-261 | One frame written extends the filled prefix of all three buffers by exactly that frame |
| Streaming.StreamFrames | scripts/reexport-dfn3-onnx.py:251-261 | The frame loop fills its buffers with the batched reference and ends in its state, for any number of frames |
| OriginalNetwork.RunGruAt | scripts/reexport-dfn3-onnx.py:96 | The stacked GRU's output at frame t is the one found by following each layer's hidden state through time |
| OriginalNetwork.WholeIsOriginal | scripts/reexport-dfn3-onnx.py:82-137 | From zero contexts, at every frame e0 to e3, c0, emb, lsnr, mask and coefficients are those of the original network: padded convolutions, all four skip connections, recursive hidden states |
| OriginalNetwork.StreamIsOriginal | scripts/reexport-dfn3-onnx.py:221-275 | The stream computes the original network at every frame, for every chunking |
| Challenges.EnrollmentBytesInjective | server-rs/src/auth.rs:95-110 | Equal signed bytes come from equal user id, key and nonce, whatever bytes the user id holds |
| Challenges.EnrollmentSigningDigest | server-rs/src/auth.rs:100-110 | The successive hasher updates hash the canonical encoding |
| Challenges.EnrollmentLayout | server-rs/src/auth.rs:90-110 | The 22 characters of the label, then user id, key and nonce, each after a zero byte, at these positions |
| Challenges.VerdictsAreIdeal | server-rs/src/auth.rs:245-349 | Over every run, sweeps anywhere, the verifiers answer as a reference that keeps full history and never sweeps |
| Challenges.SweepUnobservable | server-rs/src/auth.rs:176-184 | Removing every sweep from a run changes no answer's class |
| Challenges.SweepLeavesExactly | server-rs/src/auth.rs:178-183 | A sweep leaves exactly the challenges younger than 360 s, as they were |
| Challenges.SingleUse | server-rs/src/auth.rs:251-256 | Of all verifications naming one id, through either verifier, at most one gets past the lookup |
| Challenges.Accepted | server-rs/src/auth.rs:258-349 | `Ok(true)` means: issued earlier in the run and at most 300 s ago; unbound with its nonce signed, or bound to exactly this user and key with the tuple's digest signed |
| Challenges.BareExactly | server-rs/src/auth.rs:245-284 | Over every run: the first presentation, within 300 s, of a challenge issued unbound, with key and signature of the right shape, answers whether the nonce was signed; otherwise the error and its class |
| Challenges.BoundExactly | server-rs/src/auth.rs:293-349 | The same for a challenge issued for exactly this user and key, about the tuple's digest |
| Challenges.NotOpenIsRefused | server-rs/src/auth.rs:251-260 | A challenge never issued, presented before, or more than 300 s old is `Unauthorized` |
| Challenges.DigestUsedOnce | server-rs/src/auth.rs:286-349 | Two accepted bound verifications of a run are never about the same digest |
| Tickets.DiagnosticsAgree | server-rs/src/auth.rs:728-754 | `is_ws_ticket_valid` holds exactly when the remaining time is positive, and agrees with validation except at age exactly 30 s |
| Tickets.SweepVisibleExactly | server-rs/src/auth.rs:716-721 | A sweep changes a later validation exactly if the ticket was 30 s old and is validated at the same instant |
| Tickets.TicketSweepUnobservable | server-rs/src/auth.rs:699-721 | Over any run a validation answers as if no sweep ever ran, unless the ticket is exactly 30 s old |
| Tickets.TicketSingleUse | server-rs/src/auth.rs:697-712 | A presented ticket is refused for the rest of the run |
| Tickets.TicketExactly | server-rs/src/auth.rs:683-712 | Over any run a ticket first presented within 30 s of its issue gives the user it was issued to, and one presented later is refused |
| Tickets.TicketAdmitsOnlyItsUser | server-rs/src/auth.rs:699-712 | An accepted ticket was issued to the user it names at most 30 s ago and never presented before |
| Tickets.TtlIsTrue | server-rs/src/auth.rs:744-754 | A ticket stays valid for one second less than its remaining time, and is invalid once that time has gone by |
| Sessions.GoodStep | server-rs/src/db/jwt_revocation_queries.rs:9-42 | Every event, collection included, keeps the revocation table equal to the part of history that still matters, with unique jtis |
| Sessions.AccessAcceptedExactly | server-rs/src/auth.rs:396-491 | In every run `validate_jwt_full` accepts exactly the minted access tokens of this node, unexpired up to the leeway, not revoked before expiry, allowed by their device, and reports the token's own identity |
| Sessions.RefreshAcceptedExactly | server-rs/src/auth.rs:571-616 | The same for refresh tokens, which have no device test; the claims returned are the token's own |
| Sessions.KindsNeverMix | server-rs/src/auth.rs:408-427 | No refresh token is accepted as access token and no access token as refresh token, whatever the tables hold |
| Sessions.RevokedAcceptedExactly | server-rs/src/db/jwt_revocation_queries.rs:18-30 | A revoked access token is accepted exactly from its expiry to the end of the leeway, if its device allows it |
| Sessions.RevokedAcceptedExample | server-rs/src/db/jwt_revocation_queries.rs:22-30 | A logged-out token refused one second before its expiry is accepted at its expiry |
| SessionMachine.SimulatesStep | server-rs/src/auth.rs:475-525 | Mint, refresh, logout, device change, role change, collection and time move the service with its tables and an abstract session machine together |
| SessionMachine.ValidatorsFollowMachine | server-rs/src/auth.rs:475-616 | After every run the two validators accept exactly the abstract machine's open sessions and refreshing tokens |
| SessionLaws.InvalidationRows | server-rs/src/db/device_queries.rs:79-89 | A role change moves the cut-off of each of the user's devices to now and touches no other row |
| SessionLaws.InvalidationExactly | server-rs/src/auth.rs:450-470 | At once the user's tokens issued before now are refused and every other answer stays what it was |
| SessionLaws.InvalidationHolds | server-rs/src/db/device_queries.rs:74-89 | Whatever happens later, every token bound to a device of that user and issued before the role change stays refused |
| SessionLaws.DisableHolds | server-rs/src/auth.rs:459-462 | A disabled device's access tokens are refused for good, and no other device's answers change |
| SessionLaws.EnrollChangesNothing | server-rs/src/db/device_queries.rs:94-107 | Enrolling a device adds its row and changes no answer |
| SessionLaws.SignInLasts | server-rs/src/auth.rs:358-379 | A token minted now is accepted, as its user's and device's, up to 3600 s and the leeway from now and no longer, unless someone logs it out, disables the device or changes the role |
| SessionLaws.LogoutHolds | server-rs/src/auth.rs:493-525 | A logout that went through holds until the token's own expiry, collection included, for either kind |
| SessionLaws.LogoutTouchesNoOther | server-rs/src/auth.rs:493-525 | It changes no answer about any other token, and a failed one none at all |
| SessionLaws.CollectionExactly | server-rs/src/db/jwt_revocation_queries.rs:32-42 | Collection leaves exactly the unexpired rows and changes no answer |
| SlidingSessions.MoreThanHalfLeft | server-rs/src/auth.rs:645-668 | A returned refresh token has strictly more than half its life left and keeps user and device; it is new, with all of its 24 hours, exactly when at most 12 were left; the access token is new and has its hour |
| SlidingSessions.NeverLapses | server-rs/src/auth.rs:625-669 | A chain of any length with refreshes at most 43200 s apart, other events in between, is answered every time |
| SlidingSessions.StillHeld | server-rs/src/auth.rs:631-635 | At its end the held token is unrevoked, has more than half its life left, and is for the same user and device |
| SlidingSessions.RotationRate | server-rs/src/auth.rs:646-650 | At most floor(T/43200) rotations happen in T seconds from the first mint |
| SlidingSessions.RefreshTokenLasts | server-rs/src/auth.rs:535-557 | A refresh token minted now is accepted for 24 hours and the leeway, and no longer, unless it is logged out or used |
| SlidingSessions.OneTokenAtATime | server-rs/src/auth.rs:652-665 | At any moment, between refreshes too: with every revocation written, of all tokens of the chain the last is accepted up to its expiry and leeway, and an older one exactly from its own expiry to the end of the leeway |
| SlidingSessions.TwoOnlyInTheWindow | server-rs/src/auth.rs:652-665 | Whenever two tokens of the chain are accepted at once, one of them is past its own expiry and within the leeway |
| SlidingSessions.TwoTokensExample | server-rs/src/auth.rs:597-607 | That window is reached: two refresh tokens of one chain are accepted at the same moment |
| AuthService.AuthService.GenerateJwtForDevice | server-rs/src/auth.rs:358-379 | The token minted is the specified one, and the run gains it |
| AuthService.AuthService.GenerateRefreshTokenForDevice | server-rs/src/auth.rs:535-557 | The same for refresh tokens |
| AuthService.AuthService.GcRevokedJtis | server-rs/src/db/jwt_revocation_queries.rs:35-42 | Takes the run's collection step |
| AuthService.AuthService.InvalidateUserTokensNow | server-rs/src/db/device_queries.rs:79-89 | Takes the run's role-change step |
| AuthService.AuthService.RevokeDevice | server-rs/src/db/device_queries.rs:158-165 | Takes the run's device-disabling step |
| AuthService.AuthService.GenerateChallenge | server-rs/src/auth.rs:222-243 | Takes the run's issue step, unbound |
| AuthService.AuthService.GenerateChallengeWithBinding | server-rs/src/auth.rs:208-243 | Takes the bound issue step, or refuses a key that is not 32 bytes and changes nothing |
| AuthService.AuthService.VerifyChallenge | server-rs/src/auth.rs:245-284 | Answer and new store are the run's, the challenge consumed on every path |
| AuthService.AuthService.VerifyChallengeBound | server-rs/src/auth.rs:293-349 | The same for the bound verifier, with its order of refusals |
| AuthService.AuthService.CleanupChallenges | server-rs/src/auth.rs:176-184 | Takes the run's sweep step |
| AuthService.AuthService.ValidateWsTicket | server-rs/src/auth.rs:699-712 | Answer and new ticket store are the run's |
| AuthService.AuthService.CleanupExpiredWsTickets | server-rs/src/auth.rs:716-721 | Takes the run's sweep step and returns how many tickets were no longer valid |
| AuthService.AuthService.ValidateJwtFull | server-rs/src/auth.rs:475-491 | The sequence of checks gives the specified answer |
| AuthService.AuthService.ValidateRefreshTokenFull | server-rs/src/auth.rs:571-616 | The sequence of checks gives the specified answer |
| AuthService.AuthService.RevokeToken | server-rs/src/auth.rs:496-525 | The table gains the jti under the token's own expiry, or nothing changes |
| AuthService.AuthService.RefreshWithSliding | server-rs/src/auth.rs:636-669 | Tokens, rotation flag and new table are the run's, with the best-effort revocation |
| DecryptionCaches.AnswersAreTrue | client/src/hooks/useMessageDecryption.ts:56-105 | In every run a read gives the plaintext its ciphertext was made from, the lock text or the wire text's placeholder, never another message's or an older version's text |
| DecryptionCaches.EmptyContentExactly | client/src/services/messageCache.ts:160-163 | An empty wire text is answered rightly exactly if the message has no readable cache entry, or one that reads like an answer |
| DecryptionCaches.EmptyContentExample | client/src/services/messageCache.ts:160-163 | An empty edit of a cached message is answered with the old text |
| DecryptionCaches.CachedRead | client/src/hooks/useMessageDecryption.ts:63-67 | After any honest run a durable entry answers with the true text and nothing changes |
| DecryptionCaches.SentRead | client/src/hooks/useMessageDecryption.ts:69-76 | The first echo takes the sent entry, locked or not, and answers and keeps the true text when the write goes through |
| DecryptionCaches.DecryptedRead | client/src/hooks/useMessageDecryption.ts:88-99 | Past both caches, unlocked and not in the memo, a successful decryption answers the true text, drops the failure on record and leaves the text readable |
| DecryptionCaches.LockedRead | client/src/hooks/useMessageDecryption.ts:78-79 | Past both caches and locked: the lock text, and nothing changes |
| DecryptionCaches.FailedRead | client/src/hooks/useMessageDecryption.ts:84-104 | Past both caches and unlocked, on memo or failure: the placeholder; a failing attempt is remembered and nothing else changes |
| DecryptionCaches.PlaceholderExactly | client/src/hooks/useMessageDecryption.ts:49-54 | Texts of at most 80 characters, or with a printable character no ciphertext has, stand for themselves; longer ones over the cipher alphabet are replaced |
| DecryptionCaches.CleanExactly | client/src/hooks/useMessageDecryption.ts:78 | The development prefix, and it alone, is taken off |
| DecryptionCaches.StoredReadableExactly | client/src/services/messageCache.ts:112-170 | A stored text is readable exactly under its own cache key and for its own wire text, and not after it was dropped |
| DecryptionCaches.FailedOnlyOnce | client/src/hooks/useMessageDecryption.ts:81-87 | Between key arrivals for its channel a failed (message, ciphertext) is never tried again, whatever else happens |
| SentCache.SentCacheBounded | client/src/hooks/useMessageDecryption.ts:118-123 | In every run the cache never exceeds 200 entries, ciphertexts being non-empty as `encryptChannel` makes them |
| SentCache.SendsKeepTheLatest | client/src/hooks/useMessageDecryption.ts:118-123 | Sends with new ciphertexts leave the last 200 of everything sent, in order |
| SentCache.FirstEcho | client/src/hooks/useMessageDecryption.ts:69-76 | The first echo of an own message gives its plaintext after any run with fewer than 200 further sends |
| SentCache.EchoLostExactly | client/src/hooks/useMessageDecryption.ts:69-123 | Over any run of further sends with unused ciphertexts, reads and other events, the entry is still there exactly if at no time 200 later messages were waiting for their own echo |
| SentCache.LaterReads | client/src/hooks/useMessageDecryption.ts:63-67 | A stored message is answered from the durable cache, without an attempt, until it is dropped or changes |
| MessageDecryption.MessageDecryption.ForgetDecryptFailure | client/src/hooks/useMessageDecryption.ts:43-47 | The loop deletes exactly one channel's entries |
| MessageDecryption.MessageDecryption.TryDecrypt | client/src/hooks/useMessageDecryption.ts:56-105 | Outcome and all three caches are those of the run's read step |
| MessageDecryption.MessageDecryption.TryEncrypt | client/src/hooks/useMessageDecryption.ts:107-126 | The cache takes the run's send step; locked or failing, it throws and changes nothing |
| PeerSessions.InvStep | client/src/services/crypto.ts:224-267 | Every step of every interleaving keeps: the table lists exactly the running set-ups, and a peer is ready exactly when one of its set-ups resolved |
| PeerSessions.OneSetupPerPeer | client/src/services/crypto.ts:229-265 | Of any two set-ups of one peer at least one has failed: never two running, never two resolved, none beside a resolved one |
| PeerSessions.ReturnedMeansReady | client/src/services/crypto.ts:230-266 | Every caller that returns normally finds its peer initialised |
| PeerSessions.StartsExactlyWhenNeeded | client/src/services/crypto.ts:230-265 | A call starts a set-up exactly if every earlier one of that peer has failed |
| PeerSessions.NobodyHangs | client/src/services/crypto.ts:260-266 | A waiting caller can be resumed or waits for a running set-up |
| PeerSessions.ThrewMeansFailed | client/src/services/crypto.ts:232-266 | A caller threw only because it was resumed behind a set-up of its own peer that had failed |
| PeerSessions.ResumedExactly | client/src/services/crypto.ts:232-266 | A waiting caller waits behind its own peer's set-up, and when resumed returns exactly if it resolved and throws exactly if it failed |
| PeerSessions.ReadyReturnsAtOnce | client/src/services/crypto.ts:229-233 | A call returns at once exactly if a set-up of its peer has resolved, and waits otherwise |
| PeerSessions.CryptoService.Ensure | client/src/services/crypto.ts:224-266 | The code up to the first await takes the machine's call step |
| PeerSessions.CryptoService.Settle | client/src/services/crypto.ts:258-262 | The end of a set-up, good or bad, takes the machine's settling step |
| PeerSessions.CryptoService.Resume | client/src/services/crypto.ts:232-266 | The continuation of the awaited promise takes the machine's resuming step |
| AuthUrl.UrlEncoding | client/src-tauri/src/auth_server.rs:219-232 | The loop over bytes computes the specified encoding |
| AuthUrl.DecodeEncode | client/src-tauri/src/auth_server.rs:219-232 | A form decoder recovers every byte string |
| AuthUrl.UrlEncodeInjective | client/src-tauri/src/auth_server.rs:219-232 | Different texts have different encodings |
| AuthUrl.EncodedForm | client/src-tauri/src/auth_server.rs:221-229 | Only unreserved characters and `%XX` with upper-case digits come out (sections 2.1 and 2.3 of RFC 3986) |
| AuthUrl.UnencodedExactly | client/src-tauri/src/auth_server.rs:223-225 | A text stands for itself exactly if every byte is an unreserved character |
| AuthUrl.UrlSafeRoundTrip | client/src-tauri/src/auth_server.rs:234-236 | Padded base64 is recovered from its URL-safe form (sections 4 and 5 of RFC 4648) |
| AuthUrl.RegisterUrlIsPrinted | client/src-tauri/src/auth_server.rs:89-104 | The register URL is the address followed by the printed parameter list |
| AuthUrl.LoginUrlIsPrinted | client/src-tauri/src/auth_server.rs:107-123 | The login URL is the address followed by the printed parameter list |
| AuthUrlReading.QueryReadsExactly | client/src-tauri/src/auth_page.html:238-244 | A printed parameter list, split and form-decoded, reads back as meant exactly if every value printed unescaped holds no `&`, `#`, `+`, tab or line break and no `%` with two hex digits |
| AuthUrlReading.RegisterUrlExactly | client/src-tauri/src/auth_server.rs:89-104 | For any nonce and salt text the register URL reads back exactly if these two survive; the user name may hold anything |
| AuthUrlReading.LoginUrlExactly | client/src-tauri/src/auth_server.rs:107-123 | The same for the login URL; the credential list may hold anything |
| AuthUrlReading.RegisterUrlRoundTrip | client/src-tauri/src/auth_server.rs:52-104 | A URL-safe nonce decodes to itself, and port, user name bytes and padded base64 salt are recovered |
| AuthUrlReading.LoginUrlRoundTrip | client/src-tauri/src/auth_server.rs:107-123 | The same for the login URL and its credential list |
| MessageGroups.GroupMessages | design_handoff_dilla_mesh/chat-app.jsx:20-35 | Flattening the groups gives the input back in order; every group is valid and could not have taken the next message |
| MessageGroups.GreedyIsOptimal | design_handoff_dilla_mesh/chat-app.jsx:21-31 | No cut of the messages into valid stacks has fewer parts, for times in any order |
| MessageGroups.GreedyIsUnique | design_handoff_dilla_mesh/chat-app.jsx:24-33 | Two groupings with these properties of the same messages are equal |
| Reactions.AddReaction | client/src/hooks/useChannelEvents.ts:232-241 | The find-and-extend code computes the specified list |
| Reactions.AddCorrect | client/src/hooks/useChannelEvents.ts:228-243 | Adding keeps emojis unique, users distinct, counts exact and entries non-empty, and adds exactly the one pair |
| Reactions.RemoveAt | client/src/hooks/useChannelEvents.ts:252-254 | A removal changes or drops only the entry of its emoji |
| Reactions.RemoveCorrectExactly | client/src/hooks/useChannelEvents.ts:75-82 | A removal keeps the list valid and removes exactly its pair if and only if the pair is there or the emoji has no entry |
| Reactions.AddInPlace | client/src/hooks/useChannelEvents.ts:232-241 | An added user goes to the end of its emoji's entry, a new emoji to the end of the list, and nothing else moves |
| Reactions.RemoveInPlace | client/src/hooks/useChannelEvents.ts:252-254 | A removed user leaves users and entries in order; the entry goes with its last user |
| Reactions.RunRefinesSet | client/src/hooks/useChannelEvents.ts:226-257 | Over every run of additions and removals of present pairs the list is valid and stands for exactly the pairs added and not removed since |
| Roles.UpdateCommutesWithResolve | client/src/hooks/useTeamSync.ts:475-492 | A live role update of resolved members equals resolving after the raw ids changed |
| Roles.ResolvedMembers | client/src/hooks/useTeamSync.ts:130-143 | Resolving keeps members, order and ids, and flags exactly those with a resolved role whose lowest bit is set |
| Roles.ResolvedInOrder | client/src/hooks/useTeamSync.ts:134-139 | Each role id gives the last listed role with that id, in the order of the ids |
| Roles.UnknownIdIsDropped | client/src/hooks/useTeamSync.ts:137-139 | An id that no role has gives nothing, and the others keep their places |
| Roles.MeExactly | client/src/hooks/usePermissions.ts:40 | The member found has the asked user id, and one is found exactly if the id is not empty and some member has it |
| Roles.OrAllShares | client/src/hooks/usePermissions.ts:41 | The OR-folded bitmask shares a bit with a mask exactly if some role does |
| Roles.PermissionsExact | client/src/hooks/usePermissions.ts:36-48 | Stored flag and bitmask agree on who is an admin; `has` holds exactly if some role is admin or shares a bit with the mask, and so for the raw bits; an absent or unknown user has nothing |

## Left out

- Peers that leave and rejoin, lost messages, a failing `getSenderKeyDistribution` and distributes dropped before crypto is ready: the exchange promises no completeness there. The readiness drop itself is in `OnDistribute`.
- Several teams on one client, and the ratchet state inside a payload: of a payload only the named identity is read.
- A client's own entry in its group session, made when the session is created, and keys filed by the rotation after a member left.
- Cryptography, JWT text encoding, HKDF, random generation and SQL: parameters, values or maps.
- Database read errors in validation, which become internal errors: reads always succeed in the model.
- Tokens without a jti, minted by older versions: the validators handle them, the runs do not mint them.
- `refresh_with_sliding` reads the wall clock several times; one refresh happens at one instant in the model.
- Bootstrap and invite tokens, `refresh_access_token` and the other thin wrappers of the service: easy members.
- Floating-point rounding, tensor shapes within a frame, ONNX export and weight inlining: frames are exact values.
- `tryDecrypt` and `tryEncrypt` are atomic: two overlapping calls for one echo can race between the durable lookup and the deletion.
- The hash of a wire text in the durable cache: the text itself stands for it.
- Text lengths are counted in characters, where JavaScript counts UTF-16 units.
- `resetCrypto`, `ensureChannelSession` and a set-up that throws before its first `await`, whose promise would be recorded after its own clean-up.
- Object identity of groups and reaction entries: they are values, so `last` is the last element of the result and no alias is modelled.
- Finding the message of a reaction event and storing the new list: the handler's list in and list out are modelled.
- The JSON text of the credential list is an input. Values are read as bytes, before UTF-8 decoding; a base URL with a `?`, `#`, tab or line break of its own is outside, and so is what a browser normalises in the address.
- Start-up, transport, hub rooms, SFU, stores and user interface.
