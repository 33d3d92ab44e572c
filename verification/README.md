# Verified model of the messaging engine

This project models the end-to-end encrypted messaging engine, the device-sync protocol and the
server-side state they rely on, and proves properties of the model with Dafny 4.11. Check everything
with `dafny verify dfyconfig.toml`.

Where the source changes state in place, the model has a class or a loop whose methods are proved
equal to a function of the old state (`RatchetState`, `RatchetStore`, `ByteParser`, `LockMap`, `CryptoDb`,
`TargetReceiver`, `WsRateLimiter`, `SyncSessionService`, `ChatGateway`, `AuthService`, the buffer-filling
methods). The theorems are about runs of those functions.

| files | what they cover |
|---|---|
| `Symbolic` | keys, Diffie-Hellman, boxes, what an observer can derive |
| `DoubleRatchet`, `Worker` | the ratchet object and the worker's operations on a stored session |
| `TwoParty`, `TwoPartyInvariant`, `Delivery`, `ForwardSecrecy` | two parties over a hostile network: the invariant and what follows from it |
| `Spoiling` | the ratchet object without the worker's rollback |
| `OneSession`, `Rebuilding` | one session, whatever it is given; a responder that starts its session anew |
| `ByteCodec`, `RatchetCodec`, `StoredSessions`, `Frames` | byte layouts: the cursor parser, the stored session, messages, additional data, INIT frames |
| `X3dh` | key agreement through its byte layouts |
| `Locks`, `Sessions`, `SessionRuns` | the promise-chain lock and concurrent `drEncrypt`/`drDecrypt` calls over the session store |
| `EndToEnd`, `Establishment` | the calls of two clients as a run of `TwoParty`, and how bundle, key agreement and first frame start it |
| `Restarts` | exactly-once and authenticity of `drDecrypt` in every run, with INIT parts from anybody |
| `Manifest`, `SyncRecords`, `SyncTransfer`, `SyncTarget`, `Transfer` | VSP-1: manifest, records, the sending side, the asynchronous receiving side, and the whole from database to database |
| `SyncSessions`, `RateLimiter`, `AuthSessions` | server state machines |
| `PinBlob` | PIN-protected key blobs |

## Assumptions

- Cryptography is symbolic in the ratchet files: KDF halves are free constructors, a DH output is the
  unordered pair of the two secrets' names, a box opens only under its own key, nonce and additional
  data. The network can put any header, any additional data and junk around boxes that were really
  sealed, and can seal boxes itself under every key that does not come from the shared secret
  (`Unforged`; by `OwnBoxesAllowed`, whatever it derives from secrets of its own and all DH secrets).
  In the byte-level files X25519, Ed25519, HKDF, SHA-256, HMAC, AES-GCM, LZ4, Argon2id and JSON
  are function parameters with the inverse laws each lemma states. The lemmas on what the X3DH key binds
  assume besides that exchanged secrets are 32 bytes and differ for different public keys (`Exchanges`);
  collisions of HKDF are not assumed away but shown (`Collide`).
- Names of generated keys are arguments (`gen`); a generated key's name differs from every name that
  occurred before it (`FreshKeys`, and `Enabled` in `TwoParty`). In `Establishment` a function gives the
  bytes of a public key their name, sealed terms are written as bytes and read back unchanged (`View`),
  and the shared key is `Seed` of its bytes.
- `EndToEnd` (not `Restarts`) is about conversations with one initiator and without restarts: only party 0
  starts a session by encrypting, only party 1 from an INIT part, only while it has none, and every INIT
  part whose attempt is saved is the agreed one (`Permitted`). The code ensures none of this: an INIT part
  names its own identity key, and nothing authenticates it. The saves of both clients are given in an order
  that agrees with each client's own (`Joined`).
- `Restarts` assumes none of that. It assumes that the key agreement returns byte strings (`SeededOps`), and
  for authenticity that boxes under keys that come from the agreed secret are the two clients' own
  (`NobodyElse`) and that under that secret each client keeps its side (`Roles`).
- In a device transfer only the source seals under the session key (`Possible`, `Network`), no exported
  record is itself a manifest with a valid MAC under that key (`NoForgedManifest`), sealed chunks are
  written as bytes and read back unchanged (`Sealing`), and a record is written when its import ends.
- A release build is modelled: `ns` and `nr` wrap at 2^32 and the skip bound saturates. A run lets a
  party send only while its counter is below 2^32 - 1.
- Server handlers, and the parts of client calls between two `await`s, are atomic steps.
- Storage keys are the UTF-8 bytes of the key string; the order in which a map is listed is arbitrary.
- The clock handed to the rate limiter does not go back.

## Results that differ from what the code or its documents suggest

- A failed `decrypt` changes the ratchet object; only because the worker drops it does the session
  survive. `SpoilsExactly` says which headers then make a waiting genuine message unreadable for good, and
  which do not; `RollbackIsNeeded`, that an altered copy under the unchanged header always does. (The exact
  form needs `nr + MAX_SKIP` below 2^32 - 1, where the source's sum does not saturate.)
- docs/ARCHITECTURE.md:353 says nothing is imported before the manifest is verified. The code imports
  each record when its chunk arrives, and records a hash before its import is awaited:
  `AcceptanceMayPrecedeImport` gives an accepted transfer whose only record is not yet imported.
  `CompleteExactly` gives the condition under which acceptance means that all are imported, and
  `AcceptedStores` what the target's stores hold in any case.
- `drDecrypt` does not return at most once for a frame. In every run of a client a second return for one
  frame comes with a restart: the session was started anew from an INIT part since the first
  (`ReturnedAgain`). `OpenedTwice` is a run in which a frame without INIT part of its own is returned twice,
  after a replay of the first frame. A restart from the agreed INIT part opens exactly the messages of the
  first chain within MAX_SKIP of its start, opened before or not (`RestartOpens`, `FirstChainAgain`), and then
  the others up to MAX_SKIP past that message (`ReopensAfterRestart`). Within one session a frame opens once
  (`OpenedAgain`, `ExactlyOnce`).
- `drDecrypt` does not tell who made an INIT part. For every INIT key of another origin than the stored
  session some frame is accepted, whose plaintext the call returns and whose session replaces the stored one
  (`AnyInitAccepted`, `AnyInitReplaces`); only the agreed INIT part gives none but the peer's plaintexts
  (`InitKeyDecides`). What is returned in a session that comes from the agreed key is the peer's, in every
  run (`ReturnedInSession`).
- `from_bytes` accepts a session with a receiving chain and no remote key, on which a later `decrypt` aborts
  for some message (`AbortsExactly`); `ParsedUsableExactly` says for which bytes. `to_bytes` casts the cache
  size to 32 bits and key lengths to 16; `SerializationRoundTrip` holds exactly when they fit, as they do in
  every run of up to two million actions (`ReachableRoundTrips`).
- Chunk frames may be replayed: the additional data fixes a chunk's place, not its freshness. A replay is
  opened and imported again, and `AcceptanceIsExact` holds regardless.
- The manifest count is cast to 32 bits; `ManifestRoundTrip` holds exactly below 2^32 entries, and beyond
  that a manifest is rejected by its own verifier.
- A record's key length is cast to 16 bits and records shorter than four bytes are refused;
  `RecordArrives` and `RecordRoundTrip` give the exact conditions under which a record arrives, and
  arrives unchanged.
- The manifest buffers are sized by a count taken before the export: `RunSourceTransfer` fails exactly when
  more records come than were counted.
- The socket index holds one session per socket. `DisconnectMayLeaveSession` shows a socket that starts
  two sessions and leaves one behind when it disconnects; `DisconnectEndsAll` gives the exact condition,
  and `SingleSessionEnds` that one session per socket suffices.
- Expired sessions stay in the refresh table: the deletion in `refresh` is undone by the exception thrown in
  the same transaction. `Refresh` leaves the table unchanged in that case.
- A replayed refresh token is reported as reuse only while its direct successor is current
  (`ReuseReportedExactly`); it is refused in any case.
- `retryAfter` is exact for a positive limit; with a limit of zero no wait helps (`RetryAfterIsExact`).
- docs/ARCHITECTURE.md:92 says all ratchet and group operations hold the lock. Group decryption
  (client/src/hooks/useE2E.ts:778-796) does not; nothing is claimed about it.

## Model

| member | source | states |
|---|---|---|
| `DoubleRatchet.RatchetState.InitSender` | crypto/core/src/double_ratchet.rs:115-134 | Alice's state after X3DH: root and sending chain from her fresh pair and Bob's prekey, no receiving chain, zero counters |
| `DoubleRatchet.RatchetState.InitReceiver` | crypto/core/src/double_ratchet.rs:139-151 | Bob's state: root is the shared key, no chains, no remote key |
| `DoubleRatchet.RatchetState.DhRatchet` | crypto/core/src/double_ratchet.rs:158-178 | The whole new state: receiving chain from the old pair, sending chain from the new one, root advanced twice, counters moved |
| `DoubleRatchet.RatchetState.SkipMessageKeys` | crypto/core/src/double_ratchet.rs:184-217 | The loop caches exactly the keys of the skipped positions and advances the chain by their number; the MAX_SKIP error and the no-chain case leave the state alone |
| `DoubleRatchet.RatchetState.Encrypt` | crypto/core/src/double_ratchet.rs:224-245 | Box, header and state after one sending step; InvalidKey without a sending chain |
| `DoubleRatchet.RatchetState.Decrypt` | crypto/core/src/double_ratchet.rs:250-288 | Result and mutated state in every branch, failing ones included |
| `DoubleRatchet.ChainSliceHas` | crypto/core/src/double_ratchet.rs:206-214 | The cached keys are those of positions nr to until-1 of the chain, each the message key of its position |
| `DoubleRatchet.ChainSliceSize` | crypto/core/src/double_ratchet.rs:206-214 | As many keys as positions |
| `DoubleRatchet.SkipGrowth` | crypto/core/src/double_ratchet.rs:184-217 | One skip adds at most MAX_SKIP cache entries |
| `DoubleRatchet.DecryptCacheGrowth` | crypto/core/src/double_ratchet.rs:250-288 | One decrypt adds at most 2*MAX_SKIP cache entries, for any header and state |
| `DoubleRatchet.RefusalsExactly` | crypto/core/src/double_ratchet.rs:184-288 | Which error decrypt gives, for any header and state: the skip limit of 1000 exceeded, no receiving chain, or a box that does not open |
| `DoubleRatchet.EncryptNumbers` | crypto/core/src/double_ratchet.rs:224-245 | Encryption fails exactly without a sending chain; numbers wrap at 2^32 |
| `DoubleRatchet.ReceiveNumbers` | crypto/core/src/double_ratchet.rs:270-288 | The receiving position after a message, wrapping at 2^32 |
| `Worker.RatchetEncrypt` | client/src/workers/crypto.worker.ts:107-113 | A failed call returns no new session; a successful one the box with the advanced session |
| `Worker.RatchetDecrypt` | client/src/workers/crypto.worker.ts:114-120 | The mutated session is handed back only on success |
| `TwoParty.MessageKeyInjective` | crypto/core/src/double_ratchet.rs:18-40 | Different chains or positions have different message keys, whatever the prekeys are |
| `TwoPartyInvariant.InitialInv` | crypto/core/src/double_ratchet.rs:115-151 | The two initial states satisfy the invariant |
| `TwoPartyInvariant.SkipInv` | crypto/core/src/double_ratchet.rs:184-217 | Skipping keeps conservation: passed positions become cached ones |
| `TwoPartyInvariant.TakeInv` | crypto/core/src/double_ratchet.rs:274-287 | Taking the next key keeps conservation: the position becomes accepted |
| `TwoPartyInvariant.RatchetInv` | crypto/core/src/double_ratchet.rs:158-178 | The DH step turns the party that was one chain behind into the owner of the newest chain |
| `TwoPartyInvariant.ReceiveOpens` | crypto/core/src/double_ratchet.rs:270-288 | If a logged box opens on the receiving chain, it is that chain's message at that position, unaltered, and was not accepted |
| `TwoPartyInvariant.RatchetOpens` | crypto/core/src/double_ratchet.rs:262-288 | If a logged box opens after a DH step, its header is genuine and starts the peer's newest chain |
| `TwoPartyInvariant.CachedOpens` | crypto/core/src/double_ratchet.rs:257-262 | If a logged box opens under a cached key, it is the message of that slot, and the slot becomes accepted |
| `TwoPartyInvariant.DeliverOk` | client/src/workers/crypto.worker.ts:114-120 | A successful delivery opened exactly one logged message of the peer and keeps the invariant |
| `TwoPartyInvariant.SendInv` | crypto/core/src/double_ratchet.rs:224-245 | Sending keeps the invariant of both parties and the log |
| `TwoPartyInvariant.StepInv` | client/src/workers/crypto.worker.ts:107-120 | Every action keeps the two-party invariant |
| `TwoPartyInvariant.RunInv` | client/src/workers/crypto.worker.ts:107-120 | The invariant holds in every state of every run |
| `Delivery.DeliverySucceeds` | crypto/core/src/double_ratchet.rs:250-288 | A message of the peer not yet accepted opens when its gaps are within MAX_SKIP |
| `Delivery.DeliveryExact` | crypto/core/src/double_ratchet.rs:158-288 | In every reachable state a sent message opens, to exactly its plaintext, if and only if it was not accepted before and its gap (both gaps for a new chain) is within MAX_SKIP |
| `Delivery.DeliveryInNumbers` | crypto/core/src/double_ratchet.rs:12-12 | The same with the number: gaps of up to 1000 messages are bridged and no larger ones |
| `TwoParty.OwnBoxesAllowed` | crypto/core/src/double_ratchet.rs:18-40 | The network may inject boxes sealed under any key derivable from seeds of its own and all DH secrets |
| `TwoPartyInvariant.TriedOrigin` | crypto/core/src/double_ratchet.rs:250-288 | Every key a receiver tries, on any header, comes from the shared secret |
| `Delivery.AcceptedIsAuthentic` | crypto/core/src/double_ratchet.rs:250-299 | Whatever is injected, boxes sealed under the network's own keys included, an accepted message is one the peer sent, unaltered and not accepted before |
| `Delivery.ExactlyOnce` | client/src/workers/crypto.worker.ts:114-120 | An accepted message fails in every later state and the stored sessions stay as they are |
| `Delivery.StateIgnoresCiphertext` | crypto/core/src/double_ratchet.rs:250-288 | The state after decrypt depends on the header alone, not on whether the box opens |
| `Delivery.MessageKeysUnique` | crypto/core/src/double_ratchet.rs:224-245 | No two encryptions of a run, by either party, use the same message key |
| `Delivery.Conservation` | crypto/core/src/double_ratchet.rs:184-217 | On every chain seen, passed positions are the disjoint union of accepted and cached ones, cached keys are the sender's, nothing is cached elsewhere |
| `Delivery.OneChainBehind` | crypto/core/src/double_ratchet.rs:158-178 | The parties are never more than one chain apart, and hold the key pairs of their chains |
| `Spoiling.SpoiltForGood` | crypto/core/src/double_ratchet.rs:250-288 | Once something whose header spoils it was decrypted without rollback, a genuine message fails after any further decryptions without rollback |
| `Spoiling.UnspoiltOpens` | crypto/core/src/double_ratchet.rs:250-288 | Under every other header it still opens, to its plaintext |
| `Spoiling.SpoilsExactly` | crypto/core/src/double_ratchet.rs:250-288 | In every reachable state a waiting message can never be read again after a decryption without rollback if and only if the header of what was decrypted spoils it |
| `Spoiling.RollbackIsNeeded` | crypto/core/src/double_ratchet.rs:250-288 | Without the worker's rollback an altered copy with the same header fails and makes the genuine message fail after any further decryptions |
| `ForwardSecrecy.AcceptedKeyUnderivable` | crypto/core/src/double_ratchet.rs:158-178 | The key of an accepted message is not derivable from the receiver's stored state, even given every DH secret |
| `ForwardSecrecy.LongTermKeysExposeFirstChainOnly` | crypto/core/src/double_ratchet.rs:139-151 | With the X3DH secret and the prekey secret added, an accepted key is derivable if and only if its message is on the first chain |
| `Symbolic.DerivableIsLeastClosure` | crypto/core/src/double_ratchet.rs:18-40 | The derivability predicate is the least set closed under the KDFs |
| `OneSession.SoundDecrypt` | crypto/core/src/double_ratchet.rs:250-288 | Whatever is decrypted, a session keeps its pattern of keys, and the key that opened a box is behind it and not cached |
| `OneSession.OpenedAgain` | client/src/hooks/useE2E.ts:222-275 | Among the saves of a conversation, with no assumption on frames or names, a frame opened before opens again only if the session was started anew from an INIT part since, if only by opening it |
| `OneSession.ReplayStart` | client/src/hooks/useE2E.ts:187-275 | A stored session comes from the shared secret of its last start, as sender or receiver |
| `OneSession.AuthenticOpening` | client/src/hooks/useE2E.ts:187-275 | Among the saves of two clients, restarts and foreign INIT parts included, what opens in a session that comes from the agreed secret is a message of the peer, unaltered |
| `Rebuilding.RestartOpens` | client/src/hooks/useE2E.ts:252-264 | In the responder's first state a message of the conversation opens if and only if it is on the first chain with a number up to MAX_SKIP, opened before or not |
| `Rebuilding.RestartLeaves` | client/src/hooks/useE2E.ts:252-264 | The session left behind by starting anew from such a message |
| `Rebuilding.ReopensAfterRestart` | client/src/hooks/useE2E.ts:222-275 | After starting anew from a message, exactly the other first-chain messages up to MAX_SKIP past it open, opened before or not |
| `ByteCodec.ByteParser.ReadBytes` | crypto/core/src/utils.rs:171-179 | Reads n bytes off what is left, or fails and moves nothing |
| `ByteCodec.ByteParser.ReadU8` | crypto/core/src/utils.rs:144-151 | Reads one byte off what is left |
| `ByteCodec.ByteParser.ReadU16` | crypto/core/src/utils.rs:153-155 | Reads a big-endian 16-bit integer |
| `ByteCodec.ByteParser.ReadU32` | crypto/core/src/utils.rs:157-159 | Reads a big-endian 32-bit integer |
| `RatchetCodec.ToBytes` | crypto/core/src/double_ratchet.rs:310-338 | The loop writes the layout of the stored session for any listing of the cache |
| `RatchetCodec.FromBytes` | crypto/core/src/double_ratchet.rs:340-373 | Parsing with the cursor is the stored layout's parser on any bytes, in range and terminating |
| `RatchetCodec.SerializationRoundTrip` | crypto/core/src/double_ratchet.rs:310-373 | from_bytes(to_bytes(s)) == s, for every listing of the cache, if and only if the cache size fits 32 bits and its key lengths fit 16 |
| `RatchetCodec.ParsedStateBound` | crypto/core/src/double_ratchet.rs:340-373 | On arbitrary bytes an accepted session has fields of the right lengths, counts that fit, and 84 + 38 * cached entries is at most the input length |
| `RatchetCodec.ParsedUsableExactly` | crypto/core/src/double_ratchet.rs:340-373 | Of the accepted byte strings exactly those whose flags announce a receiving chain and no remote key give a session that cannot be used |
| `StoredSessions.AbortsExactly` | crypto/core/src/double_ratchet.rs:184-204 | Some message makes decrypt abort on the missing remote key if and only if there is a receiving chain, no remote key, and a position left to skip |
| `StoredSessions.UsableAsRepresented` | crypto/core/src/double_ratchet.rs:198-203 | The stored form of a session is usable exactly when the session has its remote key with its receiving chain |
| `StoredSessions.CacheOfRun` | crypto/core/src/double_ratchet.rs:250-288 | After j actions of a run a session caches at most 2*MAX_SKIP*j keys |
| `StoredSessions.ReachableRoundTrips` | client/src/workers/crypto.worker.ts:107-120 | Every session of a run of up to two million actions comes back from its stored form as it was, and is usable |
| `RatchetCodec.ResumeCommutes` | client/src/workers/crypto.worker.ts:107-120 | Resuming from the stored bytes gives the same results of encrypt and decrypt as the session itself |
| `Frames.MessageLayout` | crypto/wasm/src/lib.rs:218-243 | Message bytes are exactly dh, pn, n, ciphertext: both round trips, and refusal of fewer than 40 bytes |
| `Frames.AadLayout` | crypto/core/src/double_ratchet.rs:54-75 | The additional data are the caller's bytes followed by the 40 header bytes |
| `Frames.AadInjective` | crypto/core/src/double_ratchet.rs:54-75 | The additional data determine the header and the caller's bytes |
| `Frames.NonceInjective` | crypto/core/src/double_ratchet.rs:63-67 | Different message numbers give different nonces |
| `Frames.NonceLayout` | crypto/core/src/double_ratchet.rs:63-67 | Twelve bytes: the message number big-endian, then zeros |
| `Frames.BuildFrame` | client/src/hooks/useE2E.ts:213-218 | The buffer writes produce flag, optional INIT part and message, all in range |
| `Frames.FrameRoundTrip` | client/src/hooks/useE2E.ts:222-265 | The receiver splits a frame into the parts it was built from |
| `Frames.AnyFrame` | client/src/hooks/useE2E.ts:222-265 | How any received bytes are taken apart |
| `X3dh.DeriveSk` | crypto/core/src/x3dh.rs:96-102 | The loop feeds the KDF the prefix followed by the DH outputs in order |
| `X3dh.FixedInputs` | crypto/core/src/x3dh.rs:82-102 | The key material starts with 32 bytes 0xFF, the salt is 32 zero bytes and the info is "X3DH" |
| `X3dh.SendGives` | crypto/core/src/x3dh.rs:40-70 | The sender's key is derived from DH(IK_A, SPK_B), DH(EK_A, IK_B), DH(EK_A, SPK_B) and, if the bundle has one, DH(EK_A, OPK_B), in this order, by the bytes of the bundle |
| `X3dh.ReceiveGives` | crypto/core/src/x3dh.rs:72-93 | The receiver's key is derived from the mirrored secrets, by the INIT bytes |
| `X3dh.KeyBindsInitiator` | crypto/core/src/x3dh.rs:72-102 | Two INIT messages that give a responder the same key carry the same identity and ephemeral key, or are an explicit collision of the KDF |
| `X3dh.KeyBindsBundle` | crypto/core/src/x3dh.rs:40-70 | Two bundles that give a sender the same key have the same identity key, prekey and one-time prekey if any, or are an explicit collision |
| `X3dh.KeyBindsResponder` | crypto/core/src/x3dh.rs:72-102 | Two responders that derive the same key from one INIT message have the same public keys, or are an explicit collision |
| `X3dh.BuildBundle` | client/src/hooks/useE2E.ts:134-142 | The writes fill the 161-byte bundle with no one-time prekey |
| `X3dh.BundleParses` | crypto/wasm/src/lib.rs:109-126 | A published bundle parses to the keys it was made from, with and without a one-time prekey |
| `X3dh.Agreement` | crypto/core/src/x3dh.rs:40-93 | For every identity and bundle both sides derive the same key, through the 161-, 97- and 65-byte layouts |
| `X3dh.SendAccepts` | crypto/core/src/x3dh.rs:40-44 | Sending succeeds exactly when the secret is 32 bytes, the bundle parses and the prekey signature verifies |
| `X3dh.ReceiveAccepts` | crypto/core/src/x3dh.rs:72-80 | Which INIT bytes and secrets are accepted, and with which error the others are refused |
| `X3dh.OpkMismatchRefused` | crypto/core/src/x3dh.rs:78-80 | A receiver accepts if and only if it has a one-time prekey exactly when the bundle had one, and otherwise refuses with InvalidKey |
| `Restarts.ReturnedAgain` | client/src/hooks/useE2E.ts:222-275 | In every run of a client, when two calls return for the same frame, a save between them, or the second one's, started the session anew from an INIT part |
| `Restarts.OpenedTwice` | client/src/hooks/useE2E.ts:231-275 | Four calls: first frame, second frame, first frame again, second frame again, without INIT part; all return |
| `Restarts.FirstChainAgain` | client/src/hooks/useE2E.ts:246-264 | Any first-chain message within MAX_SKIP, sent with the agreed INIT part, gives its plaintext every time, starting the session anew where the stored one refuses it |
| `Restarts.AnyInitAccepted` | client/src/hooks/useE2E.ts:246-264 | For every INIT key of another origin than the stored session, or with none stored, there is a frame whose plaintext is returned and whose session replaces the stored one |
| `Restarts.AnyInitReplaces` | client/src/hooks/useE2E.ts:246-264 | The same for a client's stored session in every state of every run |
| `Restarts.ReturnedInSession` | client/src/hooks/useE2E.ts:187-275 | In every run of two clients, restarts and INIT parts from anybody included, what a call returned in a session that comes from the agreed secret is the plaintext of a `drEncrypt` call of the peer, whose ciphertext its frame carried |
| `Restarts.InitKeyDecides` | client/src/hooks/useE2E.ts:246-264 | The responder gets none but the peer's plaintexts from frames with a given INIT key, boxes of the network's own included, if and only if it is the agreed key |
| `Locks.LockMap.WithLock` | client/src/hooks/useE2E.ts:124-129 | A call is chained on the tail the map holds for its key and becomes the tail |
| `Locks.CallOrder` | client/src/hooks/useE2E.ts:126-127 | A call has started only if every earlier call on its key has settled, fulfilled or rejected |
| `Locks.RefinesQueues` | client/src/hooks/useE2E.ts:124-129 | The promise chains refine one FIFO queue per key: a call enqueues on its own key only, settling removes the head only |
| `Locks.RunningIsHead` | client/src/hooks/useE2E.ts:124-129 | The running call is the head of its key's queue |
| `Locks.NoOverlap` | client/src/hooks/useE2E.ts:124-129 | Two different calls on one key never run at the same time |
| `Locks.HeadProgresses` | client/src/hooks/useE2E.ts:126-127 | The head of a queue is running or can start, even after rejections |
| `Sessions.RatchetStore.DrEncrypt` | client/src/hooks/useE2E.ts:187-220 | One call between lock and release: result and stored session in every branch, other conversations untouched |
| `Sessions.RatchetStore.DrDecrypt` | client/src/hooks/useE2E.ts:222-275 | The same for decryption: the stored session first, then the one the INIT part starts |
| `Sessions.SequentialKeysUnique` | client/src/hooks/useE2E.ts:187-275 | In a sequence of saves over any conversations, sessions rebuilt from INIT included, no two encryptions share a message key |
| `SessionRuns.AloneIsTried` | client/src/hooks/useE2E.ts:187-275 | The interleaved steps of a call, taken without interruption, are that call |
| `SessionRuns.StepInv` | client/src/hooks/useE2E.ts:187-275 | Every interleaved step of concurrent calls keeps the invariant tying store, lock and history |
| `SessionRuns.SaveIsCall` | client/src/hooks/useE2E.ts:187-275 | Each save is the operation of the call that made it, applied on its own to the session stored before, or the INIT attempt of a retry |
| `SessionRuns.RetriedAfterFailedSave` | client/src/hooks/useE2E.ts:229-275 | A call retries with its INIT part only after the save of its attempt with the stored session failed |
| `SessionRuns.StoreIsSequential` | client/src/hooks/useE2E.ts:187-275 | In every run the store is the result of the saves, which are in call order; each is its call's operation on the session stored before, and a returned value, null included, is what that operation gives there |
| `SessionRuns.StoreIsTheCalls` | client/src/hooks/useE2E.ts:187-275 | On a conversation without retries the stored session is the sequential application of the operations of the saved calls, each once and in call order |
| `SessionRuns.CallCompletes` | client/src/hooks/useE2E.ts:187-275 | A call whose turn it is and whose load and save succeed ends as its operation says: it returns after storing the new session, returns null, or rejects and leaves the store |
| `SessionRuns.FailedSaveRetries` | client/src/hooks/useE2E.ts:239-264 | A decryption whose save with the stored session fails goes on to its INIT part and comes to its end from there |
| `SessionRuns.ReturnedKeysUnique` | client/src/hooks/useE2E.ts:208-218 | With concurrent calls and failing loads and saves, no two returned ciphertexts, of the same or of different conversations, share a message key |
| `EndToEnd.ClientsAreParties` | client/src/hooks/useE2E.ts:187-275 | While no session is started anew and every saved INIT part is the agreed one, the stored sessions of two clients under concurrent calls are the two states of a run of the two-party system |
| `EndToEnd.OpeningIsAuthentic` | client/src/hooks/useE2E.ts:222-275 | Under the same hypothesis, the plaintext a saved decryption gave was encrypted by an earlier save of the peer, with the same ciphertext |
| `EndToEnd.ReturnedIsAuthentic` | client/src/hooks/useE2E.ts:187-275 | Under the same hypothesis, what a `drDecrypt` call returned is the plaintext of a `drEncrypt` call of the peer whose ciphertext its frame carried |
| `EndToEnd.ReturnedOnce` | client/src/hooks/useE2E.ts:222-275 | Under the same hypothesis, no two `drDecrypt` calls of a client return for the same frame |
| `EndToEnd.InitOpens` | client/src/hooks/useE2E.ts:252-264 | A session started from an INIT key reads a message of the conversation if and only if the key is the agreed one and the message is on the first chain within MAX_SKIP |
| `EndToEnd.FrameDelivers` | client/src/hooks/useE2E.ts:231-275 | After saves under the same hypothesis, a frame with or without any INIT part whose ciphertext the peer's call returned gives exactly that call's plaintext if and only if the stored session can open it (position not opened before, gap within MAX_SKIP) or it carries the agreed INIT part and is on the first chain within MAX_SKIP; with the session stored afterwards in every case |
| `Establishment.FirstContactIsRun` | client/src/hooks/useE2E.ts:193-275 | However many messages the initiator sent before, only its first carries the INIT part, and handling that frame gives its plaintext and a state of a two-party run |
| `Establishment.SessionEstablished` | client/src/hooks/useE2E.ts:187-275 | Bundle bytes, X3DH and frame bytes: the responder derives the initiator's key from the first frame and its own secrets, reads the first plaintext and holds the matching session, whatever was sent before |
| `Manifest.BuildManifest` | crypto/core/src/device_sync.rs:214-228 | The loop writes version, truncated count, entries and MAC |
| `Manifest.VerifyManifest` | crypto/core/src/device_sync.rs:234-274 | The checks and the loop compute the verifier on any bytes |
| `Manifest.ManifestRoundTrip` | crypto/core/src/device_sync.rs:214-274 | Verification returns the built entries if and only if their number fits 32 bits, and otherwise refuses |
| `Manifest.ManifestCanonical` | crypto/core/src/device_sync.rs:234-274 | An accepted byte string is exactly the manifest built from what is returned |
| `Manifest.ManifestAuthenticated` | crypto/core/src/device_sync.rs:214-274 | An accepted manifest ends in the MAC of everything before it, one built under another MAC is refused as tampered, and the bytes of version and count |
| `Manifest.SyncBuildAccepts` | crypto/wasm/src/lib.rs:455-480 | The packed arrays are accepted exactly when they hold whole entries, equally many |
| `SyncRecords.EncodeRecord` | client/src/lib/cryptoDb.ts:411-417 | The payload writes are in range and produce store id, truncated key length, key and value |
| `SyncRecords.CryptoDb.ExportSyncRecords` | client/src/lib/cryptoDb.ts:368-421 | The loop yields one payload per listed record, in order |
| `SyncRecords.CryptoDb.ImportSyncRecord` | client/src/lib/cryptoDb.ts:426-450 | Writes exactly the record the payload holds; a refused payload writes nothing |
| `SyncRecords.RecordParses` | client/src/lib/cryptoDb.ts:426-440 | A record with a key below 65536 bytes and at least four bytes parses into its parts |
| `SyncRecords.RecordArrives` | client/src/lib/cryptoDb.ts:402-450 | A record is read back under its own store and key if and only if the store is known, the key fits 16 bits and the payload is long enough |
| `SyncRecords.RecordRoundTrip` | client/src/lib/cryptoDb.ts:402-450 | It arrives unchanged if and only if, besides, its value is of the kind its store holds |
| `SyncRecords.ImportsListed` | client/src/lib/cryptoDb.ts:426-450 | Importing the exported records overlays exactly the listed ones on the target's database |
| `SyncRecords.TransferReproduces` | client/src/lib/cryptoDb.ts:368-450 | Exporting all records and importing them adds them to the target, unchanged in every store whose kind they fit (all but `identity`) |
| `SyncTransfer.SyncKeysAgree` | crypto/core/src/device_sync.rs:118-138 | Both devices derive the same keys if and only if they use the same one-time password |
| `SyncTransfer.SyncKeysBind` | crypto/core/src/device_sync.rs:118-138 | Any two exchanges give the same keys if and only if the one-time passwords and the two secrets, in either order, are the same |
| `SyncTransfer.EncodeFrame` | client/src/hooks/useDeviceSync.ts:136-145 | The writes produce type, sequence number and payload |
| `SyncTransfer.FrameLayout` | client/src/hooks/useDeviceSync.ts:136-154 | Frames decode to what they were encoded from, and every decoded buffer is the encoding of its parts |
| `SyncTransfer.BuildsManifest` | client/src/hooks/useDeviceSync.ts:277-282 | The filled buffers give the manifest of all payloads in order |
| `SyncTransfer.RunSourceTransfer` | client/src/hooks/useDeviceSync.ts:243-285 | The source sends, as bytes, one sealed chunk per payload and then their manifest; all buffer writes are in range if and only if no more payloads come than were counted |
| `SyncTarget.CheckManifest` | client/src/hooks/useDeviceSync.ts:327-349 | The loop decides `Accepts`: whole entries, equal size, every entry matched |
| `SyncTarget.TargetReceiver.OnMessage` | client/src/hooks/useDeviceSync.ts:304-314 | A frame starts a handler, or rejects the transfer after an abort |
| `SyncTarget.TargetReceiver.Continue` | client/src/hooks/useDeviceSync.ts:309-355 | What a handler does between two awaits, failures included |
| `SyncTarget.TargetReceiver.OnClose` | client/src/hooks/useDeviceSync.ts:358-360 | Closing rejects unless aborted or settled |
| `SyncTarget.TargetReceiver.OnError` | client/src/hooks/useDeviceSync.ts:357-357 | An error rejects unless settled |
| `SyncTarget.AbortedExactly` | client/src/hooks/useDeviceSync.ts:184-186 | The receiver is aborted exactly when an abort is among the events |
| `SyncTarget.AbortStops` | client/src/hooks/useDeviceSync.ts:304-306 | From an abort on no frame starts a handler, the first frame settles the transfer, and a settled outcome stays |
| `SyncTarget.OutcomeExactly` | client/src/hooks/useDeviceSync.ts:289-362 | A transfer is rejected if and only if the first event that fails or succeeds fails (a sealed frame that does not open, a failed import, a manifest that does not verify or match, a close without abort, an error, a frame after an abort), resolved if and only if it succeeds, and open if and only if there is none |
| `SyncTarget.ExecInv` | client/src/hooks/useDeviceSync.ts:289-362 | Under any interleaving of handlers every recorded hash is that of the source's plaintext at its number |
| `SyncTarget.Pigeonhole` | client/src/hooks/useDeviceSync.ts:332-337 | Coverage of the manifest's distinct numbers and equal size give equality of the received map |
| `SyncTarget.AcceptsExactly` | client/src/hooks/useDeviceSync.ts:327-349 | The check on the source's own manifest passes if and only if the received map is i to hash of payload i for all i |
| `SyncTarget.AcceptanceIsExact` | client/src/hooks/useDeviceSync.ts:289-362 | Whatever order frames and handlers take, a step that resolves the transfer does so with exactly that received map |
| `SyncTarget.CompleteExactly` | client/src/hooks/useDeviceSync.ts:304-354 | At the resolving step every payload has been imported if and only if each import under way is of a payload already imported |
| `SyncTarget.QuietAcceptanceIsComplete` | client/src/hooks/useDeviceSync.ts:304-354 | In particular when no import is under way |
| `SyncTarget.AcceptanceMayPrecedeImport` | client/src/hooks/useDeviceSync.ts:310-313 | A run that resolves while its only record is not imported |
| `SyncTarget.HonestRunResolves` | client/src/hooks/useDeviceSync.ts:289-362 | With frames in order and handlers finishing in turn the target resolves, having imported every payload |
| `Transfer.OnBytes` | client/src/hooks/useDeviceSync.ts:304-308 | Received bytes are decoded and start a handler |
| `Transfer.Wake` | client/src/hooks/useDeviceSync.ts:309-355 | A handler goes on, with the record import it awaited, to the state the run takes |
| `Transfer.SendDatabase` | client/src/hooks/useDeviceSync.ts:243-285 | Exporting and sending puts the frames of all records and the manifest on the channel, if no more come than were counted |
| `Transfer.StoresAreImported` | client/src/hooks/useDeviceSync.ts:289-362 | In every run over bytes and stores the receiver behaves as on its own, and the stores are what the completed imports, in order, make of them |
| `Transfer.EventAt` | client/src/hooks/useDeviceSync.ts:304-360 | What the receiver sees of bytes, awaits, stops, closes and errors |
| `Transfer.StoppedForGood` | client/src/hooks/useDeviceSync.ts:184-186 | Once the user has stopped the transfer no bytes start a handler, and the first that arrive settle it |
| `Transfer.ImportsSome` | client/src/lib/cryptoDb.ts:426-450 | Importing any exported payloads, in any order and repeatedly, overlays exactly the records they hold |
| `Transfer.AcceptedStores` | client/src/hooks/useDeviceSync.ts:289-362 | Whatever the network does and however handlers interleave, at the resolving step the stores are the old ones overlaid with exactly the records imported, and every other record's import is under way |
| `Transfer.AcceptedStoresComplete` | client/src/hooks/useDeviceSync.ts:289-362 | They hold the source's whole database if no import of a new record is under way, and, if the target had none of its keys, only then |
| `Transfer.ChannelBytes` | client/src/hooks/useDeviceSync.ts:136-145 | Frame i on the channel starts with 1 for a record and 2 for the manifest, then i, then the sealed bytes |
| `Transfer.FullTransfer` | client/src/hooks/useDeviceSync.ts:243-362 | The bytes the source puts on the channel, delivered in order, resolve the transfer with the source's database added to the target's |
| `SyncSessions.SyncSessionService.Set` | server/src/chat/sync-session.service.ts:55-61 | Stores one session and changes nothing else |
| `SyncSessions.SyncSessionService.Update` | server/src/chat/sync-session.service.ts:63-69 | Patches a known session; an unknown id changes nothing |
| `SyncSessions.SyncSessionService.TrackSocket` | server/src/chat/sync-session.service.ts:71-77 | Points one socket at a session |
| `SyncSessions.SyncSessionService.GetSessionBySocket` | server/src/chat/sync-session.service.ts:79-91 | Finds the live session the index names |
| `SyncSessions.SyncSessionService.DeleteSession` | server/src/chat/sync-session.service.ts:93-106 | Removes a session and the index entries of its sockets |
| `SyncSessions.SyncSessionService.PurgeExpired` | server/src/chat/sync-session.service.ts:108-118 | The loop removes exactly the expired sessions and all index entries of their sockets |
| `SyncSessions.ChatGateway.HandleDeviceSyncStart` | server/src/chat/chat.gateway.ts:785-814 | State and messages in every branch of a start |
| `SyncSessions.ChatGateway.HandleDeviceSyncJoin` | server/src/chat/chat.gateway.ts:825-874 | State and messages in every branch of a join |
| `SyncSessions.ChatGateway.HandleDeviceSyncRelayAnswer` | server/src/chat/chat.gateway.ts:882-893 | The answer goes from the target to the source, or nowhere |
| `SyncSessions.ChatGateway.HandleDeviceSyncIce` | server/src/chat/chat.gateway.ts:901-919 | A candidate goes to the other participant of a live session, or nowhere |
| `SyncSessions.ChatGateway.HandleDeviceSyncAbort` | server/src/chat/chat.gateway.ts:924-946 | A participant ends the session and both sides are told |
| `SyncSessions.ChatGateway.HandleDisconnect` | server/src/chat/chat.gateway.ts:214-233 | The indexed session ends and its other side is told |
| `SyncSessions.SocketIndexSound` | server/src/chat/sync-session.service.ts:71-118 | In every run each index entry names a live session in which that socket takes part |
| `SyncSessions.SessionFixed` | server/src/chat/chat.gateway.ts:785-874 | While a session is live its user, source and expiry never change, nor its target once set |
| `SyncSessions.RelayContained` | server/src/chat/chat.gateway.ts:825-946 | Every message that does not answer the client goes between the two distinct sockets of one session of one user |
| `SyncSessions.OfferOnce` | server/src/chat/chat.gateway.ts:855-866 | Two forwards of an offer under one id have a creation of that id between them |
| `SyncSessions.OfferIsLatest` | server/src/chat/chat.gateway.ts:855-866 | The offer forwarded is the one given when the session was last created, to another socket of the same user, within the session lifetime |
| `SyncSessions.ValidExactly` | server/src/chat/chat.gateway.ts:785-814 | A session id is 32 characters out of 0-9 and a-f |
| `SyncSessions.StartCreates` | server/src/chat/chat.gateway.ts:785-814 | A start creates a session and answers ready if and only if it is allowed, well formed and not in use; otherwise the first of these that fails is told |
| `SyncSessions.TakenExactly` | server/src/chat/chat.gateway.ts:825-874 | A live session is taken if and only if its offer has been forwarded since it was created; until then it is as the start left it |
| `SyncSessions.JoinAnswered` | server/src/chat/chat.gateway.ts:825-874 | A join of a live session yields its offer, and the notice to the source, if and only if it is allowed, within five minutes, of another socket of the user, and the first; otherwise the client is told why |
| `SyncSessions.JoinUnknown` | server/src/chat/chat.gateway.ts:825-840 | A join of a session that is not live is told so and changes nothing |
| `SyncSessions.AnswerDelivered` | server/src/chat/chat.gateway.ts:882-893 | An answer of the socket the offer went to reaches the socket that started the session, and nobody else's goes anywhere |
| `SyncSessions.CandidateDelivered` | server/src/chat/chat.gateway.ts:901-919 | A candidate of either side reaches the other, within five minutes, and nobody else's goes anywhere |
| `SyncSessions.AbortTold` | server/src/chat/chat.gateway.ts:924-946 | An abort by either side ends the session and tells both; by anybody else it does nothing |
| `SyncSessions.DisconnectTold` | server/src/chat/chat.gateway.ts:214-233 | A disconnect of either side, when the index names its sessions, ends the session and tells the other side |
| `SyncSessions.PurgeEnds` | server/src/chat/sync-session.service.ts:108-118 | A purge ends exactly the sessions whose five minutes are over |
| `SyncSessions.DisconnectEndsAll` | server/src/chat/chat.gateway.ts:214-233 | A disconnect ends all of a socket's sessions if and only if the index names each of them |
| `SyncSessions.DisconnectMayLeaveSession` | server/src/chat/chat.gateway.ts:785-814 | Starting two sessions and disconnecting leaves the first one live |
| `SyncSessions.SingleSessionEnds` | server/src/chat/chat.gateway.ts:214-233 | A socket that opened at most one session leaves none behind |
| `RateLimiter.WsRateLimiter.IsAllowed` | server/src/chat/ws-rate-limiter.ts:11-25 | Decision and new window of one call |
| `RateLimiter.WsRateLimiter.RetryAfter` | server/src/chat/ws-rate-limiter.ts:27-33 | Seconds until the oldest stored call leaves the window, rounded up; 0 without one |
| `RateLimiter.WsRateLimiter.Cleanup` | server/src/chat/ws-rate-limiter.ts:35-42 | The loop prunes every window and drops the empty ones |
| `RateLimiter.FreshAgain` | server/src/chat/ws-rate-limiter.ts:15-15 | Pruning earlier does not change what a later prune leaves |
| `RateLimiter.PrunedDecidesAsFull` | server/src/chat/ws-rate-limiter.ts:11-42 | The pruned log, with cleanups anywhere, decides every call as the log of all accepted calls would |
| `RateLimiter.WindowBound` | server/src/chat/ws-rate-limiter.ts:11-25 | Any window of the limiter's length holds at most `limit` accepted calls of a user |
| `RateLimiter.RetryAfterIsExact` | server/src/chat/ws-rate-limiter.ts:27-33 | After a rejection, waiting k seconds lets the next call succeed if and only if the limit is positive and k is at least the advised number |
| `RateLimiter.RetryRoundsUp` | server/src/chat/ws-rate-limiter.ts:27-33 | For any stored calls the advice is the fewest whole seconds after which the oldest has left the window, and 0 without any |
| `RateLimiter.CleanupLeaves` | server/src/chat/ws-rate-limiter.ts:35-42 | A cleanup leaves of every window exactly the calls still inside it, and no empty window |
| `AuthSessions.AuthService.IssueTokens` | server/src/auth/auth.service.ts:358-397 | Rotates the session of the same user agent, or creates one, evicting an oldest session at the limit |
| `AuthSessions.AuthService.RotateSession` | server/src/auth/auth.service.ts:403-431 | New hash, previous hash kept, new expiry, nothing else changed |
| `AuthSessions.AuthService.Refresh` | server/src/auth/auth.service.ts:98-136 | Outcome and table in every branch; refused tokens change nothing |
| `AuthSessions.AuthService.Logout` | server/src/auth/auth.service.ts:266-270 | Exactly the session with that token goes |
| `AuthSessions.AuthService.LogoutAll` | server/src/auth/auth.service.ts:272-274 | Exactly the user's sessions go |
| `AuthSessions.AuthService.TerminateSession` | server/src/auth/auth.service.ts:276-293 | A user's own session goes; an unknown or foreign one stays |
| `AuthSessions.StepInv` | server/src/auth/auth.service.ts:98-136 | Every call keeps tokens distinct and unreused, agents distinct and the limit |
| `AuthSessions.SessionLimits` | server/src/auth/auth.service.ts:358-397 | In every run a user has at most MAX_SESSIONS sessions and at most one per user agent |
| `AuthSessions.RetiredNeverAccepted` | server/src/auth/auth.service.ts:399-431 | A refresh token that left the table is never accepted again, and trying it changes nothing |
| `AuthSessions.AcceptedOnce` | server/src/auth/auth.service.ts:98-136 | Each refresh token is accepted at most once in a run |
| `AuthSessions.AcceptedUntilExpiry` | server/src/auth/auth.service.ts:127-135 | A token still in the table is accepted if and only if its seven days, counted from the call that issued it, are not over; otherwise nothing changes |
| `AuthSessions.ReplacedBy` | server/src/auth/auth.service.ts:358-431 | A session's token is replaced by exactly two calls: a granted refresh with it, and a sign-in of its user from its agent |
| `AuthSessions.ReuseReportedExactly` | server/src/auth/auth.service.ts:107-125 | A token replaced by a refresh or by a new sign-in from the same agent is reported as reuse exactly while its successor is current |
| `AuthSessions.SignInEffect` | server/src/auth/auth.service.ts:358-397 | Who keeps which session after a sign-in, and that an eviction takes an oldest one only at the limit |
| `AuthSessions.AgentsExactly` | server/src/auth/auth.service.ts:358-362 | Two user agents share a session name exactly when they are equal or both missing, empty or "unknown" |
| `AuthSessions.SignInsApart` | server/src/auth/auth.service.ts:358-397 | Of two sign-ins of a user, whatever lies between, the second retires the first's current token if and only if the agents are the same or its session has to make room |
| `AuthSessions.LeavesExactly` | server/src/auth/auth.service.ts:98-431 | Exactly which calls take a session's token out of the table |
| `AuthSessions.CreatedBy` | server/src/auth/auth.service.ts:380-397 | Every session is the one some sign-in created, for its user and agent and at its time |
| `AuthSessions.EvictsExactly` | server/src/auth/auth.service.ts:371-385 | A sign-in ends a session if and only if its user has five and none for its agent |
| `AuthSessions.EvictedIsEarliest` | server/src/auth/auth.service.ts:371-385 | The session that ends is that of the user's earliest creating sign-in |
| `AuthSessions.SignOutEnds` | server/src/auth/auth.service.ts:266-293 | A logged-out token is not current, a user logged out everywhere has no session and others keep theirs, and a terminated own session is gone |
| `PinBlob.BuildAad` | crypto/core/src/pin_key.rs:220-228 | The writes fill the 29-byte header |
| `PinBlob.SerializeBlob` | crypto/core/src/pin_key.rs:155-161 | The buffer is header, nonce, ciphertext |
| `PinBlob.DeserializeInverse` | crypto/core/src/pin_key.rs:155-193 | A blob with at least 16 ciphertext bytes is read back; a shorter one is refused |
| `PinBlob.SerializeInverse` | crypto/core/src/pin_key.rs:155-193 | Exactly the strings of 57 bytes or more with version 1 are accepted, and written back unchanged; their first 29 bytes are the additional data |
| `PinBlob.StoredKeyOpens` | crypto/core/src/pin_key.rs:105-148 | A stored blob opens under its PIN to the key it was made from |
| `PinBlob.TamperingFails` | crypto/core/src/pin_key.rs:134-148 | Of the strings ending in a produced ciphertext exactly those with the produced header and nonce decrypt, under a PIN deriving the same key |
| `PinBlob.HeaderIsAuthenticated` | crypto/core/src/pin_key.rs:220-228 | Changing any of the first 29 bytes of a produced blob makes decryption fail under every PIN |
| `PinBlob.UpgradeSettles` | crypto/core/src/pin_key.rs:85-94 | A blob made with the target's parameters needs no upgrade after it was stored |
| `PinBlob.UpgradeFromBytes` | crypto/core/src/pin_key.rs:85-94 | A stored blob needs an upgrade exactly when a cost written in it is below the target's |
| `PinBlob.RefusalsExactly` | crypto/core/src/pin_key.rs:134-193 | Which error a stored string gives: too short, of another version, refused parameters, or a ciphertext that does not open |

## Left out

- RatchetCodec.SerializationRoundTrip: that other byte strings parse to the same session is not denied; bytes after the last entry are ignored.
- StoredSessions.AbortsExactly: the operations are modelled on sessions that have their remote key; what an aborted worker does next is not modelled.
- SyncTransfer.RunSourceTransfer: takes the payloads as a list of fewer than 2^32; a transfer aborted half-way and back-pressure on the channel are not modelled.
- SyncTarget.HonestRunResolves: handlers finish in turn; completion under overlapping handlers is not claimed, because an early manifest is rejected.
- SyncSessions.ChatGateway.HandleDeviceSyncStart: the rate limiter's answer is an argument.
- AuthSessions.AuthService.IssueTokens: access tokens, addresses and the password and mail checks before it are not modelled; the steps of one call are atomic although the source runs a sign-in outside a transaction.
- EndToEnd.ClientsAreParties: does not cover conversations in which both initiate or a session was started anew; for those `Restarts` claims authenticity and exactly-once within a session, and `Rebuilding` delivery right after a restart, but not delivery in the whole conversation from then on.
- Establishment.SessionEstablished: the client publishes no one-time prekey, so neither has the responder one; `X3dh.Agreement` covers both.
- Lock-map clearing and session resets (client/src/hooks/useE2E.ts:550, 741-746, 963-987) do not occur in runs.
- Per-device sessions (`drDeviceEncrypt`, `drDeviceDecrypt`): the same shape under a different key string.
- The Sender Key group module: not part of this model.
- The `identity` store in a transfer: its records are objects under a binary store id, so they arrive as the bytes of their JSON (`SyncRecords.Arrived`), not as they were.
- Real cryptography, compression and JSON: parameters with laws. Length limits of AES-GCM, at which encryption fails, are not modelled in the ratchet.
- Zeroization, timing-safe comparison (taken as equality), WebRTC, sockets, rooms other than a socket's own, push and mail.
- Redis mode of the session store, and interleaving inside server handlers.
- The parts of `handleDisconnect` about calls and presence.
- `pairKey` and base64.
