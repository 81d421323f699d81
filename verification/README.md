# Model of the relay

This project models the parts of the Left4Proxy UDP relay that keep state across packets,
and the codecs they rest on, and proves what they promise. It has three coupled state machines:

* **The secure session.** Sequence numbers handed out by a compare-and-swap loop, sealing and
  opening with the header as associated data, the 64-packet replay filter, and the two-message
  handshake (`Replay`, `SecureSession`, `SequenceThreads`, `Handshake`).
* **The server.** The session table, the handshake cache, source authorization, return-path
  migration, eviction, cleanup and Stop (`ServerModel` as values, `ServerNode` as objects updated
  in place that refine it; `ServerLaws` for what each step does in plain terms; `ServerTable`,
  `OncePerNonce`, `SessionHistory` for what every run keeps; `NonceLimits` for runs that show which
  conditions are needed), and the punch worker (`PunchWorker`).
* **The client.** The route selector (`RouteSelect`), mode changes racing with punch candidates
  and with game data (`SetModeRace`), and the adoption of one session (`Adoption`).

`Delivery` composes them: clients, an adversarial network and the server; and `EndToEnd` runs the
client's and the server's objects against each other. The codecs are the
packet (`Protocol`), STUN (`Stun`, `StunTransactions`), the endpoint and metadata text (`Text`,
`Endpoints`) and the PROXY header (`ProxyHeader`); `LineRaster` is the latency graph's line
drawing. Sections cited are those of RFC 5389 and of the PROXY protocol specification.

## Assumptions

* The AEAD is ideal: a log of what was sealed, which is all that opens. HMAC and X25519 are
  functions; tags, nonces and public keys have their lengths and X25519 commutes. A traffic key
  derived for a new server session is not in use, different client nonces derive different
  traffic keys, client nonces are fresh among all clients, and a response a client accepts was
  made for a session of the server.
* Each handler or lock section is one step with one clock reading and the clock never goes back.
  `SequenceThreads`, `PunchWorker` and `SetModeRace` take the steps inside handlers apart.
* Map iteration order, the ID counter's start, what the network delivers, resolving, dialling
  and socket results are nondeterministic or parameters.
* Go's integers are modelled at their width where it matters (uint32 sequence numbers, uint64
  IDs and the replay word, int64 clocks, 16-bit lengths and ports); elsewhere they are unbounded.
* Text is a sequence of Unicode characters with Go's byte length; `net.ParseIP` is a predicate
  under which literals are hex digits, dots and colons, and those that are not IPv4 have a colon.

## Where the code falls short of a claim

* *One live session per nonce* fails for a request stamped ahead of the server's clock, by as
  little as a nanosecond, and only for those: two live sessions mean that the earlier one's
  request was (`OncePerNonce.TwoLiveMeansAhead`), and for each such request there is a run with
  all cleanup ticks that ends with two (`NonceLimits.TwoLiveExactlyWhenAhead`). The limit of 4096
  new sessions in 120 s is needed too, and exactly (`NonceLimits.OneSessionTooMany`).
* *After `SetMode("relay-only")` returns, game data goes to relays only* has two exceptions and no
  other: a candidate checked before the mode was stored (`SetModeRace.EarlierChecksSlip`), and one
  that a path hint took off Relay between its check and its send (`SetModeRace.HintsSlip`).
  `SetModeRace.RelaySendsExactly` is the exact condition; `SetModeRace.DirectSendHappens` and
  `SetModeRace.HintedSendHappens` are runs of each.
* With handlers atomic, the branch of `handleHandshakeResponse` that closes a replaced session is
  never taken (`Adoption.AdoptionLasts`).

## Model

| member | source | states |
|---|---|---|
| `Delivery.OpenedExactlyOnce` | pkg/server/server.go:837-971 | In every run of sealing clients, a network that drops, duplicates, reorders and injects, and the server: the packets the server opened map one-to-one onto packets their session's client sealed, unchanged. Nothing is invented, altered or opened twice. |
| `Delivery.ForwardedExactlyOnce` | pkg/server/server.go:954-971 | The same for what goes to the game server: the k-th forwarded payload is that of a distinct sealed game datagram, and no sealed datagram is forwarded twice. |
| `Delivery.SecondPathChangesNothing` | pkg/client/client.go:1347-1364 | During a migration one ciphertext is sent on two paths; once one copy was opened, the other, from any source at any later time, leaves the server exactly as it was, unless the same bytes are also a packet that the client of another session, which drew the same ID since, sealed under its own key. |
| `Delivery.AuthenticWasSent` | pkg/security/session.go:359-403 | Whatever authenticates for a session was sealed under that session's key by its own client, with every header field and the plaintext as sealed. |
| `Delivery.NoncesAreUsedOnce` | pkg/security/session.go:469-474 | In every run, two different entries of the AEAD log under one client's traffic key have different nonces, and every packet sealed has its entry, whose nonce spells its session ID and number. |
| `Delivery.HappenKeepsInvariant` | pkg/client/client.go:733-744 | Every step (serving, a client sending, answering or resetting its handshake, sealing, foreign sealing) keeps the invariant: the log under a session key holds only what that client sealed, and clients number packets without repeats, because no client adopts a traffic key twice. |
| `Delivery.AdoptedKeyIsNew` | pkg/client/client.go:1507-1544 | The traffic key of an adopted session was not in use by any client, so its numbers start at one only once. |
| `OncePerNonce.OneLiveSession` | pkg/server/server.go:995-1072 | In every run with a monotone clock, one authentic request per nonce and at most 4096 new sessions in any closed 120 s window, and whose sessions were all requested no later than the clock they were made at, two live sessions never share a client nonce. |
| `OncePerNonce.TwoLiveMeansAhead` | pkg/server/server.go:995-1072 | In every such run, whatever the clocks of the clients: when two live sessions share a nonce, the request of the earlier one was stamped ahead of the server clock. |
| `OncePerNonce.DroppedEntryIsOld` | pkg/server/server.go:1053-1065 | Counting: when the full cache drops its oldest entry, that entry is older than 120 s, or the window would hold more than 4096 new sessions. |
| `OncePerNonce.DistinctReferences` | pkg/server/server.go:1066-1071 | A cache whose entries name different sessions names as many sessions as it has entries (the pigeonhole count). |
| `NonceLimits.TwoLiveExactlyWhenAhead` | pkg/server/server.go:995-1072 | For every time a request is accepted at and every stamp it is accepted with, some run with all the server's cleanup ticks ends with two live sessions for its nonce if and only if the stamp was ahead of the clock. |
| `NonceLimits.AheadDoubles` | pkg/server/server.go:1414-1455 | Such a run for every stamp 1 ns to 120 s ahead, every arrival time and every phase of the 10 s ticker: authentic Pings keep the first session alive through all ticks until its cache entry expires, and a second copy of the request, still fresh, makes another. |
| `NonceLimits.PingLands` | pkg/server/server.go:862-875 | A fresh Ping sealed by the client and sent from an allowed source is opened, and changes its session's replay set, senders and idle time only. |
| `NonceLimits.OneSessionTooMany` | pkg/server/server.go:1053-1065 | The bound on new sessions is tight: a run of 4097 new sessions in 4.1 s, none requested ahead of the clock and no tick due, drops the cache entry of a live session, and a second copy of its request makes another. |
| `Replay.ReplayWindow.Accept` | pkg/security/session.go:442-467 | The bitmap refines a set of accepted numbers: bit d stands for max-d; Accept says yes exactly when the number was not accepted and nothing accepted is 64 or more ahead, and then remembers exactly that number more. |
| `Replay.Filter` | pkg/security/session.go:435-467 | Over a whole history of arrivals, each passes exactly when its number never arrived before and nothing 64 ahead arrived before; no number passes twice. |
| `Replay.VerdictFromArrivals` | pkg/security/session.go:442-467 | The verdict on a number is the same whether judged against what was accepted or against everything that arrived. |
| `Replay.ShiftDigit` | pkg/security/session.go:450-456 | Shifting the 64-bit word by any amount moves digit d to d+s and drops what leaves the word. |
| `Replay.MaskReadsDigit` | pkg/security/session.go:460-466 | Masking with 1<<d reads digit d. |
| `SecureSession.Session.Seal` | pkg/security/session.go:319-354 | Seals exactly the numbered, non-handshake packets of this session that fit a datagram, under the key of the direction, as one new AEAD entry whose nonce spells the packet's session ID and number and whose header and ciphertext are the datagram's; the result opens to the packet. |
| `SecureSession.Session.Open` | pkg/security/session.go:359-403 | Opens exactly the authentic datagrams whose number the replay filter passes, returns the sealed packet, and only then touches the filter. |
| `SecureSession.Session.NextSeq` | pkg/security/session.go:289-314 | One uninterrupted call: hands out the next number, or refuses for good at 2^32-1 without wrapping. |
| `SecureSession.Session.Close` | pkg/security/session.go:405-422 | Wipes both keys once and marks the session closed. |
| `SecureSession.SealedOpens` | pkg/security/session.go:319-403 | A sealed packet authenticates to itself through the codec. |
| `SecureSession.OpensOnlySealed` | pkg/security/session.go:359-403 | What authenticates is the encoding of a logged box whose log entry binds all header fields. |
| `SecureSession.AuthenticExactly` | pkg/security/session.go:359-403 | A datagram authenticates to a packet if and only if its header says so and the AEAD has the entry of these very bytes, under the nonce that spells its session ID and number. |
| `SecureSession.NonceIsInjective` | pkg/security/session.go:469-474 | Different session IDs or numbers give different nonces. |
| `SequenceThreads.NumbersAreUnique` | pkg/security/session.go:289-314 | With any interleaving of load and compare-and-swap steps of any number of threads, the numbers returned are exactly 1..sendSeq, once each and in order, and no nonce is used twice to seal. |
| `SequenceThreads.ExhaustionIsPermanent` | pkg/security/session.go:297-304 | Once 2^32-1 was handed out, no later run hands out anything: no wrap. |
| `SequenceThreads.FailedSwapMeansProgress` | pkg/security/session.go:305-313 | A swap fails only because another thread obtained a number since the load. |
| `Handshake.Agreement` | pkg/security/session.go:76-248 | The four handshake functions through the packet codec: the client finishes if and only if the key, number, ID, metadata size, both clock tests and the key exchange allow it, and then both ends have the same ID, both traffic keys and the exact metadata. |
| `Handshake.SkewTest` | pkg/security/session.go:507-515 | The wrapping int64 skew test equals |now-ts| <= 120e9 for every timestamp and every 0 <= now < 2^63-120e9; in general it errs only where the difference wraps nearly all the way round. |
| `Handshake.VerifyHandshakeRequest` | pkg/security/session.go:111-138 | Returns a request exactly when the packet carries it, authenticated and fresh. |
| `Handshake.NewHandshakeRequest` | pkg/security/session.go:76-106 | Makes a packet that carries the authenticated request, or refuses a bad key or number zero. |
| `Handshake.NewHandshakeResponse` | pkg/security/session.go:143-188 | Succeeds exactly under the code's four checks, and then the packet answers the request and the keys are derived from the shared secret. |
| `Handshake.VerifyHandshakeResponse` | pkg/security/session.go:193-248 | Returns a response exactly when the packet answers the pending request, fresh and with an agreeable key, and derives the same keys. |
| `Handshake.ResponseIsUnique` | pkg/security/session.go:215-240 | A packet carries at most one response, by fixed offsets and the metadata length. |
| `Handshake.RequestIsTagged` | pkg/security/session.go:90-106 | On the wire a request is 128 bytes and ends with the HMAC, under its own label, of every byte before it, header included. |
| `Handshake.ResponseIsTagged` | pkg/security/session.go:165-188 | So does a response of any length. |
| `Handshake.DirectionsDiffer` | pkg/security/session.go:263-276 | The two traffic keys are HMACs of two different messages under a key extracted from the shared secret, the authentication key and both nonces. |
| `Protocol.CodecIsExact` | pkg/protocol/packet.go:113-185 | A datagram decodes to a packet if and only if it is that packet's encoding, the version is 2 and the payload fits: encoding and decoding are mutual inverses. |
| `Protocol.OversizeIsRefused` | pkg/protocol/packet.go:113-185 | A version 2 packet with a longer payload marshals to something Unmarshal refuses as too large. |
| `Protocol.HeaderBindsFields` | pkg/protocol/packet.go:126-142 | Equal headers mean equal packets up to payload, and equal payload lengths: the associated data binds every field. |
| `Protocol.Marshal` | pkg/protocol/packet.go:113-121 | The buffer filled in place is the packet's encoding. |
| `Protocol.MarshalHeader` | pkg/protocol/packet.go:126-142 | The header filled at fixed offsets is the 28-byte layout, lengths clamped to 16 bits. |
| `Protocol.WireLayout` | pkg/protocol/packet.go:113-142 | Each field of a marshaled packet stands at its offset, in big-endian order. |
| `ServerTable.TableBounded` | pkg/server/server.go:1044-1051 | In every run: at most 2048 sessions stored, each key its session's non-zero ID, stored sessions open until Stop and every other one closed; at most 4096 cache entries, each naming the session made for its nonce. |
| `ServerTable.NextKeepsTable` | pkg/server/server.go:1383-1455 | Every server step keeps that invariant. |
| `ServerNode.Server.NextSessionID` | pkg/server/server.go:1092-1105 | Ends within |sessions|+2 tries on the first fresh non-zero ID after the counter, across the uint64 wrap. |
| `ServerNode.UnusableRun` | pkg/server/server.go:1092-1105 | At most |sessions|+1 consecutive IDs are unusable, wrap-around or not. |
| `ServerNode.Server.HandlePacket` | pkg/server/server.go:837-971 | The dispatcher over objects updated in place is the Receive step of the model. A datagram that arrives, an unseen packet sealed under a stored open session's key from a source it has heard from, inside its punch window or as a Ping, is served: game data goes upstream and moves the return path, and the source gets exactly the replies of the command. Any other changes nothing and gets no reply. |
| `ServerNode.ClientSession.Handle` | pkg/server/server.go:851-971 | One session's part: the session becomes what the opened event makes of it and nothing changes otherwise; a probe is answered with the address it is seen from, a PunchInit that names an endpoint with its acknowledgement, a 30 s window, a wake-up and at most one worker, a Ping with its path label and echo, and anything else with nothing. |
| `ServerNode.Server.HandleHandshake` | pkg/server/server.go:984-1080 | A request that is not authentic and fresh changes nothing. One whose nonce was cached in the last two minutes changes nothing either, and is answered with the cached response if its public key is the same and not at all if not, or counts as new if that session is gone. A new one is answered, unless its key exchange or metadata fails, with an authenticated response; the session stored holds both derived keys and its one source, and exactly that response is cached for its nonce. |
| `ServerNode.Server.Establish` | pkg/server/server.go:1026-1074 | Draws the ID, derives both keys, stores a new session that holds them, has heard from this source only and knows through which relay, and caches the response it returns; or only draws the ID when the response cannot be made. |
| `ServerNode.Server.Recall` | pkg/server/server.go:999-1024 | Answers from the cache exactly for a live session cached at most two minutes ago under the same client key, stays silent for another key, and otherwise forgets the entry. |
| `ServerNode.Server.EvictOldestSession` | pkg/server/server.go:1383-1408 | Closes and removes a session that has been idle longest, whatever order the map gives, and keeps every other one stored. |
| `ServerNode.Server.CleanupSessions` | pkg/server/server.go:1428-1447 | The tick closes and removes exactly the sessions idle for more than 60 s, in any map order. |
| `ServerNode.Server.CleanupHandshakes` | pkg/server/server.go:1449-1455 | The tick drops exactly the entries over 120 s old or whose session is gone. |
| `ServerNode.Server.StopServer` | pkg/server/server.go:1461-1500 | Up to the wait for its tasks, Stop closes exactly the stored sessions; a second call does nothing. |
| `ServerNode.Server.FinishStop` | pkg/server/server.go:1500-1512 | After the wait, Stop empties the handshake cache and zeroes every byte of the authentication key in place. |
| `ServerNode.StoppedIsSilent` | pkg/server/server.go:1485-1497 | After Stop no datagram, authentic or not, is opened for any session the server had. |
| `ServerLaws.ReceivesExactly` | pkg/server/server.go:851-863 | A datagram changes the server if and only if it arrives: stored open session, its key, an unseen number, and a source heard from, an open punch window or a Ping. |
| `ServerLaws.ArrivalActs` | pkg/server/server.go:876-971 | What an arrival changes and nothing else: the number is seen, the source known, the session active; game data moves the return path and ends the window of the endpoint it came from; a PunchInit that names an endpoint opens a window of 30 s. |
| `ServerLaws.ShakesExactly` | pkg/server/server.go:984-1072 | The three outcomes of an authenticated request by cache age, public key and session, and every field of the session, table and cache entry a new one makes. |
| `ServerLaws.ReapsExactly` | pkg/server/server.go:1428-1447 | A tick closes and removes exactly the stored sessions idle for more than 60 s and changes nothing else. |
| `ServerLaws.SweepsExactly` | pkg/server/server.go:1449-1455 | A tick keeps exactly the cache entries of at most 120 s whose session is stored and open. |
| `ServerLaws.StopsExactly` | pkg/server/server.go:1485-1497 | Stop leaves every session closed and changes nothing else. |
| `EndToEnd.Connect` | pkg/server/server.go:984-1080 | The client's and the server's objects: one exchange gives the client a session if and only if the key, counter, metadata size, both clock tests and the key exchange allow it, and then it and the session the server stored are the two ends of one session: same ID, same two keys, nothing sent or received yet. |
| `EndToEnd.Carry` | pkg/server/server.go:639-658 | What one end seals with its next number the other end opens as exactly that packet, in either direction, until the numbers run out. |
| `EndToEnd.Play` | pkg/server/server.go:851-971 | Game data a client seals with its next number reaches the game server unchanged from any source its session has heard from, and moves the return path there. |
| `EndToEnd.Conversation` | pkg/server/server.go:837-1080 | From nothing: under Connect's conditions, game data sealed by the client reaches the game server and what the server then seals reaches the client, unchanged. |
| `EndToEnd.ReplyIsVerified` | pkg/security/session.go:193-248 | Verifying the server's reply against the pending request it answers succeeds exactly inside the clock window, and gives both keys the server derived. |
| `ServerNode.Server.PresentInModel` | pkg/server/server.go:1082-1090 | The pointer comparison of sessionPresent decides exactly whether the session is stored and open. |
| `SessionHistory.SessionsExplained` | pkg/server/server.go:851-875 | In every run a session is what its opened packets say: its return address is the source of the latest fresh authenticated game datagram, or of the handshake; its allowed senders are exactly the handshake source and those who delivered a fresh authenticated packet; likewise its replay set, idle time and punch window. |
| `SessionHistory.ReturnIsAllowed` | pkg/server/server.go:1229-1261 | The return address is always an allowed sender. |
| `SessionHistory.ReturnMovesOnlyWithGameData` | pkg/server/server.go:954-971 | Only fresh authenticated game data of the session moves its return address, and to its own source; replayed handshakes, pings and housekeeping never do. |
| `SessionHistory.SecondCopyIsIgnored` | pkg/server/server.go:862-875 | A second copy of an opened datagram changes no part of the server state, unless another session now owns the ID and the same bytes authenticate under its own key. |
| `SessionHistory.MigrationWasInvited` | pkg/server/server.go:851-869 | A packet other than a Ping from a source not allowed is opened only while the latest PunchInit of that session is under 30 s old and no game data came from the endpoint it named since. |
| `PunchWorker.OneWorker` | pkg/server/server.go:768-802 | Under every interleaving, the number of workers running or about to start is 1 when the flag is set and 0 otherwise; two workers never run at once. |
| `PunchWorker.OpenWindowIsServed` | pkg/server/server.go:905-931 | An open punch window on a server that is not stopping has exactly one worker, or a handler about to start one. |
| `PunchWorker.NoLostWakeUp` | pkg/server/server.go:920-926 | Once every handler has sent its wake-up, the latest target was read by a burst, or the token or a burst that will read it is still there. |
| `PunchWorker.LatestTargetIsRead` | pkg/server/server.go:768-822 | And it is read: from any reachable state with an open window, no stop and every handler past its wake-up, at most three steps of the one task that is or is about to be the worker, wherever it stands, make a burst read the target published last. |
| `PunchWorker.NextKeepsInvariant` | pkg/server/server.go:151-161 | Every step of handlers, worker, clock, data, Stop and session close keeps the invariant behind these. |
| `RouteSelect.SelectionIsNearMinimal` | pkg/client/client.go:1175-1295 | After each selection nothing is selected exactly when no candidate is online, active within 15 s and allowed; otherwise the selected one is such a candidate and is the effective-RTT minimum, a LAN one kept against a WAN minimum, or a WAN one less than 5 ms and less than RTT/7 behind a WAN minimum. |
| `RouteSelect.SwitchesExactlyWhen` | pkg/client/client.go:1233-1275 | An eligible selection is left if and only if the fastest candidate is LAN, or both are WAN and it leads by 5 ms or by a seventh; the old one then becomes the previous candidate with a 400 ms window, and otherwise nothing changes. |
| `RouteSelect.SelectionIsStable` | pkg/client/client.go:1175-1295 | Selecting again on the same data and clock changes nothing. |
| `RouteSelect.CalmNeverFlaps` | pkg/client/client.go:1246-1260 | Over any run of measurements and selections whose eligible candidates are WAN and within 5 ms and a seventh of the smallest RTT, the selection never changes while it stays eligible. |
| `RouteSelect.FastestIsFastest` | pkg/client/client.go:1184-1214 | The scan finds the leftmost eligible candidate of least effective RTT, and nothing only if none is eligible. |
| `RouteSelect.RunIsRoutable` | pkg/client/client.go:387-465 | In every run of the two addition sections, punch additions, removals, measurements, mode changes and selections, in any order: best and previous are nil or listed, at most 64 candidates, at most 8 punch, addresses distinct among the punch ones and among the others. |
| `RouteSelect.RouteClient.SelectBestCandidate` | pkg/client/client.go:1175-1295 | Computes that selection in place. By the candidates' own labels: what is selected was heard from in the last 15 s and is Relay and no punch socket in relay-only, Direct, Punch or enabled LAN in direct-only, labelled and, if LAN, enabled in auto; and any live candidate of those labels means that something is selected. |
| `RouteSelect.SelectionByLabel` | pkg/client/client.go:1143-1295 | The same of the selection itself, which is moreover the fastest such candidate with a tenth of the time for LAN, or LAN, or less than 5 ms and less than a seventh behind any. |
| `RouteSelect.RouteClient.AddCandidate` | pkg/client/client.go:387-465 | An endpoint that does not normalize changes nothing; a normalized one is listed once by name and by address, up to 64, a repeat only lets a first relay label stick, and one whose reader cannot be started is dropped again. |
| `RouteSelect.RouteClient.NoteByName` | pkg/client/client.go:397-408 | The first lock section: finds the first candidate of that name and labels it, or tells whether the list is full. |
| `RouteSelect.RouteClient.AddResolved` | pkg/client/client.go:415-458 | The second: labels the first candidate at that address again, or appends a new one exactly when there is none, fewer than 64 are listed and its reader started. |
| `RouteSelect.RouteClient.AddPunchCandidate` | pkg/client/client.go:581-649 | Appends a punch candidate exactly when the mode is not relay-only, fewer than 64 candidates and fewer than 8 punch ones are listed and none of those has the address. |
| `RouteSelect.RouteClient.RemoveCandidate` | pkg/client/client.go:985-1008 | Removes one candidate and no other, forgets it as best and previous, and selects again. |
| `RouteSelect.RouteClient.SendTargets` | pkg/client/client.go:1352-1364 | Exactly where a game datagram goes: to the active candidate if its label suits the mode, and also to the one before it if that is another listed one whose label suits the mode and the window is open; nowhere else. |
| `RouteSelect.SwitchIsCovered` | pkg/client/client.go:1258-1275 | A switch away from a candidate that could still be used sends to both at every instant of the next 400 ms, and to the new one alone after that, while the choice stands and both labels suit the mode. |
| `RouteSelect.SwitchRemembers` | pkg/client/client.go:1262-1275 | A switch remembers the candidate it leaves, for 400 ms, exactly when that one is online and its label suits the mode; otherwise the earlier one and its window stay. |
| `RouteSelect.FirstOfFastest` | pkg/client/client.go:1184-1214 | With nothing selected before, the first in the list of the fastest candidates that may be used is selected. |
| `SetModeRace.EveryPunchRetired` | pkg/client/client.go:2329-2369 | Once SetMode("relay-only") has returned and until the mode is stored again, every listed punch candidate is retired, whatever the concurrent additions, retirements and selections. |
| `SetModeRace.SendsAreRight` | pkg/client/client.go:1352-1364 | In every run of game data, mode stores, path hints and selections: each check made since a relay-only store found a relay; whether a send goes to a relay is what the latest hint since its check says, or the check itself; and a datagram goes to at most two candidates, which differ. |
| `SetModeRace.RelaySendsExactly` | pkg/client/client.go:491-525 | A relay-only send with no mode store since its check goes to a relay if and only if the latest hint for its target since the check, if any, says Relay. |
| `SetModeRace.EarlierChecksSlip` | pkg/client/client.go:1358-1363 | The first cause: from any state where a datagram or its dual-send copy was checked but not yet sent, SetMode("relay-only") can complete first and it is still sent where the earlier check said, relay or not. |
| `SetModeRace.HintsSlip` | pkg/client/client.go:1639-1643 | The second cause: from any state where a checked target is a relay, a path hint can come first, and it is sent to a candidate that is no relay, with no mode store in between. |
| `SetModeRace.DirectSendHappens` | pkg/client/client.go:1352-1364 | A concrete run of the first cause: after SetMode("relay-only") has returned, a datagram goes to a direct candidate. |
| `SetModeRace.HintedSendHappens` | pkg/client/client.go:491-525 | A concrete run of the second: the check comes after SetMode("relay-only") has returned and finds a relay, and the datagram goes to a candidate that is direct by then. |
| `SetModeRace.NextKeepsRace` | pkg/client/client.go:605-649 | Every step keeps: the lock excludes, nobody is past the mode check once the sweep began, and each listed punch candidate is retired or still to be. |
| `Adoption.AdoptionLasts` | pkg/client/client.go:1507-1544 | An adopted session stays, with its pending request, until an explicit reset, whatever responses arrive. |
| `Adoption.OnlyLaterRequests` | pkg/client/client.go:1897-1917 | After a reset, nothing is adopted but for a request made since. |
| `Adoption.StaleResponseIsIgnored` | pkg/client/client.go:1507-1527 | A response acceptable for a request made before the reset is never adopted again, however late. |
| `Adoption.NothingIsAdoptedTwice` | pkg/client/client.go:1507-1544 | Over every run of any number of clients, no request is adopted twice and no two adoptions have the same traffic key. |
| `Adoption.NextKeepsInvariant` | pkg/client/client.go:1073-1091 | A session present implies the pending handshake is the latest one and the one recorded as accepted, through sequence wrap-around too. |
| `Adoption.HandshakeClient.SendHandshake` | pkg/client/client.go:1065-1095 | With a session nothing is made; a pending request of at most 90 s is sent again as it was; otherwise the next number makes a new authenticated request, unless the key is bad or the number wraps to zero. |
| `Adoption.HandshakeClient.HandleHandshakeResponse` | pkg/client/client.go:1507-1544 | Without a session, adopts one with the derived ID and keys exactly when the response verifies for the pending request; with one, keeps it; refines the model. |
| `Adoption.HandshakeClient.ResetSecureSessionForReconnect` | pkg/client/client.go:1897-1917 | Closes and forgets the session, the recorded sequence and the pending request. |
| `LineRaster.Canvas.DrawLine` | pkg/client/cli.go:500-526 | From any start to any end the loop ends after exactly max(|dx|,|dy|)+1 pixels and lights exactly those of the rounded ideal line that lie on the canvas, in order, each with the given time, and no other. |
| `LineRaster.Canvas.SetPixel` | pkg/client/cli.go:489-498 | The mask matrix represents exactly the in-range pixels set, and each cell's RTT is the longest shown in it; outside the canvas nothing happens. |
| `LineRaster.Canvas.CellReads` | pkg/client/cli.go:572-597 | Each cell's mask is Unicode's Braille pattern of its eight pixels, and its RTT is the greatest of the marks in it. |
| `LineRaster.LineIsAccurate` | pkg/client/cli.go:500-526 | Every pixel is within half a pixel of the ideal line. |
| `LineRaster.LineIsConnected` | pkg/client/cli.go:517-524 | Each pixel is an 8-neighbour of the last and differs from it. |
| `LineRaster.LineStaysInBox` | pkg/client/cli.go:500-526 | Every pixel lies in the bounding box of the two ends. |
| `LineRaster.LineArrives` | pkg/client/cli.go:513-515 | The target is reached at step max(|dx|,|dy|) and not before. |
| `LineRaster.LineMoves` | pkg/client/cli.go:516-524 | The two error tests move each axis exactly as the rounded line does. |
| `LineRaster.DotsDiffer` | pkg/client/cli.go:572-597 | The eight places of a Braille cell have eight different bits. |
| `LineRaster.ClippedIsInside` | pkg/client/cli.go:490-492 | Clipping keeps exactly the pixels inside the canvas. |
| `Stun.ParseBindingResponse` | pkg/stun/stun_client.go:303-361 | A response is accepted, and read as an address, exactly when it has the binding-response header of the expected transaction, its body is a sequence of padded attributes filling the message, and exactly one is a mapped address encoding it. |
| `Stun.ParseAttributes` | pkg/stun/stun_client.go:329-360 | The attribute loop accepts exactly the bodies that split with one decodable mapped address, and reports a missing one exactly when the body splits without any. |
| `Stun.MessageSplits` | pkg/stun/stun_client.go:303-355 | A datagram is a response with given attributes if and only if its header fits and its body cuts into exactly those. |
| `Stun.MappedAddressIsExact` | pkg/stun/stun_client.go:399-433 | An attribute value decodes to an address if and only if it is that address's encoding: IPv4 or IPv6 with a non-zero port. |
| `Stun.ParseXORMappedAddress` | pkg/stun/stun_client.go:399-433 | The word-wise and byte-wise unmasking compute that decoding. |
| `Stun.WordXorIsBytewise` | pkg/stun/stun_client.go:414-415 | Exclusive or of big-endian words is exclusive or byte by byte. |
| `Stun.ReflectedIsWritten` | pkg/stun/stun_client.go:303-433 | Soundness on the wire: a reflected address is written in the datagram, which is a binding success response with the cookie, that transaction ID and its exact length, as an XOR-MAPPED-ADDRESS attribute masked byte by byte. |
| `Stun.WrittenIsReflected` | pkg/stun/stun_client.go:303-433 | Completeness: a header and such an attribute, byte by byte as the standard has them, reflect its address. |
| `Stun.WrittenAfterOther` | pkg/stun/stun_client.go:329-360 | The same after any other attribute padded to a multiple of four bytes. |
| `Stun.DuplicateReflectsNothing` | pkg/stun/stun_client.go:345-352 | A message with two XOR-MAPPED-ADDRESS attributes reflects nothing. |
| `StunTransactions.EachRequestServesOnce` | pkg/stun/stun_client.go:117-250 | Over every run, each accepted response used up one recorded request that had not expired, sent to the very address the response came from, and no request serves twice. |
| `StunTransactions.Validator.Accept` | pkg/stun/stun_client.go:207-242 | Accepts exactly when a pending, unexpired request with that ID was sent to that source and the response reflects an address, and then consumes it and drops what has expired; a refused one leaves every unexpired request pending. |
| `StunTransactions.Validator.SendBindingRequest` | pkg/stun/stun_client.go:117-151 | Records the request for five seconds under an ID that is not pending before it is sent, and forgets it when the write fails. |
| `StunTransactions.Validator.PruneLocked` | pkg/stun/stun_client.go:244-250 | Removes exactly the expired transactions, in any map order. |
| `Endpoints.NormalizeIsIdempotent` | pkg/discover/endpoint.go:141-201 | Normalizing a normalized endpoint changes nothing, even with another default port. |
| `Endpoints.NormalizedIsCanonical` | pkg/discover/endpoint.go:141-201 | Every result is a valid host joined with a port in 1..65535. |
| `Endpoints.HostSpellings` | pkg/discover/endpoint.go:141-201 | Every host name or IPv4 literal is accepted with a port in 1..65535, which it keeps, and without one, when it gets the default port; with a port out of that range it is refused. |
| `Endpoints.IPv6Spellings` | pkg/discover/endpoint.go:141-201 | Every IPv6 literal is accepted bracketed with a port, which it keeps, and bracketed or bare without one, when it gets the default port. |
| `Endpoints.NormalizeEndpoints` | pkg/discover/endpoint.go:206-224 | The loop computes the list, or stops at the first entry that is not blank and not valid. |
| `Endpoints.NormalizeAllGives` | pkg/discover/endpoint.go:206-224 | The list holds each normalized entry once, and nothing else. |
| `Endpoints.NormalizeAllIsIdempotent` | pkg/discover/endpoint.go:206-224 | Normalizing a normalized list gives it back. |
| `Endpoints.MetadataRoundTrip` | pkg/client/client.go:1561-1586 | The client splits the server's metadata back into the reflected address, exactly the advertised list and the punch endpoint. |
| `Endpoints.AdvertisedArrives` | pkg/server/server.go:1119-1152 | End to end: from a configuration that normalizes to at most 64 endpoints, the client tries exactly those, first and in order, then the server's own, each once and at most 64 in all, and reads the exact punch endpoint. |
| `Endpoints.HandshakeMetadata` | pkg/server/server.go:1119-1152 | The two loops join the advertised endpoints that are not empty, then the machine's own, each once and at most 64. |
| `Endpoints.ExtendedGives` | pkg/server/server.go:1131-1148 | Adding addresses keeps the list as a prefix, repeats nothing, holds at most 64, and leaves an address out only when it is listed, empty where that is skipped, or the list is full. |
| `Endpoints.MetadataFits` | pkg/security/session.go:147-154 | 64 endpoints with hosts of 253 bytes and 48 000 bytes of reflected and punch text fit the limit NewHandshakeResponse checks. |
| `Text.JoinSplits` | pkg/discover/endpoint.go:156-170 | Splitting a joined host and port gives them back, bracketed or not. |
| `ProxyHeader.EnvelopeRoundTrip` | pkg/proxyproto/header.go:90-141 | ParseHeader on a built header with any extension and payload returns the source, its port reduced to 16 bits, and the exact payload offset, or an invalid address exactly when the source is unspecified or that port is zero. |
| `ProxyHeader.SpecifiedSourceReturns` | pkg/proxyproto/header.go:30-66 | For a specified source and ports in 1..65535, the source comes back unchanged and the offset leads to the payload. |
| `ProxyHeader.TruncationIsDetected` | pkg/proxyproto/header.go:91-106 | A datagram cut inside the envelope is refused as too short. |
| `ProxyHeader.BuildV2Header` | pkg/proxyproto/header.go:30-66 | Builds, in place, the IPv4 envelope when both ends are IPv4 and the IPv6 one otherwise, byte by byte as the specification has it, or refuses the addresses. |

## Left out

- Real AES-GCM, HMAC, HKDF and X25519 internals: ideal functions, as listed above.
- Sockets, DNS, tickers, goroutine scheduling and logging: steps and parameters.
- The upstream game socket of a session and what the game server answers: the return address is modelled, the sending is not.
- The PROXY sender table that decides whether a datagram came through a relay: the decision and the address reported are a parameter.
- The punch worker's loop inside the server class: `ServerNode` sets its flag and wake-up, and `PunchWorker` models one session's worker with its own interleaving.
- ServerNode.ClientSession.Handle: replies are returned before sealing, which `SecureSession` models, and the first-probe log is left out.
- ServerNode.Server.StopServer: what other tasks still do while Stop waits for them are steps of the model of their own.
- ServerNode.Server.HandlePacket: the target endpoint a PunchInit names is a parameter, because the parser of that text is not part of this model.
- RouteSelect.RouteClient.SelectBestCandidate: reads each candidate's measurements at one instant, while the source reads them under per-candidate locks; candidates are values with identities in a list the methods reassign.
- RouteSelect.RouteClient.AddCandidate: composes its two lock sections with nothing in between; `RouteSelect.RunIsRoutable` lets other steps come between them. The static LAN flag of an address is left out: it only picks between the Lan and Direct labels of a hint, which may be any label here.
- SetModeRace.EveryPunchRetired: selection inside the lock is any choice some mode read in the section allows, which covers the real one; the candidate limits are left to `RouteSelect`.
- The race between a reset and a handshake response being handled: handlers are atomic in `Adoption`.
- Route reporting (`pkg/router/switcher.go`), configuration, secrets, UPnP, NAT detection, terminal output and the transport wrapper: no state the modelled decisions read.
- The float scaling of RTT to pixels and the rest of `pkg/client/cli.go`: `LineRaster` starts from integer ends.
- PROXY version 1 text and `net.ParseIP`'s grammar: a parameter and a predicate.
- LineRaster.Canvas.DrawLine: integers are unbounded, so the exactness of the float64 absolute value below 2^53 is not modelled.
- The candidates a server gathers from its own interfaces: `Endpoints.MetadataRoundTrip` takes them canonical like the advertised ones.
