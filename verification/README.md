# Verified core of the positioning client

A Dafny model of the parts of the SUPL/LPP positioning client that hold state or do exact arithmetic, with proofs
of what they guarantee over every input and every run:

- **Scheduler**: the epoll scheduler hands out a fixed pool of 256 event slots as (index, 16-bit generation)
  handles, delays freeing through a pending flag, and runs deferred callbacks in passes.
- **LppTransactions** and **LppConnection**: an LPP session's transaction tables (handle map, wire lookup,
  generation and sequence counters) and its connection state machine on top of SUPL.
- **SuplSession** and **SuplIdentity**: a SUPL session reassembles a byte stream into PDUs through a 64 KiB
  buffer, binds to one SET/SLP pair, sends with partial writes, and carries phone and subscriber numbers as
  swapped-nibble octets.
- **TbinMerge**: replay of several time-stamped recordings as one stream.
- **Calendar**, **TimeSystems**, **Ephemeris**: the UTC calendar, the GPS, Galileo, BeiDou, GLONASS and TAI
  clocks, and the validity of broadcast ephemerides across week rollovers.
- **MsgPack**: the MessagePack packer and unpacker.
- **WriteBuffer** and **TagRegistry**: the bounded write queue and the tag bit masks.

**Basics** holds what several of them share.

Each module has the same shape. Operations that the program performs in place are class methods; each is proved
to take exactly the step that a function on values describes. What the program is for is then proved about those
steps: against books that a perfect implementation would keep, against an independent reference (a greedy parse, a
merge of the earliest heads, the last max bytes, an ordered list of names), or as an inverse. Runs are arbitrary
sequences of calls, with arbitrary arguments, also stale or made-up handles.

Calls into the outside (epoll, sockets, TLS, the ASN.1 coder, clocks, user callbacks) are parameters: `added`,
`script`, `network`, `decode`, `encodes`, `link`, `Env`. The ASN.1 decoder is any function that takes between one
byte and what it was given for a PDU; for reassembly it must also be prefix-stable, that is, more bytes do not
change a verdict that did not ask for more. Where a result depends on it, `SkipsNothing` states that a failure reports
no byte consumed, as `external/asn.1/skeleton/uper_decoder.c:91-94` has it. Sums and differences of `size_t` wrap at a
width that is a parameter, any from 32 bits up.

## What the proofs found

- A stale event or handle resolves again exactly when its slot is in use after a whole number of 65535 retakes;
  the bound is reached (`Scheduler.BoundIsTight`). An interrupt descriptor of 65536 or more can clash with an
  event word (`Scheduler.InterruptClash`).
- `remove_transaction` (`dependency/lpp/session.cpp:554`) tests the client flag twice, so a client end alone
  always removes the transaction (`LppTransactions.EndShape`).
- `mClientTransactions` is searched and erased but never filled, so numbers are reused blindly after 256
  allocations and an older open transaction is then no longer reached; ending it erases the newer one's entry too
  (`LppTransactions.ReachableIffRecent`, `LppTransactions.OverrunLosesTransaction`, `LppTransactions.OverrunThenEnd`).
- A connected SUPL session can end without noticing: no run consumes anything more exactly when its receive buffer is
  final (`SuplSession.EndsIff`). That is so after a rejection that skips no byte, as every one the uPER decoder reports,
  with complete messages behind it (`LppConnection.RejectionStalls`), and with a full buffer for which the decoder asks
  for more, since then no byte is read (`SuplSession.FullBufferEnds`).
- A session rests in MESSAGE only after the handshake of its current connection. Should a stray read wake-up visit
  MESSAGE earlier within one call, the transport is down and nothing is handed over (`LppConnection.StrayVisit`).
- An LPP session that has exited and is connected again without a cancel still holds its SUPL session and exits at once
  (`LppConnection.ConnectAgain`); after an unacceptable reply it reads nothing more and waits for an error only
  (`LppConnection.NoReplyLeg`).
- The identity comparison (`dependency/supl/session.cpp:400-401`) compares an IP address with itself, and an
  unknown identity never equals itself, so a server with an unknown SLP identity is accepted once only
  (`SuplIdentity.SameIdentityIsEquality`, `SuplSession.RepeatAccepted`).
- A number of more than 16 digits is encoded as fillers only and comes back as zero (`SuplIdentity.RoundTrip`).
- A timestamp of one day or more before 1970, or from 2099 on, gets a date that `utc_from_date` refuses
  (`Calendar.TimestampRoundTrip`).
- Weeks are counted toward zero, so between the GPS and the Galileo epoch the two week numbers are 1024 apart only
  at week boundaries (`TimeSystems.GalileoWeeks`).
- Going from UTC to TAI subtracts the 37 s by which `dependency/time/include/time/tai.hpp:65-68` puts TAI ahead of
  UTC, so the result is 74 s behind (`TimeSystems.TaiIsBehind`); the conversion is still invertible.
- An ephemeris whose reference time lies in the previous week is always rejected
  (`Ephemeris.PreviousWeekRejected`).
- With a 32-bit `size_t` the sum in `read_bytes` wraps: five bytes make `unpack_str` hand out memory past the data
  and move the offset back (`MsgPack.FiveBytesWrap`). With 64 bits that cannot happen (`MsgPack.WideRunInBounds`).
- `WriteBuffer::consume` wraps in `size_t`: a count beyond `SIZE_MAX - mReadPos` brings consumed bytes back
  (`WriteBuffer.ConsumeRefines`, `WriteBuffer.WrapResurrects`); above its maximum the queue then discards nothing until
  it is drained or longer data arrive (`WriteBuffer.EnqueueExactly`). The content is bounded but the vector behind it is
  not: for a maximum of two bytes or more only the address space bounds it (`WriteBuffer.StorageBound`).
- An alias may hide a tag of the same name; then the tag no longer answers to its own name
  (`TagRegistry.OwnName`).

## Model

| member | source | states |
|---|---|---|
| Scheduler.HandleRoundTrip | dependency/scheduler/scheduler.cpp:370-376 | decoding an encoded handle of two 16-bit fields gives it back, in 32 bits |
| Scheduler.InterruptClash | dependency/scheduler/scheduler.cpp:304-315 | some issuable handle's event word is taken for the interrupt event iff the interrupt descriptor is at least 65536 with a slot index in its low 16 bits |
| Scheduler.FirstFree | dependency/scheduler/scheduler.cpp:420-426 | the slot chosen is the first that is neither in use nor pending |
| Scheduler.RunKeeps | dependency/scheduler/scheduler.cpp:345-527 | every step keeps the invariant: the epoll count is the number of slots in use, no slot is in use and pending, generations follow the takes, live registrations own their slots, no slot in use is an orphan, and no registration is forgotten |
| Scheduler.ResolvedIsNamed | dependency/scheduler/scheduler.cpp:396-402 | a handle resolves iff the books name a live registration by it |
| Scheduler.OneOwnerPerSlot | dependency/scheduler/scheduler.cpp:411-460 | two live registrations never share a slot |
| Scheduler.HandleSafety | dependency/scheduler/scheduler.cpp:396-527 | over every run, a live registration's handle resolves to its own descriptor and callback; a dead one's resolves iff the slot is in use again after a whole number of 65535 takes, hence never within fewer |
| Scheduler.EventSafety | dependency/scheduler/scheduler.cpp:304-338 | over every run and for every interrupt descriptor that does not clash, the kernel's word of a registration invokes its own callback while it is live and nothing afterwards, within the bound |
| Scheduler.BoundIsTight | dependency/scheduler/scheduler.cpp:433-442 | a run with exactly 65535 retakes lets a dead handle resolve to a later registration |
| Scheduler.FreedSlotNotReissued | dependency/scheduler/scheduler.cpp:345-353 | a slot pending at any point stays pending and is given to no registration until the next deferred pass |
| Scheduler.UnregisteredIsOver | dependency/scheduler/scheduler.cpp:345-527 | over every run, a live registration that is unregistered is over at once: until the next deferred pass its handle resolves to nothing, not even to a later registration, and its slot is given to none |
| Scheduler.PassFrees | dependency/scheduler/scheduler.cpp:345-353 | after a deferred pass no slot is pending; the pending ones are empty and every other one is unchanged |
| Scheduler.FreeAfterPass | dependency/scheduler/scheduler.cpp:345-353 | over every run, right after a pass a slot is free iff no live registration holds it |
| Scheduler.RegisterAfterPass | dependency/scheduler/scheduler.cpp:345-460 | over every run, a registration right after a pass yields a valid handle iff epoll accepts it and fewer than 256 are live; the handle resolves to its descriptor and callback |
| Scheduler.RegisterIff | dependency/scheduler/scheduler.cpp:411-460 | at any time a registration yields a valid handle iff epoll accepts it and some slot is neither in use nor pending |
| Scheduler.EpollCountsLive | dependency/scheduler/scheduler.cpp:411-527 | in every reachable state the epoll count is the number of live registrations |
| Scheduler.DeferredExactlyOnce | dependency/scheduler/scheduler.cpp:340-368 | every callback deferred is visited once, in a pass under way or queued, however passes nest |
| Scheduler.DeferredFifo | dependency/scheduler/scheduler.cpp:340-368 | without nested passes callbacks are visited in the order they were deferred |
| Scheduler.DeferredFromStart | dependency/scheduler/scheduler.cpp:340-368 | both for a scheduler started idle: what has been visited is the beginning of what was deferred |
| Scheduler.PassRunsItsBatch | dependency/scheduler/scheduler.cpp:355-367 | the innermost pass visits exactly what was queued when it began, one callback a step and in order, and is over one step after the last; the passes around it stand still, and what is deferred meanwhile waits |
| Scheduler.PassEmptiesTheQueue | dependency/scheduler/scheduler.cpp:345-368 | a whole pass, begun in any state, visits the whole queue and leaves in it only what was deferred meanwhile |
| Scheduler.EventScheduler.constructor | dependency/scheduler/scheduler.cpp:38-74 | starts with 256 fresh slots, no events and an empty queue |
| Scheduler.EventScheduler.RegisterFd | dependency/scheduler/scheduler.cpp:411-460 | takes the registration step in place: first free slot, next generation skipping 0, rolled back but not the generation when epoll refuses; refuses when the pool is exhausted or the scheduler is not ready |
| Scheduler.EventScheduler.GetSlot | dependency/scheduler/scheduler.cpp:396-402 | answers exactly when the handle resolves |
| Scheduler.EventScheduler.UnregisterHandle | dependency/scheduler/scheduler.cpp:503-527 | marks a resolved slot pending and counts down; leaves everything else alone |
| Scheduler.EventScheduler.SetCallback | dependency/scheduler/scheduler.cpp:490-501 | replaces the callback of a resolved slot only |
| Scheduler.EventScheduler.ProcessEvent | dependency/scheduler/scheduler.cpp:304-338 | invokes the callback of the slot the word resolves to, and none for the interrupt or a stale word |
| Scheduler.EventScheduler.Defer | dependency/scheduler/scheduler.cpp:340-343 | appends to the queue |
| Scheduler.EventScheduler.ProcessDeferred | dependency/scheduler/scheduler.cpp:345-361 | releases every pending slot, keeps all others and their generations, and moves the whole queue out |
| LppTransactions.FirstUnused | dependency/lpp/session.cpp:617-629 | the number chosen is the first unused of the 255 tried, if there is one |
| LppTransactions.AllocateAnswer | dependency/lpp/session.cpp:614-630 | an allocation is refused iff all numbers but perhaps the one before the next are in use; otherwise its number is the first not in use counting up round the 256 |
| LppTransactions.RunKeeps | dependency/lpp/session.cpp:491-822 | every interleaving of create, delete, send, server end, queue flush and whole deliveries, ends included, keeps the table invariant |
| LppTransactions.HandlesAreUnique | dependency/lpp/session.cpp:614-630 | over every run no two handles ever issued are equal |
| LppTransactions.StaleHandleStaysDead | dependency/lpp/session.cpp:545-572 | once its transaction is gone, an issued handle is never live again, whatever runs |
| LppTransactions.WireLookup | dependency/lpp/session.cpp:775-843 | over every run each lookup entry points to a live transaction of that number and initiator; server numbers are unique among live ones and always reached |
| LppTransactions.ReachabilityStep | dependency/lpp/session.cpp:513-572 | a step keeps every live client transaction reachable iff it does not allocate a number a live one still carries |
| LppTransactions.TakenIsOld | dependency/lpp/session.cpp:614-630 | a live client transaction that carries the next number is at least 256 allocations old |
| LppTransactions.LookupIsBijection | dependency/lpp/session.cpp:513-543 | the lookup is a bijection to the live transactions in every run whose live client transactions stay among the last 256 allocated |
| LppTransactions.ReachableIffRecent | dependency/lpp/session.cpp:513-630 | over every run, all live client transactions are reached in every state iff in every state all are among the last 256 allocated |
| LppTransactions.EndHidesOther | dependency/lpp/session.cpp:545-572 | ending either of two live transactions with one wire id leaves the other live and unreached |
| LppTransactions.OverrunLosesTransaction | dependency/lpp/session.cpp:614-630 | from any state, a transaction kept open through 256 more creations is live but no longer reached |
| LppTransactions.OverrunThenEnd | dependency/lpp/session.cpp:545-572 | from any state, ending that older transaction leaves the newest live and unreached |
| LppTransactions.EndShape | dependency/lpp/session.cpp:545-612 | a client end always removes; a server end removes iff one side may end alone, and otherwise only marks |
| LppTransactions.DeliverAnswer | dependency/lpp/session.cpp:767-808 | in every reachable state a message with a body is delivered on the live transaction its id reaches; an unreached server id in 0..255 is delivered on a handle never issued, entered as endable by either side; everything else on nothing, and nothing changes |
| LppTransactions.ReceiveAnswer | dependency/lpp/session.cpp:767-822 | in every reachable state, after a delivery with endTransaction the transaction is gone if either side may end it, and else marked ended by the server; without, it is live; no other transaction changes |
| LppTransactions.ServerEndAnswer | dependency/lpp/session.cpp:574-595 | in every reachable state a server end removes a live transaction with its entry if either side may end it, marks it otherwise, and touches no other |
| LppTransactions.ClientEndAnswer | dependency/lpp/session.cpp:597-612 | in every reachable state a delete removes a live transaction with its entry and touches no other |
| LppTransactions.CreateAnswer | dependency/lpp/session.cpp:491-506 | in every reachable state a creation succeeds on a handle never issued, under the next number |
| LppTransactions.SendAnswer | dependency/lpp/session.cpp:632-706 | in every reachable state a message is handed over iff its header is its own, its transaction is live, it encodes and the link does not refuse; it carries the end iff one was promised, and then the transaction is gone; the queue is emptied when it exceeds 16 |
| LppTransactions.SendWithEndAnswer | dependency/lpp/session.cpp:708-716 | in every reachable state the message handed over carries the end and the transaction is gone; if none is handed over the promise stays |
| LppTransactions.EndIsLast | dependency/lpp/session.cpp:632-716 | over every run at most one message handed over on a transaction carries endTransaction, none follows it, and the transaction is gone |
| LppTransactions.SequenceNumbers | dependency/lpp/session.cpp:671-674 | two messages share a sequence number iff a multiple of 255 numbered messages lies between, so 255 consecutive ones are distinct |
| LppTransactions.TransactionTables.constructor | dependency/lpp/session.cpp:132-139 | starts with empty tables, the first number and generation 1 |
| LppTransactions.TransactionTables.AllocateTransaction | dependency/lpp/session.cpp:614-630 | allocates as the value step does, moving number and generation on |
| LppTransactions.TransactionTables.AddTransaction | dependency/lpp/session.cpp:513-543 | refuses numbers outside 0..255 and live handles; otherwise enters both tables |
| LppTransactions.TransactionTables.CreateTransaction | dependency/lpp/session.cpp:491-506 | allocation followed by entry, invalid if either fails |
| LppTransactions.TransactionTables.RemoveTransaction | dependency/lpp/session.cpp:545-572 | removes under the condition as written and not otherwise |
| LppTransactions.TransactionTables.ServerEndTransaction | dependency/lpp/session.cpp:574-595 | marks the server's end and removes if allowed |
| LppTransactions.TransactionTables.ClientEndTransaction | dependency/lpp/session.cpp:597-612 | marks the client's end and removes |
| LppTransactions.TransactionTables.SendMessage | dependency/lpp/session.cpp:632-706 | numbers the message, hands it to SUPL or the 16-place queue, and ends the transaction after an end message; a preset header, an unknown or ended transaction, an encoding or a link failure stops it where the source stops |
| LppTransactions.TransactionTables.SendMessageWithEnd | dependency/lpp/session.cpp:708-716 | promises the end first, so that a failed send keeps the promise |
| LppTransactions.TransactionTables.ProcessPayload | dependency/lpp/session.cpp:742-822 | delivers on the transaction the wire id reaches, opens one for an unknown server id, drops an unknown client id, and ends it on endTransaction, as `DeliverAnswer` and `ReceiveAnswer` pin |
| SuplIdentity.CountBound | dependency/supl/encode.cpp:104-109 | a number has at most n digits iff it is below 10^n |
| SuplIdentity.RoundTrip | dependency/supl/encode.cpp:96-131 | for every width N, decoding the octets gives the number back iff it is below 10^(2N) |
| SuplIdentity.WireFormat | dependency/supl/encode.cpp:96-131 | each octet of a number that fits holds two digits, the earlier one in its low half, and fillers behind the last |
| SuplIdentity.WireExample | dependency/supl/encode.cpp:96-131 | 12345 in three octets is 21 43 F5 |
| SuplIdentity.DecodedAnswer | dependency/supl/decode.cpp:62-73 | any octets decode to the number of their halves that are not fillers, low half first, modulo 2^64 |
| SuplIdentity.IdentityAnswer | dependency/supl/decode.cpp:54-115 | a SETId is unknown iff the program cannot use its kind; numbers and addresses are those of the octets |
| SuplIdentity.BinaryEncodedOctet | dependency/supl/encode.cpp:96-131 | the octets hold the digits most significant first in swapped nibbles, then fillers; only fillers when the number does not fit |
| SuplIdentity.DecodeNumber | dependency/supl/decode.cpp:62-73 | reads the nibbles in order, skips fillers, in 64-bit arithmetic |
| SuplIdentity.SameIdentityIsEquality | dependency/supl/session.cpp:393-406 | the comparison is equality except that unknown never equals itself and addresses of one family always match |
| SuplIdentity.EncodeSetId | dependency/supl/encode.cpp:160-189 | the SETId encodes the identity, numbers in 8 octets |
| SuplIdentity.DecodeIdentity | dependency/supl/decode.cpp:54-115 | the identity that the SETId stands for; unknown for the unsupported kinds |
| SuplIdentity.EchoPasses | dependency/supl/session.cpp:393-412 | an echoed SET identity passes the comparison iff a numeric one is below 10^16 |
| SuplSession.GreedyExtend | dependency/supl/session.cpp:294-338 | a greedy parse may stop anywhere and go on when more bytes are there |
| SuplSession.ParseTakes | dependency/supl/session.cpp:280-338 | one parse takes bytes off the front only, at least one for a PDU |
| SuplSession.FillAppends | dependency/supl/session.cpp:340-376 | filling moves bytes from the stream to the end of the buffer, losing none, within the capacity, and nothing when not connected |
| SuplSession.RunReassembles | dependency/supl/session.cpp:280-376 | over every run consumed bytes plus buffer are the bytes received, and the PDUs taken plus a greedy parse of the buffer are the greedy parse of everything received |
| SuplSession.ChunkingIndependent | dependency/supl/session.cpp:280-376 | any two runs that received the same bytes in any chunks agree on PDUs taken plus PDUs still buffered, and on the remainder, namely the greedy parse of those bytes; drained runs took the same PDUs and hold the same buffer |
| SuplSession.DrainedHasRoom | dependency/supl/session.cpp:350-356 | a drained buffer has room for more bytes or is final; it has room if no PDU exceeds the buffer |
| SuplSession.ParseYieldsNothing | dependency/supl/session.cpp:294-338 | one parse yields nothing iff the buffer is at a standstill, which it leaves alone, or its beginning is rejected, which it skips |
| SuplSession.TakesNothing | dependency/supl/session.cpp:294-338 | a parse takes nothing off a buffer iff it is at a standstill or its rejection skips no byte; for a decoder that skips none, every rejection is such |
| SuplSession.StuckForever | dependency/supl/session.cpp:280-376 | from a final buffer nothing more is consumed or taken, whatever arrives and runs |
| SuplSession.EndsIff | dependency/supl/session.cpp:280-376 | for a connected session, no run consumes anything more iff its buffer is final: nothing that still fits lets a parse take a byte |
| SuplSession.FinalCases | dependency/supl/session.cpp:325-356 | a stuck buffer and a full one for which the decoder asks for more are final; the others are those at a standstill that every fitting continuation leaves so or stuck |
| SuplSession.FinalBuffers | dependency/supl/session.cpp:325-356 | if whatever asks for more can be completed within the buffer, a buffer is final iff it is stuck, or full and the decoder asks for more |
| SuplSession.FullBufferEnds | dependency/supl/session.cpp:353-356 | an input for the full buffer |
| SuplSession.RunBinds | dependency/supl/session.cpp:91-127 | over every run accepted messages carry the client's own SET session and the first one's SLP id; being connected implies an active SET session; nothing is accepted before connecting |
| SuplSession.FreshRunBinds | dependency/supl/session.cpp:29-127 | the same for every run from a new session |
| SuplSession.RepeatAccepted | dependency/supl/session.cpp:484-496 | the binding message is accepted again iff its SLP identity is known |
| SuplSession.EchoAccepted | dependency/supl/session.cpp:467-499 | a server that echoes the SET session is accepted iff a numeric identity is below 10^16 |
| SuplSession.MessageAnswer | dependency/supl/session.cpp:467-499 | every PDU is unsupported iff it is not of a kind wanted or lacks a session, of another session iff it is not ours, and else its own kind; the first of ours binds the SLP session, and nothing else changes |
| SuplSession.ReceiveAnswer | dependency/supl/session.cpp:448-465 | an attempt to receive is terminated iff the transport is down; else it takes the PDU the buffer begins with, and has no data if there is none |
| SuplSession.FillAnswer | dependency/supl/session.cpp:340-376 | a fill moves as much as was offered, is there and fits, over all calls up to the first that leaves nothing pending, blocks, fails or fills the buffer; it fails iff that call finds the transport closed or failed |
| SuplSession.FillOffline | dependency/supl/session.cpp:340-376 | without a connection nothing is read, and only a full buffer is no failure |
| SuplSession.SetupAnswer | dependency/supl/session.cpp:60-148 | from a new session connecting, its progress and START lead to waiting for the handshake iff the connect call, the network and the send succeed; then the session is active and unbound; a failed network leaves both sessions inactive |
| SuplSession.SetupRefused | dependency/supl/session.cpp:60-148 | each of these calls is refused, changing nothing, in any other state; once connected a session is active and unbound, whatever it was |
| SuplSession.HandshakeIff | dependency/supl/session.cpp:150-174 | a reply is accepted iff the session waits for it, the transport is up and does not fail, and the first PDU is a RESPONSE of ours; it has no data iff no PDU is there |
| SuplSession.HandshakeBinds | dependency/supl/session.cpp:150-174 | an accepted reply leaves the session connected, bound by it, and with what stands behind it in the buffer |
| SuplSession.HandsOver | dependency/supl/session.cpp:176-230 | all of the data is handed over iff some first answers are all positive counts or ready waits and sum to at least its length; otherwise, what those before the first other answer sum to |
| SuplSession.DisconnectAnswer | dependency/supl/session.cpp:120-127 | after a disconnect neither session is active and the transport is down, if there was one |
| SuplSession.HandleHandshake | dependency/supl/session.cpp:150-174 | the session becomes connected again only from waiting and only on a RESPONSE of its own SET session and the SLP session it is bound to, within the buffer's capacity |
| SuplSession.Session.constructor | dependency/supl/session.cpp:29-48 | starts unbound, with an empty buffer and its own SET session |
| SuplSession.Session.RbConsume | dependency/supl/session.cpp:280-292 | shifts the unread bytes to the front in place |
| SuplSession.Session.ParseReceiveBuffer | dependency/supl/session.cpp:294-338 | takes a PDU, waits for more, or skips what the decoder rejects, as the value step does |
| SuplSession.Session.FillReceiveBuffer | dependency/supl/session.cpp:340-376 | reads in place until full, blocked, closed or without pending data |
| SuplSession.Session.Interpret | dependency/supl/session.cpp:467-499 | classifies, checks the SET session, binds or checks the SLP session |
| SuplSession.Session.TryReceiveMessage | dependency/supl/session.cpp:448-465 | one PDU from the buffer, interpreted; terminated when not connected |
| SuplSession.Session.HandleHandshakeReply | dependency/supl/session.cpp:150-174 | the handshake step in place |
| SuplSession.Session.StartConnection | dependency/supl/session.cpp:60-89 | connects only from the initial state |
| SuplSession.Session.SetConnectionProgress | dependency/supl/session.cpp:91-118 | activates the SET session on success, deactivates both on failure |
| SuplSession.Session.StopConnection | dependency/supl/session.cpp:120-127 | deactivates both sessions and drops the transport |
| SuplSession.Session.SendStart | dependency/supl/session.cpp:133-148 | waits for the handshake only after START went out on a connected session |
| SuplSession.Session.SendAll | dependency/supl/session.cpp:176-230 | for every behaviour of the transport it is handed a prefix of the data; the result is true iff that is all of it, iff the answers that go on sum to at least its length |
| LppConnection.DrainMessages | dependency/lpp/session.cpp:444-462 | the receive loop ends because the buffer shrinks; it leads to a wait or to DISCONNECTED and hands payloads over only while connected |
| LppConnection.Visit | dependency/lpp/session.cpp:206-253 | every immediate transition of a state function lowers the rank, and a state function touches the SUPL session, the connection number and the log only |
| LppConnection.Turn | dependency/lpp/session.cpp:193-252 | one turn either finishes the call or lowers the rank |
| LppConnection.RunKeeps | dependency/lpp/session.cpp:192-489 | every run of user calls and wake-ups, also stray ones, keeps the invariant between phase, armed wake-ups and handshake stage |
| LppConnection.PayloadAfterHandshake | dependency/lpp/session.cpp:192-463 | over every run a payload is handed over, and the session rests in MESSAGE between calls, only after START sent, RESPONSE accepted and POSINIT sent in this order on the same connection |
| LppConnection.ConnectLeg | dependency/lpp/session.cpp:279-294 | a call in CONNECT waits for the transport iff the connection was started and scheduler and descriptor are there; otherwise the session is over |
| LppConnection.ConnectAgain | dependency/lpp/session.cpp:279-286 | a session connected again without a cancel still has its SUPL session and exits at once |
| LppConnection.ConnectingLeg | dependency/lpp/session.cpp:296-369 | a call in CONNECTING sends START and waits for the reply iff the transport is up and START goes out; it waits for the transport iff that wants to read or write; otherwise the session is over |
| LppConnection.HandshakeLeg | dependency/lpp/session.cpp:371-429 | a call in HANDSHAKE_RECV logs RESPONSE accepted and then POSINIT sent and ends armed to read messages iff the reply is a RESPONSE of this session, POSINIT goes out, and scheduler and descriptor are there; after an accepted reply the session is over otherwise |
| LppConnection.NoReplyLeg | dependency/lpp/session.cpp:371-383 | without an acceptable reply it keeps waiting to read iff the transport is up and no complete PDU has come; otherwise only an error moves it on |
| LppConnection.MessageLeg | dependency/lpp/session.cpp:431-463 | a call in MESSAGE hands over the payloads owed to the PDUs behind its reads, each once and in order, and goes on waiting iff the transport does not fail and none of them ends the session; otherwise it is over |
| LppConnection.DrainsOwed | dependency/lpp/session.cpp:444-462 | the receive loop hands over all payloads of every POS of this session up to the first END or message of another session, and waits iff there is none |
| LppConnection.ChunkIsGreedy | dependency/lpp/session.cpp:444-462 | with a decoder that skips no byte these PDUs are all of the greedy parse |
| LppConnection.ErrorLeg | dependency/lpp/session.cpp:267-271 | an error wake-up ends a scheduled session that is armed for it |
| LppConnection.CallAnswer | dependency/lpp/session.cpp:171-716 | connecting starts over only from the start or after an exit; a message that cannot be sent takes the SUPL session down; a cancel drops session and scheduler |
| LppConnection.SessionSucceeds | dependency/lpp/session.cpp:171-463 | whatever the decoder and identity, with an outside that does its part the run sends START, accepts the reply, sends POSINIT, hands over every payload of the POS in order and waits for more |
| LppConnection.SomeServerAnswers | dependency/lpp/session.cpp:171-463 | such an outside exists |
| LppConnection.StrayVisit | dependency/lpp/session.cpp:255-259 | inside a call MESSAGE may be visited earlier only with the transport down; then nothing is handed over and the visit leads to DISCONNECTED or trips an assertion |
| LppConnection.WaitLeaves | dependency/lpp/session.cpp:444-462 | when the receive loop waits, its last parse was at a standstill and the buffer is drained, or it was a rejection and all behind the skipped bytes is left unparsed |
| LppConnection.WaitDrains | dependency/lpp/session.cpp:444-462 | a wait leaves the remainder of the greedy parse iff what it leaves is at a standstill or stuck, as always with a decoder that skips no byte |
| LppConnection.RejectionStalls | dependency/lpp/session.cpp:448-449 | a prefix-stable decoder that skips nothing and five bytes: the message behind the rejected byte is not handed over, and nothing is consumed over any run |
| LppConnection.ReceiveMessages | dependency/lpp/session.cpp:444-462 | the loop computes what the recursive form describes |
| LppConnection.Session.constructor | dependency/lpp/session.cpp:132-139 | starts in the initial state without a session |
| LppConnection.Session.TakeTurn | dependency/lpp/session.cpp:193-252 | takes one turn of the loop in place |
| LppConnection.Session.Arm | dependency/lpp/session.cpp:229-251 | arms the wake-ups if there is a session to wait for, else goes to DISCONNECTED |
| LppConnection.Session.ProcessStates | dependency/lpp/session.cpp:192-253 | the loop terminates by rank and computes the value step, whose results the legs state without the state functions |
| LppConnection.Session.ProcessRead | dependency/lpp/session.cpp:255-259 | continues with the armed read state |
| LppConnection.Session.ProcessWrite | dependency/lpp/session.cpp:261-265 | continues with the armed write state |
| LppConnection.Session.ProcessError | dependency/lpp/session.cpp:267-271 | continues with the armed error state |
| LppConnection.Session.Cancel | dependency/lpp/session.cpp:473-489 | exits and drops session and scheduler |
| TbinMerge.TakenIsPrefix | dependency/client-io/tbin_input.cpp:59-134 | what is taken from a source is a prefix of it, in order, no timestamp plus shift past the stop time |
| TbinMerge.NothingLostOrRepeated | dependency/client-io/tbin_input.cpp:59-134 | a complete replay takes from each source exactly its messages up to the first whose timestamp plus shift is past a positive stop time, all of them without one |
| TbinMerge.ReadersInRange | dependency/client-io/tbin_input.cpp:88-89 | everything delivered comes from one of the sources |
| TbinMerge.ReplayOrdered | dependency/client-io/tbin_input.cpp:65-118 | the replay is globally ordered by timestamp plus shift iff what it takes from each source is |
| TbinMerge.SortedReplay | dependency/client-io/tbin_input.cpp:65-134 | from time-sorted sources a complete replay is in global order of timestamp plus shift and delivers exactly the messages for which that is at or before a positive stop time |
| TbinMerge.InvokedConcat | dependency/client-io/tbin_input.cpp:91-106 | passing on goes message by message, in order |
| TbinMerge.InvokedOne | dependency/client-io/tbin_input.cpp:91-106 | a message is passed on iff it has data |
| TbinMerge.TbinInput.constructor | dependency/client-io/tbin_input.cpp:15-41 | reads ahead one message of every source that opens; the heap then tracks exactly the heads |
| TbinMerge.TbinInput.Top | dependency/client-io/tbin_input.cpp:66-66 | an entry of least time, ties either way |
| TbinMerge.TbinInput.DeliverNext | dependency/client-io/tbin_input.cpp:59-134 | extends the log by a merge run until it is complete, and passes on exactly the messages with data |
| TbinMerge.TbinInput.Advance | dependency/client-io/tbin_input.cpp:88-118 | pops an earliest message, reads ahead in its source, and shrinks what is left |
| Calendar.Normalized | dependency/time/include/time/timestamp.hpp:73-87 | the normal timestamp of the same instant |
| Calendar.NormalUnique | dependency/time/include/time/timestamp.hpp:73-87 | an instant has one normal timestamp |
| Calendar.Normalize | dependency/time/include/time/timestamp.hpp:73-87 | the two carry loops terminate at the normal timestamp |
| Calendar.DaysLoop | dependency/time/utc.cpp:45-58 | the year-summing loop computes the day number |
| Calendar.UtcFromDate | dependency/time/utc.cpp:26-70 | the timestamp of a date the source accepts |
| Calendar.SearchMonth | dependency/time/utc.cpp:86-94 | the month loop computes the month that holds the day |
| Calendar.FindMonth | dependency/time/utc.cpp:86-94 | the month found starts at or before the day and ends after it |
| Calendar.DateFromUtc | dependency/time/utc.cpp:82-117 | the date of a timestamp |
| Calendar.DayRoundTrip | dependency/time/utc.cpp:82-117 | every non-negative day number gives a legal date that counts back to it |
| Calendar.DateRoundTrip | dependency/time/utc.cpp:26-117 | every legal date is the one found for its own day number |
| Calendar.TimestampRoundTrip | dependency/time/utc.cpp:26-117 | the date is legal iff the timestamp is not negative, accepted back iff it is after one day before 1970 and before 2099, and then, or if legal in a later year, names the timestamp |
| Calendar.TimePointRoundTrip | dependency/time/utc.cpp:26-117 | every legal date and time of day survives the way to a timestamp and back |
| Calendar.GregorianAgreement | dependency/time/utc.cpp:45-58 | the day numbers are the Gregorian ones iff the date is before March 2100 |
| TimeSystems.PathIndependent | dependency/time/gps.cpp:23-58 | conversions among the six systems compose and are undone by their reverse, for every instant |
| TimeSystems.TaiIsBehind | dependency/time/tai.cpp:10-18 | for every instant UTC to TAI subtracts 37 s, and TAI is 74 s behind the right one against UTC and GPS |
| TimeSystems.GpsEpochDay | dependency/time/gps.cpp:31-41 | the GPS epoch is day 3657 of the UTC calendar |
| TimeSystems.EpochsOnTheCalendar | dependency/time/gst.cpp:18-40 | the day, leap-day and year constants put each epoch on its calendar date |
| TimeSystems.GpsToOthers | dependency/time/bdt.cpp:17-39 | Galileo time is GPS time less 1024 weeks, BeiDou time GPS time less 1356 weeks and 14 s |
| TimeSystems.WeekShift | dependency/time/gps.cpp:68-74 | a shift by whole weeks keeps the time of week and shifts the week number iff it does not cross zero inside a week |
| TimeSystems.WeekRoundTrip | dependency/time/gps.cpp:68-74 | week and time of week make up every instant; from the epoch on the time of week lies within a week, before it within one before |
| TimeSystems.GalileoWeeks | dependency/time/gst.cpp:64-70 | GPS and Galileo share the time of week with weeks 1024 apart iff outside the inner weeks between the epochs |
| TimeSystems.DaysFromYmd | dependency/time/gps.cpp:185-212 | the GPS day number, with year and month clamped as written |
| TimeSystems.GpsDaysClamped | dependency/time/gps.cpp:185-212 | years before 1980 count as 1980 and months outside 1..12 as the nearest; otherwise the day is the UTC day less 3652 |
| TimeSystems.StartYearsAgree | dependency/time/gps.cpp:196-204 | the two year-summing loops differ by the days from 1970 to 1980 |
| TimeSystems.GpsCalendarAgrees | dependency/time/gps.cpp:166-178 | for every date from 1980 on, converting the UTC date to GPS equals `from_ymdhms` plus 18 s |
| TimeSystems.GloFromPeriodDay | dependency/time/glo.cpp:57-81 | the time of day on the given day of the reference's four-year period, whatever period the day names |
| TimeSystems.PeriodDayPlace | dependency/time/glo.cpp:69-75 | from the GLONASS epoch on that day keeps its place in the period and the period of the reference |
| TimeSystems.PeriodDayBefore | dependency/time/glo.cpp:69-75 | before the epoch the period begins at the next multiple of 1461 days toward the epoch |
| Ephemeris.CalculateElapsedTime | dependency/ephemeris/gps.cpp:44-69 | the loops wrap the elapsed time into half a week either way |
| Ephemeris.WrappedAnswer | dependency/ephemeris/gps.cpp:59-69 | the wrapped time differs by whole weeks, is unchanged within half a week, and otherwise is the first value within it that the loops reach |
| Ephemeris.DifferenceMeansWeek | dependency/ephemeris/gal.cpp:22-28 | for every week, a difference of 0 or M-1 holds iff the truncated week number may stand for the query's week, or for the next one where that is recognised: from week 0 on always, before only next to a multiple of M |
| Ephemeris.AcceptedElapsed | dependency/ephemeris/gps.cpp:18-69 | an accepted time is within the fit interval of a week the week number may stand for, and the elapsed time computed from the query's week is the time since that reference |
| Ephemeris.AcceptedIff | dependency/ephemeris/bds.cpp:18-42 | for every instant and ephemeris, a time is accepted iff the week number may stand for its week or a recognised next one whose reference time is within the fit interval |
| Ephemeris.AcceptedFromEpoch | dependency/ephemeris/gps.cpp:18-42 | from the epoch on, accepted iff any week at or after its own, which the week number may stand for, has its reference time within the fit interval |
| Ephemeris.PreviousWeekRejected | dependency/ephemeris/gps.cpp:24-28 | at every instant an ephemeris of the previous week is rejected however recent it is |
| Ephemeris.PreviousWeekInput | dependency/ephemeris/gps.cpp:24-28 | an ephemeris rejected one second after its reference time |
| MsgPack.UintBack | dependency/msgpack/msgpack.cpp:63-79 | every unsigned 64-bit integer comes back from its packed bytes wherever they stand |
| MsgPack.IntBack | dependency/msgpack/msgpack.cpp:40-61 | every signed 64-bit integer comes back from its packed bytes |
| MsgPack.RoundTrip | dependency/msgpack/msgpack.cpp:7-414 | unpacking a packed value of any kind gives it back and consumes exactly its bytes, whatever surrounds them |
| MsgPack.SequenceRoundTrip | dependency/msgpack/msgpack.cpp:7-414 | any sequence of values comes back in order from exactly the bytes written |
| MsgPack.ShortestUint | dependency/msgpack/msgpack.cpp:63-79 | no bytes that unpack to an unsigned integer are fewer than its packed form |
| MsgPack.ShortestInt | dependency/msgpack/msgpack.cpp:40-61 | no bytes that unpack to a signed integer are fewer than its packed form |
| MsgPack.UnpacksFormats | dependency/msgpack/msgpack.cpp:149-414 | on any bytes an unpack call yields a value and an offset iff the bytes up to there are a form of that value in the "Formats" section of the MessagePack specification |
| MsgPack.KindMatters | dependency/msgpack/msgpack.cpp:188-414 | the answer depends on the kind of the call and has its kind |
| MsgPack.PacksFormats | dependency/msgpack/msgpack.cpp:7-147 | what is packed is a form of the value in the specification |
| MsgPack.Shortest | dependency/msgpack/msgpack.cpp:7-147 | no form of a value of any kind in the specification is shorter than the packed one |
| MsgPack.FailedReads | dependency/msgpack/msgpack.cpp:162-186 | a failed read leaves the offset, but a number of eight bytes may lose its first half |
| MsgPack.RefusedConsumes | dependency/msgpack/msgpack.cpp:188-414 | a refused call has consumed nothing iff no byte was left |
| MsgPack.BytesForward | dependency/msgpack/msgpack.cpp:155-160 | a byte read keeps the offset within the data, and moves it back iff the sum wraps in size_t to a place within the data; what is handed out lies within the data iff the sum does not wrap |
| MsgPack.FixedReadsFit | dependency/msgpack/msgpack.cpp:162-178 | reads of up to four bytes never wrap |
| MsgPack.OffsetInBounds | dependency/msgpack/msgpack.cpp:149-414 | on any input and for any width of size_t the offset never passes the length; a view past the data is handed out, and the offset moves back behind its header, iff the announced length wraps; otherwise it moves forward only |
| MsgPack.FiveBytesWrap | dependency/msgpack/msgpack.cpp:329-353 | with a 32-bit size_t five bytes make unpack_str hand out 4 GiB less a byte and move the offset from 5 to 4 |
| MsgPack.WideNeverWraps | dependency/msgpack/msgpack.cpp:155-160 | with a 64-bit size_t no call wraps |
| MsgPack.RunInBounds | dependency/msgpack/msgpack.cpp:149-414 | over any run of unpack calls the offset never passes the length, and the run ends in a view past the data iff one of its lengths wraps |
| MsgPack.WideRunInBounds | dependency/msgpack/msgpack.cpp:149-414 | with a 64-bit size_t every run on any input moves forward within the data |
| MsgPack.Packer.PackUnsigned | dependency/msgpack/msgpack.cpp:63-79 | appends the packed unsigned integer |
| MsgPack.Packer.PackSigned | dependency/msgpack/msgpack.cpp:40-61 | appends the packed signed integer |
| MsgPack.Packer.PackStr | dependency/msgpack/msgpack.cpp:95-109 | appends the packed string |
| MsgPack.Packer.PackBin | dependency/msgpack/msgpack.cpp:111-123 | appends the packed bytes |
| MsgPack.Packer.PackArrayHeader | dependency/msgpack/msgpack.cpp:125-135 | appends the packed array header |
| MsgPack.Packer.PackMapHeader | dependency/msgpack/msgpack.cpp:137-147 | appends the packed map header |
| MsgPack.Packer.PackValue | dependency/msgpack/msgpack.cpp:7-147 | appends the packed form of a value of any kind |
| MsgPack.Unpacker.NextBytes | dependency/msgpack/msgpack.cpp:155-160 | a view of the next bytes, or failure without moving, the sum wrapping as in size_t |
| MsgPack.Unpacker.NextU16 | dependency/msgpack/msgpack.cpp:162-169 | a big-endian 16-bit number |
| MsgPack.Unpacker.NextU32 | dependency/msgpack/msgpack.cpp:171-178 | a big-endian 32-bit number |
| MsgPack.Unpacker.NextU64 | dependency/msgpack/msgpack.cpp:180-186 | two 32-bit reads; the first stays consumed when the second fails |
| MsgPack.Unpacker.UnpackSigned | dependency/msgpack/msgpack.cpp:208-272 | the signed integer at the offset, or failure where the source stops |
| MsgPack.Unpacker.UnpackUnsigned | dependency/msgpack/msgpack.cpp:274-305 | the unsigned integer at the offset, or failure |
| MsgPack.Unpacker.UnpackBits | dependency/msgpack/msgpack.cpp:307-327 | a float or double as its bit pattern |
| MsgPack.Unpacker.UnpackString | dependency/msgpack/msgpack.cpp:329-353 | the pointer and length of the string at the offset, or failure |
| MsgPack.Unpacker.UnpackBinary | dependency/msgpack/msgpack.cpp:355-374 | the pointer and length of the bytes at the offset, or failure |
| MsgPack.Unpacker.UnpackArraySize | dependency/msgpack/msgpack.cpp:376-394 | the array header at the offset, or failure |
| MsgPack.Unpacker.UnpackMapSize | dependency/msgpack/msgpack.cpp:396-414 | the map header at the offset, or failure |
| MsgPack.Unpacker.UnpackValue | dependency/msgpack/msgpack.cpp:188-414 | the unpack call of each kind |
| WriteBuffer.EnqueueRefines | dependency/io/write_buffer.cpp:15-47 | in every branch the content becomes the last max bytes of the old content followed by the data |
| WriteBuffer.EnqueueExactly | dependency/io/write_buffer.cpp:15-47 | enqueue leaves the last max bytes iff the queue was within its maximum or the data are longer; a queue that a wrapped count brought above it keeps everything |
| WriteBuffer.CallAnswer | dependency/io/write_buffer.cpp:15-70 | within its maximum the queue shows after an enqueue the old content and the data less the oldest bytes above the maximum, after a consume that fits the content less the oldest |
| WriteBuffer.LedgerAnswer | dependency/io/write_buffer.cpp:15-70 | what a consume takes from the front is taken; what an enqueue pushes out or a clear drops is lost |
| WriteBuffer.RoomWraps | dependency/io/write_buffer.cpp:34-35 | above the maximum the room wraps to a number no length exceeds |
| WriteBuffer.ConsumeRefines | dependency/io/write_buffer.cpp:54-64 | for every width of size_t, the oldest min(n, size) bytes are dropped iff the read position does not wrap |
| WriteBuffer.WithinSizeFits | dependency/io/write_buffer.cpp:54-57 | a count no larger than the size never wraps |
| WriteBuffer.WrapResurrects | dependency/io/write_buffer.cpp:54-64 | for every width of size_t, a wrapping count brings a consumed byte back and exceeds the maximum |
| WriteBuffer.StepRefines | dependency/io/write_buffer.cpp:15-70 | each step of the vector with its read position matches one of the bounded sequence iff its count does not wrap |
| WriteBuffer.RunRefines | dependency/io/write_buffer.cpp:15-70 | over every run and for every width of size_t both hold the same bytes, at most max, at every step iff no count wraps |
| WriteBuffer.RunBalanced | dependency/io/write_buffer.cpp:15-70 | over every run the content is the end of all input, the bytes taken come from rising input positions, every byte is taken, held or lost, and taken plus held is the whole input iff nothing was lost |
| WriteBuffer.FreshRun | dependency/io/write_buffer.cpp:11-70 | both for every run from a new queue |
| WriteBuffer.EnqueueGrows | dependency/io/write_buffer.cpp:15-47 | an enqueue of some data grows the vector by exactly that data iff it is empty and the data fits, or unread bytes remain and the data is shorter than the maximum; otherwise the vector holds the kept data alone |
| WriteBuffer.RunVector | dependency/io/write_buffer.cpp:15-70 | over every run the vector is exactly as long as the bytes enqueued since the queue was last empty or overrun |
| WriteBuffer.StorageBound | dependency/io/write_buffer.cpp:15-70 | the vector stays within a bound over all runs iff the maximum is at most one byte and the bound at least the maximum, or the bound is the address space |
| WriteBuffer.Buffer.constructor | dependency/io/write_buffer.cpp:11-13 | starts empty with the given maximum |
| WriteBuffer.Buffer.EnqueueBytes | dependency/io/write_buffer.cpp:15-47 | the enqueue step in place, leaving the last max bytes iff the queue was within its maximum or the data are longer |
| WriteBuffer.Buffer.Discard | dependency/io/write_buffer.cpp:33-43 | discards the oldest bytes to make room, the room wrapping as in size_t |
| WriteBuffer.Buffer.Peek | dependency/io/write_buffer.cpp:49-52 | exactly the unread bytes |
| WriteBuffer.Buffer.ConsumeBytes | dependency/io/write_buffer.cpp:54-64 | the consume step in place; drops the oldest bytes iff the count fits |
| WriteBuffer.Buffer.ClearAll | dependency/io/write_buffer.cpp:66-70 | empties the queue |
| TagRegistry.RegisterRefines | dependency/client-io/tag_registry.cpp:10-30 | one registration does to the maps what acceptance does to the list of names |
| TagRegistry.AliasRefines | dependency/client-io/tag_registry.cpp:32-40 | an alias changes no tag and leads to a registered one |
| TagRegistry.RegisterAnswer | dependency/client-io/tag_registry.cpp:10-30 | a new name is entered with its description and category under the next bit unless 64 are taken; nothing else changes |
| TagRegistry.AliasAnswer | dependency/client-io/tag_registry.cpp:32-40 | an alias of a registered tag leads to it from then on and is listed with it; every other name resolves as before; one of an unknown tag changes nothing |
| TagRegistry.RunRefines | dependency/client-io/tag_registry.cpp:10-40 | after any run the registry holds the first 64 distinct names in order, each under the bit of its place, which it keeps |
| TagRegistry.FreshRunRefines | dependency/client-io/tag_registry.cpp:10-40 | the same for every run from an empty registry |
| TagRegistry.MasksDisjoint | dependency/client-io/tag_registry.cpp:21-29 | masks are single bits and two tags share one iff they are the same |
| TagRegistry.RefusedWhenFull | dependency/client-io/tag_registry.cpp:16-19 | a new name is refused, and nothing changes, iff 64 tags are registered |
| TagRegistry.MaskHasTag | dependency/client-io/tag_registry.cpp:42-65 | the mask of a list has a tag's bit iff some name of the list resolves to it |
| TagRegistry.MaskBelow | dependency/client-io/tag_registry.cpp:59-65 | the mask of a list holds no bit that no tag has |
| TagRegistry.MaskRoundTrip | dependency/client-io/tag_registry.cpp:59-87 | looking up the names a mask stands for gives back its named bits iff aliases do not lead elsewhere |
| TagRegistry.UnaliasedRoundTrip | dependency/client-io/tag_registry.cpp:59-87 | so they are whenever no name is an alias of another tag |
| TagRegistry.OwnName | dependency/client-io/tag_registry.cpp:42-57 | a tag answers to its own name iff no alias leads that name elsewhere |
| TagRegistry.AliasHidesTag | dependency/client-io/tag_registry.cpp:42-57 | a registry in which an alias hides a tag |
| TagRegistry.PrintedMask | dependency/client-io/tag_registry.cpp:59-87 | what is printed for the mask of a list is exactly the registered tags it resolves to, with no unnamed bits |
| TagRegistry.HexShows | dependency/client-io/tag_registry.cpp:79-85 | the printed number shows every bit of the word and no other, without leading zeros |
| TagRegistry.TextParts | dependency/client-io/tag_registry.cpp:67-87 | with names that are not empty and hold no plus sign, the parts of the text between plus signs are the names picked, in order, and then the bits no tag has, if any |
| TagRegistry.Tags.constructor | dependency/client-io/include/client-io/tag_registry.hpp:72-72 | starts empty, the first mask being 1 |
| TagRegistry.Tags.RegisterTag | dependency/client-io/tag_registry.cpp:10-30 | the registration step in place: duplicates ignored, refused when full |
| TagRegistry.Tags.AddTagAlias | dependency/client-io/tag_registry.cpp:32-40 | the alias step in place, ignored for an unknown tag |
| TagRegistry.Tags.TagOf | dependency/client-io/tag_registry.cpp:42-57 | the mask of the name or of what it is an alias of, 0 if unknown |
| TagRegistry.Tags.MaskOf | dependency/client-io/tag_registry.cpp:59-65 | the mask of a list, with a tag's bit iff some name resolves to it |
| TagRegistry.PickedLists | dependency/client-io/tag_registry.cpp:72-78 | for every order of the map, the names picked are exactly those of the tags in the mask, each once |
| TagRegistry.Tags.MaskToString | dependency/client-io/tag_registry.cpp:67-87 | the names picked, joined by plus signs, and then exactly the bits no tag has in hexadecimal |

## Left out

- ASN.1 uPER coding, the LPP and SUPL message builders, and message contents: the decoder is a parameter, a message is the fields the sessions depend on.
- Sockets, TLS, epoll, files, clocks, logging and tracing: their answers are parameters; slot names and `update_interests` are not modelled because no other operation reads them.
- Callbacks that run inside a call (`on_begin_transaction`, `on_end_transaction`, `on_message`, `on_established`, `on_disconnected`, event and deferred callbacks): they appear as later steps of a run, not inside the step that invokes them.
- `block_receive` and `wait_for_ulp_pdu` in the SUPL session, and a receive call that returns less than it could for ever: the non-blocking path is the one the client uses.
- The task that keeps the descriptor registered (`SessionTask::update`), the flags that work around test servers, and the retry timers of the client.
- Re-entrant delivery: the replay's nested `execute_once`, its realtime pacing and its progress output.
- 64-bit overflow of the generation counter, of timestamps and of replay times: these are unbounded integers here.
- Floating-point rounding: fractions of seconds and reference times are reals.
- `Gps::to_timepoint`, `Gps::mod_timestamp`, `Utc::now` and its siblings, and time strings: `to_timepoint` takes the third year of a period as leap although 1980 itself is, so it is no inverse of `from_ymdhms`.
- QZSS ephemerides, orbit and clock computation, coordinates.
- The scheduler's stream leftover path, timers and signal handling.
- Ephemeris.AcceptedFromEpoch: stated from the epoch on and for reference times that are not negative; the general form is `AcceptedIff`. The conversion of a negative reference time to an unsigned integer, which the source leaves undefined, is taken toward zero.
- Scheduler.EventScheduler.ProcessDeferred: covers the call up to the loop that invokes the batch; the loop's visits are steps of a run (`DeferredExactlyOnce`, `DeferredFifo`).
- TagRegistry: a 64-bit word is the set of positions of its one bits; the bitwise operators are set operations.
- WriteBuffer: a vector as long as the address space is not considered.
- MsgPack: data of the size of the whole address space but for four bytes, which no object has, is not considered; what lies behind the data is not modelled, only that a view reaches there.
- Signal and satellite tables, configuration and command-line parsing, example programs: finite tables or plumbing.
