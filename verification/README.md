# Verified model of go-iecp5

A Dafny model of the protocol core of an IEC 60870-5-101/-104 library, with proofs. `dafny verify
dfyconfig.toml` checks all of it.

## What is modelled

**The session of IEC 60870-5-104** (sections 5.1, 5.3 and 5.5). `Session104` says what one event does
to a server session or a client: an ASDU to send, a timer tick, a received frame. `SrvSession` and
`Client104` are the same as classes whose methods update the fields, proved against it. `SrvRuns` puts
one session against an arbitrary peer; `SessionNet` joins two endpoints by FIFO channels with any
interleaving. The main proof goes through `IdealSession`, the same protocol with unbounded counters:
`IdealProof` shows its invariant, `SessionRefinement` that the 15-bit program refines it on every run,
and `SessionTheorems` and `ClientStalls` draw the conclusions. `SessionHistory` says what follows from the frames
and times of the past alone; `SrvHistory` and `CliHistory` show that each endpoint, against an arbitrary peer, does
exactly what its past calls for, timers included, and `SilentPeer` when an idle one notices that its peer is gone. `Apci` and `Framing104` are the octets underneath.

**The link layer of IEC 60870-5-101, unbalanced** (section 5.1.2 of IEC 60870-5-2 for the frame count
bit). `Link101` holds primary and secondary as functions, `Client101` and `Server101` as classes;
`SendQueue101` is the send queue with deletions while it is walked. `LinkNet101` is a primary with any
number of stations on a line that may lose every frame, with a history per station: what was sent, taken,
confirmed, handed over, polled and dispatched. `LinkProof101` shows the invariant event by event, for
one station's part of the system at a time; `LinkTheorems101` states what follows, `LinkLoss101` is a run that loses a
polled ASDU, `LinkPolling101` says whom the ticks poll and for what, and `LinkAnswers101` what is answered and from
which buffer.

**File transfer** (section 7.4.11 of IEC 60870-5-101). `FileTransfer` is Sender and Receiver as
functions, `FileStations` as classes with their loops, `FilePieces` sections, segments and checksums.
`FileNet` joins the two; the environment may replace the octets of a segment by others of the same
number, a bounded number of times. `FileTheorems` shows termination by a lexicographic measure (damage
left, sections left, phase, messages left) and exactly which files arrive, `FileSeries` that files asked for in turn all
do; `FileIntegrity` exactly when what
arrives is what was loaded. `FileReceiver` and `FileSender` put either against an arbitrary peer.

**The codecs**: FT1.2 frames (`Ft12`, `Ft12Proofs`, `LinkFrames101`) and what is received of them from a damaged line
(`LineRecovery101`, `LinkReception101`), ASDUs (`AsduCodec`, `AsduUnit`, `AsduProofs`), lists of information objects (`InfoObjects`,
`ObjectProofs`) and CP56Time2a (`Time56`, `TimeProofs`, `Calendar`; section 6.8 of IEC 60870-5-4). `AsduAccepts` and
`ObjectAccepts` say which ASDUs and lists are accepted, `AsduSizes` composes the
sizes of the types of their fields, and `OctetExamples` gives octets for known values.

## Where the code does not do what one might expect

Each of these is proved, with the exact condition.

- A client that sends an I frame after STOPDT act and before its con loses it, and the server closes the
  session at the next I frame after a new STARTDT (`NextDataSurvivesExactlyWhenNeverLate`).
- A client that sends k I frames between STOPDT act and its con, and then starts transfer again, is stalled
  for every k and w: the server has discarded the frames and never acknowledges them, until t1 ends the
  connection (`LateClientStalls`).
- With the client's w above the server's k the server can stall with both channels empty, until
  a timer of the client acknowledges (`ServerStallsExactlyWhenWExceedsK`), and the other way round
  (`TimelyClientStallsExactlyWhenWExceedsK`). `Config.Valid` looks at one endpoint only and cannot exclude it.
- An idle session never notices that its peer has fallen silent when t3, rounded up to the next tick, is below t1:
  every TESTFR act starts the wait for its con anew (`SilentClientNoticedExactlyWhen`,
  `SilentServerNoticedExactlyWhen`). `Config.Valid` accepts such values.
- `Config.Valid` compares t2 with t1 after the defaults are filled in, so a t1 of 10 s or less is refused unless
  a smaller t2 is given with it.
- A polled ASDU is lost when its poll is given up after the station has served it (`EveryLossIsAGiveUp`,
  and `GivenUpPollLosesAsdu` for such a run).
- The second start character of a variable FT1.2 frame is not checked (`VariableDamageDetectedExactlyWhen`).
- After a changed length octet the receive loop of cs101 reads on inside the frame and can take part of its ASDU for a
  frame (`LengthDamageInvents`); any other damage behind the start costs one frame (`OneFrameLost`).
- A file of 256 sections still arrives although the section name of the last is 0, because a request for
  section 0 keeps the current one; with 257 the Receiver is served the first section again, for ever.
  A file that cannot be delivered leaves the Receiver busy for good (`IdleAgainExactlyWhenDeliverable`,
  `MissingFileLeavesReceiverBusy`). Damage that keeps the sum of a section's octets, such as two octets
  exchanged, is delivered (`LoadedArrivesExactlyWhenNoneMissed`, `SwappedOctetsDelivered`). The checksum of
  the whole file never fails between these two ends (`SameChecksums`, `ChecksumOfSections`).
- Two instants with one reading but the same summer time flag, or with flags that differ by another shift than
  one of the six tried, cannot be told apart (`AllSurviveExactlyOnOrdinaryClocks`). A zone that moves its
  standard time back loses times (`MovedBackLoses`); one with a single standard time does not
  (`OneOffsetAllSurvive`).
- An ASDU with a sequence of no objects is accepted with the octets of an address, which nothing reads
  (`AcceptedIsReadWhollyExactlyWhen`, `EmptySequenceAccepted`), although MarshalBinary never writes one.
- The comment on the Chs field of LastSectionOrSegmentInfo (asdu/filet.go:444-445) says it is 0 at the end
  of a file; the Sender puts the file's checksum there. The model follows the code.

## Model

| member | source | states |
|---|---|---|
| SessionTheorems.ServerDataDelivered | cs104/server_session.go:219-236 | On every run of the two endpoints over FIFO channels, what the client handed over followed by what is in flight is what the server took from its send queue: no loss, no double, no reordering, although the numbers wrap at 32768. |
| SessionTheorems.ClientDataPrefix | cs104/client.go:322-339 | In the other direction what the server hands over is a prefix of what the client sent, and with what is in flight all of it, unless the client was late. |
| SessionTheorems.ClientNeverRefuses | cs104/client.go:402-445 | The client never reaches its fatal exit on a received frame and never discards an I frame: it is active, and the number is the expected one. |
| SessionTheorems.ServerRefusesExactlyAfterLoss | cs104/server_session.go:312-349 | The server reaches its fatal exit exactly when an I frame arrives while it is active after it discarded one while inactive; no acknowledgement is ever judged out of the window. |
| SessionTheorems.LossExactlyWhenLate | cs104/server_session.go:320-330 | An I frame is discarded only if the client sent one after its last STOPDT act, and then one has been by the time the queue is empty. |
| SessionTheorems.NextDataSurvivesExactlyWhenNeverLate | cs104/server_session.go:320-349 | With the line quiet and transfer on, the next I frame of the client keeps the session alive if and only if the client was never late. |
| SessionTheorems.LateClientEndsSession | cs104/client.go:648-656 | A concrete run (STARTDT, STOPDT, an I frame before the STOPDT con, STARTDT, an I frame) after which the server has closed the session. |
| SessionTheorems.NoStallWhenWAtMostK | cs104/server_session.go:254-263 | If the client's w is at most the server's k, no reachable state has the server blocked with k unacknowledged frames and both channels empty; if the server's w is at most the client's k, none has the client blocked so, unless the client was late. |
| ClientStalls.TimelyClientStallsExactlyWhenWExceedsK | cs104/server_session.go:344-349 | The client's side of the bound is sharp: a run on which the client was never late can end with it blocked if and only if the server's w exceeds its k. |
| ClientStalls.LateClientStalls | cs104/server_session.go:320-330 | For every k and w, a client that sends k I frames between STOPDT act and its con and starts transfer again ends blocked with both channels empty. |
| SessionTheorems.ServerStallsExactlyWhenWExceedsK | cs104/client.go:437-445 | The bound is sharp: a stalled state of the server is reachable if and only if the client's w exceeds the server's k. |
| SessionRefinement.RunRefines | cs104/server_session.go:465-492 | On every run the program's state is the state of the protocol with unbounded counters, its numbers reduced modulo 32768, and that state satisfies the invariant. |
| SessionRefinement.AckRefines | cs104/client.go:538-558 | Of the acknowledgements not older than the last one and less than 32768 past it, the 15-bit comparison accepts exactly those that compare right unbounded, moves the window by them, and is left unchanged by the others. |
| IdealProof.MoveKeeps | cs104/server_session.go:254-390 | Every move of the protocol with unbounded counters keeps its invariant (acknowledged <= told <= received <= sent <= acknowledged + k, message by message along the channels). |
| IdealSession.Chain | cs104/client.go:356-445 | What the invariant says about the counters of both ends. |
| SeqNo.SeqNoCountIsDistance | cs104/server_session.go:465-470 | seqNoCount is the modular distance and nothing else. |
| SeqNo.CountUnwraps | cs104/server_session.go:465-470 | On a window no wider than 32767, wire numbers count what unbounded ones do. |
| SeqNo.Uint16Arithmetic | cs104/server_session.go:231 | The definitions used are what wrapping uint16 arithmetic and the mask 32767 compute. |
| Window.AckExact | cs104/server_session.go:472-492 | An acknowledgement is accepted if and only if it lies in the window, and then removes exactly the frames it confirms, oldest first. |
| Window.PushedValid | cs104/server_session.go:219-236 | One more I frame below the limit k keeps pending the list of consecutive unacknowledged numbers with non-decreasing send times. |
| SrvRuns.LiveSessionInvariant | cs104/server_session.go:254-390 | Against an arbitrary peer, in every state of a live session: pending is exactly the unacknowledged numbers, at most k of them, fewer than w received frames are unacknowledged, and a pending STOPDT means inactive with data outstanding. |
| SrvRuns.AckJudgedByWindow | cs104/server_session.go:312-349 | Against an arbitrary peer, an S frame ends the session if and only if its number is not in the window. |
| SrvRuns.StopConfirmHonest | cs104/server_session.go:207-217 | When STOPDT con goes out, every I frame sent is acknowledged and every I frame accepted has been acknowledged. |
| SrvRuns.WireOrder | cs104/server_session.go:351-390 | On the wire no I frame stands between a STOPDT con (or the beginning) and the next STARTDT con. |
| SrvSessions.SrvSession.TrySend | cs104/server_session.go:251-263 | One turn of the send branch: the state and the output are those of the specification, and nothing is sent when k frames are outstanding. |
| SrvSessions.SrvSession.UpdateAckNoOut | cs104/server_session.go:472-492 | The loop over pending, in place, has the effect of the specification. |
| SrvSessions.SrvSession.OnTick | cs104/server_session.go:266-299 | The timer branch as the program runs it; what that comes to, in terms of the past, is `SrvHistory.TickExact`. |
| SrvHistory.TickExact | cs104/server_session.go:266-299 | On every run against an arbitrary peer, a tick ends the session if and only if some ASDU it took has waited t1 for its acknowledgement or the last TESTFR act t1 for its con; otherwise it sends an S frame if and only if an accepted I frame is unacknowledged and has been so for t2, or nothing has happened for 100 ms, and a TESTFR act if and only if nothing has happened for t3. |
| SrvHistory.OfferExact | cs104/server_session.go:219-263 | An ASDU is taken if and only if transfer is on and fewer than k wait for their acknowledgement; its I frame carries the number of those taken before and of those accepted, modulo 32768. |
| SrvHistory.ReceiveExact | cs104/server_session.go:301-400 | For every received frame, whatever the peer: whether it ends the session, exactly what is answered, STOPDT con included, and what is handed over, from what was sent and received before. |
| SilentPeer.SilentClientNoticedExactlyWhen | cs104/server_session.go:268-299 | A session with everything acknowledged whose peer falls silent ends, under ticks a period apart, sooner or later, if and only if t1 is not above t3 rounded up to a tick. |
| SrvSessions.SrvSession.OnIFrame | cs104/server_session.go:320-349 | The I frame branch as the program runs it. |
| SrvSessions.SrvSession.OnUFrame | cs104/server_session.go:351-400 | The U frame branch as the program runs it. |
| SrvSessions.SrvSession.OnApdu | cs104/server_session.go:301-400 | Parsing and dispatch of one APDU; a malformed one only restarts the idle timer. |
| Clients104.Client.UpdateAckNoOut | cs104/client.go:538-558 | The client's loop over pending has the effect of the specification. |
| Clients104.Client.OnTick | cs104/client.go:370-400 | The client's timer branch as the program runs it; what that comes to is `CliHistory.TickExact`. |
| CliHistory.TickExact | cs104/client.go:370-400 | The same for a client: it ends for an ASDU unacknowledged for t1, or for the last TESTFR, STARTDT or STOPDT act without its con for t1, and for nothing else. |
| CliHistory.OfferExact | cs104/client.go:322-363 | When a client takes an ASDU, and the numbers its I frame carries. |
| CliHistory.ReceiveExact | cs104/client.go:402-470 | For every received frame: whether it ends the session, what is answered, and what is handed over; an I frame while transfer is off does nothing. |
| SilentPeer.SilentServerNoticedExactlyWhen | cs104/client.go:370-400 | The condition under which an idle client notices that its server has fallen silent. |
| Clients104.Client.OnIFrame | cs104/client.go:420-445 | The client's I frame branch as the program runs it. |
| Clients104.Client.OnApdu | cs104/client.go:402-470 | The client's parsing and dispatch of one APDU. |
| Config104.Config.Valid | cs104/config.go:83-136 | Accepted if and only if every value is zero or in its range and t2, given or default, is below t1; then values given are kept and zeros become 30 s, 12, 15 s, 8, 10 s and 20 s, and the result is in range. A configuration in range is left as it is. |
| Apci.ParseEncode | cs104/apci.go:85-111 | Every frame the builders produce is parsed back to the numbers and the ASDU it was given. |
| Apci.ParseExact | cs104/apci.go:147-206 | Any octets are accepted as a frame if and only if they are that frame behind some first octet, which parse does not look at, with an ASDU of at most 251 octets; behind 68H and up to 255 octets they are what the builders produce. |
| Framing104.ReadApdu | cs104/server_session.go:70-129 | The inner receive loop, filling its buffer in place with resynchronisation, delivers what the recursive specification delivers. |
| Framing104.RecvLoop | cs104/server_session.go:62-131 | The whole receive loop delivers exactly the APDUs of the specification. |
| Framing104.DeliveredFromStream | cs104/server_session.go:70-129 | Whatever the stream, delivered APDUs are well framed, disjoint pieces of it, in order. |
| Framing104.NoiseSkipped | cs104/client.go:190-256 | Octets without a start character are skipped, odd or even in number. |
| Framing104.StreamCarriesFrames | cs104/apci.go:147-206 | Noise without a start character followed by any list of frames yields exactly that list after framing and parsing. |
| LinkTheorems101.UserDataOnceInOrder | cs101/server.go:422-447 | On every run over a line that loses any frame: user data is handed over at most once, in the order first sent, a positive confirm means it was handed over, and what was accepted is what was sent followed by what waits. |
| LinkTheorems101.PolledDataOnceInOrder | cs101/server.go:782-797 | Polled data is dispatched at most once and in order, per class, and everything accepted is still buffered or was taken out for a poll. |
| LinkTheorems101.FcbsAgree | cs101/client.go:553-583 | An active link with nothing outstanding: the primary's FCB is the one the station expects. |
| LinkTheorems101.EveryLossIsAGiveUp | cs101/client.go:430-460 | Exact conservation: popped = dispatched + lost to given-up polls + the one on its way; unconfirmed user data = given-up transactions + the open one. |
| LinkTheorems101.PolledAllDispatchedExactlyWhen | cs101/client.go:588-600 | With nothing outstanding, everything popped was dispatched if and only if no poll was given up after the station had served it; with no user data transaction given up, everything sent was handed over. |
| LinkLoss101.GivenUpPollLosesAsdu | cs101/client.go:430-460 | A concrete run of one station: the link comes up, one ASDU is offered and polled, both answers are lost, and the station is given up; the ASDU was taken out of the buffer and never dispatched, with nothing outstanding. |
| LinkTheorems101.RepetitionRepeatsAnswer | cs101/server.go:422-435 | A repeated request gets the stored answer again and changes nothing at the station. |
| LinkTheorems101.RetryRepairsLoss | cs101/client.go:430-460 | After one loss, T1 and an undisturbed exchange hand the outstanding user data over exactly once and confirm it. |
| LinkTheorems101.Play | cs101/client.go:353-471 | Every state reached by any list of events, of any length, satisfies the invariant and keeps the set of stations. |
| LinkProof101.StepKeeps | cs101/client.go:505-697 | Every event on the line (request or answer arriving, loss, T1, tick, T3, manual request, sends at either end) keeps the invariant of every station. |
| LinkProof101.ReachSound | cs101/server.go:422-494 | What a request reaching its station does to that station's books, repetition or not. |
| LinkProof101.SettleSound | cs101/client.go:603-677 | What an answer reaching the primary does to the books. |
| LinkProof101.PopConserves | cs101/server.go:782-797 | What a class loses at its head is what the log of pops gains at its end; which class that is, is `LinkAnswers101.PollPops`. |
| LinkAnswers101.PollPops | cs101/server.go:782-797 | A poll that is no repetition takes out the oldest ASDU of the class it asks for, of the other class if and only if that one is empty, nothing if and only if both are; the answer carries it, or says there is none. |
| LinkAnswers101.PollServesClass | cs101/server.go:846-861 | The same on every run, in the log of pops. |
| LinkAnswers101.FreshAnswered | cs101/server.go:422-494 | For every request that is no repetition: the kind of answer, or none; ACD if and only if class 1 data is left; what is handed over; the answer kept for a repetition; the frame count bit expected next. |
| LinkAnswers101.RepetitionAnswered | cs101/server.go:422-435 | A repetition is answered with the answer kept, or acknowledged when there is none; nothing is handed over or taken out. |
| LinkAnswers101.OthersIgnored | cs101/server.go:377-407 | A frame for another station does nothing; a broadcast hands over unconfirmed user data and is never answered. |
| LinkProof101.TickLaunches | cs101/client.go:505-537 | A tick on a free line starts at most one confirmed transaction, with the station's FCB, or sends the oldest queued broadcast once, unconfirmed, leaving every station and the line free as they were; nothing else for a known station or for all leaves the queue. With no broadcast queued it is always the former. |
| SendQueue101.ScanExact | cs101/client.go:1154-1198 | The scan takes the first eligible entry and removes besides it exactly the entries of unknown stations it passed. |
| SendQueue101.UnknownPassedDropped | cs101/client.go:1154-1198 | Entries for a station that is not in the table are dropped when the scan passes them, and only then. |
| SendQueue101.ScanKeepsStationOrder | cs101/client.go:1154-1198 | Nothing queued for a known station, and no broadcast, is lost, doubled or overtaken by another entry for the same address. |
| SendQueue101.UserDataOnlyWhenAllowed | cs101/client.go:505-537 | User data starts only with nothing outstanding, to a station with an active link that did not report a full buffer. |
| Clients101.Client.constructor | cs101/client.go:307-330 | Every configured station once, in the order of its first mention, the broadcast address left out, all in their initial state. |
| Clients101.Client.TakeNext | cs101/client.go:1154-1198 | The walk over the queue with deletions in place computes the scan. |
| Clients101.Client.Tick | cs101/client.go:505-537 | The tick as the program runs it; what it sends is `LinkPolling101.TickIs`. |
| LinkPolling101.TickIs | cs101/client.go:505-537 | A tick does nothing while an answer is waited for; else it sends queued user data if any may be sent, and otherwise polls the station whose turn it is, for the state of its link, its reset, or data of the class demanded, and passes the turn on. |
| LinkPolling101.PollsGoRound | cs101/client.go:514-516 | On every run the i-th poll sent by a tick goes to the station in place i modulo the number of stations. |
| LinkPolling101.EveryStationPolled | cs101/client.go:514-516 | Of as many successive polls as there are stations, each station gets one, and exactly one if it is listed once. |
| LinkPolling101.PolledOnDemand | cs101/client.go:575-577 | On every run, class 1 is polled next if and only if the station has shown ACD since it last answered a class 1 poll, and was not given up or down since. |
| LinkPolling101.DemandPolledAtOnce | cs101/client.go:688-694 | A positive answer with ACD on an active link is followed by a class 1 poll of that station at once. |
| LinkPolling101.AnswerRecords | cs101/client.go:553-600 | What an answer does to the record of its station: the link advances from unknown to its reset to active by positive answers only, in that order; a refusal takes it back; the frame count bit turns over on a positive answer to a counted frame and starts at 1; the flow control bit is the answer's. |
| LinkPolling101.StrayAnswer | cs101/client.go:563-566 | An answer of a station that was not asked changes its flags and nothing else. |
| LinkPolling101.AnswerDispatches | cs101/client.go:668-677 | User data is handed to the application, and nothing else is. |
| LinkPolling101.T1Is | cs101/client.go:430-460 | On every state of the line: T1 repeats the frame once; the second time the station is given up, the others, the queue and the turn are left alone, and a lone station starts over with an empty queue. |
| LinkPolling101.T3Is | cs101/client.go:462-471 | T3 tests the link of the first station of the order that is active, if the line is free. |
| LinkPolling101.ManualIs | cs101/client.go:410-428 | A request of the user goes out at once if the line is free and the station known, a poll only if its link is active. |
| Clients101.Client.ConfirmPositive | cs101/client.go:553-583 | The in-place update of the station table on a positive confirm. |
| Clients101.Client.HandleIncomingFrame | cs101/client.go:603-697 | Any received frame as the program handles it: the single character, a frame of another primary, an unknown station, every function code in a fixed or a variable frame, an ASDU that does not decode, and the class 1 poll an access demand triggers. |
| Clients101.SingleCharConfirms | cs101/client.go:603-608 | The single character completes whatever is outstanding exactly as an acknowledgement from the station that was asked, with its flow control bit unchanged. |
| Clients101.SentCountsAsItself | cs101/client.go:643-687 | The frames this library's stations send fall into the branches the link model has for them. |
| Clients101.Client.HandleT1 | cs101/client.go:430-460 | T1: one repetition, then the station is given up, and a lone station ends the connection. |
| Servers101.Server.HandleIncomingFrame | cs101/server.go:364-494 | A request as the station handles it: address, broadcast, FCB check, service; what each is answered is `LinkAnswers101.FreshAnswered`. |
| Servers101.Server.Send | cs101/server.go:874-901 | Class 1 or class 2 by cause, refused when the class is full. |
| FileTheorems.TransferEnds | filetransfer/receiver.go:182-338 | Whatever the environment does to segments, finitely often, the transfer of a deliverable file ends: both sides idle, queues empty, exactly one file delivered and stored, one acknowledged section per section cut, each with the right length and checksum; with no damage it is the file. |
| FileSeries.AllArrive | filetransfer/receiver.go:104-137 | Any list of deliverable files requested one after the other, the same one again if wished, arrives: each transfer leaves both ends ready for the next, and the Receiver's store is the one it had with those files written to it. |
| FileSeries.PlayFills | filetransfer/receiver.go:160-172 | Whatever goes on between the two ends, the Receiver's store changes by exactly what it delivers. |
| FileIntegrity.LoadedArrivesExactlyWhenNoneMissed | filetransfer/receiver.go:273-339 | The transfer ends with both sides idle and one file delivered, and it is the loaded one if and only if in no state of the run a section whose octets differ from those sent, with the checksum of those sent, was at its end: all damage that changes a section's checksum is repaired, and without damage the file arrives. |
| FileIntegrity.OneOctetPerPassHarmless | filetransfer/receiver.go:281-301 | An environment that changes at most one octet in each pass of a section, as often as it likes within its bound, cannot alter the delivered file. |
| FileIntegrity.SwappedOctetsDelivered | asdu/filet.go:263-269 | A run on which the file arrives altered: two different octets in one segment, exchanged once on the way. |
| FileTheorems.DeliveredExactlyWhenDeliverable | filetransfer/sender.go:288-299 | A requested file is delivered, sooner or later, if and only if it exists, its length and those of its sections can be announced, and it has at most 256 sections. |
| FileTheorems.NeverDelivered | filetransfer/sender.go:167-183 | Otherwise nothing is ever delivered and the Receiver refuses every further request as busy, however long the two go on (the 257th section is called by the name of the first). |
| FileTheorems.IdleAgainExactlyWhenDeliverable | filetransfer/receiver.go:111-134 | After a request the Receiver becomes idle again, sooner or later, if and only if the file is deliverable. |
| FileTheorems.DeliverableMeans | filetransfer/store.go:190-206 | Below 4 GiB: deliverable is at most 16777215 octets and at most 256 times the section size. |
| FileTheorems.MissingFileLeavesReceiverBusy | filetransfer/receiver.go:263-267 | A request for a file that is not there is refused, nothing is delivered, and every further request of the user is refused as busy. |
| FileTheorems.StepAdvances | filetransfer/sender.go:209-240 | Every delivery keeps the invariant (fileBuf is the concatenation of the acknowledged sections) and brings the transfer closer to its end. |
| FileTheorems.OfferLeadsToStart | filetransfer/sender.go:81-93 | An announcement leads an idle Receiver that accepts files to the same start as a request by the user. |
| FilePieces.CutJoins | filetransfer/sender.go:311-327 | Segments concatenate to their section; none is empty or longer than the maximum. |
| FilePieces.SectionsJoin | filetransfer/store.go:190-206 | Sections concatenate to the file, and an empty file has one. |
| FilePieces.SegmentsFit | asdu/filet.go:248-258 | For all parameters in the standard's range every segment fits an ASDU of 249 octets. |
| FilePieces.ChecksumOfSections | filetransfer/sender.go:340-356 | The checksum summed over the sections is the checksum of the whole file, modulo 256. |
| FilePieces.OneOctetDetected | asdu/filet.go:263-269 | Damage to a single octet changes the checksum. |
| FilePieces.SwapEscapes | asdu/filet.go:263-269 | Exchanging two octets does not. |
| FileStations.FileChecksum | asdu/filet.go:263-269 | The octet accumulator computes the sum modulo 256. |
| FileStations.CutLoop | filetransfer/sender.go:311-327 | The segment loop over an offset computes the cut. |
| FileStations.SplitIntoSections | filetransfer/store.go:190-206 | The section loop computes the cut. |
| FileStations.Sender.OnCallOrSelect | filetransfer/sender.go:134-207 | Select, call, delete and deactivate as the Sender runs them, with every refusal. |
| FileStations.Sender.Handle | filetransfer/sender.go:98-131 | One ASDU at the Sender; a refused send aborts the transfer and silences the rest. |
| FileStations.Receiver.RequestFile | filetransfer/receiver.go:111-134 | A request by the user: busy, sent, or aborted. |
| FileStations.Receiver.OnLastSectionOrSegment | filetransfer/receiver.go:273-339 | The end of a section or a file as the Receiver runs it; what is checked is `FileReceiver.DeliversExactlyWhen`. |
| FileReceiver.DeliversExactlyWhen | filetransfer/receiver.go:308-338 | Whatever the peer sends, a file is delivered and stored if and only if the end of the file being taken comes and announces the sum of its octets modulo 256; nothing else touches the store, and another sum is refused with a negative acknowledgement and drops the file. |
| FileReceiver.SectionJoinsExactlyWhen | filetransfer/receiver.go:280-307 | A section joins the file and is acknowledged if and only if its end announces the sum of its octets; otherwise its octets are dropped and refused. |
| FileReceiver.SegmentJoinsExactlyWhen | filetransfer/receiver.go:252-258 | Octets join a section if and only if they come in a segment of the file and section being taken. |
| FileReceiver.FileReadyAnswered | filetransfer/receiver.go:194-230 | An announced file is called once if it was asked for, selected if nothing is being taken and announcements are accepted, and otherwise ignored; a refused one ends the transfer. |
| FileReceiver.SectionReadyAnswered | filetransfer/receiver.go:232-250 | An announced section of the file being taken is called by its name and taken anew; one that is not ready ends the transfer. |
| FileReceiver.OthersIgnored | filetransfer/receiver.go:260-270 | Nothing else changes the Receiver, whoever sends it. |
| FileReceiver.RequestSelects | filetransfer/receiver.go:111-134 | A request of the user selects the file, with nothing taken yet, unless one is being taken. |
| FileReceiver.EveryFileChecked | filetransfer/receiver.go:139-173 | Over every sequence of ASDUs and requests: each delivered file is the concatenation of acknowledged sections, each with the sum announced at its end, and has the sum announced at its own; the store is the first one with the delivered files written to it. |
| FileSender.StoreAfter | filetransfer/sender.go:196-205 | An ASDU takes out of the store exactly the file it asks to delete, and changes no other. |
| FileSender.DeleteAnswered | filetransfer/sender.go:196-205 | A file that is there is deleted without an answer, and its transfer dropped if it was the one running; one that is not there is refused by name. |
| FileSender.DropsExactlyWhen | filetransfer/sender.go:192-236 | A running transfer ends if and only if it is deactivated, its file deleted or acknowledged, either way, or an ASDU of it cannot be sent. |
| FileSender.SelectAnswered | filetransfer/sender.go:142-155 | Selecting a file of the store makes it the current one, cut into sections that join to it, and announces its length; another is refused by name. |
| FileSender.CallAnswered | filetransfer/sender.go:157-167 | Calling a file announces its first section, whether it was selected, is being transferred or neither. |
| FileSender.SectionSelected | filetransfer/sender.go:169-178 | Selecting a section of the running transfer by its name makes it the current one and announces it; any other name is refused. |
| FileSender.SectionCalled | filetransfer/sender.go:180-190 | A called section, or one refused by the Receiver, is sent as segments that join to its octets, then its end with the sum of them modulo 256. |
| FileSender.SectionNotCalled | filetransfer/sender.go:180-190 | Called by a name it does not have, nothing is sent but a refusal. |
| FileSender.SectionAcknowledged | filetransfer/sender.go:215-223 | An acknowledged section is followed by the announcement of the next, or by the end of the file with the sum of all its octets modulo 256. |
| FileSender.OthersIgnored | filetransfer/sender.go:117-131 | Nothing else is answered or changes the Sender. |
| FileSender.OfferedExactlyWhen | filetransfer/sender.go:81-93 | A file is announced if and only if it is in the store, its names fit the widths, and its length, cut to 32 bits, fits three octets; and what is said otherwise. |
| FileSender.FilesKeptExactly | filetransfer/sender.go:98-131 | Over every sequence of ASDUs, a file is still there, unchanged, if and only if it was and none asked to delete it. |
| FileStations.Receiver.Handle | filetransfer/receiver.go:139-173 | One ASDU at the Receiver; a finished file is stored and delivered whether or not its acknowledgement went out. |
| Ft12.ControlOctetRoundTrip | cs101/frame.go:129-170 | Every octet is the value of the control field it parses to. |
| Ft12.ControlFieldRoundTrip | cs101/frame.go:129-170 | A control field survives encoding if and only if it uses only the bits of its direction. |
| Ft12.CalculateChecksum | cs101/frame.go:226-236 | The 16-bit accumulator cannot wrap over a frame. |
| Ft12.Reader.ParseFrame | cs101/frame.go:241-353 | Reading a frame from a stream gives the specified frame or error and consumes the specified octets. |
| Ft12Proofs.ParseWire | cs101/frame.go:357-412 | A marshalled frame at the head of a stream is parsed back and exactly its octets are consumed. |
| Ft12Proofs.LineCarriesFrames | cs101/frame.go:241-412 | Any list of frames on the line is parsed back with nothing left over. |
| Ft12Proofs.CarriesAsduExactlyUpTo | cs101/frame.go:62-66 | A variable frame carries an ASDU if and only if it is no longer than MaxASDULen, and so every ASDU of the application layer. |
| Ft12Proofs.AcceptedIsMarshalled | cs101/frame.go:296-346 | What is accepted is a marshalled frame octet for octet, but for the second start character. |
| Ft12Proofs.VariableDamageDetectedExactlyWhen | cs101/frame.go:296-346 | Any one octet of a variable frame after the first, changed in any way, makes parsing fail if and only if it is not the second start character, whatever follows; how, and how many octets have been read by then: the whole frame, unless a length octet was changed. |
| Ft12Proofs.FixedDamageDetected | cs101/frame.go:275-294 | In a fixed frame every octet after the first is guarded, and the damaged frame is read to its end. |
| LineRecovery101.RecvLoop | cs101/server.go:260-293 | The receive loop, reading on after framing errors, hands over the specified frames. |
| LineRecovery101.OneFrameLost | cs101/client.go:774-790 | A frame with one octet changed, other than a start character and the length octets, is lost and nothing else: all frames before and after it, with noise between, are received as they were sent. |
| LineRecovery101.LengthDamageResumes | cs101/frame.go:309-312 | After a changed length octet reading goes on at the sixth octet of that frame. |
| LineRecovery101.LengthDamageInvents | cs101/client.go:780-785 | So octets of its ASDU can be received as a frame nobody sent: a concrete line. |
| LineRecovery101.NoiseSkipped | cs101/frame.go:348-350 | Octets that start no frame are skipped one by one. |
| LineRecovery101.PartReadsAsNothing | cs101/frame.go:275-332 | A frame that has not arrived whole is not taken for another, however much of it is there. |
| LineRecovery101.ShortLengthRefused | cs101/frame.go:313-318 | A length too small for control octet and address is refused with the header, and reading goes on behind it. |
| LinkFrames101.RequestCrossesLine | cs101/client.go:951-1009 | What the primary sends is what the station reads from the line. |
| LinkFrames101.BroadcastIsAllOnes | cs101/frame.go:52-60 | A broadcast goes to the address whose octets are all ones. |
| LinkFrames101.ResponseCrossesLine | cs101/server.go:816-861 | What a station answers is what the primary reads from the line. |
| LinkReception101.AnswerReceived | cs101/client.go:603-720 | What a station answers, read from the line, counts as that answer at the primary. |
| LinkReception101.FrameDoes | cs101/client.go:644-720 | For every frame, ours or not: the outstanding frame is done with if and only if the station asked confirms or refuses, as the control octet and the kind of the frame say. |
| LinkReception101.FrameHandsOver | cs101/client.go:670-686 | An ASDU is handed over if and only if a variable frame of a known station brings it with user data or a status, and it decodes. |
| LinkReception101.OtherFramesNoted | cs101/client.go:628-642 | Any other frame of a station tells only whether its buffer is full and class 1 data wait. |
| LinkReception101.StrangersIgnored | cs101/client.go:610-626 | Frames of a primary or of an unknown station change nothing. |
| AsduProofs.DecoderAgreesExactlyWhen | asdu/asdu.go:565-660 | What MarshalBinary accepts, UnmarshalBinary returns unchanged (originator 0 where there is no octet for it) if and only if the type's size is known, the count is below 128 and the cause below 64. |
| AsduAccepts.WrittenExactlyWhen | asdu/asdu.go:565-624 | An ASDU is written if and only if cause, type and count are not zero, the common address fits, it has at most 249 octets, and its objects are as long as type and count say. |
| AsduAccepts.WriteRefusalSays | asdu/asdu.go:565-624 | Which error is returned otherwise. |
| AsduAccepts.ReadExactlyWhen | asdu/asdu.go:628-660 | Octets are read if and only if the identifier is there, the type is known, and the objects it announces are there, at least one octet of them, with nothing behind them unless that is allowed. |
| AsduAccepts.ReadRefusalSays | asdu/asdu.go:709-753 | Which error is returned otherwise. |
| AsduProofs.AcceptedIsMarshalled | asdu/asdu.go:628-660 | What UnmarshalBinary accepts begins with the encoding of what it returns, and is that encoding unless trailing octets are allowed; MarshalBinary writes it again if and only if cause, common address and count are not zero and it has at most 249 octets. |
| AsduProofs.FieldsSurviveExactlyWhen | asdu/identifier.go:316-329 | The identifier survives its octets if and only if count and cause fit their bits. |
| AsduSizes.SizesAreTheirFields | asdu/identifier.go:165-251 | The size table holds exactly the types of the standard except the segment, each with the sum of the sizes of its information elements and time tag. |
| AsduProofs.MarshalledFitsFrames | cs104/apci.go:85-101 | A marshalled ASDU is never refused by the I frame or the FT1.2 frame that carries it, and parses back from the I frame. |
| AsduUnits.Unit.MarshalBinary | asdu/asdu.go:565-624 | The buffer filled in place is the specified encoding, or the specified refusal. |
| AsduUnits.Unit.UnmarshalBinary | asdu/asdu.go:628-660 | The fields overwritten are the specified ones; when the payload is refused they hold what was read, and when the octets are too few nothing has changed. |
| AsduUnits.Unit.FixInfoObjSize | asdu/asdu.go:709-753 | The size check and the cut of trailing octets. |
| ObjectProofs.EncodedListCrosses | asdu/mproc.go:14-38 | A list the encoder accepts makes an ASDU that is marshalled, comes back unchanged, and is decoded with exactly its octets consumed. |
| ObjectProofs.AcceptedIsReadWhollyExactlyWhen | asdu/asdu.go:709-753 | Whatever UnmarshalBinary accepts of a type with a layout, whoever sent it, has the octets the decode loop needs, and the loop leaves none unread if and only if the count is not zero; a count of zero is accepted only as a sequence with an address and nothing else. |
| ObjectProofs.EmptySequenceAccepted | asdu/asdu.go:730-753 | For all parameters, such a sequence of no objects is accepted, whatever its address octets are. |
| ObjectProofs.ListSurvivesExactlyWhen | asdu/mproc.go:1134-1165 | The decoded list is the encoded one if and only if every element has room for its fields and, in a sequence, the addresses count up by one. |
| ObjectProofs.ElementSurvivesExactlyWhen | asdu/codec.go:83-155 | When a single point, step position, normalized value or counter reads as it was written. |
| ObjectProofs.TakeListWritten | asdu/mproc.go:55-95 | Reading as many objects as were written consumes exactly the octets that were written, single or sequence. |
| ObjectProofs.StepRoundTrip | asdu/information.go:180-197 | A step position survives if and only if it lies in [-64, 63]. |
| ObjectProofs.IoaRoundTrip | asdu/codec.go:40-80 | An information object address that fits its width of 1 to 3 octets survives. |
| ObjectProofs.SegmentCrosses | asdu/filet.go:549-588 | Every segment the Sender may cut is marshalled, accepted and read back as it was. |
| InfoObjects.ObjectBuffer.EncodeObjects | asdu/mproc.go:55-95 | The encode loop appends exactly the specified octets, or returns the specified error; which, is `ObjectAccepts.AcceptedExactlyWhen`. |
| ObjectAccepts.AcceptedExactlyWhen | asdu/mproc.go:14-38 | A list is accepted if and only if it has 1 to 127 objects of a type with a layout, the addresses that are written fit their width, and identifier and objects take at most 249 octets; the result is the octets of the objects. |
| ObjectAccepts.RefusalSays | asdu/asdu.go:163-170 | Which error is returned, in this order: an empty list, an unknown type, the length, the count, an address. |
| InfoObjects.ObjectBuffer.GetObjects | asdu/mproc.go:1134-1165 | The decode loop, advancing InfoObj, returns the specified list and restores InfoObj. |
| InfoObjects.ObjectBuffer.AppendInfoObjAddr | asdu/codec.go:40-61 | An address too large for its width is refused and nothing is appended. |
| Time56.Resolve | asdu/time.go:62-87 | The search over the six shifts. |
| TimeProofs.OctetsCarryReading | asdu/time.go:22-48 | The seven octets carry the reading, the milliseconds and the summer time flag. |
| TimeProofs.OctetsCarryWeekday | asdu/time.go:28-36 | They carry the day of the week above the day of the month. |
| TimeProofs.WeekdayTurns | asdu/time.go:28-33 | The day of the week stays all day and turns once a day, Sunday (7) to Monday (1). |
| TimeProofs.KnownWeekdays | asdu/time_test.go:10-18 | 2019-06-05 is a Wednesday and 2019-12-15 a Sunday. |
| TimeProofs.SurvivesExactlyWhen | asdu/time.go:92-131 | For a time whose reading has at most one other instant: it survives to the millisecond if and only if time.Date chose it, or chose the other one and the two differ in their flags by a listed shift. |
| TimeProofs.OrdinaryClockRoundTrip | asdu/time.go:62-131 | Where two instants with one reading always differ in their flags by a listed shift, every time of the years 2000 to 2099 survives, whichever time.Date chose. |
| TimeProofs.AllSurviveExactlyOnOrdinaryClocks | asdu/time.go:62-131 | Every time survives, whichever instant time.Date chooses for an ambiguous reading, if and only if any two instants with one reading differ in their flags by a listed shift. |
| TimeProofs.OneOffsetAllSurvive | asdu/time.go:62-87 | Every time survives in every zone with one standard offset and a summer time of an hour, half an hour or two hours, wherever and however often the clocks are changed. |
| TimeProofs.MovedBackLoses | asdu/time.go:92-131 | In a zone that moves its standard time back by an hour, a time encoded before the change can be read as the one an hour later, with no error. |
| TimeProofs.AcceptedReadsTheSame | asdu/time.go:117-130 | Nothing is moved silently: what is accepted reads as the octets say. |
| TimeProofs.RefusedExactlyWhen | asdu/time.go:92-131 | Octets are refused if and only if they are marked invalid, a field is out of range, or the clock never shows the reading. |
| TimeProofs.CarryExactlyWhen | asdu/time.go:92-115 | Octets carry a reading if and only if they are at least seven, the invalid bit is clear, and each field, at its place in the octets, is in its range. |
| TimeProofs.ShownExactlyWhen | asdu/time.go:117-125 | A zone shows a reading if and only if it is a date of the calendar and the zone does not skip it. |
| TimeProofs.WallReadsBack | asdu/time.go:22-36 | The calendar of 2000 to 2099: every local second reads as a date, and no two read the same. |
| Calendar.ClockAdvances | asdu/time.go:22-36 | The calendar is the Gregorian one: the clock starts at 2000-01-01 00:00:00 and shows each second what follows the second before, by the lengths of months and the leap years, until 2099-12-31 23:59:59. |
| OctetExamples.ApduExamples | cs104/apci_test.go:76-135 | The octets of I, S and U frames. |
| OctetExamples.StatusExample | cs101/client.go:951-1009 | The octets of a status request. |
| OctetExamples.PollExample | cs101/client.go:951-1009 | The octets of a poll with FCB, at a two-octet address. |
| OctetExamples.DemandExample | cs101/server.go:816-840 | The octets of an answer with access demand. |
| OctetExamples.VariableExample | cs101/frame.go:357-412 | The octets of a variable frame. |
| OctetExamples.SingleExample | cs101/frame.go:266-272 | The octet of the single character. |
| OctetExamples.RequestControls | cs101/frame.go:68-100 | The control octets of all requests. |
| OctetExamples.ResponseControls | cs101/frame.go:104-115 | The control octets of all answers. |
| OctetExamples.UnassignedCodes | cs101/server.go:488-492 | A station takes every function code that is not assigned for a service it does not have, and looks at no frame of another station. |
| OctetExamples.IdentifierExamples | asdu/asdu_test.go:232-275 | The octets of identifiers, with the global address, sequence, negative, test and originator. |
| OctetExamples.PointExamples | asdu/mproc_test.go:81-107 | The octets of two single points, apart and as a sequence. |
| OctetExamples.TypesOfValues | asdu/identifier.go:31-67 | The type identifications of the four values and their time tags. |
| OctetExamples.ElementExamples | asdu/information_test.go:56-59 | The octets of step positions and normalized values, negative ones included. |
| OctetExamples.CounterExample | asdu/codec.go:131-155 | The octets of counter readings with their sequence number and flags. |
| OctetExamples.TimeExamples | asdu/time_test.go:10-18 | The octets of two times. |

## Left out

- Sockets, serial ports, TLS, contexts, goroutines, reconnection delays: channels are sequences, an ended connection is a terminal state.
- Real time: a tick carries an arbitrary time; a timer that is not running is None instead of a time a hundred years ahead.
- The increment of ackNoSend at t1 expiry (cs104/server_session.go:282): the session is over and its counters are reset.
- Full Go channels between the goroutines of one endpoint: sends into them always succeed.
- Framing104.ReadApdu: the end of a stream is that of the server: the connection is over and the octets read are not looked at. The client's loop (cs104/client.go:216-219) ends only when it holds no octet, so on a close right after a lone 68H it kept, or right after the first two octets of an APDU, it goes round without end and delivers nothing more.
- Framing104.NoiseSkipped: the client's loop skips the same octets, but its end of stream is not modelled, see ReadApdu.
- FileStations.Sender.OnCallOrSelect: the default call, for the directory, has no reply here; the directory (F_DR_TA_1) is not modelled.
- Clients101.Client.HandleIncomingFrame: a link address of no octets (cs101/client.go:612), which the configuration refuses (cs101/config.go:141-143).
- LinkFrames101.ResponseCrossesLine: the single character E5, which this library's stations never send; the Client accepts it.
- On the cs101 line: doubled frames, and an answer that arrives after T1 has fired for its request.
- On the way between Sender and Receiver: loss, doubling or reordering of ASDUs, and damage outside the octets of a segment.
- Balanced mode of cs101 and the secondary role of its client.
- Broadcast user data on the line of `LinkNet101`: its place in the queue and at the station is modelled, its way over the line is not, since nobody answers it.
- ASDUs in the queues of cs101 that MarshalBinary refuses, and received ones that do not decode: `DecoderAgreesExactlyWhen` says which ASDUs those are.
- A new connection of a cs101 station over TCP, which resets the station in the middle of a run.
- cs103, whose link machine is a near copy of cs101's.
- The file directory (F_DR_TA_1), and errors of the connection while a file ASDU is sent.
- File transfer with parameters outside the standard's range: every send is refused there, so ValidParams excludes them.
- Config104.Config.Valid: a function of the configuration, although the program writes the defaults into it.
- ObjectProofs.ElementSurvivesExactlyWhen: four representative element types; the remaining commands, parameters and measured values have the same shape. A time tag in an object is its octets; float values are not modelled.
- TimeProofs.OctetsCarryReading: times outside the years 2000 to 2099, whose year octet wraps (asdu/time.go:35).
- TimeProofs.SurvivesExactlyWhen: readings with at most two instants; over all clocks, readings with more included, it is `AllSurviveExactlyOnOrdinaryClocks`.
- TimeProofs.OneOffsetAllSurvive: a sufficient condition on zones; a zone that changes its standard offset may or may not be ordinary.
- CP24Time2a and CP32Time2a, which take the missing fields from the clock of the receiver.
- String and JSON forms, logging, error texts, user handlers.
