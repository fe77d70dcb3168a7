# PokerTH: a verified model

This project models the parts of PokerTH in which state, order and arithmetic carry the meaning, and
proves what they promise.

* **Sessions.** `Framing` is the wire format (a 4-byte size in network order and the payload).
  `SendBuffer` is the double send buffer of a session, `ReceiveBuffer` the in-place scanner at the other
  end, and `Transport` puts both around a network that cuts the byte stream wherever it likes.
  `ChatCleaner` is a second decoder of the same format.
* **The game database.** `DbQueries` says what the worker does with one query, for every outcome;
  `DbProtocol` interleaves any number of callers with the worker, one step at a time; `DbThread` is the
  code, tied to those steps. `Composite` is a query made of several, `SqlText` the text of the statements
  and a lexer of what MySQL makes of it (MySQL 5.7 Reference Manual, section 9.1.1 "String Literals",
  backslash escapes enabled); `Decimal` prints numbers.
* **The game.** `Blinds` raises the blinds, `Dealer` and `Game` rotate the dealer while players drop out,
  `Pot` and `LocalBoard` distribute the pot: side pots, ties, odd chips. `SidePots` says who wins how much,
  chips that nobody matched included, and `OddChips` what each of several winners gets, by where they sit.
* **The client.** `ClientState` is its connection state machine of nineteen states, `ClientSafety` what an
  arbitrary server can and cannot make of it, `ClientRuns` which runs of acceptable messages there are,
  `ClientThread` the code. `Seats` and `PlayerList` turn the table so that the client sits in seat 0;
  `SeatNumbers`, `SortOrder`, `SeatOrder` and `ClientSeating` follow a player of a start message through the
  list to its seat, and a seat state of the server to a player (with `Counting` for the counting this takes).
  `HandCycle` follows the hands of a game, `RejoinList` and `ClientAccounts` the player list, the requests and
  the ids of a client, over whole runs.
* **Chat moderation and helpers.** `TextFlood` and `MessageFilter` are the limiter and the escalation,
  `FilterHistory` says what the escalation keeps and answers by the history of the chat alone,
  `ChatModeration` is both together over whole chats,
  `AvatarCache` the eviction, `HashBuf` and `Cipher` the hash texts, their order, and the padding around
  the cipher.

`GameDefs` holds the constants that several modules share. The number of seats of a table is any number from
2 up; the program is built with 2 (`src/game_defs.h:35`). `Wrappers` holds `Option`.

Classes hold the fields of the source and their methods change them step by step; each method is proved
against a function on values, and what holds over whole runs is proved about those functions.

## What turned out not to hold

* The sender accepts packets of more than `MAX_PACKET_SIZE`, which the receiver answers by closing the
  session (`Transport.OversizedPacketClosesReceiver`). When every byte of packets that are good otherwise has
  arrived, the receiver has cut off all of them if and only if all sizes are between 1 and
  `MAX_PACKET_SIZE`, whatever its handler did (`Transport.EverythingArrives`).
* A packet that cannot be parsed ends a scan. Complete packets behind it wait for the next read even if
  nothing more is to come (`Transport.StaysBehindUnparseable`). If all sizes are good, they stay behind if and
  only if one that is not the last of those the last read finds is not worth a packet
  (`Transport.StaysBehindIff`).
* The lobby subscription is off exactly in the three game states, except that the final state keeps it as
  the failing handler left it: it is off if and only if the client was in a game, or was about to
  synchronize and got the start message (`ClientSafety.FinalSubscription`). A start message that names an
  unknown player does this (`ClientRuns.FinalWithSubscriptionOff`).
* A removal takes every receiving state to the wait for a join. A client that waits for a join or is
  further has no session if and only if a removal reached it while it waited for the announcement or for
  its session (`ClientRuns.NoSessionIffRemovedEarly`). Acceptable messages can put such a client into a hand
  (`ClientRuns.HandWithoutSession`); join, start and seats are still needed.
* `InitGame` replaces the number of seats by the length of the player list, which can hold players whom the
  start message does not name, and the same player twice. For every list and message, repetitions and
  rejoined games included, the state of a seat reaches its player if and only if the table has its local seat
  and an entry of that player has this rank, by turned number and place in the list
  (`ClientSeating.SeatStatesReachIff`). If nobody is listed or named twice, all states reach their players if
  and only if everyone named has an entry, those not named come between the players of the last and of the
  first seat, and the list has room at the table unless the client has the first seat
  (`ClientSeating.AllStatesReachIff`). A state goes to somebody else when a player joined who is not named, and
  also when the client itself is listed twice and everyone is named (`ClientSeating.StateReachesWrongPlayer`).
* What a folded player has in above everyone who stands is paid out with the rest: the strictly best hand
  wins its side pot and everything above the largest standing set, so exactly its side pot if and only if
  somebody who stands covers everyone (`SidePots.BestHandWinsItsDue`, `SidePots.BestHandWinsSidePot`,
  `SidePots.FoldedExcess`).
* Unused seats have the id 0. With different players, the nearest active seat deals next in every situation if
  and only if the table is full or no player but the first has this id (`Dealer.RotationNeedsLayout`). The failure takes three seats
  (`Dealer.ZeroIdDealsTwice`); with the program's two, two players fill the table.
* A pot that differs from what the players put in is still paid without loss or gain if and only if it is
  larger and somebody put something in (`LocalBoard.PotConserved`). A smaller pot makes chips
  (`LocalBoard.ChipsMade`), a pot into which nobody put anything is lost (`LocalBoard.ChipsLost`).
* A parameter whose text is the sentinel arrives at the statement as NULL, every other one as its text
  (`SqlText.SentinelIsTheOnlyCollision`).
* A hash text of the right length that is bad somewhere has already overwritten the bytes before that place
  (`HashBuf.HashBuf.FromString`). A text with a zero byte is cut there by encryption and decryption
  (`Cipher.EncryptionRoundTrip`).

## Model

| member | source | states |
|---|---|---|
| Framing.Net32RoundTrip | src/net/asiosendbuffer.cpp:149-164 | reading the header gives back the size that was written, whatever follows it |
| Framing.Net32Inverse | src/net/asioreceivebuffer.cpp:106-124 | the four header bytes are determined by the number they spell |
| Framing.FramingIsPrefixFree | src/net/asioreceivebuffer.cpp:106-169 | if one framed stream starts with another, so does one packet list with the other: a decoder cannot lose its place |
| Framing.FramingInjective | src/net/asiosendbuffer.cpp:149-164 | two packet lists with the same stream are the same list |
| SendBuffer.AsioSendBuffer.constructor | src/net/asiosendbuffer.cpp:48-51 | an empty buffer with nothing in flight |
| SendBuffer.AsioSendBuffer.SetCloseAfterSend | src/net/asiosendbuffer.cpp:57-61 | only the request is noted |
| SendBuffer.AsioSendBuffer.GetSendBufLeft | src/net/asiosendbuffer.cpp:182-186 | the free space |
| SendBuffer.AsioSendBuffer.ReallocSendBuf | src/net/asiosendbuffer.cpp:188-199 | doubling up to the cap keeps every stored byte and the write in flight, and fails exactly at the cap |
| SendBuffer.AsioSendBuffer.AppendToSendBufWithoutCheck | src/net/asiosendbuffer.cpp:201-208 | the bytes go behind the stored ones, or are refused if there is no room |
| SendBuffer.AsioSendBuffer.EncodeToBuf | src/net/asiosendbuffer.cpp:166-179 | terminates, succeeds if and only if stored and new bytes fit the cap, and leaves the stored bytes alone if it fails |
| SendBuffer.AsioSendBuffer.InternalStorePacket | src/net/asiosendbuffer.cpp:148-164 | a packet is stored as one whole frame or not at all |
| SendBuffer.AsioSendBuffer.AsyncSendNextPacket | src/net/asiosendbuffer.cpp:106-125 | starts a write of everything waiting if none is in flight, never touches the bytes of one that is, and closes on request only when nothing is left |
| SendBuffer.AsioSendBuffer.HandleWrite | src/net/asiosendbuffer.cpp:63-77 | a completed write starts the next one, a failed one closes |
| SendBuffer.SendStepConserves | src/net/asiosendbuffer.cpp:63-125 | every event keeps written, in flight and waiting bytes together equal to the accepted frames; a requested close comes only when all are written |
| SendBuffer.SenderConservation | src/net/asiosendbuffer.cpp:63-208 | over any run of events: bytes are conserved until a write fails, and without a failure the socket is closed only at a moment when everything accepted has been written |
| SendBuffer.ClosesIff | src/net/asiosendbuffer.cpp:57-125 | the socket is closed from this side exactly when a write fails, or when nothing is left and a close was asked for |
| SendBuffer.Drains | src/net/asiosendbuffer.cpp:63-125 | from any state, while writes succeed, a call to send and at most two completed writes bring out everything accepted, and close if that was asked for |
| ReceiveBuffer.WorthAppend | src/net/asioreceivebuffer.cpp:139-166 | the packets of two frame lists are those of the one and then those of the other |
| ReceiveBuffer.ScanCutsWholeFrames | src/net/asioreceivebuffer.cpp:106-169 | a scan removes whole frames and queues exactly the valid parseable ones in order; only a bad size makes it throw bytes away, and then it closes |
| ReceiveBuffer.ScanStopsForAReason | src/net/asioreceivebuffer.cpp:106-169 | while open it stops only without a complete frame, or behind one that gave no packet |
| ReceiveBuffer.ScanClosesForAReason | src/net/asioreceivebuffer.cpp:114-161 | a scan closes only behind an invalid packet or at a bad size |
| ReceiveBuffer.ScanOfFrames | src/net/asioreceivebuffer.cpp:106-169 | of whole frames a scan cuts off those up to the first that is not worth a packet, and keeps the others byte for byte |
| ReceiveBuffer.ScanLeavesRoom | src/net/asioreceivebuffer.cpp:71-84 | after a scan that leaves the session open there is room for at least one byte |
| ReceiveBuffer.AsioReceiveBuffer.constructor | src/net/asioreceivebuffer.cpp:40-44 | an empty buffer |
| ReceiveBuffer.AsioReceiveBuffer.DropFront | src/net/asioreceivebuffer.cpp:136-152 | compaction in place keeps the bytes behind the removed ones, in order |
| ReceiveBuffer.AsioReceiveBuffer.TakeFrame | src/net/asioreceivebuffer.cpp:132-155 | a complete frame is parsed and removed, whatever comes of it |
| ReceiveBuffer.AsioReceiveBuffer.ScanOnce | src/net/asioreceivebuffer.cpp:106-169 | one round of the scan |
| ReceiveBuffer.AsioReceiveBuffer.ScanPackets | src/net/asioreceivebuffer.cpp:106-169 | the loop terminates and does what the scan specification says |
| ReceiveBuffer.AsioReceiveBuffer.ProcessPackets | src/net/asioreceivebuffer.cpp:171-184 | queued packets are handed over in order, up to an exception |
| ReceiveBuffer.AsioReceiveBuffer.AcceptChunk | src/net/asioreceivebuffer.cpp:65-84 | the new bytes are counted in; the full-buffer branch is taken only without room |
| ReceiveBuffer.AsioReceiveBuffer.HandleChunk | src/net/asioreceivebuffer.cpp:70-84 | a read that fits the free space never meets a full buffer, and a session left open has room again |
| ReceiveBuffer.AsioReceiveBuffer.HandleRead | src/net/asioreceivebuffer.cpp:65-97 | every end of a read: data, an interruption that changes nothing and reads on, an error that closes, an abort without effect |
| Transport.SenderStepInv | src/net/asiosendbuffer.cpp:63-208 | every step of the link keeps the wire equal to what was written and transmitted |
| Transport.ReceiverStepInv | src/net/asioreceivebuffer.cpp:65-184 | every step keeps the read bytes equal to the cut frames and the buffered rest |
| Transport.LinkInvariant | src/net/asioreceivebuffer.cpp:65-184 | both over any run |
| Transport.DeliveredIsPrefixOfAccepted | src/net/asioreceivebuffer.cpp:65-184 | at all times, for every interleaving and every cutting, what was cut off is a prefix of what was accepted and what was delivered a prefix of what that is worth; an open receiver can read on |
| Transport.ClosedForAReason | src/net/asioreceivebuffer.cpp:106-169 | a receiver that its handler did not close has closed behind an invalid packet, or because the next accepted packet has a size of 0 or above the maximum |
| Transport.KeptBackForAReason | src/net/asioreceivebuffer.cpp:106-184 | a receiver that has read everything, open or closed by its handler only, keeps a packet back only behind one it could not parse |
| Transport.StaysBehindIff | src/net/asioreceivebuffer.cpp:106-169 | after the last read complete frames stay behind if and only if one it found, not the last, is not worth a packet |
| Transport.StaysBehindUnparseable | src/net/asioreceivebuffer.cpp:132-166 | for every packet that cannot be parsed and every one behind it, a reachable run in which all bytes arrive and the second packet stays in the buffer |
| Transport.NothingLeftOver | src/net/asioreceivebuffer.cpp:106-184 | when all bytes are in and the packets parse, such a receiver keeps no byte back |
| Transport.EverythingArrives | src/net/asioreceivebuffer.cpp:65-184 | once all bytes of good packets are in, exactly the accepted packets were cut off if and only if each size is between 1 and the maximum; the receiver is open, and was handed all of them, if and only if besides its handler neither threw nor closed |
| Transport.OversizedPacketClosesReceiver | src/net/asioreceivebuffer.cpp:114-124 | for every oversized packet that is accepted and every first read with its size, a reachable run in which it closes the receiver and is not delivered |
| Transport.ShortestOversized | src/net/asioreceivebuffer.cpp:114-124 | there is such a packet: one byte above the maximum, fully arrived |
| ChatCleaner.DecodeAccounts | src/net/chatcleanermanager.cpp:179-238 | the second decoder cuts whole frames off the front, and loses other bytes only when it resets its buffer |
| ChatCleaner.DecodeLeavesRoom | src/net/chatcleanermanager.cpp:179-238 | it keeps fewer bytes than its buffer holds |
| ChatCleaner.DecodeHandles | src/net/chatcleanermanager.cpp:195-238 | one message per frame in order, the last frame excepted, and none after a fatal one, which is an acknowledgement with another version than 2 or another secret |
| ChatCleaner.DecodeStopsForAReason | src/net/chatcleanermanager.cpp:190-238 | without an error it stops only without a complete frame or behind one that gave no message; it resets its buffer only at a bad size or behind a frame that makes the parser throw |
| ChatCleaner.HandshakeIff | src/net/chatcleanermanager.cpp:258-268 | only the acknowledgement of version 2 with the shared secret connects |
| ChatCleaner.SignalsAreAskedFor | src/net/chatcleanermanager.cpp:270-287 | a player is kicked, banned or muted, and a text posted to the lobby or to a game, exactly as often as handled replies say so |
| ChatCleaner.TextBeforeSanction | src/net/chatcleanermanager.cpp:270-287 | signals keep the order of the messages, and the text of a message comes directly before its sanction |
| ChatCleaner.NextRequestId | src/net/chatcleanermanager.cpp:314-323 | the next id is never zero |
| ChatCleaner.RequestIdsDistinct | src/net/chatcleanermanager.cpp:314-323 | no id repeats within 2^32 - 1 requests |
| ChatCleaner.RequestIdClosedForm | src/net/chatcleanermanager.cpp:314-323 | the k-th id as a number |
| ChatCleaner.ChatCleanerManager.GetNextRequestId | src/net/chatcleanermanager.cpp:314-323 | the counter moves to the id it returns |
| ChatCleaner.ChatCleanerManager.SendMessageToServer | src/net/chatcleanermanager.cpp:294-312 | only messages the other end would take reach the send buffer |
| ChatCleaner.ChatCleanerManager.HandleMessage | src/net/chatcleanermanager.cpp:255-292 | a handshake connects or is fatal; the others only signal; the signals given are always those of the messages handled (`Valid`) |
| ChatCleaner.ChatCleanerManager.TakeFrame | src/net/chatcleanermanager.cpp:206-229 | a frame is removed when it was parsed, all bytes go when parsing throws |
| ChatCleaner.ChatCleanerManager.DecodeLoop | src/net/chatcleanermanager.cpp:190-238 | the loop does what the specification of the decoder says |
| ChatCleaner.ChatCleanerManager.HandleRead | src/net/chatcleanermanager.cpp:178-253 | a read that fits leaves room, and the connection is dropped after a fatal message only |
| ChatCleaner.ChatCleanerManager.ReInit | src/net/chatcleanermanager.cpp:72-92 | an empty buffer and a new name resolution |
| ChatCleaner.ChatCleanerManager.HandleReadError | src/net/chatcleanermanager.cpp:244-253 | a failed read closes; only an established connection is set up again |
| Decimal.DecValue | src/dbofficial/serverdbthread.cpp:231-253 | printed numbers read back |
| Decimal.DecInjective | src/dbofficial/serverdbthread.cpp:231-253 | different numbers print differently |
| DbQueries.ProcessFrame | src/dbofficial/serverdbthread.cpp:666-759 | a query of one game never changes another game's entry |
| DbQueries.CreatePostsOneReply | src/dbofficial/asyncdbcreategame.cpp:56-87 | one reply per create query, and success only with the id registered |
| DbQueries.ProcessEntry | src/dbofficial/serverdbthread.cpp:677-759 | every processed query registers, removes, or leaves its game's entry |
| DbQueries.IdMapMeaning | src/dbofficial/dbidmanager.cpp:35-60 | over every history the map holds a game exactly if it was created and neither failed nor scored since, with the id of that creation |
| DbQueries.ExecutedWithCreatedId | src/dbofficial/asyncdbendgame.cpp:50-64 | a place, end or score query is executed if and only if the database gets that far and its game's create query succeeded with no failed or score query since; then its parameters are its own and the id that create query got, behind them for an end query and in front of them for the other two |
| DbQueries.ExecutedAsAsked | src/dbofficial/serverdbthread.cpp:677-720 | every other query is executed with exactly its own parameters, if the database gets that far |
| DbQueries.EntryMeaning | src/dbofficial/serverdbthread.cpp:677-759 | what registers an id and what ends the life of one, by what was asked and what the database answered |
| DbQueries.AnsweredAsAsked | src/dbofficial/asyncdbauth.cpp:48-91 | how often each answer is given to one query: success, blocked or failed for a login by its verdict, created or not, and the general error |
| DbQueries.DroppedIff | src/dbofficial/serverdbthread.cpp:677-759 | the connection is given up exactly when the parameters cannot be set or the library throws |
| DbQueries.NothingExecutedAfterEnd | src/dbofficial/serverdbthread.cpp:677-757 | after a failed query or the score query nothing of the game runs until it is created anew |
| DbQueries.NoEntryAfterEnd | src/dbofficial/asyncdbupdatescore.cpp:50-86 | and the map holds no entry for it |
| DbQueries.LifeOfGameCreatedOnce | src/dbofficial/asyncdbendgame.cpp:50-84 | both for a game that is created once, for good |
| DbProtocol.StepInv | src/dbofficial/serverdbthread.cpp:500-516 | every step of callers and worker keeps the accounts of queue, semaphore and order |
| DbProtocol.RunInv | src/dbofficial/serverdbthread.cpp:500-551 | over every interleaving |
| DbProtocol.NoLostWakeup | src/dbofficial/serverdbthread.cpp:500-516 | a blocked worker with no post owed has an empty queue and has processed all pushes |
| DbProtocol.ProcessedInPushOrder | src/dbofficial/serverdbthread.cpp:345-375 | processed, held and queued queries are exactly the pushes in order, and the two of one end call are neighbours |
| DbProtocol.StepBalanced | src/dbofficial/asyncdbauth.cpp:48-90 | every step keeps requests equal to replies, the held and the queued query |
| DbProtocol.RunBalanced | src/dbofficial/asyncdbauth.cpp:48-90 | over every interleaving |
| DbProtocol.EveryLoginAnsweredOnce | src/dbofficial/serverdbthread.cpp:136-157 | every login is answered exactly once |
| DbProtocol.HistoryIsGenuine | src/dbofficial/serverdbthread.cpp:666-759 | the life cycle of ids holds along every interleaving |
| DbProtocol.PushedInPlace | src/dbofficial/serverdbthread.cpp:345-375 | what a call pushes is processed at that very place of the worker's history, over every interleaving |
| DbProtocol.EndGameCarriesId | src/dbofficial/asyncdbendgame.cpp:50-64 | the two queries of an end call for game g at time t are executed, if at all, with t and then the id of the game's creation, and with this same id alone |
| DbProtocol.CallCarriesParameters | src/dbofficial/serverdbthread.cpp:136-253 | the query of any other call is executed, if at all, with the parameters of the call, behind the id of the game's creation if it is the place of a player |
| DbProtocol.AnswersHaveCause | src/dbofficial/asyncdbauth.cpp:48-91 | over every interleaving a player is let in, or told that he is blocked, exactly as often as the database said so of a login of his; the same for games created and not created |
| DbThread.DBIdManager.AddGameId | src/dbofficial/dbidmanager.cpp:35-40 | the entry is set |
| DbThread.DBIdManager.RemoveGameId | src/dbofficial/dbidmanager.cpp:42-47 | the entry is gone, no other is touched |
| DbThread.DBIdManager.GetGameDBId | src/dbofficial/dbidmanager.cpp:49-60 | the entry, or the invalid id |
| DbThread.ServerDBThread.PushAndPost | src/dbofficial/serverdbthread.cpp:150-157 | a push step and a post step of the protocol |
| DbThread.ServerDBThread.AsyncPlayerLogin | src/dbofficial/serverdbthread.cpp:136-157 | refines the protocol's push |
| DbThread.ServerDBThread.AsyncCreateGame | src/dbofficial/serverdbthread.cpp:210-228 | refines the protocol's push |
| DbThread.ServerDBThread.SetGamePlayerPlace | src/dbofficial/serverdbthread.cpp:230-253 | refines the protocol's push |
| DbThread.ServerDBThread.EndGame | src/dbofficial/serverdbthread.cpp:344-375 | both queries in one push, then two posts |
| DbThread.ServerDBThread.SignalTermination | src/dbofficial/serverdbthread.cpp:95-100 | a post without a push |
| DbThread.ServerDBThread.InitQuery | src/dbofficial/asyncdbendgame.cpp:50-64 | parameters complete with the id in its place, or failure without one |
| DbThread.ServerDBThread.FailQuery | src/dbofficial/asyncdbcreategame.cpp:83-87 | the error reply of the query and removal of a game's id |
| DbThread.ServerDBThread.SucceedQuery | src/dbofficial/asyncdbcreategame.cpp:56-81 | the reply of the query and what it does to the map |
| DbThread.ServerDBThread.ExecuteQuery | src/dbofficial/serverdbthread.cpp:677-759 | replies, id map, executed parameters and connection at every exit of the worker |
| DbThread.ServerDBThread.HandleQuery | src/dbofficial/serverdbthread.cpp:677-759 | all exits of the worker do what the specification says |
| DbThread.ServerDBThread.HandleNextQuery | src/dbofficial/serverdbthread.cpp:665-759 | the front of the queue is taken and handled; an empty queue is harmless |
| DbThread.ServerDBThread.TryWait | src/dbofficial/serverdbthread.cpp:510-514 | another token if there is one |
| DbThread.ServerDBThread.Round | src/dbofficial/serverdbthread.cpp:500-516 | one query and one try of the semaphore, as steps of the protocol |
| DbThread.ServerDBThread.DrainPending | src/dbofficial/serverdbthread.cpp:500-551 | a turn of the worker is a run of protocol steps, which is returned, and processes as many queries as there were tokens |
| Composite.ReachUnique | src/dbofficial/compositeasyncdbquery.cpp:87-111 | the processed prefix is determined by the outcomes |
| Composite.CompositeAsyncDBQuery.HandleError | src/dbofficial/compositeasyncdbquery.cpp:87-92 | the flag is set |
| Composite.CompositeAsyncDBQuery.Next | src/dbofficial/compositeasyncdbquery.cpp:100-111 | one further, unless failed or at the end |
| Composite.CompositeAsyncDBQuery.ProcessParts | src/dbofficial/serverdbthread.cpp:677-757 | the worker processes exactly a prefix, ending at the first failure |
| SqlText.LiteralRoundTrip | src/dbofficial/mysqlpp_compat.h:157-181 | every literal reads back as its text and ends at its own closing quote, for every string and whatever follows |
| SqlText.SetRoundTrip | src/dbofficial/serverdbthread.cpp:694-712 | the SET statement reads back as the parameter list, the sentinel as NULL |
| SqlText.ExecuteRoundTrip | src/dbofficial/serverdbthread.cpp:689-715 | the EXECUTE statement names the same variables in order |
| SqlText.ParamNamesDistinct | src/dbofficial/serverdbthread.cpp:706-711 | no two parameters share a variable |
| SqlText.AssignedValue | src/dbofficial/serverdbthread.cpp:694-712 | after the assignments each variable has its own parameter's value |
| SqlText.ParametersArrive | src/dbofficial/serverdbthread.cpp:689-715 | in any session both statements together pass on exactly the parameters |
| SqlText.SentinelIsTheOnlyCollision | src/dbofficial/serverdbthread.cpp:707-711 | in any session an argument of the statement is its parameter's text if and only if that is not the sentinel, and NULL if and only if it is |
| SqlText.Query.Quote | src/dbofficial/mysqlpp_compat.h:147 | the next piece will be quoted |
| SqlText.Query.EscapeText | src/dbofficial/mysqlpp_compat.h:165-181 | the loop escapes every character |
| SqlText.Query.Append | src/dbofficial/mysqlpp_compat.h:157-164 | a quote is used up by one piece |
| SqlText.PrintParameter | src/dbofficial/serverdbthread.cpp:701-714 | one round of printing both statements |
| SqlText.BuildStatements | src/dbofficial/serverdbthread.cpp:689-715 | both texts for every parameter list |
| Blinds.BlindSchedule.constructor | src/engine/game.cpp:44-54 | the start of the schedule |
| Blinds.BlindSchedule.DoubleCapped | src/engine/game.cpp:310-315 | doubling in 64 bits is the unbounded doubling with a cap |
| Blinds.BlindSchedule.ManualRaise | src/engine/game.cpp:316-337 | the order is used up from the front, then the mode after it |
| Blinds.BlindSchedule.RaiseSmallBlind | src/engine/game.cpp:310-339 | casts lose nothing for non-negative settings |
| Blinds.BlindSchedule.RaiseBlinds | src/engine/game.cpp:290-341 | one turn of the schedule, all intermediates in 64 bits |
| Blinds.BlindDependsOnRaises | src/engine/game.cpp:290-341 | blind and rest of the order depend on the number of raises only |
| Blinds.RaisesByHand | src/engine/game.cpp:295-299 | with a raise every N hands there have been (k-1)/N raises at the k-th hand, the last at 1 + N*j |
| Blinds.RaisesByMinutes | src/engine/game.cpp:300-306 | raises times interval never exceed the elapsed minutes, for every non-decreasing clock |
| Blinds.RaisedWhenDue | src/engine/game.cpp:300-306 | on any clock, the blinds are raised at a hand if and only if the interval has passed since the hand at which they were raised last, or since the start |
| Blinds.CapIsLargest | src/engine/game.cpp:308-309 | the cap is the largest small blind of which twice fits into all chips, and an int |
| Blinds.DoublingClosedForm | src/engine/game.cpp:310-315 | after r raises the start blind times 2^r, capped |
| Blinds.DoublingSchedule | src/engine/game.cpp:290-341 | the small blind at the k-th hand in closed form, within an int |
| Blinds.ManualExtra | src/engine/game.cpp:320-337 | one raise after the order follows its mode |
| Blinds.ManualClosedForm | src/engine/game.cpp:316-339 | the j-th raise is the j-th entry capped while the list lasts, then the closed form of the mode |
| Blinds.ManualSchedule | src/engine/game.cpp:300-339 | the same for the hands of a game, by hands or by minutes |
| Dealer.DealerFoundIffPlayersLeft | src/engine/game.cpp:191-212 | a dealer is found if and only if the old one has a seat and a player is left |
| Dealer.ListedSeats | src/engine/game.cpp:86-124 | a seat whose id is listed is active, or an unused one that looks like the first player |
| Dealer.NearestActiveSeatDeals | src/engine/game.cpp:191-209 | the dealer moves to the nearest active seat clockwise, also from an inactive one |
| Dealer.RotationNeedsLayout | src/engine/game.cpp:94-124 | which holds in every situation if and only if only the first player can have id 0 |
| Dealer.ZeroIdDealsTwice | src/engine/game.cpp:94-124 | three seats, two players, the second with id 0: it deals twice in a row; up to two seats this cannot be |
| Dealer.PrunedKeepsOrder | src/engine/game.cpp:174-184 | dropping players keeps the seat order |
| Dealer.DealersInSeatOrder | src/engine/game.cpp:191-212 | with the same players the dealers follow the seats, over and over |
| Dealer.Fairness | src/engine/game.cpp:152-213 | over as many hands as there are players each deals exactly once, for any ring and any start |
| Game.Game.Seats | src/engine/game.cpp:86-124 | the seats, with ids and cash, the active ones and the unused ones with id 0 |
| Game.Game.NewGame | src/engine/game.cpp:64-74 | a game exists if and only if the dealer is one of the players |
| Game.Game.SeatIt | src/engine/local_engine/localhand.cpp:700-713 | the first seat with the id |
| Game.Game.ActivePlayerIt | src/engine/local_engine/localhand.cpp:715-728 | found if and only if an active player has the id |
| Game.Game.DropBrokePlayers | src/engine/game.cpp:174-184 | erasing while walking removes exactly the players without cash, and their status |
| Game.Game.RotateDealer | src/engine/game.cpp:191-212 | the walk finds the next dealer of the specification |
| Game.Game.InitHand | src/engine/game.cpp:152-213 | blinds, pruning and dealer of a hand; a failed search changes no dealer |
| Game.Game.ReplaceDealer | src/engine/game.h:134-138 | a replaced player stays dealer |
| Game.NewGameLayout | src/engine/game.cpp:86-124 | which player lists give a proper layout, up to a full table |
| Pot.ReducedSum | src/engine/local_engine/localboard.cpp:265-270 | a level takes its amount from everyone still in |
| Pot.SidePotLevel | src/engine/local_engine/localboard.cpp:117-130 | a side pot is its first level and the side pot of the rest |
| Pot.WinnersIffSomeoneStands | src/engine/local_engine/localboard.cpp:132-168 | a level has winners if and only if someone has not folded |
| Pot.SharedSum | src/engine/local_engine/localboard.cpp:191-254 | the shares add up |
| Pot.PaidSum | src/engine/local_engine/localboard.cpp:187-259 | a level pays out its sum |
| Pot.PaidEach | src/engine/local_engine/localboard.cpp:187-259 | equal shares but for one odd chip each at most, nothing for others |
| Pot.LastLevelIsFinal | src/engine/local_engine/localboard.cpp:170-186 | the last level is never carried over |
| Pot.ChipsConserved | src/engine/local_engine/localboard.cpp:82-280 | cash and winnings grow by exactly what was put in |
| Pot.FailsIffNobodyStands | src/engine/local_engine/localboard.cpp:146-168 | no winner is an error if and only if there is something to win and all have folded |
| Pot.FoldedWinNothing | src/engine/local_engine/localboard.cpp:132-168 | folded and absent players win nothing |
| SidePots.WinningsWithinSidePot | src/engine/local_engine/localboard.cpp:117-280 | nobody wins more than all put in up to his own amount and, with a best hand, the chips that nobody who stands has matched |
| SidePots.BestHandWinsItsDue | src/engine/local_engine/localboard.cpp:117-280 | the strictly best hand wins its side pot and everything above the largest standing set, to the chip |
| SidePots.BestHandWinsSidePot | src/engine/local_engine/localboard.cpp:146-168 | it wins at least its side pot, and exactly that if and only if someone who stands covers everyone |
| SidePots.FoldedExcess | src/engine/local_engine/localboard.cpp:146-168 | 150 for a side pot of 100, when a folded player had more in |
| OddChips.AheadOfOrder | src/engine/local_engine/localboard.cpp:213-254 | the j-th winner to be paid has j winners strictly before it, clockwise of the dealer |
| OddChips.PaidByDistance | src/engine/local_engine/localboard.cpp:187-259 | of a sum each winner gets an equal share, and one chip more if and only if fewer winners than there are odd chips sit before it clockwise of the dealer, who comes last himself; nobody else gets anything |
| OddChips.LevelPaysByDistance | src/engine/local_engine/localboard.cpp:187-259 | the same of a level that is paid out |
| OddChips.TieSharesSidePot | src/engine/local_engine/localboard.cpp:117-280 | players who tie for the best hand with the same amount in share their side pot like this: exactly so when somebody who stands covers everyone, and at least so otherwise |
| OddChips.NextAfterDealerGetsOddChip | src/engine/local_engine/localboard.cpp:213-254 | five chips for the first and the third seat, the third being the dealer: three and two |
| OddChips.WinningsAreCashed | src/engine/local_engine/localboard.cpp:191-254 | the cash of every seat grows by exactly what it wins |
| LocalBoard.LocalBoard.CollectSets | src/engine/local_engine/localboard.cpp:57-67 | the sum of the bets |
| LocalBoard.LocalBoard.CollectPot | src/engine/local_engine/localboard.cpp:69-80 | the bets move into the pot |
| LocalBoard.LocalBoard.HighestCardsValue | src/engine/local_engine/localboard.cpp:132-137 | the best hand among those who are in |
| LocalBoard.LocalBoard.PushWinners | src/engine/local_engine/localboard.cpp:139-144 | the ids of those who hold it, in seat order |
| LocalBoard.LocalBoard.IsFinal | src/engine/local_engine/localboard.cpp:170-186 | whether it is the last level for a winner |
| LocalBoard.LocalBoard.PayEqually | src/engine/local_engine/localboard.cpp:191-209 | equal shares |
| LocalBoard.LocalBoard.NextWinner | src/engine/local_engine/localboard.cpp:225-241 | the walk meets the next winner clockwise |
| LocalBoard.LocalBoard.PayClockwise | src/engine/local_engine/localboard.cpp:213-254 | odd chips go one each to the first winners after the dealer |
| LocalBoard.LocalBoard.Level | src/engine/local_engine/localboard.cpp:122-263 | one level, with the machine's conversions |
| LocalBoard.LocalBoard.Reevaluate | src/engine/local_engine/localboard.cpp:265-270 | the level is taken off |
| LocalBoard.LocalBoard.DistributeLevels | src/engine/local_engine/localboard.cpp:117-280 | the loop over the re-sorted sets meets every level once |
| LocalBoard.LocalBoard.Settle | src/engine/local_engine/localboard.cpp:282-304 | a remainder goes to the winner with the smallest id |
| LocalBoard.LocalBoard.DistributePot | src/engine/local_engine/localboard.cpp:82-311 | the whole distribution; who gets how much is said by PotConserved, TieSplitsPot, HandIsZeroSum and the lemmas of SidePots and OddChips |
| LocalBoard.DistinctIdsIdentify | src/engine/game.cpp:86-124 | distinct ids of players find the right seats |
| LocalBoard.PotConserved | src/engine/local_engine/localboard.cpp:82-311 | how many chips are paid, and that none is lost or made if and only if the pot is what was put in, or more with someone to take it |
| LocalBoard.TieSplitsPot | src/engine/local_engine/localboard.cpp:82-311 | after the whole distribution, remainder included, each player of a tie has won his share of the side pot by his distance from the dealer, and has it in cash |
| LocalBoard.HandIsZeroSum | src/engine/local_engine/localboard.cpp:82-130 | when the pot holds what the players have bet since the start of the hand, all cash together is in the end what it was at the start |
| LocalBoard.ChipsMade | src/engine/local_engine/localboard.cpp:282-304 | a pot of 90 into which 100 were put pays 100 |
| LocalBoard.ChipsLost | src/engine/local_engine/localboard.cpp:282-304 | a pot of 10 into which nothing was put pays nothing |
| ClientState.HandleInv | src/net/clientstate.cpp:617-2046 | every event keeps the safety invariant, up to its end or to where it throws |
| ClientState.PacketInv | src/net/clientstate.cpp:617-938 | the same for every packet in every state, the forwarded one included |
| ClientState.Run | src/net/clientthread.cpp:586-644 | the invariant after every run |
| ClientSafety.SafetyOfEveryRun | src/net/clientthread.cpp:1022-1050 | subscription off exactly in a game outside the final state, challenge states unreachable, a hand always has a game and a positive count |
| ClientSafety.FinalSubscription | src/net/clientthread.cpp:1160-1187 | in the final state it is off if and only if the client was in a game, or synchronized and got the start message |
| ClientSafety.PhaseStep | src/net/clientstate.cpp:1229-1641 | how a step enters the joined, started and playing states |
| ClientSafety.HandsNeedJoinStartAndSeats | src/net/clientstate.cpp:1233-1515 | a hand needs a join, a start event and a game start with a seat, in this order, with no removal and no end since |
| ClientSafety.SeatStatesReachTheirPlayers | src/net/clientstate.cpp:1449-1609 | after a start message that names everyone once, each seat state reaches the player the server means |
| ClientSafety.StartOutcome | src/net/clientthread.cpp:666-693 | what a complete start message makes of the client |
| ClientRuns.SessionStep | src/net/clientstate.cpp:646-1190 | how a step gets past the session: with one, or by an early removal |
| ClientRuns.NoSessionIffRemovedEarly | src/net/clientstate.cpp:646-679 | over every run, a client that waits for a join or is further has no session if and only if a removal came while it waited for the announcement or the session |
| ClientRuns.HandWithoutSession | src/net/clientstate.cpp:646-679 | a run of acceptable messages to a hand without a login |
| ClientRuns.FinalWithSubscriptionOff | src/net/clientstate.cpp:1461-1478 | a run of acceptable messages, the last with an unknown player, that ends with the subscription off |
| ClientSeating.StartSucceeds | src/net/clientstate.cpp:1408-1517 | exactly which start messages succeed, of a new game or one joined again, and the game they make |
| ClientSeating.SeatStatesReachIff | src/net/clientstate.cpp:1586-1609 | after a start that succeeds, for every list and message, exactly when the state of a seat reaches its player |
| ClientSeating.AllStatesReachIff | src/net/clientstate.cpp:1586-1609 | without repetitions, exactly when all states reach their players, by what is listed and named before the start |
| ClientSeating.StateReachesWrongPlayer | src/net/clientthread.cpp:1311-1322 | runs of acceptable messages after which the state of player 6 goes to any player x, the client itself listed twice included |
| HandCycle.HandStep | src/net/clientstate.cpp:1549-2046 | a client that plays goes into a hand by a hand start with its cards and possible seats, out of it by an end that names seated players, and by nothing else; the hand number counts the starts |
| HandCycle.PlaysUntil | src/net/clientstate.cpp:1546-2046 | it plays on exactly until a removal, an error, the end of the game, a message about somebody without a seat, a hand start that is not for it, or an impossible bet |
| HandCycle.GameStep | src/net/clientstate.cpp:1408-1517 | it comes to play by a game start that succeeds and by nothing else, before the first hand or with the number the rejoin names |
| HandCycle.HandsAlternate | src/net/clientstate.cpp:1549-2046 | at every moment of every run since its game start: a client that plays is in a hand if and only if one was started and none has ended since; starts and ends alternate; the hand number is the first one plus the starts |
| HandCycle.RenamedSeat | src/net/clientstate.cpp:1670-1682 | a new id takes the place of the first seat with the old one |
| RejoinList.StartKeepsPlayers | src/net/clientstate.cpp:1448-1514 | a game start that succeeds brings nobody to the list and takes nobody off: the players made up for a rejoin are gone again |
| RejoinList.CashOfRejoined | src/net/clientstate.cpp:1493-1506 | a player's cash after a rejoin is what his last place in the message says |
| RejoinList.EntriesWithout | src/net/clientthread.cpp:1326-1343 | when a player leaves, one entry of his goes, and nobody else's |
| ClientAccounts.RosterStep | src/net/clientstate.cpp:642-720 | the player list follows who joins and who leaves: empty after a removal, with the client itself from its own join on, and changed in this respect by no other event |
| ClientAccounts.RequestsStep | src/net/clientthread.cpp:1022-1050 | exactly which requests each event makes the client send, also when it fails afterwards |
| ClientAccounts.Identity | src/net/clientstate.cpp:1016-1240 | after every run the client has the id of its last session, the game of its last join, and the name and password of its last login |
| ClientAccounts.AllEndpointsTried | src/net/clientstate.cpp:517-570 | all endpoints of a resolution are tried; the failure of the last, and of no other, ends the client |
| ClientThread.ClientThread.Started | src/net/clientstate.cpp:100-119 | the first states of a client |
| ClientThread.ClientThread.EnterReadingServerList | src/net/clientstate.cpp:307-397 | one server is used, several are shown, none is a failure |
| ClientThread.ClientThread.UnsubscribeLobbyMsg | src/net/clientthread.cpp:1022-1034 | one request, if subscribed |
| ClientThread.ClientThread.ResubscribeLobbyMsg | src/net/clientthread.cpp:1036-1050 | one request, if not subscribed |
| ClientThread.ClientThread.RemovePlayerData | src/net/clientthread.cpp:1326-1343 | the first entry with the id leaves |
| ClientThread.ClientThread.MapPlayerDataList | src/net/clientthread.cpp:1373-1411 | the list turned and sorted, or left alone with an error |
| ClientThread.ClientThread.InitGameFromList | src/net/clientthread.cpp:665-693 | the number of seats becomes the length of the list; a game if the dealer is in it |
| ClientThread.ClientThread.SetInitialNumbers | src/net/clientstate.cpp:1465-1478 | numbers by seat, up to an unknown player |
| ClientThread.ClientThread.SetRejoinNumbers | src/net/clientstate.cpp:1486-1506 | numbers and cash by seat, missing players made up |
| ClientThread.ClientThread.WaitStartHandlePacket | src/net/clientstate.cpp:1448-1517 | the game start |
| ClientThread.ClientThread.SynchronizeStartHandlePacket | src/net/clientstate.cpp:1408-1420 | the game start is forwarded to the next state |
| ClientThread.ClientThread.SharedHandlePacket | src/net/clientstate.cpp:616-938 | the shared part of every packet |
| ClientThread.ClientThread.StartHand | src/net/clientstate.cpp:1549-1629 | a hand starts only with fitting cards and existing seats |
| ClientThread.ClientThread.WaitHandHandlePacket | src/net/clientstate.cpp:1546-1690 | packets between hands |
| ClientThread.ClientThread.PlayersHandlePacket | src/net/clientstate.cpp:1719-2046 | messages about players of a hand throw unless they have a seat, and change nothing kept here |
| ClientThread.ClientThread.RunHandHandlePacket | src/net/clientstate.cpp:1719-2046 | packets of a hand |
| ClientThread.ClientThread.StartSessionHandlePacket | src/net/clientstate.cpp:955-1000 | the announcement of the server leads to the login |
| ClientThread.ClientThread.AuthChallengeHandlePacket | src/net/clientstate.cpp:1081-1128 | a challenge is answered, or its check throws |
| ClientThread.ClientThread.AuthVerifyHandlePacket | src/net/clientstate.cpp:1128-1170 | the verification of the server, or an exception |
| ClientThread.ClientThread.WaitSessionHandlePacket | src/net/clientstate.cpp:1170-1226 | the session is established; an avatar is sent if it can be |
| ClientThread.ClientThread.WaitJoinHandlePacket | src/net/clientstate.cpp:1228-1325 | the acknowledged join enters the client itself, if it is known by name |
| ClientThread.ClientThread.WaitGameHandlePacket | src/net/clientstate.cpp:1327-1352 | the start event leads to synchronization |
| ClientThread.ClientThread.LobbyHandlePacket | src/net/clientstate.cpp:955-1352 | packets before a game |
| ClientThread.ClientThread.ReceivePacket | src/net/clientthread.cpp:456-460 | a packet goes through the shared part and then to the state in which it came |
| ClientThread.ClientThread.HandleConnection | src/net/clientstate.cpp:163-604 | resolution, connection, handshake and their time limit |
| ClientThread.ClientThread.TimerLogin | src/net/clientstate.cpp:1016-1065 | a login that was entered is sent |
| ClientThread.ClientThread.TimerSynchronize | src/net/clientstate.cpp:1384-1406 | the start is acknowledged and the lobby unsubscribed |
| ClientThread.ClientThread.HandleTimer | src/net/clientstate.cpp:275-460 | the timers that poll for a list, a choice, a login and the game window |
| ClientThread.ClientThread.HandleOther | src/net/clientstate.cpp:163-604 | timers, resolver and connection |
| ClientThread.ClientThread.HandleEvent | src/net/clientthread.cpp:586-644 | an exception ends in the final state; the invariant holds after every event |
| Seats.LocalSeatForm | src/net/clientstate.cpp:1592-1594 | the two remainders give the plain circular difference |
| Seats.LocalSeatInRange | src/net/clientstate.cpp:1592-1594 | a seat of the table for every index and every own seat |
| Seats.RenumberingIsPermutation | src/net/clientstate.cpp:1590-1594 | renumbering is a permutation that sends the client to 0 and keeps the circle |
| Seats.HandleSeatState | src/net/clientstate.cpp:1589-1608 | one seat state changes one seat, or none exists |
| Seats.HandleSeatStates | src/net/clientstate.cpp:1586-1609 | the loop, up to a missing seat |
| Seats.FullListUpdatesEachSeatOnce | src/net/clientstate.cpp:1586-1609 | a full list updates each seat once, with its own state |
| PlayerList.SortedIncreasing | src/net/clientthread.cpp:1404-1407 | sorting puts distinct numbers in order |
| PlayerList.NumberedMeaning | src/net/clientstate.cpp:1465-1475 | each named player gets its seat's number |
| PlayerList.SeatedInOrder | src/net/clientthread.cpp:1374-1411 | the sorted list seats everyone in the server's order around the client |
| SortOrder.SortedByRank | src/net/clientthread.cpp:1404-1407 | the stable sort puts every entry at its rank: behind the smaller numbers and the earlier equal ones |
| SortOrder.EveryPlace | src/net/clientthread.cpp:1404-1407 | and every place is the rank of an entry |
| SortOrder.PlaceHolds | src/net/clientthread.cpp:1404-1407 | a place of the sorted list has an id if and only if an entry with that id has this rank, for every list |
| SortOrder.AtItsRank | src/net/clientthread.cpp:1404-1407 | with different ids a player is at a place if and only if that is its rank |
| SeatNumbers.NumberedClosedForm | src/net/clientstate.cpp:1465-1475 | for every list and message: it goes through if and only if everyone named is listed, and gives the first entry of each player its last seat |
| SeatNumbers.RejoinedClosedForm | src/net/clientstate.cpp:1486-1506 | the same for a game joined again, with each missing player that can be made up once behind the list |
| SeatNumbers.RejoinedCarries | src/net/clientstate.cpp:1486-1506 | without repetitions everyone named then has an entry with the number of its seat |
| SeatOrder.RankOfNamed | src/net/clientthread.cpp:1394-1410 | a named player's rank is its turned number and the unnamed ones before it |
| SeatOrder.AllReachIffOthersBetween | src/net/clientthread.cpp:1394-1410 | every local seat holds the player meant if and only if the unnamed ones come between the last and the first seat |
| TextFlood.TextFloodCheck.Run | src/chatcleaner/textfloodcheck.cpp:52-87 | one message of a player |
| TextFlood.TextFloodCheck.CleanMsgTimesList | src/chatcleaner/textfloodcheck.cpp:89-112 | erasing and rewriting on the way lowers stale levels and drops empty ones |
| TextFlood.TextFloodCheck.RemoveNickFromList | src/chatcleaner/textfloodcheck.cpp:114-119 | the entry is gone |
| TextFlood.TimesAreOfLastMessages | src/chatcleaner/textfloodcheck.cpp:52-112 | a kept time is that of the player's last message |
| TextFlood.Amortised | src/chatcleaner/textfloodcheck.cpp:52-119 | (L+1) * trips + level never exceed the messages within a second of the previous one, whatever is cleaned or removed |
| TextFlood.ExactWithoutCleaning | src/chatcleaner/textfloodcheck.cpp:52-87 | with messages only the account is exact |
| TextFlood.TripsEveryTime | src/chatcleaner/textfloodcheck.cpp:52-87 | then every (L+1)-st close message trips, no other |
| TextFlood.CleaningForgives | src/chatcleaner/textfloodcheck.cpp:89-112 | a cleaning takes a level from exactly those who last wrote more than three seconds ago, and their place from those of them with no level |
| TextFlood.ExactAccount | src/chatcleaner/textfloodcheck.cpp:52-119 | the account is exact over every run: close messages are (L+1) * trips, the level, and what cleaning and removal have spared |
| MessageFilter.MessageFilter.Offence | src/chatcleaner/messagefilter.cpp:82-88 | all checks run and the highest-ranked offence is kept |
| MessageFilter.HighestIsUnique | src/chatcleaner/messagefilter.cpp:50-57 | which is one offence |
| MessageFilter.MessageFilter.CountKick | src/chatcleaner/messagefilter.cpp:117-136 | a kick is counted, or becomes a ban |
| MessageFilter.MessageFilter.Check | src/chatcleaner/messagefilter.cpp:75-192 | warning, mute, kick or ban, and what each does to the lists |
| MessageFilter.MessageFilter.CleanKickCounterList | src/chatcleaner/messagefilter.cpp:238-254 | the loop forgets what the specification does; which kicks that are is said by FilterHistory.KickListMeaning |
| MessageFilter.WarningAccount | src/chatcleaner/messagefilter.cpp:94-147 | warnings, sanctions and level of a player stay in proportion, levels within 1 and the limit |
| MessageFilter.WarningsBracketSanctions | src/chatcleaner/messagefilter.cpp:94-147 | sanctions <= warnings <= W * (sanctions + 1) |
| MessageFilter.WarningStays | src/chatcleaner/messagefilter.cpp:94-147 | a warning is remembered until the player's next offence |
| MessageFilter.SameOffenceTwice | src/chatcleaner/messagefilter.cpp:103 | two consecutive offences of one type never both give a warning |
| MessageFilter.BansArePaid | src/chatcleaner/messagefilter.cpp:117-136 | B * bans + counter <= kicks, with equality when nothing is forgotten, counters within 1 and B |
| MessageFilter.KicksBetweenBans | src/chatcleaner/messagefilter.cpp:125-131 | at a ban the kicks are exactly B for each ban |
| MessageFilter.GamesNeverKick | src/chatcleaner/messagefilter.cpp:104-136 | over every run, a nick that offends in games only is never kicked, banned, or on the kick list |
| MessageFilter.LobbyNeverMutes | src/chatcleaner/messagefilter.cpp:104-113 | and a player who offends in the lobby only is never muted |
| FilterHistory.KickListMeaning | src/chatcleaner/messagefilter.cpp:117-254 | after every history a nick is on the kick list if and only if it was kicked and since then neither banned nor found by a regular cleaning with its last kick more than the forgetting time ago; its number is the number of such kicks, its time that of the last |
| FilterHistory.WarnListMeaning | src/chatcleaner/messagefilter.cpp:94-147 | a player is on the warning list if and only if he was warned and not sanctioned since, with the number of these warnings and the offence of the last |
| FilterHistory.AnswerByHistory | src/chatcleaner/messagefilter.cpp:90-147 | every answer, by the history before it: a sanction if and only if the warnings since the last one reach the limit or the last was for the same offence; a mute in a game, a ban after as many live kicks as the limit says, else a kick |
| ChatModeration.HighestIsKept | src/chatcleaner/messagefilter.cpp:50-88 | the offence that counts, as a function of what the checks found |
| ChatModeration.CheckIsStep | src/chatcleaner/messagefilter.cpp:75-192 | what a check of the filter promises determines the step |
| ChatModeration.PartsRunAlone | src/chatcleaner/messagefilter.cpp:75-192 | over every chat, limiter and filter are where their own runs bring them, sanctions clearing the limiter's entry included |
| ChatModeration.FloodAccount | src/chatcleaner/messagefilter.cpp:82-147 | a player whose texts are clean is answered at each trip of the limiter, with a warning and a sanction in turn |
| ChatModeration.FloodersPay | src/chatcleaner/messagefilter.cpp:82-147 | each such sanction is paid for with 2 * (L + 1) messages of that player within a second of its previous one |
| AvatarCache.AvatarManager.Insert | src/core/avatarmanager.cpp:501 | the time map stays in order |
| AvatarCache.AvatarManager.FirstPass | src/core/avatarmanager.cpp:484-520 | the time map holds the survivors' keys, each once with its time; a failing file system leaves the cache alone |
| AvatarCache.AvatarManager.EvictOldest | src/core/avatarmanager.cpp:525-532 | the oldest leaves both containers, which stay in step |
| AvatarCache.AvatarManager.EvictByNumber | src/core/avatarmanager.cpp:523-534 | above the limit exactly half the limit remains |
| AvatarCache.AvatarManager.EvictByAge | src/core/avatarmanager.cpp:535-546 | nobody who remains is too old |
| AvatarCache.AvatarManager.RemoveOldAvatarCacheEntries | src/core/avatarmanager.cpp:463-560 | survivors are retained by the rule, and exactly the files of the evicted are removed |
| AvatarCache.NothingLostWithinLimits | src/core/avatarmanager.cpp:522-546 | within the limits nothing is evicted |
| AvatarCache.OnlyOwnFilesRemoved | src/core/avatarmanager.cpp:493-560 | only files below the cache directory that exist are removed, each because there were too many or because of its age; what stays is below it, exists, and has not reached its age |
| AvatarCache.RetainedAreDetermined | src/core/avatarmanager.cpp:522-546 | with distinct times the rule leaves one result |
| AvatarCache.EvictionFollowsRule | src/core/avatarmanager.cpp:522-546 | both loops together follow the rule |
| HashBuf.ParsePrinted | src/core/crypthelper.cpp:74-110 | parsing gives back what was printed |
| HashBuf.PrintedDigits | src/core/crypthelper.cpp:74-86 | the i-th byte is printed as two lower-case hex digits, the upper half first |
| HashBuf.ParsedBytes | src/core/crypthelper.cpp:88-110 | of any text, the bytes of its pairs of digits up to the first pair that is not one |
| HashBuf.ParsesHexTexts | src/core/crypthelper.cpp:88-110 | what parses is exactly the hex texts of even length |
| HashBuf.PrintParsed | src/core/crypthelper.cpp:74-110 | printing what was parsed gives the lower-case text |
| HashBuf.XorZero | src/core/crypthelper.cpp:130 | the exclusive or is zero exactly for equal bytes |
| HashBuf.OrZero | src/core/crypthelper.cpp:130 | the or is zero exactly for two zeros |
| HashBuf.StrictTotalOrder | src/core/crypthelper.cpp:120-141 | the map order is strict and total and agrees with equality |
| HashBuf.FirstDifferenceDecides | src/core/crypthelper.cpp:136-141 | of two hashes of one size the one with the smaller byte at the first difference comes first |
| HashBuf.HashBuf.ToString | src/core/crypthelper.cpp:74-86 | the hex text of the bytes |
| HashBuf.HashBuf.ParsePair | src/core/crypthelper.cpp:92-107 | two digits give the next byte, or end the parsing |
| HashBuf.HashBuf.ParseBytes | src/core/crypthelper.cpp:92-107 | the loop writes the bytes of the hex pairs up to the first bad one |
| HashBuf.HashBuf.FromString | src/core/crypthelper.cpp:88-110 | success and contents, and what a failure has overwritten |
| HashBuf.HashBuf.IsZero | src/core/crypthelper.cpp:112-118 | all bytes zero |
| HashBuf.HashBuf.Equals | src/core/crypthelper.cpp:120-133 | the loop without early exit finds equality |
| Cipher.PaddingIsLeastMultiple | src/core/crypthelper.h:45-47 | the padded size is the least sufficient multiple of 16, within 32 bits |
| Cipher.UpToNul | src/core/crypthelper.cpp:488-493 | the longest beginning without a zero byte |
| Cipher.PaddingVanishes | src/core/crypthelper.cpp:488-493 | cutting at the first zero removes any zero padding |
| Cipher.NulFreeIsWhole | src/core/crypthelper.cpp:488-493 | and nothing else if and only if there is no zero byte |
| Cipher.BytesToKey | src/core/crypthelper.cpp:320-344 | key and initial vector are the first 32 of the 40 derived bytes |
| Cipher.KeyAndVector | src/core/crypthelper.cpp:320-344 | the key is the first 16 bytes of the key data hashed twice; the vector the other 4 and the first 12 of that and the key data, hashed twice |
| Cipher.AES128Encrypt | src/core/crypthelper.cpp:346-424 | the padded text, encrypted, or refused |
| Cipher.AES128Decrypt | src/core/crypthelper.cpp:426-497 | the text up to its padding |
| Cipher.EncryptionSucceedsIff | src/core/crypthelper.cpp:346-366 | exactly when encryption succeeds |
| Cipher.EncryptionRoundTrip | src/core/crypthelper.cpp:346-497 | decrypting gives the text up to its first zero byte, so the text itself if and only if it has none |

## Left out

- Sockets, TLS, asio scheduling, protobuf encoding, curl, Qt, MySQL and SQLite execution: outcomes of these are parameters or events; parsing a payload is a function from bytes to an outcome.
- The SSL variants of sending and receiving: the same code on another stream.
- The GUI, the log and the lobby lists of the client: output only. The client model keeps state, subscription, players, seats, game ids and hand number.
- Betting rounds and hand evaluation: not modelled; the pot distribution takes the hands' values and the bets as given.
- Cash, cards and bets of the client's game during a hand: set from packets as they come, without a rule of their own.
- The server's side of the game (`ServerGame` and its states): not part of this model.
- `CleanerServer::onRead`: its receive count survives a connection, so there is no decoding of one connection to state.
- `ConfigFile` and `CleanerConfig`: mostly XML library calls.
- `Thread::Join`: only the semaphore posts the worker needs.
- The checks for bad words, capitals, letters and URLs: text matching; whether they hit is an input of the filter.
- Hand-number override on rejoin: the schedules are those of a game played from its first hand.
- Changes of limits in the middle of a run: the moderation theorems are for fixed limits.
- Exceptions of handlers that have already had an effect, other than those the source throws itself: a failing library call is taken to fail before the effect.
- AES, SHA-1 and MD5: the cipher is any function that keeps the length of whole blocks and can be undone; library failures of the cipher are not modelled.
- `std::list::sort`, `std::sort`, `memcpy`, `memcmp` and `memmove` are taken as what they are specified to do.
- Composite.CompositeAsyncDBQuery.ProcessParts: starts from a fresh query; the constructor's exception for an empty list is a precondition, and the worker's removal of game ids is not part of it, because a composite query never counts as a game query. The program builds none.
- Blinds.BlindSchedule.RaiseBlinds: requires the sums of hand numbers and of minutes to fit their types, since an overflow there is undefined in the source.
- Game.Game.InitHand: requires that the sum of the last raise's hand number and the interval fits an int, since an overflow there is undefined in the source.
- LocalBoard.LocalBoard.DistributePot: requires that the bets of all players together fit an int, and that active players have ids of their own; beyond 32 bits the source's level sums wrap around, which start money within the packet validator's limit of 1000000 a player does not reach at a table of less than 2147 seats.
- LocalBoard.LocalBoard.DistributeLevels: the same requirement.
- LocalBoard.LocalBoard.Level: the same requirement.
- DbThread.ServerDBThread.ExecuteQuery: the texts of the statements are those of `SqlText`, and what becomes of them is one outcome; whether a query expects a result set decides no more than which handler runs.
- DbThread.ServerDBThread.HandleQuery: the same.
- ClientThread.ClientThread.StartHand: the seat states, the own cards and the blinds of the hand are not kept; only whether the cards fit and every state has a seat.
- ClientThread.ClientThread.WaitHandHandlePacket: cash, cards and the replaced dealer are not kept.
- ClientThread.ClientThread.PlayersHandlePacket: sets, cash and board are not kept; only which messages throw.
- ClientThread.ClientThread.RunHandHandlePacket: cash, cards, bets and pot are not kept; only which messages throw and which end the hand.
- Cipher.AES128Encrypt: a cipher library that fails half-way is not modelled.
- Cipher.AES128Decrypt: a cipher library that fails half-way is not modelled.
