# Scorbit SDK: verified protocols, codecs and containers

The Scorbit SDK reports the state of pinball games to a cloud service. This
project models the parts of it that are hard to get right and proves, for every
input, every run or every reachable state, what they promise.

| module | what it models |
|---|---|
| `ModeList`, `GameSession`, `GameRuns` | the game state object and its list of modes: starting, changing, committing and finishing games, and the flagged snapshots it hands to the network layer |
| `ModeExpiry` | temporary modes: deadlines, the one timer slot, ticks posted to the API thread |
| `EventDelivery` | the priority queue of events, the pushing threads and the strand that delivers |
| `NetSessions`, `SessionUpdate` | session records, sequence numbers, debounced and retried session updates |
| `Requests` | request tasks, the token loop, and re-authentication by many tasks at once |
| `RealtimeClient` | the supervisor of the realtime client: active and retired clients, restarts, the reconnect timer |
| `LruCache` | the least-recently-used cache with its list nodes and its table |
| `Crc16`, `CableFrame`, `Discovery` | the checksum, the cable frames and the discovery payload of the NFC library |
| `ModeText`, `HistoryCsv` | the printers of mode lists and of the game history |
| `BinaryUpdate` | the replacement of the library file under failures |

Code that updates objects or buffers in place is written as classes and methods
proved against functions on values; the theorems are about those functions.
Concurrent code is a state machine: a lambda or a lock section is one step, the
order of steps is free, and so are server replies, lost connections, clocks
(which do not run backwards) and file failures. A run is any sequence of steps;
a step that is not enabled is skipped.

## Promises that the code does not keep

Each is shown by a concrete run or input, together with the exact condition
under which the promise does hold.

- Session sequence numbers can repeat. Publishing reads the session record in
  one lock section and draws the number in another; between them the record can
  be erased and made again by a late submission. The numbers are 1, 2, 3, …
  if and only if no number was drawn from such a record
  (`NetSessions.NumbersCountUp`, `NetSessions.ANumberCanRepeat`).
- A request to upload the history logs can be lost: an update that waits for the
  session uuid sits in the one timer slot, and an update without logs takes the
  slot (`SessionUpdate.DropIsTheOnlyLoss`, `SessionUpdate.LogsCanBeLost`).
- A re-authentication can be forgotten when the token refresh timer expires just
  then: the thread takes itself for a refresh and leaves the status at "not
  authenticated" (`Requests.MistakeIsTheOnlyLoss`,
  `Requests.ReauthenticationCanBeForgotten`).
- A client that must be replaced after a lost connection is destroyed without the
  grace period; every other client has it (`RealtimeClient.ClientsOutliveTheirGrace`,
  `RealtimeClient.ClientDestroyedWithoutGrace`). Clients are told apart by their
  addresses, and a late handler can destroy another client that was given the
  address of the one it was armed for (`RealtimeClient.LateHandlerExactly`,
  `RealtimeClient.AnotherClientCanBeReplaced`).
- A cable reply can be accepted without its data when the line stalls in the data
  and a check word for the bare header follows
  (`CableFrame.EmptyReplyCanBeAccepted`).
- A replaced library can leave a backup behind, or be the old library again
  (`BinaryUpdate.SuccessIsCleanExactly` and the two lemmas after it).
- Mode names with `"` garble the CSV file, names that need an escape garble the
  JSON array, and names with `;` garble the mode column
  (`HistoryCsv.FileRoundTrip`, `ModeText.JsonRoundTrip`, `ModeText.StrRoundTrip`,
  with the inputs of `HistoryCsv.QuotationMarkSpoilsTheFile`,
  `ModeText.OneNameCanReadAsTwo` and `ModeText.SemicolonSplitsAName`).

Where a comment and the code disagree, the model follows the code: a temporary
mode lasts 3 seconds by default and 10 at most (source/modes.cpp:28-41), while
source/game_state_impl.h:57 speaks of 2 and 5.

## Model

| member | source | states |
|---|---|---|
| `ModeList.NormalizeSeconds` | source/modes.cpp:32-41 | a duration is always within 1 to 10 seconds, unchanged inside that range, 3 for 0 |
| `ModeList.ModeKeeper.AddMode` | source/modes.cpp:50-60 | a mode is appended only if absent; deadlines do not change |
| `ModeList.ModeKeeper.AddOrPromoteToFront` | source/modes.cpp:62-66 | the mode ends up first, the others keep their order, deadlines do not change |
| `ModeList.ModeKeeper.RemoveMode` | source/modes.cpp:68-77 | the mode and its deadline go, the rest keeps its order |
| `ModeList.ModeKeeper.Clear` | source/modes.cpp:79-83 | no mode and no deadline is left |
| `ModeList.ModeKeeper.AddModeExpiring` | source/modes.cpp:85-92 | the mode is first and its deadline is now plus its normalised duration |
| `ModeList.ModeKeeper.TickExpiries` | source/modes.cpp:94-108 | the loop leaves exactly the order-preserving filter of the modes that are not due, with their deadlines |
| `ModeList.ModeKeeper.NextExpiryDelay` | source/modes.cpp:110-124 | the time to the earliest deadline, not negative, and nothing exactly when there is no deadline |
| `ModeList.ModeKeeper.HasExpiryDeadlines` | source/modes.cpp:126-129 | true exactly if some mode has a deadline |
| `ModeList.ModeKeeper.ClearExpiries` | source/modes.cpp:131-134 | no deadline is left, the modes stay |
| `ModeList.TickedWellFormed` | source/modes.cpp:94-108 | a tick keeps the names pairwise distinct and the deadlines among them |
| `ModeList.TickRemoves` | source/modes.cpp:94-108 | a tick at or after the earliest deadline makes the list shorter |
| `GameSession.GameStateImpl.SetGameStarted` | source/game_state_impl.cpp:61-64 | starting without a player count is starting with one player |
| `GameSession.GameStateImpl.StartGame` | source/game_state_impl.cpp:402-438 | it starts exactly if no game is active and authentication has not failed: the next session id, fresh players 1 to the count (always player 1), player 1 up, ball 1, a default previous snapshot and the create call |
| `GameSession.GameStateImpl.SetGameFinished` | source/game_state_impl.cpp:66-81 | the whole state after a finish: final snapshot submitted unless authentication failed, then no game and no timer |
| `GameSession.GameStateImpl.SetCurrentBall` | source/game_state_impl.cpp:83-95 | only a valid ball of an active game is taken over |
| `GameSession.GameStateImpl.SetActivePlayer` | source/game_state_impl.cpp:97-113 | only a valid player of an active game; a missing player is added |
| `GameSession.GameStateImpl.SetScore` | source/game_state_impl.cpp:115-131 | only a valid player of an active game; a missing player is added; no other player changes |
| `GameSession.GameStateImpl.AddMode` | source/game_state_impl.cpp:133-140 | in an active game the mode is added, nothing else changes |
| `GameSession.GameStateImpl.AddModeExpiring` | source/game_state_impl.cpp:147-155 | the mode with its deadline, and the slot re-armed for the earliest deadline |
| `GameSession.GameStateImpl.TickModeExpiries` | source/game_state_impl.cpp:157-166 | due modes are gone and the slot is re-armed or cleared |
| `GameSession.GameStateImpl.RescheduleModeExpiryTimer` | source/game_state_impl.cpp:168-185 | armed for now plus the delay of the earliest deadline, cleared without deadlines |
| `GameSession.GameStateImpl.ClearModeExpirySchedule` | source/game_state_impl.cpp:187-191 | the deadlines and the slot are cleared, the modes stay |
| `GameSession.GameStateImpl.RemoveMode` | source/game_state_impl.cpp:193-204 | the mode goes; the slot is re-armed only if there was a deadline |
| `GameSession.GameStateImpl.ClearModes` | source/game_state_impl.cpp:206-214 | modes, deadlines and slot are cleared |
| `GameSession.GameStateImpl.Commit` | source/game_state_impl.cpp:216-221 | an active game is submitted if it changed |
| `GameSession.GameStateImpl.AddNewPlayer` | source/game_state_impl.cpp:302-311 | the player is there afterwards with score 0 if new; the others are unchanged |
| `GameSession.GameStateImpl.SubmitGameData` | source/game_state_impl.cpp:313-385 | the one or two snapshots with their flags, and the previous snapshot replaced |
| `GameRuns.RunInvariant` | source/game_state_impl.cpp:61-438 | in every run: an active game is valid and has the newest id; an inactive previous snapshot of an active game is the default one; otherwise the previous snapshot is the last call made |
| `GameRuns.ActiveGameIsValid` | source/game_state_impl.cpp:83-131 | while a game is active, ball and active player lie in 1 to 9, keys match the players' numbers, player 1 and the active player are present, and no player of the previous snapshot is missing |
| `GameRuns.FlagsAreExact` | source/game_state_impl.cpp:313-385 | in every run each performed submission has a second, earlier snapshot exactly if the previous player's score still changed, with that player and ball; exactly one upload flag if it is not the first of its game and the player or ball changed or the game ended, none otherwise; PlayersAdd exactly if the sets of players differ |
| `GameRuns.TraceShape` | source/game_state_impl.cpp:313-438 | for every id the calls are one creation, active snapshots while its game is on, and then one or two inactive ones (none if authentication had failed at the finish), even with late callbacks |
| `GameRuns.SilentAfterTheGame` | source/game_state_impl.cpp:66-81 | once the game of a session is over, however it ended, no later call of any run carries its id |
| `GameRuns.SessionIdsCountUp` | source/game_state_impl.cpp:402-438 | the sessions created in any run are 1, 2, 3, … in this order |
| `GameRuns.CommitBringsObserverUpToDate` | source/game_state_impl.cpp:216-221 | after a commit the last snapshot sent has the id, activity, ball, active player, players and mode names of the game, and a commit makes no call exactly when it already had all of them |
| `GameRuns.ObserverKnowsPrevious` | source/game_data.h:43-48 | in an active game the last snapshot sent agrees with the game in all those fields exactly if the game equals the previous snapshot |
| `GameRuns.CallbackAlwaysReports` | source/game_state_impl.cpp:435-435 | the session-created callback submits the current state even if nothing changed |
| `GameRuns.SilentWithoutAuthentication` | source/game_state_impl.cpp:313-319 | once authentication has failed no step makes a call or starts a session |
| `GameRuns.ScoreIsSeen` | source/game_state_impl.cpp:115-131 | a score set and committed is the one an observer sees, and nothing else changed |
| `GameRuns.ActivePlayerIsSeen` | source/game_state_impl.cpp:97-113 | the same for the active player, who is added with score 0 if new |
| `GameRuns.BallIsSeen` | source/game_state_impl.cpp:83-95 | the same for the ball |
| `GameRuns.AddedModeIsSeen` | source/game_state_impl.cpp:133-140 | the same for a mode: last, unless it was listed already |
| `GameRuns.TemporaryModeIsSeen` | source/game_state_impl.cpp:147-155 | the same for a temporary mode: first |
| `GameRuns.RemovedModeIsSeen` | source/game_state_impl.cpp:193-204 | the same for a removed mode |
| `GameRuns.ClearedModesAreSeen` | source/game_state_impl.cpp:206-214 | the same for cleared modes |
| `GameRuns.DeadlineIsSet` | source/modes.cpp:85-92 | a temporary mode lasts the seconds given, 3 for 0, 10 at most |
| `GameRuns.OutOfRangeIsIgnored` | source/game_state_impl.cpp:83-131 | players and balls outside 1 to 9, and setters without a game, change nothing |
| `GameRuns.StartMakesAGame` | source/game_state_impl.cpp:402-438 | a start makes exactly one game with the next id, player 1 without a score and ball 1, or nothing if a game is on or authentication has failed |
| `GameRuns.FinishReportsTheGame` | source/game_state_impl.cpp:66-81 | a finish reports the game as it was, only inactive, and leaves no game, mode or timer |
| `ModeExpiry.NoExpiryIsForgotten` | source/game_state_impl.cpp:147-214 | with deadlines outstanding and the API accepting, the slot is armed for max(arm time, earliest deadline) or a tick is on its way; it is armed only then |
| `ModeExpiry.OverdueMeansEnabled` | source/net.cpp:1028-1038 | once a deadline has passed, the timer can expire or a tick is already on its way |
| `ModeExpiry.OverdueIsRemoved` | source/game_state_c.cpp:342-377 | from any such state, expiring, posting and ticking, as far as each is possible, leave no deadline that has passed |
| `ModeExpiry.NoTickAfterShutdown` | source/game_state_c.cpp:346-351 | after the shutdown no further tick is posted |
| `ModeExpiry.DeadlinesStayBounded` | source/modes.cpp:85-124 | every deadline belongs to a listed mode and lies 1 to 10 seconds after its last add |
| `ModeExpiry.TickLeavesTheRest` | source/modes.cpp:94-108 | a tick job leaves exactly the modes not due, in order and with their deadlines, and changes nothing else of the game but the timer slot |
| `ModeExpiry.FiredTickRemovesMode` | source/game_state_c.cpp:342-377 | the tick posted by an expired timer removes a mode if nothing but time came between |
| `EventDelivery.EventQueue.IsEmpty` | source/event_queue.h:44-48 | true exactly if nothing waits |
| `EventDelivery.EventQueue.Enqueue` | source/event_queue.h:50-58 | the event is added, a null event is ignored |
| `EventDelivery.EventQueue.Dequeue` | source/event_queue.h:60-70 | one event is taken out that no other precedes, by higher priority or, in the same priority, by a smaller order number; none exactly if none waits |
| `EventDelivery.EventManager.Stop` | source/event_manager.h:43-43 | the stop flag is set |
| `EventDelivery.EventManager.ProcessEvents` | source/event_manager.h:65-78 | the drain loop delivers all that waits, highest rank first, or nothing after a stop |
| `EventDelivery.NoLostWakeUp` | source/event_manager.h:45-63 | under every interleaving, a waiting event of a running manager has a posted task, a pusher about to post or a drain loop at work |
| `EventDelivery.NothingLostNothingLate` | source/event_manager.h:45-78 | pushed events are the taken plus the waiting ones, and at most one callback starts after a stop |
| `EventDelivery.QuietAfterStop` | source/event_manager.h:43-78 | after a stop, once the pushers that had found the manager running are through nothing is enqueued, and once the loop is back at its head nothing is delivered, ever again |
| `EventDelivery.DeliveredOutranksWaiting` | source/event_classes.h:54-76 | everything that waits when an event is taken has a smaller priority, or the same one and a larger order number |
| `EventDelivery.FifoPerPriority` | source/event_classes.h:54-76 | events of one priority enqueued in creation order are taken in exactly that order |
| `NetSessions.NumbersCountUp` | source/net.cpp:1742-1790 | in every run the numbers of a session are 1, 2, 3, … if and only if none was drawn from a record erased and made again in between |
| `NetSessions.NoLateSubmitNoRepeat` | source/net.cpp:406-430 | without a submission after the erasure of its session the numbers count up |
| `NetSessions.PublishedOnlyAfterCreation` | source/net.cpp:1364-1440 | every publication comes after the session's create request number 1, and that request has been answered |
| `NetSessions.PublishedOnlyAfterUuid` | source/net.cpp:1742-1790 | in every run, whatever is published, or on its way to be, belongs to a session whose uuid an earlier successful create reply has set in its record |
| `NetSessions.CreateNeverMissesItsSession` | source/net.cpp:1364-1440 | the session is always there when its create request is built or answered |
| `NetSessions.CreationSucceeds` | source/net.cpp:392-404 | creating a session sends its request with number 1, and a successful reply sets the uuid |
| `NetSessions.PublishingExactly` | source/net.cpp:1742-1790 | publishing sends the next number exactly if the session has a uuid and the client is connected |
| `NetSessions.ErasedExactly` | source/net.cpp:1539-1558 | a reply to an update erases the record if and only if it is a success and the game was over when the session was last heard of |
| `NetSessions.PlayedSessionKeepsItsUuid` | source/net.cpp:1539-1558 | in every run in which its game does not end a session is never erased and keeps its uuid once set |
| `NetSessions.FinishedSessionIsErased` | source/net.cpp:1539-1558 | the next successful update of a finished session erases it |
| `NetSessions.ANumberCanRepeat` | source/net.cpp:1539-1558 | a run in which number 1 is sent twice |
| `SessionUpdate.UpdateIsNeverForgotten` | source/net.cpp:1675-1702 | from any flagged submission on, while no update was posted and nothing erased, the timer is armed or a thread is at work on it |
| `SessionUpdate.DebouncedAtMostOnce` | source/net.cpp:1675-1702 | no request is debounced twice |
| `SessionUpdate.PostedUpdateIsCurrent` | source/net.cpp:1463-1516 | every posted update of a run carries the player count of the newest snapshot recorded before it, with no erasure in between, and so covers every snapshot so far |
| `SessionUpdate.JoiningPlayerIsDebounced` | source/net.cpp:1675-1702 | a joining player posts nothing at first but arms the timer |
| `SessionUpdate.ExpiredTimerPosts` | source/net.cpp:1463-1516 | an expired timer posts the update of a session with a uuid, with the logs if asked for |
| `SessionUpdate.CreateReplyReleasesTheUpdate` | source/net.cpp:1463-1516 | an update that waited for the uuid is posted once the create reply has come |
| `SessionUpdate.LogsArePostedAtOnce` | source/net.cpp:1675-1702 | a request for the logs of a session with a uuid is posted without delay |
| `SessionUpdate.DropIsTheOnlyLoss` | source/worker.cpp:156-194 | a step loses the request for the logs if and only if it takes the slot from the only request that asks for them |
| `SessionUpdate.LogsAreKept` | source/net.cpp:1463-1516 | in every run without such a step the request for the logs is kept until it is served |
| `SessionUpdate.FirstDropLosesLogs` | source/net.cpp:1675-1702 | the first such step of a run does lose it |
| `SessionUpdate.LogsCanBeLost` | source/net.cpp:406-430 | a run in which a joining player makes the upload forgotten |
| `Requests.RunRequest` | source/net.cpp:2200-2283 | at most three requests, each under an allowed status, repeated only after a network error or a 401; success exactly if the last one sent got 2xx; the other errors and the number of re-authentications exactly |
| `Requests.Authenticate` | source/net.cpp:1169-1328 | the token loop makes exactly the requests of its recursive description |
| `Requests.TokenLoopEnds` | source/net.cpp:1169-1328 | the loop ends authenticated exactly on a readable token, gives up exactly on an answer it neither accepts nor retries, and retries network errors always and 400 and reprovisioned 404 in the first ten rounds |
| `Requests.TokenRequestsBounded` | source/net.cpp:1169-1328 | a run with N network errors makes at most N + 11 token requests |
| `Requests.TokenBoundIsReached` | source/net.cpp:1169-1328 | for every N there are replies that make it exactly N + 11 |
| `Requests.OneAuthenticationAtATime` | source/net.cpp:1169-1328 | however many tasks see a 401, at most one thread is inside normal authentication |
| `Requests.EveryAuthenticationWasAskedFor` | source/net.cpp:1169-1186 | in every run there is at most one normal authentication more than there were elections |
| `Requests.ElectionExactly` | source/net.cpp:2262-2273 | a task that saw a 401 is elected exactly if the client was authenticated, and otherwise changes nothing |
| `Requests.ElectedAuthenticates` | source/net.cpp:1736-1740 | an elected task stops the refresh and, undisturbed, enters normal authentication |
| `Requests.AuthenticationEnds` | source/net.cpp:1222-1326 | status, lock, timer and flag after every kind of ending |
| `Requests.MistakeIsTheOnlyLoss` | source/net.cpp:1717-1740 | a step leaves an unauthenticated client unattended if and only if the last thread on its way reads the refresh flag as set |
| `Requests.NeverForgotten` | source/net.cpp:1169-1328 | in every run without such a step somebody is on the way to authenticate |
| `Requests.FirstMistakeForgets` | source/net.cpp:1169-1328 | the first such step leaves nobody |
| `Requests.ReauthenticationCanBeForgotten` | source/net.cpp:2200-2283 | a run that ends unauthenticated and unattended |
| `RealtimeClient.Supervisor.PruneRetiredClients` | source/net.cpp:2589-2596 | the loop leaves what is left after popping clients retired at least 30 seconds ago from the front; nothing else changes |
| `RealtimeClient.Supervisor.RetireClient` | source/net.cpp:2598-2607 | the active client moves to the end of the retired ones with the current time |
| `RealtimeClient.Supervisor.SetUpAndConnect` | source/net.cpp:2855-2860 | a fresh client is active, expired ones are gone |
| `RealtimeClient.Supervisor.Restart` | source/net.cpp:2862-2881 | at once if there is no client or it is disconnected, pending otherwise |
| `RealtimeClient.Supervisor.OnDisconnected` | source/net.cpp:2701-2740 | only the active client of a running supervisor matters; a pending restart retires it and arms the rebuild, certain codes arm its replacement |
| `RealtimeClient.AlwaysSupervised` | source/net.cpp:2701-2740 | in every run that has not stopped a client is active or its rebuild is armed or expired; a pending restart has an active client |
| `RealtimeClient.RestartTakesPlace` | source/net.cpp:2862-2881 | from every reachable state a requested restart of a connected client is pending, its disconnection retires it and arms the rebuild, and that makes a fresh client active |
| `RealtimeClient.RestartAtOnce` | source/net.cpp:2862-2881 | without a client or with a disconnected one a fresh client is active at once, the old one is retired and nothing is pending |
| `RealtimeClient.LostConnectionIsReplaced` | source/net.cpp:2701-2740 | the codes 3500 to 3502 lead to a fresh client, other codes to nothing |
| `RealtimeClient.ConnectionPrunes` | source/net.cpp:2658-2667 | a connection removes exactly the clients retired at least 30 seconds ago |
| `RealtimeClient.StoppedIsQuiet` | source/net.cpp:2658-2740 | after the stop callbacks and rebuilds change nothing |
| `RealtimeClient.PruneIsFilter` | source/net.cpp:2589-2596 | in every reachable state popping from the front removes exactly the clients retired at least 30 seconds ago |
| `RealtimeClient.AddressTellsLiveClients` | source/net.cpp:2584-2587 | in every reachable state comparing addresses tells exactly whether a client that is still there is the active one, so callbacks of retired clients change nothing |
| `RealtimeClient.GoneForGood` | source/net.cpp:2584-2587 | a client that is not active never is again; its callbacks change nothing unless it has been destroyed and the active client lives at its address |
| `RealtimeClient.LateHandlerExactly` | source/net.cpp:2701-2740 | a handler armed for a client that is not active destroys the active one if and only if that one lives at the address of the other, which has been destroyed |
| `RealtimeClient.AnotherClientCanBeReplaced` | source/net.cpp:2701-2740 | a run in which a late handler does so, though the connection of the client it destroys was never lost |
| `RealtimeClient.RetiredOutlivesItsGrace` | source/net.cpp:2589-2607 | whatever happens, a retired client is kept while less than 30 seconds have passed since |
| `RealtimeClient.ClientsOutliveTheirGrace` | source/net.cpp:2598-2607 | from every reachable state and for every run, an active client is still active, or some step retired it and it is kept while 30 seconds have not passed since that step, if and only if no handler replaced it while it was active |
| `RealtimeClient.ReplacementDestroys` | source/net.cpp:2701-2740 | a handler that replaces the active client destroys it at once |
| `RealtimeClient.ClientDestroyedWithoutGrace` | source/net.cpp:2701-2740 | a run of three steps in which that happens |
| `LruCache.Cache.constructor` | source/utils/lru_cache.hpp:32-35 | an empty cache of the given capacity |
| `LruCache.Cache.Has` | source/utils/lru_cache.hpp:37-40 | true exactly if the key is in the recency list |
| `LruCache.Cache.Get` | source/utils/lru_cache.hpp:42-52 | a key that is present gives its value and moves to the front; otherwise nothing changes |
| `LruCache.Cache.Put` | source/utils/lru_cache.hpp:54-72 | the key is at the front with the new value; a new key in a full cache pushes out exactly the last one |
| `LruCache.Cache.Erase` | source/utils/lru_cache.hpp:74-81 | the key goes from list and table; the rest keeps its order |
| `LruCache.ValidIsWellFormed` | source/utils/lru_cache.hpp:83-86 | in a valid object the listed keys are duplicate-free, are the keys of the table, and fit the capacity |
| `LruCache.RunWellFormed` | source/utils/lru_cache.hpp:37-81 | the same after every sequence of operations |
| `LruCache.PresentExactlyWhenKept` | source/utils/lru_cache.hpp:37-81 | after every sequence of operations a key is present if and only if it was touched, not erased since, and the newer keys still present never filled the capacity |
| `LruCache.SurvivesWhileFewAreTouched` | source/utils/lru_cache.hpp:37-81 | a key survives while fewer than capacity distinct other keys were touched since its last touch |
| `LruCache.WithoutEraseTheCountDecides` | source/utils/lru_cache.hpp:37-72 | without erasures that condition is exact |
| `LruCache.PresentValueIsTheLastPut` | source/utils/lru_cache.hpp:54-72 | a key that is present has the value it was last put with |
| `Crc16.Compute` | libs/nfc/include/nfc/Util.h:330-354 | the loops on machine words end with exactly the bits of the shift register fed with the message |
| `Crc16.ChecksumLinear` | libs/nfc/include/nfc/Util.h:330-354 | the checksum of the exclusive or of two messages is the exclusive or of their checksums |
| `Crc16.BurstDetected` | libs/nfc/include/nfc/Util.h:330-354 | messages that differ only within 16 consecutive bits have different checksums |
| `Crc16.AdjacentBytesDetected` | libs/nfc/include/nfc/Util.h:330-354 | messages of equal length that differ only within one or two adjacent bytes have different checksums |
| `Crc16.ChecksumIsReflected` | libs/nfc/include/nfc/Util.h:330-354 | the checksum is the bit reversal of the byte-at-a-time reflected one with polynomial 0xA001 |
| `Crc16.ChecksumOfOneBit` | libs/nfc/include/nfc/Util.h:346-348 | the message 0x80 has the checksum 0x8005 |
| `CableFrame.AddCrc` | libs/nfc/include/nfc/Cable.h:440-449 | the data followed by two bytes that, low byte first, complement its 16-bit sum to 0xFFFF |
| `CableFrame.ShortestReply` | libs/nfc/include/nfc/Cable.h:440-474 | the reply without data is 04 46 B5 FF and is accepted |
| `CableFrame.Line.WaitForReply` | libs/nfc/include/nfc/Cable.h:450-474 | the three staged reads accept exactly a header with the check word of header and data |
| `CableFrame.FrameIsAccepted` | libs/nfc/include/nfc/Cable.h:440-474 | a frame built from header, any data and its check word is accepted and gives exactly the data |
| `CableFrame.SingleByteDetected` | libs/nfc/include/nfc/Cable.h:450-474 | replacing any single byte of the frame makes it refused |
| `CableFrame.ReplacedDataDetected` | libs/nfc/include/nfc/Cable.h:450-474 | other data of the same length is accepted exactly if the sums agree modulo 65536 |
| `CableFrame.AcceptedReplyIsWhole` | libs/nfc/include/nfc/Cable.h:375-427 | under any stalls an accepted reply is exactly the bytes asked for after the header, or nothing if the line stalled in them |
| `CableFrame.EmptyReplyCanBeAccepted` | libs/nfc/include/nfc/Cable.h:450-474 | a stalled reply that is accepted without data |
| `Discovery.WriteLE64` | libs/nfc/include/nfc/Util.h:212-218 | eight bytes, least significant first, or nothing written if they do not fit |
| `Discovery.ReadUInt64LE` | libs/nfc/include/nfc/Util.h:191-196 | the value of eight bytes, least significant first, and 0 if they are not all there |
| `Discovery.ReadingBackNumbers` | libs/nfc/include/nfc/Util.h:178-218 | reading undoes writing n bytes exactly for the numbers that n bytes hold |
| `Discovery.LittleEndianByte` | libs/nfc/include/nfc/Util.h:198-218 | byte i written is the number divided by 256 to the power i, modulo 256 |
| `Discovery.AppendZ` | libs/nfc/include/nfc/Discovery.h:372-388 | the text up to its first NUL is appended with a terminator, cut off at the end of the buffer; what was written before stays |
| `Discovery.Encode` | libs/nfc/include/nfc/Discovery.h:370-398 | the payload of every device info, all writes within the 1024 bytes |
| `Discovery.PayloadLayout` | libs/nfc/include/nfc/Discovery.h:388-398 | the payload of a device info that fits, byte for byte |
| `Discovery.ReadNextZ` | libs/nfc/include/nfc/Discovery.h:250-268 | the position never leaves the payload, and a text read is what stands before the terminator just passed |
| `Discovery.RoundTrip` | libs/nfc/include/nfc/Discovery.h:250-278 | decoding the encoding gives each field exactly if and only if it and everything before it fits, or there is nothing to lose |
| `Discovery.NothingIsGarbled` | libs/nfc/include/nfc/Discovery.h:372-398 | otherwise each text is a prefix of its input and the serial is exact or 0 |
| `ModeText.StrRoundTrip` | source/modes.cpp:146-153 | splitting at semicolons gives the list back if and only if no name has one and the list is not one empty name |
| `ModeText.SemicolonSplitsAName` | source/modes.cpp:146-153 | a name that reads as two, and an empty name that reads as none |
| `ModeText.JsonRoundTrip` | source/modes.cpp:155-167 | a JSON reader (section 7 of RFC 8259) gives the list back if and only if no name needs an escape |
| `ModeText.OneNameCanReadAsTwo` | source/modes.cpp:155-167 | one name that reads as two |
| `HistoryCsv.WriteScores` | source/net_util.cpp:116-122 | six comma-terminated fields, empty for a missing player or a negative score |
| `HistoryCsv.WriteHeader` | source/net_util.cpp:103-108 | the ten column names in order |
| `HistoryCsv.GameHistoryToCsv` | source/net_util.cpp:98-134 | the header followed by one line for every snapshot |
| `HistoryCsv.FileRoundTrip` | source/net_util.cpp:98-134 | a reader of the quoting rules in section 2 of RFC 4180 finds the header and exactly the ten fields of every snapshot if and only if no mode has a quotation mark |
| `HistoryCsv.QuotationMarkSpoilsTheFile` | source/net_util.cpp:125-131 | a mode name with which the file cannot be read at all |
| `HistoryCsv.RowMeaning` | source/net_util.cpp:98-131 | looked up by the names of the columns, the fields give back time in seconds, player, ball and the non-negative scores of players 1 to 6, and the modes exactly under the condition of `StrRoundTrip` |
| `BinaryUpdate.Disk.ReplaceBinary` | source/updater.cpp:265-319 | the answer, the files and every state on the way, for every pattern of failures |
| `BinaryUpdate.SuccessIsCleanExactly` | source/updater.cpp:290-311 | a successful replacement has the new content in place and no backup if and only if the new file was not at the backup's path (or was the same), or there was no library and no other file at the backup's path |
| `BinaryUpdate.LeftoverBackupStays` | source/updater.cpp:307-311 | a success that leaves a backup |
| `BinaryUpdate.NewLibraryCanBeLost` | source/updater.cpp:292-298 | a success that installs the old library again |
| `BinaryUpdate.FailureKeepsTheOriginal` | source/updater.cpp:290-318 | a failed replacement has the original at the library path or its backup, also in every state on the way |
| `BinaryUpdate.RollbackRestores` | source/updater.cpp:296-306 | if only one thing goes wrong, one operation or a missing new file, the original is back at the library path |
| `BinaryUpdate.RecoverableThroughout` | source/updater.cpp:290-318 | in every state on the way the original is kept, except after the last step of a success, when the new library is in place |
| `BinaryUpdate.SucceedsWithoutFaults` | source/updater.cpp:290-318 | without failures it succeeds exactly if there is a file to install |
| `BinaryUpdate.OthersUntouched` | source/updater.cpp:290-318 | no file but the three is touched |
| `BinaryUpdate.AlwaysRecoverable` | source/updater.cpp:290-318 | over any sequence of attempts and failures there is never a moment without a whole library in place or in the backup |

## Left out

Simplifications of what is modelled:

- The callback that follows the creation of a session runs on another thread
  without a lock; it is one atomic step here. The counter that numbers events is
  not atomic in the source; here two events never get the same number.
- The job queue keeps the order of one producer only, so pending ticks are
  counted, not ordered; the dispatcher's poison shutdown is not modelled.
- NetSessions.NumbersCountUp: a number counts as sent once it is drawn. In the
  source the mode list is printed and parsed after that and the publication is
  then handed to the client; for names that need an escape the parser throws
  (source/net.cpp:1791), so the history records attempts.
- `SessionUpdate` is about one session and no shutdown: all sessions share one
  timer slot, and the code decides nothing about one session when another takes it.
- The address a new realtime client gets is any that no client still there has;
  which code comes with a lost connection and whether a client is disconnected
  are free.
- The end of an authentication writes status, timer and refresh flag in one step.
- The mode-expiry poster is set when the game state object is made.
- Session ids, sequence numbers, scores and clocks are unbounded integers.
- EventDelivery.EventQueue.Dequeue: the heap of the standard library is a list
  searched for an event of highest rank.
- LruCache.Cache.Put: asks for a capacity of at least 1; with capacity 0 the
  source takes the last element of an empty list, which has no defined meaning.
- Discovery.ReadNextZ: a text and the next position are returned as a pair
  instead of advancing a variable.
- CableFrame.Line.WaitForReply: a read that the line stalls in gives no bytes,
  as on POSIX; the Windows branch, which pads, is not modelled.
- BinaryUpdate.Disk.ReplaceBinary: the POSIX branch only; paths are plain names
  and each rename or removal is atomic.

What is not modelled at all:

- HTTP, TLS, websockets and JSON parsing of replies: foreign libraries; replies
  appear as free choices.
- Keys, signatures, the TPM, provisioning and token decoding: foreign
  cryptography.
- Serial ports, sockets, USB, firmware, archives, file system mounts and
  fingerprints: input and output only.
- Liveness across sessions or requests that share a timer slot.
- The public C, C++ and Python wrappers, event getters, setters of the
  configuration, leaderboards, logging and examples, byte arrays, flag classes
  and the serial number check: they would only add easy members.
