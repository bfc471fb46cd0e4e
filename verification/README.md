# Network service manager: model and proofs

A Dafny model of five parts of the set-top network service manager, with proofs about every
run or every input of each. The model is of the build with the bus, lost-and-found, the Wi-Fi HAL
and the netlink monitor enabled, with exceptions on, and without the camera variants.

- **Lost-and-found Wi-Fi.** `WifiStatus.dfy` is the HAL callback: a class that follows the switch
  statement, proved against a table, and theorems about all sequences of callbacks. `WifiEvents.dfy`
  reads the table from the other side: what each event tells about its cause.
  `LnfProtocol.dfy` is the protocol around it as a step system with program counters: any
  number of worker threads of both kinds, callbacks, bus events, two mutexes and a condition
  variable. `LnfRuns.dfy` carries the callback theorems over to interleaved runs, and
  `LnfRaces.dfy` says exactly when an attempt starts although private Wi-Fi is up. `LnfHistory.dfy`,
  `LnfRounds.dfy` and `LnfFlags.dfy` say of every round, every test and every shared flag since which
  steps it holds.
- **Gateway routes.** `Routes.dfy`, `RoutePruning.dfy` and `RouteRounds.dfy` specify pruning, clearing
  and tracking and prove what holds after every discovery round of every run, and `RouteEffects.dfy`
  what a round shows to an observer. `RouteManager.dfy` is the code
  itself, with the list variable that doubles as a cursor. `RouteSignal.dfy` is the hand-over of
  discovery data to the route thread.
- **STUN.** `StunCodec.dfy` prints and parses messages of sections 11.1, 11.2 and 11.2.1 of RFC 3489
  byte by byte; `StunClient.dfy` is the retry loop, its budget and the result cache.
- **Manual IP settings.** `Netmask.dfy` is the bit trick, `IpSettings.dfy` the settings file and its
  reader, `IpText.dfy` the accepted addresses, `SettingsStore.dfy` the request handler.
- **Preferred interface.** `PniController.dfy` is the controller script over its two interfaces.

`dafny verify dfyconfig.toml` checks the whole project.

## What the proofs show about the code

Some expectations that the code or its comments suggest turn out not to hold as such. The code
is modelled as it is; each point names the lemmas that show the failing case or the exact
condition under which the expectation does hold.

- `delRouteList` does not delete the second of two or more routes from the kernel, although it
  forgets it (`RouteRounds.SecondRouteLeaks`).
- That no discovery list shares an address between gateways or between the two fields of one is not
  enough to keep tracked addresses distinct: an address may change from an IPv4 role to an IPv6 role
  between rounds (`RouteRounds.RolesCanSwap` gives two such discoveries, `RouteRounds.RolesMustNotSwap`
  a whole family). `RouteRounds.DistinctThroughoutIff` gives the exact condition for every run, and
  `RouteRounds.AlwaysDistinct` shows that it holds when addresses keep their role. That every tracked
  address belongs to a current gateway needs no such condition (`RouteRounds.AlwaysBelongs`).
- `decode_message` reads the transaction id with stride two, so a decoded response prints back to
  its bytes only in the cases of `StunCodec.ReprintsIffStrideInvisible`. The attributes are not
  affected.
- The bind timeout is given in seconds and charged 2000 per attempt, so every timeout from 1 to 2000
  means one attempt. A response to an attempt that overruns the budget is thrown away
  (`StunClient.LastAnswerIsLostIff`).
- After a failed exchange under new parameters the older answer is returned for them by the next call
  (`StunClient.StaleAnswerAfterFailure`).
- A manual settings request without a secondary DNS server is never recognised as unchanged, because
  the empty field reads back as the text of a null pointer (`SettingsStore.RepeatIsIdleIffSecondaryDns`).
- The check made under the trigger lock can be overtaken before the attempt starts, by a private
  connect or by another thread that concludes from the connection that private Wi-Fi is up.
  `LnfRaces.StartsUnderPrivateIff` is the exact condition and `LnfRaces.AnAttemptStartsUnderPrivate`
  a run.
- A sleeping route thread misses an update exactly if signalling failed while it slept
  (`RouteSignal.NothingIsMissed`).
- `checkExistingRouteValid` deletes by address, so with two routes to one address it can delete the fresh
  one and keep the stale one (`RoutePruning.FreshRouteGoes`). `RoutePruning.PruneIsTheFilterIff` is the
  exact condition.
- Among callbacks alone, the last event tells subscribers the adapter status unless it is an unknown
  error (`WifiStatus.SubscribersKnowTheStatus`, `WifiStatus.UnknownErrorsHideTheStatus`). Beside connect
  requests it does not: `connect_withSSID` sets the status and announces it in two statements, and a
  callback between them leaves the box connected with connecting as the last event
  (`LnfRaces.OvertakenRequestsHideTheStatus`; also `LnfRaces.SilentRequestsHideTheStatus` and
  `LnfRaces.FailureEventsHideTheStatus`). `LnfRuns.SubscribersKnowTheStatusInRuns` is the exact condition
  for events that a callback announced, and `LnfRuns.AnnouncementsOnlyReport` says what the others tell.

## Model

| member | source | states |
|---|---|---|
| `WifiStatus.StatusMonitor.StatusAction` | src/services/wifi/src/wifiHalUtiles.cpp:1168-1613 | one callback, case by case, has exactly the effect of the table `Act` on all fields, events and refreshes, and asks for lost-and-found exactly for the four codes that do, unless debounced |
| `WifiStatus.StatusMonitor.Otherwise` | src/services/wifi/src/wifiHalUtiles.cpp:1383-1600 | every code but success: status, events and lost-connection flag follow the table, and nothing happens when the guarded code repeats |
| `WifiStatus.StatusMonitor.Connect` | src/services/wifi/src/wifiHalUtiles.cpp:1195-1354 | a successful connect updates all flags, switches and refreshes as the table says |
| `WifiStatus.StatusMonitor.ConnectPrivate` | src/services/wifi/src/wifiHalUtiles.cpp:1201-1307 | a private connect lowers the stop flag, and refreshes for a changed SSID, then for a switch from lost-and-found |
| `WifiStatus.StatusMonitor.ConnectLnf` | src/services/wifi/src/wifiHalUtiles.cpp:1331-1343 | a lost-and-found connect arms the switch to private and leaves refreshes alone |
| `WifiStatus.StatusMonitor.LosePrivate` | src/services/wifi/src/wifiHalUtiles.cpp:1415-1419 | the connection is marked lost exactly when lost-and-found is configured |
| `WifiStatus.StatusMonitor.constructor` | src/services/wifi/src/wifiHalUtiles.cpp:65-90 | static initialisation: the boot state |
| `WifiStatus.PrevCodeIsLastCode` | src/services/wifi/src/wifiHalUtiles.cpp:1602-1602 | after every run the remembered code is that of the last callback |
| `WifiStatus.RepeatsAreInvisible` | src/services/wifi/src/wifiHalUtiles.cpp:1394-1611 | deleting all repeated guarded callbacks at once from any run leaves the same state, events and refreshes |
| `WifiStatus.SwitchStep` | src/services/wifi/src/wifiHalUtiles.cpp:1282-1343 | one callback keeps the flags agreed and logs reason 21 exactly when it completes a switch |
| `WifiStatus.SwitchesAreCounted` | src/services/wifi/src/wifiHalUtiles.cpp:1172-1343 | over every run, refreshes with reason 21 equal the private connects that directly follow a lost-and-found connect, and the three flags agree on the last connect |
| `WifiStatus.CallbackTellsStatus` | src/services/wifi/src/wifiHalUtiles.cpp:1192-1611 | one callback: a new last event other than an unknown error fixes the status, and no event leaves it alone |
| `WifiStatus.SubscribersKnowTheStatus` | src/services/wifi/src/wifiHalUtiles.cpp:1192-1611 | after every run the adapter status is a fixed function of the last event, unless that is an unknown error |
| `WifiStatus.UnknownErrorsHideTheStatus` | src/services/wifi/src/wifiHalUtiles.cpp:1424-1437 | two runs with the same events, ending in an unknown error, with different statuses |
| `WifiStatus.TimeoutLooksUnknown` | src/services/wifi/src/wifiHalUtiles.cpp:1585-1599 | from any connected state a timeout and an unknown error announce the same and only the timeout disconnects |
| `WifiEvents.EventsNameTheCause` | src/services/wifi/src/wifiHalUtiles.cpp:1192-1611 | the last event of a callback is a given error or state if and only if the callback is one of its causes and not a repeat; it announces nothing exactly if it is a repeat or a disconnect in progress |
| `WifiEvents.SsidChangeIsAnnouncedFirst` | src/services/wifi/src/wifiHalUtiles.cpp:1469-1481 | the event for changed networks is logged exactly before the error that says so, and no other callback logs two events |
| `WifiEvents.RepeatsAreIdle` | src/services/wifi/src/wifiHalUtiles.cpp:1394-1602 | a repeat, for every code but the four that always act, changes nothing |
| `WifiEvents.StatusAfterCallback` | src/services/wifi/src/wifiHalUtiles.cpp:1192-1611 | the status after any callback is what its last event says, except for unknown errors |
| `WifiEvents.AskedIffLoss` | src/services/wifi/src/wifiHalUtiles.cpp:1413-1420 | with lost-and-found configured, a callback asks for it if and only if the last event it adds is one of the four losses |
| `WifiEvents.LostIffAnnounced` | src/services/wifi/src/wifiHalUtiles.cpp:1415-1419 | over every run of callbacks the connection counts as lost if and only if one of these losses was announced |
| `WifiEvents.RefreshesOfCallback` | src/services/wifi/src/wifiHalUtiles.cpp:1205-1307 | only a private connect refreshes: reason 20 for a changed network, then 21 for the switch from a lost-and-found one |
| `WifiEvents.MovesAreCounted` | src/services/wifi/src/wifiHalUtiles.cpp:1205-1292 | over every run, refreshes with reason 20 are the private connects to another network than the one last saved |
| `WifiEvents.StopAfterCallback` | src/services/wifi/src/wifiHalUtiles.cpp:1287-1291 | a callback lowers the stop flag exactly if it is a private connect |
| `WifiEvents.LnfAfterCallback` | src/services/wifi/src/wifiHalUtiles.cpp:1282-1342 | the lost-and-found status changes exactly at a successful connect, to the kind of the network |
| `LnfProtocol.StepsAreFramed` | src/services/wifi/src/wifiHalUtiles.cpp:2721-2962 | every step of every interleaving moves only its own thread, apart from waking a sleeper, and only a thread step touches a lock |
| `LnfProtocol.LocksKept` | src/services/wifi/src/wifiHalUtiles.cpp:2732-2809 | every step keeps each lock held by exactly the thread whose program counter is inside it |
| `LnfProtocol.LocksAlwaysOk` | src/services/wifi/src/wifiHalUtiles.cpp:2732-2918 | that invariant at every point of every run |
| `LnfProtocol.OneAttemptAtATime` | src/services/wifi/src/wifiHalUtiles.cpp:2795-2918 | for any number of threads at most one attempt is in progress |
| `LnfProtocol.AcquisitionsAreReleased` | src/services/wifi/src/wifiHalUtiles.cpp:2795-2809 | on every path each acquisition of the trigger lock is released exactly once |
| `LnfProtocol.AttemptsAreChecked` | src/services/wifi/src/wifiHalUtiles.cpp:2906-2918 | behind every started attempt is a check under the lock that did not see private Wi-Fi up, and the lock was held ever since |
| `LnfProtocol.ClearedByCheck` | src/services/wifi/src/wifiHalUtiles.cpp:2797-2807 | the only way to the attempt is a check that did not see private Wi-Fi up |
| `LnfProtocol.StepsFrameWifi` | src/services/wifi/src/wifiHalUtiles.cpp:2535-2671 | only callbacks touch the connect flags, the debounce code and the refreshes; only callbacks and stop events touch the stop flag; no other step both announces and changes the status |
| `LnfProtocol.StatusWriters` | src/services/wifi/src/wifiHalUtiles.cpp:1630-1649 | outside callbacks only connect requests write the status, and they do so without announcing it in the same step |
| `LnfProtocol.StopStep` | src/services/wifi/src/wifiHalUtiles.cpp:2780-2785 | with the stop flag up, a thread step spends the allowance of one attempt and never earns it |
| `LnfProtocol.StopHolds` | src/services/wifi/src/wifiSrvMgr.cpp:1773-1789 | the stop flag stays up until a stop event or a private connect lowers it |
| `LnfProtocol.AtMostOneMoreAttempt` | src/services/wifi/src/wifiHalUtiles.cpp:2753-2953 | from any reachable state with the stop flag up, until it is lowered, each thread starts at most one more attempt, and none unless it had passed its stop test |
| `LnfProtocol.StartFlagStep` | src/services/wifi/src/wifiHalUtiles.cpp:2712-2739 | the start flag is raised by requests only and lowered only by a taking or by a drop at a loop top that sees private Wi-Fi up |
| `LnfProtocol.RequestsAreServed` | src/services/wifi/src/wifiHalUtiles.cpp:2712-2739 | every request is still pending, or was taken or dropped after it was made |
| `LnfProtocol.RoundsNeedRequests` | src/services/wifi/src/wifiHalUtiles.cpp:2731-2739 | rounds, drops and the pending request never outnumber the requests |
| `LnfProtocol.RequestWakes` | src/services/wifi/src/wifiHalUtiles.cpp:3163-3173 | after a request some consumer is awake, if there is any |
| `LnfProtocol.WakeUpStep` | src/services/wifi/src/wifiHalUtiles.cpp:2736-2739 | every step keeps: a pending request has an awake consumer |
| `LnfProtocol.NoLostWakeUp` | src/services/wifi/src/wifiHalUtiles.cpp:2712-2739 | that invariant at every point of every run, for any number of consumers |
| `LnfProtocol.LoneConsumerHearsEveryRequest` | src/services/wifi/src/wifiHalUtiles.cpp:2734-2739 | a lone consumer that sleeps and is not yet woken has no request pending |
| `LnfRuns.SwitchesAreCountedInRuns` | src/services/wifi/src/wifiHalUtiles.cpp:1278-1345 | the count of reason-21 refreshes and the agreement of the flags hold in every interleaved run |
| `LnfRuns.PrevCodeInRuns` | src/services/wifi/src/wifiHalUtiles.cpp:1602-1602 | in every interleaved run the remembered code is that of the last callback |
| `LnfRuns.RepeatsCanBeDeleted` | src/services/wifi/src/wifiHalUtiles.cpp:1394-1611 | in every interleaved run a repeated guarded callback changes nothing, and deleting it leaves a run with the same other states and the same logs |
| `LnfRuns.StatusSinceLastEvent` | src/services/wifi/src/wifiHalUtiles.cpp:1616-1657 | in every interleaved run, since the last event the status was changed by nothing but connect requests, which set it to connecting |
| `LnfRuns.SubscribersKnowTheStatusInRuns` | src/services/wifi/src/wifiHalUtiles.cpp:1192-1637 | in every interleaved run whose last event a callback announced, and which is not an unknown error: it fixes the status if and only if no connect request has set the status since, or it announces connecting |
| `LnfRuns.AnnouncementsOnlyReport` | src/services/wifi/src/wifiHalUtiles.cpp:1630-1649 | if a connect request announced the last event, the status is the one it found, or connecting if one was set since |
| `LnfRuns.SomeLastLog` | src/services/wifi/src/wifiHalUtiles.cpp:1603-1610 | every log that is not empty has a step that announced its last event |
| `LnfHistory.HoldsSince` | src/services/wifi/src/wifiHalUtiles.cpp:2721-2962 | a condition that every step raises, or keeps by not lowering it, holds exactly since it was raised |
| `LnfHistory.AlwaysProper` | src/services/wifi/src/wifiHalUtiles.cpp:2721-2962 | in every run a thread of one kind never stands at a point of the other |
| `LnfRounds.InRoundIff` | src/services/wifi/src/wifiHalUtiles.cpp:2736-2860 | in every run a requested thread is in a round if and only if it has taken a request and since seen neither the stop flag, nor private Wi-Fi, nor success, nor the end of a turn without a reason to try on |
| `LnfRounds.OnItsWayIff` | src/services/wifi/src/wifiHalUtiles.cpp:2780-2809 | in every run a thread is on its way to an attempt if and only if it has passed a stop test that it has not spent since |
| `LnfRounds.AtTheLockIff` | src/services/wifi/src/wifiHalUtiles.cpp:2787-2809 | in every run a requested thread is at the trigger lock or behind it if and only if it has found no private Wi-Fi and not spent that since |
| `LnfRounds.RetriesSawAutoSwitch` | src/services/wifi/src/wifiHalUtiles.cpp:2858-2859 | in every run a requested thread that starts a second attempt without a taking in between has seen, at the end of a failed turn, automatic switching on and private Wi-Fi not marked connected |
| `LnfRounds.FailedAttemptsAreRetried` | src/services/wifi/src/wifiHalUtiles.cpp:2810-2859 | in every run a requested thread whose attempt failed goes on to the next stop test without taking or waiting, as long as it does not see the stop flag and does see that reason |
| `LnfRounds.InTurnIff` | src/services/wifi/src/wifiHalUtiles.cpp:2871-2953 | in every run an activation thread is in a turn of its loop if and only if it found the device not activated and since met no reason to end the turn |
| `LnfRounds.ActivationEndsIff` | src/services/wifi/src/wifiHalUtiles.cpp:2871-2961 | an activation thread ends at exactly these steps, and asks for credentials after the loop exactly if it is on a lost-and-found network |
| `LnfRounds.TurnsAttempt` | src/services/wifi/src/wifiHalUtiles.cpp:2873-2941 | in a turn, a thread that is not connected heads for an attempt, and one that is connected or done settles |
| `LnfFlags.StoppedIff` | src/services/wifi/src/wifiSrvMgr.cpp:1773-1782 | in every run the stop flag is up if and only if a stop event raised it and neither a stop event nor a private connect lowered it since |
| `LnfFlags.LostIff` | src/services/wifi/src/wifiHalUtiles.cpp:2747-2752 | in every run the connection counts as lost if and only if a loss was announced or found at boot, and no round began and no activated thread left since |
| `LnfFlags.PendingIff` | src/services/wifi/src/wifiHalUtiles.cpp:3163-3173 | in every run a start is pending if and only if one of its causes occurred, discarded while the activation loop runs except at boot, and no round took it and no loop top dropped it since |
| `LnfFlags.SwitchingIff` | src/services/wifi/src/wifiSrvMgr.cpp:1757-1807 | in every run automatic switching and a pending explicit switch are exactly what the events since say |
| `LnfFlags.RequestChosen` | src/services/wifi/src/wifiHalUtiles.cpp:2763-2779 | the request of a thread is the one it chose last, in the order of the source |
| `LnfFlags.ActivatedIff` | src/services/wifi/src/wifiSrvMgr.cpp:1739-1764 | in every run of a box that starts out not activated, it is activated if and only if an event said so |
| `LnfFlags.LoopingIff` | src/services/wifi/src/wifiHalUtiles.cpp:2871-2954 | in every run requests are being discarded if and only if an activation thread entered its loop and none left it or ended since |
| `LnfFlags.OnLnfIff` | src/services/wifi/src/wifiHalUtiles.cpp:2704-2710 | in every run the status is connected to lost-and-found if and only if a connect or a successful attempt made it so and nothing changed it since |
| `LnfFlags.ThreadLnfStep` | src/services/wifi/src/wifiHalUtiles.cpp:2742-2944 | every value of the lost-and-found status after a thread step, by its cause |
| `LnfFlags.EventLnfStep` | src/services/wifi/src/wifiHalUtiles.cpp:2574-2648 | of all other events, only a successful connect and a running attempt change that status, and how |
| `LnfFlags.RequestAnnouncements` | src/services/wifi/src/wifiHalUtiles.cpp:1630-1650 | outside callbacks only connect requests announce anything, and what |
| `LnfFlags.SavedNetwork` | src/services/wifi/src/wifiHalUtiles.cpp:2820-2822 | outside callbacks the saved network changes only when it is read again |
| `LnfFlags.ArrivesIff` | src/services/wifi/src/wifiHalUtiles.cpp:2731-2780 | the loop top drops requests before it waits, and a round forgets the loss before it chooses: each point is reached exactly from the one before |
| `LnfFlags.ArrivesAfterAttemptIff` | src/services/wifi/src/wifiHalUtiles.cpp:2810-2859 | after a failed attempt the manual connect runs exactly if a network is found, and sets the status before it announces it |
| `LnfRaces.PrivateStep` | src/services/wifi/src/wifiHalUtiles.cpp:2721-2962 | every step of every kind: private Wi-Fi is up afterwards if and only if the step raises it, or it was up and the step does not lower it |
| `LnfRaces.OnlyOthersRaise` | src/services/wifi/src/wifiHalUtiles.cpp:2797-2807 | between a check and its start only a private connect or another thread can raise it, because a running attempt would hold the lock |
| `LnfRaces.StartsUnderPrivateIff` | src/services/wifi/src/wifiHalUtiles.cpp:2795-2918 | in every run an attempt starts with private Wi-Fi up if and only if, after the check that allowed it, a private connect came in or another thread concluded it is up, and nothing took that back |
| `LnfRaces.ChecksGoStale` | src/services/wifi/src/wifiHalUtiles.cpp:2797-2807 | any run about to start an attempt can go on with a private connect and start it all the same |
| `LnfRaces.AnAttemptStartsUnderPrivate` | src/services/wifi/src/wifiHalUtiles.cpp:2865-2918 | a run from the start of the workers in which that happens |
| `LnfRaces.SilentRequestsHideTheStatus` | src/services/wifi/src/wifiHalUtiles.cpp:1630-1635 | from any initial state, two runs with the same events, ending connected, one with a status that was set and not announced yet |
| `LnfRaces.OvertakenRequestsHideTheStatus` | src/services/wifi/src/wifiHalUtiles.cpp:1630-1635 | from any initial state, two runs with the same events, ending in connecting, of which one is connected because a private connect came between the status and its announcement |
| `LnfRaces.FailureEventsHideTheStatus` | src/services/wifi/src/wifiHalUtiles.cpp:1641-1649 | from any initial state, two runs with the same events, ending in a failed state, with different statuses |
| `Routes.RouteIndex` | src/services/route/src/routeSrvMgr.cpp:1122-1129 | the index is that of the first route with the address, or the length |
| `Routes.GatewayIndex` | src/services/route/src/routeSrvMgr.cpp:1130-1138 | the index is that of the first gateway with the address in either field, or the length |
| `Routes.ClearWalkDeletesTheTail` | src/services/route/src/routeSrvMgr.cpp:526-532 | from the second node on, removing and stepping deletes exactly the tail, in order |
| `Routes.AllButSecondIsAWalk` | src/services/route/src/routeSrvMgr.cpp:517-545 | the walk of delRouteList deletes the head and then, from the second node of the rest, its tail |
| `Routes.PruneDeletesTheStale` | src/services/route/src/routeSrvMgr.cpp:1032-1060 | for every list, one deletion per stale route, in order, and as many routes dropped |
| `Routes.PruneKeepsTheFresh` | src/services/route/src/routeSrvMgr.cpp:1032-1060 | what is left is the order-preserving filter of the routes that are not stale, if no fresh route stands before a stale route to its address |
| `Routes.FreshOnesAreFresh` | src/services/route/src/routeSrvMgr.cpp:1041-1054 | the filter keeps exactly the routes whose first matching gateway exists and, for IPv6, has the same prefix |
| `Routes.TrackStep` | src/services/route/src/routeSrvMgr.cpp:865-890 | tracking one route keeps addresses distinct exactly when it agrees on the prefix with the first mention |
| `Routes.DistinctIffNoClash` | src/services/route/src/routeSrvMgr.cpp:865-906 | tracking a list of routes keeps addresses distinct if and only if no IPv6 route disagrees on the prefix with the first earlier mention of its address |
| `RouteRounds.FailureForgetsEverything` | src/services/route/src/routeSrvMgr.cpp:262-274 | a failed or empty discovery leaves nothing tracked |
| `RouteRounds.SecondRouteLeaks` | src/services/route/src/routeSrvMgr.cpp:526-532 | a tracked route is deleted by delRouteList if and only if it is the only one or not the second |
| `RouteRounds.MissingFieldDeletesAll` | src/services/route/src/routeSrvMgr.cpp:614-619 | a discovery without the gateway field deletes every tracked route, in order |
| `RouteRounds.NoClashes` | src/services/route/src/routeSrvMgr.cpp:865-890 | after pruning, the routes of gateways with separated addresses never clash |
| `RoutePruning.PruneDropsTheFirst` | src/services/route/src/routeSrvMgr.cpp:1032-1060 | for every list, duplicates included: of the routes to an address, all but the first n are left, where n of them are stale |
| `RoutePruning.PruneIsTheFilterIff` | src/services/route/src/routeSrvMgr.cpp:1032-1060 | for every list, what is left is the filter if and only if no fresh route stands before a stale route to the same address |
| `RoutePruning.FreshRouteGoes` | src/services/route/src/routeSrvMgr.cpp:915-970 | of two routes to one address the fresh one in front is deleted and the stale one stays |
| `RoutePruning.PruneDropsTheHomeless` | src/services/route/src/routeSrvMgr.cpp:1032-1060 | for every list, duplicates included, nothing is left to an address that no gateway has |
| `RouteRounds.PruneBelongs` | src/services/route/src/routeSrvMgr.cpp:1020-1068 | pruning any list leaves only routes of current gateways |
| `RouteRounds.SetupBelongs` | src/services/route/src/routeSrvMgr.cpp:693-805 | so does setting routes, whatever the scripts report |
| `RouteRounds.RoundBelongs` | src/services/route/src/routeSrvMgr.cpp:245-275 | so does one round from any state |
| `RouteRounds.AlwaysBelongs` | src/services/route/src/routeSrvMgr.cpp:245-275 | after every round of every run, whatever is discovered, every tracked address belongs to a gateway of the current list |
| `RouteRounds.PruneKeepsDistinct` | src/services/route/src/routeSrvMgr.cpp:1020-1068 | pruning keeps addresses distinct, their roles, and only fresh routes |
| `RouteRounds.SetupKeepsDistinct` | src/services/route/src/routeSrvMgr.cpp:693-805 | setting the routes of gateways with separated addresses keeps addresses distinct, whatever the scripts report |
| `RouteRounds.RoundKeepsDistinct` | src/services/route/src/routeSrvMgr.cpp:245-275 | so does one discovery round |
| `RouteRounds.DistinctAfterRoundIff` | src/services/route/src/routeSrvMgr.cpp:262-268 | for any addresses: a round that finds gateways keeps tracked addresses distinct if and only if it sets no routes or no route it sets disagrees on the prefix with the first mention of its address |
| `RouteRounds.DistinctThroughoutIff` | src/services/route/src/routeSrvMgr.cpp:245-275 | for any addresses: no address is tracked twice after any round of a run if and only if each round agrees with what is tracked when it starts |
| `RouteRounds.AlwaysDistinct` | src/services/route/src/routeSrvMgr.cpp:245-275 | no address is tracked twice after any round of a run in which addresses keep their role |
| `RouteRounds.RolesMustNotSwap` | src/services/route/src/routeSrvMgr.cpp:865-890 | two rounds track one address twice whenever it changes from an IPv4 role to an IPv6 role |
| `RouteRounds.RolesCanSwap` | src/services/route/src/routeSrvMgr.cpp:338-359 | two discoveries with addresses that are accepted, sharing nothing inside themselves, after which one address is tracked twice |
| `RouteEffects.StaleIffUnsupported` | src/services/route/src/routeSrvMgr.cpp:1041-1054 | a route is dropped if and only if no gateway has its address, or it is IPv6 and the first such gateway announces another prefix |
| `RouteEffects.RouteOfGateway` | src/services/route/src/routeSrvMgr.cpp:1010-1018 | a gateway whose prefix is empty or says null gets a route to its IPv4 address, any other one to its IPv6 address |
| `RouteEffects.AcceptedOne` | src/services/route/src/routeSrvMgr.cpp:586-602 | an entry is accepted exactly if it is valid |
| `RouteEffects.AcceptedParts` | src/services/route/src/routeSrvMgr.cpp:566-606 | the gateways of two lists of entries are those of the first and then those of the second |
| `RouteEffects.GatewaysAfterRound` | src/services/route/src/routeSrvMgr.cpp:553-636 | which gateways a round leaves, for every kind of discovery |
| `RouteEffects.SetupsIff` | src/services/route/src/routeSrvMgr.cpp:1062-1067 | a round that finds gateways runs the setup of every one, in order, if it deletes no tracked route or as many as there were, and of none otherwise |
| `RouteEffects.FailureCommands` | src/services/route/src/routeSrvMgr.cpp:517-545 | a failed, unreadable or empty discovery deletes the tracked routes but the second, and does nothing else |
| `RouteEffects.NewRoutesIff` | src/services/route/src/routeSrvMgr.cpp:779-800 | one new route per gateway whose script reports 23, and no other |
| `RouteEffects.NewRoutesPrefix` | src/services/route/src/routeSrvMgr.cpp:693-805 | new routes come in the order of their gateways |
| `RouteEffects.ReplacedRoutes` | src/services/route/src/routeSrvMgr.cpp:264-268 | if no tracked route is supported any more, exactly the gateways whose script reported 23 are tracked afterwards |
| `RouteEffects.ConfirmedRoutes` | src/services/route/src/routeSrvMgr.cpp:264-268 | if every tracked route is supported, all are kept and the gateways whose script reported 23 are tracked too |
| `RouteEffects.PartlyLost` | src/services/route/src/routeSrvMgr.cpp:1062-1067 | if some but not all are supported, the round only drops routes |
| `RouteEffects.NewestFirst` | src/services/route/src/routeSrvMgr.cpp:892-906 | new addresses are tracked newest first |
| `RouteEffects.TrackAgain` | src/services/route/src/routeSrvMgr.cpp:865-890 | a tracked address is added again exactly if it is IPv6 and its prefix changed |
| `RouteManager.Manager.constructor` | src/services/route/src/routeSrvMgr.cpp:60-61 | both lists start out empty |
| `RouteManager.Manager.FindRoute` | src/services/route/src/routeSrvMgr.cpp:1122-1129 | finds the first route with an address |
| `RouteManager.Manager.FindGateway` | src/services/route/src/routeSrvMgr.cpp:1130-1138 | finds the first gateway with an address |
| `RouteManager.Manager.RemoveRoute` | src/services/route/src/routeSrvMgr.cpp:907-1008 | deletes and forgets the first route with the address and rewinds the variable; a miss forgets the whole list |
| `RouteManager.Manager.StepCursor` | src/services/route/src/routeSrvMgr.cpp:530-530 | stepping off the end loses the list |
| `RouteManager.Manager.DeleteAtCursor` | src/services/route/src/routeSrvMgr.cpp:528-530 | one pass deletes the route under the cursor and ends on the second node, or with no list |
| `RouteManager.Manager.ClearRoutes` | src/services/route/src/routeSrvMgr.cpp:517-545 | for every starting list: terminates with nothing tracked and deletes every route except the second |
| `RouteManager.Manager.PruneRoutes` | src/services/route/src/routeSrvMgr.cpp:1020-1068 | the in-place walk computes the pruned list and its deletions, and returns true exactly when no route is left or none was dropped |
| `RouteManager.Manager.AddRoute` | src/services/route/src/routeSrvMgr.cpp:865-906 | adds the route in front unless its address is tracked and, for IPv6, with the same prefix |
| `RouteManager.Manager.RecordRoute` | src/services/route/src/routeSrvMgr.cpp:791-798 | tracks the IPv6 address of a gateway that announces a prefix and the IPv4 address of any other |
| `RouteManager.Manager.SetRoutes` | src/services/route/src/routeSrvMgr.cpp:676-808 | the script runs once for every gateway, in order, and the new routes are tracked; true exactly when there is a new one |
| `RouteManager.Manager.StoreGateways` | src/services/route/src/routeSrvMgr.cpp:555-606 | the gateway list becomes the accepted entries, in order |
| `RouteManager.Manager.Store` | src/services/route/src/routeSrvMgr.cpp:226-243 | what each kind of discovery does to the lists, and when it counts as successful |
| `RouteManager.Manager.Round` | src/services/route/src/routeSrvMgr.cpp:262-275 | one pass of the route thread is one round of the specification the run theorems are about |
| `RouteSignal.NothingIsMissed` | src/services/route/src/routeSrvMgr.cpp:250-258 | in every run: nothing pending means the last published length was taken, a sleeper has something pending if and only if signalling failed while it slept, and takings never exceed events plus one |
| `RouteSignal.SleepersMissNothing` | src/services/route/src/routeSrvMgr.cpp:139-146 | while signalling succeeds, a sleeping thread has nothing pending |
| `RouteSignal.TakingsAreCurrent` | src/services/route/src/routeSrvMgr.cpp:256-257 | every taking gets the most recently published length |
| `RouteSignal.PublishedIsTaken` | src/services/route/src/routeSrvMgr.cpp:139-146 | every event is pending or was followed by a taking |
| `StunCodec.EncodeU16` | src/main/src/StunClient.cpp:793-799 | pushes two bytes, of which the first counts 256 |
| `StunCodec.Encode` | src/main/src/StunClient.cpp:257-270 | the printed bytes are those of the specification the round trips are about |
| `StunCodec.DecodeU16` | src/main/src/StunClient.cpp:743-749 | reads two bytes, of which the first counts 256, and steps by two |
| `StunCodec.DecodeAttr` | src/main/src/StunClient.cpp:782-791 | reads type, length and that many bytes, and steps past them |
| `StunCodec.DecodeAttrs` | src/main/src/StunClient.cpp:769-770 | the loop parses the whole rest of a well-framed buffer |
| `StunCodec.DecodeMessage` | src/main/src/StunClient.cpp:751-780 | other types give no message; a response keeps type, length and all attributes, with the id read from every second byte |
| `StunCodec.FindAttribute` | src/main/src/StunClient.cpp:244-254 | the first attribute of the type, or none if there is none |
| `StunCodec.AddressOf` | src/main/src/StunClient.cpp:709-733 | the four or sixteen address bytes in network order, or none for another family |
| `StunCodec.ReadMappedAddress` | src/main/src/StunClient.cpp:415-422 | from received bytes to the address: it is that of the first MAPPED-ADDRESS on the wire, for both families |
| `StunCodec.ParsedLengthsMatch` | src/main/src/StunClient.cpp:782-791 | every parsed length field is the size of its value |
| `StunCodec.AttrsRoundTrip` | src/main/src/StunClient.cpp:264-268 | parsing a printed list gives it back if and only if every length field is the size of its value |
| `StunCodec.ParseOfEncode` | src/main/src/StunClient.cpp:769-791 | printing then parsing is the identity on such lists and consumes the whole buffer |
| `StunCodec.EncodeOfParse` | src/main/src/StunClient.cpp:769-791 | parsing then printing is the identity on well-framed sections |
| `StunCodec.EncodeIsInjective` | src/main/src/StunClient.cpp:257-270 | well-formed messages with the same bytes are equal |
| `StunCodec.ReprintsIffStrideInvisible` | src/main/src/StunClient.cpp:764-766 | a decoded response prints back to its bytes if and only if the stride made no difference |
| `StunCodec.DecodeOfEncode` | src/main/src/StunClient.cpp:751-780 | a printed well-formed response decodes to itself, except that the id is taken from every second byte |
| `StunCodec.FirstOf` | src/main/src/StunClient.cpp:244-254 | the index is that of the first attribute of the type, or the length |
| `StunCodec.FirstOnWireIsFirst` | src/main/src/StunClient.cpp:769-770 | the position is that of an attribute of the type and no attribute before it on the wire is; without a position none is |
| `StunCodec.FoundIsFirstOnWire` | src/main/src/StunClient.cpp:244-254 | the attribute found after decoding is the first of its type on the wire |
| `StunCodec.AddressOnWire` | src/main/src/StunClient.cpp:715-727 | the address bytes by their position, eight bytes after the attribute starts |
| `StunCodec.LiteralResponse` | src/main/src/StunClient.cpp:709-791 | on literal bytes: with type 01 01 and first attribute 00 01, the MAPPED-ADDRESS is at byte 20 and its address at bytes 28 to 31 or 28 to 43 |
| `StunCodec.LiteralRequest` | src/main/src/StunClient.cpp:257-284 | on literal bytes: the binding request the client sends |
| `StunCodec.U32RoundTrip` | src/main/src/StunClient.cpp:735-741 | reading four bytes and putting them back in network order is the identity |
| `StunClient.AttemptsAreBounded` | src/main/src/StunClient.cpp:388-395 | however attempts end, the body is entered at most 30 times and at most once per started 2000; never exactly for timeout 0; once exactly for 1 to 2000 or when the first attempt throws |
| `StunClient.AttemptMadeIff` | src/main/src/StunClient.cpp:388-395 | if no attempt throws, an attempt is made if and only if it is one of the first 30 and the budget is not used up before it |
| `StunClient.LongTimeouts` | src/main/src/StunClient.cpp:388-395 | a timeout from 58929 on means exactly 30 attempts |
| `StunClient.OnlyTheLastOverruns` | src/main/src/StunClient.cpp:402-414 | only the last completed attempt can overrun the budget |
| `StunClient.LastAnswerIsLostIff` | src/main/src/StunClient.cpp:402-430 | the last answer is what the loop delivers if and only if its attempt is the first or does not overrun; otherwise an earlier one is, if any |
| `StunClient.ShortTimeoutsNeverSleep` | src/main/src/StunClient.cpp:388-414 | any timeout from 1 to 2000 enters the body once, never sleeps, and charges 2000 unless the request cannot be sent |
| `StunClient.SleepsOfTheLoop` | src/main/src/StunClient.cpp:388-414 | sleeps are 1, 2, 4 up to 32, only the last may be cut; their number, and the total of 2000 per attempt plus sleeps |
| `StunClient.ReadResponse` | src/main/src/StunClient.cpp:400-441 | how an attempt ends, from the received bytes: silent, without address, of a bad family, or with the address of the first MAPPED-ADDRESS on the wire |
| `StunClient.Charge` | src/main/src/StunClient.cpp:402-414 | one attempt adds 2000 and a sleep that is cut to fit, at most 32 and never beyond the budget |
| `StunClient.BudgetStep` | src/main/src/StunClient.cpp:402-414 | charging keeps: total is 2000 per attempt plus sleeps, below timeout plus 2000, sleeps doubling up to 32 with only the last cut |
| `StunClient.Retry` | src/main/src/StunClient.cpp:388-442 | for every timeout and every way attempts end: the last answer that is looked at, how often the body is entered, how many attempts are charged, and the number and length of every sleep, doubling up to 32 with only the last cut |
| `StunClient.StunClient.constructor` | src/main/src/StunClient.cpp:286-297 | the initial parameters and an invalid result |
| `StunClient.StunClient.SetParams` | src/main/src/StunClient.cpp:318-352 | takes over all six parameters and says whether any was new |
| `StunClient.StunClient.Bind` | src/main/src/StunClient.cpp:305-462 | one call: reply and fields, from the cache or from an exchange, with the older answer kept on failure |
| `StunClient.ClientRemembers` | src/main/src/StunClient.cpp:415-461 | over every run, the fields are the last parameters and the answer and time of the most recent successful exchange |
| `StunClient.RepliesAreItsOwn` | src/main/src/StunClient.cpp:415-461 | over every run, a call that is not served from the cache is answered if and only if it exchanged, with its own last answer that was looked at; otherwise it carries no address |
| `StunClient.AnswerIsKept` | src/main/src/StunClient.cpp:422-424 | over every run, the client holds the answer and time of its most recent exchange |
| `StunClient.FromCacheIff` | src/main/src/StunClient.cpp:359-382 | over every run, a call is served from the cache if and only if caching is on, its parameters are those of the call before, and the most recent exchange is younger than the timeout |
| `StunClient.CachedAnswersAreRecent` | src/main/src/StunClient.cpp:359-376 | a cached answer is that of the most recent exchange, younger than the timeout, and given only if all six parameters equal those of the call before |
| `StunClient.CachedAnswersFit` | src/main/src/StunClient.cpp:359-376 | it is from after the last change of parameters if and only if an exchange succeeded since, and then it was obtained under this call's; otherwise it dates from before the change, and does not fit if it is from the call just before it |
| `StunClient.StaleAnswerAfterFailure` | src/main/src/StunClient.cpp:458-461 | an answer from before the change need not fit: for any two parameter sets, a failed exchange leaves the answer of the other |
| `StunClient.OldAnswerFitsAgain` | src/main/src/StunClient.cpp:458-461 | nor need it be wrong: the parameters may change and change back with every later exchange failing |
| `Netmask.NeighboursDisjoint` | src/main/src/netSrvMgrMain.cpp:1445-1447 | a number and its successor share no bit if and only if the successor is a power of two |
| `Netmask.TrickFindsPrefixes` | src/main/src/netSrvMgrMain.cpp:1439-1448 | the bit trick accepts exactly the masks with a prefix length from 1 to 32 |
| `Netmask.ScanFindsPrefixes` | src/main/src/netSrvMgrMain.cpp:1444-1447 | at every width, the bit-by-bit reading accepts exactly those masks |
| `Netmask.TrickIsTheScan` | src/main/src/netSrvMgrMain.cpp:1439-1448 | the bit trick and the bit-by-bit reading accept the same masks |
| `IpSettings.ReadFile` | src/main/src/netSrvMgrMain.cpp:1386-1410 | the line loop reads what the specification of the reader says |
| `IpSettings.QuadIsPlain` | src/main/src/netSrvMgrMain.cpp:1514-1542 | an address that inet_pton accepts holds no separator of the file format |
| `IpSettings.ValidatedIsWritable` | src/main/src/netSrvMgrMain.cpp:1514-1542 | validated settings have plain fields of which only the secondary DNS may be empty |
| `IpSettings.ReadBack` | src/main/src/netSrvMgrMain.cpp:1386-1422 | a written file reads back as what was written, except an empty secondary DNS |
| `IpText.AcceptedIffDotted` | src/main/src/netSrvMgrMain.cpp:1514-1542 | inet_pton accepts exactly the dotted quads of octets 0 to 255 without leading zeros |
| `IpText.DottedIsRead` | src/main/src/netSrvMgrMain.cpp:1514-1524 | every such text is read as the number it spells |
| `IpText.FileText` | src/main/src/netSrvMgrMain.cpp:1418-1419 | the file is five literal lines |
| `IpText.StoredText` | src/main/src/netSrvMgrMain.cpp:1397-1406 | a value is cut to 45 characters, and a missing one reads as "(null)" |
| `IpText.LinesAreRead` | src/main/src/netSrvMgrMain.cpp:1392-1393 | a line of up to 510 characters is read whole, a longer one in pieces of 511 |
| `IpText.KeysAreRead` | src/main/src/netSrvMgrMain.cpp:1395-1406 | a line with one of the five keys sets that field and no other; any other key is ignored |
| `SettingsStore.AutoconfigIff` | src/main/src/netSrvMgrMain.cpp:1482-1497 | exactly when a request for automatic configuration succeeds, and that it leaves no file and one reconfiguration, or none if there was no file |
| `SettingsStore.RefusedRequests` | src/main/src/netSrvMgrMain.cpp:1464-1542 | a refused manual request changes nothing |
| `SettingsStore.AcceptedRequests` | src/main/src/netSrvMgrMain.cpp:1543-1558 | any other manual request: stored settings are left alone, others written and applied; a failed write removes the file and reconfigures all the same |
| `SettingsStore.Store.constructor` | src/main/src/netSrvMgrMain.cpp:1477-1478 | no file at the start |
| `SettingsStore.Store.Check` | src/main/src/netSrvMgrMain.cpp:1514-1542 | the checks accept exactly the validated settings |
| `SettingsStore.Store.SameAsFile` | src/main/src/netSrvMgrMain.cpp:1376-1384 | equal exactly when the file reads as the requested settings |
| `SettingsStore.Store.SetIPSettings` | src/main/src/netSrvMgrMain.cpp:1450-1559 | the new files, the reconfigurations and the result for every request, with all error paths; files stay readable |
| `SettingsStore.RequestKeepsValidated` | src/main/src/netSrvMgrMain.cpp:1498-1557 | one request keeps every stored file one that holds validated settings |
| `SettingsStore.FilesAreAlwaysValidated` | src/main/src/netSrvMgrMain.cpp:1450-1559 | over every run from no file, every stored file holds validated settings with a mask of prefix length 1 to 32 |
| `SettingsStore.FilesAreAlwaysReadable` | src/main/src/netSrvMgrMain.cpp:1543-1544 | over every run no stored file has a line without a key |
| `SettingsStore.StoredFileReadsAs` | src/main/src/netSrvMgrMain.cpp:1386-1422 | what a stored file reads as, compared with validated settings |
| `SettingsStore.RepeatIsIdleIffSecondaryDns` | src/main/src/netSrvMgrMain.cpp:1543-1557 | repeating a successful manual request changes nothing if and only if it names a secondary DNS server |
| `PniController.Controller.constructor` | pni_controller.sh:225-227 | nothing issued yet |
| `PniController.Controller.Do` | pni_controller.sh:162-180 | the interface state is always that of the commands issued so far |
| `PniController.Controller.TryInterface` | pni_controller.sh:182-213 | one try issues exactly its commands and succeeds exactly when nothing is tested or the test passes |
| `PniController.Controller.RunLoop` | pni_controller.sh:255-260 | the loop issues the commands of the alternating tries up to the first success |
| `PniController.Controller.RunPni` | pni_controller.sh:245-261 | the loop branch, with Wi-Fi kept up when it may not be disabled |
| `PniController.Controller.Run` | pni_controller.sh:227-261 | the decision chain issues the script of its case and ends on the interface of its case |
| `PniController.TryIsClean` | pni_controller.sh:182-199 | from any state, a try never configures an interface beside a configured one |
| `PniController.ScriptIsClean` | pni_controller.sh:227-261 | nor does the whole script, for any markers and any test outcomes |
| `PniController.OneInterfaceAtATime` | pni_controller.sh:121-136 | at every step of every history of starts, restarts included, at most one interface is configured |
| `PniController.DisallowedStaysDown` | pni_controller.sh:227-237 | no step raises a disallowed interface, and a complete run leaves its link down |
| `PniController.RunsSettle` | pni_controller.sh:182-199 | a run that ends on an interface leaves it up, configured and marked, and the other one not configured |
| `PniController.LiteralTries` | pni_controller.sh:182-199 | the literal commands of each try, in order |
| `PniController.FixedChoice` | pni_controller.sh:227-244 | with an interface disallowed, no carrier, or the feature off: which interface is left active and configured, and which links are up |
| `PniController.PreferredChoice` | pni_controller.sh:245-260 | with the feature on: the run ends on Wi-Fi or Ethernet as the preference and the parity of the first passing try say, and Wi-Fi is left up unless Ethernet won and may take it down |
| `PniController.FirstPass` | pni_controller.sh:255-260 | the first successful try, with every earlier one failed |
| `PniController.EndsOnFirstPass` | pni_controller.sh:255-260 | the loop ends at the first success: on the preferred interface, or on the other only if the preferred one failed in that same round; it goes on exactly while nothing succeeds |

## Left out

- Bus, JSON, store, netlink, Wi-Fi HAL and LAF library internals: their results are inputs of the steps, the callbacks or the requests. That the success code of the HAL is its enumerator zero is taken from the HAL's convention, since its header is not part of the repository.
- Grain of the protocol: a condition of a worker thread and the assignment it guards are one step, a callback or a bus event is one step, although a callback too sets the status before it announces it, and a wait releases its lock and goes to sleep in one step, as the condition variable guarantees. Sleeps and back-off only delay.
- Thread cancellation and mutex re-initialisation on Wi-Fi shutdown, and the camera variants: they change the assumptions of the protocol.
- Bus requests that start WPS, clear or disconnect the endpoint; only connect requests appear beside the protocol, through the status they set and what they announce.
- bIsStopLNFWhileDisconnected and the monitor's own lock and condition: written by the threads, never read by the modelled code.
- What a successful connect does outside the status: DHCP renewal, address reset, manufacturer storage, telemetry.
- The route thread's DHCP-lease and autoconfiguration switches, notification of the current route, and the logged outcome of route deletions; text fields are taken as already trimmed, and which entries of a discovery pass the address checks is an input.
- STUN sockets, name resolution and the receive wait inside one binding request: an attempt is its outcome. Buffers are well framed, as the parser does not check bounds.
- Settings files edited by other programs, partial writes, and whether the reconfigured interface is the active one; fields are C strings that fit their buffers.
- mark, unmark, setInterfaceEnabled and setDefaultInterface: they create or remove the controller's marker files and restart it, and touch no other modelled state. The controller theorems hold for all markers at every start.
- The controller's link-local services, address files and connectivity probe: a probe is its outcome, and configuring IPv4 by DHCP or by hand is one command. Removing the preference marker when the feature is off is not tracked.
- Radio, SSID and endpoint diagnostics, MoCA, security-mode tables, the connectivity endpoint file, address filters and the interactive client: field copying, printing or small finite tables.
