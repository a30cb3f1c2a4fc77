# Verified models of the device tree's protocol and table code

Eleven algorithms and state machines of this Android device tree, modelled in Dafny with
proofs about every input, every run or every reachable state. Code that changes state in place
is written as classes, arrays and loops; each method's contract ties it to a specification
function, and the theorems are about those functions.

| Files | What they model |
|---|---|
| `BoyerMoorePattern.dfy`, `BoyerMoore.dfy` | the string search of the recovery updater: two skip tables filled in place, and the jumping search loop |
| `AgpsProtocol.dfy`, `AgpsTheorems.dfy`, `AgpsReference.dfy`, `AgpsMachine.dfy` | the AGPS data-connection state machine, its safety over whole runs, a reference without a list that it agrees with, and its classes |
| `Tracking.dfy` | the multiplexer that serves many time-based tracking sessions with one engine |
| `Words.dfy`, `SvMask.dfy` | satellite blacklists: 64-bit masks to lists and back |
| `Odcpi.dfy` | the timer-gated limiter of on-demand position requests |
| `Estimator.dfy` | the elapsed-realtime estimator |
| `CompactSeq.dfy`, `Adapters.dfy` | the adapter table kept without holes, and its event mask |
| `TripBatching.dfy` | distance accounting of trips that share one engine counter |
| `SetMap.dfy`, `OsObserver.dfy` | the set multimap and the two-way subscription index built on it |
| `NetworkInfo.dfy` | the bounded network handle table and its type mask |
| `ReportHistory.dfy` | the deduplicating report history |

`Wrappers.dfy` holds the option type. `dafny verify dfyconfig.toml` checks everything.

## How to read the models

Callbacks and messages are entries of a log or trace. Replies of the framework and of the engine,
clock readings, and outcomes of comparisons on data that is not modelled are inputs of the steps,
so the theorems hold for each of them. A run is a sequence of such steps.

## Where the code misses its promise

The models follow the code. Where a promised property is false of it, lemmas give an input that
shows so and say exactly when the property holds, in terms of what is known before the call.

- The prefix test at `recovery/recovery_updater.cpp:78` looks at `pat + p` instead of
  `pat + p + 1`. A NUL-free pattern is always found at its first occurrence iff it has no proper
  border or is one letter repeated (`CompleteIffBorderFree`); "aba" is missed in "acaba". The
  shipped pattern has no border. The test for an empty pattern at line 102 comes after the tables
  are built from it, so the model asks for a non-empty one.
- `update` of the set multimap is documented, in its own header and at
  `gps/core/SystemStatusOsObserver.cpp:155-171`, to hand back the values that were removed. The
  code hands back the values that stay (`removeAndReturnInterset`). The observer therefore takes
  the client out of the items it keeps. An update keeps the two maps inverse iff the client had no
  subscription before (`UpdateKeepsInverseIff`, `RepeatedUpdateBreaksInverse`), and repeating a
  subscription silences the client (`RepeatedUpdateSilencesClient`). The helper also erases the set element its loop stands on; the
  model takes the effect its comment describes.
- A time-based session that is the strictly fastest and is slowed down leaves the engine at its
  old, faster interval (`UpdateTightIff`, `SlowedSessionLeavesEngineFast`).
- A trip that joins and forces a restart makes the trips already running lose what they travelled
  since their last report (`JoinRestartExactIff`, `JoinRestartUndercounts`). If the restart fails,
  they and the new trip count the engine's running counter from zero again, and can be credited
  twice (`FailedJoinRestartExactIff`, `FailedJoinRestartOvercounts`).
- A trip restart for the sake of the interval alone counts the whole ongoing distance again
  (`RestartIsTimelyIff`, `IntervalRestartComesLate`): the engine may report long after a trip has
  completed.
- The cached type mask of the network table can forget a type that is still connected, and name
  one that is not (`CachedMaskIff`, with `MaskForgetsLiveType` and `MaskNamesUnlistedType`).
- The very first network event lists its handle even when it is a disconnect
  (`FirstEventRefinesIff`, `FirstDisconnectIsListed`).
- SBAS ids 208 to 246 shift a 64-bit word by 64 or more, which has no meaning in the source's
  language (`ShiftDefinedIff`, `Sbas208ShiftsTooFar`); the mask conversion excludes them.

One more note is about the model, not about a property: `MsgReportCompletedTrips::proc` reads a trip
after erasing it (`gps/batching/BatchingAdapter.cpp:762-772`); the model reads it before.

## Model

| member | source | states |
|---|---|---|
| BoyerMoore.CompleteIffBorderFree | recovery/recovery_updater.cpp:72-120 | for every non-empty NUL-free pattern: the search agrees with a naive scan on all texts iff the pattern has no proper border or consists of one letter |
| BoyerMoore.CompleteIffSafeTable | recovery/recovery_updater.cpp:93-120 | for every non-empty pattern, NULs or not: the search agrees with a naive scan on all texts iff no table entry shifts past a position where the pattern could still be |
| BoyerMoore.JumpSkipsNoMatch | recovery/recovery_updater.cpp:107-117 | with a safe table, a jump by the larger skip passes over no occurrence, whatever the text |
| BoyerMoore.IncompatibleShift | recovery/recovery_updater.cpp:84-90 | good-suffix rule: a shift that does not realign the matched suffix behind another character holds no occurrence |
| BoyerMoore.BadCharacterShift | recovery/recovery_updater.cpp:57-69 | bad-character rule: a shift below the distance to the mismatched text character holds no occurrence |
| BoyerMoore.SafeScanIsNaive | recovery/recovery_updater.cpp:93-120 | with a safe table the search from any window returns the first occurrence, and nothing iff there is none |
| BoyerMoore.ScanIsSound | recovery/recovery_updater.cpp:113-115 | every non-empty pattern: a reported position is an occurrence |
| BoyerMoore.UnsafeEntryMisses | recovery/recovery_updater.cpp:76-82 | each unsafe table entry has a text that holds the pattern and on which the search finds nothing |
| BoyerMoore.BorderedPatternIsMissed | recovery/recovery_updater.cpp:78-80 | "aba" stands in "acaba" and is not found |
| BoyerMoore.ShippedPatternIsComplete | recovery/recovery_updater.cpp:40 | the shipped version string is found at its first occurrence in every text |
| BoyerMoore.NaiveSearch | recovery/recovery_updater.cpp:93-120 | the reference: the first occurrence from a position on, or none iff there is none |
| BoyerMoore.Mismatch | recovery/recovery_updater.cpp:108-112 | comparing leftwards stops at the rightmost mismatch; everything to its right agrees |
| BoyerMoore.Advance | recovery/recovery_updater.cpp:116 | the next window starts strictly later and at most a pattern length on, so the search ends |
| BoyerMoore.MaxSuffixLen | recovery/recovery_updater.cpp:47-55 | the suffix ending at p agrees with the end of the pattern for the returned length, which cannot be extended unless it reached p |
| BoyerMoore.MakeDelta1 | recovery/recovery_updater.cpp:60-69 | fills for each character the distance from the pattern's end to its rightmost occurrence before the last character |
| BoyerMoore.FillPrefixEntries | recovery/recovery_updater.cpp:73-82 | the first loop leaves in each entry the prefix value for its position |
| BoyerMoore.TrySuffix | recovery/recovery_updater.cpp:84-90 | one round of the second loop turns "least realigning shift above s" into "at or above s" in every entry |
| BoyerMoore.MakeDelta2 | recovery/recovery_updater.cpp:72-91 | fills the table with exactly the entries that `Delta2Meaning` describes, in 32-bit arithmetic |
| BoyerMoore.CompareWindow | recovery/recovery_updater.cpp:108-112 | the inner loop finds the rightmost mismatch of the window |
| BoyerMoore.NextWindowEnd | recovery/recovery_updater.cpp:116 | the jump moves the window by the larger skip without leaving 32 bits |
| BoyerMoore.SearchLoop | recovery/recovery_updater.cpp:106-119 | the loop over the tables in memory computes the search function |
| BoyerMoore.BmSearch | recovery/recovery_updater.cpp:93-120 | the whole search with `int` variables: sound for every non-empty pattern, the naive result for border-free ones, no overflow when text length and twice the pattern length fit an `int` |
| BoyerMoorePattern.Delta2Meaning | recovery/recovery_updater.cpp:72-91 | an entry's shift is the least one that realigns the matched suffix behind another character; it is the prefix value exactly when there is none |
| BoyerMoorePattern.LastPrefixMeaning | recovery/recovery_updater.cpp:76-82 | the prefix value is one more than the nearest self-overlap at or after the position, or the length less one when there is none |
| BoyerMoorePattern.SafeTableIff | recovery/recovery_updater.cpp:72-91 | a NUL-free pattern gets a safe table iff it has no proper border or is one letter repeated |
| BoyerMoorePattern.BorderFreeIsSafe | recovery/recovery_updater.cpp:72-91 | patterns without a border get safe entries |
| BoyerMoorePattern.BorderedIsUnsafe | recovery/recovery_updater.cpp:78-80 | a border in a pattern of two letters makes the entry of position 1 pass over a possible match |
| BoyerMoorePattern.DistanceFrom | recovery/recovery_updater.cpp:60-69 | the least distance from the last character to an occurrence of the character, or the length if there is none |
| AgpsTheorems.ConnectionBalance | gps/gnss/Agps.cpp:73-308 | every run: requests less releases, denials while pending and forced releases while acquired are 1 in PENDING and ACQUIRED and 0 otherwise |
| AgpsTheorems.HandleBalance | gps/gnss/Agps.cpp:109-343 | every run and handle: insertions are final notices plus modem-reset drops, plus one if still listed |
| AgpsTheorems.EveryEntryIsDue | gps/gnss/Agps.cpp:73-343 | every moment of every run: a request only with no connection open, an open success only with one, a final notice only to a waiting handle |
| AgpsTheorems.ReachableInv | gps/gnss/Agps.cpp:73-194 | every reachable machine: handles pairwise distinct, RELEASED only with an empty list, PENDING and ACQUIRED only with an empty list or an active subscriber |
| AgpsTheorems.ReleasingHasInactive | gps/gnss/Agps.cpp:109-171 | RELEASING without a modem reset since it was entered keeps an inactive subscriber to notify |
| AgpsTheorems.ConnectedHasActive | gps/gnss/Agps.cpp:73-171 | PENDING and ACQUIRED without a modem reset since a connection was last wanted have an active subscriber: only a reset leaves a connection open for nobody |
| AgpsTheorems.EveryActiveIsTold | gps/gnss/Agps.cpp:92-98 | every run, in ACQUIRED: each active listed subscriber was told of the open success after the latest grant |
| AgpsReference.RunsAgree | gps/gnss/Agps.cpp:73-283 | every run: the machine is in the state of a reference that keeps a role for each handle and no list, and lists exactly its handles in their roles. So a subscribe lists its handle, an unsubscribe retires it and nobody else, a denial or a loss lets everybody go, and the end of a release just those who waited for it |
| AgpsReference.RunsSay | gps/gnss/Agps.cpp:289-380 | every run: each request and release to the framework, and each open success, open failure and close to a handle, is said exactly as often as the reference says it |
| AgpsReference.RunsKeepOrder | gps/gnss/Agps.cpp:392-430 | every run: the list is in the order in which its handles were listed |
| AgpsReference.NoticesInOrder | gps/gnss/Agps.cpp:318-342 | a notice goes out in list order |
| AgpsReference.NoticesSay | gps/gnss/Agps.cpp:310-343 | a notice says its entry once to each handle of its audience, and nothing else |
| AgpsTheorems.ManagerRunsAreLegal | gps/gnss/Agps.cpp:563-675 | both machines of the manager keep the invariant in every run of its commands |
| AgpsTheorems.ReleaseAtlNeverReachesReleased | gps/gnss/Agps.cpp:599-625 | `releaseATL` never unsubscribes from a machine in RELEASED |
| AgpsTheorems.RequestReachesMachine | gps/gnss/Agps.cpp:537-597 | a request lists the handle at the machine of its type, SUPL types and the invalid type at the one, others at the other, or is refused when there is none; the other machine does not move |
| AgpsTheorems.AnswersReachMachine | gps/gnss/Agps.cpp:627-662 | a success acquires the pending machine of its type, a failure releases it, and a close releases an acquired one; the other machine does not move |
| AgpsTheorems.ReleaseReachesMachine | gps/gnss/Agps.cpp:599-625 | a release leaves the handle inactive or gone at the one machine that lists it, the SUPL machine first |
| AgpsTheorems.CreateMakesMachines | gps/gnss/Agps.cpp:514-535 | exactly the machines offered exist, and one that exists is kept |
| AgpsTheorems.ResetEmptiesMachines | gps/gnss/Agps.cpp:664-675 | a modem reset empties both lists and leaves both states |
| AgpsProtocol.StepKeepsInv | gps/gnss/Agps.cpp:41-71 | each of the six events keeps the invariant and the agreement of trace, state and list |
| AgpsProtocol.FinalNotices | gps/gnss/Agps.cpp:310-343 | a notice that deletes reaches each waiting handle of its audience exactly once and no other |
| AgpsProtocol.DeafIsDistinct | gps/gnss/Agps.cpp:333-341 | what is left of the list is exactly the part outside the audience |
| AgpsMachine.AgpsStateMachine.NotifyAllSubscribers | gps/gnss/Agps.cpp:310-343 | erasing while walking tells exactly the audience in list order and keeps the others in order |
| AgpsMachine.AgpsStateMachine.AddSubscriber | gps/gnss/Agps.cpp:392-411 | appends a clone unless the handle is listed |
| AgpsMachine.AgpsStateMachine.DeleteSubscriber | gps/gnss/Agps.cpp:413-430 | takes out exactly the one subscriber |
| AgpsMachine.AgpsStateMachine.AnyActiveSubscribers | gps/gnss/Agps.cpp:432-442 | true iff some listed subscriber is active |
| AgpsMachine.AgpsStateMachine.ProcessSubscribe | gps/gnss/Agps.cpp:73-107 | the fields after the call are those of the run model's subscribe command |
| AgpsMachine.AgpsStateMachine.ProcessUnsubscribe | gps/gnss/Agps.cpp:109-171 | the fields after the call are those of the run model's unsubscribe command |
| AgpsMachine.AgpsStateMachine.ProcessGranted | gps/gnss/Agps.cpp:173-194 | the fields after the call are those of the run model's granted command |
| AgpsMachine.AgpsStateMachine.ProcessReleased | gps/gnss/Agps.cpp:196-241 | the fields after the call are those of the run model's released command |
| AgpsMachine.AgpsStateMachine.ProcessDenied | gps/gnss/Agps.cpp:243-283 | the fields after the call are those of the run model's denied command |
| AgpsMachine.AgpsStateMachine.DropAllSubscribers | gps/gnss/Agps.cpp:495-506 | empties the list without notices |
| AgpsMachine.AgpsStateMachine.GetSubscriber | gps/gnss/Agps.cpp:465-478 | finds the first subscriber with the handle, null iff it is not listed |
| AgpsMachine.AgpsManager.CreateAgpsStateMachines | gps/gnss/Agps.cpp:514-535 | creates the machines that are missing and asked for |
| AgpsMachine.AgpsManager.RequestATL | gps/gnss/Agps.cpp:563-597 | subscribes at the machine of the type, or tells the handle at once that there is none |
| AgpsMachine.AgpsManager.ReleaseATL | gps/gnss/Agps.cpp:599-625 | unsubscribes the handle where it is listed, the SUPL machine first; the other machine stays as it is |
| AgpsMachine.AgpsManager.ReportAtlOpenSuccess | gps/gnss/Agps.cpp:627-644 | grants to the machine of the type only |
| AgpsMachine.AgpsManager.ReportAtlOpenFailed | gps/gnss/Agps.cpp:646-653 | denies to the machine of the type only |
| AgpsMachine.AgpsManager.ReportAtlClosed | gps/gnss/Agps.cpp:655-662 | closes at the machine of the type only |
| AgpsMachine.AgpsManager.HandleModemSSR | gps/gnss/Agps.cpp:664-675 | drops the subscribers of both machines and leaves their states |
| Tracking.RunsServeEverySession | gps/gnss/GnssAdapter.cpp:3046-3099 | every run of starts, updates, stops, nHz changes and engine restarts: the engine runs iff a session is live, never more slowly than any live session asks, and at 100 ms while nHz is needed |
| Tracking.SessionsAreAsked | gps/gnss/GnssAdapter.cpp:3046-3460 | every run: a session is live with an interval iff the commands alone say so, that is with its latest start or update since its last stop, raised to 100; the nHz need is the latest one set |
| Tracking.OneRequestACommand | gps/gnss/GnssAdapter.cpp:3101-3137 | a command makes one request to the engine at most, for the interval it then runs at; without a request the interval stays, but for an engine restart |
| Tracking.AsksIffIntervalChanges | gps/gnss/GnssAdapter.cpp:3076-3096 | without an nHz need a start or stop asks the engine iff the smallest interval changes or the power comparison demands it |
| Tracking.UpdateAsksIff | gps/gnss/GnssAdapter.cpp:3306-3352 | an update asks the engine iff it changes something and the smallest interval changes, it is for the only session, the power comparison demands it, or it gives the fastest session a new power mode |
| Tracking.ServedNHzIsLeftAlone | gps/gnss/GnssAdapter.cpp:227-231 | an engine that runs at 100 ms for an nHz need is not asked again by starts, updates and stops but the last |
| Tracking.RestartAsks | gps/gnss/GnssAdapter.cpp:2660-2728 | after an engine restart, or a change of the nHz need, the engine is asked once for the live sessions |
| Tracking.NHzIsServed | gps/gnss/GnssAdapter.cpp:232-236 | an nHz need that finds slower sessions, or that the first session finds, sets the engine to 100 ms |
| Tracking.RunsAreTight | gps/gnss/GnssAdapter.cpp:3412-3460 | every run in which no update outside an nHz need slows the strictly fastest session past the next: whenever no nHz engine needs more, the engine runs at exactly the smallest live interval, also after an nHz need has come and gone |
| Tracking.RestartIsTight | gps/gnss/GnssAdapter.cpp:2696-2728 | a restart without an nHz need brings the engine to the smallest live interval |
| Tracking.UpdateTightIff | gps/gnss/GnssAdapter.cpp:3293-3355 | an update keeps the engine at the smallest interval iff it does not slow the strictly fastest of several sessions to the next one's interval or beyond |
| Tracking.SlowedSessionLeavesEngineFast | gps/gnss/GnssAdapter.cpp:3330-3351 | an input on which the engine stays faster than every live session asks |
| Tracking.TrackingAdapter.SmallestInterval | gps/gnss/GnssAdapter.cpp:3063-3068 | the loop finds the smallest interval of the other sessions, if there are any |
| Tracking.TrackingAdapter.CheckAndSetSPEToRunForNHz | gps/gnss/GnssAdapter.cpp:217-239 | tells whether the engine already runs at 100 ms, and lowers the interval when it should |
| Tracking.TrackingAdapter.StartSession | gps/gnss/GnssAdapter.cpp:3046-3099 | the fields after the call are those of the run model's start command |
| Tracking.TrackingAdapter.UpdateSession | gps/gnss/GnssAdapter.cpp:3293-3355 | the fields after the call are those of the run model's update command |
| Tracking.TrackingAdapter.StopSession | gps/gnss/GnssAdapter.cpp:3412-3479 | the fields after the call are those of the run model's stop command |
| Tracking.TrackingAdapter.CheckAndRestartSPESession | gps/gnss/GnssAdapter.cpp:2660-2728 | starts the engine again at the smallest live interval |
| Tracking.TrackingAdapter.UpdateNHzRequirement | gps/gnss/GnssAdapter.cpp:6655-6658 | a change of the nHz need restarts the engine |
| Tracking.TrackingAdapter.RestartSessions | gps/gnss/GnssAdapter.cpp:2638-2658 | after a modem restart the live sessions are served again |
| SvMask.MasksRoundTrip | gps/gnss/GnssAdapter.cpp:1738-1928 | six masks to a list and back into a zeroed configuration is the identity on all 64-bit masks, all-ones words and both SBAS ranges included |
| SvMask.ListRoundTrip | gps/gnss/GnssAdapter.cpp:1738-1928 | a list to masks and back comes out ascending and duplicate-free with exactly the covered satellites; a saturated constellation other than SBAS comes out as id 0 |
| SvMask.AddSourcesBits | gps/gnss/GnssAdapter.cpp:1754-1820 | a list adds exactly the bits its entries cover to each mask |
| SvMask.ShiftDefinedIff | gps/gnss/GnssAdapter.cpp:1777-1818 | an entry is excluded from the conversions iff it passes the source's checks and the source shifts by 64 or more for it |
| SvMask.Sbas208ShiftsTooFar | gps/gnss/GnssAdapter.cpp:1784-1787 | SBAS id 208 passes the checks and is shifted by 64 |
| SvMask.BitOf | gps/gnss/GnssAdapter.cpp:1806-1818 | an accepted entry sets the bit that the source shifts to, which is below 64; any other with an id sets none |
| SvMask.FromConfigShows | gps/gnss/GnssAdapter.cpp:1842-1888 | a list entry comes out of six masks iff its constellation's mask shows it |
| SvMask.SvIdRanges | gps/location/LocationDataTypes.h:1478-1501 | the satellite ids that the bits of each constellation stand for, in numbers |
| SvMask.ToConfigBits | gps/gnss/GnssAdapter.cpp:1745-1820 | an empty list clears every bit, any other adds the bits it covers to those that were set |
| SvMask.SbasBelow | gps/gnss/GnssAdapter.cpp:1866-1882 | neither half of an SBAS mask is all ones, so SBAS is never listed as id 0 |
| SvMask.FromConfigAscends | gps/gnss/GnssAdapter.cpp:1842-1888 | the list is ordered by constellation and strictly by id, both SBAS ranges included |
| SvMask.GnssSvIdConfig.ConvertTo | gps/gnss/GnssAdapter.cpp:1738-1840 | the loop computes the masks; true iff the list is empty or some mask is set |
| SvMask.GnssSvIdConfig.ConvertFrom | gps/gnss/GnssAdapter.cpp:1842-1888 | appends the six parts in the order of the source |
| SvMask.ConvertMaskToList | gps/gnss/GnssAdapter.cpp:1890-1928 | appends one entry for an all-ones mask, else one for each one bit, lowest first |
| Odcpi.CallsAreExact | gps/gnss/GnssAdapter.cpp:4866-4913 | every run: the framework is called exactly as the events alone say, with which request, by which callback and in which order: a START when no timer runs or for the first emergency, each STOP, and at an expiry the START that stands |
| Odcpi.StartsAreExact | gps/gnss/GnssAdapter.cpp:4876-4899 | any stretch: START callbacks are exactly the STARTs that find no request and no timer, the emergency escalations and the expiries that find a request active |
| Odcpi.StartBound | gps/gnss/GnssAdapter.cpp:4866-4913 | every run: START callbacks are at most one more than timer expiries and emergency escalations |
| Odcpi.StretchBound | gps/gnss/GnssAdapter.cpp:4866-4913 | the bound for any stretch of a run, without the one more if the timer was running at its start |
| Odcpi.EscalationFindsTimerRunning | gps/gnss/GnssAdapter.cpp:4884-4892 | an escalation always finds the timer running, so the branch that starts it is dead |
| Odcpi.StateKnowsDirective | gps/gnss/GnssAdapter.cpp:4866-4913 | every run: callback, priority, flags, timer and stored request are what the events alone say |
| Odcpi.ExpiryReissuesLatestStart | gps/gnss/GnssAdapter.cpp:5045-5058 | an expiry asks again iff the latest directive is a START, with that very request |
| Odcpi.OdcpiAdapter.RequestOdcpi | gps/gnss/GnssAdapter.cpp:4866-4913 | the nested branches leave the fields, and the timer object, as the run model's request event does |
| Odcpi.OdcpiAdapter.OdcpiTimerExpire | gps/gnss/GnssAdapter.cpp:5045-5058 | the fields after the call are those of the run model's expiry command |
| Odcpi.OdcpiAdapter.InitOdcpi | gps/gnss/GnssAdapter.cpp:4983-4994 | a callback of at least the current priority replaces the one before |
| Odcpi.OdcpiAdapter.HandleModemReset | gps/gnss/GnssAdapter.cpp:2643-2646 | a modem reset ends the active request and leaves the timer |
| Odcpi.OdcpiTimer.Restart | gps/gnss/GnssAdapter.h:110-113 | a restarted timer is active |
| Estimator.TelescopedEstimate | gps/core/LocApiBase.cpp:957-988 | calibrated at a fix, any later trusted fix without reset or jump is estimated at that fix's boot time less the travel time plus the modem time between the two |
| Estimator.WallClockJumpsDoNotMatter | gps/core/LocApiBase.cpp:957-988 | two runs that differ only in the wall clock give the same estimate |
| Estimator.EstimatesAgree | gps/core/LocApiBase.cpp:938-996 | after every run the estimate is that of an estimator without a wall clock |
| Estimator.EstimateRefines | gps/core/LocApiBase.cpp:960-988 | each fix preserves the clock difference less the previous offset of the two clocks |
| Estimator.WarmupEnds | gps/core/LocApiBase.cpp:961-981 | after a reset the fifth trusted fix brings the count to zero, whatever untrusted or unread fixes come between; a jump at the first does no harm |
| Estimator.ElapsedRealtimeEstimator.GetElapsedRealtimeEstimateNanos | gps/core/LocApiBase.cpp:938-988 | returns the estimate, and the fields after the call are those of the run model after the fix |
| Estimator.ElapsedRealtimeEstimator.Reset | gps/core/LocApiBase.cpp:990-996 | starts the warm-up over |
| Adapters.RunRefinesSet | gps/core/LocApiBase.cpp:231-276 | every run of additions and removals: the table holds a set of at most ten without duplicates and has sent exactly its messages, a close exactly when the last one left |
| Adapters.AddRefinesSet | gps/core/LocApiBase.cpp:231-240 | adding adds to the set if it is new and there is room, with one open message |
| Adapters.RemoveRefinesSet | gps/core/LocApiBase.cpp:242-276 | removing takes out exactly the adapter, with one message if it was there |
| Adapters.LocApiBase.AddAdapter | gps/core/LocApiBase.cpp:231-240 | the array loop adds at the first free place |
| Adapters.LocApiBase.RemoveAdapter | gps/core/LocApiBase.cpp:242-276 | the array loop removes once and leaves no hole |
| Adapters.LocApiBase.SwapWithLast | gps/core/LocApiBase.cpp:248-273 | the last adapter fills the hole |
| Adapters.LocApiBase.GetEvtMask | gps/core/LocApiBase.cpp:168-175 | a bit is in the mask iff some registered adapter asks for it and it is not excluded |
| CompactSeq.SwapOutElements | gps/core/LocApiBase.cpp:255-265 | filling the hole with the last element takes out one element and no other |
| TripBatching.RunsAreExact | gps/batching/BatchingAdapter.cpp:1089-1111 | every run in which no join forces a restart: restart base plus counter less join counter is the distance travelled since the join, across wrap-around and failed restarts |
| TripBatching.RunsKeepTerms | gps/batching/BatchingAdapter.cpp:848-913 | every run: each running trip has the distance and the interval that its join asked for |
| TripBatching.StepTrips | gps/batching/BatchingAdapter.cpp:752-990 | a step adds the trip of a join that takes effect, takes out the trip of a stop and those a report completes, and neither adds nor takes out nor changes the terms of any other |
| TripBatching.LastReported | gps/batching/BatchingAdapter.cpp:754-758 | which steps bring a trip's last reported distance up to date, and which leave it |
| TripBatching.JoinSetsEngine | gps/batching/BatchingAdapter.cpp:883-920 | after a join the engine runs at the shorter interval and to the nearer of the new trip's end and its old target |
| TripBatching.RestartSetsEngine | gps/batching/BatchingAdapter.cpp:1054-1110 | a restart that succeeds sets interval and target from the smallest remaining ones and from what has gone; one that fails changes nothing |
| TripBatching.ReportSetsEngine | gps/batching/BatchingAdapter.cpp:778-784 | a report that completes no trip leaves the engine alone; one that does restarts it for the trips left, or clears its settings when none is |
| TripBatching.StopSetsEngine | gps/batching/BatchingAdapter.cpp:971-994 | a stop restarts the engine for the trips left, or clears its settings when none is |
| TripBatching.FlagsAfter | gps/batching/BatchingAdapter.cpp:764-773 | each flag comes on iff a trip with the engine's interval, or distance, completes or is stopped |
| TripBatching.ReportDropsFinishedTrips | gps/batching/BatchingAdapter.cpp:746-785 | with exact accounting a report drops exactly the trips whose distance travelled, as a 32-bit number, has reached their own; below 2^32 that is the distance itself |
| TripBatching.ReportTrips | gps/batching/BatchingAdapter.cpp:752-776 | a report drops a trip iff its accounted distance has reached its own, and brings the others up to date |
| TripBatching.ForcesRestartIff | gps/batching/BatchingAdapter.cpp:883-912 | a join after the first restarts the engine iff its interval is shorter than the engine's, or its distance shorter than what the engine has left, or than the whole ongoing distance if the query failed |
| TripBatching.JoinRestartExactIff | gps/batching/BatchingAdapter.cpp:918-937 | a join with a successful restart keeps the accounting exact iff every running trip's last reported distance is the one that the engine's counter gives it now |
| TripBatching.FailedJoinRestartExactIff | gps/batching/BatchingAdapter.cpp:893-937 | with a failed restart: if the query gave the counter, the accounting stays exact iff the counter stands at zero and every running trip's last reported distance is what the counter gives it; if the query failed too, iff that distance is the one at counter zero |
| TripBatching.FailedJoinCredits | gps/batching/BatchingAdapter.cpp:924-937 | what a failed forced restart credits: the counter on top of each running trip's last report, and the counter alone to the new one |
| TripBatching.ForcedJoinCredits | gps/batching/BatchingAdapter.cpp:918-929 | what a successful forced restart credits: to each running trip its last report, to the new one nothing |
| TripBatching.FailedJoinRestartOvercounts | gps/batching/BatchingAdapter.cpp:918-937 | an input on which a failed restart credits distance twice |
| TripBatching.JoinRestartUndercounts | gps/batching/BatchingAdapter.cpp:922-929 | an input on which a successful restart loses distance |
| TripBatching.RunsNeverOvercount | gps/batching/BatchingAdapter.cpp:833-943 | every run whose forced restarts succeed, across wrap-around: no trip is credited more than it travelled, now or at its last report |
| TripBatching.NeverTooEarly | gps/batching/BatchingAdapter.cpp:752-776 | then no report completes a trip before it has travelled its distance, however far the odometer is |
| TripBatching.RestartIsTimelyIff | gps/batching/BatchingAdapter.cpp:1054-1112 | after a successful restart the engine reports no later than the first trip completes, iff not all of these hold: no trip with the ongoing distance was dropped, the target lies ahead and no trip ends before it, the interval changes, and the ongoing distance is more than the first trip has left |
| TripBatching.IntervalRestartComesLate | gps/batching/BatchingAdapter.cpp:1082-1091 | an input on which the engine is restarted for 1000 while a trip has 100 left |
| TripBatching.BatchingAdapter.SmallestRemaining | gps/batching/BatchingAdapter.cpp:1032-1048 | the loop finds the smallest remaining distance and the smallest interval, each that of some trip |
| TripBatching.BatchingAdapter.RestartTripBatching | gps/batching/BatchingAdapter.cpp:1009-1114 | the fields after the call are those of the run model's restart command with those two values |
| TripBatching.BatchingAdapter.RebaseTrips | gps/batching/BatchingAdapter.cpp:1096-1106 | every trip keeps its distance and counts from zero again |
| TripBatching.BatchingAdapter.EraseCompleted | gps/batching/BatchingAdapter.cpp:752-776 | erasing while walking takes out exactly the completed trips and sets each flag iff one of them had the ongoing interval or distance |
| TripBatching.BatchingAdapter.ReportCompletedTrips | gps/batching/BatchingAdapter.cpp:746-785 | reports exactly the completed trips; the fields after the call are those of the run model's report command |
| TripBatching.BatchingAdapter.StartTripBatching | gps/batching/BatchingAdapter.cpp:833-943 | the fields after the call are those of the run model's join command, for a first trip and a later one |
| TripBatching.BatchingAdapter.StopTripBatching | gps/batching/BatchingAdapter.cpp:971-994 | the fields after the call are those of the run model's stop command |
| SetMap.LocUnorderedSetMap.AddAll | gps/utils/LocUnorderedSetMap.h:177-184 | every named entry gains the values; returned are exactly the new keys |
| SetMap.LocUnorderedSetMap.TrimOrRemoveOne | gps/utils/LocUnorderedSetMap.h:86-94 | one entry loses the values, and goes iff that empties it |
| SetMap.LocUnorderedSetMap.TrimOrRemove | gps/utils/LocUnorderedSetMap.h:140-151 | every named entry loses the values, emptied entries go; returned are exactly the gone keys and values |
| SetMap.LocUnorderedSetMap.Update | gps/utils/LocUnorderedSetMap.h:189-199 | stores the values and returns those that the entry had and keeps |
| SetMap.LocUnorderedSetMap.RemoveAndReturnInterset | gps/utils/LocUnorderedSetMap.h:60-77 | the intersection, and the second set without it |
| OsObserver.KeepsInverse | gps/core/SystemStatusOsObserver.cpp:94-294 | the maps stay inverse for a client under every request but an update of its own |
| OsObserver.UpdateKeepsInverseIff | gps/core/SystemStatusOsObserver.cpp:142-212 | an update keeps the maps inverse for its client iff the client had no subscription |
| OsObserver.RepeatedUpdateBreaksInverse | gps/core/SystemStatusOsObserver.cpp:159-169 | an input on which an update makes the maps disagree |
| OsObserver.UpdateHas | gps/core/SystemStatusOsObserver.cpp:151-172 | after an update each requested item has the client iff the client did not have the item before |
| OsObserver.RunsFollowRequests | gps/core/SystemStatusOsObserver.cpp:94-294 | every run: what each client has subscribed, and what it is indexed under, are what the requests alone say; unsubscribing takes out the named items and no other |
| OsObserver.FrameworkFollowsIndex | gps/core/SystemStatusOsObserver.cpp:112-124 | once attached, the framework is asked to stop for each item nobody is indexed under any more and asked for each new one, unless the request is for data, which is passed on |
| OsObserver.AttachAsksForAll | gps/core/SystemStatusOsObserver.cpp:69-81 | before the subscription object is set the framework is asked nothing; then for every indexed item, and for their data |
| OsObserver.RunsCacheReports | gps/core/SystemStatusOsObserver.cpp:558-589 | every run: exactly the items once reported and recorded are cached |
| OsObserver.UpdatedMeaning | gps/core/SystemStatusOsObserver.cpp:314-319 | an item of a batch is sent on iff some recorded report of it is new to the cache or a change |
| OsObserver.DocumentedUpdateKeepsInverse | gps/core/SystemStatusOsObserver.cpp:155-171 | the documented effect would always keep them inverse |
| OsObserver.RunsKeepInverseFor | gps/core/SystemStatusOsObserver.cpp:94-294 | every run: the maps are inverse for each client that never updates while it has a subscription, whatever the other clients do |
| OsObserver.RunsKeepInverse | gps/core/SystemStatusOsObserver.cpp:94-294 | if all clients keep to that, the two maps are inverse and free of empty entries |
| OsObserver.RepeatedUpdateSilencesClient | gps/core/SystemStatusOsObserver.cpp:142-212 | a client that repeats its subscription is never notified again though it stays subscribed |
| OsObserver.RunsAskForIndexedItems | gps/core/SystemStatusOsObserver.cpp:62-82 | every run: the framework is asked only for indexed items, and for all of them once attached if no request is for data |
| OsObserver.RequestDataAsksIff | gps/core/SystemStatusOsObserver.cpp:112-125 | a request for data leaves everything asked for iff it names no new item |
| OsObserver.NotifyIsExact | gps/core/SystemStatusOsObserver.cpp:311-344 | a batch reaches a client for which the maps are inverse iff it wants an updated item, once, with exactly its updated items |
| OsObserver.SystemStatusOsObserver.SubscribeItems | gps/core/SystemStatusOsObserver.cpp:105-126 | the fields after the call, subscriptions and data requests to the framework included, are those of the run model's subscribe command; the client is told the cached items |
| OsObserver.SystemStatusOsObserver.UpdateItems | gps/core/SystemStatusOsObserver.cpp:151-200 | the fields after the call are those of the run model's update command; the client is told the cached items that are new to it |
| OsObserver.SystemStatusOsObserver.UnsubscribeItems | gps/core/SystemStatusOsObserver.cpp:223-242 | the fields after the call are those of the run model's unsubscribe command |
| OsObserver.SystemStatusOsObserver.UnsubscribeAllItems | gps/core/SystemStatusOsObserver.cpp:262-284 | the fields after the call are those of the run model's unsubscribe-all command |
| OsObserver.SystemStatusOsObserver.AttachSubscriptionObj | gps/core/SystemStatusOsObserver.cpp:69-81 | attaches the framework, subscribes to every indexed item and requests its data |
| OsObserver.SystemStatusOsObserver.NotifyClients | gps/core/SystemStatusOsObserver.cpp:311-344 | refreshes the cache and sends each client the map that `NotifyIsExact` describes |
| OsObserver.SystemStatusOsObserver.SendCachedDataItems | gps/core/SystemStatusOsObserver.cpp:530-556 | exactly the cached ones among the items |
| OsObserver.SystemStatusOsObserver.UpdateCache | gps/core/SystemStatusOsObserver.cpp:558-589 | true iff the item is handled, and is new to the cache or changed |
| NetworkInfo.RunsRefineMap | gps/core/SystemStatus.h:514-577 | every run of the cache, equal and repeated events included: the cached table is compact and duplicate-free and is the bounded map of the events |
| NetworkInfo.RunsFollowConnection | gps/core/SystemStatus.h:507-513 | every run: the cached item is connected iff the latest event was |
| NetworkInfo.RunsKeepMobileName | gps/core/SystemStatus.h:523-526 | every run: the cached name is that of the latest mobile event while it is not empty, or the first one without a mobile event |
| NetworkInfo.FirstItemIsListed | gps/core/data-items/DataItemConcreteTypesBase.h:285-300 | what a run starts from: the first item's table stands for a map of at most its own handle; its mask is right iff the handle is known or the type unknown |
| NetworkInfo.ConnectRefines | gps/core/SystemStatus.h:527-539 | a connect enters handle and type iff the handle is known, new, and there is room |
| NetworkInfo.DisconnectRefines | gps/core/SystemStatus.h:540-568 | a disconnect with a mask, which every known type has, removes the handle iff its stored type is the event's |
| NetworkInfo.FirstEventRefinesIff | gps/core/data-items/DataItemConcreteTypesBase.h:285-300 | the first event acts like any other on an empty map iff it is a connect or has no handle |
| NetworkInfo.FirstDisconnectIsListed | gps/core/data-items/DataItemConcreteTypesBase.h:285-300 | an input on which a disconnected handle is listed |
| NetworkInfo.DroppedIff | gps/core/SystemStatus.cpp:1360-1364 | an event is found equal to the cached item iff the connected flags agree, the table stays (its handle unknown, listed already or without room; or its entry not listed), and the names agree or the cached one is kept |
| NetworkInfo.CachedMaskIff | gps/core/SystemStatus.cpp:1360-1367 | the cached mask stays that of the listed types iff the event does not mislead, told from cached item and event alone |
| NetworkInfo.FreshMisleadsIff | gps/core/SystemStatus.h:527-577 | an event not collated before misleads iff it is not dropped and is: a connect of a known type missing in the mask that leaves the table; a disconnect of an unknown type while some type is live; or one that leaves another handle of its type while the mask has other types |
| NetworkInfo.RunsKeepMask | gps/core/SystemStatus.h:514-577 | every run without a misleading event, from a right mask on: the cached mask names exactly the known types of the listed handles |
| NetworkInfo.ConnectMaskIff | gps/core/SystemStatus.h:527-528 | the collated mask after a connect is that of the listed types iff the event's mask adds just the type that the event adds to the table |
| NetworkInfo.DisconnectMaskIff | gps/core/SystemStatus.h:570-577 | the collated mask after a disconnect is that of the listed types iff: for an empty event mask, nothing was live; with another handle of the type listed, all listed handles of known types have it; else, the event's mask takes out just the type |
| NetworkInfo.SurvivingTypes | gps/core/SystemStatus.h:540-568 | taking out a handle ends no other type's life, and its own exactly when no other handle of it is listed |
| NetworkInfo.MaskForgetsLiveType | gps/core/SystemStatus.h:570-574 | an input on which the cached mask forgets a connected type |
| NetworkInfo.MaskNamesUnlistedType | gps/core/SystemStatus.h:527-533 | an input, after a disconnect, on which the cached mask names a type that no listed handle has |
| NetworkInfo.SystemStatusNetworkInfo.Collate | gps/core/SystemStatus.h:514-585 | the array code computes the collated table, mask and access point name, leaves the array as it was iff the listing is as it was, and copies table and mask back to the reporting object |
| NetworkInfo.SystemStatusNetworkInfo.EqualTo | gps/core/SystemStatus.h:507-513 | the loop is true iff the connected flags, the whole tables and the names are equal |
| NetworkInfo.SystemStatusNetworkInfo.CacheAfter | gps/core/SystemStatus.cpp:1360-1367 | collating and comparing leave the cache with the item of the run model |
| NetworkInfo.SystemStatusNetworkInfo.FromItem | gps/core/SystemStatus.h:502-506 | a copy of a reported object, with the mask and table that earlier collations left in it |
| NetworkInfo.SystemStatusNetworkInfo.EnterHandle | gps/core/SystemStatus.h:529-539 | the connect loop |
| NetworkInfo.SystemStatusNetworkInfo.ScanTable | gps/core/SystemStatus.h:541-557 | the scan finds the length, the event's own place, and whether another handle has the type |
| NetworkInfo.SystemStatusNetworkInfo.LeaveHandle | gps/core/SystemStatus.h:540-568 | the last entry fills the place of the one that leaves |
| ReportHistory.ReportIsWindow | gps/core/SystemStatus.cpp:1354-1372 | every stream: the report is the last five items of the stream of events not ignored, each run of items equal to its first one collapsed into it |
| ReportHistory.WindowSize | gps/core/SystemStatus.cpp:1366-1370 | all of the collapsed stream while it has fewer than five items, five from then on |
| ReportHistory.NewestItemIsCurrent | gps/core/SystemStatus.cpp:1383-1391 | the item handed out is the latest event not ignored or one found equal to it, and carries its report time |
| ReportHistory.NeighboursDiffer | gps/core/SystemStatus.cpp:1360-1364 | the report has at most five items and no two neighbours found equal |
| ReportHistory.CollapseSnoc | gps/core/SystemStatus.cpp:1360-1367 | one more event refreshes the last run of the collapsed stream or starts a new one |
| ReportHistory.Report.SetItemInReport | gps/core/SystemStatus.cpp:1354-1372 | the vector code; true iff the event is a change |
| ReportHistory.Report.SetDefaultItemInReport | gps/core/SystemStatus.cpp:1374-1381 | appends the default whatever it is, and trims |

## Left out

- AgpsMachine.AgpsManager.RequestATL: the type and type mask stored on the machine are not modelled; the configuration that turns emergency types into SUPL is a parameter.
- AgpsMachine.AgpsManager.ReportAtlOpenSuccess: the bearer and access point name stored on the machine, and carried by the callbacks, are not modelled.
- AGPS: callbacks that re-enter the machine while it processes an event.
- Tracking.TrackingAdapter.StartSession: power modes are not modelled. Whether the power comparison asks for a restart is an arbitrary input, so that the interval results hold either way. The flag that says who answers the client is not modelled.
- Tracking.TrackingAdapter.UpdateSession: power modes and the answer flag, as above.
- Tracking.TrackingAdapter.StopSession: power modes and the answer flag, as above.
- Tracking.TrackingAdapter.CheckAndRestartSPESession: the restart of distance-based sessions is not modelled.
- Tracking: engine requests that fail, and `suspendSessions`, which stops the engine while sessions are live.
- SvMask.AddSourcesBits: excludes SBAS ids 208 to 246, because the source shifts by more than the word has.
- SvMask.ListRoundTrip: excludes the same ids for the same reason.
- SvMask.GnssSvIdConfig.ConvertTo: excludes the same ids for the same reason; size fields are not modelled.
- Estimator.ElapsedRealtimeEstimator.GetElapsedRealtimeEstimateNanos: times are unbounded integers, so overflow of 64-bit nanoseconds is not modelled; the retry loop that reads the two clocks is one reading that may fail.
- Adapters: what the open and close messages do when they are handled.
- TripBatching.RestartIsTimelyIff: is stated for trips that are up to date, as they are at a report; a restart after a stop uses distances of the last report.
- TripBatching: query, restart and reply are one step; batching sessions, event masks, position counts and the restart after an engine reset are not modelled.
- OsObserver: pointers, reference counts, the item factory and its copy routine; whether a reported item is handled and whether it changed are inputs.
- OsObserver: turning framework modules on and off (`turnOn`, `turnOff`).
- NetworkInfo: `resetNetworkInfo`, which replays disconnects while the history it walks changes; names of types and the roaming and available flags.
- ReportHistory: items with a collate of their own; the only one is the network item, see `NetworkInfo.dfy`.
- Geofences, network-initiated requests, lever-arm conversion, NMEA parsing, IPC, sockets, partition access, configuration files, logging, and the forwarding interfaces.
