# A verified model of the DNP3 gateway's delivery, link recovery, reading and scheduling

The gateway polls DNP3 devices, publishes each changed measurement to a message broker and keeps what the broker does not take in an outbox on disk. This project models four parts of it and proves what they promise together: a change in the field becomes exactly one message of the next online poll, and a message whose publish returned is never lost.

* **Store and forward** (`OutboxTable`, `Delivery`, `DeliveryInvariant`, `DeliveryTheorems`, `DeliveryProgress`, `Publisher`, `OutboxRetrierLoop`). `Delivery` is a step system: poll workers, one retrier, the broker, stop requests and process restarts, in any order. One call of an `Outbox` method is one step. Each publish attempt gets its reply from the environment: acknowledged, or raised, and a raised attempt may have been stored all the same. An event that is not enabled changes nothing, so a theorem over every sequence of events is a theorem over every run. The classes `Outbox`, `ResilientPublisher` and `OutboxRetrier` update their fields as the program does, and their methods are proved equal to runs of the step system.
* **Link recovery and publishing of changes** (`DeviceLink`, `LinkRecovery`, `LinkTheorems`). A device's cache with its lost / recovering / online machine, the marks of changed points, and what a consumer last saw of each signal. Frames and link callbacks may land between any two signals of a read.
* **Reading an outstation** (`DirectPlan`, `DirectTheorems`, `EventCache`, `DeviceSession`). The direct planner under any pattern of failed requests, and the event-driven session with its shared cache.
* **Scheduling** (`Scheduler`). Configuration state, due devices, the serial and the parallel cycle.
* **End to end** (`EndToEnd`). A device's poll as a method over the classes above, and the theorem that joins the parts.

`Telemetry` and `Prelude` hold the shared data types.

## What the proofs show about the code

* **The circuit breaker can latch.** With nothing under way, an open breaker can close again within the process exactly when outbox rows are left (`BreakerReopensIffRowsLeft`). One enqueue that fails with a disk error on an empty outbox reaches the other case, and then no event of that process ever closes it (`DiskErrorLatches`), although src/dnp3_gateway/poller.py:301-302 expects an automatic resume.
* **Lost is absorbing while the link stays open.** Once the grace period has run out, frames alone never bring a device back; only a link open does (`LostIsAbsorbing`, `AnsweringYetLost`). It comes back exactly when a frame follows a link open with no close and no read past the grace period in between (`OnlineIffAnsweredInTime`). src/dnp3_gateway/adapters/dnp3_yadnp3_master.py:655 describes recovery as soon as the device answers.
* **Two signals on one point.** The first takes the change mark and the second is never published. The view over all runs is sound exactly for catalogues without such a pair (`ViewSoundIffNoAlias`).
* **A frame between the calls of one loop turn** can lose an update. `LostMarkExactly` says exactly when, `LostMarkWitness` gives the frame.
* **A baseline refresh that reads nothing** still publishes the whole old cache as good, because the branch at src/dnp3_gateway/adapters/dnp3_master.py:582-591 tests the cache that is never emptied; its second half cannot be reached (`FailedBaselineRepublishes`). It publishes only what it read exactly when every catalogue point already cached was returned by some request (`BaselineFreshIff`).
* **The device timeout is a cycle timeout.** All futures share one submission time, so when it passes every pending future is given up at once (`LateTogether`, `RunParallel`).
* **A device dropped from the configuration and named again** may be read at once (`ReaddedIsReadAtOnce`); that is exactly when a device is due before its interval has passed (`DueEarlyIffDropped`).
* **A close inside a read** does not stop it: the signals it has left are published as good on a link that is down (`CloseInsideRead`). `NoFalseOnline` says exactly when the link is still up.
* **A refused change is lost.** A read clears the marks before anything is sent, so a message that neither broker nor outbox takes leaves no trace in the cache (`RefusedChangeIsLost`). src/dnp3_gateway/messaging/resilient_publisher.py:119-121 says that no data is lost silently; the raised error is all that is left of it. `PollAccepts` says exactly which messages of a poll survive.
* src/dnp3_gateway/poller.py:243-246 says that devices left over after a full outbox are marked as read; the serial path marks only the device that met the full outbox. The model follows the code: `LeftOverUnmarked` gives the run, `AllHandledIff` the exact condition.

## Model

| member | source | states |
|---|---|---|
| EndToEnd.FieldChangeIsKept | src/dnp3_gateway/poller.py:166-213 | A catalogue point whose cached value changed while no read took its signal is named by exactly one message of the next online poll, with callbacks landing inside reads too. The message is good, names the signal, the device and the gateway, and carries the value cached when the poll takes it: raw x scale + offset to within half a millionth, or the text without a number. Sent by a worker none of whose publishes raises it is accepted, and it is in the broker's log, the outbox or the dead letters in every later state |
| EndToEnd.PollDevice | src/dnp3_gateway/poller.py:148-213 | One device's poll leaves cache, publisher, outbox and broker as the read followed by the poll's run of events does, and counts the publishes that returned; without signals or with a read that raises nothing happens |
| EndToEnd.PublishReadings | src/dnp3_gateway/poller.py:177-213 | One publish per changed reading in order; only a full outbox cuts the poll short, a disk error costs one message |
| EndToEnd.PollSends | src/dnp3_gateway/poller.py:177-213 | An undisturbed poll sends a prefix of its messages, all of them unless cut short; when each publish returned none raised |
| EndToEnd.SentIsAccounted | src/dnp3_gateway/messaging/resilient_publisher.py:123-185 | In any interleaving, what a worker sent is accepted or still in its hands unless a publish of it raises or the process dies |
| EndToEnd.SentIsSettled | src/dnp3_gateway/messaging/resilient_publisher.py:123-185 | In any interleaving without a restart, what a worker sent is accepted, refused or still in its hands |
| EndToEnd.PollAccepts | src/dnp3_gateway/poller.py:177-213 | Of an undisturbed poll's messages exactly those whose publish returned are accepted, those whose publish raised are refused, and those after a full outbox are never sent |
| EndToEnd.TallyCounts | src/dnp3_gateway/poller.py:177-213 | The poll's count is the number of its publishes that returned, and it is cut short exactly when the last one found the outbox full |
| EndToEnd.QuietNeverPublishes | src/dnp3_gateway/adapters/dnp3_yadnp3_master.py:737-790 | Without a further frame an unmarked point is not published again, whatever opens, closes and reads come |
| EndToEnd.RefusedChangeIsLost | src/dnp3_gateway/messaging/resilient_publisher.py:174-185 | A change whose message is refused by broker and disk is in no log or table, and no read publishes it again until a further frame arrives |
| EndToEnd.ChangedStaysMarked | src/dnp3_gateway/adapters/dnp3_yadnp3_master.py:137-163 | A changed point keeps its mark through frames, opens, closes and reads until a read takes its signal |
| EndToEnd.MarkedIsRead | src/dnp3_gateway/adapters/dnp3_yadnp3_master.py:737-790 | An online read makes one good reading for a marked point's signal, with the value cached when the read takes it, and no other reading has that key |
| EndToEnd.NamingOne | src/dnp3_gateway/poller.py:116-141 | A changed reading whose signal occurs once becomes exactly one message of the poll |
| Telemetry.MessageCarries | src/dnp3_gateway/poller.py:116-141 | A message says what its reading says, field by field, under its own id, in payload and headers alike; a text signal carries no number |
| Telemetry.GoodMessageReports | src/dnp3_gateway/poller.py:116-141 | The message of a good reading reports raw x scale + offset to within half a millionth, or the cached text |
| Telemetry.Rounded | src/dnp3_gateway/adapters/dnp3_yadnp3_master.py:769-782 | A scaled value has six decimals and lies within half a millionth |
| Telemetry.RoundsToNearest | src/dnp3_gateway/adapters/dnp3_yadnp3_master.py:769-782 | Rounding goes to the nearest integer, ties to the even one |
| DeliveryTheorems.Conservation | src/dnp3_gateway/messaging/outbox.py:169-285 | A message whose publish returned is, after any further events and restarts, in the broker's log, the outbox or the dead letters, unchanged but for empty headers becoming absent |
| DeliveryTheorems.NothingInvented | src/dnp3_gateway/messaging/outbox.py:187-232 | Whatever is in the log or a table was handed to publish |
| DeliveryTheorems.Books | src/dnp3_gateway/messaging/outbox.py:234-285 | Rows ever inserted = pending + dead-lettered + deleted; every deleted row was acknowledged and is in the broker's log |
| DeliveryTheorems.FrontOnly | src/dnp3_gateway/messaging/outbox.py:409-461 | The outbox is a contiguous suffix of all insertions, untouched beyond its oldest row, and the snapshot row the retrier works on equals the stored oldest row |
| DeliveryTheorems.RetryBudget | src/dnp3_gateway/messaging/outbox.py:414-459 | Stored retry counts are the counted failures and stay below the limit; a row is dead-lettered exactly at its last permitted failure, with the count it had before |
| DeliveryTheorems.OutageChangesNoRow | src/dnp3_gateway/messaging/outbox.py:415-428 | However many replies of the not-ready type or with "not ready" in their text, in whatever case: no row is charged, removed or dead-lettered |
| Delivery.NotReadyIffOutage | src/dnp3_gateway/messaging/outbox.py:422-425 | An error counts as not-ready exactly when it has that type or nine consecutive characters of its text spell "not ready", in whatever case |
| DeliveryTheorems.AttemptStep | src/dnp3_gateway/messaging/outbox.py:409-461 | Each attempt that does not end not-ready strictly lowers what the rows are still owed |
| DeliveryTheorems.AttemptsBounded | src/dnp3_gateway/messaging/outbox.py:409-461 | In any run, attempts are at most what was owed at the start plus the retry limit for each new row |
| DeliveryTheorems.DrainBound | src/dnp3_gateway/messaging/outbox.py:393-461 | Without arrivals there are at most rows x limit such attempts |
| DeliveryTheorems.CounterTheorem | src/dnp3_gateway/messaging/outbox.py:187-240 | The gap between rows and estimate never grows, and rows never exceed the limit plus that gap or the number at the start |
| DeliveryTheorems.ExactCounter | src/dnp3_gateway/messaging/outbox.py:105-127 | From an empty database with successful counts the estimate is the number of rows, within the limit |
| DeliveryTheorems.FailedCount | src/dnp3_gateway/messaging/outbox.py:119-127 | After a failed initial count the estimate never exceeds the rows and the gap stays within the rows found |
| DeliveryInvariant.RunKeeps | src/dnp3_gateway/messaging/outbox.py:393-485 | Every run keeps the global invariant that makes the retrier's decisions on a stale snapshot right |
| DeliveryInvariant.CommitEffect | src/dnp3_gateway/messaging/outbox.py:414-461 | What each of the four outcomes of a retrier's attempt does to tables, counter and batch |
| DeliveryProgress.AckBatch | src/dnp3_gateway/messaging/outbox.py:409-461 | Acknowledged rows leave from the front in id order and the breaker closes |
| DeliveryProgress.PassDrains | src/dnp3_gateway/messaging/outbox.py:393-485 | A pass over a healthy broker delivers the oldest batch in order and resets the backoff |
| DeliveryProgress.HealthyBrokerDrains | src/dnp3_gateway/messaging/outbox.py:393-485 | From any reachable state with rows pending, however low the counter, the passes empty the outbox in id order, close the breaker, leave the backoff at its minimum and the counter exact |
| DeliveryProgress.AnyFairScheduleDrains | src/dnp3_gateway/messaging/outbox.py:393-485 | Under any interleaving with workers and cycles, when nothing is inserted and every published row is acknowledged, that many finished passes deliver every pending row, and one leaves the backoff at its minimum |
| DeliveryProgress.PassesRoundUp | src/dnp3_gateway/messaging/outbox.py:393-404 | Those passes are rows / batch, rounded up |
| DeliveryProgress.BreakerHolds | src/dnp3_gateway/poller.py:277-303 | While the breaker is open nothing is handed to publish until a retrier row is acknowledged |
| DeliveryProgress.OnlyAcksReopen | src/dnp3_gateway/messaging/resilient_publisher.py:138-185 | A raising publish opens the breaker, and only an acknowledged publish closes it in the same process |
| DeliveryProgress.BreakerReopensIffRowsLeft | src/dnp3_gateway/messaging/resilient_publisher.py:228-238 | With nothing under way an open breaker can close again exactly when rows are left |
| DeliveryProgress.DiskErrorLatches | src/dnp3_gateway/messaging/resilient_publisher.py:174-185 | One disk error on an empty outbox latches the breaker for the rest of the process |
| DeliveryProgress.BackoffClosedForm | src/dnp3_gateway/messaging/outbox.py:380-391 | After k consecutive failing passes the backoff is min(max, min x multiplier^k) |
| DeliveryProgress.WaitBounds | src/dnp3_gateway/messaging/outbox.py:380-388 | Each wait lies within 20% of the backoff before the step, so it passes the cap by at most 20% |
| OutboxTable.FrontRow | src/dnp3_gateway/messaging/outbox.py:234-285 | On a table in id order, lookup and removal of the oldest id hit exactly the front row |
| OutboxTable.Filed | src/dnp3_gateway/messaging/outbox.py:169-209 | A stored message keeps id, correlation, payload and headers, except that empty headers become absent |
| OutboxTable.Outbox.Enqueue | src/dnp3_gateway/messaging/outbox.py:169-209 | Full exactly when the estimate has reached the limit; full and disk errors leave everything unchanged; otherwise one row is appended and counted |
| OutboxTable.Outbox.FetchBatch | src/dnp3_gateway/messaging/outbox.py:211-232 | The oldest rows, at most `limit` |
| OutboxTable.Outbox.Delete | src/dnp3_gateway/messaging/outbox.py:234-240 | The row is gone and the counter lowered by the rows removed, never below zero |
| OutboxTable.Outbox.MarkRetry | src/dnp3_gateway/messaging/outbox.py:242-250 | One row's retry count and error change, nothing else |
| OutboxTable.Outbox.MoveToDeadLetter | src/dnp3_gateway/messaging/outbox.py:252-285 | A present row moves to the dead letters with its old retry count; an absent one changes nothing |
| OutboxTable.Outbox.PendingCount | src/dnp3_gateway/messaging/outbox.py:287-293 | The estimate |
| OutboxTable.Outbox.constructor | src/dnp3_gateway/messaging/outbox.py:96-127 | Starts on the tables found, counting them or from zero when the count fails; the limit is at least 1000 |
| Publisher.PublishIsRun | src/dnp3_gateway/messaging/resilient_publisher.py:123-185 | The three events of a publish taken together: queue, breaker, log and worker for every reply and outcome |
| Publisher.ResilientPublisher.Publish | src/dnp3_gateway/messaging/resilient_publisher.py:109-194 | A publish is the run send, settle and, when it raises, raise; the failure counter restarts on success |
| Publisher.ResilientPublisher.PublishOutboxRow | src/dnp3_gateway/messaging/resilient_publisher.py:228-238 | A row goes out as stored, and an acknowledgement closes the breaker |
| Publisher.ResilientPublisher.SetOutboxFull | src/dnp3_gateway/messaging/resilient_publisher.py:94-99 | The breaker opens and keeps the time it first opened |
| Publisher.ResilientPublisher.ClearOutboxFull | src/dnp3_gateway/messaging/resilient_publisher.py:101-107 | The breaker closes and forgets its details |
| OutboxRetrierLoop.Normalised | src/dnp3_gateway/messaging/outbox.py:333-355 | Settings below their floors are raised to them, all others kept |
| OutboxRetrierLoop.OutboxRetrier.TakeNextBackoff | src/dnp3_gateway/messaging/outbox.py:380-388 | The wait is taken from the backoff before it grows |
| OutboxRetrierLoop.OutboxRetrier.ResetBackoff | src/dnp3_gateway/messaging/outbox.py:390-391 | Back to the minimum |
| OutboxRetrierLoop.OutboxRetrier.SettleRow | src/dnp3_gateway/messaging/outbox.py:412-461 | One row is two steps of the step system: acknowledged it is deleted, in an outage left alone with the batch failed, on any other error charged, or buried when its budget is used up |
| OutboxRetrierLoop.OutboxRetrier.RunBatch | src/dnp3_gateway/messaging/outbox.py:406-461 | The loop over a batch is a run of the step system with the same replies, up to its end, a failure or a stop |
| OutboxRetrierLoop.OutboxRetrier.RunPass | src/dnp3_gateway/messaging/outbox.py:393-485 | A whole pass is a run from waiting to waiting, with the wait the run's outcome calls for; a failed fetch changes nothing |
| LinkTheorems.ViewRefinement | src/dnp3_gateway/adapters/dnp3_yadnp3_master.py:116-191 | Over every run, unless an outage stands announced, each known unmarked point was last seen with its current value; marks are on known points only |
| LinkTheorems.ViewSoundIffNoAlias | src/dnp3_gateway/adapters/dnp3_yadnp3_master.py:737-790 | The view is sound over all runs exactly when no two signals share a point |
| LinkTheorems.RepeatsNeverPublish | src/dnp3_gateway/adapters/dnp3_yadnp3_master.py:127-143 | An unmarked point of an online device that owes no refresh is never published again over any run in which the link stays, reads come within the limit of the last frame, and each frame for the point repeats its value |
| LinkTheorems.NoFalseOnline | src/dnp3_gateway/adapters/dnp3_yadnp3_master.py:641-790 | In any run, a good reading comes from a read that started on a link that was up, after a frame since the last open and stale edge, no older than the limit; when the reading is made the link is still up exactly when each close inside the read was followed by an open, and heard since its last open exactly when each open inside it was followed by a frame |
| LinkTheorems.CloseInsideRead | src/dnp3_gateway/adapters/dnp3_yadnp3_master.py:737-790 | After a close inside a read the next signal is published as good on a link that is down |
| LinkTheorems.LinkStates | src/dnp3_gateway/adapters/dnp3_yadnp3_master.py:193-257 | Not lost implies connected; an owed refresh implies online; announced and online implies an owed refresh |
| LinkTheorems.OnlineReadRefreshes | src/dnp3_gateway/adapters/dnp3_yadnp3_master.py:719-735 | The first online read after an announcement publishes every point known at its start as good before it is over, whatever callbacks land in it |
| LinkTheorems.OneAnnouncementPerOutage | src/dnp3_gateway/adapters/dnp3_yadnp3_master.py:699-735 | Between two comm-lost batches lies a whole read that publishes every known catalogue point as good, with callbacks landing anywhere, inside reads too |
| LinkTheorems.AnnouncementReachesAll | src/dnp3_gateway/adapters/dnp3_yadnp3_master.py:699-717 | The announcing read tells the consumer of every signal that communication is lost |
| LinkTheorems.MarkedIsTaken | src/dnp3_gateway/adapters/dnp3_yadnp3_master.py:737-790 | A known marked signal that a read has not reached is published good before the read is over |
| LinkTheorems.ReadPublishes | src/dnp3_gateway/adapters/dnp3_yadnp3_master.py:737-790 | Its reading stands at its place among the read's readings and carries the value cached when the read took it |
| LinkTheorems.EmissionsShape | src/dnp3_gateway/adapters/dnp3_yadnp3_master.py:737-790 | A read that runs to its end makes one reading per signal in catalogue order |
| LinkTheorems.EpisodeStartStays | src/dnp3_gateway/adapters/dnp3_yadnp3_master.py:224-237 | A silent recovery keeps its start, however often the link opens, until a read past the grace period ends it |
| LinkTheorems.GraceWindow | src/dnp3_gateway/adapters/dnp3_yadnp3_master.py:684-694 | A read more than 15 seconds after the start of a silent recovery finds it ended or ends it: the device is lost |
| LinkTheorems.LostIsAbsorbing | src/dnp3_gateway/adapters/dnp3_yadnp3_master.py:157-163 | From lost, no run without a link open comes online or publishes a good reading |
| LinkTheorems.AnswerBringsBack | src/dnp3_gateway/adapters/dnp3_yadnp3_master.py:157-163 | A frame after a silent stretch of a recovery brings the device online unless a read past the grace period ended the recovery |
| LinkTheorems.OnlineIffAnsweredInTime | src/dnp3_gateway/adapters/dnp3_yadnp3_master.py:653-690 | From lost, a run comes online exactly when the link opens and then a frame arrives, with no close in between and no read more than the grace period after that open |
| LinkTheorems.AnsweringYetLost | src/dnp3_gateway/adapters/dnp3_yadnp3_master.py:653-690 | A run that leaves a connected, answering device lost for good |
| LinkTheorems.LostMarkExactly | src/dnp3_gateway/adapters/dnp3_yadnp3_master.py:739-789 | With frames landing between the lock's sections, a signal stays covered exactly when it is unmarked as its mark is tested, or no frame for its point landed in the window, or the last one carried the value that was read |
| LinkTheorems.LostMarkWitness | src/dnp3_gateway/adapters/dnp3_yadnp3_master.py:739-789 | One frame with another value in that window loses the update |
| LinkRecovery.RunKeeps | src/dnp3_gateway/adapters/dnp3_yadnp3_master.py:116-257 | Frames, opens, closes and reads keep the machine's, the observer's and the view's invariant |
| LinkRecovery.ReadIsRun | src/dnp3_gateway/adapters/dnp3_yadnp3_master.py:622-790 | A read taken whole is the run of its start and one step per signal |
| LinkRecovery.ReadingsAreEmissions | src/dnp3_gateway/adapters/dnp3_yadnp3_master.py:737-790 | Its readings are those its steps make |
| DeviceLink.EmitExactly | src/dnp3_gateway/adapters/dnp3_yadnp3_master.py:737-790 | A signal is published exactly when its point is known, marked and not taken by an earlier signal of the read |
| DeviceLink.EmitKeepsRest | src/dnp3_gateway/adapters/dnp3_yadnp3_master.py:737-790 | A read clears exactly the marks of known catalogue points and changes nothing else |
| DeviceLink.DeviceCache.constructor | src/dnp3_gateway/adapters/dnp3_yadnp3_master.py:83-114 | A fresh cache is empty and lost |
| DeviceLink.DeviceCache.Set | src/dnp3_gateway/adapters/dnp3_yadnp3_master.py:116-163 | Stores the value; marks the point exactly when it was unknown or held another value, and every known point when the frame confirms a recovery |
| DeviceLink.DeviceCache.Get | src/dnp3_gateway/adapters/dnp3_yadnp3_master.py:165-167 | The stored value, if any |
| DeviceLink.DeviceCache.ClearDirty | src/dnp3_gateway/adapters/dnp3_yadnp3_master.py:173-175 | Removes one mark |
| DeviceLink.DeviceCache.MarkAllDirty | src/dnp3_gateway/adapters/dnp3_yadnp3_master.py:177-191 | Marks every known point and counts them |
| DeviceLink.DeviceCache.SetConnected | src/dnp3_gateway/adapters/dnp3_yadnp3_master.py:193-202 | A closed link is lost and owes nothing |
| DeviceLink.DeviceCache.BeginRecovery | src/dnp3_gateway/adapters/dnp3_yadnp3_master.py:224-237 | A recovery under way is left as it is |
| DeviceLink.DeviceCache.AgeOfRecovery | src/dnp3_gateway/adapters/dnp3_yadnp3_master.py:243-248 | Time since the start, zero outside a recovery |
| DeviceLink.DeviceCache.FailRecovery | src/dnp3_gateway/adapters/dnp3_yadnp3_master.py:250-257 | Only a recovery becomes lost |
| DeviceLink.DeviceCache.ConsumeRecoveryPublish | src/dnp3_gateway/adapters/dnp3_yadnp3_master.py:259-270 | The refresh flag is handed out once |
| DeviceLink.DeviceCache.OnOpen | src/dnp3_gateway/adapters/dnp3_yadnp3_master.py:347-354 | Connected, and recovering |
| DeviceLink.DeviceCache.OnClose | src/dnp3_gateway/adapters/dnp3_yadnp3_master.py:356-358 | Disconnected and lost |
| DeviceLink.TelemetryReader.ReadDevice | src/dnp3_gateway/adapters/dnp3_yadnp3_master.py:622-790 | Readings and cache after a read are those of the step system; a poll is requested exactly when an online device on an open link sent nothing for longer than four baselines, ten scans and a minute |
| DeviceLink.StaleAfter | src/dnp3_gateway/adapters/dnp3_yadnp3_master.py:641-645 | The limit is the longest of four baselines, ten scans and a minute |
| DeviceLink.StaleEdgeExactly | src/dnp3_gateway/adapters/dnp3_yadnp3_master.py:636-663 | A device goes stale exactly when it is online on an open link and silent for longer than each of the three |
| DeviceLink.TelemetryReader.Judge | src/dnp3_gateway/adapters/dnp3_yadnp3_master.py:641-697 | The stale edge and the end of the grace period |
| DeviceLink.TelemetryReader.EmitLoop | src/dnp3_gateway/adapters/dnp3_yadnp3_master.py:737-790 | The loop over the signals |
| DirectTheorems.TilesTile | src/dnp3_gateway/adapters/dnp3_master.py:514-552 | Chunks are consecutive, disjoint, at most the chunk size and exactly cover [lo, hi] |
| DirectTheorems.TileCount | src/dnp3_gateway/adapters/dnp3_master.py:514-552 | Their number is the span over the chunk size, rounded up |
| DirectTheorems.TwiceFailedAskedAlone | src/dnp3_gateway/adapters/dnp3_master.py:522-551 | Every wanted index of a chunk that failed twice is requested alone |
| DirectTheorems.EverySignalAttended | src/dnp3_gateway/adapters/dnp3_master.py:791-849 | Under any faults each signal's point is covered by a successful request or asked for alone |
| DirectTheorems.PlannerRefinesSingleReads | src/dnp3_gateway/adapters/dnp3_master.py:791-849 | Against a fault-free outstation the batch gives each signal what a request for its index alone would give |
| DirectTheorems.AnalogRequestsBounded | src/dnp3_gateway/adapters/dnp3_master.py:137-141 | No analog-input request asks for more than 12 points, whatever the faults |
| DirectTheorems.RequestBounded | src/dnp3_gateway/adapters/dnp3_master.py:137-141 | No request exceeds its group's chunk size |
| DirectTheorems.RangeModeCost | src/dnp3_gateway/adapters/dnp3_master.py:812-838 | Without faults a group is read one index at a time exactly when its span exceeds ratio x n; otherwise its requests ask for exactly the span, in exactly the span over the chunk size, rounded up, requests |
| DirectTheorems.ChunkRequests | src/dnp3_gateway/adapters/dnp3_master.py:520-551 | A chunk is requested once, again only after a fault, and its wanted indices alone only after two |
| DirectTheorems.DownAsksNothing | src/dnp3_gateway/adapters/dnp3_master.py:687-697 | On a connection that is down a baseline asks nothing |
| DirectTheorems.LostMidwayStops | src/dnp3_gateway/adapters/dnp3_master.py:709-735 | When the one request for a short span fails and takes the connection with it, a baseline asks nothing more |
| DirectPlan.RawOf | src/dnp3_gateway/adapters/dnp3_master.py:112-118 | A binary point is stored as 1 when set and 0 when clear, any other by its value |
| DirectPlan.ChunkSize | src/dnp3_gateway/adapters/dnp3_master.py:137-141 | Analog inputs go to 12 points at most, other groups to the configured number |
| DirectPlan.PrioritisedByRank | src/dnp3_gateway/adapters/dnp3_master.py:677-686 | A baseline reads binary inputs, analog inputs, counters, binary outputs, analog outputs, and then the rest |
| DirectPlan.LatestExactly | src/dnp3_gateway/adapters/dnp3_master.py:839-849 | A point has no latest value exactly when no successful request returned it; otherwise the value is one that was returned |
| DirectPlan.LatestIsLast | src/dnp3_gateway/adapters/dnp3_master.py:464-472 | It is what the last object returned for the point says |
| DeviceSession.DirectSampleMeans | src/dnp3_gateway/adapters/dnp3_master.py:839-849 | No change exactly when no successful request returned the point; otherwise a returned value |
| DeviceSession.Session.FillSequential | src/dnp3_gateway/adapters/dnp3_master.py:440-472 | Requests and stored values of single-index reads; failures store nothing |
| DeviceSession.Session.ReadAndStore | src/dnp3_gateway/adapters/dnp3_master.py:474-492 | One request and what it stores |
| DeviceSession.Session.TryChunkTwice | src/dnp3_gateway/adapters/dnp3_master.py:522-549 | At most two requests for a chunk, the second only after a fault; only wanted indices are stored |
| DeviceSession.Session.FillChunk | src/dnp3_gateway/adapters/dnp3_master.py:516-551 | A chunk's requests, its fallback and the values stored |
| DeviceSession.Session.FillRangeChunked | src/dnp3_gateway/adapters/dnp3_master.py:494-552 | The chunk loop makes exactly the requests of the cut and stores the latest answer for each wanted index |
| DeviceSession.Session.FillGroup | src/dnp3_gateway/adapters/dnp3_master.py:694-736 | One group by its sparse, one-range or chunked plan |
| DeviceSession.Session.FillPlans | src/dnp3_gateway/adapters/dnp3_master.py:684-736 | All groups in order while connected; each wanted point holds its latest answer or what it held, and nothing is forgotten |
| DeviceSession.Session.ReadBatchDirect | src/dnp3_gateway/adapters/dnp3_master.py:791-849 | The batch's requests are the plan's; each numeric sample is no change when they all were silent on its point and otherwise what the last object returned for it says, a set binary point as 1 and a clear one as 0 |
| DeviceSession.Session.AbsorbSignals | src/dnp3_gateway/adapters/dnp3_master.py:657-736 | A baseline's requests, inputs first, and what the shared cache holds after it |
| DeviceSession.Session.AbsorbPoll | src/dnp3_gateway/adapters/dnp3_master.py:738-756 | Each list of a poll goes to its own group, the last object for a point counts, other points stay; the points changed are returned |
| DeviceSession.Session.PollWithRetry | src/dnp3_gateway/adapters/dnp3_master.py:621-655 | The first successful of at most two attempts |
| DeviceSession.Session.PollClasses | src/dnp3_gateway/adapters/dnp3_master.py:606-614 | Classes 1, 2 and 3 in turn; changes accumulate over all three |
| DeviceSession.Session.ReadBatchEventDriven | src/dnp3_gateway/adapters/dnp3_master.py:554-619 | A batch is one step of the cache's run, a baseline exactly when the cache is empty or the interval has passed |
| DeviceSession.BaselineFreshIff | src/dnp3_gateway/adapters/dnp3_master.py:575-604 | A baseline publishes only values it read exactly when each catalogue point already cached was returned by some request of the refresh |
| DeviceSession.FailedBaselineRepublishes | src/dnp3_gateway/adapters/dnp3_master.py:575-604 | When every request of a due baseline fails, each numeric point already cached is published again as good with its old value |
| DeviceSession.Session.constructor | src/dnp3_gateway/adapters/dnp3_master.py:283-299 | A new session continues with the device's cache and timestamp |
| EventCache.ShownIsCached | src/dnp3_gateway/adapters/dnp3_master.py:554-789 | Over every run of baselines, event batches and re-created sessions, each numeric catalogue point in the cache was last published with its current value |
| EventCache.EventsPublishChanges | src/dnp3_gateway/adapters/dnp3_master.py:606-619 | An event batch publishes exactly the points some event changed, even when a later one changed them back |
| EventCache.UnchangedStays | src/dnp3_gateway/adapters/dnp3_master.py:738-756 | A point not reported as changed holds what it held |
| EventCache.ChangedExactly | src/dnp3_gateway/adapters/dnp3_master.py:742-749 | A point is reported changed exactly when some object brought a value it did not hold at that moment |
| EventCache.PollTakesOver | src/dnp3_gateway/adapters/dnp3_master.py:751-756 | What a poll leaves in the cache, group by group, in terms of its objects |
| EventCache.SampleOf | src/dnp3_gateway/adapters/dnp3_master.py:758-789 | A numeric sample is invalid exactly when its point is unknown, otherwise carries its value, and is good exactly when forced or changed |
| Scheduler.GatewayState.Update | src/dnp3_gateway/state.py:76-116 | New configuration; read times of dropped devices go, others stay; a raised nonce asks for a refresh |
| Scheduler.GatewayState.TakeRefreshRequest | src/dnp3_gateway/state.py:118-128 | The request is handed out once |
| Scheduler.GatewayState.MarkRead | src/dnp3_gateway/state.py:264-266 | One device's read time |
| Scheduler.GatewayState.DueDevices | src/dnp3_gateway/state.py:268-277 | The configured devices for which at least a second and at least the poll interval passed since the last read, in configured order |
| Scheduler.DueExactly | src/dnp3_gateway/state.py:268-277 | A device is due exactly when it is configured and at least a second and its poll interval have passed |
| Scheduler.DueConcat | src/dnp3_gateway/state.py:268-277 | Due devices stay in configured order |
| Scheduler.ReadableExactly | src/dnp3_gateway/poller.py:111-145 | All signals but commands and unknown types are polled, in catalogue order |
| Scheduler.RunSerial | src/dnp3_gateway/poller.py:305-337 | Exactly the handled prefix is marked: a stop leaves the next device out, a full outbox keeps the one that met it in |
| Scheduler.AllHandledIff | src/dnp3_gateway/poller.py:305-337 | Every due device is handled, and so marked, exactly when no stop came before one of them and none but the last met a full outbox |
| Scheduler.LeftOverUnmarked | src/dnp3_gateway/poller.py:326-334 | Of two due devices the first meets a full outbox: the second keeps its old read time |
| Scheduler.AwaitFutures | src/dnp3_gateway/poller.py:367-412 | Done, timed-out and pending always partition the futures; nothing finished is overlooked; a future is given up only after the device timeout; the loop ends, with futures left only after a stop or past the deadline |
| Scheduler.Quantum | src/dnp3_gateway/poller.py:384 | One wait lasts two seconds, or what remains of the cycle if that is less, but at least a tenth |
| Scheduler.GiveUpLate | src/dnp3_gateway/poller.py:394-411 | Exactly the pending futures that ran for the device timeout are given up and marked |
| Scheduler.LateTogether | src/dnp3_gateway/poller.py:347-360 | Futures submitted together are late together, all or none |
| Scheduler.CollectDone | src/dnp3_gateway/poller.py:414-443 | The total is the sum over completed futures, and the breaker trips exactly when one of them met a full outbox |
| Scheduler.RunParallel | src/dnp3_gateway/poller.py:339-473 | Every due device ends marked and only completed futures count; when some future timed out none is abandoned |
| Scheduler.RunPollCycle | src/dnp3_gateway/poller.py:216-473 | A cycle reads and marks a prefix of the due devices, none while the breaker is open; its total and breaker result are those of the path taken |
| Scheduler.ReadsAreSpaced | src/dnp3_gateway/state.py:264-277 | Over any run, two cycles that read a device configured all along start at least a second and at least its poll interval apart |
| Scheduler.DueEarlyIffDropped | src/dnp3_gateway/state.py:76-93 | Over any run, sooner than its interval after a read, a configured device is due again exactly when some configuration in between did not name it |
| Scheduler.ReaddedIsReadAtOnce | src/dnp3_gateway/state.py:90-93 | From any state, any device dropped by some configuration and named by the last one is read by the next cycle, whenever it was read before |

## Left out

- Scheduler.ReadsAreSpaced: distances are between the clock values the cycles were given; a device read late within a slow cycle can be read again sooner after that moment, because the code records the cycle's time.
- EndToEnd.FieldChangeIsKept: each signal of a read is one step, and the poll has one worker; a frame between the calls for one signal is the subject of LinkTheorems.LostMarkExactly.
- OutboxRetrierLoop.OutboxRetrier.RunPass: one pass with no other thread in between; interleavings are covered by the step system, over which the theorems are stated.
- LinkTheorems.NoFalseOnline: the checks that open a read, from the connection flag to the refresh flag, are one step with one clock value; a callback between them is not modelled.
- EndToEnd.PollDevice: a read that raises does so before it touches the cache, as when the device's master cannot be set up.
- DeviceSession.Session.FillGroup: the branch for errors other than the library's own, which breaks off a baseline, is not modelled.
- DeviceSession.Session.AbsorbSignals: likewise ends early only when the connection no longer stands.
- DeliveryTheorems.CounterTheorem: an insert whose commit fails after the row was written is not modelled; a failed enqueue writes nothing.
- The broker's own behaviour (acknowledgements, timeouts, duplicate detection) is reduced to the reply of each publish; duplicates stay in the log.
- SQLite is reduced to tables that change by whole method calls; other database errors in the retrier's thread and power loss are left out.
- The DNP3 protocol and its two libraries are reduced to frames, link callbacks and replies to requests. Errors other than the library's own, and closing a connection in the middle of a batch, are left out; whether the connection stands is an input.
- Floating-point numbers, time and backoff are real numbers; scaling uses exact arithmetic with rounding of ties to even, and NaN is left out.
- Message ids, correlation ids, time stamps, JSON encoding and the exact wording of errors are inputs or left out; lower-casing covers ASCII letters.
- The text of octet-string points in the direct reader, and its class 0 and integrity strategies, are left out; text signals report a constant there.
- Closing the connections of removed devices is left out of the cycle.
- Thread pools are reduced to which futures have finished by each wait; a cancelled future may run on, as in the program.
- The secondary publisher, logging, metrics, the health server, settings, the configuration cache on disk, the mock reader and command channels are left out: none carries a property over several operations.
