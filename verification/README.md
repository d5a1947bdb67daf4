# Verified model of the Stratux RB core

This project models the parts of the RB daemon (Go) and of its dump978 tools (C) whose correctness is
hardest to see in the code, and proves what they promise.

* **Priority send queue** (`PriorityOrder.dfy`, `MessageQueue.dfy`, `QueueRuns.dfy`, `Network.dfy`): the lazy,
  batch-pruned queue of `main/messagequeue.go` refines an eager one over every run, and the packets
  `collectMessages` builds are exactly the frames popped.
* **Engine alerts** (`Alerts.dfy`, `Ems.dfy`, `EmsRuns.dfy`, `EmsSteps.dfy`): over every sequence of EMS frames,
  feed checks, one-shot alerts and time passing, rule colours, stored Ids and the list of alerts agree, and each step
  changes exactly the alerts it should.
* **Flight log** (`FlightLog.dfy`, `HobbsMeter.dfy`): the GPS Hobbs meter keeps exactly the log that a
  declarative reading of the whole sample trace gives, and that reading is unique.
* **Numerical kernels** (`LeastSquares.dfy`, `Equations.dfy`, `LinearSolve.dfy`, `MagCal.dfy`, `MagCalLimits.dfy`,
  `MagCalExact.dfy`, `MagCalExamples.dfy`, `Magnetometer.dfy`, `Reals.dfy`): the two fits are the only minimisers of
  their errors and give back the line or the ellipsoid their samples lie on, Gauss-Jordan elimination solves a system
  of any size or refuses it exactly at a pivot that is too small, which bounds how narrow an accepted ellipsoid can
  be, and rotation matrices and quaternions convert exactly in all four branches.
* **Wire codecs** (`Gf2.dfy`, `Words.dfy`, `Gdl90.dfy`, `Uat2esnt.dfy`, `SetBits.dfy`): both table-driven CRCs are
  polynomial remainders (section 2.2 of the GDL 90 Data Interface Specification, 560-1058-00 Rev A, and section
  3.1.2.3.3 of ICAO Annex 10 Volume IV), byte stuffing is uniquely decodable, the bit-field writer changes its
  field only.
* **Stream buffers** (`Reader.dfy`, `RawMessage.dfy`, `SyncWord.dfy`, `Dump978.dfy`, `SampleBuffer.dfy`,
  `StreamSearch.dfy`, `StreamExample.dfy`): the line reader does not depend on how its input is split, a search of
  the samples misses no frame, however the stream is cut into passes, and the cached phase image always agrees with
  the buffered bytes.

`Options.dfy` and `Integers.dfy` hold the types they share.

Where the source updates an object or an array in place the model is a class or a method with loops, proved
against specification functions; the theorems about whole runs are lemmas about those functions.

## Conventions

float64 and float32 values are exact reals and time is an integer number of nanoseconds that never goes back.
Go maps with zero defaults are maps read through `Ems.Get`. `math.Sqrt` is a parameter `sqrt` of which only
`Reals.IsSqrt` is known: on every number that is not negative it gives the root that is not negative. One
locked section of the source is one atomic step, and the clock stands still during a call. Machine words are
integers in their range with `XorWord`, `AndWord` and `OrWord` on them.

## What turned out otherwise than documented

* A GDL90 receiver that checks the CRC misses one kind of corruption of adjacent bytes, because the last
  message byte is XORed into the low CRC byte: the same mask on the last message byte and on the CRC byte behind
  it. `Gdl90.AcceptsExactly` gives the exact condition for every position, `Gdl90.AcceptsAnother` an example.
* In `FitMagEllipsoid` the test `k <= 0` never fires (`MagCal.KIsPositive`).
* `Magnitude` promises 1 for a perfect fit. It is 1 exactly on the fitted surface when every semi-axis reaches the
  guard of `CalibrateFromMag` (`MagCal.UnitExactlyOnSurface`), and otherwise some point of the surface has another
  magnitude (`MagCal.DegenerateAxis`). The pivots keep accepted fits above the guard: of up to five million readings
  of 16 bits every accepted one is (`MagCalLimits.ReadingsAreUnit`), and in general while 8 n (n + 1) B^2 is at most
  10^18 for n samples within 1000 B, B at least 1, of their mean (`MagCalLimits.AcceptedIsRegular`). Far outside a
  fit below the guard is accepted: `MagCalExamples.GuardTripped` has twelve samples with readings of 1e-13 and 1e13.
* `FitMagEllipsoid` says that ok is false when the samples do not constrain all axes or the fit is not an ellipsoid.
  It is false as well for samples in so small a unit that a pivot is below 1e-12
  (`MagCalLimits.SmallFeatureRefused`): the samples of `MagCalExamples.SmallSphereRefused` lie on a sphere, leave no
  coefficient free and are refused.
* `solve6` says that it refuses singular systems. It refuses those, and besides them exactly the systems that come
  to a pivot which is not zero but below 1e-12 (`LinearSolve.RefusedExactly`); the diagonal system of 1e-13, 1, 1, 1,
  1, 1 is one (`LinearSolve.SmallPivotRefused`).
* The comments of `RotationMatrixToQuaternion` speak of rotations; the argument of its square root is at least 1
  in the chosen branch for any matrix, rotation or not (the precondition of `Magnetometer.Divisor`).
* The EMS invariants hold per rule name, so they do not need distinct names; only `EmsRuns.FrameConfirms`
  asks that no later rule shares the name.
* An alarm that begins before the list of alerts is created is recorded by the EMS function as if it had been
  raised, so while it lasts it is never raised (`EmsRuns.TooEarly`). The daemon creates the list first.
* `process_buffer` returns a negative count exactly when it is given fewer than 8976 samples
  (`Dump978.ProcessBuffer`). `process_data` is not made for that, and `SampleBuffers.SampleBuffer.ProcessData` stops
  there with `ok == false`; whether it does is the fold `Processed` over the data. Data that fits behind the bytes
  left is fine exactly from 17952 bytes in all (`SampleBuffers.OnePass`), and chunks of whole pairs of samples up
  to the 113120 bytes its comment names always fit (`SampleBuffers.SampleBuffer.AlignedChunks`).
* `process_buffer` leaves the samples it has not finished with to its caller so that no state is kept between calls.
  For every position whose 36 signs lie behind the frames found before it that is so, however the stream is cut into
  calls and passes (`StreamSearch.StreamMissesNothing`). In the 35 positions behind a frame it is not: the next pass
  begins there with empty registers, one search would still hold bits from before the frame, and the two can find
  different frames (`StreamExample.CutDisagrees`).
* In `process_buffer` the signal strength of an uplink frame found at the second of the two samples is measured from
  the first (`Dump978.Best`).
* Overlong lines need no exception: what a line of 4096 characters or more leaves behind is also independent of
  how the input was split (`Reader.FrameReader.ReadFrames`).

## Model

| member | source | states |
|---|---|---|
| PriorityOrder.UsableOrdered | main/messagequeue.go:103-119 | leaving out expired entries keeps the queue ordered by priority |
| PriorityOrder.UsableConcat | main/messagequeue.go:103-119 | what is live of two lists together is what is live of each, in order |
| PriorityOrder.UsableOne | main/messagequeue.go:108 | an entry is live exactly until the clock passes its outdatedAt |
| PriorityOrder.InsertOrdered | main/messagequeue.go:182-190 | an entry put behind the last one of its priority or a more urgent one keeps the order |
| PriorityOrder.InsertAt | main/messagequeue.go:55-62 | splicing an entry in at the first larger priority number is the ordered insertion |
| PriorityOrder.UsableInsert | main/messagequeue.go:41-63 | dropping expired entries and inserting a live one commute, so the lazy list and the eager queue insert alike |
| PriorityOrder.UsableLater | main/messagequeue.go:103-108 | entries that expire later can be dropped at any time: filtering now and then is filtering then |
| PriorityOrder.TrimLength | main/messagequeue.go:156-171 | pruning leaves exactly min(live entries, maxSize), none for a negative size |
| PriorityOrder.TrimCuts | main/messagequeue.go:158-171 | pruning keeps everything more urgent than some priority, the newest entries of that priority and nothing less urgent |
| PriorityOrder.TrimDominates | main/messagequeue.go:135-137 | pruning is the only selection of its size in which a dropped entry is never more urgent than a kept one, nor newer at the same priority; survivors keep their order |
| MessageQueues.SkipStaleUsable | main/messagequeue.go:103-119 | dropping the stale front loses no live entry and leaves the front live |
| MessageQueues.PutsInBatches | main/messagequeue.go:65-68 | a Put that leaves 10 times the length within 11 times maxSize only inserts; one beyond leaves exactly min(live entries, maxSize) |
| MessageQueues.MessageQueue.constructor | main/messagequeue.go:33-39 | a new queue is empty and open |
| MessageQueues.MessageQueue.Put | main/messagequeue.go:41-72 | inserts with the expiry computed from the clock; with 10 * (length + 1) <= 11 * maxSize removes nothing, beyond that leaves exactly min(live entries, maxSize); does nothing when closed |
| MessageQueues.MessageQueue.FindInsertPosition | main/messagequeue.go:182-190 | binary search finds the first entry with a larger priority number, the end if there is none |
| MessageQueues.MessageQueue.PeekFirst | main/messagequeue.go:74-76 | answers the most urgent, oldest live entry and loses no live entry |
| MessageQueues.MessageQueue.PopFirst | main/messagequeue.go:79-81 | answers that entry and removes exactly it from the live entries |
| MessageQueues.MessageQueue.GetFirst | main/messagequeue.go:83-100 | strips the queue up to the first live entry, with it when removing; empty without one |
| MessageQueues.MessageQueue.GetFirstUsableIndex | main/messagequeue.go:103-119 | index of the first live entry, or -1 with the list emptied |
| MessageQueues.MessageQueue.GetQueueDump | main/messagequeue.go:121-133 | the data of all entries in order, after pruning when asked |
| MessageQueues.MessageQueue.Close | main/messagequeue.go:199-205 | closes the queue and keeps its entries |
| MessageQueues.MessageQueue.Prune | main/messagequeue.go:138-180 | the list becomes the trimmed list of its live entries |
| MessageQueues.MessageQueue.GroupByPriority | main/messagequeue.go:140-155 | splits the live entries into non-empty groups of rising priority, in order, and counts them |
| MessageQueues.MessageQueue.DropOldest | main/messagequeue.go:156-171 | removing from the groups back to front is trimming the concatenated list |
| QueueRuns.LazyRefinesEager | main/messagequeue.go:41-119 | over every run of Put, Peek, Pop, Close and clock advance the unexpired entries equal an eager priority queue, and Peek and Pop answer as it does |
| QueueRuns.NothingLostBelowCapacity | main/messagequeue.go:156-171 | no live entry is lost while at most maxSize are live |
| QueueRuns.LengthBounded | main/messagequeue.go:65-68 | after every run ten times the length is at most eleven times maxSize, or the list is empty |
| QueueRuns.ArrivalOrder | main/messagequeue.go:183-187 | over every run live entries stay ordered by priority and, within one, by insertion |
| QueueRuns.EntriesFromPuts | main/messagequeue.go:48-49 | over every run each entry has the priority of the Put that brought it and expires maxAge after it |
| QueueRuns.AnswersMostUrgentOldest | main/messagequeue.go:83-100 | after any run the answer is what some Put brought at most its maxAge ago, and no entry that has not expired is more urgent, or as urgent and older; there is none exactly when all entries have expired |
| Network.CollectMessages | main/network.go:531-562 | the packet is the concatenation of a prefix of the live queue in priority order, what is left is the rest; asleep only priorities of -10 or below leave, awake an entry of positive priority leaves only if one of the two draws of IsThrottled for it is false; it ends only when nothing is left, the next entry has to wait or it may not fit |
| Network.EstimateGrows | main/network.go:551-554 | the estimate of the next message starts at 0, and a message longer than it replaces it by the length of the packet so far |
| Network.EstimateBetween | main/network.go:551-554 | it lies between the longest message and the packet |
| Network.PacketFilled | main/network.go:555-558 | a packet is longer than desired only when its last message is longer than all before it, and ends for want of room only when more than half full |
| Network.WhoLeaves | main/network.go:534-545 | asleep nothing above priority -10 leaves and nothing of -10 or below waits; awake nothing of priority 0 or below waits, and with all draws throttling nothing above 0 leaves |
| Network.PacketDeframes | main/network.go:531-562 | a packet built from prepared messages deframes to exactly their payloads, in the order popped |
| Gf2.RemIsRemainder | main/gen_gdl90.go:244-269 | the shift register computes a remainder: message times x^n is quotient times generator plus register |
| Gf2.RemainderUnique | main/gen_gdl90.go:244-269 | and there is only one remainder of that length |
| Gf2.FeedByTable | main/gen_gdl90.go:263-269 | clocking a byte through the register is one table step, for any generator |
| Gf2.BurstDetected | main/gen_gdl90.go:263-269 | two messages that differ only in a stretch no longer than the register have different remainders |
| Gdl90.PolyConstant | main/gen_gdl90.go:254 | x^16 + x^12 + x^5 + 1 is the constant 0x1021 |
| Gdl90.CrcTable.constructor | main/gen_gdl90.go:245-260 | each table entry is the remainder of its byte |
| Gdl90.CrcTable.CrcCompute | main/gen_gdl90.go:263-269 | the table loop computes the remainder of the message polynomial, for every length |
| Gdl90.CrcBits | main/gen_gdl90.go:263-269 | the bits of that CRC are the bit-serial remainder |
| Gdl90.CrcIsTheRemainder | main/gen_gdl90.go:263-269 | and no other string of 16 bits is a remainder of the message |
| Gdl90.CrcLinear | main/gen_gdl90.go:263-269 | the CRC is XOR-linear on messages of equal length |
| Gdl90.CrcDetectsTwoBytes | main/gen_gdl90.go:263-269 | any change confined to two adjacent bytes changes the CRC |
| Gdl90.CrcTable.PrepareMessage | main/gen_gdl90.go:271-293 | produces the flagged, escaped frame of the message with its CRC, low byte first |
| Gdl90.CrcTable.CopyEscaped | main/gen_gdl90.go:280-288 | the copying loop is byte stuffing |
| Gdl90.StuffedHasNoFlag | main/gen_gdl90.go:280-288 | no flag byte occurs inside a frame |
| Gdl90.ReceiveFrame | main/gen_gdl90.go:271-293 | a deframer recovers exactly data plus CRC from one frame |
| Gdl90.ReceiveFrames | main/gen_gdl90.go:271-293 | and from any concatenation of frames, all payloads in order |
| Gdl90.AcceptsExactly | main/gen_gdl90.go:271-276 | a receiver that checks the CRC accepts a two-byte corruption exactly when it hits the last message byte and the first CRC byte with one mask |
| Gdl90.AcceptsMessage | main/gen_gdl90.go:271-276 | corruption of two adjacent message bytes is never accepted |
| Gdl90.AcceptsChecksum | main/gen_gdl90.go:274-276 | corruption of the CRC bytes alone is never accepted |
| Gdl90.AcceptsAnother | main/gen_gdl90.go:271-276 | the payload 00 00 00 of the message 00, received as 01 01 00, is accepted as the message 01 |
| Words.BitsOfXor | main/gen_gdl90.go:256 | the word XOR is the XOR of the bits |
| Words.MessageBitsConcat | main/gen_gdl90.go:265-267 | the bits of concatenated messages are concatenated |
| Uat2esnt.PolyConstant | dump978/uat2esnt.c:562 | the Mode S generator polynomial is the constant 0xfff409 |
| Uat2esnt.CrcTables.constructor | dump978/uat2esnt.c:568-583 | each table entry is the remainder of its byte |
| Uat2esnt.CrcTables.Checksum | dump978/uat2esnt.c:585-596 | the table checksum is the bit-serial Mode S remainder, for every length |
| Uat2esnt.CrcTables.CompleteFrame | dump978/uat2esnt.c:598-605 | writes checksum XOR parity into the last three bytes and nothing else |
| Uat2esnt.CompletedRemainder | dump978/uat2esnt.c:598-605 | the remainder of a completed frame is the low 24 bits of the parity: zero for parity 0 |
| SetBits.Write | dump978/uat2esnt.c:33-52 | the byte-wise masking writes exactly the bits firstbit..lastbit of the frame, the low bits of the value |
| SetBits.Registers | dump978/uat2esnt.c:41-43 | which bits of the 32-bit registers the mask clears and the shifted value sets |
| SetBits.ReadsBack | dump978/uat2esnt.c:33-52 | fields written into disjoint ranges all read back |
| SetBits.Untouched | dump978/uat2esnt.c:33-52 | bits outside every field stay as they were |
| SetBits.WriteOrder | dump978/uat2esnt.c:33-52 | the order in which disjoint fields are written does not matter |
| Alerting.IdIsDigits | main/alerts.go:257-259 | the Id is HHMMSScc of the centisecond of the day |
| Alerting.IdSeparates | main/alerts.go:250-256 | two instants have the same Id exactly when they fall into the same centisecond of a day |
| Alerting.FreeIdExists | main/alerts.go:257-265 | a list with fewer than 8640000 alerts always has a free Id among the steps of 10 ms |
| Alerting.DistinctIdsNeedAlerts | main/alerts.go:257-265 | that many different Ids need that many alerts |
| Alerting.SearchNeverEnds | main/alerts.go:257-265 | when a day of steps finds no free Id, the loop of the source never ends |
| Alerting.NextFree | main/alerts.go:257-265 | the Id found is not in the list |
| Alerting.FirstFree | main/alerts.go:257-265 | it is the Id of the first step of 10 ms, from the given time on, whose Id no alert has |
| Alerting.UpdateLast | main/alerts.go:228-248 | the newest alert with the Id, and only it, takes the update |
| Alerting.UpdateNone | main/alerts.go:247 | an update for an Id not in the list changes nothing |
| Alerting.Alerts.PushEvent | main/alerts.go:182-219 | an event with a timestamp is appended under a free Id, one without updates, nothing happens before the list exists |
| Alerting.Alerts.UpdateEvent | main/alerts.go:228-248 | copies Active, and while active moves the end to now and adds the time in the condition; answers the Id or -1 |
| Alerting.Alerts.NewEventId | main/alerts.go:257-265 | terminates whenever a free Id exists, with the first one from the given time on |
| Alerting.Alerts.HasEventId | main/alerts.go:267-274 | true exactly when an alert has the Id |
| Ems.RuleValue | main/ems.go:196-226 | the loops compute the value of the rule algorithm over the probes received; not ok without probes or for an unknown algorithm |
| Ems.ReceivedConcat | main/ems.go:197-202 | the values received for two lists of probes are those of the first, then those of the second |
| Ems.ReceivedOne | main/ems.go:198-200 | one probe gives its value, or nothing when it has not been received |
| Ems.SumConcat | main/ems.go:206-208 | sums add up |
| Ems.AverageAddsUp | main/ems.go:212 | the average is the one number that makes up the sum when taken once for each value |
| Ems.ValueOfIsRuleValue | main/ems.go:213-225 | average, max, min and averageDiff are the mean, an upper and a lower bound that are attained, and the largest deviation from the mean |
| Ems.AverageBetween | main/ems.go:206-212 | the average lies between the smallest and the largest probe |
| Ems.RuleColor | main/ems.go:230-239 | red exactly when a band of colour red holds the value, bounds included; yellow exactly when one of colour yellow does and none of red; green exactly when one of green does and none of the others |
| Ems.MostSevere | main/ems.go:228-239 | the colour of a value in terms of the bands of the rule alone |
| Ems.EmsPlugin.constructor | main/ems.go:111-120 | nothing recorded at the start |
| Ems.EmsPlugin.ValidateRules | main/ems.go:249-279 | one frame takes the state through the steps of all rules, in order, whether or not the list of alerts exists |
| Ems.EmsPlugin.Evaluate | main/ems.go:258-277 | one rule: the colour left is closed first, then the alert is raised, reopened or confirmed |
| Ems.EmsPlugin.CheckFeed | main/ems.go:285-298 | raises, keeps or closes the feed alert as silence, feedLost and the rule colours say |
| Ems.EmsPlugin.RuleInAlarm | main/ems.go:301-308 | true exactly when some recorded colour is yellow or red |
| EmsRuns.IdentInjective | main/ems.go:272 | different rules or colours never share an identifier |
| EmsRuns.RuleKinds | main/alerts.go:160-165 | the alert of a rule gets the type of its colour, whatever the rule is called |
| EmsRuns.EnterColorKeeps | main/ems.go:258-277 | the step of one rule keeps all invariants, and leaves the rule in its colour with its alert ending now |
| EmsRuns.FeedCheckKeeps | main/ems.go:285-298 | so does the feed watchdog |
| EmsRuns.RunKeeps | main/ems.go:241-298 | every sequence of frames, feed checks, one-shot alerts and waits keeps the invariants |
| EmsRuns.StoredAlert | main/ems.go:241-248 | the alert stored for a rule and a colour is on the list and active exactly while that is the recorded colour; superseded alerts are inactive |
| EmsRuns.OneActiveAlertPerRule | main/ems.go:263-266 | a rule never shows two active alerts |
| EmsRuns.FeedAlertActive | main/ems.go:281-298 | a feed alert is active exactly while feedLost, and it is the one stored |
| EmsRuns.AlertsOverARun | main/ems.go:262-277 | over every run Ids are distinct, raises for one rule and colour are at least five minutes apart, and 0 <= ActiveSeconds <= TimestampEnd - Timestamp with no end in the future |
| EmsRuns.FrameConfirms | main/ems.go:241-248 | after a frame a rule whose value lies in a red band is recorded red, else in a yellow one yellow, else in a green one green; in red and yellow it has an active alert of that colour ending at this frame; the frame is stamped |
| EmsSteps.EntersAlarm | main/ems.go:245-277 | entering yellow or red closes the alert of the colour before and changes nothing else of it; when no alert of the new colour was raised in the last five minutes one is appended, active from now on, else the newest is reopened and ends now, without counting the gap; nothing else changes |
| EmsSteps.StaysInAlarm | main/ems.go:242-276 | a rule staying in its colour moves the end of its alert, counts the time, and changes nothing else |
| EmsSteps.TurnsGreen | main/ems.go:263-271 | green closes the alert of the colour before and raises nothing |
| EmsSteps.OutsideEveryBand | main/ems.go:251-257 | without a value, or with one outside every band, a rule changes nothing |
| EmsSteps.PollExactly | main/ems.go:285-298 | after a poll feedLost holds exactly when frames came, the last one five seconds ago or more, and it held before or some rule is recorded yellow or red; with it one active alert comes, ends now while it lasts, and becomes inactive when it ends; nothing else changes |
| EmsSteps.LastFrameOfRun | main/ems.go:252 | over every run silence is measured from the last frame of the run |
| EmsRuns.RunFinishes | main/alerts.go:257-265 | no step of a run hangs before the list could hold 8640000 alerts |
| EmsRuns.TooEarly | main/ems.go:258-277 | an alarm entered before the list of alerts exists is recorded with the Id -1 and not raised, and no later frame raises it while it lasts |
| FlightLog.LogIsUnique | main/hobbsmeter.go:38-45 | there is only one way to cut a trace into flights: five consecutive accurate fast seconds open one, sixty consecutive slow ones close it |
| FlightLog.LogIsFound | main/hobbsmeter.go:222-287 | reading the samples one by one finds that log |
| FlightLog.FlightOfLog | main/hobbsmeter.go:38-45 | every flight of a log starts and ends by those rules |
| FlightLog.FlightFields | main/hobbsmeter.go:236-272 | the entry of a flight has the time, latitude, longitude and altitude of its first sample and of the first of its sixty slow samples, and a sixtieth of its samples above 50 km/h as minutes |
| FlightLog.EntryWrittenOut | main/hobbsmeter.go:236-272 | so has an open flight, with the landing fields of the last sample at which the speed fell to 50 km/h or below, if any |
| FlightLog.KeptExactly | main/hobbsmeter.go:279-283 | a flight stays in the log exactly when it has sixty samples above 50 km/h |
| FlightLog.NoTakeoffLeftOut | main/hobbsmeter.go:38-45 | five accurate fast samples in a row always end within a flight of the log or the open one |
| FlightLog.Takeoff | main/hobbsmeter.go:227-252 | on the ground one more sample opens a flight exactly when the last five are accurate and fast |
| FlightLog.Airborne | main/hobbsmeter.go:253-286 | in flight one more sample extends the open entry, or closes the flight exactly when the last sixty are slow; it is kept with a minute above the threshold |
| FlightLog.TotalNeverDecreases | main/hobbsmeter.go:279-283 | the total never decreases although flights are dropped, and gains at most one minute a second |
| FlightLog.MinutesWereFlown | main/hobbsmeter.go:253-254 | 60 times the minutes of the log never exceed the fast samples seen |
| FlightLog.KeptMinutes | main/hobbsmeter.go:279-283 | a dropped flight held no minutes |
| FlightLog.RunsDecide | main/hobbsmeter.go:245-275 | the debounce counters decide takeoffs and landings |
| HobbsMeters.OnGround | main/hobbsmeter.go:227-252 | the takeoff branch in terms of the counter above |
| HobbsMeters.InAir | main/hobbsmeter.go:253-286 | the flying branches in terms of the counters below and legSeconds |
| HobbsMeters.HobbsMeter.constructor | main/hobbsmeter.go:137-171 | the log starts as the file read; a file that does not parse makes it read-only |
| HobbsMeters.HobbsMeter.Save | main/hobbsmeter.go:175-196 | a successful write stores the whole log and clears dirty; read-only or failed changes nothing |
| HobbsMeters.HobbsMeter.Update | main/hobbsmeter.go:222-287 | the entries stay the loaded ones followed by the log of the trace; invalid samples change nothing; true exactly when a flight closes |
| HobbsMeters.HobbsMeter.FastSecond | main/hobbsmeter.go:226-257 | the half above the threshold |
| HobbsMeters.HobbsMeter.Debounce | main/hobbsmeter.go:227-252 | builds up the takeoff and opens the flight with the departure of its first sample |
| HobbsMeters.HobbsMeter.Cruise | main/hobbsmeter.go:234-235 | in flight a poor fix still counts |
| HobbsMeters.HobbsMeter.CountSecond | main/hobbsmeter.go:253-255 | counts the second and brings the log up to date |
| HobbsMeters.HobbsMeter.SlowSecond | main/hobbsmeter.go:259-286 | the half at or below the threshold |
| HobbsMeters.HobbsMeter.TotalMinutes | main/hobbsmeter.go:290-296 | the sum of the minutes of all entries |
| HobbsMeters.HobbsMeter.Tick | main/hobbsmeter.go:314-326 | one second: saves at a landing, and every 300 seconds when dirty |
| HobbsMeters.HobbsMeter.ListenerFunc | main/hobbsmeter.go:312-329 | over any run the log after each second is that of the trace so far, and when the last periodic flush succeeded the file holds the log of some second since then |
| HobbsMeters.HobbsMeter.ShutdownFunc | main/hobbsmeter.go:337-349 | a shutdown whose write succeeds leaves the file up to date |
| LeastSquares.NormalMinimises | common/equations.go:19-20 | a solution of the normal equations has the least weighted squared error of all vectors, for any number of unknowns and samples |
| LeastSquares.SameErrorSolves | common/equations.go:19-20 | and every other vector with that least error solves the normal equations too |
| LeastSquares.ErrorAtSolution | common/equations.go:19-20 | away from a solution the error grows by exactly the weighted squares of the change at the samples |
| LeastSquares.GradientIsNormal | common/equations.go:67-111 | half the derivative of the error is the normal matrix times the vector less the right-hand side |
| Equations.LinRegWeighted | common/equations.go:63-111 | a line satisfies the two normal equations of the weighted points; none is given exactly for unequal lengths, fewer than two points, a zero total weight or a zero determinant |
| Equations.LinReg | common/equations.go:21-56 | the unit-weight case of the same |
| Equations.FromSums | common/equations.go:94-110 | no line exactly for a zero total weight or a zero determinant, else one that satisfies both normal equations of the sums |
| Equations.FitUnique | common/equations.go:63-111 | the points and weights determine that answer |
| Equations.FitIsBest | common/equations.go:58-62 | with weights that are not negative no line has a smaller weighted squared error, and no other line has the same |
| Equations.LineRecovered | common/equations.go:21-111 | points on a line give back exactly that line, as soon as two of positive weight have different x |
| Equations.FitExists | common/equations.go:58-62 | there is a line exactly when two points of positive weight have different x, so there is no division by zero |
| Equations.UnweightedFitExists | common/equations.go:43-46 | without weights: exactly when two x differ |
| Equations.DeterminantIsPairs | common/equations.go:99-102 | the determinant is the sum of w w' (x - x')^2 over all pairs (identity of Lagrange) |
| LinearSolve.SwapKeeps | common/magcal.go:170 | swapping rows keeps the solutions, and the combinations of columns that vanish |
| LinearSolve.ColumnClearedKeeps | common/magcal.go:171-179 | subtracting multiples of the pivot row from all other rows keeps them too |
| LinearSolve.ColumnClearedClears | common/magcal.go:171-179 | and leaves zeros in the column off the diagonal, and the columns before it cleared |
| LinearSolve.AfterKeeps | common/magcal.go:160-180 | while no pivot is zero, elimination clears one column after the other and keeps the solutions |
| LinearSolve.ClearedSolution | common/magcal.go:181-183 | a fully cleared system has exactly one solution, read off its diagonal |
| LinearSolve.FindPivot | common/magcal.go:161-166 | the first row of largest magnitude from the diagonal down |
| LinearSolve.SwapRows | common/magcal.go:170 | the swap |
| LinearSolve.EliminateRow | common/magcal.go:175-178 | the inner loop is the whole row operation, since the pivot row is clear on the left |
| LinearSolve.ClearColumn | common/magcal.go:171-179 | the in-place loops subtract the pivot row from every other row as often as it goes |
| LinearSolve.Eliminate | common/magcal.go:160-180 | ok exactly when every pivot of the elimination is at least 1e-12 in magnitude, and then the matrix is the eliminated one |
| LinearSolve.Load | common/magcal.go:153-159 | the augmented matrix |
| LinearSolve.ReadOff | common/magcal.go:181-183 | the quotients on the diagonal |
| LinearSolve.Solve | common/magcal.go:150-185 | ok exactly when every pivot is at least 1e-12 in magnitude, and then A x = b with x the only solution |
| LinearSolve.SingularExactly | common/magcal.go:150-151 | a system is singular exactly when elimination comes to a pivot of zero |
| LinearSolve.RefusedExactly | common/magcal.go:167-169 | refused are exactly the singular systems and those that come to a pivot that is not zero but below 1e-12 in magnitude |
| LinearSolve.SmallPivotRefused | common/magcal.go:167-169 | the system of six unknowns with 1e-13, 1, 1, 1, 1, 1 on its diagonal is not singular, has exactly one solution and is refused |
| LinearSolve.AfterGrows | common/magcal.go:160-180 | with the largest entry as pivot, clearing c columns makes the entries of the rows that remain at most 2^c times as large |
| LinearSolve.PivotAtMost | common/magcal.go:160-169 | so the pivot of column c is at most 2^c times the largest entry of that column |
| LinearSolve.SmallColumnRefused | common/magcal.go:167-169 | and a system with a column c of entries all below 1e-12 / 2^c is refused |
| LinearSolve.SolvableExactly | common/magcal.go:150-151 | a system has exactly one solution exactly when it is not singular |
| LinearSolve.SingularHasMore | common/magcal.go:150-151 | a singular system has no only solution |
| MagCal.MeanOf | common/magcal.go:110-118 | the mean of the samples |
| MagCal.NormalEquations | common/magcal.go:121-134 | ata and atb are the normal equations of the fit |
| MagCal.Accumulate | common/magcal.go:128-133 | one sample adds its outer product |
| MagCal.CalibrationFrom | common/magcal.go:136-147 | centre and semi-axes from the coefficients, refused unless a, b, c are positive |
| MagCal.KIsPositive | common/magcal.go:141-144 | k is at least 1, so the guard is dead |
| MagCal.FitMagEllipsoid | common/magcal.go:97-148 | ok exactly when there are at least 12 samples, the pivots of their normal equations suffice and the only minimiser of the squared residuals describes an ellipsoid, and then the calibration is that of the minimiser; never ok when the samples leave some combination of the coefficients free |
| MagCal.OneFit | common/magcal.go:136 | the samples have at most one such minimiser |
| MagCal.SolutionMinimises | common/magcal.go:136 | the one solution of the normal equations is the one vector of least error |
| MagCal.SingularIsUnconstrained | common/magcal.go:121-136 | the normal equations are singular exactly when the samples leave some combination of the coefficients free |
| MagCal.UnitExactlyOnSurface | common/magcal.go:50-57 | while no semi-axis is below the guard, Magnitude is 1 exactly on the fitted surface |
| MagCal.DegenerateAxis | common/magnetometer.go:268-278 | with a semi-axis below the guard some point of the surface has another magnitude |
| MagCalExact.OnlyMean | common/magcal.go:110-118 | the mean is the one point from which the samples deviate by nothing in all, along every axis |
| MagCalExact.MovedFit | common/magcal.go:106-148 | moving all samples by a vector leaves the solvability and the coefficients as they are and moves the centre by that vector |
| MagCalExact.EllipsoidRecovered | common/magcal.go:91-148 | samples on an ellipsoid along the axes, wherever it lies, give back exactly its centre and semi-axes whenever their fit is solved |
| MagCalExact.MagnitudeExactly | common/magcal.go:50-57 | the square of the magnitude is the sum of the squared distances from the centre in semi-axes, so it is 1 exactly on the ellipsoid |
| MagCalLimits.SmallFeatureRefused | common/magcal.go:121-136 | samples of which one entry of the fit stays so small that 2^c times the bound on column c of their normal equations is below 1e-12 are refused |
| MagCalLimits.SolvableSpreads | common/magcal.go:84-98 | what an accepted fit says of its samples: on every axis c some sample has x^2 of at least 1e-12 / (2^c n B^2), all within B of the mean in the scaled coordinates |
| MagCalLimits.FittedIsClose | common/magcal.go:136 | the minimiser of n samples stays below n + 1 at each of them |
| MagCalLimits.ReachesOut | common/magcal.go:140-146 | an ellipsoid that stays below n + 1 at a point reaches at least x^2 / (2 (n + 1)) along each axis, squared |
| MagCalLimits.AcceptedIsRegular | common/magcal.go:97-148 | no accepted fit has a semi-axis below the guard while 8 n (n + 1) B^2 is at most 10^18 |
| MagCalLimits.AcceptedIsUnit | common/magcal.go:50-57 | and then Magnitude is 1 exactly on its surface |
| MagCalLimits.ReadingsAreUnit | common/magcal.go:50-57 | which holds of every accepted fit of up to five million readings of 16 bits |
| MagCalExamples.TwelveSolvable | common/magcal.go:121-136 | the normal equations of a family of twelve samples, six points taken twice with coordinates e and l, have pivots that suffice exactly when 4 e^2 l^2 and 4 e l are at least 1e-12 |
| MagCalExamples.NarrowAccepted | common/magcal.go:97-148 | where e is at most 1e-16 and e l at least 1e-6 they are accepted with a semi-axis below the guard |
| MagCalExamples.GuardTripped | common/magnetometer.go:268-278 | twelve accepted samples and a point of the surface fitted to them whose magnitude is not 1 |
| MagCalExamples.TwelveDetermine | common/magcal.go:98-103 | those samples leave no combination of the coefficients free |
| MagCalExamples.SmallSphereRefused | common/magcal.go:99-100 | twelve samples on a sphere about the origin that leave no coefficient free are refused, in a unit that makes its radius 0.0141 |
| Reals.RootOf | common/magnetometer.go:81 | the root of the square of a number that is not negative is that number |
| Magnetometer.RotationOfProduct | common/magnetometer.go:93-102 | R(a (x) b) = R(a) R(b): rotating by the product is rotating by b, then by a |
| Magnetometer.VectorProduct | common/magnetometer.go:93-102 | the product is the one of Hamilton: of two vectors it is their cross product less their dot product |
| Magnetometer.TurnsVectors | common/magnetometer.go:88-114 | the matrix turns a vector as conjugating it by the quaternion does |
| Magnetometer.TurnSense | common/magnetometer.go:107-114 | in the sense of the right hand about its axis |
| Magnetometer.QuaternionOfRotation | common/magnetometer.go:116-155 | for every proper rotation the result is a unit quaternion whose matrix is exactly that rotation |
| Magnetometer.UnscaledHasProducts | common/magnetometer.go:127-152 | in each of the four branches all squares and products of the components are those of the rotation |
| Magnetometer.Divisor | common/magnetometer.go:129 | the square root of the chosen branch is positive |
| Magnetometer.RoundTrip | common/magnetometer.go:116-155 | matrix and back gives a unit quaternion or its negative |
| Magnetometer.SameRotation | common/magnetometer.go:107-114 | two unit quaternions of one rotation differ at most in sign |
| Magnetometer.UnitQuaternionRotates | common/magnetometer.go:107-114 | the matrix of a unit quaternion is a proper rotation |
| Magnetometer.UnitStays | common/magnetometer.go:80-86 | re-scaling a unit quaternion changes nothing |
| Magnetometer.UnitExactly | common/magnetometer.go:78-86 | re-scaling gives the unit quaternion along q, the identity for one shorter than a millionth |
| Magnetometer.AcceptedCanOrthonormalize | common/magnetometer.go:174-208 | every accepted mapping can be orthonormalized without dividing by zero |
| Magnetometer.OrthonormalizeIsRotation | common/magnetometer.go:195-208 | the result of Gram-Schmidt is an exact proper rotation |
| Magnetometer.OrthonormalizeExactly | common/magnetometer.go:195-208 | the only rotation whose first row is along the first row given, and whose second is in the plane of the first two, on the side of the second |
| Magnetometer.AcceptedExactly | common/magnetometer.go:163-192 | a mapping is accepted exactly when its rows are orthonormal and its determinant is 1 to within 0.01 |
| Magnetometer.MappingQuaternion | common/magnetometer.go:210-224 | every accepted mapping becomes a unit quaternion that rotates exactly by the orthonormalized rows |
| Magnetometer.ExactMapping | common/magnetometer.go:210-224 | an exact rotation is accepted and kept, 180-degree mountings included |
| Magnetometer.ReflectionRejected | common/magnetometer.go:215-221 | a reflection has no quaternion and is reported |
| Reader.FeedSplits | dump978/reader.c:59-96 | reading a stream in two parts is reading it whole |
| Reader.FeedLine | dump978/reader.c:112-123 | a line of fewer than 4096 characters gives its frame and leaves nothing |
| Reader.FeedAnyLine | dump978/reader.c:59-133 | a line of any length gives the frame of what is left of it once every 4096 characters are thrown away |
| Reader.LineExactly | dump978/reader.c:135-172 | a line is a frame exactly when it begins with - or +, goes on with the two digits of each of at most 432 bytes, and then a semicolon |
| Reader.ParseExactly | dump978/reader.c:152-169 | the bytes of a text are those it spells, and a text that spells none is refused |
| Reader.HexByteExactly | dump978/reader.c:174-199 | two characters are a byte exactly when they are its two hexadecimal digits, of either case, high one first; any other character in either place is refused |
| Reader.FrameReader.constructor | dump978/reader.c:38-57 | an empty reader |
| Reader.FrameReader.FindNewline | dump978/reader.c:115 | the first newline, if any |
| Reader.FrameReader.ProcessLine | dump978/reader.c:135-172 | the frame of the line: type by its first character, bytes up to the semicolon, none if malformed or oversized |
| Reader.FrameReader.ProcessLines | dump978/reader.c:106-123 | all whole lines of the buffer, in order |
| Reader.FrameReader.ProcessInput | dump978/reader.c:106-133 | frames of the buffered text, the unfinished line moved to the front |
| Reader.FrameReader.Compact | dump978/reader.c:125-130 | the bytes behind the last line move to the front |
| Reader.FrameReader.ReadFrames | dump978/reader.c:59-96 | frames and what stays pending depend only on the stream, not on how reads split it; the count returned follows the way the input ended |
| RawMessages.DumpRawMessage | dump978/dump978.c:83-97 | the text of a frame: type, hexadecimal bytes, errors if any, signal strength |
| RawMessages.RawTextWrittenOut | dump978/dump978.c:83-97 | the line is the type, two lower-case hexadecimal digits for every byte, ;rs= with the errors when there are any, ;ss= with the strength, a semicolon and a newline |
| RawMessages.TrailerReadsBack | dump978/dump978.c:93-97 | both numbers read back in decimal, without leading zeros |
| RawMessages.RawLineReadsBack | dump978/dump978.c:83-97 | one printed frame of at most 432 bytes reads back with its type and bytes |
| RawMessages.StreamReadsBack | dump978/dump978.c:83-97 | any list of such frames reads back in order |
| RawMessages.ReadBack | dump978/reader.c:59-133 | through the reader itself, whatever the sizes of the reads |
| SyncWord.FuzzyCompare | dump978/dump978.c:234-289 | true exactly when at most four of the 36 bits differ |
| SyncWord.ClearLowest | dump978/dump978.c:244-262 | diff & (diff - 1) clears exactly one set bit |
| SyncWord.OnesAreDifferences | dump978/dump978.c:234-240 | the set bits of the XOR are the differing positions |
| SyncWord.DistanceCounts | dump978/dump978.c:234-240 | the distance is the number of positions that differ |
| Dump978.PhiDifferenceTurns | dump978/dump978.c:54-62 | the difference is the only 16-bit signed turn from one phase to the other |
| Dump978.ProcessBuffer | dump978/dump978.c:347-449 | the loop is the search of PassOver; every index is in range, the count returned is between 0 and len exactly from 8976 samples on, every report comes from a successful demodulation at its timestamp and carries its bytes, errors and signal strength, and reports are in order and do not start inside one another |
| Dump978.TryFrame | dump978/dump978.c:396-417 | a frame is found exactly when one of the demodulations at two adjacent samples succeeds; it is the one with fewer errors, on a tie the earlier; 18, 34 or 432 bytes are reported as 276, 420 or 4452 bits were consumed; its strength is the mean amplitude of its samples, rounded down |
| Dump978.CalcPower | dump978/dump978.c:164-171 | the loop computes the mean amplitude of the samples |
| Dump978.StrengthBetween | dump978/dump978.c:164 | which lies between the least and the largest of them |
| Dump978.PowerConcat | dump978/dump978.c:164-171 | sums of amplitudes add up |
| Dump978.PowerOne | dump978/dump978.c:166-168 | of one sample it is its amplitude |
| Dump978.Examine | dump978/dump978.c:393-445 | one position: downlink before uplink, the first register before the second |
| Dump978.HitAt | dump978/dump978.c:393-445 | what is found comes from a successful demodulation within two samples of the position and consumes 276, 420 or 4452 bits |
| Dump978.HitIsFrame | dump978/dump978.c:393-445 | the first of downlink word in the even register, in the odd one, uplink word in the even one, in the odd one that differs in at most four bits decides the frame, by the demodulations from the first sample of its pairs and from the next |
| Dump978.PushShifts | dump978/dump978.c:378-379 | shifting and masking keeps the last 36 bits |
| Dump978.NothingMissed | dump978/dump978.c:373-445 | at every position from 36 on whose 36 phase differences lie behind the frames found before it, a frame is found exactly when FrameAt says so: the first of the four pairs of word and alignment within four bits of the signs demodulates at its sample or the next, and it is that frame |
| Dump978.FrameExists | dump978/dump978.c:393-445 | there is such a frame exactly when a pair shows and one of the two demodulations of the first that does succeeds |
| Dump978.FrameOnce | dump978/dump978.c:393-445 | and only one |
| Dump978.SignIsRise | dump978/dump978.c:374-379 | a sign is set exactly when the phase turns forward by less than half a circle |
| Dump978.FirstFrame | dump978/dump978.c:381-417 | the first report of a pass is the frame at the first position that has one: it is not missed and nothing is reported before |
| Dump978.NoFrame | dump978/dump978.c:373-448 | without such a position nothing is reported and everything but the last samples is consumed |
| Dump978.PassFacts | dump978/dump978.c:373-448 | the bounds, the order and the origin of the reports hold of the search itself |
| Dump978.EnoughSamples | dump978/dump978.c:373-374 | 8976 samples are what a pass needs |
| SampleBuffers.FewLeft | dump978/dump978.c:373-448 | a pass leaves at most 17955 bytes |
| SampleBuffers.GenuineIsFound | dump978/dump978.c:218-220 | what a pass over the buffer reports was demodulated from the samples of the whole stream |
| SampleBuffers.SampleBuffer.constructor | dump978/dump978.c:201-208 | an empty buffer |
| SampleBuffers.SampleBuffer.Append | dump978/dump978.c:212 | bytes go behind those in the buffer |
| SampleBuffers.SampleBuffer.ConvertToPhi | dump978/dump978.c:146-162 | the phases of the given samples, the others unchanged |
| SampleBuffers.SampleBuffer.Fill | dump978/dump978.c:210-217 | after taking bytes, odd counts included, phi is the phase image of the whole samples buffered |
| SampleBuffers.SampleBuffer.Discard | dump978/dump978.c:219-224 | consumed samples leave buffer and phi together |
| SampleBuffers.SampleBuffer.PhasesOfStream | dump978/dump978.c:201-230 | phi equals the phase image of the unconsumed suffix of the stream |
| SampleBuffers.SampleBuffer.Search | dump978/dump978.c:218 | a pass on enough samples consumes no more than it has and reports only frames found in the stream |
| SampleBuffers.SampleBuffer.Pass | dump978/dump978.c:209-228 | one turn of the loop keeps the buffer the unconsumed suffix of the stream, ok exactly with 17952 bytes or more |
| SampleBuffers.SampleBuffer.ProcessData | dump978/dump978.c:203-230 | for data of any length the answer, the reports, the bytes left and the sample counter are those of the fold of passes over the stream; after every chunk the buffer is the unconsumed suffix of the stream and phi its phase image; every report was demodulated from the stream at its timestamp; what the fold finds in the whole stream is stated by the rows of StreamSearch |
| SampleBuffers.OnePass | dump978/dump978.c:209-228 | data that fits behind the bytes left is one pass, and enough for it exactly from 17952 bytes in all |
| SampleBuffers.SampleBuffer.AlignedChunks | dump978/dump978.c:201 | chunks of whole pairs of samples up to 113120 bytes always fit |
| Dump978.CleanInside | dump978/dump978.c:374-417 | a search of a part of the samples sees the same frame at a position as a search of all of them |
| StreamSearch.PassCovers | dump978/dump978.c:368-448 | one pass decides the positions of the stream from its first full registers to where the next pass has its first full ones |
| StreamSearch.FindsCover | dump978/dump978.c:203-230 | the passes over the data of one call leave no position between them undecided |
| StreamSearch.ReportsOver | dump978/dump978.c:203-230 | the frames the passes find, in stream positions, are those reported |
| StreamSearch.StreamMissesNothing | dump978/dump978.c:368-371 | however a stream is cut into calls and passes: at every position whose 36 signs lie behind the frames found before it, a frame is found and reported exactly when the samples of the whole stream show one |
| StreamSearch.CutsAgree | dump978/dump978.c:368-371 | two cuttings of one stream find the same at every such position of both |
| StreamSearch.OneSearchAgrees | dump978/dump978.c:368-371 | and so do the passes and one search of the whole stream |
| StreamExample.CutDisagrees | dump978/dump978.c:368-371 | in the 35 positions behind a frame they need not: a stream of two calls with a frame that one search of it misses |

## Left out

- Floating-point rounding, NaN and overflow: reals are exact, so the float32 threshold of 1.1 times maxSize is 10 * length > 11 * maxSize.
- Goroutines, mutexes, channels and tickers: every locked section is one step; the sleep flag and the clock are fixed during a call, and the random throttle gives any sequence of answers.
- The time zone and its changes: hours, minutes and seconds of an Id are those of one fixed zone.
- Alert sounds, JSON, web messages and the text of alert titles: a title is its rule, colour and value.
- Runs that begin before the list of alerts is created: the runs of `EmsRuns` begin behind that, as the daemon starts them; `EmsRuns.TooEarly` says what happens otherwise.
- Instants less than five minutes after the zero time: the runs of `EmsRuns` start later than that.
- The file system under the flight log: encoding, temporary file and rename are one outcome, written or failed. The branches of update are methods of their own.
- The GPS units and the choice of clock in sampleSituation; the published status totals.
- SetBits.Write: fields of at most 30 bits within 32 bits of the byte boundary, where the C shifts are defined; a frame without the bytes in front of a field is not written to.
- Printing of Mode S frames, and the ADS-B encoders of uat2esnt.c.
- Reed-Solomon correction and the slicing of frames: a demodulator is any function from its samples to the bits consumed, the errors corrected and the bytes that answers as dump978/fec.c:42-93 does; check_sync_word belongs to it.
- The tables themselves: phase and amplitude of a sample are any functions of its two bytes.
- SampleBuffers.SampleBuffer.ProcessData: stops where a pass has fewer than 8976 samples, which the C code does not expect; sample counters are unbounded.
- Dump978.NothingMissed: in the 35 positions behind a frame the registers of the source still hold bits from before it, so that what is found there need not rest on 36 adjacent signs.
- StreamSearch.StreamMissesNothing: says nothing of the 35 positions behind a frame, where what is found depends on the cut (StreamExample.CutDisagrees).
- A null reader, allocation and errno: a read error is one of the ways the input of the reader ends.
- Headings, the dipole model and all trigonometry; Sweep and WellSwept, which are plain range tests.
- HTTP, websockets, BLE, serial ports, databases, settings, autopilot, charts and the GDL90 status messages: one-branch or input and output code that would add only easy members.
