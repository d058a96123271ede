# Verified model of Aika's transfer core

This project models, in Dafny, the parts of the application where a mistake would lose or damage files:

- **The streaming ZIP writer.** Layout in 64-bit sums, classic and ZIP64 records, table-driven CRC-32,
  MS-DOS dates, unique entry names, and the loop that streams the archive while the application reads its
  files (`Bytes`, `Crc`, `DosDate`, `Zip`, `ZipReader`, `ZipNames`, `ZipNameForms`, `ZipStream`, `ZipDownload`). The
  reader it is proved against follows sections 4.3.7, 4.3.9, 4.3.12, 4.3.14, 4.3.15, 4.3.16, 4.4.3.2, 4.4.4, 4.4.6
  and 4.5.3 of PKWARE APPNOTE.TXT and section 3 of RFC 3629; the checksum is that of section 8 of RFC 1952.
- **The host's upload session slot.** The blocks that run under the lock (`UploadSlot`), and the protocol of
  requests, drop guards, uploads and cancels as a state machine over all interleavings (`UploadHost`,
  `UploadHostRuns`, `UploadHostHistory`, `UploadHostLost`).
- **The web page's upload engine.** Its event callbacks in place (`UploadPage`), what holds between any two
  events (`UploadPageRuns`, `UploadPageItems`), and the page run against the host (`PageHost`).
- **The WebRTC transfer.** Chunking and framed strings (`RtcChunks`), the file loops of sender and receiver
  (`RtcFiles`), the receiver's responses and errors (`RtcResponses`, `RtcAccounting`), the composition of both loops
  (`RtcTransfer`), and the PIN challenge of both peers (`RtcPin`, `RtcPinRuns`).
- **The signaling rooms.** Admission and removal under the lock (`Signaling`), and who is told about whom over
  all interleavings (`SignalingRuns`, `SignalingHistory`), with the bounded queues of the connections
  (`SignalingQueues`).

Code that updates state in place is a class or a method with loops, proved equal to a function of the inputs or
of the old state; the theorems are lemmas about those functions. Protocols are state machines whose steps are
the blocks under a lock, or the rounds of a loop; `Possible` and `After` give the runs, and main results hold
after every run from the start state. History fields, marked as such, only record what happened.

Some promises are false in corner cases. For each the model has a concrete failing input and says exactly when
the promise holds:

- Archive names should have no `..` (packages/core/src/http/server/web_zip.rs:364-366). Cutting a long name can
  leave one: 997 letters followed by `/..b` become an entry ending in `/..` (`ZipNames.CutCanLeaveDotDot`). A name
  is safe if and only if it got a suffix or its cleaned form ends in a real name (`ZipNames.OutputIsSafe`).
- The plan should announce the exact archive size (packages/core/src/http/server/web_zip.rs:7-10). It is right if
  and only if the ZIP64 length is below 2^64 (`Zip.NewPlanIsExact`, `Zip.TooLongIsMisplanned`).
- Dates are said to be clamped to 1980-2107 (packages/core/src/http/server/web_zip.rs:295). Past 2107 only the year
  is: a time gets the last stamp if and only if it is in the last two seconds of a year
  (`DosDate.ClampedOnlyAtYearsEnd`), and later times can get earlier stamps (`DosDate.StampFallsAfter2107`, with the
  exact condition in `DosDate.StampsInOrder`).
- The slot guard should free the slot of a cancelled request (packages/core/src/http/server/v2.rs:533-537). It
  does if and only if it is armed when the request is dropped (`UploadHostRuns.DroppedSlotIsCleanedUpIfArmed`). A
  request dropped before the guard exists, or while `clear` waits for the lock, leaves the slot pending for ever
  (`UploadHostRuns.DropBeforeGuardSticks`, `UploadHostRuns.DropWhileClearingSticks`).
- The upload guard should keep files from being stuck in progress (packages/core/src/http/server/v2.rs:591-594). A
  file is settled if and only if the guard is armed when its upload is dropped
  (`UploadHostLost.DroppedUploadIsSettledIfArmed`); dropped while `finish` waits for the lock, it never is
  (`UploadHostLost.UploadsCanBeLost`).
- A response should tell the result of the file it names (packages/core/src/webrtc/webrtc.rs:886-910). The result
  is the next one queued, which is about that file if and only if no earlier file was dropped for its size while
  its result was queued (`RtcResponses.OwnResultUnlessDropped`, `RtcResponses.DroppedFileShiftsResults`).
- Every peer that is let into a room should be greeted (server/src/controller/ws_controller.rs:158-163). Its queue
  holds four notices and is emptied only after the greeting: a greeting can finish if and only if neither that queue
  is full nor the queue of another greeting peer that has to be told (`SignalingQueues.GreetedUnlessStalled`). Four
  arrivals are enough to stall a peer (`SignalingQueues.FourArrivalsStall`).

## Model

| member | source | states |
|---|---|---|
| Crc.TableStep | packages/core/src/http/server/web_zip.rs:326-357 | for every 32-bit register and byte, one look-up and shift equals feeding eight message bits to the serial register of the reflected polynomial |
| Crc.BuildTable | packages/core/src/http/server/web_zip.rs:326-344 | each of the 256 entries is its index shifted eight times |
| Crc.Crc32.Update | packages/core/src/http/server/web_zip.rs:351-357 | after any chunk the register is the bit-serial one |
| Crc.SerialConcat | packages/core/src/http/server/web_zip.rs:351-357 | the checksum depends on the concatenation of the chunks only, not on how they are split |
| Crc.OneByteDamageIsDetected | packages/core/src/http/server/web_zip.rs:346-362 | two files that differ in exactly one byte never have the same checksum |
| Crc.ReferenceValue | packages/core/src/http/server/web_zip.rs:447-455 | the checksum of `123456789` is 0xCBF43926, and that of nothing is 0 |
| DosDate.CivilIsCounted | packages/core/src/http/server/web_zip.rs:299-308 | for every day number the closed form is the Gregorian date reached by counting days one by one with the leap rule |
| DosDate.DosRoundTrip | packages/core/src/http/server/web_zip.rs:296-319 | the two words decode to the counted date (year clamped to 2107) and the even second below; before 1980 to 1980-01-01 00:00 |
| DosDate.StampsInOrder | packages/core/src/http/server/web_zip.rs:296-319 | of two times in order the later has no earlier stamp if and only if it is at most in 2107, or the earlier one is before 2107, or month, day and even second are in order |
| DosDate.ClampedOnlyAtYearsEnd | packages/core/src/http/server/web_zip.rs:313-318 | a time past 2107 gets the last stamp of 2107 if and only if it is in the last two seconds of its year |
| DosDate.StampFallsAfter2107 | packages/core/src/http/server/web_zip.rs:313-318 | past 2107 only the year is clamped: a concrete later time gets an earlier stamp |
| Zip.Layout | packages/core/src/http/server/web_zip.rs:94-110 | the loops compute, modulo 2^64, the positions and lengths that the record sizes add up to |
| Zip.NewPlan | packages/core/src/http/server/web_zip.rs:55-74 | the plan is the exact one of the chosen format kept in 64 bits, the choice being made on the 64-bit classic length |
| Zip.NewPlanIsExact | packages/core/src/http/server/web_zip.rs:55-74 | the plan of `new` is right if and only if the ZIP64 length is below 2^64; ZIP64 is then chosen exactly when the count of entries or the length in classic form reaches its sentinel |
| Zip.PlannedUnlessTooLong | packages/core/src/http/server/web_zip.rs:94-110 | the numbers of a plan are right if and only if the archive length is below 2^64 |
| Zip.TooLongIsMisplanned | packages/core/src/http/server/web_zip.rs:56-62 | one file of 2^64 - 1 bytes gets a classic plan announcing 113 bytes |
| Zip.NewPlanIsPrintable | packages/core/src/http/server/web_zip.rs:134-264 | every value written through a narrowing cast fits its field, and in classic form none equals a 0xFFFF or 0xFFFFFFFF sentinel |
| Zip.CentralDirectory | packages/core/src/http/server/web_zip.rs:177-264 | the printed bytes are the central headers in order, then the end records of the chosen format |
| Zip.ArchiveAsPlanned | packages/core/src/http/server/web_zip.rs:93-281 | in the printed archive every local header, central header and end record stands at its planned position, and the length is the announced one |
| ZipReader.LocalRoundTrip | packages/core/src/http/server/web_zip.rs:134-174 | a reader at a local header that repeats the central one in version, flags, date and time finds the name, content, checksum and sizes that were printed, in both formats |
| ZipReader.CentralRoundTrip | packages/core/src/http/server/web_zip.rs:179-218 | a central header leads a reader that widens sentinels through the ZIP64 extra field to its entry |
| ZipReader.EndRoundTrip | packages/core/src/http/server/web_zip.rs:220-263 | from the last 22 bytes, following the ZIP64 locator only on sentinels, a reader finds the directory |
| ZipReader.ArchiveRoundTrip | packages/core/src/http/server/web_zip.rs:55-281 | for all entries and contents of the announced sizes an APPNOTE reader recovers the same names, marked as UTF-8, dates, checksums and contents in order |
| ZipReader.Zip64ArchiveRoundTrip | packages/core/src/http/server/web_zip.rs:76-91 | the same for an archive that is ZIP64 without need |
| ZipNames.CleanEntryName | packages/core/src/http/server/web_zip.rs:383-401 | the loop computes the clean name of the specification: proper parts only, cut character by character, `file` when nothing is left |
| ZipNames.CutIsLongest | packages/core/src/http/server/web_zip.rs:391-395 | the cut name is the longest beginning whose UTF-8 form has at most 1000 bytes |
| ZipNames.CandidatesInUse | packages/core/src/http/server/web_zip.rs:372-377 | candidates differ after lowercasing, so m of them can only be taken when at least m names are (pigeonhole) |
| ZipNames.FreeName | packages/core/src/http/server/web_zip.rs:371-378 | the search ends with the first free candidate after at most one more try than names in use; the number stands in front of the extension |
| ZipNames.ZipEntryNames | packages/core/src/http/server/web_zip.rs:367-381 | each output is the first candidate free of the outputs before it, with its number in front of the extension; outputs are pairwise distinct after lowercasing |
| ZipNames.SuffixPlace | packages/core/src/http/server/web_zip.rs:403-412 | the number goes behind the stem of the last component and in front of its extension, or to the very end when there is none; a leading dot starts no extension |
| ZipNames.PartsExist | packages/core/src/http/server/web_zip.rs:403-412 | every name has folders, stem and extension in that sense, so the place of the number is always determined |
| ZipNameForms.CleanedIsCleanForm | packages/core/src/http/server/web_zip.rs:383-401 | a name is left as it is if and only if it is a safe path of trimmed components, without backslashes, of at most 1000 bytes |
| ZipNameForms.CleanOfFolders | packages/core/src/http/server/web_zip.rs:383-389 | folders, with either slash, are cleaned one by one and put together again in order |
| ZipNameForms.CleanOfOne | packages/core/src/http/server/web_zip.rs:386-388 | of a single component exactly the control characters and then the white space at both ends are removed; `.`, `..` and nothing vanish |
| ZipNameForms.CleanedThenCut | packages/core/src/http/server/web_zip.rs:389-400 | what is left is kept as far as 1000 bytes go; `file` stands for nothing |
| ZipNames.ChangedOnlyOnCollision | packages/core/src/http/server/web_zip.rs:371-378 | a name differs from its cleaned form if and only if an earlier output collides with that form |
| ZipNames.CandidateBytes | packages/core/src/http/server/web_zip.rs:392-411 | for at most 10000 names no output is longer than 1008 bytes |
| ZipNames.OutputIsSafe | packages/core/src/http/server/web_zip.rs:364-412 | no output has a control character, a leading slash, or an empty, `.` or `..` folder; its last component is a real name if and only if it got a suffix or the cleaned name ends in one, as it does unless it was cut |
| ZipNames.CutCanLeaveDotDot | packages/core/src/http/server/web_zip.rs:391-395 | 997 letters followed by `/..b` give an entry whose last component is `..` |
| ZipDownload.PlanDownload | packages/core/src/http/server/web.rs:478-492 | names, sizes, plan and the time of the request fit together: entry names stay within 1008 bytes, and whatever contents of the announced sizes follow, a reader finds exactly the chosen names as UTF-8, the contents, and in every entry the date of the request to the even second |
| ZipNameForms.Utf8RoundTrip | packages/core/src/http/server/web_zip.rs:134-141 | the bytes of every name decode to the name by section 3 of RFC 3629 |
| ZipStream.StreamContent | packages/core/src/http/server/web.rs:552-569 | however a file is chunked, what is forwarded is its first chunks as far as the announced size goes; delivered means exact size and right checksum |
| ZipStream.StreamEntry | packages/core/src/http/server/web.rs:529-575 | one entry is sent whole, or the response ends behind its local header and what fitted of it, in the error that tells why, or with the browser gone |
| ZipStream.StreamZip | packages/core/src/http/server/web.rs:521-586 | the bytes sent are always a prefix of the canonical archive; with the browser there, the response ends without error exactly when every file had its size, and then has the announced length; else it ends in the first file that had not |
| ZipStream.CompletionExists | packages/core/src/http/server/web.rs:556-568 | whatever the application delivers can be completed to contents of the announced sizes, so the theorem on streaming covers every run |
| ZipDownload.DownloadZip | packages/core/src/http/server/web.rs:478-579 | plan and stream together: with the browser there the response ends without error exactly when every file has its size, has then the announced length, and reads back as exactly the delivered files under the chosen names, dated at the request |
| UploadSlot.V2State.ClaimSlot | packages/core/src/http/server/v2.rs:277-293 | a claim succeeds only on an empty slot or on a session without a file in progress and without activity for 60 seconds, whose id it returns |
| UploadSlot.V2State.ClearPending | packages/core/src/http/server/v2.rs:584-589 | empties a pending slot, whoever claimed it |
| UploadSlot.V2State.BeginUpload | packages/core/src/http/server/v2.rs:411-432 | only the session's own address with the file's token starts a pending file, which is then in progress |
| UploadSlot.V2State.FinalizeFile | packages/core/src/http/server/v2.rs:633-658 | a file in progress of that session becomes finished on success and failed otherwise, every other file keeps token and status, and the slot is emptied exactly when all files are final |
| UploadSlot.V2State.Cancel | packages/core/src/http/server/v2.rs:480-495 | empties the slot only for the session's id and address |
| UploadSlot.V2State.CancelV2Session | packages/core/src/http/server/mod.rs:189-201 | empties the slot only for the session's id and tells whether it did |
| UploadHost.InvStep | packages/core/src/http/server/v2.rs:267-670 | every step of every request, guard, upload and cancel keeps the invariant on slot, ids, files and events |
| UploadHostRuns.SlotBelongsToItsRequest | packages/core/src/http/server/v2.rs:276-377 | in every run a request between claim and release is alone and the pending slot is its own, so the blind clear frees nobody else's claim |
| UploadHostRuns.ActivationOpensNewSession | packages/core/src/http/server/v2.rs:364-377 | in every run the unconditional write replaces the request's own pending slot by a session never seen before whose files all wait with their tokens |
| UploadHostRuns.ActiveSessionIsNotOverwritten | packages/core/src/http/server/v2.rs:365-373 | in every run an active session stays in the slot until a step closes it |
| UploadHostRuns.LateFinalizeIsHarmless | packages/core/src/http/server/v2.rs:591-658 | a finalize for a session that was cancelled, replaced or finished changes no slot and ends nothing, at any later time |
| UploadHostRuns.LateFinalizeStep | packages/core/src/http/server/v2.rs:632-670 | such a step emits no event and changes nothing but the list of running uploads |
| UploadHostRuns.FilesMoveForward | packages/core/src/http/server/v2.rs:411-432 | over any run the accepted files of a session stay the same and move only from pending to in progress to finished or failed |
| UploadHostRuns.EventsAreUnique | packages/core/src/http/server/v2.rs:411-447 | each file of a session is announced at most once, each session ends at most once, and as finished only with all files final |
| UploadHostRuns.NoEndAfterAppCancel | packages/core/src/http/server/mod.rs:180-201 | once the application cancelled a session, no end of it is announced in any continuation |
| UploadHostHistory.UploadsAreAuthorised | packages/core/src/http/server/v2.rs:411-447 | in every run an upload is accepted if and only if its session is the active one and was opened for the same address with this token for this file, no upload of which was accepted before; exactly those are announced |
| UploadHostHistory.FileOutcome | packages/core/src/http/server/v2.rs:591-658 | in every run a file is finished if and only if the transfer of an upload of it succeeded and was settled while the session was active, and failed if and only if one that failed or was dropped was |
| UploadHostHistory.ReplacedOnlyWhenIdle | packages/core/src/http/server/v2.rs:277-293 | in every run a request gets the slot if and only if it is free, or its session receives nothing and saw no activity for 60 seconds; activity is its opening, the start and the end of an upload |
| UploadHostHistory.EveryEndIsAnnounced | packages/core/src/http/server/v2.rs:659-670 | every session that left the slot is announced once, as finished exactly when all its files were final, unless the application cancelled it |
| UploadHostHistory.EventsAreKept | packages/core/src/http/server/v2.rs:304-312 | while no sending future is dropped, every event emitted was sent or is about to be |
| UploadHostHistory.CancelIsAnswered | packages/core/src/http/server/v2.rs:480-513 | a cancel from the right address ends the session and is announced as its end; any other one changes nothing and is passed on |
| UploadHostRuns.StuckBlocksForever | packages/core/src/http/server/v2.rs:295-312 | a request dropped without an armed guard keeps the slot pending in every continuation |
| UploadHostRuns.DropBeforeGuardSticks | packages/core/src/http/server/v2.rs:295-312 | a run in which a request is dropped while it announces the end of an abandoned session, and leaves the slot stuck |
| UploadHostRuns.DropWhileClearingSticks | packages/core/src/http/server/v2.rs:558-570 | a run in which a refused request is dropped while it waits for the lock, and leaves the slot stuck |
| UploadHostRuns.DroppedSlotIsCleanedUpIfArmed | packages/core/src/http/server/v2.rs:565-589 | after a drop with the guard armed no step can prevent the cleanup, which frees the slot; after any other drop the slot is pending in every continuation |
| UploadHostLost.DroppedUploadIsSettledIfArmed | packages/core/src/http/server/v2.rs:591-658 | after a drop with the upload guard armed no step can prevent the cleanup, which makes the file final while its session is active; after any other drop the file is never final |
| UploadHostLost.LostSessionEndsOnlyByCancel | packages/core/src/http/server/v2.rs:612-658 | with such a lost upload the session never finishes and is never replaced as abandoned, only cancelled |
| UploadHostLost.UploadsCanBeLost | packages/core/src/http/server/v2.rs:612-615 | a run in which an upload is lost that way |
| UploadPage.UploadEngine.Pump | packages/core/assets/web/main.js:1020-1035 | the loop gathers the first fifty pending items and announces them, unless a batch is running |
| UploadPage.UploadEngine.UploadSequentially | packages/core/assets/web/main.js:1101-1177 | skips cancelled and refused items, posts the next one or ends the batch, giving the session back when something was skipped; `UploadPageItems.TakesUpFirstSendable` says what that is |
| UploadPage.UploadEngine.OnPrepareAnswer | packages/core/assets/web/main.js:1058-1098 | busy answers make the batch wait, accepted ones start it, all others fail what was not cancelled; a failed request leaves the back-off alone |
| UploadPage.UploadEngine.CancelAll | packages/core/assets/web/main.js:1226-1239 | cancels in two passes what waits and what uploads, the abort going on with the batch in between |
| UploadPageItems.TakesUpFirstSendable | packages/core/assets/web/main.js:1101-1177 | from any position of a batch exactly the first item that was not cancelled and has a token is posted next, with that token; those before it without a token fail, no other item changes; with none left the session is given back exactly if something was skipped |
| UploadPageItems.BatchIsPostedInOrder | packages/core/assets/web/main.js:1101-1177 | over any run that leaves the batch alone, a batch whose files all have tokens is posted whole and in order, each file once the one before it is over, and the session is not given back |
| UploadPageItems.FailsOnlyWithoutToken | packages/core/assets/web/main.js:1058-1115 | an item still to be sent fails only with a refusal of its batch, or for want of a token |
| UploadPageItems.HostRefuses | packages/core/assets/web/main.js:1058-1098 | a busy host leaves the pending items of the batch waiting for the back-off; a refusal or a failed request fails those not cancelled; other items keep their status |
| UploadPageItems.UploadIsOver | packages/core/assets/web/main.js:1136-1172 | the item whose upload is over becomes done or failed, and the batch goes on behind it |
| UploadPageItems.AddingFiles | packages/core/assets/web/main.js:963-989 | new files stand at the end of the list in their order, queued or, with an invalid name, failed; nothing else changes, and an idle engine starts |
| UploadPageItems.ClickingRow | packages/core/assets/web/main.js:1272-1284 | the button of a row cancels, retries or removes exactly its own item, as that item's status tells |
| UploadPageItems.CancellingAll | packages/core/assets/web/main.js:1226-1239 | exactly the items that were queued, waiting or uploading become cancelled |
| UploadPageRuns.NothingIsLost | packages/core/assets/web/main.js:940-1239 | in every run, between events, an item still to be sent implies that the engine pumps and waits for an outside event; at most one item uploads; the back-off stays within its bounds |
| UploadPageRuns.BatchesAreFirstPending | packages/core/assets/web/main.js:1020-1042 | in every run each announced batch is the first at most fifty pending items in list order |
| UploadPageRuns.DoneOnlyAfterUpload | packages/core/assets/web/main.js:1136-1172 | an item becomes done only from uploading by its own 200, and stays done |
| UploadPageRuns.BackOffFollowsAnswers | packages/core/assets/web/main.js:1058-1098 | only answers change the back-off: busy ones wait for it and lengthen it up to its bound, decisions reset it, failed requests do not |
| UploadPageRuns.CancelAllStopsEverything | packages/core/assets/web/main.js:1226-1239 | afterwards nothing is queued, waiting or uploading, and the host was asked for nothing but, at most, to end the running session |
| UploadPageRuns.QuietRunsEnd | packages/core/assets/web/main.js:1037-1177 | with no user action and no busy answer, at most 3n + 2 events pass while n items are still to be sent |
| PageHost.InvStep | packages/core/assets/web/main.js:1101-1183 | every step of page, host and requests in flight keeps: a file the host waits for is ahead in the batch, in flight, or its session is given back |
| PageHost.SlotIsFreedAfterBatch | packages/core/assets/web/main.js:1101-1183 | once a batch ended and its posts, cancel and uploads were handled, the host's slot no longer holds its session, whatever was cancelled, retried or refused |
| RtcChunks.ProcessInChunks | packages/core/src/webrtc/webrtc.rs:1293-1321 | sends the unique chunking of the concatenated buffers, or a proper beginning of it when a send fails |
| RtcChunks.ChunksAreWellChunked | packages/core/src/webrtc/webrtc.rs:1302-1320 | the chunks concatenate to the input, none is empty, and all but the last have exactly CHUNK_SIZE bytes |
| RtcChunks.OneWayToCut | packages/core/src/webrtc/webrtc.rs:1302-1320 | no other list of chunks has these properties |
| RtcChunks.SendStringInChunks | packages/core/src/webrtc/webrtc.rs:1325-1341 | a string is sent as the chunks of its bytes |
| RtcChunks.ReceiveStringFromChunks | packages/core/src/webrtc/webrtc.rs:1343-1354 | reads the binary messages up to the first text and nothing behind it |
| RtcChunks.ReadsUpToText | packages/core/src/webrtc/webrtc.rs:1343-1354 | what is read is the data of all messages before the first text, and what is left begins behind it |
| RtcChunks.FramedRoundTrip | packages/core/src/webrtc/webrtc.rs:1272-1354 | a string and its delimiter are read back whole through a transport that swallows empty messages, and what follows stays unread |
| RtcFiles.SendFiles | packages/core/src/webrtc/webrtc.rs:501-557 | of each file with a token the header and chunks are sent, or a proper beginning with one error for the one send that failed; files without a token send nothing; then the delimiter |
| RtcFiles.NoFailureSendsSelected | packages/core/src/webrtc/webrtc.rs:501-557 | when no send fails, the stream is exactly the files with a token, whole and in order |
| RtcFiles.ReceiveFiles | packages/core/src/webrtc/webrtc.rs:884-1015 | the loop, taking results from the application's queue, is the fold of the message handler over what arrives, and leaves the rest unread |
| RtcFiles.SizeOfFirst | packages/core/src/webrtc/webrtc.rs:949-963 | of several announced files with one id the size of the first counts |
| RtcAccounting.EveryMessageIsAccountedFor | packages/core/src/webrtc/webrtc.rs:884-1015 | for every message sequence and application each message read opens a file, is forwarded to one, causes exactly one error, or is the one at which the receiver stops; errors name their causes in order, and it stops for the listed reasons only |
| RtcFiles.ReceiverIsBounded | packages/core/src/webrtc/webrtc.rs:859-1015 | for every message sequence and application: a file opens only for an id and token the receiver issued, gets the binary messages right behind its header and never more bytes than announced |
| RtcResponses.ResponsesFollowTheQueue | packages/core/src/webrtc/webrtc.rs:886-918 | for every message sequence each response is about a file whose data reached up to the text that ended it and succeeds if and only if the next queued result does, so never once the queue is closed; every file but the last is answered or else was dropped for its size |
| RtcResponses.OwnResultUnlessDropped | packages/core/src/webrtc/webrtc.rs:886-910 | with results queued in opening order, a response carries its own file's result if and only if no earlier file was dropped while its result was queued |
| RtcResponses.DroppedFileShiftsResults | packages/core/src/webrtc/webrtc.rs:963-986 | for every lawful form of headers, a run in which a file that arrived whole is answered with the failure of the dropped one before it |
| RtcTransfer.HonestTransfer | packages/core/src/webrtc/webrtc.rs:501-1015 | sender stream into receiver loop: one file per file sent, in order, with exactly its bytes; an oversize one changes no other; the receiver stops at the delimiter and ends well if and only if the last file sent fitted |
| RtcTransfer.SentIsTransferred | packages/core/src/webrtc/webrtc.rs:501-1015 | when the sending loop reports nothing but missing tokens, what its channel sent, even with empty messages swallowed, transfers exactly the files that have a token |
| RtcPin.VerifyPin | packages/core/src/webrtc/webrtc.rs:1196-1248 | reads at most `max_tries` PINs, accepts exactly on the first right one, sends one notice or refusal for each wrong one, and breaks off only when a send fails or no PIN comes |
| RtcPin.ChallengePeer | packages/core/src/webrtc/webrtc.rs:736-771 | with the final result every PIN read has exactly one answer; an empty PIN or no tries at all are answered before any PIN is read |
| RtcPin.AnswerToEach | packages/core/src/webrtc/webrtc.rs:1196-1248 | the answer to the PIN number i is acceptance when it is right, refusal when the tries are used up, and else a request for another |
| RtcPin.HandlePin | packages/core/src/webrtc/webrtc.rs:1132-1187 | each PIN after the first is sent only after a result that asked for it |
| RtcPinRuns.ChallengeIsSafe | packages/core/src/webrtc/webrtc.rs:1132-1248 | over all interleavings, in both directions and for every configuration: never more than `max_tries` PINs read, none after a right one, and the peers never hold opposite verdicts |
| RtcPinRuns.ChallengeEndsInAgreement | packages/core/src/webrtc/webrtc.rs:298-363 | every run ends; the PIN is accepted exactly when it is empty or one of the first `max_tries` is right; both peers then agree, except on a verdict known at once and sent without notice to a user who enters no PIN |
| Signaling.SignalingServer.Admit | server/src/controller/ws_controller.rs:97-143 | lets a peer in if the room and the group's requests allow it, returning those in the room at that moment; a refusal may leave an empty room |
| Signaling.SignalingServer.Remove | server/src/controller/ws_controller.rs:249-268 | takes the peer out, returns those that remain, and drops an empty room |
| Signaling.SignalingServer.ProtectDdosRequestCount | server/src/controller/ws_controller.rs:358-369 | counts one request of the group unless it used up its number, and tells which |
| SignalingRuns.InvStep | server/src/controller/ws_controller.rs:88-273 | every step of every connection keeps rooms, greetings, introductions and farewells consistent |
| SignalingRuns.RoomsStayWithinLimit | server/src/controller/ws_controller.rs:108-138 | in every run a room holds exactly the peers that came and did not go, never more than the limit |
| SignalingRuns.OverlappingPeersAreIntroducedOnce | server/src/controller/ws_controller.rs:97-164 | of two peers whose stays overlap exactly the later one has the other in its greeting, and the earlier one gets exactly one Join; others never hear of each other |
| SignalingRuns.RemainingPeersAreToldOnce | server/src/controller/ws_controller.rs:249-272 | a departure is told once to exactly those still in the room, all of whom had been introduced |
| SignalingRuns.SettledNoticesAreExact | server/src/controller/ws_controller.rs:152-272 | when no connection is still telling, the notices sent are exactly these and each peer was greeted once |
| SignalingHistory.LetInWithinLimits | server/src/controller/ws_controller.rs:108-138 | in every run a peer is let in if and only if its room has fewer peers than the limit and fewer requests of its group than the limit were made since the last reset |
| SignalingHistory.GreetingIsCurrent | server/src/controller/ws_controller.rs:97-164 | in every run the greeting of a new peer lists exactly the peers that are there, each with what it last said of itself |
| SignalingQueues.QueuesOnlyRestrict | server/src/controller/ws_controller.rs:96-177 | a run with queues of four notices is a run without them, so all of the above holds |
| SignalingQueues.GreetedUnlessStalled | server/src/controller/ws_controller.rs:152-163 | in every run a greeting can finish if and only if the peer's own queue has room and no greeting peer it must tell has a full one |
| SignalingQueues.StalledKeepsItsPlace | server/src/controller/ws_controller.rs:96-177 | a greeting peer with a full queue stays so in every continuation, takes no notice and keeps its place in the room |
| SignalingQueues.MustTellForever | server/src/controller/ws_controller.rs:152-156 | whoever has to tell a stalled peer something waits for it in every continuation |
| SignalingQueues.FourArrivalsStall | server/src/controller/ws_controller.rs:96-163 | a run that stalls the first peer of a room, under any limits that let five peers in |

## Left out

- ZipReader.ArchiveRoundTrip: requires that the archive length is within 64 bits; beyond that the plan itself is wrong (`Zip.TooLongIsMisplanned`).
- ZipNames.ZipEntryNames: lowercasing is an abstract map of single characters that leaves digits, spaces and parentheses alone; context-dependent lowercasing is not modelled.
- ZipDownload.PlanDownload: the second of the request is a parameter; starts from the chosen files; reading the form, removing repeated ids and checking the session are not modelled.
- UploadHost.InvStep: the events that ask the application for a decision or withdraw the question, and the order of events of different requests, are not modelled.
- UploadHostRuns.DroppedSlotIsCleanedUpIfArmed: says that nothing can prevent the cleanup, not that the scheduler runs it in time.
- UploadHostRuns.FreedUnlessStuck: says only that some continuation frees the slot; `UploadHostRuns.DroppedSlotIsCleanedUpIfArmed` says what the guard promises.
- UploadHostLost.SettledUnlessLost: says only that some continuation settles the file; `UploadHostLost.DroppedUploadIsSettledIfArmed` says what the guard promises.
- PageHost.SlotIsFreedAfterBatch: assumes one address for the page's device, that its posts and its cancel reach their handlers, and that no upload handler was dropped after disarming its guard.
- UploadPage.UploadEngine.CancelAll: rows, progress display, error texts and the list of sent files are not modelled; an abort runs its callback at once.
- RtcFiles.ReceiveFiles: the text form of headers is abstract; errors reported to the application are kept by kind, the error text of a result is not, and the five seconds spent on emptying the buffer are not modelled.
- RtcResponses.OwnResultUnlessDropped: for an application that reports in opening order, at most once for each file, and on every answered file; for others only `RtcResponses.ResponsesFollowTheQueue` holds.
- RtcTransfer.HonestTransfer: assumes that the responses are sent and the application takes all data; other behaviour is covered by `RtcFiles.ReceiverIsBounded`.
- RtcPinRuns.ChallengeEndsInAgreement: messages that cannot be parsed and failing sends are covered by `RtcPin.VerifyPin` and `RtcPin.HandlePin` only; what an unread PIN does to the exchange after the challenge is not modelled. Each result is one message, which `RtcChunks.FramedRoundTrip` justifies for those sent in chunks.
- SignalingRuns.OverlappingPeersAreIntroducedOnce: counts the notices handed to a connection's queue; their order across connections, and the forwarding of updates, offers and answers, are not modelled.
- Guards and handlers of the host are phases of the state machine, not objects; their blocks under the lock are the methods of `UploadSlot.V2State`.
- The file name of the archive itself, sockets, TLS, certificates, HTTP parsing and headers, SDP, nonce and token signatures, pairing, and all tracing.
- Web download sessions, the chat hub, previews and polling of the page, translations, and the Flutter application.
