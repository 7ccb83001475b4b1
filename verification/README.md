# Vehicle detection: a verified model

A Dafny model of the vehicle detection nodes: the sender that posts and saves
detections from two threads, the JSON printer and the JSONL file behind it, the
HTTP client, the playlist and playback of PCD files, the cluster-to-detection
step, and the parameter/JSON conversions. `dafny verify dfyconfig.toml` checks
everything.

Byte strings are Dafny strings with one character per byte; the theorems hold
for all strings, hence for all byte strings. Doubles are exact reals with a
sign, infinities and NaN. System calls (`send`, `recv`, opening and writing
files, the answer to a POST) are arbitrary inputs, so each statement holds for
whatever they do.

| module | what it covers |
|---|---|
| `SenderConfig`, `SenderProtocol`, `SenderSafety`, `SenderWire`, `SenderProgress`, `SenderIntake`, `SenderAudit`, `SenderNode` | the sender: configuration snapshot, executor/worker protocol as a step relation, its invariants, network traffic, termination, what is enqueued and saved, agreement of HTTP stream and file, the object itself |
| `JsonEscape`, `NumberFormat`, `CivilTime`, `DetectionJson` | the printer |
| `Json`, `JsonRoundTrip`, `PayloadRoundTrip` | a reference JSON parser from RFC 8259 and what it recovers |
| `ResultWriter` | the append-only file |
| `HttpUrl`, `HttpClient` | URL parsing, byte loops, status line, request framing |
| `Glob`, `Playlist`, `Playback` | file-name matching, playlist resolution, cached playback |
| `Detector` | boxes, size filter, cluster loop, sender payload |
| `ParameterJson` | parameters as JSON and back |
| `EndToEnd` | detector to receiver |
| `Prelude`, `TextOrder`, `Decimal`, `Division`, `Doubles`, `Unicode` | vocabulary |

## How the sender is modelled

`SenderProtocol.Do` takes one step per region under a lock. The notification
behind an unlock is a step of its own, and so are the worker's test of the wait
predicate, its falling asleep (which releases the lock) and its wake-up, which
may be spurious. Callbacks and the destructor run on one thread, as the
single-threaded executor runs them, and interleave with the worker in any way.
Every body carries its enqueue rank as a tag and the state carries a log; no
step reads either. `SenderNode.DetectionSender` is the node as an object over
fields. `Represents` says which protocol states an object stands for, and each
method is proved to take an object that stands for a state to one that stands for
the state behind the protocol's step, or behind the steps of a whole callback.

## Where the code does not do what it says

- `wildcard_match` tests for a literal before it tests for a star, so a `*` in a
  file name is taken as a literal star of the pattern: `*` does not match `*a`,
  although the header says it matches any characters. `Glob.AgreesOnTextIff` and
  `Glob.AgreesOnPatternIff` say exactly for which texts and for which patterns
  the code means what the header says.
- `format_double` cuts at 31 characters. With exactly 30 characters in front of
  the point the text ends in the point and is no JSON
  (`NumberFormat.PrintedIsNumberIff`, `PayloadRoundTrip.SerializedIsJsonIff`; two
  to the 97th is such a value, `NumberFormat.ThirtyCharactersExist`). From 32 on a
  smaller number is read, and decimals that do not fit are lost
  (`NumberFormat.PrintedReadsRoundingIff`).
- `format_iso8601_utc` has 24 characters exactly when the nanoseconds are below
  one second (`CivilTime.StampLengthIff`).
- A failed write leaves its fragment in the file and the next line is glued to
  it; so is the first line behind a file that did not end in a line feed.
  `ResultWriter.LinesSurviveIff` says for every run when the lines are those
  reported as saved, `ResultWriter.TornLineGlues` gives a run where they are not.
- The status of a response depends on its chunking when its first line ends
  behind byte 65537 (`HttpClient.ChunkingIndependentIff`).
- `parse_http_url` accepts line breaks inside host, port and path and the request
  copies them into its header; the request then reads back differently
  (`HttpClient.EndpointReadsIff`, `HttpClient.LineBreakIsAccepted`).
- The `Host` field drops the brackets of an address literal, so that without a
  port the end of the address is taken for one (`HttpClient.HostReadsBackIff`,
  `HttpClient.BracketsAreLost`).
- Non-finite doubles and strings that are no UTF-8 do not survive the trip as JSON
  text: the first are written as `null`, the second make `dump()` throw
  (`ParameterJson.TextRoundTripIff`, `ParameterJson.LoneByteIsRefused`).
- `retry_count + 1` overflows for the largest int64, and one attempt may then be
  all (`SenderWire.RetriesPromisedIff`).
- A directory that cannot be opened is not reported as such, but as one without
  matching files: the error code is tested only inside the loop
  (`Playlist.AnnouncedIff`, `Playlist.NothingMatchedIff`).

## Model

| member | source | states |
|---|---|---|
| SenderSafety.WakeupNeverLost | src/vehicle_detection/src/detection_sender_node.cpp:420-453 | in every reachable state a sleeping worker with work or a stop request is still owed a notify; at most one worker is ever started; queued work, and an HTTP mode between callbacks, imply it was |
| SenderSafety.QueueIsRecentHistory | src/vehicle_detection/src/detection_sender_node.cpp:420-433 | the queue is a suffix of everything ever enqueued and holds at most 32 bodies |
| SenderSafety.ExactlyOneFate | src/vehicle_detection/src/detection_sender_node.cpp:420-478 | every enqueued body is in exactly one of queued, in flight, posted, skipped, dropped, cleared, and cleared only after stop |
| SenderSafety.PoppedInOrder | src/vehicle_detection/src/detection_sender_node.cpp:451-452 | bodies are popped in strictly increasing enqueue order |
| SenderSafety.DropOnlyOldestWhenFull | src/vehicle_detection/src/detection_sender_node.cpp:424-429 | a body is dropped only when 32 are queued and it is the oldest |
| SenderSafety.SkippedOnlyAfterModeChange | src/vehicle_detection/src/detection_sender_node.cpp:454-457 | a popped body is skipped only if the snapshot in force when it was enqueued had an HTTP mode and the later one read now has none |
| SenderSafety.SkippedShowsModeChange | src/vehicle_detection/src/detection_sender_node.cpp:415-457 | for every body ever skipped the history of snapshots shows that change |
| SenderSafety.SnapshotAlwaysValid | src/vehicle_detection/src/detection_sender_node.cpp:171-199 | the snapshot in force is always valid and its URL the parse of its endpoint |
| SenderSafety.ControlKept | src/vehicle_detection/src/detection_sender_node.cpp:112-122 | every step of either thread keeps the wake-up, worker and phase invariant |
| SenderSafety.HistoryKept | src/vehicle_detection/src/detection_sender_node.cpp:424-452 | every step keeps the queue the rest of the history |
| SenderWire.AttemptsExact | src/vehicle_detection/src/detection_sender_node.cpp:458-467 | a processed body was attempted up to the first success, otherwise exactly retry_count + 1 times |
| SenderWire.RetriesPromisedIff | src/vehicle_detection/src/detection_sender_node.cpp:459-460 | in every run bodies that are never accepted get retry_count + 1 attempts, exactly for retry counts below the largest int64 |
| SenderWire.OnlyPoppedBodiesArePosted | src/vehicle_detection/src/detection_sender_node.cpp:446-457 | queued, dropped, cleared and skipped bodies were never posted |
| SenderWire.PostsGoWhereConfigured | src/vehicle_detection/src/detection_sender_node.cpp:454-463 | every post carries an enqueued body unchanged to the parsed endpoint of the one HTTP snapshot it is processed under, never to a stale URL |
| SenderProgress.ShutdownIsBounded | src/vehicle_detection/src/detection_sender_node.cpp:112-122 | after stop every schedule is bounded, nothing is popped, and only the attempts left for the body in flight are made |
| SenderProgress.ShutdownNeverStuck | src/vehicle_detection/src/detection_sender_node.cpp:112-122 | after stop a step is possible exactly until the worker is gone and the node destroyed |
| SenderProgress.QueueDrains | src/vehicle_detection/src/detection_sender_node.cpp:435-478 | with the executor idle the worker waits after boundedly many of its steps, and then no body is queued or in flight |
| SenderAudit.PostedFramesAreSaved | src/vehicle_detection/src/detection_sender_node.cpp:387-478 | with saving on and nothing failed, each file holds one line per frame saved to it and the posted frames are a subsequence of the saved ones, byte for byte, across changes of mode and path |
| SenderAudit.PostedFramesAreLines | src/vehicle_detection/src/detection_sender_node.cpp:392-417 | with one path, the same read back from the file at its line feeds |
| SenderIntake.HttpFramesAreEnqueued | src/vehicle_detection/src/detection_sender_node.cpp:387-431 | in every interleaving the bodies enqueued are exactly the frames received under an HTTP mode, serialized, once each, in order, up to the one in hand |
| SenderIntake.TopicFramesArePublished | src/vehicle_detection/src/detection_sender_node.cpp:406-411 | in every interleaving the frames published are exactly those received under the modes ros_topic and both, in order, up to the one in hand |
| SenderIntake.WantedFramesAreSaved | src/vehicle_detection/src/detection_sender_node.cpp:387-404 | without failed writes the payloads saved are exactly the frames received with saving on, whatever the mode, up to the one in hand |
| SenderIntake.PostedFramesWereReceived | src/vehicle_detection/src/detection_sender_node.cpp:387-478 | in every run, failing or not, the posted frames are a subsequence of the frames received under an HTTP mode |
| SenderNode.DetectionSender.constructor | src/vehicle_detection/src/detection_sender_node.cpp:78-110 | the object stands for the protocol's initial state behind its first step |
| SenderNode.DetectionSender.EnsureHttpWorkerStarted | src/vehicle_detection/src/detection_sender_node.cpp:309-318 | simulates the protocol's start of the worker, and starts a thread exactly when the protocol counts one |
| SenderNode.DetectionSender.EnqueueHttp | src/vehicle_detection/src/detection_sender_node.cpp:420-431 | simulates the protocol's enqueue with drop-oldest |
| SenderNode.DetectionSender.OnDetections | src/vehicle_detection/src/detection_sender_node.cpp:387-418 | simulates the protocol's run for one frame, from receipt over the save to the enqueue and its notify; publishing follows the mode |
| SenderNode.DetectionSender.OnParameterChange | src/vehicle_detection/src/detection_sender_node.cpp:224-307 | simulates the protocol's run for one batch: nothing when it is rejected, else swap, worker and writer |
| SenderNode.DetectionSender.TakeNext | src/vehicle_detection/src/detection_sender_node.cpp:439-453 | simulates the worker's test of the predicate; what it finds shows the worker's next state and the body it holds |
| SenderNode.DetectionSender.ProcessBody | src/vehicle_detection/src/detection_sender_node.cpp:454-467 | simulates copying the snapshot and every attempt for the body held, up to the first success or the budget |
| SenderNode.DetectionSender.RequestStop | src/vehicle_detection/src/detection_sender_node.cpp:114-117 | simulates the protocol's stop request |
| SenderConfig.Configuration.constructor | src/vehicle_detection/src/detection_sender_node.cpp:155-169 | the first snapshot holds the parameters and is coherent with its endpoint |
| SenderConfig.Configuration.EnforceInitialParameters | src/vehicle_detection/src/detection_sender_node.cpp:171-199 | construction goes on exactly with a valid snapshot, else the first fault is reported |
| SenderConfig.Configuration.OnParameterChange | src/vehicle_detection/src/detection_sender_node.cpp:224-307 | a rejected batch changes nothing, an accepted one is applied whole and leaves a valid, coherent snapshot |
| SenderConfig.LastEntryWins | src/vehicle_detection/src/detection_sender_node.cpp:236-261 | each field becomes the last entry about it, or stays |
| SenderConfig.CandidateIsCoherent | src/vehicle_detection/src/detection_sender_node.cpp:241-244 | URL and validity never drift from the endpoint |
| SenderConfig.ValidIffNoFault | src/vehicle_detection/src/detection_sender_node.cpp:263-296 | the checks accept exactly the valid snapshots |
| SenderConfig.ModesAre | src/vehicle_detection/src/detection_sender_node.cpp:51-72 | which modes exist, which publish and which post |
| SenderConfig.FirstFault | src/vehicle_detection/src/detection_sender_node.cpp:263-296 | the first failing check is the one reported |
| SenderConfig.TouchesWriterIff | src/vehicle_detection/src/detection_sender_node.cpp:252-261 | an entry re-configures the writer exactly when it can change what the writer is configured from |
| JsonEscape.EscapeJsonString | src/vehicle_detection/src/detection_json.cpp:45-71 | the escaping loop computes the character-wise escape |
| JsonEscape.EscapeIsPrintable | src/vehicle_detection/src/detection_json.cpp:45-71 | escaped text has no byte below 0x20 |
| JsonRoundTrip.CharsParse | src/vehicle_detection/src/detection_json.cpp:45-71 | an RFC 8259 string reader inverts the escaping for every string |
| JsonRoundTrip.EscapeIsShortest | src/vehicle_detection/src/detection_json.cpp:45-71 | no JSON spelling of a character is shorter than the one printed |
| JsonRoundTrip.CompactParses | src/vehicle_detection/src/detection_json.cpp:92-126 | the reference parser inverts compact text for every tree, and refuses it when a lexeme is cut at its point |
| NumberFormat.RoundHalfEven | src/vehicle_detection/src/detection_json.cpp:41 | nearest integer, ties to even |
| NumberFormat.PrintedShape | src/vehicle_detection/src/detection_json.cpp:35-43 | what `%.6f` leaves in 32 bytes, by the width in front of the point |
| NumberFormat.PrintedIsNumberIff | src/vehicle_detection/src/detection_json.cpp:35-43 | the text is a JSON number except at width 30, where it ends in the point |
| NumberFormat.PrintedReadsBack | src/vehicle_detection/src/detection_json.cpp:35-43 | inside 24 digits (23 when negative) it reads back as the six-decimal rounding, non-finite as 0.0 |
| NumberFormat.PrintedIsClose | src/vehicle_detection/src/detection_json.cpp:35-43 | which is within 0.5e-6 of the value |
| NumberFormat.PrintedReadsRoundingIff | src/vehicle_detection/src/detection_json.cpp:35-43 | for every finite value: it is read as its six-decimal rounding exactly for widths up to 31 other than 30 whose decimals that do not fit are zeros |
| NumberFormat.ThirtyCharactersExist | src/vehicle_detection/src/detection_json.cpp:35-43 | a double whose text is no JSON number |
| CivilTime.GmTime | src/vehicle_detection/src/detection_json.cpp:77-83 | the broken-down time is valid and counts to the second |
| CivilTime.DayInClosedForm | src/vehicle_detection/src/detection_json.cpp:77-83 | every valid date lies on the day the Gregorian calendar gives it, in closed form without month lengths or leap years |
| CivilTime.GmTimeInClosedForm | src/vehicle_detection/src/detection_json.cpp:77-83 | so the broken-down time of a second is its day in that calendar and its time of day |
| CivilTime.CivilOrder | src/vehicle_detection/src/detection_json.cpp:77-83 | civil order is the order of seconds, so that time is unique |
| CivilTime.StampReadsBack | src/vehicle_detection/src/detection_json.cpp:75-90 | every int32 stamp decodes to its second and floored millisecond |
| CivilTime.StampLengthIff | src/vehicle_detection/src/detection_json.cpp:75-90 | 24 characters exactly for nanoseconds below one second |
| CivilTime.StampOrder | src/vehicle_detection/src/detection_json.cpp:75-90 | string order of stamps is time order to the millisecond |
| DetectionJson.SerializeItem | src/vehicle_detection/src/detection_json.cpp:106-122 | the streamed pieces of one detection are the compact text of its tree |
| DetectionJson.SerializeDetections | src/vehicle_detection/src/detection_json.cpp:92-126 | the stream is the compact text of the payload's document |
| PayloadRoundTrip.SerializedIsJsonIff | src/vehicle_detection/src/detection_json.cpp:92-126 | for every payload the text parses to its document, unless a number was cut at its point |
| PayloadRoundTrip.SerializedReceived | src/vehicle_detection/src/detection_json.cpp:92-126 | a receiver gets strings exactly, numbers to six decimals, time to the millisecond |
| PayloadRoundTrip.SerializedEqualIff | src/vehicle_detection/src/detection_json.cpp:92-126 | payloads share an output exactly when they agree after that rounding |
| PayloadRoundTrip.SerializedIsPrintable | src/vehicle_detection/src/detection_json.cpp:45-126 | no serialized payload holds a byte below 0x20 |
| ResultWriter.DetectionResultWriter.constructor | src/vehicle_detection/src/detection_result_writer.cpp:53-55 | disabled, closed, no error |
| ResultWriter.DetectionResultWriter.Configure | src/vehicle_detection/src/detection_result_writer.cpp:59-98 | all fields, files and the result, on every path |
| ResultWriter.DetectionResultWriter.Append | src/vehicle_detection/src/detection_result_writer.cpp:100-126 | all fields, files and the result, for complete, failed and partial writes |
| ResultWriter.WriterIs | src/vehicle_detection/src/detection_result_writer.cpp:59-126 | after any run of calls the writer is open exactly when the last configure opened a file and no append since failed; otherwise its error names what went wrong first |
| ResultWriter.ReportedIff | src/vehicle_detection/src/detection_result_writer.cpp:59-126 | each call reports success exactly when it did what it was asked |
| ResultWriter.SilentAfterFailure | src/vehicle_detection/src/detection_result_writer.cpp:103-125 | after a failed write or flush, until the next configure, every append reports failure, no file changes and nothing is recorded |
| ResultWriter.FilesOnlyGrow | src/vehicle_detection/src/detection_result_writer.cpp:59-126 | no run of calls, failing or not, loses a byte of any file |
| ResultWriter.FileIsRecord | src/vehicle_detection/src/detection_result_writer.cpp:59-126 | without failed writes each file is its former content and one line per successful append, in order |
| ResultWriter.AddedLinesIff | src/vehicle_detection/src/detection_result_writer.cpp:100-126 | the added lines are exactly those payloads if and only if the file was empty or ended in LF |
| ResultWriter.AddedLinesAreReceived | src/vehicle_detection/src/detection_result_writer.cpp:100-126 | each added line is received as its payload |
| ResultWriter.LinesSurviveIff | src/vehicle_detection/src/detection_result_writer.cpp:100-126 | for every run, failing or not: the lines added are the payloads reported as saved if and only if each successful append found the file empty or ending in LF and no failed one took its whole line |
| ResultWriter.TornLineGlues | src/vehicle_detection/src/detection_result_writer.cpp:110-124 | a run in which the line behind a torn write is glued to the fragment |
| HttpUrl.ParseInvertsSpelling | src/vehicle_detection/src/http_client.cpp:174-227 | a URL parses to given parts exactly when it is one of their spellings, defaults included |
| HttpClient.SendAll | src/vehicle_detection/src/http_client.cpp:122-145 | for every pattern of short writes and interrupts the bytes delivered are the prefix the socket took, and each result is reported exactly for the events that cause it |
| HttpClient.CapacityAdds | src/vehicle_detection/src/http_client.cpp:130-143 | what the socket takes does not depend on how it is cut into sends and interrupts |
| HttpClient.ReceiveAll | src/vehicle_detection/src/http_client.cpp:284-303 | for every sequence of events: an error exactly when the event that ends the loop is one, unfinished exactly when none does, else exactly the bytes up to it |
| HttpClient.HttpPostJson | src/vehicle_detection/src/http_client.cpp:278-314 | a POST succeeds exactly when the whole request was taken, the response ended without an error and its status is 2xx |
| HttpClient.ReceivesPrefix | src/vehicle_detection/src/http_client.cpp:284-303 | an error-free response is received whole, or to beyond 64 KiB |
| HttpClient.ChunkingIndependentIff | src/vehicle_detection/src/http_client.cpp:147-170 | the status is independent of the chunking exactly when the first line ends in time (or there is no status) |
| HttpClient.StatusOfPrefix | src/vehicle_detection/src/http_client.cpp:147-156 | a prefix has the status of the whole once it holds the first line, -1 before |
| HttpClient.StatusLineReads | src/vehicle_detection/src/http_client.cpp:147-170 | a status line of RFC 9112 gives its code; success is 2xx |
| HttpClient.ShortStatusLineReads | src/vehicle_detection/src/http_client.cpp:157-166 | a line without a reason phrase gives its code too |
| HttpClient.OtherLinesAreRefused | src/vehicle_detection/src/http_client.cpp:149-160 | no first line, another beginning or no space gives -1 |
| HttpClient.StoiReadsSigned | src/vehicle_detection/src/http_client.cpp:165-169 | a code with spaces, sign and anything behind it is its number, or refused outside int32 |
| HttpClient.RequestReadsIff | src/vehicle_detection/src/http_client.cpp:263-276 | for every body a receiver reads back the seven header lines and the body exactly when host, port and path hold no line break |
| HttpClient.EndpointReadsIff | src/vehicle_detection/src/http_client.cpp:174-276 | and that is, exactly when the accepted endpoint holds none |
| HttpClient.LineBreakIsAccepted | src/vehicle_detection/src/http_client.cpp:174-227 | an accepted endpoint that holds one |
| HttpClient.RequestFramesBody | src/vehicle_detection/src/http_client.cpp:263-276 | framing by blank line and Content-Length then gives exactly the body |
| HttpClient.RequestSays | src/vehicle_detection/src/http_client.cpp:263-276 | a receiver reads a POST of JSON to the path of the URL, its host and its length |
| HttpClient.HostReadsBackIff | src/vehicle_detection/src/http_client.cpp:264-268 | the Host value is read back as host and port exactly for hosts without a leading bracket and no colon in whichever of them is written last |
| HttpClient.BracketsAreLost | src/vehicle_detection/src/http_client.cpp:194-205 | an accepted bracketed address whose Host value is read as another host |
| Glob.WildcardMatch | src/vehicle_detection/src/pcd_playlist.cpp:44-71 | sound for every text, complete for texts without a star, with the counted number of iterations |
| Glob.IterationsBounded | src/vehicle_detection/src/pcd_playlist.cpp:51-66 | the main loop runs at most (n+1)(m+1) times |
| Glob.Sound | src/vehicle_detection/src/pcd_playlist.cpp:51-66 | from any loop state, acceptance implies a match |
| Glob.Complete | src/vehicle_detection/src/pcd_playlist.cpp:51-66 | keeping only the last star loses no match |
| Glob.AgreesOnTextIff | src/vehicle_detection/src/pcd_playlist.cpp:52-60 | right for all patterns exactly on texts without a star |
| Glob.AgreesOnPatternIff | src/vehicle_detection/src/pcd_playlist.cpp:52-60 | right for all texts exactly for patterns without a star |
| Playlist.ResolvePcdPlaylist | src/vehicle_detection/src/pcd_playlist.cpp:105-191 | priority of the sources, first fault reported, result never empty |
| Playlist.PlaylistIgnoresIterationOrder | src/vehicle_detection/src/pcd_playlist.cpp:147-173 | the playlist does not depend on directory iteration order |
| Playlist.PlaylistMeansGlob | src/vehicle_detection/src/pcd_playlist.cpp:149-171 | it is sorted and holds exactly the regular files the glob matches as documented |
| Playlist.PathLeads | src/vehicle_detection/src/pcd_playlist.cpp:164 | an entry's path leads from the directory to the file name |
| Playlist.FromDirectoryIff | src/vehicle_detection/src/pcd_playlist.cpp:127-173 | when a scan gives a playlist, and which fault is reported when it does not |
| Playlist.EntryIff | src/vehicle_detection/src/pcd_playlist.cpp:84-101 | a path can be an entry exactly when it exists and is no directory |
| Playlist.NothingMatchedIff | src/vehicle_detection/src/pcd_playlist.cpp:149-170 | "no files matched" is reported exactly for a directory that cannot be opened or holds no accepted regular file |
| Playlist.AnnouncedIff | src/vehicle_detection/src/pcd_playlist.cpp:149-155 | the resolution is the announced one exactly unless the directory to scan cannot be opened |
| TextOrder.SortedPermutationIsUnique | src/vehicle_detection/src/pcd_playlist.cpp:171 | any sort gives this result |
| Playback.PcdLoader.constructor | src/vehicle_detection/src/pcd_loader_node.cpp:65-73 | the first entry is loaded eagerly; start-up fails exactly when it does not load |
| Playback.PcdLoader.LoadIndex | src/vehicle_detection/src/pcd_loader_node.cpp:149-200 | the cache holds the entry asked for, or nothing when it does not load |
| Playback.PcdLoader.PublishCached | src/vehicle_detection/src/pcd_loader_node.cpp:202-209 | publishes the cached message with the current time, if there is one |
| Playback.PcdLoader.TickPublish | src/vehicle_detection/src/pcd_loader_node.cpp:211-239 | each tick shows what the uncached player shows, never a stale frame |
| Playback.PlaysOnce | src/vehicle_detection/src/pcd_loader_node.cpp:221-238 | without looping the entries that load are shown once each, in order, and then nothing more |
| Playback.LoopRepeats | src/vehicle_detection/src/pcd_loader_node.cpp:223-230 | looping repeats whole passes |
| Detector.ComputeAabb | src/vehicle_detection/src/point_cloud_processing.cpp:182-206 | the smallest box around the in-range points of a cluster |
| Detector.SelectedIff | src/vehicle_detection/src/point_cloud_processing.cpp:193-197 | exactly the in-range indices of a cluster select a point |
| Detector.VehicleIff | src/vehicle_detection/src/point_cloud_processing.cpp:47-65 | a cluster passes exactly when its larger and smaller horizontal and its vertical extent lie within the limits of length, width and height |
| Detector.ClusterBoxInRoi | src/vehicle_detection/src/point_cloud_processing.cpp:182-206 | the box lies in the region the points were cropped to |
| Detector.EmptyClusterIsNoVehicle | src/vehicle_detection/src/point_cloud_processing.cpp:47-65 | a cluster without points passes only with minima of minus infinity |
| Detector.Kept | src/vehicle_detection/src/vehicle_detector_node.cpp:415-430 | in order, exactly the clusters that pass the size filter |
| Detector.DetectVehicles | src/vehicle_detection/src/vehicle_detector_node.cpp:415-448 | ids 1..m in order over exactly those clusters, each with its own box |
| Detector.DetectionsEnclose | src/vehicle_detection/src/vehicle_detector_node.cpp:427-436 | on each axis the published centre minus and plus half the size are the least and the greatest coordinate of the cluster |
| Detector.ToJsonPayload | src/vehicle_detection/src/detection_sender_node.cpp:355-385 | one item per detection, first hypothesis or none |
| Detector.ItemMeans | src/vehicle_detection/src/detection_sender_node.cpp:363-382 | an item has the box centre, yaw 0 and the first hypothesis, or none |
| Detector.SenderAgreesWithDetector | src/vehicle_detection/src/detection_sender_node.cpp:376-380 | recomputed length, width, height equal the detector's and lie within its limits |
| ParameterJson.ConvertItems | src/vehicle_detection/src/parameter_json.cpp:203-238 | the array loop converts all items or fails at the first that does not |
| ParameterJson.JsonToParameterValue | src/vehicle_detection/src/parameter_json.cpp:189-248 | every type and every refusal |
| ParameterJson.IntegerIff | src/vehicle_detection/src/parameter_json.cpp:63-99 | a number converts exactly when it is an integer in [-2^63, 2^63) |
| ParameterJson.NumberIsTrueIff | src/vehicle_detection/src/parameter_json.cpp:106-108 | a number is true exactly when it is not zero |
| ParameterJson.TextIsBoolIff | src/vehicle_detection/src/parameter_json.cpp:109-114 | a text is a boolean exactly when it is what that boolean, or the integer it converts to, is printed as |
| ParameterJson.TextIsDump | src/vehicle_detection/src/parameter_json.cpp:117-126 | a boolean or number becomes the text it is printed as |
| ParameterJson.BooleanNumbersAgree | src/vehicle_detection/src/parameter_json.cpp:55-57 | a boolean is the same number as integer and as double |
| ParameterJson.NumberToDouble | src/vehicle_detection/src/parameter_json.cpp:52-54 | a number becomes the same double wherever the library rounds exactly |
| ParameterJson.OthersAreRefused | src/vehicle_detection/src/parameter_json.cpp:50-127 | nothing else converts |
| ParameterJson.ArraysDecodeIff | src/vehicle_detection/src/parameter_json.cpp:203-238 | arrays decode element by element, and only from arrays |
| ParameterJson.DecodedHasType | src/vehicle_detection/src/parameter_json.cpp:189-248 | a decoded parameter has the type asked for; byte arrays and undeclared types never decode |
| ParameterJson.RoundTrip | src/vehicle_detection/src/parameter_json.cpp:147-248 | decoding the encoded value at its type returns it |
| ParameterJson.OverTextIs | src/vehicle_detection/src/parameter_bridge_node.cpp:255-350 | printed and parsed by the reference parser a value comes back up to the kind of its integers and non-finite doubles, and printing fails exactly when a string is no UTF-8 |
| ParameterJson.TextRoundTripIff | src/vehicle_detection/src/parameter_json.cpp:63-99 | the round trip over JSON text holds exactly when no double is non-finite and every string is UTF-8 |
| Unicode.WellFormedIff | src/vehicle_detection/src/parameter_bridge_node.cpp:266 | the strings that can be printed are exactly the encodings of sequences of scalar values |
| EndToEnd.PostedPayloadIsReceived | src/vehicle_detection/src/http_client.cpp:263-276 | the framed and parsed request gives the payload |
| EndToEnd.DetectedFrameIsReceived | src/vehicle_detection/src/vehicle_detector_node.cpp:415-448 | the receiver gets one numbered, labelled item per passing cluster |
| EndToEnd.ReceivedBoxEncloses | src/vehicle_detection/src/vehicle_detector_node.cpp:415-448 | the box the receiver reads encloses every point of its cluster to one millionth |

## Left out

- PCL filters (voxel grid, crop box, RANSAC, clustering), TF lookup and ROS message conversion: library code; the detector theorems take the cloud and the clusters as given and assume only that crop and ground removal select points.
- Rounding of double arithmetic in box sizes and centres: exact on reals; the agreement of sender and detector does not depend on it.
- Socket set-up, name resolution, timeouts and `select`: operating-system plumbing.
- Text of log messages and of rejection reasons: reasons are constructors.
- The parameter bridge's routing, HTTP server and web page, the launch file, presets, markers and the Python receiver: configuration and thin wrappers.
- The detector's own parameter checks: one-branch facts.
- UTF-8 validity of detection strings: the detection printer copies their bytes as they are, and so do its theorems. Parameters are printed by the JSON library, whose check is modelled.
- The decimal text of doubles in the JSON library: any text that the library reads back as the double.
- SenderProgress.ShutdownIsBounded: excludes the one retry count whose successor overflows as long as it can still be read, because the number of attempts is then undefined.
- SenderProgress.QueueDrains: excludes the same retry count for the same reason.
- SenderNode.DetectionSender.OnDetections: is about a callback that no step of the worker interrupts; interleavings are covered by the theorems over the step relation.
- Wall-clock time and scheduling fairness: progress is stated as bounds on steps.
- The `name` and `type` members beside an encoded parameter's value: constants and copies.
- Hard links and symbolic links between result paths: files are told apart by path.
- A directory iterator that throws while advancing: the model covers complete iterations and a failure to open.
