# drive-capture, modelled in Dafny

drive-capture moves Google Drive videos to an rclone remote with two
cooperating programs:

- **The extension's background engine** (`extension/background.js`) keeps a
  native-messaging port open to the worker. It reconnects with exponential
  backoff. For each `capture` request it opens the file's Drive page in a tab,
  attaches the debugger, and watches the tab's network traffic for the video
  API response. It answers with a `result` carrying the URL of the last
  progressive transcode, or an error.
- **The worker** (`worker/worker.py`) reads the job list from a CSV file and
  skips ids already in its completed file. It asks the extension for captures,
  at most `max_captures` at a time. Each captured URL goes to `rclone copyurl`,
  and rclone's progress is forwarded at most once every 300 seconds per file.

The project models both as sequential state machines, one event or one
worker-loop iteration per step.

- `common.dfy`: `Common`. `Option` and the string predicates both sides use
  (`startsWith`, Python's `in` on strings, truthiness).
- `framing.dfy`: `Framing`. The native-messaging framing of `send_message` and
  `read_message` on bytes: a 4-byte little-endian length, then an opaque body.
  It includes the round trips for one frame and for a whole stream.
- `background_state.dfy`: `BackgroundState`. The engine's values and pure
  computations:
  - the backoff table;
  - the messages;
  - the `capturedRequests` entries, keyed by tab or by request id;
  - the phases of a capture promise;
  - the last-transcode pick;
  - per-tab cleanup, eviction and the `finally` release, on a value-level
    `Registry`.

  It also defines the engine's consistency invariant and proves that each
  transition keeps it.
- `background.dfy`: `Background.Engine`, a class over the module-level state
  of `background.js`. It has one method per handler, callback and timer, each
  specified against the `BackgroundState` functions. The `for…of` loop of the
  disconnect handler and the delete loop of `cleanupTabResources` are loops
  with invariants.
- `worker_jobs.dfy`: `Jobs`. The worker's pure parts:
  - row-to-job construction and filtering (`load_jobs`);
  - Python's `strip()` and the completed-file round trip;
  - output-line classification and the progress rate limiter as a fold;
  - the rclone target and command.
- `worker.dfy`: `Worker.Pipeline`, a class over the worker's global state: its
  queues, `active_captures`, `completed`, the completed file,
  `last_progress_update` and the messages sent. Its methods are the startup,
  the loop bodies of `capture_worker`, `transfer_worker` and
  `heartbeat_worker`, `run_rclone` with its output loop, `save_completed` and
  `handle_extension_message`.

Messages are recorded rather than written: `sent` in both classes, and
`closedTabs` for `chrome.tabs.remove`. Everything the environment decides is a
parameter of the method for that event:
- whether `connectNative` throws;
- the tab id Chrome hands out;
- the parsed transcode list of a response;
- the CSV rows and completed-file lines;
- rclone's output lines with their times, and its exit code.

## Behaviour as written

The model follows the code in these places:

- A disconnect cleans up the owned tabs but does not reject captures in flight.
  Their tab-capture entries survive the cleanup, because those entries carry
  no `tabId`.
- Evicting the oldest tab at `MAX_TABS` does not reject its capture.
- `activeTabs` can hold more than `MAX_TABS` tabs. The check happens before the
  asynchronous tab creation, so `StartLegacyCapture` promises only the
  eviction step, not a bound.
- There is no retry or page reload on timeout. A `result` carries one `url` or
  one `error`, nothing else.
- `read_message` returns no message for a declared length of zero: reading zero
  bytes gives `b''`, and the `not message_data` test rejects it. The framing
  round trip therefore needs a non-empty body.
- A CSV row without a `file_id` column raises inside the `try` of `load_jobs`,
  so loading stops there and the jobs collected so far are returned.
  `csv.DictReader` gives every row every header column (short rows get
  `None`), so in practice a row lacks `file_id` only when the header does. The
  first row then raises and nothing is loaded. `Jobs.PendingJobs` is defined
  over any sequence of rows. `Jobs.PendingJobsStopAtMissingId` and
  `Jobs.PendingJobsComplete` therefore also describe mixes of rows, with and
  without the column, that the reader never yields.

## Model

| member | source | states |
|---|---|---|
| Framing.HeaderValue | worker/worker.py:72 | the value of a 4-byte header is below 2^32 |
| Framing.Header | worker/worker.py:89 | a length below 2^32 packs into exactly four bytes |
| Framing.HeaderRoundTrip | worker/worker.py:72-89 | unpacking a packed length gives the length back |
| Framing.HeaderValueInverse | worker/worker.py:72 | every 4-byte header is the packing of its own value, so headers and lengths correspond one to one |
| Framing.Frame | worker/worker.py:85-100 | a frame exists exactly when the body is shorter than 2^32; it is 4 bytes longer than the body and ends with the body |
| Framing.ReadMessage | worker/worker.py:63-83 | fewer than 4 bytes give no message; a message has a non-empty body taken right after the header, and the rest of the stream follows it |
| Framing.FrameThenRead | worker/worker.py:63-100 | reading a framed non-empty body followed by anything returns that body and exactly what followed |
| Framing.ReadIsFrame | worker/worker.py:63-83 | whatever is read is the frame of the returned body followed by the rest (the converse round trip) |
| Framing.TruncatedFrameUnreadable | worker/worker.py:67-77 | a stream cut anywhere inside a frame (short header or short body) yields no message |
| Framing.EmptyBodyUnreadable | worker/worker.py:75-77 | a frame with an empty body is never read back |
| Framing.ReadAll | worker/worker.py:362-368 | the main loop only ever obtains non-empty bodies |
| Framing.ReadAllStream | worker/worker.py:362-368 | the main loop reads back exactly the sequence of non-empty bodies that was framed, in order |
| BackgroundState.ReconnectDelay | extension/background.js:97 | the delay is one of the six table values, between 1000 and 30000 ms, and 30000 once the attempts reach the end of the table |
| BackgroundState.DelayMonotone | extension/background.js:97 | more attempts never shorten the delay |
| BackgroundState.DelayDoubles | extension/background.js:8 | below the cap each attempt doubles the delay |
| BackgroundState.DelayIsCappedExponential | extension/background.js:8 | attempt a waits min(1000·2^a, 30000) ms |
| BackgroundState.ResultOf | extension/background.js:209-216 | a result names the file; a resolved capture gives url set and error null, a rejected one url null and error set to the message |
| BackgroundState.ViewUrl | extension/background.js:165 | the capture page starts with the Drive file prefix, has the file id right after it, and ends with `/view` |
| BackgroundState.ViewUrlInjective | extension/background.js:165 | distinct files never share a capture page |
| BackgroundState.PickVideoUrl | extension/background.js:264-273 | a URL is picked exactly when the list is present, non-empty and its last element has a non-empty url, and it is that url |
| BackgroundState.PickIgnoresEarlier | extension/background.js:267 | the elements before the last never change the pick |
| BackgroundState.Without | extension/background.js:137 | deleting from the insertion-ordered set removes exactly that tab and keeps it duplicate-free |
| BackgroundState.WithoutAt | extension/background.js:137 | deleting a member removes exactly its position and keeps the order of the rest |
| BackgroundState.WithoutCommutes | extension/background.js:137 | two deletions give the same set in either order |
| BackgroundState.DistinctCount | extension/background.js:299 | a duplicate-free sequence has as many distinct members as its length, so the set's size is the sequence's length |
| BackgroundState.AppendFresh | extension/background.js:168 | adding a tab the set does not hold keeps it duplicate-free |
| BackgroundState.Cleanup | extension/background.js:125-140 | cleanup of t deletes exactly the entries whose tabId is t, keeps every other entry unchanged, removes only t from activeTabs and closes t |
| BackgroundState.CleanupIdempotent | extension/background.js:125-140 | cleaning a tab twice leaves the same tabs and entries as once |
| BackgroundState.CleanupCommutes | extension/background.js:125-140 | cleanups of two tabs do not interfere |
| BackgroundState.CleanupConsistent | extension/background.js:125-140 | cleanup keeps the engine's tables consistent |
| BackgroundState.MakeRoom | extension/background.js:153-157 | below MAX_TABS nothing changes; at MAX_TABS or more the first-inserted tab is cleaned up |
| BackgroundState.MakeRoomEvictsOldest | extension/background.js:153-157 | eviction removes exactly the oldest tab, keeps the others in order and closes only it |
| BackgroundState.Release | extension/background.js:197-206 | the finally handler finds an entry only for a capture waiting on its tab; then it cleans that tab up and deletes the entry, and otherwise changes nothing |
| BackgroundState.OpenConsistent | extension/background.js:159 | registering a new promise keeps the tables consistent |
| BackgroundState.TabCreatedConsistent | extension/background.js:166-168 | adding a freshly created tab keeps the tables consistent |
| BackgroundState.AttachedConsistent | extension/background.js:175-182 | storing the capture under its tab keeps the tables consistent |
| BackgroundState.ExchangeConsistent | extension/background.js:239-248 | recording an exchange with the video API host for a tracked tab keeps the tables consistent, including the invariant that every exchange is such a request |
| BackgroundState.ReleaseConsistent | extension/background.js:191-206 | settling a capture keeps the tables consistent without it |
| Background.Engine.constructor | extension/background.js:13-21 | the initial state: no port, not connected, no attempts or timer, empty tables |
| Background.Engine.SendMessage | extension/background.js:107-120 | posts exactly the message when a port exists; otherwise returns false and sends nothing |
| Background.Engine.ScheduleReconnect | extension/background.js:94-100 | a no-op while a timer is pending; otherwise arms one timer with the backoff delay for the current attempt |
| Background.Engine.Connect | extension/background.js:24-39 | success opens the port and sends one hello with version 2.0; failure sends nothing and schedules a reconnect |
| Background.Engine.ReconnectTimerFires | extension/background.js:100-104 | clears the timer, increments reconnectAttempt by exactly one, then connects |
| Background.Engine.Alarm | extension/background.js:290-292 | connects only when not connected; otherwise nothing changes |
| Background.Engine.HandleMessage | extension/background.js:41-78 | ready sets connected and resets the attempts; ping sends one pong; capture starts a capture; status, progress, error and unknown types change nothing |
| Background.Engine.HandleDisconnect | extension/background.js:80-92 | afterwards: not connected, no port, activeTabs empty, every owned tab closed in order, only tab captures left, a timer pending, consistency kept |
| Background.Engine.CleanupAllTabs | extension/background.js:86-89 | the loop closes each owned tab in insertion order and leaves only the tab-capture entries |
| Background.Engine.CleanupTabResources | extension/background.js:125-140 | the delete loop leaves the state equal to Cleanup of the old state, consistency kept |
| Background.Engine.StartLegacyCapture | extension/background.js:143-166 | a file already in flight changes nothing; otherwise the oldest tab is evicted at MAX_TABS, the promise is registered and the file's view page is requested |
| Background.Engine.TabCreated | extension/background.js:166-168 | the new tab is appended to activeTabs and the capture moves to attaching it |
| Background.Engine.InspectorAttached | extension/background.js:170-182 | the capture is stored under its tab and waits there, consistency kept |
| Background.Engine.InitFailed | extension/background.js:184-188 | an already created (truthy) tab is cleaned up, then one rejection with the error is sent and the promise is forgotten |
| Background.Engine.CaptureTimeout | extension/background.js:175-179 | the tab is cleaned up and the capture rejected with "Capture timed out" |
| Background.Engine.Settle | extension/background.js:191-206 | exactly one result is sent (when a port exists), the finally release runs and the file leaves capturePromises |
| Background.Engine.TabRemoved | extension/background.js:220-230 | unowned tabs are ignored; an owned tab is cleaned up and its pending capture, if any, is rejected with "Tab closed unexpectedly" |
| Background.Engine.RequestWillBeSent | extension/background.js:232-248 | an exchange is recorded only for a tracked tab and a URL with the video API prefix; otherwise nothing changes |
| Background.Engine.ResponseReceived | extension/background.js:234-251 | the body is fetched exactly when the request is recorded as an exchange of that tracked tab; a fetched exchange is a request to the video API host, and the tab holds a capture whose promise is waiting on that tab |
| Background.Engine.ResponseBodyArrived | extension/background.js:252-273 | with the exchange still present, a picked URL and a capture on the tab, that capture resolves with the URL; in every other case nothing changes |
| Background.Engine.Status | extension/background.js:295-303 | reports the connected flag and `activeTabs.size`, the number of distinct owned tabs |
| Jobs.MakeJob | worker/worker.py:131-141 | every present job column is copied; a missing file_name becomes `<file_id>.mp4`; the other missing columns become empty |
| Jobs.PendingJobs | worker/worker.py:127-143 | at most one job per row, none of them completed, each built from one of the rows |
| Jobs.PendingJobsAppend | worker/worker.py:130-141 | over rows with ids, the jobs of a + b are those of a followed by those of b (CSV order) |
| Jobs.PendingJobsStopAtMissingId | worker/worker.py:127-143 | nothing after a row without file_id is loaded |
| Jobs.PendingJobsComplete | worker/worker.py:130-141 | every not-yet-completed row before the first malformed one is loaded |
| Jobs.PendingJobsAntitone | worker/worker.py:132 | a larger completed set never loads more jobs |
| Jobs.Strip | worker/worker.py:124 | the result has no whitespace at either end, and it is the input with only whitespace removed, all of it from before and after the result |
| Jobs.StripUnique | worker/worker.py:124 | any trimmed piece left after removing only whitespace at the two ends is the strip: the contract of `Strip` determines its result |
| Jobs.StripTrimmed | worker/worker.py:124 | a string without whitespace at its ends is its own strip |
| Jobs.StripIdempotent | worker/worker.py:124 | stripping twice equals stripping once |
| Jobs.StripSavedLine | worker/worker.py:158 | a saved line, newline included, strips back to the id |
| Jobs.LoadCompleted | worker/worker.py:121-124 | the loaded ids are all trimmed and include the strip of every line |
| Jobs.LoadCompletedSnoc | worker/worker.py:124 | one more line adds exactly its stripped text |
| Jobs.SavedLines | worker/worker.py:148-158 | one line per saved id |
| Jobs.ReloadSaved | worker/worker.py:121-158 | reading back the completed file gives exactly the saved ids, for ids with no whitespace at their ends and no line break inside |
| Jobs.Classify | worker/worker.py:204-216 | the text is the stripped line; it is a progress line iff it contains `Transferred:`, and an error line iff it does not but contains `ERROR` |
| Jobs.ClassifyAll | worker/worker.py:204-205 | one classified line per output line |
| Jobs.ClassifyAllEach | worker/worker.py:204-205 | each output line is classified on its own, in order |
| Jobs.MonitorLine | worker/worker.py:206-216 | a progress line is forwarded iff due, and its time is recorded only then; an error line is always forwarded; each message names the file and carries the stripped line |
| Jobs.Monitor | worker/worker.py:204-216 | at most one message per line; entries of other files are untouched; the file's recorded time never decreases |
| Jobs.MonitorSendsOnlyAbout | worker/worker.py:212-216 | the monitor sends only progress and error messages about its own file |
| Jobs.RecordedNeverDecreases | worker/worker.py:211-213 | once recorded, the file's time stays recorded and never decreases |
| Jobs.ProgressSpacing | worker/worker.py:209-213 | two forwarded progress lines of one file are at least 300 s apart |
| Jobs.NoForwardNoRecord | worker/worker.py:211-213 | while nothing is forwarded, no time is recorded |
| Jobs.FirstProgressForwarded | worker/worker.py:211 | the first progress line of a file with no recorded time is forwarded |
| Jobs.ErrorForwarded | worker/worker.py:214-216 | each error line appends its rclone_error and leaves the table alone |
| Jobs.Executable | worker/worker.py:170-172 | the configured rclone_path when truthy, else `rclone` |
| Jobs.Target | worker/worker.py:175 | the target starts with `<remote>:`, has the folder path right after it, and ends with `/<file_name>` |
| Jobs.TargetInjective | worker/worker.py:175 | for file names without `/`, the target determines folder and file name |
| Jobs.RcloneCommand | worker/worker.py:177-189 | nineteen arguments: executable, `copyurl`, the URL and the target first |
| Worker.Head | worker/worker.py:273-274 | one `get_nowait` takes the first job of a non-empty queue and nothing from an empty one |
| Worker.Pipeline.constructor | worker/worker.py:30-54 | the configuration is stored and every queue and table starts empty |
| Worker.Pipeline.LoadJobs | worker/worker.py:110-146 | without a CSV nothing is read; otherwise the stripped completed lines join completed, then the pending jobs are returned |
| Worker.Pipeline.SaveCompleted | worker/worker.py:148-160 | the id joins completed and one line `<id>\n` is appended |
| Worker.Pipeline.Start | worker/worker.py:331-346 | ready is sent; the jobs are loaded and queued; the first min(max_parallel, len(jobs)) move to the capture queue |
| Worker.Pipeline.QueueInitialCaptures | worker/worker.py:341-346 | k times the oldest job moves to the capture queue, stopping early on an empty queue |
| Worker.Pipeline.PullNext | worker/worker.py:272-276 | at most one job moves from the jobs queue to the capture queue |
| Worker.Pipeline.CaptureStep | worker/worker.py:236-259 | a job is taken only with a free slot; it is registered and requested only if not completed; active captures never exceed max_captures |
| Worker.Pipeline.Heartbeat | worker/worker.py:283-287 | one ping is sent |
| Worker.Pipeline.ReportLine | worker/worker.py:205-216 | one loop iteration sends and records exactly what MonitorLine says |
| Worker.Pipeline.MonitorOutput | worker/worker.py:204-216 | the output loop sends and records exactly what the Monitor fold says |
| Worker.Pipeline.RunRclone | worker/worker.py:163-233 | the command is built from the config; Starting, then the monitor's messages, then Success or Failed(code); the id is completed only on exit code 0; a spawn failure sends Error |
| Worker.Pipeline.TransferStep | worker/worker.py:261-281 | the oldest transfer is taken and rclone runs iff its file is not completed; a run sends run_rclone's messages, records its progress times, and completes the id only on exit code 0; a skipped transfer changes none of these; then at most one job moves to the capture queue |
| Worker.Pipeline.HandleMessage | worker/worker.py:290-320 | hello sends one ready; a result for an active capture removes it, queues the transfer iff the URL is truthy and moves at most one job; anything else changes nothing |

## Left out

- extension/popup.js is not part of this model: it only renders the status snapshot, which `Background.Engine.Status` returns.
- Chrome APIs are not modelled. `connectNative`, `tabs.create` and `tabs.remove`, the `debugger` calls, `alarms` and `runtime.onMessage` become method parameters and recorded effects.
- Promise and callback interleaving is not modelled. Each callback, including the detach callback of `cleanupTabResources`, runs atomically when called, and a settled promise's `then`/`catch`/`finally` run together in `Settle`.
- Real timers are not modelled. The 20-second capture timeout is the `CaptureTimeout` event; the 20-second heartbeat sleep and the 30-second alarm period are not modelled.
- A failing `port.postMessage` is not modelled: sending with a port always succeeds.
- A failing `Network.getResponseBody` is not modelled as its own event. Chrome still invokes the callback, with `lastError` set, and the callback then returns early and changes nothing. So the failure is the absence of a `ResponseBodyArrived` event.
- The `timestamp`, `responseBody` and `base64Encoded` fields of an exchange are not stored: nothing reads them.
- The key space of `capturedRequests` is simplified. JavaScript coerces tab ids and request ids to property names of one object. The model keeps the two apart, assuming a DevTools request id is never the decimal spelling of a tab id.
- JSON is not modelled. Parsing and serialisation (`JSON.parse`, `json.loads`, `json.dumps`) are out: the framing treats bodies as opaque bytes, the correlator takes the parsed transcode list, and the worker takes the parsed `Incoming` message. So `Framing.ReadAll` reads past two kinds of body where the worker's main loop stops: a body that is not UTF-8 JSON (`json.loads` raises and `read_message` returns `None`) and a body that decodes to JSON `null` (`msg is None`).
- Worker threads are not modelled: no races on `active_captures`, no blocking `get(timeout=1)` reads, no `shutdown` event. Each loop iteration is one sequential step.
- Subprocesses and files are not modelled. rclone's run is the `RcloneRun` value; the CSV rows and completed-file lines are parameters; the completed file is the `completedFile` sequence. A failed append in `save_completed` (ignored by its `except: pass`, which leaves the id in `completed` but not in the file) is not modelled: every save appends. Logging and Windows `msvcrt` setup are out.
- `config.json` is not modelled: the configuration values are constructor parameters, and `max_parallel`/`max_captures` are taken to be integers.
- Short CSV rows (`None` values from `DictReader`) are not modelled: a row is a map of the columns it has.
- Float time is not modelled: `time.time()` is replaced by integer seconds, one per output line.
- `struct.pack('=I')` uses native byte order; the model fixes little-endian.
- Jobs.StripSavedLine: assumes the id has no whitespace at its ends; an id with such whitespace does not strip back to itself.
- Jobs.ReloadSaved: assumes each id has no whitespace at its ends and no `'\n'` or `'\r'` inside. The completed file is modelled as one line per `save_completed` write, not as text that Python's universal-newline reading splits into lines. An id with a line break inside would come back as several ids, and the model does not capture that.
- Exceptions raised in the middle of `run_rclone`'s output loop are not modelled: only a failure to start rclone takes the `Error` path.
