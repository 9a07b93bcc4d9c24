# Thot Secure: protocol and delivery components, modelled and proved in Dafny

The project models the parts of Thot Secure that move security data from one place to another, and
proves what each of them promises to the others:

- the hand-written WebSocket client of the Go SDK (frame encoder, frame reader, connection), from bits to
  whole runs of calls: `WsCodec`, `WsConnection`, `WsSession`;
- the URL redaction that stands in front of every log line of that SDK: `Redact`;
- its retry policy and its chunked ingestion: `HttpRetry`;
- the SIEM forwarder: CEF lines, the bounded memory of records already sent, the rotating log, and the
  cursor with an overlap: `Cef`, `Dedupe`, `RotatingFile`, `Forwarder`, and what each of its conditions is worth:
  `ForwarderLimits`;
- the event-driven stream client of the dashboard widget: `StreamClient`;
- the NGINX log ingester: the tailer, the readers with their bounded queue, the batch client: `LogTailer`,
  `FollowQueue`, `BatchClient`;
- the ingestion pipeline of the server: `Pipeline`;
- the SARIF report and the gate of the CI example: `Sarif`, over `FirstSeenOrder`;
- the three loops that follow cursors: `Pagination`.

`Basics` holds what several of them share.

Sources that update fields are classes here (`WSConn`, `Memory`, `RotatingLog`, `SiemForwarder`,
`RingBuffer`, `Delivery`, `AegisStreamClient`, `Tailer`, `IngestPipeline`), and loops are loops. Each
method is proved equal to a function of its inputs and of the old state; the properties are then proved
about those functions, over every input and every run. Threads that interleave are a transition system
(`FollowQueue`).

What the outside world does is a parameter: bytes that arrive, replies, clocks read, random keys and
samples, whether a write succeeds, what a callback calls, where a component raises.

## Where the code departs from what it promises

The model keeps the code's behaviour. The lemmas named say exactly when each promise holds, and,
where that needs a run, give one that breaks it.

- `sdks/go/ws.go`: RFC 6455 section 5.5.1 allows no data after a close frame. `WriteText` does not look at
  `closedOnce`, so text goes out as long as the socket is open (`WsSession.SendAfterClose`), and `WriteClose` does
  not set it (`WsSession.OwnCloseThenText`). Over any run of calls data follows a close frame exactly when data that
  fits is sent on an open socket after a read that met the peer's close frame or after an own close frame
  (`WsSession.DataAfterCloseIff`). For the same reason `Close` may add a second close frame: those on the wire are the
  application's own and at most one more (`WsSession.ClosesOfRun`).
- `forward_cef.py`: newlines are escaped in values, not in header fields; a record is one line exactly when
  no header field and no key holds one (`Cef.OneLine`, `Cef.OwnDeviceOneLine`).
- `forward_cef.py`: "in every case of error the cursor has not moved and the next cycle resumes at the same
  point". When only the findings part fails, the audit cursor has moved, after its exports were written
  (`Forwarder.FailureKeepsCursors`). When an audit write fails the cursor does not move, but the memory has taken
  the keys before the write. However often the same export comes again, it makes up for a failed write exactly
  when no line carried a new identifier (`ForwarderLimits.FailedWriteHides`); for a first export of any length,
  exactly when it carries no identifier or more of them than the memory holds
  (`ForwarderLimits.FirstExportRetry`). For any memory and any order of the lines the size of the memory is the
  exact bound (`ForwarderLimits.HiddenWhateverIff`). Followed to the cursor, the retried cycle leaves a gap unless each due
  record was written before or has a line without an identifier (`ForwarderLimits.RetriedCycleIff`).
- `forward_cef.py`: moving the cursor is safe exactly when each record now due was in an output already or is
  in an export (`ForwarderLimits.CursorSafeIff`). With complete answers that is so for every cycle exactly when
  `--until` is not later than the query (`ForwarderLimits.UntilSafeIff`, `ForwarderLimits.FutureUntilLoses`).
- Answers need not be complete. `GET /api/v1/audit/export` of this repository's own server returns the newest
  records since the lower bound and cuts them to 500 without saying so, and the forwarder asks once. The cursor then
  leaves no gap exactly when each due record not yet written is among those lines, and so it does when the window
  fits the limit (`ForwarderLimits.CappedExportIff`); one record more than the limit can be lost, whatever the limit
  (`ForwarderLimits.CappedExportLoses`). With the fallback listing it leaves none exactly when each due record not
  yet written stands on the pages the budget pays for (`ForwarderLimits.FallbackSafeIff`); for a record on the last
  page only, exactly when the budget covers the pages (`ForwarderLimits.FallbackBudgetIff`).
- `forward_cef.py`: the docstring of the rotating log promises a rotation before the write that would pass the
  threshold. The code rotates once the threshold has been reached. Both agree exactly when no file still below
  the threshold is that close (`RotatingFile.WithinThresholdIff`); over a run no file passes it exactly when no
  payload meets a file it does not fit (`RotatingFile.NeverAboveIff`); two writes that pass it are
  `RotatingFile.ThresholdPassed`.
- `ingest_nginx_logs.py`: the comment on the queue promises a duplicate at worst, never a loss. The periodic
  save stores the offsets of events that are only queued; it is safe exactly when the queue holds no event
  below its file's offset (`FollowQueue.SaveSafeIff`), and a run reaches a save that is not
  (`FollowQueue.SavedAheadOfSent`). Sent means handed to the client: a batch the client gives up counts as sent, and
  its offsets are saved too. That second loss is outside this theorem (`BatchClient.GivenUpIff` says when it happens).
- `ingest_nginx_logs.py`: the main loop ends once it has counted a sentinel for every reader, but a reader that finds
  the queue full for five seconds drops its sentinel. From then on no interleaving ends the loop
  (`FollowQueue.DroppedIsLost`, `FollowQueue.LostForEver`); once all readers are gone it can end exactly when none of
  them was lost that way (`FollowQueue.EndsIff`). A run that loses one is `FollowQueue.SentinelDropped`.
- `sdks/go/client.go`: an idempotency key makes a `POST` safe to repeat because the server deduplicates.
  `IngestEvents` sends every chunk under the same key: two different bodies share it exactly when there is a
  key and a later chunk with another body goes out (`HttpRetry.KeyReusedIff`), which for events that all
  differ means that a second chunk is sent (`HttpRetry.KeyReusedForEvents`) and happens whenever all goes well
  (`HttpRetry.KeyReusedWhenAllIsWell`). A delay advised by `Retry-After` is not subject to the cap; a computed
  one always is.
- `src/thotsecure/pipeline.py`: the report of a finding is the store's state at batch end exactly when the last
  write to it was reported, and none is left behind when no component raises between a write and the result
  (`Pipeline.ReportMatchesStore`, `Pipeline.NoneLeftBehind`); a batch whose report stays behind the store is
  `Pipeline.RaiseAfterWriteHides`. An event already in the store counts as rejected and is nevertheless handled
  again (`Pipeline.IngestPipeline.Ingest`).
- `sarif_gate.py`: the gate strips a status before it compares it, the branch that adopts server results
  does not; the two agree unless spaces surround the status (`Sarif.AdoptedSuppressionIff`).

## Model

| member | source | states |
|---|---|---|
| `WsCodec.XorTwice` | sdks/go/ws.go:730-732 | Exclusive or with the same key octet twice gives the octet back, for any width |
| `WsCodec.MaskTwice` | sdks/go/ws.go:564-570 | Masking and unmasking a payload with one key is the identity (RFC 6455 section 5.3) |
| `WsCodec.XorBits` | sdks/go/ws.go:564-570 | Bit by bit it is exclusive or: a bit is set exactly when the two octets differ in it |
| `WsCodec.BigEndianRoundTrip` | sdks/go/ws.go:630-647 | A length written on 2 or 8 octets is read back |
| `WsCodec.BigEndianDigit` | sdks/go/ws.go:717-725 | Octet i of a length is its digit i, from the highest |
| `WsCodec.ParseSerialize` | sdks/go/ws.go:614-655 | Any well-formed frame (FIN, opcode, masked or not, each length form) followed by any bytes is read back, and exactly those bytes are left; above the limit it is refused |
| `WsCodec.SerializeParse` | sdks/go/ws.go:614-655 | Conversely, every accepted prefix was a well-formed frame within the limit |
| `WsCodec.ParseConsumes` | sdks/go/ws.go:614-655 | A read that does not run out of bytes consumes at least the two header octets |
| `WsCodec.PrefixFree` | sdks/go/ws.go:614-655 | No frame is a proper prefix of another, and equal bytes carry equal contents |
| `WsCodec.ProperPrefixTruncated` | sdks/go/ws.go:614-655 | A frame cut anywhere is reported truncated, never misread |
| `WsCodec.EncodeClientFrame` | sdks/go/ws.go:710-736 | The appends produce the layout of RFC 6455 section 5.2 for FIN set, the low opcode bits, the shortest length form and the key |
| `WsCodec.WireBits` | sdks/go/ws.go:728-735 | On the wire, the key in the clear, then each payload octet combined bit by bit with its octet of the key |
| `WsCodec.ShortestForm` | sdks/go/ws.go:715-725 | No masked frame with the same payload is shorter |
| `WsCodec.ClientFrameDecodes` | sdks/go/ws.go:710-736 | Decoding an encoded frame gives FIN, opcode, payload and the bytes after it, with 6 to 14 octets of overhead, and the mask bit set |
| `WsConnection.WSConn.ReadFrameHeader` | sdks/go/ws.go:614-655 | The stepwise reader is the header parser, and stops where it stops, also on errors |
| `WsConnection.WSConn.Unmask` | sdks/go/ws.go:564-570 | The payload is unmasked in place |
| `WsConnection.WSConn.WriteFrame` | sdks/go/ws.go:684-708 | Limit, key, encoding and a transport that may fail in the middle of a frame |
| `WsConnection.WSConn.WriteClose` | sdks/go/ws.go:673-681 | Code and truncated reason |
| `WsConnection.CloseCodeRoundTrip` | sdks/go/ws.go:673-681 | Every 16-bit code is read back whatever the reason; the payload keeps to 125 octets and carries the reason or its first 123 |
| `WsConnection.NoCloseCode` | sdks/go/ws.go:579-583 | A payload too short for a code counts as 1000; otherwise the first two octets are the code |
| `WsConnection.WSConn.WrapReadError` | sdks/go/ws.go:758-775 | End of stream closes the reader for good, another failure does not |
| `WsConnection.WSConn.ReadTextMessage` | sdks/go/ws.go:536-602 | One call is a function of the bytes to come and of the state: pings answered, pongs skipped, close answered once, fragments and opcodes refused |
| `WsConnection.WSConn.Close` | sdks/go/ws.go:739-748 | A close frame unless one was exchanged, then the socket is closed |
| `WsSession.ReadIsWalk` | sdks/go/ws.go:536-602 | On any list of well-formed frames, reading bytes equals walking the list, and leaves a frame boundary |
| `WsSession.RunIsWalk` | sdks/go/ws.go:536-602 | The same over any sequence of reads, closes and sends, whatever the transport does |
| `WsSession.RunAccounted` | sdks/go/ws.go:536-602 | Over any run of reads, sends and closes, whatever the transport takes: results are the messages of the frames taken, in order; written are the application's own sends and, among them, one pong per ping with its payload, then at most one close; nothing after a close is taken; the wire carries exactly the frames of `RunOuts` as far as the transport goes |
| `WsSession.RunDecodes` | sdks/go/ws.go:684-708 | With a transport that takes everything, the peer of a new connection decodes exactly those frames |
| `WsSession.ClosesOfRun` | sdks/go/ws.go:739-748 | The close frames of a run are the application's own and one more exactly when a read met the peer's close frame or `Close` was the first to close |
| `WsSession.SentDecodes` | sdks/go/ws.go:684-736 | Everything written is a sequence of frames the peer decodes to what was sent |
| `WsSession.CutDecodes` | sdks/go/ws.go:701-707 | Cut anywhere by a failing transport, it decodes to a beginning of what was sent |
| `WsSession.SendAfterClose` | sdks/go/ws.go:658-660 | Once the connection is closed, text is written exactly while the socket is open |
| `WsSession.OpenUntilClose` | sdks/go/ws.go:739-748 | The socket is open at a call exactly when it was at the start and no `Close` came before |
| `WsSession.DataAfterCloseIff` | sdks/go/ws.go:658-681 | Over any run, data follows a close frame on the wire exactly when data that fits is sent on an open socket after a read that met the peer's close frame or after an own close frame |
| `WsSession.OwnCloseThenText` | sdks/go/ws.go:673-681 | `WriteClose` and then `WriteText` put both frames on the wire, and the connection does not count as closed |
| `Redact.RedactUrl` | sdks/go/errors.go:344-374 | The nine passes terminate and equal one cut per delimiter-free run, at the first sensitive `param=` |
| `Redact.RedactParams` | sdks/go/errors.go:354-373 | For any list of parameters, a pass for each is one cut for the list |
| `Redact.RedactOne` | sdks/go/errors.go:355-372 | One pass is that cut for one parameter |
| `Redact.ReferenceTwice` | sdks/go/errors.go:355-372 | Two passes are one pass with both lists: a later pass breaks nothing |
| `Redact.EndsInAnyCase` | sdks/go/errors.go:353-358 | A parameter is found in any case of its letters, and nothing else is taken for it |
| `Redact.EveryValueMasked` | sdks/go/errors.go:355-372 | After every case-insensitive occurrence of every `param=` come three stars and a delimiter or the end |
| `Redact.ReferenceIdempotent` | sdks/go/errors.go:349-374 | A second application changes nothing |
| `Redact.ValueLeavesNoTrace` | sdks/go/errors.go:355-372 | Two URLs that differ in one sensitive value, anywhere in the URL, are logged alike |
| `Cef.HeaderOnePass` | examples/siem-forwarder/forward_cef.py:505-507 | The chained replacements of a header field are one character map |
| `Cef.ValueOnePass` | examples/siem-forwarder/forward_cef.py:510-517 | So are the four of a value |
| `Cef.FieldRoundTrip` | examples/siem-forwarder/forward_cef.py:505-507 | Cutting at the first unescaped bar gives the field back and the rest |
| `Cef.ExtensionRoundTrip` | examples/siem-forwarder/forward_cef.py:541-546 | Splitting at unescaped `=` and the last space before a key gives the pairs back, carriage returns as spaces |
| `Cef.LineRoundTrip` | examples/siem-forwarder/forward_cef.py:520-546 | A whole line parses back to its header fields and its pairs, empty values dropped |
| `Cef.SeverityRoundTrip` | examples/siem-forwarder/forward_cef.py:536 | The seventh field gives the severity back |
| `Cef.KeptIff` | examples/siem-forwarder/forward_cef.py:541-545 | Written are exactly the pairs whose value is there and not empty |
| `Cef.KeptInOrder` | examples/siem-forwarder/forward_cef.py:541-545 | In the order given |
| `Cef.HeaderTexts` | examples/siem-forwarder/forward_cef.py:534-535 | Signature and name are never empty; a missing name is replaced by the signature |
| `Cef.OneLine` | examples/siem-forwarder/forward_cef.py:505-546 | A line holds a newline exactly when a header field or a key does |
| `Cef.OwnDeviceOneLine` | examples/siem-forwarder/forward_cef.py:520-546 | With the forwarder's own device, exactly when the event's identifier, name, class or a key does |
| `Dedupe.Memory.IsNew` | examples/siem-forwarder/forward_cef.py:486-497 | Set and queue refine a plain history: new exactly when empty or not among the last `size` accepted keys |
| `Dedupe.SpacedWindow` | examples/siem-forwarder/forward_cef.py:486-497 | The remembered keys are pairwise distinct and at most `size` |
| `Dedupe.AnswersSpaced` | examples/siem-forwarder/forward_cef.py:486-497 | Every sequence of questions keeps that |
| `Dedupe.NoRepeatWithin` | examples/siem-forwarder/forward_cef.py:472-478 | A key asked again with fewer than `size` acceptances since is refused |
| `Dedupe.HiddenStays` | examples/siem-forwarder/forward_cef.py:486-497 | A key once accepted is refused for ever while the keys asked come from a set no larger than the memory |
| `RotatingFile.RotatingLog.ShiftBackups` | examples/siem-forwarder/forward_cef.py:344-357 | The loop from the top down moves every backup up by one and drops the last |
| `RotatingFile.RotatingLog.Rotate` | examples/siem-forwarder/forward_cef.py:340-364 | Rotation at the threshold and not before |
| `RotatingFile.RotatingLog.WriteBytes` | examples/siem-forwarder/forward_cef.py:366-385 | Nothing for an empty payload; otherwise rotate, then append |
| `RotatingFile.RotateHolds` | examples/siem-forwarder/forward_cef.py:340-364 | Files stay a layout of whole payloads, numbered ones at least `max_bytes` long |
| `RotatingFile.OneWrite` | examples/siem-forwarder/forward_cef.py:366-385 | A write appends one payload, forgets exactly the oldest file, and only when a rotation is due and the numbers are used up, and leaves the live file below `max_bytes` plus the payload |
| `RotatingFile.WithinThresholdIff` | examples/siem-forwarder/forward_cef.py:314-342 | A write stays within the threshold exactly when the payload fits; it rotates in time exactly when no file below the threshold is that close |
| `RotatingFile.NeverAboveIff` | examples/siem-forwarder/forward_cef.py:314-385 | Over any run of writes no file passes the threshold exactly when no payload meets a file it does not fit, computed from lengths alone |
| `RotatingFile.ThresholdPassed` | examples/siem-forwarder/forward_cef.py:340-343 | Two writes that pass it, for any threshold |
| `RotatingFile.RunHolds` | examples/siem-forwarder/forward_cef.py:340-385 | Over any run of writes, what is on disk is the end of what was written, cut between payloads |
| `RotatingFile.RunReadsSuffix` | examples/siem-forwarder/forward_cef.py:340-385 | From no backup, reading the oldest file down to the live one gives that suffix; at most `backups` + 1 files |
| `Forwarder.FullKeyInjective` | examples/siem-forwarder/forward_cef.py:1034-1107 | The keys of the four outputs never collide |
| `Forwarder.SiemForwarder.FilterLines` | examples/siem-forwarder/forward_cef.py:1067-1111 | The loop keeps exactly the lines new to the memory, in order, and those without a key |
| `Forwarder.SiemForwarder.Forward` | examples/siem-forwarder/forward_cef.py:963-1009 | One export: fallback on 404, 405 and 501, filter, then write |
| `Forwarder.SiemForwarder.VerifyChain` | examples/siem-forwarder/forward_cef.py:865-922 | Not due, answered, impossible or refused: go on, stop, or raise |
| `Forwarder.SiemForwarder.CursorWindow` | examples/siem-forwarder/forward_cef.py:1113-1125 | The window goes back from the cursor, or from the first bound given, by the overlap |
| `Forwarder.SiemForwarder.RunCycle` | examples/siem-forwarder/forward_cef.py:1127-1158 | Check, export the window, write, and only then move and save the cursor |
| `Forwarder.CycleKeeps` | examples/siem-forwarder/forward_cef.py:1127-1158 | A cycle keeps: every record stamped at or before cursor minus overlap is in every audit output, and remembered keys stand for written records |
| `Forwarder.RunLosesNothing` | examples/siem-forwarder/forward_cef.py:953-1158 | So does every run, with any API or transport failures and restarts from the saved cursor, given complete answers, successful writes, an upper bound not later than the query, keys that identify records and stamps no earlier than creation minus the overlap |
| `Forwarder.FreshInv` | examples/siem-forwarder/forward_cef.py:407-409 | A new forwarder starts in such a state |
| `Forwarder.FailureKeepsCursors` | examples/siem-forwarder/forward_cef.py:1136-1156 | A failed cycle leaves the findings cursor, and the audit cursor unless every audit export was written |
| `Forwarder.BrokenChainStops` | examples/siem-forwarder/forward_cef.py:865-922 | After a chain was found broken nothing moves until a check answers that it is valid |
| `Forwarder.FoundBrokenStops` | examples/siem-forwarder/forward_cef.py:913-922 | From the cycle on in which a check says broken, nothing written, remembered or moved until a check says valid |
| `Forwarder.ChainBrokenIff` | examples/siem-forwarder/forward_cef.py:913-922 | While the process runs, the chain counts as broken exactly when it did before or some check said so |
| `Forwarder.GoesOnIff` | examples/siem-forwarder/forward_cef.py:874-922 | A cycle exports exactly when its check says valid, or gives no verdict and no check since the start said broken; a refused check raises |
| `Forwarder.SuccessMovesCursors` | examples/siem-forwarder/forward_cef.py:1136-1158 | A cycle that goes through moves and saves exactly the cursors it exports up to; a restart resumes from what was saved, with an empty memory |
| `Forwarder.CycleSucceeds` | examples/siem-forwarder/forward_cef.py:1136-1158 | Only a check, a lost export or a failing write stops a cycle |
| `Forwarder.WindowMeetsPromise` | examples/siem-forwarder/forward_cef.py:1113-1125 | The window asked for starts where the promise of the cursor ends |
| `Forwarder.FallbackIff` | examples/siem-forwarder/forward_cef.py:967-976 | The listing stands in exactly for 404, 405 and 501, and for the audit journal only |
| `ForwarderLimits.FailedWriteHides` | examples/siem-forwarder/forward_cef.py:985-1008 | After a failed write, any number of repeats of the export writes none of the identified lines it had kept; nothing is lost exactly when no line carried a new identifier |
| `ForwarderLimits.WrittenOnce` | examples/siem-forwarder/forward_cef.py:985-1008 | After a successful write, the same export writes none of its identified lines again |
| `ForwarderLimits.FirstExportRetry` | examples/siem-forwarder/forward_cef.py:985-1008 | For a first export of any length: nothing is lost exactly when it carries no identifier or more than the memory holds |
| `ForwarderLimits.HiddenWhateverIff` | examples/siem-forwarder/forward_cef.py:486-497 | Whatever the memory holds, exports over a set of identifiers hide all they had let through exactly when the set is no larger than the memory |
| `ForwarderLimits.LengthDoesNotDecide` | examples/siem-forwarder/forward_cef.py:486-497 | With other keys in the memory the length alone decides nothing |
| `ForwarderLimits.RetriedCycleIff` | examples/siem-forwarder/forward_cef.py:1127-1150 | From any state cycles reach, a failed cycle and its successful retry move the cursor, without a gap exactly when every due record was written before or has a line with no identifier |
| `ForwarderLimits.JobAdds` | examples/siem-forwarder/forward_cef.py:963-1009 | A successful export adds to its own output exactly the records it contains |
| `ForwarderLimits.CursorSafeIff` | examples/siem-forwarder/forward_cef.py:1146-1150 | With arriving exports and successful writes, the moved cursor leaves no gap exactly when each due record was written before or exported |
| `ForwarderLimits.CappedExportIff` | src/thotsecure/api/routers/security.py:220-231 | When each answer is the newest lines of its window, up to a limit, the moved cursor leaves no gap exactly when each due record not yet written is among them; always when the windows fit |
| `ForwarderLimits.CappedExportLoses` | src/thotsecure/storage/store.py:1115 | For every limit, a window one record longer of which the first cycle loses one |
| `ForwarderLimits.FallbackSafeIff` | examples/siem-forwarder/forward_cef.py:782-804 | For any honest listing, the cursor that moves after it leaves no gap exactly when each due record not yet written stands on the pages the budget pays for; always when it pays for all |
| `ForwarderLimits.FallbackBudgetIff` | examples/siem-forwarder/forward_cef.py:791-803 | With such a record on the last page only: exactly when the budget covers the pages |
| `ForwarderLimits.FutureUntilLoses` | examples/siem-forwarder/forward_cef.py:1143-1150 | For every upper bound later than the query, an environment that keeps all its promises in which the cursor passes a due record |
| `ForwarderLimits.UntilSafeIff` | examples/siem-forwarder/forward_cef.py:1143-1150 | Every cycle of an honest environment is safe exactly when the upper bound is not later than the query, or before the first record asked for |
| `StreamClient.RingBuffer.Push` | examples/typescript-dashboard-widget/src/ws-client.ts:151-157 | The ring holds the last `capacity` frames pushed since it was emptied, and counts what it dropped |
| `StreamClient.RingBuffer.Drain` | examples/typescript-dashboard-widget/src/ws-client.ts:160-164 | Draining returns them oldest first and empties it |
| `StreamClient.AegisStreamClient.ScheduleReconnect` | examples/typescript-dashboard-widget/src/ws-client.ts:629-663 | Nothing when stopped, connected or scheduled; an error past the attempts; otherwise a timer |
| `StreamClient.AegisStreamClient.Begin` | examples/typescript-dashboard-widget/src/ws-client.ts:404-411 | `start` is the machine's start step |
| `StreamClient.AegisStreamClient.Shutdown` | examples/typescript-dashboard-widget/src/ws-client.ts:414-434 | `close` clears socket, timers and kept frames |
| `StreamClient.AegisStreamClient.OnClose` | examples/typescript-dashboard-widget/src/ws-client.ts:531-544 | A closing socket schedules a reconnect unless superseded or stopped |
| `StreamClient.AegisStreamClient.OnWatchdog` | examples/typescript-dashboard-widget/src/ws-client.ts:695-719 | An expired watchdog drops the socket and schedules a reconnect |
| `StreamClient.ReachableInv` | examples/typescript-dashboard-widget/src/ws-client.ts:404-719 | In every reachable state: stopped means no socket and no timer, never both, a watchdog needs a socket, attempts stay within the maximum, a connected client has none behind it and its watchdog armed, and the status says which of these it is |
| `StreamClient.SupersededForEver` | examples/typescript-dashboard-widget/src/ws-client.ts:500-545 | A socket that was replaced never becomes current again |
| `StreamClient.SupersededIgnored` | examples/typescript-dashboard-widget/src/ws-client.ts:502-534 | Its late events change nothing |
| `StreamClient.NeverOpensBounded` | examples/typescript-dashboard-widget/src/ws-client.ts:629-663 | Over any events without a close, a start or a successful opening, retries are spent one by one from a fixed stock |
| `StreamClient.GivesUp` | examples/typescript-dashboard-widget/src/ws-client.ts:629-663 | From a start, whatever errors, messages and late events come: at most `maxReconnectAttempts` retries; when nothing is open or scheduled all were used and the status is `error` |
| `StreamClient.OpeningRenews` | examples/typescript-dashboard-widget/src/ws-client.ts:502-509 | After a successful opening all retries are there again: at most `maxReconnectAttempts`, exactly that many when nothing is open or scheduled; an error shows only then, after more failures than that |
| `StreamClient.StartBegins` | examples/typescript-dashboard-widget/src/ws-client.ts:404-411 | A start leaves a running client alone and begins anew otherwise |
| `StreamClient.RetryOpens` | examples/typescript-dashboard-widget/src/ws-client.ts:472-499 | A retry makes one new socket the current one, or waits again, or gives up |
| `StreamClient.LifeSigns` | examples/typescript-dashboard-widget/src/ws-client.ts:502-514 | Opening and messages of the current socket arm the watchdog, those of another do nothing |
| `StreamClient.ErrorThenClose` | examples/typescript-dashboard-widget/src/ws-client.ts:516-545 | An `error` followed by its `close` is such a run, and one failure |
| `StreamClient.BackoffWithinCap` | examples/typescript-dashboard-widget/src/ws-client.ts:623-627 | Each delay lies between half the capped exponential and the cap, and is never zero |
| `StreamClient.CappedDoubles` | examples/typescript-dashboard-widget/src/ws-client.ts:624 | The exponential starts from the base and doubles up to the cap |
| `StreamClient.EveryWaitAsDue` | examples/typescript-dashboard-widget/src/ws-client.ts:652-662 | Along every run, each scheduled wait is that of the retries since the last opening |
| `StreamClient.Delivery.IngestText` | examples/typescript-dashboard-widget/src/ws-client.ts:580-595 | Every message gets the next number; it is accepted exactly when the filter lets it through |
| `StreamClient.Delivery.Deliver` | examples/typescript-dashboard-widget/src/ws-client.ts:604-613 | Kept while paused, handed over otherwise, whatever the callback then calls; one more delivered and nothing else when none pauses |
| `StreamClient.Delivery.Resume` | examples/typescript-dashboard-widget/src/ws-client.ts:444-459 | Kept frames are handed over in order, also when a callback pauses or resumes in the middle; all of them, and the client live again, when no callback pauses |
| `StreamClient.KeepKeeps` | examples/typescript-dashboard-widget/src/ws-client.ts:604-608 | Keeping a frame, with overflow, preserves order and accounting |
| `StreamClient.HandOverKeeps` | examples/typescript-dashboard-widget/src/ws-client.ts:609-613 | So does handing it over |
| `StreamClient.FramesAccounted` | examples/typescript-dashboard-widget/src/ws-client.ts:436-613 | Numbers strictly increase and accepted = delivered + pending + in flight + dropped + cleared |
| `LogTailer.Tailer.ReadLine` | examples/python-ingest-nginx-logs/ingest_nginx_logs.py:1149-1150 | Up to and including the next newline, or to the end |
| `LogTailer.Tailer.Next` | examples/python-ingest-nginx-logs/ingest_nginx_logs.py:1143-1160 | One turn of the loop; a partial line is put back when following |
| `LogTailer.Tailer.Restart` | examples/python-ingest-nginx-logs/ingest_nginx_logs.py:1113-1145 | A new process opens at the stored offset when the file is that long, or at the beginning when it is told to |
| `LogTailer.PollKeeps` | examples/python-ingest-nginx-logs/ingest_nginx_logs.py:1148-1160 | A follower emits whole lines only, each starting where the last ended |
| `LogTailer.RestartKeeps` | examples/python-ingest-nginx-logs/ingest_nginx_logs.py:1113-1160 | A restart skips nothing and repeats at most the line in flight, unless the process before was reading again from the beginning and had stored nothing yet; told to read from the beginning, it does |
| `LogTailer.RunEmitsWholeLines` | examples/python-ingest-nginx-logs/ingest_nginx_logs.py:1143-1190 | Under any schedule of appends, polls and restarts, emitted bytes are the file from the start offset to a line end |
| `LogTailer.UnfinishedLineIff` | examples/python-ingest-nginx-logs/ingest_nginx_logs.py:1150-1160 | Without follow, what is emitted is not a line exactly when the file goes on with no newline; the follower waits there, and emits the same otherwise |
| `FollowQueue.InitialInv` | examples/python-ingest-nginx-logs/ingest_nginx_logs.py:1675-1685 | The start of a run satisfies the invariant |
| `FollowQueue.StepKeeps` | examples/python-ingest-nginx-logs/ingest_nginx_logs.py:1611-1753 | Every step of every thread keeps it |
| `FollowQueue.RunKeeps` | examples/python-ingest-nginx-logs/ingest_nginx_logs.py:1611-1753 | In every interleaving: bounded queue, per-file order of sent, pending and queued events, offsets never ahead, batches within their size |
| `FollowQueue.OffsetNeverAhead` | examples/python-ingest-nginx-logs/ingest_nginx_logs.py:1638-1643 | A line below the remembered offset was enqueued or counted unparsed |
| `FollowQueue.EndedMeansSent` | examples/python-ingest-nginx-logs/ingest_nginx_logs.py:1750-1753 | When the loop has ended, every event ever enqueued has been flushed, in order |
| `FollowQueue.NotTwice` | examples/python-ingest-nginx-logs/ingest_nginx_logs.py:1723-1733 | A queued event has not been sent |
| `FollowQueue.CheckFlushes` | examples/python-ingest-nginx-logs/ingest_nginx_logs.py:1735-1743 | What is pending goes out, all of it, exactly when a batch is full or has waited too long |
| `FollowQueue.TurnOfMain` | examples/python-ingest-nginx-logs/ingest_nginx_logs.py:1722-1751 | Each turn takes at most one item and goes on to the checks, the save and the test for the end |
| `FollowQueue.StopIff` | examples/python-ingest-nginx-logs/ingest_nginx_logs.py:1600-1605 | The stop is set exactly when a signal came, a batch was refused for good or the budget was used up, and never taken back |
| `FollowQueue.BudgetHolds` | examples/python-ingest-nginx-logs/ingest_nginx_logs.py:1664-1671 | With `--max-events`, the readers together deal with no more lines than that, in any interleaving |
| `FollowQueue.NothingDrawn` | examples/python-ingest-nginx-logs/ingest_nginx_logs.py:1660-1662 | The start is within the budget |
| `FollowQueue.SaveSafeIff` | examples/python-ingest-nginx-logs/ingest_nginx_logs.py:1745-1748 | The periodic save is safe exactly when no queued event lies below its file's offset |
| `FollowQueue.SaveStores` | examples/python-ingest-nginx-logs/ingest_nginx_logs.py:1745-1748 | With something pending, or before it is due, nothing is stored; otherwise the offsets of that moment, below which every line is sent or queued, never pending, and all are sent exactly when no queued event lies below |
| `FollowQueue.RunSaves` | examples/python-ingest-nginx-logs/ingest_nginx_logs.py:1745-1748 | In every interleaving the stored offsets are those of such a save |
| `FollowQueue.SavedAheadOfSent` | examples/python-ingest-nginx-logs/ingest_nginx_logs.py:1745-1748 | A run that saves the offset of an event still queued |
| `FollowQueue.DroppedIsLost` | examples/python-ingest-nginx-logs/ingest_nginx_logs.py:1646-1648 | A reader that leaves while the queue stays full is gone without a sentinel, queued or counted |
| `FollowQueue.LostForEver` | examples/python-ingest-nginx-logs/ingest_nginx_logs.py:1750-1751 | Along every interleaving it stays so, and the loop does not end |
| `FollowQueue.LostOnlyDropped` | examples/python-ingest-nginx-logs/ingest_nginx_logs.py:1646-1648 | No other step loses a reader |
| `FollowQueue.EndsIff` | examples/python-ingest-nginx-logs/ingest_nginx_logs.py:1722-1753 | Once every reader is gone, some interleaving ends the loop exactly when none of them was lost |
| `FollowQueue.SentinelDropped` | examples/python-ingest-nginx-logs/ingest_nginx_logs.py:1646-1648 | A run that loses a reader, with a queue of one place |
| `BatchClient.PostBatch` | examples/python-ingest-nginx-logs/ingest_nginx_logs.py:1417-1510 | At most `max_attempts` requests; the first reply that is not transient decides; each wait as prescribed |
| `BatchClient.LastUnique` | examples/python-ingest-nginx-logs/ingest_nginx_logs.py:1431-1483 | The deciding attempt is determined by the replies |
| `BatchClient.WaitsCapped` | examples/python-ingest-nginx-logs/ingest_nginx_logs.py:1429-1483 | No wait exceeds the cap; without advice they are the doubled base, capped |
| `BatchClient.TransientIff` | examples/python-ingest-nginx-logs/ingest_nginx_logs.py:1437-1462 | Worth another attempt: no reply, 429, and any server error |
| `BatchClient.OutcomeIs` | examples/python-ingest-nginx-logs/ingest_nginx_logs.py:1449-1483 | What the caller is told, by the deciding status |
| `BatchClient.GivenUpIff` | examples/python-ingest-nginx-logs/ingest_nginx_logs.py:1437-1483 | A batch is given up exactly when every reply allowed was transient and no stop came before the last; interrupted exactly when a stop met a wait |
| `Pipeline.IngestPipeline.UpsertFinding` | src/thotsecure/pipeline.py:306-378 | Find, close an expired window, refresh or create, with a raise at any point |
| `Pipeline.IngestPipeline.ReactTo` | src/thotsecure/pipeline.py:244-266 | Each match gives a finding, a decision and perhaps an action, until something raises |
| `Pipeline.IngestPipeline.ProcessEvent` | src/thotsecure/pipeline.py:214-242 | A raise ends the event and not the batch, and keeps what was produced; what the counters say |
| `Pipeline.IngestPipeline.ProcessBatch` | src/thotsecure/pipeline.py:157-192 | The dictionary of states collapses the flat list of pairs: last pair per finding, first-appearance order |
| `Pipeline.IngestPipeline.Ingest` | src/thotsecure/pipeline.py:93-195 | Truncation to 500, unknown tenants refused one by one, every taken event counted once |
| `Pipeline.Screen` | src/thotsecure/pipeline.py:105-139 | Accepted are exactly the events of known tenants, in order |
| `Pipeline.OfTenantsAre` | src/thotsecure/pipeline.py:105-127 | Each event of a known tenant as often as it was given, no others |
| `Pipeline.OfTenantsInOrder` | src/thotsecure/pipeline.py:105-127 | In the order given |
| `Pipeline.InsertCollapses` | src/thotsecure/pipeline.py:170-173 | One dictionary assignment extends the collapse by one pair |
| `Pipeline.UpsertSound` | src/thotsecure/pipeline.py:306-378 | At most one open finding per key, whatever raises; the finding handed on is the stored one |
| `Pipeline.UpsertTotal` | src/thotsecure/pipeline.py:306-378 | The counts of a key's findings grow by one per match written, also across a closed window |
| `Pipeline.WindowIff` | src/thotsecure/pipeline.py:306-378 | An open finding is refreshed within the time to live, and closed and followed by a new one past it |
| `Pipeline.NoWindow` | src/thotsecure/pipeline.py:360-378 | Without an open finding of the key one is opened |
| `Pipeline.BatchKeeps` | src/thotsecure/pipeline.py:214-378 | Both over any sequence of events, anomaly events included |
| `Pipeline.QuietBatchCountsAll` | src/thotsecure/pipeline.py:214-378 | When nothing raises, the total of a key grows by its matches in the batch |
| `Pipeline.EventReacts` | src/thotsecure/pipeline.py:214-304 | An event gives, in this order, its rules' matches and, when anomalies are on and it is none itself, those of the signals stored for the first time, up to the first that raises |
| `Pipeline.QuietEventCounts` | src/thotsecure/pipeline.py:244-304 | So the totals grow by the matches in the event's own fields |
| `Pipeline.ReactRaises` | src/thotsecure/pipeline.py:244-266 | A match that raises ends the event and leaves in the result exactly what was reached before |
| `Pipeline.EventFails` | src/thotsecure/pipeline.py:224-242 | An event fails when something raises on it or while it is marked, and only then |
| `Pipeline.PairsHonest` | src/thotsecure/pipeline.py:170-173 | Each pair carries the finding's own decision, or none, also when a component raised |
| `Pipeline.ReportedOnce` | src/thotsecure/pipeline.py:157-175 | Each finding is reported once, in first-appearance order |
| `Pipeline.BatchTracks` | src/thotsecure/pipeline.py:214-378 | Along any batch, the last report of a finding is the store's state or is behind it, according to its last write |
| `Pipeline.ReportMatchesStore` | src/thotsecure/pipeline.py:157-192 | A report is what the store holds at batch end exactly when the finding's last write was reported; otherwise the store's count is ahead |
| `Pipeline.NoneLeftBehind` | src/thotsecure/pipeline.py:214-378 | With no raise between a write and the result, every report is the store's last word, anomaly findings included |
| `Pipeline.RaiseAfterWriteHides` | src/thotsecure/pipeline.py:336-357 | A batch of two events whose reported finding stays behind the store |
| `FirstSeenOrder.FirstSeenSpec` | src/thotsecure/pipeline.py:158-163 | Without repeats: the same elements, in the order of their first positions |
| `FirstSeenOrder.FirstSeenDistinct` | examples/ci-sarif-gate/sarif_gate.py:661-663 | So pairwise distinct |
| `Sarif.EnsureRule` | examples/ci-sarif-gate/sarif_gate.py:671-707 | A rule is registered once, under the finding's own identifier, and its index returned |
| `Sarif.AddFinding` | examples/ci-sarif-gate/sarif_gate.py:709-756 | The server's results re-indexed, or one built locally when it gave none |
| `Sarif.DescriptionIs` | examples/ci-sarif-gate/sarif_gate.py:671-707 | The server describes a rule only when it gave results and a rule; a finding's own rule identifier is never replaced |
| `Sarif.TakenOver` | examples/ci-sarif-gate/sarif_gate.py:734-749 | Server results are taken over one for one, in order, with their suppressions |
| `Sarif.BuiltHere` | examples/ci-sarif-gate/sarif_gate.py:750-756 | Without any, exactly one result is built locally |
| `Sarif.BuildSarif` | examples/ci-sarif-gate/sarif_gate.py:643-775 | Rules are the distinct identifiers in first-appearance order, each described by the first finding that names it; results stand in input order and point to their rules |
| `Sarif.EveryFindingReported` | examples/ci-sarif-gate/sarif_gate.py:661-663 | No finding is lost: each has a result after those of the findings before it, whose index points to its own rule |
| `Sarif.ReportSound` | examples/ci-sarif-gate/sarif_gate.py:567-574 | Every `ruleIndex` is in range and points to the `ruleId`; no suppression added belongs to a finding the gate counts as blocking, for any list of severities |
| `Sarif.AdoptedSuppressionIff` | examples/ci-sarif-gate/sarif_gate.py:739-749 | On adopted results, suppressed means reviewed exactly when no spaces surround the status |
| `Sarif.StripLower` | examples/ci-sarif-gate/sarif_gate.py:498-502 | Stripping and lowering commute |
| `Sarif.EvaluateGate` | examples/ci-sarif-gate/sarif_gate.py:788-801 | Counts per severity over all findings; blocking ones ranked |
| `Sarif.RankedSpec` | examples/ci-sarif-gate/sarif_gate.py:800 | Highest score first; for each score, the same findings in the same order |
| `Sarif.VerdictIff` | examples/ci-sarif-gate/sarif_gate.py:788-801 | The gate fails exactly when some finding blocks |
| `Sarif.BlocksIff` | examples/ci-sarif-gate/sarif_gate.py:490-503 | In words: a finding blocks exactly when its status spells no reviewed one and its severity spells one asked for, in any case and between any spaces |
| `Sarif.NormalSpells` | examples/ci-sarif-gate/sarif_gate.py:498-503 | Stripping and lower-casing tell the word a text spells |
| `Sarif.LowerSpec` | examples/ci-sarif-gate/sarif_gate.py:498-503 | Lower-casing leaves no capital and changes nothing else |
| `Sarif.BlockingAre` | examples/ci-sarif-gate/sarif_gate.py:799 | Blocking findings are kept as often as they stand in the list, no others |
| `Sarif.OfSeverityCounts` | examples/ci-sarif-gate/sarif_gate.py:796-798 | Each severity counts the places it stands in |
| `Sarif.SeverityWord` | examples/ci-sarif-gate/sarif_gate.py:796-798 | A finding counts under the word its severity spells |
| `HttpRetry.Normalised` | sdks/go/client.go:290-298 | The constructor makes any configuration usable and leaves a usable one alone |
| `HttpRetry.BackoffWithinCap` | sdks/go/client.go:541-555 | Every computed delay lies between half the capped exponential and the cap, for any random sample |
| `HttpRetry.CeilingWithin` | sdks/go/client.go:541-548 | The capped exponential never decreases |
| `HttpRetry.CeilingDoubles` | sdks/go/client.go:546-549 | It starts from the base and doubles up to the cap |
| `HttpRetry.JitterSpreads` | sdks/go/client.go:550-554 | Half at sample 0, all at 1 or when it is no number, in proportion between, clamped outside |
| `HttpRetry.Call` | sdks/go/client.go:401-538 | The same request once per attempt, the waits in between, and the outcome of the last attempt |
| `HttpRetry.LastIff` | sdks/go/client.go:439-510 | The last attempt is the first that does not lead to another within the budget |
| `HttpRetry.StatusDecides` | sdks/go/errors.go:179-185 | After 429, 502, 503 and 504 the call goes on while the budget lets it; any other status ends it |
| `HttpRetry.CallerDecides` | sdks/go/client.go:439-480 | A cancellation ends it; a lost reply does not, unless cancelled too |
| `HttpRetry.DelayIs` | sdks/go/client.go:480-510 | Advice is taken as it is, even above the cap; without any the delay is within it |
| `HttpRetry.RetrySafeIff` | sdks/go/client.go:433-437 | With a key, or for an idempotent method in any case, unless repeating is forbidden |
| `HttpRetry.CallBounded` | sdks/go/client.go:433-437 | At most `maxRetries` + 1 requests; one when the method is not idempotent and no key is given, or retries are off |
| `HttpRetry.CallOutcome` | sdks/go/client.go:464-538 | Success exactly when the last reply is one; a transient error is returned only with the budget used up |
| `HttpRetry.FillTenant` | sdks/go/client.go:626-637 | A filled copy of the events |
| `HttpRetry.FillKeeps` | sdks/go/client.go:626-637 | An event's own tenant is never replaced, a missing one is, nothing else changes |
| `HttpRetry.IngestEvents` | sdks/go/client.go:867-903 | Requests, merged result and end are those of a run over the chunks; a size above 500 is refused before anything is sent |
| `HttpRetry.MergedTotals` | sdks/go/client.go:892-895 | Totals are the sums over the confirmed replies |
| `HttpRetry.MergedLists` | sdks/go/client.go:892-895 | Each reply's lists stand after those of the replies before |
| `HttpRetry.ChunksSpec` | sdks/go/client.go:879-884 | Chunks concatenate to the input and have between one and `size` events |
| `HttpRetry.RunBounds` | sdks/go/client.go:879-902 | Confirmed chunks are the attempted ones but for the last; success means all of them |
| `HttpRetry.AttemptedArePrefix` | sdks/go/client.go:867-903 | Attempted chunks concatenate to a prefix of the filled input, and to all of it on success |
| `HttpRetry.NoKeySendsOnce` | sdks/go/client.go:867-903 | Without a key no event is sent twice: the bodies concatenate to a prefix of the filled input |
| `HttpRetry.KeyReusedIff` | sdks/go/client.go:879-891 | Two different bodies travel under one key exactly when there is a key and a later chunk with another body goes out, all before it confirmed |
| `HttpRetry.KeyReusedForEvents` | sdks/go/client.go:867-891 | For events that all differ: exactly when there is a key and a second chunk is sent |
| `HttpRetry.KeyReusedWhenAllIsWell` | sdks/go/client.go:867-903 | It happens whenever every call succeeds and the events do not fit one chunk |
| `Pagination.PaginateSdk` | sdks/python/thotsecure_sdk/client.py:941-953 | The loop is the recursive walk of the cursor chain, with a budget of at least one page |
| `Pagination.ListFindings` | examples/ci-sarif-gate/sarif_gate.py:371-401 | So is the gate's, which fetches nothing on a budget of zero and loses the list on a failure |
| `Pagination.PaginateForward` | examples/siem-forwarder/forward_cef.py:782-804 | So is the forwarder's, with at least one page |
| `Pagination.NeverAskedTwice` | sdks/python/thotsecure_sdk/client.py:941-953 | At most as many requests as the budget, pairwise different cursors, whatever the server answers |
| `Pagination.HonestListingComplete` | sdks/python/thotsecure_sdk/client.py:941-953 | From a server with distinct cursors: every page, or the first ones and a truncated end, exactly when the budget is too small |

## Left out

- Sockets, TLS, HTTP, files, clocks, random numbers, deadlines, the WebSocket handshake, SHA-1, base64 and
  JSON: inputs or parameters here.
- Action engine, decision engine, audit chain, storage and bus are not part of this model; `Pipeline` takes the
  engines as arbitrary functions and the store as a list of findings indexed by identifier.
- `Pipeline.IngestPipeline.ProcessEvent`: a tenant deleted between screening and handling is not modelled;
  audit records, bus publication and marking in the store appear only as places that may raise.
- `WsConnection.WSConn.ReadTextMessage`: read and write deadlines are not modelled; a failing write is.
- `Redact.RedactUrl`: ASCII URLs only, because lower-casing other text can change its length in bytes.
- `Cef.LineRoundTrip`: keys are free of space, `=` and backslash, as they are in the forwarder's own tables.
- `Sarif.StripLower`: ASCII white space and letters only.
- `Sarif.BuildSarif`: messages, fingerprints, locations and merged properties are not modelled; a result keeps its
  origin, its rule, its index and its suppression.
- `HttpRetry.BackoffWithinCap`: delays are computed over the reals and cut to whole nanoseconds; floating-point
  rounding is not modelled. The same holds for `StreamClient.BackoffWithinCap` and `BatchClient.WaitsCapped`.
- `HttpRetry.CallBounded`: a key set through a raw header is not a key.
- `StreamClient.Delivery.Resume`: callbacks call `pause`, `resume` and `setTypes`, not `start` or `close`. The source's one
  class is two objects here, connection and delivery; the Blob path of the widget is not modelled.
- `RotatingFile.RunReadsSuffix`: file operations succeed; a failing unlink or replace is only logged by the source.
- `Forwarder.RunLosesNothing`: findings are forwarded in the model, but the promise is stated for the audit journal;
  the JSONL line is kept as a record, not re-encoded; the incident marker of a broken chain is not modelled.
- `ForwarderLimits.FailedWriteHides`: stated for exports with no more identifiers than the memory holds, which is the
  exact bound for an arbitrary memory (`ForwarderLimits.HiddenWhateverIff`). For longer ones
  `ForwarderLimits.FirstExportRetry` covers first exports; with other keys in the memory the outcome depends on
  which of them are evicted on the way (`ForwarderLimits.LengthDoesNotDecide`).
- `ForwarderLimits.RetriedCycleIff`: stated for one output format, and for exports as in `FailedWriteHides`.
- `LogTailer.RunEmitsWholeLines`: the log only grows; rotation and truncation racing with a read are not modelled.
- `FollowQueue.EndedMeansSent`: sent means handed to the batch client; the drain after a keyboard interrupt and
  the timeouts of the reader threads are not modelled.
- The Python SDK's `ingest_events` repeats the Go loop without retries; `translator.py` repeats the posting loop.
- Regular-expression masking, address hashing, timestamp parsing, risk scoring, `scope.py`, the API layer, the
  command lines, the React application and the SDK data classes would add only easy members.
