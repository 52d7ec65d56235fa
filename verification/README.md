# Therminal: proved models of the grid cache, the event bus, the IPC protocol and the daemon's stores

This project models the parts of Therminal whose correctness depends on runs, not
on single calls, and proves what they promise. Each module is one file:

- **Grid cache** — `Cells`, `GridRow`, `GridCache`, `GridRenderer`, `GridRuns`,
  `GridScreen`. The renderer updates row cache, shape keys, glyph buffers and hotspot
  index only for damaged rows. After any run they are those of a full rebuild of what is
  on screen, and show each place's cell. `GridRenderer` is a class whose methods are proved against functions on the cache
  as a value; `GridRuns` reasons about runs of those functions.
- **Event bus** — `Utf8`, `Glob`, `Text`, `Selection`, `EventFilter`, `EventBus`,
  `PublishRace`, `RaceReader`. The glob matcher, the filter query string, the
  serialised bus with resumable paging, the real publish, which is four separate
  steps, and a reader among racing publishers.
- **IPC** — `Framing`, `Connection`, `FrameLoss`, `Forwarding`, `ClientMux`, `LeakedCalls`,
  `UnansweredCalls`, `ControlCommands`, `ControlMeaning`, `ControlStream`. Frames, mode
  detection and the server's frame loop byte by byte, the multiplexing client as a step
  system, and the text protocol from parser to output stream.
- **Streams and indexes** — `AnsiStrip`, `EscapeSequences`, `PatternDispatch`, `LateMarks`,
  `ScanResults`, `UrlDetection`. The escape-sequence stripper and line accumulator over chunks, the
  registry reconciliation and its event log, and URL tagging by byte offset.
- **Stores over time** — `Trust`, `Escalations`, `PaneCapacity`, `Persistence`. The
  sliding-window limiter behind the trust gate, the calls a user approves past it, the
  two-source capacity cache, and the debounced saver with crashes and failing writes.
  Clocks are parameters.

Where the code does not have a property one might expect of it, the exact condition
is proved:

- The hotspot index keeps an entry whose column is not covered by its redrawn row,
  for example the spacer column of a wide character
  (`GridRuns.HotspotIndexIsFreshIff`, `GridRuns.WideCharacterLeavesHotspotBehind`).
- `publish` takes its cursor before the ring lock, so the ring can be out of cursor
  order; a reader resuming by cursor then misses or repeats an event, and its page
  may announce more where nothing is left for it (`PublishRace.InOrderThroughoutIff`,
  `RaceReader.PassedOverIff`, `PublishRace.CrossedAppends`).
- The server loop drops the bytes of a half-read frame when the event receiver yields
  in between, whether the event is forwarded, filtered out, or a lag notice
  (`FrameLoss.IntactIffNeverCut`, `Connection.SubscriberLosesFrame`).
- Fewer than four stray bytes at the end of a stream read as a clean end, although
  the doc comment of `read_frame` promises an error on protocol violations
  (`Framing.CleanEndIff`).
- After the client's reader has seen the end of the stream, requests are still
  accepted and written. Such a call is never answered by the server: it times out,
  unless its write fails, the client closes or its caller goes away first
  (`UnansweredCalls.EndAfterEndOfStream`, `UnansweredCalls.RequestAfterEndOfStream`).
- A caller that drops its request, as the application does under its own shorter
  timeouts (crates/therminal-app/src/window/pane_ops/mod.rs:68), sends no cancel; the entry then stays in the table of pending replies
  until the late response comes or the connection ends (`LeakedCalls.LeakedIff`,
  `LeakedCalls.LeakLastsIff`, `LeakedCalls.FirstCallAbandoned`).
- A control-mode reply whose body holds its own end marker, and a notification with
  a line break in a name, cannot be told apart by a client
  (`ControlStream.DecodedIffSafe`, `ControlStream.CaptureEndsItsOwnReply`,
  `ControlStream.EscalationHeardIff`).
- The stripper carries escape sequences over chunk borders, and its decoder's comment
  speaks of partial characters at borders; but a UTF-8 character cut by one is lost
  (`AnsiStrip.AllChunksAgreeIff`, `AnsiStrip.AccentIsLost`,
  `PatternDispatch.AllRawChunksAgreeIff`). Marks reach the dispatcher only after the
  whole chunk they were found in, so a prompt behind a finish mark can end up in the
  transcript, and a command that starts and ends within one chunk has none
  (`PatternDispatch.DelayedStartAgreesIff`, `PatternDispatch.DelayedFinishAgreesIff`,
  `PatternDispatch.DelayedTextAgreesIff`, `LateMarks.OneTranscriptPerChunk`,
  `LateMarks.ShortCommandIsMissed`).
- An escalated call that the user approves runs at once, past the allowlist and the
  limiter, and is not recorded; the cap then bounds the other calls only
  (`Escalations.CapHoldsIff`, `Escalations.ApprovalsExceedCap`,
  `Escalations.ApprovalIgnoresAllowlist`).
- A pane that already has an agent takes over a pid without consulting the claims
  (`ScanResults.UniqueAfterBatchIff`, `ScanResults.ChangedPidIsShared`).
- A marker that lands between the bridge's freshness check and its write is
  overwritten (`PaneCapacity.MarkerBetweenCheckAndWrite`).
- A shutdown that finds the saver at work is not heard, and one that comes together
  with a dirty signal may be dropped (`Persistence.ShutdownCertainIff`,
  `Persistence.ShutdownMayBeLost`).

## Model

| member | source | states |
|---|---|---|
| Cells.NamedAgreesWithIndex | crates/therminal-app/src/grid_renderer.rs:215-293 | under an override palette a named colour and its index give the same foreground, and the same background for every name except DimBlack |
| Cells.PaletteIsUsed | crates/therminal-app/src/grid_renderer.rs:215-293 | an override palette gives its i-th colour to the i-th name and index and to the dim form of the first eight; black and index 0 paint no background |
| Cells.OtherColorsAreBuiltIn | crates/therminal-app/src/grid_renderer.rs:238-293 | every other colour is the built-in palette's, except that the terminal's own foreground may be overridden |
| GridRow.CursorIsDrawn | crates/therminal-app/src/grid_renderer.rs:32-45 | the cursor is hidden where the program hides it or, in the focused pane, while it blinks off; a block stands for the configured shape, any other shape for itself |
| GridRow.DistinctColumnsShowEveryCell | crates/therminal-app/src/grid_renderer.rs:1848-1969 | with distinct columns every visible cell of a row is shaped by exactly its own key |
| GridRow.LastCellWins | crates/therminal-app/src/grid_renderer.rs:1848-1969 | when cells share a column, the last one that is no spacer decides the column's key |
| GridRow.KeysIgnoreDistantCursor | crates/therminal-app/src/grid_renderer.rs:1776-1969 | a row's keys are the same under two cursors if neither sits in the row, which is why only the old and the new cursor row need rebuilding |
| GridRow.RebuildRow | crates/therminal-app/src/grid_renderer.rs:1848-1969 | the in-place row rebuild with its skip-if-same-key and truncation leaves the row built from nothing: each column holds the glyph of the cell that decides it, in that cell's text and flags and in the colour due to it (under a block cursor, linked, inverse, or plain), none for a blank off the cursor, and the buffers are those glyphs shaped |
| GridCache.RebuiltKeysAt | crates/therminal-app/src/grid_renderer.rs:1776-1841 | the row-by-row loop rebuilds exactly the rows that are damaged or hold the old or new cursor, and keeps every other row |
| GridCache.HotspotUpdateLookup | crates/therminal-app/src/grid_renderer.rs:1607-1639 | evicting and re-inserting row by row amounts, key by key, to the last hotspot shown in the column of a damaged row that covers it, and to no change elsewhere |
| GridCache.RenderedConsistent | crates/therminal-app/src/grid_renderer.rs:1165-1236 | every rendered frame keeps the glyph buffers equal to shaping the stored keys, for all panes |
| GridRenderer.RebuildCellBuffers | crates/therminal-app/src/grid_renderer.rs:1776-1841 | the nested loops over rows and slots compute the rebuilt keys and their shaped buffers |
| GridRenderer.SortIntoRows | crates/therminal-app/src/grid_renderer.rs:1165-1236 | sorting the snapshot by row gives each row its cells in snapshot order and drops rows off screen |
| GridRenderer.GridRenderer.Render | crates/therminal-app/src/grid_renderer.rs:1165-1236 | storing the damaged rows and drawing leaves all caches as the function on cache values says, and keeps them consistent; what they then show is `GridScreen.EveryPaneShowsItsCells` |
| GridRenderer.GridRenderer.RenderCached | crates/therminal-app/src/grid_renderer.rs:1239-1270 | redrawing an undamaged pane rebuilds only the rows of the old and the new cursor |
| GridRenderer.GridRenderer.RenderFromCache | crates/therminal-app/src/grid_renderer.rs:1273-1433 | drawing from the row cache takes the pane's caches out and puts them back updated, with cursor, offset and column count recorded |
| GridRenderer.GridRenderer.ProcessHotspots | crates/therminal-app/src/grid_renderer.rs:1600-1639 | the hotspot index changes only for damaged rows of the pane |
| GridRenderer.GridRenderer.ClearRenderCaches | crates/therminal-app/src/grid_renderer.rs:927-938 | a palette or font change empties every pane's caches |
| GridRenderer.GridRenderer.RemovePaneCache | crates/therminal-app/src/grid_renderer.rs:1099-1109 | closing a pane removes its caches and its hotspots, and keeps the caches consistent |
| GridRenderer.GridRenderer.SetCurrentPane | crates/therminal-app/src/grid_renderer.rs:1126-1133 | selecting a pane creates empty caches for it if it has none, and keeps the caches consistent |
| GridRenderer.GridRenderer.PaneCacheMatchesViewport | crates/therminal-app/src/grid_renderer.rs:942-957 | the check is exact: the cached line count, column count and offset are those of the viewport |
| GridRenderer.CursorOfPane | crates/therminal-app/src/grid_renderer.rs:1457-1464 | a pane's cursor is drawn where the terminal has it, on no row while it is scrolled out above, and hidden while it blinks off only in the focused pane |
| GridScreen.EveryPaneShowsItsCells | crates/therminal-app/src/grid_renderer.rs:1165-1969 | after any run, every pane on screen holds at each place of its grid the glyph of the cell that decides the place, in its own text, flags and colour, shaped for the font, and nothing where no cell is |
| GridScreen.IndexHoldsWhatIsOffered | crates/therminal-app/src/grid_renderer.rs:1607-1639 | after any run whose damaged rows cover their columns, the index holds at every place the hotspot of the last cell there that has one and is not linked to something other than a file, and nothing elsewhere |
| GridRuns.DepictionIsUnique | crates/therminal-app/src/grid_renderer.rs:1165-1433 | a pane's caches are determined by the frame they depict: two cache states depicting it are equal |
| GridRuns.DamagedFrameDepicts | crates/therminal-app/src/grid_renderer.rs:1273-1433 | redrawing only damaged rows and cursor rows turns caches of the previous frame into caches of the new one |
| GridRuns.OtherPanesUntouched | crates/therminal-app/src/grid_renderer.rs:1099-1236 | no frame, selection or removal of one pane changes another pane's caches or hotspots |
| GridRuns.StepKeepsCurrent | crates/therminal-app/src/grid_renderer.rs:1165-1433 | every permitted operation keeps every pane's caches equal to a full rebuild of its content |
| GridRuns.EveryFrameIsAFullRebuild | crates/therminal-app/src/grid_renderer.rs:1165-1433 | after any run of full, partial and undamaged frames, selections, removals and style changes, every pane's row cache, keys, buffers and bookkeeping are those of a renderer drawing its content for the first time |
| GridRuns.FreshIffNothingLeftBehind | crates/therminal-app/src/grid_renderer.rs:1607-1639 | a frame leaves the hotspot index equal to the one computed afresh if and only if every hotspot of the pane's previous frame lies in the new viewport and, in a damaged row, in a column the new row covers |
| GridRuns.HotspotIndexIsFreshIff | crates/therminal-app/src/grid_renderer.rs:1607-1639 | from the start, over any run, the index equals the map computed afresh after every operation if and only if no frame leaves a hotspot of its pane's previous frame behind, a condition on the frames alone |
| GridRuns.CoveringRunsStayFresh | crates/therminal-app/src/grid_renderer.rs:1607-1639 | from the start, if every pane keeps its rows and columns and every damaged row covers every column, the index equals the map computed afresh after every operation of the run |
| GridRuns.CoveringLeavesNothingBehind | crates/therminal-app/src/grid_renderer.rs:1607-1639 | the step of it: on frames that lie within their columns, such an operation leaves nothing behind |
| GridRuns.UncoveredHotspotStays | crates/therminal-app/src/grid_renderer.rs:1616-1619 | a hotspot whose column its redrawn row does not cover stays in the index |
| GridRuns.WideCharacterLeavesHotspotBehind | crates/therminal-app/src/grid_renderer.rs:1616-1619 | a run from the start that ends so: a link replaced by a wide character whose spacer column has no cell |
| Glob.GlobMatch | crates/therminal-daemon/src/event_bus.rs:154-181 | the two-pointer matcher decides the declarative relation, within (text + 1) x (pattern + 1) iterations |
| Glob.MatchesIffFillable | crates/therminal-daemon/src/event_bus.rs:152-153 | a pattern matches a text exactly when some filling of its stars spells the text |
| Glob.LatestStarSuffices | crates/therminal-daemon/src/event_bus.rs:159-176 | returning to the most recent star is complete: reaching a second star makes the first irrelevant |
| Glob.Backtrack | crates/therminal-daemon/src/event_bus.rs:169-172 | when the byte behind a star's literal does not fit, moving the star on by one loses no match |
| EventFilter.FilterMatches | crates/therminal-daemon/src/event_bus.rs:117-149 | the early-return test accepts exactly the events that pass every field, kinds by some glob |
| EventFilter.FromQuery | crates/therminal-daemon/src/event_bus.rs:67-114 | the parsing loop gives the filter the query denotes, or the error of the first bad part |
| EventFilter.FirstErrorDecides | crates/therminal-daemon/src/event_bus.rs:72-112 | whatever follows the first bad part does not change the result |
| EventFilter.QueryRoundTrip | crates/therminal-daemon/src/event_bus.rs:67-114 | every expressible filter is read back from its query string |
| EventFilter.ExpressibleIffSomeQuery | crates/therminal-daemon/src/event_bus.rs:67-114 | the filters that some query string denotes are exactly the expressible ones |
| EventBus.PublishKeepsOK | crates/therminal-daemon/src/event_bus.rs:254-316 | publishing keeps the ring within capacity, its cursors consecutive up to the current one, and every event counted once |
| EventBus.EventBus.Publish | crates/therminal-daemon/src/event_bus.rs:254-316 | the serialised publish assigns the next cursor, evicts the oldest event of a full ring, and appends the event as published, stamped if it bore no time, or, for a body over 64 KB, a core event for the same pane and time that names what it replaces; the counter of the stored class grows |
| EventBus.EventBus.Query | crates/therminal-daemon/src/event_bus.rs:336-361 | the loop over the ring returns the first accepted events beyond the filter's cursor and says whether more wait |
| EventBus.EventBus.GetStats | crates/therminal-daemon/src/event_bus.rs:376-396 | class counts add up to the total, which is the current cursor |
| EventBus.HasMoreIffMoreInRing | crates/therminal-daemon/src/event_bus.rs:336-361 | a page says there is more exactly when the ring holds an accepted event beyond its next cursor |
| EventBus.PageSize | crates/therminal-daemon/src/event_bus.rs:336-361 | a page holds every waiting event if they fit, and otherwise as many as asked for, at least one and at most 500 |
| EventBus.LogIsWhatWasPublished | crates/therminal-daemon/src/event_bus.rs:254-316 | in every run the k-th stored event is what is kept of the k-th publish, and the counters count the stored events of each class |
| EventBus.ReaderGetsWhatTheRingHeld | crates/therminal-daemon/src/event_bus.rs:254-361 | over any interleaving of publishes and page reads a resuming reader gets the accepted events once each in cursor order, except those already evicted when the page that passed them was read |
| EventBus.ReaderGetsWhatWasPublished | crates/therminal-daemon/src/event_bus.rs:254-361 | each event a resuming reader has is what is kept of a publish of the run, and of the publishes between its first and present cursor that were not lost it has exactly those it accepts |
| EventBus.PickedIffWanted | crates/therminal-daemon/src/event_bus.rs:336-361 | what that reader holds, event by event, in both directions |
| PublishRace.NothingLostOrCountedTwice | crates/therminal-daemon/src/event_bus.rs:288-310 | with publish in four steps and any number of publishers, every cursor handed out is in exactly one of in flight, ring and evicted; the ring keeps its capacity; at quiescence the class counts, total and cursor agree |
| PublishRace.RingHoldsWhatWasPublished | crates/therminal-daemon/src/event_bus.rs:254-310 | however publishers race, what the ring holds under a cursor is what is kept of the publish that took the cursor |
| PublishRace.CountedInItsClass | crates/therminal-daemon/src/event_bus.rs:288-300 | a publish is counted in the class of the event that is stored, and in no other |
| PublishRace.InOrderIffLeastAppended | crates/therminal-daemon/src/event_bus.rs:288-310 | an append keeps the ring in serialised order exactly when it appends the least cursor in flight |
| PublishRace.InOrderThroughoutIff | crates/therminal-daemon/src/event_bus.rs:288-310 | over any run the ring is in order after every step if and only if every append is that of the least cursor in flight |
| PublishRace.QuietInOrderIsSerialised | crates/therminal-daemon/src/event_bus.rs:288-310 | quiet and in order, the racing bus is in a state that a serialised bus could be in |
| PublishRace.LateAppendSeenIff | crates/therminal-daemon/src/event_bus.rs:304-361 | right after an append, the event waits for a reader exactly when its cursor is beyond the one the reader resumes from |
| RaceReader.OrderedReaderGetsWhatTheRingHeld | crates/therminal-daemon/src/event_bus.rs:288-361 | if every append is that of the least cursor in flight, a reader looking anywhere among racing publishers gets the accepted events once each in cursor order, except those evicted when it passed them |
| RaceReader.LaterIsBeyond | crates/therminal-daemon/src/event_bus.rs:288-361 | whatever the order of appends, what a reader gets later has cursors beyond its present one |
| RaceReader.PassedInFlightIsNeverGot | crates/therminal-daemon/src/event_bus.rs:288-361 | an event still in flight when the reader passes its cursor is never got, however the run goes on |
| RaceReader.PassedOverIff | crates/therminal-daemon/src/event_bus.rs:336-361 | in any order of appends, of the cursors a page takes the reader past it leaves out exactly those of events in flight, evicted, not accepted, or waiting behind the page's limit |
| RaceReader.PassedIsNeverGot | crates/therminal-daemon/src/event_bus.rs:336-361 | what the reader is past without having got it is never got |
| RaceReader.ReaderPassesInFlight | crates/therminal-daemon/src/event_bus.rs:288-361 | a run after which a reader has passed an event in flight |
| PublishRace.CrossedAppends | crates/therminal-daemon/src/event_bus.rs:288-361 | from any two events a run whose crossed appends make one reader miss one event for good, another read one twice, and a third be told of more where nothing is left for it |
| Framing.BigEndianRoundTrip | crates/therminal-daemon-client/src/framing.rs:23-39 | the four length bytes read back as the length |
| Framing.ByteStream.ReadNextFrame | crates/therminal-daemon-client/src/framing.rs:15-35 | reading takes one frame off the stream, or reports end, oversize or truncation |
| Framing.ByteStream.WriteFrame | crates/therminal-daemon-client/src/framing.rs:38-44 | writing appends the frame with its length cut to 32 bits |
| Framing.ReadAllFramed | crates/therminal-daemon-client/src/framing.rs:15-44 | frames within the limit read back as written, and then whatever the bytes behind them read as |
| Framing.CleanEndIff | crates/therminal-daemon-client/src/framing.rs:15-27 | behind such frames the end is reported as clean, with exactly those frames read, if and only if fewer than four stray bytes follow |
| Framing.ReadBackIffWithinLimit | crates/therminal-daemon-client/src/framing.rs:15-44 | frames read back as written if and only if every payload is within the size limit |
| Connection.OpenConnection | crates/therminal-daemon/src/server.rs:306-353 | reading the header decides between close, control mode, the first frame, and refusal, and leaves the stream behind what was consumed |
| Connection.FramesOpenAsBinary | crates/therminal-daemon/src/server.rs:315-349 | no stream of frames within the limit is taken for control mode |
| Connection.HandshakeOpensControl | crates/therminal-daemon/src/server.rs:315-335 | the handshake line opens control mode and leaves exactly the bytes after it |
| Connection.FirstFrameThenTheRest | crates/therminal-daemon/src/server.rs:337-474 | the hand-read first frame and the frame loop together give the frames that were sent |
| Connection.RunAccounted | crates/therminal-daemon/src/server.rs:414-474 | every byte that arrived is in a received frame, in the partial one, dropped, or ignored after closing |
| Connection.IntactIffUninterrupted | crates/therminal-daemon/src/server.rs:414-474 | once a well-formed stream has arrived, the frames received are those sent exactly when the event receiver yielded nothing, forwarded, filtered out or lagged, in the middle of a frame |
| FrameLoss.IntactIffNeverCut | crates/therminal-daemon/src/server.rs:414-474 | the same from frames sent and moments of arrival alone: the receiver never yields while the bytes so far end inside a frame and the last subscribe or unsubscribe among the frames before it is a subscribe |
| Connection.SubscriberLosesFrame | crates/therminal-daemon/src/server.rs:414-452 | such a run: a subscribe frame, the first byte of the next frame, then an event |
| Connection.EveryRequestAnsweredInOrder | crates/therminal-daemon/src/server.rs:414-474 | the k-th request received gets the k-th answer under its own id, whatever events go out in between |
| Forwarding.ForwardsWhatIsDue | crates/therminal-daemon/src/server.rs:414-452 | in every run the client is sent, in order and once each, exactly the events that come while the connection is open and the last subscribe or unsubscribe received asks for their kind |
| Forwarding.ClosedIff | crates/therminal-daemon/src/server.rs:414-474 | the connection is closed exactly after a frame it cannot decode or a length over one mebibyte |
| ClientMux.StepKeepsOK | crates/therminal-daemon-client/src/client.rs:204-415 | every step of callers, writer and reader keeps each call at one stage and its reply sender in one place, with cancels behind their requests |
| ClientMux.EndsOnceWithItsOwnResponse | crates/therminal-daemon-client/src/client.rs:204-372 | from every reachable state on, in every interleaving, an ended call keeps its outcome, and a response is one that was read under the call's own id |
| ClientMux.ResponseFindsWaiter | crates/therminal-daemon-client/src/client.rs:338-389 | a response read while its request is being written, or after it, finds its waiter unless the call is settled |
| ClientMux.SettledNeverReenters | crates/therminal-daemon-client/src/client.rs:375-412 | an id once answered, failed or cancelled is never pending or queued again |
| ClientMux.RepliesAreFinal | crates/therminal-daemon-client/src/client.rs:338-404 | over any run from a reachable state a call's reply never changes, and a call settled without one never gets one |
| ClientMux.ClosesOnlyWhenAsked | crates/therminal-daemon-client/src/client.rs:410-415 | the writer stops only when some caller has asked for it |
| ClientMux.NoCallOrphaned | crates/therminal-daemon-client/src/client.rs:217-219 | once writer and pending entries are gone, every waiting call can end at once |
| ClientMux.EndsOfRegisteredCalls | crates/therminal-daemon-client/src/client.rs:366-415 | the end of the stream lets every registered call that waits receive a failure, the end of the writer lets it see a closed connection |
| ClientMux.UnencodableRequestFails | crates/therminal-daemon-client/src/client.rs:376-404 | a request that cannot be encoded fails its call without being registered or written |
| ClientMux.CloseDropsTheQueue | crates/therminal-daemon-client/src/client.rs:410-415 | a close lets the calls still queued see a closed connection |
| LeakedCalls.LeakedIff | crates/therminal-daemon-client/src/client.rs:204-229 | while the writer runs, a call has a pending entry, no caller and no cancel on its way if and only if its caller went away, or its timeout found the queue full, and the entry is neither settled nor still to be registered |
| LeakedCalls.LeakLastsIff | crates/therminal-daemon-client/src/client.rs:307-396 | over any run a leaked entry stays pending unless its response is read, its write fails, or the reader ends |
| LeakedCalls.AbandonedCallLeaks | crates/therminal-daemon-client/src/client.rs:204-229 | dropping the request of any registered call leaks its entry, also with room in the queue |
| LeakedCalls.FirstCallAbandoned | crates/therminal-daemon-client/src/client.rs:204-388 | such a run of a new client |
| UnansweredCalls.EndAfterEndOfStream | crates/therminal-daemon-client/src/client.rs:217-229 | over any run, a call registered after the end of the stream ends because its caller goes away, or else timed out if and only if before that neither its write failed nor the client closed; otherwise with the failure or a closed connection, whichever came first |
| UnansweredCalls.WriteFailsOrTimePasses | crates/therminal-daemon-client/src/client.rs:217-396 | a call being written can end by a failed write, by its timeout, and by its caller going away |
| UnansweredCalls.CloseEndsCalls | crates/therminal-daemon-client/src/client.rs:410-415 | a close taken by an idle writer ends registered calls with a closed connection |
| UnansweredCalls.RequestAfterEndOfStream | crates/therminal-daemon-client/src/client.rs:359-412 | requests are accepted, registered and written after the end of the stream whenever it comes while the writer is idle |
| Text.WordsAppend | crates/therminal-daemon/src/control.rs:211 | splitting at whitespace distributes over a blank between two strings |
| Text.DigitsAreDecimal | crates/therminal-daemon/src/control.rs:236 | printed and parsed numbers are decimal |
| Text.OnlyDigitsAreNumbers | crates/therminal-daemon/src/control.rs:236 | a number is digits behind an optional plus sign |
| ControlCommands.ParseCommand | crates/therminal-daemon/src/control.rs:203-329 | the parser with its index loops gives the command or error that the line's words denote |
| ControlCommands.ParseNewSession | crates/therminal-daemon/src/control.rs:215-229 | the flag loop accepts repeated names, of which the last wins, and rejects any other word |
| ControlCommands.ParseSplitPane | crates/therminal-daemon/src/control.rs:247-278 | the flag loop lets the last flag and the last pane win |
| ControlCommands.AcceptedIsWellFormed | crates/therminal-daemon/src/control.rs:203-329 | an accepted command has 64-bit ids, a one-word name and keys one blank apart |
| ControlCommands.ParseRenderRoundTrip | crates/therminal-daemon/src/control.rs:19-30 | every accepted line's command, rendered in the documented syntax and parsed again, is the same command |
| ControlCommands.WellFormedIffExpressible | crates/therminal-daemon/src/control.rs:203-329 | the well-formed commands are exactly those some line means |
| ControlMeaning.AcceptedIffMeant | crates/therminal-daemon/src/control.rs:203-329 | a line is accepted as a command exactly if its words mean it: names in pairs of which the last counts, flags and panes in any order of which the last count, numbers within 64 bits, further words ignored where none are asked for |
| ControlMeaning.RefusedIff | crates/therminal-daemon/src/control.rs:203-329 | every other line is refused for exactly the first reason its words give |
| ControlMeaning.MessageTells | crates/therminal-daemon/src/control.rs:203-329 | the message says the reason, quoting the word at fault |
| ControlStream.HandleControlConnection | crates/therminal-daemon/src/control.rs:435-528 | the loop writes the greeting and then the items of its turns, ending at exit, end of input, errors or a failed write |
| ControlStream.BlocksAnswerLines | crates/therminal-daemon/src/control.rs:464-528 | the k-th reply block is numbered k, is written whole, and answers the k-th line: with what its command gave, a farewell, or an error with its message |
| ControlStream.NoticesFollowEvents | crates/therminal-daemon/src/control.rs:510-526 | the notifications written are the first events, in order |
| ControlStream.ServesUntilItStops | crates/therminal-daemon/src/control.rs:459-528 | every line and event up to the first exit, end of input or events, read error or failed write is answered or passed on, and none behind it |
| ControlStream.KeywordsAreTheirWords | crates/therminal-daemon/src/control.rs:342-428 | each kind of event has its own keyword |
| ControlStream.DecodedIffSafe | crates/therminal-daemon/src/control.rs:331-339 | a client reading line by line recovers exactly what was written if and only if no body holds its own end marker and no notification holds a line break |
| ControlStream.CaptureEndsItsOwnReply | crates/therminal-daemon/src/control.rs:331-334 | a capture whose row is its own end marker is not recovered by the client |
| ControlStream.EscalationHeardIff | crates/therminal-daemon/src/control.rs:384-391 | a client hears a trust escalation as it was sent if and only if the name the agent gave itself holds no line break |
| ControlStream.OneLineBodiesAreSafe | crates/therminal-daemon/src/control.rs:331-339 | a body on one line, such as a JSON document, is safe exactly unless it is the end marker itself |
| ControlStream.ParseErrorsAreSafe | crates/therminal-daemon/src/control.rs:203-339 | the reply to every line that does not parse is safe, because the word it quotes holds no line break |
| ControlStream.BodiesWithoutPercentAreSafe | crates/therminal-daemon/src/control.rs:46-62 | a body of any number of lines without a percent sign is safe; the help text is one |
| AnsiStrip.AnsiStripper.Feed | crates/therminal-terminal/src/state_inference/ansi_strip.rs:63-180 | the loop over states yields the text and final state of the stripping function; which text that is, is `EscapeSequences.StripsExactlyTheSequences` |
| EscapeSequences.StripsExactlyTheSequences | crates/therminal-terminal/src/state_inference/ansi_strip.rs:63-180 | of any stream of characters, control characters, stray bytes and whole escape sequences (CSI, OSC, APC, charset and the two-byte ones, with any parameters and bodies) exactly the characters are left, in order |
| EscapeSequences.LeavesNoTrace | crates/therminal-terminal/src/state_inference/ansi_strip.rs:86-180 | a single sequence or control character leaves no trace, whatever follows it |
| AnsiStrip.BeginsWithItsEncoding | crates/therminal-terminal/src/state_inference/ansi_strip.rs:191-207 | bytes decode to a character exactly when they begin with its UTF-8 form |
| AnsiStrip.StripInTwo | crates/therminal-terminal/src/state_inference/ansi_strip.rs:58-180 | stripping in two chunks gives the same state, and the same text but for one character cut at the border |
| AnsiStrip.CrossesIffStraddles | crates/therminal-terminal/src/state_inference/ansi_strip.rs:58-180 | a character is cut exactly when trailing bytes, reached outside any escape sequence, begin one that the next chunk completes |
| AnsiStrip.ChunksAgreeIff | crates/therminal-terminal/src/state_inference/ansi_strip.rs:58-62 | one chunk border makes no difference to the text if and only if no character straddles it; escape sequences never suffer |
| AnsiStrip.AllChunksAgreeIff | crates/therminal-terminal/src/state_inference/ansi_strip.rs:58-62 | however the stream is cut into chunks, the text is that of the whole if and only if no chunk completes a character begun before it |
| AnsiStrip.AccentIsLost | crates/therminal-terminal/src/state_inference/ansi_strip.rs:74-84 | the two bytes of an accented letter in two chunks give no text |
| PatternDispatch.PatternDispatcher.ProcessBytes | crates/therminal-daemon/src/pattern_dispatch.rs:89-121 | processing a chunk updates the accumulator, publishes every match of every completed line once and in order, and counts them |
| PatternDispatch.PatternDispatcher.RouteMatches | crates/therminal-daemon/src/pattern_dispatch.rs:176-234 | each match is published exactly once, in order, and counted |
| PatternDispatch.RoutedTellsOfMatches | crates/therminal-daemon/src/pattern_dispatch.rs:176-231 | the newest events on the bus are those of the matches in order, each with the match's pack and pattern as source and kind, its pane and its body |
| PatternDispatch.FoundLast | crates/therminal-daemon/src/pattern_dispatch.rs:89-174 | what the engine finds in each call is routed, call by call |
| PatternDispatch.PatternDispatcher.OnCommandStart | crates/therminal-daemon/src/pattern_dispatch.rs:130-140 | a start mark dispatches the partial line and begins an empty transcript |
| PatternDispatch.PatternDispatcher.OnCommandFinish | crates/therminal-daemon/src/pattern_dispatch.rs:153-174 | a finish mark hands over the transcript, resets the command and leaves the partial line |
| PatternDispatch.ChunkingDoesNotMatter | crates/therminal-daemon/src/pattern_dispatch.rs:89-140 | engine calls depend only on the visible characters and the marks between them |
| PatternDispatch.NothingVisibleIsLost | crates/therminal-daemon/src/pattern_dispatch.rs:89-140 | at all times the dispatched lines and the line buffer together are the visible text without line ends |
| PatternDispatch.FinishHandsOverTheTranscript | crates/therminal-daemon/src/pattern_dispatch.rs:130-174 | the transcript handed over is the visible text since the last start without carriage returns, plus one newline if the last line was partial; it is empty outside a command |
| PatternDispatch.RawChunksAgreeIff | crates/therminal-daemon/src/pattern_dispatch.rs:89-108 | raw bytes in two chunks have the effect of one chunk if and only if no character straddles the border |
| PatternDispatch.AllRawChunksAgreeIff | crates/therminal-daemon/src/pattern_dispatch.rs:89-108 | the same for any number of chunks |
| PatternDispatch.DelayedStartAgreesIff | crates/therminal-daemon/src/session/pane/headless.rs:86-127 | handing over a chunk before its start mark agrees with the stream's order if and only if nothing but carriage returns follows the mark in the chunk |
| PatternDispatch.DelayedFinishAgreesIff | crates/therminal-daemon/src/session/pane/headless.rs:86-127 | for the finish mark of a running command the same: what follows in the chunk becomes part of the transcript |
| PatternDispatch.DelayedFinishOutsideAgreesIff | crates/therminal-daemon/src/session/pane/headless.rs:86-127 | for a finish mark outside a command: if and only if the text behind it completes no line or no command text was set |
| PatternDispatch.DelayedTextAgreesIff | crates/therminal-daemon/src/session/pane/headless.rs:86-127 | for a command-text mark: if and only if the text behind it completes no line or the command was the same before |
| LateMarks.OneTranscriptPerChunk | crates/therminal-daemon/src/session/pane/headless.rs:86-127 | whatever marks a chunk holds, it hands over at most one transcript: none if its first start or finish mark is a start, otherwise the transcript so far with all of the chunk's text |
| LateMarks.ShortCommandIsMissed | crates/therminal-daemon/src/session/pane/headless.rs:86-127 | a command that starts and ends within one chunk hands over no transcript, where the order of the stream gives it one exactly if it prints anything visible |
| LateMarks.TrailingMarksAgree | crates/therminal-daemon/src/session/pane/headless.rs:86-127 | any number of marks with nothing visible behind the first of them are handed over as they stand in the stream |
| ScanResults.SessionManager.ApplyScanResults | crates/therminal-daemon/src/process_detector_task.rs:336-469 | the batch loop leaves the registry and broadcasts the events of the step function |
| ScanResults.ScanDecides | crates/therminal-daemon/src/process_detector_task.rs:354-467 | what one scan does to its pane: which agent is registered, announced with name, type, pid and session, or dropped, and when nothing happens |
| ScanResults.ClaimedAtFirst | crates/therminal-daemon/src/process_detector_task.rs:344-352 | a batch begins with exactly the registered pids taken |
| ScanResults.ReplayGivesTheRegistry | crates/therminal-daemon/src/process_detector_task.rs:336-469 | replaying a batch's events over the registry before it gives exactly the registry after it |
| ScanResults.EventIffChange | crates/therminal-daemon/src/process_detector_task.rs:361-467 | a scan broadcasts one event exactly when it changes the registry, and changes only its own pane |
| ScanResults.GonePanesUntouched | crates/therminal-daemon/src/process_detector_task.rs:354-360 | panes no longer live are left as they were |
| ScanResults.UniqueUnlessTakenOver | crates/therminal-daemon/src/process_detector_task.rs:401-441 | one scan keeps pids unique if and only if it does not take over a pid another pane holds |
| ScanResults.UniqueAfterBatchIff | crates/therminal-daemon/src/process_detector_task.rs:336-469 | from unique pids, with each pane scanned at most once, the registry a batch leaves behind has unique pids if and only if no pane that had an agent reports a pid that another such pane reports, an unscanned pane keeps, or an earlier newcomer took |
| ScanResults.UniqueIfPidsAreKept | crates/therminal-daemon/src/process_detector_task.rs:336-469 | pids stay unique if every scanned pane that had an agent reports the pid it had |
| ScanResults.HoldersAfterBatch | crates/therminal-daemon/src/process_detector_task.rs:336-469 | who holds a pid after a batch, read off the registry before it and the scans alone |
| ScanResults.UniqueThroughoutIff | crates/therminal-daemon/src/process_detector_task.rs:336-469 | pids are unique also between the scans of a batch if and only if no scan takes over a pid held at its moment |
| ScanResults.ChangedPidIsShared | crates/therminal-daemon/src/process_detector_task.rs:401-441 | a pane that changes to a pid another pane holds ends up sharing it |
| ScanResults.HeldPidsAreNotStolen | crates/therminal-daemon/src/process_detector_task.rs:325-379 | in any batch order a pane without an agent never gets a pid some pane held before |
| UrlDetection.EveryStartIsMatched | crates/therminal-app/src/url_detection.rs:12-13 | every place where the pattern could start lies inside a match; matches are ordered, disjoint and maximal |
| UrlDetection.SchemesStart | crates/therminal-app/src/url_detection.rs:12-13 | the pattern can start wherever a scheme has a URL character behind it |
| UrlDetection.MatchIsWholeRun | crates/therminal-app/src/url_detection.rs:12-13 | a match is a scheme and the longest run of URL characters behind it |
| UrlDetection.OnlyPunctuationIsTrimmed | crates/therminal-app/src/url_detection.rs:49-57 | only full stops, commas, semicolons, colons, exclamation and question marks at the end of a match are trimmed |
| UrlDetection.BytesMapBackToColumns | crates/therminal-app/src/url_detection.rs:45-72 | the byte offsets of a span map back to exactly its columns, for characters of any encoded length |
| UrlDetection.TextShowsLastCell | crates/therminal-app/src/url_detection.rs:33-42 | the row text shows at each column what the last cell written there shows |
| UrlDetection.TextIsAsWideAsTheRow | crates/therminal-app/src/url_detection.rs:33-42 | the row text ends with the last column that has a cell and shows a blank where there is none |
| UrlDetection.DetectUrlsInCells | crates/therminal-app/src/url_detection.rs:18-82 | in place, every cell on screen without a link gets the link of its column, and every other cell is unchanged |
| UrlDetection.TaggedCell | crates/therminal-app/src/url_detection.rs:70-82 | a cell on screen without a link takes the link of its column, marked as found in the text; nothing else of it changes |
| UrlDetection.LinkedIffInSpan | crates/therminal-app/src/url_detection.rs:49-80 | a column gets a link exactly when it lies in a match's trimmed span of at least ten bytes, and the characters over the span spell the link |
| UrlDetection.LinksLookLikeUrls | crates/therminal-app/src/url_detection.rs:10-57 | a link is http:// or https:// and more, of at least ten bytes, without blanks, control characters, brackets that close or quotes, and does not end in punctuation |
| UrlDetection.OtherCharactersContinue | crates/therminal-app/src/url_detection.rs:12-13 | any other printable character may be part of a link |
| Trust.RateLimiter.CheckAndRecord | crates/therminal-daemon/src/trust.rs:200-223 | pruning, deciding and recording, with the length compared as a 32-bit number |
| Trust.CheckToolAccess | crates/therminal-daemon/src/trust.rs:322-398 | the gate with its early returns gives the decision and touches the limiter only for Admin calls that pass every other check |
| Trust.WindowIsWhatWasAllowed | crates/therminal-daemon/src/trust.rs:200-223 | in every run what the limiter remembers of the last minute is what the gate allowed in it |
| Trust.RefusedIffMinuteIsFull | crates/therminal-daemon/src/trust.rs:200-223 | a call that reaches the limiter is refused exactly when the minute before it already holds as many allowed calls as the cap |
| Trust.AtMostCapPerMinute | crates/therminal-daemon/src/trust.rs:200-398 | in every run any sixty seconds hold at most the cap of Admin calls per name that the gate itself allows, through grants and auto-approval too |
| Trust.RefusedCallsUseNoBudget | crates/therminal-daemon/src/trust.rs:322-398 | a call refused anywhere in the gate, by the limiter too, or escalated and not approved, changes no later decision |
| Trust.GrantedIffApproved | crates/therminal-daemon/src/mcp/mod.rs:262-272 | a connection holds a grant exactly when an escalated call of that connection for that tool was approved |
| Trust.AllowedIff | crates/therminal-daemon/src/trust.rs:322-398 | the gate's verdict from the history of the run: a known tool is allowed exactly if the agent's own tier suffices for it or an approval or auto-approval makes up for it, the allowlist has it, and for Admin tools the last sixty seconds hold fewer calls allowed by the gate than the cap; it is escalated exactly if only an approval is missing; unknown tools pass |
| Trust.AllowedBelowTierOnlyIfApproved | crates/therminal-daemon/src/trust.rs:339-372 | below the required tier and without auto-approval the gate itself allows a known tool only to a connection approved for it |
| Trust.RefusedForTierIff | crates/therminal-daemon/src/trust.rs:165-171 | without a user to ask, a tool is refused for its tier exactly if the agent's configured tier, or the default for an unconfigured agent, is Sandboxed and the tool a writer or admin one, or Supervised and it an admin one |
| Trust.OwnTierCounts | crates/therminal-daemon/src/trust.rs:165-171 | the default tier means nothing to a configured agent, the configured agents nothing to any other |
| Trust.HigherTierKeepsTools | crates/therminal-daemon/src/trust.rs:339-372 | raising an agent's tier never takes a tool away |
| Escalations.LetThroughIff | crates/therminal-daemon/src/mcp/mod.rs:225-290 | a call runs at a step exactly if the gate allows it there, or if it was escalated before and this step is the first answer to it and approves it |
| Escalations.LetThroughOnce | crates/therminal-daemon/src/mcp/mod.rs:225-290 | no call runs twice |
| Escalations.ApprovalIgnoresAllowlist | crates/therminal-daemon/src/mcp/mod.rs:262-272 | an approved call runs whatever the allowlist and the limiter say, unrecorded; the same call again passes exactly if the allowlist has it and, for Admin tools, the limiter admits it |
| Escalations.AtMostCapAndApprovals | crates/therminal-daemon/src/mcp/mod.rs:225-290 | in every run the Admin calls that run in any sixty seconds are those the gate allows, at most the cap, and the escalations approved in that time |
| Escalations.CapHoldsIff | crates/therminal-daemon/src/mcp/mod.rs:225-290 | in every run an agent stays within any bound of Admin calls in any sixty seconds, approvals counted, if and only if each call that runs finds fewer in the minute before it |
| Escalations.ApprovalsExceedCap | crates/therminal-daemon/src/mcp/mod.rs:262-272 | with a cap of one, runs in which any number of approved Admin calls under one name run at one instant, none of them recorded |
| PaneCapacity.PaneCapacityCache.UpsertFromMarker | crates/therminal-daemon/src/pane_capacity.rs:98-128 | a marker patches the fields it carries and stamps all three clocks |
| PaneCapacity.PaneCapacityCache.MergeFilePolledFields | crates/therminal-daemon/src/pane_capacity.rs:159-178 | a merge fills only the three file fields and refreshes the entry |
| PaneCapacity.PaneCapacityCache.EvictStale | crates/therminal-daemon/src/pane_capacity.rs:205-216 | the sweep keeps the entries seen within the time to live and returns how many it removed |
| PaneCapacity.BridgeTick | crates/therminal-daemon/src/ensure.rs:382-488 | one bridge round merges into a fresh entry, replaces any other, removes by session, and sweeps |
| PaneCapacity.ClocksOrdered | crates/therminal-daemon/src/pane_capacity.rs:98-216 | in every run an entry's marker time is at most its last-seen time, which is at most now |
| PaneCapacity.FreshIsNeverSwept | crates/therminal-daemon/src/pane_capacity.rs:134-216 | a marker-fresh pane survives every sweep unchanged |
| PaneCapacity.SweepKeepsRecentlyTouched | crates/therminal-daemon/src/pane_capacity.rs:198-216 | a sweep at any moment of any run keeps exactly the panes touched in the last sixty seconds whose session was not removed since |
| PaneCapacity.HoldsLastCarried | crates/therminal-daemon/src/ensure.rs:442-487 | in every run status, session, directory and tool hold the value a marker carried last since the entry was replaced whole by a poll of a pane no longer fresh, or lost |
| PaneCapacity.EntryHoldsLastSaid | crates/therminal-daemon/src/ensure.rs:442-454 | in every run status, session, directory and tool are what was said of them last, by a marker that carries them or by a file read when no marker was less than thirty seconds old |
| PaneCapacity.PollLeaves | crates/therminal-daemon/src/pane_capacity.rs:134-178 | every other field of an entry after a poll, by the clock of the last marker |
| PaneCapacity.MarkerLeaves | crates/therminal-daemon/src/pane_capacity.rs:98-128 | every other field of an entry after a marker |
| PaneCapacity.StateIsPolledForItsPane | crates/therminal-daemon/src/ensure.rs:442-454 | a state resolved to a pane is a poll of that pane, an unresolved one changes nothing |
| PaneCapacity.RemovalTakesOutTheSession | crates/therminal-daemon/src/ensure.rs:456-478 | a removed file takes out exactly the panes of the session it names, or else of its file name |
| PaneCapacity.MarkerOutranksFiles | crates/therminal-daemon/src/pane_capacity.rs:98-146 | by the clock: such a value survives every poll and sweep for as long as further markers, with the field or without, come less than thirty seconds before each poll |
| PaneCapacity.PollDeliversFileFields | crates/therminal-daemon/src/ensure.rs:442-454 | a poll delivers every file field it has whether the pane is fresh or not, and loses an older value only when the file has none and the pane is not fresh |
| PaneCapacity.MarkerBetweenCheckAndWrite | crates/therminal-daemon/src/ensure.rs:442-454 | a marker between the bridge's check and write survives exactly if the pane was fresh before or the file says the same |
| Persistence.NoChangeIsForgotten | crates/therminal-daemon/src/persistence.rs:117-172 | in every run the file restores to memory, or a signal is queued, or the saver has every unsignalled change in hand, or the last save failed |
| Persistence.FileIsAWholeSnapshot | crates/therminal-daemon/src/persistence.rs:49-76 | at every step of every run, so after a crash anywhere, the canonical file is the initial one or exactly an earlier state of memory |
| Persistence.FileNeverGoesBack | crates/therminal-daemon/src/persistence.rs:49-172 | a later file never holds an older snapshot |
| Persistence.FailedSaveIsGivenUp | crates/therminal-daemon/src/persistence.rs:49-76 | a failed save leaves file, memory and queue alone and is not tried again before the next change; a failed rename removes the temporary file if it can, an earlier failure leaves it |
| Persistence.SaveWithoutFailure | crates/therminal-daemon/src/persistence.rs:49-76 | a save without failures puts the snapshot into the file and leaves no temporary file |
| Persistence.SaverSettles | crates/therminal-daemon/src/persistence.rs:140-172 | every run of the saver's own steps, failing ones included, is no longer than a bound known from the state, and is stuck exactly when the saver has ended or waits with an empty queue |
| Persistence.Settle | crates/therminal-daemon/src/persistence.rs:140-172 | from every state the saver can come to rest |
| Persistence.ShutdownCertainIff | crates/therminal-daemon/src/persistence.rs:140-161 | a shutdown ends the saver in every run that comes to rest if and only if it waits in select with an empty queue, or is in its last save already |
| Persistence.ShutdownMayBeLost | crates/therminal-daemon/src/persistence.rs:140-161 | when it waits with a signal queued, one run ends it and another goes on waiting for ever |
| Persistence.ShutdownHeard | crates/therminal-daemon/src/persistence.rs:140-161 | a shutdown that finds it anywhere but waiting or in its last save is lost in every run |

## Left out

- GPU work, layout, floating-point geometry, palette interpolation and contrast: glyph shaping is an abstract function of the shape key and the font, colours are values with equality.
- The hyperlink map, underline and selection rectangles, widgets and frame timing: rebuilt every frame, with nothing to keep.
- Sockets, pipes, file watching, process spawning and the regex, JSON and MessagePack libraries: their results are parameters or the functions they are documented to compute.
- Wrap-around of 64-bit counters (event cursors, request ids, pane ids): they are unbounded numbers; numbers in text are limited to 64 bits.
- The bus's broadcast channel, subscriber lag and dropped-subscriber count: only the ring and the counters are modelled.
- The 64 KB body cap takes the serialised size as a number of the event; bodies are opaque.
- The bodies of IPC and control-mode responses and the session manager behind them: what dispatching a command returns is given with the line.
- Notification texts are a keyword with printed arguments; which fields an event prints is not modelled.
- Resource access checks, audit logging and the string texts of gate refusals: single branches.
- Resolving a poll to a pane by pid, session or directory, and finding a pane by session: the pane is a parameter of the poll.
- The rounding of context percentages from 64 to 32 bits: they are real numbers.
- Building a snapshot from sessions and panes: the serialised snapshot is a function of memory.
- Agent status, detection time and the registry's own event channels: registry entries are name, type and pid, which is what is broadcast.
- The process scanners and WSL probes that produce a batch: a batch is any list of scans.
- The pattern engine's rules: the engine is a function of the line or transcript and the command.
- The lifecycle table, model context, git state, hook mapping and clipboard: small tables that would add only easy members.
- LateMarks.TrailingMarksAgree: is one direction; with several marks in a chunk the two orders can also agree by chance, and what is proved of all such chunks is which transcript they hand over.
- PatternDispatch.PatternDispatcher.ProcessBytes: all events of one chunk are stamped from one clock reading, because only their order matters here.
- PaneCapacity.BridgeTick: the clock is read once per round, where the code reads it for the entry, the check, the merge and the sweep.
- The sixty seconds after which an escalation counts as declined: a decline may come at any moment, and so may an approval.
- Trust.AtMostCapPerMinute: is about runs in which a cap is always in force, because a cap of zero means unlimited and records nothing.
- The broadcast sender closing, which ends a subscribed connection: it happens only when the server goes away.
- The help text's letters: that it holds no percent sign is read off control.rs, and `ControlStream.BodiesWithoutPercentAreSafe` is about every such body.
