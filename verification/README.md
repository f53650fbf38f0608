# Verified model of the terminal daemon's protocols

This project models the parts of the daemon where a mistake is invisible in any one function: the live
terminal stream, the lease registry, the fleet graph built over it, the text codecs that must undo each
other, the walks over files and processes, and the reaping of orphaned agents. `dafny verify dfyconfig.toml`
checks all of it.

Code that changes things in place is modelled by classes and loops, each proved against a specification
function; the properties are lemmas about those functions, over every input or every run.

## The live terminal stream

A server pump holds an offset into an append-only PTY history and sends each viewer the suffix beyond it,
sharing encoded frames between viewers. A page counts applied bytes in `ringOffset`, queues output while text
is selected, wipes a one-shot preview before the first output, and reconnects with `?since=ringOffset`.

* `PtyRing.dfy` is the ring: a plain tail, deflated chunks behind it, eviction, and the one-frame cache.
* `LiveStream.dfy` has the pump, the page, and the transition system they form with the network.
* `ExactlyOnce.dfy` proves that in every run a viewer shows the history up to its offset once and in order.
* `StreamDisplay.dfy` says when output is painted and when held back, what a preview does, and what a frame is;
  `CatchUp.dfy` that nothing gets stuck: a viewer can be brought up to date from every reachable state.
* `DaemonRestart.dfy` follows a page whose offset counts bytes of a daemon that is gone through every run of the
  new one, and says exactly what it gets and what it misses.
* `WakeUp.dfy` is arm, flush, park against append, decide, notify; and the activity counter against its waiter.
* `MetaGate.dfy` is the generation counter that gates rebuilding the meta frame.
* `Framing.dfy` is the length-delimited WebTransport framing; `Reconnect.dfy` the page's sockets and timer;
  `ImeDedup.dfy` the filter for mobile keyboards.

Exactly-once delivery rests on three assumptions. The ring's floor does not pass the viewer's offset: in every
reachable system a flush, shared or fresh, is whole if and only if it has not (`FlushWholeIff`), and that is when a
viewer's `sound` flag survives the flush (`TakeSoundIff`). All received frames are applied before a reconnect reads
`ringOffset`; `ReconnectExactIff` gives the exact number of unapplied bytes a reconnect can bear. And inflating
undoes compressing.

## Leases and the fleet

`Claims.dfy` is the registry, `LeaseAnswers.dfy` what single requests are answered, in numbers, `LeaseHistory.dfy`
its whole histories, `LeaseHost.dfy` the process-global registry with its file and restarts, `LeaseCrash.dfy` the
crashes that lose writes on their way to the file, and `Fleet.dfy` the graph that joins tasks, leases, tabs and peers,
with every edge and node spelled out in `FleetEdges.dfy`.

## Codecs, walks and reaping

`HttpAdapter.dfy` (over `HttpText.dfy`) writes and parses the internal HTTP/1.1 messages, and `HttpMeaning.dfy` says
what each end learns, in the other's own fields; one unit of the wire is one decoded character in a head and one byte in
a body. `Assignment.dfy` is the `[override:]phase[/role]` grammar. `FileTree.dfy` is the file listing and its badge
count, `ListingPaths.dfy` the paths it shows, `ProcTree.dfy` the process-tree walks, `BoxDrawing.dfy` the merging of
table rules, `Reaper.dfy` the killing of recorded orphans. `Text.dfy` and `Bytes.dfy` hold shared primitives.

## Where the code differs from its comments

Each of these is kept as the code has it, with the exact condition under which the promise holds.

* `src/http3.rs:103-145` says its pump wakes on the ring's notifier like the WebSocket one, but it never counts itself
  as a viewer, so a push that finds no viewer does not notify it: a WebTransport pump can stay parked over unsent bytes
  (`WebTransportCanLoseAWakeUp`). Over every run, a parked pump has been or will be woken exactly when some push since
  it armed found a viewer (`WokenIffFound`). The WebSocket pump has a periodic tick besides. Nothing else in the
  repository calls `pump_output`, so today no page is served by it.
* `src/http3.rs:50-52` caps an inbound frame at 2 MiB; a server frame can carry the whole 4 MiB ring. A frame
  reads back exactly when it is within the cap (`FrameRoundTripIff`).
* `src/assignment.rs:96-98` says the text form reads back as itself. `:b:c/d` does not; the exact set is
  `RoundTripIff`.
* `src/claims.rs:209-242` collects with its own clock read, later than the caller's `now`. A lease that lapses
  between the two is handed over at a time it was still running (`TwoReadsOverlap`); `LateGcIff` is the exact
  condition. It also writes the file after dropping the lock, so two writes can land in the wrong order and a
  restart can then repeat a fence and hand a live lease to another holder (`ReorderedWritesBreakExclusion`).
  While writes do land in lock order, fences climb across restarts and crashes whatever the clocks
  (`FencesClimbAcrossRestarts`, `CrashFencesClimb`), and the host answers as one registry that was never collected
  nor restarted, with callers served in any order of their clocks (`HostRefinesRegistry`).
  A restart can hand a live lease on if and only if the file does not have that lease, live and the same holder's
  (`HandoverIff`); a grant after it repeats an issued fence if and only if the file's counter is behind memory's
  (`RepeatedFenceIff`). While writes land in lock order, a crash takes back no acknowledged grant (`CrashSafe`).
* Fences are 64-bit and wrap: they climb exactly as long as the counter does not (`FencesClimbIff`).
* `src/api.rs:1308-1313` says the badge matches the listing. It does unless a file's metadata is unreadable
  below the cap (`BadgeMatchesListingIff`).
* `src/api_ws.rs:318-332` describes a composition as injecting its word once. Typed keys and their commit do so
  exactly when only the first key has several bytes, a first single byte finds the composition empty, and the commit
  falls inside the window (`TypedWordOnce`). So a new word comes twice after an arrow key, which passes by without
  ending the composition; when committed late; and when an accented letter arrives as a frame of its own, as the
  recordings at `src/api_ws.rs:1565-1577` have it (`AccentComesTwice`). A chain of prefixes is injected once exactly
  under the condition of `GrowingWordOnce`, which covers slow frames and re-sent ones; one that opens with a lone
  boundary byte and goes on doubles that byte.
* `src/agent_reaper.rs:97-102` promises that only processes of ours are killed. The start time is read when the
  record is written (`src/agent_reaper.rs:81-89`), not at launch, so a tab that still lists a pid which somebody
  else's process has taken over gets that process recorded and killed, with no tick shared
  (`StalePidKillsAStranger`); and a pid that changes hands within one clock tick keeps the recorded identity
  (`SameTickReuseKillsAStranger`); and the record outlives a reboot, after which ticks count from nought again and a
  stranger can have a recorded pid and tick (`RebootKillsAStranger`). These are the only three causes: in every run a
  process that is not ours, recorded or not, dies of a startup if and only if some startup finds a saved agent alive
  and leading its group for one of them (`OnlyOursAreHit`).
* `src/catbus_agent.rs:160` calls the agent search breadth-first. It pops the last entry, so it goes depth-first
  and last child first; which agent it answers is fixed by that order (`FindAgentDescendant`).
* `assets/main.js:1319-1423`: a WebSocket URL that cannot be built leaves the page without socket or timer
  (`BadUrlStrands`).
* `src/box_drawing.rs:104-113` says the merged bar is exactly the union of a glyph's own bars. It is exactly when
  the stroke is no thicker than the cell is wide (`HBarIsUnionIff`).

## Model

| member | source | states |
|---|---|---|
| PtyRings.PtyRing.Push | src/pty_ring.rs:258-278 | a push appends to the history, never lowers the floor, keeps the ring within capacity, and notifies the viewers of new bytes or else drops the shared frame |
| PtyRings.PtyRing.PushInner | src/pty_ring.rs:280-299 | both branches (a push larger than the ring, and the usual one) keep exactly a suffix of the history |
| PtyRings.PtyRing.Compact | src/pty_ring.rs:304-321 | compacting changes no byte the ring holds |
| PtyRings.PtyRing.EvictOverCap | src/pty_ring.rs:327-342 | eviction drops only from the front, whole chunks first, until the rest fits |
| PtyRings.PtyRing.Since | src/pty_ring.rs:381-419 | the answer is the history from the offset or the floor, whichever is later, and empty past the end |
| PtyRings.PtyRing.CachedFrameFor | src/pty_ring.rs:202-207 | a frame is found if and only if the cache holds one for exactly this range, and it is that one |
| PtyRings.PtyRing.StoreFrame | src/pty_ring.rs:212-216 | a frame is kept when within the size limit, and nothing else changes |
| PtyRings.LagWithinCapacityLosesNothing | src/pty_ring.rs:327-342 | a reader lagging by no more than the capacity less one chunk has lost nothing |
| LiveStream.EncodedCarriesChunk | src/api_ws.rs:995-1003 | raw or gzipped, an encoded chunk decodes to that chunk at the page |
| LiveStream.Pump.Take | src/api_ws.rs:875-890 | one flush reads the ring and advances the offset as the specification step does: nothing, the shared frame, or a fresh chunk |
| LiveStream.Pump.Publish | src/api_ws.rs:891-919 | a fresh chunk is encoded and offered to the cache; a shared frame is sent as it is |
| LiveStream.Page.Out | assets/main.js:1190-1261 | one output chunk wipes a pending preview, counts its bytes, and is queued while something is selected and else written behind what was queued |
| LiveStream.Page.RunNext | assets/main.js:1361-1385 | the oldest received frame is applied, and the page's state is the specification's |
| LiveStream.Page.Flush | assets/main.js:1474-1488 | queued output is written once selection ends |
| LiveStream.RingPushIsEvent | src/pty_ring.rs:258-278 | a push on the real ring is a push step of the transition system |
| StreamDisplay.OutputIsShown | assets/main.js:1233-1261 | in every run, applying output or flushing while nothing is selected leaves nothing queued, and the terminal shows the history up to `ringOffset` |
| StreamDisplay.PausedIsHeld | assets/main.js:1233-1246 | from the start of a selection to its end nothing new is painted, and what arrives is queued in order |
| StreamDisplay.ResumeShowsAll | assets/main.js:1474-1488 | when the selection ends, the flush paints all that was held back |
| StreamDisplay.PreviewUntilOutput | assets/main.js:1376-1381 | a preview is painted behind what is there and counts for nothing; the next output replaces the whole terminal |
| StreamDisplay.OnePreviewFirst | src/api_ws.rs:812-836 | in every run a connection sends at most one preview, only from offset 0, and before any output |
| StreamDisplay.PreviewOfferedIff | src/api_ws.rs:816-825 | a preview is offered exactly to a fresh connection from 0 over 64 KiB or more of retained output |
| StreamDisplay.FrameIsTheShorter | src/api_ws.rs:995-1003 | a chunk goes compressed exactly when it has 256 bytes or more and that makes it shorter; no frame is longer than the raw one |
| StreamDisplay.SiblingsShareFrame | src/api_ws.rs:875-919 | after one viewer publishes, the next at the same offset is given the very same frame, up to 512 KiB |
| StreamDisplay.DroppedAnyTime | assets/main.js:1021-1027 | a connection can end at any moment, and the next starts from the page's own offset |
| CatchUp.CanCatchUp | src/api_ws.rs:858-952 | from every reachable state, a sound viewer whose next bytes are retained can be brought, by its own steps, to show the whole history |
| ExactlyOnce.StepOk | src/api_ws.rs:769-919 | every step of ring, pumps, network and pages keeps the stream invariant |
| ExactlyOnce.ReachableInv | src/api_ws.rs:769-919 | the invariant holds after every run |
| ExactlyOnce.ExactlyOnceResume | assets/main.js:1190-1261 | in every run with drops and reconnects, terminal bytes plus queued bytes are the history up to `ringOffset`, with no preview left over once output came |
| ExactlyOnce.DrainedIsComplete | src/api_ws.rs:858-952 | a drained viewer has the whole history |
| ExactlyOnce.SharedFramesAgree | src/api_ws.rs:875-919 | whichever viewer encoded a frame, each connection's frames decode to the history from its own start |
| ExactlyOnce.TakeIsSuffix | src/api_ws.rs:875-890 | a flush of a viewer the floor has not passed stages exactly the new suffix |
| ExactlyOnce.FlushIsTail | src/api_ws.rs:875-890 | a flush, whether it shares a frame or encodes one, gives exactly what the ring would answer at that moment |
| ExactlyOnce.FlushWholeIff | src/api_ws.rs:875-890 | in every reachable system, a flush of any kind gives the whole new suffix if and only if the floor has not passed the offset |
| ExactlyOnce.TakeSoundIff | src/api_ws.rs:875-890 | a flush ends a viewer's soundness exactly when it loses bytes |
| ExactlyOnce.ReconnectExactIff | assets/main.js:1021-1027 | a reconnect gives the history exactly once if and only if no received frame is still unapplied and the floor has not passed, or the unapplied ones fill exactly that gap |
| ExactlyOnce.ResumePastTheEnd | src/api_ws.rs:509-519 | a page that outlived the daemon resumes at the present end, with nothing sent |
| DaemonRestart.ResumeBegins | src/api_ws.rs:875-890 | a flush gives the history from the offset it resumed at, or from the end if that is past it |
| DaemonRestart.ReconnectMisses | assets/main.js:1021-1027 | the first flush of each connection misses what was pushed since the page last stood, as far as its offset runs ahead, and no more |
| DaemonRestart.ConnectionCounts | src/api_ws.rs:769-919 | in every run after a restart, a connection that has flushed has sent exactly the history from its beginning to its offset, and the page's offset with what it has yet to apply and be given counts those bytes from `since` |
| DaemonRestart.MissedIsLead | assets/main.js:1021-1027 | in every run after a restart, a page is handed stretches of the new history in order and once each, and misses exactly what its offset stopped running ahead by |
| PumpWakeUp.NoLostWakeUp | src/api_ws.rs:858-952 | in every interleaving a parked pump with unsent bytes is woken or will be |
| PumpWakeUp.PushWakesIff | src/pty_ring.rs:258-278 | a push wakes a parked pump if and only if a viewer is attached |
| PumpWakeUp.WokenIffFound | src/http3.rs:116-145 | in every run, a parked pump of either kind is woken or will be if and only if some push since it armed found a viewer |
| PumpWakeUp.ParkedCanCatchUp | src/api_ws.rs:858-952 | in every interleaving, a WebSocket pump parked over unsent bytes has them sent by steps that are then due |
| PumpWakeUp.TickCatchesUp | src/api_ws.rs:858-979 | its periodic tick sends them too, woken or not |
| PumpWakeUp.UnwatchedStaysParked | src/http3.rs:116-145 | with no viewer attached nothing wakes a parked WebTransport pump |
| PumpWakeUp.WebTransportCanLoseAWakeUp | src/http3.rs:116-145 | a run that ends parked over an unsent byte with no notification to come |
| ActivityWakeUp.NoLostTouch | src/api.rs:845-852 | a parked drain loop over unseen activity always has a notification to come |
| ActivityWakeUp.ParkedCanSee | src/headless.rs:1145-1150 | by steps that are then due the parked loop comes to see the activity |
| ActivityWakeUp.UnguardedTouchCanBeLost | src/headless.rs:1145-1150 | without the take-and-drop of the mutex a touch can be lost |
| MetaGate.GateCoherent | src/api_ws.rs:790-809 | an unchanged generation means the last meta is current, save inside an open section; at most one rebuild per bump |
| MetaGate.StaleMeansRebuild | src/api_ws.rs:960-979 | a stale viewer's next tick rebuilds and sends the current meta |
| MetaGate.OnlyChangesAreSent | src/api_ws.rs:960-979 | in no run is a viewer sent the same meta twice on end |
| MetaGate.CanBecomeCurrent | src/api_ws.rs:790-809 | from every reachable state the last meta can be made current by steps that are then due |
| MetaGate.StepInv | src/api.rs:857-860 | every step of mutators and pump keeps the gate's invariant |
| Framing.BeRoundTrip | src/http3.rs:59-66 | the big-endian length reads back |
| Framing.BigEndian | src/http3.rs:59-66 | lengths are ordered as their bytes are, the most significant first |
| Framing.FrameOnTheWire | src/http3.rs:59-66 | four length bytes that count tag and payload, then the tag, then the payload |
| Framing.BadLengthIsRefused | src/http3.rs:86-101 | a length of nought, or beyond 2 MiB, is refused |
| Framing.ReadExact | src/http3.rs:70-79 | the buffer is filled with the next bytes whatever the pieces, or the stream ends |
| Framing.ReadFrame | src/http3.rs:86-101 | one read over any chunking is one decoding step of the flat stream, with its end and its refusals |
| Framing.ReadAll | src/http3.rs:86-101 | reading to the end over any chunking decodes the flat stream |
| Framing.FrameRoundTripIff | src/http3.rs:59-101 | a frame reads back as itself if and only if it is within the cap |
| Framing.TruncatedFrameEnds | src/http3.rs:86-101 | a frame cut short reads as the end of the stream |
| Framing.CutStreamReadsBack | src/http3.rs:59-101 | a stream cut anywhere reads back as exactly its complete leading frames |
| Reconnect.Viewer.ConnectNow | assets/main.js:1319-1423 | connecting retires the old socket, clears the timer, and opens a socket or schedules a retry |
| Reconnect.Viewer.Schedule | assets/main.js:1425-1434 | a retry is scheduled with the next delay and the old timer dropped |
| Reconnect.Viewer.RetireSocket | assets/main.js:1439-1448 | the old socket loses its handlers and is closed |
| Reconnect.Viewer.OnOpen | assets/main.js:1341-1351 | a current socket's opening clears the down flag and the attempts; a late one is ignored |
| Reconnect.Viewer.OnClose | assets/main.js:1390-1422 | a current socket's close reports down and schedules, with the delay its code asks for; a late one is ignored |
| Reconnect.DelayBounds | assets/main.js:1425-1434 | delays lie between one and thirty seconds and grow |
| Reconnect.FailureWaits | assets/main.js:1390-1434 | a session can end at any moment, is then down, and is retried in 30 s after a lock (1008) and else after the next of 1, 2, 4, 8, 16 and 30 s |
| Reconnect.NoSocketWaits | assets/main.js:1319-1340 | a socket that cannot be made is retried after the next of those waits |
| Reconnect.OpenIsUp | assets/main.js:1341-1351 | a session that opens is no longer down and starts the waits over |
| Reconnect.AttemptsCountFailures | assets/main.js:1390-1434 | over any run without an opening, the attempts count the failures, up to six |
| Reconnect.CanComeUp | assets/main.js:1319-1423 | from every coherent page a session can come up within two events |
| Reconnect.ConnectCoheres | assets/main.js:1319-1423 | a connect with nothing pending leaves exactly one socket or timer if and only if the URL is valid |
| Reconnect.FirstConnectCoheres | assets/main.js:1319-1423 | the first connect of a page starts coherent |
| Reconnect.EventCoheres | assets/main.js:1319-1448 | every event keeps the page coherent if and only if a firing timer finds a valid URL |
| Reconnect.ReachableCoheres | assets/main.js:1319-1448 | every reachable page has exactly one of a live socket and a pending reconnect |
| Reconnect.CoherentMeaning | assets/main.js:1319-1448 | at most one timer and one live socket, and down is never reported over an open one |
| Reconnect.LateEventsAreInert | assets/main.js:1341-1397 | late events of replaced sockets change nothing |
| Reconnect.RetiredIsNeverHeard | assets/main.js:1439-1448 | a retired socket is never heard again |
| Reconnect.BadUrlStrands | assets/main.js:1319-1340 | a URL that cannot be built ends all activity |
| ImeFilter.ImeDedup.Classify | src/api_ws.rs:333-383 | the method is the filter's specification step, for every frame and time |
| ImeFilter.ImeDedup.SetBaseline | src/api_ws.rs:312-316 | the composition restarts from these bytes at this time |
| ImeFilter.BufferIsInjected | src/api_ws.rs:333-383 | the composition buffer is always a suffix of what was injected |
| ImeFilter.FrameIsInjected | src/api_ws.rs:333-383 | after every non-escape frame the injected bytes end with that frame |
| ImeFilter.EscapesInvisible | src/api_ws.rs:333-345 | escape frames change nothing about the rest of the stream |
| ImeFilter.GrowingInjects | src/api_ws.rs:345-383 | what a chain of growing or re-sent prefixes injects and leaves, exactly, from any state |
| ImeFilter.GrowingWordOnce | src/api_ws.rs:345-383 | from any state, with repeats and gaps of any length, a chain of prefixes injects its word once if and only if it opens with several bytes that join no older composition, is a single key, or opens with a non-boundary key on an empty composition; after a gap beyond the window the whole word comes again |
| ImeFilter.CommitOnceIff | src/api_ws.rs:345-383 | after any frames, a commit leaves exactly its word injected if and only if it extends a composition that is all that was injected, or nothing was injected |
| ImeFilter.TypedWordOnce | src/api_ws.rs:345-383 | from any state, keys of any length and their whole-word commit inject the word once if and only if only the first key has several bytes, a first single byte finds the composition empty, and the commit falls inside the window |
| ImeFilter.PlainWordOnceOrTwice | src/api_ws.rs:345-383 | with keys of one byte each, the word comes once or else exactly twice |
| ImeFilter.AccentComesTwice | src/api_ws.rs:376-382 | "p", "a", "é" and the commit "paé", all at once on a fresh filter, inject the word twice |
| ImeFilter.OneByte | src/api_ws.rs:346-361 | a byte up to 0x20, or 0x7F, ends the composition, and any other but an escape extends it |
| ImeFilter.EscapePasses | src/api_ws.rs:333-345 | what starts with 0x1B is passed on and changes nothing |
| ImeFilter.WordAfterBoundary | src/api_ws.rs:345-383 | from any state, a boundary byte, a word's letters and its commit within 200 ms inject the boundary and the word once |
| ImeFilter.CommitAfterLetter | src/api_ws.rs:345-383 | after any other byte the composition goes on, and a commit of all of it adds nothing |
| Claims.SanitizeIdempotent | src/claims.rs:92-104 | a sanitized key or holder is left alone by sanitizing |
| Claims.InOrderLists | src/claims.rs:157-159 | the ordered listing has every live lease once, in ascending key order |
| Claims.Registry.Grant | src/claims.rs:116-136 | a grant validates, refuses a key held by another, and otherwise stores a lease with a new fence |
| Claims.Registry.Release | src/claims.rs:141-147 | only the live holder's release removes the lease |
| Claims.Registry.Get | src/claims.rs:151-153 | the live lease of a key, or nothing |
| Claims.Registry.Active | src/claims.rs:157-159 | the live leases in key order |
| Claims.Registry.Gc | src/claims.rs:164-166 | exactly the lapsed leases are dropped |
| LeaseAnswers.GrantedIff | src/claims.rs:92-136 | a request is granted if and only if its trimmed key has 1 to 200 characters, its holder 1 to 100, neither a control character, and no other holder's lease runs |
| LeaseAnswers.GrantTerms | src/claims.rs:116-136 | the lease has those names, starts now, runs for the time asked within 1 s and 6 h, ends by 2^64 - 1, and has the next fence |
| LeaseAnswers.RefusalReason | src/claims.rs:92-136 | a refusal changes nothing and blames the key, the holder or the lease in the way, in that order |
| LeaseAnswers.LeaseRunsOut | src/claims.rs:151-166 | a lease is answered, listed and kept by a collection exactly until it expires |
| LeaseAnswers.GivenBackIff | src/claims.rs:141-147 | only the holder gives a lease back, only while it runs, and then any sound request for the key is granted |
| LeaseHistory.Serve | src/claims.rs:116-166 | each request changes and answers as the history's step does |
| LeaseHistory.LookupIsHistory | src/claims.rs:151-153 | a lookup answers a lease if and only if history granted it and it has not expired, been given back or been renewed |
| LeaseHistory.InForceIsStored | src/claims.rs:116-166 | a grant still in force by history is what the table stores |
| LeaseHistory.StoredIsInForce | src/claims.rs:116-166 | a live entry of the table is a grant in force by history |
| LeaseHistory.OneInForce | src/claims.rs:116-136 | at most one grant on a key is in force at any time |
| LeaseHistory.TenuresDisjoint | src/claims.rs:116-166 | when requests are served in the order of their clocks, tenures of two holders on one key never overlap |
| LeaseHistory.TenuresTakeTurns | src/claims.rs:116-166 | whatever the clocks, a key changes holder only after its lease had lapsed for some request served since, was given back, or was renewed |
| LeaseHistory.FenceCounts | src/claims.rs:116-136 | a grant's fence counts the grants before it |
| LeaseHistory.FencesClimbIff | src/claims.rs:116-136 | fences climb over a run if and only if the 64-bit counter does not wrap |
| LeaseHistory.GcUnobservable | src/claims.rs:164-178 | collecting at any points of any run changes no answer and no fence |
| LeaseHistory.SameIsObservable | src/claims.rs:141-178 | two tables answer alike if and only if their live leases and fences agree |
| LeaseHistory.LateGcIff | src/claims.rs:209-242 | collecting at a later clock read changes an answer if and only if a lease it depends on lapses in between |
| LeaseHistory.LateGcSame | src/claims.rs:209-242 | an undisturbed request leaves both tables indistinguishable |
| LeaseHistory.TwoReadsOverlap | src/claims.rs:209-242 | a lease granted while, by the caller's clock, another holder's still runs |
| LeaseHost.Host.WithRegistry | src/claims.rs:209-242 | load on first use, collect, serve, and queue a write when something changed |
| LeaseHost.Host.LandWrite | src/claims.rs:231-240 | a pending write reaches the file |
| LeaseHost.ServeSameIff | src/claims.rs:209-242 | a host that stands for a never-collected registry answers as it does if and only if no lease the request depends on lapses between the two clock reads |
| LeaseHost.HostRefinesRegistry | src/claims.rs:209-242 | over restarts, with callers served in any order of their clocks, the host answers as one registry that was never collected nor restarted |
| LeaseHost.RestartSafe | src/claims.rs:202-242 | across restarts, a lease changes holder only after the first tenure is over: in the order of service always, and by the taker's clock when callers are served in the order of their clocks |
| LeaseHost.FencesClimbAcrossRestarts | src/claims.rs:202-242 | fences climb across any number of restarts with no assumption on any clock, as long as writes land in lock order |
| LeaseHost.RestartExact | src/claims.rs:209-242 | a restart goes unnoticed if and only if file and memory agree on live leases and fence |
| LeaseHost.HandoverIff | src/claims.rs:209-242 | after a restart some request takes a live lease from its holder if and only if the file does not have it, live and the same holder's |
| LeaseHost.IssuedFences | src/claims.rs:126-126 | while the counter has not wrapped, the fences of a history are exactly one up to the counter |
| LeaseHost.RepeatedFenceIff | src/claims.rs:209-242 | a grant after a restart repeats an issued fence if and only if the file's counter is behind memory's |
| LeaseHost.ReorderedWritesBreakExclusion | src/claims.rs:228-240 | two writes landing out of order repeat a fence and hand on a live lease |
| LeaseCrash.GrantsAreWritten | src/claims.rs:228-240 | every grant queues a write of its own |
| LeaseCrash.StepTold | src/claims.rs:209-242 | calls, landing writes and crashes keep memory, file and pending writes each standing for a prefix of one history |
| LeaseCrash.AcknowledgedSurvive | src/claims.rs:202-242 | requests whose write has landed keep their effect and their answers over any number of later crashes |
| LeaseCrash.CrashSafe | src/claims.rs:202-242 | over any run with crashes that lose pending writes, the surviving tenures of a key take turns, and do not overlap by the clock when callers are served in the order of theirs |
| LeaseCrash.CrashFencesClimb | src/claims.rs:202-242 | over any run with crashes and with any clocks, surviving grants have climbing fences |
| Fleet.Build | src/fleet.rs:91-259 | the nested loops produce exactly the first-offered nodes and all edges |
| FleetEdges.EdgesByKind | src/fleet.rs:91-259 | for each of the six kinds, an edge is in the graph if and only if the peers, tabs, board and leases give it, ends and text spelled out |
| FleetEdges.EdgesCounted | src/fleet.rs:91-259 | there are exactly as many edges as peers, tabs, homes, announcements, bids and awards |
| FleetEdges.OfferedIff | src/fleet.rs:91-259 | every node offered under an id, with its text, its status and its tab, spelled out in both directions |
| Fleet.Builder.PushNode | src/fleet.rs:102-106 | a node is added only under an id not yet there |
| Fleet.Builder.AddTask | src/fleet.rs:169-256 | one task adds its node, home, announcer, bids and award, in that order |
| Fleet.Collect | src/fleet.rs:166-167 | leases are indexed by key, the last one winning |
| Fleet.GraphWellFormed | src/fleet.rs:91-259 | node ids are distinct and both ends of every edge are nodes, for every input |
| Fleet.FirstByIdKeepsIds | src/fleet.rs:102-106 | dropping repeats keeps exactly the offered ids, each once |
| Fleet.FirstOfferedWins | src/fleet.rs:102-106 | the node kept for an id is the first offered |
| Fleet.RunningAgentsKeepTheirTab | src/fleet.rs:143-164 | an agent with a tab here is drawn from that tab, whatever the board says |
| Fleet.RenderInjective | src/fleet.rs:82-84 | printed ids tell hosts, agents and tasks apart |
| Fleet.ListingIsLookup | src/claims.rs:151-159 | looking a key up in the active listing is asking the registry |
| Fleet.WorksOnAgreesWithRegistry | src/fleet.rs:242-256 | a `works_on` edge is leased exactly when the registry's live holder is the awarded agent |
| HttpAdapter.WriteReply | src/api.rs:1465-1506 | the pushes produce the message the specification renders, including the 304 and the refused stream |
| HttpAdapter.ParseH1Parts | src/api.rs:2240-2273 | the collecting loop computes the specification's parts, for every byte string |
| HttpAdapter.FormatH1Request | src/api.rs:2205-2219 | the request head carries every textual header but the length, which is forced last |
| HttpAdapter.Receive | src/api.rs:1609-1748 | request line, header loop, target, cap and body read, for every byte string |
| HttpAdapter.ReadHeaders | src/api.rs:1616-1654 | the header loop computes the declared length and stops at the first blank line |
| HttpAdapter.ParsedHeadersAreClean | src/api.rs:2257-2270 | whatever was on the wire, parsed headers are single-line, trimmed and colon-free in name |
| HttpAdapter.StatusLineReadsBack | src/api.rs:1478-1478 | every 16-bit status reads back from its status line |
| HttpAdapter.MessageReadsBack | src/api.rs:2240-2273 | a message of clean headers parses to its status, its headers and its body clamped to the declared length |
| HttpAdapter.BodyIsWhole | src/api.rs:1498-1505 | the written length is the one that counts, so the body comes back whole |
| HttpAdapter.ReplyRoundTripIff | src/api.rs:1465-1506 | parsing a written reply gives back status, headers and exact body if and only if every header is clean |
| HttpMeaning.ReplyAsRead | src/api.rs:1465-1506 | a buffered reply reads back as its own status, its own headers and the added ones, and its own body; a 304 without a body; a streamed one as a 500 that says so |
| HttpMeaning.ReplyOnTheWire | src/api.rs:1478-1505 | the status line comes first, and after the first blank line the body and nothing else |
| HttpMeaning.LengthCutsBody | src/api.rs:2255-2273 | the last length a message names cuts its body, and a shorter body comes as it is |
| HttpMeaning.UnreadableStatusIs500 | src/api.rs:2249-2256 | a status line that does not say a 16-bit status reads as a 500 |
| HttpMeaning.ColonlessLineIsSkipped | src/api.rs:2257-2270 | a head line without a colon is passed over |
| HttpMeaning.RequestHeaders | src/api.rs:2205-2219 | a formatted request carries exactly the headers with visible values but the length, and its forced length last |
| HttpMeaning.RequestAsReceived | src/api.rs:1655-1735 | HEAD is received as GET, the path without trailing slashes, the query apart, and the exact body, or a 413 beyond 100 MiB for an upload and 4 MiB otherwise |
| HttpMeaning.RootReads | src/api.rs:1696-1711 | the root keeps its slash when it is alone |
| HttpMeaning.ShortBodyIsRefused | src/api.rs:1715-1748 | a body shorter than declared is refused |
| HttpMeaning.UnreadableLengthIsNought | src/api.rs:1616-1654 | a last length that is no number counts as none |
| HttpMeaning.ShortFirstLineIsDropped | src/api.rs:1656-1660 | a first line of fewer than two words gets no reply |
| HttpAdapter.ForcedLengthWins | src/api.rs:2209-2218 | whatever lengths the client claimed, the forced one is read |
| HttpAdapter.HeaderLoopReads | src/api.rs:1616-1654 | the header loop reads every line and leaves exactly the body |
| HttpAdapter.RequestRoundTrip | src/api.rs:1615-1735 | a formatted request yields exactly its body, or a 413 when over the route's cap |
| HttpText.HeadEnds | src/api.rs:2242-2248 | the first blank line is the head's own, even when the body has some |
| HttpText.SplitJoined | src/api.rs:2249-2249 | splitting at CR LF undoes joining |
| Text.DecimalRoundTrip | src/api.rs:2266-2266 | a printed number reads back when it fits the type |
| Assignments.ParseIsParsed | src/assignment.rs:57-81 | what any text can parse to |
| Assignments.ParsedIsReachable | src/assignment.rs:57-81 | every such value is parsed from some text |
| Assignments.RoundTripIff | src/assignment.rs:96-107 | a parsed value reads back from its text if and only if it has an override or a colon-free phase |
| Assignments.ColonIsLost | src/assignment.rs:57-81 | without an override, a colon in the phase is read as one and the phase gets shorter |
| Assignments.NormalizeShrinks | src/assignment.rs:96-107 | showing after parsing never lengthens a text, and keeps its length only by keeping it |
| Assignments.NormalizeSettles | src/assignment.rs:96-107 | iterating from any text reaches a fixed point whose value round-trips |
| Assignments.OnceIsNotEnough | src/assignment.rs:96-107 | `:b:c/d` shows as `b:c/d`, which is another assignment |
| FileTree.Listing.CollectFilesTree | src/api.rs:1269-1306 | the capped recursive walk appends exactly the matching prefix of the full traversal |
| FileTree.Counter.Walk | src/api.rs:1314-1338 | the capped counter reaches the smaller of the cap and the countable files |
| FileTree.ListAndCount | src/api.rs:1269-1338 | listing and badge for one directory |
| FileTree.CountableIsFilesPlusUnreadable | src/api.rs:1314-1338 | the counter sees the listed files and those with unreadable metadata |
| FileTree.BadgeMatchesListingIff | src/api.rs:1308-1338 | the badge equals the listing's length if and only if all metadata is readable or the cap is reached |
| ListingPaths.ListedIff | src/api.rs:1269-1306 | the traversal holds an entry if and only if its path leads down at most eight directories, by trimmed names, to a file of that size and time |
| ListingPaths.CapIs2000 | src/api.rs:1253-1277 | the listing is the first 2000 of that traversal |
| ProcTree.SampleTree | src/agent_probe.rs:183-217 | the worklist terminates on every finite tree and its sum is the recursive one |
| ProcTree.SumIsRecursive | src/agent_probe.rs:183-217 | summing the visits is summing the tree recursively |
| ProcTree.CountersAreSums | src/agent_probe.rs:183-217 | each counter of the sum is that counter of the stat or status files added up |
| ProcTree.VisitsReachable | src/agent_probe.rs:183-217 | exactly the processes with a readable path from the root are visited |
| ProcTree.VisitsOnce | src/agent_probe.rs:183-217 | none is visited more often than it stands in the tree |
| ProcTree.DistinctVisits | src/agent_probe.rs:183-217 | when no pid stands twice in the tree, none is visited twice |
| ProcTree.AnyBusyDescendant | src/catbus_agent.rs:117-136 | Working if and only if some proper descendant is in state R or D |
| ProcTree.FindAgentDescendant | src/catbus_agent.rs:164-196 | the first agent process of our own user, children after their parent and the last child first; none if and only if there is none |
| ProcTree.AgentActivityWithPid | src/catbus_agent.rs:117-136 | Gone if and only if the tab's tree has no agent of ours; otherwise the agent the search answers, Working if and only if some process below it is in state R or D |
| BoxDrawing.Rects | src/box_drawing.rs:139-194 | the fixed array holds the glyph's bars in order |
| BoxDrawing.StrokesNeverVanish | src/box_drawing.rs:99-102 | strokes are at least one and two pixels, and the light one is a twelfth of the height to the nearest pixel |
| BoxDrawing.HBarIsUnionIff | src/box_drawing.rs:104-126 | the single bar covers exactly the glyph's own bars if and only if the stroke fits the cell width |
| BoxDrawing.BarsAreInk | src/box_drawing.rs:139-194 | a glyph's bars cover exactly its four arms, each in its weight and from its edge past the centre |
| BoxDrawing.FaithfulRowShows | src/terminal.rs:3133-3175 | the painted row shows at every point the colour of the last cell with ink there |
| BoxDrawing.RunEnd | src/terminal.rs:3149-3158 | the run found is the longest of like cells in consecutive columns |
| BoxDrawing.RunShowsAsOneBar | src/terminal.rs:3148-3164 | a run of n cells shows exactly as one bar over them |
| BoxDrawing.PaintRow | src/terminal.rs:3133-3175 | the merging paint loop draws the picture of cell-by-cell painting, for any mix of glyphs and colours, and an unbroken rule in one bar |
| Reaper.Machine.RecordLiveAgents | src/agent_reaper.rs:74-95 | the record is replaced by the live agents with their start times |
| Reaper.Machine.ReapOrphans | src/agent_reaper.rs:104-131 | the loop signals the groups the specification names, reports them and drops the record |
| Reaper.ReapedWereRecordedAndAlive | src/agent_reaper.rs:116-126 | every group signalled is led by a recorded process still alive with its start time |
| Reaper.RecordedAreGone | src/agent_reaper.rs:104-131 | every recorded agent that leads its group is gone afterwards |
| Reaper.VictimsIff | src/agent_reaper.rs:116-126 | a process dies if and only if it is in the group of a leader that was hit |
| Reaper.OthersSurvive | src/agent_reaper.rs:116-126 | a process outside every signalled group is untouched |
| Reaper.HitIff | src/agent_reaper.rs:116-126 | with agents in groups of their own, the hits are exactly the recorded agents still alive |
| Reaper.NoStrangerHitIff | src/agent_reaper.rs:97-131 | with agents in groups of their own, no leader hit is a stranger if and only if every recorded agent still alive is ours |
| Reaper.NoStrangerHarmedIff | src/agent_reaper.rs:97-131 | whatever the groups, a reaping harms no recorded stranger if and only if every recorded agent still alive is ours |
| Reaper.StrangersSurviveIff | src/agent_reaper.rs:97-131 | of all processes, recorded or not, no stranger dies of a reaping if and only if every recorded agent alive that leads its group is ours |
| Reaper.HitWereRecorded | src/agent_reaper.rs:74-131 | in every run with pid reuse, crashes, restarts and reboots, all leaders signalled had been recorded |
| Reaper.TrackedIff | src/agent_reaper.rs:74-95 | the record holds exactly the listed pids alive, with the start times they have |
| Reaper.LeakIsReaped | src/agent_reaper.rs:74-131 | an agent listed at the last tick that still runs and leads its group is gone after the next startup, whatever came between |
| Reaper.ReportIsOfTheHit | src/agent_reaper.rs:116-131 | the report counts the leaders hit and adds up their memory |
| Reaper.SecondStartupIsInert | src/agent_reaper.rs:126-131 | a second startup signals nothing |
| Reaper.StrangerHasACause | src/agent_reaper.rs:81-122 | a saved agent alive is a stranger if and only if it was one when recorded, its pid passed to one within its tick, or one has its pid and tick after a reboot |
| Reaper.OnlyOursAreHit | src/agent_reaper.rs:97-131 | in every run, reboots included, some process that is not ours dies of a startup if and only if some startup finds a saved agent alive and leading its group for one of those three causes |
| Reaper.CarefulRunIsSafe | src/agent_reaper.rs:74-131 | while listed processes are ours, no pid changes owner within a tick and no record is left to a reboot, no startup kills any stranger |
| Reaper.StalePidKillsAStranger | src/agent_reaper.rs:81-89 | a stale pid listed by a tab gets the stranger holding it recorded and killed, no tick being shared |
| Reaper.SameTickReuseKillsAStranger | src/agent_reaper.rs:117-122 | a pid reused within the tick gets a stranger killed; a tick later it does not |
| Reaper.RebootKillsAStranger | src/agent_reaper.rs:104-122 | a record left to a reboot gets a stranger with the recorded pid and tick killed |

## Left out

- Compression: deflate and gzip are assumed to be undone by their inverses; their formats are not modelled.
- LiveStream.Page.Out: bytes only; UTF-8 decoding, the stripping of UI modes, predictive echo and the status line are not modelled.
- LiveStream.Pump.Take: the debounce, the viewer count and the send errors of the pump's loop are not in the method; the steps of the transition system may be interleaved in any order.
- ExactlyOnce.ExactlyOnceResume: offsets are unbounded numbers, so the 64-bit offset of the source does not wrap.
- The preview renderer: a preview is some text; that none is sent when the renderer has nothing to show, or before the tab's size is known, is not modelled.
- DaemonRestart.MissedIsLead: the floor has not passed what a flush takes, and a reconnect finds everything received applied, as in the run without a restart; both assumptions are exact there (`ExactlyOnce.FlushWholeIff`, `ExactlyOnce.ReconnectExactIff`).
- PumpWakeUp.NoLostWakeUp: tasks and notifications are a transition system, not objects; the periodic meta tick, which also flushes a WebSocket pump (`PumpWakeUp.TickCatchesUp`), is not needed for it.
- MetaGate.GateCoherent: a transition system over an abstract tab state; directory counts, schedule transitions and a vanished tab have their own triggers and are left out.
- Reconnect.EventCoheres: page visibility, status texts and the locked-tab message are not modelled; time passes only as timers fire.
- ImeFilter.ImeDedup.Classify: logging of decisions is left out, and so is the rest of the inbound handler (locks, queues, resize and focus frames).
- LeaseHost.Host.WithRegistry: the file holds the table itself; JSON and a corrupt file (read as empty) are left out, and writes that fail are not modelled.
- LeaseHistory.TenuresDisjoint: requests are served in the order of their clock reads. A caller reads the clock before taking the lock (`src/api/claims_route.rs:52-53`), so two callers can be served the other way round; `LeaseHistory.TenuresTakeTurns` is what then remains.
- LeaseHost.RestartSafe: writes land in lock order and restarts wait for them, as for `LeaseHost.HostRefinesRegistry`, and no request is disturbed by a lease that lapses between its two clock reads; `LeaseCrash.CrashSafe` drops the waiting.
- LeaseCrash.CrashSafe: writes land in lock order; answers that changed nothing (lookups, refusals) may tell of a lease whose write is then lost.
- Fleet.Build: node kinds follow from the id, and labels are the names; the serialized form is left out.
- HttpAdapter.WriteReply: the reason phrase behind a status is the source's own table, and no reader modelled here looks at it.
- HttpAdapter.Receive: only the length among the named headers is read; authorization, gzip, entity tags and content negotiation are left out, and so is a line that is not UTF-8.
- HttpAdapter.RequestRoundTrip: method and target have no whitespace and header names no newline, which the HTTP library guarantees.
- FileTree.Listing.CollectFilesTree: a directory is its list of entries; an entry that cannot be read or decoded is absent from it, and sizes and times are opaque.
- ProcTree.SampleTree: the process table does not change during a walk, nor between the two walks of `ProcTree.AgentActivityWithPid`, and its children lists form a finite tree.
- Reaper.OnlyOursAreHit: three facts of the kernel are assumed of every new process: it leads a fresh group or joins one of the same owner, its pid names neither a process nor a group, and pids 0 and 1 are not among them. `setpgid` and `setsid` after birth are not modelled.
- Reaper.RecordedAreGone: the check of the start time and the signal are one step; pids 0 and 1 are never signalled, and an agent that does not lead its group is not covered.
- BoxDrawing.PaintRow: pixel coordinates are reals and colours compare exactly (the source rounds and allows a thousandth); translucent colours, which darken where two bars overlap, are left out.
- The transcript reader (`src/catbus_agent.rs:291-330`): how a session file's lines become messages, and that the first `since` of them are skipped, is not modelled.
- The table of box glyphs (`src/box_drawing.rs:57-97`), the probe lines and their rates: tables and single expressions.
- Sockets, TLS, HTTP libraries, the relay, certificates, tokens, share links, file permissions and cgroups.
