# eventloopOS: a verified model of its queue, store and bridges

This project models the parts of eventloopOS that decide what a person sees next and what
survives a restart, and proves what they promise. One module stands for one component of the
repository; `dafny verify dfyconfig.toml` checks all of them.

| module | component |
|---|---|
| `NativeProtocol`, `NativeHost`, `NativeBridge` | The native messaging link between browser extension and host: length-prefixed frames, the reader that reassembles them from arbitrary chunks, and the envelopes both sides must agree on. |
| `StorePersistence`, `StoreImage`, `StoreRecovery` | Saving the shared in-memory store: the serialised write queue as an interleaving of steps that look at memory twice, the image that is written and read back, and what both give together after a crash. |
| `QueueLeases` | The queue of the orchestrator: sweeps, leases, deferrals and finished work. |
| `TaskRegistry`, `GatewayCells`, `PacketEnrichment` | The gateway's tasks and layouts, its two cells with their entry times, and the enrichment that is written back into review packets. |
| `AdvanceCoordinator` | The advance key of the Mac client: one decision per press and its effect, over whole runs of presses. |
| `FakeQueue` | The in-process queue of the Mac client: sorted packets, leases and the cyclic scan. |
| `ActivityLog`, `ProofPlan`, `OriginPatterns`, `UrlHosts`, `TaskSlug`, `HotKeyDebounce` | The capped activity log, primitive selection and proof plans, allowed origins and the host names they can meet, names made into slugs and ids, and hotkey repeat suppression. |
| `Prelude`, `Text`, `JsMap` | What they share: sequences without repetition, stable sorting, strings, and insertion-ordered maps. |

Where the source updates state, a class has the source's fields and each method is proved
against a function of the old state; the theorems are about that function and about runs of it.
Concurrency is a state machine whose steps are the pieces of code between two `await`s.

## What is assumed

- `JSON.stringify` and `JSON.parse` are a function and a partial function; the round trips
  assume that the second inverts the first. `trim`, lower case, blanks and letters are given
  functions; what a theorem needs of them (`Sane`) is that lower case letters, digits and
  separators stay as they are.
- Clocks, generated ids and random request ids are parameters of each call. Clocks may go back
  unless a theorem says otherwise.
- Requests, captures, window switches and file operations succeed or fail as a whole. Failure
  is a step of the model in `StorePersistence`; in `AdvanceCoordinator` requests succeed.
- A URL comes parsed into protocol, host and port, with an empty port for the default one. Its
  host is an address in canonical form where it ends in a number (URL Standard, section 3.5),
  and otherwise one of the names the URL parser leaves as they are, which are given. `PlainHosts`
  assumes that names without punycode are among them.
- Memory holds the queue, the two cells and some of the known maps, each without repeated keys.
  In `StoreRecovery` a value is the text it prints to, nothing for what is undefined, and how
  the text of an array parts into the texts of its items is a given function.
- Keys that are objects or arrays are held at an address, which is given with each send.

## Where the code and its promises differ

- The advance key is meant to work off the queue. With two tasks on one desktop it does not:
  only the first is known under that desktop, and papers of the second stay behind
  (`SharedDesktopStrands`). `DrainsExactly` says when all papers are done.
- A press is meant to lead to the desktop of the task it makes current. A pulled paper that
  carries a workspace snapshot has that restored instead, and not again within two seconds
  (`SnapshotLeadsAway`); `DesktopFollowsTask` says exactly when the desktop is one of the task.
- Enriching a review packet is not idempotent (`SixTabsTakeTwoReads`); it settles after two reads.
  `OneReadSettles` says when one is enough: every open entry has the id of one of the first five
  or of the snapshot.
- A state file need not be the store of any one instant (`TornFile`); `StoreOfInstant` says of
  which instants it is.
- Methods whose names no prefix matches change memory without asking for a save: their changes
  are in no file until the next save of a matching call, which writes them as well
  (`UnmatchedMethods`, and `ChangeIsSaved` for any change).
- A bad frame is never skipped (`BadFrameSticks`), and good frames that arrive in the same event
  are lost with it (`PassedOnExactly`). The exception of the event handler is not caught, so in
  the process as shipped it ends the host; later events occur only where the input stream is
  injected and its source goes on after an exception.
- Two sends with equal object keys are both accepted by the bridge (`EqualObjectKeys`); with the
  keys the host accepts, strings, that cannot happen (`AcceptedKeysAreDistinct`).
- Deferring a finished queue item reopens it (`DeferReopensDoneWork`).
- Length-based activity ids repeat once the log is full (`SameId`), and a limit of zero answers
  everything (`LimitHolds`).
- A proof plan for unknown ids has no commands but the budgets of every primitive that passes the
  rest of the selector (`UnknownIdsWiden`), because an empty list of ids is no filter.
- An origin pattern with an explicit default port matches nothing, nor does one whose host ends
  in a number without being a canonical address, like 127.1 (`DeadPatterns`, `ShortAddress`).
- Hotkey repeats are kept apart only while no press is timed before the last performance of its
  action, as after the clock was set back (`SpacedExactly`; `ClockGoingBack` is an example).
- A normalised id of a name of eight or more words changes once more when it is normalised again
  (`TaskIdIsStable`).

## Model

| member | source | states |
|---|---|---|
| `NativeProtocol.EncodeNativeMessage` | app/native-host/src/protocol.js:4-9 | A body of fewer than 2^32 bytes becomes a four byte little-endian length and the body, which split back into exactly that body; a longer one is refused. |
| `NativeProtocol.DecodeNativeMessages` | app/native-host/src/protocol.js:11-30 | The loop yields the parsed bodies of all complete frames and the bytes behind the last one, or fails if a complete body does not parse. |
| `NativeProtocol.SplitSound` | app/native-host/src/protocol.js:15-29 | Frames found and rest, put together again, are the input byte for byte. |
| `NativeProtocol.SplitUnique` | app/native-host/src/protocol.js:15-29 | The split found is the only way to read the input as frames followed by an incomplete tail (fewer than four bytes, or a header announcing more than there is). |
| `NativeProtocol.SplitAppend` | app/native-host/src/protocol.js:11-30 | Appending bytes leaves the frames found before and continues with the old rest. |
| `NativeProtocol.FrameRoundTrip` | app/native-host/src/protocol.js:4-30 | Decoding the concatenation of encoded messages gives the same list and an empty rest. |
| `NativeProtocol.DecodeMeaning` | app/native-host/src/protocol.js:11-30 | Decoding succeeds if and only if every complete frame parses; then messages and rest are those frames in order and the incomplete tail. |
| `NativeHost.NativeReader.Data` | app/native-host/src/host.js:138-150 | One data event extends the buffer before decoding, keeps the rest and passes the messages on in order; after a failure the extended buffer stays and nothing is passed on. |
| `NativeHost.NativeReader.Dispatch` | app/native-host/src/host.js:144-147 | The messages of one event are passed on one by one in their order. |
| `NativeHost.RunKeepsStep` | app/native-host/src/host.js:136-150 | In every run what was passed on plus what is buffered is everything received, and the reader lags behind only because of a frame that does not parse. |
| `NativeHost.ChunkInvariance` | app/native-host/src/host.js:138-143 | For any stream and any chunks, empty ones included: no event throws if and only if one decode of the whole stream does not, and then messages and final buffer are those of that decode. |
| `NativeHost.CutsAgree` | app/native-host/src/host.js:138-143 | Two ways of cutting one stream end in the same reader unless a complete frame does not parse, which both notice. |
| `NativeHost.NeverRecovers` | app/native-host/src/host.js:141-143 | Once a frame has failed to parse, the next decode fails too. |
| `NativeHost.BadFrameSticks` | app/native-host/src/host.js:138-150 | For a listener that is called again: from a bad frame on, every later event throws, nothing more is passed on and the buffer grows by exactly what arrives. |
| `NativeHost.PassedOnExactly` | app/native-host/src/host.js:138-150 | In every run what is passed on is exactly the messages of the longest start of the run, in whole events, that decodes: good frames in the event of a bad one are never passed on. |
| `NativeHost.Delivery` | app/native-host/src/host.js:135-151 | Messages a peer encodes arrive once each and in order, whatever the chunks. |
| `NativeBridge.ChromeNativeBridge.BuildEnvelope` | app/browser-extension/src/native-bridge.js:43-81 | One send is refused (invalid message, unsupported capability, used key) or gives the envelope and records its key; a refusal records nothing. |
| `NativeBridge.CapabilitiesAgree` | app/native-host/src/protocol.js:53-61 | Capabilities a bridge offering no more than the host lets through are not found unsupported by the host, although both scans stop at values that count as false. |
| `NativeBridge.AcceptedEnvelopeIsValid` | app/native-host/src/protocol.js:32-64 | An accepted envelope passes the validation of the host if and only if request id and idempotency key are non-empty strings. |
| `NativeBridge.AnswersComeHome` | app/browser-extension/src/native-bridge.js:83-104 | Whatever the host answers to an accepted envelope, the sender sees its own request id and key, and success exactly for a valid capture that was stored, with that payload. |
| `NativeBridge.EnvelopeIds` | app/browser-extension/src/native-bridge.js:62-63 | The ids of an envelope are the caller's, else the message's, else a fresh request id and a key made of the type and the request id. |
| `NativeBridge.EnvelopeCarries` | app/browser-extension/src/native-bridge.js:166-187 | The payload of an envelope is the payload field of the message if it has one, else exactly its fields but the five of the envelope, with their values; its capabilities are those asked for or the one of the type. |
| `NativeBridge.CaptureComesHome` | app/browser-extension/src/native-bridge.js:43-104 | A capture message without a payload field and with string ids is answered with the payload stored if and only if its resource is an object and was stored. |
| `NativeBridge.FailuresSayWhy` | app/native-host/src/host.js:13-47 | Any other answer to a valid capture has no payload and the code for a missing resource or a failed store. |
| `NativeBridge.CapturedPage` | app/browser-extension/src/extension-controller.js:34-38 | The message of a captured page is accepted, carries its resource, and is answered ok with a fresh request id when it is stored. |
| `NativeBridge.RefusalMeaning` | app/browser-extension/src/native-bridge.js:43-70 | A send is refused for a message without a type, for a first unsupported capability that counts as true, or for a used key, in that order; only an accepted one records its key. |
| `NativeBridge.HostAnswers` | app/native-host/src/host.js:13-47 | Every answer of the host has the ids of the envelope, unless it is no object or storing failed, and either the payload stored or none and the reason, in the order of the checks. |
| `NativeBridge.ResponseMeaning` | app/browser-extension/src/native-bridge.js:83-114 | A response that is no object with a boolean ok is malformed; a failure keeps its code; a success its ids and payload, with those of the envelope or null in their place. |
| `NativeBridge.SentKeysAreAccepted` | app/browser-extension/src/native-bridge.js:67-70 | After any sends the key set holds exactly the keys of the accepted ones, objects and arrays told apart by where they are held and everything else by value. |
| `NativeBridge.KeysAreUsedOnce` | app/browser-extension/src/native-bridge.js:43-81 | Over any sends, one is accepted if and only if it is well-formed and no earlier accepted one had its key. |
| `NativeBridge.AcceptedKeysAreDistinct` | app/browser-extension/src/native-bridge.js:67-70 | Keys of two accepted envelopes read the same only if they are objects or arrays held in different places; those of envelopes the host accepts are pairwise distinct. |
| `NativeBridge.EqualObjectKeys` | app/browser-extension/src/native-bridge.js:67-70 | Two sends with equal object keys held in different places are both accepted. |
| `StorePersistence.InvStep` | app/orchestrator/src/persistent_in_memory_gateway_store.ts:55-84 | Every step of every interleaving keeps the file a print of two looks at memory, later ones never older, and every saved call older than the first look. |
| `StorePersistence.Durability` | app/orchestrator/src/persistent_in_memory_gateway_store.ts:65-74 | When a persisted call has returned without an error, both looks behind the file were made after everything the call changed. |
| `StorePersistence.FileNeverGoesBack` | app/orchestrator/src/persistent_in_memory_gateway_store.ts:78-84 | At every instant of every run the file is the initial one or one complete print, and neither look ever moves back in time. |
| `StorePersistence.QuietFileIsMemory` | app/orchestrator/src/persistent_in_memory_gateway_store.ts:65-84 | If nothing changed since a successfully returned call, the file is exactly what is in memory. |
| `StorePersistence.SaveNext` | app/orchestrator/src/persistent_in_memory_gateway_store.ts:56-64 | The oldest outstanding save, undisturbed, settles its own call and writes memory as it is. |
| `StorePersistence.QueueDrains` | app/orchestrator/src/persistent_in_memory_gateway_store.ts:56-64 | From any idle state, whatever failed before, all outstanding saves can succeed, oldest first, and the file then equals memory. |
| `StorePersistence.FailureOnlyHitsItsCall` | app/orchestrator/src/persistent_in_memory_gateway_store.ts:56-64 | A failed save marks only its own call, leaves the queue idle and the file as it was, and the saves behind it can all still succeed. |
| `StorePersistence.CallerLearns` | app/orchestrator/src/persistent_in_memory_gateway_store.ts:56-72 | A caller continues only once its save has settled, and with an error exactly if that failed. |
| `StorePersistence.CallsAskForSaves` | app/orchestrator/src/gateway_store.ts:93-226 | Of the 74 methods of the gateway store exactly the 43 listed by name ask for a save: one waiting call is added with the present mark; the others change nothing. |
| `StorePersistence.SavedCallIsDurable` | app/orchestrator/src/persistent_in_memory_gateway_store.ts:65-90 | A call of one of those methods that has returned without an error has its changes behind the file. |
| `StorePersistence.ChangeIsSaved` | app/orchestrator/src/persistent_in_memory_gateway_store.ts:65-90 | Any change, by a matching method or not, is behind the file if and only if since then a save has begun and one has landed after that; any call done since that returned without an error shows it. |
| `StorePersistence.StoreOfInstant` | app/orchestrator/src/persistent_in_memory_gateway_store.ts:79-108 | In every reachable state and for every instant: the file is the store of that instant if and only if the roots and entry lists of the first look, read through the heap of the second, have the keys and texts of that store. |
| `StorePersistence.SingleInstant` | app/orchestrator/src/persistent_in_memory_gateway_store.ts:79-82 | A file is the store of its second look if no change between the looks moved an entry list or a root, and is not if the keys differ between the looks. |
| `StorePersistence.TornFile` | app/orchestrator/src/persistent_in_memory_gateway_store.ts:79-82 | A change between the two looks can leave a file that is the store of no instant: the cell names a record the map does not hold. |
| `StorePersistence.UnmatchedWaits` | app/orchestrator/src/persistent_in_memory_gateway_store.ts:65-90 | With no save outstanding, any run of calls that no prefix matches leaves the file alone and no save outstanding. |
| `StorePersistence.UnmatchedMethods` | app/orchestrator/src/persistent_in_memory_gateway_store.ts:65-90 | Over any run of addFollowsWindowExclusion, listQueue, nextQueueItem, getReviewPacket and peekNextContextRestoreRequest, whatever they change, the file stays as it is; the next save of a matching call writes their changes too. |
| `StoreImage.SerializeStore` | app/orchestrator/src/persistent_in_memory_gateway_store.ts:92-108 | The file holds version 1, the queue, both cells and the entries of exactly the known maps that exist. |
| `StoreImage.SerializeMaps` | app/orchestrator/src/persistent_in_memory_gateway_store.ts:98-106 | The loop copies exactly the existing maps among the keys. |
| `StoreImage.DeserializeStore` | app/orchestrator/src/persistent_in_memory_gateway_store.ts:110-131 | Loading gives queue and cells, the five required maps always and any other known map exactly if the file has it. |
| `StoreImage.DeserializeMaps` | app/orchestrator/src/persistent_in_memory_gateway_store.ts:121-129 | The loop fills in exactly the known maps that the file holds beside the required ones. |
| `StoreImage.MapFromSerialized` | app/orchestrator/src/persistent_in_memory_gateway_store.ts:133-135 | A map is built from its entries in order. |
| `StoreImage.RoundTrip` | app/orchestrator/src/persistent_in_memory_gateway_store.ts:92-135 | Loading what was saved gives the store back: queue, cells and every map with keys, values and insertion order; absent optional maps stay absent. |
| `StoreImage.LoadIsStable` | app/orchestrator/src/persistent_in_memory_gateway_store.ts:110-135 | What any file loads to survives every further save and load unchanged. |
| `StoreImage.ReopenIsInvisible` | app/orchestrator/src/gateway_store.ts:227-255 | Opening a gateway on the saved and loaded store, before or after opening it once, gives the same: exactly its own absent maps, empty, and absent cells are added. |
| `StoreImage.EveryMapIsSaved` | app/orchestrator/src/store.ts:73-98 | Each of the 21 maps of the store type is saved where it exists and comes back; the five required ones exist after loading any file. |
| `StoreImage.OpenGives` | app/orchestrator/src/gateway_store.ts:227-255 | Opening keeps the queue and both cells, fills in absent cells, and has the eleven maps the gateway works on. |
| `StoreRecovery.RecoveredStore` | app/orchestrator/src/persistent_in_memory_gateway_store.ts:37-84 | After a crash at any instant of any run at which a save has landed, loading gives the roots and maps of the first look with the objects of the second, both made after every call that returned without an error. |
| `StoreRecovery.QuietCrashLosesNothing` | app/orchestrator/src/persistent_in_memory_gateway_store.ts:37-84 | If nothing changed since a call that returned without an error, loading after the crash gives the store that memory was. |
| `StoreRecovery.LastingFactsSurvive` | app/orchestrator/src/persistent_in_memory_gateway_store.ts:37-84 | A record, queue item or cell that memory has held unchanged since a call was done that returned without an error is in the store loaded after a crash at any later instant, whatever else changed or was being saved. |
| `StoreRecovery.SavedCallSurvives` | app/orchestrator/src/persistent_in_memory_gateway_store.ts:37-90 | What a saving method of the gateway store leaves in memory, and nothing changes since, is in the store loaded after every crash once the call has returned without an error. |
| `StoreRecovery.PrintedIsSerialized` | app/orchestrator/src/persistent_in_memory_gateway_store.ts:78-108 | One print of memory, parsed, is the serialised form of the store that memory is. |
| `AdvanceCoordinator.PressEffect` | app/macos/Sources/EventLoopQueueCore/AdvanceCoordinator.swift:76-128 | What one press does to queue, completed papers and current task, told from the papers left once the open one is done and whether the desktop of the first of them is known. |
| `AdvanceCoordinator.ManualModeKeeps` | app/macos/Sources/EventLoopQueueCore/AdvanceCoordinator.swift:62-80 | The decision is the toast for manual mode if and only if manual mode is on, and then a press changes nothing. |
| `AdvanceCoordinator.ManualPressesDropOut` | app/macos/Sources/EventLoopQueueCore/AdvanceCoordinator.swift:62-80 | A run ends as the run of its presses outside manual mode does. |
| `AdvanceCoordinator.LimboCreates` | app/macos/Sources/EventLoopQueueCore/AdvanceCoordinator.swift:80-97 | With no current task a task is created if and only if a workspace has the focus and a Codex thread or Ghostty window is in front: on that workspace, for the thread wherever there is one; otherwise a toast. |
| `AdvanceCoordinator.OnlyLimboCreates` | app/macos/Sources/EventLoopQueueCore/AdvanceCoordinator.swift:62-128 | While a task is current no task is created and nothing in front asked for. |
| `AdvanceCoordinator.LimboOfRun` | app/macos/Sources/EventLoopQueueCore/AdvanceCoordinator.swift:91-127 | A run that has ended in limbo got there by one press, and is left with an empty queue or a head on no desktop that press knew. |
| `AdvanceCoordinator.PressComesCloser` | app/macos/Sources/EventLoopQueueCore/AdvanceCoordinator.swift:76-128 | Every press from a bound desktop lowers the number of presses still needed (two a paper, one more with no paper open). |
| `AdvanceCoordinator.LimboIsReached` | app/macos/Sources/EventLoopQueueCore/AdvanceCoordinator.swift:62-136 | From a bound desktop with n distinct papers, 2n + 1 presses outside manual mode reach limbo, whatever has the focus at each. |
| `AdvanceCoordinator.PapersAreConserved` | app/macos/Sources/EventLoopQueueCore/QueueViewModel.swift:928-1066 | Over any run every paper is either still open or completed, counted once. |
| `AdvanceCoordinator.NoPaperTwice` | app/macos/Sources/EventLoopQueueCore/QueueViewModel.swift:1038-1066 | No paper is completed twice in one run. |
| `AdvanceCoordinator.DesktopFollowsTask` | app/macos/Sources/EventLoopQueueCore/QueueViewModel.swift:1072-1120 | A press that makes or keeps a task current asks for a desktop of that task if and only if the paper it pulls, if any, carries no snapshot, or one of a desktop of its task that was not just restored; a press that leaves none current asks for limbo. |
| `AdvanceCoordinator.RepeatIsHeldBack` | app/macos/Sources/EventLoopQueueCore/QueueViewModel.swift:1082-1090 | Nothing is asked for if and only if the paper pulled carries the very snapshot restored for it less than two seconds ago. |
| `AdvanceCoordinator.DecisionFollowsTask` | app/macos/Sources/EventLoopQueueCore/AdvanceCoordinator.swift:76-136 | The desktop a decision names is one of the task current after the press, or limbo where none is; a paper is pulled exactly if the press knows the task of the first paper left, and is then head of the queue and open. |
| `AdvanceCoordinator.SnapshotLeadsAway` | app/macos/Sources/EventLoopQueueCore/QueueViewModel.swift:1072-1080 | A paper whose snapshot was taken on a desktop of no task: its task becomes current and that other desktop is restored. |
| `AdvanceCoordinator.LayoutsMakeNoDifference` | app/macos/Sources/EventLoopQueueCore/QueueViewModel.swift:907-915 | Moving the desktops of tasks that no longer matter, as saving a layout may, changes nothing else at any later press of the run. |
| `AdvanceCoordinator.SavedTaskIsPast` | app/macos/Sources/EventLoopQueueCore/AdvanceCoordinator.swift:91-110 | The task whose layout is saved is one that no longer matters. |
| `AdvanceCoordinator.KnownExactly` | app/macos/Sources/EventLoopQueueCore/QueueViewModel.swift:863-872 | A task that matters is known to a press if and only if it is listed first on its desktop among the tasks that matter. |
| `AdvanceCoordinator.PressKeepsClear` | app/macos/Sources/EventLoopQueueCore/QueueViewModel.swift:840-890 | A press neither makes nor removes a paper that the rest of the run cannot reach. |
| `AdvanceCoordinator.DrainsExactly` | app/macos/Sources/EventLoopQueueCore/AdvanceCoordinator.swift:62-136 | For any tasks and papers: a run completes all papers if and only if each, except one already open, belongs to a task listed first on its desktop among those that still matter when its turn comes. |
| `AdvanceCoordinator.DrainsWithOwnDesktops` | app/macos/Sources/EventLoopQueueCore/AdvanceCoordinator.swift:62-136 | With every task on a desktop of its own that means: each paper, except one already open, belongs to a task that has a desktop. |
| `AdvanceCoordinator.SharedDesktopStrands` | app/macos/Sources/EventLoopQueueCore/QueueViewModel.swift:863-872 | Two tasks on one desktop: the paper of the second is left behind although it has a desktop. |
| `PacketEnrichment.EnrichReviewPacket` | app/orchestrator/src/gateway_store.ts:1024-1075 | The pass with its seen set appends the snapshot resource and at most five tabs, each new id once. |
| `PacketEnrichment.PassIs` | app/orchestrator/src/gateway_store.ts:1024-1075 | A pass has on offer the snapshot, unless a workspace snapshot is carried, and the first five tabs not in the context, and appends in that order the first of each id that the context lacks. |
| `PacketEnrichment.TasklessIsLeftAlone` | app/orchestrator/src/gateway_store.ts:1029 | A packet without a task is left alone. |
| `PacketEnrichment.PassIsSmall` | app/orchestrator/src/gateway_store.ts:1024-1075 | A pass keeps the old context in front and adds at most six resources whose ids are new and pairwise distinct. |
| `PacketEnrichment.PassCloses` | app/orchestrator/src/gateway_store.ts:1036-1060 | A pass settles the snapshot and takes in the next five open entries, or all of them. |
| `PacketEnrichment.FixedPoint` | app/orchestrator/src/gateway_store.ts:1024-1075 | A pass changes nothing if and only if no entry is open and the snapshot is settled. |
| `PacketEnrichment.Converges` | app/orchestrator/src/gateway_store.ts:1024-1075 | After one pass for every five entries, and at least one, no further pass changes anything. |
| `PacketEnrichment.TwoReadsSettle` | app/orchestrator/src/gateway_store.ts:312-316 | With at most eight entries, reading and writing back stops growing a packet after the second time. |
| `PacketEnrichment.OneReadSettles` | app/orchestrator/src/gateway_store.ts:1024-1075 | Enriching twice equals enriching once if and only if every open entry has the id of one of the first five open ones or of the snapshot added. |
| `PacketEnrichment.SixTabsTakeTwoReads` | app/orchestrator/src/gateway_store.ts:1045-1060 | With more than five different tabs the second read adds more: enriching is not idempotent. |
| `TaskRegistry.TaskStore.Create` | app/orchestrator/src/gateway_store.ts:541-597 | Lookup by explicit id, then by anchor; a hit may be moved and woken, a miss creates a task and its layout. |
| `TaskRegistry.TaskStore.UpdateLayout` | app/orchestrator/src/gateway_store.ts:623-631 | Only a known task gets the layout and the new time. |
| `TaskRegistry.TaskStore.RecordPaperEmitted` | app/orchestrator/src/gateway_store.ts:646-657 | Only the emission and update times of a known task change. |
| `TaskRegistry.TaskStore.MarkDormant` | app/orchestrator/src/gateway_store.ts:658-669 | Only the dormancy and update times of a known task change. |
| `TaskRegistry.TaskStore.Wake` | app/orchestrator/src/gateway_store.ts:670-680 | Only the dormancy and update times of a known task change. |
| `TaskRegistry.ReachableInv` | app/orchestrator/src/gateway_store.ts:541-680 | In every reachable state keys are task ids, no two tasks share an anchor, and tasks and layouts have the same keys, with any generated ids. |
| `TaskRegistry.TaskAfter` | app/orchestrator/src/gateway_store.ts:541-680 | Every operation changes at most the one task it names or answers: the times recorded, and for a creation the task answered. |
| `TaskRegistry.LayoutAfter` | app/orchestrator/src/gateway_store.ts:623-631 | Saving a layout for a known task replaces its layout and no other. |
| `TaskRegistry.LastWordOnSleep` | app/orchestrator/src/gateway_store.ts:658-680 | Over any run a known task sleeps since the last mark if that was the last word; after waking or a creation that answers it, it is awake. |
| `TaskRegistry.AnchorKept` | app/orchestrator/src/gateway_store.ts:541-597 | One operation leaves an anchor with its task if and only if it is not a creation that takes over the id of that task. |
| `TaskRegistry.CreateFindsHolder` | app/orchestrator/src/gateway_store.ts:548-575 | Creating for an anchor that has a task, without an explicit id, answers that task and created = false. |
| `TaskRegistry.CreateIsIdempotent` | app/orchestrator/src/gateway_store.ts:541-597 | Repeating a creation after any run gives the same task, not created, unless a new one took its id. |
| `TaskRegistry.AnswerHolds` | app/orchestrator/src/gateway_store.ts:541-597 | The task answered is the one now stored under its id. |
| `TaskRegistry.AnswerFits` | app/orchestrator/src/gateway_store.ts:541-597 | The task answered is awake, on the desktop asked for, and has the anchor asked for unless it was named by id; the layout answered is the stored one, the given one for a new task. |
| `TaskRegistry.AnswerIs` | app/orchestrator/src/gateway_store.ts:541-597 | A created task has exactly the fields asked for, an idle time of at least a second and a minute by default; a found one changes desktop, sleep and update time only, and only if moved or woken. |
| `GatewayCells.Cells.SetManualModeActive` | app/orchestrator/src/gateway_store.ts:523-540 | Turning on keeps entry time and reason of an active stretch, turning off clears both. |
| `GatewayCells.Cells.SetCurrentTaskId` | app/orchestrator/src/gateway_store.ts:635-645 | Naming the current one again keeps its entry time; another one, or none, replaces it. |
| `GatewayCells.ManualModeEntry` | app/orchestrator/src/gateway_store.ts:523-540 | After any calls the entry time is that of the first activation in the current unbroken active stretch, and the reason the last one given in it. |
| `GatewayCells.CurrentTaskEntry` | app/orchestrator/src/gateway_store.ts:635-645 | After any calls the entry time is that of the last switch onto the current one. |
| `GatewayCells.LoadedWithoutTime` | app/orchestrator/src/gateway_store.ts:523-645 | A cell that is on but has no entry time gets that of the next call. |
| `GatewayCells.NothingIsSet` | app/orchestrator/src/gateway_store.ts:236-241 | Before any call manual mode is off and no task current, since the epoch. |
| `QueueLeases.QueueStore.ReapLeases` | app/orchestrator/src/store.ts:463-476 | Exactly the expired leases are released. |
| `QueueLeases.QueueStore.ReapDeferred` | app/orchestrator/src/store.ts:478-489 | Exactly the deferred items that are due become ready. |
| `QueueLeases.QueueStore.Lease` | app/orchestrator/src/store.ts:347-372 | Both sweeps, then the first eligible item, if any, is leased until the agreed time; every other item is as swept. |
| `QueueLeases.QueueStore.LeaseBest` | app/orchestrator/src/store.ts:356-371 | The first eligible item is leased to the asker, nothing else changes. |
| `QueueLeases.QueueStore.RenewLease` | app/orchestrator/src/store.ts:448-461 | The expiry moves if and only if the item is leased by that owner. |
| `QueueLeases.QueueStore.Finish` | app/orchestrator/src/store.ts:378-423 | Done and ignored items lose owner and expiry. |
| `QueueLeases.QueueStore.DeferItem` | app/orchestrator/src/store.ts:393-408 | A deferred item loses its lease and gets its time. |
| `QueueLeases.QueueStore.BumpItemPriority` | app/orchestrator/src/store.ts:425-446 | The score is set or moved, and kept between 0 and 10000. |
| `QueueLeases.QueueStore.AgentRunWaits` | app/orchestrator/src/store.ts:499-542 | The item of a waiting agent run is reopened, or appended if there is none. |
| `QueueLeases.QueueStore.AgentRunMovesOn` | app/orchestrator/src/store.ts:1150-1160 | The item of an agent run that moved on is done unless it was done or dead. |
| `QueueLeases.HighestIsLeased` | app/orchestrator/src/store.ts:347-372 | A lease goes, of the items on offer (ready, or with their lease or deferral over, due, not excluded), to the one of the highest score, then the one created first, then the one in front; it is held by the asker until the agreed time. |
| `QueueLeases.SomeIsLeased` | app/orchestrator/src/store.ts:347-372 | Some item is leased if and only if some item is on offer. |
| `QueueLeases.OnlyOneIsLeased` | app/orchestrator/src/store.ts:347-372 | No other item becomes leased or changes its lease. |
| `QueueLeases.LeasesDescend` | app/orchestrator/src/store.ts:347-372 | Over any run, leases in a row at one time go down in score, at the same score up in creation, then up in place; the same item twice only where the earlier lease was over at once. |
| `QueueLeases.NamedItemChanges` | app/orchestrator/src/store.ts:378-446 | Finishing, ignoring, deferring and bumping change the first item of that id and no other: state, due time and lease, or the score, kept between 0 and 10000. |
| `QueueLeases.AgentItemChanges` | app/orchestrator/src/store.ts:1150-1171 | A waiting agent run reopens the first item of its packet with its own score; one that moved on finishes it unless it was done or dead. |
| `QueueLeases.AbsentItemChangesNothing` | app/orchestrator/src/store.ts:378-461 | An operation on an unknown id changes nothing; a waiting agent run without an item brings one. |
| `QueueLeases.ReadingSweeps` | app/orchestrator/src/store.ts:342-345 | Asking for the next item ends expired leases and due deferrals, and changes nothing else; listing ends due deferrals only. |
| `QueueLeases.NothingIsLost` | app/orchestrator/src/store.ts:347-489 | Over every run items keep their place and identity. |
| `QueueLeases.LeaseHolds` | app/orchestrator/src/store.ts:347-372 | From a grant or renewal on, while nothing else is about the item, owner and expiry stay unless a clock read since had reached the expiry. |
| `QueueLeases.NoEarlyHandover` | app/orchestrator/src/store.ts:347-372 | An untouched leased item is leased again only once its expiry has come. |
| `QueueLeases.RenewalIsTheOwners` | app/orchestrator/src/store.ts:347-461 | Over any run, whoever renews a lease is the one it was last granted to; it was theirs ever since, and only their renewals and changes of priority came between. |
| `QueueLeases.ClosedStep` | app/orchestrator/src/store.ts:378-423 | One step leaves finished work finished if and only if it is not a deferral of it or its agent run waiting again. |
| `QueueLeases.ClosedUntilReopened` | app/orchestrator/src/store.ts:347-423 | Over every run finished work stays so, and is not leased, until it is reopened. |
| `QueueLeases.DeferReopensDoneWork` | app/orchestrator/src/store.ts:393-408 | Deferring a finished item makes it available again at its new time. |
| `QueueLeases.DeferralIsKept` | app/orchestrator/src/store.ts:374-376 | A deferred item is not leased before its time. |
| `QueueLeases.EveryLeaseCanEnd` | app/orchestrator/src/store.ts:463-476 | In every reachable state a lease has an expiry and is ended by exactly the sweeps whose clock has reached it. |
| `FakeQueue.FakeQueueClient.TakePacket` | app/macos/Sources/EventLoopQueueCore/FakeQueueClient.swift:280-351 | Completing, deferring, ignoring or executing takes the packet and its lease out and records the id; an injected error or an unknown id changes no packet. |
| `FakeQueue.FakeQueueClient.Renew` | app/macos/Sources/EventLoopQueueCore/FakeQueueClient.swift:353-364 | A renewal is recorded if and only if the packet is there and leased. |
| `FakeQueue.FakeQueueClient.LeaseNext` | app/macos/Sources/EventLoopQueueCore/FakeQueueClient.swift:366-385 | The scan leases the first unleased packet from behind the cursor round, or answers none. |
| `FakeQueue.FakeQueueClient.Bump` | app/macos/Sources/EventLoopQueueCore/FakeQueueClient.swift:771-815 | The priority of the packet changes and the queue is sorted again. |
| `FakeQueue.FakeQueueClient.PromoteContexts` | app/macos/Sources/EventLoopQueueCore/FakeQueueClient.swift:1031-1090 | Each context adds its packet unless one of that id is there. |
| `FakeQueue.FakeQueueClient.StartMaster` | app/macos/Sources/EventLoopQueueCore/FakeQueueClient.swift:505-529 | A packet of priority 760 is added and the queue sorted. |
| `FakeQueue.FakeQueueClient.ApproveProposal` | app/macos/Sources/EventLoopQueueCore/FakeQueueClient.swift:606-609 | The packet of the proposal is added unless one of that id is there. |
| `FakeQueue.FakeQueueClient.Replace` | app/macos/Sources/EventLoopQueueCore/FakeQueueClient.swift:262-267 | The new packets are sorted and leases of absent ids dropped. |
| `FakeQueue.BumpedMeaning` | app/macos/Sources/EventLoopQueueCore/FakeQueueClient.swift:771-815 | A bump keeps id and reasons and records its reason; a delta keeps the priority between 0 and 10000 and is exact within. |
| `FakeQueue.Conservation` | app/macos/Sources/EventLoopQueueCore/FakeQueueClient.swift:262-385 | In every reachable state packets descend in priority and leased ids are packet ids; without replacing, initial plus added ids equal open, completed, deferred, ignored and executed ones, as multisets. |
| `FakeQueue.LedgersAreExact` | app/macos/Sources/EventLoopQueueCore/FakeQueueClient.swift:280-385 | Over any run the completed, deferred, ignored, executed, renewed and leased ids are what they were, followed by the ids of the operations of that kind answered ok, in order. |
| `FakeQueue.TakeMeaning` | app/macos/Sources/EventLoopQueueCore/FakeQueueClient.swift:280-351 | An injected error is used up; an unknown id changes nothing; otherwise one packet of that id and its lease go, and its own ledger gets the id. |
| `FakeQueue.MasterArrives` | app/macos/Sources/EventLoopQueueCore/FakeQueueClient.swift:505-529 | A master task brings its packet of priority 760, whether or not one of that id is there. |
| `FakeQueue.ProposalArrives` | app/macos/Sources/EventLoopQueueCore/FakeQueueClient.swift:606-609 | An approved proposal brings its packet of priority 700 unless one of that id is there. |
| `FakeQueue.PaperArrives` | app/macos/Sources/EventLoopQueueCore/FakeQueueClient.swift:1031-1090 | A promoted paper brings its packet of priority 600 unless one of that id is there. |
| `FakeQueue.PapersInTurn` | app/macos/Sources/EventLoopQueueCore/FakeQueueClient.swift:1031-1090 | Several papers are promoted one after the other. |
| `FakeQueue.InjectionMeaning` | app/macos/Sources/EventLoopQueueCore/FakeQueueClient.swift:250-255 | Injecting an error changes nothing but the answer to the next action or lease. |
| `FakeQueue.ReplaceMeaning` | app/macos/Sources/EventLoopQueueCore/FakeQueueClient.swift:262-267 | Replacing keeps exactly the leases of packets that are still there. |
| `FakeQueue.InitialFits` | app/macos/Sources/EventLoopQueueCore/FakeQueueClient.swift:118 | A new client is in order and holds exactly the ids given. |
| `FakeQueue.AnsweredExactly` | app/macos/Sources/EventLoopQueueCore/FakeQueueClient.swift:366-385 | On a frozen queue with u unleased packets, exactly the first u requests are answered, whatever their cursors. |
| `FakeQueue.Exhaustive` | app/macos/Sources/EventLoopQueueCore/FakeQueueClient.swift:366-385 | The answers are the unleased packets, each exactly once. |
| `FakeQueue.NextGoesRound` | app/macos/Sources/EventLoopQueueCore/FakeQueueClient.swift:366-385 | The packet leased is the first unleased one going round from behind the cursor. |
| `ActivityLog.InMemoryObservability.RecordActivity` | app/orchestrator/src/observability.ts:54-64 | The event is numbered by the events then kept and appended, and the list stays the last max events of the whole history. |
| `ActivityLog.InMemoryObservability.ListActivity` | app/orchestrator/src/observability.ts:66-72 | With a limit of at least one the answer is what reading the kept events from the newest end finds. |
| `ActivityLog.SameId` | app/orchestrator/src/observability.ts:55-58 | Two records share an id if and only if the log was full at the earlier one: the first max + 1 ids are distinct, later ones repeat. |
| `ActivityLog.KeptIdsAreDistinct` | app/orchestrator/src/observability.ts:54-64 | The ids kept at one time are distinct if and only if at most max + 1 events were recorded or max is below two. |
| `ActivityLog.ListedIsNewest` | app/orchestrator/src/observability.ts:66-72 | Filter, slice and reverse give the newest matches first, at most limit of them. |
| `ActivityLog.AnswersAreWanted` | app/orchestrator/src/observability.ts:202-210 | A query that names a value or a time is never answered with an event of another value or a known earlier time. |
| `ActivityLog.AnswerIs` | app/orchestrator/src/observability.ts:66-72 | With a positive limit, 100 where none is given, the answer is the newest events with every value and time named, newest first, as many as the limit allows. |
| `ActivityLog.LimitHolds` | app/orchestrator/src/observability.ts:196-200 | The limit bounds the answer if and only if it is positive or skips every match; a limit of zero answers everything. |
| `ActivityLog.CappedAnswer` | app/orchestrator/src/observability.ts:54-72 | The answer is a beginning of the one an uncapped log would give, and equal to it if and only if it reaches the limit or no match was dropped. |
| `ProofPlan.SelectPrimitiveSelfTestCommands` | app/shared/src/primitives.ts:1588-1624 | Selection, missing ids and sorted commands, grouped by the nested loops. |
| `ProofPlan.GroupCommands` | app/shared/src/primitives.ts:1601-1610 | The outer loop groups the self-tests of the selected primitives. |
| `ProofPlan.AddTests` | app/shared/src/primitives.ts:1605-1609 | The inner loop adds one primitive to the group of each of its commands. |
| `ProofPlan.SelectPrimitiveLatencyBudgets` | app/shared/src/primitives.ts:1626-1654 | The budgets of the primitives with selected ids, in catalogue order. |
| `ProofPlan.GroupsMeaning` | app/shared/src/primitives.ts:1598-1610 | Each command has one group, holding exactly the ids it is paired with, none twice. |
| `ProofPlan.SelfTestsMeaning` | app/shared/src/primitives.ts:1588-1624 | Each command comes once and names exactly the selected primitives that list it. |
| `ProofPlan.ChosenMeaning` | app/shared/src/primitives.ts:1594-1598 | Without requested ids every readable id is selected; otherwise each requested id is either selected or missing. |
| `ProofPlan.SelectionIsOrdered` | app/shared/src/primitives.ts:1612-1623 | Commands come in the order of the locale, their ids in that of code units. |
| `ProofPlan.PlanSelects` | app/shared/src/primitives.ts:1566-1586 | The primitives of a plan are, in catalogue order, exactly the rows that meet every criterion of the selector, told by their fields. |
| `ProofPlan.SelectInTurn` | app/shared/src/primitives.ts:1566-1586 | For a caller that merges two selectors by the common values of their lists: the merged one selects what passes both, if and only if no two lists are without a common value or nothing passes it, as an empty list is no criterion. |
| `ProofPlan.PlanCommands` | app/shared/src/primitives.ts:1656-1676 | In any catalogue the commands cover those of the selected and unknown ids under which, trimmed, some primitive lists them, or every primitive where there are no such ids; missing are those of them that no trimmed id matches. |
| `ProofPlan.PlanOfTrimmed` | app/shared/src/primitives.ts:1656-1676 | With trimmed ids the commands cover exactly the selected primitives that list them, or all if nothing is selected and nothing missing; missing are the requested ids the catalogue lacks. |
| `ProofPlan.CommandsAreClosed` | app/shared/src/primitives.ts:1656-1676 | In any catalogue commands name selected primitives only, if and only if no requested id matches a listed test only when trimmed, and a primitive passes, an unknown id is asked for or there are no tests. |
| `ProofPlan.SelectedButMissing` | app/shared/src/primitives.ts:1662-1668 | In any catalogue a selected id is reported missing as well if and only if it is empty or not trimmed. |
| `ProofPlan.RowsMeaning` | app/shared/src/primitives.ts:1634-1652 | The budget rows are exactly those of primitives with selected ids. |
| `ProofPlan.SelectAgain` | app/shared/src/primitives.ts:1671-1674 | Selecting again by the ids of a non-empty selection selects the same. |
| `ProofPlan.BudgetsAreClosed` | app/shared/src/primitives.ts:1656-1676 | The budgets of a plan are those of its selection if and only if some primitive passes the selector, or none that passes it without its ids shares its id with one that has budgets. |
| `ProofPlan.UnknownIdsWiden` | app/shared/src/primitives.ts:1656-1676 | For unknown ids only, the plan covers no primitive by commands but lists the budgets of everything that passes the rest. |
| `OriginPatterns.NormalizeAllowedOrigins` | app/browser-extension/src/extension-config.js:95-126 | The list of distinct normalised patterns in order, or the first failure. |
| `OriginPatterns.CollectPatterns` | app/browser-extension/src/extension-config.js:106-125 | The loop with its seen set keeps the first of each pattern and stops at the first failure. |
| `OriginPatterns.ReadShown` | app/browser-extension/src/extension-config.js:150-184 | Normaliser and matcher, which part host and port at different colons, both read a shown pattern back as it was. |
| `OriginPatterns.ReadMeaning` | app/browser-extension/src/extension-config.js:140-171 | A cleaned text is accepted if and only if it is canonical, and then comes out unchanged. |
| `OriginPatterns.NormalizePatternMeaning` | app/browser-extension/src/extension-config.js:140-171 | A text is accepted if and only if cleaning leaves nothing or a canonical pattern, and that is the result. |
| `OriginPatterns.WhatIsAccepted` | app/browser-extension/src/extension-config.js:140-171 | A cleaned text is accepted, as it is, if and only if it is the entry for files or a scheme, a host (localhost or a name with a dot, perhaps behind a wildcard) and perhaps a port (a star or up to five digits). |
| `OriginPatterns.WhatIsTooBroad` | app/browser-extension/src/extension-config.js:145-147 | Refused as too broad are exactly the four all-site patterns. |
| `OriginPatterns.NormalizedMeaning` | app/browser-extension/src/extension-config.js:95-126 | A normalised list is not empty, has no repetition and holds canonical patterns only. |
| `OriginPatterns.NormalizingAgain` | app/browser-extension/src/extension-config.js:95-126 | Normalising a normalised list changes nothing. |
| `OriginPatterns.OptionsRoundTrip` | app/browser-extension/src/options.js:20 | The list shown one origin a line is saved as the same list. |
| `OriginPatterns.AllowedMeaning` | app/browser-extension/src/extension-config.js:128-138 | A URL is allowed if and only if some normalised entry admits it: a file where files are listed, else a pattern that covers its protocol, host and port; order and repetition do not matter. |
| `OriginPatterns.NoUrlIsAllowed` | app/browser-extension/src/extension-config.js:128-134 | A text that is no URL is not allowed, whatever the list, even one that cannot be normalised. |
| `OriginPatterns.WhatIsCovered` | app/browser-extension/src/extension-config.js:173-203 | A listed pattern matches exactly the URLs of its scheme, of its host or any host ending in a dot and its name, and of its port, or of any port if it names none or a star. |
| `OriginPatterns.DeadPatterns` | app/browser-extension/src/extension-config.js:186-215 | Some web URL is covered by a pattern if and only if its port is not spelt in a way no URL carries and its host, or what stands behind the wildcard, is or ends some host that a URL can have. |
| `OriginPatterns.DeadPortIs` | app/browser-extension/src/extension-config.js:192-194 | Dead ports are the default port of the scheme, numbers with leading zeros and numbers above 65535. |
| `OriginPatterns.PlainHosts` | app/browser-extension/src/extension-config.js:198-215 | For hosts without punycode that means: not ending in a number, or a canonical address, or behind a wildcard the end of one. |
| `OriginPatterns.ShortAddress` | app/browser-extension/src/extension-config.js:198-215 | The pattern http://127.1 is accepted and covers no URL. |
| `Prelude.UniqueMeaning` | app/browser-extension/src/extension-config.js:116-119 | Keeping only unseen patterns leaves no repetition and the order of first occurrence. |
| `TaskSlug.SlugifyTaskName` | app/macos/Sources/EventLoopQueueCore/QueueClient.swift:976-1006 | All loops end; the result has only a-z, 0-9 and single inner dashes, and is the words of the name joined by dashes. |
| `TaskSlug.DashBlanks` | app/macos/Sources/EventLoopQueueCore/QueueClient.swift:980-990 | Each run of blanks becomes one dash. |
| `TaskSlug.KeepScalars` | app/macos/Sources/EventLoopQueueCore/QueueClient.swift:991-999 | Only dashes, digits and a-z stay. |
| `TaskSlug.Trim` | app/macos/Sources/EventLoopQueueCore/QueueClient.swift:1000-1004 | The three loops end in a text without doubled, leading or trailing dashes and with the same words. |
| `TaskSlug.SlugIsSlug` | app/macos/Sources/EventLoopQueueCore/QueueClient.swift:976-1006 | Every slug is in normal form. |
| `TaskSlug.SlugLooks` | app/macos/Sources/EventLoopQueueCore/QueueClient.swift:976-1006 | A slug is made of digits, lower case letters and single dashes between them. |
| `TaskSlug.LettersStay` | app/macos/Sources/EventLoopQueueCore/QueueClient.swift:991-999 | Each digit and lower case letter is kept. |
| `TaskSlug.SlugFixedPoints` | app/macos/Sources/EventLoopQueueCore/QueueClient.swift:976-1006 | Slugging leaves a name alone if and only if it is in normal form; slugging twice is slugging once. |
| `TaskSlug.SlugsCollide` | app/macos/Sources/EventLoopQueueCore/QueueClient.swift:976-1006 | Two names share a slug if and only if they have the same words. |
| `TaskSlug.TaskIdMeaning` | app/macos/Sources/EventLoopQueueCore/QueueClient.swift:1008-1029 | An id is the word task and the first words of the name, eight at most of the name; a name without letters or digits has none. |
| `TaskSlug.TaskIdIsStable` | app/macos/Sources/EventLoopQueueCore/QueueClient.swift:1017-1028 | Normalising an id again leaves it alone if and only if the name had fewer than eight words or began with task; a second time is always final. |
| `HotKeyDebounce.GlobalHotKeyController.DispatchHotKeyAction` | app/macos/Sources/EventLoopQueueApp/GlobalHotKeyController.swift:191-208 | A press performs its action exactly if it is known and the last performance of that action, by any of its ids, is the interval ago, in the future or absent. |
| `HotKeyDebounce.KeysAreActions` | app/macos/Sources/EventLoopQueueApp/GlobalHotKeyController.swift:210-246 | Known ids share a debounce key if and only if they share the action. |
| `HotKeyDebounce.ActionsOfIds` | app/macos/Sources/EventLoopQueueApp/GlobalHotKeyController.swift:12-23 | The twelve known ids and the action of each; no other id has one. |
| `HotKeyDebounce.SpacedExactly` | app/macos/Sources/EventLoopQueueApp/GlobalHotKeyController.swift:197-206 | Performances of one action are at least the interval apart if and only if no press is timed before the last performance of its action. |
| `HotKeyDebounce.PressesAreSpaced` | app/macos/Sources/EventLoopQueueApp/GlobalHotKeyController.swift:197-206 | With a clock that does not go back, performances of one action are at least the interval apart. |
| `HotKeyDebounce.FiresExactly` | app/macos/Sources/EventLoopQueueApp/GlobalHotKeyController.swift:197-206 | A known press not timed before the last performance of its action is performed if and only if no performance of that action lies less than the interval back. |
| `HotKeyDebounce.WindowBound` | app/macos/Sources/EventLoopQueueApp/GlobalHotKeyController.swift:191-208 | With no press timed back, any window of length T holds at most floor(T / interval) + 1 performances of one action. |
| `HotKeyDebounce.TrainIsPerformed` | app/macos/Sources/EventLoopQueueApp/GlobalHotKeyController.swift:191-208 | The bound is met: a key pressed once every interval is performed every time. |

## Left out

- The Postgres stores, HTTP routes and clients, process start-up and timers: SQL and plumbing behind libraries.
- The Mac interface, voice, window and DOM capture, restore, and the Chrome messaging call itself with its timeout.
- Zod schemas, status aliases, error texts and activity sanitising: finite data and wording.
- `JSON`, Unicode and URL parsing: see "What is assumed"; grapheme clusters are single characters.
- NativeHost.NativeReader.Data: passing a message on stands for starting its handler; the order in which replies are written, and what the process does after an exception in the event handler, are not modelled.
- NativeHost.BadFrameSticks: tells what a listener does that is called again after it threw; that the shipped process ends at the first exception is not modelled.
- NativeBridge.AnswersComeHome: the wording of errors and the list of capabilities in a reply are not modelled; storing and forwarding a capture are one outcome that succeeds or throws.
- StorePersistence.Durability: a call whose method throws before its save is requested asks for none and is not a step of its own; temporary file names are taken to be fresh.
- StoreImage.RoundTrip: values are JSON data; two maps that share an event object hold equal copies after loading.
- QueueLeases.HighestIsLeased: creation times compare as instants, the source compares their texts; packets attached to answers, update times and priority reasons are left out.
- QueueLeases.QueueStore.BumpItemPriority: scores are whole numbers, so rounding and non-finite scores do not occur.
- TaskRegistry.ReachableInv: deletion does not exist in the source; layouts are opaque values.
- PacketEnrichment.Converges: what the store answers for one task is fixed while passes repeat; which snapshot is the newest and how an entry becomes a tab are part of those answers.
- AdvanceCoordinator.DesktopFollowsTask: tells which desktop is asked for, for a restore the active one of the snapshot; which windows the restore then moves and which it focuses, and a restore begun by another key while the press is at work, are left out.
- AdvanceCoordinator.DrainsExactly: tasks and the layouts their desktops are read off stay as they are during a run; `LayoutsMakeNoDifference` and `SavedTaskIsPast` prove that saving a layout changes nothing for the run.
- AdvanceCoordinator.LimboIsReached: presses in limbo, which start a new task or lease a paper, end a run; the terminal reference of a new task and selection and toasts on screen are left out.
- FakeQueue.Conservation: batch approval, master fan-out, messages and restore requests of the fake client do not touch the queue's accounts and are left out; Swift's sort is taken to be stable, which no theorem uses.
- ActivityLog.InMemoryObservability.ListActivity: the limit is a whole number; counters are left out as they only add up.
- ProofPlan.SelectInTurn: the source has no merge of two selectors and selects from catalogues only; both are what a caller may do with it.
- ProofPlan.SelectPrimitiveLatencyBudgets: the category of a primitive is given; how it is read off its id and routes is left out.
- OriginPatterns.AllowedMeaning: a text that is no URL is refused before the list is looked at, and a list that cannot be normalised is an error.
- HotKeyDebounce.WindowBound: instants and the interval are exact numbers, the source computes with doubles; registering keys with the system is left out.
