# Verified models of the app's core and release tooling

Dafny models of five parts of the repository, each proved against what that part promises:

* **Debug images** (`Bytes`, `SentryMacho`, `MachoGuarantees`, `MachoMeaning`, `GoDsym`, `GoDsymRoundTrip`,
  `GoDsymTheorems`, `GoDsymSuccess`). The writer that copies final-linked DWARF into a debug-only Mach-O image, single or
  universal, and the strict reader that must accept it. The reader is also told field by field, without its own functions,
  and proved to accept exactly that (`InspectExactly`).
  Files are byte sequences with little- and big-endian packing; decompression is an arbitrary function.
* **Android resources** (`ResourceSelection`, `ResourceMeaning`, `ResourceGraph`, `ResourceChains`, `ResourceVerdict`).
  Picking one value per resource and device configuration, following reference chains, and the verdict over all supported
  devices, reached on a finite sample of them and stated by paths of references.
* **Core concurrency** (`IpcFraming`, `IpcSync`, `MessageBatcher`, `RouteTracker`, `RouteRuns`, `RequestTraffic`,
  `UpdateClaims`). Each class has the source's fields and updates them in place; its methods are proved equal to
  functions on values. State machines over those functions take one atomic step per lock section or select, under an
  arbitrary scheduler, and the theorems speak of every run. For IPC the function they share is `SendOn`, what a send
  does to its connection: `Host.Send` does that, and so do the machine's three steps (`SendIsThreeSteps`).
* **Transformations and streaming** (`YamlAliases`, `ConfigEncoder`, `ConfigDocument`, `ExitResolution`, `WindowScan`,
  `ProbeScan`, `OutputFeed`). Alias inlining on a shared node graph in the heap, the draining encoder, exits from a recorded chain,
  overlapping-window scans and chunked line splitting, each against the simple thing it stands for.
* **Release counter** (`BuildCounter`). Publishing the next build number by a compare-and-swap push.

Methods follow the loops of the source and are proved equal to specification functions; lemmas then prove what those
functions mean, in terms of their own: bytes at literal offsets, paths of ids, tokens of a label, whole runs. `hide` at
the head of a proof keeps unneeded definitions out of it.

## Where the code and its promises differ

* A DWARF section that happens to be called `__text` makes the writer's own final check turn down an otherwise correct
  image. `ExtractAccepts` shows that this is the only way that check fails, `TextSectionIsRejected` gives an image, and
  `ExtractSucceedsExactly` says of any source below 2 GiB whether a debug image comes out.
* A frame cut exactly after its length header is reported to the reader as a clean end of the stream, like a frame
  boundary (`TornReads`); any other cut is reported as an unexpected end.
* Updates are meant to be one at a time per resource. Two of the host's never overlap. A hook run keeps the host's updates
  of its resource out until a run of it ends if and only if none was in flight when it began (`HookKeepsOutExactly`);
  otherwise it holds no claim, and the next update starts beside it (`HookOutlivesManual`, from any reachable state).
* The draining encoder writes a mapping whole, and meets no drained item, if and only if no long list in it is shared with
  a later key or value (`WrittenWhole`, `WritesToTheEndExactly`); any list used as two keys' value is lost to the later
  one (`SharedListIsLost`, with `TwiceUsedIsLost` for a concrete mapping). Told of the document as it was parsed: the file
  is the document if and only if no long top-level list is, or is inside, a later key or value, aliases followed
  (`FileIsTheDocument`).
* Alias inlining ends on every parsed graph. What is left has a written form if and only if following children and aliases
  led down on the part that was reached (`WrittenExactly`), which is to say if no circle was reached
  (`CircleNeverDescends`, `NoCircleDescends`); then what is written is what the aliases stood for
  (`InlineKeepsMeaning`). A node aliased below itself is an input without one (`InlineSelfAlias`).
* The exit read from a recorded chain is the one the walk finds if and only if the proxy table holds the deciding hop: the
  outermost load balancer, or else the hop that dialed out (`ExitsAgreeExactly`).
* Scanning overlapping windows of a page reads what scanning everything would, for every way the page arrives, if and only
  if the pattern has at most 257 bytes (`OverlapIsExact`); a longer one is read past (`LongerIsMissed`).
* The lines of a child's output depend on how it was cut into chunks if and only if a boundary falls between a carriage
  return and its newline, and every such boundary emits one line more (`ChunksDoNotMatterExactly`). A diagnostic of more
  than 2049 characters can go unrecorded (`LongerGoesUnrecorded`).

## Model

| member | source | states |
|---|---|---|
| SentryMacho.ParseSections | tool/sentry_macho.py:184-201 | the section loop equals the recursive reading of the records, each absorbed or rejected for leaving its segment |
| SentryMacho.ParseSegment | tool/sentry_macho.py:172-201 | a segment command, 32- or 64-bit, with its bounds and sections |
| SentryMacho.ParseCommand | tool/sentry_macho.py:154-202 | one load command with its width, UUID, symbol-table and segment checks |
| SentryMacho.ParseCommands | tool/sentry_macho.py:151-202 | the load-command loop equals the recursive reading of the commands |
| SentryMacho.ParseThin | tool/sentry_macho.py:136-212 | a slice is read, or rejected, with every bounds check of the source |
| SentryMacho.ParseFatSlice | tool/sentry_macho.py:232-244 | one universal entry: bounds, no overlap, matching CPU, new architecture |
| SentryMacho.ParseFatVariants | tool/sentry_macho.py:230-245 | the loop over the universal table |
| SentryMacho.InspectMacho | tool/sentry_macho.py:215-245 | the whole reader on any byte sequence, malformed ones included |
| MachoGuarantees.AcceptedSlicesStandApart | tool/sentry_macho.py:230-245 | the slices of an accepted universal file share no byte with each other or the table, lie inside the file, and differ in architecture |
| MachoGuarantees.ReadersAgree | tool/sentry_macho.py:30-54 | on a universal file that inspection accepts, the stricter table reader fails if and only if an entry is misaligned |
| MachoGuarantees.ThinShape | tool/sentry_macho.py:136-212 | what any accepted slice guarantees: names of at most 16 characters, contents inside the file, and each debug and code flag set if and only if a listed section that is present has that name, segment or attribute |
| MachoGuarantees.InspectShape | tool/sentry_macho.py:215-245 | the same for every slice of an accepted file, whose architectures are distinct |
| MachoMeaning.CommandMeans | tool/sentry_macho.py:153-202 | a load command is read if and only if it is well formed by its fields at literal offsets, 32- or 64-bit, and adds exactly what they say |
| MachoMeaning.ThinExactly | tool/sentry_macho.py:136-212 | bytes are read as a slice if and only if they hold a header, a chain of well-formed commands that ends where the header says, and that inventory; both ways, for every byte order and width |
| MachoMeaning.InspectExactly | tool/sentry_macho.py:215-245 | a file is accepted if and only if it is one image or a universal file of images that stand apart, and the inventory is what they hold |
| MachoMeaning.FatEntriesExactly | tool/sentry_macho.py:30-54 | the stricter table reader accepts exactly the tables of aligned, disjoint entries inside the file with different CPUs |
| GoDsym.AlignUpMeans | tool/prepare_sentry_macos_symbols.py:200 | the bit trick gives the least multiple of the alignment that is not below the cursor |
| GoDsym.BuildSections | tool/prepare_sentry_macos_symbols.py:196-229 | the section loop equals the recursive layout, and its records are the layout's |
| GoDsym.BuildSlice | tool/prepare_sentry_macos_symbols.py:183-239 | one slice image or the error it ends with |
| GoDsym.LayOffsets | tool/prepare_sentry_macos_symbols.py:255-259 | the page-aligned offsets of the slices |
| GoDsym.WriteContainer | tool/prepare_sentry_macos_symbols.py:260-266 | the container extended in place equals the recursive container |
| GoDsym.BuildContainer | tool/prepare_sentry_macos_symbols.py:252-266 | a lone slice as it is, several in a container, or a range error |
| GoDsym.BuildAll | tool/prepare_sentry_macos_symbols.py:251 | all slice images, or the first slice's error |
| GoDsym.ExtractGoDsym | tool/prepare_sentry_macos_symbols.py:242-282 | emit, read back, and accept only a debug image of the same identities |
| GoDsymRoundTrip.HeaderReads | tool/prepare_sentry_macos_symbols.py:230-231 | the written header reads back, whatever surrounds the image |
| GoDsymRoundTrip.SegmentReads | tool/prepare_sentry_macos_symbols.py:233-237 | a written segment command reads back field by field |
| GoDsymRoundTrip.SectionReads | tool/prepare_sentry_macos_symbols.py:226-228 | a written section record reads back with its name, place and alignment |
| GoDsymRoundTrip.SectionsAbsorb | tool/sentry_macho.py:184-201 | the reader takes in every written section and finds its contents inside the segment |
| GoDsymRoundTrip.ImageReads | tool/prepare_sentry_macos_symbols.py:230-239 | an image standing anywhere in a file is read as exactly the layout it was written from |
| GoDsymRoundTrip.ImageBlanks | tool/prepare_sentry_macos_symbols.py:226-237 | every field of an image's commands that no reader looks at is zero: flags, protections, relocations, reserved words |
| GoDsymTheorems.MaterializeMeans | tool/prepare_sentry_macos_symbols.py:202-223 | a section is copied under this name and as these bytes if and only if they are its own in the source or, for a `__zdebug_` one, what the zlib stream behind its `ZLIB` header expands to, exactly as long as that header says |
| GoDsymTheorems.PlacesAll | tool/prepare_sentry_macos_symbols.py:198-229 | sections keep their order and unpacked contents, start at the first place their alignment allows, do not overlap, and have only zeros between them |
| GoDsymTheorems.FirstTextMeans | tool/prepare_sentry_macos_symbols.py:191 | the text base is that of the first segment named `__TEXT` |
| GoDsymTheorems.SelectedInOrder | tool/prepare_sentry_macos_symbols.py:187-188 | the copied sections are the DWARF ones present in the file, all of them and in their order |
| GoDsymTheorems.ImageCopies | tool/prepare_sentry_macos_symbols.py:183-239 | an emitted slice reads back as debug-only, with the item's identity and text base and every DWARF section byte for byte, and holds nothing but zeros around them |
| GoDsymTheorems.OffsetsSpaced | tool/prepare_sentry_macos_symbols.py:255-259 | container slices stand on the first page boundaries that are clear of the table and of each other |
| GoDsymTheorems.SlicesStand | tool/prepare_sentry_macos_symbols.py:263-266 | padding and appending put every slice at its announced offset, with zeros between |
| GoDsymTheorems.FatReads | tool/sentry_macho.py:230-245 | the reader gets the slices of a container back, in order |
| GoDsymTheorems.FatEntriesRead | tool/sentry_macho.py:30-54 | the stricter table reader, with its alignment and CPU checks, accepts the container too |
| GoDsymTheorems.ContainerInspected | tool/sentry_macho.py:215-245 | both readers accept a container of up to 64 slices |
| GoDsymTheorems.EmittedIsRead | tool/prepare_sentry_macos_symbols.py:242-266 | round trip: whatever is emitted for any accepted source is accepted and copies every slice; a container holds its images on the first free pages and zeros between |
| GoDsymTheorems.ExtractAccepts | tool/prepare_sentry_macos_symbols.py:276-282 | an emitted image is turned down if and only if a copied DWARF section is named `__text` |
| GoDsymTheorems.SourceIsNeverTruncated | tool/prepare_sentry_macos_symbols.py:203-205 | the truncation error cannot happen on a source the reader accepted |
| GoDsymTheorems.TextSectionIsRejected | tool/prepare_sentry_macos_symbols.py:278-281 | a concrete source that is emitted and then turned down |
| GoDsymSuccess.MaterializeFails | tool/prepare_sentry_macos_symbols.py:209-222 | a section that is whole fails only when compressed: as oversize by the length its header announces, as invalid otherwise |
| GoDsymSuccess.SliceFails | tool/prepare_sentry_macos_symbols.py:185-193 | what a slice lacks is reported in order: its kind, its debug sections, its text base |
| GoDsymSuccess.PlacingSucceeds | tool/prepare_sentry_macos_symbols.py:198-229 | laying out succeeds if and only if every section unpacks to at most 512 MiB under an ASCII name and the aligned whole, sized by what the headers announce, stays within 1 GiB |
| GoDsymSuccess.SliceSucceeds | tool/prepare_sentry_macos_symbols.py:183-239 | one image is written if and only if its slice is a little-endian x86_64 or arm64 one with a UUID, `__TEXT`, both debug kinds and copyable sections |
| GoDsymSuccess.ContainerSucceeds | tool/prepare_sentry_macos_symbols.py:254-266 | the at most two slices always fit a container |
| GoDsymSuccess.EmitSucceedsExactly | tool/prepare_sentry_macos_symbols.py:242-266 | below 2 GiB the writer succeeds if and only if the source is an accepted executable with suitable slices, and packs no number out of range |
| GoDsymSuccess.ExtractSucceedsExactly | tool/prepare_sentry_macos_symbols.py:242-282 | the whole extraction succeeds if and only if, besides, no copied section is named `__text` |
| ResourceSelection.ParseResourceConfiguration | tool/check_android_release_contract.py:57-71 | the token loop equals the recursive parse: axes once, API level the last one wins |
| ResourceMeaning.LabelMeans | tool/check_android_release_contract.py:57-71 | a label is modelled if and only if its tokens are known and set no axis twice, and then stands for exactly those, with the last API level named |
| ResourceMeaning.AdmitsMeans | tool/check_android_release_contract.py:103-106 | a device is admitted if and only if it has the last API level named and every axis the way its token says |
| ResourceMeaning.OutranksMeans | tool/check_android_release_contract.py:109-113 | a label outranks another by the axes it names, direction over orientation over night, and by its API level only among equals |
| ResourceMeaning.DensitiesMean | tool/check_android_release_contract.py:93-97 | density labels, told by their tokens, give the first value the API level admits, or nothing if and only if it admits none |
| ResourceMeaning.SelectMeans | tool/check_android_release_contract.py:84-97 | when all values lead to the same usable place the default is taken, or the first admitted density; any other choice goes by the ranking |
| ResourceMeaning.FirstWinnerIsTaken | tool/check_android_release_contract.py:113-117 | of the values that win, the one whose label comes first |
| ResourceMeaning.ShortcutsAgree | tool/check_android_release_contract.py:84-117 | whenever qualified selection decides, the shortcuts decide for a value that leads to the same place |
| ResourceSelection.SelectsTheBest | tool/check_android_release_contract.py:98-117 | qualified selection returns a value nothing applicable outranks, is uncertain exactly when a label is unsupported or the best disagree, and finds nothing exactly when nothing applies |
| ResourceSelection.SampleSpeaks | tool/check_android_release_contract.py:153-171 | for every device at `min_sdk` or above some sampled device selects the same value of every resource |
| ResourceSelection.SelectResourceValue | tool/check_android_release_contract.py:84-117 | the selection loop with its shortcuts equals the selection function |
| ResourceGraph.RejectedStep | tool/check_android_release_contract.py:197-208 | a chain is rejected if and only if it is bad here or leads to a rejected one, endless chains included |
| ResourceGraph.DoubtfulStep | tool/check_android_release_contract.py:200-207 | a chain ends unmodelled if and only if it does so here or further on |
| ResourceGraph.ClosedMarks | tool/check_android_release_contract.py:208 | ids that only lead to each other have endless chains: rejected and not doubtful |
| ResourceGraph.Explore | tool/check_android_release_contract.py:172-196 | the worklist ends and has visited and linked everything the roots lead to |
| ResourceGraph.Propagate | tool/check_android_release_contract.py:203-207 | marking the referrers of a resolved id keeps the peel's invariant |
| ResourceGraph.PeelEnds | tool/check_android_release_contract.py:199-208 | what the peel never reaches is endless |
| ResourceGraph.Peel | tool/check_android_release_contract.py:197-208 | the peel ends with an id invalid if and only if its chain is bad, conflicting or endless, and unknown if and only if it ends unmodelled |
| ResourceChains.NodeMeans | tool/check_android_release_contract.py:180-196 | what one id leads to, told by its selected value: a reference outside the platform's package, a good end, a bad one, or an unmodelled one |
| ResourceChains.RejectedMeans | tool/check_android_release_contract.py:172-208 | an id is rejected if and only if a path of references leads from it to a conflict or a bad end, or paths from it are never done |
| ResourceChains.DoubtfulMeans | tool/check_android_release_contract.py:185-187 | an id is doubtful if and only if a path leads to a value whose selection is not modelled |
| ResourceChains.WorksOtherwise | tool/check_android_release_contract.py:172-208 | an id is neither if and only if a finite path without conflict leads from it to a usable value |
| ResourceVerdict.ConfigAtMeans | tool/check_android_release_contract.py:126-131 | the configuration in force is that of the last header, or the default before any |
| ResourceVerdict.PutKeepsOrder | tool/check_android_release_contract.py:143-146 | the labels of a resource keep the order in which they were first met |
| ResourceVerdict.ClashStep | tool/check_android_release_contract.py:140-146 | two lines clash after one more line if and only if they did before or the new one contradicts an earlier one |
| ResourceVerdict.ConflictStep | tool/check_android_release_contract.py:140-146 | comparing with the last name and stored value alone finds every clash |
| ResourceVerdict.DumpReads | tool/check_android_release_contract.py:123-148 | after the reading loop the ids, values, roots and conflicts are exactly what the lines say |
| ResourceVerdict.ReadDump | tool/check_android_release_contract.py:127-148 | the reading loop |
| ResourceVerdict.SameClass | tool/check_android_release_contract.py:151-154 | devices that select alike classify every chain alike |
| ResourceVerdict.SampleDecides | tool/check_android_release_contract.py:153-171 | a resource fails on some supported device if and only if it fails on a sampled one |
| ResourceVerdict.TryDevice | tool/check_android_release_contract.py:170-211 | one sampled device: exactly the resources of which a path breaks or is left open on it |
| ResourceVerdict.VerifyCrispResources | tool/check_android_release_contract.py:120-217 | returns normally if and only if the lines list every expected resource under one id and, for every device at `min_sdk` or above, a finite path of references leads from it past no conflict to a usable value; otherwise names exactly the resources that miss this |
| IpcFraming.FrameLayout | core/server.go:58-59 | the four length bytes, least significant first, and the data behind them |
| IpcFraming.OversizeEnds | core/server.go:127-130 | reading ends with an oversize header if and only if its four bytes say more than 64 MiB |
| IpcFraming.Receive | core/server.go:122-136 | repeated frame reads collect exactly the frames of the stream |
| IpcFraming.ResumingWriter.Write | core/server.go:73-104 | accepts a prefix, waits out any number of deadlines that can be set again once something is written, and stops only for the reason the last answer gives |
| IpcFraming.ResumingWriter.WriteAll | core/server.go:106-120 | everything, or a prefix with the reason the last answer gives; nothing is asked after a hard error or a lost deadline |
| IpcFraming.ResumingWriter.WriteFrame | core/server.go:54-66 | the wire grows by a prefix of the encoded frame, the whole of it unless it fails; a frame above 64 MiB is refused unasked |
| IpcFraming.Host.Send | core/server.go:138-169 | the connection is kept, as it was, when nothing of the frame went out or all of it did without an error; it is closed and given up when a failure left part of the frame on the wire |
| IpcSync.SendIsThreeSteps | core/server.go:138-169 | the machine's begin, accept and finish leave a connection as a returned send does, record it, and touch no other |
| IpcSync.ClosedExactlyWhenTorn | core/server.go:158-168 | in every run without a shutdown a connection is closed if and only if a send failed on it with bytes on the wire, and the current one never is |
| IpcSync.EveryRunIsInSync | core/server.go:54-169 | in every run each connection holds what its sends wrote, and a torn one is closed, unused and written no more |
| IpcSync.TornReads | core/server.go:122-136 | what the reader reports for a frame cut after any number of bytes |
| IpcSync.FramesRead | core/server.go:122-136 | reading frames and a torn one returns exactly the frames |
| IpcSync.StreamsReadBack | core/server.go:54-169 | in every reachable state every connection holds whole frames in send order and at most one unfinished one, reads back as those frames, and is closed if that one is not being written |
| IpcSync.DroppedLeavesNothing | core/server.go:158-161 | a frame dropped on a connection still in use left no byte |
| MessageBatcher.Channel.EnqueueState | core/message.go:69-76 | queued if and only if there was room, nothing pushed out |
| MessageBatcher.Channel.EnqueueLatest | core/message.go:78-92 | the newest message gets in, at the cost of the oldest ones when full, unless other producers take the freed slot three times in a row |
| MessageBatcher.SendMessage | core/message.go:37-67 | every kind of message goes to its own queue only, and lookup and traffic events never push out a request |
| MessageBatcher.Batcher.FlushBatch | core/message.go:109-123 | a non-empty batch is sent and the deadline disarmed |
| MessageBatcher.Batcher.TakeMessage | core/message.go:125-139 | arms the deadline with the first message and sends a full batch |
| MessageBatcher.Batcher.ReceiveFrom | core/message.go:143-184 | a receive, or the news that the queue is closed, with the burst counter |
| MessageBatcher.Batcher.SelectOnce | core/message.go:142-185 | each of the loop's selects does what the state machine's step says |
| MessageBatcher.StepKeeps | core/message.go:94-186 | every step of producers, closers and batcher keeps conservation |
| MessageBatcher.EveryRunConserves | core/message.go:94-186 | in every run sent batches and the open one concatenate to what was taken, each queue's order is kept, batches hold 1 to 32 messages, and the deadline is armed if and only if the batch is not empty |
| MessageBatcher.SentOnlyWhenDue | core/message.go:135-139 | a batch goes out only with its 32nd message, at the deadline, or at the end |
| MessageBatcher.DeadlineFlushes | core/message.go:181-182 | in every run a deadline taken at the blocking select leaves nothing that was taken unsent, and is set if and only if something is |
| MessageBatcher.IdleFlushes | core/message.go:142-184 | in every run, once the queues are quiet, four selects later everything taken is sent, wherever the loop was |
| MessageBatcher.ClosedQueuesFinish | core/message.go:142-186 | in every run, once the queues are closed, the loop ends within a bounded number of selects that can happen, with the queues empty and all it took sent |
| MessageBatcher.FinishedSentEverything | core/message.go:185-186 | when the loop has ended all that was taken was sent, and a queue nobody evicted from was taken whole |
| MessageBatcher.BulkWindow | core/message.go:149-170 | between any two moments the burst counter pays for the priority messages taken |
| MessageBatcher.PriorityYieldsToBulk | core/message.go:149-170 | while bulk messages wait, at most 8 priority messages are taken before the next bulk one |
| MessageBatcher.BulkYieldsToPriority | core/message.go:149-184 | while priority messages wait, bulk gets at most one turn for eight of them and two more |
| MessageBatcher.StateGoesFirst | core/message.go:143-184 | while state messages wait, at most one other message is taken in all |
| RouteTracker.Tracker.Refresh | core/route.go:93-121 | the record after a refresh, and what is published only when a change counted and the host watches |
| RouteTracker.Tracker.HandleWatch | core/route.go:140-156 | under the lock an outdated call changes nothing, another one decides; a poller is started or cancelled as needed |
| RouteTracker.Tracker.WatchRoute | core/route.go:137-156 | the whole call, its refresh first, when nothing comes between |
| RouteTracker.Tracker.StopWatch | core/route.go:160-173 | a stop takes its place in the call order and cancels the poller |
| RouteTracker.CheckRoutes | core/route.go:210-230 | each host and proxy is resolved at most once; a held route had every hit answered with its exit, any other one a hit answered otherwise; with steady answers verdicts are those of resolving anew |
| RouteRuns.LatestIntentWins | core/route.go:137-173 | in every run the highest stamp that ran decides `watched`, and exactly one poller is live if and only if it is set |
| RouteRuns.QuietMeansLatest | core/method.go:40-51 | once no call waits, `watched` is the latest call's or stop's intent, in whatever order they ran |
| RouteRuns.EveryRunIsVersioned | core/route.go:93-121 | the version counts the refreshes that recorded a change, the epoch the resets, and what is published is one state per recorded change that was watched |
| RouteRuns.PublishedMovesForward | core/route.go:117-127 | published versions strictly increase, epochs never go back |
| RouteRuns.OutdatedCheckIsSeen | core/route.go:208-230 | a reply's version is below the current one if and only if a change was recorded since its stamp; the epoch moves only with the version |
| RouteRuns.NoMoveIsMissed | core/route.go:112-120 | while the host keeps watching every version passed through is published or about to be |
| RouteRuns.CallsTakeEffect | core/route.go:137-166 | a watch call that is dispatched and runs decides, and so does a stop |
| RouteRuns.RefreshGoesThrough | core/route.go:90-121 | a refresh that gets the lock records its reading, counts it, and tells a watching host of a change |
| ExitResolution.ExitThrough | core/route.go:247-259 | the walk ends at the first load balancer or where the way down ends |
| ExitResolution.ExitOfChains | core/route.go:263-277 | the backward loop finds the outermost load balancer of the chain, or else its first hop |
| ExitResolution.ExitsAgreeExactly | core/route.go:247-277 | for every recorded chain both name the same exit if and only if the table holds the hop that decides it |
| ExitResolution.ExitsAgree | core/route.go:247-277 | with every hop in the table both name the same exit |
| RequestTraffic.Watch.Add | core/request_traffic.go:43-56 | the request is stored fresh; a collector is to be started if and only if none was running |
| RequestTraffic.Watch.Collect | core/request_traffic.go:58-90 | the requests left and their totals, one report per changed request, and running if and only if some are left |
| RequestTraffic.CollectionMeans | core/request_traffic.go:58-90 | one collection request by request: which ones stay, with which totals, and how often they have been collected since they closed |
| RequestTraffic.Watch.Clear | core/request_traffic.go:92-97 | nothing is watched any more |
| RequestTraffic.EveryRunIsSettled | core/request_traffic.go:43-125 | in every run requests are watched if and only if one collector lives, and stored totals are the last the host was told |
| RequestTraffic.DroppedIsSettled | core/request_traffic.go:83-87 | a request is let go only when the host knows its counters as just read, or after six refusals in a row |
| RequestTraffic.ClosedIsHeldBriefly | core/request_traffic.go:66-87 | each collection that keeps a closed request counts, was refused, and is one of at most five |
| RequestTraffic.NewIsKept | core/request_traffic.go:43-70 | a request survives the first collection after it was added |
| RequestTraffic.UnheardClears | core/request_traffic.go:105-110 | without a listener every request is forgotten and the collector ends |
| RequestTraffic.OpenIsKept | core/request_traffic.go:65-70 | a request is not let go on its first collection, nor while it is open and has not been counted as closed |
| UpdateClaims.KeysAreApart | core/provider.go:120-123 | no two resources, geo or provider, share a claim key |
| UpdateClaims.Claims.ClaimUpdateAs | core/provider.go:133-141 | a claim is given if and only if none is held, and then marked |
| UpdateClaims.Claims.ReleaseUpdate | core/provider.go:147-151 | the claim is gone, whoever held it |
| UpdateClaims.Claims.ReleaseHookUpdate | core/provider.go:153-159 | only a claim taken for the hook is released |
| UpdateClaims.Claims.OnGeoUpdate | core/geo.go:63-69 | what the hook does to the claims |
| UpdateClaims.EveryRunIsExclusive | core/provider.go:125-159 | in every interleaving a manual claim belongs to the one manual update in flight, and a hook claim to a hook run in flight |
| UpdateClaims.OneManualUpdate | core/provider.go:253-268 | a second manual update of a resource in flight is refused |
| UpdateClaims.HookEndSparesManual | core/provider.go:153-159 | no hook end releases a manual claim |
| UpdateClaims.NothingLeftBehind | core/provider.go:125-159 | a refusal means an update of that resource is in flight, and no claim remains once nothing is |
| UpdateClaims.EndsFree | core/provider.go:147-159 | when an update of the host's ends, or a hook run with none of the host's in flight, the resource can be updated at once |
| UpdateClaims.HookClaimHolds | core/geo.go:63-69 | a claim the hook got keeps manual updates out until a hook run of the resource ends |
| UpdateClaims.HookKeepsOutExactly | core/provider.go:125-141 | a hook run keeps the host's updates of its resource out until a run of it ends if and only if none was in flight when it began |
| UpdateClaims.HookOutlivesManual | core/provider.go:125-159 | from any reachable state, a hook run that begins inside an update of the host's runs on beside the next one |
| YamlAliases.ResolveAlias | core/profile_base.go:241-246 | any finite chain of aliases is followed to its end, a node that is no alias or has no target |
| YamlAliases.Inliner.Walk | core/profile_base.go:340-356 | ends on every sound graph; everything started and not still open is clean, and children only change to what they stood for |
| YamlAliases.InlineAliases | core/profile_base.go:338-356 | everything reachable afterwards, and nothing else, is in the reached set, which is free of aliases and anchors |
| YamlAliases.PathsStayReached | core/profile_base.go:336-337 | no path of children from the root meets an alias |
| YamlAliases.WrittenExactly | core/profile_base.go:336-356 | the inlined graph leads down if and only if following aliases did on the part that was reached |
| YamlAliases.WrittenInFull | core/profile_base.go:336-356 | read without following aliases, the graph is the tree its aliases stood for |
| YamlAliases.InlineKeepsMeaning | core/profile_base.go:336-356 | inlining any parsed graph: it has a written form exactly when the reached part led down, and that form is the unfolded document |
| YamlAliases.CircleNeverDescends | core/profile_base.go:338-356 | a part with a circle has no written form |
| YamlAliases.NoCircleDescends | core/profile_base.go:338-356 | a part without a circle has one |
| YamlAliases.InlineSelfAlias | core/profile_base.go:338-356 | inlining a node whose child is an alias of itself ends with the node as its own child and no written form |
| ConfigEncoder.Encoder.EncodeList | core/profile_base.go:304-315 | a list goes out complete and in order, in slices of 4096 items and the rest, and ends up drained |
| ConfigEncoder.Encoder.EncodeMapping | core/profile_base.go:293-317 | each key is written once, in order, with its value as the draining store then reads it, and the mapping is left drained |
| ConfigEncoder.LongListsAreDrained | core/profile_base.go:304-314 | the lists already written are exactly the drained ones, everything else is untouched |
| ConfigEncoder.ReadsTheSame | core/profile_base.go:291-292 | a node reads as before if and only if no drained list is below it |
| ConfigEncoder.WrittenWhole | core/profile_base.go:291-317 | the mapping comes out whole if and only if no long list is shared with a later key or value |
| ConfigEncoder.WritesToTheEndExactly | core/profile_base.go:291-317 | no drained item is met, so that writing comes to its end, under exactly that condition |
| ConfigEncoder.SharedListIsLost | core/profile_base.go:304-314 | whenever two keys have the same long list for a value, the later one comes out wrong |
| ConfigEncoder.TwiceUsedIsLost | core/profile_base.go:304-314 | a concrete mapping over one list of 4097 items that comes out wrong |
| ConfigDocument.FileIsTheDocument | core/profile_base.go:267-317 | inlining and then encoding writes the parsed document if and only if no long top-level list is, or is inside, a later key or value, aliases followed |
| WindowScan.WindowSees | core/probe.go:368-374 | a window one shorter than the pattern before the new chunk sees every new occurrence, and no other |
| ProbeScan.ReadProbeBody | core/probe.go:359-381 | the loop reads until the test succeeds on the latest chunk and 256 bytes before it, for any test |
| ProbeScan.LimitedMeans | core/probe.go:360 | the limited body is the beginning of everything that arrives |
| ProbeScan.StopsAtOnce | core/probe.go:366-379 | the test held on nothing that arrived before the end of what is read |
| ProbeScan.WindowReadsAsWhole | core/probe.go:359-381 | for a pattern of up to 257 bytes this stops exactly where testing all that was read would |
| ProbeScan.OverlapIsExact | core/probe.go:368-374 | both read the same, for every way the page arrives, if and only if the pattern has at most 257 bytes |
| ProbeScan.LongerIsMissed | core/probe.go:368-374 | any longer pattern whose last byte comes in a chunk of its own is read past |
| ProbeScan.ReadsAPrefix | core/probe.go:359-381 | what is read is the whole limited body, or a prefix on which the test succeeded |
| ProbeScan.RegionCodeMeans | core/service_rules.go:76-82 | the code is the three bytes behind the first `,2,1,200,"`, if and only if there are three |
| ProbeScan.CodeIsPattern | core/service_rules.go:68-71 | the stop test is a search for the marker and three more bytes |
| ProbeScan.SameCodeInPrefix | core/service_rules.go:76-82 | the rest of the page cannot change a code already complete |
| ProbeScan.GeminiCode | core/service_rules.go:67-82 | for every chunking the code found is the one of the whole limited page |
| OutputFeed.Output.TakePart | tool/pub_get_retry.py:85-96 | one part moves the line state exactly as its text does |
| OutputFeed.Output.Feed | tool/pub_get_retry.py:79-102 | emissions are those of all chunks fed so far, carriage returns included; a fixed-length diagnostic of up to 2049 characters is recorded if and only if it occurs |
| OutputFeed.FeedAll | tool/pub_get_retry.py:79-102 | the same for a whole stream: lines chunk by chunk, records from the whole text |
| OutputFeed.FirstLineIsEmitted | tool/pub_get_retry.py:85-96 | a text is emitted line by line, each ended by a carriage return, a newline or both, and only noted when it takes more than 32 KiB |
| OutputFeed.LastLineIsEmitted | tool/pub_get_retry.py:97-102 | what follows the last line end is emitted unless it is empty |
| OutputFeed.ChunksDoNotMatterExactly | tool/pub_get_retry.py:85-102 | the emitted lines are those of the whole text if and only if no chunk boundary splits a carriage return from its newline |
| OutputFeed.LongerGoesUnrecorded | tool/pub_get_retry.py:81-84 | any diagnostic of more than 2049 characters can be missed |
| OutputFeed.ScanRecords | tool/pub_get_retry.py:81-84 | the kept tail makes the chunk scan equal to a scan of everything |
| BuildCounter.TextReadsBack | tool/release_build_number.py:84 | a written counter parses back to the number |
| BuildCounter.IntegerMeans | tool/release_build_number.py:24-27 | the accepted texts are exactly the decimal forms of the numbers from 1 to the maximum, in ten digits at most |
| BuildCounter.ResolveMeans | tool/release_build_number.py:30-35 | a run's number is the counter's, or a requested one that is not below it, both from 1 to 65535 |
| BuildCounter.PlanMeans | tool/release_build_number.py:72-90 | when a fetched tip ends the publication, as sufficient or failed, and which commit is proposed on it otherwise |
| BuildCounter.PlanMoves | tool/release_build_number.py:72-90 | a publication stops only past the built number or proposes exactly its successor, and touches no other brand |
| BuildCounter.Remote.Push | tool/release_build_number.py:91 | a push lands only on the very tip it was prepared for |
| BuildCounter.Publish | tool/release_build_number.py:42-96 | under any interference the branch is only extended, each attempt works on the tip it fetched, at most three are made, only a push that was turned down is followed by another, and success means the counter is past the built number |
| BuildCounter.EveryRunIsConsistent | tool/release_build_number.py:42-96 | in every interleaving the branch extends the initial history and each counter is the greatest of its initial value and one past every landed build |
| BuildCounter.HistoryIsOnlyAppended | tool/release_build_number.py:45-49 | over any stretch of a run history is appended to, counters never decrease, a deleted branch stays deleted |
| BuildCounter.UndisturbedPublishes | tool/release_build_number.py:70-94 | from any reachable state, a publisher nobody comes between ends as planned for the tip it found |
| BuildCounter.ThreeAttempts | tool/release_build_number.py:70-96 | a publisher whose pushes never reach the server tries three times, leaves the branch alone, and then fails |
| BuildCounter.PublishedIsNeverReused | tool/release_build_number.py:30-39 | resolving from the branch never returns a number published before |

## Left out

- GoDsym.ExtractGoDsym: paths, the bundle's property list and replacing an existing destination are left out, and zlib is an arbitrary function from bytes to bytes or an error.
- GoDsymSuccess.EmitSucceedsExactly: sources of 2 GiB and more are not covered; for them a number out of range is one of the errors of `Emit`.
- SentryMacho.InspectMacho: static archives inside universal files (`_archive_architectures`) and the magic probe `is_macho` are not part of this model.
- ResourceVerdict.VerifyCrispResources: dump lines, labels and values come in parsed form, since the regular expressions are not modelled; the contract is a parameter; the eight-name limit of the messages is dropped.
- IpcFraming.Host.Send: sockets, clocks and logging are left out; the operating system's answers are a finite script, and a write it never answers stays waiting, so no progress is claimed for the stall loop, which waits on purpose.
- IpcSync.StreamsReadBack: what the peer does with the frames is not modelled.
- MessageBatcher.Channel.EnqueueLatest: other producers are modelled as taking the one slot an attempt frees, not as draining the queue.
- MessageBatcher.SendMessage: stated for a producer that nobody races.
- MessageBatcher.EveryRunConserves: the 16 ms interval is a scheduler choice while the deadline is armed, and no promise is made about when a step happens.
- RouteTracker.Tracker.WatchRoute: other calls between the refresh and the decision are the state machine's business, not this method's.
- RouteRuns.EveryRunIsVersioned: 64-bit wrap-around of versions, epochs and stamps is not modelled, and a reading is any value, taken at one moment while the select lock is held.
- RouteRuns.LatestIntentWins: the refresh inside a watch call may happen at any time in the model, and a watch call whose argument cannot be decoded counts as another call.
- ExitResolution.ExitThrough: unwrapping is an arbitrary function without circles, and an exit is its name, type and address rather than their formatted text.
- RequestTraffic.Watch.Collect: the manager's open connections, the counters read and whether a report is taken are inputs of a collection.
- UpdateClaims.EveryRunIsExclusive: what an update does, its error classification and the lookup of the resource are left out.
- YamlAliases.InlineAliases: kind, value and alias target of a node are fixed; tags, styles, comments and line numbers are not modelled.
- ConfigEncoder.Encoder.EncodeMapping: works on a store of node values rather than on nodes in the heap, pieces are trees rather than YAML text, a drained item is a missing tree where the encoder would fail, and a list's own tag and style are not kept.
- ProbeScan.GeminiCode: the 32 KiB read size and the network are left out (any chunking is allowed), as are checking the code's letters and mapping it to a region and a status.
- OutputFeed.Output.Feed: UTF-8 decoding and masking are left out, and diagnostics are fixed-length patterns of per-character tests.
- BuildCounter.Publish: Git is a chain of commits with a compare-and-swap push; the checks of the ref name and of the checkout are left out, and commits of others leave the counters alone.
- Merging a profile (`mappingValue`, `setMappingValue`, `appendRules`): lookups and list appends that would only add easy members.
- Renaming release artifacts and the manifest check in tool/release_pipeline.py: not modelled.
- Service checks other than the Gemini scan, share links, Sentry uploads, packaging and the platform runners: input or output, or code that lives elsewhere.
