# Verified models of the tactical gateway

The repository ingests tactical data (CoT XML and TAK protobuf streams, KMZ and OVL overlays), captures every raw
message in a hash-chained object store, normalizes it to Common Tactical Objects (CTOs), and keeps the current picture
in an operational store with a query interface. This project models the parts of it that hold state or carry a law, in
Dafny, and proves what they keep: for every byte stream, every tree, every run and every table.

`dafny verify dfyconfig.toml` checks the project.

| files | part of the system |
|---|---|
| `Bits`, `CotPbFraming`, `CotPbListener`, `Listener` | TAK protobuf frames over TCP: the varint codec, the connection's buffer loop, the counters |
| `CotXmlFraming`, `CotXmlCutting` | concatenated CoT XML events over TCP, and when the way they are cut into reads matters |
| `Text`, `CotDetail` | whitespace stripping; the `<detail>` subtree: capture as nested dictionaries, re-emission, the XML/protobuf bridge |
| `HashChain`, `Manifest`, `Capture`, `CaptureRuns`, `CaptureFailures` | the daily hash chain, its JSON-lines manifest, the capture writer, whole runs of it, and where its law ends |
| `Opstore`, `OpstoreRuns`, `OpstoreOrigins`, `Writer`, `Transactions`, `Pipeline` | buffering and flushing, supersession in the table, overlapping transactions, and all of it together |
| `Pagination`, `PaginationFilters` | the keyset-paged query |
| `Geometry`, `Sidc`, `Ovl`, `Kml` | geometry from overlay graphics and placemarks against the schema's validator |
| `Recognizer`, `RecognizerLayers` | the KMZ label recognizer |
| `Uuid7` | UUID version 7 (section 5.7 of RFC 9562) |
| `Seqs` | shared sequence facts |

Objects whose methods update fields are classes here too (`Connection`, `ListenerStats`, `CaptureWriter`, `Bucket`,
`Service`, the database `Connection`, `Builder`); each method's postcondition gives the new state as a function of the
old one, and the laws are lemmas about those functions.

What is left to libraries enters as a parameter: SHA-256, UTF-8, JSON, the XML parser and serializer, coordinate
parsing, the database's geometry and pattern operators. Where a law needs such a parameter to behave (a decoder that
inverts its encoder, a hash without collisions on the values at hand), that is a `requires` of the lemma.

## Findings

Laws that hold only under a condition, with the exact condition:

- Frames: lengths from 2^42 on are refused as "varint too long"; below, every frame decodes (`RoundTrip`).
- XML framing: the reads into which a stream is cut can change which payload is refused. For a given stream they
  cannot exactly if each piece, from the second event on, is decided alike by parser and handler wherever its leading
  whitespace is cut, within what one read of 4096 bytes can hold (`CuttingHarmlessIff`). For a parser, no stream can
  be harmed exactly if it ignores leading whitespace (`ChunkingIrrelevantIff`); XML itself does not allow whitespace
  in front of an XML declaration.
- Detail trees: everything survives exactly if no attribute name starts with an underscore (`SurvivesIffClean`).
- Capture: after a failed manifest put the line stays in memory and the tip does not advance. Over any run, all stored
  manifests verify exactly if no manifest put takes effect on that day before the chain is reloaded by a restart or
  through another day (`ManifestsVerifyIff`, for runs in which no entry hashes to the value it continues from).
- Operational store: an object delivered again is retired by its own batch and not inserted again, so "current rows =
  batch" holds exactly for uids never stored before (`CurrentIsBatchIffFresh`). It holds per batch, not per file: the
  current rows are a whole ingest exactly if it was flushed in one batch (`IngestSupersedesItself`).
- Buffer keys: objects of two channels can share a buffer exactly if the channels differ and print alike, or one ends
  in a colon and the other (`ChannelsMixIff`). The gateway's own channels never do (`OwnChannelsNeverMix`).
- Overlapping writes: a flush that is cancelled at shutdown leaves its transaction running beside the next one. When a
  batch of an overlay commits, the current rows are exactly that batch if and only if no other batch of the overlay
  has committed since it started (`CommittedOverlayIsCurrent`); otherwise both stay current (`OverlapKeepsBoth`).
- Shutdown: every valid message of a key is counted as written exactly if all its earlier batches were, each final
  flush of the key succeeds, none of its messages comes late for those, and none is drained afterwards
  (`ShutdownWritesIff`).
- Geometry: a ring of three vertices that is already closed is built and then refused by the schema (`AcceptedIff`,
  `PlacemarkOutcome`). A KMZ polygon starts with its outer ring exactly if the outer boundary has three points; with
  fewer the first hole stands in its place (`HoleTakesOuterPlace`, and a placemark that does so in `HoleAsOutline`).

Where the code and its documentation disagree, the models follow the code:

- `function_code` removes every dash, its docstring says trailing ones (`OnlyTrailingDashesIff`,
  `InnerDashClassified`).
- `_read_one_xml_event` finds only `</event>`; its docstring also promises a closing tag with whitespace before `>`.
  The first documented tag is the one found exactly if nothing stands before its `>` (`FindsDocumentedIff`);
  `<event></event >` ends as a truncated event (`SpacedEventUnread`).
- `_prefix_word("BNDRY|BOUNDARY")` puts the word boundary on the second alternative only, so a label that merely
  starts with BNDRY matches. Pattern and documentation agree exactly on the other labels (`BoundaryAsDocumentedIff`).
- The prefix table's comment calls its order significant; no label matches two entries (`TableOrderIrrelevant`).

## Model

| member | source | states |
|---|---|---|
| CotPbFraming.EncodeFrame | services/gateway/normalizers/cot_pb.py:68-84 | the seven-bits-at-a-time loop writes magic, the varint of the length, magic, payload |
| CotPbFraming.SplitSevenBits | services/gateway/normalizers/cot_pb.py:75-80 | the mask, shift and OR of one encoding step are remainder, quotient and addition |
| CotPbFraming.AddDigit | services/gateway/normalizers/cot_pb.py:110-113 | OR-ing in a shifted group adds it, because the bits are disjoint, and the stop bit is found |
| CotPbFraming.TryDecodeFrame | services/gateway/normalizers/cot_pb.py:87-124 | the loop over length, shift and index gives the frame, the error or "incomplete" that the buffer's continuation run and varint value determine |
| CotPbFraming.DecodeFrameIff | services/gateway/normalizers/cot_pb.py:87-124 | a frame with this payload and size is returned if and only if the buffer starts with a well-formed frame of that payload |
| CotPbFraming.DecodeStable | services/gateway/normalizers/cot_pb.py:87-124 | a decoded frame, or an error, survives any extension of the buffer |
| CotPbFraming.IncompleteIff | services/gateway/normalizers/cot_pb.py:87-124 | "incomplete" is returned exactly while the buffer is a proper prefix of some well-formed frame |
| CotPbFraming.RoundTrip | services/gateway/normalizers/cot_pb.py:68-124 | decoding an encoded frame plus any suffix returns payload and frame length below 2^42 bytes, and "varint too long" from there on |
| CotPbFraming.MalformedIff | services/gateway/normalizers/cot_pb.py:95-120 | which error a buffer raises, byte by byte: the first byte is not 0xBF; or six continuation bytes follow it; or the byte behind a varint of up to six bytes is not 0xBF |
| CotPbFraming.PrefixIncomplete | services/gateway/normalizers/cot_pb.py:68-124 | every proper prefix of an encoded frame is incomplete |
| CotPbFraming.EncodeIsShortest | services/gateway/normalizers/cot_pb.py:68-124 | the encoder's frame is the one shortest frame that decodes to the payload |
| Bits.OrIsAddition | services/gateway/normalizers/cot_pb.py:111 | OR with a value shifted past every bit present is addition |
| Listener.ListenerStats.HandleMessage | services/gateway/listeners.py:173-193 | one message moves the shared counters by its outcome and sets the time of the last message |
| Listener.ListenerStats.EveryMessageCounted | services/gateway/listeners.py:370-397 | what a connection adds to the counters accounts for each of its messages once, as normalized, in error or raised |
| CotPbListener.Connection.DrainBuffer | services/gateway/listeners.py:350-361 | the inner loop delivers every complete frame of the buffer, cuts it down to the rest, and counts a framing error once |
| CotPbListener.Connection.HandleClient | services/gateway/listeners.py:336-361 | the read loop delivers what the session specification says, from any buffer and any reads |
| CotPbListener.DrainInTwo | services/gateway/listeners.py:343-361 | draining early and again with more bytes is draining once |
| CotPbListener.ChunkingIrrelevant | services/gateway/listeners.py:343-361 | two ways of cutting one stream into non-empty reads deliver the same payloads in the same order and end alike, leftover included |
| CotPbListener.EncodedStreamDelivered | services/gateway/listeners.py:343-361 | encoded frames, cut up in any way, deliver exactly their payloads, empty ones too, with nothing left over |
| CotPbListener.DeliveredAreFrames | services/gateway/listeners.py:343-361 | any stream is one frame per delivered payload, in order, and a rest; the handler raised exactly if it did on the last payload, and then on no other; otherwise the connection failed exactly if the rest is malformed, with that error, and stays open exactly if the rest is incomplete, with it as its buffer |
| CotPbListener.SessionStands | services/gateway/listeners.py:342-361 | the same of a whole connection, for all reads up to the first empty one |
| CotXmlFraming.Connection.ReadOneXmlEvent | services/gateway/listeners.py:59-113 | one read: cut behind the first closing tag, drop the whitespace already there, validate, else read on or end |
| CotXmlFraming.Connection.HandleClient | services/gateway/listeners.py:147-171 | the client loop delivers what the session specification says and counts a stream error once |
| CotXmlFraming.SessionReads | services/gateway/listeners.py:77-113 | whatever the reads, the outcome is a reading of the byte stream alone |
| CotXmlFraming.EofEnds | services/gateway/listeners.py:105-113 | an empty read ends the stream, whatever might come behind it |
| CotXmlFraming.ReadsTiles | services/gateway/listeners.py:77-113 | stream = payloads, each behind dropped whitespace, plus a rest, in order; each payload holds the closing tag once, as its suffix |
| CotXmlFraming.FindsDocumentedIff | services/gateway/listeners.py:68-82 | the first closing tag the docstring promises to find is found if and only if no whitespace stands before its `>` |
| CotXmlFraming.SpacedTagsUnread | services/gateway/listeners.py:77-110 | a stream all of whose closing tags hold whitespace delivers no event, however it is cut |
| CotXmlFraming.SpacedEventUnread | services/gateway/listeners.py:77-110 | such a stream of one event, which ends as a truncated one |
| CotXmlCutting.ChunkingAgrees | services/gateway/listeners.py:77-113 | two ways of cutting one stream give payloads equal up to leading space, tab, CR, LF, and the same end if both got to the end of the stream or the stream is a harmless one |
| CotXmlCutting.CuttingHarmlessIff | services/gateway/listeners.py:77-113 | exactly for which streams all ways of cutting them into reads of up to 4096 bytes agree, in terms of the pieces between closing tags |
| CotXmlCutting.TwoEventsCutAnywhere | services/gateway/listeners.py:87-104 | whitespace between two events can be cut off at any point within a read, and the second payload starts there |
| CotXmlCutting.ChunkingIrrelevantIff | services/gateway/listeners.py:87-99 | exactly for which parsers all streams are harmless: those that ignore leading whitespace |
| CotDetail.DetailToAttributes | services/gateway/normalizers/cot_xml.py:127-153 | the loop fills the dictionary child by child, promoting an entry to a list at its second child |
| CotDetail.StoredForTag | services/gateway/normalizers/cot_xml.py:146-152 | what is stored under a tag: nothing, its only child, or the list of its children in order |
| CotDetail.StoredNode | services/gateway/normalizers/cot_xml.py:138-145 | what is stored for a child: its attributes in order, its stripped text under _text if any is left, its children's dictionary under _children if there are any |
| Text.StripIff | services/gateway/normalizers/cot_xml.py:142-143 | stripping takes all the whitespace at both ends and nothing else |
| CotDetail.EmitDetailNode | services/gateway/normalizers/cot_xml.py:407-423 | appends the elements of a stored value to the parent and changes nothing else of it |
| CotDetail.EmitRest | services/gateway/normalizers/cot_pb.py:300-317 | the restore loop emits the stored items whose tags are not already present |
| CotDetail.RestoreInto | services/gateway/normalizers/cot_xml.py:394-403 | after the typed elements come the stored items of all other tags |
| CotDetail.EmitCapture | services/gateway/normalizers/cot_xml.py:127-153 | re-emitting a captured tree gives its canonical form at any depth: same attributes, stripped text, children grouped by tag |
| CotDetail.GroupingKeepsTags | services/gateway/normalizers/cot_xml.py:146-152 | for each tag the ordered list of children is kept |
| CotDetail.CaptureEmitCapture | services/gateway/normalizers/cot_xml.py:407-423 | capture(emit(capture(t))) = capture(t), key order and one-versus-list shape included |
| CotDetail.SurvivesIffClean | services/gateway/normalizers/cot_xml.py:414-414 | all that is promised survives, at every node, if and only if no attribute name starts with an underscore |
| CotDetail.XmlDetailRestored | services/gateway/normalizers/cot_xml.py:394-403 | XML to CTO to XML: a tag written from typed fields carries only those elements, every other tag its original children |
| CotDetail.BridgeKeepsDetail | services/gateway/normalizers/cot_pb.py:322-338 | XML to CTO to protobuf to CTO keeps the stored detail for every tag but contact and track |
| HashChain.HashedTextIs | libs/cto_schema/src/cto_schema/hashchain.py:72-75 | the one text that is hashed: previous hash, newline, content hash, newline, then the ISO time with its date in decimal |
| HashChain.LinkedIffGenuine | libs/cto_schema/src/cto_schema/hashchain.py:100-115 | the linked chains are the genuine ones, for any hash function |
| HashChain.VerifyChain | libs/cto_schema/src/cto_schema/hashchain.py:100-115 | accepts exactly the genuine chains, in which each entry hash is that of the entry's own text and each previous hash the entry hash before, 64 zeros at first; otherwise names the first break and its kind |
| HashChain.LinkedSnoc | libs/cto_schema/src/cto_schema/hashchain.py:78-97 | a chain stays accepted with one more entry exactly if that continues the tip and hashes its inputs |
| HashChain.HashInputInjective | libs/cto_schema/src/cto_schema/hashchain.py:72-75 | the newline-joined hash input determines its three parts |
| HashChain.TamperEvident | libs/cto_schema/src/cto_schema/hashchain.py:100-115 | two accepted chains with the same last entry_hash have the same length and agree on every hashed field, if the hashed texts do not collide and miss the genesis value |
| Manifest.BodyIs | services/gateway/capture.py:217-217 | a manifest's text is its lines, each with a newline behind it |
| Manifest.SplitBody | services/gateway/capture.py:168-172 | splitting the joined manifest lines gives the lines back |
| Manifest.ReadWritten | libs/cto_schema/src/cto_schema/hashchain.py:46-69 | a written manifest reads back as its entries |
| Capture.KeysAre | services/gateway/capture.py:43-57 | raw/, the date in decimal, then protocol, first two characters of the hash and hash, or manifest.jsonl |
| Capture.ManifestKeyInjective | services/gateway/capture.py:53-57 | each day has its own manifest key |
| Capture.RawKeys | services/gateway/capture.py:43-50 | raw objects never land on a manifest, and share a key only with equal hashes |
| Capture.Bucket.Put | services/gateway/capture.py:198-206 | a put takes effect, is lost, or takes effect and still raises |
| Capture.CaptureWriter.RollChainIfNeeded | services/gateway/capture.py:155-181 | loads or starts the chain of the capture's day, and what stays when that fails |
| Capture.CaptureWriter.AppendManifestLine | services/gateway/capture.py:208-218 | the line is in memory whether or not the put succeeds; the whole manifest is rewritten |
| Capture.CaptureWriter.Capture | services/gateway/capture.py:89-136 | one capture as a step on store and writer, with every failure between its puts |
| CaptureRuns.CaptureKeepsInv | services/gateway/capture.py:105-136 | each capture keeps every day's manifest a good chain, and the writer in step with it unless a manifest put failed, except the capture that breaks it in ManifestsVerifyIff |
| CaptureRuns.OutcomeIs | services/gateway/capture.py:105-136 | exactly how a capture ends, by whether the day's manifest must be and can be read and how the two puts end; when it is captured, what the returned entry records; and that the raw object is stored |
| CaptureRuns.CaptureAppends | services/gateway/capture.py:116-136 | under the same exception, one capture appends at most its own entry to its day's manifest and touches no other day |
| CaptureRuns.LedgerRecordsCaptures | services/gateway/capture.py:112-136 | a day's ledger has one entry per capture that took effect, in order, with its hash, size, time, protocol and key |
| CaptureRuns.EveryManifestVerifies | services/gateway/capture.py:105-136 | over any run in which no manifest put takes effect on a pending day: each manifest reads back as its ledger, verifies, and every entry's object is there with its hash and size |
| CaptureFailures.FailedManifestPutIsPending | services/gateway/capture.py:134-136 | after a failed manifest put the line is in memory and the tip is still the old one |
| CaptureFailures.AfterFailedManifestPut | services/gateway/capture.py:134-136 | then a successful capture on another day keeps the store good; on the same day the written manifest verifies only if the pending entry's hash is its own predecessor |
| CaptureFailures.AnyCapture | services/gateway/capture.py:105-136 | any capture at all: stored manifests only grow, the writer's lines extend its day's manifest, and a put on a pending day breaks the chain |
| CaptureFailures.ManifestsVerifyIff | services/gateway/capture.py:105-136 | over any run, all stored manifests verify if and only if no manifest put took effect on a pending day |
| Opstore.KeyDeterminesOrigin | services/opstore/main.py:92-97 | equal buffer keys mean same filename and source, or same stream; overlay and stream keys never meet |
| Opstore.OneKeyPerOrigin | services/opstore/main.py:92-97 | objects of one file and channel, or of one stream, have the same key, whatever the channels are called |
| Opstore.SameKeyIffSameOrigin | services/opstore/main.py:92-97 | with well-named channels two objects share a key if and only if they are of one file and channel, or of one stream |
| Opstore.ChannelsMixIff | services/opstore/main.py:92-97 | exactly which channels can share a buffer |
| Opstore.OwnChannelsNeverMix | libs/cto_schema/src/cto_schema/models.py:49-55 | the gateway's own channels, or none, never share one |
| Opstore.Service.HandleMessage | services/opstore/main.py:78-100 | counts, and buffers a valid message behind its key's queue, starting a window if that was empty |
| Opstore.Service.BeginFlush | services/opstore/main.py:120-124 | both pops, and the batch they return |
| Opstore.Service.FinishFlush | services/opstore/main.py:125-135 | the batch is counted as written or as failed |
| Opstore.Service.FlushEach | services/opstore/main.py:115-118 | a flush loop over given keys with messages arriving during its awaits |
| OpstoreRuns.HistoryIs | services/opstore/main.py:78-100 | the arrivals that the laws below speak of are the valid messages of the run, in order with their times; the others are counted as failed |
| OpstoreOrigins.OriginNeverSplit | services/opstore/main.py:92-128 | in every run, per file and channel or stream: its objects in the batches in flush order, then those in one buffer, are its arrivals in order, and no other buffer has any |
| OpstoreOrigins.OriginsKeptApart | services/opstore/main.py:92-135 | with well-named channels no batch and no buffer mixes origins, and a buffer is ready exactly 200 ms after its origin's first unflushed arrival |
| OpstoreRuns.NothingLostOrReordered | services/opstore/main.py:78-128 | in every run, per key: batches in flush order then buffer = valid messages in arrival order; start times exist exactly for non-empty queues and are the oldest message's |
| OpstoreRuns.EveryMessageAccountedFor | services/opstore/main.py:78-135 | received = written + failed + buffered + in flight + cancelled; written is what is in batches that were written, failed what is in batches that failed and the invalid messages |
| OpstoreRuns.FateSettledOnce | services/opstore/main.py:125-143 | a taken batch keeps its key and objects, and the first step that ends it settles its fate |
| OpstoreRuns.FlushTakesAll | services/opstore/main.py:120-124 | a flush takes everything that has arrived for its key |
| OpstoreRuns.ReadyMeansWindowOver | services/opstore/main.py:102-113 | a key is ready exactly if its oldest waiting message has waited 200 ms |
| OpstoreRuns.FlushPassIsRun | services/opstore/main.py:102-118 | a flush loop is a run of single steps, so every law of runs holds after it |
| OpstoreRuns.FlushPassLeaves | services/opstore/main.py:115-118 | the exact queue of each key after a flush loop |
| OpstoreRuns.FinalFlushLeavesIff | services/opstore/main.py:115-118 | after flushing all buffered keys a key still has messages if and only if one arrived during an await and the key is not flushed again |
| OpstoreRuns.ShutdownLeavesIff | services/opstore/main.py:58-69 | what the whole shutdown leaves in the buffers: late messages, and what the draining of the subscription delivers |
| OpstoreRuns.ShutdownWritesIff | services/opstore/main.py:58-69 | exactly when a shutdown has counted every valid message of a key as written |
| Writer.Connection.SupersedePrior | services/opstore/writer.py:147-205 | retires exactly the current rows of the overlay, and logs their number if there are any |
| Writer.Connection.InsertCtos | services/opstore/writer.py:208-218 | inserts row by row, skipping stored uids, and returns how many rows were added |
| Writer.Connection.WriteCtosWithSupersession | services/opstore/writer.py:221-245 | supersedes by the first object if it names an overlay, then inserts; both counts |
| Writer.InsertsFirst | services/opstore/writer.py:208-218 | of several objects with one new uid the first is stored |
| Writer.OverlayReplaced | services/opstore/writer.py:221-245 | after an overlay batch the overlay's current rows are its new objects, its former ones are retired at the batch's time, all else is untouched |
| Writer.OverlayWritten | services/opstore/writer.py:160-245 | the same row by row, on file name, source and end time alone: which rows get an end, and which objects are added |
| Writer.OverlayLogged | services/opstore/writer.py:178-205 | the audit log gets one entry with file, source, time, uri and the number of rows ended, if there are any |
| Writer.CurrentIsBatchIffFresh | services/opstore/writer.py:221-245 | the current rows are the batch if and only if none of its uids was stored before |
| Writer.IngestSupersedesItself | services/opstore/writer.py:221-245 | of an ingest flushed in any number of batches only the last stays current: the whole ingest if and only if there is one |
| Writer.EarlierBatchesRetired | services/opstore/writer.py:221-245 | the objects of its earlier batches are stored and retired |
| Writer.StreamBatchInserts | services/opstore/writer.py:221-245 | a batch without an overlay changes no row and no audit entry |
| Writer.RowsOnlyRetire | services/opstore/writer.py:147-218 | over any run rows stay, only valid_to changes, once, from unset to set, and the audit log only grows |
| Writer.AuditMatchesRetired | services/opstore/writer.py:147-205 | per overlay the logged counts sum to the number of retired rows |
| Writer.FoundReplaced | services/opstore/writer.py:160-245 | a batch commits after its UPDATE had found some rows: those still current are retired, current ones not found stay |
| Writer.FoundLogged | services/opstore/writer.py:178-205 | and the log gets the number of those retired |
| Writer.CommitAtOnce | services/opstore/writer.py:221-245 | a transaction with none in between is the plain write of the batch |
| Transactions.CurrentIsBatchIffAlone | services/opstore/writer.py:160-176 | among overlapping transactions, current is the batch that commits if and only if no other of its overlay has committed since its UPDATE |
| Pipeline.CommittedOverlayIsCurrent | services/opstore/main.py:120-143 | in every run of buffers and overlapping transactions together: what a committing batch retires, what stays current beside it, when it is exactly the current rows, and that every other row stays |
| Pipeline.OverlapKeepsBoth | services/opstore/main.py:58-69 | a run in which a cancelled flush and the next one overlap, and both batches stay current |
| Pipeline.RunOnlyRetires | services/opstore/writer.py:147-218 | however transactions overlap, rows stay and valid_to is set at most once |
| Pipeline.RunAuditsRetired | services/opstore/writer.py:147-205 | and the logged counts of an overlay sum to its retired rows |
| Pipeline.BatchesDisjoint | services/opstore/main.py:120-128 | with distinct uids no two batches share one, however messages and flushes interleave |
| Pagination.FilterConditions | services/gateway/api_phase2a.py:163-195 | the collected conditions together are the filter; a malformed box is a 400 |
| Pagination.ListCtos | services/gateway/api_phase2a.py:140-234 | one answer: a malformed box or cursor is a 400, else a page and its next cursor |
| PaginationFilters.BadRequestIff | services/gateway/api_phase2a.py:173-200 | a request is turned away if and only if its box does not parse or its cursor is not a time, a bar and a uid |
| PaginationFilters.AnswerIs | services/gateway/api_phase2a.py:160-234 | the items are rows of the table, newest first, that meet each filter's written-out condition and lie behind the cursor; there is no next cursor exactly if they are all such rows; else the page is full, the others are older, and the cursor is the last row's time and uid |
| PaginationFilters.ListingIs | services/gateway/api_phase2a.py:160-234 | following the cursors to the end of a fixed table lists exactly the rows that meet each filter's condition, newest first |
| PaginationFilters.HistoryAddsRetired | services/gateway/api_phase2a.py:163-164 | a default listing is the full one without its retired rows |
| PaginationFilters.EmptyBoxIgnored | services/gateway/api_phase2a.py:177-177 | an empty box is no box |
| Pagination.CursorRoundTrip | services/gateway/api_phase2a.py:222-227 | the cursor handed out leads back to the last row served |
| Pagination.RemainingIs | services/gateway/api_phase2a.py:196-210 | the rows behind a cursor: exactly the matching ones, strictly descending by (event_time, uid) |
| Pagination.WalkIffAnswered | services/gateway/api_phase2a.py:196-234 | a walk is exactly the sequence of answers to the cursors handed out |
| Pagination.NeverServedTwice | services/gateway/api_phase2a.py:196-234 | following next_cursor over a changing table serves no (event_time, uid) twice, and in descending order |
| Pagination.NoUidServedTwice | services/gateway/api_phase2a.py:196-234 | as long as objects keep their event time, no uid is served twice |
| Pagination.ServedExactlyOnce | services/gateway/api_phase2a.py:196-234 | a row present and matching throughout a completed walk is served exactly once |
| Pagination.FixedTablePages | services/gateway/api_phase2a.py:196-234 | on a fixed table the pages are the whole descending list, and the walk is no longer than the list allows |
| Sidc.ClassifyGeometry | services/gateway/ovl/sidc.py:142-160 | the search loop over ever shorter prefixes gives the specified class |
| Sidc.LongestPrefixWins | services/gateway/ovl/sidc.py:142-160 | for any table and code the class is that of the longest usable key, none exactly if no key is usable |
| Sidc.CuratedKeysUsable | services/gateway/ovl/sidc.py:80-121 | in the curated table every key that prefixes the code is usable |
| Sidc.FunctionCodeIs | services/gateway/ovl/sidc.py:134-139 | the function code stands at positions 5 to 10, filled up with dashes, whatever stands around it |
| Sidc.OnlyTrailingDashesIff | services/gateway/ovl/sidc.py:134-139 | removing all dashes is removing the trailing ones exactly if no dash is left inside |
| Sidc.InnerDashClassified | services/gateway/ovl/sidc.py:134-139 | a code with an inner dash is classified as if the dash were not there |
| Geometry.RingClosed | libs/cto_schema/src/cto_schema/models.py:125-141 | closing keeps every vertex in order, adds at most one, closes the ring, and when it is long enough for the schema |
| Ovl.MilbobjectGeometry | services/gateway/ovl/parser.py:175-196 | the coordinates built by the loop, the ring closed if needed, the class and the conflict flag |
| Ovl.VerticesKept | services/gateway/ovl/parser.py:175-196 | every drawn vertex is kept in order with latitude and longitude swapped; a polygon is one closed ring with at most one more |
| Ovl.KindIff | services/gateway/ovl/parser.py:124-145 | up to one vertex is a point, two are a line, more a polygon if and only if the symbol is an area's or the last vertex is the first |
| Ovl.AcceptedIff | services/gateway/ovl/parser.py:124-145 | the schema accepts the result if and only if there is a vertex and it is not a closed ring of three |
| Ovl.ConflictIff | services/gateway/ovl/parser.py:148-168 | the conflict flag in terms of the symbol's class, the number of vertices and whether the drawing is closed |
| Kml.CollectRings | services/gateway/kmz_parser.py:164-192 | the ring loop closes and collects the boundaries of three points or more, or stops at a malformed tuple |
| Kml.ExtractGeometry | services/gateway/kmz_parser.py:140-202 | the branches in order, each returning as soon as it builds something, and the recursion for MultiGeometry |
| Kml.PlacemarkOutcome | services/gateway/kmz_parser.py:140-202 | for every placemark, exactly when it yields nothing, is malformed or is refused; else a geometry of the first kind drawn that the schema accepts and that shows the points of its source, rings closed |
| Kml.FirstRecognized | services/gateway/kmz_parser.py:195-200 | the first child with a recognized tag, and none exactly if no child has one |
| Kml.DirectFind | services/gateway/kmz_parser.py:92-97 | the first child with the tag, and none exactly if no child has it |
| Kml.FindAllIs | services/gateway/kmz_parser.py:79-89 | searching finds the elements with the tag in document order, the root included |
| Kml.RefusedIff | services/gateway/kmz_parser.py:162-192 | a polygon is refused if and only if one of its drawn rings is a closed one of three points |
| Kml.HoleTakesOuterPlace | services/gateway/kmz_parser.py:164-192 | the rings are the outer one and the holes if and only if the outer boundary has three points, and the holes alone if and only if it has fewer |
| Kml.HoleAsOutline | services/gateway/kmz_parser.py:172-172 | a placemark with two outer points and a hole of four is built with the hole as its outline |
| Recognizer.Recognize | services/gateway/kmz_recognize.py:123-221 | the layers in turn: prefix table, target designator, words, route, geometry |
| RecognizerLayers.LayersIff | services/gateway/kmz_recognize.py:123-221 | for every label, shape and context which layer answers and with what: the entry whose prefix is the label's first word or whose boundary word it begins with; else a designator; else the first table word it holds; else route or axis; else the code of the shape |
| RecognizerLayers.LabelIff | services/gateway/kmz_recognize.py:133-138 | every name has one label: the name without surrounding whitespace, or what follows a leading "suspected" and whitespace there |
| RecognizerLayers.HostileIff | services/gateway/kmz_recognize.py:94-94 | a description is hostile if and only if one of five phrases stands in it between word boundaries, in any case |
| RecognizerLayers.FriendlyIff | services/gateway/kmz_recognize.py:95-95 | and friendly if and only if one of four does; "own force" adds nothing to "own" |
| RecognizerLayers.TemplateIs | services/gateway/kmz_prefix_table.py:63-73 | the 15 characters of a template: GUGP, the function code, then dashes; longer codes have none |
| Recognizer.PrefixIsFirstToken | services/gateway/kmz_prefix_table.py:79-80 | a prefix pattern matches exactly if the label's first word is the prefix, in any case |
| Recognizer.BoundaryAsDocumentedIff | services/gateway/kmz_prefix_table.py:83-106 | the boundary pattern is the documented one exactly on labels that do not run on behind BNDRY |
| Recognizer.RunOnBoundary | services/gateway/kmz_prefix_table.py:83-106 | a label that runs on, and matches |
| Recognizer.PrefixLayerIff | services/gateway/kmz_prefix_table.py:91-174 | which entry the prefix layer answers, without reference to the scan |
| Recognizer.PrefixTableIsExclusive | services/gateway/kmz_prefix_table.py:91-174 | at most one entry of the table matches a label |
| Recognizer.TableOrderIrrelevant | services/gateway/kmz_recognize.py:149-166 | any arrangement of the same entries gives the same result for every label, shape and context |
| Recognizer.RecognizedCode | services/gateway/kmz_recognize.py:250-291 | every label gets a code of 15 characters, its template's but for the second, which decodes to the affiliation that the description, the default and a leading "suspected" call for |
| RecognizerLayers.AffiliationWritten | services/gateway/kmz_recognize.py:64-72 | that character is the letter of the affiliation, and the result names the signal that decided it |
| Uuid7.PackIsSum | libs/cto_schema/src/cto_schema/uuid7.py:40-46 | the OR of the shifted fields is their sum, below 2^128 |
| Uuid7.FieldsReadBack | libs/cto_schema/src/cto_schema/uuid7.py:50-57 | variant 10, version 7, timestamp and both random fields read back |
| Uuid7.PackInjective | libs/cto_schema/src/cto_schema/uuid7.py:40-46 | distinct fields give distinct UUIDs |
| Uuid7.GeneratedTimestamp | libs/cto_schema/src/cto_schema/uuid7.py:22-57 | for any clock and random bytes the result is a version 7 UUID, its timestamp is the clock modulo 2^48, and its random fields are the low 12 and 62 bits of the bytes |
| Uuid7.GeneratedInOrder | libs/cto_schema/src/cto_schema/uuid7.py:22-47 | a UUID of an earlier millisecond is smaller, whatever the random bits |

## Left out

- Sockets, asyncio, UDP, NATS, MinIO and PostgreSQL connections: reads are a sequence of chunks, the object store and the table are maps, an await is a point where other steps happen.
- CotDetail.EmitDetailNode: appends an element to its parent when it is complete, while the library appends it first and fills it afterwards; the tree is the same once the call returns.
- CotDetail.BridgeKeepsDetail: that XML text and parsing invert each other is a hypothesis about the elements at hand; the group and status fields of a received protobuf message are not part of this model.
- Listener.ListenerStats.HandleMessage: connections of one listener share its counters one after another; how concurrent ones interleave is not modelled. The handler's outcome and the clock are functions of the message's number.
- CaptureRuns.EveryManifestVerifies: one writer at a time; ManifestsVerifyIff says what its hypothesis on failed puts is for.
- HashChain.TamperEvident: does not cover object_key, size_bytes and protocol, which the entry hash leaves out; a chain cut off at its end is accepted.
- Pipeline.CommittedOverlayIsCurrent: speaks of each batch, not of a whole file; IngestSupersedesItself gives the difference. Transactions follow PostgreSQL's default isolation: an UPDATE sees what was committed when it started, waits for locked rows and looks at them again; deadlocks are not modelled.
- Opstore.Service.Ready: the order in which ready keys are flushed, which is that of the dictionary, is left open; what being ready means is ReadyMeansWindowOver.
- Pagination.ListCtos: times are compared as instants and uids as numbers; the database's geometry predicate and ILIKE, and the text forms of times and uids, are parameters.
- Recognizer.Recognize: labels and descriptions are ASCII; the configured default is a parameter; the texts of reasons and notes are omitted.
- Kml.ExtractGeometry: coordinate tuples are parsed by a parameter, and coordinates are exact numbers, never NaN.
- Tail text of XML elements, which the code does not capture either.
- SHA-256, UTF-8, JSON, XML and zip: parameters, with the properties a lemma needs among its hypotheses.
- Field-by-field construction of CTOs, enum mappings, float formatting and altitude sentinels, WKT text, KMZ archives, the OVL reader, the explicit-SIDC path of the KMZ parser: settled by reading.
- Route matching, health endpoints, settings, logging, folder watchers, migrations, senders and developer tools: thin wrappers or I/O.
