# Verified model of the teleoperation stack's protocols and build tools

This project models, in Dafny, the parts of the repository that carry its hardest guarantees, and proves them for
all inputs, all orders and all runs.

**Camera receiver.** `SlotProtocol` is the protocol by which one worker per stream decodes into ring slots, commits
generations and announces them, while a broadcaster forwards the announcements and any number of consumers read: a
state machine over the atomic steps of locks, guard files, pixels, queue and sockets. `SlotSafety` and
`SlotDelivery` prove what every interleaving keeps, `SlotWitness` that reading does happen, and `GapAccounting`
connects it with the consumer's counters.
`StreamRing` is the ring of one stream as a class. `DecoderSessions` is the producer, the bounded single-worker
queue and `stop`; `DecoderIsolation` proves that no decoder sees two sessions and that no permit is lost. `Nv12`
runs the two image kernels on arrays under any schedule of their stores.

**AVS1.** `WireBytes`, `Avs1Wire`, `Avs1Parser`, `Avs1Layout`, `Avs1RoundTrip` and `Avs1Accepted` hold the record
format, the parser as loops, an encoder written from the three packed layouts, and the round trips; `RangeTiling`
the payload check. `Framing` reads length-prefixed records off a socket that delivers bytes in any pieces, and
`ReceiverSession` puts the two together, from a sender's bundles to the receiver's. `LineClient` is the consumer's
line buffer.

**Build tools.** `Manifest` is the placeholder resolver of tracker entries. `BuildGraph`, `Ownership` and
`LinkLine` trace what goes into an artifact, `Licensing` names license texts, and `Wheel`, `WheelEmbed` and
`WheelSound` embed an SBOM into a wheel and verify it.

**Tactile metadata.** `Tactile` is the editor's document, with bindings by joint name.

Some properties one might expect are not true of the code; there the exact condition is proved:

- Received plus overwritten frames equal the generations that passed only if the generations rise
  (`GapAccounting.GapsAreExact`); every run of the protocol provides that.
- A publish that raises on the left eye puts the eyes of a stereo stream out of step (`StreamRing.EyesAgreeIff`; one
  frame is enough, `StreamRing.LeftRaiseSplitsEyes`).
- A record that carries values in fields its flags declare absent is accepted, and not reproduced by encoding
  (`Avs1Accepted.EncodingIsCanonical`; such a record is given in `Avs1Accepted.StrayValueIsAccepted`).
- Which licenses are kept can depend on the order of the corpus (`Licensing.OrderFreeIff`, `Licensing.OrderMatters`),
  and a license that bridges two others that come before it is grouped with one of them only: the exact condition for
  one list of matches is `Licensing.SharedIff`, for every order of them `Licensing.ClusteredIff`, and
  `Licensing.BridgeMatters` has a text for which `identify` keeps three licenses and, in the order it hands them over,
  two relatives among them are split.
- A stereo pair is announced for one eye only exactly if the right publish raises after the left eye went out, or the
  publisher is started or stopped between the two (`StreamRing.BothEyesOrNoneIff`, `StreamRing.HalfPairIff`).
- The evidence of a target is cached by name, so that two targets of one name with different evidence get each other's
  (`BuildGraph.NamesCollide`); it is right for targets of one name that give the same evidence.
- Joints that were loaded as numbers are saved as names (`Tactile.DocumentRoundTrip`).
- A root registered as "/" encloses nothing beneath it (`Ownership.TextEnclosesIff`), and a directory without
  outright credit goes to its only such owner even if others own files there, unlike the documentation of
  `register_file` (`Ownership.AloneIff`). The model follows the code.
- A wheel written with an added member that is named as a directory does not verify, and neither does one with an
  added member that looks like the metadata of a second dist-info directory (`WheelSound.EmbeddedVerifies`,
  `WheelSound.AddedDirectoryIsReported`). `rewrite` accepts such members from any caller; the collector itself adds
  files below its own dist-info directory and builds no name that ends in "/", and then the wheel always verifies
  (`WheelSound.CollectedVerifies`).
- A tactile index is not kept if a later segment repeats its joint, or if it is out of range
  (`Tactile.SlotRoundTrip`, `Tactile.RepeatedJointMoves`).

## Model

| member | source | states |
|---|---|---|
| `SlotSafety.RunKeeps` | examples/camera_streamer/camera_receiver/slot_guard.py:13-52 | The invariant of the slot protocol (locks exclude each other, a nonzero generation vouches for the pixels, a generation is committed at most once and never before it is drawn) holds in every state of every run, whatever the interleaving of workers, eyes, publisher, queue, broadcaster and consumers |
| `SlotSafety.ReaderSeesPublished` | examples/camera_streamer/cuda_ipc_consumer/consumer.py:113-130 | While `read_frame` has yielded an array for a notification, the slot holds exactly the image committed under that notification's generation |
| `SlotSafety.PixelsStayUnderReader` | examples/camera_streamer/camera_receiver/slot_guard.py:37-52 | The pixels under a reader are the same at any two points of a run at which it still holds the array |
| `SlotSafety.StepKeepsPublished` | examples/camera_streamer/camera_receiver/slot_guard.py:29-34 | No step changes the image that a notification was committed with |
| `SlotSafety.PublishedIsFinal` | examples/camera_streamer/camera_receiver/slot_guard.py:29-34 | Over any stretch of a run, what was committed under a notification stays what it was |
| `SlotSafety.OnlyCommitPublishes` | examples/camera_streamer/camera_receiver/cuda_ipc.py:232-243 | Only the write of a generation in `commit_slot` adds to the history of committed images |
| `SlotSafety.UncommittedIsNeverRead` | examples/camera_streamer/camera_receiver/camera_receiver.py:846-857 | From the start of decoding to the commit, an eye's slot passes no comparison with any notification and no reader holds it: while a decoder may be writing it, after it is released, while the eyes before it are published, and up to the write of its own generation |
| `SlotSafety.StaleNeverValidates` | examples/camera_streamer/camera_receiver/slot_guard.py:37-52 | Once the slot of a published notification carries another generation, that notification is never current again at any later point of the run, and no reader holds it |
| `SlotSafety.RunIsSourced` | examples/camera_streamer/camera_receiver/camera_receiver.py:783-793 | In every state of every run, what a worker holds was completed by a decoder after that frame was begun and not written since, and each committed image was committed by a frame all of whose eyes were completed in it |
| `SlotSafety.ReaderSeesACompletedFrame` | examples/camera_streamer/cuda_ipc_consumer/consumer.py:113-130 | What a reader sees was committed under its notification by one frame, and a decoder completed it for that slot in that very frame with no write to the slot between completion and commit: failed, cancelled and half-written frames are never seen |
| `SlotSafety.CommitNeedsEveryEye` | examples/camera_streamer/camera_receiver/camera_receiver.py:790-837 | An eye is committed only in a frame in which, since the frame was begun, every eye of the stream was completed and its slot not written again |
| `SlotSafety.NextIndexIsModulo` | examples/camera_streamer/camera_receiver/camera_receiver.py:837 | In every run the index of every worker stays below the depth of its ring, and the next one is `(slot + 1) % depth` |
| `SlotWitness.SomeReaderReads` | examples/camera_streamer/cuda_ipc_consumer/consumer.py:113-130 | For every image there is a run of the protocol that ends with a consumer holding an array that shows it |
| `SlotDelivery.RunKeeps` | examples/camera_streamer/camera_receiver/cuda_ipc.py:254-267 | The queue, the log of announcements and every client's position in it agree in every state of every run |
| `SlotDelivery.QueueIsBounded` | examples/camera_streamer/camera_receiver/cuda_ipc.py:254-267 | The queue never exceeds a positive capacity and is always the newest part of what was put on it |
| `SlotDelivery.ClientReceivesSubsequence` | examples/camera_streamer/camera_receiver/cuda_ipc.py:405-440 | What a client has received is a subsequence of publish order, all from streams it subscribed to, each committed with an image |
| `SlotDelivery.ClientGenerationsRise` | examples/camera_streamer/camera_receiver/cuda_ipc.py:405-440 | Per stream and slot, a client sees strictly rising generations |
| `GapAccounting.GapsAreExact` | examples/camera_streamer/cuda_ipc_consumer/consumer.py:599-602 | Frames received plus frames counted as overwritten never fall short of last minus first generation plus one, and equal it if and only if the generations strictly rise |
| `GapAccounting.Account` | examples/camera_streamer/cuda_ipc_consumer/consumer.py:591-604 | The message loop computes the last generation per slot, the count per stream, the number of frames and the sum of the gaps over all slots |
| `GapAccounting.AccountingIsExact` | examples/camera_streamer/cuda_ipc_consumer/consumer.py:591-604 | For what any client holds at any point of any run, received plus overwritten is exactly the generations that passed, per slot and in total |
| `StreamRing.StreamRuntime.constructor` | examples/camera_streamer/camera_receiver/camera_receiver.py:386-402 | A new runtime has index 0 and no generation drawn |
| `StreamRing.StreamRuntime.NextGeneration` | examples/camera_streamer/camera_receiver/camera_receiver.py:477-479 | Drawing a generation adds one to its slot and changes nothing else |
| `StreamRing.StreamRuntime.PublishEyes` | examples/camera_streamer/camera_receiver/camera_receiver.py:812-835 | Eyes are drawn in order, up to the one whose publishing raises; announced are exactly those before it that found the publisher started, each with the generation drawn for it |
| `StreamRing.StreamRuntime.ProcessStream` | examples/camera_streamer/camera_receiver/camera_receiver.py:770-837 | After each frame the index and all generations are what the whole history of outcomes makes them; frames that fail, or whose latencies cannot be worked out, move neither and announce nothing; all eyes are drawn and announced unless publishing raises or the publisher is not started |
| `StreamRing.BothEyesOrNoneIff` | examples/camera_streamer/camera_receiver/camera_receiver.py:812-835 | A stereo pair is announced for both eyes or for none if and only if the left publish raises, or both eyes go out, or neither does |
| `StreamRing.HalfPairIff` | examples/camera_streamer/camera_receiver/camera_receiver.py:812-835 | With a publisher that stays started or stopped over the frame, one eye alone is announced if and only if the left eye goes out and the right publish raises |
| `StreamRing.FrameAdds` | examples/camera_streamer/camera_receiver/camera_receiver.py:812-837 | One more frame moves the index exactly if it was published, and draws for the current slot of the eyes it reached |
| `StreamRing.GenerationsCountVisits` | examples/camera_streamer/camera_receiver/camera_receiver.py:777-837 | Without a raising publish, the generation of slot s is the number of k below n with k mod depth = s, for every eye alike |
| `StreamRing.VisitsInClosedForm` | examples/camera_streamer/camera_receiver/camera_receiver.py:837 | That number is the quotient (n + depth - 1 - s) / depth |
| `StreamRing.EyesAgreeIff` | examples/camera_streamer/camera_receiver/camera_receiver.py:812-837 | The two eyes stay in step if and only if publishing the left eye never raised; each such raise puts the left eye one generation ahead on its slot |
| `StreamRing.LeftRaiseSplitsEyes` | examples/camera_streamer/camera_receiver/camera_receiver.py:812-837 | One frame whose left publish raises leaves the left eye at generation 1 and the right eye at 0 |
| `DecoderIsolation.RunKeeps` | examples/camera_streamer/camera_receiver/camera_receiver.py:442-471 | The invariant of producer, submit, worker queue and stop holds in every state of every run |
| `DecoderIsolation.DecodersSeeOneOrigin` | examples/camera_streamer/camera_receiver/camera_receiver.py:611-646 | Over every run of connects, disconnects, session changes, frames and stop, each decoder instance, in place or retired, has seen payloads of at most one session of one connection |
| `DecoderIsolation.EyesShareTheOrigin` | examples/camera_streamer/camera_receiver/camera_receiver.py:721-751 | All decoders of a stream that have seen payloads have seen those of the same origin |
| `DecoderIsolation.PermitsAreConserved` | examples/camera_streamer/camera_receiver/camera_receiver.py:398-402 | Free permits, the permit a submit in progress holds and accepted unfinished tasks always sum to the ring depth |
| `DecoderIsolation.ReleaseNeverExceeds` | examples/camera_streamer/camera_receiver/camera_receiver.py:456-471 | Permits come back one at a time, and never when the semaphore is already full |
| `DecoderIsolation.CleanAppends` | examples/camera_streamer/camera_receiver/camera_receiver.py:442-454 | A queue of tasks stays clean when a frame is added whose origin is the only one the decoders can hold by then; a reset leaves them with none |
| `WireBytes.UnpackOfPack` | examples/camera_streamer/camera_receiver/avs_wire.py:21-23 | Unpacking what was packed by a layout gives the field values back, if they fit |
| `WireBytes.PackOfUnpack` | examples/camera_streamer/camera_receiver/avs_wire.py:21-23 | Packing what was unpacked gives the bytes back |
| `Avs1Wire.SampleSize` | examples/camera_streamer/camera_receiver/avs_wire.py:23 | The sample layout takes 72 bytes, the sum of its fifteen fields |
| `RangeTiling.ScanDecidesTiling` | examples/camera_streamer/camera_receiver/avs_wire.py:378-384 | Sorting the ranges and walking them finds no overlap and no gap if and only if every byte of the payload area is in exactly one range |
| `RangeTiling.TilesAreDisjoint` | examples/camera_streamer/camera_receiver/avs_wire.py:378-384 | In a tiling, two different ranges share no byte |
| `Avs1Parser.CheckHeader` | examples/camera_streamer/camera_receiver/avs_wire.py:163-194 | The header is accepted exactly if its identity, flags, counts and lengths agree |
| `Avs1Parser.ReadStreams` | examples/camera_streamer/camera_receiver/avs_wire.py:196-245 | The stream rows are accepted exactly if they are in order, well-shaped and their sample ranges follow one another and fill the sample table |
| `Avs1Parser.ReadSamples` | examples/camera_streamer/camera_receiver/avs_wire.py:247-253 | The sample rows are read within the record, and accepted exactly if their reserved fields are zero |
| `Avs1Parser.BuildSamples` | examples/camera_streamer/camera_receiver/avs_wire.py:277-361 | The samples of a stream are built exactly if each row is in order, has its role, agrees on presence and stays in the payload area; their nonempty ranges are collected in order |
| `Avs1Parser.BuildStreams` | examples/camera_streamer/camera_receiver/avs_wire.py:255-376 | The streams are built exactly if all stream and sample rows pass |
| `Avs1Parser.CheckTiling` | examples/camera_streamer/camera_receiver/avs_wire.py:378-384 | The payload check passes exactly if the ranges tile the payload area |
| `Avs1Parser.Parse` | examples/camera_streamer/camera_receiver/avs_wire.py:144-405 | The parser accepts exactly the acceptable records and returns the bundle they mean; no read leaves the record |
| `Avs1Layout.RawOfSerialize` | examples/camera_streamer/camera_receiver/avs_wire.py:21-23 | Reading the rows of a written record gives the rows back |
| `Avs1Layout.SerializeOfRaw` | examples/camera_streamer/camera_receiver/avs_wire.py:21-23 | Writing the rows of a record gives its bytes back |
| `Avs1RoundTrip.SliceIsPayload` | examples/camera_streamer/camera_receiver/avs_wire.py:324-329 | Where the ranges tile, the payload area that the encoder lays out holds each sample's own payload at its place |
| `Avs1RoundTrip.EncodeThenParse` | examples/camera_streamer/camera_receiver/avs_wire.py:144-405 | Every well-formed bundle is encoded as a record that is accepted and parses back to that bundle |
| `Avs1Accepted.SamplesArePartitioned` | examples/camera_streamer/camera_receiver/avs_wire.py:232-245 | In an accepted record every sample row belongs to exactly one camera of exactly one stream |
| `Avs1Accepted.PayloadIsTiled` | examples/camera_streamer/camera_receiver/avs_wire.py:378-384 | In an accepted record every payload byte is in exactly one sample's range, ranges are disjoint and their lengths sum to the payload area |
| `Avs1Accepted.ParseEncodeParse` | examples/camera_streamer/camera_receiver/avs_wire.py:144-405 | Every accepted record means a well-formed bundle, and parse, encode, parse equals parse |
| `Avs1Accepted.EncodingIsCanonical` | examples/camera_streamer/camera_receiver/avs_wire.py:330-356 | Encoding what an accepted record means gives the same bytes if and only if every field that its flags declare absent is zero |
| `Avs1Accepted.StrayValueIsAccepted` | examples/camera_streamer/camera_receiver/avs_wire.py:330-356 | A record with a value in a field that its flags declare absent: it is accepted, and encoding what it means gives other bytes |
| `Framing.FramesOfFramed` | examples/camera_streamer/camera_receiver/camera_receiver.py:688-712 | Cutting a stream of length-prefixed records gives exactly those records |
| `Framing.Connection.Receive` | examples/camera_streamer/camera_receiver/camera_receiver.py:1101-1142 | One receive call hands over a prefix of what is still to arrive |
| `Framing.Receiver.ReceiveExact` | examples/camera_streamer/camera_receiver/camera_receiver.py:1101-1142 | The buffer is filled with exactly the next bytes of the stream, in whatever pieces they arrive; on a healthy connection this fails exactly if the stream ends first |
| `Framing.Receiver.ReadRecord` | examples/camera_streamer/camera_receiver/camera_receiver.py:688-719 | A record read is the frame at the head of the stream, with nothing of an earlier record in the reused buffer; a refused one is malformed; on a healthy connection every whole frame is read |
| `Framing.Receiver.ReadAll` | examples/camera_streamer/camera_receiver/camera_receiver.py:611-632 | The records of a connection are the first frames of the stream, and all of them if the connection stays healthy |
| `ReceiverSession.MeaningsOfEncoded` | examples/camera_streamer/camera_receiver/camera_receiver.py:626-632 | Parsing encoded bundles one after the other gives those bundles |
| `ReceiverSession.Session` | examples/camera_streamer/camera_receiver/camera_receiver.py:611-632 | The bundles of a connection are the meanings of the stream's frames up to the first that is incomplete, refused or rejected |
| `ReceiverSession.SessionIsFaithful` | examples/camera_streamer/camera_receiver/camera_receiver.py:611-632 | What a sender encodes and frames is what the receiver gets, however the bytes are cut |
| `LineClient.Client.PopLine` | examples/camera_streamer/cuda_ipc_consumer/consumer.py:178-182 | The line and its newline are cut off the front of the buffer; all lines handed out and the buffer remain all bytes received |
| `LineClient.Client.PopComplete` | examples/camera_streamer/cuda_ipc_consumer/consumer.py:171-176 | All complete lines are handed out and what is left holds no newline; all lines handed out and the buffer remain all bytes received |
| `LineClient.Client.ReceiveAll` | examples/camera_streamer/cuda_ipc_consumer/consumer.py:144-152 | The buffer grows by the bytes that arrive before the socket would block or ends |
| `LineClient.Client.ReadMessages` | examples/camera_streamer/cuda_ipc_consumer/consumer.py:132-153 | Over any sequence of reads, the lines handed out with their newlines, followed by the buffer, are all bytes received; lines already complete come before any receiving; at the end of the stream complete lines stay in the buffer |
| `LineClient.Client.ReadLine` | examples/camera_streamer/cuda_ipc_consumer/consumer.py:161-169 | The first line not handed out yet is handed out, without receiving if it is already complete; no byte is lost, and nothing is returned only if all that arrives completes no line |
| `LineClient.HistoryIsDetermined` | examples/camera_streamer/cuda_ipc_consumer/consumer.py:132-182 | Two clients that received the same bytes, over whatever reads and pieces, have handed out the same lines once no complete line is left in either buffer |
| `LineClient.SplitIsUnique` | examples/camera_streamer/cuda_ipc_consumer/consumer.py:171-182 | Bytes split into lines and an unfinished rest in one way only |
| `LineClient.SplitsCompose` | examples/camera_streamer/cuda_ipc_consumer/consumer.py:132-153 | Two reads one after the other give the lines of all their bytes, wherever the cut between them |
| `Nv12.EachByteIsStoredOnce` | examples/camera_streamer/camera_receiver/camera_receiver.py:96-114 | For even dimensions each byte of the rotated frame is stored by exactly one store of one thread of the grid of 16 x 16 blocks, and no store is out of bounds |
| `Nv12.GridCovers` | examples/camera_streamer/camera_receiver/camera_receiver.py:403-408 | The grid has a thread for every pixel |
| `Nv12.LaunchExists` | examples/camera_streamer/camera_receiver/camera_receiver.py:403-408 | The grid gives a schedule with exactly one store for each byte of the frame |
| `Nv12.PixelLaunchExists` | examples/camera_streamer/camera_receiver/camera_receiver.py:403-408 | The grid gives a schedule with exactly one store for each byte of the picture |
| `Nv12.Rotate180` | examples/camera_streamer/camera_receiver/camera_receiver.py:96-114 | Whatever the order of the stores, the destination ends up as the rotated frame |
| `Nv12.RotatedTwice` | examples/camera_streamer/camera_receiver/camera_receiver.py:96-114 | Rotating twice gives the frame back |
| `Nv12.ToRgba` | examples/camera_streamer/camera_receiver/camera_receiver.py:70-95 | Whatever the order of the stores, the output ends up as the picture of the frame |
| `Nv12.KernelsAgree` | examples/camera_streamer/camera_receiver/camera_receiver.py:70-114 | Converting with rotation 180 is converting the rotated frame with rotation 0 |
| `Manifest.ExpandIsMonotone` | src/core/codegen/manifest.py:72-97 | Once expansion has given a value or a type error, resolving more keys changes neither |
| `Manifest.ValueScans` | src/core/codegen/manifest.py:72-97 | Expansion succeeds, waits or fails exactly as the first unusable reference says |
| `Manifest.LimitIsFixed` | src/core/codegen/manifest.py:143-156 | Expanding all keys at once reaches a fixed point within as many rounds as there are pending keys |
| `Manifest.StageIsLeast` | src/core/codegen/manifest.py:143-156 | Every map that holds the seed and what expands in it holds that fixed point |
| `Manifest.Pass` | src/core/codegen/manifest.py:144-154 | One pass stays within the fixed point, and either resolves a key, fails with a type error, or shows that every key left is waiting |
| `Manifest.Resolve` | src/core/codegen/manifest.py:134-161 | For every order of the keys the result, the type error or the set of unresolvable keys is the same, and the pass bound never runs out |
| `Manifest.ResolvedIsTheSolution` | src/core/codegen/manifest.py:134-161 | A resolved entry satisfies its own equations, and no other map does |
| `Manifest.ResolvesIff` | src/core/codegen/manifest.py:134-161 | An entry resolves if and only if it refers to strings only and has no nonempty set of keys that wait for each other or for a missing key |
| `Manifest.UnresolvableIsLargest` | src/core/codegen/manifest.py:157-161 | The keys reported as unresolvable are the largest such set |
| `Manifest.TypeErrorIff` | src/core/codegen/manifest.py:80-84 | A type error is raised if and only if some value refers to a resolved key that is no string before it refers to a key that stays unresolved |
| `Licensing.Dominated` | scripts/sbom/isaaccapture_sbom/licensing.py:353-370 | The nested loops drop exactly the matches that an undropped relative with a higher score beats at their turn |
| `Licensing.Identify` | scripts/sbom/isaaccapture_sbom/licensing.py:320-350 | Identification keeps what is left of the matches that pass both thresholds |
| `Licensing.KeptAreTied` | scripts/sbom/isaaccapture_sbom/licensing.py:353-370 | Kept matches of one family have the same score |
| `Licensing.BestIsKept` | scripts/sbom/isaaccapture_sbom/licensing.py:353-370 | A match with the highest score is kept |
| `Licensing.DroppedIsBelowKept` | scripts/sbom/isaaccapture_sbom/licensing.py:353-370 | Each dropped match reaches a kept one of higher score by a chain of family links with strictly rising score |
| `Licensing.OrderFreeIff` | scripts/sbom/isaaccapture_sbom/licensing.py:361-370 | What is kept does not depend on the order of the corpus if and only if every beaten match is beaten by an unbeaten one |
| `Licensing.OrderMatters` | scripts/sbom/isaaccapture_sbom/licensing.py:361-370 | Three license texts and an input for which the order decides what is kept |
| `Licensing.Alternatives` | scripts/sbom/isaaccapture_sbom/licensing.py:380-400 | The loop puts each match into the first group that has a relative of it |
| `Licensing.GroupsHoldMatches` | scripts/sbom/isaaccapture_sbom/licensing.py:380-400 | Grouping loses no match and repeats none |
| `Licensing.AlternativesAreTied` | scripts/sbom/isaaccapture_sbom/licensing.py:380-400 | Groups of kept matches are score-tied |
| `Licensing.GroupsAreConnected` | scripts/sbom/isaaccapture_sbom/licensing.py:380-400 | Whatever the order, the groups hold the matches and the members of each are linked by family steps among them |
| `Licensing.SharedIff` | scripts/sbom/isaaccapture_sbom/licensing.py:380-400 | For the matches in the order they come in, relatives share a group if and only if the relatives that any match has among those before it are already linked by family steps among those |
| `Licensing.GroupsAreParts` | scripts/sbom/isaaccapture_sbom/licensing.py:380-400 | Where relatives share groups, two matches are in one group if and only if family steps link them: the groups are the connected parts |
| `Licensing.ClusteredIff` | scripts/sbom/isaaccapture_sbom/licensing.py:380-400 | Relatives share a group for every order of the matches if and only if the family relation is transitive on them |
| `Licensing.BridgeMatters` | scripts/sbom/isaaccapture_sbom/licensing.py:318-400 | A text that three licenses match with one score, so that all are kept whatever the order of the corpus; handed over in the order of their identifiers, two relatives among them end up in different groups |
| `Wheel.Scan` | scripts/sbom/isaaccapture_sbom/wheelfile.py:136-185 | A scan succeeds exactly if no name is repeated, exactly one dist-info directory has metadata and its name gives a version, and no directory carries bytes; it finds that directory and lists the files |
| `Wheel.FindDist` | scripts/sbom/isaaccapture_sbom/wheelfile.py:109-121 | The dist-info directory is found exactly if the names that end like its metadata have one first part in common, and that part names a version |
| `Wheel.CheckDocument` | scripts/sbom/isaaccapture_sbom/validate.py:257-292 | The failures of the document are exactly the uncovered, missing and differing files and the wrong identities, exclusions and code |
| `Wheel.CheckRecord` | scripts/sbom/isaaccapture_sbom/validate.py:335-353 | The failures of RECORD are exactly the missing rows, wrong digests and sizes, and rows without a file |
| `Wheel.RowPinsContent` | scripts/sbom/isaaccapture_sbom/validate.py:345-350 | Comparing a row of RECORD as it is written is comparing digest and size |
| `Wheel.Verify` | scripts/sbom/isaaccapture_sbom/validate.py:164-298 | The reported failures are exactly those that the SBOM and RECORD give for the files of the wheel, under the names that its own dist-info directory gives |
| `WheelEmbed.VerifiedIff` | scripts/sbom/isaaccapture_sbom/validate.py:164-298 | A wheel counts as verified if and only if none of the failures modelled here is reported of it |
| `WheelEmbed.VerifiedMember` | scripts/sbom/isaaccapture_sbom/validate.py:269-292 | A clean report means that, RECORD and the SBOM aside, document and RECORD list exactly the wheel's files, with their digests and sizes |
| `WheelEmbed.ListedIsExact` | scripts/sbom/isaaccapture_sbom/validate.py:269-275 | For a clean report the documented table is the archive minus RECORD and the SBOM if and only if the document lists neither of the two |
| `WheelEmbed.DocumentPinsContents` | scripts/sbom/isaaccapture_sbom/validate.py:269-292 | Two wheels with clean reports and the same document have the same files with the same digests |
| `WheelEmbed.BuildDocument` | scripts/sbom/isaaccapture_sbom/document.py:297-309 | The document lists each projected member that is not excluded once, with the code over their digests, unless two identifiers collide |
| `WheelEmbed.Rewrite` | scripts/sbom/isaaccapture_sbom/wheelfile.py:261-315 | The rewritten archive is the carried, replaced and added files and a RECORD with a row for each; it is refused exactly on a collision or if RECORD is passed in |
| `WheelEmbed.Embed` | scripts/sbom/isaaccapture_sbom/build.py:346-413 | The wheel is rewritten around the document of its projected members, with the names its own dist-info directory gives, or refused exactly if it cannot be scanned, has no metadata file to patch, identifiers collide or a member would be added twice |
| `WheelSound.ViewsAgree` | scripts/sbom/isaaccapture_sbom/build.py:354-357 | The projected members are the members of the rewritten archive |
| `WheelSound.EmbeddedVerifies` | scripts/sbom/isaaccapture_sbom/build.py:346-413 | None of the failures modelled here (those of files, digests, exclusions, identities, verification code and RECORD) is reported of the wheel that is written if and only if nothing added is named as a directory or looks like the metadata of another dist-info directory |
| `WheelSound.CollectedVerifies` | scripts/sbom/isaaccapture_sbom/build.py:292-413 | If all that is added are files below the dist-info directory, as all texts the collector packages are, none of the failures modelled here is reported of the wheel that is written |
| `WheelSound.AddedDirectoryIsReported` | scripts/sbom/isaaccapture_sbom/wheelfile.py:261-315 | A wheel of nothing but its metadata and one added member named as a directory: the wheel is written, and verification reports it |
| `WheelSound.EmbeddingKeepsMembers` | scripts/sbom/isaaccapture_sbom/wheelfile.py:261-315 | Files that are not replaced are carried over unchanged, nothing else appears, and an embedded wheel is refused a second time |
| `BuildGraph.Reach` | scripts/sbom/isaaccapture_sbom/discovery.py:1207-1226 | The traversal of any target graph, cyclic or not, ends with exactly the targets reachable through unpruned ones, each once, the root always kept |
| `BuildGraph.BuildGraph.LinkedClosure` | scripts/sbom/isaaccapture_sbom/discovery.py:1248-1255 | The cached closure is the fresh one, without other executables and modules |
| `BuildGraph.BuildGraph.ReachOf` | scripts/sbom/isaaccapture_sbom/discovery.py:1293-1320 | The evidence is that of some target of the same name, the one asked for first; it is the target's own strongest evidence per owned path if nothing was cached under its name or if targets of one name give the same evidence |
| `BuildGraph.BuildGraph.Reached` | scripts/sbom/isaaccapture_sbom/discovery.py:1280-1291 | The result has, for each owned path, the strongest evidence over all targets of the closure, each replaced by one of its name; over the closure itself if targets of one name give the same evidence |
| `BuildGraph.NamesCollide` | scripts/sbom/isaaccapture_sbom/discovery.py:1293-1320 | For any two targets of one name with different evidence, asking for one and then for the other gives evidence that is not the other's |
| `BuildGraph.NotedIsStrongest` | scripts/sbom/isaaccapture_sbom/discovery.py:464-468 | Noting one more mark keeps the strongest evidence per path |
| `BuildGraph.ItemsStand` | scripts/sbom/isaaccapture_sbom/discovery.py:1286-1291 | Merging only a target's strongest marks is merging all its marks |
| `BuildGraph.StrongestIsUnique` | scripts/sbom/isaaccapture_sbom/discovery.py:464-468 | The strongest evidence is determined by the set of marks, whatever order they were noted in |
| `BuildGraph.ReachedIsDetermined` | scripts/sbom/isaaccapture_sbom/discovery.py:1280-1291 | Any two orders of traversal give the same evidence |
| `Ownership.TextEnclosesIff` | scripts/sbom/isaaccapture_sbom/discovery.py:1388-1389 | The textual prefix test is enclosure by path segments, except that the root directory encloses only itself |
| `Ownership.FindOwner` | scripts/sbom/isaaccapture_sbom/discovery.py:1380-1392 | The owner is the registered file's, else that of the longest root passing the textual test, the earliest on a repeat |
| `Ownership.OwnerIsDeepest` | scripts/sbom/isaaccapture_sbom/discovery.py:1380-1392 | A path that is no registered file belongs to the deepest root enclosing it, unless that is the root directory and the path is not |
| `Ownership.OutsideIsUnowned` | scripts/sbom/isaaccapture_sbom/discovery.py:1380-1392 | Nobody owns a path outside every root |
| `Ownership.ByDirectory` | scripts/sbom/isaaccapture_sbom/discovery.py:1409-1416 | The index has, for every directory, the owners of the files beneath it by how they are credited |
| `Ownership.RootsUnderIff` | scripts/sbom/isaaccapture_sbom/discovery.py:1398-1404 | The roots counted under a directory other than the root directory are those beneath it |
| `Ownership.RootsUnderRoot` | scripts/sbom/isaaccapture_sbom/discovery.py:1398-1404 | Under the root directory only a root registered as the root directory counts |
| `Ownership.AloneIff` | scripts/sbom/isaaccapture_sbom/discovery.py:1365-1371 | The documented rule, that such an owner owns every file beneath the directory, is what the code does if and only if nobody else is credited outright there |
| `Ownership.AloneIsNotAll` | scripts/sbom/isaaccapture_sbom/discovery.py:1405-1406 | A directory for which the code credits an owner that does not own every file beneath it |
| `Ownership.Ownership.RegisterRoot` | scripts/sbom/isaaccapture_sbom/discovery.py:1357-1359 | Adds a root and keeps the caches true |
| `Ownership.Ownership.RegisterFile` | scripts/sbom/isaaccapture_sbom/discovery.py:1365-1373 | Adds or replaces a file and keeps the caches true |
| `Ownership.Ownership.Owner` | scripts/sbom/isaaccapture_sbom/discovery.py:1375-1378 | After any registrations and lookups the cached owner is the freshly computed one |
| `Ownership.Ownership.OwnersUnder` | scripts/sbom/isaaccapture_sbom/discovery.py:1394-1407 | After any registrations and lookups the indexed owners are those of a direct scan of files and roots |
| `LinkLine.Line.Classify` | scripts/sbom/isaaccapture_sbom/discovery.py:1137-1183 | Afterwards exactly those files and inputs are added in which a walk through scripts from the file ends: a target output, a recorded input, or an unresolved entry; shared libraries are left to the loader, and reading ends for scripts that name each other |
| `LinkLine.LeavesIff` | scripts/sbom/isaaccapture_sbom/discovery.py:1137-1183 | A leaf stands for a file if and only if a walk of scripts from it, each file found through an entry of the one before, ends there: at a file that is no script, at a script past the depth limit, or at an entry found nowhere |
| `LinkLine.Line.Read` | scripts/sbom/isaaccapture_sbom/discovery.py:1093-1135 | The line ends up with exactly the files and inputs that some word of it, not the value of an option, reaches in the mode the words before it leave |
| `LinkLine.LineIff` | scripts/sbom/isaaccapture_sbom/discovery.py:1093-1135 | A leaf stands for the line if and only if a word of it that is not an option's value reaches the leaf in the mode in force there |
| `LinkLine.PopRestores` | scripts/sbom/isaaccapture_sbom/discovery.py:1119-1122 | A pop restores the mode that was in force at its push, whatever balanced words lie between |
| `LinkLine.PopAlone` | scripts/sbom/isaaccapture_sbom/discovery.py:1119-1122 | A pop without a push to match leaves the dynamic mode |
| `LinkLine.TooDeepIff` | scripts/sbom/isaaccapture_sbom/discovery.py:1156-1161 | The depth limit is met if and only if a walk of ten scripts, each named by the one before, starts at the file |
| `Tactile.Document.Parse` | scripts/tactile_metadata/tactile_metadata_editor/storage.py:43-105 | Metadata is loaded exactly if its sections and lists are there and fit together, and bindings become the joints of their rows |
| `Tactile.SlotRoundTrip` | scripts/tactile_metadata/tactile_metadata_editor/storage.py:69-132 | A loaded index is exported unchanged if and only if its joint is not repeated in a later row, or it is out of range, its made-up name is no joint and it is the number written for an unresolved slot |
| `Tactile.RepeatedJointMoves` | scripts/tactile_metadata/tactile_metadata_editor/storage.py:69-132 | Two segments of one joint: an index to the first comes back as an index to the second |
| `Tactile.DocumentRoundTrip` | scripts/tactile_metadata/tactile_metadata_editor/storage.py:69-132 | Loading and saving a document gives every weight back, every index if and only if each index is kept, and every joint if and only if all were named and not numbered |
| `Tactile.CleanDocumentRoundTrip` | scripts/tactile_metadata/tactile_metadata_editor/storage.py:69-132 | A document with distinct joints and indices in range is saved with all indices and weights as they were, zero-weight slots included |
| `Tactile.SaveThenLoad` | scripts/tactile_metadata/tactile_metadata_editor/storage.py:69-132 | Loading what was saved gives segments and weights back, binds every slot bound to a joint of some segment to it again, shows exactly what has weight, and exports those slots alike |
| `Tactile.ExportMeans` | scripts/tactile_metadata/tactile_metadata_editor/storage.py:119-131 | For a valid taxel, whatever edits made it, the exported index is a row of the joint the slot shows, or of the stored joint of a slot that shows nothing; without such a row it is 0xFFFFFFFF for the former and 0 for the latter |
| `Tactile.EditKeepsSlot` | scripts/tactile_metadata/tactile_metadata_editor/document.py:99-141 | An edit that does not touch a slot, renaming a segment included, leaves what it shows and stores, at the row that its taxel has afterwards |
| `Tactile.HiddenReferenceSurvives` | scripts/tactile_metadata/tactile_metadata_editor/document.py:99-141 | The stored reference of a slot that shows nothing, and its weight, survive every sequence of edits that does not touch the slot; the index exported in the end is a row of that joint, or 0 if no segment has it any more |
| `Tactile.Document.Export` | scripts/tactile_metadata/tactile_metadata_editor/storage.py:108-132 | What is written are the joints of the segments and, for each taxel, its weights and the exported index of each slot |
| `Tactile.DeleteRows` | scripts/tactile_metadata/tactile_metadata_editor/document.py:110-114 | Popping the rows from the highest down leaves exactly the other rows, in order |
| `Tactile.Document.AddSegment` | scripts/tactile_metadata/tactile_metadata_editor/document.py:99-103 | A segment is appended exactly if its joint is known |
| `Tactile.Document.AddTaxels` | scripts/tactile_metadata/tactile_metadata_editor/document.py:105-108 | Unbound taxels are appended |
| `Tactile.Document.DeleteSegments` | scripts/tactile_metadata/tactile_metadata_editor/document.py:110-114 | Deleting segments leaves the taxels' joints as they are |
| `Tactile.Document.DeleteTaxels` | scripts/tactile_metadata/tactile_metadata_editor/document.py:110-114 | Deleting taxels leaves the others valid and in order |
| `Tactile.Document.Assign` | scripts/tactile_metadata/tactile_metadata_editor/document.py:116-129 | The chosen taxels are bound to the chosen segments, stored references included, the first with full weight; all others stay |
| `Tactile.Document.SetSegment` | scripts/tactile_metadata/tactile_metadata_editor/document.py:69-72 | Shown and stored references of the slot change together |
| `Tactile.Document.SetWeight` | scripts/tactile_metadata/tactile_metadata_editor/document.py:131-141 | A weight changes exactly if its slot shows a joint and the value is from 0 to 1 |
| `Tactile.Document.RenameSegment` | scripts/tactile_metadata/tactile_metadata_editor/ui.py:1200-1201 | A segment gets another joint; bindings by name stay |
| `Tactile.Document.PickSegment` | scripts/tactile_metadata/tactile_metadata_editor/ui.py:1234-1241 | A slot is bound to what was picked, with full weight if the taxel showed no joint, or cleared with its weight; other slots stay |

## Left out

- Locks, files, sockets, threads and clocks appear by what their steps do: lock compatibility, one first-in first-out
  worker, arbitrary pieces, a stop flag that stays set. Stall timeouts are events, not durations.
- CPython's executor can queue a task and then raise; a submit here either queues its task or does not.
- Pixels are opaque in the slot protocol; hardware decoding and GPU handles are not modelled.
- The kernels' 32-bit index arithmetic is exact here, which agrees with it below 2^31 bytes of output.
- Nv12.ToRgba: computes colours over real numbers, because single-precision rounding is not what the kernel is about.
- The encoder of AVS1 is not part of the repository; the one here is written from the three layouts.
- JSON, TOML, CSV and ZIP encodings: RECORD and the SBOM are held by what they say, messages by their lines.
- Wheel.CheckDocument: leaves out the identifiers of packages and relationships, so that a repeated identifier is one
  among the files.
- Wheel.Verify: leaves out the checks of required fields, relationships, external documents, license texts and license
  expressions, and reports a set where the source reports a list in sorted order.
- Digests, file identifiers and the verification code of a collection of digests are parameters; the code is taken as
  a function of the collection, since the source sorts it first.
- The manifest's tokenizer, the merging of defaults and the checks after resolution; `%name%` splitting and the two
  transforms are parameters.
- License text normalisation; n-grams are given, and thresholds and scores are exact fractions.
- Symbolic links, `-l` search and script syntax in `LinkLine` and `Ownership` are parameters; the inspection cache is
  not modelled.
- Tactile.Document.Parse: keeps of a pose whether it can be read and not its numbers, which loading and saving turn by
  the alignment and back.
- Tactile.Document.Export: leaves out the poses that are written, for the same reason.
- Geometry, preview and validation messages of the tactile editor, and its template for new taxels.
- WheelSound.EmbeddedVerifies: speaks of the failures that are modelled, as Wheel.Verify does.
- WheelSound.CollectedVerifies: speaks of the failures that are modelled, as Wheel.Verify does.
- Receiver statistics, latency metadata, display and CSV output of the consumer.
- C++ plugins, OpenXR bindings, retargeters, packaging scripts and documentation tooling.
