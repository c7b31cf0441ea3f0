# Verified models of the camera and media glue

This project models eight components of the repository in Dafny and proves what they promise:

1. the converting stream source, which packs a byte stream into a pool of shared buffers;
2. the protocol by which the native handles of recording frames travel between processes;
3. the vendor tag descriptor, its reverse index, its parcel codec and the vendor-id cache;
4. the camera metadata container, its growth, its blob codec and its tag name resolution;
5. the two classes of camera parameters with their flat strings, sizes and ranges;
6. greedy line breaking on a mutable C string;
7. the composite parcel codecs of capture results and capture requests;
8. the player's message-driven state machine, its audio accounting, and the muxer's trim.

Code that works by changing things step by step is a class or a method with loops here; each such
method is proved to compute a specification function, and the promises are lemmas about these
functions. Concurrency and inter-process calls are step systems; a promise about them is a lemma
about every run.

| file | component |
|---|---|
| `Parcels.dfy` | results, fixed-width integers, and parcels as sequences of typed items |
| `Arithmetic.dfy` | products, remainders, powers of two |
| `StreamSource.dfy`, `StreamOrder.dfy` | the stream source: monitor, interleaved runs, classes; order and fill of its buffers |
| `RecordingHandles.dfy`, `RecordingRoutes.dfy`, `CameraIpc.dfy` | the handle protocol as a step system, who gets what by it, and the proxies and stubs that take its steps |
| `SortedVectors.dfy`, `VendorTags.dfy`, `VendorTagParcels.dfy`, `VendorTagDescriptor.dfy` | vendor tags: containers, tables and laws, parcels from anywhere, classes |
| `Metadata.dfy`, `MetadataBlob.dfy`, `MetadataChanges.dfy`, `TagNames.dfy` | the metadata container, its codec, single changes and blobs from anywhere, tag names |
| `CStrings.dfy`, `ParameterStrings.dfy`, `SizeStrings.dfy`, `CameraParameters.dfy`, `CameraParameters2.dfy`, `ParameterMeaning.dfy` | camera parameters, and what their strings mean character by character |
| `TextWrap.dfy`, `TextGreedy.dfy` | line breaking, and the greedy lines it is to find |
| `CaptureCodec.dfy`, `CaptureLayout.dfy`, `CaptureParcels.dfy` | capture results and requests: codec, layout of the parcels, classes |
| `Media.dfy`, `Player.dfy`, `PlayerAnswers.dfy`, `AudioRender.dfy`, `AudioTiming.dfy`, `Trim.dfy` | the player and its answers, its audio output and when it drops, the muxer's trim |

`dafny verify dfyconfig.toml` checks the project.

## Where the code falls short of its promise

Some promises hold only under a condition; the condition is proved exact, or the failing family is
given by a lemma.

- Stream source: at the end of the stream the tail is flushed, and EOS issued, only when the
  listener returns a buffer after the writer has finished. Both are reachable exactly when the
  listener holds a buffer at that moment (`EosReachableIffListenerHoldsABuffer`); with one buffer
  and a stream shorter than it, nothing is ever delivered (`ShortStreamIsNeverDelivered`).
- Vendor tags: a descriptor survives its parcel exactly when no tag is listed twice and no tag or
  section name is empty (`SurvivesIffListIsClean`). A (section, name) pair shared by several tags
  resolves to the last listed before the parcel and to the greatest after it (`LookupAcrossParcel`).
- Vendor tag parcels: the reader checks the greatest section index in 32 bits and against the number
  of section names before equal ones fall together, and then indexes `mSections` unchecked. It goes
  out of range for a repeated section name (`RepeatedSectionGoesOutOfBounds`) and for index 2^32-1
  (`WrappedIndexGoesOutOfBounds`). For different tags it stays in range exactly when the greatest
  index is below the number of different names (`SectionsAreSafeIff`); its check is enough when
  names are different and no index is 2^32-1 (`CheckIsEnough`). The outcome `OutOfBounds` stands
  for the unchecked access; the code has no such error.
- Metadata: `erase` removes one entry, so a tag that `append` put in twice is still there
  (`EraseIsSeen`). Appending an object to itself reads the buffer that `resizeIfNeeded` has just
  freed, exactly when the buffer has to grow (`SelfAppendIsSafeIffRoom`, `FullBufferAppendsFreed`);
  `UseAfterFree` stands for that read. A metadata blob survives its parcel exactly when size and alignment together
  stay below 2^31 (`RoundTrip`).
- Camera parameters 2: `unflatten` adds a repeated key twice, after which `set` does not make `get`
  see the new value (`SetIsSeenIffNotRepeated`, `RepeatedKeyGoesStale`), `remove` uncovers the second
  value (`DropIsSeen`), and `compareSetOrder` places the key by its second occurrence (`SetIsLastIff`).
- Text wrapping: the terminator counts as whitespace for `strchr`, so a last character that is too
  wide for an indented line moves the cursor past the terminator (`SafeIffLastFits`,
  `CharacterBehindBlankLine`). The comment in `breakString` that the caller should not advance for an
  empty rest is not what the caller does: whitespace behind a last line with room to spare draws an
  empty line exactly when it does not fit that line (`BlankLineIffSpaceDoesNotFit`).
- Player: `reset` on a player with a source that is not prepared answers OK and keeps the source
  (`ResetForgetsSourceIffPrepared`).
- Muxer: window times are multiplied in 32 bits and are exact only up to 2147483 ms
  (`MicrosExactIff`). The comparison with the start time is strict, so the output is the block from
  the first sync sample in [start, end] exactly when that one is not at the start itself
  (`BlockFromStartIffNotAtStart`); a start set back to 0 loses a first sync sample at time 0
  (`ResetStartLosesFirstSample`).

## Model

| member | source | states |
|---|---|---|
| StreamSource.PickKeepsPlaces | cmds/stagefright/stream.cpp:223-233 | taking the first queued buffer keeps every buffer in one place and changes neither memory nor stream |
| StreamSource.WriteStepKeepsGood | cmds/stagefright/stream.cpp:220-253 | one iteration keeps the invariant, consumes at least one byte, and delivered bytes plus the current prefix grow by exactly the bytes consumed |
| StreamSource.AvailableStepKeepsGood | cmds/stagefright/stream.cpp:258-272 | returning a held buffer keeps the invariant and loses no byte; at the end of the stream nothing stays in a current buffer and one EOS is issued |
| StreamSource.StepKeepsInv | cmds/stagefright/stream.cpp:217-272 | every step of writer or player keeps the accounting of the stream byte by byte |
| StreamSource.RunKeepsInv | cmds/stagefright/stream.cpp:217-272 | so does every run |
| StreamSource.EveryRunDeliversTheStream | cmds/stagefright/stream.cpp:217-272 | in every interleaving the bytes handed over, then the filled prefix, are exactly the bytes consumed; each buffer is in one place, a current one is never full; after EOS everything requested has been delivered |
| StreamOrder.EveryRunFillsInOrder | cmds/stagefright/stream.cpp:217-272 | in every run the buffers filled so far, then the waiting ones, are those the listener has returned, in the order of its returns |
| StreamOrder.StepKeepsOrder | cmds/stagefright/stream.cpp:223-261 | writing takes the buffer from the front of the queue, a return adds one at the back |
| StreamOrder.WriteStepFillsBuffer | cmds/stagefright/stream.cpp:221-252 | an iteration takes as much as the buffer has room for, hands the buffer over exactly when that fills it, and touches no other |
| StreamOrder.ReturnMeans | cmds/stagefright/stream.cpp:258-272 | what a return does before the end of the stream, and at its end with a current buffer and without |
| StreamOrder.OnlyFullBuffersBeforeTheEnd | cmds/stagefright/stream.cpp:241-272 | until the writer has reached the end of its stream only full buffers are handed over |
| StreamSource.NothingHeldNothingHappens | cmds/stagefright/stream.cpp:258-272 | when the stream has ended and the listener holds nothing, no run changes anything |
| StreamSource.EosReachableIffListenerHoldsABuffer | cmds/stagefright/stream.cpp:264-271 | at the end of the stream EOS can still be issued exactly when the listener holds a buffer |
| StreamSource.ShortStreamIsNeverDelivered | cmds/stagefright/stream.cpp:217-272 | with one buffer, no run after a shorter stream delivers a byte or issues EOS |
| StreamSource.ConvertingStreamSource.constructor | cmds/stagefright/stream.cpp:202-210 | with all buffers held by the listener the source starts in the invariant |
| StreamSource.ConvertingStreamSource.TakeBuffer | cmds/stagefright/stream.cpp:223-232 | takes the front of the queue, which becomes current at offset 0 |
| StreamSource.ConvertingStreamSource.CopyIn | cmds/stagefright/stream.cpp:241-242 | writes the bytes at the offset of the current buffer and nowhere else |
| StreamSource.ConvertingStreamSource.QueueCurrent | cmds/stagefright/stream.cpp:245-246 | hands over exactly the filled prefix and leaves no current buffer |
| StreamSource.ConvertingStreamSource.WriteIteration | cmds/stagefright/stream.cpp:221-252 | is one write step of the monitor |
| StreamSource.ConvertingStreamSource.WriteNext | cmds/stagefright/stream.cpp:221-252 | appends to the stream the nonempty prefix of the data it reports as copied |
| StreamSource.ConvertingStreamSource.OnBufferAvailable | cmds/stagefright/stream.cpp:258-272 | puts the returned buffer at the back of the queue; is one availability step of the monitor |
| StreamSource.ConvertingStreamSource.WriteData | cmds/stagefright/stream.cpp:217-256 | whatever the player does between iterations, the data is appended to the stream in full and its size returned, unless the writer waits for ever for a buffer |
| RecordingHandles.FramesAreRead | camera/ICameraClient.cpp:171-226 | what the stub's loops read is what the proxy's loops wrote, single and batch; timestamp and handle vectors have equal length |
| RecordingHandles.ReleaseIsRead | camera/ICameraRecordingProxy.cpp:135-167 | the same for releases |
| RecordingHandles.DeliverPlaces | camera/ICameraRecordingProxyListener.cpp:53-95 | delivering a parcel puts each duplicate it creates in exactly one place |
| RecordingHandles.DeliverOwners | camera/Camera.cpp:400-458 | however the camera routes a frame, it has one owner afterwards |
| RecordingHandles.StepPlaces | camera/ICameraRecordingProxy.cpp:74-103 | every step keeps each handle made so far in exactly one place |
| RecordingHandles.StepOwners | camera/Camera.cpp:235-249 | every step keeps as many owners of a frame as it has been sent |
| RecordingHandles.StepLinked | camera/ICamera.cpp:163-192 | every close loop that waits for a call has that call in flight, pending or returned |
| RecordingHandles.StepKeepsInv | camera/Camera.cpp:400-494 | every step keeps the whole invariant |
| RecordingHandles.RunKeepsInv | camera/Camera.cpp:400-494 | so does every run |
| RecordingHandles.RacingListenersAreARun | camera/Camera.cpp:400-458 | a frame routed while the listeners change between the camera's two critical sections is still a run of the protocol |
| RecordingHandles.EveryHandleHasOnePlace | camera/ICameraRecordingProxyListener.cpp:53-95 | in every interleaving no duplicate is closed twice or while held, and each frame in flight has exactly one owner |
| RecordingHandles.WorkFalls | camera/ICameraClient.cpp:90-126 | deliveries and close loops use up work, so all of them come to an end |
| RecordingHandles.NoneWaitsForever | camera/ICamera.cpp:163-192 | while parcels or close loops remain, one of them can go on |
| RecordingHandles.QuietMeansNothingLeaked | camera/ICameraRecordingProxyListener.cpp:53-95 | when none is left, every duplicate has been closed once or is held by app, recorder or service |
| RecordingRoutes.RecorderComesFirst | camera/Camera.cpp:400-444 | frames for the app go on unchanged to a registered recording proxy listener, whatever the app's own listener is; the app holds none and closes its duplicates |
| RecordingRoutes.ListenerComesSecond | camera/Camera.cpp:415-458 | without one, the app's listener keeps exactly these frames and no parcel is sent |
| RecordingRoutes.NobodyListening | camera/Camera.cpp:418-458 | without any listener the same frames are released to the service |
| RecordingRoutes.LastHops | camera/ICameraRecordingProxyListener.cpp:115-172 | the recorder keeps the frames forwarded to it, the service those released to it |
| RecordingRoutes.AppPassesReleaseOn | camera/Camera.cpp:485-494 | the app passes the recorder's release on with the same frames and completes it after closing its duplicates |
| RecordingRoutes.Releases | camera/ICamera.cpp:163-192 | a release sends the frames of its handles, and these leave their holder and wait to be closed |
| RecordingRoutes.CloseLoopCloses | camera/ICameraRecordingProxy.cpp:82-103 | a close loop closes exactly the handles of its call and nothing else changes hands |
| RecordingRoutes.ListenersChange | camera/Camera.cpp:214-233 | only setting a listener, starting and stopping recording change who listens |
| CameraIpc.ReleaseRuns | camera/ICamera.cpp:163-192 | the service's stub followed by the caller's close loop is a run of the protocol |
| CameraIpc.RecorderReleaseRuns | camera/ICameraRecordingProxy.cpp:74-103 | a recorder's release, the app's and the service's stub inside it and both close loops are a run |
| CameraIpc.RoutingRuns | camera/Camera.cpp:400-458 | what the camera does with a frame it is given is a run of the protocol |
| CameraIpc.RoutedIsWellRouted | camera/Camera.cpp:400-458 | who holds and who has closed what after the camera has dealt with a frame, for each of the three cases |
| CameraIpc.ReleasedMeans | camera/ICamera.cpp:163-192 | after a release its frames are with the service and its handles closed |
| CameraIpc.Ipc.WriteFrames | camera/ICameraClient.cpp:90-126 | the writing loops produce the frame parcel, single and batch |
| CameraIpc.Ipc.WriteRelease | camera/ICamera.cpp:163-192 | the writing loop of a release produces the release parcel |
| CameraIpc.Ipc.CloseAll | camera/ICameraRecordingProxyListener.cpp:90-94 | the close loop closes each handle of the batch once, in order |
| CameraIpc.Ipc.ReadTimestamps | camera/ICameraClient.cpp:203-212 | the loop reads the timestamps of a batch, or answers BAD_VALUE |
| CameraIpc.Ipc.ReadNativeHandles | camera/ICameraClient.cpp:213-221 | the loop reads the frames of a batch as fresh duplicates, or answers BAD_VALUE |
| CameraIpc.Ipc.BnCameraRelease | camera/ICamera.cpp:393-412 | the service takes over a fresh duplicate for every frame released |
| CameraIpc.Ipc.BpCameraRelease | camera/ICamera.cpp:163-192 | the frames go to the service and the caller's duplicates are closed |
| CameraIpc.Ipc.BpRecordingProxyRelease | camera/ICameraRecordingProxy.cpp:74-103 | the frames go through the app to the service, and the duplicates of both hops are closed |
| CameraIpc.Ipc.BpCameraClientSend | camera/ICameraClient.cpp:90-126 | sending frames is the protocol's send step |
| CameraIpc.Ipc.BpListenerForward | camera/ICameraRecordingProxyListener.cpp:53-95 | frames go to the recorder and the app's duplicates are closed; vectors of different length change nothing |
| CameraIpc.Ipc.OnFrames | camera/Camera.cpp:400-458 | a recording proxy listener comes first, then the listener, and without either the frames go straight back |
| CameraIpc.Ipc.DeliverToApp | camera/ICameraClient.cpp:171-226 | a recorder registered with the app gets the frames whatever the app's listener is, else the listener, else the service gets them back; it is a run of the protocol |
| CameraIpc.Ipc.DeliverToRecorder | camera/ICameraRecordingProxyListener.cpp:115-172 | delivering frames to the recorder is one receive step |
| CameraIpc.Ipc.AppReleaseCall | camera/Camera.cpp:235-250 | the app's release is a run that ends with its duplicates closed and the frames back at the service |
| CameraIpc.Ipc.RecorderReleaseCall | camera/Camera.cpp:485-494 | the same for the recorder's release through the proxy |
| CameraIpc.Ipc.SetCameraListener | camera/Camera.cpp:322-326 | sets or clears the listener, a step of the protocol |
| CameraIpc.Ipc.SetRecording | camera/Camera.cpp:214-225 | registers or clears the recording proxy listener, a step of the protocol |
| VendorTags.ReverseIsLastMatch | camera/VendorTagDescriptor.cpp:567-583 | the reverse index answers with the last tag of a name and section |
| VendorTags.LookupAgrees | camera/VendorTagDescriptor.cpp:299-316 | lookupTag succeeds exactly when some tag has the name and section, gives one that has, and inverts the getters when pairs are distinct |
| VendorTags.CreatedAgreesWithOps | camera/VendorTagDescriptor.cpp:508-587 | the tables built from the ops answer as the ops do, sections are sorted, and the reverse index agrees |
| VendorTags.RoundTrip | camera/VendorTagDescriptor.cpp:111-218 | writing and reading gives back all tables, leaves what follows in the parcel, and sets up the reverse index in ascending order |
| VendorTags.RepeatedTagIsRefused | camera/VendorTagDescriptor.cpp:259-293 | with a tag listed twice the reader takes the section count for a tag and refuses |
| VendorTags.SurvivesIffListIsClean | camera/VendorTagDescriptor.cpp:111-293 | a created descriptor survives the parcel exactly when no tag repeats and no name is empty |
| VendorTags.ReindexedFindsGreatest | camera/VendorTagDescriptor.cpp:204-215 | a descriptor that was read resolves a pair to the greatest tag that has it |
| VendorTags.LookupAcrossParcel | camera/VendorTagDescriptor.cpp:204-218 | the answers before and after the parcel agree exactly when the last listed tag is the greatest, and always when pairs are distinct |
| VendorTagParcels.SectionsKeepPlacesIffAscending | camera/VendorTagDescriptor.cpp:191-200 | sections keep the positions they have in a parcel exactly when they arrive strictly ascending |
| VendorTagParcels.InsertAllLength | camera/VendorTagDescriptor.cpp:191-200 | the section vector has one element for every different name of the parcel |
| VendorTagParcels.IndexesFitIff | camera/VendorTagDescriptor.cpp:204-215 | for different tags every access to the sections is in range exactly when the greatest index is |
| VendorTagParcels.CheckIsEnough | camera/VendorTagDescriptor.cpp:184-188 | the code's check is enough when names are pairwise different and no index is 2^32-1 |
| VendorTagParcels.SectionsAreSafeIff | camera/VendorTagDescriptor.cpp:178-215 | for different tags: when the reader accepts the sections, refuses them, or goes out of range after its check passed |
| VendorTagParcels.RepeatedSectionGoesOutOfBounds | camera/VendorTagDescriptor.cpp:184-207 | a failing family: a section name twice and an index beyond the one left |
| VendorTagParcels.WrappedIndexGoesOutOfBounds | camera/VendorTagDescriptor.cpp:184-207 | a failing family: index 2^32-1, whose successor wraps to 0 in the check |
| VendorTagParcels.NoSectionsAbortsIffWrapped | camera/VendorTagDescriptor.cpp:184-190 | without sections the check passes only when it has wrapped, and then a fatal check stops the process |
| VendorTagParcels.DecodedIsConsistent | camera/VendorTagDescriptor.cpp:111-218 | whatever the parcel, when it is accepted the reverse index agrees with the other tables |
| VendorTagParcels.SectionOfTag | camera/VendorTagDescriptor.cpp:204-215 | with ascending sections every tag has the section name at its index in the parcel |
| VendorTagParcels.EntryIsAcceptedIff | camera/VendorTagDescriptor.cpp:138-171 | exactly which tag, type and name the reader accepts, and what it makes of negative integers |
| VendorTagParcels.AcceptableMeans | camera/VendorTagDescriptor.cpp:520-563 | exactly which ops a descriptor can be created from |
| VendorTagParcels.EntryLayout | camera/VendorTagDescriptor.cpp:268-277 | the k-th tag in ascending order stands in items 4k to 4k+3 of the entries: tag, type, name, section |
| VendorTagParcels.ParcelLayout | camera/VendorTagDescriptor.cpp:259-293 | where the counts, the entries and the section names stand |
| VendorTagDescriptors.VendorTagDescriptor.CopyFrom | camera/VendorTagDescriptor.cpp:86-109 | all tables become those of the source |
| VendorTagDescriptors.VendorTagDescriptor.CreateDescriptorFromOps | camera/VendorTagDescriptor.cpp:508-587 | succeeds exactly for acceptable ops, with the tables they give and an agreeing reverse index |
| VendorTagDescriptors.VendorTagDescriptor.CollectTags | camera/VendorTagDescriptor.cpp:534-563 | the first loop: all answers checked, names, types and the sorted section list |
| VendorTagDescriptors.VendorTagDescriptor.IndexTags | camera/VendorTagDescriptor.cpp:567-583 | the second loop: section indices and the reverse mapping |
| VendorTagDescriptors.VendorTagDescriptor.WriteToParcel | camera/VendorTagDescriptor.cpp:259-293 | appends the encoding of the tables |
| VendorTagDescriptors.VendorTagDescriptor.ReadFromParcel | camera/VendorTagDescriptor.cpp:111-218 | into a fresh descriptor: the tables the parcel encodes with an agreeing reverse index, its error, or the out-of-range access |
| VendorTagDescriptors.VendorTagDescriptor.ReadTags | camera/VendorTagDescriptor.cpp:135-177 | the loop over the tags fills the three tables, with its checks |
| VendorTagDescriptors.VendorTagDescriptor.ReverseTags | camera/VendorTagDescriptor.cpp:204-215 | sets up the reverse mapping from the tables just read, unless an index is out of range |
| VendorTagDescriptors.VendorTagDescriptor.GetTagArray | camera/VendorTagDescriptor.cpp:228-233 | fills the array with the tags in ascending order and leaves the rest of it |
| VendorTagDescriptors.VendorTagDescriptor.GettersAnswerAsOps | camera/VendorTagDescriptor.cpp:220-257 | the getters of a created descriptor answer as the ops do, for the listed tags and no others |
| VendorTagDescriptors.VendorTagDescriptor.Lookup | camera/VendorTagDescriptor.cpp:299-316 | on both construction paths inverts getTagName and getSectionName: a tag that has the name and section, the only one when pairs are distinct, or BAD_VALUE when none has |
| VendorTagDescriptors.CreatedReadsBack | camera/VendorTagDescriptor.cpp:348-408 | descriptors created from a clean list read back whatever follows them |
| VendorTagDescriptors.CacheRoundTrip | camera/VendorTagDescriptor.cpp:348-408 | the round trip lifts to the cache in whatever order its map is iterated |
| VendorTagDescriptors.VendorTagDescriptorCache.AddVendorDescriptor | camera/VendorTagDescriptor.cpp:480-490 | adds a new id and refuses one that is there |
| VendorTagDescriptors.VendorTagDescriptorCache.GetVendorTagDescriptor | camera/VendorTagDescriptor.cpp:492-505 | the descriptor of the id, or NAME_NOT_FOUND |
| VendorTagDescriptors.VendorTagDescriptorCache.ReadFromParcel | camera/VendorTagDescriptor.cpp:368-408 | the cache the parcel encodes, or its error |
| Metadata.ResizedHasRoom | camera/CameraMetadata.cpp:416-452 | resizing keeps all entries and leaves room for the pending write |
| Metadata.UpdateSucceeds | camera/CameraMetadata.cpp:293-349 | an update always succeeds and does to the entries what it would do without capacities |
| Metadata.AppendSucceeds | camera/CameraMetadata.cpp:139-153 | the same for append |
| Metadata.EraseSucceeds | camera/CameraMetadata.cpp:383-410 | the same for erase, which reports an error exactly when there is no buffer |
| Metadata.UpdateIsSeen | camera/CameraMetadata.cpp:293-381 | after an update find shows the new data for its tag and the old for every other, and no tag becomes repeated |
| Metadata.EraseIsSeen | camera/CameraMetadata.cpp:351-410 | after erase the tag is gone exactly when it occurred at most once; other tags are untouched |
| Metadata.AppendIsSeen | camera/CameraMetadata.cpp:139-153 | after append the entries that were there win |
| Metadata.SelfAppendIsSafeIffRoom | camera/CameraMetadata.cpp:139-153 | appending an object to itself doubles its entries exactly when there is room for them, and reads freed memory otherwise |
| Metadata.FullBufferAppendsFreed | camera/CameraMetadata.cpp:139-153 | a failing family: every full buffer that is not empty |
| Metadata.RunKeepsEntries | camera/CameraMetadata.cpp:293-452 | over any run the entries are those of the same run on plain lists, so reallocation is invisible, unless the run appends an object to itself without room |
| Metadata.GrowthIsExponential | camera/CameraMetadata.cpp:416-452 | k growth reallocations multiply (entryCap+1)*(dataCap+1) by at least 2^k |
| Metadata.CapacitiesStayBounded | camera/CameraMetadata.cpp:416-452 | each capacity stays within the larger of its start and twice its peak demand |
| MetadataChanges.ResizedCapacities | camera/CameraMetadata.cpp:416-452 | a capacity becomes twice the demand exactly when the demand exceeds it |
| MetadataChanges.ReallocatesIff | camera/CameraMetadata.cpp:416-452 | an operation moves the buffer exactly when its demand exceeds a capacity |
| MetadataChanges.UpdateEntryByEntry | camera/CameraMetadata.cpp:316-340 | an update changes the first entry of its tag in place, or adds one at the end |
| MetadataChanges.EraseEntryByEntry | camera/CameraMetadata.cpp:383-410 | an erase takes out the first entry of its tag and keeps the order of the others |
| Metadata.CameraMetadata.GetAndLock | camera/CameraMetadata.cpp:78-81 | locks and gives out the buffer |
| Metadata.CameraMetadata.Unlock | camera/CameraMetadata.cpp:83-95 | unlocks exactly when locked and given the same buffer |
| Metadata.CameraMetadata.ResizeIfNeeded | camera/CameraMetadata.cpp:416-452 | the buffer becomes the resized one; it moves to fresh memory, and the old one is freed, exactly when it has to grow |
| Metadata.CameraMetadata.Update | camera/CameraMetadata.cpp:172-349 | succeeds exactly when unlocked, of the tag's type and with data that does not lie inside the buffer; then the entry list is updated |
| Metadata.CameraMetadata.Append | camera/CameraMetadata.cpp:139-153 | when unlocked appends all entries, also its own when they fit; reads freed memory exactly when its own do not |
| Metadata.CameraMetadata.Erase | camera/CameraMetadata.cpp:383-410 | removes the first entry of the tag, if there is one |
| Metadata.CameraMetadata.Exists | camera/CameraMetadata.cpp:351-354 | true exactly when find would show the tag |
| MetadataBlob.MaskClearsLowBits | camera/CameraMetadata.cpp:29-30 | masking with 2^w - 2^k clears the low k bits |
| MetadataBlob.AlignToIsLeastMultiple | camera/CameraMetadata.cpp:29-30 | ALIGN_TO is the least multiple of a power of two at or above the address |
| MetadataBlob.OffsetIsInside | camera/CameraMetadata.cpp:599-631 | offset < alignment, offset + metadataSize <= blobSize, and the metadata starts aligned |
| MetadataBlob.RoundTrip | camera/CameraMetadata.cpp:454-638 | at any writer address the reader recovers all entries and leaves what follows, exactly when the metadata is valid and blobSize is below 2^31; invalid metadata is refused |
| MetadataBlob.NullRoundTrip | camera/CameraMetadata.cpp:474-478 | metadata NULL arrives as NULL |
| MetadataChanges.BlobIsAcceptedIff | camera/CameraMetadata.cpp:480-530 | for any size, bytes and offset: what is refused, and which bytes the metadata is made from |
| MetadataChanges.NegativeSizeIsRefused | camera/CameraMetadata.cpp:467-503 | a negative size is refused, as a blob larger than memory |
| MetadataBlob.WriteToParcel | camera/CameraMetadata.cpp:545-638 | appends blob size, padded blob and offset |
| MetadataBlob.ReadFromParcel | camera/CameraMetadata.cpp:454-543 | the metadata the parcel encodes, or its error, without reading outside the blob |
| MetadataBlob.ReadInto | camera/CameraMetadata.cpp:640-670 | replaces the object's metadata, or keeps it on any error |
| TagNames.FindSection | camera/CameraMetadata.cpp:715-741 | the first of the longest section names that begin the input |
| TagNames.FindTag | camera/CameraMetadata.cpp:760-778 | the first tag of a built-in section with the name, or the end of the section |
| TagNames.GetTagFromName | camera/CameraMetadata.cpp:700-792 | on OK the tag lies in the longest-prefix section and its name is what follows and one separator; every error in its case |
| TagNames.OwnSectionIffUndisputed | camera/CameraMetadata.cpp:717-741 | a full name settles on its own section exactly when no longer section name begins it and no earlier section has the same name |
| TagNames.FullNameResolves | camera/CameraMetadata.cpp:700-792 | then it resolves to a tag of the same section and name, whatever the separator; an empty tag name is refused |
| TagNames.BuiltInWinsTies | camera/CameraMetadata.cpp:717-741 | a vendor section named like a built-in one is never settled on |
| TagNames.AnswersAgree | camera/CameraMetadata.cpp:700-792 | the answer is determined when vendor pairs are distinct |
| ParameterStrings.ParsedIsClean | camera/CameraParameters.cpp:205-235 | whatever the string, no key unflatten adds holds '=' and no value ';' |
| ParameterStrings.ParsedFlat | camera/CameraParameters.cpp:185-235 | the parser inverts the printer on every clean list, order and repetitions included |
| ParameterStrings.Flatten | camera/CameraParameters.cpp:185-203 | the loop prints the flat form |
| ParameterStrings.FindItem | camera/CameraParameters.cpp:212-234 | one pass of the parser finds the next pair and where to go on |
| ParameterMeaning.FlatAppends | camera/CameraParameters.cpp:185-203 | one more pair prints as ";key=value" at the end, the first without the semicolon |
| ParameterMeaning.ChunkSplits | camera/CameraParameters.cpp:212-234 | one pass splits any string at its first "=" and the next ";", and stops without an "=" |
| CameraParameters.PutIsSeen | camera/CameraParameters.cpp:238-255 | storing a pair changes its key only |
| CameraParameters.DropIsSeen | camera/CameraParameters.cpp:294-297 | removing a key changes that key only |
| CameraParameters.UnflattenedMeans | camera/CameraParameters.cpp:205-235 | after unflatten each key has the last value the string gives it |
| CameraParameters.GoodRoundTrip | camera/CameraParameters.cpp:185-235 | every sorted clean map survives flatten and unflatten |
| CameraParameters.UnflattenFlattenUnflatten | camera/CameraParameters.cpp:185-235 | for every string, unflatten(flatten(unflatten(s))) is unflatten(s) |
| ParameterMeaning.SetIsSeen | camera/CameraParameters.cpp:238-277 | set is seen exactly when neither key nor value holds a separator, and never changes another key |
| CameraParameters.RunKeepsGood | camera/CameraParameters.cpp:205-297 | every run of set, remove and unflatten keeps the map sorted and clean |
| CameraParameters.ReachableSurvives | camera/CameraParameters.cpp:185-297 | every map reachable by such a run survives flatten and unflatten |
| CameraParameters.SizesAreInverse | camera/CameraParameters.cpp:350-443 | size setters and getters are mutually inverse for all 32-bit values |
| ParameterMeaning.NoSizeStored | camera/CameraParameters.cpp:357-364 | missing, empty and malformed values all read as -1x-1 |
| CameraParameters.CameraParameters.Flatten | camera/CameraParameters.cpp:185-203 | prints the map, from which the map can be read back |
| CameraParameters.CameraParameters.Unflatten | camera/CameraParameters.cpp:205-235 | replaces the map by what the string says |
| CameraParameters.CameraParameters.Set | camera/CameraParameters.cpp:238-255 | stores an allowed pair; null or forbidden characters change nothing |
| CameraParameters.CameraParameters.Remove | camera/CameraParameters.cpp:294-297 | removes the key |
| CameraParameters.CameraParameters.Get | camera/CameraParameters.cpp:271-277 | the stored value; an empty one reads like a missing one |
| CameraParameters.CameraParameters.SetSize | camera/CameraParameters.cpp:350-355 | afterwards the getter gives the size, and no other parameter has changed |
| CameraParameters.CameraParameters.GetSize | camera/CameraParameters.cpp:357-364 | the size stored, or -1x-1 |
| CameraParameters.CameraParameters.GetSupportedSizes | camera/CameraParameters.cpp:374-378 | adds what the list parser finds in the stored value, which is every size of a printed list, and nothing for a missing one |
| SizeStrings.PairFits | camera/CameraParameters.cpp:350-355 | the text of two 32-bit integers and its terminator take at most 24 of the 32 bytes |
| SizeStrings.StrtolReadsPrinted | camera/CameraParameters.cpp:300-322 | a printed 32-bit integer is read back and the end is left right after it |
| SizeStrings.PairIsParsed | camera/CameraParameters.cpp:300-322 | a printed pair is parsed and the end is left right after it |
| ParameterMeaning.StrtolSaturates | camera/CameraParameters.cpp:300-322 | any decimal number with any sign is read, saturating at 64 bits |
| ParameterMeaning.PairNeedsDelimiter | camera/CameraParameters.cpp:300-322 | a pair is parsed exactly when the delimiter stands right behind the first integer |
| ParameterMeaning.SizesBeforeJunk | camera/CameraParameters.cpp:325-348 | a list followed by anything else than "," or the end loses exactly its last size |
| SizeStrings.SizesListRoundTrip | camera/CameraParameters.cpp:325-348 | every list of pairs printed as "WxH" joined by ',' is recovered |
| SizeStrings.ParseSizesList | camera/CameraParameters.cpp:325-348 | on any C string the loop ends, stays within the terminator, and pushes the sizes up to the first malformed pair |
| CameraParameters2.RunIsStamped | camera/CameraParameters2.cpp:92-108 | after any run the pairs stand in the order in which their keys were last set |
| CameraParameters2.RunIsSeen | camera/CameraParameters2.cpp:92-132 | each key has the value it was last set to, or none if removed since |
| CameraParameters2.SetOrderIsLastSetOrder | camera/CameraParameters2.cpp:149-177 | compareSetOrder finds exactly the keys that are set and orders two by when each was last set |
| CameraParameters2.OrderSurvivesFlattening | camera/CameraParameters2.cpp:37-90 | flatten and unflatten into a fresh object keep order and values |
| CameraParameters2.SetIsSeenIffNotRepeated | camera/CameraParameters2.cpp:92-132 | get sees a value just set exactly when the key occurred at most once or its second occurrence had it already |
| CameraParameters2.ReplaceIsSeen | camera/CameraParameters2.cpp:92-108 | what get shows after a set, of every key and for repeated keys too |
| CameraParameters2.DropIsSeen | camera/CameraParameters2.cpp:179-182 | what get shows after a remove: nothing exactly when the key was not repeated, otherwise its second value |
| CameraParameters2.SetIsLastIff | camera/CameraParameters2.cpp:149-177 | a key just set compares as later than another exactly when it was not repeated or its second occurrence comes after the other |
| CameraParameters2.RepeatedKeyGoesStale | camera/CameraParameters2.cpp:59-108 | a failing family: a key twice in a flat string, then set |
| ParameterMeaning.SetMovesToEnd | camera/CameraParameters2.cpp:92-108 | a pair that is taken becomes the last one, one with a separator changes nothing |
| CameraParameters2.CameraParameters2.Flatten | camera/CameraParameters2.cpp:37-57 | prints the list, from which it can be read back |
| CameraParameters2.CameraParameters2.Unflatten | camera/CameraParameters2.cpp:59-90 | replaces the list by the pairs of the string in their order |
| CameraParameters2.CameraParameters2.Set | camera/CameraParameters2.cpp:92-108 | makes the pair the last one; get then sees it, or the second value of a repeated key |
| CameraParameters2.CameraParameters2.Remove | camera/CameraParameters2.cpp:179-182 | removes the first pair of the key: get then shows its second value, if there is one, and every other key as before |
| CameraParameters2.CameraParameters2.Get | camera/CameraParameters2.cpp:124-132 | the first value of the key; an empty one is a value here |
| CameraParameters2.CameraParameters2.CompareSetOrder | camera/CameraParameters2.cpp:149-177 | the set order, with its error cases |
| CameraParameters2.CameraParameters2.SetPreviewFpsRange | camera/CameraParameters2.cpp:304-308 | afterwards the getter gives the range, or the second one of a repeated key |
| CameraParameters2.CameraParameters2.GetPreviewFpsRange | camera/CameraParameters2.cpp:296-302 | the range stored, or -1 and -1 |
| TextWrap.ComputeScaledStringWidth | cmds/screenrecord/TextRenderer.cpp:169-179 | the loop adds up the widths of the glyphs |
| TextWrap.BreakFits | cmds/screenrecord/TextRenderer.cpp:334-357 | the line up to a break fits, unless it is a single character that does not |
| TextWrap.BreakIsGreedy | cmds/screenrecord/TextRenderer.cpp:334-357 | a line breaks at the last whitespace that lets it fit, or else as late as it fits |
| TextGreedy.WrapIsGreedy | cmds/screenrecord/TextRenderer.cpp:282-357 | every line that is drawn, but the last, is the greedy one: nothing that fits ends at a later whitespace, or goes further inside a word; the last is what fits as a whole |
| TextGreedy.GreedyIsWrap | cmds/screenrecord/TextRenderer.cpp:282-357 | no other lines are greedy: whenever there are greedy lines, these are the ones drawn |
| TextGreedy.GreedyLineIsUnique | cmds/screenrecord/TextRenderer.cpp:334-357 | a string has at most one greedy first line |
| TextWrap.WrapRejoins | cmds/screenrecord/TextRenderer.cpp:282-312 | putting back at each break nothing or the one skipped whitespace gives back the input; only the last line can be empty |
| TextWrap.WrapFits | cmds/screenrecord/TextRenderer.cpp:282-312 | when every glyph fits the indented line the cursor never passes the terminator and every line fits its limit |
| TextWrap.LastFitsIsSafe | cmds/screenrecord/TextRenderer.cpp:282-312 | when the string or its last character fits, the cursor never passes the terminator |
| TextWrap.LastTooWideOverruns | cmds/screenrecord/TextRenderer.cpp:295-307 | otherwise it does, for every string that does not end in whitespace |
| TextWrap.SingleTrailingSpaceIsSafe | cmds/screenrecord/TextRenderer.cpp:304-308 | a single whitespace character at the end is always skipped, never left alone |
| TextWrap.SafeIffLastFits | cmds/screenrecord/TextRenderer.cpp:282-312 | the exact condition under which the cursor stays within the string, unless it ends in two or more whitespace characters |
| TextWrap.BlankLineMeansTrailingSpace | cmds/screenrecord/TextRenderer.cpp:303-310 | an empty last line comes from skipped whitespace at the end of the string |
| TextWrap.BlankLineIffSpaceDoesNotFit | cmds/screenrecord/TextRenderer.cpp:282-327 | behind a last line with room to spare, a whitespace character draws an empty line exactly when it does not fit that line; all lines are given |
| TextWrap.TrailingSpaceDrawsBlankLine | cmds/screenrecord/TextRenderer.cpp:318-327 | the same for text that fits the first line, with a condition on the widths of the input |
| TextWrap.CharacterBehindBlankLine | cmds/screenrecord/TextRenderer.cpp:282-312 | behind an empty last line, one more character keeps the cursor within the string exactly when it fits the line |
| TextWrap.BreakString | cmds/screenrecord/TextRenderer.cpp:318-360 | no break when the string fits, otherwise the greedy one |
| TextWrap.DrawLine | cmds/screenrecord/TextRenderer.cpp:289-309 | draws the text up to the break and leaves the string as it was |
| TextWrap.DrawPieces | cmds/screenrecord/TextRenderer.cpp:286-312 | draws exactly the lines of the string, each at its place, unless the cursor passes the terminator |
| TextWrap.DrawWrappedString | cmds/screenrecord/TextRenderer.cpp:253-316 | the lines with their places, and ypos grown by line count times glyph height; every early return |
| CaptureCodec.ListIsRead | camera/CaptureResult.cpp:136-152 | a list of ids with metadata of any length is read back and what follows is left |
| CaptureCodec.ExtrasAreRead | camera/CaptureResult.cpp:29-61 | the extras are read back whatever the reader's fields were |
| CaptureCodec.ResultRoundTrip | camera/CaptureResult.cpp:106-213 | the encoding of a capture result is self-delimiting, for any number of physical results |
| CaptureLayout.ExtrasLayout | camera/CaptureResult.cpp:46-61 | the order and widths of the seven fields |
| CaptureLayout.ListLayout | camera/CaptureResult.cpp:187-199 | every physical result is its id followed by its metadata |
| CaptureLayout.NegativePhysicalCount | camera/CaptureResult.cpp:126-134 | a negative count of physical results is refused |
| CaptureCodec.TargetsAreRead | camera/camera2/CaptureRequest.cpp:86-147 | surfaces and index pairs are read back and what follows is left |
| CaptureCodec.RequestRoundTrip | camera/camera2/CaptureRequest.cpp:40-217 | the encoding of a request with settings is self-delimiting; one without settings is refused |
| CaptureCodec.TargetsSurviveIff | camera/camera2/CaptureRequest.cpp:179-215 | the targets arrive unchanged exactly when surfaces are not converted and the index lists have equal length |
| CaptureLayout.SurfaceLayout | camera/camera2/CaptureRequest.cpp:183-199 | every surface is its class name followed by its producer |
| CaptureLayout.IndexLayout | camera/camera2/CaptureRequest.cpp:204-215 | every index pair is the stream index followed by the surface index |
| CaptureLayout.SettingsCountMustBePositive | camera/camera2/CaptureRequest.cpp:48-57 | a request that claims no settings is refused |
| CaptureLayout.SurfaceWithoutProducer | camera/camera2/CaptureRequest.cpp:106-119 | a surface without a producer arrives as a null surface |
| CaptureLayout.NegativeTargetCounts | camera/camera2/CaptureRequest.cpp:87-131 | a negative number of surfaces counts as none, a negative number of index pairs is refused |
| CaptureParcels.ReadTaggedList | camera/CaptureResult.cpp:136-152 | the reading loop computes the decoded list or its error |
| CaptureParcels.WriteTaggedList | camera/CaptureResult.cpp:187-199 | the writing loop appends the encoded list |
| CaptureParcels.CaptureResult.ReadFromParcel | camera/CaptureResult.cpp:106-164 | the result the parcel encodes, or its error |
| CaptureParcels.CaptureResult.WriteToParcel | camera/CaptureResult.cpp:166-213 | appends the encoding of the result |
| CaptureParcels.ReadExtras | camera/CaptureResult.cpp:29-44 | seven reads whose failures leave their fields |
| CaptureParcels.WriteExtras | camera/CaptureResult.cpp:46-61 | appends the seven fields |
| CaptureParcels.CaptureRequest.ReadFromParcel | camera/camera2/CaptureRequest.cpp:40-150 | the request the parcel encodes, or its error |
| CaptureParcels.CaptureRequest.ReadSurfaces | camera/camera2/CaptureRequest.cpp:94-122 | the loop over the surfaces, where a null class name skips one |
| CaptureParcels.CaptureRequest.ReadIndexes | camera/camera2/CaptureRequest.cpp:133-147 | the loop over the index pairs |
| CaptureParcels.CaptureRequest.WriteToParcel | camera/camera2/CaptureRequest.cpp:152-217 | appends the encoding of the request |
| Player.SelectedAreFirsts | cmds/stagefright/SimplePlayer.cpp:290-308 | exactly the first audio and the first video track get a codec |
| Player.SelectTracks | cmds/stagefright/SimplePlayer.cpp:290-308 | the loop selects those tracks |
| Player.StepKeepsInv | cmds/stagefright/SimplePlayer.cpp:107-270 | every message keeps the invariant |
| Player.EveryRunKeepsOnePump | cmds/stagefright/SimplePlayer.cpp:107-416 | in every run exactly one waiting pump message is current when STARTED and none otherwise, and codecs exist only in STOPPED or STARTED |
| Player.WorksOnlyWhenStarted | cmds/stagefright/SimplePlayer.cpp:250-264 | a pump message does work only in STARTED |
| Player.NoWorkUntilStart | cmds/stagefright/SimplePlayer.cpp:250-264 | no pump step runs between a stop and the next start |
| Player.PumpLivesOn | cmds/stagefright/SimplePlayer.cpp:250-264 | while STARTED the pump message can be delivered, works and waits again |
| Player.ResetForgetsSourceIffPrepared | cmds/stagefright/SimplePlayer.cpp:227-247 | reset answers OK always and goes back to UNINITIALIZED exactly from other states than UNPREPARED |
| PlayerAnswers.StopStops | cmds/stagefright/SimplePlayer.cpp:204-225 | stop is answered OK in STARTED only; then the player is STOPPED and no waiting pump message carries its generation |
| PlayerAnswers.StartStarts | cmds/stagefright/SimplePlayer.cpp:171-202 | start is answered OK exactly from STOPPED and from UNPREPARED with a source that opens; then the player is STARTED with a fresh generation and its pump |
| PlayerAnswers.PreparePrepares | cmds/stagefright/SimplePlayer.cpp:149-169 | prepare is answered OK exactly in UNPREPARED with a source that opens; then exactly the first audio and video track have a codec |
| PlayerAnswers.SourceAndSurface | cmds/stagefright/SimplePlayer.cpp:109-147 | a source is taken in UNINITIALIZED only, a surface in UNPREPARED only; otherwise nothing changes |
| PlayerAnswers.ResetClears | cmds/stagefright/SimplePlayer.cpp:227-248 | reset of a prepared player clears it and makes its pump message stale |
| PlayerAnswers.PumpWorksOrDisappears | cmds/stagefright/SimplePlayer.cpp:250-264 | a current pump message waits again, and the first one sets the start time one second ahead; a stale one disappears |
| PlayerAnswers.NoWorkFromStopToStart | cmds/stagefright/SimplePlayer.cpp:204-264 | from a stop on no pump message works until the next start, in every run |
| PlayerAnswers.StartedPlayerPlays | cmds/stagefright/SimplePlayer.cpp:107-264 | a player that gets a source and is started works, and works again |
| Player.SimplePlayer.OnMessageReceived | cmds/stagefright/SimplePlayer.cpp:107-270 | is one step of the machine, keeps the invariant, and no CHECK on the state fails |
| Player.SimplePlayer.OnPrepare | cmds/stagefright/SimplePlayer.cpp:272-376 | gives the selected tracks a codec, or clears the extractor when the source cannot be opened |
| Player.SimplePlayer.OnStart | cmds/stagefright/SimplePlayer.cpp:378-388 | a new generation and its pump message |
| Player.SimplePlayer.OnStop | cmds/stagefright/SimplePlayer.cpp:390-396 | a new generation without a pump message |
| Player.SimplePlayer.OnReset | cmds/stagefright/SimplePlayer.cpp:398-416 | everything prepared is cleared |
| AudioRender.FreeFramesIsTrueSpace | cmds/stagefright/SimplePlayer.cpp:610-615 | the 32-bit wrap-around formula is the true free space, however often the counters have wrapped |
| AudioRender.CopyIsFrames | cmds/stagefright/SimplePlayer.cpp:617-649 | a call copies whole frames, as many as there is room and data for |
| AudioRender.RenderedKeepsSound | cmds/stagefright/SimplePlayer.cpp:602-650 | the true backlog stays within frameCount, mOffset + mSize is constant, and the bytes written are those mOffset moves over |
| AudioRender.PassKeepsInv | cmds/stagefright/SimplePlayer.cpp:518-566 | a pass of the output loop keeps the order of buffers and the account of bytes |
| AudioRender.EveryRunWritesInOrder | cmds/stagefright/SimplePlayer.cpp:518-650 | in every run buffers are given back once and in order, and each one not dropped as late is written in full, once, in order, before that |
| AudioTiming.PassJudges | cmds/stagefright/SimplePlayer.cpp:521-565 | a pass drops a buffer exactly when it is more than 30 ms late, shows none that is 10 ms early or more, and stops only in front of one that is early, or in time with data left and the track full |
| AudioTiming.EveryRunJudges | cmds/stagefright/SimplePlayer.cpp:521-565 | in every run each buffer given back was dropped exactly when it was more than 30 ms late at the time of the pass that gave it back |
| AudioRender.CodecState.RenderAudio | cmds/stagefright/SimplePlayer.cpp:602-650 | writes what the specification says and keeps the wrapped counter in step with the true one |
| AudioRender.CodecState.OutputPass | cmds/stagefright/SimplePlayer.cpp:521-565 | the loop over the output buffers is one pass |
| Trim.MicrosExactIff | cmds/stagefright/muxer.cpp:95-96 | the window times are exact up to 2147483 ms and no further |
| Trim.WrittenRuns | cmds/stagefright/muxer.cpp:181-203 | with trimming on a written sample is not after the end, a run starts at a sync sample in the window with output time 0, and neighbours are shifted alike |
| Trim.RunStart | cmds/stagefright/muxer.cpp:181-203 | every written run goes back to such a sample, all of it shifted by that sample's time |
| Trim.TrimIsOneBlock | cmds/stagefright/muxer.cpp:159-207 | with nondecreasing times the output is the contiguous block from the first sync sample in (start, end] to the last sample not after the end, shifted by one constant |
| Trim.BlockFromStartIffNotAtStart | cmds/stagefright/muxer.cpp:181-190 | the output is the block from the first sync sample in [start, end] exactly when that sample is not at the start |
| Trim.SyncSampleAtStartIsSkipped | cmds/stagefright/muxer.cpp:181-190 | a lone sync sample at the start time is not written |
| Trim.ResetStartLosesFirstSample | cmds/stagefright/muxer.cpp:130-137 | a start set back to 0 loses a first sync sample at time 0 |
| Trim.CopyWithoutTrim | cmds/stagefright/muxer.cpp:199-203 | without trimming all samples are copied unshifted |
| Trim.KeptSampleIsWritten | cmds/stagefright/muxer.cpp:181-210 | whatever the order of times, a kept sample is written once, in its place, with its own track, sync flag and data, at its time less that of the sync sample its run goes back to |
| Trim.BlockSampleBySample | cmds/stagefright/muxer.cpp:181-210 | with nondecreasing times, the k-th written sample is the k-th of the block, at its time less that of the first |
| Trim.CopySampleBySample | cmds/stagefright/muxer.cpp:181-210 | without trimming every sample is written with its own time, track, sync flag and data |
| Trim.ChooseTracks | cmds/stagefright/muxer.cpp:100-152 | the first audio and video tracks asked for that the muxer takes, and the start corrected to 0 when it is after the end of one |
| Trim.CopySamples | cmds/stagefright/muxer.cpp:159-207 | the sample loop writes exactly the specified output |

## Left out

- VendorTagDescriptors.VendorTagDescriptor.ReadFromParcel: only into a fresh descriptor, the case the round trip is promised for.
- VendorTagDescriptors.VendorTagDescriptorCache.ReadFromParcel: the cache holds the descriptors' tables as values, so sharing of one descriptor object between caches is not modelled; likewise the pointers of the nested reverse index are values.
- TextWrap.SafeIffLastFits: one direction for strings that end in two or more whitespace characters; for these TextWrap.CharacterBehindBlankLine and TextWrap.BlankLineIffSpaceDoesNotFit give the exact rule character by character, except behind a line that fills its room to the last fraction of a pixel.
- TextWrap.DrawWrappedString: requires that xpos leaves no negative width, as the conversion of a negative float to size_t is undefined; rounding of floats is not modelled.
- CaptureParcels.CaptureResult.ReadFromParcel: what the fields hold after an error, and metadata as objects inside it; the metadata are values here. The same goes for CaptureParcels.CaptureRequest.ReadFromParcel.
- Player.SimplePlayer.OnMessageReceived: the generation may not wrap (a precondition of the step), and the reply of an accepted set-source, which the code never sets, is not given a value.
- AudioRender.CodecState.RenderAudio: buffers hold whole frames, and the audio track takes a write that fits; a format change in the middle of a stream, which replaces the track, is not modelled.
- CameraIpc.Ipc.SetRecording: only the listener that routes frames, not the reconnection or the start and stop calls to the service.
- Player.SimplePlayer.OnPrepare: which tracks get a codec, not the codec's configuration, start and first buffers, which are calls into the media framework; Player.SimplePlayer.OnReset likewise leaves out the release calls.
- CaptureParcels.CaptureRequest.WriteToParcel: the caller has to pass surfaces that are not null and as many surface indices as stream indices, which the code dereferences and indexes without a check.
- RecordingHandles.RunKeepsInv: runs without failed transactions or null handles, with a camera set, and with receivers that release each handle once.
- Metadata.CameraMetadata.ResizeIfNeeded: allocation succeeds, sizes do not wrap, entries have their tag's type, and no buffer is sorted.
- Binder transport, death notification, service lookup, and the byte layout of parcels.
- The code of the camera_metadata library, of KeyedVector and SortedVector, of strtol and sprintf, of MediaCodec, MediaExtractor, MediaMuxer and AudioTrack; their contracts are stated where they are used.
- The input half of onDoMoreStuff, the drawing of glyphs and textures, and all mains and option parsing.
- The cache's getters look up a descriptor by vendor id and call its getter of the same name; setFloat and getFloat print and parse floating-point numbers; getInt parses with a base that the text itself chooses; logging and dump only write text out. None of them changes state modelled here.
