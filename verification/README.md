# Verification of the LED firmware library

A Dafny model of the concurrency, storage and encoding logic of the LED firmware, with proofs about every
run, every input and every interleaving. `dafny verify dfyconfig.toml` checks it.

## What is modelled

| module | file | models |
|---|---|---|
| `LockSpec` | `LockSpec.dfy` | the readers/writers lock as its users see it; common datatypes (`Wrappers`) |
| `RwLock`, `RwLockObject` | `RwLock.dfy`, `RwLockObject.dfy` | the semaphore protocol of `task::rw_lock`, one step per semaphore operation and per load or store of a counter, for any number of tasks |
| `ConfigCache`, `ConfigBackend` | `ConfigCache.dfy`, `ConfigBackend.dfy` | one parameter (stored form, cache entry, record), and the write-behind cache as concurrent readers, writers, subscribers and the flush task |
| `AppFlash`, `AppUpload`, `UserApp`, `AppQueue`, `AppSafety` | same names | the user app's file in flash, the upload actions, the store and its thread, the action queue and its heap blocks, and loading against render threads |
| `SpiTransport`, `LedThread` | same names | double buffering of frames against the SPI completion interrupt |
| `CircBuf`, `FrameBuf` | same names | the ring buffer and the frame queue |
| `OutputBuffer`, `Ws2812`, `Transcoder`, `LedService` | same names | the output buffer, the two line codes, frame building and the control characteristic |
| `Color` | `Color.dfy` | HSL to RGB over exact reals |

Code that changes state in place is a class or a method with loops, proved against a specification function;
protocols whose tasks interleave are state machines whose steps use the same specification functions. The
main results quantify over all runs: sequences of states joined by events.

Facts of the code that the model keeps, because the properties depend on them:

* The lock's counters are loaded, changed and stored in separate steps; only the mutex makes that safe.
* `rw_lock::init` tests `read_lock` after creating each of the four semaphores, so it also succeeds without
  the others. An operation on a semaphore that does not exist never completes in the model, except that the
  two gives at the end of `init` then have no effect. `CallbacksNeedTheirSemaphores` says which calls are lost.
* The first load of a parameter installs a fresh cache entry without subscribers
  (src/cfg/flash_backend.cc:136). Whoever registered before is lost. `SubscribeIsSafe` gives
  the exact condition before the call, `LostSubscriber` a run wherever it fails. The DMX thread subscribes
  before its first get (src/dmx/thread.cc:71-77), so its subscription is lost if the record exists and
  nobody has read it yet.
* A save that fails restores the old storage state: into an empty file that reports "empty" although a
  restart would find records (`StorageTellsTheFile`).
* Only that load sets `alloc_length`, so a later write of another length can be taken for "no change":
  `HiddenWrite` is an input, `StoreTakesEffect` the exact condition, and with one length per parameter, as
  `param<T>` fixes it, `StoreOneLength` excludes it.
* Subscribers are called with a pointer past the two-byte header but with the length of the whole record.
* The flush pass tests its flags against masks truncated to 16 bits; the header allows 32 parameters
  (`MaskSurvivesBelow16`). The five parameters there are lie below.
* `load_from_flash` clears only the first four bytes of RAM (it clears the size of a pointer), and a failure
  restores the old state whatever has been copied. That is safe because it is called at boot only:
  `CallbacksRunApprovedImages` needs that rule and `LateReloadCanLeaveAMixture` shows why.
* The assertions in the ring buffer's copy loops test `<` where the algorithm needs `<=`. The classes take
  the form of the assertion as a parameter; `StrictRingIsOneShot` characterises what the strict one costs.
* `buffer::fill` stores its loop counter after it has reached 0, so the count of leading zeros never leaves
  0 and the shortcut only ever fires when there is nothing to write.
* An unknown colour mode shows black; a render after a reset pads the strip with black.

## Model

| member | source | states |
|---|---|---|
| RwLock.CallbacksExclude | include/task.hh:75-167 | in every state of every run of any number of tasks a write callback overlaps no other callback, and both counters equal the number of tasks in the matching phase |
| RwLock.StepKeepsInv | include/task.hh:75-167 | every semaphore operation and every counter load or store keeps the inductive invariant of the protocol |
| RwLock.StepRefines | include/task.hh:75-167 | every step of the protocol is an acquire or release of the abstract readers/writers lock, or invisible |
| RwLock.GivesFindTheSemaphoreTaken | include/task.hh:84-93 | a mutex is given by its holder and a group semaphore only while it is taken, so no give is lost |
| RwLock.FirstReaderNeverWaits | include/task.hh:79-83 | the first reader's take of `resource_lock` always finds it free |
| RwLock.CallsRunTheirCallback | include/task.hh:75-167 | in any run, whatever the other tasks do, a call of read() (write()) runs its callback exactly once before it returns, and never the other one |
| RwLock.NoDeadlock | include/task.hh:75-167 | whenever a task is inside the protocol some task can step |
| RwLock.Drains | include/task.hh:75-167 | without new calls the number of remaining operations is bounded, and when nothing can run every call has returned |
| RwLock.WritersComeFirst | include/task.hh:150-163 | while the writers own `block_readers`, `n_readers` never rises, no reader enters, and the steps readers still take are bounded by their remaining work at the start |
| RwLock.StepPrefersWriters | include/task.hh:79-96 | while the writers own `block_readers` a step lets no task join the readers, and each step of a reader inside shortens the remaining work |
| RwLock.WaitingWriterOwnsGate | include/task.hh:150-155 | a writer waiting for the resource is one of those that own `block_readers` |
| RwLock.InitInv | src/core/task.cc:111-140 | the initial counters and semaphores satisfy the invariant |
| RwLockObject.LockObject.Initialize | src/core/task.cc:111-140 | success means that `read_lock` was created; every semaphore then exists and the lock is in its initial state exactly when `write_lock`, `resource_lock` and `block_readers` were created too |
| RwLockObject.CallbacksNeedTheirSemaphores | src/core/task.cc:111-140 | over all runs of the lock that init left: a read callback can ever run if and only if all semaphores but `write_lock` were created, a write callback if and only if all but `read_lock` were |
| RwLockObject.InitMissesWriteLock | src/core/task.cc:121-124 | the failing input: only `write_lock` was not created, init succeeds, reads work, and no write ever gets to its callback |
| RwLockObject.LockObject.Step | include/task.hh:75-167 | the lock object changed in place runs an operation exactly when the protocol enables it and its semaphore exists, and reaches the protocol's next state |
| ConfigCache.ParamSizeIsWholeWords | include/cfg/types.hh:9-26 | the padding makes a stored parameter the shortest whole number of words |
| ConfigCache.ParamRoundTrip | include/cfg.hh:19-50 | a value encoded by set decodes in get, whatever the padding holds; any other version is refused |
| ConfigCache.MaskSurvivesBelow16 | src/cfg/flash_backend.cc:246-250 | the truncated flag test sees a parameter if and only if its index is below 16 |
| ConfigCache.WholeWordsKeepsAll | src/cfg/flash_backend.cc:259-272 | a record keeps every byte if and only if the length is a whole number of words |
| ConfigCache.StoreTakesEffect | src/cfg/flash_backend.cc:158-184 | a write is visible afterwards if and only if the no-change shortcut does not fire on a value of another length |
| ConfigCache.HiddenWrite | src/cfg/flash_backend.cc:158-165 | a loaded record and two writes of different lengths after which the last write is hidden |
| ConfigCache.SameAgain | src/cfg/flash_backend.cc:158-184 | the same bytes written twice count as unchanged only in a block that was loaded with their length, because nothing else sets `alloc_length` |
| ConfigCache.StoreOneLength | src/cfg/flash_backend.cc:158-184 | with one length written per parameter every write takes effect, whatever length was loaded |
| ConfigCache.CacheEntry.StoreData | src/cfg/flash_backend.cc:153-189 | the exclusive phase of write in place: the new entry, and whether it reports a change |
| ConfigCache.CacheEntry.TryRead | src/cfg/flash_backend.cc:289-299 | a hit overlays the cached words on the buffer, a miss leaves it alone |
| ConfigCache.CacheEntry.LoadRecord | src/cfg/flash_backend.cc:127-136 | the first load replaces the entry, subscribers included |
| ConfigCache.CacheEntry.Subscribe | src/cfg/flash_backend.cc:223-228 | the new subscriber is put in front of the list and nothing else changes |
| ConfigBackend.WriteBehind | src/cfg/flash_backend.cc:148-287 | in every state of every run a cached parameter is in flash, dirty, or still to be written by the current pass; a record is created only when there is none |
| ConfigBackend.NoTailIsLost | src/cfg/flash_backend.cc:259-272 | in every state of every run of typed parameters a cached parameter is in flash to the last byte, dirty, or still to be written: the padding makes every cached value whole words |
| ConfigBackend.QuietMeansStored | src/cfg/flash_backend.cc:233-287 | in any run of typed parameters, with the flush task asleep and nothing dirty, flash is exactly the map of the latest writes |
| ConfigBackend.PassStoresEverything | src/cfg/flash_backend.cc:233-287 | in any such run, from the moment the task takes its notification, successful flush operations end the pass within a bound, and flash then is the map of the latest writes |
| ConfigBackend.FlushCompletes | src/cfg/flash_backend.cc:233-287 | every run of typed parameters that has not halted can be continued by at most 25 flush operations after which flash is the map of its latest writes |
| ConfigBackend.EveryStoreLooksUp | src/cfg/flash_backend.cc:251-284 | between two stores there is a lookup, also when a store is repeated for want of space |
| ConfigBackend.FlushTask.Pass | src/cfg/flash_backend.cc:246-285 | one pass stores exactly the flagged parameters, repeats without space, and halts after a completed prefix if and only if one of its operations meets another error |
| ConfigBackend.SubscribeIsSafe | src/cfg/flash_backend.cc:206-231 | the exact condition before the call, in any state where subscribe can run: the subscriber is on the list in every continuation if and only if the parameter is cached or has no record |
| ConfigBackend.SubscriberStays | src/cfg/flash_backend.cc:113-139 | in any run a subscriber is still on the list at a later point if and only if the record was not loaded in between; after a safe call it never is |
| ConfigBackend.UseCaches | src/cfg/flash_backend.cc:97-189 | a parameter that was written, or read with success, is cached from then on: how a caller makes subscribing safe |
| ConfigBackend.SubscribersOnlyGrow | src/cfg/flash_backend.cc:206-231 | between any two points of a run the list of a cached parameter only grows, at the front |
| ConfigBackend.DroppedIsNeverCalled | src/cfg/flash_backend.cc:136 | a subscriber whose parameter is loaded after it registered is never called, in any run |
| ConfigBackend.LostSubscriber | src/cfg/flash_backend.cc:136 | from every reachable state in which subscribing is not safe, a continuation of six steps in which the subscriber is lost: subscribe, first read, changing write without a call |
| ConfigBackend.SubscribersConverge | src/cfg/flash_backend.cc:148-204 | for any subscribe event and later changing write of a run, at every later point with no notify pending the subscriber was last called with the current value if and only if the record was not loaded between the two events, as after every safe call; otherwise it was never called |
| ConfigBackend.SubscribersGetTheValue | src/cfg/flash_backend.cc:191-201 | in any run of typed parameters, once nothing is pending after a changing write, what a subscriber that was not dropped was called with last begins with the value that was set last, and the length is that of the whole record |
| ConfigBackend.StepKeepsInformed | src/cfg/flash_backend.cc:191-201 | every step leaves a due subscriber informed of the current value or with a call pending |
| ConfigBackend.NoTaskIsStuck | src/cfg/flash_backend.cc:97-231 | in every state of every run that has not halted a task inside a call can take a step that brings it closer to returning, or another one inside a shared section can |
| ConfigBackend.StepRefinesMap | src/cfg/flash_backend.cc:97-231 | a write sets its parameter and no other step changes any value, late loads included |
| ConfigBackend.ReadsReturnTheLatestWrite | src/cfg/flash_backend.cc:97-146 | every successful read returns the latest write in lock order or the record in flash; nothing is found only when there is neither |
| ConfigBackend.GetReturnsLastSet | include/cfg.hh:19-50 | in any run get returns the value that set stored last, or refuses it to a parameter of another version |
| ConfigBackend.ReadAnswers | src/cfg/flash_backend.cc:97-146 | what each attempt of a read answers: a hit always has the bytes, nothing found and failure have exactly one cause each |
| ConfigBackend.SecondAttemptGoesOn | src/cfg/flash_backend.cc:97-113 | in any run the second attempt of a read is for the parameter and buffer of the first |
| ConfigBackend.GetAfterSetSucceeds | include/cfg.hh:19-50 | once a parameter was set, in any run, its reads cannot fail |
| AppFlash.FirmwareIsSane | src/core/userapp.cc:11-15 | with flash pages of 1024 words a full image needs fewer records than there are keys before the CRC record's |
| AppFlash.FilesFit | src/core/userapp.cc:163-298 | any history of saves, each cut off after any number of record operations, and erases leaves consecutive records that fit the image, record i of length Min(max, size - i * max) |
| AppFlash.SaveLeaves | src/core/userapp.cc:163-276 | after m record operations of a save the file is well formed and holds the front of the image over the old bytes under the old CRC record; on completion it holds the image and its CRC |
| AppFlash.SaveFinishes | src/core/userapp.cc:181-240 | from any well-formed file a save that is not cut off completes, in no more operations than there are keys |
| AppFlash.TornSaveIsNoticed | src/core/userapp.cc:132-161 | a save cut off over a stored image is noticed by the next load if and only if the CRC of the mixture differs from that of the old image |
| AppFlash.SaveLoadRoundTrip | src/core/userapp.cc:76-276 | after any such history a save of an image with its CRC that finishes, and a load into any RAM, yield exactly that image and success; a save that is not cut off finishes |
| AppFlash.HeldImageLoads | src/core/userapp.cc:76-161 | a file that holds an image and its CRC loads as that image |
| AppFlash.UpdateFits | src/core/userapp.cc:182-219 | updating a record with its own length keeps the split and puts the bytes in their place |
| AppFlash.AppendFits | src/core/userapp.cc:222-240 | a new record of the largest length extends the split |
| AppFlash.UpdateReplaces | src/core/userapp.cc:182-219 | an update with the record's own length changes the bytes of its record only |
| UserApp.Store.SaveTempbufToFlash | src/core/userapp.cc:163-276 | however it ends the file is what some number of record operations of the save leave, and it reports success exactly when that is all of them; the state is restored on failure; both loops end |
| UserApp.Store.LoadFromFlash | src/core/userapp.cc:76-161 | success exactly for a stored file whose CRC matches; RAM is the records over what was there, or the first of them after a read error; failures restore the state |
| UserApp.Store.LoadFromTempbuf | src/core/userapp.cc:278-293 | RAM becomes the buffer and the state "loaded" |
| UserApp.Store.Erase | src/core/userapp.cc:295-298 | accepted, the file is empty and the storage state says so; refused, nothing changes |
| UserApp.Store.ClearTempbuf | src/core/userapp.cc:352-356 | the whole buffer is zero |
| UserApp.Store.WriteTempbuf | src/core/userapp.cc:358-367 | a chunk is accepted exactly when offset plus length is at most the size; then its bytes are in their place, and all others stay |
| UserApp.Store.Process | src/userapp/thread.cc:73-125 | buffers, RAM, file, application state and storage state after one action are those of the specified action with the record operations that completed; only a matching CRC reaches RAM or flash |
| UserApp.Store.Serve | src/userapp/thread.cc:64-125 | the thread's loop does to buffers, RAM, file and both states what the queued actions specify, in their order, until the queue is empty or power is lost; without failing flash operations every save completes |
| UserApp.MatchingRequestsLoad | src/userapp/thread.cc:98-125 | RAM and the application state change exactly on a commit or run request with the CRC of the buffer |
| UserApp.UploadThenRestart | src/userapp/thread.cc:51-125 | whatever the store held, once the queued actions of one upload are served and no flash operation failed, a restart runs the image that the chunks make |
| UserApp.StorageTellsTheFile | src/core/userapp.cc:65-74 | after an action the storage state is the one that init would find in the file, except exactly after a save into an empty file that stored something and then stopped |
| UserApp.StorageStaysTrue | src/core/userapp.cc:163-298 | over any actions whose flash operations all complete the storage state stays the one that init would find |
| UserApp.Store.Boot | src/userapp/thread.cc:51-57 | boot ends with a CRC-checked flash image or the default one loaded, and when it is which |
| AppUpload.LastChunkWins | src/core/userapp.cc:358-367 | each byte of the buffer is that of the last in-range chunk that covers it |
| AppUpload.SlicesRebuildTheImage | src/core/userapp.cc:358-367 | slices in any order, repeated and overlapping, rebuild the image once every byte was sent |
| AppUpload.UploadEndToEnd | src/userapp/thread.cc:84-113 | begin, any chunks and commit, run from any well-formed file with any number of record operations completing, leave in the buffer and in RAM the image that the chunks make on a zeroed buffer, later chunks correcting earlier ones; if the save finishes, as it does without failing operations, a boot load recovers it |
| AppUpload.SlicesEndToEnd | src/userapp/thread.cc:84-113 | an image cut into slices in any order, repeated and overlapping, that send every non-zero byte, arrives in RAM and is recovered at boot |
| AppUpload.PiecesRebuildTheImage | src/core/userapp.cc:358-367 | an image cut into consecutive pieces of any lengths, sent in order up to its last byte, is rebuilt |
| AppUpload.PiecesEndToEnd | src/userapp/thread.cc:84-113 | such an image arrives in RAM and is recovered at boot |
| AppUpload.UploadAndRun | src/userapp/thread.cc:84-125 | begin, any chunks and a run request with the CRC of what they make put that into RAM and leave the file alone |
| AppUpload.ActionsKeepTheFile | src/userapp/thread.cc:64-125 | any sequence of actions, each cut off anywhere, keeps the file well formed |
| AppQueue.ActionQueue.QueueWrite | include/userapp/thread.hh:102-128 | when a write is accepted, that its chunk joins the pending actions, and that a block is lost exactly when the queue refuses an allocated write |
| AppQueue.ActionQueue.QueuePlain | include/userapp/thread.hh:93-170 | any other action joins the pending ones if there is room |
| AppQueue.ActionQueue.Receive | src/userapp/thread.cc:64-96 | the thread gets the oldest pending action with the bytes it was queued with; a write's block was live, is freed, and was not freed before |
| AppQueue.ActionQueue.EmptyQueueFreedEverything | src/userapp/thread.cc:91-96 | with the queue empty every accepted block has been freed and only refused ones are live |
| AppSafety.CallbacksRunApprovedImages | src/core/userapp.cc:76-340 | over all interleavings a callback runs only on a completely loaded image, the default one or one whose CRC matched its record or request, never during a copy |
| AppSafety.FlashLoadAgrees | src/core/userapp.cc:76-161 | under any interleaving a load copied byte by byte leaves in RAM what the whole load does, and ends in the state "loaded" exactly when the CRC record matches |
| AppSafety.StepKeepsInv | src/userapp/thread.cc:51-125 | every step of booting, uploading, copying and rendering keeps the invariant that ties the state, RAM, the file and the checked CRC |
| AppSafety.RunningBlocksLoads | src/core/userapp.cc:300-340 | while a callback runs no load is in progress or can begin |
| AppSafety.DefaultRuns | src/userapp/thread.cc:51-57 | without an app in flash every render thread can get to run the default image |
| AppSafety.FailedBootRunsDefault | src/userapp/thread.cc:51-57 | a boot load that fails, at whatever point, can be continued until the default image runs |
| AppSafety.StoredImageRuns | src/core/userapp.cc:76-161 | a stored image whose CRC matches its record can be loaded at boot and run |
| AppSafety.UploadRuns | src/userapp/thread.cc:84-125 | whenever nobody is inside the lock, any image can be uploaded, requested and run |
| AppSafety.LateReloadCanLeaveAMixture | src/core/userapp.cc:98-106 | load_from_flash called again with an app loaded can fail into the state "loaded" with RAM that is not the approved image |
| SpiTransport.CallsKeepConsistent | src/periph/spi.cc:57-133 | ready means that nothing is transmitted; only a send without a buffer breaks that |
| SpiTransport.OneTransfer | src/periph/spi.cc:57-133 | the buffer that was set is the one sent; until the completion every call is refused; after it the next send needs a new buffer exactly when the callback released this one |
| SpiTransport.Transport.Send | src/periph/spi.cc:81-103 | the new transport state and result of send |
| SpiTransport.Transport.SetBuffer | src/periph/spi.cc:57-79 | the new transport state and result of set_buffer |
| SpiTransport.Transport.OnDone | src/periph/spi.cc:110-133 | the completion event makes the transport ready and releases the buffer if the callback says so |
| LedThread.NoTearing | src/led/thread.cc:91-137 | in every run, timeouts included, the buffer on the wire holds the last started frame and no step changes it; frames go out as 0, 1, 2, ... each once |
| LedThread.LateTransferFaults | src/led/thread.cc:125-134 | after the wait set_buffer fails if and only if the transfer is late or the driver refuses |
| LedThread.NoFaultWithoutTimeout | src/led/thread.cc:104-149 | without timeouts and failing calls no check or assertion ever fails |
| LedThread.FramesGoOut | src/led/thread.cc:91-137 | a run that has not faulted, timeouts included, has sent exactly one frame for every six steps of the loop, the frames being 0, 1, 2, ... |
| LedThread.OneInterruptPerFrame | src/led/thread.cc:144-149 | in such a run there was one completion for every frame that is no longer on the wire |
| LedThread.BenignRunsSendFrames | src/led/thread.cc:104-149 | in a run without timeouts and failing calls n steps other than rendering have sent at least (n - 2) / 7 frames in order |
| LedThread.AlwaysAStep | src/led/thread.cc:104-149 | such a run is never stuck: a step that takes the loop forward can be taken |
| LedThread.LedTask.TaskStep | src/led/thread.cc:91-137 | the task's loop in place takes the modelled step |
| LedThread.LedTask.CompletionInterrupt | src/periph/spi.cc:110-133 | the interrupt releases the buffer and notifies, or faults on a pending notification |
| CircBuf.CircBuf.Push | include/util.hh:102-123 | push appends, failures change nothing, and when each result occurs, the assertion included |
| CircBuf.CircBuf.Pop | include/util.hh:130-152 | pop copies out and removes a prefix; failures change nothing |
| CircBuf.CircBuf.PopSome | include/util.hh:159-171 | pops as many as there are; when each result occurs, the assertion included |
| CircBuf.CircBuf.Peek | include/util.hh:173-183 | the oldest element, and when each error occurs, a null pointer first |
| CircBuf.CircBuf.Discard | include/util.hh:185-196 | removes a prefix or refuses the length; it moves the start like pop but meets no assertion |
| CircBuf.PushAppends | include/util.hh:111-120 | the two copied chunks split the data exactly across the wrap-around |
| CircBuf.PopDrops | include/util.hh:139-149 | advancing the start drops exactly a prefix, across the wrap-around too |
| CircBuf.StrictRingIsOneShot | include/util.hh:204-218 | with the strict assertions pushes, pops and discards on a new ring never halt if and only if fewer elements are pushed in total than its capacity |
| FrameBuf.SplitAppend | include/util.hh:237-249 | appending a length and as many bytes appends one frame |
| FrameBuf.FrameBuf.Push | include/util.hh:237-249 | appends a frame, and when each result occurs |
| FrameBuf.FrameBuf.Pop | include/util.hh:257-288 | removes the first frame, returns its prefix, drops exactly the rest; the internal errors are unreachable; when each result occurs |
| FrameBuf.FrameBuf.Peek | include/util.hh:252-255 | the length of the first frame, and when each error occurs |
| OutputBuffer.Buffer.Fill | src/core/buffer.cc:17-38 | succeeds exactly when there is room and then appends n copies, the shortcut notwithstanding |
| OutputBuffer.Buffer.Write | src/core/buffer.cc:3-15 | succeeds exactly when there is room and then appends |
| OutputBuffer.Buffer.Reset | include/util.hh:73-76 | the contents become empty |
| OutputBuffer.SkipIsHarmless | src/core/buffer.cc:23-25 | for any count of leading zeros: fill appends what it promises if and only if the shortcut does not fire with something to append, and it does so for all arguments if and only if the count is 0 |
| Ws2812.StripIsSymbols | src/periph/spi_transcode_alt.cc:26-67 | for a strip of any length and either code the bytes, read most significant bit first, are one symbol per colour bit in the order green, red, blue |
| Ws2812.AltHalfBits | src/periph/spi_transcode_alt.cc:6-34 | the five byte patterns are four 10-bit symbols cut at byte boundaries |
| Ws2812.DecodeEncode | src/periph/spi_transcode.cc:14-46 | sampling the wire gives back every colour, for both codes |
| Ws2812.NoResetInside | src/periph/spi_transcode.cc:6-12 | any 6 (plain) or 8 (alternate) consecutive bits of the data contain a high one, far below the reset length |
| Transcoder.Transcoder.Write | src/periph/spi_transcode.cc:14-46 | appends the cell of the colour, or nothing when it does not fit |
| Transcoder.Transcoder.EncodeAlternate | src/periph/spi_transcode_alt.cc:26-67 | the thirty slots hold the cell of the colour |
| Transcoder.Transcoder.EncodePlain | src/periph/spi_transcode.cc:14-45 | the twenty-four slots hold the cell of the colour |
| Transcoder.Transcoder.WriteBusReset | src/periph/spi_transcode.cc:9-12 | appends 1000 zero bytes, or nothing when they do not fit |
| LedService.Service.Render | src/ble/led_impl.cc:168-263 | succeeds if and only if the app call did not fail and the frame fits; then exactly reset gap, cells (padded with black after a reset) and reset gap were appended; when the app is called, what it leaves in the buffer, and when the reset flag is cleared |
| LedService.FrameOnTheWire | src/ble/led_impl.cc:168-263 | a frame on the wire is 8000 low bits, one symbol per colour bit, 8000 low bits |
| LedService.FrameShowsTheBuffer | src/ble/led_impl.cc:221-259 | sampled from the wire, led i shows bytes 3i, 3i + 1 and 3i + 2 of the user buffer as red, green and blue (converted in modes 1 and 2, black in any other), and the leds after the user's are black |
| LedService.FrameLength | src/ble/led_impl.cc:221-259 | a frame has as many leds as the user's, after a reset as the strip |
| LedService.Service.OnControlWrite | src/ble/led_impl.cc:373-401 | the effect of each command on every byte of the buffer, on offset and reset flag, addresses low byte first; anything else changes nothing |
| LedService.Service.FillRun | src/ble/led_impl.cc:379-387 | the fill loop sets the run of leds it was asked for, as far as the strip reaches |
| LedService.Service.SequentialWrite | src/ble/led_impl.cc:392-400 | the loop stores whole triples from the offset on and advances it past them |
| LedService.RunSetsItsLeds | src/ble/led_impl.cc:383-399 | a run sets exactly the leds it reaches |
| LedService.RunBytes | src/ble/led_impl.cc:383-399 | byte by byte: whole triples land from the first led's byte on, everything else stays |
| LedService.SequentialWritesCompose | src/ble/led_impl.cc:389-400 | consecutive sequential writes of whole triples are one write of both |
| Color.LuminanceIsKept | src/core/color.cc:82-115 | every channel lies in [0, 1] and the largest and smallest add up to twice the luminance |
| Color.HueIsKept | src/core/color.cc:82-115 | in each sixth of the circle which channel is largest and which smallest, their distance is the chroma, and the third lies between them where the hue says: hue and saturation can be read back |
| Color.LeadingByte | src/core/color.cc:97-104 | in bytes red leads for hues 0-42 and 213-255, green for 43-127, blue for 128-212, and likewise the smallest |
| Color.PhasesHitBothPlateaus | src/core/color.cc:97-114 | of three phases a third apart one is on the upper plateau and one on the lower |
| Color.LuminanceOfBytes | src/core/color.cc:102-104 | after truncation they add up to 2L, or to 2L - 1 exactly when they were fractional |
| Color.Hue2Rgb | src/core/color.cc:107-115 | a channel is the mixture of the two plateaus by the share of its phase |
| Color.HslToRgb | src/core/color.cc:82-105 | the conversion in place computes the specified bytes |

## Left out

- BLE stack, GATT plumbing, advertising, DFU, logging, RTOS hooks, device naming: calls into libraries that are not part of this model.
- FDS and nrfx internals: each call is one atomic step with a nondeterministic result, and erase either happens or does not. The asynchronous operation queue, garbage collection and page layout are not modelled.
- `fds_record_find` of the CRC record is taken to fail only with "not found"; the code tests for nothing else there.
- `crc16_compute`: an uninterpreted function of the bytes with results below 65536.
- User code: a callback is an opaque step; with() may leave any contents in the LED buffer. Its change of the colour mode is queued elsewhere and not modelled.
- Heap exhaustion in the cache (including an allocation of zero bytes) trips an assertion and halts; it is not modelled. The blocks of queued writes are.
- Priorities, real time and fairness: any task that can step may step. A reader can wait as long as writers keep coming; writers can overtake each other.
- Interrupt context: the lock asserts that it is not used there.
- DMX slot windowing, RDM validation, descriptor accessors, DMX explorer messages, connection-rate counter: easy members only.
- `hsv::to_rgb`: a parameter of Render; its early returns leave red unset and its curve mixes scales.
- `set_renderer` with a null renderer: the loop would send old frames again; the model has a renderer.
- Float rounding: colours are converted over exact reals.
- CircBuf.CircBuf.Push: lengths are unbounded, so start + length does not wrap at 32 bits.
- UserApp.Store.Erase: an accepted deletion and its completion event are one step; an action that overlaps a pending deletion, or a power loss in the middle of one, is not modelled.
- AppQueue.ActionQueue.QueueWrite: the length of the queue is left open; whether it has room is an input.
- ConfigBackend.StepRefinesMap: the flush loop and the critical sections are steps of a state machine on values; the classes `CacheEntry` and `FlushTask` cover the code inside a section in place.
- AppSafety.CallbacksRunApprovedImages: the copy loop is a state machine on values that copies byte by byte in ascending order; the records of a flash load count as one image. `UserApp.Store` has the same operations in place.
