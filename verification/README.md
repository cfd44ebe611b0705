# Verified models of the Bluetooth system layer

This Dafny project models the stateful core of the Bluetooth system layer (the daemon's
GATT servers, the shared C++ utilities and the A2DP audio HALs) and proves what that code
is meant to guarantee over every sequence of calls, callbacks and thread steps.

| file | models | main results |
|---|---|---|
| `LruSpec.dfy`, `LruCache.dfy` | the LRU cache of `common/lru.h` | list and map refine a recency order; exact residency; working-set guarantee |
| `GattServerSpec.dfy`, `GattServerRuns.dfy`, `GattServerEffects.dfy`, `GattServer.dfy`, `GattServerShortfalls.dfy` | connections, requests and indications of `service/gatt_server.cc` | agreement of the two indexes; request conservation; fate of every notification callback; what each call brings about; runs that fall short |
| `GattService.dfy` | flattening and rebuilding of a service | round trip of the characteristic/descriptor forest |
| `BlobServer.dfy`, `GattServerOld.dfy` | `service/gatt_server_old.cc` | snapshot paging; writing in pieces; pairing of control and value attributes |
| `MessageLoop.dfy` | `common/message_loop_thread.cc`, `common/execution_barrier.cc` | start/stop protocol over every interleaving; what each call achieves; no lost wake-up; blocked calls and waits return |
| `A2dpStream.dfy`, `A2dpAudio.dfy` | the output stream of `audio_a2dp_hw/src/audio_a2dp_hw.cc` | stream safety with the lock dropped inside a write; exactly when each phase is entered and left; frame conservation; in-place mix; time bounds |
| `AidlCommands.dfy`, `AidlAudioData.dfy` | the AIDL audio session layer | one-outstanding-command protocol and when each call must act; byte conservation of the queue loops |
| `RawAddress.dfy`, `ScanRecord.dfy` | the address parser and printers; the advertising-data walk | exact acceptance and round trips; unique decoding; exactly when the walk stays in its vector |
| `Shared.dfy` | options, octets, erased positions, fixed-width arithmetic | |

State machines are values (`Next`, `Apply`, `Do`) with a function that gives the state after a
whole run; objects the source updates in place are classes whose methods are proved to take
exactly the step of the state machine. The cache, both GATT servers, the output stream and the
audio session and queue clients also carry a ghost history of their calls, and `Perform` shows that each of them
is always in the state that its history leads to, so the theorems about runs apply to them.
`dafny verify dfyconfig.toml` checks everything.

## Assumptions

- The HAL and the audio stack are environments: what they answer, and the order of their
  callbacks, is arbitrary. The GATT HAL does not call back on the thread that is calling it
  (the mutex is not recursive).
- Each entry point of the AIDL session layer is one atomic step; its pending-command field has
  no lock in the source.
- `base::MessageLoop` is a FIFO queue with quit-when-idle. Only `ShutDown` posts the quit
  closure, tasks do not call the API (a joining `ShutDown` holds the mutex), and `ShutDown` is
  not called on the worker (the source aborts then). A failing quit post aborts too.
- An output stream is closed only while no write is in progress, since closing frees it.
- The stack returns the elements of a declared service in the order declared.

## Where the code falls short of its intent

Each of these is stated with the exact condition under which the intended property holds.

- The advertising-data walk is written for records padded to 62 bytes, but the stack hands over
  as many bytes as were received (btif/src/btif_ble_scanner.cc:187-190). It reads past the end
  of the vector if and only if the vector is shorter than 62 bytes, has no zero length byte, and
  ends with a whole field or with a field that stops before the last of the 62; it returns a
  length past the end if and only if that field stops exactly there (`GetScanRecordLength`,
  `FlagsOnlyLeaves`, `PromisedLengthTruncated`, `ScanResultOf`).
- `SendResponse` adds the signed offset to the size of the value before its size test. Values
  that pass the test fit the 600 bytes of the attribute if and only if the offset is not negative
  (`FitsExactly`, `AnswerFits`, `OversizedAnswer`).
- A disconnect callback erases from the two connection indexes by different keys. They stay in
  agreement if and only if the callback does not name a known connection with another address
  (`AgreeExactly`, `ForeignDisconnectBreaks`).
- Device lookups compare strings and the index is keyed in upper case, so a lower-case address
  parses and is then not found unless it has no letter digit (`LowerCaseLookup`,
  `LowerCaseRefused`).
- `FromString` accepts tokens with a sign or a NUL, such as `-1`; it reads a string as the
  address it spells if and only if every pair is two hexadecimal digits (`SpellsExactly`,
  `SignedTokenAccepted`).
- Losing a link does not clear its pending indication: only a confirmation does, so a new link
  with the same id is blocked (`OnlyConfirmationFrees`, `ReusedIdBlocked`).
- A rebuilt service is always primary and includes nothing (`RoundTrip`, `RestoredExactly`).
- The section number of a blob is one byte, so a client can page through at most 256 sections
  and no response reaches past 131072 bytes (`ResponseWithinReach`, `LongValueNeverWhole`,
  `LongValueCut`).
- The `closing` parameter is logged as disallowing any writes, but a suspend while the stack
  reports no stream, then any other parameter, then a write starts the stream again
  (`StoppingLeftExactly`, `ClosingUndone`, `ClosingReached`); any non-empty parameters without
  `A2dpSuspended=true` resume a suspended stream (`SuspendedLeftExactly`).
- A write that fails disconnects whatever data socket is current; that is a socket it did not
  write to if and only if one has been connected since the write read which socket to use
  (`FailedWriteExactly`, `StaleWriteStops`).
- Closing an output stream can leave its data socket open (`CloseLeaksExactly`,
  `LeakReachable`). With the vendor property on, a stream can be started without a data socket
  (`VendorStartsDisconnected`). The message for a start refused during a call says "move to
  suspended"; the code restores the previous state, and so does the model.
- The branch for a pending STOP in `ack_stream_suspended` is dead (`StopBranchDead`).

## Model

| member | source | states |
|---|---|---|
| LruSpec.WorkingSet | common/lru.h:77-168 | over every run, a key put or hit stays present with the value last stored under it while it is not removed or cleared and fewer than `capacity` distinct other keys are put or hit |
| LruSpec.ResidencyExact | common/lru.h:62-168 | over every run, a key is resident if and only if a fold over the calls alone, which never looks at the list, says so, and the keys ahead of it are exactly those touched since and not removed |
| LruSpec.TouchedExactly | common/lru.h:77-146 | which key a call puts or hits can be read off the calls before it |
| LruSpec.RunSortedByTouch | common/lru.h:62-168 | in every reachable state the list is sorted by last touch, latest first |
| LruSpec.EvictsLeastRecentlyTouched | common/lru.h:126-146 | the node Put evicts was touched strictly before every other resident key; it leaves the cache and every other key stays |
| LruSpec.EvictedExactly | common/lru.h:126-146 | over every run and every call, (k, v) is reported as evicted if and only if the call is a Put, the calls leave k in before it and out after it, and v was last stored under k |
| LruSpec.LookupFinds | common/lru.h:77-116 | over every run, a lookup finds a key if and only if the calls leave it in, and then the value last stored under it |
| LruSpec.RunBounded | common/lru.h:62-168 | in every reachable state keys are distinct and at most `capacity` |
| LruSpec.ValuesCurrent | common/lru.h:77-146 | over every run, a resident key carries the value last stored by Put or through the pointer Find returned |
| LruSpec.PutHit | common/lru.h:128-133 | a Put of a resident key is a lookup followed by a store through the pointer, and evicts nothing |
| LruCache.Cache.constructor | common/lru.h:45-51 | an empty cache of positive capacity whose list and map agree, with an empty history |
| LruCache.Cache.Clear | common/lru.h:62-66 | the recency order becomes empty; list and map still agree |
| LruCache.Cache.Find | common/lru.h:77-85 | a resident key moves to the front and its own node is returned; an absent key changes nothing; list and map keep the same keys once each, each entry on its own node |
| LruCache.Cache.Get | common/lru.h:95-104 | as Find; the caller's value is replaced exactly on a hit |
| LruCache.Cache.HasKey | common/lru.h:113-116 | answers residency, and warms the key like Find |
| LruCache.Cache.StoreThrough | common/lru.h:68-76 | a store through the returned pointer changes that key's value and not the recency order |
| LruCache.Cache.Put | common/lru.h:126-146 | takes exactly the Put step of the recency order and returns exactly the evicted node; list and map still agree |
| LruCache.Cache.Remove | common/lru.h:154-168 | removes exactly that key from list and map, keeping the order of the rest; true if and only if it was resident |
| LruCache.Cache.Size | common/lru.h:175-178 | the number of resident keys, never above the capacity, narrowed to int; exact if and only if it fits |
| LruCache.Cache.Located | common/lru.h:77-85 | the map holds a key if and only if the list does, and points at the node in the list |
| LruCache.Cache.Perform | common/lru.h:62-168 | any call on any cache reached by calls leaves it in the state its extended history leads to |
| GattServerRuns.NotificationsSettled | service/gatt_server.cc:196-236 | for every run and every notification, the callback has fired exactly once if it was sent somewhere and every connection it was sent on is confirmed, and otherwise not at all; with no error if and only if some confirmation succeeded; entries pending equal sent minus confirmed |
| GattServerRuns.RequestsConserved | service/gatt_server.cc:331-507 | over every run, per connection object, request id and handle: accepted equals answered plus released with the link plus still waiting |
| GattServerRuns.NeverOverwritten | service/gatt_server.cc:537-560 | a waiting request keeps its handle until it is answered or its link is released, whatever step comes |
| GattServerRuns.AnswersMatch | service/gatt_server.cc:124-171 | every answer is for a waiting request of the named device, carries the connection id and the handle recorded at acceptance, and ends the wait |
| GattServerEffects.AnswerFields | service/gatt_server.cc:146-163 | field by field, the answer holds the recorded handle, the caller's offset and the caller's bytes, the numbers cut to 16 bits; for an execute-write the handle 0xFFFF and nothing else |
| GattServerEffects.AnswerRemovesOne | service/gatt_server.cc:131-171 | an answer ends the wait of the answered request and of no other |
| GattServerEffects.RequestTakenExactly | service/gatt_server.cc:331-507 | a request is recorded, with its handle, on the connection of its id if and only if it needs a response, the address is that connection's and the request id is free; otherwise nothing changes |
| GattServerRuns.RespondSucceedsExactly | service/gatt_server.cc:104-172 | SendResponse succeeds if and only if the address parses and is listed, size plus offset is at most 600 as an unsigned number, a listed connection waits for the request and the HAL accepts; then it sends one answer, otherwise nothing changes |
| GattServerShortfalls.FitsExactly | service/gatt_server.cc:119-122 | the size test admits only values that fit the attribute if and only if the offset is not negative |
| GattServerShortfalls.AnswerFits | service/gatt_server.cc:119-158 | exactly when the bytes of an answer fit the attribute, and the bound for every offset |
| GattServerShortfalls.OversizedAnswer | service/gatt_server.cc:119-158 | a run in which a 700-byte value is handed over for an attribute of 600 |
| GattServerRuns.AgreeExactly | service/gatt_server.cc:239-287 | from agreeing indexes any step leaves them agreeing if and only if it is not a disconnect naming a known connection with another address |
| GattServerEffects.ConnectExactly | service/gatt_server.cc:273-287 | a connection with a new id adds one object, without requests, to both indexes and moves no other |
| GattServerEffects.DisconnectExactly | service/gatt_server.cc:251-271 | a disconnect with the connection's own address takes exactly that object out of both indexes |
| GattServerEffects.OthersIgnored | service/gatt_server.cc:244-277 | a callback for another server, a second connection under a known id and a disconnect of an unknown id change nothing |
| GattServerShortfalls.ForeignDisconnectBreaks | service/gatt_server.cc:251-265 | connecting with one address and disconnecting with another leaves the indexes in disagreement |
| GattServerRuns.IndexesAgree | service/gatt_server.cc:239-287 | over every run without such a disconnect, an object is what the id index holds for its id if and only if it is in the list of its own printed address |
| GattServerRuns.RunKeys | service/gatt_server.cc:246-283 | over every run, each object is filed under the upper-case printed form of its own address, and the index has only such keys |
| GattServerRuns.LowerCaseLookup | service/gatt_server.cc:124-129 | over every run, the lower-case form of an address is listed if and only if the upper-case form is and the address has no letter digit |
| GattServerShortfalls.LowerCaseRefused | service/gatt_server.cc:113-129 | a waiting request is answered for the upper-case form of an address with a letter digit and refused for the lower-case form |
| GattServerRuns.NotifySucceedsExactly | service/gatt_server.cc:174-237 | SendNotification succeeds if and only if the device is listed and the HAL accepts at a listed connection with nothing pending |
| GattServerEffects.NotifyCovers | service/gatt_server.cc:196-228 | a notification to a listed device is sent exactly once on every listed connection id that is free and at which the HAL accepts, on no other, and all of these share one new group with the caller's callback |
| GattServerEffects.NotifyOnlySends | service/gatt_server.cc:199-228 | a notification causes no other event |
| GattServerRuns.OnlyConfirmationFrees | service/gatt_server.cc:509-531 | a connection's pending indication is removed by its own confirmation and by no other step, disconnects included |
| GattServerEffects.ConfirmReports | service/gatt_server.cc:509-531 | a confirmation frees its connection, records a success for the group, and on the last entry of the group gives the callback no error if any confirmation succeeded and otherwise the status of this one |
| GattServerShortfalls.ReusedIdBlocked | service/gatt_server.cc:199-234 | after an unconfirmed indication, a lost link and a new one with the same id, every notification is refused |
| GattServerSpec.RunWF | service/gatt_server.cc:239-287 | over every run, whatever the HAL delivers: each address list holds distinct objects of that address, and what the id index holds has that id and is in its address list |
| GattServerSpec.NextWF | service/gatt_server.cc:104-531 | every API call and callback keeps the indexes well formed |
| GattServerSpec.FindRequest | service/gatt_server.cc:131-138 | the last listed connection with the request pending, and none exactly when no listed connection has it |
| GattServer.Server.constructor | service/gatt_server.cc:239-287 | a new server has no connection, no request, no indication and an empty history |
| GattServer.Server.ConnectionCallback | service/gatt_server.cc:239-287 | takes exactly the connection step on both maps and their shared objects |
| GattServer.Server.RemoveConnection | service/gatt_server.cc:251-271 | the id is forgotten by one map and the first such object of the printed address by the other, releasing its requests |
| GattServer.Server.AddConnection | service/gatt_server.cc:281-283 | one new object, with no request, is in both maps |
| GattServer.Server.GetConnection | service/gatt_server.cc:537-560 | an object is returned if and only if the id is known, the address is its own and the request id is not in use; it is the object of that id |
| GattServer.Server.RequestCallback | service/gatt_server.cc:331-507 | a request that needs a response is recorded with its handle on the shared object exactly when it is admitted |
| GattServer.Server.SendResponse | service/gatt_server.cc:104-172 | takes exactly the response step: every error path, which connection, which handle, and the erase only on success |
| GattServer.FindLast | service/gatt_server.cc:131-138 | the search loop stops at the position of the last listed connection with the request pending |
| GattServer.Server.FindWaiting | service/gatt_server.cc:124-144 | the connection of the device that waits for the request, null exactly when none does |
| GattServer.Server.SendNotification | service/gatt_server.cc:174-237 | takes exactly the notification step, including the new shared indication object |
| GattServer.Server.SendToAll | service/gatt_server.cc:199-228 | the loop sends on exactly the listed connections that are free and at which the HAL accepts, and makes each share the new object |
| GattServer.Server.IndicationSentCallback | service/gatt_server.cc:509-531 | takes exactly the confirmation step: the success flag of the shared object, and the callback exactly on its last reference |
| GattServer.LastReference | service/gatt_server.cc:525-530 | no other map entry refers to the object if and only if no pending entry belongs to its group |
| GattServer.Server.Perform | service/gatt_server.cc:104-531 | any call or callback on any server reached by them leaves it, with its log, in the state its extended history leads to |
| GattService.RoundTrip | service/gatt_server.cc:69-88 | rebuilding what the stack returns for any flattened service restores its uuid and the whole characteristic/descriptor forest in order with the stack's handles, always primary and without included services |
| GattService.RestoredExactly | service/gatt_server.cc:301-318 | when the handles are its own, the service itself comes back if and only if it is primary and includes nothing |
| GattService.DefinedExactly | service/gatt_server.cc:303-318 | the loop never takes the last of an empty characteristic list if and only if no descriptor precedes every characteristic |
| GattService.FlattenedIsOrdered | service/gatt_server.cc:75-88 | a flattened service, with any handles, is such a list |
| GattService.FlattenedService | service/gatt_server.cc:69-88 | a flattened service starts with its own kind and uuid and ends with its included services, by handle, in order |
| GattService.FlattenedCharacteristic | service/gatt_server.cc:75-84 | each characteristic is in its place with its properties and permissions, followed by its descriptors in order |
| GattService.BuildElements | service/gatt_server.cc:69-88 | the loops build the flattened list |
| GattService.RebuildService | service/gatt_server.cc:301-318 | the loop that appends to the last characteristic computes the rebuilt service, and is undefined exactly on lists that are not ordered |
| BlobServer.SnapshotPaging | service/gatt_server_old.cc:215-242 | a fresh read, then pages selected through the control attribute, each read in any pieces at growing offsets until nothing is left, return exactly the first sections of the value latched by that read, whatever values are set in between; the whole value if and only if that many sections are enough |
| BlobServer.PiecesWhole | service/gatt_server_old.cc:222-242 | reads that follow each other until nothing is left give, end to end, the section from the first offset on |
| BlobServer.SectionAt | service/gatt_server_old.cc:222-225 | a section, defined by cutting 512 bytes off at a time, is where the clipped offsets of the source put it |
| BlobServer.LongValueNeverWhole | service/gatt_server_old.cc:222-274 | no session of pages returns a value of more than 131072 bytes whole |
| BlobServer.ResponseWithinReach | service/gatt_server_old.cc:222-274 | after any run, whatever sections are selected in whatever order, a response is a stretch of the first 131072 bytes of the current value |
| BlobServer.LongValueCut | service/gatt_server_old.cc:215-274 | setting such a value and turning every page returns exactly its first 131072 bytes |
| BlobServer.FreshRead | service/gatt_server_old.cc:215-225 | a read at offset 0 of section 0 makes the pending value current and returns its first section |
| BlobServer.OnePage | service/gatt_server_old.cc:222-274 | selecting a section and reading it to its end in pieces, with quiet steps throughout, returns that section and leaves the value in place |
| BlobServer.QuietStep | service/gatt_server_old.cc:207-304 | setting values, and reads and writes elsewhere, change neither the current value of an attribute nor its section |
| BlobServer.OverwriteIs | service/gatt_server_old.cc:263-268 | a write keeps the bytes before its offset, padded with zeros, and ends with its value |
| BlobServer.WrittenWhole | service/gatt_server_old.cc:250-304 | a value written in pieces at growing offsets from 0 on, with quiet steps in between, is stored whole |
| BlobServer.ControlsPaired | service/gatt_server_old.cc:154-191 | for any declarations and any earlier associations, processing the returned list adds exactly the declared pairs |
| BlobServer.PairingComplete | service/gatt_server_old.cc:636-657 | with distinct handles, every blob's control attribute is associated with its own value attribute |
| BlobServer.PairingSound | service/gatt_server_old.cc:636-657 | nothing else is associated |
| BlobServer.DeclaredAt | service/gatt_server_old.cc:503-657 | every declared characteristic is in its place with its uuid and properties, followed, for a blob, by a readable and writable control |
| BlobServer.CharacteristicsMapped | service/gatt_server_old.cc:160-168 | processing a list maps the uuid of each characteristic to its handle unless the uuid comes again, and the handle to that uuid and section 0 unless the handle does |
| BlobServer.ControlIs | service/gatt_server_old.cc:170-187 | the value attribute notifies exactly if its properties say so; the control attribute does not, and reads as a single zero |
| BlobServer.BlobProcessed | service/gatt_server_old.cc:154-191 | in the loop, the attribute before a control becomes its value, with the notify bit of its own properties and not of the control's |
| GattServerOld.Server.RequestReadCallback | service/gatt_server_old.cc:207-248 | latches, and answers with the handle, the offset and the rest of the selected section of the current value |
| GattServerOld.Server.RequestWriteCallback | service/gatt_server_old.cc:250-304 | stores the value at its offset; a one-byte control write selects the section of its value attribute and nothing else is reported upwards; the written value is echoed when a response is needed |
| GattServerOld.Server.SetCharacteristicValue | service/gatt_server_old.cc:701-718 | only the pending value changes, at handle 0 for an unknown uuid; every connection is indicated if and only if the attribute notifies |
| GattServerOld.Server.RegisterServerCallback | service/gatt_server_old.cc:132-141 | the declaration starts with the service element |
| GattServerOld.Server.ConnectionCallback | service/gatt_server_old.cc:329-339 | the set of connections gains or loses the id |
| GattServerOld.Server.AddCharacteristic | service/gatt_server_old.cc:503-511 | appends one element to the declaration |
| GattServerOld.Server.AddBlob | service/gatt_server_old.cc:636-657 | appends the value and its control element, and remembers the control's position |
| GattServerOld.Server.RecordCharacteristic | service/gatt_server_old.cc:166-168 | the uuid maps to the handle, whose section is 0 |
| GattServerOld.Server.AssociateControl | service/gatt_server_old.cc:170-187 | the control attribute is associated with the value attribute and becomes a readable zero |
| GattServerOld.Server.ServiceAddedCallback | service/gatt_server_old.cc:143-194 | the loop with its running previous handle processes every element; the declaration is then empty and the service handle recorded |
| GattServerOld.Server.Perform | service/gatt_server_old.cc:207-718 | any read, write or new value on any server reached by them leaves it in the state its extended history leads to |
| MessageLoopThread.ConsistentWhenFree | common/message_loop_thread.cc:46-96 | in every interleaving, over any number of restarts, while the mutex is free the thread, loop and run loop are all set or all null with id -1; executed tasks are a prefix of the accepted ones, in order, and all of them when stopped |
| MessageLoopThread.ShutDownDrains | common/message_loop_thread.cc:76-96 | when ShutDown's join returns, every accepted task has been executed exactly once, in order, and the object can be started again |
| MessageLoopThread.DoInThreadPosts | common/message_loop_thread.cc:59-74 | in every reachable state, DoInThread on a running thread appends its task to the accepted ones if and only if the post succeeds; on a stopped one it does nothing |
| MessageLoopThread.StartUpStarts | common/message_loop_thread.cc:46-57 | in every reachable state, StartUp on a stopped object waits, returns after four steps of the worker, and leaves the object up with the worker's own thread id; on a running one it does nothing |
| MessageLoopThread.ShutDownStops | common/message_loop_thread.cc:76-96 | in every reachable state, ShutDown on a running object posts the quit and joins, returns after steps of the worker alone, and leaves the object down with every accepted task executed; on a stopped one it does nothing |
| MessageLoopThread.EnteredUpOrDown | common/message_loop_thread.cc:46-96 | a call that has just taken the mutex finds the object fully up or fully down |
| MessageLoopThread.NoDanglingUse | common/message_loop_thread.cc:59-92 | a call that is about to use the loop or the run loop finds a live object; ShutDown of a started thread always posts the quit |
| MessageLoopThread.WorkerWritesUnderMutex | common/message_loop_thread.cc:150-170 | the worker writes the fields it does not lock only while the call that started it or is joining it holds the mutex |
| MessageLoopThread.BlockedStep | common/message_loop_thread.cc:150-170 | a call blocked on the barrier or the join can go on, or the worker can, and then has fewer steps left |
| MessageLoopThread.BlockedCallReturns | common/message_loop_thread.cc:46-96 | in every reachable state, the worker alone lets a blocked call return after a bounded number of steps, with every accepted task executed in the case of ShutDown |
| MessageLoopThread.RunInv | common/message_loop_thread.cc:46-170 | the pointer, handshake, order and quit invariants hold in every interleaving |
| ExecutionBarrier.NoLostWakeUp | common/execution_barrier.cc:23-34 | in every interleaving, spurious wake-ups included, no wait returns before the flag is set and no waiter sleeps once it is set and the mutex is free |
| ExecutionBarrier.EveryWaitReturns | common/execution_barrier.cc:23-34 | once the flag is set and while no new calls are made, under every schedule the threads take a bounded number of steps, and when none can take another every wait has returned |
| A2dpStream.StreamSafe | audio_a2dp_hw/src/audio_a2dp_hw.cc:1070-1142 | across all interleavings: STARTING is never visible while the lock is free, only the current data socket is open, and if no write found the vendor property on STARTED implies a connected socket |
| A2dpStream.SuspendedLeftExactly | audio_a2dp_hw/src/audio_a2dp_hw.cc:1331-1375 | SUSPENDED is left if and only if parameters are set without A2dpSuspended=true, or with closing while the stack is streaming |
| A2dpStream.SuspendedEnteredExactly | audio_a2dp_hw/src/audio_a2dp_hw.cc:1353-1364 | SUSPENDED is entered if and only if a suspend is requested and succeeds, or the stream is not started, or closing, and the stack reports no stream |
| A2dpStream.StoppingLeftExactly | audio_a2dp_hw/src/audio_a2dp_hw.cc:1348-1364 | STOPPING is left if and only if a suspend is requested while the stack reports no stream, or the close succeeds |
| A2dpStream.StoppingEnteredExactly | audio_a2dp_hw/src/audio_a2dp_hw.cc:1348-1364 | STOPPING is entered if and only if closing is set, unless the same call suspends while the stack reports no stream |
| A2dpStream.StartedEnteredExactly | audio_a2dp_hw/src/audio_a2dp_hw.cc:930-996 | STARTED is entered if and only if a write from STOPPED or STANDBY has its start succeed; a write refused, in a call or otherwise, leaves the phase alone |
| A2dpStream.StandbyEnteredExactly | audio_a2dp_hw/src/audio_a2dp_hw.cc:1026-1372 | STANDBY is entered if and only if a standby succeeds outside SUSPENDED and STOPPING, or parameters that neither suspend nor close resume a suspended stream |
| A2dpStream.StoppedEnteredExactly | audio_a2dp_hw/src/audio_a2dp_hw.cc:998-1142 | STOPPED is entered if and only if a write fails outside SUSPENDED and STOPPING, or a close sends the stop and it succeeds |
| A2dpStream.WriteGoesOnExactly | audio_a2dp_hw/src/audio_a2dp_hw.cc:1070-1109 | a write leaves the lock to write its data if and only if the stream is started or its start succeeds |
| A2dpStream.SocketExactly | audio_a2dp_hw/src/audio_a2dp_hw.cc:969-1142 | exactly which steps connect the data socket and which drop it, in every phase |
| A2dpStream.ClosingUndone | audio_a2dp_hw/src/audio_a2dp_hw.cc:1348-1372 | whatever run led to STOPPING, three more calls start the stream again |
| A2dpStream.ClosingReached | audio_a2dp_hw/src/audio_a2dp_hw.cc:1348-1351 | the closing parameter takes a new stream to STOPPING |
| A2dpStream.FailedWriteExactly | audio_a2dp_hw/src/audio_a2dp_hw.cc:1109-1142 | in every reachable state a failed write leaves no socket open and stops a started stream; the socket is one it did not write to if and only if one was connected since the write read which socket to use |
| A2dpStream.StaleWriteStops | audio_a2dp_hw/src/audio_a2dp_hw.cc:1109-1142 | a run in which a write that overlaps a standby and a restart fails and stops the new stream under the new write |
| A2dpStream.CloseLeaksExactly | audio_a2dp_hw/src/audio_a2dp_hw.cc:1862-1878 | in every reachable state, closing leaves a data socket open if and only if one is connected and the stop is not sent or fails |
| A2dpStream.LeakReachable | audio_a2dp_hw/src/audio_a2dp_hw.cc:1862-1878 | a run that ends with the data socket open |
| A2dpStream.VendorStartsDisconnected | audio_a2dp_hw/src/audio_a2dp_hw.cc:969-988 | one write that finds the vendor property on can start the stream without a data socket |
| A2dpStream.FramesConserved | audio_a2dp_hw/src/audio_a2dp_hw.cc:1144-1147 | over every run with overlapping writes, frames given equal frames counted plus frames in flight, exactly |
| A2dpStream.CounterHolds | audio_a2dp_hw/src/audio_a2dp_hw.cc:1146-1147 | over every run the 64-bit counter of presented frames is the frames counted, modulo 2^64 |
| A2dpStream.RenderedHolds | audio_a2dp_hw/src/audio_a2dp_hw.cc:1144-1323 | over every run the rendered counter is the frames counted since the last standby, modulo 2^64 |
| A2dpStream.OutputStream.constructor | audio_a2dp_hw/src/audio_a2dp_hw.cc:914-916 | a new stream is stopped and disconnected |
| A2dpStream.OutputStream.StartAudioDatapath | audio_a2dp_hw/src/audio_a2dp_hw.cc:930-996 | STARTED on success; on each failure the previous state is restored |
| A2dpStream.OutputStream.StopAudioDatapath | audio_a2dp_hw/src/audio_a2dp_hw.cc:998-1024 | STOPPED and disconnected, or unchanged when the command fails |
| A2dpStream.OutputStream.SuspendAudioDatapath | audio_a2dp_hw/src/audio_a2dp_hw.cc:1026-1051 | refused while stopping; otherwise standby or suspended and disconnected, or unchanged when the command fails |
| A2dpStream.OutputStream.OutWriteBegin | audio_a2dp_hw/src/audio_a2dp_hw.cc:1070-1109 | takes exactly the first segment of a write: it goes on only from STARTED, or after starting from STOPPED or STANDBY; a write that ends here has its frames counted |
| A2dpStream.OutputStream.OutWriteEnd | audio_a2dp_hw/src/audio_a2dp_hw.cc:1124-1148 | takes exactly the second segment: a failure disconnects and stops, except while suspended or stopping; frames are counted |
| A2dpStream.OutputStream.OutStandby | audio_a2dp_hw/src/audio_a2dp_hw.cc:1310-1323 | no state change while suspended; rendered is reset and presented is not |
| A2dpStream.OutputStream.OutSetParameters | audio_a2dp_hw/src/audio_a2dp_hw.cc:1343-1375 | takes exactly the parameter step and returns -1 exactly when a suspend was attempted and refused or failed |
| A2dpStream.OutputStream.CloseOutputStream | audio_a2dp_hw/src/audio_a2dp_hw.cc:1862-1869 | sends the stop only from STARTED or STOPPING |
| A2dpStream.OutputStream.Perform | audio_a2dp_hw/src/audio_a2dp_hw.cc:930-1375 | any enabled call on any stream reached by calls leaves it in the state its extended history leads to |
| A2dpAudio.MixFrames | audio_a2dp_hw/src/audio_a2dp_hw.cc:1097-1103 | the in-place mix leaves the mono samples of the original stereo samples in front and the rest of the buffer as it was |
| A2dpAudio.MixWrite | audio_a2dp_hw/src/audio_a2dp_hw.cc:1097-1107 | half the bytes are sent, which for whole frames are exactly the mono samples |
| A2dpAudio.Average | audio_a2dp_hw/src/audio_a2dp_hw.cc:1102-1102 | the floored average, in 16-bit range and between its inputs |
| A2dpAudio.AudioTimeAccurate | audio_a2dp_hw/src/audio_a2dp_hw.cc:225-254 | the returned int is the truncated time if and only if that fits, and then it is at most the exact playing time and short of it by less than bytes/rate + 1 |
| A2dpAudio.TimeBounds | audio_a2dp_hw/src/audio_a2dp_hw.cc:251-253 | the same bounds before the conversion, in integers |
| A2dpAudio.FrameBytesOf | audio_a2dp_hw/src/audio_a2dp_hw.cc:225-249 | the bytes of a frame in each format: 1, 2, 3 or 4 per channel, and 2 for other formats |
| AidlCommands.ProtocolFollowed | audio_hal_interface/aidl/a2dp_encoding.cc:123-155 | over every run START or SUSPEND is dispatched only when nothing is outstanding, STOP never becomes pending, only an ack of the outstanding command is forwarded, and what is pending is the one unsettled command |
| AidlCommands.CommandsConserved | audio_hal_interface/aidl/a2dp_encoding.cc:618-693 | over every run, commands dispatched equal those settled by a final ack of their own kind plus those dropped by a reset plus the one outstanding; each settled one was answered to the HAL exactly once unless there was no provider |
| AidlCommands.ProtocolConserves | audio_hal_interface/aidl/client_interface.cc:433-473 | any log that follows the protocol conserves commands and answers |
| AidlCommands.StopBranchDead | audio_hal_interface/aidl/a2dp_encoding.cc:651-672 | in every reachable state a suspend ack has an effect only for a pending SUSPEND; the branch for STOP is never taken |
| AidlCommands.RequestActs | audio_hal_interface/aidl/a2dp_encoding.cc:123-151 | a start or suspend is dispatched and outstanding if nothing was, left alone if already outstanding, and refused with a failure if another command is |
| AidlCommands.StopActs | audio_hal_interface/aidl/a2dp_encoding.cc:153-155 | a stop is always dispatched and never outstanding |
| AidlCommands.AckActs | audio_hal_interface/aidl/a2dp_encoding.cc:630-672 | in every reachable state a final ack of the outstanding command settles it and tells the HAL its status if there is a provider; a pending ack and every other ack do nothing |
| AidlCommands.ForgottenExactly | audio_hal_interface/aidl/a2dp_encoding.cc:444-693 | in every reachable state, exactly which calls leave no command outstanding |
| AidlCommands.DroppedExactly | audio_hal_interface/aidl/a2dp_encoding.cc:444-693 | a command is dropped if and only if an enabled session is ended, cleaned up or reset, or a new transport is made, while it is outstanding |
| AidlCommands.EnabledExactly | audio_hal_interface/aidl/a2dp_encoding.cc:444-531 | exactly which calls enable and disable the session, and where the provider comes from |
| AidlCommands.StatusOfAck | audio_hal_interface/aidl/a2dp_encoding.cc:232-249 | the HAL hears success only for a successful ack, and an unsupported codec exactly for an unsupported ack or a disconnect in progress |
| AidlCommands.StatusOfCtrlAck | audio_hal_interface/aidl/audio_ctrl_ack.h:70-89 | which control ack gives each HAL status |
| AidlCommands.ToCtrlAck | audio_hal_interface/aidl/a2dp_encoding.cc:232-249 | only a pending ack is not final, and only success is success |
| AidlCommands.Session.StartStream | audio_hal_interface/aidl/a2dp_encoding.cc:123-136 | takes exactly the start-request step; answers pending exactly when idle or already starting |
| AidlCommands.Session.SuspendStream | audio_hal_interface/aidl/a2dp_encoding.cc:138-151 | takes exactly the suspend-request step; answers pending exactly when idle or already suspending |
| AidlCommands.Session.StopStream | audio_hal_interface/aidl/a2dp_encoding.cc:153-155 | dispatches STOP without making it pending |
| AidlCommands.Session.ForwardAck | audio_hal_interface/aidl/client_interface.cc:433-473 | tells the HAL the status unless it is pending or there is no provider |
| AidlCommands.Session.AckStreamStarted | audio_hal_interface/aidl/a2dp_encoding.cc:630-649 | takes exactly the start-ack step: an unmatched ack changes nothing |
| AidlCommands.Session.AckStreamSuspended | audio_hal_interface/aidl/a2dp_encoding.cc:651-672 | takes exactly the suspend-ack step |
| AidlCommands.Session.EndSessionCall | audio_hal_interface/aidl/a2dp_encoding.cc:618-628 | drops the outstanding command when enabled |
| AidlCommands.Session.ResetPendingCommand | audio_hal_interface/aidl/a2dp_encoding.cc:688-693 | drops the outstanding command when enabled |
| AidlCommands.Session.InitializeCall | audio_hal_interface/aidl/a2dp_encoding.cc:444-502 | does nothing when the HAL is disabled or missing; otherwise drops the outstanding command, even when the new HAL is invalid |
| AidlCommands.Session.CleanupCall | audio_hal_interface/aidl/a2dp_encoding.cc:505-531 | drops the outstanding command at most once and disables the session |
| AidlCommands.Session.Perform | audio_hal_interface/aidl/a2dp_encoding.cc:123-693 | any call on any session reached by calls leaves it, with its log, in the state its extended history leads to |
| AidlAudioData.DrainConserves | audio_hal_interface/aidl/client_interface.cc:545-569 | for any producer: what was queued, then what arrived, equals what was read, then what is left; at most len bytes, exactly len if and only if the loop completed; polls are bounded by len plus the budget |
| AidlAudioData.StopReasons | audio_hal_interface/aidl/client_interface.cc:545-569 | giving up means the queue is empty and the budget of polls is spent; any other early end means that poll was refused or found no valid queue |
| AidlAudioData.TimelyDataServed | audio_hal_interface/aidl/client_interface.cc:545-569 | if the bytes are queued or arrive within the budget of polls and no poll is refused, the request is served in full |
| AidlAudioData.PollDrains | audio_hal_interface/aidl/client_interface.cc:545-569 | a poll that is not refused takes all it can: the request is complete or the queue empty |
| AidlAudioData.ReadsArePrefix | audio_hal_interface/aidl/client_interface.cc:532-583 | over every session all reads together are a prefix of what was written, the rest is still queued, and the logged total is the bytes returned since the last reset |
| AidlAudioData.LoggedSinceReset | audio_hal_interface/aidl/client_interface.cc:532-583 | whatever came before a reset, the logged total afterwards is the bytes returned by the calls that follow it |
| AidlAudioData.FillConserves | audio_hal_interface/aidl/client_interface.cc:622-647 | for any consumer: what was queued, then the reported prefix of the data, equals what the consumer took, then what is queued; bounded polls; giving up means the queue is full |
| AidlAudioData.OfferFills | audio_hal_interface/aidl/client_interface.cc:622-647 | a poll that is not refused gives all it can: the data is written or the queue full |
| AidlAudioData.WriteStops | audio_hal_interface/aidl/client_interface.cc:622-647 | giving up means that the consumer took nothing before more polls than the budget allows; any other early end means that poll was refused or found no valid queue |
| AidlAudioData.TimelySpaceServed | audio_hal_interface/aidl/client_interface.cc:622-647 | if the consumer takes something before all but ten of the polls and no poll is refused, all the data is written |
| AidlAudioData.WritesArrive | audio_hal_interface/aidl/client_interface.cc:610-663 | over every session the consumer receives exactly the bytes reported as written, in order, the rest being queued |
| AidlAudioData.SinkClient.ReadAudioData | audio_hal_interface/aidl/client_interface.cc:532-583 | returns and leaves in the queue exactly what the drain says, nothing without a provider or a length, and logs the count |
| AidlAudioData.SinkClient.DrainQueue | audio_hal_interface/aidl/client_interface.cc:544-569 | the do-while loop computes the drain |
| AidlAudioData.SinkClient.PollOnce | audio_hal_interface/aidl/client_interface.cc:545-569 | one iteration takes exactly one poll step |
| AidlAudioData.SinkClient.Perform | audio_hal_interface/aidl/client_interface.cc:532-583 | any read or reset on any client reached by them leaves it in the state of the extended session |
| AidlAudioData.SinkClient.LogBytesRead | audio_hal_interface/aidl/a2dp_encoding.cc:201-206 | adds the count to the 64-bit total and records the clock, unless the count is 0 |
| AidlAudioData.SinkClient.ResetPresentationPosition | audio_hal_interface/aidl/a2dp_encoding.cc:195-199 | the delay, the total and the recorded clock restart at 0 |
| AidlAudioData.SourceClient.WriteAudioData | audio_hal_interface/aidl/client_interface.cc:610-663 | reports, and leaves in the queue and with the consumer, exactly what the fill says, and never overfills the queue |
| AidlAudioData.SourceClient.FillQueue | audio_hal_interface/aidl/client_interface.cc:621-647 | the do-while loop computes the fill |
| AidlAudioData.SourceClient.OfferOnce | audio_hal_interface/aidl/client_interface.cc:622-647 | one iteration takes exactly one offer step |
| AidlAudioData.SourceClient.Perform | audio_hal_interface/aidl/client_interface.cc:610-663 | any write on any client reached by them leaves it in the state of the extended session, and reports exactly the prefix it adds |
| RawAddress.AcceptsExactly | types/raw_address.cc:42-63 | a string is accepted if and only if it is six two-character tokens between five colons, each two hex digits, a sign and a digit, or cut short by a NUL; and which byte each token stores |
| RawAddress.HexTable | types/raw_address.cc:51-59 | exactly which characters are read as which digit |
| RawAddress.ParsePrint | types/raw_address.cc:36-63 | parsing the lower-case or the upper-case printed form of any address gives it back |
| RawAddress.PrintedUpper | service/logging_helpers.cc:143-149 | the upper-case printed form of one address, character by character |
| RawAddress.PrintedLower | types/raw_address.cc:36-40 | the lower-case printed form of the same address |
| RawAddress.PrintInjective | service/logging_helpers.cc:143-149 | both printers are injective |
| RawAddress.SpellsExactly | types/raw_address.cc:42-63 | a string is read as the address it spells, up to letter case, if and only if every pair is two hexadecimal digits |
| RawAddress.SignedTokenAccepted | types/raw_address.cc:51-59 | a signed token is accepted and stores a byte it does not spell |
| RawAddress.FormsAgree | service/logging_helpers.cc:143-149 | the two printed forms agree if and only if the address has no letter digit |
| RawAddress.FromString | types/raw_address.cc:42-63 | the loop with its early returns computes the parse; a rejected string leaves the output address as it was |
| ScanRecord.GetScanRecordLength | service/low_energy_scanner.cc:43-61 | on a vector of any length: a length inside it if and only if whole non-empty fields end there before a zero byte or at 62; an abort, a read past the end, or a length past the end, each if and only if the bytes have the stated shape |
| ScanRecord.EndUnique | service/low_energy_scanner.cc:43-61 | a record ends in one place with one list of fields, and a record that ends never aborts the walk or takes it out of the vector |
| ScanRecord.StopUnique | service/low_energy_scanner.cc:43-61 | every vector has at most one of the four shapes, in one place, with one list of fields |
| ScanRecord.UnpaddedLeaves | service/low_energy_scanner.cc:44-46 | whole fields without padding that do not fill 62 bytes always take the walk past the end |
| ScanRecord.FlagsOnlyLeaves | service/low_energy_scanner.cc:44-46 | the record [2, 1, 6] does |
| ScanRecord.PromisedLengthTruncated | service/low_energy_scanner.cc:44-60 | the record [61] makes the walk return more bytes than there are |
| ScanRecord.CopyRecord | service/low_energy_scanner.cc:151-153 | the copy is defined if and only if the record ends in the vector, and is then exactly the encoding of its fields |
| ScanRecord.PrefixUnique | service/low_energy_scanner.cc:43-61 | of two splits of prefixes of the same bytes one extends the other |
| ScanRecord.ScanResultOf | service/low_energy_scanner.cc:151-153 | any fields that fit, encoded and padded with any number of zeros, come back exactly if and only if there is a zero to stop at or they fill 62 bytes |

## Left out

- ScanResultOf: the scan_started_ flag, the delegate and the RSSI of ScanResultCallback are not modelled.
- RequestReadCallback: offsets are non-negative, as the stack delivers them (they are 16-bit unsigned on the air).
- RequestWriteCallback: offsets are non-negative, likewise.
- ServiceAddedCallback: the client registration that follows is not modelled.
- InitializeCall: the second, offloading interface is not modelled.
- ReadAudioData: a null buffer acts as length 0 and is not modelled.
- AudioTimeAccurate: negative byte counts are not modelled; for byte counts that fit the source's int the 64-bit product cannot overflow, so it is exact here.
- MixWrite: the buffer is a sample array, so a trailing odd byte is not modelled.
- WriteAudioData: as ReadAudioData; the count kept by LogBytesWritten belongs to the LE audio transport, which is not modelled.
- BlockedCallReturns: termination of the tasks themselves is assumed.
- MessageLoopThread and ExecutionBarrier are state machines over the threads' steps, not classes: Dafny's objects have no threads.
- Delegate notifications, logging text, and the byte layout of the response structure of the GATT server.
- Condition-variable waits of AddCharacteristic and Start, advertising and scanning in service/gatt_server_old.cc.
- The session_started_ flag, FlushAudioData and RenewAudioProviderAndSession of the AIDL client: provider calls and retries.
- The control socket, its retries and sleeps, the input stream and buffer sizing of the A2DP HAL.
- The HIDL variants of the session layer, codec tables, LE audio, hearing aid, AddressObfuscator, factories, adapter, daemon and settings.
