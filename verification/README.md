# Azure Functions Python worker: a verified model

This project models five connected parts of the Azure Functions Python worker and proves what they
promise, over every input, every run or every interleaving. `dafny verify dfyconfig.toml` checks it.

Where the worker changes objects in place, the model does too: a class with the same fields, whose
methods are proved equal to a function of the old state. What the worker promises is then proved about
those functions, as lemmas over all inputs and all runs. Decisions of the outside world (which directory
fails, which name is generated, which task runs next, what user code returns) are parameters.

## The parts

**Shared-memory transfer.** `Utf8` (section 3 of RFC 3629), `LengthHeader` (flag byte and eight length
bytes), `MemoryMap` (a cursor over an array that all maps of a file share), `FileSystem` and
`FileAccessorUnix` (the search through the directories), `SharedMemoryMap`, `SharedMemorySpec` and
`SharedMemoryManager`, `SharedMemoryProofs` (one put, get or free), `SharedMemoryRuns`, `CloseRequest`,
`Channel`. Results: the manager simulates a map from names to bytes over every run; exactly when the
shared-memory channel delivers what the plain message delivers; a close request answers and frees exactly
what it should.

**HTTP v2 rendezvous.** `HttpV2` is the coordinator; `Rendezvous` is a transition system whose steps are
the code between two awaits, for any number of tasks and ids; `RendezvousPairs` adds that each id has at
most one HTTP request and one invocation; `RendezvousAnswers` says what each step answers,
`RendezvousResponses` covers responses for any traffic, and `RendezvousExamples` holds concrete runs.
Results: the function gets exactly its own request, and the HTTP side and the gRPC answer agree on the
outcome.

**Dispatcher run state.** `Indexing` (registered functions, stored metadata, recorded exception) and
`LogAttribution` (which invocation a log record belongs to). `IndexingAnswers` says what each request is
answered and `IndexedApp` ties indexing to the registry.

**Function registry.** `Registry`: the folds over bindings and parameters, and the commit. The loops of
`add_function` and `add_indexed_function` are the same once the bindings are a list, so one method models
both. The list form also covers repeated names, which only the indexed path can have. `RegistryMeaning` says
what is accepted, refused and recorded.

**Dependency paths and the deferred-binding cache.** `DependencyManager`, `ModuleCache` (sweeping
`sys.modules` in any order) and `DeferredCache`.

## What the proofs found

Where the code does less than its comments say, the model follows the code; each difference is proved,
with the exact condition under which the promise holds.

- A `truncate` that fails after `open` succeeded leaves an empty file. A later directory may then take the
  map, and reads of that name end at the empty file and fail. Content reads back if and only if the first
  directory in which a file of the name opens is the one the creation chose (`GetAfterPut`, `PutThenRead`,
  `TransparentIff`); when every directory opens, if and only if the creation left files in one directory only
  (`UnreachablePut`, `TransparentWhenReadable`).
- Freeing such a name with deletion removes the empty file, answers True, and leaves the content behind,
  which can then be read (`FreeAfterPut`, `PutThenFree`, `FreeMayKeepContent`).
- A file that cannot be opened for reading is not reported: the generic binding hands the function None
  (`FastChannel`, `NotAlwaysTransparent`).
- The stored length is written in the host's byte order and read as little-endian. It is decoded and then
  not used: only the size of the mapping bounds a read (`HeaderOfBlock`, `GetFromHeld`).
- `get_bytes` with the count -9 maps the whole file and returns all of it; other negative counts, counts
  past the content and non-zero offsets end as `GetFromHeld` lists.
- The generic binding encodes `True` as an integer, never as a boolean; dictionaries and lists arrive as
  their JSON text; integers, booleans and floats are sent but refused by the receiver (`PlainChannel`).
- An HTTP v2 invocation that fails before its HTTP request arrived produces no answer at all: recording
  the exception raises `KeyError` (`EarlyFailureAnswersIffArrived`, `CrashLeavesNoAnswer`).
- Nor does an HTTP v2 invocation whose call ends in an exception outside `Exception`, such as a cancellation
  that the function lets through, produce one, although its request had arrived (`CalledAnswersIff`,
  `CrashStrandsWaiter`, `EscapeLeavesNoAnswer`).
- A `None` result is a Success for the host, while the HTTP side raises `ValueError`; an exception object
  that is returned rather than raised is a Success for the host, and is raised on the HTTP side
  (`OutcomesAgree`, `SuccessesWithoutReply`).
- The loop thread's invocation id is set for every invocation and never reset, so records of code that
  works for no invocation carry the last one (`RecordsCarry`, `BackgroundUnattributedIff`,
  `RecordsOfOneRun`).
- A successful load of a worker-indexed function does not imply that the function is registered
  (`LoadSuccessRegistersIff`, `LoadSuccessMayMissFunction`).
- The registry's deferred-bindings flag stays set when the function that set it is replaced
  (`AddFunction`, `FlagOutlivesFunction`). The comparison with the tuple `(str, bytes)` by identity in
  `azure_functions_worker/functions.py:287` never holds; a return annotated `str` or `bytes` is checked
  under its own binding type.
- The search order documented in `azure_functions_worker/utils/dependency.py:135-138` is reached if and
  only if the working directory was not on `sys.path` before. A second call misses it, and so does an
  environment reload whose app directory is already in absolute, normal form (`WorkingDirectoryLastIff`,
  `ReloadMissesOrder`, `SecondCallSwaps`).
- Inspecting a nested namespace package needs its parent in `sys.modules`. When the same or an earlier sweep
  removed the parent, the nested package stays cached; whether it does depends on the order in which a set of
  names is iterated (`SweepExactIff`, `OrderMatters`, `SwitchesPurgeExactlyIff`).

## Assumptions

- The generated map name is a parameter. `Sendable` says that it is new, as a fresh UUID is, and that no
  `bytes` object is 2^63 long.
- A protobuf string field refuses lone surrogates and an integer field is 64 bits wide.
- A coroutine whose event is already set goes on without giving way. The transition system also allows
  other steps in between, so it has more runs than the event loop, not fewer.
- Task numbers in `LogAttribution` grow with time.

## Model

| member | source | states |
|---|---|---|
| Utf8.DecodeOfEncode | azure_functions_worker/bindings/shared_memory_data_transfer/shared_memory_manager.py:109-159 | every string of scalar values is decoded from its own encoding |
| Utf8.EncodeOfDecode | azure_functions_worker/bindings/shared_memory_data_transfer/shared_memory_manager.py:145-159 | bytes that decode are the one encoding of the string they decode to: no overlong form, surrogate or cut sequence is accepted |
| Utf8.EncodesIffScalar | azure_functions_worker/bindings/shared_memory_data_transfer/shared_memory_manager.py:109-120 | a string can be stored if and only if it has no surrogates |
| Utf8.Octets | azure_functions_worker/bindings/shared_memory_data_transfer/shared_memory_manager.py:117-120 | the number of octets of each character and the range of each octet, as in section 3 of RFC 3629 |
| Utf8.OrderPreserved | azure_functions_worker/bindings/shared_memory_data_transfer/shared_memory_manager.py:117-120 | octet sequences are ordered as their characters are, as section 1 of RFC 3629 says |
| LengthHeader.LengthRoundTrip | azure_functions_worker/bindings/shared_memory_data_transfer/shared_memory_map.py:48-55 | the stored length reads back if and only if it fits a signed 64-bit integer and the host is little-endian, or the eight bytes read the same both ways |
| LengthHeader.SupportedStringLength | azure_functions_worker/bindings/shared_memory_data_transfer/shared_memory_constants.py:38-58 | a string the size policy admits takes 2^19 to 2^32 bytes, and that length survives the header |
| MemoryMap.IsMemMapInitialized | azure_functions_worker/bindings/shared_memory_data_transfer/file_accessor.py:54-72 | true exactly when the flag byte is set; the cursor is back where it was |
| MemoryMap.SetMemMapInitialized | azure_functions_worker/bindings/shared_memory_data_transfer/file_accessor.py:74-85 | only the flag byte changes, and the cursor is put back unless the write itself raises |
| FileSystem.SearchMeaning | azure_functions_worker/bindings/shared_memory_data_transfer/file_accessor_unix.py:145-166 | the search ends at the first directory that has the file and opens it, and fails if and only if there is none |
| FileAccessorUnix.FileAccessorUnix.OpenMemMapFile | azure_functions_worker/bindings/shared_memory_data_transfer/file_accessor_unix.py:145-166 | the loop returns the first directory that has the file and opens it |
| FileAccessorUnix.FileAccessorUnix.CreateMemMapFile | azure_functions_worker/bindings/shared_memory_data_transfer/file_accessor_unix.py:168-200 | an existing file is refused unchanged; otherwise the files afterwards are those of trying each directory in turn, left-over files included, and no other file's storage is touched |
| FileAccessorUnix.FileAccessorUnix.CreateMemMap | azure_functions_worker/bindings/shared_memory_data_transfer/file_accessor_unix.py:53-71 | the map returned is of the very file made, writable, zero but for its flag, which is set; bad names and sizes raise |
| FileAccessorUnix.FileAccessorUnix.OpenMemMap | azure_functions_worker/bindings/shared_memory_data_transfer/file_accessor_unix.py:32-51 | the read-only map shares the file found by the search and has the size asked for, 0 standing for the whole file |
| FileAccessorUnix.FileAccessorUnix.DeleteMemMap | azure_functions_worker/bindings/shared_memory_data_transfer/file_accessor_unix.py:73-89 | removes the file the search finds and closes the map, or reports failure and removes nothing |
| SharedMemoryMap.SharedMemoryMap.PutBytes | azure_functions_worker/bindings/shared_memory_data_transfer/shared_memory_map.py:37-64 | the flag byte stays, header and content replace what follows; fails exactly when they do not fit, then with only the header written |
| SharedMemoryMap.SharedMemoryMap.GetContentLength | azure_functions_worker/bindings/shared_memory_data_transfer/shared_memory_map.py:109-119 | the length stored behind the flag byte, whatever the cursor was |
| SharedMemoryMap.SharedMemoryMap.GetBytes | azure_functions_worker/bindings/shared_memory_data_transfer/shared_memory_map.py:66-88 | what a read returns for every size of map, offset and count, the stored length playing no part |
| SharedMemoryMap.ReadContentMeaning | azure_functions_worker/bindings/shared_memory_data_transfer/shared_memory_map.py:66-88 | the same in terms of the content behind nine header bytes |
| SharedMemoryMap.SharedMemoryMap.Dispose | azure_functions_worker/bindings/shared_memory_data_transfer/shared_memory_map.py:90-100 | the map ends closed unless the deletion raises; without deletion no file changes |
| SharedMemoryManager.SharedMemoryManager.constructor | azure_functions_worker/bindings/shared_memory_data_transfer/shared_memory_manager.py:25-33 | nothing is tracked and the invariant holds |
| SharedMemoryManager.SharedMemoryManager.PutBytes | azure_functions_worker/bindings/shared_memory_data_transfer/shared_memory_manager.py:80-107 | directories, files and tracked names afterwards, and the result, are those of the put on values, failed writes being disposed of |
| SharedMemoryManager.SharedMemoryManager.PutString | azure_functions_worker/bindings/shared_memory_data_transfer/shared_memory_manager.py:109-120 | puts the encoding and reports its length; an unencodable string raises and changes nothing |
| SharedMemoryManager.SharedMemoryManager.GetBytes | azure_functions_worker/bindings/shared_memory_data_transfer/shared_memory_manager.py:122-143 | the answer is that of the read on values, and nothing is changed by reading |
| SharedMemoryManager.SharedMemoryManager.GetString | azure_functions_worker/bindings/shared_memory_data_transfer/shared_memory_manager.py:145-159 | the bytes read, decoded; undecodable bytes raise |
| SharedMemoryManager.SharedMemoryManager.FreeMemMap | azure_functions_worker/bindings/shared_memory_data_transfer/shared_memory_manager.py:161-178 | the map is closed and untracked, and its file is removed only on request |
| SharedMemoryProofs.HeaderOfBlock | azure_functions_worker/bindings/shared_memory_data_transfer/shared_memory_map.py:44-119 | a written map has its flag set and is filled exactly by header and content, and its stored length reads back on a little-endian host for every length under 2^63 |
| SharedMemoryProofs.CreateFileEffect | azure_functions_worker/bindings/shared_memory_data_transfer/file_accessor_unix.py:180-200 | exactly which files a creation adds, what is in them, and that all others stay |
| SharedMemoryProofs.GetFromHeld | azure_functions_worker/bindings/shared_memory_data_transfer/shared_memory_manager.py:122-143 | reading a held name gives the first k bytes for every k that fits, and the stated error or result for every other offset and count |
| SharedMemoryProofs.PutOutcome | azure_functions_worker/bindings/shared_memory_data_transfer/shared_memory_manager.py:80-107 | a put succeeds if and only if the name is new and some directory takes the file; a refused one changes nothing, and one no directory takes tracks nothing |
| SharedMemoryProofs.GetAbsent | azure_functions_worker/bindings/shared_memory_data_transfer/shared_memory_manager.py:122-143 | a name without a file gives None, and an empty name or a bad size raises, whatever the files |
| SharedMemoryProofs.FreeKeepsFiles | azure_functions_worker/bindings/shared_memory_data_transfer/shared_memory_manager.py:161-178 | freeing an untracked name does nothing and answers False; freeing without deletion only untracks |
| SharedMemoryProofs.PutHolds | azure_functions_worker/bindings/shared_memory_data_transfer/file_accessor_unix.py:180-200 | after a successful put the name holds the content if and only if the creation left files in one directory only |
| SharedMemoryProofs.GetAfterPut | azure_functions_worker/bindings/shared_memory_data_transfer/shared_memory_manager.py:122-143 | every read right after a put, for every creation and every set of directories that do not open: the content if and only if the search ends at the file the creation chose |
| SharedMemoryProofs.UnreachablePut | azure_functions_worker/bindings/shared_memory_data_transfer/file_accessor_unix.py:185-192 | with a left-over file in another of distinct directories, reading raises while every directory opens and no file of the name has been removed |
| SharedMemoryRuns.HoldsFrame | azure_functions_worker/bindings/shared_memory_data_transfer/shared_memory_manager.py:80-178 | no operation changes what a name holds, except deleting that name's file |
| SharedMemoryRuns.RunSimulates | azure_functions_worker/bindings/shared_memory_data_transfer/shared_memory_manager.py:80-178 | over every sequence of puts, gets and frees, the manager holds everything that an abstract map from names to bytes holds, the map taking the outcomes of puts and deletions as they come |
| SharedMemoryRuns.ReadAfterRun | azure_functions_worker/bindings/shared_memory_data_transfer/shared_memory_manager.py:122-143 | after any run, reading k bytes of a stored name gives the first k bytes put under it, 0 and empty content included |
| SharedMemoryRuns.FreeWithoutDeletion | azure_functions_worker/bindings/shared_memory_data_transfer/shared_memory_manager.py:161-178 | freeing without deletion untracks the name and leaves its content readable |
| SharedMemoryProofs.FreeDeletesOwnFile | azure_functions_worker/bindings/shared_memory_data_transfer/shared_memory_manager.py:161-178 | freeing with deletion removes exactly the file the search finds; a given file of the name goes if and only if the search ends there, as it does whenever that is the only one and its directory opens |
| SharedMemoryProofs.DeletedNameIsGone | azure_functions_worker/bindings/shared_memory_data_transfer/shared_memory_manager.py:161-178 | after a deletion that answered True the name is gone if and only if it was in one directory only; then no read finds it and a put may use it again |
| SharedMemoryProofs.FreeAfterPut | azure_functions_worker/bindings/shared_memory_data_transfer/file_accessor_unix.py:73-89 | freeing after a put, for every creation and every fault: True if and only if some file of the name opens and can be removed; the content goes if and only if that file is the one the creation chose; the name is gone if and only if the creation left one file |
| SharedMemoryProofs.PutThenFree | azure_functions_worker/bindings/shared_memory_data_transfer/shared_memory_manager.py:161-178 | without faults and with distinct directories the answer is True in any case, and the content is removed if and only if the creation left files in one directory only |
| SharedMemoryProofs.FreeMayKeepContent | azure_functions_worker/bindings/shared_memory_data_transfer/file_accessor_unix.py:73-89 | a concrete deletion that answers True and after which the content, unreadable before, reads back |
| SharedMemoryRuns.ReadsStay | azure_functions_worker/bindings/shared_memory_data_transfer/shared_memory_manager.py:80-178 | until its own deletion is asked for, every read of an existing name gives what it gave before, over any operations |
| SharedMemoryRuns.PutThenRead | azure_functions_worker/bindings/shared_memory_data_transfer/shared_memory_manager.py:80-178 | after a put under a new name and any operations but a deletion of that name, what every read of it gives, from the inputs alone |
| SharedMemoryRuns.SinglePutReadsBack | azure_functions_worker/bindings/shared_memory_data_transfer/shared_memory_manager.py:80-178 | content put into one file reads back, for every count that fits, until its deletion is asked for |
| SharedMemoryRuns.PutKeepsUniqueNames | azure_functions_worker/bindings/shared_memory_data_transfer/file_accessor_unix.py:168-200 | a put keeps every name in at most one directory if and only if it left files in one directory only |
| SharedMemoryRuns.RunKeepsUniqueNames | azure_functions_worker/bindings/shared_memory_data_transfer/file_accessor_unix.py:53-89 | over every sequence of operations, every name is in at most one directory at every moment if and only if no accepted put leaves files in two |
| CloseRequest.CloseSharedMemoryResources | azure_functions_worker/dispatcher.py:870-903 | the loop leaves the state and the answers of freeing the names one after another |
| CloseRequest.CloseConservation | azure_functions_worker/dispatcher.py:881-903 | the answer has exactly the names asked for; True if and only if tracked, listed once and disposed of; no listed name stays tracked; with the cache on no file is removed, and otherwise exactly those that the first listings of tracked names find and can remove |
| Channel.ToOutgoingParamBinding | azure_functions_worker/bindings/meta.py:222-279 | encode, policy, shared-memory transfer and fall-back through the mutable manager equal their form on values; the binding has the name asked for, and says shared memory only for values meant for it or else carries exactly what their kind says |
| Channel.OutgoingMeaning | azure_functions_worker/bindings/datumdef.py:191-227 | for every value, name and switch setting: the name of the binding, and what the message carries for each kind of value, or raises |
| Channel.PolicyMeaning | azure_functions_worker/bindings/meta.py:217-247 | shared memory is meant for 1 MB to 2 GB of bytes, half as many characters, and with the cache any str or bytes |
| Channel.FromIncomingProto | azure_functions_worker/bindings/meta.py:153-197 | the same for the receiving side |
| Channel.IncomingMeaning | azure_functions_worker/bindings/datumdef.py:70-148 | what the receiver makes of every message |
| Channel.PlainChannel | azure_functions_worker/bindings/datumdef.py:70-112 | what the plain message delivers for every kind of Python value |
| Channel.ChannelChoice | azure_functions_worker/bindings/meta.py:222-279 | the binding says shared memory, with name, length and type, if and only if the value is of a size and kind meant for it, can be encoded and a directory takes the file; otherwise it carries the value |
| Channel.FastChannel | azure_functions_worker/bindings/datumdef.py:115-188 | what arrives, for every value, switch setting, size, creation outcome and set of directories that do not open for reading |
| Channel.FastEqualsPlain | azure_functions_worker/bindings/datumdef.py:115-188 | when the creation left one file, what arrives is what the plain message would have delivered, except None if that file cannot be opened |
| Channel.ChannelTransparency | azure_functions_worker/bindings/generic.py:24-68 | every string of scalar values and every bytes value arrives as it was sent, if and only if shared memory is not used or the search ends at the file the creation chose |
| Channel.TransparentIff | azure_functions_worker/bindings/meta.py:153-279 | the two channels agree if and only if shared memory is not used, or the first directory in which a file of the name opens is the one the creation chose |
| Channel.TransparentWhenReadable | azure_functions_worker/bindings/meta.py:153-279 | with distinct directories that all open, that is: shared memory is not used or the creation left files in one directory only |
| Channel.NotAlwaysTransparent | azure_functions_worker/bindings/shared_memory_data_transfer/file_accessor_unix.py:145-200 | concrete transfers in which the receiver fails, in which an unopenable left-over file saves it, and in which it is handed None |
| Channel.UnsupportedNeverReached | azure_functions_worker/bindings/datumdef.py:164-177 | the unsupported-type error of the outgoing transfer cannot occur |
| HttpV2.ContextReference.SetHttpRequest | azure_functions_worker/http_v2.py:51-54 | filling or emptying the slot sets its event; the other slot is unchanged |
| HttpV2.ContextReference.SetHttpResponse | azure_functions_worker/http_v2.py:60-63 | the same for the response |
| HttpV2.HttpCoordinator.SetHttpRequest | azure_functions_worker/http_v2.py:137-141 | only this id's request slot and event change, its reference being made if needed |
| HttpV2.HttpCoordinator.SetHttpResponse | azure_functions_worker/http_v2.py:143-148 | only this id's response slot and event change; without a reference KeyError and no change |
| HttpV2.HttpCoordinator.GetHttpRequestStart | azure_functions_worker/http_v2.py:150-156 | the reference is there afterwards, and the task goes on at once exactly when the event is set |
| HttpV2.HttpCoordinator.AwaitHttpResponseStart | azure_functions_worker/http_v2.py:158-165 | without a reference KeyError, otherwise waits on the event |
| HttpV2.HttpCoordinator.PopHttpRequest | azure_functions_worker/http_v2.py:167-174 | takes the request out of this id's slot, or ValueError with nothing changed |
| HttpV2.HttpCoordinator.PopHttpResponse | azure_functions_worker/http_v2.py:176-183 | the same for the response |
| Rendezvous.StepSafe | azure_functions_worker/http_v2.py:137-183 | every step of every task keeps: filled slots have their events set, events record exactly what was posted, a request in a slot is its id's, received requests are distinct and in no slot, one answer per answered invocation |
| Rendezvous.RunSafe | azure_functions_worker/http_v2.py:137-183 | so every interleaving of any tasks and ids is safe |
| RendezvousAnswers.FinishMeaning | azure_functions_worker/dispatcher.py:676-731 | when a call ends, one answer is queued: Failure with exactly the exception the call raised, RuntimeError for a result without a return binding, or the exception of a failed conversion; otherwise Success with exactly its value; the response slot holds the same |
| RendezvousAnswers.OtherAnswers | azure_functions_worker/dispatcher.py:721-731 | every other step: which exception is answered and posted, and that nothing else is |
| RendezvousPairs.EventsNeverCleared | azure_functions_worker/http_v2.py:51-63 | no step unsets an event of any id |
| RendezvousPairs.NoRequestDeliveredTwice | azure_functions_worker/http_v2.py:150-174 | whatever the traffic per id, a received request was posted for that id and no other invocation received it |
| RendezvousPairs.RequestReachesInvocation | azure_functions_worker/http_v2.py:150-174 | with one request and one invocation the waiting invocation can go on, and does so with exactly that request |
| RendezvousPairs.LateGetterFails | azure_functions_worker/http_v2.py:167-174 | asking again after the request was taken gives a ValueError at once instead of waiting |
| RendezvousPairs.RunPaired | azure_functions_worker/http_v2.py:137-183 | in every run, what was posted is in its slot until the partner has it, and the partner has exactly it |
| RendezvousPairs.OutcomesAgree | azure_functions_worker/dispatcher.py:676-731 | the HTTP side sends back a value if and only if the answer is Success with it, and raises an exception if and only if the answer is Failure with it or a Success holding it; None leaves it without a response |
| RendezvousPairs.WaiterWakesIffPosted | azure_functions_worker/http_v2.py:216-231 | a waiting HTTP task can go on if and only if its invocation posted an outcome |
| RendezvousPairs.AnswersOnce | azure_functions_worker/dispatcher.py:708-731 | an invocation that answered has exactly one InvocationResponse, under its own id; any other has none |
| RendezvousPairs.EarlyFailureAnswersIffArrived | azure_functions_worker/dispatcher.py:721-731 | a failure before the request is asked for is answered if and only if the request had arrived; else the handler dies of KeyError |
| RendezvousExamples.CrashLeavesNoAnswer | azure_functions_worker/dispatcher.py:721-731 | a concrete run in which nothing is answered and the HTTP side waits for an event that is not set |
| RendezvousPairs.CalledAnswersIff | azure_functions_worker/dispatcher.py:642-731 | an invocation that got its request answers, reporting the end of its call and conversions, if and only if its call returns or raises an Exception; anything else that ends it is neither posted nor answered |
| RendezvousPairs.CrashStrandsWaiter | azure_functions_worker/dispatcher.py:721-731 | in no continuation of a run does a crashed invocation have an answer, and the HTTP task of its id is never woken |
| RendezvousExamples.EscapeLeavesNoAnswer | azure_functions_worker/dispatcher.py:642-731 | a concrete run: request posted, received, and the call ends in a cancellation; no answer, and the HTTP side waits |
| RendezvousExamples.SuccessesWithoutReply | azure_functions_worker/dispatcher.py:676-719 | concrete runs in which a function returns None, and an exception object: Success for the host, no value for the HTTP side |
| RendezvousResponses.ResponsesAreOwn | azure_functions_worker/http_v2.py:143-183 | for any number of requests and invocations per id, a handler that sends back a value or raises does so because an invocation of its own id posted it, and one that finds nothing does so after such a post |
| Indexing.Dispatcher.ProcessIndexedFunctions | azure_functions_worker/loader.py:129-172 | the loop registers the functions in order up to the first failure, and returns all ids or the exception |
| Indexing.Dispatcher.LoadFunctionMetadata | azure_functions_worker/dispatcher.py:433-456 | the stored result changes only when indexing returns |
| Indexing.Dispatcher.HandleInitialize | azure_functions_worker/dispatcher.py:401-415 | indexing at start-up or reload records its exception, or that of the HTTP v2 set-up, and answers; a server that cannot start is not recorded: a reload answers with the failure, an initialisation not at all |
| Indexing.Dispatcher.HandleMetadata | azure_functions_worker/dispatcher.py:458-499 | state and answer equal those of the step on values |
| IndexingAnswers.InitializeMeaning | azure_functions_worker/dispatcher.py:401-423 | when an initialisation or reload is answered, fails or is not answered, and what is registered, stored and recorded, in terms of the app |
| IndexingAnswers.MetadataMeaning | azure_functions_worker/dispatcher.py:458-499 | a metadata request indexes unless that was done at start-up, and answers with the exception on record, else the stored functions, else default indexing |
| IndexingAnswers.LoadMeaning | azure_functions_worker/dispatcher.py:516-583 | when a load succeeds and with what it fails, for registered, worker-indexed and legacy functions |
| IndexingAnswers.LoadEffect | azure_functions_worker/dispatcher.py:516-583 | what a load registers, stores and records |
| IndexingAnswers.MetadataAfterStartUp | azure_functions_worker/dispatcher.py:490-499 | after indexing at start-up and any requests that do not index again, the host is told exactly the app's functions, in order, if and only if no exception is on record and none of them raised |
| IndexingAnswers.FirstStartUpReported | azure_functions_worker/dispatcher.py:401-499 | from the very start: if and only if nothing raised and the HTTP v2 set-up recorded nothing |
| Indexing.Dispatcher.HandleLoad | azure_functions_worker/dispatcher.py:501-583 | the answer and the state after a load request |
| Indexing.ProcessEffect | azure_functions_worker/loader.py:142-172 | indexing returns if and only if no function raises, and then registers and lists exactly the app's functions in order |
| Indexing.RunKeeps | azure_functions_worker/dispatcher.py:454-548 | over every run registrations only grow, every stored id is registered, and a recorded exception is not cleared |
| Indexing.ReportedFunctionsStayUsable | azure_functions_worker/dispatcher.py:516-601 | a function once reported to the host can be invoked ever after, and loading it never indexes again |
| Indexing.MetadataReportsWholeApp | azure_functions_worker/dispatcher.py:454-499 | a metadata request answers with the whole app, in order and registered, if and only if no exception is on record and no function raises |
| IndexedApp.ProcessIndexedFunctions | azure_functions_worker/loader.py:129-172 | the loop through the registry registers and returns what indexing prescribes, a function failing to register exactly when its inspection raises or it is not loadable |
| IndexedApp.MetadataReportsLoadableApp | azure_functions_worker/dispatcher.py:454-499 | the host is told the whole app, in order, if and only if the registry accepts every function, each can be described, and no exception is on record |
| Indexing.ExceptionIffRecorded | azure_functions_worker/dispatcher.py:454-548 | after any run an exception is on record if and only if some request of the run recorded one |
| Indexing.FailureIsPermanent | azure_functions_worker/dispatcher.py:476-548 | after a failed indexing every metadata answer, and every load of an unregistered worker-indexed function, is a Failure |
| Indexing.LoadSuccessRegistersIff | azure_functions_worker/dispatcher.py:516-548 | a successfully loaded function is found by invocations if and only if it was registered, is legacy, or is in the app just indexed |
| Indexing.LoadSuccessMayMissFunction | azure_functions_worker/dispatcher.py:516-548 | a concrete load that succeeds without making its function invocable |
| LogAttribution.RunRecorded | azure_functions_worker/dispatcher.py:1079-1098 | in every interleaving, tasks and pool threads hold the origin and the job that the events say |
| LogAttribution.RecordsCarry | azure_functions_worker/dispatcher.py:1101-1112 | exactly which id a record carries, wherever it is logged, from the events alone: that of the Begin of its task or of the tasks that led to it, or of the job of its pool thread; none on a pool thread between jobs |
| LogAttribution.BackgroundUnattributedIff | azure_functions_worker/dispatcher.py:654-656 | other loop-thread records carry no id if and only if no invocation has filled in its context yet |
| LogAttribution.RecordsOfOneRun | azure_functions_worker/dispatcher.py:654-656 | a concrete run: handler, created task and pool thread carry their id, and so does a task that works for no invocation |
| Registry.ReturnChoiceMeaning | azure_functions_worker/functions.py:81-97 | the type is that of the first $return, else of the last binding with implicit output; it exists if and only if one of them does |
| Registry.BoundMeaning | azure_functions_worker/functions.py:64-79 | the bound names are those of the bindings other than $return, the last of a name winning |
| RegistryMeaning.LoadableIff | azure_functions_worker/functions.py:99-304 | a function can be loaded if and only if no direction, context, name, annotation or return of it is at fault, each fault spelled out |
| RegistryMeaning.RefusesMismatch | azure_functions_worker/functions.py:99-151 | bad directions, an unbound context annotated otherwise, and names that do not match raise FunctionLoadError |
| RegistryMeaning.RefusesParam | azure_functions_worker/functions.py:153-262 | otherwise the first faulty parameter decides: FunctionLoadError for a misplaced or missing Out, for no type and for a type that does not fit; what its type check raises if that breaks |
| RegistryMeaning.RefusesReturn | azure_functions_worker/functions.py:266-295 | and after the parameters the return annotation |
| RegistryMeaning.ParamRecorded | azure_functions_worker/functions.py:227-264 | each parameter of a loaded function is an output if its binding is out and an input if not; its binding type is "generic" if and only if it is annotated str or bytes without implicit output, or its binding is generic; else that of its binding |
| RegistryMeaning.FunctionRecorded | azure_functions_worker/functions.py:306-358 | context, HTTP trigger, deferred bindings and return type of a loaded function, from its bindings and signature |
| Registry.Registry.FoldBindings | azure_functions_worker/functions.py:372-386 | the loop over the bindings gives the two return flags, the bound names and the return type, or refuses a bad direction |
| Registry.Registry.ValidateParams | azure_functions_worker/functions.py:133-264 | accepts if and only if names match and every parameter is accepted; then inputs, outputs and the deferred flag; otherwise raises for the first parameter refused |
| Registry.Registry.FunctionReturnType | azure_functions_worker/functions.py:266-304 | only an explicit return is checked against its annotation, and raises what the first failing check raises; the return type carries the chosen binding type |
| Registry.Registry.AddFunction | azure_functions_worker/functions.py:360-469 | succeeds if and only if the function is loadable; then inputs and outputs partition the bound parameters by direction and cover the signature minus an unbound context; otherwise raises what the first failing check raises and leaves the registry unchanged; the flag is the disjunction over all commits |
| Registry.FlagOutlivesFunction | azure_functions_worker/functions.py:345-348 | a concrete registry whose flag is set though no function in it has deferred bindings |
| Registry.Registry.InfoDescribes | azure_functions_worker/functions.py:306-350 | the information built for any loadable function has all of these properties |
| DependencyManager.DependencyManager.RemoveModuleCache | azure_functions_worker/utils/dependency.py:371-411 | whatever the order of the visits, sys.modules afterwards is that of the sweep in that order |
| ModuleCache.SweepMeaning | azure_functions_worker/utils/dependency.py:384-411 | in every order, built-in modules, the worker's own and those not found under the path stay, and all others that are no nested namespace packages go |
| ModuleCache.SweepKeeps | azure_functions_worker/utils/dependency.py:384-411 | in every order, modules that may not be dropped stay, and one that may be dropped survives only if a package its inspection needs is missing afterwards |
| ModuleCache.SweepExactIff | azure_functions_worker/utils/dependency.py:384-411 | exactly the droppable modules are removed, in every order, if and only if none of them is a nested namespace package one of whose parents is missing or droppable |
| ModuleCache.OrderMatters | azure_functions_worker/utils/dependency.py:393-411 | two orders for a namespace package and one nested in it: one removes both, the other leaves the nested one |
| ModuleCache.SweepsExactIff | azure_functions_worker/utils/dependency.py:371-411 | the same equivalence for any series of sweeps |
| DependencyManager.DependencyManager.AddPath | azure_functions_worker/utils/dependency.py:245-266 | a path already present, or empty, changes nothing; a new one goes to its end and clears its caches |
| DependencyManager.DependencyManager.RemovePath | azure_functions_worker/utils/dependency.py:268-285 | all occurrences go, the rest keeps its order, and the caches are cleared even if there was none |
| DependencyManager.OnePath | azure_functions_worker/utils/dependency.py:245-304 | what adding or removing one path does to sys.path and the caches |
| DependencyManager.DependencyManager.UseWorker | azure_functions_worker/utils/dependency.py:95-117 | the path afterwards is what was there without customer packages and working directory, behind the worker's packages unless they were there; without isolation nothing changes |
| DependencyManager.WorkerModeShape | azure_functions_worker/utils/dependency.py:114-116 | the same on values, from any start: worker packages that were not on the path come first |
| DependencyManager.DependencyManager.PrioritizeCustomer | azure_functions_worker/utils/dependency.py:123-178 | path and caches after the switch to customer packages |
| DependencyManager.PrioritizeShape | azure_functions_worker/utils/dependency.py:142-176 | the shape of sys.path after customer mode, from any start |
| DependencyManager.NormalForm | azure_functions_worker/utils/dependency.py:114-176 | both switches bring any path to customer packages if there are any, rest in order, worker, working directory |
| DependencyManager.PrioritizeKeepsOrder | azure_functions_worker/utils/dependency.py:142-176 | the worker's packages are there exactly once and all other entries keep their order |
| DependencyManager.CustomerBeforeWorker | azure_functions_worker/utils/dependency.py:135-138 | the customer's packages are searched before the worker's |
| DependencyManager.WorkingDirectoryLastIff | azure_functions_worker/utils/dependency.py:135-138 | with or without customer packages, the working directory comes after the worker's packages if and only if it was not on the path before |
| DependencyManager.ReloadMissesOrder | azure_functions_worker/dispatcher.py:751-753 | an environment reload reaches the documented order if and only if the absolute form of the app directory differs from the directory appended and was not on the path |
| DependencyManager.SecondCallSwaps | azure_functions_worker/utils/dependency.py:142-176 | a second call with the same working directory misses it from any start |
| DependencyManager.SwitchesClear | azure_functions_worker/utils/dependency.py:245-304 | both switches together remove the importers of, and sweep for, exactly those of the three directories that there are |
| DependencyManager.SwitchesPurge | azure_functions_worker/utils/dependency.py:245-304 | after both switches, whatever the orders, everything not found under the three directories is still cached, and of what is found there only namespace packages some parent of which is gone |
| DependencyManager.SwitchesPurgeExactlyIff | azure_functions_worker/utils/dependency.py:245-304 | nothing of the three directories stays cached, in every order, if and only if no sweep meets a nested namespace package to be dropped one of whose parents is missing or to be dropped |
| DeferredCache.DeferredBindingsCache.Decode | azure_functions_worker/bindings/meta.py:282-320 | one use of the cache: its answer, whether decode was called, and the cache afterwards, unchanged when decode raises |
| DeferredCache.AnswerIsFirstDecoded | azure_functions_worker/bindings/meta.py:282-320 | over any calls the answer is the first value ever decoded for the key, and decode is called, its None or exception passed on, exactly while there is none |
| DeferredCache.CacheKeys | azure_functions_worker/bindings/meta.py:282-320 | a key has an entry exactly when decoding it returned once |
| DeferredCache.FirstDecodedMeaning | azure_functions_worker/bindings/meta.py:282-320 | the first decoded value is one that a call for this key gave, all earlier ones for the key giving None or raising |
| DeferredCache.CacheIsTransparent | azure_functions_worker/bindings/meta.py:282-320 | if decoding depends on the key alone the cache cannot be told from decoding every time |

## Left out

- The gRPC channel, the polling thread, sockets, web server start-up, OpenTelemetry and the text of log records: I/O and libraries.
- Failures of mmap(2) itself, and the host's own reads and writes of the directories.
- `_get_valid_mem_map_dirs` and its environment variables: the list of usable directories is given.
- The Windows and Dummy file accessors; a Dummy creation is the case that every directory fails.
- None given as a map name or as content: names are strings and content is bytes.
- The bindings of the azure-functions SDK and the lookup in `get_binding`; HTTP, cookie and collection datums.
- Annotations, `inspect` and typing: each annotation is given by the facts the checks ask of it.
- UUID generation: the name of a new map is a parameter, and function ids are given.
- HTTP clients that disconnect. `sync_http_request` is part of the call: its exceptions are among the ways a call can end.
- An exception outside `Exception` in the first segment of an invocation, or in an output conversion after the result was posted.
- A namespace package whose path is computed anew because its parent's path, or `sys.path`, changed; the packages above a namespace package are taken to have a path.
- The once-only check of `HttpV2Registry`: its result is a parameter.
- The hook chain of `extension.py`: two loops that run hooks under `try`, which would only add easy members.
- Retry and binding protos of indexed functions, JSON text, nullable converters.
- Reloading of namespaces in `reload_customer_libraries`, and the search for the three directories at start-up.
- Threads that customer code starts itself: they store their own invocation id or none.
- An exception of `close` on a map, which would leave a name of a close request tracked and reported False.
- Channel.FromIncomingProto: models the generic binding, which ignores trigger metadata; the conversion of that metadata, the bindings of the SDK and the deferred branch are absent.
- Channel.FastChannel: payloads of 2^63 bytes or more are excluded, since no Python object is that long.
