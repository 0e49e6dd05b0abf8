# GETFILE transfer and shared-memory cache: a verified model

Three programs of the repository are modelled and proved correct here.

* **The proxy and its cache (project3).** Proxy threads take a shared-memory segment from a queue, post a request on a
  bounded control queue, and exchange packets with the cache worker over two message queues per segment while the file
  passes through the segment. `Protocol` is the transition system: any number of proxy threads, any number of segments,
  one cache worker, queues of capacity ten that block, reads of any length. `ProtocolInvariant` holds the inductive
  invariant, `ProtocolSafety` and `ProtocolLiveness` what follows from it; `ProtocolReach` says when each step can be
  taken and in which order the queues are served, and `ProtocolClient` what a client makes of the answers. `Steque`,
  `ShmChannel` and `SimpleCache` are the linked queue, the wiring of the message queues, and the sorted index, in the
  imperative form of the source; `Rotation`, `CString` and `ProtocolQueues` connect them.
* **The GETFILE library (project1 gflib).** `ClientModel` and `ServerModel` are the two parsers as functions of their
  whole state, with every branch, the unsigned arithmetic, and a mark for the states in which the source has left its
  buffer. `GfClient` and `GfServer` are the same parsers in the form of the source, classes that work in place on their
  buffers, proved to do what those functions say. `ClientReads`, `ClientBody`, `ClientCounts`, `ClientSplit`,
  `ServerReads` and `ServerSplit` prove what the functions amount to. `Handler` is the chunked sender, `GetFile` the
  texts, the socket, `strtok` and `strncmp`, `Decimal` printing and reading numbers. `EndToEnd` composes them into a
  whole exchange.
* **The worker pool (project4).** `WorkerPool` is the pool that drains a queue under a mutex.

The central results: every interleaving of the protocol refines a server that answers each request in one step, and the
bytes sent are the atomic answers exactly when every write of a header was complete; with at least one segment it never
deadlocks, and every run is bounded by six steps a byte, twelve a request and two a spurious wake-up; whatever is in
flight in shared memory is exactly the announced slice of the file and nobody can overwrite it; the client of a GETFILE
exchange receives a file byte for byte and reports success exactly when the file is not empty, no read fails, and the
first read brings at least the whole header, and with a header in pieces it never does, whatever the file and the reads;
a request in pieces reaches the handler with its path exactly under a stated condition on where it is cut. A run in which
the source leaves its buffer, where C defines nothing, does not count as success.

Bytes are modelled as `char`. Environment choices (how much a read or a `pread` transfers, what the write of a header
returns, which waiter a signal wakes, what uninitialised fields contain, when a wait wakes spuriously) are parameters, so
every theorem holds for all of them. A read or write plan is a finite list that may be arbitrarily long. Two things are
assumed instead: in `Protocol` the write of a chunk is complete, because an assertion behind it
(`project3/handle_with_cache.c:67-68`) ends the process otherwise, which cuts the run short; and in `EndToEnd` the server's
writes are complete, while `Handler` has them as parameters.

Where code and documentation differ, the model follows the code:

* Message queues have capacity 10 although 20 is asked for (`project3/shm_channel.c:9-14`).
* The header callback is documented to receive the full header; it receives it with the two spaces around the status
  replaced by terminators (`ClientBody.SuccessRun`, `ClientReads.HeaderSeen`).
* The design notes promise that a header may arrive in pieces (`project1/README:9-13`). It may not: until the header is
  parsed every read lands at the beginning of the buffer (`project1/ud923-project1-gflib/gfclient.c:134`). A failing run
  is `ClientSplit.PiecesNotAccepted`; the exact condition is `EndToEnd.DeliveredIff` for a file and `ClientSplit.MissIff`
  for a missing one. The same promise for the server fails except for some cuts, and the exact condition is
  `ServerSplit.RequestIff`.
* A response whose header is invalid is documented to give a negative result. A text that does not begin with the scheme
  and a success header that does not end right do (`ClientReads.SchemeIff`, `ClientBody.WrongEndRejected`). A longer word
  that begins with the scheme passes (`ClientBody.LongSchemeSucceeds`). Another word than `OK` in the place of the status
  gives result 0 exactly when more than fourteen bytes follow the scheme and its space, or more than five that begin
  with `ERROR`; with less the client waits, and fails if nothing follows (`ClientBody.FailureIffDecided`,
  `ClientBody.ShortFailureFails`; `project1/ud923-project1-gflib/gfclient.c:179-195`).

Properties that hold only under a condition, with the exact condition:

* Progress of the protocol needs one segment: `ProtocolLiveness.StuckIffNoSegments`.
* The proxy's answers are the atomic ones exactly when every header write is complete; its result is never looked at on a
  hit (`project3/handle_with_cache.c:91`): `ProtocolSafety.AtomicIffWholeHeaders`, `ProtocolLiveness.MaximalRunAnswersAll`.
* A requested path survives the server's parser exactly when it is not empty and has no space:
  `ServerReads.PathSurvivesIff`.
* A request in pieces reaches the handler with its path exactly when reads end, if at all, right behind the scheme and
  right behind the method, the next brings the whole path, and, if anything comes later, nothing of the end sequence came
  with the path, no later read is long enough to reach behind it in the buffer, and not more than 266 bytes arrive:
  `ServerSplit.RequestIff`, `ServerSplit.GoodCuts`.
* `find_segment` stops exactly when the index is in the queue, because its loop counter never moves:
  `Rotation.SearchStopsIffPresent`.
* A response of length zero is completed exactly when the first read brings a byte behind the header nonetheless, any other
  exactly when the announced bytes arrive: `ClientBody.SuccessIff`.
* The last row of a cache list keeps its path exactly when it ends with a newline or with something behind the path:
  `SimpleCache.LastRowKeepsPathIff`.
* A request fits its buffer exactly up to a path of 265 characters: `GetFile.RequestFitsIff`.
* Every request of a workload has an output name from the file exactly when the number of words is even:
  `WorkerPool.PairedIff`.

All lemmas carry `{:induction false}`: no proof rests on the verifier's automatic induction, every induction is written
out. To verify the whole project, run `dafny verify dfyconfig.toml`.

## Model

| member | source | states |
|---|---|---|
| ProtocolInvariant.InitEstablishes | project3/webproxy.c:114-128 | the state both processes start from, whatever memory and locals contain, satisfies the invariant |
| ProtocolInvariant.StepPreserves | project3/handle_with_cache.c:30-135 | every step of every proxy thread and of the worker keeps the invariant: ownership of segments, contents of both data queues and of the memory of each segment as a function of the two program counters, and covered wake-ups |
| ProtocolInvariant.ReachableInv | project3/simplecached.c:144-216 | the invariant holds after every run from every initial state |
| ProtocolInvariant.ReleaseCovers | project3/handle_with_cache.c:106-126 | no wake-up is lost: releasing a segment keeps at least one woken thread for every free segment while a thread waits |
| ProtocolInvariant.FillSegmentPreserves | project3/simplecached.c:198-206 | the worker fills a segment with the file's next bytes only while its proxy awaits data and both queues are empty |
| ProtocolInvariant.ForwardDataPreserves | project3/handle_with_cache.c:63-73 | what the proxy copies from the segment extends what it has sent by exactly the next slice of the file |
| ProtocolInvariant.AcknowledgePreserves | project3/handle_with_cache.c:75-78 | the acknowledgement either starts the next chunk or ends the transfer, after which only it is left in the queue |
| ProtocolInvariant.DrainPreserves | project3/simplecached.c:213-215 | taking the last acknowledgement, which may be after the segment was released and acquired again, disturbs nobody |
| ProtocolSafety.OutputIsPrefixOfAnswer | project3/handle_with_cache.c:47-100 | at every moment of every run a client has been sent nothing or a part of the right header and then a beginning of the file; a beginning of the atomic answer if the header was written whole; when its request is done the bytes are the atomic answer exactly in that case |
| ProtocolSafety.StepRefinesAtomicServer | project3/handle_with_cache.c:30-44 | every step is a step of a server that answers one request atomically, up to the part of the header that was written, or invisible to it |
| ProtocolSafety.ReachableHistory | project3/handle_with_cache.c:30-44 | each thread has answered its requests in order, none lost or repeated, each with the right file behind some part of the right header, with the file's size as result on a hit and the result of the header write on a miss |
| ProtocolSafety.AtomicIffWholeHeaders | project3/handle_with_cache.c:84-100 | after a run every client has exactly the bytes of the atomic answers if and only if every header write of the run was complete |
| ProtocolSafety.SegmentsConserved | project3/handle_with_cache.c:106-126 | free and held segments together are a permutation of all indices, and no two threads hold the same one |
| ProtocolSafety.ControlQueueExclusive | project3/handle_with_cache.c:53-54 | the indices in the control queue are pairwise distinct and each is held by the thread that asked, for the path it asked for |
| ProtocolSafety.DataQueuesBounded | project3/shm_channel.c:26-37 | a cache-to-proxy queue never holds more than two packets, a proxy-to-cache queue never more than one |
| ProtocolSafety.TransferPacketsAgree | project3/simplecached.c:194-216 | all packets of a transfer agree on path, size, segment size and index, so overwriting the local packet with an echoed one is harmless |
| ProtocolSafety.NoStaleAckAtRequest | project3/simplecached.c:150-152 | whenever the worker waits for a request, no acknowledgement is left in any queue |
| ProtocolSafety.SharedMemoryHandoff | project3/simplecached.c:203-213 | from posting a data packet until its acknowledgement is sent, the segment begins with the announced slice of the file at the proxy's running total, and no step of anyone writes the segment |
| ProtocolSafety.SearchAlwaysSucceeds | project3/simplecached.c:161-162 | a looked-up index occurs exactly once in the cache's ring, so the assertion behind the search holds |
| ProtocolSafety.WorkerAssertionsHold | project3/simplecached.c:198-208 | the worker's assertions hold in every reachable state, pread is asked for a positive amount that fits the segment, and no data send has to wait |
| ProtocolSafety.ProxyAssertionsHold | project3/handle_with_cache.c:63-75 | an announced chunk always lies inside the segment, and the acknowledgement always finds room |
| ProtocolLiveness.DeadlockFree | project3/shm_channel.c:9-37 | with at least one segment, every reachable state with an unfinished request has an enabled step, also with more segments than a queue has places |
| ProtocolLiveness.StepDecreasesMeasure | project3/simplecached.c:194-216 | every step but a spurious wake-up decreases one natural-number measure of the whole state |
| ProtocolLiveness.RunsAreBounded | project3/handle_with_cache.c:57-78 | every run has at most twelve steps a request and six a byte, plus two for each spurious wake-up, however short the reads |
| ProtocolLiveness.MaximalRunAnswersAll | project3/handle_with_cache.c:30-44 | a run that cannot go on has answered every request of every thread in order, and every one with the bytes of the atomic answer if and only if all its header writes were complete |
| ProtocolLiveness.StuckIffNoSegments | project3/handle_with_cache.c:106-117 | a workload with a request can get stuck if and only if there is no segment |
| ProtocolReach.AskingStepsIff | project3/handle_with_cache.c:47-100 | in every reachable state a thread that asks for a file takes its next step exactly with room among ten requests or a header to receive, and the write of the header may return anything up to its length |
| ProtocolReach.DataStepsIff | project3/handle_with_cache.c:62-79 | a thread that has the header waits for data only; forwarding and acknowledging never wait |
| ProtocolReach.QueueStepsIff | project3/handle_with_cache.c:106-117 | a thread gets a segment exactly if it wants one and there is one, waits exactly if there is none, and can wake up at any time |
| ProtocolReach.ReleaseStepIff | project3/handle_with_cache.c:120-126 | a release never waits, and wakes one of the waiting threads, any of them, exactly if there is one |
| ProtocolReach.ReadStepIff | project3/simplecached.c:198-206 | a pread may deliver exactly any positive number of bytes up to what is left of the file and what fits the segment |
| ProtocolReach.WorkerStepsIff | project3/simplecached.c:150-208 | the worker waits for a request only, and never to answer |
| ProtocolReach.AckStepIff | project3/simplecached.c:213-215 | and for an acknowledgement exactly until it is there |
| ProtocolReach.RequestsInOrder | project3/shm_channel.c:26-37 | in every run the requests are taken up in the order in which they were posted, and those not taken up are in the control queue |
| ProtocolReach.ResultsOfHeaderWrites | project3/handle_with_cache.c:84-100 | in every run: the k-th reply of a thread has what its k-th header write took of the header, and on a miss the handler's result is what that write returned, also when it failed |
| ProtocolReach.LastReleasedFirst | project3/handle_with_cache.c:106-126 | the segment released last is acquired next |
| ProtocolReach.LastMadeFirst | project3/shm_channel.c:57-85 | the first segment acquired is the last that was made |
| ProtocolReach.InitExists | project3/webproxy.c:114-128 | there is an initial state for every workload of paths of at most 127 characters |
| ProtocolReach.ControlQueueFills | project3/shm_channel.c:9-14 | a state with ten requests queued is reachable, and none with more |
| ProtocolClient.AnswerLiterals | project3/handle_with_cache.c:84-100 | the bytes of the atomic answer, letter by letter |
| ProtocolClient.ClientOfAnswer | project3/handle_with_cache.c:84-100 | a GETFILE client that reads the atomic answer delivers the cached file with its length exactly if the first read brings the header and no read fails, or reports that there is none |
| ProtocolClient.ClientsAreServed | project3/handle_with_cache.c:30-44 | the same of every reply of a run that cannot go on and whose header writes were whole |
| ProtocolQueues.SetupMatchesProtocol | project3/shm_channel.c:57-85 | the queues made at start-up have the order of indices the protocol starts from, on both sides |
| ProtocolQueues.LookUpStepIsSearch | project3/simplecached.c:161-162 | every look-up of the worker meets the search's precondition, and the queue as the search leaves it has the order of the ring after the step |
| Rotation.FullTurnIsIdentity | project3/steque.c:71-79 | as many cycles as there are elements change nothing |
| Rotation.RotateTimesIsCut | project3/steque.c:71-79 | k cycles cut the sequence at position k |
| Rotation.AfterSearchIsRotation | project3/simplecached.c:126-139 | the search is a rotation by position plus one and loses nothing |
| Rotation.SearchStopsIffPresent | project3/simplecached.c:130-137 | some number of cycles brings the index to the front exactly when the queue contains it |
| Steque.Steque.Enqueue | project3/steque.c:11-25 | appends, keeping the linked representation |
| Steque.Steque.Push | project3/steque.c:27-39 | prepends, keeping the linked representation |
| Steque.Steque.Pop | project3/steque.c:49-69 | removes and returns the head, or underflows exactly on an empty queue |
| Steque.Steque.Cycle | project3/steque.c:71-79 | rotates left, also when a single node points to itself on the way |
| Steque.Steque.Front | project3/steque.c:81-89 | the head, or underflow exactly on an empty queue |
| Steque.Steque.Destroy | project3/steque.c:91-94 | leaves the queue empty and terminates |
| ShmChannel.CreateSegments | project3/shm_channel.c:52-86 | the queue holds one item for every index, the last index in front, with the names of its side |
| ShmChannel.FindSegment | project3/simplecached.c:126-139 | finds the item with the index after position plus one cycles and leaves the queue rotated past it |
| ShmChannel.EveryIndexPresent | project3/shm_channel.c:57-85 | exactly the indices below the count are in the queue made at start-up, each once |
| ShmChannel.NamesOfSegment | project3/shm_channel.c:60-80 | the names each side gives to the memory and the two queues of a segment, letter by letter |
| ShmChannel.NamesFitAllocation | project3/shm_channel.c:89-97 | every name fits the allocation made from the length of another prefix, and a printed index its array of ten exactly below a thousand million |
| ShmChannel.NamesInjective | project3/shm_channel.c:89-97 | names are equal only for the same prefix and the same index |
| ShmChannel.QueuesAreCrossed | project3/shm_channel.c:64-80 | what the proxy sends on for a segment is what the cache receives on for that segment and for no other, and the reverse; no queue carries both directions; both sides map the same memory |
| ShmChannel.UnlinkQueues | project3/shm_channel.c:137-147 | unlinks the two queues of every item once, in order, and leaves the queue as it was |
| ShmChannel.CleanSegments | project3/shm_channel.c:124-150 | passes the queue names of every index to shm_unlink, then the two names of every item to mq_unlink, and leaves the queue as it was |
| ShmChannel.SegmentsRemain | project3/shm_channel.c:130-135 | the first loop never names a segment: the clean-up leaves the shared memory of every segment in place |
| ShmChannel.QueuesOfStartUp | project3/shm_channel.c:137-147 | on either side the second loop removes the queues made at start-up, those the first loop named, in the opposite order |
| CString.StrCmpZero | project3/simplecache.c:19-21 | strcmp is zero exactly for equal strings |
| CString.StrCmpNegativeIff | project3/simplecache.c:19-21 | strcmp is negative exactly for a proper beginning or a smaller character at the first difference |
| CString.StrCmpOpposite | project3/simplecache.c:19-21 | swapping the arguments of strcmp negates it |
| CString.StrCmpTransitive | project3/simplecache.c:19-21 | the order of strcmp is transitive, and strictly so if one of the comparisons is strict |
| SimpleCache.SimpleCache.Init | project3/simplecache.c:23-65 | fails exactly when there is no list or a line cannot be opened; otherwise the index is sorted, is a permutation of the lines' items, and its array is the smallest of 16 and its doubles with room for one more |
| SimpleCache.SimpleCache.Get | project3/simplecache.c:67-80 | -1 exactly when no item has the key, otherwise the descriptor of an item that has it |
| SimpleCache.LoadThenGet | project3/simplecache.c:23-80 | for every list file: -1 exactly when no line has the key, otherwise a descriptor of a line that has it; with distinct keys the answer of the unsorted lookup |
| SimpleCache.LinearLookupMeaning | project3/simplecache.h:6-12 | the unsorted lookup answers -1 exactly when the key is missing, otherwise with an item that has it |
| SimpleCache.RowParses | project3/simplecache.c:37-42 | a row of key, space or tab, path and anything behind another blank yields exactly that key and that path |
| SimpleCache.RowsAreLines | project3/simplecache.c:35-37 | a file of rows of at most 255 characters is read row by row |
| SimpleCache.LongLineIsCut | project3/simplecache.c:35 | a longer line is read in pieces of 255 characters |
| SimpleCache.LoadRowsThenGet | project3/simplecache.c:23-80 | a list file made of rows, loaded and asked for a key: -1 exactly when no row has it, otherwise what opening the path of such a row gave |
| SimpleCache.LastRowKeepsPathIff | project3/simplecache.c:36-42 | a last row keeps its whole path exactly when it ends with a newline or with something behind the path |
| Decimal.PrintThenRead | project1/ud923-project1-gflib/gfclient.c:217-218 | reading back a printed number gives the number |
| Decimal.Digits | project1/ud923-project1-gflib/gfserver.c:151 | a number below ten is printed as its digit, and the digit is read as it |
| Decimal.LastDigit | project1/ud923-project1-gflib/gfserver.c:151 | a longer number is printed as its tenth followed by the digit of its remainder |
| Decimal.NextDigit | project1/ud923-project1-gflib/gfclient.c:217-218 | one more digit read makes ten times the number and the digit |
| Decimal.DigitIff | project1/ud923-project1-gflib/gfclient.c:200 | the digits are the ten characters 0 to 9 |
| Decimal.PrintInjective | project3/shm_channel.c:89-91 | different numbers print differently |
| Decimal.PrintLength | project3/shm_channel.c:90-91 | a number below ten to the k prints in at most k digits |
| Decimal.PrintLengthIff | project3/shm_channel.c:90-91 | k digits suffice exactly below ten to the k |
| GetFile.HeaderFits | project1/ud923-project1-gflib/gfserver.c:148-154 | every header fits the buffer it is printed into |
| GetFile.HeaderLiterals | project1/ud923-project1-gflib/gfserver.c:148-154 | the headers of the three statuses, letter by letter |
| GetFile.RequestLiteral | project1/ud923-project1-gflib/gfclient.c:111-115 | the request of a client, letter by letter |
| GetFile.StrncmpIff | project1/ud923-project1-gflib/gfclient.c:183-189 | strncmp is decided by the first difference, and leaves the buffer only if there is none before its end |
| GetFile.RequestFitsIff | project1/ud923-project1-gflib/gfclient.c:111-115 | a request with its terminator fits exactly up to a path of 265 characters |
| GfClient.Request.SendRequest | project1/ud923-project1-gflib/gfclient.c:111-119 | what a client sends for a path, letter by letter, within its buffer of 283 bytes |
| GetFile.Strtok | project1/ud923-project1-gflib/gfclient.c:155-177 | finds the first token behind leading delimiters, terminates it in place, and remembers where to go on |
| GfServer.Context.ParseScheme | project1/ud923-project1-gflib/gfserver.c:165-178 | in place on buffer and fields, on every input: waits, refuses or goes on as the function of the state says |
| GfServer.Context.ParseMethod | project1/ud923-project1-gflib/gfserver.c:181-195 | in place, on every input: the next word decides, wherever strtok stopped |
| GfServer.Context.ParsePath | project1/ud923-project1-gflib/gfserver.c:198-222 | in place, on every input: word, second attempt at a carriage return, path length and failure |
| GfServer.Context.ProcessRequest | project1/ud923-project1-gflib/gfserver.c:121-143 | the loop over reads, for every stream and every fragmentation on which the source stays in its buffer |
| ServerReads.WholeRequest | project1/ud923-project1-gflib/gfserver.c:121-143 | a request read whole: -1 with the first word of the path exactly for accepted first words, -2 otherwise, -1 without a path if nothing arrives |
| ServerReads.SchemeStage | project1/ud923-project1-gflib/gfserver.c:165-178 | accepts exactly a first word that begins with the scheme, and goes on behind it |
| ServerReads.SchemeIff | project1/ud923-project1-gflib/gfserver.c:165-178 | for every first word: accepted exactly if it begins with GETFILE |
| ServerReads.MethodStage | project1/ud923-project1-gflib/gfserver.c:181-195 | accepts exactly the method GET behind any number of spaces, counts four characters for it, and goes on behind it |
| ServerReads.GapRequest | project1/ud923-project1-gflib/gfserver.c:121-143 | a request with any number of spaces in front of the method is taken, with the path that follows, but not its first bytes counted |
| ServerReads.PathSurvivesIff | project1/ud923-project1-gflib/gfserver.c:198-205 | the path the server takes equals the path sent exactly when that is not empty and has no space |
| ServerReads.NoPathAtReturn | project1/ud923-project1-gflib/gfserver.c:206-222 | the second attempt never finds a path, since strtok stays at the terminator it stopped at; the stage then fails exactly above 266 bytes received |
| ServerReads.FirstReadInScheme | project1/ud923-project1-gflib/gfserver.c:121-178 | a first read of one to seven bytes never leads to a path, however the rest arrives |
| ServerSplit.SpoiledRun | project1/ud923-project1-gflib/gfserver.c:121-222 | once the path was missed no later token can be it, however the rest arrives: the buffer never again has enough letters in a row behind the point where strtok goes on |
| ServerSplit.HeldRun | project1/ud923-project1-gflib/gfserver.c:198-222 | once the path was found it is kept exactly if nothing of the end sequence came with it, no later read reaches behind it, and no more than 266 bytes are received |
| ServerSplit.PendingRun | project1/ud923-project1-gflib/gfserver.c:181-195 | a method that lands at the wrong place is refused, or taken from a path that begins like it, and then the path is lost |
| ServerSplit.RequestIff | project1/ud923-project1-gflib/gfserver.c:121-222 | for every path of letters and every fragmentation: the source stays in its buffer, and the handler is called with the path if and only if the cuts are good |
| Handler.SendHeader | project1/ud923-project1-gflib/gfserver.c:148-154 | puts a beginning of the header on the wire, all of it when the write is complete |
| Handler.HandleGet | project1/ud923-project1-gflib/handler.c:13-46 | puts a beginning of the header and a beginning of the file on the wire, succeeds with the file's size exactly when the whole file was sent, and sends it in chunks of 4096 bytes if every read delivers them |
| Handler.SendFile | project1/ud923-project1-gflib/handler.c:27-46 | the loop puts a beginning of the file on the wire, all of it exactly on success, and aborts the connection otherwise |
| GfClient.Request.ParseScheme | project1/ud923-project1-gflib/gfclient.c:155-166 | in place on buffer and fields, on every input: waits, rejects or goes on behind the first word as the function of the state says |
| GfClient.Request.ParseMethod | project1/ud923-project1-gflib/gfclient.c:168-196 | in place, on every input: OK, ERROR, FILE_NOT_FOUND, anything else, or too little to tell |
| GfClient.Request.ParseLength | project1/ud923-project1-gflib/gfclient.c:198-210 | the loop stops at the first character that is no digit, or waits behind what was received |
| GfClient.Request.ParsePath | project1/ud923-project1-gflib/gfclient.c:213-242 | in place, on every input: length, spaces, end sequence, or too little to tell |
| GfClient.Request.ParseContent | project1/ud923-project1-gflib/gfclient.c:245-261 | hands on exactly what was received, wraps at the end of the buffer, and is done at the announced length |
| GfClient.Request.ProcessResponse | project1/ud923-project1-gflib/gfclient.c:123-152 | the loop over reads, for every stream and every fragmentation on which the source stays in its buffer |
| ClientReads.SchemeIff | project1/ud923-project1-gflib/gfclient.c:155-166 | for every buffer: rejected exactly when it does not begin with the scheme |
| ClientReads.FailureWord | project1/ud923-project1-gflib/gfclient.c:168-196 | another word than OK is decided exactly with enough bytes behind the scheme, and then is FILE_NOT_FOUND exactly if it begins so |
| ClientReads.LengthParsed | project1/ud923-project1-gflib/gfclient.c:198-242 | the length is the value of the digits, and the content starts right behind exactly the end sequence; any other end is an error |
| ClientReads.AtoiMeaning | project1/ud923-project1-gflib/gfclient.c:217-218 | atoi of white space, a sign, digits and anything behind is the number with its sign, if an int can hold it |
| ClientReads.HeaderSeenLiteral | project1/ud923-project1-gflib/gfclient.c:225-232 | what the header callback is given, letter by letter: the header with terminators in the place of the spaces around OK |
| ClientBody.ContentTurn | project1/ud923-project1-gflib/gfclient.c:245-261 | a read of the body is handed on whole, the next one lands behind it modulo 8192, and the transfer ends exactly at the announced length |
| ClientBody.BodyRequest | project1/ud923-project1-gflib/gfclient.c:128-134 | a read of the body asks for the smaller of the room in the buffer and what is left of the file, which is positive for a file that has anything |
| ClientBody.NothingLost | project1/ud923-project1-gflib/gfclient.c:128-151 | from the header on, whatever the announced length and the reads: what was handed on and what is left make up the stream |
| ClientBody.BodyRun | project1/ud923-project1-gflib/gfclient.c:128-151 | the body stays inside the buffer, is never taken beyond the announced length, and succeeds exactly when that has arrived |
| ClientBody.FailureIffDecided | project1/ud923-project1-gflib/gfclient.c:168-196 | one read with another word than OK and nothing behind it: result 0 exactly with more than fourteen bytes behind the scheme, or more than five that begin with ERROR, otherwise -1; with enough bytes the status is right whatever follows |
| ClientBody.ShortFailureFails | project1/ud923-project1-gflib/gfclient.c:179-195 | a header with another status and thirteen bytes behind the scheme gives -1 |
| ClientBody.LongSchemeSucceeds | project1/ud923-project1-gflib/gfclient.c:157-162 | a header with a longer scheme is accepted and its file delivered |
| ClientBody.WrongEndRejected | project1/ud923-project1-gflib/gfclient.c:225-240 | a success header without the end sequence gives -1, the status ERROR and its length, and nothing is handed on |
| ClientBody.GapFails | project1/ud923-project1-gflib/gfclient.c:168-242 | a second space in front of OK ends with -1 and the status ERROR, because the length is looked for three bytes behind the beginning of the gap |
| ClientBody.SuccessRun | project1/ud923-project1-gflib/gfclient.c:123-152 | behind a whole success header, for every fragmentation: what is handed on is a beginning of the body with at least what came with the header, counted right, and success is reported exactly when it is something and at least the announced length |
| ClientBody.SuccessIff | project1/ud923-project1-gflib/gfclient.c:245-261 | length zero succeeds exactly when the first read has a byte behind the header, any other length exactly when the body has as many bytes, if no read fails |
| ClientCounts.FailureCounts | project1/ud923-project1-gflib/gfclient.c:123-196 | for every stream and fragmentation: without the header callback nothing was written, what is counted as received is what was taken from the stream, and the length is 0 unless the end of a success header was missed; so it is whenever the status is no success |
| ClientSplit.FirstReadInScheme | project1/ud923-project1-gflib/gfclient.c:128-166 | for every stream: a first read of one to six bytes gives -1, status invalid and no callback, however the rest is cut |
| ClientSplit.PiecesNotAccepted | project1/ud923-project1-gflib/gfclient.c:128-166 | a correct response in two pieces gives -1 and nothing is written |
| ClientSplit.PendingIsWrong | project1/ud923-project1-gflib/gfclient.c:123-242 | once a header is pending behind its scheme, no run is correct, whatever the file and the reads: an end of the header is found in the last read only, behind the real one, and then the file would have to begin with terminators and with the end sequence |
| ClientSplit.SplitIsWrong | project1/ud923-project1-gflib/gfclient.c:123-242 | when the first read brings less than the header the exchange is never correct |
| ClientSplit.MissIff | project1/ud923-project1-gflib/gfclient.c:168-196 | a missing file is recognised exactly when the first read brings more than the failure word, or just it and another read brings anything; under all fragmentations the client stays in its buffer, calls nothing back and counts what it took, and ends without failure with length 0 |
| EndToEnd.HeaderIsFirstRead | project1/ud923-project1-gflib/gfserver.c:148-154 | what the server prints has the form the client parses, with the same status and number |
| EndToEnd.HeaderSurvives | project1/ud923-project1-gflib/gfclient.c:123-242 | for every status, length and fragmentation of the rest, a header that is whole in the first read gives its status and length, the right counts, and completion exactly when the announced bytes were delivered |
| EndToEnd.DeliveredIff | project1/ud923-project1-gflib/gfclient.c:123-152 | a file is delivered whole with result 0 and status OK if and only if it is not empty, the first read brings at least the whole header, and no read fails |
| EndToEnd.StaysInside | project1/ud923-project1-gflib/gfclient.c:128-151 | the source stays in its buffer whenever the first read brings nothing, ends inside the scheme, or brings the whole header |
| EndToEnd.MissEnds | project1/ud923-project1-gflib/gfclient.c:123-196 | what a caller learns from the response to a missing file: result, status, length, received and written bytes, under all fragmentations |
| EndToEnd.ReceiveResponse | project1/ud923-project1-gflib/gfclient.c:266-289 | a new client does to every response what the function of the state says |
| EndToEnd.ServeOne | project1/ud923-project1-gflib/gfserver.c:66-81 | however the request arrives, a connection is answered letter by letter with header and file of the path taken, or with FILE_NOT_FOUND when that is missing or the request is refused |
| EndToEnd.RequestTaken | project1/ud923-project1-gflib/gfserver.c:121-143 | the text GETFILE GET, a path and the end sequence in one read: its first word is taken, which is the path exactly when that is not empty and has no space |
| EndToEnd.RequestTakenIff | project1/ud923-project1-gflib/gfserver.c:121-222 | however a request is cut, the path is taken exactly under the cuts the server survives |
| EndToEnd.RefusedExchange | project1/ud923-project1-gflib/gfserver.c:66-81 | a request whose first two words are not GETFILE and GET, read whole: its client ends as with a missing file |
| EndToEnd.Exchange | project1/ud923-project1-gflib/gfserver.c:66-81 | an exchange for any request ends as the client ends on the response to what the server has taken |
| EndToEnd.Transfer | project1/ud923-project1-gflib/gfclient.c:321-325 | a whole exchange, for any fragmentation of request and response, ends as the client ends on the response to the path taken |
| EndToEnd.TransferIff | project1/ud923-project1-gflib/gfclient.c:321-325 | for every content and path, the request in one read and no failed read of the response: a file is delivered and reported exactly when it is not empty and the first read of the response brings its header, a missing one is reported exactly when that read brings the failure word, with the counts a caller learns |
| EndToEnd.TransferInPieces | project1/ud923-project1-gflib/gfclient.c:321-325 | the same for the file of a path of letters whose request is cut in any way the server survives |
| WorkerPool.LoadRequests | project4/minifyjpeg_main.c:20-39 | the queue holds the words of the file in pairs, in order; a last word without a partner makes a request too |
| WorkerPool.PairedIff | project4/minifyjpeg_main.c:31-34 | every request has an output name from the file exactly when the number of words is even |
| WorkerPool.QueueAccessIsExclusive | project4/minifyjpeg_main.c:103-120 | whoever tests or pops the queue holds the mutex, and nobody else is between lock and unlock |
| WorkerPool.NeverTwice | project4/minifyjpeg_main.c:97-123 | at no time has a request been processed twice, or processed while still queued or in hand |
| WorkerPool.TakenInOrder | project4/minifyjpeg_main.c:103-120 | requests are taken in the order in which they were loaded |
| WorkerPool.ExactlyOnce | project4/minifyjpeg_main.c:181-191 | when all workers have returned, every loaded request and no other has been processed exactly once |
| WorkerPool.RunLength | project4/minifyjpeg_main.c:97-123 | every run is bounded by four steps a request and three a worker, and has that length exactly when all is done |
| WorkerPool.NeverStuck | project4/minifyjpeg_main.c:97-123 | some worker can go on exactly until all have returned |

## Left out

- More than one cache worker: the proxy releases a segment before its last acknowledgement is consumed, so a second worker could take it for one of the next transfer; the default of one worker is modelled.
- Update in place of `handle_request`, `send_file` and `perform_task`: these are steps over values in `Protocol`, because their interleaving is the point; aliasing of their locals is not captured.
- Empty cached files and empty segments: `ValidConfig` excludes them, as an assertion of the cache ends the process on them; so are files of 2^31 bytes or more.
- A failed or short write of a chunk to a client of the proxy, which an assertion turns into the end of the process: no step of `Protocol` goes on from there.
- Request paths of 128 characters or more in the proxy, for which the fixed-size copy into the packet leaves no terminator: `Protocol.Init` excludes them.
- The start-up handshake, the creation of mappings and queues, signals, command lines, and of the cleanup the closing and freeing.
- ProtocolLiveness.RunsAreBounded: bounds steps, not time; spurious wake-ups are counted, not bounded.
- SimpleCache.SimpleCache.Init: lines are taken to be free of terminators; `qsort` is known to its caller only as a sorted permutation.
- GfClient.Request.ProcessResponse: asks that the source stays in its buffer and within the range of atoi, where C defines nothing; a request without a write callback, which returns at once, is not modelled.
- GfServer.Context.ProcessRequest: asks that the source stays in its buffer.
- ServerSplit.RequestIff: is about the client's requests for paths without spaces and line ends; for other requests in pieces the outcome is defined and not characterised.
- EndToEnd.ServeOne: asks that the handler is not called without a path, which it would follow, and takes the server's writes to be complete.
- Sockets beyond the order of bytes, and the endless listening loop of the server around `EndToEnd.ServeOne`.
- The multithreaded variants in project1/ud923-project1-mtgf, whose workers do not hold their lock where they should.
- The libcurl handlers, the JPEG conversion and the generated RPC code, which wrap libraries that are not part of the repository.
- Splitting the workload file into words, and reading the files themselves, in project4.
