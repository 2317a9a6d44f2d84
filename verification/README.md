# Verified models of an RPC framework, its codecs, a linter and a cellular automaton

This project models the parts of the repository that carry the most state and branching, and proves
what they promise, for every input, every run and every interleaving.

| modules | what they model |
|---|---|
| `RpcLedger`, `Rpc` | one client RPC: attempts, retries, a backup request, timers, cancellation, sockets and balancer feedback |
| `AmfCodec`, `AmfCost`, `AmfLaws`, `AmfWire`, `AmfStream`, `AmfIo`, `AmfArray` | the AMF 0 codec, its block-buffered streams and its array container |
| `Acceptor`, `AcceptorLimits` | starting, stopping and joining an acceptor while connections come and go |
| `LifeRule`, `LifeThreads`, `LifeGame` | the parallel Game of Life that keeps two generations in one matrix |
| `Brackets`, `BracketLaws`, `BracketTemplates`, `Nesting` | the linter's bracket matchers and its preprocessor-aware brace stack |
| `ErrorWindow`, `CircuitBreaker` | the circuit breaker's atomics, latch and isolation back-off |
| `MemcacheRequest`, `MemcacheResponse` | pipelined memcached requests and responses |
| `InputMessenger` | cutting, verifying and dispatching the messages of a connection |

`Basics` and `Bytes` hold what they share. Code that updates state in place is modelled by classes and
methods whose contracts equate the new state with a function of the old one; the laws are proved about
those functions. Concurrent code is modelled as interleaved atomic steps over arbitrary schedules.

Where the outside world has a choice (servers, sockets, timers, policies, parsers, clocks, random
cells), it comes in as a parameter that the theorems quantify over.

## Results at a glance

* **RPC.** Whatever events arrive in whatever order, every attempt is begun once, and completed once
  before the callback unless a backup request overwrote it; the callback and the destruction of the id
  are the last events and happen once; every selection is matched by one feedback for the same server
  and every private socket is disposed of once, but for what the overwritten attempts still owed. The
  RPC ends with code 0 exactly when the current or the backed-up attempt succeeds and is not sent back;
  a timeout or a cancellation ends it with its own code unless a custom policy retries; an attempt that
  ends is completed, fed back and disposed of with the code it ended with.
  Two CHECKs can fail. The one before a retry fails exactly when a custom policy retries a timeout, a
  cancellation, or a success of the backed-up attempt; `Rpc.RetriedCancellation` is such an RPC. The one
  before a backup request fails, and an attempt is lost, exactly when the code of a backup request comes
  in, from the timer, a peer, a socket or a failing send, while an attempt is backed up and retries are
  left (`Rpc.Controller.Deliver`); `Rpc.OverwrittenBackup` is such an RPC, with the default policy and a
  peer that answers 1007. If nobody but the timer uses that code, no attempt is ever lost.
* **AMF.** Write-then-read is the identity, over all block sizes on both sides, exactly when no field
  name is empty. ECMA arrays, which only others write, are read back on the same terms, whatever their
  own names. Skipping agrees with reading. Fields stored, overwritten ones included, and the nesting
  of the calls are bounded by the bytes consumed.
  Assigning over an array that is longer by two or more leaves a wrong array, and self-assignment wipes.
* **Acceptor.** When `Join`'s wait is over no connection of the round exists or ever will: in every
  interleaving exactly when no Start is given descriptor 0. After `StopAccept` each connection has been
  failed, or its accept handler is about to fail it: exactly when no Start with descriptor 0 is followed
  by another. `StopAccept` may fail connections of a later round, exactly when that round starts before
  it has listed its own.
* **Life.** For any number of workers and any interleaving of their memory accesses, the first phase is
  through exactly when every worker has had ten turns for each of its cells, the second when it has had
  one; after both the board is the synchronous next generation. Sowing divides by zero exactly when
  there are fewer rows than sowing workers and at least as many cells to sow as workers.
* **Brackets.** From a round, square or curly bracket, the forward and the backward scanner find a match
  exactly when the grammar of nested text has one, the same one, over any lines and whatever angle
  brackets and operators they hold. Around template text on a line angle brackets find each other. The
  brace stack after a well-nested file is what its first branches leave.
* **Circuit breaker.** Exactly min(window, calls) calls are classed as initialising; once broken,
  later calls are turned away; the duration stays in bounds; k close breaks give min(d0 * 2^k, max), and
  a break that comes late starts over at min.
  The object, used by one thread at a time, is that machine with calls that run through undisturbed.
* **Memcached.** The buffer is always as many frames as counted, exactly while bodies fit 32 bits; a
  server reads a command back exactly when its key fits 16. A pop takes exactly the frame in front if
  and only if the command is its own, on success a get has four bytes of extras and no key and a counter
  a value of eight bytes or none, and the body is below 2^31 bytes; from there on signed sizes turn
  negative, and only a store is taken, a failed one only if nothing follows it. What every pop does is
  stated for every byte string: frames of any shape, frames cut short and malformed headers.
* **Messages.** Every message cut is launched once, in order and authenticated if need be, or destroyed
  once; every byte is accounted for; cutting goes on exactly until a handler wants more or refuses, or a
  message is not genuine.

## Model

| member | source | states |
|---|---|---|
| `RpcLedger.CleanCounts` | net/brpc/controller.cpp:719-811 | an attempt whose replayed account is settled was begun and completed once, and its selections, feedback, acquisitions and disposals match server by server and socket by socket |
| `RpcLedger.CompleteBalances` | net/brpc/controller.cpp:719-811 | completing an open attempt settles its account and no other, whatever the connection type and code |
| `RpcLedger.CompletePoolSafe` | net/brpc/controller.cpp:750-782 | a completion keeps the pool free of unanswered sockets if and only if a pooled socket it returns belongs to an attempt that was answered |
| `RpcLedger.CompletionTells` | net/brpc/controller.cpp:719-811 | a completion logs the end of the attempt, feeds that code back to the server selected, and returns a pooled socket if and only if it was answered or succeeded |
| `RpcLedger.SettledLaws` | net/brpc/controller.cpp:813-933 | from balanced books: every attempt up to the last counts one begin, one completion unless it is left open, none beyond, and all pairs match but for what the ones left open owe |
| `Rpc.ClampedRetry` | net/brpc/channel.cpp:375-396 | the call's own limit, else that of the options, never negative and never above what ids are reserved for |
| `Rpc.DefaultRetryCodes` | net/brpc/retry_policy.cpp:26-48 | the default policy retries exactly the thirteen connection-level codes, and so never a success, the deadline, a cancellation or the code of a backup request |
| `Rpc.Controller.OnComplete` | net/brpc/controller.cpp:719-811 | the events of one completion, and the books without that attempt; the world has heard of it with the code given |
| `Rpc.Controller.CompleteOpen` | net/brpc/controller.cpp:820-873 | the attempts still open are completed each once, the one that ended the RPC last and with its code, leaving nothing open; a current attempt beaten by the backed-up one is told that it was cancelled, and a backed-up one beaten by the current one gets the code of a backup request; both CHECKs hold |
| `Rpc.Controller.EndRPC` | net/brpc/controller.cpp:813-933 | after the completions come the callback, then the destruction of the id, and nothing else; error code and retry count survive |
| `Rpc.Controller.OnVersionedRPCReturned` | net/brpc/controller.cpp:561-697 | which events, of any code, are ignored, drop the backed-up attempt, end the RPC, retry or send a backup request, which is under way if it can be sent; the retry CHECK fails exactly when a retried event is not the current attempt's; attempts are overwritten exactly when predicted; terminates by the retries left |
| `Rpc.Controller.DropUnfinished` | net/brpc/controller.cpp:565-581 | a failed backed-up attempt is completed and forgotten, and the RPC goes on |
| `Rpc.Controller.StartBackup` | net/brpc/controller.cpp:587-620 | the running attempt is set aside and the next begins, and is under way if it can be sent; one set aside before is lost, also when the copy cannot be allocated; a failing timer or list of servers ends the RPC before that |
| `Rpc.Controller.Overwrite` | net/brpc/controller.cpp:612-617 | the CHECK fails if and only if an attempt is backed up, which then leaves the pointer but not the books |
| `Rpc.Controller.Retry` | net/brpc/controller.cpp:621-648 | the current attempt is completed with its error, told to balancer and pool, before the next one begins, which is under way if it can be sent |
| `Rpc.Controller.HandleSendFailed` | net/brpc/controller.cpp:961-976 | a failed send ends the RPC or leads to another attempt, and never ends it with code 0 |
| `Rpc.Controller.IssueRPC` | net/brpc/controller.cpp:978-1186 | an attempt that can be sent leaves the RPC live on that attempt with the server and socket it was given, timers and the backed-up one untouched; otherwise it goes on with a later one or is over with an error; the cycle through failing sends ends |
| `Rpc.Controller.Prepare` | net/brpc/controller.cpp:1003-1137 | the first failing step of sending decides the code; on success the call records its server, socket and feedback debt |
| `Rpc.Controller.constructor` | net/brpc/channel.cpp:356-396 | a fresh controller with the clamped retry limit |
| `Rpc.Controller.Start` | net/brpc/channel.cpp:397-540 | without an error in set-up, timer and first send the RPC is live on its first attempt with the right timer; otherwise it is live on a later one or over with an error, books balanced |
| `Rpc.Controller.Deliver` | net/brpc/controller.cpp:561-697 | ends with code 0 if and only if a live attempt succeeds and is not retried; a timeout or a cancellation ends it with that code unless a custom policy retries and retries are left; any error of the current attempt ends the RPC, sends a backup request or retries, as code, policy and retries left decide, and whoever is completed is told; superseded events and timers not armed change nothing; the retry CHECK fails if and only if a custom policy misfires; an attempt is overwritten if and only if the event clashes |
| `Rpc.Controller.Signal` | net/brpc/channel.cpp:356-364 | the deadline, the backup timer and a cancellation each reach the RPC with their own code and have its consequences |
| `Rpc.Controller.OnResponse` | net/brpc/details/controller_private_accessor.h:44-47 | the same for a response tagged with an attempt; one to the backed-up attempt ends the RPC if it succeeded, telling the current one that it was cancelled, and otherwise drops that attempt |
| `Rpc.Controller.HandleSocketFailed` | net/brpc/controller.cpp:1198-1229 | errors of superseded attempts change nothing; no error ends the RPC with code 0; an error of the current attempt or of the RPC as a whole has exactly the sequel its code, the policy and the retries left call for, and attempts completed are told of it |
| `Rpc.Controller.Run` | net/brpc/controller.cpp:561-933 | over every sequence of events with any codes, all of which are delivered until the RPC is over: one begin per attempt, one completion per attempt not overwritten, feedback and disposals matched but for those, callback and destruction last and once; with the default policy the retry CHECK holds and only answered sockets return to the pool; nothing is overwritten if only the timer uses the backup code |
| `Rpc.Controller.OverIsLawful` | net/brpc/controller.cpp:813-933 | an RPC that is over, however it got there, has a lawful log |
| `Rpc.CallMethod` | net/brpc/channel.cpp:356-540 | the whole RPC from set-up through any events, sends and timers with any codes: it has taken every event and waits for the next, or its log is lawful, also when it ends inside the call; code 0 only if some response had it |
| `Rpc.RetriedCancellation` | net/brpc/controller.cpp:621-626 | a custom policy that retries a cancellation makes the CHECK fail |
| `Rpc.Controller.TameKeeps` | net/brpc/controller.cpp:587-648 | when no send fails with the backup code, only such a code that meets a backed-up attempt overwrites one |
| `Rpc.BackedUp` | net/brpc/controller.cpp:587-620 | an RPC in which the timer has fired and two attempts are under way |
| `Rpc.OverwrittenBackup` | net/brpc/controller.cpp:612-617 | an RPC with the default policy that succeeds although its first attempt was begun, never completed, and never gave its feedback, because a peer answered with the backup code |
| `Rpc.Controller.IdsReserved` | net/brpc/controller.h:623-635 | attempt ids are distinct and inside the 2 + max_retry ids reserved |
| `AmfLaws.ObjectRoundTrip` | net/brpc/amf.cpp:738-758 | reading a written object, with any suffix, gives the object and leaves the suffix if and only if no field name is empty, at any depth; otherwise reading fails |
| `AmfLaws.ArrayRoundTrip` | net/brpc/amf.cpp:859-875 | the same for strict arrays |
| `AmfLaws.ValueReadsBack` | net/brpc/amf.cpp:609-694 | the same for one field of any type |
| `AmfLaws.BodyReadsBack` | net/brpc/amf.cpp:696-717 | an object body adds its fields, in order, to those already there, and stops at its terminator |
| `AmfLaws.EmptyNameIsLost` | net/brpc/amf.cpp:696-717 | the smallest object that cannot be read back |
| `AmfLaws.SkipAgrees` | net/brpc/amf.cpp:529-550 | a body that can be skipped can be read into any object, and both stop at the same byte |
| `AmfLaws.SkipValueAgrees` | net/brpc/amf.cpp:384-499 | the same for one skipped field |
| `AmfWire.WireFormat` | net/brpc/amf.cpp:1059-1144 | the encoding of every type of field, byte by byte: marker, lengths, payload and terminator |
| `AmfWire.EcmaReadsBack` | net/brpc/amf.cpp:719-758 | an ECMA array written by others (marker, count, then names and encoded values without terminator), with any suffix, adds all its fields to the object read so far and leaves the suffix, at the top, under a name and as an item, if and only if no object inside its values has an empty name; empty names of its own are kept |
| `AmfWire.EcmaBodyReads` | net/brpc/amf.cpp:719-736 | the same for the body with any count from the number of fields up: reading goes on behind the last field for as many as the count is short of |
| `AmfWire.EcmaOvercount` | net/brpc/amf.cpp:719-736 | a count above the fields present fails, with exactly those fields read |
| `AmfWire.ObjectsExtend` | net/brpc/amf.cpp:609-694 | an object read where one is already extends it, and a typed object is read as a plain one whatever its class name |
| `AmfWire.ArraysExtend` | net/brpc/amf.cpp:845-875 | an array read where one is already appends to it, at the top as under a name |
| `AmfWire.ForeignMarkers` | net/brpc/amf.cpp:609-694 | any byte but zero is true; the six types without support fail; end markers and unknown ones store nothing and succeed |
| `AmfWire.ShortValues` | net/brpc/amf.cpp:253-294 | a value that the stream is too short for fails and uses the stream up |
| `AmfWire.CutOff` | net/brpc/amf.cpp:696-717 | a body cut off at a name counts as read, one cut off at a value or at the end marker does not |
| `AmfWire.TopMarkers` | net/brpc/amf.cpp:738-758 | at the top every other marker is refused, but for null, which leaves all as it was |
| `AmfWire.PutThenSlot` | net/brpc/amf.cpp:609-694 | what is stored under a name is found under it, all other names keep their fields, and the map stays in order |
| `AmfWire.SkipsWrittenIff` | net/brpc/amf.cpp:529-550 | a written object can be skipped, to exactly its end, if and only if no array is inside |
| `AmfLaws.DecodedObjectBounded` | net/brpc/amf.cpp:609-758 | the fields an object is left with, and its levels, are at most those stored on the way, and names come out in map order |
| `AmfLaws.DecodedArrayBounded` | net/brpc/amf.cpp:760-875 | the same for arrays, items included |
| `AmfCost.ObjectCostBounded` | net/brpc/amf.cpp:609-758 | on every byte string and into any object: fields stored, those overwritten later included, and nested reading calls are at most the bytes consumed, whatever the counts claim |
| `AmfCost.ArrayCostBounded` | net/brpc/amf.cpp:760-875 | the same for arrays |
| `AmfCost.CostValueBounded` | net/brpc/amf.cpp:609-694 | the same for one value and everything inside it |
| `AmfStream.InputStream.CutN` | net/brpc/amf_inl.h:26-46 | however the input is cut into blocks, the next n bytes or all there are |
| `AmfStream.InputStream.CutU8` | net/brpc/amf_inl.h:52-61 | the next byte, or the old value at the end |
| `AmfStream.InputStream.CutUint` | net/brpc/amf_inl.h:63-106 | a big-endian integer even across blocks, zero-padded at the end of the stream |
| `AmfStream.InputStream.CutAll` | net/brpc/amf_inl.h:26-106 | any mixture of cuts of byte strings, bytes and integers answers as a flat byte queue does, leaves the same bytes and counts those gone |
| `AmfStream.OutputStream.PutN` | net/brpc/amf_inl.h:115-134 | as many bytes as there is room for are appended; the stream turns bad exactly when some are not |
| `AmfStream.OutputStream.PutU8` | net/brpc/amf_inl.h:136-149 | the same for one byte |
| `AmfStream.OutputStream.Done` | net/brpc/amf_inl.h:108-113 | a good stream ends up holding exactly what was put, and counts it |
| `AmfStream.OutputStream.PutAll` | net/brpc/amf_inl.h:108-164 | any run of puts followed by done: the stream is good exactly with room for all of it, and then holds exactly the concatenation and counts it |
| `AmfIo.ReadStr` | net/brpc/amf.cpp:253-294 | reads what the codec says a length-prefixed string is, from any blocks |
| `AmfIo.ReadObjectField` | net/brpc/amf.cpp:609-694 | the reader of one field refines the codec |
| `AmfIo.ReadObjectBody` | net/brpc/amf.cpp:696-717 | the loop over fields refines the codec, a body cut off at a name included |
| `AmfIo.ReadEcmaBody` | net/brpc/amf.cpp:719-736 | the counted loop refines the codec, for which `AmfWire.EcmaReadsBack` and `AmfWire.EcmaOvercount` hold |
| `AmfIo.ReadArrayItem` | net/brpc/amf.cpp:760-843 | the reader of one item refines the codec |
| `AmfIo.ReadArrayBody` | net/brpc/amf.cpp:845-857 | the counted loop refines the codec |
| `AmfIo.ReadAmfObject` | net/brpc/amf.cpp:738-758 | objects and ECMA arrays are read as the codec says, all other markers refused |
| `AmfIo.ReadAmfArray` | net/brpc/amf.cpp:859-875 | strict arrays are read as the codec says |
| `AmfIo.SkipObjectBody` | net/brpc/amf.cpp:529-550 | the skipping loop refines the codec's skip |
| `AmfIo.WriteField` | net/brpc/amf.cpp:1059-1112 | appends the encoding of the field, if there is room |
| `AmfIo.WriteAmfObject` | net/brpc/amf.cpp:1114-1132 | appends the encoding of the object; bad exactly without room or with an overlong name |
| `AmfIo.WriteAmfArray` | net/brpc/amf.cpp:1134-1144 | appends the encoding of the array |
| `AmfIo.Transfer` | net/brpc/amf.cpp:1114-1132 | write through any output blocks, read through any input blocks: the object arrives and no byte is left in the stream, if and only if no name is empty |
| `AmfArray.AmfArray.constructor` | net/brpc/amf.cpp:879-881 | an empty sequence |
| `AmfArray.AmfArray.Copy` | net/brpc/amf.cpp:882-891 | the same sequence in storage of its own |
| `AmfArray.AmfArray.At` | net/brpc/amf.h:258-261 | inline slots and deque together are indexed as one sequence |
| `AmfArray.AmfArray.AddField` | net/brpc/amf.cpp:916-928 | the sequence with an undefined field at the end |
| `AmfArray.AmfArray.RemoveLastField` | net/brpc/amf.cpp:930-940 | the sequence without its last field |
| `AmfArray.AmfArray.Clear` | net/brpc/amf.cpp:907-914 | the empty sequence, inline slots undefined again |
| `AmfArray.AmfArray.Assign` | net/brpc/amf.cpp:893-905 | growing copies; otherwise half of the surplus items stay behind; self-assignment leaves undefined fields |
| `AmfArray.AssignedRightIff` | net/brpc/amf.cpp:898-904 | a shrinking assignment is right if and only if at most one item is surplus |
| `Acceptor.RunKeepsInv` | net/brpc/acceptor.cpp:48-341 | the invariant of sockets, handler, stoppers and joiner holds in every interleaving |
| `Acceptor.StepSockets` | net/brpc/acceptor.cpp:241-313 | connections in the map are live sockets, and what the handler holds is not recycled |
| `Acceptor.StepStops` | net/brpc/acceptor.cpp:111-150 | what a stopping thread still has to do covers every connection that nobody else will fail |
| `Acceptor.StepJoins` | net/brpc/acceptor.cpp:162-186 | a joiner past its wait has nothing left that could add a connection |
| `Acceptor.JoinWaitsForAll` | net/brpc/acceptor.cpp:162-186 | when the wait is over no connection of the round exists, and none will, whatever happens later |
| `Acceptor.StopCaresForAll` | net/brpc/acceptor.cpp:111-150 | after StopAccept each connection of its round in the map is failed or released, or its accept handler is about to fail it |
| `AcceptorLimits.DescriptorZeroEscapesJoin` | net/brpc/acceptor.cpp:162-186 | after any number of rounds, with descriptor 0 Join's wait can end while the accept handler holds a socket |
| `AcceptorLimits.JoinHoldsIff` | net/brpc/acceptor.cpp:162-186 | Join keeps its promise in every run that starts with given descriptors if and only if none of them is 0 |
| `AcceptorLimits.DescriptorZeroEscapesStop` | net/brpc/acceptor.cpp:111-150 | a socket that outlived StopAccept and Join is entered in the next round, alive and with nobody to fail it |
| `AcceptorLimits.RunCares` | net/brpc/acceptor.cpp:111-150 | from every state of the invariant, descriptors that are not risky keep what StopAccept has listed or finished with cared for |
| `AcceptorLimits.StopHoldsIff` | net/brpc/acceptor.cpp:111-150 | StopAccept keeps its promise in every run that starts with given descriptors if and only if no 0 among them is followed by one that is not negative |
| `AcceptorLimits.StraysIff` | net/brpc/acceptor.cpp:111-150 | some interleaving of a new round lets an earlier StopAccept list a connection of it if and only if one had not listed its own when the round started |
| `AcceptorLimits.UnlistedIsReached` | net/brpc/acceptor.cpp:162-186 | that happens: Join does not wait for a StopAccept that has closed but not yet listed |
| `LifeRule.CheckIsRule` | ai/life_game/life_game.cc:172-181 | the test on the nine-cell count is Conway's rule with neighbours counted around the torus, boards of one row or column included |
| `LifeRule.NextGeneration` | ai/life_game/life_game.cc:172-181 | the synchronous next generation has the same shape and only zeros and ones |
| `LifeRule.RowsPartitioned` | ai/life_game/life_game.cc:237-285 | for every row there is exactly one worker, also with more workers than rows |
| `LifeThreads.CheckStepKeeps` | ai/life_game/life_game.cc:172-181 | any worker's next access keeps every low bit at the old generation, and its count a true partial count |
| `LifeThreads.ShiftStepKeeps` | ai/life_game/life_game.cc:129-135 | any worker's shift touches its own cell only |
| `LifeThreads.CheckPhase` | ai/life_game/life_game.cc:390-395 | wherever a schedule stops, cells passed carry both generations and the others the old one |
| `LifeThreads.ShiftPhase` | ai/life_game/life_game.cc:397-402 | wherever a schedule stops, cells passed are halved and the others untouched |
| `LifeThreads.ParallelGeneration` | ai/life_game/life_game.cc:390-402 | all torus sizes, worker counts and interleavings: two phases with enough turns for every worker produce the next generation |
| `LifeThreads.ChecksFinishIff` | ai/life_game/life_game.cc:121-127 | a checking schedule is through if and only if every worker has ten turns for each cell of its rows |
| `LifeThreads.ShiftsFinishIff` | ai/life_game/life_game.cc:129-135 | a shifting schedule is through if and only if every worker has a turn for each cell of its rows |
| `LifeThreads.RoundRobinIsEnough` | ai/life_game/life_game.cc:390-402 | such schedules exist for every board and worker count: taking turns round by round |
| `LifeGame.LivesSplit` | ai/life_game/life_game.cc:137-145 | the population of adjacent row ranges adds up |
| `LifeGame.LivesAreCells` | ai/life_game/life_game.cc:137-145 | the count is the cardinality of the set of live cells in the range |
| `LifeGame.LifeGame.CountNine` | ai/life_game/life_game.cc:173-177 | the two loops count the nine cells of the old generation |
| `LifeGame.LifeGame.CheckLife` | ai/life_game/life_game.cc:172-181 | the cell gets its next state in the upper bit, every other cell is left alone |
| `LifeGame.LifeGame.CheckLifesByIndex` | ai/life_game/life_game.cc:121-127 | the rows of the range carry both generations, other rows are untouched |
| `LifeGame.LifeGame.TransformLifes` | ai/life_game/life_game.cc:129-135 | the rows of the range hold the next generation |
| `LifeGame.LifeGame.CountLifes` | ai/life_game/life_game.cc:137-145 | the number of live cells in the range |
| `LifeGame.LifeGame.CountAll` | ai/life_game/life_game.cc:416-424 | the workers' counters sum up to the whole population |
| `LifeGame.LifeGame.CheckAllExpired` | ai/life_game/life_game.cc:416-435 | expired if and only if the population has stood still for ten checks |
| `LifeGame.LifeGame.InitRandom` | ai/life_game/life_game.cc:59-69 | exactly the cells that the drawn numbers stand for, inside the range, come alive on top of the living, and the counters restart |
| `LifeGame.LifeGame.InitGame` | ai/life_game/life_game.cc:437-443 | all sowing workers together bring exactly their draws to life, each in its own rows |
| `LifeGame.SowsAll` | ai/life_game/life_game.cc:208-222 | the shares of the workers add up to the number of cells set |
| `LifeGame.SowableIff` | ai/life_game/life_game.cc:208-222 | no worker with cells to sow has an empty row range, which it would divide by, if and only if there are as many rows as workers or too few cells to share |
| `LifeGame.LifeGame.Run` | ai/life_game/life_game.cc:379-408 | one turn is the next generation of the board, sown first exactly when the population expired |
| `Brackets.FindEndOfExpressionInLine` | build_tools/lint/cpplint.py:1689-1764 | the loop over a line comes to the answer of the character-by-character specification, operators and templates included |
| `Brackets.CloseExpression` | build_tools/lint/cpplint.py:1767-1808 | the answer over all following lines, or the end of the file and -1 |
| `Brackets.FindStartOfExpressionInLine` | build_tools/lint/cpplint.py:1811-1885 | the same for the backward loop, which steps over two-character operators |
| `Brackets.ReverseCloseExpression` | build_tools/lint/cpplint.py:1888-1923 | the answer over all preceding lines, or line 0 and -1 |
| `Brackets.WithoutAngles` | build_tools/lint/cpplint.py:1724-1730 | exactly the pending angle brackets on top are dropped |
| `BracketLaws.ForwardIsRun` | build_tools/lint/cpplint.py:1689-1764 | from a round, square or curly bracket, and once pending angle brackets are erased, the forward scan is a plain stack machine on any line |
| `BracketLaws.BackwardIsRun` | build_tools/lint/cpplint.py:1811-1885 | the same for the backward scan on the mirror image; the pairs of characters it steps over hold no bracket |
| `BracketLaws.RunIffBracketed` | build_tools/lint/cpplint.py:1689-1764 | the machine accepts a text if and only if the grammar derives it as a bracket, nested text and the bracket's mate |
| `BracketLaws.ScannersFindTheMatch` | build_tools/lint/cpplint.py:1767-1923 | over any lines, with any angle brackets, operators and semicolons: the forward scan from a round, square or curly bracket answers just past a position, and the backward scan from there answers the start, if and only if the two brackets are a properly nested pair |
| `BracketLaws.ScannersSucceedIff` | build_tools/lint/cpplint.py:1767-1923 | from such a bracket each scanner succeeds if and only if a match exists |
| `BracketTemplates.TemplatesMatch` | build_tools/lint/cpplint.py:1689-1923 | the two angle brackets around template text on a line, nested with brackets of all kinds, find each other from either end, unless some angle bracket in it reads as an operator |
| `BracketTemplates.ForwardOver` | build_tools/lint/cpplint.py:1689-1764 | template text leaves the stack of a forward scan as it was, whatever that is |
| `BracketTemplates.BackwardOver` | build_tools/lint/cpplint.py:1811-1885 | the same for a backward scan |
| `BracketTemplates.ArrowPassed` | build_tools/lint/cpplint.py:1742-1841 | an arrow is stepped over in both directions |
| `BracketTemplates.ShiftPassed` | build_tools/lint/cpplint.py:1707-1848 | a left shift is stepped over in both directions; a forward scan with nothing on its stack gives up there |
| `BracketTemplates.OperatorNamePassed` | build_tools/lint/cpplint.py:1715-1841 | the name of a comparison operator function is stepped over, the smaller-than sign forwards and the greater-than sign backwards |
| `BracketTemplates.ComparisonPassed` | build_tools/lint/cpplint.py:1834-1844 | a comparison between blanks is stepped over backwards |
| `BracketTemplates.StatementEnds` | build_tools/lint/cpplint.py:1754-1761 | a semicolon drops exactly the angle brackets pending on top, and ends a scan that has nothing else |
| `BracketTemplates.StatementBegins` | build_tools/lint/cpplint.py:1873-1881 | the same backwards |
| `Nesting.NestingState.UpdatePreprocessor` | build_tools/lint/cpplint.py:2633-2687 | checkpoints are taken, completed, restored and dropped as specified, stray directives ignored |
| `Nesting.ClassifyMeans` | build_tools/lint/cpplint.py:2654-2678 | a line opens, divides or closes a conditional if and only if it reads: blanks, a number sign, blanks, one of the words of that kind, and then its end or a character no word holds |
| `Nesting.HoldsIff` | build_tools/lint/cpplint.py:2654-2678 | the same for any word |
| `Nesting.StrayDirectives` | build_tools/lint/cpplint.py:2658-2687 | without any #if, lines with #else or #endif act on the brace stack as lines like any other |
| `Nesting.NestingState.Update` | build_tools/lint/cpplint.py:2690-2712 | one line: the directive first, then the line's own effect on the stack |
| `Nesting.NestingState.UpdateAll` | build_tools/lint/cpplint.py:2690-2712 | a whole file, line by line |
| `Nesting.FirstBranchesDecide` | build_tools/lint/cpplint.py:2633-2687 | on every well-nested file and for every effect that lines have by their text, their number and the rest of the file: the brace stack is what the #if lines, first branches and #endif lines leave, and the checkpoints are as before |
| `Nesting.OtherBranchesVanish` | build_tools/lint/cpplint.py:2658-2672 | later branches, however many and whatever they hold, change the top checkpoint only by saving the first branch's stack once |
| `ErrorWindow.AccessKeepsInv` | net/brpc/circuit_breaker.cpp:89-97 | every atomic access keeps the counts of initialising, numbered and unhealthy calls in step with the two counters |
| `ErrorWindow.InitialisingCalls` | net/brpc/circuit_breaker.cpp:76-103 | in every interleaving exactly min(window, calls) calls are initialising, their failures are numbered without gap or repeat, and exactly those that bring the failures above percent/100 of the window are unhealthy |
| `CircuitBreaker.IsolationLaws` | net/brpc/circuit_breaker.cpp:199-227 | in every interleaving, resets included, the duration stays within [min, max] and the node is isolated once per break |
| `CircuitBreaker.OneBreakPerEpoch` | net/brpc/circuit_breaker.cpp:206-211 | between resets the latch breaks at most once, however many threads race |
| `CircuitBreaker.BrokenTurnsAway` | net/brpc/circuit_breaker.cpp:177-197 | while broken and not reset nothing breaks again and a newcomer never gets past the check |
| `CircuitBreaker.LateCallsReturnFalse` | net/brpc/circuit_breaker.cpp:177-197 | a call that comes in while the latch is broken returns false, an ELIMIT call true |
| `CircuitBreaker.ExponentialBackoff` | net/brpc/circuit_breaker.cpp:213-227 | k breaks, each within max of the reset before it, turn d0 into min(d0 * 2^k, max), in every interleaving in which resets wait for the calls in progress |
| `CircuitBreaker.BackoffStartsOver` | net/brpc/circuit_breaker.cpp:213-227 | in the same interleavings, a break that comes max or more after the reset before it starts over: with k prompt breaks behind it the duration ends at min(min * 2^k, max), whatever it had grown to |
| `CircuitBreaker.IsolationFollowsLags` | net/brpc/circuit_breaker.cpp:206-227 | in the same interleavings every break reads the clock once, and the final duration is what the lags read make of the first one, one after another |
| `CircuitBreaker.CallAlone` | net/brpc/circuit_breaker.cpp:177-197 | eight accesses in a row take an undisturbed call through: healthy if and only if the latch is closed and the windows agree, otherwise marked |
| `CircuitBreaker.MarkAlone` | net/brpc/circuit_breaker.cpp:206-227 | six accesses in a row mark an undisturbed breaker: counted and doubled on the first mark only |
| `CircuitBreaker.Breaker.constructor` | net/brpc/circuit_breaker.cpp:166-175 | the initial state of the machine |
| `CircuitBreaker.Breaker.UpdateIsolationDuration` | net/brpc/circuit_breaker.cpp:213-227 | twice the old duration up to max if the reset is less than max ago, min exactly if it is max or more, always in bounds |
| `CircuitBreaker.Breaker.MarkAsBroken` | net/brpc/circuit_breaker.cpp:206-211 | broken; counted and lengthened only if it was not; the object ends where the machine ends when the marking thread makes its accesses in a row |
| `CircuitBreaker.Breaker.Reset` | net/brpc/circuit_breaker.cpp:199-204 | not broken, and reset now; the machine after the two stores of a reset |
| `CircuitBreaker.Breaker.OnCallEnd` | net/brpc/circuit_breaker.cpp:177-197 | healthy if and only if the code is ELIMIT, or the latch was closed and both windows agree; an unhealthy call breaks it, counting and lengthening once; the machine after that call run through undisturbed |
| `MemcacheRequest.Request.GetOrDelete` | net/brpc/memcache.cpp:332-352 | appends one frame with the key and keeps the buffer a whole number of frames |
| `MemcacheRequest.Request.Flush` | net/brpc/memcache.cpp:379-403 | one frame, with an expiry exactly when it is not zero |
| `MemcacheRequest.Request.Store` | net/brpc/memcache.cpp:523-548 | one frame with flags, expiry, key, value and cas, valid afterwards exactly while the body fits |
| `MemcacheRequest.Request.StoreNonEmpty` | net/brpc/memcache.cpp:609-627 | appending and prepending refuse exactly the empty value and then change nothing |
| `MemcacheRequest.Request.Counter` | net/brpc/memcache.cpp:673-694 | one frame with delta, initial value, expiry and key |
| `MemcacheRequest.Request.Touch` | net/brpc/memcache.cpp:792-811 | one frame with expiry and key |
| `MemcacheRequest.Request.Version` | net/brpc/memcache.cpp:816-833 | one bare frame |
| `MemcacheRequest.Request.MergeFrom` | net/brpc/memcache.cpp:140-144 | frames and counts of both |
| `MemcacheRequest.Request.MergePartial` | net/brpc/memcache.cpp:71-104 | accepts exactly the byte strings that are whole request frames, adds their number, and leaves the request alone otherwise |
| `MemcacheRequest.Request.Clear` | net/brpc/memcache.cpp:66-69 | no frames |
| `MemcacheRequest.ParseConcat` | net/brpc/memcache.cpp:84-101 | frame counts add up over concatenation |
| `MemcacheRequest.ParsesIff` | net/brpc/memcache.cpp:84-101 | bytes count as n frames if and only if they are n whole frames one after another, each with the magic byte and the length its header announces |
| `MemcacheRequest.FrameIsOneIff` | net/brpc/memcache.cpp:84-101 | a frame re-parses as one frame if and only if its body is shorter than 2^32 bytes |
| `MemcacheRequest.Appended` | net/brpc/memcache.cpp:84-101 | one more frame behind a whole number of frames counts as one more if and only if its body is shorter than 2^32 bytes |
| `MemcacheRequest.CommandRoundTripIff` | net/brpc/policy/memcache_binary_header.h:100-126 | read by the layout of the memcached binary protocol, a frame gives its command back if and only if the key is shorter than 65536 bytes |
| `MemcacheRequest.PipelineRoundTrip` | net/brpc/memcache.cpp:332-352 | a pipeline of commands reads back as the same commands in the same order |
| `MemcacheRequest.PipelineCounts` | net/brpc/memcache.cpp:84-101 | a pipeline re-parses with as many frames as it has commands, keys of any length |
| `MemcacheResponse.Responses.PopGet` | net/brpc/memcache.cpp:417-480 | every branch: what is refused, what becomes the error text, what is handed out and what stays in the buffer; the outcome obeys `MemcacheResponse.PopsAnyFrame`, `RefusesUnlessArrived` and `PopsOverlongHead` |
| `MemcacheResponse.Responses.PopStore` | net/brpc/memcache.cpp:554-589 | the same for stores, deletes and flushes |
| `MemcacheResponse.Responses.PopCounter` | net/brpc/memcache.cpp:717-762 | the same for counters |
| `MemcacheResponse.Responses.PopVersion` | net/brpc/memcache.cpp:838-875 | the same for the version |
| `MemcacheResponse.PopsOneFrameIff` | net/brpc/memcache.cpp:417-875 | whatever response is in front and whatever follows, a pop yields its payload, or the server's words, and takes exactly its frame, if and only if it is of the shape the pop is for and its size fits signed arithmetic, or it is a store |
| `MemcacheResponse.TakesFrameIff` | net/brpc/memcache.cpp:417-875 | a pop takes exactly the frame in front if and only if the command is its own, the parts it insists on are there, and the size fits signed arithmetic, or it is a store that succeeded or is the last |
| `MemcacheResponse.DrainsInOrderIff` | net/brpc/memcache.cpp:417-875 | the pops of a pipeline all answer for their own response and leave just the frames after it if and only if each fits its response |
| `MemcacheResponse.PopsAnyFrame` | net/brpc/memcache.cpp:417-875 | whatever response is in front: which pops succeed, clear the error, hand over the server's words or refuse, and what each leaves in the buffer |
| `MemcacheResponse.RefusesUnlessArrived` | net/brpc/memcache.cpp:417-875 | fewer than 24 bytes, another command, or a body shorter than the header announces: refused with a message, nothing taken, whatever the pop |
| `MemcacheResponse.PopsOverlongHead` | net/brpc/memcache.cpp:417-875 | a header whose extras and key exceed its body: only a successful store is accepted, a failed one takes all the rest for words, a get takes nothing and the others skip as far as the header says |
| `MemcacheResponse.GetWithoutValueIff` | net/brpc/memcache.cpp:471-474 | a get popped without a place for the value takes its whole frame if and only if the value is empty |
| `MemcacheResponse.VersionWithoutValueIff` | net/brpc/memcache.cpp:838-875 | a version popped without a place for it takes its whole frame if and only if it failed, with a size that fits signed arithmetic, or is empty |
| `MemcacheResponse.OddCounterSticks` | net/brpc/memcache.cpp:739-753 | a counter whose value is not eight bytes is refused with a message, and its value stays in front of the next response |
| `InputMessenger.Connection.CutInputMessage` | net/brpc/input_messenger.cpp:62-131 | the answer is that of the first handler in order that does not pass; a client of any protocol but baidu_std asks only its own handler, and fails if that passes |
| `InputMessenger.AskedIsFirst` | net/brpc/input_messenger.cpp:100-130 | everyone before the handler taken passed, and it did not |
| `InputMessenger.OrderMeans` | net/brpc/input_messenger.cpp:62-131 | every handler with a parser is asked, none twice, the preferred one first and the others by rising index |
| `InputMessenger.Connection.LaunchLast` | net/brpc/input_messenger.cpp:145-166 | the message held is launched, once, and nothing decided before changes |
| `InputMessenger.Connection.Dispatch` | net/brpc/input_messenger.cpp:274-323 | destroyed exactly without a process function or when rejected, launched at once exactly when progressive, held otherwise; never launched unverified |
| `InputMessenger.Connection.CutNext` | net/brpc/input_messenger.cpp:233-324 | one cut: goes on exactly after an answer that is complete and whose message, if any, is not rejected, having recorded one size and counted one message |
| `InputMessenger.Connection.CutAll` | net/brpc/input_messenger.cpp:233-324 | the answers taken are those of successive cuts, all complete but the last; cutting ends well exactly when the last wants more data, and otherwise by a refusal or a rejected message; one size is recorded per complete answer, one message counted per answer that has one; bytes cut are recorded sizes plus the pending size, and the average is the moving average of the sizes |
| `InputMessenger.Connection.OnNewMessages` | net/brpc/input_messenger.cpp:168-335 | on every way out each message cut was launched once, in order, or destroyed once; verifying handlers' messages only after authentication; every byte read is accounted for; reads are taken in order, each with its round of cutting, until one ends the stream, fails or would block, or a cut fails |
| `InputMessenger.Connection.ReadOnce` | net/brpc/input_messenger.cpp:189-233 | one read of at least 4096 and at most 524288 bytes if there are as many, cut afterwards; goes on exactly after an interruption, more events, or bytes that were cut without failure |
| `InputMessenger.EnterKeeps` | net/brpc/input_messenger.cpp:274-323 | a new message keeps the history orderly whatever becomes of it |
| `InputMessenger.AverageWithin` | net/brpc/input_messenger.cpp:259-266 | the average message size stays between the smallest and the largest size seen |

## Left out

- Sockets, epoll, SSL, bthreads, timers, the balancer and the naming services: what they answer is a parameter.
- Rpc: the base id carries only the backup timer, the timeout and cancellation, and ids outside the reserved range do not occur; a failed CHECK is noted and the code goes on.
- Rpc: streams, progressive attachments, spans, error texts, combo channels, the `_sender` hook, excluded servers, and the part of OnComplete that fails or logs off the main socket.
- AMF reading and writing of protobuf messages by reflection; only the skipping path is modelled.
- AMF numbers are the 64 bits that travel; no floating-point arithmetic is done on them.
- AmfArray.AmfArray.Assign: the plain claim that assignment copies is false for shrinking and self-assignment; the contract states what is left instead.
- Acceptor: ListConnections is one atomic snapshot of the map, without the yielding of its iteration; idle connections are closed by the generic death of a socket.
- `LifeGame::LifeThread`, which passes the column count as a row bound, and `CheckLifeEx`, which is never called.
- LifeGame.LifeGame.InitRandom: the random numbers are a parameter.
- LifeGame.LifeGame.CountAll: the 32-bit overflow of accumulate is not modelled.
- Brackets: the cleansed line that the scanners return beside the position.
- BracketTemplates.TemplatesMatch: template text over several lines, and text in which angle brackets are operators in some places and brackets in others, where the scanners guess.
- Nesting.NestingState.Update: what a line does to the brace stack is an arbitrary function of the stack, the line and its number; deep copies of the stack are values.
- cpplint's style checks, file handling and configuration.
- ErrorWindow.InitialisingCalls: the moving averages, in floating point, are an arbitrary verdict; resets of the window are not part of that run.
- CircuitBreaker.ExponentialBackoff: 32-bit overflow of the doubled duration is not modelled.
- MemcacheRequest.Request.MergePartial: the gathering of the input stream's blocks, and protobuf messages of other types.
- MemcacheResponse.ValueSize: for bodies of 2^31 bytes and a little more the source's signed subtraction overflows, which C++ leaves undefined; the model takes the mathematical value.
- MemcacheResponse.Responses.PopStore: the CHECK that a returned cas value is not zero.
- The parser that turns responses from network to host order, authentication frames included.
- InputMessenger.Connection.OnNewMessages: one thread at a time works on a connection, as the event dispatcher sees to; a message launched in a thread or run on the spot is one launch.
- HTTP, Redis, Thrift and the other protocols, the bindings and the naming and status tables.
