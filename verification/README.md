# IPFI, modelled and proved

IPFI is a small RPC protocol. An `Interface` stores message buffers under recycled identifiers; a `Wire` is one end of
a connection and multiplexes calls and responses over it in a binary format, ipfiBuF; `RoiQueue` hands identifiers
out; `CompleteLock` lets callers wait for a response. Argument buffers, response buffers, wire identifiers and call
indices are all reused or interleaved, and whether a call gets its own bytes depends on who owns which identifier,
across three classes and two ends. These files model the blocking expansion of that code, for every index width (8,
16, 32 and 64 bits) and pointer width (32 and 64 bits), and prove what it keeps.

## Layers

| files | what they hold |
|---|---|
| `Types`, `Integers`, `WireFormat`, `WireFormatProofs`, `WireLayout` | the binary format: writer, reader, how they relate, and where each byte is |
| `RoiQueue`, `RoiQueueThreads` | the identifier queue, used by one thread and by any number |
| `CompleteLock` | the completion lock as a monitor with any number of threads |
| `Stores`, `Chunks`, `Interface` | the operations of an interface as functions on its state, chunk conservation, and the class, each method of which is proved to compute its function |
| `Wires`, `BlockingWire`, `Transport`, `Piecemeal`, `Limits`, `Hazards`, `LateStreams`, `Filling`, `Outcomes` | the same for a wire; transport of whole byte streams, and how reading any bytes ends; what operations report; calls in pieces; the limit under races; where the code falls short and exactly when |
| `Hosts`, `HostCalls`, `HostResponses`, `HostSteps`, `HostRuns`, `HostCode`, `HostContents`, `HostEffects`, `HostTheorems`, `HostTermination`, `HostAnswers`, `HostStreams` | one interface with any number of wires, all its runs, the ownership invariant, the frame theorem, recycling, the limit, termination, and what becomes of answers and streams |
| `Traces`, `CallerTraces`, `CalleeTraces`, `Queues`, `Demultiplexing`, `CallIndices` | the history of one wire, and how it accounts for the wire's arguments, responses, ongoing calls, answers and call indices |
| `Reachability`, `Conformance` | the theorems about hosts, for every reachable state; and those that need peers that keep to the protocol |
| `Links`, `LinkRuns`, `LinkTheorems` | two hosts joined by a byte stream in each direction: remote calls are calls |

The argument goes upwards. The methods of `Interface` and `BlockingWire` are proved equal to functions of `Stores` and
`Wires`. `HostCode` proves that each step of a host is one of those functions. The invariants of hosts are proved over
all sequences of steps, with the peers sending any bytes (`HostCode.AnyBytesAreReceived`) and closures yielding at any
time; the theorems about two ends are proved over all sequences of steps of both, in bytes.

## Hypotheses

They are preconditions of the steps (`HostRuns.Enabled`, `LinkRuns.Allowed`), except where a theorem is named.

For one host, whatever its peers send and whatever closures yield:

- One handle per wire: `Wire` can be cloned, and each clone gives the identifier back when it is dropped.
- The table of procedures does not change during a run.
- Identifiers are not exhausted, and a call index has not wrapped around to one that is still waited for. The latter
  holds as long as fewer calls of a procedure have been begun than there are indices (`CallIndices.FreshUntilWrapped`).
- A call that is waited for is ended once, and a stream is opened by a call handle and before its message is complete.
- A finished stream does not strike off what another handle or stream is registered under
  (`Hazards.StrikingOffMayHitAnother`).
- An ongoing call is visited once by a termination, in some order.

Demultiplexing from the moment a wire is connected (`Reachability.BuffersHoldWhatCame`) and the theorems about two ends
(`LinkTheorems.CanJoin`) also require that no arguments are left under the wire's identifier. The first of them is false
otherwise (`Demultiplexing.StartsFittingIff`), and `Hazards.NextWireInherits` is such a run.
`Reachability.DroppedWireLeavesIff` says which arguments a wire leaves; none are left if

- the peers send no frame of a call while the streaming closure of that call may still yield, that is, until it has
  completed the response or let its yielder go, and no closure yields after that (`Conformance.Conforms`).

A linked wire leaves none either (`LinkTheorems.LinkedWireLeavesNothing`).

For two linked ends, besides, and only for the wires that link them:

- No more calls of a procedure are made than there are indices, and a call is continued or ended only while it is being
  made: after its first frame and before its last.
- A call made in pieces is begun with fewer calls waited for than the other end's limit (`Hazards.LimitTruncatesIff`).
  One-shot calls are unrestricted; one that is turned away is not answered.
- Every message fits the integers of both builds, answers included: indices and lengths.
- A streaming closure yields nothing after a completing piece (`Hazards.PieceAfterLastIsError`), on any wire before it
  returns and on the linked one later, nor after it has let its yielder go.
- Each of the two configurations is one that compiles: pointers of 32 or 64 bits, and 64-bit indices with 64-bit
  pointers only.

What the other end must not do is proved rather than assumed there: that frames of a call end with its last one, that
responses are for calls waited for, and that a wire in module style is sent none. Either wire may be terminated, meet
the end of its input or be dropped at any time, and the other wires of both hosts and their peers may do anything.

## Where the code and its documentation disagree

The model follows the code.

- `src/wire_utils.rs:118-140` gives the terminator one bit and lets a zero length end a call. The code gives it two
  bits, and a zero length ends nothing.
- `src/roi_queue.rs:12-13` says that the counter is never in circulation. It wraps, so it is not in circulation
  exactly as long as not all values are (`RoiQueues.FreshUntilFull`).
- `src/wire_common.rs:74-76` says that sending no argument bytes is a termination order. `continue_given_call_with_bytes`
  refuses it, and the receiver does not treat it as one.
- `src/interface_common.rs:399-401` says that what is yielded after the completing piece is disregarded by the other
  side. There it is an error, which ends `fill` (`Hazards.PieceAfterLastIsError`).

## Model

| member | source | states |
|---|---|---|
| Integers.SmallestIsSmallest | src/integer.rs:12-47 | The chosen integer type holds the value, and no type that holds it is shorter. |
| Integers.SmallestUsizeIsSmallest | src/integer.rs:51-75 | The same for lengths. |
| Integers.IntoIntFits | src/integer.rs:179-261 | A build of some width accepts exactly the values that fit it, whichever type carried them. |
| Integers.IntoUsizeFits | src/integer.rs:267-289 | The same for lengths and pointer widths. |
| Integers.PopulateFromReader | src/integer.rs:117-143 | Reads exactly the bytes of the tagged type, or reports an end-of-file. |
| Integers.PopulatedOfBytes | src/integer.rs:107-143 | Reading back what was written gives the integer and leaves the rest. |
| WireFormat.BoolArrayToU8 | src/wire_utils.rs:54-62 | Bit `i` of the byte is the `i`-th flag. |
| WireFormat.U8ToBoolArray | src/wire_utils.rs:63-69 | The inverse: the flags have the byte as their value. |
| WireFormat.MakeMultiflag | src/wire_utils.rs:28-52 | The multiflag unpacks to the three size flags and the terminator. |
| WireFormat.ToBytes | src/wire_utils.rs:141-193 | The buffer grown field by field is the encoding that the round trips are about. |
| WireLayout.FrameLayout | src/wire_utils.rs:28-193 | A frame byte by byte, in numbers: type, multiflag with its two-bit codes, the three integers in little-endian order with the fewest bytes, and the payload. |
| WireLayout.SignalLayout | src/wire_utils.rs:141-193 | A termination is the byte 0, an end-of-input the byte 3. |
| WireFormatProofs.PeerReads | src/wire_common.rs:547-585 | Another build reads a message back as it was and leaves exactly the tail, or refuses it, exactly when it does not fit that build. |
| WireFormatProofs.StreamRoundTrip | src/wire_utils.rs:141-193 | Reading the concatenation of any messages gives these messages and exactly the tail. |
| WireFormatProofs.VerdictIsStable | src/wire_common.rs:547-585 | What has been read, or refused, does not depend on bytes that come later. |
| WireFormatProofs.StrictPrefixIsEof | src/wire_common.rs:547-585 | Every strict prefix of an encoding is an end-of-file. |
| WireFormatProofs.ReencodingIsMinimal | src/wire_utils.rs:141-193 | Any bytes that read as a call or a response are at least as long as its encoding, and equal to it if they are no longer. |
| WireFormatProofs.ReadingProgresses | src/wire_common.rs:547-585 | Every message read uses up at least one byte. |
| RoiQueues.RoiQueue.Get | src/roi_queue.rs:34-42 | Reuses the oldest relinquished identifier, or issues the counter and increments it with wrap-around. |
| RoiQueues.RoiQueue.Relinquish | src/roi_queue.rs:51-53 | Queues the identifier for reuse. |
| RoiQueues.FreshUntilFull | src/roi_queue.rs:34-42 | The next identifier is unused if and only if not all values are in circulation. |
| RoiQueues.TightWrapBound | src/roi_queue.rs:34-53 | In every sequential run the identifiers issued are the peak number in circulation, none is lost, and the wrapping counter is that number. |
| RoiQueues.FirstBackFirstReused | src/roi_queue.rs:34-53 | Identifiers are reused in the order in which they were given back, however many more are given back meanwhile. |
| RoiQueueThreads.ConcurrentGetIsSafe | src/roi_queue.rs:34-53 | With `get` as two atomic actions and any interleaving of threads: no identifier is handed out twice, none is lost, and the counter with the additions pending never passes the peak of identifiers held and additions pending. |
| RoiQueueThreads.AloneIsSequential | src/roi_queue.rs:34-53 | An undisturbed thread's actions hand it what the queue of one thread hands out and leave the queue as that does, as giving back does. |
| RoiQueueThreads.TightIff | src/roi_queue.rs:34-53 | For threads the identifiers issued are at all times the most held at once, as they are for one thread, if and only if no addition of the run comes when an identifier has been given back meanwhile. |
| RoiQueueThreads.ConcurrentGetCanOvershoot | src/roi_queue.rs:34-42 | A legal run in which one does: two identifiers are issued though one was held at most. |
| CompleteLocks.MonitorIsSafe | src/blocking/complete_lock.rs:24-50 | In every reachable state: mutual exclusion, nobody parked on a decided lock without a notification on its way, and what threads have done and seen agrees with the lock. |
| CompleteLocks.StateIsHistory | src/blocking/complete_lock.rs:24-39 | After every run the lock is completed if and only if a thread has completed it, and poisoned if and only if none has and one has poisoned it. |
| CompleteLocks.WaitsTellTheTruth | src/blocking/complete_lock.rs:42-49 | A wait that saw the lock completed: a thread of the run completed it, and it is completed in every later state. One that saw it poisoned: a thread of the run poisoned it while it was undecided. |
| CompleteLocks.OperationsTakeEffect | src/blocking/complete_lock.rs:24-39 | A `mark_complete` that has returned leaves the lock completed for ever, a `poison` that has returned leaves it decided for ever. |
| CompleteLocks.DecidedLockMoves | src/blocking/complete_lock.rs:24-50 | A decided lock with a thread inside can always move. |
| CompleteLocks.EverybodyReturns | src/blocking/complete_lock.rs:24-50 | Once the lock is decided, the threads inside take a bounded number of actions, and when they can take no more all have returned. |
| CompleteLocks.ParkedWhileComplete | src/blocking/complete_lock.rs:25-29 | A waiter can be parked on a completed lock: the notification comes after the mutex is let go. |
| Outcomes.NewInterfaceHasRoom | src/interface_common.rs:244-262 | A new interface has no messages, and room for as many messages and wires as its integer type has values. |
| Interfaces.Interface.AddProcedure | src/interface_common.rs:380-390 | The procedure replaces whatever had its index, and nothing else changes. |
| Interfaces.Interface.GetId | src/interface_common.rs:264-266 | Takes a wire identifier from its queue. |
| Interfaces.Interface.RelinquishId | src/interface_common.rs:274-276 | Gives it back. |
| Interfaces.Interface.DropAssociatedCallMessage | src/interface_common.rs:282-287 | Removes the mapping of a call and its buffer, and recycles the identifier. |
| Interfaces.Interface.Pop | src/interface_common.rs:434-441 | Removes a buffer and recycles its identifier, once. |
| Interfaces.Interface.CallProcedure | src/interface_common.rs:451-501 | The mapping goes first; the outcome follows the procedure, the buffer and its lock, with each error in its place. |
| Interfaces.Interface.GetCallBuffer | src/interface_common.rs:506-525 | One buffer per procedure, call and wire, made when missing. |
| Interfaces.Interface.Push | src/interface_common.rs:528-545 | A new buffer with one empty chunk and a lock of its own. |
| Interfaces.Interface.Send | src/interface_common.rs:563-580 | One byte, or completion for a negative one; refused once complete. |
| Interfaces.Interface.SendMany | src/interface_common.rs:587-600 | Extends the open chunk; poisoned buffers still accept, completed ones do not. |
| Interfaces.Interface.TerminateMessage | src/interface_common.rs:612-652 | Completes the message; the last chunk goes down a live stream and the message with it, or stays if nobody listens. |
| Interfaces.Interface.TerminateChunk | src/interface_common.rs:661-691 | Sends the open chunk down a live stream or keeps it, and opens a new one. |
| Interfaces.Interface.GetChunkStream | src/interface_common.rs:700-710 | A new channel takes over the chunks from now on. |
| Interfaces.Interface.GetRaw | src/interface_common.rs:784-795 | The chunks of a completed message, which goes; an error for a poisoned one, which stays. |
| Interfaces.Interface.RecvRaw | src/interface_common.rs:129-159 | One round of receiving: the next chunk, the end or an error, as `HostStreams.ReceiverIsTold` says. |
| HostStreams.ReceiverIsTold | src/interface_common.rs:129-159 | A receiver gets a chunk if and only if there is one that it has not taken, and then the oldest such; the end if and only if there is none, the sender is gone and the lock is not poisoned; an error if and only if there is none and the lock is poisoned. |
| Outcomes.SendEachIsSendMany | src/interface_common.rs:563-600 | Bytes sent one by one are the bytes sent at once, and each report is that the message is open. |
| Outcomes.NegativeCompletes | src/interface_common.rs:563-580 | A negative byte adds nothing and completes the message: whoever waits gets what was written, and nothing more is accepted. |
| Outcomes.RefusedIff | src/interface_common.rs:563-691 | Writing is refused if and only if the message is not there or complete, with an error that says which, and then changes nothing; a poisoned message is still written to. |
| Outcomes.CallReports | src/interface_common.rs:451-501 | The procedure runs if and only if it is there and its buffer is there and complete; otherwise there is one error for each case, and only the mapping goes. |
| Outcomes.WaitReports | src/interface_common.rs:784-795 | A wait ends if and only if the message is there and decided: a complete one is handed over whole, once; a poisoned one is an error, again and again. |
| Chunks.GatheredFromNothing | src/interface_common.rs:587-691 | Writing pieces one by one gives the groups between `Chunk` terminators: `None` pieces are merged and no extra empty chunk is left at the end. |
| Chunks.ChunksAreConserved | src/interface_common.rs:587-710 | Whatever is written before a stream is opened, while it is listened to, and after its receiver is gone: the stream carries exactly the chunks finished meanwhile, and the buffer keeps the others in order and one open chunk. |
| Chunks.TerminationConserves | src/interface_common.rs:612-652 | Termination with a listener sends the last chunk, closes the stream and frees the identifier once; otherwise everything is kept. |
| BlockingWires.BlockingWire.constructor | src/wire_common.rs:142-156 | A wire with the next identifier and nothing to its name. |
| BlockingWires.BlockingWire.StartCallWithPartialBytes | src/wire_common.rs:250-290 | The next call index, a response buffer registered for it, a frame that does not complete the call; returns the index (`CallIndices.CallsAreNumbered`, `HostCode.StartIsCode`). |
| BlockingWires.BlockingWire.CallWithBytes | src/wire_common.rs:295-348 | The same with a completing frame and a registered handle. |
| CallIndices.CallsAreNumbered | src/wire_common.rs:267-287 | In every run from the moment a wire is connected, the calls of a procedure that are begun on it are numbered from zero in order, wrapping around at the range of the integer type: that is the index in the frame, and the one under which the new message awaits the response. |
| CallIndices.CallsAreDistinct | src/wire_common.rs:311-332 | As long as no procedure has more calls than there are indices, no two calls of a run are the same. |
| CallIndices.FreshUntilWrapped | src/wire_common.rs:311-332 | As long as fewer calls of a procedure have been begun than there are indices, a new one needs nothing but room for its response. |
| BlockingWires.BlockingWire.ContinueGivenCallWithBytes | src/wire_common.rs:375-403 | One more frame; refused when empty, terminated or in module style. |
| BlockingWires.BlockingWire.EndGivenCall | src/wire_common.rs:409-438 | A completing frame is queued before the response buffer is looked up; a handle if there is one. |
| Reachability.ResponseIndexIsOwn | src/wire_common.rs:442-458 | In every reachable state the buffer index that a wire holds for a call is a live, incomplete message of this call of this wire and of nothing else, so no response reaches anybody else's buffer. |
| BlockingWires.BlockingWire.NewCallHandle | src/wire_common.rs:842-856 | Registers the lock of the response for poisoning. |
| BlockingWires.BlockingWire.WaitBytes | src/wire_common.rs:901-905 | A handle that succeeds is struck off; one that fails stays. |
| BlockingWires.BlockingWire.MarkTerminated | src/wire_common.rs:501-504 | Drops the argument buffers of ongoing calls and poisons the registered locks. |
| BlockingWires.BlockingWire.MarkTerminatedSync | src/wire_common.rs:506-515 | The loop over the ongoing calls drops the buffer of each, in some order. |
| BlockingWires.BlockingWire.PoisonIdleCallHandles | src/wire_common.rs:517-526 | The loop over the registered locks poisons the undecided ones, and no others. |
| BlockingWires.BlockingWire.Drop | src/blocking/wire.rs:10-17 | Termination, then the identifier goes back. |
| BlockingWires.BlockingWire.ReceiveOne | src/wire_common.rs:538-707 | Reads one message and handles it; the reader is left behind it. |
| BlockingWires.BlockingWire.HandleCall | src/wire_common.rs:590-661 | The limit, the buffer, the bytes, and the execution of a completed call. |
| BlockingWires.BlockingWire.Yielder | src/wire_common.rs:618-639 | A yield is queued as a response, and a completing one takes the call off the ongoing ones; an error once terminated. |
| BlockingWires.BlockingWire.HandleResponse | src/wire_common.rs:664-687 | Bytes, then the end of the message or of the chunk. |
| BlockingWires.BlockingWire.FlushPartial | src/wire_common.rs:712-728 | Writes the queue in order and empties it. |
| BlockingWires.BlockingWire.FlushEnd | src/wire_common.rs:735-746 | The same with an end-of-input message behind it. |
| BlockingWires.BlockingWire.FlushTerminate | src/wire_common.rs:761-772 | The same with a termination message behind it. |
| BlockingWires.BlockingWire.Fill | src/wire_common.rs:785-811 | Receives until a message or an error stops it, and comes to an end on every finite input; how, is what `Filling` is about. |
| Filling.FillEndsAs | src/wire_common.rs:785-811 | On any bytes `fill` handles the messages that can be read off their front in order, and ends as the first of these decides: a message that stops it, a failure, the end of the bytes, or bytes that make no sense. |
| Filling.FillClosesIff | src/wire_common.rs:794-809 | It reports an end-of-file if and only if the bytes run out first, or a procedure fails with one; the wire is terminated if and only if that happens or a termination message has come, and then registered locks are decided and the arguments of its ongoing calls are gone. |
| Filling.FillIsRun | src/wire_common.rs:785-811 | At a host it is the run that receives these messages and, at an end-of-file, takes the step that terminates the wire. |
| Outcomes.ReceivingReports | src/wire_common.rs:528-707 | What `receive_one` reports: nothing more to read for an end-of-input or a termination, otherwise whether a call or a response was completed; the error of the procedure, or that nobody waits for the response. A frame over the limit, such a response, an end-of-input and an unknown message change nothing. |
| Outcomes.YieldReports | src/wire_common.rs:618-639 | A yield is an error if and only if the wire is terminated, and then nothing is queued. |
| Outcomes.UnknownTypesAreSkipped | src/wire_common.rs:547-551 | A type byte without a meaning, or that of a response in module style, is skipped, and `fill` goes on behind it. |
| Outcomes.BadTerminatorIsError | src/wire_utils.rs:16-24 | The pattern that is no terminator is an error before anything else of the message is read. |
| Transport.FillHandlesInOrder | src/wire_common.rs:785-811 | On the bytes of any messages, `fill` handles the messages in order up to the first that stops it or fails, with the outcome of that one, and leaves exactly the bytes behind it. |
| Transport.FlushedIsFilled | src/wire_common.rs:712-746 | What one wire writes with `flush_end`, `fill` takes as the queued messages in order; it stops right behind the end-of-input message. |
| Transport.ErrorStops | src/wire_common.rs:796-809 | An error ends `fill` with the work done so far. |
| Transport.CutOffChangesNothing | src/wire_common.rs:547-585 | A message cut off anywhere changes neither the wire nor the interface. |
| Piecemeal.PiecemealIsOneShot | src/wire_common.rs:590-661 | For any split of the arguments, the frames received one after the other leave interface, queue, ongoing calls and result exactly as one frame with all of them. |
| Limits.RacesStayWithin | src/wire_common.rs:590-639 | The limit holds when check and insertion are two actions and yielders complete calls in between. |
| Limits.LetThroughIff | src/wire_common.rs:592-602 | Under the same races a frame is let through if and only if its call is ongoing or there is room at the check, and then its call is ongoing, whatever was completed in between, even if that is this call. |
| Limits.ActionsAreCode | src/wire_common.rs:592-602 | Undisturbed, check and insertion do to the ongoing calls what receiving a frame does, and a completion what a last yield does. |
| Hazards.LeftBehindIff | src/interface_common.rs:451-501 | `call_procedure` leaves the argument buffer without an owner if and only if the procedure is unknown or its streaming closure fails. |
| Hazards.LimitTruncatesIff | src/wire_common.rs:590-602 | A frame over the limit is dropped without a trace: of two frames of a call, between which another call makes room, the procedure gets only the second, behind what was gathered before, if and only if the wire was full when the first came. |
| Hazards.TerminationDropsIff | src/wire_common.rs:506-515 | Termination drops an argument mapping if and only if it is one of this wire's ongoing calls. |
| Hazards.NextWireInherits | src/wire_common.rs:618-639 | A concrete run: a frame comes for a call that is being streamed, the stream completes, the wire is dropped, and the first call of the next wire with that identifier gets the stale bytes in front of its own. |
| Hazards.PoisonedIff | src/wire_common.rs:501-526 | Termination decides a lock if and only if it is registered or was decided. |
| Hazards.StruckOffIff | src/wire_common.rs:944-955 | Striking an identifier off leaves a waiting handle undecided after termination if and only if the handle is registered under it. |
| Hazards.StrikingOffMayHitAnother | src/wire_common.rs:944-955 | A streamed response is completed, a call is made, and the stream is struck off: the new handle is the one that is hit if and only if no other identifier was free. |
| Hazards.PieceAfterLastIsError | src/wire_common.rs:664-687 | A response piece behind the completing one is an error at the caller and changes nothing. |
| LateStreams.LateStreamEndsIff | src/interface_common.rs:700-710 | A stream opened on a completed message never delivers a chunk, whatever is done to the interface afterwards; its receiver gets the end of the stream if and only if the message has been removed or another stream has taken this one's place, and waits otherwise. |
| HostRuns.StepKeeps | src/wire_common.rs:538-707 | Every step of a host keeps the ownership invariant. |
| HostCode.StartIsCode | src/wire_common.rs:250-290 | Starting a call in pieces at a host is the operation of its wire, and what that returns is the index of the call that it has begun; the errors change nothing. |
| HostCode.StartedCallGoesOn | src/wire_common.rs:250-438 | Continuing and ending the call with the returned index queues frames of the same call, and gives a handle on the very message that was set aside when it was begun. |
| HostCode.OnceIsCode | src/wire_common.rs:295-348 | So is a call at once; the handle is on the message that awaits the response to the call in the frame. |
| HostCode.ContinueIsCode | src/wire_common.rs:375-403 | So is continuing a call, which is refused on a terminated wire, in module style, and without bytes. |
| HostCode.EndIsCode | src/wire_common.rs:409-458 | So is ending a call: the handle is on the message that the response to this call fills, or there is an error when nobody waits for it, behind the frame. |
| HostCode.ToldIsCode | src/wire_common.rs:466-488 | So are the signals, of which only the termination signal is queued on a terminated wire. |
| HostCode.WaitIsCode | src/wire_common.rs:901-905 | A wait that succeeds takes the message and strikes the handle off its wire's list, while there is one; a wait that fails changes nothing. |
| HostCode.StepIsCode | src/wire_common.rs:501-728 | All other steps, connecting, dropping, flushing, receiving, meeting the end of the input, yielding, and opening, reading and closing streams, are the operations of the wire and the interface on the shared store. |
| HostCode.AnyBytesAreReceived | src/wire_common.rs:538-707 | Whatever bytes a peer sends, `receive_one` is a step of the host, or an error that changes nothing: no bytes fall outside the runs that the theorems are about. |
| HostTheorems.EveryMessageHasOneOwner | src/interface_common.rs:434-545 | In every reachable state each live message has exactly one owner, the maps and the owners agree in both directions, and all maps are injective with disjoint ranges. |
| Reachability.OwnersAreLostToErrors | src/interface_common.rs:451-501 | In every reachable state, a message loses its owner only by the last frame of a call, and only if handling it returns an error. |
| Reachability.DroppedWireLeavesIff | src/blocking/wire.rs:10-17 | In every reachable state, dropping a wire leaves of what mentions its identifier exactly the argument mappings of calls that it does not know to be ongoing. |
| Conformance.DroppedWiresLeaveNothing | src/blocking/wire.rs:10-17 | With peers that keep to the protocol a dropped wire leaves no mapping, owner or stream that mentions its identifier. |
| Conformance.NextWireIsClean | src/wire_common.rs:142-156 | The identifier that the next wire gets is then clean, whichever wires had it before. |
| Conformance.ArgumentsAreOngoing | src/wire_common.rs:588-602 | With such peers the argument mappings of a wire are, in every reachable state, for calls that it knows to be ongoing and that have not started to stream. |
| Reachability.LimitsAreKept | src/wire_common.rs:590-602 | In every reachable state no wire has more ongoing calls than its limit. |
| Reachability.WiresAreAsMade | src/wire_common.rs:142-156 | In every run from the moment it is connected a wire has the widths, the style and the limit it was made with, never more ongoing calls than that limit, and lets a new call through if and only if it has fewer. |
| HostContents.StepElsewhere | src/wire_common.rs:588-689 | A step that is not about a wire's calls leaves their buffers, owners and contents as they were. |
| Reachability.OtherWiresAreUndisturbed | src/wire_common.rs:588-689 | The same in every reachable state: whatever happens on other wires, and however identifiers are recycled. |
| HostContents.RespondShape | src/wire_common.rs:662-687 | A response changes only the buffer its wire set aside for that call; one for an unknown call changes nothing. |
| HostEffects.AdmitArgs | src/wire_common.rs:588-656 | A frame let through extends the arguments of its own call and no other; the last one hands them all to the procedure. |
| HostTermination.LocksRun | src/blocking/complete_lock.rs:24-39 | Over every run decided locks stay decided and completed ones completed. |
| Reachability.WaitersAreExpected | src/wire_common.rs:842-856 | In every reachable state, a handle or a stream on an undecided response belongs to a live wire that still expects it. |
| Reachability.NobodyIsLeftWaiting | src/wire_common.rs:501-526 | In every run that terminates or drops a wire somewhere, the locks of the handles and of the streams waiting on it then are decided in every later state. |
| HostTermination.TerminatedWireIsInert | src/wire_common.rs:124-125 | Calling, flushing and yielding on a terminated wire change nothing. |
| HostTermination.TerminatedForGood | src/wire_common.rs:501-526 | Through every run until it is dropped, a terminated wire stays terminated, its calls, their buffers and what these hold stay as they were, and only termination signals join its queue. |
| HostAnswers.SettledStays | src/interface_common.rs:784-795 | A complete response, or a message left behind by a failed call or a dropped wire, stays and says the same through every run in which nobody waits for it, even when its wire is dropped. |
| HostAnswers.OrphansAreNeverReclaimed | src/interface_common.rs:451-501 | What a failed call has left behind stays for the rest of every run. |
| HostStreams.OpeningKeepsAll | src/interface_common.rs:700-710 | Opening a stream loses nothing that was written to any message: the finished chunks stay in the buffer, and a new channel, on which nothing has been sent, takes the chunks from now on. |
| HostStreams.ReceiverGetsWhatWasSent | src/interface_common.rs:129-159 | Over every run the receiver of a channel is handed exactly what has been sent down it, in order and without gaps, whatever else happens at the host. |
| HostStreams.StreamsAreRead | src/interface_common.rs:129-159 | From the moment a stream is opened, in every state: its receiver has been handed the first chunks sent; it has to wait if and only if it has them all and the response is undecided; it is told of the end only with all of them and the response complete, and of an error only with all of them and the response poisoned. |
| HostStreams.StreamsStayEnded | src/interface_common.rs:612-652 | Once the response is complete no later run sends anything more down its stream. |
| HostTermination.TerminatedWireIsDeaf | src/wire_common.rs:543-545 | Nor does receiving. |
| Demultiplexing.StartsFittingIff | src/wire_common.rs:142-156 | A wire that has just been connected has exactly what came on it, nothing, if and only if no arguments are left under its identifier. |
| Reachability.BuffersHoldWhatCame | src/wire_common.rs:588-656 | In every state after a wire is connected under such an identifier at any reachable host, whatever its and other peers send and whatever closures yield: exactly the calls with frames since they last ran have a buffer, which holds the bytes of those frames in order, until termination takes those of the ongoing calls. |
| Reachability.ProceduresGetWhatCame | src/wire_common.rs:604-653 | The last frame of a call runs its procedure on exactly those bytes, and the answers to that join the queue. |
| CallerTraces.CallerStep | src/wire_common.rs:250-458 | The calls waited for are those made and not yet answered in full, and each response holds the pieces received for it. |
| CalleeTraces.CalleeStep | src/wire_common.rs:588-656 | Each call is answered with what its procedure makes of all its arguments, and with what is yielded later. |
| CalleeTraces.OngoingIff | src/wire_common.rs:590-653 | The ongoing calls are exactly those gathering arguments, those that failed, and those still streaming. |
| CalleeTraces.LetThroughToTheEnd | src/wire_common.rs:590-602 | Once a frame of a call is let through, the rest are. |
| Queues.StepQueues | src/wire_common.rs:375-438 | A step queues exactly the messages it posts, behind what was queued. |
| Links.ArrivalParses | src/wire_common.rs:547-585 | What arrives is read back as the oldest message under way, between builds of any widths and in either wire style. |
| Links.ArrivalFits | src/wire_common.rs:588-687 | The peer keeps to the protocol: responses are for calls waited for, and no frame follows the last one of a call. |
| Links.TurnedAwayIsOneShot | src/wire_common.rs:590-602 | Only one-shot calls are turned away: a call made in pieces always finds room. |
| LinkRuns.PairStep | src/wire_common.rs:538-707 | Every step of either end keeps the invariant of the pair. |
| LinkTheorems.NewEndIsLocal | src/wire_common.rs:142-156 | A wire given a recycled identifier under which no arguments are left inherits no responses, ongoing calls or streams either. |
| LinkTheorems.LinkedWireLeavesNothing | src/blocking/wire.rs:10-17 | A linked wire leaves no arguments under its identifier when it is dropped, whatever the peers of other wires send. |
| LinkTheorems.ResponseHolds | src/wire_common.rs:664-687 | An open response holds what has arrived of the answer, grouped into chunks; a finished one holds all of it. |
| LinkTheorems.RemoteCallIsCall | src/wire_common.rs:538-707 | A finished response to a standard procedure is one chunk: the procedure applied to exactly the bytes supplied for that call. |
| LinkTheorems.RemoteStreamIsStream | src/wire_common.rs:618-687 | A finished response to a streaming procedure is what it yielded for exactly the bytes supplied, joined as it marked its chunks. |
| LinkTheorems.StreamDeliversAnswer | src/interface_common.rs:612-691 | A stream listened to until the end has delivered all of the answer behind the chunks finished before it was opened. |
| LinkTheorems.StreamKeepsAnswer | src/interface_common.rs:129-159 | It stays so whatever the host does later: what a reader meets the end of is all of the answer. |
| LinkTheorems.WaitedForIff | src/wire_common.rs:664-687 | When nothing is queued or under way, a call is waited for if and only if it was made and its answer has not ended. |
| LinkTheorems.EverythingIsAnswered | src/wire_common.rs:538-707 | Then an ended call that was let through is waited for if and only if it is still ongoing at the other end: its standard procedure failed, or its streaming procedure has not completed the response. |
| LinkTheorems.PairReturnsCalls | src/wire_common.rs:901-905 | A wait for a finished response does not block and returns what a standard procedure returned for the bytes supplied, as one chunk, or what a streaming one yielded, joined into its chunks. |
| LinkTheorems.NewCallNeedsRoom | src/wire_common.rs:311-332 | At a linked end a new call needs nothing but room for its response and an index that has not been used. |
| LinkTheorems.DropKeepsMeaning | src/blocking/wire.rs:10-17 | Dropping a wire takes nothing away from the responses it has finished: through every later run of the host they say what they said until somebody waits for them. |
| LinkTheorems.EveryRunRefinesCalls | src/wire_common.rs:250-707 | From the moment two wires are connected, at hosts with any past and any other wires and under identifiers that are clean, through every run of both ends in bytes, in which wires may also be terminated, meet the end of their input or be dropped: a finished response at either end is the procedure applied to what the caller supplied, or what the streaming procedure yielded for it, and that is what a wait for it returns. |

## Left out

- The asynchronous expansion (`src/async`), including its locks.
- Creation locks, `wait_for_message_creation` and the timed polling of `recv_raw`: waiting is a step that can be taken once the lock is decided.
- Typed calls, serialization and `add_procedure`: procedures are functions of bytes.
- `into_response_idx`, `wait_chunks`, `is_chunked`, `has_stream`: variants of modelled operations.
- Concurrency below the modelled actions: outside the identifier queue, the completion lock and the ongoing calls, each operation is one step, and concurrent maps and queues are maps and sequences.
- Readers and writers fail only by an end-of-file; where a reader stands after one is not specified.
- Spawning threads, `AutonomousWireHandle`, and clones of a wire.
- Locks and channels are shared by reference in the program; here they are numbers into sequences that only grow.
- Closures: a standard procedure is a function of its arguments, so procedures with state are covered only in that each may yield later; a streaming closure that keeps its yielder is covered by later yields.
- The overflow panic of a debug build on a call counter: the addition wraps, as in a release build.
- A second stream on one message, a second end of one call, and single-byte sends of -1 on a streamed message, beyond what their operations do to the state.
