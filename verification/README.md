# Verification model of scp_rdma

scp_rdma copies files by RDMA Write into a remote buffer of four slots. Small CDC
messages do the signalling: DATA_READY says that a slot has been written, ACK that it
has been processed. This project models that transfer from end to end and proves what
it delivers, for every interleaving of the sender, the receiver and the network
adapters, for every tree whose remote paths fit into a packet, wherever those paths
lead, and for every sequence of read results.

## How the model is built

- **The protocol** (`Packets`, `Machine`) is a step system with three parties: the
  sender program, the receiver program and an asynchronous NIC. Every FIFO (send queue,
  wire, receive queues, completion queues) is the log of what was ever put into it with
  a cursor. Delivery is reliable and in order in each direction, as section 9.5 of the
  InfiniBand Architecture Specification, Volume 1, requires of a reliable connection.
  A posted RDMA write holds only a reference: the NIC reads slot memory when it
  executes the write, and may read it again (`NicReread`) until delivery. A CDC SEND
  is copied when it is posted. A SEND that meets an empty receive queue breaks the
  connection, because `rnr_retry` is 0.
- **The proofs about all runs** are in `Invariant` (one global invariant, kept by each
  of the 29 steps), `Safety` (what follows for every reachable state) and `Progress`
  (a measure that every step lowers except beginning a packet and a retransmission, and
  deadlock freedom).
- **The programs in their own form.** `Sender.Context` and `Receiver.Context` are
  classes whose methods are the functions of the C source, with its loops and in-place
  updates. Between any two actions the other parties may take any number of steps.
  Each action is proved to be a step of the machine, so everything proved there holds
  of these programs, and each method also says what it sends or interprets.
- **What travels.** `Chunks` cuts a file for any sequence of `pread` results, `Trees`
  compiles a tree to packets, `Interpreter` says what a packet does at the receiver and
  `Output` is the receiver's code for it. `Paths` and `FileSystem` give meaning to path
  strings and to `scp_mkdir_recursive`; `..` and symbolic links are resolved as the
  kernel does (section 4.13 of the Base Definitions of POSIX.1-2017, and at most 40
  links). `LinkFree` is the simple reading of paths on which no link lies. `Session`
  joins all of it.
- **What a copy is.** `Mirror` says it without the sender's loops: the places of a source
  tree, found by going down it, which of them are to be copied, and that they and no
  others are at the receiver. `Overwrite` says what happens to whatever is there already:
  one file or link at any path whatever, and a whole tree sent twice.
- **What can be touched.** `Links` follows where a packet stream puts links, `Footprint`
  says what a packet can change, `Arrival` when a tree arrives although names are cut,
  and `Containment` when anything outside the output directory changes.
- **Below the protocol.** `CdcRing` is the ring of receive buffers, `Completions` the
  event-driven wait against a NIC that inserts completions at any moment (Poll and
  Request Completion Notification, section 11.4.2 of that InfiniBand specification),
  `Layout` the bytes of a slot, `Wire` what the receiver takes the bytes of each command
  for, and `Crc32` the checksum function.

The main results: nothing is lost, doubled, reordered or read from a buffer that was
overwritten (`Safety.SafeAlways`, `Safety.BuffersStable`, `Safety.Refines`); the books
on both sides are exact (`Safety.CircularWindow`, `Safety.Conservation`,
`Safety.SenderRing`, `Safety.ReceiverRing`); every run does a bounded amount of work and
never deadlocks (`Progress.RunsAreBounded`, `Session.SessionIsBounded`,
`Progress.NoDeadlock`); the sender's and the receiver's programs together copy any tree
(`Session.SessionSoFar`, `Session.Send`, `Session.Receive`), so that the receiver
mirrors the source (`Mirror.TransferMirrors`), whatever files and links were there
before (`Overwrite.FileAnywhere`, `Overwrite.LinkAnywhere`, `Overwrite.TransferAgain`);
each packet's bytes are taken for that packet (`Wire.MetaThroughSlot`,
`Wire.ChunkTakenThroughSlot`); a tree is rebuilt exactly if every remote path sent fits
(`Arrival.ArrivesIff`, `Arrival.RebuildIff`); a packet stream that goes through no link
stays inside the output directory exactly if the places its names pass do
(`Containment.ContainedIff`, `Session.SessionStaysInside`); completions are waited for
without a lost wakeup, each taken once and in order
(`Completions.Queue.AsyncWaitCompletion`); bursts of up to four bytes are detected
(`Crc32.BurstDetected`).

## Where the code and its documentation differ

The model follows the code.

- The repository's `README.md:189` says that credits limit what the sender may post.
  The sender never reads them: the window is bounded by the four slots alone. The
  credits reported are right all the same (`Safety.CreditsReported`).
- The repository's `README.md:181` says that a busy slot is skipped. The code waits for
  it: slots rotate strictly.
- `wait_for_rdma_write_completion` may take the write completion of an earlier chunk
  for its own. The model has this behaviour, and no property needs the wait: data
  arrives before its signal because both travel the same ordered channel.
- Short reads are not made up for as such: the loop ends after `total_chunks` reads, or at
  a read of zero or fewer bytes, and the send returns 0 either way. `Chunks.SentIs` says
  how much arrives for any given read results, `Chunks.CompleteIff` when the file is
  complete for all results of at least m bytes; `Chunks.ShortReadTruncates` shows a short
  read that loses the tail and one that does not.
- `total_chunks` is a `uint32_t`, so files above (2^32 - 1) * 16 MiB are cut
  (`Chunks.FullReadsComplete`).
- Remote paths of 256 characters or more are cut, also those of entries deep in a tree,
  and the send returns 0: such a tree does not arrive (`Arrival.RebuildIff`). Neither does
  a file sent to a path that ends in a slash (`Arrival.ArrivesIff`).
- Names received are joined to the output directory as they are. `..` in a remote path,
  which `scp_rdma -r .. host:` puts there by itself, leads out of it
  (`Containment.DotDotLeadsOut` and its instance `Containment.ParentAsSource`), and so does
  a link that a stream sends first and goes through afterwards (`Containment.LinkLeadsOut`).
- The checksum field of a chunk is never filled in and `scp_calc_checksum` is not called
  by the transfer.

## Model

| member | source | states |
|---|---|---|
| Session.SessionSoFar | scp_rdma/scp_rdma_sender.c:737-787 | At every reachable moment of a session, whatever is in flight, the packets already interpreted followed by the remaining ones are the session, and carrying on from the receiver's present state still produces the copy where the remote path leads |
| Session.SessionDelivers | scp_rdma/scp_rdma_receiver.c:297-342 | Once the sender is idle, or the receiver has met TRANSFER_END, the receiver has a copy: every place of the source tree that is to be copied is there with its content, whatever file or link was there before, and nothing else differs but the directories on the way; with full reads every file equals its source |
| Session.Send | scp_rdma/scp_rdma_sender.c:737-787 | When the sender program returns 0, the tree has already arrived at the receiver |
| Session.Receive | scp_rdma/scp_rdma_receiver.c:74-349 | When the receiver program ends after the packets of a session, its file system is the copy and it has halted on TRANSFER_END |
| Session.PacketsCopy | scp_rdma/scp_rdma_sender.c:625-735 | The packets of a session, interpreted from any interpreter state, leave the tree where its path leads, as the source has it (Mirror.PutMirrors), and nothing else differs; where nothing lay before nothing is lost; with full reads every file is its source |
| Session.SessionStaysInside | scp_rdma/scp_rdma_sender.c:737-787 | At every reachable moment of a session whose remote path has no "..", under the same conditions as Containment.SessionContained, nothing outside the output directory has changed |
| Session.SessionIsBounded | scp_rdma/scp_rdma_sender.c:737-787 | A session takes a number of steps bounded by its tree, retransmissions aside, whatever the interleaving |
| Safety.StepInv | scp_rdma/scp_rdma_sender.c:172-223 | Every step of sender, NIC and receiver keeps the global invariant that links programs, queues and both memories |
| Safety.RunInv | scp_rdma/scp_rdma_sender.c:172-223 | Whole runs of any length and interleaving keep the invariant |
| Safety.ReachInv | rdma_trans_src/rdma_socket/rdma_trans.c:1013-1020 | The invariant holds in every state reachable from a connection with one pre-posted receive on each side |
| Safety.SafeAlways | scp_rdma/scp_rdma_receiver.c:132-175 | In every reachable state the interpreted packets are an in-order prefix of those sent (all of them when the sender is idle), no header check has failed and no SEND met an empty receive queue |
| Safety.InterpretedIsPrefix | scp_rdma/scp_rdma_sender.c:483-617 | The receiver is never ahead, never skips or repeats a packet, and at most four packets behind |
| Safety.Refines | scp_rdma/scp_rdma_sender.c:483-617 | Each step of the pipeline is a step of an ordered channel holding at most four packets, or leaves it alone |
| Safety.OnlyTheseMove | scp_rdma/scp_rdma_receiver.c:132-154 | Only posting a write extends what was sent, by one; only interpreting extends what was received, by at most one |
| Safety.DrainedMeansAll | scp_rdma/scp_rdma_sender.c:159-166 | When the sender is between packets, everything sent has been interpreted: the outcome is that of stop-and-wait sending |
| Safety.BuffersStable | scp_rdma/scp_rdma_sender.c:541-597 | No step overwrites the local slot of an unanswered packet, nor its remote slot once written; the remote slot holds the packet meant although the NIC read local memory late |
| Safety.RemoteStable | scp_rdma/scp_rdma_receiver.c:150-175 | The remote slot of a packet that was written and not answered holds that packet before and after any step |
| Safety.ReadAfterRepost | scp_rdma/scp_rdma_receiver.c:308-334 | The buffer reposted is the one just consumed, it still holds the original signal when the ACK is copied from it, and at least four posted receives lie ahead of it |
| Safety.NoReceiverNotReady | rdma_trans_src/rdma_socket/rdma_trans.c:928-940 | Whenever a SEND is next to be delivered, in either direction, a receive is posted for it, also at start-up |
| Safety.SignalsAndAnswers | scp_rdma/scp_rdma_sender.c:198-207 | Every write is followed by a signal of type DATA_READY, never ACK, that names its slot; the k-th answer is of type ACK, confirmed, and names the slot of the k-th signal |
| Safety.SenderRing | rdma_trans_src/rdma_socket/rdma_trans.c:36-55 | On the sender the next ACK consumed lies in the oldest posted buffer; between packets posted minus consumed is one more than pending_acks and at most five; the buffer posted next is not outstanding |
| Safety.ReceiverRing | scp_rdma/scp_rdma_receiver.c:116-145 | On the receiver likewise; at the loop head eight receives are outstanding and local_credits says so; the buffer posted next is not outstanding |
| Safety.CreditsReported | scp_rdma/scp_rdma_receiver.c:321-329 | The credits written into an ACK are the receives posted and unused: eight, or seven in the ACK of TRANSFER_END |
| Safety.WrIdLags | rdma_trans_src/rdma_socket/rdma_trans.c:1013-1020 | The wr_id of an ACK's completion names the slot of the message before it, a different slot inside a file; the payload names the right one |
| Safety.CircularWindow | scp_rdma/scp_rdma_sender.c:594-597 | pending_acks is the number of busy slots, and during a file the busy slots are exactly the circular interval ending before current_slot |
| Safety.WaitsOnlyWhenFull | scp_rdma/scp_rdma_sender.c:147-154 | A chunk waits for its slot only when all four slots are busy |
| Safety.AckFreesOldest | scp_rdma/scp_rdma_sender.c:23-49 | Every ACK handled frees one busy slot, the oldest; the "already free" and "invalid slot" branches are never taken |
| Safety.QuiescentAtControl | scp_rdma/scp_rdma_sender.c:474-481 | Whenever a control packet is filled in, or a file resets the slot state, all slots are free, nothing is pending or in flight, and the reset changes nothing |
| Safety.Conservation | scp_rdma/scp_rdma_sender.c:580-611 | pending_acks equals undelivered signals plus unpolled ones plus the message in hand plus undelivered ACKs plus unhandled ACK completions |
| Progress.WorkDecreases | scp_rdma/scp_rdma_sender.c:103-166 | Every step that does not begin a packet makes a non-negative measure smaller |
| Progress.BeginCost | scp_rdma/scp_rdma_sender.c:483-484 | Beginning a packet or file adds at most 29 to the measure |
| Progress.WorkBound | scp_rdma/scp_rdma_sender.c:483-617 | Along any run the work done plus the measure left is bounded by the measure at its start plus 29 for each packet begun |
| Progress.RunsAreBounded | scp_rdma/scp_rdma_sender.c:737-787 | A run from the connected state that begins b packets or files takes at most 8 + 29 b other steps, retransmissions aside |
| Progress.BegunByPackets | scp_rdma/scp_rdma_sender.c:483-617 | The number of packets and files ever begun is at most the number of packets sent, two more for each file, and one |
| Progress.WaitingIsServed | scp_rdma/scp_rdma_sender.c:147-166 | A sender waiting with nothing left to poll is never alone: NIC or receiver can take a step |
| Progress.BlockedMeansAnswered | scp_rdma/scp_rdma_receiver.c:321-337 | If NIC and receiver can do nothing, every message posted was answered and every answer and completion is in the sender's queue |
| Progress.NoDeadlock | scp_rdma/scp_rdma_sender.c:103-166 | In every reachable state that is not quiet the step named is possible and uses up work |
| Progress.QuietMeansDone | scp_rdma/scp_rdma_receiver.c:334-342 | A quiet state is a finished one: all that was sent was interpreted, and after TRANSFER_END the receiver has halted |
| Sender.Context.constructor | scp_rdma/scp_rdma_sender.c:225-284 | A new context, all slots free and one receive posted, is in a reachable state with nothing sent |
| Sender.Context.AwaitCompletion | scp_rdma/scp_rdma_sender.c:106-114 | Sleeping ends with a completion in the queue or with less work left, so waiting loops end |
| Sender.Context.PostReceive | scp_rdma/scp_rdma_sender.c:529-539 | Acquiring and posting the ACK buffer is the corresponding machine step: the next ring buffer, with the slot as wr_id |
| Sender.Context.PostRdmaWrite | scp_rdma/scp_rdma_sender.c:541-570 | Posting the write queues a reference to the slot and makes the packet meant the newest one sent |
| Sender.Context.SignalControl | scp_rdma/scp_rdma_sender.c:198-214 | The signal of a control packet is posted, slot 0 becomes busy and pending_acks goes up, exactly as the machine step; nothing else is sent |
| Sender.Context.SignalChunk | scp_rdma/scp_rdma_sender.c:580-597 | The signal of a chunk names the current slot, which becomes busy and pending; current_slot moves on round-robin, exactly as the machine step |
| Sender.Context.HandleAckRecv | scp_rdma/scp_rdma_sender.c:23-49 | Handling an ACK consumes the next ring buffer and frees the slot it names, exactly as the machine step |
| Sender.Context.HandleCompletion | scp_rdma/scp_rdma_sender.c:74-91 | Each opcode has exactly its effect on the context: ACK, write completion seen, or nothing |
| Sender.Context.PollCq | scp_rdma/scp_rdma_sender.c:55-55 | Polling takes at most 16 of the oldest completions, in order, and at least one if there is one; the measure falls if any was there |
| Sender.Context.HandleBatch | scp_rdma/scp_rdma_sender.c:64-92 | A batch is handled completely and in order while others move on; the count returned is the number of ACKs in it |
| Sender.Context.HarvestCompletions | scp_rdma/scp_rdma_sender.c:51-101 | A blocking harvest handles all it polled and strictly lowers the measure; a non-blocking one returns to the chunk loop; the result counts the ACKs consumed |
| Sender.Context.WaitForSlot | scp_rdma/scp_rdma_sender.c:147-154 | Terminates, with the slot free, everything polled handled and no packet sent |
| Sender.Context.WaitForRdmaWriteCompletion | scp_rdma/scp_rdma_sender.c:103-143 | Terminates once a write completion was among those handled since the wait began, with everything polled handled |
| Sender.Context.DrainPendingAcks | scp_rdma/scp_rdma_sender.c:159-166 | Terminates with the sender idle and no packet sent |
| Sender.Context.SyncWritePacket | scp_rdma/scp_rdma_sender.c:172-190 | Slot, receive and write of a synchronous send append exactly the packet filled in |
| Sender.Context.SyncSignal | scp_rdma/scp_rdma_sender.c:192-220 | Completion, signal and ACK of a synchronous send end with the sender idle and nothing more sent |
| Sender.Context.SendControl | scp_rdma/scp_rdma_sender.c:172-223 | Sending one control packet, from filling slot 0 to the ACK, appends that packet and returns to idle |
| Sender.Context.ResetSlots | scp_rdma/scp_rdma_sender.c:476-481 | The per-file reset leaves all slots free, nothing pending and slot 0 current |
| Sender.Context.ReadChunk | scp_rdma/scp_rdma_sender.c:493-517 | After pread, direct or not, the count is the one the file allows and the data region starts with those bytes of the file; zero or fewer ends the loop |
| Sender.Context.FillHeader | scp_rdma/scp_rdma_sender.c:519-527 | With the header filled in, the packet meant is the header with the bytes read |
| Sender.Context.ChunkTurn | scp_rdma/scp_rdma_sender.c:483-613 | One turn of the loop appends one chunk with its index, length, offset and bytes, or nothing and the loop is over |
| Sender.Context.ChunkLoop | scp_rdma/scp_rdma_sender.c:483-613 | The loop appends exactly the chunk packets of the file and leaves only ACKs to drain |
| Sender.Context.SendFile | scp_rdma/scp_rdma_sender.c:394-623 | Sending a file appends exactly its packets and ends idle, so with all of them answered |
| Sender.Context.SendSymlink | scp_rdma/scp_rdma_sender.c:309-385 | Sending a link appends its two packets, the target cut to 4095 bytes |
| Sender.Context.SendTree | scp_rdma/scp_rdma_sender.c:754-760 | Dispatch on the file type appends exactly the packets of the tree |
| Sender.Context.SendDirectory | scp_rdma/scp_rdma_sender.c:625-735 | The directory loop appends DIR_ENTER, the packets of every entry that is not passed over, in order, and DIR_LEAVE |
| Sender.Context.SenderRun | scp_rdma/scp_rdma_sender.c:737-787 | Returns -1 exactly if one of the two inspections of the path fails; otherwise everything sent is the tree and TRANSFER_END, and the receiver has interpreted all of it |
| Receiver.SlotStable | scp_rdma/scp_rdma_receiver.c:150-175 | From the signal until the ACK is posted no step of NIC or sender changes the slot in hand |
| Receiver.SlotHolds | scp_rdma/scp_rdma_receiver.c:150-175 | The slot a signal names holds a valid header: that of the oldest packet not yet interpreted |
| Receiver.OthersServe | scp_rdma/scp_rdma_receiver.c:134-139 | While the receiver waits and the connection is not quiet, another party can take a step that uses up work |
| Receiver.EndMeansAll | scp_rdma/scp_rdma_receiver.c:297-304 | When TRANSFER_END has been interpreted, what was interpreted is everything that was ever sent |
| Receiver.Context.constructor | scp_rdma/scp_rdma_receiver.c:74-88 | A receiver just connected is in a reachable state and has interpreted nothing |
| Receiver.Context.Interfere | scp_rdma/scp_rdma_receiver.c:132-154 | Whatever NIC and sender do, the receiver's context and posted buffers stay, and the slot in hand keeps its content |
| Receiver.Context.ExtendWindow | scp_rdma/scp_rdma_receiver.c:116-124 | One more receive is posted, into the next ring buffer |
| Receiver.Context.SetUpWindow | scp_rdma/scp_rdma_receiver.c:114-130 | Seven more receives are posted and local_credits is eight, while the first message may already arrive |
| Receiver.Context.PollOne | rdma_trans_src/rdma_cdc/rdma_cdc.c:110-131 | One completion is taken; only a RECV ends the wait |
| Receiver.Context.CdcCompletion | rdma_trans_src/rdma_cdc/rdma_cdc.c:106-134 | Terminates: either with one RECV taken, or with the connection quiet and the sender beginning nothing more |
| Receiver.Context.ConsumeSignal | scp_rdma/scp_rdma_receiver.c:140-150 | The credit goes down by one and slot_id is read from the oldest posted buffer |
| Receiver.Context.ReadSlot | scp_rdma/scp_rdma_receiver.c:153-175 | Header check and later reads see one and the same packet: the oldest one sent and not interpreted |
| Receiver.Context.CarryOut | scp_rdma/scp_rdma_receiver.c:177-304 | Carrying out a packet keeps the files equal to what all packets interpreted so far make of the start |
| Receiver.Context.RepostReceive | scp_rdma/scp_rdma_receiver.c:305-319 | The receive is posted before the ACK, and the credit goes up by one |
| Receiver.Context.PostAck | scp_rdma/scp_rdma_receiver.c:321-342 | The ACK answers exactly the message just interpreted, with its slot, although copied from a reposted buffer; TRANSFER_END halts the receiver |
| Receiver.Context.HandleSignal | scp_rdma/scp_rdma_receiver.c:132-343 | One turn of the loop interprets exactly one more packet and ends at the loop head or halted |
| Receiver.Context.ReceiverRun | scp_rdma/scp_rdma_receiver.c:96-349 | The receive loop terminates, on TRANSFER_END or when nothing more is begun, with the files being what all packets sent make of the start, in order |
| Output.InterpWellFormed | scp_rdma/scp_rdma_receiver.c:177-304 | No packet leaves an entry without its parent directory, links or not |
| Output.Files.BuildPath | scp_rdma/scp_rdma_receiver.c:185-194 | The loops over slashes and snprintf give output directory, one slash and name, cut to 4095 characters |
| Output.Files.MakeParentDirs | scp_rdma/scp_rdma_receiver.c:205-210 | All directories above the path are made, nothing else |
| Output.Files.OnFileMeta | scp_rdma/scp_rdma_receiver.c:181-235 | FILE_META closes what was open, also where the target is a directory; otherwise it makes the directories above, and opens an empty file unless a link follows; ".." and links are resolved as stat, mkdir and open do; what this does at any path is said by Overwrite.FileAnywhere |
| Output.Files.OnFileData | scp_rdma/scp_rdma_receiver.c:236-270 | FILE_DATA writes at its offset into the open file, a gap before it reading as zeros, or unlinks what the path names, not what that leads to, and makes a link with the target cut to 4095 bytes (Overwrite.LinkData) |
| Output.Files.OnDirEnter | scp_rdma/scp_rdma_receiver.c:271-289 | DIR_ENTER makes the directory with all its ancestors |
| Output.Files.Execute | scp_rdma/scp_rdma_receiver.c:177-304 | The command switch has the effect of the packet on files and interpreter state, for every packet |
| Paths.PartsJoin | scp_rdma/scp_rdma_receiver.c:185-196 | Joining path strings with a slash joins their components |
| Paths.TargetParts | scp_rdma/scp_rdma_receiver.c:185-196 | If it is not cut, the path built has the components of the output directory and then those of the received name, whatever extra slashes there are |
| Paths.NamedParts | scp_rdma/scp_rdma_receiver.c:205-210 | A proper name after the last slash is the last component, and what precedes that slash has the components before it |
| Paths.PlainDescends | scp_rdma/scp_rdma_receiver.c:185-196 | Without ".." a path leads to a place at or below each place on its way |
| Paths.DotsCancel | scp_rdma/scp_rdma_receiver.c:185-196 | Anywhere in a path "." and an empty component lead nowhere else, ".." undoes the name before it, and at the root it stays there |
| Paths.LeadingGone | scp_rdma/scp_rdma_receiver.c:185-188 | Of a received name exactly the slashes at its start are dropped |
| Paths.TrailingGone | scp_rdma/scp_rdma_receiver.c:190-192 | Of the output directory exactly the slashes at its end are dropped |
| Paths.CutMisses | scp_rdma/scp_rdma_sender.c:432-432 | Without "..", cutting characters off a path that ends in a proper name never gives a path that leads to the same place |
| LinkFree.MkdirAllMakes | scp_rdma/scp_rdma_receiver.c:17-45 | If whatever exists on the way is a directory, all of the way and the path itself end up as directories |
| FileSystem.MakeDirsKeeps | scp_rdma/scp_rdma_receiver.c:17-45 | Making directories, through links or not, keeps what exists and adds only directories |
| FileSystem.MakeDirsStops | scp_rdma/scp_rdma_receiver.c:31-44 | Once one level cannot be made, making the rest changes nothing and the path still lands nowhere |
| LinkFree.MkdirAllKeeps | scp_rdma/scp_rdma_receiver.c:17-45 | Without links on the way only places on the way are added |
| LinkFree.FindsDirect | scp_rdma/scp_rdma_receiver.c:197-198 | Path resolution that follows links finds, on a path without links, exactly the place the components spell out, with ".." one step back, if every place before it is a directory, and nothing otherwise |
| FileSystem.LinkLeads | scp_rdma/scp_rdma_receiver.c:197-198 | A path that ends at a link leads where its target says: from the root if it begins with a slash, otherwise from the directory the link lies in |
| LinkFree.InterpIsDirect | scp_rdma/scp_rdma_receiver.c:177-304 | Where no link lies in the way, every packet does what the simple reading of its path says |
| FileSystem.MkdirCut | scp_rdma/scp_rdma_receiver.c:31-40 | The path buffer is cut at a slash, used, and restored |
| FileSystem.LoadPath | scp_rdma/scp_rdma_receiver.c:21-24 | The buffer holds the path without one trailing slash, naming the same place |
| FileSystem.MkdirRecursive | scp_rdma/scp_rdma_receiver.c:17-45 | The loop over the path buffer has the effect of making every missing prefix in order, with ".." and links resolved as mkdir does; it succeeds exactly if the path then exists |
| Chunks.DirectReadSame | scp_rdma/scp_rdma_sender.c:504-515 | Asking for whole 4 KiB blocks and cutting the count gives the count of an ordinary read |
| Chunks.ChunksAreGapFree | scp_rdma/scp_rdma_sender.c:483-613 | For any sequence of read results the chunks, put together, are the file from its start up to where the loop ends, each of one byte to 16 MiB |
| Chunks.ChunksAreNumbered | scp_rdma/scp_rdma_sender.c:519-527 | The chunks are numbered without a gap, each begins where the one before ended and holds that stretch of the file |
| Chunks.FullChunks | scp_rdma/scp_rdma_sender.c:483-517 | With full reads chunk k is FILE_DATA number k with the bytes from k * 16 MiB on, 16 MiB of them or up to the end of the file |
| Chunks.CompleteIff | scp_rdma/scp_rdma_sender.c:472-517 | If every read delivers at least m bytes or all it was asked for, the whole file is sent for all such reads exactly if total_chunks reads of m bytes cover it |
| Chunks.FullReadsComplete | scp_rdma/scp_rdma_sender.c:436-436 | With full reads the whole file is sent exactly if its size is at most (2^32 - 1) * 16 MiB, because total_chunks is a uint32_t |
| Chunks.SentIs | scp_rdma/scp_rdma_sender.c:483-517 | What is sent of a file, for any given read results: the sum of what the reads deliver before the first error, none more than a chunk and at most total_chunks of them, cut to the file; complete exactly if that sum reaches the size; Chunks.ShortReadTruncates shows one instance that is not and one that is |
| Trees.Announcements | scp_rdma/scp_rdma_sender.c:432-436 | A file is announced with its size and the number of its 16 MiB chunks modulo 2^32, a link with the length of its target, at most 4095, and one chunk, a directory is entered first and left last; names are cut to 255 characters; what is gone sends nothing |
| Trees.ChunksWrite | scp_rdma/scp_rdma_receiver.c:262-270 | Chunks written one after the other leave the open file equal to the bytes read |
| Trees.FileMetaStep | scp_rdma/scp_rdma_receiver.c:181-235 | FILE_META of a file, where no directory and no link lies, leaves exactly that file open and empty, whatever was open before and whatever it held |
| Trees.LinkMetaStep | scp_rdma/scp_rdma_receiver.c:181-235 | FILE_META of a link makes the directories above and leaves nothing open |
| Trees.RebuildFile | scp_rdma/scp_rdma_sender.c:394-623 | A file's packets leave at the place its path leads to exactly the bytes read, from any interpreter state, be it a new file or one that was there with any content; nothing else differs but the directories made above it |
| Trees.RebuildLink | scp_rdma/scp_rdma_sender.c:309-385 | A link's packets leave the link with its target at the place its path names, from any interpreter state, whatever file or link was there |
| Trees.Rebuild | scp_rdma/scp_rdma_sender.c:625-735 | The packets of any tree, interpreted where its place takes it (files over files, links over files and links, directories into directories, the root included), set exactly its entries and the directories on the way |
| Trees.RebuildAll | scp_rdma/scp_rdma_sender.c:664-712 | The packets of a directory's entries set exactly the images of those that are sent, whatever files or links their places held; Mirror.CountedIsPut and Mirror.PutIsCounted say which those are |
| Trees.TreeRoundTrip | scp_rdma/scp_rdma_sender.c:737-787 | A whole transfer rebuilds the tree where its path leads, be it through ".." or to the root directory, over files, links and directories of its own kind that are there; where nothing is there, nothing that was there changes |
| Trees.FullReadsAreExact | scp_rdma/scp_rdma_sender.c:493-517 | If every read is full, each file that arrives is its source, byte for byte; Mirror.FullEverywhere says the same for each place of the source tree |
| Mirror.CountedIsPut | scp_rdma/scp_rdma_sender.c:664-712 | Every place of a source tree that is to be copied (no name on the way is "." or "..", its stat call succeeds, and without recursion it is the top or an entry of it that is not a directory) is set at the receiver to what the source has there: a directory, a file with what its reads delivered, a link with its target. The places are defined by going down the tree, not by the loops of the sender |
| Mirror.PutIsCounted | scp_rdma/scp_rdma_sender.c:664-712 | Conversely every place a copy sets is such a place of the source tree |
| Mirror.PutMirrors | scp_rdma/scp_rdma_sender.c:625-735 | Where a tree is put, every place to be copied shows its source, and wherever something differs from the receiver's files with the directories on the way made, a place of the source tree lies that is to be copied |
| Mirror.TransferMirrors | scp_rdma/scp_rdma_sender.c:737-787 | A whole transfer of a tree whose paths are shorter than 256 characters mirrors the source: subdirectories included if recursive is on, exactly the top and its entries that are not directories if it is off; ".", ".." and entries whose stat call fails add nothing |
| Mirror.GenuineSendable | scp_rdma/scp_rdma_sender.c:625-735 | A tree as readdir and readlink deliver it can be sent if the remote paths of all places to be copied are shorter than 256 characters |
| Mirror.FullEverywhere | scp_rdma/scp_rdma_sender.c:493-517 | With full reads every file of the source tree, at any depth, is sent completely |
| Overwrite.FileAnywhere | scp_rdma/scp_rdma_receiver.c:181-235 | A file sent to any path whatever, whatever was open before: a directory there is left alone and nothing else changes; otherwise the directories above are made, and what the path then leads to, through links or not, holds exactly what the reads delivered, whatever it held before; if the path leads nowhere or asks for a directory no file is made; nothing else changes |
| Overwrite.FileOver | scp_rdma/scp_rdma_receiver.c:216-218 | At a path that leads to something, or to a new name in a directory, nothing but that one file changes, and it is truncated first |
| Overwrite.DataOver | scp_rdma/scp_rdma_receiver.c:262-270 | FILE_DATA of a file, whatever length it claims: in the open file exactly so many of the bytes are written from the offset on, zeros fill a gap before it, and nothing else changes; with nothing open nothing does |
| Overwrite.LinkData | scp_rdma/scp_rdma_receiver.c:240-260 | FILE_DATA of a link, whatever length it claims, replaces the file or link its path names by a link to the first bytes, at most 4095 and up to a NUL; a directory stays, and an empty target leaves nothing |
| Overwrite.LinkAnywhere | scp_rdma/scp_rdma_sender.c:309-385 | A link sent to any path whatever: the file or link its path names, not what that leads to, becomes the link with its target cut to 4095 bytes; a directory stays; nothing else changes but the directories made above |
| Overwrite.LinkOver | scp_rdma/scp_rdma_receiver.c:252-255 | At a path whose last component lies in a directory nothing but that one place changes |
| Overwrite.EnterOver | scp_rdma/scp_rdma_receiver.c:271-289 | DIR_ENTER of a directory that is there changes no file, nor what is open |
| Overwrite.LeaveCloses | scp_rdma/scp_rdma_receiver.c:290-304 | DIR_LEAVE and TRANSFER_END close what is open and change no file |
| Overwrite.TransferAgain | scp_rdma/scp_rdma_sender.c:737-787 | A second transfer of the same tree to the same path, from any interpreter state, ends with exactly the same files |
| Trees.Balanced | scp_rdma/scp_rdma_sender.c:633-733 | Every directory entered is left again, in nested order |
| Trees.PlainRoom | scp_rdma/scp_rdma_receiver.c:205-210 | A path of proper names has room if nothing is there and no ancestor is anything but a directory |
| Footprint.OnlyMay | scp_rdma/scp_rdma_receiver.c:177-304 | With no link in the way a packet changes nothing but the directories on its path, the place it names and the file that is open, and never a directory |
| Output.StreamKeepsDirs | scp_rdma/scp_rdma_receiver.c:177-304 | No packet stream removes a directory or leaves an entry without one, links or not |
| Footprint.StaysMissing | scp_rdma/scp_rdma_receiver.c:177-304 | No stream makes anything at a place that none of its names leads through or to |
| Arrival.SendableIff | scp_rdma/scp_rdma_sender.c:625-735 | A tree can be sent without loss exactly if its entries are what readdir and readlink deliver and every remote path sent is shorter than 256 characters |
| Arrival.UnfitLoses | scp_rdma/scp_rdma_sender.c:638-638 | If the path of an entry, at any depth, is 256 characters or longer, the tree does not arrive, because no name that fits leads so far |
| Arrival.ArrivesIff | scp_rdma/scp_rdma_sender.c:432-432 | A tree arrives, every entry at its place with what was read of it, exactly if the cut remote path leads to the same place, a file or link has no slash at its end there, and the paths of all entries sent are shorter than 256 characters; no link must lie in the way |
| Arrival.IntactIff | scp_rdma/scp_rdma_sender.c:432-432 | For a remote path without ".." that ends in a proper name the condition is that every remote path sent is shorter than 256 characters |
| Arrival.RebuildIff | scp_rdma/scp_rdma_sender.c:737-787 | For such a path the outcome is the receiver's files with the tree put in its place, and nothing else changed, exactly if every remote path sent is shorter than 256 characters |
| Arrival.LinklessRebuildIff | scp_rdma/scp_rdma_sender.c:737-787 | On a receiver without links, for a tree without links or a single link, that holds without a further condition |
| Arrival.LinkCarries | scp_rdma/scp_rdma_receiver.c:216-218 | With links it need not: a file whose path does not fit arrives through a link of the same directory that carries the cut name |
| Links.ClearFree | scp_rdma/scp_rdma_receiver.c:177-304 | A stream none of whose names leads through or to a place where it has put a link never meets a link, at any moment, on a receiver without links |
| Links.SendableClear | scp_rdma/scp_rdma_sender.c:625-735 | The packets of a tree with links, sent to a path without ".." and with names that fit, never lead through a link made before, and all their links lie in the place of the tree |
| Containment.TameStays | scp_rdma/scp_rdma_receiver.c:185-289 | Packets whose places stay inside change nothing outside the output directory |
| Containment.WildLeadsOut | scp_rdma/scp_rdma_receiver.c:185-289 | For any other stream there is a receiver on which something outside is made, emptied or replaced by a link |
| Containment.ContainedIff | scp_rdma/scp_rdma_receiver.c:185-289 | Exactly when a packet stream changes nothing outside the output directory, at any moment and on any receiver with links at given places only: when every place its names pass or end at is inside or a directory of the output path; for every stream that goes neither through these links nor through its own |
| Containment.SessionContained | scp_rdma/scp_rdma_sender.c:737-787 | A session whose remote path has no ".." changes nothing outside the output directory, at any moment, even where names are cut; no link may lie inside the output directory or, if all names fit, at least none above, at or below the place of the tree; if links are sent, names must fit and the output path must not pass the place of the tree |
| Containment.DotDotLeadsOut | scp_rdma/scp_rdma_main.c:145-162 | A directory sent under the remote path ".." overwrites the file of the same name next to the output directory, and changes nothing else; Containment.ParentAsSource is the instance base /out, remote path /.., file /x |
| Containment.LinkLeadsOut | scp_rdma/scp_rdma_receiver.c:236-260 | A stream of tame names that sends a link to the root and then a file through it empties a file outside |
| CdcRing.ClashIff | rdma_trans_src/rdma_socket/rdma_trans.c:36-44 | The ring hands out a buffer that is still outstanding exactly if as many are outstanding as it has |
| CdcRing.Ring.constructor | rdma_trans_src/rdma_socket/rdma_trans.c:770-804 | The ring starts with zeroed buffers and both indices at the first |
| CdcRing.Ring.AcquirePostBuf | rdma_trans_src/rdma_socket/rdma_trans.c:36-44 | The j-th buffer handed out is the j-th of the rotation and none outstanding, as long as fewer are outstanding than there are |
| CdcRing.Ring.ConsumeBuf | rdma_trans_src/rdma_socket/rdma_trans.c:46-55 | The j-th buffer consumed is the j-th that was posted, and is remembered as the last consumed |
| Completions.NoLostWakeup | rdma_trans_src/rdma_socket/rdma_trans.c:618-656 | Drained, armed and then found empty, it is safe to sleep from any starting mix of stale events and arming, whatever the NIC inserts between the steps and afterwards |
| Completions.WokenIff | rdma_trans_src/rdma_socket/rdma_trans.c:658-669 | A program that sleeps safely is woken exactly if a completion arrives |
| Completions.EveryStepNeeded | rdma_trans_src/rdma_socket/rdma_trans.c:618-656 | Leaving out the second poll or the arming can lose a wakeup for good, leaving out the draining wakes up for nothing |
| Completions.Queue.PollCq | rdma_trans_src/rdma_socket/rdma_trans.c:613-616 | A poll returns the oldest completions in order, none only if there are none |
| Completions.Queue.DrainEvents | rdma_trans_src/rdma_socket/rdma_trans.c:628-640 | Draining ends although the NIC goes on, with no event left and events read equal to events acknowledged |
| Completions.Queue.DrainAndArm | rdma_trans_src/rdma_socket/rdma_trans.c:618-646 | If the queue is found empty after arming, it is safe to sleep |
| Completions.Queue.EpollWait | rdma_trans_src/rdma_socket/rdma_trans.c:658-669 | Entered only when it is safe to sleep; readable means an event, timed out means none |
| Completions.Queue.SecondPoll | rdma_trans_src/rdma_socket/rdma_trans.c:618-656 | After draining and arming, a second poll either returns completions or leaves the queue empty and safe to sleep on |
| Completions.Queue.TakeEvent | rdma_trans_src/rdma_socket/rdma_trans.c:671-694 | After a readable wait the event is there, is acknowledged, and the last poll returns at least one completion |
| Completions.Queue.AsyncWaitCompletion | rdma_trans_src/rdma_socket/rdma_trans.c:608-695 | Returns the next completions exactly once and in order, with events read equal to events acknowledged. They come from the first poll or from the one after draining and arming; if both are empty, exactly one wait is entered, with the queue empty and safe to sleep, and what is returned is how that wait ended: a third poll that is never empty if it was readable, else none. A time-out means that the queue is empty |
| Completions.Queue.Batches | rdma_trans_src/rdma_socket/rdma_trans.c:608-695 | Any number of waits in a row together return the completions inserted, in order, none dropped or repeated |
| Completions.Queue.CdcCompletion | rdma_trans_src/rdma_cdc/rdma_cdc.c:106-134 | Succeeds exactly if a RECV is still to come, and then takes exactly one, as the last completion polled |
| Layout.FromLeLe | scp_rdma/scp_rdma_protocol.h:79-86 | A field that fits its width is read back |
| Layout.UnpackPack | scp_rdma/scp_rdma_protocol.h:79-111 | Any packed structure whose fields fit is read back field by field |
| Layout.PackUnpack | scp_rdma/scp_rdma_protocol.h:79-111 | Reading a packed structure and storing it again gives the same bytes |
| Layout.ChunkStaysInSlot | scp_rdma/scp_rdma_sender.c:499-564 | For every chunk of every file the rounded-up direct read and the gathered write stay inside their slot, and data regions stay 4 KiB-aligned |
| Layout.InitPacketHeader | scp_rdma/scp_rdma_protocol.h:148-157 | The stores of scp_init_packet_header leave the 16 header bytes and change nothing else |
| Layout.FillChunkHeader | scp_rdma/scp_rdma_sender.c:519-527 | Zeroing and filling in leave the 36 bytes of a chunk header with checksum zero, and change nothing else; what the receiver takes these bytes for is said by Wire.ChunkRead |
| Layout.RdmaWrite | rdma_trans_src/rdma_socket/rdma_trans.c:281-335 | The two elements land without a gap at the start of the remote slot, and nothing else changes |
| Layout.AcceptedIff | scp_rdma/scp_rdma_protocol.h:162-170 | A header is accepted exactly if it starts with the bytes of the magic number and of the version; otherwise the verdict says which of the two is wrong |
| Layout.ReadChunk | scp_rdma/scp_rdma_receiver.c:153-175 | A slot that holds a chunk is accepted and read as that chunk: same index, length, offset and data; of any other slot the verdict, the fields that its 36 bytes pack, and the data behind them |
| Layout.ChunkThroughSlot | scp_rdma/scp_rdma_sender.c:499-564 | A chunk of any index, offset and length up to 16 MiB, through any slot, is read with the same fields and the same data, its header accepted, and nothing outside the slot changes on either side; that it is taken for a FILE_DATA is said by Wire.ChunkTakenThroughSlot |
| Wire.HeaderIs | scp_rdma/scp_rdma_protocol.h:148-157 | A header is the sixteen bytes 52 50 43 53, version 1, the command, two zero bytes, the payload length and four zero bytes |
| Wire.RefusedIff | scp_rdma/scp_rdma_protocol.h:162-170 | The receiver refuses a slot exactly if the header check fails, with its verdict |
| Wire.MetaRead | scp_rdma/scp_rdma_receiver.c:181-196 | The bytes of a FILE_META are taken for that packet: command 1, the name up to its NUL cut to 255 characters, size, kind and number of chunks |
| Wire.ChunkRead | scp_rdma/scp_rdma_receiver.c:236-270 | A chunk header with the data behind it is taken for FILE_DATA, command 2, with its index, length, offset and exactly these data |
| Wire.EnterRead | scp_rdma/scp_rdma_receiver.c:271-289 | The bytes of a DIR_ENTER are taken for that packet, command 3, with the name cut to 255 characters |
| Wire.LeaveRead | scp_rdma/scp_rdma_receiver.c:290-296 | A header with command 4 is taken for DIR_LEAVE, whatever lies behind it |
| Wire.EndRead | scp_rdma/scp_rdma_receiver.c:297-304 | A header with command 5 is taken for TRANSFER_END |
| Wire.MetaThroughSlot | scp_rdma/scp_rdma_sender.c:421-466 | The metadata of a file or link, filled in field by field and written, is taken for the FILE_META meant, and only its 300 bytes change on either side |
| Wire.LinkDataThroughSlot | scp_rdma/scp_rdma_sender.c:350-378 | The target of a link, behind a chunk header in slot 0, is taken for the FILE_DATA meant |
| Wire.EnterThroughSlot | scp_rdma/scp_rdma_sender.c:633-662 | The directory packet, filled in and written, is taken for the DIR_ENTER meant |
| Wire.LeaveThroughSlot | scp_rdma/scp_rdma_sender.c:714-732 | The sixteen bytes of a leave packet, written over whatever the slot held, are taken for DIR_LEAVE |
| Wire.EndThroughSlot | scp_rdma/scp_rdma_sender.c:767-785 | The last packet, filled in and written, is taken for TRANSFER_END |
| Wire.ChunkTakenThroughSlot | scp_rdma/scp_rdma_sender.c:499-564 | A chunk through any slot is taken for the FILE_DATA the chunk loop means, with the bytes of the data region, and nothing outside the slot changes on either side |
| Layout.ZeroedIsInvalid | scp_rdma/scp_rdma_protocol.h:162-170 | A slot that was never written fails the header check with -1 |
| Layout.NameRoundTrip | scp_rdma/scp_rdma_sender.c:432-432 | A name is read back cut to 255 bytes, hence completely exactly if it is shorter than its field |
| Crc32.Checksum | scp_rdma/scp_rdma_protocol.h:175-187 | The nested loops compute the checksum that the properties below are about, for every buffer |
| Crc32.EightBits | scp_rdma/scp_rdma_protocol.h:182-184 | The inner loop absorbs one byte |
| Crc32.CheckValue | scp_rdma/scp_rdma_protocol.h:175-187 | The checksum of the digits 1 to 9 is CBF43926, the check value of CRC-32 |
| Crc32.StepBijective | scp_rdma/scp_rdma_protocol.h:183-183 | The bit step can be undone, on both sides |
| Crc32.RunInjective | scp_rdma/scp_rdma_protocol.h:175-187 | From different states the same bytes never lead to the same state |
| Crc32.BurstDetected | scp_rdma/scp_rdma_protocol.h:175-187 | Buffers of equal length that differ, only within four consecutive bytes, have different checksums |
| Crc32.FiveBytesCanCollide | scp_rdma/scp_rdma_protocol.h:175-187 | Four is exact: two buffers that differ in five consecutive bytes and have the same checksum |
| Crc32.TableAgrees | scp_rdma/scp_rdma_protocol.h:175-187 | The table-driven CRC of section 8 of RFC 1952 gives the same checksum for every buffer |
| Crc32.CrcAppend | scp_rdma/scp_rdma_protocol.h:175-187 | The checksum of a concatenation continues from the first part's checksum |
| Crc32.CrcAffine | scp_rdma/scp_rdma_protocol.h:175-187 | The checksum is affine over buffers of equal length |

## Left out

- Sender.Context.AwaitCompletion: assumes fairness, namely that a NIC or receiver that can move eventually does; without it no waiting loop ends. The 100 ms time-outs of the harvest loop appear only as waits that return no completion.
- Receiver.Context.CdcCompletion: polls until a RECV arrives, or until the sender begins no more packets and everything is quiet; the program itself then polls forever. How much the sender may still begin is the parameter `budget`; `Session.Receive` sets it to what the session's tree allows (`Progress.BegunByPackets`).
- Output.Files.MakeParentDirs: for an output directory made of slashes only, the program calls `scp_mkdir_recursive` with an empty path, which reads before the start of its buffer; the model makes no directory there.
- Completions.Queue.AsyncWaitCompletion: errors of `ibv_poll_cq` and `ibv_req_notify_cq` are not modelled; failed and interrupted waits are.
- Layout.ReadChunk: of metadata and directory packets it says only what their first 36 bytes hold; `Wire.Read` covers all commands. The protocol carries packets as values; `Wire` connects them to bytes, except that a command the receiver passes over (`PassedOver`) is not one of the packets, and that data longer than the slot is cut at its end.
- Error completions, failed posts, failed `open`, `opendir` and `readlink`, and short writes at the receiver: the protocol theorems are about error-free runs; failed and short `pread`s are covered.
- Delivery of the last ACK after the receiver has left its loop: assumed, as for every posted SEND.
- Capacity of send and completion queues (512 and 864 entries) and the time at which completions free them.
- Marking a slot busy and posting its signal are one step; they run in one thread, so nothing can be handled between them.
- Device, protection domain, queue pair and memory registration, queue pair state changes and teardown; TCP connection and exchange of connection data.
- File and directory modes (apart from the field in the packet), umask, modification times, statistics counters, progress display and debug output.
- Trees.TreeRoundTrip: asks that real directories lie above, and that what lies at the places of the tree is of its kind (a file or nothing for a file, anything but a directory for a link, a directory or nothing for a directory). A file sent over a link, or over a directory, is stated for each file by itself (`Overwrite.FileAnywhere`), not for trees.
- Containment.ContainedIff: the stream goes neither through the receiver's links nor through its own; what happens otherwise depends on where the links lead and which of them could be made (`Containment.LinkLeadsOut`).
- Arrival.ArrivesIff: the same condition on links, without which it is false (`Arrival.LinkCarries`); and, for a remote path of 256 characters or more, a place where nothing is yet.
- Paths are taken from the root: a relative output directory is meant with the working directory before it. Permissions, mount points, special files, and limits on name and path length of the file system.
- Mirror.TransferMirrors: contents of files, targets of links and names; modes and times are not modelled.
- Cyclic links on the sending side when links are followed: a tree is finite.
- Local paths, `stat` against `lstat`: a tree is what the chosen call reports; an entry whose call fails is `Gone`.
- Creating the output directory before the connection, and the use of the working directory when none is given.
- The CDC ring appears twice on purpose: `CdcRing.Ring` is the ring of rdma_trans.c by itself, with its buffers in an array, and the two contexts hold the ring's indices among their own fields because the NIC of the machine writes the buffers. Both advance by the same function (`CdcRing.Advance`), and `Safety.SenderRing` and `Safety.ReceiverRing` rest on `CdcRing.ClashIff`.
- The slot index and ring pointers as C integers: the invariant keeps them in range, so no wrap-around occurs; file sizes and offsets are unbounded except where the source's width matters (`total_chunks`, packed fields).
