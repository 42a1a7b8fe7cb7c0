# The AESD character driver and its socket server, verified

The driver keeps the last ten newline-terminated commands written to it and shows them to readers as one
flat file. Underneath it has a ring of rotating slots with two indices and a `full` flag, a growing
buffer for the command under construction that is moved (not copied) into the ring once it holds a
newline, a position per open file, and one mutex. Five operations walk the ring in four slightly
different loops. Above it, a socket server runs one thread per connection; a thread holds a session mutex
for its whole conversation, appends what it receives to the device, and serves seek commands by seeking
and draining.

This project models both and proves that they agree with a very small specification: a log of commands,
of which the last `N` are the file, and some pending bytes. `N` is any positive capacity (the driver's is
10); command sizes, histories, numbers of threads, files and connections are unbounded.

## Layers

| file | what it holds |
|---|---|
| `Bytes`, `CommandLog`, `DeviceSpec` | the specification: the log, its window, prefix sums and lookup; each driver call as a function |
| `Modular`, `RingLayout` | how slots and indices encode the log, and what a walk over the slots meets |
| `Stream`, `Positions`, `Delivery`, `Calls` | theorems about the specification: conservation, the splitter, chunking, NULs; reads, seeks, positions, eviction; what each call replies and changes, and what a seek with reads after it delivers |
| `KernelMemory`, `CircularBuffers`, `AesdDevice` | the driver as classes over arrays, updated in place, each method proved against the specification |
| `MicroSteps`, `CallInvariants`, `Linearizability`, `Consequences` | the driver as threads taking micro-steps over shared memory with explicit pointers; every interleaving is a run of the specification |
| `Sessions`, `Connection` | what a conversation means; the connection handler as loops over the device class, with stdio's `fread` in between |
| `ServerMachine`, `ServerSafety`, `ServerChunks`, `ServerProgress` | all connection threads with their four mutexes, a device call being one step: sessions in order, every chunk done with once and rightly, drains that send one snapshot, no deadlock, termination |
| `ServerOnDriver` | the two put together: connection threads whose device calls are the driver's micro-steps; every interleaving is a run of the server machine |

A successful read, write, seek or ioctl, each of its error returns, and partial copies from and to user
memory are all modelled. What depends on the environment is a parameter: how many bytes user memory gives
or takes, whether an allocation succeeds, how much slack it has and what is in it, what `sscanf` makes of a chunk,
whether an open or a send succeeds, in which pieces stdio writes, and whether stdio heeds the end-of-file flag
of a stream. Nothing fails in the model unless one of these says so.

## What the proofs found

- The ioctl checks the offset against *physical* slot `write_cmd` but sums sizes from `out_offs`. In a given
  state it keeps the interface's promise for all arguments exactly when each physical slot holds a command
  of the same size as the logical command of that number (`Positions.SeeksAsPromisedHere`). It does so
  after all runs with `k` commits exactly when `out_offs == 0`, that is for `k <= N` and for multiples of `N`
  (`SeeksAsPromisedExactly`); for every other `k` there is a run after which a seek to a byte that exists is
  refused (`LopsidedBreaksSeek`).
- A NUL byte among the pending bytes stops the newline test for good: the device can commit again exactly
  when no NUL is pending (`Stream.CommitsAgainIffNoNul`).
- The newline test runs on memory with no guaranteed terminator. What lies behind the logical end is
  irrelevant exactly when the logical bytes hold a newline or a NUL (`Bytes.StrchrPastTheEnd`). The rest of
  the model looks at the logical bytes only.
- A failed reallocation overwrites the pointer to the pending bytes but keeps their count: the pending
  bytes are lost, and the next successful write puts others, as many as there were, in front of its own
  (`DeviceSpec.Apply`, `AesdDevice.Device.Write`). Reads and seeks are not affected. A failed first
  allocation changes nothing.
- The file is sent back through one stdio stream per connection. If stdio heeds the end-of-file flag of a
  stream, a connection gets the file at most once: after the first time in full, every later newline on that
  connection is answered with nothing, whatever has been written since (`Connection.SecondEcho`). If it does
  not, every later one is answered with what has come since.
- Open files stay inside the flat file in all runs with at most `K` commits exactly when `K <= N`; one
  eviction can strand a position (`Positions.PositionsSafeExactly`).
- In the middle of adding an entry memory represents no log at all, and that state is reachable
  (`Linearizability.MidAddReachable`): it is the mutex that hides it.

## Model

| member | source | states |
|---|---|---|
| Bytes.StrchrPastTheEnd | aesd-char-driver/main.c:117 | bytes behind the logical end of the buffer never change the outcome of the newline test, iff a newline or a NUL is among the logical bytes |
| Bytes.HasNewlineConcat | aesd-char-driver/main.c:117 | the newline test over two joined pieces: a NUL in the first hides the second |
| CommandLog.LocateBrackets | aesd-char-driver/aesd-circular-buffer.c:27-36 | the (command, offset) found for a position p satisfies prefix(c) + r = p < prefix(c + 1) |
| CommandLog.LocateUnique | aesd-char-driver/aesd-circular-buffer.c:27-36 | every (command, offset inside it) is what the lookup returns at its prefix sum plus offset; with LocateBrackets pairs and positions below the total are in bijection |
| CommandLog.SliceIsFlat | aesd-char-driver/main.c:74-80 | bytes taken inside one command are the bytes of the flat file at its prefix sum |
| CommandLog.WindowConserves | aesd-char-driver/aesd-circular-buffer.c:45-50 | evicted commands followed by the flat file are the whole log: the ring loses nothing else |
| CommandLog.CommitContents | aesd-char-driver/aesd-circular-buffer.c:45-50 | a commit appends to the flat file below capacity, and first drops exactly the oldest command from its front at capacity |
| RingLayout.ClosedForm | aesd-char-driver/aesd-circular-buffer.c:45-56 | after any k commits in_offs is k mod N, and out_offs is 0 for k < N and k mod N from then on |
| RingLayout.IndicesAdvance | aesd-char-driver/aesd-circular-buffer.c:46-50 | one add takes both indices and the flag from their values after k commits to those after k + 1, so full never reverts |
| RingLayout.InOffsPlace | aesd-char-driver/aesd-circular-buffer.h:38-51 | the next write goes right behind the last command while the ring is not full, and onto the oldest one from then on |
| RingLayout.SlotAt | aesd-char-driver/aesd-circular-buffer.c:29-35 | step c of a walk from out_offs meets the c-th oldest command, and an empty slot past the last one: what the loops that test no flag rely on |
| RingLayout.StoreHolds | aesd-char-driver/aesd-circular-buffer.c:45 | overwriting the slot at in_offs turns slots that hold a log into slots that hold the log with one more command, partly filled or full |
| RingLayout.AddRepresents | aesd-char-driver/aesd-circular-buffer.c:45-50 | slots, indices and flag that represent a log represent the log plus the new command after an add |
| RingLayout.SlotPhysical | aesd-char-driver/main.c:191 | which command of the window a physical slot number holds after any number of commits |
| RingLayout.WalkSumFinds | aesd-char-driver/aesd-circular-buffer.c:30-33 | the step at which the running total passes a position is the command that holds it, at the difference |
| RingLayout.WalkSumAll | aesd-char-driver/main.c:138-142 | the running total past the last command is the length of the flat file, however many empty slots are added |
| RingLayout.NextIndex | aesd-char-driver/aesd-circular-buffer.c:29 | the remainder step of every loop is a wrap-around by at most one capacity |
| Stream.WritesFollowSplitter | aesd-char-driver/main.c:96-121 | any run of writes commits exactly the groups a simple splitter makes of the chunks, and leaves its remainder pending |
| Stream.StreamConserved | aesd-char-driver/main.c:96-124 | after any run of any calls the accepted bytes are evicted commands, flat file and pending bytes in that order |
| Stream.CommandsAreSplit | aesd-char-driver/main.c:96-124 | after any run of any calls the file is made of the last N commands of the splitter, and its remainder is pending |
| Stream.RunWrites | aesd-char-driver/main.c:58-212 | nothing but accepted chunks changes log and pending bytes; chunks whose bytes a failed reallocation has lost count as what stood in for them |
| Stream.CommittedWrites | aesd-char-driver/main.c:115-121 | the chunks of the complete commands alone make the same commands again, and leave nothing pending |
| Stream.GroupsCover | aesd-char-driver/main.c:115-121 | the splitter's groups and remainder are the chunks in order |
| Stream.GroupsCut | aesd-char-driver/main.c:117-121 | a group passes the newline test with its last chunk and not before, and the remainder does not pass it |
| Stream.GroupsAgain | aesd-char-driver/main.c:117-121 | splitting the chunks of complete commands again gives the same commands |
| Stream.NewlinesOnlyInLastChunk | aesd-char-driver/main.c:115-121 | for NUL-free chunks pending bytes are free of newlines, and each stored command has all its newlines, at least one, in its last chunk |
| Stream.ChunkingExact | aesd-char-driver/main.c:97-121 | writing a then b equals writing a ++ b, iff a does not complete a command or b is empty |
| Stream.AnySplitIsOneWrite | aesd-char-driver/main.c:97-121 | every split of a command that only its final chunk completes ends as one write of the whole |
| Stream.NulJams | aesd-char-driver/main.c:117 | with a NUL pending every further byte is only appended to the pending ones |
| Stream.CommitsAgainIffNoNul | aesd-char-driver/main.c:117 | some further writes commit a command, iff no NUL is pending |
| Stream.PendingIncomplete | aesd-char-driver/main.c:117-121 | between calls the pending bytes never pass the newline test and every stored command does |
| Positions.ReadIsFlat | aesd-char-driver/main.c:67-86 | a read yields the flat bytes at its position, at most count, nothing only at the end (or for count 0), and fails only when user memory is short; how many bytes, Calls.ReadCall says |
| Positions.DrainToEnd | aesd-char-driver/main.c:67-86 | reads of any positive counts yield the whole rest of the file exactly when the next read returns nothing, within as many reads as bytes are left |
| Positions.SeekExact | aesd-char-driver/main.c:144-164 | despite 64-bit wrap-around llseek accepts exactly the true sums inside the file, and only with the three known origins |
| Positions.SeekEndDrainsSuffix | aesd-char-driver/main.c:138-164 | seeking k back from the end and draining yields exactly the last k bytes |
| Positions.PromisedRoundTrip | aesd-char-driver/aesd_ioctl.h:25-34 | the promised seek to (c, o) gives p, iff the lookup at p gives (c, o) |
| Positions.SeeksAsPromisedHere | aesd-char-driver/main.c:191-202 | in one state the ioctl keeps the promise for all arguments, iff physical and logical slots of the same number hold commands of the same size |
| Positions.ReachableLogs | aesd-char-driver/main.c:96-121 | a log is reached by some run of calls, iff every command in it passes the newline test |
| Positions.WholeWritesRun | aesd-char-driver/main.c:96-121 | writing the commands of a log one by one to a new device leaves exactly that log and nothing pending |
| Positions.LopsidedBreaksSeek | aesd-char-driver/main.c:191-199 | for every rotated ring a run of writes from a new device after which a seek to byte 1 of command 0, which exists, is refused |
| Positions.SeeksAsPromisedExactly | aesd-char-driver/main.c:191-202 | the ioctl keeps the promise after all runs with k commits, iff out_offs is then 0, iff k <= N or N divides k |
| Positions.RunKeepsRange | aesd-char-driver/main.c:84-202 | no run that ends with at most N commits moves any position out of the file |
| Positions.StrandingRun | aesd-char-driver/main.c:191-202 | for every capacity a run with one eviction that leaves a position past the end |
| Positions.PositionsSafeExactly | aesd-char-driver/main.c:84-202 | all runs with at most K commits keep all positions inside the file, iff K <= N |
| Positions.EvictionShiftsReads | aesd-char-driver/aesd-circular-buffer.c:45-50 | after a commit that evicts s bytes a read at p has exactly the outcome a read at p + s had before, as long as p + s was inside the file |
| Calls.ReadCall | aesd-char-driver/main.c:67-86 | a read inside command c returns exactly min(count, bytes up to the end of that command) bytes of the file and moves its own file past them; it fails with EFAULT iff user memory takes fewer, and then changes nothing |
| Calls.ReadExact | aesd-char-driver/main.c:74-83 | the same of the reply alone, in terms of prefix sums |
| Calls.ReadPastEnd | aesd-char-driver/main.c:68-72 | a read at or past the end returns nothing and changes nothing |
| Calls.WriteCall | aesd-char-driver/main.c:96-123 | a write that finds memory returns the number of bytes copied; what the device has received grows by exactly these (after others in place of lost ones); a command is committed iff strchr finds a newline in the pending bytes; no file moves |
| Calls.WriteStarves | aesd-char-driver/main.c:97-107 | without memory the call fails with ENOMEM, log, pending count and files stay, and pending bytes are lost iff there were any |
| Calls.LlseekCall | aesd-char-driver/main.c:144-166 | an llseek that replies with a position has moved its own file there and nothing else; otherwise EINVAL and nothing changes; in the 64-bit range it succeeds iff the true sum lies inside the file, and replies with it |
| Calls.SeekToCall | aesd-char-driver/main.c:187-205 | the ioctl tests the offset against the size of that visible command whose number has remainder cmd, and moves its own file to the sizes of the cmd oldest commands plus the offset; otherwise EINVAL and nothing changes |
| Calls.SeekToRefused | aesd-char-driver/main.c:191-194 | a command number that the ring does not hold is refused and changes nothing |
| Calls.OwnerNumber | aesd-char-driver/main.c:191 | physical slot c holds the visible command whose number has remainder c |
| Calls.ReadsAfter | aesd-char-driver/main.c:67-86 | in any run of calls, reads of one file at the end of the run deliver in their replies the flat file from where it stood, without gap or repetition, at least a byte each until the end, and change nothing else |
| Calls.SeekEndDelivers | aesd-char-driver/main.c:128-167 | llseek(-k, SEEK_END) followed by at least k reads of any positive counts replies with exactly the last k bytes and leaves the file at the end |
| Calls.SeekToDelivers | aesd-char-driver/main.c:184-205 | an accepted ioctl followed by enough reads replies with the file from the position it lands on to the end, and nothing past the end |
| KernelMemory.Krealloc | aesd-char-driver/main.c:102 | grows in place or moves with the used bytes kept, hands out a new buffer if there is none to grow, and yields NULL only if it must allocate and cannot |
| KernelMemory.CopyFromUser | aesd-char-driver/main.c:108 | the copied bytes land behind the bytes in use, zeros behind those for the rest, and nothing else changes; the number not copied is reported |
| KernelMemory.CopyToUser | aesd-char-driver/main.c:80 | user memory receives the bytes from the offset on, as many as it takes; the rest of it stays |
| KernelMemory.StrchrNewline | aesd-char-driver/main.c:117 | the scan over the array finds a newline, iff one occurs before the first NUL of the logical bytes |
| CircularBuffers.CircularBuffer.constructor | aesd-char-driver/aesd-circular-buffer.c:53-56 | zeroed fields represent the empty log |
| CircularBuffers.CircularBuffer.Advance | aesd-char-driver/aesd-circular-buffer.c:46-50 | takes both indices and the flag from where they are after k adds to where they are after k + 1, for every k |
| CircularBuffers.CircularBuffer.AddEntry | aesd-char-driver/aesd-circular-buffer.c:40-51 | the log grows by the bytes of the entry; one slot changes; the buffer itself is kept, not copied |
| CircularBuffers.CircularBuffer.FindEntryOffsetForFpos | aesd-char-driver/aesd-circular-buffer.c:21-37 | finds the slot and offset of the command that holds the position, and nothing iff the position is at or past the total |
| CircularBuffers.CircularBuffer.ValidShows | aesd-char-driver/aesd-circular-buffer.c:29-35 | in every valid ring a walk meets the sizes of the visible commands and then zeros |
| CircularBuffers.CircularBuffer.ValidStops | aesd-char-driver/main.c:140-188 | the test i == in_offs && !full holds right behind the last visible command |
| CircularBuffers.CircularBuffer.SeeksSlot | aesd-char-driver/main.c:191-202 | the specified ioctl in terms of the physical slot that the code looks at |
| CircularBuffers.CircularBuffer.EntryAt | aesd-char-driver/main.c:68-79 | the entry found holds the bytes of the located command and the offset is the located one; nothing iff the position is at or past the end |
| AesdDevice.Device.constructor | aesd-char-driver/main.c:249 | a zeroed device is valid, with an empty log and nothing pending |
| AesdDevice.InitModule | aesd-char-driver/aesd-circular-buffer.h:19 | the module's device has room for ten commands and an empty file |
| AesdDevice.Device.Reserve | aesd-char-driver/main.c:97-107 | makes room for count more bytes with the pending ones kept; succeeds whenever memory is available, and without memory iff there is a buffer with pending bytes that is large enough; on failure the pointer is NULL and the size stays |
| AesdDevice.Device.Append | aesd-char-driver/main.c:108-115 | exactly the copied bytes join the pending ones, and their number is returned |
| AesdDevice.Device.CommitIfComplete | aesd-char-driver/main.c:117-121 | pending bytes that pass the newline test become the newest command and none stay pending; otherwise nothing changes; no two owners share a buffer |
| AesdDevice.Device.TakeIn | aesd-char-driver/main.c:108-121 | copying and committing together have the effect of the specified write |
| AesdDevice.PartDelivered | aesd-char-driver/main.c:80 | a copy of which user memory takes a part leaves that part in front of what was there |
| AesdDevice.Device.Write | aesd-char-driver/main.c:89-124 | succeeds whenever memory is available, and without memory iff the bytes fit the buffer of a nonempty pending command; success accepts the copied bytes as specified; a failed first allocation changes nothing; a failed reallocation loses the pending bytes but not their count, and the next write brings others back in their place; no buffer of the ring is written |
| AesdDevice.Device.Read | aesd-char-driver/main.c:58-87 | the reply and the new position are those of the specified read, also with pending bytes lost; user memory gets the bytes of the read, or as many as it takes before EFAULT, and keeps the rest; the device stays as it is |
| AesdDevice.Device.TotalSize | aesd-char-driver/main.c:138-142 | the loop adds up to the length of the flat file although it adds the slot at in_offs before it stops |
| AesdDevice.Device.NewPosition | aesd-char-driver/main.c:144-162 | within the range of its 64-bit types wrap-around lets no wrong position through: exactly the true sums inside the file are accepted |
| AesdDevice.Device.Llseek | aesd-char-driver/main.c:128-167 | reply and position as specified, also with pending bytes lost; on an error the position stays |
| AesdDevice.Device.CountCommands | aesd-char-driver/main.c:187-189 | the first loop of the ioctl counts the visible commands, min(k, N) |
| AesdDevice.Device.SizeBefore | aesd-char-driver/main.c:196-199 | the second loop of the ioctl adds up to the prefix sum of the command |
| AesdDevice.Device.UnlockedIoctl | aesd-char-driver/main.c:169-212 | reply and position as specified, for each of the three errors too, also with pending bytes lost |
| MicroSteps.HeapBytes | aesd-char-driver/aesd-circular-buffer.h:21-31 | an entry stands for as many bytes as its size says |
| CallInvariants.AllocateHolds | aesd-char-driver/main.c:97-107 | allocating, growing in place, moving or failing keeps the ring; on success the pending bytes, or others in place of lost ones, are in a buffer apart from all slots; on failure they are lost if there were any |
| CallInvariants.CopyHolds | aesd-char-driver/main.c:108 | writing one byte, or a zero for one that cannot be copied, behind the pending ones disturbs no slot |
| CallInvariants.IndexHolds | aesd-char-driver/aesd-circular-buffer.c:46-50 | the three index updates, one at a time, take the indices from k commits to k + 1 while the slots hold the new log |
| Linearizability.ReadyStepHolds | aesd-char-driver/main.c:108-121 | once it has found memory a write keeps the same course as one begun in the state it builds on |
| Linearizability.ReadStepHolds | aesd-char-driver/main.c:67-86 | every micro-step of a read stays on course for the specified reply |
| Linearizability.LlseekStepHolds | aesd-char-driver/main.c:135-166 | every micro-step of an llseek stays on course for the specified reply |
| Linearizability.SeekStepHolds | aesd-char-driver/main.c:184-205 | every micro-step of an ioctl stays on course for the specified reply |
| Linearizability.MicroStepHolds | aesd-char-driver/main.c:67-205 | every micro-step of the mutex holder is memory-safe and keeps its call on course |
| Linearizability.Linearizable | aesd-char-driver/main.c:67-205 | in every interleaving of any number of threads, allocation failures included, the replies are those of the same calls run one after another in the order they took the mutex, each given to the thread that made the call; whenever the mutex is free memory represents the state that run reaches; only the thread of the last call is inside, and its next step is memory-safe |
| Linearizability.SlotsAlwaysOwned | aesd-char-driver/main.c:118-120 | at every point of every call no two occupied slots share a buffer |
| Linearizability.CommittedBytesKept | aesd-char-driver/main.c:97-121 | no step of any thread in any interleaving changes the bytes of a stored command before its slot is overwritten |
| Linearizability.MidAddRepresentsNothing | aesd-char-driver/aesd-circular-buffer.c:45-46 | between storing an entry and advancing in_offs in a ring that is not full memory represents no log |
| Linearizability.MidAddReachable | aesd-char-driver/aesd-circular-buffer.c:45-46 | for every capacity an interleaving that reaches such a state |
| Linearizability.FuelBurns | aesd-char-driver/main.c:67-205 | every micro-step brings the end of the call closer |
| Linearizability.HolderReleases | aesd-char-driver/main.c:67-205 | in every reachable state whoever holds the mutex can give it back within a bounded number of its own steps |
| Consequences.MemoryHoldsTheStream | aesd-char-driver/main.c:96-123 | in every interleaving, whenever the mutex is free, the buffers met from out_offs are the last N commands the splitter makes of all accepted chunks, and the pending buffer is its remainder, or after a failed reallocation nothing but its size |
| Consequences.PositionsSafeConcurrently | aesd-char-driver/main.c:84-202 | in every interleaving with at most N commits all positions lie inside the file whenever the mutex is free |
| Sessions.PayloadKept | server/aesdsocket_linkedlists.c:57-86 | the payload of a conversation is, chunk after chunk, what was received before the first NUL, and nothing for a seek command |
| Sessions.PlainPayload | server/aesdsocket_linkedlists.c:57-85 | without NULs and seek commands it is all that was received |
| Sessions.SavedKeeps | server/aesdsocket_linkedlists.c:58-85 | the bytes saved of a chunk are the only ones that fit that description |
| Connection.SaveToFile | server/aesdsocket_linkedlists.c:117-127 | the device accepts a first part of the string, in whatever pieces stdio writes it, and all of it unless memory is lacking for the next piece; a write that fails for want of memory may lose the bytes pending in the device, and nothing else |
| Connection.DrainFile | server/aesdsocket_linkedlists.c:76-81 | what is sent is always a first part of the file from the position on, and all of it iff no send failed; it stops at the first send that fails; the device is not changed |
| Connection.SeekAndDrain | server/aesdsocket_linkedlists.c:63-82 | a seek command is answered with the file from the position the driver settles on, cut short iff a send fails, and with nothing if the device cannot be opened or refuses |
| Connection.Fread | server/aesdsocket_linkedlists.c:133 | hands out what the stream holds and what it reads from the device, in order and without loss, and less than a bufferful only at the end of the file (or of a stream that heeds its flag) |
| Connection.AccountsJoin | server/aesdsocket_linkedlists.c:133 | two such steps account for the bytes together |
| Connection.SendFile | server/aesdsocket_linkedlists.c:130-144 | sends everything the stream can still hand out: what it held and the whole rest of the file, unless the stream heeds an end-of-file flag set before; if a send fails it has sent a first part, and loses only the piece of that send; the device stays as it is |
| Connection.SecondEcho | server/aesdsocket_linkedlists.c:130-144 | sending back again yields what has come to the file since, and nothing ever again if the stream heeds its end-of-file flag |
| Connection.HandleChunk | server/aesdsocket_linkedlists.c:57-90 | a chunk is either answered as a seek, or saved up to its first NUL and answered with the file if it holds a newline |
| Connection.AllKind | server/aesdsocket_linkedlists.c:55-92 | in a whole conversation every save and every send succeeds unless an allocation, an open or a send fails in the environment |
| Connection.HandledWritesPayload | server/aesdsocket_linkedlists.c:56-91 | on a device that had lost nothing, a conversation with every save successful has written exactly the received bytes up to the first NUL of each chunk that is no seek command |
| Connection.ReceiveText | server/aesdsocket_linkedlists.c:55-92 | the whole conversation: each seek is answered from the device as the chunks before it left it, every other chunk is saved and, with a newline, answered with the file; if every save succeeds on a device that had lost nothing it receives the received bytes up to the first NUL of each chunk that is no seek command; nothing fails unless the environment does |
| ServerSafety.RelockOwns | server/aesdsocket_linkedlists.c:11-13 | a mutex taken only when free stays with exactly the thread whose program point says so |
| ServerSafety.OwedMoves | server/aesdsocket_linkedlists.c:85-91 | each step of a session moves bytes from what it still owes to the device, or neither changes |
| ServerSafety.DrainReads | server/aesdsocket_linkedlists.c:76-81 | a read of a drain goes on where the last one stopped, and finds nothing only when all has been sent |
| ServerSafety.SessionsSerialised | server/aesdsocket_linkedlists.c:55-92 | in every interleaving each connection takes the session mutex at most once and the device receives whole payloads in that order, with a first part of the one under way |
| ServerSafety.DeviceReceives | server/aesdsocket_linkedlists.c:55-92 | in every interleaving, whenever no session is under way, the device has received of each chunk of the sessions so far, in session-mutex order, what comes before its first NUL, nothing of seek commands, and nothing else |
| ServerChunks.ThreadKeepsChunk | server/aesdsocket_linkedlists.c:61-86 | a chunk is served as a seek iff sscanf finds both numbers, with those numbers, and sent back only if it holds a newline; it stays in hand until it is done with |
| ServerChunks.LeavesRightly | server/aesdsocket_linkedlists.c:57-91 | a thread is done with a chunk only after saving all of it (and sending back if it holds a newline), or after a seek was refused, drained to the end, or cut by a failed open or send |
| ServerChunks.ChunksInTurn | server/aesdsocket_linkedlists.c:55-91 | in every interleaving each chunk of the sessions so far is done with exactly once, in order and in the right way, with none left out when no session is under way |
| ServerChunks.SeeksAnswered | server/aesdsocket_linkedlists.c:61-82 | in every interleaving every seek command is either dropped, only because the device could not be opened or refuses it, or answered with exactly the file as the writes up to then had made it, from the seek position to the end, or a first part of that iff one of its own sends failed; the device is the same at the seek and at the end, and the position is the promised one until the ring is rotated |
| ServerChunks.AllServed | server/aesdsocket_linkedlists.c:36-99 | when all threads are done exactly the connections whose files could be opened have had a session, and all their chunks are done with |
| ServerSafety.ServerNewlines | server/aesdsocket_linkedlists.c:57-88 | along every run pending bytes hold no newline and no NUL, and each stored command is made of device writes whose newlines all lie in the last |
| ServerProgress.SomeoneCanMove | server/aesdsocket_linkedlists.c:55-144 | while a thread is not done some thread can move: session before file or send before device mutex rules out deadlock |
| ServerProgress.PcWorks | server/aesdsocket_linkedlists.c:57-91 | every step at a program point other than a receive leaves less work there |
| ServerProgress.StepWorks | server/aesdsocket_linkedlists.c:55-144 | every step of a thread uses up work, drains included |
| ServerProgress.StepKeepsTotal | server/aesdsocket_linkedlists.c:57-85 | bytes in the device plus bytes still to come never grow |
| ServerProgress.ServerTerminates | server/aesdsocket_linkedlists.c:55-144 | every interleaving is at most as long as a bound known at the start, can go on iff some thread is not done, and leaves every mutex free when all are done |
| ServerOnDriver.CallApplies | server/aesdsocket_linkedlists.c:68-84 | a device call made by a server thread does to device and files what the server machine takes it to do, and returns what the thread there sees |
| ServerOnDriver.CallStarts | aesd-char-driver/main.c:67-96 | entering a device call, the device mutex taken, keeps both machines in step |
| ServerOnDriver.CallEnds | aesd-char-driver/main.c:85-122 | leaving a device call whose micro-steps are done is one atomic device step of the server machine |
| ServerOnDriver.InsideRefines | aesd-char-driver/main.c:67-205 | a micro-step inside a device call is invisible to the server machine |
| ServerOnDriver.WholeRefines | server/aesdsocket_linkedlists.c:55-144 | every interleaving of server threads and driver micro-steps is a run of the server machine with the same steps of the same threads; mutexes, session order and what was sent agree, and memory represents its device whenever the device mutex is free |
| ServerOnDriver.SessionsInMemory | server/aesdsocket_linkedlists.c:55-92 | in every interleaving, whenever session and device mutex are free, memory represents a device that received exactly the payloads of the sessions so far, whole and in session-mutex order |
| ServerOnDriver.MemoryReceives | server/aesdsocket_linkedlists.c:55-92 | the same in received bytes: whenever session and device mutex are free memory represents a device that received of each chunk what comes before its first NUL, nothing of seek commands, session after session |
| ServerOnDriver.ChunksOnDriver | server/aesdsocket_linkedlists.c:36-99 | in every interleaving of threads and micro-steps each chunk is done with once, in order and in the right way, and at the end exactly the connections that could be opened have been served |
| ServerOnDriver.DrainSince | server/aesdsocket_linkedlists.c:68-81 | at any point of a drain there was a moment right after its seek when memory represented the device as it is now |
| ServerOnDriver.DrainsFromMemory | server/aesdsocket_linkedlists.c:63-82 | in every interleaving each drain that ran to its end sent the file of the state that memory represents when the drain ends, from the position the driver settled on, which is the promised one until the ring is rotated; memory represented the same device right after the seek |
| ServerOnDriver.GoUsesPotential | aesd-char-driver/main.c:67-205 | every step of a thread uses up more of the bound than the micro-steps of a call it may enter |
| ServerOnDriver.WholeTerminates | server/aesdsocket_linkedlists.c:55-144 | every interleaving of server threads and micro-steps is at most as long as a bound known at the start; the device call under way is memory-safe in its next step; something can move iff some thread is not done; and all four mutexes are free when all are done |

## Left out

- KernelMemory.StrchrNewline: looks at the logical bytes only, where the code may read on behind them; Bytes.StrchrPastTheEnd says when that matters. With no bytes at all, after an empty write to a device with nothing pending, the code would look at memory it has not been given; here no newline is found.
- Linearizability.Linearizable: reallocation may fail whenever the environment says so, also where the kernel would grow in place; AesdDevice.Device.Write fails only where memory is needed.
- ServerOnDriver.WholeRefines: memory for writes is always available, and each thread uses one file for its seeks instead of opening a new one each time; a seek sets the position before anything reads it.
- Positions.SeekExact: sums of sizes are unbounded numbers; the code's `size_t` and `loff_t` are exact below 2^63, which the lemma requires of its arguments. The wrap-around of llseek's own additions is modelled.
- ServerSafety.SessionsSerialised: the connection threads are the only writers, their writes succeed, and the device is fresh when they start; the timestamp writer of server/aesdsocket_linkedlists.c:106-115, which takes no session mutex, is not part of this model.
- Connection.SendFile: a send that transmits only part of its bytes counts as failed, with none of them sent; stdio reads from the device in bufferfuls of the server's own size.
- ServerChunks.LeavesRightly: in the interleaved server the bytes sent back for a newline are not followed, only that sending back happens and ends; what is sent, Connection.SendFile says for one handler.
- RingLayout.NextIndex: the 8-bit index fields are unbounded numbers, which is exact for capacities up to 255.
- Freeing of memory: evicted buffers are never freed by the code, and buffers are never reused here.
- Registration, module exit, open and release, the number encoding of the ioctl, and debug output.
- The return codes of savetofile and sendfile; a missing file or buffer at the start of a connection only ends its thread.
- `sscanf` is any function from chunks to pairs of numbers; `recv` is a finite list of chunks ending in an empty one, and never fails.
- Sockets, addresses, the daemon, signals, the timer, the list of connections and its reaping.
- server/aesdsocket.c, finder-app and examples: an older variant and thin wrappers over system calls.
