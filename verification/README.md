# A model of the vendored libevent and of the MD5 and Base64 code

The repository is a server whose own logic is thin; what is hard in it is libevent 2.0.22, which it carries along, and
two codecs of its own in `comm/`.  This project models the parts of both that keep intricate invariants, and proves what
callers rely on.  `dafny verify dfyconfig.toml` checks all of it.

| file | models |
|---|---|
| `Basics.dfy` | machine limits and a few facts about numbers and lists |
| `Bytes.dfy` | byte strings, concatenation of pieces, memory copies |
| `Evbuffer.dfy`, `EvbufferPool.dfy`, `EvbufferSearch.dfy` | the evbuffer: a byte queue kept as a linked list of partly filled chunks, relinked and filled in place; runs over pools of buffers; search across chunks |
| `Evmap.dfy` | events per descriptor, the list of pending changes, and its translation into epoll operations on a kernel that is a map from descriptors to conditions |
| `TokenBucket.dfy`, `Bufferevent.dfy`, `GroupProtocol.dfy` | token buckets, suspension of single bufferevents, and the group protocol as interleaved steps of any number of threads |
| `EventLoop.dfy` | queues, flags and counts of events, common timeouts, priorities |
| `DnsNames.dfy`, `DnsRequests.dfy` | names in DNS messages with compression; requests in flight and waiting |
| `Tagging.dfy` | tagged, self-delimiting records, on top of the evbuffer |
| `Md5.dfy`, `Md5Suite.dfy`, `Base64.dfy`, `Arc4.dfy` | MD5, Base64, and the arc4random generator |

Code that changes things step by step is modelled by methods on classes and arrays, proved against functions; the
properties themselves are then lemmas about those functions or parts of the classes' invariants.  Calls that cannot be
seen become parameters or arbitrary choices: whether memory is available (`oom`, and an arbitrary choice in the methods
concerned; `lacks` for the label table), whether a descriptor is open, what the clock says, which random number is drawn,
whether a socket takes a packet, and what other threads do while a lock is free.

An evbuffer satisfies `Valid` when its chunks form a list that it owns, each holds its piece within its memory, the length
is the sum of the pieces, and `last_with_datap` is the address of the pointer to the last chunk with data, all chunks after
which are empty.  It is `Compact` when in addition no empty chunk comes before that one and none after it.

The invariant of the group protocol allows a member to be blocked only for a cause: the group is suspended, or remembers
that it owes a resumption; while the loop that resumes the members is under way, the cause is that the loop has not come
to the member yet or is going to be repeated.  A bufferevent that has joined while the group was suspended counts as blocked
from the moment it has let go of the group.

## Where the code and its comments differ

- `evbuffer_add` writes into the last chunk without moving `last_with_datap`.  A single empty chunk behind the last one with
  data, as reserving space leaves it, is enough for the pointer to be wrong afterwards: `ReserveThenAdd` says exactly when,
  and `Misled` gets there with a byte, a reservation of 977 bytes and another byte.  The call may also run into the assertion
  in `evbuffer_chain_insert`, as it does in `Aborted` after reservations of 10 and 2000 bytes.  `Add` says for every valid
  buffer exactly when a successful call leaves it valid and exactly when the assertion fails.
- `evbuffer_commit_space` takes a single region in the last chunk wherever that is; behind two or more empty chunks
  `last_with_datap` does not get there.  `CommitSpace` says exactly when, and `Missed` gets there with reservations of 2000
  and 5000 bytes.
- When a rate limit is replaced, the bucket keeps the number of the tick of its last update, although another tick length
  counts ticks differently.  The following ticks may then seem to lie in the past, and the refill timer fires without
  refilling anything.  `NextTick` says exactly when a callback resumes a direction, `TicksUntilResumed` after how many, and
  `LongWait` gets from ticks of a millisecond to ticks of a second and waits for 999001 of these.
- `evtag_unmarshal` hands the result of `evbuffer_pullup` to `evbuffer_add` untested, and reading a number at an offset adds the
  offset before it compares with null.  Without memory, and with too small a first chunk, both read through a null pointer
  or one next to it (`MoveData`, `DecodeIntInternal`).
- `event_add` on an event whose timeout has made it active, and whose descriptor was taken off the queues for that, takes
  back the expiry without watching the descriptor again.  `AddedIsDue` says exactly when the descriptor is watched, and
  `AddExpired` gets there from any event whose timeout has come.
- The comment on the wire format of `event_tagging.c` says that digits come in big-endian order; the code writes the least
  significant first.
- `MD5::final` restores the state and the count but not the buffer, and since padding is an update, `_finished` never stays
  set.  `GoesOn` says exactly when the object continues the same message after a digest; in that case a second digest is the
  same (`TwoDigests`).
- `dnsname_to_labels` checks for room before each label but not before the final zero, which lies one byte behind the part
  of the array that is meant for the message exactly if the labels end there and no rest of the name has been used before
  (`WellFormedRunsOver`, and `PlaceRunsOver` for all names).  The array of `evdns_server_request_format_response` ends there
  too: `FormatResponse` says for which responses byte 1500 is written, and `FullResponseSpills` gives one.
- `name_parse` copies a label before it finds out that the packet has ended.  `OverreadsExactly` says for which packets it
  reads behind the packet, and that it then refuses the name.
- The Base64 decoder sizes its memory by whole groups; `AllocationFits` says exactly for which lengths that is enough.  The
  encoder computes its size in 32-bit numbers, which wrap around from 2^29 bytes on; `EncoderFits` says exactly when it is
  enough, and `EncoderOverflows` gives a length for which four bytes are allocated.
- With a minimal share of zero a rate-limit group is resumed although it has no bytes, whatever its rates (`ZeroShare`), and
  only then (`ExhaustedIsSuspended`).

## Model

| member | source | states |
|---|---|---|
| `Evbuffers.Chain.Align` | libevent-2.0.22-stable/buffer.c:1719-1731 | moving the stored bytes to the front of a chunk keeps them |
| `Evbuffers.ChainNew` | libevent-2.0.22-stable/buffer.c:154-188 | a new chunk has exactly the first of 1024 and its doubles that holds the bytes asked for and the header, less the header, or just the bytes if they are very many |
| `Evbuffers.Evbuffer.ChainInsert` | libevent-2.0.22-stable/buffer.c:290-319 | inserting a chain behind the last one with data frees the empty chains after it, appends exactly its bytes, and keeps the list, its ownership and the length right; when `last_with_datap` is right afterwards, and when the assertion that the freed chains are empty fails, is stated exactly |
| `Evbuffers.Evbuffer.Add` | libevent-2.0.22-stable/buffer.c:1543-1634 | on every valid buffer: the contents become the old ones followed by the data, or stay as they are; it succeeds unless the end is frozen, the length would overflow, memory is wanting, or an assertion fails, and no memory is wanted if the last chain takes the data; the buffer is valid after success if and only if `AddKeeps` held, and the assertion fails if and only if `AddAborts` did; a first chain has the memory `ChainNew` says |
| `Evbuffers.Evbuffer.AppendToLast` | libevent-2.0.22-stable/buffer.c:1561-1585 | writing into the last chain leaves `last_with_datap` right exactly when no chain follows the last one with data, or no byte was written |
| `Evbuffers.Evbuffer.ReserveThenAdd` | libevent-2.0.22-stable/buffer.c:620-651 | adding a byte after reserving leaves `last_with_datap` right if and only if no empty chain followed the last one with data and that one had the room asked for |
| `Evbuffers.Evbuffer.Misled` | libevent-2.0.22-stable/buffer.c:1561-1585 | a byte, 977 bytes reserved, and another byte: `last_with_datap` is wrong |
| `Evbuffers.Evbuffer.Aborted` | libevent-2.0.22-stable/buffer.c:290-319 | 10 and then 2000 bytes reserved in a new buffer, and 2001 bytes added: the assertion that the freed chains are empty fails |
| `Evbuffers.Evbuffer.Missed` | libevent-2.0.22-stable/buffer.c:669-737 | a byte, 2000 and then 5000 bytes reserved, and only the third region committed: `last_with_datap` is wrong |
| `Evbuffers.Evbuffer.Prepend` | libevent-2.0.22-stable/buffer.c:1636-1716 | the contents become the data followed by the old ones; a failing call may have put a suffix of the data in front, and which suffix is stated exactly |
| `Evbuffers.Evbuffer.Drain` | libevent-2.0.22-stable/buffer.c:958-1026 | exactly the first bytes go, the memory of the buffer does not grow, a frozen start refuses |
| `Evbuffers.Evbuffer.Copyout` | libevent-2.0.22-stable/buffer.c:1043-1086 | returns the first bytes and changes nothing |
| `Evbuffers.Evbuffer.Remove` | libevent-2.0.22-stable/buffer.c:1028-1041 | what is returned followed by what is left is what was there; the result is the number of bytes as a 32-bit number |
| `Evbuffers.Evbuffer.AddBuffer` | libevent-2.0.22-stable/buffer.c:866-909 | all bytes of one buffer move behind those of the other; the two never share memory, and together own what they owned before; compact buffers stay compact |
| `Evbuffers.Evbuffer.PrependBuffer` | libevent-2.0.22-stable/buffer.c:912-956 | likewise in front |
| `Evbuffers.Evbuffer.RemoveBuffer` | libevent-2.0.22-stable/buffer.c:1088-1181 | moves the first bytes of one buffer to the end of another, whole chains by relinking and the rest by copying; if the copy fails, what arrives are exactly the bytes of the whole chains within the first n, and the rest is lost from the source; the result is n as a 32-bit number |
| `Evbuffers.Evbuffer.MovePrefix` | libevent-2.0.22-stable/buffer.c:1125-1160 | relinking the first chains of the source behind the data of the destination keeps both lists well formed and disjoint |
| `Evbuffers.Evbuffer.AdvanceLastWithData` | libevent-2.0.22-stable/buffer.c:653-667 | `last_with_datap` moves forward as far as the next chain has data, and no further |
| `Evbuffers.Evbuffer.Pullup` | libevent-2.0.22-stable/buffer.c:1183-1293 | the contents do not change, and on success the first chain holds at least the first n bytes, contiguously; it succeeds whenever n bytes are there and memory is available, or none is needed because the first chain has room for n bytes |
| `Evbuffers.Evbuffer.ReplaceFront` | libevent-2.0.22-stable/buffer.c:1262-1285 | in all three storage cases first, last and `last_with_datap` are right again after the chains that were used up are replaced |
| `Evbuffers.Evbuffer.ExpandFast` | libevent-2.0.22-stable/buffer.c:1857-1965 | at most n chains, from the first with room on, have at least the space asked for; no byte moves; the chains stay, or a new one with the missing space comes behind them, or, only if n of them were not enough, in the place of the empty ones |
| `Evbuffers.Evbuffer.SetupVecs` | libevent-2.0.22-stable/buffer.c:2031-2065 | hands out free regions of different chains, in order, that add up to at least (if asked, exactly) the request; each is the whole free memory of its chain unless exactness is asked for, and none is superfluous |
| `Evbuffers.Evbuffer.CommitSpace` | libevent-2.0.22-stable/buffer.c:669-737 | the result is 0 if and only if the regions are those that were handed out, shortened or not, or the only one is free memory of the last chain; then exactly their bytes are appended, and otherwise nothing changes; `last_with_datap` is right unless a single region was committed behind two empty chains |
| `Evbuffers.Evbuffer.ReserveSpace` | libevent-2.0.22-stable/buffer.c:620-651 | with two or more regions, reserving succeeds unless the end is frozen or memory is wanting, and changes no byte; the regions are the whole free memory of their chains, none is superfluous, and a new chain has the memory `ChainNew` says for what the others lack |
| `Evbuffers.Evbuffer.Fill` | libevent-2.0.22-stable/buffer.c:669-737 | writing into a region that was handed out disturbs neither the buffer nor the other regions |
| `Evbuffers.Evbuffer.FillCommit` | libevent-2.0.22-stable/buffer.c:669-737 | writing any piece into each of the first regions that were handed out and committing them appends the pieces, one after the other |
| `Evbuffers.Evbuffer.ReserveFillCommit` | libevent-2.0.22-stable/buffer.c:620-737 | reserving, writing data into the regions from front to back and committing them is appending the data |
| `EvbufferPool.Apply` | libevent-2.0.22-stable/buffer.c:834-1181 | one operation on any pool of compact buffers is the operation on byte strings, or one of its stated failures, and keeps all buffers compact and disjoint |
| `EvbufferPool.Run` | libevent-2.0.22-stable/buffer.c:834-1716 | every run of operations over any pool refines the run over byte strings, step by step |
| `EvbufferPool.RunRefines` | libevent-2.0.22-stable/buffer.c:834-1716 | with memory, nothing frozen and no length overflow, a whole run gives exactly what the operations mean |
| `EvbufferPool.BytesConserved` | libevent-2.0.22-stable/buffer.c:866-1181 | operations only move bytes, drop those drained, or bring in their own |
| `EvbufferSearch.PtrSet` | libevent-2.0.22-stable/buffer.c:2449-2498 | a position is set or advanced to exactly the target, in the chain whose prefix sum says so, or becomes -1 if it lies at or behind the end |
| `EvbufferSearch.PtrMatches` | libevent-2.0.22-stable/buffer.c:2500-2534 | comparing across chains agrees with comparing the contents |
| `EvbufferSearch.SearchRange` | libevent-2.0.22-stable/buffer.c:2542-2605 | returns the least position at or after the start where the pattern occurs wholly before the end, or -1 if there is none |
| `Evmap.Base.ApplyOneChange` | libevent-2.0.22-stable/epoll.c:173-329 | whatever combination of add and delete a change holds, the kernel afterwards watches what it asks for, an ADD on a watched and a MOD or DEL on an unwatched descriptor included; a second system call is made only in these cases |
| `Evmap.Base.GetOrConstruct` | libevent-2.0.22-stable/evmap.c:615-643 | finds or makes the one queued change of a descriptor; the back-reference and the queue stay inverse to each other |
| `Evmap.Base.ChangelistAdd` | libevent-2.0.22-stable/evmap.c:646-675 | the queued change then leads from what the kernel watched to what the events want |
| `Evmap.Base.ChangelistDel` | libevent-2.0.22-stable/evmap.c:677-726 | likewise for a removal, which cancels an addition that has not been applied |
| `Evmap.Base.IoAdd` | libevent-2.0.22-stable/evmap.c:262-332 | one more event on the descriptor, its counters exact, and the queued change (or the kernel) up to date; the result says whether the conditions changed |
| `Evmap.Base.IoDel` | libevent-2.0.22-stable/evmap.c:335-387 | one event fewer, likewise |
| `Evmap.Base.ApplyChanges` | libevent-2.0.22-stable/epoll.c:332-349 | after the queue is applied every open descriptor is watched for exactly what its events want; the result says whether a change failed |
| `Evmap.Base.RemoveAll` | libevent-2.0.22-stable/evmap.c:559-577 | empties the queue and all back-references |
| `Evmap.Base.Dispatch` | libevent-2.0.22-stable/epoll.c:385-399 | a dispatch empties the queue and leaves every open descriptor watched for what its events want |
| `Evmap.Base.Close` | libevent-2.0.22-stable/epoll.c:258-300 | closing a descriptor without events while a change for it is queued keeps the invariant: the change leaves nothing to what was enabled before |
| `Evmap.CountsMeanWanted` | libevent-2.0.22-stable/evmap.c:262-387 | the read and write counters are positive exactly when some event wants to read or write |
| `Evmap.Run` | libevent-2.0.22-stable/evmap.c:262-387 | every legal sequence of additions, deletions, dispatches, and closing and opening of descriptors keeps the invariant and leaves each descriptor with the events that were added and not deleted |
| `Evmap.BothBackends` | libevent-2.0.22-stable/epoll.c:332-383 | batching and applying at once lead to the same interest list, the one the events want, also when descriptors without events are closed and opened again between |
| `TokenBuckets.CfgNew` | libevent-2.0.22-stable/bufferevent_ratelim.c:141-172 | accepts exactly rates of at least one, not above their bursts, within the limit |
| `TokenBuckets.MachineRefills` | libevent-2.0.22-stable/bufferevent_ratelim.c:86-108 | the overflow-safe 64-bit arithmetic of an update is min(maximum, limit + ticks * rate), and no product that is used overflows |
| `TokenBuckets.Bucket.Init` | libevent-2.0.22-stable/bufferevent_ratelim.c:48-70 | a fresh bucket holds the bytes of one tick, a reconfigured one is only clipped |
| `TokenBuckets.Bucket.Update` | libevent-2.0.22-stable/bufferevent_ratelim.c:72-110 | an update is the refill for the ticks since the last one, unless none or too many have passed |
| `TokenBuckets.UpdateSplits` | libevent-2.0.22-stable/bufferevent_ratelim.c:72-110 | splitting a span of ticks into two updates changes nothing |
| `TokenBuckets.SpendingBounded` | libevent-2.0.22-stable/bufferevent_ratelim.c:72-110 | over any run, across wrapping 32-bit tick numbers, the bytes spent are at most the maximum plus the rate for every tick |
| `TokenBuckets.CreditNeverGrows` | libevent-2.0.22-stable/bufferevent_ratelim.c:72-110 | no action creates credit: spent bytes plus what may still be spent never grow |
| `Bufferevents.Bufferevent.Suspend` | libevent-2.0.22-stable/bufferevent.c:65-76 | the backend is told to stop, and works afterwards exactly when it is enabled and not suspended |
| `Bufferevents.Bufferevent.Unsuspend` | libevent-2.0.22-stable/bufferevent.c:77-111 | only the last reason to go resumes the backend |
| `Bufferevents.Bufferevent.SuspendOther` | libevent-2.0.22-stable/bufferevent.c:65-76 | suspending for any other reason keeps the invariant of the rate limit and of the backend |
| `Bufferevents.Bufferevent.UnsuspendOther` | libevent-2.0.22-stable/bufferevent.c:77-111 | likewise for resuming |
| `Bufferevents.Bufferevent.Enable` | libevent-2.0.22-stable/bufferevent.c:406-427 | enabling a suspended direction does not start it |
| `Bufferevents.Bufferevent.Disable` | libevent-2.0.22-stable/bufferevent.c:497-510 | disabling keeps the reasons |
| `Bufferevents.Bufferevent.UpdateBuckets` | libevent-2.0.22-stable/bufferevent_ratelim.c:112-123 | bringing the bucket up to date when a limit is asked for keeps the invariant |
| `Bufferevents.Bufferevent.DecrementBuckets` | libevent-2.0.22-stable/bufferevent_ratelim.c:274-333 | an exhausted bucket suspends its direction and arms the timer, a refilled one resumes it; the other direction keeps its timer |
| `Bufferevents.Bufferevent.DecrementLimit` | libevent-2.0.22-stable/bufferevent_ratelim.c:900-954 | likewise when the application takes bytes off the limit |
| `Bufferevents.Bufferevent.RefillCallback` | libevent-2.0.22-stable/bufferevent_ratelim.c:395-441 | resumes exactly the directions that have bytes again and waits for another tick exactly if one has not |
| `Bufferevents.Bufferevent.SetRateLimit` | libevent-2.0.22-stable/bufferevent_ratelim.c:558-635 | installing, replacing or removing a configuration leaves every direction suspended for bandwidth exactly as its bucket says; a first one fills the bucket with one tick, a replacement only clips the limits to the new maxima and keeps the last update |
| `Bufferevents.Bufferevent.NextTick` | libevent-2.0.22-stable/bufferevent_ratelim.c:395-441 | at any tick the callback of the refill timer resumes a direction if and only if that has bytes, or between 1 and INT_MAX ticks seem to have passed since the last update and their refill outweighs the debt |
| `Bufferevents.Bufferevent.TicksUntilResumed` | libevent-2.0.22-stable/bufferevent_ratelim.c:395-441 | with one callback for each tick from any first tick on, a direction resumes after exactly `CallbacksUntil` callbacks: those at which time seems not to have moved on, and then as many as the debt needs |
| `Bufferevents.Bufferevent.LongWait` | libevent-2.0.22-stable/bufferevent_ratelim.c:48-63 | two configurations with different tick lengths after which reading resumes only at the 999001st tick, though each tick allows 1000 bytes |
| `GroupProtocol.StepKeeps` | libevent-2.0.22-stable/bufferevent_ratelim.c:351-556 | every step of every thread keeps the protocol's invariant: a member blocked by the group, or about to be because it has just joined, has a cause |
| `GroupProtocol.NeverForgotten` | libevent-2.0.22-stable/bufferevent_ratelim.c:230-373 | in every reachable state in which nobody works on the group, a blocked member has a suspended group or a resumption that is remembered; the group without bytes is suspended (for a minimal share above zero) |
| `GroupProtocol.LeftBehind` | libevent-2.0.22-stable/bufferevent_ratelim.c:779-806 | a bufferevent that has left the group is not blocked by it |
| `GroupProtocol.VisitsOnce` | libevent-2.0.22-stable/bufferevent_ratelim.c:443-503 | the loop with a random start has visited no member twice at any point, and all of them at its end |
| `GroupProtocol.LoopTurn` | libevent-2.0.22-stable/bufferevent_ratelim.c:469-480 | one turn of that loop visits the next member of the rotated list |
| `GroupProtocol.AskFindsOut` | libevent-2.0.22-stable/bufferevent_ratelim.c:230-256 | a member that the suspending loop could not lock finds out when it asks: it gets nothing and is blocked |
| `GroupProtocol.LetsGo` | libevent-2.0.22-stable/bufferevent_ratelim.c:351-373 | a thread that has the group never waits for a member and lets go after finitely many steps |
| `GroupProtocol.RefillRepairs` | libevent-2.0.22-stable/bufferevent_ratelim.c:527-556 | a refill callback resumes every direction in which that is owed or affordable: no member whose lock it could get stays blocked, and it owes a resumption afterwards exactly if there were others; the other directions are as before |
| `GroupProtocol.SpendSettles` | libevent-2.0.22-stable/bufferevent_ratelim.c:299-308 | a spending takes exactly its bytes off one limit; once its thread lets go, a group whose last bytes it took is suspended and every member whose lock it could get is blocked; one that has bytes again is resumed, none of those is blocked, and it owes a resumption exactly if there were others; otherwise nothing changes |
| `GroupProtocol.GroupSpending` | libevent-2.0.22-stable/bufferevent_ratelim.c:297-310 | in every run, what was spent and what is left are at most what there was and the rate for every tick refilled; since the bucket was full for the last time the account is exact, and so it is between two refills |
| `GroupProtocol.JoinSettles` | libevent-2.0.22-stable/bufferevent_ratelim.c:730-776 | a bufferevent that joins a suspended group is blocked once its thread is done, and everything else is as before |
| `GroupProtocol.LeaveSettles` | libevent-2.0.22-stable/bufferevent_ratelim.c:783-812 | one that leaves is not blocked, or freed, and everything else is as before |
| `GroupProtocol.ShareFair` | libevent-2.0.22-stable/bufferevent_ratelim.c:231-254 | a share above the minimum is the largest with which no more is promised to the members than there is |
| `GroupProtocol.ZeroShare` | libevent-2.0.22-stable/bufferevent_ratelim.c:539-546 | with a minimal share of zero, a group of any rates is resumed with no bytes left after it has spent twice its rate and one tick has passed |
| `GroupProtocol.ExhaustedIsSuspended` | libevent-2.0.22-stable/bufferevent_ratelim.c:527-546 | in all runs a group without bytes is suspended, whatever its configuration, if and only if its minimal share is positive |
| `GroupProtocol.Lifetime` | libevent-2.0.22-stable/bufferevent_ratelim.c:297-812 | from every start the locks allow this run: a bufferevent joins and asks, spends all bytes and is blocked with its group, the next tick resumes both and fills the bucket, and it leaves |
| `EventLoops.EventBase.QueueRemove` | libevent-2.0.22-stable/event.c:2519-2556 | takes an event off one queue; `Structure` (flags match queues, counts match sizes, lists sorted) is kept by `RemovedKeeps` |
| `EventLoops.EventBase.QueueInsert` | libevent-2.0.22-stable/event.c:2590-2630 | puts an event on one queue, kept by `QueuedKeeps` |
| `EventLoops.RemovedKeeps` | libevent-2.0.22-stable/event.c:2519-2556 | after a removal the flags still say which queues an event is on and event_count and event_count_active still match |
| `EventLoops.QueuedKeeps` | libevent-2.0.22-stable/event.c:2590-2630 | likewise after an insertion, and the common-timeout list is still sorted |
| `EventLoops.EventBase.InsertCommonTimeoutInorder` | libevent-2.0.22-stable/event.c:2559-2588 | searching from the end finds the place behind all events that are due no later |
| `EventLoops.PositionSorted` | libevent-2.0.22-stable/event.c:2559-2588 | exactly the events before that place are due no later |
| `EventLoops.EventBase.EventAdd` | libevent-2.0.22-stable/event.c:2044-2192 | the state afterwards is `Added` of the state before; what that means is said by the next three rows |
| `EventLoops.AddedSafe` | libevent-2.0.22-stable/event.c:2044-2192 | adding or re-adding an event keeps the queues in order and forgets no common timeout |
| `EventLoops.AddedCovers` | libevent-2.0.22-stable/event.c:1144-1152 | if the new event is the first of its list, the list's timer is set to its time; otherwise the timer was early enough |
| `EventLoops.AddedIsDue` | libevent-2.0.22-stable/event.c:2103-2183 | an event that has just been added with a timeout is due then, keeps the duration if it is persistent, and is otherwise as before; an expiry that has not run is taken back; the descriptor is watched unless the event was active without being watched |
| `EventLoops.EventBase.AddExpired` | libevent-2.0.22-stable/event.c:2107-2183 | an event whose timeout has come and whose callback has not run is not watched any more after it has been added again |
| `EventLoops.EventBase.EventDel` | libevent-2.0.22-stable/event.c:2214-2286 | the event is on no queue afterwards |
| `EventLoops.DeletedCovers` | libevent-2.0.22-stable/event.c:2252-2261 | deleting an event keeps all common timeouts covered |
| `EventLoops.EventBase.EventActive` | libevent-2.0.22-stable/event.c:2306-2345 | makes the event active and ends the round of a less important running callback |
| `EventLoops.EventBase.MinHeapTop` | libevent-2.0.22-stable/event.c:2506-2507 | the top of the heap is due no later than anything in it |
| `EventLoops.EventBase.TimeoutProcess` | libevent-2.0.22-stable/event.c:2493-2517 | exactly what is due in the heap becomes active |
| `EventLoops.EventBase.CommonTimeoutCallback` | libevent-2.0.22-stable/event.c:1156-1177 | exactly what is due in the list becomes active, and the timer is set for what is left |
| `EventLoops.EventBase.TimeoutCorrect` | libevent-2.0.22-stable/event.c:2440-2490 | a clock that went back moves every deadline in the heap and in the lists by the same amount, so that the time left to each is what it was |
| `EventLoops.ShiftedKeeps` | libevent-2.0.22-stable/event.c:2440-2490 | that keeps all lists sorted and covered |
| `EventLoops.NeverLost` | libevent-2.0.22-stable/event.c:1144-1177 | whenever no timer callback is running, every event that waits for a time is in the heap, or its list's timer is there and due no later, or that timer is active with the highest importance |
| `EventLoops.DueIsActive` | libevent-2.0.22-stable/event.c:2493-2517 | after the heap has been processed, the timer of every list with a due event is about to run |
| `EventLoops.EventBase.EventPrioritySet` | libevent-2.0.22-stable/event.c:1847-1860 | refuses active events and priorities that do not exist |
| `EventLoops.EventBase.EventBaseInitCommonTimeout` | libevent-2.0.22-stable/event.c:1181-1251 | returns the list of the duration, makes at most 256 and never two for one duration |
| `EventLoops.EventBase.PersistClosure` | libevent-2.0.22-stable/event.c:1256-1313 | a persistent event is added again for one interval after the time it was due, or after now |
| `EventLoops.NextRun` | libevent-2.0.22-stable/event.c:1262-1310 | that time is never in the past |
| `EventLoops.EventBase.RunFirst` | libevent-2.0.22-stable/event.c:1329-1388 | takes the first event of a queue; the log records the state in which its callback starts, which is that of `Begun` |
| `EventLoops.BegunIs` | libevent-2.0.22-stable/event.c:1326-1330 | a callback starts with its event inactive: off all queues unless it is persistent, and due again and watched if it is and has an interval |
| `EventLoops.Cadence` | libevent-2.0.22-stable/event.c:1255-1308 | a persistent event added at t with a duration d is due at t + d and, if its callback starts in time, again at t + 2d |
| `EventLoops.EventBase.ProcessActiveSingleQueue` | libevent-2.0.22-stable/event.c:1329-1388 | the first callback is that of the first event; the work ends when the queue is empty, the loop is told to stop, a more important event is active, or the rounds are used up, and the result counts the application's callbacks; priorities are kept whatever else happens while the lock is free |
| `EventLoops.EventBase.ProcessActive` | libevent-2.0.22-stable/event.c:1427-1453 | if any event is active, the first event of the first queue that is not empty runs first; a result of zero means that all queues are empty |
| `EventLoops.EventBase.LoopOnce` | libevent-2.0.22-stable/event.c:1587-1650 | a turn that was not told to stop corrects the timeouts, makes active exactly what is due in the heap, and starts a callback if then anything is active |
| `EventLoops.EventBase.Dispatch` | libevent-2.0.22-stable/event.c:1583-1648 | the same for every turn of any number, the first of which is never told to stop; no callback of the application starts while a more important event is active |
| `DnsNames.NameParse` | libevent-2.0.22-stable/evdns.c:943-997 | terminates on every packet, returns exactly what `Parse` says about the bytes inside the packet, and reads exactly as far as `Reach` says; the array must be longer than the packet only if `Overreads` holds |
| `DnsNames.OverreadsExactly` | libevent-2.0.22-stable/evdns.c:962-989 | a byte behind the packet is read if and only if a label that goes on behind it is reached while the output has room, and then the name is refused |
| `DnsNames.OverreadWitness` | libevent-2.0.22-stable/evdns.c:980-984 | the packet of one byte that announces a label of 63 |
| `DnsNames.ParseBounds` | libevent-2.0.22-stable/evdns.c:943-997 | whatever the packet holds, the parser goes on inside it and writes no more than there is room for |
| `DnsNames.SpellsParse` | libevent-2.0.22-stable/evdns.c:962-989 | the parser reads what the bytes spell, and never follows more pointers than the message has bytes |
| `DnsNames.NameRoundTrip` | libevent-2.0.22-stable/evdns.c:943-997 | parsing an encoded well-formed name returns it and goes on behind it |
| `DnsNames.LabelTable.GetPos` | libevent-2.0.22-stable/evdns.c:1543-1554 | finds a position under which the name was entered, or none if it was not |
| `DnsNames.LabelTable.Add` | libevent-2.0.22-stable/evdns.c:1556-1573 | enters a name unless 128 are there or memory is wanting |
| `DnsNames.DnsnameToLabels` | libevent-2.0.22-stable/evdns.c:1585-1649 | the encoded name, compressed against the table, spells the name, ends where `Located` says, and leaves a table all of whose entries spell their names (section 4.1.4 of RFC 1035); it fails only for a label over 63 bytes, a name over 255, or lack of room; the byte behind the message is written if and only if `RunsOver` held, and an array without that byte is enough otherwise |
| `DnsNames.PlaceRunsOver` | libevent-2.0.22-stable/evdns.c:1608-1646 | for every name and table: the zero falls behind the message if and only if the name ends in a label, just fits, has no label over 63 bytes, and no rest of it is in the table |
| `DnsNames.WellFormedRunsOver` | libevent-2.0.22-stable/evdns.c:1608-1646 | for names without empty labels: if and only if start + length + 1 is the size of the message and no rest of the name is in the table |
| `DnsNames.RunsOverWitness` | libevent-2.0.22-stable/evdns.c:1643-1646 | three letters in four bytes |
| `DnsNames.NameDone` | libevent-2.0.22-stable/evdns.c:1608-1641 | once the rest of a name is spelled, each suffix that was entered on the way is |
| `DnsNames.FormatResponse` | libevent-2.0.22-stable/evdns.c:1876-1972 | the response is delivered whole if and only if the error code is one and the parts come to at most 512 bytes, it fails if and only if the error code is bad or a name of a question is refused, and is cut otherwise; a whole response holds the header and then all parts one after the other without gaps: every name at its place, behind it type and class, for records also time to live, the length of the data and the data, and every name can be read back; a cut one has the header with its bit set; an array of exactly 1500 bytes is enough if and only if the response does not spill, and byte 1500 is written if it does |
| `DnsNames.SmallResponse` | libevent-2.0.22-stable/evdns.c:1876-1952 | a response of well-formed names of at most 255 bytes that has room in 512 bytes without compression is delivered whole, and does not spill |
| `DnsNames.PlainLaidOut` | libevent-2.0.22-stable/evdns.c:1586-1649 | well-formed names that have room without compression are never refused, and take no more than that |
| `DnsNames.LaidOutReads` | libevent-2.0.22-stable/evdns.c:1898-1950 | what has been laid out can be read in order, names, bytes and lengths, from one end to the other |
| `DnsNames.NumberRoundTrip` | libevent-2.0.22-stable/evdns.c:1593-1606 | numbers of two and four bytes are read back |
| `DnsNames.FlagBits` | libevent-2.0.22-stable/evdns.c:1893-1957 | a response is marked as one and holds all other bits of its flags and of the error code; a cut one is marked as that in addition |
| `DnsNames.PlainNeverSpills` | libevent-2.0.22-stable/evdns.c:1876-1952 | a response that has room without compression never spills |
| `DnsNames.FullResponseSpills` | libevent-2.0.22-stable/evdns.c:1876-1952 | two records that make a response spill |
| `DnsNames.MessageExtends` | libevent-2.0.22-stable/evdns.c:1931-1941 | a later write of a record length does not disturb the names and the fields before it |
| `DnsRequests.RequestInsert` | libevent-2.0.22-stable/evdns.c:2670-2684 | inserting at the tail keeps a circular list circular |
| `DnsRequests.RequestRemove` | libevent-2.0.22-stable/evdns.c:2632-2667 | removing any request keeps it circular, the head included |
| `DnsRequests.DnsBase.NameserverPick` | libevent-2.0.22-stable/evdns.c:1320-1353 | the next good nameserver from the head on, or just the next one if none is good; the ring turns behind it |
| `DnsRequests.DnsBase.NameserverFailed` | libevent-2.0.22-stable/evdns.c:557-617 | a nameserver is marked as failed, and every request in flight that waits to go out to it goes to a good one if there is any; no other request changes its nameserver |
| `DnsRequests.DnsBase.NameserverUp` | libevent-2.0.22-stable/evdns.c:619-636 | the count stays exact |
| `DnsRequests.DnsBase.FindFromTransId` | libevent-2.0.22-stable/evdns.c:478-493 | finds the request in flight with an id, and none only if there is none in any list |
| `DnsRequests.DnsBase.TransactionIdPick` | libevent-2.0.22-stable/evdns.c:1301-1313 | an id that no request in flight has |
| `DnsRequests.DnsBase.RequestSubmit` | libevent-2.0.22-stable/evdns.c:2773-2788 | a request goes into flight, in the bucket of its id, exactly if it has a nameserver, and to the end of the queue otherwise; in flight it has been sent and its timeout is pending, or it is marked to be sent and its socket is choked |
| `DnsRequests.DnsBase.RequestFinished` | libevent-2.0.22-stable/evdns.c:646-697 | exactly this request is gone, and others follow from the queue |
| `DnsRequests.DnsBase.PumpWaitingQueue` | libevent-2.0.22-stable/evdns.c:733-759 | promotes a prefix of the queue in order, until there is no room, no queue or no nameserver; ids of requests in flight stay distinct |
| `DnsRequests.DnsBase.RequestReissue` | libevent-2.0.22-stable/evdns.c:704-727 | fails exactly if the same nameserver is picked again; otherwise the request is marked to be sent from the start |
| `DnsRequests.DnsBase.RequestTimeout` | libevent-2.0.22-stable/evdns.c:2146-2182 | a request is given up exactly after the last retransmission; otherwise it has been sent once more, or is marked and its socket is choked |
| `DnsRequests.DnsBase.Transmit` | libevent-2.0.22-stable/evdns.c:2215-2262 | sending, failing or being choked loses no request; afterwards the request has been sent and its timeout is pending, or it is marked and its socket is choked |
| `DnsRequests.DnsBase.TransmitAll` | libevent-2.0.22-stable/evdns.c:2322-2344 | everything that is marked is sent, but what belongs to a choked socket |
| `DnsRequests.DnsBase.NameserverReady` | libevent-2.0.22-stable/evdns.c:1479-1495 | when a socket takes packets again, everything that is marked is sent, and nothing is forgotten |
| `DnsRequests.DnsBase.SetMaxRequestsInflight` | libevent-2.0.22-stable/evdns.c:3329-3358 | rehashing keeps every request in flight, in the bucket of its id modulo the new number of lists |
| `DnsRequests.DnsBase.ClearNameserversAndSuspend` | libevent-2.0.22-stable/evdns.c:2372-2435 | all requests in flight go back to the front of the queue in the order stated, none is lost |
| `DnsRequests.DnsBase.NameserverAdd` | libevent-2.0.22-stable/evdns.c:2515-2530 | a new nameserver joins the ring |
| `DnsRequests.DnsBase.RequestNew` | libevent-2.0.22-stable/evdns.c:2696-2770 | a new request has an unused id; it has a nameserver exactly if there is room in flight and a nameserver |
| `DnsRequests.DnsBase.Run` | libevent-2.0.22-stable/evdns.c:646-759 | over any run of operations, what was submitted and not finished is on exactly one list, both counters are the lengths of their lists, no two requests in flight have the same id, and none is forgotten: its timeout is pending, or it is marked and some socket is choked, which sends everything that is marked when it takes packets again |
| `Tagging.EncodeIntInternal` | libevent-2.0.22-stable/event_tagging.c:115-148 | the nibble loop writes exactly the encoding, for 32-bit and for 64-bit numbers |
| `Tagging.IntRoundTrip` | libevent-2.0.22-stable/event_tagging.c:115-136 | every number of up to sixteen hexadecimal digits decodes to itself and ends where it ends, whatever follows |
| `Tagging.DecodeIntInternal` | libevent-2.0.22-stable/event_tagging.c:306-363 | reads the number at an offset and takes nothing out; without memory, and if the first chunk is too small, it is refused at offset 0, and elsewhere read next to a null pointer |
| `Tagging.EvtagEncodeTag` | libevent-2.0.22-stable/event_tagging.c:171-192 | appends the tag in groups of seven bits |
| `Tagging.TagRoundTrip` | libevent-2.0.22-stable/event_tagging.c:171-233 | every 32-bit tag decodes to itself, whatever follows |
| `Tagging.DecodeTagInternal` | libevent-2.0.22-stable/event_tagging.c:194-233 | reads the tag and takes out exactly its bytes, or nothing; the tag must not go on behind the five bytes that are pulled up |
| `Tagging.Marshal` | libevent-2.0.22-stable/event_tagging.c:247-254 | appends tag, length and data |
| `Tagging.UnmarshalHeader` | libevent-2.0.22-stable/event_tagging.c:428-442 | takes tag and length and insists that the data are there |
| `Tagging.Unmarshal` | libevent-2.0.22-stable/event_tagging.c:457-471 | moves the data of the first record, and with memory succeeds exactly as the bytes say; it reads through a null pointer only if there are data, memory is wanting, the first chunk is too small for them, and the destination does not refuse them |
| `Tagging.MoveData` | libevent-2.0.22-stable/event_tagging.c:465-468 | a failing pull-up of at least one byte ends in copying from a null pointer, unless the destination is frozen, would overflow, or finds no memory itself; it does not fail if the first chunk has room |
| `Tagging.RecordRoundTrip` | libevent-2.0.22-stable/event_tagging.c:247-471 | a record is self-delimiting: it reads back exactly, whatever follows |
| `Tagging.StreamRoundTrip` | libevent-2.0.22-stable/event_tagging.c:247-471 | a stream of records with data of at most INT_MAX bytes reads back as exactly the list of records |
| `Tagging.MarshalInt` | libevent-2.0.22-stable/event_tagging.c:267-276 | appends a number as a record |
| `Tagging.UnmarshalInt` | libevent-2.0.22-stable/event_tagging.c:475-499 | takes a record out and returns its number if the tag is right and the number ends within the record |
| `Tagging.IntRecordRoundTrip` | libevent-2.0.22-stable/event_tagging.c:267-499 | a marshalled number reads back, and the buffer stands where the next record starts |
| `Tagging.MarshalAll` | libevent-2.0.22-stable/event_tagging.c:247-254 | marshalling a list appends its stream |
| `Tagging.UnmarshalAll` | libevent-2.0.22-stable/event_tagging.c:457-471 | unmarshalling it returns the list and empties the buffer; without memory it may stop behind a prefix of the list, refused or at a null pointer |
| `Md5.Hasher.Transform` | comm/md5.cpp:214-297 | the 64 steps of the code, in place on four variables and with its own words, amounts and constants, are the steps of section 3.4 of RFC 1321 in the order of its formulas |
| `Md5.FourSteps` | comm/md5.cpp:219-289 | four steps on a, b, c, d in turn are four steps with changing roles, after which every word has its role back |
| `Md5.Round1` | comm/md5.cpp:220-236 | the first round; the words are taken in order |
| `Md5.Round2` | comm/md5.cpp:238-254 | the second round; the words are taken in the order 5i + 1 |
| `Md5.Round3` | comm/md5.cpp:256-272 | the third round; 3i + 5 |
| `Md5.Round4` | comm/md5.cpp:274-290 | the fourth round; 7i |
| `Md5.CountAdded` | comm/md5.cpp:155-158 | the two words of the bit counter, with their carry, are 8 * length modulo 2^64 |
| `Md5.Hasher.Update` | comm/md5.cpp:146-178 | the state is the fold over all whole blocks, and the buffer holds the rest, however the message is cut |
| `Md5.FoldConcat` | comm/md5.cpp:160-170 | folding over a concatenation is folding twice |
| `Md5.PadLengthFits` | comm/md5.cpp:196-203 | padding takes 1 to 64 bytes and ends eight bytes before the end of a block |
| `Md5.Hasher.Final` | comm/md5.cpp:180-211 | the digest is that of the padded message (sections 3.1 to 3.5 of RFC 1321), and what the object has become afterwards is stated |
| `Md5.Hasher.GetDigest` | comm/md5.cpp:93-99 | returns the digest of the message so far |
| `Md5.HashAll` | comm/md5.cpp:146-178 | for every way to cut a message into pieces the digest is that of the whole |
| `Md5.GoesOn` | comm/md5.cpp:180-211 | after a digest the object continues the same message if and only if the last block has at least nine bytes free, or the end of the message happens to equal what is written over it |
| `Md5.TwoDigests` | comm/md5.cpp:93-99 | the second of two digests is that of what the object has gone on with, and equals the first if the object continues the same message |
| `Md5.DigestChanges` | comm/md5.cpp:196-210 | a message of 56 bytes after which the object continues another one |
| `Md5.WordRoundTrip` | comm/md5.cpp:301-320 | encoding and decoding a word are inverse |
| `Md5Suite.DigestOfAbc` | comm/md5.cpp:93-99 | the digest of "abc" is the one of section A.5 of RFC 1321 |
| `Md5Suite.BitsChosen` | comm/md5.cpp:23-39 | F takes each bit from its second or its third word as the first says, and G is F with the words in other roles |
| `Arc4.Generator.Init` | libevent-2.0.22-stable/arc4random.c:95-104 | the state becomes the identity |
| `Arc4.Generator.AddRandom` | libevent-2.0.22-stable/arc4random.c:106-121 | mixes the key in as the key schedule does, and the state stays a permutation |
| `Arc4.Generator.GetByte` | libevent-2.0.22-stable/arc4random.c:424-436 | one step of the generator; the state stays a permutation |
| `Arc4.PermutationOnce` | libevent-2.0.22-stable/arc4random.c:95-104 | in a permutation every byte occurs exactly once |
| `Arc4.MixedBack` | libevent-2.0.22-stable/arc4random.c:107-121 | a step can be undone by whoever knows the byte that was mixed in: no state is lost |
| `Arc4.Generator.Stir` | libevent-2.0.22-stable/arc4random.c:371-409 | stirring mixes all seeds in, one after the other, throws 3072 bytes away, and resets the count, but only if the generator has ever been seeded |
| `Arc4.Generator.Word` | libevent-2.0.22-stable/arc4random.c:438-449 | the next four bytes, the first of which is the highest |
| `Arc4.Generator.Random` | libevent-2.0.22-stable/arc4random.c:482-492 | the next word of the state, stirred if needed; a seeded generator hands out at most 1600003 bytes between two stirrings |
| `Arc4.Generator.Fill` | libevent-2.0.22-stable/arc4random.c:496-507 | the same for a buffer, whose bytes from the end on are the next ones of the generator; they are one stream unless it is stirred between them |
| `Arc4.LeastIsRemainder` | libevent-2.0.22-stable/arc4random.c:529-539 | `min` is 2^32 modulo the bound in both branches, also where 32-bit arithmetic wraps around |
| `Arc4.Unbiased` | libevent-2.0.22-stable/arc4random.c:509-554 | every result has the same number of accepted words: 2^32 divided by the bound |
| `Arc4.Generator.Uniform` | libevent-2.0.22-stable/arc4random.c:521-554 | the result is an accepted word reduced by the bound |
| `Base64.Table` | comm/base64.cpp:5-5 | the table is the alphabet of RFC 4648 |
| `Base64.Encode` | comm/base64.cpp:8-45 | the result is the encoding with a zero behind it, in memory of the size that the code computes in 32-bit numbers; longer inputs than 2^29 - 1 bytes are refused, or excluded where the memory would be too small |
| `Base64.EncoderFits` | comm/base64.cpp:13-43 | the size holds all that is written if and only if there are at most 2^29 - 1 bytes; for which longer inputs it is negative, and so refused, is stated exactly |
| `Base64.EncoderOverflows` | comm/base64.cpp:13-43 | for 2^30 bytes four are allocated |
| `Base64.FindPos` | comm/base64.cpp:47-51 | finds the place of a character in the table |
| `Base64.GroupRoundTrip` | comm/base64.cpp:20-40 | a group decodes to its bytes, and one zero more if it is padded |
| `Base64.RoundTrip` | comm/base64.cpp:8-122 | the decoder stores the bytes that were encoded, and one zero more if there is padding |
| `Base64.PaddingCounted` | comm/base64.cpp:67-78 | what the decoder counts at the end is the padding of the encoding |
| `Base64.AllocationFits` | comm/base64.cpp:78-116 | what the decoder allocates holds all it stores, the extra zero included, exactly for a whole number of groups, or one character more and at most one of padding; it is negative, and so refused, exactly for three characters with two or three of padding |
| `Base64.Decode` | comm/base64.cpp:54-122 | decodes into memory that is large enough |
| `Base64.EncodeThenDecode` | comm/base64.cpp:8-122 | decoding an encoding gives back exactly the bytes, for every non-empty byte string of at most 2^29 - 1 bytes (section 4 of RFC 4648) |

## Left out

- Evbuffers with pinned, immutable, reference or file chunks, their callbacks and the counters `n_add_for_cb` and `n_del_for_cb`, and locking of evbuffers.
- Reserving a single region, for which committing looks for the chunk in another place than reserving does; reading and writing descriptors; the line-oriented reading functions.
- `Evbuffers.Evbuffer.MovePrefix`: sources with an empty chain before the last one with data, for which the code leaves the destination's pointer before that chain; `RemoveBuffer`, `AddBuffer` and `PrependBuffer` are stated for compact buffers.
- `Evbuffers.Evbuffer.ReserveSpace`: two regions or more.
- Edge-triggered events, signals, and the hash-table variant of the descriptor map; events that two threads delete at once.
- `Evmap.Base.Dispatch`: waiting for events and reporting them is not part of it; the kernel is a map.
- Ticks shorter than a millisecond, for which the code divides by zero.
- Failures of `event_add` in the rate limiter, negative decrements beyond a bucket's maximum, and the bufferevent's own locking.
- `GroupProtocol.StepKeeps`: one group, a lock of its own for each bufferevent, and a configuration and a minimal share that do not change; suspending or resuming a member does not call back into the group.
- The heap of timeouts as a data structure (it is a set with a least element), deferred callbacks, signals, waking the loop from another thread, waiting for a running callback in event_del, and changing the number of priorities.
- `EventLoops.EventBase.ProcessActiveSingleQueue`: a bound on the number of callbacks stands for the possibility that callbacks refill their queue for ever.
- `EventLoops.EventBase.EventBaseInitCommonTimeout`: durations with more than a second in their microseconds, which the code normalises first; a duration is one number.
- Timeout values whose spare bits name a list that does not exist; microseconds and seconds are one number.
- `DnsNames.DnsnameToLabels`: the round trip is stated for names without empty labels; encoding without a table gives what encoding with an empty one gives, and is not modelled apart.
- `DnsNames.FormatResponse`: what a truncated response holds behind its header is not stated.
- Parsing of whole DNS replies and requests, the hosts file, resolv.conf, search lists, and the getaddrinfo interface.
- `DnsRequests.DnsBase.TransactionIdPick`: gives up after a number of draws, where the code draws for ever; ids stay distinct on all paths but the one that tries the next search domain, where the code draws before it pumps.
- `DnsRequests.DnsBase.ClearNameserversAndSuspend`: outstanding probes, whose cancellation would run in the middle of it.
- Names, types and handles of DNS requests, and failures to set a timer.
- `Tagging.DecodeTagInternal`: tags that go on behind five bytes, where the code reads what it has not pulled up and shifts by more than a word.
- Strings, timevals and 64-bit records of tagged data, and marshalling of whole buffers.
- `Md5.Hasher.Update`: pieces of more than 2^32 - 64 bytes, for which the code's 32-bit index overflows.
- Reading MD5 input from a file, and hexadecimal output.
- `Arc4.Generator.Uniform`: gives up after a number of words, where the code goes on; where the seeds come from.
- `Base64.Encode`: lengths from 2^29 on for which the memory is too small but not refused.
- `EventLoops.EventBase.EventPrioritySet`: internal events, whose priority the library sets once.
- `Base64.Decode`: characters outside the alphabet, strings shorter than three characters, and lengths for which the memory is too small.
- The string variants of the Base64 functions, and all of the repository's sockets, threads, logging and configuration.
