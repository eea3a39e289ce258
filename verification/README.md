# The event core of libhv, verified

libhv (`libs/libhv`) is the event library this repository carries: a loop with timers, io events and
events posted by other threads, framed reads, non-blocking writes, and the trees and buffers below them.
This project models that core and proves what it is for. Code that works in place is in place here too:
classes with the fields of the C structures, loops with invariants, trees and heaps of nodes with parent
and child links. `dafny verify dfyconfig.toml` checks all of it.

| file | models |
|---|---|
| `RbTheory.dfy`, `RbTree.dfy`, `RbWalk.dfy` | the red-black tree of `base/rbtree.c`: shape and keys as values, the links in place, walking |
| `Rudp.dfy` | the address map of `event/rudp.c` over that tree |
| `Heap.dfy` | the pointer heap of `base/heap.h`: node number n is where the bits of n lead |
| `Lifecycle.dfy` | the life of an event, as told by a record of what is done to it |
| `Events.dfy` | the pending lists and the macros of `event/hevent.h`, which write that record |
| `Timers.dfy` | the timers of `event/hloop.c` in their two heaps |
| `HLoop.dfy` | `hloop_process_pendings` with callbacks that work on any timer and event, `hloop_process_events` and `hloop_run` |
| `Unpack.dfy`, `ReadBuf.dfy` | what the unpackers of `event/unpack.c` find in a stream; the read buffer of `event/hevent.c` with the same unpackers in place, and reads of a number of bytes |
| `CustomEvents.dfy` | events posted across threads (`event/hloop.c`) and the functors of `evpp/EventLoop.h` above them, as actions of interleaved threads |
| `Queue.dfy`, `Nio.dfy` | the queue of `base/queue.h`; writing and closing an io (`event/nio.c`) |
| `Buffers.dfy` | `HVLBuf` and `HRingBuf` of `base/hbuf.h` |
| `Watchers.dfy` | the packed arrays and indexes of `event/poll.c` and `event/kqueue.c` under `hio_add` and `hio_del` |
| `Calendar.dfy`, `Ini.dfy`, `Socks5.dfy` | day arithmetic (`base/htime.c`), INI files (`cpputil/iniparser.cpp`), the handshake of `examples/socks5_proxy_server.c` (section 3 of RFC 1928, section 2 of RFC 1929) over the read buffer |
| `Bytes.dfy`, `Collections.dfy` | bytes and a few shared notions |

The clock, the results of system calls, the sizes of reads and what user callbacks do are parameters or
free choices, so each statement holds for all of them. Ghost fields record what the program does not
keep: what was delivered, what is on the wire, which ids were closed.

## Model

| member | source | states |
|---|---|---|
| RbTree.RotateLeft | libs/libhv/base/rbtree.c:25-43 | the links of a left rotation; the other links and the keys in order stay |
| RbTree.RotateRight | libs/libhv/base/rbtree.c:45-63 | the links of a right rotation; the other links and the keys in order stay |
| RbTree.InsertColor | libs/libhv/base/rbtree.c:65-128 | after a red leaf is linked the loop ends in a red-black tree, linked exactly, whose keys are the old ones with the new one at its place |
| RbTree.EraseColor | libs/libhv/base/rbtree.c:130-220 | from a tree that is one black node short at one place the loop ends in a red-black tree with the same keys in the same order |
| RbTree.Erase | libs/libhv/base/rbtree.c:222-294 | erasing any node leaves exactly the other nodes, linked as a red-black tree, with the remaining keys in their order |
| RbTheory.HeightLogarithmic | libs/libhv/base/rbtree.c:65-128 | 2 to the height of a red-black tree of n keys is at most (n + 1) squared |
| RbWalk.First | libs/libhv/base/rbtree.c:299-309 | the first key in order, null for an empty tree |
| RbWalk.Last | libs/libhv/base/rbtree.c:311-321 | the last key in order, null for an empty tree |
| RbWalk.Next | libs/libhv/base/rbtree.c:323-344 | the in-order successor of any node, null at the last |
| RbWalk.Prev | libs/libhv/base/rbtree.c:346-363 | the in-order predecessor of any node, null at the first |
| RbWalk.NextPrevInverse | libs/libhv/base/rbtree.c:323-363 | stepping forward and stepping back undo each other, and stop exactly at the ends |
| RbWalk.ReplaceNode | libs/libhv/base/rbtree.c:365-386 | the new node takes over the victim's place, links and colour |
| Rudp.LinkNode | libs/libhv/base/rbtree.h:138-145 | a red leaf under the parent found, linked both ways |
| Rudp.MemcmpOrder | libs/libhv/event/rudp.c:39-47 | `memcmp` on addresses of one size is 0 only for equal ones, and its sign is an order |
| Rudp.MemcmpFirst | libs/libhv/event/rudp.c:39-47 | the first byte in which two addresses differ decides |
| Rudp.StoredPadded | libs/libhv/event/rudp.c:113-119 | rudp_get stores the address it was given exactly when that is zero-padded |
| Rudp.StoredExactly | libs/libhv/event/rudp.c:113-119 | of an IPv4 address the family, the port, the address and the padding are stored, any other address whole |
| Rudp.RudpMap.Unique | libs/libhv/event/rudp.c:32-57 | no two entries have the same address |
| Rudp.RudpMap.Insert | libs/libhv/event/rudp.c:32-57 | an entry is added, and the answer true, exactly when its address has no entry; the map stays an ordered red-black tree |
| Rudp.RudpMap.Search | libs/libhv/event/rudp.c:59-77 | the entry of the address or null, with one comparison for each node on the way to it or to its place |
| Rudp.SearchLogarithmic | libs/libhv/event/rudp.c:59-77 | so many comparisons are at most 2 log2(n + 1) for n entries |
| Rudp.RudpMap.Remove | libs/libhv/event/rudp.c:79-89 | exactly the entry of the address is unlinked and handed back |
| Rudp.RudpMap.Get | libs/libhv/event/rudp.c:91-124 | the entry of the address, or a new one with the stored form of it; the map stays ordered for a zero-padded address |
| Rudp.RudpMap.GetTwice | libs/libhv/event/rudp.c:91-124 | in a map of zero-padded addresses two gets of one address give the same entry if and only if that address is zero-padded |
| Rudp.RudpMap.Cleanup | libs/libhv/event/rudp.c:20-30 | erasing from the root ends with the empty map |
| Heap.PathBits | libs/libhv/base/heap.h:79-85 | the bits computed are those of `nelts` below its leading one, in the order of the descent |
| Heap.TurnsReach | libs/libhv/base/heap.h:83-93 | descending by these bits reaches slot number n |
| Heap.Swap | libs/libhv/base/heap.h:45-74 | parent and child change slots; every link of the heap is again that of the slots |
| Heap.Insert | libs/libhv/base/heap.h:76-107 | the nodes with the new one are a complete tree, linked exactly, in heap order |
| Heap.Remove | libs/libhv/base/heap.h:109-166 | removing any member leaves the others a complete tree, linked exactly, in heap order |
| Heap.Dequeue | libs/libhv/base/heap.h:168-170 | takes out a node that no other precedes |
| Heap.RootEarliest | libs/libhv/base/heap.h:76-166 | the root is due no later than any other node, and `nelts` counts the nodes |
| Events.Loop.SetPending | libs/libhv/event/hevent.h:257-266 | the event is linked once, in front of the others of its priority, and counted; `joined` records it exactly when it was not linked before |
| Events.Loop.Del | libs/libhv/event/hevent.h:276-282 | the record notes the deletion, which has its effect; the event is freed while linked exactly when it is active, linked and not pending |
| Events.FreedWhileLinked | libs/libhv/event/hevent.h:276-289 | a timer reset and deleted while it waits for its turn: it is freed and on its list |
| Events.Loop.Reset | libs/libhv/event/hevent.h:284-289 | active, unmarked, not pending, noted, and `nactives` still counts the active events |
| Events.Loop.Finish | libs/libhv/event/hloop.c:125-129 | no longer pending, and freed when it is marked |
| Timers.Advance | libs/libhv/event/hloop.c:76-78 | the first time after now that is a whole number of timeouts later |
| Timers.GranularLater | libs/libhv/event/hloop.c:617-621 | a timer is due the full timeout from now, or, for whole tenths of a second from one second on, at the last tenth of a second before that, and never at once |
| Timers.DueWithin | libs/libhv/event/hloop.c:617-621 | so between nine tenths of the timeout and all of it |
| Timers.FiringCounted | libs/libhv/event/hloop.c:64-71 | the countdown is over with exactly the last of the firings asked for |
| Timers.TimerLoop.Fire | libs/libhv/event/hloop.c:58-89 | the due root becomes pending and leaves the heap with its last firing, or is back with a time after now |
| Timers.TimerLoop.ProcessHeap | libs/libhv/event/hloop.c:55-91 | exactly the due timers become pending, once each, and those left are due later |
| Timers.TimerLoop.ProcessTimers | libs/libhv/event/hloop.c:93-98 | both heaps, each by its own clock; `ntimers` stays the number of waiting timers |
| Timers.FirstFiring | libs/libhv/event/hloop.c:55-98 | a new timer has had no turn when its timeout is not over, less a tenth of a second if it is coarse, and one when it is |
| Timers.TimerLoop.Unlink | libs/libhv/event/hloop.c:677-686 | out of its heap and marked, unless it was marked already |
| Timers.TimerLoop.Add | libs/libhv/event/hloop.c:608-626 | a timer with that time and a callback, waiting in its heap; none for a timeout of 0 |
| Timers.TimerLoop.AddPeriod | libs/libhv/event/hloop.c:654-675 | a period timer waiting in its heap; none for a field out of range |
| Timers.TimerLoop.Delete | libs/libhv/event/hloop.c:688-692 | in no heap any more; its event is deleted, whatever state it is in |
| Timers.TimerLoop.Reset | libs/libhv/event/hloop.c:628-652 | back in its heap with that time, counted from now, and its countdown anew; a period timer is left alone |
| Lifecycle.TimerCalledWhen | libs/libhv/event/hloop.c:119-132 | in a batch that comes to each event once, a timer or idle event is called exactly when it was active at the start and has been neither deleted nor reset before its turn |
| Lifecycle.IoCalledWhen | libs/libhv/event/hloop.c:119-132 | an io event is called exactly when it was last switched on |
| Lifecycle.UntouchedCalled | libs/libhv/event/hloop.c:119-132 | an event nobody touched is called exactly when the batch came to it and it was pending and active at the start |
| Lifecycle.CallsInOrder | libs/libhv/event/hloop.c:109-137 | the events called are among those reached, once each, and priorities never rise |
| Lifecycle.FreedEarly | libs/libhv/event/hevent.h:276-289 | a pending event is freed while it is linked exactly when it is reset and then deleted before its turn is over |
| Lifecycle.Ends | libs/libhv/event/hloop.c:109-137 | a batch comes to its end, with nothing linked, exactly when that has happened to none of its events |
| HLoop.New | libs/libhv/event/hloop.c:415-421 | a new loop is idle and has no timers |
| HLoop.Callback | libs/libhv/event/hloop.c:583-692 | whatever calls a callback makes on timers, idle and io events, both heaps hold exactly the timers that wait, and the record accounts for every flag of every event |
| HLoop.Turn | libs/libhv/event/hloop.c:119-132 | the event reached is called exactly if it is pending and active and has a callback; its turn ends, or it is freed by then and used all the same |
| HLoop.ProcessPendings | libs/libhv/event/hloop.c:109-137 | every flag is what the record of the calls makes of it; each event reached is called if and only if it is pending and active then and has a callback; a batch comes to all linked events in the order of the lists, highest priority first, and leaves nothing pending, if and only if no event was reset and then deleted before its turn was over |
| HLoop.FireTimers | libs/libhv/event/hloop.c:93-98 | with every timer ever made accounted for: exactly the due ones become pending and fire once |
| HLoop.JoinedWhenDue | libs/libhv/event/hloop.c:140-190 | after the io events and then the due timers have joined the lists, each due timer has become pending once more and no other timer has |
| HLoop.RanOnce | libs/libhv/event/hloop.c:109-137 | a whole batch runs the callback of each due timer that nobody touches once, and of no other such timer |
| HLoop.Round | libs/libhv/event/hloop.c:140-190 | whatever callbacks do: exactly the due timers become pending; of the timers no callback touches, those due fire and are called once, the others are as they were; both heaps stay in order |
| HLoop.WatchedOn | libs/libhv/event/hloop.c:64-88 | processing counts a timer up exactly when it is due, and it leaves its heap with exactly the last of its firings |
| HLoop.Run | libs/libhv/event/hloop.c:453-468 | in any run, with callbacks that add, delete and reset other timers: a timer nobody deletes or resets fires first in the first round whose clock has reached its time; it becomes pending and its callback runs as often as it fires, by the loop's own record of both; with a countdown of n it is freed exactly with the n-th time, and is waiting until then |
| Unpack.StepStable | libs/libhv/event/unpack.c:22-174 | what the first bytes of a stream decide, later bytes do not change |
| Unpack.ParseAppend | libs/libhv/event/unpack.c:22-174 | unpacking in two reads is unpacking in one |
| Unpack.ChunksDoNotMatter | libs/libhv/event/unpack.c:22-174 | packages, leftover bytes and verdict are the same for every split into reads |
| Unpack.PackagesBounded | libs/libhv/event/unpack.c:83-101 | no package is empty or longer than `package_max_length` |
| Unpack.ParseKeepsBytes | libs/libhv/event/unpack.c:22-174 | packages and leftover bytes are the stream; what stopped the unpacker comes next in it |
| Unpack.MessagesComeBack | libs/libhv/event/unpack.c:22-174 | messages sent one after the other come out as they went in |
| Unpack.GreedySplit | libs/libhv/event/unpack.c:52-104 | the delimiter mode delivers these pieces and keeps that rest if and only if together they are the stream, each piece ends with its first delimiter and is not too long, and the rest has none and is shorter than the limit |
| Unpack.DelimiterFails | libs/libhv/event/unpack.c:83-101 | it gives up if and only if none of the first `package_max_length` bytes ends a piece |
| Unpack.FixedSplit | libs/libhv/event/unpack.c:22-50 | the fixed-length mode delivers these pieces and keeps that rest if and only if together they are the stream, each piece has exactly the length and the rest is shorter; it never gives up |
| Unpack.MessageIncomplete | libs/libhv/event/unpack.c:22-174 | of a message that is not complete nothing is delivered |
| Unpack.BeRoundTrip | libs/libhv/event/unpack.c:121-125 | a big-endian field of a number that fits reads back |
| Unpack.LeRoundTrip | libs/libhv/event/unpack.c:126-130 | a little-endian field of a number that fits reads back |
| Unpack.VarintRoundTrip | libs/libhv/base/hmath.h:28-66 | what varint_encode writes has the value again |
| Unpack.VarintEndFound | libs/libhv/base/hmath.h:42-66 | varint_decode finds the end of what varint_encode wrote, whatever follows |
| Unpack.VarintFits | libs/libhv/base/hmath.h:28-40 | a number below 2 to the 7n takes at most n bytes |
| Unpack.FramedStep | libs/libhv/event/unpack.c:106-174 | what a sender frames by the setting is one package, whatever the coding, and one beyond the limit ends the stream |
| Unpack.EndlessWhen | libs/libhv/event/unpack.c:118-153 | some stream sends the loop round for ever if and only if the head may be read at all and the field is a varint or has room for the vanishing length |
| Unpack.EndlessBytes | libs/libhv/event/unpack.c:118-153 | so always with four bytes, never with fewer for heads of a usual size |
| ReadBuf.ReadIo.AllocReadbuf | libs/libhv/event/hevent.c:694-709 | the bytes in the buffer stay as far as they fit; beyond the limit the io is given up |
| ReadBuf.ReadIo.UnpackByFixedLength | libs/libhv/event/unpack.c:22-50 | the buffer is cut as the stream is, by `Unpack.FixedSplit` in pieces of exactly the fixed length, and what is left is at its front |
| ReadBuf.ReadIo.UnpackByDelimiter | libs/libhv/event/unpack.c:52-104 | resuming just before the new bytes misses nothing: the buffer is cut as the stream is |
| ReadBuf.ReadIo.UnpackByLengthField | libs/libhv/event/unpack.c:106-174 | the buffer is cut as the stream is, and doubled or grown up to the limit when a package does not fit |
| ReadBuf.ReadIo.VarintDecode | libs/libhv/base/hmath.h:42-66 | the value and size of the varint, 0 when it goes on behind the buffer, -1 beyond ten bytes |
| ReadBuf.ReadIo.Autosize | libs/libhv/event/hevent.c:375-393 | a full buffer is compacted if that makes room, and doubled or the io given up if not; a big one with little in it is halved; the bytes not delivered stay |
| ReadBuf.ReadIo.HandleRead | libs/libhv/event/hevent.c:328-394 | in the plain and unpack modes the outcome is that of the stream, but for a full buffer that ends within a varint |
| ReadBuf.ReadIo.NioRead | libs/libhv/event/nio.c:300-344 | after every read on an open io there is room for the next |
| ReadBuf.ReadIo.SetUnpack | libs/libhv/event/hevent.c:830-861 | an own buffer of the size of the setting, and the default limit for 0 |
| ReadBuf.ReadIo.ReadStream | libs/libhv/event/nio.c:300-344 | for reads of any sizes the callback gets the packages of the stream; with room for a varint there is no exception |
| ReadBuf.ReadIo.RoomForVarints | libs/libhv/event/unpack.c:160-170 | any coding but varint, or twice the bytes before the end of a varint, rules the exception out |
| ReadBuf.CrowdedMessage | libs/libhv/event/unpack.c:131-143 | a message within the limit whose varint crosses the end of an 8192-byte buffer |
| ReadBuf.Crowded | libs/libhv/event/hevent.c:378-393 | the io that reads it is given up |
| ReadBuf.ReadIo.ReadUntilLength | libs/libhv/event/hevent.c:766-789 | enough bytes are there and are delivered, or the io waits for them in a buffer with room |
| ReadBuf.ReadIo.NioReadUntil | libs/libhv/event/hevent.c:343-352 | the callback gets its bytes with the last of them and no others are read |
| ReadBuf.ReadIo.AfterRead | libs/libhv/event/hevent.c:375-393 | the room is lost if and only if a big buffer is halved below the bytes waited for |
| ReadBuf.CutOnce | libs/libhv/event/hevent.c:343-352 | bytes that arrive are kept or complete the piece waited for |
| ReadBuf.ReadIo.ReadLengths | libs/libhv/event/nio.c:300-344 | for reads of any sizes the callback gets the stream cut at exactly the numbers it asks for; up to 64 KiB a time nothing goes wrong |
| ReadBuf.Halved | libs/libhv/event/hevent.c:375-393 | a sequence of requests after which a buffer of 35000 bytes waits for 70000 |
| CustomEvents.InvKept | libs/libhv/event/hloop.c:202-309 | the counts of the fd and the reader are the queue's but for the poster between its write and its push, under every action of every thread |
| CustomEvents.EveryRun | libs/libhv/event/hloop.c:202-309 | in every interleaving no pop finds an empty queue, events are delivered once in the order of their pushes, and none is stranded |
| CustomEvents.PostedExactly | libs/libhv/event/hloop.c:273-309 | in every interleaving the events pushed are, push by push, those their threads have posted last; each event posted is pushed, on its way or dropped as often as it was posted; the functors queued are those of the layered posts, in order |
| CustomEvents.HandledWasPosted | libs/libhv/event/hloop.c:202-309 | every event handled was posted, and none is handled more often than it was posted |
| CustomEvents.PostGoesThrough | libs/libhv/event/hloop.c:273-309 | a post puts its event behind the queue and one count into the fd, and nothing else changes |
| CustomEvents.FailedPost | libs/libhv/event/hloop.c:273-309 | a post whose write fails leaves nothing but its functor |
| CustomEvents.SomebodyCan | libs/libhv/event/hloop.c:202-309 | in every interleaving some thread can go on, unless all is quiet and the queue is empty |
| CustomEvents.LoopDeliversAll | libs/libhv/evpp/EventLoop.h:162-225 | from any quiet state steps of the loop thread alone handle every event posted but those whose write failed, and run every functor but as many as posts have failed |
| Queue.Queue.PushBack | libs/libhv/base/queue.h:83-93 | the sequence with the element behind it, whether the array grows, shifts or has room |
| Queue.Queue.PopFront | libs/libhv/base/queue.h:94-98 | the sequence without its first element |
| Queue.Queue.Resize | libs/libhv/base/queue.h:73-77 | the same sequence in a bigger array |
| Nio.WriteIo.Write | libs/libhv/event/nio.c:483-565 | the new state and the result are those of the specification below, and of `Nio.WriteExactly` field by field |
| Nio.WriteExactly | libs/libhv/event/nio.c:483-565 | hio_write succeeds if and only if the io is open, the socket was not asked, is not ready or takes some bytes, and the rest fits; then it returns the number taken, and the rest is queued, counted and watched for; every other field is told as well |
| Nio.WriteAccepts | libs/libhv/event/nio.c:483-565 | so a write that does not fail will send all its bytes and has sent those it counts; one that fails queues nothing, and a stream is going to be closed |
| Nio.WriteIo.Close | libs/libhv/event/nio.c:567-605 | the new state is that of the specification below |
| Nio.CloseKeeps | libs/libhv/event/nio.c:567-585 | a close with bytes queued keeps them if and only if no close waits and there has been no error |
| Nio.ActsKeep | libs/libhv/event/nio.c:387 | whatever a write callback does, the queue is taken away exactly when it closes an io with a close waiting or an error |
| Nio.TurnKeeps | libs/libhv/event/nio.c:365-399 | one turn keeps bytes, counts and flags, and the program goes on with a buffer that is gone if and only if the turn loses it |
| Nio.NioWriteKeeps | libs/libhv/event/nio.c:352-406 | any number of turns: a close that waits is carried out when all is sent, a turn fails or a callback closes |
| Nio.WriteIo.NioWrite | libs/libhv/event/nio.c:352-406 | the loop in place computes exactly that |
| Nio.TurnExactly | libs/libhv/event/nio.c:365-405 | one turn field by field: what the socket takes goes on the wire and out of the queue and its count; a failed write closes a stream or leaves the close waiting; a close that waits is carried out with the last byte |
| Nio.GoesOn | libs/libhv/event/nio.c:365-399 | the loop takes the next buffer if and only if the socket has taken the whole of one, the io is open and there is a next one |
| Nio.CallbackCalls | libs/libhv/event/nio.c:387 | what a write callback does in the middle of a buffer is what the same calls do after the turn |
| Nio.Drains | libs/libhv/event/nio.c:352-406 | a socket that takes what it is given gets all that is queued, and then a close that waits is carried out |
| Nio.WriteIo.HandleWritable | libs/libhv/event/nio.c:418-434 | the queue is sent as far as it goes, and an empty one is no longer watched |
| Nio.WriteIo.HandlePosted | libs/libhv/event/hloop.c:815-820 | a close posted for an earlier use of the io is ignored |
| Nio.PostedCloses | libs/libhv/event/hloop.c:815-820 | a close posted for this use of the io closes it, or waits for queued bytes if it is the first and nothing has failed; the timeout closes it at once |
| Nio.PostsClose | libs/libhv/event/hloop.c:822-830 | a close from elsewhere is posted with the id of this use, and nothing else changes |
| Nio.NothingToWrite | libs/libhv/event/nio.c:418-434 | an io that is ready and has nothing to write is no longer watched for that, and nothing else changes |
| Nio.ReusedAsNew | libs/libhv/event/hevent.c:87-132 | an io used again is as good as new, under an id that it never had |
| Nio.WriteIo.CloseTimeout | libs/libhv/event/nio.c:23-34 | the timer of a close that waits forces it |
| Nio.AfterKeeps | libs/libhv/event/nio.c:352-605 | every call keeps what RunKeeps says |
| Nio.RunKeeps | libs/libhv/event/nio.c:352-605 | in any run the bytes the socket has and the queued ones are all those accepted, in order and counted; queued bytes are watched for; no id is closed twice |
| Nio.DeferredClose | libs/libhv/event/nio.c:352-364 | only another close, the timeout, the last byte sent, a failed write or a closing callback carries out a close that waits |
| Nio.GracefulClose | libs/libhv/event/nio.c:352-364 | left alone, a close that waits closes the io only when every byte accepted has been sent, in any run |
| Nio.AbortsWhen | libs/libhv/event/nio.c:387-398 | the exact turn and callback for which the program goes on with a buffer that is gone |
| Nio.ClosedAgain | libs/libhv/event/nio.c:387-398 | a byte queued, a close, and a write callback that closes again: it happens |
| Nio.NothingLost | libs/libhv/event/nio.c:387-398 | in runs whose write callbacks close nothing it never happens |
| Nio.WriteIo.Live | libs/libhv/event/nio.c:352-605 | the io in place takes any sequence of calls to the state of the specification |
| Buffers.HVLBuf.PushFront | libs/libhv/base/hbuf.h:128-143 | the bytes come before the contents, whatever is moved or grown |
| Buffers.HVLBuf.PushBack | libs/libhv/base/hbuf.h:145-157 | the bytes come behind the contents |
| Buffers.HVLBuf.PopFront | libs/libhv/base/hbuf.h:159-168 | the first bytes are taken, or none when there are too few |
| Buffers.HVLBuf.PopBack | libs/libhv/base/hbuf.h:170-177 | the last bytes are taken, or none when there are too few |
| Buffers.HRingBuf.Alloc | libs/libhv/base/hbuf.h:210-233 | a block that joins the live ones, exactly when there is room at the end or the start |
| Buffers.HRingBuf.Free | libs/libhv/base/hbuf.h:235-245 | freeing the oldest block brings the head to the next one, or to the gap before one that is longer than the gap |
| Buffers.HRingBuf.LiveBlocks | libs/libhv/base/hbuf.h:204-254 | live blocks lie inside the buffer and never overlap |
| Watchers.PollLoop.AddEvent | libs/libhv/event/poll.c:42-72 | the element of the fd gets the events, or a new one is appended and indexed |
| Watchers.PollLoop.DelEvent | libs/libhv/event/poll.c:74-99 | the element loses the events, or the last one takes its place and its index follows |
| Watchers.PollLoop.HioAdd | libs/libhv/event/hloop.c:768-793 | a request that does not overlap what is watched is added, any other is ignored as a whole; the array has exactly the events recorded, in one element of the fd; indexes and records agree |
| Watchers.PollLoop.HioDel | libs/libhv/event/hloop.c:795-813 | exactly the events asked for are taken away, and the element with the last of them; the io is active as long as there are any; indexes and records agree |
| Watchers.PollLoop.Facts | libs/libhv/event/poll.c:42-99 | an io has an index exactly when events are recorded for it, and the element there is its own |
| Watchers.KqueueLoop.AddFilter | libs/libhv/event/kqueue.c:58-82 | the change is appended, or written where the filter's index says |
| Watchers.KqueueLoop.DelFilter | libs/libhv/event/kqueue.c:94-121 | the last change takes the place of the one removed and the index of its filter follows |
| Watchers.KqueueLoop.HioAdd | libs/libhv/event/hloop.c:768-793 | a request that does not overlap what is watched is added, any other is ignored as a whole; the kernel watches exactly the filters recorded; array and indexes agree |
| Watchers.KqueueLoop.HioDel | libs/libhv/event/hloop.c:795-813 | exactly the events asked for are taken away, in the record and in the kernel; the io is active as long as there are any; array and indexes agree |
| Calendar.DayNumberUnique | libs/libhv/base/htime.c:108-114 | a day number belongs to one valid date |
| Calendar.DaysByName | libs/libhv/base/htime.c:108-114 | the days of each month, by its name |
| Calendar.Datetime.Past | libs/libhv/base/htime.c:116-132 | ends on the valid date whose day number is that many less |
| Calendar.Datetime.Future | libs/libhv/base/htime.c:134-152 | ends on the valid date whose day number is that many more |
| Calendar.Datetime.ThereAndBack | libs/libhv/base/htime.c:116-152 | each undoes the other |
| Ini.IniParser.LoadFromMem | libs/libhv/cpputil/iniparser.cpp:130-223 | the line loop builds the tree that the load of the text is defined as |
| Ini.LinesBack | libs/libhv/cpputil/iniparser.cpp:136-147 | the lines are the text cut at each newline, with the one at the end or without |
| Ini.PairRead | libs/libhv/cpputil/iniparser.cpp:155-211 | what is before the first `=` and behind it are a key and its value, whatever spaces and comment are around them |
| Ini.PairWritten | libs/libhv/cpputil/iniparser.cpp:155-211 | and a line is a key with that value only if it is written so |
| Ini.HeadRead | libs/libhv/cpputil/iniparser.cpp:155-191 | a name between brackets is a section |
| Ini.HeadWritten | libs/libhv/cpputil/iniparser.cpp:155-191 | and a line is a section of that name only if it is written so |
| Ini.RemarkWritten | libs/libhv/cpputil/iniparser.cpp:148-174 | a line is blank if and only if it has nothing but spaces, and a remark if and only if nothing else comes before a comment |
| Ini.IniParser.DumpString | libs/libhv/cpputil/iniparser.cpp:225-267 | the text that the dump of the tree is defined as |
| Ini.IniParser.GetSections | libs/libhv/cpputil/iniparser.cpp:288-298 | the names of all the sections, by their places in the tree in order |
| Ini.IniParser.GetKeys | libs/libhv/cpputil/iniparser.cpp:300-316 | the keys of the first section of the name, or of the root without a name, by their places in order |
| Ini.IniParser.GetValue | libs/libhv/cpputil/iniparser.cpp:318-331 | the value at the least place with the key in the section at the least place with the name, or in the root without a name; an empty string if there is none |
| Ini.ReadsFromLines | libs/libhv/cpputil/iniparser.cpp:130-331 | loaded from any text, it is the value of the first line with the key that belongs to the first section of the name, or comes before every section |
| Ini.DumpKeepsLines | libs/libhv/cpputil/iniparser.cpp:130-267 | for every text, the dump has, line by line, exactly the lines of the text that are not malformed: sections, pairs with their comments, blank lines and remarks |
| Ini.DumpIsFixpoint | libs/libhv/cpputil/iniparser.cpp:130-267 | for every text, loading the dump and dumping again gives the same text |
| Ini.ReloadKeepsAll | libs/libhv/cpputil/iniparser.cpp:130-267 | the reloaded tree has the same sections, keys, values and comments in the same order |
| Ini.ReloadAnswersTheSame | libs/libhv/cpputil/iniparser.cpp:288-331 | every question for sections, keys and values has the same answer after saving and loading |
| Socks5.ServerAcceptsHandshakes | libs/libhv/examples/socks5_proxy_server.c:134-364 | the states reach the upstream if and only if the client has sent a whole handshake, with exactly the configured credentials if there are any, a name in it is found and the connection comes about; it is that of the address and the port in the request |
| Socks5.Server.OnRecv | libs/libhv/examples/socks5_proxy_server.c:134-364 | each state does what the specification says, and each handler has the number of bytes it asserts |
| Socks5.Server.Receive | libs/libhv/event/hevent.c:343-352 | a read of any size: on_recv gets exactly the bytes its state asked for, which come next in the stream, or is not called |
| Socks5.Server.Run | libs/libhv/examples/socks5_proxy_server.c:366-386 | over the read buffer and for every split into reads: the upstream is reached if and only if the client has sent a whole handshake, a name in it is found and the connection comes about; it is the one the request names; a client that has sent as much as the longest handshake is connected or closed |

## Findings

Where the code does not meet a property, the model follows the code, and the exact condition is proved.

- `rudp_get` (`event/rudp.c:113-119`) stores fewer bytes than it compares. An address with bytes behind its
  `sockaddr_len` that are not zero gets a new entry with every call: `Rudp.RudpMap.GetTwice`.
- In `hio_unpack_by_length_field` (`event/unpack.c:143-148`) a package length that wraps around to 0 is
  delivered over and over. Some stream does that for every varint setting, and for a fixed field exactly when
  it has room for the vanishing length: `Unpack.EndlessWhen`.
- A varint that crosses the end of a full buffer is not waited for: package_len is still that of the head, so
  the buffer is not grown, and doubling it may exceed the limit. An io whose limit allows the message is then
  given up (`event/hevent.c:379-382`): `ReadBuf.Crowded`, with the exact condition in `ReadBuf.ReadIo.HandleRead`
  and a sufficient one for settings in `ReadBuf.ReadIo.RoomForVarints`.
- After three small packages in a buffer of more than 64 KiB the buffer is halved, also when
  `hio_read_until_length` has just asked for more than half of it (`event/hevent.c:386-393`). The next bounded
  read is then longer than the buffer: `ReadBuf.Halved`; exactly when, in `ReadBuf.ReadIo.AfterRead`. It cannot
  happen while no more than 64 KiB are asked for at a time (`ReadBuf.ReadIo.ReadLengths`).
- A write callback that closes an io on which a close waits or an error is set empties the queue, and
  `nio_write` goes on to free the front buffer again and to pop from the empty queue
  (`event/nio.c:387-392`): `Nio.ClosedAgain`; exactly when, in `Nio.AbortsWhen` and `Nio.CloseKeeps`.
- `EVENT_RESET` (`event/hevent.h:284-289`) clears the pending mark of an event that is still linked. If it is
  deleted before its turn is over, `EVENT_DEL` frees it at once, and `hloop_process_pendings` goes on to use it:
  `Events.FreedWhileLinked`; exactly when, in `Events.Loop.Del` for one deletion, in `Lifecycle.FreedEarly` for
  one event and in `HLoop.ProcessPendings` for a whole batch.

## Left out

- HLoop.ProcessPendings: callbacks add, delete and reset timers, add and delete idle events, and switch io events; an event keeps its callback. Nothing is called on what is freed. A batch that breaks ends where it would use a freed event.
- HLoop.Round: `hloop_process_idles` is left out, so idle events are only added and deleted.
- HLoop.Run: the status and the flags of the loop are left out, but for what a program may do between two rounds when each is a call of its own.
- Timers.TimerLoop.AddPeriod: the time comes from cron_next_timeout, which is not part of this model; each next time is taken to be later than now.
- Timers.TimerLoop.Add: times are unbounded, not 64-bit microseconds.
- ReadBuf.ReadIo.HandleRead: plain and unpack callbacks only look at the bytes. One that closes the io has its own buffer freed, over which an unpacker goes on when bytes follow the package. When an unpacker gives the io up, the model ends there, before the autosize of what is by then the loop's buffer.
- ReadBuf.ReadIo.SetUnpack: on an io that keeps no bytes from other reads, and not with a length field of no bytes.
- ReadBuf.ReadIo.ReadUntilLength: not together with an unpack setting, and reading is not taken up again by hio_read after a delivery; a buffer refused by hio_alloc_readbuf ends the io at once, not with the posted close.
- ReadBuf.ReadIo.AllocReadbuf: a buffer that the program sets itself (hio_set_readbuf) is not modelled.
- Nio.WriteIo.Write: up to its write callback; what that does are the next calls, as the lock is free by then. Calls of other threads take effect one at a time.
- Nio.WriteIo.Close: TLS, connect timers and the read side of the teardown are not modelled; a close callback does nothing to the io.
- Rudp.RudpMap.Get: addresses have the size of sockaddr_u without Unix-domain sockets; the KCP session of an entry is not modelled.
- Heap.Insert: the comparison is that of timers_compare, and a node is in one heap at most.
- CustomEvents.EveryRun: the fd counts events, which an eventfd, a pipe and a socket pair all do; hmutex and std::mutex are single locks.
- Buffers.HRingBuf.Free: blocks are freed whole, in the order of their allocation.
- Ini.DumpIsFixpoint: trees come from loading; SetValue, the typed getters and files are left out.
- Calendar.Datetime.Past: years are unbounded.
- Watchers.KqueueLoop.HioAdd: kevent does what each change says; errors are left out.
- Socks5.Server.OnRecv: what the server writes back is left out; a host name is resolved to some address.
- hio_read_until_delim: its buffered scan looks one byte past the data.
- event/select.c: after deleting the largest fd its maximum may be too small, so its index claim does not hold.
- hobjectpool.h, netinet.h, hurl.cpp, audio_queue.h: easier members.
- HTTP, WebSocket, SSL, DNS, logging, processes, thread pools and everything in `src`: calls into code outside this repository, or wrappers.
- Allocation failure, which ends the process.
