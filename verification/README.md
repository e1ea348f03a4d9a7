# Verified models of the TCP stack and its libraries

This project models the parts of the repository whose correctness spans many operations, and proves
what they keep. Code that changes objects in place is modelled by classes and methods proved against
pure specifications; concurrent and networked code by state machines whose steps are its critical
sections or packets, with the properties proved over all runs.

| files | what they model |
|---|---|
| `RbTree` `RbHeap` `RbRotate` `RbInsert` `RbEraseColor` `RbErase` `RbReplace` `RbWalk` `RbAugment` `RbAugmentHeap` | red-black trees with parent pointers (`src/rb_tree.c`) |
| `AcoLayout` `AcoMachine` `AcoCounts` `AcoHeap` `AcoSystem` `AcoTurns` | coroutines on shared stacks (`libaco/`) |
| `Gbn` `GbnSocket` | go-back-N transfer (`src/kernel.c`, `src/tju_tcp.c`, `src/timer.c`, `src/api.c`) |
| `Congestion` `Connection` | congestion control; opening and closing a connection |
| `ThreadPool` `ThreadPoolHeap` | the thread pool (`src/thpool.c`) |
| `RingQueue` `BufferedChannel` `UnbufferedChannel` `ChannelHeap` | channels (`src/chan.c`, `src/queue.c`) |
| `PacketCodec` | the packet codec and checksum (`src/tju_packet.c`, `src/tju_tcp.c`) |
| `Common` `Threads` | an option type and bytes; counting threads |

`dafny verify dfyconfig.toml` checks everything.

## How the models are built

**Red-black trees.** A tree is a value, and a place in it is a pair of the path from the root and the
subtree below. The nodes on the heap are one value too, a store; `At(p, t, x, st)` says that the store is
exactly the tree with `t` at the end of `p`, that `x` points there, and that all parent links are
consistent. The methods follow the C code and move from store to store; what the loops achieve is proved
about path and subtree by induction. A callback of the augmented tree is any function of a node's own
datum and its children's kept values.

**Coroutines.** A switch stores the leaver's stack pointer and passes control. Between a resume and a yield
the running coroutine may write anything below the protector word. The machine with one private stack for
each coroutine is the specification. The objects of a thread together show a state of the copying machine;
every call is proved to take the machine's step on them.

**Transfer.** A network is the set of packets that may still arrive: delivering one leaves it there, losing
one removes it. Copies of handshake packets may be there from the start. The stream is what passed the
window guard; an account of the calls and acknowledgements alone says what that is. Sequence numbers are unbounded and the window buffer has any capacity that the stream fits,
since the code indexes it by absolute sequence number.

**Thread pool and channels.** A thread is a place in its code; a condition variable is the set of threads
asleep on it; a signal wakes an arbitrary one of them. Threads may also wake up for no reason unless a
statement says otherwise.

## What turned out differently than documented

- The timer's first callback after connecting sets `finished_handshake` without starting the timer again, so
  data lost by that moment is not retransmitted, and nothing sent later gets through either
  (`Gbn.FirstTimeoutIsLost`), unless the receiver's own first callback acknowledges once more; what that
  repairs is `Gbn.AckAgainRepairs`. The exact condition for recovery by timeouts is `Gbn.RecoversExactly`.
- After `tcp_accept` has set both ends of the window to 0, a copy of the client's last handshake packet, an
  acknowledgement with number 23, moves `base` beyond `nextseq`, and the next timeout exits the process
  (`Gbn.NegativeExitExactly`). The order of the data is kept all the same.
- A stale acknowledgement moves `base` back. This never breaks the order of the data, but it costs one more
  round, hence the smaller retry budget in `Gbn.Recoverable`.
- The listener's `state` stays LISTEN while `listen_state` moves, so its timer never resends SYN|ACK, and a
  repeated SYN is ignored (`Connection.EstablishedExactly`). If the handshake's third packet is lost, only what
  the client sends later can complete it (`Connection.ListenerExactly`).
- In LAST_ACK any acknowledgement closes the passive side, also one for old data
  (`Connection.ClosedEarlyExactly`).
- `thpool_wait` is signalled, not broadcast: of two waiters one may sleep on (`ThreadPool.MissesWakeupExactly`).
- "Once a channel is closed, data cannot be sent into it" fails for senders already past the test
  (`BufferedChannel.LateSendExactly`), and an unbuffered send woken by a close returns 0 with its value
  unreceived (`UnbufferedChannel.SendsForNothingExactly`). The send does not wait in a loop, so a needless wakeup has
  the same effect and can duplicate the next value (`UnbufferedChannel.SpuriousDuplicates`).
- The checksum is a 16-bit sum, so the upper halves of both sequence numbers are unprotected
  (`PacketCodec.OneByteExactly`); and a changed `hlen` or `plen` can hide payload
  (`PacketCodec.HlenUnnoticed`, `PacketCodec.CutUnnoticed`).

## Model

| member | source | states |
|---|---|---|
| `RbTree.HeightLogarithmic` | src/rb_tree.c:332-406 | A valid tree of n nodes has height at most 2 log2(n + 1), in the form 2^height <= (n + 1)^2. |
| `RbTree.PlugValid` | src/rb_tree.c:49-112 | A tree is valid if its part below some node and everything around that part obey the colour rules at one black height. |
| `RbTree.UnplugValid` | src/rb_tree.c:194-259 | The converse: every part of a valid tree, and what is around it, obeys the colour rules. |
| `RbRotate.RotateLeft` | src/rb_tree.c:3-24 | The fields of all nodes touched and the root pointer after a left rotation; nothing else changes. |
| `RbRotate.RotateRight` | src/rb_tree.c:26-47 | The same for the right rotation. |
| `RbRotate.RotateLeftAt` | src/rb_tree.c:3-24 | At any node of any linked tree the rotation leaves a linked tree, parent links included, whose subtree there is the rotated one. |
| `RbRotate.RotateRightAt` | src/rb_tree.c:26-47 | The same for the right rotation. |
| `RbInsert.LinkNode` | include/rb_tree.h:98-105 | A node from outside becomes a red leaf at the empty place, with all links consistent. |
| `RbInsert.InsertFixInorder` | src/rb_tree.c:49-112 | The insertion fix-up never changes the in-order sequence. |
| `RbInsert.InsertFixValid` | src/rb_tree.c:49-112 | From a tree whose only fault is a red node under a red node, the fix-up ends in a valid red-black tree. |
| `RbInsert.Grand` | src/rb_tree.c:53-75 | In every round the grandparent exists and the uncle is read off the right side. |
| `RbInsert.InsertColor` | src/rb_tree.c:49-112 | The loop on the linked nodes terminates and leaves exactly the repaired tree, parent links included. |
| `RbInsert.Insert` | src/rb_tree.c:49-112 | Link, then recolour: from any valid tree and any empty place, a valid tree whose order is the old one with the node at that place. |
| `RbEraseColor.SiblingExists` | src/rb_tree.c:114-192 | In a tree one black short below a node, the sibling there is never null, nor is the new one after the first rotation. |
| `RbEraseColor.EraseFixInorder` | src/rb_tree.c:114-192 | The erase fix-up never changes the in-order sequence. |
| `RbEraseColor.EraseFixValid` | src/rb_tree.c:114-192 | From a tree one black short at one place, the fix-up ends in a valid red-black tree. |
| `RbEraseColor.EraseColor` | src/rb_tree.c:114-192 | The loop on the linked nodes terminates, follows no null sibling, and leaves exactly the repaired tree. |
| `RbErase.Splice` | src/rb_tree.c:207-240 | The fields after the successor took the erased node's place, in both the adjacent and the distant case. |
| `RbErase.ErasedInorder` | src/rb_tree.c:194-259 | Exactly the erased node leaves the in-order sequence. |
| `RbErase.ErasedValid` | src/rb_tree.c:194-259 | Erasing any node of any valid tree leaves a valid tree. |
| `RbErase.Erase` | src/rb_tree.c:194-259 | The same for the linked nodes: order, colours, black heights, parent links and root pointer. |
| `RbReplace.ReplaceNode` | src/rb_tree.c:408-429 | A node from outside takes any node's place: linked tree, same order but for the one name, validity kept. |
| `RbWalk.First` | src/rb_tree.c:332-342 | The first node of the order, null for an empty tree, in at most height steps. |
| `RbWalk.Last` | src/rb_tree.c:344-354 | The last node of the order. |
| `RbWalk.Next` | src/rb_tree.c:356-382 | The node after this one in the order, null exactly for the last; at most height steps; null for a node in no tree. |
| `RbWalk.Prev` | src/rb_tree.c:384-406 | The node before this one in the order, null exactly for the first. |
| `RbWalk.PrevOfNext` | src/rb_tree.c:356-406 | `rb_prev` undoes `rb_next`. |
| `RbWalk.Walk` | src/rb_tree.c:332-382 | `rb_first` and then `rb_next` until null visits every node once, in order. |
| `RbAugment.InsertFixAlmost` | src/rb_tree.c:284-292 | After an insertion, however it rotated, only nodes on the way up from the chosen starting node, and siblings on that way, keep a stale value. |
| `RbAugment.ErasedAlmost` | src/rb_tree.c:298-317 | The node chosen before an erase is such a starting node after it. |
| `RbAugmentHeap.AugmentPath` | src/rb_tree.c:261-278 | Climbing from such a node and recomputing each node and its sibling makes every node of the tree right. |
| `RbAugmentHeap.EraseBegin` | src/rb_tree.c:298-317 | Which node is chosen, including the one whose child moved. |
| `RbAugmentHeap.EraseEnd` | src/rb_tree.c:323-327 | After the climb every node keeps what the callback computes. |
| `RbAugmentHeap.AugmentedInsert` | src/rb_tree.c:284-292 | Link, rebalance, augment: valid, ordered, linked, and every node's kept value is right. |
| `RbAugmentHeap.AugmentedErase` | src/rb_tree.c:298-327 | Begin, erase, end, for any node of any valid tree: the same, with exactly that node gone. |
| `AcoLayout.GuardedSize` | libaco/aco.c:218-247 | With a guard page the size is the request rounded up to a page plus one page; it aborts exactly when that overflows. |
| `AcoLayout.ShareStackNew2` | libaco/aco.c:209-289 | The usable size is the request, at least 4096 bytes and 2 MiB for zero; with a guard page, the whole pages that hold it; placement and alignment of the stack pointers; and it fails exactly for a page size that is no power of two, or when no such pages leave room for the guard page, wherever the system puts the block. |
| `AcoHeap.NewShareStack` | libaco/aco.c:209-289 | The same for the object: its size in terms of the request, and that the machine accepts it; null exactly when an assertion of the code fails. |
| `AcoHeap.DefaultShareStack` | libaco/aco.c:201-213 | The default stack on pages of 4096 bytes exists and has 2 MiB. |
| `AcoLayout.IsPow2Exactly` | libaco/aco.c:223-224 | The test on the page size is for the powers of two. |
| `AcoLayout.AcceptedIsInside` | libaco/aco.c:374-462 | Every stack pointer that passes the eviction assertion is inside the stack; saving and restoring end below the protector word and pass the size assertion. |
| `AcoLayout.ShortCopy` | libaco/aco.c:47-150 | The 16-byte-block copy is a plain byte copy for every size passing its test. |
| `AcoLayout.CopyDropIn` | libaco/aco.c:152-158 | Whichever copy is chosen, the result is the plain byte copy. |
| `AcoLayout.Grow` | libaco/aco.c:393-402 | The doubling loop ends with the smallest doubling that holds `valid_sz`; it aborts exactly when a doubling overflows before that. |
| `AcoMachine.LayoutIsOk` | libaco/aco.c:271-283 | What `aco_share_stack_new2` lays out is a stack of the machine, with the same accepted stack pointers. |
| `AcoMachine.StepKeepsInv` | libaco/aco.c:365-478 | Ownership, saved lengths and stack pointers stay consistent over create, resume, yield, exit and destroy. |
| `AcoMachine.EvictRefines` | libaco/aco.c:370-428 | Copying the owner out changes no coroutine's private stack. |
| `AcoMachine.TakeRefines` | libaco/aco.c:433-476 | Copying back restores exactly the private stack of the coroutine resumed. |
| `AcoMachine.StepRefines` | libaco/aco.c:365-478 | Every step of the copying implementation is the step of the machine in which each coroutine has a stack of its own. |
| `AcoMachine.ResumedSees` | libaco/aco.c:365-478 | After a resume the share stack holds exactly the private stack's bytes at its stack pointer. |
| `AcoMachine.AbortsExactly` | libaco/aco.c:366-439 | A step aborts if and only if the coroutine has ended, or the owner in the way stopped with more on its stack than a restore takes, or has more to save than its buffer can be doubled to; the restore and exit assertions never fail. |
| `AcoMachine.TooLongIsHuge` | libaco/aco.c:393-402 | The last case takes more than half the address space on the stack. |
| `AcoMachine.SeesLastYield` | libaco/aco.c:365-478 | In every run, whatever others did on the same stack: a resumed coroutine sees exactly the bytes, at the same place, of its last yield. |
| `AcoCounts.CountersTell` | libaco/aco.c:404-470 | In every run `ct_save` and `ct_restore` count the non-empty copies of a coroutine's private stack out and back, and `max_cpsz` is the largest of them. |
| `AcoCounts.ValidSizeTells` | libaco/aco.c:426-472 | In every run `align_validsz` is zero on a free stack, and after a copy back the size of that copy and the protector word. |
| `AcoHeap.Coroutine.SaveOut` | libaco/aco.c:371-428 | The code of the eviction computes the machine's eviction, counters included. |
| `AcoHeap.Coroutine.CopyBack` | libaco/aco.c:433-470 | The code of the restore computes the machine's restore, and the stack is this coroutine's. |
| `AcoHeap.Coroutine.Resume` | libaco/aco.c:365-474 | Both together, in all four cases of ownership: who owns the stack afterwards, and which save buffers are new. |
| `AcoHeap.Coroutine.Exit` | libaco/aco.h:210-217 | The stack becomes free and the coroutine ended; false when it was not the owner. |
| `AcoHeap.Coroutine.Destroy` | libaco/aco.c:480-493 | The share stack forgets the coroutine if it was the owner. |
| `AcoHeap.Coroutine.constructor` | libaco/aco.c:307-352 | A new coroutine starts at `align_retptr` with nothing saved and a buffer of 64 bytes by default. |
| `AcoSystem.System.Resume` | libaco/aco.c:365-474 | On any set of coroutine and stack objects that show a state of the machine, the code is the machine's resume: it returns exactly when no assertion of the machine fails, the objects show the next state, and no two of them come to share a buffer. |
| `AcoSystem.System.Stop` | libaco/aco.h:190-217 | Whatever the running coroutine wrote below the protector word: yield and exit are the machine's. |
| `AcoSystem.System.Create` | libaco/aco.c:307-352 | A new coroutine object on a stack that is here: the machine's create. |
| `AcoSystem.System.Destroy` | libaco/aco.c:480-493 | The machine's destroy; no stack still names the coroutine as owner. |
| `AcoTurns.FindAgain` | libaco/aco.c:365-478 | A client, on stacks of at most half the address space and with every coroutine stopped where eviction accepts it: others are resumed in any sequence of turns, each leaving its own bytes on the shared stacks, and the one that had stopped before finds its bytes as it left them. |
| `AcoTurns.TakeTurns` | libaco/aco.c:365-478 | The same from nothing, with two coroutines on one default stack. |
| `Gbn.StepKeepsInv` | src/kernel.c:19-141 | Every step of sender, receiver, both timers and network keeps: window contents equal the stream, `expect_seq <= nextseq`, `base` is at most `expect_seq` or the number of a handshake acknowledgement, and each packet in flight is of the handshake or carries the stream's bytes or the receiver's knowledge. |
| `Gbn.StreamDelivered` | src/api.c:257-283 | Every run under loss, duplication and reordering, also with copies of handshake packets in flight at the start: what the application got followed by `received_buf` is the first `expect_seq` bytes of what `tcp_send` was given in the calls that returned 0, in order, without the chunks that met a full window; these and the window are told from the calls and acknowledgements of the run alone; and `expect_seq <= nextseq`; without a numbered handshake acknowledgement also `base <= nextseq`. |
| `Gbn.ReceivesNext` | src/api.c:257-283 | In every run a call of `tcp_recv` gets the next bytes of that stream: as many as it asked for, or all that have arrived. |
| `Gbn.GoesThrough` | src/kernel.c:44-141 | Where nothing is outstanding, any data that fits a packet goes through with its packet and one acknowledgement, and the timer is off again. |
| `Gbn.NegativeExitExactly` | src/timer.c:190-200 | A result: the negative-length exit can be reached if and only if an acknowledgement of the handshake with a number above zero is still in flight when the transfer starts. |
| `Gbn.ExitOnlyWhenTooLong` | src/timer.c:190-208 | The process exits only in the timer's callback; without such an acknowledgement only with more than MAX_LEN bytes outstanding. |
| `Gbn.RoundAdvances` | src/timer.c:190-220 | What one loss-free timeout round achieves, including after a stale acknowledgement moved `base` back. |
| `Gbn.RecoversExactly` | src/timer.c:127-143 | From any reachable unfinished state with an empty network, loss-free timeout rounds finish the transfer if and only if the timer runs, the handshake flag is set, `base` is not beyond `expect_seq`, what is outstanding fits a packet, and retries are left; then two rounds suffice. |
| `Gbn.RunRecoversExactly` | src/timer.c:127-143 | In every run that starts with the flag set and no numbered handshake acknowledgement, the condition is only that what is outstanding fits a packet and that retries are left: the timer is shown to run. |
| `Gbn.GivesUp` | src/timer.c:127-143 | When nothing gets through any more, eleven callbacks in a row retransmit, and the twelfth closes the connection. |
| `Gbn.FirstTimeoutIsLost` | src/timer.c:129-133 | A result: the first callback after connecting only sets the flag and does not re-arm. Once the packets outstanding then are gone, timeouts alone never finish; and as long as the receiver's own timer does not call back, anything more can be delivered by new sends if and only if the receiver was missing nothing. |
| `Gbn.AckAgainRepairs` | src/timer.c:127-143 | What the receiver's own timer repairs: after its acknowledgement has arrived, rounds finish the transfer if and only if nothing was missing, or what was missing fits one packet and retries are left. |
| `Gbn.SilentForever` | src/timer.c:129-133 | Then, whatever is sent, lost, repeated or delivered, short of the receiver's own timer, nothing more is ever received. |
| `Gbn.FirstTimeoutHappens` | src/timer.c:129-133 | A run from the start that gets there: one byte sent and lost. |
| `Gbn.TimerStaysKept` | src/timer.c:152-187 | In every run that starts with the flag set, a timer runs whenever `base` and `nextseq` differ, until the socket closes or the process exits. |
| `GbnSocket.Socket.TcpSendCall` | src/api.c:235-255 | The code of `tcp_send`, with the lock it leaves locked on a full buffer. |
| `GbnSocket.Socket.TcpRecvCall` | src/api.c:257-283 | The code of `tcp_recv` once there is data. |
| `GbnSocket.Socket.SendStreamRound` | src/tju_tcp.c:441-487 | The code of one round of the send loop, including the bytes it drops when the window is full. |
| `GbnSocket.Socket.HandleAckPacket` | src/kernel.c:44-72 | The code on an acknowledgement: congestion window, `base`, timer, the exit on an illegal length, and data that rides on it. |
| `GbnSocket.Socket.HandleDataPacket` | src/kernel.c:77-141 | The code on data: in order, ahead, behind. |
| `GbnSocket.Socket.WriteTimerHandler` | src/timer.c:127-143 | The code of the timer's callback on an established socket: the acknowledgement of the first one, and the congestion window and retry count of the others. |
| `GbnSocket.TwoSendsOneReceive` | src/api.c:235-283 | A client of two sockets: two calls of `tcp_send`, one round, one packet, its acknowledgement and one `tcp_recv` give both in order and leave nothing outstanding. |
| `Congestion.AlwaysKept` | src/kernel.c:379-393 | On a new socket, after any acknowledgements and losses: slow start exactly while `cwnd <= ssthresh`, `ssthresh >= 1`, and a full segment at least in avoidance (section 3.1 of RFC 5681). |
| `Congestion.AvoidanceGrowth` | src/kernel.c:384-386 | After k acknowledgements in avoidance `cwnd^2` grew by at most 3 k SMSS^2, and the window never shrank. |
| `Congestion.SlowStartExactly` | src/kernel.c:380-384 | In slow start k acknowledgements add 1400 k bytes, up to and with the one that passes the threshold and ends it. |
| `Congestion.FirstAcks` | src/api.c:60-61 | A new socket starts with 1400 bytes and leaves slow start with its third acknowledgement. |
| `Congestion.AvoidanceExactly` | src/kernel.c:385-386 | In avoidance one acknowledgement adds the only number of bytes that times the window is the squared segment as nearly as whole bytes allow. |
| `Congestion.RecoveryExactly` | src/kernel.c:387-388 | In recovery every acknowledgement adds a segment. |
| `Congestion.SlowStartLoss` | src/timer.c:224-229 | A loss in slow start: one segment, and half the window, rounded up, as the threshold. |
| `Congestion.AvoidanceLosses` | src/timer.c:222-240 | Of the losses in avoidance only the fourth by the count acts: half the window as the threshold and three segments more as the window; and the loss after that leaves one byte. |
| `Congestion.Controller.HandleSuccessAck` | src/kernel.c:379-393 | The code computes the model's window. |
| `Congestion.Controller.HandleLossAck` | src/timer.c:222-242 | The code, with the retry count that follows it, computes the model's window. |
| `Connection.HandshakeAgrees` | src/tju_tcp.c:29-162 | Every run of the handshake: an established client has a listener in SYN_RECV or ESTABLISHED, an established listener has an established client, and the pair is queued for accept exactly once (section 3.4 of RFC 793). |
| `Connection.EstablishedExactly` | src/tju_tcp.c:44-91 | A result: the listener answers one SYN only, so a client can still get through if and only if it is through, the listener has not answered, or that one answer is in flight. |
| `Connection.LostHappens` | src/tju_tcp.c:44-91 | A run from the start that loses the answer, after which no run establishes the client. |
| `Connection.ListenerExactly` | src/tju_tcp.c:44-162 | The dual: the listener can still establish if and only if it has not answered the SYN, or has established, or its answer can reach a waiting client, or the established client has an acknowledgement in flight, its first timer callback to come, or something to answer. |
| `Connection.HalfOpenHappens` | src/tju_tcp.c:44-162 | A run from the start that establishes the client and after which no run establishes the listener. |
| `Connection.TimeWaitIsLate` | src/tju_tcp.c:166-225 | The closing side reaches TIME_WAIT only when the other is in LAST_ACK or CLOSED (section 3.5 of RFC 793). |
| `Connection.ClosedEarlyExactly` | src/tju_tcp.c:209-218 | A result: the other side can be CLOSED before the closing side is in TIME_WAIT if and only if an old acknowledgement was in flight towards it when the close began. |
| `Connection.EarlyHappens` | src/tju_tcp.c:209-218 | A run of the handshake up to `tcp_accept` after which a copy of its last acknowledgement can close the other side early. |
| `Connection.ClosesDownExactly` | src/tju_tcp.c:166-225 | At any moment of a close some run still ends with TIME_WAIT on the closing side and CLOSED on the other if and only if what they still need is in flight or yet to be sent, since neither a FIN nor its acknowledgement is sent twice. |
| `Connection.CloseCanFinish` | src/tju_tcp.c:166-225 | From the moment the FIN is sent, whatever else is in flight, it can. |
| `Connection.PlainClose` | src/tju_tcp.c:166-225 | With nothing else in flight or sent, five steps finish the close, through CLOSE_WAIT, FIN_WAIT_2, LAST_ACK, TIME_WAIT and CLOSED (section 3.5 of RFC 793). |
| `Connection.Socket.RcvStateServer` | src/tju_tcp.c:29-115 | The code takes the listener's step of the model, starts and stops the timer, takes over the packet's number, and returns 0 or -1. |
| `Connection.Socket.RcvStateClient` | src/tju_tcp.c:118-162 | The code takes the client's step, stops the timer, takes over the packet's number and answers with the next. |
| `Connection.Socket.StateClose` | src/tju_tcp.c:166-225 | The code takes the closing step up to its sleep; says when it sleeps and when the socket is freed. |
| `ThreadPool.StepKeepsInv` | src/thpool.c:339-477 | Every critical section of workers, adders and waiters keeps the locks, the token, the jobs, the count and the waiters' knowledge consistent. |
| `ThreadPool.TokensKept` | src/thpool.c:424-477 | A queued job always has the semaphore at 1, a post pending, or a worker that holds the token; and a semaphore at 1 with a sleeper has a worker on its way. |
| `ThreadPool.JobsConserved` | src/thpool.c:424-477 | Every run: the jobs are those given to `thpool_add_work`, in order, and leave in that order; each that left is in exactly one worker's hands or has run, never both, never twice; the routines called are those of the jobs that have run. |
| `ThreadPool.RankDrops` | src/thpool.c:339-367 | Left to itself the pool comes to rest: every step that adds no work lowers a bound on the steps left. |
| `ThreadPool.StuckIsSettled` | src/thpool.c:339-367 | A reachable pool that can do nothing has an empty queue, nobody working and every job run. |
| `ThreadPool.EveryJobRuns` | src/thpool.c:339-367 | Both together, from any moment of any run: left alone the pool comes to rest, and then the routines called are those of the jobs given to `thpool_add_work`, each as often as it was given. |
| `ThreadPool.WaitIsSound` | src/thpool.c:187-193 | In every run, when a call of `thpool_wait` returns, the routine of every job given before the call has been called, as often as it was given, although `len` is read without its lock. |
| `ThreadPool.LeftAsleep` | src/thpool.c:189-191 | A waiter asleep on a dry pool stays asleep until work is added. |
| `ThreadPool.MissesWakeupExactly` | src/thpool.c:187-193 | A result: a waiter can be left asleep on a dry pool if and only if there are at least two, because one signal wakes one. |
| `ThreadPoolHeap.JobQueue.Push` | src/thpool.c:424-445 | The linked list gains the job at its rear. |
| `ThreadPoolHeap.JobQueue.Pull` | src/thpool.c:451-477 | The linked list loses its front, null when empty; a post is due exactly when jobs remain. |
| `ThreadPoolHeap.JobQueue.Clear` | src/thpool.c:408-419 | The loop empties the list, and the semaphore is reset. |
| `ThreadPoolHeap.ThPool.PullJob` | src/thpool.c:352-358 | A worker's pull takes the machine's step. |
| `ThreadPoolHeap.ThPool.TryToken` | src/thpool.c:530-537 | One pass of `bsem_wait` takes the machine's step. |
| `ThreadPoolHeap.ThPool.Post` | src/thpool.c:512-517 | `bsem_post` takes the machine's step. |
| `ThreadPoolHeap.ThPool.StopWorking` | src/thpool.c:360-365 | A worker counts itself out, and signals exactly when it was the last. |
| `RingQueue.RingAdd` | src/queue.c:73-81 | Writing behind the last element appends to the ring's contents, wrap-around included. |
| `RingQueue.RingRemove` | src/queue.c:93-99 | Advancing `next` drops the first element. |
| `RingQueue.Queue.Add` | src/queue.c:65-83 | Appends and returns 0, or returns -1 and changes nothing when full. |
| `RingQueue.Queue.Remove` | src/queue.c:87-103 | Takes the oldest element, or none. |
| `RingQueue.Queue.Peek` | src/queue.c:107-110 | The oldest element, or none. |
| `RingQueue.QueueInit` | src/queue.c:30-54 | An empty ring, or null exactly for a capacity beyond the limit. |
| `BufferedChannel.StepKeepsInv` | src/chan.c:243-298 | Every stretch under the mutex keeps the order of values, the waiting counts and both no-lost-wakeup bounds. |
| `BufferedChannel.NoLostReceiverKept` | src/chan.c:254-282 | While a receiver sleeps unsignalled there are at most as many values as woken receivers still to run; after a close none sleeps. |
| `BufferedChannel.NoLostSenderKept` | src/chan.c:246-294 | While a sender sleeps unsignalled there are at most as many free slots as woken senders still to run. |
| `BufferedChannel.FirstInFirstOut` | src/chan.c:243-298 | Every run: the values given to `chan_send` on the open channel are those received, those in the ring and those of senders still inside, each as often as it was given; each thread's values go in in the order of its calls; and values come out in the order they went in; the ring never overflows. |
| `BufferedChannel.SleepersAreRight` | src/chan.c:243-298 | When no woken thread is still to run, receivers sleep only on an empty open channel and senders only on a full one, never both. |
| `BufferedChannel.RestsExactly` | src/chan.c:243-298 | A thread inside a call that is not asleep can always go on. |
| `BufferedChannel.ComesToRest` | src/chan.c:243-298 | From every moment of every run, the calls under way take boundedly many steps, two for each thread, and then no value is left in the ring and no close unnoticed while a receiver sleeps, and no slot free while a sender sleeps. |
| `BufferedChannel.LateSendExactly` | src/chan.c:179-231 | A result: a closed channel can still take a value if and only if some sender was past its test for closed, and there is a free slot or a value and somebody to receive it. |
| `BufferedChannel.LateSendHappens` | src/chan.c:219-264 | A run from the start in which a value is added after the close. |
| `UnbufferedChannel.StepKeepsExactly` | src/chan.c:300-363 | A step keeps the rendezvous if and only if it does not wake a sleeping sender other than by a receive. |
| `UnbufferedChannel.Rendezvous` | src/chan.c:300-363 | Every run without such a step: the values received are those given to `chan_send`, in order but for one unserved, each send returns after exactly one receive of its value, `w_waiting` is 1 exactly while a sender sleeps unserved, and then no receiver sleeps. |
| `UnbufferedChannel.SendsForNothingExactly` | src/chan.c:215-218 | A result: from a state that kept the rendezvous, a send can still return 0 without its value received if and only if the channel is open. |
| `UnbufferedChannel.ClosedGivesNothing` | src/chan.c:343-349 | A closed channel gives no more values, so a value left behind by a close is lost. |
| `UnbufferedChannel.SpuriousDuplicates` | src/chan.c:322-327 | A result: one needless wakeup of a sender makes a run in which x and y are sent and y is received twice. |
| `ChannelHeap.Chan.Close` | src/chan.c:185-204 | The code takes the closing step of both machines; it broadcasts exactly the first time, and returns -1 when closed already. |
| `ChannelHeap.Chan.BufferedSend` | src/chan.c:243-264 | One pass of the send loop takes the machine's step; it signals exactly when it sent and receivers wait. |
| `ChannelHeap.Chan.BufferedRecv` | src/chan.c:266-298 | One pass of the receive loop takes the machine's step and returns its value or failure. |
| `ChannelHeap.Chan.UnbufferedSend` | src/chan.c:300-323 | The code up to the wait takes the machine's step. |
| `ChannelHeap.Chan.UnbufferedRecv` | src/chan.c:330-363 | One pass of the receive loop takes the machine's step; it signals exactly when it took a value. |
| `ChannelHeap.ChanInit` | src/chan.c:70-97 | A fresh channel, with a fresh ring, shows the machine's initial state; null exactly for a capacity no ring can have. |
| `ChannelHeap.SendAndReceive` | src/chan.c:70-298 | A client: what is sent through a new channel is received. |
| `ChannelHeap.SendTwoReceiveTwo` | src/chan.c:70-298 | A client: two values through a new channel are received in the order they were sent. |
| `PacketCodec.WireLayout` | src/tju_packet.c:174-268 | Where every field lies in a serialised packet, as a big-endian number, and where the payload lies. |
| `PacketCodec.ChecksExactly` | src/tju_tcp.c:386-417 | `tcp_check` as one equation: fields, checksum, lengths with their bytes exchanged, and payload bytes as signed numbers add up to 0xFFFF in 16 bits. |
| `PacketCodec.RoundTrip` | src/tju_packet.c:226-268 | Parsing a serialised packet gives back every field and the payload. |
| `PacketCodec.SentIsAccepted` | src/tju_tcp.c:355-417 | A packet made, serialised and parsed passes `tcp_check`. |
| `PacketCodec.OneByteExactly` | src/tju_tcp.c:386-412 | Changing one byte of an accepted packet, outside the two lengths, goes unnoticed if and only if it is in the upper half of `seq_num` or `ack_num`, or between header and payload. |
| `PacketCodec.HlenExactly` | src/tju_tcp.c:396-408 | Changing `hlen` goes unnoticed if and only if the field and the payload it now starts count for the same as before, in 16 bits. |
| `PacketCodec.HlenUnnoticed` | src/tju_tcp.c:396-408 | A result: a packet with 256 bytes of payload that passes as one without, when one bit of `hlen` turns. |
| `PacketCodec.PlenExactly` | src/tju_tcp.c:396-408 | Changing `plen` makes the receiver take another number of bytes: whatever they are, it goes unnoticed if and only if length and payload count for the same as before, in 16 bits. |
| `PacketCodec.CutExactly` | src/tju_tcp.c:396-408 | A shorter `plen` that cuts the payload goes unnoticed if and only if the bytes cut off make up for the other length. |
| `PacketCodec.CutUnnoticed` | src/tju_tcp.c:396-408 | A result: a packet with 257 bytes of payload passes with the first alone when one bit of `plen` turns. |
| `PacketCodec.OneWordExactly` | src/tju_tcp.c:388-399 | Changing a port, the window or the checksum as a whole is always noticed (`hlen` and `plen` are not among these fields). |
| `PacketCodec.OneLongExactly` | src/tju_tcp.c:394-395 | Changing `seq_num` or `ack_num` goes unnoticed if and only if its lower 16 bits stay. |
| `PacketCodec.ComputeChecksum` | src/tju_tcp.c:386-412 | The wrapping loop computes the complement of the 16-bit sum, payload bytes signed, lengths byte-swapped. |
| `PacketCodec.CreatePacket` | src/tju_packet.c:9-35 | The packet has the given fields and a checksum that checks. |
| `PacketCodec.HeaderInChar` | src/tju_packet.c:174-223 | The buffer is the header, big-endian, then zeros up to `plen`. |
| `PacketCodec.PacketToBuf` | src/tju_packet.c:256-268 | The buffer is the serialised packet. |
| `PacketCodec.BufToPacket` | src/tju_packet.c:226-250 | The packet is the parsed buffer. |
| `PacketCodec.SendAndCheck` | src/tju_packet.c:42-56 | From one end to the other: accepted, and equal to what was made. |

## Left out

- Red-black trees: the packing of parent and colour into one word; they are two fields here. Nodes hold an
  owner's datum in place of the structure around them.
- Share stacks: `mmap`, `mprotect`, the writes of the protector word, FPU and MXCSR words and the assembly of
  the switch. The bit tests on the page size are "is a power of two" and remainders; the nine cases of the
  short copy are one block count. Allocation is a parameter and never fails.
- Coroutines: the thread-local current coroutine, and resuming from anything but the main coroutine.
- Gbn.StreamDelivered: does not model 32-bit wrap-around of sequence numbers, nor the fixed capacity of the
  window buffer, because the code indexes the buffer by absolute sequence number and leaves it before wrapping.
- Gbn.StepKeepsInv: has no step for data riding on acknowledgements, which `tcp_send_ack` never makes, nor
  for the HEAD and BACKHEAD packets of the unused flow control.
- Gbn.FirstTimeoutIsLost: that new sends can deliver more is shown for a stream thread with a byte of room.
- GbnSocket.Socket.SendStreamRound: asks that the chunk fit the window buffer and that the 16-bit packet
  length not wrap below the header, because the code then writes outside its buffers.
- Gbn: a send of the stream thread is one step, although the code transmits before it advances `nextseq`;
  the opposite direction, which is the same code with the roles exchanged, and of which only the
  acknowledgement of the receiver's own timer appears. `timeout_counts`, which `tcp_socket` does not set, starts at 0.
- Congestion.AvoidanceGrowth: the float quotient is its exact value cut to an integer, and `cwnd` is unbounded.
- Timers: RTT and RTO estimation, and durations; a timer is armed or not.
- Connection: one peer for each listener, so the half-open queue is a count of at most one and hash
  collisions do not occur; RST handling beyond the ignored packet; the length of the sleeps. What
  the data path answers in ESTABLISHED is nondeterministic.
- PacketCodec.OneByteExactly: leaves out the two lengths, which decide what counts as payload; they are in
  `HlenExactly` and `PlenExactly`.
- PacketCodec: `build_state_pkt`, and packets whose payload would start inside the header.
- Thread pool: creating, naming, pausing and destroying threads; allocation failure.
- Channels: `chan_select`, typed wrappers, allocation and mutex failures. Nothing is claimed about a sender
  blocked on a full closed channel: the code lets it wait.
- UDP sockets, receive threads, host names, printing, the unused flow-control code, `app/`, `test/` and the
  build files.
