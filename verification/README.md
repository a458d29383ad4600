# Verified models of the TLPI exercises

The repository holds solutions to exercises from *The Linux Programming Interface*. Most of
them demonstrate one system call. This project models the ones that hold a real algorithm or
a protocol between threads, processes and the kernel, and proves what they are for.

| file | what it models |
|---|---|
| `Keys.dfy`, `SearchTree.dfy` | `strcmp()` as a total order; the search tree as a value and the finite map it stands for |
| `BinaryTree.dfy` | `lib/binary_tree.c` on a heap of nodes that are linked, overwritten and freed in place |
| `NameServer.dfy` | the request loop of `nv_sv.c` over two such trees, with text buffers overwritten in place |
| `ConcurrentTree.dfy` | `ts_btree.h`: lock-coupled add and lookup by any number of calls, one lock, unlock, comparison or link a step |
| `CString.dfy`, `LineReader.dfy` | the double-buffered line reader against the one that reads a byte at a time |
| `JoinAny.dfy` | threads joined in the order they end: two levels of mutexes and a condition variable |
| `MqNotify.dfy` | one-shot message-queue notification accepted with `sigwaitinfo()` |
| `SigChild.dfy` | a `SIGCHLD` handler that reaps several children for one pending signal |
| `SigSpeed.dfy` | two processes that send one signal back and forth |
| `SemTransfer.dfy`, `SharedMemory.dfy` | copying through one buffer with two semaphores, between threads and between processes |
| `DynamicArray.dfy` | the growable array: contents, cost of growth, reversal |
| `Script.dfy` | the terminal recorder and its replayer: text encoding, framing, times |
| `ProcTree.dfy` | the process-tree printer: its traversal with `taken` flags, and the text it prints |
| `CpHole.dfy` | copying a file without writing its holes |
| `Collections.dfy`, `CInt.dfy` | an optional value, and counting; what a wider number becomes in an `int` |

Code that changes things step by step is a class or a method with loops (`BTree`, `Server`,
`RlBuf`, `Fd`, `DynArray`, `Recorder`, `Replay`, `Display`, `CopyHoles`), proved against functions on
values. Protocols are transition systems: `Step` (in `ConcurrentTree`, `JoinAny`, `MqNotify`,
`SigChild`, `SigSpeed`, `SemTransfer` and `SharedMemory`) gives the next state of one actor, a
`schedule` is any sequence of actors, and the theorems hold for every state of every schedule.
The kernel's freedom (how many bytes a `read()` delivers, which zombie `waitpid()` picks, when a
child exits, when a message arrives) is part of the schedule or of a script that the theorem
quantifies over. "Never stuck" says that some actor can step; where the code gives a bound, a
second theorem bounds the length of every run.

## Where the code departs from its purpose

Each of these is kept as written, shown at a concrete input, and answered by the exact
condition under which the code does what it is for.

- A duplicate `bt_add_ts` returns with its node locked (ts_btree.h:92-95), and a missed
  `bt_lookup_ts` in a non-empty tree reads through NULL (ts_btree.h:176-182):
  `DuplicateAddBlocksALookup`, `MissedLookupCrashes`. `AsWrittenEndsWellExactly` says when the
  code does end well, and the variant `Repaired` has neither fault.
- `bt_lookup` dereferences the NULL that `bt_find_node` returned (binary_tree.c:167), although
  the next line tests for it: `MissedLookup`; `Lookup` says exactly when.
- For the same reason `nv_sv` dies of a request for a key it does not have: `MissedGetKills`.
  `NameServer.SurvivesExactly` says which request sequences it lives through; the variant
  `Repaired`, whose lookup returns the intended -1, lives through all of them.
- `nv_sv` keeps a key's password when the key is deleted, so that whoever adds the key again
  cannot use it: `ReAddedKeyKeepsItsFirstOwner`, `AuthenticatesExactly`.
- `read_line_buf` makes sure that a read() of 4096 bytes fits, and forgets the NUL behind it
  (read_line_buf.c:35-39). With 4096 bytes of an unfinished line in the buffer and 4096 more
  delivered at once it writes one byte past the buffer: `LongLineExample`, `FitsExactly`.
- `read_line_buf` takes a NUL for the end of what it has read, so that the rest of what one read()
  delivered is lost; a NUL in front makes it read the byte before its buffer: `NulExamples`,
  `ReturnsLinesExactly`, and `LinesOfSeen` for what it does return.
- With empty input, `pshm_writer` may end and unlink everything before the reader has opened
  `WRITER_SEM`: `EmptyInputCanHang`, `EndsWellExactly`.
- `sigwaitinfo_notify` never hears of a message that was there before it registered, as its
  comment says (lines 33-36): `NeverNotified`, `WorksExactlyFromEmptyQueue`.
- `proc_tree_view` does not initialise the `taken` flags in the memory it gets from realloc(). A
  flag that happens to be set drops a process and all below it: `StaleFlagDropsAProcess`,
  `PrintsAllExactly`. A `parent` flag that happens to be set does not change which processes are
  printed, or in which order, but where the process has no children its line is not ended, and
  the next one is out of its column: `StaleParentBreaksALine`, `AlignedExactly`.
- `proc_tree_view` keeps a level open below the last of several children as well, so that a marker
  stands there with nothing to lead to: `MarkerBelowLastChild`, `MarkersAreAncestors`.
- The recorder does not escape backslashes: `PairIsLost`, `Script.SurvivesExactly`,
  `RoundTripsExactly`.
- The recorder keeps the milliseconds of a session in an `int`, which wraps after 2^31 of them; the
  replayer then refuses a negative or earlier time, or ends too soon: `LongSessionIsLost`,
  `SessionReplaysExactly`.
- Where a record's text begins with an 'n', the replayer looks for a backslash in front of an empty
  array, which C leaves undefined (replay_script.c:69-75): `FirstNIsUndefined`,
  `RoundTripsExactly`. `Front` keeps both this and what happens when there is no backslash.
- The hand-offs print with `%s`, so that a chunk ends at its first NUL: `NulCutsOff`,
  `CopiesExactlyText`.
- `cp_hole` does not extend the target over a hole at the end of the source:
  `OneByteHoleIsLost`, `FaithfulExactly`.
- `cp_hole` keeps file offsets in an `int`: of 2^31 bytes of data it copies none and fails, and of
  2^32 bytes it copies none for ever, and a byte at offset 2^32 - 1 it takes for the end of the
  data: `TwoGigabytesFail`, `FourGigabytesHang`, `ByteAtMinusOneIsLost`, `CopiesExactly`. The data must end below 2^31; where signed overflow, which C leaves undefined,
  wraps, it is enough that the last extent begins below 2^31 and is shorter than 2^31 bytes
  (`Fits`, for both readings of `Arithmetic`).
- `da_reverse` tests `(int) i >= 0` on a `size_t`: `ReverseCopiesNothing`,
  `ReverseCopiesAllExactly`.

## Model

| member | source | states |
|---|---|---|
| Keys.StrcmpIsRankOrder | lib/binary_tree.c:26-36 | the comparisons that steer every descent are a total order: less, equal and greater agree with a numeric rank, and equal means the same string |
| SearchTree.FindIsMapLookup | lib/binary_tree.c:45-63 | in a search tree the descent finds a key exactly when the map has it, with the map's value |
| SearchTree.InsertIsMapUpdate | lib/binary_tree.c:24-43 | adding keeps search order and is insert-if-absent on the map |
| SearchTree.RemoveMinimumIsMapRemoval | lib/binary_tree.c:211-225 | the leftmost node holds the least binding, and splicing it out removes just that binding and keeps the order |
| SearchTree.DeleteRootIsMapRemoval | lib/binary_tree.c:197-229 | all four shapes of the deletion keep search order and remove one binding, every other one unchanged |
| SearchTree.DeleteIsMapRemoval | lib/binary_tree.c:177-232 | deletion keeps search order and is removal on the map |
| BinaryTree.BTree.Add | lib/binary_tree.c:130-136 | on the heap: -1 and nothing changed exactly for a key that is there, else one new binding, and exactly one fresh node has joined the nodes there were; the links stay an unshared tree in search order |
| BinaryTree.BTree.AddRec | lib/binary_tree.c:24-43 | from any node on the route, the new heap is the insertion into the whole tree, with one node more or the very same links |
| BinaryTree.BTree.CreateNode | lib/binary_tree.c:8-22 | one fresh node joins the nodes there were and fills the empty link at the end of a path |
| BinaryTree.BTree.FindNode | lib/binary_tree.c:45-63 | returns the place where the pointer to the key's node is stored, or nothing exactly when the key is absent |
| BinaryTree.BTree.Lookup | lib/binary_tree.c:162-175 | returns the map's value for a present key, -1 exactly for an empty tree, and reads through NULL for every other miss |
| BinaryTree.MissedLookup | lib/binary_tree.c:162-175 | one key added and another looked up: the lookup reads through NULL |
| BinaryTree.BTree.Delete | lib/binary_tree.c:177-232 | removes the key from the map and no other binding, keeps the heap an unshared acyclic tree in search order, and frees exactly one node of the tree, or none for an absent key |
| BinaryTree.BTree.DeleteTarget | lib/binary_tree.c:188-229 | each case of the switch turns the subtree into its deletion in place and frees one node |
| BinaryTree.BTree.FindSuccessor | lib/binary_tree.c:211-216 | the walk ends at the link to the leftmost node of the right subtree |
| BinaryTree.BTree.DeleteSuccessor | lib/binary_tree.c:209-228 | copying the successor up, freeing its node and keeping its right child is the deletion of the node with two children |
| BinaryTree.BTree.CopyUp | lib/binary_tree.c:218-219 | overwriting one node's key and value leaves every link alone |
| BinaryTree.BTree.FreeNode | lib/binary_tree.c:65-70 | the node leaves the tree, becomes a freed node, and its slot becomes empty |
| BinaryTree.BTree.Splice | lib/binary_tree.c:201-208 | a node with one child is freed and its child takes its place |
| BinaryTree.BTree.FindParent | lib/binary_tree.c:138-159 | returns the node whose link leads to the key's node, and nothing exactly for an absent key or the root's |
| BinaryTree.BTree.FreeRec | lib/binary_tree.c:72-81 | frees exactly the nodes of the subtree and empties the link it hung on; every other node and link stays |
| BinaryTree.BTree.Free | lib/binary_tree.c:234-240 | every node of the tree becomes a freed one and the tree is empty |
| NameServer.ValuesStayGoverned | 59_Sockets_Internet_Domain/nv_sv.c:55-90 | over every request sequence each key with a value has a password |
| NameServer.PasswordsNeverChange | 59_Sockets_Internet_Domain/nv_sv.c:68-90 | a recorded password survives every request, even the deletion of the value |
| NameServer.PasswordIsFirstAdd | 59_Sockets_Internet_Domain/nv_sv.c:68-78 | a key's password is the one of the first ADD of the key, and no request sets another |
| NameServer.ValueIsProtected | 59_Sockets_Internet_Domain/nv_sv.c:80-112 | over every request sequence a present value changes or goes only by a DEL or MOD that carries the key's password |
| NameServer.AuthenticatesExactly | 59_Sockets_Internet_Domain/nv_sv.c:80-89 | after any request sequence a request passes the password test if and only if it carries the password of the key's first ADD |
| NameServer.ValuesArePresent | 59_Sockets_Internet_Domain/nv_sv.c:55-119 | which keys have a value follows from the requests alone: added, and not deleted since with the first password |
| NameServer.ValuesAreLastWritten | 59_Sockets_Internet_Domain/nv_sv.c:55-112 | the value under a key follows from the requests alone: that of the ADD that made the key present, or of the last MOD since with the password of the key's first ADD |
| NameServer.AnswersFollowRequests | 59_Sockets_Internet_Domain/nv_sv.c:55-119 | what is printed about a request follows from the requests before it: a GET shows the value written last, a MOD that value and its own, an ADD what is there already, and every refusal has its reason |
| NameServer.HarmlessExactly | 59_Sockets_Internet_Domain/nv_sv.c:55-119 | one request more is survived if and only if each tree it looks in has its key or is empty, said of the earlier requests |
| NameServer.SurvivesExactly | 59_Sockets_Internet_Domain/nv_sv.c:55-119 | the server lives through a request sequence if and only if each request is harmless after those before it; with a lookup that returns -1 on every miss it lives through all |
| NameServer.MissedGetKills | 59_Sockets_Internet_Domain/nv_sv.c:113-118 | an ADD of one key and a GET of another kill the server |
| NameServer.ReAddedKeyKeepsItsFirstOwner | 59_Sockets_Internet_Domain/nv_sv.c:68-92 | whoever adds a deleted key again cannot delete it, its first owner can |
| NameServer.AddCopy | 59_Sockets_Internet_Domain/nv_sv.c:57-66 | a copy of the text is added under an absent key of one tree, and the other tree is untouched |
| NameServer.DeleteKey | 59_Sockets_Internet_Domain/nv_sv.c:91-93 | deleting in one tree leaves the other untouched |
| NameServer.Overwrite | 59_Sockets_Internet_Domain/nv_sv.c:107-111 | writing over a value's buffer changes neither tree |
| NameServer.Server.Add | 59_Sockets_Internet_Domain/nv_sv.c:56-79 | an ADD adds value and password each to its own map unless the key is there, and reports which was |
| NameServer.Server.Lookup | 59_Sockets_Internet_Domain/nv_sv.c:81-105 | the outcome of a lookup in either tree, crash included, as the tree's map decides it |
| NameServer.Server.Authenticate | 59_Sockets_Internet_Domain/nv_sv.c:81-89 | a request passes exactly when the key's recorded password equals its own, and is told what is wrong if not |
| NameServer.Server.Modify | 59_Sockets_Internet_Domain/nv_sv.c:105-112 | the buffer of a present key, and no other, gets the new text; the old and the new one are shown |
| NameServer.Server.Remove | 59_Sockets_Internet_Domain/nv_sv.c:91-93 | the key leaves the value map and the password map stays; a key without a value is reported |
| NameServer.Server.Handle | 59_Sockets_Internet_Domain/nv_sv.c:55-119 | a request changes the two heap trees and their unshared buffers exactly as it changes the two maps, prints what the maps say, and kills the server exactly when a lookup misses in a non-empty tree |
| ConcurrentTree.StepKeepsInv | 30_Thread_Synchronhization/ts_btree.h:60-186 | every step of every call keeps the tree, lock, position and log invariants |
| ConcurrentTree.RunKeepsInv | 30_Thread_Synchronhization/ts_btree.h:60-186 | every reachable state satisfies them, for any number of calls and any interleaving |
| ConcurrentTree.ReachableTreeIsTheSequentialMap | 30_Thread_Synchronhization/ts_btree.h:60-129 | the built nodes reachable from the root always form a search tree with distinct keys that holds exactly the map the calls so far produce one after another |
| ConcurrentTree.NoHalfBuiltRead | 30_Thread_Synchronhization/ts_btree.h:60-186 | no call ever reads a field of a node that is linked but not yet filled in, or through a pointer that is not there; the repeated reads of a slot and the mutex of the last unlock are included |
| ConcurrentTree.BuiltStays | 30_Thread_Synchronhization/ts_btree.h:60-111 | a built node stays built and its key and value never change |
| ConcurrentTree.Linearizable | 30_Thread_Synchronhization/ts_btree.h:60-186 | the log is a legal sequential execution with each returned call once, with the result it returned |
| ConcurrentTree.LogOnlyGrows | 30_Thread_Synchronhization/ts_btree.h:60-186 | a call that took effect keeps its place in the order |
| ConcurrentTree.RealTimeOrder | 30_Thread_Synchronhization/ts_btree.h:60-186 | a call that returned before another started took effect before it |
| ConcurrentTree.LinksChangeUnderMutex | 30_Thread_Synchronhization/ts_btree.h:82-129 | a link changes only from NULL, by a call that holds the mutex of the link's owner |
| ConcurrentTree.AtMostParentAndChild | 30_Thread_Synchronhization/ts_btree.h:87-88 | a call holds at most two mutexes, and two only of a parent and the child its link leads to |
| ConcurrentTree.OnlyLocksBlock | 30_Thread_Synchronhization/ts_btree.h:82-186 | nothing but a mutex in use can block a call |
| ConcurrentTree.OwnerLeadsToStep | 30_Thread_Synchronhization/ts_btree.h:82-162 | an owner waits only for a younger node's mutex, so that the chain of waiting calls ends at one that can step |
| ConcurrentTree.WaitsOnlyForChild | 30_Thread_Synchronhization/ts_btree.h:82-162 | in every reachable state a call that waits on its way down holds the mutex of a slot and waits for the node that slot leads to; any other blocked call has just started and holds nothing |
| ConcurrentTree.RepairedNeverDeadlocks | 30_Thread_Synchronhization/ts_btree.h:82-186 | with the duplicate path unlocking, some unfinished call can always step, and all mutexes are free at the end |
| ConcurrentTree.HeapIsBounded | 30_Thread_Synchronhization/ts_btree.h:60-79 | there are never more nodes than calls that add |
| ConcurrentTree.RunsEnd | 30_Thread_Synchronhization/ts_btree.h:82-186 | n calls make at most n(4n + 5) steps, whatever the interleaving; as written, one more that kills the process |
| ConcurrentTree.AsWrittenEndsWellExactly | 30_Thread_Synchronhization/ts_btree.h:82-186 | as written, a run at rest has returned every call and freed every mutex if and only if each call was an add of an absent key, or a lookup of a present key or in an empty tree |
| ConcurrentTree.AlwaysEndsWellExactly | 30_Thread_Synchronhization/ts_btree.h:82-186 | as written, given calls end well in every interleaving if and only if no key is added twice and no key is looked up while another one is added |
| ConcurrentTree.DuplicateAddBlocksALookup | 30_Thread_Synchronhization/ts_btree.h:92-95 | a run as written in which a duplicate add leaves a later lookup waiting for ever |
| ConcurrentTree.MissedLookupCrashes | 30_Thread_Synchronhization/ts_btree.h:176-181 | a run as written in which a missed lookup kills the process |
| LineReader.Fd.Read | lib/read_line_buf.c:35 | any read() of a stream: between nothing and what was asked for, in order, or a failure, at any time |
| LineReader.ReadLine | lib/read_line.c:29-73 | keeps the first n - 1 bytes of a line, discards the rest, stops behind the first newline or at the end of the file, restarts interrupted reads, and returns -1 exactly if a read() failed or n is 0 |
| LineReader.RlBuf.constructor | lib/read_line_buf.c:9-17 | nothing is buffered |
| LineReader.RlBuf.ReadLineBuf | lib/read_line_buf.c:19-110 | from any bytes and any read(): returns, and leaves the stream and what is buffered, as the one-call specification says, faults included; a line is whole; 0 and -1 keep all that was seen for the next call; of text without NULs, what was buffered and what was read is the returned line and what is buffered now; it terminates |
| LineReader.RlBuf.Scan | lib/read_line_buf.c:43-109 | what the same specification says for a call that has bytes buffered; the branch for a buffer that ends just behind a newline is never reached |
| LineReader.RlBuf.Deliver | lib/read_line_buf.c:91-103 | the caller's buffer holds the line and a NUL, and the rest stays buffered |
| LineReader.RlBuf.Swap | lib/read_line_buf.c:49-71 | the truncated line moves to the other buffer and no byte is lost |
| LineReader.RlBuf.Refill | lib/read_line_buf.c:33-41 | what read() delivers, up to its first NUL, continues the truncated line; 0 and -1 leave the buffer and the position as they were; a NUL that misses the buffer is an overrun |
| LineReader.CallKeepsAllSeen | lib/read_line_buf.c:19-110 | for any bytes and any reads: a call returns a whole line, or none while it has none, and whatever it sees it returns or keeps |
| LineReader.CallLosesNothing | lib/read_line_buf.c:33-41 | of text without NULs no call loses a byte, also where read() gave 0 or -1 in the middle of a line |
| LineReader.RetriesGetAllLines | lib/read_line_buf.c:33-71 | whatever read() does, a caller that calls again after 0 and -1 gets the lines of a text that fits in order and unbroken, and after a bounded number of calls all of them |
| LineReader.LineEndIsFirstNewline | lib/read_line.c:66-67 | the byte behind the first newline is where the specification's line ends |
| LineReader.DrainBuffered | 59_Sockets_Internet_Domain/test_rlbuf.c:38-43 | successive buffered calls return the lines, and end in the way, that the specification gives for this stream and these reads |
| LineReader.DrainByBytes | lib/read_line.c:29-73 | successive readLine() calls with a buffer longer than the longest line return exactly the same lines of a stream that ends with a newline |
| LineReader.ShortLinesFit | lib/read_line_buf.h:1-12 | streams of lines of at most 4096 bytes fit |
| LineReader.LongLinesFit | lib/read_line_buf.h:5-12 | in a stream that fits every line is shorter than 8192 bytes |
| LineReader.FitsExactly | lib/read_line_buf.c:33-71 | some way of cutting a text up makes the reader write past its buffer if and only if a line of it begins with 4096 bytes without a newline and 4096 more bytes follow |
| LineReader.FittingNeverOverruns | lib/read_line_buf.c:33-71 | on a text that fits no sequence of read() outcomes leads to a fault, from any point of any line |
| LineReader.LongLineExample | lib/read_line_buf.c:35-39 | 8192 bytes without a newline in two full reads put the NUL at index 8192 of 8192 bytes |
| LineReader.LinesOfSeen | lib/read_line_buf.c:19-110 | for any bytes and any reads, failing ones included: the lines returned up to the first call that returns none are all the lines among the bytes seen, which are those of each read() before its first NUL |
| LineReader.TextIsReturned | 59_Sockets_Internet_Domain/test_rlbuf.c:38-43 | a text whose lines fit comes back as exactly its lines, for every way read() cuts it up |
| LineReader.ReturnsLinesExactly | lib/read_line_buf.c:43-71 | a stream that ends with a newline comes back as its lines for every way of cutting it up if and only if it has no NUL and its lines fit |
| LineReader.NulExamples | lib/read_line_buf.c:43-57 | a NUL inside a line loses the line; a NUL at the start of a read() reads before the buffer |
| JoinAny.StepKeepsInv | 30_Thread_Synchronhization/join_any.c:26-113 | every step of main, of any thread, and every spurious wake-up keeps the protocol's invariant |
| JoinAny.RunKeepsInv | 30_Thread_Synchronhization/join_any.c:26-113 | every reachable state satisfies it, for any number of threads |
| JoinAny.CountersAndJoins | 30_Thread_Synchronhization/join_any.c:39-46 | total_unjoined is the number of threads that have incremented it and are not JOINED; no thread is joined twice, and each only after it marked itself and ended |
| JoinAny.NoLostWakeUp | 30_Thread_Synchronhization/join_any.c:39-51 | main sleeps with a positive counter only while some thread still has its signal to send |
| JoinAny.NeverStuck | 30_Thread_Synchronhization/join_any.c:79-113 | until main is finished some thread or main can step, also while main joins with both mutexes held |
| JoinAny.FinishedJoinedAll | 30_Thread_Synchronhization/join_any.c:108-112 | at the end every thread has ended and was joined exactly once, the counters are 0 and n, and every mutex is free |
| JoinAny.MainFinishesAlone | 30_Thread_Synchronhization/join_any.c:79-113 | once all threads have ended main leaves its loop within 10n + 11 steps |
| MqNotify.InsertIsLast | 52_Posix_Message_Queues/sigwaitinfo_notify.c:102-103 | a message queues up behind those of its own priority |
| MqNotify.StepKeepsQueued | 52_Posix_Message_Queues/sigwaitinfo_notify.c:90-107 | at every step, for each priority, the messages sent are the messages received followed by those queued |
| MqNotify.OneShotProtocol | 52_Posix_Message_Queues/sigwaitinfo_notify.c:80-107 | from an empty queue: in sigwaitinfo() exactly one of registered and pending holds, a queued message means pending, and a registration never finds another |
| MqNotify.HighestFirst | 52_Posix_Message_Queues/sigwaitinfo_notify.c:102-103 | each message received is the oldest of the highest priority: everything sent with a higher one, and everything sent before it with its own, has been received |
| MqNotify.QueueFits | 52_Posix_Message_Queues/sigwaitinfo_notify.c:102-103 | the queue never holds more than mq_maxmsg messages, and a sender waits exactly when it is full |
| MqNotify.NothingStranded | 52_Posix_Message_Queues/sigwaitinfo_notify.c:90-107 | whenever the process cannot go on it has received everything that was sent, in sending order within each priority |
| MqNotify.ComesToRest | 52_Posix_Message_Queues/sigwaitinfo_notify.c:90-107 | when nothing more arrives it comes to rest in a bounded number of steps |
| MqNotify.NeverNotified | 52_Posix_Message_Queues/sigwaitinfo_notify.c:33-36 | registered over a waiting message it receives nothing, ever |
| MqNotify.WorksExactlyFromEmptyQueue | 52_Posix_Message_Queues/sigwaitinfo_notify.c:33-36 | the process never rests on a waiting message if and only if the queue was empty at the first registration |
| SigChild.StepKeepsInv | 26_Monitoring_Child_Processes/sigchild_handler.c:15-87 | every step of the parent and every exit keeps the invariant |
| SigChild.ZombieMeansPending | 26_Monitoring_Child_Processes/sigchild_handler.c:23-36 | outside the reap loop a zombie keeps SIGCHLD pending; childrenLeft counts the children not reaped; the handler runs at most once per exit |
| SigChild.NeverStuck | 26_Monitoring_Child_Processes/sigchild_handler.c:82-87 | the parent never sleeps for ever while children are left |
| SigChild.DoneReapedAll | 26_Monitoring_Child_Processes/sigchild_handler.c:82-89 | at the end every child was reaped, in between 1 and n runs of the handler, which is what sigCount says |
| SigChild.RunsEnd | 26_Monitoring_Child_Processes/sigchild_handler.c:57-87 | n children make at most 7n + 3 steps |
| SigSpeed.StepKeepsInv | 22_Signals_Advanced_Features/sig_speed_sigsuspend.c:81-97 | the whole state follows from the number of signal events so far |
| SigSpeed.StrictAlternation | 22_Signals_Advanced_Features/sig_speed_sigsuspend.c:81-97 | one signal at most is pending in both processes together, none is merged or sent to a process that has gone, and sends and receipts alternate |
| SigSpeed.StuckOnlyAtTheEnd | 22_Signals_Advanced_Features/sig_speed_sigwaitinfo.c:71-94 | neither process can step exactly when both have exited, and then after exactly n rounds |
| SigSpeed.RunsEnd | 22_Signals_Advanced_Features/sig_speed_sigwaitinfo.c:71-94 | every step is a signal event or an exit, so that a run has at most 4n + 2 steps |
| CString.CStr | 53_Posix_Semaphores/sem_data_transfer.c:25 | what %s prints is the buffer up to its first NUL |
| CString.CStrOfStored | 53_Posix_Semaphores/sem_data_transfer.c:51-54 | a stored string reads back as its own text, whatever the buffer held before |
| CString.NulCutsOff | 53_Posix_Semaphores/sem_data_transfer.c:25 | nothing behind a NUL is printed |
| CString.BehindANul | 53_Posix_Semaphores/sem_data_transfer.c:25 | of a chunk with a NUL between two bytes only the first byte is printed |
| SemTransfer.WriterKeepsInv | 53_Posix_Semaphores/sem_data_transfer.c:47-64 | the writer's steps keep the token and the transfer invariant |
| SemTransfer.ReaderKeepsInv | 53_Posix_Semaphores/sem_data_transfer.c:14-32 | the reader's steps keep them |
| SemTransfer.OneToken | 53_Posix_Semaphores/sem_data_transfer.c:36-64 | the semaphores and the threads between wait and post hold one token until the reader leaves at the end of the input |
| SemTransfer.OutputIsPrefix | 53_Posix_Semaphores/sem_data_transfer.c:14-64 | for NUL-free input, cut up in any way, the output is always a prefix of the input |
| SemTransfer.OutputIsPrintedChunks | 53_Posix_Semaphores/sem_data_transfer.c:14-64 | whatever the input holds: the chunks that read() cut it into join to what was read, and the output is each of them up to its first NUL, all but the one in the buffer, and at the end all |
| SemTransfer.CopiesExactlyText | 53_Posix_Semaphores/sem_data_transfer.c:25 | at the end output equals input if and only if the input is NUL-free |
| SemTransfer.NeverStuck | 53_Posix_Semaphores/sem_data_transfer.c:14-68 | some thread can step until main has returned |
| SemTransfer.RunsEnd | 53_Posix_Semaphores/sem_data_transfer.c:14-68 | a run has at most 8 steps per input byte and 9 more |
| SharedMemory.OneToken | 54_Posix_Shared_Memory/pshm_writer.c:44-66 | the same token between two processes, from the creation of the semaphores on |
| SharedMemory.NoFault | 54_Posix_Shared_Memory/pshm_writer.c:52-59 | neither side touches the mapping while the object is shorter than it, or overruns a buffer |
| SharedMemory.StartUpIsNotEof | 54_Posix_Shared_Memory/pshm_reader.c:45-48 | the reader finds size 0 only when the writer has read all the input, and then it has printed all of it |
| SharedMemory.OutputIsPrefix | 54_Posix_Shared_Memory/pshm_reader.c:41-55 | for NUL-free input the output is always a prefix of the input |
| SharedMemory.OutputIsPrintedChunks | 54_Posix_Shared_Memory/pshm_reader.c:41-55 | the same between the processes: the output is each chunk up to its first NUL, all but the one on its way, and all when the reader is at the end |
| SharedMemory.StuckIsTheEnd | 54_Posix_Shared_Memory/pshm_writer.c:11-72 | with something to read nothing stops before both have exited with every name unlinked, and output equals input if and only if the input is NUL-free |
| SharedMemory.RunsEnd | 54_Posix_Shared_Memory/pshm_reader.c:11-59 | polls aside a run has at most 9 steps per input byte and 19 more |
| SharedMemory.EmptyInputCanHang | 54_Posix_Shared_Memory/pshm_reader.c:15-28 | a run on empty input that leaves the reader polling for ever |
| SharedMemory.EndsWellExactly | 54_Posix_Shared_Memory/pshm_writer.c:52-71 | every run ends well if and only if the input is not empty |
| DynamicArray.GrowthIsCheap | lib/dynamic_array.c:79-112 | over any pushes and pops from empty: size <= capacity < twice the largest size, and growing has moved fewer elements than that |
| DynamicArray.DynArray.constructor | lib/dynamic_array.c:25-36 | an empty array without capacity |
| DynamicArray.DynArray.Reserve | lib/dynamic_array.c:38-52 | the contents survive and the capacity is at least what was asked for |
| DynamicArray.DynArray.Push | lib/dynamic_array.c:79-103 | the live elements survive reallocation and the new one follows them; sizes and cost as counted in GrowthIsCheap |
| DynamicArray.DynArray.Pop | lib/dynamic_array.c:105-112 | the last element goes, or -1 exactly for an empty array |
| DynamicArray.DynArray.Set | lib/dynamic_array.c:71-77 | writing through da_get()'s pointer replaces one element |
| DynamicArray.DynArray.Reverse | lib/dynamic_array.c:129-147 | the elements copied are the reversed contents, and all are copied up to a size of 2^31 |
| DynamicArray.ReverseCopiesAllExactly | lib/dynamic_array.c:138 | the loop copies every element if and only if the size is at most 2^31 |
| DynamicArray.ReverseCopiesNothing | lib/dynamic_array.c:138 | with 2^31 + 1 elements it copies none |
| DynamicArray.ReversedTwice | lib/dynamic_array.c:129-147 | reversal is its own inverse |
| Script.DecodeEncode | 64_Pseudoterminals/replay_script.c:59-82 | what comes back from a recording is the text with each adjacent backslash and 'n' replaced by a newline |
| Script.SurvivesExactly | 64_Pseudoterminals/better_script.c:200-208 | text survives if and only if it holds no such pair |
| Script.PairIsLost | 64_Pseudoterminals/better_script.c:200-208 | a backslash and an 'n' come back as a newline |
| Script.PrintedIntIsRead | lib/get_num.c:34-72 | a printed time is read back as the same number |
| Script.NegativeIsRefused | lib/get_num.c:34-72 | a printed negative number is refused |
| Script.GetIntExactly | lib/get_num.c:34-72 | exactly the numbers from 0 to INT_MAX are accepted: white space, a sign or none, and digits up to the end |
| Script.MillisWithinOne | 64_Pseudoterminals/better_script.c:186-194 | the recorded time is not negative and less than 1 ms off |
| Script.MillisTruncates | 64_Pseudoterminals/better_script.c:186-194 | the recorded time is the elapsed one rounded down to whole milliseconds where the nanoseconds have grown since the start, and rounded up where they have not |
| Script.MillisMonotone | 64_Pseudoterminals/better_script.c:186-194 | recorded times never go back |
| Script.DelayIsExact | 64_Pseudoterminals/replay_script.c:45-51 | a pause is a valid timespec exactly when it is not negative, and it lasts exactly the difference |
| Script.Recorder.WriteText | 64_Pseudoterminals/better_script.c:200-208 | the file grows by the encoded text |
| Script.Recorder.Record | 64_Pseudoterminals/better_script.c:186-211 | the file stays the recording of all chunks with their times |
| Script.RecordExample | 64_Pseudoterminals/better_script.c:192-211 | the bytes of one record |
| Script.ReadTime | 64_Pseudoterminals/replay_script.c:24-44 | the characters before the blank, or an overrun of the 100-byte buffer, which is found only when a character follows the hundredth |
| Script.ReadText | 64_Pseudoterminals/replay_script.c:56-82 | overwriting the last element of the growing array in place decodes the text up to the newline, or looks in front of the empty array |
| Script.ReadRecord | 64_Pseudoterminals/replay_script.c:23-95 | one round: the pause, the printed text, and where the next record starts, or why the program ends |
| Script.Replay | 64_Pseudoterminals/replay_script.c:14-97 | on any file the loop pauses, prints and ends as the record-by-record specification says |
| Script.PlayOne | 64_Pseudoterminals/replay_script.c:23-82 | a record is found again between blank and newline, whatever follows it |
| Script.PlayRecording | 64_Pseudoterminals/replay_script.c:23-96 | a whole recording plays to its end with its pauses and its merged text, unless it looks in front of an empty array |
| Script.CutInTextReplays | 64_Pseudoterminals/replay_script.c:56-95 | a recording cut off inside a record's text makes all its pauses and shows all its text, of the last record as far as it was written |
| Script.CutInTimeReplays | 64_Pseudoterminals/replay_script.c:27-42 | a recording cut off inside a time shows the records before it and ends normally |
| Script.LongTimeOverruns | 64_Pseudoterminals/replay_script.c:24-44 | a time before a blank overruns the buffer if and only if it has at least 100 characters |
| Script.PlayField | 64_Pseudoterminals/replay_script.c:24-42 | a time that ends the file overruns it if and only if it has more than 100 |
| Script.RoundTripsExactly | 64_Pseudoterminals/better_script.c:192-211 | the replay comes to its end and shows what was recorded if and only if no chunk holds the pair, or begins with an 'n' where that is undefined |
| Script.FirstNIsUndefined | 64_Pseudoterminals/replay_script.c:69-75 | one chunk that begins with an 'n' leads to a read in front of the array |
| Script.PausesAddUp | 64_Pseudoterminals/replay_script.c:44-54 | every pause is valid and together they last until the last record's time |
| Script.PlaysOnlyTimed | 64_Pseudoterminals/replay_script.c:44-54 | a recording that plays to its end has times that do not go back and fit an int |
| Script.SessionReplaysExactly | 64_Pseudoterminals/better_script.c:141-211 | the replay of a session comes to its end and lasts, to less than 1 ms, as long as the session did, if and only if the session is shorter than 2^31 ms and never begins a chunk with an 'n' where that is undefined; then it shows the merged text |
| Script.LongSessionIsLost | 64_Pseudoterminals/better_script.c:186-194 | text read 2^31 ms after the start is recorded with a negative time, which the replayer refuses |
| ProcTree.ChildSpacing | 12_System_And_Process_Info/proc_tree_view.c:237-243 | every marker lands inside the spacing, in the columns of the open levels and nowhere else |
| ProcTree.Display.FindChild | 12_System_And_Process_Info/proc_tree_view.c:199-211 | takes the first untaken child in table order, or none |
| ProcTree.Display.CollectChildren | 12_System_And_Process_Info/proc_tree_view.c:249-260 | takes the children one by one and marks those that still have children |
| ProcTree.Display.PrintHierarchy | 12_System_And_Process_Info/proc_tree_view.c:228-322 | terminates on every table, prints the text and takes the flags that the specification says, and leaves one indentation level more exactly when the caller is to pop it |
| ProcTree.Display.PrintChild | 12_System_And_Process_Info/proc_tree_view.c:287-316 | a child is printed in its place behind its gap, and the indentation levels are as they were |
| ProcTree.NothingTwice | 12_System_And_Process_Info/proc_tree_view.c:199-211 | on every table, cyclic or not, nothing is printed twice below a process |
| ProcTree.CollectIsChildren | 12_System_And_Process_Info/proc_tree_view.c:188-260 | whatever else the flags hold, the children that are not taken are found in table order, and those with such children themselves are marked as parents, as are those marked before |
| ProcTree.WalkIsPreorder | 12_System_And_Process_Info/proc_tree_view.c:228-322 | with distinct pids and no cycle, and any set of entries taken below a process, the traversal is the preorder of the rest and touches no flag elsewhere |
| ProcTree.PreorderMembers | 12_System_And_Process_Info/proc_tree_view.c:228-322 | that preorder holds exactly the processes reached from the first through processes that are not taken |
| ProcTree.PrintsWhatIsReached | 12_System_And_Process_Info/proc_tree_view.c:324-362 | with whatever flags the memory holds at the start: each process reached from init is printed once, no other, parents first and siblings in table order |
| ProcTree.PrintsAllExactly | 12_System_And_Process_Info/proc_tree_view.c:324-362 | init's descendants are all printed if and only if no taken flag below init is set at the start; the parent flags do not matter |
| ProcTree.DrawIsWalk | 12_System_And_Process_Info/proc_tree_view.c:228-322 | what is displayed are the processes of the traversal, in its order |
| ProcTree.DisplaysInPlace | 12_System_And_Process_Info/proc_tree_view.c:228-322 | with whatever flags at the start, each process stands in the place that follows from its parent's alone: column behind the parent's pid and header, open levels, first, last or one of several in table order |
| ProcTree.LevelsAreAncestors | 12_System_And_Process_Info/proc_tree_view.c:231-232 | a level is open exactly if it is the column of a process above that is init or one of several children |
| ProcTree.MarkersAreAncestors | 12_System_And_Process_Info/proc_tree_view.c:237-243 | in the gap before a process a marker stands exactly where such a process above has its header |
| ProcTree.AlignedExactly | 12_System_And_Process_Info/proc_tree_view.c:262-316 | on every table: each pid stands in its column of its line if and only if no process without children, but the last, is descended into |
| ProcTree.MarkerBelowLastChild | 12_System_And_Process_Info/proc_tree_view.c:228-322 | the text printed for a table of five, with a marker below the last child |
| ProcTree.StaleParentBreaksALine | 12_System_And_Process_Info/proc_tree_view.c:290-313 | a table of three on which a set parent flag puts a process out of its column |
| ProcTree.StaleFlagDropsAProcess | 12_System_And_Process_Info/proc_tree_view.c:199-211 | a table of two on which a set flag keeps the child from being printed |
| CpHole.Target.Write | 04_Universal_File_IO/cp_hole.c:85-94 | writing behind the end leaves a hole that reads as zeros |
| CpHole.CopyBlock | 04_Universal_File_IO/cp_hole.c:79-96 | one read() and write() moves one block, in both files and in the map of what is written |
| CpHole.CopyHoles | 04_Universal_File_IO/cp_hole.c:42-97 | so many rounds of the loop, which may run for ever, lead to the state that the rounds of the specification lead to |
| CpHole.CopyData | 04_Universal_File_IO/cp_hole.c:74-96 | the loop over blocks is one write() of the whole extent |
| CpHole.Round | 04_Universal_File_IO/cp_hole.c:44-96 | one round with every offset cut to an int: looks for data, skips a hole, copies an extent, ends or fails |
| CpHole.CopiesExactly | 04_Universal_File_IO/cp_hole.c:42-97 | if the offsets of the data fit an int, the program ends with all data copied and written at exactly the data extents; if not, in no round does the target reach the end of the data |
| CpHole.RoundsCopy | 04_Universal_File_IO/cp_hole.c:42-97 | while all data lies below 2 * INT_MAX, the target is right in every round |
| CpHole.TwoGigabytesFail | 04_Universal_File_IO/cp_hole.c:57-92 | of 2^31 bytes of data nothing is copied and the program fails |
| CpHole.FourGigabytesHang | 04_Universal_File_IO/cp_hole.c:57-96 | of 2^32 bytes of data nothing is copied, for ever |
| CpHole.ByteAtMinusOneIsLost | 04_Universal_File_IO/cp_hole.c:51-53 | a byte at offset 2^32 - 1 is not copied, and the program ends normally |
| CpHole.FaithfulExactly | 04_Universal_File_IO/cp_hole.c:42-97 | the program ends with the target equal to the source if and only if the offsets fit and the source is empty or ends in data |
| CpHole.OneByteHoleIsLost | 04_Universal_File_IO/cp_hole.c:51-53 | a hole of one byte is copied as an empty file |

## Left out

- malloc(), mutex, semaphore and other system calls are taken to succeed, except where a failure is named above.
- ts_btree.h: `bt_delete_ts` is unfinished (its two-child case is commented out) and is not modelled; the memory of a node is one half-built stage until all its fields are written.
- lib/binary_tree.c: `bt_print` and `bt_print_rec`.
- FreeNode: that no node is freed twice is in the precondition and in `Valid` (freed nodes are never in the tree); the memory itself is not modelled.
- Lookup: the tree as written crashes on a miss; what it returns then is modelled as an outcome of its own and not as undefined behaviour.
- FitsExactly: the bound on lines is for streams without NULs; what a NUL does is in LinesOfSeen and ReturnsLinesExactly.
- ReadLineBuf: what happens after a write past a buffer, or a read in front of one.
- CopyHoles: read() and write() move all the bytes they are asked for, and the source does not change meanwhile.
- Replay: the printed text and the pauses are values; the terminal, the clock and real waiting are not part of this model.
- PrintHierarchy: there is a process with pid 1, and int arithmetic does not overflow.
- SharedMemory: the three names do not exist at the start, and signals do not interrupt sem_wait().
- MqNotify: no other process registers for, or receives from, the queue.
- JoinAny: pthread_cond_signal() wakes main when it waits, as nobody else waits on the condition variable.
- SigSpeed: nobody else sends the signal.
- SigChild: the signal mask the program starts with does not block SIGCHLD.
- Server: requests arrive whole and their strings fit their fields; the printout of the tree after each request is not modelled.
- Fairness is not assumed and not used: liveness is stated as the absence of stuck states and as bounds on runs. Main's polling of a thread that has counted itself but not yet marked itself (join_any.c) has no such bound until the threads have ended.
- prod_consumer.c and unsetenv_clone() (setenv_unsetenv_imp.c): a counter under one mutex and a compaction loop, easier than what is here.
- thread_multijoin.c, tail_command.c, malloc_free_imp.c and the demonstrations of single kernel features.
