# Verified models of the logging server's core

This project models four parts of the repository and proves what each of them is for.  A class is a C
structure or a C++ object that is updated in place; its methods are proved against functions on
values, and the main results are lemmas about those functions, for all inputs and all runs.
`basics.dfy` has bytes and numbers made of bytes, for all four parts.

**wepoll** (`Extern/wepoll/wepoll.c`), epoll on top of Windows completion ports.

- `tree_shape.dfy`, `tree.dfy`: the intrusive red-black tree, on node objects with parent links.
- `queue.dfy`: the intrusive circular queue, and the two queues that share one link field.
- `port_model.dfy`, `port_invariant.dfy`, `port_runs.dfy`, `port_closing.dfy`, `port.dfy`: sockets, poll groups
  and ports.  The operating system is a set of parameters: which requests it accepts, which cancellations
  go through, which completions it hands out and when.  A request is a token that `afd_poll` makes and one
  completion uses up.  Runs interleave the locked sections of any number of threads, also after the port has been closed.
- `port_events.dfy`, `port_laws.dfy`, `port_wishes.dfy`: the same for the user: what the event masks mean, by a table of bits; what
  each operation asks for and reports; and, over runs, that what is stored, asked for and reported is what the user asked for last.
- `port_links.dfy`: the port's own tree and queues, on the pointer structures, doing what the port model does to its map and
  sequences.
- `reflock.dfy`, `reflock_safety.dfy`, `reflock_runs.dfy`: the destroy protocol of a port, as steps of any number of
  threads that create, use and close ports; a step is one atomic action.

**The wire formats** (`log4cxxExt/`, `pythonLogging/client/`, and the appender in `Extern/log4cxx-0.10.0/log4cxx/`).  `wire.dfy` holds the grammars of the two protocols, the
first being a fragment of the stream grammar of the Java Object Serialization Specification (section 6.4), with
"too small" told apart from "malformed".  `wire_cursor.dfy` has the reader of class descriptors with its cursor, which negative
lengths move back, and `wire_exact.dfy` the events by positions, their stability under appended bytes, and their agreement with
the grammar; `wire_stream.dfy` the client's loop over chunks; `wire_encode.dfy` the two Python encoders and the round trips; `wire_sender.dfy` the appender of log4cxx, which writes every part of
an event that the grammar allows, and its round trips; `wire_buffer.dfy` and `wire_client.dfy` the readers, the loaders and the client as the code
has them.  It is the release build: `_ASSERTE` does nothing.

**Bucket brigades** (`Extern/log4cxx-0.10.0/apr-util/buckets/`).  `buckets.dfy` has memory, blocks and buckets with explicit
addresses, so that aliasing is part of the model; `buckets_safety.dfy` and `buckets_runs.dfy` say what every operation and
every run keeps; `brigades.dfy` has the brigade functions, on objects.  A ring is a sequence of bucket names.

**Hashing by pieces** (`Extern/log4cxx-0.10.0/apr-util/crypto/`).  `hashing.dfy`, `sha1.dfy` and `md5.dfy` prove that block
buffering and length counters refine the padded definitions, for any compression function.

## What the proofs say about the code

- `port_get_iocp_handle` asserts that the completion port is open.  That does not hold: a thread may use a port while
  another has just closed it and waits for the reference.  `ReflockRuns.ClosedUnderUserRun` is such a run, and
  `ReflockRuns.ClosedUnderUser` says exactly when it happens.
- The comment in `epoll__create` that a clash of handles should never happen is right (`ReflockRuns.NeverClashes`).
- The block loop of MD5 has a 32-bit index.  `Md5Digest.LoopTest` says for which calls its test is right; one for which it is
  not is in `Md5Digest.LoopOverruns`.
- A class descriptor with a negative length moves the reader's cursor back.  It may do no harm (`WireCursor.BackAndOn`), lead to a
  read before the buffer (`WireCursor.Leaving`), or keep the tag loop going for ever (`WireCursor.LoopingEndless`), so that the
  client does not return (`WireStream.NeverReturns`).  `WireCursor.NeverEnds` says exactly when the loop does not end, and
  `WireStream.DefaultForward` that the loader returns if no length is negative.
- `readUTFString` stops at a NUL.  Times in milliseconds are multiplied by 1000 in 64 bits.  Both Python encoders pack the time,
  and the Default one the level as well, as an unsigned number that is read back as a signed one.  `WireEncode.DefaultFaithful` and
  `WireEncode.BytesFaithful` say for which records none of this makes a difference; `WireEncode.HighLevelLost` and
  `WireEncode.PathCut` are records for which it does.
- log4cxx writes the length of a string in two bytes without looking whether it fits.  `WireSender.LongStringCut` says what arrives.
- The reader of class descriptors counts fields, but takes items.  Java's descriptors pass (`WireEncode.JavaExact`), because their
  handles for type names come late enough; `WireEncode.Readable` says what is enough.
- `readNDC` accepts an unknown tag without taking it; the string after it rejects that tag, so the event is malformed all
  the same (`WireExact.UnknownTagRejected`).

## Model

| member | source | states |
|---|---|---|
| RedBlackTree.Tree.Delete | Extern/wepoll/wepoll.c:2096-2167 | Deleting any stored node leaves a valid red-black tree (search order, black root, no red node with a red child, equal black height, links that agree in both directions) that holds exactly the other nodes and keys; the rebalancing loop ends and never meets a missing sibling |
| RedBlackTree.Tree.Add | Extern/wepoll/wepoll.c:2036-2069 | Returns -1 and changes nothing if the key is there; otherwise the map from keys to nodes gains exactly this key, and the tree is again a valid red-black tree |
| RedBlackTree.Tree.Find | Extern/wepoll/wepoll.c:2169-2180 | Finds the node that the finite map has for the key, or null if it has none, and looks at no more than 2 log2(n + 1) nodes |
| RedBlackTree.Tree.constructor | Extern/wepoll/wepoll.c:1972-1974 | A fresh tree is valid and stands for the empty map |
| RedBlackTree.Tree.Rotate | Extern/wepoll/wepoll.c:1980-2007 | The pointer assignments amount to a rotation of the subtree, in either direction and also at the root; everything outside the subtree is as before |
| RedBlackTree.Tree.FindSlot | Extern/wepoll/wepoll.c:2039-2052 | Says whether the key is stored; if not, it has found the one empty place where the key keeps the search order |
| RedBlackTree.Tree.RebalanceAfterInsert | Extern/wepoll/wepoll.c:2017-2034 | One round keeps the contents and all invariants but the one about the red node, which is now closer to the root |
| RedBlackTree.Tree.FixAfterInsert | Extern/wepoll/wepoll.c:2059-2066 | From one red node that may sit below a red parent to a valid tree with the same contents; the loop ends |
| RedBlackTree.Tree.RebalanceAfterRemove | Extern/wepoll/wepoll.c:2071-2094 | One round either makes good the missing black or hands it to the parent, which is red or closer to the root; contents are kept |
| RedBlackTree.Tree.FixAfterRemove | Extern/wepoll/wepoll.c:2152-2166 | From one position that is a black short to a valid tree with the same contents; the loop ends |
| RedBlackTree.Tree.Successor | Extern/wepoll/wepoll.c:2108-2110 | The leftmost node of the right subtree: it has no left child, and the path to it only turns left |
| RedBlackTree.Tree.UnlinkInner | Extern/wepoll/wepoll.c:2113-2145 | A node with two children goes: its successor stands in its place with its colour, and all parent and child links agree again |
| TreeShape.OuterGone | Extern/wepoll/wepoll.c:2102-2106 | Without a node that has at most one child, the entries are those before minus its key, and black heights are off by at most one, at the known place |
| TreeShape.InnerGone | Extern/wepoll/wepoll.c:2107-2110 | The same for a node with two children whose place is taken by its successor |
| TreeShape.DepthBound | Extern/wepoll/wepoll.c:2169-2180 | No path of a red-black tree with n keys has more than 2 log2(n + 1) nodes |
| Queue.QueueNode.constructor | Extern/wepoll/wepoll.c:1465-1468 | A node on no queue is a circle of its own |
| Queue.IsEnqueued | Extern/wepoll/wepoll.c:1516-1518 | True exactly if the circle that the node is on has other nodes |
| Queue.First | Extern/wepoll/wepoll.c:1475-1477 | The first element of the queue, or null if it is empty |
| Queue.Last | Extern/wepoll/wepoll.c:1479-1481 | The last element of the queue, or null if it is empty |
| Queue.Prepend | Extern/wepoll/wepoll.c:1483-1488 | The circle spells out the queue with the node in front |
| Queue.Append | Extern/wepoll/wepoll.c:1490-1495 | The circle spells out the queue with the node at the end |
| Queue.MoveToStart | Extern/wepoll/wepoll.c:1497-1500 | From wherever it is in the queue, the node comes to the front; the order of the others is kept |
| Queue.MoveToEnd | Extern/wepoll/wepoll.c:1502-1505 | From wherever it is in the queue, the node comes to the end; the order of the others is kept |
| Queue.Remove | Extern/wepoll/wepoll.c:1507-1510 | The circle closes up without the node, which is a circle of its own afterwards |
| Queue.SockQueues.RequestUpdate | Extern/wepoll/wepoll.c:1412-1418 | With one link field for two queues: a socket on either queue stays where it is, any other goes to the end of the update queue; both circles stay intact |
| Queue.SockQueues.AddDeleted | Extern/wepoll/wepoll.c:1428-1434 | The same for the deleted queue |
| Queue.SockQueues.Dequeue | Extern/wepoll/wepoll.c:1420-1442 | Whichever queue the socket is on, it is taken off that one, and the other is not changed, although the code does not know which it is |
| PortModel.AcquireKeeps | Extern/wepoll/wepoll.c:994-1012 | One more slot, of a group that had one free; full groups stay in front of all others, and a group is made only when every group is full |
| PortModel.ReleaseKeeps | Extern/wepoll/wepoll.c:1014-1024 | One slot less; the order is kept, and the assertion that the group is not full afterwards holds |
| PortModel.CoveredMask | Extern/wepoll/wepoll.c:1713-1749 | If the known events a user asks for are among those monitored, then the request to the system covers them after translation, too |
| PortInvariant.SetEventKeeps | Extern/wepoll/wepoll.c:1713-1728 | A change of interest keeps the whole port invariant |
| PortInvariant.DeleteKeeps | Extern/wepoll/wepoll.c:1676-1703 | A socket is freed only if it has no outstanding request; otherwise it waits in the deleted queue; the port invariant holds either way |
| PortInvariant.UpdateKeeps | Extern/wepoll/wepoll.c:1772-1832 | Whatever the system answers, an update keeps the whole port invariant |
| PortInvariant.FeedKeeps | Extern/wepoll/wepoll.c:1834-1887 | A completion uses up the one request of its socket and keeps the whole port invariant |
| PortRuns.NewKeeps | Extern/wepoll/wepoll.c:1635-1674 | Either a registered idle socket with one slot comes about, or nothing does and the slot taken for it has been given back |
| PortRuns.UpdateAll | Extern/wepoll/wepoll.c:1168-1184 | Updating keeps the port invariant, ends, and empties the update queue unless an update fails |
| PortRuns.FeedAllKeeps | Extern/wepoll/wepoll.c:1191-1207 | A batch of dequeued completions never touches freed memory, even if one completion in it frees a socket |
| PortRuns.FetchKeeps | Extern/wepoll/wepoll.c:1223-1228 | Completions go from the system to a thread without any being lost or doubled |
| PortRuns.Ownership | Extern/wepoll/wepoll.c:1676-1711 | After any run, also one in which the port is closed and other threads go on, the live sockets are those in the tree and those in the deleted queue, each in one place only; a live socket has one outstanding request, or none if idle, and closing can only lose it; no request is out for freed memory; the update queue holds registered sockets only |
| PortRuns.CompletionsAreSafe | Extern/wepoll/wepoll.c:1191-1207 | After any run, also one in which the port is closed, and whatever completions a thread then feeds, none points at a freed socket |
| PortRuns.GroupsAreTight | Extern/wepoll/wepoll.c:946-1024 | After any run full groups come first, each group is as large as the number of live sockets that point at it, the slots in use are the live sockets, and there are at most ceil(peak / 32) groups |
| PortEvents.RequestExact | Extern/wepoll/wepoll.c:1730-1749 | Bit by bit, against a table of which event of a poll stands for which events of epoll: a request asks for the closing of the socket, and for just those events that stand for something in the interest, a failed connection only where errors are asked for |
| PortEvents.AnswerExact | Extern/wepoll/wepoll.c:1751-1770 | Bit by bit, against the same table: a completed request is told as just those events that one of its own stands for |
| PortEvents.CoveredExact | Extern/wepoll/wepoll.c:1774-1777 | The test on two masks of epoll holds if and only if every known event of the one is in the other |
| PortEvents.CoveredWatches | Extern/wepoll/wepoll.c:1774-1777 | If that test holds, the request that is out has every event that stands for something in the interest |
| PortLaws.DeleteDone | Extern/wepoll/wepoll.c:1676-1703 | The key of the socket goes and no other; the memory goes unless a request is out and the deletion is not forced, and that request is withdrawn if it can be; every other socket is as before |
| PortLaws.UpdateAsks | Extern/wepoll/wepoll.c:1772-1832 | When an update succeeds; what an accepted request asks for, in terms of the table; that a request that monitors enough is left alone, one that does not is withdrawn, and a socket found closed is dropped |
| PortLaws.UpdateAllOthers | Extern/wepoll/wepoll.c:1168-1184 | No interest changes, no key goes but those of sockets found closed, and it fails only if the system refuses something |
| PortLaws.FeedReports | Extern/wepoll/wepoll.c:1834-1887 | For a socket that stays, an event is reported if and only if the completion signals something asked for; it has just the events that are both and the data of the user; the interest goes if it was for one report and that has been made, and is otherwise what it was; an update is due.  A socket being deleted or found closed goes without a report |
| PortWishes.NewDone | Extern/wepoll/wepoll.c:1635-1674 | A socket is made if and only if its handle is valid and not registered, its base socket is found, and memory and a place in a group are to be had; it is then registered under just its key |
| PortWishes.AlwaysBits | Extern/wepoll/wepoll.c:1713-1722 | Bit by bit: an interest has what is asked for, errors and hang-ups |
| PortWishes.AddDone | Extern/wepoll/wepoll.c:1319-1334 | The answer is yes if and only if the socket can be registered; its key then stands for it, with just the interest and the data given, unless it is found closed at once; all other keys are as before |
| PortWishes.ModDone | Extern/wepoll/wepoll.c:1336-1349 | The answer is yes if and only if the key is registered; it then has just the interest and the data given |
| PortWishes.DelDone | Extern/wepoll/wepoll.c:1351-1359 | The answer is yes if and only if the key is registered; it then is no more, and a request that is out is withdrawn if it can be |
| PortWishes.AskedFor | Extern/wepoll/wepoll.c:1713-1728 | After any run, what is stored for a registered key is what was asked for last: by the last addition or modification answered with yes, less what has been reported once and for all |
| PortWishes.InterestKept | Extern/wepoll/wepoll.c:1772-1832 | After any run, with or without the port being closed on the way, every registered socket is due for an update, or has a cancelled request still to come back, or the system has been asked for everything that stands for what its user asked for last |
| PortWishes.NoLostInterest | Extern/wepoll/wepoll.c:1168-1184 | After any run and a successful update of all events, every registered socket has exactly one request out as long as the port is open, and unless that is cancelled it asks for everything that stands for what the user asked for last |
| PortWishes.ReportsAreAsked | Extern/wepoll/wepoll.c:1191-1207 | After any run, a batch of completions is told in order: each just as what it signals and its user asked for last, with the data given then, and not at all if that is nothing |
| PortWishes.PollsCounted | Extern/wepoll/wepoll.c:1209-1238 | After any run the count of polling threads is the number that have begun and neither ended nor timed out |
| PortWishes.NothingPends | Extern/wepoll/wepoll.c:1186-1189 | While threads are polling, no addition, modification, start or end of a wait leaves a socket waiting for its update, unless the system has refused something |
| PortRuns.CloseKeeps | Extern/wepoll/wepoll.c:1117-1135 | Closing a port loses the requests the system still has, and keeps the rest of the invariant; completions that threads have already taken stay theirs |
| PortClosing.CanClose | Extern/wepoll/wepoll.c:1137-1146 | Every state of a port from which deletion may start, with requests out or completions not yet fed, has what deletion needs |
| PortClosing.ForceKeeps | Extern/wepoll/wepoll.c:1709-1711 | A forced delete frees the socket and only that, whatever queue or tree it was in and whatever requests are out |
| PortClosing.NothingLeft | Extern/wepoll/wepoll.c:1137-1166 | Once the tree and the deleted queue are empty, no socket lives, the update queue is empty and every group has size 0, which are the assertions of `poll_group_delete` and `port_delete` |
| EpollPort.PortState.constructor | Extern/wepoll/wepoll.c:1086-1115 | A new port is in the state that runs start from |
| EpollPort.PortState.RequestUpdate | Extern/wepoll/wepoll.c:1412-1418 | In place: the update queue grows by this socket unless it is queued somewhere; no field of any socket, no group and no tree entry changes |
| EpollPort.PortState.AddDeleted | Extern/wepoll/wepoll.c:1428-1434 | In place: likewise for the deleted queue |
| EpollPort.PortState.OffQueues | Extern/wepoll/wepoll.c:1420-1442 | In place: off both queues, with everything else as it was |
| EpollPort.PortState.CancelPoll | Extern/wepoll/wepoll.c:1623-1633 | In place: if the system refuses, no field changes; otherwise the request counts as cancelled and nothing is pending |
| EpollPort.PortState.SetEvent | Extern/wepoll/wepoll.c:1713-1728 | In place: interest and data are stored and the socket is queued as in the model, of which `AskedFor` and `AlwaysBits` say what that means |
| EpollPort.PortState.Acquire | Extern/wepoll/wepoll.c:994-1012 | In place, on group objects: the slot, the queue order and whether a group is made are those for which order and bound are proved |
| EpollPort.PortState.Release | Extern/wepoll/wepoll.c:1014-1024 | In place, on group objects: one slot less, and the group is at the end |
| EpollPort.PortState.Delete | Extern/wepoll/wepoll.c:1676-1703 | In place: the port moves exactly as in the model for which ownership is proved; only this socket and its group are written to |
| EpollPort.PortState.New | Extern/wepoll/wepoll.c:1635-1674 | In place: on each of the failing paths the slot has been given back and nothing is registered |
| EpollPort.PortState.Update | Extern/wepoll/wepoll.c:1772-1832 | In place: all three states and all answers of the system move the port exactly as in the model, of which `UpdateAsks` says what is asked of the system, for a socket that, as asserted, is not being deleted |
| EpollPort.PortState.Feed | Extern/wepoll/wepoll.c:1834-1887 | In place: same port and same reported event as in the model, of which `FeedReports` says what they are, for pending, cancelled and deleted sockets |
| EpollPort.PortState.UpdateEvents | Extern/wepoll/wepoll.c:1168-1184 | The loop over the update queue ends and comes to what the recursive definition says, failure included |
| EpollPort.PortState.FeedEvents | Extern/wepoll/wepoll.c:1191-1207 | The loop over a batch ends with the port and the events of the model, in order; no completion is for a freed socket |
| EpollPort.PortState.UpdateIfPolling | Extern/wepoll/wepoll.c:1186-1189 | Nothing happens unless a thread is polling |
| EpollPort.PortState.CtlAdd | Extern/wepoll/wepoll.c:1319-1334 | Object and model agree on the new state and on whether the socket was added |
| EpollPort.PortState.CtlMod | Extern/wepoll/wepoll.c:1336-1349 | Object and model agree, for registered and unknown sockets |
| EpollPort.PortState.CtlDel | Extern/wepoll/wepoll.c:1351-1359 | Object and model agree, for registered and unknown sockets |
| EpollPort.PortState.BeginPoll | Extern/wepoll/wepoll.c:1209-1221 | Object and model agree up to the point where the lock is let go; a failed update does not count as polling |
| EpollPort.PortState.EndPoll | Extern/wepoll/wepoll.c:1230-1238 | Object and model agree on the state and the events once the lock is taken again |
| EpollPort.PortState.Close | Extern/wepoll/wepoll.c:1117-1135 | In place: the completion port is gone and with it the requests the system had; sockets, groups, queues and the completions already taken are as before |
| EpollPort.PortState.ForceDelete | Extern/wepoll/wepoll.c:1709-1711 | One live socket less, and no other socket or group affected |
| EpollPort.PortState.DeletePort | Extern/wepoll/wepoll.c:1137-1166 | From any state of a closed port, with requests out, sockets queued and completions not fed, deletion ends with no socket, no group and nothing queued; its assertions and that of `poll_group_delete` hold on the way |
| EpollPort.Undeleted | Extern/wepoll/wepoll.c:1772-1773 | No socket in the update queue is being deleted, so the assertion of `sock_update` holds for every socket that it is called for |
| PortLinks.Links.RequestUpdate | Extern/wepoll/wepoll.c:1412-1418 | On the real rings: the socket behind the node joins the update queue unless it is on either queue, which is what the port model does to its sequences |
| PortLinks.Links.AddDeleted | Extern/wepoll/wepoll.c:1428-1434 | On the real rings: likewise for the deleted queue |
| PortLinks.Links.OffQueues | Extern/wepoll/wepoll.c:1420-1442 | On the real rings: one dequeue of the shared node takes the socket off whichever queue it is on |
| PortLinks.Links.Register | Extern/wepoll/wepoll.c:1390-1398 | On the real tree: the map from keys to sockets gains this one, or nothing changes if the key is there |
| PortLinks.Links.Unregister | Extern/wepoll/wepoll.c:1400-1403 | On the real tree: the map loses exactly this socket |
| PortLinks.Links.Find | Extern/wepoll/wepoll.c:1405-1410 | On the real tree: the node of the socket that the map has for the key, or null |
| ReflockSafety.RefStep | Extern/wepoll/wepoll.c:1554-1560 | Taking a reference: the assertion holds, and the word still counts the references |
| ReflockSafety.UnrefStep | Extern/wepoll/wepoll.c:1562-1570 | Dropping a reference: the assertion holds, and a signal is due exactly if this was the last one and the destroyer waits |
| ReflockSafety.DestroyStep | Extern/wepoll/wepoll.c:1572-1581 | Marking the word: the assertion holds, and the thread waits exactly if references are left |
| ReflockSafety.PoisonStep | Extern/wepoll/wepoll.c:1583-1584 | When the wait is over the word is exactly the destroy mark, as asserted |
| ReflockSafety.MeetStep | Extern/wepoll/wepoll.c:1540-1552 | The rendezvous on the keyed event keeps everything in order |
| ReflockSafety.RemoveStep | Extern/wepoll/wepoll.c:1934-1948 | Removal under the exclusive lock: no thread is between finding the node and referencing it |
| ReflockSafety.AddStep | Extern/wepoll/wepoll.c:1915-1923 | A handle that was just made is not in the tree |
| ReflockSafety.DeleteStep | Extern/wepoll/wepoll.c:1137-1166 | The port is closed when it is deleted, and no thread has to do with it |
| ReflockSafety.StepKeeps | Extern/wepoll/wepoll.c:591-681 | Every enabled step of every thread is safe and keeps the invariant of lock words, tree and lock |
| ReflockRuns.NoFault | Extern/wepoll/wepoll.c:1554-1585 | Under no schedule of fewer than 2^28 threads does an assertion of the lock or of the port deletion fail, and no freed memory is touched |
| ReflockRuns.OneDestroyer | Extern/wepoll/wepoll.c:591-614 | In every reachable state at most one thread is between removing a node and the end of its deletion |
| ReflockRuns.UsedIsAlive | Extern/wepoll/wepoll.c:616-681 | No thread uses a deleted port, and none takes a reference to a port that is no longer in the tree |
| ReflockRuns.DestroyWaits | Extern/wepoll/wepoll.c:1572-1585 | Once the destroyer is past its wait, no other thread has to do with the node |
| ReflockRuns.SignalsPair | Extern/wepoll/wepoll.c:1540-1585 | A thread about to signal finds one thread waiting, no other is about to signal it, and a waiting thread waits only for references that are held or for such a signal |
| ReflockRuns.NeverClashes | Extern/wepoll/wepoll.c:555-575 | The branch of `epoll_create` that its comment calls impossible is never reached |
| ReflockRuns.SomeoneCanGo | Extern/wepoll/wepoll.c:1934-1970 | No deadlock: while a call is under way, some thread can take its next step |
| ReflockRuns.RankFalls | Extern/wepoll/wepoll.c:591-681 | Every step that is not the start of a call brings the calls under way nearer to their end |
| ReflockRuns.AllFinish | Extern/wepoll/wepoll.c:591-681 | From any point of any run and in whatever order they go on, the calls under way take no more steps than a bound computed from where they stand, and as long as one has not finished some step can be taken; so every schedule that starts no new call and is continued while it can be ends with all of them finished |
| ReflockRuns.NothingLeaks | Extern/wepoll/wepoll.c:591-614 | A port that no thread has to do with is registered, with no reference counted, or has been freed |
| ReflockRuns.ClosedUnderUser | Extern/wepoll/wepoll.c:1444-1447 | A thread that uses a port finds the completion port closed if and only if another thread is between closing it and the end of its wait; the assertion of `port_get_iocp_handle` holds exactly outside that |
| ReflockRuns.ClosedUnderUserRun | Extern/wepoll/wepoll.c:1444-1447 | A run of two threads at whose end that assertion would fail |
| WireCursor.SignedView | log4cxxExt/Loader/DefaultByteBufInputStream.cpp:30-33 | The sum and the comparison on unsigned 64-bit numbers are the test on signed positions that the model uses |
| WireCursor.NeverEnds | log4cxxExt/Loader/DefaultByteBufInputStream.cpp:376-391 | The tag loop never ends if and only if it comes to some place twice, and if and only if it goes on for more rounds than the buffer has bytes |
| WireCursor.LoopingRounds | log4cxxExt/Loader/DefaultByteBufInputStream.cpp:386-389 | An event that keeps the loop on the same tag, however many rounds it has gone |
| WireCursor.LoopingEndless | log4cxxExt/Loader/DefaultByteBufInputStream.cpp:345-415 | The reader of class descriptors does not return on that event |
| WireCursor.Leaving | log4cxxExt/Loader/DefaultByteBufInputStream.cpp:363-369 | A descriptor of three bytes on which it reads before its buffer |
| WireCursor.BackAndOn | log4cxxExt/Loader/DefaultByteBufInputStream.cpp:345-415 | A descriptor with a negative length on which it moves back and on and returns |
| WireExact.PrologAtStable | log4cxxExt/Loader/DefaultByteBufInputStream.cpp:345-415 | The class descriptor, wherever the cursor goes: only the answer "too small" can change when bytes are appended; a loop that never ends still does not |
| WireExact.FieldAtStable | log4cxxExt/Loader/DefaultByteBufInputStream.cpp:20-521 | Each kind of field: the same |
| WireExact.AllAtStable | log4cxxExt/Loader/DefaultObjectLoader.cpp:69-222 | A whole event: the same, so a parsed event is the same event, of the same size, with more bytes behind it, and malformed stays malformed |
| WireExact.PrologAgrees | log4cxxExt/Loader/DefaultByteBufInputStream.cpp:345-415 | On every buffer on which no length is negative, the reader of class descriptors takes what the grammar says, with the same kind of failure |
| WireExact.AllAgree | log4cxxExt/Loader/DefaultObjectLoader.cpp:69-222 | A whole event: the same |
| WireExact.UnknownTagRejected | log4cxxExt/Loader/DefaultByteBufInputStream.cpp:489-521 | Where the nested context has an unknown tag, which its reader lets pass, the event is malformed all the same, whatever follows |
| WireExact.WrongTag | log4cxxExt/Loader/DefaultByteBufInputStream.cpp:218-231 | Where a string, a class descriptor, a location, a context or an event has to begin, any tag that it cannot begin with is malformed at once, and the end of the buffer is too small |
| WireStream.DefaultRestartable | log4cxxExt/Loader/DefaultObjectLoader.cpp:69-222 | The Default loader takes at least one byte and none beyond the buffer, and is stable under appended bytes, wherever negative lengths lead it |
| WireStream.BytesRestartable | log4cxxExt/Loader/BytesObjectLoader.cpp:200-220 | The Bytes loader, likewise |
| WireStream.DefaultForward | log4cxxExt/Loader/DefaultObjectLoader.cpp:69-222 | The loader returns, with the answer of the grammar, on every buffer on which no class descriptor has a negative length |
| WireStream.NeverReturns | log4cxxExt/Socket/log4cxxClient.cpp:41-80 | A stream of 22 bytes on which a call does not return |
| WireStream.SelectStable | log4cxxExt/Loader/ObjectLoader.cpp:40-57 | The choice of the protocol is stable, and makes none from fewer than 4 bytes |
| WireStream.SelectExact | log4cxxExt/Loader/ObjectLoader.cpp:40-57 | A protocol is chosen if and only if its four start bytes are there; fewer are waited for, others refused |
| WireStream.CallChooses | log4cxxExt/Socket/log4cxxClient.cpp:41-60 | The first call: fewer than four bytes are kept, a start is taken off and the rest read in its protocol, and anything else is refused |
| WireStream.DrainEnds | log4cxxExt/Socket/log4cxxClient.cpp:61-79 | A call waits if what is left is nothing or the beginning of an event, and refuses if it is malformed; what is left is the end of what there was |
| WireStream.WaitsForRest | log4cxxExt/Socket/log4cxxClient.cpp:61-79 | No proper part of an event is taken for one, or refused |
| WireStream.DrainMore | log4cxxExt/Socket/log4cxxClient.cpp:61-79 | The loop on a longer buffer comes to what the loop on the shorter one does, and then on its rest with what was added |
| WireStream.TwoCalls | log4cxxExt/Socket/log4cxxClient.cpp:41-80 | Two calls in a row do what one call with all the bytes does: events, buffer, chosen protocol and result |
| WireStream.ChunksDoNotMatter | log4cxxExt/Socket/log4cxxClient.cpp:41-80 | For every stream and every way of cutting it up, the calls emit the events and leave the buffer that one call on the whole stream does, if that one returns without reading outside its buffer |
| WireStream.NothingAfterRefusal | log4cxxExt/Socket/log4cxxClient.cpp:41-80 | Once a call has returned false, every later one does, and emits nothing |
| WireEncode.DescriptorExact | log4cxxExt/Loader/DefaultByteBufInputStream.cpp:345-415 | For any primitive fields followed by any object fields, the counted loop takes one item per field and leaves to the tag loop only items that it can take: exactly the descriptor is taken, with any bytes behind it, handles for type names included unless they come among the first items |
| WireEncode.PrologExact | log4cxxExt/Loader/DefaultByteBufInputStream.cpp:345-415 | The same for the reader and its cursor, with any bytes before and behind |
| WireEncode.JavaExact | log4cxxExt/Loader/DefaultByteBufInputStream.cpp:345-415 | The descriptors as Java writes them, with handles for repeated type names, are taken exactly |
| WireEncode.LocationExact | log4cxxExt/Loader/DefaultByteBufInputStream.cpp:417-453 | A location object is taken exactly, and read up to its first NUL |
| WireEncode.DefaultRoundTrip | pythonLogging/client/LoggingEvent/DefaultSocketHandler.py:109-175 | What the encoder packs for a record, with or without a reset byte before it, is parsed as the fields of that record, with any bytes behind it |
| WireEncode.BytesRoundTrip | pythonLogging/client/LoggingEvent/ByteSocketHandler.py:28-52 | Likewise for the Bytes protocol |
| WireEncode.DefaultFaithful | log4cxxExt/Loader/DefaultObjectLoader.cpp:69-234 | A record that can be packed arrives as meant if and only if its location has no NUL, its time in microseconds fits 63 bits and 1000 times its level fits 31 |
| WireEncode.BytesFaithful | log4cxxExt/Loader/BytesObjectLoader.cpp:200-220 | A record that can be packed arrives as meant if and only if its path, function and line have no NUL and its time fits 63 bits |
| WireEncode.HighLevelLost | pythonLogging/client/LoggingEvent/DefaultSocketHandler.py:167-168 | A record whose level arrives as another one |
| WireEncode.PathCut | pythonLogging/client/LoggingEvent/ByteSocketHandler.py:28-52 | A record of whose path only the part before a NUL arrives |
| WireEncode.DefaultDelivered | log4cxxExt/Socket/log4cxxClient.cpp:41-80 | Any list of records, encoded, with resets before any of them, put behind the start flag and cut up in any way: exactly these events come out, in order, and nothing is left over |
| WireEncode.BytesDelivered | log4cxxExt/Socket/log4cxxClient.cpp:41-80 | The same end-to-end result for the Bytes protocol |
| WireSender.ObjectOutputStream.constructor | Extern/log4cxx-0.10.0/log4cxx/src/main/cpp/objectoutputstream.cpp:33-42 | The start flag has been written, and no class descriptor |
| WireSender.ObjectOutputStream.WriteInt | Extern/log4cxx-0.10.0/log4cxx/src/main/cpp/objectoutputstream.cpp:137-145 | Shifts and masks give the two's complement of a 32-bit number, highest byte first |
| WireSender.ObjectOutputStream.WriteLong | Extern/log4cxx-0.10.0/log4cxx/src/main/cpp/objectoutputstream.cpp:147-159 | Likewise for 64 bits |
| WireSender.ObjectOutputStream.WriteString | Extern/log4cxx-0.10.0/log4cxx/src/main/cpp/objectoutputstream.cpp:56-77 | A string object, and one more handle |
| WireSender.ObjectOutputStream.WriteProlog | Extern/log4cxx-0.10.0/log4cxx/src/main/cpp/objectoutputstream.cpp:170-194 | A descriptor the first time, and a reference to its handle after that |
| WireSender.ObjectOutputStream.WriteTable | Extern/log4cxx-0.10.0/log4cxx/src/main/cpp/objectoutputstream.cpp:80-115 | A hash table with all the entries, in order |
| WireSender.WritePlace | Extern/log4cxx-0.10.0/log4cxx/src/main/cpp/locationinfo.cpp:147-193 | Nothing, or a location object |
| WireSender.WriteEvent | Extern/log4cxx-0.10.0/log4cxx/src/main/cpp/loggingevent.cpp:298-325 | The object writes the bytes, and keeps the handles, of which the round trip is proved |
| WireSender.SenderRoundTrip | log4cxxExt/Loader/DefaultObjectLoader.cpp:69-222 | What log4cxx writes for an event, with or without location and contexts, with descriptors or references, after a reset or not, is parsed as the fields of that event, with any bytes behind it |
| WireSender.SenderFaithful | log4cxxExt/Loader/DefaultObjectLoader.cpp:69-234 | An event arrives as meant if and only if its location has no NUL and its time is a whole number of milliseconds |
| WireSender.MapExact | log4cxxExt/Loader/DefaultByteBufInputStream.cpp:314-328 | A context with different keys is read as just its entries |
| WireSender.LongStringCut | Extern/log4cxx-0.10.0/log4cxx/src/main/cpp/objectoutputstream.cpp:56-77 | A string of more than 65535 bytes arrives cut to the residue of its length |
| WireSender.SenderDelivered | log4cxxExt/Socket/log4cxxClient.cpp:41-80 | Any list of events from log4cxx, with resets before any of them and cut up in any way: exactly these come out, in order, and nothing is left over |
| WireBuffer.ReadByte | log4cxxExt/Loader/DefaultByteBufInputStream.cpp:20-36 | The byte at the position, or too small |
| WireBuffer.ReadBytes | log4cxxExt/Loader/DefaultByteBufInputStream.cpp:38-54 | That many bytes from the position, or too small; a position beyond the buffer is too small as well |
| WireBuffer.ReadShort | log4cxxExt/Loader/DefaultByteBufInputStream.cpp:56-79 | The swapped bytes are the big-endian number, with its sign |
| WireBuffer.ReadNumber | log4cxxExt/Loader/DefaultByteBufInputStream.cpp:81-163 | Reversing the bytes in place gives the big-endian number, for 4 and for 8 bytes |
| WireBuffer.ReadCounted | log4cxxExt/Loader/DefaultByteBufInputStream.cpp:179-208 | Length and bytes, the length being unsigned |
| WireBuffer.ReadText | log4cxxExt/Loader/DefaultByteBufInputStream.cpp:218-272 | A string object, or malformed if the tag is another one |
| WireBuffer.CutAtNul | log4cxxExt/Loader/DefaultByteBufInputStream.cpp:211-213 | What a string object keeps of the bytes: those before the first NUL |
| WireBuffer.ReadFields | log4cxxExt/Loader/DefaultByteBufInputStream.cpp:370-374 | The counted loop, with its late checks and a cursor that may move back: where it ends, and how it fails, on every buffer on which it stays inside |
| WireBuffer.ReadTags | log4cxxExt/Loader/DefaultByteBufInputStream.cpp:376-391 | The tag loop, likewise, for every cursor from which it ends |
| WireBuffer.ReadEnding | log4cxxExt/Loader/DefaultByteBufInputStream.cpp:376-397 | The loop over the remaining tags and the tag after it |
| WireBuffer.ReadProlog | log4cxxExt/Loader/DefaultByteBufInputStream.cpp:345-415 | The class descriptor, negative lengths included: the position after it or the kind of failure, whenever the call returns without having left the buffer |
| WireBuffer.ReadLocationInfo | log4cxxExt/Loader/DefaultByteBufInputStream.cpp:417-453 | The location string up to its first NUL, or nothing, and the position after it, wherever the descriptor has led |
| WireBuffer.ReadEntry | log4cxxExt/Loader/DefaultByteBufInputStream.cpp:314-328 | One entry of a table: key, value and the position after them |
| WireBuffer.ReadEntries | log4cxxExt/Loader/DefaultByteBufInputStream.cpp:314-328 | The loop over the entries of a table: later entries replace earlier ones; too small and malformed come in the order the bytes do |
| WireBuffer.ReadObject | log4cxxExt/Loader/DefaultByteBufInputStream.cpp:274-343 | A hash table behind any descriptor that the cursor comes through |
| WireBuffer.ReadMDC | log4cxxExt/Loader/DefaultByteBufInputStream.cpp:455-487 | No table or one, likewise |
| WireBuffer.ReadNDC | log4cxxExt/Loader/DefaultByteBufInputStream.cpp:489-521 | Same answer as the grammar; an unknown tag takes no bytes and is no failure |
| WireBuffer.ReadOpening | log4cxxExt/Loader/DefaultObjectLoader.cpp:69-96 | The optional reset and the object tag: same answer as the grammar, for which the round trips with resets are proved |
| WireClient.DefaultEventAt | log4cxxExt/Loader/DefaultObjectLoader.cpp:69-234 | The statements of the loader come to the parser that stability and round trips are proved of, on every buffer on which they return and stay inside |
| WireClient.BytesEventAt | log4cxxExt/Loader/BytesObjectLoader.cpp:200-220 | Likewise for the Bytes loader |
| WireClient.CreateDefaultEvent | log4cxxExt/Loader/DefaultObjectLoader.cpp:69-234 | The bytes of the event are erased if it was parsed, and none otherwise, on every such buffer |
| WireClient.CreateBytesEvent | log4cxxExt/Loader/BytesObjectLoader.cpp:200-220 | Likewise |
| WireClient.ReadStart | log4cxxExt/Loader/DefaultObjectLoader.cpp:21-45 | Four bytes are needed; too few are too small, others are malformed |
| WireClient.CreateLoggingEventFunc | log4cxxExt/Loader/ObjectLoader.cpp:40-57 | The first protocol whose start is there, whose four bytes are then erased; nothing is erased otherwise |
| WireClient.Client.Loop | log4cxxExt/Socket/log4cxxClient.cpp:61-79 | The loop ends, emits what draining the buffer emits, and leaves what that leaves, whenever every loader that it calls returns and stays inside the buffer |
| WireClient.Client.ForceLog | log4cxxExt/Socket/log4cxxClient.cpp:41-80 | Whenever the call returns and stays inside its buffer, the object does to its buffer, its protocol and the events what the function does for which chunking is proved not to matter |
| BucketSafety.HeapCreateKeeps | Extern/log4cxx-0.10.0/apr-util/buckets/apr_buckets_heap.c:43-87 | A new heap bucket holds the bytes it was given; every other bucket reads what it read |
| BucketSafety.PoolCreateKeeps | Extern/log4cxx-0.10.0/apr-util/buckets/apr_buckets_pool.c:93-133 | A new pool bucket reads the memory of the pool; every other bucket reads what it read |
| BucketSafety.SimpleCreateKeeps | Extern/log4cxx-0.10.0/apr-util/buckets/apr_buckets_simple.c:68-119 | A new transient or immortal bucket reads the memory of its maker; every other bucket reads what it read |
| BucketSafety.CopyKeeps | Extern/log4cxx-0.10.0/apr-util/buckets/apr_buckets_refcount.c:33-42 | The copy reads what the bucket reads, and all others read what they read |
| BucketSafety.SplitKeeps | Extern/log4cxx-0.10.0/apr-util/buckets/apr_buckets_refcount.c:19-31 | The two halves together read what the bucket did, the first being as long as asked; a point beyond the end changes nothing |
| BucketSafety.DestroyKeeps | Extern/log4cxx-0.10.0/apr-util/buckets/apr_buckets_refcount.c:44-49 | The block goes if and only if this was the last bucket to point at it, and no other bucket reads anything else |
| BucketSafety.CleanupKeeps | Extern/log4cxx-0.10.0/apr-util/buckets/apr_buckets_pool.c:21-43 | When the pool goes, its block moves to the heap, and every bucket of the block, of either type, reads the bytes it did |
| BucketSafety.TouchKeeps | Extern/log4cxx-0.10.0/apr-util/buckets/apr_buckets_pool.c:45-62 | A pool bucket that finds its pool gone becomes a heap bucket that reads the same |
| BucketSafety.ExtendKeeps | Extern/log4cxx-0.10.0/apr-util/buckets/apr_brigade.c:481-483 | Writing behind the last bucket, in place: sound because the reference count is 1; the bucket reads the new bytes as well, and every other bucket in memory reads what it did |
| BucketRuns.SetasideKeeps | Extern/log4cxx-0.10.0/apr-util/buckets/apr_buckets_simple.c:89-96 | A transient bucket that is set aside reads the same from a block of its own |
| BucketRuns.CountsAreExact | Extern/log4cxx-0.10.0/apr-util/buckets/apr_buckets_refcount.c:19-64 | After any run of creations, copies, splits, destructions, pool cleanups and writes: every count is the number of buckets that point at the block, and a block is freed exactly once, when none is left |
| Brigades.Apr.HeapCreate | Extern/log4cxx-0.10.0/apr-util/buckets/apr_buckets_heap.c:76-87 | On the objects: the new bucket holds the copy, and the space behind it is what the block has left |
| Brigades.Apr.Destroy | Extern/log4cxx-0.10.0/apr-util/buckets/apr_buckets_heap.c:31-39 | On the objects: only this bucket goes, and what the others hold is unchanged |
| Brigades.Apr.Split | Extern/log4cxx-0.10.0/apr-util/buckets/apr_buckets_simple.c:28-46 | On the objects, for shared and for simple buckets: the halves add up, the first has the length asked for, and failures change nothing |
| Brigades.Apr.Cleanup | Extern/log4cxx-0.10.0/apr-util/buckets/apr_brigade.c:37-48 | The brigade is empty, and no bucket of any other brigade holds anything else |
| Brigades.Apr.Room | Extern/log4cxx-0.10.0/apr-util/buckets/apr_brigade.c:441-448 | Space is found if and only if the last bucket is a heap bucket whose block no other bucket shares, and it is then all that the block has left behind the bucket |
| Brigades.Apr.Write | Extern/log4cxx-0.10.0/apr-util/buckets/apr_brigade.c:429-486 | The brigade, or the sink and the brigade, hold the bytes behind what they held; every bucket of other brigades holds what it held; no block is written beyond its length; it fails only if the flush function does |
| Brigades.Apr.Writev | Extern/log4cxx-0.10.0/apr-util/buckets/apr_brigade.c:488-607 | The same for all the pieces of a vector, in order, on every one of its paths; a flush that fails leaves the pieces written so far, and nothing else makes it fail |
| Brigades.Apr.SplitIn | Extern/log4cxx-0.10.0/apr-util/buckets/apr_brigade.c:157-178 | A split inside a brigade: the new bucket comes right behind, and the brigade holds what it held |
| Brigades.Apr.Read | Extern/log4cxx-0.10.0/apr-util/buckets/apr_buckets_pipe.c:19-76 | A read changes no content and no metadata bucket: a stream turns into the bytes it yields and the rest of the stream, and what is left to read gets less; a bucket that is no stream is read at once and stays where it is |
| Brigades.Apr.Flatten | Extern/log4cxx-0.10.0/apr-util/buckets/apr_brigade.c:223-266 | The first bytes of the brigade as far as there is room, or all of them; the brigade holds what it held, although streams in it have changed, and buckets of other brigades are as before; it fails only if there is a stream |
| Brigades.Apr.Partition | Extern/log4cxx-0.10.0/apr-util/buckets/apr_brigade.c:104-188 | The brigade holds what it held; on success the buckets before the point hold exactly that many bytes and one bucket less holds fewer, on incomplete all of them hold fewer; the 64-bit counter never goes below zero, with buckets of unknown length as well; with no stream it succeeds if and only if there are enough bytes |
| Brigades.Apr.SplitLine | Extern/log4cxx-0.10.0/apr-util/buckets/apr_brigade.c:304-354 | What is in the two brigades together is conserved, in order, and so are their metadata buckets; on success what moved ends with its only line feed, or has none and the input is used up or enough has been moved; with no stream it succeeds, and takes buckets up to the first with a line feed or the first that makes enough bytes, and no more; buckets of third brigades are as before |
| Brigades.Apr.SplitEx | Extern/log4cxx-0.10.0/apr-util/buckets/apr_brigade.c:71-96 | The buckets from the point on move to the other brigade, whose own go; the two hold what the first did, metadata included, and buckets of third brigades are as before |
| Hashing.GapIsLeast | Extern/log4cxx-0.10.0/apr-util/crypto/apr_sha1.c:321-332 | The padding reaches 8 bytes before the end of a block with the least number of zeros |
| Hashing.CountsAdd | Extern/log4cxx-0.10.0/apr-util/crypto/apr_sha1.c:226-231 | Low word, carry and high bits: after the addition the two words count the bits of the longer message modulo 2^64 |
| Hashing.CountsBits | Extern/log4cxx-0.10.0/apr-util/crypto/apr_sha1.c:319-335 | The two counters together are the message length in bits modulo 2^64 |
| Hashing.AbsorbBlock | Extern/log4cxx-0.10.0/apr-util/crypto/apr_sha1.c:232-254 | A full buffer is compressed at the right place of the message |
| Hashing.PaddedExact | Extern/log4cxx-0.10.0/apr-util/crypto/apr_sha1.c:321-336 | A padded message is the message, a one bit, zeros and the eight last bytes, in whole blocks, and not a block more than it takes |
| Sha1Digest.OutputExact | Extern/log4cxx-0.10.0/apr-util/crypto/apr_sha1.c:338-344 | Each word of the digest is the big-endian value of its four bytes |
| Sha1Digest.LengthAtEnd | Extern/log4cxx-0.10.0/apr-util/crypto/apr_sha1.c:333-336 | The last eight bytes of a padded message are its length in bits modulo 2^64, highest first |
| Sha1Digest.ByteReverse | Extern/log4cxx-0.10.0/apr-util/crypto/apr_sha1.c:182-202 | Every word of the block has its bytes in the opposite order, as on a little-endian machine |
| Sha1Digest.LastWords | Extern/log4cxx-0.10.0/apr-util/crypto/apr_sha1.c:333-336 | Setting the last two words after the swap gives the words of the padded block |
| Sha1Digest.Sha1Context.constructor | Extern/log4cxx-0.10.0/apr-util/crypto/apr_sha1.c:206-216 | The context of the empty message |
| Sha1Digest.Sha1Context.Update | Extern/log4cxx-0.10.0/apr-util/crypto/apr_sha1.c:220-257 | The context of the message so far becomes that of the longer message, however full the buffer was: digest, waiting bytes, their number and both counters |
| Sha1Digest.Sha1Context.Final | Extern/log4cxx-0.10.0/apr-util/crypto/apr_sha1.c:313-345 | The hash of the message so far, padded as in section 5.1.1 of FIPS 180-4 |
| Sha1Digest.HashPieces | Extern/log4cxx-0.10.0/apr-util/crypto/apr_sha1.c:220-345 | However a message is cut up, the result is the hash of the whole |
| Md5Digest.Md5Context.constructor | Extern/log4cxx-0.10.0/apr-util/crypto/apr_md5.c:145-157 | The context of the empty message |
| Md5Digest.Md5Context.Update | Extern/log4cxx-0.10.0/apr-util/crypto/apr_md5.c:190-283 | The context of the message so far becomes that of the longer message, for every call on which the loop test is right |
| Md5Digest.Md5Context.Final | Extern/log4cxx-0.10.0/apr-util/crypto/apr_md5.c:288-317 | The hash of the message so far, padded as in sections 3.1 and 3.2 of RFC 1321 |
| Md5Digest.LoopTest | Extern/log4cxx-0.10.0/apr-util/crypto/apr_md5.c:213-219 | The 32-bit index of the block loop gives the right test if and only if the last index it comes to is at most 2^32 - 64 |
| Md5Digest.LoopOverruns | Extern/log4cxx-0.10.0/apr-util/crypto/apr_md5.c:213-219 | A call of 2^32 - 1 bytes after one byte for which it does not |
| Md5Digest.OutputExact | Extern/log4cxx-0.10.0/apr-util/crypto/apr_md5.c:443-456 | Each word of the digest is the little-endian value of its four bytes |
| Md5Digest.LengthAtEnd | Extern/log4cxx-0.10.0/apr-util/crypto/apr_md5.c:294-308 | The last eight bytes of a padded message are its length in bits modulo 2^64, lowest first |
| Md5Digest.DecodeEncode | Extern/log4cxx-0.10.0/apr-util/crypto/apr_md5.c:443-471 | Decoding undoes encoding, for any 32-bit words |
| Md5Digest.Encode | Extern/log4cxx-0.10.0/apr-util/crypto/apr_md5.c:443-456 | The bytes of the words, lowest first |
| Md5Digest.Decode | Extern/log4cxx-0.10.0/apr-util/crypto/apr_md5.c:461-471 | The words that the bytes spell out |
| Md5Digest.HashPieces | Extern/log4cxx-0.10.0/apr-util/crypto/apr_md5.c:190-317 | However a message is cut up into calls of at most 2^32 - 64 bytes, the result is the hash of the whole |

## Left out

- In `EpollPort` the tree of a port is a map, and its queues are sequences.  `PortLinks` proves that each operation on the pointer
  structures does to this map and these sequences what `EpollPort` does; the two are not put together into one object.
- Windows calls, error codes, completion-list memory, timeouts and the mapping of a socket to its base socket: parameters, or absent.
- What the system does with requests after their completion port is closed: those it has at that moment are taken to be lost; what
  is submitted later may or may not complete.  The unlocked read of the port's handle in `port__poll` is not modelled.
- In the reflock model the use of a port is one step, which ends; blocking inside `port_wait` is not modelled there.
- The addresses of deleted ports: the reflock model never gives a new port the address of an old one.  Handles are used again.
- WireClient.Client.ForceLog: says nothing about a call that does not return or that reads outside its buffer, as C++ gives the latter no
  meaning; the same holds for the loop, the loader and the readers of class descriptors that it is made of.
- WireSender.SenderRoundTrip: asks for strings of at most 65535 bytes, for `LongStringCut` says what becomes of others, and for a context of
  fewer than 2^31 entries.  The numbers of handles are those of log4cxx; the reader does not look at them.  The contexts that it
  reads are not handed on.
- The msgpack loader is any parser that can be called again; its sources are not part of this model.
- The loaders' overloads that read from a socket, which repeat the buffer decoder over blocking reads.
- Decoding of UTF-8, names of levels, taking a location string apart, loggers and appenders: strings stay bytes and levels stay numbers.
- Allocation failures in the C++ containers.
- Memory that a caller passes in for a transient bucket is taken as a value that does not change while the bucket lives.
- File, memory-mapped, pipe and socket buckets only as streams that yield some bytes, end, or have nothing for now; other errors
  of a read are not told apart from the last.
- A flush function either hands everything over or, if it is one that fails, changes nothing.
- Sha1Digest.ByteReverse: a little-endian machine; on a big-endian one the words are not swapped.
- The SHA-1 and MD5 compression functions, character set translation, and the password format built on MD5.
- `apr_brigade_length`, `pflatten`, `to_iovec`, the printf family and `insert_file`: small variations of what is here.
- Md5Digest.HashPieces: states the bound on a call as 2^32 - 64 bytes, because the exact bound of `LoopTest` depends on how many
  bytes are waiting; `Md5Digest.Md5Context.Update` asks for no more than the exact one.
- The servers, the Java and Python programs around the handlers, and the database, uuid and cipher parts of APR.
