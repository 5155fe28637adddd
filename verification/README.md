# Map-reduce over multicast groups: a verified model

A server keeps an index of clients and multicast groups, splits a data file among the clients of a
group, and lets an elected moderator of that group collect and merge the results. This project models
that system and proves what its parts keep.

- **The client index.** `RedBlackTree.dfy` is the tree as heap objects: nodes with `left`, `right`,
  `parent` and `red`, a black `nil` sentinel and a root sentinel. A ghost value (`RbShape.Shape`)
  mirrors the heap, with a key interval and a black height per node; all invariants are local
  predicates on that value. `RbShape.dfy`, `RbFix.dfy` and `RbEdit.dfy` prove rotations, both repair
  loops and both splices on it, `RbOrder.dfy` that the local predicates give a red-black search tree.
  `SnList.dfy` is the intrusive doubly linked list. `RegistryModel.dfy` says what joins and leaves do
  to the two-way index as values and what every run keeps; `ServerRegistry.dfy` does it on the real
  tree and proves that each method is the function. `Replication.dfy` is primary, channel and backup.
- **Split, work, merge.** `TaskSplit.dfy` cuts a text into chunks in 32-bit arithmetic,
  `TaskSum.dfy` sums numbers or primes per chunk, prints, parses and merges; the end result is an
  equation between the sequential sum and the merged one, and from it when the two agree.
  `Decimals.dfy` says in decimal notation what is read, printed and answered, and `Collection.dfy`
  takes the chunks all the way to the answer of the moderator object.
- **Failures.** `TaskMap.dfy` compacts the task map in place and resends a dead client's files,
  `Selection.dfy` is the moderator search and the heartbeat counter. `GroupRun.dfy` is the life of a
  group during a task as a relation between states and proves what any run of it does to the files;
  `GroupProtocol.dfy` is the group on the server, whose methods take exactly such steps, and
  `GroupLife.dfy` follows it from message to message. `ModeratorLists.dfy` threads the moderator's nodes
  through two linked lists, `Moderation.dfy` is the moderator with its walk over the pending list, its
  counters and its response, `ModeratorRun.dfy` counts what it goes through until its answer, and
  `Silence.dfy` is what happens when it hears nothing. `Supervision.dfy` puts moderator and server
  together; `SupervisionRun.dfy` says over whole runs whether the moderator waits for clients in the
  server's map.
- **Messages.** `Xdr.dfy` has the data representation of RFC 4506, `Messages.dfy` the thirteen
  messages, and `WireFormat.dfy` writes out the bytes of each of them.

`dafny verify dfyconfig.toml` checks everything.

Two conventions recur. A predicate such as `RBTree.Keeps` or `ServerGroup.Accounted` wraps another one
behind `Opened`, so that proofs which only carry the fact along do not look inside. A method that
changes the heap promises that the new ghost value is a named function of the old one; what that
function preserves is proved separately about values, and what it is, is said once more without it, with
the numbers of the program written out (`JoinIs`, `WhoIsEchoed`, `AtolReads`, the members of `WireFormat`).

## What turned out false, and when it does hold

- A join keeps the two sides of the index in agreement exactly when the client id is positive and the
  client is not a member yet (`JoinKeepsAgreement`); `RejoinBreaksAgreement` names a run that breaks it.
- In one join request a name that names no group is accepted all the same when an earlier one did, since
  the group pointer is not reset (`JoinAllAccepts`), and the client joins that earlier group again. A
  request keeps the two sides in agreement exactly when it joins no group, or different groups of which
  a client with a positive id is no member (`RequestKeepsAgreement`, `UnknownNameBreaksAgreement`).
- A client's share is `floor(capability * count / total)` exactly when the product stays below 2^32
  (`ShareIsProportional`, `WrappedShare`). The counts add up even when it wraps.
- Handling one dead client loses no file exactly when it held no more files than there are survivors;
  with several clients in one report the files of all but the last are lost, so the others must have
  held none (`OneDeathConserves`, `ManyDeathsConserve`). Over a whole run the files of a task are kept
  exactly when every resending fitted (`RunConserves`). `SecondDeathLosesFile` is the shortest run of single
  deaths that loses one, with any three clients; `DoubleReportLosesFile` reports two at once.
- The moderator never reports more than one client in a pass: the walk over its list goes on from the node
  it has just unlinked, whose link is gone (`Timeout`).
- An empty chunk ends the server, since a file of length zero cannot be mapped (`CreateTaskSets`). The split
  succeeds, and all clients answer, exactly when every share but the last is at least one line and they do
  not use up all lines (`EveryoneAnswers`).
- The sequential sum is the merged one plus what is read across the ends of chunks plus what saturation
  takes off, modulo 2^64 (`DistributedSum`). The two agree on clean chunks, and on no others as long as that
  excess is below 2^64 (`DistributedSumIsSequential`). `BlankLineChangesSum` is, for every k from ten on, a
  text of 2k lines: split for two equal clients it gives 10k - 5, and 10k in one piece.
- Numbers are not filtered for duplicates. When a client that has answered one of its chunks dies, all of them
  are done again; the moderator can count one chunk twice and close before another arrives (`CountTwice`). The
  merged sum survives that exactly when the two chunks read the same (`MergeWithRepeat`).
- Over any run, the moderator waits only for clients in the server's map, and so do the requests on their way to
  it, exactly when no client is reported dead that such a request names, and the last client is not reported
  with files to resend (`RunStaysInTouch`). `LateRequestRun` is a run with three clients in which a request
  arrives too late, and the moderator waits for a client that no map lists any more (`LateRequest`).
- A moderator that takes over lists every client in the map with one result, and still expects the original
  number. Once nobody is pending, its answer is out exactly when the clients listed and the files resent come to
  that number together with the duplicates and what was owed by clients given up since (`Succeed`). When there is
  none of the latter, as many files must have waited as clients had left the map; so after an earlier death no
  unforced answer goes out when a single file waits (`SuccessorAnswers`).
- A partial sum is read back exactly when it fits a signed 64-bit integer (`PrintReads`).
- An answer from outside the group, while a new moderator is sought, puts the group back to work without a
  moderator that is watched (`NewModerator`).
- `check_if_response_already_received` answers true when the response has *not* been received;
  the model follows the code.

## Model

| member | source | states |
|---|---|---|
| `RedBlackTree.RBTree.constructor` | src/rbt.c:17-39 | a new tree is a valid red-black tree without keys |
| `RedBlackTree.RBTree.LeftRotate` | src/rbt.c:51-73 | the pointer writes are the rotation of the mirrored shape |
| `RedBlackTree.RBTree.RightRotate` | src/rbt.c:86-108 | the same for the other side |
| `RbShape.Shape.RotatedLeftLinked` | src/rbt.c:51-73 | a rotation keeps links, parents and key order |
| `RbShape.Shape.RotatedRightLinked` | src/rbt.c:86-108 | the mirror image, proved through the mirrored tree |
| `RedBlackTree.RBTree.Descend` | src/rbt.c:125-135 | the walk ends at the one empty link whose key interval holds the new key |
| `RedBlackTree.RBTree.TreeInsertHelp` | src/rbt.c:118-144 | the node hangs as a leaf, and a red leaf leaves at most one red pair, at itself |
| `RbFix.InsertRoundRepairs` | src/rbt.c:192-226 | one round of the insertion loop moves the only red pair two levels up or removes it |
| `RedBlackTree.RBTree.RepairInsert` | src/rbt.c:192-227 | the loop ends with every invariant restored and the same nodes |
| `RedBlackTree.RBTree.RBTreeInsert` | src/rbt.c:160-230 | inserting a fresh key keeps order, colours, black heights and parent links, adds exactly that key and returns its node |
| `RedBlackTree.RBTree.TreeSuccessor` | src/rbt.c:241-260 | the node with the least greater key, or nil when there is none; it has no left child when the right subtree is not empty |
| `RedBlackTree.RBTree.RBFindNodeByID` | src/rbt.c:369-385 | finds the node iff the key is stored, visiting at most 2 log2(n+1) nodes |
| `RedBlackTree.RBTree.SpliceOut` | src/rbt.c:469-479 | the splice of the heap is the splice of the shape, and x is the child that moves up |
| `RbEdit.SplicedBlack` | src/rbt.c:469-500 | splicing out a black node leaves the tree short of one black node at x and nowhere else |
| `RbFix.DeleteRoundRepairs` | src/rbt.c:399-449 | each round of the deletion loop repairs the tree or climbs, also when case 1 has moved x down first |
| `RbFix.TopStaysBlack` | src/rbt.c:396-450 | the root captured before the rotations is black when the loop ends by case 4, so the last assignment changes nothing |
| `RbFix.FixUpEnds` | src/rbt.c:399-450 | when the loop ends, blackening x restores the invariants |
| `RedBlackTree.RBTree.RBDeleteFixUp` | src/rbt.c:395-452 | terminates with all invariants restored and the same nodes |
| `RbEdit.ReplacedLinked` | src/rbt.c:486-496 | the successor takes over z's place without breaking order or links |
| `RedBlackTree.RBTree.RBDelete` | src/rbt.c:463-504 | deleting any node of any valid tree keeps every invariant and removes exactly that node and its key; all other node objects stay |
| `RbOrder.ShapeIsRedBlackTree` | src/rbt.c:395-504 | the local invariants give a sorted tree with a black root, no red-red pair and equal black heights over exactly the stored keys |
| `RbOrder.LogarithmicHeight` | src/rbt.c:369-385 | 2^height <= (n+1)^2, from the black-height bound |
| `RbOrder.SearchIsLogarithmic` | src/rbt.c:369-385 | the nodes visited by a search stay below that height |
| `RedBlackTree.RBTree.Find` | src/rbt.c:369-385 | after any sequence of `Add` and `Remove`, a search answers like the plain map from keys to nodes |
| `RedBlackTree.RBTree.Add` | src/rbt.c:160-230 | insertion is the map update |
| `RedBlackTree.RBTree.Remove` | src/rbt.c:463-504 | deletion removes the key from the map |
| `SnList.List.InsertBefore` | src/sn_ll.c:214-254 | insertion before any member, at the head or at the tail refines the sequence |
| `SnList.List.InsertHead` | src/sn_ll.c:261-266 | the new element comes first |
| `SnList.List.InsertTail` | src/sn_ll.c:273-278 | the new element comes last |
| `SnList.List.Unlink` | src/sn_ll.c:121-152 | unlinking refines removal, and clears the element's own links |
| `SnList.List.RemoveHead` | src/sn_ll.c:159-170 | takes the first element |
| `SnList.List.RemoveTail` | src/sn_ll.c:193-204 | takes the last element |
| `SnList.List.Contains` | src/sn_ll.c:354-369 | true iff the element is in the list |
| `SnList.List.Count` | src/sn_ll.c:377-392 | the walk counts what `length` says |
| `SnList.List.TraversalsMirror` | src/sn_ll.c:121-254 | forward and backward traversal are finite and mutually reversed |
| `SnList.RemoveUndoesInsert` | src/sn_ll.c:121-254 | unlinking what was inserted gives the old list |
| `SnList.MoveToDone` | src/client_ll.c:193-207 | moving a node from pending to done conserves the union of both lists |
| `ServerTypes.Group.RemoveClient` | src/server_ll.c:603-646 | removes the client if listed and keeps the counter in step |
| `ServerTypes.GroupList.RemoveGroup` | src/server_ll.c:134-158 | takes the group with that name off the client's list, or reports its absence |
| `ServerRegistry.Server.Insert` | src/server.c:193-247 | group, tree and checkpoints change as `Enter` says, on the real tree |
| `ServerRegistry.Server.Remove` | src/server.c:255-304 | the same for `Leave`; true iff the client was listed |
| `ServerRegistry.Server.FindGroup` | src/server_ll.c:378-400 | the first group whose name agrees in two characters |
| `ServerRegistry.Server.Join` | src/server.c:468-504 | a join request serves the model and sends the model's checkpoint |
| `ServerRegistry.Server.JoinGroups` | src/server.c:438-511 | the loop over the names of one request does what `JoinAll` says, answers included, and sends the checkpoints of the joins the request stands for, stale pointer included |
| `ServerRegistry.Server.LeaveRequest` | src/server.c:376-426 | a leave request likewise; accepted iff listed |
| `ServerRegistry.Server.HandleCheckpoint` | src/server.c:318-365 | a checkpoint is applied as in the model; with a further standby it is sent on twice |
| `RegistryModel.JoinKeepsAgreement` | src/server.c:193-247 | a join keeps the agreement iff the id is positive and the client no member |
| `RegistryModel.StemsAgree` | src/server_ll.c:390 | two names name the same group iff they agree in their first two characters, shorter ones iff they are equal |
| `RegistryModel.JoinIs` | src/server.c:193-247 | what a join changes: the client comes first in the group, counter and capability modulo 2^32, and the group first in the list of the client; everything else stays |
| `RegistryModel.LeaveIs` | src/server.c:255-304 | what a leave of a listed client changes; its node goes with its last group; everything else stays |
| `RegistryModel.LeaveOfNobody` | src/server.c:255-304 | any other leave changes nothing |
| `RegistryModel.LeaveAgrees` | src/server.c:255-304 | any leave keeps the agreement |
| `RegistryModel.RunAgrees` | src/server.c:193-304 | on every run of joins by non-members and leaves: two-way membership, counts, capability sums |
| `RegistryModel.FreshRunAgrees` | src/server.c:193-304 | the same from the empty registry |
| `RegistryModel.LeaveFitsMembership` | src/server.c:255-304 | a leave succeeds iff the client was a member, and a tree node exists iff its client has a group |
| `RegistryModel.LeaveUndoesJoin` | src/server.c:193-304 | leaving undoes joining, capability and node included |
| `RegistryModel.JoinAllAccepts` | src/server.c:468-504 | a name is accepted iff it, or one before it in the same request, names a group |
| `RegistryModel.JoinAllFirst` | src/server.c:468-504 | name by name: a known one joins its group, an unknown one the group of the last known one, and none without such |
| `RegistryModel.JoinAllIsRun` | src/server.c:468-504 | when every name is known, the request is the run of its joins |
| `RegistryModel.JoinAllIsResolvedRun` | src/server.c:468-504 | a request with any names is the run of the joins it stands for, each with the name of the group it goes to |
| `RegistryModel.RequestKeepsAgreement` | src/server.c:468-504 | a whole request keeps the agreement iff it joins no group, or pairwise different groups that the client, with a positive id, is not in |
| `RegistryModel.UnknownNameBreaksAgreement` | src/server.c:476-485 | one known and one unknown name from a client of no group break it |
| `RegistryModel.RejoinBreaksAgreement` | src/server.c:202-227 | a member that joins again stays in the tree after it has left |
| `Replication.ServeIsReplayed` | src/server.c:240-244 | replaying the checkpoint of a request has the effect of the request |
| `Replication.MessageIsRun` | src/server.c:438-511 | a message, several names included, is the run of what it asks for and sends exactly the checkpoints of that run |
| `Replication.BackupFollows` | src/server.c:158-184 | on every run of requests with any number of names and deliveries, the backup stands where the primary stood after some joins and leaves, and what is in flight is the rest |
| `Replication.BackupConsistent` | src/server.c:318-365 | the backup equals a former state of the primary, and the present one when nothing is in flight |
| `TaskSplit.CreateTaskSets` | src/server.c:1105-1198 | the 32-bit loop, structured or scanning, cuts exactly the chunks of the specification; there is no split iff one of them is empty |
| `TaskSplit.ScanLines` | src/server.c:1166-1173 | the scan finds the end of the next k lines |
| `TaskSplit.StructuredLineEnd` | src/server.c:1174-1176 | when every line is 11 bytes, 11 k bytes are k lines |
| `TaskSplit.NewlinesMore` | src/server.c:1166-1173 | only the character 10 counts as a newline |
| `TaskSplit.CutIsWhole` | src/server.c:1136-1195 | chunks are whole lines, as many as counted, and concatenate to the text up to its last newline |
| `TaskSplit.SplitIsFair` | src/server.c:1157-1161 | counts are never negative and add up; all but the last are shares, the last gets fewer extra lines than there are clients |
| `TaskSplit.ShareIsProportional` | src/server.c:1158 | the 32-bit share is the proportional one iff the product does not wrap |
| `TaskSplit.WrappedShare` | src/server.c:1158 | a product that wraps, with a wrong share |
| `TaskSplit.TaskSetsPartition` | src/server.c:1105-1198 | both together, and when each client's chunk is empty, the last one's included |
| `TaskSum.IsPrime` | src/client.c:1838-1854 | true iff the number is prime |
| `TaskSum.SmallDivisor` | src/client.c:1842-1852 | a composite number has a divisor up to its integer root |
| `TaskSum.FindSum` | src/client.c:1970-2032 | the sum of the lines modulo 2^64, printed; no answer for an empty file. What it is in decimal notation says `Decimals.SumLines` |
| `TaskSum.FindPrimeSum` | src/client.c:2040-2102 | the same for the prime lines |
| `TaskSum.MergeLong` | src/client.c:1570-1579 | the printed sum of the parsed answers modulo 2^64 |
| `TaskSum.PrintReads` | src/client.c:1573-1578 | a printed number is parsed back iff it fits a signed long |
| `TaskSum.AtolInLine` | src/client.c:2019 | parsing never reads beyond a line that is not blank |
| `TaskSum.SumJoin` | src/client.c:2011-2026 | what follows a text is read once for each blank line the text ends in, and nowhere else |
| `TaskSum.MergeOfPermutation` | src/client.c:1571-1575 | the merge does not depend on the order of arrival |
| `TaskSum.EveryoneAnswers` | src/server.c:1157-1184 | the split succeeds, and every client has an answer, iff no chunk is empty, in terms of capabilities and number of lines |
| `TaskSum.DistributedSum` | src/client.c:1570-1579 | for any text, capabilities and order of the answers: sequential sum = merged sum + overrun + saturation, modulo 2^64; so they agree iff the excess is a multiple of 2^64 |
| `TaskSum.NothingOff` | src/client.c:1970-2102 | the excess is zero iff no chunk ends in a blank line before a number that counts and is not zero, and every partial sum fits a signed long |
| `TaskSum.DistributedSumIsSequential` | src/client.c:1570-1579 | so the merged answer is the sequential one on clean chunks, and on no others when the excess stays below 2^64 |
| `TaskSum.LastMayEndBlank` | src/client.c:2011-2026 | no number is read across the end of a chunk when none but the last ends in a blank line |
| `TaskSum.BlankLineChangesSum` | src/client.c:2016-2021 | n fives, a blank line and k fives: 5(n + k) + 5 in one piece, 5(n + k) when cut behind the blank line; with n + 1 = k >= 10 lines in either half this is how the split cuts for two equal clients |
| `Decimals.AtolReads` | src/client.c:2019 | digits behind white space and a sign read as the sum of each digit times its power of 10, negated behind a minus, saturated at 2^63 - 1 and -2^63, whatever follows that is no digit |
| `Decimals.AtolReadsNothing` | src/client.c:2019 | without a digit in that place the number is zero |
| `Decimals.PrintIsPositional` | src/client.c:2027 | what is printed has that positional value, digits only and no leading zero |
| `Decimals.LineInFront` | src/client.c:2011-2026 | a line that is not blank adds the number at its start, if it counts, to the sum of what follows |
| `Decimals.BlankInFront` | src/client.c:2011-2026 | a blank line adds the number at the start of what follows it |
| `Decimals.TailIsNotRead` | src/client.c:2008-2026 | what is behind the last newline adds nothing |
| `Decimals.AnswerOfLines` | src/client.c:1970-2102 | on a file of digit lines the answer is the decimal notation of the sum of the lines that count, modulo 2^64 |
| `Decimals.SumLines` | src/client.c:1970-2102 | find_sum and find_prime_sum do that |
| `Decimals.MergeOfLines` | src/client.c:1570-1579 | the merge of such answers is the decimal notation of their sum, modulo 2^64 |
| `Decimals.MergeLines` | src/client.c:1570-1579 | the merging loop does that |
| `Decimals.SevenAndEight` | src/client.c:2019-2028 | 7 and 8 on two lines answer 15 |
| `TaskMap.Mark` | src/server.c:573-584 | exactly the dead entries are marked although the loop may stop early |
| `TaskMap.SurvivorsAre` | src/server.c:573-584 | an entry survives, as often as it was there, iff its client is not dead |
| `TaskMap.Compact` | src/server.c:586-602 | the two-index loop stays in bounds, ends, and leaves the entries in use in front |
| `TaskMap.MarkDeadClients` | src/server.c:569-606 | the first entries are a permutation of the survivors with their files, unmoved when the dead ones came last; the rest have id zero |
| `TaskMap.Retransmit` | src/server.c:616-697 | the request carries the dead client's files in order, all for the same client, and entry i gets file i |
| `TaskMap.NextClient` | src/server.c:645-657 | the do-while ends at the first entry that is not the moderator, or at the only one |
| `TaskMap.ChosenIsAnother` | src/server.c:645-657 | the chosen client is the first in the map that is not the moderator, or the moderator when it is alone |
| `TaskMap.FilesAt` | src/server.c:616-697 | the files of the map are those of all its entries, one by one |
| `TaskMap.OneDeathConserves` | src/server.c:733-783 | the live entries keep the multiset of files iff the dead client held no more than there are survivors; the files go to a survivor, to the moderator only if it is alone, and to id zero if nobody is left |
| `TaskMap.ManyDeathsConserve` | src/server.c:767-776 | with several reported clients, iff in addition the others held none |
| `Selection.SendEchoes` | src/server.c:1893-1934 | one attempt echoes the free ones among the next three clients |
| `Selection.FreeIdsAt` | src/server.c:1917-1929 | the echoes go to the free clients in the order of the list |
| `Selection.WhoIsEchoed` | src/server.c:1893-1934 | a client gets an echo iff it is free and one of the three from the cursor on |
| `Selection.WhereNext` | src/server.c:1893-1955 | the cursor moves on by three clients, or to the start with one pass less |
| `Selection.SilentSelection` | src/server.c:1893-1955 | from any cursor: number of attempts, and each free client once per remaining pass |
| `Selection.SixthSilentTickFires` | src/server.c:856-860 | re-selection starts exactly on the sixth consecutive tick without an echo |
| `GroupProtocol.ServerGroup.ModeratorSelection` | src/server.c:1893-1955 | one attempt is one step of the cursor; at index zero the group returns to its initial state |
| `GroupProtocol.ServerGroup.AssignTask` | src/server.c:1966-2031 | refused iff a moderator is set or there are no clients, else the first attempt from the head; also when the cursor is null during a selection, which then starts again |
| `GroupProtocol.ServerGroup.NobodyAnswers` | src/server.c:1893-2031 | a task that nobody answers: 2*ceil(n/3) attempts, every free client echoed once in each of two passes, then the group is given up |
| `GroupProtocol.ServerGroup.ModeratorFound` | src/server.c:1780-1841 | the answering client becomes the moderator, its flag is busy and every other member unchanged; an unknown one changes nothing but the passes left |
| `GroupProtocol.ServerGroup.StartTask` | src/server.c:1274-1365 | the map holds one file for each client that answered, and as many responses are expected; a file without lines changes nothing |
| `GroupProtocol.ServerGroup.EchoRequest` | src/server.c:709-792 | only the moderator's echo counts; it restores the heartbeat, and a report takes the clients out of the map and hands on the files of the last one; every write stays inside the map |
| `GroupProtocol.ServerGroup.ResponseTick` | src/server.c:856-939 | during a task, re-selection starts when the counter has run out, which is exactly on the sixth tick in a row without an echo from the moderator unless the counter had already run out before the task started; its file then waits in the buffer, the map holds the survivors and the next attempt goes out |
| `GroupProtocol.ServerGroup.ResponseTickBeforeTask` | src/server.c:856-874 | the same timeout in the state before the task: re-selection on the sixth silent tick, with the echoes, the cursor and the state it leaves |
| `GroupProtocol.ServerGroup.SelectionTimeout` | src/server.c:837-855 | the next attempt of the selection, from the cursor the last one left |
| `GroupProtocol.ServerGroup.NewModerator` | src/server.c:959-1038 | any group member that answers takes over, busy from now on, every other member unchanged, and the waiting files go out, entry i taking file i; an answer from outside leaves the group without a watched moderator |
| `GroupProtocol.ServerGroup.Fsm` | src/server_fsm.c:118-141 | which event has which effect in which state, as an equation for the new state; every other pair changes nothing; all states stay valid |
| `GroupProtocol.ServerGroup.Receive` | src/server.c:1620-1676 | a task response from a member frees the moderator's place in every state before the state machine sees it; one from elsewhere changes nothing; which member's flag each message changes |
| `GroupProtocol.ServerGroup.Unseat` | src/server.c:1653-1668 | the moderator is free again, or the sender when there is none; every other member is unchanged, and no moderator is set |
| `GroupProtocol.EchoesGoToFree` | src/server.c:1893-1934 | in a group, a busy client gets no echo, and a free one among the next three gets one |
| `GroupLife.Elect` | src/server.c:1780-1841 | from the assignment of a task to the election of any member that answers |
| `GroupLife.OneTask` | src/server_fsm.c:118-141 | a task from assignment to response: the four states in order, and afterwards the moderator is free, everybody else as before |
| `GroupLife.NextTask` | src/server.c:1966-2031 | so the next task echoes it again when it is one of the first three |
| `GroupLife.FallsSilent` | src/server.c:856-874 | a moderator that falls silent is given up on the sixth tick, and the attempt this starts does not echo it |
| `GroupLife.Hears` | src/server_fsm.c:118-141 | during a task an echo of the moderator restores the counter of five, and its report is handled |
| `GroupLife.Succeeds` | src/server.c:959-1038 | while a moderator is sought, any member that answers becomes the moderator, busy and with a full counter, and the waiting files go out |
| `GroupProtocol.ServerGroup.Advance` | src/server_fsm.c:118-141 | every message or timeout is a step of the relation below; between two states of a task no file is made up, and none is lost iff the resent ones fit |
| `GroupRun.StepConserves` | src/server.c:709-1038 | the same for the relation: reports, moderator deaths, take-overs and stray answers |
| `GroupRun.RunConserves` | src/server.c:709-1038 | on every run from the start of a task, however long: map and buffer together hold exactly the files the task started with iff every resending so far fitted |
| `GroupRun.SecondDeathLosesFile` | src/server.c:709-792 | with any three clients: the third dies, then the first, and a file is gone |
| `GroupRun.SecondDeathRun` | src/server.c:709-792 | there is such a run from every group with that moderator |
| `GroupRun.DoubleReportLosesFile` | src/server.c:767-776 | a report of two of three clients loses a file |
| `Supervision.Begin` | src/client.c:2166-2214 | when a task starts, the moderator waits for exactly the clients in the server's map, and no request is on its way |
| `Supervision.Supervise` | src/client.c:144-215 | one pass of the moderator and the server's handling of its report: at most one client, silent for six passes, leaves the pending list and the map; its files go to survivors, none is lost iff it held fewer than clients worked on the task, and the moderator still waits only for clients in the map |
| `Supervision.Redistribute` | src/client.c:2166-2214 | when the resent request arrives the moderator still waits only for clients in the map |
| `Supervision.ClientAnswers` | src/client.c:1410-1463 | an answer leaves the moderator waiting only for clients in the map, and if it was the last one, exactly one response has gone out |
| `Supervision.TakeOver` | src/server.c:959-1038 | a member takes over: it waits for exactly the clients in the server's map, which itself stays, it still expects as many responses as the task started with, and the waiting files go to clients in the map |
| `Supervision.Proceed` | src/client.c:144-215 | a pass with its report, an echo, an answer or a request that arrives is an episode of the relation below, on moderator and server together |
| `Supervision.LoseModerator` | src/server.c:856-939 | so is the loss of the moderator, once the counter of the server has run out |
| `SupervisionRun.EpisodeKeepsTouch` | src/client.c:144-215 | an episode keeps the moderator, and the requests on their way, to clients in the map iff it is on time |
| `SupervisionRun.RunStaysInTouch` | src/client.c:144-215 | the same over every run of passes, answers, requests, losses and successions |
| `Supervision.InTouchFollows` | src/server.c:748-758 | as long as the two are in touch, every client that a pass can report is in the map |
| `SupervisionRun.LateRequest` | src/client.c:2166-2214 | every run in which the client chosen for a resent file is reported before the request has arrived leaves the moderator waiting for a client in no map |
| `SupervisionRun.LateRequestRun` | src/client.c:2166-2214 | there is such a run for any three clients |
| `ModeratorLists.ClientLists.Find` | src/client_ll.c:16-44 | walks along the links to the first node with that id, or finds none |
| `ModeratorLists.ClientLists.Allocate` | src/client_ll.c:215-230 | a new node with a full counter comes first in the pending list |
| `ModeratorLists.ClientLists.Finish` | src/client_ll.c:193-207 | the node leaves the pending list and comes first in the done list |
| `ModeratorLists.ClientLists.Drop` | src/client.c:167-174 | the node leaves the pending list and loses its links |
| `Moderation.TaskRsp.constructor` | src/comm_primitives.c:562-578 | the first response fills place 0 of arrays of the expected size |
| `Moderation.TaskRsp.NotYetReceived` | src/client.c:1390-1400 | for files, true iff no recorded path ends in the same name behind its last '/'; numbers are never filtered |
| `Moderation.BaseIsName` | src/client.c:1392-1395 | the base name of a path is what stands behind its last '/', or the path itself |
| `Moderation.BaseOfRest` | src/client.c:1392-1395 | a slash at the end does not count; the empty path and the root have the base names of basename(3) |
| `Moderation.TaskRsp.Record` | src/comm_primitives.c:537-545 | appends inside the arrays and keeps base names distinct |
| `Moderation.Moderator.Adopt` | src/client.c:427-470 | a new moderator starts with every listed client owing one result |
| `Moderation.Moderator.PerformTask` | src/client.c:2166-2214 | every listed id adds exactly one result owed by that client per occurrence; exactly the listed clients become pending |
| `Moderation.Moderator.TaskResponse` | src/client.c:1410-1463 | keeps tasks assigned = results owed + recorded + discarded + owed by removed clients, distinct pending ids and counts of at least one; an expected response takes one off what that client owes and is recorded, or discarded as a duplicate; the answer goes out exactly when the expected count is reached, with exactly that many results and their merged sum; unexpected ones change nothing |
| `Moderation.Moderator.SendTaskResponse` | src/client.c:1520-1600 | sends iff forced or complete, at most once; what goes out has the kind, the results and the clients recorded, in that order, and their merged sum for numbers or an empty text for files |
| `Moderation.Moderator.ForceCleanup` | src/client.c:1146-1153 | sends the results and clients that have been recorded |
| `Moderation.Moderator.AnswersWhenNobodyPending` | src/client.c:1410-1463 | without deaths and duplicates the answer is out exactly when the pending list is empty |
| `Moderation.Moderator.EchoRequest` | src/client.c:951-971 | an echo restores the heartbeat of that pending client and of no other |
| `Moderation.Moderator.Walk` | src/client.c:156-187 | the walk along the links takes one beat from every other client and ends at the first one it unlinks, since that one has no next any more |
| `Moderation.Moderator.Timeout` | src/client.c:144-190 | so at most one client is dropped per pass, and only after six passes since it was last heard of |
| `Silence.SixPasses` | src/client.c:144-190 | a moderator that has just taken over and hears nothing: five passes give nobody up, the sixth gives up the last client of its list other than itself |
| `Moderation.Moderator.NotifyEcho` | src/client.c:911-939 | the list of live clients goes out with the echo of the last client |
| `Moderation.Moderator.Fsm` | src/moderator_fsm.c:62-80 | which echo handler runs in which moderator state, and what it does there |
| `ModeratorRun.TakeTurn` | src/client.c:1410-1463 | whatever reaches a moderator at work is exactly one counted turn of its kind, and tasks, duplicates and removed results change by what the turn says |
| `ModeratorRun.NothingGetsLost` | src/client.c:1410-1463 | on every run of turns: owed + recorded changes only by duplicates, clients given up and resent files, and the answer is out iff the expected number is recorded |
| `ModeratorRun.AnswerGoesOut` | src/client.c:1410-1463 | once nothing is owed, the answer is out iff what the run started with and gained comes to the expected number; short of that it is never out |
| `ModeratorRun.SuccessorAnswers` | src/client.c:427-470 | a moderator that took over answers, when all results come in once, iff as many files waited as clients had left the map |
| `ModeratorRun.Drive` | src/client.c:1410-1463 | any sequence of answers, echoes, passes and requests on the moderator object is such a run: turn k is of the kind of input k, and the counters of the object have changed by what the turns come to |
| `ModeratorRun.Succeed` | src/client.c:427-470 | from `Adopt` on, over any such sequence: owed + recorded = clients listed + files resent - duplicates - removed, counted on the object; with nobody pending, the answer is out iff this is the expected number |
| `Collection.JobsAnswer` | src/client.c:1970-2102 | when no chunk is empty, the answers of all clients are those of the chunks, in whatever order they arrive |
| `Collection.WorkAll` | src/client.c:1970-2102 | the answer of every client is the printed sum of its chunk |
| `Collection.Gather` | src/client.c:1410-1463 | one answer per chunk from the client that owes it, in any order: the moderator sends once, numbers, with all results and all senders in that order and their merged sum |
| `Collection.CollectSum` | src/client.c:1520-1600 | split, work and collection together: the response carries the merged sum, which differs from the sequential sum by exactly the excess, and not at all on clean chunks |
| `Collection.MergeWithRepeat` | src/client.c:1390-1400 | when one chunk is counted in place of another, the merged sum is the same iff the two partial sums read the same |
| `Collection.CountTwice` | src/client.c:1410-1463 | how that comes about: one of two answers in, the client given up iff it had no heartbeat left, both chunks done again by the moderator, and the response goes out with the first chunk twice and one missing |
| `Xdr.RoundTrip` | src/comm_primitives.c:262-526 | decoding an encoded value followed by anything gives the value and the rest, for every layout |
| `Xdr.PaddingIsSkipped` | src/comm_primitives.c:336-347 | the bytes that fill a string up to a multiple of four may be any |
| `Xdr.AcceptedFits` | src/comm_primitives.c:262-526 | whatever the bytes, an accepted value is within the limits of its layout and the rest is the end of the bytes |
| `Xdr.EncodedSize` | src/comm_primitives.c:204-207 | the encoded length is the sum of the parts and a multiple of 4 |
| `Messages.BodyFits` | src/comm_primitives.c:262-502 | every message within the declared limits fits its layout |
| `Messages.MessageRoundTrip` | src/comm_primitives.c:504-526 | each of the thirteen messages is read back with whatever follows it, although counts and discriminant are written twice; the bytes are those of `WireFormat` |
| `WireFormat.JoinReqBytes` | src/comm_primitives.c:348-358 | byte by byte: 32, 32, the number of groups, their names, the capability |
| `WireFormat.JoinRspBytes` | src/comm_primitives.c:423-435 | byte by byte: 33, 33, the number of addresses, the addresses |
| `WireFormat.EchoReqBytes` | src/comm_primitives.c:310-322 | byte by byte: 36, 36, the group, the number of clients, their ids |
| `WireFormat.EchoRspBytes` | src/comm_primitives.c:324-334 | byte by byte: 37, 37, the status, the group |
| `WireFormat.LeaveReqBytes` | src/comm_primitives.c:360-369 | byte by byte: 38, 38, the number of groups, their names |
| `WireFormat.LeaveRspBytes` | src/comm_primitives.c:372-391 | byte by byte: 39, 39, the number of groups, their names, the cause |
| `WireFormat.ModeratorNotifyReqBytes` | src/comm_primitives.c:280-292 | byte by byte: 40, 40, the moderator, its port, the number of clients, the group |
| `WireFormat.ModeratorNotifyRspBytes` | src/comm_primitives.c:294-308 | byte by byte: 41, 41, the group, the moderator, the number of clients, their ids |
| `WireFormat.PerformTaskReqBytes` | src/comm_primitives.c:437-458 | byte by byte: 42, 42, the files, the number of clients, the task, the group, the folder, the ids, the type and whether it is a resend |
| `WireFormat.TaskRspBytes` | src/comm_primitives.c:475-494 | byte by byte: 43, 43, the group, the final response, the task, the kind, the number of clients, their ids, the results |
| `WireFormat.ModeratorUpdateReqBytes` | src/comm_primitives.c:262-278 | byte by byte: 44, 44, the moderator, its port, the number of clients, the group, their ids, the expected responses |
| `WireFormat.CheckpointReqBytes` | src/comm_primitives.c:411-421 | byte by byte: 45, 45, the type, the capability, the addresses |
| `WireFormat.NewServerNotifyBytes` | src/comm_primitives.c:496-502 | byte by byte: 46, 46, the server |
| `Messages.EncodingIsPrefixFree` | src/comm_primitives.c:504-526 | no encoded message is the beginning of another one |
| `Messages.SecondDiscriminantCounts` | src/comm_primitives.c:522-523 | of the two discriminants only the second decides |
| `Messages.RepeatedCountIsIgnored` | src/comm_primitives.c:262-502 | in each of the nine messages that repeat a length, any number in its place decodes to the same message |
| `Messages.LeadingCountIsIgnored` | src/comm_primitives.c:348-435 | in the four messages that start with a count it has no effect on what is read, whatever the bytes behind it |
| `Messages.MessageSize` | src/comm_primitives.c:192-216 | the length is the size sum, a multiple of 4, and never more than the message buffer |

## Left out

- RedBlackTree.RBTree.RBTreeInsert: only fresh keys, which is all the registry inserts; keys are unsigned 32-bit. Freeing of deleted nodes is not modelled.
- RedBlackTree.RBTree.Descend: only fresh keys, as above; the code files an equal key to the right.
- RedBlackTree.RBTree.TreeInsertHelp: only fresh keys, as above.
- RedBlackTree.RBTree.Add: only fresh keys, as above.
- RegistryModel.RunAgrees: re-joins are excluded from the runs; the client refuses them (src/client.c:785), `RejoinBreaksAgreement` shows what would happen, and `RequestKeepsAgreement` is exact. Group names are distinct in their first two characters.
- ServerRegistry.Server.JoinGroups: fewer than 256 names in one request, the range of its byte counter.
- ServerTypes.Group.RemoveClient: client lists of groups are sequences here, and the list head is not freed with the last client; the member counter is unbounded.
- TaskSplit.CreateTaskSets: files below 2^31 bytes and a total capability that is positive and below 2^32, as the program's `int` and `unsigned int` need; a total of zero divides by zero.
- TaskSum.DistributedSumIsSequential: on chunks that are not clean it is exact only below an excess of 2^64; `DistributedSum` is exact everywhere. Progress printing is left out; it divides by task_count/10, so a client with fewer than ten lines fails there (src/client.c:2008-2026), and the square root is the integer root.
- GroupProtocol.ServerGroup.ResponseTick: a moderator that dies is in the map and holds one file; with several the code reads behind a single id (src/server.c:925), and outside the map it reads behind the entries in use (src/server.c:899-907).
- GroupProtocol.ServerGroup.ResponseTickBeforeTask: the code leaves the state as it is, so the selection timeout that follows runs into an assertion (src/server.c:845); no timer is armed in this state before that.
- GroupProtocol.ServerGroup.AssignTask: not while a watched task runs without a moderator set, where the code would accept a second task over the first (src/server.c:1934).
- GroupProtocol.ServerGroup.StartTask: fewer clients than lines; with more the map is allocated too small (src/server.c:1224-1246). One file name per client is an input, and the clients a moderator reports are distinct.
- GroupProtocol.ServerGroup.EchoRequest: the reported clients are in the map; for others the code reads behind the entries in use (src/server.c:748-758). The group has a moderator or a cursor when an echo comes, and its capability is not reduced here.
- Supervision.Redistribute: fewer than 256 results owed by one client, as in `PerformTask`.
- Moderation.Moderator.PerformTask: fewer than 256 results owed by one client and fewer than 256 clients of a new task, the ranges of the byte counters, and the first request of a moderation comes before any response.
- ModeratorRun.Drive: no client comes to owe more than 255 results, as in `PerformTask`; requests bring resent files only.
- Supervision.Proceed: a pass only while the moderator waits for clients in the map; otherwise the report makes the server read behind the entries in use (src/server.c:748-758). A request arrives in the order it was sent.
- Collection.CollectSum: no client dies on the way and every answer is that of its chunk.
- Moderation.TaskRsp.NotYetReceived: paths that end in a slash are compared without it; that `basename` also cuts it off in place is not modelled.
- Moderation.TaskRsp.constructor: between 1 and 255 expected responses; the array size is a byte.
- Messages.LeadingCountIsIgnored: arbitrary bytes are covered in the four messages that start with the count; in the other five `RepeatedCountIsIgnored` covers encoded messages.
- Messages.MessageRoundTrip: strings have no zero byte, as C strings, and the two arrays of a task request or response have the same length, since one counter serves both.
- Threads, timers and signals: a timer tick is one step, masked sections are atomic, the channel to the backup is ordered and loses nothing.
- Sockets, multicast, files, logging, command line and display functions; messages and file contents are inputs.
- Finding primes into a result file (src/client.c:1863-1962) and fetching result files.
- The best-fit choice of a group (src/server_ll.c:349), and joins and leaves while a task runs.
- That the map entry which receives a resent file belongs to the client the request names (src/server.c:645-673): entry i receives file i whoever was chosen.
- The vendored tools under utility.
