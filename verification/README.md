# CZMQ in Dafny

Models of the parts of CZMQ whose correctness is not visible in one function, and proofs about them.

- **Actors** (`Messages`, `Actor`, `ActorInvariant`, `ActorCalls`, `ActorWait`, `ActorDestroy`,
  `ActorRelease`, `ActorWitness`, `Listeners`, `Actors`). The calling thread and the actor thread of a `zactor_t` are an interleaving state
  machine; a step is one library call. The actor function is any sequential program over its pipe end, and
  the two directions of the pipe have any high-water marks. The introduction of the class says that
  "the constructor and destructor are always synchronized". Proved is exactly when they are, exactly
  when they return at all, and exactly when nothing is left, over every run and every interleaving; and what the
  caller gets from each call it makes. Then the conditions are worked out for the actors the repository prints.
- **Gossip** (`Gossip`, `GossipServer`, `GossipConsistency`, `GossipExpiry`, `GossipTermination`,
  `GossipLivelock`, `GossipPair`, `GossipForgotten`, `GossipRivals`, `GossipDelivery`). Any network of `zgossip` nodes, in which any messages are in
  flight and a server may forget a silent client at any time. In every run, once no message is in flight, nodes
  joined by connections whose servers never forgot their clients agree. If each key is published with one value,
  every order of events gets there. With two values it may not: publishing a key twice, publishing it at two
  nodes, or joining two networks that disagree on it lets some order of delivery exchange the two values for
  ever, and it is proved exactly when. On a pair of nodes no order of delivery comes to rest.
- **randof** (`Floats`, `Randof`, `RandofValue`). Binary floating point with round-to-nearest-even over the reals,
  and from it that `randof (num)` is below `num`, for every `num` and every draw, and for exactly which values of
  `ZSYS_RANDOF_MAX`; and which number it gives, with a bound on the error.
- **Lists** (`Ordering`, `ListRing`, `ListX`). `zlistx` on the heap: a ring of nodes with a cursor, with
  insertion and removal as the same two swaps, sorted insertion from both ends, and the comb sort.
- **Ticket timers** (`Tickets`, `TicketScan`, `TicketStrays`, `TicketTimes`, `Reactor`). The list of tickets of `zloop`, of which
  only the head is looked at, while handlers create, reset and delete tickets under the scan.
- **Packed lists and dictionaries** (`Wire`, `Dictionary`, `Layout`). What `zlistx_pack` and `zhashx_pack` write is
  read back, and exactly when; which bytes they write where; and what is made of damaged frames.

`dafny verify dfyconfig.toml` checks everything.

## Where the code does not do what it promises

- *The destructor is always synchronized* (`src/zactor.c:19`). It is not if the handler sent a signal nobody
  waited for, or if the pipe to the actor was full (`ActorDestroy.DestroySynchronizedIff`,
  `ActorWitness.ForgottenWait`, `ActorWitness.FullCommandPipe`). It does not return if the exit signal was
  taken for the init signal, or was dropped because the pipe to the caller was full
  (`ActorDestroy.DestroyCompletesIff`, `ActorWitness.HastyNeverDestroyed`, `ActorWitness.FullReplyPipe`). Each
  end of a pipe is made with a sending limit, 1000 unless told otherwise (`src/zsys.c:98`, `src/zsys.c:636-637`).
- *All resources are destroyed when the destructor completes* (`src/zactor.c:19-22`). The shim and the actor's
  pipe end may still be there, even after a destroy that was synchronized (`ActorWitness.StillThereAfterDestroy`).
  They are sure to be gone if and only if the actor thread had ended before the call, or the call never returns
  (`ActorRelease.AllReleasedIff`, `ActorRelease.ReturnsAndReleasesIff`).
- *A node forwards to every remote and every client it talks to* (`README.md:3854-3858`). A server forgets a client
  that was silent for one second (`src/zgossip.c:187`, `src/zgossip_engine.inc:565-571`). Between two nodes that have
  only each other a new tuple arrives if and only if the server knows the client when it comes. A tuple published at
  a forgotten client is even lost there if the server has another value of the key (`GossipForgotten.ArrivesIffKnown`,
  `GossipExpiry.ForgottenClientMisses`, `GossipExpiry.ForgottenClientIsNotHeard`).
- *When a node gets a duplicate tuple, it throws it away* (`README.md:3854-3858`). Only a tuple equal to the
  stored one is a duplicate; two values of a key can chase each other for ever
  (`GossipLivelock.DoublePublicationStopsIff`, `GossipLivelock.JoinStopsIff`, `GossipRivals.RivalsStopIff`), and
  between two nodes they always do (`GossipPair.RivalsRestIff`).
- *randof provides 0..num-1* (`include/czmq_prelude.h:451-454`). Not for every limit above 2^25: half of the
  limits between 2^25 and 2^26 let a factor be 1.0 (`Randof.WorkingLimits`). The default limit is one of those
  that work.
- *zlistx_detach_cur detaches the item at the cursor, if any* (`include/zlistx.h:124-129`). With the cursor
  before the list it detaches the first item (`ListX.ListX.DetachCur`).
- *Lowering the ticket delay is undefined* (`include/zloop.h:117-120`). So is raising it, if an older ticket is
  reset afterwards (`Tickets.RaisedDelayBreaksOrder`, `Tickets.ResetKeepsOrderIff`). A ticket reset by its own
  handler is deleted all the same, and ends the scan early, which leaves something due if and only if another live
  ticket was due then (`TicketStrays.StrayLeavesDue`, `TicketStrays.LeavesNothingIff`).
- *Packed data must follow the format* (`include/zhashx.h:63-67`). The count is never used but for a comparison
  with zero, and a malformed dictionary is unpacked as far as it goes where a malformed list is refused
  (`Dictionary.StrayByte`); `Dictionary.UnpackedIff` says which frames are accepted, and as what.

The models follow the code in each case.

## Model

| member | source | states |
|---|---|---|
| Messages.SignalsAreExactlyTheSignalMessages | src/zmsg.c:798-821 | a message is taken for a signal if and only if it is one that zmsg_new_signal makes, and its status is read back |
| Messages.LoadStore | src/zmsg.c:798-804 | a stored number that fits is loaded again |
| Messages.StoreLoad | src/zmsg.c:810-821 | the bytes of a loaded number are the bytes it was loaded from, so no two messages carry one signal |
| Messages.SignalBytes | src/zmsg.c:798-804 | the eight bytes of a signal: the status, then 11 22 33 44 55 66 77, as a host that stores the low byte first sends them |
| Messages.CStringIs | src/zhashx.c:898-901 | a C string in a frame is exactly what comes before the first zero byte |
| ActorInvariant.InvReachable | src/zactor.c:63-75 | every reachable state of the two threads keeps the order of both pipe directions, the life of the four resources and the handler's determinacy |
| ActorInvariant.SignalConservation | src/zactor.c:68-71 | no signal is lost or made: received plus queued is emitted plus the exit signal, and the exit signal is queued behind all the handler sent |
| ActorInvariant.HandlerIsDeterminate | src/zactor.c:63-68 | what a handler sends is a prefix of what it would send alone with its commands, and all of it once it is over; no interleaving shows |
| ActorInvariant.NotOverUnlessItReturns | src/zactor.c:63-68 | a handler that does not return on the commands sent is still running |
| ActorInvariant.ConstructorHandshake | src/zactor.c:151-156 | zactor_new returns only after the handler has sent a signal or is over |
| ActorInvariant.StepChangesOnlyWhatItUses | src/zactor.c:63-184 | what a step does not use or make, of the two structures and two pipe ends, is after it as it was before, its contents and its releases included |
| ActorInvariant.OnlyTheOwnerUses | src/zactor.c:63-75 | in every run what a step uses, of the two structures and two pipe ends, is live and belongs to the thread that takes the step |
| ActorInvariant.ReleasedExactlyOnce | src/zactor.c:163-184 | every free and close of a run is logged: no resource occurs twice in the log, and each occurs once when both threads are through |
| ActorInvariant.NoUseAfterRelease | src/zactor.c:63-184 | in every run nothing that was freed or closed is used again |
| ActorInvariant.AfterDestroy | src/zactor.c:163-184 | after destroying is over a run has only steps of the actor thread and further destroys |
| ActorInvariant.SecondDestroyIsNoOp | src/zactor.c:163-184 | in every run, a further destroy put in anywhere after destroying is over leaves the final state as it was |
| ActorInvariant.ReleasedWhenDestroyed | src/zactor.c:63-75 | what the log holds once destroy has returned, for each place the actor thread can be in: the actor and its pipe end always, the other end and the shim as far as the thread has come, and once the handler is over nothing keeps it from going on |
| ActorCalls.CallsAccountForAll | src/zsock.c:1756-1768 | in every run, whenever the application is between two calls: the commands are those it sent, the destructor the one it set last, and zactor_new, its receives and its waits account for all that was received, in order |
| ActorCalls.DestroyAccountsForRest | src/zactor.c:163-184 | when destroy has returned, the terminator of the destructor set last was sent and destroy has read up to a signal, or it was not sent and destroy has read nothing |
| ActorCalls.WaitReceivesUpToSignal | src/zsock.c:1756-1768 | in every run, a wait that has returned has received messages that are not signals and then one signal, and nothing more |
| ActorCalls.RecvReceivesOne | src/zactor.c:203-207 | a receive receives one message |
| ActorCalls.CallsAreServed | src/zactor.c:108-184 | between two calls an application can begin to wait or destroy and set a destructor; receive if and only if something sent is unread; send if and only if the end of the actor is open and fewer commands than the limit are untaken |
| ActorWait.ParentDescends | src/zactor.c:108-184 | every step of the calling thread lowers the lexicographic measure of commands ahead, phases and messages ahead |
| ActorWait.ChildDescends | src/zactor.c:63-75 | every step of the actor thread lowers it too |
| ActorWait.WaitCompletesIff | src/zsock.c:1756-1768 | a wait returns in every interleaving if and only if a signal is unread or on its way, or the handler returns and its exit signal cannot find the pipe full |
| ActorWait.WaitSynchronizedIff | src/zsock.c:1756-1768 | a wait that returns returns after the handler, in every interleaving, if and only if the handler is over or sends no more signals |
| ActorWait.ConstructorCompletesIff | src/zactor.c:108-157 | zactor_new returns in every interleaving if and only if the handler, without commands, sends a signal, or returns with room for its exit signal |
| ActorDestroy.DestroySynchronizedIff | src/zactor.c:163-184 | destroy returns only after the handler, in every interleaving, if and only if the handler was over, or the pipe had room and the caller had received every signal the handler sends |
| ActorDestroy.DestroyCompletesIff | src/zactor.c:163-184 | destroy returns in every interleaving if and only if the child has closed, a signal is unread or on its way, the handler returns on the terminator with room for its exit signal, or the terminator cannot be sent |
| ActorDestroy.BalancedDestroy | src/zactor.c:98-103 | if the caller waited for every signal, the handler returns on the terminator and the pipe has room, destroy always returns and is synchronized, for a child running, gone, or between |
| ActorDestroy.BalancedDestroyDrains | src/zactor.c:98-103 | the signal that ends such a destroy is the exit signal, whose status is 0: the wait drops exactly what the caller had not read, and the pipe is empty |
| ActorDestroy.CommandsFitRun | src/zactor.c:98-103 | in every run the pipe holds no more commands than its high-water mark |
| ActorDestroy.ExitKeptRun | src/zactor.c:68-71 | in every run the exit signal is refused only by a full pipe or after the caller's end is closed |
| ActorRelease.AllReleasedIff | src/zactor.c:163-184 | destroy returns, in every interleaving, only with all four resources released, if and only if the actor thread had ended before the call, or the terminator is sent, the handler does not return on it and the caller has received every signal it sends, so that destroy never returns |
| ActorRelease.ReturnsAndReleasesIff | src/zactor.c:19-22 | destroy always returns and leaves nothing, in every interleaving, if and only if the actor thread had ended before the call |
| ActorWitness.ForgottenWait | README.md:11131-11181 | a run in which one WAIT nobody waited for lets destroy return before the template actor |
| ActorWitness.FullCommandPipe | src/zactor.c:98-103 | for every listener, a run in which a full pipe swallows the terminator and destroy does not wait |
| ActorWitness.FullReplyPipe | src/zactor.c:68-71 | a run in which the exit signal finds the pipe full and destroy waits for ever |
| ActorWitness.HastyNeverDestroyed | src/zactor.c:151-156 | a run in which zactor_new took the exit signal and destroy waits for ever |
| ActorWitness.StillThereAfterDestroy | src/zactor.c:19-22 | a run in which a balanced destroy returns with the shim and the pipe end of the actor still there |
| ActorWitness.WaitedFor | README.md:11131-11181 | a run in which the wait for one WAIT receives its reply, and the destroy that follows is synchronized |
| Listeners.ListenerEmits | src/zactor.c:263-290 | an actor function that signals and then listens sends the init signal and the replies up to the first stop, and returns if and only if there is a stop |
| Listeners.ListenerDestroy | src/zactor.c:252-256 | for every listener, terminator it stops on, other commands and pipe limits: destroy is synchronized if and only if the pipe has room and the caller received one signal plus one for each replied; it always returns if and only if a signal is unread, the unread replies leave room for the exit signal, or the terminator cannot be sent |
| Actors.EchoStream | src/zactor.c:263-290 | in every interleaving and for every pipe limit, an echo actor sent ECHOs and $TERM sends the init signal and the payloads in order, and nothing else before its exit signal |
| Actors.TermBytes | src/zactor.c:98-103 | the bytes of $TERM |
| Actors.EchoDestroy | src/zactor.c:263-290 | for every pipe limit, destroying it is synchronized if and only if the pipe has room and no unread echo is itself a signal, and always returns if and only if one is, the unread echoes leave room for the exit signal, or $TERM cannot be sent |
| Actors.EchoActor | src/zactor.c:263-290 | its loop answers the ECHO commands up to the first other one with their payloads, terminates on that if it says $TERM, fails the assertion if it says anything else, and blocks only when all is read; it frees every message unless it fails the assertion |
| Actors.TemplateSelf.HandlePipe | README.md:11131-11158 | one command of the template: VERBOSE, WAIT and $TERM do what they say, anything else fails the assertion |
| Actors.TemplateActor | README.md:11163-11181 | the template's main loop signals its start and each WAIT up to the first command that is neither VERBOSE nor WAIT, terminates on that if it says $TERM and fails the assertion if not |
| Actors.TemplateReplies | README.md:11131-11158 | one signal for each command that says WAIT and none for VERBOSE |
| Actors.TemplateDestroy | README.md:11163-11181 | for every pipe limit, destroying a template actor always returns, and is synchronized if and only if the pipe has room and the caller waited once for each WAIT |
| Actors.SilentDestroy | src/zactor.c:252-256 | for every listener that ignored its commands and every pipe limit, destroy always returns, and is synchronized if and only if the pipe has room for the terminator |
| Actors.KthxbaiReturnsIff | src/zactor.c:292-303 | KTHXBAI_actor sends its init signal and nothing else, and returns if and only if a frame of some message says $KTHXBAI |
| Actors.BsendReturnsIff | src/zactor.c:312-326 | BSEND_actor sends its init signal and nothing else, and returns if and only if a frame of some message is malformed or holds $TERM behind its length |
| Actors.DestructorBytes | src/zactor.c:305-335 | the bytes the two destructors send |
| Actors.KthxbaiDestroy | src/zactor.c:292-310 | for every pipe limit, the destructor that sends $KTHXBAI always returns, and is synchronized if and only if the pipe has room for it |
| Actors.BsendDestroy | src/zactor.c:312-335 | the same for the destructor that sends a binary-encoded $TERM |
| GossipServer.Server.Accept | src/zgossip.c:318-352 | the loops of server_accept store, deliver and forward exactly as the network model says, in any network |
| GossipDelivery.ApplicationsKeepUp | src/zgossip.c:318-352 | in every run, at every node and whatever was published: what was delivered, stored one after the other, is exactly what the node holds, and nothing was delivered that the deliveries before it had made so already |
| GossipConsistency.ExecKeepsInv | src/zgossip.c:318-352 | in every run, clients forgotten and greeted again included, for every connection and key what is in flight accounts for every difference between the two ends that a never forgotten client can have, and for all that a known client lacks |
| GossipConsistency.NeighboursAgree | README.md:3854-3858 | once nothing is in flight, the ends of a connection whose server never forgot its client hold the same tuples |
| GossipConsistency.QuiescentNetworkAgrees | README.md:3849-3858 | in every run, once nothing is in flight, the ends of a path of connections whose servers never forgot their clients hold the same tuples, whatever was published where |
| GossipConsistency.LinkedNodesAgree | README.md:3854-3858 | so do any two nodes for which there is such a path |
| GossipConsistency.KnownClientHasAll | src/zgossip.c:473-504 | once nothing is in flight, a client its server knows has every tuple of the server, whether or not it was forgotten before |
| GossipConsistency.NothingInvented | src/zgossip.c:318-352 | every tuple stored, delivered or in flight was published |
| GossipConsistency.NothingForgotten | README.md:3860 | a node that published a key has a value for it ever after |
| GossipConsistency.GossipConverges | README.md:3854-3858 | with one value published per key, every node of a quiescent network joined up by such connections holds exactly what was published |
| GossipExpiry.ForgottenClientMisses | src/zgossip_engine.inc:565-571 | a run in which a server forgets its client and gets a tuple: nothing is in flight, and the client does not have it |
| GossipExpiry.ForgottenClientIsNotHeard | src/zgossip.c:549-553 | a run in which a forgotten client publishes, is answered INVALID and says HELLO again: nothing is in flight, and the server does not have the tuple |
| GossipTermination.StepAgreed | src/zgossip.c:537-562 | on a network that agrees on a value per key every delivery and every expiry lowers the measure and keeps the agreement |
| GossipTermination.OwnRunDescends | src/zgossip.c:537-562 | so a run of deliveries and expiries is no longer than the measure |
| GossipTermination.SettlingTerminates | README.md:3854-3858 | a network whose messages agree handles at most as many more messages as its measure says, in whatever shape and order |
| GossipTermination.OneValueTerminates | README.md:3854-3858 | after every run in which each key was published with one value, the deliveries and expiries still possible are bounded, in whatever shape and order |
| GossipTermination.GossipSettles | README.md:3849-3860 | and where no delivery is possible any more, every node of a network joined up by connections whose servers never forgot their clients holds exactly what was published |
| GossipTermination.OnlyQuiescenceStops | src/zgossip.c:537-562 | as long as a message is in flight some node can handle one |
| GossipTermination.SafePublication | src/zgossip.c:318-352 | publishing a key that is nowhere in flight, or the value it settles on, keeps the network settling |
| GossipTermination.EachTupleDeliveredOnce | src/zgossip.c:337-338 | with one value per key, each node delivers each tuple once |
| GossipLivelock.ChaseNeverEnds | src/zgossip.c:318-352 | two values of a key that follow each other on a connection: there are orders of delivery of every length |
| GossipLivelock.DoublePublicationStopsIff | src/zgossip.c:318-352 | publishing a key twice in a row on a quiescent network: every order of delivery ends if and only if the values are equal or the node has no connection |
| GossipLivelock.CrossingNeverEnds | src/zgossip.c:318-352 | the same for two values that cross on a connection |
| GossipLivelock.ConflictNeverEnds | src/zgossip.c:473-504 | the same for the values of two nodes that disagree when one says HELLO |
| GossipLivelock.JoinStopsIff | src/zgossip.c:235-308 | a CONNECT on a quiescent network: every order of delivery ends if and only if the two nodes disagree on no key |
| GossipPair.RestlessNeverRests | src/zgossip.c:318-352 | two nodes with a connection of their own that are at odds over a key: no order of delivery brings them to rest |
| GossipPair.ChaseNeverRests | src/zgossip.c:318-352 | nor if one value follows the other between them |
| GossipPair.RivalsRestIff | src/zgossip.c:318-352 | the ends of such a pair publish a key each: no order of delivery comes to rest if the values differ, and every one ends if they are the same |
| GossipForgotten.ArrivesIffKnown | src/zgossip.c:318-352 | a tuple new to both ends of a connection that have no other comes to one of them, in any quiescent network: every order of delivery ends within a stated number of messages, and then the other end has the tuple if and only if the server knew the client; what the sender is left with and whether the client is known are stated too |
| GossipRivals.RivalsStopIff | src/zgossip.c:318-352 | two nodes of any quiescent network, joined by a path, publish a key each with a value new to them: every order of delivery ends if and only if the values are the same |
| Floats.RoundIsNearest | include/czmq_prelude.h:466-471 | rounding gives a number of that precision than which none is nearer |
| Floats.RoundMonotone | include/czmq_prelude.h:466-471 | rounding keeps order |
| Floats.RoundExact | include/czmq_prelude.h:466-471 | a number of that precision is rounded to itself |
| Floats.RoundTiesToEven | include/czmq_prelude.h:466-471 | of two numbers equally near, the even one |
| Randof.ProductStaysBelow | include/czmq_prelude.h:516 | a factor one unit below 1.0 keeps the rounded product below num, for every num |
| Randof.FactorBelowOne | include/czmq_prelude.h:508 | a factor is at most one unit below 1.0 if the largest draw and the limit differ as floats |
| Randof.LargeInRange | include/czmq_prelude.h:508-516 | then randof (num) is in 0..num-1 for every num and all draws |
| Randof.CollapsedCastsFail | include/czmq_prelude.h:508-516 | if they are the same float, randof (1) can be 1 |
| Randof.LargeInRangeIff | include/czmq_prelude.h:508-516 | randof is in range for every num and all draws if and only if the limit and the largest draw differ as floats |
| Randof.WorkingLimits | include/czmq_prelude.h:488-508 | which of the limits between 2^25 and 2^26 that is |
| Randof.DefaultInRange | include/czmq_prelude.h:491-516 | the default limit works for every num |
| Randof.NextDrawWouldFail | include/czmq_prelude.h:508 | it works because the modulus is one less than the limit: one draw more would be rounded to the limit |
| Randof.SmallInRange | include/czmq_prelude.h:517-525 | the three variants that add factors are in range for every limit up to 65535, every num and all draws |
| RandofValue.LargeIsNear | include/czmq_prelude.h:508-516 | for every limit, num and draws, the number is num times the share of the first draw over 1 plus a hundredth of the share of the second, in exact arithmetic, up to 24 parts in 2^24, rounded down |
| RandofValue.SmallIsNear | include/czmq_prelude.h:517-525 | for every limit up to 65535, num and draws, the number is num times the sum of two, four or six shares over 2 + f/2, 4 + 10 f or 6 + 100 f, up to 34 parts in 2^24, rounded down |
| RandofValue.PrecisionOfSteps | include/czmq_prelude.h:508-525 | casts, factors and products are the nearest numbers of 24 bits, the divisor the nearest of 53 |
| Ordering.SlotsKeepSorted | src/zlistx.c:540-570 | an item placed where either search stops keeps a sorted list sorted and adds nothing else |
| Ordering.SlotsAmongEquals | src/zlistx.c:540-570 | in a sorted list the search from the start stops exactly behind the items below, the search from the end exactly behind those not above |
| Ordering.InversionsSwap | src/zlistx.c:491-503 | swapping neighbours out of order leaves fewer inversions, which is why the sort ends |
| Ordering.NeighboursSorted | src/zlistx.c:480-506 | a pass without a swap at gap one means the list is sorted |
| Ordering.PassStep | src/zlistx.c:490-505 | one comparison of a pass keeps the multiset and, at gap one, lowers the inversions with each swap |
| ListRing.Relink | src/zlistx.c:77-86 | node and prev swap their next, node and next their prev, even where these are one node |
| ListRing.Attach | src/zlistx.c:71-86 | the two swaps insert a node that points to itself |
| ListRing.Release | src/zlistx.c:71-86 | the same two swaps remove a node and leave it pointing to itself |
| ListRing.SearchUp | src/zlistx.c:550-556 | the search from the start stops before the first item not below |
| ListRing.SearchDown | src/zlistx.c:560-566 | the search from the end stops after the last item not above |
| ListX.ListX.constructor | src/zlistx.c:107-121 | a new list is an empty ring |
| ListX.ListX.AddStart | src/zlistx.c:143-164 | the item goes before the others, the cursor to the head |
| ListX.ListX.AddEnd | src/zlistx.c:169-188 | the item goes after the others, the cursor to the head |
| ListX.ListX.First | src/zlistx.c:230-235 | the cursor goes to the first item |
| ListX.ListX.Next | src/zlistx.c:244-249 | the cursor goes on, round past the head |
| ListX.ListX.Prev | src/zlistx.c:258-263 | the cursor goes back, round past the head |
| ListX.ListX.Last | src/zlistx.c:271-276 | the cursor goes to the last item |
| ListX.ListX.Find | src/zlistx.c:324-342 | the first equal item, with the cursor on it, or none and the cursor unmoved |
| ListX.ListX.Detach | src/zlistx.c:350-376 | exactly that node goes, the others keep their order, the cursor moves back if it was there |
| ListX.ListX.DetachCur | src/zlistx.c:386-390 | the node at the cursor goes, or the first if the cursor is before the list |
| ListX.ListX.MoveStart | src/zlistx.c:418-431 | the node becomes the first, the others keep their order, and the cursor does not move off its node |
| ListX.ListX.MoveEnd | src/zlistx.c:438-452 | the node becomes the last, the others keep their order, and the cursor does not move off its node |
| ListX.ListX.Reorder | src/zlistx.c:540-571 | the node goes to the slot where the search among the others stops |
| ListX.ListX.InsertSorted | src/zlistx.c:517-531 | a new node goes to the slot where the search stops |
| ListX.ListX.DeleteMatching | src/zloop.c:410-426 | a first/next loop that deletes at the cursor visits every item once in order and leaves exactly those it kept |
| ListX.ListX.Pass | src/zlistx.c:484-505 | a pass with any gap permutes the items; without a swap all pairs that far apart are in order |
| ListX.ListX.Sort | src/zlistx.c:473-507 | the sort ends with a sorted permutation, for every comparator that is an order, on nodes that have not moved |
| Tickets.AppendKeepsOrderIff | src/zloop.c:608-618 | a ticket at the end keeps the order if and only if nothing is due later |
| Tickets.ResetKeepsOrderIff | src/zloop.c:626-632 | a reset keeps the order if and only if no other ticket is due later than the new time |
| Tickets.DeleteKeepsOrder | src/zloop.c:641-648 | moving a deleted ticket to the end keeps the order of the live ones |
| Tickets.RaisedDelayBreaksOrder | src/zloop.c:656-660 | a raised delay and a reset of an older ticket put the list out of order |
| Tickets.HeadScanIsFullScan | src/zloop.c:761-773 | on a list in order a scan from the head fires what a scan of the whole list would, in that order |
| Tickets.MissesNothingIff | src/zloop.c:761-773 | the scan from the head misses nothing at any time if and only if the list is in order |
| TicketScan.DoKept | src/zloop.c:608-648 | no call a handler can make takes its own ticket off, moves the cursor off it, or makes a ticket due |
| TicketScan.DoAllKept | src/zloop.c:766-767 | neither does a whole handler |
| TicketScan.DoAllSteady | src/zloop.c:608-648 | with one delay for all tickets no handler disturbs the order |
| TicketScan.DoAllMovesCursor | src/zloop.c:766-767 | the scan goes on at the head unless the handler moves its own ticket and opens none |
| TicketScan.HandledTurned | src/zloop.c:763-773 | after its turn a ticket is gone, even if its handler reset it, and fewer tickets are due |
| TicketScan.TurnScans | src/zloop.c:763-773 | every turn keeps what the scan promises and leaves fewer tickets due, so the scan ends; a turn whose handler returns -1 ends it with its ticket still in the list and those fired before it gone |
| TicketScan.ScanEnds | src/zloop.c:763-773 | a scan that has ended fired tickets whose time had come, live ones only and each once, and all are gone; every live ticket left is still to come unless a handler moved its own ticket and opened none, for which see TicketStrays.LeavesNothingIff; with handlers that leave the tickets alone it fired exactly the live ones of the due prefix |
| TicketScan.StoppedWhere | src/zloop.c:766-770 | a scan stopped by a -1 ended in the turn of that handler, with the list as the handler left it |
| TicketTimes.CallsComeTo | src/zloop.c:608-648 | whatever calls are made on tickets in whatever order: each ticket is due its delay after it was last opened or reset, is deleted if it was or a call deleted it, none is taken off, and the list has the untouched ones first and then the others in the order of their last touch |
| TicketStrays.StrayStrands | src/zloop.c:763-773 | after a handler that moved its own ticket and opened none the scan has nothing before it, and what is live and due is what was so when the handler returned |
| TicketStrays.StrandedTurn | src/zloop.c:763-773 | such a scan fires nothing more and leaves what is live and due alone |
| TicketStrays.LeavesNothingIff | src/zloop.c:761-773 | with one delay for all tickets a scan leaves nothing live due if and only if at every straying handler no other live ticket was due as it returned; such a handler is the last one called |
| TicketStrays.StrayLeavesDue | src/zloop.c:763-773 | a handler that resets its own ticket loses it and ends the scan with the next ticket still due |
| Reactor.Reactor.SetDelay | src/zloop.c:656-660 | a delay that is not lowered keeps a list in order ready for new tickets |
| Reactor.Reactor.Create | src/zloop.c:608-618 | a new ticket goes to the end with the delay that is set; order is kept |
| Reactor.Reactor.Reset | src/zloop.c:626-632 | the ticket goes to the end with its own delay; order is kept if that is the delay that is set |
| Reactor.Reactor.Delete | src/zloop.c:641-648 | the ticket is marked and goes to the end; order is kept |
| Reactor.Reactor.Tickless | src/zloop.c:280-302 | the wake-up time is the earliest of the limit, the timers and the tickets |
| Reactor.Reactor.Fire | src/zloop.c:761-773 | the loop goes through exactly the turns of the scan and ends with its outcome, whatever the handlers do; with one delay for all tickets every live ticket left is still to come if and only if no straying handler left another one due; if a handler returned -1 the list is as that handler left it, its ticket included |
| Reactor.Reactor.Sweep | src/zloop.c:775-780 | the deleted tickets at the end go, and no live one |
| Wire.ParsesExactly | src/zlistx.c:693-740 | the bytes after the count parse to a list if and only if they are its packed form and its strings are below 4 GB |
| Wire.ListRoundTripIff | src/zlistx.c:651-740 | a packed list is unpacked to itself if and only if its strings are below 4 GB and its size is no multiple of 2^32 |
| Layout.NumbersInOrder | src/zlistx.c:669-675 | numbers that fit are ordered as their four bytes are, so they are in network order |
| Layout.ListLayout | src/zlistx.c:651-685 | every string is where the lengths before it say, behind its length in network order; the count comes first and nothing else is in the frame |
| Wire.PackListFrame | src/zlistx.c:651-685 | the two passes fill the frame with the packed form and fit it exactly |
| Wire.UnpackListFrame | src/zlistx.c:693-740 | the loop returns the parsed list, or nothing if the bytes are malformed |
| Dictionary.DictRoundTripIff | src/zhashx.c:775-938 | in whatever order a table is packed, it is unpacked to itself if and only if its names have at most 255 bytes, its values are below 4 GB and its size is no multiple of 2^32 |
| Layout.DictLayout | src/zhashx.c:775-840 | every name is where the lengths before it say, behind its length in a byte, and then its value behind its length in network order |
| Layout.CountIsIdle | src/zhashx.c:887-894 | two counts other than zero make no difference; a count of zero or a frame too short for one gives an empty list and an empty dictionary |
| Layout.LongNameSkipped | src/zhashx.c:894-897 | a name length past the end is skipped, and nothing but it |
| Layout.CutPairSkipped | src/zhashx.c:897-904 | a name that fewer than four bytes follow is dropped |
| Layout.LongValueSkipped | src/zhashx.c:904-908 | a value length past the end drops the pair, and the scan goes on behind the length |
| Dictionary.UnpackedIff | src/zhashx.c:877-938 | every frame, malformed or not, is unpacked to a table if and only if the table lists the complete pairs the scan comes upon, no name twice |
| Dictionary.PairsBeforeDamage | src/zhashx.c:892-930 | whatever damage follows packed pairs, those pairs are read |
| Dictionary.StrayByte | src/zhashx.c:892-930 | one stray byte after the count: the list is refused, the dictionary is empty |
| Dictionary.PackDictFrame | src/zhashx.c:775-840 | the two passes fill the frame with the packed form and fit it exactly |
| Dictionary.UnpackDictFrame | src/zhashx.c:877-938 | the loop returns what the scan finds, or nothing if a name comes twice |

## Left out

- The Windows thread shim, thread names and priorities: the same steps.
- libzmq itself: a pipe is a pair of bounded lossless queues, a gossip connection a pair of unbounded ones.
- Interrupts and receives that return nothing because the context is terminated.
- An actor function that computes for ever between two calls on its pipe, or sends without end: a handler has a bound on its sends before it next receives or returns.
- Messages.SignalBytes: for a host that stores the low byte first; the code copies a number as the host has it.
- Actors.EchoActor: the argument check and the output of the failed assertion are not modelled.
- Gossip reconnects and monitors, PING and PONG, UNPUBLISH, and a second CONNECT to the same endpoint or one to the node itself. A server may forget a client at any time: the one-second clock and the traffic that resets it are not modelled.
- GossipForgotten.ArrivesIffKnown: for a connection whose ends have no other, because elsewhere the tuple may come another way; the server forgets nobody while the tuple is under way.
- GossipLivelock.DoublePublicationStopsIff: for a network in which no server has forgotten a client; with forgotten clients a quiescent network need not agree (GossipExpiry), and the condition rests on that.
- GossipLivelock.JoinStopsIff: the same.
- GossipPair.RivalsRestIff: the same.
- GossipRivals.RivalsStopIff: the same.
- GossipLivelock.ChaseNeverEnds: that no order of delivery comes to rest is proved for a pair (GossipPair.ChaseNeverRests); on a larger network a third node can put messages between the two values, which the invariant of the pair does not cover.
- The range of the exponent in floating point: no overflow, infinities or subnormal numbers; no value in randof comes near them.
- ListX.ListX.Sort: the division of the gap by 1.3 is a parameter that makes the gap smaller, because its rounding does not matter.
- ListX.ListX.Detach: calls of the item destructor, duplicator and the handle tag are not modelled; zlistx_delete is Detach and a destructor call, zlistx_purge a loop of it.
- Reactor.Reactor.Fire: handlers change tickets, not the ticket delay; a handle that is no longer in the list, where the code fails an assertion, stands for no call; the list is the sequence with a cursor that ListX proves zlistx to be.
- The poll set, the readers and the ordinary timers of zloop.
- The hash table under zhashx: a table is a finite map, packed in any order of its entries; serializers are left out.
- zhash, zlist, certificates, authentication, proxies, beacons, file transfer and the other classes: none of the properties here depends on them.
