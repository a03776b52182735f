# SFS / libasync in Dafny

A model of the core of SFS and its asynchronous RPC library, with proofs of what it promises:

- **Resumable RPC** (`ReplayCache`, `ResumableServer`, `ResumableClient`, `ResumeProtocol`,
  `ResumeClientSafety`, `ResumeServerSafety`, `ResumeTheorems`, `ResumeLimits`,
  `ResumeAccounts`): the server's replay cache and the client's table of outstanding calls as
  objects, and both together with the byte streams between them as one protocol. Main results:
  at-most-once execution over every run with any breaks and resumes on either side, the exact
  condition for it, and what becomes of every call and every reply.
- **Unreliable RPC** (`UnreliableServer`): when a duplicate call may be executed again.
- **The buddy allocator** (`BuddyTree`, `FreeMap`, `BuddyAllocator`): bitmaps, allocation,
  release and growth. Main results: the maps are canonical, `alloc` fails only when no block
  is free and breaks no larger block than it must, `dealloc` undoes `alloc`, the space is tiled.
- **REX sessions** (`RexSession`, `RexInvariants`, `RexTheorems`, `RexAlerts`, `RexAnswers`,
  `RexPacing`): every callback of `rexsess` as a step. Main results: one connection attempt at a
  time, every request answered exactly once, exactly when it is accepted or refused, exactly
  which steps end a session, exact counters, distinct sequence numbers.
- **Record marking** (`Framing`): packets on a byte stream under every chunking and pausing.
- **XDR** (`Xdr`, `XdrStream`, `XdrLayout`): the generic codec over all types, against the
  layout of the standard, and decoding into an object with any previous contents.
- **rpcgen's struct inlining** (`StructInline`, `StructRun`): generated operations and what
  they do when they run.
- **S-expressions** (`SExpr`, `SExprReader`, `SExprSyntax`): the explicit-stack reader against a
  recursive-descent parser, that against the syntax, and what can be read back.
- **Timers** (`Timers`) and **retransmission queues** (`RetransmitQueue`).
- **armor32/64** (`BitStream`, `Armor`, `ArmorText`): block-wise text encoding against one
  stream of bits.

Objects that the program updates in place are classes with the same fields, except where
"Left out" says otherwise; each method is tied to a function or predicate on values, about
which the lemmas are stated. `Octets`, `Options` and `PowersOfTwo` hold what several modules
share.

## Hypotheses

- Resumable RPC: xids are never used again; the service answers every call it is given (it
  neither rejects nor ignores one); connections are FIFO byte streams that may stop anywhere;
  the reply to a reverse call acknowledges what came before the call on its connection, unless
  the call was sent again after a resumption or the reply does not decode. `Config.quiet` says
  that no call is issued between `pre_resume` and `post_resume`; `Config.leaves` says that a client that read a reply and kept its call, because
  the reply did not decode or the client was stopped, answers no reverse call that it reads
  later on that connection; the owners of such clients (rex/proxy.C, sfsmisc/rexchan.C) stop
  using the connection altogether. `Drained` says that the transport has delivered all but the
  last `sndbufsz` bytes written, that the client kept no call whose reply was so delivered,
  and that the server has read what the client wrote before reading them. `ResumeLimits` shows
  that none of these can be dropped.
- Buddy allocator: `minalloc` is at least two, since the unsigned counter of the halving loop
  cannot go below size class 0; `dealloc` gets a block and length that `alloc`
  gave; a map word has 64 bits and `ffs` looks at all of them; sizes fit the shifts.
- REX: connecting and remote calls do not call back before they return, and return a handle.
  Whether the proxy was heard of recently is a parameter of a step; the probe timer may fire
  at any time.
- Timers: the clock does not go backwards during a check; a callback does not remove the
  running timer; callbacks together add and remove finitely many timers during a check; lazy
  intervals are positive.
- Retransmission queues: `xmit` does not call back into the queue; an entry is removed only
  while it is queued.
- XDR: the stream has room for what is written, and XDR_INLINE grants what is there to read;
  in the generated code, XDR_INLINE may also refuse. Granted, it adds or takes exactly the
  bytes it is asked for, and an encoding stream asserts that they are a multiple of four
  (arpc/xdr_suio.h).
- S-expressions: streams behave like `file_stream`; characters are in the C locale; `atol`
  stops at LONG_MAX; `long` has 64 bits.
- Armor: operands of `|` have no bit in common, so it is written as a sum.

Where code and comments differ, the model follows the code: the assertion in `callgetpkt` is
too strong for packets longer than `pktsize - 4`, and for a callback that unsets itself on a
very short one (`Framing.AssertionIff`), and the size that
rpcgen prints for a run of vectors lacks parentheses (`StructRun.ReserveIff`).

## Model

| member | source | states |
|---|---|---|
| `ReplayCache.KeepSuffix` | arpc/asrv.C:492-500 | Popping a queue while its head is dead removes exactly the dead elements when they form a prefix. |
| `ReplayCache.KeepDistinct` | arpc/asrv.C:492-500 | A queue filtered by delsbp keeps its order and stays free of duplicates. |
| `ResumableServer.LeftoversFirst` | arpc/asrv.C:592-601 | While replies of earlier connections remain, they are at the head of rq. |
| `ResumableServer.LeftoversPopped` | arpc/asrv.C:598-599 | Popping while the head has offset zero removes all leftovers of earlier connections and nothing else. |
| `ResumableServer.ReceivedPopped` | arpc/asrv.C:635-636 | The acknowledgement loop removes exactly the entries below known_received, and nothing at all while leftovers remain. |
| `ResumableServer.ReplayedValid` | arpc/asrv.C:603-611 | Answering a duplicate from the cache moves it to the end of rq, which stays sorted by offset. |
| `ResumableServer.AdmittedValid` | arpc/asrv.C:596-602 | Admitting a call the table misses keeps rq sorted, distinct and inside rtab. |
| `ResumableServer.RepliedValid` | arpc/asrv.C:614-637 | Answering, caching and evicting keeps rq sorted, distinct and equal to the answered part of rtab. |
| `ResumableServer.ResumedValid` | arpc/asrv.C:639-658 | Zeroing every offset for a new connection keeps rq sorted. |
| `ResumableServer.Asrv.constructor` | arpc/asrv.C:660-669 | A new server has an empty table and queue. |
| `ResumableServer.Asrv.EvictLeftovers` | arpc/asrv.C:598-599 | The loop leaves the server without its leftovers, and otherwise unchanged. |
| `ResumableServer.Asrv.EvictReceived` | arpc/asrv.C:635-636 | The loop leaves the server without the replies known received, and otherwise unchanged. |
| `ResumableServer.Asrv.Pop` | arpc/asrv.C:492-500 | delsbp of the head: one entry leaves both rq and rtab. |
| `ResumableServer.Asrv.IsReplay` | arpc/asrv.C:592-612 | True exactly for calls in the table; an answered one is sent again with the same bytes and a new offset, a missed one evicts exactly the leftovers. |
| `ResumableServer.Asrv.SendReply` | arpc/asrv.C:614-637 | The reply is sent unless at end of file, cached with its end offset, and the replies below the known-received mark are evicted. |
| `ResumableServer.Asrv.Drop` | arpc/asrv.C:511-515 | A rejected or ignored call leaves the table. |
| `ResumableServer.Asrv.Resume` | arpc/asrv.C:639-658 | A new connection: byte counts restart and every cached offset becomes zero. |
| `ResumableClient.Aclnt.Xmit` | arpc/aclnt.C:187-196 | A call is written unless the connection is at end of file, or found broken. |
| `ResumableClient.Aclnt.Issue` | arpc/aclnt.C:58-63 | A call joins the outstanding ones and the routing table and is sent once, by a stopped client too; the protocol's Issued is what happens. |
| `ResumableClient.Aclnt.Finish` | arpc/aclnt.C:65-73 | The call leaves the outstanding ones and the routing table; everything else stays in order. |
| `ResumableClient.Aclnt.Cancel` | arpc/aclnt.h:62-62 | A call cancelled is neither outstanding nor routed, and nobody is told; the protocol's Cancelled is what happens. |
| `ResumableClient.Aclnt.Fail` | arpc/aclnt.C:553-563 | Unless the owner takes care of the failure, every outstanding call ends, its callback told once, oldest first. |
| `ResumableClient.Aclnt.Dispatch` | arpc/aclnt.C:565-593 | A reply that decodes is accepted exactly if its xid is routed, which it no longer is afterwards, and its result is handed on, as ClientRead of the protocol says; one that does not decode, or is not routed, leaves the calls as they are if the owner takes care of it, as ClientKept says, and otherwise fails them all. |
| `ResumableClient.Aclnt.Stop` | arpc/aclnt.C:261-277 | The routing table loses exactly the client's calls. |
| `ResumableClient.Aclnt.Start` | arpc/aclnt.C:244-259 | The routing table gets exactly the outstanding calls; the assertion is that none was there. |
| `ResumableClient.Aclnt.PreResume` | arpc/aclnt.C:654-666 | The outstanding calls are routed on the new connection, none is sent yet, and the assertion of start holds; the protocol's PreResumed is what happens. |
| `ResumableClient.Aclnt.PostResume` | arpc/aclnt.C:668-678 | Outstanding calls are sent oldest first, all of them unless the connection breaks part way; the protocol's PostResumed is what happens. |
| `ResumeClientSafety.InitInv` | arpc/aclnt.C:680-691 | The invariant holds before anything is sent. |
| `ResumeClientSafety.IssuedInv` | arpc/aclnt.C:400-429 | Issuing a call keeps the invariant. |
| `ResumeClientSafety.CancelledInv` | arpc/aclnt.C:65-73 | Cancelling or timing out a call keeps the invariant. |
| `ResumeClientSafety.ClientReadInv` | arpc/aclnt.C:565-593 | Reading a reply or a reverse call keeps the invariant; a reply accepted is the one the service gave. |
| `ResumeClientSafety.ClientKeptInv` | arpc/aclnt.C:575-592 | Reading a reply and keeping its call, because it does not decode or the client is stopped, keeps the invariant: such a reply settles nothing. |
| `ResumeClientSafety.PreResumedInv` | arpc/aclnt.C:654-666 | Moving the client to a new connection keeps the invariant. |
| `ResumeClientSafety.PostResumedInv` | arpc/aclnt.C:668-678 | Retransmitting all or some of the outstanding calls keeps the invariant. |
| `ResumeServerSafety.OlderRead` | arpc/asrv.C:592-601 | If a call newer than the next one to arrive was read, so was the next one itself: calls are sent again in issue order. |
| `ResumeServerSafety.LeftoverGone` | arpc/asrv.C:592-601 | When a call the table misses is read, no leftover reply belongs to a call that is outstanding or may still arrive. |
| `ResumeServerSafety.KnownConfirmed` | arpc/asrv.C:626-634 | Whatever lies before known_received was read by the client and its call not kept, and every call it had sent before reading it was read by the server. |
| `ResumeServerSafety.ReceivedGone` | arpc/asrv.C:634-636 | No reply evicted as received belongs to a call that is outstanding or in flight. |
| `ResumeServerSafety.AdmittedInv` | arpc/asrv.C:592-602 | A call the table misses was never dispatched before. |
| `ResumeServerSafety.ReplayedInv` | arpc/asrv.C:603-611 | Answering a duplicate keeps the invariant. |
| `ResumeServerSafety.ServerReadInv` | arpc/asrv.C:592-612 | Reading any message keeps the invariant. |
| `ResumeServerSafety.ServerRepliedInv` | arpc/asrv.C:614-637 | Answering a call, with both evictions, keeps the invariant. |
| `ResumeServerSafety.RevCalledInv` | arpc/asrv.C:626-634 | A reverse call of the server keeps the invariant, so its reply may be taken as an acknowledgement. |
| `ResumeServerSafety.RevResentInv` | arpc/aclnt.C:668-678 | A reverse call sent again after a resumption, whose offset is zero, keeps the invariant. |
| `ResumeServerSafety.ServerSkippedInv` | arpc/aclnt.C:583-592 | A reply to a reverse call that does not decode credits nothing, and keeps the invariant. |
| `ResumeServerSafety.ServerMovedInv` | arpc/asrv.C:639-658 | Moving the server to any later connection keeps the invariant. |
| `ResumeTheorems.StepInv` | arpc/asrv.C:592-658 | Every step of client, server or network keeps the invariant: an outstanding or in-flight call the server has seen is in its table. |
| `ResumeTheorems.RunInv` | arpc/aclnt.C:654-678 | The invariant holds in every state of every run, with any number of breaks and resumes on either side. |
| `ResumeTheorems.AtMostOnce` | arpc/asrv.C:592-658 | In every run each resumable call is dispatched at most once, and any reply the client accepts is the result of that execution; replies that are read and not accepted included, if the client then answers nothing it reads later on that connection. `ResumeAccounts.TakenAccepted` says that replies taken are accepted. |
| `ResumeTheorems.ResultsFinal` | arpc/asrv.C:603-611 | The result of a call never changes once given. |
| `ResumeTheorems.OutstandingRemembered` | arpc/asrv.C:592-658 | A call still outstanding at the client is never evicted once executed, and its cached reply is its result. |
| `ResumeAccounts.Accounted` | arpc/aclnt.C:565-593 | In every run every call issued is outstanding, or has its result, or was cancelled, exactly one of them, and no other call is any of these. |
| `ResumeAccounts.AcceptedTaken` | arpc/aclnt.C:565-593 | Every result a call was given came with a reply to it that the client read and whose call it did not keep. |
| `ResumeAccounts.TakenAccepted` | arpc/aclnt.C:565-593 | Every reply that was read, and its call not kept, gave its call the result of its one execution, unless the call was cancelled. |
| `ResumeAccounts.AllServed` | arpc/asrv.C:592-637 | In every run the calls with a result are those the service answered, and every other call it was given is in the table, waiting for its answer. |
| `ResumeAccounts.OffsetsCount` | arpc/asrv.C:614-637 | Offsets are byte positions in the stream: a reply ends where the message before it ended, plus the length of its frame. |
| `ResumeAccounts.AckedStep` | arpc/aclnt.C:583-592 | The acknowledged offset changes only when the reply to a reverse call is read, which raises it to where that call ended at least, and that call is then forgotten. |
| `ResumeAccounts.AckedCalls` | arpc/aclnt.C:583-592 | In every run, only the end of a reverse call that was sent for the first time on the connection is ever acknowledged. |
| `ResumeAccounts.ForgottenIff` | arpc/aclnt.C:575-592 | The server forgets a reverse call exactly when it reads its reply, unless that does not decode and the owner keeps the call, or when it moves to another connection. |
| `ResumeAccounts.EofSilent` | arpc/aclnt.C:187-196 | At the end of file a side neither reads nor writes on its connection; EofStep says when it is there. |
| `ResumeAccounts.AnsweredKeeps` | arpc/asrv.C:626-637 | After an answer no cached reply ends before the acknowledged offset or before the send buffer, unless replies of earlier connections remain; only replies that do are dropped. |
| `ResumeAccounts.AdmittedKeeps` | arpc/asrv.C:596-602 | A call the table missed leaves in it exactly what was there, but for the replies of earlier connections. |
| `ResumeLimits.SndbufRun` | arpc/asrv.C:626-634 | With a known send-buffer size and a transport that does not keep to it, some run dispatches a call twice. |
| `ResumeLimits.ChatterRun` | sfsmisc/rexchan.C:619-680 | If a call is issued between pre_resume and post_resume, some run dispatches a call twice. |
| `ResumeLimits.KeptRun` | arpc/aclnt.C:575-592 | If the client reads a reply, keeps the call and then answers a reverse call on the same connection, some run dispatches a call twice. |
| `ResumeLimits.AtMostOnceIff` | arpc/asrv.C:592-658 | All runs are safe if and only if the send-buffer size is unknown, no call is issued during a resumption, and a client that keeps a call whose reply it read answers nothing it reads later on that connection. |
| `UnreliableServer.StepValid` | arpc/asrv.C:540-574 | Every event keeps rq exactly the answered calls of rtab, once each, at most maxrsize of them. |
| `UnreliableServer.HistoryInv` | arpc/asrv.C:540-574 | After every history each queued reply is accounted for by the answer that cached it and the replies cached since. |
| `UnreliableServer.Forgotten` | arpc/asrv.C:558-574 | Whatever leaves the table was rejected, ignored, answered nocache, or followed by maxrsize cached replies. |
| `UnreliableServer.RedispatchExcused` | arpc/asrv.C:540-574 | A call is dispatched a second time only if the first was rejected, ignored or answered nocache, or at least maxrsize replies were cached after it. |
| `UnreliableServer.ExcuseGone` | arpc/asrv.C:540-574 | A call that was rejected, ignored or answered nocache since its latest dispatch, or pushed out by maxrsize replies, is no longer in the table. |
| `UnreliableServer.RedispatchIff` | arpc/asrv.C:540-574 | The next copy of a call is dispatched if and only if, since its latest dispatch, it was rejected, ignored or answered nocache, or at least maxrsize replies were cached after its answer. |
| `UnreliableServer.DuplicateReplayed` | arpc/asrv.C:542-556 | Any other duplicate is dropped, or answered with the bytes of its latest answer. |
| `UnreliableServer.Asrv.IsReplay` | arpc/asrv.C:542-556 | The table decides; a cached reply is sent again unchanged. |
| `UnreliableServer.Asrv.SendReply` | arpc/asrv.C:558-574 | The reply is sent unless at end of file, cached unless nocache, and the oldest replies are evicted down to maxrsize. |
| `UnreliableServer.Asrv.Reject` | arpc/asrv.C:511-515 | A rejected or ignored call leaves the table. |
| `BuddyTree.UnitsAligned` | async/bbuddy.C:174-203 | A block is the range of units whose position it is: aligned and of its size. |
| `BuddyTree.Nested` | async/bbuddy.C:174-229 | Two blocks with a unit in common are nested. |
| `BuddyTree.CanonicalUnique` | async/bbuddy.C:174-248 | The free maps are determined by the set of free units alone. |
| `BuddyTree.FreeUnits` | async/bbuddy.C:174-248 | The free units are determined by the maps. |
| `BuddyTree.Climb` | async/bbuddy.C:174-203 | A free block lies in a maximal free block, which has a map bit. |
| `BuddyTree.Take` | async/bbuddy.C:185-188 | Taking a maximal block clears its bit and no other, and the maps stay canonical. |
| `BuddyTree.Give` | async/bbuddy.C:219-228 | Giving back a block whose buddy is not free sets its bit and no other, and the maps stay canonical. |
| `BuddyTree.BuddyBit` | async/bbuddy.C:219-226 | While a block is in use, its buddy's map bit says whether the whole buddy is free. |
| `BuddyTree.Merge` | async/bbuddy.C:219-227 | A block and its buddy are the parent block. |
| `FreeMap.Bbfree.RangeClr` | async/bitvec.h:97-110 | Exactly the bits of the range become clear, across word boundaries. |
| `FreeMap.Bbfree.Init` | async/bbuddy.C:54-60 | Growing keeps the old bits; the new ones are clear whatever the memory held. |
| `FreeMap.Bbfree.SetBit` | async/bbuddy.C:64-75 | Exactly one bit is added and counted; the hint then points to a word that has one, and moves only if it did not. |
| `FreeMap.Bbfree.ClrBit` | async/bbuddy.C:76-85 | Exactly one bit is removed and counted. |
| `FreeMap.Bbfree.FindBit` | async/bbuddy.C:91-107 | A set bit if and only if there is one: the lowest in the word of the hint, or of all if that word has none; the panic is never reached. |
| `BuddyAllocator.SizeClassBounds` | async/bbuddy.C:177-181 | The size class is that of the smallest power of two that holds the request; zero bytes get no class. |
| `BuddyAllocator.NoneFree` | async/bbuddy.C:191-195 | If no map from a level up has a bit, no block of that level is free. |
| `BuddyAllocator.Bbuddy.constructor` | async/bbuddy.C:127-135 | A new arena has the rounded total size, all free and nothing in use. |
| `BuddyAllocator.Bbuddy.FindAbove` | async/bbuddy.C:191-195 | The search finds a block of the nearest larger level that has one, all levels between being empty, or none exists. |
| `BuddyAllocator.Bbuddy.Split` | async/bbuddy.C:196-200 | Halving down takes the first block of the level and leaves the maps canonical for what is then free. |
| `BuddyAllocator.Bbuddy.TakeBlock` | async/bbuddy.C:183-200 | A free block of the level is taken off the maps, the first one of a maximal free block of the least level that will do, or none is free and nothing changed. |
| `BuddyAllocator.Bbuddy.Alloc` | async/bbuddy.C:174-203 | -1 exactly when no aligned free block of the rounded size exists up to maxalloc; otherwise one such block changes hands and nothing else, the first of its level in a maximal free block of the least level that will do. |
| `BuddyAllocator.LeastBroken` | async/bbuddy.C:191-195 | No free block of the level lies in a smaller maximal free block than the one that is split. |
| `BuddyAllocator.OthersStay` | async/bbuddy.C:191-200 | Every other maximal free block stays whole. |
| `BuddyAllocator.Bbuddy.Release` | async/bbuddy.C:218-228 | Merging with free buddies leaves the maps canonical for the block and what was free. |
| `BuddyAllocator.Bbuddy.Dealloc` | async/bbuddy.C:205-229 | A block in use becomes free, merged with its buddies, and the space is credited. |
| `BuddyAllocator.Bbuddy.AllocDealloc` | async/bbuddy.C:174-229 | alloc followed by dealloc leaves maps, free set and space as they were, whatever the history. |
| `BuddyAllocator.Bbuddy.AllFree` | async/bbuddy.C:174-229 | When nothing is in use the maps are those of a fresh arena, whatever the history. |
| `BuddyAllocator.Bbuddy.SpaceAdds` | async/bbuddy.C:137-229 | spaceleft and the rounded sizes of the blocks in use add up to totsize. |
| `BuddyAllocator.Bbuddy.LiveDisjoint` | async/bbuddy.C:137-229 | Blocks in use are aligned, inside the arena, and share no byte. |
| `BuddyAllocator.Bbuddy.CheckPos` | async/bbuddy.C:231-248 | The self-check's panic and assertion are never reached, and it returns the block's map bit. |
| `BuddyAllocator.Bbuddy.GrowMaps` | async/bbuddy.C:144-148 | Every map gets its new size, old bits kept and new ones clear. |
| `BuddyAllocator.Bbuddy.AddTop` | async/bbuddy.C:160-163 | One more top-level block becomes free. |
| `BuddyAllocator.Bbuddy.AddTops` | async/bbuddy.C:160-163 | The loop frees exactly the units of the new top-level blocks. |
| `BuddyAllocator.Bbuddy.SetTotSize` | async/bbuddy.C:137-167 | The arena grows by whole top-level blocks, all free; blocks in use stay. |
| `RexInvariants.FinishBooks` | agent/agentrex.C:513-537 | Answering one request keeps counters, sequence numbers and the record of answers exact. |
| `RexInvariants.FailInv` | agent/agentrex.C:438-444 | A failing session answers every queued request. |
| `RexInvariants.ActiveInv` | agent/agentrex.C:599-609 | Back in touch with the proxy, every waiting request is answered or handed to agent forwarding. |
| `RexInvariants.BadConnectBooks` | agent/agentrex.C:611-631 | A failed attempt refuses just the requests that do not wait. |
| `RexInvariants.ConnectedInv` | agent/agentrex.C:166-216 | Every outcome of a connection attempt keeps the invariant. |
| `RexInvariants.SpawnedInv` | agent/agentrex.C:260-282 | Both outcomes of spawning the proxy keep the invariant. |
| `RexInvariants.AttachedInv` | agent/agentrex.C:301-348 | Every outcome of attaching keeps the invariant, also that the session cannot resume and ends at once. |
| `RexInvariants.ResumedInv` | agent/agentrex.C:350-359 | Both outcomes of resuming keep the invariant. |
| `RexInvariants.ProxyFailInv` | agent/agentrex.C:446-463 | Losing the proxy starts one new attempt or fails the session. |
| `RexInvariants.ProbedInv` | agent/agentrex.C:372-393 | A probe's answer, or its failure, keeps the invariant. |
| `RexInvariants.TakeInv` | agent/agentrex.C:560-581 | Taking a request keeps the invariant: it is queued with something to answer it, or answered; `RexAnswers.StepExpected` says which and how. |
| `RexInvariants.RexRequestInv` | agent/agentrex.C:493-511 | A rex request is counted before it is taken, and the invariant kept. |
| `RexInvariants.ClientDiedInv` | agent/agentrex.C:414-429 | A dying client is no longer counted, and the reaper is armed when none is left. |
| `RexInvariants.StepInv` | agent/agentrex.C:98-645 | Every callback keeps the invariant. |
| `RexTheorems.RunInv` | agent/agentrex.C:98-645 | The invariant holds in every state of every run. |
| `RexTheorems.OneAttempt` | agent/agentrex.C:98-404 | In every reachable live state at most one of the five connection handles is set, and outside attempts there is a session: the asserts and the dereference are safe. |
| `RexTheorems.AnsweredOnce` | agent/agentrex.C:560-645 | Each request taken is queued or answered, exactly once. |
| `RexTheorems.NotStranded` | agent/agentrex.C:446-463 | Outside connection attempts queued requests have a probe outstanding, and agent requests a channel in the making. |
| `RexTheorems.DeathAnswersAll` | agent/agentrex.C:431-444 | A session that dies of itself has answered all requests; reaping drops none of a client. |
| `RexTheorems.CountersExact` | agent/agentrex.C:414-436 | clients and resumable_clients are the waiting rex requests plus the answered clients not dead, and the reaper is armed only at zero. |
| `RexTheorems.SeqnosDistinct` | agent/agentrex.C:284-299 | No sequence number of attach or rex_reply repeats. |
| `RexTheorems.LostWhileAttaching` | agent/agentrex.C:414-429 | Losing the last resumable client while attaching again reaches such a state: a run in which attaching ends the session. |
| `RexAnswers.StepExpected` | agent/agentrex.C:98-645 | Every step ends the session, accepts and refuses requests, gives out sequence numbers and keeps requests waiting exactly as the state before it and its outcome say. |
| `RexAnswers.LiveIff` | agent/agentrex.C:98-463 | In every run a step ends a live session exactly if it is a failed attempt with nothing left to retry for, a failed spawning, securing, attaching or resuming, the loss of a proxy that cannot be resumed, or reaping or killing. |
| `RexAnswers.RefusedIff` | agent/agentrex.C:583-645 | In every run a request has been refused exactly if some step was to refuse it, and answered exactly if some step was to accept or refuse it. |
| `RexAnswers.HowAnswered` | agent/agentrex.C:560-645 | An answer that a step gives is a refusal exactly if the session ends with the step, or the step is a failed connection attempt and the proxy was not heard of. |
| `RexAnswers.AcceptedIff` | agent/agentrex.C:513-537 | A client has been given a sequence number exactly if some step was to accept its request. |
| `RexAnswers.BadConnectFlag` | agent/agentrex.C:180-193 | After a failed attempt the session goes on exactly if a request waits and the session may resume, which after refusals is for the clients left to say. |
| `RexAnswers.StepPhase` | agent/agentrex.C:98-404 | Backing off, dialing, spawning, attaching, resuming and being in touch follow one another as they should; a session that exists is reconnected, any other connected. |
| `RexAnswers.StepFields` | agent/agentrex.C:372-511 | The reaper, the probe, the agent flag and whether the session may resume change exactly when they should. |
| `RexAnswers.DelaysDouble` | agent/agentrex.C:46-52 | Waiting times double from 15 seconds up to an hour. |
| `RexPacing.RunPaced` | agent/agentrex.C:149-198 | In every run the waiting time is zero after a request, 15 seconds in a new series of attempts, and the next longer after a failed one; the agent channel is in the making exactly from when a request waits for it with the proxy in touch until it is made or has failed. |
| `RexPacing.RunFields` | agent/agentrex.C:98-511 | The same over every run for the other fields and for connection attempts. |
| `RexAlerts.Finish` | agent/agentrex.C:583-588 | The counter assertions of rex_reply hold for a request on the books. |
| `RexAlerts.FinishEach` | agent/agentrex.C:590-609 | The loop answers a whole queue, in order. |
| `RexAlerts.Sift` | agent/agentrex.C:611-631 | What can wait stays queued in order, the rest is refused. |
| `Framing.IntRoundTrip` | arpc/axprt_stream.C:162-201 | Reading a four-byte header gives the number written. |
| `Framing.PutGet` | arpc/axprt_stream.C:244-260 | Every four bytes are the header of the number read from them. |
| `Framing.PutBig` | arpc/axprt_stream.C:162-201 | The four bytes of a word stand for its number, highest byte first. |
| `Framing.WordOrder` | arpc/xdrmisc.h:134-148 | Words come in the order of their numbers, byte by byte from the first. |
| `Framing.FrameHeader` | arpc/axprt_stream.C:162-201 | A frame is a header and the packet; the highest bit of the header is set and the other 31 are the length. |
| `Framing.LookIff` | arpc/axprt_stream.C:244-286 | Bytes are taken for a packet exactly if a frame of at most pktsize bytes starts them, for a break exactly if four zeros do, and wait for more exactly if they are too short to tell or how such a frame starts. |
| `Framing.LookFrame` | arpc/axprt_stream.C:263-286 | A frame looks incomplete until all of it is there, and is then taken whole. |
| `Framing.DeliveredPrefix` | arpc/axprt_stream.C:263-286 | Delivered packets and buffered bytes that make up a beginning of the sent stream are its packets and the next frame's beginning. |
| `Framing.LookStream` | arpc/axprt_stream.C:244-286 | Within a sender's stream the receiver never sees a break or a bad length. |
| `Framing.Stream.GetPkt` | arpc/axprt_stream.C:263-286 | One packet is delivered, or none is whole, or the stream is closed. |
| `Framing.Stream.CallGetPkt` | arpc/axprt_stream.C:333-360 | Packets are delivered until none is whole or the callback is unset, and the remainder moves to the front. |
| `Framing.Stream.Input` | arpc/axprt_stream.C:294-315 | Any chunk of the stream: there is always room for it, and every whole packet is delivered unless the callback unsets itself, as Pumped says. The end, an error or a bad length closes the stream and is reported once. |
| `Framing.Stream.SetRcb` | arpc/axprt_stream.C:66-82 | Pausing loses nothing; going on delivers what is buffered, as Pumped says; on a closed stream the callback is told at once. |
| `Framing.Stream.UngetPkt` | arpc/axprt_stream.C:228-242 | A packet put back while nothing is buffered counts as received again and is delivered next. |
| `Framing.Stream.InOrder` | arpc/axprt_stream.C:162-360 | For every chunking and pausing the packets come out as sent, in order, and all of them once the stream is in. |
| `Framing.Stream.Tracks` | arpc/axprt_stream.C:333-360 | What is buffered is what came in less the frames delivered, and with the callback set it is less than the next frame. |
| `Framing.PumpedBelow` | arpc/axprt_stream.C:333-360 | If the packets fit, less than pktsize bytes stay buffered after callgetpkt, also after a callback that unset itself. |
| `Framing.Overflows` | arpc/axprt_stream.C:333-360 | If they do not fit, some reads and pauses leave pktsize bytes or more. |
| `Framing.AssertionIff` | arpc/axprt_stream.C:333-360 | The assertion that less than pktsize bytes stay buffered holds under every chunking and pausing if and only if every packet is at most pktsize - 4 long, and no packet is so short that pktsize bytes of those after it fit into the buffer behind it. |
| `Framing.Overfull` | arpc/axprt_stream.C:333-360 | Packets for which that fails make a receiver fail the assertion, by a long packet without its last byte or by a callback that unsets itself on a short one. |
| `Xdr.Pad` | arpc/xdrmisc.h:167-189 | The padding completes a word and is shorter than one. |
| `Xdr.RoundTrip` | arpc/xdrmisc.h:134-291 | Decoding an encoding followed by anything returns the value and what follows, or fails, if and only if a string holds a NUL. |
| `Xdr.LeafRoundTrip` | arpc/xdrmisc.h:190-291 | The same for integers, booleans, opaque data and strings. |
| `Xdr.RoundTripAll` | arpc/rpctypes.h:374-414 | The same for the elements of arrays and vectors. |
| `Xdr.WholeWords` | arpc/xdrmisc.h:165-189 | Every encoding is a multiple of four bytes. |
| `Xdr.PrefixFree` | arpc/xdrmisc.h:134-291 | No encoding of a type is the beginning of another. |
| `Xdr.DecodedSound` | arpc/rpctypes.h:374-459 | From any bytes, what is decoded is a value of the type within its bounds, and takes as many bytes as its own encoding. |
| `XdrLayout.LaidOutIff` | arpc/xdrmisc.h:134-291 | Exactly the bytes the codec writes are laid out as RFC 4506 says: words in network byte order, two's complement, lengths before data, zero padding to a multiple of four, elements and fields in order. |
| `XdrLayout.DecodedIff` | arpc/rpctypes.h:374-459 | Decoding returns a value, and what follows it, exactly if the stream starts with its layout, padding of any contents and any word but zero for true or for a pointer set allowed. |
| `XdrLayout.HyperOrder` | arpc/rpctypes.h:438-447 | 64-bit numbers come in the order of their bytes. |
| `XdrStream.Stream.GetInt` | arpc/xdrmisc.h:140-148 | A word is read off the front, or there are fewer than four bytes. |
| `XdrStream.Stream.PutHyper` | arpc/rpctypes.h:438-447 | The high word, then the low one. |
| `XdrStream.Stream.GetHyper` | arpc/rpctypes.h:438-447 | The two words of a 64-bit number, or failure. |
| `XdrStream.Stream.PutPadBytes` | arpc/xdrmisc.h:166-178 | The bytes and zero padding. |
| `XdrStream.Stream.GetPadBytes` | arpc/xdrmisc.h:179-189 | The bytes, and padding of any contents. |
| `XdrStream.Stream.EncodeLeaf` | arpc/xdrmisc.h:189-291 | The leaf types: a null string fails, anything else appends its encoding. |
| `XdrStream.Stream.Encode` | arpc/rpctypes.h:374-459 | Encoding fails exactly for a value with a null string, and otherwise appends the value's encoding. |
| `XdrStream.Stream.EncodeAll` | arpc/rpctypes.h:374-386 | The loop over elements, stopping at the first failure. |
| `XdrStream.Stream.Decode` | arpc/rpctypes.h:374-459 | Decoding into an object gives what the stream says, whatever the object held before. |
| `XdrStream.Stream.DecodeAll` | arpc/rpctypes.h:387-414 | Elements already there are decoded into, the others appended, with the same result. |
| `XdrStream.Stream.DecodeData` | arpc/xdrmisc.h:215-244 | Variable-length data within its bound, or failure. |
| `XdrStream.Stream.DecodeText` | arpc/xdrmisc.h:246-291 | A string within its bound and without NUL, or failure. |
| `StructInline.Stats` | arpcgen/rpc_cout.c:640-656 | One call for each field of a range, in order. |
| `StructInline.Flush` | arpcgen/rpc_cout.c:525-567 | The end of a run: one reservation with the printed size if the run has a vector or reaches the threshold, or one call for each field. |
| `StructInline.Walk` | arpcgen/rpc_cout.c:481-617 | Each branch handles every field once, in declared order; reservations are for whole runs, and no run that pays is left to calls. |
| `StructInline.CanInline` | arpcgen/rpc_cout.c:439-461 | Inlining is worth while exactly with a vector, or a run that reaches the threshold, or exceeds it at the end. |
| `StructInline.EmitStruct` | arpcgen/rpc_cout.c:417-627 | For every struct and threshold the encode, decode and free branches handle every field once and in order; the first two reserve for every run that pays if inlining is worth while at all, and are calls only otherwise. |
| `StructRun.InlineSame` | arpcgen/rpc_cout.c:661-713 | A field put word by word is its XDR encoding. |
| `StructRun.InlinesSame` | arpcgen/rpc_cout.c:556-561 | A run put word by word is the encodings of its fields, four bytes to a word. |
| `StructRun.ReserveIff` | arpcgen/rpc_cout.c:535-549 | Never more is reserved than is used, and as much if and only if the run has a scalar or one vector, or all its vectors but the last are empty. |
| `StructRun.NotExact` | arpcgen/rpc_cout.c:540-543 | Two vectors of two words: 10 bytes are reserved for 16. Two vectors of four words: 20 for 32. |
| `StructRun.PutSame` | arpcgen/rpc_cout.c:473-617 | The encode branch adds the bytes of field-by-field code if and only if the runs it gets reservations for are exact; otherwise it aborts, exactly for a reservation that is no multiple of four, or adds fewer bytes. |
| `StructRun.RunDecoded` | arpcgen/rpc_cout.c:556-561 | A run taken word by word is what its fields decode to. |
| `StructRun.ExactGet` | arpcgen/rpc_cout.c:473-617 | With exact runs the decode branch reads from any stream what field-by-field code reads. |
| `StructRun.ZeroGet` | arpcgen/rpc_cout.c:473-617 | With an inexact run the decode branch leaves more of a long enough stream of zeros than field-by-field code does. |
| `StructRun.GetSame` | arpcgen/rpc_cout.c:473-617 | The decode branch reads from every stream what field-by-field code reads if and only if the runs it gets reservations for are exact. |
| `SExpr.RoundTrip` | agent/sexpr.C:46-158 | Reading what was written returns the object and what follows it. |
| `SExpr.StringBack` | agent/sexpr.C:46-65 | An escaped string is read back. |
| `SExpr.GobGood` | agent/sexpr.C:379-418 | From input without NUL the reader returns only objects that can be written and read back. |
| `SExpr.ReadBackIff` | agent/sexpr.C:206-419 | A writable object is read back if and only if its strings have no NUL, its symbols are lower case and do not start with a digit, and its integers are at most LONG_MAX. |
| `SExpr.NotReadBack` | agent/sexpr.C:28-31 | 2^64 - 1 is written as -1 and read as a symbol; a symbol in upper case is read as another. |
| `SExpr.DecimalShort` | agent/sexpr.C:28-31 | No number but zero is written with a leading zero. |
| `SExpr.AtolWritten` | agent/sexpr.C:306-322 | Digits stand for the number written so, leading zeros aside, and for LONG_MAX beyond it. |
| `SExprSyntax.ReadIff` | agent/sexpr.C:206-418 | The reader returns an object, and what follows it, exactly if the stream starts with a spelling of it: white space and comments, digits, names, quoted strings with backslashes, and lists of these. |
| `SExprSyntax.BlankSkipped` | agent/sexpr.C:324-339 | Every white space character, and every comment to the end of its line, is passed over. |
| `SExprSyntax.SkippedBlank` | agent/sexpr.C:324-339 | Nothing else is passed over, except a last comment that no line end follows. |
| `SExprSyntax.WrittenSpelling` | agent/sexpr.C:15-65 | What is written is on one line, with one space between elements and no other, numbers in decimal and only quotes, backslashes and line ends after a backslash. |
| `SExprReader.Reader.ConsumeWhitespace` | agent/sexpr.C:324-339 | White space and comments are passed over. |
| `SExprReader.Reader.GreadString` | agent/sexpr.C:243-270 | One turn on a string reads on or ends it, as recursive descent would. |
| `SExprReader.Reader.GreadSymbol` | agent/sexpr.C:289-304 | One turn on a symbol reads on or ends it. |
| `SExprReader.Reader.GreadInteger` | agent/sexpr.C:306-322 | One turn on a number reads on or ends it. |
| `SExprReader.Reader.GreadList` | agent/sexpr.C:341-376 | A list takes the result handed to it, and ends or asks for another object. |
| `SExprReader.Reader.GreadGob` | agent/sexpr.C:379-418 | An object starts by its first character. |
| `SExprReader.Reader.GRead` | agent/sexpr.C:206-224 | The explicit-stack reader terminates and returns what recursive descent returns, from every input. |
| `SExprReader.FwriteString` | agent/sexpr.C:46-65 | The loop writes the escaped string up to a NUL. |
| `SExprReader.Fwrite` | agent/sexpr.C:15-65 | Every object that is a proper list is written in its printed form. |
| `SExprReader.Output` | agent/sexpr.C:124-158 | The loop writes the elements between parentheses, and its assertion holds for proper lists. |
| `RetransmitQueue.WaitsSum` | async/backoff.h:90-99 | The waits of the first attempts sum up to the next wait less minto. |
| `RetransmitQueue.DefaultWait` | async/backoff.h:50-50 | 62 seconds by default. |
| `RetransmitQueue.AppendedReady` | async/backoff.h:90-99 | An entry put at the end of a queue keeps it sorted by deadline, and all queues in order. |
| `RetransmitQueue.UnlinkedReady` | async/backoff.h:114-122 | Unlinking an entry keeps all queues in order. |
| `RetransmitQueue.OnTime` | async/backoff.h:67-73 | While no timer is late, no entry waits beyond its deadline. |
| `RetransmitQueue.NoneLost` | async/backoff.h:61-122 | After every history, each time an entry was started or tried again it is still queued, or timed out, or was removed, exactly one of them. |
| `RetransmitQueue.Tmoq.constructor` | async/backoff.h:102-105 | Empty queues without timers. |
| `RetransmitQueue.Tmoq.Tick` | async/backoff.h:75-79 | The passing of time keeps the queues in order with their timers. |
| `RetransmitQueue.Tmoq.SchedQ` | async/backoff.h:67-73 | A queue without a timer gets one for its first deadline, exactly; a timer that is pending stays. |
| `RetransmitQueue.Tmoq.Insert` | async/backoff.h:90-99 | The entry joins exactly one queue, with its deadline, and is transmitted once. |
| `RetransmitQueue.Tmoq.Start` | async/backoff.h:107-107 | A new entry is transmitted at once as attempt 0. |
| `RetransmitQueue.Tmoq.KeepTrying` | async/backoff.h:109-112 | An entry that timed out goes back to the last queue. |
| `RetransmitQueue.Tmoq.Remove` | async/backoff.h:114-122 | The entry leaves its queue; everything else stays. |
| `RetransmitQueue.Tmoq.Cancel` | async/backoff.h:114-122 | An owner's removal: the entry is gone, and nothing else. |
| `RetransmitQueue.Tmoq.Timeout` | async/backoff.h:83-86 | Only an entry transmitted as 0 to maxsend - 1 in order, and given all their waits, times out; its owner is told, and may then keep trying it, start entries and cancel any, as often and in any order. |
| `RetransmitQueue.Tmoq.RunQ` | async/backoff.h:75-88 | Terminates with nothing due; due entries moved to the end of the next queue in order, transmitted once, and no other entry changed; from the last queue they time out in order, each exactly once, except those an owner removed meanwhile. |
| `RetransmitQueue.Tmoq.Tcb` | async/backoff.h:61-65 | The same when a timer fires; then the queue's timer is for its first deadline, or it has none. |
| `Timers.Timecbs.Add` | async/core.C:151-172 | The timer joins the tree in its place; timers of the same time come in any order. |
| `Timers.Timecbs.Remove` | async/core.C:174-186 | The timer leaves the tree, and the pass is told. |
| `Timers.Timecbs.Callback` | async/core.C:193-205 | Any additions and removals by a callback keep the tree in order and the pass's pointer valid or reset. |
| `Timers.Timecbs.RunOne` | async/core.C:193-205 | A timer is taken out before it runs, and never runs again. |
| `Timers.Timecbs.TimecbCheck` | async/core.C:188-206 | Terminates; fires none early or twice, never follows a removed timer, and leaves none that was present and due at the start: those fire in the order of their times, unless a callback removes them. |
| `Timers.SelWaitBound` | async/core.C:207-225 | The select wait is a proper timeval: none with a signal pending, a day without timers, otherwise the time to the earliest deadline, short of it by less than a microsecond. |
| `Timers.Lazycbs.Add` | async/core.C:331-347 | A new callback goes to the head of the list. |
| `Timers.Lazycbs.Remove` | async/core.C:349-354 | The callback leaves the list, and the check is told. |
| `Timers.Lazycbs.FireAt` | async/core.C:362-374 | The callback's next time is set first; after a removal the scan restarts at the head. |
| `Timers.Lazycbs.LazycbCheck` | async/core.C:356-375 | With positive intervals the restarts end; each callback that was due fires once and is put off by its interval, unless a callback removes it, and all others stay as they were. |
| `BitStream.BitsOfGroups` | async/armor.C:63-186 | Digits hold all the bits, with zeros filling up the last. |
| `BitStream.Lossless` | async/armor.C:63-374 | Bits cut into digits of up to eight bits and back into bytes are the same bytes. |
| `BitStream.SameNumber` | async/armor.C:63-186 | The digits spell the number the bytes do, highest first, with zeros for the fill. |
| `Armor.TablesInverse` | async/armor.C:26-54 | Each alphabet's two tables are inverse. |
| `Armor.InAlphabet` | async/armor.C:26-54 | Digits are shown by the alphabet, in its order. |
| `Armor.LegibleIff` | async/armor.C:26-54 | Exactly the characters of the alphabet are legible, each for its place in it. |
| `Armor.Block32` | async/armor.C:72-83 | The unrolled shifts and masks of five bytes give the eight digits of the same bits. |
| `Armor.Unblock32` | async/armor.C:148-162 | The unrolled form of eight characters gives the five bytes of the same bits. |
| `Armor.Block64` | async/armor.C:227-234 | The unrolled form of three bytes gives the four digits of the same bits. |
| `Armor.Unblock64` | async/armor.C:275-283 | The unrolled form of four characters gives the three bytes of the same bits. |
| `Armor.RoundTrip` | async/armor.C:63-374 | For every code and every byte string, reading the armor gives the bytes back. |
| `ArmorText.Length32` | async/armor.C:67-69 | The length allocated for the armor is its length. |
| `ArmorText.Armor32` | async/armor.C:63-120 | The block loop and the short last block equal cutting one bit stream; the final length assertion holds. |
| `ArmorText.ScanLen` | async/armor.C:122-129 | The length of the part that is in the alphabet. |
| `ArmorText.Dearmor32` | async/armor.C:131-186 | Null exactly for a length no byte string has; otherwise the bytes of the legible part, of the allocated length. |
| `ArmorText.Armor64` | async/armor.C:218-257 | The same for base 64, padded with = to fours, or not. |
| `ArmorText.DearmorBlocks64` | async/armor.C:265-296 | The block loop and the last block equal cutting one bit stream; a last block of one character gives a byte of ones more. |
| `ArmorText.StraysIff` | async/armor.C:265-296 | The code looks beyond the terminator or writes beyond what it allocated exactly if the last block has one character and the string ends there or has a legible character in third place. |
| `ArmorText.Dearmor64` | async/armor.C:298-319 | Null exactly if the characters with their padding do not come in fours; otherwise the bytes. |
| `ArmorText.Dearmor64A` | async/armor.C:357-374 | The same without padding, for every string on which the code stays within string and buffer. |
| `ArmorText.ThereAndBack32` | async/armor.C:63-186 | dearmor32 undoes armor32, whatever follows outside the alphabet. |
| `ArmorText.ThereAndBack64` | async/armor.C:218-320 | dearmor64 undoes armor64, whatever follows. |
| `ArmorText.ThereAndBack64A` | async/armor.C:352-374 | dearmor64A undoes armor64A, whatever follows. |

## Left out

- RexInvariants.StepInv: `rexsess` is modelled on values, one step for each callback; update in place, aliasing of sessions and requests, and the table of sessions are not captured. Connecting and remote calls do not call back before they return; `rexsession::resume` may, and then the session ends, while the code goes on to assign to a field of the session it has deleted.
- RexTheorems.DeathAnswersAll: says nothing of requests dropped by `kill_rexsess`, or of keepalives waiting when a session is reaped, because the code drops those.
- ResumeTheorems.AtMostOnce: no statement for calls the service rejects or ignores, because those leave the table and may be executed again.
- Framing.AssertionIff: reads and pauses in any order, but no `ungetpkt`, which adds bytes the sender did not send at that place.
- StructRun.PutSame: words stored beyond a reservation are taken to be lost; what else they may overwrite is not modelled.
- StructInline.EmitStruct: operations instead of C text; the types of the generator's list all take one word, so its other size format is not modelled.
- ArmorText.Dearmor32: strings whose length is given explicitly may hold characters outside the alphabet, which the code decodes to garbage; only the form that finds the length itself is modelled.
- ArmorText.DearmorBlocks64: says nothing of the strings for which the code leaves string or buffer; `ArmorText.StraysIff` says which they are.
- RetransmitQueue.Tmoq.Remove: queues are sequences; the intrusive links, and the stale queue number of a removed entry, are not modelled.
- SExprReader.Reader.GreadList: the list being read is a sequence of elements; linking pairs through `elmstail` is not modelled.
- FreeMap.Bbfree.FindBit: words are sequences of bits; the `int` argument of `ffs` and 32-bit shifts are not modelled.
- Floating point, unions, enumerations and recursive XDR types; values of generated union code.
- `ginteger::cmp`, which truncates a difference to `int`; objects are compared as values, symbols by name.
- Message parsing and authentication of RPC headers, `asrv` statistics and tracing, timeouts of calls other than as cancellation, unreliable clients.
- Sockets, select, processes, signals, descriptor passing and asynchronous I/O: streams are byte sequences and callbacks are events.
- Cryptography, key management, user interfaces, and all commands: nothing in them rests on the parts modelled.
- Object lifetime and reference counting; containers (`suio`, `ihash`, `itree`, `list`, `vec`) are sequences, maps and sets.
- `async/cbuf`, `async/arena.h`, `async/amisc.h`, `async/callback.h`: they would only add easy members.
- rpcgen's scanner, preprocessor and header output: text input and output.
