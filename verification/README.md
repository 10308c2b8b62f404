# libmixp: verified model

libmixp is a client and server library for 9P2000, the file protocol of section 5 of the Plan 9
Programmer's Manual. This project models its protocol cores in Dafny and proves what each of them is
for. `dafny verify dfyconfig.toml` checks everything.

The four cores:

- **Client RPC multiplexer** (`libmixp/rpc.c`). Any number of threads call `muxrpc` over one connection;
  one of them at a time receives for all. `Mux` is the transition system whose steps are the regions of
  code holding `lk`, plus the sends, the receives and the answers of a server that may answer in any order;
  `MuxProof` shows that every step keeps its invariant, and `MuxTheorems` draws the consequences for its
  runs: routing, no lost wake-up, no stranded tag waiter, no deadlock, a bound on the number of steps. `MuxRuns`
  has the runs on which the code fails, and `MuxHarm` what these failures cost from any state.
  `TagTable` is the tag table as a value. `MuxTable` is the same table as an array that is scanned and
  reallocated, and the sleep queue as a circular doubly linked list, proved against `TagTable` and against
  plain sequences.
- **Fids and requests, both ends** (`libmixp/request.c`, `libmixp/client.c`, `libmixp/intmap.c`). `Fids` says
  what one request does to the server's fid table; `Requests` is the server as a state machine with pending
  requests and flushes; `RequestRuns` proves what every run keeps; `ServerReplies` says, by the numbers of
  the protocol, which requests reach their handlers and what each answer leaves; `ServerConn` is the connection object that
  changes in place. `ClientFids` is the client's fid allocator, `FidProtocol` puts both ends together under
  every interleaving, with the requests that each call of the client sends, and `IntMap` is the chained hash map under the server's tables.
- **Wire codec and framing** (`libmixp/convert.c`, `libmixp/message.c`, `libmixp/transport.c`). `Wire` and
  `Layout` define the format on byte sequences, and `Places` says where the bytes of each field lie; `Codec`, `Message` and `Stat` are the routines that pack and
  unpack in place over a cursor; `Transport` sends and receives whole messages over short and interrupted
  reads and writes.
- **Chunked reading and writing, and paths** (`libmixp/client.c`, `libmixp/util.c`): `ClientIo` and `Tokenize`.

Where the state of the source changes in place there is a class or an array, and the methods are proved
against functions on values; the main results are lemmas about those functions.

## Where the code departs from its documentation or its intent

The model follows the code. Where a property is false of it, a lemma says exactly when it holds.

- A send that fails after the rpc was elected muxer does not hand the role on (`libmixp/rpc.c:78-85`):
  `MuxTheorems.SendFailureExact`, a run of three threads in `MuxRuns.SendFailureStrands`, and in
  `MuxHarm.SendFailureStrandsAll` what follows every time.
- A reply that does not unpack makes the muxer give up on its own call, whosever reply it was; the stream goes on,
  and the muxer's own reply then arrives under a tag that somebody else may have (`libmixp/rpc.c:97-107`,
  `libmixp/rpc.c:174-187`): `MuxTheorems.GiveUpExact`, a run that misroutes in `MuxRuns.GiveUpMisroutes`, and
  in `MuxHarm.GiveUpSilences` what follows every time.
- The 64-bit load shifts the top byte by 52 and sign extends the fourth (`libmixp/convert.c:249-256`):
  `Wire.Load64Exact`.
- Rclunk carries a fid, which clunk(5) does not have (`libmixp/message.c:251-254`): `Layout.Fields` against
  `Layout.Intro5`.
- A message exactly as large as the receiver's buffer is rejected (`libmixp/transport.c:99`):
  `Transport.PackedIsFramable`.
- The walk of deletekey does not advance (`libmixp/intmap.c:225-242`): `IntMap.DeleteReturnsExactly`. The sweep of
  fids at the end of a connection may therefore not end, when a fid of 2^31 or more comes before others in its
  bucket: `IntMap.SweepEndsExactly`.
- A flush of itself, or a cycle of flushes, is followed forever (`libmixp/request.c:454-457`):
  `RequestRuns.FlushEndsExactly`.
- The refusal of a duplicate tag deletes the tag of the request that has it (`libmixp/request.c:168-172`):
  `RequestRuns.DuplicateTagLosesRequest`.
- createfid takes an int, and the map sign extends it, so that a fid of 2^31 or more is entered where no request
  looks for it (`libmixp/request.c:81-92`): `Fids.AttachedFoundExact`, `ServerConn.Conn.VoidFid`.
- A fid opened with mode 255 counts as not open, and one opened with OWRITE|OTRUNC may be read
  (`libmixp/request.c:290-299`): `Fids.OpenExact`, `Fids.ReadOfWriteOnly`.
- Where the server has no remove function, Tremove fails and drops the fid (`libmixp/request.c:305-313`,
  `libmixp/request.c:445-448`): `ServerReplies.NoFunction`.
- A request, once allocated, keeps its reference to the connection (`libmixp/request.c:130-144`), and so does a fid
  that could not be made (`libmixp/request.c:86-95`): the exact count is in `ServerConn.Conn.Cleanup`.
- A msize below 16 makes the server offer an iounit of nearly 2^32, which the client takes for a negative
  number (`libmixp/request.c:418`, `libmixp/client.c:326-343`): `Fids.NegotiatedExact`, `ClientIo.UnitOfServer`.
- A full chunk of a write does not fit the largest message (`libmixp/client.c:326`, `libmixp/client.c:532`):
  `ClientIo.WriteFits`.
- Writes ignore the offset they are given, do not notice short writes and advance the offset twice
  (`libmixp/client.c:535-547`, `libmixp/client.c:564-566`): `ClientIo.PwriteExact`, `ClientIo.WritesExact`.
- When a path has as many components as the result array holds, or more, the last result runs to the end of the
  path (`libmixp/util.c:59-66`): `Tokenize.LastExact`.

## Model

| member | source | states |
|---|---|---|
| `MuxTheorems.Routing` | libmixp/rpc.c:62-191 | In every run in which sends fail only for rpcs that are not muxer and only the muxer's own reply fails to unpack: each muxrpc that returned a reply returned the reply to its own call although tags are reused; no call returned twice; without a failed send, a reply that does not unpack, or the end of the stream none returned NULL. |
| `MuxTheorems.NoLostWakeup` | libmixp/rpc.c:136-187 | Whoever sleeps on its own rendezvous has no reply, and another rpc, queued, unanswered and awake, is muxer. |
| `MuxTheorems.MultiplexerSafe` | libmixp/rpc.c:109-209 | No assert fails, abort() is not reached, at most one thread is in muxrecv, the queue holds exactly the live unanswered rpcs once each, and distinct rpcs have distinct tags below twice the range. |
| `MuxTheorems.TagWaiters` | libmixp/rpc.c:211-270 | While somebody sleeps on tagrend the free tags are at most the woken waiters still to run, so a free tag has one, although puttag wakes only one and newcomers may be first. |
| `MuxTheorems.NoDeadlock` | libmixp/rpc.c:152-191 | In such runs, while any thread is in muxrpc some thread or the server can take a step that is no new call, spurious wake-up or failure. |
| `MuxTheorems.QuiescentMeansAllReturned` | libmixp/rpc.c:152-191 | When no such step is left in such a run every call has returned. |
| `MuxTheorems.PotentialFalls` | libmixp/rpc.c:62-270 | Every step other than a new call or a spurious wake-up lowers a potential. |
| `MuxTheorems.StepsBounded` | libmixp/rpc.c:62-270 | Without new calls and spurious wake-ups a run takes at most as many steps as the potential at its start. |
| `MuxTheorems.SendFailureExact` | libmixp/rpc.c:77-88 | The failure branch of sendrpc keeps the invariant exactly when the rpc was not elected muxer before. |
| `MuxTheorems.GiveUpExact` | libmixp/rpc.c:174-187 | Giving up on a reply that does not unpack keeps the invariant exactly when it was the reply to the muxer's own call. |
| `MuxRuns.GiveUpMisroutes` | libmixp/rpc.c:97-187 | A reachable state in which the reply to a sleeper does not unpack, and the steps by which another thread then returns with the reply to the call given up, and the sleeper receives for ever. |
| `MuxRuns.SendFailureStrands` | libmixp/rpc.c:77-88 | A reachable state after which a failed send leaves a sleeper with a muxer that is gone, and no step for it. |
| `MuxHarm.SendFailureStrandsAll` | libmixp/rpc.c:77-187 | From any state, when the send of an rpc that was elected muxer fails, every thread that has sent its request waits without a reply in every continuation in which that rpc's thread does not call again. |
| `MuxHarm.GiveUpSilences` | libmixp/rpc.c:97-187 | From any state, when the muxer gives up on the reply to another's call, that call returns no reply in any continuation. |
| `MuxTheorems.RunKeepsInv` | libmixp/rpc.c:62-270 | The invariant holds in every state of every such run. |
| `MuxProof.InitInv` | libmixp/rpc.c:24-34 | It holds after muxinit. |
| `MuxProof.StepKeeps` | libmixp/rpc.c:62-270 | Every step keeps it. |
| `MuxProof.CallKeeps` | libmixp/rpc.c:70-75 | Entering sendrpc: gettag and enqueue keep it. |
| `MuxProof.GetTagKeeps` | libmixp/rpc.c:217-256 | The loop of gettag run by a waiter woken from tagrend keeps it. |
| `MuxProof.SendFailKeeps` | libmixp/rpc.c:78-85 | A failed send of an rpc that is not muxer keeps it. |
| `MuxProof.EnterKeeps` | libmixp/rpc.c:162-173 | The wait loop of muxrpc and taking the role keep it. |
| `MuxProof.DispatchKeeps` | libmixp/rpc.c:109-134 | Handing a reply out, and for one's own electing a successor and leaving, keep it. |
| `MuxProof.ReceiveEofKeeps` | libmixp/rpc.c:174-187 | Giving up at the end of the stream hands the role on and keeps it. |
| `MuxProof.GiveUpKeeps` | libmixp/rpc.c:174-187 | So does giving up on one's own reply when it does not unpack, after which the stream goes on. |
| `MuxProof.ElectWaiters` | libmixp/rpc.c:136-150 | Electing and waking a muxer does not change the balance of tag waiters. |
| `TagTable.TakeTagCorrect` | libmixp/rpc.c:211-256 | gettag on a valid table sleeps exactly when it is full and may not grow, never reaches abort(), and otherwise hands out a slot that was free, changing no other; the table stays valid: nwait counts the occupied slots, the size is 0 or a power of two below twice the range. |
| `TagTable.FreeTagCorrect` | libmixp/rpc.c:258-270 | puttag frees one occupied slot and keeps the table valid. |
| `TagTable.GrowValid` | libmixp/rpc.c:220-233 | Doubling keeps every entry, adds free ones and keeps the bound on the size. |
| `TagTable.MountTags` | libmixp/client.c:142-168 | The version call gets NOTAG; later tags lie in 0..255. |
| `MuxTable.Client.Grow` | libmixp/rpc.c:220-233 | The reallocated array is the grown table. |
| `MuxTable.Client.ScanFree` | libmixp/rpc.c:238-246 | The scan from freetag and round again finds the slot that the table function names, or none. |
| `MuxTable.Client.GetTag` | libmixp/rpc.c:211-256 | One pass of gettag on the array: the table becomes that of TakeTag and the rpc's tag is mintag plus its slot, or nothing changes and the caller is to sleep. |
| `MuxTable.Client.PutTag` | libmixp/rpc.c:258-270 | The table becomes that of FreeTag. |
| `MuxTable.Client.Enqueue` | libmixp/rpc.c:193-200 | The circular list stays well formed and its contents become r followed by the old contents. |
| `MuxTable.Client.Dequeue` | libmixp/rpc.c:202-209 | It stays well formed without r, whose links are NULL. |
| `MuxTable.Client.ElectMuxer` | libmixp/rpc.c:136-150 | The loop ends with the first queued rpc that is not asynchronous, or NULL; when none is, with the first of the queue. |
| `IntMap.IntMap.Lookup` | libmixp/intmap.c:80-93 | The lookup in the chain is that of the abstract map. |
| `IntMap.IntMap.CanInsert` | libmixp/intmap.c:155-178 | Inserts exactly when the key is absent; chains keep unique keys that hash to their bucket. |
| `IntMap.IntMap.Delete` | libmixp/intmap.c:188-244 | With the walk advanced, removes exactly one key and returns its value, or none. |
| `IntMap.IntMap.DeleteAsWritten` | libmixp/intmap.c:188-244 | The loop as written, given some iterations: it finishes exactly on the buckets of Returns, and then has removed the key and nothing else. |
| `IntMap.DeleteReturnsExactly` | libmixp/intmap.c:188-244 | As written delete returns exactly when the bucket is empty, the key is at its head, it has one element, or two with the key second. |
| `IntMap.DeleteSecondOfThreeHangs` | libmixp/intmap.c:225-242 | A bucket of three on which deleting the second never returns. |
| `IntMap.IntMap.Sweep` | libmixp/intmap.c:58-78 | exec with voidfid, whose fid goes through 32 bits, and delete as written: it ends exactly when every bucket's sweep does, and then every key below 2^31 was deleted once and only the others are left. |
| `IntMap.SweepEndsExactly` | libmixp/intmap.c:58-78 | The sweep of a bucket ends exactly when its keys below 2^31 come first, or its one other key is the last but one; so always when all are below 2^31. |
| `IntMap.SweepHangs` | libmixp/intmap.c:58-78 | A bucket of three on which it does not end. |
| `Fids.WalkExact` | libmixp/request.c:327-353 | Of a walk answered at once: newfid comes to exist exactly on a full walk, unopened, with the last qid or on a clone the source's; a partial or failed walk leaves the table unchanged. |
| `Fids.WalkReply` | libmixp/request.c:428-441 | The reply shows a full walk exactly when the walk was full; a partial one is not an error and has between 1 and nwname-1 qids. |
| `Fids.ClunkDrops` | libmixp/request.c:445-453 | Answered at once, clunk and remove drop a known fid whatever the handler says, and no other. |
| `Fids.FailureChangesNothing` | libmixp/request.c:373-453 | Answered at once, any other request that fails leaves the table as it was. |
| `Fids.ServedKeys` | libmixp/request.c:186-453 | Which fids a request answered at once adds and removes. |
| `Fids.OpenExact` | libmixp/request.c:255-427 | A successful open or create gives the fid its mode and qid and changes no other fid; it counts as not open only for mode 255; write passes its check for the modes 1 and 2 modulo 4, read for all but 1 and 255, walk for 255 only. |
| `Fids.ReadOfWriteOnly` | libmixp/request.c:290-299 | A fid opened with OWRITE and OTRUNC passes the check of read, one opened with OWRITE does not. |
| `Fids.AttachedFoundExact` | libmixp/request.c:81-92 | An attached fid is unopened at the handler's file; it can be used exactly when it is below 2^31. |
| `Fids.NegotiatedExact` | libmixp/request.c:385-427 | The size settled is what was asked for from 1 to 8192, and 8192 otherwise; the iounit offered is 16 less, and nearly 2^32 when 0 < msize < 16. |
| `RequestRuns.PendingAccounting` | libmixp/request.c:146-184 | For clients that use fresh tags and obey flush(5), tagmap is exactly the admitted unanswered requests, each reply answers one of them under its tag with Rerror or the reply that intro(5) pairs with it, and a flush is answered after what it flushes. |
| `RequestRuns.AtMostOneReply` | libmixp/request.c:373-481 | Between two replies with one tag the tag was admitted again. |
| `RequestRuns.TableOfRun` | libmixp/request.c:81-112 | After any run, handlers pending or not, the fid table is the one the log makes: created by attach and walk, placed by successful attaches, full walks, opens and creates, dropped by clunks, removes, failed attaches and walks that are not full. |
| `RequestRuns.AnsweredTable` | libmixp/request.c:373-453 | What an answer logs changes the table as the answer does. |
| `RequestRuns.AccessGranted` | libmixp/request.c:290-367 | srv->write is reached only for a fid whose latest successful open or create granted write, srv->read only if that was not mode 1 or 255. |
| `RequestRuns.RunKeepsInv` | libmixp/request.c:146-481 | The server's invariant holds after every run within what it relies on. |
| `RequestRuns.AnswerKeeps` | libmixp/request.c:373-481 | mixp_respond with its recursion through flushes keeps the invariant, answers its request, and none admitted later. |
| `RequestRuns.ReceiveKeeps` | libmixp/request.c:146-371 | Receiving, refusing or handling a request keeps the invariant. |
| `RequestRuns.OneAtATime` | libmixp/request.c:146-481 | A client with one request at a time, which attaches only new fids and does not flush its own flush, keeps to what the server relies on, whatever else it asks for. |
| `RequestRuns.FlushEndsExactly` | libmixp/request.c:454-457 | As written the recursion ends exactly when following oldtag meets no cycle, and then it answers the chain of flushed requests. |
| `RequestRuns.FlushEnds` | libmixp/request.c:454-457 | It ends in every run within flush(5), by order of admission. |
| `RequestRuns.SelfFlushNeverEnds` | libmixp/request.c:454-457 | A flush of itself recurses for ever. |
| `RequestRuns.DuplicateTagLosesRequest` | libmixp/request.c:168-172 | After the refusal of a duplicate tag the request that had it is not pending, and its own answer is a second reply. |
| `ServerReplies.WalkTaken` | libmixp/request.c:327-353 | The walk function is called exactly for a fid that exists and is not open, of names only when it is a directory, with a newfid that is the fid itself or not in use; newfid is then there, unopened. Otherwise Rerror, with the error of the first check that fails, and nothing else happens. |
| `ServerReplies.CreateTaken` | libmixp/request.c:255-273 | The create function is called exactly for a fid that exists, is not open and is a directory; the error otherwise. |
| `ServerReplies.OpenTaken` | libmixp/request.c:274-289 | The open function exactly for a file, or a directory with mode 0 or 64; the error otherwise. |
| `ServerReplies.ReadTaken` | libmixp/request.c:290-303 | The read function exactly for a fid whose mode is neither -1 nor 1; the error otherwise. |
| `ServerReplies.WriteTaken` | libmixp/request.c:354-367 | The write function exactly for a fid whose mode is 1 or 2 modulo 4; the error otherwise. |
| `ServerReplies.PlainTaken` | libmixp/request.c:233-326 | The stat, clunk and remove functions exactly for a fid that exists; the error otherwise. |
| `ServerReplies.AttachTaken` | libmixp/request.c:224-232 | The attach function exactly for a fid that is not in use; the error otherwise. |
| `ServerReplies.FlushTaken` | libmixp/request.c:244-254 | The flush function exactly when the request it names is pending, which it counts as itself; the error otherwise. |
| `ServerReplies.OtherTaken` | libmixp/request.c:202-205 | Requests of other types are refused. |
| `ServerReplies.NoFunction` | libmixp/request.c:233-366 | Where srv has no function a clunk succeeds and drops its fid, a remove fails and drops it, the rest fails and changes nothing. |
| `ServerReplies.VersionAnswered` | libmixp/request.c:205-223 | A version is answered with type 101 and changes no fid. |
| `ServerReplies.AtOnce` | libmixp/request.c:186-371 | A handler that answers at once does what it would do answering later with nothing in between. |
| `ServerReplies.ServedAtOnce` | libmixp/request.c:373-481 | For a request that is accepted and answered at once the last event is its reply, of type T+1 or 107, with the handler's own error or Nofile for a walk that got nowhere, and the table is that of Served. |
| `ServerReplies.AttachAnswered` | libmixp/request.c:404-409 | A pending attach that is answered: 105 and the handler's qid, or 107, the error, and no fid. |
| `ServerReplies.WalkAnswered` | libmixp/request.c:428-441 | A walk: 111 and newfid at the last qid or the source's, when full; 111 and no newfid when partial; 107 with Nofile and no newfid when none of its components was walked; 107 with the handler's error and no newfid. |
| `ServerReplies.OpenAnswered` | libmixp/request.c:410-427 | An open or create: 113 or 115, and the fid has the mode as a signed byte and the handler's qid; or 107 and the table as it was. |
| `ServerReplies.DataAnswered` | libmixp/request.c:442-461 | A read, write or stat: 117, 119, 125 or 107 with the handler's error, and the table as it was. |
| `ServerReplies.DropAnswered` | libmixp/request.c:445-453 | A clunk or remove: 121, 123 or 107, and the fid is gone in any case. |
| `ServerReplies.FlushAnswered` | libmixp/request.c:454-457 | A flush: first the pending request it names is answered with 107 and Intr, then the flush with 109 or 107; nothing else changes. |
| `ServerReplies.FlushWithout` | libmixp/request.c:249-252 | Without a flush function the flush fails, and flushes all the same. |
| `ServerReplies.DuplicateRefused` | libmixp/request.c:168-172 | A request under a tag in use gets 107 with Duptag; if it is a flush it flushes all the same. |
| `ServerConn.Conn.HandleFcall` | libmixp/request.c:146-184 | Updates tagmap, fidmap and the reference count as the state machine says, for fresh and duplicate tags; how many references are kept for good. |
| `ServerConn.Conn.HandleReq` | libmixp/request.c:186-371 | The switch, from lookup to handler, refuses, or makes the fids and answers now or later, as the state machine does for a request just admitted. |
| `ServerConn.Conn.Enter` | libmixp/request.c:217-366 | The checks, in the code's order, refuse as the table of refusals says, and make the fids of an accepted request. |
| `ServerConn.Conn.Respond` | libmixp/request.c:373-481 | The state becomes that of Answer, which answers the whole chain of flushed requests, innermost first; references stay counted. |
| `ServerConn.Conn.Settle` | libmixp/request.c:378-461 | The cases of the switch leave the fid table, the reply's error and the buffer size as specified. |
| `ServerConn.Conn.SetSize` | libmixp/request.c:385-403 | The size of the buffers after a version. |
| `ServerConn.Conn.CreateFid` | libmixp/request.c:81-96 | A new unopened fid, or nothing when it exists; a reference is taken either way. |
| `ServerConn.Conn.DestroyFid` | libmixp/request.c:98-112 | One fid goes; the connection is not freed by it. |
| `ServerConn.Conn.VoidFid` | libmixp/request.c:512-524 | The server's own clunk destroys the fid exactly when it is below 2^31. |
| `ServerConn.Conn.Cleanup` | libmixp/request.c:526-537 | Over the hash map of fids, swept by IntMap.Sweep with delete as written: it ends exactly when every bucket's sweep does; then every fid below 2^31 was destroyed once, and the connection is freed exactly when no reference was kept and there was no fid. |
| `ClientFids.AlwaysExact` | libmixp/client.c:39-74 | After any sequence of getfid and putfid of live fids, live and free fids are disjoint and together RootFid+1..lastfid. |
| `ClientFids.NeverTwice` | libmixp/client.c:39-57 | getfid never hands out a live fid, nor RootFid. |
| `ClientFids.GetExact` | libmixp/client.c:39-57 | One getfid keeps that. |
| `ClientFids.PutExact` | libmixp/client.c:59-74 | One putfid of a live fid keeps that, also for the last one, which is destroyed. |
| `ClientFids.Client.GetFid` | libmixp/client.c:39-57 | Relinks the free list or makes a fid object; the numbers change as in Get. |
| `ClientFids.Client.PutFid` | libmixp/client.c:59-74 | The numbers change as in Put; the object becomes the head of the free list or is dropped. |
| `FidProtocol.ClientAndServerAgree` | libmixp/client.c:213-451 | In every interleaving the server's fids are RootFid and live fids of the client, exactly those that the client's calls have made and not clunked or removed; RootFid stays, unopened; no request is refused because a fid exists or does not, or because RootFid is open. |
| `FidProtocol.AlwaysAgree` | libmixp/client.c:213-451 | The invariant behind it holds after every run. |
| `FidProtocol.RefusedOnlyForFile` | libmixp/request.c:224-366 | The server's checks of the client's requests fail only for the kind or mode of the file. |
| `FidProtocol.StrayAgrees` | libmixp/client.c:411-414 | A read or write that arrives after another thread's close, which takes no iolock, changes no fid: the agreement stays. |
| `FidProtocol.StrayRefusedExact` | libmixp/request.c:290-303 | It is refused for a missing fid exactly when the fid is not live, or lost, or not yet or no more at the server. |
| `FidProtocol.ReusedAtOnce` | libmixp/client.c:39-74 | Otherwise it reaches the fid's new file: a fid put back is the next handed out, except the last while others are free. |
| `FidProtocol.RequestsAreApart` | libmixp/client.c:213-451 | Of two requests under way neither names a fid the other makes or drops, as the server relies on. |
| `FidProtocol.CallsReturnProperly` | libmixp/client.c:213-569 | In every run, each call that has returned sent the requests it should, in order, with the answers that its result says: open and create keep the fid exactly when Topen or Tcreate of it, with the mode asked for, was granted, and clunk it when it was refused; remove succeeds exactly with an answered Tremove of its fid; stat clunks in any case; close, read and write send Tclunk, Tread and Twrite of the fid; a fid is put back after a failed walk or an answered clunk or remove, and lost after a refused one. |
| `FidProtocol.CallsProceedProperly` | libmixp/client.c:213-569 | The request under way of every call is the one that is due after those answered. |
| `FidProtocol.OpenedAgrees` | libmixp/client.c:346-409 | In every run, a fid that is open for the client has at the server the mode and the qid of the open or create that opened it, and since then there were only reads and writes of it. |
| `FidProtocol.FirstOpen` | libmixp/client.c:381-409 | The first open for reading, step by step: granted by the handler, the fid is open at both ends with its mode and qid; refused, Tclunk of it is the next request. |
| `FidProtocol.WalkAgrees` | libmixp/client.c:213-231 | Starting a walk on a new fid keeps the invariant. |
| `FidProtocol.ReceiveAgrees` | libmixp/request.c:186-371 | So does the server's receiving a request. |
| `FidProtocol.AnswerAgrees` | libmixp/request.c:373-453 | So does its answer, successful, partial or failed. |
| `FidProtocol.ResumeAgrees` | libmixp/client.c:230-409 | So does what the call does with its reply, type and number of qids checked: go on, put the fid back, keep it open, or leave it live after a failed clunk or remove. |
| `Wire.Load64Exact` | libmixp/convert.c:241-273 | Load inverts store exactly below 2^56 with bit 31 clear. |
| `Wire.Load64Value` | libmixp/convert.c:241-273 | What loading any stored value gives. |
| `Wire.Load32` | libmixp/convert.c:216-239 | The 32-bit load inverts the store. |
| `Wire.SentExact` | libmixp/convert.c:346-363 | A string is sent whole exactly when it has no NUL and is shorter than 65536 bytes. |
| `Wire.CanonExact` | libmixp/convert.c:83-439 | A field survives the wire exactly when it is clean. |
| `Wire.ParseBack` | libmixp/convert.c:83-439 | Parsing an encoded field, whatever follows, gives the field up to that and the rest. |
| `Wire.ParseAllBack` | libmixp/convert.c:83-439 | The same for a list of fields. |
| `Places.Digits16` | libmixp/convert.c:178-197 | Byte i of a 16-bit value on the wire is v / 256^i % 256. |
| `Places.Digits32` | libmixp/convert.c:104-132 | The same for 32 bits. |
| `Places.Digits64` | libmixp/convert.c:134-176 | The same for 64 bits. |
| `Places.CountsExact` | libmixp/convert.c:365-439 | Counted names and qids are refused exactly when there are more than 16 or the bytes do not hold them. |
| `Places.PackedList` | libmixp/convert.c:83-439 | In an encoded list every field lies where the one before it ends, with its bytes least significant first, and the list ends where its last field does. |
| `Places.ParsedList` | libmixp/convert.c:83-439 | The same of the fields parsed from any bytes, with what the 64-bit load makes of them. |
| `Layout.MessageBack` | libmixp/message.c:132-317 | Unpacking a packed message of any type, whatever follows it, gives its type, tag, fields and size. |
| `Layout.RoundTripExact` | libmixp/message.c:132-317 | The fields are the same exactly when strings are NUL-free and short, sizes fit 32 bits and 64-bit fields are in the load's domain. |
| `Layout.HeaderBack` | libmixp/message.c:283-304 | The size prefix is the size, and type and tag are where they are looked for. |
| `Layout.HeaderBytes` | libmixp/message.c:283-304 | The seven bytes of the header: those of the size, the type, and those of the tag, least significant first. |
| `Layout.EncAllFails` | libmixp/convert.c:365-439 | Packing fails whatever the buffer exactly when there are more than 16 names or qids. |
| `Codec.Message.Store16` | libmixp/convert.c:178-197 | When they fit, byte i behind the cursor becomes v / 256^i % 256 for the two bytes, and nothing else changes; otherwise nothing does; the cursor moves on. |
| `Codec.Message.Store32` | libmixp/convert.c:104-132 | The same for four bytes. |
| `Codec.Message.Store64` | libmixp/convert.c:134-176 | The same for eight. |
| `Codec.Message.Load16` | libmixp/convert.c:275-294 | The first byte plus 256 times the second when two bytes are there, 0 otherwise, and the cursor moves on. |
| `Codec.Message.Load32` | libmixp/convert.c:216-239 | The same for four, each 256 times the one before. |
| `Codec.Message.Load64` | libmixp/convert.c:241-273 | For eight, the fourth signed and the last 2^52, modulo 2^64. |
| `Codec.Message.PString` | libmixp/convert.c:346-363 | One routine packs or unpacks a string as specified, in either direction; past the end it stays there and touches nothing. |
| `Codec.Message.PStrings` | libmixp/convert.c:365-406 | The two passes unpack exactly the counted strings, or the cursor ends past the end. |
| `Codec.Message.PQids` | libmixp/convert.c:427-439 | The same for counted qids. |
| `Codec.Message.PData32` | libmixp/convert.c:408-418 | The same for counted data. |
| `Codec.DidThen` | libmixp/convert.c:83-439 | Sticky overflow: fields one after the other end within the buffer exactly when all of them do, and then their encodings are concatenated. |
| `Message.PFcall` | libmixp/message.c:132-281 | The switch packs or unpacks exactly the fields of the type. |
| `Message.Fcall.ValsLayout` | libmixp/message.c:132-281 | The fields of every type have the kinds of its layout in intro(5), Rclunk apart, in order. |
| `Message.Fcall.PackedPlaces` | libmixp/message.c:132-304 | Which member of the structure stands at which byte of a packed message of each of the types 100 to 126, and where the message ends. |
| `Message.Fcall.UnpackedPlaces` | libmixp/message.c:132-317 | The same of the members unpacked from any bytes. |
| `Message.Fcall2Msg` | libmixp/message.c:283-304 | 0 exactly when more than 16 names or qids are given or the message exceeds the buffer; otherwise the buffer starts with the whole message, every member at its place. |
| `Message.Msg2Fcall` | libmixp/message.c:306-317 | 0 exactly when the declared fields run past the data or a count is over 16; otherwise the fields, every member from its place, and the bytes used. |
| `Stat.SizeofExact` | libmixp/message.c:73-85 | mixp_stat_sizeof is the number of bytes mixp_pstat writes exactly when every string is shorter than 65536. |
| `Stat.EncLength` | libmixp/convert.c:441-465 | How many bytes mixp_pstat writes. |
| `Stat.PStat` | libmixp/convert.c:441-465 | Packs the computed size and the fields, or unpacks them. |
| `Stat.PackedRecord` | libmixp/convert.c:441-465 | Which member of a stat stands at which byte of a packed record; its first two bytes count what follows them. |
| `Stat.UnpackedRecord` | libmixp/convert.c:441-465 | The same of a record unpacked from any bytes. |
| `Stat.Next` | cmd/ixpc.c:286-293 | One record off the listing, each member from its place. |
| `Stat.ListingBack` | cmd/ixpc.c:284-293 | Unpacking a concatenation of packed records gives the list back. |
| `Stat.ParseAllShrinks` | cmd/ixpc.c:286-293 | Every record takes bytes, so the loop ends. |
| `Stat.List` | cmd/ixpc.c:284-293 | The loop yields the complete records in order, and one more exactly when the data is cut off inside one. |
| `Transport.SendMsg` | libmixp/transport.c:56-82 | All of the message goes out whatever the short writes and interruptions. |
| `Transport.ReadN` | libmixp/transport.c:37-54 | As many bytes as asked for, or as there are before the end of file. |
| `Transport.RecvMsg` | libmixp/transport.c:84-120 | The next message and nothing after it; fails exactly when the prefix is cut off, below 4 or not below the buffer size, or the message is cut off. |
| `Transport.FramingExact` | libmixp/transport.c:56-120 | A stream that is the concatenation of framable messages is received as these messages. |
| `Transport.SendAll` | libmixp/transport.c:56-82 | Messages sent one after the other make that concatenation, under any script. |
| `Transport.ReceiveAll` | libmixp/transport.c:84-120 | Receiving until it fails yields the frames of the stream, under any script. |
| `Transport.Relay` | libmixp/transport.c:19-120 | Whatever the two scripts, the list sent is the list received. |
| `Transport.Exchange` | libmixp/transport.c:19-120 | The same with both ends at work on one stream, whatever the turns and the script. |
| `Transport.PackedIsFramable` | libmixp/transport.c:99 | A packed message can be received exactly when it is smaller than the buffer. |
| `Transport.WireRoundTrip` | libmixp/transport.c:84-120 | Packed, sent, received and unpacked, a message is what it was, and what follows it is untouched. |
| `ClientIo.UnitExact` | libmixp/client.c:319-344 | The iounit that initfid leaves: the server's from 1 to 8175, 4096 for 0, 8175 for more, and a number of nearly 2^64 for 2^31 and more. |
| `ClientIo.UnitOfServer` | libmixp/client.c:319-344 | With libmixp's server that fails exactly for 0 < msize < 16. |
| `ClientIo.Cfid.InitFid` | libmixp/client.c:319-344 | The fid is open at offset 0 with that iounit. |
| `ClientIo.ReadIsSlice` | libmixp/client.c:453-499 | From a server that reads short only at the end of the file, the chunks are file[offset..min(offset+count,size)] whatever the iounit. |
| `ClientIo.FailsExactly` | libmixp/client.c:473-483 | For any server, a read fails exactly when after full replies one is an error or longer than asked. |
| `ClientIo.Cfid.Pread` | libmixp/client.c:453-499 | -1, or the bytes of the chunks at the front of the buffer, the rest of which is unchanged. |
| `ClientIo.Cfid.Read` | libmixp/client.c:501-511 | The same from the fid's offset, which moves by what was read. |
| `ClientIo.SuccessiveReads` | libmixp/client.c:501-511 | Successive calls deliver one contiguous read and stop at the end of the file. |
| `ClientIo.Cfid.Pwrite` | libmixp/client.c:523-557 | The bytes up to where the offset moved are in the file at the fid's own offset; success means all of them, also after short writes. |
| `ClientIo.OverwriteNext` | libmixp/client.c:536-545 | Chunks written one behind the other are one write of their concatenation. |
| `ClientIo.Cfid.Write` | libmixp/client.c:559-569 | On success the whole buffer is written and the offset has moved by twice its length. |
| `ClientIo.Cfid.WriteTwice` | libmixp/client.c:559-569 | Of two calls that succeed, the second writes as far behind the first as the first is long. |
| `ClientIo.WritesExact` | libmixp/client.c:559-569 | What WriteTwice leaves is the two side by side, whatever the file, exactly when one is empty. |
| `ClientIo.Cfid.PositionedWrite` | libmixp/client.c:571-579 | On success the bytes are at the fid's own offset, which moves; where they were asked to be if that is the same. |
| `ClientIo.PwriteExact` | libmixp/client.c:571-579 | What PositionedWrite leaves is what was asked for, whatever the file, exactly when the offset asked for is the fid's own, or nothing is written. |
| `ClientIo.WriteFits` | libmixp/client.c:532-538 | A chunk of a write can be packed up to 8169 bytes and received up to 8168, of the 8175 a chunk may have. |
| `ClientIo.ReadFits` | libmixp/client.c:466-471 | The reply to a full chunk of a read fits. |
| `Tokenize.Tokenize` | libmixp/util.c:53-68 | In place: as many results as components, or as the array holds; the j-th is the place of the j-th component, with the rest of the components behind it, and as a C string that component; the last of a full array goes on to the end of the path. |
| `Tokenize.ComponentsOfPath` | libmixp/util.c:53-68 | Names put into a path, with any delimiters before, between and behind them, are its components. |
| `Tokenize.LastExact` | libmixp/util.c:59-66 | The last of a full array is its component exactly when the path has no more components and does not end with a delimiter. |

## Left out

- Sockets, the select loop, accept, dial and signals (`libmixp/socket.c`, `libmixp/server.c`): input and output plumbing; a hangup is `ServerConn.Conn.Cleanup`.
- pthread wrappers (`libmixp/thread_pthread.c`): mutexes and condition variables are ideal, with spurious wake-ups; intmap is sequential, although its write lock is taken as a read lock (`libmixp/thread_pthread.c:87-89`).
- The async flag of an rpc, which is never initialised (`libmixp/rpc.c:47-54`), is false in the transition system; realloc failure in gettag (`libmixp/rpc.c:227-228`); malloc failure elsewhere.
- MuxTheorems.Routing: for runs in which a send fails only while its rpc is not muxer, and only the muxer's own reply fails to unpack; MuxTheorems.SendFailureExact and MuxTheorems.GiveUpExact are the exact conditions. The same holds of MuxTheorems.NoDeadlock and MuxTheorems.QuiescentMeansAllReturned.
- A receive that fails in the middle of the stream on a bad size prefix leaves the client out of step with the stream; in the transition system a failed mixp_recvmsg is the end of the stream.
- Memory of the client's messages and fids, unmount, and mixp_fcall_free.
- The union of `MIXP_FCALL`: Message.Fcall2Msg and Message.Msg2Fcall have one field per name, and only those of the message's type are read. NULL strings and arrays are not modelled.
- Fids.WalkExact: speaks of a walk answered at once, for pending ones see RequestRuns.TableOfRun; walks of the server are over qids; names are not modelled, nor is the string of the version.
- Error strings are an enumeration; debug output and `_MSGDUMP`.
- Auth and wstat on the server, which it does not implement (`libmixp/request.c:369`): they are refused like unknown types.
- RequestRuns.PendingAccounting: assumes fresh tags, attach with a new fid (a duplicate attach dereferences a null fid, `libmixp/request.c:225-228`), clients that obey flush(5), and that no request names a fid that a pending one makes or drops, so that no handler outlives its fid. FidProtocol.RequestsAreApart shows the last for libmixp's own client.
- ServerConn.Conn.HandleReq: for an admitted request with which the invariant of RequestRuns holds, as RequestRuns.EntryKeeps provides within what the server relies on.
- ServerConn.Conn.HandleFcall: requests that name a fid which a pending one makes or drops are left out, as in RequestRuns.PendingAccounting; a duplicate tag on a version or an attach stops the server at an assert or a null pointer (`libmixp/request.c:168-172`) and is left out; so is the branch for an unreadable message, which only hangs up.
- ServerConn.Conn: the maps are Dafny maps, as IntMap refines them with delete's walk advanced; outside Cleanup, the original's delete may not return (IntMap.DeleteReturnsExactly). A pending request names its fid and does not point to it.
- ServerConn.Conn.Cleanup: the references of the swept fids are counted after the sweep and not during it; with requests still pending the sweep of tagmap calls flush handlers; it is modelled only with tagmap empty and clunk answered at once.
- FidProtocol.ClientAndServerAgree: without transport failures (a call that gets no reply cannot know whether the server acted), below 2^31 fids, one request at a time on an open fid, apart from reads and writes that come after a close and are answered at once, and after a successful attach. mixp_create with a path that cannot be walked uses a null fid (`libmixp/client.c:353-361`) and is left out.
- FidProtocol.CallsReturnProperly: a stat counts as successful when Rstat arrives; mixp_stat fails also when the record in it is cut off (`libmixp/client.c:437-443`). Names, permissions, offsets and counts of the requests are not in it, for reads and writes see ClientIo.
- ClientFids.Client.GetFid: 2^32 - 1 fids at a time, where lastfid wraps around, are excluded.
- ClientIo.Cfid.Pread: for an iounit from 1 to 2^31 - 1 and a count below 2^31, as conversions to int demand; ClientIo.UnitExact says when initfid leaves another.
- ClientIo.Cfid.Read: under the same limits.
- ClientIo.Cfid.Pwrite: for servers that fail or accept from 1 byte to all they are sent; one that accepts none is asked for ever.
- The client's walk takes the qid of its fid from its own request (`libmixp/client.c:235`), with no component from before the array; the client's copy of qids is not modelled.
- insertkey (`libmixp/intmap.c:108-140`) is not called by the server; its loop has the fault of delete's.
- Transport.RecvMsg: read errors other than EINTR, where readn adds to the count (`libmixp/transport.c:51`), and buffers of less than 4 bytes.
- Address parsing (`libmixp/addr.c`) and the commands in `cmd/`, apart from the listing loop: they would add easy members only.
