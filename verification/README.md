# Verified models of aprsc

aprsc routes APRS-IS packets.  A worker thread reads lines from its clients, checks and rewrites
the header of each packet, and hands it to the dupecheck thread.  Dupecheck drops duplicates,
numbers what is left and publishes it on a global list.  Every worker walks that list with a
cursor of its own and writes packets to the clients whose filters let them through.

This project models the parts of that path that are hard to get right, and proves what they
promise.  One module stands for one component:

| module | component | what is proved |
|---|---|---|
| `PacketQueue` | global packet list, purger, worker cursors | no interleaving reaches a freed buffer if workers are linked in before as many packets as the limit are published; every worker sees every packet once and in order |
| `PbufLedger`, `IncomingLists` | packet buffer pools and lists | every buffer is in exactly one place in every reachable state; counters and tail pointers are right |
| `Text`, `KeyHash`, `DupeDb`, `DupeRuns` | text search and case, duplicate database | the expiring hash table is a map; duplicates and mangled copies are recognised |
| `QCalls`, `QConstruct`, `QOutput`, `QHeader`, `Quirks`, `Incoming`, `IncomingExact` | q construct algorithm, packet reassembly | the exact header every packet is sent on with, loop freedom, when a line is forwarded and the code of each refusal, payload kept, lengths respected |
| `Json`, `JsonGrammar`, `JsonRoundTrip`, `JsonBuffers`, `JsonAccepts`, `JsonStrict` | JSON printer and parser | what is printed is RFC 8259 for the tree; the parser accepts exactly a slightly wider grammar and gives its trees; buffers are large enough |
| `Inet`, `InetRoundTrip` | textual IP addresses | parsing undoes printing; the shortened run is the one of RFC 5952 |
| `RwLock` | reader/writer lock | mutual exclusion, exact counters, no lost wakeup |
| `CellArena` | cell allocator | cells are disjoint, accounted for and handed out in order |
| `Filters`, `FilterLists` | client filters | what a decision means, kind by kind; merging filters changes no decision |
| `HistoryDb`, `HistoryRace` | position history | the expiring hash table is a map; when an unlocked read of a chain's head is safe |
| `Acl` | access lists | the first rule in file order decides |
| `Streams` | input and output buffers | lines do not depend on how reads split them; output order is kept |

Code that works by loops and assignments is modelled by methods with the same loops, and each
method is tied to a function by its postcondition; the results are lemmas about those functions.
State that the code updates in place is a class (`DupeDb.Db`, `RwLock.Lock`, `CellArena.Arena`,
`HistoryDb.History`, `Acl.Acl`, `Filters.Filter`, `FilterLists.ClientFilters`, `Streams.Input`, `Streams.Output`).
Protocols between threads are state machines whose steps are single memory accesses
(`PacketQueue`) or critical sections (`RwLock`, `PbufLedger`), and their results hold for every
sequence of enabled steps.

## Results about the code that differ from its comments

- `DupeRuns.CopyKeyStored`: a mangled copy is recognised exactly if its address does not hash to
  0, because a packet is hashed as two areas and a stored form as one, and 0 as a start value means
  "start afresh".  `DupeRuns.MangledCopyAccepted` shows the failure for the address `M0TJ>G1J`.
- `InetRoundTrip.GapInFullAddress`: the comment at src/inet_pton.c:157 says that "::" in a full
  address is ignored.  The shift loop then copies each octet onto itself and clears it, so every
  word after the gap is lost; it is ignored exactly if those words are zero.
- `PacketQueue.LateLinkFails`: a worker takes its cursor (src/worker.c:1997-1998) before it joins
  the list of workers (src/worker.c:2053-2054), and until then the purger does not know of it.  It
  is safe as long as fewer packets than the limit are published in between
  (`PacketQueue.NoUseAfterFree`); with exactly as many, for every limit, a run exists in which its
  cursor is in a freed buffer.
- `IncomingLists.FlushExact`: `incoming_flush` keeps its lists well formed exactly if the local list
  is not empty; else its pointer writes leave the shared tail pointer at the local head.  Its
  callers check that (src/worker.c:1823, src/http.c:267); `IncomingLists.EmptyFlushLoses` derives
  what would happen to the packets of the next flush.
- `QConstruct.ConstructAlways`: the internal error `INERR_Q_BUG` is unreachable exactly but for a
  client that is neither inbound nor an uplink, whose packet has no usable construct and is not its
  own with the path rewritten.
- `QHeader.MarkerTells`: a client's own packet leaves with TCPXX in its path exactly if the client is not
  verified, or the packet is a qAI trace that already had it in the part of the path that is kept:
  that branch does not look for it (`QHeader.MarkedTraceExample`).
- `IncomingExact.SliceCodes`: the code for "no path" (src/incoming.c:906-907) is never given, because
  the colon lies behind the '>'.
- `JsonStrict.RfcExact`: a text of RFC 8259 without numbers is parsed to its tree exactly if no string of
  it has the escape \u0000, which the grammar allows and the parser refuses.
- `FilterLists.UnknownKindRefused`: the search for a filter's kind in the list of kinds finds the
  terminating NUL, so a string whose kind is none of the 28 letters is refused exactly if it has
  one; "" and "-" are accepted.  `FilterLists.KindlessUser` says what comes of them: until the client
  has been warned, the length of the warning counts as a match, so a packet no filter decided
  passes on account of "", and one that a positive filter would pass is dropped on account of "-".
- `Acl.MissingWordExact`: a line of an access list with too few words is counted as an error but read
  on.  The loader reads a word that is not there exactly if a line that is not empty has no word, or
  "allow" or "deny" as its only word (for files in which no quoted word breaks off); all other bad
  files are refused.
- `HistoryRace.RaceExact`: a lookup of the position history reads the head of its chain before it has
  the lock (src/historydb.c:453).  It reads a freed cell exactly if that cell was unlinked in between.
- `Inet.Ntop4Room`: the size test of inet_ntop4 leaves out the NUL, so text and NUL do not fit although
  the test passes exactly if the room is the length of the text; inside an IPv6 address there is
  always room (`InetRoundTrip.EmbeddedRoom`).

## Assumptions

- Memory is sequentially consistent.  Publishing is one step: workers read under the lock, and
  worker_alloc, which does not, reads only the tail pointer, which publishing writes once.  A buffer
  counts as free from the moment it is dissociated.
- The clock never goes back, and fewer than 2,000,000,000 packets are on a list at once
  (src/dupecheck.c:73-76).
- Text is what precedes the terminating NUL of a C string.
- After a q construct has been discarded, the region behind it is empty (src/parse_qc.c:301-305).

## Model

| member | source | states |
|---|---|---|
| `PacketQueue.LagIsDistance` | src/dupecheck.c:71-87 | for every distance below 2^31 the wrap-around difference of 32-bit numbers is the true number of packets between, however often the counter has wrapped; only the value 0 reads as no data |
| `PacketQueue.ScannedIsCovered` | src/dupecheck.c:822-836 | the lag found for a worker covers everything it still needs, also for a fresh worker and for number 0 |
| `PacketQueue.CutUnneeded` | src/dupecheck.c:126-130 | a packet the purger may cut lies strictly before everything any worker needs |
| `PacketQueue.CursorReadsNext` | src/outgoing.c:147-175 | what a worker reads through its cursor is the next packet it has not passed |
| `PacketQueue.InvPreserved` | src/dupecheck.c:781-837 | each single step of publisher, purger and workers, taking a cursor and linking the worker apart, keeps the invariant of list, cursors and purge state; linking does if fewer packets than the limit were published since |
| `PacketQueue.CoreThroughRun` | src/dupecheck.c:708-870 | in every run, however late workers are linked in, the list is sound, its head variable right, and it never gets shorter than the limit |
| `PacketQueue.TailAlwaysLive` | src/dupecheck.c:781-800 | in every run the publisher's tail pointer names a live last cell, the counter is the length, and the length is all packets published or at least the limit |
| `PacketQueue.TailStays` | src/worker.c:1997-1998 | a tail position stays in the list while fewer packets than the limit follow it |
| `PacketQueue.ChainPersists` | src/dupecheck.c:118-145 | a packet keeps its cell as long as it is in the list |
| `PacketQueue.InvThroughRun` | src/dupecheck.c:708-870 | the full invariant holds in every state of every run in which workers are linked in in time |
| `PacketQueue.NoUseAfterFree` | src/outgoing.c:147-175 | in every interleaving in which fewer packets than the limit are published between taking a cursor and linking its worker, no worker touches a freed buffer |
| `PacketQueue.LateLinkFails` | src/worker.c:2053-2054 | for every limit, a run with exactly as many packets in between whose worker is left with its cursor in a freed buffer |
| `PacketQueue.ExactlyOnceInOrder` | src/outgoing.c:147-175 | in such a run, what a worker visited is the published sequence from where it took its cursor, without gap or repetition, with consecutive 32-bit numbers, and all of it once its cursor yields nothing |
| `PacketQueue.LogOnlyGrows` | src/dupecheck.c:781-800 | what was published stays published |
| `PacketQueue.GlobalPbufPurger` | src/dupecheck.c:93-145 | the loop cuts a prefix, never below the limit, frees it in list order in batches that fit its array; every packet it cuts is older than the expiry time and farther back than the highest lag, and it stops at the first that is not or at the limit |
| `PacketQueue.MayPurgeMeans` | src/dupecheck.c:126-130 | the two break tests on a cell decide by its packet's time and true distance, with number 0 as no data |
| `PacketQueue.PurgedAreOld` | src/dupecheck.c:118-145 | in every run, a packet that is cut off is the first of the list and older than the expiration time, and the list is longer than the limit |
| `PacketQueue.FreeLater` | src/dupecheck.c:132-141 | batches keep the order of the cells and never exceed the array |
| `PacketQueue.PurgeIteration` | src/dupecheck.c:132-137 | one turn cuts one cell and keeps the list's invariant |
| `PacketQueue.ProcessOutgoing` | src/outgoing.c:137-180 | the loop leaves the worker with everything published visited, in order |
| `PacketQueue.VisitOne` | src/outgoing.c:147-175 | one turn passes exactly one packet |
| `PbufLedger.PbufGet` | src/incoming.c:289-371 | the buffer handed out and the pool left behind, from the pool or from a fresh bunch |
| `PbufLedger.SizeExact` | src/incoming.c:289-312 | the class is the smallest of 100, 180 and 512 bytes that is large enough, and there is none if and only if none is |
| `PbufLedger.SortBySize` | src/incoming.c:202-229 | buffers are sorted into the three classes by their length, in order |
| `PbufLedger.SortedOcc` | src/incoming.c:202-245 | sorting by class loses and duplicates none |
| `PbufLedger.DrainLoop` | src/dupecheck.c:662-699 | both chains grow by the drained packets of their verdict, with counters and tails right |
| `PbufLedger.ChainOcc` | src/dupecheck.c:662-696 | every drained packet is in exactly the chain its verdict names |
| `PbufLedger.ChainOrder` | src/dupecheck.c:662-696 | both chains keep the order of the drained list |
| `IncomingLists.EnqueueAppends` | src/incoming.c:1166-1168 | the pointer writes put a packet at the end of what the local head reaches |
| `IncomingLists.FlushJoins` | src/incoming.c:406-438 | after the pointer writes of a flush the shared head reaches the packets of both lists, in order |
| `IncomingLists.FlushExact` | src/incoming.c:406-438 | both lists are well formed afterwards if and only if the local list was not empty |
| `IncomingLists.GrabTakes` | src/dupecheck.c:642-655 | draining takes exactly the packets the shared head reaches, and leaves the local list |
| `IncomingLists.EmptyFlushLoses` | src/incoming.c:406-438 | after a flush of an empty list, the packets queued and flushed next are counted as shared and reached from neither head |
| `PbufLedger.StepConserves` | src/incoming.c:143-245 | no step loses or duplicates a buffer; only a new block adds any |
| `PbufLedger.StepOrdered` | src/incoming.c:289-438 | every step keeps pools and arenas in their class, counters equal to lengths, and tail pointers at the ends; for the purger this follows from its test against the limit |
| `PbufLedger.Conservation` | src/dupecheck.c:631-802 | over any run the buffers at the end are those at the start and those of the blocks made |
| `PbufLedger.OnePlace` | src/incoming.c:143-438 | in every reachable state the buffer at an address is of one class and in one place only, and there once |
| `PbufLedger.NeverLost` | src/incoming.c:143-438 | in every reachable state a buffer is somewhere if and only if it was there at the start or was made since |
| `KeyHash.ShiftAddIsMultiplication` | src/keyhash.c:80-88 | the shift-and-add step is multiplication by 16777619 modulo 2^32 |
| `KeyHash.Keyhash` | src/keyhash.c:71-91 | the loop computes the fold over the bytes |
| `KeyHash.Keyhashuc` | src/keyhash.c:96-120 | hashing with folded case is hashing the upper-case text |
| `KeyHash.UpperExact` | src/keyhash.c:96-120 | folding case maps the 26 small letters to their capitals and nothing else |
| `KeyHash.FoldConcat` | src/keyhash.c:71-91 | hashing in two parts is hashing the whole |
| `KeyHash.FoldInjective` | src/keyhash.c:71-91 | different start values stay different over any bytes |
| `KeyHash.SplitHash` | src/keyhash.c:71-91 | a two-area hash equals the hash of the concatenation if and only if the first area does not hash to 0 |
| `DupeDb.Db.Cleanup` | src/dupecheck.c:284-309 | the table after cleaning represents the map without expired entries |
| `DupeDb.Db.Append` | src/dupecheck.c:314-340 | appending a record puts its key, unless memory is out |
| `DupeDb.Db.AddBuf` | src/dupecheck.c:343-387 | a stored form refreshes its record or gets one; the map gains exactly its key |
| `DupeDb.Db.MangleStore` | src/dupecheck.c:394-524 | with memory to spare, exactly the forms that differ from the packet are stored |
| `DupeDb.Db.Dupecheck` | src/dupecheck.c:530-608 | the verdict is the map's: duplicate if and only if the key is fresh; an accepted packet puts its key and as many of its mangled forms as memory allows |
| `DupeDb.MangledForms` | src/dupecheck.c:394-524 | the texts built are exactly the differing ones among the eight forms |
| `DupeDb.FormsExact` | src/dupecheck.c:394-524 | a text is among the eight forms if and only if it is the packet without its bytes above 0x7F, with their top bit cleared or spaces for them, without control characters or spaces for them, without DEL or spaces for it, or without trailing spaces |
| `DupeDb.ScanHigh` | src/dupecheck.c:440-458 | one scan builds the three 8-bit forms and tells whether the other scans are needed |
| `DupeDb.TrimSpaces` | src/dupecheck.c:418-427 | the length without trailing spaces |
| `DupeDb.FindFresh` | src/dupecheck.c:566-584 | the chain holds a fresh record of the key if and only if one is found |
| `DupeDb.FreshMeansRecord` | src/dupecheck.c:566-584 | stale duplicates of a key in its chain do not matter: the key is fresh if and only if some record of it is |
| `DupeDb.CleanBuckets` | src/dupecheck.c:284-309 | removing old records represents the expired map |
| `DupeDb.PutRecord` | src/dupecheck.c:314-387 | adding or refreshing a record represents the map with the key put |
| `DupeRuns.CleanupUnobservable` | src/dupecheck.c:284-309 | over every run, whatever could be stored, no check is ever answered differently for a clean-up having run |
| `DupeRuns.Drive` | src/dupecheck.c:530-608 | the hash table, driven through any sequence of checks and clean-ups with any amount of memory, gives the verdicts of the map, and with memory for all stores all forms |
| `DupeRuns.DriveApart` | src/dupecheck.c:530-608 | on the table itself, two packets with the same address and payload both get through only if more than the storage time apart |
| `DupeRuns.AcceptedApart` | src/dupecheck.c:530-608 | the same for the map, whatever memory there was |
| `DupeRuns.MangledCopyDropped` | src/dupecheck.c:394-524 | a differing mangled copy of an accepted packet is dropped throughout the storage window, if its address does not hash to 0 and memory lasted for the packet's forms |
| `DupeRuns.CopyKeyStored` | src/dupecheck.c:566-597 | the mangled forms cover a copy if and only if its address does not hash to 0 |
| `DupeRuns.ZeroHashAddressExists` | src/keyhash.c:71-91 | an address that hashes to 0 |
| `DupeRuns.MangledCopyAccepted` | src/dupecheck.c:566-597 | for that address a copy that lost a trailing space is accepted |
| `DupeRuns.PutStays` | src/dupecheck.c:284-387 | what an accepted packet stored stays through the storage window |
| `QCalls.CheckInvalidQCallsign` | src/parse_qc.c:31-52 | accepts exactly the valid server calls |
| `QCalls.CollectCalls` | src/parse_qc.c:95-112 | the start table of the first 64 calls gives exactly those calls |
| `QCalls.CheckCalls` | src/parse_qc.c:133-199 | the code of the first call that is not acceptable, and whether the login occurs |
| `QCalls.QDropcheck` | src/parse_qc.c:59-252 | the code is the verdict that VerdictExact, TraceRecorded and LoopDropped are about |
| `QCalls.VerdictExact` | src/parse_qc.c:59-252 | passed if and only if the protocol id, qAX and qAZ tests pass, the server's own call is not found, the calls are free of loops, qAU does not name the sender and a qAI trace fits; for each drop code its reason |
| `QCalls.TraceRecorded` | src/parse_qc.c:213-249 | the calls of a qAI trace that is sent on are those received, then the login if and only if it is verified, no core peer's and not among them, then this server's call |
| `QCalls.LoopDropped` | src/parse_qc.c:125-249 | a qAI packet this server has passed is dropped when it comes back, from any client and with any calls gathered on the way, if it had fewer than 64 calls and no other call contains the server's |
| `QCalls.JoinedCalls` | src/parse_qc.c:95-112 | up to 64 calls joined by commas are collected as they are |
| `QCalls.PassedCalls` | src/parse_qc.c:133-199 | no code if and only if the calls are pairwise different, each the sender's login (last if inbound) or a valid call that is nobody else's verified login, and qAU does not name the sender |
| `QCalls.AcceptedPath` | src/parse_qc.c:95-199 | an accepted path is free of loops among its first 64 calls, and these are its comma-separated fields |
| `QCalls.TwiceStampedDropped` | src/parse_qc.c:126-199 | a path this server stamped twice within the first 64 calls is dropped |
| `QCalls.StampedDropped` | src/parse_qc.c:126-131 | one stamp is enough if no other call contains the server's call |
| `QCalls.OccurrenceInCall` | src/parse_qc.c:126-131 | an occurrence of the server's call lies inside one of the calls |
| `QCalls.PassedText` | src/parse_qc.c:213-249 | only a qAI trace is replaced |
| `QCalls.DroppedCodes` | src/parse_qc.c:59-249 | every drop has a code in the range reserved for it |
| `QConstruct.ParseConstruct` | src/parse_qc.c:294-322 | finds the construct, tells its type, or says why it is unusable |
| `QConstruct.FindViaCall` | src/parse_qc.c:489-512 | where the call in front of a trailing ",I" starts, which is never before the path |
| `QConstruct.RelayInside` | src/parse_qc.c:431-534 | for packets relayed by a client-only port the path end stays inside the path, the text changes in the type letter at most, and a kept construct is one that was found |
| `QConstruct.ForwardInside` | src/parse_qc.c:536-601 | the same for other packets of inbound clients |
| `QConstruct.InboundInside` | src/parse_qc.c:359-601 | the same for all inbound clients: no result rests on a construct that is not there |
| `QConstruct.OutboundInside` | src/parse_qc.c:603-645 | for uplinks and peers a result rests on a missing construct exactly for a client that is no uplink |
| `QConstruct.QProcess` | src/parse_qc.c:273-655 | the code computes the result that the header theorems below describe, and a drop code in range when there is none |
| `QHeader.LocateExact` | src/parse_qc.c:294-322 | the first ",q" of the path counts, and is a construct if and only if two characters, a comma and a call follow |
| `QHeader.VerifiedOwn` | src/parse_qc.c:324-347 | a verified client's own packet is sent on as SRC>DST,TCPIP*,qAC,SERVER, unless it is a qAI trace |
| `QHeader.UnverifiedOwn` | src/parse_qc.c:332-421 | an unverified client's own packet is sent on as SRC>DST,TCPXX*,qAX,SERVER, or dropped with -29 if and only if several calls follow a construct |
| `QHeader.UdpHeader` | src/parse_qc.c:371-385 | a packet submitted by UDP keeps its path up to a construct, gets TCPIP* unless it ends in it, and qAU,SERVER |
| `QHeader.OwnTraceCut` | src/parse_qc.c:423-429 | a client-only connection's own qAI trace is replaced by qAC,SERVER |
| `QHeader.RelayedHeader` | src/parse_qc.c:463-645 | somebody else's packet without a usable construct: from the path alone, qAR with the login if and only if the call before ",I" is the login, else qAr with that call, qAo with it for client-only connections; qAS with the login or the peer's address, or qAO with the login, without ",I"; a path ",I" alone is dropped with -30 |
| `QHeader.KeptHeader` | src/parse_qc.c:463-645 | a packet that keeps its construct is sent on unchanged but for the type letter, which client-only connections change from R and r to o and from S and C to O, and for a qAI trace, which is extended |
| `QHeader.TraceLoopDropped` | src/parse_qc.c:125-249 | from header to header: a qAI packet that was sent on is dropped when it comes back with more calls behind its trace |
| `QHeader.MarkerTells` | src/parse_qc.c:328-429 | in a client's own packet TCPXX occurs from the path on if and only if the client is not verified, or the packet is a qAI trace that had it in the part that is kept |
| `QHeader.MarkedTraceExample` | src/parse_qc.c:423-429 | such a packet |
| `QHeader.StartsBehindComma` | src/parse_qc.c:273-655 | the construct, new or kept, starts behind a comma |
| `QConstruct.EntryType` | src/parse_qc.c:324-601 | for every inbound client and header: the server names itself, with a type that says how the sender is known, exactly on packets the client sent itself or by UDP; all others get a relay type or keep their construct |
| `QConstruct.PlanIsInside` | src/parse_qc.c:342-645 | every plan keeps the path end inside the path, changes at most the type letter, and rests on a missing construct exactly for the clients that ConstructAlways excepts |
| `QConstruct.ConstructAlways` | src/parse_qc.c:273-655 | a kept packet has new text with no start pointer, or a start pointer strictly inside the path, if and only if the client is inbound or uplink, a usable construct was there, or it is the client's own packet with its path rewritten |
| `QConstruct.CutInsidePath` | src/parse_qc.c:294-345 | the cut lies between the start of the path and its end, and one letter of the text changes at most, the construct's type |
| `QConstruct.DropCodes` | src/parse_qc.c:273-655 | every drop has a code in the range reserved for it |
| `QOutput.LocateGenerated` | src/parse_qc.c:294-322 | a generated construct is found again where it was put |
| `QOutput.LocateKept` | src/parse_qc.c:294-322 | a kept construct is found again where it was |
| `QOutput.PlanFresh` | src/parse_qc.c:294-645 | whatever new text is generated is a well-formed construct, put where none is left in front of it |
| `QOutput.OutputReparses` | src/incoming.c:1047-1099 | for every header that passed the path check, parsing the header that is sent on finds a well-formed construct; the server id, the logins and the protocol id are taken not to be empty or commas |
| `Incoming.CheckInvalidSrcDst` | src/incoming.c:496-546 | accepts exactly the valid source and destination calls |
| `Incoming.CheckInvalidPathCallsign` | src/incoming.c:600-650 | accepts exactly the valid path calls |
| `Incoming.CheckPathCalls` | src/incoming.c:653-694 | fails if and only if some field of the path is not a call |
| `Incoming.CheckedPathHasCalls` | src/incoming.c:653-694 | a path that passed has no empty fields |
| `Incoming.SliceLine` | src/incoming.c:879-942 | source, destination, path and payload of a line, or the error, as SliceExact and SliceCodes describe them |
| `Incoming.SlicedHeader` | src/incoming.c:879-942 | a sliced line is a header as the q construct code expects it |
| `IncomingExact.SliceExact` | src/incoming.c:879-942 | a line is sliced if and only if it is SRC>DST, a path that starts with a comma, a colon and a payload, with valid calls, an accepted source and at least 8 bytes, and then into these parts |
| `IncomingExact.SliceCodes` | src/incoming.c:879-942 | -17, -1 and -2 exactly for too short lines, lines without a colon, and lines without '>' among the first ten bytes of the header |
| `IncomingExact.SourceCodes` | src/incoming.c:909-916 | -4 exactly for an invalid source call, -33 exactly for one that is not accepted |
| `IncomingExact.PathExact` | src/incoming.c:653-685 | a path passes if and only if every field is a q word or a valid call, where calls behind a q word may be 32 characters long |
| `IncomingExact.IgateExact` | src/incoming.c:696-716 | a kept construct is refused if and only if some field from it on matches the pattern |
| `Incoming.ReassemblyPreserves` | src/incoming.c:1047-1099 | source call, destination call, path before the cut and payload are kept, and the bytes written, CRLF and NUL included, never exceed new_len |
| `Incoming.FillBuffer` | src/incoming.c:1047-1099 | the copies stay inside the buffer and give the reassembled packet |
| `Incoming.BuildPacket` | src/incoming.c:986-1099 | the buffer class fits, and the packet's pointers lie where they should |
| `Incoming.CheckHeader` | src/incoming.c:948-971 | passes exactly the headers without NOGATE or RFONLY, with a good path, that are no third-party packet from the Internet, and gives -9, -19 or -10 for the first of these that fails |
| `Quirks.QuirkRewrite` | src/incoming.c:811-877 | the copying loops of quirks mode compute the specified line or error |
| `Quirks.RewriteKeeps` | src/incoming.c:811-877 | nothing but spaces is taken out, behind the spaces and NULs the line starts with |
| `Quirks.PayloadKept` | src/incoming.c:865-867 | the rewritten line ends in everything from the colon on, byte for byte |
| `Quirks.RewriteCodes` | src/incoming.c:811-877 | -32 exactly for lines of spaces and NULs, -2 exactly if no '>' ends a source call, -19 exactly if a space in the path is not before a comma or the colon or the path has no end; all other lines are rewritten |
| `Quirks.RewriteTwice` | src/incoming.c:811-877 | rewriting twice is rewriting once |
| `Incoming.ForwardedReparses` | src/incoming.c:891-1099 | for every line that passed the checks, the header sent on parses to a construct |
| `Incoming.ParseLine` | src/incoming.c:879-1099 | a line is forwarded if and only if it slices, its header is clean, q_process keeps it, no igate call is refused, new_len is at most 512, a buffer is there, the client is upstream or inbound without dupe feed, and a construct is there; for each condition that fails first, its code; the packet is the reassembly of the line and its header parses to a construct |
| `Incoming.JudgedExact` | src/incoming.c:879-1099 | the conditions taken one after the other are the conditions taken at once |
| `IncomingExact.PointersMean` | src/incoming.c:1047-1099 | the pointers of a forwarded packet are in order, behind a '>', a comma and a colon, and the payload is the one received |
| `IncomingExact.OwnLineForwarded` | src/incoming.c:786-1099 | end to end: an inbound client's own line without a construct and with a clean header is forwarded as LOGIN>DST, marker, construct, payload and CRLF if and only if that is at most 511 bytes and a buffer is there |
| `Incoming.IncomingParse` | src/incoming.c:786-1180 | a line is queued if and only if quirks mode takes it, it is forwarded, the APRS parser takes the packet, it is no server message or general query, and its sender is verified where that is asked; what becomes of every other line, with its code |
| `Incoming.FateExact` | src/incoming.c:1103-1168 | queued if and only if accepted and wanted, as the packet the line is made into |
| `JsonRoundTrip.RoundTrip` | src/cJSON.c:834-900 | for every tree of null, booleans, NUL-free strings, arrays and objects, parsing the printed text gives the tree, formatted or not, with or without the demand that nothing follows |
| `JsonRoundTrip.ValueRoundTrip` | src/cJSON.c:929-1020 | the same at any place in any surrounding text, stopping right behind the value |
| `JsonRoundTrip.StringRoundTrip` | src/cJSON.c:545-806 | a printed string parses back, whatever surrounds it |
| `JsonRoundTrip.PrintedIsJson` | src/cJSON.c:983-1712 | every tree, at every depth, formatted or not, is printed as a text of the grammar of RFC 8259, written with literal bytes, that stands for it |
| `JsonGrammar.ValueParses` | src/cJSON.c:929-1440 | a text of the parser's grammar, wherever it stands, is parsed to its tree and up to its end |
| `JsonGrammar.StringParses` | src/cJSON.c:545-660 | a string of that grammar is parsed to the bytes it stands for |
| `JsonGrammar.ItemsParse` | src/cJSON.c:1092-1168 | the element loop of arrays, with any white space |
| `JsonGrammar.EntriesParse` | src/cJSON.c:1339-1440 | the member loop of objects, with any white space |
| `JsonAccepts.ValueSyntax` | src/cJSON.c:929-1440 | from every successful parse the syntax tree of the text |
| `JsonAccepts.ParseExact` | src/cJSON.c:929-1440 | a value and an end are parsed if and only if a text of the parser's grammar for that value stands there and ends there |
| `JsonAccepts.LiteralSyntax` | src/cJSON.c:407-537 | an accepted \u escape or surrogate pair gives the UTF-8 form of exactly the code point section 7 of RFC 8259 names |
| `JsonStrict.RfcExact` | src/cJSON.c:834-870 | a text of RFC 8259 without numbers, between white space, parses to its tree if it has no escaped NUL, and is refused if it has one |
| `JsonGrammar.Utf8Decodes` | src/cJSON.c:483-535 | the encoder's bytes decode, by section 3 of RFC 3629, to the code point |
| `JsonGrammar.Utf8Unique` | src/cJSON.c:483-535 | and no other bytes do |
| `JsonBuffers.PrintStringPtr` | src/cJSON.c:663-806 | the computed length is exactly what is written: quotes, escaped text and NUL |
| `JsonBuffers.CopyEscaped` | src/cJSON.c:759-803 | the copy loop stays inside its buffer and writes the escaped text |
| `JsonBuffers.NeedsEscape` | src/cJSON.c:692-701 | set if and only if some byte has to be escaped |
| `JsonBuffers.EscapedLength` | src/cJSON.c:728-742 | the length of the escaped text |
| `JsonBuffers.ScanString` | src/cJSON.c:560-585 | the closing quote, and a bound for what decoding writes |
| `JsonBuffers.DecodeInto` | src/cJSON.c:592-647 | decoding writes only inside the allocation, and gives the text |
| `JsonBuffers.ParseStringPtr` | src/cJSON.c:545-660 | the parsed string, or failure, as specified |
| `JsonBuffers.PieceFits` | src/cJSON.c:583-647 | no escape sequence decodes to more bytes than were counted for it |
| `JsonBuffers.PrintedFits` | src/cJSON.c:1170-1712 | the sizes computed for arrays and objects hold the printed text and its NUL |
| `Inet.InetPton4` | src/inet_pton.c:109-146 | the loop accepts exactly the texts the specification does, with four octets |
| `Inet.FindBestRun` | src/inet_ntop.c:162-184 | the leftmost longest run of at least two zero words, as section 4.2 of RFC 5952 asks, or none if there is none |
| `Inet.BestUnique` | src/inet_ntop.c:162-184 | there is only one such run |
| `Inet.Assemble` | src/inet_ntop.c:159-161 | the loop over octets gives the eight words, most significant octet first |
| `Inet.Format` | src/inet_ntop.c:189-213 | the text for a given run, which AnyShorteningParses proves to parse back |
| `Inet.InetNtop6` | src/inet_ntop.c:137-225 | prints with the best run shortened, or fails if and only if the caller's room is too small |
| `Inet.ShiftTail` | src/inet_pton.c:228-241 | the in-place shift; a full address is cleared behind the gap |
| `Inet.InetPton6` | src/inet_pton.c:164-246 | the character loop, buffer and shift compute the specified address or failure |
| `InetRoundTrip.RoundTrip4` | src/inet_ntop.c:105-119 | every IPv4 address parses back from its text |
| `InetRoundTrip.RoundTrip6` | src/inet_ntop.c:137-225 | every 16-octet address parses back from its text |
| `InetRoundTrip.AnyShorteningParses` | src/inet_pton.c:164-246 | shortening any run of zero words, or none, parses back |
| `InetRoundTrip.CapitalsSame` | src/inet_pton.c:164-246 | an address in capital letters is the same address |
| `InetRoundTrip.TextFits` | src/inet_ntop.c:149-222 | the text and its NUL fit the 46 bytes of the local buffer |
| `Inet.Ntop4Room` | src/inet_ntop.c:113-117 | text and NUL do not fit although the size test passes if and only if the room is the length of the text |
| `InetRoundTrip.EmbeddedRoom` | src/inet_ntop.c:201-207 | inside an IPv6 address there is always room for the IPv4 part and its NUL |
| `InetRoundTrip.GapInFullAddress` | src/inet_pton.c:228-241 | "::" among eight words keeps the words before it and clears those behind; it is ignored if and only if those are zero |
| `RwLock.Lock.RdLock` | src/rwlock.c:125-149 | gets the lock if and only if no writer is active, and is counted as active or as waiting |
| `RwLock.Lock.RdAgain` | src/rwlock.c:134-145 | after a wait: leaves the waiting count exactly when it gets the lock |
| `RwLock.Lock.TryRdLock` | src/rwlock.c:155-170 | takes the read lock if and only if no writer is active |
| `RwLock.Lock.RdUnlock` | src/rwlock.c:175-189 | the last reader wakes a writer if one waits |
| `RwLock.Lock.WrLock` | src/rwlock.c:209-233 | gets the lock if and only if it is free, and is counted as active or as waiting |
| `RwLock.Lock.WrAgain` | src/rwlock.c:218-229 | after a wait: leaves the waiting count exactly when it gets the lock |
| `RwLock.Lock.TryWrLock` | src/rwlock.c:239-254 | takes the write lock if and only if the lock is free |
| `RwLock.Lock.WrUnlock` | src/rwlock.c:259-284 | wakes all readers if any wait, else a writer if one waits |
| `RwLock.InvPreserved` | src/rwlock.c:125-284 | every critical section, spurious wakeup and barging thread keeps the invariant |
| `RwLock.MutualExclusion` | src/rwlock.c:125-284 | in every run a writer shares the lock with no reader and no writer |
| `RwLock.CountersExact` | src/rwlock.c:125-284 | in every run the counters are the numbers of threads waiting and holding |
| `RwLock.NoLostWakeup` | src/rwlock.c:175-284 | in every run, if nobody holds the lock and someone waits, a waiter has been released, and gets the lock when it runs |
| `CellArena.Arena.NewCellblock` | src/cellmalloc.c:69-132 | the cells of a new block join the list at its end, in address order |
| `CellArena.Arena.FillBlock` | src/cellmalloc.c:111-125 | the loop links createsize/increment cells |
| `CellArena.Arena.Cellmalloc` | src/cellmalloc.c:207-250 | hands out the oldest free cell, never one that is out; NULL only if no block can be made |
| `CellArena.Arena.CellmallocMany` | src/cellmalloc.c:257-312 | distinct cells that were not out, fewer than asked only if the list is empty |
| `CellArena.Arena.Cellfree` | src/cellmalloc.c:316-358 | the cell joins in front (LIFO) or behind (FIFO) |
| `CellArena.Arena.CellfreeMany` | src/cellmalloc.c:365-413 | the cells join one after the other, so a FIFO arena hands them out again in that order |
| `CellArena.NoOverlap` | src/cellmalloc.c:111-125 | two cells of an arena are the same or do not overlap |
| `CellArena.CellInBounds` | src/cellmalloc.c:111-125 | a cell lies inside its block |
| `CellArena.KeptTake` | src/cellmalloc.c:227-236 | handing out keeps: every cell free or out and never both, free plus out equal to blocks times cells per block, FIFO order of reuse |
| `CellArena.KeptGive` | src/cellmalloc.c:335-350 | taking back keeps the same |
| `CellArena.KeptGrow` | src/cellmalloc.c:69-132 | a new block keeps the same |
| `Filters.FillNames` | src/filter.c:946-996 | the name loop writes only behind the names that count, gives exactly the parsed names, and fails if and only if one has a star where none is allowed |
| `Filters.Filter.Extend` | src/filter.c:910-1021 | the table grown in place: on rejection, names already written behind the end change neither numnames nor what is before it |
| `Filters.NamesFit` | src/filter.c:919-929 | the pre-scan counts exactly the names stored |
| `Filters.ReadName` | src/filter.c:950-975 | one name without stars, cut to nine characters |
| `Filters.MatchOnCallsignset` | src/filter.c:847-899 | matches if and only if one of the first numnames names does, whatever is behind them |
| `Text.UpperExact` | src/filter.c:847-899 | comparing regardless of case takes the 26 small letters for their capitals and nothing else |
| `Filters.MatchUnion` | src/filter.c:847-899 | a joined table matches what either part matches |
| `Filters.ProcessD` | src/filter.c:1706-1801 | passes if and only if a named station is among the first ten calls and it or a later one is starred |
| `Filters.DigipeatedUnion` | src/filter.c:1706-1801 | stopping at the first match does not make a joined digipeater filter weaker or stronger |
| `Filters.PassesUnion` | src/filter.c:1668-2060 | a filter of any callsign kind passes what its names pass between them |
| `Filters.Filter.ProcessOne` | src/filter.c:2382-2464 | every callsign kind answers by its declarative meaning, which depends on the names that count only |
| `FilterLists.ClientFilters.FilterParse` | src/filter.c:1103-1147 | return code and meaning of the four lists after one string, with tables grown in place; a rejected string changes no meaning |
| `FilterLists.ClientFilters.ParseSlot` | src/filter.c:1115-1150 | the three other lists keep their filters and meaning |
| `FilterLists.ParseMerge` | src/filter.c:931-999 | extending the last filter gives the merged list if the string is good, and else the same list |
| `FilterLists.ClientFilters.FilterProcess` | src/filter.c:2467-2554 | the decision over the four lists, which DecideMeans and CallsignDecision describe |
| `FilterLists.DecideMeans` | src/filter.c:2507-2551 | if no user filter answers with an error: positive if and only if no negative server filter answers for the packet, and either a positive server filter does, or no negative user filter and some positive one does |
| `FilterLists.CallsignDecision` | src/filter.c:2507-2551 | for four lists of callsign filters the decision is 1 exactly then, and else 0 |
| `FilterLists.OneNameParses` | src/filter.c:910-1021 | "x/NAME" parses to a filter of kind x with that one name |
| `FilterLists.StationFilter` | src/filter.c:1668-1704 | "b/N" passes exactly packets from N or relayed for N as third-party traffic |
| `FilterLists.PrefixFilter` | src/filter.c:2028-2066 | "p/N" passes exactly packets from stations whose call starts with N |
| `FilterLists.DestinationFilter` | src/filter.c:2352-2380 | "u/N" passes exactly packets whose destination is N |
| `FilterLists.EntryFilter` | src/filter.c:1803-1828 | "e/N" passes exactly packets that entered at N |
| `FilterLists.MessageFilter` | src/filter.c:1892-1917 | "g/N" passes exactly messages to N |
| `FilterLists.ObjectFilter` | src/filter.c:1999-2026 | "o/N" passes exactly packets with an object or item N |
| `FilterLists.DigipeaterFilter` | src/filter.c:1706-1801 | "d/N" passes exactly packets with N among the first ten calls, used by it or by a later one |
| `FilterLists.PathCalls` | src/filter.c:1706-1801 | the calls looked at are the first ten of the path, with their stars |
| `FilterLists.UnknownKindRefused` | src/filter.c:1147-1153 | a string whose kind is none of the 28 letters is refused if and only if it has a kind |
| `FilterLists.KindlessStrings` | src/filter.c:1147-1153 | the strings accepted without a kind are "" and "-" |
| `FilterLists.KindlessDefault` | src/filter.c:2507-2524 | among the server's own filters such a filter changes no decision |
| `FilterLists.KindlessUser` | src/filter.c:2526-2551 | among the user's it changes none once the client was warned; before, it passes what no filter decided, or drops what no earlier filter decided |
| `FilterLists.WalkList` | src/filter.c:2507-2551 | the loop stops at the first answer that is not 0, after reporting bad filters |
| `FilterLists.MergeMeans` | src/filter.c:931-944 | a merged list answers every packet like the list with the filter put at its end |
| `FilterLists.MergingPreservesDecisions` | src/filter.c:910-1021 | for every sequence of strings and every packet, the decision is that of one node per accepted string |
| `FilterLists.ParseAllAndDecide` | src/filter.c:1103-2554 | the code itself, run on any sequence of strings and then on a packet, decides as one node per accepted string would |
| `FilterLists.WalkPasses` | src/filter.c:2507-2551 | a list of callsign filters passes what some filter of it passes |
| `HistoryDb.History.Insert` | src/historydb.c:356-428 | the chain of the key's bucket becomes the scanned chain with at most one new cell; InsertRefines says what that means |
| `HistoryDb.History.Find` | src/historydb.c:438-482 | the lookup in one chain, which QueryRefines proves to be the map's answer |
| `HistoryDb.History.Cleanup` | src/historydb.c:491-523 | every chain loses exactly its expired cells, which CleanRefines proves to be unobservable |
| `HistoryDb.ScanChain` | src/historydb.c:366-404 | the scan drops expired cells, updates or removes the key's cell, and tells whether it was updated |
| `HistoryDb.InsertRefines` | src/historydb.c:356-428 | inserting, with the expiry it does on the way, is inserting into the map, or removing for a kill |
| `HistoryDb.CleanRefines` | src/historydb.c:491-523 | cleaning up leaves the map as it is |
| `HistoryDb.QueryRefines` | src/historydb.c:438-482 | a lookup answers as the map does |
| `HistoryDb.UpdatedDistinct` | src/historydb.c:356-428 | no key occurs twice in a chain |
| `HistoryDb.TableIsMap` | src/historydb.c:281-523 | over every run of insertions, lookups and clean-ups with a clock that never goes back, table and map give the same answers |
| `HistoryRace.AfterCells` | src/historydb.c:364-428 | the writes on cells with addresses are those of the table |
| `HistoryRace.RaceExact` | src/historydb.c:453-475 | with writes between the read of the head and the walk, the walk goes through the chain as it then is, or starts in a freed cell, if and only if the head was unlinked meanwhile |
| `HistoryRace.SweepExact` | src/historydb.c:500-515 | with clean-ups only, that is if and only if the head had expired before one of them |
| `HistoryRace.SweepFreesHead` | src/historydb.c:500-515 | one clean-up frees an expired head under a reader |
| `HistoryRace.ReaderAnswers` | src/historydb.c:438-482 | a reader whose head stayed linked answers as the map at the walk, one that found no head as the map at the read |
| `Acl.Acl.Add` | src/acl.c:86-186 | prepends the entry of a good rule, rejects a bad one |
| `Acl.Acl.Dup` | src/acl.c:59-80 | a copy with both lists reversed |
| `Acl.LoadLine` | src/acl.c:233-254 | one line of the file: accepted, refused, or a read of a word that is not there |
| `Acl.MissingWordExact` | src/acl.c:233-254 | without broken words, a missing word is read if and only if a line that is not empty has no word, or "allow" or "deny" as its only one |
| `Acl.MissingWordExamples` | src/acl.c:233-254 | the line "allow" and a line of blanks |
| `Acl.OkReadsWords` | src/acl.c:233-254 | a file without objectionable lines never reads a missing word |
| `Acl.Load` | src/acl.c:193-266 | the entries of a good rule file in reverse order; reads a missing word if and only if some line does, given what earlier lines left in the variable for the second word; refuses exactly the other files with a bad line |
| `Acl.Acl.Check4` | src/acl.c:273-284 | the first matching entry of the list, else deny |
| `Acl.Acl.Check6` | src/acl.c:290-314 | the first matching entry of the list, else deny |
| `Acl.MaskLoop` | src/acl.c:175-179 | the mask with the first prefixlen bits set |
| `Acl.MaskWords` | src/acl.c:144-161 | the four words of an IPv6 mask and the masked address |
| `Acl.LongMaskIs` | src/acl.c:157 | the 64-bit subtraction cut to 32 bits is exact for every prefix length, 0 included |
| `Acl.MaskExact` | src/acl.c:273-284 | testing under the mask is comparing the first bits one by one |
| `Acl.Match4Exact` | src/acl.c:273-284 | an IPv4 entry matches if and only if the first prefixlen bits agree |
| `Acl.Match6Exact` | src/acl.c:290-314 | an IPv6 entry matches if and only if the first prefixlen bits of 128 agree |
| `Acl.ListenerDecides` | src/accept.c:366-368 | the copy of a loaded list decides every address by the first rule in file order that agrees with it, else denies |
| `Acl.ListenerCheck` | src/acl.c:59-314 | load, copy and check end to end: a file is accepted if and only if all lines are good, and then the first rule in file order whose bits agree decides, else deny, for every address |
| `Streams.Deframe` | src/worker.c:1259-1289 | feeds the handler, which may judge a line by all lines before it, the lines of the buffer up to one that drops the client, and consumes all but the open run |
| `Streams.Input.Receive` | src/worker.c:1295-1324 | after a read the buffer holds exactly the open run |
| `Streams.ChunkingIrrelevant` | src/worker.c:1259-1324 | however reads split the input, the lines delivered are those of the whole input |
| `Streams.ReceiveAll` | src/worker.c:1259-1360 | the input buffer, driven through any sequence of reads that fit, feeds the handler the lines of the concatenated input up to one that drops the client |
| `Streams.LinesConserve` | src/worker.c:1259-1289 | lines and open run are the input without its line ends |
| `Streams.LinesClean` | src/worker.c:1259-1289 | lines are not empty and contain no line end |
| `Streams.FramedLines` | src/worker.c:1259-1289 | whatever nonempty lines are sent, each with any ending of CR and LF bytes, exactly these lines are read |
| `Streams.Output.Allocate` | src/worker.c:979-999 | room at the end if and only if it fits beside what is pending, whose bytes survive the move |
| `Streams.Output.Buffer` | src/worker.c:1001-1018 | bytes are accepted as a whole or not at all |
| `Streams.Output.ClientWrite` | src/worker.c:1047-1129 | when a write is tried and what is returned; bytes sent are a prefix of the bytes accepted, longer by exactly what was written, across moves and partial writes |
| `Streams.Output.Writable` | src/worker.c:1364-1390 | the same when the socket becomes writable |

## Left out

- `QOutput.OutputReparses`: asks for a server id, login and peer address that are not empty and a protocol id that is not NUL, because the code copies them from the configuration unchecked.
- `QHeader.KeptHeader`: like the other header theorems, leaves out constructs with NUL as their protocol character, which the code takes for no construct.
- `JsonRoundTrip.PrintedIsJson`: does not say that bytes above 0x7F in strings are UTF-8, because the code copies them as they are.
- Sockets, polling, TLS, SCTP, UDP side channels, the HTTP server, logging, startup and live upgrade: input and output.
- APRS payload parsing, positions, distances, and the area, range, symbol, type and q filters: floating point, or outside the packet path; `Filters.World` takes their answers as parameters.
- Numbers in JSON, and the printing path with a growing buffer: numbers rest on strtod and sprintf.
- Routing of a packet to the clients of a worker (src/outgoing.c:41-130): three loops with one test each, which would only add easy members.
- Entry-call and weather-call tables: the same shape as the position history.
- Call patterns with wildcards in the configuration and the list of local logins: parameters.
- `Incoming.IncomingParse`: takes the result of the APRS parser as a parameter, and leaves out the updates of the client's position and heard list, which change no packet.
- `HistoryRace.RaceExact`: leaves out that the freed cell is handed out again before the reader walks, because the allocator then has to run through all its free cells first.
- `Acl.Load`: takes lines with their comment and line end removed and split into words, because that is plain text handling; a stale second word that a line with a broken quote reuses is not looked at, because the file is refused anyway.
- hrealloc of a filter's name table: modelled as a larger copy of it.
- The truncation of generated text by snprintf: the texts are far shorter than the 600 bytes there are.
- The change of the q type letter in place: modelled as a new text value.
- `EndsWithTcpip` looks at up to seven bytes before a pointer, and the model takes bytes before the start of the line as no match.
- The text kept with a filter for display: it decides nothing.
- The 16-bit counter of names in a filter: overflow beyond 32767 names is not modelled.
- The prefill loop of cellinit: an arena starts empty, and the same loop runs at the first allocation.
- LIFO arenas with a reserve: they keep no tail pointer to append to, and the code has none.
- Resolver answers with several addresses in one access list rule, thread cancellation and errors of the thread library.
