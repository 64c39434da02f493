# Verified models of NexCache

Dafny models of seven parts of the NexCache server (a Redis and Valkey fork)
and proofs about them. `dafny verify dfyconfig.toml` checks the whole project.

| part | source | files |
|---|---|---|
| atomic slot migration | `src/cluster_migrateslots.c` | SlotTransfer, Migration, MigrationJobs, MigrationPause, MigrationParse |
| append-only file | `src/aof.c` | AofLog, AofLoad, AofFeed, AofManifest, AofFlush, AofRewrite, AofServer |
| ACL command rules | `src/acl.c` | AclText, AclRules, AclCommands, AclReplay, AclSelector, AclIds |
| clients blocked on keys | `src/blocked.c` | BlockingIndex, Blocking |
| bit operations | `src/bitops.c` | Popcount, BitPos, BitRange, BitOp, BitField |
| slots of keys and patterns | `src/cluster.c` | SlotHash |
| argument splitting and numbers | `src/sds.c` | SdsArgs, Decimal, Ascii |

Arith, Bits, BitValue, BitVectors and Seqs hold facts about numbers, bits and
sequences, Common what several parts share.

## How the parts are modelled

*Slot migration.* `Migration.Node` is one node: its job list, the importing
flags of its slots, the shared write pause and its two clocks, with a method
per event handler. Its invariant says that job types fit job states, that
unfinished exports are pairwise disjoint and unfinished imports too, that a slot
is flagged exactly when it is being imported, that a deadline is set exactly in
the paused and granted states, and that every deadline is covered by the pause
or has passed. `SlotTransfer` is a transition system of source and target with
the snapshot, the held-back output buffer, both FIFO channels and the pause;
contents and commands are arbitrary, and all that is asked of a snapshot is that
it rebuilds the contents in empty slots. Connections, forks, other exports,
clocks and failures are events.

*Append-only file.* `AofLog` prints and reads commands byte by byte, with the
reader's line buffer. `AofLoad` is the loader with database tracking,
transactions and the two truncation offsets, as a function that the loop in
`AofFeed.LoadFile` computes. `AofManifest` is the manifest and its text. `AofFlush`
is the byte-level flush against a file with an offset. `AofServer.Server` is the
rewrite: files by name, manifest in memory and on disk, buffer, child snapshot
and the live dataset, for an arbitrary dataset type and command effect.

*ACL rules.* The command table is fixed: names without bars, ids below the
reserved one, subcommand ids different from command ids. The bitmap is an array
of 1024 bits, the rule text is edited in a character array. The text is followed
for every rule, as the pieces that the scan for spaces finds in it; the retained
rules are the text while all rules are free of blanks and quotes.

*Blocked clients.* A client that is reprocessed behaves as a script says: which
object its key holds, which keys it signals and whether it blocks again. A
script that has run out signals nothing and does not block, so every drain that
ends is a script.

*Bit operations.* Bytes are 8-bit vectors; the 64-bit arithmetic of the overflow
checks is written out with its wrap-around.

## What turned out not to hold

- A failover granted when the clock and the cached clock both show the deadline
  does not imply that writes were frozen since PAUSED; while the cached clock is
  behind the deadline it does. No takeover loses such a write, because it
  precedes the grant in the stream.
- The takeover does not look at the deadline of the source, so a late one can
  lose writes that were accepted after it.
- A granted export that has lost its client no longer feeds writes: once its
  deadline has passed, an accepted write is neither at the target nor on its
  way.
- SYNCSLOTS FINISH on a finished import, and an import loaded from an RDB file,
  can break the agreement of flags and jobs; the exact conditions are stated.
- A file cut inside a timestamp annotation is not cut back, and the next command
  appended to it makes the file unloadable.
- A file cut inside a command of a transaction is cut back to that command only,
  and a command appended to it is swallowed by the open MULTI and lost at the
  next load. The same happens when the MULTI that is cut off was itself read
  inside a transaction.
- An INCR file opened by a rewrite has no append mode, so a short write that was
  cut off again leaves a hole of zero bytes before the next write.
- After a restart with an uncollected history and no INCR file listed, the next
  INCR file reuses the name of a history file, and the server deletes the file
  that it has just opened.
- A failed switch to append-only mode leaves a file open, so that a later rewrite
  with the log off keeps the last INCR file.
- An unquoted manifest file name with a single quote does not read back.
- A first-argument rule with a blank or quote is accepted but its text does not
  split back, and a server that re-reads it can fail an assertion.
- BITFIELD SET with SAT stores the maximum for values far below range.

## Model

| member | source | states |
|---|---|---|
| `SlotTransfer.RunsKeepInv` | src/cluster_migrateslots.c:1550-1570 | over every run of both nodes (writes, snapshot, streaming, messages, pauses, failures, a granted export that loses its client, clocks) the source contents equal the target contents followed by the commands on their way, unless the source lost its client before the grant was sent or has accepted a write since |
| `SlotTransfer.TakeoverLosesNothing` | src/cluster_migrateslots.c:847-872 | in every run, when the target may claim the slots and no write was accepted since the grant, both nodes hold the same contents; while the deadline of the granted export is ahead none was, and the source refuses writes |
| `SlotTransfer.ClaimIsSafe` | src/cluster_migrateslots.c:699-719 | the same for every state that satisfies the invariant, reached by a run or not |
| `SlotTransfer.TransferCompletes` | src/cluster_migrateslots.c:1950-2140 | for every contents some run from the start leads through snapshot, pause and grant to a target that holds them, may claim the slots with the deadline ahead and claims them |
| `SlotTransfer.SnapshotArrives` | src/cluster_migrateslots.c:1550-1570 | forwarding and delivering a snapshot of any length leaves at the target what its commands build |
| `SlotTransfer.LateClaimLosesWrite` | src/cluster_migrateslots.c:847-872 | counterexample to the same claim without the deadline, for every contents and every command: the takeover does not look at the deadline of the source, so some run ends with the slots claimed and an accepted write missing at the target |
| `SlotTransfer.UnlinkedWriteIsLost` | src/cluster_migrateslots.c:1729-1738 | the exception is needed: for every contents and command some run ends with a granted export without client whose accepted write is neither at the target nor on its way while the target may still claim the slots |
| `SlotTransfer.UnsentGrantLosesWrite` | src/cluster_migrateslots.c:2259-2285 | the other exception is needed too: for every contents and command some run ends with the client lost before it sent the grant, no write since, and a write accepted in the millisecond of the deadline nowhere on its way |
| `SlotTransfer.StepConserved` | src/cluster_migrateslots.c:1718-1756 | each event keeps the conservation of writes: an accepted write appears at the end of the pipe while the source has its client, a delivered command leaves its head, the snapshot rebuilds the contents in empty slots, and what a lost client had not sent follows a sent grant |
| `SlotTransfer.StepOrdered` | src/cluster_migrateslots.c:1662-1714 | each event keeps the order: the snapshot leaves before the held-back output buffer and no pause is requested before its end was read |
| `SlotTransfer.StepGranting` | src/cluster_migrateslots.c:699-719 | each event keeps the position of FAILOVER-GRANTED in the FIFO stream: while no write was accepted since the grant, no command follows it |
| `SlotTransfer.StepPausing` | src/cluster_migrateslots.c:1442-1458 | each event keeps the deadline set exactly while paused or granted, covered by the pause or passed, and passed once a write was accepted after the grant |
| `SlotTransfer.StepLinking` | src/cluster_migrateslots.c:2259-2285 | only a granted export outlives its client, and then sends nothing |
| `SlotTransfer.BeginConserved` | src/cluster_migrateslots.c:1550-1570 | starting the snapshot establishes the conservation of writes on an empty target |
| `MigrationPause.GrantIsFrozen` | src/cluster_migrateslots.c:1497-1540 | with any number of exports: a request that can be granted finds no write accepted since PAUSED exactly while the cached clock is before the deadline; otherwise both clocks show the deadline itself and nothing rules a write out |
| `MigrationPause.GrantAtDeadline` | src/cluster_migrateslots.c:1758-1761 | the converse: for every pause a run in which both clocks show the deadline, a write was accepted since PAUSED and the request can be granted |
| `MigrationPause.RefusedUntilDeadline` | src/networking.c:6226-6241 | while the deadline of some export is ahead of the cached clock, writes are refused |
| `MigrationPause.DoPauseKeeps` | src/cluster_migrateslots.c:1442-1458 | pausing one export covers its deadline and keeps all others covered |
| `MigrationPause.GrantKeeps` | src/cluster_migrateslots.c:1526-1540 | granting extends the deadline and keeps all deadlines covered |
| `MigrationPause.UnpauseKeeps` | src/cluster_migrateslots.c:2533-2545 | lifting the pause is harmless when no deadline is set |
| `MigrationPause.UpdateKeeps` | src/networking.c:6226-6247 | an expired pause only uncovers deadlines that have passed |
| `MigrationPause.PauseKeeps` | src/networking.c:6291-6307 | a new pause keeps the later deadline, so every covered deadline stays covered |
| `MigrationPause.WriteKeeps` | src/server.c:4609-4611 | accepting a write marks paused exports only after their deadline |
| `MigrationJobs.OverlapIff` | src/cluster_migrateslots.c:186-189 | two ranges overlap exactly when they share a slot |
| `MigrationJobs.ListsOverlap` | src/cluster_migrateslots.c:193-210 | the nested loop answers exactly whether two range lists share a slot |
| `MigrationJobs.ReplaceKeeps` | src/cluster_migrateslots.c:2239-2247 | a state change within a job of the same kind keeps types, disjointness and the agreement of importing flags |
| `MigrationJobs.FinishKeeps` | src/cluster_migrateslots.c:2303-2356 | finishing an unfinished job keeps the registry: flags go exactly when the import is over, after cleanup on a primary |
| `MigrationJobs.FinishAgainIff` | src/cluster_migrateslots.c:723-786 | finishing an already finished job keeps the registry exactly when it is an export, or it needs no cleanup and no other import has its slots |
| `MigrationJobs.AddExportKeeps` | src/cluster_migrateslots.c:1149-1252 | a new export on slots that are not being exported keeps the registry |
| `MigrationJobs.AddImportKeeps` | src/cluster_migrateslots.c:788-842 | a new import on slots that are not being imported keeps the registry and sets exactly its flags |
| `MigrationJobs.LoadImportIff` | src/cluster_migrateslots.c:392-420 | an import loaded from an RDB file is added unchecked; the registry holds afterwards exactly when its slots were free |
| `MigrationJobs.DropKeeps` | src/cluster_migrateslots.c:2445-2457 | dropping a finished job from the log keeps the registry |
| `MigrationParse.ParseRanges` | src/cluster_migrateslots.c:261-343 | succeeds exactly on arguments that are one or more ordered, non-overlapping ranges within 0..16383 up to the first non-number, all owned by one node; returns these ranges, the next index and the node |
| `MigrationParse.CheckOwners` | src/cluster_migrateslots.c:294-306 | finds the single owner of a range, the given one if there is one, or reports that there is none |
| `Migration.Node.Finish` | src/cluster_migrateslots.c:2303-2356 | a successful job is successful at once and its import unflagged; a failed or cancelled import on a primary that is not loading goes to cleanup with that result and its flags; every other job ends in the state; the invariant holds afterwards exactly when the job was unfinished, is an export, or needs no cleanup and its slots are free |
| `Migration.Node.TryUnpause` | src/cluster_migrateslots.c:2533-2545 | lifts the pause exactly when no job has a deadline |
| `Migration.Node.SetState` | src/cluster_migrateslots.c:2239-2247 | changes one job between states without deadline; the invariant holds |
| `Migration.Node.TryDoPause` | src/cluster_migrateslots.c:1442-1458 | sets deadline, pause and state together, or nothing |
| `Migration.Node.RequestPause` | src/cluster_migrateslots.c:1462-1492 | exactly the new job list: streaming and snapshotting exports pause or wait to pause, every other job fails |
| `Migration.Node.RequestFailover` | src/cluster_migrateslots.c:1497-1540 | grants exactly a paused export that has not timed out; writes are then refused for the propagation time, and while the cached clock was before the old deadline none was accepted since PAUSED |
| `Migration.Node.ProceedHolding` | src/cluster_migrateslots.c:2081-2131 | exactly the new job list and pause: an expired paused or granted export fails, the first after the pause is re-evaluated, an unexpired paused one is untouched, a granted one is checked against the owners |
| `Migration.Node.CheckOwnership` | src/cluster_migrateslots.c:1765-1789 | an export is kept when this node owns all its slots, succeeds when its target does, and fails when they belong to a third node or to several |
| `Migration.Node.ExportsOnOwnershipChange` | src/cluster_migrateslots.c:1794-1816 | every unfinished export is kept, succeeds or fails by the new owners, as one check decides it; all other jobs are untouched |
| `Migration.Node.OwnerOf` | src/cluster_migrateslots.c:146-168 | returns a node exactly when that node owns every slot of the ranges |
| `Migration.Node.SnapshotEof` | src/cluster_migrateslots.c:648-672 | advances an import that is receiving its snapshot and fails every other job |
| `Migration.Node.PausedMessage` | src/cluster_migrateslots.c:676-695 | advances an import that waits for the pause and fails every other job |
| `Migration.Node.FailoverGranted` | src/cluster_migrateslots.c:699-719 | advances an import that requested the failover and fails every other job |
| `Migration.Node.AckMessage` | src/cluster_migrateslots.c:2548-2560 | takes an import out of its wait for the first ACK and changes nothing else |
| `Migration.Node.Claim` | src/cluster_migrateslots.c:847-872 | the slots of the ranges become owned by this node, all others keep their owner |
| `Migration.Node.Proceed` | src/cluster_migrateslots.c:1950-2140 | exactly the new job list of one drive, state by state: a granted import takes its slots over, succeeds and is unflagged, a cleaned-up import ends in its result, exports connect, snapshot, pause, time out or end by the owners; slots change owner only at the takeover and no other slot moves |
| `Migration.Node.FinishCleanup` | src/cluster_migrateslots.c:1977-1982 | a cleaned-up import ends in its result and is unflagged |
| `Migration.Node.BeginSnapshot` | src/cluster_migrateslots.c:2034-2069 | an export that waits for its snapshot starts it, keeps waiting or fails |
| `Migration.Node.TakeOver` | src/cluster_migrateslots.c:1967-1976 | a takeover claims exactly the slots of the import, ends it in success and unflags it |
| `Migration.Node.ProceedConnecting` | src/cluster_migrateslots.c:1986-2028 | the loop over the connecting states ends in the state that its rounds lead to and touches no other job |
| `Migration.RoundRank` | src/cluster_migrateslots.c:1986-2028 | each round of that loop comes closer to a waiting state unless the connection is still being made |
| `Migration.ConnectedMeans` | src/cluster_migrateslots.c:1986-2028 | where a drive leaves a connecting export: waiting for the connection, for the reply to AUTH where a password is set, else for the reply to ESTABLISH, or failed |
| `Migration.Node.ReadReply` | src/cluster_migrateslots.c:1344-1364 | replies to AUTH and ESTABLISH advance the export to its next state or fail it, and nothing else |
| `Migration.Node.ChildDone` | src/cluster_migrateslots.c:1662-1702 | exactly the snapshotting exports start streaming after a successful child and fail after a failed one |
| `Migration.Node.FinishAll` | src/cluster_migrateslots.c:950-961 | exactly the jobs in progress of the chosen kinds are finished (flush, cancel, cleanup of imports) |
| `Migration.Node.ClientClosed` | src/cluster_migrateslots.c:2259-2285 | a closed connection fails the job exactly when it is in progress, not tracked and not granted; a granted export and the pause survive |
| `Migration.Node.CleanupLog` | src/cluster_migrateslots.c:2445-2457 | keeps every unfinished job, removes no more than needed for the limit and stops above it only when all are unfinished |
| `Migration.Node.MigrateSlots` | src/cluster_migrateslots.c:1149-1252 | all requests become exports or none; they do exactly when a migration can start, this node serves the slots, none is exported or requested twice, and every target is another known node |
| `Migration.Node.CanStart` | src/cluster_migrateslots.c:507-525 | on a primary without manual migrations whose modules allow it |
| `Migration.Node.SlotsFree` | src/cluster_migrateslots.c:1117-1128 | answers exactly whether some slot has an unfinished job of the kind |
| `Migration.Node.Establish` | src/cluster_migrateslots.c:534-645 | registers the import and sets its flags exactly when no slot is being imported and, unless it only tracks, a migration can start and this node agrees that the source owns the slots |
| `Migration.Node.ImportsOnOwnershipChange` | src/cluster_migrateslots.c:902-946 | every import in progress is tracked, kept or finished by the new owners and roles, even where a job is finished twice; all other jobs are untouched |
| `Migration.Node.UpdateImport` | src/cluster_migrateslots.c:910-944 | exactly what becomes of one import under the new owners: tracked, kept or finished |
| `Migration.Node.AcceptWrite` | src/server.c:4609-4611 | a write is accepted exactly when no pause is in force and is recorded for every export with a deadline |
| `Migration.Node.RefreshPause` | src/networking.c:6226-6247 | the pause is re-evaluated against the cached clock; the invariant holds |
| `Migration.AddExports` | src/cluster_migrateslots.c:1222-1240 | requests that can be granted together keep the registry when put at the head of the list |
| `AofLog.CommandReadBack` | src/aof.c:1488-1539 | a printed command with arbitrary binary arguments, anywhere in a file, is read back exactly, and the reader stops at its end |
| `AofLog.CommandCut` | src/aof.c:1496-1541 | a file that ends anywhere inside a command gives a short read, never a format error or a wrong command |
| `AofLoad.RoundTrip` | src/aof.c:1321-1357 | whatever commands are fed, with databases or without, with or without timestamp annotations, the loader starting in database 0 runs exactly these commands in the expected databases |
| `AofLoad.ExpectedExact` | src/aof.c:1335-1346 | when every command is fed with a database, the recovered list is the fed list, each in its own database |
| `AofLoad.CutLogLoads` | src/aof.c:1472-1619 | every byte prefix of every log with transactions and annotations: what is run, and where the file is cut |
| `AofLoad.NoTruncation` | src/aof.c:1594-1625 | without aof-load-truncated, or when truncating fails, a byte prefix of a log does not load exactly when it ends inside a command or a transaction |
| `AofLoad.EndsSomewhere` | src/aof.c:1472-1496 | every number of bytes of every log ends on the boundary of an item or inside one, so the results hold for every byte prefix |
| `AofLoad.PlainTail` | src/aof.c:1571-1619 | without annotations and transactions a prefix runs exactly its complete commands and is cut to exactly their bytes |
| `AofLoad.CutFileReloads` | src/aof.c:1594-1612 | the file that a load leaves, for every byte prefix of every log, loads again to the same commands, and without a further cut exactly when no transaction stays open in it |
| `AofLoad.OpenTail` | src/aof.c:1580-1584 | a file that ends on an item boundary inside an open transaction is cut to the last command before the last MULTI, and what was run is what the shorter file holds |
| `AofLoad.TransactionsRun` | src/aof.c:1551-1561 | for every log: outside a transaction all commands have run one by one as if MULTI and EXEC were not there; inside one all but the queued ones, which EXEC would run in order |
| `AofLoad.TransactionLoads` | src/aof.c:1551-1561 | a complete transaction after any log that leaves none open, on the printed bytes: it is run command by command in order, each in the database selected for it |
| `AofLoad.AppendAfterCut` | src/aof.c:1571-1612 | every byte prefix of every log, loaded, appended to and loaded again: the new command runs after the old ones exactly when neither a piece of an annotation nor an open transaction stayed in the file; a piece makes the next load fail, an open transaction swallows the command and the file is cut before its MULTI |
| `AofLoad.OpenStays` | src/aof.c:1598-1603 | such files exist: a transaction cut inside its second command stays open in the file |
| `AofLoad.LogRuns` | src/aof.c:1472-1574 | the loader tracks the database exactly as the feed does |
| `AofLoad.AnnotatedLog` | src/aof.c:1328-1333 | with annotations on a log ends under the annotation of the latest clock so far; with annotations off it has none |
| `AofFeed.CatGenericCommand` | src/aof.c:1269-1292 | appends the printed command |
| `AofFeed.AofBuffer.Feed` | src/aof.c:1321-1357 | appends exactly the annotation, SELECT and command that the log calls for and tracks database and timestamp even when nothing is appended |
| `AofFeed.AppendedIsLog` | src/aof.c:1321-1357 | the bytes that a sequence of calls appends one by one are the printed log |
| `AofFeed.FedIsLoaded` | src/aof.c:1321-1357 | loading the bytes that a sequence of calls appended runs exactly the fed commands in the expected databases |
| `AofFeed.LoadFile` | src/aof.c:1396-1645 | the loader loop: result, commands run and bytes left in the file |
| `AofManifest.RunsWellFormed` | src/aof.c:427-520 | over every run of new BASE, new INCR, mark-as-history and restart: INCR numbers are positive and strictly increasing and the counters equal the last files |
| `AofManifest.ManifestRoundTrip` | src/aof.c:190-218 | a well-formed manifest with acceptable names and lines prints to text that loads with the same BASE, HISTORY and INCR lists exactly when it lists a file |
| `AofManifest.LineRead` | src/aof.c:123-134 | one printed line is read back to the same name, number and type, quoted names included |
| `AofManifest.PlainNameIff` | src/sds.c:981-993 | an unquoted file name splits back to itself exactly when it has no single quote |
| `AofManifest.InfosReadBack` | src/aof.c:276-364 | any non-empty list of acceptable lines is read back completely |
| `AofManifest.AofManifest.NewIncrName` | src/aof.c:454-463 | adds the next INCR file and keeps the manifest well formed |
| `AofManifest.AofManifest.LastIncrName` | src/aof.c:471-484 | names the last INCR file, creating one when there is none |
| `AofManifest.AofManifest.NewBaseName` | src/aof.c:427-447 | replaces the BASE file, the old one heading the history |
| `AofManifest.AofManifest.MarkRewritten` | src/aof.c:490-520 | moves all INCR files but the open one before the history, in their order |
| `AofManifest.RewrittenIncr` | src/aof.c:490-520 | after a rewrite at most the last INCR file is in use, exactly when it is open |
| `AofManifest.NoneForgotten` | src/aof.c:429-520 | a change of the manifest forgets no file: what it takes out of use goes to the history |
| `AofManifest.Format` | src/aof.c:190-218 | prints BASE, history and INCR lines in order |
| `AofManifest.LoadManifest` | src/aof.c:254-382 | the reading loop, with every format error |
| `AofFlush.Aof.AofWrite` | src/aof.c:1015-1032 | writes exactly the bytes that the write calls accept before the first error, through short and interrupted writes, and reports that count or failure |
| `AofFlush.TotalExact` | src/aof.c:1015-1032 | the data is written whole exactly when the calls accept as many bytes before the first error, interruptions included |
| `AofFlush.Aof.WriteBuffer` | src/aof.c:1123-1231 | how many bytes are kept follows from the write calls and the truncation; a short write is cut off again or kept, and buffer and size follow |
| `AofFlush.Aof.Flush` | src/aof.c:1053-1267 | whether the flush is postponed, keeps bytes, undoes them or ends the process is decided for every outcome of the system calls; what is kept continues the log exactly when the descriptor appends or stood at the end; what is not kept stays in the buffer |
| `AofFlush.Aof.TryFsync` | src/aof.c:1233-1266 | when the file is synced, and that a failure ends the process exactly under the always policy |
| `AofFlush.Aof.Feed` | src/aof.c:1352-1354 | file followed by buffer stays all bytes fed |
| `AofFlush.ContinuesIff` | src/aof.c:731-731 | a write continues the file exactly in append mode or at its end |
| `AofFlush.UndoneWrite` | src/aof.c:1171-1190 | truncating to the old size undoes a short write |
| `AofFlush.HoleAfterUndo` | src/aof.c:793-793 | counterexample for descriptors opened without append mode: after an undone short write the next write leaves a hole |
| `AofServer.Server.FinishRewrite` | src/aof.c:2645-2794 | whatever fails, replaying BASE, INCR files and buffer still gives the live dataset in AOF_ON and a failed rewrite leaves both manifests alone; success gives exactly the new manifest with the child snapshot as BASE, and turns AOF_WAIT_REWRITE on with one INCR file |
| `AofServer.Server.StartRewrite` | src/aof.c:2464-2532 | starts exactly when possible, with the snapshot of the moment; the replayed dataset stays the live one |
| `AofServer.Server.OpenNewIncr` | src/aof.c:774-835 | a new empty INCR file, or the temporary one, or nothing; the replayed dataset stays the same |
| `AofServer.Server.SwapOn` | src/aof.c:2663-2733 | the renames and the manifest update in AOF_ON: the replayed dataset stays the live one, with the snapshot as BASE on success and unchanged manifests on failure |
| `AofServer.Server.SwapWaiting` | src/aof.c:2690-2733 | the same in AOF_WAIT_REWRITE: the temporary INCR file gets its name and the log replays to the live dataset on success |
| `AofServer.Server.SwapOff` | src/aof.c:490-520 | with the log off the snapshot replaces all INCR files exactly when no file was left open |
| `AofServer.FailedSwitchKeepsIncr` | src/aof.c:993-998 | a run (on, off, a switch on whose fork fails, a rewrite) that ends with the log off and an INCR file listed |
| `AofServer.Server.DeleteHistory` | src/aof.c:658-680 | deletes exactly the history files, and does nothing when there are none |
| `AofServer.HistoryUnused` | src/aof.c:658-680 | no history file is one that replaying needs |
| `AofServer.Server.Cleanup` | src/aof.c:2782-2793 | the end of every rewrite leaves a valid state |
| `AofServer.Server.Feed` | src/aof.c:1352-1354 | a fed command reaches dataset and log together |
| `AofServer.Server.Flush` | src/aof.c:1053-1267 | moving commands from buffer to file keeps the replayed dataset |
| `AofServer.Server.Enable` | src/aof.c:963-1006 | switching on waits for a rewrite of the dataset of that moment, or stays off with the temporary file open if it was opened |
| `AofServer.Server.Disable` | src/aof.c:933-959 | switching off closes the file, stops the rewrite and collects nothing any more |
| `AofServer.Server.OpenOnStart` | src/aof.c:699-753 | the manifest and the files after the open at server start |
| `AofServer.Server.Restart` | src/server.c:7700-7704 | replays what the manifest lists, opens the last INCR file or a new one and removes the history; the open file is removed with it exactly when no INCR file was listed and the history holds the first one; otherwise the log replays to the dataset |
| `AofServer.RestartRemovesOpenFile` | src/server.c:7700-7704 | a run (on, off, a rewrite whose history stays, a restart) after which the file that the server writes to is deleted |
| `AofRewrite.HistoryNotInUse` | src/aof.c:658-680 | no history file has the name of a file in use |
| `AofRewrite.TrackedNewIncr` | src/aof.c:454-463 | a new INCR name is new, whatever was rewritten before |
| `AofRewrite.TrackedNewBase` | src/aof.c:427-447 | a new BASE name is new |
| `AofRewrite.TrackedMark` | src/aof.c:490-520 | marking as history keeps names apart |
| `AofRewrite.RestartReusesNameIff` | src/aof.c:348-355 | after a restart a new INCR file takes the name of a history file exactly when no INCR file is listed and the history still has the first one |
| `AofRewrite.RestartReusesName` | src/aof.c:471-484 | a run in which that happens |
| `AofRewrite.FlushedSame` | src/aof.c:1694-1752 | moving commands to the last INCR file does not change what is replayed |
| `AofRewrite.SwappedIs` | src/aof.c:1694-1752 | replaying a snapshot and the one INCR file opened with it |
| `AofRewrite.LeftoverTwiceIff` | src/aof.c:2476-2482 | commands still buffered at the fork would be replayed twice: harmless in general exactly when there are none |
| `AclReplay.TextRegenerates` | src/acl.c:687-718 | over every run of rules free of blanks, quotes and NUL bytes: the text splits into the retained rules, and applying them to +@all or -@all by the reserved bit gives the same bits, the same first arguments up to case, and the same text |
| `AclReplay.RunRegenerates` | src/acl.c:790-838 | over every run of rules, plain or not, the retained rules regenerate the permissions |
| `AclReplay.TextSplitsIff` | src/acl.c:813-814 | after every run of rules the text of the retained rules splits back into them exactly when each is free of blanks, quotes and NUL bytes |
| `AclReplay.BlankRuleDoesNotSplit` | src/acl.c:1293-1306 | a first-argument rule with a blank is accepted, its text splits into two words, and the second is refused as no rule |
| `AclReplay.RemovedIsCovered` | src/acl.c:588-629 | every rule that the text surgery drops is decided again by the new rule |
| `AclReplay.StepRegenerates` | src/acl.c:1243-1322 | one rule, accepted or refused, keeps the regeneration |
| `AclReplay.Reapply` | src/acl.c:710-714 | re-applying the retained rules gives exactly the same permissions and rules |
| `AclRules.Absorb` | src/acl.c:588-629 | dropping covered rules anywhere in the list does not change the permissions once the new rule is applied |
| `AclCommands.TokenIsRule` | src/acl.c:634-642 | the retained token of an accepted rule is the rule in lower case |
| `AclCommands.AcceptedIsStored` | src/acl.c:1243-1322 | a retained token is accepted again as the same rule |
| `AclCommands.LookupLower` | src/server.c:3520-3561 | command lookup ignores case, for single names and for container and subcommand |
| `AclCommands.LookupMeans` | src/server.c:3520-3561 | the lookup finds exactly the first command, or first subcommand of it, with the name, ignoring case |
| `AclCommands.DecodeDecides` | src/acl.c:1243-1317 | an accepted rule decides, by its sign, exactly the bits of what it names |
| `AclCommands.DecodeAccepts` | src/acl.c:1243-1317 | a signed rule is accepted exactly when it names a category, a command, a subcommand or, with a plus, a first argument of a command without subcommands |
| `AclText.RemoveCommandRule` | src/acl.c:588-629 | the in-place surgery on any text leaves exactly the pieces that the new rule does not make superfluous |
| `AclText.PiecesJoin` | src/acl.c:595-612 | every text is the join of the pieces that the scan finds in it |
| `AclText.PiecesOfWords` | src/acl.c:595-612 | the pieces that the scan finds in the text of plain rules are these rules |
| `AclText.KeptExactly` | src/acl.c:614-624 | exactly the stored rules that the new one does not make superfluous stay |
| `AclText.KeptMeans` | src/acl.c:614-624 | a rule goes exactly when, after its sign, it is the new one or continues it after a bar |
| `AclText.MoveLeft` | src/acl.c:620-620 | moves the tail of the text and its terminator to the left |
| `AclText.Matches` | src/acl.c:615-617 | equal bodies, or the stored one continues the new one after a bar |
| `AclSelector.Selector.SetSelector` | src/acl.c:1144-1322 | on any byte string refines one step of the abstract run, with the exact new text and error; on the bitmap, +@all and -@all decide every bit, a signed rule is accepted exactly when it names something, sets exactly the bits of what it names to its sign, and a first argument becomes allowed |
| `AclSelector.Selector.AllowPart` | src/acl.c:1254-1300 | the plus rule with a bar: subcommand or first argument, and its four errors |
| `AclSelector.Selector.ChangeCommand` | src/acl.c:646-660 | the entries of a command and all its subcommands become the value, every other one stays, and its first arguments are reset |
| `AclSelector.Selector.ChangeSubcommand` | src/acl.c:646-660 | the entry of a subcommand becomes the value and nothing else changes |
| `AclSelector.Selector.ChangeCategory` | src/acl.c:668-682 | exactly the entries of the commands in the category with their subcommands, and of subcommands in it themselves, become the value |
| `AclSelector.Selector.AddFirstArg` | src/acl.c:987-1012 | the argument is stored once, ignoring case, after the ones stored before; no other command changes |
| `AclSelector.Selector.UpdateCommandRules` | src/acl.c:634-642 | on any text drops the pieces that the new rule makes superfluous and appends it; on the text of plain rules that is dropping and appending rules |
| `AclSelector.Selector.SetBit` | src/acl.c:574-583 | sets exactly one entry of the bitmap to the value, and the all-commands flag follows |
| `AclSelector.Selector.Reset` | src/acl.c:1172-1181 | the permissions and the empty text after +@all and -@all |
| `AclSelector.Selector.Recompute` | src/acl.c:687-718 | no assertion fails exactly when the text splits and every word is accepted; after plain rules that holds and neither permissions nor text change |
| `AclSelector.Selector.Describe` | src/acl.c:790-838 | the described rules, or a failed assertion or panic, exactly by whether re-reading the text succeeds and gives the same bits; after plain rules it does |
| `AclSelector.Selector.Reread` | src/acl.c:812-816 | reading any text back meets no failed assertion exactly when the text splits and every word is accepted, and then gives what these words build |
| `AclIds.CommandIds.Get` | src/acl.c:1670-1694 | one id per name ignoring case, never the reserved bit, ids already given stay |
| `SdsArgs.SplitJoin` | src/sds.c:1150-1189 | words joined by single spaces split back into the same words |
| `SdsArgs.SplitJoinIff` | src/sds.c:1150-1189 | any texts that do not start with a space, joined by single spaces, split back into themselves exactly when none holds a blank, a quote or a NUL byte |
| `SdsArgs.SplitsToItselfIff` | src/sds.c:1044-1145 | a text splits into itself exactly when it is free of blanks, quotes and NUL bytes |
| `SdsArgs.SplitRepr` | src/sds.c:940-972 | a quoted text is read back exactly, whatever its bytes |
| `BlockingIndex.BlockAgrees` | src/blocked.c:434-486 | blocking a client keeps all indexes in agreement |
| `BlockingIndex.ReleaseAgrees` | src/blocked.c:579-611 | releasing a client from one key keeps lists and counter in agreement |
| `BlockingIndex.ClearedAgrees` | src/blocked.c:245-254 | clearing the blocked state keeps the per-type counts exact |
| `BlockingIndex.EntryExists` | src/blocked.c:586-606 | the entries that the source asserts to exist are there |
| `Blocking.Server.BlockForKeys` | src/blocked.c:434-486 | the client joins the tail of each list once, with the counters |
| `Blocking.Server.WaitOnKeys` | src/blocked.c:448-480 | the loop over the keys, duplicates ignored |
| `Blocking.Server.ReleaseBlockedEntry` | src/blocked.c:579-611 | unlinks the client, drops empty lists and zero counters |
| `Blocking.Server.UnblockClientWaitingData` | src/blocked.c:490-503 | the client leaves every list and no other client moves, in any order of its keys |
| `Blocking.Server.UnblockClient` | src/blocked.c:217-256 | the client is in no list, its type is counted once less, and it is queued once at most |
| `Blocking.Server.UnblockClientOnKey` | src/blocked.c:700-741 | the client leaves all lists and rejoins tails if its command blocks again, else it is queued once; no other client moves |
| `Blocking.Server.Retry` | src/blocked.c:717-731 | the pending command runs again and the client is blocked as it says or queued once |
| `Blocking.Server.SignalKey` | src/blocked.c:522-566 | exactly when clients of its type are blocked and the key has an entry the key is queued or already pending, so a list, sorted set or stream signal reaches every waiter blocked for it, and string, set and hash signals are never accepted |
| `Blocking.Server.VisitKey` | src/blocked.c:624-657 | examines exactly the clients waiting at its start, in blocking order, each once; those that the key can serve run again, the others keep their order in front, those that block again follow them, and those that do not are queued for reprocessing |
| `Blocking.Server.VisitWaiters` | src/blocked.c:638-655 | the loop over the list that its own body changes: the saved link leads to the next initial waiter and the count stops it before those that joined |
| `Blocking.Server.VisitClient` | src/blocked.c:639-653 | a waiter runs again exactly when it finds the list, sorted set or stream it is blocked for, or wants to be woken without the key; otherwise nothing changes |
| `Blocking.Server.DrainRound` | src/blocked.c:404-423 | visits every key set aside while new signals go to the fresh queue |
| `Blocking.Server.HandleClientsBlockedOnKeys` | src/blocked.c:383-425 | when it returns nothing is queued and a visit has followed every signal; a nested call does nothing |
| `Blocking.Server.QueueForReprocessing` | src/blocked.c:206-213 | queues a client once |
| `Blocking.Server.NextUnblocked` | src/blocked.c:158-170 | takes the oldest queued client |
| `Blocking.ServedIff` | src/blocked.c:383-425 | nothing is unserved exactly when a visit follows every signal |
| `BitPos.ServerBitpos` | src/bitops.c:310-395 | for every length and alignment the first position of the bit, else -1 or the length in bits; the panic is not reached |
| `Bits.HighBitFirst` | src/bitops.c:757-758 | bit 0 of a byte is its most significant one |
| `BitPos.WordSkips` | src/bitops.c:341-351 | a word is skipped exactly when all its bytes are |
| `BitPos.LoadWord` | src/bitops.c:360-368 | the big-endian load of up to eight bytes, padded with zeros |
| `BitPos.ScanWord` | src/bitops.c:381-389 | the least bit position in a word that holds the bit |
| `BitRange.BitPosCommand` | src/bitops.c:1086-1226 | BITPOS equals the naive search of the clamped range for every string, bit and BYTE or BIT range |
| `BitRange.ReplyMeans` | src/bitops.c:1086-1226 | the reply is the least bit of the value in the range; without one it is -1 or, for a zero without an explicit end, the position past the string |
| `BitRange.BitCount` | src/bitops.c:989-1083 | BITCOUNT equals the number of one bits in the clamped range |
| `BitRange.CountEdges` | src/bitops.c:1070-1080 | counting whole bytes and taking the masked edges away counts the range |
| `BitRange.ResolveRange` | src/bitops.c:1127-1146 | first and last byte and the two edge masks of a range |
| `BitRange.HeadShift` | src/bitops.c:1142-1142 | the shift expression masks exactly the bits before the first one of the range |
| `BitRange.TailShift` | src/bitops.c:1143-1143 | the shift expression masks exactly the bits after the last one of the range |
| `BitRange.SearchRange` | src/bitops.c:1175-1209 | searching masked first byte, middle and masked last byte finds the least position in the range |
| `BitRange.ClampEnds` | src/bitops.c:1134-1138 | both ends by cases: negative ones count from the end, and ends outside the string are clamped |
| `BitRange.SpanMeans` | src/bitops.c:1127-1146 | the span of a range holds exactly the bits whose byte or bit number lies between the start and the end |
| `BitRange.CountSpanMeans` | src/bitops.c:1022-1046 | BITCOUNT counts the same bits, but none for negative ends that run backwards |
| `Popcount.ServerPopcount` | src/bitops.c:282-301 | every variant counts the one bits |
| `Popcount.PopcountScalar` | src/bitops.c:141-191 | the seven-word kernel with alignment and tail loops counts the one bits |
| `Popcount.ColumnSumExact` | src/bitops.c:180-185 | the column sums stay within a byte: at most 224 |
| `Popcount.FoldWord` | src/bitops.c:166-185 | the folding steps work on each byte of a word separately |
| `Popcount.PopcountAvx2` | src/bitops.c:58-137 | the vector variant counts the one bits |
| `Popcount.RoundExact` | src/bitops.c:83-122 | at most eight rounds keep every byte lane exact: at most 64 |
| `Popcount.OnesIsCountBits` | src/bitops.c:141-191 | the per-byte count equals the count of one bits |
| `BitOp.BitOpCommand` | src/bitops.c:803-986 | the stored bytes are the bytewise fold over the zero-padded inputs of the longest length; an empty result deletes; NOT takes one key |
| `BitOp.FastPath` | src/bitops.c:880-938 | the four-word path equals the bytewise fold |
| `BitOp.SlowByte` | src/bitops.c:942-964 | the byte loop with its early exit equals the fold |
| `BitOp.Absorbed` | src/bitops.c:949-962 | after the early exit no later input matters |
| `BitOp.FourWords` | src/bitops.c:888-937 | one unrolled step works on exactly 32 bytes |
| `BitOp.Lengths` | src/bitops.c:834-865 | longest and shortest input, a missing key counting as empty |
| `BitOp.ResultMeaning` | src/bitops.c:942-964 | each result bit: all, some or an odd number of inputs have it, or the input lacks it |
| `BitField.SetUnsignedBitfield` | src/bitops.c:418-431 | writes exactly the field |
| `BitField.GetUnsignedBitfield` | src/bitops.c:438-450 | reads exactly the field |
| `BitField.GetSignedBitfield` | src/bitops.c:452-474 | reads the field as a signed number |
| `BitField.SetFieldValue` | src/bitops.c:418-431 | a written field holds the value modulo 2^bits |
| `BitField.SetFieldFrame` | src/bitops.c:418-431 | every other bit stays |
| `BitField.ReadBack` | src/bitops.c:433-474 | get after set returns the value, signed 1-64 and unsigned 1-63 bits |
| `BitField.WrapIsCongruent` | src/bitops.c:525-531 | the wrapped value is the only number of the type congruent to the sum |
| `BitField.UnsignedIncrExact` | src/bitops.c:499-533 | unsigned INCRBY overflows exactly when the sum is out of range; WRAP stores the congruent and SAT the clamped value |
| `BitField.SignedIncrExact` | src/bitops.c:535-584 | the same for signed fields of any width |
| `BitField.SignedSetExact` | src/bitops.c:535-584 | signed SET; SAT clamps exactly when the distance to the maximum fits 63 bits |
| `BitField.SatSetCounterexample` | src/bitops.c:541-541 | a value far below range that SAT stores as the maximum |
| `BitField.UnsignedSetExact` | src/bitops.c:499-533 | unsigned SET of any 64-bit value |
| `BitField.CopyWindow` | src/bitops.c:1441-1447 | the nine-byte window is the zero-padded string |
| `BitField.WindowValue` | src/bitops.c:1436-1458 | GET through the window equals reading the zero-padded string |
| `BitField.StepExact` | src/bitops.c:1358-1459 | each operation writes its outcome and no other bit, or nothing on FAIL |
| `BitField.OutcomeMeans` | src/bitops.c:1363-1415 | what a write stores, by explicit limits: the number in range, else its congruent number, the limit or nothing by the overflow type |
| `BitField.RepliesExact` | src/bitops.c:1376-1456 | every reply of every operation list: GET and SET reply the number before their operation, INCRBY the number after it, and FAIL none exactly where the number is out of range |
| `BitField.BitFieldCommand` | src/bitops.c:1253-1468 | the whole command: replies, stored string, growth to the last written bit; all accesses in bounds |
| `BitField.WriteExtent` | src/bitops.c:1308-1316 | the highest bit that any write touches |
| `SlotHash.KeyHashSlot` | src/cluster.c:58-76 | the slot of the tag between the first brace and the next closing one if not empty, else of the whole key |
| `SlotHash.HashedPartIsTag` | src/cluster.c:58-76 | what is hashed is the tag exactly when there is one |
| `SlotHash.PatternHashSlot` | src/cluster.c:82-107 | gives up exactly when a special byte comes before a complete tag; otherwise the slot of every key that the glob matches |
| `SlotHash.InferredPartForAll` | src/cluster.c:82-107 | an inferred part is the hashed part of every matching key, of any length |
| `SlotHash.MatchStartsLike` | src/util.c:63-189 | a matching key starts with the literal bytes of the pattern |
| `SlotHash.LiteralMatchesItself` | src/util.c:63-189 | a pattern without special bytes matches exactly itself |

## Left out

- AclSelector.Selector.SetSelector: operations on keys, channels and databases only leave the command permissions alone; what else they do, and their own errors, are not modelled.
- AofServer.Server.StartRewrite: assumes that the forced flush empties the buffer; LeftoverTwiceIff states what happens otherwise.
- AofServer.Server.StartRewrite: a rewrite scheduled for later, and switching the log on inside a transaction while a rewrite runs, are not modelled.
- AofServer.Server.Restart: failures to open the file or to write the manifest, which end the process, are not modelled.
- AofServer.Server.Flush: moves whole commands; a command split between file and buffer is the subject of AofFlush.
- AofFlush.Aof.Flush: replication offsets of fsync and background fsync errors are not modelled.
- AofFeed.LoadFile: a file in RDB format is recognised but not read; overflow of the decimal reader is not modelled.
- AofManifest.LoadManifest: opening the file, and the upgrade of a single old-style file, are not modelled.
- Migration.Node.MigrateSlots: takes parsed requests; the keywords around them are omitted, and the drive of each new job is Migration.Node.Proceed.
- Migration.Node.Establish: takes parsed fields; the order-free keyword loop is omitted.
- Migration.Node.Finish: replication of the result and module events are omitted.
- SlotTransfer.RunsKeepInv: one database, slots empty at the target, and a child that exits only after its snapshot is forwarded; SELECT tracking across snapshot and stream is omitted.
- Blocking.Server.UnblockClient: clients blocked by modules, WAIT, postponement or shutdown are omitted; timeouts and errors are this method with the queue flag.
- Blocking.Server.UnblockClientOnKey: re-executing a command may block its own client and signal keys, but is assumed to unblock no other client.
- BitRange.BitPosCommand: argument parsing and its error replies are omitted.
- BitField.BitFieldCommand: parsing of types and offsets, and the limit on string length, are omitted.
- BitOp.BitOpCommand: type errors of keys are omitted.
- Popcount.ServerPopcount: the NEON and SVE2 variants are omitted, their intrinsics being outside this model.
- SlotHash.KeyHashSlot: the CRC is an arbitrary function.
- Connections, authentication, forks and pipes are nondeterministic inputs; RDB contents, Lua, modules, passwords, key and channel patterns, logging and reply formatting are not modelled.
