# reportman: a verified model

reportman is a daemon, `reportmand`, that keeps two children running: `reportman_fm` moves and backs up
files between three directories (reports, dashboard, backup), and `reportman_mon` watches them. This
project models the parts of it that are hard to get right and proves what they guarantee. `dafny verify
dfyconfig.toml` checks all of it.

**The transfer engine.** `FileSystem` is a mutable tree of directories and files with modes. `Streams`,
`Transact` and `TransferWalk` are the copying loop, the hash check, the per-file transaction and the
recursive walk, written as the methods they are; every call that can fail takes its outcome from a fault
oracle, so a statement about all oracles is one about all patterns of faults. `TransferSpec` says path by
path what a transfer does, `TransferTheorems` what follows: no file is lost, and without faults the
destination is the source laid over what was there. `PostOrder` says in which orders a depth-first walk can
visit a tree, `Permissions` is the `nftw` chmod walk and `Routes` the timers, the command line and the client
commands over the three roots. `Overlap` lets two processes transfer the same file at the same time and says which
interleavings of their system calls lose it.

**The supervisor.** `IpcCodec` is the tagged 64-bit word. `Handshake` and `ProbeProtocol` are the start-up
and the health probes as all interleavings of two processes over two FIFO pipes. `Supervisor` is the
daemon's main loop as a method over a script of what its calls return; `SupervisorTheorems` bounds retries,
spawns and pipe ends and says when the PANIC exit is taken; `SupervisorRuns` tells every run from its script
alone.

**What feeds them.** `Argv` (the command line written for a child and parsed by it) with `ArgvGrammar` (all the
command lines that are accepted, and what they mean), `EventWalk` (the walk
over inotify events), `Clock` (the next HH:MM), `LogPath` over `CStrings` (the log file path) and
`PipeBuffer` (the growing buffer).

## Assumptions

- Source and destination trees are disjoint, joined paths fit their 1024-byte buffers, and `readdir` gives a
  snapshot in any order.
- The digest is any fold over bytes. Where a result needs it, the comparisons that the transfer makes are assumed
  not to be fooled: when the digests of the two contents it hashed agree, so do the contents.
- Whether the stream a copy is written through can be read is a parameter. The source opens it `"wb"`
  (src/libs/directory_tool.c:134), where it cannot: `hash_file` then sees no bytes of the copy, every file that
  does not hash as the empty one fails its check, BACKUP reports it as an error and TRANSFER leaves it in place. Results are
  proved for both cases.
- In `Routes` a run is a sequence of whole operations. The timers fire in signal handlers of `reportman_fm` while
  `reportmand` serves its clients, so two transfers can overlap in the source. `Overlap` takes two that do, on one
  file; the source of that file is not written meanwhile.
- The peer end of a pipe is open while the daemon reads; words are read and written whole.
- Local time is UTC.

## Where the code and its own words differ

- A TRANSFER does not survive a read error in the pass that hashes the source: if that pass is cut short where
  the copy is, the digests agree and the source is removed. `SafeWithReadBack` and `SafeAsWritten` give the
  exact condition.
- The reply to `get_timers` (src/reportmand.c:669) says that transfers go from reports to dashboard and backups
  from dashboard to backup. The timers are set the other way round (src/reportman_fm.c:206, 220); only the
  command line does what the reply says. The model follows the code.
- `IN_EVENT_NEXT` advances by `len`, but inotify's `len` does not count the header, so the walk is right on
  hardly any real buffer: `KernelWalk` says on which.
- The number `transfer_directory` returns also counts directories, and leaves out entries whose `stat` fails.
- `args` in `start_child_process` is one element too short for its NULL (src/libs/reportman.c:489, 502), and
  `__directories` (src/reportmand.c:97) has no NULL, so the counting loop runs past its end. The model has room for
  the first NULL and reports the second case.
- `__parse_bool_arg` takes strcmp for equality, so "true" is the one text that means false. `GrammarExactly` has it so.
- `access(...) == W_OK` is never true, so a log directory that cannot be written to is accepted.
- A file directly under `/` is never accepted as a log file, since `realpath("")` fails.
- Nothing keeps the timed TRANSFER and a client's, both from dashboard to backup, from working on the same file.
  With read-back and a copy that falls short this loses the file in exactly the interleavings that
  `ShortCopyLosesExactly` describes; without read-back it never does, but for a file that hashes as the empty one.
- The command variable of the main loop is not initialised; `PanicExactly` shows that this matters.

## Model

| member | source | states |
|---|---|---|
| Digests.UpdateConcat | src/libs/directory_tool.c:202-205 | hashing a file in pieces is hashing it whole, and a piece of one byte is one step |
| Digests.EachByteOnce | src/libs/directory_tool.c:202-205 | each byte that is read is absorbed by exactly one step, after all bytes before it and before all behind it |
| Digests.ExactTellsApart | src/libs/directory_tool.c:191-208 | every byte and its place count: under an algorithm that writes the bytes down as digits, two contents have the same digest if and only if they are equal, so there are algorithms without collisions |
| Streams.ReadThroughAll | src/libs/directory_tool.c:142 | however a file is split into non-empty reads, the reads deliver all of it |
| Streams.CopiedIsRead | src/libs/directory_tool.c:142-145 | with no short write the copy is exactly what was read, for any length and any split |
| Streams.OneShortWrite | src/libs/directory_tool.c:142-145 | a single short write costs exactly the rest of its 1024-byte chunk: it goes unnoticed and the next chunk is put right behind what was written |
| Streams.OneReadError | src/libs/directory_tool.c:142 | a read error ends a pass where it strikes, as the end of the file would |
| Streams.CopyStream | src/libs/directory_tool.c:142-145 | the copying loop, under any short reads and short writes, appends to the destination exactly the prefixes of the chunks that the writes took |
| Streams.HashFile | src/libs/directory_tool.c:191-208 | the streaming digest is the digest of the whole byte sequence a rewound pass delivers; of nothing when the stream cannot be read |
| Streams.VerifyFiles | src/libs/directory_tool.c:172-186 | 0 when the two digests agree and -1 when they do not |
| Streams.FaultFreeCopyVerifies | src/libs/directory_tool.c:142-147 | without faults and with read-back the copy of any file equals it and passes the check, whatever the chunks |
| Transacts.TransactTransferFile | src/libs/directory_tool.c:121-167 | the return code and the whole file system after one transaction, for each method and each fault |
| Transacts.TransactionExactly | src/libs/directory_tool.c:121-167 | with a digest without collisions and hashing passes without read errors: -1 and nothing changed if and only if a file cannot be opened, else the copy is written, the result is 0 if and only if what can be read back of it are all the bytes and else -2, and the source goes exactly on a TRANSFER with result 0 whose remove works |
| Transacts.ShortWriteIsCaught | src/libs/directory_tool.c:142-154 | a short write inside the file always gives -2 and keeps the source |
| Transacts.VerifiedCopyIsExact | src/libs/directory_tool.c:147-161 | when the source is hashed to its end and the two contents compared are no collision, a copy that passes the check has all of its bytes, also when the copy could not be read back, and then the file is empty |
| Transacts.SafeWithReadBack | src/libs/directory_tool.c:121-167 | with read-back and no collision between the two contents compared, no combination of other faults loses the file if and only if the pass that hashes the source reads all of it |
| Transacts.SafeAsWritten | src/libs/directory_tool.c:134-161 | as written, the file is safe from all other faults if and only if it is empty or its hashing pass yields another digest than no bytes do |
| TransferWalk.TransferDirectory | src/libs/directory_tool.c:215-288 | whatever order readdir gives, the walk terminates, leaves the file system as the path-by-path specification says and returns the number of failures |
| TransferWalk.TransferEntry | src/libs/directory_tool.c:236-284 | one turn of the loop deals with exactly one entry and adds exactly its failures |
| TransferTheorems.NoFileIsLost | src/libs/directory_tool.c:121-167 | under any pattern of faults of mkdir, opendir, stat, open, remove, short writes and short reads outside the source's hashing pass, a source file that is hashed to its end, and whose one comparison of digests is not fooled by a collision, keeps its bytes, at its own or at the matching destination path |
| TransferTheorems.NothingElseGoes | src/libs/directory_tool.c:215-288 | paths outside both trees keep their nodes, no destination path disappears, and directories stay everywhere |
| TransferTheorems.RemovedIsThere | src/libs/directory_tool.c:158-165 | a source path disappears only on TRANSFER, only if it is a file, and only when a file is at the matching path |
| TransferTheorems.ErrorCount | src/libs/directory_tool.c:228-232 | the number returned is the number of reached files whose transaction failed plus that of reached directories that could not be opened; failing stats count for nothing |
| TransferTheorems.FileExactly | src/libs/directory_tool.c:215-288 | under any faults, each file of the source tree is copied, and on a verified TRANSFER removed, if and only if no opendir above it and no stat on the way to it fails, both its opens work, and the directories for its copy are there or can be made; otherwise both its places stay as they were |
| TransferTheorems.DirectoryExactly | src/libs/directory_tool.c:223-251 | under any faults, a missing directory is made at the destination exactly where the walk gets to a directory of the source, or at the root, and the way to it is there or can be made |
| TransferTheorems.FailuresExactly | src/libs/directory_tool.c:228-283 | under any faults, the paths counted as errors, told from the faults on the way to each |
| TransferTheorems.ModesAfter | src/libs/directory_tool.c:134 | after any transfer, whatever goes wrong, every node that was there has its old mode, a new directory has 07 and a new file 0666 |
| TransferTheorems.CleanOverlay | src/libs/directory_tool.c:234-287 | without faults and clashes the destination is the source laid over the old destination; BACKUP leaves the source, TRANSFER keeps its directories and removes every file with read-back and, as written, exactly those with the digest of no bytes |
| TransferTheorems.CleanErrors | src/libs/directory_tool.c:257-280 | the failures are then none with read-back, and as written exactly the files whose digest is not that of no bytes |
| Overlaps.TransactionIsARun | src/libs/directory_tool.c:121-167 | one process on its own, call by call, ends as the transaction does |
| Overlaps.OverlapLosesExactly | src/libs/directory_tool.c:158-165 | however the calls of two processes on one file fall together, and whatever each copies, reads and hashes, the file is lost if and only if, when its source is removed, what the other process has written and still has to write does not leave its bytes in the destination |
| Overlaps.WholeCopiesSurvive | src/libs/directory_tool.c:142-165 | without a read error or a short write in the two copying loops no interleaving loses the file, even if a comparison is fooled |
| Overlaps.ShortCopyLosesExactly | src/libs/directory_tool.c:134-165 | when one process copies the whole file and the other only a proper prefix, both hash all of it and no comparison is fooled, the file is lost if and only if that process truncates the destination after the other one has read its own copy back to the end, and the other one's remove then works |
| Overlaps.OverlapCanLose | src/libs/directory_tool.c:127-161 | with read-back there is an interleaving that loses the file to a copy that falls short |
| Overlaps.WriteOnlyOverlapIsSafe | src/libs/directory_tool.c:134 | as written, no interleaving removes a source that does not hash as no bytes do |
| PostOrders.BranchesAreWhole | src/libs/directory_tool.c:409-421 | when a depth-first walk has got to a node, every tree not holding that node has been visited as a whole or not at all, and none of the nodes above it has |
| PostOrders.ChildrenFirst | src/libs/directory_tool.c:412 | FTW_DEPTH: every node is visited after everything below it |
| Permissions.ChmodWalk | src/libs/directory_tool.c:409-421 | the walk changes the modes of exactly the nodes before the first one, in a post-order of the tree, whose chmod fails: all of them when none does, and none when the root is missing |
| Routes.BackUpDirectory | src/libs/directory_tool.c:353-374 | the timed backup is the two locking walks, the BACKUP and the two unlocking walks, in that order, each changing exactly the nodes before its first failing chmod in a post-order of its tree; another signal does nothing |
| Routes.BackupModes | src/libs/directory_tool.c:394-421 | if no chmod fails the copy starts with both trees at 0440 and ends with the target, new files included, at 0440 and the source at 0660 |
| Routes.TransferModes | src/libs/directory_tool.c:375-393 | if no chmod fails the timed transfer starts with the dashboard at 0440 and ends with it at 0660; elsewhere old nodes keep their modes and new ones have 07 and 0666 |
| Routes.TransferDirectoryOnTimer | src/libs/directory_tool.c:375-393 | the timed transfer between two walks over the dashboard, the backup timer's target, to 0440 and to 0660, each up to its first failing chmod; another signal does nothing |
| Routes.CommandLine | src/reportman_fm.c:46-50 | the command line's backup and then its transfer, on their own roots |
| Routes.HandleCommand | src/reportmand.c:639-651 | the client's commands on their roots, backup from reports to backup and transfer from dashboard to backup, and the number of errors reported for them |
| Routes.TimedBackupFeeds | src/reportman_fm.c:206 | without faults and clashes the timed backup lays reports over the dashboard and changes no other content |
| Routes.TimedTransferMoves | src/reportman_fm.c:220 | the timed transfer lays the dashboard over the backup and removes the files of the dashboard, or those that hash as no bytes when copies cannot be read back; reports stay |
| Routes.CommandLineBackupFeeds | src/reportman_fm.c:46-47 | the command line's backup lays the dashboard over the backup and changes no other content |
| Routes.CommandLineTransferMoves | src/reportman_fm.c:49-50 | the command line's transfer lays reports over the dashboard and removes the files of reports in the same way; the backup stays |
| Routes.ClientBackupFeeds | src/reportmand.c:641-644 | the client's backup lays reports over the backup and changes no other content, the dashboard included |
| Routes.ClientTransferMoves | src/reportmand.c:646-649 | the client's transfer lays the dashboard over the backup and removes the files of the dashboard in the same way; reports stay |
| Routes.ClientErrors | src/reportmand.c:641-651 | the number of errors a client is told of is then 0 with read-back and as written the number of files of its source root that do not hash as no bytes |
| Routes.FilesOnlyMoveForward | src/reportman_fm.c:206-220 | in any event of a run a file leaves a root only by a TRANSFER to the next root, where it then is |
| Routes.NeverFallsBack | src/reportman_fm.c:46-50 | over any run of scheduled, command-line and client operations with any faults, the furthest root that holds a file at a relative path never falls back, so a file present under some root stays present under some root |
| Routes.RearmostBytesSurvive | src/libs/directory_tool.c:147-165 | over any such run the bytes of the copy that is least far along reports, dashboard, backup are neither lost nor changed, given that each transfer that meets them hashes them to their end and is not fooled by a collision: they stay or move on as they are |
| Routes.BackupNeverShrinks | src/reportmand.c:641-649 | over any run the backup root never loses a path |
| IpcCodec.DecodeEncode | src/libs/reportman.c:96-115 | a sent value is received as its low 28 bits, never as the failure value, and unchanged if and only if it is below 2^28 |
| IpcCodec.DecodeExactly | src/libs/reportman.c:96-115 | a word without the tag of a value is received as the failure value, one with it as its low 28 bits and never so; nothing above 0xEFFFFFFF is sent |
| IpcCodec.ValueAsCommand | src/libs/reportman.c:28-32 | a sent value passes for a command if and only if its bits 24 to 27 are all ones |
| IpcCodec.CommandsAreValues | src/libs/reportman.c:77-81 | every command word passes the test for a value |
| IpcCodec.CommandsAsAck | src/libs/reportman.c:34-38 | of the five commands only ACK and HEALTH_PROBE pass the test for an ACK |
| Handshake.StepKeepsInv | src/reportmand.c:765-861 | every step of either process keeps the pipes holding exactly what one side has written and the other has not read, and only a timeout makes the daemon give up |
| Handshake.DeadlockFreeExactly | src/libs/reportman.c:217-232 | at every point of every interleaving the start-up is over or some process can move without a timeout, if and only if both timer ids are at most 0xEFFFFFFF |
| Handshake.HangsExactly | src/reportmand.c:793-803 | a start-up can hang where not even a timeout ends it if and only if the backup id fits and the transfer id does not, since the read of the second timer has no timeout |
| Handshake.FinishedStartUp | src/reportman_fm.c:185-199 | every finished start-up ends with both pipes empty and the daemon holding backup then transfer timer, each reduced to its low 28 bits |
| Handshake.MaximalRunFinishes | src/reportmand.c:765-861 | with such ids every run without a timeout that goes on for as long as anything can move is finished after at most ten steps |
| ProbeProtocol.RepliesAreNeverStale | src/reportmand.c:1049-1079 | in every run, with any delays, timeouts, deaths, kills and respawns, the pipes are empty between probes but for a monitor's handshake word, and every accepted word answers the probe sent last over the current pipes |
| ProbeProtocol.AProbeIsAnswered | src/reportman_fm.c:113-127 | a probe of a child that is up goes round and leaves both processes and both pipes as they were |
| ProbeProtocol.HungChildRecovers | src/reportmand.c:1056-1075 | a child that takes a probe and does not answer it in time is killed and replaced: daemon and child are at rest again, over pipes of the next generation, and nothing was taken for an answer |
| ProbeProtocol.DeadChildRecovers | src/reportmand.c:1055-1075 | so is a dead child, found dead by a probe or reaped after the SIGTERM |
| ProbeProtocol.StandsStillOnlyThere | src/reportmand.c:793-861 | in every run something can happen without a death or a decision to end, except at the end, before the death of a child that was sent SIGTERM, and in the read of the second timer, which is stuck if and only if no word is there and none will be sent |
| ProbeProtocol.RunsAddUp | src/reportmand.c:1049-1079 | in every run the daemon has ended if and only if it decided to or a start-up was silent, the generation is the number of respawns, each of which had a death of its own, and the accepted answers are as many as the probes that were answered |
| ProbeProtocol.DaemonKeepsInv | src/reportmand.c:393-417 | every daemon step keeps the protocol's invariant, and ends the daemon only by its decision or on a silent start-up |
| ProbeProtocol.ReadingKeepsInv | src/reportman_mon.c:131-156 | every word a child reads keeps it, the child's switch over the command included |
| Supervisor.ChildProcess.HealthProbe | src/reportmand.c:1049-1079 | the child's counters and the daemon's fate after one probe, by its liveness, its answer and how the respawn goes; the probe counts as failed if and only if the child is dead or sent no word with the command tag in time |
| Supervisor.ChildProcess.StartChildProcess | src/libs/reportman.c:445-539 | the pipe ends gained by a spawn, by how its pipes and its fork fare |
| Supervisor.Daemon.ListenToClients | src/reportmand.c:269-420 | the state and the ending of the main loop after any script of polls |
| SupervisorTheorems.SpawnsAndExits | src/reportmand.c:1067-1074 | in any run each child is spawned at most limit + 2 times, the daemon gives up exactly on failed probe number limit + 2, the 16-bit counter has not wrapped, and it holds two pipe ends per completed spawn |
| SupervisorRuns.CountersExactly | src/reportmand.c:1049-1079 | while a run goes on, a child's failed count is the number of its probes that found it dead or got no word with the command tag, the 16-bit counter that number reduced, and spawns and pipe ends are those of the first start and of the failed probes whose respawn got as far |
| SupervisorRuns.RunEndsExactly | src/reportmand.c:269-420 | whether and how any poll ends the run, told from the poll and the number of failed probes before it |
| SupervisorRuns.RunsOnExactly | src/reportmand.c:269-420 | a run goes on if and only if poll did not fail, no poll held a reason to end, and neither child failed more than limit + 1 probes |
| SupervisorRuns.SilentChildEnds | src/reportmand.c:1058-1071 | a child that lives but never answers is started anew at every probe up to number limit + 1 and ends the run at number limit + 2 |
| SupervisorTheorems.LimitWorksExactly | src/reportmand.c:1067-1071 | some run of the main loop gives up on a child, with no failed probe of the other, if and only if that child's limit is below 65535; with both limits at 65535 no run gives up |
| SupervisorTheorems.PanicExactly | src/reportmand.c:373-414 | in every run the PANIC exit is taken exactly on a PANIC word just read by a poll branch or a read before a probe, and the command variable is not PANIC at any loop head, if and only if that uninitialised variable does not start as PANIC |
| SupervisorRuns.HeldPanicStrikes | src/reportmand.c:373-388 | if the uninitialised command variable starts as PANIC the first read takes the PANIC exit unless it gets a word with the command tag that is none |
| SupervisorTheorems.PanicAnswersAreSwallowed | src/reportmand.c:1058-1060 | every run goes exactly as if each PANIC word that answers a probe had been an ACK |
| SupervisorTheorems.PanickingChildIsKept | src/reportmand.c:1053-1064 | a child that answers every probe with PANIC is in no run counted as failed or started anew |
| Argv.ParseDecimal | src/libs/reportman.c:261-273 | every descriptor that is printed is parsed back |
| Argv.BuildArgs | src/libs/reportman.c:467-502 | the array handed to execv holds the fixed arguments and the directories in order up to its NULL; more than 26 directories exit, and an array that ends without a NULL before that is overrun |
| Argv.NoNullNoEnd | src/reportmand.c:97-113 | the daemon's own array, like any list of at most 26 directories without a NULL, is overrun, and with a NULL it is not |
| Argv.MonitorArgs.ConfigureMonitorArgs | src/reportman_mon.c:199-277 | the parsing loop with its doubling array computes the configuration the grammar of the arguments gives, or exits when that fails |
| Argv.RoundTrip | src/reportman_mon.c:199-277 | parsing what the daemon built recovers the flag, both descriptors and the directories in order, or the default ones, if and only if no directory starts with a dash |
| ArgvGrammar.GrammarExactly | src/reportman_mon.c:199-277 | the command lines the monitor accepts are exactly the lists of its options, in either spelling, any number and any order, and of directories without a dash, with numbers for descriptors; and the configuration is what they mean one after the other |
| ArgvGrammar.ParseIntExactly | src/libs/reportman.c:261-273 | a number with spaces and a sign in front and anything but a digit behind is taken at its value if that is a signed 32-bit one, and refused otherwise |
| ArgvGrammar.NoArguments | src/reportman_mon.c:13-34 | the configuration of a monitor started without arguments |
| EventWalk.WalkEvents | src/reportman_mon.c:116-127 | the loop visits the offsets of the walk, at most length / 16 of them, and looks at no header outside the buffer |
| Bytes.Word32Exactly | src/libs/include/monitor_tool.h:28-30 | the 32-bit length field is read lowest byte first, wherever it is in the buffer |
| EventWalk.StridedWalk | src/libs/include/monitor_tool.h:28-30 | on contiguous records whose length field is their whole stride it visits exactly those, in order, and reads back every field |
| EventWalk.KernelWalk | src/libs/include/monitor_tool.h:28-30 | on the kernel's own layout, where the length counts the name only, it visits exactly the records if and only if there is none, or a single one with at least 16 bytes of name whose last four do not read as 16 |
| Clock.YearLength | src/libs/reportman.c:427-436 | the POSIX year formula grows by 366 in leap years of the Gregorian calendar and by 365 in the others |
| Clock.CarriedIsSameDay | src/libs/reportman.c:434-436 | carrying tm_mday past month ends, year ends and leap days gives a valid date of the same time |
| Clock.BrokenIsSameTime | src/libs/reportman.c:427-428 | breaking a time down and taking the seconds of the result gives the time back, for every time |
| Clock.Tm.Mktime | src/libs/reportman.c:433-436 | mktime normalizes the struct in place and returns the same time |
| Clock.GetHhMmStr | src/libs/reportman.c:416-438 | the error codes, and on success the least time not before now whose time of day is HH:MM:00 |
| Clock.LaterFirings | src/libs/directory_tool.c:318-321 | the first firing is less than a day ahead and every later one is again at that time of day |
| LogPath.RemoveLastItemPath | src/reportmand.c:1021-1036 | splits exactly when there is a slash; directory, slash and item make up the path and the item has no slash |
| LogPath.GetPath | src/reportmand.c:924-970 | the code for every path and system, and an accepted path comes out character for character as it went in |
| LogPath.PathCodeExactly | src/reportmand.c:924-970 | a path without a slash is accepted if and only if it resolves, one with a slash if and only if what is in front of its last slash resolves and its parent exists; -1, -4 and -3 tell the failures apart |
| LogPath.LastSlash | src/reportmand.c:1025-1033 | there is only one way to split a path at its last slash |
| LogPath.RootFilesAreRefused | src/reportmand.c:946-951 | a file directly under the root directory is never accepted |
| PipeBuffer.SavePipeBuffer | src/reportmand.c:599-631 | the buffer returned holds exactly the concatenation of all lines and its NUL, unless a line does not fit the buffer as it has grown |
| PipeBuffer.ModestFits | src/reportmand.c:610-623 | no line ever overruns the buffer when each line after the first is no longer than the buffer is by then |
| PipeBuffer.EmptyLinesExactly | src/reportmand.c:605-628 | a line of length 0 changes nothing for the others, but at the very beginning overruns the buffer |
| PipeBuffer.LongFirstLineFits | src/reportmand.c:605-613 | a first line of at least 512 characters makes every output safe |
| PipeBuffer.TwoLinesExactly | src/reportmand.c:610-628 | two lines are saved if and only if the first is not empty and the second is less than three times as long |

## Left out

- Sockets, the singleton port, `lsof` parsing, daemonising, systemd, signal setup and the `reportmanc` client.
- `poll`, `select`, `fork`, `exec` and `waitpid` beyond their outcomes, and the end of file a read meets when the
  peer is gone, after which the source looks at an uninitialised word.
- The SHA-256 compression function; the digest is a parameter.
- A failing `fseek` in `hash_file`, symbolic links, special files, access control and umask other than 0.
- Truncation of joined paths at 1024 bytes and of arguments at their buffers, and overflow of the 32-bit error count.
- `mt_event_process`, its mask table and log messages: index loops and formatting that nothing else rests on.
- `strftime`, the text of replies, `sscanf` (its two numbers are the input), time zones and daylight saving.
- `init_directories` and `parse_command`: small tables with no state.
- Overlaps of whole walks, and of operations on different routes: a timed backup that rewrites a file of the
  dashboard while a transfer reads it.
- The bytes of copies further along than the rearmost one over a whole run: a later operation overwrites a file of the
  same name at its destination.
