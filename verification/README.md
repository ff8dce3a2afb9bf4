# A verified model of `unsynced`

`unsynced` takes a recorded workload, enumerates the states a crash may leave
its directory in, and asks a checker about each. This project models that engine
in Dafny and proves what it promises: which crash states it considers, that it
considers all of them, what `fsync` and ext4's ordering buy, what a clean report
means, that a system-call log is turned into the right operations, and that the
example log and the replace-by-rename recipe keep their data.

`dafny verify dfyconfig.toml` (Dafny 4.11) checks the whole project. All main
results are for every trace, every content, every block size and every subset of
micro-ops; nothing is bounded.

## How it is laid out

| files | what they model |
|---|---|
| `Paths`, `Order`, `Sorting`, `Trace`, `Wrappers` | slash-separated paths on strings and on components, iteration order of ordered maps, traces and trees |
| `FileSystem`, `Walk`, `Namespace`, `Reshape`, `Snapshot`, `Shapes` | the inode table, micro-ops applied in place, the walk that shows a tree, when an inode table is a tree, loading snapshots |
| `Runs`, `Stages`, `Compiler`, `Bytes`, `Reference`, `Replay` | what a trace compiles to (`IsProgram`), the one-pass compiler with its pending maps, torn writes byte by byte, and the path-level reference the replay refines |
| `Crash`, `Enumerate`, `Locality` | legal crash states (`Legal`, taken from `docs/model.md`), closure, enumeration by bit masks or samples, materialization |
| `Durability`, `Entries`, `Ordered`, `Promises` | what barriers buy, name by name for directories, what ext4's ordering buys, the two profiles compared, restated on paths |
| `Explorer`, `Check`, `Tool`, `Recovery`, `Twice` | the search, verdict cache, minimization, classification, grouping, the whole `check`, `check_with_recovery`, and a double crash it does not report |
| `Kernel`, `Unnoticed`, `Recording`, `Placing`, `Names`, `Descriptors`, `Strace` | POSIX descriptors and offsets, entries the tracker takes no notice of, the ops each call amounts to and where they stand in the trace, tracked names and lengths, tracked descriptors, the tracker that follows them from a log |
| `Absolute`, `Deleted` | absolute paths, and names that end like that of a deleted file |
| `Syncing` | bringing a directory to a wanted tree by changing only what differs |
| `LogFormat`, `Flat`, `Wal`, `Naive`, `Torn`, `Repair`, `Replace` | the example log with and without the fsync of its directory and checksums, both bugs of the naive variant, its two repairs, and replace-by-rename |

The mutable parts of the program are mutable here: `FileSystem.Fs`,
`Check.Engine`, `Strace.State` and `Syncing.Disk` are classes, the closure works
in place on an array, and the compiler, the search and the log reader are loops.
Each is proved against a specification function or a relation to the real state,
about which the lemmas then speak.

`Crash.Legal` is the definition everything else is measured against: what a
barrier before the crash covers has persisted and, on ext4, metadata persisted in
order, data before the size that exposes it, and data before the rename that
replaces a file. `Runs.Covers` is the durability table. `Kernel.Possible` and
`Kernel.After` say which calls POSIX.1-2017 lets succeed and what they do (`open()`,
`write()`, `dup()`, `fork()`, `lseek()`, `rename()`).

## What does not hold, and when it does

- A write of no bytes past the end of a file still grows it in the compiled model
  (`Reference.EmptyWrite`), whereas POSIX.1-2017 `write()` with zero bytes has no
  effect. The tracker records no op for it but remembers the larger length.
- What the tracker knows stays right, and so the ops it records stay exactly those the
  calls amount to, precisely until such a write, a rename of a path to itself, an
  `fcntl` that switches `O_APPEND` on an open file, a call that moves a cursor unnoticed
  (`preadv2` at the cursor, `sendfile`, `splice`), an `unshare` of a table still shared, or a
  call that an unnoticed entry gets in the way of: `Recording.Misses`, with
  `Strace.State.Apply` for the equivalence.
- Entries under the root that nobody took notice of (links, sockets, other special files,
  files moved in, names ending in " (deleted)") make the compiler refuse the trace exactly
  if a recorded op needs one of them or puts something in one: `Unnoticed.Astray`, with
  `Strace.Parse` and `Recording.RecordedLogRunsIff`. Three inputs are a file made in a directory
  whose name ends in " (deleted)" (`Deleted.UnnoticedDirIsRefused`, `Deleted.UnnoticedDirInput`),
  a write to a file open in a directory that is renamed so (`Deleted.WriteBelowHiddenDir`), and
  a socket that is removed (`Deleted.UnnoticedRemovalIsRefused`). Otherwise the ops
  replay and their names are those that were left; where everything is noticed they
  always do (`Unnoticed.NoticedNeverAstray`).
- A file whose name ends in " (deleted)" is taken for one that is gone: its creation is
  recorded exactly if its name does not end so (`Deleted.NewFileIsRecordedIff`,
  `Absolute.RelOfInside`).
- `docs/model.md:111-117` says that a recovery that passes survives a second crash
  at any point, judged by the marks of its first crash. The code keeps one set of
  marks per distinct recovery trace, those of whichever crash a worker first met it after,
  with one worker the earliest (`Recovery.RecordedIsEarliest`), so a second crash that loses
  acknowledged data can go unreported (`Twice.OwnMarksCanBeMissed`). The marks on record
  are every crash's own exactly if crashes with the same recovery have the same marks
  before them (`Recovery.OwnMarksIffSame`); then a clean report means what the document
  says, however the workers were scheduled. What the document would accept is never
  reported (`Recovery.CheckWithRecovery`). The model follows the code.
- A checker that reads the crash point is shown each content and acknowledgement once,
  at one point only: a clean search holds for every state exactly if its verdict does not
  depend on the point beyond those (`Tool.CheckWithPoints`), and the points
  after a barrier are never shown (`Explorer.QuietPointsAreNotShown`).
- Replace-by-rename without the file fsync is safe on posix only when there is
  nothing to tear (`Replace.UnsyncedSaveIsSafeIff`); without the directory fsync an
  acknowledged update can be lost under either profile, and without the file fsync it can
  be lost on posix (`Replace.SavedIsKeptIff`).
- The log keeps its acknowledged records exactly if its directory is fsynced, on ext4, or
  if there are none (`Naive.AcknowledgedSurviveIff`). On posix it never reads back what was not
  written exactly if no choice of blocks of a record reads as another one
  (`Torn.NeverGarbageIff`); without checksums, exactly if no record has non-zero bytes in two
  blocks (`Torn.UncheckedNeverGarbageIff`).
- Rewriting repair of the log is crash-safe only when there is nothing to repair or
  nothing to keep (`Repair.RewritingRepairSurvivesIff`).

## What is assumed

- Paths in a trace are normal (no leading, trailing or doubled slash), snapshots list
  every parent, and renames and removals are not about the root itself:
  `Reference.IsNormalTrace`. The inode-level results (`Compiler.Compile`, the crash
  algebra, the guarantees in `Durability` and `Ordered`) need only a well-formed
  snapshot.
- A trace has fewer ops than the number that stands for "never", two to the 64 minus
  one, and `exhaustive_limit` is below 64, since the masks are 64-bit.
- The 64-bit hash of a tree is taken as injective: a key is the tree itself. The
  checker is a function of the recovered tree and the marks (`Explorer.PointChecker` adds the
  point). The random bits of the
  sampled search are arbitrary functions, the checksum of the log an arbitrary
  function, the hash that orders recoveries an arbitrary ranking.
- Lengths and offsets are unbounded naturals; the overflow of a 64-bit offset plus
  length is not modelled.
- A log starts with one process that inherited nothing under the root, a child's calls
  follow its clone's return, process ids are not reused, nothing takes the place of a
  noticed file unnoticed, and a file opened under a name that ends in " (deleted)" is not
  used through that descriptor after it gets another name (`Descriptors.StartsAfresh`,
  `Kernel.Possible`).
- The trace a recovery returns has the crash state it was given as its initial snapshot, as
  `docs/model.md:107-110` says (`Recovery.StartsFromGiven`). Only what is said of recoveries
  that are not explored a second time rests on it.
- The workers call recovery on the jobs in any order; minimization comes after them, as
  in the code.

## Model

| member | source | states |
|---|---|---|
| `FileSystem.Fs.Apply` | src/model.rs:150-191 | Applying a micro-op in place, branch by branch, changes every node by its own effect and by nothing else: locality of `apply`. |
| `FileSystem.Fs.FindPath` | src/model.rs:125-134 | The walk finds the inode the recursive lookup defines, and never indexes outside the node table. |
| `FileSystem.ParentResolves` | src/model.rs:309-309 | Whenever any string resolves, what `split` leaves of it does too: the unguarded parent lookups of rename and unlink cannot fail. |
| `Paths.JoinSplits` | src/trace.rs:166-168 | `split` undoes `join`, and joining adds exactly one path component. |
| `Paths.BelowIsPrefix` | src/model.rs:304-306 | The string test "is `dir`, or starts with `dir/`" is exactly "the components of `dir` are a prefix". |
| `Paths.Rebase` | src/strace.rs:365-387 | Moving a path from below one directory to below another by cutting strings is the same move on components, and keeps the path normal. |
| `Walk.BuildTree` | src/model.rs:194-223 | The recursive walk with its `seen` flags terminates on every node table, even with directories reachable twice, and computes the specified tree. |
| `Namespace.ToTreeIsSound` | src/model.rs:201-223 | For any image, however it came about, every listed entry has its parent listed as a directory and is what its path leads to. |
| `Namespace.ToTreeIsLookup` | src/model.rs:194-223 | When no inode is reachable twice, the visible tree lists exactly the paths that `lookup` resolves, with what it finds there. |
| `Snapshot.LoadTree` | src/model.rs:108-123 | Loading a snapshot builds an image holding exactly its entries; the two unwraps on parents cannot fail. |
| `Snapshot.RoundTrip` | src/model.rs:108-123 | `to_tree(from_tree(t)) == t` for every well-formed tree. |
| `Snapshot.RoundTripOfShown` | src/model.rs:194-223 | The tree shown by any image with valid names can be loaded and shown again unchanged. |
| `Reshape.LinkKeepsTidy` | src/model.rs:152-156 | Linking an unreachable inode keeps a tree of inodes (one parent entry each, no cycle) and changes no other walk. |
| `Reshape.RenameKeepsTidy` | src/model.rs:162-171 | Moving a subtree keeps the tree shape, and every walk afterwards is the corresponding walk before. |
| `Compiler.Compile` | src/model.rs:242-384 | The loop with its three pending maps produces exactly the program of the reference run, each `durable_at` being the least later op whose barrier covers the micro-op, or NEVER; it fails with the first op that cannot apply. |
| `Compiler.EmitChunks` | src/model.rs:283-289 | The chunk loop emits the recursive block-by-block cut of the data, for every block size. |
| `Compiler.Register` | src/model.rs:337-351 | Each new micro-op is filed under the one inode whose fsync would flush it, metadata also in the journal list. |
| `Compiler.FlushInode` | src/model.rs:362-370 | An fsync stamps exactly what the durability table says, although the maps may hold stale entries after a journal flush. |
| `Compiler.FlushAll` | src/model.rs:371-377 | A sync stamps every micro-op that no earlier barrier covered. |
| `Compiler.ReplayRename` | src/model.rs:299-325 | A rename emits its micro-op, nothing, or the specified refusal, and the parent lookup cannot fail. |
| `Bytes.ChunksTile` | src/model.rs:282-289 | The chunks of a write tile it: consecutive, non-empty, one per block, none across a block boundary, together exactly the data. |
| `Bytes.TornWrite` | src/model.rs:172-180 | For any subset of chunks that persisted, each byte is the new one iff the chunk of its block persisted, otherwise the old byte or zero; the length is untouched. |
| `Bytes.WholeWrite` | src/model.rs:279-293 | All chunks together equal the one write they were cut from. |
| `Bytes.TruncationShows` | src/model.rs:181-188 | On any file node, whatever a crash left in its buffer: after a truncation, longer or shorter, the visible bytes are the ones before, cut or followed by zeros. |
| `Bytes.ExtensionExposes` | src/model.rs:181-188 | An extension by a write exposes what the buffer holds past the old length, and zeros past its end. |
| `Bytes.NothingIsLeftPast` | src/model.rs:183-186 | A size change that shrinks a file leaves nothing in its buffer past the new length; a truncation that does not, nothing past the old one. |
| `Reference.EmptyWrite` | src/model.rs:290-292 | A write of no bytes has no effect exactly when it is not past the end; past the end the file still grows. |
| `Replay.StepRefines` | src/model.rs:262-334 | One op on inodes does what the path-to-entry reference says (subtree move, zero-filled overlay, removal), or both refuse for the same reason. |
| `Replay.RunRefines` | src/model.rs:258-383 | Whole runs: replay and reference refuse the same op, and after every op the view is a tree of inodes holding exactly the reference tree. |
| `Replay.ViewShowsReference` | src/model.rs:242-384 | The volatile tree after k ops, and the tree of the first `op_end[k]` micro-ops on the padded base, are both the reference tree. |
| `Durability.VolatileIsView` | src/model.rs:244-280 | Replaying the first `op_end[k]` micro-ops on the pre-allocated base gives the volatile view followed by the inodes not created yet. |
| `Enumerate.Close` | src/crash.rs:71-102 | The in-place one-pass closure returns the least legal superset of any candidate. |
| `Crash.ClosureIsLeast` | docs/model.md:59-80 | The one-pass closure satisfies the declarative rules and is below every legal superset. |
| `Crash.LeastIsUnique` | docs/model.md:79-80 | The smallest legal state above a candidate is unique. |
| `Crash.LegalStatesFormLattice` | docs/model.md:59-80 | Legal states at a point are closed under union and intersection. |
| `Crash.ClosureIsIdempotent` | src/crash.rs:71-102 | Closing a legal state changes nothing. |
| `Crash.ClosureOfUnion` | src/crash.rs:71-102 | Closing distributes over union and is monotone. |
| `Enumerate.InFlight` | src/crash.rs:32-34 | Exactly the micro-ops of the first ops that no barrier before the point made durable, in order. |
| `Enumerate.With` | src/crash.rs:41-47 | A candidate keeps everything durable and, in flight, just what was picked by position and index. |
| `Enumerate.MasksCoverAll` | src/crash.rs:50-50 | Every choice of m bits is the bit pattern of a mask below two to the m. |
| `Enumerate.AllSubsets` | src/crash.rs:49-51 | The masks enumerate every superset of the durable set, and nothing else. |
| `Enumerate.SomeSubsets` | src/crash.rs:52-67 | Sampling includes the fixed strategies and every random pick; every candidate keeps what is durable. |
| `Enumerate.BatteryIs` | src/crash.rs:52-67 | The fixed strategies, micro-op by micro-op: all, only the durable ones, and for each one in flight all but it, the durable ones and those before it, and all but those of its op. |
| `Enumerate.Materialize` | src/crash.rs:105-111 | The materialized tree is that of the persisted micro-ops applied in program order. |
| `Locality.SurviveIsNodewise` | src/crash.rs:105-111 | The final state of a node is a fold over the micro-ops that persisted, looking at that node alone. |
| `Locality.NodeDependsOnTouches` | src/crash.rs:105-111 | Two persisted sets that agree on what touches a node leave it the same. |
| `Locality.LastChangeWins` | src/model.rs:151-171 | Whatever subset persisted: a name leads to an inode iff it did at the start, or a micro-op that persisted gave it to that inode, and none that persisted later took it away; moving something else away from the name does not. |
| `Durability.CoveredIsDurable` | src/model.rs:353-379 | What a barrier covers is durable from that barrier at the latest. |
| `Durability.DurableIsCovered` | docs/model.md:43-55 | A micro-op is durable only because of a later barrier that covers it. |
| `Durability.LosableIffUncovered` | docs/model.md:65-67 | posix: some legal crash state is without a micro-op iff no barrier before the crash covers it. |
| `Promises.DurabilityTable` | docs/model.md:43-55 | When a micro-op is durable, in full: iff since its op there was a `sync`, or an `fsync` of a path naming at that time the file it writes or resizes, the directory it links into or unlinks from, or the one it moves into; on ext4 any `fsync` does unless it is a write. |
| `Promises.SyncedIsKept` | src/model.rs:371-377 | Under either profile, whatever was emitted before a `sync` is in every legal state of a later crash. |
| `Promises.SyncedTreeIsKept` | src/model.rs:371-377 | A crash after a `sync`, with nothing emitted since, leaves exactly the tree the ops before it left. |
| `Promises.MarksAre` | src/model.rs:380-384 | The marks before each op: one more after each acknowledgement, with its text, and no others. |
| `Promises.FlagsTell` | src/model.rs:291-325 | A size change extends, for the ordering rules, iff it belongs to a write, and a rename replaces iff its target was there. |
| `Promises.MarksLeaveNothing` | src/check.rs:182-183 | A trace of acknowledgements only leaves its initial tree wherever it crashes. |
| `Durability.FsyncedFileIsIntact` | docs/model.md:43-50 | A file fsynced at op i and not written or resized since equals its volatile node in every legal crash state, under any renames and either profile. |
| `Durability.FsyncedDirIsIntact` | docs/model.md:43-55 | For a single crash state of any trace: an fsynced directory's entries are intact when no rename out of it into another directory is lost. |
| `Entries.FsyncedDirIsIntactIff` | docs/model.md:43-55 | A directory fsynced and untouched since is intact in every legal crash state iff every rename out of it into another directory is covered by some barrier or followed by a later entry of the same name; on ext4 always. |
| `Promises.SourceFsyncKeepsNothing` | docs/model.md:52-55 | That exception is real: on posix, fsyncing only the directory a file was moved out of leaves a legal state from before the rename. |
| `Promises.FsyncedContentSurvives` | docs/model.md:43-50 | The fsync guarantee on paths: wherever a crash left the file's name, it has its volatile contents. |
| `Durability.Ext4IsDurableSooner` | src/model.rs:361-379 | One trace under both profiles gives the same micro-ops, each durable at least as early on ext4. |
| `Durability.Ext4StatesArePosixStates` | src/crash.rs:71-102 | Every legal ext4 crash state is a legal posix crash state showing the same tree. |
| `Promises.AcceptedOnPosixIsAcceptedOnExt4` | docs/model.md:65-80 | A checker that accepts all posix states accepts all ext4 states. |
| `Ordered.MetaIsCut` | src/crash.rs:78-83 | In a legal ext4 state the persisted metadata is that of a whole number of ops, reaching past every barrier. |
| `Ordered.MetaIsLosableIff` | docs/model.md:43-73 | ext4: a metadata micro-op can be lost iff no fsync or sync came after it. |
| `Ordered.DataIsLosableIff` | src/crash.rs:84-101 | ext4: a data micro-op can be lost iff no barrier covers it and no barrier forced out a later size extension or replacing rename of its file. |
| `Ordered.Ext4ShapeIsAPrefix` | src/crash.rs:78-83 | ext4 prefix theorem on inodes: names and lengths of a crash state are those of the volatile view after some k ops, no older than the last barrier. |
| `Promises.Ext4KeepsAPrefixOfNames` | src/crash.rs:78-83 | The same on paths: names and sizes are those of the reference run after some k ops. |
| `Ordered.Ext4AppendsAreAPrefix` | src/crash.rs:84-101 | ext4 append-only runs: the whole tree equals the volatile tree at some op boundary, even where later data persisted past the persisted length. |
| `Promises.Ext4KeepsAPrefixOfAppends` | src/crash.rs:84-101 | The same on paths, for traces that only append. |
| `Promises.CrashTreesAreSnapshots` | src/trace.rs:101-110 | Any subset of the micro-ops leaves a well-formed tree that survives being loaded as a recovery's snapshot. |
| `Explorer.Jobs` | src/check.rs:241-259 | One job per distinct (tree, marks), in order of crash point, each a legal state under its own key; when enumeration is exhaustive and not truncated, every legal state of every point has one, for a crash no later than its own. |
| `Explorer.CandidatesCover` | src/check.rs:246-259 | Closing all candidates of a point covers every legal state there. |
| `Explorer.ExhaustiveIff` | src/crash.rs:48-51 | Enumeration is exhaustive at every point iff nowhere more micro-ops than the limit are not durable yet. |
| `Explorer.PointReadersAreExactIff` | src/check.rs:48-57 | For a checker that also reads the crash point, all legal states are accepted iff all jobs are and the verdict depends on contents and marks only. |
| `Explorer.QuietPointsAreNotShown` | src/check.rs:246-259 | No job is ever for the point right after an op that emits nothing, such as a barrier: its states were all legal before it. |
| `Check.LostOps` | src/check.rs:412-417 | Exactly the ops that lost something, each once, in order; none iff nothing was lost. |
| `Check.Explain` | src/check.rs:423-451 | The kind of a minimized failure: non-atomic iff nothing was lost; torn iff, if not a matter of acknowledgement, part of a write op persisted and part of that op did not; reordering iff, if neither, an op later than a lost micro-op persisted whole without being durable; else unsynced. |
| `Check.KindMeans` | docs/model.md:96-105 | What stands on record of a failure: a legal state rejected with the marks before it, the ops that lost something as its cause, and its kind, which is unsynced if something was lost and the rejection goes away once nothing counts as acknowledged. |
| `Check.FilesAre` | src/check.rs:317-320 | The files of a cause are the paths its ops are about, a rename's being its source, each once and in order. |
| `Check.NonAtomicIffWorkloadIsRejected` | docs/model.md:102-102 | A maximal failing state has nothing lost iff the fully persisted state is rejected. |
| `Check.NoFailureIffAllAccepted` | src/check.rs:285-294 | No failing job iff the checker accepts every legal state. |
| `Check.FailuresAreCounted` | src/check.rs:285-294 | The failing jobs are the distinct (tree, marks) of rejected legal states; of all of them when the search is complete. |
| `Check.SortFailing` | src/check.rs:298-298 | Sorting permutes the failures into order of crash point, then number of lost micro-ops. |
| `Check.Engine.VerdictOf` | src/check.rs:360-375 | A cached verdict always agrees with the checker, and a state is asked about without marks only after its tree was shown with its own. |
| `Check.Engine.TryAdd` | src/check.rs:387-400 | Re-persisting keeps a legal failing state: either the closed trial, or the old state because the trial passed or changed nothing. |
| `Check.Engine.Minimize` | src/check.rs:379-410 | Minimization returns a legal, still failing superset of its input; if acceptance is upward closed, a maximal one: every strictly larger legal state passes. The first op that lost something has lost something in the result only if the input, with that op re-persisted whole, passes. |
| `Check.Engine.CheckJobs` | src/check.rs:261-294 | Every job is judged once, in order, with its own marks, verdicts are cached, and the failures are collected in job order. |
| `Check.Engine.GroupFailures` | src/check.rs:296-331 | Every failure is counted in one group or left out; while at most `explain` fail none is left out, and each lost everything that some cause on record lost; a cause that lost nothing accounts for it only if with everything persisted its point is rejected. |
| `Check.Engine.Attribute` | src/check.rs:311-330 | A minimized failure adds one occurrence and a cause that lost nothing the failure did not lose; it is filed as not atomic only if the fully persisted state is rejected, and always then where acceptance is upward closed; no cause on record is dropped, and each is that of a real failing state of its kind and files. |
| `Check.Engine.Run` | src/check.rs:240-344 | A clean, complete, exhaustive report means the checker accepts every legal crash state at every point, and conversely; failures are counted exactly. |
| `Tool.CheckTrace` | src/check.rs:142-158 | End to end: a trace is refused iff the reference refuses it, naming the op; otherwise the report answers for every crash state the profile allows. |
| `Tool.CheckWithPoints` | src/check.rs:240-294 | For a checker that also reads the crash point: complete and exhaustive, all crash states are accepted iff no job fails and the verdict depends on contents and marks only; a failure is always real. |
| `Recovery.Collect` | src/check.rs:178-187 | One recovery per distinct trace with an op that is not a mark, with the marks and the point of the first call that led to it. |
| `Recovery.HeardIsReal` | src/check.rs:261-283 | In any order of the job calls, each call shows a crash state with its own marks, or a tree shown before. |
| `Recovery.Merge` | src/check.rs:203-211 | Merging a group adds its occurrences under its kind and files, lists them if they were not, keeps each pair listed once, and changes no other group. |
| `Recovery.MergeAll` | src/check.rs:203-211 | The same for all groups of a search: per kind and files, occurrences add up, and exactly the pairs of either side are listed. |
| `Recovery.CheckWithRecovery` | src/check.rs:168-214 | Both searches complete and exhaustive, in whatever order the workers call: no failure iff every crash is accepted after recovery, and every crash of every recovery, explored or not, by the marks on record for it (its own if there are none); with one worker, by those of the earliest crash leading to it; by its own, when crashes with the same recovery agree on marks; and what is accepted by its own marks is never reported. Every recovery explored was met after a legal crash with the marks on record; the budget bounds the second search. |
| `Recovery.FirstJudges` | src/check.rs:180-187 | The first search judges, for every legal crash state, that recovery succeeds and that what it leaves is accepted by the marks before the crash. |
| `Recovery.UnmetIsAccepted` | src/check.rs:182-183 | What the second search leaves out cannot fail: every crash of a recovery that is not on record is accepted once the first search accepts all. |
| `Recovery.RecordedIsEarliest` | src/check.rs:178-189 | With one worker, what is on record for a recovery is its earliest crash: that point, and the marks before it. |
| `Recovery.OwnMarksIffSame` | docs/model.md:111-117 | Each recovery is on record with the marks of every crash that leads to it iff any two legal crashes with the same recovery that does more than acknowledge have the same marks before them. |
| `Recovery.JudgedByRecorded` | src/check.rs:190-199 | Once the first search accepts all, the second accepts all it explores iff every double crash is accepted by the marks on record for its recovery, or by its own if there are none. |
| `Recovery.RecordedAndOwn` | docs/model.md:111-117 | For any order of calls: what every double crash's own marks accept, the marks on record accept; and conversely when crashes with the same recovery agree on marks. |
| `Recovery.RecordedIsFirst` | src/check.rs:178-189 | With one worker, and once the first search accepts all, acceptance by the marks on record is acceptance by those of the earliest crash. |
| `Twice.OwnMarksCanBeMissed` | src/check.rs:181-183 | A workload and recovery for which both searches accept everything they are to accept, under any profile and block size, although a double crash is rejected by the marks of its own first crash. |
| `Strace.State.constructor` | src/strace.rs:272-298 | The initial tables are the names and lengths of the snapshot. |
| `Strace.State.Table` | src/strace.rs:306-313 | A process gets an empty table on first use and keeps it. |
| `Strace.State.Description` | src/strace.rs:315-326 | A descriptor leads to the description it was opened with; an unknown one is entered as a new description, not appending, at the end of its file. |
| `Strace.State.OpenCall` | src/strace.rs:396-427 | After an open, names, lengths, offsets and sharing are those of the real machine, and exactly the creation or truncation it amounts to is recorded, or nothing; a creation in an unnoticed directory cannot be performed. |
| `Strace.State.WriteCall` | src/strace.rs:428-465 | A write under the root is recorded as one write of what was sent at its true offset, one to standard output elsewhere as a mark, an empty one not at all; an incomplete capture is refused; lengths stay right iff the file is noticed and it is not an empty write past the end. |
| `Strace.State.PWriteCall` | src/strace.rs:428-465 | The same at the given offset; a negative one is refused. |
| `Strace.State.ReadCall` | src/strace.rs:466-473 | Reads move the shared cursor as the real ones do. |
| `Strace.State.SeekCall` | src/strace.rs:474-481 | Seeks set the shared cursor. |
| `Strace.State.CloseCall` | src/strace.rs:482-487 | Closing removes the descriptor for all sharers of the table. |
| `Strace.State.DupCall` | src/strace.rs:488-498 | A duplicate shares the description, or stays unknown if the original is outside the root. |
| `Strace.State.CloneCall` | src/strace.rs:583-601 | Threads share their parent's table, forked children get a copy that shares the descriptions. |
| `Strace.State.TruncateCall` | src/strace.rs:499-511 | A truncation sets the tracked length and exactly it is recorded; of an unnoticed file it cannot be performed. |
| `Strace.State.MoveTree` | src/strace.rs:365-387 | Names and lengths move with a subtree as in the real tree; moving a path onto itself loses its entry. |
| `Names.MoveKeys` | src/strace.rs:375-386 | Whatever order the table is iterated in, every entry below the source ends up at its place below the target, and nothing else changes but the target itself. |
| `Strace.State.Remove` | src/strace.rs:617-623 | An entry and everything below it are forgotten, as in the real tree. |
| `Strace.State.RenameCall` | src/strace.rs:521-541 | Exactly the rename is recorded, or the removal if the target is outside the root or has a name that goes unnoticed; what is tracked stays right iff both names are noticed and differ. |
| `Strace.State.Apply` | src/strace.rs:389-605 | Any call of `Kernel.Possible`, on noticed entries or not: while what is tracked is right, exactly the ops the call amounts to are appended, and it stays right iff the call is not missed; the recorded ops can no longer be performed if the call goes astray, and otherwise, unless it is an empty write to an unnoticed file, they still can and give the right names. |
| `Strace.Parse` | src/strace.rs:72-100 | Any possible log: it is refused iff a capture is incomplete or a positioned write has a negative offset, and then for the first such write and the reason checked first; the compiler then refuses the trace, for every block size, iff some call goes astray (unless an empty write went to an unnoticed file), and otherwise its names are those the processes left; without the missed calls every call has its place in the trace, in the order of the log, and nothing else is there (`Placing.InPlace`), and the trace replays to the tree they left. |
| `Kernel.SeenAfter` | src/strace.rs:482-498 | What every descriptor of every process leads to after a call: a new description where one was opened, the same one where it was copied, nothing where it was closed, for all that share the table; a child has what its parent had. |
| `Kernel.SharedAfter` | src/strace.rs:583-601 | Who shares a table after a call: a thread with its parent, a forked child with nobody, nobody with a process that gave its table up. |
| `Kernel.CursorAfter` | src/strace.rs:450-481 | Where the cursor of every description stands after a call, whether it appends, and that an opened one starts at zero. |
| `Placing.LogStands` | src/strace.rs:389-605 | Call by call, where the calls before it are done: a sync stands as a sync, an fsync under the root with its path, a write to descriptor 1 outside the root as a mark with its text, a write under the root at its true offset with its bytes, a creation, truncation, removal, rename or mkdir as itself; everything else leaves nothing. |
| `Recording.RecordedLogGives` | src/strace.rs:389-605 | The ops that a possible log amounts to, performed on the initial tree, give exactly the tree its calls left, if none goes astray or takes an unnoticed file for a new one. |
| `Recording.RecordedLogRunsIff` | src/strace.rs:389-605 | The ops that a possible log amounts to can all be performed iff no call goes astray, and then give the names its calls left. |
| `Unnoticed.NoticedNeverAstray` | src/strace.rs:389-605 | Where every entry under the root is noticed and nothing goes to an unnoticed name, no possible call goes astray. |
| `Deleted.NewFileIsRecordedIff` | src/strace.rs:345-418 | The creation of a new file below the root is recorded iff its path does not end in " (deleted)". |
| `Deleted.UnnoticedDirIsRefused` | src/strace.rs:345-355 | Making any directory whose name ends in " (deleted)", then a file in it, is a possible log whose trace the compiler refuses. |
| `Deleted.UnnoticedDirInput` | src/strace.rs:345-355 | That, for `/r/d (deleted)/f` and an empty root `/r`. |
| `Deleted.WriteBelowHiddenDir` | src/strace.rs:345-355 | After a directory is renamed so that it looks deleted, a write to a file still open in it goes astray. |
| `Deleted.UnnoticedRemovalIsRefused` | src/strace.rs:542-549 | Removing an entry that was made unnoticed, such as a socket, is a possible log whose trace the compiler refuses. |
| `Absolute.Normalize` | src/strace.rs:631-643 | The stack loop computes the path with `.`, `..` and repeated slashes resolved. |
| `Absolute.NormalizeTwice` | src/strace.rs:631-643 | Normalizing is idempotent. |
| `Absolute.NormalizeDrops` | src/strace.rs:631-643 | In any path, wherever it goes on: a plain name followed by `..` drops out, `.` and doubled slashes mean nothing, and there is nothing above `/`. |
| `Absolute.RelIsRest` | src/strace.rs:345-355 | A path is under the root iff the root's components come first and it does not end in " (deleted)", and its relative path is the remaining components. |
| `Absolute.RelIsNormal` | src/strace.rs:345-355 | Every path the tracker records is normal, as the compiler needs. |
| `Absolute.RelOfInside` | src/strace.rs:345-355 | A plain path below the root is recorded as itself iff it does not end in " (deleted)"; otherwise it is not seen at all. |
| `Absolute.EndsWithIs` | src/strace.rs:346-348 | The test for a deleted file: something, then " (deleted)". |
| `Syncing.SyncTo` | src/trace.rs:127-147 | From any well-formed directory to exactly the wanted tree; every removal and write finds what it needs. |
| `Syncing.Clear` | src/trace.rs:129-136 | Removing in reverse order leaves exactly the entries wanted with the same kind, and nothing is left below a directory when its turn comes. |
| `Syncing.Fill` | src/trace.rs:137-146 | Writing in order finds every parent present and leaves the wanted tree. |
| `Syncing.WriteTo` | src/trace.rs:112-122 | Writing into an empty directory leaves the tree: the same as syncing to it. |
| `LogFormat.ReadLog` | examples/wal.rs:43-59 | On any log: the valid part is exactly the records returned, encoded, and no record's encoding starts where it ends. |
| `LogFormat.RecordAtIff` | examples/wal.rs:46-56 | A record is accepted at a position iff its encoding, checksum included, stands there. |
| `LogFormat.EncodingIs` | examples/wal.rs:32-40 | The bytes of a record: its length, lowest byte first, its checksum likewise if there is one, and the payload. |
| `LogFormat.Le32RoundTrip` | examples/wal.rs:33-35 | Four little-endian bytes read back as the number they encode. |
| `LogFormat.ReadsWhatWasWritten` | examples/wal.rs:32-59 | Records written one after the other are read back first, whatever follows them. |
| `LogFormat.ReadsExactly` | examples/wal.rs:32-59 | With nothing after them, exactly the written records are read, and all bytes are valid. |
| `LogFormat.ReadsOnlyRecords` | examples/wal.rs:43-59 | The converse: whatever the log, what is read re-encodes to its valid part, which is as long as can be. |
| `LogFormat.CutKeepsRecords` | examples/wal.rs:43-59 | Cutting a log at the end of its valid prefix changes no record. |
| `Wal.AcknowledgedRecordsSurvive` | examples/wal.rs:66-80 | For any records, block size and profile, every legal crash state of the fixed log reads back beginning with every acknowledged record. |
| `Wal.Ext4ReadsAPrefix` | examples/wal.rs:84-96 | On ext4 the log reads back as exactly the first records, all acknowledged ones among them, with or without checksums and the fsync of its directory: the checker's whole verdict. |
| `Naive.AcknowledgedSurviveIff` | examples/wal.rs:3-8 | Every legal crash state of the log reads back with all acknowledged records first iff its directory is fsynced, the profile is ext4 or nothing was written. |
| `Naive.AcknowledgedRecordsCanVanish` | examples/wal.rs:66-80 | The posix state that shows it, without the fsync of the directory: no log at all after every record was acknowledged. |
| `Torn.NeverGarbageIff` | examples/wal.rs:84-91 | On posix, fixed or naive, every legal crash state of the log reads back as first records only iff no choice of blocks of a record reads, length and checksum included, as another one. |
| `Torn.UncheckedNeverGarbageIff` | examples/wal.rs:3-7 | Without checksums that is the case iff the non-zero bytes of each record lie within one block. |
| `Torn.UncheckedReadsRightIff` | examples/wal.rs:43-59 | For one record without a checksum: every choice of its blocks reads as nothing or as itself iff its non-zero bytes lie within one block. |
| `Torn.AnyBlocksCanBeLeft` | src/model.rs:282-293 | For every choice of blocks of a record some legal posix state leaves exactly those, with the new length. |
| `Torn.LogAfterCrash` | src/model.rs:282-293 | What the log holds in a crash after record i was written: the records before it, and of it, if its length persisted, exactly the blocks that did, zeros elsewhere. |
| `Repair.TruncatingRepairSurvives` | examples/wal.rs:98-109 | Crashing truncating repair anywhere leaves the same records. |
| `Repair.RewritingLosesAll` | examples/wal.rs:98-113 | Rewriting repair passes through a legal state in which every record is gone. |
| `Repair.RewritingRepairSurvivesIff` | examples/wal.rs:98-113 | Rewriting repair is crash-safe iff there is nothing to repair or nothing to keep. |
| `Repair.AcknowledgedRecordsSurviveTwice` | examples/wal.rs:98-114 | Two crashes, the second during truncating repair, lose no acknowledged record, if the directory is fsynced or on ext4. |
| `Repair.RecoveryCanStart` | examples/wal.rs:98-102 | What a crash of the workload leaves is a snapshot recovery can start from. |
| `Replace.TargetIs` | src/crash.rs:136-147 | In every crash state the target is there: the old file unless the rename persisted, and then whatever persisted of the new one. |
| `Replace.SavedFileIsOldOrNew` | tests/patterns.rs:104-110 | Write, fsync, rename, fsync the directory: always the old or the new contents, and the new ones once reported; on ext4 also without the file fsync. |
| `Replace.UnsyncedSaveIsSafeIff` | tests/patterns.rs:84-93 | posix without the file fsync: never torn iff the new contents are all zeros and one of the two versions is empty. |
| `Replace.DataCanBeLost` | src/crash.rs:165-172 | posix without the file fsync: to the end, even after the directory fsync, a legal state has the rename and none of the data. |
| `Replace.MovedWithoutData` | src/crash.rs:165-172 | The states that show it: after the rename the target is empty, or has its new length and only zeros. |
| `Replace.SavedIsKeptIff` | tests/patterns.rs:95-102 | For every recipe, profile and contents: a reported update is kept in every legal state iff the directory was fsynced or nothing changed, and the file was fsynced, the profile is ext4 or there is no data. |

## Left out

- Real files and processes: loading and saving bundles, running strace and checkers, scratch directories, the command line.
- `src/record.rs`: the op sequences it logs are taken as given; a short write inside one `write_all` would show as several ops.
- Worker threads: results are written per job, so the jobs are judged one after the other; the order in which recoveries are first met is arbitrary (`Recovery.IsSchedule`).
- Error texts, hints, `Display`, JSON, the messages of minimized failures beyond their being the checker's, and the `survived` and `crash_after` fields of a vulnerability: presentation.
- Strace.Parse: after an empty write to an unnoticed file it is not said whether the compiler refuses the trace: it depends on whether the file is later opened to be truncated and on the length the tracker remembers, which earlier missed calls can have made wrong.
- Check.SortFailing: that the sort is stable is not stated; nothing depends on the order of equal keys.
- Enumerate.SomeSubsets: says nothing about which failures sampling finds; every candidate it yields closes to a legal state.
- Durability.FsyncedDirIsIntact: one direction only, for a given state; the exact condition over all legal states is Entries.FsyncedDirIsIntactIff.
- Recovery.SortFound: the hash used to order recoveries is an arbitrary ranking, and only its order is modelled.
- Wal.AcknowledgedRecordsSurvive: payloads are the non-empty byte strings whose length fits 32 bits; that a torn record is always detected is not claimed, since the checksum is arbitrary.
- Splitting log lines, `parse_call`, `unescape`, `strings`, UTF-8 repair (a mark's text here is its bytes as characters), and the joining of interrupted calls: calls arrive parsed.
- `cwd` tracking and the resolution of relative path arguments: calls carry the path relative to the root, which `Absolute` derives from an absolute one.
- Strace.State.Apply: of what the code only warns about, `O_TMPFILE`, `fallocate`, `copy_file_range`, `sendfile` and `splice` into the root, `RENAME_EXCHANGE`, shared writable mappings and moves onto a noticed file are not among the calls; links and other moves into the root are entries that appear unnoticed. Writes to unnoticed entries do not change what the model takes them to hold. `pwrite` on an append descriptor follows POSIX, not Linux.
- Strace.State.Description: that an inherited descriptor really stands at the end of its file is a guess, modelled as the code makes it; under `Descriptors.StartsAfresh` none is inherited.
- Syncing.SyncTo: symbolic links and special files on disk, which the code skips as well.
- The in-place rewrite pattern of `tests/patterns.rs`, the SQLite case study and the command-line front end: they add no new behaviour of the engine.
