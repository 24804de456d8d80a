# dafs: the store, the observer and the worker, verified

dafs watches directories and remembers what happened to the files in them. It only ever
reads what it observes; what it keeps is an SQLite store with an interned path tree and an
append-only event log, fed by scans and by a filesystem watch, and queues that background
workers drain. This project models that core in Dafny and proves what it promises over all
inputs and all runs.

Two levels appear throughout. Pure functions say what an operation means for the tables
(`Recording`, `Scan`, `Watch`, ...). Classes and methods follow the code statement by
statement, with its loops, caches, transactions and in-place updates (`Paths`, `Recorder`,
`Scanner`, `Watch.Watcher`, `Extraction.Queue`, ...), and are proved to do exactly that. The
theorems are then about the functions: single steps first, then every run.

| files | what they hold |
|---|---|
| `Tables`, `PathTree` | the tables as values; which path a row has; the tree invariant; location queries, upserts and the row move |
| `Paths` | the connection with its transactions and kills, the component cache, path normalisation, directory chains, path resolution |
| `Recording`, `Arrivals`, `Departure`, `Renaming`, `Relocation`, `Liveness`, `Interrupted`, `Unlogged`, `Recorder` | single observations: what a touched, removed or renamed path does, what it keeps, its link between rows and history; what a kill between its statements leaves, and loses; the statements that do it |
| `Scan`, `Scanner`, `Convergence`, `EagerCommit`, `Agreement` | the batched scan, its behaviour under kills, the ordering it avoids, and its agreement with the watch |
| `StoreRuns`, `Exclusion`, `Observer`, `Reactions`, `Rescans` | whole runs of the store's operations; excluded directories; the observer thread with its commands, what it makes of each change, and what its scans of all roots leave |
| `Extraction`, `ExtractionRuns` | the durable extraction queue, its worker, and every interleaving of both with kills |
| `Watch`, `WatchSteps`, `WatchRuns`, `WatchHalves`, `WatchFates` | the debouncer and rename pairing, over every sequence of notifications and polls |
| `Embeddings`, `Civil`, `Timeline`, `Utf8`, `LogHistory` | two-stage vector search; the calendar closed form; cursor pagination; the log ring and the bytes written to it |

Conventions. No modelled statement deletes a row of `path_components`, `files` or `events`,
so these tables are sequences and a row's id is its index (SQLite counts from 1). A statement
outside a transaction commits by itself; a kill falls back to the last commit. The connection
keeps as ghost state every content the database file has had between two statements, and the
kill theorems are about all of them. Whatever comes from outside is a parameter: the answers
of `stat`, clock readings, the walker's entries in any order, which files extract, the bit
table's answer, the iteration order of hash maps. In the watch model each notification has a
number and each map update is named; only the proofs use these.

A store is *sound* when component names are distinct, every row's parent chain resolves and
ends at a null parent, each location (null parent included) has at most one live row, and
every event's row, previous parent and previous component exist.

## Model

| member | source | states |
|---|---|---|
| `Convergence.KilledScansConverge` | crates/dafs-scan/src/lib.rs:165-336 | From an empty store and a fixed tree, after any number of scans each killed at any statement and then one complete scan, the log holds exactly one event per file, its creation, every file has a live row with its size and mtime, and any further scan of the tree appends nothing. |
| `Convergence.ConvergedCount` | crates/dafs-scan/src/lib.rs:165-336 | After such killed scans and a complete one, the log is exactly as long as the tree has files (so nothing is logged for directories). |
| `EagerCommit.EagerCommitLosesHistory` | crates/dafs-scan/src/lib.rs:165-175 | Why upserts and events share a transaction: in the ordering that commits upserts at once and events at each flush of 1024, some kill of the first scan leaves a file with its row and no event exactly when the tree has a file. |
| `EagerCommit.EagerForgetsIff` | crates/dafs-scan/src/lib.rs:165-175 | In that ordering a kill after any number of entries forgets a file exactly when events are waiting for the flush, batches flushed on the way included. |
| `EagerCommit.ForgottenForGood` | crates/dafs-scan/src/lib.rs:165-175 | A file forgotten so is logged by no later scan of the tree, of either ordering, killed or complete, however many there are. |
| `EagerCommit.OneFileForgotten` | crates/dafs-scan/src/lib.rs:165-175 | A concrete tree of one file, killed before the flush: after any further scans its row is live and it has no event. |
| `Convergence.KilledScanPartial` | crates/dafs-scan/src/lib.rs:219-336 | Whatever a killed scan leaves, every row of a file of the tree has exactly its one creation or is not there, and every directory has no event: the invariant convergence rests on. |
| `Scanner.ScanRoot` | crates/dafs-scan/src/lib.rs:134-206 | The scan, statement by statement and in batches of 1024: its result is the batch-free walk, its counts are those of the entries walked up to the entry limit, and every content the file has between two statements is a prefix of the walk with exactly its events. |
| `Scanner.ScanInner` | crates/dafs-scan/src/lib.rs:219-336 | The walk loop with its transaction, batch and counters keeps store-plus-batch equal to the entries walked so far; each commit is such a prefix. |
| `Scanner.Flush` | crates/dafs-scan/src/lib.rs:300-336 | Events are appended inside the transaction that holds their upserts, so the commit lands both. |
| `Scan.KilledScanSound` | crates/dafs-scan/src/lib.rs:134-361 | Whatever statement a scan is killed at, the store it leaves is sound and its log extends the earlier one. |
| `Scan.FullScanSettles` | crates/dafs-scan/src/lib.rs:762-821 | From any sound store, a complete scan leaves every file of the tree with a live row holding its size and mtime. |
| `Scan.ObserveKeepsSettled` | crates/dafs-scan/src/lib.rs:762-821 | No later upsert of the same scan disturbs the row of a file already recorded. |
| `Scan.SecondScanQuiet` | crates/dafs-scan/src/lib.rs:130-133 | A second scan of the same tree, in any listing order, emits no event; from any sound store, not just an empty one. |
| `Scan.Admitted` | crates/dafs-scan/src/lib.rs:237-241 | The entry limit stops the walk at the first entry where files plus directories seen reach it. |
| `Scan.AdmittedExact` | crates/dafs-scan/src/lib.rs:237-241 | A limited walk goes on exactly until as many entries are recorded as the limit allows; without one it takes every item. |
| `Scan.SeenCounts` | crates/dafs-scan/src/lib.rs:281-292 | The scan's file and directory counts are the numbers of listed entries of that kind below the root. |
| `Scan.SkippedCounts` | crates/dafs-scan/src/lib.rs:243-285 | The skipped count is the number of entries that could not be listed or looked at. |
| `StoreRuns.RunSound` | crates/dafs-store/src/paths.rs:177-226 | Over every run of scans, touches, removals and renames under changing roots, each complete or killed between any two statements: every reference resolves, parent chains end at a null parent, each location has at most one live row, and the log is append-only. |
| `StoreRuns.RunPathsUnique` | crates/dafs-store/src/paths.rs:177-226 | In every reachable store two rows whose whole chain is live never resolve to the same path. |
| `PathTree.NoCycle` | crates/dafs-store/src/paths.rs:236-283 | In a rooted tree no row is below itself, so following parents ends. |
| `PathTree.UpsertFacts` | crates/dafs-store/src/paths.rs:177-226 | An upsert touches the one row at its location, revives or adds it live with the given size and mtime, keeps kinds and places of all others, and never makes a second live row there. |
| `PathTree.Pick` | crates/dafs-scan/src/lib.rs:586-600 | The location query: the live row if there is one, else the latest tombstone, and nothing only if the location was never used. |
| `PathTree.EnsureDirsSplit` | crates/dafs-scan/src/lib.rs:824-838 | Ensuring a chain in two parts, root then rest, is ensuring it whole, wherever it is split. |
| `PathTree.EnsureDirsFinds` | crates/dafs-store/src/paths.rs:156-169 | Ensuring a chain whose rows are live finds them: same id, no row added. |
| `PathTree.NewRowsAreDirs` | crates/dafs-store/src/paths.rs:156-169 | Every row a chain adds is a directory. |
| `Paths.EnsureThenResolve` | crates/dafs-store/src/paths.rs:156-309 | After ensuring a chain, resolving its row gives the normalised path (its deepest 256 components beyond that), and ensuring it again returns the same id and adds no row. |
| `Paths.ResolvePath` | crates/dafs-store/src/paths.rs:236-283 | The upward loop and the reversed join give the deepest 256 components of the chain, cut short at a dangling parent. |
| `Paths.NormalisedComponents` | crates/dafs-store/src/paths.rs:292-309 | The loop drops root and `.`, and `..` takes back the last name, at the root none. |
| `Paths.NormaliseCompose` | crates/dafs-store/src/paths.rs:292-309 | Normal forms compose: what precedes a suffix matters only through its own normal form. |
| `Paths.NormaliseRewrites` | crates/dafs-store/src/paths.rs:292-309 | A name followed by `..` disappears wherever it stands, a `..` at the root does, and the root and `.` do anywhere. |
| `Paths.RenderInjective` | crates/dafs-store/src/paths.rs:278-284 | Paths of names without a slash resolve to the same text only if they are the same. |
| `Paths.Interner.InternDir` | crates/dafs-store/src/paths.rs:88-102 | With any cache that agrees with the table the id is the table's, and the cache keeps agreeing: it gains the name, after being emptied if it held 16384, and is otherwise as it was. |
| `Paths.Interner.InternLeaf` | crates/dafs-store/src/paths.rs:114-123 | The same id without touching the cache. |
| `Paths.UpsertEntry` | crates/dafs-store/src/paths.rs:177-226 | The statements do what the specified upsert does, and outside a transaction the file goes from the old content to the new in one step. |
| `Paths.EnsureChainFrom` | crates/dafs-store/src/paths.rs:156-169 | The loop over components equals the specified chain, and every content of the file between its statements is a point of that chain. |
| `Paths.EnsurePointValid` | crates/dafs-store/src/paths.rs:156-169 | Interrupted after any statement of a chain, the tree invariant holds. |
| `Recording.OwningRoot` | crates/dafs-scan/src/lib.rs:667-673 | The longest root containing the path, and none exactly when no root contains it. |
| `Recording.RecordPathFacts` | crates/dafs-scan/src/lib.rs:387-459 | A path seen on disk ends up with a live row of that path, size and mtime, the store stays sound, and a file is handed to extraction exactly when an event about that row is appended. |
| `Recording.RecordAtKind` | crates/dafs-scan/src/lib.rs:439-456 | No event exactly when a live row with that size and mtime was there; a creation exactly when no live row had the path. |
| `Arrivals.TouchArrives` | crates/dafs-scan/src/lib.rs:387-459 | A touched path found strictly inside its root, in full: its row is live there with that size and mtime; a file is handed to extraction exactly when its row was not live with them before, with exactly one event of that time and size, a creation if the row was not live and a modification if it was; directories log nothing. |
| `Arrivals.LiveIffRow` | crates/dafs-scan/src/lib.rs:387-459 | ... where a path was live exactly if its row and its directory were, so in a live directory the event is a creation exactly when nothing was live at the path. |
| `Arrivals.VanishedDeparts` | crates/dafs-scan/src/lib.rs:399-413 | A touched path that is gone by the time it is looked at departs as if its removal had been reported; one that cannot be looked at is left alone. |
| `Recording.RecordedWhereObserved` | crates/dafs-scan/src/lib.rs:423-431 | An observation is recorded at its own path exactly when it is strictly inside its root; on the root itself it lands one level too deep. |
| `Recording.LookupFileFacts` | crates/dafs-scan/src/lib.rs:566-601 | A row found for a path resolves to that path, and is the row the path's location queries lead to. |
| `Departure.RemovalEmpties` | crates/dafs-scan/src/lib.rs:610-661 | After a removal no live row has the path; the row that had it is tombstoned with one deletion of it logged, and nothing else is ever logged. |
| `Arrivals.RemovalDeparts` | crates/dafs-scan/src/lib.rs:610-661 | The row that was live at the removed path is stamped with the time of removal and keeps everything else. |
| `Departure.RemovalClearsSubtree` | crates/dafs-scan/src/lib.rs:610-661 | Nothing at or below the path is live afterwards. |
| `Departure.RemovedReturns` | crates/dafs-scan/src/lib.rs:652-657 | One row only is tombstoned: if the directory is seen again, that row is revived and with it every entry below that was live before. |
| `Agreement.WatchMatchesScan` | crates/dafs-scan/src/lib.rs:387-459 | The same entry seen by a scan and by the watch, under any nesting of roots: same row, same contents, same event or none. |
| `Recorder.PathSeen` | crates/dafs-scan/src/lib.rs:387-459 | The autocommitted statements have the specified effect, and every content the file has between them is one of the interruption points of a touch. |
| `Recorder.Removal` | crates/dafs-scan/src/lib.rs:610-661 | The same for a removal, whose points include the tombstone without its event. |
| `Recorder.PathRenamed` | crates/dafs-scan/src/lib.rs:477-559 | The same for a rename, whose points include the freed destination and the moved row without their events. What the effect amounts to is stated by `Relocation.RenameRelocates` and `Relocation.RenameInFull` for a live source, `Arrivals.UnknownSourceArrives` for an unknown one and `Arrivals.OutsideDestinationDeparts` for a destination outside every root. |
| `Interrupted.SeenSurvives` | crates/dafs-scan/src/lib.rs:387-459 | Every interruption point of a touch is a sound store with the earlier log as a prefix. |
| `Interrupted.RemovalSurvives` | crates/dafs-scan/src/lib.rs:610-661 | The same for a removal. |
| `Interrupted.RenameSurvives` | crates/dafs-scan/src/lib.rs:477-559 | The same for a rename whose destination is not below its source. |
| `Renaming.RenameRewritesSubtree` | crates/dafs-scan/src/lib.rs:493-539 | Every row below the moved one resolves to the destination plus its old suffix; every other row keeps its path; the tree stays valid. |
| `Relocation.RenameRelocates` | crates/dafs-scan/src/lib.rs:477-559 | A rename of what is live at the source, to a place not below it: everything live at or below the source is live at or below the destination under the same ids, nothing is live at the source any more (unless the destination lies above it), what was live at the destination is tombstoned, and every other live path stays. |
| `Relocation.RenameInFull` | crates/dafs-scan/src/lib.rs:526-559 | Besides, the moved row keeps its size, mtime and kind; the log gains the deletion of the row freed at the destination, which is the one that was live there if one was, and then the rename with the row's former parent and name and the size found; and the row is handed to extraction unless it is a directory. |
| `Relocation.SourceKnownIff` | crates/dafs-scan/src/lib.rs:566-601 | In a live directory a path is a known source exactly if a row, dead or alive, was recorded under it, and the row found is the live one or else the latest tombstone. |
| `Arrivals.UnknownSourceArrives` | crates/dafs-scan/src/lib.rs:493-497 | A rename of an unknown source is an arrival at the destination, in full as for a touch. |
| `Arrivals.OutsideDestinationDeparts` | crates/dafs-scan/src/lib.rs:484-489 | A rename out of every root is a departure from the source. |
| `Relocation.LiveSourceKnown` | crates/dafs-scan/src/lib.rs:566-601 | A live path inside its root is always a known source, and the row found is the one that has the path. |
| `Renaming.RenameTimeline` | crates/dafs-scan/src/lib.rs:541-551 | Earlier events are untouched and keep the moved row's id, the row now resolves to the destination, and the new event's previous path is the source path (chains of at most 256). |
| `Renaming.RenameEvent` | crates/dafs-scan/src/lib.rs:541-551 | The log ends in a rename of the moved row whose previous location resolves to the source path. |
| `Renaming.RenameKeepsTreeIff` | crates/dafs-scan/src/lib.rs:535-539 | A rename of a known row keeps the tree sound exactly when its destination is not below its source. |
| `Relocation.RenameIntoItselfBreaks` | crates/dafs-scan/src/lib.rs:535-539 | A rename of any live source to a place below itself makes the store unsound. |
| `Relocation.DocsIntoItselfBreaks` | crates/dafs-scan/src/lib.rs:535-539 | A concrete sound store of a root and a directory, and the rename of that directory into itself that breaks it. |
| `Renaming.RenameSound` | crates/dafs-scan/src/lib.rs:477-559 | Every other rename, known source or not, keeps the store sound. |
| `Renaming.DestinationBelowSource` | crates/dafs-scan/src/lib.rs:497-508 | The destination directory's row is below the source row exactly when the destination path is below the source path. |
| `PathTree.MoveSubtree` | crates/dafs-scan/src/lib.rs:535-539 | The one-row update rewrites the path of every row below it. |
| `PathTree.MoveBelowItself` | crates/dafs-scan/src/lib.rs:535-539 | Moving a row below itself leaves it without any path. |
| `StoreRuns.RunAgrees` | crates/dafs-scan/src/lib.rs:387-661 | Over every run, operations complete or killed anywhere, in which no directory takes over a deleted file's row: until an operation is killed with a file row ahead of its history, a file row is live exactly when it has an event and its last event is not a deletion; the first one so killed breaks that. |
| `StoreRuns.LeavesAgreesIff` | crates/dafs-scan/src/lib.rs:387-661 | One operation keeps that link exactly when it was not killed at such a content; a scan always keeps it, because upserts and events commit together. |
| `StoreRuns.KilledTouchRun` | crates/dafs-scan/src/lib.rs:440-456 | A run from the empty store of one touch, killed between its row and its event, that ends with rows and history apart. |
| `Unlogged.TouchPointAgreesIff` | crates/dafs-scan/src/lib.rs:440-456 | Between a touch's statements the link breaks exactly where the row of a created or returning file is there and its event is not. |
| `Unlogged.RemovalPointAgreesIff` | crates/dafs-scan/src/lib.rs:652-657 | Between a removal's, exactly at the tombstone of a file without its deletion. |
| `Unlogged.RenamePointAgreesIff` | crates/dafs-scan/src/lib.rs:526-551 | Between a rename's, exactly where the deletion of a displaced file, the rename of a revived source, or the creation of an unknown source is missing. |
| `Unlogged.KilledTouchLosesEvent` | crates/dafs-scan/src/lib.rs:440-456 | A touch killed between row and event leaves the row as the completed touch does and logs nothing, be it a creation or a modification; repeating the touch logs nothing either. |
| `Unlogged.KilledTouchForgets` | crates/dafs-scan/src/lib.rs:440-456 | From any sound store with no row at the path, some such kill leaves the file live, up to date and without any event. |
| `Unlogged.KilledTouchForgottenForGood` | crates/dafs-scan/src/lib.rs:440-456 | ... and it stays so over any number of scans of the tree, and the touch, repeated after them, logs nothing. |
| `Unlogged.NotesForgotten` | crates/dafs-scan/src/lib.rs:440-456 | The concrete case: one file, its first touch killed, from the empty store. |
| `Liveness.PathAgreesIff` | crates/dafs-scan/src/lib.rs:415-456 | An observation keeps that agreement exactly when none of the directories it goes through is the tombstone of a file. |
| `Liveness.EnsureDirsAgrees` | crates/dafs-store/src/paths.rs:156-169 | Ensuring a chain keeps it exactly when the chain revives no file. |
| `Liveness.RenameAgrees` | crates/dafs-scan/src/lib.rs:526-551 | A rename keeps it, through displacement of the destination and renames of tombstones, if neither the source root's chain nor the destination's directories revive a file. |
| `Liveness.RenameAgreesIff` | crates/dafs-scan/src/lib.rs:526-551 | A rename of a known source keeps it exactly when the directories it goes through revive no file, other than one at the destination itself, which is then displaced and logged as deleted. |
| `Liveness.RemovalAgreesIff` | crates/dafs-scan/src/lib.rs:610-661 | A removal keeps it exactly when it does not get as far as the root's chain, for want of a root or of the name, or that chain revives no file. |
| `Liveness.DirectoryOverDeletedFile` | crates/dafs-store/src/paths.rs:211-217 | Since an upsert never changes a row's kind: a directory observed where a deleted file's row is revives that row, live although its last event is a deletion. |
| `Exclusion.ScannedButIgnoredIff` | crates/dafs-scan/src/lib.rs:863-875 | Of the entries a scan yields, the watch ignores exactly the files that have an excluded directory's name and, where the root itself lies inside an excluded directory, all of them. |
| `Exclusion.StoredPathsVisible` | crates/dafs-scan/src/watch.rs:348-356 | Where no row is stored below an excluded name, no stored path goes through an excluded directory. |
| `Observer.RunKeeps` | crates/dafs-daemon/src/main.rs:632-663 | Over every run of the observer thread (changes and live commands in any order, killed at any statement and restarted any number of times) the store stays sound, history is append-only, no stored path goes through an excluded directory and no root is listed twice. |
| `Observer.NewsIsQueued` | crates/dafs-daemon/src/main.rs:740-803 | Short of an overflow, a file is queued for extraction exactly when the change logs news of it. |
| `Observer.KilledBeforeQueue` | crates/dafs-daemon/src/main.rs:768-772 | The log is written before the queue: a kill between the two leaves the news logged and the file not queued. |
| `Observer.MissedNewsIff` | crates/dafs-daemon/src/main.rs:768-772 | The requeue at the next start makes up for that exactly if the file was queued anyway, has no result, or has one of an older extractor. |
| `Observer.RenameAcrossExclusion` | crates/dafs-daemon/src/main.rs:777-800 | A rename into an excluded directory leaves no live row at the source, one out of it records the destination, one within changes nothing. |
| `Reactions.TouchedArrives` | crates/dafs-daemon/src/main.rs:762-772 | A path reported touched, not excluded and found strictly inside its root, arrives in full, and exactly the file of the new event is queued. |
| `Reactions.TouchedGone` | crates/dafs-daemon/src/main.rs:762-772 | ... gone by then, it departs; not to be looked at, nothing happens. |
| `Reactions.RemovedDeparts` | crates/dafs-daemon/src/main.rs:773-776 | A path reported removed and not excluded has no live row afterwards, the row it had is stamped with one deletion logged, and nothing is queued. |
| `Reactions.RenamedMoves` | crates/dafs-daemon/src/main.rs:780-800 | A rename between visible places relocates what is live at the source, in full, and queues the file. |
| `Reactions.RenamedUnknownArrives` | crates/dafs-daemon/src/main.rs:780-800 | ... of a source never recorded, such as an editor's temporary file, it is an arrival at the destination. |
| `Reactions.RenamedOutArrives` | crates/dafs-daemon/src/main.rs:787-791 | Out of an excluded directory a rename is an arrival in full. |
| `Reactions.RenamedInDeparts` | crates/dafs-daemon/src/main.rs:792 | Into an excluded directory it is a departure in full. |
| `Reactions.RenamedAwayDeparts` | crates/dafs-daemon/src/main.rs:793-799 | Out of every root it is a departure too. |
| `Reactions.OutOfSightIgnored` | crates/dafs-daemon/src/main.rs:740-803 | Changes of paths that are excluded or outside every root change nothing and queue nothing. |
| `Rescans.OverflowSettles` | crates/dafs-daemon/src/main.rs:750-761 | After lost notifications, with walks that report a tree truthfully and miss none of its files, every file of every root that could be walked has a live row with its size and mtime, nested roots included. |
| `Rescans.OverflowSettlesIff` | crates/dafs-daemon/src/main.rs:750-761 | A file below a walked root is settled so exactly if no root at or below the file itself is walked after the last one above it: a root that is a file turns the row it shares with it into a blank directory entry. |
| `Rescans.CommandSettles` | crates/dafs-daemon/src/main.rs:682-737 | After a command every file of every root it newly lists is settled. |
| `Rescans.ListedLive` | crates/dafs-scan/src/lib.rs:219-300 | Whatever a walk lists, directories included, is live at its path at the end. |
| `Observer.WatchMissesModification` | crates/dafs-daemon/src/main.rs:762-766 | A modified file with an excluded directory's name: a scan logs the modification, the watch never does. |
| `Observer.Thread.ApplyChange` | crates/dafs-daemon/src/main.rs:740-803 | The dispatch, statement by statement, does what `Applied` says to the store and the queue, and the contents a kill during it can leave; the rows of `Reactions` and `Rescans` say what `Applied` amounts to. |
| `Observer.Thread.Restart` | crates/dafs-daemon/src/main.rs:573-586 | After a kill at any point the thread starts again on the last committed content, which is sound, with an empty cache. |
| `Observer.Thread.ApplyCommand` | crates/dafs-daemon/src/main.rs:669-737 | A command lists exactly the kept roots and the new ones that can be scanned and watched, and fails exactly when some root is neither. |
| `Extraction.Queue.RunUntilIdle` | crates/dafs-daemon/src/extract_worker.rs:194-215 | With nothing newly queued the loop ends within five times the queue length of extractions, every row left has spent its attempts, the files started on are exactly those that had attempts left, no file is lost, and a file that extracts is extracted whatever fails before it. |
| `Extraction.Queue.Pending` | crates/dafs-store/src/metadata.rs:149-159 | Rows under the attempt limit, oldest first, at most `limit`, and none older is left out. |
| `Extraction.Queue.RequeueStale` | crates/dafs-store/src/metadata.rs:180-213 | Stale results are queued afresh and live files with neither result nor row are queued; the count is that of both. |
| `Extraction.RequeueOffers` | crates/dafs-store/src/metadata.rs:180-213 | After a requeue the files offered are those whose result is stale, the live ones that had neither result nor row, and those offered before; the first two have all their attempts from that time on, and results and every other row stay. |
| `Extraction.ExtractedUntilNewer` | crates/dafs-store/src/metadata.rs:79-132 | An extracted file is queued by the next requeue exactly if that is of a newer extractor, and the rows of all others stay. |
| `Extraction.EnqueuedGoesLast` | crates/dafs-store/src/metadata.rs:136-159 | A request puts its file behind everything queued before it, with the attempts it has already had. |
| `Extraction.AttemptSpends` | crates/dafs-store/src/metadata.rs:167-172 | An attempt on an eligible file spends one unit of the queue's budget, whatever comes of it. |
| `ExtractionRuns.NothingLost` | crates/dafs-store/src/metadata.rs:79-213 | Over every interleaving of enqueues, requeues, polls, attempts, successes, failures, kills and restarts, every file made the queue's responsibility is extracted or queued. |
| `ExtractionRuns.AtMostFiveStarts` | crates/dafs-store/src/metadata.rs:41-45 | Between two resets of a file at most five extractions of it start, killed ones included. |
| `ExtractionRuns.ServedIff` | crates/dafs-store/src/metadata.rs:136-143 | A request is served, by an extraction that starts before the queue stops offering the file however things go on, exactly when at that moment the file is not being extracted and has attempts left. |
| `ExtractionRuns.RequestKept` | crates/dafs-store/src/metadata.rs:136-143 | Over every run, after a request made while its file is not being extracted the file is still queued or an extraction of it has started since. |
| `ExtractionRuns.RequeuedUntilStarted` | crates/dafs-store/src/metadata.rs:180-213 | Over every run, from a requeue on a stale file, or a live one with neither result nor row, is queued with all its attempts until an extraction of it starts. |
| `ExtractionRuns.RequestDuringExtraction` | crates/dafs-store/src/metadata.rs:128-131 | A request made while its file is being extracted: a success takes it off the queue with no extraction started since, a failure or a kill leaves it there. |
| `ExtractionRuns.SpentRequestParked` | crates/dafs-store/src/metadata.rs:139-143 | A request for a file that has spent its attempts starts nothing until a reset, because queueing again leaves the count alone. |
| `ExtractionRuns.UnservedRequestsReachable` | crates/dafs-store/src/metadata.rs:128-143 | Both kinds of unserved request occur in concrete runs from the empty store: one during an extraction, one after five failures. |
| `WatchHalves.HalvesAccounted` | crates/dafs-scan/src/watch.rs:226-307 | Over every sequence of notifications and polls each rename half is in exactly one place: waiting, paired with an opposite half of its tracker, replaced by a later one of its direction, or expired after a second to a removal or a touch; and every touch or removal stored was told by a plain notification of that path or comes from a half that just expired. |
| `WatchHalves.ReportedRenameJustified` | crates/dafs-scan/src/watch.rs:226-278 | A reported rename has its endpoints from one notification naming both, or from opposite halves under one tracker. |
| `WatchRuns.ReportsLatestAndQuiet` | crates/dafs-scan/src/watch.rs:311-335 | Each reported change is the last one stored under its key, not superseded since, and the key was quiet for the debounce window. |
| `WatchRuns.ReportedOnce` | crates/dafs-scan/src/watch.rs:324-333 | Between two reports under one key a change was stored again: none is reported twice. |
| `WatchFates.StoredFate` | crates/dafs-scan/src/watch.rs:211-333 | Each stored change has exactly one fate: pending with its own stamp, reported as it is after a quiet window, overwritten by a later store under its key, or superseded by a rename away from it. |
| `WatchFates.ReportHasStore` | crates/dafs-scan/src/watch.rs:324-333 | Every report is that of one stored change. |
| `WatchFates.ReportedUnlessTouched` | crates/dafs-scan/src/watch.rs:272-278 | Once nothing is pending, a stored change, a rename among them, was reported exactly if its key was reported with nothing stored under it, and no rename away from it, before. |
| `WatchFates.RenameLost` | crates/dafs-scan/src/watch.rs:217-217 | A concrete run: a rename, a write to its destination within the window, a poll that reports the write alone. |
| `WatchRuns.OverflowFirstAndOnce` | crates/dafs-scan/src/watch.rs:319-323 | A poll reports an overflow exactly when notifications were lost since the last poll, in first place and once. |
| `WatchRuns.TwoPollsFlush` | crates/dafs-scan/src/watch.rs:285-335 | With nothing new heard, a poll after the rename window and another a debounce window later leave both maps empty, and every stored change was reported or superseded. |
| `Watch.Watcher.AbsorbEvent` | crates/dafs-scan/src/watch.rs:189-219 | Absorbing a notification does what `Absorb` says to both maps and the flag; the rows of `WatchSteps` say what that amounts to. |
| `Watch.Watcher.AbsorbRename` | crates/dafs-scan/src/watch.rs:226-270 | The event is interpreted as a rename exactly when it names both endpoints or is a half with a tracker; else nothing changes. |
| `Watch.Watcher.TakeExpired` | crates/dafs-scan/src/watch.rs:311-335 | Expiry, overflow and draining in that order, for any iteration order of the hash maps; `WatchSteps.PollKeeps` and `WatchSteps.PollReportsDue` say what that amounts to. |
| `WatchSteps.PlainHeard` | crates/dafs-scan/src/watch.rs:201-219 | After a notification that is neither an overflow nor a rename that can be interpreted, each of its paths is pending with its stamp, as removed for a removal and as touched for everything else; an access changes nothing; and no notification touches other keys or what waits. |
| `WatchSteps.OverflowHeard` | crates/dafs-scan/src/watch.rs:190-193 | An overflow raises the flag and does nothing else. |
| `WatchSteps.BothHeard` | crates/dafs-scan/src/watch.rs:228-234 | A notification naming both ends leaves the rename pending under its destination and nothing under its source. |
| `WatchSteps.HalfHeard` | crates/dafs-scan/src/watch.rs:236-269 | A first half, or another of the same end, waits; the opposite end completes the rename, whichever comes first. |
| `WatchSteps.PollKeeps` | crates/dafs-scan/src/watch.rs:285-335 | A poll lets exactly the halves go that are a second old and leaves their paths pending as of now, as removed or touched by direction; what was pending for half a second without news is gone; the rest is as it was. |
| `WatchSteps.PollReportsDue` | crates/dafs-scan/src/watch.rs:311-335 | It reports an overflow first, if there was one, and then, once each, exactly the changes that are due. |
| `Embeddings.HammingCountsSigns` | crates/dafs-store/src/embeddings.rs:172-180 | For any width, the Hamming distance of two quantized vectors is the number of dimensions whose signs differ; padding never counts. |
| `Embeddings.QuantizeBits` | crates/dafs-store/src/embeddings.rs:172-180 | One bit per dimension, set exactly when it is not negative, padding bits clear. |
| `Embeddings.SearchRecalls` | crates/dafs-store/src/embeddings.rs:242-285 | Results are the true distances of stored files, ascending, each once; a strictly nearer file is missing only if that many candidates are no farther in Hamming distance. |
| `Embeddings.FewFilesExact` | crates/dafs-store/src/embeddings.rs:231-285 | With no more files than candidates the answer is the exact nearest. |
| `Embeddings.EmbeddingStore.Search` | crates/dafs-store/src/embeddings.rs:242-285 | A query is refused exactly when its sign bits do not fill the bit table's bytes; any other, of the table's width or not, is answered: a nearer file is missing only where `4 * limit` files (4294967295 where that is less) crowd it out, and with no more files than that none is. |
| `Embeddings.DistanceOfCommon` | crates/dafs-store/src/embeddings.rs:293-305 | The distance stops with the shorter vector: dimensions beyond it do not count. |
| `Embeddings.DistanceZeroIff` | crates/dafs-store/src/embeddings.rs:293-305 | Of one width, exactly equal vectors are at distance zero; all others are at a positive one. |
| `Embeddings.DistanceByDimension` | crates/dafs-store/src/embeddings.rs:293-305 | Each dimension contributes the square of its own difference, whatever the others are. |
| `Embeddings.HammingOfUnequal` | crates/dafs-store/src/embeddings.rs:172-180 | Where two widths fill the same bytes, the Hamming distance is the sign differences of the common dimensions plus the longer vector's further non-negative ones, so a longer query is ranked as its own prefix. |
| `Embeddings.WrongWidthFits` | crates/dafs-store/src/embeddings.rs:147-150 | Every table width has some other query width that fills as many bytes and so is not refused. |
| `Embeddings.LongQueryAnswered` | crates/dafs-store/src/embeddings.rs:242-305 | A table of 10 dimensions answers a query of 12, with the distance of its first ten. |
| `Embeddings.EmbeddingStore.StoreVector` | crates/dafs-store/src/embeddings.rs:194-222 | Both tables and the dequeue change together or, for a wrong width, not at all; the tables stay in lockstep. |
| `Embeddings.EmbeddingStore.EnsureTable` | crates/dafs-store/src/embeddings.rs:121-157 | The first model and width stay; any other is refused. |
| `Civil.CivilToUnixCorrect` | crates/dafs-extract/src/exif.rs:87-109 | For every input, the closed form is 86400 times the days since 1970-01-01 counted year by year and month by month by the leap-year rule, plus the seconds of the day; out-of-range fields give none. |
| `Civil.IntermediateBounds` | crates/dafs-extract/src/exif.rs:94-99 | For real dates the day of year is at most 365 and the day of era at most 146096. |
| `Civil.StrictlyIncreasing` | crates/dafs-extract/src/exif.rs:87-109 | Of two real times the later never has the smaller timestamp, and has the same exactly when the earlier is a second 60 and the later the first second of the following minute. |
| `Civil.LeapSecondWraps` | crates/dafs-extract/src/exif.rs:91-93 | Second 60, which is accepted, has the timestamp of the first second of the next minute, across hours, days, months and years. |
| `Timeline.EventReadIff` | crates/dafs-store/src/events.rs:225-297 | Following the last id of each page as the next cursor returns a given event under all page sizes exactly when no event with a smaller id has a later time. |
| `Timeline.DisorderLosesEvent` | crates/dafs-store/src/events.rs:225-297 | A client reading one event per page reads every event exactly when timestamps never decrease with id; where they do, it loses one. |
| `Timeline.PaginationCompleteIff` | crates/dafs-store/src/events.rs:225-297 | The pages are what one unlimited query returns, each event once and in its order, for all page sizes, exactly when timestamps never decrease with id. |
| `Timeline.FilteredCompleteIff` | crates/dafs-store/src/events.rs:233-297 | Under any fixed filters the matching events are read in full, for all page sizes, exactly when timestamps never decrease with id among them, as is the case whenever they never do in the whole log. |
| `Timeline.ClockStepLosesEvent` | crates/dafs-store/src/events.rs:281-289 | One backward clock step: a two-event log from which a client reading one per page never gets the second. |
| `Timeline.Paginate` | crates/dafs-store/src/events.rs:185-297 | The client's loop over pages ends and returns what following the cursor returns. |
| `Timeline.SortedFacts` | crates/dafs-store/src/events.rs:281-289 | A page query orders by time then id, most recent first, and keeps each entry once. |
| `Timeline.PageExact` | crates/dafs-store/src/events.rs:185-297 | A page in full: entries below the cursor, most recent first, at most as many as asked for within 1 to 500 (50 without a limit), and one left out means a full page of more recent ones. |
| `Timeline.EffectiveLimit` | crates/dafs-store/src/events.rs:210-212 | Every limit is clamped to 1..500, 50 without one. |
| `Timeline.LatestForFileIds` | crates/dafs-store/src/events.rs:400-431 | One latest event per requested file, in request order, repeated files once, files without events left out. |
| `LogHistory.Session` | crates/dafs-api/src/log_history.rs:75-107 | After the writer is dropped the ring holds the last 2000 of its earlier lines followed by the non-empty lines of what got through, the unterminated tail included; if the writes are the bytes of a text cut between characters, by those of the text, however it is cut. |
| `LogHistory.AcceptedIff` | crates/dafs-api/src/log_history.rs:81-91 | Each write is decoded by itself: a text gets through unchanged exactly when no cut between two writes falls inside a character. |
| `LogHistory.SplitCharacter` | crates/dafs-api/src/log_history.rs:81-91 | A text of two lines cut inside an accented letter: both writes are dropped, the finished line with them. |
| `Utf8.DecodeIff` | crates/dafs-api/src/log_history.rs:82-83 | Bytes decode to a text exactly when they are its UTF-8 encoding. |
| `Utf8.EncodeShape` | crates/dafs-api/src/log_history.rs:82-83 | The encoding has the standard's lead and continuation bytes, and its examples of two, three and four bytes. |
| `LogHistory.Writer.Write` | crates/dafs-api/src/log_history.rs:81-91 | Closed lines go to the ring, the rest waits; a chunk that is not UTF-8 changes nothing. |
| `LogHistory.Resume` | crates/dafs-api/src/log_history.rs:81-91 | The lines of a concatenation are those of the first part and those of its tail followed by the second. |
| `LogHistory.CutRebuilds` | crates/dafs-api/src/log_history.rs:81-91 | The closed lines with their newlines, and then the tail, are the text again. |
| `LogHistory.LinesHoldNoNewline` | crates/dafs-api/src/log_history.rs:43-52 | No stored line is empty or holds a newline. |
| `LogHistory.History.PushLine` | crates/dafs-api/src/log_history.rs:43-52 | An empty line changes nothing; any other is appended, the oldest dropped if there were 2000. |
| `LogHistory.History.Recent` | crates/dafs-api/src/log_history.rs:56-60 | The last n lines, oldest first. |

## Left out

- Recording.RecordedWhereObserved: events on a watch root itself are modelled, but the run theorems about renames and about rows against history ask for paths strictly inside their roots.
- StoreRuns.RunAgrees: asks that no directory is observed where a deleted file's row is; `Liveness.PathAgreesIff` shows the condition is exact for an observation and `Liveness.DirectoryOverDeletedFile` gives the failing family. After the first operation killed with a row ahead of its history nothing is claimed of the link.
- StoreRuns.RunSound: renames to a place below their source are excluded; `Renaming.RenameKeepsTreeIff` shows that this is exactly where the invariant is lost.
- Observer.RunKeeps: asks that no watch root lies inside an excluded directory; the code does not check it, the scan of such a root records it and the watch ignores everything below it, as `Exclusion.ScannedButIgnoredIff` states. The worker's own changes to the queue are the subject of `ExtractionRuns`.
- Recorder.PathRenamed: one `stat` answer stands for the two or three the code asks for the destination in one call; the disk changing between them is not modelled.
- Recorder.PathSeen: rows and events of the watch operations are committed separately, so they are not claimed to survive a kill together; `Unlogged` says exactly what is lost.
- Departure.RemovalEmpties: at most one deletion per removal call, not per removal on disk: a rename can stamp an already tombstoned destination again.
- Scan.FullScanSettles: the store is not claimed to equal the disk after a scan; vanished files are never tombstoned by one.
- Scan.SecondScanQuiet: an entry's path is its decoded names; two entries of one directory whose names decode alike share a row in the code and, where they differ, log modifications at every scan; they are not told apart here.
- Paths.Interner.InternDir: asks for a cache that agrees with the table; after a ROLLBACK the code keeps a cache that may not, and rolled-back scans (SQLite errors mid-walk) are not modelled.
- Paths.NormalisedComponents: names are already decoded; two names that differ only in bytes outside UTF-8 share one component in the code and cannot be told apart here. Roots are clean absolute paths in the run theorems; the code takes them as given, so a relative root and the absolute one of the same names share one chain of rows.
- PathTree.Pick: equal tombstone stamps are resolved to the lower id, which the query leaves open.
- Recording.LookupFileFacts: the code's comment says the lookup of a parent creates nothing, but it ensures the chain of the root itself; the model follows the code.
- Watch.Watcher.AbsorbRename: the code's comment calls the fallback for an unpaired half a delete plus create; without a tracker the half is one touch of its path, and the model follows the code.
- WatchRuns.ReportsLatestAndQuiet: reported changes are not claimed to replay the disk; a later touch overwrites a pending rename under the same key, and of chained renames the first is dropped.
- ExtractionRuns.NothingLost: a file is extracted or queued, but not every modification is extracted again; `ExtractionRuns.ServedIff` says which requests are. Scans queue nothing until the next start.
- Embeddings.EmbeddingStore.Search: the bit table's query is a parameter, required to be any set of least Hamming distance, ties arbitrary, and the table refuses a query of another byte count, as its column type says; tables of width 0, which the extension does not create, are not excluded. Components are reals, distances squared, so NaN, rounding and the byte encoding of `to_blob` are not modelled.
- Rescans.OverflowSettles: the tree stands still while the roots are scanned; changes during a rescan are the watch's.
- Arrivals.UnknownSourceArrives: where the destination is a directory on the way to the source's own root, what was there before is read after that root's chain is ensured, as the code does.
- Extraction.RequeueOffers: the code's comment says a requeue also takes up anything left in the queue; rows left keep their attempts, so one that has spent them stays parked, and the model follows the code.
- Timeline.PaginationCompleteIff: no event arrives while a client pages; a filter is any predicate, and joining metadata columns onto entries is not modelled.
- LogHistory.Session: one writer at a time; the mutex and concurrent writers are not modelled.
- Integers are unbounded: 64-bit ids, sizes and timestamps are assumed not to wrap. The 32-bit saturation of the candidate count is modelled.
- Errors of SQLite and of the disk: statements succeed. The WAL, its checkpoints and durability below COMMIT are SQLite's.
- The enrichment and embedding queues, whose shape is that of the extraction queue; migrations and facet listings.
- Stopping the threads between two files or roots, reply channels and the shared root list of the daemon; starting and stopping watches is a parameter of the command.
- HTTP, the terminal interface, language-model calls, parsing of PDF, ZIP, XML and EXIF containers, process management, memory accounting.
