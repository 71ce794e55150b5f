# A verified model of the browser daemon

The daemon keeps browser sessions alive between tool calls. This project models the parts
of it whose state must stay right over long runs and interleavings, and proves what they
promise. Code that works step by step is modelled as methods and classes proved against
functions on plain values; the theorems range over every input, or over every run of those
functions. Code that awaits is modelled as a step system: one step is one stretch without
an `.await`, and any interleaving of steps is a run.

- **Accessibility snapshots.** `AxTree` has the single recursive pass of `build_tree` and
  `walk_children`: it splices ignored nodes out, counts in preorder, stops at 500 nodes, and
  mints or reuses ref strings in postorder. `AxTreeFacts` proves that the pass equals three
  simple ones (splice, cut, name). `WalkEnding` says for which nested calls it ends: the cap cuts
  off cycles of parent pointers, but for cycles of ignored nodes. `EndingByRows` says the same
  on the node list and the first 500 rows alone. `SnapshotShape` says which nodes a snapshot
  shows, `SnapshotRefs` which refs they get, `CaptureFacts` what each node and each table entry
  says. `FrameTree` models how the trees of nested frames become one list, `FrameOrigins` says
  where each node of it comes from. `Redaction` has the two passes that mask values,
  `RedactionFacts` what they mask.
- **Refs over a session.** `TabRefs` has the tabs, the captures and the six operations on
  them; `TabRuns` proves, for every run, what a ref still means. `TabHistory` says what each tab
  has shown, and what a ref resolves to in those terms.
- **Session registry.** `Registry` has lookups, closes, the idle reaper, crash eviction, the
  reserved slots for new sessions and the per-session locks as steps. `RegistryRuns` has the
  invariants, `RegistryTheorems` the promises and the runs that break two `expect`s,
  `RegistryTimes` whom the reaper takes and what lookups answer.
- **Network log.** `Utf8` models cutting text at a character boundary (the well-formed text
  of section 4 of RFC 3629), `NetworkLog.dfy` the log itself, as the module `NetworkCapture`;
  `NetworkFacts` proves that it refines an unbounded record of the calls made, `NetworkEntries`
  what an entry says and which ones a query returns.
- **Credential store** (`Vault`, `VaultFacts`) and **bridge channel** (`Bridge`, `BridgeRuns`): exactly-once
  protocols as step systems. The class `CredentialStore` and the class `Consumer` of
  `BridgeConsumer` carry the steps out in place.
- **File store** (`AtomicFs`, `AtomicFsRuns`): write to a temporary name, then rename, under
  interleaving, failures and abandoned calls.
- **Smaller loops.** `VisibleText` and `VisibleTextFacts` (the text-length scan), `LoginWall`
  (its use), `EnsureDaemon` (start-up polling).

`Options`, `Numerals` and `Queues` are shared helpers.

## Where the code and its comments disagree

The model follows the code.

- `close_session` expects its session to be there because it holds the session's lock
  (crates/native/src/browser.rs:2404-2407). `ClosePanicsIff` has the exact condition, for every
  run: another close removed the session, or a lookup evicted it as crashed.
  `SecondClosePanics` is a run of the first kind, two closes queued behind a third holder, and
  `EvictionBreaksClose` one of the second, with a single close. `NothingPanics` says that one
  close in flight per session and no crash suffice.
- The later lookups of `tabs` expect presence "confirmed above under the same guard"
  (crates/native/src/browser.rs:2568). Crash eviction takes no lock, so a lookup by another
  call breaks that: `EvictionBreaksCall`. `ExpectPanicsIff` has the exact condition, for every
  run: such an eviction happened.
- `walk_children` has no argument that it ends. It does not on a cycle of ignored nodes that it
  gets to: `IgnoredCycleNeverEnds`, and `SelfFrameNeverEnds` for browser answers, a frame that
  names itself, that lead to such a list. `WalkEndsIff` has the exact condition over the nested
  calls, `CaptureEndsIffRows` over the node list, and `RepeatedIdsAreCut` shows that cycles of
  other nodes only truncate the snapshot.
- Frame flattening prefixes node ids so that they are unique. They are not when two iframe
  nodes show the same frame: `SharedFrameDuplicatesIds`. Nor need they be with `/` and `:` in
  ids: `SeparatorsCollide`, `CollidingFramesNeverEnd`. `FlattenUniqueIff` has the exact
  condition, `DistinctFramesUnique` the usual sufficient one.
- Refs of one snapshot can repeat, which masking a single node by its ref takes for impossible
  (crates/native/src/browser.rs:1245-1247): `RefsCanRepeat` is a list on which two nodes get one
  ref, `TwinKeepsValue` shows that masking by it leaves the second value, and `RefsDistinctIff`
  says when refs are distinct.
- `title_says_login` cuts an unclosed title at byte 300 (crates/core/src/auth.rs:90-91), which
  need not be a character boundary; slicing there panics: `OpenTitlePanics`, and
  `DetectPanicsIff` for the exact condition.
- `wants_body` says whether fetching a body is worth it. It says no while the content type is
  unknown, though the body would then be stored: `UnaskedBodyIsStored`. `BodyWantedIff` says
  that this, while there is room, is the only case.

## Model

| member | source | states |
|---|---|---|
| AxTree.IndexByParent | crates/native/src/ax.rs:326-329 | the index maps each parent id, and no parent, to exactly its nodes in list order |
| CaptureFacts.ChildrenInOrder | crates/native/src/ax.rs:326-329 | these are the nodes that name that parent, each once, in the order of the list |
| AxTree.ReverseIndex | crates/native/src/ax.rs:331-340 | every indexed id names a main-process ref that has it, and every main-process ref's id is indexed, whichever duplicate wins |
| AxTree.TreeWalk.NameNode | crates/native/src/ax.rs:446-468 | reuses the ref of a main-process node seen before, else mints the next number; records refs of nodes with a backend id |
| AxTree.TreeWalk.VisitChild | crates/native/src/ax.rs:400-479 | one child: spliced, cut or kept, with the counters left as the value-level visit leaves them |
| AxTree.TreeWalk.WalkChildren | crates/native/src/ax.rs:387-479 | the whole in-place recursion, equal to the value-level walk of the forest below that parent |
| AxTree.BuildTree | crates/native/src/ax.rs:320-385 | index, walk and wrap under the root: the capture and the counter of the value-level capture |
| CaptureFacts.CaptureShows | crates/native/src/ax.rs:446-479 | the nodes of the snapshot, one for each survivor, have its role, name and value, empty where missing, and the ref it was given |
| CaptureFacts.CaptureRoot | crates/native/src/ax.rs:347-384 | the root shows the first parentless node of the list under the ref "root", and nothing if there is none |
| CaptureFacts.CaptureTable | crates/native/src/ax.rs:459-468 | exactly the refs of the shown nodes with a backend id are recorded, each with the backend id, role and origin of the last node that has it |
| CaptureFacts.ShownNodeIsRecorded | crates/native/src/ax.rs:459-468 | where refs do not repeat, the entry has the node's own backend id and origin and the role that the snapshot shows |
| CaptureFacts.RefText | crates/native/src/ax.rs:452-456 | a minted ref is an `e` and a decimal number |
| AxTreeFacts.WalkIsThreePasses | crates/native/src/ax.rs:387-479 | the single pass with running counters equals: splice out ignored nodes, keep the first nodes that fit, name in postorder |
| WalkEnding.WalkEndsIff | crates/native/src/ax.rs:387-442 | the counted recursion is finite iff none of its own nested calls, which are not made for nodes over the cap, is for an id on a cycle of ignored nodes |
| WalkEnding.RepeatIsIgnoredCycle | crates/native/src/ax.rs:400-430 | a call nested in one like itself has gone around a cycle of ignored nodes only |
| WalkEnding.CaptureEndsIff | crates/native/src/ax.rs:347-359 | the same for a whole node list |
| WalkEnding.NoIgnoredCycleEnds | crates/native/src/ax.rs:387-430 | it ends if no cycle of ignored nodes is reachable from the root, whatever other cycles there are |
| WalkEnding.NoIgnoredNodesEnd | crates/native/src/ax.rs:424-428 | in particular without ignored nodes |
| WalkEnding.IgnoredWayNeverEnds | crates/native/src/ax.rs:401-422 | it never ends if ignored nodes alone lead from the root to such a cycle |
| WalkEnding.IgnoredCycleNeverEnds | crates/native/src/ax.rs:401-422 | a list of three nodes on which it never ends |
| WalkEnding.CapHidesCycle | crates/native/src/ax.rs:424-428 | a list on which such a cycle is reachable and the walk ends, the cap being used up before |
| EndingByRows.CaptureEndsIffRows | crates/native/src/ax.rs:347-430 | on the node list alone: the capture ends iff ignored nodes alone lead to a cycle of ignored nodes neither from the root nor from one of the first 500 rows; how deep to look for these is bounded |
| EndingByRows.VisibleAreRows | crates/native/src/ax.rs:400-422 | the rows meant are those of the snapshot, one for each unignored node in preorder |
| EndingByRows.ShownIsWalked | crates/native/src/ax.rs:424-430 | the walk goes below every one of the first 500 rows |
| WalkEnding.UntruncatedIsComplete | crates/native/src/ax.rs:424-428 | a capture that is not marked truncated shows everything below the root, which has no cycle |
| WalkEnding.RepeatedIdsAreCut | crates/native/src/ax.rs:424-428 | a cycle of unignored nodes: the walk ends and the snapshot is marked truncated |
| AxTreeFacts.UnfoldsIffAcyclic | crates/native/src/ax.rs:387-422 | there are finitely many ways down from an id iff no cycle of parent pointers is reachable from it |
| AxTreeFacts.ExploringUnique | crates/native/src/ax.rs:387-442 | what the recursion looks at is determined by the node list |
| AxTreeFacts.ExploredIsPruned | crates/native/src/ax.rs:424-428 | it is any deep enough part of the unfolding, without what is below the nodes over the cap |
| AxTreeFacts.UnfoldingUnique | crates/native/src/ax.rs:387-422 | the forest the recursion follows is determined by the node list |
| AxTreeFacts.UniqueIdsTerminate | crates/native/src/ax.rs:320-422 | unique node ids alone make the walk from the first parentless node end |
| SnapshotShape.SnapshotShowsFirstRows | crates/native/src/ax.rs:320-479 | whenever the walk ends, the snapshot is exactly the first min(N, 500) rows (depth and content) of the spliced tree in preorder, and `truncated` holds iff N > 500, also where the tree has no end |
| SnapshotShape.VisibleRowsArePreorder | crates/native/src/ax.rs:400-422 | those rows are the unignored nodes of the unfolded tree in preorder |
| SnapshotShape.UnfoldedIffReachable | crates/native/src/ax.rs:387-422 | a node is unfolded iff parent pointers lead from it up to the root |
| SnapshotShape.UnfoldedOnce | crates/native/src/ax.rs:387-422 | with unique ids each reachable node is unfolded once |
| SnapshotShape.SnapshotCounts | crates/native/src/ax.rs:320-479 | with unique ids, N is the number of unignored nodes reachable from the root: the snapshot has min(N, 500) nodes and `truncated` holds iff N > 500 |
| SnapshotShape.RowsDetermineTree | crates/native/src/ax.rs:424-479 | equal rows mean equal trees up to refs: nothing of the shape is lost by comparing rows |
| SnapshotRefs.NameIsEnter | crates/native/src/ax.rs:446-468 | refs are given in postorder, each node's after its kept descendants' |
| SnapshotRefs.CaptureRefs | crates/native/src/ax.rs:446-468 | every recorded ref was minted by this capture or had the same main-process backend id before |
| SnapshotRefs.RefsDistinctIff | crates/native/src/ax.rs:331-340 | the refs of a snapshot are pairwise distinct iff no two of its nodes share a reusable backend id |
| SnapshotRefs.RefsCanRepeat | crates/native/src/ax.rs:446-457 | a list with unique node ids on which two nodes are given the same ref |
| SnapshotRefs.DistinctNodesDistinctRefs | crates/native/src/ax.rs:320-479 | unique node ids and distinct main-process backend ids give pairwise distinct refs |
| SnapshotRefs.SurvivorKeepsRef | crates/native/src/ax.rs:446-457 | a main-process node shown by two consecutive captures of a tab keeps its ref |
| FrameTree.Capturer.FetchFrameTree | crates/native/src/ax.rs:162-260 | the recursion over browser answers returns the flattening of the frames it reached |
| FrameTree.Capturer.FetchIframe | crates/native/src/ax.rs:199-258 | one iframe: first through the same session, then through an attached one; any failure leaves it out |
| FrameOrigins.FlattenedFrom | crates/native/src/ax.rs:162-260 | each node of the flattened list is a frame's own, with its content, its written id and parent, below the iframe node if it is adopted, and counts as of another process iff its frame has a session |
| FrameOrigins.OwnRootHangs | crates/native/src/ax.rs:251-254 | a frame with a root of its own is adopted by the first one |
| FrameOrigins.FetchAnswered | crates/native/src/ax.rs:162-289 | every frame fetched is what the browser answered, every child the document that it named for an iframe node, in the same session or in one attached to it |
| FrameOrigins.ChildIs | crates/native/src/ax.rs:199-258 | an iframe's frame comes through the same session if that can see it, else through one attached to its process; otherwise it is left out |
| FrameOrigins.AllIframesFetched | crates/native/src/ax.rs:200-265 | where the browser answers, every iframe node less than five levels down shows its frame, in order |
| FrameTree.AdoptRoot | crates/native/src/ax.rs:162-260 | hangs exactly the first parentless node of a child tree below its iframe node |
| FrameTree.FetchDepth | crates/native/src/ax.rs:263-265 | whatever the browser answers, no frame is fetched more than five levels down |
| FrameTree.FlattenOneRoot | crates/native/src/ax.rs:162-260 | one root per frame gives one parentless node in all, the main frame's |
| FrameTree.FlattenUniqueIff | crates/native/src/ax.rs:162-260 | flattened ids are unique iff no (session, frame, node id) triple repeats and no two triples are written alike; without `/` in session ids and `:` in frame ids none are |
| FrameTree.SeparatorsCollide | crates/native/src/ax.rs:162-260 | keys with the separators in them for which different triples give one id |
| FrameTree.DistinctFramesUnique | crates/native/src/ax.rs:162-260 | ids unique within each frame and no frame fetched twice give no repeated triple |
| FrameTree.FlattenedFramesWalkable | crates/native/src/ax.rs:162-422 | such frames flatten to one root, and to unique ids iff no two triples are written alike; then the walk ends |
| FrameTree.CollidingFramesNeverEnd | crates/native/src/ax.rs:162-422 | such frames, with a `:` in their ids, whose nodes are written alike and on which the walk never ends |
| FrameTree.SelfFrameFetched | crates/native/src/ax.rs:162-260 | browser answers for which a page shows itself below its own iframe, down to the deepest level |
| FrameTree.SelfFrameNeverEnds | crates/native/src/ax.rs:162-422 | for them, all nodes being ignored, the walk never ends |
| FrameTree.SharedFrameFetched | crates/native/src/ax.rs:162-260 | browser answers for which two iframes yield the same child frame |
| FrameTree.SharedFrameDuplicatesIds | crates/native/src/ax.rs:162-260 | for them the flattened ids repeat, though each frame's are unique |
| Redaction.Redactor.RedactedValue | crates/native/src/ax.rs:626-636 | one node's value after its check, and the probe made, if any |
| Redaction.Redactor.RedactFormControlValues | crates/native/src/ax.rs:620-641 | the in-place recursion equals the value-level pass, probes in the same order |
| Redaction.RedactionMasksExactly | crates/native/src/ax.rs:620-641 | only values change; masked are exactly the form controls with a known ref that are of another process or did not answer "safe" |
| RedactionFacts.SecretsAreMasked | crates/native/src/ax.rs:485-641 | a text, search or combo box with a recorded ref gets the value "[REDACTED]" iff it is of another process or its own probe answers that it is sensitive, or fails; nothing else changes, and the probes are asked in order |
| RedactionFacts.RedactSnapshot | crates/native/src/ax.rs:138-144 | the pass over a capture, in place, with exactly those probes |
| Redaction.ProbesAreLocal | crates/native/src/ax.rs:629-633 | an id is probed iff some form control with a known main-process ref has it; nodes of other processes never are |
| Redaction.RedactNodeByRef | crates/native/src/browser.rs:1248-1256 | the in-place search equals the value-level search |
| Redaction.SearchAllCells | crates/native/src/browser.rs:1248-1256 | it masks the first node of that ref in preorder, and reports whether there was one |
| RedactionFacts.FirstHolderIsMasked | crates/native/src/browser.rs:1248-1256 | the value of the first node with that ref becomes "[REDACTED]" and nothing else changes; without one nothing changes |
| Redaction.RedactRefMasksFirst | crates/native/src/browser.rs:1248-1256 | if several nodes have the ref, only the first of them is masked |
| Redaction.TwinKeepsValue | crates/native/src/browser.rs:1248-1256 | on a snapshot with a repeated ref the second node keeps its value |
| Redaction.RedactRefExact | crates/native/src/browser.rs:1248-1256 | with distinct refs exactly the named node changes, and the answer is true iff it exists |
| TabRefs.TabState.InstallSnapshot | crates/native/src/browser.rs:764-780 | the new table replaces the old; refs new to the tab are tagged with its generation, known ones keep their tag |
| TabRefs.TabState.TagRefs | crates/native/src/browser.rs:771-777 | the tagging loop adds exactly the given refs and changes no tag |
| TabRefs.BrowserSession.DoNavigate | crates/native/src/browser.rs:2016-2056 | the session-reusing navigate: bump, then capture from no refs; blocked or failed, the old table stays |
| TabRefs.BrowserSession.DoAct | crates/native/src/browser.rs:3464-3478 | an action's own capture starts from the tab's refs and goes to the active tab |
| TabRefs.BrowserSession.DoSnapshot | crates/native/src/browser.rs:2306-2393 | a snapshot: one capture of the active tab |
| TabRefs.BrowserSession.DoNewTab | crates/native/src/browser.rs:2540-2600 | a new tab with a state of its own, made active, captured from no refs |
| TabRefs.BrowserSession.DoSelectTab | crates/native/src/browser.rs:2620-2673 | selecting makes a tab in range active and captures it from its own refs |
| TabRefs.BrowserSession.DoCloseTab | crates/native/src/browser.rs:2700-2735 | closing removes one tab, never the last, and keeps the active index on the same tab or in range |
| TabHistory.ResolvesTo | crates/native/src/browser.rs:785-815 | in every run, a ref of the tree a tab showed last resolves to the backend id and role of the last node that has it, or is refused if that is in another process; any other ref is stale iff the page moved after the tab first recorded it |
| TabHistory.NodeKeepsRef | crates/native/src/browser.rs:2345-2366 | in every run, when an action, a snapshot or a switch of tabs shows a tree, a main-process node that the tab's last tree showed too has the same ref, if that tree had each backend id once |
| TabHistory.ActiveTabIs | crates/native/src/browser.rs:2570-2735 | a new or selected tab is active; else the tab that was stays so wherever it moves, and if it is closed the one that takes its place |
| TabRuns.MintedRefIsNew | crates/native/src/ax.rs:446-457 | in every run, the ref of a shown node that was not reused is in no tree or table built before, and no other node of its tree has it |
| TabRuns.SharedRefIsOneNode | crates/native/src/ax.rs:446-468 | in every run, two shown nodes with one ref, of one tree or of two, have one main-process backend id, whether or not a table records it |
| TabRuns.RefNeverChangesNode | crates/native/src/browser.rs:284 | over a whole run, two captures with the same ref give it the same backend id and the same cross-process flag |
| TabRuns.GenerationsNeverAhead | crates/native/src/browser.rs:764-780 | in every run, no recorded generation exceeds its tab's |
| TabRuns.NavigateInvalidates | crates/native/src/browser.rs:2016-2056 | after a navigate that ends with a snapshot no earlier ref of the session resolves in that tab, each recorded one answers "stale", and other tabs are untouched |
| TabRuns.FailedNavigateKeepsRefs | crates/native/src/browser.rs:2016-2056 | a navigate that fails after the bump keeps resolving the old table; one that fails before changes nothing |
| TabRuns.StaleForever | crates/native/src/browser.rs:785-815 | what a navigate made stale stays stale while the tab is open, wherever it moves |
| TabRuns.StaleInEveryRun | crates/native/src/browser.rs:785-815 | the same from the start of a session, through any operations before and after |
| Registry.SessionIdInjective | crates/native/src/browser.rs:721-725 | ids made with different counter values differ, whatever the clock says |
| Registry.SessionRegistry.TouchOrEvict | crates/native/src/browser.rs:374-392 | alive, missing or crashed, with the map each leaves |
| Registry.SessionRegistry.ReapExpired | crates/native/src/browser.rs:399-414 | the collect-then-remove loop removes exactly the idle sessions that are not busy |
| RegistryTimes.ReapedIff | crates/native/src/browser.rs:399-414 | in every run, a scan takes a session iff no task holds its lock and it was last opened, found, or worked on to the end more than 300 seconds ago; the times are those of the run's steps |
| RegistryTimes.LookupAnswers | crates/native/src/browser.rs:374-392 | what a lookup answers and does, for a missing, a crashed and a live session |
| RegistryTimes.TasksEnd | crates/native/src/browser.rs:1928-2080 | how calls, closes and new sessions end, and the session that is then there |
| Registry.SessionRegistry.NewSessionId | crates/native/src/browser.rs:721-725 | the id differs from every id made before, with a smaller counter value at whatever time |
| Registry.SessionRegistry.TryReserve | crates/native/src/browser.rs:1802-1813 | keeps sessions and reservations within 20, and refuses only when they are exactly 20 |
| Registry.SessionRegistry.ReserveSession | crates/native/src/browser.rs:1802-1816 | a new-session navigate up to its first await is the step `Reserve`, within the cap and with an id of its own |
| Registry.SessionRegistry.InsertSession | crates/native/src/browser.rs:1928-1941 | inserting and dropping the guard is the step `Insert`, within the cap |
| Registry.SessionRegistry.AbandonSession | crates/native/src/browser.rs:593-597 | failing or being cancelled is the step `Abandon`: the slot is given back |
| RegistryRuns.StepKeepsLocks | crates/native/src/browser.rs:374-421 | every step keeps each lock in agreement with the tasks: one holder, and a queue of those that wait |
| RegistryRuns.StepKeepsGone | crates/native/src/browser.rs:1970-1995 | every step keeps an explanation for each task whose session is gone: evicted, or closed by another |
| RegistryRuns.StepKeepsInv | crates/native/src/browser.rs:1786-2080 | locks, explanations, ids and the cap are kept by every step, so they hold after every run |
| RegistryTheorems.OpenSessionsCapped | crates/native/src/browser.rs:1802-1814 | in every interleaving, sessions plus reservations are at most 20 |
| RegistryTimes.RefusedIffFull | crates/native/src/browser.rs:1802-1809 | in every run, a new session is refused iff 20 are open or being opened |
| RegistryTimes.SessionIdText | crates/native/src/browser.rs:721-725 | an id is the time and the counter in hexadecimal |
| RegistryTheorems.InsertNeverOverwrites | crates/native/src/browser.rs:1905-1941 | an inserted id is not, and never was, in the map |
| RegistryTheorems.HeldSessionStays | crates/native/src/browser.rs:399-421 | a session whose lock is held leaves only by its holder's own close or by a lookup that finds it crashed |
| RegistryTheorems.LockWinnerAnswers | crates/native/src/browser.rs:1970-1995 | a call that wins the lock works on its session if it is there, else answers "not found", and then another closed it or it crashed |
| RegistryTheorems.RunRecords | crates/native/src/browser.rs:374-411 | the record of why a session is gone is exactly what happened in the run: an eviction, or a close by another |
| RegistryTheorems.ExpectPanicsIff | crates/native/src/browser.rs:2443-2475 | in every run, a later lookup of a call that holds the lock fails iff a lookup evicted the session as crashed |
| RegistryTheorems.CallKeepsItsSession | crates/native/src/browser.rs:2443-2475 | so never in a run without crashes |
| RegistryTheorems.ClosePanicsIff | crates/native/src/browser.rs:2395-2411 | in every run, a close fails its `expect` iff another close removed the session or a lookup evicted it as crashed |
| RegistryTheorems.NothingPanics | crates/native/src/browser.rs:2395-2411 | without crashes and with one close per session in flight, no run panics |
| RegistryTheorems.AtWorkReached | crates/native/src/browser.rs:1786-2080 | the run that opens a session and has a call hold its lock, where the runs of the rows below start |
| RegistryTheorems.TwoClosesQueue | crates/native/src/browser.rs:2395-2411 | from there two closes queue behind the call, and the first gets the lock |
| RegistryTheorems.SecondClosePanics | crates/native/src/browser.rs:2395-2411 | the first removes the session, the second fails its `expect` |
| RegistryTheorems.EvictionBreaksCall | crates/native/src/browser.rs:2543-2579 | a crash seen by another lookup evicts the session under the call, whose next `expect` fails |
| RegistryTheorems.EvictionBreaksClose | crates/native/src/browser.rs:2395-2411 | the same run with a single close queued behind the call: its `expect` fails |
| Utf8.TruncateUtf8 | crates/native/src/network.rs:26-35 | the loop returns the longest prefix of at most `max` bytes that ends on a character boundary |
| Utf8.BoundaryIffWellFormedPrefix | crates/native/src/network.rs:31-33 | in well-formed text the boundaries are exactly the ends of well-formed prefixes |
| Utf8.TruncatedKeepsWellFormed | crates/native/src/network.rs:26-35 | a cut text stays well-formed, is the longest such, and loses at most 3 bytes below the cap |
| Utf8.TruncateTwice | crates/native/src/network.rs:186-199 | cutting twice is cutting once at the smaller cap, and the OR-ed flag holds iff the original was longer than it |
| NetworkCapture.NetworkLog.OnRequest | crates/native/src/network.rs:57-82 | the three fields are again what the calls so far amount to, a redirect finishing the earlier hop |
| NetworkCapture.NetworkLog.OnResponse | crates/native/src/network.rs:84-92 | the same, for a response: the latest one since the request counts |
| NetworkCapture.NetworkLog.HasResponse | crates/native/src/network.rs:97-101 | true iff the request in flight has had a response |
| NetworkCapture.NetworkLog.WantsBody | crates/native/src/network.rs:105-115 | true iff there is room, the request is in flight and its type is known and not binary |
| NetworkCapture.NetworkLog.OnComplete | crates/native/src/network.rs:118-123 | the same as for a request, for a finished load |
| NetworkCapture.NetworkLog.OnFailed | crates/native/src/network.rs:127-132 | the same, for a failed load |
| NetworkCapture.NetworkLog.Push | crates/native/src/network.rs:163-169 | keeps the first 1000 of any unbounded list extended by the entry, and the flag iff there were more |
| NetworkCapture.NetworkLog.Clear | crates/native/src/network.rs:172-176 | a reset forgets everything, requests in flight included |
| NetworkCapture.NetworkLog.Query | crates/native/src/network.rs:180-210 | returns the matching entries in order with bodies cut at the cap; a clear empties the list but not the requests in flight |
| NetworkCapture.Extends | crates/native/src/network.rs:57-176 | the record of calls, extended by one, amounts to the fields after that call: the refinement step |
| NetworkEntries.InFlightIff | crates/native/src/network.rs:57-176 | a request is in flight until the next request, end or failure of its id, or a reset |
| NetworkEntries.ProgressIs | crates/native/src/network.rs:84-92 | its status is the last response's, its content type the last one named, the rest its own |
| NetworkEntries.EntriesTell | crates/native/src/network.rs:57-176 | the entries are, in order, those of the events that ended a request in flight since the last clear or reset: a redirect brings the status, times are rounded to milliseconds, bodies are kept unless binary, and cut at 16 384 bytes |
| NetworkEntries.QueryPicks | crates/native/src/network.rs:186-202 | a query returns exactly the entries whose URL has the filter in it, in order, unchanged but for the cut of their bodies |
| NetworkEntries.Limits | crates/native/src/network.rs:10-14 | 1000 entries, 16 384 bytes of a body, or fewer if asked |
| NetworkEntries.BinaryIff | crates/native/src/network.rs:16-24 | binary are images, fonts, audio, video and byte streams, in whatever case and with whatever white space around |
| NetworkFacts.EachRequestOnce | crates/native/src/network.rs:57-132 | every request since the last reset is in flight or finished, never both, and finished once |
| NetworkFacts.OneEntryEach | crates/native/src/network.rs:118-169 | without a clear, the k-th entry is that of the k-th finished request |
| NetworkFacts.FullLogIsFrozen | crates/native/src/network.rs:163-169 | a full log keeps its first 1000 entries until cleared or reset |
| NetworkFacts.OthersDoNotInterfere | crates/native/src/network.rs:57-132 | what is held for one id is what it would be had no other request been made |
| NetworkFacts.StoredThenShown | crates/native/src/network.rs:134-199 | a stored body, as shown, is the original cut once at the smaller cap, flagged iff the original was longer |
| NetworkFacts.BodyWantedIff | crates/native/src/network.rs:105-115 | a body is asked for iff finishing now would store it, but for a request of unknown type while there is room: its body is stored and not asked for |
| NetworkFacts.UnaskedBodyIsStored | crates/native/src/network.rs:105-123 | a request without a response is such a one |
| NetworkFacts.BinaryIgnoresPadding | crates/native/src/network.rs:16-24 | white space around a content type does not change whether it is binary |
| NetworkFacts.BinaryIgnoresCase | crates/native/src/network.rs:16-24 | nor does letter case |
| Vault.MatchesAreCandidates | crates/native/src/vault.rs:133-154 | the parsed matches are as many as the items with ids that match |
| Vault.LookupOkIff | crates/native/src/vault.rs:101-124 | a lookup names ids iff exactly one item with ids matches, and then that item's; a mismatch iff none does |
| VaultFacts.LookupNames | crates/native/src/vault.rs:101-174 | a lookup names the vault and item ids of the one item with both that links to that host; it is a mismatch iff there is none, and ambiguous with all their titles if there are several |
| VaultFacts.RefusalsMean | crates/native/src/vault.rs:345-392 | what each kind of failed command means |
| VaultFacts.ListMeans | crates/native/src/vault.rs:101-124 | a list command leads to a read with the ids it names, or to an error |
| VaultFacts.NewRunStarts | crates/native/src/vault.rs:251-263 | a resolve that joins no run reads at once with cached ids, and lists if there are none |
| VaultFacts.ValueWasRead | crates/native/src/vault.rs:251-308 | in every run, a value that a resolve ends with was printed, but for a newline at its end, by a read of ids that a list command had found to be the only ones |
| Vault.CredentialStore.Enter | crates/native/src/vault.rs:187-216 | in place, the step `Resolve`: joins the one unfinished run of that ref, and starts one iff there is none |
| Vault.CredentialStore.LookedUp | crates/native/src/vault.rs:257-279 | in place, the step `ListAnswered`: every invariant of the store is kept, whatever the list command answers |
| Vault.CredentialStore.ReadValue | crates/native/src/vault.rs:281-308 | in place, the step `ReadAnswered`, with the invariants kept |
| Vault.CredentialStore.Clear | crates/native/src/vault.rs:196-203 | the entry of a run that finishes was its own, and its ref is free afterwards |
| Vault.OneRunPerRef | crates/native/src/vault.rs:186-222 | in every run at most one backend run per ref is in flight, and `pending` names it |
| Vault.JoinersAgree | crates/native/src/vault.rs:186-222 | every answer is the outcome of the run its caller joined, so joiners agree |
| Vault.FinishRemovesOwnEntry | crates/native/src/vault.rs:196-203 | a finishing run removes its own entry and no other, and touches no other run |
| Vault.NoValueCache | crates/native/src/vault.rs:186-222 | a resolve that starts once a run has finished never gets that run |
| Vault.StepChangesCacheOnly | crates/native/src/vault.rs:251-279 | the cache changes only by a list command with exactly one match; failed or ambiguous ones leave it |
| Vault.CachedIdsWereUnique | crates/native/src/vault.rs:251-279 | in every run, cached ids and the ids a run reads with come from a list command that found one item |
| BridgeConsumer.Consumer.ReceiveNext | crates/cli/src/transport.rs:53-57 | in place, the step `Receive`: the message has never been taken before and never is again |
| BridgeConsumer.Consumer.HandleNext | crates/cli/src/transport.rs:58-73 | in place, the step `Handle`: the call had no reply and now has its one |
| BridgeConsumer.Consumer.Drain | crates/cli/src/transport.rs:82-86 | the drain loop is the run of `DrainOne` steps that empties the queue: every queued call is answered "shutting down", in order |
| BridgeRuns.NothingLostOrDuplicated | crates/cli/src/transport.rs:47-87 | in every run, messages sent = dispatched, drained, lost, queued, in this order and without repetition; at most 64 places of the channel are taken |
| BridgeRuns.OutcomeTellsFate | crates/cli/src/transport.rs:105-149 | how a call ended holds iff its message was dispatched, drained, dropped with the receiver, or never sent |
| BridgeRuns.CallSucceedsIff | crates/cli/src/transport.rs:142-148 | a call returns a value iff its message was dispatched and handled to a response without an error; panics and shutdown are errors |
| BridgeRuns.CallReturns | crates/cli/src/transport.rs:58-149 | the error of the response, or its result, or null; and an error of its own for a panic, a shutdown and each way to be closed on |
| BridgeRuns.ReplyWasHandled | crates/cli/src/transport.rs:53-73 | in every run, the reply that a call has is what handling its own message came to |
| BridgeRuns.StopsForAReason | crates/cli/src/transport.rs:52-79 | in every run, the consumer stops only once it was cancelled, or nobody is left to send |
| BridgeRuns.NoCallLeftHanging | crates/cli/src/transport.rs:47-87 | once the consumer has stopped, every open call can finish |
| BridgeRuns.OutcomesNeverChange | crates/cli/src/transport.rs:105-149 | an outcome or a reply, once there, is never replaced |
| BridgeRuns.NobodyWaitsIdly | crates/cli/src/transport.rs:122-140 | in every run, a caller waits to send only while all 64 places are taken |
| BridgeRuns.NoOvertaking | crates/cli/src/transport.rs:122-140 | in every run, nobody that waits is overtaken by one behind it, timer or not |
| BridgeRuns.TimerChangesNothing | crates/cli/src/transport.rs:122-140 | a run in which the second await takes over is, without its timers, one in which the first does the same: the same messages and replies, and everybody in the same place in line |
| AtomicFs.TempNameInjective | crates/native/src/fs.rs:20-24 | temporary names with different counter values differ, whatever the paths |
| AtomicFs.TempNameText | crates/native/src/fs.rs:20-24 | the temporary name is the target's, the process id and the counter |
| AtomicFs.NativeFs.WriteFile | crates/native/src/fs.rs:13-41 | alone: all bytes or no change at the target, nothing else touched, no temporary file after success or cleanup |
| AtomicFsRuns.ReadsAreAtomic | crates/native/src/fs.rs:43-49 | in every interleaving, a read that succeeds answers what the atomic store holds: first content, the whole of one write, or none |
| AtomicFs.NativeFs.DeleteFile | crates/native/src/fs.rs:51-57 | deleting a missing file succeeds |
| AtomicFsRuns.TargetsAreAtomic | crates/native/src/fs.rs:13-57 | in every interleaving a target holds exactly what a store with indivisible writes and deletes would hold, each of them the whole of a write asked for |
| AtomicFsRuns.TargetsFollowSteps | crates/native/src/fs.rs:13-57 | the same, read off the steps: what a target holds is what the finished renames and removals of the run, in order, make of its first content |
| AtomicFsRuns.NoPartialWrite | crates/native/src/fs.rs:13-57 | a target holds its first content, nothing, or the whole of one write to it |
| AtomicFsRuns.TempNamesApart | crates/native/src/fs.rs:20-24 | no two writes of a run share a temporary name |
| AtomicFsRuns.FinishedLeavesNoTemp | crates/native/src/fs.rs:26-41 | a write renamed or cleaned up has left no temporary file |
| VisibleText.Scan | crates/core/src/auth.rs:41-77 | the loop ends, slices only at character boundaries, and counts what the recursive definition counts |
| VisibleText.VisibleTextLen | crates/core/src/auth.rs:41-77 | the same with the four tags of the original |
| VisibleTextFacts.PartsDecide | crates/core/src/auth.rs:41-77 | any division of a page into plain bytes, tags, scripts and styles gives the scan's count of visible bytes |
| VisibleTextFacts.PartsExist | crates/core/src/auth.rs:41-77 | every page has such a division |
| VisibleTextFacts.VisibleLengthIsParts | crates/core/src/auth.rs:41-77 | so the count is well defined by the parts alone |
| VisibleTextFacts.CaseDoesNotMatter | crates/core/src/auth.rs:41-60 | the count does not depend on letter case |
| VisibleTextFacts.HtmlTagsAre | crates/core/src/auth.rs:48-52 | the tags looked for, as text |
| VisibleTextFacts.LowerIs | crates/core/src/auth.rs:42 | lowering changes ASCII capitals only |
| VisibleTextFacts.PlainTextCounts | crates/core/src/auth.rs:68-73 | text without `<` counts in full, whatever follows |
| LoginWall.WallIff | crates/core/src/auth.rs:128-139 | where detection does not panic: a wall iff a password field, or a title that says so with a form, is on another host or with fewer than 500 visible bytes, or another host looks like a sign-on host |
| LoginWall.HtmlMarkersAre | crates/core/src/auth.rs:79-89 | the markers looked for, as text |
| LoginWall.DetectPanicsIff | crates/core/src/auth.rs:85-104 | detection panics iff there is no password field and an unclosed title has a character across its byte 300 |
| LoginWall.OpenTitlePanics | crates/core/src/auth.rs:85-104 | a well-formed page on which it does |
| LoginWall.LongPageIsNoWall | crates/core/src/auth.rs:128-139 | on one host, 500 visible bytes between the parts of a page rule a wall out, whatever the markers |
| LoginWall.ThinPasswordPageIsWall | crates/core/src/auth.rs:128-139 | on one host, a page with a password field is a wall iff its parts have fewer than 500 visible bytes |
| EnsureDaemon.EnsureDaemon | crates/core/src/client.rs:83-108 | ends at the first round that pings, cannot spawn, or finds the deadline passed; its result, one spawn at most, ping timeouts 2000 then 500, sleeps min(50 * 2^k, 500) |
| EnsureDaemon.BackoffDoubles | crates/core/src/client.rs:106 | doubling with a cap is that closed form |
| EnsureDaemon.BackoffIs | crates/core/src/client.rs:14-15 | 50, 100, 200, 400, then 500 ms |
| EnsureDaemon.GivesUpInTime | crates/core/src/client.rs:87-105 | giving up is not before the timeout given, or 30 seconds, late by at most the ping and the spawn in the first round, and by less than one sleep and one ping later |
| EnsureDaemon.PingsBounded | crates/core/src/client.rs:88-107 | the sleeps bound the rounds; with the default timeout at most 64 pings |

## Left out

- Browser traffic, page evaluation, launching, event listeners and attached processes: their
  answers are parameters (`Cdp`, `Reply`, `Probe`, the crash step), arbitrary from call to call.
- Page effects of clicks and typing: only the capture that follows an action is modelled. The
  first navigate of a session is a new session followed by an `Act` on it.
- Snapshot values after redaction are not tied to refs over runs; redaction changes no refs.
- Overflow of the 64-bit counters and clocks: they are unbounded here.
- Registry.SessionRegistry.ReapExpired: does not model closing the removed sessions, which happens after the map is updated.
- The forced yield of the runtime: a lookup and the first poll of the lock are one step.
- Handles of one tab shared between calls are values here, except in the classes of `TabRefs`.
- Panics inside the work of a call, other than the two kinds of `expect` above.
- AxTree.BuildTree: node lists on which the walk never ends (`CaptureEndsIffRows`); the original overflows its stack there. How much stack a finite walk takes is not modelled either.
- Floating point: timings are computed over the reals.
- JSON, URL and host parsing: `Vault` starts from parsed items, `LoginWall` from hosts.
- The texts of the `op` command line and of error messages; audit log lines.
- The registered spawn of a shared resolve: that it is always driven to its end is taken as given.
- BridgeRuns.NothingLostOrDuplicated: a send and the drop of the receiver are single steps; what the channel does inside them is not part of this model.
- AtomicFsRuns.TargetsAreAtomic: paths are compared as strings, so aliases and links are not modelled, nor are writers outside this process; targets are not shaped like temporary names.
- LoginWall: the login words and host markers are parameters.
- EnsureDaemon.EnsureDaemon: a clock that goes back, or that a sleep does not advance, is not modelled; how long a ping may take is a parameter.
- The HTTP server, the tool router, schema types, tokens, embedding and crawling.
