# Verification of the documents service

A Dafny model of the core of the documents service (octo-docs-html) and proofs of what that core is for: the HTML
stamper, the comment event log, the grant protocol, the per-slug lock, publishing with its registration state, the
rate limiter and asset collection. `dafny verify dfyconfig.toml` checks all of it.

How the files are laid out:

- **Comment log** (`internal/core/events.go`, `fold.go`, `reconcile.go`, `ops.go`). `CommentTypes`, `StableSort`,
  `EventLog` and `Fold` say what a log means; `FoldMachine`, `CommentStore`, `Publish` and `React` are the loops and
  the objects that are changed in place, each tied to that meaning; `History`, `ReactHistory`, `Reconcile` and
  `ReconcileFacts` hold what readers of older and newer versions see.
- **Stamper** (`internal/core/stamp.go`). `TagMachine` is the tokenizer of the WHATWG HTML Standard for one open tag;
  `TagSyntax`, `AttrText` and `AttrGrammar` are tags, comments and attribute text; `Scanner`, `ScanFacts` and
  `ScanLoop` are the scan of a document, as a linear search of the stack and as the program's threaded index.
  `ScanLocal`, `ScanEdit`, `ScanTwin`, `ScanReplace` and `ScanRestore` prove what replacing the attribute texts of a
  document does to its scan: two scans of different documents are run side by side. `AttrEdits`, `AttrLists`,
  `AidReading`, `AttrReading`, `StampText`, `StampLists`, `StripLists` and `StripExact` do the same for the text of one
  tag. `Stamper`, `StampFacts`, `StampRegular`, `StripScan` and `StampLoop` put this together for whole documents and
  for the program's loops.
- **Grants** (`internal/service/grants.go`, `doc_member_mirror.go`). `DocMember` and `Grants` are single calls;
  `GrantRuns` interleaves their steps with each other and with docs-backend.
- **Smaller cores.** `SlugLock`, `Registration`, `RateLimiter` and `Gc`. `Wrappers` and `AsciiText` serve all.

"Regular" attribute text is that of section 13.1.2.3 of the WHATWG HTML Standard: every attribute has white space or
slashes in front of it, beginning with white space behind an unquoted value, and no value at the end is unfinished
(`AttrGrammar.Regular`). A document is regular when all its open tags are (`StampRegular.IsRegularDocument`) and, where
aids are already present, removing them brings no slash directly behind an unquoted value (`StripLists.Safe`).

## What is false, and what is true instead

- Stamping and stripping undo each other only when no stamped tag ends in an unfinished value. `StripUndoesStamp` and
  `StripUndoesStampAll` give the exact condition over arbitrary text, `DanglingEquals` an input that fails.
- Stripping can make a slash part of an unquoted value, which costs the self-close marker (`GluedSlash`) and can change
  the scan (`StripChangesScan`). Regular text is read as the same other attributes if and only if it is `Safe`
  (`StripReadsTheSame`), the marker is kept as well if and only if, besides, no slash that was part of an aid's
  separators comes to light at the end (`StripKeepsAll`), and a tag cleaned by `stripAllAIDs`, which guards against the
  latter, says the same if and only if it is `Safe` (`CleanSaysTheSame`). The last attribute alone does not decide
  (`SwallowedMarker`).
- A reaction that is added, removed and added again at one version stays removed, and adding it again at a later
  version takes it away from readers of the first (`ReAddHasNoEffect`, `ReAddRewritesHistory`). `ToggleWorks` says
  exactly when a toggle shows at its own version; a reader of an older version sees nothing of it unless that reader
  sees an event with the toggle's id (`ToggleKeepsHistory`), and `ToggleAndHistory` says exactly what changes then.
  A toggle on a reply shows whenever the reply does (`ReplyToggleWorks`).
- Two different reactions can have one id (`SharedIdExample`); `SharedIds` says exactly which, none without a colon in
  an emoji.
- One reconcile pass is not idempotent (`OnePassIsNotIdempotent`). `SecondPassIdle` says exactly when it is, by what the
  artifacts tell before the pass, and `ThirdPassIsIdle` that two always are enough.
- A removal on an unregistered document leaves an old `doc_member` row (`RemoveLeaves`, an if-and-only-if), which is
  worth its role again after a new registration (`RevokedRowReturns`).
- The epoch can rise without a changed row: an upsert always raises it, and changes no row if and only if it meets an
  admin's or its own row (`UpsertGrants`, `UpsertOverAdmin`). A call that runs alone never does that (`AddTouches`,
  `RemoveTouches`); among others it does exactly when it writes for a user whom docs-backend has made an admin since the
  probe (`EpochIsExact`, `OvertakenGrant`).
- With explicit version numbers a late result can confirm a later publish (`ExplicitVersionConfusesResults`); a result
  confirms exactly when its publish's number is pending and was committed last (`ResultConfirms`).
- The case for a canonical aid at `internal/core/stamp.go:564-571` is meant to spare formatting; it never differs from
  the other case, as `StripAIDAttribute` shows by meeting a specification without it.

## Model

| member | source | states |
|---|---|---|
| TagMachine.Direct | internal/core/stamp.go:222-323 | Following every "reconsume" of sections 13.2.5.8 and 13.2.5.32 to 13.2.5.40 of the standard comes to one direct transition for each state and character |
| TagMachine.AttrAwareOpenTagEnd | internal/core/stamp.go:222-323 | The loop that steps back to reconsume terminates and ends the tag exactly where the standard's tokenizer emits it, -1 when it never does |
| TagMachine.ReadLocal | internal/core/stamp.go:222-323 | Where a tag ends depends on the text up to there only |
| AttrGrammar.RegularSelfCloses | internal/core/stamp.go:327-399 | On regular text the self-close test succeeds exactly when the separators end in a slash |
| AttrGrammar.RegularEnds | internal/core/stamp.go:327-399 | On regular text it succeeds exactly when the standard's tokenizer reaches `>` from the self-closing state |
| AttrText.TerminalSelfCloseSlash | internal/core/stamp.go:327-399 | The program's loop finds the marker at the last position or none, for arbitrary text |
| AttrText.StampedOpenTag | internal/core/stamp.go:405-417 | The tag with the aid in front of a real self-close marker and behind everything else |
| AttrText.StripAIDAttribute | internal/core/stamp.go:501-578 | The cursor loop removes exactly the aid attributes with the white space in front of each, as read by a single left-to-right specification |
| AttrLists.StripRegular | internal/core/stamp.go:501-578 | On regular text stripping filters the attribute list: the aids go, everything else stays byte for byte |
| AttrLists.LookupRegular | internal/core/stamp.go:861-905 | On regular text attrValue is the first attribute of that name |
| AidReading.StripFixed | internal/core/stamp.go:501-578 | Stripping leaves a text alone exactly when it reads no aid in it |
| StampText.StripUndoesStamp | internal/core/stamp.go:401-417 | For any attribute text without an aid: stripping undoes stamping if and only if the aid is not put into an unfinished value |
| StampText.DanglingEquals | internal/core/stamp.go:401-417 | A text ending in `=` keeps the aid as its value |
| StampText.StampCloses | internal/core/stamp.go:405-417 | Stamping never lets a tag run past its `>` |
| StampText.StampSelfCloses | internal/core/stamp.go:405-417 | For any text, the stamped tag is self-closing exactly when it was and the marker was honoured |
| StampLists.StampRegular | internal/core/stamp.go:405-417 | On regular text stamping appends one attribute, and the text stays regular |
| StampLists.RegularNeverDangles | internal/core/stamp.go:405-417 | Regular text never takes the aid into an unfinished value, so the round trip's condition holds |
| StampLists.StampLookup | internal/core/stamp.go:861-905 | A stamped tag reads its aid; every other attribute reads as before |
| StripLists.StripKeeps | internal/core/stamp.go:501-578 | Stripped regular text that is safe is regular, looks up every other attribute as before, and ends in a slash as before when separators stood at its end |
| StripLists.GluedSlash | internal/core/stamp.go:501-578 | An aid between an unquoted value and the slash: stripping it takes the self-close marker away |
| AttrReading.ForEachAttr | internal/core/stamp.go:641-686 | The loop reports the attributes of any text in order, by the same reading of names and values as lookup and stripping |
| StripExact.StripReadsTheSame | internal/core/stamp.go:501-578 | Stripped regular text is read as the same list of other attributes if and only if no slash comes to stand behind an unquoted value |
| StripExact.StripKeepsAll | internal/core/stamp.go:501-578 | It keeps these attributes and the self-close marker if and only if, besides, no slash of an aid's separators comes to light where none stood at the end |
| StripExact.StripKeepsMarker | internal/core/stamp.go:501-578 | With slashes glued to the last kept value at most, the marker is kept if and only if the separators left at the end still say the same, white space in them counting behind an unquoted value |
| StripExact.SwallowedMarker | internal/core/stamp.go:501-578 | A text whose last kept attribute has no value and which loses the marker all the same, to a value further in front |
| TagSyntax.CommentEnd | internal/core/stamp.go:1338-1366 | Two searches and a choice find the end of a comment that a single scan finds |
| TagSyntax.EndTagBoundary | internal/core/stamp.go:1013-1034 | The end of an end tag for a given name, at the end of the text when it lacks its `>` |
| TagSyntax.EndTagName | internal/core/stamp.go:1036-1056 | The lowercase name of an end tag, or none |
| TagSyntax.RawTextCloseBoundary | internal/core/stamp.go:926-955 | The first end tag of a raw-text element: none before it, and the place where it ends |
| TagSyntax.ProbeOpenTagName | internal/core/stamp.go:146-159 | Where an open tag's name ends, if one starts here |
| ScanFacts.ElementsAreLaminar | internal/core/stamp.go:1435-1587 | On every input the elements lie inside the document with start < openEnd <= closeStart <= closeEnd, each tag starts at or behind the previous tag's end, and any two elements are nested or disjoint |
| ScanLoop.ScanOpenTags | internal/core/stamp.go:1435-1587 | The scan with the threaded per-tag index terminates, finds what the linear search from the top of the stack finds, and makes at most two stack operations a tag |
| ScanLoop.TagStack.Find | internal/core/stamp.go:1436-1451 | The index answers with the highest stack position of a tag, or none |
| ScanLoop.TagStack.Push | internal/core/stamp.go:1436-1451 | Pushing keeps the index: top per tag and next lower position of each |
| ScanLoop.TagStack.Pop | internal/core/stamp.go:1436-1451 | Popping keeps it as well |
| ScanLoop.Close | internal/core/stamp.go:1500-1509 | Ending an element pops and records exactly what the linear search would |
| ScanReplace.ReplacedScan | internal/core/stamp.go:1435-1587 | Replacing attribute texts by texts that agree in what the scanner looks at leaves the scan alone: same tags, names and namespaces, every position shifted by the growth in front of it |
| ScanRestore.Restores | internal/core/stamp.go:588-615 | Putting the old attribute texts back at the shifted places restores the document byte for byte |
| ScanRestore.NotRestored | internal/core/stamp.go:588-615 | It does not when one tag keeps a longer text than it had |
| StampFacts.StampedScan | internal/core/stamp.go:1703-1833 | The scan of a stamped document finds the tags of the unstamped one, shifted by the aids |
| StampFacts.StripUndoesStampAll | internal/core/stamp.go:1703-1833 | When harvested font and annotation-xml tags are regular, stripping a stamped document gives the document that was stamped if and only if no stamped tag's text ends in an unfinished value |
| StripScan.CleanSaysTheSame | internal/core/stamp.go:588-615 | A tag with regular text, cleaned as stripAllAIDs does, is read as the same other attributes and, where the scanner asks, closes itself as before, if and only if no slash comes to stand behind an unquoted value |
| StripScan.StripChangesScan | internal/core/stamp.go:588-615 | A document of three tags, for any unquoted value: stripped, its second tag no longer closes itself and its third is parsed as HTML |
| StampRegular.StripKeepsTags | internal/core/stamp.go:588-615 | Stripping a regular document keeps number, order, names and namespaces of its tags, and leaves regular tags without aids |
| StampRegular.StripAllFixed | internal/core/stamp.go:588-615 | Any document is left alone by stripping exactly when none of its tags carries an aid |
| StampRegular.RoundTrip | internal/core/stamp.go:1703-1833 | For regular documents stripping the stamped form gives the stripped form, with or without a pin |
| StampRegular.StampAgain | internal/core/stamp.go:1703-1833 | Stamping what was stamped gives what stamping gave in the first place |
| StampRegular.StampIdempotent | internal/core/stamp.go:1680-1682 | Stamping is idempotent in its document and in its artifact index |
| StampRegular.SaltAvoidsPin | internal/core/stamp.go:210-217 | The salted hash differs from the pinned aid, for any hash function |
| StampRegular.SaltIsFirst | internal/core/stamp.go:210-217 | It is the first salt that differs, and the fallback only when none does |
| StampRegular.PinIsUnique | internal/core/stamp.go:1703-1801 | For any hash function a tag gets the pinned aid if and only if it is the pinned tag |
| StampRegular.PinFollowsTag | internal/core/stamp.go:1703-1801 | A pin offset that names a tag of the input names the same tag after stripping moved it |
| StampRegular.OnePinnedArtifact | internal/core/stamp.go:1696-1698 | Exactly one artifact carries the pinned aid, the pinned tag's |
| StampRegular.StampedTagsCarryAids | internal/core/stamp.go:1703-1833 | In the stamped document the stamped tags read their aids and no other tag reads one |
| StampLoop.StripAllAIDs | internal/core/stamp.go:588-615 | The cursor loop over the scanned tags builds the stripped document |
| StampLoop.SaltAwayFromPinned | internal/core/stamp.go:201-208 | The loop over salts computes the salted hash of the specification |
| StampLoop.SaltAwayFromPinnedWithHasher | internal/core/stamp.go:210-217 | The same for any hash and any number of attempts |
| StampLoop.HarvestAll | internal/core/stamp.go:1089-1159 | Three passes with a set of seen starts and a sort yield each chosen tag once, in document order |
| StampLoop.SortIsChosen | internal/core/stamp.go:1703-1833 | The order of the passes does not matter once sorted |
| StampLoop.StampAids | internal/core/stamp.go:1703-1833 | The program's loops produce the stamped document and index the theorems speak of |
| EventLog.LastById | internal/core/events.go:59-80 | The first pass records the last event of every id and nothing else |
| EventLog.DedupEvents | internal/core/events.go:59-80 | The two passes keep the last value of an id at its first position, and every event without an id |
| EventLog.DedupIsFirstsLatest | internal/core/events.go:59-80 | That equals replacing in place as events arrive |
| EventLog.DedupDistinct | internal/core/events.go:59-80 | A log without repeated ids is left as it is |
| EventLog.DedupAppendFresh | internal/core/events.go:49-54 | An event with a new id is appended to the converged log |
| EventLog.CompactionTransparent | internal/core/events.go:126-141 | Compacting early never changes what later appends converge to |
| StableSort.SortStable | internal/core/fold.go:197-203 | The version sort keeps the order within a version |
| StableSort.SortedUnique | internal/core/fold.go:197-203 | There is only one sorted sequence with given version classes |
| FoldMachine.FoldState.ApplyCommentEvent | internal/core/fold.go:182-193 | One event applied in place is one step of the fold, with every other field unchanged |
| FoldMachine.React | internal/core/fold.go:36-54 | Adding or removing a reaction in the map, dropping an emoji nobody uses any more |
| FoldMachine.ReplayInto | internal/core/fold.go:222-235 | The replay loop applies exactly the events the version can see, in order |
| FoldMachine.ReadSnapshot | internal/core/fold.go:255-268 | Missing ids are filled in, then the log is converged, sorted and replayed; a comment without events or younger than the version reads as none |
| CommentStore.Comment.AppendEvent | internal/core/events.go:49-54 | The log grows by the stamped event and by nothing else |
| CommentStore.Comment.BackfillEIDs | internal/core/events.go:37-46 | Ids are filled in where they lack, and the result says whether any did |
| CommentStore.Comment.Compact | internal/core/events.go:126-141 | The log is replaced by its dedup exactly when that is shorter |
| History.AppendAnchorEvent | internal/core/fold.go:197-268 | An anchor event appended at version n changes no snapshot below n, nothing but the anchor in the others, and at n shows exactly the new anchor |
| History.FinalizeFrame | internal/core/fold.go:237-251 | Finishing two folds that differ in the anchor gives snapshots that differ in the anchor |
| History.DedupPerVersion | internal/core/events.go:59-80 | Dedup commutes with selecting one version, when no id occurs at two versions |
| History.OrderIndependent | internal/core/fold.go:197-203 | Logs with the same per-version subsequences replay the same events in the same order |
| History.FoldIgnoresWriteOrder | internal/core/fold.go:197-268 | So they show every reader the same snapshot |
| History.CompactionKeepsSnapshots | internal/core/events.go:126-141 | Compaction shows every reader what the full log shows |
| ReconcileFacts.AnchorIsSound | internal/core/reconcile.go:69-98 | Reconciling leaves an element or lost anchor lost or naming an artifact of this version |
| ReconcileFacts.AnchorFits | internal/core/reconcile.go:69-98 | With distinct aids and lowercase tags that artifact is unique and has the fingerprint's tag |
| ReconcileFacts.PassSettles | internal/core/reconcile.go:69-98 | One pass settles an anchor or newly marks it lost |
| ReconcileFacts.SecondPassIdle | internal/core/reconcile.go:69-98 | A second pass changes an anchor if and only if the artifact it names does not fit, or its legacy aid names none or several that do, although a target to bind it to exists |
| ReconcileFacts.OnePassIsNotIdempotent | internal/core/reconcile.go:30-98 | Such an anchor exists |
| ReconcileFacts.ReconciledShows | internal/core/reconcile.go:174-235 | A reader at the version sees exactly the anchor the pass chose |
| ReconcileFacts.ReconcileIsSound | internal/core/reconcile.go:174-235 | Through the log and the fold: an element or lost anchor at N reads, after reconciling at N, as lost or as an element of N, unique and fitting when aids and tags are regular |
| ReconcileFacts.ThirdPassIsIdle | internal/core/reconcile.go:174-235 | Any number of passes over the same artifacts adds at most two events, and from the third on none |
| ReconcileFacts.PublishKeepsHistory | internal/core/reconcile.go:174-235 | Reconciling and compacting one comment at N keeps every snapshot below N, and all but the anchor of the others |
| Publish.MergedKeeps | internal/core/ops.go:228-256 | Merging keeps the stored comments as the first ones |
| Publish.MergedIds | internal/core/ops.go:228-256 | No merged local comment repeats an id, and every local one with an id is there |
| Publish.PublishMergeKeepsHistory | internal/core/ops.go:228-256 | Merge, backfill, reconcile and compaction together keep, for every stored comment, all snapshots below the published version and all but the anchor of the others |
| Publish.FindRebindAid | internal/core/reconcile.go:30-65 | The loop that collects matches finds the one artifact that fits tag and heading, or the only one that fits the tag when none fits both; otherwise none |
| Publish.IndexArtifacts | internal/core/reconcile.go:243-261 | The two maps hold, per aid and per legacy aid, the artifacts in order |
| Publish.ChooseAnchor | internal/core/reconcile.go:174-235 | Looking up the maps chooses what searching the artifacts chooses: migration, pin, alias, then re-binding |
| Publish.ReconcileComment | internal/core/reconcile.go:174-235 | The comment's log gets its missing ids and the one event of the pass, or none |
| Publish.ReconcileAnchors | internal/core/reconcile.go:243-261 | Every comment is reconciled, each with its own nonce |
| Publish.EnsureMigrated | internal/core/events.go:114-122 | Every log gets its missing ids |
| Publish.MergeLocals | internal/core/ops.go:228-256 | The list grows by new objects for the local comments with new ids |
| Publish.PublishMerge | internal/core/ops.go:228-256 | The whole operation on the mutable list is the published merge of its values; nothing else changes |
| React.OpReact | internal/core/ops.go:165-195 | The method appends the toggle a reader at the version means, or nothing, and returns the reactions afterwards |
| React.SnapshotHas | internal/core/fold.go:36-54 | A user reacts at a version exactly when the last word of the events up to it says so |
| React.AppendedWord | internal/core/events.go:23-34 | What an appended event with an id that may be taken comes to, after dedup moved it |
| React.ToggleWorks | internal/core/ops.go:165-195 | A parent toggle shows if and only if no opposite event of the same version stands behind the place its fixed id gives it, and emoji and user are not empty |
| React.ReplyToggleWorks | internal/core/ops.go:165-195 | A toggle on a reply, whose id is new, shows if and only if the reply is there to be seen and emoji and user are not empty |
| React.VerdictSticks | internal/core/fold.go:237-251 | The agent's verdict emoji is always shown as the agent's reaction |
| ReactHistory.ToggleKeepsHistory | internal/core/ops.go:165-195 | A parent toggle leaves the snapshot of every earlier version alone, unless a reader there sees an event with the toggle's id |
| ReactHistory.ToggleAndHistory | internal/core/ops.go:165-195 | For any reaction and any earlier version: the reader there sees it as before if and only if the events but for the one with the toggle's id have the same last word on it |
| ReactHistory.ReAddHasNoEffect | internal/core/events.go:23-34 | For any emoji, user and versions: of three toggles on a new comment, the second and third at one version, the third leaves the reaction away |
| ReactHistory.ReAddRewritesHistory | internal/core/events.go:23-34 | Of three toggles on a new comment the third takes the reaction away from every reader between the first and the second |
| React.SharedIds | internal/core/events.go:23-34 | Two reaction events have one id if and only if they are of one kind and emoji, colon and user read the same; with emojis free of colons, when emoji and user are the same |
| React.SharedIdExample | internal/core/events.go:23-34 | Two different reactions with one id |
| SlugLock.MutualExclusion | internal/platform/sluglock/sluglock.go:66-75 | In every state of every interleaving at most one thread runs under a key, though entries are deleted and made anew |
| SlugLock.OneEntryPerKey | internal/platform/sluglock/sluglock.go:41-62 | All threads inside With under a key share the map's one entry, and its waiters are their number |
| SlugLock.KeysInFlight | internal/platform/sluglock/sluglock.go:41-62 | The map's keys are exactly the keys in flight |
| SlugLock.NoDeadlock | internal/platform/sluglock/sluglock.go:66-75 | While a thread is inside With, some thread under its key can take a step |
| SlugLock.AcquireCounts | internal/platform/sluglock/sluglock.go:41-51 | The step that runs acquire does to the counts what the method does |
| SlugLock.ReleaseCounts | internal/platform/sluglock/sluglock.go:55-62 | The step that runs release does to the counts what the method does |
| SlugLock.Memory.Acquire | internal/platform/sluglock/sluglock.go:41-51 | The key's count goes up by one at the entry already there or a fresh one; no other key changes |
| SlugLock.Memory.Release | internal/platform/sluglock/sluglock.go:55-62 | The count goes down by one, and the key is dropped exactly with the last waiter |
| DocMember.UpsertGrants | internal/service/doc_member_mirror.go:104-142 | An upsert touches one row, never an admin one, and always raises the epoch once; no row changes if and only if it meets an admin row or its own |
| DocMember.InsertGrants | internal/service/doc_member_mirror.go:154-182 | An insert writes, and raises the epoch, exactly when there was no row |
| DocMember.DeleteGrants | internal/service/doc_member_mirror.go:198-248 | A refused or needless delete changes nothing, any other removes the row and raises the epoch |
| DocMember.UpsertOverAdmin | internal/service/doc_member_mirror.go:104-142 | Over an admin row the upsert only raises the epoch |
| DocMember.Mirror.UpsertDirectGrant | internal/service/doc_member_mirror.go:104-142 | The transaction on rows and epoch, rolled back when the database fails |
| DocMember.Mirror.InsertDirectGrantIfAbsent | internal/service/doc_member_mirror.go:154-182 | The same for the insert, with whether it wrote |
| DocMember.Mirror.DeleteGrant | internal/service/doc_member_mirror.go:198-248 | The same for the delete, with the admin guard |
| Grants.LabelsRoundTrip | internal/service/grants.go:118-148 | Role labels and codes translate back and forth, and nothing else is a label |
| Grants.AddGives | internal/service/grants.go:170-182 | After a successful AddGrant the member may do what the role allows, in either store |
| Grants.RemoveLeaves | internal/service/grants.go:303-338 | After a successful RemoveGrant the member may do nothing, and neither store names the user if and only if the document is registered or had no row |
| Grants.RevokedRowReturns | internal/service/grants.go:340-375 | The row left on an unregistered document counts again once it is registered |
| Grants.AbsentMayNothing | internal/transport/httpx/capability.go:190-232 | A user in neither store gets nothing from the member tier, registered or not |
| Grants.AddTouches | internal/service/grants.go:204-263 | AddGrant on its own touches at most the user's row, never an admin row, and raises the epoch if and only if the row changes |
| Grants.RemoveTouches | internal/service/grants.go:340-375 | So does RemoveGrant |
| Grants.ReconcileConserves | internal/service/grants.go:488-553 | Every valid non-admin, non-creator entry has a row afterwards, or is still in meta because its insert failed |
| Grants.ReconcileKeepsRows | internal/service/grants.go:488-553 | No existing row changes, no new row is admin or made from an unknown, malformed or creator's entry, and the epoch moves exactly when a row is added |
| Grants.ReconcileSettles | internal/service/grants.go:488-595 | After an error-free reconciliation the next changes nothing |
| Grants.AuthService.AddGrantToDocMember | internal/service/grants.go:204-263 | The locked part on rows and meta, with the outcome |
| Grants.AuthService.AddGrant | internal/service/grants.go:170-182 | The call on both stores, with the outcome for a bad role, a missing document and a failing store |
| Grants.AuthService.SweepMeta | internal/service/grants.go:392-423 | The entry goes from meta, unless the write fails |
| Grants.AuthService.RemoveGrant | internal/service/grants.go:303-338 | The call on both stores, with the outcome |
| Grants.AuthService.Reconcile | internal/service/grants.go:488-595 | The loop over the entries in any order computes the reconciled stores |
| GrantRuns.CallTouches | internal/service/grants.go:204-375 | Under interleavings: a step of a call touches at most one row, no admin row, and raises the epoch once when the row changes |
| GrantRuns.EpochIsExact | internal/service/grants.go:204-263 | In every run: a call's step raises the epoch if and only if it changes a row or writes for a user who has become an admin, and never both |
| GrantRuns.OvertakenGrant | internal/service/doc_member_mirror.go:104-142 | In every run: a grant's write raises the epoch, and changes no row if and only if docs-backend made the user an admin between the grant's probe and its write |
| GrantRuns.AdminRowsStay | internal/service/grants.go:204-375 | Through any run an admin row stays as it is unless docs-backend writes that row |
| GrantRuns.RevocationIsFinal | internal/service/grants.go:303-338 | A removal that found the document registered and ended well leaves the user in neither store and without capability in every later state, as long as nothing is written for the user: grants that have only read, reconciliations, other grants, registrations and unregistrations do no harm |
| GrantRuns.GrantLands | internal/service/grants.go:204-263 | A grant's last step on a registered document leaves its row, or an admin's, and no entry in meta |
| GrantRuns.ReconcileStepConserves | internal/service/grants.go:488-595 | Under interleavings no step of a reconciliation loses a valid entry, changes a row or promotes anybody |
| GrantRuns.AddAlone | internal/service/grants.go:170-263 | The steps of an undisturbed grant come to the sequential call |
| GrantRuns.RemoveAlone | internal/service/grants.go:303-375 | The steps of an undisturbed removal come to the sequential call |
| Registration.AutoVersionIsNew | internal/service/doc.go:1321-1336 | Without an explicit number the version is above every stored one, so nothing is overwritten |
| Registration.ResolveVersion | internal/service/doc.go:1321-1336 | The loop finds the maximum and adds one |
| Registration.SortVersions | internal/service/doc.go:1410-1416 | The insertion sort in place sorts the array, stably |
| Registration.VersionsAscend | internal/service/doc.go:1344-1408 | The version list stays ascending without repetitions, and gains exactly the published version |
| Registration.DocStore.UpsertMeta | internal/service/doc.go:1344-1408 | The metadata written by a publish; a user's publish becomes pending at its version |
| Registration.DocStore.PublishLocked | internal/service/doc.go:301-358 | Blob, metadata and comments in order, with what each failure leaves behind |
| Registration.DocStore.SaveDraftLocked | internal/service/doc.go:900-936 | A draft makes the metadata of a new document, local-only when it is a user's |
| Registration.DocStore.SetRegistered | internal/service/doc.go:1074-1104 | A result changes the state if and only if its own version is pending |
| Registration.DocStore.RemoveAuthorized | internal/service/doc.go:1022-1072 | A user's document goes only while it is local-only and has no docs-backend id |
| Registration.CommittedIsNeverRemoved | internal/service/doc.go:1022-1043 | In every run: once a user publish has committed, a local delete is refused for ever |
| Registration.RegisteredIsNewest | internal/service/doc.go:1074-1104 | In every run: registered at n means n is the version committed last by a user, and the greatest when numbers are automatic |
| Registration.ResultConfirms | internal/service/doc.go:1074-1104 | In every run, whatever the numbers: the result of a publish changes the state if and only if a version is pending and the publish's number is the one committed last |
| Registration.StaleResultIsIgnored | internal/service/doc.go:1074-1104 | In every run with automatic numbers the result of a publish confirms if and only if the publish is the last one and its version is pending |
| Registration.ExplicitVersionConfusesResults | internal/service/doc.go:1321-1336 | A run with explicit numbers in which the result of the first publish confirms the third |
| RateLimiter.Limiter.Allow | internal/transport/httpx/middleware.go:38-60 | One request on the window map, with eviction in any order when it is crowded, the decision and the seconds to wait |
| RateLimiter.ForgettingIsUnseen | internal/transport/httpx/middleware.go:38-60 | For nondecreasing clocks the limiter decides every request as one that never evicts |
| RateLimiter.AtMostTwice | internal/transport/httpx/middleware.go:38-60 | In any interval no longer than a window at most 2*max requests of a key get through |
| Gc.FindRuns | internal/service/gc.go:10-23 | The pattern's matches are exactly the maximal hex runs of at least 64 characters |
| Gc.References.ScanInto | internal/service/gc.go:214-233 | The set grows by exactly the addresses read in the page's runs: all windows of a run of at most 4096, every 64th and the last of a longer one |
| Gc.ShortRunsAreRead | internal/service/gc.go:214-233 | Every 64-character window of every maximal run of at most 4096 is in the set |
| Gc.FoundAreAddresses | internal/service/gc.go:214-233 | Nothing but 64 hex digits of the page is ever added |
| Gc.AllReferenced | internal/service/gc.go:152-178 | The snapshot is the union over all documents and all slugs that hold assets |
| Gc.Collector.GcSlug | internal/service/gc.go:103-145 | The loop under the lock with its report, early end on a failed deletion included |
| Gc.Collector.GcAssets | internal/service/gc.go:74-97 | The pass over all slugs with its report, ended by the first failure |
| Gc.OnlyOrphansGo | internal/service/gc.go:74-145 | Whatever a pass removes or reports was unreferenced in the snapshot and in its slug's pages under the lock, and known to be past grace; a dry run removes nothing |
| Gc.ReferencedIsKept | internal/service/gc.go:74-145 | An asset named inside a run of at most 4096 by any scanned page, or by its own slug's pages whenever it is visited, is never removed |
| Gc.OrphansAreTaken | internal/service/gc.go:103-145 | A pass that ends well leaves no orphan it visited |
| Gc.ReportAddsUp | internal/service/gc.go:74-145 | Assets = Kept + Deleted on success, and exactly one more when a deletion failed; every slug is scanned when the pass ends well |

## Left out

- StampRegular.StripKeepsTags: takes every tag to be safe; `CleanSaysTheSame` says that this is exact for each tag, but
  a tag that is not may still leave the scan of the whole document alone, and when it does is not stated.
- StampFacts.StripUndoesStampAll: takes harvested font and annotation-xml tags, whose attributes the scanner itself
  reads, to have regular attribute text.
- StripExact.StripKeepsMarker: asks that slashes are glued to the last kept value at most; glued further in front they
  run what follows into that value, and only reading the text again tells what becomes of it.
- StampRegular.RoundTrip: takes the hashes and the pin to be words of letters and digits, as aids are; the hash itself
  (`Cyrb53`, base 36) is a parameter.
- StampLoop.SaltAwayFromPinnedWithHasher: counts attempts without the wrap of a 32-bit counter, which would need 2^32
  colliding hashes in a row.
- React.ToggleWorks: speaks of users other than the agent, whose verdict is laid over the reactions (`VerdictSticks`),
  and of finite versions.
- ReconcileFacts.ReconcileIsSound: takes artifacts to have aids, as the stamper's have; a nameless one could be bound.
- Publish.PublishMergeKeepsHistory: takes the ids that reconciliation mints to be unused in the log; the program's
  counter and clock are a parameter that yields them.
- Grants.AuthService.Reconcile: the pre-lock reads are separate steps in `GrantRuns` only, where each critical section
  under the lock is one step per store access.
- Registration.DocStore.RemoveAuthorized: the caller is taken to be authorized, and all stores are emptied or none;
  partial failures between them are not modelled.
- Gc.OnlyOrphansGo: another document that begins to name an asset after the snapshot is not seen again, as the source
  says; the theorem speaks of the pages that were looked at.
- Case folding and white space are ASCII, bytes are characters, and positions are counted in them; the conversion from
  UTF-16 offsets (`utf16Slice`) is not part of this model.
- `html.UnescapeString` for the encoding of `annotation-xml` and the test for opt-in markers are parameters.
- Headings, text excerpts and labels of artifacts are opaque fields; `collectHeadings` is not modelled.
- Replacing one element (`ElementByAID`, `ReplaceElementByAIDAt`, `InjectRootAIDAt`) and the safety checks of
  replacement fragments are not modelled.
- Comments in the legacy JSON form (`legacyToEvents`) are not modelled: logs start as events, possibly without ids.
- A negative version folds like the newest one, as in the source; nothing else is said of it.
- Finding the comment or reply an operation names (`FindHost`, `findByID`) and the dispatch of `ApplyCommentOp` are not
  modelled: operations start from the comment found.
- Creating, replying, deleting and raw events (`opCreate`, `opReply`, `opDelete`, `opRawEvents`) only append an event;
  what an appended event does is stated for anchors and reactions.
- `doc_binding`, tokens and sessions, and every tier of `bestCred` but the member's are not modelled.
- Legacy mirroring of grants (`mirrorGrantUpsert`, `mirrorGrantDelete`) and the lists of members are not modelled.
- Titles, mount context, creators and the other fields of a document's metadata are not modelled.
- The reconciliation that runs after a registration result, its retries and its network calls are inputs.
- Timestamps of assets come already parsed or marked as not parseable; deletions fail where the model's input says so.
- The rate limiter's key is a string; how it is made from token and address is not modelled.
