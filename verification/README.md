# OxiMux in Dafny

OxiMux is a desktop host for coding agents with a command-line client. This project models the parts of it
that compute something hard to see at a glance, and proves what they are for. Each module follows one source
file. A loop or an updated field of the source is a method or a class here, proved equal to a function on
values; the theorems are about that function.

- `JsonText`, `SpanScanner`, `OutputSchema`, `CorrectionLoop`: getting a JSON answer out of an agent's prose and
  re-prompting a bounded number of times. A scanner that counts one kind of bracket finds exactly the text of any
  object or array in the grammar of RFC 8259 (sections 2 to 7), and in general the shortest balanced span.
- `EditDistance`: the row-rolling table equals the length of a shortest chain of one-character edits, a metric,
  and decides which did-you-mean suggestions stay.
- `Panes`, `RestoreGate`: expanding panes with several terminals into splits, without losing a terminal or an
  original split, behind the gate that rejects a layout whose panes and leaves do not match.
- `SaveCache`: when a save may be skipped, for saves in sequence and for saves that overlap.
- `ChatCredentials`, `RemoteControl`, `HostLock`, `SessionIds`: the credentials of chat agents against the
  listener's table, one host per data directory, and placeholder ids that do not repeat.
- `SessionSearch`: the indexer threads and the Clear job in every interleaving, threads that fail to spawn included.
- `LineRenderer`: one line per tool call in the live stream, never two and never none.
- `Bytes`, `Icns`, `BmpFrame`: reading an icns file and writing a bitmap frame.
- `Client`, `LegacyData`, `Target`: the request/reply channel, the adoption of an older data directory, and
  id prefixes.

## What is assumed

- The JSON parser, the schema validator and the digest are function parameters. Extraction needs only that
  the parser maps the serialization in hand to its value; the save theorems name where two texts must not collide.
- Random labels are fresh (`IsFresh`), a lock has one holder, a process that dies loses its lock and listener,
  and a failed write, rename or removal changes nothing.
- An indexer thread that was spawned does not end before the `previous` it was handed.
- The keys that `set_deduped` caches are written by nothing else.

## Where the code does less than its documentation says

- `rekey_session` onto an id that already holds a credential leaves that credential's row or file behind.
  `RekeyAgreesIff` gives the exact condition, `RivalsDisplace` a run of ordinary steps that comes to it.
- `stop_local` drops the listener before the lock, but dropping only aborts the accept task, so a release that does
  not wait for it (`StopReleasesEarly`) lets two processes briefly both serve. `OverlapIffReleasedEarly`: exactly
  then; `NoOverlapWhenReleasesWait`: never if every release waits.
- An indexer start whose thread cannot be spawned does not join the retired indexer. `BreaksIffLostStart`: a later
  Clear can then delete the files under an open index exactly if there is a retired indexer that still runs;
  `OneIndexerAtATime` is about all other runs.
- Placeholder ids of runs whose stamps differ in length can collide, exactly if the longer stamp is the shorter one
  followed by digits that do not start with zero (`UnequalStampsCollideIff`); stamps from 2001 to 2286 do not differ
  in length.

## What callers have to keep

- The skipped write of `set_deduped`, called always correct in its comment, relies on saves of one key with different
  bytes not overlapping: the lock is released between the lookup and the recording. `MisleadsIffConflicts` says
  exactly which save may not begin. Today all saves are made by `save_now`
  (`apps/desktop/src/shell/project_panes/ops.rs:855`) on the UI thread, one after the other, and `TurnsKeepSkipsHonest`
  applies; the condition is on a caller that would save from another thread.
- `promote_per_pane_tabs` conserves terminals exactly when the tree has one leaf per pane
  (`PromotionConservesTerminals`). The gate sees to that: `AcceptedTabsConserve`.

## Model

| member | source | states |
|---|---|---|
| SpanScanner.ScanBalancedSpan | apps/cli/src/output_schema.rs:136-168 | the loop returns the span of `BalancedSpan`, its unsigned depth never underflows |
| SpanScanner.ScanToClose | apps/cli/src/output_schema.rs:141-167 | from the first bracket, string- and escape-aware counting stops at the first return to depth zero |
| SpanScanner.FirstOpener | apps/cli/src/output_schema.rs:138 | the first brace or bracket, none before it |
| SpanScanner.SpanIsShortest | apps/cli/src/output_schema.rs:133-168 | on any text: a span is returned iff one exists, and it is the shortest from the first bracket whose outside-string depth is zero |
| SpanScanner.ClosedRunIsFound | apps/cli/src/output_schema.rs:133-168 | in any text, JSON or not, with strings read as wholes, the run of tokens in which the brackets of the first kind balance is what is returned |
| SpanScanner.OpenRunIsNotFound | apps/cli/src/output_schema.rs:141-168 | nothing is returned if the text ends before they balance, inside a string or not |
| SpanScanner.EveryTextIsTokens | apps/cli/src/output_schema.rs:144-166 | every text is such tokens, so the two laws leave none out |
| SpanScanner.ValueIsNeutral | apps/cli/src/output_schema.rs:144-166 | below the outermost bracket any JSON value of any kind leaves the scanner's state as it was |
| SpanScanner.JsonSpanIsFound | apps/cli/src/output_schema.rs:133-168 | any serialization of any object or array, after bracket-free prose and before anything, is returned exactly |
| OutputSchema.SplitFencedBlocks | apps/cli/src/output_schema.rs:118-131 | the loop returns the bodies of `FencedBlocks` and terminates because `rest` shrinks |
| OutputSchema.FindFenceIsFirst | apps/cli/src/output_schema.rs:121 | the search returns the first three backticks in a row, and only that |
| OutputSchema.FencedBlocksUndoPrint | apps/cli/src/output_schema.rs:116-131 | splitting printed blocks gives back all bodies in order |
| OutputSchema.FencedBlocksComeFromText | apps/cli/src/output_schema.rs:116-131 | any text is a printing of the blocks found in it up to a tail without a closed fence |
| OutputSchema.Extract | apps/cli/src/output_schema.rs:103-114 | the method tries the whole text, then each fenced block in order, then the bare span |
| OutputSchema.ExtractionIs | apps/cli/src/output_schema.rs:96-114 | from any text: its parse as a whole, else that of the first fenced body that parses, else that of the shortest span, else nothing |
| OutputSchema.WholeJsonIsExtracted | apps/cli/src/output_schema.rs:104-107 | a message that is one JSON value of any kind, scalars included, yields it, whatever whitespace is around |
| OutputSchema.TrimTakesTheSpace | apps/cli/src/output_schema.rs:104 | trimming takes all whitespace off both ends and nothing else |
| OutputSchema.FencedJsonIsExtracted | apps/cli/src/output_schema.rs:96-114 | a fenced serialization is extracted when the whole text and the earlier blocks do not parse |
| OutputSchema.BareJsonIsExtracted | apps/cli/src/output_schema.rs:96-114 | a bare serialization in prose is extracted when nothing more trusted parses |
| OutputSchema.LastAssistantText | apps/cli/src/output_schema.rs:194-202 | the last assistant text that is not blank, or none when all are |
| OutputSchema.LastWordsAreRead | apps/cli/src/output_schema.rs:194-202 | the message read is the last that is not blank, trimmed, whatever silent entries follow |
| OutputSchema.Enforce | apps/cli/src/output_schema.rs:214-258 | the loop over transcripts, extracting with `ExtractJson`, meets the contract of the correction loop |
| CorrectionLoop.Enforce | apps/cli/src/output_schema.rs:221-257 | at most two corrections, each for a rejected answer; the verdict is about the answer after the last |
| CorrectionLoop.EnforceIsDetermined | apps/cli/src/output_schema.rs:204-258 | that contract leaves one possible verdict and one possible list of corrections |
| EditDistance.EditDistance | apps/cli/src/main.rs:51-63 | the rolling rows compute `Distance` |
| EditDistance.CellExtendsRow | apps/cli/src/main.rs:56-59 | each new cell extends a row of distances between prefixes |
| EditDistance.DistanceIsShortest | apps/cli/src/main.rs:49-63 | some chain of single edits has that length and none is shorter |
| EditDistance.IsMetric | apps/cli/src/main.rs:49-63 | zero iff equal, symmetric, triangle inequality |
| EditDistance.WithinOneEdit | apps/cli/src/main.rs:42-47 | distance at most one means equal or one edit apart |
| EditDistance.KeepSuggestions | apps/cli/src/main.rs:80-84 | a destructive verb is kept iff at most one edit turns the typed word into it, others always |
| EditDistance.TightenDestructiveSuggestions | apps/cli/src/main.rs:68-95 | other errors unchanged; an emptied suggestion list is removed, not left empty |
| Panes.Walk | apps/desktop/src/project_panes_factory.rs:972-1038 | the recursive walk threads counter, list and active position as the whole-tree functions say |
| Panes.PromoteTabs | apps/desktop/src/project_panes_factory.rs:957-1052 | the method computes `PromotePerPaneTabs`, its final clamp never binds |
| Panes.PromotionConservesTerminals | apps/desktop/src/project_panes_factory.rs:950-956 | the list is all terminals of all panes, in order and unaltered, iff there is one leaf per pane |
| Panes.EachTerminalIsKept | apps/desktop/src/project_panes_factory.rs:962-995 | for any tree and panes, each terminal of each leaf is at its place with all its fields, in a pane without a strip, and nothing else is there |
| Panes.ActiveNamesTheActiveTerminal | apps/desktop/src/project_panes_factory.rs:996-1003 | the new active index names the terminal that was shown, or is 0 when no leaf was active |
| Panes.OneLeafPerTerminal | apps/desktop/src/project_panes_factory.rs:1004-1014 | the new tree has one leaf per terminal |
| Panes.PromotedLeafIsEvenRow | apps/desktop/src/project_panes_factory.rs:1006-1013 | a leaf of several terminals becomes a horizontal row of leaves of equal weight that add up to one |
| Panes.PromotionKeepsWeighted | apps/desktop/src/project_panes_factory.rs:1009-1036 | every split keeps one weight per child |
| Panes.CollapseUndoesPromotion | apps/desktop/src/project_panes_factory.rs:1016-1036 | folding the new splits back gives the input tree: all original axes and weights are kept |
| Panes.PromotionIsIdempotent | apps/desktop/src/project_panes_factory.rs:952-954 | a second promotion changes neither tree, list nor active index |
| Panes.NeedsTreeRestoreIffSeveralTerminals | apps/desktop/src/project_panes_factory.rs:939-948 | the slow restore path is taken iff more than one terminal results |
| RestoreGate.PassesIff | apps/desktop/src/session_restore/restore_fallback.rs:102-126 | a layout passes iff its trees are well formed and at most 64 high, tabs with panes have a leaf for each, and groups account for all leaves and tabs |
| RestoreGate.RejectedForAFault | apps/desktop/src/session_restore/restore_fallback.rs:73-126 | the error a layout is rejected with names a fault it has |
| RestoreGate.AcceptedTabsConserve | apps/desktop/src/project_panes_factory.rs:1547-1554 | in a layout that passes, every tab restored as a tree keeps all its terminals, one leaf each, and the one it showed |
| RestoreGate.PromotedTabPassesIff | apps/desktop/src/session_restore/restore_fallback.rs:69-96 | a promoted tab passes the gate again iff its tree had passed and no leaf of several terminals was at the depth cap |
| SaveCache.Cache.SaveDeduped | apps/desktop/src/project_panes_factory.rs:1631-1668 | one save updates table and store as `SetDeduped` says |
| SaveCache.RunIsCoherent | apps/desktop/src/project_panes_factory.rs:1650-1660 | over any saves and failures every cached digest is that of what the store holds |
| SaveCache.SaveIsHonest | apps/desktop/src/project_panes_factory.rs:1618-1630 | true means the store holds the bytes, false means nothing changed and the next save retries, no other key or store is touched |
| SaveCache.RepeatIsSkipped | apps/desktop/src/project_panes_factory.rs:1618-1622 | a repeat of a save is not written, whatever other saves came between, up to one of its key with another digest |
| SaveCache.UndisturbedIsSetDeduped | apps/desktop/src/project_panes_factory.rs:1642-1666 | three steps that nothing comes between are one save |
| SaveCache.SkipsStayHonest | apps/desktop/src/project_panes_factory.rs:1642-1661 | with overlapping saves a skip is still right when no save begins against one of its key with another digest under way |
| SaveCache.TurnsKeepSkipsHonest | apps/desktop/src/project_panes_factory.rs:1642-1661 | so it is when saves of one key take turns |
| SaveCache.MisleadsIffConflicts | apps/desktop/src/project_panes_factory.rs:1642-1661 | after any run without such a conflict, beginning a save is a wrong skip, or lets a later one happen without another conflict, iff that save conflicts |
| ChatCredentials.MintAgrees | apps/desktop/src/remote_control.rs:1026-1049 | minting keeps table and files those of the chats |
| ChatCredentials.MintEarns | apps/desktop/src/remote_control.rs:1026-1049 | the secret handed out, and no other under its label, earns the chat; its old credential earns nothing, the others what they did; without a listener nothing is minted |
| ChatCredentials.RevokeAgrees | apps/desktop/src/remote_control.rs:1077-1085 | so does revoking |
| ChatCredentials.RevokeEarns | apps/desktop/src/remote_control.rs:1077-1085 | what earned the revoked chat earns nothing, the rest is as it was |
| ChatCredentials.RekeyAgreesIff | apps/desktop/src/remote_control.rs:587-602 | a rename does iff it displaces no other chat's live row or file |
| ChatCredentials.RekeyEarns | apps/desktop/src/remote_control.rs:587-602 | what earned the old id earns the new one, the rest is as it was |
| ChatCredentials.RivalsDisplace | apps/desktop/src/remote_control.rs:593-600 | for any two ids a proper run leads to a rename of one onto the other that breaks the agreement |
| ChatCredentials.RunAgrees | apps/desktop/src/remote_control.rs:383-396 | over every proper run of mint, rekey, revoke, start and stop they stay in agreement |
| ChatCredentials.CredentialEarnsItsChat | apps/desktop/src/remote_control.rs:1013-1025 | with a listener up, a credential earns exactly the chat it belongs to now |
| ChatCredentials.CredentialFollowsItsChat | apps/desktop/src/remote_control.rs:1021-1025 | over every proper run, restarts included, the secret of a spawn earns the id its chat has come to have, and nothing once revoked or replaced |
| ChatCredentials.SpawnedSecretFollowsItsChat | apps/desktop/src/remote_control.rs:1013-1049 | the same from the mint on, for the secret the agent was handed |
| ChatCredentials.RestartKeepsCredentials | apps/desktop/src/remote_control.rs:952-956 | stop and start leave what every credential earns unchanged |
| RemoteControl.RemoteControl.MintChatCredential | apps/desktop/src/remote_control.rs:1026-1049 | grants, binds, records, and revokes the previous credential, or does nothing without listener or confinement |
| RemoteControl.RemoteControl.RekeySession | apps/desktop/src/remote_control.rs:593-600 | moves the credential and re-points its row |
| RemoteControl.RemoteControl.RevokeChatCredential | apps/desktop/src/remote_control.rs:1077-1085 | removes credential, row and file |
| RemoteControl.RemoteControl.ClaimHostRole | apps/desktop/src/remote_control.rs:976-1011 | succeeds iff the lock is held already or acquired now |
| RemoteControl.RemoteControl.StartLocal | apps/desktop/src/remote_control.rs:930-966 | a fresh listener gets exactly the table of the chats, only under the lock |
| RemoteControl.RemoteControl.StopLocal | apps/desktop/src/remote_control.rs:1089-1102 | listener and lock are gone, chats keep their secrets |
| RemoteControl.Listener.BindSession | crates/remote-local/src/serve.rs:206-212 | re-points a known label and ignores an unknown one |
| HostLock.OneHostAtATime | apps/desktop/src/remote_control.rs:947-966 | in every interleaving a bound listener implies the lock, and two processes never both have one |
| HostLock.HolderKeepsTheRole | apps/desktop/src/remote_control.rs:976-1011 | while the holder does nothing no run of the others makes one of them hold the lock or listen, and the holder's next claim succeeds |
| HostLock.StopFreesTheRole | apps/desktop/src/remote_control.rs:1089-1102 | after a stop anyone can take the role |
| HostLock.StartComesTo | apps/desktop/src/remote_control.rs:930-966 | in any reachable state: exactly when a start ends with the role and with a listener; no other process notices |
| HostLock.StopOrDeathComesTo | apps/desktop/src/remote_control.rs:1089-1102 | a stop or the end of the process gives up lock and listener, and a lock held is free |
| HostLock.NoOverlapWhenReleasesWait | apps/desktop/src/remote_control/local_listener.rs:69-73 | if no role is released while an aborted accept task lingers, two processes never serve at once |
| HostLock.OverlapIffReleasedEarly | apps/desktop/src/remote_control/local_listener.rs:69-73 | after any run that waited so far, a release opens the way to an overlap iff the released process's task still lingers |
| HostLock.ReapedReleaseIsSafe | apps/desktop/src/remote_control/local_listener.rs:69-73 | a release after the task has been reaped opens no way to an overlap |
| HostLock.StopReleasesEarly | apps/desktop/src/remote_control.rs:1089-1102 | a stop of a listening process comes to its release with the task lingering |
| SessionIds.Minter.NextRemoteSessionId | apps/desktop/src/remote_control.rs:119-127 | returns the placeholder of run and counter and advances the counter |
| SessionIds.PlaceholdersAreDistinct | apps/desktop/src/remote_control.rs:112-117 | for stamps of equal length two placeholders are equal iff run and counter are |
| SessionIds.PlaceholderShape | apps/desktop/src/remote_control.rs:116-118 | always `agent-` and at least five digits |
| SessionIds.StampsHaveThirteenDigits | apps/desktop/src/remote_control.rs:115-125 | millisecond stamps of 2001 to 2286 have equal length |
| SessionIds.UnequalStampsCollideIff | apps/desktop/src/remote_control.rs:126 | stamps of unequal length give some id twice iff the longer is the shorter followed by digits of which the first is not zero |
| SessionSearch.OneIndexerAtATime | apps/desktop/src/session_search_service.rs:61-106 | unless a start is lost while the retired indexer runs: at most one open index, none while files are deleted, no thread left unstopped |
| SessionSearch.SettingIsFollowed | apps/desktop/src/session_search_service.rs:61-106 | in every run, after a toggle or a Clear there is an indexer handle iff the setting is on; during a Clear toggles and Clears do nothing; never two handles, none while clearing |
| SessionSearch.ToggleChangesOneIndexer | apps/desktop/src/session_search_service.rs:61-81 | a toggle to the state in force changes nothing; any other starts one indexer after the retired one, or tells the running one to stop |
| SessionSearch.ClearTakesTheHandles | apps/desktop/src/session_search_service.rs:93-106 | a Clear takes exactly the two handles; resuming ends it and then does what a toggle does |
| SessionSearch.ClearCanFinish | apps/desktop/src/session_search_service.rs:124-134 | from every reachable state a Clear under way can reach its end, indexers ending only after the Clear or a toggle has stopped them |
| SessionSearch.SetEnabledIsSafe | apps/desktop/src/session_search_service.rs:61-81 | a toggle keeps the invariant iff it is no lost start |
| SessionSearch.BreaksIffLostStart | crates/agents/src/session_search/indexer.rs:72-94 | a start that does not spawn opens the way to a deletion under an open index iff there is a retired indexer still running |
| SessionSearch.SessionSearchService.SetEnabled | apps/desktop/src/session_search_service.rs:61-81 | starts with the retired handle as predecessor, or signals and retires |
| SessionSearch.SessionSearchService.BeginClear | apps/desktop/src/session_search_service.rs:93-100 | takes both handles into a job, or refuses while one runs |
| SessionSearch.SessionSearchService.Resume | apps/desktop/src/session_search_service.rs:103-106 | ends the Clear and applies the setting |
| SessionSearch.SessionSearchService.Stop | crates/agents/src/session_search/indexer.rs:121-126 | signals the thread, then waits until it has ended, as one of the system's runs |
| SessionSearch.SessionSearchService.RunClearJob | apps/desktop/src/session_search_service.rs:126-134 | stops and joins every handle, deletes with all threads ended, as one of the system's runs |
| LineRenderer.LineRenderer.Lines | apps/cli/src/render.rs:81-111 | memory and lines after an event are those of `Render` |
| LineRenderer.LineRenderer.FlushAll | apps/cli/src/render.rs:126-134 | prints every held call bare, in order, and forgets it |
| LineRenderer.MemoryIsRight | apps/cli/src/render.rs:71-76 | printed ids are those shown, held ones those announced and not yet shown, under the first name given |
| LineRenderer.HeldAndPrintedAreDisjoint | apps/cli/src/render.rs:71-76 | held ids are distinct and never printed |
| LineRenderer.OneLineAt | apps/cli/src/render.rs:81-111 | a call's line is printed at the first event that completes or settles it and at no other |
| LineRenderer.OneLinePerCall | apps/cli/src/render.rs:63-67 | over every run a call has one line iff it was completed, or announced and then settled, else none |
| LineRenderer.LineSaysWhatIsKnown | apps/cli/src/render.rs:63-66 | the line carries the arguments if the completion came first, else the name first announced, and reads so |
| LineRenderer.FlushedLinesComeFirst | apps/cli/src/render.rs:97-108 | the event's own lines are complete and last, all before them are calls it settles, bare, under their first name |
| LineRenderer.OnlyToolLinesDiffer | apps/cli/src/render.rs:109-110 | without tool-call lines the stream is the stateless renderer's |
| LineRenderer.EverythingIsSaid | apps/cli/src/render.rs:79-111 | over every run, apart from tool-call lines, the output is what the events have to say, in order, nothing lost or added |
| Icns.ReadPngMembers | xtask/src/icon.rs:158-182 | the loop computes `PngMembers`, terminates and never slices out of range |
| Icns.FailsIffMalformed | xtask/src/icon.rs:159-174 | it fails iff the header is bad or a reached chunk's length is under 8 or past the end |
| Icns.WidthOfContent | xtask/src/icon.rs:190-198 | of all bodies exactly the PNGs whose header says equal width and height have a width, and it is that |
| Icns.MembersAreDisjointPngs | xtask/src/icon.rs:175-178 | members are disjoint slices in order, square PNGs of the recorded width |
| Icns.ReadingUndoesEncoding | xtask/src/icon.rs:151-182 | reading encoded chunks gives exactly the square PNG bodies, in order |
| Icns.ReadingFindsTheSquares | xtask/src/icon.rs:151-182 | in a file of any contents exactly the square PNGs are found, in order, each where it stands, with the width in its header |
| Icns.BestSource | xtask/src/icon.rs:136-149 | the narrowest member at least as wide as asked, else the widest |
| Icns.BestSourceIsTheChoice | xtask/src/icon.rs:136-149 | among equals, the first of those wide enough, the last of the widest |
| BmpFrame.BmpFrame | xtask/src/icon.rs:211-241 | header, bottom-up plane and mask as `Frame` lays them out |
| BmpFrame.PixelReadsBack | xtask/src/icon.rs:228-235 | pixel (x, y) is read back from offset 40 + ((h-1-y)w + x)4, as blue, green, red, alpha |
| BmpFrame.HeaderReadsBack | xtask/src/icon.rs:215-226 | header size, width, twice the height, one plane, 32 bits, the rest zero |
| BmpFrame.MaskIsZero | xtask/src/icon.rs:237-239 | all after the colour plane is zero |
| BmpFrame.FrameSize | xtask/src/icon.rs:213-240 | the frame is 40 + 4wh + stride times h bytes |
| BmpFrame.StrideIsLeast | xtask/src/icon.rs:238 | the stride is the least multiple of four bytes with a bit per pixel |
| Client.Client.CallWithin | apps/cli/src/client.rs:364-387 | the receive loop returns, hands out and leaves what `Call` says |
| Client.CallsMatchReplies | apps/cli/src/client.rs:344-387 | against an in-order host the k-th call returns the k-th reply and hands out exactly the pushes before it |
| Client.CallConserves | apps/cli/src/client.rs:377-386 | against any host a call takes a prefix, its pushes and one reply or the one item it failed on, and leaves the rest: nothing lost or reordered |
| LegacyData.FileSystem.AdoptFrom | apps/desktop/src/app_paths.rs:167-209 | the loop over the listing computes `Adopt` under any failures |
| LegacyData.NothingIsLost | apps/desktop/src/app_paths.rs:151-157 | current entries never change, every legacy entry survives on one side, `moved` is what was added, legacy goes only when empty |
| LegacyData.EachEntryFares | apps/desktop/src/app_paths.rs:172-203 | under any failures, whether an entry moves, goes or stays depends on its own failures only, up to the first directory that cannot be made; what moved is reported as listed |
| LegacyData.DirectoriesFare | apps/desktop/src/app_paths.rs:192-208 | the legacy directory goes iff it is empty at the end and can be removed, the current one is made iff needed |
| LegacyData.AdoptWithoutFaults | apps/desktop/src/app_paths.rs:172-208 | without failures the outcome is the merge in which current wins, in any listing order |
| LegacyData.SecondRunIsIdle | apps/desktop/src/app_paths.rs:394-395 | after that a second run, even a failing one, changes and reports nothing |
| Target.FoundIffNamed | apps/cli/src/target.rs:48-70 | an id is found iff the argument is it, or no known id and the long enough prefix of no other UUID |
| Target.FullIdIffUuid | apps/cli/src/target.rs:74-81 | an id counts as full iff it is five hyphenated groups of hexadecimal digits |
| Target.AmbiguousListsMatches | apps/cli/src/target.rs:60-69 | ambiguity lists exactly the two or more UUIDs with the prefix |
| Target.NotFoundIff | apps/cli/src/target.rs:56-66 | nothing is found iff nothing is named and no UUID matches |
| Target.OtherIdsMatchExactly | apps/cli/src/target.rs:50-51 | an id that is no UUID is reached by its exact name only |
| Target.TypingMoreIsStable | apps/cli/src/target.rs:48-70 | a longer prefix of the same id resolves to it iff it is not itself another known id |
| Target.ResolvingTwiceIsOnce | apps/cli/src/target.rs:121-146 | a resolved argument resolves to itself |
| Target.Command.ResolveInPlace | apps/cli/src/target.rs:122-146 | full ids and unlisted hosts leave the argument alone, a found id replaces it, errors leave it |

## Left out

- SpanScanner: text is a sequence of characters and not of UTF-8 bytes; every byte the scanner compares is ASCII, so the spans are the same.
- JsonText: how deep values nest is unbounded; what a parser makes of duplicate keys or long numbers is its own matter.
- CorrectionLoop: the wording of the correction prompt, the cap of ten reported errors and the turn that streams in between.
- EditDistance: everything else an error carries is one opaque value.
- Panes: weights are reals, so rounding of `1/n` is not modelled, nor weights that are no finite number.
- RestoreGate: the layout's version, tab kinds and order, and what happens to a rejected layout.
- SaveCache: a digest is a natural number; the theorems assume no collision with what the stores hold and do not bound it to 64 bits.
- ChatCredentials: removal of a credential file always succeeds, and the directory cleared at the first write of a run is taken to hold only older runs' files.
- RemoteControl: the operator's and the MCP client's rows of the table, the lineage and registry updates of a rename, and the respawn of chats after a start.
- HostLock: pids and holder records beside the lock; `oximux serve` is one more process taking the same steps.
- SessionIds: the counter is unbounded, not 64 bits wide.
- SessionSearch: what a thread indexes, and quitting, which drops the handles as the process ends. A failed deletion ends the job like a successful one.
- SessionSearch.SessionSearchService.Join: plays one schedule, the oldest thread first; the theorems on runs cover all of them.
- LineRenderer: `input_summary` and the wording of the other events are parameters of the event.
- BmpFrame: pixels are given as rows; `requires` holds the sizes to what the program's 32-bit arithmetic can express.
- Client: encoding and timers; what happens after a failed call is only that nothing is reordered.
- LegacyData: `exists` is taken to answer truthfully, and nobody else writes to either directory during the run.
- Target: candidate lists come from the host; argument length is in characters, which differs from bytes only for arguments that are no prefix of a UUID anyway.
- The GUI, sockets, scheduling, the simulator and the storage crates are not part of this model.
