# git-good-bench: scenario mining, scenario environment and dataset mappers in Dafny

This project models the three pieces of git-good-bench that hold its logic.

**The scenario miner, `RepositoryDataScraper`.** It walks the commit graph of every branch of a repository. It collects three kinds of scenarios:

- *File-commit chains*: a file changed in at least `sliding_window_size` consecutive commits.
- *Merge scenarios*: merge commits. A merge is flagged as conflicted when a file was modified on both sides (`MM`).
- *Cherry-pick scenarios*: a commit whose message carries a `cherry picked from commit <sha>` trailer, or two commits that share a message and a patch id.

The model has these parts:

- The repository is an arena: a map from hash to commit record. The record holds the commit's parents, message, commit time, `git show --name-status` change lines and patch text.
- `Scraper.RepositoryDataScraper` is a class whose fields are the ones the scraper updates in place:
  - the visited set;
  - the per-branch window state, a dictionary of dictionaries;
  - the three accumulators;
  - the message index.
- Its methods carry the walk loop, the keepalive counter and the frontier. They are proved against the specification functions in `FileChains`, `ScraperSpec` and `CherryMining`.
- Every record the scraper emits is proved to be justified by the repository.

**The scenario environment, `ScenarioEnvironmentManager`.** It prepares and drives the three agent scenarios. The model has these parts:

- Hunk numbering and hunk selection on patch text (`Hunks`).
- The rebase-todo abstraction mapping (`RebaseTodo`): parse, update, view and the rendering for execution.
- Merge-conflict bookkeeping (`Conflicts`): extract conflict sections, splice a resolution in, shift the remaining conflicts, list the files, view one conflict.
- `EnvironmentManager.ScenarioEnvironmentManager` is a class over the working tree files, the mapping and the conflict deque.
- Python's aliasing is kept. The same dictionary can sit twice in the mapping or twice in the deque. Both are modelled as an arena of records plus a list of references into it.

**The dataset mappers (`mappers.py`).** The model has these parts:

- The scenario-list filters (`ScenarioFilters`).
- The merge-in-chain walk (`MergeChains`).
- The purity counters (`Purity`).
- The project size, the merge-conflict difficulty, the coarse refinement predicate and the id and key rewrite of the clarify mapper (`SampleRules`).

Scenario dictionaries hold a small Python value type (`Scenarios.Value`).

Throughout, Python dictionaries keep insertion order: `Dicts.Put` replaces in place or appends, and `Dicts.Remove` is `del`. A raised exception is a `Results.Err` value naming the exception.

## Model

| member | source | states |
|---|---|---|
| Repository.BranchNames | src/repository_data_scraper/repository_data_scraper.py:48-49 | a name is listed iff some reference with that name is neither a `HEAD` reference nor under `refs/tags` |
| Repository.CountedPathsExactly | src/repository_data_scraper/repository_data_scraper.py:147-161 | a path is in `affected_files` iff some change line has type A, M or MM and a path containing the language value |
| Repository.CountedMentionsLanguage | src/repository_data_scraper/repository_data_scraper.py:182-192 | a counted change line contains the language value, so its commit counts as a language commit |
| Repository.ShouldProcessCommit | src/repository_data_scraper/repository_data_scraper.py:194-216 | true iff some change has a valid type and mentions the language anywhere on its line |
| Repository.FirstTrailer | src/repository_data_scraper/repository_data_scraper.py:318-319 | the leftmost position where the trailer prefix ends and 40 hash characters follow; no match before it |
| Repository.CherryPickedFrom | src/repository_data_scraper/repository_data_scraper.py:318-322 | the hash of the leftmost match, as `re.search` finds it: 40 characters from `[a-z0-9]` right after the trailer prefix, with no match further left; none iff no position matches |
| Repository.FilterLinesClean | src/repository_data_scraper/repository_data_scraper.py:480-481 | after a MULTILINE line-removing substitution no removable line is left |
| Repository.FilterLinesOfClean | src/repository_data_scraper/repository_data_scraper.py:480-481 | a substitution over text with no removable line changes nothing |
| Repository.NormalisedIdempotent | src/repository_data_scraper/repository_data_scraper.py:480-481 | normalising a patch twice gives the same text as normalising it once |
| Repository.NormalisedIgnoresDroppedLine | src/repository_data_scraper/repository_data_scraper.py:480-481 | inserting an `index`/`diff`/`---`/`+++` header line or a blank line between whole lines leaves the normalised patch, and so the patch id, unchanged |
| Repository.UndecodablePatchesMatch | src/repository_data_scraper/repository_data_scraper.py:458-477 | two commits whose patches are not UTF-8 both hash to `''`, so their patch ids match |
| FileChains.Finalised | src/repository_data_scraper/repository_data_scraper.py:57-71 | exactly one record `{file, branch, oldest, newest, count}` iff the count reaches the window, none otherwise (a negative count included) |
| FileChains.Sight | src/repository_data_scraper/repository_data_scraper.py:257-284 | keeps every other file's state and position; the file's entry stays in place or is appended |
| FileChains.SightStep | src/repository_data_scraper/repository_data_scraper.py:270-284 | a first sighting gives `{oldest=newest=commit, count 1}`; a later one adds exactly 1 to the count, keeps `oldest`, and sets `newest` to the commit only when the new count reaches the window |
| FileChains.SightingsClosedForm | src/repository_data_scraper/repository_data_scraper.py:257-284 | n consecutive sightings give one state: oldest = first commit, count = n, newest = last commit once n reaches the window, else the first |
| FileChains.ChainYieldsOneScenario | src/repository_data_scraper/repository_data_scraper.py:257-284 | a run of n consecutive changes yields one chain record from its first to its last commit iff n reaches the window |
| FileChains.SightKeepsWindowed | src/repository_data_scraper/repository_data_scraper.py:270-284 | sighting keeps every state seen at least once, with `newest` moved only once the window was reached |
| FileChains.RetainedMembers | src/repository_data_scraper/repository_data_scraper.py:232-255 | the kept states are exactly the states of the files the commit changed |
| FileChains.StaleExactly | src/repository_data_scraper/repository_data_scraper.py:232-255 | the finalised records are exactly those of the files the commit did not change whose count reached the window |
| FileChains.RetainedSubsequence | src/repository_data_scraper/repository_data_scraper.py:232-255 | the kept states keep distinct keys |
| ScraperSpec.HadConflictsExactly | src/repository_data_scraper/repository_data_scraper.py:149-164 | `had_conflicts` iff some counted change has type `MM` |
| ScraperSpec.MergeSampleRecords | src/repository_data_scraper/repository_data_scraper.py:142-170 | the merge sample taken before the change loop, flagged during it, is the record the merge yields: a merge with no changes or a language change, parents in order |
| ScraperSpec.ConflictedMergeQualifies | src/repository_data_scraper/repository_data_scraper.py:142-164 | a merge with an `MM` counted change always yields a record with `had_conflicts` true |
| ScraperSpec.TrailerRecords | src/repository_data_scraper/repository_data_scraper.py:303-324 | at most one record; none iff the message has no trailer; the record pairs the commit with the trailer's hash and the commit's parents |
| ScraperSpec.UnvisitedExactly | src/repository_data_scraper/repository_data_scraper.py:338-342 | the enqueued parents of a merge are exactly its parents not visited yet |
| ScraperSpec.EnqueuedParents | src/repository_data_scraper/repository_data_scraper.py:326-346 | only parents are enqueued: the unvisited ones of a merge; the one parent of an ordinary commit, even if already visited; nothing for a root |
| ScraperSpec.WalkFrom | src/repository_data_scraper/repository_data_scraper.py:107-127 | the walk loop as a function: visited only grows, and only by processed commits; every processed commit ends visited; the first frontier commit is visited, and processed first when it was unvisited |
| ScraperSpec.WalkFromDescends | src/repository_data_scraper/repository_data_scraper.py:107-127 | every processed commit was on the frontier or is a parent of an earlier processed commit |
| ScraperSpec.WalkFromCount | src/repository_data_scraper/repository_data_scraper.py:103-127 | the walk processes each newly visited commit, plus at most keepalive already visited ones |
| ScraperSpec.BranchWalkShape | src/repository_data_scraper/repository_data_scraper.py:100-127 | from a branch head: the head first unless visited before, each later commit a parent of an earlier one, at most W-1 revisits |
| ScraperSpec.BranchScraped | src/repository_data_scraper/repository_data_scraper.py:88-175 | one branch of `scrape`: visited only grows, the head ends visited, the state ends empty |
| ScraperSpec.BranchesScraped | src/repository_data_scraper/repository_data_scraper.py:87-175 | every branch that has a head has its head visited, whatever the order of the branches |
| ScraperSpec.MaintainedSound | src/repository_data_scraper/repository_data_scraper.py:257-284 | maintaining a changed file keeps the state a dict of dicts of the walked branch whose window states the repository justifies |
| ScraperSpec.StaleRemovedSound | src/repository_data_scraper/repository_data_scraper.py:232-255 | stale removal keeps the state sound, and every chain it finalises reached the window and was changed by its oldest and newest commits |
| ScraperSpec.FinalisedBranchesSound | src/repository_data_scraper/repository_data_scraper.py:218-230 | every chain finalised when a branch walk ends is sound |
| ScraperSpec.TrackSound | src/repository_data_scraper/repository_data_scraper.py:348-359 | indexing a language commit under its message keeps every indexed commit a language commit with that message |
| ScraperSpec.CommitSound | src/repository_data_scraper/repository_data_scraper.py:129-170 | everything one processed commit adds (chains, merge and trailer records, state, index) is sound |
| ScraperSpec.MinedPicksSound | src/repository_data_scraper/repository_data_scraper.py:361-445 | the scenarios mined from a sound index are sound cherry-picks |
| Scraper.RepositoryDataScraper.constructor | src/repository_data_scraper/repository_data_scraper.py:35-55 | empty accumulators, state, visited set and index; the branch list filtered from the references |
| Scraper.RepositoryDataScraper.UpdateAccumulatorWithFileCommitChainScenario | src/repository_data_scraper/repository_data_scraper.py:57-71 | the chain accumulator grows by exactly the finalised record, if any |
| Scraper.RepositoryDataScraper.MaintainStateForChangeInCommit | src/repository_data_scraper/repository_data_scraper.py:257-284 | the state becomes the branch's state with the file sighted, the branch created empty first |
| Scraper.RepositoryDataScraper.RemoveStaleFileStates | src/repository_data_scraper/repository_data_scraper.py:232-255 | the branch keeps the states of the changed files; the other states are finalised in state order |
| Scraper.RepositoryDataScraper.KeepOrFinalise | src/repository_data_scraper/repository_data_scraper.py:246-253 | one pass of the stale-removal loop: a changed file's state is kept, any other is finalised |
| Scraper.RepositoryDataScraper.FinaliseBranchFiles | src/repository_data_scraper/repository_data_scraper.py:228-230 | every file state of one branch is finalised, in order |
| Scraper.RepositoryDataScraper.HandleNewestCommitFileCommitChainEdgeCase | src/repository_data_scraper/repository_data_scraper.py:218-230 | every state of every branch is finalised, in order |
| Scraper.RepositoryDataScraper.ProcessCherryPickScenario | src/repository_data_scraper/repository_data_scraper.py:303-324 | the cherry-pick accumulator grows by the trailer's record, if any |
| Scraper.RepositoryDataScraper.UpdateFrontierWith | src/repository_data_scraper/repository_data_scraper.py:326-346 | the frontier followed by the enqueued parents |
| Scraper.RepositoryDataScraper.UpdateCommitMessageTracker | src/repository_data_scraper/repository_data_scraper.py:348-359 | the commit joins the end of its message's list, or starts a new list |
| Scraper.RepositoryDataScraper.TrackChange | src/repository_data_scraper/repository_data_scraper.py:149-166 | a change of valid type on a language path updates the window and returns its type and path; any other change is skipped |
| Scraper.RepositoryDataScraper.TrackChangeAt | src/repository_data_scraper/repository_data_scraper.py:149-166 | one pass: a counted path is appended to `affected_files`, an `MM` change of a merge flags the sample |
| Scraper.RepositoryDataScraper.TrackChangesInCommit | src/repository_data_scraper/repository_data_scraper.py:147-166 | `affected_files` are the counted paths in order; the state is each sighted in turn; the sample is flagged iff an `MM` change was counted |
| Scraper.RepositoryDataScraper.UpdateFileStates | src/repository_data_scraper/repository_data_scraper.py:147-167 | the change loop followed by stale removal with the files it changed |
| Scraper.RepositoryDataScraper.RecordCommit | src/repository_data_scraper/repository_data_scraper.py:129-145 | the trailer's record, the index entry for a language commit, and the unflagged merge sample |
| Scraper.RepositoryDataScraper.RecordAndTrackCommit | src/repository_data_scraper/repository_data_scraper.py:129-170 | the records and window update one popped commit adds |
| Scraper.RepositoryDataScraper.ProcessCommit | src/repository_data_scraper/repository_data_scraper.py:129-170 | one popped commit keeps every record and window state sound |
| Scraper.RepositoryDataScraper.PopCommit | src/repository_data_scraper/repository_data_scraper.py:108-127 | an unvisited commit is visited, the walk goes on and exactly `Enqueued` of its parents join the frontier; a visited one goes on with keepalive one less iff keepalive is left, else the walk stops; so the rest of the walk is `WalkFrom`'s after this commit |
| Scraper.RepositoryDataScraper.WalkStep | src/repository_data_scraper/repository_data_scraper.py:107-170 | one iteration of the walk loop keeps the processed commits plus the rest of the walk equal to the walk from the head, and the records those of the processed commits |
| Scraper.RepositoryDataScraper.ProcessWalked | src/repository_data_scraper/repository_data_scraper.py:129-170 | processing the popped commit adds exactly its records, so they stay those of the commits processed so far |
| Scraper.RepositoryDataScraper.WalkBranch | src/repository_data_scraper/repository_data_scraper.py:100-170 | the visited set becomes that of `WalkFrom` from the head with keepalive W-1, and the records are those of processing its commits in order; they stay sound |
| Scraper.RepositoryDataScraper.ComparePivot | src/repository_data_scraper/repository_data_scraper.py:392-411 | the comparisons of one pivot with the later commits, stopping at the first patch-id match or at the timeout |
| Scraper.RepositoryDataScraper.CompareGroup | src/repository_data_scraper/repository_data_scraper.py:390-411 | every pivot of a group in turn |
| Scraper.RepositoryDataScraper.MineCommitsWithDuplicateMessagesForCherryPickScenarios | src/repository_data_scraper/repository_data_scraper.py:361-418 | the mined scenarios are those of the mining specification over the index |
| Scraper.RepositoryDataScraper.ScrapeBranch | src/repository_data_scraper/repository_data_scraper.py:87-175 | the records and visited set become `BranchScraped`'s: a branch without a head is skipped, otherwise it is walked, its open chains finalised and the state reset; everything stays sound |
| Scraper.RepositoryDataScraper.ScrapeBranches | src/repository_data_scraper/repository_data_scraper.py:87-175 | the records and visited set become `BranchesScraped`'s over the branches in order; the state ends empty and everything stays sound |
| Scraper.RepositoryDataScraper.Scrape | src/repository_data_scraper/repository_data_scraper.py:73-179 | every branch's head is visited; the records are those of the branch walks, with the scenarios mined from the final message index appended to the cherry-picks; everything sound |
| CherryMining.Track | src/repository_data_scraper/repository_data_scraper.py:348-359 | the message's list gains the commit at its end; a new message is appended as a key; other keys are unchanged |
| CherryMining.DuplicateGroups | src/repository_data_scraper/repository_data_scraper.py:373 | exactly the commit lists of messages shared by at least two commits |
| CherryMining.SortBySizeSorted | src/repository_data_scraper/repository_data_scraper.py:386 | the groups are sorted by ascending size |
| CherryMining.SortBySizeStable | src/repository_data_scraper/repository_data_scraper.py:386 | groups of equal size keep their order: the sort is stable |
| CherryMining.SortBySize | src/repository_data_scraper/repository_data_scraper.py:386 | the sorted groups are a permutation of the input groups |
| CherryMining.AppendCherryPick | src/repository_data_scraper/repository_data_scraper.py:420-445 | the earlier commit becomes the cherry, the later one the pick with its parents; equal times give no record |
| CherryMining.SamePatch | src/repository_data_scraper/repository_data_scraper.py:447-461 | two repository commits compare equal iff their patch ids match |
| CherryMining.FirstMatchIsFirst | src/repository_data_scraper/repository_data_scraper.py:391-406 | the match found for a pivot is its first later commit with the same patch id |
| CherryMining.ScanTargetsFirstMatch | src/repository_data_scraper/repository_data_scraper.py:392-406 | before the timeout a pivot is paired only with its first matching later commit |
| CherryMining.MineSound | src/repository_data_scraper/repository_data_scraper.py:361-445 | every mined scenario pairs two commits indexed under one message with matching patch ids; the cherry was committed first; the pick's parents are carried |
| CherryMining.ScanGroupBound | src/repository_data_scraper/repository_data_scraper.py:391-406 | a group of n commits adds at most n-1 scenarios, one per pivot at most |
| CherryMining.ScanGroupsBound | src/repository_data_scraper/repository_data_scraper.py:388-416 | fewer than 50 plus the largest group size are found, since the stop at 50 comes only after a whole group |
| CherryMining.ScanGroupsStopOnlyAtFifty | src/repository_data_scraper/repository_data_scraper.py:413-416 | when fewer than 50 scenarios are found, every group was scanned |
| Hunks.AnnotatedLines | src/agent_client/environment/scenario_environment_manager.py:337-346 | the lines from the first hunk header on, each header replaced by its annotation |
| Hunks.RemainingHunks | src/agent_client/environment/scenario_environment_manager.py:327-348 | the count is the number of `@@` lines; the text is the annotated lines from the first hunk on, joined by newlines (empty content gives `(0, '')`) |
| Hunks.HeaderReadIffPastFirst | src/agent_client/environment/scenario_environment_manager.py:335-344 | `have_found_first_hunk` holds after n lines iff the first header comes before n |
| Hunks.ViewOfAllLines | src/agent_client/environment/scenario_environment_manager.py:337-346 | the line-by-line view equals the annotated lines of the whole patch |
| Hunks.LabelAt | src/agent_client/environment/scenario_environment_manager.py:338-340 | each header becomes `"\nHUNK-k:"`, with k one more than the labels before it, so hunks are numbered 1, 2, … in order |
| Hunks.HunkCountIsLabelCount | src/agent_client/environment/scenario_environment_manager.py:334-348 | the returned count equals the number of labels in the view |
| Hunks.CutSelectedHunks | src/agent_client/environment/scenario_environment_manager.py:376-394 | an error iff the patch has no `@@`: the split's `ValueError`, raised again as `ScenarioEnvironmentException`; otherwise the text before the leftmost `@@` followed by the selected hunks |
| Hunks.SelectedHunksAppend | src/agent_client/environment/scenario_environment_manager.py:384 | selection follows the order of the given numbers |
| Hunks.SelectedHunksAreHunks | src/agent_client/environment/scenario_environment_manager.py:384 | every selected part is a hunk; numbers outside `1..len(hunks)` select nothing |
| Hunks.CutAllHunksRestoresPatch | src/agent_client/environment/scenario_environment_manager.py:377-385 | selecting every hunk in order gives back the patch when the hunks cover it from its first `@@` |
| RebaseTodo.ParseTodoLine | src/agent_client/environment/scenario_environment_manager.py:624-641 | `target_command` starts equal to `command`; a line that does not match raises `KeyError('command')` |
| RebaseTodo.ParseViewLine | src/agent_client/environment/scenario_environment_manager.py:624-641 | a shown todo line parses back into its entry, the first two tokens making the command when it is `fixup -C` |
| RebaseTodo.InitialiseLists | src/agent_client/environment/scenario_environment_manager.py:621-641 | one new mapping entry per todo line, in order, up to the first line that does not parse |
| RebaseTodo.ViewTodoSnoc | src/agent_client/environment/scenario_environment_manager.py:676-681 | one shown line per entry, in order |
| RebaseTodo.ExecutionLinesOfValid | src/agent_client/environment/scenario_environment_manager.py:686-698 | pick/drop/fixup/`fixup -C` are written as shown; reword becomes a pick line plus an amend line; squash becomes a fixup line plus an amend line |
| RebaseTodo.UnknownCommandDropped | src/agent_client/environment/scenario_environment_manager.py:687-698 | a command the rendering does not know writes nothing |
| RebaseTodo.ExecutionMatchesView | src/agent_client/environment/scenario_environment_manager.py:672-698 | without reword and squash the executed todo equals the shown todo |
| RebaseTodo.PyListIndex | src/agent_client/environment/scenario_environment_manager.py:663 | Python list indexing: a position iff `-n <= i < n` |
| RebaseTodo.Edit | src/agent_client/environment/scenario_environment_manager.py:664-666 | the target command is set; the message changes only when one is given; command and commit are kept |
| RebaseTodo.UpdateSucceeds | src/agent_client/environment/scenario_environment_manager.py:643-670 | `(True, '')` iff the todo parses (when read), the counts agree and every request has an index below the length and a supported command |
| RebaseTodo.UpdateLists | src/agent_client/environment/scenario_environment_manager.py:652-668 | after success the mapping lists the named entries in request order, each edited by its request |
| RebaseTodo.SameIndexShared | src/agent_client/environment/scenario_environment_manager.py:663-664 | two requests with one index share one dictionary: both positions show the later command |
| RebaseTodo.RejectedUpdateKeepsEdits | src/agent_client/environment/scenario_environment_manager.py:658-664 | edits made before an unsupported command survive the `(False, msg)` return |
| EnvironmentManager.ScenarioEnvironmentManager.constructor | src/agent_client/environment/scenario_environment_manager.py:24-42 | an empty mapping and an empty deque over the working tree |
| EnvironmentManager.ScenarioEnvironmentManager.InitializeCommitAbstractionMapping | src/agent_client/environment/scenario_environment_manager.py:613-641 | the mapping is reset and filled as the initialisation specification says |
| EnvironmentManager.ScenarioEnvironmentManager.UpdateRebaseTodo | src/agent_client/environment/scenario_environment_manager.py:643-670 | the new mapping and the outcome are those of the update specification; conflicts untouched |
| EnvironmentManager.ScenarioEnvironmentManager.ViewRebaseTodo | src/agent_client/environment/scenario_environment_manager.py:672-681 | an empty mapping is initialised first; then one shown line per listed entry |
| EnvironmentManager.ScenarioEnvironmentManager.ExtractSectionsWithConflictIn | src/agent_client/environment/scenario_environment_manager.py:731-745 | the deque becomes the file's extraction; a missing file or a closing marker before an opening one is an error |
| EnvironmentManager.ScenarioEnvironmentManager.SetupMergeConflictScenario | src/agent_client/environment/scenario_environment_manager.py:560-563 | every conflicted file extracted in turn; `all_conflicts` becomes a copy of the deque |
| EnvironmentManager.ScenarioEnvironmentManager.ResolveCurrentMergeConflictWith | src/agent_client/environment/scenario_environment_manager.py:785-839 | the front conflict is popped (`IndexError` on an empty deque); its file becomes the splice; remaining conflicts are shifted by the offset; the result is the count remaining |
| EnvironmentManager.RenderTodo | src/agent_client/environment/scenario_environment_manager.py:676-681 | the loop output is the shown todo of the listed entries |
| EnvironmentManager.CollectEntries | src/agent_client/environment/scenario_environment_manager.py:624-641 | the loop appends one fresh dictionary per parsed line up to the first error, which it returns |
| EnvironmentManager.EditRequested | src/agent_client/environment/scenario_environment_manager.py:653-666 | the loop stops at the first rejected request, having made exactly the edits of the earlier ones |
| EnvironmentManager.ApplyRequests | src/agent_client/environment/scenario_environment_manager.py:652-670 | edits stay; the mapping is replaced only when every request is accepted |
| Conflicts.ExtractCurrent | src/agent_client/environment/scenario_environment_manager.py:737-745 | the extraction fails iff a closing marker comes before any opening one; until then the current section is the latest opened |
| Conflicts.ExtractFileSpec | src/agent_client/environment/scenario_environment_manager.py:731-745 | success iff every closing marker has an opening marker before it; one section per opening marker; old sections kept; one reference per closing marker, in file order |
| Conflicts.ExtractFileQueued | src/agent_client/environment/scenario_environment_manager.py:737-743 | the section queued for a closing marker begins at the latest opening marker before it and ends at that opening marker's last closing marker |
| Conflicts.ExtractFile | src/agent_client/environment/scenario_environment_manager.py:732-743 | a missing file raises `FileNotFoundError`; any other error is `UnboundLocalError` |
| Conflicts.ResolutionKeepsEveryLine | src/agent_client/environment/scenario_environment_manager.py:792 | every line of the resolution is put into the file, in order, with a newline added |
| Conflicts.SpliceReplacesConflict | src/agent_client/environment/scenario_environment_manager.py:793-831 | the conflict's lines from its opening to its closing marker are replaced by the resolution; the file grows by exactly the offset |
| Conflicts.Shifted | src/agent_client/environment/scenario_environment_manager.py:833-837 | a conflict of another file is unchanged; file and content are always kept |
| Conflicts.ShiftKeeps | src/agent_client/environment/scenario_environment_manager.py:832-837 | sections of other files, and sections not in the deque, are unchanged |
| Conflicts.ShiftOnce | src/agent_client/environment/scenario_environment_manager.py:832-837 | a section queued once is shifted once |
| Conflicts.ShiftTwice | src/agent_client/environment/scenario_environment_manager.py:832-837 | a section queued twice is shifted twice |
| Conflicts.ShiftTracksLines | src/agent_client/environment/scenario_environment_manager.py:793-837 | a later conflict of the same file moves to exactly the lines that hold its old lines in the new file |
| Conflicts.ConflictView | src/agent_client/environment/scenario_environment_manager.py:924-944 | the index is in range iff the conflict is shown rather than the out-of-range message |
| Conflicts.ContextWindowAroundConflict | src/agent_client/environment/scenario_environment_manager.py:928-942 | for a conflict inside its file, the window is the context lines around it, cut at both file ends |
| Conflicts.SortedFilesSpec | src/agent_client/environment/scenario_environment_manager.py:895-896 | the listed files are strictly sorted and are exactly the conflicts' files |
| Conflicts.FilesOf | src/agent_client/environment/scenario_environment_manager.py:895 | the file of every conflict, in order |
| Scenarios.Lookup | src/data_processing_scripts/mappers.py:103 | `d[key]` is the key's value; a missing key raises `KeyError(key)` |
| Scenarios.Len | src/data_processing_scripts/mappers.py:103 | `len` of a string or list; any other value raises `TypeError` |
| Scenarios.KeepWithParentsOk | src/data_processing_scripts/mappers.py:102-103 | the comprehension succeeds iff every scenario has a parent count |
| Scenarios.KeepWithParentsMembers | src/data_processing_scripts/mappers.py:102-103 | a scenario is kept iff it is an input scenario with the given number of parents |
| Scenarios.KeepWithParentsAppend | src/data_processing_scripts/mappers.py:102-103 | filtering a concatenation filters each part, so order is preserved |
| Scenarios.KeepWithParentsIdempotent | src/data_processing_scripts/mappers.py:102-103 | filtering twice keeps what filtering once kept |
| ScenarioFilters.ErrorFilterAsWritten | src/data_processing_scripts/mappers.py:96-107 | the mapper yields at most two rows |
| ScenarioFilters.ErrorFilterAsWrittenYieldsTwice | src/data_processing_scripts/mappers.py:98-107 | a row with no cherry-picks and no error is yielded twice |
| ScenarioFilters.ErrorFilter | src/data_processing_scripts/mappers.py:96-107 | no cherry-picks: the row; otherwise the row with exactly its single-parent cherry-picks, and only when it has no error; a scenario without a parent count raises |
| ScenarioFilters.ErrorFilterDropsOnlyTheDuplicate | src/data_processing_scripts/mappers.py:98-107 | the corrected mapper's output is a prefix of the written one, shorter exactly in the duplicated case |
| ScenarioFilters.ConflictedMergesOk | src/data_processing_scripts/mappers.py:244-251 | the loop succeeds iff every scenario marked with `has_conflict` has `had_conflicts`; otherwise it raises `KeyError('had_conflicts')` |
| ScenarioFilters.ConflictedMergesMembers | src/data_processing_scripts/mappers.py:244-251 | the kept scenarios are the marked input scenarios, each with `had_conflicts` deleted |
| ScenarioFilters.ConflictedMergesAppend | src/data_processing_scripts/mappers.py:244-251 | the loop over a concatenation is the loop over each part, so order is preserved |
| ScenarioFilters.ConflictedMergesStripped | src/data_processing_scripts/mappers.py:248-250 | with distinct keys, every kept scenario is marked and has no `had_conflicts` key |
| ScenarioFilters.SelectConflictedMerges | src/data_processing_scripts/mappers.py:241-253 | no merges: the row unchanged; otherwise the row with the loop's result as its merges |
| ScenarioFilters.SelectTwoParentMerges | src/data_processing_scripts/mappers.py:340-348 | no merges: the row unchanged; otherwise only the merge column changes, keeping exactly the two-parent scenarios |
| ScenarioFilters.SelectTwoParentMergesIdempotent | src/data_processing_scripts/mappers.py:344-346 | selecting twice gives the same row as selecting once |
| MergeChains.WalkChain | src/data_processing_scripts/mappers.py:300-310 | the loop's result is the walk as written |
| MergeChains.ChainWalkFailsAtRoot | src/data_processing_scripts/mappers.py:302-310 | a one-commit gram on a root commit raises `IndexError` in the walk as written |
| MergeChains.MergeInChainExact | src/data_processing_scripts/mappers.py:300-310 | corrected walk: a merge is found iff one of the gram's commits is a merge; no merge iff all of them exist and are linear |
| MergeChains.ChainWalkDiffersOnlyAtRoot | src/data_processing_scripts/mappers.py:302-323 | the two walks differ only where the written one raises `IndexError` and the corrected one finds no merge |
| MergeChains.KeepGram | src/data_processing_scripts/mappers.py:297-323 | with the corrected walk: kept only with a string first commit and an integer count; walk errors drop the gram |
| MergeChains.KeepGramExact | src/data_processing_scripts/mappers.py:297-323 | with the corrected walk: a gram is kept iff its commit is hex, its count an integer and every commit of its chain exists and is linear |
| MergeChains.KeepGramAsWrittenDropsRootChains | src/data_processing_scripts/mappers.py:297-323 | the mapper as written decides like the corrected one except for a linear chain ending at a root commit, which it drops after an `IndexError` |
| MergeChains.GramsWithoutMergesMembers | src/data_processing_scripts/mappers.py:296-325 | with the corrected walk: no error escapes iff no gram raises one, and then the output holds exactly the input grams that are kept |
| MergeChains.GramsWithoutMergesAppend | src/data_processing_scripts/mappers.py:296-325 | the filter distributes over concatenation, so the kept grams stay in input order |
| Purity.LastPart | src/data_processing_scripts/mappers.py:597 | the text after the last separator: a suffix of the line |
| Purity.Step | src/data_processing_scripts/mappers.py:585-621 | `changes <= total` is preserved; the counters never decrease; the total grows by at most 1, and whenever the file's count grows |
| Purity.StepCounts | src/data_processing_scripts/mappers.py:614-621 | a `+`/`-` line (not `+++`/`---`) in a non-cancelled section after the first header adds 1 to the total, and to the file's count exactly in the target section |
| Purity.ScanLinesStops | src/data_processing_scripts/mappers.py:609-611 | once a non-programming-language file is met, the rest of the diff changes nothing |
| Purity.ScanLinesSkipsPreamble | src/data_processing_scripts/mappers.py:587-588 | lines before the first `diff --git` count nothing |
| Purity.ScanCommit | src/data_processing_scripts/mappers.py:585-621 | the line loop computes the scan of the whole diff |
| Purity.CountCommits | src/data_processing_scripts/mappers.py:577-624 | the file's count never exceeds the total |
| Purity.CountChanges | src/data_processing_scripts/mappers.py:577-624 | the two loops compute the scan of all commits, with `changes_in_file <= total_changes` |
| Purity.PurityOf | src/data_processing_scripts/mappers.py:626-632 | skipped iff a non-programming-language file was met; otherwise a fraction in [0, 1] equal to changes over total, and 0 when nothing changed |
| SampleRules.CalculateProjectSize | src/data_processing_scripts/mappers.py:680-689 | the size's rank is the number of bounds 1000, 10000, 100000, 1000000 the line count reaches |
| SampleRules.ProjectSizeMonotone | src/data_processing_scripts/mappers.py:680-689 | more code lines never give a smaller size |
| SampleRules.ZeroPadded | src/data_processing_scripts/mappers.py:740 | `{i:05d}`: at least five digits |
| SampleRules.SampleIdParts | src/data_processing_scripts/mappers.py:740 | splitting an id at `-` gives the name's parts, then the kind, then the padded index |
| SampleRules.ClarifiedIdAsWrittenTruncates | src/data_processing_scripts/mappers.py:925-926 | the rewrite as written keeps only the name's text before its first `-` |
| SampleRules.ClarifiedIdAsWrittenCollides | src/data_processing_scripts/mappers.py:925-926 | two repositories whose names differ after a `-` get the same id |
| SampleRules.ClarifiedIdKeepsName | src/data_processing_scripts/mappers.py:925-926 | the corrected rewrite turns `name-file_commit_gram-i` into `name-file_commit_chain-i` for every name |
| SampleRules.RefineCoarse | src/data_processing_scripts/mappers.py:835-840 | kept iff not cherry-pick, at least 1000 stars, active in the last day/week/month, and a merge with conflicts != 0 and <= 8 or a gram with purity >= 0.5 and at most 6 commits; errors only from the scenario lookups |
| SampleRules.RefineCoarseMoreStars | src/data_processing_scripts/mappers.py:835 | a kept row stays kept with more stars |
| SampleRules.RefineCoarsePurer | src/data_processing_scripts/mappers.py:839 | a kept gram stays kept with a higher purity |
| SampleRules.MergeConflictDifficulty | src/data_processing_scripts/mappers.py:860-866 | defined iff (1 file, >=1 conflict) or (>1 file, >1 conflict); easy iff one conflict; hard iff more than one file |
| SampleRules.MergeConflictDifficultyDefined | src/data_processing_scripts/mappers.py:860-866 | every count with 1 <= files <= conflicts has a difficulty |
| SampleRules.MergeConflictDifficultyMonotone | src/data_processing_scripts/mappers.py:860-866 | more conflicted files and more conflicts never give an easier difficulty |
| SampleRules.RenameKey | src/data_processing_scripts/mappers.py:928-931 | the new key holds the old key's value; with distinct keys the old key is gone; a missing key raises `KeyError` |
| SampleRules.RenameKeyOther | src/data_processing_scripts/mappers.py:928-931 | other keys keep their values |
| SampleRules.Clarify | src/data_processing_scripts/mappers.py:920-937 | a gram becomes a chain with the corrected id; `newest_commit` is the old `first_commit` and `oldest_commit` the old `last_commit`; nothing else changes; merges pass; other types are dropped |
| SampleRules.ClarifyRemovesOldKeys | src/data_processing_scripts/mappers.py:928-931 | the clarified scenario has no `first_commit` or `last_commit` |
| SampleRules.ClarifyKeepsSampleId | src/data_processing_scripts/mappers.py:925-926 | a gram sample's id becomes the chain id of the same repository and index |

## Left out

- Git, the file system and Docker: cloning, checkout, `git show`, `commit.diff`, reading the todo and patch files, `git status`, `git add`, `git commit` and `git rebase --continue`. Their results are inputs: the commit arena, the change lines, the patch text, the working tree's files, the todo lines and the set of cancelled files.
- SHA-1 (FIPS 180-4): the digest is a parameter `sha1: string -> string`, and a patch that is not UTF-8 is a constructor of the patch type.
- The wall-clock timeout of the duplicate-message pass: it is the number of comparisons after which the clock has passed the timeout. As in the source, it only ends the inner loop.
- The 60-second wait for the rebase directory, the retries of `execute_rebase`, and the outcome messages of `resolve_current_merge_conflict_with` after the last conflict (they depend on container calls). The method returns the number of remaining conflicts in place of its message.
- `ast.literal_eval` and pandas: a scenario column is either a missing value or an already parsed list.
- `_calculate_project_activity`: it does date and time arithmetic. The activity is a field of the sample.
- The hunk regular expression of `cut_selected_hunks_from_file` (`findall`): the hunks are given as a list.
- The file-extension regular expression of the purity mapper: it is a parameter from header line to extension.
- Purity.PurityOf gives the exact fraction, not the float rounded to two decimals, and `SampleRules` reads purity in hundredths.
- SampleRules.CalculateProjectSize takes an integer line count; a NaN or missing count is not modelled.
- SampleRules.MergeConflictDifficulty takes the two counts as integers; the dictionary lookups are not modelled.
- MergeChains.IntValue treats a boolean or float `times_seen_consecutively` as an escaping `TypeError`, although Python compares them.
- MergeChains.IsHex does not accept the white space between byte pairs that `bytes.fromhex` allows.
- The `GitCommandError` and `ValueError` of commits missing from the repository are folded into one error of the chain walk, which drops the gram.
- Scraper.RepositoryDataScraper.TrackChange requires change lines of types A, M and MM to name exactly one path, as git prints them. The `ValueError` of unpacking other lines is not modelled.
- Loop bodies of the scraper and the manager are separate methods (for example `KeepOrFinalise`, `PopCommit`, `EditRequested`). They run in the same order as in the source.
- The other mappers and the whole-row parts of the modelled ones (clone, checkout, pandas rows, `SampleDataRow` fields not read here), and the stale key `file_commit_gram_scenarios` read at src/data_processing_scripts/mappers.py:72.
- The agent tool wrappers, the evaluator, prompts and the dataset downsampling: none of them is part of this model.

## Findings

| source | as written | input that shows it | evidently intended | confidence | as-written member | corrected member |
|---|---|---|---|---|---|---|
| src/data_processing_scripts/mappers.py:98-107 | a row without cherry-picks is yielded, then falls through and is yielded again when it has no error | a row with cherry-pick column `None` and no error | yield the row once (a `return` after the first `yield`) | medium, not executed | ScenarioFilters.ErrorFilterAsWritten, ScenarioFilters.ErrorFilterAsWrittenYieldsTwice | ScenarioFilters.ErrorFilter, ScenarioFilters.ErrorFilterDropsOnlyTheDuplicate |
| src/data_processing_scripts/mappers.py:925-926 | the new id keeps only the part of the repository name before its first `-`, so ids collide | `a/b-c-file_commit_gram-00000` and `a/b-d-file_commit_gram-00000` both become `a/b-file_commit_chain-00000` | replace only the kind component and keep the whole name | medium, not executed | SampleRules.ClarifiedIdAsWritten, SampleRules.ClarifiedIdAsWrittenCollides | SampleRules.ClarifiedId, SampleRules.ClarifiedIdKeepsName |
| src/data_processing_scripts/mappers.py:302-323 | after the last commit of the chain the walk still steps to `parents[0]`, which raises `IndexError` on a root commit, and the gram is dropped | `times_seen_consecutively = 1` and `first_commit` a root commit without a merge | look at exactly the gram's commits and keep the gram | medium, not executed | MergeChains.ChainWalk, MergeChains.KeepGramAsWrittenDropsRootChains | MergeChains.MergeInChain, MergeChains.MergeInChainExact |
