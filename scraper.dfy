/**
 * `RepositoryDataScraper`: walks every branch of a repository breadth-first from its
 * head and collects three kinds of scenarios — file-commit chains (a file of the language
 * changed in at least `window` consecutive commits), merge commits, and cherry-picks
 * (from the `-x` trailer during the walk, and from duplicate messages after it).
 */
module Scraper {
  import opened Results
  import opened Text
  import opened Dicts
  import opened Repository
  import opened FileChains
  import opened CherryMining
  import opened ScraperSpec

  class RepositoryDataScraper {
    const repo: Repo
    /** The walked branches, in reference order. */
    const branches: seq<string>
    /** `repository.commit(branch)`; a branch without a head raised BadObject and is skipped. */
    const heads: map<string, Hash>
    const window: int
    /** The file-name fragment that selects the language, such as `.py`. */
    const language: string
    /** SHA-1 of a normalised patch, an uninterpreted function. */
    const sha1: string -> string
    /** `_do_patch_ids_match`, bound to the repository when the scraper is built. */
    const samePatch: (Hash, Hash) -> bool

    var fileCommitChains: seq<FileCommitChainScenario>
    var merges: seq<MergeScenario>
    var cherryPicks: seq<CherryPickScenario>
    var state: BranchStates
    var visited: set<Hash>
    var seenMessages: MessageIndex

    /** The repository is well formed and the dictionaries have distinct keys. */
    ghost predicate Valid()
      reads this`state, this`seenMessages
    {
      WellFormedRepo(repo) && (forall b :: b in heads ==> heads[b] in repo)
      && Nested(state) && DistinctKeys(seenMessages)
    }

    /** Every record and every window state is one the walk can justify from the repository. */
    ghost predicate Sound()
      reads this`fileCommitChains, this`merges, this`cherryPicks, this`state, this`seenMessages
    {
      ChainsSound(repo, language, window, fileCommitChains)
      && MergesSound(repo, language, merges)
      && PicksSound(repo, language, sha1, cherryPicks)
      && StateSound(repo, language, window, state)
      && IndexSound(repo, language, seenMessages)
    }

    /** The records, the window state and the visited commits, as one value. */
    ghost function Snapshot(): Progress
      reads this`fileCommitChains, this`merges, this`cherryPicks, this`state, this`seenMessages, this`visited
    {
      Progress(Records(fileCommitChains, merges, cherryPicks, state, seenMessages), visited)
    }

    constructor(repo: Repo, refs: seq<Ref>, heads: map<string, Hash>, window: int, language: string, sha1: string -> string)
      requires WellFormedRepo(repo) && forall b :: b in heads ==> heads[b] in repo
      ensures Valid() && Sound()
      ensures this.repo == repo && this.heads == heads && this.window == window && this.language == language && this.sha1 == sha1
      ensures branches == BranchNames(refs) && samePatch == SamePatch(repo, sha1)
      ensures fileCommitChains == [] && merges == [] && cherryPicks == [] && state == [] && visited == {} && seenMessages == []
    {
      this.repo := repo;
      this.branches := BranchNames(refs);
      this.heads := heads;
      this.window := window;
      this.language := language;
      this.sha1 := sha1;
      this.samePatch := SamePatch(repo, sha1);
      fileCommitChains, merges, cherryPicks := [], [], [];
      state, visited, seenMessages := [], {}, [];
    }

    /** `update_accumulator_with_file_commit_chain_scenario`. */
    method UpdateAccumulatorWithFileCommitChainScenario(fileState: FileState, file: string, branch: string)
      modifies this`fileCommitChains
      ensures fileCommitChains == old(fileCommitChains) + Finalised(fileState, file, branch, window)
    {
      if fileState.timesSeen >= window {
        fileCommitChains := fileCommitChains
          + [FileCommitChainScenario(file, branch, fileState.oldestCommit, fileState.newestCommit, fileState.timesSeen)];
      }
    }

    /** `_maintain_state_for_change_in_commit`: `commit` changed `file` on `branch`. */
    method MaintainStateForChangeInCommit(branch: string, commit: Hash, file: string)
      requires Valid()
      modifies this`state
      ensures Valid()
      ensures state == Maintained(old(state), branch, commit, file, window)
    {
      ghost var state0 := state;
      if !HasKey(state, branch) {
        state := Put(state, branch, []);
      }
      var files := Get(state, branch);
      assert files == BranchFiles(state0, branch);
      BranchFilesDistinct(state0, branch);
      PutPut(state0, branch, [], Sight(files, file, commit, window));
      state := Put(state, branch, Sight(files, file, commit, window));
      PutNested(state0, branch, Sight(files, file, commit, window));
    }

    /** `_remove_stale_file_states`: finalise the branch's files the commit did not change, keep the others. */
    method RemoveStaleFileStates(affected: seq<string>, branch: string)
      requires Valid() && (state == [] || HasKey(state, branch))
      modifies this`state, this`fileCommitChains
      ensures Valid()
      ensures state == StaleRemoved(old(state), branch, affected)
      ensures fileCommitChains == old(fileCommitChains) + StaleFinalised(old(state), branch, affected, window)
    {
      if state != [] {
        var files := Get(state, branch);
        assert files == BranchFiles(state, branch);
        BranchFilesDistinct(state, branch);
        var newState: FileStates := [];
        var i := 0;
        while i < |files|
          invariant 0 <= i <= |files|
          invariant state == old(state)
          invariant newState == Retained(files[..i], affected)
          invariant fileCommitChains == old(fileCommitChains) + Stale(files[..i], affected, branch, window)
        {
          newState := KeepOrFinalise(files, affected, branch, i, newState, old(fileCommitChains));
          i := i + 1;
        }
        assert files[..|files|] == files;
        RetainedSubsequence(files, affected);
        PutNested(state, branch, newState);
        state := Put(state, branch, newState);
      }
    }

    /** One pass of `_remove_stale_file_states`' loop: a changed file keeps its state, any other is finalised. */
    method KeepOrFinalise(files: FileStates, affected: seq<string>, branch: string, i: nat, newState: FileStates,
                          ghost chains0: seq<FileCommitChainScenario>)
      returns (newState': FileStates)
      requires DistinctKeys(files) && i < |files| && newState == Retained(files[..i], affected)
      requires fileCommitChains == chains0 + Stale(files[..i], affected, branch, window)
      modifies this`fileCommitChains
      ensures newState' == Retained(files[..i + 1], affected)
      ensures fileCommitChains == chains0 + Stale(files[..i + 1], affected, branch, window)
    {
      RetainedSnoc(files, affected, branch, window, i);
      newState' := newState;
      if files[i].key in affected {
        RetainedAbsent(files, affected, i);
        PutAbsent(newState, files[i].key, files[i].value);
        newState' := Put(newState, files[i].key, files[i].value);
      } else {
        UpdateAccumulatorWithFileCommitChainScenario(files[i].value, files[i].key, branch);
      }
    }

    /** The inner loop of `_handle_newest_commit_file_commit_chain_edge_case`: every file state of one branch finalised. */
    method FinaliseBranchFiles(tracked: string, files: FileStates)
      modifies this`fileCommitChains
      ensures fileCommitChains == old(fileCommitChains) + FinalisedAll(files, tracked, window)
    {
      var f := 0;
      while f < |files|
        invariant 0 <= f <= |files|
        invariant fileCommitChains == old(fileCommitChains) + Stale(files[..f], [], tracked, window)
      {
        RetainedSnoc(files, [], tracked, window, f);
        UpdateAccumulatorWithFileCommitChainScenario(files[f].value, files[f].key, tracked);
        f := f + 1;
      }
      assert files[..|files|] == files;
    }

    /** `_handle_newest_commit_file_commit_chain_edge_case`: chains still open when the walk ends are finalised too. */
    method HandleNewestCommitFileCommitChainEdgeCase()
      modifies this`fileCommitChains
      ensures fileCommitChains == old(fileCommitChains) + FinalisedBranches(state, window)
    {
      var b := 0;
      while b < |state|
        invariant 0 <= b <= |state|
        invariant fileCommitChains == old(fileCommitChains) + FinalisedBranches(state[..b], window)
      {
        FinaliseBranchFiles(state[b].key, state[b].value);
        FinalisedBranchesSnoc(state, b, window);
        b := b + 1;
      }
      assert state[..|state|] == state;
    }

    /** `_process_cherry_pick_scenario`. */
    method ProcessCherryPickScenario(h: Hash)
      requires h in repo
      modifies this`cherryPicks
      ensures cherryPicks == old(cherryPicks) + TrailerRecords(repo, h)
    {
      var potentialMatch := CherryPickedFrom(repo[h].message);
      if potentialMatch.Some? {
        cherryPicks := cherryPicks + [CherryPickScenario(h, potentialMatch.value, repo[h].parents)];
      }
    }

    /** `_update_frontier_with`. */
    method UpdateFrontierWith(h: Hash, frontier: seq<Hash>, isMergeCommit: bool) returns (r: seq<Hash>)
      requires h in repo && isMergeCommit == (|repo[h].parents| > 1)
      ensures r == frontier + Enqueued(repo[h].parents, visited)
    {
      var parents := repo[h].parents;
      r := frontier;
      if isMergeCommit {
        var i := 0;
        while i < |parents|
          invariant 0 <= i <= |parents|
          invariant r == frontier + Unvisited(parents[..i], visited)
        {
          assert parents[..i + 1][..i] == parents[..i];
          if parents[i] !in visited {
            r := r + [parents[i]];
          }
          i := i + 1;
        }
        assert parents[..|parents|] == parents;
      } else if |parents| == 1 {
        r := r + [parents[0]];
      }
    }

    /** `_update_commit_message_tracker`. */
    method UpdateCommitMessageTracker(h: Hash)
      requires Valid() && h in repo
      modifies this`seenMessages
      ensures Valid()
      ensures seenMessages == Track(old(seenMessages), repo[h].message, h)
    {
      var message := repo[h].message;
      if HasKey(seenMessages, message) {
        seenMessages := Put(seenMessages, message, Get(seenMessages, message) + [h]);
      } else {
        seenMessages := Put(seenMessages, message, [h]);
      }
    }

    /**
     * One pass of the `for change_in_commit in changes_in_commit` loop: a change of a valid
     * type whose path contains the language value updates the branch's window; its type
     * and path are returned. Any other change is skipped.
     */
    method TrackChange(branch: string, h: Hash, line: string) returns (counted: Option<(string, string)>)
      requires Valid() && WellFormedChange(line)
      modifies this`state
      ensures Valid()
      ensures counted.Some? <==> IsCounted(line, language)
      ensures counted.Some? ==> counted.value == (Kind(line), PathOf(line))
      ensures counted.Some? ==> state == Maintained(old(state), branch, h, PathOf(line), window)
      ensures counted.None? ==> state == old(state)
    {
      var changesToUnpack := Split(line, '\t');
      if changesToUnpack[0] !in ValidChangeTypes {
        return None;
      }
      var changeType, file := changesToUnpack[0], changesToUnpack[1];
      if !Contains(file, language) {
        return None;
      }
      MaintainStateForChangeInCommit(branch, h, file);
      return Some((changeType, file));
    }

    /**
     * The bookkeeping around one pass of the loop over the changes: a counted change is
     * collected in `affected`, and an `MM` one of a merge marks the merge sample as conflicted.
     */
    method TrackChangeAt(branch: string, h: Hash, isMergeCommit: bool, sample: Option<MergeScenario>, i: nat,
                         affected: seq<string>, marked: Option<MergeScenario>, ghost state0: BranchStates)
      returns (affected': seq<string>, marked': Option<MergeScenario>)
      requires Valid() && h in repo && i < |repo[h].changes|
      requires isMergeCommit && ContainsLanguage(repo[h].changes, language) ==> sample.Some?
      requires affected == CountedPaths(repo[h].changes[..i], language)
      requires state == MaintainedAll(state0, branch, h, affected, window)
      requires isMergeCommit && HadConflicts(repo[h].changes[..i], language) ==> sample.Some? && marked == Some(sample.value.(hadConflicts := true))
      requires !(isMergeCommit && HadConflicts(repo[h].changes[..i], language)) ==> marked == sample
      modifies this`state
      ensures Valid()
      ensures affected' == CountedPaths(repo[h].changes[..i + 1], language)
      ensures state == MaintainedAll(state0, branch, h, affected', window)
      ensures isMergeCommit && HadConflicts(repo[h].changes[..i + 1], language) ==> sample.Some? && marked' == Some(sample.value.(hadConflicts := true))
      ensures !(isMergeCommit && HadConflicts(repo[h].changes[..i + 1], language)) ==> marked' == sample
    {
      var changes := repo[h].changes;
      CountedPathsSnoc(changes, i, language);
      assert WellFormedChange(changes[i]);
      affected', marked' := affected, marked;
      var counted := TrackChange(branch, h, changes[i]);
      if counted.Some? {
        var (changeType, file) := counted.value;
        MaintainedAllSnoc(state0, branch, h, affected, file, window);
        affected' := affected + [file];
        if isMergeCommit && changeType == "MM" {
          CountedMentionsLanguage(changes[i], language);
          assert ContainsLanguage(changes, language);
          marked' := Some(sample.value.(hadConflicts := true));
        }
      }
    }

    /** The `for change_in_commit in changes_in_commit` loop over a commit's changes. */
    method TrackChangesInCommit(branch: string, h: Hash, isMergeCommit: bool, sample: Option<MergeScenario>)
      returns (affected: seq<string>, marked: Option<MergeScenario>)
      requires Valid() && h in repo
      requires isMergeCommit && ContainsLanguage(repo[h].changes, language) ==> sample.Some?
      modifies this`state
      ensures Valid()
      ensures affected == CountedPaths(repo[h].changes, language)
      ensures state == MaintainedAll(old(state), branch, h, affected, window)
      ensures isMergeCommit && HadConflicts(repo[h].changes, language) ==> sample.Some? && marked == Some(sample.value.(hadConflicts := true))
      ensures !(isMergeCommit && HadConflicts(repo[h].changes, language)) ==> marked == sample
    {
      var changes := repo[h].changes;
      ghost var state0 := state;
      affected, marked := [], sample;
      var i := 0;
      while i < |changes|
        invariant 0 <= i <= |changes|
        invariant Valid()
        invariant affected == CountedPaths(changes[..i], language)
        invariant state == MaintainedAll(state0, branch, h, affected, window)
        invariant isMergeCommit && HadConflicts(changes[..i], language) ==> sample.Some? && marked == Some(sample.value.(hadConflicts := true))
        invariant !(isMergeCommit && HadConflicts(changes[..i], language)) ==> marked == sample
      {
        affected, marked := TrackChangeAt(branch, h, isMergeCommit, sample, i, affected, marked, state0);
        i := i + 1;
      }
      assert changes[..|changes|] == changes;
    }

    /**
     * The window update for one commit: the loop over its changes, then
     * `_remove_stale_file_states` with the files it changed.
     */
    method UpdateFileStates(branch: string, h: Hash, isMergeCommit: bool, sample: Option<MergeScenario>)
      returns (marked: Option<MergeScenario>)
      requires Valid() && h in repo && TracksOnly(state, branch)
      requires isMergeCommit && ContainsLanguage(repo[h].changes, language) ==> sample.Some?
      modifies this`state, this`fileCommitChains
      ensures Valid()
      ensures isMergeCommit && HadConflicts(repo[h].changes, language) ==> sample.Some? && marked == Some(sample.value.(hadConflicts := true))
      ensures !(isMergeCommit && HadConflicts(repo[h].changes, language)) ==> marked == sample
      ensures var affected := CountedPaths(repo[h].changes, language);
        var sighted := MaintainedAll(old(state), branch, h, affected, window);
        state == StaleRemoved(sighted, branch, affected)
        && fileCommitChains == old(fileCommitChains) + StaleFinalised(sighted, branch, affected, window)
    {
      MaintainedAllTracksOnly(state, branch, h, CountedPaths(repo[h].changes, language), window);
      var affected;
      affected, marked := TrackChangesInCommit(branch, h, isMergeCommit, sample);
      assert state == [] || state[0].key == branch;
      RemoveStaleFileStates(affected, branch);
    }

    /**
     * The records of one popped commit before its changes are tracked: the trailer's
     * cherry-pick, the message index for a language commit, and the unflagged merge sample
     * of a merge with no changes or with a language change.
     */
    method RecordCommit(h: Hash, isMergeCommit: bool) returns (sample: Option<MergeScenario>)
      requires Valid() && h in repo
      modifies this`cherryPicks, this`seenMessages
      ensures Valid()
      ensures cherryPicks == old(cherryPicks) + TrailerRecords(repo, h)
      ensures seenMessages == if ContainsLanguage(repo[h].changes, language) then Track(old(seenMessages), repo[h].message, h) else old(seenMessages)
      ensures sample == if isMergeCommit && (|repo[h].changes| == 0 || ContainsLanguage(repo[h].changes, language))
        then Some(MergeScenario(h, false, repo[h].parents)) else None
    {
      ProcessCherryPickScenario(h);
      var changes := repo[h].changes;
      var containsLanguage := ContainsLanguage(changes, language);
      if containsLanguage {
        UpdateCommitMessageTracker(h);
      }
      sample := None;
      if isMergeCommit && (|changes| == 0 || containsLanguage) {
        sample := Some(MergeScenario(h, false, repo[h].parents));
      }
    }

    /**
     * The body of the walk loop for one popped commit, after the visited check: trailer,
     * message index, merge scenario, window update and stale removal. The records and the
     * window stay justified by the repository.
     */
    method ProcessCommit(branch: string, h: Hash, isMergeCommit: bool)
      requires Valid() && Sound() && h in repo && isMergeCommit == (|repo[h].parents| > 1)
      requires TracksOnly(state, branch)
      modifies this`fileCommitChains, this`merges, this`cherryPicks, this`state, this`seenMessages
      ensures Valid() && Sound() && TracksOnly(state, branch)
      ensures old(fileCommitChains) <= fileCommitChains && old(merges) <= merges && old(cherryPicks) <= cherryPicks
      ensures cherryPicks == old(cherryPicks) + TrailerRecords(repo, h)
      ensures merges == old(merges) + MergeRecords(repo, h, language)
      ensures seenMessages == if ContainsLanguage(repo[h].changes, language) then Track(old(seenMessages), repo[h].message, h) else old(seenMessages)
      ensures var affected := CountedPaths(repo[h].changes, language);
        var sighted := MaintainedAll(old(state), branch, h, affected, window);
        state == StaleRemoved(sighted, branch, affected)
        && fileCommitChains == old(fileCommitChains) + StaleFinalised(sighted, branch, affected, window)
      ensures Snapshot().records == CommitRecords(repo, language, window, branch, h, old(Snapshot()).records)
    {
      ghost var affected := CountedPaths(repo[h].changes, language);
      ghost var sighted := MaintainedAll(state, branch, h, affected, window);
      CommitSound(repo, language, window, sha1, branch, h,
                  fileCommitChains, merges, cherryPicks, state, seenMessages,
                  fileCommitChains + StaleFinalised(sighted, branch, affected, window),
                  merges + MergeRecords(repo, h, language), cherryPicks + TrailerRecords(repo, h),
                  StaleRemoved(sighted, branch, affected),
                  if ContainsLanguage(repo[h].changes, language) then Track(seenMessages, repo[h].message, h) else seenMessages);
      RecordAndTrackCommit(branch, h, isMergeCommit);
    }

    /** What `ProcessCommit` does to the records and the window, without the soundness argument. */
    method RecordAndTrackCommit(branch: string, h: Hash, isMergeCommit: bool)
      requires Valid() && h in repo && isMergeCommit == (|repo[h].parents| > 1)
      requires TracksOnly(state, branch)
      modifies this`fileCommitChains, this`merges, this`cherryPicks, this`state, this`seenMessages
      ensures Valid()
      ensures cherryPicks == old(cherryPicks) + TrailerRecords(repo, h)
      ensures merges == old(merges) + MergeRecords(repo, h, language)
      ensures seenMessages == if ContainsLanguage(repo[h].changes, language) then Track(old(seenMessages), repo[h].message, h) else old(seenMessages)
      ensures var affected := CountedPaths(repo[h].changes, language);
        var sighted := MaintainedAll(old(state), branch, h, affected, window);
        state == StaleRemoved(sighted, branch, affected)
        && fileCommitChains == old(fileCommitChains) + StaleFinalised(sighted, branch, affected, window)
    {
      var sample := RecordCommit(h, isMergeCommit);
      assert state == old(state) && fileCommitChains == old(fileCommitChains) && merges == old(merges);
      if isMergeCommit && HadConflicts(repo[h].changes, language) {
        ConflictsMentionLanguage(repo[h].changes, language);
      }
      ghost var unmarked, picks, seen := sample, cherryPicks, seenMessages;
      sample := UpdateFileStates(branch, h, isMergeCommit, sample);
      assert cherryPicks == picks && seenMessages == seen && merges == old(merges);
      MergeSampleRecords(repo, h, language, unmarked, sample);
      if isMergeCommit && sample.Some? {
        merges := merges + [sample.value];
      }
    }

    /**
     * The invariant of the walk loop of one branch: the records and the window state are sound,
     * `done` lists the commits processed so far and `rest` is what the walk from `frontier` still
     * processes, so that together they make up `goal`, the whole walk from the head.
     */
    ghost predicate Walking(branch: string, start: Records, goal: Walked,
                            frontier: seq<Hash>, keepalive: int, done: seq<Hash>, rest: Walked)
      reads this`fileCommitChains, this`merges, this`cherryPicks, this`state, this`seenMessages, this`visited
    {
      Valid() && Sound() && TracksOnly(state, branch)
      && (forall f :: f in frontier ==> f in repo)
      && (forall x :: x in done ==> x in repo)
      && rest == WalkFrom(repo, frontier, visited, keepalive)
      && goal == Walked(done + rest.processed, rest.visited)
      && Snapshot().records == CommitsRecords(repo, language, window, branch, done, start)
    }

    /**
     * The walk of one branch (the `while not frontier.empty()` loop): an unvisited commit is
     * visited and its parents enqueued; an already visited one is still processed while
     * `keepalive` lasts, without enqueuing anything; then the walk stops. The visited set and
     * the records are those of `WalkFrom` from the head: every commit it lists is processed, in
     * order, and the records stay sound.
     */
    method WalkBranch(branch: string, head: Hash)
      requires Valid() && Sound() && head in repo && state == []
      modifies this
      ensures Valid() && Sound() && TracksOnly(state, branch)
      ensures old(fileCommitChains) <= fileCommitChains && old(merges) <= merges && old(cherryPicks) <= cherryPicks
      ensures var w := WalkFrom(repo, [head], old(visited), window - 1);
        visited == w.visited
        && Snapshot().records == CommitsRecords(repo, language, window, branch, w.processed, old(Snapshot()).records)
    {
      ghost var start := Snapshot().records;
      ghost var goal := WalkFrom(repo, [head], visited, window - 1);
      ghost var done: seq<Hash> := [];
      ghost var rest := goal;
      var frontier := [head];
      var keepalive := window - 1;
      while frontier != []
        invariant Walking(branch, start, goal, frontier, keepalive, done, rest)
        decreases |repo.Keys - visited|, keepalive
      {
        var stop;
        frontier, keepalive, stop, done, rest := WalkStep(branch, start, goal, frontier, keepalive, done, rest);
        if stop {
          break;
        }
      }
      WalkedDone(goal, done, rest);
    }

    /** One iteration of the walk loop: pop a commit and, unless the walk stops, process it. */
    method WalkStep(branch: string, ghost start: Records, ghost goal: Walked,
                    frontier: seq<Hash>, keepalive: int, ghost done: seq<Hash>, ghost rest: Walked)
      returns (frontier': seq<Hash>, keepalive': int, stop: bool, ghost done': seq<Hash>, ghost rest': Walked)
      requires frontier != [] && Walking(branch, start, goal, frontier, keepalive, done, rest)
      modifies this`fileCommitChains, this`merges, this`cherryPicks, this`state, this`seenMessages, this`visited
      ensures Walking(branch, start, goal, frontier', keepalive', done', rest')
      ensures stop ==> frontier' == []
      ensures !stop ==> |repo.Keys - visited| < |repo.Keys - old(visited)| || (visited == old(visited) && 0 <= keepalive' < keepalive)
    {
      var commit, isMergeCommit;
      commit, isMergeCommit, frontier', keepalive', stop := PopCommit(frontier, keepalive);
      if stop {
        WalkedDone(goal, done, rest);
        done', rest' := done, WalkFrom(repo, frontier', visited, keepalive');
        return;
      }
      rest' := WalkFrom(repo, frontier', visited, keepalive');
      WalkedStep(goal, done, rest, commit, rest');
      ProcessWalked(branch, start, goal, commit, isMergeCommit, frontier', keepalive', done, rest');
      done' := done + [commit];
    }

    /** Processing the popped commit `h` moves it from what is left of the walk to what is done. */
    method ProcessWalked(branch: string, ghost start: Records, ghost goal: Walked, h: Hash, isMergeCommit: bool,
                         frontier: seq<Hash>, keepalive: int, ghost done: seq<Hash>, ghost rest: Walked)
      requires Valid() && Sound() && TracksOnly(state, branch)
      requires h in repo && isMergeCommit == (|repo[h].parents| > 1)
      requires (forall f :: f in frontier ==> f in repo) && (forall x :: x in done ==> x in repo)
      requires rest == WalkFrom(repo, frontier, visited, keepalive)
      requires goal == Walked((done + [h]) + rest.processed, rest.visited)
      requires Snapshot().records == CommitsRecords(repo, language, window, branch, done, start)
      modifies this`fileCommitChains, this`merges, this`cherryPicks, this`state, this`seenMessages
      ensures Walking(branch, start, goal, frontier, keepalive, done + [h], rest)
    {
      CommitsRecordsSnoc(repo, language, window, branch, done, h, start);
      ProcessCommit(branch, h, isMergeCommit);
    }

    /**
     * The head of the walk loop: pop a commit; an unvisited one is visited and its parents
     * enqueued, an already visited one uses up one unit of `keepalive`, and once that is
     * spent the walk stops (`stop`, with nothing left to walk).
     */
    method PopCommit(frontier: seq<Hash>, keepalive: int)
      returns (commit: Hash, isMergeCommit: bool, frontier': seq<Hash>, keepalive': int, stop: bool)
      requires Closed(repo) && frontier != [] && forall f :: f in frontier ==> f in repo
      modifies this`visited
      ensures commit == frontier[0] && commit in repo && isMergeCommit == (|repo[commit].parents| > 1)
      ensures forall f :: f in frontier' ==> f in repo
      ensures stop ==> frontier' == [] && visited == old(visited)
      ensures commit !in old(visited) ==>
        visited == old(visited) + {commit} && !stop && keepalive' == keepalive
        && frontier' == frontier[1..] + Enqueued(repo[commit].parents, old(visited) + {commit})
      ensures commit in old(visited) ==>
        visited == old(visited) && (keepalive > 0 <==> !stop)
        && (!stop ==> frontier' == frontier[1..] && keepalive' == keepalive - 1)
      ensures var w := WalkFrom(repo, frontier, old(visited), keepalive);
        if stop then w == Walked([], visited)
        else w == Walked([commit] + WalkFrom(repo, frontier', visited, keepalive').processed, WalkFrom(repo, frontier', visited, keepalive').visited)
      ensures !stop ==> |repo.Keys - visited| < |repo.Keys - old(visited)| || (visited == old(visited) && 0 <= keepalive' < keepalive)
    {
      commit := frontier[0];
      frontier' := frontier[1..];
      isMergeCommit := |repo[commit].parents| > 1;
      keepalive', stop := keepalive, false;
      if commit !in visited {
        VisitShrinks(repo.Keys, visited, commit);
        visited := visited + {commit};
        EnqueuedParents(repo[commit].parents, visited);
        frontier' := UpdateFrontierWith(commit, frontier', isMergeCommit);
      } else if keepalive > 0 {
        keepalive' := keepalive - 1;
      } else {
        frontier', stop := [], true;
      }
    }

    /** The comparisons of one pivot with the later commits of its group (the innermost loop). */
    method ComparePivot(deadline: nat, commits: seq<Hash>, i: nat, t: Scan) returns (u: Scan)
      requires i < |commits| && forall k :: 0 <= k < |commits| ==> commits[k] in repo
      ensures u == ScanTargets(repo, samePatch, deadline, commits, i, i + 1, t)
    {
      ghost var goal := ScanTargets(repo, samePatch, deadline, commits, i, i + 1, t);
      u := t;
      var j := i + 1;
      while j < |commits|
        invariant i + 1 <= j
        invariant goal == ScanTargets(repo, samePatch, deadline, commits, i, j, u)
        decreases |commits| - j
      {
        var made := u.comparisons + 1;
        var matched := samePatch(commits[i], commits[j]);
        if matched {
          return Scan(u.found + AppendCherryPick(repo, commits[i], commits[j]), made);
        }
        if made >= deadline {
          return Scan(u.found, made);
        }
        ScanTargetsMiss(repo, samePatch, deadline, commits, i, j, u);
        u := Scan(u.found, made);
        j := j + 1;
      }
    }

    /** Every pivot of one group in turn (the middle loop). */
    method CompareGroup(deadline: nat, commits: seq<Hash>, s: Scan) returns (t: Scan)
      requires forall k :: 0 <= k < |commits| ==> commits[k] in repo
      ensures t == ScanPivots(repo, samePatch, deadline, commits, 0, s)
    {
      t := s;
      var i := 0;
      while i < |commits|
        invariant 0 <= i <= |commits|
        invariant ScanPivots(repo, samePatch, deadline, commits, 0, s) == ScanPivots(repo, samePatch, deadline, commits, i, t)
      {
        t := ComparePivot(deadline, commits, i, t);
        i := i + 1;
      }
    }

    /** `_mine_commits_with_duplicate_messages_for_cherry_pick_scenarios`; `deadline` stands for the wall clock. */
    method MineCommitsWithDuplicateMessagesForCherryPickScenarios(deadline: nat) returns (found: seq<CherryPickScenario>)
      requires Indexed(repo, seenMessages) && samePatch == SamePatch(repo, sha1)
      ensures found == Mine(repo, sha1, deadline, seenMessages)
    {
      var duplicateMessages := DuplicateGroups(seenMessages);
      if |duplicateMessages| == 0 {
        return [];
      }
      var sorted := SortedGroups(repo, seenMessages);
      var s := Scan([], 0);
      var k := 0;
      while k < |sorted|
        invariant 0 <= k <= |sorted|
        invariant ScanGroups(repo, samePatch, deadline, sorted, 0, Scan([], 0)) == ScanGroups(repo, samePatch, deadline, sorted, k, s)
      {
        s := CompareGroup(deadline, sorted[k], s);
        if |s.found| >= 50 {
          break;
        }
        k := k + 1;
      }
      found := s.found;
    }

    /**
     * One iteration of `scrape`'s loop over the branches: a branch with a head is walked,
     * the chains still open at its end are finalised and the state is reset.
     */
    method ScrapeBranch(branch: string)
      requires Valid() && Sound() && state == []
      modifies this
      ensures Valid() && Sound() && state == []
      ensures old(visited) <= visited
      ensures old(fileCommitChains) <= fileCommitChains && old(merges) <= merges && old(cherryPicks) <= cherryPicks
      ensures Snapshot() == BranchScraped(repo, language, window, heads, branch, old(Snapshot()))
    {
      if branch in heads {
        WalkBranch(branch, heads[branch]);
        FinalisedBranchesSound(repo, language, window, state);
        HandleNewestCommitFileCommitChainEdgeCase();
        state := [];
      }
    }

    /** `scrape`'s loop over the branches. */
    method ScrapeBranches()
      requires Valid() && Sound() && state == []
      modifies this
      ensures Valid() && Sound() && state == []
      ensures old(visited) <= visited
      ensures old(fileCommitChains) <= fileCommitChains && old(merges) <= merges && old(cherryPicks) <= cherryPicks
      ensures Snapshot() == BranchesScraped(repo, language, window, heads, branches, old(Snapshot()))
    {
      var b := 0;
      while b < |branches|
        invariant 0 <= b <= |branches|
        invariant Valid() && Sound() && state == []
        invariant old(visited) <= visited
        invariant old(fileCommitChains) <= fileCommitChains && old(merges) <= merges && old(cherryPicks) <= cherryPicks
        invariant Snapshot() == BranchesScraped(repo, language, window, heads, branches[..b], old(Snapshot()))
      {
        BranchesScrapedSnoc(repo, language, window, heads, branches, b, old(Snapshot()));
        ScrapeBranch(branches[b]);
        b := b + 1;
      }
      assert branches[..|branches|] == branches;
    }

    /**
     * `scrape`: walk every branch that has a head, finalise the chains still open at its
     * end and reset the state; then append the scenarios mined from duplicate messages.
     */
    method Scrape(deadline: nat)
      requires Valid() && Sound() && state == [] && samePatch == SamePatch(repo, sha1)
      modifies this
      ensures Valid() && Sound() && state == []
      ensures old(visited) <= visited
      ensures old(fileCommitChains) <= fileCommitChains && old(merges) <= merges
      ensures forall b :: b in branches && b in heads ==> heads[b] in visited
      ensures var q := BranchesScraped(repo, language, window, heads, branches, old(Snapshot()));
        Snapshot() == q.(records := q.records.(picks := q.records.picks + Mine(repo, sha1, deadline, seenMessages)))
    {
      ScrapeBranches();
      var mined := MineCommitsWithDuplicateMessagesForCherryPickScenarios(deadline);
      MinedPicksSound(repo, language, sha1, deadline, seenMessages, cherryPicks);
      cherryPicks := cherryPicks + mined;
    }
  }
}
