/**
 * The specification of `RepositoryDataScraper`: what one processed commit contributes (its
 * merge and trailer records, its window updates and stale removals), which commits the walk
 * enqueues, and the soundness of every record and state the scraper holds.
 */
module ScraperSpec {
  import opened Results
  import opened Text
  import opened Dicts
  import opened Repository
  import opened FileChains
  import opened CherryMining

  /** A merge commit found on the walk, with its parents in order. */
  datatype MergeScenario = MergeScenario(mergeCommit: Hash, hadConflicts: bool, parents: seq<Hash>)

  /** The window states of every tracked branch: `self.state`. */
  type BranchStates = Dict<string, FileStates>

  /** What the git backend guarantees: parents are commits, and typed change lines name one path. */
  predicate WellFormedRepo(repo: Repo) {
    Closed(repo)
    && forall h, k {:trigger WellFormedChange(repo[h].changes[k])} ::
         h in repo && 0 <= k < |repo[h].changes| ==> WellFormedChange(repo[h].changes[k])
  }

  // ---------------------------------------------------------------- what one commit contributes

  /** `had_conflicts` after the loop over the changes: some counted change so far is of type `MM`. */
  predicate HadConflicts(changes: seq<string>, language: string)
    decreases |changes|
  {
    var n := |changes| - 1;
    n >= 0 && (HadConflicts(changes[..n], language) || (IsCounted(changes[n], language) && Kind(changes[n]) == "MM"))
  }

  /** So a merge is conflicted exactly when some counted change was modified on both sides (`MM`). */
  lemma {:induction false} HadConflictsExactly(changes: seq<string>, language: string)
    ensures HadConflicts(changes, language) <==>
      exists k :: 0 <= k < |changes| && IsCounted(changes[k], language) && Kind(changes[k]) == "MM"
    decreases |changes|
  {
    if |changes| > 0 {
      var n := |changes| - 1;
      HadConflictsExactly(changes[..n], language);
      assert forall k :: 0 <= k < n ==> changes[..n][k] == changes[k];
    }
  }

  /** The merge scenario a commit yields: merges with no changes or with a change mentioning the language. */
  function MergeRecords(repo: Repo, h: Hash, language: string): (r: seq<MergeScenario>)
    requires h in repo
  {
    var c := repo[h];
    if |c.parents| > 1 && (|c.changes| == 0 || ContainsLanguage(c.changes, language)) then
      [MergeScenario(h, HadConflicts(c.changes, language), c.parents)]
    else []
  }

  /**
   * The merge sample taken before the changes are tracked, flagged by an `MM` change while
   * they are, is the merge scenario the commit yields.
   */
  lemma MergeSampleRecords(repo: Repo, h: Hash, language: string, sample: Option<MergeScenario>, marked: Option<MergeScenario>)
    requires h in repo
    requires sample == if |repo[h].parents| > 1 && (|repo[h].changes| == 0 || ContainsLanguage(repo[h].changes, language))
      then Some(MergeScenario(h, false, repo[h].parents)) else None
    requires |repo[h].parents| > 1 && HadConflicts(repo[h].changes, language) ==> sample.Some? && marked == Some(sample.value.(hadConflicts := true))
    requires !(|repo[h].parents| > 1 && HadConflicts(repo[h].changes, language)) ==> marked == sample
    ensures MergeRecords(repo, h, language) == if |repo[h].parents| > 1 && marked.Some? then [marked.value] else []
  {
    if |repo[h].parents| > 1 && HadConflicts(repo[h].changes, language) {
      ConflictsMentionLanguage(repo[h].changes, language);
    }
  }

  /** A merge flagged as conflicted always qualifies: its `MM` change mentions the language. */
  lemma ConflictedMergeQualifies(repo: Repo, h: Hash, language: string)
    requires h in repo && |repo[h].parents| > 1 && HadConflicts(repo[h].changes, language)
    ensures MergeRecords(repo, h, language) == [MergeScenario(h, true, repo[h].parents)]
  {
    HadConflictsExactly(repo[h].changes, language);
    var k :| 0 <= k < |repo[h].changes| && IsCounted(repo[h].changes[k], language) && Kind(repo[h].changes[k]) == "MM";
    CountedMentionsLanguage(repo[h].changes[k], language);
  }

  /** A conflicted change is a counted change, so it makes the commit a language commit. */
  lemma ConflictsMentionLanguage(changes: seq<string>, language: string)
    requires HadConflicts(changes, language)
    ensures ContainsLanguage(changes, language)
  {
    HadConflictsExactly(changes, language);
    var k :| 0 <= k < |changes| && IsCounted(changes[k], language) && Kind(changes[k]) == "MM";
    CountedMentionsLanguage(changes[k], language);
  }

  /** `_process_cherry_pick_scenario`: the scenario the message's trailer names, if any. */
  function TrailerRecords(repo: Repo, h: Hash): (r: seq<CherryPickScenario>)
    requires h in repo
    ensures |r| <= 1
    ensures |r| == 0 <==> forall j :: !TrailerAt(repo[h].message, j)
    ensures forall x :: x in r ==>
      (x.cherryPickCommit == h && x.parents == repo[h].parents && |x.cherryCommit| == ShaLength
       && Contains(repo[h].message, TrailerPrefix + x.cherryCommit))
  {
    match CherryPickedFrom(repo[h].message)
    case None => []
    case Some(sha) => [CherryPickScenario(h, sha, repo[h].parents)]
  }

  /** The parents of a merge that were not visited yet, in order. */
  function Unvisited(parents: seq<Hash>, visited: set<Hash>): (r: seq<Hash>)
    ensures |r| <= |parents|
    decreases |parents|
  {
    if |parents| == 0 then []
    else
      var n := |parents| - 1;
      Unvisited(parents[..n], visited) + (if parents[n] !in visited then [parents[n]] else [])
  }

  /** The unvisited parents are exactly the parents not visited yet. */
  lemma {:induction false} UnvisitedExactly(parents: seq<Hash>, visited: set<Hash>)
    ensures forall p :: p in Unvisited(parents, visited) <==> p in parents && p !in visited
    decreases |parents|
  {
    if |parents| > 0 {
      var n := |parents| - 1;
      UnvisitedExactly(parents[..n], visited);
      assert forall p :: p in parents <==> p in parents[..n] || p == parents[n];
    }
  }

  /**
   * The commits `_update_frontier_with` enqueues: a merge's parents not yet visited, a
   * single parent whether visited or not, nothing for a root commit.
   */
  function Enqueued(parents: seq<Hash>, visited: set<Hash>): (r: seq<Hash>)
    ensures |r| <= |parents|
  {
    if |parents| > 1 then Unvisited(parents, visited)
    else if |parents| == 1 then [parents[0]]
    else []
  }

  /** Only parents are enqueued: the unvisited ones of a merge, the one parent of an ordinary commit. */
  lemma EnqueuedParents(parents: seq<Hash>, visited: set<Hash>)
    ensures forall p :: p in Enqueued(parents, visited) ==> p in parents
    ensures |parents| > 1 ==> forall p :: p in Enqueued(parents, visited) <==> p in parents && p !in visited
    ensures |parents| == 1 ==> Enqueued(parents, visited) == parents
  {
    UnvisitedExactly(parents, visited);
    if |parents| == 1 {
      assert [parents[0]] == parents;
    }
  }

  // ---------------------------------------------------------------- the window state of a branch

  function BranchFiles(state: BranchStates, branch: string): FileStates {
    if HasKey(state, branch) then Get(state, branch) else []
  }

  /** `_maintain_state_for_change_in_commit`. */
  function Maintained(state: BranchStates, branch: string, commit: Hash, file: string, window: int): BranchStates {
    Put(state, branch, Sight(BranchFiles(state, branch), file, commit, window))
  }

  /** The state after maintaining each of `files` in turn. */
  function MaintainedAll(state: BranchStates, branch: string, commit: Hash, files: seq<string>, window: int): BranchStates
    decreases |files|
  {
    if |files| == 0 then state
    else Maintained(MaintainedAll(state, branch, commit, files[..|files| - 1], window), branch, commit, files[|files| - 1], window)
  }

  /** `_remove_stale_file_states` on the state: only the files the commit changed stay tracked. */
  function StaleRemoved(state: BranchStates, branch: string, affected: seq<string>): BranchStates {
    if state == [] then state else Put(state, branch, Retained(BranchFiles(state, branch), affected))
  }

  /** `_remove_stale_file_states` on the accumulator: the finalised stale files. */
  function StaleFinalised(state: BranchStates, branch: string, affected: seq<string>, window: int): seq<FileCommitChainScenario> {
    if state == [] then [] else Stale(BranchFiles(state, branch), affected, branch, window)
  }

  /** `_handle_newest_commit_file_commit_chain_edge_case`: every state of every branch finalised. */
  function FinalisedBranches(state: BranchStates, window: int): seq<FileCommitChainScenario>
    decreases |state|
  {
    if |state| == 0 then []
    else
      var n := |state| - 1;
      FinalisedBranches(state[..n], window) + FinalisedAll(state[n].value, state[n].key, window)
  }

  // ---------------------------------------------------------------- dictionaries of the state

  /** `self.state` is a dict of dicts: branch names are distinct, and so are the files of each branch. */
  predicate Nested(state: BranchStates) {
    DistinctKeys(state) && forall i :: 0 <= i < |state| ==> DistinctKeys(state[i].value)
  }

  /** The state holds at most the walked branch: it is reset after every branch. */
  predicate TracksOnly(state: BranchStates, branch: string) {
    |state| <= 1 && forall i :: 0 <= i < |state| ==> state[i].key == branch
  }

  lemma PutNested(state: BranchStates, branch: string, files: FileStates)
    requires Nested(state) && DistinctKeys(files)
    ensures Nested(Put(state, branch, files))
  {
    var r := Put(state, branch, files);
    forall i | 0 <= i < |r|
      ensures DistinctKeys(r[i].value)
    {
      if i < |state| && state[i].key != branch {
        assert r[i] == state[i];
      } else {
        assert r[i].key == branch by {
          assert Keys(r)[i] == r[i].key;
          if i < |state| {
            assert Keys(state)[i] == state[i].key;
          }
        }
      }
    }
  }

  lemma PutTracksOnly(state: BranchStates, branch: string, files: FileStates)
    requires TracksOnly(state, branch)
    ensures TracksOnly(Put(state, branch, files), branch)
  {
    var r := Put(state, branch, files);
    if |state| == 1 {
      assert HasKey(state, branch);
    }
    forall i | 0 <= i < |r|
      ensures r[i].key == branch
    {
      assert Keys(r)[i] == r[i].key;
    }
  }

  lemma BranchFilesDistinct(state: BranchStates, branch: string)
    requires Nested(state)
    ensures DistinctKeys(BranchFiles(state, branch))
  {
    if HasKey(state, branch) {
      assert BranchFiles(state, branch) == state[IndexOf(state, branch)].value;
    }
  }

  // ---------------------------------------------------------------- what every record and state satisfies

  /** `file` is a counted change of commit `h`. */
  predicate TouchedBy(repo: Repo, language: string, file: string, h: Hash) {
    h in repo && file in CountedPaths(repo[h].changes, language)
  }

  /** A window state the walk can hold: well windowed, its oldest and newest commits changed the file. */
  predicate FileStateSound(repo: Repo, language: string, window: int, file: string, s: FileState) {
    WellWindowed(s, window) && TouchedBy(repo, language, file, s.oldestCommit) && TouchedBy(repo, language, file, s.newestCommit)
  }

  predicate FilesSound(repo: Repo, language: string, window: int, files: FileStates) {
    forall j :: 0 <= j < |files| ==> FileStateSound(repo, language, window, files[j].key, files[j].value)
  }

  predicate StateSound(repo: Repo, language: string, window: int, state: BranchStates) {
    forall i :: 0 <= i < |state| ==> FilesSound(repo, language, window, state[i].value)
  }

  /** A chain scenario reached the window, and its file was changed by its oldest and its newest commit. */
  predicate ChainSound(repo: Repo, language: string, window: int, r: FileCommitChainScenario) {
    r.timesSeen >= window && TouchedBy(repo, language, r.file, r.oldestCommit) && TouchedBy(repo, language, r.file, r.newestCommit)
  }

  predicate ChainsSound(repo: Repo, language: string, window: int, chains: seq<FileCommitChainScenario>) {
    forall r :: r in chains ==> ChainSound(repo, language, window, r)
  }

  /** A merge scenario is the one its commit yields. */
  predicate MergeSound(repo: Repo, language: string, r: MergeScenario) {
    r.mergeCommit in repo && MergeRecords(repo, r.mergeCommit, language) == [r]
  }

  predicate MergesSound(repo: Repo, language: string, merges: seq<MergeScenario>) {
    forall r :: r in merges ==> MergeSound(repo, language, r)
  }

  /** A mined cherry-pick: two language commits with one message and one patch id, the cherry committed first. */
  predicate MinedSound(repo: Repo, language: string, sha1: string -> string, r: CherryPickScenario) {
    r.cherryCommit in repo && r.cherryPickCommit in repo
    && repo[r.cherryCommit].message == repo[r.cherryPickCommit].message
    && ContainsLanguage(repo[r.cherryCommit].changes, language) && ContainsLanguage(repo[r.cherryPickCommit].changes, language)
    && PatchIdsMatch(repo[r.cherryCommit], repo[r.cherryPickCommit], sha1)
    && repo[r.cherryCommit].committedAt < repo[r.cherryPickCommit].committedAt
    && r.parents == repo[r.cherryPickCommit].parents
  }

  /** A cherry-pick scenario comes from its commit's trailer or from the duplicate-message pass. */
  predicate PickSound(repo: Repo, language: string, sha1: string -> string, r: CherryPickScenario) {
    (r.cherryPickCommit in repo && TrailerRecords(repo, r.cherryPickCommit) == [r]) || MinedSound(repo, language, sha1, r)
  }

  predicate PicksSound(repo: Repo, language: string, sha1: string -> string, picks: seq<CherryPickScenario>) {
    forall r :: r in picks ==> PickSound(repo, language, sha1, r)
  }

  /** Every indexed commit is a commit of the repository. */
  predicate Indexed(repo: Repo, seen: MessageIndex) {
    forall i, k :: 0 <= i < |seen| && 0 <= k < |seen[i].value| ==> seen[i].value[k] in repo
  }

  /** Every commit indexed under a message has that message and a change mentioning the language. */
  predicate IndexSound(repo: Repo, language: string, seen: MessageIndex) {
    Indexed(repo, seen)
    && forall i, k :: 0 <= i < |seen| && 0 <= k < |seen[i].value| ==>
      repo[seen[i].value[k]].message == seen[i].key && ContainsLanguage(repo[seen[i].value[k]].changes, language)
  }

  // ---------------------------------------------------------------- the walk keeps them

  lemma SightSound(repo: Repo, language: string, window: int, files: FileStates, file: string, commit: Hash)
    requires DistinctKeys(files) && FilesSound(repo, language, window, files) && TouchedBy(repo, language, file, commit)
    ensures FilesSound(repo, language, window, Sight(files, file, commit, window))
  {
    var r := Sight(files, file, commit, window);
    SightKeepsWindowed(files, file, commit, window);
    forall j | 0 <= j < |r|
      ensures FileStateSound(repo, language, window, r[j].key, r[j].value)
    {
      if j < |files| && files[j].key != file {
        assert r[j] == files[j];
      } else {
        assert r[j].key == file by {
          assert Keys(r)[j] == r[j].key;
          if j < |files| {
            assert Keys(files)[j] == files[j].key;
          }
        }
        assert WellWindowed(r[j].value, window);
        if HasKey(files, file) {
          var o := IndexOf(files, file);
          assert FileStateSound(repo, language, window, file, files[o].value);
        }
      }
    }
  }

  lemma PutSound(repo: Repo, language: string, window: int, state: BranchStates, branch: string, files: FileStates)
    requires DistinctKeys(state) && StateSound(repo, language, window, state) && FilesSound(repo, language, window, files)
    ensures StateSound(repo, language, window, Put(state, branch, files))
  {
    var r := Put(state, branch, files);
    forall i | 0 <= i < |r|
      ensures FilesSound(repo, language, window, r[i].value)
    {
      if i < |state| && state[i].key != branch {
        assert r[i] == state[i];
      } else {
        assert r[i].key == branch by {
          assert Keys(r)[i] == r[i].key;
          if i < |state| {
            assert Keys(state)[i] == state[i].key;
          }
        }
      }
    }
  }

  lemma BranchFilesSound(repo: Repo, language: string, window: int, state: BranchStates, branch: string)
    requires StateSound(repo, language, window, state)
    ensures FilesSound(repo, language, window, BranchFiles(state, branch))
  {
    if HasKey(state, branch) {
      assert BranchFiles(state, branch) == state[IndexOf(state, branch)].value;
    }
  }

  lemma RetainedSound(repo: Repo, language: string, window: int, files: FileStates, affected: seq<string>)
    requires FilesSound(repo, language, window, files)
    ensures FilesSound(repo, language, window, Retained(files, affected))
  {
    var r := Retained(files, affected);
    RetainedMembers(files, affected);
    forall j | 0 <= j < |r|
      ensures FileStateSound(repo, language, window, r[j].key, r[j].value)
    {
      assert r[j] in files;
    }
  }

  /** Maintaining a file the commit changed keeps the state a sound dict of dicts of the walked branch. */
  lemma MaintainedSound(repo: Repo, language: string, window: int, state: BranchStates, branch: string, commit: Hash, file: string)
    requires Nested(state) && TracksOnly(state, branch) && StateSound(repo, language, window, state)
    requires TouchedBy(repo, language, file, commit)
    ensures var r := Maintained(state, branch, commit, file, window);
      Nested(r) && TracksOnly(r, branch) && StateSound(repo, language, window, r)
  {
    var files := BranchFiles(state, branch);
    BranchFilesDistinct(state, branch);
    BranchFilesSound(repo, language, window, state, branch);
    SightSound(repo, language, window, files, file, commit);
    PutNested(state, branch, Sight(files, file, commit, window));
    PutTracksOnly(state, branch, Sight(files, file, commit, window));
    PutSound(repo, language, window, state, branch, Sight(files, file, commit, window));
  }

  /** Maintaining a file of the walked branch keeps the state to that branch. */
  lemma MaintainedTracksOnly(state: BranchStates, branch: string, commit: Hash, file: string, window: int)
    requires TracksOnly(state, branch)
    ensures TracksOnly(Maintained(state, branch, commit, file, window), branch)
  {
    PutTracksOnly(state, branch, Sight(BranchFiles(state, branch), file, commit, window));
  }

  lemma {:induction false} MaintainedAllTracksOnly(state: BranchStates, branch: string, commit: Hash, files: seq<string>, window: int)
    requires TracksOnly(state, branch)
    ensures TracksOnly(MaintainedAll(state, branch, commit, files, window), branch)
    decreases |files|
  {
    if |files| > 0 {
      var n := |files| - 1;
      MaintainedAllTracksOnly(state, branch, commit, files[..n], window);
      MaintainedTracksOnly(MaintainedAll(state, branch, commit, files[..n], window), branch, commit, files[n], window);
    }
  }

  lemma {:induction false} MaintainedAllSound(repo: Repo, language: string, window: int, state: BranchStates, branch: string, commit: Hash, files: seq<string>)
    requires Nested(state) && TracksOnly(state, branch) && StateSound(repo, language, window, state)
    requires forall k :: 0 <= k < |files| ==> TouchedBy(repo, language, files[k], commit)
    ensures var r := MaintainedAll(state, branch, commit, files, window);
      Nested(r) && TracksOnly(r, branch) && StateSound(repo, language, window, r)
    decreases |files|
  {
    if |files| > 0 {
      var n := |files| - 1;
      MaintainedAllSound(repo, language, window, state, branch, commit, files[..n]);
      var front := MaintainedAll(state, branch, commit, files[..n], window);
      MaintainedSound(repo, language, window, front, branch, commit, files[n]);
      MaintainedAllLast(state, branch, commit, files, window);
    }
  }

  lemma MaintainedAllLast(state: BranchStates, branch: string, commit: Hash, files: seq<string>, window: int)
    requires |files| > 0
    ensures MaintainedAll(state, branch, commit, files, window)
      == Maintained(MaintainedAll(state, branch, commit, files[..|files| - 1], window), branch, commit, files[|files| - 1], window)
  {
  }

  /** Stale removal keeps the state sound, and every chain it finalises is sound. */
  lemma StaleRemovedSound(repo: Repo, language: string, window: int, state: BranchStates, branch: string, affected: seq<string>)
    requires Nested(state) && TracksOnly(state, branch) && StateSound(repo, language, window, state)
    ensures var r := StaleRemoved(state, branch, affected);
      Nested(r) && TracksOnly(r, branch) && StateSound(repo, language, window, r)
    ensures ChainsSound(repo, language, window, StaleFinalised(state, branch, affected, window))
  {
    if state != [] {
      var files := BranchFiles(state, branch);
      BranchFilesDistinct(state, branch);
      BranchFilesSound(repo, language, window, state, branch);
      RetainedSubsequence(files, affected);
      RetainedSound(repo, language, window, files, affected);
      PutNested(state, branch, Retained(files, affected));
      PutTracksOnly(state, branch, Retained(files, affected));
      PutSound(repo, language, window, state, branch, Retained(files, affected));
      StaleExactly(files, affected, branch, window);
    }
  }

  /** Every chain finalised at the end of a walk is sound. */
  lemma FinalisedBranchesSound(repo: Repo, language: string, window: int, state: BranchStates)
    requires StateSound(repo, language, window, state)
    ensures ChainsSound(repo, language, window, FinalisedBranches(state, window))
    decreases |state|
  {
    if |state| > 0 {
      var n := |state| - 1;
      FinalisedBranchesSound(repo, language, window, state[..n]);
      StaleExactly(state[n].value, [], state[n].key, window);
    }
  }

  /** Indexing a language commit under its own message keeps the index sound. */
  lemma TrackSound(repo: Repo, language: string, seen: MessageIndex, h: Hash)
    requires DistinctKeys(seen) && IndexSound(repo, language, seen)
    requires h in repo && ContainsLanguage(repo[h].changes, language)
    ensures IndexSound(repo, language, Track(seen, repo[h].message, h))
  {
    var message := repo[h].message;
    var r := Track(seen, message, h);
    forall i, k | 0 <= i < |r| && 0 <= k < |r[i].value|
      ensures r[i].value[k] in repo && repo[r[i].value[k]].message == r[i].key
        && ContainsLanguage(repo[r[i].value[k]].changes, language)
    {
      if i < |seen| && seen[i].key != message {
        assert r[i] == seen[i];
      } else {
        assert r[i].key == message by {
          assert Keys(r)[i] == r[i].key;
          if i < |seen| {
            assert Keys(seen)[i] == seen[i].key;
          }
        }
        assert IndexOf(r, message) == i;
        if HasKey(seen, message) && k < |Get(seen, message)| {
          var o := IndexOf(seen, message);
          assert r[i].value[k] == seen[o].value[k];
        }
      }
    }
  }

  lemma RecordsSound(repo: Repo, language: string, sha1: string -> string, h: Hash,
                     merges: seq<MergeScenario>, picks: seq<CherryPickScenario>)
    requires h in repo && MergesSound(repo, language, merges) && PicksSound(repo, language, sha1, picks)
    ensures MergesSound(repo, language, merges + MergeRecords(repo, h, language))
    ensures PicksSound(repo, language, sha1, picks + TrailerRecords(repo, h))
  {
  }

  lemma ChainsAppend(repo: Repo, language: string, window: int, a: seq<FileCommitChainScenario>, b: seq<FileCommitChainScenario>)
    requires ChainsSound(repo, language, window, a) && ChainsSound(repo, language, window, b)
    ensures ChainsSound(repo, language, window, a + b)
  {
  }

  /**
   * What one processed commit adds keeps everything sound: the chains it finalises, its merge
   * and trailer records, the new state and the message index.
   */
  lemma CommitSound(repo: Repo, language: string, window: int, sha1: string -> string, branch: string, h: Hash,
                    chains: seq<FileCommitChainScenario>, merges: seq<MergeScenario>, picks: seq<CherryPickScenario>,
                    state: BranchStates, seen: MessageIndex,
                    chains': seq<FileCommitChainScenario>, merges': seq<MergeScenario>, picks': seq<CherryPickScenario>,
                    state': BranchStates, seen': MessageIndex)
    requires h in repo && Nested(state) && TracksOnly(state, branch) && DistinctKeys(seen)
    requires ChainsSound(repo, language, window, chains) && MergesSound(repo, language, merges)
    requires PicksSound(repo, language, sha1, picks) && StateSound(repo, language, window, state) && IndexSound(repo, language, seen)
    requires var affected := CountedPaths(repo[h].changes, language);
      var sighted := MaintainedAll(state, branch, h, affected, window);
      state' == StaleRemoved(sighted, branch, affected)
      && chains' == chains + StaleFinalised(sighted, branch, affected, window)
    requires merges' == merges + MergeRecords(repo, h, language)
    requires picks' == picks + TrailerRecords(repo, h)
    requires seen' == if ContainsLanguage(repo[h].changes, language) then Track(seen, repo[h].message, h) else seen
    ensures Nested(state') && TracksOnly(state', branch) && StateSound(repo, language, window, state')
    ensures ChainsSound(repo, language, window, chains') && MergesSound(repo, language, merges')
    ensures PicksSound(repo, language, sha1, picks') && IndexSound(repo, language, seen')
  {
    var affected := CountedPaths(repo[h].changes, language);
    MaintainedAllSound(repo, language, window, state, branch, h, affected);
    var sighted := MaintainedAll(state, branch, h, affected, window);
    StaleRemovedSound(repo, language, window, sighted, branch, affected);
    ChainsAppend(repo, language, window, chains, StaleFinalised(sighted, branch, affected, window));
    RecordsSound(repo, language, sha1, h, merges, picks);
    if ContainsLanguage(repo[h].changes, language) {
      TrackSound(repo, language, seen, h);
    }
  }

  /** The scenarios mined from a sound message index are sound, and so are the records with them appended. */
  lemma MinedPicksSound(repo: Repo, language: string, sha1: string -> string, deadline: nat, seen: MessageIndex,
                        picks: seq<CherryPickScenario>)
    requires IndexSound(repo, language, seen) && PicksSound(repo, language, sha1, picks)
    ensures PicksSound(repo, language, sha1, picks + Mine(repo, sha1, deadline, seen))
  {
    var mined := Mine(repo, sha1, deadline, seen);
    forall x | x in mined
      ensures MinedSound(repo, language, sha1, x)
    {
      MineSound(repo, sha1, deadline, seen, x);
      var i :| 0 <= i < |seen| && x.cherryCommit in seen[i].value && x.cherryPickCommit in seen[i].value;
      var a :| 0 <= a < |seen[i].value| && seen[i].value[a] == x.cherryCommit;
      var c :| 0 <= c < |seen[i].value| && seen[i].value[c] == x.cherryPickCommit;
    }
  }

  // ---------------------------------------------------------------- the branch walk

  /** `f` is a parent of one of the commits `walked`. */
  predicate ParentOfSome(repo: Repo, walked: seq<Hash>, f: Hash) {
    exists m :: 0 <= m < |walked| && walked[m] in repo && f in repo[walked[m]].parents
  }

  lemma CountedPathsSnoc(changes: seq<string>, i: nat, language: string)
    requires i < |changes|
    ensures CountedPaths(changes[..i + 1], language)
      == CountedPaths(changes[..i], language) + (if IsCounted(changes[i], language) then [PathOf(changes[i])] else [])
    ensures HadConflicts(changes[..i + 1], language)
      <==> HadConflicts(changes[..i], language) || (IsCounted(changes[i], language) && Kind(changes[i]) == "MM")
  {
    assert changes[..i + 1][..i] == changes[..i];
    assert forall k :: 0 <= k < i ==> changes[..i + 1][k] == changes[..i][k];
    assert changes[..i + 1][i] == changes[i];
  }

  lemma MaintainedAllSnoc(state: BranchStates, branch: string, commit: Hash, files: seq<string>, file: string, window: int)
    ensures MaintainedAll(state, branch, commit, files + [file], window)
      == Maintained(MaintainedAll(state, branch, commit, files, window), branch, commit, file, window)
  {
    assert (files + [file])[..|files|] == files;
  }

  lemma FinalisedBranchesSnoc(state: BranchStates, b: nat, window: int)
    requires b < |state|
    ensures FinalisedBranches(state[..b + 1], window) == FinalisedBranches(state[..b], window) + FinalisedAll(state[b].value, state[b].key, window)
  {
    assert state[..b + 1][..b] == state[..b];
  }

  /** The commits a branch walk processes, in order, and the visited set it leaves behind. */
  datatype Walked = Walked(processed: seq<Hash>, visited: set<Hash>)

  /**
   * The `while not frontier.empty()` loop run from `frontier`: an unvisited commit is visited,
   * processed and its parents enqueued; an already visited one is processed without enqueuing
   * anything while `keepalive` lasts, one unit each; after that the walk stops.
   */
  function WalkFrom(repo: Repo, frontier: seq<Hash>, visited: set<Hash>, keepalive: int): (r: Walked)
    requires Closed(repo) && forall f :: f in frontier ==> f in repo
    ensures visited <= r.visited
    ensures forall x :: x in r.processed ==> x in repo && x in r.visited
    ensures forall x :: x in r.visited ==> x in visited || x in r.processed
    ensures frontier != [] ==> frontier[0] in r.visited
    ensures frontier != [] && frontier[0] !in visited ==> r.processed != [] && r.processed[0] == frontier[0]
    decreases |repo.Keys - visited|, if keepalive > 0 then keepalive else 0
  {
    if frontier == [] then Walked([], visited)
    else
      var c := frontier[0];
      if c !in visited then
        VisitShrinks(repo.Keys, visited, c);
        EnqueuedParents(repo[c].parents, visited + {c});
        var rest := WalkFrom(repo, frontier[1..] + Enqueued(repo[c].parents, visited + {c}), visited + {c}, keepalive);
        Walked([c] + rest.processed, rest.visited)
      else if keepalive > 0 then
        var rest := WalkFrom(repo, frontier[1..], visited, keepalive - 1);
        Walked([c] + rest.processed, rest.visited)
      else Walked([], visited)
  }

  /**
   * A walk processes every commit it newly visits once, plus at most `keepalive` commits that
   * were already visited: past another branch's commits it goes on for `keepalive` commits only.
   */
  lemma {:induction false} WalkFromCount(repo: Repo, frontier: seq<Hash>, visited: set<Hash>, keepalive: int)
    requires Closed(repo) && forall f :: f in frontier ==> f in repo
    ensures CountBounded(WalkFrom(repo, frontier, visited, keepalive), visited, if keepalive > 0 then keepalive else 0)
    decreases |repo.Keys - visited|, if keepalive > 0 then keepalive else 0
  {
    if frontier != [] {
      var c := frontier[0];
      if c !in visited {
        VisitShrinks(repo.Keys, visited, c);
        EnqueuedParents(repo[c].parents, visited + {c});
        var next := frontier[1..] + Enqueued(repo[c].parents, visited + {c});
        WalkFromCount(repo, next, visited + {c}, keepalive);
        var rest := WalkFrom(repo, next, visited + {c}, keepalive);
        assert WalkFrom(repo, frontier, visited, keepalive) == Walked([c] + rest.processed, rest.visited);
        CountVisit(rest, visited, c, if keepalive > 0 then keepalive else 0);
      } else if keepalive > 0 {
        WalkFromCount(repo, frontier[1..], visited, keepalive - 1);
        var rest := WalkFrom(repo, frontier[1..], visited, keepalive - 1);
        assert WalkFrom(repo, frontier, visited, keepalive) == Walked([c] + rest.processed, rest.visited);
      }
    }
  }

  /** The walk processes each commit it newly visits, plus at most `spare` others. */
  predicate CountBounded(r: Walked, visited: set<Hash>, spare: nat) {
    |r.visited - visited| <= |r.processed| <= |r.visited - visited| + spare
  }

  /** Visiting `c` first adds one to both sides of the count. */
  lemma CountVisit(rest: Walked, visited: set<Hash>, c: Hash, spare: nat)
    requires c !in visited && visited + {c} <= rest.visited && CountBounded(rest, visited + {c}, spare)
    ensures CountBounded(Walked([c] + rest.processed, rest.visited), visited, spare)
  {
    assert rest.visited - visited == (rest.visited - (visited + {c})) + {c};
  }

  /**
   * The walk of a branch from its head: the head comes first unless it was visited already,
   * every later commit is a parent of an earlier one, and besides the commits it newly visits
   * it processes at most `window - 1` already visited ones.
   */
  lemma BranchWalkShape(repo: Repo, head: Hash, visited: set<Hash>, window: int)
    requires Closed(repo) && head in repo
    ensures var w := WalkFrom(repo, [head], visited, window - 1);
      (head !in visited ==> |w.processed| > 0 && w.processed[0] == head)
      && (forall k :: 0 <= k < |w.processed| ==> w.processed[k] == head || ParentOfSome(repo, w.processed[..k], w.processed[k]))
      && |w.visited - visited| <= |w.processed| <= |w.visited - visited| + (if window - 1 > 0 then window - 1 else 0)
  {
    WalkFromDescends(repo, [head], visited, window - 1);
    WalkFromCount(repo, [head], visited, window - 1);
  }

  /** Every commit of `p` is on `frontier` or is a parent of an earlier commit of `p`. */
  predicate FollowsParents(repo: Repo, frontier: seq<Hash>, p: seq<Hash>) {
    forall k :: 0 <= k < |p| ==> p[k] in frontier || ParentOfSome(repo, p[..k], p[k])
  }

  /**
   * A walk only follows parent links: every commit it processes was on the frontier or is a
   * parent of a commit it processed before.
   */
  lemma {:induction false} WalkFromDescends(repo: Repo, frontier: seq<Hash>, visited: set<Hash>, keepalive: int)
    requires Closed(repo) && forall f :: f in frontier ==> f in repo
    ensures FollowsParents(repo, frontier, WalkFrom(repo, frontier, visited, keepalive).processed)
    decreases |repo.Keys - visited|, if keepalive > 0 then keepalive else 0
  {
    if frontier != [] {
      var c := frontier[0];
      assert frontier == [c] + frontier[1..];
      if c !in visited {
        VisitShrinks(repo.Keys, visited, c);
        EnqueuedParents(repo[c].parents, visited + {c});
        var extra := Enqueued(repo[c].parents, visited + {c});
        WalkFromDescends(repo, frontier[1..] + extra, visited + {c}, keepalive);
        DescendsCons(repo, c, frontier[1..], extra, WalkFrom(repo, frontier[1..] + extra, visited + {c}, keepalive).processed);
      } else if keepalive > 0 {
        WalkFromDescends(repo, frontier[1..], visited, keepalive - 1);
        assert frontier[1..] + [] == frontier[1..];
        DescendsCons(repo, c, frontier[1..], [], WalkFrom(repo, frontier[1..], visited, keepalive - 1).processed);
      }
    }
  }

  /** Processing `c` before a walk from `rest` and the parents `extra` of `c` it enqueued. */
  lemma DescendsCons(repo: Repo, c: Hash, rest: seq<Hash>, extra: seq<Hash>, q: seq<Hash>)
    requires c in repo && forall x :: x in extra ==> x in repo[c].parents
    requires FollowsParents(repo, rest + extra, q)
    ensures FollowsParents(repo, [c] + rest, [c] + q)
  {
    var p := [c] + q;
    forall k | 0 < k < |p|
      ensures p[k] in [c] + rest || ParentOfSome(repo, p[..k], p[k])
    {
      var x := q[k - 1];
      assert p[k] == x;
      if x in extra {
        assert p[..k][0] == c;
      } else if x !in rest {
        var m :| 0 <= m < k - 1 && q[..k - 1][m] in repo && x in repo[q[..k - 1][m]].parents;
        assert p[..k][m + 1] == q[..k - 1][m];
      }
    }
  }

  /** Processing one more commit of a walk moves it from what is left to what is done. */
  lemma WalkedStep(goal: Walked, done: seq<Hash>, rest: Walked, c: Hash, next: Walked)
    requires goal == Walked(done + rest.processed, rest.visited) && rest == Walked([c] + next.processed, next.visited)
    ensures goal == Walked((done + [c]) + next.processed, next.visited)
  {
  }

  /** A walk with nothing left has processed exactly what is done. */
  lemma WalkedDone(goal: Walked, done: seq<Hash>, rest: Walked)
    requires goal == Walked(done + rest.processed, rest.visited) && rest.processed == []
    ensures goal == Walked(done, rest.visited)
  {
    assert done + [] == done;
  }

  /** The records and window state the scraper holds while it walks. */
  datatype Records = Records(chains: seq<FileCommitChainScenario>, merges: seq<MergeScenario>,
                             picks: seq<CherryPickScenario>, state: BranchStates, seen: MessageIndex)

  /**
   * Processing commit `h` on `branch`: its trailer and merge records, its place in the message
   * index, the window sighting of every counted file and the removal of the stale ones.
   */
  function CommitRecords(repo: Repo, language: string, window: int, branch: string, h: Hash, r: Records): (r': Records)
    requires h in repo
    ensures r.chains <= r'.chains && r.merges <= r'.merges && r.picks <= r'.picks
  {
    var affected := CountedPaths(repo[h].changes, language);
    var sighted := MaintainedAll(r.state, branch, h, affected, window);
    Records(r.chains + StaleFinalised(sighted, branch, affected, window),
            r.merges + MergeRecords(repo, h, language),
            r.picks + TrailerRecords(repo, h),
            StaleRemoved(sighted, branch, affected),
            if ContainsLanguage(repo[h].changes, language) then Track(r.seen, repo[h].message, h) else r.seen)
  }

  /** The records after processing `commits` in order. */
  function CommitsRecords(repo: Repo, language: string, window: int, branch: string, commits: seq<Hash>, r: Records): (r': Records)
    requires forall x :: x in commits ==> x in repo
    ensures r.chains <= r'.chains && r.merges <= r'.merges && r.picks <= r'.picks
    decreases |commits|
  {
    if |commits| == 0 then r
    else
      var n := |commits| - 1;
      CommitRecords(repo, language, window, branch, commits[n], CommitsRecords(repo, language, window, branch, commits[..n], r))
  }

  lemma CommitsRecordsSnoc(repo: Repo, language: string, window: int, branch: string, commits: seq<Hash>, h: Hash, r: Records)
    requires (forall x :: x in commits ==> x in repo) && h in repo
    ensures CommitsRecords(repo, language, window, branch, commits + [h], r)
      == CommitRecords(repo, language, window, branch, h, CommitsRecords(repo, language, window, branch, commits, r))
  {
    assert (commits + [h])[..|commits|] == commits;
  }

  /** What `scrape` has gathered so far: the records and the commits visited. */
  datatype Progress = Progress(records: Records, visited: set<Hash>)

  /**
   * One iteration of `scrape`'s loop over the branches: a branch without a head is skipped;
   * otherwise the walk from its head is processed, every chain still open at its end is
   * finalised and the window state is reset.
   */
  function BranchScraped(repo: Repo, language: string, window: int, heads: map<string, Hash>, branch: string, p: Progress): (q: Progress)
    requires Closed(repo) && forall b :: b in heads ==> heads[b] in repo
    ensures p.visited <= q.visited && (branch in heads ==> heads[branch] in q.visited)
    ensures p.records.state == [] ==> q.records.state == []
  {
    if branch !in heads then p
    else
      var w := WalkFrom(repo, [heads[branch]], p.visited, window - 1);
      var r := CommitsRecords(repo, language, window, branch, w.processed, p.records);
      Progress(r.(chains := r.chains + FinalisedBranches(r.state, window), state := []), w.visited)
  }

  /** `scrape`'s loop over `branches`, in order; every branch with a head has its head visited. */
  function BranchesScraped(repo: Repo, language: string, window: int, heads: map<string, Hash>, branches: seq<string>, p: Progress): (q: Progress)
    requires Closed(repo) && forall b :: b in heads ==> heads[b] in repo
    ensures p.visited <= q.visited
    ensures forall b :: b in branches && b in heads ==> heads[b] in q.visited
    ensures p.records.state == [] ==> q.records.state == []
    decreases |branches|
  {
    if |branches| == 0 then p
    else
      var n := |branches| - 1;
      assert forall b :: b in branches ==> b in branches[..n] || b == branches[n];
      BranchScraped(repo, language, window, heads, branches[n], BranchesScraped(repo, language, window, heads, branches[..n], p))
  }

  lemma BranchesScrapedSnoc(repo: Repo, language: string, window: int, heads: map<string, Hash>, branches: seq<string>, b: nat, p: Progress)
    requires Closed(repo) && (forall x :: x in heads ==> heads[x] in repo) && b < |branches|
    ensures BranchesScraped(repo, language, window, heads, branches[..b + 1], p)
      == BranchScraped(repo, language, window, heads, branches[b], BranchesScraped(repo, language, window, heads, branches[..b], p))
  {
    assert branches[..b + 1][..b] == branches[..b];
  }

  /** Visiting a commit of the repository leaves fewer commits to visit. */
  lemma VisitShrinks(commits: set<Hash>, visited: set<Hash>, h: Hash)
    requires h in commits && h !in visited
    ensures |commits - (visited + {h})| < |commits - visited|
  {
    assert commits - visited == (commits - (visited + {h})) + {h};
  }

}
