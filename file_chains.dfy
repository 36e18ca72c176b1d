/**
 * The per-branch, per-file window of the scraper: how a file's state changes when a
 * commit touches it, when the state is finalised into a file-commit chain scenario,
 * and which states survive a commit.
 */
module FileChains {
  import opened Dicts
  import opened Repository

  /** The window record of one file on one branch. */
  datatype FileState = FileState(oldestCommit: Hash, newestCommit: Hash, timesSeen: int)

  /** A mined file-commit chain: `file` changed in `timesSeen` consecutive commits from `oldestCommit` to `newestCommit`. */
  datatype FileCommitChainScenario =
    FileCommitChainScenario(file: string, branch: string, oldestCommit: Hash, newestCommit: Hash, timesSeen: int)

  /** The states of the files tracked on one branch, in the order they were first seen. */
  type FileStates = Dict<string, FileState>

  /**
   * `update_accumulator_with_file_commit_chain_scenario`: the records finalising `s` adds
   * to the accumulator — one record carrying the state when the file was seen in at least
   * `window` consecutive commits, nothing otherwise.
   */
  function Finalised(s: FileState, file: string, branch: string, window: int): (r: seq<FileCommitChainScenario>)
    ensures |r| == if s.timesSeen >= window then 1 else 0
    ensures forall x :: x in r ==>
      (x.file == file && x.branch == branch && x.oldestCommit == s.oldestCommit
       && x.newestCommit == s.newestCommit && x.timesSeen == s.timesSeen && x.timesSeen >= window)
  {
    if s.timesSeen >= window then [FileCommitChainScenario(file, branch, s.oldestCommit, s.newestCommit, s.timesSeen)]
    else []
  }

  /** `_maintain_state_for_change_in_commit` on one branch's states: `file` was changed by `commit`. */
  function Sight(states: FileStates, file: string, commit: Hash, window: int): (r: FileStates)
    ensures Keys(r) == if HasKey(states, file) then Keys(states) else Keys(states) + [file]
    ensures forall i :: 0 <= i < |states| && states[i].key != file ==> r[i] == states[i]
    ensures DistinctKeys(states) ==> DistinctKeys(r)
  {
    if HasKey(states, file) then
      var old_ := Get(states, file);
      var seen := old_.timesSeen + 1;
      Put(states, file, FileState(old_.oldestCommit, if seen >= window then commit else old_.newestCommit, seen))
    else
      Put(states, file, FileState(commit, commit, 1))
  }

  /** A first sighting opens a window of one commit; a later one extends the window by one commit. */
  lemma SightStep(states: FileStates, file: string, commit: Hash, window: int)
    ensures var r := Sight(states, file, commit, window);
      HasKey(r, file) &&
      if HasKey(states, file) then
        var before, after := Get(states, file), Get(r, file);
        after.timesSeen == before.timesSeen + 1 && after.oldestCommit == before.oldestCommit
        && after.newestCommit == (if after.timesSeen >= window then commit else before.newestCommit)
      else
        Get(r, file) == FileState(commit, commit, 1)
  {
  }

  /** The states left after sighting `file` in each commit of `commits`, starting from no state. */
  function Sightings(file: string, commits: seq<Hash>, window: int): FileStates
    decreases |commits|
  {
    if |commits| == 0 then []
    else Sight(Sightings(file, commits[..|commits| - 1], window), file, commits[|commits| - 1], window)
  }

  /**
   * A file changed in the consecutive commits `commits` has one state: the first commit is
   * the oldest, the count is the number of commits, and the newest is the last commit once
   * the count reached the window size (the first commit before that).
   */
  lemma {:induction false} SightingsClosedForm(file: string, commits: seq<Hash>, window: int)
    requires |commits| >= 1
    ensures Sightings(file, commits, window) ==
      [Entry(file, FileState(commits[0], if |commits| >= window then commits[|commits| - 1] else commits[0], |commits|))]
    decreases |commits|
  {
    var n := |commits|;
    if n > 1 {
      var front := commits[..n - 1];
      SightingsClosedForm(file, front, window);
      assert front[0] == commits[0];
      var before := Sightings(file, front, window);
      assert HasKey(before, file) && Get(before, file) == before[0].value;
    }
  }

  /** So a chain of `n` consecutive changes yields exactly one scenario, from the first to the last commit, iff `n >= window`. */
  lemma ChainYieldsOneScenario(file: string, branch: string, commits: seq<Hash>, window: int)
    requires |commits| >= 1
    ensures var s := Sightings(file, commits, window);
      |s| == 1 && var r := Finalised(s[0].value, file, branch, window);
      (|r| == 1 <==> |commits| >= window)
      && (|r| == 1 ==> r[0] == FileCommitChainScenario(file, branch, commits[0], commits[|commits| - 1], |commits|))
  {
    SightingsClosedForm(file, commits, window);
  }

  /** A state the window can produce: seen at least once, and the newest commit moves only once the window is reached. */
  predicate WellWindowed(s: FileState, window: int) {
    s.timesSeen >= 1 && (s.timesSeen < window ==> s.newestCommit == s.oldestCommit)
  }

  predicate AllWellWindowed(states: FileStates, window: int) {
    forall i :: 0 <= i < |states| ==> WellWindowed(states[i].value, window)
  }

  /** Sighting a file keeps every state well windowed. */
  lemma SightKeepsWindowed(states: FileStates, file: string, commit: Hash, window: int)
    requires AllWellWindowed(states, window)
    ensures AllWellWindowed(Sight(states, file, commit, window), window)
  {
    var r := Sight(states, file, commit, window);
    forall i | 0 <= i < |r|
      ensures WellWindowed(r[i].value, window)
    {
      if i < |states| && states[i].key != file {
        assert r[i] == states[i];
      } else {
        assert r[i].key == file by {
          assert Keys(r)[i] == r[i].key;
          if i < |states| {
            assert Keys(states)[i] == states[i].key;
          }
        }
        if HasKey(states, file) {
          var j := IndexOf(states, file);
          assert WellWindowed(states[j].value, window);
        }
      }
    }
  }

  /** The states of the files the commit changed, kept in their order: `new_state` in `_remove_stale_file_states`. */
  function Retained(states: FileStates, affected: seq<string>): (r: FileStates)
    ensures |r| <= |states|
    decreases |states|
  {
    if |states| == 0 then []
    else
      var n := |states| - 1;
      Retained(states[..n], affected) + (if states[n].key in affected then [states[n]] else [])
  }

  /** The retained states are exactly the states of the files the commit changed. */
  lemma {:induction false} RetainedMembers(states: FileStates, affected: seq<string>)
    ensures forall e :: e in Retained(states, affected) <==> e in states && e.key in affected
    decreases |states|
  {
    if |states| > 0 {
      var n := |states| - 1;
      RetainedMembers(states[..n], affected);
      assert forall e :: e in states <==> e in states[..n] || e == states[n];
    }
  }

  /** The scenarios finalised for the files the commit did not change, in state order. */
  function Stale(states: FileStates, affected: seq<string>, branch: string, window: int): seq<FileCommitChainScenario>
    decreases |states|
  {
    if |states| == 0 then []
    else
      var n := |states| - 1;
      Stale(states[..n], affected, branch, window)
      + (if states[n].key in affected then [] else Finalised(states[n].value, states[n].key, branch, window))
  }

  /** `_handle_newest_commit_file_commit_chain_edge_case` for one branch: every state is finalised. */
  function FinalisedAll(states: FileStates, branch: string, window: int): seq<FileCommitChainScenario> {
    Stale(states, [], branch, window)
  }

  /**
   * The stale scenarios are exactly the states of files the commit did not change whose
   * count reached the window, each as its own record.
   */
  lemma {:induction false} StaleExactly(states: FileStates, affected: seq<string>, branch: string, window: int)
    ensures forall r :: r in Stale(states, affected, branch, window) <==>
      exists i :: 0 <= i < |states| && states[i].key !in affected && states[i].value.timesSeen >= window
        && r == FileCommitChainScenario(states[i].key, branch, states[i].value.oldestCommit,
                                        states[i].value.newestCommit, states[i].value.timesSeen)
    decreases |states|
  {
    if |states| > 0 {
      var n := |states| - 1;
      StaleExactly(states[..n], affected, branch, window);
      assert forall i :: 0 <= i < n ==> states[..n][i] == states[i];
    }
  }

  /** The retained states keep their relative order and their keys stay distinct. */
  lemma {:induction false} RetainedSubsequence(states: FileStates, affected: seq<string>)
    requires DistinctKeys(states)
    ensures DistinctKeys(Retained(states, affected))
    decreases |states|
  {
    if |states| > 0 {
      var n := |states| - 1;
      var front := Retained(states[..n], affected);
      RetainedSubsequence(states[..n], affected);
      RetainedMembers(states[..n], affected);
      if states[n].key in affected {
        forall i | 0 <= i < |front|
          ensures front[i].key != states[n].key
        {
          assert front[i] in states[..n];
        }
      }
    }
  }

  /** One more state considered by `_remove_stale_file_states`. */
  lemma RetainedSnoc(states: FileStates, affected: seq<string>, branch: string, window: int, i: nat)
    requires i < |states|
    ensures Retained(states[..i + 1], affected) == Retained(states[..i], affected) + (if states[i].key in affected then [states[i]] else [])
    ensures Stale(states[..i + 1], affected, branch, window)
      == Stale(states[..i], affected, branch, window) + (if states[i].key in affected then [] else Finalised(states[i].value, states[i].key, branch, window))
  {
    assert states[..i + 1][..i] == states[..i];
  }

  /** A retained prefix does not hold the key of a later state. */
  lemma RetainedAbsent(states: FileStates, affected: seq<string>, i: nat)
    requires DistinctKeys(states) && i < |states|
    ensures !HasKey(Retained(states[..i], affected), states[i].key)
  {
    var r := Retained(states[..i], affected);
    RetainedMembers(states[..i], affected);
    forall j | 0 <= j < |r|
      ensures r[j].key != states[i].key
    {
      assert r[j] in states[..i];
    }
  }

  lemma RetainedKeepsWindowed(states: FileStates, affected: seq<string>, window: int)
    requires AllWellWindowed(states, window)
    ensures AllWellWindowed(Retained(states, affected), window)
  {
    var r := Retained(states, affected);
    RetainedMembers(states, affected);
    forall i | 0 <= i < |r|
      ensures WellWindowed(r[i].value, window)
    {
      assert r[i] in states;
    }
  }
}
