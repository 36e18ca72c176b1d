/**
 * The pass after the branch walks that looks for cherry-picks made without `-x`: commits
 * with the same message whose patch ids match. Messages are taken in ascending order of
 * how many commits share them; within a group each commit is compared with the later
 * ones until the first match.
 */
module CherryMining {
  import opened Dicts
  import opened Repository
  import opened Results

  /** `cherryPickCommit` re-applies the patch of `cherryCommit`; `parents` are the pick's parents. */
  datatype CherryPickScenario = CherryPickScenario(cherryPickCommit: Hash, cherryCommit: Hash, parents: seq<Hash>)

  /** The commits indexed under each message, in the order the messages were first seen. */
  type MessageIndex = Dict<string, seq<Hash>>

  /** `_update_commit_message_tracker`: `commit` joins the list of its message, or starts it. */
  function Track(seen: MessageIndex, message: string, commit: Hash): (r: MessageIndex)
    ensures HasKey(r, message) && Get(r, message) == (if HasKey(seen, message) then Get(seen, message) else []) + [commit]
    ensures Keys(r) == if HasKey(seen, message) then Keys(seen) else Keys(seen) + [message]
    ensures forall i :: 0 <= i < |seen| && seen[i].key != message ==> r[i] == seen[i]
    ensures DistinctKeys(seen) ==> DistinctKeys(r)
  {
    if HasKey(seen, message) then Put(seen, message, Get(seen, message) + [commit])
    else Put(seen, message, [commit])
  }

  /** The commit lists of the messages shared by at least two commits, in index order. */
  function DuplicateGroups(seen: MessageIndex): (groups: seq<seq<Hash>>)
    ensures forall g :: g in groups <==> exists i :: 0 <= i < |seen| && seen[i].value == g && |g| > 1
    decreases |seen|
  {
    if |seen| == 0 then []
    else
      var n := |seen| - 1;
      var front := DuplicateGroups(seen[..n]);
      assert forall i :: 0 <= i < n ==> seen[..n][i] == seen[i];
      front + (if |seen[n].value| > 1 then [seen[n].value] else [])
  }

  // ---------------------------------------------------------------- stable sort by group size

  /** Inserts `g` after every group that is no larger: the step of a stable insertion sort. */
  function InsertBySize(g: seq<Hash>, sorted: seq<seq<Hash>>): (r: seq<seq<Hash>>)
    ensures |r| == |sorted| + 1
    decreases |sorted|
  {
    if |sorted| == 0 then [g]
    else if |sorted[0]| > |g| then [g] + sorted
    else [sorted[0]] + InsertBySize(g, sorted[1..])
  }

  /** Inserting adds exactly the new group. */
  lemma {:induction false} InsertBySizePermutes(g: seq<Hash>, sorted: seq<seq<Hash>>)
    ensures multiset(InsertBySize(g, sorted)) == multiset(sorted) + multiset{g}
    decreases |sorted|
  {
    if |sorted| > 0 && |sorted[0]| <= |g| {
      InsertBySizePermutes(g, sorted[1..]);
      assert sorted == [sorted[0]] + sorted[1..];
    }
  }

  /** `sorted(groups, key=len)`: Python's sort is stable. */
  function SortBySize(groups: seq<seq<Hash>>): (r: seq<seq<Hash>>)
    ensures multiset(r) == multiset(groups)
    decreases |groups|
  {
    if |groups| == 0 then []
    else
      var n := |groups| - 1;
      assert groups == groups[..n] + [groups[n]];
      InsertBySizePermutes(groups[n], SortBySize(groups[..n]));
      InsertBySize(groups[n], SortBySize(groups[..n]))
  }

  predicate SortedBySize(s: seq<seq<Hash>>) {
    forall i, j :: 0 <= i < j < |s| ==> |s[i]| <= |s[j]|
  }

  /** The groups of one size, in order. */
  function OfSize(s: seq<seq<Hash>>, size: nat): seq<seq<Hash>>
    decreases |s|
  {
    if |s| == 0 then [] else (if |s[0]| == size then [s[0]] else []) + OfSize(s[1..], size)
  }

  /** Every group inserted into is one of the sorted groups or the new one. */
  lemma InsertedFrom(g: seq<Hash>, sorted: seq<seq<Hash>>, x: seq<Hash>)
    requires x in InsertBySize(g, sorted)
    ensures x in sorted || x == g
  {
    InsertBySizePermutes(g, sorted);
    assert x in multiset(InsertBySize(g, sorted));
  }

  lemma {:induction false} InsertKeepsSorted(g: seq<Hash>, sorted: seq<seq<Hash>>)
    requires SortedBySize(sorted)
    ensures SortedBySize(InsertBySize(g, sorted))
    decreases |sorted|
  {
    if |sorted| > 0 && |sorted[0]| <= |g| {
      InsertKeepsSorted(g, sorted[1..]);
      var rest := InsertBySize(g, sorted[1..]);
      forall j | 0 <= j < |rest|
        ensures |sorted[0]| <= |rest[j]|
      {
        InsertedFrom(g, sorted[1..], rest[j]);
      }
    }
  }

  lemma {:induction false} OfSizeNone(s: seq<seq<Hash>>, size: nat)
    requires SortedBySize(s) && |s| > 0 && |s[0]| > size
    ensures OfSize(s, size) == []
    decreases |s|
  {
    if |s| > 1 {
      OfSizeNone(s[1..], size);
    }
  }

  lemma OfSizeCons(x: seq<Hash>, s: seq<seq<Hash>>, size: nat)
    ensures OfSize([x] + s, size) == (if |x| == size then [x] else []) + OfSize(s, size)
  {
    assert ([x] + s)[1..] == s;
  }

  lemma {:induction false} InsertStable(g: seq<Hash>, sorted: seq<seq<Hash>>, size: nat)
    requires SortedBySize(sorted)
    ensures OfSize(InsertBySize(g, sorted), size) == OfSize(sorted, size) + (if |g| == size then [g] else [])
    decreases |sorted|
  {
    if |sorted| > 0 {
      if |sorted[0]| > |g| {
        if |g| == size {
          OfSizeNone(sorted, size);
        }
        OfSizeCons(g, sorted, size);
      } else {
        InsertStable(g, sorted[1..], size);
        OfSizeCons(sorted[0], InsertBySize(g, sorted[1..]), size);
      }
    }
  }

  lemma {:induction false} OfSizeAppend(a: seq<seq<Hash>>, b: seq<seq<Hash>>, size: nat)
    ensures OfSize(a + b, size) == OfSize(a, size) + OfSize(b, size)
    decreases |a|
  {
    if |a| == 0 {
      assert a + b == b;
    } else {
      assert (a + b)[1..] == a[1..] + b;
      OfSizeAppend(a[1..], b, size);
    }
  }

  /** The sort puts the groups in ascending order of size. */
  lemma {:induction false} SortBySizeSorted(groups: seq<seq<Hash>>)
    ensures SortedBySize(SortBySize(groups))
    decreases |groups|
  {
    if |groups| > 0 {
      var n := |groups| - 1;
      SortBySizeSorted(groups[..n]);
      InsertKeepsSorted(groups[n], SortBySize(groups[..n]));
    }
  }

  /** The sort keeps groups of equal size in their original order: it is stable. */
  lemma {:induction false} SortBySizeStable(groups: seq<seq<Hash>>, size: nat)
    ensures OfSize(SortBySize(groups), size) == OfSize(groups, size)
    decreases |groups|
  {
    if |groups| > 0 {
      var n := |groups| - 1;
      var front := SortBySize(groups[..n]);
      assert SortBySize(groups) == InsertBySize(groups[n], front);
      SortBySizeStable(groups[..n], size);
      SortBySizeSorted(groups[..n]);
      InsertStable(groups[n], front, size);
      assert groups == groups[..n] + [groups[n]];
      OfSizeAppend(groups[..n], [groups[n]], size);
      OfSizeCons(groups[n], [], size);
      assert [groups[n]] + [] == [groups[n]];
    }
  }

  // ---------------------------------------------------------------- comparing commits

  predicate InRepo(repo: Repo, groups: seq<seq<Hash>>) {
    forall k, i :: 0 <= k < |groups| && 0 <= i < |groups[k]| ==> groups[k][i] in repo
  }

  /**
   * `_append_cherry_pick_scenario`: the commit committed earlier is the cherry, the later
   * one the pick with its parents; commits made at the same time give no scenario.
   */
  function AppendCherryPick(repo: Repo, pivot: Hash, target: Hash): (r: seq<CherryPickScenario>)
    requires pivot in repo && target in repo
    ensures |r| == if repo[pivot].committedAt == repo[target].committedAt then 0 else 1
    ensures forall x :: x in r ==>
      ((x.cherryCommit == pivot && x.cherryPickCommit == target) || (x.cherryCommit == target && x.cherryPickCommit == pivot))
      && repo[x.cherryCommit].committedAt < repo[x.cherryPickCommit].committedAt
      && x.parents == repo[x.cherryPickCommit].parents
  {
    if repo[pivot].committedAt < repo[target].committedAt then
      [CherryPickScenario(target, pivot, repo[target].parents)]
    else if repo[pivot].committedAt > repo[target].committedAt then
      [CherryPickScenario(pivot, target, repo[pivot].parents)]
    else []
  }

  /** `_do_patch_ids_match` on two commits of the repository: the comparison the pass makes. */
  function SamePatch(repo: Repo, sha1: string -> string): (same: (Hash, Hash) -> bool)
    ensures forall a, b :: a in repo && b in repo ==> (same(a, b) <==> PatchIdsMatch(repo[a], repo[b], sha1))
  {
    (a: Hash, b: Hash) => a in repo && b in repo && PatchIdsMatch(repo[a], repo[b], sha1)
  }

  /** The scenarios found so far and the number of patch comparisons made. */
  datatype Scan = Scan(found: seq<CherryPickScenario>, comparisons: nat)

  /**
   * The comparisons of pivot `g[i]` with targets `g[j..]`: stop at the first matching patch
   * id, or after a non-matching comparison once the clock has passed the timeout. The clock
   * is monotone, so it has passed the timeout exactly from comparison number `deadline` on.
   */
  function ScanTargets(repo: Repo, same: (Hash, Hash) -> bool, deadline: nat, g: seq<Hash>, i: nat, j: nat, s: Scan): (r: Scan)
    requires i < |g| && forall k :: 0 <= k < |g| ==> g[k] in repo
    ensures |s.found| <= |r.found| <= |s.found| + 1 && r.found[..|s.found|] == s.found
    ensures s.comparisons <= r.comparisons
    decreases |g| - j
  {
    if j >= |g| then s
    else
      var made := s.comparisons + 1;
      if same(g[i], g[j]) then Scan(s.found + AppendCherryPick(repo, g[i], g[j]), made)
      else if made >= deadline then Scan(s.found, made)
      else ScanTargets(repo, same, deadline, g, i, j + 1, Scan(s.found, made))
  }

  /** A comparison that misses before the deadline moves on to the next target. */
  lemma ScanTargetsMiss(repo: Repo, same: (Hash, Hash) -> bool, deadline: nat, g: seq<Hash>, i: nat, j: nat, s: Scan)
    requires i < j < |g| && forall k :: 0 <= k < |g| ==> g[k] in repo
    requires !same(g[i], g[j]) && s.comparisons + 1 < deadline
    ensures ScanTargets(repo, same, deadline, g, i, j, s) == ScanTargets(repo, same, deadline, g, i, j + 1, Scan(s.found, s.comparisons + 1))
  {
  }

  /** Every pivot of the group in turn, each against the commits after it. */
  function ScanPivots(repo: Repo, same: (Hash, Hash) -> bool, deadline: nat, g: seq<Hash>, i: nat, s: Scan): (r: Scan)
    requires forall k :: 0 <= k < |g| ==> g[k] in repo
    ensures |s.found| <= |r.found| && r.found[..|s.found|] == s.found
    ensures |r.found| <= |s.found| + (if i < |g| then |g| - 1 - i else 0)
    decreases |g| - i
  {
    if i >= |g| then s
    else
      var t := ScanTargets(repo, same, deadline, g, i, i + 1, s);
      assert i + 1 >= |g| ==> t == s;
      var r := ScanPivots(repo, same, deadline, g, i + 1, t);
      assert r.found[..|s.found|] == r.found[..|t.found|][..|s.found|];
      r
  }

  /** The largest group. */
  function MaxSize(groups: seq<seq<Hash>>): (m: nat)
    ensures forall k :: 0 <= k < |groups| ==> |groups[k]| <= m
    decreases |groups|
  {
    if |groups| == 0 then 0
    else
      var rest := MaxSize(groups[1..]);
      assert forall k :: 1 <= k < |groups| ==> groups[k] == groups[1..][k - 1];
      if |groups[0]| > rest then |groups[0]| else rest
  }

  /** The groups from `k` on, stopping after the first group that brings the total to 50. */
  function ScanGroups(repo: Repo, same: (Hash, Hash) -> bool, deadline: nat, groups: seq<seq<Hash>>, k: nat, s: Scan): (r: Scan)
    requires InRepo(repo, groups)
    ensures |s.found| <= |r.found| && r.found[..|s.found|] == s.found
    decreases |groups| - k
  {
    if k >= |groups| then s
    else
      var t := ScanPivots(repo, same, deadline, groups[k], 0, s);
      if |t.found| >= 50 then t
      else
        var r := ScanGroups(repo, same, deadline, groups, k + 1, t);
        assert r.found[..|s.found|] == r.found[..|t.found|][..|s.found|];
        r
  }

  /** The same pass without the stop at 50. */
  function ScanAllGroups(repo: Repo, same: (Hash, Hash) -> bool, deadline: nat, groups: seq<seq<Hash>>, k: nat, s: Scan): (r: Scan)
    requires InRepo(repo, groups)
    ensures |s.found| <= |r.found|
    decreases |groups| - k
  {
    if k >= |groups| then s
    else ScanAllGroups(repo, same, deadline, groups, k + 1, ScanPivots(repo, same, deadline, groups[k], 0, s))
  }

  /** `_mine_commits_with_duplicate_messages_for_cherry_pick_scenarios`. */
  /** The groups of commits sharing a message, smallest first; all of their commits are in the repository. */
  function SortedGroups(repo: Repo, seen: MessageIndex): (sorted: seq<seq<Hash>>)
    requires forall i, k :: 0 <= i < |seen| && 0 <= k < |seen[i].value| ==> seen[i].value[k] in repo
    ensures multiset(sorted) == multiset(DuplicateGroups(seen))
    ensures InRepo(repo, sorted)
  {
    var groups := DuplicateGroups(seen);
    var sorted := SortBySize(groups);
    assert InRepo(repo, sorted) by {
      forall k, i | 0 <= k < |sorted| && 0 <= i < |sorted[k]|
        ensures sorted[k][i] in repo
      {
        assert sorted[k] in multiset(groups);
        assert sorted[k] in groups;
      }
    }
    sorted
  }

  function Mine(repo: Repo, sha1: string -> string, deadline: nat, seen: MessageIndex): seq<CherryPickScenario>
    requires forall i, k :: 0 <= i < |seen| && 0 <= k < |seen[i].value| ==> seen[i].value[k] in repo
  {
    if |DuplicateGroups(seen)| == 0 then []
    else ScanGroups(repo, SamePatch(repo, sha1), deadline, SortedGroups(repo, seen), 0, Scan([], 0)).found
  }

  // ---------------------------------------------------------------- properties of the pass

  /** A scenario found by comparing a pivot with a later commit of the same group whose patch id matches. */
  predicate FoundIn(repo: Repo, same: (Hash, Hash) -> bool, g: seq<Hash>, x: CherryPickScenario)
    requires forall k :: 0 <= k < |g| ==> g[k] in repo
  {
    exists i, j :: 0 <= i < j < |g| && same(g[i], g[j]) && x in AppendCherryPick(repo, g[i], g[j])
  }

  lemma {:induction false} ScanTargetsSound(repo: Repo, same: (Hash, Hash) -> bool, deadline: nat, g: seq<Hash>, i: nat, j: nat, s: Scan)
    requires i < j && i < |g| && forall k :: 0 <= k < |g| ==> g[k] in repo
    ensures forall x :: x in ScanTargets(repo, same, deadline, g, i, j, s).found ==> x in s.found || FoundIn(repo, same, g, x)
    decreases |g| - j
  {
    if j < |g| {
      var made := s.comparisons + 1;
      if same(g[i], g[j]) {
        forall x | x in AppendCherryPick(repo, g[i], g[j])
          ensures FoundIn(repo, same, g, x)
        {
          assert 0 <= i < j < |g| && same(g[i], g[j]) && x in AppendCherryPick(repo, g[i], g[j]);
        }
      } else if made < deadline {
        ScanTargetsSound(repo, same, deadline, g, i, j + 1, Scan(s.found, made));
      }
    }
  }

  lemma {:induction false} ScanPivotsSound(repo: Repo, same: (Hash, Hash) -> bool, deadline: nat, g: seq<Hash>, i: nat, s: Scan)
    requires forall k :: 0 <= k < |g| ==> g[k] in repo
    ensures forall x :: x in ScanPivots(repo, same, deadline, g, i, s).found ==> x in s.found || FoundIn(repo, same, g, x)
    decreases |g| - i
  {
    if i < |g| {
      var t := ScanTargets(repo, same, deadline, g, i, i + 1, s);
      ScanTargetsSound(repo, same, deadline, g, i, i + 1, s);
      ScanPivotsSound(repo, same, deadline, g, i + 1, t);
    }
  }

  lemma {:induction false} ScanGroupsSound(repo: Repo, same: (Hash, Hash) -> bool, deadline: nat, groups: seq<seq<Hash>>, k: nat, s: Scan)
    requires InRepo(repo, groups)
    ensures forall x :: x in ScanGroups(repo, same, deadline, groups, k, s).found ==>
      x in s.found || exists m :: 0 <= m < |groups| && FoundIn(repo, same, groups[m], x)
    decreases |groups| - k
  {
    if k < |groups| {
      var t := ScanPivots(repo, same, deadline, groups[k], 0, s);
      ScanPivotsSound(repo, same, deadline, groups[k], 0, s);
      if |t.found| < 50 {
        ScanGroupsSound(repo, same, deadline, groups, k + 1, t);
      }
    }
  }

  /** A mined scenario comes from one of the duplicate groups. */
  lemma MinedFromGroup(repo: Repo, sha1: string -> string, deadline: nat, seen: MessageIndex, x: CherryPickScenario)
    returns (g: seq<Hash>)
    requires forall i, k :: 0 <= i < |seen| && 0 <= k < |seen[i].value| ==> seen[i].value[k] in repo
    requires x in Mine(repo, sha1, deadline, seen)
    ensures g in DuplicateGroups(seen) && (forall k :: 0 <= k < |g| ==> g[k] in repo) && FoundIn(repo, SamePatch(repo, sha1), g, x)
  {
    var groups := DuplicateGroups(seen);
    var sorted := SortBySize(groups);
    assert InRepo(repo, sorted) by {
      forall k, i | 0 <= k < |sorted| && 0 <= i < |sorted[k]|
        ensures sorted[k][i] in repo
      {
        assert sorted[k] in multiset(groups);
      }
    }
    ScanGroupsSound(repo, SamePatch(repo, sha1), deadline, sorted, 0, Scan([], 0));
    var m :| 0 <= m < |sorted| && FoundIn(repo, SamePatch(repo, sha1), sorted[m], x);
    g := sorted[m];
    assert g in multiset(groups);
  }

  /**
   * Every mined scenario pairs two commits indexed under the same message whose patch ids
   * match; the cherry was committed before the pick, and the scenario carries the pick's parents.
   */
  lemma MineSound(repo: Repo, sha1: string -> string, deadline: nat, seen: MessageIndex, x: CherryPickScenario)
    requires forall i, k :: 0 <= i < |seen| && 0 <= k < |seen[i].value| ==> seen[i].value[k] in repo
    requires x in Mine(repo, sha1, deadline, seen)
    ensures exists i :: 0 <= i < |seen| && x.cherryCommit in seen[i].value && x.cherryPickCommit in seen[i].value
    ensures x.cherryCommit in repo && x.cherryPickCommit in repo
    ensures PatchIdsMatch(repo[x.cherryCommit], repo[x.cherryPickCommit], sha1)
    ensures repo[x.cherryCommit].committedAt < repo[x.cherryPickCommit].committedAt
    ensures x.parents == repo[x.cherryPickCommit].parents
  {
    var g := MinedFromGroup(repo, sha1, deadline, seen, x);
    var a, b :| 0 <= a < b < |g| && SamePatch(repo, sha1)(g[a], g[b]) && x in AppendCherryPick(repo, g[a], g[b]);
    var i :| 0 <= i < |seen| && seen[i].value == g && |g| > 1;
    assert g[a] in seen[i].value && g[b] in seen[i].value;
    if x.cherryCommit == g[a] {
      assert x.cherryPickCommit == g[b];
    } else {
      assert x.cherryCommit == g[b] && x.cherryPickCommit == g[a];
    }
  }

  /** Each pivot adds at most one scenario, so a group of `n` commits adds at most `n - 1`. */
  lemma ScanGroupBound(repo: Repo, same: (Hash, Hash) -> bool, deadline: nat, g: seq<Hash>, s: Scan)
    requires |g| >= 1 && forall k :: 0 <= k < |g| ==> g[k] in repo
    ensures |ScanPivots(repo, same, deadline, g, 0, s).found| <= |s.found| + |g| - 1
  {
  }

  /** The stop at 50 comes only after a whole group, so fewer than 50 + the largest group size are ever found. */
  lemma {:induction false} ScanGroupsBound(repo: Repo, same: (Hash, Hash) -> bool, deadline: nat, groups: seq<seq<Hash>>, k: nat, s: Scan)
    requires InRepo(repo, groups) && |s.found| < 50
    ensures |ScanGroups(repo, same, deadline, groups, k, s).found| < 50 + MaxSize(groups)
    decreases |groups| - k
  {
    if k < |groups| {
      var t := ScanPivots(repo, same, deadline, groups[k], 0, s);
      assert |groups[k]| <= MaxSize(groups);
      if |t.found| < 50 {
        ScanGroupsBound(repo, same, deadline, groups, k + 1, t);
      }
    }
  }

  /** When fewer than 50 scenarios are found, the stop never fired: every group was scanned. */
  lemma {:induction false} ScanGroupsStopOnlyAtFifty(repo: Repo, same: (Hash, Hash) -> bool, deadline: nat, groups: seq<seq<Hash>>, k: nat, s: Scan)
    requires InRepo(repo, groups)
    requires |ScanGroups(repo, same, deadline, groups, k, s).found| < 50
    ensures ScanGroups(repo, same, deadline, groups, k, s) == ScanAllGroups(repo, same, deadline, groups, k, s)
    decreases |groups| - k
  {
    if k < |groups| {
      var t := ScanPivots(repo, same, deadline, groups[k], 0, s);
      ScanGroupsStopOnlyAtFifty(repo, same, deadline, groups, k + 1, t);
    }
  }

  /** The first target at or after `j` whose patch id matches the pivot's. */
  function FirstMatch(repo: Repo, same: (Hash, Hash) -> bool, g: seq<Hash>, i: nat, j: nat): (m: Option<nat>)
    requires i < |g| && forall k :: 0 <= k < |g| ==> g[k] in repo
    ensures m.Some? ==> j <= m.value < |g|
    decreases |g| - j
  {
    if j >= |g| then None
    else if same(g[i], g[j]) then Some(j)
    else FirstMatch(repo, same, g, i, j + 1)
  }

  /** The match found is the first one: every target before it, or every target when none is found, differs. */
  lemma {:induction false} FirstMatchIsFirst(repo: Repo, same: (Hash, Hash) -> bool, g: seq<Hash>, i: nat, j: nat)
    requires i < |g| && forall k :: 0 <= k < |g| ==> g[k] in repo
    ensures var m := FirstMatch(repo, same, g, i, j);
      (m.Some? ==> same(g[i], g[m.value])
                   && forall k :: j <= k < m.value ==> !same(g[i], g[k]))
      && (m.None? ==> forall k :: j <= k < |g| ==> !same(g[i], g[k]))
    decreases |g| - j
  {
    if j < |g| && !same(g[i], g[j]) {
      FirstMatchIsFirst(repo, same, g, i, j + 1);
    }
  }

  /**
   * Before the timeout a pivot is paired with its first matching later commit only: the
   * targets after that match are never compared.
   */
  lemma {:induction false} ScanTargetsFirstMatch(repo: Repo, same: (Hash, Hash) -> bool, deadline: nat, g: seq<Hash>, i: nat, j: nat, s: Scan)
    requires i < |g| && forall k :: 0 <= k < |g| ==> g[k] in repo
    requires s.comparisons + (|g| - j) < deadline
    ensures ScanTargets(repo, same, deadline, g, i, j, s).found ==
      match FirstMatch(repo, same, g, i, j)
      case None => s.found
      case Some(m) => s.found + AppendCherryPick(repo, g[i], g[m])
    decreases |g| - j
  {
    if j < |g| {
      var made := s.comparisons + 1;
      if same(g[i], g[j]) {
        assert FirstMatch(repo, same, g, i, j) == Some(j);
      } else {
        var next := Scan(s.found, made);
        assert ScanTargets(repo, same, deadline, g, i, j, s) == ScanTargets(repo, same, deadline, g, i, j + 1, next);
        assert FirstMatch(repo, same, g, i, j) == FirstMatch(repo, same, g, i, j + 1);
        ScanTargetsFirstMatch(repo, same, deadline, g, i, j + 1, next);
      }
    }
  }
}
