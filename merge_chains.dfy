/**
 * The merge-in-chain walk of `RemoveFileCommitGramScenariosWithMergesMapper`: from the newest
 * commit of a file-commit gram it follows first parents for as many commits as the gram
 * spans and drops the gram when one of them is a merge.
 */
module MergeChains {
  import opened Results
  import opened Dicts
  import opened Repository
  import opened Scenarios

  /**
   * The walk as written: at each of the `times - i` remaining steps a missing commit raises
   * `ValueError`, a merge ends the walk, and otherwise the walk moves to the first parent,
   * which raises `IndexError` on a root commit, even after the last commit of the chain.
   */
  function ChainWalk(repo: Repo, commit: Hash, i: int, times: int): Result<bool>
    decreases times - i
  {
    if i >= times then Ok(false)
    else if commit !in repo then Err(ValueError)
    else if |repo[commit].parents| > 1 then Ok(true)
    else if |repo[commit].parents| == 0 then Err(IndexError)
    else ChainWalk(repo, repo[commit].parents[0], i + 1, times)
  }

  /** The `while i < times_seen_consecutively` loop, from the gram's newest commit. */
  method WalkChain(repo: Repo, first: Hash, times: int) returns (r: Result<bool>)
    ensures r == ChainWalk(repo, first, 0, times)
  {
    var commit := first;
    var hasMergeCommit := false;
    var i := 0;
    while i < times
      invariant 0 <= i
      invariant ChainWalk(repo, commit, i, times) == ChainWalk(repo, first, 0, times)
      decreases times - i
    {
      if commit !in repo {
        return Err(ValueError);
      }
      if |repo[commit].parents| > 1 {
        hasMergeCommit := true;
        break;
      }
      if |repo[commit].parents| == 0 {
        return Err(IndexError);
      }
      commit := repo[commit].parents[0];
      i := i + 1;
    }
    return Ok(hasMergeCommit);
  }

  /** Every gram whose oldest commit is a root commit and which has no merge fails the walk as written. */
  lemma ChainWalkFailsAtRoot(repo: Repo, commit: Hash)
    requires commit in repo && |repo[commit].parents| == 0
    ensures ChainWalk(repo, commit, 0, 1) == Err(IndexError)
  {
  }

  /** The `k`-th commit along first parents, if the chain reaches that far. */
  function Ancestor(repo: Repo, commit: Hash, k: nat): Option<Hash>
    decreases k
  {
    if k == 0 then Some(commit)
    else if commit in repo && |repo[commit].parents| > 0 then Ancestor(repo, repo[commit].parents[0], k - 1)
    else None
  }

  /** The `k`-th commit along first parents is a merge commit. */
  predicate MergeAt(repo: Repo, commit: Hash, k: nat) {
    Ancestor(repo, commit, k).Some? && Ancestor(repo, commit, k).value in repo
    && |repo[Ancestor(repo, commit, k).value].parents| > 1
  }

  /** The `k`-th commit along first parents exists and has at most one parent. */
  predicate LinearAt(repo: Repo, commit: Hash, k: nat) {
    Ancestor(repo, commit, k).Some? && Ancestor(repo, commit, k).value in repo
    && |repo[Ancestor(repo, commit, k).value].parents| <= 1
  }

  /**
   * The walk with the move to the first parent skipped after the last commit of the chain:
   * only the `times - i` commits of the chain are looked at.
   */
  function MergeInChain(repo: Repo, commit: Hash, i: int, times: int): Result<bool>
    decreases times - i
  {
    if i >= times then Ok(false)
    else if commit !in repo then Err(ValueError)
    else if |repo[commit].parents| > 1 then Ok(true)
    else if i + 1 == times then Ok(false)
    else if |repo[commit].parents| == 0 then Err(IndexError)
    else MergeInChain(repo, repo[commit].parents[0], i + 1, times)
  }

  /**
   * The corrected walk finds a merge exactly when one of the `times - i` commits of the chain
   * is a merge, and reports no merge exactly when all of them exist and have one parent at most.
   */
  lemma {:induction false} MergeInChainExact(repo: Repo, commit: Hash, i: int, times: int)
    requires 0 <= i
    ensures MergeInChain(repo, commit, i, times) == Ok(true) <==>
      exists k: nat :: i + k < times && MergeAt(repo, commit, k) && forall j: nat :: j < k ==> LinearAt(repo, commit, j)
    ensures MergeInChain(repo, commit, i, times) == Ok(false) <==>
      forall k: nat :: i + k < times ==> LinearAt(repo, commit, k)
    decreases times - i
  {
    if i < times && commit in repo && |repo[commit].parents| == 1 && i + 1 < times {
      var p := repo[commit].parents[0];
      MergeInChainExact(repo, p, i + 1, times);
      assert forall k: nat :: Ancestor(repo, commit, k + 1) == Ancestor(repo, p, k);
      assert forall k: nat :: MergeAt(repo, commit, k + 1) == MergeAt(repo, p, k);
      assert forall k: nat :: LinearAt(repo, commit, k + 1) == LinearAt(repo, p, k);
      assert LinearAt(repo, commit, 0) && !MergeAt(repo, commit, 0);
      if MergeInChain(repo, commit, i, times) == Ok(true) {
        var k: nat :| i + 1 + k < times && MergeAt(repo, p, k) && forall j: nat :: j < k ==> LinearAt(repo, p, j);
        assert forall j: nat :: j < k + 1 ==> LinearAt(repo, commit, j) by {
          forall j: nat | j < k + 1
            ensures LinearAt(repo, commit, j)
          {
            if j > 0 {
              assert LinearAt(repo, p, j - 1);
            }
          }
        }
        assert MergeAt(repo, commit, k + 1);
      }
      if exists k: nat :: i + k < times && MergeAt(repo, commit, k) && forall j: nat :: j < k ==> LinearAt(repo, commit, j) {
        var k: nat :| i + k < times && MergeAt(repo, commit, k) && forall j: nat :: j < k ==> LinearAt(repo, commit, j);
        assert k > 0;
        assert forall j: nat :: j < k - 1 ==> LinearAt(repo, p, j) by {
          forall j: nat | j < k - 1
            ensures LinearAt(repo, p, j)
          {
            assert LinearAt(repo, commit, j + 1);
          }
        }
        assert MergeAt(repo, p, k - 1);
      }
      if forall k: nat :: i + k < times ==> LinearAt(repo, commit, k) {
        forall k: nat | i + 1 + k < times
          ensures LinearAt(repo, p, k)
        {
          assert LinearAt(repo, commit, k + 1);
        }
      }
      if forall k: nat :: i + 1 + k < times ==> LinearAt(repo, p, k) {
        forall k: nat | i + k < times
          ensures LinearAt(repo, commit, k)
        {
          if k > 0 {
            assert LinearAt(repo, p, k - 1);
          }
        }
      }
    } else if i < times && commit in repo && |repo[commit].parents| > 1 {
      assert MergeAt(repo, commit, 0);
      assert !LinearAt(repo, commit, 0);
    } else if i < times && commit !in repo {
      assert !LinearAt(repo, commit, 0) && !MergeAt(repo, commit, 0);
    } else if i < times && |repo[commit].parents| == 0 && i + 1 < times {
      assert Ancestor(repo, commit, 1) == None;
      assert !LinearAt(repo, commit, 1);
      assert forall k: nat :: k > 0 ==> Ancestor(repo, commit, k) == None;
      assert !MergeAt(repo, commit, 0);
    } else if i < times {
      assert LinearAt(repo, commit, 0) && !MergeAt(repo, commit, 0);
    }
  }

  /**
   * The two walks differ only when the chain holds no merge and its last commit is a root
   * commit: the walk as written then raises `IndexError` where the corrected one finds no merge.
   */
  lemma {:induction false} ChainWalkDiffersOnlyAtRoot(repo: Repo, commit: Hash, i: int, times: int)
    requires 0 <= i
    ensures ChainWalk(repo, commit, i, times) != MergeInChain(repo, commit, i, times) ==>
      ChainWalk(repo, commit, i, times) == Err(IndexError) && MergeInChain(repo, commit, i, times) == Ok(false)
    decreases times - i
  {
    if i < times && commit in repo && |repo[commit].parents| == 1 && i + 1 < times {
      ChainWalkDiffersOnlyAtRoot(repo, repo[commit].parents[0], i + 1, times);
    }
  }

  /** `bytes.fromhex(h)`: an even number of hexadecimal digits. */
  predicate IsHex(h: string) {
    |h| % 2 == 0 && forall k :: 0 <= k < |h| ==> h[k] in "0123456789abcdefABCDEF"
  }

  /** A whole number for the loop bound; other values raise `TypeError` in the comparison. */
  function IntValue(v: Value): Result<int> {
    match v
    case Int(i) => Ok(i)
    case _ => Err(TypeError)
  }

  /**
   * What happens to one file-commit gram: `Ok(true)` keeps it, `Ok(false)` drops it (a merge in
   * the chain, or an error the mapper catches) and `Err` is an error that escapes the loop.
   */
  function KeepGram(repo: Repo, s: Scenario): (r: Result<bool>)
    ensures r.Ok? ==> HasKey(s, "first_commit")
    ensures r == Ok(true) ==> Get(s, "first_commit").Str? && HasKey(s, "times_seen_consecutively")
                              && Get(s, "times_seen_consecutively").Int?
  {
    match Lookup(s, "first_commit")
    case Err(e) => Err(e)
    case Ok(first) =>
      if !first.Str? then Err(TypeError)
      else if !IsHex(first.s) then Ok(false)
      else
        match Lookup(s, "times_seen_consecutively")
        case Err(e) => Err(e)
        case Ok(v) =>
          match IntValue(v)
          case Err(e) => Err(e)
          case Ok(times) =>
            match MergeInChain(repo, first.s, 0, times)
            case Ok(merge) => Ok(!merge)
            case Err(_) => Ok(false)
  }

  /** What happens to one gram with the walk as written: as `KeepGram`, but with `ChainWalk`. */
  function KeepGramAsWritten(repo: Repo, s: Scenario): Result<bool> {
    match Lookup(s, "first_commit")
    case Err(e) => Err(e)
    case Ok(first) =>
      if !first.Str? then Err(TypeError)
      else if !IsHex(first.s) then Ok(false)
      else
        match Lookup(s, "times_seen_consecutively")
        case Err(e) => Err(e)
        case Ok(v) =>
          match IntValue(v)
          case Err(e) => Err(e)
          case Ok(times) =>
            match ChainWalk(repo, first.s, 0, times)
            case Ok(merge) => Ok(!merge)
            case Err(_) => Ok(false)
  }

  /**
   * The mapper as written drops more grams than the corrected one, and only those: a gram it
   * drops while the corrected walk keeps it is one whose chain is linear and ends at a root commit.
   */
  lemma KeepGramAsWrittenDropsRootChains(repo: Repo, s: Scenario)
    ensures KeepGramAsWritten(repo, s) != KeepGram(repo, s) ==>
      KeepGramAsWritten(repo, s) == Ok(false) && KeepGram(repo, s) == Ok(true)
      && ChainWalk(repo, Get(s, "first_commit").s, 0, Get(s, "times_seen_consecutively").i) == Err(IndexError)
  {
    if HasKey(s, "first_commit") && Get(s, "first_commit").Str? && IsHex(Get(s, "first_commit").s)
       && HasKey(s, "times_seen_consecutively") && Get(s, "times_seen_consecutively").Int? {
      ChainWalkDiffersOnlyAtRoot(repo, Get(s, "first_commit").s, 0, Get(s, "times_seen_consecutively").i);
    }
  }

  /** A gram is kept exactly when every commit of its chain exists and none is a merge. */
  lemma KeepGramExact(repo: Repo, s: Scenario)
    requires KeepGram(repo, s).Ok?
    ensures KeepGram(repo, s) == Ok(true) <==>
      Get(s, "first_commit").Str? && IsHex(Get(s, "first_commit").s)
      && HasKey(s, "times_seen_consecutively") && Get(s, "times_seen_consecutively").Int?
      && forall k: nat :: k < Get(s, "times_seen_consecutively").i ==> LinearAt(repo, Get(s, "first_commit").s, k)
  {
    var first := Get(s, "first_commit");
    if first.Str? && IsHex(first.s) && HasKey(s, "times_seen_consecutively") && Get(s, "times_seen_consecutively").Int? {
      MergeInChainExact(repo, first.s, 0, Get(s, "times_seen_consecutively").i);
    }
  }

  /** The file-commit grams without a merge in their chain, in order; the first escaping error aborts. */
  function GramsWithoutMerges(repo: Repo, grams: seq<Scenario>): Result<seq<Scenario>>
    decreases |grams|
  {
    if |grams| == 0 then Ok([])
    else
      match KeepGram(repo, grams[0])
      case Err(e) => Err(e)
      case Ok(keep) =>
        match GramsWithoutMerges(repo, grams[1..])
        case Err(e) => Err(e)
        case Ok(rest) => Ok(if keep then [grams[0]] + rest else rest)
  }

  /**
   * The filter does not raise exactly when no gram raises, and then it keeps exactly the
   * grams `KeepGram` keeps.
   */
  lemma {:induction false} GramsWithoutMergesMembers(repo: Repo, grams: seq<Scenario>)
    ensures GramsWithoutMerges(repo, grams).Ok? <==> forall k :: 0 <= k < |grams| ==> KeepGram(repo, grams[k]).Ok?
    ensures GramsWithoutMerges(repo, grams).Ok? ==>
      forall s :: s in GramsWithoutMerges(repo, grams).value <==> s in grams && KeepGram(repo, s) == Ok(true)
    decreases |grams|
  {
    if |grams| > 0 {
      GramsWithoutMergesMembers(repo, grams[1..]);
      assert forall k :: 1 <= k < |grams| ==> grams[k] == grams[1..][k - 1];
      assert forall s :: s in grams <==> s == grams[0] || s in grams[1..];
    }
  }

  /** Filtering one list of grams after another keeps their kept grams one after the other. */
  lemma {:induction false} GramsWithoutMergesAppend(repo: Repo, a: seq<Scenario>, b: seq<Scenario>)
    requires GramsWithoutMerges(repo, a).Ok? && GramsWithoutMerges(repo, b).Ok?
    ensures GramsWithoutMerges(repo, a + b) == Ok(GramsWithoutMerges(repo, a).value + GramsWithoutMerges(repo, b).value)
    decreases |a|
  {
    if |a| == 0 {
      assert a + b == b;
      assert [] + GramsWithoutMerges(repo, b).value == GramsWithoutMerges(repo, b).value;
    } else {
      GramsWithoutMergesCons(repo, a);
      GramsWithoutMergesAppend(repo, a[1..], b);
      ConsOfAppend(a, b);
      var keep := KeepGram(repo, a[0]).value;
      var head := if keep then [a[0]] else [];
      var front := GramsWithoutMerges(repo, a[1..]).value;
      var back := GramsWithoutMerges(repo, b).value;
      GramsWithoutMergesPrepend(repo, a[0], a[1..] + b, keep, front + back);
      assert head + (front + back) == head + front + back;
    }
  }

  /** Filtering a gram before a list decides the gram, then filters the list. */
  lemma GramsWithoutMergesPrepend(repo: Repo, g: Scenario, rest: seq<Scenario>, keep: bool, kept: seq<Scenario>)
    requires KeepGram(repo, g) == Ok(keep) && GramsWithoutMerges(repo, rest) == Ok(kept)
    ensures GramsWithoutMerges(repo, [g] + rest) == Ok((if keep then [g] else []) + kept)
  {
    assert ([g] + rest)[0] == g && ([g] + rest)[1..] == rest;
    assert [] + kept == kept;
  }

  /** `a + b` is the head of `a` before the rest of `a` and `b`. */
  lemma ConsOfAppend(a: seq<Scenario>, b: seq<Scenario>)
    requires |a| > 0
    ensures a + b == [a[0]] + (a[1..] + b)
  {
  }

  /** The first gram is decided, then the rest are filtered. */
  lemma GramsWithoutMergesCons(repo: Repo, grams: seq<Scenario>)
    requires |grams| > 0
    ensures GramsWithoutMerges(repo, grams).Ok? <==> KeepGram(repo, grams[0]).Ok? && GramsWithoutMerges(repo, grams[1..]).Ok?
    ensures GramsWithoutMerges(repo, grams).Ok? ==>
      GramsWithoutMerges(repo, grams) == Ok((if KeepGram(repo, grams[0]).value then [grams[0]] else []) + GramsWithoutMerges(repo, grams[1..]).value)
  {
    assert forall rest: seq<Scenario> :: [] + rest == rest;
  }
}
