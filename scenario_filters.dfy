/**
 * The mappers that filter the scenario lists of a repository row: the cherry-pick filter of
 * `ErrorFilteringMapper`, `SelectOnlyMergeScenariosWithConflictsMapper` and
 * `SelectMergeScenariosWithExactlyTwoParents`. A mapper's output is the sequence of rows it
 * yields; an exception that escapes it is an `Err`.
 */
module ScenarioFilters {
  import opened Results
  import opened Dicts
  import opened Scenarios

  // ---------------------------------------------------------------------------------------
  // ErrorFilteringMapper
  // ---------------------------------------------------------------------------------------

  /**
   * `ErrorFilteringMapper` as written: a row without cherry-pick scenarios is yielded at once,
   * and the generator then goes on, so the same row is yielded a second time (with its
   * cherry-pick column rewritten to the empty list) unless it carries an error.
   */
  function ErrorFilterAsWritten(row: RepositoryRow): (r: Result<seq<RepositoryRow>>)
    ensures r.Ok? ==> |r.value| <= 2
  {
    var parsed := Parse(row.cherryPickScenarios);
    var early := if |parsed| == 0 then [row] else [];
    match KeepWithParents(parsed, 1)
    case Err(e) => Err(e)
    case Ok(kept) => Ok(early + (if HasError(row) then [] else [row.(cherryPickScenarios := Listed(kept))]))
  }

  /** Every repository without cherry-pick scenarios and without an error is emitted twice. */
  lemma ErrorFilterAsWrittenYieldsTwice(row: RepositoryRow)
    requires Parse(row.cherryPickScenarios) == [] && !HasError(row)
    ensures ErrorFilterAsWritten(row).Ok?
    ensures |ErrorFilterAsWritten(row).value| == 2
    ensures ErrorFilterAsWritten(row).value[0].name == ErrorFilterAsWritten(row).value[1].name == row.name
  {
  }

  /**
   * `ErrorFilteringMapper` with the missing `return` after the early yield: each repository
   * is emitted at most once. A row with cherry-pick scenarios is dropped when it carries an
   * error and otherwise keeps exactly its single-parent cherry-picks, in order.
   */
  function ErrorFilter(row: RepositoryRow): (r: Result<seq<RepositoryRow>>)
    ensures r.Ok? <==> forall k :: 0 <= k < |Parse(row.cherryPickScenarios)| ==> ParentCount(Parse(row.cherryPickScenarios)[k]).Ok?
    ensures r.Err? ==> exists k :: 0 <= k < |Parse(row.cherryPickScenarios)| && ParentCount(Parse(row.cherryPickScenarios)[k]) == Err(r.error)
    ensures r.Ok? ==> |r.value| <= 1
    ensures r.Ok? && Parse(row.cherryPickScenarios) == [] ==> r.value == [row]
    ensures r.Ok? && Parse(row.cherryPickScenarios) != [] ==> (r.value == [] <==> HasError(row))
    ensures r.Ok? && |r.value| == 1 ==> r.value[0] == row.(cherryPickScenarios := r.value[0].cherryPickScenarios)
    ensures r.Ok? && |r.value| == 1 ==>
      forall s :: s in Parse(r.value[0].cherryPickScenarios) <==> s in Parse(row.cherryPickScenarios) && ParentCount(s) == Ok(1)
  {
    var parsed := Parse(row.cherryPickScenarios);
    KeepWithParentsOk(parsed, 1);
    if |parsed| == 0 then Ok([row])
    else
      match KeepWithParents(parsed, 1)
      case Err(e) =>
        assert exists k :: 0 <= k < |parsed| && ParentCount(parsed[k]) == Err(e) by {
          var k := KeepWithParentsFirstErr(parsed, 1);
        }
        Err(e)
      case Ok(kept) =>
        assert forall s :: s in kept <==> s in parsed && ParentCount(s) == Ok(1) by {
          forall s
            ensures s in kept <==> s in parsed && ParentCount(s) == Ok(1)
          {
            KeepWithParentsMembers(parsed, 1, s);
          }
        }
        Ok(if HasError(row) then [] else [row.(cherryPickScenarios := Listed(kept))])
  }

  /** The error of a failing comprehension is that of one of its scenarios. */
  lemma {:induction false} KeepWithParentsFirstErr(scenarios: seq<Scenario>, n: nat) returns (k: nat)
    requires KeepWithParents(scenarios, n).Err?
    ensures k < |scenarios| && ParentCount(scenarios[k]) == Err(KeepWithParents(scenarios, n).error)
    decreases |scenarios|
  {
    if ParentCount(scenarios[0]).Err? {
      k := 0;
    } else {
      var j := KeepWithParentsFirstErr(scenarios[1..], n);
      k := j + 1;
    }
  }

  /**
   * The corrected mapper emits the first row the mapper as written emits and drops only the
   * duplicate: the two differ exactly on rows without cherry-pick scenarios and without error.
   */
  lemma ErrorFilterDropsOnlyTheDuplicate(row: RepositoryRow)
    ensures ErrorFilter(row).Ok? <==> ErrorFilterAsWritten(row).Ok?
    ensures ErrorFilter(row).Ok? ==>
      |ErrorFilter(row).value| <= |ErrorFilterAsWritten(row).value| &&
      ErrorFilter(row).value == ErrorFilterAsWritten(row).value[..|ErrorFilter(row).value|]
    ensures ErrorFilter(row).Ok? ==>
      (|ErrorFilter(row).value| < |ErrorFilterAsWritten(row).value| <==> Parse(row.cherryPickScenarios) == [] && !HasError(row))
  {
    KeepWithParentsOk(Parse(row.cherryPickScenarios), 1);
  }

  // ---------------------------------------------------------------------------------------
  // SelectOnlyMergeScenariosWithConflictsMapper
  // ---------------------------------------------------------------------------------------

  /** `'has_conflict' in s and s['has_conflict']`. */
  predicate MarkedConflicted(s: Scenario) {
    HasKey(s, "has_conflict") && Truthy(Get(s, "has_conflict"))
  }

  /**
   * The merge scenarios marked as conflicted, in order, each without its `had_conflicts`
   * entry; deleting a missing `had_conflicts` raises `KeyError` at the first such scenario.
   */
  function ConflictedMerges(scenarios: seq<Scenario>): Result<seq<Scenario>>
    decreases |scenarios|
  {
    if |scenarios| == 0 then Ok([])
    else
      match ConflictedMerges(scenarios[..|scenarios| - 1])
      case Err(e) => Err(e)
      case Ok(front) =>
        var s := scenarios[|scenarios| - 1];
        if !MarkedConflicted(s) then Ok(front)
        else if HasKey(s, "had_conflicts") then Ok(front + [Remove(s, "had_conflicts")])
        else Err(KeyError("had_conflicts"))
  }

  /**
   * `SelectOnlyMergeScenariosWithConflictsMapper`: the one row it yields keeps only the
   * conflicted merge scenarios, stripped of `had_conflicts`; a row without merge scenarios
   * passes unchanged.
   */
  method SelectConflictedMerges(row: RepositoryRow) returns (r: Result<RepositoryRow>)
    ensures Parse(row.mergeScenarios) == [] ==> r == Ok(row)
    ensures Parse(row.mergeScenarios) != [] ==>
      (r.Ok? <==> ConflictedMerges(Parse(row.mergeScenarios)).Ok?) &&
      (r.Ok? ==> r.value == row.(mergeScenarios := Listed(ConflictedMerges(Parse(row.mergeScenarios)).value))) &&
      (r.Err? ==> r.error == ConflictedMerges(Parse(row.mergeScenarios)).error)
  {
    var parsed := Parse(row.mergeScenarios);
    if parsed == [] {
      return Ok(row);
    }
    var withConflicts: seq<Scenario> := [];
    var i := 0;
    while i < |parsed|
      invariant 0 <= i <= |parsed|
      invariant ConflictedMerges(parsed[..i]) == Ok(withConflicts)
    {
      var s := parsed[i];
      assert parsed[..i + 1][..i] == parsed[..i];
      if MarkedConflicted(s) {
        if !HasKey(s, "had_conflicts") {
          ConflictedMergesErrStays(parsed[..i + 1], parsed[i + 1..]);
          assert parsed[..i + 1] + parsed[i + 1..] == parsed;
          return Err(KeyError("had_conflicts"));
        }
        withConflicts := withConflicts + [Remove(s, "had_conflicts")];
      }
      i := i + 1;
    }
    assert parsed[..i] == parsed;
    return Ok(row.(mergeScenarios := Listed(withConflicts)));
  }

  /** Once a prefix has raised, the whole list raises the same error. */
  lemma {:induction false} ConflictedMergesErrStays(a: seq<Scenario>, b: seq<Scenario>)
    requires ConflictedMerges(a).Err?
    ensures ConflictedMerges(a + b) == ConflictedMerges(a)
    decreases |b|
  {
    if |b| == 0 {
      assert a + b == a;
    } else {
      ConflictedMergesErrStays(a, b[..|b| - 1]);
      assert (a + b)[..|a + b| - 1] == a + b[..|b| - 1];
    }
  }

  /** The filter succeeds exactly when every conflicted scenario still has its `had_conflicts` entry. */
  lemma {:induction false} ConflictedMergesOk(scenarios: seq<Scenario>)
    ensures ConflictedMerges(scenarios).Ok? <==>
      forall k :: 0 <= k < |scenarios| && MarkedConflicted(scenarios[k]) ==> HasKey(scenarios[k], "had_conflicts")
    ensures ConflictedMerges(scenarios).Err? ==> ConflictedMerges(scenarios).error == KeyError("had_conflicts")
    decreases |scenarios|
  {
    if |scenarios| > 0 {
      var front := scenarios[..|scenarios| - 1];
      ConflictedMergesOk(front);
      assert forall k :: 0 <= k < |front| ==> front[k] == scenarios[k];
    }
  }

  /** A scenario is kept exactly when it is a conflicted input scenario with `had_conflicts` deleted. */
  lemma {:induction false} ConflictedMergesMembers(scenarios: seq<Scenario>, s: Scenario)
    requires ConflictedMerges(scenarios).Ok?
    ensures s in ConflictedMerges(scenarios).value <==>
      exists k :: 0 <= k < |scenarios| && MarkedConflicted(scenarios[k]) && HasKey(scenarios[k], "had_conflicts")
                  && s == Remove(scenarios[k], "had_conflicts")
    decreases |scenarios|
  {
    if |scenarios| > 0 {
      var n := |scenarios| - 1;
      var front := scenarios[..n];
      ConflictedMergesMembers(front, s);
      assert forall k :: 0 <= k < n ==> front[k] == scenarios[k];
    }
  }

  /** Filtering a concatenation filters each part, so the kept scenarios keep their order. */
  lemma {:induction false} ConflictedMergesAppend(a: seq<Scenario>, b: seq<Scenario>)
    requires ConflictedMerges(a).Ok? && ConflictedMerges(b).Ok?
    ensures ConflictedMerges(a + b) == Ok(ConflictedMerges(a).value + ConflictedMerges(b).value)
    decreases |b|
  {
    if |b| == 0 {
      assert a + b == a;
      assert ConflictedMerges(a).value + [] == ConflictedMerges(a).value;
    } else {
      var front := b[..|b| - 1];
      ConflictedMergesOkPrefix(b);
      ConflictedMergesAppend(a, front);
      assert (a + b)[..|a + b| - 1] == a + front;
      assert (a + b)[|a + b| - 1] == b[|b| - 1];
      var x := ConflictedMerges(a).value;
      var y := ConflictedMerges(front).value;
      assert forall z :: x + y + z == x + (y + z);
    }
  }

  /** A list that does not raise has a prefix that does not raise. */
  lemma ConflictedMergesOkPrefix(b: seq<Scenario>)
    requires |b| > 0 && ConflictedMerges(b).Ok?
    ensures ConflictedMerges(b[..|b| - 1]).Ok?
  {
  }

  /**
   * With distinct keys in every scenario, each kept scenario is marked conflicted and has no
   * `had_conflicts` entry left.
   */
  lemma ConflictedMergesStripped(scenarios: seq<Scenario>, s: Scenario)
    requires ConflictedMerges(scenarios).Ok? && s in ConflictedMerges(scenarios).value
    requires forall k :: 0 <= k < |scenarios| ==> DistinctKeys(scenarios[k])
    ensures MarkedConflicted(s) && !HasKey(s, "had_conflicts")
  {
    ConflictedMergesMembers(scenarios, s);
    var k :| 0 <= k < |scenarios| && MarkedConflicted(scenarios[k]) && HasKey(scenarios[k], "had_conflicts")
             && s == Remove(scenarios[k], "had_conflicts");
    RemoveGone(scenarios[k], "had_conflicts");
    RemoveOther(scenarios[k], "had_conflicts", "has_conflict");
  }

  // ---------------------------------------------------------------------------------------
  // SelectMergeScenariosWithExactlyTwoParents
  // ---------------------------------------------------------------------------------------

  /**
   * `SelectMergeScenariosWithExactlyTwoParents`: the one row it yields keeps exactly the merge
   * scenarios with two parents, in order; nothing else in the row changes.
   */
  function SelectTwoParentMerges(row: RepositoryRow): (r: Result<RepositoryRow>)
    ensures Parse(row.mergeScenarios) == [] ==> r == Ok(row)
    ensures r.Ok? <==> forall k :: 0 <= k < |Parse(row.mergeScenarios)| ==> ParentCount(Parse(row.mergeScenarios)[k]).Ok?
    ensures r.Ok? ==> r.value == row.(mergeScenarios := r.value.mergeScenarios)
    ensures r.Ok? ==>
      forall s :: s in Parse(r.value.mergeScenarios) <==> s in Parse(row.mergeScenarios) && ParentCount(s) == Ok(2)
  {
    var parsed := Parse(row.mergeScenarios);
    KeepWithParentsOk(parsed, 2);
    if parsed == [] then Ok(row)
    else
      match KeepWithParents(parsed, 2)
      case Err(e) => Err(e)
      case Ok(kept) =>
        assert forall s :: s in kept <==> s in parsed && ParentCount(s) == Ok(2) by {
          forall s
            ensures s in kept <==> s in parsed && ParentCount(s) == Ok(2)
          {
            KeepWithParentsMembers(parsed, 2, s);
          }
        }
        Ok(row.(mergeScenarios := Listed(kept)))
  }

  /** Running the two-parent filter on its own output changes nothing. */
  lemma SelectTwoParentMergesIdempotent(row: RepositoryRow)
    requires SelectTwoParentMerges(row).Ok?
    ensures SelectTwoParentMerges(SelectTwoParentMerges(row).value) == SelectTwoParentMerges(row)
  {
    var parsed := Parse(row.mergeScenarios);
    if parsed != [] {
      KeepWithParentsIdempotent(parsed, 2);
    }
  }
}
