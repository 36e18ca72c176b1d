/**
 * The per-sample rules of the dataset pipeline: the project-size classes of
 * `TransformDatasetToOneRowPerSample`, the sample id it builds, the merge-conflict
 * difficulty of `RemoveFileCommitGramScenariosWithAddedFile`, the row predicate of
 * `RefineDatasetCoarse` and the rewrite of `ClarifyDatasetMapper`.
 */
module SampleRules {
  import opened Results
  import opened Text
  import opened Dicts
  import opened Scenarios

  // ---------------------------------------------------------------------------------------
  // Project size
  // ---------------------------------------------------------------------------------------

  datatype ProjectSize = Tiny | Small | Medium | Large | Huge {
    /** The text stored in the `project_size` column. */
    function Name(): string {
      match this
      case Tiny => "tiny"
      case Small => "small"
      case Medium => "medium"
      case Large => "large"
      case Huge => "huge"
    }

    /** The position of the class from the smallest. */
    function Rank(): nat {
      match this
      case Tiny => 0
      case Small => 1
      case Medium => 2
      case Large => 3
      case Huge => 4
    }
  }

  /** The lower bounds, in lines of code, of the classes above `tiny`. */
  const SizeBounds: seq<int> := [1000, 10000, 100000, 1000000]

  /** How many of `bounds` the count reaches. */
  function Reached(codeLines: int, bounds: seq<int>): nat
    decreases |bounds|
  {
    if |bounds| == 0 then 0
    else (if bounds[0] <= codeLines then 1 else 0) + Reached(codeLines, bounds[1..])
  }

  /** `_calculate_project_size`: the class of a project is the number of size bounds its line count reaches. */
  function CalculateProjectSize(codeLines: int): (r: ProjectSize)
    ensures r.Rank() == Reached(codeLines, SizeBounds)
  {
    if codeLines < 1000 then Tiny
    else if codeLines < 10000 then Small
    else if codeLines < 100000 then ProjectSize.Medium
    else if codeLines < 1000000 then Large
    else Huge
  }

  /** A larger count reaches at least the bounds a smaller one reaches. */
  lemma {:induction false} ReachedMonotone(a: int, b: int, bounds: seq<int>)
    requires a <= b
    ensures Reached(a, bounds) <= Reached(b, bounds)
    decreases |bounds|
  {
    if |bounds| > 0 {
      ReachedMonotone(a, b, bounds[1..]);
    }
  }

  /** A project with more lines of code is never in a smaller class. */
  lemma ProjectSizeMonotone(a: int, b: int)
    requires a <= b
    ensures CalculateProjectSize(a).Rank() <= CalculateProjectSize(b).Rank()
  {
    ReachedMonotone(a, b, SizeBounds);
  }

  // ---------------------------------------------------------------------------------------
  // Sample ids
  // ---------------------------------------------------------------------------------------

  /** `f'{n:05d}'`: the decimal digits of `n`, padded with zeros to at least five. */
  function ZeroPadded(n: nat): (r: string)
    ensures |r| >= 5
    ensures forall k :: 0 <= k < |r| ==> '0' <= r[k] <= '9'
  {
    var digits := Decimal(n);
    if |digits| >= 5 then digits else seq(5 - |digits|, _ => '0') + digits
  }

  /** The id `TransformDatasetToOneRowPerSample` gives the `index`-th scenario of kind `kind` of a repository. */
  function SampleId(name: string, kind: string, index: nat): string {
    name + "-" + kind + "-" + ZeroPadded(index)
  }

  /** A string without a separator splits into itself. */
  lemma {:induction false} SplitWithoutSeparator(s: string, sep: char)
    requires forall k :: 0 <= k < |s| ==> s[k] != sep
    ensures Split(s, sep) == [s]
    decreases |s|
  {
    if |s| > 0 {
      SplitWithoutSeparator(s[1..], sep);
      assert [s[0]] + s[1..] == s;
    }
  }

  /** Splitting at a separator splits the two sides separately. */
  lemma {:induction false} SplitAtSeparator(a: string, b: string, sep: char)
    ensures Split(a + [sep] + b, sep) == Split(a, sep) + Split(b, sep)
    decreases |a|
  {
    var s := a + [sep] + b;
    if |a| == 0 {
      assert s == [sep] + b && s[1..] == b;
    } else {
      assert s[0] == a[0] && s[1..] == a[1..] + [sep] + b;
      SplitAtSeparator(a[1..], b, sep);
      assert a == [a[0]] + a[1..];
    }
  }

  /** A sample id splits at `-` into the parts of the repository name, the kind and the index. */
  lemma SampleIdParts(name: string, kind: string, index: nat)
    requires forall k :: 0 <= k < |kind| ==> kind[k] != '-'
    ensures Split(SampleId(name, kind, index), '-') == Split(name, '-') + [kind, ZeroPadded(index)]
  {
    var pad := ZeroPadded(index);
    assert SampleId(name, kind, index) == name + ['-'] + (kind + ['-'] + pad);
    SplitAtSeparator(name, kind + ['-'] + pad, '-');
    SplitAtSeparator(kind, pad, '-');
    SplitWithoutSeparator(kind, '-');
    SplitWithoutSeparator(pad, '-');
  }

  /**
   * The id rewrite of `ClarifyDatasetMapper` as written: the first and the last `-`-separated
   * parts around the new kind.
   */
  function ClarifiedIdAsWritten(id: string): string {
    var parts := Split(id, '-');
    parts[0] + "-" + "file_commit_chain" + "-" + parts[|parts| - 1]
  }

  /**
   * As written, a repository name with a `-` loses everything from its first `-` on, so
   * repositories whose names agree up to their first `-` give their samples the same ids.
   */
  lemma ClarifiedIdAsWrittenTruncates(name: string, kind: string, index: nat)
    requires forall k :: 0 <= k < |kind| ==> kind[k] != '-'
    ensures ClarifiedIdAsWritten(SampleId(name, kind, index))
            == Split(name, '-')[0] + "-" + "file_commit_chain" + "-" + ZeroPadded(index)
  {
    var parts := Split(SampleId(name, kind, index), '-');
    SampleIdParts(name, kind, index);
    assert parts[0] == Split(name, '-')[0];
    assert parts[|parts| - 1] == ZeroPadded(index);
  }

  /** For example, the samples of `a/b-c` and `a/b-d` end up with the same id. */
  lemma ClarifiedIdAsWrittenCollides(index: nat)
    ensures ClarifiedIdAsWritten(SampleId("a/b-c", "file_commit_gram", index))
            == ClarifiedIdAsWritten(SampleId("a/b-d", "file_commit_gram", index))
  {
    ClarifiedIdAsWrittenTruncates("a/b-c", "file_commit_gram", index);
    ClarifiedIdAsWrittenTruncates("a/b-d", "file_commit_gram", index);
    assert "a/b-c" == "a/b" + ['-'] + "c";
    assert "a/b-d" == "a/b" + ['-'] + "d";
    SplitAtSeparator("a/b", "c", '-');
    SplitAtSeparator("a/b", "d", '-');
    assert Split("a/b", '-')[0] == "a/b" by {
      SplitWithoutSeparator("a/b", '-');
    }
  }

  /** The id rewrite replacing only the kind, the second-to-last part; an id with fewer parts is treated as written. */
  function ClarifiedId(id: string): string {
    var parts := Split(id, '-');
    if |parts| < 3 then ClarifiedIdAsWritten(id)
    else Join(parts[..|parts| - 2], "-") + "-" + "file_commit_chain" + "-" + parts[|parts| - 1]
  }

  /** The corrected rewrite turns every file-commit-gram sample id into the file-commit-chain id of the same sample. */
  lemma ClarifiedIdKeepsName(name: string, index: nat)
    ensures ClarifiedId(SampleId(name, "file_commit_gram", index)) == SampleId(name, "file_commit_chain", index)
  {
    var parts := Split(SampleId(name, "file_commit_gram", index), '-');
    SampleIdParts(name, "file_commit_gram", index);
    assert parts[..|parts| - 2] == Split(name, '-');
    JoinSplit(name, '-');
  }

  // ---------------------------------------------------------------------------------------
  // Sample rows
  // ---------------------------------------------------------------------------------------

  /** How hard a sample is, as stored in the `difficulty` column. */
  datatype Difficulty = Easy | Medium | Hard {
    function Rank(): nat {
      match this
      case Easy => 0
      case Medium => 1
      case Hard => 2
    }
  }

  /**
   * The columns of a sample row that the rules read or write. `scenarioType` holds the
   * `scenario_type` column, renamed `sample_type` by `ClarifyDatasetMapper`.
   */
  datatype Sample = Sample(
    id: string,
    name: string,
    stargazers: Option<int>,
    scenario: Scenario,
    scenarioType: string,
    projectActivity: Option<string>,
    difficulty: Option<Difficulty>)

  /** A number in a comparison with Python's numeric semantics, in hundredths; other values raise `TypeError`. */
  function NumberInHundredths(v: Value): (r: Result<int>)
    ensures r.Ok? <==> v.Int? || v.Bool? || v.Hundredths?
    ensures v.Int? ==> r == Ok(100 * v.i)
    ensures v.Hundredths? ==> r == Ok(v.h)
    ensures r.Err? ==> r.error == TypeError
  {
    match v
    case Int(i) => Ok(100 * i)
    case Bool(b) => Ok(if b then 100 else 0)
    case Hundredths(h) => Ok(h)
    case _ => Err(TypeError)
  }

  /** `scenario[key]` taken as a number, in hundredths. */
  function Number(s: Scenario, key: string): (r: Result<int>)
    ensures r.Ok? ==> HasKey(s, key) && NumberInHundredths(Get(s, key)) == r
    ensures !HasKey(s, key) ==> r == Err(KeyError(key))
  {
    match Lookup(s, key)
    case Err(e) => Err(e)
    case Ok(v) => NumberInHundredths(v)
  }

  /** The activity classes `RefineDatasetCoarse` accepts. */
  predicate RecentlyActive(activity: Option<string>) {
    activity.Some? && activity.value in ["day", "week", "month"]
  }

  /** A merge sample whose conflict count is not zero and at most eight (a negative count passes). */
  predicate FewConflicts(s: Scenario) {
    Number(s, "total_number_of_merge_conflicts").Ok?
    && Number(s, "total_number_of_merge_conflicts").value != 0
    && Number(s, "total_number_of_merge_conflicts").value <= 800
  }

  /** A file-commit-gram sample with purity at least 0.5 over at most six commits. */
  predicate PureShortChain(s: Scenario) {
    Number(s, "purity").Ok? && Number(s, "purity").value >= 50
    && Number(s, "times_seen_consecutively").Ok? && Number(s, "times_seen_consecutively").value <= 600
  }

  /**
   * `RefineDatasetCoarse`: whether the row is yielded. The conditions are evaluated left to
   * right and stop at the first that decides, so only the fields they reach can raise.
   */
  function RefineCoarse(row: Sample): (r: Result<bool>)
    ensures r == Ok(true) <==>
      row.scenarioType != "cherry_pick" && row.stargazers.Some? && row.stargazers.value >= 1000
      && RecentlyActive(row.projectActivity)
      && ((row.scenarioType == "merge" && FewConflicts(row.scenario))
          || (row.scenarioType == "file_commit_gram" && PureShortChain(row.scenario)))
    ensures row.scenarioType == "cherry_pick" ==> r == Ok(false)
    ensures r.Err? ==> row.scenarioType in ["merge", "file_commit_gram"] || r.error == TypeError
  {
    if row.scenarioType == "cherry_pick" then Ok(false)
    else if row.stargazers.None? then Err(TypeError)
    else if row.stargazers.value < 1000 || !RecentlyActive(row.projectActivity) then Ok(false)
    else if row.scenarioType == "merge" then
      match Number(row.scenario, "total_number_of_merge_conflicts")
      case Err(e) => Err(e)
      case Ok(conflicts) => Ok(conflicts != 0 && conflicts <= 800)
    else if row.scenarioType == "file_commit_gram" then
      match Number(row.scenario, "purity")
      case Err(e) => Err(e)
      case Ok(purity) =>
        if purity < 50 then Ok(false)
        else
          match Number(row.scenario, "times_seen_consecutively")
          case Err(e) => Err(e)
          case Ok(times) => Ok(times <= 600)
    else Ok(false)
  }

  /** More stargazers never turn a kept row into a dropped one. */
  lemma RefineCoarseMoreStars(row: Sample, stars: int)
    requires RefineCoarse(row) == Ok(true) && row.stargazers.value <= stars
    ensures RefineCoarse(row.(stargazers := Some(stars))) == Ok(true)
  {
  }

  /** A purer file-commit gram is kept whenever a less pure one with the same length is. */
  lemma RefineCoarsePurer(row: Sample, purity: int)
    requires RefineCoarse(row) == Ok(true) && row.scenarioType == "file_commit_gram"
    requires DistinctKeys(row.scenario) && Number(row.scenario, "purity").value <= purity
    ensures RefineCoarse(row.(scenario := Put(row.scenario, "purity", Hundredths(purity)))) == Ok(true)
  {
    var s := Put(row.scenario, "purity", Hundredths(purity));
    PutOther(row.scenario, "purity", Hundredths(purity), "times_seen_consecutively");
    assert Number(s, "purity") == Ok(purity);
  }

  // ---------------------------------------------------------------------------------------
  // Merge-conflict difficulty
  // ---------------------------------------------------------------------------------------

  /** `_compute_merge_conflict_difficulty` on the number of conflicted files and of conflicts. */
  function MergeConflictDifficulty(files: int, conflicts: int): (r: Option<Difficulty>)
    ensures r.Some? <==> (files == 1 && conflicts >= 1) || (files > 1 && conflicts > 1)
    ensures r.Some? ==> (r.value == Easy <==> conflicts == 1)
    ensures r.Some? ==> (r.value == Hard <==> files > 1)
  {
    if files == 1 && conflicts == 1 then Some(Easy)
    else if files == 1 && conflicts > 1 then Some(Difficulty.Medium)
    else if files > 1 && conflicts > 1 then Some(Hard)
    else None
  }

  /** Every merge with at least one conflict in each of its conflicted files gets a difficulty. */
  lemma MergeConflictDifficultyDefined(files: int, conflicts: int)
    requires 1 <= files <= conflicts
    ensures MergeConflictDifficulty(files, conflicts).Some?
  {
  }

  /** More conflicted files and more conflicts never make a merge easier. */
  lemma MergeConflictDifficultyMonotone(f1: int, c1: int, f2: int, c2: int)
    requires f1 <= f2 && c1 <= c2
    requires MergeConflictDifficulty(f1, c1).Some? && MergeConflictDifficulty(f2, c2).Some?
    ensures MergeConflictDifficulty(f1, c1).value.Rank() <= MergeConflictDifficulty(f2, c2).value.Rank()
  {
  }

  // ---------------------------------------------------------------------------------------
  // ClarifyDatasetMapper
  // ---------------------------------------------------------------------------------------

  /**
   * `scenario[to] = scenario[from]; del scenario[from]`: moves a value to a new key, which goes
   * last unless it was present already.
   */
  function RenameKey(s: Scenario, from: string, to: string): (r: Result<Scenario>)
    requires from != to
    ensures r.Ok? <==> HasKey(s, from)
    ensures r.Err? ==> r.error == KeyError(from)
    ensures r.Ok? ==> HasKey(r.value, to) && Get(r.value, to) == Get(s, from)
    ensures r.Ok? && DistinctKeys(s) ==> DistinctKeys(r.value) && !HasKey(r.value, from)
  {
    match Lookup(s, from)
    case Err(e) => Err(e)
    case Ok(v) =>
      var moved := Put(s, to, v);
      PutOther(s, to, v, from);
      RemoveOther(moved, from, to);
      assert DistinctKeys(s) ==> DistinctKeys(Remove(moved, from)) && !HasKey(Remove(moved, from), from) by {
        if DistinctKeys(s) {
          RemoveGone(moved, from);
        }
      }
      Ok(Remove(moved, from))
  }

  /** Renaming a key keeps every other key and its value. */
  lemma RenameKeyOther(s: Scenario, from: string, to: string, other: string)
    requires from != to && other != from && other != to && RenameKey(s, from, to).Ok?
    ensures HasKey(RenameKey(s, from, to).value, other) <==> HasKey(s, other)
    ensures HasKey(s, other) ==> Get(RenameKey(s, from, to).value, other) == Get(s, other)
  {
    var v := Get(s, from);
    var moved := Put(s, to, v);
    PutOther(s, to, v, other);
    PutOther(s, to, v, from);
    RemoveOther(moved, from, other);
  }

  /**
   * `ClarifyDatasetMapper`: a file-commit-gram sample becomes a file-commit-chain sample with
   * the new kind in its id and `first_commit`/`last_commit` renamed `newest_commit`/`oldest_commit`;
   * a merge sample passes unchanged and any other sample is dropped.
   */
  function Clarify(row: Sample): (r: Result<Option<Sample>>)
    ensures row.scenarioType == "merge" ==> r == Ok(Some(row))
    ensures row.scenarioType !in ["merge", "file_commit_gram"] ==> r == Ok(None)
    ensures row.scenarioType == "file_commit_gram" ==>
      (r.Ok? <==> HasKey(row.scenario, "first_commit") && HasKey(row.scenario, "last_commit"))
    ensures row.scenarioType == "file_commit_gram" && r.Ok? ==>
      r.value.Some? && r.value.value.scenarioType == "file_commit_chain" && r.value.value.id == ClarifiedId(row.id)
      && r.value.value == row.(id := r.value.value.id, scenarioType := r.value.value.scenarioType, scenario := r.value.value.scenario)
      && HasKey(r.value.value.scenario, "newest_commit") && Get(r.value.value.scenario, "newest_commit") == Get(row.scenario, "first_commit")
      && HasKey(r.value.value.scenario, "oldest_commit") && Get(r.value.value.scenario, "oldest_commit") == Get(row.scenario, "last_commit")
  {
    if row.scenarioType == "file_commit_gram" then
      match RenameKey(row.scenario, "first_commit", "newest_commit")
      case Err(e) => Err(e)
      case Ok(renamed) =>
        RenameKeyOther(row.scenario, "first_commit", "newest_commit", "last_commit");
        match RenameKey(renamed, "last_commit", "oldest_commit")
        case Err(e) => Err(e)
        case Ok(clarified) =>
          RenameKeyOther(renamed, "last_commit", "oldest_commit", "newest_commit");
          Ok(Some(row.(scenarioType := "file_commit_chain", id := ClarifiedId(row.id), scenario := clarified)))
    else if row.scenarioType == "merge" then Ok(Some(row))
    else Ok(None)
  }

  /** With distinct keys, a clarified scenario has no `first_commit` or `last_commit` left and keeps every other entry. */
  lemma ClarifyRemovesOldKeys(row: Sample, other: string)
    requires row.scenarioType == "file_commit_gram" && Clarify(row).Ok? && DistinctKeys(row.scenario)
    requires other !in ["first_commit", "last_commit", "newest_commit", "oldest_commit"]
    ensures !HasKey(Clarify(row).value.value.scenario, "first_commit")
    ensures !HasKey(Clarify(row).value.value.scenario, "last_commit")
    ensures HasKey(Clarify(row).value.value.scenario, other) <==> HasKey(row.scenario, other)
    ensures HasKey(row.scenario, other) ==> Get(Clarify(row).value.value.scenario, other) == Get(row.scenario, other)
  {
    var renamed := RenameKey(row.scenario, "first_commit", "newest_commit").value;
    RenameKeyOther(row.scenario, "first_commit", "newest_commit", other);
    RenameKeyOther(renamed, "last_commit", "oldest_commit", other);
    RenameKeyOther(renamed, "last_commit", "oldest_commit", "first_commit");
  }

  /** A sample made by `TransformDatasetToOneRowPerSample` keeps its repository name and index in its clarified id. */
  lemma ClarifyKeepsSampleId(row: Sample, index: nat)
    requires row.scenarioType == "file_commit_gram" && row.id == SampleId(row.name, "file_commit_gram", index)
    requires Clarify(row).Ok?
    ensures Clarify(row).value.value.id == SampleId(row.name, "file_commit_chain", index)
  {
    ClarifiedIdKeepsName(row.name, index);
  }
}
