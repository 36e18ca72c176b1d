/**
 * The scenario records of the dataset tables as the mappers see them: each scenario is a
 * Python dictionary read back with `ast.literal_eval`, and a repository row stores its
 * scenario lists as the `str` of a list (or a missing value).
 */
module Scenarios {
  import opened Results
  import opened Dicts

  /** The Python values a scenario dictionary holds; a float rounded to two decimals is kept in hundredths. */
  datatype Value =
    | NoneValue
    | Bool(b: bool)
    | Int(i: int)
    | Hundredths(h: int)
    | Str(s: string)
    | List(items: seq<Value>)

  type Scenario = Dict<string, Value>

  /**
   * A scenario column of a repository row: a missing value (`None`, `'None'`, `'none'`,
   * `'nan'`, `'NaN'` or a pandas NA) or the text of a list of scenarios.
   */
  datatype Raw = NoneLike | Listed(items: seq<Scenario>)

  /** `_parse_scenarios_from_raw_string`: a missing value reads as the empty list. */
  function Parse(raw: Raw): seq<Scenario> {
    if raw.NoneLike? then [] else raw.items
  }

  /** The columns of `RepositoryDataRow` that the scenario filters read or write. */
  datatype RepositoryRow = RepositoryRow(
    name: string,
    error: Option<string>,
    fileCommitGramScenarios: Raw,
    mergeScenarios: Raw,
    cherryPickScenarios: Raw)

  /** `not row.error` is false: an error text that is not empty. */
  predicate HasError(row: RepositoryRow) {
    row.error.Some? && row.error.value != ""
  }

  /** Python truthiness. */
  predicate Truthy(v: Value) {
    match v
    case NoneValue => false
    case Bool(b) => b
    case Int(i) => i != 0
    case Hundredths(h) => h != 0
    case Str(s) => s != ""
    case List(items) => |items| > 0
  }

  /** `d[key]`, raising `KeyError` for a missing key. */
  function Lookup(d: Scenario, key: string): (r: Result<Value>)
    ensures r.Ok? <==> HasKey(d, key)
    ensures r.Ok? ==> r.value == Get(d, key)
    ensures r.Err? ==> r.error == KeyError(key)
  {
    if HasKey(d, key) then Ok(Get(d, key)) else Err(KeyError(key))
  }

  /** `len(v)`, raising `TypeError` for a value without a length. */
  function Len(v: Value): (r: Result<nat>)
    ensures r.Ok? <==> v.Str? || v.List?
    ensures v.List? ==> r == Ok(|v.items|)
    ensures r.Err? ==> r.error == TypeError
  {
    match v
    case Str(s) => Ok(|s|)
    case List(items) => Ok(|items|)
    case _ => Err(TypeError)
  }

  /** `len(scenario['parents'])`. */
  function ParentCount(s: Scenario): Result<nat> {
    match Lookup(s, "parents")
    case Err(e) => Err(e)
    case Ok(v) => Len(v)
  }

  /**
   * `[s for s in scenarios if len(s['parents']) == n]`: the scenarios with `n` parents in
   * their order; the first scenario whose parent count cannot be taken raises.
   */
  function KeepWithParents(scenarios: seq<Scenario>, n: nat): Result<seq<Scenario>>
    decreases |scenarios|
  {
    if |scenarios| == 0 then Ok([])
    else
      match ParentCount(scenarios[0])
      case Err(e) => Err(e)
      case Ok(c) =>
        match KeepWithParents(scenarios[1..], n)
        case Err(e) => Err(e)
        case Ok(rest) => Ok(if c == n then [scenarios[0]] + rest else rest)
  }

  /** The comprehension succeeds exactly when every scenario has a parent count. */
  lemma {:induction false} KeepWithParentsOk(scenarios: seq<Scenario>, n: nat)
    ensures KeepWithParents(scenarios, n).Ok? <==> forall k :: 0 <= k < |scenarios| ==> ParentCount(scenarios[k]).Ok?
    decreases |scenarios|
  {
    if |scenarios| > 0 {
      KeepWithParentsOk(scenarios[1..], n);
      assert forall k :: 1 <= k < |scenarios| ==> scenarios[k] == scenarios[1..][k - 1];
    }
  }

  /** A scenario is kept exactly when it is one of the input scenarios with `n` parents. */
  lemma {:induction false} KeepWithParentsMembers(scenarios: seq<Scenario>, n: nat, s: Scenario)
    requires KeepWithParents(scenarios, n).Ok?
    ensures s in KeepWithParents(scenarios, n).value <==> s in scenarios && ParentCount(s) == Ok(n)
    decreases |scenarios|
  {
    if |scenarios| > 0 {
      KeepWithParentsMembers(scenarios[1..], n, s);
      assert scenarios == [scenarios[0]] + scenarios[1..];
    }
  }

  /** Filtering a concatenation filters each part; in particular the kept scenarios keep their order. */
  lemma {:induction false} KeepWithParentsAppend(a: seq<Scenario>, b: seq<Scenario>, n: nat)
    requires KeepWithParents(a, n).Ok? && KeepWithParents(b, n).Ok?
    ensures KeepWithParents(a + b, n) == Ok(KeepWithParents(a, n).value + KeepWithParents(b, n).value)
    decreases |a|
  {
    if |a| == 0 {
      assert a + b == b;
      assert [] + KeepWithParents(b, n).value == KeepWithParents(b, n).value;
    } else {
      assert (a + b)[0] == a[0] && (a + b)[1..] == a[1..] + b;
      KeepWithParentsAppend(a[1..], b, n);
      var front := KeepWithParents(a[1..], n).value;
      var back := KeepWithParents(b, n).value;
      assert [a[0]] + (front + back) == [a[0]] + front + back;
    }
  }

  /** Filtering twice keeps what filtering once kept. */
  lemma {:induction false} KeepWithParentsIdempotent(scenarios: seq<Scenario>, n: nat)
    requires KeepWithParents(scenarios, n).Ok?
    ensures KeepWithParents(KeepWithParents(scenarios, n).value, n) == KeepWithParents(scenarios, n)
    decreases |scenarios|
  {
    if |scenarios| > 0 {
      KeepWithParentsIdempotent(scenarios[1..], n);
      var rest := KeepWithParents(scenarios[1..], n).value;
      if ParentCount(scenarios[0]) == Ok(n) {
        assert ([scenarios[0]] + rest)[1..] == rest;
      }
    }
  }
}
