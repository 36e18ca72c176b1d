/** Option and Result values used where the modelled code raises or returns nothing. */
module Results {

  datatype Option<+T> = None | Some(value: T)

  /** The Python exceptions the modelled code can raise (or print and swallow). */
  datatype Error =
    | KeyError(key: string)
    | IndexError
    | TypeError
    | ValueError
    | UnboundLocalError
    | FileNotFoundError(path: string)
    /** The manager's own exception, raised with the message of the exception it caught. */
    | ScenarioEnvironmentException(cause: Error)

  datatype Result<+T> = Ok(value: T) | Err(error: Error)

  /** The position of the first error among `rs` at or after `from`, or `|rs|` when there is none. */
  function FirstErrFrom<T>(rs: seq<Result<T>>, from: nat): (n: nat)
    requires from <= |rs|
    ensures from <= n <= |rs|
    ensures n < |rs| ==> rs[n].Err?
    decreases |rs| - from
  {
    if from == |rs| || rs[from].Err? then from else FirstErrFrom(rs, from + 1)
  }

  /** The position of the first error among `rs`, or `|rs|` when there is none. */
  function FirstErr<T>(rs: seq<Result<T>>): (n: nat)
    ensures n <= |rs|
    ensures n < |rs| ==> rs[n].Err?
  {
    FirstErrFrom(rs, 0)
  }

  lemma {:induction false} FirstErrFromOk<T>(rs: seq<Result<T>>, from: nat, k: nat)
    requires from <= |rs| && from <= k < FirstErrFrom(rs, from)
    ensures rs[k].Ok?
    decreases |rs| - from
  {
    if from < k {
      FirstErrFromOk(rs, from + 1, k);
    }
  }

  /** Every result before the first error is `Ok`. */
  lemma FirstErrOk<T>(rs: seq<Result<T>>, k: nat)
    requires k < FirstErr(rs)
    ensures rs[k].Ok?
  {
    FirstErrFromOk(rs, 0, k);
  }

  /** The values of the first `n` results, all of which are `Ok`. */
  function Values<T>(rs: seq<Result<T>>, n: nat): (r: seq<T>)
    requires n <= FirstErr(rs)
    ensures |r| == n
  {
    seq(n, k requires 0 <= k < n => FirstErrOk(rs, k); rs[k].value)
  }

  lemma ValuesSnoc<T>(rs: seq<Result<T>>, n: nat)
    requires n < FirstErr(rs)
    ensures rs[n].Ok? && Values(rs, n + 1) == Values(rs, n) + [rs[n].value]
  {
    FirstErrOk(rs, n);
  }

  /** An error at `k` with none before it is the first error. */
  lemma FirstErrAt<T>(rs: seq<Result<T>>, k: nat)
    requires k <= FirstErr(rs) && k < |rs| && rs[k].Err?
    ensures FirstErr(rs) == k
  {
    if k < FirstErr(rs) {
      FirstErrOk(rs, k);
    }
  }
}
