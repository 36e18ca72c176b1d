/**
 * The hunk views of the chunking scenario: the remaining hunks of a patch numbered
 * `HUNK-1`, `HUNK-2`, … for the agent, and the patch cut down to the hunks the agent
 * selected by those numbers.
 */
module Hunks {
  import opened Text
  import opened Results

  /** A line of a unified diff that opens a hunk: `line.startswith('@@')`. */
  predicate IsHunkHeader(line: string) {
    |line| >= 2 && line[0] == '@' && line[1] == '@'
  }

  /** An entry of the view that begins with a newline: as patch lines hold none, only labels do. */
  predicate IsLabel(entry: string) {
    |entry| > 0 && entry[0] == '\n'
  }

  /** The annotation that replaces the `k`-th hunk header. */
  function HunkLabel(k: nat): (r: string)
    ensures IsLabel(r)
  {
    "\nHUNK-" + Decimal(k) + ":"
  }

  /** The number of hunk headers among the first `n` lines. */
  function HeadersBefore(lines: seq<string>, n: nat): nat
    requires n <= |lines|
  {
    if n == 0 then 0 else HeadersBefore(lines, n - 1) + (if IsHunkHeader(lines[n - 1]) then 1 else 0)
  }

  /** The position of the first hunk header, or `|lines|` when there is none. */
  function FirstHeader(lines: seq<string>): (i: nat)
    ensures i <= |lines| && (i < |lines| ==> IsHunkHeader(lines[i]))
    ensures forall k :: 0 <= k < i ==> !IsHunkHeader(lines[k])
    decreases |lines|
  {
    if |lines| == 0 || IsHunkHeader(lines[0]) then 0 else 1 + FirstHeader(lines[1..])
  }

  /** What the line at `p` becomes in the view: a header is numbered after the headers before it, any other line stays. */
  function Annotation(lines: seq<string>, p: nat): string
    requires p < |lines|
  {
    if IsHunkHeader(lines[p]) then HunkLabel(HeadersBefore(lines, p) + 1) else lines[p]
  }

  /** The view of the patch lines: everything from the first hunk header on, annotated. */
  function AnnotatedLines(lines: seq<string>): (r: seq<string>)
    ensures |r| == |lines| - FirstHeader(lines)
    ensures forall j :: 0 <= j < |r| ==> r[j] == Annotation(lines, FirstHeader(lines) + j)
  {
    var f := FirstHeader(lines);
    seq(|lines| - f, j requires 0 <= j < |lines| - f => Annotation(lines, f + j))
  }

  /**
   * `get_remaining_hunks` once the patch file has been read: the number of hunks, and the
   * lines from the first hunk on, joined by newlines, with every hunk header replaced by its label.
   */
  method RemainingHunks(patchContent: string) returns (count: nat, text: string)
    ensures count == HeadersBefore(SplitLines(patchContent), |SplitLines(patchContent)|)
    ensures text == Join(AnnotatedLines(SplitLines(patchContent)), "\n")
    ensures patchContent == "" ==> count == 0 && text == ""
  {
    var lines := SplitLines(patchContent);
    if |lines| == 0 {
      return 0, "";
    }
    var formatted := [];
    var hunkCounter := 1;
    var haveFoundFirstHunk := false;
    for i := 0 to |lines|
      invariant hunkCounter == HeadersBefore(lines, i) + 1
      invariant haveFoundFirstHunk <==> HeadersBefore(lines, i) > 0
      invariant formatted == ViewOfFirst(lines, i)
    {
      if IsHunkHeader(lines[i]) {
        formatted := formatted + [HunkLabel(hunkCounter)];
        hunkCounter := hunkCounter + 1;
        haveFoundFirstHunk := true;
      } else if !haveFoundFirstHunk {
        continue;
      } else {
        formatted := formatted + [lines[i]];
      }
    }
    ViewOfAllLines(lines);
    count, text := hunkCounter - 1, Join(formatted, "\n");
  }

  /** The view built from the first `n` lines, one line at a time. */
  function ViewOfFirst(lines: seq<string>, n: nat): seq<string>
    requires n <= |lines|
  {
    if n == 0 then []
    else if IsHunkHeader(lines[n - 1]) then ViewOfFirst(lines, n - 1) + [HunkLabel(HeadersBefore(lines, n - 1) + 1)]
    else if HeadersBefore(lines, n - 1) > 0 then ViewOfFirst(lines, n - 1) + [lines[n - 1]]
    else ViewOfFirst(lines, n - 1)
  }

  /** A hunk header has been read among the first `n` lines exactly when the first header comes before `n`. */
  lemma {:induction false} HeaderReadIffPastFirst(lines: seq<string>, n: nat)
    requires n <= |lines|
    ensures HeadersBefore(lines, n) > 0 <==> FirstHeader(lines) < n
    decreases n
  {
    if n > 0 {
      HeaderReadIffPastFirst(lines, n - 1);
    }
  }

  /** The view of the first `n` lines holds the annotated lines from the first header up to `n`. */
  lemma {:induction false} ViewOfFirstAt(lines: seq<string>, n: nat)
    requires n <= |lines|
    ensures |ViewOfFirst(lines, n)| == if FirstHeader(lines) < n then n - FirstHeader(lines) else 0
    ensures forall j :: 0 <= j < |ViewOfFirst(lines, n)| ==> ViewOfFirst(lines, n)[j] == Annotation(lines, FirstHeader(lines) + j)
    decreases n
  {
    if n > 0 {
      ViewOfFirstAt(lines, n - 1);
      HeaderReadIffPastFirst(lines, n - 1);
      var f := FirstHeader(lines);
      var prev := ViewOfFirst(lines, n - 1);
      var view := ViewOfFirst(lines, n);
      if IsHunkHeader(lines[n - 1]) || HeadersBefore(lines, n - 1) > 0 {
        assert f <= n - 1;
        assert view == prev + [Annotation(lines, n - 1)];
        forall j | 0 <= j < |view|
          ensures view[j] == Annotation(lines, f + j)
        {
          if j < |prev| {
            assert view[j] == prev[j];
          }
        }
      }
    }
  }

  /** Read to the end, the line-by-line view is the view of the whole patch. */
  lemma ViewOfAllLines(lines: seq<string>)
    ensures ViewOfFirst(lines, |lines|) == AnnotatedLines(lines)
  {
    ViewOfFirstAt(lines, |lines|);
  }

  /** The number of hunk labels among the first `n` entries of a view. */
  function LabelsBefore(view: seq<string>, n: nat): nat
    requires n <= |view|
  {
    if n == 0 then 0 else LabelsBefore(view, n - 1) + (if IsLabel(view[n - 1]) then 1 else 0)
  }

  predicate NoNewlines(lines: seq<string>) {
    forall k, j :: 0 <= k < |lines| && 0 <= j < |lines[k]| ==> lines[k][j] != '\n'
  }

  /** No hunk header comes before the first one. */
  lemma {:induction false} NoHeadersBeforeFirst(lines: seq<string>, m: nat)
    requires m <= FirstHeader(lines)
    ensures HeadersBefore(lines, m) == 0
    decreases m
  {
    if m > 0 {
      NoHeadersBeforeFirst(lines, m - 1);
    }
  }

  /** Up to every point of the view, the labels shown are as many as the hunk headers read. */
  lemma {:induction false} LabelsTrackHeaders(lines: seq<string>, m: nat)
    requires NoNewlines(lines) && m <= |lines| - FirstHeader(lines)
    ensures LabelsBefore(AnnotatedLines(lines), m) == HeadersBefore(lines, FirstHeader(lines) + m)
    decreases m
  {
    var f := FirstHeader(lines);
    if m == 0 {
      NoHeadersBeforeFirst(lines, f);
    } else {
      LabelsTrackHeaders(lines, m - 1);
      var line := lines[f + m - 1];
      var shown := AnnotatedLines(lines)[m - 1];
      assert IsLabel(shown) <==> IsHunkHeader(line) by {
        if !IsHunkHeader(line) {
          assert shown == line;
          assert |line| > 0 ==> line[0] != '\n';
        }
      }
    }
  }

  /** The label of a header carries one more than the number of labels before it: hunks are numbered 1, 2, … in order. */
  lemma LabelAt(lines: seq<string>, j: nat)
    requires NoNewlines(lines) && j < |lines| - FirstHeader(lines) && IsHunkHeader(lines[FirstHeader(lines) + j])
    ensures AnnotatedLines(lines)[j] == HunkLabel(LabelsBefore(AnnotatedLines(lines), j) + 1)
  {
    LabelsTrackHeaders(lines, j);
    LabelOfHeader(lines, j);
  }

  lemma LabelOfHeader(lines: seq<string>, j: nat)
    requires j < |lines| - FirstHeader(lines) && IsHunkHeader(lines[FirstHeader(lines) + j])
    requires LabelsBefore(AnnotatedLines(lines), j) == HeadersBefore(lines, FirstHeader(lines) + j)
    ensures AnnotatedLines(lines)[j] == HunkLabel(LabelsBefore(AnnotatedLines(lines), j) + 1)
  {
    var p := FirstHeader(lines) + j;
    var shown := HunkLabel(HeadersBefore(lines, p) + 1);
    assert Annotation(lines, p) == shown;
    assert AnnotatedLines(lines)[j] == Annotation(lines, p);
  }

  /**
   * The count returned by `get_remaining_hunks` is the number of labels in the view. The
   * lines of `splitlines()` hold no newline (`Text.SplitLinesHaveNoNewline`).
   */
  lemma HunkCountIsLabelCount(lines: seq<string>)
    requires NoNewlines(lines)
    ensures LabelsBefore(AnnotatedLines(lines), |AnnotatedLines(lines)|) == HeadersBefore(lines, |lines|)
  {
    LabelsTrackHeaders(lines, |lines| - FirstHeader(lines));
  }

  /** A `"@@"` starts at position `k` of `s`. */
  predicate MarkerAt(s: string, k: nat) {
    k + 1 < |s| && s[k] == '@' && s[k + 1] == '@'
  }

  /** The leftmost position from `from` on where a `"@@"` starts. */
  function FirstMarker(s: string, from: nat): (r: Option<nat>)
    requires from <= |s|
    ensures r.Some? ==> from <= r.value && MarkerAt(s, r.value)
    ensures r.Some? ==> forall k :: from <= k < r.value ==> !MarkerAt(s, k)
    ensures r.None? ==> forall k :: from <= k ==> !MarkerAt(s, k)
    decreases |s| - from
  {
    if from + 1 >= |s| then None
    else if MarkerAt(s, from) then Some(from)
    else FirstMarker(s, from + 1)
  }

  /** `[hunks[i - 1] for i in selected if 0 < i <= len(hunks)]`. */
  function SelectedHunks(hunks: seq<string>, selected: seq<int>): (r: seq<string>)
    ensures |r| <= |selected|
    decreases |selected|
  {
    if |selected| == 0 then []
    else
      var i := selected[0];
      (if 0 < i <= |hunks| then [hunks[i - 1]] else []) + SelectedHunks(hunks, selected[1..])
  }

  /**
   * The selection part of `cut_selected_hunks_from_file`: the text before the first `@@`
   * followed by the selected hunks. A patch without `@@` cannot be split in two; the
   * `ValueError` this raises is caught and raised again as `ScenarioEnvironmentException`.
   * The hunks are the matches of the hunk pattern, given.
   */
  function CutSelectedHunks(patchContent: string, hunks: seq<string>, selected: seq<int>): (r: Result<string>)
    ensures r.Err? <==> forall k :: !MarkerAt(patchContent, k)
    ensures r.Err? ==> r.error == ScenarioEnvironmentException(ValueError)
    ensures r.Ok? ==> exists i: nat ::
      MarkerAt(patchContent, i) && (forall k: nat :: k < i ==> !MarkerAt(patchContent, k))
      && r.value == Concat([patchContent[..i]] + SelectedHunks(hunks, selected))
  {
    match FirstMarker(patchContent, 0)
    case None => Err(ScenarioEnvironmentException(ValueError))
    case Some(i) => Ok(Concat([patchContent[..i]] + SelectedHunks(hunks, selected)))
  }

  /** Selecting one list of numbers after another selects their hunks one after the other. */
  lemma {:induction false} SelectedHunksAppend(hunks: seq<string>, a: seq<int>, b: seq<int>)
    ensures SelectedHunks(hunks, a + b) == SelectedHunks(hunks, a) + SelectedHunks(hunks, b)
    decreases |a|
  {
    if |a| == 0 {
      assert a + b == b;
    } else {
      assert (a + b)[1..] == a[1..] + b;
      SelectedHunksAppend(hunks, a[1..], b);
    }
  }

  /** Every selected part is one of the hunks, and a number outside `1..len(hunks)` selects nothing. */
  lemma {:induction false} SelectedHunksAreHunks(hunks: seq<string>, selected: seq<int>)
    ensures forall x :: x in SelectedHunks(hunks, selected) ==> x in hunks
    ensures (forall k :: 0 <= k < |selected| ==> !(0 < selected[k] <= |hunks|)) ==> SelectedHunks(hunks, selected) == []
    ensures (forall k :: 0 <= k < |selected| ==> 0 < selected[k] <= |hunks|) ==> |SelectedHunks(hunks, selected)| == |selected|
    decreases |selected|
  {
    if |selected| > 0 {
      SelectedHunksAreHunks(hunks, selected[1..]);
      assert forall k :: 0 <= k < |selected| - 1 ==> selected[1..][k] == selected[k + 1];
    }
  }

  /** The numbers `1..n` in order. */
  function Upto(n: nat): (r: seq<int>)
    ensures |r| == n && forall k :: 0 <= k < n ==> r[k] == k + 1
  {
    if n == 0 then [] else Upto(n - 1) + [n]
  }

  /** Selecting the hunks `1..n` in order selects all of them. */
  lemma {:induction false} SelectAllHunks(hunks: seq<string>, n: nat)
    requires n <= |hunks|
    ensures SelectedHunks(hunks, Upto(n)) == hunks[..n]
    decreases n
  {
    if n > 0 {
      SelectAllHunks(hunks, n - 1);
      SelectedHunksAppend(hunks, Upto(n - 1), [n]);
      assert SelectedHunks(hunks, [n]) == [hunks[n - 1]];
      assert hunks[..n] == hunks[..n - 1] + [hunks[n - 1]];
    }
  }

  /**
   * When the hunks make up the whole patch from its first `@@` on, selecting every hunk in
   * order gives the patch back unchanged.
   */
  lemma CutAllHunksRestoresPatch(patchContent: string, hunks: seq<string>)
    requires FirstMarker(patchContent, 0).Some?
    requires Concat(hunks) == patchContent[FirstMarker(patchContent, 0).value..]
    ensures CutSelectedHunks(patchContent, hunks, Upto(|hunks|)) == Ok(patchContent)
  {
    var i := FirstMarker(patchContent, 0).value;
    SelectAllHunks(hunks, |hunks|);
    assert hunks[..|hunks|] == hunks;
    ConcatAppend([patchContent[..i]], hunks);
    assert Concat([patchContent[..i]]) == patchContent[..i] + Concat([]);
    assert patchContent[..i] + patchContent[i..] == patchContent;
  }
}
