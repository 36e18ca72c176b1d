/**
 * The git repository as the scraper sees it: an arena of commits keyed by hash, the
 * name-status change lines of each commit, the cherry-pick trailer of commit messages
 * and the normalised patch text whose digest serves as a patch id.
 */
module Repository {
  import opened Text
  import opened Results

  type Hash = string

  /** A commit's patch against its first parent (or the empty tree), or the fact that it is not valid UTF-8. */
  datatype Patch = Undecodable | Decoded(text: string)

  /**
   * A commit: its parents in order, its message, its committed date as a timestamp,
   * the non-empty lines of `git show --name-status` after the header line, and its patch.
   */
  datatype Commit = Commit(parents: seq<Hash>, message: string, committedAt: int, changes: seq<string>, patch: Patch)

  type Repo = map<Hash, Commit>

  /** Every parent of a commit in the arena is in the arena. */
  predicate Closed(repo: Repo) {
    forall h, k :: h in repo && 0 <= k < |repo[h].parents| ==> repo[h].parents[k] in repo
  }

  /** A git reference: its short name and its full path such as `refs/heads/main`. */
  datatype Ref = Ref(name: string, path: string)

  /** The references the scraper walks: neither a `HEAD` reference nor a tag. */
  predicate IsWalkedBranch(r: Ref) {
    !Contains(r.name, "HEAD") && !StartsWith(r.path, "refs/tags")
  }

  /** The branch names, in reference order. */
  function BranchNames(refs: seq<Ref>): (names: seq<string>)
    ensures forall n :: n in names <==> exists k :: 0 <= k < |refs| && IsWalkedBranch(refs[k]) && refs[k].name == n
    ensures |names| <= |refs|
  {
    if |refs| == 0 then []
    else
      var rest := BranchNames(refs[1..]);
      assert forall k :: 1 <= k < |refs| ==> refs[k] == refs[1..][k - 1];
      if IsWalkedBranch(refs[0]) then [refs[0].name] + rest else rest
  }

  // ---------------------------------------------------------------- change lines

  const ValidChangeTypes: seq<string> := ["A", "M", "MM"]

  /** The change type: the text before the first tab. */
  function Kind(line: string): string {
    Split(line, '\t')[0]
  }

  predicate IsValidKind(line: string) {
    Kind(line) in ValidChangeTypes
  }

  /** A line of a valid change type names exactly one path, as git prints it; otherwise unpacking it fails. */
  predicate WellFormedChange(line: string) {
    IsValidKind(line) ==> |Split(line, '\t')| == 2
  }

  /** The path of a change line that names exactly one path. */
  function PathOf(line: string): string
    requires |Split(line, '\t')| >= 2
  {
    Split(line, '\t')[1]
  }

  /** A change the window tracks: valid type, one path, and the path contains the language value. */
  predicate IsCounted(line: string, language: string) {
    IsValidKind(line) && |Split(line, '\t')| == 2 && Contains(PathOf(line), language)
  }

  /** The paths of the counted changes, in order: `affected_files` after the loop over the changes. */
  function CountedPaths(changes: seq<string>, language: string): (paths: seq<string>)
    ensures |paths| <= |changes|
    decreases |changes|
  {
    if |changes| == 0 then []
    else
      var n := |changes| - 1;
      CountedPaths(changes[..n], language) + (if IsCounted(changes[n], language) then [PathOf(changes[n])] else [])
  }

  /** A path is affected exactly when some counted change names it. */
  lemma {:induction false} CountedPathsExactly(changes: seq<string>, language: string)
    ensures forall p :: p in CountedPaths(changes, language) <==>
      exists k :: 0 <= k < |changes| && IsCounted(changes[k], language) && PathOf(changes[k]) == p
    decreases |changes|
  {
    if |changes| > 0 {
      var n := |changes| - 1;
      CountedPathsExactly(changes[..n], language);
      assert forall k :: 0 <= k < n ==> changes[..n][k] == changes[k];
    }
  }

  /** `_does_commit_contain_changes_in_programming_language`: some change line contains the language value. */
  predicate ContainsLanguage(changes: seq<string>, language: string) {
    exists k :: 0 <= k < |changes| && Contains(changes[k], language)
  }

  /** A counted change line mentions the language, so it also makes the commit a language commit. */
  lemma CountedMentionsLanguage(line: string, language: string)
    requires IsCounted(line, language)
    ensures Contains(line, language)
  {
    var parts := Split(line, '\t');
    JoinSplit(line, '\t');
    assert parts == [parts[0]] + parts[1..];
    assert line == (parts[0] + ['\t']) + parts[1];
    ContainsInSuffix(parts[0] + ['\t'], parts[1], language);
  }

  /**
   * `_should_process_commit`: whether some change has a valid type and mentions the language
   * anywhere on its line; it returns at the first such change.
   */
  method ShouldProcessCommit(changes: seq<string>, language: string) returns (b: bool)
    ensures b <==> exists k :: 0 <= k < |changes| && IsValidKind(changes[k]) && Contains(changes[k], language)
  {
    b := false;
    var i := 0;
    while i < |changes|
      invariant 0 <= i <= |changes|
      invariant forall k :: 0 <= k < i ==> !(IsValidKind(changes[k]) && Contains(changes[k], language))
    {
      b := Kind(changes[i]) in ValidChangeTypes && Contains(changes[i], language);
      if b {
        return b;
      }
      i := i + 1;
    }
    return b;
  }

  // ---------------------------------------------------------------- cherry-pick trailer

  /** The text `git cherry-pick -x` writes before the picked commit's hash. */
  const TrailerPrefix: string := "cherry picked from commit "

  const ShaLength: nat := 40

  predicate IsShaChar(c: char) {
    'a' <= c <= 'z' || '0' <= c <= '9'
  }

  /** The pattern matches at `i`: the prefix ends at `i` and 40 hash characters follow. */
  predicate TrailerAt(msg: string, i: nat) {
    |TrailerPrefix| <= i && i + ShaLength <= |msg|
    && msg[i - |TrailerPrefix|..i] == TrailerPrefix
    && forall k :: i <= k < i + ShaLength ==> IsShaChar(msg[k])
  }

  /** The leftmost match at or after `from`, as `re.search` finds it. */
  function FirstTrailer(msg: string, from: nat): (r: Option<nat>)
    ensures r.Some? ==> from <= r.value && TrailerAt(msg, r.value)
    ensures r.Some? ==> forall j :: from <= j < r.value ==> !TrailerAt(msg, j)
    ensures r.None? ==> forall j :: from <= j ==> !TrailerAt(msg, j)
    decreases |msg| - from
  {
    if from + ShaLength > |msg| then None
    else if TrailerAt(msg, from) then Some(from)
    else FirstTrailer(msg, from + 1)
  }

  /** The hash a cherry-pick trailer names, if the message has one. */
  function CherryPickedFrom(msg: string): (r: Option<Hash>)
    ensures r.Some? ==> |r.value| == ShaLength && (forall k :: 0 <= k < |r.value| ==> IsShaChar(r.value[k]))
    ensures r.Some? ==> Contains(msg, TrailerPrefix + r.value)
    ensures r.None? <==> forall j :: !TrailerAt(msg, j)
    ensures r.Some? ==> exists i: nat :: TrailerAt(msg, i) && (forall j: nat :: j < i ==> !TrailerAt(msg, j)) && r.value == msg[i..i + ShaLength]
  {
    match FirstTrailer(msg, 0)
    case None => None
    case Some(i) =>
      var s := msg[i..i + ShaLength];
      assert msg[i - |TrailerPrefix|..i + ShaLength] == TrailerPrefix + s;
      ContainsAt(msg, TrailerPrefix + s, i - |TrailerPrefix|);
      Some(s)
  }

  // ---------------------------------------------------------------- patch normalisation

  /** Index of the first line feed, or the length when there is none. */
  function FirstNewline(t: string): (i: nat)
    ensures i <= |t|
    ensures i < |t| ==> t[i] == '\n'
    ensures forall k :: 0 <= k < i ==> t[k] != '\n'
    decreases |t|
  {
    if |t| == 0 || t[0] == '\n' then 0 else 1 + FirstNewline(t[1..])
  }

  /** Text made of whole lines: empty, or ending in a line feed. */
  predicate WholeLines(t: string) {
    |t| == 0 || t[|t| - 1] == '\n'
  }

  /**
   * Removes every line-feed-terminated line that `drop` selects, as a MULTILINE `re.sub`
   * whose pattern starts with `^` and ends with `\n` does. A last line without a line
   * feed is never removed.
   */
  function FilterLines(t: string, drop: string -> bool): (r: string)
    ensures |r| <= |t|
    decreases |t|
  {
    var i := FirstNewline(t);
    if i == |t| then t
    else (if drop(t[..i + 1]) then "" else t[..i + 1]) + FilterLines(t[i + 1..], drop)
  }

  /** No line-feed-terminated line of `t` is selected by `drop`. */
  predicate Clean(t: string, drop: string -> bool)
    decreases |t|
  {
    var i := FirstNewline(t);
    i == |t| || (!drop(t[..i + 1]) && Clean(t[i + 1..], drop))
  }

  /** `^(index|diff|---|\+\+\+) .*\n`: a diff header line. */
  predicate IsHeaderLine(line: string) {
    StartsWith(line, "index ") || StartsWith(line, "diff ") || StartsWith(line, "--- ") || StartsWith(line, "+++ ")
  }

  /** `^\s*\n`: a line holding only white space. */
  predicate IsBlankLine(line: string) {
    AllSpace(line)
  }

  /** The patch text with header lines removed, then blank lines removed. */
  function Normalised(t: string): string {
    FilterLines(FilterLines(t, IsHeaderLine), IsBlankLine)
  }

  /** The patch id: the digest of the normalised patch, or the empty string when the patch is not UTF-8. */
  function PatchId(p: Patch, sha1: string -> string): string {
    match p
    case Undecodable => ""
    case Decoded(text) => sha1(Normalised(text))
  }

  /** `_do_patch_ids_match`. */
  predicate PatchIdsMatch(a: Commit, b: Commit, sha1: string -> string) {
    PatchId(a.patch, sha1) == PatchId(b.patch, sha1)
  }

  /** Two commits whose patches both fail to decode always have matching patch ids. */
  lemma UndecodablePatchesMatch(a: Commit, b: Commit, sha1: string -> string)
    requires a.patch.Undecodable? && b.patch.Undecodable?
    ensures PatchIdsMatch(a, b, sha1)
  {
  }

  lemma FirstNewlineAppend(a: string, s: string)
    requires FirstNewline(a) < |a|
    ensures FirstNewline(a + s) == FirstNewline(a)
  {
    var i := FirstNewline(a);
    assert (a + s)[i] == '\n';
    assert forall k :: 0 <= k < i ==> (a + s)[k] == a[k];
  }

  /** Filtering a text that starts with a whole line `line`. */
  lemma FilterLinesStep(line: string, rest: string, drop: string -> bool)
    requires IsLine(line)
    ensures FilterLines(line + rest, drop) == (if drop(line) then "" else line) + FilterLines(rest, drop)
  {
    var t := line + rest;
    assert forall k :: 0 <= k < |line| ==> t[k] == line[k];
    assert FirstNewline(t) == |line| - 1;
    assert t[..|line|] == line;
    assert t[|line|..] == rest;
  }

  /** The first line of a text made of whole lines. */
  lemma SplitFirstLine(a: string) returns (line: string, rest: string)
    requires WholeLines(a) && |a| > 0
    ensures IsLine(line) && WholeLines(rest) && a == line + rest && |rest| < |a|
  {
    var i := FirstNewline(a);
    assert a[|a| - 1] == '\n';
    line, rest := a[..i + 1], a[i + 1..];
    assert a == line + rest;
  }

  /** Filtering distributes over a split at a line boundary. */
  lemma {:induction false} FilterLinesAppend(a: string, s: string, drop: string -> bool)
    requires WholeLines(a)
    ensures FilterLines(a + s, drop) == FilterLines(a, drop) + FilterLines(s, drop)
    decreases |a|
  {
    if |a| == 0 {
      assert a + s == s;
      assert FilterLines(a, drop) == "";
    } else {
      var line, rest := SplitFirstLine(a);
      var keep := if drop(line) then "" else line;
      calc {
        FilterLines(a + s, drop);
        { assert a + s == line + (rest + s); }
        FilterLines(line + (rest + s), drop);
        { FilterLinesStep(line, rest + s, drop); }
        keep + FilterLines(rest + s, drop);
        { FilterLinesAppend(rest, s, drop); }
        keep + (FilterLines(rest, drop) + FilterLines(s, drop));
        (keep + FilterLines(rest, drop)) + FilterLines(s, drop);
        { FilterLinesStep(line, rest, drop); }
        FilterLines(a, drop) + FilterLines(s, drop);
      }
    }
  }

  lemma {:induction false} FilterLinesWhole(t: string, drop: string -> bool)
    requires WholeLines(t)
    ensures WholeLines(FilterLines(t, drop))
    decreases |t|
  {
    var i := FirstNewline(t);
    if i < |t| {
      FilterLinesWhole(t[i + 1..], drop);
    }
  }

  lemma {:induction false} CleanAppend(a: string, s: string, drop: string -> bool)
    requires WholeLines(a) && Clean(a, drop) && Clean(s, drop)
    ensures Clean(a + s, drop)
    decreases |a|
  {
    if |a| == 0 {
      assert a + s == s;
    } else {
      var i := FirstNewline(a);
      FirstNewlineAppend(a, s);
      assert (a + s)[..i + 1] == a[..i + 1];
      assert (a + s)[i + 1..] == a[i + 1..] + s;
      CleanAppend(a[i + 1..], s, drop);
    }
  }

  /** A line that `drop` does not select is kept, and a clean line is one such line. */
  lemma OneLine(t: string, drop: string -> bool)
    requires FirstNewline(t) < |t|
    ensures var line := t[..FirstNewline(t) + 1];
      FirstNewline(line) == |line| - 1 && line[..|line|] == line && line[|line|..] == ""
  {
  }

  /** Filtering leaves nothing that the filter selects. */
  lemma {:induction false} FilterLinesClean(t: string, drop: string -> bool)
    ensures Clean(FilterLines(t, drop), drop)
    decreases |t|
  {
    var i := FirstNewline(t);
    if i < |t| {
      var line := t[..i + 1];
      FilterLinesClean(t[i + 1..], drop);
      if !drop(line) {
        OneLine(t, drop);
        assert Clean(line, drop);
        CleanAppend(line, FilterLines(t[i + 1..], drop), drop);
      } else {
        assert FilterLines(t, drop) == FilterLines(t[i + 1..], drop);
      }
    }
  }

  /** Filtering text that holds no selected line changes nothing. */
  lemma {:induction false} FilterLinesOfClean(t: string, drop: string -> bool)
    requires Clean(t, drop)
    ensures FilterLines(t, drop) == t
    decreases |t|
  {
    var i := FirstNewline(t);
    if i < |t| {
      FilterLinesOfClean(t[i + 1..], drop);
      assert t == t[..i + 1] + t[i + 1..];
    }
  }

  /** Filtering with one predicate keeps text clean for another. */
  lemma {:induction false} FilterLinesKeepsClean(t: string, drop: string -> bool, other: string -> bool)
    requires Clean(t, other)
    ensures Clean(FilterLines(t, drop), other)
    decreases |t|
  {
    var i := FirstNewline(t);
    if i < |t| {
      var line := t[..i + 1];
      FilterLinesKeepsClean(t[i + 1..], drop, other);
      if !drop(line) {
        OneLine(t, other);
        assert Clean(line, other);
        CleanAppend(line, FilterLines(t[i + 1..], drop), other);
      } else {
        assert FilterLines(t, drop) == FilterLines(t[i + 1..], drop);
      }
    }
  }

  /** Normalising twice is normalising once. */
  lemma NormalisedIdempotent(t: string)
    ensures Normalised(Normalised(t)) == Normalised(t)
  {
    var h := FilterLines(t, IsHeaderLine);
    var n := FilterLines(h, IsBlankLine);
    FilterLinesClean(t, IsHeaderLine);
    FilterLinesKeepsClean(h, IsBlankLine, IsHeaderLine);
    FilterLinesOfClean(n, IsHeaderLine);
    FilterLinesClean(h, IsBlankLine);
    FilterLinesOfClean(n, IsBlankLine);
  }

  /** A single line-feed-terminated line. */
  predicate IsLine(line: string) {
    |line| > 0 && line[|line| - 1] == '\n' && forall k :: 0 <= k < |line| - 1 ==> line[k] != '\n'
  }

  lemma FilterOneLine(line: string, drop: string -> bool)
    requires IsLine(line)
    ensures FilterLines(line, drop) == if drop(line) then "" else line
  {
    assert FirstNewline(line) == |line| - 1;
    assert line[..|line|] == line;
    assert line[|line|..] == "";
  }

  /** Filtering a text that starts with a whole line decides that line first. */
  lemma FilterLinesFirstLine(line: string, b: string, drop: string -> bool)
    requires IsLine(line)
    ensures drop(line) ==> FilterLines(line + b, drop) == FilterLines(b, drop)
    ensures !drop(line) ==> FilterLines(line + b, drop) == line + FilterLines(b, drop)
  {
    FilterLinesAppend(line, b, drop);
    FilterOneLine(line, drop);
    if drop(line) {
      assert "" + FilterLines(b, drop) == FilterLines(b, drop);
    }
  }

  /** Filtering a line that `drop` selects out of the middle of a text. */
  lemma FilterLinesSkipsLine(a: string, line: string, b: string, drop: string -> bool)
    requires WholeLines(a) && IsLine(line) && drop(line)
    ensures FilterLines(a + line + b, drop) == FilterLines(a + b, drop)
  {
    AppendAssociative(a, line, b);
    FilterLinesAppend(a, line + b, drop);
    FilterLinesFirstLine(line, b, drop);
    FilterLinesAppend(a, b, drop);
  }

  /** Filtering keeps a line that `drop` does not select, between the filtered halves. */
  lemma FilterLinesKeepsLine(a: string, line: string, b: string, drop: string -> bool)
    requires WholeLines(a) && IsLine(line) && !drop(line)
    ensures FilterLines(a + line + b, drop) == FilterLines(a, drop) + line + FilterLines(b, drop)
  {
    AppendAssociative(a, line, b);
    FilterLinesAppend(a, line + b, drop);
    FilterLinesFirstLine(line, b, drop);
    AppendAssociative(FilterLines(a, drop), line, FilterLines(b, drop));
  }

  lemma AppendAssociative(a: string, b: string, c: string)
    ensures a + b + c == a + (b + c)
  {
  }

  /**
   * A header line or a blank line inserted between two lines of a patch does not change its
   * normalised text, so the patch id ignores such lines.
   */
  lemma NormalisedIgnoresDroppedLine(a: string, line: string, b: string)
    requires WholeLines(a) && IsLine(line)
    requires IsHeaderLine(line) || IsBlankLine(line)
    ensures Normalised(a + line + b) == Normalised(a + b)
  {
    if IsHeaderLine(line) {
      FilterLinesSkipsLine(a, line, b, IsHeaderLine);
    } else {
      FilterLinesKeepsLine(a, line, b, IsHeaderLine);
      FilterLinesAppend(a, b, IsHeaderLine);
      var ha := FilterLines(a, IsHeaderLine);
      var hb := FilterLines(b, IsHeaderLine);
      FilterLinesWhole(a, IsHeaderLine);
      FilterLinesSkipsLine(ha, line, hb, IsBlankLine);
    }
  }
}
