/**
 * The change counters of `DetermineFileCommitGramPurityMapper`: the `git show` output of
 * each commit of a file-commit gram is scanned line by line; `+`/`-` lines in the section of
 * the gram's file count towards both counters, those in other sections only towards the total,
 * and a section of a file in a language other than Java, Python or Kotlin ends the scan.
 */
module Purity {
  import opened Results
  import opened Text

  /**
   * The scan's variables: the section flags of the current commit, the two counters and the
   * header line of a non-programming-language file, once one is met.
   */
  datatype Scan = Scan(
    inTarget: bool,
    inCancelled: bool,
    seenFirst: bool,
    changesInFile: nat,
    totalChanges: nat,
    offending: Option<string>)

  /** The state at the start of a commit's diff: the flags cleared, the counters carried over. */
  function CommitStart(changesInFile: nat, totalChanges: nat): Scan {
    Scan(false, false, false, changesInFile, totalChanges, None)
  }

  predicate IsDiffHeader(line: string) {
    StartsWith(line, "diff --git")
  }

  /** A line that adds or removes a line of content, not a `+++`/`---` file line. */
  predicate IsChangeLine(line: string) {
    (StartsWith(line, "+") || StartsWith(line, "-")) && !(StartsWith(line, "---") || StartsWith(line, "+++"))
  }

  /** The header of the section of `file`. */
  function TargetHeader(file: string): string {
    "diff --git a/" + file + " b/" + file
  }

  /**
   * `s.split(sep)[-1]`: what follows the last occurrence of `sep`, or all of `s`. (For a
   * separator that cannot overlap itself, such as `" b/"`, the last occurrence is where
   * Python's left-to-right split cuts last.)
   */
  function LastPart(s: string, sep: string): (r: string)
    requires |sep| > 0
    ensures |r| <= |s| && r == s[|s| - |r|..]
    decreases |s|
  {
    if |s| < |sep| then s
    else if s[|s| - |sep|..] == sep then ""
    else LastPart(s[..|s| - 1], sep) + [s[|s| - 1]]
  }

  /** A file extension that is not one of `.java`, `.py` and `.kt`. */
  predicate NonProgramming(extension: Option<string>) {
    extension.Some? && extension.value !in [".java", ".py", ".kt"]
  }

  /**
   * One iteration of the line loop, before the scan has met a non-programming-language file.
   * `extension` is the extension the header regular expression finds in a header line.
   */
  function Step(s: Scan, line: string, file: string, cancelled: set<string>, extension: string -> Option<string>): (r: Scan)
    requires s.offending.None?
    ensures s.changesInFile <= s.totalChanges ==> r.changesInFile <= r.totalChanges
    ensures s.changesInFile <= r.changesInFile && s.totalChanges <= r.totalChanges
    ensures r.totalChanges - s.totalChanges <= 1
    ensures r.changesInFile - s.changesInFile == 1 ==> r.totalChanges - s.totalChanges == 1
  {
    if !IsDiffHeader(line) && !s.seenFirst then s
    else if IsDiffHeader(line) then
      var next := s.(inTarget := false, inCancelled := false, seenFirst := true);
      if LastPart(line, " b/") in cancelled then next.(inCancelled := true)
      else if Contains(line, TargetHeader(file)) then next.(inTarget := true)
      else if NonProgramming(extension(line)) then next.(offending := Some(line))
      else next
    else if s.inCancelled then s
    else if IsChangeLine(line) && s.inTarget then
      s.(changesInFile := s.changesInFile + 1, totalChanges := s.totalChanges + 1)
    else if IsChangeLine(line) then s.(totalChanges := s.totalChanges + 1)
    else s
  }

  /**
   * A `+`/`-` line inside a section that is not cancelled counts towards the total, and towards
   * the file's changes exactly when the section is the gram's file; every other line counts nothing.
   */
  lemma StepCounts(s: Scan, line: string, file: string, cancelled: set<string>, extension: string -> Option<string>)
    requires s.offending.None?
    ensures var r := Step(s, line, file, cancelled, extension);
            var counted := s.seenFirst && !s.inCancelled && IsChangeLine(line);
            r.totalChanges == s.totalChanges + (if counted then 1 else 0)
            && r.changesInFile == s.changesInFile + (if counted && s.inTarget then 1 else 0)
  {
    if IsChangeLine(line) {
      assert line[0] == '+' || line[0] == '-';
      assert !IsDiffHeader(line) by {
        assert "diff --git"[0] == 'd';
      }
    }
  }

  /** The scan after the first `n` lines of a commit's diff; it stops at a non-programming-language file. */
  function ScanLines(start: Scan, lines: seq<string>, n: nat, file: string, cancelled: set<string>,
                     extension: string -> Option<string>): (r: Scan)
    requires start.offending.None? && n <= |lines|
    ensures start.changesInFile <= start.totalChanges ==> r.changesInFile <= r.totalChanges
    ensures start.changesInFile <= r.changesInFile && start.totalChanges <= r.totalChanges
    decreases n
  {
    if n == 0 then start
    else
      var before := ScanLines(start, lines, n - 1, file, cancelled, extension);
      if before.offending.Some? then before else Step(before, lines[n - 1], file, cancelled, extension)
  }

  /** Once a non-programming-language file is met, the rest of the diff changes nothing. */
  lemma {:induction false} ScanLinesStops(start: Scan, lines: seq<string>, m: nat, n: nat, file: string,
                                          cancelled: set<string>, extension: string -> Option<string>)
    requires start.offending.None? && m <= n <= |lines|
    requires ScanLines(start, lines, m, file, cancelled, extension).offending.Some?
    ensures ScanLines(start, lines, n, file, cancelled, extension) == ScanLines(start, lines, m, file, cancelled, extension)
    decreases n - m
  {
    if m < n {
      ScanLinesStops(start, lines, m, n - 1, file, cancelled, extension);
    }
  }

  /** The lines before the first `diff --git` header (the commit's header) count nothing. */
  lemma {:induction false} ScanLinesSkipsPreamble(start: Scan, lines: seq<string>, n: nat, file: string,
                                                  cancelled: set<string>, extension: string -> Option<string>)
    requires start.offending.None? && !start.seenFirst && n <= |lines|
    requires forall k :: 0 <= k < n ==> !IsDiffHeader(lines[k])
    ensures ScanLines(start, lines, n, file, cancelled, extension) == start
    decreases n
  {
    if n > 0 {
      ScanLinesSkipsPreamble(start, lines, n - 1, file, cancelled, extension);
    }
  }

  /** The inner loop over the lines of one commit's diff. */
  method ScanCommit(start: Scan, lines: seq<string>, file: string, cancelled: set<string>,
                    extension: string -> Option<string>) returns (s: Scan)
    requires start.offending.None?
    ensures s == ScanLines(start, lines, |lines|, file, cancelled, extension)
  {
    s := start;
    var i := 0;
    while i < |lines|
      invariant 0 <= i <= |lines|
      invariant s == ScanLines(start, lines, i, file, cancelled, extension)
      invariant s.offending.None?
    {
      s := Step(s, lines[i], file, cancelled, extension);
      i := i + 1;
      if s.offending.Some? {
        ScanLinesStops(start, lines, i, |lines|, file, cancelled, extension);
        return;
      }
    }
  }

  /** The counters after the first `n` commits; the commits after a non-programming-language file are not looked at. */
  function CountCommits(diffs: seq<seq<string>>, n: nat, file: string, cancelled: set<string>,
                        extension: string -> Option<string>): (r: Scan)
    requires n <= |diffs|
    ensures r.changesInFile <= r.totalChanges
    decreases n
  {
    if n == 0 then CommitStart(0, 0)
    else
      var before := CountCommits(diffs, n - 1, file, cancelled, extension);
      if before.offending.Some? then before
      else ScanLines(CommitStart(before.changesInFile, before.totalChanges), diffs[n - 1], |diffs[n - 1]|, file, cancelled, extension)
  }

  lemma {:induction false} CountCommitsStops(diffs: seq<seq<string>>, m: nat, n: nat, file: string,
                                             cancelled: set<string>, extension: string -> Option<string>)
    requires m <= n <= |diffs|
    requires CountCommits(diffs, m, file, cancelled, extension).offending.Some?
    ensures CountCommits(diffs, n, file, cancelled, extension) == CountCommits(diffs, m, file, cancelled, extension)
    decreases n - m
  {
    if m < n {
      CountCommitsStops(diffs, m, n - 1, file, cancelled, extension);
    }
  }

  /**
   * The two loops over the commits of a gram and the lines of their diffs: the counters the
   * scan ends with, and the header of the non-programming-language file that ended it, if any.
   */
  method CountChanges(diffs: seq<seq<string>>, file: string, cancelled: set<string>, extension: string -> Option<string>)
    returns (changesInFile: nat, totalChanges: nat, offending: Option<string>)
    ensures var r := CountCommits(diffs, |diffs|, file, cancelled, extension);
            changesInFile == r.changesInFile && totalChanges == r.totalChanges && offending == r.offending
    ensures changesInFile <= totalChanges
  {
    changesInFile, totalChanges, offending := 0, 0, None;
    var c := 0;
    while c < |diffs|
      invariant 0 <= c <= |diffs|
      invariant var r := CountCommits(diffs, c, file, cancelled, extension);
                changesInFile == r.changesInFile && totalChanges == r.totalChanges && offending == r.offending
      invariant offending.None?
    {
      var s := ScanCommit(CommitStart(changesInFile, totalChanges), diffs[c], file, cancelled, extension);
      changesInFile, totalChanges, offending := s.changesInFile, s.totalChanges, s.offending;
      c := c + 1;
      if offending.Some? {
        CountCommitsStops(diffs, c, |diffs|, file, cancelled, extension);
        return;
      }
    }
  }

  /** The purity of a gram: skipped, or a fraction of the changes. */
  datatype Outcome = Skipped(offendingLine: string) | Fraction(numerator: nat, denominator: nat)

  /**
   * The outcome after counting: a non-programming-language file skips the gram; otherwise the
   * purity is the share of the changes in the gram's file, and 0 when nothing changed.
   */
  function PurityOf(changesInFile: nat, totalChanges: nat, offending: Option<string>): (r: Outcome)
    requires changesInFile <= totalChanges
    ensures r.Skipped? <==> offending.Some?
    ensures r.Fraction? ==> 0 < r.denominator && r.numerator <= r.denominator
    ensures r.Fraction? ==> r.numerator * totalChanges == changesInFile * r.denominator
  {
    if offending.Some? then Skipped(offending.value)
    else if totalChanges > 0 then Fraction(changesInFile, totalChanges)
    else Fraction(0, 1)
  }
}
