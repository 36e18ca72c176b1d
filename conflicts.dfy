/**
 * Merge-conflict bookkeeping of the merge scenario, as values: the sections found between
 * conflict markers, the splice of a resolution into a file, the shift of the conflicts left
 * in the same file, the conflict view with its context window, and the list of files that
 * still hold conflicts.
 */
module Conflicts {
  import opened Text
  import opened Results

  /** One conflict dictionary: its file, the lines of its markers, and the file's lines when it was read. */
  datatype ConflictSection = ConflictSection(file: string, beginLine: int, endLine: int, fileContent: seq<string>)

  /** What a line is to the extraction; a line holding both markers counts as opening. */
  datatype Marker = Opening | Closing | Plain

  function MarkerOf(line: string): Marker {
    if Contains(line, "<<<<<<<") then Opening
    else if Contains(line, ">>>>>>>") then Closing
    else Plain
  }

  /** The marker of every line of a file. */
  function Markers(lines: seq<string>): (r: seq<Marker>)
    ensures |r| == |lines|
  {
    seq(|lines|, k requires 0 <= k < |lines| => MarkerOf(lines[k]))
  }

  // ----- Extraction: the loop of `extract_sections_with_conflict_in`, one line at a time -----

  /**
   * The state of the extraction after some lines: the sections created so far (every
   * section ever created, appended at the end; a reference is an index into it), the
   * references in the deque, the section the last opening marker created, and whether a
   * closing marker came before any opening one (`UnboundLocalError`).
   */
  datatype Extraction = Extraction(sections: seq<ConflictSection>, refs: seq<nat>, current: Option<nat>, failed: bool)

  /** The current section exists. */
  predicate WellFormed(x: Extraction) {
    x.current.Some? ==> x.current.value < |x.sections|
  }

  /** One line: an opening marker creates a section, a closing marker ends the current one and queues it. */
  function ExtractStep(path: string, lines: seq<string>, marks: seq<Marker>, x: Extraction, i: nat): (r: Extraction)
    requires i < |lines| == |marks| && WellFormed(x)
    ensures WellFormed(r)
  {
    match marks[i]
    case Opening =>
      Extraction(x.sections + [ConflictSection(path, i, 0, lines)], x.refs, Some(|x.sections|), false)
    case Closing =>
      (match x.current
       case None => x.(failed := true)
       case Some(c) => Extraction(x.sections[c := x.sections[c].(endLine := i)], x.refs + [c], x.current, false))
    case Plain => x
  }

  /**
   * The extraction of the first `n` lines of `path`, whose markers are `marks`, from the
   * deque `refs0` over the sections `sections0`; once failed it stops.
   */
  function Extract(path: string, lines: seq<string>, marks: seq<Marker>, sections0: seq<ConflictSection>, refs0: seq<nat>, n: nat): (r: Extraction)
    requires n <= |lines| == |marks|
    ensures WellFormed(r)
  {
    if n == 0 then Extraction(sections0, refs0, None, false)
    else
      var x := Extract(path, lines, marks, sections0, refs0, n - 1);
      if x.failed then x else ExtractStep(path, lines, marks, x, n - 1)
  }

  /** The latest opening marker among the first `n` lines. */
  function LastOpenBefore(marks: seq<Marker>, n: nat): (r: Option<nat>)
    requires n <= |marks|
    ensures r.Some? ==> r.value < n && marks[r.value] == Opening
  {
    if n == 0 then None
    else if marks[n - 1] == Opening then Some(n - 1)
    else LastOpenBefore(marks, n - 1)
  }

  /** The number of opening markers among the first `n` lines. */
  function OpensBefore(marks: seq<Marker>, n: nat): (r: nat)
    requires n <= |marks|
    ensures r <= n
  {
    if n == 0 then 0 else OpensBefore(marks, n - 1) + (if marks[n - 1] == Opening then 1 else 0)
  }

  /** Every closing marker among the first `n` lines has an opening marker before it. */
  predicate AllOpened(marks: seq<Marker>, n: nat)
    requires n <= |marks|
  {
    forall c :: 0 <= c < n && marks[c] == Closing ==> LastOpenBefore(marks, c).Some?
  }

  /** The last closing marker before line `n` that closes the section opened at `o`; 0 when there is none. */
  function LastCloseOf(marks: seq<Marker>, o: nat, n: nat): (r: nat)
    requires n <= |marks|
    ensures r < n || r == 0
  {
    if n == 0 then 0
    else if marks[n - 1] == Closing && LastOpenBefore(marks, n - 1) == Some(o) then n - 1
    else LastCloseOf(marks, o, n - 1)
  }

  /** The closing marker lines among the first `n` lines, in file order. */
  function Closes(marks: seq<Marker>, n: nat): (r: seq<nat>)
    requires n <= |marks|
    ensures forall k :: 0 <= k < |r| ==> r[k] < n && marks[r[k]] == Closing
  {
    if n == 0 then []
    else Closes(marks, n - 1) + (if marks[n - 1] == Closing then [n - 1] else [])
  }

  /** The section the latest opening marker among the first `n` lines created, numbered from `base`. */
  function CurrentRef(marks: seq<Marker>, base: nat, n: nat): Option<nat>
    requires n <= |marks|
  {
    match LastOpenBefore(marks, n)
    case None => None
    case Some(o) => Some(base + OpensBefore(marks, o))
  }

  /** The section a closing marker at line `c` queues. */
  function CloseRef(marks: seq<Marker>, base: nat, c: nat): nat
    requires c < |marks|
  {
    match CurrentRef(marks, base, c)
    case None => base
    case Some(r) => r
  }

  /** The references an extraction queues, one per closing marker, in file order. */
  function QueuedRefs(marks: seq<Marker>, base: nat, n: nat): (r: seq<nat>)
    requires n <= |marks|
    ensures |r| == |Closes(marks, n)|
  {
    var cs := Closes(marks, n);
    seq(|cs|, k requires 0 <= k < |cs| => CloseRef(marks, base, cs[k]))
  }

  lemma {:induction false} OpensCount(marks: seq<Marker>, o: nat, n: nat)
    requires o < n <= |marks| && marks[o] == Opening
    ensures OpensBefore(marks, o) < OpensBefore(marks, n)
    decreases n
  {
    if n - 1 > o {
      OpensCount(marks, o, n - 1);
    }
  }

  lemma AllOpenedStep(marks: seq<Marker>, n: nat)
    requires 0 < n <= |marks|
    ensures AllOpened(marks, n) <==>
      AllOpened(marks, n - 1) && (marks[n - 1] == Closing ==> LastOpenBefore(marks, n - 1).Some?)
  {
    if AllOpened(marks, n) {
      forall c | 0 <= c < n - 1 && marks[c] == Closing
        ensures LastOpenBefore(marks, c).Some?
      {
      }
    }
  }

  /**
   * The extraction fails exactly when a closing marker comes before any opening one, and
   * until then its current section is the one created by the latest opening marker.
   */
  lemma {:induction false} ExtractCurrent(path: string, lines: seq<string>, marks: seq<Marker>, sections0: seq<ConflictSection>, refs0: seq<nat>, n: nat)
    requires n <= |lines| == |marks|
    ensures var x := Extract(path, lines, marks, sections0, refs0, n);
      && (x.failed <==> !AllOpened(marks, n))
      && (!x.failed ==> x.current == CurrentRef(marks, |sections0|, n))
    decreases n
  {
    if n > 0 {
      ExtractCurrent(path, lines, marks, sections0, refs0, n - 1);
      AllOpenedStep(marks, n);
      if AllOpened(marks, n - 1) {
        ExtractSize(path, lines, marks, sections0, refs0, n - 1);
      }
    }
  }

  /** Each opening marker creates one section. */
  lemma {:induction false} ExtractSize(path: string, lines: seq<string>, marks: seq<Marker>, sections0: seq<ConflictSection>, refs0: seq<nat>, n: nat)
    requires n <= |lines| == |marks|
    requires AllOpened(marks, n)
    ensures |Extract(path, lines, marks, sections0, refs0, n).sections| == |sections0| + OpensBefore(marks, n)
    decreases n
  {
    if n > 0 {
      AllOpenedStep(marks, n);
      ExtractCurrent(path, lines, marks, sections0, refs0, n - 1);
      ExtractSize(path, lines, marks, sections0, refs0, n - 1);
    }
  }

  /** Before the first opening marker the extraction changes nothing, whether it fails or not. */
  lemma {:induction false} ExtractUntouched(path: string, lines: seq<string>, marks: seq<Marker>, sections0: seq<ConflictSection>, refs0: seq<nat>, n: nat)
    requires n <= |lines| == |marks|
    requires LastOpenBefore(marks, n).None?
    ensures var x := Extract(path, lines, marks, sections0, refs0, n);
      x.sections == sections0 && x.refs == refs0 && x.current.None?
    decreases n
  {
    if n > 0 {
      ExtractUntouched(path, lines, marks, sections0, refs0, n - 1);
    }
  }

  /** The deque after an extraction that does not fail: one reference per closing marker, in file order. */
  lemma {:induction false} ExtractQueue(path: string, lines: seq<string>, marks: seq<Marker>, sections0: seq<ConflictSection>, refs0: seq<nat>, n: nat)
    requires n <= |lines| == |marks|
    requires AllOpened(marks, n)
    ensures Extract(path, lines, marks, sections0, refs0, n).refs == refs0 + QueuedRefs(marks, |sections0|, n)
    decreases n
  {
    if n > 0 {
      AllOpenedStep(marks, n);
      ExtractQueue(path, lines, marks, sections0, refs0, n - 1);
      ExtractCurrent(path, lines, marks, sections0, refs0, n - 1);
      QueuedRefsStep(marks, |sections0|, n);
      var x := Extract(path, lines, marks, sections0, refs0, n - 1);
      assert Extract(path, lines, marks, sections0, refs0, n) == ExtractStep(path, lines, marks, x, n - 1);
      StepRefs(path, lines, marks, x, n - 1, CloseRef(marks, |sections0|, n - 1));
    }
  }

  /** One line queues at most the current section, and only at a closing marker. */
  lemma StepRefs(path: string, lines: seq<string>, marks: seq<Marker>, x: Extraction, i: nat, c: nat)
    requires i < |lines| == |marks| && WellFormed(x)
    requires marks[i] == Closing ==> x.current == Some(c)
    ensures ExtractStep(path, lines, marks, x, i).refs == x.refs + (if marks[i] == Closing then [c] else [])
  {
  }

  lemma QueuedRefsStep(marks: seq<Marker>, base: nat, n: nat)
    requires 0 < n <= |marks|
    ensures QueuedRefs(marks, base, n) == QueuedRefs(marks, base, n - 1)
      + (if marks[n - 1] == Closing then [CloseRef(marks, base, n - 1)] else [])
  {
    var before := QueuedRefs(marks, base, n - 1);
    var after := QueuedRefs(marks, base, n);
    assert |after| == |before| + (if marks[n - 1] == Closing then 1 else 0);
    forall k | 0 <= k < |before|
      ensures after[k] == before[k]
    {
    }
  }

  /**
   * The section created by the opening marker at line `o` begins at `o` and ends at the
   * last closing marker that closes it (0 while none does): two closing markers after one
   * opening marker end the same section, the later one overwriting the end.
   */
  lemma {:induction false} ExtractSection(path: string, lines: seq<string>, marks: seq<Marker>, sections0: seq<ConflictSection>, refs0: seq<nat>, n: nat, o: nat)
    requires n <= |lines| == |marks|
    requires AllOpened(marks, n) && o < n && marks[o] == Opening
    ensures var x := Extract(path, lines, marks, sections0, refs0, n);
      && |sections0| + OpensBefore(marks, o) < |x.sections|
      && x.sections[|sections0| + OpensBefore(marks, o)] == ConflictSection(path, o, LastCloseOf(marks, o, n), lines)
    decreases n
  {
    AllOpenedStep(marks, n);
    ExtractCurrent(path, lines, marks, sections0, refs0, n - 1);
    ExtractSize(path, lines, marks, sections0, refs0, n);
    OpensCount(marks, o, n);
    var x := Extract(path, lines, marks, sections0, refs0, n - 1);
    assert Extract(path, lines, marks, sections0, refs0, n) == ExtractStep(path, lines, marks, x, n - 1);
    if o == n - 1 {
      ExtractSize(path, lines, marks, sections0, refs0, n - 1);
      SectionCreated(path, lines, marks, x, o, |sections0|);
    } else {
      ExtractSection(path, lines, marks, sections0, refs0, n - 1, o);
      SectionStep(path, lines, marks, x, n - 1, o, |sections0|);
    }
  }

  /** An opening marker creates its section with end 0. */
  lemma SectionCreated(path: string, lines: seq<string>, marks: seq<Marker>, x: Extraction, i: nat, base: nat)
    requires i < |lines| == |marks| && WellFormed(x) && marks[i] == Opening
    requires |x.sections| == base + OpensBefore(marks, i)
    ensures ExtractStep(path, lines, marks, x, i).sections[base + OpensBefore(marks, i)]
      == ConflictSection(path, i, LastCloseOf(marks, i, i + 1), lines)
  {
    LastCloseBeforeOpen(marks, i, i);
  }

  /** A later line ends the section opened at `o` exactly when it is a closing marker whose latest opening marker is `o`. */
  lemma SectionStep(path: string, lines: seq<string>, marks: seq<Marker>, x: Extraction, i: nat, o: nat, base: nat)
    requires i < |lines| == |marks| && WellFormed(x) && o < i && marks[o] == Opening
    requires x.current == CurrentRef(marks, base, i)
    requires marks[i] == Closing ==> LastOpenBefore(marks, i).Some?
    requires base + OpensBefore(marks, o) < |x.sections|
    requires x.sections[base + OpensBefore(marks, o)] == ConflictSection(path, o, LastCloseOf(marks, o, i), lines)
    ensures ExtractStep(path, lines, marks, x, i).sections[base + OpensBefore(marks, o)]
      == ConflictSection(path, o, LastCloseOf(marks, o, i + 1), lines)
  {
    var at := base + OpensBefore(marks, o);
    var ends := marks[i] == Closing && LastOpenBefore(marks, i) == Some(o);
    if marks[i] == Closing {
      var o' := LastOpenBefore(marks, i).value;
      if o' != o {
        OpensDiffer(marks, o, o');
      }
    }
    StepKeepsSection(path, lines, marks, x, i, at, ends);
  }

  /** One line changes an existing section at most by ending it. */
  lemma StepKeepsSection(path: string, lines: seq<string>, marks: seq<Marker>, x: Extraction, i: nat, at: nat, ends: bool)
    requires i < |lines| == |marks| && WellFormed(x) && at < |x.sections|
    requires marks[i] == Closing && x.current.Some? ==> (x.current.value == at <==> ends)
    requires ends ==> marks[i] == Closing && x.current.Some?
    ensures ExtractStep(path, lines, marks, x, i).sections[at] ==
      if ends then x.sections[at].(endLine := i) else x.sections[at]
  {
  }

  lemma {:induction false} LastCloseBeforeOpen(marks: seq<Marker>, o: nat, n: nat)
    requires n <= o < |marks|
    ensures LastCloseOf(marks, o, n) == 0
    decreases n
  {
    if n > 0 {
      LastCloseBeforeOpen(marks, o, n - 1);
    }
  }

  lemma OpensDiffer(marks: seq<Marker>, o: nat, o': nat)
    requires o < |marks| && o' < |marks| && o != o' && marks[o] == Opening && marks[o'] == Opening
    ensures OpensBefore(marks, o) != OpensBefore(marks, o')
  {
    if o < o' {
      OpensCount(marks, o, o');
    } else {
      OpensCount(marks, o', o);
    }
  }

  /** The references an extraction queues point at sections it created. */
  lemma QueuedAt(marks: seq<Marker>, base: nat, n: nat, k: nat)
    requires n <= |marks| && AllOpened(marks, n) && k < |Closes(marks, n)|
    ensures var c := Closes(marks, n)[k];
      && LastOpenBefore(marks, c).Some?
      && var o := LastOpenBefore(marks, c).value;
      && QueuedRefs(marks, base, n)[k] == base + OpensBefore(marks, o)
      && OpensBefore(marks, o) < OpensBefore(marks, n)
      && o < c <= LastCloseOf(marks, o, n)
  {
    var c := Closes(marks, n)[k];
    var o := LastOpenBefore(marks, c).value;
    OpensCount(marks, o, n);
    LastCloseAtLeast(marks, o, c, n);
  }

  lemma {:induction false} LastCloseAtLeast(marks: seq<Marker>, o: nat, c: nat, n: nat)
    requires c < n <= |marks| && marks[c] == Closing && LastOpenBefore(marks, c) == Some(o)
    ensures c <= LastCloseOf(marks, o, n)
    decreases n
  {
    if c < n - 1 {
      LastCloseAtLeast(marks, o, c, n - 1);
    }
  }

  /** Sections that existed before the extraction are left as they were. */
  lemma {:induction false} ExtractKeepsOld(path: string, lines: seq<string>, marks: seq<Marker>, sections0: seq<ConflictSection>, refs0: seq<nat>, n: nat, r: nat)
    requires n <= |lines| == |marks| && r < |sections0|
    ensures var x := Extract(path, lines, marks, sections0, refs0, n);
      r < |x.sections| && x.sections[r] == sections0[r]
    decreases n
  {
    if n > 0 {
      ExtractKeepsOld(path, lines, marks, sections0, refs0, n - 1, r);
      ExtractCurrent(path, lines, marks, sections0, refs0, n - 1);
      var x := Extract(path, lines, marks, sections0, refs0, n - 1);
      if !x.failed {
        StepKeepsSection(path, lines, marks, x, n - 1, r, false);
      }
    }
  }

  /** Once failed, the extraction stays as it is. */
  lemma {:induction false} ExtractStaysFailed(path: string, lines: seq<string>, marks: seq<Marker>, sections0: seq<ConflictSection>, refs0: seq<nat>, n: nat, m: nat)
    requires n <= m <= |lines| == |marks|
    requires Extract(path, lines, marks, sections0, refs0, n).failed
    ensures Extract(path, lines, marks, sections0, refs0, m) == Extract(path, lines, marks, sections0, refs0, n)
    decreases m
  {
    if m > n {
      ExtractStaysFailed(path, lines, marks, sections0, refs0, n, m - 1);
    }
  }

  /**
   * A closing marker met with no current section fails the whole extraction, and until
   * then nothing was added to the sections or the deque.
   */
  lemma ExtractFailsAt(path: string, lines: seq<string>, marks: seq<Marker>, sections0: seq<ConflictSection>, refs0: seq<nat>, i: nat)
    requires i < |lines| == |marks| && marks[i] == Closing
    requires var x := Extract(path, lines, marks, sections0, refs0, i); !x.failed && x.current.None?
    ensures var x := Extract(path, lines, marks, sections0, refs0, i); x.sections == sections0 && x.refs == refs0
    ensures Extract(path, lines, marks, sections0, refs0, |lines|) == Extraction(sections0, refs0, None, true)
  {
    ExtractCurrent(path, lines, marks, sections0, refs0, i);
    ExtractUntouched(path, lines, marks, sections0, refs0, i);
    ExtractStaysFailed(path, lines, marks, sections0, refs0, i + 1, |lines|);
  }

  /** The deque with the sections its references point into. */
  datatype Queue = Queue(sections: seq<ConflictSection>, refs: seq<nat>)

  /**
   * `extract_sections_with_conflict_in` for one file: a missing file raises
   * `FileNotFoundError`, a closing marker before any opening one `UnboundLocalError`;
   * otherwise the extracted sections and the extended deque.
   */
  function ExtractFile(files: map<string, seq<string>>, path: string, q: Queue): (r: Result<Queue>)
    ensures path !in files ==> r == Err(FileNotFoundError(path))
    ensures path in files && r.Err? ==> r.error == UnboundLocalError
  {
    if path !in files then Err(FileNotFoundError(path))
    else
      var lines := files[path];
      var x := Extract(path, lines, Markers(lines), q.sections, q.refs, |lines|);
      if x.failed then Err(UnboundLocalError) else Ok(Queue(x.sections, x.refs))
  }

  /**
   * The extraction of a file that exists succeeds exactly when every closing marker has an
   * opening marker before it; then it adds one section per opening marker, keeps the old
   * sections, and queues one reference per closing marker, in file order.
   */
  lemma ExtractFileSpec(files: map<string, seq<string>>, path: string, q: Queue)
    requires path in files
    ensures var lines := files[path];
      var marks := Markers(lines);
      && (ExtractFile(files, path, q).Ok? <==> AllOpened(marks, |lines|))
      && (ExtractFile(files, path, q).Ok? ==>
            var q' := ExtractFile(files, path, q).value;
            && |q'.sections| == |q.sections| + OpensBefore(marks, |lines|)
            && q'.sections[..|q.sections|] == q.sections
            && q'.refs == q.refs + QueuedRefs(marks, |q.sections|, |lines|))
  {
    var lines := files[path];
    var marks := Markers(lines);
    ExtractCurrent(path, lines, marks, q.sections, q.refs, |lines|);
    if AllOpened(marks, |lines|) {
      ExtractSize(path, lines, marks, q.sections, q.refs, |lines|);
      ExtractQueue(path, lines, marks, q.sections, q.refs, |lines|);
      var x := Extract(path, lines, marks, q.sections, q.refs, |lines|);
      forall r | 0 <= r < |q.sections|
        ensures x.sections[r] == q.sections[r]
      {
        ExtractKeepsOld(path, lines, marks, q.sections, q.refs, |lines|, r);
      }
    }
  }

  /**
   * The section queued for the `k`-th closing marker of a file begins at the latest
   * opening marker before it and ends at the last closing marker of that opening marker,
   * which is this one unless another closing marker follows before the next opening one.
   */
  lemma ExtractFileQueued(files: map<string, seq<string>>, path: string, q: Queue, k: nat)
    requires path in files && ExtractFile(files, path, q).Ok?
    requires k < |Closes(Markers(files[path]), |files[path]|)|
    ensures var lines := files[path];
      var marks := Markers(lines);
      var c := Closes(marks, |lines|)[k];
      var q' := ExtractFile(files, path, q).value;
      && LastOpenBefore(marks, c).Some?
      && |q.refs| + k < |q'.refs| && q'.refs[|q.refs| + k] < |q'.sections|
      && q'.sections[q'.refs[|q.refs| + k]]
         == ConflictSection(path, LastOpenBefore(marks, c).value, LastCloseOf(marks, LastOpenBefore(marks, c).value, |lines|), lines)
      && c <= LastCloseOf(marks, LastOpenBefore(marks, c).value, |lines|)
  {
    var lines := files[path];
    var marks := Markers(lines);
    ExtractFileSpec(files, path, q);
    QueuedAt(marks, |q.sections|, |lines|, k);
    var c := Closes(marks, |lines|)[k];
    var o := LastOpenBefore(marks, c).value;
    ExtractSection(path, lines, marks, q.sections, q.refs, |lines|, o);
  }

  /** Setting up the merge scenario: every file in turn, stopping at the first that raises. */
  function ExtractFiles(files: map<string, seq<string>>, paths: seq<string>, q: Queue): (Queue, Option<Error>)
    decreases |paths|
  {
    if |paths| == 0 then (q, None)
    else
      match ExtractFile(files, paths[0], q)
      case Err(e) => (q, Some(e))
      case Ok(q') => ExtractFiles(files, paths[1..], q')
  }

  // ----- Resolution: the splice of `resolve_current_merge_conflict_with` -----

  predicate EndsWithNewline(line: string) {
    |line| > 0 && line[|line| - 1] == '\n'
  }

  /** Every line that does not already end in a newline, with a newline added. */
  function WithNewlines(lines: seq<string>): (r: seq<string>)
    ensures |r| <= |lines|
  {
    if |lines| == 0 then []
    else (if EndsWithNewline(lines[0]) then [] else [lines[0] + "\n"]) + WithNewlines(lines[1..])
  }

  /** The lines a resolution puts into the file. */
  function ResolutionLines(content: string): seq<string> {
    WithNewlines(SplitLines(content))
  }

  lemma {:induction false} WithNewlinesKeepsAll(lines: seq<string>)
    requires forall k :: 0 <= k < |lines| ==> !EndsWithNewline(lines[k])
    ensures |WithNewlines(lines)| == |lines|
    ensures forall k :: 0 <= k < |lines| ==> WithNewlines(lines)[k] == lines[k] + "\n"
    decreases |lines|
  {
    if |lines| > 0 {
      WithNewlinesKeepsAll(lines[1..]);
    }
  }

  /**
   * The filter on lines already ending in a newline never drops anything, as `splitlines`
   * leaves no line break in a line: every line of the content is put into the file, in
   * order, with a newline added.
   */
  lemma ResolutionKeepsEveryLine(content: string)
    ensures |ResolutionLines(content)| == |SplitLines(content)|
    ensures forall k :: 0 <= k < |SplitLines(content)| ==> ResolutionLines(content)[k] == SplitLines(content)[k] + "\n"
  {
    var ls := SplitLines(content);
    SplitLinesHaveNoNewline(content);
    forall k | 0 <= k < |ls|
      ensures !EndsWithNewline(ls[k])
    {
      if |ls[k]| > 0 {
        assert ls[k][|ls[k]| - 1] != '\n';
      }
    }
    WithNewlinesKeepsAll(ls);
  }

  /** Python's normalisation of a slice bound `i` of a list of length `n`. */
  function PyIndex(n: nat, i: int): (r: nat)
    ensures r <= n
  {
    if i < 0 then (if n + i < 0 then 0 else n + i)
    else if i > n then n
    else i
  }

  /** Python's `s[a:b]`. */
  function PySlice<T>(s: seq<T>, a: int, b: int): seq<T> {
    var i := PyIndex(|s|, a);
    var j := PyIndex(|s|, b);
    if i <= j then s[i..j] else []
  }

  /** The file after a resolution: the lines before `begin`, the resolution, the lines after `end`. */
  function Splice(lines: seq<string>, begin: int, end: int, resolution: seq<string>): seq<string> {
    lines[..PyIndex(|lines|, begin)] + resolution + lines[PyIndex(|lines|, end + 1)..]
  }

  /**
   * For a conflict inside the file, the splice replaces exactly its lines, from the opening
   * to the closing marker, by the resolution: the file grows by the offset that
   * `resolve_current_merge_conflict_with` shifts the other conflicts by.
   */
  lemma SpliceReplacesConflict(lines: seq<string>, begin: int, end: int, resolution: seq<string>)
    requires 0 <= begin <= end < |lines|
    ensures var r := Splice(lines, begin, end, resolution);
      && |r| == |lines| + (|resolution| - (end - begin + 1))
      && r[..begin] == lines[..begin]
      && r[begin..begin + |resolution|] == resolution
      && r[begin + |resolution|..] == lines[end + 1..]
  {
  }

  // ----- Re-offsetting the conflicts left in the deque -----

  /**
   * One remaining conflict after a resolution in `file` changed the file's length by
   * `offset` to `size` lines: a conflict in that file moves by the offset, its begin kept
   * at least 0 and its end at most `size - 1`; a conflict in another file is unchanged.
   */
  function Shifted(c: ConflictSection, file: string, offset: int, size: int): (r: ConflictSection)
    ensures r.file == c.file && r.fileContent == c.fileContent
    ensures c.file != file ==> r == c
  {
    if c.file == file then
      c.(beginLine := if c.beginLine + offset >= 0 then c.beginLine + offset else 0,
         endLine := if c.endLine + offset <= size - 1 then c.endLine + offset else size - 1)
    else c
  }

  /** The loop over the deque: each reference in turn, so a section queued twice moves twice. */
  function ShiftAll(sections: seq<ConflictSection>, refs: seq<nat>, file: string, offset: int, size: int): (r: seq<ConflictSection>)
    requires forall k :: 0 <= k < |refs| ==> refs[k] < |sections|
    ensures |r| == |sections|
    decreases |refs|
  {
    if |refs| == 0 then sections
    else
      var before := ShiftAll(sections, refs[..|refs| - 1], file, offset, size);
      var last := refs[|refs| - 1];
      before[last := Shifted(before[last], file, offset, size)]
  }

  /** Sections of other files, and sections not in the deque, are left as they were; every section keeps its file. */
  lemma {:induction false} ShiftKeeps(sections: seq<ConflictSection>, refs: seq<nat>, file: string, offset: int, size: int, r: nat)
    requires forall k :: 0 <= k < |refs| ==> refs[k] < |sections|
    requires r < |sections|
    ensures ShiftAll(sections, refs, file, offset, size)[r].file == sections[r].file
    ensures sections[r].file != file || r !in refs ==> ShiftAll(sections, refs, file, offset, size)[r] == sections[r]
    decreases |refs|
  {
    if |refs| > 0 {
      var init := refs[..|refs| - 1];
      ShiftKeeps(sections, init, file, offset, size, r);
      if r !in refs {
        assert r !in init;
      }
    }
  }

  /** A section queued once is shifted once. */
  lemma {:induction false} ShiftOnce(sections: seq<ConflictSection>, refs: seq<nat>, file: string, offset: int, size: int, k: nat)
    requires forall j :: 0 <= j < |refs| ==> refs[j] < |sections|
    requires k < |refs| && forall j :: 0 <= j < |refs| && j != k ==> refs[j] != refs[k]
    ensures ShiftAll(sections, refs, file, offset, size)[refs[k]] == Shifted(sections[refs[k]], file, offset, size)
    decreases |refs|
  {
    var init := refs[..|refs| - 1];
    if k == |refs| - 1 {
      assert refs[k] !in init;
      ShiftKeeps(sections, init, file, offset, size, refs[k]);
    } else {
      ShiftOnce(sections, init, file, offset, size, k);
    }
  }

  /**
   * A conflict queued twice (two closing markers after one opening one) is the same
   * section twice, and is shifted twice.
   */
  lemma ShiftTwice(sections: seq<ConflictSection>, r: nat, file: string, offset: int, size: int)
    requires r < |sections|
    ensures ShiftAll(sections, [r, r], file, offset, size)[r]
      == Shifted(Shifted(sections[r], file, offset, size), file, offset, size)
  {
    ShiftSnoc(sections, [], r, file, offset, size);
    assert [] + [r] == [r];
    ShiftSnoc(sections, [r], r, file, offset, size);
    assert [r] + [r] == [r, r];
  }

  /** Shifting along one more reference shifts that section once more. */
  lemma ShiftSnoc(sections: seq<ConflictSection>, refs: seq<nat>, r: nat, file: string, offset: int, size: int)
    requires (forall k :: 0 <= k < |refs| ==> refs[k] < |sections|) && r < |sections|
    ensures var before := ShiftAll(sections, refs, file, offset, size);
      ShiftAll(sections, refs + [r], file, offset, size) == before[r := Shifted(before[r], file, offset, size)]
  {
    assert (refs + [r])[..|refs|] == refs;
  }

  /**
   * The offset is exact: a conflict of the same file that lies after the resolved one is
   * moved to the lines that hold its old lines in the new file, and neither bound is clamped.
   */
  lemma ShiftTracksLines(lines: seq<string>, begin: int, end: int, resolution: seq<string>, c: ConflictSection)
    requires 0 <= begin <= end < c.beginLine <= c.endLine < |lines|
    ensures var r := Splice(lines, begin, end, resolution);
      var offset := |resolution| - (end - begin + 1);
      && Shifted(c, c.file, offset, |r|) == c.(beginLine := c.beginLine + offset, endLine := c.endLine + offset)
      && r[c.beginLine + offset..c.endLine + offset + 1] == lines[c.beginLine..c.endLine + 1]
  {
    var r := Splice(lines, begin, end, resolution);
    var offset := |resolution| - (end - begin + 1);
    SpliceReplacesConflict(lines, begin, end, resolution);
    assert r[begin + |resolution|..] == lines[end + 1..];
    var lo := c.beginLine - (end + 1);
    var hi := c.endLine + 1 - (end + 1);
    assert r[c.beginLine + offset..c.endLine + offset + 1] == r[begin + |resolution|..][lo..hi];
    assert lines[c.beginLine..c.endLine + 1] == lines[end + 1..][lo..hi];
  }

  // ----- Viewing a conflict: `view_conflict_at` -----

  /** Python's `str` of an integer. */
  function IntText(i: int): (r: string)
    ensures |r| > 0 && (r[0] == '-' || '0' <= r[0] <= '9')
  {
    if i < 0 then "-" + Decimal(-i) else Decimal(i)
  }

  /** The lines of a conflict's file shown around it: from `context` lines before its begin to `context` lines after its end. */
  function ContextWindow(c: ConflictSection, context: int): seq<string> {
    var start := if c.beginLine - context >= 0 then c.beginLine - context else 0;
    var stop := if c.beginLine + context + 1 <= |c.fileContent| then c.endLine + context + 1 else |c.fileContent|;
    PySlice(c.fileContent, start, stop)
  }

  /**
   * `view_conflict_at`: an index outside the conflicts gives the out-of-range message (which
   * starts with `T`), any other index the conflict with its context (which starts with `C`).
   */
  function ConflictView(conflicts: seq<ConflictSection>, index: int, context: int): (r: string)
    ensures 0 <= index < |conflicts| <==> |r| > 0 && r[0] == 'C'
  {
    if index < 0 || index >= |conflicts| then
      "The index " + IntText(index) + " is out of range. Please specify a valid index in range [0, "
        + IntText(|conflicts| - 1) + "]."
    else
      var c := conflicts[index];
      "CONFLICT-" + IntText(index) + " was found in: " + c.file
        + " and the section with the conflict including " + IntText(context) + " lines of context is:\n"
        + Concat(ContextWindow(c, context))
  }

  /**
   * The window tests the begin line where the end line is meant, but for a conflict inside
   * its file and a context of at least 0 this makes no difference: the window is the
   * `context` lines around the conflict, cut at the file's ends, and holds the whole conflict.
   */
  lemma ContextWindowAroundConflict(c: ConflictSection, context: int)
    requires 0 <= c.beginLine <= c.endLine < |c.fileContent| && context >= 0
    ensures var start := if c.beginLine - context >= 0 then c.beginLine - context else 0;
      var stop := if c.endLine + context + 1 <= |c.fileContent| then c.endLine + context + 1 else |c.fileContent|;
      && ContextWindow(c, context) == c.fileContent[start..stop]
      && ContextWindow(c, context)[c.beginLine - start..c.endLine + 1 - start] == c.fileContent[c.beginLine..c.endLine + 1]
  {
    var n := |c.fileContent|;
    var start := if c.beginLine - context >= 0 then c.beginLine - context else 0;
    var stop := if c.endLine + context + 1 <= n then c.endLine + context + 1 else n;
    var stop' := if c.beginLine + context + 1 <= n then c.endLine + context + 1 else n;
    assert PyIndex(n, start) == start;
    assert PyIndex(n, stop') == stop;
    assert ContextWindow(c, context) == c.fileContent[start..stop];
    SliceOfSlice(c.fileContent, start, stop, c.beginLine, c.endLine + 1);
  }

  lemma SliceOfSlice<T>(s: seq<T>, lo: nat, hi: nat, i: nat, j: nat)
    requires lo <= i <= j <= hi <= |s|
    ensures s[lo..hi][i - lo..j - lo] == s[i..j]
  {
    var part := s[lo..hi][i - lo..j - lo];
    forall k | 0 <= k < j - i
      ensures part[k] == s[i + k]
    {
      assert part[k] == s[lo..hi][i - lo + k];
    }
  }

  // ----- The files that still hold conflicts: `_get_files_with_conflicts` -----

  predicate StrictlySorted(s: seq<string>) {
    forall i, j :: 0 <= i < j < |s| ==> Less(s[i], s[j])
  }

  /** Puts `x` into a strictly sorted list, unless it is already there. */
  function InsertSorted(x: string, s: seq<string>): (r: seq<string>)
    decreases |s|
  {
    if |s| == 0 then [x]
    else if x == s[0] then s
    else if Less(x, s[0]) then [x] + s
    else [s[0]] + InsertSorted(x, s[1..])
  }

  /** `sorted` of the set of `files`. */
  function SortedFiles(files: seq<string>): seq<string>
    decreases |files|
  {
    if |files| == 0 then [] else InsertSorted(files[0], SortedFiles(files[1..]))
  }

  lemma {:induction false} InsertSortedSpec(x: string, s: seq<string>)
    requires StrictlySorted(s)
    ensures StrictlySorted(InsertSorted(x, s))
    ensures forall y :: y in InsertSorted(x, s) <==> y == x || y in s
    decreases |s|
  {
    if |s| > 0 && x != s[0] && !Less(x, s[0]) {
      LessTotal(x, s[0]);
      assert StrictlySorted(s[1..]);
      InsertSortedSpec(x, s[1..]);
      var t := InsertSorted(x, s[1..]);
      forall j | 0 <= j < |t|
        ensures Less(s[0], t[j])
      {
        if t[j] != x {
          assert t[j] in s[1..];
        }
      }
    } else if |s| > 0 && x != s[0] {
      forall j | 0 <= j < |s|
        ensures Less(x, s[j])
      {
        if j > 0 {
          LessTransitive(x, s[0], s[j]);
        }
      }
    }
  }

  /** The list is sorted, holds each file once, and holds exactly the given files. */
  lemma {:induction false} SortedFilesSpec(files: seq<string>)
    ensures StrictlySorted(SortedFiles(files))
    ensures forall y :: y in SortedFiles(files) <==> y in files
    decreases |files|
  {
    if |files| > 0 {
      SortedFilesSpec(files[1..]);
      InsertSortedSpec(files[0], SortedFiles(files[1..]));
      assert files == [files[0]] + files[1..];
    }
  }

  /** A strictly sorted list holds no file twice. */
  lemma SortedIsDistinct(s: seq<string>, i: nat, j: nat)
    requires StrictlySorted(s) && i < j < |s|
    ensures s[i] != s[j]
  {
    LessIrreflexive(s[i]);
  }

  /** The file of every conflict. */
  function FilesOf(conflicts: seq<ConflictSection>): (r: seq<string>)
    ensures |r| == |conflicts|
    ensures forall k :: 0 <= k < |conflicts| ==> r[k] == conflicts[k].file
  {
    seq(|conflicts|, k requires 0 <= k < |conflicts| => conflicts[k].file)
  }

  /** `_get_files_with_conflicts`: the distinct files of the conflicts, sorted, one per line. */
  function FilesWithConflicts(conflicts: seq<ConflictSection>): string {
    Join(SortedFiles(FilesOf(conflicts)), "\n")
  }
}
