/**
 * The bookkeeping of `ScenarioEnvironmentManager`: the rebase todo the agent edits through
 * commit indices, and the deque of merge conflicts it resolves one after the other.
 * The working tree is the map `files` from a path to the lines `readlines()` gives; the
 * rebase todo file is passed to the operations that read it. Entry dictionaries and conflict
 * dictionaries are held in arenas (`todoEntries`, `sections`) and referred to by index, so
 * the same dictionary can sit at two places of a list, as it can in the source.
 */
module EnvironmentManager {
  import opened Results
  import opened Text
  import opened RebaseTodo
  import opened Conflicts

  class ScenarioEnvironmentManager {
    /** The working tree. */
    var files: map<string, seq<string>>
    /** Every todo entry dictionary created so far. */
    var todoEntries: seq<TodoEntry>
    /** `commit_abstraction_mapping`: references into `todoEntries`. */
    var commitAbstractionMapping: seq<nat>
    /** Every conflict dictionary created so far. */
    var sections: seq<ConflictSection>
    /** `unresolved_merge_conflicts`: the deque, as references into `sections`. */
    var unresolvedMergeConflicts: seq<nat>
    /** `all_conflicts`: `None` while it is still the deque itself, then the copy taken at setup. */
    var allConflicts: Option<seq<ConflictSection>>

    ghost predicate Valid()
      reads this
    {
      StateValid(TodoState(todoEntries, commitAbstractionMapping)) && DequeValid()
    }

    /** Every reference in the deque names a conflict dictionary. */
    ghost predicate DequeValid()
      reads this`sections, this`unresolvedMergeConflicts
    {
      forall k :: 0 <= k < |unresolvedMergeConflicts| ==> unresolvedMergeConflicts[k] < |sections|
    }

    function Todo(): TodoState
      reads this
    {
      TodoState(todoEntries, commitAbstractionMapping)
    }

    function Deque(): Queue
      reads this
    {
      Queue(sections, unresolvedMergeConflicts)
    }

    /** The conflicts in the deque, front first. */
    function Unresolved(): (r: seq<ConflictSection>)
      requires DequeValid()
      reads this`sections, this`unresolvedMergeConflicts
      ensures |r| == |unresolvedMergeConflicts|
    {
      var refs := unresolvedMergeConflicts;
      var all := sections;
      seq(|refs|, k requires 0 <= k < |refs| => all[refs[k]])
    }

    function AllConflicts(): seq<ConflictSection>
      requires Valid()
      reads this
    {
      if allConflicts.Some? then allConflicts.value else Unresolved()
    }

    /** A manager with an empty mapping and an empty deque over the working tree `files`. */
    constructor(files: map<string, seq<string>>)
      ensures Valid() && this.files == files
      ensures todoEntries == [] && commitAbstractionMapping == []
      ensures sections == [] && unresolvedMergeConflicts == [] && allConflicts == None
    {
      this.files := files;
      todoEntries := [];
      commitAbstractionMapping := [];
      sections := [];
      unresolvedMergeConflicts := [];
      allConflicts := None;
    }

    // ----- The rebase todo -----

    /** `_initialize_commit_abstraction_mapping` over the lines of the todo file. */
    method InitializeCommitAbstractionMapping(todoLines: seq<string>) returns (error: Option<Error>)
      requires Valid()
      modifies this`todoEntries, this`commitAbstractionMapping
      ensures Valid()
      ensures Todo() == Initialise(old(Todo()), todoLines) && error == InitialiseError(todoLines)
      ensures files == old(files) && sections == old(sections)
      ensures unresolvedMergeConflicts == old(unresolvedMergeConflicts) && allConflicts == old(allConflicts)
    {
      var entries, mapping;
      entries, mapping, error := CollectEntries(todoEntries, ParseTodo(todoLines));
      todoEntries, commitAbstractionMapping := entries, mapping;
    }

    /**
     * `update_rebase_todo_commit_abstraction_map`: initialises an empty mapping, then takes
     * the requests in turn, each changing the dictionary it names, and replaces the mapping
     * only when it gets past every request.
     */
    method UpdateRebaseTodo(todoLines: seq<string>, targets: seq<TodoRequest>) returns (r: Result<UpdateOutcome>)
      requires Valid()
      modifies this`todoEntries, this`commitAbstractionMapping
      ensures Valid()
      ensures (Todo(), r) == UpdateTodo(old(Todo()), todoLines, targets)
      ensures files == old(files) && sections == old(sections)
      ensures unresolvedMergeConflicts == old(unresolvedMergeConflicts) && allConflicts == old(allConflicts)
    {
      if |commitAbstractionMapping| == 0 {
        var error := InitializeCommitAbstractionMapping(todoLines);
        if error.Some? {
          return Err(error.value);
        }
      }
      ghost var s1 := Todo();
      assert s1 == Prepared(old(Todo()), todoLines);
      var n := |commitAbstractionMapping|;
      if |targets| != n {
        assert UpdateTodo(old(Todo()), todoLines, targets) == (s1, Ok(CountMismatch(n, |targets|)));
        return Ok(CountMismatch(n, |targets|));
      }
      var entries, mapping;
      entries, mapping, r := ApplyRequests(todoEntries, commitAbstractionMapping, targets);
      assert UpdateTodo(old(Todo()), todoLines, targets) == (TodoState(entries, mapping), r);
      todoEntries, commitAbstractionMapping := entries, mapping;
    }

    /**
     * `view_rebase_todo`: initialises an empty mapping, then shows one line per listed
     * entry, with its target command.
     */
    method ViewRebaseTodo(todoLines: seq<string>) returns (r: Result<string>)
      requires Valid()
      modifies this
      ensures Valid()
      ensures Todo() == Prepared(old(Todo()), todoLines)
      ensures |old(commitAbstractionMapping)| == 0 && InitialiseError(todoLines).Some? ==>
        r == Err(InitialiseError(todoLines).value)
      ensures !(|old(commitAbstractionMapping)| == 0 && InitialiseError(todoLines).Some?) ==>
        r == Ok(ViewTodo(Listed(Todo())))
      ensures files == old(files) && sections == old(sections)
      ensures unresolvedMergeConflicts == old(unresolvedMergeConflicts) && allConflicts == old(allConflicts)
    {
      if |commitAbstractionMapping| == 0 {
        var error := InitializeCommitAbstractionMapping(todoLines);
        if error.Some? {
          return Err(error.value);
        }
      }
      assert Todo() == Prepared(old(Todo()), todoLines);
      var output := RenderTodo(todoEntries, commitAbstractionMapping);
      return Ok(output);
    }

    /** The todo file `execute_rebase` writes for the listed entries. */
    function RebaseTodoToExecute(): string
      requires Valid()
      reads this
    {
      ExecutionTodo(Listed(Todo()))
    }

    // ----- Merge conflicts -----

    /**
     * `extract_sections_with_conflict_in`: reads the file line by line; an opening marker
     * starts a section and a closing marker ends the current one and appends it to the deque.
     */
    method ExtractSectionsWithConflictIn(path: string) returns (error: Option<Error>)
      requires Valid()
      modifies this
      ensures Valid()
      ensures match ExtractFile(old(files), path, old(Deque()))
        case Ok(q) => error.None? && Deque() == q
        case Err(e) => error == Some(e) && Deque() == old(Deque())
      ensures files == old(files) && Todo() == old(Todo()) && allConflicts == old(allConflicts)
    {
      if path !in files {
        return Some(FileNotFoundError(path));
      }
      var lines := files[path];
      ghost var marks := Markers(lines);
      ghost var sections0 := sections;
      ghost var refs0 := unresolvedMergeConflicts;
      var current: Option<nat> := None;
      var i := 0;
      while i < |lines|
        invariant i <= |lines| && Valid()
        invariant Extract(path, lines, marks, sections0, refs0, i) == Extraction(sections, unresolvedMergeConflicts, current, false)
        invariant files == old(files) && Todo() == old(Todo()) && allConflicts == old(allConflicts)
      {
        if Contains(lines[i], "<<<<<<<") {
          sections := sections + [ConflictSection(path, i, 0, lines)];
          current := Some(|sections| - 1);
        } else if Contains(lines[i], ">>>>>>>") {
          if current.None? {
            ExtractFailsAt(path, lines, marks, sections0, refs0, i);
            return Some(UnboundLocalError);
          }
          var c := current.value;
          sections := sections[c := sections[c].(endLine := i)];
          unresolvedMergeConflicts := unresolvedMergeConflicts + [c];
        }
        i := i + 1;
      }
      return None;
    }

    /**
     * The part of `_setup_merge_conflict_scenario` after the merge: every file in conflict
     * in turn, stopping at the first that raises; after the last, `all_conflicts` becomes a
     * copy of the deque.
     */
    method SetupMergeConflictScenario(paths: seq<string>) returns (error: Option<Error>)
      requires Valid()
      modifies this
      ensures Valid()
      ensures (Deque(), error) == ExtractFiles(old(files), paths, old(Deque()))
      ensures allConflicts == if error.None? then Some(Unresolved()) else old(allConflicts)
      ensures files == old(files) && Todo() == old(Todo())
    {
      var i := 0;
      while i < |paths|
        invariant i <= |paths| && Valid()
        invariant ExtractFiles(old(files), paths, old(Deque())) == ExtractFiles(files, paths[i..], Deque())
        invariant files == old(files) && Todo() == old(Todo()) && allConflicts == old(allConflicts)
      {
        assert paths[i..][1..] == paths[i + 1..];
        error := ExtractSectionsWithConflictIn(paths[i]);
        if error.Some? {
          return;
        }
        i := i + 1;
      }
      assert paths[i..] == [];
      error := None;
      var copy := Unresolved();
      allConflicts := Some(copy);
    }

    /**
     * `resolve_current_merge_conflict_with`: pops the front conflict, splices the resolution
     * into its file in place of the conflict's lines, and moves the remaining conflicts of
     * that file by the change in length; the result is the number of conflicts remaining.
     */
    method ResolveCurrentMergeConflictWith(content: string) returns (r: Result<nat>)
      requires Valid()
      modifies this`files, this`sections, this`unresolvedMergeConflicts
      ensures Valid()
      ensures |old(unresolvedMergeConflicts)| == 0 ==> r == Err(IndexError) && unresolvedMergeConflicts == []
      ensures |old(unresolvedMergeConflicts)| > 0 ==>
        var c := old(sections[unresolvedMergeConflicts[0]]);
        && unresolvedMergeConflicts == old(unresolvedMergeConflicts[1..])
        && (c.file !in old(files) ==> r == Err(FileNotFoundError(c.file)) && files == old(files) && sections == old(sections))
        && (c.file in old(files) ==>
              var resolution := ResolutionLines(content);
              var result := Splice(old(files)[c.file], c.beginLine, c.endLine, resolution);
              var offset := |resolution| - (c.endLine - c.beginLine + 1);
              && r == Ok(|unresolvedMergeConflicts|)
              && files == old(files)[c.file := result]
              && sections == ShiftAll(old(sections), unresolvedMergeConflicts, c.file, offset, |result|))
      ensures |old(unresolvedMergeConflicts)| == 0 ==> files == old(files) && sections == old(sections)
      ensures Todo() == old(Todo()) && allConflicts == old(allConflicts)
    {
      if |unresolvedMergeConflicts| == 0 {
        return Err(IndexError);
      }
      var next := sections[unresolvedMergeConflicts[0]];
      unresolvedMergeConflicts := unresolvedMergeConflicts[1..];
      if next.file !in files {
        return Err(FileNotFoundError(next.file));
      }
      var resolution := ResolutionLines(content);
      var result := Splice(files[next.file], next.beginLine, next.endLine, resolution);
      files := files[next.file := result];
      if |unresolvedMergeConflicts| == 0 {
        return Ok(0);
      }
      var offset := |resolution| - (next.endLine - next.beginLine + 1);
      var refs := unresolvedMergeConflicts;
      var shifted := sections;
      var k := 0;
      while k < |refs|
        invariant k <= |refs| && |shifted| == |sections|
        invariant shifted == ShiftAll(sections, refs[..k], next.file, offset, |result|)
      {
        var at := refs[k];
        var c := shifted[at];
        if c.file == next.file {
          var begin := if c.beginLine + offset >= 0 then c.beginLine + offset else 0;
          var end := if c.endLine + offset <= |result| - 1 then c.endLine + offset else |result| - 1;
          shifted := shifted[at := c.(beginLine := begin, endLine := end)];
        }
        assert refs[..k + 1][..k] == refs[..k];
        k := k + 1;
      }
      assert refs[..k] == refs;
      sections := shifted;
      return Ok(|refs|);
    }

    /** `_get_files_with_conflicts` over the deque. */
    function GetFilesWithConflicts(): string
      requires Valid()
      reads this
    {
      FilesWithConflicts(Unresolved())
    }

    /** `view_conflict_at` over `all_conflicts`. */
    function ViewConflictAt(conflictIndex: int, contextWindowSize: int): string
      requires Valid()
      reads this
    {
      ConflictView(AllConflicts(), conflictIndex, contextWindowSize)
    }
  }

  /** The loop of `view_rebase_todo`: one line per entry the mapping lists, in order. */
  method RenderTodo(entries: seq<TodoEntry>, mapping: seq<nat>) returns (output: string)
    requires StateValid(TodoState(entries, mapping))
    ensures output == ViewTodo(Listed(TodoState(entries, mapping)))
  {
    ghost var listed := Listed(TodoState(entries, mapping));
    output := "";
    var i := 0;
    while i < |mapping|
      invariant i <= |mapping|
      invariant output == ViewTodo(listed[..i])
    {
      var item := entries[mapping[i]];
      assert listed[..i + 1] == listed[..i] + [item];
      ViewTodoSnoc(listed[..i], item);
      output := output + ViewLine(item);
      i := i + 1;
    }
    assert listed[..i] == listed;
  }

  /**
   * The loop of `_initialize_commit_abstraction_mapping` over the parsed todo lines: a new
   * dictionary per line after `base`, listed in order, up to the first line that does not
   * parse, whose error is returned.
   */
  method CollectEntries<T>(base: seq<T>, parsed: seq<Result<T>>) returns (entries: seq<T>, mapping: seq<nat>, error: Option<Error>)
    ensures entries == base + Values(parsed, FirstErr(parsed))
    ensures mapping == Fresh(|base|, FirstErr(parsed))
    ensures error == if FirstErr(parsed) < |parsed| then Some(parsed[FirstErr(parsed)].error) else None
  {
    entries := base;
    mapping := [];
    var i := 0;
    while i < |parsed|
      invariant i <= FirstErr(parsed)
      invariant entries == base + Values(parsed, i)
      invariant mapping == Fresh(|base|, i)
    {
      var entry := parsed[i];
      if entry.Err? {
        FirstErrAt(parsed, i);
        return entries, mapping, Some(entry.error);
      }
      ValuesSnoc(parsed, i);
      var created: nat := |entries|;
      assert created == |base| + i;
      FreshSnoc(mapping, |base|, i);
      mapping := mapping + [created];
      entries := entries + [entry.value];
      i := i + 1;
    }
    error := None;
  }

  /**
   * The loop of `update_rebase_todo_commit_abstraction_map` over requests: each accepted
   * request changes the dictionary it names and records it for the new mapping, until the
   * first request the loop cannot take.
   */
  method EditRequested(entries: seq<TodoEntry>, mapping: seq<nat>, targets: seq<TodoRequest>)
    returns (edited: seq<TodoEntry>, picked: seq<nat>, stop: nat)
    requires StateValid(TodoState(entries, mapping))
    ensures stop == FirstRejected(|mapping|, targets)
    ensures AllAccepted(|mapping|, targets[..stop])
    ensures edited == EditAll(entries, mapping, targets[..stop])
    ensures picked == Picked(mapping, targets[..stop])
  {
    var n := |mapping|;
    edited, picked := entries, [];
    stop := 0;
    while stop < |targets|
      invariant stop <= |targets| && |edited| == |entries|
      invariant AllAccepted(n, targets[..stop])
      invariant edited == EditAll(entries, mapping, targets[..stop])
      invariant picked == Picked(mapping, targets[..stop])
    {
      var t := targets[stop];
      if !Accepted(n, t) {
        break;
      }
      var ref := mapping[PyListIndex(n, t.commitIndex).value];
      EditAllStep(entries, mapping, targets, stop, edited, picked);
      picked := picked + [ref];
      edited := edited[ref := Edit(edited[ref], t)];
      stop := stop + 1;
    }
    FirstRejectedAt(n, targets, stop);
  }

  /**
   * `update_rebase_todo_commit_abstraction_map` once the counts agree: the edits of the
   * accepted requests are kept, and the new mapping is returned only when every request is
   * accepted. `Rejection` says which of the loop's checks, in their order, stops it.
   */
  method ApplyRequests(entries: seq<TodoEntry>, mapping: seq<nat>, targets: seq<TodoRequest>)
    returns (entries': seq<TodoEntry>, mapping': seq<nat>, r: Result<UpdateOutcome>)
    requires StateValid(TodoState(entries, mapping)) && |targets| == |mapping|
    ensures var k := FirstRejected(|mapping|, targets);
      && entries' == EditAll(entries, mapping, targets[..k])
      && (k == |targets| ==> mapping' == Picked(mapping, targets) && r == Ok(Updated))
      && (k < |targets| ==> mapping' == mapping && r == Rejection(|mapping|, targets[k]))
  {
    var picked, stop;
    entries', picked, stop := EditRequested(entries, mapping, targets);
    if stop < |targets| {
      return entries', mapping, Rejection(|mapping|, targets[stop]);
    }
    assert targets[..stop] == targets;
    mapping', r := picked, Ok(Updated);
  }
}
