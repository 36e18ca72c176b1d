/**
 * The rebase todo of the rebase scenario: each line of git's `git-rebase-todo` file is
 * parsed into an entry (command, commit, message and the command the agent wants), the
 * entries are shown to the agent one per line, and rendered for execution with the
 * commands that would open an editor replaced by an `exec` that amends the message.
 */
module RebaseTodo {
  import opened Text
  import opened Results

  /** One dictionary of `commit_abstraction_mapping`. */
  datatype TodoEntry = TodoEntry(command: string, commit: string, commitMsg: string, targetCommand: string)

  /** `VALID_REBASE_COMMANDS`. */
  const ValidRebaseCommands: seq<string> := ["pick", "drop", "fixup", "fixup -C", "squash", "reword"]

  /** The longest prefix of `s` without white space: what `\S+` matches at the start of `s`. */
  function Token(s: string): (r: string)
    ensures |r| <= |s| && r == s[..|r|]
    ensures forall k :: 0 <= k < |r| ==> !IsSpace(r[k])
    ensures |r| < |s| ==> IsSpace(s[|r|])
    decreases |s|
  {
    if |s| == 0 || IsSpace(s[0]) then "" else [s[0]] + Token(s[1..])
  }

  /**
   * The groups of `^(\S+)\s+ … (\S+)\s+(.*)$` with `n` token groups, matched against a
   * stripped line `t`: each token is followed by white space, and the rest, which `.`
   * must match, holds no newline. As `t` is stripped it does not end in a newline, so `$`
   * matches only at its end.
   */
  function MatchFields(t: string, n: nat): (r: Option<seq<string>>)
    ensures r.Some? ==> |r.value| == n + 1
    decreases n
  {
    if n == 0 then
      if '\n' in t then None else Some([t])
    else
      var tok := Token(t);
      var rest := t[|tok|..];
      if |tok| == 0 || |rest| == 0 then None
      else
        match MatchFields(TrimStart(rest), n - 1)
        case None => None
        case Some(groups) => Some([tok] + groups)
  }

  /**
   * The parse of one todo line in `_initialize_commit_abstraction_mapping`: a line holding
   * `fixup -C` takes its first two tokens as the command, any other line its first token;
   * then come the commit and the message. A line that does not match leaves the dictionary
   * without `command`, and reading it raises `KeyError`.
   */
  function ParseTodoLine(line: string): (r: Result<TodoEntry>)
    ensures r.Ok? ==> r.value.targetCommand == r.value.command
    ensures r.Err? ==> r.error == KeyError("command")
  {
    var t := Strip(line);
    if Contains(line, "fixup -C") then
      match MatchFields(t, 3)
      case None => Err(KeyError("command"))
      case Some(g) => Ok(TodoEntry(g[0] + " " + g[1], g[2], g[3], g[0] + " " + g[1]))
    else
      match MatchFields(t, 2)
      case None => Err(KeyError("command"))
      case Some(g) => Ok(TodoEntry(g[0], g[1], g[2], g[0]))
  }

  /** The line `view_rebase_todo` shows for an entry. */
  function ViewLine(e: TodoEntry): string {
    e.targetCommand + " " + e.commit + " " + e.commitMsg + "\n"
  }

  /** `view_rebase_todo` once the mapping is initialised: one line per entry, in order. */
  function ViewTodo(entries: seq<TodoEntry>): (r: string)
    ensures |entries| == 0 <==> r == ""
    decreases |entries|
  {
    if |entries| == 0 then "" else ViewLine(entries[0]) + ViewTodo(entries[1..])
  }

  /** Showing one more entry adds its line at the end. */
  lemma {:induction false} ViewTodoSnoc(entries: seq<TodoEntry>, e: TodoEntry)
    ensures ViewTodo(entries + [e]) == ViewTodo(entries) + ViewLine(e)
    decreases |entries|
  {
    if |entries| == 0 {
      assert [e][1..] == [];
    } else {
      assert (entries + [e])[1..] == entries[1..] + [e];
      ViewTodoSnoc(entries[1..], e);
    }
  }

  /** The amend step that replaces the message editor of `reword` and `squash`. */
  function AmendLine(msg: string): string {
    "exec git commit --amend -m '" + msg + "'\n"
  }

  /** The command a target command runs as once the editor is avoided. */
  function ExecutedCommand(command: string): string {
    if command == "reword" then "pick" else if command == "squash" then "fixup" else command
  }

  /** The lines `execute_rebase` writes for one entry. A command it does not know writes nothing. */
  function ExecutionLines(e: TodoEntry): string {
    var c := e.targetCommand;
    if c == "pick" || c == "drop" || c == "fixup" || c == "fixup -C" then
      c + " " + e.commit + " " + e.commitMsg + "\n"
    else if c == "reword" then
      "pick " + e.commit + " " + e.commitMsg + "\n" + AmendLine(e.commitMsg)
    else if c == "fixup -c" then
      "fixup -C " + e.commit + " " + e.commitMsg + "\n"
    else if c == "squash" then
      "fixup " + e.commit + " " + e.commitMsg + "\n" + AmendLine(e.commitMsg)
    else ""
  }

  /** The todo file `execute_rebase` writes: the lines of every entry, in order. */
  function ExecutionTodo(entries: seq<TodoEntry>): string
    decreases |entries|
  {
    if |entries| == 0 then "" else ExecutionLines(entries[0]) + ExecutionTodo(entries[1..])
  }

  /**
   * Every supported command is rendered for execution as its shown line with the command
   * it runs as, followed by an amend step exactly for `reword` and `squash`.
   */
  lemma ExecutionLinesOfValid(e: TodoEntry)
    requires e.targetCommand in ValidRebaseCommands
    ensures ExecutionLines(e) ==
      ViewLine(e.(targetCommand := ExecutedCommand(e.targetCommand)))
      + (if e.targetCommand in ["reword", "squash"] then AmendLine(e.commitMsg) else "")
  {
    var rest := e.commit + " " + e.commitMsg + "\n";
    if e.targetCommand == "reword" {
      assert "pick " + e.commit + " " + e.commitMsg + "\n" == "pick" + " " + rest;
    } else if e.targetCommand == "squash" {
      assert "fixup " + e.commit + " " + e.commitMsg + "\n" == "fixup" + " " + rest;
    }
  }

  /** An entry whose command `execute_rebase` does not know is dropped from the executed todo. */
  lemma UnknownCommandDropped(e: TodoEntry)
    requires e.targetCommand !in ValidRebaseCommands && e.targetCommand != "fixup -c"
    ensures ExecutionLines(e) == ""
  {
  }

  /** When no entry asks for `reword` or `squash`, the executed todo is the todo the agent was shown. */
  lemma {:induction false} ExecutionMatchesView(entries: seq<TodoEntry>)
    requires forall k :: 0 <= k < |entries| ==> entries[k].targetCommand in ["pick", "drop", "fixup", "fixup -C"]
    ensures ExecutionTodo(entries) == ViewTodo(entries)
    decreases |entries|
  {
    if |entries| > 0 {
      ExecutionMatchesView(entries[1..]);
    }
  }

  /** A word `\S+` matches whole: non-empty and without white space. */
  predicate IsWord(s: string) {
    |s| > 0 && forall k :: 0 <= k < |s| ==> !IsSpace(s[k])
  }

  /** A message `(.*)` gives back unchanged from a stripped line: no newline, no white space at either end. */
  predicate IsMessage(s: string) {
    |s| > 0 && !IsSpace(s[0]) && !IsSpace(s[|s| - 1]) && '\n' !in s
  }

  /** An entry whose shown line parses back into it. */
  predicate Parsable(e: TodoEntry) {
    && IsWord(e.commit)
    && IsMessage(e.commitMsg)
    && (e.targetCommand == "fixup -C"
        || (IsWord(e.targetCommand) && !Contains(ViewLine(e), "fixup -C")))
  }

  lemma {:induction false} TokenOfWord(w: string, rest: string)
    requires IsWord(w) && |rest| > 0 && IsSpace(rest[0])
    ensures Token(w + rest) == w
    decreases |w|
  {
    if |w| > 1 {
      assert (w + rest)[1..] == w[1..] + rest;
      TokenOfWord(w[1..], rest);
    } else {
      assert (w + rest)[1..] == rest;
    }
  }

  lemma TrimStartOfSpace(s: string)
    requires |s| > 0 && !IsSpace(s[0])
    ensures TrimStart(" " + s) == s
  {
    assert (" " + s)[1..] == s;
  }

  /** Matching `w (\s+ …)` takes `w` as its first group and matches the rest after the space. */
  lemma MatchWord(w: string, s: string, n: nat)
    requires IsWord(w) && |s| > 0 && !IsSpace(s[0]) && n > 0
    ensures MatchFields(w + " " + s, n) ==
      match MatchFields(s, n - 1)
      case None => None
      case Some(g) => Some([w] + g)
  {
    assert w + " " + s == w + (" " + s);
    TokenOfWord(w, " " + s);
    assert (w + " " + s)[|w|..] == " " + s;
    TrimStartOfSpace(s);
  }

  lemma StripOfLine(body: string)
    requires |body| > 0 && !IsSpace(body[0]) && !IsSpace(body[|body| - 1])
    ensures Strip(body + "\n") == body
  {
    assert TrimStart(body + "\n") == body + "\n";
    assert (body + "\n")[..|body|] == body;
    assert TrimEnd(body) == body;
  }

  /** The commit and the message of a shown line are matched whole by `(\S+)\s+(.*)$`. */
  lemma MatchTail(commit: string, msg: string)
    requires IsWord(commit) && IsMessage(msg)
    ensures MatchFields(commit + " " + msg, 1) == Some([commit, msg])
  {
    assert MatchFields(msg, 0) == Some([msg]);
    MatchWord(commit, msg, 1);
    assert [commit] + [msg] == [commit, msg];
  }

  /** The stripped line, as the parse sees it, of a shown line. */
  lemma StrippedViewLine(e: TodoEntry)
    requires Parsable(e)
    ensures Strip(ViewLine(e)) == e.targetCommand + " " + e.commit + " " + e.commitMsg
  {
    var body := e.targetCommand + " " + e.commit + " " + e.commitMsg;
    assert ViewLine(e) == body + "\n";
    StripOfLine(body);
  }

  lemma ViewLineHoldsFixupC(e: TodoEntry)
    requires e.targetCommand == "fixup -C"
    ensures Contains(ViewLine(e), "fixup -C")
  {
    var line := ViewLine(e);
    assert line[0..8] == e.targetCommand;
    ContainsAt(line, "fixup -C", 0);
  }

  /** The three groups of a shown line whose command is a single word. */
  lemma MatchPlain(command: string, commit: string, msg: string)
    requires IsWord(command) && IsWord(commit) && IsMessage(msg)
    ensures MatchFields(command + " " + commit + " " + msg, 2) == Some([command, commit, msg])
  {
    var rest := commit + " " + msg;
    assert command + " " + commit + " " + msg == command + " " + rest;
    assert rest[0] == commit[0];
    MatchTail(commit, msg);
    MatchWord(command, rest, 2);
    assert [command] + [commit, msg] == [command, commit, msg];
  }

  /** The four groups of a shown line whose command is two words. */
  lemma MatchTwoWordCommand(first: string, second: string, commit: string, msg: string)
    requires IsWord(first) && IsWord(second) && IsWord(commit) && IsMessage(msg)
    ensures MatchFields(first + " " + second + " " + commit + " " + msg, 3) == Some([first, second, commit, msg])
  {
    var rest := second + " " + commit + " " + msg;
    assert first + " " + second + " " + commit + " " + msg == first + " " + rest;
    assert rest[0] == second[0];
    MatchPlain(second, commit, msg);
    MatchWord(first, rest, 3);
    ConsFour(first, second, commit, msg);
  }

  lemma ConsFour<T>(a: T, b: T, c: T, d: T)
    ensures [a] + [b, c, d] == [a, b, c, d]
  {
  }

  lemma FixupCWords()
    ensures IsWord("fixup") && IsWord("-C") && "fixup -C" == "fixup" + " " + "-C"
  {
  }

  /**
   * Shown lines parse back: the line `view_rebase_todo` shows for a parsable entry is read
   * by `_initialize_commit_abstraction_mapping` as that entry with its target command as command.
   */
  lemma ParseViewLine(e: TodoEntry)
    requires Parsable(e)
    ensures ParseTodoLine(ViewLine(e)) == Ok(TodoEntry(e.targetCommand, e.commit, e.commitMsg, e.targetCommand))
  {
    StrippedViewLine(e);
    if e.targetCommand == "fixup -C" {
      ViewLineHoldsFixupC(e);
      FixupCWords();
      MatchTwoWordCommand("fixup", "-C", e.commit, e.commitMsg);
    } else {
      MatchPlain(e.targetCommand, e.commit, e.commitMsg);
    }
  }

  // ----- The mapping: `_initialize_commit_abstraction_mapping` and `update_rebase_todo_commit_abstraction_map` -----

  /**
   * The mapping's state: every entry dictionary created so far (a reference is an index
   * into `entries`), and the list `commit_abstraction_mapping` as references. Two positions
   * of the list can hold the same dictionary.
   */
  datatype TodoState = TodoState(entries: seq<TodoEntry>, mapping: seq<nat>)

  predicate StateValid(s: TodoState) {
    forall k :: 0 <= k < |s.mapping| ==> s.mapping[k] < |s.entries|
  }

  /** The entries the mapping lists, in order. */
  function Listed(s: TodoState): (r: seq<TodoEntry>)
    requires StateValid(s)
    ensures |r| == |s.mapping|
  {
    seq(|s.mapping|, k requires 0 <= k < |s.mapping| => s.entries[s.mapping[k]])
  }

  /** What `_initialize_commit_abstraction_mapping` makes of each todo line. */
  function ParseTodo(lines: seq<string>): (r: seq<Result<TodoEntry>>)
    ensures |r| == |lines|
  {
    seq(|lines|, k requires 0 <= k < |lines| => ParseTodoLine(lines[k]))
  }

  /** The references `base`, `base + 1`, … of `n` new dictionaries. */
  function Fresh(base: nat, n: nat): (r: seq<nat>)
    ensures |r| == n && forall k :: 0 <= k < n ==> r[k] == base + k
  {
    if n == 0 then [] else Fresh(base, n - 1) + [base + n - 1]
  }

  lemma FreshSnoc(mapping: seq<nat>, base: nat, n: nat)
    requires mapping == Fresh(base, n)
    ensures mapping + [base + n] == Fresh(base, n + 1)
  {
  }

  /**
   * `_initialize_commit_abstraction_mapping`: the mapping is reset and gets a new
   * dictionary per todo line, in order, up to the first line that does not parse, where
   * `KeyError` leaves the entries read so far.
   */
  function Initialise(s: TodoState, lines: seq<string>): (r: TodoState)
    ensures StateValid(r)
  {
    var parsed := ParseTodo(lines);
    var n := FirstErr(parsed);
    TodoState(s.entries + Values(parsed, n), Fresh(|s.entries|, n))
  }

  /** The error initialising raises, if any. */
  function InitialiseError(lines: seq<string>): Option<Error> {
    var parsed := ParseTodo(lines);
    if FirstErr(parsed) < |parsed| then Some(parsed[FirstErr(parsed)].error) else None
  }

  /** One todo line per entry: after initialising, the mapping lists the parsed todo lines. */
  lemma InitialiseLists(s: TodoState, lines: seq<string>)
    ensures var parsed := ParseTodo(lines);
      Listed(Initialise(s, lines)) == Values(parsed, FirstErr(parsed))
    ensures InitialiseError(lines).None? ==> |Listed(Initialise(s, lines))| == |lines|
  {
  }

  /** One item of the `rebase_todo_items` the agent passes; `commit_msg` may be left out. */
  datatype TodoRequest = TodoRequest(commitIndex: int, command: string, commitMsg: Option<string>)

  /** The outcome of a completed update: `(True, '')`, or `(False, msg)` for one of the two rejections. */
  datatype UpdateOutcome = Updated | CountMismatch(original: nat, specified: nat) | UnsupportedCommand(command: string)

  /** Python's `lst[i]` on a list of length `n`: the position, or `None` for `IndexError`. */
  function PyListIndex(n: nat, i: int): (r: Option<nat>)
    ensures r.Some? ==> r.value < n
    ensures r.Some? <==> -(n as int) <= i < n
  {
    if 0 <= i < n then Some(i) else if -(n as int) <= i < 0 then Some((n as int + i) as nat) else None
  }

  /** A request the loop gets past: a valid command and an index into the mapping. */
  predicate Accepted(n: nat, t: TodoRequest) {
    t.command in ValidRebaseCommands && PyListIndex(n, t.commitIndex).Some?
  }

  predicate AllAccepted(n: nat, targets: seq<TodoRequest>) {
    forall j :: 0 <= j < |targets| ==> Accepted(n, targets[j])
  }

  /** The first request from `from` on that the loop stops at, or the number of requests. */
  function FirstRejectedFrom(n: nat, targets: seq<TodoRequest>, from: nat): (k: nat)
    requires from <= |targets|
    ensures from <= k <= |targets|
    ensures forall j :: from <= j < k ==> Accepted(n, targets[j])
    ensures k < |targets| ==> !Accepted(n, targets[k])
    decreases |targets| - from
  {
    if from == |targets| || !Accepted(n, targets[from]) then from
    else FirstRejectedFrom(n, targets, from + 1)
  }

  /** The first request the loop stops at, or the number of requests. */
  function FirstRejected(n: nat, targets: seq<TodoRequest>): (k: nat)
    ensures k <= |targets|
    ensures forall j :: 0 <= j < k ==> Accepted(n, targets[j])
    ensures k < |targets| ==> !Accepted(n, targets[k])
  {
    FirstRejectedFrom(n, targets, 0)
  }

  lemma {:induction false} FirstRejectedFromAt(n: nat, targets: seq<TodoRequest>, from: nat, i: nat)
    requires from <= i <= |targets|
    requires forall j :: from <= j < i ==> Accepted(n, targets[j])
    requires i < |targets| ==> !Accepted(n, targets[i])
    ensures FirstRejectedFrom(n, targets, from) == i
    decreases i - from
  {
    if from < i {
      FirstRejectedFromAt(n, targets, from + 1, i);
    }
  }

  /** The loop stops at `i` when every request before it is accepted and it is not (or it is the end). */
  lemma FirstRejectedAt(n: nat, targets: seq<TodoRequest>, i: nat)
    requires i <= |targets| && AllAccepted(n, targets[..i])
    requires i < |targets| ==> !Accepted(n, targets[i])
    ensures FirstRejected(n, targets) == i
  {
    forall j | 0 <= j < i
      ensures Accepted(n, targets[j])
    {
      assert targets[..i][j] == targets[j];
    }
    FirstRejectedFromAt(n, targets, 0, i);
  }

  /**
   * What the loop does at a rejected request: an index at or past the end raises
   * `IndexError` before the command is checked, an unsupported command returns
   * `(False, msg)`, and an index before the start raises `IndexError` when read.
   */
  function Rejection(n: nat, t: TodoRequest): Result<UpdateOutcome> {
    if t.commitIndex >= n then Err(IndexError)
    else if t.command !in ValidRebaseCommands then Ok(UnsupportedCommand(t.command))
    else Err(IndexError)
  }

  /** A request's change to the dictionary it names: the target command, and the message when one is given. */
  function Edit(e: TodoEntry, t: TodoRequest): (r: TodoEntry)
    ensures r.command == e.command && r.commit == e.commit && r.targetCommand == t.command
    ensures r.commitMsg == (if t.commitMsg.Some? then t.commitMsg.value else e.commitMsg)
  {
    e.(targetCommand := t.command, commitMsg := if t.commitMsg.Some? then t.commitMsg.value else e.commitMsg)
  }

  /** The dictionaries the requests name, in the order of the requests. */
  function Picked(mapping: seq<nat>, targets: seq<TodoRequest>): (r: seq<nat>)
    requires AllAccepted(|mapping|, targets)
    ensures |r| == |targets|
  {
    seq(|targets|, j requires 0 <= j < |targets| => mapping[PyListIndex(|mapping|, targets[j].commitIndex).value])
  }

  /** The dictionaries after the requests' changes, made one request after the other. */
  function EditAll(entries: seq<TodoEntry>, mapping: seq<nat>, targets: seq<TodoRequest>): (r: seq<TodoEntry>)
    requires forall k :: 0 <= k < |mapping| ==> mapping[k] < |entries|
    requires AllAccepted(|mapping|, targets)
    ensures |r| == |entries|
    decreases |targets|
  {
    if |targets| == 0 then entries
    else
      var before := EditAll(entries, mapping, targets[..|targets| - 1]);
      var t := targets[|targets| - 1];
      var ref := mapping[PyListIndex(|mapping|, t.commitIndex).value];
      before[ref := Edit(before[ref], t)]
  }

  /** One more accepted request extends both the edits and the picked dictionaries by that request. */
  lemma EditAllStep(entries: seq<TodoEntry>, mapping: seq<nat>, targets: seq<TodoRequest>, i: nat,
                    edited: seq<TodoEntry>, picked: seq<nat>)
    requires forall k :: 0 <= k < |mapping| ==> mapping[k] < |entries|
    requires i < |targets| && AllAccepted(|mapping|, targets[..i]) && Accepted(|mapping|, targets[i])
    requires edited == EditAll(entries, mapping, targets[..i])
    requires picked == Picked(mapping, targets[..i])
    ensures AllAccepted(|mapping|, targets[..i + 1])
    ensures var ref := mapping[PyListIndex(|mapping|, targets[i].commitIndex).value];
      && edited[ref := Edit(edited[ref], targets[i])] == EditAll(entries, mapping, targets[..i + 1])
      && picked + [ref] == Picked(mapping, targets[..i + 1])
  {
    var n := |mapping|;
    var next := targets[..i + 1];
    assert next[..i] == targets[..i] && next[i] == targets[i];
    assert AllAccepted(n, next) by {
      forall j | 0 <= j < i + 1
        ensures Accepted(n, next[j])
      {
        if j < i {
          assert next[j] == targets[..i][j];
        }
      }
    }
    var ref := mapping[PyListIndex(n, targets[i].commitIndex).value];
    assert EditAll(entries, mapping, next) == edited[ref := Edit(edited[ref], targets[i])];
    var p := Picked(mapping, next);
    assert |p| == |picked| + 1;
    forall j | 0 <= j < i + 1
      ensures p[j] == (picked + [ref])[j]
    {
      if j < i {
        assert next[j] == targets[..i][j];
      }
    }
  }

  /** The state the update works on: an empty mapping is initialised first. */
  function Prepared(s: TodoState, lines: seq<string>): (r: TodoState)
    requires StateValid(s)
    ensures StateValid(r)
  {
    if |s.mapping| == 0 then Initialise(s, lines) else s
  }

  /**
   * `update_rebase_todo_commit_abstraction_map`: the new state and the outcome. An empty
   * mapping is initialised first; the changes of the requests before a rejected one stay
   * in their dictionaries, but only a loop that gets past every request replaces the list.
   */
  function UpdateTodo(s: TodoState, lines: seq<string>, targets: seq<TodoRequest>): (TodoState, Result<UpdateOutcome>)
    requires StateValid(s)
  {
    var s1 := Prepared(s, lines);
    if |s.mapping| == 0 && InitialiseError(lines).Some? then (s1, Err(InitialiseError(lines).value))
    else if |targets| != |s1.mapping| then (s1, Ok(CountMismatch(|s1.mapping|, |targets|)))
    else
      var k := FirstRejected(|s1.mapping|, targets);
      var edited := EditAll(s1.entries, s1.mapping, targets[..k]);
      if k == |targets| then (TodoState(edited, Picked(s1.mapping, targets)), Ok(Updated))
      else (TodoState(edited, s1.mapping), Rejection(|s1.mapping|, targets[k]))
  }

  lemma {:induction false} EditAllKeeps(entries: seq<TodoEntry>, mapping: seq<nat>, targets: seq<TodoRequest>, r: nat)
    requires forall k :: 0 <= k < |mapping| ==> mapping[k] < |entries|
    requires AllAccepted(|mapping|, targets)
    requires r < |entries| && r !in Picked(mapping, targets)
    ensures EditAll(entries, mapping, targets)[r] == entries[r]
    decreases |targets|
  {
    if |targets| > 0 {
      var init := targets[..|targets| - 1];
      assert Picked(mapping, init) == Picked(mapping, targets)[..|targets| - 1];
      assert Picked(mapping, targets)[|targets| - 1] != r;
      EditAllKeeps(entries, mapping, init, r);
    }
  }

  /** A dictionary named by exactly one request carries that request's change. */
  lemma {:induction false} EditAllOnce(entries: seq<TodoEntry>, mapping: seq<nat>, targets: seq<TodoRequest>, j: nat)
    requires forall k :: 0 <= k < |mapping| ==> mapping[k] < |entries|
    requires AllAccepted(|mapping|, targets)
    requires j < |targets|
    requires forall i :: 0 <= i < |targets| && i != j ==> Picked(mapping, targets)[i] != Picked(mapping, targets)[j]
    ensures var p := Picked(mapping, targets)[j];
      EditAll(entries, mapping, targets)[p] == Edit(entries[p], targets[j])
    decreases |targets|
  {
    var init := targets[..|targets| - 1];
    assert Picked(mapping, init) == Picked(mapping, targets)[..|targets| - 1];
    var p := Picked(mapping, targets)[j];
    var last := Picked(mapping, targets)[|targets| - 1];
    if j == |targets| - 1 {
      assert p !in Picked(mapping, init);
      EditAllKeeps(entries, mapping, init, p);
    } else {
      assert Picked(mapping, init)[j] == p;
      EditAllOnce(entries, mapping, init, j);
      assert last != p;
    }
  }

  /** The update succeeds exactly when the todo parses (if read), the counts agree and every request is accepted. */
  lemma UpdateSucceeds(s: TodoState, lines: seq<string>, targets: seq<TodoRequest>)
    requires StateValid(s)
    ensures var s1 := Prepared(s, lines);
      UpdateTodo(s, lines, targets).1 == Ok(Updated) <==>
        && (|s.mapping| == 0 ==> InitialiseError(lines).None?)
        && |targets| == |s1.mapping|
        && AllAccepted(|s1.mapping|, targets)
    ensures UpdateTodo(s, lines, targets).1 != Ok(Updated) ==>
      UpdateTodo(s, lines, targets).0.mapping == Prepared(s, lines).mapping
  {
  }

  /**
   * After a successful update whose requests name different dictionaries, the mapping
   * lists the named entries in the order of the requests, each with its target command
   * set and its message changed only when one was given.
   */
  lemma UpdateLists(s: TodoState, lines: seq<string>, targets: seq<TodoRequest>, j: nat)
    requires StateValid(s) && (|s.mapping| == 0 ==> InitialiseError(lines).None?)
    requires |targets| == |Prepared(s, lines).mapping|
    requires AllAccepted(|Prepared(s, lines).mapping|, targets)
    requires j < |targets|
    requires forall i :: 0 <= i < |targets| && i != j ==>
      Picked(Prepared(s, lines).mapping, targets)[i] != Picked(Prepared(s, lines).mapping, targets)[j]
    ensures var s1 := Prepared(s, lines);
      var s2 := UpdateTodo(s, lines, targets).0;
      && UpdateTodo(s, lines, targets).1 == Ok(Updated)
      && StateValid(s2) && |Listed(s2)| == |targets|
      && Listed(s2)[j] == Edit(Listed(s1)[PyListIndex(|s1.mapping|, targets[j].commitIndex).value], targets[j])
  {
    var s1 := Prepared(s, lines);
    assert FirstRejected(|s1.mapping|, targets) == |targets|;
    assert targets[..|targets|] == targets;
    EditAllOnce(s1.entries, s1.mapping, targets, j);
  }

  /**
   * Two requests with the same index list the same dictionary twice, and both positions
   * show the later request's command.
   */
  lemma SameIndexShared(s: TodoState, t1: TodoRequest, t2: TodoRequest)
    requires StateValid(s) && |s.mapping| == 2
    requires Accepted(2, t1) && Accepted(2, t2) && t1.commitIndex == t2.commitIndex
    ensures var s2 := UpdateTodo(s, [], [t1, t2]).0;
      && StateValid(s2) && UpdateTodo(s, [], [t1, t2]).1 == Ok(Updated)
      && Listed(s2)[0] == Listed(s2)[1] && Listed(s2)[0].targetCommand == t2.command
  {
    var ts := [t1, t2];
    assert FirstRejected(2, ts) == 2 by {
      assert ts[1..] == [t2];
      assert [t2][1..] == [];
    }
    assert ts[..2] == ts;
    assert ts[..1] == [t1];
    assert [t1][..0] == [];
  }

  /**
   * The changes of the requests before an unsupported command stay in their dictionaries
   * although the update returns `(False, msg)`: here the first entry is shown as `drop`.
   */
  lemma RejectedUpdateKeepsEdits(s: TodoState)
    requires StateValid(s) && |s.mapping| == 2 && s.mapping[0] != s.mapping[1]
    ensures var r := UpdateTodo(s, [], [TodoRequest(0, "drop", None), TodoRequest(1, "edit", None)]);
      && r.1 == Ok(UnsupportedCommand("edit"))
      && r.0.mapping == s.mapping
      && StateValid(r.0) && Listed(r.0)[0].targetCommand == "drop"
  {
    var ts := [TodoRequest(0, "drop", None), TodoRequest(1, "edit", None)];
    assert "edit" !in ValidRebaseCommands;
    assert Accepted(2, ts[0]);
    assert FirstRejected(2, ts) == 1 by {
      assert ts[1..] == [ts[1]];
    }
    assert ts[..1] == [ts[0]];
    assert [ts[0]][..0] == [];
  }
}
