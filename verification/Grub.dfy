/** The GRUB typing script of the installers: one line per prompt, after the menu is up. */
module Grub {
  import opened Options

  const PROMPT := "grub>"

  predicate At(log: string, word: string, i: nat) {
    i + |word| <= |log| && log[i..i + |word|] == word
  }

  predicate Contains(log: string, word: string) {
    exists i: nat | i <= |log| :: At(log, word, i)
  }

  /** Occurrences that do not overlap, from the left. */
  function Occurrences(log: string, word: string): nat
    requires word != ""
  {
    if |log| < |word| then 0
    else if log[..|word|] == word then 1 + Occurrences(log[|word|..], word)
    else Occurrences(log[1..], word)
  }

  /** What the script has done: whether the command line is open, and the lines typed. */
  datatype State = State(entered: bool, sent: nat)

  function Line(command: string): string {
    command + "\r"
  }

  function Next(marker: string, commands: seq<string>, s: State, log: string): (State, Option<string>) {
    if !s.entered then
      if Contains(log, marker) then (State(true, s.sent), Some("c")) else (s, None)
    else if s.sent >= |commands| || Occurrences(log, PROMPT) <= s.sent then (s, None)
    else (State(true, s.sent + 1), Some(Line(commands[s.sent])))
  }

  class GrubScript {
    const marker: string
    const commands: seq<string>
    var entered: bool
    var sent: nat

    constructor (marker: string, commands: seq<string>)
      ensures this.marker == marker && this.commands == commands && View() == State(false, 0)
    {
      this.marker, this.commands := marker, commands;
      entered, sent := false, 0;
    }

    ghost function View(): State
      reads this
    {
      State(entered, sent)
    }

    method Step(log: string) returns (keys: Option<string>)
      modifies this
      ensures (View(), keys) == Next(marker, commands, old(View()), log)
    {
      if !entered {
        if !Contains(log, marker) { return None; }
        entered := true;
        return Some("c");
      }
      if sent >= |commands| { return None; }
      var prompts := Occurrences(log, PROMPT);
      if prompts <= sent { return None; }
      var line := commands[sent];
      sent := sent + 1;
      keys := Some(Line(line));
    }
  }

  // ---- whole runs ----------------------------------------------------------------------------------

  function After(marker: string, commands: seq<string>, logs: seq<string>): State {
    if logs == [] then State(false, 0)
    else Next(marker, commands, After(marker, commands, logs[..|logs| - 1]), logs[|logs| - 1]).0
  }

  /** Everything typed, one element for each time something was. */
  function Typed(marker: string, commands: seq<string>, logs: seq<string>): seq<string> {
    if logs == [] then []
    else
      var front := logs[..|logs| - 1];
      var keys := Next(marker, commands, After(marker, commands, front), logs[|logs| - 1]).1;
      Typed(marker, commands, front) + if keys.Some? then [keys.value] else []
  }

  function Script(commands: seq<string>): seq<string> {
    ["c"] + seq(|commands|, k requires 0 <= k < |commands| => Line(commands[k]))
  }

  /** A step types the next element of the script, or nothing. */
  lemma NextOfScript(marker: string, commands: seq<string>, s: State, log: string)
    requires s.sent <= |commands| && (!s.entered ==> s.sent == 0)
    ensures var (next, keys) := Next(marker, commands, s, log);
            var n := if s.entered then s.sent + 1 else 0;
            if keys.None? then next == s
            else && next == State(true, n) && n <= |commands|
                 && Script(commands)[..n + 1] == Script(commands)[..n] + [keys.value]
  {
    hide Contains, Occurrences, Line;
  }

  /** What is typed is always a prefix of `c` and the commands in order, so no command twice and none
      out of turn; the state says how long the prefix is. */
  lemma {:induction false} TypesPrefix(marker: string, commands: seq<string>, logs: seq<string>)
    ensures var s := After(marker, commands, logs);
            var n := if s.entered then s.sent + 1 else 0;
            && s.sent <= |commands| && (!s.entered ==> s.sent == 0)
            && Typed(marker, commands, logs) == Script(commands)[..n]
  {
    hide Contains, Occurrences, Line, Script;
    if logs != [] {
      var front := logs[..|logs| - 1];
      TypesPrefix(marker, commands, front);
      var s := After(marker, commands, front);
      NextOfScript(marker, commands, s, logs[|logs| - 1]);
    }
  }

  /** Nothing is typed before the menu marker is printed. */
  lemma {:induction false} SilentBeforeMenu(marker: string, commands: seq<string>, logs: seq<string>)
    requires forall i | 0 <= i < |logs| :: !Contains(logs[i], marker)
    ensures Typed(marker, commands, logs) == [] && !After(marker, commands, logs).entered
  {
    if logs != [] {
      SilentBeforeMenu(marker, commands, logs[..|logs| - 1]);
    }
  }

  /** Command `k` goes out only on a log with at least `k + 1` prompts, and only after a log with the
      menu. */
  lemma CommandNeedsPrompt(marker: string, commands: seq<string>, logs: seq<string>, k: nat)
    requires logs != [] && k < |commands|
    requires |Typed(marker, commands, logs[..|logs| - 1])| == k + 1 && |Typed(marker, commands, logs)| == k + 2
    ensures Occurrences(logs[|logs| - 1], PROMPT) >= k + 1
    ensures Typed(marker, commands, logs)[k + 1] == Line(commands[k])
    ensures exists i | 0 <= i < |logs| - 1 :: Contains(logs[i], marker)
  {
    var front := logs[..|logs| - 1];
    TypesPrefix(marker, commands, front);
    TypesPrefix(marker, commands, logs);
    assert Typed(marker, commands, logs)[k + 1] == Script(commands)[k + 1];
    if forall i | 0 <= i < |front| :: !Contains(front[i], marker) {
      SilentBeforeMenu(marker, commands, front);
    } else {
      var i :| 0 <= i < |front| && Contains(front[i], marker);
      assert Contains(logs[i], marker);
    }
  }

  // ---- growing logs -----------------------------------------------------------------------------------

  lemma {:induction false} MorePrompts(log: string, more: string, word: string)
    requires word != ""
    ensures Occurrences(log, word) <= Occurrences(log + more, word)
    decreases |log|
  {
    if |log| >= |word| {
      assert (log + more)[..|word|] == log[..|word|];
      if log[..|word|] == word {
        assert (log + more)[|word|..] == log[|word|..] + more;
        MorePrompts(log[|word|..], more, word);
      } else {
        assert (log + more)[1..] == log[1..] + more;
        MorePrompts(log[1..], more, word);
      }
    }
  }

  /** A line the script is ready to type stays ready as the log grows: no prompt is missed. */
  lemma StaysReady(marker: string, commands: seq<string>, s: State, log: string, more: string)
    requires Next(marker, commands, s, log).1.Some?
    ensures Next(marker, commands, s, log + more) == Next(marker, commands, s, log)
  {
    MorePrompts(log, more, PROMPT);
    if !s.entered {
      var i: nat :| i <= |log| && At(log, marker, i);
      assert At(log + more, marker, i);
    }
  }

  // ---- the script gets done ------------------------------------------------------------------------

  predicate Growing(logs: seq<string>) {
    forall i, j | 0 <= i < j < |logs| :: logs[i] <= logs[j]
  }

  lemma PromptsStay(logs: seq<string>, i: nat, j: nat)
    requires Growing(logs) && i <= j < |logs|
    ensures Occurrences(logs[i], PROMPT) <= Occurrences(logs[j], PROMPT)
  {
    assert logs[j] == logs[i] + logs[j][|logs[i]|..];
    MorePrompts(logs[i], logs[j][|logs[i]|..], PROMPT);
  }

  /** Once a log has shown the menu, each later log with enough prompts brings the next command. */
  lemma {:induction false} Advances(marker: string, commands: seq<string>, logs: seq<string>, menu: nat, ready: nat)
    requires Growing(logs) && menu < ready <= |logs| && Contains(logs[menu], marker)
    requires ready < |logs| ==> Occurrences(logs[ready], PROMPT) >= |commands|
    ensures var s := After(marker, commands, logs);
            s.entered && (s.sent == |commands| || s.sent >= |logs| - ready)
    decreases |logs|
  {
    TypesPrefix(marker, commands, logs);
    var front, last := logs[..|logs| - 1], logs[|logs| - 1];
    TypesPrefix(marker, commands, front);
    if ready < |logs| {
      Advances(marker, commands, front, menu, ready);
      PromptsStay(logs, ready, |logs| - 1);
    } else if menu < |front| {
      Advances(marker, commands, front, menu, |front|);
    }
  }

  /** The whole script goes out: the menu is shown, then enough prompts, and then there are as many logs
      as commands. */
  lemma TypesAll(marker: string, commands: seq<string>, logs: seq<string>, menu: nat, ready: nat)
    requires Growing(logs) && menu < ready && ready + |commands| <= |logs| && Contains(logs[menu], marker)
    requires commands != [] ==> Occurrences(logs[ready], PROMPT) >= |commands|
    ensures Typed(marker, commands, logs) == Script(commands)
  {
    Advances(marker, commands, logs, menu, ready);
    TypesPrefix(marker, commands, logs);
    assert Script(commands)[..|commands| + 1] == Script(commands);
  }
}
