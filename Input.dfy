/** The command line under the terminal (src/components/terminal/CommandInput.tsx):
    the text being edited, the autocomplete suggestions, and the recall list of
    submitted lines, driven by key presses, typing and clicks. Each handler is a
    function from the component's state to its next state and the calls it makes
    to `onSubmit` and `onFocusSection`; the class `CommandInput` holds that state
    in fields and runs the handlers as the component does. */
module Input {
  import opened Types
  import opened Text
  import opened Commands
  import Session

  /** At most five suggestions are offered. */
  const SuggestionLimit: nat := 5
  /** At most fifty submitted lines are kept for recall. */
  const RecallLimit: nat := 50

  /** `c` is offered for `value`: its name starts with the lower-cased text and is
      not that text itself. */
  predicate Extends(value: string, c: CommandDefinition) {
    StartsWith(c.name, ToLower(value)) && c.name != ToLower(value)
  }

  /** The filter `suggestions` applies, as a test on records. */
  function OfferedFor(value: string): CommandDefinition -> bool {
    c => Extends(value, c)
  }

  /** `suggestions`: the registry records offered for `value`, in registry order,
      the first five of them. */
  function Suggestions(value: string): (r: seq<CommandDefinition>)
    ensures |r| <= SuggestionLimit
    ensures forall c :: c in r ==> c in Registry && Extends(value, c)
    ensures |r| < SuggestionLimit ==> forall c :: c in Registry && Extends(value, c) ==> c in r
    ensures Subsequence(r, Registry)
  {
    var keep := OfferedFor(value);
    var all := Matching(Registry, keep);
    var r := Session.Take(all, SuggestionLimit);
    MatchingSpec(Registry, keep);
    SubsequencePrefix(all, Registry, |r|);
    assert forall c :: c in r ==> c in all;
    assert forall c :: c in r ==> keep(c);
    r
  }

  /** The component's state. `value` is the text in the field, from which the
      suggestions are recomputed on every render; `suggestionIndex` is the
      highlighted suggestion; `historyIndex` the recalled entry; `history` the
      submitted lines, newest first. */
  datatype Line = Line(
    value: string,
    suggestionIndex: Option<nat>,
    historyIndex: Option<nat>,
    history: seq<string>)

  /** A call the component makes to its parent. */
  datatype Signal = Submitted(command: string) | FocusSection(sectionId: string)

  /** A handler's effect: the next state and the calls made, in order. */
  datatype Reaction = Reaction(line: Line, signals: seq<Signal>)

  /** The keys the field handles; every other key is `Other`, by its name. */
  datatype Key = Enter | Tab | ArrowUp | ArrowDown | Other(name: string)

  /** What can happen to the component: a key press (with whether Ctrl is held),
      typing that replaces the text, a click on the suggestion at an index, or a
      click on a command chip. */
  datatype Event =
    | KeyDown(key: Key, ctrl: bool)
    | Change(text: string)
    | PickSuggestion(index: nat)
    | PickChip(command: CommandDefinition)

  /** The initial state: empty field, nothing highlighted or recalled, no history. */
  const Initial: Line := Line("", None, None, [])

  /** The reachable states: at most fifty lines, each trimmed and not empty, and
      a recalled index inside the history whenever there is one. */
  predicate Valid(line: Line) {
    && |line.history| <= RecallLimit
    && (forall i :: 0 <= i < |line.history| ==> line.history[i] != [] && IsTrimmed(line.history[i]))
    && (line.historyIndex.Some? && line.history != [] ==> line.historyIndex.value < |line.history|)
  }

  /** `handleSubmit`: blank text is ignored; otherwise the trimmed text goes in
      front of the history (the fifty newest kept) and to `onSubmit`, and the
      field, the highlight and the recall position are reset. */
  function SubmitLine(line: Line): (r: Reaction)
    ensures Trim(line.value) == [] ==> r == Reaction(line, [])
    ensures Trim(line.value) != [] ==>
      && r.signals == [Submitted(Trim(line.value))]
      && |r.line.history| == Session.Min(|line.history| + 1, RecallLimit)
      && r.line.history[0] == Trim(line.value)
      && r.line.history[1..] == line.history[..|r.line.history| - 1]
      && r.line.value == []
      && r.line.suggestionIndex.None? && r.line.historyIndex.None?
  {
    var trimmed := Trim(line.value);
    if trimmed == [] then Reaction(line, [])
    else
      var h := [trimmed] + line.history;
      assert h[1..] == line.history;
      Reaction(Line("", None, None, Session.Take(h, RecallLimit)), [Submitted(trimmed)])
  }

  /** The suggestion Tab moves to among `s`: the first when none is highlighted,
      otherwise the one after the highlighted index, counted modulo the list's
      length. The highlight may lie beyond the end of the current list (it
      survives recall and Ctrl+L), and then it is still counted on modulo. */
  function NextSuggestion(current: Option<nat>, s: seq<CommandDefinition>): (i: nat)
    requires s != []
    ensures i < |s|
    ensures current.None? ==> i == 0
    ensures current.Some? ==> i == (current.value + 1) % |s|
    ensures current.Some? && current.value + 1 < |s| ==> i == current.value + 1
    ensures current.Some? && current.value + 1 == |s| ==> i == 0
  {
    if current.None? then 0 else (current.value + 1) % |s|
  }

  /** Tab, as the component has it: with suggestions for the text in the field,
      fills the field with the next one and highlights it; without, does nothing.
      The suggestions are those of the field's current text, so once Tab has
      filled in a name they are those of that name. */
  function Complete(line: Line): (r: Line)
    ensures Suggestions(line.value) == [] ==> r == line
    ensures Suggestions(line.value) != [] ==>
      && r.suggestionIndex == Some(NextSuggestion(line.suggestionIndex, Suggestions(line.value)))
      && r.value == Suggestions(line.value)[r.suggestionIndex.value].name
      && r == line.(value := r.value, suggestionIndex := r.suggestionIndex)
  {
    var s := Suggestions(line.value);
    if s == [] then line
    else
      var i := NextSuggestion(line.suggestionIndex, s);
      line.(value := s[i].name, suggestionIndex := Some(i))
  }

  /** Tab as evidently intended: the suggestions are those of `typed`, the text
      the user typed before completing, which Tab does not replace. */
  function CompleteFor(line: Line, typed: string): (r: Line)
    ensures Suggestions(typed) == [] ==> r == line
    ensures Suggestions(typed) != [] ==>
      && r.suggestionIndex == Some(NextSuggestion(line.suggestionIndex, Suggestions(typed)))
      && r.value == Suggestions(typed)[r.suggestionIndex.value].name
      && r == line.(value := r.value, suggestionIndex := r.suggestionIndex)
  {
    var s := Suggestions(typed);
    if s == [] then line
    else
      var i := NextSuggestion(line.suggestionIndex, s);
      line.(value := s[i].name, suggestionIndex := Some(i))
  }

  /** ArrowUp: with a history, moves one entry older (to the newest when nothing
      is recalled), stopping at the oldest, and shows that entry. */
  function RecallOlder(line: Line): (r: Line)
    ensures line.history == [] ==> r == line
    ensures line.history != [] ==>
      && r.historyIndex.Some?
      && r.historyIndex.value == (if line.historyIndex.None? then 0
                                  else Session.Min(line.historyIndex.value + 1, |line.history| - 1))
      && r.value == line.history[r.historyIndex.value]
      && r == line.(value := r.value, historyIndex := r.historyIndex)
  {
    if line.history == [] then line
    else
      var next := if line.historyIndex.None? then 0
                  else Session.Min(line.historyIndex.value + 1, |line.history| - 1);
      line.(value := line.history[next], historyIndex := Some(next))
  }

  /** ArrowDown: with a history, moves one entry newer and shows it; from the
      newest entry, or with nothing recalled, empties the field instead. */
  function RecallNewer(line: Line): (r: Line)
    requires Valid(line)
    ensures line.history == [] ==> r == line
    ensures line.history != [] && (line.historyIndex.None? || line.historyIndex.value == 0) ==>
      r == line.(value := "", historyIndex := None)
    ensures line.history != [] && line.historyIndex.Some? && line.historyIndex.value > 0 ==>
      r == line.(value := line.history[line.historyIndex.value - 1], historyIndex := Some(line.historyIndex.value - 1))
  {
    if line.history == [] then line
    else if line.historyIndex.None? || line.historyIndex.value == 0 then
      line.(value := "", historyIndex := None)
    else
      var next := line.historyIndex.value - 1;
      line.(value := line.history[next], historyIndex := Some(next))
  }

  /** Ctrl+L: forgets the history and empties the field. The highlight and the
      recall position are left as they are. */
  function ClearLine(line: Line): (r: Line)
    ensures r.history == [] && r.value == []
    ensures r.suggestionIndex == line.suggestionIndex && r.historyIndex == line.historyIndex
  {
    line.(value := "", history := [])
  }

  /** `handleKeyDown`. Enter and Tab return at once; ArrowUp does not, but the
      checks after it are for other keys, so nothing further happens. */
  function KeyPress(line: Line, key: Key, ctrl: bool): (r: Reaction)
    requires Valid(line)
    ensures key != Enter ==> r.signals == []
    ensures key.Other? && !(ctrl && key.name == "l") ==> r.line == line
  {
    match key
    case Enter => SubmitLine(line)
    case Tab => Reaction(Complete(line), [])
    case ArrowUp => Reaction(RecallOlder(line), [])
    case ArrowDown => Reaction(RecallNewer(line), [])
    case Other(name) => Reaction(if ctrl && name == "l" then ClearLine(line) else line, [])
  }

  /** A click on a command chip submits its name and, when the command belongs to
      a section, asks for that section to be focused. The field is untouched and
      nothing enters the history. */
  function ChipCalls(c: CommandDefinition): (r: seq<Signal>)
    ensures |r| >= 1 && r[0] == Submitted(c.name)
    ensures |r| == 2 <==> c.relatedSectionId.Some?
    ensures |r| == 2 ==> r[1] == FocusSection(c.relatedSectionId.value)
  {
    [Submitted(c.name)] + if c.relatedSectionId.Some? then [FocusSection(c.relatedSectionId.value)] else []
  }

  /** A click on the suggestion at `index` fills it in and highlights it. Only the
      suggestions of the field's text are on show, so any other index changes
      nothing. */
  function Choose(line: Line, index: nat): (r: Line)
    ensures index < |Suggestions(line.value)| ==>
      r == line.(value := Suggestions(line.value)[index].name, suggestionIndex := Some(index))
    ensures index >= |Suggestions(line.value)| ==> r == line
  {
    var s := Suggestions(line.value);
    if index < |s| then line.(value := s[index].name, suggestionIndex := Some(index)) else line
  }

  /** The component's response to one event. Typing replaces the text and drops
      the highlight; a suggestion click fills in a suggestion on show; only Enter
      and the chips call the parent. */
  function React(line: Line, e: Event): (r: Reaction)
    requires Valid(line)
    ensures e.PickChip? ==> r == Reaction(line, ChipCalls(e.command))
    ensures e.Change? ==> r.line == line.(value := e.text, suggestionIndex := None) && r.signals == []
    ensures e.PickSuggestion? ==> r.signals == [] && r.line.history == line.history
    ensures e.PickSuggestion? && e.index < |Suggestions(line.value)| ==>
      r.line.value == Suggestions(line.value)[e.index].name && r.line.suggestionIndex == Some(e.index)
    ensures r.signals != [] ==> e.PickChip? || (e.KeyDown? && e.key == Enter)
  {
    match e
    case KeyDown(key, ctrl) => KeyPress(line, key, ctrl)
    case Change(text) => Reaction(line.(value := text, suggestionIndex := None), [])
    case PickSuggestion(index) => Reaction(Choose(line, index), [])
    case PickChip(c) => Reaction(line, ChipCalls(c))
  }

  lemma InitialValid()
    ensures Valid(Initial)
  {
  }

  /** Every event keeps the state reachable. */
  lemma ReactPreservesValid(line: Line, e: Event)
    requires Valid(line)
    ensures Valid(React(line, e).line)
  {
    if e.KeyDown? && e.key == Enter && Trim(line.value) != [] {
      var r := SubmitLine(line).line;
      forall i | 0 <= i < |r.history| ensures r.history[i] != [] && IsTrimmed(r.history[i]) {
        if i > 0 {
          assert r.history[i] == r.history[1..][i - 1] == line.history[i - 1];
        }
      }
    }
  }

  /** The state and the calls after a run of events, oldest first. */
  function Run(line: Line, events: seq<Event>): (r: Reaction)
    requires Valid(line)
    ensures Valid(r.line)
    decreases |events|
  {
    if events == [] then Reaction(line, [])
    else
      ReactPreservesValid(line, events[0]);
      var first := React(line, events[0]);
      var rest := Run(first.line, events[1..]);
      Reaction(rest.line, first.signals + rest.signals)
  }

  /** Whatever happens, the history holds at most fifty lines, each one trimmed
      and not blank. */
  lemma RunFromInitial(events: seq<Event>)
    ensures Valid(Initial)
    ensures |Run(Initial, events).line.history| <= RecallLimit
    ensures forall i :: 0 <= i < |Run(Initial, events).line.history| ==>
      Run(Initial, events).line.history[i] != [] && IsTrimmed(Run(Initial, events).line.history[i])
  {
    InitialValid();
  }

  /** Enter never submits blank text: what reaches `onSubmit` is trimmed and not
      empty, so the terminal's own blank check never fires for typed input. */
  lemma EnterSubmitsTrimmed(line: Line)
    requires Valid(line)
    ensures forall s :: s in KeyPress(line, Enter, false).signals ==>
      s.Submitted? && s.command != [] && IsTrimmed(s.command) && Normalize(s.command) == ToLower(s.command)
  {
    var t := Trim(line.value);
    if t != [] {
      TrimOfTrimmed(t);
    }
  }

  /** ArrowUp straight after a submission shows the submitted (trimmed) text. */
  lemma RecallAfterSubmit(line: Line)
    requires Trim(line.value) != []
    ensures RecallOlder(SubmitLine(line).line).value == Trim(line.value)
    ensures RecallOlder(SubmitLine(line).line).historyIndex == Some(0)
  {
  }

  /** ArrowUp pressed `k` times. */
  function OlderTimes(line: Line, k: nat): Line {
    if k == 0 then line else RecallOlder(OlderTimes(line, k - 1))
  }

  /** From nothing recalled, `k` presses of ArrowUp show the `k`-th newest line,
      or the oldest one once the history is exhausted. */
  lemma {:induction false} RecallWalk(line: Line, k: nat)
    requires line.history != [] && line.historyIndex.None? && k > 0
    ensures OlderTimes(line, k).historyIndex == Some(Session.Min(k - 1, |line.history| - 1))
    ensures OlderTimes(line, k).value == line.history[Session.Min(k - 1, |line.history| - 1)]
    ensures OlderTimes(line, k).history == line.history
  {
    if k > 1 {
      RecallWalk(line, k - 1);
    }
  }

  /** ArrowDown undoes ArrowUp: below the oldest entry, one press of each returns
      to the same recall position and shows what was shown there (nothing when no
      entry was recalled). */
  lemma NewerUndoesOlder(line: Line)
    requires Valid(line) && line.history != []
    requires line.historyIndex.Some? ==> line.historyIndex.value + 1 < |line.history|
    ensures Valid(RecallOlder(line))
    ensures RecallNewer(RecallOlder(line)).historyIndex == line.historyIndex
    ensures RecallNewer(RecallOlder(line)).value ==
      if line.historyIndex.None? then "" else line.history[line.historyIndex.value]
  {
  }

  /** Two submitted lines, `about` last: ArrowUp shows `about`, then `help`, and
      stays at `help`; ArrowDown then moves back to `about`, and only a second
      ArrowDown empties the field. */
  lemma RecallTwoLines(line: Line)
    requires line == Initial.(history := ["about", "help"])
    ensures Valid(line)
    ensures OlderTimes(line, 1).value == "about"
    ensures OlderTimes(line, 2).value == "help"
    ensures OlderTimes(line, 3).value == "help"
    ensures Valid(OlderTimes(line, 3))
    ensures RecallNewer(OlderTimes(line, 3)).value == "about"
    ensures Valid(RecallNewer(OlderTimes(line, 3)))
    ensures RecallNewer(RecallNewer(OlderTimes(line, 3))).value == ""
  {
    RecallWalk(line, 1);
    RecallWalk(line, 2);
    RecallWalk(line, 3);
  }

  /** The intended Tab pressed `k` times over the suggestions of `typed`. */
  function CompleteTimes(line: Line, typed: string, k: nat): Line {
    if k == 0 then line else CompleteFor(CompleteTimes(line, typed, k - 1), typed)
  }

  lemma MulAtLeast(d: int, n: int)
    requires d >= 1 && n > 0
    ensures d * n >= n
  {
  }

  /** The remainder is the one `0 <= r < n` with `x == q * n + r`. */
  lemma {:induction false} ModUnique(x: int, n: int, q: int, r: int)
    requires n > 0 && 0 <= r < n && x == q * n + r
    ensures x % n == r
  {
    var q', r' := x / n, x % n;
    assert x == q' * n + r';
    assert (q - q') * n == r' - r;
    if q - q' >= 1 {
      MulAtLeast(q - q', n);
    } else if q' - q >= 1 {
      MulAtLeast(q' - q, n);
    }
  }

  /** Counting on by one modulo `n` wraps from `n - 1` to `0`. */
  lemma {:induction false} ModStep(a: nat, n: nat)
    requires n > 0
    ensures (if a % n + 1 == n then 0 else a % n + 1) == (a + 1) % n
  {
    var q, r := a / n, a % n;
    assert a == q * n + r;
    if r + 1 == n {
      assert a + 1 == (q + 1) * n + 0;
      ModUnique(a + 1, n, q + 1, 0);
    } else {
      ModUnique(a + 1, n, q, r + 1);
    }
  }

  /** With the intended Tab, from nothing highlighted, the `k`-th Tab shows
      suggestion `(k - 1) mod n` of the `n` suggestions for the typed text, so Tab
      goes round all of them; the recall state and history are untouched. */
  lemma {:induction false} CompleteCycles(line: Line, typed: string, k: nat)
    requires line.suggestionIndex.None? && Suggestions(typed) != [] && k > 0
    ensures CompleteTimes(line, typed, k).suggestionIndex == Some((k - 1) % |Suggestions(typed)|)
    ensures CompleteTimes(line, typed, k).value == Suggestions(typed)[(k - 1) % |Suggestions(typed)|].name
    ensures CompleteTimes(line, typed, k).historyIndex == line.historyIndex
    ensures CompleteTimes(line, typed, k).history == line.history
  {
    if k > 1 {
      CompleteCycles(line, typed, k - 1);
      ModStep(k - 2, |Suggestions(typed)|);
    }
  }

  /** A filter that keeps every record returns them all. */
  lemma {:induction false} MatchingAll(cmds: seq<CommandDefinition>, keep: CommandDefinition -> bool)
    requires forall c :: c in cmds ==> keep(c)
    ensures Matching(cmds, keep) == cmds
  {
    if cmds != [] {
      var init := cmds[..|cmds| - 1];
      assert forall c :: c in init ==> c in cmds;
      MatchingAll(init, keep);
      assert init + [cmds[|cmds| - 1]] == cmds;
    }
  }

  /** A filter that keeps no record returns none. */
  lemma {:induction false} MatchingNone(cmds: seq<CommandDefinition>, keep: CommandDefinition -> bool)
    requires forall c :: c in cmds ==> !keep(c)
    ensures Matching(cmds, keep) == []
  {
    if cmds != [] {
      var init := cmds[..|cmds| - 1];
      assert forall c :: c in init ==> c in cmds;
      MatchingNone(init, keep);
    }
  }

  /** On an empty field every command is offered, so the first five are. */
  lemma SuggestionsForEmpty()
    ensures Suggestions("") == Registry[..5]
  {
    assert ToLower("") == "";
    assert forall c :: c in Registry ==> c.name != "";
    MatchingAll(Registry, OfferedFor(""));
  }

  /** A complete command name is offered nothing. */
  lemma SuggestionsForHelp()
    ensures Suggestions("help") == []
  {
    NameOfferedNothing(HelpCommand);
  }

  /** The registry index of the command whose name starts with `a` then `b`. */
  function HeadIndex(a: char, b: char): nat {
    if a == 'h' then 0
    else if a == 'a' then 1
    else if a == 'e' then (if b == 'x' then 2 else 4)
    else if a == 'p' then 3
    else if a == 'c' then (if b == 'e' then 5 else if b == 'o' then 7 else 9)
    else if a == 's' then (if b == 'k' then 6 else 8)
    else if a == 't' then 10
    else 11
  }

  /** The first two characters of a registered name tell which command it is. */
  lemma HeadIndexOf(i: nat)
    requires i < |Registry|
    ensures |Registry[i].name| >= 4
    ensures HeadIndex(Registry[i].name[0], Registry[i].name[1]) == i
  {
  }

  /** Registered names are in lower case. */
  lemma NameIsLower(i: nat)
    requires i < |Registry|
    ensures ToLower(Registry[i].name) == Registry[i].name
  {
    var h := Registry[i].name;
    OwnKeysInAllKeys(Registry, i, h);
    RegistryKeysListed();
    var j :| 0 <= j < |RegistryKeys| && RegistryKeys[j] == h;
    RegistryKeyNormal(j);
    ToLowerOfLower(h);
  }

  /** No registered name starts with another one. */
  lemma NoNameExtends(i: nat, k: nat)
    requires i < |Registry| && k < |Registry|
    ensures StartsWith(Registry[k].name, Registry[i].name) ==> Registry[k].name == Registry[i].name
  {
    var h, n := Registry[i].name, Registry[k].name;
    HeadIndexOf(i);
    HeadIndexOf(k);
    if StartsWith(n, h) {
      assert n[0] == n[..|h|][0] == h[0];
      assert n[1] == n[..|h|][1] == h[1];
    }
  }

  /** Nothing in the registry is offered for the registered name at `i`. */
  lemma NoneOfferedFor(i: nat)
    requires i < |Registry|
    ensures forall d :: d in Registry ==> !OfferedFor(Registry[i].name)(d)
  {
    NameIsLower(i);
    forall d | d in Registry ensures !OfferedFor(Registry[i].name)(d) {
      var k :| 0 <= k < |Registry| && Registry[k] == d;
      NoNameExtends(i, k);
    }
  }

  /** No command name extends another, so a field holding a registered name is
      offered nothing. */
  lemma NameOfferedNothing(c: CommandDefinition)
    requires c in Registry
    ensures Suggestions(c.name) == []
  {
    var i :| 0 <= i < |Registry| && Registry[i] == c;
    NoneOfferedFor(i);
    MatchingNone(Registry, OfferedFor(c.name));
  }

  /** As written, a second Tab never moves: the first one fills in a registered
      name, which is offered nothing, so the next one changes nothing. */
  lemma TabStallsAfterComplete(line: Line)
    ensures Complete(Complete(line)) == Complete(line)
  {
    var s := Suggestions(line.value);
    if s != [] {
      NameOfferedNothing(s[Complete(line).suggestionIndex.value]);
    }
  }

  /** After a click on a suggestion, no suggestion is on show any more, so Tab
      and further clicks change nothing. */
  lemma ChosenIsComplete(line: Line, index: nat)
    requires index < |Suggestions(line.value)|
    ensures Choose(line, index).value == Suggestions(line.value)[index].name
    ensures Suggestions(Choose(line, index).value) == []
    ensures Complete(Choose(line, index)) == Choose(line, index)
  {
    NameOfferedNothing(Suggestions(line.value)[index]);
  }

  /** Tab from an empty field, as written and as intended. Both fill in `help`,
      the first of five suggestions. As written, a second Tab then finds no
      suggestions for `help` and changes nothing, so `about` and the rest are never
      reached; as intended, it moves on to `about`. */
  lemma TabStallsAsWritten()
    ensures |Suggestions("")| == 5 && Suggestions("")[1] == AboutCommand
    ensures Valid(Initial)
    ensures KeyPress(Initial, Tab, false).line.value == "help"
    ensures Valid(KeyPress(Initial, Tab, false).line)
    ensures KeyPress(KeyPress(Initial, Tab, false).line, Tab, false) == KeyPress(Initial, Tab, false)
    ensures CompleteFor(Initial, "").value == "help"
    ensures CompleteFor(CompleteFor(Initial, ""), "").value == "about"
  {
    SuggestionsForEmpty();
    TabStallsAfterComplete(Initial);
  }

  /** A chip's command goes to `onSubmit` by its own name, which the terminal's
      lookup resolves to that very command; a section focus request follows
      exactly when the command belongs to a section. */
  lemma ChipSubmitsRegistered(c: CommandDefinition)
    requires c in PrimaryCommands
    ensures ChipCalls(c)[0] == Submitted(c.name)
    ensures Session.GetCommandDefinition(c.name) == Some(c)
    ensures |ChipCalls(c)| == 2 <==> c.relatedSectionId.Some?
  {
    MatchingSpec(Registry, IsPrimary);
    var i :| 0 <= i < |Registry| && Registry[i] == c;
    Session.LookupFindsRegistered(i, c.name);
  }

  /** The class the component's hooks amount to: its state slots as fields, and
      the calls it has made to its parent as a log. */
  class CommandInput {
    var value: string
    var suggestionIndex: Option<nat>
    var historyIndex: Option<nat>
    var history: seq<string>
    var signals: seq<Signal>

    function Current(): Line
      reads this
    {
      Line(value, suggestionIndex, historyIndex, history)
    }

    constructor ()
      ensures Current() == Initial && signals == []
      ensures Valid(Current())
    {
      value, suggestionIndex, historyIndex, history := "", None, None, [];
      signals := [];
    }

    /** `handleSubmit`. */
    method HandleSubmit()
      modifies this
      ensures Current() == SubmitLine(old(Current())).line
      ensures signals == old(signals) + SubmitLine(old(Current())).signals
      ensures Valid(old(Current())) ==> Valid(Current())
    {
      if Valid(Current()) {
        ReactPreservesValid(Current(), KeyDown(Enter, false));
      }
      var trimmed := Trim(value);
      if trimmed == [] {
        return;
      }
      history := Session.Take([trimmed] + history, RecallLimit);
      signals := signals + [Submitted(trimmed)];
      value, suggestionIndex, historyIndex := "", None, None;
    }

    /** `handleKeyDown`, with the suggestions of the render it runs in. */
    method HandleKeyDown(key: Key, ctrl: bool)
      requires Valid(Current())
      modifies this
      ensures Current() == KeyPress(old(Current()), key, ctrl).line
      ensures signals == old(signals) + KeyPress(old(Current()), key, ctrl).signals
      ensures Valid(Current())
    {
      ReactPreservesValid(Current(), KeyDown(key, ctrl));
      var suggestions := Suggestions(value);
      if key == Enter {
        HandleSubmit();
        return;
      }
      if key == Tab {
        if |suggestions| == 0 {
          return;
        }
        var next := if suggestionIndex.None? then 0 else (suggestionIndex.value + 1) % |suggestions|;
        suggestionIndex := Some(next);
        value := suggestions[next].name;
        return;
      }
      if key == ArrowUp {
        if |history| == 0 {
          return;
        }
        var next := if historyIndex.None? then 0 else Session.Min(historyIndex.value + 1, |history| - 1);
        historyIndex := Some(next);
        value := history[next];
      }
      if key == ArrowDown {
        if |history| == 0 {
          return;
        }
        if historyIndex.None? || historyIndex.value == 0 {
          historyIndex := None;
          value := "";
        } else {
          var next := historyIndex.value - 1;
          historyIndex := Some(next);
          value := history[next];
        }
      }
      if ctrl && key == Other("l") {
        history := [];
        value := "";
      }
    }

    /** The field's `onChange`. */
    method HandleChange(text: string)
      modifies this
      ensures Current() == old(Current()).(value := text, suggestionIndex := None)
      ensures signals == old(signals)
      ensures Valid(old(Current())) ==> Valid(Current())
    {
      value := text;
      suggestionIndex := None;
    }

    /** A click on the suggestion button at `index`, among those rendered from the
        field's text. */
    method ClickSuggestion(index: nat)
      modifies this
      ensures Current() == Choose(old(Current()), index)
      ensures signals == old(signals)
      ensures Valid(old(Current())) ==> Valid(Current())
    {
      if Valid(Current()) {
        ReactPreservesValid(Current(), PickSuggestion(index));
      }
      var suggestions := Suggestions(value);
      if index < |suggestions| {
        value := suggestions[index].name;
        suggestionIndex := Some(index);
      }
    }

    /** A click on a command chip. */
    method ClickChip(c: CommandDefinition)
      modifies this
      ensures Current() == old(Current())
      ensures signals == old(signals) + ChipCalls(c)
      ensures Valid(old(Current())) ==> Valid(Current())
    {
      signals := signals + [Submitted(c.name)];
      if c.relatedSectionId.Some? {
        signals := signals + [FocusSection(c.relatedSectionId.value)];
      }
    }
  }
}
