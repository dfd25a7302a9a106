/** The terminal component (src/components/terminal/Terminal.tsx): what one
    submission does to the session and which of the parent's callbacks it calls,
    in which order, followed by the effect that reports the session's mode. */
module Terminal {
  import opened Types
  import opened Text
  import opened Commands
  import opened Output
  import opened Session

  /** Which of the optional callbacks the parent supplied. */
  datatype Callbacks = Callbacks(modeChange: bool, scrollToSection: bool, commandResolved: bool)

  /** One call the component makes to its parent: `onModeChange(mode)`,
      `onScrollToSection(sectionId)`, `onCommandResolved(command, definition)`, or
      `onCommandResolved` with a value inherited from `Object.prototype` in place
      of a definition (only the as-written lookup produces that one). */
  datatype Event =
    | ModeChanged(mode: Mode)
    | ScrolledTo(sectionId: string)
    | Resolved(command: string, definition: Option<CommandDefinition>)
    | ResolvedInherited(command: string)

  /** The session after a submission and the calls it made, in order. */
  datatype Outcome = Outcome(state: State, events: seq<Event>)

  /** `onCommandResolved?.(command, definition)`. */
  function ResolvedCall(cb: Callbacks, command: string, definition: Option<CommandDefinition>): seq<Event> {
    if cb.commandResolved then [Resolved(command, definition)] else []
  }

  /** The section scroll: made when the callback is supplied and there is a
      section. The component tests the id for truthiness, which an empty id would
      fail; `RegistrySectionsNonEmpty` shows no registered id is empty, so the
      `Some?` test agrees with it on every registered command. */
  function ScrollCall(cb: Callbacks, sectionId: Option<string>): seq<Event> {
    if cb.scrollToSection && sectionId.Some? then [ScrolledTo(sectionId.value)] else []
  }

  /** Appending calls to a log in two steps or in one. */
  lemma EventsAssoc(a: seq<Event>, b: seq<Event>, c: seq<Event>)
    ensures a + b + c == a + (b + c)
  {
  }

  /** The mode-sync effect: after a render in which the mode changed, the new mode
      is reported. */
  function ModeSync(cb: Callbacks, before: Mode, after: Mode): seq<Event> {
    if cb.modeChange && before != after then [ModeChanged(after)] else []
  }

  /** The effect's first run, on mount. */
  function MountEvents(cb: Callbacks): seq<Event> {
    if cb.modeChange then [ModeChanged(InitialState.mode)] else []
  }

  /** The scroll command's early exit: with a related section and a scroll
      callback, it scrolls there and reports itself resolved before anything else. */
  function EarlyCalls(cb: Callbacks, commandString: string, d: CommandDefinition): seq<Event> {
    if d.name == "scroll" && d.relatedSectionId.Some? && cb.scrollToSection
    then [ScrolledTo(d.relatedSectionId.value)] + ResolvedCall(cb, commandString, Some(d))
    else []
  }

  /** What `handleSubmit` does to the session for an input whose definition is
      `d`: `clear` empties the results without recording anything; every other
      command goes through `executeCommand`, `toggle` with the confirmation naming
      the flipped mode, `download` with the download notice, the rest with the
      card `buildCommandResult` renders. */
  function DefinedState(s: State, commandString: string, d: CommandDefinition, now: int): State {
    if d.name == "clear" then
      Reduce(s, Clear, now)
    else if d.name == "toggle" then
      ExecuteCommandSpec(s, commandString, Some(TerminalResult(now, commandString, Toggled(Flip(s.mode)))), now)
    else if d.name == "download" then
      ExecuteCommandSpec(s, commandString, Some(TerminalResult(now, commandString, DownloadNotice)), now)
    else
      ExecuteCommandSpec(s, commandString, BuildCommandResult(commandString, d, now), now)
  }

  /** The calls `handleSubmit` makes to the parent, in order, for an input whose
      definition is `d`, in a session whose mode is `mode`: the scroll command's
      early exit, `onModeChange` with the flipped mode for `toggle`, the scroll to
      the related section, and `onCommandResolved` (which the generic path skips
      for `scroll`). */
  function DefinedEvents(cb: Callbacks, commandString: string, d: CommandDefinition, mode: Mode): seq<Event> {
    var resolved := ResolvedCall(cb, commandString, Some(d));
    var early := EarlyCalls(cb, commandString, d);
    if d.name == "clear" || d.name == "download" then
      early + resolved
    else if d.name == "toggle" then
      early + (if cb.modeChange then [ModeChanged(Flip(mode))] else []) + resolved
    else
      early + ScrollCall(cb, d.relatedSectionId) + (if d.name != "scroll" then resolved else [])
  }

  /** `handleSubmit` alone, for an input whose definition is `d`. */
  function HandleDefined(s: State, cb: Callbacks, commandString: string, d: CommandDefinition, now: int): Outcome {
    Outcome(DefinedState(s, commandString, d, now), DefinedEvents(cb, commandString, d, s.mode))
  }

  /** `handleSubmit` alone: blank input does nothing; an unknown command reports
      itself unresolved and logs the "not found" card; a known one goes to
      `HandleDefined`. */
  function Handle(s: State, cb: Callbacks, commandString: string, now: int): Outcome {
    var key := Normalize(commandString);
    if key == [] then Outcome(s, [])
    else
      match GetCommandDefinition(key)
      case None =>
        var result := TerminalResult(now, commandString, NotFound(key));
        Outcome(ExecuteCommandSpec(s, commandString, Some(result), now), ResolvedCall(cb, commandString, None))
      case Some(d) => HandleDefined(s, cb, commandString, d, now)
  }

  /** The key `handleSubmit` computes selects the same definition as the raw input. */
  lemma KeyLookup(commandString: string)
    ensures GetCommandDefinition(Normalize(commandString)) == GetCommandDefinition(commandString)
  {
    NormalizeIdempotent(commandString);
  }

  /** The three paths of `handleSubmit`, by what the lookup finds. */
  lemma HandleCases(s: State, cb: Callbacks, commandString: string, now: int)
    ensures AllWhitespace(commandString) ==> Handle(s, cb, commandString, now) == Outcome(s, [])
    ensures !AllWhitespace(commandString) && GetCommandDefinition(commandString).None? ==>
      Handle(s, cb, commandString, now) == Outcome(
        ExecuteCommandSpec(s, commandString, Some(TerminalResult(now, commandString, NotFound(Normalize(commandString)))), now),
        ResolvedCall(cb, commandString, None))
    ensures !AllWhitespace(commandString) && GetCommandDefinition(commandString).Some? ==>
      Handle(s, cb, commandString, now) == HandleDefined(s, cb, commandString, GetCommandDefinition(commandString).value, now)
  {
    BlankIffAllWhitespace(commandString);
    KeyLookup(commandString);
  }

  /** Whatever the definition, the handler keeps the session within its bounds
      and at most flips the mode. */
  lemma DefinedBounded(s: State, commandString: string, d: CommandDefinition, now: int)
    ensures Bounded(s) ==> Bounded(DefinedState(s, commandString, d, now))
    ensures var m := DefinedState(s, commandString, d, now).mode; m == s.mode || m == Flip(s.mode)
  {
  }

  lemma HandleBounded(s: State, cb: Callbacks, commandString: string, now: int)
    ensures Bounded(s) ==> Bounded(Handle(s, cb, commandString, now).state)
    ensures var m := Handle(s, cb, commandString, now).state.mode; m == s.mode || m == Flip(s.mode)
  {
    HandleCases(s, cb, commandString, now);
    var r := GetCommandDefinition(commandString);
    if r.Some? {
      DefinedBounded(s, commandString, r.value, now);
    }
  }

  /** A submission as the parent sees it: the handler, then the mode-sync effect
      of the render that follows. The session stays within its bounds and its
      mode at most flips. */
  function Submit(s: State, cb: Callbacks, commandString: string, now: int): (r: Outcome)
    ensures Bounded(s) ==> Bounded(r.state)
    ensures r.state.mode == s.mode || r.state.mode == Flip(s.mode)
  {
    HandleBounded(s, cb, commandString, now);
    var o := Handle(s, cb, commandString, now);
    Outcome(o.state, o.events + ModeSync(cb, s.mode, o.state.mode))
  }

  /** The trimmed text is a key in normal form exactly when the key is that text. */
  lemma TrimmedIsKey(commandString: string, k: string)
    requires IsNormalKey(k) && Trim(commandString) == k
    ensures Normalize(commandString) == k
  {
    ToLowerOfLower(k);
  }

  /** `executeCommand` compares the trimmed text itself with `clear` and with
      `toggle`; text whose normalised key is not the word never passes that
      comparison. */
  lemma NotKeyText(commandString: string, k: string)
    requires (k == "clear" || k == "toggle") && Normalize(commandString) != k
    ensures Trim(commandString) != k
  {
    assert IsNormalKey(k);
    if Trim(commandString) == k {
      TrimmedIsKey(commandString, k);
    }
  }

  lemma PlainText(commandString: string)
    requires Normalize(commandString) != "clear" && Normalize(commandString) != "toggle"
    ensures Trim(commandString) != "clear" && Trim(commandString) != "toggle"
  {
    NotKeyText(commandString, "clear");
    NotKeyText(commandString, "toggle");
  }

  /** Input that is blank after trimming changes nothing and calls nothing. */
  lemma SubmitBlank(s: State, cb: Callbacks, commandString: string, now: int)
    requires AllWhitespace(commandString)
    ensures Submit(s, cb, commandString, now) == Outcome(s, [])
  {
    HandleCases(s, cb, commandString, now);
  }

  /** Unknown input first reports itself unresolved, then logs one execution and
      one "not found" card naming the lower-cased, trimmed token. */
  lemma SubmitUnknown(s: State, cb: Callbacks, commandString: string, now: int)
    requires !AllWhitespace(commandString) && Normalize(commandString) !in RegistryKeys
    ensures Submit(s, cb, commandString, now) == Outcome(
      Reduce(s, Execute(commandString, Some(TerminalResult(now, commandString, NotFound(Normalize(commandString))))), now),
      ResolvedCall(cb, commandString, None))
  {
    HandleCases(s, cb, commandString, now);
    NotKeyText(commandString, "clear");
    NotKeyText(commandString, "toggle");
  }

  /** The handler's outcome once the lookup has found `Registry[i]` for the input. */
  lemma Found(s: State, cb: Callbacks, commandString: string, now: int, i: nat, k: string)
    requires i < |Registry| && k in OwnKeys(Registry[i]) && Normalize(commandString) == k && k != []
    ensures !AllWhitespace(commandString)
    ensures Handle(s, cb, commandString, now) == HandleDefined(s, cb, commandString, Registry[i], now)
  {
    LookupFindsRegistered(i, k);
    KeyLookup(commandString);
    BlankIffAllWhitespace(commandString);
    HandleCases(s, cb, commandString, now);
  }

  /** A submission is the handler followed by the effect's report of a changed mode. */
  lemma SubmitAfter(s: State, cb: Callbacks, commandString: string, now: int, o: Outcome)
    requires Handle(s, cb, commandString, now) == o
    ensures Submit(s, cb, commandString, now) == Outcome(o.state, o.events + ModeSync(cb, s.mode, o.state.mode))
  {
  }

  /** A submission whose handler leaves the mode alone is the handler alone. */
  lemma SubmitKeepingMode(s: State, cb: Callbacks, commandString: string, now: int, o: Outcome)
    requires Handle(s, cb, commandString, now) == o && o.state.mode == s.mode
    ensures Submit(s, cb, commandString, now) == o
  {
    assert o.events + [] == o.events;
  }

  /** `executeCommand` on text that trims to neither `clear` nor `toggle` is one
      EXECUTE. */
  lemma ExecutePlain(s: State, commandString: string, result: Option<TerminalResult>, now: int)
    requires Trim(commandString) != "clear" && Trim(commandString) != "toggle"
    ensures ExecuteCommandSpec(s, commandString, result, now) == Reduce(s, Execute(commandString, result), now)
  {
  }

  /** The last branch of the handler, for every name but `clear`, `toggle`
      and `download`. */
  lemma GenericState(s: State, commandString: string, d: CommandDefinition, now: int)
    requires d.name != "clear" && d.name != "toggle" && d.name != "download"
    ensures DefinedState(s, commandString, d, now) ==
      ExecuteCommandSpec(s, commandString, BuildCommandResult(commandString, d, now), now)
  {
  }

  lemma GenericEvents(cb: Callbacks, commandString: string, d: CommandDefinition, mode: Mode)
    requires d.name != "clear" && d.name != "toggle" && d.name != "download"
    ensures DefinedEvents(cb, commandString, d, mode) ==
      EarlyCalls(cb, commandString, d) + ScrollCall(cb, d.relatedSectionId)
      + (if d.name != "scroll" then ResolvedCall(cb, commandString, Some(d)) else [])
  {
  }

  lemma HandleGeneric(s: State, cb: Callbacks, commandString: string, d: CommandDefinition, now: int)
    requires d.name != "clear" && d.name != "toggle" && d.name != "download"
    ensures HandleDefined(s, cb, commandString, d, now) == Outcome(
      ExecuteCommandSpec(s, commandString, BuildCommandResult(commandString, d, now), now),
      EarlyCalls(cb, commandString, d) + ScrollCall(cb, d.relatedSectionId)
      + (if d.name != "scroll" then ResolvedCall(cb, commandString, Some(d)) else []))
  {
    GenericState(s, commandString, d, now);
    GenericEvents(cb, commandString, d, s.mode);
  }

  /** The handler on a definition without a special case of its own: one
      EXECUTE with the rendered card, a scroll to the related section when there
      is one, then `onCommandResolved`. */
  lemma HandleDefinedPlain(s: State, cb: Callbacks, commandString: string, d: CommandDefinition, now: int)
    requires d.name !in ["clear", "toggle", "download", "scroll"]
    requires Trim(commandString) != "clear" && Trim(commandString) != "toggle"
    ensures HandleDefined(s, cb, commandString, d, now) == Outcome(
      Reduce(s, Execute(commandString, BuildCommandResult(commandString, d, now)), now),
      ScrollCall(cb, d.relatedSectionId) + ResolvedCall(cb, commandString, Some(d)))
  {
    ExecutePlain(s, commandString, BuildCommandResult(commandString, d, now), now);
    assert [] + ScrollCall(cb, d.relatedSectionId) == ScrollCall(cb, d.relatedSectionId);
  }

  /** The handler on `clear`: the results emptied, then `onCommandResolved`. */
  lemma HandleClear(s: State, cb: Callbacks, commandString: string, now: int)
    ensures HandleDefined(s, cb, commandString, ClearCommand, now) ==
      Outcome(s.(results := []), ResolvedCall(cb, commandString, Some(ClearCommand)))
  {
  }

  /** The handler on `toggle`: one confirmation naming the flipped mode, then
      `onModeChange` with it, then `onCommandResolved`; the reducer's mode flips
      only when the text trims to exactly `toggle`. */
  lemma HandleToggle(s: State, cb: Callbacks, commandString: string, now: int)
    requires Trim(commandString) != "clear"
    ensures var h := HandleDefined(s, cb, commandString, ToggleCommand, now);
      var logged := Reduce(s, Execute(commandString, Some(TerminalResult(now, commandString, Toggled(Flip(s.mode))))), now);
      && h.state.history == logged.history
      && h.state.results == logged.results
      && h.state.mode == (if Trim(commandString) == "toggle" then Flip(s.mode) else s.mode)
      && h.events == (if cb.modeChange then [ModeChanged(Flip(s.mode))] else []) + ResolvedCall(cb, commandString, Some(ToggleCommand))
  {
    ToggleState(s, commandString, now);
    ToggleEvents(cb, commandString, s.mode);
  }

  lemma ToggleState(s: State, commandString: string, now: int)
    ensures DefinedState(s, commandString, ToggleCommand, now) ==
      ExecuteCommandSpec(s, commandString, Some(TerminalResult(now, commandString, Toggled(Flip(s.mode)))), now)
  {
  }

  lemma ToggleEvents(cb: Callbacks, commandString: string, mode: Mode)
    ensures DefinedEvents(cb, commandString, ToggleCommand, mode) ==
      (if cb.modeChange then [ModeChanged(Flip(mode))] else []) + ResolvedCall(cb, commandString, Some(ToggleCommand))
  {
    var modeCall := if cb.modeChange then [ModeChanged(Flip(mode))] else [];
    assert [] + modeCall == modeCall;
  }

  /** The handler on `download`: the download notice, then `onCommandResolved`. */
  lemma HandleDownload(s: State, cb: Callbacks, commandString: string, now: int)
    requires Trim(commandString) != "clear" && Trim(commandString) != "toggle"
    ensures HandleDefined(s, cb, commandString, DownloadCommand, now) == Outcome(
      Reduce(s, Execute(commandString, Some(TerminalResult(now, commandString, DownloadNotice))), now),
      ResolvedCall(cb, commandString, Some(DownloadCommand)))
  {
    ExecutePlain(s, commandString, Some(TerminalResult(now, commandString, DownloadNotice)), now);
  }

  /** The handler on `scroll`: the early scroll and resolution, the generic
      scroll, and no card. */
  lemma HandleScroll(s: State, cb: Callbacks, commandString: string, now: int)
    requires Trim(commandString) != "clear" && Trim(commandString) != "toggle"
    ensures HandleDefined(s, cb, commandString, ScrollCommand, now) == Outcome(
      Reduce(s, Execute(commandString, None), now),
      if cb.scrollToSection
      then [ScrolledTo("scroll-start")] + ResolvedCall(cb, commandString, Some(ScrollCommand)) + [ScrolledTo("scroll-start")]
      else [])
  {
    assert BuildCommandResult(commandString, ScrollCommand, now) == None;
    ExecutePlain(s, commandString, None, now);
  }

  /** The handler on a section command: its section's card, the scroll to that
      section, then `onCommandResolved`. */
  lemma HandleSection(s: State, cb: Callbacks, commandString: string, d: CommandDefinition, now: int)
    requires d.name in SectionNames && d.relatedSectionId == Some(d.name)
    requires Trim(commandString) != "clear" && Trim(commandString) != "toggle"
    ensures HandleDefined(s, cb, commandString, d, now) == Outcome(
      Reduce(s, Execute(commandString, Some(TerminalResult(now, commandString, SectionView(d.name)))), now),
      (if cb.scrollToSection then [ScrolledTo(d.name)] else []) + ResolvedCall(cb, commandString, Some(d)))
  {
    SectionCard(commandString, d, now);
    GenericState(s, commandString, d, now);
    ExecutePlain(s, commandString, BuildCommandResult(commandString, d, now), now);
    GenericEvents(cb, commandString, d, s.mode);
    assert EarlyCalls(cb, commandString, d) == [];
  }

  /** A section command is none of the special cases and renders its section. */
  lemma SectionCard(commandString: string, d: CommandDefinition, now: int)
    requires d.name in SectionNames
    ensures d.name != "clear" && d.name != "toggle" && d.name != "download" && d.name != "scroll"
    ensures BuildCommandResult(commandString, d, now) == Some(TerminalResult(now, commandString, SectionView(d.name)))
  {
  }

  /** The handler on `help`: the command list, then `onCommandResolved`. */
  lemma HandleHelp(s: State, cb: Callbacks, commandString: string, now: int)
    requires Trim(commandString) != "clear" && Trim(commandString) != "toggle"
    ensures HandleDefined(s, cb, commandString, HelpCommand, now) == Outcome(
      Reduce(s, Execute(commandString, Some(TerminalResult(now, commandString, HelpListing))), now),
      ResolvedCall(cb, commandString, Some(HelpCommand)))
  {
    HandleDefinedPlain(s, cb, commandString, HelpCommand, now);
  }

  /** How many of `events` are `onCommandResolved` calls. */
  function ResolvedCount(events: seq<Event>): nat {
    if events == [] then 0
    else ResolvedCount(events[..|events| - 1]) + if events[|events| - 1].Resolved? then 1 else 0
  }

  lemma {:induction false} ResolvedCountConcat(a: seq<Event>, b: seq<Event>)
    ensures ResolvedCount(a + b) == ResolvedCount(a) + ResolvedCount(b)
    decreases |b|
  {
    if b == [] {
      assert a + b == a;
    } else {
      var init := b[..|b| - 1];
      assert (a + b)[..|a + b| - 1] == a + init;
      ResolvedCountConcat(a, init);
    }
  }

  /** Calls that are not `onCommandResolved`. */
  lemma NoneResolved(events: seq<Event>)
    requires forall i :: 0 <= i < |events| ==> !events[i].Resolved?
    ensures ResolvedCount(events) == 0
  {
    if events != [] {
      NoneResolved(events[..|events| - 1]);
    }
  }

  /** Whatever the definition, with both callbacks supplied the handler calls
      `onCommandResolved` exactly once, provided a definition named `scroll`
      carries the section it scrolls to (the registered one does). */
  lemma DefinedResolvesOnce(cb: Callbacks, commandString: string, d: CommandDefinition, mode: Mode)
    requires cb.scrollToSection && cb.commandResolved
    requires d.name == "scroll" ==> d.relatedSectionId.Some?
    ensures ResolvedCount(DefinedEvents(cb, commandString, d, mode)) == 1
  {
    var resolved := ResolvedCall(cb, commandString, Some(d));
    var early := EarlyCalls(cb, commandString, d);
    var events := DefinedEvents(cb, commandString, d, mode);
    assert ResolvedCount(resolved) == 1;
    if d.name == "clear" || d.name == "download" {
      assert events == [] + resolved;
    } else if d.name == "toggle" {
      var modeCall: seq<Event> := if cb.modeChange then [ModeChanged(Flip(mode))] else [];
      assert events == [] + modeCall + resolved;
      NoneResolved(modeCall);
      ResolvedCountConcat([] + modeCall, resolved);
    } else {
      var scroll := ScrollCall(cb, d.relatedSectionId);
      NoneResolved(scroll);
      if d.name == "scroll" {
        var first: seq<Event> := [ScrolledTo(d.relatedSectionId.value)];
        assert events == early + scroll + [];
        NoneResolved(first);
        ResolvedCountConcat(first, resolved);
        ResolvedCountConcat(early, scroll);
        assert early + scroll + [] == early + scroll;
      } else {
        assert events == [] + scroll + resolved;
        ResolvedCountConcat([] + scroll, resolved);
      }
    }
  }

  /** Whatever the definition, the handler records exactly one execution at the
      front of the history unless the definition is `clear`, which records none;
      only text trimming to `clear` takes `executeCommand`'s own clearing path. */
  lemma DefinedHistory(s: State, commandString: string, d: CommandDefinition, now: int)
    requires d.name == "clear" || Trim(commandString) != "clear"
    ensures var h := DefinedState(s, commandString, d, now).history;
      if d.name == "clear" then h == s.history
      else (|h| == Min(|s.history| + 1, HistoryLimit) && h[0] == Execution(commandString, now)
            && h[1..] == s.history[..|h| - 1])
  {
  }

  /** Every registered section id is a non-empty string, so it is truthy. */
  lemma RegistrySectionsNonEmpty(i: nat)
    requires i < |Registry| && Registry[i].relatedSectionId.Some?
    ensures |Registry[i].relatedSectionId.value| > 0
  {
  }

  /** The registered command named `scroll` carries the section it scrolls to. */
  lemma ScrollHasSection(i: nat)
    requires i < |Registry| && Registry[i].name == "scroll"
    ensures Registry[i].relatedSectionId.Some?
  {
  }

  /** The only registered command named `clear` is `clear` itself. */
  lemma ClearOnlyByName(i: nat)
    requires i < |Registry| && Registry[i].name == "clear"
    ensures Registry[i] == ClearCommand
  {
  }

  /** A submission with the lookup as written. Under an inherited key the
      handler takes the generic path with a value that is no command record: its
      `name` ("Object", or none) selects the generic acknowledgement card, and
      that value is reported as the resolved definition. */
  function SubmitAsWritten(s: State, cb: Callbacks, commandString: string, now: int): (r: Outcome)
    ensures !ResolveAsWritten(Normalize(commandString)).Inherited? ==> r == Submit(s, cb, commandString, now)
  {
    match ResolveAsWritten(Normalize(commandString))
    case Inherited(name) =>
      var payload := if name.Some? then PayloadFor(name.value) else Some(Acknowledged);
      var result := if payload.Some? then Some(TerminalResult(now, commandString, payload.value)) else None;
      var st := ExecuteCommandSpec(s, commandString, result, now);
      var resolved := if cb.commandResolved then [ResolvedInherited(commandString)] else [];
      Outcome(st, resolved + ModeSync(cb, s.mode, st.mode))
    case _ => Submit(s, cb, commandString, now)
  }
}
