/** What one submission does, command by command, and what every submission
    does to the history and to the parent's `onCommandResolved` callback. */
module Submissions {
  import opened Types
  import opened Text
  import opened Commands
  import opened Output
  import opened Session
  import opened Terminal

  /** Where the lookup leads for each command whose handling is spelled out
      below. */
  lemma FoundClear(s: State, cb: Callbacks, commandString: string, now: int)
    requires Normalize(commandString) == "clear"
    ensures Handle(s, cb, commandString, now) == HandleDefined(s, cb, commandString, ClearCommand, now)
  {
    Found(s, cb, commandString, now, 9, "clear");
  }

  lemma FoundToggle(s: State, cb: Callbacks, commandString: string, now: int)
    requires Normalize(commandString) == "toggle"
    ensures Handle(s, cb, commandString, now) == HandleDefined(s, cb, commandString, ToggleCommand, now)
  {
    Found(s, cb, commandString, now, 10, "toggle");
  }

  lemma FoundDownload(s: State, cb: Callbacks, commandString: string, now: int)
    requires Normalize(commandString) in OwnKeys(DownloadCommand)
    ensures Handle(s, cb, commandString, now) == HandleDefined(s, cb, commandString, DownloadCommand, now)
  {
    Found(s, cb, commandString, now, 11, Normalize(commandString));
  }

  lemma FoundScroll(s: State, cb: Callbacks, commandString: string, now: int)
    requires Normalize(commandString) in OwnKeys(ScrollCommand)
    ensures Handle(s, cb, commandString, now) == HandleDefined(s, cb, commandString, ScrollCommand, now)
  {
    Found(s, cb, commandString, now, 8, Normalize(commandString));
  }

  lemma FoundHelp(s: State, cb: Callbacks, commandString: string, now: int)
    requires Normalize(commandString) in OwnKeys(HelpCommand)
    ensures Handle(s, cb, commandString, now) == HandleDefined(s, cb, commandString, HelpCommand, now)
  {
    Found(s, cb, commandString, now, 0, Normalize(commandString));
  }

  lemma FoundSection(s: State, cb: Callbacks, commandString: string, i: nat, now: int)
    requires 1 <= i <= 7 && Normalize(commandString) == Registry[i].name
    ensures Handle(s, cb, commandString, now) == HandleDefined(s, cb, commandString, Registry[i], now)
  {
    Found(s, cb, commandString, now, i, Registry[i].name);
  }

  /** What `executeCommand`'s own test sees of the trimmed text for each of
      those commands: neither `clear` nor (but for `toggle`) `toggle`. */
  lemma ToggleText(commandString: string)
    requires Normalize(commandString) == "toggle"
    ensures Trim(commandString) != "clear"
  {
    NotKeyText(commandString, "clear");
  }

  lemma DownloadText(commandString: string)
    requires Normalize(commandString) in OwnKeys(DownloadCommand)
    ensures Trim(commandString) != "clear" && Trim(commandString) != "toggle"
  {
    PlainText(commandString);
  }

  lemma ScrollText(commandString: string)
    requires Normalize(commandString) in OwnKeys(ScrollCommand)
    ensures Trim(commandString) != "clear" && Trim(commandString) != "toggle"
  {
    PlainText(commandString);
  }

  lemma HelpText(commandString: string)
    requires Normalize(commandString) in OwnKeys(HelpCommand)
    ensures Trim(commandString) != "clear" && Trim(commandString) != "toggle"
  {
    PlainText(commandString);
  }

  lemma SectionText(commandString: string, i: nat)
    requires 1 <= i <= 7 && Normalize(commandString) == Registry[i].name
    ensures Trim(commandString) != "clear" && Trim(commandString) != "toggle"
    ensures Registry[i].name in SectionNames && Registry[i].relatedSectionId == Some(Registry[i].name)
  {
    PlainText(commandString);
  }

  /** `clear` (in any case, with any padding) empties the results, records no
      execution and calls `onCommandResolved` once. */
  lemma SubmitClear(s: State, cb: Callbacks, commandString: string, now: int)
    requires Normalize(commandString) == "clear"
    ensures Submit(s, cb, commandString, now) == Outcome(s.(results := []), ResolvedCall(cb, commandString, Some(ClearCommand)))
  {
    var o := Outcome(s.(results := []), ResolvedCall(cb, commandString, Some(ClearCommand)));
    FoundClear(s, cb, commandString, now);
    HandleClear(s, cb, commandString, now);
    SubmitKeepingMode(s, cb, commandString, now, o);
  }

  /** `toggle` (in any case, with any padding) logs one execution and a card
      naming the flipped mode, calls `onModeChange` with that mode and then
      `onCommandResolved`. The session's mode flips, and the effect reports it a
      second time, only when the trimmed text is exactly `toggle`. */
  lemma SubmitToggle(s: State, cb: Callbacks, commandString: string, now: int)
    requires Normalize(commandString) == "toggle"
    ensures var r := Submit(s, cb, commandString, now);
      var logged := Reduce(s, Execute(commandString, Some(TerminalResult(now, commandString, Toggled(Flip(s.mode))))), now);
      && r.state.history == logged.history
      && r.state.results == logged.results
      && r.state.mode == (if Trim(commandString) == "toggle" then Flip(s.mode) else s.mode)
      && r.events ==
        (if cb.modeChange then [ModeChanged(Flip(s.mode))] else [])
        + ResolvedCall(cb, commandString, Some(ToggleCommand))
        + (if cb.modeChange && Trim(commandString) == "toggle" then [ModeChanged(Flip(s.mode))] else [])
  {
    FoundToggle(s, cb, commandString, now);
    ToggleText(commandString);
    HandleToggle(s, cb, commandString, now);
    SubmitAfter(s, cb, commandString, now, HandleDefined(s, cb, commandString, ToggleCommand, now));
  }

  /** Text that names `toggle` only up to letter case, such as `Toggle`,
      announces the flipped mode to the parent but leaves the session's own
      mode as it was: `executeCommand` compares the trimmed text with `toggle`
      case-sensitively, the lookup does not. */
  lemma MistypedToggleKeepsMode(s: State, cb: Callbacks, commandString: string, now: int)
    requires Normalize(commandString) == "toggle" && Trim(commandString) != "toggle"
    ensures Submit(s, cb, commandString, now).state.mode == s.mode
    ensures cb.modeChange ==>
      |Submit(s, cb, commandString, now).events| > 0 && Submit(s, cb, commandString, now).events[0] == ModeChanged(Flip(s.mode))
  {
    SubmitToggle(s, cb, commandString, now);
    if cb.modeChange {
      var events := Submit(s, cb, commandString, now).events;
      var first: seq<Event> := [ModeChanged(Flip(s.mode))];
      assert events == first + ResolvedCall(cb, commandString, Some(ToggleCommand)) + [];
      assert events[0] == first[0];
    }
  }

  /** `Toggle` is such a text. */
  lemma CapitalizedToggle()
    ensures Normalize("Toggle") == "toggle" && Trim("Toggle") != "toggle"
  {
    CapitalToggleTrim("Toggle");
    CapitalToggleLower("Toggle");
    assert "Toggle"[0] != "toggle"[0];
  }

  lemma CapitalToggleTrim(c: string)
    requires c == "Toggle"
    ensures Trim(c) == c
  {
    assert IsTrimmed(c);
    TrimOfTrimmed(c);
  }

  lemma CapitalToggleLower(c: string)
    requires c == "Toggle"
    ensures ToLower(c) == "toggle"
  {
    var l := ToLower(c);
    ToLowerAt(c);
    assert l == "toggle";
  }

  /** The download command and both its aliases log one execution and the
      download notice and call `onCommandResolved` once; no section is scrolled to. */
  lemma SubmitDownload(s: State, cb: Callbacks, commandString: string, now: int)
    requires Normalize(commandString) in OwnKeys(DownloadCommand)
    ensures Submit(s, cb, commandString, now) == Outcome(
      Reduce(s, Execute(commandString, Some(TerminalResult(now, commandString, DownloadNotice))), now),
      ResolvedCall(cb, commandString, Some(DownloadCommand)))
  {
    var o := Outcome(
      Reduce(s, Execute(commandString, Some(TerminalResult(now, commandString, DownloadNotice))), now),
      ResolvedCall(cb, commandString, Some(DownloadCommand)));
    FoundDownload(s, cb, commandString, now);
    DownloadText(commandString);
    HandleDownload(s, cb, commandString, now);
    SubmitKeepingMode(s, cb, commandString, now, o);
  }

  /** `scroll` and `view` log one execution and no card. With a scroll callback,
      they scroll to `scroll-start` twice and report themselves resolved once, in
      between; without one, they call nothing at all. */
  lemma SubmitScroll(s: State, cb: Callbacks, commandString: string, now: int)
    requires Normalize(commandString) in OwnKeys(ScrollCommand)
    ensures Submit(s, cb, commandString, now) == Outcome(
      Reduce(s, Execute(commandString, None), now),
      if cb.scrollToSection
      then [ScrolledTo("scroll-start")] + ResolvedCall(cb, commandString, Some(ScrollCommand)) + [ScrolledTo("scroll-start")]
      else [])
  {
    FoundScroll(s, cb, commandString, now);
    ScrollText(commandString);
    HandleScroll(s, cb, commandString, now);
    SubmitKeepingMode(s, cb, commandString, now, HandleDefined(s, cb, commandString, ScrollCommand, now));
  }

  /** Each of the seven section commands logs one execution and its section's
      card, scrolls to its section (when it can) and then reports itself resolved. */
  lemma SubmitSection(s: State, cb: Callbacks, commandString: string, i: nat, now: int)
    requires 1 <= i <= 7 && Normalize(commandString) == Registry[i].name
    ensures Registry[i].relatedSectionId == Some(Registry[i].name)
    ensures Submit(s, cb, commandString, now) == Outcome(
      Reduce(s, Execute(commandString, Some(TerminalResult(now, commandString, SectionView(Registry[i].name)))), now),
      (if cb.scrollToSection then [ScrolledTo(Registry[i].name)] else [])
      + ResolvedCall(cb, commandString, Some(Registry[i])))
  {
    var d := Registry[i];
    FoundSection(s, cb, commandString, i, now);
    SectionText(commandString, i);
    HandleSection(s, cb, commandString, d, now);
    SubmitKeepingMode(s, cb, commandString, now, HandleDefined(s, cb, commandString, d, now));
  }

  /** `help` and `?` log one execution and the command list and report
      themselves resolved; no section is scrolled to. */
  lemma SubmitHelp(s: State, cb: Callbacks, commandString: string, now: int)
    requires Normalize(commandString) in OwnKeys(HelpCommand)
    ensures Submit(s, cb, commandString, now) == Outcome(
      Reduce(s, Execute(commandString, Some(TerminalResult(now, commandString, HelpListing))), now),
      ResolvedCall(cb, commandString, Some(HelpCommand)))
  {
    var o := Outcome(
      Reduce(s, Execute(commandString, Some(TerminalResult(now, commandString, HelpListing))), now),
      ResolvedCall(cb, commandString, Some(HelpCommand)));
    FoundHelp(s, cb, commandString, now);
    HelpText(commandString);
    HandleHelp(s, cb, commandString, now);
    SubmitKeepingMode(s, cb, commandString, now, o);
  }

  /** The handler alone, with both callbacks supplied, calls
      `onCommandResolved` once for non-blank input and never for blank input. */
  lemma HandleResolvesOnce(s: State, cb: Callbacks, commandString: string, now: int)
    requires cb.scrollToSection && cb.commandResolved
    ensures ResolvedCount(Handle(s, cb, commandString, now).events) == if AllWhitespace(commandString) then 0 else 1
  {
    HandleCases(s, cb, commandString, now);
    var r := GetCommandDefinition(commandString);
    if AllWhitespace(commandString) {
      assert Handle(s, cb, commandString, now).events == [];
    } else if r.None? {
      assert ResolvedCount([Resolved(commandString, None)]) == 1;
    } else {
      var i :| 0 <= i < |Registry| && Registry[i] == r.value;
      if r.value.name == "scroll" {
        ScrollHasSection(i);
      }
      DefinedResolvesOnce(cb, commandString, r.value, s.mode);
    }
  }

  /** With both callbacks supplied, every non-blank submission calls
      `onCommandResolved` exactly once; a blank one calls nothing. */
  lemma ResolvedExactlyOnce(s: State, cb: Callbacks, commandString: string, now: int)
    requires cb.scrollToSection && cb.commandResolved
    ensures ResolvedCount(Submit(s, cb, commandString, now).events) == if AllWhitespace(commandString) then 0 else 1
  {
    var h := Handle(s, cb, commandString, now);
    SubmitAfter(s, cb, commandString, now, h);
    var sync := ModeSync(cb, s.mode, h.state.mode);
    ResolvedCountConcat(h.events, sync);
    NoneResolved(sync);
    HandleResolvesOnce(s, cb, commandString, now);
  }

  /** Every non-blank submission records exactly one execution at the front of
      the history, except `clear`, which records none. */
  lemma HistoryGrowsByOne(s: State, cb: Callbacks, commandString: string, now: int)
    ensures var h := Submit(s, cb, commandString, now).state.history;
      if AllWhitespace(commandString) || Normalize(commandString) == "clear" then h == s.history
      else (|h| == Min(|s.history| + 1, HistoryLimit) && h[0] == Execution(commandString, now)
            && h[1..] == s.history[..|h| - 1])
  {
    HandleCases(s, cb, commandString, now);
    if Normalize(commandString) == "clear" {
      SubmitClear(s, cb, commandString, now);
    } else {
      NotKeyText(commandString, "clear");
      var r := GetCommandDefinition(commandString);
      if !AllWhitespace(commandString) && r.Some? {
        var d := r.value;
        var i :| 0 <= i < |Registry| && Registry[i] == d;
        if d.name == "clear" {
          ClearOnlyByName(i);
          assert false;
        }
        DefinedHistory(s, commandString, d, now);
      }
    }
  }

  /** What the handler sees of text naming `constructor`: it is not blank,
      names no command, is neither `clear` nor `toggle` to `executeCommand`, and
      as written finds the inherited `Object` function. */
  lemma ConstructorText(commandString: string)
    requires Normalize(commandString) == "constructor"
    ensures !AllWhitespace(commandString) && Normalize(commandString) !in RegistryKeys
    ensures Trim(commandString) != "clear" && Trim(commandString) != "toggle"
    ensures ResolveAsWritten(Normalize(commandString)) == Inherited(Some("Object"))
  {
    BlankIffAllWhitespace(commandString);
    PlainText(commandString);
    ConstructorResolvesAsWritten();
  }

  /** Submitting `constructor` (in any case, with any padding) as written logs
      the generic acknowledgement and reports the inherited value as resolved. */
  lemma ConstructorAcknowledgedAsWritten(s: State, cb: Callbacks, commandString: string, now: int)
    requires Normalize(commandString) == "constructor"
    ensures SubmitAsWritten(s, cb, commandString, now) == Outcome(
      Reduce(s, Execute(commandString, Some(TerminalResult(now, commandString, Acknowledged))), now),
      if cb.commandResolved then [ResolvedInherited(commandString)] else [])
  {
    ConstructorText(commandString);
    assert PayloadFor("Object") == Some(Acknowledged);
    ExecutePlain(s, commandString, Some(TerminalResult(now, commandString, Acknowledged)), now);
  }

  /** With the own-key lookup, the same text is an unknown command: it logs
      "Command not found: constructor" and reports itself unresolved. */
  lemma ConstructorNotFound(s: State, cb: Callbacks, commandString: string, now: int)
    requires Normalize(commandString) == "constructor"
    ensures Submit(s, cb, commandString, now) == Outcome(
      Reduce(s, Execute(commandString, Some(TerminalResult(now, commandString, NotFound("constructor")))), now),
      ResolvedCall(cb, commandString, None))
  {
    ConstructorText(commandString);
    SubmitUnknown(s, cb, commandString, now);
  }
}
