/** The terminal component as an object: the store it owns, the callbacks its
    parent supplied, and the log of calls it has made to them. */
module Component {
  import opened Types
  import opened Text
  import opened Commands
  import opened Output
  import opened Session
  import opened Terminal

  /** The component, holding the session store and logging the calls it makes to
      its parent. */
  class TerminalComponent {
    const store: Store
    const callbacks: Callbacks
    var events: seq<Event>

    /** Mounting: a fresh session, and the effect's first report of its mode. */
    constructor (callbacks: Callbacks)
      ensures fresh(store) && store.state == InitialState
      ensures this.callbacks == callbacks
      ensures events == MountEvents(callbacks)
    {
      store := new Store();
      this.callbacks := callbacks;
      events := if callbacks.modeChange then [ModeChanged(Hybrid)] else [];
    }

    method Resolve(commandString: string, definition: Option<CommandDefinition>)
      modifies this
      ensures events == old(events) + ResolvedCall(callbacks, commandString, definition)
    {
      if callbacks.commandResolved {
        events := events + [Resolved(commandString, definition)];
      }
    }

    method ScrollTo(sectionId: Option<string>)
      modifies this
      ensures events == old(events) + ScrollCall(callbacks, sectionId)
    {
      if sectionId.Some? && callbacks.scrollToSection {
        events := events + [ScrolledTo(sectionId.value)];
      }
    }

    /** `handleSubmit`: blank input returns at once; an unknown command
        reports itself unresolved and logs "not found"; a known one is handled
        by `HandleFound`. */
    method Handler(commandString: string, now: int)
      modifies this, store
      ensures store.state == Handle(old(store.state), callbacks, commandString, now).state
      ensures events == old(events) + Handle(old(store.state), callbacks, commandString, now).events
    {
      var normalized := Normalize(commandString);
      if normalized == [] {
        return;
      }
      var definition := GetCommandDefinition(normalized);
      if definition.None? {
        Resolve(commandString, None);
        store.ExecuteCommand(commandString, Some(TerminalResult(now, commandString, NotFound(normalized))), now);
        return;
      }
      HandleFound(commandString, definition.value, now);
    }

    /** The rest of `handleSubmit`, once the lookup has found `d`. The early
        scroll the source performs before its `clear` test can only fire for the
        scroll command, so it is part of the last branch here. */
    method HandleFound(commandString: string, d: CommandDefinition, now: int)
      modifies this, store
      ensures store.state == HandleDefined(old(store.state), callbacks, commandString, d, now).state
      ensures events == old(events) + HandleDefined(old(store.state), callbacks, commandString, d, now).events
    {
      if d.name == "clear" {
        ClearBranch(commandString, d, now);
      } else if d.name == "toggle" {
        ToggleBranch(commandString, d, now);
      } else if d.name == "download" {
        DownloadBranch(commandString, d, now);
      } else {
        GenericBranch(commandString, d, now);
      }
    }

    /** `clear`: `clearResults`, then `onCommandResolved`. */
    method ClearBranch(commandString: string, d: CommandDefinition, now: int)
      requires d.name == "clear"
      modifies this, store
      ensures store.state == HandleDefined(old(store.state), callbacks, commandString, d, now).state
      ensures events == old(events) + HandleDefined(old(store.state), callbacks, commandString, d, now).events
    {
      store.ClearResults(now);
      Resolve(commandString, Some(d));
    }

    /** `toggle`: `executeCommand` with the confirmation, `onModeChange`, then
        `onCommandResolved`. */
    method ToggleBranch(commandString: string, d: CommandDefinition, now: int)
      requires d.name == "toggle"
      modifies this, store
      ensures store.state == HandleDefined(old(store.state), callbacks, commandString, d, now).state
      ensures events == old(events) + HandleDefined(old(store.state), callbacks, commandString, d, now).events
    {
      var nextMode := Flip(store.state.mode);
      store.ExecuteCommand(commandString, Some(TerminalResult(now, commandString, Toggled(nextMode))), now);
      if callbacks.modeChange {
        events := events + [ModeChanged(nextMode)];
      }
      Resolve(commandString, Some(d));
    }

    /** `download`: `executeCommand` with the notice, then `onCommandResolved`. */
    method DownloadBranch(commandString: string, d: CommandDefinition, now: int)
      requires d.name == "download"
      modifies this, store
      ensures store.state == HandleDefined(old(store.state), callbacks, commandString, d, now).state
      ensures events == old(events) + HandleDefined(old(store.state), callbacks, commandString, d, now).events
    {
      store.ExecuteCommand(commandString, Some(TerminalResult(now, commandString, DownloadNotice)), now);
      Resolve(commandString, Some(d));
    }

    /** The scroll command's early scroll and resolution. */
    method EarlyExit(commandString: string, d: CommandDefinition)
      modifies this
      ensures events == old(events) + EarlyCalls(callbacks, commandString, d)
    {
      if d.name == "scroll" && d.relatedSectionId.Some? && callbacks.scrollToSection {
        ghost var e0 := events;
        ScrollTo(d.relatedSectionId);
        Resolve(commandString, Some(d));
        EventsAssoc(e0, [ScrolledTo(d.relatedSectionId.value)], ResolvedCall(callbacks, commandString, Some(d)));
      } else {
        assert events + [] == events;
      }
    }

    /** Every other command: the scroll command's early scroll and resolution,
        the scroll to the related section, `executeCommand` with the rendered
        card, and `onCommandResolved` unless the command is `scroll`. */
    method GenericBranch(commandString: string, d: CommandDefinition, now: int)
      requires d.name != "clear" && d.name != "toggle" && d.name != "download"
      modifies this, store
      ensures store.state == HandleDefined(old(store.state), callbacks, commandString, d, now).state
      ensures events == old(events) + HandleDefined(old(store.state), callbacks, commandString, d, now).events
    {
      HandleGeneric(store.state, callbacks, commandString, d, now);
      ghost var e0 := events;
      EarlyExit(commandString, d);
      ScrollTo(d.relatedSectionId);
      ghost var early := EarlyCalls(callbacks, commandString, d);
      ghost var scroll := ScrollCall(callbacks, d.relatedSectionId);
      EventsAssoc(e0, early, scroll);
      var result := BuildCommandResult(commandString, d, now);
      store.ExecuteCommand(commandString, result, now);
      if d.name != "scroll" {
        Resolve(commandString, Some(d));
        EventsAssoc(e0, early + scroll, ResolvedCall(callbacks, commandString, Some(d)));
      } else {
        assert early + scroll + [] == early + scroll;
      }
    }

    /** A submission followed by the mode-sync effect of the next render. */
    method HandleSubmit(commandString: string, now: int)
      modifies this, store
      ensures store.state == Submit(old(store.state), callbacks, commandString, now).state
      ensures events == old(events) + Submit(old(store.state), callbacks, commandString, now).events
    {
      ghost var s0, e0 := store.state, events;
      var before := store.state.mode;
      Handler(commandString, now);
      ghost var h := Handle(s0, callbacks, commandString, now);
      SubmitAfter(s0, callbacks, commandString, now, h);
      if callbacks.modeChange && store.state.mode != before {
        events := events + [ModeChanged(store.state.mode)];
      }
      EventsAssoc(e0, h.events, ModeSync(callbacks, s0.mode, h.state.mode));
    }
  }
}
