/** Choosing what a resolved command shows (src/components/terminal/CommandOutput.tsx):
    the payload for a command name, the result card built from it, and the view of
    the result log. The markup itself and the résumé content are not modelled. */
module Output {
  import opened Types
  import opened Commands

  /** The names whose cards show one résumé section. */
  const SectionNames: seq<string> :=
    ["about", "experience", "projects", "education", "certifications", "skills", "contact"]

  /** The names that render nothing. */
  const SilentNames: seq<string> := ["scroll", "toggle", "clear"]

  /** The `switch` of `renderOutputNode` on the command's name. */
  function PayloadFor(name: string): (p: Option<Payload>)
    ensures p.None? <==> name in SilentNames
    ensures p == Some(HelpListing) <==> name == "help"
    ensures (exists s :: p == Some(SectionView(s))) <==> name in SectionNames
    ensures p.Some? && p.value.SectionView? ==> p.value.section == name
    ensures p == Some(Acknowledged) <==> name != "help" && name !in SectionNames && name !in SilentNames
  {
    if name == "help" then Some(HelpListing)
    else if name in SectionNames then Some(SectionView(name))
    else if name in SilentNames then None
    else Some(Acknowledged)
  }

  /** `renderOutputNode(definition, commandString)`: a card for the raw string
      the user typed, or nothing. Which card depends on the definition's name only. */
  function RenderOutputNode(definition: CommandDefinition, commandString: string, now: int)
    : (r: Option<TerminalResult>)
    ensures r.None? <==> definition.name in SilentNames
    ensures r.Some? ==> r.value.command == commandString && r.value.stamp == now
    ensures r.Some? ==> Some(r.value.payload) == PayloadFor(definition.name)
  {
    match PayloadFor(definition.name)
    case None => None
    case Some(p) => Some(TerminalResult(now, commandString, p))
  }

  /** `buildCommandResult(command, definition)`: the same card, arguments swapped. */
  function BuildCommandResult(command: string, definition: CommandDefinition, now: int)
    : (r: Option<TerminalResult>)
    ensures r == RenderOutputNode(definition, command, now)
  {
    RenderOutputNode(definition, command, now)
  }

  /** Two definitions with the same name render the same card. */
  lemma RenderDependsOnlyOnName(d1: CommandDefinition, d2: CommandDefinition, commandString: string, now: int)
    requires d1.name == d2.name
    ensures RenderOutputNode(d1, commandString, now) == RenderOutputNode(d2, commandString, now)
  {
  }

  /** Over the shipped registry: help lists commands, the seven section commands
      show their section, scroll, toggle and clear render nothing, and download
      falls through to the generic acknowledgement. */
  lemma RegistryPayloads()
    ensures PayloadFor(HelpCommand.name) == Some(HelpListing)
    ensures forall c :: c in Registry[1..8] ==> PayloadFor(c.name) == Some(SectionView(c.name))
    ensures PayloadFor(ScrollCommand.name) == None
    ensures PayloadFor(ToggleCommand.name) == None
    ensures PayloadFor(ClearCommand.name) == None
    ensures PayloadFor(DownloadCommand.name) == Some(Acknowledged)
  {
    assert Registry[1..8] == [AboutCommand, ExperienceCommand, ProjectsCommand, EducationCommand,
      CertificationsCommand, SkillsCommand, ContactCommand];
  }

  /** One card of the log: the command line above the payload. */
  datatype LogEntry = LogEntry(command: string, payload: Payload)

  /** What `CommandResultLog` shows: the placeholder text or the cards. */
  datatype LogView = Placeholder | Entries(entries: seq<LogEntry>)

  /** The placeholder exactly when there are no results; otherwise one card per
      result, in array order (oldest first). */
  function ResultLog(results: seq<TerminalResult>): (v: LogView)
    ensures v.Placeholder? <==> results == []
    ensures v.Entries? ==> |v.entries| == |results|
    ensures v.Entries? ==> forall i :: 0 <= i < |results| ==>
      v.entries[i] == LogEntry(results[i].command, results[i].payload)
  {
    if results == [] then Placeholder
    else Entries(seq(|results|, i requires 0 <= i < |results| => LogEntry(results[i].command, results[i].payload)))
  }
}
