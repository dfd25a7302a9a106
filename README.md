# Terminal command interpreter of a résumé site

The site shows a résumé beside an interactive terminal. The visitor types
commands such as `help`, `about`, `toggle` or `clear`, or clicks a command chip.
The terminal looks the command up in a fixed registry of twelve commands and
four aliases. It logs the execution and a result card, and it tells the page to
scroll to a section or to switch between the `hybrid` and `terminal` layouts.

This Dafny project models that interpreter and proves properties of it:

- `Text`: JavaScript's `trim`, `toLowerCase` and `startsWith`. Trimming removes
  exactly the surrounding whitespace. The lookup key is the same for inputs that
  differ only in case or padding, and normalising twice is normalising once.
- `Types`: the terminal's value types. A result card's markup is reduced to an
  abstract `Payload`.
- `Commands` (`src/data/commands.ts`): the registry, in source order.
  - The dictionary fold, both as a function and as the `reduce` loop
    (`BuildDictionary`). Its keys are exactly the sixteen names and aliases, all
    distinct and all in normal form. Each key maps to the record that owns it.
  - The primary chip commands, as the `filter` over the registry.
  - The section descriptors.
- `Output` (`CommandOutput.tsx`): the payload each command name selects, the
  card `buildCommandResult` returns, and what the result log shows.
- `Session` (`useTerminal.ts`):
  - the reducer, over a history (newest first, 50 kept), results (oldest first,
    20 kept) and a mode;
  - the normalised lookup;
  - `executeCommand`;
  - the hook's state slot, as the class `Store`.
- `Terminal` and `Submissions` (`Terminal.tsx`):
  - what `handleSubmit` does to the session, and which of the parent's callbacks
    it calls, in which order, followed by the effect that reports a changed mode;
  - every command's path, taken one command at a time;
  - every non-blank submission reports itself resolved exactly once, and records
    exactly one execution unless it is `clear`.
- `Component` (`Terminal.tsx`): the component as a class that owns a `Store` and
  logs its callback calls. Each method is proved to have the effect the
  functions above describe.
- `Input` (`CommandInput.tsx`): the command line.
  - Autocomplete suggestions, recomputed from the field's text: at most five, in
    registry order, each extending that text and never equal to it. Tab and the
    suggestion buttons use that list.
  - Recall with ArrowUp and ArrowDown over the fifty newest submitted lines;
    Ctrl+L; the suggestion and chip clicks.
  - A reachable-state invariant that every event preserves.
  - The class `CommandInput`, whose handlers are proved against the step
    functions.

`Date.now()` is a parameter `now` of every operation that reads the clock. The
parent's optional callbacks are flags saying which ones were supplied. The calls
the components make are returned as, or appended to, an ordered log.

In these places the code's behaviour may look unintended; the model follows the
code:

- ArrowDown from the oldest entry of a two-line history shows the newer entry;
  only a second ArrowDown empties the field (`Input.RecallTwoLines`).
- The `scroll` command (and `view`) signals its section twice, once in the
  early branch and once in the generic one (`Submissions.SubmitScroll`).
- `Toggle` in another letter case confirms the flip and calls `onModeChange`,
  but the session's mode does not change. `executeCommand` compares the
  trimmed text with `toggle` case-sensitively, and the lookup does not
  (`Submissions.MistypedToggleKeepsMode`).
- Repeated Tab does not go round the suggestions. Once Tab has filled in a
  command name, the suggestions are those of that name, and there are none. So
  every later Tab, and every click after a suggestion click, changes nothing
  (`Input.TabStallsAfterComplete`, `Input.ChosenIsComplete`). The index
  arithmetic `(suggestionIndex + 1) % suggestions.length` at
  `src/components/terminal/CommandInput.tsx:61` suggests a cycle was meant; that
  cycle is stated apart, under "## Findings".

## Model

| member | source | states |
|---|---|---|
| Text.LowerChar | src/components/terminal/useTerminal.ts:57 | the lower-cased character is never an upper-case letter; whitespace stays whitespace; anything but A–Z is unchanged |
| Text.ToLower | src/components/terminal/useTerminal.ts:57 | `toLowerCase` keeps the length |
| Text.TrimStart | src/components/terminal/useTerminal.ts:57 | the leading trim never lengthens and leaves no whitespace at the front |
| Text.TrimEnd | src/components/terminal/useTerminal.ts:57 | the trailing trim never lengthens, keeps the first character, and leaves no whitespace at the end |
| Text.ToLowerAt | src/components/terminal/useTerminal.ts:57 | `toLowerCase` keeps the length and lower-cases each character independently |
| Text.TrimStartSplit | src/components/terminal/useTerminal.ts:57 | the trimmed-off prefix is all whitespace, and the input is that prefix followed by the result |
| Text.TrimEndSplit | src/components/terminal/useTerminal.ts:57 | the trimmed-off suffix is all whitespace, and the input is the result followed by that suffix |
| Text.Trim | src/components/terminal/useTerminal.ts:57 | `trim` leaves no whitespace at either end and never lengthens |
| Text.TrimSplit | src/components/terminal/useTerminal.ts:57 | every string is its trimmed form with whitespace on either side |
| Text.TrimOfPadded | src/components/terminal/useTerminal.ts:57 | a trimmed core padded with whitespace trims back to exactly that core |
| Text.TrimOfTrimmed | src/components/terminal/useTerminal.ts:57 | text with no surrounding whitespace trims to itself |
| Text.ToLowerConcat | src/components/terminal/useTerminal.ts:57 | lower-casing distributes over concatenation |
| Text.NormalizeLowersFirst | src/components/terminal/Terminal.tsx:20 | trimming then lower-casing equals lower-casing then trimming |
| Text.NormalizeIgnoresCase | src/components/terminal/Terminal.tsx:20 | inputs equal up to letter case have the same key |
| Text.NormalizeIgnoresPadding | src/components/terminal/Terminal.tsx:20 | surrounding whitespace does not change the key |
| Text.NormalizeOfNormalForm | src/components/terminal/useTerminal.ts:57 | a trimmed key without capitals is its own key |
| Text.ToLowerOfLower | src/components/terminal/useTerminal.ts:57 | lower-casing text without capitals changes nothing |
| Text.BlankIffAllWhitespace | src/components/terminal/Terminal.tsx:20-21 | the key is empty exactly when the input is all whitespace |
| Text.NormalizeIdempotent | src/components/terminal/Terminal.tsx:20-23 | normalising the already-normalised key (as `getCommandDefinition(normalized)` does) changes nothing |
| Types.Flip | src/components/terminal/Terminal.tsx:53 | the next mode always differs from the current one |
| Commands.WithAliases | src/data/commands.ts:157-161 | after the `forEach`, every alias maps to the record, the other keys keep their entries, and no other key is added |
| Commands.DictionaryOf | src/data/commands.ts:155-163 | the dictionary's keys are exactly the names and aliases the records contribute |
| Commands.DictionaryValues | src/data/commands.ts:155-163 | every value in the dictionary is one of the records |
| Commands.BuildDictionary | src/data/commands.ts:155-163 | the mutating `reduce` over records and aliases builds exactly `DictionaryOf` |
| Commands.WithCommandMaps | src/data/commands.ts:156-161 | one `reduce` step maps the record's name and aliases to it and leaves every other key as it was |
| Commands.DictionaryMapsOwner | src/data/commands.ts:155-163 | when no key is contributed twice, every key maps to the record that contributes it |
| Commands.DistinctCardinality | src/data/commands.ts:155-163 | a list without repeats has as many distinct keys as entries |
| Commands.RegistryKeysListed | src/data/commands.ts:20-92 | the registry contributes exactly the sixteen keys, in order |
| Commands.RegistryKeysDistinct | src/data/commands.ts:20-92 | no name or alias is contributed twice |
| Commands.DictionaryKeys | src/data/commands.ts:155-163 | `commandDictionary` has exactly the sixteen keys |
| Commands.RegistryResolves | src/data/commands.ts:155-163 | every name and alias of a record maps to that record |
| Commands.AliasResolvesLikeName | src/data/commands.ts:157-161 | an alias maps to the same record as its command's name |
| Commands.RegistryKeyNormal | src/data/commands.ts:20-92 | every key is trimmed and free of capitals |
| Commands.DictionaryKeysNormalized | src/data/commands.ts:155-163 | every dictionary key is its own normalised form, so the normalised lookup can reach it |
| Commands.MatchingSpec | src/data/commands.ts:151-153 | `filter` keeps exactly the records that pass, in their original order |
| Commands.MatchingCounts | src/data/commands.ts:151-153 | `filter` keeps each passing record as many times as it occurs and drops every other record |
| Commands.SubsequencePrefix | src/components/terminal/CommandInput.tsx:24-26 | a prefix (`slice(0, n)`) of an ordered selection is still an ordered selection |
| Commands.PrimaryFlags | src/data/commands.ts:139-147 | which of the twelve commands are primary |
| Commands.PrimaryCommandsListed | src/data/commands.ts:139-153 | `primaryCommands` is help, about, experience, projects, skills, contact, scroll, in that order |
| Commands.DescriptorsMatchCommands | src/data/commands.ts:94-137 | every section descriptor is named by its command, which resolves to a record focusing that section |
| Output.PayloadFor | src/components/terminal/CommandOutput.tsx:12-234 | no card exactly for scroll, toggle and clear; the command list exactly for help; a section's card exactly for the seven section names; the generic acknowledgement for every other name |
| Output.RenderOutputNode | src/components/terminal/CommandOutput.tsx:12-234 | the card is absent exactly for the silent names; it carries the raw command string and the clock reading, and its payload is the one the name selects |
| Output.BuildCommandResult | src/components/terminal/CommandOutput.tsx:241-243 | `buildCommandResult` is `renderOutputNode` with its arguments swapped |
| Output.RenderDependsOnlyOnName | src/components/terminal/CommandOutput.tsx:12-13 | two definitions with the same name render the same card |
| Output.RegistryPayloads | src/components/terminal/CommandOutput.tsx:13-233 | over the registry, help lists commands, the sections show themselves, scroll/toggle/clear render nothing, and download gets the generic acknowledgement |
| Output.ResultLog | src/components/terminal/CommandOutput.tsx:268-290 | the placeholder exactly when there are no results; otherwise one card per result, in array order |
| Session.Take | src/components/terminal/useTerminal.ts:25 | `slice(0, n)` keeps the first `min(len, n)` entries |
| Session.KeepLast | src/components/terminal/useTerminal.ts:27 | `slice(-n)` keeps the last `min(len, n)` entries |
| Session.PushExecution | src/components/terminal/useTerminal.ts:21-25 | the new execution is first, followed by the newest of the old history, 50 at most |
| Session.PushResult | src/components/terminal/useTerminal.ts:26-28 | the new result is last, preceded by the newest of the old results, 20 at most |
| Session.Reduce | src/components/terminal/useTerminal.ts:18-51 | EXECUTE prepends the execution and appends the result when there is one (bounds 50/20) and keeps the mode; CLEAR empties only the results; SET_MODE changes only the mode; bounds are preserved |
| Session.ReplayStaysBounded | src/components/terminal/useTerminal.ts:18-51 | no sequence of actions exceeds 50 executions or 20 results |
| Session.TakeOfTake | src/components/terminal/useTerminal.ts:25 | truncating before prepending changes nothing once the result is truncated again |
| Session.KeepLastOfKeepLast | src/components/terminal/useTerminal.ts:27 | truncating before appending changes nothing once the result is truncated again |
| Session.ReduceExecute | src/components/terminal/useTerminal.ts:20-35 | one EXECUTE is exactly the two slices the reducer takes, with the mode kept |
| Session.ReplayExecutions | src/components/terminal/useTerminal.ts:20-35 | after any run of EXECUTEs the history is the 50 newest executions, newest first, and the results are the 20 newest results, oldest first, and the mode is kept |
| Session.ReplayHistory | src/components/terminal/useTerminal.ts:21-25 | the history part of the above, by induction over the run |
| Session.ReplayResults | src/components/terminal/useTerminal.ts:26-28 | the results part of the above, by induction over the run |
| Session.ReplayHistoryStep | src/components/terminal/useTerminal.ts:25 | one more execution on a replayed history is the replay with one more execution |
| Session.GetCommandDefinition | src/components/terminal/useTerminal.ts:56-59 | a definition is found exactly when the trimmed, lower-cased input is a name or alias, and it is the registered record that owns that key |
| Session.LookupIsDictionaryLookup | src/components/terminal/useTerminal.ts:56-59 | the lookup is `commandDictionary[normalized]` over the dictionary's own keys |
| Session.OwnerIndex | src/data/commands.ts:20-92 | every key belongs to a record at some index of the registry |
| Session.LookupIgnoresCaseAndPadding | src/components/terminal/useTerminal.ts:56-58 | inputs differing only in case or surrounding whitespace find the same definition |
| Session.LookupFindsRegistered | src/components/terminal/useTerminal.ts:56-59 | every name and alias of a registered command finds that command |
| Session.ResolveAsWritten | src/components/terminal/useTerminal.ts:56-59 | the plain-object lookup finds the same records for own keys, and an inherited member exactly for `constructor` and `__proto__` |
| Session.UnlistedKeyMissing | src/components/terminal/useTerminal.ts:56-59 | a key in normal form that is no name or alias finds nothing through own keys, and the inherited member of that name as written |
| Session.ConstructorResolvesAsWritten | src/components/terminal/useTerminal.ts:58 | `constructor` is no command, yet the plain-object lookup finds the inherited `Object` function |
| Session.ProtoResolvesAsWritten | src/components/terminal/useTerminal.ts:58 | `__proto__` finds the prototype object as written and nothing through own keys |
| Session.ExecuteCommandSpec | src/components/terminal/useTerminal.ts:61-76 | text trimming to `clear` only empties the results; text trimming to `toggle` flips the mode and then executes; anything else executes |
| Session.ToggleTwiceRestoresMode | src/components/terminal/useTerminal.ts:68-73 | two toggles restore the mode |
| Session.Store.constructor | src/components/terminal/useTerminal.ts:12-16 | the store starts empty, in hybrid mode |
| Session.Store.Dispatch | src/components/terminal/useTerminal.ts:54 | `dispatch` applies the reducer to the state |
| Session.Store.ExecuteCommand | src/components/terminal/useTerminal.ts:61-76 | the dispatches of `executeCommand` reach exactly `ExecuteCommandSpec` |
| Session.Store.ClearResults | src/components/terminal/useTerminal.ts:84 | `clearResults` empties only the results |
| Session.Store.SetModeTo | src/components/terminal/useTerminal.ts:83 | `setMode` changes only the mode |
| Terminal.EventsAssoc | src/components/terminal/Terminal.tsx:19-97 | appending calls to the log in two steps or in one gives the same log |
| Terminal.KeyLookup | src/components/terminal/Terminal.tsx:20-23 | looking up the already-normalised key finds the same definition as the raw input |
| Terminal.HandleCases | src/components/terminal/Terminal.tsx:19-39 | blank input changes and calls nothing; unknown input reports itself unresolved and logs "not found" with the normalised token; known input takes the definition's path |
| Terminal.DefinedBounded | src/components/terminal/Terminal.tsx:46-96 | each command path keeps the 50/20 bounds and at most flips the mode |
| Terminal.HandleBounded | src/components/terminal/Terminal.tsx:19-97 | the handler keeps the bounds and at most flips the mode |
| Terminal.Submit | src/components/terminal/Terminal.tsx:15-97 | a submission followed by the mode-sync effect keeps the bounds and at most flips the mode |
| Terminal.TrimmedIsKey | src/components/terminal/useTerminal.ts:63-68 | when the trimmed text is a key in normal form, the lookup key is that text |
| Terminal.NotKeyText | src/components/terminal/useTerminal.ts:63-68 | text whose normalised key is not `clear` (or not `toggle`) never passes `executeCommand`'s own trimmed-text test for that word, so it neither clears nor flips the mode there |
| Terminal.PlainText | src/components/terminal/useTerminal.ts:63-68 | text whose key is neither `clear` nor `toggle` takes neither special path |
| Terminal.SubmitBlank | src/components/terminal/Terminal.tsx:20-21 | blank input changes nothing and calls nothing |
| Terminal.SubmitUnknown | src/components/terminal/Terminal.tsx:25-38 | unknown input reports itself unresolved, then logs one execution and one "not found" card naming the normalised token |
| Terminal.Found | src/components/terminal/Terminal.tsx:23-25 | input whose key belongs to a registered record is not blank and is handled as that record |
| Terminal.SubmitAfter | src/components/terminal/Terminal.tsx:15-17 | a submission is the handler followed by the effect's report of a changed mode |
| Terminal.SubmitKeepingMode | src/components/terminal/Terminal.tsx:15-17 | when the mode did not change, the effect reports nothing |
| Terminal.ExecutePlain | src/components/terminal/useTerminal.ts:61-76 | `executeCommand` on any other text is one EXECUTE |
| Terminal.GenericState | src/components/terminal/Terminal.tsx:88-96 | every name but clear/toggle/download executes with the card `buildCommandResult` renders |
| Terminal.GenericEvents | src/components/terminal/Terminal.tsx:41-44 | on the generic path the calls are the early scroll branch, the section scroll, and `onCommandResolved` unless the name is `scroll` |
| Terminal.HandleGeneric | src/components/terminal/Terminal.tsx:88-96 | the generic path's state and calls together |
| Terminal.HandleDefinedPlain | src/components/terminal/Terminal.tsx:88-96 | a command without its own branch logs one execution with its card, scrolls to its section if any, then reports itself resolved |
| Terminal.HandleClear | src/components/terminal/Terminal.tsx:46-50 | `clear` empties the results, records nothing, then reports itself resolved |
| Terminal.HandleToggle | src/components/terminal/Terminal.tsx:52-66 | `toggle` logs one confirmation naming the flipped mode, calls `onModeChange` with it, then `onCommandResolved`; the session's mode flips only for text trimming to exactly `toggle` |
| Terminal.ToggleState | src/components/terminal/Terminal.tsx:52-63 | the toggle path executes the confirmation naming the flipped mode |
| Terminal.ToggleEvents | src/components/terminal/Terminal.tsx:64-65 | the toggle path calls `onModeChange` with the flipped mode, then `onCommandResolved` |
| Terminal.HandleDownload | src/components/terminal/Terminal.tsx:69-86 | `download` logs the download notice, then reports itself resolved |
| Terminal.HandleScroll | src/components/terminal/Terminal.tsx:41-44 | `scroll` logs an execution without a card and, with a scroll callback, scrolls to `scroll-start`, reports itself resolved, and scrolls there again |
| Terminal.HandleSection | src/components/terminal/Terminal.tsx:88-96 | a section command logs its section's card, scrolls to that section, then reports itself resolved |
| Terminal.SectionCard | src/components/terminal/Terminal.tsx:92 | a section name takes none of the special branches and renders its own section |
| Terminal.HandleHelp | src/components/terminal/Terminal.tsx:88-96 | `help` logs the command list, then reports itself resolved |
| Terminal.ResolvedCountConcat | src/components/terminal/Terminal.tsx:19-97 | the count of `onCommandResolved` calls adds up over concatenated logs |
| Terminal.NoneResolved | src/components/terminal/Terminal.tsx:19-97 | a log without `onCommandResolved` calls counts zero |
| Terminal.DefinedResolvesOnce | src/components/terminal/Terminal.tsx:41-96 | with both callbacks supplied, every definition's path calls `onCommandResolved` exactly once |
| Terminal.DefinedHistory | src/components/terminal/Terminal.tsx:46-96 | every path records one execution at the front of the history, except `clear`, which records none |
| Terminal.ScrollHasSection | src/data/commands.ts:69-75 | the registered `scroll` record carries the section it scrolls to |
| Terminal.RegistrySectionsNonEmpty | src/data/commands.ts:20-92 | every registered section id is a non-empty string, so the component's truthiness test on it is the same as testing that it is present |
| Terminal.ClearOnlyByName | src/data/commands.ts:76-80 | the only record named `clear` is the `clear` command |
| Terminal.SubmitAsWritten | src/components/terminal/Terminal.tsx:23-96 | with the plain-object lookup, any key but `constructor` and `__proto__` behaves exactly as the corrected submission |
| Submissions.FoundClear | src/components/terminal/Terminal.tsx:23 | text whose key is `clear` is handled as the clear command |
| Submissions.FoundToggle | src/components/terminal/Terminal.tsx:23 | text whose key is `toggle` is handled as the toggle command |
| Submissions.FoundDownload | src/components/terminal/Terminal.tsx:23 | `download`, `download resume` and `resume` are handled as the download command |
| Submissions.FoundScroll | src/components/terminal/Terminal.tsx:23 | `scroll` and `view` are handled as the scroll command |
| Submissions.FoundHelp | src/components/terminal/Terminal.tsx:23 | `help` and `?` are handled as the help command |
| Submissions.FoundSection | src/components/terminal/Terminal.tsx:23 | each section name is handled as its own record |
| Submissions.ToggleText | src/components/terminal/useTerminal.ts:63 | text whose key is `toggle` never takes the clearing path |
| Submissions.DownloadText | src/components/terminal/useTerminal.ts:63-68 | the download keys take neither special path of `executeCommand` |
| Submissions.ScrollText | src/components/terminal/useTerminal.ts:63-68 | the scroll keys take neither special path |
| Submissions.HelpText | src/components/terminal/useTerminal.ts:63-68 | the help keys take neither special path |
| Submissions.SectionText | src/components/terminal/useTerminal.ts:63-68 | section names take neither special path, and each is a section that focuses itself |
| Submissions.SubmitClear | src/components/terminal/Terminal.tsx:46-50 | `clear` in any case and padding empties the results, records no execution and reports itself resolved once |
| Submissions.SubmitToggle | src/components/terminal/Terminal.tsx:52-66 | `toggle` logs the confirmation naming the flipped mode and calls `onModeChange`, then `onCommandResolved`; the mode flips, and the mode-sync effect reports it again, only for text trimming to exactly `toggle` |
| Submissions.MistypedToggleKeepsMode | src/components/terminal/useTerminal.ts:68 | text naming `toggle` in another case announces the flip to the parent but leaves the session's mode unchanged |
| Submissions.CapitalizedToggle | src/components/terminal/useTerminal.ts:68 | `Toggle` is such a text |
| Submissions.CapitalToggleTrim | src/components/terminal/useTerminal.ts:57 | `Toggle` is already trimmed |
| Submissions.CapitalToggleLower | src/components/terminal/useTerminal.ts:57 | `Toggle` lower-cases to `toggle` |
| Submissions.SubmitDownload | src/components/terminal/Terminal.tsx:69-86 | the download command and both aliases log the notice and report resolved once, without scrolling |
| Submissions.SubmitScroll | src/components/terminal/Terminal.tsx:41-44 | `scroll` and `view` log no card, scroll to `scroll-start` twice and report resolved once in between |
| Submissions.SubmitSection | src/components/terminal/Terminal.tsx:88-96 | each section command logs its card, scrolls to its section, then reports itself resolved |
| Submissions.SubmitHelp | src/components/terminal/Terminal.tsx:88-96 | `help` and `?` log the command list and report resolved, without scrolling |
| Submissions.HandleResolvesOnce | src/components/terminal/Terminal.tsx:19-97 | the handler reports non-blank input resolved exactly once and blank input never |
| Submissions.ResolvedExactlyOnce | src/components/terminal/Terminal.tsx:15-97 | with both callbacks supplied, every non-blank submission calls `onCommandResolved` exactly once |
| Submissions.HistoryGrowsByOne | src/components/terminal/Terminal.tsx:19-97 | every non-blank submission records exactly one execution at the front of the history, except `clear` |
| Submissions.ConstructorText | src/components/terminal/useTerminal.ts:56-68 | `constructor` is not blank, no command key, takes neither special path, and finds `Object` as written |
| Submissions.ConstructorAcknowledgedAsWritten | src/components/terminal/Terminal.tsx:23-96 | as written, `constructor` logs the generic acknowledgement and reports the inherited value resolved |
| Submissions.ConstructorNotFound | src/components/terminal/Terminal.tsx:25-38 | with the own-key lookup, `constructor` logs "Command not found" and reports itself unresolved |
| Component.TerminalComponent.constructor | src/components/terminal/Terminal.tsx:12-17 | mounting starts a fresh session and reports the initial mode |
| Component.TerminalComponent.Resolve | src/components/terminal/Terminal.tsx:43 | `onCommandResolved?.(...)` logs the call when the callback exists |
| Component.TerminalComponent.ScrollTo | src/components/terminal/Terminal.tsx:88-90 | the scroll call is logged when there is a section and a callback |
| Component.TerminalComponent.Handler | src/components/terminal/Terminal.tsx:19-39 | the handler's state and calls are exactly `Handle`'s |
| Component.TerminalComponent.HandleFound | src/components/terminal/Terminal.tsx:41-96 | for a found definition, the state and calls are exactly `HandleDefined`'s |
| Component.TerminalComponent.ClearBranch | src/components/terminal/Terminal.tsx:46-50 | the clear branch's state and calls |
| Component.TerminalComponent.ToggleBranch | src/components/terminal/Terminal.tsx:52-66 | the toggle branch's state and calls |
| Component.TerminalComponent.DownloadBranch | src/components/terminal/Terminal.tsx:69-86 | the download branch's state and calls |
| Component.TerminalComponent.EarlyExit | src/components/terminal/Terminal.tsx:41-44 | the scroll command's early calls |
| Component.TerminalComponent.GenericBranch | src/components/terminal/Terminal.tsx:88-96 | the generic branch's state and calls |
| Component.TerminalComponent.HandleSubmit | src/components/terminal/Terminal.tsx:15-97 | a submission and the mode-sync effect leave exactly `Submit`'s state and calls |
| Input.Suggestions | src/components/terminal/CommandInput.tsx:24-26 | at most five records, all registered, each extending the lower-cased text and not equal to it, in registry order; when fewer than five, every such record |
| Input.SuggestionsForEmpty | src/components/terminal/CommandInput.tsx:24-26 | an empty field is offered the first five commands |
| Input.SuggestionsForHelp | src/components/terminal/CommandInput.tsx:24-26 | the complete name `help` is offered nothing |
| Input.NoNameExtends | src/data/commands.ts:20-92 | no registered command name starts with another one |
| Input.NameOfferedNothing | src/components/terminal/CommandInput.tsx:24-26 | a field holding any registered command name is offered no suggestions |
| Input.SubmitLine | src/components/terminal/CommandInput.tsx:30-45 | blank text changes nothing; otherwise the trimmed text is submitted and put first in the history (50 kept) and the field, highlight and recall position are reset |
| Input.NextSuggestion | src/components/terminal/CommandInput.tsx:57-63 | Tab moves to the first suggestion when none is highlighted, otherwise to the highlighted index plus one modulo the number of suggestions, which also covers a highlight left beyond the end of a shorter list |
| Input.Complete | src/components/terminal/CommandInput.tsx:24-66 | Tab fills in and highlights the next suggestion for the field's current text, changing nothing else, or does nothing when that text has no suggestions |
| Input.CompleteFor | src/components/terminal/CommandInput.tsx:54-66 | the intended Tab: the next suggestion for the text the user typed, which Tab does not replace, or nothing when that text has none |
| Input.RecallOlder | src/components/terminal/CommandInput.tsx:68-74 | ArrowUp shows the newest entry, or the next older one, stopping at the oldest; no history, no change |
| Input.RecallNewer | src/components/terminal/CommandInput.tsx:76-87 | ArrowDown shows the next newer entry, or empties the field from the newest one or with nothing recalled |
| Input.ClearLine | src/components/terminal/CommandInput.tsx:89-93 | Ctrl+L empties the history and the field, and keeps the highlight and recall position |
| Input.KeyPress | src/components/terminal/CommandInput.tsx:47-94 | only Enter calls the parent; a key other than the four handled ones, without Ctrl+L, changes nothing; Tab is `Complete` over the field's text (`Input.TabStallsAsWritten`) |
| Input.ChipCalls | src/components/terminal/CommandInput.tsx:148-153 | a chip submits its name first, and asks for its section exactly when it has one |
| Input.Choose | src/components/terminal/CommandInput.tsx:118-133 | a click on one of the suggestions rendered from the field's text fills in and highlights it; an index with no button changes nothing |
| Input.React | src/components/terminal/CommandInput.tsx:47-153 | typing replaces the text and drops the highlight; a suggestion click fills in the suggestion on show and calls nothing; a chip click changes no state; only Enter and chips call the parent |
| Input.InitialValid | src/components/terminal/CommandInput.tsx:13-16 | the initial state is reachable |
| Input.ReactPreservesValid | src/components/terminal/CommandInput.tsx:30-94 | every event keeps the history at most 50 trimmed non-blank lines and the recall position inside it |
| Input.Run | src/components/terminal/CommandInput.tsx:30-153 | any run of events from a reachable state ends in a reachable state |
| Input.RunFromInitial | src/components/terminal/CommandInput.tsx:34 | whatever happens, the history holds at most 50 lines, each trimmed and not blank |
| Input.EnterSubmitsTrimmed | src/components/terminal/CommandInput.tsx:31-35 | Enter only ever submits trimmed, non-blank text |
| Input.RecallAfterSubmit | src/components/terminal/CommandInput.tsx:68-74 | ArrowUp straight after a submission shows the trimmed text just submitted |
| Input.RecallWalk | src/components/terminal/CommandInput.tsx:68-74 | `k` ArrowUps from nothing recalled show the `k`-th newest line, or the oldest once exhausted |
| Input.NewerUndoesOlder | src/components/terminal/CommandInput.tsx:68-87 | below the oldest entry, ArrowUp then ArrowDown returns to the same recall position and text |
| Input.RecallTwoLines | src/components/terminal/CommandInput.tsx:68-87 | with history `about, help`: up shows about, help, help; down then shows about; a second down empties the field |
| Input.MatchingAll | src/data/commands.ts:151-153 | a filter that keeps every record returns them all |
| Input.MatchingNone | src/data/commands.ts:151-153 | a filter that keeps no record returns none |
| Input.ModUnique | src/components/terminal/CommandInput.tsx:61 | the remainder is the unique `r < n` with `x = q*n + r` |
| Input.ModStep | src/components/terminal/CommandInput.tsx:61 | counting on by one modulo `n` wraps from `n - 1` to `0` |
| Input.CompleteCycles | src/components/terminal/CommandInput.tsx:54-66 | with the intended Tab, the `k`-th Tab shows suggestion `(k - 1) mod n` of the typed text, so Tab goes round all of them, leaving the recall state alone |
| Input.TabStallsAsWritten | src/components/terminal/CommandInput.tsx:24-66 | from an empty field, the component's Tab fills in `help` and a second Tab changes nothing, although `about` is the second of five suggestions; the intended Tab moves on to `about` |
| Input.TabStallsAfterComplete | src/components/terminal/CommandInput.tsx:24-66 | for every state, a second Tab of the component changes nothing |
| Input.ChosenIsComplete | src/components/terminal/CommandInput.tsx:24-133 | after a suggestion click no suggestion is on show, so Tab changes nothing |
| Input.ChipSubmitsRegistered | src/components/terminal/CommandInput.tsx:148-153 | a chip submits a name that the terminal's lookup resolves to the chip's own command, and asks for a section exactly when the command has one |
| Input.CommandInput.constructor | src/components/terminal/CommandInput.tsx:13-16 | the component starts empty, in a reachable state, with no calls made |
| Input.CommandInput.HandleSubmit | src/components/terminal/CommandInput.tsx:30-45 | `handleSubmit` has exactly `SubmitLine`'s effect and calls, and keeps the state reachable |
| Input.CommandInput.HandleKeyDown | src/components/terminal/CommandInput.tsx:24-94 | `handleKeyDown`, with the suggestions of the render it runs in, has exactly `KeyPress`'s effect and calls, and keeps the state reachable |
| Input.CommandInput.HandleChange | src/components/terminal/CommandInput.tsx:107-110 | typing replaces the text and drops the highlight, changes nothing else, and keeps the state reachable |
| Input.CommandInput.ClickSuggestion | src/components/terminal/CommandInput.tsx:118-133 | a click on a suggestion button rendered from the field's text has exactly `Choose`'s effect and keeps the state reachable |
| Input.CommandInput.ClickChip | src/components/terminal/CommandInput.tsx:148-153 | a chip click leaves the state alone (so reachable) and makes exactly `ChipCalls`' calls |

## Left out

- Markup, styling, and the DOM effects are not modelled. These are input focus,
  `scrollIntoView` and `requestAnimationFrame` (`CommandInput.tsx`), and the
  result log's scroll-to-bottom effect (`CommandOutput.tsx`). None of them
  changes the state.
- The `CommandOutput` component renders the card `renderOutputNode` returns, or
  nothing, so it adds nothing to `RenderOutputNode`.
- The résumé content inside the cards is not modelled. A card is an abstract
  `Payload`.
- The page (`src/app/page.tsx`), `resume.ts`, the content validation script and
  the layout are not part of this model.
- A result's `id` (`result-` plus the clock) and its `renderedAt` are one
  `stamp`. Every clock reading during one submission is the same `now`, because
  the clock is a parameter.
- `Text.LowerChar`: lower-cases only A–Z, not the full Unicode case mapping.
- `Text.IsWhitespace`: knows the ASCII blanks, the no-break space, the line and
  paragraph separators and the byte-order mark, not the other Unicode space
  separators that `trim` also removes.
- React's scheduling is not modelled. State updates inside a handler are applied
  at once, and the handler reads the mode of the render it runs in, as the
  source does.
  - The terminal's state change and its callback log are computed separately.
    The order of the callbacks among themselves is kept; their interleaving with
    the reducer dispatches of the same submission is not.
- `Session.GetCommandDefinition` is written as a scan of the registry's keys.
  `Session.LookupIsDictionaryLookup` proves it equal to indexing
  `commandDictionary`.
- `Terminal.DefinedResolvesOnce` is stated only when both `onScrollToSection`
  and `onCommandResolved` are supplied. Without a scroll callback, `scroll`
  reports itself resolved zero times.
  - It also needs a definition named `scroll` to carry a section, which the
    registered one does.
- `Input.KeyPress`, `Input.RecallNewer`, `Input.React` and `Input.Run` require
  the reachable-state invariant `Valid`. The initial state satisfies it and
  every event preserves it (`Input.ReactPreservesValid`). Without it, ArrowDown
  could read past the history.
- `Input.Choose`: a click on a suggestion that is not on show cannot happen, and
  is modelled as changing nothing.
- `onFocusSection` is optional in the component. `src/app/page.tsx:356-360`
  always supplies `onScrollToSection`, which the terminal forwards as
  `onFocusSection` (`src/components/terminal/Terminal.tsx:106`); the model
  treats it as present.
- Of the keyboard modifiers, only Ctrl together with `l` is modelled; all the
  handlers call `preventDefault`, which is not modelled.
- `Input.CompleteFor` takes the text the user typed as a parameter. The
  component keeps no such text, so the intended Tab is stated apart from the
  component's state and is not used by `Input.KeyPress`.
- A section id is tested as present (`Some`), where the components test it for
  truthiness (`Terminal.tsx` and `CommandInput.tsx`). These differ only for an
  empty id, and no registered id is empty (`Terminal.RegistrySectionsNonEmpty`).

## Findings

| source | as written | input that shows it | evidently intended | confidence | as-written member | corrected member |
|---|---|---|---|---|---|---|
| src/components/terminal/useTerminal.ts:56-59 | `commandDictionary` is a plain object literal, so indexing it with a key it does not own returns an inherited `Object.prototype` member; `constructor` finds the `Object` function, which the terminal then treats as a command definition | submit `constructor` (or `__proto__`): the terminal logs the generic "Command acknowledged" card and reports the function as the resolved definition | only the dictionary's own names and aliases resolve; `constructor` is an unknown command and logs "Command not found: constructor" | high; not executed | Session.ResolveAsWritten, Submissions.ConstructorAcknowledgedAsWritten | Session.GetCommandDefinition, Submissions.ConstructorNotFound |
| src/components/terminal/CommandInput.tsx:24-26, 54-66 | the suggestion list is recomputed from the field on every render; after Tab fills in a full command name that list is empty (no command name extends another), so the next Tab returns at once | empty field, Tab, Tab: the field shows `help` both times, and `about`, the second of the five suggestions on show, is never reached | repeated Tab goes round the suggestions for the text the user typed, `(index + 1) % length`, as the code's own index arithmetic and the highlighted chip indicate | high; not executed | Input.TabStallsAsWritten (over Input.Complete, as used by Input.KeyPress and Input.CommandInput.HandleKeyDown) | Input.CompleteCycles (over Input.CompleteFor) |
