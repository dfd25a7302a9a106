/** The terminal's session state machine (src/components/terminal/useTerminal.ts):
    the reducer over history, results and mode, the normalised command lookup, and
    `executeCommand`, which issues reducer actions one after another. */
module Session {
  import opened Types
  import opened Text
  import opened Commands

  const HistoryLimit: nat := 50
  const ResultLimit: nat := 20

  /** `Array.prototype.slice(0, n)`. */
  function Take<T>(s: seq<T>, n: nat): (r: seq<T>)
    ensures |r| == if |s| <= n then |s| else n
    ensures r == s[..|r|]
  {
    if |s| <= n then s else s[..n]
  }

  /** `Array.prototype.slice(-n)` for `n > 0`. */
  function KeepLast<T>(s: seq<T>, n: nat): (r: seq<T>)
    ensures |r| == if |s| <= n then |s| else n
    ensures r == s[|s| - |r|..]
  {
    if |s| <= n then s else s[|s| - n..]
  }

  datatype Action =
    | Execute(command: string, result: Option<TerminalResult>)
    | Clear
    | SetMode(mode: Mode)

  const InitialState: State := State([], [], Hybrid)

  /** The reachable shapes: at most 50 executions and at most 20 results. */
  predicate Bounded(s: State) {
    |s.history| <= HistoryLimit && |s.results| <= ResultLimit
  }

  function Min(a: int, b: int): int {
    if a <= b then a else b
  }

  /** The EXECUTE update of the history: the new execution in front, the 50
      newest kept. */
  function PushExecution(history: seq<Execution>, e: Execution): (r: seq<Execution>)
    ensures |r| == Min(|history| + 1, HistoryLimit)
    ensures r[0] == e
    ensures r[1..] == history[..|r| - 1]
  {
    var h := [e] + history;
    assert h[1..] == history;
    Take(h, HistoryLimit)
  }

  /** The EXECUTE update of the results: the new result at the end, the 20
      newest kept. */
  function PushResult(results: seq<TerminalResult>, x: TerminalResult): (r: seq<TerminalResult>)
    ensures |r| == Min(|results| + 1, ResultLimit)
    ensures r[|r| - 1] == x
    ensures r[..|r| - 1] == results[|results| - (|r| - 1)..]
  {
    var a := results + [x];
    var r := KeepLast(a, ResultLimit);
    assert r[..|r| - 1] == a[|a| - |r|..|a| - 1];
    assert a[..|results|] == results;
    r
  }

  /** `terminalReducer`. EXECUTE puts the new execution first and keeps the 50
      newest; a result, when there is one, goes last and only the 20 newest stay;
      the mode never changes. CLEAR empties the results only. SET_MODE replaces the
      mode only. `now` is the clock reading `Date.now()` takes. */
  function Reduce(s: State, action: Action, now: int): (r: State)
    ensures Bounded(s) ==> Bounded(r)
    ensures action.Execute? ==>
      && |r.history| == Min(|s.history| + 1, HistoryLimit)
      && r.history[0] == Execution(action.command, now)
      && r.history[1..] == s.history[..|r.history| - 1]
      && r.mode == s.mode
    ensures action.Execute? && action.result.None? ==> r.results == s.results
    ensures action.Execute? && action.result.Some? ==>
      && |r.results| == Min(|s.results| + 1, ResultLimit)
      && r.results[|r.results| - 1] == action.result.value
      && r.results[..|r.results| - 1] == s.results[|s.results| - (|r.results| - 1)..]
    ensures action.Clear? ==> r.results == [] && r.history == s.history && r.mode == s.mode
    ensures action.SetMode? ==> r.mode == action.mode && r.history == s.history && r.results == s.results
  {
    if action.Execute? then
      var history := PushExecution(s.history, Execution(action.command, now));
      var results := if action.result.Some? then PushResult(s.results, action.result.value) else s.results;
      State(history, results, s.mode)
    else if action.Clear? then State(s.history, [], s.mode)
    else State(s.history, s.results, action.mode)
  }

  /** A reducer action with the clock reading it was dispatched at. */
  datatype Timed = Timed(action: Action, now: int)

  /** The state after dispatching `actions` in order. */
  function Replay(s: State, actions: seq<Timed>): State {
    if actions == [] then s
    else
      var last := actions[|actions| - 1];
      Reduce(Replay(s, actions[..|actions| - 1]), last.action, last.now)
  }

  /** No sequence of actions leaves the 50/20 bounds. */
  lemma {:induction false} ReplayStaysBounded(s: State, actions: seq<Timed>)
    requires Bounded(s)
    ensures Bounded(Replay(s, actions))
  {
    if actions != [] {
      ReplayStaysBounded(s, actions[..|actions| - 1]);
    }
  }

  predicate AllExecute(actions: seq<Timed>) {
    forall i :: 0 <= i < |actions| ==> actions[i].action.Execute?
  }

  /** The executions that `actions` record, oldest first. */
  function Executions(actions: seq<Timed>): (r: seq<Execution>)
    requires AllExecute(actions)
    ensures |r| == |actions|
  {
    if actions == [] then []
    else
      var last := actions[|actions| - 1];
      Executions(actions[..|actions| - 1]) + [Execution(last.action.command, last.now)]
  }

  /** The results that `actions` carry, oldest first. */
  function Produced(actions: seq<Timed>): seq<TerminalResult>
    requires AllExecute(actions)
  {
    if actions == [] then []
    else
      var last := actions[|actions| - 1];
      Produced(actions[..|actions| - 1]) + if last.action.result.Some? then [last.action.result.value] else []
  }

  function Reversed<T>(s: seq<T>): (r: seq<T>)
    ensures |r| == |s|
  {
    if s == [] then [] else [s[|s| - 1]] + Reversed(s[..|s| - 1])
  }

  lemma TakeOfTake<T>(x: T, s: seq<T>, n: nat)
    requires n > 0
    ensures Take([x] + Take(s, n), n) == Take([x] + s, n)
  {
  }

  lemma KeepLastOfKeepLast<T>(s: seq<T>, x: T, n: nat)
    requires n > 0
    ensures KeepLast(KeepLast(s, n) + [x], n) == KeepLast(s + [x], n)
  {
    var k := KeepLast(s, n);
    var a, b := KeepLast(k + [x], n), KeepLast(s + [x], n);
    assert |a| == |b|;
    forall i | 0 <= i < |a| ensures a[i] == b[i] {
      if i == |a| - 1 {
      } else {
        assert a[i] == k[|k| + 1 - |a| + i];
      }
    }
  }

  /** One EXECUTE in terms of the two slices it takes. */
  lemma ReduceExecute(s: State, action: Action, now: int)
    requires action.Execute?
    ensures Reduce(s, action, now).history == Take([Execution(action.command, now)] + s.history, HistoryLimit)
    ensures Reduce(s, action, now).results ==
      if action.result.Some? then KeepLast(s.results + [action.result.value], ResultLimit) else s.results
    ensures Reduce(s, action, now).mode == s.mode
  {
  }

  /** After a run of executions the history is the 50 newest, newest first, ahead
      of whatever came before; the results are the 20 newest, oldest first; the
      mode is untouched. After 51 executions from the initial state the first one
      has been dropped and the last one is at index 0. */
  lemma ReplayExecutions(s: State, actions: seq<Timed>)
    requires Bounded(s) && AllExecute(actions)
    ensures Replay(s, actions).history == Take(Reversed(Executions(actions)) + s.history, HistoryLimit)
    ensures Replay(s, actions).results == KeepLast(s.results + Produced(actions), ResultLimit)
    ensures Replay(s, actions).mode == s.mode
  {
    ReplayHistory(s, actions);
    ReplayResults(s, actions);
  }

  lemma {:induction false} ReplayHistory(s: State, actions: seq<Timed>)
    requires |s.history| <= HistoryLimit && AllExecute(actions)
    ensures Replay(s, actions).history == Take(Reversed(Executions(actions)) + s.history, HistoryLimit)
    ensures Replay(s, actions).mode == s.mode
  {
    if actions == [] {
      assert Reversed(Executions(actions)) + s.history == s.history;
    } else {
      var init, last := actions[..|actions| - 1], actions[|actions| - 1];
      assert AllExecute(init);
      ReplayHistory(s, init);
      var prev := Replay(s, init);
      assert Replay(s, actions) == Reduce(prev, last.action, last.now);
      ReduceExecute(prev, last.action, last.now);
      ReplayHistoryStep(s.history, Executions(init), Execution(last.action.command, last.now));
      assert Executions(actions) == Executions(init) + [Execution(last.action.command, last.now)];
    }
  }

  lemma {:induction false} ReplayResults(s: State, actions: seq<Timed>)
    requires |s.results| <= ResultLimit && AllExecute(actions)
    ensures Replay(s, actions).results == KeepLast(s.results + Produced(actions), ResultLimit)
  {
    if actions == [] {
      assert s.results + Produced(actions) == s.results;
    } else {
      var init, last := actions[..|actions| - 1], actions[|actions| - 1];
      assert AllExecute(init);
      ReplayResults(s, init);
      var prev := Replay(s, init);
      assert Replay(s, actions) == Reduce(prev, last.action, last.now);
      ReduceExecute(prev, last.action, last.now);
      if last.action.result.Some? {
        var x := last.action.result.value;
        KeepLastOfKeepLast(s.results + Produced(init), x, ResultLimit);
        assert s.results + Produced(actions) == (s.results + Produced(init)) + [x];
      } else {
        assert Produced(actions) == Produced(init) + [];
      }
    }
  }

  /** One more execution on top of a replayed history. */
  lemma ReplayHistoryStep(history: seq<Execution>, done: seq<Execution>, e: Execution)
    ensures Take([e] + Take(Reversed(done) + history, HistoryLimit), HistoryLimit)
      == Take(Reversed(done + [e]) + history, HistoryLimit)
  {
    assert (done + [e])[..|done|] == done;
    assert Reversed(done + [e]) == [e] + Reversed(done);
    TakeOfTake(e, Reversed(done) + history, HistoryLimit);
    assert [e] + (Reversed(done) + history) == [e] + Reversed(done) + history;
  }

  /** `getCommandDefinition`: the record whose name or alias equals the trimmed,
      lower-cased input, if any. The record is found by its place in the
      registry; `LookupIsDictionaryLookup` shows this is the same as indexing
      `commandDictionary`. Only the dictionary's own keys are consulted (see
      `ResolveAsWritten` for the inherited members a plain object also has). */
  function GetCommandDefinition(command: string): (r: Option<CommandDefinition>)
    ensures r.Some? <==> Normalize(command) in RegistryKeys
    ensures r.Some? ==> Normalize(command) in OwnKeys(r.value) && r.value in Registry
  {
    var key := Normalize(command);
    if key in RegistryKeys then Some(Registry[OwnerIndex(key)]) else None
  }

  /** The lookup is `commandDictionary[normalised]`: present exactly for the
      dictionary's keys, and then the entry the dictionary holds. */
  lemma LookupIsDictionaryLookup(command: string)
    ensures GetCommandDefinition(command) ==
      if Normalize(command) in Dictionary then Some(Dictionary[Normalize(command)]) else None
  {
    DictionaryKeys();
    var key := Normalize(command);
    if key in RegistryKeys {
      RegistryResolves(OwnerIndex(key), key);
    }
  }

  /** The registry index whose record contributes `key`. */
  function OwnerIndex(key: string): (i: nat)
    requires key in RegistryKeys
    ensures i < |Registry| && key in OwnKeys(Registry[i])
  {
    RegistryKeysListed();
    if key in OwnKeys(Registry[0]) then 0
    else if key in OwnKeys(Registry[1]) then 1
    else if key in OwnKeys(Registry[2]) then 2
    else if key in OwnKeys(Registry[3]) then 3
    else if key in OwnKeys(Registry[4]) then 4
    else if key in OwnKeys(Registry[5]) then 5
    else if key in OwnKeys(Registry[6]) then 6
    else if key in OwnKeys(Registry[7]) then 7
    else if key in OwnKeys(Registry[8]) then 8
    else if key in OwnKeys(Registry[9]) then 9
    else if key in OwnKeys(Registry[10]) then 10
    else 11
  }

  /** Inputs that differ only in letter case or in surrounding whitespace resolve
      to the same definition. */
  lemma LookupIgnoresCaseAndPadding(a: string, b: string, pre: string, post: string)
    requires ToLower(a) == ToLower(b)
    requires AllWhitespace(pre) && AllWhitespace(post)
    ensures GetCommandDefinition(a) == GetCommandDefinition(b)
    ensures GetCommandDefinition(pre + a + post) == GetCommandDefinition(a)
  {
    NormalizeIgnoresCase(a, b);
    NormalizeIgnoresPadding(pre, a, post);
  }

  /** Every name and alias of a registered command resolves to that command. */
  lemma LookupFindsRegistered(i: nat, k: string)
    requires i < |Registry| && k in OwnKeys(Registry[i])
    ensures GetCommandDefinition(k) == Some(Registry[i])
  {
    RegistryResolves(i, k);
    DictionaryKeysNormalized();
    LookupIsDictionaryLookup(k);
  }

  /** What indexing the plain object `commandDictionary` yields: one of its own
      entries, a member every object inherits from `Object.prototype`, or
      `undefined`. An inherited member is not a command record; `name` is the
      value of its `name` property, if it has one. */
  datatype Lookup = Own(definition: CommandDefinition) | Inherited(name: Option<string>) | Absent

  /** `getCommandDefinition` as written: a lookup on a plain object. Of the
      members inherited from `Object.prototype`, only `constructor` (the function
      `Object`, named "Object") and `__proto__` (the prototype object itself, with
      no `name`) have all-lower-case keys, so only they survive the lower-casing. */
  function ResolveAsWritten(command: string): (r: Lookup)
    ensures r.Own? <==> GetCommandDefinition(command).Some?
    ensures r.Own? ==> r.definition == GetCommandDefinition(command).value
    ensures r.Inherited? <==> Normalize(command) == "constructor" || Normalize(command) == "__proto__"
  {
    var key := Normalize(command);
    match GetCommandDefinition(command)
    case Some(d) => Own(d)
    case None =>
      if key == "constructor" then Inherited(Some("Object"))
      else if key == "__proto__" then Inherited(None)
      else Absent
  }

  /** A key that is no name or alias, already in normal form, resolves to nothing
      through the own-key lookup, and through the lookup as written to the
      inherited member of that name, if there is one. */
  lemma UnlistedKeyMissing(k: string)
    requires IsNormalKey(k) && k !in RegistryKeys
    ensures Normalize(k) == k
    ensures GetCommandDefinition(k) == None
    ensures ResolveAsWritten(k) ==
      if k == "constructor" then Inherited(Some("Object"))
      else if k == "__proto__" then Inherited(None)
      else Absent
  {
    NormalizeOfNormalForm(k);
  }

  /** `constructor` and `__proto__` are in normal form and are no command keys. */
  lemma ConstructorKey(k: string)
    requires k == "constructor"
    ensures IsNormalKey(k) && k !in RegistryKeys
  {
  }

  lemma ProtoKey(k: string)
    requires k == "__proto__"
    ensures IsNormalKey(k) && k !in RegistryKeys && k != "constructor"
  {
  }

  /** The discrepancy: `constructor` is no command, yet the lookup as written
      finds the inherited `Object` function under it, while the own-key lookup
      finds nothing. */
  lemma ConstructorResolvesAsWritten()
    ensures "constructor" !in RegistryKeys
    ensures GetCommandDefinition("constructor") == None
    ensures ResolveAsWritten("constructor") == Inherited(Some("Object"))
  {
    var c := "constructor";
    ConstructorKey(c);
    UnlistedKeyMissing(c);
  }

  /** Likewise `__proto__`, under which the prototype object itself is found. */
  lemma ProtoResolvesAsWritten()
    ensures GetCommandDefinition("__proto__") == None
    ensures ResolveAsWritten("__proto__") == Inherited(None)
  {
    var p := "__proto__";
    ProtoKey(p);
    UnlistedKeyMissing(p);
  }

  /** The three ways `executeCommand` can go: trimmed text exactly `"clear"`
      dispatches CLEAR alone; exactly `"toggle"` dispatches SET_MODE with the
      flipped mode and then EXECUTE; anything else dispatches EXECUTE. */
  function ExecuteCommandSpec(s: State, command: string, result: Option<TerminalResult>, now: int): (r: State)
    ensures Trim(command) == "clear" ==> r == s.(results := [])
    ensures Trim(command) != "clear" ==>
      && r.history == Reduce(s, Execute(command, result), now).history
      && r.results == Reduce(s, Execute(command, result), now).results
      && r.mode == if Trim(command) == "toggle" then Flip(s.mode) else s.mode
  {
    if Trim(command) == "clear" then Reduce(s, Clear, now)
    else
      var s1 := if Trim(command) == "toggle" then Reduce(s, SetMode(Flip(s.mode)), now) else s;
      Reduce(s1, Execute(command, result), now)
  }

  /** Two toggles restore the mode. */
  lemma ToggleTwiceRestoresMode(s: State, c1: string, c2: string, r1: Option<TerminalResult>,
                                r2: Option<TerminalResult>, t1: int, t2: int)
    requires Trim(c1) == "toggle" && Trim(c2) == "toggle"
    ensures ExecuteCommandSpec(ExecuteCommandSpec(s, c1, r1, t1), c2, r2, t2).mode == s.mode
  {
  }

  /** The hook's state slot, updated by `dispatch`. */
  class Store {
    var state: State

    constructor ()
      ensures state == InitialState
    {
      state := InitialState;
    }

    /** `dispatch`: one reducer transition. */
    method Dispatch(action: Action, now: int)
      modifies this
      ensures state == Reduce(old(state), action, now)
    {
      state := Reduce(state, action, now);
    }

    /** `executeCommand`. */
    method ExecuteCommand(command: string, result: Option<TerminalResult>, now: int)
      modifies this
      ensures state == ExecuteCommandSpec(old(state), command, result, now)
    {
      if Trim(command) == "clear" {
        Dispatch(Clear, now);
        return;
      }
      if Trim(command) == "toggle" {
        var nextMode := Flip(state.mode);
        Dispatch(SetMode(nextMode), now);
      }
      Dispatch(Execute(command, result), now);
    }

    /** `clearResults`. */
    method ClearResults(now: int)
      modifies this
      ensures state == old(state).(results := [])
    {
      Dispatch(Clear, now);
    }

    /** `setMode`. */
    method SetModeTo(mode: Mode, now: int)
      modifies this
      ensures state == old(state).(mode := mode)
    {
      Dispatch(SetMode(mode), now);
    }
  }
}
