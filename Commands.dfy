/** The static command registry (src/data/commands.ts): the ordered list of
    command records, the dictionary built from it that sends every name and every
    alias to its record, the "primary" chip commands and the section descriptors. */
module Commands {
  import opened Types
  import opened Text

  datatype Category = Core | Section | Utility | Contact

  /** A command record; a record without aliases has `aliases == []`. The
      one-line description shown in the help listing and on the chips is markup
      and is not kept. */
  datatype CommandDefinition = CommandDefinition(
    name: string,
    category: Category,
    aliases: seq<string>,
    relatedSectionId: Option<string>)

  const HelpCommand := CommandDefinition("help", Core, ["?"], None)
  const AboutCommand := CommandDefinition("about", Section, [], Some("about"))
  const ExperienceCommand := CommandDefinition("experience", Section, [], Some("experience"))
  const ProjectsCommand := CommandDefinition("projects", Section, [], Some("projects"))
  const EducationCommand := CommandDefinition("education", Section, [], Some("education"))
  const CertificationsCommand := CommandDefinition("certifications", Section, [], Some("certifications"))
  const SkillsCommand := CommandDefinition("skills", Section, [], Some("skills"))
  const ContactCommand := CommandDefinition("contact", Contact, [], Some("contact"))
  const ScrollCommand := CommandDefinition("scroll", Utility, ["view"], Some("scroll-start"))
  const ClearCommand := CommandDefinition("clear", Utility, [], None)
  const ToggleCommand := CommandDefinition("toggle", Utility, [], None)
  const DownloadCommand := CommandDefinition("download", Utility, ["download resume", "resume"], None)

  /** The registry, in the order the source lists it. */
  const Registry: seq<CommandDefinition> := [
    HelpCommand, AboutCommand, ExperienceCommand, ProjectsCommand, EducationCommand,
    CertificationsCommand, SkillsCommand, ContactCommand, ScrollCommand, ClearCommand,
    ToggleCommand, DownloadCommand]

  /** The dictionary keys one record contributes: its name, then its aliases. */
  function OwnKeys(c: CommandDefinition): seq<string> {
    [c.name] + c.aliases
  }

  /** Every key the registry contributes, in insertion order. */
  function AllKeys(cmds: seq<CommandDefinition>): seq<string> {
    if cmds == [] then [] else AllKeys(cmds[..|cmds| - 1]) + OwnKeys(cmds[|cmds| - 1])
  }

  predicate Distinct(keys: seq<string>) {
    forall i, j :: 0 <= i < j < |keys| ==> keys[i] != keys[j]
  }

  /** The `forEach` over a record's aliases: each alias in turn is set to the record. */
  function WithAliases(d: map<string, CommandDefinition>, aliases: seq<string>, c: CommandDefinition)
    : (r: map<string, CommandDefinition>)
    ensures forall k :: k in r <==> k in d || k in aliases
    ensures forall k :: k in aliases ==> r[k] == c
    ensures forall k :: k in d && k !in aliases ==> r[k] == d[k]
  {
    if aliases == [] then d
    else WithAliases(d, aliases[..|aliases| - 1], c)[aliases[|aliases| - 1] := c]
  }

  /** One step of the `reduce`: the record's name, then its aliases, are set to it. */
  function WithCommand(d: map<string, CommandDefinition>, c: CommandDefinition): map<string, CommandDefinition> {
    WithAliases(d[c.name := c], c.aliases, c)
  }

  /** The dictionary the `reduce` builds from `cmds`, starting from `{}`. Its keys
      are exactly the names and aliases. */
  function DictionaryOf(cmds: seq<CommandDefinition>): (d: map<string, CommandDefinition>)
    ensures forall k :: k in d <==> k in AllKeys(cmds)
  {
    if cmds == [] then map[]
    else WithCommand(DictionaryOf(cmds[..|cmds| - 1]), cmds[|cmds| - 1])
  }

  /** Every value of the dictionary is one of the records. */
  lemma {:induction false} DictionaryValues(cmds: seq<CommandDefinition>)
    ensures forall k :: k in DictionaryOf(cmds) ==> DictionaryOf(cmds)[k] in cmds
  {
    if cmds != [] {
      var init := cmds[..|cmds| - 1];
      DictionaryValues(init);
      forall k | k in DictionaryOf(init) ensures DictionaryOf(init)[k] in cmds {
        assert DictionaryOf(init)[k] in init;
      }
    }
  }

  /** The `reduce` itself, mutating the accumulator map record by record and
      alias by alias. */
  method BuildDictionary(cmds: seq<CommandDefinition>) returns (dict: map<string, CommandDefinition>)
    ensures dict == DictionaryOf(cmds)
  {
    dict := map[];
    for i := 0 to |cmds|
      invariant dict == DictionaryOf(cmds[..i])
    {
      var c := cmds[i];
      ghost var before := dict;
      dict := dict[c.name := c];
      for j := 0 to |c.aliases|
        invariant dict == WithAliases(before[c.name := c], c.aliases[..j], c)
      {
        assert c.aliases[..j + 1][..j] == c.aliases[..j];
        dict := dict[c.aliases[j] := c];
      }
      assert c.aliases[..|c.aliases|] == c.aliases;
      assert cmds[..i + 1][..i] == cmds[..i];
    }
    assert cmds[..|cmds|] == cmds;
  }

  /** `commandDictionary`. */
  const Dictionary: map<string, CommandDefinition> := DictionaryOf(Registry)

  lemma {:induction false} OwnKeysInAllKeys(cmds: seq<CommandDefinition>, i: nat, k: string)
    requires i < |cmds| && k in OwnKeys(cmds[i])
    ensures k in AllKeys(cmds)
  {
    if i < |cmds| - 1 {
      assert cmds[..|cmds| - 1][i] == cmds[i];
      OwnKeysInAllKeys(cmds[..|cmds| - 1], i, k);
    }
  }

  lemma DistinctSplit(a: seq<string>, b: seq<string>, k: string)
    requires Distinct(a + b)
    ensures Distinct(a)
    ensures k in a ==> k !in b
  {
    assert forall x :: 0 <= x < |a| ==> (a + b)[x] == a[x];
    if k in a {
      var p :| 0 <= p < |a| && a[p] == k;
      forall q | 0 <= q < |b| ensures b[q] != k {
        assert (a + b)[p] == a[p] && (a + b)[|a| + q] == b[q];
      }
    }
  }

  /** One `reduce` step maps the record's own keys to it and leaves every other
      key as it was. */
  lemma WithCommandMaps(d: map<string, CommandDefinition>, c: CommandDefinition, k: string)
    ensures k in OwnKeys(c) ==> k in WithCommand(d, c) && WithCommand(d, c)[k] == c
    ensures k !in OwnKeys(c) ==> (k in WithCommand(d, c) <==> k in d)
    ensures k !in OwnKeys(c) && k in d ==> WithCommand(d, c)[k] == d[k]
  {
    assert k in OwnKeys(c) <==> k == c.name || k in c.aliases;
  }

  /** When no key is contributed twice, every name and every alias maps to the
      record that contributes it: no later record overwrites an earlier one. */
  lemma {:induction false} DictionaryMapsOwner(cmds: seq<CommandDefinition>, i: nat, k: string)
    requires Distinct(AllKeys(cmds))
    requires i < |cmds| && k in OwnKeys(cmds[i])
    ensures k in DictionaryOf(cmds) && DictionaryOf(cmds)[k] == cmds[i]
  {
    var n := |cmds|;
    var init, last := cmds[..n - 1], cmds[n - 1];
    assert AllKeys(cmds) == AllKeys(init) + OwnKeys(last);
    assert DictionaryOf(cmds) == WithCommand(DictionaryOf(init), last);
    WithCommandMaps(DictionaryOf(init), last, k);
    if i < n - 1 {
      assert init[i] == cmds[i];
      DistinctSplit(AllKeys(init), OwnKeys(last), k);
      DictionaryMapsOwner(init, i, k);
      OwnKeysInAllKeys(init, i, k);
    }
  }

  lemma {:induction false} DistinctCardinality(keys: seq<string>)
    requires Distinct(keys)
    ensures |set k | k in keys| == |keys|
  {
    if keys != [] {
      var rest := keys[..|keys| - 1];
      var last := keys[|keys| - 1];
      assert Distinct(rest);
      DistinctCardinality(rest);
      assert (set k | k in keys) == (set k | k in rest) + {last};
      assert last !in (set k | k in rest);
    }
  }

  /** The sixteen keys of the shipped registry: twelve names and four aliases. */
  const RegistryKeys: seq<string> := [
    "help", "?", "about", "experience", "projects", "education", "certifications",
    "skills", "contact", "scroll", "view", "clear", "toggle", "download",
    "download resume", "resume"]

  /** One more record of the registry contributes its own keys at the end. */
  lemma KeysStep(n: nat)
    requires 0 < n <= |Registry|
    ensures AllKeys(Registry[..n]) == AllKeys(Registry[..n - 1]) + OwnKeys(Registry[n - 1])
  {
    assert Registry[..n][..n - 1] == Registry[..n - 1];
  }

  lemma KeysOfFirstFour()
    ensures AllKeys(Registry[..4]) == ["help", "?", "about", "experience", "projects"]
  {
    assert Registry[..0] == [];
    KeysStep(1);
    KeysStep(2);
    KeysStep(3);
    KeysStep(4);
  }

  lemma KeysOfFirstEight()
    ensures AllKeys(Registry[..8]) == ["help", "?", "about", "experience", "projects", "education",
      "certifications", "skills", "contact"]
  {
    KeysOfFirstFour();
    KeysStep(5);
    KeysStep(6);
    KeysStep(7);
    KeysStep(8);
  }

  /** The registry contributes exactly the sixteen keys, in this order. */
  lemma RegistryKeysListed()
    ensures AllKeys(Registry) == RegistryKeys
  {
    KeysOfFirstEight();
    KeysStep(9);
    KeysStep(10);
    KeysStep(11);
    KeysStep(12);
    assert Registry[..12] == Registry;
  }

  /** No name or alias is contributed twice. */
  lemma RegistryKeysDistinct()
    ensures Distinct(AllKeys(Registry))
  {
    RegistryKeysListed();
    var front, back := RegistryKeys[..8], RegistryKeys[8..];
    assert RegistryKeys == front + back;
    FrontKeysDistinct(front);
    BackKeysDistinct(back);
    HalvesDisjoint(front, back);
    DistinctConcat(front, back);
  }

  lemma FrontKeysDistinct(front: seq<string>)
    requires front == RegistryKeys[..8]
    ensures Distinct(front)
  {
  }

  lemma BackKeysDistinct(back: seq<string>)
    requires back == RegistryKeys[8..]
    ensures Distinct(back)
  {
  }

  lemma HalvesDisjoint(front: seq<string>, back: seq<string>)
    requires front == RegistryKeys[..8] && back == RegistryKeys[8..]
    ensures forall x :: x in front ==> x !in back
  {
  }

  lemma DistinctConcat(a: seq<string>, b: seq<string>)
    requires Distinct(a) && Distinct(b)
    requires forall x :: x in a ==> x !in b
    ensures Distinct(a + b)
  {
    forall i, j | 0 <= i < j < |a + b| ensures (a + b)[i] != (a + b)[j] {
      if j < |a| {
        assert (a + b)[i] == a[i] && (a + b)[j] == a[j];
      } else if |a| <= i {
        assert (a + b)[i] == b[i - |a|] && (a + b)[j] == b[j - |a|];
      } else {
        assert (a + b)[i] == a[i] && (a + b)[j] == b[j - |a|];
        assert a[i] in a && b[j - |a|] in b;
      }
    }
  }

  /** `commandDictionary` holds exactly the sixteen names and aliases. */
  lemma DictionaryKeys()
    ensures forall k :: k in Dictionary <==> k in RegistryKeys
    ensures |Dictionary| == 16
  {
    RegistryKeysListed();
    RegistryKeysDistinct();
    DistinctCardinality(RegistryKeys);
    assert Dictionary.Keys == set k | k in RegistryKeys;
  }

  /** Every name and every alias of a registered command maps to that command. */
  lemma RegistryResolves(i: nat, k: string)
    requires i < |Registry| && k in OwnKeys(Registry[i])
    ensures k in Dictionary && Dictionary[k] == Registry[i]
  {
    RegistryKeysDistinct();
    DictionaryMapsOwner(Registry, i, k);
  }

  /** An alias resolves to the same definition as its command's name. */
  lemma AliasResolvesLikeName(c: CommandDefinition, alias: string)
    requires c in Registry && alias in c.aliases
    ensures alias in Dictionary && c.name in Dictionary
    ensures Dictionary[alias] == Dictionary[c.name] == c
  {
    var i :| 0 <= i < |Registry| && Registry[i] == c;
    RegistryResolves(i, alias);
    RegistryResolves(i, c.name);
  }

  /** A key in normal form: trimmed and free of upper-case letters. */
  predicate IsNormalKey(k: string) {
    IsTrimmed(k) && forall i :: 0 <= i < |k| ==> !IsUpper(k[i])
  }

  /** Every dictionary key is its own normalised form, so the normalised lookup
      reaches every key. */
  lemma RegistryKeyNormal(i: nat)
    requires i < |RegistryKeys|
    ensures IsNormalKey(RegistryKeys[i])
  {
  }

  lemma DictionaryKeysNormalized()
    ensures forall k :: k in Dictionary ==> Normalize(k) == k
  {
    DictionaryKeys();
    forall k | k in Dictionary ensures Normalize(k) == k {
      var i :| 0 <= i < |RegistryKeys| && RegistryKeys[i] == k;
      RegistryKeyNormal(i);
      NormalizeOfNormalForm(k);
    }
  }

  /** `xs` lists some of the elements of `ys`, in the order `ys` has them. */
  predicate Subsequence<T(==)>(xs: seq<T>, ys: seq<T>)
    decreases |ys|
  {
    xs == [] || (ys != [] &&
      (Subsequence(xs, ys[..|ys| - 1]) ||
       (xs[|xs| - 1] == ys[|ys| - 1] && Subsequence(xs[..|xs| - 1], ys[..|ys| - 1]))))
  }

  /** `Array.prototype.filter` over records. */
  function Matching(cmds: seq<CommandDefinition>, keep: CommandDefinition -> bool): seq<CommandDefinition> {
    if cmds == [] then []
    else
      var last := cmds[|cmds| - 1];
      Matching(cmds[..|cmds| - 1], keep) + if keep(last) then [last] else []
  }

  /** `filter` keeps exactly the records that pass, in their original order.
      With repeated records, `MatchingCounts` says how often each is kept. */
  lemma {:induction false} MatchingSpec(cmds: seq<CommandDefinition>, keep: CommandDefinition -> bool)
    ensures forall c :: c in Matching(cmds, keep) <==> c in cmds && keep(c)
    ensures Subsequence(Matching(cmds, keep), cmds)
  {
    if cmds != [] {
      var init, last := cmds[..|cmds| - 1], cmds[|cmds| - 1];
      var m := Matching(init, keep);
      MatchingSpec(init, keep);
      assert cmds == init + [last];
      if keep(last) {
        assert (m + [last])[..|m|] == m;
      } else {
        assert m + [] == m;
      }
    }
  }

  /** `filter` keeps each passing record as many times as it occurs, and drops
      every other record. */
  lemma {:induction false} MatchingCounts(cmds: seq<CommandDefinition>, keep: CommandDefinition -> bool)
    ensures forall c :: multiset(Matching(cmds, keep))[c] == if keep(c) then multiset(cmds)[c] else 0
  {
    if cmds != [] {
      var init, last := cmds[..|cmds| - 1], cmds[|cmds| - 1];
      MatchingCounts(init, keep);
      assert cmds == init + [last];
      assert multiset(cmds) == multiset(init) + multiset{last};
    }
  }

  /** A prefix of an ordered selection is an ordered selection. */
  lemma {:induction false} SubsequencePrefix<T>(xs: seq<T>, ys: seq<T>, n: nat)
    requires Subsequence(xs, ys) && n <= |xs|
    ensures Subsequence(xs[..n], ys)
    decreases |ys|
  {
    if n < |xs| && ys != [] {
      var init := ys[..|ys| - 1];
      if Subsequence(xs, init) {
        SubsequencePrefix(xs, init, n);
      } else {
        assert xs[..|xs| - 1][..n] == xs[..n];
        SubsequencePrefix(xs[..|xs| - 1], init, n);
      }
    } else if n == |xs| {
      assert xs[..n] == xs;
    }
  }

  const PrimaryCommandNames: seq<string> :=
    ["help", "about", "experience", "projects", "skills", "contact", "scroll"]

  predicate IsPrimary(c: CommandDefinition) {
    c.name in PrimaryCommandNames
  }

  /** `primaryCommands`: the registry records whose names are primary, in registry order. */
  const PrimaryCommands: seq<CommandDefinition> := Matching(Registry, IsPrimary)

  lemma PrimaryFlags()
    ensures IsPrimary(HelpCommand) && IsPrimary(AboutCommand) && IsPrimary(ExperienceCommand)
    ensures IsPrimary(ProjectsCommand) && !IsPrimary(EducationCommand) && !IsPrimary(CertificationsCommand)
    ensures IsPrimary(SkillsCommand) && IsPrimary(ContactCommand) && IsPrimary(ScrollCommand)
    ensures !IsPrimary(ClearCommand) && !IsPrimary(ToggleCommand) && !IsPrimary(DownloadCommand)
  {
  }

  lemma PrimaryCommandsListed()
    ensures PrimaryCommands ==
      [HelpCommand, AboutCommand, ExperienceCommand, ProjectsCommand, SkillsCommand, ContactCommand, ScrollCommand]
  {
    PrimaryFlags();
    var r := Registry;
    assert r[..1][..0] == r[..0];
    assert Matching(r[..1], IsPrimary) == Matching(r[..0], IsPrimary) + [r[0]];
    assert r[..2][..1] == r[..1];
    assert Matching(r[..2], IsPrimary) == Matching(r[..1], IsPrimary) + [r[1]];
    assert r[..3][..2] == r[..2];
    assert Matching(r[..3], IsPrimary) == Matching(r[..2], IsPrimary) + [r[2]];
    assert r[..4][..3] == r[..3];
    assert Matching(r[..4], IsPrimary) == Matching(r[..3], IsPrimary) + [r[3]];
    assert r[..5][..4] == r[..4];
    assert Matching(r[..5], IsPrimary) == Matching(r[..4], IsPrimary);
    assert r[..6][..5] == r[..5];
    assert Matching(r[..6], IsPrimary) == Matching(r[..5], IsPrimary);
    assert r[..7][..6] == r[..6];
    assert Matching(r[..7], IsPrimary) == Matching(r[..6], IsPrimary) + [r[6]];
    assert r[..8][..7] == r[..7];
    assert Matching(r[..8], IsPrimary) == Matching(r[..7], IsPrimary) + [r[7]];
    assert r[..9][..8] == r[..8];
    assert Matching(r[..9], IsPrimary) == Matching(r[..8], IsPrimary) + [r[8]];
    assert r[..10][..9] == r[..9];
    assert Matching(r[..10], IsPrimary) == Matching(r[..9], IsPrimary);
    assert r[..11][..10] == r[..10];
    assert Matching(r[..11], IsPrimary) == Matching(r[..10], IsPrimary);
    assert r[..12][..11] == r[..11];
    assert Matching(r[..12], IsPrimary) == Matching(r[..11], IsPrimary);
    assert r[..12] == r;
  }

  /** A résumé section as the page lists it (its title and summary text are not modelled). */
  datatype SectionDescriptor = SectionDescriptor(id: string, title: string, command: string)

  const SectionDescriptors: seq<SectionDescriptor> := [
    SectionDescriptor("about", "About", "about"),
    SectionDescriptor("experience", "Experience", "experience"),
    SectionDescriptor("projects", "Projects", "projects"),
    SectionDescriptor("education", "Education", "education"),
    SectionDescriptor("certifications", "Certifications", "certifications"),
    SectionDescriptor("skills", "Skills", "skills"),
    SectionDescriptor("contact", "Contact", "contact")]

  /** Each section is named by its own command, and that command resolves to a
      record that focuses the same section. */
  lemma DescriptorsMatchCommands()
    ensures forall d :: d in SectionDescriptors ==>
      d.id == d.command && d.command in Dictionary && Dictionary[d.command].relatedSectionId == Some(d.id)
  {
    forall d | d in SectionDescriptors
      ensures d.id == d.command && d.command in Dictionary && Dictionary[d.command].relatedSectionId == Some(d.id)
    {
      var i :| 0 <= i < |SectionDescriptors| && SectionDescriptors[i] == d;
      RegistryResolves(i + 1, d.command);
    }
  }
}
