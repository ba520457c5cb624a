/**
 Acceptance by the argv parser as one statement: the tokens spell exactly the
 invocation, flag for flag and value for value, and nothing else.
*/
module ArgvExact {
  import opened Wrappers
  import opened Vocabulary
  import opened ArgvFlags
  import opened Argv
  import opened ArgvLaws

  // ----- the groups of one command -----

  lemma TextsOutside(inv: Invocation, f: Flag, size: string)
    requires f !in Claims(CommandOf(inv))
    ensures Texts(inv, f, size) == [] && !Switches(inv, f)
  {
  }

  lemma CarriesIsAgreement(groups: seq<Group>, inv: Invocation, size: string)
    ensures Carries(groups, inv, size) <==> SpellsSize(inv, size) && forall f :: Agrees(groups, inv, size, f)
  {
    hide ValuesIn, SwitchCount, Texts, Switches, SpellsSize;
    if forall f :: Agrees(groups, inv, size, f) {
      forall f
        ensures ValuesIn(groups, f) == Texts(inv, f, size)
        ensures SwitchCount(groups, f) == if Switches(inv, f) then 1 else 0
      {
        assert Agrees(groups, inv, size, f);
      }
    }
  }

  lemma UnusedAgrees(groups: seq<Group>, inv: Invocation, size: string, f: Flag)
    requires f !in Claims(CommandOf(inv))
    ensures Used(groups, f) <==> !Agrees(groups, inv, size, f)
  {
    TextsOutside(inv, f, size);
    hide ValuesIn, SwitchCount, Texts, Switches;
  }

  /** A call carries its invocation when every claimed flag agrees and none is left over. */
  lemma CarriesIff(groups: seq<Group>, inv: Invocation, size: string)
    ensures Carries(groups, inv, size)
       <==> SpellsSize(inv, size) && ClaimsAgree(CommandOf(inv), groups, inv, size) && Exhausted(CommandOf(inv), groups)
  {
    hide Carries, Agrees, SpellsSize, Used, Claims, CommandOf;
    CarriesIsAgreement(groups, inv, size);
    forall f | f !in Claims(CommandOf(inv))
      ensures Used(groups, f) <==> !Agrees(groups, inv, size, f)
    {
      UnusedAgrees(groups, inv, size, f);
    }
  }

  lemma RequiredSpelled(inv: Invocation, size: string, absolute: string -> bool, f: Flag)
    requires Lawful(inv, absolute) && f in Required(CommandOf(inv))
    ensures if f == Json then Switches(inv, Json) else Texts(inv, f, size) != []
  {
  }

  /** A lawful invocation's groups hold every flag its command requires. */
  lemma RequiredGiven(groups: seq<Group>, inv: Invocation, size: string, absolute: string -> bool)
    requires Carries(groups, inv, size) && Lawful(inv, absolute)
    ensures forall f :: f in Required(CommandOf(inv)) ==> Given(groups, f)
  {
    hide ValuesIn, SwitchCount, Texts, Switches, Required, Lawful, CommandOf, SpellsSize;
    forall f | f in Required(CommandOf(inv))
      ensures Given(groups, f)
    {
      RequiredSpelled(inv, size, absolute, f);
    }
  }

  lemma LaunchNeedsPrefix(groups: seq<Group>, inv: Invocation, size: string)
    requires Carries(groups, inv, size) && inv.LaunchCall? && Given(groups, Prefix)
    ensures inv.prefix.Some?
  {
    hide ValuesIn, SwitchCount;
    assert Texts(inv, Prefix, size) == OptSeq(inv.prefix);
  }

  predicate Passes(inv: Invocation, passed: seq<string>) {
    inv.LaunchCall? ==> inv.arguments == passed
  }

  lemma LawfulIs(inv: Invocation, absolute: string -> bool)
    ensures Lawful(inv, absolute)
       <==> PrefixLawful(inv, absolute) && !Contradictory(inv) && (inv.LaunchCall? ==> inv.prefix.Some?)
  {
  }

  lemma ReadCommandSound(c: Command, groups: seq<Group>, passed: seq<string>, absolute: string -> bool, inv: Invocation)
    requires Sound(groups) && c != ProviderInfo && ReadCommand(c, groups, passed, absolute) == Ok(inv)
    ensures CommandOf(inv) == c && Passes(inv, passed) && Carries(groups, inv, Sure(groups, BundleSize))
    ensures Lawful(inv, absolute)
  {
    var size := Sure(groups, BundleSize);
    hide Sound, ReadCall, Carries, ClaimsAgree, SpellsSize, Exhausted, Lawful, PrefixLawful, Sure, Required, Given,
         Contradictory, CommandOf;
    ReadCallIff(c, groups, passed, absolute, inv);
    CarriesIff(groups, inv, size);
    LawfulIs(inv, absolute);
    LaunchRequiresPrefix();
    if inv.LaunchCall? {
      CommandsDiffer(inv);
      LaunchNeedsPrefix(groups, inv, size);
    }
  }

  lemma ReadCommandComplete(groups: seq<Group>, passed: seq<string>, absolute: string -> bool, inv: Invocation)
    requires Sound(groups) && !inv.InfoCall? && Passes(inv, passed)
    requires Carries(groups, inv, Sure(groups, BundleSize)) && Lawful(inv, absolute)
    ensures ReadCommand(CommandOf(inv), groups, passed, absolute) == Ok(inv)
  {
    var c, size := CommandOf(inv), Sure(groups, BundleSize);
    hide Sound, ReadCall, Carries, ClaimsAgree, SpellsSize, Exhausted, Lawful, PrefixLawful, Sure, Required, Given,
         Contradictory, CommandOf;
    CommandsDiffer(inv);
    ReadCallIff(c, groups, passed, absolute, inv);
    CarriesIff(groups, inv, size);
    LawfulIs(inv, absolute);
    RequiredGiven(groups, inv, size, absolute);
  }

  /** Reading a command succeeds with an invocation exactly when the groups carry it and it is lawful. */
  lemma ReadCommandIff(c: Command, groups: seq<Group>, passed: seq<string>, absolute: string -> bool, inv: Invocation)
    requires Sound(groups) && c != ProviderInfo
    ensures ReadCommand(c, groups, passed, absolute) == Ok(inv)
       <==> && CommandOf(inv) == c && Passes(inv, passed)
            && Carries(groups, inv, Sure(groups, BundleSize)) && Lawful(inv, absolute)
  {
    hide *;
    if ReadCommand(c, groups, passed, absolute) == Ok(inv) {
      ReadCommandSound(c, groups, passed, absolute, inv);
    }
    if && CommandOf(inv) == c && Passes(inv, passed)
       && Carries(groups, inv, Sure(groups, BundleSize)) && Lawful(inv, absolute) {
      CommandsDiffer(inv);
      ReadCommandComplete(groups, passed, absolute, inv);
    }
  }

  lemma LaunchRequiresPrefix()
    ensures Prefix in Required(Launch)
  {
  }

  lemma TextsAreFew(inv: Invocation, size: string, f: Flag)
    ensures !Repeatable(f) ==> |Texts(inv, f, size)| <= 1
    ensures IsSwitch(f) ==> Texts(inv, f, size) == []
    ensures !IsSwitch(f) ==> !Switches(inv, f)
  {
  }

  /** Groups that carry an invocation repeat nothing and mix nothing up. */
  lemma CarriesIsSound(groups: seq<Group>, inv: Invocation, size: string)
    requires Carries(groups, inv, size)
    ensures Sound(groups)
  {
    hide ValuesIn, SwitchCount, Texts, Switches, SpellsSize;
    forall f
      ensures !Repeatable(f) ==> |ValuesIn(groups, f)| <= 1
      ensures SwitchCount(groups, f) <= 1
      ensures if IsSwitch(f) then ValuesIn(groups, f) == [] else SwitchCount(groups, f) == 0
    {
      TextsAreFew(inv, size, f);
    }
  }

  // ----- whole token lists -----

  lemma {:induction false} SplitIs(tokens: seq<string>)
    ensures var (mine, passed) := SplitPassthrough(tokens);
            "--" !in mine && (tokens == mine + ["--"] + passed || (passed == [] && tokens == mine))
    decreases |tokens|
  {
    if tokens != [] && tokens[0] != "--" {
      SplitIs(tokens[1..]);
      assert tokens == [tokens[0]] + tokens[1..];
    }
  }

  lemma {:induction false} SplitOf(mine: seq<string>, passed: seq<string>)
    requires "--" !in mine
    ensures SplitPassthrough(mine + ["--"] + passed) == (mine, passed)
    ensures SplitPassthrough(mine) == (mine, [])
    decreases |mine|
  {
    if mine == [] {
      assert (mine + ["--"] + passed)[1..] == passed;
    } else {
      SplitOf(mine[1..], passed);
      assert (mine + ["--"] + passed)[1..] == mine[1..] + ["--"] + passed;
      assert mine == [mine[0]] + mine[1..];
    }
  }

  /** Groups that can be spelled without meeting the passthrough separator. */
  ghost predicate Clean(groups: seq<Group>) {
    AllShaped(groups) && "--" !in Flatten(groups)
  }

  /** The arguments a launch passes on; every other call passes none. */
  function PassedOn(inv: Invocation): seq<string> {
    if inv.LaunchCall? then inv.arguments else []
  }

  /** Tokens made of flag groups, then a separator if anything follows it. */
  ghost predicate Laid(tokens: seq<string>, groups: seq<Group>, passed: seq<string>) {
    tokens == Flatten(groups) + ["--"] + passed || (passed == [] && tokens == Flatten(groups))
  }

  lemma LaidIff(tokens: seq<string>, groups: seq<Group>, passed: seq<string>)
    ensures Laid(tokens, groups, passed) && Clean(groups)
       <==> SplitPassthrough(tokens).1 == passed && GroupsOf(SplitPassthrough(tokens).0) == Some(groups)
  {
    hide SplitPassthrough, GroupsOf, Flatten, AllShaped;
    SplitIs(tokens);
    var mine := SplitPassthrough(tokens).0;
    if GroupsOf(mine) == Some(groups) {
      GroupsAreTokens(mine);
    }
    if Laid(tokens, groups, passed) && Clean(groups) {
      SplitOf(Flatten(groups), passed);
      FlattenReads(groups);
    }
  }

  /** The tokens spell the invocation: its command, its flags in some order, what it passes on. */
  ghost predicate Spells(tokens: seq<string>, groups: seq<Group>, inv: Invocation, absolute: string -> bool) {
    && tokens != [] && tokens[0] == CommandName(CommandOf(inv))
    && Laid(tokens[1..], groups, PassedOn(inv)) && Clean(groups)
    && Carries(groups, inv, Sure(groups, BundleSize)) && Lawful(inv, absolute)
  }

  ghost predicate Denotes(tokens: seq<string>, inv: Invocation, absolute: string -> bool) {
    if inv.InfoCall? then tokens == [CommandName(ProviderInfo)]
    else exists groups :: Spells(tokens, groups, inv, absolute)
  }

  lemma CommandIff(text: string, c: Command)
    ensures ParseCommand(text) == Some(c) <==> text == CommandName(c)
  {
    hide CommandName, ParseCommand;
    CommandNameParses(c);
  }

  lemma ShapedIsSorted(groups: seq<Group>, f: Flag)
    requires AllShaped(groups)
    ensures if IsSwitch(f) then ValuesIn(groups, f) == [] else SwitchCount(groups, f) == 0
    decreases |groups|
  {
    hide FlagOf, FlagName, DashedWord;
    if groups != [] {
      assert Shaped(groups[0]);
      ShapedIsSorted(groups[1..], f);
    }
  }

  lemma SoundIff(groups: seq<Group>)
    requires AllShaped(groups)
    ensures Sound(groups) <==> NoRepeats(groups)
  {
    forall f
      ensures if IsSwitch(f) then ValuesIn(groups, f) == [] else SwitchCount(groups, f) == 0
    {
      ShapedIsSorted(groups, f);
    }
    hide ValuesIn, SwitchCount, AllShaped;
  }

  /** What the parser does with a command and its remaining tokens. */
  ghost function ReadRest(c: Command, rest: seq<string>, absolute: string -> bool): Result<Invocation, Reason> {
    var (mine, passed) := SplitPassthrough(rest);
    if c != Launch && passed != [] then Err(ProviderUnavailable)
    else
      match Readable(mine)
      case None => Err(ProviderUnavailable)
      case Some(groups) => ReadCommand(c, groups, passed, absolute)
  }

  lemma ReadRestIs(tokens: seq<string>, absolute: string -> bool, c: Command)
    requires tokens != [] && tokens[0] == CommandName(c) && c != ProviderInfo
    ensures ParseSpec(tokens, absolute) == ReadRest(c, tokens[1..], absolute)
  {
    CommandIff(tokens[0], c);
    hide CommandName, ParseCommand, SplitPassthrough, Readable, ReadCommand;
  }

  lemma AcceptedSpells(c: Command, rest: seq<string>, inv: Invocation, absolute: string -> bool)
    requires c != ProviderInfo && ReadRest(c, rest, absolute) == Ok(inv)
    ensures GroupsOf(SplitPassthrough(rest).0).Some?
    ensures CommandOf(inv) == c
    ensures Spells([CommandName(c)] + rest, GroupsOf(SplitPassthrough(rest).0).value, inv, absolute)
  {
    hide SplitPassthrough, GroupsOf, NoRepeats, ReadCommand, Carries, Lawful, Laid, Clean, AllShaped, Sure,
         CommandName, CommandOf;
    var (mine, passed) := SplitPassthrough(rest);
    var groups := GroupsOf(mine).value;
    LaidIff(rest, groups, passed);
    CleanIsShaped(groups);
    SoundIff(groups);
    ReadCommandIff(c, groups, passed, absolute, inv);
    CommandsDiffer(inv);
    assert ([CommandName(c)] + rest)[1..] == rest;
  }

  lemma CleanIsShaped(groups: seq<Group>)
    ensures Clean(groups) ==> AllShaped(groups)
  {
  }

  lemma CommandsDiffer(inv: Invocation)
    ensures inv.LaunchCall? <==> CommandOf(inv) == Launch
    ensures inv.InfoCall? <==> CommandOf(inv) == ProviderInfo
  {
  }

  lemma SpelledAccepted(tokens: seq<string>, groups: seq<Group>, inv: Invocation, absolute: string -> bool)
    requires !inv.InfoCall? && Spells(tokens, groups, inv, absolute)
    ensures ReadRest(CommandOf(inv), tokens[1..], absolute) == Ok(inv)
  {
    hide SplitPassthrough, GroupsOf, NoRepeats, ReadCommand, Carries, Lawful, Laid, Clean, AllShaped, Sure,
         CommandName, CommandOf, Sorted;
    var c := CommandOf(inv);
    LaidIff(tokens[1..], groups, PassedOn(inv));
    CarriesIsSound(groups, inv, Sure(groups, BundleSize));
    CommandsDiffer(inv);
    ReadCommandIff(c, groups, PassedOn(inv), absolute, inv);
  }

  /** The parser accepts a token list as an invocation exactly when the tokens spell it. */
  lemma AcceptsIff(tokens: seq<string>, absolute: string -> bool, inv: Invocation)
    ensures ParseSpec(tokens, absolute) == Ok(inv) <==> Denotes(tokens, inv, absolute)
  {
    hide *;
    if inv.InfoCall? {
      InfoIff(tokens, absolute, inv);
    }
    if ParseSpec(tokens, absolute) == Ok(inv) && !inv.InfoCall? {
      AcceptedDenotes(tokens, absolute, inv);
    }
    if Denotes(tokens, inv, absolute) && !inv.InfoCall? {
      DenotedAccepted(tokens, absolute, inv);
    }
  }

  lemma AcceptedDenotes(tokens: seq<string>, absolute: string -> bool, inv: Invocation)
    requires ParseSpec(tokens, absolute) == Ok(inv) && !inv.InfoCall?
    ensures Denotes(tokens, inv, absolute)
  {
    hide Spells, ReadCommand, CommandName, ParseCommand, SplitPassthrough, Readable;
    var c := ParseCommand(tokens[0]).value;
    CommandIff(tokens[0], c);
    ReadRestIs(tokens, absolute, c);
    AcceptedSpells(c, tokens[1..], inv, absolute);
    assert [CommandName(c)] + tokens[1..] == tokens;
    assert Spells(tokens, GroupsOf(SplitPassthrough(tokens[1..]).0).value, inv, absolute);
  }

  lemma DenotedAccepted(tokens: seq<string>, absolute: string -> bool, inv: Invocation)
    requires Denotes(tokens, inv, absolute) && !inv.InfoCall?
    ensures ParseSpec(tokens, absolute) == Ok(inv)
  {
    hide ReadRest, CommandName, ParseSpec, CommandOf, Laid, Clean, Carries, Lawful;
    var groups :| Spells(tokens, groups, inv, absolute);
    CommandsDiffer(inv);
    SpelledAccepted(tokens, groups, inv, absolute);
    ReadRestIs(tokens, absolute, CommandOf(inv));
  }

  lemma InfoIff(tokens: seq<string>, absolute: string -> bool, inv: Invocation)
    requires inv.InfoCall?
    ensures ParseSpec(tokens, absolute) == Ok(inv) <==> Denotes(tokens, inv, absolute)
  {
    hide ReadCommand, CommandName, ParseCommand, SplitPassthrough, Readable, Spells;
    CommandNameParses(ProviderInfo);
    assert Denotes(tokens, inv, absolute) <==> tokens == [CommandName(ProviderInfo)];
    if ParseSpec(tokens, absolute) == Ok(inv) {
      var c := ParseCommand(tokens[0]).value;
      CommandIff(tokens[0], c);
      if c != ProviderInfo {
        ReadRestIs(tokens, absolute, c);
        AcceptedSpells(c, tokens[1..], inv, absolute);
        CommandsDiffer(inv);
      }
      assert |tokens| == 1;
      assert tokens == [CommandName(ProviderInfo)];
    }
  }
}
