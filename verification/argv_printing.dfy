/**
 Order and loss: the order of flags does not matter, every invocation that can
 be spelled is printed and read back, and every accepted token list is a
 rearrangement of that printout.
*/
module ArgvPrinting {
  import opened Wrappers
  import opened Digits
  import opened Vocabulary
  import opened ArgvFlags
  import opened Argv
  import opened ArgvLaws
  import opened ArgvExact

  // ----- counting groups -----

  lemma CountsFirst(g: Group, rest: seq<Group>, f: Flag)
    ensures SwitchCount([g] + rest, f) == (if g == Switched(f) then 1 else 0) + SwitchCount(rest, f)
    ensures forall v :: multiset(ValuesIn([g] + rest, f))[v]
              == (if g == Valued(f, v) then 1 else 0) + multiset(ValuesIn(rest, f))[v]
  {
    assert ([g] + rest)[1..] == rest;
  }

  /** How often a value is given for a flag is how often its group occurs. */
  lemma {:induction false} GroupCounts(groups: seq<Group>, f: Flag)
    ensures multiset(groups)[Switched(f)] == SwitchCount(groups, f)
    ensures forall v :: multiset(groups)[Valued(f, v)] == multiset(ValuesIn(groups, f))[v]
    decreases |groups|
  {
    if groups != [] {
      var rest := groups[1..];
      GroupCounts(rest, f);
      assert groups == [groups[0]] + rest;
      assert multiset(groups) == multiset{groups[0]} + multiset(rest);
      CountsFirst(groups[0], rest, f);
      assert groups == [groups[0]] + rest;
      hide ValuesIn, SwitchCount;
      forall v
        ensures multiset(groups)[Valued(f, v)] == multiset(ValuesIn(groups, f))[v]
      {
        assert multiset{groups[0]}[Valued(f, v)] == if groups[0] == Valued(f, v) then 1 else 0;
      }
    }
  }

  /** Two group lists that say the same of every flag. */
  ghost predicate SaySame(a: seq<Group>, b: seq<Group>) {
    forall f :: ValuesIn(a, f) == ValuesIn(b, f) && SwitchCount(a, f) == SwitchCount(b, f)
  }

  lemma SameIsPermuted(a: seq<Group>, b: seq<Group>)
    requires SaySame(a, b)
    ensures multiset(a) == multiset(b)
  {
    hide ValuesIn, SwitchCount;
    forall g: Group
      ensures multiset(a)[g] == multiset(b)[g]
    {
      GroupCounts(a, g.flag);
      GroupCounts(b, g.flag);
      assert ValuesIn(a, g.flag) == ValuesIn(b, g.flag) && SwitchCount(a, g.flag) == SwitchCount(b, g.flag);
      match g {
        case Switched(f) =>
        case Valued(f, v) => assert multiset(ValuesIn(a, f))[v] == multiset(ValuesIn(b, f))[v];
      }
    }
  }

  lemma PermutedCounts(a: seq<Group>, b: seq<Group>, f: Flag)
    requires multiset(a) == multiset(b)
    ensures multiset(ValuesIn(a, f)) == multiset(ValuesIn(b, f)) && |ValuesIn(a, f)| == |ValuesIn(b, f)|
    ensures SwitchCount(a, f) == SwitchCount(b, f)
  {
    hide ValuesIn, SwitchCount;
    GroupCounts(a, f);
    GroupCounts(b, f);
    forall v
      ensures multiset(ValuesIn(a, f))[v] == multiset(ValuesIn(b, f))[v]
    {
      assert multiset(a)[Valued(f, v)] == multiset(b)[Valued(f, v)];
    }
    assert |multiset(ValuesIn(a, f))| == |ValuesIn(a, f)| && |multiset(ValuesIn(b, f))| == |ValuesIn(b, f)|;
  }

  lemma PermutedOne(a: seq<string>, b: seq<string>)
    requires multiset(a) == multiset(b) && |a| == |b| <= 1
    ensures a == b
  {
    if |a| == 1 {
      assert a == [a[0]] && b == [b[0]];
      assert a[0] in multiset(a);
      assert a[0] in multiset(b);
      assert a[0] in b;
    }
  }

  /** Rearranging groups without repeats changes nothing but the order of artifact values. */
  lemma PermutedSaySame(a: seq<Group>, b: seq<Group>)
    requires multiset(a) == multiset(b) && ValuesIn(a, SoftwareArtifact) == ValuesIn(b, SoftwareArtifact)
    ensures NoRepeats(a) <==> NoRepeats(b)
    ensures NoRepeats(a) ==> SaySame(a, b)
  {
    hide ValuesIn, SwitchCount;
    forall f
      ensures multiset(ValuesIn(a, f)) == multiset(ValuesIn(b, f)) && |ValuesIn(a, f)| == |ValuesIn(b, f)|
      ensures SwitchCount(a, f) == SwitchCount(b, f)
    {
      PermutedCounts(a, b, f);
    }
    if NoRepeats(a) {
      forall f
        ensures ValuesIn(a, f) == ValuesIn(b, f)
      {
        if f != SoftwareArtifact {
          PermutedOne(ValuesIn(a, f), ValuesIn(b, f));
        }
      }
    }
  }

  // ----- order independence -----

  lemma SameBundle(a: seq<Group>, b: seq<Group>)
    requires SaySame(a, b)
    ensures ReadBundle(a) == ReadBundle(b)
  {
    hide ValuesIn, SwitchCount, ParseU64;
    assert BundleOfSize(a) == BundleOfSize(b);
  }

  lemma SameReads(a: seq<Group>, b: seq<Group>, absolute: string -> bool)
    requires SaySame(a, b)
    ensures ReadPrefix(a, absolute) == ReadPrefix(b, absolute) && ReadScope(a) == ReadScope(b)
    ensures ReadPlanIdentity(a) == ReadPlanIdentity(b) && ReadApproval(a) == ReadApproval(b)
    ensures forall f :: One(a, f) == One(b, f)
  {
    hide ValuesIn, SwitchCount, ParseScope, ParseOperation;
  }

  lemma SamePlacement(a: seq<Group>, b: seq<Group>, absolute: string -> bool)
    requires SaySame(a, b)
    ensures ReadPlacement(a, absolute) == ReadPlacement(b, absolute)
  {
    hide SaySame, ReadPrefix, ReadScope, One;
    SameReads(a, b, absolute);
  }

  lemma SamePlan(a: seq<Group>, b: seq<Group>, absolute: string -> bool)
    requires SaySame(a, b)
    ensures ReadPlan(a, absolute) == ReadPlan(b, absolute)
  {
    hide SaySame, ReadBundle, ReadPlanIdentity, ReadPlacement, One;
    SameBundle(a, b);
    SameReads(a, b, absolute);
    SamePlacement(a, b, absolute);
  }

  lemma SameProgram(a: seq<Group>, b: seq<Group>, absolute: string -> bool)
    requires SaySame(a, b)
    ensures ReadProgram(a, absolute) == ReadProgram(b, absolute)
  {
    assert ValuesIn(a, SoftwareArtifact) == ValuesIn(b, SoftwareArtifact);
    hide SaySame, ReadPrefix, ValuesIn;
    SameReads(a, b, absolute);
  }

  lemma SameApply(target: string, a: seq<Group>, b: seq<Group>, absolute: string -> bool)
    requires SaySame(a, b)
    ensures ReadApply(target, a, absolute) == ReadApply(target, b, absolute)
  {
    hide SaySame, ReadBundle, ReadApproval, ReadProgram;
    SameBundle(a, b);
    SameReads(a, b, absolute);
    SameProgram(a, b, absolute);
  }

  lemma SameBody(c: Command, target: string, a: seq<Group>, b: seq<Group>, passed: seq<string>,
                 absolute: string -> bool)
    requires SaySame(a, b)
    ensures ReadBody(c, target, a, passed, absolute) == ReadBody(c, target, b, passed, absolute)
  {
    hide SaySame, ReadBundle, ReadPrefix, ReadScope, ReadPlan, ReadApply;
    match c {
      case PlanOperation => SamePlan(a, b, absolute);
      case ApplyOperation => SameApply(target, a, b, absolute);
      case ValidateBundle => SameBundle(a, b);
      case _ => SameReads(a, b, absolute);
    }
  }

  lemma SameUse(c: Command, a: seq<Group>, b: seq<Group>)
    requires SaySame(a, b)
    ensures Exhausted(c, a) <==> Exhausted(c, b)
    ensures (exists f :: f in Required(c) && !Given(a, f)) <==> (exists f :: f in Required(c) && !Given(b, f))
  {
    hide ValuesIn, SwitchCount, Required, Claims;
    forall f
      ensures Used(a, f) <==> Used(b, f)
      ensures Given(a, f) <==> Given(b, f)
    {
    }
    hide Used, Given;
  }

  lemma SameHead(a: seq<Group>, b: seq<Group>)
    requires SaySame(a, b)
    ensures SwitchCount(a, Json) == SwitchCount(b, Json) && Needed(a, Target) == Needed(b, Target)
  {
    hide ValuesIn, SwitchCount;
  }

  lemma SameCall(c: Command, a: seq<Group>, b: seq<Group>, passed: seq<string>, absolute: string -> bool)
    requires SaySame(a, b)
    ensures ReadCall(c, a, passed, absolute) == ReadCall(c, b, passed, absolute)
  {
    hide ReadBody, Needed, SwitchCount, SaySame;
    SameHead(a, b);
    if Needed(a, Target).Ok? {
      SameBody(c, Needed(a, Target).value, a, b, passed, absolute);
    }
  }

  /** A command reads only what the groups say of each flag. */
  lemma SameCommand(c: Command, a: seq<Group>, b: seq<Group>, passed: seq<string>, absolute: string -> bool)
    requires SaySame(a, b)
    ensures ReadCommand(c, a, passed, absolute) == ReadCommand(c, b, passed, absolute)
  {
    hide ReadCall, Given, Required, Exhausted, SaySame;
    SameUse(c, a, b);
    SameCall(c, a, b, passed, absolute);
  }

  lemma {:induction false} InFlatten(groups: seq<Group>, token: string)
    ensures token in Flatten(groups) <==> exists g :: g in groups && token in TokensOf(g)
    decreases |groups|
  {
    hide TokensOf;
    if groups == [] {
      assert forall g :: g !in groups;
      assert Flatten(groups) == [];
    } else {
      InFlatten(groups[1..], token);
      assert token in Flatten(groups) <==> token in TokensOf(groups[0]) || token in Flatten(groups[1..]);
      if token in TokensOf(groups[0]) {
        assert groups[0] in groups;
      } else if token in Flatten(groups[1..]) {
        var g :| g in groups[1..] && token in TokensOf(g);
        assert g in groups;
      } else {
        forall g | g in groups
          ensures token !in TokensOf(g)
        {
          assert g == groups[0] || g in groups[1..];
        }
      }
    }
  }

  /** Groups are clean exactly when each of them is. */
  lemma CleanIff(groups: seq<Group>)
    ensures Clean(groups) <==> forall g :: g in groups ==> Shaped(g) && "--" !in TokensOf(g)
  {
    InFlatten(groups, "--");
    hide Shaped, TokensOf, Flatten;
  }

  lemma PermutedClean(a: seq<Group>, b: seq<Group>)
    requires multiset(a) == multiset(b) && Clean(a)
    ensures Clean(b)
  {
    hide Shaped, TokensOf, Flatten, Clean;
    CleanIff(a);
    CleanIff(b);
    forall g | g in b
      ensures Shaped(g) && "--" !in TokensOf(g)
    {
      assert g in multiset(b);
      assert g in a;
    }
  }

  /**
   Any rearrangement of the flags of a call, keeping the order of artifact
   values, is read the same: the same invocation or the same refusal.
  */
  lemma OrderIndependent(c: Command, a: seq<Group>, b: seq<Group>, tail: seq<string>, absolute: string -> bool)
    requires Clean(a) && multiset(a) == multiset(b)
    requires ValuesIn(a, SoftwareArtifact) == ValuesIn(b, SoftwareArtifact)
    requires tail == [] || tail[0] == "--"
    ensures ParseSpec([CommandName(c)] + Flatten(a) + tail, absolute)
         == ParseSpec([CommandName(c)] + Flatten(b) + tail, absolute)
  {
    hide *;
    PermutedClean(a, b);
    PermutedSaySame(a, b);
    ParsesGroups(c, a, tail, absolute);
    ParsesGroups(c, b, tail, absolute);
    if NoRepeats(a) {
      SameCommand(c, a, b, tail[if tail == [] then 0 else 1..], absolute);
    }
    if c == ProviderInfo {
      FlattenedNothing(a);
      FlattenedNothing(b);
      assert |multiset(a)| == |a| && |multiset(b)| == |b|;
      assert [CommandName(c)] + Flatten(a) + tail == [CommandName(c)] + (Flatten(a) + tail);
      InfoReads(Flatten(a) + tail, absolute);
      InfoReads(Flatten(b) + tail, absolute);
      assert [CommandName(c)] + Flatten(b) + tail == [CommandName(c)] + (Flatten(b) + tail);
    }
  }

  lemma FlattenedNothing(groups: seq<Group>)
    ensures Flatten(groups) == [] <==> groups == []
  {
  }

  lemma InfoReads(rest: seq<string>, absolute: string -> bool)
    ensures ParseSpec([CommandName(ProviderInfo)] + rest, absolute)
         == if rest == [] then Ok(InfoCall) else Err(ProviderUnavailable)
  {
    CommandNameParses(ProviderInfo);
    hide CommandName, ParseCommand;
  }

  lemma LaidOut(groups: seq<Group>, tail: seq<string>)
    requires tail == [] || tail[0] == "--"
    ensures Laid(Flatten(groups) + tail, groups, tail[if tail == [] then 0 else 1..])
  {
    hide Flatten;
    if tail == [] {
      assert Flatten(groups) + tail == Flatten(groups);
    } else {
      assert tail == ["--"] + tail[1..];
      assert Flatten(groups) + tail == Flatten(groups) + ["--"] + tail[1..];
    }
  }

  /** What the parser makes of clean groups and a tail. */
  lemma ParsesGroups(c: Command, groups: seq<Group>, tail: seq<string>, absolute: string -> bool)
    requires Clean(groups) && (tail == [] || tail[0] == "--")
    ensures c != ProviderInfo ==>
              var passed := tail[if tail == [] then 0 else 1..];
              ParseSpec([CommandName(c)] + Flatten(groups) + tail, absolute)
                == if (c != Launch && passed != []) || !NoRepeats(groups) then Err(ProviderUnavailable)
                   else ReadCommand(c, groups, passed, absolute)
  {
    hide Flatten, NoRepeats, ReadCommand, CommandName, ParseSpec, SplitPassthrough, Clean, Laid, GroupsOf;
    var rest := Flatten(groups) + tail;
    assert [CommandName(c)] + Flatten(groups) + tail == [CommandName(c)] + rest;
    assert ([CommandName(c)] + rest)[1..] == rest;
    if c != ProviderInfo {
      ReadRestIs([CommandName(c)] + rest, absolute, c);
      LaidOut(groups, tail);
      LaidIff(rest, groups, tail[if tail == [] then 0 else 1..]);
    }
  }

  // ----- the printer -----

  /** One flag of an invocation as groups. */
  function GroupsUnder(inv: Invocation, f: Flag, size: string): seq<Group> {
    if Switches(inv, f) then [Switched(f)] else ValuedBy(f, Texts(inv, f, size))
  }

  function ValuedBy(f: Flag, values: seq<string>): seq<Group>
    decreases |values|
  {
    if values == [] then [] else [Valued(f, values[0])] + ValuedBy(f, values[1..])
  }

  /** Every flag the contract knows, in the order they are printed. */
  const KNOWN: seq<Flag> := [
    Target, Json, Prefix, OperationFlag, ReleaseDigest, OperationId, ExpiresAt, BackupRef, CaptureMode, RecoveryMode,
    PermissionProfile, SoftwareVersion, Scope, InstructionSection, BundlePath, BundleFormat, BundleDigest,
    ArtifactDigest, BundleSize, PlanPath, PlanDigest, Prepare, Cancel, SoftwareArtifact]

  function GroupsOver(inv: Invocation, order: seq<Flag>, size: string): seq<Group>
    decreases |order|
  {
    if order == [] then [] else GroupsUnder(inv, order[0], size) + GroupsOver(inv, order[1..], size)
  }

  function GroupsFor(inv: Invocation, size: string): seq<Group> {
    GroupsOver(inv, KNOWN, size)
  }

  lemma {:induction false} ValuedByReads(f: Flag, values: seq<string>, g: Flag)
    ensures ValuesIn(ValuedBy(f, values), g) == if f == g then values else []
    ensures SwitchCount(ValuedBy(f, values), g) == 0
    decreases |values|
  {
    if values != [] {
      ValuedByReads(f, values[1..], g);
      assert ValuedBy(f, values)[1..] == ValuedBy(f, values[1..]);
      assert values == [values[0]] + values[1..];
    }
  }

  lemma UnderReads(inv: Invocation, f: Flag, size: string, g: Flag)
    ensures ValuesIn(GroupsUnder(inv, f, size), g) == if f == g then Texts(inv, f, size) else []
    ensures SwitchCount(GroupsUnder(inv, f, size), g) == if f == g && Switches(inv, f) then 1 else 0
  {
    TextsAreFew(inv, size, f);
    hide Texts, Switches;
    if Switches(inv, f) {
      assert [Switched(f)][1..] == [];
    } else {
      ValuedByReads(f, Texts(inv, f, size), g);
    }
  }

  lemma {:induction false} OverReads(inv: Invocation, order: seq<Flag>, size: string, g: Flag)
    requires forall i, j :: 0 <= i < j < |order| ==> order[i] != order[j]
    ensures ValuesIn(GroupsOver(inv, order, size), g) == if g in order then Texts(inv, g, size) else []
    ensures SwitchCount(GroupsOver(inv, order, size), g) == if g in order && Switches(inv, g) then 1 else 0
    decreases |order|
  {
    hide Texts, Switches, GroupsUnder, ValuesIn, SwitchCount;
    if order == [] {
      NothingGiven();
    } else {
      OverReads(inv, order[1..], size, g);
      UnderReads(inv, order[0], size, g);
      CountsAppend(GroupsUnder(inv, order[0], size), GroupsOver(inv, order[1..], size), g);
      assert g in order <==> g == order[0] || g in order[1..];
    }
  }

  lemma KnownIsAll(f: Flag)
    ensures f in KNOWN <==> !f.Other?
  {
    assert KNOWN == [
      Target, Json, Prefix, OperationFlag, ReleaseDigest, OperationId, ExpiresAt, BackupRef, CaptureMode, RecoveryMode,
      PermissionProfile, SoftwareVersion, Scope, InstructionSection, BundlePath, BundleFormat, BundleDigest,
      ArtifactDigest, BundleSize, PlanPath, PlanDigest, Prepare, Cancel, SoftwareArtifact];
  }

  /** Printed groups carry exactly the invocation they were printed from. */
  lemma PrintedCarries(inv: Invocation, size: string)
    requires SpellsSize(inv, size)
    ensures Carries(GroupsFor(inv, size), inv, size)
  {
    hide Texts, Switches, ValuesIn, SwitchCount, GroupsOver, SpellsSize;
    forall f
      ensures ValuesIn(GroupsFor(inv, size), f) == Texts(inv, f, size)
      ensures SwitchCount(GroupsFor(inv, size), f) == if Switches(inv, f) then 1 else 0
    {
      KnownIsAll(f);
      OverReads(inv, KNOWN, size, f);
      OtherSaysNothing(inv, f, size);
    }
  }

  lemma OtherSaysNothing(inv: Invocation, f: Flag, size: string)
    ensures f.Other? ==> Texts(inv, f, size) == [] && !Switches(inv, f)
  {
  }

  /** Every accepted call's groups are a rearrangement of what its invocation prints. */
  lemma AcceptedIsPrinted(tokens: seq<string>, groups: seq<Group>, inv: Invocation, absolute: string -> bool)
    requires Spells(tokens, groups, inv, absolute)
    ensures multiset(groups) == multiset(GroupsFor(inv, Sure(groups, BundleSize)))
  {
    hide Texts, Switches, ValuesIn, SwitchCount, GroupsFor, SpellsSize, Sure, Laid, Clean, Lawful;
    var size := Sure(groups, BundleSize);
    PrintedCarries(inv, size);
    SameIsPermuted(groups, GroupsFor(inv, size));
  }

  // ----- what can be printed -----

  /** A value a flag can be given on a command line. */
  ghost predicate Sayable(value: string) {
    value != "--" && !DashedWord(value)
  }

  /** A value given to a flag is read back exactly when it is not the separator and no dashes with a letter. */
  lemma ValueReadsIff(f: Flag, value: string)
    requires !f.Other? && !IsSwitch(f)
    ensures value != "--" && !DashedWord(value)
       <==> var (mine, passed) := SplitPassthrough([FlagName(f), value]);
            passed == [] && GroupsOf(mine) == Some([Valued(f, value)])
  {
    FlagNameReads(f);
    LooksLikeFlagIff(value);
    hide FlagName, FlagOf, LooksLikeFlag, DashedWord, GroupsOf, SplitPassthrough;
    SplitPair(FlagName(f), value);
    GroupsStep([FlagName(f)]);
    GroupsStep([FlagName(f), value]);
    assert [FlagName(f), value][2..] == [];
    NothingGiven();
    assert [Valued(f, value)] + [] == [Valued(f, value)];
  }

  lemma SplitPair(name: string, value: string)
    requires name != "--"
    ensures SplitPassthrough([name, value]) == if value == "--" then ([name], []) else ([name, value], [])
  {
    assert [name, value][1..] == [value] && [value][1..] == [];
    assert SplitPassthrough([]) == ([], []);
    assert [value] + [] == [value] && [name] + [value] == [name, value] && [name] + [] == [name];
  }

  function SizeText(inv: Invocation): string {
    if BundleOf(inv).Some? then Decimal(BundleOf(inv).value.size) else ""
  }

  /** An invocation that obeys the rules and whose every value can be said. */
  ghost predicate Printable(inv: Invocation, absolute: string -> bool) {
    && Lawful(inv, absolute)
    && (BundleOf(inv).Some? ==> BundleOf(inv).value.size <= U64_MAX)
    && (forall f, v :: f != BundleSize && v in Texts(inv, f, "") ==> Sayable(v))
  }

  function Print(inv: Invocation): seq<string> {
    [CommandName(CommandOf(inv))] + Flatten(GroupsFor(inv, SizeText(inv)))
    + (if inv.LaunchCall? then ["--"] + inv.arguments else [])
  }

  lemma DecimalReads(n: nat)
    requires n <= U64_MAX
    ensures ParseU64(Decimal(n)) == Some(n) && Sayable(Decimal(n))
  {
    DecimalValue(n);
    hide Decimal, Value;
    assert IsDigit(Decimal(n)[0]);
    DashesFirst(Decimal(n));
  }

  lemma DashesFirst(value: string)
    ensures DashedWord(value) ==> value != "" && value[0] == '-'
  {
  }

  /** Which texts are read as a byte count: perhaps a plus, perhaps zeros, then the number itself. */
  lemma ParseU64Iff(text: string, n: nat)
    ensures ParseU64(text) == Some(n)
       <==> n <= U64_MAX && exists sign, zeros: nat :: sign in {"", "+"} && text == sign + Zeros(zeros) + Decimal(n)
  {
    if ParseU64(text) == Some(n) {
      var digits := if |text| > 1 && text[0] == '+' then text[1..] else text;
      var sign := if |text| > 1 && text[0] == '+' then "+" else "";
      var zeros := DigitsAreZerosAnd(digits);
      assert text == sign + digits;
      JoinThree(sign, Zeros(zeros), Decimal(n));
    }
    if n <= U64_MAX {
      forall sign, zeros: nat | sign in {"", "+"} && text == sign + Zeros(zeros) + Decimal(n)
        ensures ParseU64(text) == Some(n)
      {
        SignedReads(text, sign, zeros, n);
      }
    }
  }

  lemma SignedReads(text: string, sign: string, zeros: nat, n: nat)
    requires n <= U64_MAX && sign in {"", "+"} && text == sign + Zeros(zeros) + Decimal(n)
    ensures ParseU64(text) == Some(n)
  {
    DecimalValue(n);
    ZerosValue(zeros, Decimal(n));
    JoinThree(sign, Zeros(zeros), Decimal(n));
    hide Zeros, Decimal, Value;
    var digits := Zeros(zeros) + Decimal(n);
    assert digits != "" && IsDigit(digits[0]);
    if sign == "" {
      assert text == digits;
    } else {
      assert text[1..] == digits && text[0] == '+';
    }
  }

  /** A run of digits is zeros and the decimal text of its value. */
  lemma {:induction false} DigitsAreZerosAnd(digits: string) returns (zeros: nat)
    requires digits != "" && AllDigits(digits)
    ensures digits == Zeros(zeros) + Decimal(Value(digits))
    decreases |digits|
  {
    if |digits| == 1 {
      zeros := 0;
      assert digits[..0] == "";
      DigitOfValue(digits[0]);
      assert digits == "" + [digits[0]];
    } else {
      var head, last := digits[..|digits| - 1], digits[|digits| - 1];
      zeros := DigitsAreZerosAnd(head);
      DigitOfValue(last);
      assert digits == head + [last];
      DecimalGrows(Value(head), DigitValue(last));
      if Value(head) == 0 {
        ZerosGrow(zeros);
        assert digits == Zeros(zeros) + "0" + [last];
        zeros := zeros + 1;
      } else {
        JoinThree(Zeros(zeros), Decimal(Value(head)), [last]);
      }
    }
  }

  lemma DigitOfValue(c: char)
    requires IsDigit(c)
    ensures Digit(DigitValue(c)) == c && Decimal(DigitValue(c)) == [c]
  {
  }

  lemma DecimalGrows(n: nat, d: nat)
    requires d < 10
    ensures Decimal(10 * n + d) == if n == 0 then [Digit(d)] else Decimal(n) + [Digit(d)]
    ensures Decimal(0) == "0"
  {
    assert (10 * n + d) / 10 == n && (10 * n + d) % 10 == d;
  }

  lemma {:induction false} ZerosGrow(k: nat)
    ensures Zeros(k + 1) == Zeros(k) + "0"
    decreases k
  {
    if k > 0 {
      ZerosGrow(k - 1);
    }
  }

  lemma SizeTextSpells(inv: Invocation, absolute: string -> bool)
    requires Printable(inv, absolute)
    ensures SpellsSize(inv, SizeText(inv))
    ensures BundleOf(inv).Some? ==> Sayable(SizeText(inv))
  {
    hide BundleOf, Lawful, Decimal, Texts, ParseU64;
    if BundleOf(inv).Some? {
      DecimalReads(BundleOf(inv).value.size);
    }
  }

  lemma SizeOnlyThere(inv: Invocation, f: Flag, size: string)
    ensures if f == BundleSize then Texts(inv, f, size) == (if BundleOf(inv).Some? then [size] else [])
            else Texts(inv, f, size) == Texts(inv, f, "")
  {
    hide BundleOf, TargetOf, PrefixOf, ScopeOf, ReleaseOf;
  }

  lemma PrintedSayable(inv: Invocation, absolute: string -> bool, f: Flag, v: string)
    requires Printable(inv, absolute) && v in Texts(inv, f, SizeText(inv))
    ensures Sayable(v)
  {
    hide Texts, BundleOf, Lawful, SizeText, Sayable;
    SizeTextSpells(inv, absolute);
    SizeOnlyThere(inv, f, SizeText(inv));
  }

  lemma {:induction false} OccursIsCounted(groups: seq<Group>, g: Group)
    requires g in groups
    ensures g.Switched? ==> SwitchCount(groups, g.flag) > 0
    ensures g.Valued? ==> g.value in ValuesIn(groups, g.flag)
    decreases |groups|
  {
    if g != groups[0] {
      OccursIsCounted(groups[1..], g);
    }
  }

  lemma GroupIsClean(g: Group)
    requires !g.flag.Other? && (g.Switched? <==> IsSwitch(g.flag)) && (g.Valued? ==> Sayable(g.value))
    ensures Shaped(g) && "--" !in TokensOf(g)
  {
    FlagNameReads(g.flag);
    hide FlagName, FlagOf, DashedWord;
  }

  lemma PrintedClean(inv: Invocation, absolute: string -> bool)
    requires Printable(inv, absolute)
    ensures Clean(GroupsFor(inv, SizeText(inv)))
  {
    var size := SizeText(inv);
    var groups := GroupsFor(inv, size);
    hide Texts, Switches, ValuesIn, SwitchCount, GroupsFor, Shaped, TokensOf, Clean, Printable, SizeText, Sayable,
         SpellsSize, IsSwitch;
    SizeTextSpells(inv, absolute);
    PrintedCarries(inv, size);
    forall g | g in groups
      ensures Shaped(g) && "--" !in TokensOf(g)
    {
      OccursIsCounted(groups, g);
      OtherSaysNothing(inv, g.flag, size);
      TextsAreFew(inv, size, g.flag);
      if g.Valued? {
        PrintedSayable(inv, absolute, g.flag, g.value);
      }
      GroupIsClean(g);
    }
    CleanIff(groups);
  }

  lemma CarriedSize(groups: seq<Group>, inv: Invocation, size: string)
    requires Carries(groups, inv, size)
    ensures Carries(groups, inv, Sure(groups, BundleSize))
  {
    hide ValuesIn, SwitchCount, Switches, ParseU64, BundleOf, Texts;
    var sure := Sure(groups, BundleSize);
    SizeOnlyThere(inv, BundleSize, size);
    forall f
      ensures ValuesIn(groups, f) == Texts(inv, f, sure)
    {
      SizeOnlyThere(inv, f, size);
      SizeOnlyThere(inv, f, sure);
    }
  }

  /** Every printable invocation is read back from its printout. */
  lemma PrintParses(inv: Invocation, absolute: string -> bool)
    requires Printable(inv, absolute)
    ensures ParseSpec(Print(inv), absolute) == Ok(inv)
  {
    AcceptsIff(Print(inv), absolute, inv);
    var groups := GroupsFor(inv, SizeText(inv));
    if !inv.InfoCall? {
      PrintSpells(inv, absolute);
      hide *;
      assert Spells(Print(inv), groups, inv, absolute);
      SpelledDenotes(Print(inv), groups, inv, absolute);
    } else {
      InfoPrints();
      hide Print, Texts;
    }
  }

  lemma SpelledDenotes(tokens: seq<string>, groups: seq<Group>, inv: Invocation, absolute: string -> bool)
    requires Spells(tokens, groups, inv, absolute) && !inv.InfoCall?
    ensures Denotes(tokens, inv, absolute)
  {
    hide Spells;
  }

  lemma PrintHead(inv: Invocation)
    ensures Print(inv) != [] && Print(inv)[0] == CommandName(CommandOf(inv))
  {
    hide Flatten, GroupsFor, SizeText, CommandOf, CommandName;
  }

  lemma PrintedCarriesSure(inv: Invocation, absolute: string -> bool)
    requires Printable(inv, absolute)
    ensures Carries(GroupsFor(inv, SizeText(inv)), inv, Sure(GroupsFor(inv, SizeText(inv)), BundleSize))
  {
    hide Carries, GroupsFor, SizeText, Sure, Printable, SpellsSize;
    SizeTextSpells(inv, absolute);
    PrintedCarries(inv, SizeText(inv));
    CarriedSize(GroupsFor(inv, SizeText(inv)), inv, SizeText(inv));
  }

  lemma PrintSpells(inv: Invocation, absolute: string -> bool)
    requires Printable(inv, absolute)
    ensures Spells(Print(inv), GroupsFor(inv, SizeText(inv)), inv, absolute)
  {
    assert Lawful(inv, absolute);
    hide Carries, Clean, GroupsFor, SizeText, Sure, Lawful, Laid, Printable, Print, CommandOf, CommandName, PassedOn;
    PrintHead(inv);
    PrintedClean(inv, absolute);
    PrintedCarriesSure(inv, absolute);
    PrintLaid(inv);
  }

  lemma PrintLaid(inv: Invocation)
    ensures Laid(Print(inv)[1..], GroupsFor(inv, SizeText(inv)), PassedOn(inv))
  {
    hide Flatten, GroupsFor, SizeText, CommandOf, CommandName;
    var flat := Flatten(GroupsFor(inv, SizeText(inv)));
    assert inv.LaunchCall? ==> Print(inv)[1..] == flat + ["--"] + inv.arguments;
    assert !inv.LaunchCall? ==> Print(inv)[1..] == flat;
  }

  lemma InfoHasNoGroups(inv: Invocation)
    requires inv.InfoCall?
    ensures GroupsFor(inv, "") == []
  {
    hide GroupsFor, ValuesIn, SwitchCount, Texts, Switches;
    var groups := GroupsFor(inv, "");
    assert SpellsSize(inv, "");
    PrintedCarries(inv, "");
    if groups != [] {
      var f := groups[0].flag;
      OccursIsCounted(groups, groups[0]);
      TextsOutside(inv, f, "");
    }
  }

  lemma InfoPrints()
    ensures Print(InfoCall) == [CommandName(ProviderInfo)]
  {
    hide GroupsFor, CommandName;
    InfoHasNoGroups(InfoCall);
    assert SizeText(InfoCall) == "";
  }

  /** A section that opens with a fence can be given like any other. */
  lemma FencedSectionParses(inv: Invocation, rest: string, absolute: string -> bool)
    requires inv.PlanCall? && inv.request.section == Some("---" + rest) && Lawful(inv, absolute)
    requires BundleOf(inv).Some? ==> BundleOf(inv).value.size <= U64_MAX
    requires forall f, v :: f != BundleSize && f != InstructionSection && v in Texts(inv, f, "") ==>
               Sayable(v)
    ensures ParseSpec(Print(inv), absolute) == Ok(inv)
  {
    forall f, v | f != BundleSize && v in Texts(inv, f, "")
      ensures Sayable(v)
    {
      if f == InstructionSection {
        FenceIsSayable(rest);
      }
    }
    hide *;
    PrintParses(inv, absolute);
  }

  lemma FenceIsSayable(rest: string)
    ensures Sayable("---" + rest)
  {
    forall c: char, more: string | "---" + rest == "--" + [c] + more
      ensures c == '-'
    {
      assert ("---" + rest)[2] == ("--" + [c] + more)[2];
    }
  }

  // ----- what can be said at all -----

  lemma {:induction false} ValuesOccur(groups: seq<Group>, f: Flag, v: string)
    requires v in ValuesIn(groups, f)
    ensures Valued(f, v) in groups
    decreases |groups|
  {
    if groups[0] != Valued(f, v) {
      ValuesOccur(groups[1..], f, v);
    }
  }

  lemma SpelledSayable(tokens: seq<string>, groups: seq<Group>, inv: Invocation, absolute: string -> bool, f: Flag,
                       v: string)
    requires Spells(tokens, groups, inv, absolute) && f != BundleSize && v in Texts(inv, f, "")
    ensures Sayable(v)
  {
    hide Texts, ValuesIn, SwitchCount, Laid, Clean, Lawful, Sure, SpellsSize;
    SizeOnlyThere(inv, f, Sure(groups, BundleSize));
    ValuesOccur(groups, f, v);
    CleanIff(groups);
    assert Shaped(Valued(f, v)) && "--" !in TokensOf(Valued(f, v));
  }

  lemma SpelledPrintable(tokens: seq<string>, groups: seq<Group>, inv: Invocation, absolute: string -> bool)
    requires Spells(tokens, groups, inv, absolute)
    ensures Printable(inv, absolute)
  {
    hide Texts, ValuesIn, SwitchCount, Laid, Clean, Lawful, Sayable, Value, BundleOf;
    forall f, v | f != BundleSize && v in Texts(inv, f, "")
      ensures Sayable(v)
    {
      SpelledSayable(tokens, groups, inv, absolute, f, v);
    }
  }

  lemma InfoPrintable(absolute: string -> bool)
    ensures Printable(InfoCall, absolute)
  {
    forall f, v | v in Texts(InfoCall, f, "")
      ensures false
    {
    }
  }

  /** An invocation can be asked for by some token list exactly when it is printable. */
  lemma SpeakableIff(inv: Invocation, absolute: string -> bool)
    ensures Printable(inv, absolute) <==> exists tokens :: ParseSpec(tokens, absolute) == Ok(inv)
  {
    hide *;
    if Printable(inv, absolute) {
      PrintParses(inv, absolute);
    }
    if exists tokens :: ParseSpec(tokens, absolute) == Ok(inv) {
      var tokens :| ParseSpec(tokens, absolute) == Ok(inv);
      ParsedPrintable(tokens, inv, absolute);
    }
  }

  lemma ParsedPrintable(tokens: seq<string>, inv: Invocation, absolute: string -> bool)
    requires ParseSpec(tokens, absolute) == Ok(inv)
    ensures Printable(inv, absolute)
  {
    hide ParseSpec, Spells, Printable;
    AcceptsIff(tokens, absolute, inv);
    if inv.InfoCall? {
      InfoPrintable(absolute);
    } else {
      var groups :| Spells(tokens, groups, inv, absolute);
      SpelledPrintable(tokens, groups, inv, absolute);
    }
  }

  /**
   Nothing given is ever ignored: an accepted token list is its invocation's
   printout with the flag groups rearranged, the byte count spelled its own way,
   and perhaps an empty separator at the end.
  */
  lemma NothingIgnored(tokens: seq<string>, inv: Invocation, absolute: string -> bool)
    requires ParseSpec(tokens, absolute) == Ok(inv)
    ensures exists groups, size ::
              && SpellsSize(inv, size) && multiset(groups) == multiset(GroupsFor(inv, size))
              && tokens != [] && tokens[0] == CommandName(CommandOf(inv)) && Laid(tokens[1..], groups, PassedOn(inv))
              && ValuesIn(groups, SoftwareArtifact) == ValuesIn(GroupsFor(inv, size), SoftwareArtifact)
  {
    hide ParseSpec, GroupsFor, Lawful, Clean, Sure, Laid;
    AcceptsIff(tokens, absolute, inv);
    if inv.InfoCall? {
      InfoRearranged(tokens);
    } else {
      var groups :| Spells(tokens, groups, inv, absolute);
      AcceptedIsPrinted(tokens, groups, inv, absolute);
      ArtifactsKept(groups, inv, Sure(groups, BundleSize));
      hide Carries, SpellsSize;
    }
  }

  lemma ArtifactsKept(groups: seq<Group>, inv: Invocation, size: string)
    requires Carries(groups, inv, size)
    ensures SpellsSize(inv, size)
    ensures ValuesIn(groups, SoftwareArtifact) == ValuesIn(GroupsFor(inv, size), SoftwareArtifact)
  {
    hide GroupsFor, ValuesIn, SwitchCount, Texts, Switches, SpellsSize;
    PrintedCarries(inv, size);
  }

  lemma InfoRearranged(tokens: seq<string>)
    requires tokens == [CommandName(ProviderInfo)]
    ensures SpellsSize(InfoCall, "") && tokens[0] == CommandName(CommandOf(InfoCall))
    ensures Laid(tokens[1..], GroupsFor(InfoCall, ""), PassedOn(InfoCall))
  {
    InfoPrints();
    PrintLaid(InfoCall);
    assert SizeText(InfoCall) == "";
    hide GroupsFor, Laid, Print, CommandName;
  }
}
