/**
 Tokens as flag groups, and the table a parser fills from them and a command
 empties again. Groups are the meaning of a token list; the table is how
 crates/provider-v3/src/argv.rs holds it.
*/
module ArgvFlags {
  import opened Wrappers
  import opened Vocabulary

  /** The wire reason of a refusal. */
  datatype Reason = ProviderUnavailable | UnsupportedOperation

  /** One flag as given: a bare switch, or a flag with its value. */
  datatype Group = Switched(flag: Flag) | Valued(flag: Flag, value: string)

  predicate IsSwitch(f: Flag) {
    f == Json || f == Cancel || f == Prepare
  }

  predicate Repeatable(f: Flag) {
    f == SoftwareArtifact
  }

  predicate AsciiAlphabetic(c: char) {
    'a' <= c <= 'z' || 'A' <= c <= 'Z'
  }

  /** Two dashes and a letter: read as a flag even where a value is due. */
  predicate LooksLikeFlag(token: string) {
    |token| >= 3 && token[0] == '-' && token[1] == '-' && AsciiAlphabetic(token[2])
  }

  /** Two dashes, then a letter of the alphabet, then anything. */
  ghost predicate DashedWord(value: string) {
    exists c: char, rest: string :: ('a' <= c <= 'z' || 'A' <= c <= 'Z') && value == "--" + [c] + rest
  }

  lemma LooksLikeFlagIff(token: string)
    ensures LooksLikeFlag(token) <==> DashedWord(token)
  {
    if LooksLikeFlag(token) {
      assert token == "--" + [token[2]] + token[3..];
    }
  }

  // ----- groups and their spelling -----

  function TokensOf(g: Group): (tokens: seq<string>)
    ensures |tokens| > 0
  {
    match g
    case Switched(f) => [FlagName(f)]
    case Valued(f, v) => [FlagName(f), v]
  }

  function Flatten(groups: seq<Group>): seq<string>
    decreases |groups|
  {
    if groups == [] then [] else TokensOf(groups[0]) + Flatten(groups[1..])
  }

  ghost predicate Shaped(g: Group) {
    && FlagOf(FlagName(g.flag)) == g.flag && "--" <= FlagName(g.flag)
    && (g.Switched? <==> IsSwitch(g.flag))
    && (g.Valued? ==> !DashedWord(g.value))
  }

  /** The only way to read a token list as groups. */
  function GroupsOf(tokens: seq<string>): Option<seq<Group>>
    decreases |tokens|
  {
    if tokens == [] then Some([])
    else if !("--" <= tokens[0]) then None
    else
      var f := FlagOf(tokens[0]);
      if IsSwitch(f) then Prepend(Switched(f), GroupsOf(tokens[1..]))
      else if |tokens| < 2 || LooksLikeFlag(tokens[1]) then None
      else Prepend(Valued(f, tokens[1]), GroupsOf(tokens[2..]))
  }

  function Prepend(g: Group, rest: Option<seq<Group>>): Option<seq<Group>> {
    match rest
    case None => None
    case Some(groups) => Some([g] + groups)
  }

  ghost predicate AllShaped(groups: seq<Group>) {
    forall i :: 0 <= i < |groups| ==> Shaped(groups[i])
  }

  /** Reading and spelling are inverse on shaped groups. */
  lemma {:induction false} GroupsAreTokens(tokens: seq<string>)
    requires GroupsOf(tokens).Some?
    ensures AllShaped(GroupsOf(tokens).value) && Flatten(GroupsOf(tokens).value) == tokens
    decreases |tokens|
  {
    hide FlagOf, FlagName, LooksLikeFlag, DashedWord;
    if tokens != [] {
      var f := FlagOf(tokens[0]);
      var skip := if IsSwitch(f) then 1 else 2;
      GroupsAreTokens(tokens[skip..]);
      if skip == 2 {
        LooksLikeFlagIff(tokens[1]);
      }
      var rest := GroupsOf(tokens[skip..]).value;
      var groups := GroupsOf(tokens).value;
      assert groups[1..] == rest;
      assert tokens == tokens[..skip] + tokens[skip..];
      assert TokensOf(groups[0]) == tokens[..skip];
    }
  }

  lemma GroupsStep(tokens: seq<string>)
    requires tokens != []
    ensures !("--" <= tokens[0]) ==> GroupsOf(tokens) == None
    ensures "--" <= tokens[0] && IsSwitch(FlagOf(tokens[0])) ==>
              GroupsOf(tokens) == Prepend(Switched(FlagOf(tokens[0])), GroupsOf(tokens[1..]))
    ensures "--" <= tokens[0] && !IsSwitch(FlagOf(tokens[0])) ==>
              GroupsOf(tokens) == if |tokens| < 2 || LooksLikeFlag(tokens[1]) then None
                                  else Prepend(Valued(FlagOf(tokens[0]), tokens[1]), GroupsOf(tokens[2..]))
  {
  }

  lemma FirstShaped(groups: seq<Group>)
    requires AllShaped(groups) && groups != []
    ensures Shaped(groups[0]) && AllShaped(groups[1..])
  {
    hide Shaped;
  }

  lemma PrependRest(groups: seq<Group>)
    requires groups != []
    ensures Prepend(groups[0], Some(groups[1..])) == Some(groups)
  {
    assert groups == [groups[0]] + groups[1..];
  }

  /** A spelled group is read first. */
  lemma GroupReads(g: Group, rest: seq<string>)
    requires Shaped(g)
    ensures GroupsOf(TokensOf(g) + rest) == Prepend(g, GroupsOf(rest))
  {
    hide FlagOf, FlagName, LooksLikeFlag, DashedWord, GroupsOf;
    if g.Valued? {
      LooksLikeFlagIff(g.value);
    }
    var tokens := TokensOf(g) + rest;
    assert tokens[|TokensOf(g)|..] == rest;
    GroupsStep(tokens);
  }

  lemma {:induction false} FlattenReads(groups: seq<Group>)
    requires AllShaped(groups)
    ensures GroupsOf(Flatten(groups)) == Some(groups)
    decreases |groups|
  {
    if groups != [] {
      assert Flatten(groups) == TokensOf(groups[0]) + Flatten(groups[1..]);
      hide Shaped, AllShaped, GroupsOf, TokensOf, Flatten, Prepend;
      FirstShaped(groups);
      FlattenReads(groups[1..]);
      GroupReads(groups[0], Flatten(groups[1..]));
      PrependRest(groups);
    }
  }

  // ----- what a group list says about each flag -----

  /** The values given for a flag, in order. */
  function ValuesIn(groups: seq<Group>, f: Flag): seq<string>
    decreases |groups|
  {
    if groups == [] then []
    else (if groups[0].Valued? && groups[0].flag == f then [groups[0].value] else []) + ValuesIn(groups[1..], f)
  }

  /** How often a switch was given. */
  function SwitchCount(groups: seq<Group>, f: Flag): nat
    decreases |groups|
  {
    if groups == [] then 0
    else (if groups[0] == Switched(f) then 1 else 0) + SwitchCount(groups[1..], f)
  }

  ghost predicate NoRepeats(groups: seq<Group>) {
    && (forall f :: !Repeatable(f) ==> |ValuesIn(groups, f)| <= 1)
    && (forall f :: SwitchCount(groups, f) <= 1)
  }

  predicate Used(groups: seq<Group>, f: Flag) {
    ValuesIn(groups, f) != [] || SwitchCount(groups, f) > 0
  }

  lemma {:induction false} CountsAppend(a: seq<Group>, b: seq<Group>, f: Flag)
    ensures ValuesIn(a + b, f) == ValuesIn(a, f) + ValuesIn(b, f)
    ensures SwitchCount(a + b, f) == SwitchCount(a, f) + SwitchCount(b, f)
    decreases |a|
  {
    if a == [] {
      assert a + b == b;
    } else {
      var whole, head := a + b, if a[0].Valued? && a[0].flag == f then [a[0].value] else [];
      assert whole[0] == a[0] && whole[1..] == a[1..] + b;
      CountsAppend(a[1..], b, f);
      assert head + (ValuesIn(a[1..], f) + ValuesIn(b, f)) == head + ValuesIn(a[1..], f) + ValuesIn(b, f);
    }
  }

  lemma CountsAppendOne(groups: seq<Group>, g: Group, f: Flag)
    ensures ValuesIn(groups + [g], f) == ValuesIn(groups, f) + (if g.Valued? && g.flag == f then [g.value] else [])
    ensures SwitchCount(groups + [g], f) == SwitchCount(groups, f) + (if g == Switched(f) then 1 else 0)
  {
    CountsAppend(groups, [g], f);
    assert [g][1..] == [];
  }

  /** A repeat in a prefix is a repeat in the whole. */
  lemma RepeatStays(a: seq<Group>, b: seq<Group>)
    requires NoRepeats(a + b)
    ensures NoRepeats(a)
  {
    forall f
      ensures !Repeatable(f) ==> |ValuesIn(a, f)| <= 1
      ensures SwitchCount(a, f) <= 1
    {
      CountsAppend(a, b, f);
      assert |ValuesIn(a + b, f)| >= |ValuesIn(a, f)|;
    }
  }

  // ----- the table -----

  /** The first value of a flag, if it was given. */
  function One(groups: seq<Group>, f: Flag): Option<string> {
    if ValuesIn(groups, f) == [] then None else Some(ValuesIn(groups, f)[0])
  }

  /** A flag's value, or the refusal that it is missing. */
  function Needed(groups: seq<Group>, f: Flag): Result<string, Reason> {
    match One(groups, f)
    case None => Err(ProviderUnavailable)
    case Some(value) => Ok(value)
  }

  /** What `Flags::parse` accepts: groups in which only repeatable flags repeat. */
  ghost function Readable(tokens: seq<string>): Option<seq<Group>> {
    match GroupsOf(tokens)
    case None => None
    case Some(groups) => if NoRepeats(groups) then Some(groups) else None
  }

  /** Switches take no values, and nothing else is a switch. */
  ghost predicate Sorted(groups: seq<Group>) {
    forall f :: if IsSwitch(f) then ValuesIn(groups, f) == [] else SwitchCount(groups, f) == 0
  }

  /** A table that holds exactly what a group list says. */
  ghost predicate Filled(values: map<Flag, seq<string>>, switches: seq<Flag>, groups: seq<Group>) {
    && NoRepeats(groups) && Sorted(groups)
    && (forall f :: f in values <==> ValuesIn(groups, f) != [])
    && (forall f :: f in values ==> values[f] == ValuesIn(groups, f))
    && (forall f :: f in switches <==> SwitchCount(groups, f) > 0)
    && (forall i, j :: 0 <= i < j < |switches| ==> switches[i] != switches[j])
  }

  /**
   The flag table. `groups` is what was given and `taken` what a command has
   claimed so far; the table always holds exactly the rest.
  */
  class Flags {
    var values: map<Flag, seq<string>>
    var switches: seq<Flag>
    ghost const groups: seq<Group>
    ghost var taken: set<Flag>

    ghost predicate Valid()
      reads this
    {
      && NoRepeats(groups) && Sorted(groups)
      && (forall f :: f in values <==> f !in taken && ValuesIn(groups, f) != [])
      && (forall f :: f in values ==> values[f] == ValuesIn(groups, f))
      && (forall f :: f in switches <==> f !in taken && SwitchCount(groups, f) > 0)
      && (forall i, j :: 0 <= i < j < |switches| ==> switches[i] != switches[j])
    }

    constructor (values: map<Flag, seq<string>>, switches: seq<Flag>, ghost groups: seq<Group>)
      requires Filled(values, switches, groups)
      ensures Valid() && this.groups == groups && taken == {}
      ensures this.values == values && this.switches == switches
    {
      this.values := values;
      this.switches := switches;
      this.groups := groups;
      this.taken := {};
    }

    predicate Holds(name: Flag)
      reads this
    {
      if name == Json then name in switches else name in values
    }

    method TakeRepeated(name: Flag) returns (all: seq<string>)
      requires Valid() && name !in taken && !IsSwitch(name)
      modifies this
      ensures Valid() && taken == old(taken) + {name}
      ensures all == ValuesIn(groups, name)
      ensures values == old(values) - {name} && switches == old(switches)
    {
      all := if name in values then values[name] else [];
      values := values - {name};
      taken := taken + {name};
    }

    method TakeOptional(name: Flag) returns (value: Option<string>)
      requires Valid() && name !in taken && !IsSwitch(name)
      modifies this
      ensures Valid() && taken == old(taken) + {name}
      ensures value == One(groups, name)
      ensures values == old(values) - {name} && switches == old(switches)
    {
      value := if name in values && values[name] != [] then Some(values[name][0]) else None;
      values := values - {name};
      taken := taken + {name};
    }

    method TakeRequired(name: Flag) returns (value: Result<string, Reason>)
      requires Valid() && name !in taken && !IsSwitch(name)
      modifies this
      ensures Valid() && taken == old(taken) + {name}
      ensures value == Needed(groups, name)
      ensures values == old(values) - {name} && switches == old(switches)
    {
      var given := TakeOptional(name);
      value := match given case None => Err(ProviderUnavailable) case Some(text) => Ok(text);
    }

    method TakeSwitch(name: Flag) returns (given: bool)
      requires Valid() && name !in taken && IsSwitch(name)
      modifies this
      ensures Valid() && taken == old(taken) + {name}
      ensures given <==> SwitchCount(groups, name) > 0
      ensures values == old(values) && name !in switches
      ensures forall f :: f in old(switches) && f != name ==> f in switches
    {
      given := false;
      for i := 0 to |switches|
        invariant values == old(values) && switches == old(switches) && taken == old(taken)
        invariant !given && name !in switches[..i]
      {
        if switches[i] == name {
          given := true;
          ghost var before := switches;
          switches := switches[..i] + switches[i + 1..];
          RemoveAt(before, i);
          break;
        }
      }
      taken := taken + {name};
    }

    method RequireExhausted() returns (ok: bool)
      requires Valid()
      ensures ok <==> forall f :: Used(groups, f) ==> f in taken
    {
      if values != map[] {
        ghost var f :| f in values;
        assert Used(groups, f) && f !in taken;
        return false;
      }
      if switches != [] {
        assert switches[0] in switches;
        assert Used(groups, switches[0]) && switches[0] !in taken;
        return false;
      }
      forall f | Used(groups, f)
        ensures f in taken
      {
        assert f !in values && f !in switches;
      }
      return true;
    }
  }

  lemma RemoveAt(s: seq<Flag>, i: nat)
    requires i < |s| && forall j, k :: 0 <= j < k < |s| ==> s[j] != s[k]
    ensures var t := s[..i] + s[i + 1..];
            && (forall f :: f in t <==> f in s && f != s[i])
            && (forall j, k :: 0 <= j < k < |t| ==> t[j] != t[k])
  {
    var t := s[..i] + s[i + 1..];
    forall f
      ensures f in t <==> f in s && f != s[i]
    {
      if f in s && f != s[i] {
        var j :| 0 <= j < |s| && s[j] == f;
        assert t[if j < i then j else j - 1] == f;
      }
    }
  }

  /** The index loop: fill the table, refusing a stray value, a missing value or a repeat. */
  method ParseFlags(tokens: seq<string>) returns (flags: Option<Flags>)
    ensures flags.Some? <==> Readable(tokens).Some?
    ensures flags.Some? ==> fresh(flags.value) && flags.value.Valid() && flags.value.taken == {}
                            && Some(flags.value.groups) == Readable(tokens)
  {
    var values: map<Flag, seq<string>> := map[];
    var switches: seq<Flag> := [];
    ghost var done: seq<Group> := [];
    var index := 0;
    assert tokens[0..] == tokens;
    JoinEmpty(GroupsOf(tokens));
    NothingGiven();
    FilledMeans(values, switches, done);
    while index < |tokens|
      invariant 0 <= index <= |tokens|
      invariant GroupsOf(tokens) == Join(done, GroupsOf(tokens[index..]))
      invariant Filled(values, switches, done)
    {
      hide *;
      var token := tokens[index];
      ghost var rest := tokens[index..];
      GroupsStep(rest);
      JoinNothing(done);
      FilledMeans(values, switches, done);
      if !("--" <= token) {
        NothingReadable(tokens);
        return None;
      }
      var name := FlagOf(token);
      if IsSwitch(name) {
        if name in switches {
          RepeatRefused(tokens, done, Switched(name), rest[1..]);
          return None;
        }
        JoinStep(done, Switched(name), GroupsOf(rest[1..]));
        AddSwitch(values, switches, done, name);
        switches := switches + [name];
        done := done + [Switched(name)];
        assert rest[1..] == tokens[index + 1..];
        index := index + 1;
        continue;
      }
      if index + 1 >= |tokens| || LooksLikeFlag(tokens[index + 1]) {
        NothingReadable(tokens);
        return None;
      }
      var value := tokens[index + 1];
      var seen := if name in values then values[name] else [];
      if seen != [] && !Repeatable(name) {
        RepeatRefused(tokens, done, Valued(name, value), rest[2..]);
        return None;
      }
      JoinStep(done, Valued(name, value), GroupsOf(rest[2..]));
      AddValue(values, switches, done, name, value);
      values := values[name := seen + [value]];
      done := done + [Valued(name, value)];
      assert rest[2..] == tokens[index + 2..];
      index := index + 2;
    }
    assert tokens[index..] == [];
    JoinNothing(done);
    var table := new Flags(values, switches, done);
    flags := Some(table);
  }

  lemma NothingReadable(tokens: seq<string>)
    requires GroupsOf(tokens) == None
    ensures Readable(tokens) == None
  {
  }

  lemma FilledMeans(values: map<Flag, seq<string>>, switches: seq<Flag>, done: seq<Group>)
    ensures values == map[] && switches == [] && done == [] ==> Filled(values, switches, done)
    ensures Filled(values, switches, done) ==>
              && NoRepeats(done)
              && (forall f :: f in values <==> ValuesIn(done, f) != [])
              && (forall f :: f in switches <==> SwitchCount(done, f) > 0)
  {
    NothingGiven();
  }

  lemma AddSwitch(values: map<Flag, seq<string>>, switches: seq<Flag>, done: seq<Group>, f: Flag)
    requires Filled(values, switches, done) && f !in switches && IsSwitch(f)
    ensures Filled(values, switches + [f], done + [Switched(f)])
  {
    hide ValuesIn, SwitchCount, NoRepeats;
    AppendGroup(done, Switched(f));
  }

  lemma AddValue(values: map<Flag, seq<string>>, switches: seq<Flag>, done: seq<Group>, f: Flag, value: string)
    requires Filled(values, switches, done) && (f !in values || Repeatable(f)) && !IsSwitch(f)
    ensures var seen := if f in values then values[f] else [];
            Filled(values[f := seen + [value]], switches, done + [Valued(f, value)])
  {
    hide ValuesIn, SwitchCount, NoRepeats;
    AppendGroup(done, Valued(f, value));
  }

  function Join(done: seq<Group>, rest: Option<seq<Group>>): Option<seq<Group>> {
    match rest
    case None => None
    case Some(groups) => Some(done + groups)
  }

  lemma NothingGiven()
    ensures GroupsOf([]) == Some([]) && NoRepeats([])
    ensures forall f :: ValuesIn([], f) == [] && SwitchCount([], f) == 0
  {
    forall f
      ensures ValuesIn([], f) == [] && SwitchCount([], f) == 0
    {
    }
  }

  lemma JoinNothing(done: seq<Group>)
    ensures Join(done, Some([])) == Some(done) && Join(done, None) == None
    ensures forall g :: Prepend(g, None) == None
  {
    assert done + [] == done;
  }

  lemma JoinEmpty(rest: Option<seq<Group>>)
    ensures Join([], rest) == rest
  {
    if rest.Some? {
      assert [] + rest.value == rest.value;
    }
  }

  lemma JoinStep(done: seq<Group>, g: Group, rest: Option<seq<Group>>)
    ensures Join(done, Prepend(g, rest)) == Join(done + [g], rest)
  {
    if rest.Some? {
      assert done + ([g] + rest.value) == done + [g] + rest.value;
    }
  }

  /** What one more group adds, and when it is a repeat. */
  lemma AppendGroup(done: seq<Group>, g: Group)
    requires NoRepeats(done)
    ensures forall f ::
              ValuesIn(done + [g], f) == ValuesIn(done, f) + (if g.Valued? && g.flag == f then [g.value] else [])
    ensures forall f :: SwitchCount(done + [g], f) == SwitchCount(done, f) + (if g == Switched(f) then 1 else 0)
    ensures NoRepeats(done + [g]) <==>
            (if g.Switched? then SwitchCount(done, g.flag) == 0 else Repeatable(g.flag) || ValuesIn(done, g.flag) == [])
  {
    forall f {
      CountsAppendOne(done, g, f);
    }
    assert SwitchCount(done + [g], g.flag) == SwitchCount(done, g.flag) + (if g.Switched? then 1 else 0);
    assert g.Valued? ==> |ValuesIn(done + [g], g.flag)| == |ValuesIn(done, g.flag)| + 1;
  }

  lemma RepeatRefused(tokens: seq<string>, done: seq<Group>, g: Group, rest: seq<string>)
    requires GroupsOf(tokens) == Join(done, Prepend(g, GroupsOf(rest))) && NoRepeats(done)
    requires if g.Switched? then SwitchCount(done, g.flag) > 0 else !Repeatable(g.flag) && ValuesIn(done, g.flag) != []
    ensures Readable(tokens) == None
  {
    AppendGroup(done, g);
    JoinStep(done, g, GroupsOf(rest));
    if GroupsOf(tokens).Some? && NoRepeats(GroupsOf(tokens).value) {
      RepeatStays(done + [g], GroupsOf(rest).value);
    }
  }
}
