/**
 `apply` and `cancel` as the program runs them, with every other caller acting
 between their steps. Whatever the others do, each is a run of the step system.
*/
module SoftwareCalls {
  import opened Wrappers
  import opened Ledgers
  import opened Admission
  import Containment

  /** Whose step it is, if it is a caller's. */
  function By(a: Action): Option<nat> {
    match a
    case Outside(_) => None
    case Reopen(_) => None
    case Direct(_, _) => None
    case _ => Some(a.c)
  }

  /** The steps that only the holder of the writer can take. */
  predicate NeedsWriter(a: Action) {
    !(a.Outside? || a.Reopen? || a.Direct? || a.Arrive? || a.Look? || a.LookFails? || a.CheckValid?
      || a.ComparePrefix? || a.Acquire? || a.Place? || a.Relock? || a.Answer? || a.Leave?)
  }

  lemma OnlyTheWriter(s: State, a: Action)
    requires Inv(s) && Enabled(s, a) && NeedsWriter(a)
    ensures a.c in s.callers && s.writer == Some(a.c)
  {
    hide Inv, Sound, Tracks, InTenure, CanAdmit, SameRest, SameControl;
    InvFacts(s, a.c);
  }

  /** What the holder of the writer can rely on. */
  predicate SameWork(l: Ledger, m: Ledger) {
    m.ops == l.ops && m.journal == l.journal && m.direct == l.direct
  }

  /** A step of a caller that is there, one that arrives, or nobody's. */
  lemma ActorIs(s: State, a: Action)
    requires Enabled(s, a)
    ensures By(a).Some? ==> if a.Arrive? then a.c !in s.callers else a.c in s.callers
    ensures a.Acquire? || a.Relock? || a.Direct? ==> s.writer == None
  {
    hide CanAdmit, SameRest, SameControl, Initial, Undrifted, Housed, Recorded, RecordedAs, StagedFor, InPlaceFor;
  }

  lemma OthersKeepPlace(s: State, a: Action, me: nat)
    requires Enabled(s, a) && By(a) != Some(me) && me in s.callers
    ensures me in After(s, a).callers && After(s, a).callers[me] == s.callers[me]
    ensures s.published ==> After(s, a).published
  {
    hide Enabled, Noted, Admit, Begin, PutInPlace, Discard, Settle, Bury, Meddle, Placed, Found, Seen;
    ActorIs(s, a);
  }

  lemma LockKeeps(s: State, a: Action, me: nat)
    requires Enabled(s, a) && By(a) != Some(me) && (a.Acquire? || a.Relock? || a.Leave?)
    ensures s.writer == Some(me) ==> After(s, a).writer == Some(me) && SameWork(s.ledger, After(s, a).ledger)
    ensures s.writer != Some(me) ==> After(s, a).writer != Some(me)
  {
    hide Enabled, Admit, Begin, PutInPlace, Discard, Settle, Bury, Meddle, Placed, Found, Seen;
    ActorIs(s, a);
  }

  lemma UnlockedKeeps(s: State, a: Action, me: nat)
    requires Enabled(s, a) && By(a) != Some(me) && !NeedsWriter(a) && !(a.Acquire? || a.Relock? || a.Leave?)
    ensures After(s, a).writer == s.writer && (s.writer.Some? ==> SameWork(s.ledger, After(s, a).ledger))
  {
    hide Enabled, Admit, Begin, PutInPlace, Discard, Settle, Bury, Placed, Found, Seen;
    ActorIs(s, a);
  }

  lemma HolderKeeps(s: State, a: Action, me: nat)
    requires Enabled(s, a) && By(a) != Some(me) && NeedsWriter(a) && s.writer != Some(me)
    ensures After(s, a).writer != Some(me)
  {
    hide Enabled, Noted, Admit, Begin, PutInPlace, Discard, Settle, Bury, Meddle, Placed, Found, Seen;
    ActorIs(s, a);
  }

  /** While one caller holds the writer, nobody else changes the record or unfinished work, or takes the writer. */
  lemma WriterExcludes(s: State, a: Action, me: nat)
    requires Inv(s) && Enabled(s, a) && By(a) != Some(me) && me in s.callers
    ensures var t := After(s, a);
            && me in t.callers && t.callers[me] == s.callers[me] && (s.published ==> t.published)
            && (s.writer == Some(me) ==> t.writer == Some(me) && SameWork(s.ledger, t.ledger))
            && (s.writer != Some(me) ==> t.writer != Some(me))
  {
    hide Inv, Enabled, After, SameWork;
    OthersKeepPlace(s, a, me);
    if NeedsWriter(a) {
      OnlyTheWriter(s, a);
      HolderKeeps(s, a, me);
    } else if a.Acquire? || a.Relock? || a.Leave? {
      LockKeeps(s, a, me);
    } else {
      UnlockedKeeps(s, a, me);
    }
  }

  /** The shared prefix, and what everyone else will try to do between one caller's steps. */
  class World {
    var state: State
    var script: seq<seq<Action>>
    ghost const start: State
    ghost var trace: seq<Action>

    ghost predicate Valid()
      reads this
    {
      Inv(start) && Reaches(start, trace, state) && Inv(state)
    }

    constructor (state: State, script: seq<seq<Action>>)
      requires Inv(state)
      ensures Valid() && this.state == state && this.start == state && this.script == script
    {
      this.state := state;
      this.script := script;
      this.start := state;
      this.trace := [];
    }

    method Do(a: Action)
      requires Valid() && Enabled(state, a)
      modifies this
      ensures Valid() && state == After(old(state), a) && script == old(script) && trace == old(trace) + [a]
    {
      hide Inv, Enabled, After, Grew;
      StepKeeps(state, a);
      RunOn(start, trace, state, a);
      state := After(state, a);
      trace := trace + [a];
    }

    /** One batch of the others' steps, each taken if it can be. */
    method Others(me: nat)
      requires Valid() && me in state.callers
      modifies this
      ensures Valid() && old(trace) <= trace && Lasting(old(state.ledger), state.ledger)
      ensures me in state.callers && state.callers[me] == old(state.callers[me])
      ensures old(state.writer) == Some(me) ==> state.writer == Some(me) && SameWork(old(state.ledger), state.ledger)
      ensures old(state.published) ==> state.published
      ensures old(script) == [] ==> script == [] && state == old(state)
      ensures |old(state.ledger.log)| <= |state.ledger.log|
    {
      hide Inv, Enabled, After, Lasting, Grew, Reaches;
      SameLasts(state.ledger);
      if script == [] {
        return;
      }
      var batch := script[0];
      script := script[1..];
      for i := 0 to |batch|
        invariant Valid() && old(trace) <= trace && Lasting(old(state.ledger), state.ledger)
        invariant me in state.callers && state.callers[me] == old(state.callers[me])
        invariant old(state.writer) == Some(me) ==>
                  state.writer == Some(me) && SameWork(old(state.ledger), state.ledger)
        invariant old(state.published) ==> state.published
      {
        var a := batch[i];
        if By(a) != Some(me) && Enabled(state, a) {
          WriterExcludes(state, a, me);
          StepLasts(old(state.ledger), state, a);
          Do(a);
        }
      }
      LastingGrows(old(state.ledger), state.ledger);
    }
  }

  lemma {:induction false} RunOn(s: State, actions: seq<Action>, t: State, a: Action)
    requires Reaches(s, actions, t) && Enabled(t, a)
    ensures Reaches(s, actions + [a], After(t, a))
    decreases |actions|
  {
    hide Enabled, After;
    if actions == [] {
      assert actions + [a] == [a] && [a][1..] == [];
      assert Reaches(After(t, a), [], After(t, a));
    } else {
      assert (actions + [a])[0] == actions[0] && (actions + [a])[1..] == actions[1..] + [a];
      RunOn(After(s, actions[0]), actions[1..], t, a);
    }
  }

  lemma StepLasts(l: Ledger, s: State, a: Action)
    requires Inv(s) && Enabled(s, a) && Lasting(l, s.ledger)
    ensures Lasting(l, After(s, a).ledger)
  {
    hide Inv, Enabled, After, Lasting;
    StepKeeps(s, a);
    GrewLasts(s.ledger, After(s, a).ledger);
    LastingOn(l, s.ledger, After(s, a).ledger);
  }

  lemma LastingGrows(l: Ledger, m: Ledger)
    requires Lasting(l, m)
    ensures |l.log| <= |m.log|
  {
  }

  lemma GrewLasts(l: Ledger, m: Ledger)
    requires Grew(l, m)
    ensures Lasting(l, m)
  {
  }

  // ----- a caller's view -----

  /** The caller is applying a request, at a stage, in a reservation or not. */
  predicate Is(s: State, me: nat, request: Request, reserves: bool, stage: Stage) {
    me in s.callers && s.callers[me] == Caller(request, false, reserves, stage)
  }

  /** The caller is cancelling a request, at a stage. */
  predicate Cancels(s: State, me: nat, request: Request, stage: Stage) {
    me in s.callers && s.callers[me] == Caller(request, true, false, stage)
  }

  /** The caller has come to an answer. */
  predicate Replies(s: State, me: nat, request: Request) {
    me in s.callers && s.callers[me].request == request && s.callers[me].stage.Replying?
  }

  /** What stands at a program's own paths, and the mode of the directory of commands. */
  datatype Program = Program(tree: Node, entry: Node, marker: Node, manifest: Node, mode: nat)

  /**
   What this call brings: whether it can read the record, whether its input is
   verified (for a removal, that it brings none), the program it holds and the count
   of its files, and the working paths it would use. `present` is whether some
   version is installed; `owned` and `launches` are whether what a removal takes away
   is still as it was recorded, and whether the launch entries are that version's.
  */
  datatype Means = Means(
    readable: bool, input: bool, program: Program, files: nat, working: set<string>,
    present: bool, owned: bool, launches: bool)

  // ----- what an effect makes of the prefix -----

  /** The directory of commands is there. */
  function WithPrograms(content: Tree, mode: nat): Tree {
    if PROGRAMS in content then content else content[PROGRAMS := Folder(mode)]
  }

  /** The program in place of whatever stood at its own paths. */
  function WithProgram(content: Tree, intent: Intent, program: Program): Tree {
    WithPrograms(content, program.mode)[ManifestPath(intent) := program.manifest][MarkerPath(intent) := program.marker]
    [EntryPath(intent) := program.entry][intent.version := program.tree]
  }

  /** The version gone with its working paths, and the launch entries if they were its own. */
  function WithoutProgram(content: Tree, intent: Intent, working: set<string>, launches: bool): Tree {
    content - ({intent.version} + working + if launches then LaunchPaths(intent) else {})
  }

  /** What the effect that is begun in a state makes of its prefix. */
  function AfterEffect(s: State, intent: Intent, program: Program): Tree {
    if intent.kind == Remove then WithoutProgram(s.content, intent, Extra(s.ledger), Retracts(s.ledger))
    else WithProgram(s.content, intent, program)
  }

  /** One path holds one thing. */
  predicate Holds(content: Tree, p: string, node: Node) {
    p in content && content[p] == node
  }

  /** The program stands at its paths, the directory of commands is there, and everything else is as before. */
  ghost predicate Puts(before: Tree, after: Tree, intent: Intent, program: Program) {
    && Holds(after, intent.version, program.tree)
    && Holds(after, "bin/" + intent.command + (if intent.script then ".cmd" else ""), program.entry)
    && Holds(after, "bin/." + intent.command + ".version", program.marker)
    && Holds(after, "bin/." + intent.command + ".manifest.json", program.manifest)
    && (intent.version != "bin" && "bin" !in before ==> Holds(after, "bin", Folder(program.mode)))
    && forall p :: !Own(intent, p) && !(p == "bin" && p !in before) ==> SameAt(after, before, p)
  }

  /** The version and its working paths are gone, the launch entries too if they go; the rest is as before. */
  ghost predicate Takes(before: Tree, after: Tree, intent: Intent, working: set<string>, launches: bool) {
    && (forall p :: p in after ==> p != intent.version && p !in working)
    && (launches ==> "bin/" + intent.command + (if intent.script then ".cmd" else "") !in after
                     && "bin/." + intent.command + ".version" !in after
                     && "bin/." + intent.command + ".manifest.json" !in after)
    && forall p :: p != intent.version && p !in working && (launches ==> !Own(intent, p)) ==> SameAt(after, before, p)
  }

  /** A name of one path segment. */
  predicate Leaf(name: string) {
    && name != "" && '/' !in name && '\\' !in name && ':' !in name
    && name[|name| - 1] != '.' && name[|name| - 1] != ' '
  }

  predicate Named(intent: Intent) {
    Leaf(intent.command) && Leaf(intent.version)
  }

  /** A leaf is a name that lands directly beneath any directory, and is the same name on every system. */
  lemma LeafIff(root: seq<string>, name: string)
    ensures Leaf(name)
       <==> && Containment.Lands(root, name) == Some(root + [name])
            && ':' !in name && (name == "" || name[|name| - 1] !in {'.', ' '})
  {
    Containment.DirectlyIff(root, name);
    hide Containment.Lands;
  }

  lemma PathsAre(intent: Intent)
    ensures EntryPath(intent) == "bin/" + intent.command + (if intent.script then ".cmd" else "")
    ensures MarkerPath(intent) == "bin/." + intent.command + ".version"
    ensures ManifestPath(intent) == "bin/." + intent.command + ".manifest.json"
    ensures |EntryPath(intent)| < |MarkerPath(intent)| < |ManifestPath(intent)|
    ensures forall p :: p in LaunchPaths(intent) ==> '/' in p
  {
    assert PROGRAMS + "/" == "bin/" && PROGRAMS + "/." == "bin/.";
    assert EntryPath(intent)[3] == MarkerPath(intent)[3] == ManifestPath(intent)[3] == '/';
  }

  lemma WithProgramPuts(content: Tree, intent: Intent, program: Program)
    requires Named(intent)
    ensures Puts(content, WithProgram(content, intent, program), intent, program)
    ensures OwnPaths(intent) <= WithProgram(content, intent, program).Keys
  {
    PathsAre(intent);
    hide EntryPath, MarkerPath, ManifestPath;
    assert '/' !in intent.version;
  }

  lemma WithoutProgramTakes(content: Tree, intent: Intent, working: set<string>, launches: bool)
    ensures Takes(content, WithoutProgram(content, intent, working, launches), intent, working, launches)
  {
    PathsAre(intent);
    hide EntryPath, MarkerPath, ManifestPath, OwnPaths;
    forall p
      ensures Own(intent, p) <==> p == intent.version || p in LaunchPaths(intent)
    {
    }
  }

  /** An effect touches no path that is neither its own nor recorded. */
  lemma EffectIsOwn(s: State, intent: Intent, program: Program)
    requires Named(intent)
    ensures SameRest(AfterEffect(s, intent, program), s.content, intent, Extra(s.ledger))
    ensures Results(intent, AfterEffect(s, intent, program))
  {
    SameRestIff(AfterEffect(s, intent, program), s.content, intent, Extra(s.ledger));
    hide SameRest;
    if intent.kind == Remove {
      WithoutProgramTakes(s.content, intent, Extra(s.ledger), Retracts(s.ledger));
      hide WithoutProgram, OwnPaths, Own;
    } else {
      WithProgramPuts(s.content, intent, program);
      hide WithProgram, OwnPaths, Own;
    }
  }

  // ----- what a call comes to when nobody else acts -----

  /** The answer a call comes to, if any, and the prefix it leaves. */
  datatype End = End(answer: Option<Outcome>, content: Tree)

  /** A request whose effect has not begun, on its untouched prefix. */
  function FromStart(content: Tree, intent: Intent, means: Means): End {
    if intent.kind == Remove then
      if intent.version !in content then End(Some(Removed(false)), content)
      else if !means.owned then End(None, content)
      else End(Some(Removed(true)), WithoutProgram(content, intent, {}, means.launches))
    else if means.input && 1 <= means.files <= 65_536
    then End(Some(Installed(means.files)), WithProgram(content, intent, means.program))
    else End(None, content)
  }

  /**
   A pending request: nothing if the prefix drifted outside its own paths; what is
   in place if something is; a begun removal finished; else a start from scratch,
   a stage thrown away, if the whole prefix is as it was admitted.
  */
  function FromPending(s: State, intent: Intent, means: Means): End
    requires RecordedAs(s, intent, None)
  {
    if !Undrifted(s, intent) then End(None, s.content)
    else if InPlaceFor(s, intent) then End(Some(Placed(s, intent)), s.content)
    else if StagedFor(s, intent) && intent.kind == Remove then
      if means.owned
      then End(Some(Removed(true)), WithoutProgram(s.content, intent, Extra(s.ledger), Retracts(s.ledger)))
      else End(None, s.content)
    else if (StagedFor(s, intent) || s.ledger.journal == None) && AsBefore(s.content, s.ledger.ops[intent.id].initial)
    then FromStart(s.content, intent, means)
    else End(None, s.content)
  }

  /** A request that may be admitted now. */
  predicate Admissible(s: State, request: Request, means: Means) {
    && CanAdmit(s.ledger, request.intent) && request in s.open && s.content == request.prefix && means.input
    && (request.intent.kind == Update ==> means.present)
  }

  /** An admitted request in a reservation: it is published only untouched, and then starts. */
  function FromReservation(s: State, intent: Intent, means: Means): End
    requires RecordedAs(s, intent, None)
  {
    if Initial(s, intent) && s.ledger.ops[intent.id].missing then FromStart(s.content, intent, means)
    else End(None, s.content)
  }

  /** What a caller that holds the writer comes to. A reservation admits only its first request. */
  function FromHeld(s: State, request: Request, means: Means): End {
    var intent := request.intent;
    if intent.id !in s.ledger.ops then
      if Admissible(s, request, means) && (s.published || s.ledger.ops == map[])
      then FromStart(s.content, intent, means) else End(None, s.content)
    else if !Recorded(s, intent) then End(None, s.content)
    else if s.ledger.ops[intent.id].outcome.Some? then End(s.ledger.ops[intent.id].outcome, s.content)
    else if s.published then FromPending(s, intent, means)
    else FromReservation(s, intent, means)
  }

  /** What a whole call comes to. */
  function Lone(s: State, request: Request, means: Means): End {
    if (request.intent.kind == Remove && !means.input) || !Named(request.intent) then End(None, s.content)
    else FromRead(s, request, means)
  }

  /** What a call with a sound request comes to from its first look at the record. */
  function FromRead(s: State, request: Request, means: Means): End {
    var intent := request.intent;
    if means.readable && Recorded(s, intent) && s.ledger.ops[intent.id].outcome.Some?
    then End(s.ledger.ops[intent.id].outcome, s.content)
    else if && means.readable && intent.id !in s.ledger.ops
            && !(request in s.open && means.input && s.content == request.prefix) then End(None, s.content)
    else if s.writer != None then End(None, s.content)
    else FromHeld(s, request, means)
  }

  /** The caller answers exactly with this, or has no answer. */
  predicate Comes(s: State, me: nat, request: Request, on: bool, expected: Option<Outcome>) {
    match expected
    case None => !on
    case Some(o) => on && Replies(s, me, request) && s.callers[me].stage == Replying(o)
  }

  /** Everything but the caller's own place is as it was. */
  predicate Undisturbed(s: State, t: State) {
    && t.ledger == s.ledger && t.content == s.content && t.open == s.open
    && t.writer == s.writer && t.published == s.published
  }

  /** Everything but the caller's place, the writer and the history is as it was. */
  predicate SameRecord(s: State, t: State) {
    && SameWork(s.ledger, t.ledger) && t.content == s.content && t.open == s.open && t.published == s.published
  }

  lemma SameAdmits(s: State, t: State, intent: Intent)
    requires SameRecord(s, t)
    ensures CanAdmit(s.ledger, intent) <==> CanAdmit(t.ledger, intent)
    ensures CanAdmit(s.ledger, intent) ==> intent.id !in s.ledger.ops
  {
    assert forall id :: Pending(s.ledger, id) <==> Pending(t.ledger, id);
  }

  lemma SamePending(s: State, t: State, intent: Intent, means: Means)
    requires SameRecord(s, t) && RecordedAs(s, intent, None)
    ensures FromPending(s, intent, means) == FromPending(t, intent, means)
  {
    hide SameRest;
  }

  /** The record alone decides. */
  lemma SameHeld(s: State, t: State, request: Request, means: Means)
    requires SameRecord(s, t)
    ensures FromHeld(s, request, means) == FromHeld(t, request, means)
  {
    SameAdmits(s, t, request.intent);
    if RecordedAs(s, request.intent, None) {
      SamePending(s, t, request.intent, means);
    }
    hide CanAdmit, FromPending, FromStart, SameRest;
  }

  lemma StartsFromInitial(s: State, intent: Intent, means: Means)
    requires Initial(s, intent)
    ensures FromPending(s, intent, means) == FromStart(s.content, intent, means)
  {
  }

  // ----- what each step does -----

  /** The step can be taken, and leads the caller to a stage. */
  predicate Leads(s: State, a: Action, me: nat, request: Request, reserves: bool, stage: Stage) {
    Enabled(s, a) && Is(After(s, a), me, request, reserves, stage)
  }

  /** The step keeps everything but the history. */
  predicate LeadsSame(s: State, a: Action, me: nat, request: Request, reserves: bool, stage: Stage) {
    && Leads(s, a, me, request, reserves, stage) && SameRecord(s, After(s, a)) && After(s, a).writer == s.writer
    && |s.ledger.log| <= |After(s, a).ledger.log|
  }

  lemma ArriveStep(s: State, me: nat, request: Request)
    requires me !in s.callers
    ensures var a := Arrive(me, request, false);
            Leads(s, a, me, request, !s.published, Looking) && Undisturbed(s, After(s, a))
  {
  }

  lemma LookStep(s: State, me: nat, request: Request, reserves: bool)
    requires Is(s, me, request, reserves, Looking)
    ensures var a := LookFails(me); Leads(s, a, me, request, reserves, Wanting) && Undisturbed(s, After(s, a))
    ensures var a := Look(me);
            Housed(s, me) ==> Leads(s, a, me, request, reserves, Seen(s, request.intent)) && Undisturbed(s, After(s, a))
  {
  }

  lemma CheckStep(s: State, me: nat, request: Request, reserves: bool)
    ensures Is(s, me, request, reserves, Checking) && request in s.open ==>
              var a := CheckValid(me); Leads(s, a, me, request, reserves, Comparing) && Undisturbed(s, After(s, a))
    ensures Is(s, me, request, reserves, Comparing) && s.content == request.prefix ==>
              var a := ComparePrefix(me); Leads(s, a, me, request, reserves, Wanting) && Undisturbed(s, After(s, a))
  {
  }

  lemma AcquireStep(s: State, me: nat, request: Request, reserves: bool)
    requires s.writer == None && me in s.callers && Housed(s, me)
    ensures var a := Acquire(me);
            Is(s, me, request, reserves, Wanting) ==>
              && Leads(s, a, me, request, reserves, Holding) && SameRecord(s, After(s, a))
              && After(s, a).writer == Some(me)
    ensures var a := Acquire(me);
            Cancels(s, me, request, Wanting) ==>
              && Enabled(s, a) && Cancels(After(s, a), me, request, Holding)
              && SameRecord(s, After(s, a)) && After(s, a).writer == Some(me)
  {
  }

  lemma ConsultStep(s: State, me: nat, request: Request, reserves: bool)
    requires Is(s, me, request, reserves, Holding) && Housed(s, me)
    requires request.intent.id in s.ledger.ops ==> Recorded(s, request.intent)
    ensures var a := Consult(me);
            Leads(s, a, me, request, reserves, Found(s, request.intent)) && Undisturbed(s, After(s, a))
  {
  }

  lemma RecheckStep(s: State, me: nat, request: Request, reserves: bool)
    ensures Is(s, me, request, reserves, Rechecking) && request in s.open ==>
              LeadsSame(s, Recheck(me), me, request, reserves, Recomparing)
    ensures Is(s, me, request, reserves, Recomparing) && s.content == request.prefix ==>
              LeadsSame(s, Recompare(me), me, request, reserves, Ready)
  {
  }

  lemma AdmitStep(s: State, me: nat, request: Request, reserves: bool)
    requires Is(s, me, request, reserves, Ready) && Housed(s, me) && CanAdmit(s.ledger, request.intent)
    requires s.content == request.prefix && (reserves ==> s.ledger.ops == map[])
    ensures var a := AdmitRequest(me);
            && Leads(s, a, me, request, reserves, Resuming) && Initial(After(s, a), request.intent)
            && After(s, a).ledger.ops[request.intent.id].missing == reserves
            && After(s, a).writer == s.writer && After(s, a).published == s.published
            && After(s, a).content == s.content
            && After(s, a).ledger.log == s.ledger.log + [Admitted(me, request)]
  {
  }

  lemma UnlockStep(s: State, me: nat, request: Request)
    requires Is(s, me, request, true, Resuming) && !s.published
    requires Initial(s, request.intent) && s.ledger.ops[request.intent.id].missing
    ensures var a := Unlock(me);
            Leads(s, a, me, request, true, Publishing) && SameRecord(s, After(s, a)) && After(s, a).writer == None
  {
  }

  lemma PlaceStep(s: State, me: nat, request: Request)
    requires Is(s, me, request, true, Publishing) && !s.published
    ensures var a := Place(me);
            && Leads(s, a, me, request, true, Placing) && SameWork(s.ledger, After(s, a).ledger)
            && After(s, a).content == s.content && After(s, a).open == s.open && After(s, a).writer == s.writer
  {
  }

  lemma RelockStep(s: State, me: nat, request: Request)
    requires Is(s, me, request, true, Placing) && s.writer == None && Recorded(s, request.intent)
    ensures var a := Relock(me);
            && Leads(s, a, me, request, false, Found(s, request.intent)) && SameRecord(s, After(s, a))
            && After(s, a).writer == Some(me)
  {
  }

  lemma ReexamineStep(s: State, me: nat, request: Request)
    requires Is(s, me, request, false, Resuming) && Undrifted(s, request.intent)
    ensures LeadsSame(s, Reexamine(me), me, request, false, Reexamined)
  {
    hide SameRest;
  }

  lemma IntactStep(s: State, me: nat, request: Request)
    requires Is(s, me, request, false, Reexamined)
    ensures var a := FindIntact(me);
            Initial(s, request.intent) ==> Leads(s, a, me, request, false, Intact) && Undisturbed(s, After(s, a))
    ensures var a := Roll(me);
            StagedFor(s, request.intent) && request.intent.kind != Remove ==>
              && Leads(s, a, me, request, false, Reexamined) && After(s, a).writer == s.writer
              && After(s, a).ledger.ops == s.ledger.ops && After(s, a).ledger.journal == None
              && After(s, a).ledger.direct == s.ledger.direct && After(s, a).content == s.content
  {
  }

  lemma BeginStep(s: State, me: nat, request: Request, extra: set<string>, retracts: bool)
    requires Is(s, me, request, false, Intact) && Initial(s, request.intent) && extra !! s.content.Keys + {PROGRAMS}
    ensures var a := BeginEffect(me, extra, retracts);
            && Leads(s, a, me, request, false, Working) && StagedFor(After(s, a), request.intent)
            && After(s, a).writer == s.writer && After(s, a).content == s.content
            && Extra(After(s, a).ledger) == extra && Retracts(After(s, a).ledger) == retracts
  {
  }

  lemma EffectStep(s: State, me: nat, request: Request, files: nat, content: Tree, stage: Stage)
    requires Is(s, me, request, false, stage) && StagedFor(s, request.intent)
    requires stage == Working || (stage == Reexamined && request.intent.kind == Remove)
    requires Suits(request.intent.kind, Report(request.intent.kind, files))
    requires SameRest(content, s.content, request.intent, Extra(s.ledger)) && Results(request.intent, content)
    ensures var a := MakeEffect(me, files, content);
            && Leads(s, a, me, request, false, Working) && InPlaceFor(After(s, a), request.intent)
            && Placed(After(s, a), request.intent) == Report(request.intent.kind, files)
            && After(s, a).writer == s.writer && After(s, a).content == content
  {
    hide SameRest, Results;
  }

  lemma FinishStep(s: State, me: nat, request: Request, stage: Stage)
    requires Is(s, me, request, false, stage) && InPlaceFor(s, request.intent)
    requires stage == Working || stage == Reexamined
    ensures Leads(s, Finish(me), me, request, false, Replying(Placed(s, request.intent)))
    ensures After(s, Finish(me)).content == s.content
  {
  }

  lemma NothingStep(s: State, me: nat, request: Request)
    requires Is(s, me, request, false, Intact) && Initial(s, request.intent) && request.intent.kind == Remove
    ensures Leads(s, FindNothing(me), me, request, false, Replying(Removed(false)))
    ensures After(s, FindNothing(me)).content == s.content
  {
  }

  lemma AnswerStep(s: State, me: nat, request: Request)
    requires Replies(s, me, request)
    ensures var a := Answer(me);
            && Enabled(s, a) && me in After(s, a).callers && After(s, a).ledger.ops == s.ledger.ops
            && After(s, a).content == s.content
  {
  }

  lemma LeaveStep(s: State, me: nat)
    requires me in s.callers
    ensures var a := Leave(me);
            && Enabled(s, a) && me !in After(s, a).callers && After(s, a).ledger.ops == s.ledger.ops
            && After(s, a).writer != Some(me) && After(s, a).content == s.content
  {
  }

  lemma CancelNewStep(s: State, me: nat, request: Request)
    requires Cancels(s, me, request, Holding) && request.intent.id !in s.ledger.ops
    ensures var a := CancelUnadmitted(me);
            && Enabled(s, a) && Cancels(After(s, a), me, request, Replying(Cancelled))
            && After(s, a).content == s.content && SameControl(After(s, a), request)
  {
  }

  lemma CancelAgainStep(s: State, me: nat, request: Request)
    requires Cancels(s, me, request, Holding)
    requires RecordedAs(s, request.intent, Some(Cancelled)) && SameControl(s, request)
    ensures var a := CancelAgain(me);
            && Enabled(s, a) && Cancels(After(s, a), me, request, Replying(Cancelled))
            && After(s, a).content == s.content && SameControl(After(s, a), request)
  {
  }

  lemma CancelPendingStep(s: State, me: nat, request: Request)
    requires Cancels(s, me, request, Holding) && Initial(s, request.intent) && NoNewPrograms(s, request.intent)
    requires SameControl(s, request)
    ensures var a := CancelPending(me);
            && Enabled(s, a) && Cancels(After(s, a), me, request, Replying(Cancelled))
            && After(s, a).content == s.content && SameControl(After(s, a), request)
  {
  }

  lemma CancelArriveStep(s: State, me: nat, request: Request)
    requires me !in s.callers && request.intent.kind != Install && s.published
    ensures var a := Arrive(me, request, true);
            Enabled(s, a) && Cancels(After(s, a), me, request, Wanting) && Undisturbed(s, After(s, a))
  {
  }

  lemma ReplyIsRecorded(s: State, me: nat, request: Request)
    requires Inv(s) && Replies(s, me, request)
    ensures RecordedAs(s, request.intent, Some(s.callers[me].stage.outcome))
  {
    hide Inv, Sound, Tracks, InTenure;
    InvFacts(s, me);
  }

  lemma PlacerIsRecorded(s: State, me: nat, request: Request)
    requires Inv(s) && Is(s, me, request, true, Placing)
    ensures Recorded(s, request.intent)
  {
    hide Inv, Sound, Tracks, InTenure, AdmittedAs;
    InvFacts(s, me);
  }

  lemma HomeIsPublished(s: State, me: nat)
    requires Inv(s) && me in s.callers && !s.callers[me].allocates
    ensures s.published && Housed(s, me)
  {
    hide Inv, Sound, Tracks, InTenure, AdmittedAs;
    InvFacts(s, me);
  }

  lemma StrangerHoldsNothing(s: State, me: nat)
    requires Inv(s) && me !in s.callers
    ensures s.writer != Some(me)
  {
    hide Sound, Tracks, CallerFits;
  }

  // ----- apply -----

  /** The answer is what the record says; the caller lets go of everything. */
  method Reply(w: World, me: nat, request: Request) returns (r: Outcome)
    requires w.Valid() && Replies(w.state, me, request)
    modifies w
    ensures w.Valid() && old(w.trace) <= w.trace && me !in w.state.callers && w.state.writer != Some(me)
    ensures RecordedAs(old(w.state), request.intent, Some(r)) && RecordedAs(w.state, request.intent, Some(r))
    ensures old(w.state.callers[me].stage) == Replying(r) && w.state.content == old(w.state.content)
    ensures w.state.ledger.ops == old(w.state.ledger.ops)
  {
    hide Inv, Reaches, Enabled, After;
    ReplyIsRecorded(w.state, me, request);
    r := w.state.callers[me].stage.outcome;
    AnswerStep(w.state, me, request);
    w.Do(Answer(me));
    LeaveStep(w.state, me);
    w.Do(Leave(me));
  }

  method Refuse(w: World, me: nat)
    requires w.Valid() && me in w.state.callers
    modifies w
    ensures w.Valid() && old(w.trace) <= w.trace && me !in w.state.callers && w.state.writer != Some(me)
    ensures w.state.ledger.ops == old(w.state.ledger.ops) && w.state.content == old(w.state.content)
  {
    hide Inv, Reaches, Enabled, After;
    LeaveStep(w.state, me);
    w.Do(Leave(me));
  }

  /** The unlocked read finds the request settled, or finds nothing that forbids going on. */
  predicate ReadsOn(s: State, request: Request, means: Means) {
    || !means.readable || request.intent.id in s.ledger.ops
    || (request in s.open && means.input && s.content == request.prefix)
  }

  /** The read without the writer, and the checks it allows. */
  method ReadFirst(w: World, me: nat, request: Request, reserves: bool, means: Means) returns (on: bool)
    requires w.Valid() && Is(w.state, me, request, reserves, Looking) && Housed(w.state, me)
    modifies w
    ensures w.Valid() && old(w.trace) <= w.trace && me in w.state.callers
    ensures Lasting(old(w.state.ledger), w.state.ledger)
    ensures on ==> Is(w.state, me, request, reserves, Wanting) || Replies(w.state, me, request)
    ensures means.readable ==>
              forall o :: RecordedAs(old(w.state), request.intent, Some(o)) ==>
                on && Replies(w.state, me, request) && w.state.callers[me].stage == Replying(o)
    ensures !means.readable || (forall o :: !RecordedAs(old(w.state), request.intent, Some(o))) ==>
              on ==> Is(w.state, me, request, reserves, Wanting)
    ensures old(w.script) == [] ==>
              w.script == [] && Undisturbed(old(w.state), w.state) && (on <==> ReadsOn(old(w.state), request, means))
  {
    hide Inv, Reaches, CanAdmit, Lasting, Enabled, After;
    SameLasts(w.state.ledger);
    LookStep(w.state, me, request, reserves);
    if !means.readable {
      w.Do(LookFails(me));
      return true;
    }
    w.Do(Look(me));
    if w.state.callers[me].stage != Checking {
      return true;
    }
    on := CheckFirst(w, me, request, reserves, means);
  }

  method CheckFirst(w: World, me: nat, request: Request, reserves: bool, means: Means) returns (on: bool)
    requires w.Valid() && Is(w.state, me, request, reserves, Checking)
    modifies w
    ensures w.Valid() && old(w.trace) <= w.trace && me in w.state.callers
    ensures Lasting(old(w.state.ledger), w.state.ledger)
    ensures on ==> Is(w.state, me, request, reserves, Wanting)
    ensures old(w.script) == [] ==> w.script == [] && Undisturbed(old(w.state), w.state)
    ensures old(w.script) == [] ==>
              (on <==> request in old(w.state.open) && means.input && old(w.state.content) == request.prefix)
  {
    hide Inv, Reaches, CanAdmit, Lasting, Enabled, After;
    SameLasts(w.state.ledger);
    if request !in w.state.open {
      return false;
    }
    CheckStep(w.state, me, request, reserves);
    w.Do(CheckValid(me));
    w.Others(me);
    if !means.input || w.state.content != request.prefix {
      return false;
    }
    CheckStep(w.state, me, request, reserves);
    w.Do(ComparePrefix(me));
    on := true;
  }

  /** Since `from` the caller admitted the request, while it could be admitted and on the prefix it names. */
  ghost predicate AdmittedSince(log: seq<Event>, from: nat, me: nat, request: Request) {
    exists k: nat :: from <= k < |log| && log[k] == Admitted(me, request) && FairlyAdmitted(log, k)
  }

  lemma JustAdmitted(s: State, from: nat, me: nat, request: Request)
    requires Inv(s) && from < |s.ledger.log| && s.ledger.log[|s.ledger.log| - 1] == Admitted(me, request)
    ensures AdmittedSince(s.ledger.log, from, me, request)
  {
    hide FairlyAdmitted, Tracks, CallerFits, Agrees, History;
    AdmissionIsVetted(s.ledger.log, |s.ledger.log| - 1);
  }

  /** Every check of an admission again under the writer. */
  method CheckAgain(w: World, me: nat, request: Request, reserves: bool, means: Means) returns (on: bool)
    requires w.Valid() && Is(w.state, me, request, reserves, Rechecking) && w.state.writer == Some(me)
    modifies w
    ensures w.Valid() && old(w.trace) <= w.trace && me in w.state.callers && w.state.writer == Some(me)
    ensures SameWork(old(w.state.ledger), w.state.ledger) && |old(w.state.ledger.log)| <= |w.state.ledger.log|
    ensures on ==> Is(w.state, me, request, reserves, Ready) && means.input
    ensures on && request.intent.kind == Update ==> means.present
    ensures old(w.script) == [] ==>
              && w.script == [] && w.state.content == old(w.state.content)
              && (on ==> SameRecord(old(w.state), w.state))
    ensures old(w.script) == [] ==>
              (on <==> && request in old(w.state.open) && old(w.state.content) == request.prefix && means.input
                       && (request.intent.kind == Update ==> means.present))
  {
    hide Inv, Reaches, CanAdmit, Enabled, After, Lasting;
    if request !in w.state.open {
      return false;
    }
    RecheckStep(w.state, me, request, reserves);
    w.Do(Recheck(me));
    w.Others(me);
    if w.state.content != request.prefix {
      return false;
    }
    RecheckStep(w.state, me, request, reserves);
    w.Do(Recompare(me));
    w.Others(me);
    on := means.input && (request.intent.kind == Update ==> means.present);
  }

  /** What a reservation or a prefix at its place admits. */
  predicate AdmissibleHere(s: State, request: Request, reserves: bool, means: Means) {
    Admissible(s, request, means) && reserves == !s.published && (reserves ==> s.ledger.ops == map[])
  }

  /** Admission under the writer: every check again, then the durable record. */
  method AdmitUnderWriter(w: World, me: nat, request: Request, reserves: bool, means: Means) returns (on: bool)
    requires w.Valid() && Is(w.state, me, request, reserves, Rechecking) && w.state.writer == Some(me)
    modifies w
    ensures w.Valid() && old(w.trace) <= w.trace && me in w.state.callers && w.state.writer == Some(me)
    ensures on ==> Is(w.state, me, request, reserves, Resuming) && Initial(w.state, request.intent)
    ensures on ==> w.state.ledger.ops[request.intent.id].missing == reserves
    ensures on ==> AdmittedSince(w.state.ledger.log, |old(w.state.ledger.log)|, me, request)
    ensures !on ==> w.state.ledger.ops == old(w.state.ledger.ops)
    ensures old(w.script) == [] ==>
              && w.script == [] && (on <==> AdmissibleHere(old(w.state), request, reserves, means))
              && w.state.content == old(w.state.content) && (on ==> w.state.published == old(w.state.published))
  {
    hide Inv, Reaches, CanAdmit, Enabled, After, AdmittedSince, Lasting;
    ghost var s := w.state;
    var checked := CheckAgain(w, me, request, reserves, means);
    if !checked {
      return false;
    }
    if SameRecord(s, w.state) {
      SameAdmits(s, w.state, request.intent);
    }
    if !Housed(w.state, me) || (reserves && w.state.ledger.ops != map[]) {
      return false;
    }
    if !CanAdmit(w.state.ledger, request.intent) || w.state.content != request.prefix {
      return false;
    }
    AdmitStep(w.state, me, request, reserves);
    w.Do(AdmitRequest(me));
    JustAdmitted(w.state, |s.ledger.log|, me, request);
    on := true;
  }

  /**
   The untouched reservation of an admitted request moves to its place: the writer
   is let go of, the move replaces nothing, and the writer is taken again.
  */
  method Publish(w: World, me: nat, request: Request) returns (on: bool)
    requires w.Valid() && Is(w.state, me, request, true, Resuming) && w.state.writer == Some(me)
    requires RecordedAs(w.state, request.intent, None)
    modifies w
    ensures w.Valid() && old(w.trace) <= w.trace && me in w.state.callers
    ensures on ==> w.state.writer == Some(me) && Is(w.state, me, request, false, Found(w.state, request.intent))
    ensures on ==> Recorded(w.state, request.intent)
    ensures on ==> Initial(old(w.state), request.intent) && old(w.state.ledger.ops)[request.intent.id].missing
    ensures old(w.script) == [] ==> w.script == [] && w.state.content == old(w.state.content)
    ensures old(w.script) == [] && on ==> SameWork(old(w.state.ledger), w.state.ledger)
    ensures old(w.script) == [] ==>
              (on <==> && !old(w.state.published) && Initial(old(w.state), request.intent)
                       && old(w.state.ledger.ops)[request.intent.id].missing)
  {
    hide Inv, Reaches, CanAdmit, Enabled, After, Lasting;
    if w.state.published || !Initial(w.state, request.intent) || !w.state.ledger.ops[request.intent.id].missing {
      return false;
    }
    UnlockStep(w.state, me, request);
    w.Do(Unlock(me));
    w.Others(me);
    if w.state.published {
      return false;
    }
    PlaceStep(w.state, me, request);
    w.Do(Place(me));
    w.Others(me);
    if w.state.writer != None {
      return false;
    }
    PlacerIsRecorded(w.state, me, request);
    RelockStep(w.state, me, request);
    w.Do(Relock(me));
    on := true;
  }

  /** An effect in place becomes the request's outcome, whatever this call brings. */
  method Complete(w: World, me: nat, request: Request)
    requires w.Valid()
    requires Is(w.state, me, request, false, Working) || Is(w.state, me, request, false, Reexamined)
    requires InPlaceFor(w.state, request.intent)
    modifies w
    ensures w.Valid() && old(w.trace) <= w.trace
    ensures Is(w.state, me, request, false, Replying(old(Placed(w.state, request.intent))))
    ensures w.state.content == old(w.state.content)
  {
    hide Inv, Reaches, CanAdmit, Enabled, After;
    FinishStep(w.state, me, request, w.state.callers[me].stage);
    w.Do(Finish(me));
  }

  /** A begun effect goes into place and is reported. */
  method PutAndComplete(w: World, me: nat, request: Request, files: nat, program: Program)
    requires w.Valid() && w.state.writer == Some(me) && StagedFor(w.state, request.intent) && Named(request.intent)
    requires || Is(w.state, me, request, false, Working)
             || (Is(w.state, me, request, false, Reexamined) && request.intent.kind == Remove)
    requires Suits(request.intent.kind, Report(request.intent.kind, files))
    modifies w
    ensures w.Valid() && old(w.trace) <= w.trace
    ensures Is(w.state, me, request, false, Replying(Report(request.intent.kind, files)))
    ensures old(w.script) == [] ==> w.state.content == AfterEffect(old(w.state), request.intent, program)
  {
    hide Inv, Reaches, CanAdmit, Lasting, Enabled, After, SameRest, Results, AfterEffect;
    var content := AfterEffect(w.state, request.intent, program);
    EffectIsOwn(w.state, request.intent, program);
    EffectStep(w.state, me, request, files, content, w.state.callers[me].stage);
    w.Do(MakeEffect(me, files, content));
    w.Others(me);
    Complete(w, me, request);
  }

  /** Working paths at which nothing stands leave a removal as it is. */
  lemma FreshWorking(content: Tree, intent: Intent, working: set<string>, launches: bool)
    requires working !! content.Keys
    ensures WithoutProgram(content, intent, working, launches) == WithoutProgram(content, intent, {}, launches)
  {
    hide LaunchPaths;
    var paths := {intent.version} + if launches then LaunchPaths(intent) else {};
    assert {intent.version} + working + (if launches then LaunchPaths(intent) else {}) == paths + working;
    assert {intent.version} + {} + (if launches then LaunchPaths(intent) else {}) == paths;
    assert (content - (paths + working)).Keys == (content - paths).Keys;
  }

  /** The effect of an admitted request, if its prefix is still untouched. */
  method Effect(w: World, me: nat, request: Request, means: Means) returns (on: bool)
    requires w.Valid() && Is(w.state, me, request, false, Intact) && w.state.writer == Some(me) && Named(request.intent)
    modifies w
    ensures w.Valid() && old(w.trace) <= w.trace && me in w.state.callers
    ensures var end := if Initial(old(w.state), request.intent)
                       then FromStart(old(w.state.content), request.intent, means)
                       else End(None, old(w.state.content));
            && Comes(w.state, me, request, on, end.answer)
            && (old(w.script) == [] ==> w.state.content == end.content)
  {
    hide Inv, Reaches, CanAdmit, Lasting, Enabled, After, WithProgram, WithoutProgram, Named;
    ghost var content := w.state.content;
    if !Initial(w.state, request.intent) {
      return false;
    }
    if request.intent.kind == Remove {
      if request.intent.version !in w.state.content {
        NothingStep(w.state, me, request);
        w.Do(FindNothing(me));
        return true;
      }
      if !means.owned {
        return false;
      }
    } else if !means.input {
      return false;
    }
    var working := means.working - w.state.content.Keys - {PROGRAMS};
    FreshWorking(w.state.content, request.intent, working, means.launches);
    BeginStep(w.state, me, request, working, means.launches);
    w.Do(BeginEffect(me, working, means.launches));
    w.Others(me);
    if !Suits(request.intent.kind, Report(request.intent.kind, means.files)) {
      return false;
    }
    PutAndComplete(w, me, request, means.files, means.program);
    on := true;
  }

  /** Nothing has begun, or what had was thrown away: start if the prefix is untouched. */
  method StartIntact(w: World, me: nat, request: Request, means: Means) returns (on: bool)
    requires w.Valid() && Is(w.state, me, request, false, Reexamined) && w.state.writer == Some(me)
    requires Named(request.intent)
    modifies w
    ensures w.Valid() && old(w.trace) <= w.trace && me in w.state.callers
    ensures on ==> Replies(w.state, me, request)
    ensures old(w.script) == [] ==>
              var end := if Initial(old(w.state), request.intent)
                         then FromStart(old(w.state.content), request.intent, means)
                         else End(None, old(w.state.content));
              Comes(w.state, me, request, on, end.answer) && w.state.content == end.content
  {
    hide Inv, Reaches, CanAdmit, Lasting, Enabled, After, FromStart, Named;
    if !Initial(w.state, request.intent) {
      return false;
    }
    IntactStep(w.state, me, request);
    w.Do(FindIntact(me));
    w.Others(me);
    on := Effect(w, me, request, means);
  }

  /** What is in place, or a begun removal: it is carried to its end whatever the others do. */
  ghost predicate OnlyForward(s: State, intent: Intent) {
    Undrifted(s, intent) && (InPlaceFor(s, intent) || (StagedFor(s, intent) && intent.kind == Remove))
  }

  /**
   What an earlier caller left. If the prefix drifted outside the request's own
   and working paths, or foreign work is unfinished, nothing is done, whatever was
   left; an effect in place is reported and a begun removal finished whatever the
   others do meanwhile.
  */
  method Resume(w: World, me: nat, request: Request, means: Means) returns (on: bool)
    requires w.Valid() && Is(w.state, me, request, false, Resuming) && w.state.writer == Some(me)
    requires RecordedAs(w.state, request.intent, None) && Named(request.intent)
    modifies w
    ensures w.Valid() && old(w.trace) <= w.trace && me in w.state.callers
    ensures on ==> Replies(w.state, me, request)
    ensures !Undrifted(old(w.state), request.intent) ==> !on && w.state == old(w.state)
    ensures OnlyForward(old(w.state), request.intent) ==>
              Comes(w.state, me, request, on, FromPending(old(w.state), request.intent, means).answer)
    ensures old(w.script) == [] ==>
              var end := FromPending(old(w.state), request.intent, means);
              Comes(w.state, me, request, on, end.answer) && w.state.content == end.content
  {
    hide Inv, Reaches, CanAdmit, Lasting, Enabled, After, SameRest, FromStart, WithoutProgram, Named;
    if !Undrifted(w.state, request.intent) {
      return false;
    }
    ReexamineStep(w.state, me, request);
    w.Do(Reexamine(me));
    w.Others(me);
    if InPlaceFor(w.state, request.intent) {
      Complete(w, me, request);
      return true;
    }
    if StagedFor(w.state, request.intent) {
      if request.intent.kind == Remove {
        if !means.owned {
          return false;
        }
        PutAndComplete(w, me, request, 0, means.program);
        return true;
      }
      IntactStep(w.state, me, request);
      w.Do(Roll(me));
      w.Others(me);
    }
    on := StartIntact(w, me, request, means);
  }

  /** A pending request: a reservation is published first, unless that shows it settled meanwhile. */
  method Pursue(w: World, me: nat, request: Request, reserves: bool, means: Means) returns (on: bool)
    requires w.Valid() && Is(w.state, me, request, reserves, Resuming) && w.state.writer == Some(me)
    requires RecordedAs(w.state, request.intent, None) && Named(request.intent)
    modifies w
    ensures w.Valid() && old(w.trace) <= w.trace && me in w.state.callers
    ensures on ==> Replies(w.state, me, request)
    ensures old(w.script) == [] && reserves == !old(w.state.published) ==>
              var end := if reserves then FromReservation(old(w.state), request.intent, means)
                         else FromPending(old(w.state), request.intent, means);
              Comes(w.state, me, request, on, end.answer) && w.state.content == end.content
  {
    hide Inv, Reaches, CanAdmit, Lasting, Enabled, After, SameRest, FromStart, FromPending, Named;
    ghost var s := w.state;
    if reserves {
      var published := Publish(w, me, request);
      if !published {
        return false;
      }
      if w.state.callers[me].stage.Replying? {
        return true;
      }
      if Initial(w.state, request.intent) {
        StartsFromInitial(w.state, request.intent, means);
      }
    }
    on := Resume(w, me, request, means);
  }

  /** What the writer finds, and what follows from it. */
  method UnderWriter(w: World, me: nat, request: Request, reserves: bool, means: Means) returns (on: bool)
    requires w.Valid() && Is(w.state, me, request, reserves, Holding) && w.state.writer == Some(me)
    requires Named(request.intent)
    modifies w
    ensures w.Valid() && old(w.trace) <= w.trace && me in w.state.callers
    ensures on ==> Replies(w.state, me, request)
    ensures forall o :: RecordedAs(old(w.state), request.intent, Some(o)) ==>
              && (on ==> w.state.callers[me].stage == Replying(o))
              && (old(Housed(w.state, me)) ==> on) && w.state.ledger.ops == old(w.state.ledger.ops)
    ensures old(w.script) == [] && reserves == !old(w.state.published) ==>
              var end := FromHeld(old(w.state), request, means);
              Comes(w.state, me, request, on, end.answer) && w.state.content == end.content
  {
    hide Inv, Reaches, CanAdmit, Lasting, Enabled, After, FromStart, FromPending, Named;
    ghost var s := w.state;
    if !Housed(w.state, me) || (request.intent.id in w.state.ledger.ops && !Recorded(w.state, request.intent)) {
      return false;
    }
    ConsultStep(w.state, me, request, reserves);
    w.Do(Consult(me));
    if w.state.callers[me].stage.Replying? {
      return true;
    }
    SameAdmits(s, w.state, request.intent);
    if w.state.callers[me].stage == Rechecking {
      var admitted := AdmitUnderWriter(w, me, request, reserves, means);
      if !admitted {
        return false;
      }
      StartsFromInitial(w.state, request.intent, means);
      w.Others(me);
    } else {
      SamePending(s, w.state, request.intent, means);
    }
    on := Pursue(w, me, request, reserves, means);
  }

  /** Take the writer if it is free, and go on under it. */
  method Proceed(w: World, me: nat, request: Request, reserves: bool, means: Means) returns (on: bool)
    requires w.Valid() && Is(w.state, me, request, reserves, Wanting) && Named(request.intent)
    modifies w
    ensures w.Valid() && old(w.trace) <= w.trace && me in w.state.callers
    ensures on ==> Replies(w.state, me, request)
    ensures forall o :: RecordedAs(old(w.state), request.intent, Some(o)) ==>
              RecordedAs(w.state, request.intent, Some(o))
    ensures old(w.script) == [] && reserves == !old(w.state.published) ==>
              var end := if old(w.state.writer) == None then FromHeld(old(w.state), request, means)
                         else End(None, old(w.state.content));
              Comes(w.state, me, request, on, end.answer) && w.state.content == end.content
  {
    hide Inv, Reaches, CanAdmit, Enabled, After, FromHeld, Named;
    ghost var s := w.state;
    w.Others(me);
    if w.state.writer != None || !Housed(w.state, me) {
      return false;
    }
    AcquireStep(w.state, me, request, reserves);
    w.Do(Acquire(me));
    w.Others(me);
    if SameRecord(s, w.state) {
      SameHeld(s, w.state, request, means);
    }
    on := UnderWriter(w, me, request, reserves, means);
  }

  /** The request has no outcome yet, and its effect is not in place: if it comes to one, this call makes it. */
  predicate Unmade(s: State, intent: Intent) {
    !(Recorded(s, intent) && s.ledger.ops[intent.id].outcome.Some?) && !InPlaceFor(s, intent)
  }

  /** What a call with some answer has made of the prefix, path by path. */
  ghost predicate Leaves(s: State, after: Tree, intent: Intent, means: Means, answer: Option<Outcome>) {
    if !Unmade(s, intent) || answer == None || answer == Some(Cancelled) then after == s.content
    else
      match answer.value
      case Installed(files) =>
        1 <= files <= 65_536 && files == means.files && Puts(s.content, after, intent, means.program)
      case Removed(removed) =>
        if !removed then after == s.content && intent.version !in after
        else if StagedFor(s, intent)
        then Takes(s.content, after, intent, s.ledger.journal.value.extra, s.ledger.journal.value.retracts)
        else intent.version in s.content && Takes(s.content, after, intent, {}, means.launches)
  }

  lemma StartLeaves(s: State, intent: Intent, means: Means)
    requires Named(intent) && Unmade(s, intent) && !(StagedFor(s, intent) && intent.kind == Remove)
    ensures var end := FromStart(s.content, intent, means); Leaves(s, end.content, intent, means, end.answer)
  {
    WithProgramPuts(s.content, intent, means.program);
    WithoutProgramTakes(s.content, intent, {}, means.launches);
    hide WithProgram, WithoutProgram, Puts, Takes, InPlaceFor, Named;
  }

  /** What a lone call comes to is what it leaves. */
  lemma LoneLeaves(s: State, request: Request, means: Means)
    ensures var end := Lone(s, request, means); Leaves(s, end.content, request.intent, means, end.answer)
  {
    var intent := request.intent;
    hide FromStart, Puts, Takes, WithoutProgram, CanAdmit, Undrifted, Named;
    if Named(intent) && Unmade(s, intent) {
      if StagedFor(s, intent) && intent.kind == Remove {
        WithoutProgramTakes(s.content, intent, Extra(s.ledger), Retracts(s.ledger));
      } else {
        StartLeaves(s, intent, means);
      }
    }
  }

  /**
   Apply or resume an exact request. The answer, if there is one, is the record's
   outcome for exactly this intent; a request settled before the call is answered
   with that outcome, or refused if its record cannot be read. When nobody else
   acts, the answer or its absence is exactly what the state and the means
   determine, and the prefix is left with the program at its paths, without it, or
   as it was. The caller always lets go of the writer.
  */
  method Apply(w: World, me: nat, request: Request, means: Means) returns (r: Option<Outcome>)
    requires w.Valid() && me !in w.state.callers
    modifies w
    ensures w.Valid() && old(w.trace) <= w.trace && me !in w.state.callers && w.state.writer != Some(me)
    ensures r.Some? ==> RecordedAs(w.state, request.intent, r)
    ensures forall o :: RecordedAs(old(w.state), request.intent, Some(o)) ==> r == None || r == Some(o)
    ensures means.readable && Named(request.intent) && (request.intent.kind == Remove ==> means.input) ==>
              forall o :: RecordedAs(old(w.state), request.intent, Some(o)) ==> r == Some(o)
    ensures old(w.script) == [] ==> r == Lone(old(w.state), request, means).answer
    ensures old(w.script) == [] ==> Leaves(old(w.state), w.state.content, request.intent, means, r)
  {
    hide Inv, Reaches, CanAdmit, Enabled, After, FromRead, Leaves, Named;
    ghost var s := w.state;
    LoneLeaves(s, request, means);
    if (request.intent.kind == Remove && !means.input) || !Named(request.intent) {
      StrangerHoldsNothing(w.state, me);
      return None;
    }
    var reserves := !w.state.published;
    ArriveStep(w.state, me, request);
    w.Do(Arrive(me, request, false));
    SameRead(s, w.state, request, means);
    var on := FollowThrough(w, me, request, reserves, means);
    if !on {
      Refuse(w, me);
      return None;
    }
    var o := Reply(w, me, request);
    r := Some(o);
  }

  lemma SameRead(s: State, t: State, request: Request, means: Means)
    requires SameRecord(s, t) && t.writer == s.writer
    ensures FromRead(s, request, means) == FromRead(t, request, means)
  {
    SameHeld(s, t, request, means);
    hide FromHeld;
  }

  /** The call of a caller that has arrived, up to its answer. */
  method FollowThrough(w: World, me: nat, request: Request, reserves: bool, means: Means) returns (on: bool)
    requires w.Valid() && Is(w.state, me, request, reserves, Looking) && Housed(w.state, me) && Named(request.intent)
    modifies w
    ensures w.Valid() && old(w.trace) <= w.trace && me in w.state.callers
    ensures on ==> Replies(w.state, me, request)
    ensures forall o :: RecordedAs(old(w.state), request.intent, Some(o)) ==>
              && RecordedAs(w.state, request.intent, Some(o))
              && (means.readable ==> on && w.state.callers[me].stage == Replying(o))
    ensures old(w.script) == [] && reserves == !old(w.state.published) ==>
              var end := FromRead(old(w.state), request, means);
              Comes(w.state, me, request, on, end.answer) && w.state.content == end.content
  {
    hide Inv, Reaches, CanAdmit, Enabled, After, FromHeld, Named;
    ghost var s := w.state;
    on := ReadFirst(w, me, request, reserves, means);
    if on && w.state.callers[me].stage == Wanting {
      if SameRecord(s, w.state) {
        SameHeld(s, w.state, request, means);
      }
      on := Proceed(w, me, request, reserves, means);
    }
  }

  // ----- cancel -----

  /**
   An update or removal, in a prefix that stands at its place, never recorded; or
   recorded there for this control directory and cancelled already or not started,
   with the prefix exactly as it was admitted and no work of anyone unfinished.
  */
  predicate Cancellable(s: State, request: Request) {
    && Named(request.intent) && request.intent.kind != Install && s.published
    && (request.intent.id in s.ledger.ops ==>
          var idle := s.ledger.journal == None && !s.ledger.direct;
          MayCancel(s.ledger.ops[request.intent.id], request, s.content, idle))
  }

  /** A record of this request that may be cancelled in a prefix. */
  predicate MayCancel(entry: Entry, request: Request, content: Tree, idle: bool) {
    && entry.intent == request.intent && entry.control == request.control && !entry.missing
    && (entry.outcome == Some(Cancelled) || (entry.outcome == None && entry.initial == content && idle))
  }

  /**
   The whole call of `cancel`. If it succeeds, the record says cancelled from then
   on; a request settled otherwise before is never cancelled.
  */
  method Cancel(w: World, me: nat, request: Request) returns (ok: bool)
    requires w.Valid() && me !in w.state.callers
    modifies w
    ensures w.Valid() && old(w.trace) <= w.trace && me !in w.state.callers && w.state.writer != Some(me)
    ensures ok ==> RecordedAs(w.state, request.intent, Some(Cancelled))
    ensures ok ==> w.state.ledger.ops[request.intent.id].control == request.control
    ensures request.intent.kind == Install ==> !ok && w.state == old(w.state)
    ensures forall o :: RecordedAs(old(w.state), request.intent, Some(o)) && ok ==> o == Cancelled
    ensures old(w.script) == [] ==> (ok <==> old(w.state.writer) == None && Cancellable(old(w.state), request))
    ensures old(w.script) == [] ==> w.state.content == old(w.state.content)
  {
    hide Inv, Reaches, CanAdmit, Enabled, After, Named, MayCancel;
    if !Named(request.intent) || request.intent.kind == Install || !w.state.published {
      StrangerHoldsNothing(w.state, me);
      return false;
    }
    CancelArriveStep(w.state, me, request);
    w.Do(Arrive(me, request, true));
    ok := CancelAsWriter(w, me, request);
    if !ok {
      Refuse(w, me);
    } else {
      var o := Reply(w, me, request);
    }
  }

  method CancelAsWriter(w: World, me: nat, request: Request) returns (on: bool)
    requires w.Valid() && Cancels(w.state, me, request, Wanting) && request.intent.kind != Install
    requires Named(request.intent)
    modifies w
    ensures w.Valid() && old(w.trace) <= w.trace && me in w.state.callers
    ensures on ==> Cancels(w.state, me, request, Replying(Cancelled)) && SameControl(w.state, request)
    ensures on ==> forall o :: RecordedAs(old(w.state), request.intent, Some(o)) ==> o == Cancelled
    ensures old(w.script) == [] ==> (on <==> old(w.state.writer) == None && Cancellable(old(w.state), request))
    ensures old(w.script) == [] ==> w.state.content == old(w.state.content)
  {
    hide Inv, Reaches, CanAdmit, Enabled, After, Named, MayCancel;
    HomeIsPublished(w.state, me);
    w.Others(me);
    HomeIsPublished(w.state, me);
    if w.state.writer != None {
      return false;
    }
    AcquireStep(w.state, me, request, false);
    w.Do(Acquire(me));
    w.Others(me);
    HomeIsPublished(w.state, me);
    on := CancelUnderWriter(w, me, request);
  }

  method CancelUnderWriter(w: World, me: nat, request: Request) returns (on: bool)
    requires w.Valid() && Cancels(w.state, me, request, Holding) && request.intent.kind != Install && w.state.published
    requires Named(request.intent)
    modifies w
    ensures w.Valid() && old(w.trace) <= w.trace && me in w.state.callers
    ensures on ==> Cancels(w.state, me, request, Replying(Cancelled)) && SameControl(w.state, request)
    ensures on <==> Cancellable(old(w.state), request)
    ensures on ==> forall o :: RecordedAs(old(w.state), request.intent, Some(o)) ==> o == Cancelled
    ensures w.state.content == old(w.state.content)
  {
    hide Inv, Reaches, CanAdmit, Enabled, After, Named;
    if request.intent.id !in w.state.ledger.ops {
      CancelNewStep(w.state, me, request);
      w.Do(CancelUnadmitted(me));
      return true;
    }
    if !Recorded(w.state, request.intent) || !SameControl(w.state, request) {
      return false;
    }
    if RecordedAs(w.state, request.intent, Some(Cancelled)) {
      CancelAgainStep(w.state, me, request);
      w.Do(CancelAgain(me));
      return true;
    }
    if !Initial(w.state, request.intent) || !NoNewPrograms(w.state, request.intent) {
      return false;
    }
    CancelPendingStep(w.state, me, request);
    w.Do(CancelPending(me));
    on := true;
  }
}
