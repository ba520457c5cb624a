/**
 Callers of `apply` and `cancel` in crates/harness-runtime/src/software.rs as one
 step system. Any number of callers interleave, each may stop anywhere, and the
 prefix and the validity of a plan may change between any two steps.
*/
module Admission {
  import opened Wrappers
  import opened Ledgers

  /**
   Where a caller is. The stages from `Holding` to `Working` hold the writer; one
   that publishes a prefix lets go of it in `Publishing` and takes it again after
   `Placing`.
  */
  datatype Stage =
    | Looking | Checking | Comparing | Wanting
    | Holding | Rechecking | Recomparing | Ready | Resuming | Reexamined | Intact | Working
    | Publishing | Placing
    | Replying(outcome: Outcome) | Replied

  /** `allocates` while the caller works in a private reservation for a prefix that was missing when it arrived. */
  datatype Caller = Caller(request: Request, cancels: bool, allocates: bool, stage: Stage)

  /**
   `content` is the prefix as it is now, `published` whether it stands at its
   place, `open` the requests that may still be admitted. Record and writer live
   in the reservation until it is published, and move with it.
  */
  datatype State = State(
    ledger: Ledger, content: Tree, published: bool, open: set<Request>, writer: Option<nat>, callers: map<nat, Caller>)

  datatype Action =
    | Outside(content: Tree)
    | Reopen(open: set<Request>)
    | Direct(content: Tree, unfinished: bool)
    | Arrive(c: nat, request: Request, cancels: bool)
    | Look(c: nat)
    | LookFails(c: nat)
    | CheckValid(c: nat)
    | ComparePrefix(c: nat)
    | Acquire(c: nat)
    | Consult(c: nat)
    | Recheck(c: nat)
    | Recompare(c: nat)
    | AdmitRequest(c: nat)
    | Unlock(c: nat)
    | Place(c: nat)
    | Relock(c: nat)
    | Reexamine(c: nat)
    | FindIntact(c: nat)
    | Roll(c: nat)
    | BeginEffect(c: nat, extra: set<string>, retracts: bool)
    | MakeEffect(c: nat, files: nat, content: Tree)
    | Finish(c: nat)
    | FindNothing(c: nat)
    | CancelPending(c: nat)
    | CancelUnadmitted(c: nat)
    | CancelAgain(c: nat)
    | Answer(c: nat)
    | Leave(c: nat)

  /** The caller is at a stage of applying. */
  predicate At(s: State, c: nat, stage: Stage) {
    c in s.callers && !s.callers[c].cancels && s.callers[c].stage == stage
  }

  /** The caller holds the writer to cancel. */
  predicate Cancelling(s: State, c: nat) {
    c in s.callers && s.callers[c].cancels && s.callers[c].stage == Holding
  }

  function IntentOf(s: State, c: nat): Intent
    requires c in s.callers
  {
    s.callers[c].request.intent
  }

  /** The record of exactly this intent; a reused identifier has none to show. */
  predicate Recorded(s: State, intent: Intent) {
    intent.id in s.ledger.ops && s.ledger.ops[intent.id].intent == intent
  }

  predicate RecordedAs(s: State, intent: Intent, outcome: Option<Outcome>) {
    Recorded(s, intent) && s.ledger.ops[intent.id].outcome == outcome
  }

  /** The admitted effect has not started, no work of anyone is unfinished, and the prefix is as it was admitted. */
  predicate Initial(s: State, intent: Intent) {
    && RecordedAs(s, intent, None) && s.ledger.journal == None && !s.ledger.direct
    && AsBefore(s.content, s.ledger.ops[intent.id].initial)
  }

  /** No program directory has appeared since admission. */
  predicate NoNewPrograms(s: State, intent: Intent)
    requires intent.id in s.ledger.ops
  {
    PROGRAMS in s.ledger.ops[intent.id].initial || PROGRAMS !in s.content
  }

  /** No work but this request's own is unfinished. */
  predicate NothingForeign(s: State, intent: Intent) {
    !s.ledger.direct && (s.ledger.journal.Some? ==> s.ledger.journal.value.id == intent.id)
  }

  /** What the caller reserved, or the prefix it found, is still where its calls go. */
  predicate Housed(s: State, c: nat)
    requires c in s.callers
  {
    s.callers[c].allocates <==> !s.published
  }

  /** The effect of a pending request has begun and is not in place. */
  predicate StagedFor(s: State, intent: Intent) {
    RecordedAs(s, intent, None) && JournalIs(s.ledger, intent.id, Staged)
  }

  /** The effect of a pending request is in place. */
  predicate InPlaceFor(s: State, intent: Intent) {
    RecordedAs(s, intent, None) && PlacedFor(s.ledger, intent.id)
  }

  /** The outcome that effect comes to. */
  function Placed(s: State, intent: Intent): Outcome
    requires InPlaceFor(s, intent)
  {
    Report(intent.kind, s.ledger.journal.value.phase.files)
  }

  /** A pending request with no foreign work, outside whose own and working paths the prefix is as it was admitted. */
  predicate Undrifted(s: State, intent: Intent) {
    && RecordedAs(s, intent, None) && NothingForeign(s, intent)
    && SameRest(s.content, s.ledger.ops[intent.id].initial, intent, Extra(s.ledger))
  }

  /** The record was made for the caller's own control directory, on a prefix that was there. */
  predicate SameControl(s: State, request: Request) {
    var id := request.intent.id;
    id in s.ledger.ops && s.ledger.ops[id].control == request.control && !s.ledger.ops[id].missing
  }

  predicate Enabled(s: State, a: Action) {
    match a
    case Outside(content) => s.published || content == s.content
    case Reopen(_) => true
    case Direct(_, _) =>
      && s.published && s.writer == None && s.ledger.journal == None
      && forall id :: id in s.ledger.ops ==> !Pending(s.ledger, id)
    case Arrive(c, request, cancels) => c !in s.callers && (cancels ==> request.intent.kind != Install && s.published)
    case Look(c) => At(s, c, Looking) && Housed(s, c)
    case LookFails(c) => At(s, c, Looking)
    case CheckValid(c) => At(s, c, Checking) && s.callers[c].request in s.open
    case ComparePrefix(c) => At(s, c, Comparing) && s.content == s.callers[c].request.prefix
    case Acquire(c) => c in s.callers && s.callers[c].stage == Wanting && s.writer == None && Housed(s, c)
    case Consult(c) =>
      At(s, c, Holding) && Housed(s, c) && (IntentOf(s, c).id in s.ledger.ops ==> Recorded(s, IntentOf(s, c)))
    case Recheck(c) => At(s, c, Rechecking) && s.callers[c].request in s.open
    case Recompare(c) => At(s, c, Recomparing) && s.content == s.callers[c].request.prefix
    case AdmitRequest(c) =>
      && At(s, c, Ready) && Housed(s, c) && CanAdmit(s.ledger, IntentOf(s, c))
      && s.content == s.callers[c].request.prefix && (s.callers[c].allocates ==> s.ledger.ops == map[])
    case Unlock(c) =>
      && At(s, c, Resuming) && s.callers[c].allocates && !s.published
      && Initial(s, IntentOf(s, c)) && s.ledger.ops[IntentOf(s, c).id].missing
    case Place(c) => At(s, c, Publishing) && !s.published
    case Relock(c) => At(s, c, Placing) && s.writer == None && Recorded(s, IntentOf(s, c))
    case Reexamine(c) => At(s, c, Resuming) && !s.callers[c].allocates && Undrifted(s, IntentOf(s, c))
    case FindIntact(c) => At(s, c, Reexamined) && Initial(s, IntentOf(s, c))
    case Roll(c) => At(s, c, Reexamined) && StagedFor(s, IntentOf(s, c)) && IntentOf(s, c).kind != Remove
    case BeginEffect(c, extra, _) =>
      At(s, c, Intact) && Initial(s, IntentOf(s, c)) && extra !! s.content.Keys + {PROGRAMS}
    case MakeEffect(c, files, content) =>
      && (At(s, c, Working) || (At(s, c, Reexamined) && IntentOf(s, c).kind == Remove)) && StagedFor(s, IntentOf(s, c))
      && Suits(IntentOf(s, c).kind, Report(IntentOf(s, c).kind, files))
      && SameRest(content, s.content, IntentOf(s, c), Extra(s.ledger)) && Results(IntentOf(s, c), content)
    case Finish(c) => (At(s, c, Working) || At(s, c, Reexamined)) && InPlaceFor(s, IntentOf(s, c))
    case FindNothing(c) => At(s, c, Intact) && IntentOf(s, c).kind == Remove && Initial(s, IntentOf(s, c))
    case CancelPending(c) =>
      Cancelling(s, c) && Initial(s, IntentOf(s, c)) && NoNewPrograms(s, IntentOf(s, c))
      && SameControl(s, s.callers[c].request)
    case CancelUnadmitted(c) => Cancelling(s, c) && IntentOf(s, c).id !in s.ledger.ops
    case CancelAgain(c) =>
      Cancelling(s, c) && RecordedAs(s, IntentOf(s, c), Some(Cancelled)) && SameControl(s, s.callers[c].request)
    case Answer(c) => c in s.callers && s.callers[c].stage.Replying?
    case Leave(c) => c in s.callers
  }

  /** The caller moves on, with what the ledger has become. */
  function Moved(s: State, c: nat, stage: Stage, l: Ledger): State
    requires c in s.callers
  {
    s.(ledger := l, callers := s.callers[c := s.callers[c].(stage := stage)])
  }

  /** The caller works in the published prefix from now on. */
  function InPlaceOf(s: State, c: nat): State
    requires c in s.callers
  {
    s.(callers := s.callers[c := s.callers[c].(allocates := false)])
  }

  /** What the unlocked read makes of the record. */
  function Seen(s: State, intent: Intent): Stage {
    if intent.id !in s.ledger.ops then Checking
    else if Recorded(s, intent) && s.ledger.ops[intent.id].outcome.Some?
    then Replying(s.ledger.ops[intent.id].outcome.value)
    else Wanting
  }

  /** What the writer makes of it. */
  function Found(s: State, intent: Intent): Stage {
    if intent.id !in s.ledger.ops then Rechecking
    else if s.ledger.ops[intent.id].outcome.Some? then Replying(s.ledger.ops[intent.id].outcome.value)
    else Resuming
  }

  function After(s: State, a: Action): State
    requires Enabled(s, a)
  {
    match a
    case Outside(content) => s.(content := content, ledger := Noted(s.ledger, Changed(content)))
    case Reopen(open) => s.(open := open, ledger := Noted(s.ledger, Opened(open)))
    case Direct(content, unfinished) => s.(content := content, ledger := Meddle(s.ledger, content, unfinished))
    case Arrive(c, request, cancels) =>
      s.(callers := s.callers[c := Caller(request, cancels, !s.published, if cancels then Wanting else Looking)])
    case Look(c) => Moved(s, c, Seen(s, IntentOf(s, c)), s.ledger)
    case LookFails(c) => Moved(s, c, Wanting, s.ledger)
    case CheckValid(c) => Moved(s, c, Comparing, s.ledger)
    case ComparePrefix(c) => Moved(s, c, Wanting, s.ledger)
    case Acquire(c) => Moved(s, c, Holding, Noted(s.ledger, Acquired(c))).(writer := Some(c))
    case Consult(c) => Moved(s, c, Found(s, IntentOf(s, c)), s.ledger)
    case Recheck(c) => Moved(s, c, Recomparing, Noted(s.ledger, Valid(c, s.callers[c].request)))
    case Recompare(c) => Moved(s, c, Ready, Noted(s.ledger, Matched(c, s.callers[c].request)))
    case AdmitRequest(c) =>
      Moved(s, c, Resuming, Admit(s.ledger, c, s.callers[c].request, s.content, s.callers[c].allocates))
    case Unlock(c) => Moved(s, c, Publishing, Noted(s.ledger, Released(c))).(writer := None)
    case Place(c) => Moved(s, c, Placing, Noted(s.ledger, Appeared(c, IntentOf(s, c)))).(published := true)
    case Relock(c) =>
      InPlaceOf(Moved(s, c, Found(s, IntentOf(s, c)), Noted(s.ledger, Acquired(c))), c).(writer := Some(c))
    case Reexamine(c) => Moved(s, c, Reexamined, Noted(s.ledger, Resumed(c, IntentOf(s, c), Extra(s.ledger))))
    case FindIntact(c) => Moved(s, c, Intact, s.ledger)
    case Roll(c) => Moved(s, c, Reexamined, Discard(s.ledger))
    case BeginEffect(c, extra, retracts) =>
      Moved(s, c, Working, Begin(s.ledger, c, IntentOf(s, c).id, s.content, extra, retracts))
    case MakeEffect(c, files, content) =>
      Moved(s, c, Working, PutInPlace(s.ledger, c, IntentOf(s, c).id, files, content)).(content := content)
    case Finish(c) =>
      var o := Placed(s, IntentOf(s, c)); Moved(s, c, Replying(o), Settle(s.ledger, c, IntentOf(s, c).id, o))
    case FindNothing(c) => Moved(s, c, Replying(Removed(false)), Settle(s.ledger, c, IntentOf(s, c).id, Removed(false)))
    case CancelPending(c) => Moved(s, c, Replying(Cancelled), Settle(s.ledger, c, IntentOf(s, c).id, Cancelled))
    case CancelUnadmitted(c) => Moved(s, c, Replying(Cancelled), Bury(s.ledger, c, s.callers[c].request, s.content))
    case CancelAgain(c) => Moved(s, c, Replying(Cancelled), s.ledger)
    case Answer(c) =>
      Moved(s, c, Replied, Noted(s.ledger, Answered(c, IntentOf(s, c).id, s.callers[c].stage.outcome)))
    case Leave(c) =>
      if s.writer == Some(c) then s.(ledger := Noted(s.ledger, Released(c)), writer := None, callers := s.callers - {c})
      else s.(callers := s.callers - {c})
  }

  /** A run of any length, over any interleaving. */
  ghost predicate Reaches(s: State, actions: seq<Action>, t: State)
    decreases |actions|
  {
    if actions == [] then t == s
    else Enabled(s, actions[0]) && Reaches(After(s, actions[0]), actions[1..], t)
  }

  /** Before any caller: a prefix with some content, or none yet. */
  function Fresh(content: Tree, published: bool, open: set<Request>): State {
    var log := [Changed(content), Opened(open)] + (if published then [Existing] else []);
    State(Ledger(map[], None, false, log), content, published, open, None, map[])
  }

  // ----- the invariant -----

  predicate Locked(stage: Stage) {
    match stage
    case Looking => false
    case Checking => false
    case Comparing => false
    case Wanting => false
    case Publishing => false
    case Placing => false
    case Replying(_) => false
    case Replied => false
    case _ => true
  }

  ghost predicate CallerFits(s: State, c: nat)
    requires c in s.callers
  {
    var caller := s.callers[c];
    && (caller.cancels ==> caller.request.intent.kind != Install)
    && (Locked(caller.stage) ==> s.writer == Some(c))
    && (caller.stage == Recomparing || caller.stage == Ready ==> InTenure(s.ledger.log, c, Valid(c, caller.request)))
    && (caller.stage == Ready ==> InTenure(s.ledger.log, c, Matched(c, caller.request)))
    && (caller.stage == Reexamined || caller.stage == Intact || caller.stage == Working ==>
          !caller.allocates && FoundIntact(s.ledger.log, c, caller.request.intent))
    && (caller.stage == Publishing || caller.stage == Placing ==>
          AdmittedAs(s.ledger.log, caller.request.intent) && Recorded(s, caller.request.intent))
    && (caller.stage == Placing ==> s.published)
    && (!caller.allocates ==> s.published) && (caller.cancels ==> !caller.allocates)
    && (caller.stage.Replying? ==> RecordedAs(s, caller.request.intent, Some(caller.stage.outcome)))
  }

  /** The writer, the prefix, its place and the open requests are what the history says. */
  ghost predicate Tracks(s: State) {
    && s.writer == Holder(s.ledger.log) && s.content == ContentAt(s.ledger.log) && s.open == OpenAt(s.ledger.log)
    && (s.published <==> HasPlace(s.ledger.log))
  }

  ghost predicate Inv(s: State) {
    && Sound(s.ledger) && Tracks(s)
    && (s.writer.Some? ==> s.writer.value in s.callers)
    && (forall c :: c in s.callers ==> CallerFits(s, c))
  }

  /** What a later ledger still says of every request. */
  ghost predicate Lasting(l: Ledger, m: Ledger) {
    && l.log <= m.log
    && forall id :: id in l.ops ==>
         && id in m.ops && m.ops[id].intent == l.ops[id].intent
         && (l.ops[id].outcome.Some? ==> m.ops[id].outcome == l.ops[id].outcome)
  }

  /** A ledger that grew by at most one event. */
  ghost predicate Grew(l: Ledger, m: Ledger) {
    Lasting(l, m) && |m.log| <= |l.log| + 1
  }

  lemma GrewBy(l: Ledger, m: Ledger)
    requires Grew(l, m)
    ensures m.log == l.log || m.log == l.log + [m.log[|l.log|]]
  {
  }

  lemma AdmittedStays(log: seq<Event>, e: Event, intent: Intent)
    requires AdmittedAs(log, intent)
    ensures AdmittedAs(log + [e], intent)
  {
    MarksGrow(log, e, intent.id, intent);
    hide WasAdmitted;
  }

  /** A caller that does not move still fits, as long as the writer is not taken from it. */
  lemma OthersFit(s: State, t: State, d: nat)
    requires d in s.callers && d in t.callers && t.callers[d] == s.callers[d] && CallerFits(s, d)
    requires Grew(s.ledger, t.ledger) && t.writer == Holder(t.ledger.log) && (s.published ==> t.published)
    requires s.writer == Some(d) ==> t.writer == Some(d)
    ensures CallerFits(t, d)
  {
    hide InTenure, Holder, FoundIntact, AdmittedAs;
    GrewBy(s.ledger, t.ledger);
    var intent := s.callers[d].request.intent;
    if t.ledger.log != s.ledger.log {
      var e := t.ledger.log[|s.ledger.log|];
      if AdmittedAs(s.ledger.log, intent) {
        AdmittedStays(s.ledger.log, e, intent);
      }
      if Locked(s.callers[d].stage) {
        forall past | InTenure(s.ledger.log, d, past)
          ensures InTenure(t.ledger.log, d, past)
        {
          TenureContinues(s.ledger.log, d, past, e);
        }
        if FoundIntact(s.ledger.log, d, intent) {
          FoundContinues(s.ledger.log, d, intent, e);
        }
      }
    }
  }

  /** The shape every step of one caller has. */
  lemma CallerSteps(s: State, t: State, c: nat)
    requires Inv(s) && c in s.callers && Sound(t.ledger) && Tracks(t) && (s.published ==> t.published)
    requires t.callers.Keys == s.callers.Keys && forall d :: d in s.callers && d != c ==> t.callers[d] == s.callers[d]
    requires Grew(s.ledger, t.ledger) && CallerFits(t, c)
    requires || t.writer == s.writer || (s.writer == None && t.writer == Some(c))
             || (s.writer == Some(c) && t.writer == None)
    ensures Inv(t)
  {
    hide Sound, Holder, ContentAt, OpenAt, HasPlace, CallerFits, Grew;
    forall d | d in t.callers
      ensures CallerFits(t, d)
    {
      if d != c {
        OthersFit(s, t, d);
      }
    }
  }

  // ----- steps -----

  lemma MovedIs(s: State, c: nat, stage: Stage, l: Ledger)
    requires c in s.callers
    ensures var t := Moved(s, c, stage, l);
            && t.callers.Keys == s.callers.Keys
            && (forall d :: d in s.callers && d != c ==> t.callers[d] == s.callers[d])
            && t.callers[c] == s.callers[c].(stage := stage) && t.ledger == l && t.writer == s.writer
            && t.content == s.content && t.open == s.open && t.published == s.published
  {
  }

  lemma InvFacts(s: State, c: nat)
    requires Inv(s) && c in s.callers
    ensures CallerFits(s, c) && Sound(s.ledger) && Tracks(s)
  {
    hide Sound, Holder, CallerFits, Tracks;
  }

  /** A ledger that says nothing new of the writer, the prefix or the open requests. */
  ghost predicate Level(l: Ledger, m: Ledger) {
    && Holder(m.log) == Holder(l.log) && ContentAt(m.log) == ContentAt(l.log) && OpenAt(m.log) == OpenAt(l.log)
    && (HasPlace(m.log) <==> HasPlace(l.log))
  }

  lemma LevelAfter(l: Ledger, m: Ledger, e: Event)
    requires m.log == l.log + [e] && !e.Acquired? && !e.Released? && !e.Changed? && !e.Opened? && !e.Effected?
    requires !e.Existing? && !e.Appeared?
    ensures Level(l, m)
  {
    HolderAfter(l.log, e);
    hide Holder, ContentAt, OpenAt, HasPlace;
  }

  lemma MovedKeeps(s: State, c: nat, stage: Stage, l: Ledger)
    requires Inv(s) && c in s.callers && Sound(l) && Level(s.ledger, l) && Grew(s.ledger, l)
    requires CallerFits(Moved(s, c, stage, l), c)
    ensures Inv(Moved(s, c, stage, l))
  {
    hide Holder, ContentAt, OpenAt, HasPlace, Moved, Sound, Grew, CallerFits;
    MovedIs(s, c, stage, l);
    InvFacts(s, c);
    CallerSteps(s, Moved(s, c, stage, l), c);
  }

  lemma NotedGrew(l: Ledger, e: Event)
    ensures Grew(l, Noted(l, e))
  {
  }

  /** Each durable commit grows the ledger. */
  lemma CommitsGrow(l: Ledger, who: nat, request: Request, content: Tree, o: Outcome)
    ensures var id := request.intent.id;
            && (id !in l.ops ==> Grew(l, Bury(l, who, request, content)))
            && (Pending(l, id) ==> Grew(l, Settle(l, who, id, o)))
            && Grew(l, Discard(l))
  {
  }

  lemma AdmitGrew(l: Ledger, who: nat, request: Request, content: Tree, missing: bool)
    requires request.intent.id !in l.ops
    ensures Grew(l, Admit(l, who, request, content, missing))
  {
  }

  lemma EffectsGrow(l: Ledger, who: nat, id: string, content: Tree, files: nat, extra: set<string>, retracts: bool)
    requires id in l.ops
    ensures Grew(l, Begin(l, who, id, content, extra, retracts)) && Grew(l, PutInPlace(l, who, id, files, content))
  {
  }

  lemma SameGrew(l: Ledger)
    ensures Grew(l, l) && Level(l, l)
  {
  }

  lemma ArrivedHolds(s: State, c: nat, caller: Caller)
    requires Inv(s) && c !in s.callers && (caller.stage == Looking || caller.stage == Wanting)
    requires caller.allocates == !s.published
    requires (caller.cancels ==> caller.request.intent.kind != Install && s.published)
    ensures Inv(s.(callers := s.callers[c := caller]))
  {
    hide Sound, Holder, ContentAt, OpenAt, HasPlace, InTenure, FoundIntact, AdmittedAs;
    var t := s.(callers := s.callers[c := caller]);
    forall d | d in t.callers
      ensures CallerFits(t, d)
    {
      if d != c {
        assert CallerFits(s, d);
      }
    }
  }

  lemma ArriveKeeps(s: State, a: Action)
    requires Inv(s) && Enabled(s, a) && a.Arrive?
    ensures Inv(After(s, a)) && Grew(s.ledger, After(s, a).ledger)
  {
    hide Inv;
    SameGrew(s.ledger);
    hide Grew;
    ArrivedHolds(s, a.c, After(s, a).callers[a.c]);
  }

  lemma NobodyMoved(s: State, t: State)
    requires Inv(s) && Sound(t.ledger) && Tracks(t) && Grew(s.ledger, t.ledger)
    requires t.callers == s.callers && t.writer == s.writer && t.published == s.published
    ensures Inv(t)
  {
    hide Sound, Holder, ContentAt, OpenAt, HasPlace, Grew, CallerFits;
    forall c | c in t.callers
      ensures CallerFits(t, c)
    {
      OthersFit(s, t, c);
    }
  }

  lemma InvTracks(s: State)
    requires Inv(s)
    ensures Sound(s.ledger) && Tracks(s)
  {
    hide Sound, Tracks, CallerFits;
  }

  /** Outside changes are part of the history and take the writer from nobody. */
  lemma EnvironmentKeeps(s: State, a: Action)
    requires Inv(s) && Enabled(s, a) && (a.Outside? || a.Reopen?)
    ensures Inv(After(s, a)) && Grew(s.ledger, After(s, a).ledger)
  {
    hide Inv, Sound, Holder, ContentAt, OpenAt, HasPlace, Grew;
    var e := if a.Outside? then Changed(a.content) else Opened(a.open);
    InvTracks(s);
    NotedKeeps(s.ledger, e);
    HolderAfter(s.ledger.log, e);
    NotedGrew(s.ledger, e);
    NobodyMoved(s, After(s, a));
  }

  /** A command given straight to the kernel runs only while no request is active. */
  lemma DirectKeeps(s: State, a: Action)
    requires Inv(s) && Enabled(s, a) && a.Direct?
    ensures Inv(After(s, a)) && Grew(s.ledger, After(s, a).ledger)
  {
    hide Inv, Sound, Holder, ContentAt, OpenAt, HasPlace, Grew;
    InvTracks(s);
    MeddleKeeps(s.ledger, a.content, a.unfinished);
    HolderAfter(s.ledger.log, Changed(a.content));
    MeddleGrew(s.ledger, a.content, a.unfinished);
    NobodyMoved(s, After(s, a));
  }

  lemma MeddleGrew(l: Ledger, content: Tree, unfinished: bool)
    ensures Grew(l, Meddle(l, content, unfinished))
  {
  }

  /** Unfinished work that is no request's own and a pending request never meet. */
  lemma ForeignNeverMeets(s: State, intent: Intent)
    requires Inv(s) && RecordedAs(s, intent, None)
    ensures NothingForeign(s, intent)
  {
    hide Tracks, CallerFits, History;
    SoundFacts(s.ledger, intent.id);
    assert Pending(s.ledger, intent.id);
  }

  /** Steps that change nothing but where the caller is. */
  lemma QuietKeeps(s: State, a: Action)
    requires Inv(s) && Enabled(s, a)
    requires a.LookFails? || a.CheckValid? || a.ComparePrefix? || a.FindIntact?
    ensures Inv(After(s, a)) && Grew(s.ledger, After(s, a).ledger)
  {
    hide Sound, Tracks, InTenure, Grew, Level, Inv;
    var t := After(s, a);
    InvFacts(s, a.c);
    SameGrew(s.ledger);
    MovedKeeps(s, a.c, t.callers[a.c].stage, s.ledger);
  }

  /** Steps that read the record. */
  lemma ReadKeeps(s: State, a: Action)
    requires Inv(s) && Enabled(s, a) && (a.Look? || a.Consult? || a.CancelAgain?)
    ensures Inv(After(s, a)) && Grew(s.ledger, After(s, a).ledger)
  {
    hide Sound, Tracks, InTenure, Grew, Level, Inv;
    var t := After(s, a);
    InvFacts(s, a.c);
    SameGrew(s.ledger);
    MovedKeeps(s, a.c, t.callers[a.c].stage, s.ledger);
  }

  lemma AcquireFits(s: State, c: nat)
    requires Inv(s) && Enabled(s, Acquire(c))
    ensures CallerFits(After(s, Acquire(c)), c)
  {
    hide Sound, Tracks, InTenure, FoundIntact, AdmittedAs;
    InvFacts(s, c);
  }

  lemma AcquireKeeps(s: State, c: nat)
    requires Inv(s) && Enabled(s, Acquire(c))
    ensures Inv(After(s, Acquire(c))) && Grew(s.ledger, After(s, Acquire(c)).ledger)
  {
    hide Sound, Tracks, HasPlace, Grew, Inv, CallerFits, Housed;
    InvFacts(s, c);
    WriterHolds(s);
    AcquireFits(s, c);
    NotedKeeps(s.ledger, Acquired(c));
    OneMoves(s, After(s, Acquire(c)), c, Acquired(c));
  }

  lemma RecheckKeeps(s: State, c: nat)
    requires Inv(s) && Enabled(s, Recheck(c))
    ensures Inv(After(s, Recheck(c))) && Grew(s.ledger, After(s, Recheck(c)).ledger)
  {
    hide Sound, Holder, ContentAt, OpenAt, HasPlace, InTenure, Grew, Level, Inv;
    var t, e := After(s, Recheck(c)), Valid(c, s.callers[c].request);
    InvFacts(s, c);
    NotedKeeps(s.ledger, e);
    LevelAfter(s.ledger, t.ledger, e);
    HolderAfter(s.ledger.log, e);
    TenureStarts(s.ledger.log, c, e);
    NotedGrew(s.ledger, e);
    MovedKeeps(s, c, t.callers[c].stage, t.ledger);
  }

  lemma RecompareKeeps(s: State, c: nat)
    requires Inv(s) && Enabled(s, Recompare(c))
    ensures Inv(After(s, Recompare(c))) && Grew(s.ledger, After(s, Recompare(c)).ledger)
  {
    hide Sound, Holder, ContentAt, OpenAt, HasPlace, InTenure, Grew, Level, Inv;
    var t, e := After(s, Recompare(c)), Matched(c, s.callers[c].request);
    InvFacts(s, c);
    NotedKeeps(s.ledger, e);
    LevelAfter(s.ledger, t.ledger, e);
    HolderAfter(s.ledger.log, e);
    TenureStarts(s.ledger.log, c, e);
    TenureContinues(s.ledger.log, c, Valid(c, s.callers[c].request), e);
    NotedGrew(s.ledger, e);
    MovedKeeps(s, c, t.callers[c].stage, t.ledger);
  }

  lemma AdmitKeepsInv(s: State, c: nat)
    requires Inv(s) && Enabled(s, AdmitRequest(c))
    ensures Inv(After(s, AdmitRequest(c))) && Grew(s.ledger, After(s, AdmitRequest(c)).ledger)
  {
    hide Sound, Holder, ContentAt, OpenAt, HasPlace, InTenure, Grew, Level, Inv;
    var t, request := After(s, AdmitRequest(c)), s.callers[c].request;
    InvFacts(s, c);
    AdmitKeeps(s.ledger, c, request, s.content, s.callers[c].allocates);
    LevelAfter(s.ledger, t.ledger, Admitted(c, request));
    AdmitGrew(s.ledger, c, request, s.content, s.callers[c].allocates);
    MovedKeeps(s, c, t.callers[c].stage, t.ledger);
  }

  /** Everyone but one caller is where it was. */
  ghost predicate OnlyMoves(s: State, t: State, c: nat) {
    && c in s.callers && t.callers.Keys == s.callers.Keys && t.content == s.content && t.open == s.open
    && forall d :: d in s.callers && d != c ==> t.callers[d] == s.callers[d]
  }

  lemma OneMoves(s: State, t: State, c: nat, e: Event)
    requires Inv(s) && OnlyMoves(s, t, c) && t.ledger == Noted(s.ledger, e) && Sound(t.ledger) && CallerFits(t, c)
    requires if e.Acquired? then s.writer == None && t.writer == Some(c) && t.published == s.published
             else if e.Released? then s.writer == Some(c) && t.writer == None && t.published == s.published
             else e.Appeared? && t.writer == s.writer && t.published
    requires e.Acquired? ==> e.who == c
    ensures Inv(t) && Grew(s.ledger, t.ledger)
  {
    hide Sound, Holder, ContentAt, OpenAt, HasPlace, Grew, CallerFits, Inv;
    InvTracks(s);
    HolderAfter(s.ledger.log, e);
    NotedGrew(s.ledger, e);
    CallerSteps(s, t, c);
  }

  /** Letting go of the reservation before it is published. */
  lemma UnlockedHolds(s: State, c: nat)
    requires Inv(s) && c in s.callers && !s.callers[c].cancels && s.callers[c].stage == Resuming
    requires s.callers[c].allocates && RecordedAs(s, IntentOf(s, c), None)
    ensures var t := Moved(s, c, Publishing, Noted(s.ledger, Released(c))).(writer := None);
            Inv(t) && Grew(s.ledger, t.ledger)
  {
    hide Sound, Tracks, InTenure, FoundIntact, Grew, Inv, WasAdmitted;
    InvFacts(s, c);
    WriterHolds(s);
    PendingAdmitted(s, IntentOf(s, c));
    AdmittedStays(s.ledger.log, Released(c), IntentOf(s, c));
    NotedKeeps(s.ledger, Released(c));
    OneMoves(s, Moved(s, c, Publishing, Noted(s.ledger, Released(c))).(writer := None), c, Released(c));
  }

  lemma UnlockKeeps(s: State, c: nat)
    requires Inv(s) && Enabled(s, Unlock(c))
    ensures Inv(After(s, Unlock(c))) && Grew(s.ledger, After(s, Unlock(c)).ledger)
  {
    hide Inv, Grew, Moved;
    UnlockedHolds(s, c);
  }

  lemma WriterHolds(s: State)
    requires Inv(s)
    ensures Holder(s.ledger.log) == s.writer && (HasPlace(s.ledger.log) <==> s.published)
  {
    hide Sound, Holder, ContentAt, OpenAt, HasPlace, CallerFits;
  }

  lemma PlacedHolds(s: State, c: nat)
    requires Inv(s) && c in s.callers && !s.callers[c].cancels && s.callers[c].stage == Publishing && !s.published
    ensures var t := Moved(s, c, Placing, Noted(s.ledger, Appeared(c, IntentOf(s, c)))).(published := true);
            Inv(t) && Grew(s.ledger, t.ledger)
  {
    hide Sound, Tracks, HasPlace, InTenure, FoundIntact, Grew, Inv, AdmittedAs;
    var e := Appeared(c, IntentOf(s, c));
    InvFacts(s, c);
    WriterHolds(s);
    AdmittedStays(s.ledger.log, e, IntentOf(s, c));
    NotedKeeps(s.ledger, e);
    OneMoves(s, Moved(s, c, Placing, Noted(s.ledger, e)).(published := true), c, e);
  }

  lemma PlaceKeeps(s: State, c: nat)
    requires Inv(s) && Enabled(s, Place(c))
    ensures Inv(After(s, Place(c))) && Grew(s.ledger, After(s, Place(c)).ledger)
  {
    hide Inv, Grew, Moved;
    PlacedHolds(s, c);
  }

  lemma RelockKeeps(s: State, c: nat)
    requires Inv(s) && Enabled(s, Relock(c))
    ensures Inv(After(s, Relock(c))) && Grew(s.ledger, After(s, Relock(c)).ledger)
  {
    hide Sound, Tracks, HasPlace, InTenure, FoundIntact, Grew, Inv, AdmittedAs;
    InvFacts(s, c);
    WriterHolds(s);
    NotedKeeps(s.ledger, Acquired(c));
    OneMoves(s, After(s, Relock(c)), c, Acquired(c));
  }

  /** The record of a pending request says what it was admitted on. */
  lemma PendingAdmitted(s: State, intent: Intent)
    requires Sound(s.ledger) && RecordedAs(s, intent, None)
    ensures WasAdmitted(s.ledger.log, intent, s.ledger.ops[intent.id].initial)
  {
    SoundFacts(s.ledger, intent.id);
    hide Sound, WasAdmitted, WasEffected, WasSettled, WasBegun;
  }

  /** What a begun effect recorded is in the history. */
  lemma ExtraBegun(s: State, intent: Intent)
    requires Sound(s.ledger) && RecordedAs(s, intent, None) && NothingForeign(s, intent)
    ensures Extra(s.ledger) == {} || WasBegun(s.ledger.log, intent, Extra(s.ledger))
  {
    SoundFacts(s.ledger, intent.id);
    hide Sound, WasAdmitted, WasEffected, WasSettled, WasBegun;
  }

  lemma FoundStarts(log: seq<Event>, who: nat, intent: Intent, extra: set<string>)
    requires Holder(log) == Some(who) && Holder(log + [Resumed(who, intent, extra)]) == Some(who)
    ensures FoundIntact(log + [Resumed(who, intent, extra)], who, intent)
  {
    hide Holder, InTenure;
    TenureStarts(log, who, Resumed(who, intent, extra));
  }

  lemma ReexamineKeeps(s: State, c: nat)
    requires Inv(s) && Enabled(s, Reexamine(c))
    ensures Inv(After(s, Reexamine(c))) && Grew(s.ledger, After(s, Reexamine(c)).ledger)
  {
    hide Sound, Holder, ContentAt, OpenAt, HasPlace, InTenure, FoundIntact, Grew, Level, Inv, WasAdmitted, WasBegun,
         SameRest;
    var t, e := After(s, Reexamine(c)), Resumed(c, IntentOf(s, c), Extra(s.ledger));
    InvFacts(s, c);
    PendingAdmitted(s, IntentOf(s, c));
    ExtraBegun(s, IntentOf(s, c));
    assert RestIntact(s.ledger.log, IntentOf(s, c), Extra(s.ledger));
    NotedKeeps(s.ledger, e);
    LevelAfter(s.ledger, t.ledger, e);
    HolderAfter(s.ledger.log, e);
    FoundStarts(s.ledger.log, c, IntentOf(s, c), Extra(s.ledger));
    NotedGrew(s.ledger, e);
    MovedKeeps(s, c, t.callers[c].stage, t.ledger);
  }

  lemma RollKeeps(s: State, c: nat)
    requires Inv(s) && Enabled(s, Roll(c))
    ensures Inv(After(s, Roll(c))) && Grew(s.ledger, After(s, Roll(c)).ledger)
  {
    hide Sound, Holder, ContentAt, OpenAt, HasPlace, InTenure, Grew, Inv;
    var t := After(s, Roll(c));
    InvFacts(s, c);
    DiscardKeeps(s.ledger, IntentOf(s, c).id);
    CommitsGrow(s.ledger, c, s.callers[c].request, s.content, Cancelled);
    MovedKeeps(s, c, t.callers[c].stage, t.ledger);
  }

  lemma BeginKeepsInv(s: State, c: nat, extra: set<string>, retracts: bool)
    requires Inv(s) && Enabled(s, BeginEffect(c, extra, retracts))
    ensures var t := After(s, BeginEffect(c, extra, retracts)); Inv(t) && Grew(s.ledger, t.ledger)
  {
    hide Sound, Holder, ContentAt, OpenAt, HasPlace, InTenure, FoundIntact, Grew, Level, Inv;
    var t, e := After(s, BeginEffect(c, extra, retracts)), Began(c, IntentOf(s, c), s.content, extra);
    InvFacts(s, c);
    FoundHolds(s.ledger.log, c, IntentOf(s, c));
    BeginKeeps(s.ledger, c, IntentOf(s, c).id, s.content, extra, retracts);
    LevelAfter(s.ledger, t.ledger, e);
    HolderAfter(s.ledger.log, e);
    FoundContinues(s.ledger.log, c, IntentOf(s, c), e);
    EffectsGrow(s.ledger, c, IntentOf(s, c).id, s.content, 0, extra, retracts);
    MovedKeeps(s, c, t.callers[c].stage, t.ledger);
  }

  lemma EffectKeeps(s: State, c: nat, files: nat, content: Tree)
    requires Inv(s) && Enabled(s, MakeEffect(c, files, content))
    ensures Inv(After(s, MakeEffect(c, files, content)))
    ensures Grew(s.ledger, After(s, MakeEffect(c, files, content)).ledger)
  {
    hide Sound, Holder, ContentAt, OpenAt, HasPlace, InTenure, FoundIntact, Grew, SameRest, Results, Inv;
    var t, e := After(s, MakeEffect(c, files, content)), Effected(c, IntentOf(s, c), content, Extra(s.ledger));
    InvFacts(s, c);
    FoundHolds(s.ledger.log, c, IntentOf(s, c));
    PutInPlaceKeeps(s.ledger, c, IntentOf(s, c).id, files, content);
    HolderAfter(s.ledger.log, e);
    FoundContinues(s.ledger.log, c, IntentOf(s, c), e);
    EffectsGrow(s.ledger, c, IntentOf(s, c).id, content, files, {}, false);
    CallerSteps(s, t, c);
  }

  lemma SettleKeepsInv(s: State, c: nat, o: Outcome)
    requires Inv(s) && c in s.callers && Locked(s.callers[c].stage) && CanSettle(s.ledger, IntentOf(s, c).id, o)
    requires Recorded(s, IntentOf(s, c))
    requires o != Cancelled ==> FoundIntact(s.ledger.log, c, IntentOf(s, c))
    requires !Effective(o) ==> AsBefore(s.content, s.ledger.ops[IntentOf(s, c).id].initial)
    requires o == Cancelled ==> s.content == s.ledger.ops[IntentOf(s, c).id].initial
    ensures var t := Moved(s, c, Replying(o), Settle(s.ledger, c, IntentOf(s, c).id, o));
            Inv(t) && Grew(s.ledger, t.ledger)
  {
    hide Sound, Holder, ContentAt, OpenAt, HasPlace, InTenure, FoundIntact, Grew, Level, Inv;
    var t := Moved(s, c, Replying(o), Settle(s.ledger, c, IntentOf(s, c).id, o));
    InvFacts(s, c);
    SettleKeeps(s.ledger, c, IntentOf(s, c).id, o);
    LevelAfter(s.ledger, t.ledger, Settled(c, IntentOf(s, c), o));
    CommitsGrow(s.ledger, c, s.callers[c].request, s.content, o);
    MovedKeeps(s, c, Replying(o), t.ledger);
  }

  lemma BuryKeepsInv(s: State, c: nat)
    requires Inv(s) && Enabled(s, CancelUnadmitted(c))
    ensures Inv(After(s, CancelUnadmitted(c))) && Grew(s.ledger, After(s, CancelUnadmitted(c)).ledger)
  {
    hide Sound, Holder, ContentAt, OpenAt, HasPlace, InTenure, Grew, Level, Inv;
    var t, request := After(s, CancelUnadmitted(c)), s.callers[c].request;
    InvFacts(s, c);
    BuryKeeps(s.ledger, c, request, s.content);
    LevelAfter(s.ledger, t.ledger, Settled(c, request.intent, Cancelled));
    CommitsGrow(s.ledger, c, request, s.content, Cancelled);
    MovedKeeps(s, c, t.callers[c].stage, t.ledger);
  }

  lemma RecordedSettled(l: Ledger, id: string)
    requires Sound(l) && id in l.ops && l.ops[id].outcome.Some?
    ensures WasSettledAs(l.log, id, l.ops[id].outcome.value)
  {
    SoundFacts(l, id);
    hide Sound, WasAdmitted, WasEffected, WasSettled, WasBegun, EverAdmitted;
  }

  lemma AnswerJustified(s: State, c: nat)
    requires Inv(s) && Enabled(s, Answer(c))
    ensures Justified(s.ledger.log, Answered(c, IntentOf(s, c).id, s.callers[c].stage.outcome))
  {
    hide Inv, Sound, Tracks, InTenure, WasSettledAs;
    InvFacts(s, c);
    RecordedSettled(s.ledger, IntentOf(s, c).id);
  }

  lemma AnswerIs(s: State, c: nat)
    requires Enabled(s, Answer(c))
    ensures c in s.callers && s.callers[c].stage.Replying?
    ensures After(s, Answer(c))
         == Moved(s, c, Replied, Noted(s.ledger, Answered(c, IntentOf(s, c).id, s.callers[c].stage.outcome)))
  {
  }

  lemma AnswerFits(s: State, c: nat, l: Ledger)
    requires Inv(s) && c in s.callers && s.callers[c].stage.Replying? && l.ops == s.ledger.ops
    ensures CallerFits(Moved(s, c, Replied, l), c)
  {
    hide Sound, Tracks, InTenure, FoundIntact, AdmittedAs;
    InvFacts(s, c);
  }

  lemma AnswerKeeps(s: State, c: nat)
    requires Inv(s) && Enabled(s, Answer(c))
    ensures Inv(After(s, Answer(c))) && Grew(s.ledger, After(s, Answer(c)).ledger)
  {
    hide Sound, Tracks, Grew, Justified, Level, Inv, Moved, CallerFits, After, Enabled;
    AnswerIs(s, c);
    var e := Answered(c, IntentOf(s, c).id, s.callers[c].stage.outcome);
    var l := Noted(s.ledger, e);
    InvFacts(s, c);
    AnswerJustified(s, c);
    NotedKeeps(s.ledger, e);
    LevelAfter(s.ledger, l, e);
    NotedGrew(s.ledger, e);
    AnswerFits(s, c, l);
    MovedIs(s, c, Replied, l);
    MovedKeeps(s, c, Replied, l);
  }

  /** Leaving, by finishing, by refusal or by a crash, always lets go of the writer. */
  lemma LeaveKeeps(s: State, c: nat)
    requires Inv(s) && Enabled(s, Leave(c))
    ensures Inv(After(s, Leave(c))) && Grew(s.ledger, After(s, Leave(c)).ledger)
    ensures After(s, Leave(c)).writer != Some(c)
  {
    hide Sound, Holder, ContentAt, OpenAt, HasPlace, InTenure;
    var t := After(s, Leave(c));
    if s.writer == Some(c) {
      NotedKeeps(s.ledger, Released(c));
      HolderAfter(s.ledger.log, Released(c));
      NotedGrew(s.ledger, Released(c));
    } else {
      SameGrew(s.ledger);
    }
    hide Grew, CallerFits;
    forall d | d in t.callers
      ensures CallerFits(t, d)
    {
      OthersFit(s, t, d);
    }
  }

  lemma SettleSteps(s: State, a: Action)
    requires Inv(s) && Enabled(s, a) && (a.FindNothing? || a.CancelPending? || a.Finish?)
    ensures Inv(After(s, a)) && Grew(s.ledger, After(s, a).ledger)
  {
    var intent := IntentOf(s, a.c);
    var o := if a.Finish? then Placed(s, intent) else if a.FindNothing? then Removed(false) else Cancelled;
    InvFacts(s, a.c);
    RecordedSuits(s, a);
    hide Inv, Grew, CallerFits, InTenure, FoundIntact;
    SettleKeepsInv(s, a.c, o);
  }

  lemma RecordedSuits(s: State, a: Action)
    requires Inv(s) && Enabled(s, a) && (a.FindNothing? || a.CancelPending? || a.Finish?)
    ensures Recorded(s, IntentOf(s, a.c))
    ensures a.FindNothing? ==> CanSettle(s.ledger, IntentOf(s, a.c).id, Removed(false))
    ensures a.CancelPending? ==> CanSettle(s.ledger, IntentOf(s, a.c).id, Cancelled)
    ensures a.Finish? ==> CanSettle(s.ledger, IntentOf(s, a.c).id, Placed(s, IntentOf(s, a.c)))
    ensures !a.CancelPending? ==> FoundIntact(s.ledger.log, a.c, IntentOf(s, a.c))
    ensures a.Finish? ==> Effective(Placed(s, IntentOf(s, a.c)))
    ensures !a.Finish? ==> AsBefore(s.content, s.ledger.ops[IntentOf(s, a.c).id].initial)
    ensures a.CancelPending? ==> s.content == s.ledger.ops[IntentOf(s, a.c).id].initial
  {
    hide Holder, ContentAt, OpenAt, HasPlace, InTenure, FoundIntact, History, Inv;
    InvFacts(s, a.c);
    SoundFacts(s.ledger, IntentOf(s, a.c).id);
    hide Sound;
  }

  /** Every step keeps the invariant and takes nothing back. */
  lemma StepKeeps(s: State, a: Action)
    requires Inv(s) && Enabled(s, a)
    ensures Inv(After(s, a)) && Grew(s.ledger, After(s, a).ledger)
  {
    hide Inv, Enabled, After, Grew;
    match a {
      case Outside(_) => EnvironmentKeeps(s, a);
      case Reopen(_) => EnvironmentKeeps(s, a);
      case Direct(_, _) => DirectKeeps(s, a);
      case Arrive(_, _, _) => ArriveKeeps(s, a);
      case Acquire(c) => AcquireKeeps(s, c);
      case Recheck(c) => RecheckKeeps(s, c);
      case Recompare(c) => RecompareKeeps(s, c);
      case AdmitRequest(c) => AdmitKeepsInv(s, c);
      case Unlock(c) => UnlockKeeps(s, c);
      case Place(c) => PlaceKeeps(s, c);
      case Relock(c) => RelockKeeps(s, c);
      case Reexamine(c) => ReexamineKeeps(s, c);
      case Roll(c) => RollKeeps(s, c);
      case BeginEffect(c, extra, retracts) => BeginKeepsInv(s, c, extra, retracts);
      case MakeEffect(c, files, content) => EffectKeeps(s, c, files, content);
      case Finish(_) => SettleSteps(s, a);
      case FindNothing(_) => SettleSteps(s, a);
      case CancelPending(_) => SettleSteps(s, a);
      case CancelUnadmitted(c) => BuryKeepsInv(s, c);
      case Answer(c) => AnswerKeeps(s, c);
      case Leave(c) => LeaveKeeps(s, c);
      case Look(_) => ReadKeeps(s, a);
      case Consult(_) => ReadKeeps(s, a);
      case CancelAgain(_) => ReadKeeps(s, a);
      case _ => QuietKeeps(s, a);
    }
  }

  // ----- whole runs -----

  lemma EmptyIsSound(l: Ledger)
    requires l == Ledger(map[], None, false, [])
    ensures Sound(l)
  {
  }

  lemma FreshHolds(content: Tree, published: bool, open: set<Request>)
    ensures Inv(Fresh(content, published, open))
  {
    var l0 := Ledger(map[], None, false, []);
    var l1 := Noted(l0, Changed(content));
    var l2 := Noted(l1, Opened(open));
    EmptyIsSound(l0);
    assert !HasPlace([]);
    hide Sound, HasPlace;
    NotedKeeps(l0, Changed(content));
    NotedKeeps(l1, Opened(open));
    HolderAfter(l0.log, Changed(content));
    HolderAfter(l1.log, Opened(open));
    assert l2.log == [Changed(content), Opened(open)];
    assert l2.log + [] == l2.log;
    if published {
      NotedKeeps(l2, Existing);
      HolderAfter(l2.log, Existing);
    }
  }

  lemma {:induction false} LastingOn(l: Ledger, m: Ledger, n: Ledger)
    requires Lasting(l, m) && Lasting(m, n)
    ensures Lasting(l, n)
  {
  }

  /** From any sound state, every run keeps the invariant and takes nothing back. */
  lemma {:induction false} RunKeeps(s: State, actions: seq<Action>, t: State)
    requires Inv(s) && Reaches(s, actions, t)
    ensures Inv(t) && Lasting(s.ledger, t.ledger)
    decreases |actions|
  {
    hide Inv, Enabled, After, Lasting;
    if actions == [] {
      SameLasts(s.ledger);
    } else {
      var next := After(s, actions[0]);
      StepKeeps(s, actions[0]);
      RunKeeps(next, actions[1..], t);
      LastingOn(s.ledger, next.ledger, t.ledger);
    }
  }

  lemma SameLasts(l: Ledger)
    ensures Lasting(l, l)
  {
  }

  /** Whatever the interleaving and wherever callers stop, the history is justified throughout. */
  lemma EveryRunIsJustified(content: Tree, published: bool, open: set<Request>, actions: seq<Action>, t: State)
    requires Reaches(Fresh(content, published, open), actions, t)
    ensures History(t.ledger.log) && Tracks(t)
  {
    hide Fresh, Reaches, History, Tracks;
    FreshHolds(content, published, open);
    RunKeeps(Fresh(content, published, open), actions, t);
  }

  /** Once a request is settled, every later run answers it that way and never makes its effect again. */
  lemma FirstOutcomeStands(s: State, actions: seq<Action>, t: State, id: string, o: Outcome, k: nat)
    requires Inv(s) && Reaches(s, actions, t)
    requires id in s.ledger.ops && s.ledger.ops[id].outcome == Some(o)
    requires |s.ledger.log| <= k < |t.ledger.log|
    ensures id in t.ledger.ops && t.ledger.ops[id].outcome == Some(o)
    ensures t.ledger.log[k].Effected? ==> t.ledger.log[k].intent.id != id
    ensures t.ledger.log[k].Answered? && t.ledger.log[k].id == id ==> t.ledger.log[k].outcome == o
  {
    hide Reaches, Holder, InTenure;
    RunKeeps(s, actions, t);
    var log := t.ledger.log;
    SoundFacts(s.ledger, id);
    SoundFacts(t.ledger, id);
    var j :| 0 <= j < |s.ledger.log| && s.ledger.log[j].Settled? && s.ledger.log[j].intent.id == id
             && s.ledger.log[j].outcome == o;
    assert log[j] == s.ledger.log[j];
    hide Inv, Lasting, History;
    if log[k].Effected? {
      NoEffectAfterSettled(log, j, k);
    }
    if log[k].Answered? && log[k].id == id {
      AnswerIsSettled(log, j, k);
    }
  }

  // ----- what every run guarantees -----

  /**
   Every effect of every run was made by the writer, after a start on the prefix of
   a vetted admission as it still was, in a hold that had found everything outside its
   own paths as admitted, and touched nothing there; its request has no other
   effect, and is never settled as anything without one.
  */
  lemma EffectsOfARun(content: Tree, published: bool, open: set<Request>, actions: seq<Action>, t: State, i: nat)
    requires Reaches(Fresh(content, published, open), actions, t) && i < |t.ledger.log| && t.ledger.log[i].Effected?
    ensures var log, e := t.ledger.log, t.ledger.log[i];
            && Holder(log[..i]) == Some(e.who) && FairlyStarted(log, i, e.intent, e.extra)
            && RestChecked(log, i, e.who, e.intent) && HasPlace(log[..i])
    ensures var before, e := ContentAt(t.ledger.log[..i]), t.ledger.log[i];
            && (forall p :: Own(e.intent, p) || p in e.extra || SameAt(e.content, before, p)
                            || Appears(e.content, before, p))
            && (if e.intent.kind == Remove then e.intent.version !in e.content
                else forall p :: Own(e.intent, p) ==> p in e.content)
    ensures forall j :: 0 <= j < |t.ledger.log| && j != i && t.ledger.log[j].Effected? ==>
              t.ledger.log[j].intent.id != t.ledger.log[i].intent.id
    ensures forall j :: 0 <= j < |t.ledger.log| && t.ledger.log[j].Settled? && !Effective(t.ledger.log[j].outcome) ==>
              t.ledger.log[j].intent.id != t.ledger.log[i].intent.id
  {
    hide Reaches, Fresh, History, Holder, ContentAt, SameRest, FairlyStarted, RestChecked, Tracks, HasPlace, OwnPaths,
         Own, SameAt, Appears;
    EveryRunIsJustified(content, published, open, actions, t);
    var log := t.ledger.log;
    EffectsAreVetted(log, i);
    SameRestIff(log[i].content, ContentAt(log[..i]), log[i].intent, log[i].extra);
    forall p {
      OwnIff(log[i].intent, p);
    }
    EffectsLeaveTheRest(log, i);
    forall j | 0 <= j < |log| && j != i && log[j].Effected?
      ensures log[j].intent.id != log[i].intent.id
    {
      EffectedOnce(log, if i < j then i else j, if i < j then j else i);
    }
    forall j | 0 <= j < |log| && log[j].Settled? && !Effective(log[j].outcome)
      ensures log[j].intent.id != log[i].intent.id
    {
      IneffectiveNeverActs(log, j, i);
    }
  }

  /**
   In every run a request is settled at most once, and if it was admitted, without
   an effect only on the prefix it was admitted on, cancelled on exactly that.
  */
  lemma SettlementsOfARun(content: Tree, published: bool, open: set<Request>, actions: seq<Action>, t: State, i: nat)
    requires Reaches(Fresh(content, published, open), actions, t) && i < |t.ledger.log| && t.ledger.log[i].Settled?
    ensures forall j :: 0 <= j < |t.ledger.log| && j != i && t.ledger.log[j].Settled? ==>
              t.ledger.log[j].intent.id != t.ledger.log[i].intent.id
    ensures var log, e := t.ledger.log, t.ledger.log[i];
            EverAdmitted(log[..i], e.intent.id) ==>
              && (!Effective(e.outcome) ==> Untouched(log[..i], e.intent))
              && (e.outcome == Cancelled ==> WasAdmitted(log[..i], e.intent, ContentAt(log[..i])))
    ensures var e := t.ledger.log[i];
            match e.outcome
            case Cancelled => e.intent.kind != Install
            case Installed(files) => e.intent.kind != Remove && 1 <= files <= 65_536
            case Removed(_) => e.intent.kind == Remove
    ensures t.ledger.log[i].outcome != Cancelled ==>
              RestChecked(t.ledger.log, i, t.ledger.log[i].who, t.ledger.log[i].intent)
  {
    hide Reaches, Fresh, Holder, ContentAt, OpenAt, HasPlace, InTenure, RestChecked, Tracks, SameRest, RestIntact;
    EveryRunIsJustified(content, published, open, actions, t);
    var log := t.ledger.log;
    assert Justified(log[..i], log[i]);
    if log[i].outcome != Cancelled {
      EffectsLeaveTheRest(log, i);
    }
    hide Justified, History, Untouched, EverAdmitted;
    forall j | 0 <= j < |log| && j != i && log[j].Settled?
      ensures log[j].intent.id != log[i].intent.id
    {
      SettledOnce(log, if i < j then i else j, if i < j then j else i);
    }
  }

  /** In every run all answers to one request are the same, and are its record's outcome. */
  lemma AnswersOfARun(content: Tree, published: bool, open: set<Request>, actions: seq<Action>, t: State, i: nat)
    requires Reaches(Fresh(content, published, open), actions, t) && i < |t.ledger.log| && t.ledger.log[i].Answered?
    ensures var id := t.ledger.log[i].id;
            id in t.ledger.ops && t.ledger.ops[id].outcome == Some(t.ledger.log[i].outcome)
  {
    hide Reaches, Fresh, Holder, ContentAt, OpenAt, HasPlace, InTenure, Tracks;
    FreshHolds(content, published, open);
    RunKeeps(Fresh(content, published, open), actions, t);
    AnswerIsRecorded(t.ledger, i);
  }
}
