/**
 What the software runtime assumes of its kernel: one durable record per request
 identifier, one journal, and the history of everything that happened. Each
 operation is one durable commit; nothing here takes it back.
*/
module Ledgers {
  import opened Wrappers

  datatype Kind = Install | Update | Remove

  /** A directory's own mode, or the digest of a file, a link or a directory owned whole. */
  datatype Node = Folder(mode: nat) | Item(digest: string)

  /** What stands at each path of a prefix. */
  type Tree = map<string, Node>

  /** The directory commands are offered in. */
  const PROGRAMS := "bin"

  /** A prefix but for the node of a program directory that an earlier one had not. */
  function Plain(content: Tree, earlier: Tree): Tree {
    if PROGRAMS !in earlier && PROGRAMS in content && content[PROGRAMS].Folder? then content - {PROGRAMS} else content
  }

  /** The prefix is as it was, or has an empty program directory more. */
  predicate AsBefore(content: Tree, earlier: Tree) {
    Plain(content, earlier) == earlier
  }

  /** A request's intent; `script` if its command is offered through a `.cmd` script. */
  datatype Intent = Intent(id: string, digest: string, command: string, version: string, kind: Kind, script: bool)

  /** The entries through which a command is offered: itself, its version marker and its manifest. */
  function EntryPath(intent: Intent): string {
    PROGRAMS + "/" + intent.command + (if intent.script then ".cmd" else "")
  }

  function MarkerPath(intent: Intent): string {
    PROGRAMS + "/." + intent.command + ".version"
  }

  function ManifestPath(intent: Intent): string {
    PROGRAMS + "/." + intent.command + ".manifest.json"
  }

  function LaunchPaths(intent: Intent): set<string> {
    {EntryPath(intent), MarkerPath(intent), ManifestPath(intent)}
  }

  /** The paths an intent's effect may touch. */
  function OwnPaths(intent: Intent): set<string> {
    {intent.version} + LaunchPaths(intent)
  }

  /** An exact caller request: its intent, the prefix its plan was made for, and the caller's control directory. */
  datatype Request = Request(intent: Intent, prefix: Tree, control: string)

  datatype Outcome = Cancelled | Installed(files: nat) | Removed(removed: bool)

  /** An admitted or cancelled request: pending until it has an outcome. `missing` if its prefix was not there yet. */
  datatype Entry = Entry(intent: Intent, initial: Tree, control: string, missing: bool, outcome: Option<Outcome>)

  /** A started effect: private and discardable until it is in place, with the count of its files. */
  datatype Phase = Staged | InPlace(files: nat)

  /**
   A request's begun effect, the working paths it recorded beside the request's own,
   and whether it is a removal that takes the launch entries with the version.
  */
  datatype Journal = Journal(id: string, phase: Phase, extra: set<string>, retracts: bool)

  /** One thing that happened. Outside changes and answers are anyone's, the rest the writer's. */
  datatype Event =
    | Changed(content: Tree)
    | Opened(open: set<Request>)
    | Existing
    | Appeared(who: nat, intent: Intent)
    | Acquired(who: nat)
    | Released(who: nat)
    | Valid(who: nat, request: Request)
    | Matched(who: nat, request: Request)
    | Admitted(who: nat, request: Request)
    | Resumed(who: nat, intent: Intent, extra: set<string>)
    | Began(who: nat, intent: Intent, content: Tree, extra: set<string>)
    | Effected(who: nat, intent: Intent, content: Tree, extra: set<string>)
    | Settled(who: nat, intent: Intent, outcome: Outcome)
    | Answered(who: nat, id: string, outcome: Outcome)

  /** `direct` while a command given straight to the kernel, for no request, has left work unfinished. */
  datatype Ledger = Ledger(ops: map<string, Entry>, journal: Option<Journal>, direct: bool, log: seq<Event>)

  /** Whether an outcome reports a program effect. */
  predicate Effective(o: Outcome) {
    o.Installed? || o == Removed(true)
  }

  /** The outcomes a kind of request may have. */
  predicate Suits(kind: Kind, o: Outcome) {
    match o
    case Cancelled => kind != Install
    case Installed(files) => kind != Remove && 1 <= files <= 65_536
    case Removed(_) => kind == Remove
  }

  /** The outcome an effect in place comes to. */
  function Report(kind: Kind, files: nat): Outcome {
    if kind == Remove then Removed(true) else Installed(files)
  }

  /** Everything an operation may not touch is as it was; it may have made the program directory. */
  predicate SameRest(content: Tree, earlier: Tree, intent: Intent, extra: set<string>) {
    Plain(content, earlier) - (OwnPaths(intent) + extra) == earlier - (OwnPaths(intent) + extra)
  }

  /** Two prefixes agree at a path. */
  predicate SameAt(a: Tree, b: Tree, p: string) {
    (p in a <==> p in b) && (p in a ==> a[p] == b[p])
  }

  /** A program directory that has appeared. */
  predicate Appears(content: Tree, earlier: Tree, p: string) {
    p == "bin" && p !in earlier && p in content && content[p].Folder?
  }

  lemma PlainAt(content: Tree, earlier: Tree, p: string)
    ensures SameAt(Plain(content, earlier), earlier, p)
       <==> SameAt(content, earlier, p) || Appears(content, earlier, p)
  {
  }

  lemma SameTrees(a: Tree, b: Tree)
    ensures a == b <==> forall p :: SameAt(a, b, p)
  {
    if forall p :: SameAt(a, b, p) {
      forall p
        ensures p in a.Keys <==> p in b.Keys
      {
        assert SameAt(a, b, p);
      }
      assert forall p :: p in a ==> SameAt(a, b, p);
    }
  }

  /** A prefix is as it was exactly when every path is, but for a program directory that appeared. */
  lemma AsBeforeIff(content: Tree, earlier: Tree)
    ensures AsBefore(content, earlier)
       <==> forall p :: SameAt(content, earlier, p) || Appears(content, earlier, p)
  {
    hide Plain, Appears, SameAt;
    SameTrees(Plain(content, earlier), earlier);
    forall p {
      PlainAt(content, earlier, p);
    }
  }

  /** The version, and the three entries that offer its command. */
  predicate Own(intent: Intent, p: string) {
    || p == intent.version || p == "bin/" + intent.command + (if intent.script then ".cmd" else "")
    || p == "bin/." + intent.command + ".version" || p == "bin/." + intent.command + ".manifest.json"
  }

  lemma OwnIff(intent: Intent, p: string)
    ensures p in OwnPaths(intent) <==> Own(intent, p)
  {
    assert PROGRAMS + "/" == "bin/" && PROGRAMS + "/." == "bin/.";
  }

  lemma WithoutAt(a: Tree, b: Tree, paths: set<string>, p: string)
    ensures SameAt(a - paths, b - paths, p) <==> p in paths || SameAt(a, b, p)
  {
  }

  /** An effect leaves the rest alone exactly when every path but its own and its working paths is as before. */
  lemma SameRestIff(content: Tree, earlier: Tree, intent: Intent, extra: set<string>)
    ensures SameRest(content, earlier, intent, extra)
       <==> forall p :: Own(intent, p) || p in extra || SameAt(content, earlier, p) || Appears(content, earlier, p)
  {
    var paths := OwnPaths(intent) + extra;
    hide Plain, Appears, SameAt, OwnPaths, Own;
    SameTrees(Plain(content, earlier) - paths, earlier - paths);
    forall p
      ensures SameAt(Plain(content, earlier) - paths, earlier - paths, p)
         <==> Own(intent, p) || p in extra || SameAt(content, earlier, p) || Appears(content, earlier, p)
    {
      WithoutAt(Plain(content, earlier), earlier, paths, p);
      PlainAt(content, earlier, p);
      OwnIff(intent, p);
    }
  }

  predicate Pending(l: Ledger, id: string) {
    id in l.ops && l.ops[id].outcome == None
  }

  predicate Idle(l: Ledger) {
    l.journal == None && !l.direct && forall id :: id in l.ops ==> !Pending(l, id)
  }

  predicate JournalIs(l: Ledger, id: string, phase: Phase) {
    l.journal.Some? && l.journal.value.id == id && l.journal.value.phase == phase
  }

  /** The working paths a begun effect recorded. */
  function Extra(l: Ledger): set<string> {
    if l.journal.Some? then l.journal.value.extra else {}
  }

  /** Whether a begun removal takes the launch entries too. */
  predicate Retracts(l: Ledger) {
    l.journal.Some? && l.journal.value.retracts
  }

  /** What an effect leaves: every path of an installed program, no version of a removed one. */
  predicate Results(intent: Intent, content: Tree) {
    if intent.kind == Remove then intent.version !in content else OwnPaths(intent) <= content.Keys
  }

  // ----- the kernel's durable commits -----

  function Noted(l: Ledger, e: Event): Ledger {
    l.(log := l.log + [e])
  }

  predicate CanAdmit(l: Ledger, intent: Intent) {
    intent.id !in l.ops && Idle(l)
  }

  function Admit(l: Ledger, who: nat, request: Request, content: Tree, missing: bool): Ledger {
    var entry := Entry(request.intent, content, request.control, missing, None);
    l.(ops := l.ops[request.intent.id := entry], log := l.log + [Admitted(who, request)])
  }

  predicate CanBegin(l: Ledger, id: string, content: Tree, extra: set<string>) {
    && Pending(l, id) && l.journal == None && AsBefore(content, l.ops[id].initial)
    && extra !! content.Keys + {PROGRAMS}
  }

  function Begin(l: Ledger, who: nat, id: string, content: Tree, extra: set<string>, retracts: bool): Ledger
    requires id in l.ops
  {
    l.(journal := Some(Journal(id, Staged, extra, retracts)),
       log := l.log + [Began(who, l.ops[id].intent, content, extra)])
  }

  function Discard(l: Ledger): Ledger {
    l.(journal := None)
  }

  function PutInPlace(l: Ledger, who: nat, id: string, files: nat, content: Tree): Ledger
    requires id in l.ops
  {
    l.(journal := Some(Journal(id, InPlace(files), Extra(l), Retracts(l))),
       log := l.log + [Effected(who, l.ops[id].intent, content, Extra(l))])
  }

  /** A command given straight to the kernel changes the prefix, and finishes or leaves work behind. */
  function Meddle(l: Ledger, content: Tree, unfinished: bool): Ledger {
    l.(direct := unfinished, log := l.log + [Changed(content)])
  }

  /** An outcome and the retirement of its journal, in one commit. */
  predicate CanSettle(l: Ledger, id: string, o: Outcome) {
    && Pending(l, id) && Suits(l.ops[id].intent.kind, o)
    && match l.journal
       case None => !Effective(o)
       case Some(j) => j.id == id && j.phase.InPlace? && o == Report(l.ops[id].intent.kind, j.phase.files)
  }

  function Settle(l: Ledger, who: nat, id: string, o: Outcome): Ledger
    requires id in l.ops
  {
    l.(ops := l.ops[id := l.ops[id].(outcome := Some(o))], journal := None,
       log := l.log + [Settled(who, l.ops[id].intent, o)])
  }

  /** A cancellation of a request never admitted: its record is born settled. */
  function Bury(l: Ledger, who: nat, request: Request, content: Tree): Ledger {
    var entry := Entry(request.intent, content, request.control, false, Some(Cancelled));
    l.(ops := l.ops[request.intent.id := entry], log := l.log + [Settled(who, request.intent, Cancelled)])
  }

  // ----- history -----

  /** Who holds the writer after a history. */
  function Holder(log: seq<Event>): Option<nat>
    decreases |log|
  {
    if log == [] then None
    else
      match log[|log| - 1]
      case Acquired(who) => Some(who)
      case Released(who) => None
      case _ => Holder(log[..|log| - 1])
  }

  /** What the prefix is after a history. */
  function ContentAt(log: seq<Event>): Tree
    decreases |log|
  {
    if log == [] then map[]
    else
      match log[|log| - 1]
      case Changed(content) => content
      case Effected(_, _, content, _) => content
      case _ => ContentAt(log[..|log| - 1])
  }

  /** Which requests may be admitted after a history. */
  function OpenAt(log: seq<Event>): set<Request>
    decreases |log|
  {
    if log == [] then {}
    else
      match log[|log| - 1]
      case Opened(open) => open
      case _ => OpenAt(log[..|log| - 1])
  }

  /** Whether the prefix stands at its place after a history. */
  ghost predicate HasPlace(log: seq<Event>) {
    exists k :: 0 <= k < |log| && (log[k].Existing? || log[k].Appeared?)
  }

  /** The caller has held the writer without a break since position `k`. */
  ghost predicate HeldSince(log: seq<Event>, who: nat, k: nat) {
    k <= |log| && forall m :: k <= m <= |log| ==> Holder(log[..m]) == Some(who)
  }

  /** Something happened while the caller held the writer, and it has not let go since. */
  ghost predicate InTenure(log: seq<Event>, who: nat, e: Event) {
    exists k :: 0 <= k < |log| && log[k] == e && HeldSince(log, who, k)
  }

  ghost predicate WasAdmitted(log: seq<Event>, intent: Intent, prefix: Tree) {
    exists k :: 0 <= k < |log| && log[k].Admitted? && log[k].request.intent == intent && log[k].request.prefix == prefix
  }

  ghost predicate EverAdmitted(log: seq<Event>, id: string) {
    exists k :: 0 <= k < |log| && log[k].Admitted? && log[k].request.intent.id == id
  }

  ghost predicate WasBegun(log: seq<Event>, intent: Intent, extra: set<string>) {
    exists k :: 0 <= k < |log| && log[k].Began? && log[k].intent == intent && log[k].extra == extra
  }

  ghost predicate WasEffected(log: seq<Event>, id: string) {
    exists k :: 0 <= k < |log| && log[k].Effected? && log[k].intent.id == id
  }

  ghost predicate WasSettled(log: seq<Event>, id: string) {
    exists k :: 0 <= k < |log| && log[k].Settled? && log[k].intent.id == id
  }

  ghost predicate WasSettledAs(log: seq<Event>, id: string, o: Outcome) {
    exists k :: 0 <= k < |log| && log[k].Settled? && log[k].intent.id == id && log[k].outcome == o
  }

  /**
   The request was admitted, and nothing outside its own paths and the working
   paths of its begun effect differs from the prefix it was admitted on.
  */
  ghost predicate RestIntact(log: seq<Event>, intent: Intent, extra: set<string>) {
    && (extra == {} || WasBegun(log, intent, extra))
    && exists prefix :: WasAdmitted(log, intent, prefix) && SameRest(ContentAt(log), prefix, intent, extra)
  }

  /** The caller found that in the hold it is in. */
  ghost predicate FoundIntact(log: seq<Event>, who: nat, intent: Intent) {
    exists extra :: InTenure(log, who, Resumed(who, intent, extra))
  }

  ghost predicate AdmittedAs(log: seq<Event>, intent: Intent) {
    exists prefix :: WasAdmitted(log, intent, prefix)
  }

  /** The request was admitted on the prefix there is, but perhaps for an empty program directory. */
  ghost predicate Untouched(log: seq<Event>, intent: Intent) {
    exists prefix :: WasAdmitted(log, intent, prefix) && AsBefore(ContentAt(log), prefix)
  }

  /** An event that may follow a history. */
  ghost predicate Justified(past: seq<Event>, e: Event) {
    match e
    case Changed(_) => true
    case Opened(_) => true
    case Existing => forall k :: 0 <= k < |past| ==> past[k].Changed? || past[k].Opened?
    case Appeared(who, intent) => !HasPlace(past) && AdmittedAs(past, intent)
    case Acquired(who) => Holder(past) == None
    case Released(who) => Holder(past) == Some(who)
    case Valid(who, request) => Holder(past) == Some(who) && request in OpenAt(past)
    case Matched(who, request) => Holder(past) == Some(who) && ContentAt(past) == request.prefix
    case Admitted(who, request) =>
      && InTenure(past, who, Valid(who, request)) && InTenure(past, who, Matched(who, request))
      && ContentAt(past) == request.prefix && !EverAdmitted(past, request.intent.id)
    case Resumed(who, intent, extra) => Holder(past) == Some(who) && RestIntact(past, intent, extra)
    case Began(who, intent, content, extra) =>
      && FoundIntact(past, who, intent) && HasPlace(past) && extra !! content.Keys + {PROGRAMS}
      && ContentAt(past) == content && Untouched(past, intent)
    case Effected(who, intent, content, extra) =>
      && FoundIntact(past, who, intent) && HasPlace(past) && SameRest(content, ContentAt(past), intent, extra)
      && Results(intent, content)
      && WasBegun(past, intent, extra) && !WasEffected(past, intent.id) && !WasSettled(past, intent.id)
    case Settled(who, intent, o) =>
      && Holder(past) == Some(who) && Suits(intent.kind, o) && (o != Cancelled ==> FoundIntact(past, who, intent))
      && !WasSettled(past, intent.id) && (Effective(o) <==> WasEffected(past, intent.id))
      && (!Effective(o) && EverAdmitted(past, intent.id) ==> Untouched(past, intent))
      && (o == Cancelled && EverAdmitted(past, intent.id) ==> WasAdmitted(past, intent, ContentAt(past)))
    case Answered(who, id, o) => WasSettledAs(past, id, o)
  }

  /** Every event was justified when it happened. */
  ghost predicate History(log: seq<Event>) {
    forall k :: 0 <= k < |log| ==> Justified(log[..k], log[k])
  }

  // ----- what the record knows of the history -----

  /** The journal is an effect of this identifier that is in place. */
  predicate PlacedFor(l: Ledger, id: string) {
    l.journal.Some? && l.journal.value.id == id && l.journal.value.phase.InPlace?
  }

  /** One identifier's record agrees with the history. */
  ghost predicate Agrees(l: Ledger, id: string) {
    && (id !in l.ops ==> !EverAdmitted(l.log, id) && !WasEffected(l.log, id) && !WasSettled(l.log, id))
    && (id in l.ops ==>
          && l.ops[id].intent.id == id
          && (l.ops[id].outcome == None ==>
                && WasAdmitted(l.log, l.ops[id].intent, l.ops[id].initial) && !WasSettled(l.log, id)
                && (WasEffected(l.log, id) <==> PlacedFor(l, id)))
          && (l.ops[id].outcome.Some? ==> WasSettledAs(l.log, id, l.ops[id].outcome.value)))
    && (l.journal.Some? && l.journal.value.id == id ==> Pending(l, id) && WasBegun(l.log, l.ops[id].intent, Extra(l)))
    && (PlacedFor(l, id) ==>
          Pending(l, id) && Suits(l.ops[id].intent.kind, Report(l.ops[id].intent.kind, l.journal.value.phase.files)))
  }

  ghost predicate Sound(l: Ledger) {
    && (forall id :: Agrees(l, id))
    && (forall a, b :: Pending(l, a) && Pending(l, b) ==> a == b)
    && (l.direct ==> forall id :: !Pending(l, id))
    && History(l.log)
  }

  // ----- one event more -----

  lemma HolderAfter(log: seq<Event>, e: Event)
    ensures Holder(log + [e])
         == match e case Acquired(who) => Some(who) case Released(who) => None case _ => Holder(log)
    ensures ContentAt(log + [e])
         == match e case Changed(content) => content case Effected(_, _, content, _) => content case _ => ContentAt(log)
    ensures OpenAt(log + [e]) == match e case Opened(open) => open case _ => OpenAt(log)
    ensures HasPlace(log + [e]) <==> HasPlace(log) || e.Existing? || e.Appeared?
  {
    var more := log + [e];
    assert more[..|log|] == log && more[|log|] == e;
    assert forall k :: 0 <= k < |log| ==> more[k] == log[k];
  }

  lemma HistoryGrows(log: seq<Event>, e: Event)
    requires History(log) && Justified(log, e)
    ensures History(log + [e])
  {
    hide Justified;
    var more := log + [e];
    forall k | 0 <= k < |more|
      ensures Justified(more[..k], more[k])
    {
      assert more[..k] == log[..k];
      if k == |log| {
        assert log[..k] == log;
      }
    }
  }

  /** What a longer history remembers of admissions and effects. */
  lemma MarksGrow(log: seq<Event>, e: Event, id: string, intent: Intent)
    ensures forall p :: WasAdmitted(log + [e], intent, p)
              <==> WasAdmitted(log, intent, p) || (e.Admitted? && e.request.intent == intent && e.request.prefix == p)
    ensures EverAdmitted(log + [e], id) <==> EverAdmitted(log, id) || (e.Admitted? && e.request.intent.id == id)
    ensures forall x :: WasBegun(log + [e], intent, x)
              <==> WasBegun(log, intent, x) || (e.Began? && e.intent == intent && e.extra == x)
    ensures WasEffected(log + [e], id) <==> WasEffected(log, id) || (e.Effected? && e.intent.id == id)
  {
    var more := log + [e];
    assert forall k :: 0 <= k < |log| ==> more[k] == log[k];
    assert more[|log|] == e;
  }

  lemma SettledGrow(log: seq<Event>, e: Event, id: string)
    ensures WasSettled(log + [e], id) <==> WasSettled(log, id) || (e.Settled? && e.intent.id == id)
    ensures forall o :: WasSettledAs(log + [e], id, o)
              <==> WasSettledAs(log, id, o) || (e.Settled? && e.intent.id == id && e.outcome == o)
  {
    var more := log + [e];
    assert forall k :: 0 <= k < |log| ==> more[k] == log[k];
    assert more[|log|] == e;
  }

  /** What happened in a tenure stays in it while the writer is kept. */
  lemma TenureContinues(log: seq<Event>, who: nat, e: Event, next: Event)
    requires InTenure(log, who, e) && Holder(log + [next]) == Some(who)
    ensures InTenure(log + [next], who, e)
  {
    var more := log + [next];
    var k :| 0 <= k < |log| && log[k] == e && HeldSince(log, who, k);
    forall m | k <= m <= |more|
      ensures Holder(more[..m]) == Some(who)
    {
      if m <= |log| {
        assert more[..m] == log[..m];
      } else {
        assert more[..m] == more;
      }
    }
    assert more[k] == e;
  }

  lemma FoundContinues(log: seq<Event>, who: nat, intent: Intent, next: Event)
    requires FoundIntact(log, who, intent) && Holder(log + [next]) == Some(who)
    ensures FoundIntact(log + [next], who, intent)
  {
    hide InTenure, Holder;
    var extra :| InTenure(log, who, Resumed(who, intent, extra));
    TenureContinues(log, who, Resumed(who, intent, extra), next);
  }

  lemma FoundHolds(log: seq<Event>, who: nat, intent: Intent)
    requires FoundIntact(log, who, intent)
    ensures Holder(log) == Some(who)
  {
    hide InTenure, Holder;
    var extra :| InTenure(log, who, Resumed(who, intent, extra));
    TenureHolds(log, who, Resumed(who, intent, extra));
  }

  lemma TenureStarts(log: seq<Event>, who: nat, e: Event)
    requires Holder(log) == Some(who) && Holder(log + [e]) == Some(who)
    ensures InTenure(log + [e], who, e)
  {
    var more := log + [e];
    assert more[..|log|] == log && more[..|log| + 1] == more;
    assert more[|log|] == e && HeldSince(more, who, |log|);
  }

  lemma TenureHolds(log: seq<Event>, who: nat, e: Event)
    requires InTenure(log, who, e)
    ensures Holder(log) == Some(who)
  {
    assert log[..|log|] == log;
  }

  // ----- the commits keep the record sound -----

  /** An event that says nothing about any record. */
  predicate Silent(e: Event) {
    !e.Admitted? && !e.Began? && !e.Effected? && !e.Settled?
  }

  function IntentIn(l: Ledger, id: string): Intent {
    if id in l.ops then l.ops[id].intent else Intent(id, "", "", "", Install, false)
  }

  lemma NotedKeeps(l: Ledger, e: Event)
    requires Sound(l) && Silent(e) && Justified(l.log, e)
    ensures Sound(Noted(l, e))
  {
    HistoryGrows(l.log, e);
    forall id
      ensures Agrees(Noted(l, e), id)
    {
      assert Agrees(l, id);
      MarksGrow(l.log, e, id, IntentIn(l, id));
      SettledGrow(l.log, e, id);
      hide WasAdmitted, EverAdmitted, WasBegun, WasEffected, WasSettled, WasSettledAs;
    }
    hide Agrees, History;
    assert forall id :: Pending(Noted(l, e), id) <==> Pending(l, id);
  }

  /** An event that some record mentions, for one identifier it does not concern. */
  lemma OthersAgree(l: Ledger, t: Ledger, e: Event, id: string)
    requires Agrees(l, id) && t.log == l.log + [e] && (id in t.ops <==> id in l.ops)
    requires (id in l.ops ==> t.ops[id] == l.ops[id])
    requires match e
             case Admitted(_, request) => request.intent.id != id
             case Began(_, intent, _, _) => intent.id != id
             case Effected(_, intent, _, _) => intent.id != id
             case Settled(_, intent, _) => intent.id != id
             case _ => true
    requires !(l.journal.Some? && l.journal.value.id == id) && !(t.journal.Some? && t.journal.value.id == id)
    ensures Agrees(t, id)
  {
    MarksGrow(l.log, e, id, IntentIn(l, id));
    SettledGrow(l.log, e, id);
    hide WasAdmitted, EverAdmitted, WasBegun, WasEffected, WasSettled, WasSettledAs;
  }

  lemma SoundFacts(l: Ledger, id: string)
    requires Sound(l)
    ensures Agrees(l, id) && History(l.log)
    ensures forall other :: Pending(l, id) && Pending(l, other) ==> other == id
    ensures l.journal.Some? ==> Pending(l, l.journal.value.id)
  {
    hide History;
    if l.journal.Some? {
      assert Agrees(l, l.journal.value.id);
    }
  }

  lemma AdmitKeeps(l: Ledger, who: nat, request: Request, content: Tree, missing: bool)
    requires Sound(l) && CanAdmit(l, request.intent) && content == request.prefix == ContentAt(l.log)
    requires InTenure(l.log, who, Valid(who, request)) && InTenure(l.log, who, Matched(who, request))
    ensures Sound(Admit(l, who, request, content, missing))
  {
    var t, e := Admit(l, who, request, content, missing), Admitted(who, request);
    SoundFacts(l, request.intent.id);
    HistoryGrows(l.log, e);
    hide InTenure, History, ContentAt;
    forall id
      ensures Agrees(t, id)
    {
      SoundFacts(l, id);
      if id != request.intent.id {
        OthersAgree(l, t, e, id);
      } else {
        MarksGrow(l.log, e, id, request.intent);
        SettledGrow(l.log, e, id);
        hide WasAdmitted, EverAdmitted, WasBegun, WasEffected, WasSettled, WasSettledAs;
      }
    }
    hide Agrees;
    assert forall id :: Pending(t, id) <==> id == request.intent.id || Pending(l, id);
  }

  lemma BeginKeeps(l: Ledger, who: nat, id: string, content: Tree, extra: set<string>, retracts: bool)
    requires Sound(l) && CanBegin(l, id, content, extra) && ContentAt(l.log) == content && HasPlace(l.log)
    requires FoundIntact(l.log, who, l.ops[id].intent)
    ensures Sound(Begin(l, who, id, content, extra, retracts))
  {
    var t, e := Begin(l, who, id, content, extra, retracts), Began(who, l.ops[id].intent, content, extra);
    SoundFacts(l, id);
    HistoryGrows(l.log, e);
    hide History, FoundIntact, HasPlace, ContentAt;
    forall other
      ensures Agrees(t, other)
    {
      SoundFacts(l, other);
      if other != id {
        OthersAgree(l, t, e, other);
      } else {
        MarksGrow(l.log, e, id, l.ops[id].intent);
        SettledGrow(l.log, e, id);
        hide WasAdmitted, EverAdmitted, WasBegun, WasEffected, WasSettled, WasSettledAs;
      }
    }
    hide Agrees;
    assert forall other :: Pending(t, other) <==> Pending(l, other);
  }

  lemma DiscardKeeps(l: Ledger, id: string)
    requires Sound(l) && JournalIs(l, id, Staged)
    ensures Sound(Discard(l))
  {
    hide WasAdmitted, EverAdmitted, WasBegun, WasEffected, WasSettled, WasSettledAs, History;
    forall other
      ensures Agrees(Discard(l), other)
    {
      assert Agrees(l, other);
    }
    hide Agrees;
    assert forall other :: Pending(Discard(l), other) <==> Pending(l, other);
  }

  lemma PlacedAgrees(l: Ledger, who: nat, id: string, files: nat, content: Tree)
    requires Sound(l) && JournalIs(l, id, Staged) && Pending(l, id)
    requires Suits(l.ops[id].intent.kind, Report(l.ops[id].intent.kind, files))
    ensures Agrees(PutInPlace(l, who, id, files, content), id)
  {
    SoundFacts(l, id);
    hide Sound, Suits, Report;
    var e := Effected(who, l.ops[id].intent, content, Extra(l));
    MarksGrow(l.log, e, id, l.ops[id].intent);
    SettledGrow(l.log, e, id);
    hide WasAdmitted, EverAdmitted, WasBegun, WasEffected, WasSettled, WasSettledAs;
  }

  lemma PutInPlaceKeeps(l: Ledger, who: nat, id: string, files: nat, content: Tree)
    requires Sound(l) && JournalIs(l, id, Staged) && Pending(l, id)
    requires Suits(l.ops[id].intent.kind, Report(l.ops[id].intent.kind, files))
    requires SameRest(content, ContentAt(l.log), l.ops[id].intent, Extra(l)) && HasPlace(l.log)
    requires Results(l.ops[id].intent, content)
    requires FoundIntact(l.log, who, l.ops[id].intent)
    ensures Sound(PutInPlace(l, who, id, files, content))
  {
    var t, e := PutInPlace(l, who, id, files, content), Effected(who, l.ops[id].intent, content, Extra(l));
    SoundFacts(l, id);
    hide FoundIntact, HasPlace, ContentAt, SameRest, Results, WasAdmitted, WasEffected, WasSettled, WasBegun;
    HistoryGrows(l.log, e);
    PlacedAgrees(l, who, id, files, content);
    hide History, Suits, Report;
    forall other
      ensures Agrees(t, other)
    {
      SoundFacts(l, other);
      if other != id {
        OthersAgree(l, t, e, other);
      }
    }
    hide Agrees;
    assert forall other :: Pending(t, other) <==> Pending(l, other);
  }

  lemma SettleKeeps(l: Ledger, who: nat, id: string, o: Outcome)
    requires Sound(l) && CanSettle(l, id, o) && Holder(l.log) == Some(who)
    requires o != Cancelled ==> FoundIntact(l.log, who, l.ops[id].intent)
    requires !Effective(o) ==> AsBefore(ContentAt(l.log), l.ops[id].initial)
    requires o == Cancelled ==> ContentAt(l.log) == l.ops[id].initial
    ensures Sound(Settle(l, who, id, o))
  {
    var t, e := Settle(l, who, id, o), Settled(who, l.ops[id].intent, o);
    SoundFacts(l, id);
    hide FoundIntact, HasPlace, Holder, ContentAt;
    HistoryGrows(l.log, e);
    hide History;
    forall other
      ensures Agrees(t, other)
    {
      SoundFacts(l, other);
      if other != id {
        OthersAgree(l, t, e, other);
      } else {
        MarksGrow(l.log, e, id, l.ops[id].intent);
        SettledGrow(l.log, e, id);
        hide WasAdmitted, EverAdmitted, WasBegun, WasEffected, WasSettled, WasSettledAs;
      }
    }
    hide Agrees;
    assert forall other :: Pending(t, other) ==> Pending(l, other);
  }

  lemma BuryKeeps(l: Ledger, who: nat, request: Request, content: Tree)
    requires Sound(l) && request.intent.id !in l.ops && Holder(l.log) == Some(who) && request.intent.kind != Install
    ensures Sound(Bury(l, who, request, content))
  {
    var t, e := Bury(l, who, request, content), Settled(who, request.intent, Cancelled);
    SoundFacts(l, request.intent.id);
    hide Holder, ContentAt, FoundIntact, HasPlace, WasAdmitted, WasBegun;
    HistoryGrows(l.log, e);
    hide History;
    forall id
      ensures Agrees(t, id)
    {
      SoundFacts(l, id);
      if id != request.intent.id && !(l.journal.Some? && l.journal.value.id == id) {
        OthersAgree(l, t, e, id);
      } else {
        MarksGrow(l.log, e, id, IntentIn(l, id));
        SettledGrow(l.log, e, id);
        hide EverAdmitted, WasEffected, WasSettled, WasSettledAs;
      }
    }
    hide Agrees;
    assert forall id :: Pending(t, id) <==> Pending(l, id);
  }

  /** A direct command runs only while no request is active. */
  lemma MeddleKeeps(l: Ledger, content: Tree, unfinished: bool)
    requires Sound(l) && l.journal == None && forall id :: !Pending(l, id)
    ensures Sound(Meddle(l, content, unfinished))
  {
    NotedKeeps(l, Changed(content));
    hide WasAdmitted, EverAdmitted, WasBegun, WasEffected, WasSettled, WasSettledAs, History;
    var t, noted := Meddle(l, content, unfinished), Noted(l, Changed(content));
    forall id
      ensures Agrees(t, id)
    {
      assert Agrees(noted, id);
    }
    hide Agrees;
    assert forall id :: Pending(t, id) <==> Pending(l, id);
  }

  // ----- what every history guarantees -----

  lemma EffectedOnce(log: seq<Event>, i: nat, j: nat)
    requires History(log) && i < j < |log| && log[i].Effected? && log[j].Effected?
    ensures log[i].intent.id != log[j].intent.id
  {
    assert Justified(log[..j], log[j]);
    assert log[..j][i] == log[i];
  }

  lemma NoEffectAfterSettled(log: seq<Event>, i: nat, j: nat)
    requires History(log) && i < j < |log| && log[i].Settled? && log[j].Effected?
    ensures log[i].intent.id != log[j].intent.id
  {
    assert Justified(log[..j], log[j]);
    assert log[..j][i] == log[i];
  }

  lemma SettledOnce(log: seq<Event>, i: nat, j: nat)
    requires History(log) && i < j < |log| && log[i].Settled? && log[j].Settled?
    ensures log[i].intent.id != log[j].intent.id
  {
    assert Justified(log[..j], log[j]);
    assert log[..j][i] == log[i];
  }

  /** A request settled without an effect, by cancelling or by finding nothing, has none, before or after. */
  lemma IneffectiveNeverActs(log: seq<Event>, i: nat, j: nat)
    requires History(log) && i < |log| && j < |log|
    requires log[i].Settled? && !Effective(log[i].outcome) && log[j].Effected?
    ensures log[i].intent.id != log[j].intent.id
  {
    hide InTenure, Holder, ContentAt, OpenAt, SameRest;
    if i < j {
      NoEffectAfterSettled(log, i, j);
    } else {
      assert Justified(log[..i], log[i]);
      assert log[..i][j] == log[j];
    }
  }

  /** An answer repeats the one outcome its request was settled with. */
  lemma AnswerIsSettled(log: seq<Event>, j: nat, k: nat)
    requires History(log) && j < |log| && k < |log|
    requires log[j].Settled? && log[k].Answered? && log[j].intent.id == log[k].id
    ensures log[k].outcome == log[j].outcome
  {
    assert Justified(log[..k], log[k]);
    var b :| 0 <= b < k && log[..k][b].Settled? && log[..k][b].intent.id == log[k].id
             && log[..k][b].outcome == log[k].outcome;
    assert log[..k][b] == log[b];
    if j < b {
      SettledOnce(log, j, b);
    } else if b < j {
      SettledOnce(log, b, j);
    }
  }

  /** Every answer is what the record says. */
  lemma AnswerIsRecorded(l: Ledger, i: nat)
    requires Sound(l) && i < |l.log| && l.log[i].Answered?
    ensures l.log[i].id in l.ops && l.ops[l.log[i].id].outcome == Some(l.log[i].outcome)
  {
    hide InTenure, Holder, ContentAt, OpenAt, SameRest;
    var id := l.log[i].id;
    SoundFacts(l, id);
    assert Justified(l.log[..i], l.log[i]);
    var a :| 0 <= a < i && l.log[..i][a].Settled? && l.log[..i][a].intent.id == id
             && l.log[..i][a].outcome == l.log[i].outcome;
    assert l.log[..i][a] == l.log[a];
    assert WasSettled(l.log, id);
    var o := l.ops[id].outcome.value;
    var b :| 0 <= b < |l.log| && l.log[b].Settled? && l.log[b].intent.id == id && l.log[b].outcome == o;
    hide Sound, Agrees, Justified, WasSettled;
    AnswerIsSettled(l.log, b, i);
  }

  /** The caller held the writer at every moment from one position to another. */
  ghost predicate HeldThrough(log: seq<Event>, who: nat, from: nat, upto: nat) {
    from <= upto <= |log| && forall m :: from <= m <= upto ==> Holder(log[..m]) == Some(who)
  }

  /**
   A vetted admission at `a`: at some moment of the same unbroken hold the request
   was among those that may be admitted, and the prefix is the planned one.
  */
  ghost predicate Vetted(log: seq<Event>, v: nat, a: nat) {
    && v < a < |log| && log[a].Admitted? && HeldThrough(log, log[a].who, v, a)
    && log[a].request in OpenAt(log[..v]) && ContentAt(log[..a]) == log[a].request.prefix
  }

  lemma TenureIsHeld(log: seq<Event>, i: nat, who: nat, e: Event) returns (k: nat)
    requires i <= |log| && InTenure(log[..i], who, e)
    ensures k < i && log[k] == e && HeldThrough(log, who, k, i)
  {
    hide Holder;
    k :| 0 <= k < i && log[..i][k] == e && HeldSince(log[..i], who, k);
    forall m | k <= m <= i
      ensures Holder(log[..m]) == Some(who)
    {
      assert log[..i][..m] == log[..m];
    }
  }

  ghost predicate FairlyAdmitted(log: seq<Event>, a: nat) {
    exists v: nat :: Vetted(log, v, a)
  }

  lemma AdmissionIsVetted(log: seq<Event>, a: nat)
    requires History(log) && a < |log| && log[a].Admitted?
    ensures FairlyAdmitted(log, a)
  {
    hide InTenure, Holder, OpenAt, ContentAt;
    assert Justified(log[..a], log[a]);
    var v := TenureIsHeld(log, a, log[a].who, Valid(log[a].who, log[a].request));
    assert Justified(log[..v], log[v]);
    assert Vetted(log, v, a);
  }

  /** An effect that started at `b` on the prefix of the admission at `a`, as it still was. */
  ghost predicate StartedOn(log: seq<Event>, a: nat, b: nat, intent: Intent) {
    && a < b < |log| && log[a].Admitted? && log[b].Began? && log[b].intent == log[a].request.intent == intent
    && AsBefore(ContentAt(log[..b]), log[a].request.prefix)
    && log[b].extra !! ContentAt(log[..b]).Keys + {PROGRAMS}
  }

  /** Before `i` an effect of the intent, with its working paths, started on the prefix of a vetted admission. */
  ghost predicate FairlyStarted(log: seq<Event>, i: nat, intent: Intent, extra: set<string>) {
    exists a: nat, b: nat :: FairlyAdmitted(log, a) && StartedOn(log, a, b, intent) && b < i && log[b].extra == extra
  }

  lemma BeginIsStarted(log: seq<Event>, b: nat) returns (a: nat)
    requires History(log) && b < |log| && log[b].Began?
    ensures StartedOn(log, a, b, log[b].intent)
  {
    hide InTenure, Holder, OpenAt, ContentAt;
    assert Justified(log[..b], log[b]);
    a :| 0 <= a < b && log[..b][a].Admitted? && log[..b][a].request.intent == log[b].intent
         && AsBefore(log[b].content, log[..b][a].request.prefix);
    assert log[..b][a] == log[a];
  }

  /**
   Every effect is the writer's, on a prefix that stands at its place, started on
   the prefix its request was admitted on, after an admission made while the
   request could be admitted, in one unbroken hold; and it touches only its
   request's own paths and working paths where nothing stood at the start. Since
   admission only an empty program directory may have appeared, or the effect have
   made it.
  */
  lemma EffectsAreVetted(log: seq<Event>, i: nat)
    requires History(log) && i < |log| && log[i].Effected?
    ensures Holder(log[..i]) == Some(log[i].who)
    ensures SameRest(log[i].content, ContentAt(log[..i]), log[i].intent, log[i].extra) && HasPlace(log[..i])
    ensures Results(log[i].intent, log[i].content)
    ensures FairlyStarted(log, i, log[i].intent, log[i].extra)
  {
    hide FoundIntact, Holder, OpenAt, ContentAt, SameRest, Results, FairlyAdmitted, HasPlace;
    assert Justified(log[..i], log[i]);
    FoundHolds(log[..i], log[i].who, log[i].intent);
    var b :| 0 <= b < i && log[..i][b].Began? && log[..i][b].intent == log[i].intent
             && log[..i][b].extra == log[i].extra;
    assert log[..i][b] == log[b];
    var a := BeginIsStarted(log, b);
    AdmissionIsVetted(log, a);
  }

  /** In the unbroken hold that leads to `i`, everything outside the request's own paths was found as admitted. */
  ghost predicate RestChecked(log: seq<Event>, i: nat, who: nat, intent: Intent) {
    exists k: nat :: k < i && HeldThrough(log, who, k, i) && exists extra :: RestIntact(log[..k], intent, extra)
  }

  /**
   Whoever makes an effect or reports one had, in the same unbroken hold, found
   everything outside the request's own paths as it was when it was admitted.
  */
  lemma EffectsLeaveTheRest(log: seq<Event>, i: nat)
    requires History(log) && i < |log|
    requires log[i].Effected? || (log[i].Settled? && log[i].outcome != Cancelled)
    ensures RestChecked(log, i, log[i].who, log[i].intent)
  {
    hide InTenure, Holder, ContentAt, SameRest, RestIntact, HasPlace;
    assert Justified(log[..i], log[i]);
    var extra :| InTenure(log[..i], log[i].who, Resumed(log[i].who, log[i].intent, extra));
    var k := TenureIsHeld(log, i, log[i].who, Resumed(log[i].who, log[i].intent, extra));
    assert Justified(log[..k], log[k]);
  }
}
