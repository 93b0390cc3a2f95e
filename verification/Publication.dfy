// The publication protocol as a step system: any number of append calls and
// initialisations against one table, in any interleaving, with lost responses,
// writes that land late, failed reads and crashes.
module Publication {
  import opened Wrappers

  // Immutable objects: shared ones, and the data files an append call stages under
  // names of its own.
  datatype Obj = Shared(name: nat) | Data(call: nat, ordinal: nat)

  datatype Record = Record(intent: nat, result: nat)

  // A HEAD with what it leads to. `id` stands for the fresh identifiers a candidate
  // draws, `author` for the call that drew them. The generation behind a HEAD names
  // its parent, so the bytes determine `parent`; tokens are digests of the bytes, and
  // with no collisions equal tokens are equal HEADs.
  datatype Head = Head(
    id: nat, author: nat, version: nat, revision: nat,
    ledger: map<nat, Record>, closure: set<Obj>, parent: Option<Head>)

  datatype Policy = Policy(maxRebases: nat, maxReconciliations: nat)

  datatype Outcome = Success(result: nat) | Definite | Indeterminate

  datatype Phase =
    | Staging
    | Ready
    | Pinned(parent: Head, rebases: nat)
    | Putting(draft: Head, left: set<Obj>, rebases: nat)
    | Casing(draft: Head, lost: nat, rebases: nat)
    | Reconciling(draft: Head, lost: nat, rebases: nat)
    | Rebasing(draft: Head, lost: nat, rebases: nat)
    | Done(outcome: Outcome)
    | Crashed

  // One append call. `drafts` are all candidates it ever built; `published` says
  // that it has entered publication, after which it never cleans up.
  datatype Writer = Writer(key: nat, intent: nat, staged: set<Obj>, published: bool, drafts: set<Head>, phase: Phase)

  datatype FounderPhase =
    | Preparing(left: set<Obj>)
    | Creating
    | Reading(conflicted: bool)
    | Founded
    | AlreadyExists
    | FounderFailed
    | FounderIndeterminate
    | FounderCrashed

  // One initialize call: its HEAD and how many responses it has lost.
  datatype Founder = Founder(head: Head, lost: nat, phase: FounderPhase)

  datatype State = State(
    history: seq<Head>, objects: set<Obj>, pending: set<Head>,
    writers: map<nat, Writer>, founders: map<nat, Founder>, nextId: nat)

  // The steps of an append call.
  datatype Step =
    | Begin(key: nat, intent: nat)
    | StageFile(ordinal: nat)
    | Abandon(removed: set<Obj>)
    | SecondPin(removed: set<Obj>)
    | PublishPin
    | Fail
    | Replay
    | Build(puts: set<Obj>, closure: set<Obj>)
    | Put(o: Obj)
    | BeginCas
    | CasApplied
    | CasConflict
    | CasLost(applied: bool)
    | ReconcilePin
    | ReconcileFail
    | RebasePin
    | RebaseFail
    | Crash

  // The steps of an initialize call.
  datatype InitStep =
    | BeginInit(puts: set<Obj>)
    | InitPut(o: Obj)
    | InitFail
    | InitCreate
    | InitApplied
    | InitConflict
    | InitLost(applied: bool)
    | InitRead
    | InitReadFail
    | InitCrash

  // One step of the whole system: of a call, or a write landing after its response
  // was lost.
  datatype Action = Append(w: nat, step: Step) | Initialize(f: nat, init: InitStep) | Land(h: Head)

  function Current(s: State): Option<Head> {
    if s.history == [] then None else Some(s.history[|s.history| - 1])
  }

  // ----- Which steps are possible ---------------------------------------------------

  predicate StepEnabled(s: State, w: nat, a: Step) {
    if a.Begin? then w !in s.writers && s.history != []
    else w in s.writers && PhaseEnabled(s, s.writers[w], a)
  }

  predicate PhaseEnabled(s: State, wr: Writer, a: Step) {
    var ph := wr.phase;
    match a
    case Begin(_, _) => false
    case StageFile(_) => ph.Staging?
    case Abandon(removed) => ph.Staging? && removed <= wr.staged
    case SecondPin(removed) => ph.Staging? && removed <= wr.staged
    case PublishPin => ph.Ready?
    case Fail => ph.Ready? || ph.Pinned? || ph.Putting?
    case Replay => ph.Pinned? && wr.key in ph.parent.ledger
    case Build(puts, closure) =>
      && ph.Pinned? && wr.key !in ph.parent.ledger && wr.staged <= s.objects
      && (forall o :: o in puts ==> o.Shared?) && closure <= ph.parent.closure + puts + wr.staged
    case Put(o) => ph.Putting? && o in ph.left
    case BeginCas => ph.Putting? && ph.left == {}
    case CasApplied => ph.Casing? && Current(s) == ph.draft.parent
    case CasConflict => ph.Casing? && Current(s) != ph.draft.parent
    case CasLost(applied) => ph.Casing? && (applied ==> Current(s) == ph.draft.parent)
    case ReconcilePin => ph.Reconciling? && s.history != []
    case ReconcileFail => ph.Reconciling?
    case RebasePin => ph.Rebasing? && s.history != []
    case RebaseFail => ph.Rebasing?
    case Crash => !ph.Done?
  }

  predicate InitEnabled(s: State, f: nat, a: InitStep) {
    if a.BeginInit? then f !in s.founders && forall o :: o in a.puts ==> o.Shared?
    else
      && f in s.founders
      && var ph := s.founders[f].phase;
         match a
         case BeginInit(_) => false
         case InitPut(o) => ph.Preparing? && o in ph.left
         case InitFail => ph.Preparing?
         case InitCreate => ph.Preparing? && ph.left == {}
         case InitApplied => ph.Creating? && s.history == []
         case InitConflict => ph.Creating? && s.history != []
         case InitLost(applied) => ph.Creating? && (applied ==> s.history == [])
         case InitRead => ph.Reading?
         case InitReadFail => ph.Reading?
         case InitCrash => ph.Preparing? || ph.Creating? || ph.Reading?
  }

  predicate Enabled(s: State, a: Action) {
    match a
    case Append(w, step) => StepEnabled(s, w, step)
    case Initialize(f, init) => InitEnabled(s, f, init)
    case Land(h) => h in s.pending && Current(s) == h.parent
  }

  // ----- What each step does ----------------------------------------------------------

  // replay: what a ledger says about a call's key, if anything.
  function Replayed(ledger: map<nat, Record>, key: nat, intent: nat): Option<Outcome> {
    if key !in ledger then None
    else if ledger[key].intent != intent then Some(Definite)
    else Some(Success(ledger[key].result))
  }

  // What the current HEAD's ledger says.
  function Pin(s: State, key: nat, intent: nat): Option<Outcome> {
    if Current(s).None? then None else Replayed(Current(s).value.ledger, key, intent)
  }

  function Candidate(id: nat, w: nat, wr: Writer, parent: Head, closure: set<Obj>): Head {
    Head(id, w, parent.version + 1, parent.revision + 1, parent.ledger[wr.key := Record(wr.intent, id)], closure, Some(parent))
  }

  // The acting append call after its step.
  function WriterAfter(p: Policy, s: State, w: nat, a: Step): Writer
    requires StepEnabled(s, w, a)
  {
    if a.Begin? then
      // first pin and idempotency check
      var known := Pin(s, a.key, a.intent);
      Writer(a.key, a.intent, {}, false, {}, if known.Some? then Done(known.value) else Staging)
    else
      var wr := s.writers[w];
      var after := wr.(phase := PhaseAfter(p, s, w, wr, a));
      if a.StageFile? then after.(staged := wr.staged + {Data(w, a.ordinal)})
      else if a.PublishPin? then after.(published := true)
      else if a.Build? then after.(drafts := wr.drafts + {after.phase.draft})
      else after
  }

  function PhaseAfter(p: Policy, s: State, w: nat, wr: Writer, a: Step): (after: Phase)
    requires !a.Begin? && PhaseEnabled(s, wr, a)
    ensures a.Build? ==> after.Putting?
  {
    var ph := wr.phase;
    match a
    case StageFile(_) => Staging
    case Abandon(_) => Done(Definite)
    case SecondPin(_) =>
      if s.history == [] then Done(Definite)
      else
        var known := Pin(s, wr.key, wr.intent);
        if known.Some? then Done(known.value) else Ready
    case PublishPin => if s.history == [] then Done(Definite) else Pinned(Current(s).value, 0)
    case Fail => Done(Definite)
    case Replay => Done(Replayed(ph.parent.ledger, wr.key, wr.intent).value)
    case Build(puts, closure) => Putting(Candidate(s.nextId, w, wr, ph.parent, closure), puts, ph.rebases)
    case Put(o) => ph.(left := ph.left - {o})
    case BeginCas => Casing(ph.draft, 0, ph.rebases)
    case CasApplied => Done(Success(ph.draft.id))
    case CasConflict => Rebasing(ph.draft, ph.lost, ph.rebases)
    case CasLost(_) => Reconciling(ph.draft, ph.lost + 1, ph.rebases)
    case ReconcilePin =>
      var known := Pin(s, wr.key, wr.intent);
      if known.Some? then Done(known.value)
      else if Current(s) == ph.draft.parent then Again(p, ph)
      else Rebasing(ph.draft, ph.lost, ph.rebases)
    case ReconcileFail => Again(p, ph)
    case RebasePin =>
      var known := Pin(s, wr.key, wr.intent);
      if known.Some? then Done(known.value)
      else if ph.rebases + 1 > p.maxRebases then Done(Definite)
      else Pinned(Current(s).value, ph.rebases + 1)
    case RebaseFail => Done(if ph.lost > 0 then Indeterminate else Definite)
    case Crash => Crashed
  }

  // A reconciliation that settled nothing: retry within the policy, else give up.
  function Again(p: Policy, ph: Phase): Phase
    requires ph.Reconciling?
  {
    if ph.lost <= p.maxReconciliations then Casing(ph.draft, ph.lost, ph.rebases) else Done(Indeterminate)
  }

  // The acting initialisation after its step.
  function FounderAfter(p: Policy, s: State, f: nat, a: InitStep): Founder
    requires InitEnabled(s, f, a)
  {
    if a.BeginInit? then Founder(Head(s.nextId, f, 0, 0, map[], a.puts, None), 0, Preparing(a.puts))
    else
      var fo := s.founders[f];
      match a
      case InitPut(o) => fo.(phase := Preparing(fo.phase.left - {o}))
      case InitFail => fo.(phase := FounderFailed)
      case InitCreate => fo.(phase := Creating)
      case InitApplied => fo.(phase := Founded)
      case InitConflict => fo.(phase := Reading(true))
      case InitLost(_) => fo.(phase := Reading(false), lost := fo.lost + 1)
      case InitRead =>
        if s.history == [] then fo.(phase := Unread(p, fo))
        else fo.(phase := if Current(s) == Some(fo.head) then Founded else AlreadyExists)
      case InitReadFail => fo.(phase := Unread(p, fo))
      case InitCrash => fo.(phase := FounderCrashed)
  }

  // The initialiser could not read HEAD.
  function Unread(p: Policy, fo: Founder): FounderPhase
    requires fo.phase.Reading?
  {
    if fo.phase.conflicted then if fo.lost > 0 then FounderIndeterminate else FounderFailed
    else if fo.lost <= p.maxReconciliations then Creating else FounderIndeterminate
  }

  // The HEAD a step writes.
  function Installed(s: State, a: Action): Option<Head>
    requires Enabled(s, a)
  {
    match a
    case Append(w, CasApplied) => Some(s.writers[w].phase.draft)
    case Append(w, CasLost(applied)) => if applied then Some(s.writers[w].phase.draft) else None
    case Initialize(f, InitApplied) => Some(s.founders[f].head)
    case Initialize(f, InitLost(applied)) => if applied then Some(s.founders[f].head) else None
    case Land(h) => Some(h)
    case _ => None
  }

  // The HEAD whose write is left under way, to land later or never.
  function Loose(s: State, a: Action): Option<Head>
    requires Enabled(s, a)
  {
    match a
    case Append(w, CasLost(applied)) => if applied then None else Some(s.writers[w].phase.draft)
    case Initialize(f, InitLost(applied)) => if applied then None else Some(s.founders[f].head)
    case _ => None
  }

  // Staged files a step deletes, best effort: any subset of them.
  function Cleaned(s: State, a: Action): set<Obj>
    requires Enabled(s, a)
  {
    match a
    case Append(_, Abandon(removed)) => removed
    case Append(w, SecondPin(removed)) =>
      var known := Pin(s, s.writers[w].key, s.writers[w].intent);
      if s.history == [] || (known.Some? && known.value.Success?) then removed else {}
    case _ => {}
  }

  function Written(a: Action): set<Obj> {
    match a
    case Append(w, StageFile(ordinal)) => {Data(w, ordinal)}
    case Append(_, Put(o)) => {o}
    case Initialize(_, InitPut(o)) => {o}
    case _ => {}
  }

  function Next(p: Policy, s: State, a: Action): State
    requires Enabled(s, a)
  {
    var installed, loose := Installed(s, a), Loose(s, a);
    State(
      if installed.Some? then s.history + [installed.value] else s.history,
      s.objects - Cleaned(s, a) + Written(a),
      if loose.Some? then s.pending + {loose.value} else s.pending,
      if a.Append? then s.writers[a.w := WriterAfter(p, s, a.w, a.step)] else s.writers,
      if a.Initialize? then s.founders[a.f := FounderAfter(p, s, a.f, a.init)] else s.founders,
      s.nextId + if (a.Append? && a.step.Build?) || (a.Initialize? && a.init.BeginInit?) then 1 else 0)
  }

  const Initial: State := State([], {}, {}, map[], map[], 0)

  // `t` is reached from `s` by these steps.
  ghost predicate Leads(p: Policy, s: State, actions: seq<Action>, t: State)
    decreases |actions|
  {
    if actions == [] then s == t
    else Enabled(s, actions[0]) && Leads(p, Next(p, s, actions[0]), actions[1..], t)
  }

  ghost predicate Reachable(p: Policy, s: State) {
    exists actions :: Leads(p, Initial, actions, s)
  }

  // ----- The invariant ------------------------------------------------------------------

  // Every HEAD belongs to the call that drew it up.
  ghost predicate Owned(s: State, h: Head) {
    match h.parent
    case None => h.author in s.founders && s.founders[h.author].head == h
    case Some(_) => h.author in s.writers && h in s.writers[h.author].drafts
  }

  ghost predicate LinearAt(s: State, i: nat)
    requires i < |s.history|
  {
    var h := s.history[i];
    && Owned(s, h) && h.version == i && h.revision == i && h.closure <= s.objects
    && h.parent == if i == 0 then None else Some(s.history[i - 1])
  }

  ghost predicate Linear(s: State) {
    forall i :: 0 <= i < |s.history| ==> LinearAt(s, i)
  }

  // Staged data counts as used only once its call has entered publication.
  ghost predicate Attributed(s: State, closure: set<Obj>) {
    forall o :: o in closure && o.Data? ==> o.call in s.writers && s.writers[o.call].published
  }

  // A candidate extends its pinned parent by exactly its own call's record.
  ghost predicate Drafted(s: State, w: nat, d: Head)
    requires w in s.writers
  {
    && d.id < s.nextId && d.author == w && d.parent.Some? && d.parent.value in s.history
    && d.version == d.parent.value.version + 1 && d.revision == d.parent.value.revision + 1
    && s.writers[w].key !in d.parent.value.ledger
    && d.ledger == d.parent.value.ledger[s.writers[w].key := Record(s.writers[w].intent, d.id)]
    && Attributed(s, d.closure)
  }

  ghost predicate Drafts(s: State) {
    forall w, d :: w in s.writers && d in s.writers[w].drafts ==> Drafted(s, w, d)
  }

  ghost predicate Pendings(s: State) {
    forall h :: h in s.pending ==> Owned(s, h) && h.closure <= s.objects
  }

  ghost predicate Stagings(s: State) {
    forall w, o :: w in s.writers && o in s.writers[w].staged ==> o.Data? && o.call == w
  }

  // Not part of HEAD history, and no write still under way can make it so.
  ghost predicate Settled(s: State, d: Head) {
    d !in s.history && (d in s.pending ==> Current(s) != d.parent)
  }

  ghost predicate AllSettled(s: State, drafts: set<Head>) {
    forall d :: d in drafts ==> Settled(s, d)
  }

  ghost predicate Untried(s: State, d: Head) {
    d !in s.history && d !in s.pending
  }

  // The current ledger answers the call's key with this result.
  ghost predicate Recorded(s: State, wr: Writer, result: nat) {
    Current(s).Some? && wr.key in Current(s).value.ledger
    && Current(s).value.ledger[wr.key] == Record(wr.intent, result)
  }

  ghost predicate WriterOk(p: Policy, s: State, w: nat)
    requires w in s.writers
  {
    var wr := s.writers[w];
    match wr.phase
    case Staging => wr.drafts == {} && !wr.published
    case Ready => wr.drafts == {} && !wr.published
    case Pinned(parent, rebases) =>
      wr.published && rebases <= p.maxRebases && parent in s.history && AllSettled(s, wr.drafts)
    case Putting(draft, left, rebases) =>
      && wr.published && rebases <= p.maxRebases && draft in wr.drafts && AllSettled(s, wr.drafts - {draft})
      && Untried(s, draft) && draft.closure <= s.objects + left
    case Casing(draft, lost, rebases) =>
      && wr.published && rebases <= p.maxRebases && draft in wr.drafts && AllSettled(s, wr.drafts - {draft})
      && lost <= p.maxReconciliations && (lost == 0 ==> Untried(s, draft)) && draft.closure <= s.objects
    case Reconciling(draft, lost, rebases) =>
      && wr.published && rebases <= p.maxRebases && draft in wr.drafts && AllSettled(s, wr.drafts - {draft})
      && 0 < lost <= p.maxReconciliations + 1 && draft.closure <= s.objects
    case Rebasing(draft, lost, rebases) =>
      && wr.published && rebases <= p.maxRebases && draft in wr.drafts && AllSettled(s, wr.drafts - {draft})
      && lost <= p.maxReconciliations + 1 && (lost == 0 ==> Untried(s, draft)) && Current(s) != draft.parent
    case Done(Success(result)) => Recorded(s, wr, result)
    case Done(Definite) => AllSettled(s, wr.drafts)
    case Done(Indeterminate) => true
    case Crashed => true
  }

  ghost predicate Writers(p: Policy, s: State) {
    forall w :: w in s.writers ==> WriterOk(p, s, w)
  }

  ghost predicate FounderOk(s: State, f: nat)
    requires f in s.founders
  {
    var fo := s.founders[f];
    && fo.head.id < s.nextId && fo.head.author == f && fo.head.parent == None
    && fo.head.version == 0 && fo.head.revision == 0 && fo.head.ledger == map[]
    && (forall o :: o in fo.head.closure ==> o.Shared?)
    && (fo.lost == 0 ==> fo.head !in s.pending && (fo.phase != Founded ==> fo.head !in s.history))
    && match fo.phase
       case Preparing(left) => fo.lost == 0 && fo.head.closure <= s.objects + left
       case Creating => fo.head.closure <= s.objects
       case Reading(conflicted) => fo.head.closure <= s.objects && (conflicted ==> s.history != [])
       case Founded => s.history != [] && s.history[0] == fo.head
       case AlreadyExists => s.history != []
       case FounderFailed => fo.lost == 0
       case FounderIndeterminate => true
       case FounderCrashed => true
  }

  ghost predicate Founders(s: State) {
    forall f :: f in s.founders ==> FounderOk(s, f)
  }

  ghost predicate Inv(p: Policy, s: State) {
    Linear(s) && Drafts(s) && Pendings(s) && Stagings(s) && Writers(p, s) && Founders(s)
  }

  // ----- Facts about one state ----------------------------------------------------------

  lemma InHistory(s: State, h: Head)
    requires Linear(s) && h in s.history
    ensures h.version < |s.history| && s.history[h.version] == h
    ensures Owned(s, h) && h.closure <= s.objects
  {
    var i :| 0 <= i < |s.history| && s.history[i] == h;
    assert LinearAt(s, i);
  }

  // The step from one HEAD to its successor.
  lemma Successor(s: State, i: nat)
    requires Linear(s) && Drafts(s) && 0 < i < |s.history|
    ensures s.history[i].author in s.writers && s.history[i] in s.writers[s.history[i].author].drafts
    ensures var wr := s.writers[s.history[i].author];
      && wr.key !in s.history[i - 1].ledger
      && s.history[i].ledger == s.history[i - 1].ledger[wr.key := Record(wr.intent, s.history[i].id)]
  {
    assert LinearAt(s, i);
    assert Drafted(s, s.history[i].author, s.history[i]);
  }

  // Ledgers only grow along the history.
  lemma {:induction false} LedgerGrows(s: State, i: nat, j: nat, key: nat)
    requires Linear(s) && Drafts(s) && i <= j < |s.history| && key in s.history[i].ledger
    ensures key in s.history[j].ledger && s.history[j].ledger[key] == s.history[i].ledger[key]
    decreases j - i
  {
    if i < j {
      LedgerGrows(s, i, j - 1, key);
      Successor(s, j);
    }
  }

  // A candidate whose key the current ledger lacks, or answers to another intent, is
  // not part of the history.
  lemma UnrecordedSettles(s: State, w: nat, d: Head)
    requires Linear(s) && Drafts(s) && w in s.writers && d in s.writers[w].drafts
    requires Current(s).Some?
    requires var ledger := Current(s).value.ledger;
      s.writers[w].key in ledger ==> ledger[s.writers[w].key].intent != s.writers[w].intent
    ensures d !in s.history
  {
    assert Drafted(s, w, d);
    if d in s.history {
      InHistory(s, d);
      LedgerGrows(s, d.version, |s.history| - 1, s.writers[w].key);
    }
  }

  // Once the key is recorded, HEAD has moved past the candidate's parent.
  lemma RecordedMoves(s: State, w: nat, d: Head)
    requires Linear(s) && Drafts(s) && w in s.writers && d in s.writers[w].drafts
    requires Current(s).Some? && s.writers[w].key in Current(s).value.ledger
    ensures Current(s) != d.parent
  {
    assert Drafted(s, w, d);
  }

  // ----- What one step changes ------------------------------------------------------------

  // Calls keep their identity, and a call in publication stays there.
  ghost predicate Carries(s: State, t: State) {
    && s.nextId <= t.nextId
    && (forall v :: v in s.writers ==>
          && v in t.writers && t.writers[v].key == s.writers[v].key && t.writers[v].intent == s.writers[v].intent
          && s.writers[v].drafts <= t.writers[v].drafts && (s.writers[v].published ==> t.writers[v].published))
    && (forall f :: f in s.founders ==> f in t.founders && t.founders[f].head == s.founders[f].head)
  }

  lemma StepCarries(p: Policy, s: State, a: Action)
    requires Enabled(s, a)
    ensures Carries(s, Next(p, s, a))
  {
    hide PhaseAfter;
  }

  // What a step may install, leave under way or clean up.
  lemma StepSound(p: Policy, s: State, a: Action)
    requires Inv(p, s) && Enabled(s, a)
    ensures forall h :: Installed(s, a) == Some(h) ==> Owned(s, h) && h.parent == Current(s) && h.closure <= s.objects
    ensures forall h :: Loose(s, a) == Some(h) ==> Owned(s, h) && h.closure <= s.objects
    ensures forall o :: o in Cleaned(s, a) ==> o.Data? && o.call in s.writers && !s.writers[o.call].published
  {
  }

  // Clean-up takes nothing that a HEAD, installed or only drawn up, leads to.
  lemma ClosureSurvives(p: Policy, s: State, a: Action, h: Head)
    requires Inv(p, s) && Enabled(s, a) && Owned(s, h)
    ensures h.closure * s.objects <= Next(p, s, a).objects
  {
    hide WriterAfter, FounderAfter, Cleaned, Enabled, WriterOk;
    StepSound(p, s, a);
    if h.parent.Some? {
      assert Drafted(s, h.author, h);
    } else {
      assert FounderOk(s, h.author);
    }
  }

  lemma InstalledIsNext(p: Policy, s: State, a: Action)
    requires Inv(p, s) && Enabled(s, a) && Installed(s, a).Some?
    ensures var h := Installed(s, a).value; h.version == |s.history| && h.revision == |s.history|
  {
    StepSound(p, s, a);
    hide Cleaned, Enabled, WriterOk, FounderOk, Installed;
    var h := Installed(s, a).value;
    if s.history == [] {
      FounderVersion(p, s, h);
    } else {
      assert LinearAt(s, |s.history| - 1);
      DraftVersion(s, h);
    }
  }

  lemma LinearStep(p: Policy, s: State, a: Action)
    requires Inv(p, s) && Enabled(s, a)
    ensures Linear(Next(p, s, a))
  {
    var t := Next(p, s, a);
    StepCarries(p, s, a);
    StepSound(p, s, a);
    hide WriterAfter, FounderAfter, Cleaned, Enabled, WriterOk, FounderOk;
    forall i | 0 <= i < |t.history|
      ensures LinearAt(t, i)
    {
      if i < |s.history| {
        assert LinearAt(s, i);
        ClosureSurvives(p, s, a, s.history[i]);
      } else {
        InstalledIsNext(p, s, a);
        ClosureSurvives(p, s, a, t.history[i]);
      }
    }
  }

  lemma FounderVersion(p: Policy, s: State, h: Head)
    requires Inv(p, s) && Owned(s, h) && h.parent == None
    ensures h.version == 0 && h.revision == 0
  {
    assert FounderOk(s, h.author);
  }

  lemma DraftVersion(s: State, h: Head)
    requires Drafts(s) && Owned(s, h) && h.parent.Some?
    ensures h.version == h.parent.value.version + 1 && h.revision == h.parent.value.revision + 1
    ensures h.parent.value in s.history
  {
    assert Drafted(s, h.author, h);
  }

  lemma PendingsStep(p: Policy, s: State, a: Action)
    requires Inv(p, s) && Enabled(s, a)
    ensures Pendings(Next(p, s, a))
  {
    var t := Next(p, s, a);
    StepCarries(p, s, a);
    StepSound(p, s, a);
    hide WriterAfter, FounderAfter, Cleaned, Enabled, WriterOk, FounderOk;
    forall h | h in t.pending
      ensures Owned(t, h) && h.closure <= t.objects
    {
      ClosureSurvives(p, s, a, h);
    }
  }

  lemma StagingsStep(p: Policy, s: State, a: Action)
    requires Inv(p, s) && Enabled(s, a)
    ensures Stagings(Next(p, s, a))
  {
    hide PhaseAfter, FounderAfter, Cleaned, Installed, Loose, WriterOk, FounderOk, LinearAt, Owned, Drafted;
  }

  // What a candidate is stays true as others move.
  lemma DraftedStays(p: Policy, s: State, a: Action, w: nat, d: Head)
    requires Inv(p, s) && Enabled(s, a) && w in s.writers && Drafted(s, w, d)
    ensures w in Next(p, s, a).writers && Drafted(Next(p, s, a), w, d)
  {
    StepCarries(p, s, a);
    hide WriterAfter, FounderAfter, Cleaned, Installed, Loose, Enabled, WriterOk, FounderOk, Linear, Pendings;
  }

  // A newly built candidate.
  lemma BuiltDrafted(p: Policy, s: State, w: nat, a: Step)
    requires Inv(p, s) && StepEnabled(s, w, a) && a.Build?
    ensures var d := WriterAfter(p, s, w, a).phase.draft; Drafted(Next(p, s, Append(w, a)), w, d)
    ensures WriterAfter(p, s, w, a).drafts == s.writers[w].drafts + {WriterAfter(p, s, w, a).phase.draft}
  {
    assert WriterOk(p, s, w);
    var parent := s.writers[w].phase.parent;
    InHistory(s, parent);
    if parent.parent.Some? {
      assert Drafted(s, parent.author, parent);
    } else {
      assert FounderOk(s, parent.author);
    }
  }

  lemma DraftsStep(p: Policy, s: State, a: Action)
    requires Inv(p, s) && Enabled(s, a)
    ensures Drafts(Next(p, s, a))
  {
    var t := Next(p, s, a);
    forall w, d | w in t.writers && d in t.writers[w].drafts
      ensures Drafted(t, w, d)
    {
      if w in s.writers && d in s.writers[w].drafts {
        DraftedStays(p, s, a, w, d);
      } else {
        FreshDraft(p, s, a, w, d);
        BuiltDrafted(p, s, w, a.step);
      }
    }
  }

  // Only a build adds a candidate.
  lemma FreshDraft(p: Policy, s: State, a: Action, w: nat, d: Head)
    requires Enabled(s, a) && w in Next(p, s, a).writers && d in Next(p, s, a).writers[w].drafts
    requires !(w in s.writers && d in s.writers[w].drafts)
    ensures a.Append? && a.w == w && a.step.Build? && d == WriterAfter(p, s, w, a.step).phase.draft
  {
  }

  // ----- Candidates of one call under the steps of others ---------------------------------

  // The step in which a call tries to install this candidate.
  predicate Tries(s: State, a: Action, w: nat, d: Head) {
    && a.Append? && a.w == w && (a.step.CasApplied? || a.step.CasLost?)
    && w in s.writers && s.writers[w].phase.Casing? && s.writers[w].phase.draft == d
  }

  // Nobody else installs a call's candidate, unless its write was already under way.
  lemma OnlyOwner(p: Policy, s: State, a: Action, w: nat, d: Head)
    requires Inv(p, s) && Enabled(s, a) && w in s.writers && d in s.writers[w].drafts && !Tries(s, a, w, d)
    ensures Installed(s, a) == Some(d) ==> d in s.pending && Current(s) == d.parent
    ensures Loose(s, a) != Some(d)
  {
    assert Drafted(s, w, d);
    if a.Append? && a.w in s.writers {
      assert WriterOk(p, s, a.w);
      if s.writers[a.w].phase.Casing? {
        assert Drafted(s, a.w, s.writers[a.w].phase.draft);
      }
    } else if a.Initialize? && a.f in s.founders {
      assert FounderOk(s, a.f);
    }
  }

  // HEAD never comes back to a state it has left.
  lemma MovesOn(p: Policy, s: State, a: Action, parent: Head)
    requires Inv(p, s) && Enabled(s, a) && parent in s.history
    ensures Current(Next(p, s, a)) == Some(parent) ==> Current(s) == Some(parent) && Installed(s, a).None?
  {
    LinearStep(p, s, a);
    InHistory(s, parent);
    var t := Next(p, s, a);
    hide WriterAfter, FounderAfter, Cleaned, Loose, Enabled;
    if Installed(s, a).Some? {
      assert LinearAt(t, |s.history|);
    }
  }

  lemma SettledStays(p: Policy, s: State, a: Action, w: nat, d: Head)
    requires Inv(p, s) && Enabled(s, a) && w in s.writers && d in s.writers[w].drafts
    requires Settled(s, d) && !Tries(s, a, w, d)
    ensures Settled(Next(p, s, a), d)
  {
    assert Drafted(s, w, d);
    OnlyOwner(p, s, a, w, d);
    MovesOn(p, s, a, d.parent.value);
    hide WriterAfter, FounderAfter, Cleaned, Enabled, Installed, Loose, Inv;
  }

  lemma AllSettledStays(p: Policy, s: State, a: Action, w: nat, drafts: set<Head>)
    requires Inv(p, s) && Enabled(s, a) && w in s.writers && drafts <= s.writers[w].drafts && AllSettled(s, drafts)
    requires forall d :: d in drafts ==> !Tries(s, a, w, d)
    ensures AllSettled(Next(p, s, a), drafts)
  {
    forall d | d in drafts
      ensures Settled(Next(p, s, a), d)
    {
      SettledStays(p, s, a, w, d);
    }
  }

  lemma UntriedStays(p: Policy, s: State, a: Action, w: nat, d: Head)
    requires Inv(p, s) && Enabled(s, a) && w in s.writers && d in s.writers[w].drafts
    requires Untried(s, d) && !Tries(s, a, w, d)
    ensures Untried(Next(p, s, a), d)
  {
    OnlyOwner(p, s, a, w, d);
    hide WriterAfter, FounderAfter, Cleaned, Enabled, Installed, Loose, Inv;
  }

  lemma RecordedStays(p: Policy, s: State, a: Action, wr: Writer, result: nat)
    requires Inv(p, s) && Enabled(s, a) && Recorded(s, wr, result)
    ensures Recorded(Next(p, s, a), wr, result)
  {
    LinearStep(p, s, a);
    DraftsStep(p, s, a);
    var t := Next(p, s, a);
    hide WriterAfter, FounderAfter, Cleaned, Loose, Enabled, Installed, Inv, Linear, Drafts;
    LedgerGrows(t, |s.history| - 1, |t.history| - 1, wr.key);
  }

  // A call that does not move keeps its part of the invariant.
  lemma BystanderStep(p: Policy, s: State, a: Action, w: nat)
    requires Inv(p, s) && Enabled(s, a) && w in s.writers && !(a.Append? && a.w == w)
    ensures WriterOk(p, Next(p, s, a), w)
  {
    var t := Next(p, s, a);
    var wr := s.writers[w];
    assert WriterOk(p, s, w);
    assert t.writers[w] == wr;
    match wr.phase {
      case Done(Success(result)) => RecordedStays(p, s, a, wr, result);
      case Done(Definite) => AllSettledStays(p, s, a, w, wr.drafts);
      case Done(Indeterminate) =>
      case Staging =>
      case Ready =>
      case Crashed =>
      case Pinned(parent, _) =>
        AllSettledStays(p, s, a, w, wr.drafts);
      case Putting(draft, _, _) => BystandingDraft(p, s, a, w, draft);
      case Casing(draft, _, _) => BystandingDraft(p, s, a, w, draft);
      case Reconciling(draft, _, _) => BystandingDraft(p, s, a, w, draft);
      case Rebasing(draft, _, _) => BystandingDraft(p, s, a, w, draft);
    }
  }

  lemma BystandingDraft(p: Policy, s: State, a: Action, w: nat, draft: Head)
    requires Inv(p, s) && Enabled(s, a) && w in s.writers && !(a.Append? && a.w == w)
    requires draft in s.writers[w].drafts && AllSettled(s, s.writers[w].drafts - {draft})
    ensures AllSettled(Next(p, s, a), s.writers[w].drafts - {draft})
    ensures Untried(s, draft) ==> Untried(Next(p, s, a), draft)
    ensures draft.closure * s.objects <= Next(p, s, a).objects
    ensures Current(s) != draft.parent ==> Current(Next(p, s, a)) != draft.parent
  {
    AllSettledStays(p, s, a, w, s.writers[w].drafts - {draft});
    if Untried(s, draft) {
      UntriedStays(p, s, a, w, draft);
    }
    assert Drafted(s, w, draft);
    ClosureSurvives(p, s, a, draft);
    MovesOn(p, s, a, draft.parent.value);
  }

  // ----- The call that moves ---------------------------------------------------------------

  // Steps that leave HEAD and the writes under way alone.
  predicate Quiet(a: Step) { !a.CasApplied? && !a.CasLost? }

  lemma QuietShared(p: Policy, s: State, w: nat, a: Step)
    requires StepEnabled(s, w, a) && Quiet(a)
    ensures var t := Next(p, s, Append(w, a));
      t.history == s.history && t.pending == s.pending && t.writers[w] == WriterAfter(p, s, w, a)
    ensures forall d :: Settled(s, d) ==> Settled(Next(p, s, Append(w, a)), d)
  {
    hide WriterAfter, StepEnabled, Cleaned;
  }

  lemma OwnedOld(p: Policy, s: State, h: Head)
    requires Inv(p, s) && Owned(s, h)
    ensures h.id < s.nextId
  {
    if h.parent.Some? {
      assert Drafted(s, h.author, h);
    } else {
      assert FounderOk(s, h.author);
    }
  }

  // Nothing known yet bears the next identifier.
  lemma FreshUntried(p: Policy, s: State, h: Head)
    requires Inv(p, s) && s.nextId <= h.id
    ensures Untried(s, h)
  {
    if h in s.history {
      InHistory(s, h);
      OwnedOld(p, s, h);
    }
    if h in s.pending {
      OwnedOld(p, s, h);
    }
  }

  lemma BuildStep(p: Policy, s: State, w: nat, a: Step)
    requires Inv(p, s) && StepEnabled(s, w, a) && a.Build?
    ensures WriterOk(p, Next(p, s, Append(w, a)), w)
  {
    var t := Next(p, s, Append(w, a));
    var wr := s.writers[w];
    assert WriterOk(p, s, w);
    QuietShared(p, s, w, a);
    InHistory(s, wr.phase.parent);
    FreshUntried(p, s, t.writers[w].phase.draft);
  }

  // What a pin answers: an answer from the current ledger is the recorded one, and an
  // answer to another intent settles every candidate of the call.
  lemma PinAnswers(p: Policy, s: State, w: nat, d: Head)
    requires Inv(p, s) && w in s.writers && d in s.writers[w].drafts && Current(s).Some?
    ensures var known := Pin(s, s.writers[w].key, s.writers[w].intent);
      && (forall result :: known == Some(Success(result)) ==> Recorded(s, s.writers[w], result))
      && known != Some(Indeterminate)
      && (known == Some(Definite) ==> Settled(s, d))
      && (known.None? ==> d !in s.history)
  {
    var known := Pin(s, s.writers[w].key, s.writers[w].intent);
    if known.None? || known.value.Definite? {
      UnrecordedSettles(s, w, d);
    }
    if known.Some? {
      RecordedMoves(s, w, d);
    }
  }

  lemma ReconcileStep(p: Policy, s: State, w: nat, a: Step)
    requires Inv(p, s) && StepEnabled(s, w, a) && (a.ReconcilePin? || a.ReconcileFail?)
    ensures WriterOk(p, Next(p, s, Append(w, a)), w)
  {
    assert WriterOk(p, s, w);
    QuietShared(p, s, w, a);
    if a.ReconcilePin? {
      PinAnswers(p, s, w, s.writers[w].phase.draft);
    }
    hide Linear, Drafts, Pendings, Writers, Founders, Stagings, Drafted;
  }

  lemma RebaseStep(p: Policy, s: State, w: nat, a: Step)
    requires Inv(p, s) && StepEnabled(s, w, a) && (a.RebasePin? || a.RebaseFail?)
    ensures WriterOk(p, Next(p, s, Append(w, a)), w)
  {
    assert WriterOk(p, s, w);
    QuietShared(p, s, w, a);
    if a.RebasePin? {
      PinAnswers(p, s, w, s.writers[w].phase.draft);
    }
    hide Linear, Drafts, Pendings, Writers, Founders, Stagings, Drafted;
  }

  lemma ReplayStep(p: Policy, s: State, w: nat, a: Step)
    requires Inv(p, s) && StepEnabled(s, w, a) && a.Replay?
    ensures WriterOk(p, Next(p, s, Append(w, a)), w)
  {
    assert WriterOk(p, s, w);
    QuietShared(p, s, w, a);
    var parent := s.writers[w].phase.parent;
    InHistory(s, parent);
    LedgerGrows(s, parent.version, |s.history| - 1, s.writers[w].key);
    hide Linear, Drafts, Pendings, Writers, Founders, Stagings, Drafted;
  }

  lemma CasStep(p: Policy, s: State, w: nat, a: Step)
    requires Inv(p, s) && StepEnabled(s, w, a) && !Quiet(a)
    ensures WriterOk(p, Next(p, s, Append(w, a)), w)
  {
    assert WriterOk(p, s, w);
    var draft := s.writers[w].phase.draft;
    AllSettledStays(p, s, Append(w, a), w, s.writers[w].drafts - {draft});
    assert Drafted(s, w, draft);
    ClosureSurvives(p, s, Append(w, a), draft);
    hide Linear, Drafts, Pendings, Writers, Founders, Stagings;
  }

  lemma SecondPinStep(p: Policy, s: State, w: nat, a: Step)
    requires Inv(p, s) && StepEnabled(s, w, a) && (a.Begin? || a.SecondPin? || a.PublishPin?)
    ensures WriterOk(p, Next(p, s, Append(w, a)), w)
  {
    if !a.Begin? {
      assert WriterOk(p, s, w);
    }
    QuietShared(p, s, w, a);
    hide Linear, Drafts, Pendings, Writers, Founders, Stagings, Drafted;
  }

  lemma PlainStep(p: Policy, s: State, w: nat, a: Step)
    requires Inv(p, s) && StepEnabled(s, w, a)
    requires a.StageFile? || a.Abandon? || a.Fail? || a.Put? || a.BeginCas? || a.CasConflict? || a.Crash?
    ensures WriterOk(p, Next(p, s, Append(w, a)), w)
  {
    assert WriterOk(p, s, w);
    QuietShared(p, s, w, a);
    hide Linear, Drafts, Pendings, Writers, Founders, Stagings, Drafted;
  }

  lemma ActorStep(p: Policy, s: State, w: nat, a: Step)
    requires Inv(p, s) && StepEnabled(s, w, a)
    ensures WriterOk(p, Next(p, s, Append(w, a)), w)
  {
    hide Inv, StepEnabled, Next, WriterOk;
    if a.Begin? || a.SecondPin? || a.PublishPin? {
      SecondPinStep(p, s, w, a);
    } else if a.Replay? {
      ReplayStep(p, s, w, a);
    } else if a.Build? {
      BuildStep(p, s, w, a);
    } else if a.CasApplied? || a.CasLost? {
      CasStep(p, s, w, a);
    } else if a.ReconcilePin? || a.ReconcileFail? {
      ReconcileStep(p, s, w, a);
    } else if a.RebasePin? || a.RebaseFail? {
      RebaseStep(p, s, w, a);
    } else {
      PlainStep(p, s, w, a);
    }
  }

  lemma WritersStep(p: Policy, s: State, a: Action)
    requires Inv(p, s) && Enabled(s, a)
    ensures Writers(p, Next(p, s, a))
  {
    hide WriterOk, PhaseAfter, Inv;
    forall w | w in Next(p, s, a).writers
      ensures WriterOk(p, Next(p, s, a), w)
    {
      if a.Append? && a.w == w {
        ActorStep(p, s, w, a.step);
      } else {
        BystanderStep(p, s, a, w);
      }
    }
  }

  // ----- Initialisations --------------------------------------------------------------------

  lemma FoundersStep(p: Policy, s: State, a: Action)
    requires Inv(p, s) && Enabled(s, a)
    ensures Founders(Next(p, s, a))
  {
    hide FounderOk, FounderAfter, WriterAfter, Inv;
    forall f | f in Next(p, s, a).founders
      ensures FounderOk(Next(p, s, a), f)
    {
      if a.Initialize? && a.f == f {
        FounderActs(p, s, f, a.init);
      } else {
        FounderWaits(p, s, a, f);
      }
    }
  }

  lemma FounderWaits(p: Policy, s: State, a: Action, f: nat)
    requires Inv(p, s) && Enabled(s, a) && f in s.founders && !(a.Initialize? && a.f == f)
    ensures FounderOk(Next(p, s, a), f)
  {
    assert FounderOk(s, f);
    ForeignGenesis(p, s, a, f);
    ClosureSurvives(p, s, a, s.founders[f].head);
    hide WriterAfter, FounderAfter, Cleaned, Enabled, Installed, Loose, Inv;
  }

  // Nobody else writes an initialisation's HEAD, unless that write was already under way.
  lemma ForeignGenesis(p: Policy, s: State, a: Action, f: nat)
    requires Inv(p, s) && Enabled(s, a) && f in s.founders && !(a.Initialize? && a.f == f)
    ensures Installed(s, a) == Some(s.founders[f].head) ==> s.founders[f].head in s.pending
    ensures Loose(s, a) != Some(s.founders[f].head)
  {
    assert FounderOk(s, f);
    if a.Append? && a.w in s.writers {
      assert WriterOk(p, s, a.w);
      if s.writers[a.w].phase.Casing? {
        assert Drafted(s, a.w, s.writers[a.w].phase.draft);
      }
    } else if a.Initialize? && a.f in s.founders {
      assert FounderOk(s, a.f);
    }
  }

  lemma FounderActs(p: Policy, s: State, f: nat, a: InitStep)
    requires Inv(p, s) && InitEnabled(s, f, a)
    ensures FounderOk(Next(p, s, Initialize(f, a)), f)
  {
    if a.BeginInit? {
      FreshUntried(p, s, FounderAfter(p, s, f, a).head);
    } else {
      assert FounderOk(s, f);
      if s.history != [] {
        FirstIsGenesis(p, s);
      }
    }
    hide Linear, Drafts, Pendings, Writers, Founders, Stagings;
  }

  // Only the first entry of the history has no parent.
  lemma FirstIsGenesis(p: Policy, s: State)
    requires Inv(p, s) && s.history != []
    ensures forall h :: h in s.history && h.parent == None ==> s.history[0] == h
  {
    forall h | h in s.history && h.parent == None
      ensures s.history[0] == h
    {
      InHistory(s, h);
      assert LinearAt(s, h.version);
    }
  }

  // ----- Every reachable state --------------------------------------------------------------

  lemma InvStep(p: Policy, s: State, a: Action)
    requires Inv(p, s) && Enabled(s, a)
    ensures Inv(p, Next(p, s, a))
  {
    LinearStep(p, s, a);
    DraftsStep(p, s, a);
    PendingsStep(p, s, a);
    StagingsStep(p, s, a);
    WritersStep(p, s, a);
    FoundersStep(p, s, a);
    hide Next, Enabled, Linear, Drafts, Pendings, Stagings, Writers, Founders;
  }

  lemma {:induction false} InvLeads(p: Policy, s: State, actions: seq<Action>, t: State)
    requires Inv(p, s) && Leads(p, s, actions, t)
    ensures Inv(p, t)
    decreases |actions|
  {
    hide Inv, Next, Enabled;
    if actions != [] {
      InvStep(p, s, actions[0]);
      InvLeads(p, Next(p, s, actions[0]), actions[1..], t);
    }
  }

  lemma InvReachable(p: Policy, s: State)
    requires Reachable(p, s)
    ensures Inv(p, s)
  {
    var actions :| Leads(p, Initial, actions, s);
    InvLeads(p, Initial, actions, s);
  }

  // HEAD runs through versions and revisions 0, 1, 2, ..., each the successor of the one
  // it replaced, and never comes back.
  lemma HistoryIsLinear(p: Policy, s: State, i: nat, j: nat)
    requires Reachable(p, s) && i < |s.history| && j < |s.history|
    ensures s.history[i].version == i && s.history[i].revision == i
    ensures s.history[i].parent == if i == 0 then None else Some(s.history[i - 1])
    ensures i != j ==> s.history[i] != s.history[j]
  {
    InvReachable(p, s);
    assert LinearAt(s, i) && LinearAt(s, j);
  }

  // A write takes effect only over the HEAD it expected, and that HEAD is the current one.
  lemma NoStaleWrite(p: Policy, s: State, a: Action)
    requires Reachable(p, s) && Enabled(s, a) && Installed(s, a).Some?
    ensures var h := Installed(s, a).value;
      h.parent == Current(s) && h !in s.history && h.version == |s.history| && h.revision == |s.history|
  {
    InvReachable(p, s);
    StepSound(p, s, a);
    InstalledIsNext(p, s, a);
    hide Installed, Enabled;
    if Installed(s, a).value in s.history {
      InHistory(s, Installed(s, a).value);
    }
  }

  // The call that committed version `i`.
  function Committer(s: State, i: nat): Option<Writer> {
    if i < |s.history| && s.history[i].author in s.writers then Some(s.writers[s.history[i].author]) else None
  }

  // Every key commits at most once: no two versions after genesis carry the same key.
  lemma KeyCommitsOnce(p: Policy, s: State, i: nat, j: nat)
    requires Reachable(p, s) && 0 < i < j < |s.history|
    ensures Committer(s, i).Some? && Committer(s, j).Some?
    ensures Committer(s, i).value.key != Committer(s, j).value.key
  {
    InvReachable(p, s);
    Successor(s, i);
    Successor(s, j);
    LedgerGrows(s, i, j - 1, Committer(s, i).value.key);
  }

  // The ledger of version `n` holds exactly the keys committed up to it, each with the
  // intent and the result of the call that committed it.
  lemma {:induction false} LedgerExact(p: Policy, s: State, n: nat, key: nat)
    requires Reachable(p, s) && n < |s.history|
    ensures key in s.history[n].ledger <==>
      exists i :: 0 < i <= n && Committer(s, i).Some? && Committer(s, i).value.key == key
    ensures key in s.history[n].ledger ==>
      exists i :: 0 < i <= n && Committer(s, i).Some? && Committer(s, i).value.key == key
        && s.history[n].ledger[key] == Record(Committer(s, i).value.intent, s.history[i].id)
  {
    InvReachable(p, s);
    assert LinearAt(s, n);
    if n == 0 {
      assert FounderOk(s, s.history[0].author);
    } else {
      LedgerExact(p, s, n - 1, key);
      Successor(s, n);
      hide Inv, LinearAt;
      assert Committer(s, n).Some?;
      if key in s.history[n].ledger && key != Committer(s, n).value.key {
        var i :| 0 < i <= n - 1 && Committer(s, i).Some? && Committer(s, i).value.key == key
          && s.history[n - 1].ledger[key] == Record(Committer(s, i).value.intent, s.history[i].id);
        assert i <= n;
      }
    }
  }

  // An Ok result is the one committed for that key, with the same intent.
  lemma OkIsRecorded(p: Policy, s: State, w: nat, result: nat) returns (i: nat)
    requires Reachable(p, s) && w in s.writers && s.writers[w].phase == Done(Success(result))
    ensures 0 < i < |s.history| && s.history[i].id == result
    ensures Committer(s, i).Some? && Committer(s, i).value.key == s.writers[w].key
    ensures Committer(s, i).value.intent == s.writers[w].intent
  {
    InvReachable(p, s);
    assert WriterOk(p, s, w);
    var key := s.writers[w].key;
    LedgerExact(p, s, |s.history| - 1, key);
    i :| 0 < i <= |s.history| - 1 && Committer(s, i).Some? && Committer(s, i).value.key == key
      && s.history[|s.history| - 1].ledger[key] == Record(Committer(s, i).value.intent, s.history[i].id);
  }

  // A finished call takes no further step.
  lemma {:induction false} DoneIsFinal(p: Policy, s: State, actions: seq<Action>, t: State, w: nat)
    requires Leads(p, s, actions, t) && w in s.writers && s.writers[w].phase.Done?
    ensures w in t.writers && t.writers[w] == s.writers[w]
    decreases |actions|
  {
    hide WriterAfter, FounderAfter, InitEnabled, Installed, Loose, Cleaned;
    if actions != [] {
      DoneIsFinal(p, Next(p, s, actions[0]), actions[1..], t, w);
    }
  }

  // Definite failure is definite: however the run goes on, and whatever writes still
  // land, no candidate of the call is ever part of HEAD history.
  lemma DefiniteFailure(p: Policy, s: State, actions: seq<Action>, t: State, w: nat, i: nat)
    requires Reachable(p, s) && w in s.writers && s.writers[w].phase == Done(Definite)
    requires Leads(p, s, actions, t) && i < |t.history|
    ensures t.history[i].parent.Some? ==> t.history[i].author != w
  {
    InvReachable(p, s);
    InvLeads(p, s, actions, t);
    DoneIsFinal(p, s, actions, t, w);
    assert LinearAt(t, i);
    assert WriterOk(p, t, w);
  }

  // Everything a HEAD leads to is stored and stays stored, whatever crashed or was
  // cleaned up in between.
  lemma CommittedIsStored(p: Policy, s: State, actions: seq<Action>, t: State, i: nat)
    requires Reachable(p, s) && Leads(p, s, actions, t) && i < |s.history|
    ensures s.history[i].closure <= t.objects
    ensures i < |t.history| && t.history[i] == s.history[i]
  {
    InvReachable(p, s);
    InvLeads(p, s, actions, t);
    HistoryGrows(p, s, actions, t);
    assert LinearAt(t, i);
  }

  lemma {:induction false} HistoryGrows(p: Policy, s: State, actions: seq<Action>, t: State)
    requires Leads(p, s, actions, t)
    ensures s.history <= t.history
    decreases |actions|
  {
    hide WriterAfter, FounderAfter, Enabled, Installed, Loose, Cleaned;
    if actions != [] {
      HistoryGrows(p, Next(p, s, actions[0]), actions[1..], t);
    }
  }

  // At most one initialisation reports success, and its HEAD is the first.
  lemma OneFounder(p: Policy, s: State, f: nat, g: nat)
    requires Reachable(p, s) && f in s.founders && g in s.founders
    requires s.founders[f].phase == Founded && s.founders[g].phase == Founded
    ensures f == g && s.history != [] && s.history[0] == s.founders[f].head
  {
    InvReachable(p, s);
    assert FounderOk(s, f) && FounderOk(s, g);
  }

  // A failed initialisation that lost no response, or that reports failure, has not
  // founded the table and never will.
  lemma InitFailureIsDefinite(p: Policy, s: State, actions: seq<Action>, t: State, f: nat, i: nat)
    requires Reachable(p, s) && Leads(p, s, actions, t) && f in s.founders && i < |t.history|
    requires s.founders[f].phase == FounderFailed || (s.founders[f].phase == AlreadyExists && s.founders[f].lost == 0)
    ensures t.history[i] != s.founders[f].head
  {
    InvReachable(p, s);
    InvLeads(p, s, actions, t);
    FounderDone(p, s, actions, t, f);
    assert FounderOk(t, f);
  }

  lemma {:induction false} FounderDone(p: Policy, s: State, actions: seq<Action>, t: State, f: nat)
    requires Leads(p, s, actions, t) && f in s.founders
    requires s.founders[f].phase == FounderFailed || s.founders[f].phase == AlreadyExists
    ensures f in t.founders && t.founders[f] == s.founders[f]
    decreases |actions|
  {
    hide WriterAfter, FounderAfter, StepEnabled, Installed, Loose, Cleaned;
    if actions != [] {
      FounderDone(p, Next(p, s, actions[0]), actions[1..], t, f);
    }
  }

  // What a readable HEAD tells an initialisation that lost a response: success exactly
  // when its own HEAD is still the only one; it denies having founded the table exactly
  // when another call has built on its HEAD in the meantime.
  lemma InitReadAnswer(p: Policy, s: State, f: nat)
    requires Reachable(p, s) && InitEnabled(s, f, InitRead) && s.history != []
    ensures var t := Next(p, s, Initialize(f, InitRead)); var head := s.founders[f].head;
      && (t.founders[f].phase == Founded <==> s.history == [head])
      && (t.founders[f].phase == AlreadyExists && head in t.history <==> s.history[0] == head && |s.history| > 1)
  {
    InvReachable(p, s);
    FirstIsGenesis(p, s);
    assert FounderOk(s, f);
    assert LinearAt(s, |s.history| - 1);
    InHistory(s, s.history[0]);
  }

  lemma {:induction false} LeadsOn(p: Policy, s: State, actions: seq<Action>, t: State, a: Action)
    requires Leads(p, s, actions, t) && Enabled(t, a)
    ensures Leads(p, s, actions + [a], Next(p, t, a))
    decreases |actions|
  {
    hide Enabled, Next;
    var all := actions + [a];
    if actions == [] {
      assert all[0] == a && all[1..] == [];
    } else {
      LeadsOn(p, Next(p, s, actions[0]), actions[1..], t, a);
      assert all[0] == actions[0] && all[1..] == actions[1..] + [a];
    }
  }

  lemma ReachNext(p: Policy, s: State, a: Action)
    requires Reachable(p, s) && Enabled(s, a)
    ensures Reachable(p, Next(p, s, a))
  {
    var actions :| Leads(p, Initial, actions, s);
    LeadsOn(p, Initial, actions, s, a);
  }

  lemma Take(p: Policy, s: State, a: Action, t: State)
    requires Reachable(p, s) && Enabled(s, a) && t == Next(p, s, a)
    ensures Reachable(p, t)
  {
    ReachNext(p, s, a);
  }

  // The initialisation writes its HEAD and loses the response.
  lemma FounderReads(p: Policy, genesis: Head) returns (s: State)
    requires genesis == Head(0, 0, 0, 0, map[], {}, None)
    ensures Reachable(p, s) && s == State([genesis], {}, {}, map[], map[0 := Founder(genesis, 1, Reading(false))], 1)
  {
    assert Leads(p, Initial, [], Initial);
    hide Reachable, Leads, StepEnabled, WriterAfter;
    var s1 := State([], {}, {}, map[], map[0 := Founder(genesis, 0, Preparing({}))], 1);
    Take(p, Initial, Initialize(0, BeginInit({})), s1);
    var s2 := State([], {}, {}, map[], map[0 := Founder(genesis, 0, Creating)], 1);
    Take(p, s1, Initialize(0, InitCreate), s2);
    s := State([genesis], {}, {}, map[], map[0 := Founder(genesis, 1, Reading(false))], 1);
    Take(p, s2, Initialize(0, InitLost(true)), s);
  }

  // Meanwhile an append call pins that HEAD ...
  lemma AppendPins(p: Policy, genesis: Head, s: State) returns (t: State)
    requires genesis.ledger == map[] && Reachable(p, s)
    requires s.history == [genesis] && s.writers == map[] && s.objects == {} && s.pending == {}
    ensures Reachable(p, t) && t == s.(writers := map[0 := Writer(7, 7, {}, true, {}, Pinned(genesis, 0))])
  {
    hide Reachable, InitEnabled, FounderAfter;
    var s1 := s.(writers := map[0 := Writer(7, 7, {}, false, {}, Staging)]);
    Take(p, s, Append(0, Begin(7, 7)), s1);
    var s2 := s.(writers := map[0 := Writer(7, 7, {}, false, {}, Ready)]);
    Take(p, s1, Append(0, SecondPin({})), s2);
    t := s.(writers := map[0 := Writer(7, 7, {}, true, {}, Pinned(genesis, 0))]);
    Take(p, s2, Append(0, PublishPin), t);
  }

  // ... and commits over it.
  lemma AppendCommits(p: Policy, genesis: Head, s: State) returns (t: State)
    requires genesis.ledger == map[] && Reachable(p, s)
    requires s.history == [genesis] && s.objects == {} && s.pending == {}
    requires s.writers == map[0 := Writer(7, 7, {}, true, {}, Pinned(genesis, 0))]
    ensures Reachable(p, t) && |t.history| == 2 && t.history[0] == genesis && t.history[1].parent == Some(genesis)
    ensures t.founders == s.founders
  {
    hide Reachable, InitEnabled, FounderAfter;
    var next := Candidate(s.nextId, 0, s.writers[0], genesis, {});
    var s1 := s.(writers := map[0 := Writer(7, 7, {}, true, {next}, Putting(next, {}, 0))], nextId := s.nextId + 1);
    assert s.writers[0].drafts + {next} == {next};
    assert Next(p, s, Append(0, Build({}, {}))).writers[0] == s1.writers[0];
    Take(p, s, Append(0, Build({}, {})), s1);
    var s2 := s1.(writers := map[0 := Writer(7, 7, {}, true, {next}, Casing(next, 0, 0))]);
    Take(p, s1, Append(0, BeginCas), s2);
    t := Next(p, s2, Append(0, CasApplied));
    Take(p, s2, Append(0, CasApplied), t);
  }

  // So the call that founded the table can be told that the table already existed.
  lemma FounderMisinformed() returns (s: State)
    ensures Reachable(Policy(0, 1), s) && 0 in s.founders && s.founders[0].phase == AlreadyExists
    ensures s.history != [] && s.history[0] == s.founders[0].head
  {
    var p := Policy(0, 1);
    var genesis := Head(0, 0, 0, 0, map[], {}, None);
    var s0 := FounderReads(p, genesis);
    var s1 := AppendPins(p, genesis, s0);
    var s2 := AppendCommits(p, genesis, s1);
    hide Reachable, StepEnabled, WriterAfter;
    s := Next(p, s2, Initialize(0, InitRead));
    Take(p, s2, Initialize(0, InitRead), s);
  }
}
