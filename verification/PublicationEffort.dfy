// How hard an append call and an initialisation try: what it takes before either gives up.
module PublicationEffort {
  import opened Wrappers
  import opened Publication

  // ----- What went wrong in a run ---------------------------------------------------------------

  // The call could not build or put its candidate, or could not pin the winner.
  predicate IsFailure(a: Action, w: nat) {
    a == Append(w, Fail) || a == Append(w, RebaseFail)
  }

  predicate IsLoss(a: Action, w: nat) {
    a == Append(w, CasLost(true)) || a == Append(w, CasLost(false))
  }

  function Failures(run: seq<Action>, w: nat): nat {
    if run == [] then 0 else Failures(run[..|run| - 1], w) + if IsFailure(run[|run| - 1], w) then 1 else 0
  }

  // How many answers to the conditional writes of its latest candidate the call has lost.
  function Losses(run: seq<Action>, w: nat): nat {
    if run == [] || run[|run| - 1] == Append(w, BeginCas) then 0
    else Losses(run[..|run| - 1], w) + if IsLoss(run[|run| - 1], w) then 1 else 0
  }

  // No version has the key for another intent.
  predicate OneIntent(s: State, key: nat, intent: nat) {
    forall i :: 0 <= i < |s.history| && key in s.history[i].ledger ==> s.history[i].ledger[key].intent == intent
  }

  // ----- Runs, step by step from the end --------------------------------------------------------

  lemma {:induction false} LeadsBack(p: Policy, s: State, actions: seq<Action>, t: State) returns (before: State)
    requires Leads(p, s, actions, t) && actions != []
    ensures Leads(p, s, actions[..|actions| - 1], before) && Enabled(before, actions[|actions| - 1])
    ensures t == Next(p, before, actions[|actions| - 1])
    decreases |actions|
  {
    hide Enabled, Next;
    if |actions| == 1 {
      before := s;
      assert actions[1..] == [] && actions[..0] == [];
    } else {
      before := LeadsBack(p, Next(p, s, actions[0]), actions[1..], t);
      assert actions[1..][..|actions| - 2] == actions[..|actions| - 1][1..];
      assert actions[1..][|actions| - 2] == actions[|actions| - 1];
    }
  }

  lemma {:induction false} LeadsAfter(p: Policy, s: State, x: seq<Action>, middle: State, y: seq<Action>, t: State)
    requires Leads(p, s, x, middle) && Leads(p, s, x + y, t)
    ensures Leads(p, middle, y, t)
    decreases |x|
  {
    hide Enabled, Next;
    if x == [] {
      assert x + y == y;
    } else {
      assert (x + y)[1..] == x[1..] + y && (x + y)[0] == x[0];
      LeadsAfter(p, Next(p, s, x[0]), x[1..], middle, y, t);
    }
  }

  lemma {:induction false} FailuresAdd(x: seq<Action>, y: seq<Action>, w: nat)
    ensures Failures(x + y, w) == Failures(x, w) + Failures(y, w)
    decreases |y|
  {
    hide IsFailure;
    if y == [] {
      assert x + y == x;
    } else {
      assert (x + y)[..|x + y| - 1] == x + y[..|y| - 1];
      FailuresAdd(x, y[..|y| - 1], w);
    }
  }

  // ----- Rebasing --------------------------------------------------------------------------------

  // Writers come after the founder, and keep what they have staged until they are done.
  ghost predicate Underway(s: State) {
    && (forall w :: w in s.writers ==> s.history != [])
    && (forall w :: w in s.writers ==> Keeps(s, w))
  }

  ghost predicate Keeps(s: State, w: nat)
    requires w in s.writers
  {
    !s.writers[w].phase.Done? && !s.writers[w].phase.Crashed? ==> s.writers[w].staged <= s.objects
  }

  lemma UnderwayStep(p: Policy, s: State, a: Action)
    requires Underway(s) && Stagings(s) && Enabled(s, a)
    ensures Underway(Next(p, s, a))
  {
    var t := Next(p, s, a);
    hide Installed, Loose, FounderAfter, InitEnabled, Pin, Replayed, Again;
    forall w | w in t.writers
      ensures t.history != [] && Keeps(t, w)
    {
      if a.Append? && a.w == w {
        KeepsOwn(p, s, w, a.step);
      } else {
        KeepsOthers(p, s, a, w);
      }
    }
  }

  lemma KeepsOwn(p: Policy, s: State, w: nat, a: Step)
    requires Underway(s) && StepEnabled(s, w, a)
    ensures Next(p, s, Append(w, a)).history != [] && Keeps(Next(p, s, Append(w, a)), w)
  {
    assert w in s.writers ==> Keeps(s, w);
    hide Installed, Loose, FounderAfter, InitEnabled, Replayed, Again;
  }

  lemma KeepsOthers(p: Policy, s: State, a: Action, w: nat)
    requires Underway(s) && Stagings(s) && Enabled(s, a) && w in s.writers && !(a.Append? && a.w == w)
    ensures Next(p, s, a).history != [] && Keeps(Next(p, s, a), w)
  {
    CleanedOwn(s, a);
    assert Keeps(s, w);
    hide Installed, Loose, WriterAfter, FounderAfter, Enabled, Cleaned;
  }

  lemma CleanedOwn(s: State, a: Action)
    requires Stagings(s) && Enabled(s, a)
    ensures forall o :: o in Cleaned(s, a) ==> a.Append? && o.Data? && o.call == a.w
  {
  }

  lemma {:induction false} UnderwayLeads(p: Policy, actions: seq<Action>, t: State)
    requires Leads(p, Initial, actions, t)
    ensures Underway(t)
    decreases |actions|
  {
    hide Enabled, Next, Inv, Underway;
    if actions == [] {
      assert Underway(Initial) by {
        NobodyUnderway();
      }
    } else {
      var before := LeadsBack(p, Initial, actions, t);
      UnderwayLeads(p, actions[..|actions| - 1], before);
      assert Stagings(before) by {
        StagedIn(p, actions[..|actions| - 1], before);
      }
      UnderwayStep(p, before, actions[|actions| - 1]);
    }
  }

  lemma NobodyUnderway()
    ensures Underway(Initial)
  {
  }

  lemma StagedIn(p: Policy, actions: seq<Action>, s: State)
    requires Leads(p, Initial, actions, s)
    ensures Stagings(s)
  {
    hide Stagings;
    assert Reachable(p, s);
    InvReachable(p, s);
  }

  // A call that started when there were `start` versions has been overtaken once for each
  // rebase, and gives up only when it has been overtaken once more than the policy allows.
  ghost predicate Overtaken(p: Policy, s: State, start: nat, phase: Phase) {
    match phase
    case Pinned(parent, rebases) => start + rebases <= parent.version + 1
    case Putting(draft, _, rebases) => draft.parent.Some? && start + rebases <= draft.parent.value.version + 1
    case Casing(draft, _, rebases) => draft.parent.Some? && start + rebases <= draft.parent.value.version + 1
    case Reconciling(draft, _, rebases) => draft.parent.Some? && start + rebases <= draft.parent.value.version + 1
    case Rebasing(draft, _, rebases) => draft.parent.Some? && start + rebases <= draft.parent.value.version + 1 < |s.history|
    case Done(Definite) => start + p.maxRebases + 1 <= |s.history|
    case _ => true
  }

  // A HEAD that is not the current one has been replaced.
  lemma Replaced(p: Policy, s: State, w: nat, draft: Head)
    requires Inv(p, s) && w in s.writers && draft in s.writers[w].drafts && Current(s) != draft.parent
    ensures draft.parent.Some? && draft.parent.value.version + 1 < |s.history|
  {
    assert Drafted(s, w, draft);
    InHistory(s, draft.parent.value);
  }

  lemma CurrentVersion(p: Policy, s: State)
    requires Inv(p, s) && s.history != []
    ensures Current(s).Some? && Current(s).value.version + 1 == |s.history| && Current(s).value in s.history
  {
    assert LinearAt(s, |s.history| - 1);
  }

  // An answer to the call's key is an Ok.
  lemma KnownIsOk(s: State, ledger: map<nat, Record>, key: nat, intent: nat)
    requires OneIntent(s, key, intent) && (exists h :: h in s.history && h.ledger == ledger)
    ensures Replayed(ledger, key, intent).Some? ==> Replayed(ledger, key, intent).value.Success?
  {
    var h :| h in s.history && h.ledger == ledger;
    var i :| 0 <= i < |s.history| && s.history[i] == h;
  }

  lemma PinIsOk(s: State, key: nat, intent: nat)
    requires OneIntent(s, key, intent)
    ensures Pin(s, key, intent).Some? ==> Pin(s, key, intent).value.Success?
  {
    hide Replayed, OneIntent;
    if s.history != [] {
      assert s.history[|s.history| - 1] in s.history;
      KnownIsOk(s, Current(s).value.ledger, key, intent);
    }
  }

  // A step of the call itself.
  lemma OvertakenOwn(p: Policy, s: State, w: nat, a: Step, start: nat)
    requires Inv(p, s) && StepEnabled(s, w, a) && w in s.writers && !s.writers[w].phase.Staging?
    requires start <= |s.history| && s.history != [] && !IsFailure(Append(w, a), w)
    requires OneIntent(s, s.writers[w].key, s.writers[w].intent)
    requires Overtaken(p, s, start, s.writers[w].phase)
    ensures Overtaken(p, Next(p, s, Append(w, a)), start, WriterAfter(p, s, w, a).phase)
  {
    var wr := s.writers[w];
    CurrentVersion(p, s);
    PinIsOk(s, wr.key, wr.intent);
    assert WriterOk(p, s, w);
    if a.Replay? {
      KnownIsOk(s, wr.phase.parent.ledger, wr.key, wr.intent);
    } else if a.CasConflict? || a.ReconcilePin? {
      if Current(s) != wr.phase.draft.parent {
        Replaced(p, s, w, wr.phase.draft);
      }
    }
    hide Inv, WriterOk, OneIntent, Pin, Replayed, Cleaned, FounderAfter, InitEnabled;
  }

  // What others do only adds versions.
  lemma OvertakenOthers(p: Policy, s: State, t: State, start: nat, phase: Phase)
    requires Overtaken(p, s, start, phase) && |s.history| <= |t.history|
    ensures Overtaken(p, t, start, phase)
  {
  }

  lemma OthersKeep(p: Policy, s: State, a: Action, w: nat)
    requires Enabled(s, a) && w in s.writers && !(a.Append? && a.w == w)
    ensures w in Next(p, s, a).writers && Next(p, s, a).writers[w] == s.writers[w]
  {
    hide WriterAfter, FounderAfter, Installed, Loose, Cleaned, Enabled;
  }

  lemma StepGrows(p: Policy, s: State, a: Action)
    requires Enabled(s, a)
    ensures s.history <= Next(p, s, a).history
  {
    hide WriterAfter, FounderAfter, Installed, Loose, Cleaned, Enabled;
  }

  // The lost answers a call counts are those to the writes of its latest candidate.
  predicate Counted(p: Policy, run: seq<Action>, w: nat, phase: Phase) {
    match phase
    case Casing(_, lost, _) => lost == Losses(run, w)
    case Reconciling(_, lost, _) => lost == Losses(run, w)
    case Rebasing(_, lost, _) => lost == Losses(run, w)
    case Done(Indeterminate) => Losses(run, w) > 0 && (Failures(run, w) == 0 ==> Losses(run, w) == p.maxReconciliations + 1)
    case _ => true
  }

  lemma CountedOwn(p: Policy, s: State, run: seq<Action>, w: nat, a: Step)
    requires Inv(p, s) && StepEnabled(s, w, a) && w in s.writers && !s.writers[w].phase.Staging? && s.history != []
    requires Counted(p, run, w, s.writers[w].phase)
    ensures Counted(p, run + [Append(w, a)], w, WriterAfter(p, s, w, a).phase)
  {
    var wr := s.writers[w];
    assert WriterOk(p, s, w);
    assert (run + [Append(w, a)])[..|run|] == run;
    hide Inv, WriterOk, Cleaned, FounderAfter, InitEnabled;
  }

  // ----- What giving up takes, over every run -------------------------------------------------------

  // The invariant of a run that starts where the call is ready to publish.
  ghost predicate Tracked(p: Policy, s: State, run: seq<Action>, w: nat, start: nat) {
    && w in s.writers && !s.writers[w].phase.Staging? && start <= |s.history| && s.history != []
    && Counted(p, run, w, s.writers[w].phase)
    && (Failures(run, w) == 0 && OneIntent(s, s.writers[w].key, s.writers[w].intent) ==> Overtaken(p, s, start, s.writers[w].phase))
  }

  lemma TrackedOwn(p: Policy, s: State, run: seq<Action>, w: nat, a: Step, start: nat)
    requires Inv(p, s) && Tracked(p, s, run, w, start) && StepEnabled(s, w, a)
    ensures Tracked(p, Next(p, s, Append(w, a)), run + [Append(w, a)], w, start)
  {
    hide Inv, StepEnabled, PhaseAfter, FounderAfter, Installed, Loose, Cleaned, OneIntent, IsFailure, Overtaken, Counted;
    var t := Next(p, s, Append(w, a));
    CountedOwn(p, s, run, w, a);
    StepGrows(p, s, Append(w, a));
    StepCarries(p, s, Append(w, a));
    FailuresAdd(run, [Append(w, a)], w);
    OneFailure(Append(w, a), w);
    StaysOn(p, s, w, a);
    if Failures(run + [Append(w, a)], w) == 0 && OneIntent(t, t.writers[w].key, t.writers[w].intent) {
      OneIntentBefore(s, t, s.writers[w].key, s.writers[w].intent);
      OvertakenOwn(p, s, w, a, start);
    }
  }

  lemma OneFailure(a: Action, w: nat)
    ensures Failures([a], w) == if IsFailure(a, w) then 1 else 0
  {
    assert [a][..0] == [] && Failures([], w) == 0;
  }

  lemma OneIntentBefore(s: State, t: State, key: nat, intent: nat)
    requires s.history <= t.history && OneIntent(t, key, intent)
    ensures OneIntent(s, key, intent)
  {
    assert forall i :: 0 <= i < |s.history| ==> s.history[i] == t.history[i];
  }

  lemma StaysOn(p: Policy, s: State, w: nat, a: Step)
    requires StepEnabled(s, w, a) && w in s.writers && !s.writers[w].phase.Staging?
    ensures !WriterAfter(p, s, w, a).phase.Staging?
  {
  }

  lemma TrackedOthers(p: Policy, s: State, run: seq<Action>, w: nat, a: Action, start: nat)
    requires Tracked(p, s, run, w, start) && Enabled(s, a) && !(a.Append? && a.w == w)
    ensures Tracked(p, Next(p, s, a), run + [a], w, start)
  {
    hide Enabled, Next, OneIntent, Overtaken;
    var t := Next(p, s, a);
    OthersKeep(p, s, a, w);
    StepGrows(p, s, a);
    assert (run + [a])[..|run|] == run;
    if Failures(run + [a], w) == 0 && OneIntent(t, t.writers[w].key, t.writers[w].intent) {
      OneIntentBefore(s, t, s.writers[w].key, s.writers[w].intent);
      OvertakenOthers(p, s, t, start, s.writers[w].phase);
    }
  }

  lemma {:induction false} TrackedLeads(p: Policy, s: State, actions: seq<Action>, t: State, w: nat)
    requires Inv(p, s) && Underway(s) && w in s.writers && s.writers[w].phase.Ready? && Leads(p, s, actions, t)
    ensures Tracked(p, t, actions, w, |s.history|)
    decreases |actions|
  {
    hide Inv, Enabled, Next, Tracked;
    if actions == [] {
      TrackedStarts(p, s, w);
    } else {
      var before := LeadsBack(p, s, actions, t);
      var a := actions[|actions| - 1];
      TrackedLeads(p, s, actions[..|actions| - 1], before, w);
      InvLeads(p, s, actions[..|actions| - 1], before);
      assert actions == actions[..|actions| - 1] + [a];
      if a.Append? && a.w == w {
        assert StepEnabled(before, w, a.step) by {
          EnabledStep(before, w, a.step);
        }
        TrackedOwn(p, before, actions[..|actions| - 1], w, a.step, |s.history|);
      } else {
        TrackedOthers(p, before, actions[..|actions| - 1], w, a, |s.history|);
      }
    }
  }

  lemma EnabledStep(s: State, w: nat, a: Step)
    requires Enabled(s, Append(w, a))
    ensures StepEnabled(s, w, a)
  {
  }

  lemma TrackedStarts(p: Policy, s: State, w: nat)
    requires Underway(s) && w in s.writers && s.writers[w].phase.Ready?
    ensures Tracked(p, s, [], w, |s.history|)
  {
  }

  // A call none of whose builds, puts and pins fails, and whose key nobody uses for another
  // intent, fails for good only after others have replaced HEAD once more than it may rebase.
  lemma FailsOnlyOvertaken(p: Policy, s: State, actions: seq<Action>, t: State, w: nat)
    requires Reachable(p, s) && w in s.writers && s.writers[w].phase.Ready? && Leads(p, s, actions, t)
    requires w in t.writers && t.writers[w].phase == Done(Definite)
    requires Failures(actions, w) == 0 && OneIntent(t, t.writers[w].key, t.writers[w].intent)
    ensures |t.history| >= |s.history| + p.maxRebases + 1
    ensures forall i :: |s.history| <= i < |t.history| ==> t.history[i].author != w
  {
    hide Inv, Enabled, Next, Linear;
    UnderwayReachable(p, s);
    InvReachable(p, s);
    TrackedLeads(p, s, actions, t, w);
    forall i | |s.history| <= i < |t.history|
      ensures t.history[i].author != w
    {
      assert Reachable(p, t) by {
        ReachOn(p, s, actions, t);
      }
      HistoryIsLinear(p, t, i, i);
      DefiniteFailure(p, t, [], t, w, i);
    }
  }

  // A call is left in doubt only by losing answers to the writes of one candidate: one more
  // than it may reconcile, unless it could not pin the HEAD that overtook it.
  lemma DoubtsOnlyLost(p: Policy, s: State, actions: seq<Action>, t: State, w: nat)
    requires Reachable(p, s) && w in s.writers && s.writers[w].phase.Ready? && Leads(p, s, actions, t)
    requires w in t.writers && t.writers[w].phase == Done(Indeterminate)
    ensures Losses(actions, w) > 0
    ensures Failures(actions, w) == 0 ==> Losses(actions, w) == p.maxReconciliations + 1
  {
    hide Inv, Enabled, Next;
    UnderwayReachable(p, s);
    InvReachable(p, s);
    TrackedLeads(p, s, actions, t, w);
  }

  lemma UnderwayReachable(p: Policy, s: State)
    requires Reachable(p, s)
    ensures Underway(s)
  {
    hide Underway;
    var actions :| Leads(p, Initial, actions, s);
    UnderwayLeads(p, actions, s);
  }

  lemma ReachOn(p: Policy, s: State, actions: seq<Action>, t: State)
    requires Reachable(p, s) && Leads(p, s, actions, t)
    ensures Reachable(p, t)
  {
    var first :| Leads(p, Initial, first, s);
    LeadsJoin(p, Initial, first, s, actions, t);
  }

  lemma {:induction false} LeadsJoin(p: Policy, s: State, x: seq<Action>, middle: State, y: seq<Action>, t: State)
    requires Leads(p, s, x, middle) && Leads(p, middle, y, t)
    ensures Leads(p, s, x + y, t)
    decreases |x|
  {
    hide Enabled, Next;
    if x == [] {
      assert x + y == y;
    } else {
      assert (x + y)[1..] == x[1..] + y && (x + y)[0] == x[0];
      LeadsJoin(p, Next(p, s, x[0]), x[1..], middle, y, t);
    }
  }

  // A call whose key is recorded when it begins is answered from the ledger for good: it
  // stages nothing and draws up no candidate, however the run goes on.
  lemma RepeatsAreAnswered(p: Policy, s: State, w: nat, key: nat, intent: nat, actions: seq<Action>, t: State)
    requires Enabled(s, Append(w, Begin(key, intent))) && key in Current(s).value.ledger
    requires Leads(p, Next(p, s, Append(w, Begin(key, intent))), actions, t)
    ensures w in t.writers && t.writers[w].staged == {} && t.writers[w].drafts == {}
    ensures var record := Current(s).value.ledger[key];
      t.writers[w].phase == Done(if record.intent == intent then Success(record.result) else Definite)
  {
    DoneIsFinal(p, Next(p, s, Append(w, Begin(key, intent))), actions, t, w);
  }

  // Before publication a call that fails deletes what it has staged, but not when its key turns
  // out to be recorded for another intent: then every file stays for good.
  lemma ConflictLeavesFiles(p: Policy, s: State, w: nat, removed: set<Obj>, actions: seq<Action>, t: State)
    requires Reachable(p, s) && Enabled(s, Append(w, SecondPin(removed)))
    requires Pin(s, s.writers[w].key, s.writers[w].intent) == Some(Definite)
    requires Leads(p, Next(p, s, Append(w, SecondPin(removed))), actions, t)
    ensures w in t.writers && t.writers[w].phase == Done(Definite)
    ensures t.writers[w].staged == s.writers[w].staged <= t.objects
  {
    var next := Next(p, s, Append(w, SecondPin(removed)));
    UnderwayReachable(p, s);
    assert Keeps(s, w);
    assert next.writers[w] == s.writers[w].(phase := Done(Definite)) && next.objects == s.objects;
    ReachNext(p, s, Append(w, SecondPin(removed)));
    InvReachable(p, next);
    FilesStay(p, next, w, actions, t);
  }

  // Nobody deletes the files of a call that has returned.
  lemma {:induction false} FilesStay(p: Policy, s: State, w: nat, actions: seq<Action>, t: State)
    requires Inv(p, s) && Leads(p, s, actions, t) && w in s.writers && s.writers[w].phase.Done?
    requires s.writers[w].staged <= s.objects
    ensures w in t.writers && t.writers[w] == s.writers[w] && s.writers[w].staged <= t.objects
    decreases |actions|
  {
    hide Inv, Enabled, Next, Stagings;
    if actions != [] {
      var next := Next(p, s, actions[0]);
      OneStepStays(p, s, w, actions[0]);
      InvStep(p, s, actions[0]);
      FilesStay(p, next, w, actions[1..], t);
    }
  }

  lemma OneStepStays(p: Policy, s: State, w: nat, a: Action)
    requires Inv(p, s) && Enabled(s, a) && w in s.writers && s.writers[w].phase.Done? && s.writers[w].staged <= s.objects
    ensures w in Next(p, s, a).writers && Next(p, s, a).writers[w] == s.writers[w]
    ensures s.writers[w].staged <= Next(p, s, a).objects
  {
    CleanedOwn(s, a);
    hide FounderAfter, PhaseAfter, InitEnabled, Installed, Loose, Cleaned, Linear, Drafts, Writers, Founders, Pendings;
    assert !(a.Append? && a.w == w);
  }

  // A conditional write whose answer is lost on the way may take effect at any later time,
  // as long as HEAD is the one it expects.
  lemma LostWritesLand(p: Policy, s: State, w: nat, actions: seq<Action>, t: State)
    requires Enabled(s, Append(w, CasLost(false))) && Leads(p, Next(p, s, Append(w, CasLost(false))), actions, t)
    ensures var draft := s.writers[w].phase.draft;
      && (Enabled(t, Land(draft)) <==> Current(t) == draft.parent)
      && (Enabled(t, Land(draft)) ==> Next(p, t, Land(draft)).history == t.history + [draft])
  {
    PendingStays(p, Next(p, s, Append(w, CasLost(false))), actions, t, s.writers[w].phase.draft);
  }

  lemma {:induction false} PendingStays(p: Policy, s: State, actions: seq<Action>, t: State, h: Head)
    requires Leads(p, s, actions, t) && h in s.pending
    ensures h in t.pending
    decreases |actions|
  {
    hide WriterAfter, FounderAfter, Enabled, Installed, Loose, Cleaned;
    if actions != [] {
      PendingStays(p, Next(p, s, actions[0]), actions[1..], t, h);
    }
  }

  // ----- Initialisations ----------------------------------------------------------------------------

  // How many answers to its conditional creates the initialisation has lost.
  function InitLosses(run: seq<Action>, f: nat): nat {
    if run == [] then 0
    else InitLosses(run[..|run| - 1], f) + if run[|run| - 1] == Initialize(f, InitLost(true)) || run[|run| - 1] == Initialize(f, InitLost(false)) then 1 else 0
  }

  // It was told that there is a HEAD, but could not read it.
  ghost predicate Conflicted(run: seq<Action>, f: nat) {
    Initialize(f, InitConflict) in run
  }

  ghost predicate FounderTracked(p: Policy, s: State, run: seq<Action>, f: nat) {
    f in s.founders ==>
      var fo := s.founders[f];
      && fo.lost == InitLosses(run, f)
      && (fo.phase == Reading(true) ==> Conflicted(run, f))
      && (fo.phase.Creating? ==> fo.lost <= p.maxReconciliations)
      && (fo.phase == Reading(false) ==> 0 < fo.lost <= p.maxReconciliations + 1)
      && (fo.phase.FounderIndeterminate? ==> fo.lost > 0 && (!Conflicted(run, f) ==> fo.lost == p.maxReconciliations + 1))
      && (fo.phase.Preparing? ==> fo.lost == 0)
  }

  lemma RunMore(run: seq<Action>, f: nat, a: InitStep)
    ensures InitLosses(run + [Initialize(f, a)], f) == InitLosses(run, f) + if a.InitLost? then 1 else 0
    ensures Conflicted(run + [Initialize(f, a)], f) <==> Conflicted(run, f) || a.InitConflict?
  {
    var more := run + [Initialize(f, a)];
    assert more[..|run|] == run && more[|run|] == Initialize(f, a);
  }

  lemma FounderTrackedOwn(p: Policy, s: State, run: seq<Action>, f: nat, a: InitStep)
    requires FounderTracked(p, s, run, f) && InitEnabled(s, f, a) && (f !in s.founders ==> InitLosses(run, f) == 0)
    ensures FounderTracked(p, Next(p, s, Initialize(f, a)), run + [Initialize(f, a)], f)
  {
    hide Installed, Loose, InitLosses, Conflicted;
    RunMore(run, f, a);
  }

  lemma FounderTrackedStep(p: Policy, s: State, run: seq<Action>, a: Action, f: nat)
    requires FounderTracked(p, s, run, f) && Enabled(s, a) && (f !in s.founders ==> InitLosses(run, f) == 0)
    ensures FounderTracked(p, Next(p, s, a), run + [a], f)
    ensures f !in Next(p, s, a).founders ==> InitLosses(run + [a], f) == 0
  {
    hide WriterAfter, FounderAfter, StepEnabled, InitEnabled, Installed, Loose, Cleaned;
    if a.Initialize? && a.f == f {
      FounderTrackedOwn(p, s, run, f, a.init);
    } else {
      assert (run + [a])[..|run|] == run;
      assert Conflicted(run, f) <==> Conflicted(run + [a], f);
    }
  }

  lemma {:induction false} FounderTrackedLeads(p: Policy, actions: seq<Action>, t: State, f: nat)
    requires Leads(p, Initial, actions, t)
    ensures FounderTracked(p, t, actions, f) && (f !in t.founders ==> InitLosses(actions, f) == 0)
    decreases |actions|
  {
    hide Enabled, Next, FounderTracked;
    if actions == [] {
      assert FounderTracked(p, Initial, [], f) by {
        NoFounder(p, f);
      }
    } else {
      var before := LeadsBack(p, Initial, actions, t);
      FounderTrackedLeads(p, actions[..|actions| - 1], before, f);
      FounderTrackedStep(p, before, actions[..|actions| - 1], actions[|actions| - 1], f);
      assert actions == actions[..|actions| - 1] + [actions[|actions| - 1]];
    }
  }

  lemma NoFounder(p: Policy, f: nat)
    ensures FounderTracked(p, Initial, [], f)
  {
  }

  // An initialisation is left in doubt only by lost answers: more than it may reconcile,
  // unless it was then told that there is a HEAD and could not read it.
  lemma FounderDoubtsOnlyLost(p: Policy, actions: seq<Action>, t: State, f: nat)
    requires Leads(p, Initial, actions, t) && f in t.founders && t.founders[f].phase == FounderIndeterminate
    ensures InitLosses(actions, f) > 0
    ensures Initialize(f, InitConflict) !in actions ==> InitLosses(actions, f) == p.maxReconciliations + 1
  {
    FounderTrackedLeads(p, actions, t, f);
  }
}
