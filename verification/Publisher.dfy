// The publication loops as programs: an append call and an initialisation drive the
// shared system against any behaviour of the other calls and of the store, and every
// run they make is a run of the step system of Publication.
module Publisher {
  import opened Wrappers
  import opened Publication
  import opened PublicationEffort

  // How the store answers a conditional write.
  datatype Reply = Answered | LostBefore | LostAfter

  datatype CasOutcome = Applied | Conflict | Lost

  // What the environment does around one operation of a call: the steps others take
  // first, whether the operation succeeds, and what a candidate builder comes up with: the
  // objects it makes, and which of those it may lead to it uses.
  datatype Choice = Choice(others: seq<Action>, ok: bool, reply: Reply, makes: set<nat>, uses: set<Obj>)

  class Table {
    const policy: Policy
    const environment: nat -> Choice
    var tick: nat
    var system: State
    ghost var run: seq<Action>

    ghost predicate Valid()
      reads this
    {
      Leads(policy, Initial, run, system)
    }

    // Every operation awaited in this time succeeds.
    ghost predicate AllOk(from: nat, to: nat) {
      forall n :: from <= n < to ==> environment(n).ok
    }

    // Since then, nothing of the call has failed unless the environment chose so.
    ghost predicate Smooth(from: nat, before: seq<Action>, w: nat)
      reads this
    {
      from <= tick && before <= run && (AllOk(from, tick) ==> Failures(run, w) == Failures(before, w))
    }

    constructor (p: Policy, e: nat -> Choice)
      ensures Valid() && policy == p && environment == e && run == []
    {
      policy, environment, tick, system, run := p, e, 0, Initial, [];
    }

    method Take(a: Action)
      requires Valid() && Enabled(system, a)
      modifies this`system, this`run
      ensures Valid() && system == Next(policy, old(system), a) && run == old(run) + [a]
      ensures forall w :: Failures(run, w) == Failures(old(run), w) + if IsFailure(a, w) then 1 else 0
    {
      hide Next, Enabled, Failures;
      forall w
        ensures Failures(run + [a], w) == Failures(run, w) + if IsFailure(a, w) then 1 else 0
      {
        FailuresAdd(run, [a], w);
        OneFailure(a, w);
      }
      LeadsOn(policy, Initial, run, system, a);
      system, run := Next(policy, system, a), run + [a];
    }

    // HEAD is there, and the call's files are.
    lemma Founded(w: nat)
      requires Valid() && w in system.writers
      ensures system.history != [] && Keeps(system, w)
    {
      assert Reachable(policy, system);
      UnderwayReachable(policy, system);
    }

    // A step of the call itself.
    method Move(w: nat, a: Step)
      requires Valid() && StepEnabled(system, w, a)
      modifies this`system, this`run
      ensures Valid() && w in system.writers && system.writers[w] == WriterAfter(policy, old(system), w, a)
      ensures run == old(run) + [Append(w, a)]
      ensures !IsFailure(Append(w, a), w) ==> Failures(run, w) == Failures(old(run), w)
      ensures !a.CasApplied? && !a.CasLost? ==> system.history == old(system.history)
    {
      hide Valid, Failures, PhaseAfter, FounderAfter, Loose, Cleaned;
      Take(Append(w, a));
    }

    // Any steps of other calls, and writes that land.
    method Others(w: nat, actions: seq<Action>)
      requires Valid() && w in system.writers
      modifies this`system, this`run
      ensures Valid() && w in system.writers && system.writers[w] == old(system.writers[w])
      ensures old(run) <= run && Failures(run, w) == Failures(old(run), w)
    {
      for i := 0 to |actions|
        invariant Valid() && w in system.writers && system.writers[w] == old(system.writers[w])
        invariant old(run) <= run && Failures(run, w) == Failures(old(run), w)
      {
        var a := actions[i];
        if Enabled(system, a) && !(a.Append? && a.w == w) {
          hide WriterAfter, FounderAfter, Enabled, Installed, Loose, Cleaned, Valid, Failures;
          Take(a);
        }
      }
    }

    // Let the others go first, then say what happens to this operation.
    method Await(w: nat) returns (choice: Choice)
      requires Valid() && w in system.writers
      modifies this`system, this`run, this`tick
      ensures Valid() && w in system.writers && system.writers[w] == old(system.writers[w])
      ensures choice == environment(old(tick)) && tick == old(tick) + 1
      ensures old(run) <= run && Failures(run, w) == Failures(old(run), w)
    {
      choice := environment(tick);
      tick := tick + 1;
      Others(w, choice.others);
    }

    // The conditional write: HEAD is replaced exactly when it is the expected one, and
    // the response may be lost before or after that.
    method ReplaceHead(w: nat, reply: Reply) returns (outcome: CasOutcome)
      requires Valid() && w in system.writers && system.writers[w].phase.Casing?
      modifies this`system, this`run
      ensures Valid() && w in system.writers && Smooth(old(tick), old(run), w)
      ensures var ph := old(system.writers[w].phase);
        && system.writers[w] == old(system.writers[w]).(phase :=
             match outcome
             case Applied => Done(Success(ph.draft.id))
             case Conflict => Rebasing(ph.draft, ph.lost, ph.rebases)
             case Lost => Reconciling(ph.draft, ph.lost + 1, ph.rebases))
        && system.history == (if reply != LostBefore && Current(old(system)) == ph.draft.parent
                              then old(system.history) + [ph.draft] else old(system.history))
        && (outcome == Conflict <==> reply != LostBefore && Current(old(system)) != ph.draft.parent)
        && (outcome == Applied <==> reply == Answered && Current(old(system)) == ph.draft.parent)
    {
      hide Valid, Failures, FounderAfter, InitEnabled, Replayed, Again, Pin, Cleaned, Leads;
      var draft := system.writers[w].phase.draft;
      if reply == LostBefore {
        Take(Append(w, CasLost(false)));
        return Lost;
      }
      if Current(system) != draft.parent {
        Take(Append(w, CasConflict));
        return Conflict;
      }
      if reply == LostAfter {
        Take(Append(w, CasLost(true)));
        return Lost;
      }
      Take(Append(w, CasApplied));
      return Applied;
    }

    // The immutable objects of a candidate, in any order.
    method PutAll(w: nat) returns (ok: bool)
      requires Valid() && w in system.writers && system.writers[w].phase.Putting?
      modifies this`system, this`run, this`tick
      ensures Valid() && w in system.writers && Smooth(old(tick), old(run), w)
      ensures ok ==> system.writers[w].phase == old(system.writers[w].phase).(left := {})
      ensures !ok ==> system.writers[w].phase == Done(Definite)
    {
      hide Valid, Next, Enabled, Failures, Replayed, Leads;
      while system.writers[w].phase.left != {}
        invariant Valid() && w in system.writers && Smooth(old(tick), old(run), w)
        invariant system.writers[w].phase.Putting?
        invariant system.writers[w].phase == old(system.writers[w].phase).(left := system.writers[w].phase.left)
        decreases |system.writers[w].phase.left|
      {
        var choice := Await(w);
        if !choice.ok {
          Move(w, Fail);
          return false;
        }
        ghost var before := system.writers[w].phase.left;
        var o :| o in system.writers[w].phase.left;
        Move(w, Put(o));
        assert system.writers[w].phase.left < before;
      }
      return true;
    }

    // After a lost response: look at HEAD, and retry within the policy if that settles
    // nothing.
    method Reconcile(w: nat)
      requires Valid() && w in system.writers && system.writers[w].phase.Reconciling?
      modifies this`system, this`run, this`tick
      ensures Valid() && w in system.writers && Smooth(old(tick), old(run), w)
      ensures var before, after := old(system.writers[w].phase), system.writers[w].phase;
        match after
        case Casing(_, lost, rebases) => lost == before.lost <= policy.maxReconciliations && rebases == before.rebases
        case Rebasing(_, _, rebases) => rebases == before.rebases
        case other => other.Done?
      ensures environment(old(tick)).ok && system.writers[w].phase.Casing? ==> Current(system) == system.writers[w].phase.draft.parent
    {
      hide Valid, Next, Enabled, Failures, Replayed, Leads;
      var choice := Await(w);
      Founded(w);
      if choice.ok && system.history != [] {
        Move(w, ReconcilePin);
      } else {
        Move(w, ReconcileFail);
      }
    }

    // One candidate: write it until the write is settled, lost for good or overtaken.
    method Attempt(w: nat) returns (outcome: Option<Outcome>)
      requires Valid() && w in system.writers && system.writers[w].phase.Casing? && system.writers[w].phase.lost == 0
      modifies this`system, this`run, this`tick
      ensures Valid() && w in system.writers && Smooth(old(tick), old(run), w)
      ensures outcome.Some? ==> system.writers[w].phase == Done(outcome.value)
      ensures outcome.None? ==> system.writers[w].phase.Rebasing?
      ensures outcome.None? ==> system.writers[w].phase.rebases == old(system.writers[w].phase.rebases)
    {
      hide Next, Enabled, Valid, Failures;
      ghost var rebases := system.writers[w].phase.rebases;
      var indeterminate := 0;
      while true
        invariant Valid() && w in system.writers && Smooth(old(tick), old(run), w)
        invariant system.writers[w].phase.Casing?
        invariant system.writers[w].phase.lost == indeterminate && system.writers[w].phase.rebases == rebases
        invariant 0 <= indeterminate <= policy.maxReconciliations
        decreases policy.maxReconciliations - indeterminate
      {
        var choice := Await(w);
        var result := ReplaceHead(w, choice.reply);
        if result.Applied? {
          return Some(system.writers[w].phase.outcome);
        }
        if result.Conflict? {
          return None;
        }
        indeterminate := indeterminate + 1;
        Reconcile(w);
        if system.writers[w].phase.Done? {
          return Some(system.writers[w].phase.outcome);
        }
        if system.writers[w].phase.Rebasing? {
          return None;
        }
      }
    }

    // Pin the winner and see whether to build again.
    method Rebase(w: nat) returns (outcome: Option<Outcome>)
      requires Valid() && w in system.writers && system.writers[w].phase.Rebasing?
      modifies this`system, this`run, this`tick
      ensures Valid() && w in system.writers && Smooth(old(tick), old(run), w)
      ensures outcome.Some? ==> system.writers[w].phase == Done(outcome.value)
      ensures outcome.None? ==> system.writers[w].phase.Pinned? && system.writers[w].phase.rebases <= policy.maxRebases
      ensures outcome.None? ==> system.writers[w].phase.rebases == old(system.writers[w].phase.rebases) + 1
      ensures outcome.None? ==> Current(system) == Some(system.writers[w].phase.parent)
      ensures environment(old(tick)).ok && outcome == Some(Definite) && Pin(system, system.writers[w].key, system.writers[w].intent).None? ==>
        old(system.writers[w].phase.rebases) >= policy.maxRebases
    {
      hide Valid, Next, Enabled, Failures, Replayed, Leads;
      var choice := Await(w);
      Founded(w);
      if choice.ok && system.history != [] {
        Move(w, RebasePin);
      } else {
        Move(w, RebaseFail);
      }
      return if system.writers[w].phase.Done? then Some(system.writers[w].phase.outcome) else None;
    }

    // A candidate over the pinned parent.
    method Draw(w: nat) returns (ok: bool)
      requires Valid() && w in system.writers && system.writers[w].phase.Pinned?
      requires system.writers[w].key !in system.writers[w].phase.parent.ledger
      modifies this`system, this`run, this`tick
      ensures Valid() && w in system.writers && Smooth(old(tick), old(run), w)
      ensures ok ==> system.writers[w].phase.Putting? && system.writers[w].phase.rebases == old(system.writers[w].phase.rebases)
      ensures !ok ==> system.writers[w].phase == Done(Definite)
    {
      hide Valid, Next, Enabled, Failures, Replayed, Leads;
      var wr := system.writers[w];
      var choice := Await(w);
      Founded(w);
      var puts := set n | n in choice.makes :: Shared(n);
      var build := Build(puts, choice.uses * (wr.phase.parent.closure + puts + wr.staged));
      if !choice.ok || !(wr.staged <= system.objects) {
        Move(w, Fail);
        return false;
      }
      Move(w, build);
      return true;
    }

    // Replay check, candidate and immutable objects over the pinned parent.
    method Prepare(w: nat) returns (outcome: Option<Outcome>)
      requires Valid() && w in system.writers && system.writers[w].phase.Pinned?
      modifies this`system, this`run, this`tick
      ensures Valid() && w in system.writers && Smooth(old(tick), old(run), w)
      ensures outcome.Some? ==> system.writers[w].phase == Done(outcome.value)
      ensures outcome.None? ==> system.writers[w].phase.Casing? && system.writers[w].phase.lost == 0
      ensures outcome.None? ==> system.writers[w].phase.rebases == old(system.writers[w].phase.rebases)
    {
      hide Valid, Next, Enabled, Failures, Replayed, Leads;
      var wr := system.writers[w];
      if wr.key in wr.phase.parent.ledger {
        Move(w, Replay);
        return Some(system.writers[w].phase.outcome);
      }
      var built := Draw(w);
      if !built {
        return Some(Definite);
      }
      var stored := PutAll(w);
      if !stored {
        return Some(Definite);
      }
      Move(w, BeginCas);
      return None;
    }

    // The publication of one append call. It ends, whatever the others and the store do;
    // success means that its key is committed with this result, and a definite failure
    // that no candidate of the call is in the history. Where no operation fails, it takes
    // more replaced HEADs than the call may rebase, or more lost answers than it may reconcile,
    // to make it give up.
    method Publish(w: nat) returns (outcome: Outcome)
      requires Valid() && w in system.writers && system.writers[w].phase.Ready?
      modifies this
      ensures Valid() && w in system.writers && Smooth(old(tick), old(run), w)
      ensures system.writers[w].phase == Done(outcome)
      ensures outcome.Definite? ==> forall i :: 0 < i < |system.history| ==> system.history[i].author != w
      ensures outcome.Success? ==>
        exists i :: 0 < i < |system.history| && system.history[i].id == outcome.result && Commits(i, w)
      ensures outcome.Definite? && AllOk(old(tick), tick) && OneIntent(system, system.writers[w].key, system.writers[w].intent) ==>
        |system.history| >= |old(system.history)| + policy.maxRebases + 1
      ensures outcome.Indeterminate? ==> Losses(run[|old(run)|..], w) > 0
      ensures outcome.Indeterminate? && AllOk(old(tick), tick) ==> Losses(run[|old(run)|..], w) == policy.maxReconciliations + 1
    {
      ghost var start, before := system, run;
      outcome := Loop(w);
      ghost var since := run[|before|..];
      assert run == before + since;
      LeadsAfter(policy, Initial, before, start, since, system);
      FailuresAdd(before, since, w);
      if outcome.Definite? && AllOk(old(tick), tick) && OneIntent(system, system.writers[w].key, system.writers[w].intent) {
        FailsOnlyOvertaken(policy, start, since, system, w);
      }
      if outcome.Indeterminate? {
        DoubtsOnlyLost(policy, start, since, system, w);
      }
      assert Leads(policy, system, [], system);
      if outcome.Definite? {
        forall i | 0 < i < |system.history|
          ensures system.history[i].author != w
        {
          HistoryIsLinear(policy, system, i, i);
          DefiniteFailure(policy, system, [], system, w, i);
        }
      }
      if outcome.Success? {
        ghost var i := OkIsRecorded(policy, system, w, outcome.result);
        assert Commits(i, w);
      }
    }

    // Version `i` was committed with the call's key and intent.
    ghost predicate Commits(i: nat, w: nat)
      reads this
      requires w in system.writers
    {
      && Committer(system, i).Some? && Committer(system, i).value.key == system.writers[w].key
      && Committer(system, i).value.intent == system.writers[w].intent
    }

    method Loop(w: nat) returns (outcome: Outcome)
      requires Valid() && w in system.writers && system.writers[w].phase.Ready?
      modifies this
      ensures Valid() && w in system.writers && Smooth(old(tick), old(run), w)
      ensures system.writers[w].phase == Done(outcome)
    {
      hide Valid, Next, Enabled, Failures, Replayed, Leads;
      var choice := Await(w);
      if !choice.ok {
        Move(w, Fail);
        return Definite;
      }
      Founded(w);
      Move(w, PublishPin);
      if system.writers[w].phase.Done? {
        return Definite;
      }
      var rebases := 0;
      while true
        invariant Valid() && w in system.writers && Smooth(old(tick), old(run), w)
        invariant system.writers[w].phase.Pinned? && system.writers[w].phase.rebases == rebases
        invariant 0 <= rebases <= policy.maxRebases
        decreases policy.maxRebases - rebases
      {
        var done := Prepare(w);
        if done.Some? {
          return done.value;
        }
        done := Attempt(w);
        if done.Some? {
          return done.value;
        }
        done := Rebase(w);
        if done.Some? {
          return done.value;
        }
        rebases := rebases + 1;
      }
    }
  }
}
