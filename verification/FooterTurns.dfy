// Who waits for whom while footers load: readers, shared loads, the registration turn
// and the byte admission, in any interleaving and with cancellation at any point.
module FooterTurns {
  import opened Wrappers
  import opened FooterCache

  datatype Agent = ReaderAgent(r: nat) | LoadAgent(l: nat) | Nobody

  datatype ReaderPhase =
    | Idle
    | AwaitingTurn
    | HoldingTurn
    | AskingKey
    | Awaiting(load: nat)
    | Served
    | AskingOption
    | DecodingOption(reservation: nat)
    | Failed

  // `hit` is the reservation that announces a preflight reader's cache hit, `kept` the
  // load a preflight reader holds on to once served.
  datatype Reader = Reader(preflight: bool, phase: ReaderPhase, hit: Option<nat>, kept: Option<nat>)

  datatype LoadPhase = Sizing | AskingPayload | Decoding(reservation: nat) | Finished(ok: bool)

  // A registered load with the reservation of its key.
  datatype Load = Load(key: nat, phase: LoadPhase)

  datatype State = State(
    slots: Slots, owners: seq<Agent>, readers: map<nat, Reader>, loads: map<nat, Load>, registration: Agent)

  datatype ReaderStep =
    | Start(preflight: bool)
    | Hit
    | Join(load: nat)
    | QueueForTurn
    | TakeTurn
    | AskKey
    | KeyReserved(load: nat, amount: nat)
    | KeyRefused
    | LoadServes
    | AskOption
    | OptionReserved(amount: nat)
    | OptionRefused
    | OptionDone(ok: bool)
    | Leave

  datatype LoadStep =
    | AskPayload
    | PayloadReserved(amount: nat, spare: bool)
    | PayloadRefused
    | LoadDone(ok: bool)
    | LoadDropped

  datatype Action = ReaderActs(r: nat, reader: ReaderStep) | LoadActs(l: nat, load: LoadStep) | EntryFreed(id: nat)

  // ----- Which steps are possible -----------------------------------------------------

  predicate ReaderEnabled(s: State, r: nat, a: ReaderStep) {
    if a.Start? then r !in s.readers
    else
      && r in s.readers
      && var reader := s.readers[r];
         match a
         case Start(_) => false
         case Hit => reader.phase.Idle? || reader.phase.HoldingTurn?
         case Join(l) => (reader.phase.Idle? || reader.phase.HoldingTurn?) && l in s.loads
         case QueueForTurn => reader.phase.Idle?
         case TakeTurn => reader.phase.AwaitingTurn? && s.registration == Nobody
         case AskKey => reader.phase.HoldingTurn?
         case KeyReserved(l, _) => reader.phase.AskingKey? && l !in s.loads
         case KeyRefused => reader.phase.AskingKey?
         case LoadServes => reader.phase.Awaiting? && reader.phase.load in s.loads && s.loads[reader.phase.load].phase.Finished?
         case AskOption => (reader.phase.Idle? || reader.phase.Served?) && !reader.preflight
         case OptionReserved(_) => reader.phase.AskingOption?
         case OptionRefused => reader.phase.AskingOption?
         case OptionDone(_) => reader.phase.DecodingOption?
         case Leave => true
  }

  // No reader waits for the load or keeps it.
  predicate Unheld(s: State, l: nat) {
    forall r :: r in s.readers ==> s.readers[r].phase != Awaiting(l) && s.readers[r].kept != Some(l)
  }

  predicate LoadEnabled(s: State, l: nat, a: LoadStep) {
    && l in s.loads
    && var phase := s.loads[l].phase;
       match a
       case AskPayload => phase.Sizing?
       case PayloadReserved(_, _) => phase.AskingPayload?
       case PayloadRefused => phase.Sizing? || phase.AskingPayload?
       case LoadDone(_) => phase.Decoding?
       case LoadDropped => Unheld(s, l)
  }

  predicate Enabled(s: State, a: Action) {
    match a
    case ReaderActs(r, step) => ReaderEnabled(s, r, step)
    case LoadActs(l, step) => LoadEnabled(s, l, step)
    case EntryFreed(id) => Retains(s.slots, id)
  }

  // ----- What each step does ------------------------------------------------------------

  function ReaderAfter(s: State, r: nat, a: ReaderStep): Reader
    requires ReaderEnabled(s, r, a)
  {
    if a.Start? then Reader(a.preflight, Idle, None, None)
    else
      var reader := s.readers[r];
      match a
      case Hit => reader.(phase := Served, hit := if reader.preflight then Some(|s.slots|) else None)
      case Join(l) => reader.(phase := Awaiting(l))
      case QueueForTurn => reader.(phase := AwaitingTurn)
      case TakeTurn => reader.(phase := HoldingTurn)
      case AskKey => reader.(phase := AskingKey)
      case KeyReserved(l, _) => reader.(phase := Awaiting(l))
      case KeyRefused => reader.(phase := Failed)
      case LoadServes =>
        if s.loads[reader.phase.load].phase.ok then reader.(phase := Served, kept := if reader.preflight then Some(reader.phase.load) else None)
        else reader.(phase := Failed)
      case AskOption => reader.(phase := AskingOption)
      case OptionReserved(_) => reader.(phase := DecodingOption(|s.slots|))
      case OptionRefused => reader.(phase := Failed)
      case OptionDone(ok) => reader.(phase := if ok then Served else Failed)
      case Leave => reader
  }

  // The reservations a leaving reader drops: its announced hit and an unfinished decode.
  function WithoutReader(slots: Slots, reader: Reader): Slots {
    var rest := if reader.hit.Some? && reader.hit.value < |slots| then slots[reader.hit.value := None] else slots;
    if reader.phase.DecodingOption? && reader.phase.reservation < |slots| then rest[reader.phase.reservation := None] else rest
  }

  function ReaderSlots(s: State, r: nat, a: ReaderStep): Slots
    requires ReaderEnabled(s, r, a)
  {
    match a
    case Hit => if s.readers[r].preflight then s.slots + [Some(Reservation(0, Preflight))] else s.slots
    case KeyReserved(_, amount) => s.slots + [Some(Reservation(amount, Key))]
    case OptionReserved(amount) => s.slots + [Some(Reservation(amount, Payload))]
    case OptionDone(ok) => Finish(s.slots, s.readers[r].phase.reservation, ok)
    case Leave => WithoutReader(s.slots, s.readers[r])
    case _ => s.slots
  }

  // A finished decode keeps its bytes with the entry, a failed one drops them.
  function Finish(slots: Slots, id: nat, ok: bool): Slots {
    if id >= |slots| then slots
    else if ok && slots[id].Some? then slots[id := Some(slots[id].value.(phase := Retained))]
    else slots[id := None]
  }

  function ReaderNext(s: State, r: nat, a: ReaderStep): State
    requires ReaderEnabled(s, r, a)
  {
    var slots := ReaderSlots(s, r, a);
    State(
      slots,
      if |slots| > |s.owners| then s.owners + [if a.KeyReserved? then LoadAgent(a.load) else ReaderAgent(r)] else s.owners,
      if a.Leave? then s.readers - {r} else s.readers[r := ReaderAfter(s, r, a)],
      if a.KeyReserved? then s.loads[a.load := Load(|s.slots|, Sizing)] else s.loads,
      if a.TakeTurn? then ReaderAgent(r)
      else if a.KeyReserved? then LoadAgent(a.load)
      else if (a.Hit? || a.Join? || a.KeyRefused? || a.Leave?) && s.registration == ReaderAgent(r) then Nobody
      else s.registration)
  }

  // The reservations a dropped load releases: its key and an unfinished decode.
  function WithoutLoad(slots: Slots, load: Load): Slots {
    var rest := if load.key < |slots| then slots[load.key := None] else slots;
    if load.phase.Decoding? && load.phase.reservation < |slots| then rest[load.phase.reservation := None] else rest
  }

  function LoadSlots(s: State, l: nat, a: LoadStep): Slots
    requires LoadEnabled(s, l, a)
  {
    match a
    case PayloadReserved(amount, _) => s.slots + [Some(Reservation(amount, Payload))]
    case LoadDone(ok) => Finish(s.slots, s.loads[l].phase.reservation, ok)
    case LoadDropped => WithoutLoad(s.slots, s.loads[l])
    case _ => s.slots
  }

  function LoadAfter(s: State, l: nat, a: LoadStep): Load
    requires LoadEnabled(s, l, a)
  {
    var load := s.loads[l];
    match a
    case AskPayload => load.(phase := AskingPayload)
    case PayloadReserved(_, _) => load.(phase := Decoding(|s.slots|))
    case LoadDone(ok) => load.(phase := Finished(ok))
    case _ => load.(phase := Finished(false))
  }

  function LoadNext(s: State, l: nat, a: LoadStep): State
    requires LoadEnabled(s, l, a)
  {
    var slots := LoadSlots(s, l, a);
    State(
      slots,
      if |slots| > |s.owners| then s.owners + [LoadAgent(l)] else s.owners,
      s.readers,
      if a.LoadDropped? then s.loads - {l} else s.loads[l := LoadAfter(s, l, a)],
      if (a.LoadDropped? || (a.PayloadReserved? && a.spare)) && s.registration == LoadAgent(l) then Nobody else s.registration)
  }

  function Next(s: State, a: Action): State
    requires Enabled(s, a)
  {
    match a
    case ReaderActs(r, step) => ReaderNext(s, r, step)
    case LoadActs(l, step) => LoadNext(s, l, step)
    case EntryFreed(id) => s.(slots := s.slots[id := None])
  }

  const Initial: State := State([], [], map[], map[], Nobody)

  ghost predicate Leads(s: State, actions: seq<Action>, t: State)
    decreases |actions|
  {
    if actions == [] then s == t
    else Enabled(s, actions[0]) && Leads(Next(s, actions[0]), actions[1..], t)
  }

  // ----- The invariant ------------------------------------------------------------------

  // Every reservation that is not an entry's has a live owner that accounts for it.
  ghost predicate SlotOk(s: State, i: nat)
    requires i < |s.slots| == |s.owners|
  {
    s.slots[i].Some? ==>
      match s.slots[i].value.phase
      case Payload =>
        (match s.owners[i]
         case LoadAgent(l) => l in s.loads && s.loads[l].phase == Decoding(i)
         case ReaderAgent(r) => r in s.readers && s.readers[r].phase == DecodingOption(i)
         case Nobody => false)
      case Key => s.owners[i].LoadAgent? && s.owners[i].l in s.loads && s.loads[s.owners[i].l].key == i
      case Preflight => s.owners[i].ReaderAgent? && s.owners[i].r in s.readers && s.readers[s.owners[i].r].hit == Some(i)
      case Retained => true
  }

  predicate Holds(s: State, i: nat, owner: Agent, phase: ReservationPhase) {
    Live(s.slots, i) && i < |s.owners| && s.slots[i].value.phase == phase && s.owners[i] == owner
  }

  // A registered load without an admitted payload keeps the registration turn.
  predicate Unsized(phase: LoadPhase) { phase.Sizing? || phase.AskingPayload? }

  ghost predicate LoadOk(s: State, l: nat)
    requires l in s.loads
  {
    && Holds(s, s.loads[l].key, LoadAgent(l), Key)
    && (Unsized(s.loads[l].phase) ==> s.registration == LoadAgent(l))
    && (s.loads[l].phase.Decoding? ==> Holds(s, s.loads[l].phase.reservation, LoadAgent(l), Payload))
  }

  ghost predicate ReaderOk(s: State, r: nat)
    requires r in s.readers
  {
    var reader := s.readers[r];
    && (reader.phase.HoldingTurn? || reader.phase.AskingKey? ==> s.registration == ReaderAgent(r))
    && (reader.phase.Awaiting? ==> reader.phase.load in s.loads)
    && (reader.phase.AskingOption? || reader.phase.DecodingOption? ==> !reader.preflight)
    && (reader.phase.DecodingOption? ==> Holds(s, reader.phase.reservation, ReaderAgent(r), Payload))
    && (reader.hit.Some? ==> reader.preflight && reader.phase.Served? && Holds(s, reader.hit.value, ReaderAgent(r), Preflight))
    && (reader.kept.Some? ==>
          && reader.preflight && reader.phase.Served? && reader.kept.value in s.loads
          && s.loads[reader.kept.value].phase == Finished(true))
  }

  // The registration turn belongs to somebody who will give it up.
  ghost predicate TurnOk(s: State) {
    match s.registration
    case Nobody => true
    case LoadAgent(l) => l in s.loads
    case ReaderAgent(r) => r in s.readers && (s.readers[r].phase.HoldingTurn? || s.readers[r].phase.AskingKey?)
  }

  ghost predicate Inv(s: State) {
    && |s.slots| == |s.owners|
    && (forall i :: 0 <= i < |s.slots| ==> SlotOk(s, i))
    && (forall l :: l in s.loads ==> LoadOk(s, l))
    && (forall r :: r in s.readers ==> ReaderOk(s, r))
    && TurnOk(s)
  }

  // A leaving reader takes along what it owns, and only that.
  lemma LeavingSlots(s: State, r: nat, i: nat)
    requires Inv(s) && r in s.readers && i < |s.slots|
    ensures var rest := WithoutReader(s.slots, s.readers[r]);
      && |rest| == |s.slots| && (rest[i].Some? ==> rest[i] == s.slots[i])
      && (rest[i].Some? && rest[i].value.phase != Retained ==> s.owners[i] != ReaderAgent(r))
  {
    assert SlotOk(s, i);
    assert ReaderOk(s, r);
    hide Inv, LoadOk, TurnOk;
  }

  // A reservation that a reader's step finds or finishes.
  lemma StayingSlot(s: State, r: nat, a: ReaderStep, i: nat)
    requires |s.slots| == |s.owners| && ReaderEnabled(s, r, a) && !a.Leave? && i < |s.slots| && SlotOk(s, i)
    requires r in s.readers ==> ReaderOk(s, r)
    ensures var t := ReaderNext(s, r, a); |t.slots| == |t.owners| && i < |t.slots| && SlotOk(t, i)
  {
  }

  // A reservation that a reader's step makes.
  lemma FreshSlot(s: State, r: nat, a: ReaderStep)
    requires |s.slots| == |s.owners| && ReaderEnabled(s, r, a) && !a.Leave? && |ReaderNext(s, r, a).slots| > |s.slots|
    ensures var t := ReaderNext(s, r, a); |t.slots| == |t.owners| == |s.slots| + 1 && SlotOk(t, |s.slots|)
  {
  }

  lemma LeaveSlots(s: State, r: nat, i: nat)
    requires Inv(s) && ReaderEnabled(s, r, Leave) && i < |ReaderNext(s, r, Leave).slots|
    ensures |ReaderNext(s, r, Leave).slots| == |ReaderNext(s, r, Leave).owners| && SlotOk(ReaderNext(s, r, Leave), i)
  {
    LeavingSlots(s, r, i);
    assert SlotOk(s, i);
    hide Inv, LoadOk, TurnOk, ReaderOk, WithoutReader;
  }

  lemma ReaderStepSlots(s: State, r: nat, a: ReaderStep, i: nat)
    requires Inv(s) && ReaderEnabled(s, r, a) && i < |ReaderNext(s, r, a).slots|
    ensures |ReaderNext(s, r, a).slots| == |ReaderNext(s, r, a).owners| && SlotOk(ReaderNext(s, r, a), i)
  {
    if a.Leave? {
      LeaveSlots(s, r, i);
    } else {
      if r in s.readers {
        assert ReaderOk(s, r);
      }
      if i < |s.slots| {
        assert SlotOk(s, i);
        StayingSlot(s, r, a, i);
      } else {
        FreshSlot(s, r, a);
      }
      hide *;
    }
  }

  lemma ReaderStepOthers(s: State, r: nat, a: ReaderStep, q: nat)
    requires Inv(s) && ReaderEnabled(s, r, a) && q in s.readers && q != r
    ensures ReaderOk(ReaderNext(s, r, a), q)
  {
    assert ReaderOk(s, q);
    if r in s.readers {
      assert ReaderOk(s, r);
    }
    hide SlotOk, LoadOk, Inv, ReaderAfter, TurnOk;
  }

  lemma ReaderStepSelf(s: State, r: nat, a: ReaderStep)
    requires Inv(s) && ReaderEnabled(s, r, a) && !a.Leave?
    ensures ReaderOk(ReaderNext(s, r, a), r)
  {
    if r in s.readers {
      assert ReaderOk(s, r);
    }
    hide SlotOk, LoadOk, Inv, WithoutReader;
  }

  lemma ReaderStepLoads(s: State, r: nat, a: ReaderStep, l: nat)
    requires Inv(s) && ReaderEnabled(s, r, a) && l in ReaderNext(s, r, a).loads
    ensures LoadOk(ReaderNext(s, r, a), l)
  {
    if l in s.loads {
      assert LoadOk(s, l);
    }
    if r in s.readers {
      assert ReaderOk(s, r);
    }
    hide SlotOk;
  }

  lemma ReaderStepInv(s: State, r: nat, a: ReaderStep)
    requires Inv(s) && ReaderEnabled(s, r, a)
    ensures Inv(ReaderNext(s, r, a))
  {
    var t := ReaderNext(s, r, a);
    forall i | 0 <= i < |t.slots|
      ensures SlotOk(t, i)
    {
      ReaderStepSlots(s, r, a, i);
    }
    forall l | l in t.loads
      ensures LoadOk(t, l)
    {
      ReaderStepLoads(s, r, a, l);
    }
    forall q | q in t.readers
      ensures ReaderOk(t, q)
    {
      if q == r {
        ReaderStepSelf(s, r, a);
      } else {
        ReaderStepOthers(s, r, a, q);
      }
    }
    if r in s.readers {
      assert ReaderOk(s, r);
    }
    hide SlotOk, LoadOk;
  }

  lemma LoadStepSlots(s: State, l: nat, a: LoadStep, i: nat)
    requires Inv(s) && LoadEnabled(s, l, a) && i < |LoadNext(s, l, a).slots|
    ensures |LoadNext(s, l, a).slots| == |LoadNext(s, l, a).owners| && SlotOk(LoadNext(s, l, a), i)
  {
    if i < |s.slots| {
      assert SlotOk(s, i);
    }
    assert LoadOk(s, l);
    hide Inv, ReaderOk, TurnOk;
  }

  lemma LoadStepReaders(s: State, l: nat, a: LoadStep, q: nat)
    requires Inv(s) && LoadEnabled(s, l, a) && q in s.readers
    ensures ReaderOk(LoadNext(s, l, a), q)
  {
    assert ReaderOk(s, q);
    assert LoadOk(s, l);
    hide SlotOk;
  }

  lemma LoadStepLoads(s: State, l: nat, a: LoadStep, m: nat)
    requires Inv(s) && LoadEnabled(s, l, a) && m in LoadNext(s, l, a).loads
    ensures LoadOk(LoadNext(s, l, a), m)
  {
    assert LoadOk(s, m);
    assert LoadOk(s, l);
    hide SlotOk, ReaderOk;
  }

  lemma LoadStepInv(s: State, l: nat, a: LoadStep)
    requires Inv(s) && LoadEnabled(s, l, a)
    ensures Inv(LoadNext(s, l, a))
  {
    var t := LoadNext(s, l, a);
    forall i | 0 <= i < |t.slots|
      ensures SlotOk(t, i)
    {
      LoadStepSlots(s, l, a, i);
    }
    forall m | m in t.loads
      ensures LoadOk(t, m)
    {
      LoadStepLoads(s, l, a, m);
    }
    forall q | q in t.readers
      ensures ReaderOk(t, q)
    {
      LoadStepReaders(s, l, a, q);
    }
    hide SlotOk, LoadOk, ReaderOk;
  }

  lemma FreedInv(s: State, id: nat)
    requires Inv(s) && Retains(s.slots, id)
    ensures Inv(s.(slots := s.slots[id := None]))
  {
    var t := s.(slots := s.slots[id := None]);
    forall i | 0 <= i < |t.slots|
      ensures SlotOk(t, i)
    {
      assert SlotOk(s, i);
    }
    forall l | l in t.loads
      ensures LoadOk(t, l)
    {
      assert LoadOk(s, l);
    }
    forall q | q in t.readers
      ensures ReaderOk(t, q)
    {
      assert ReaderOk(s, q);
    }
  }

  lemma {:induction false} InvLeads(s: State, actions: seq<Action>, t: State)
    requires Inv(s) && Leads(s, actions, t)
    ensures Inv(t)
    decreases |actions|
  {
    hide Inv, ReaderNext, LoadNext, ReaderEnabled, LoadEnabled;
    if actions != [] {
      match actions[0] {
        case ReaderActs(r, step) => ReaderStepInv(s, r, step);
        case LoadActs(l, step) => LoadStepInv(s, l, step);
        case EntryFreed(id) => FreedInv(s, id);
      }
      InvLeads(Next(s, actions[0]), actions[1..], t);
    }
  }

  ghost predicate Reachable(s: State) {
    exists actions :: Leads(Initial, actions, s)
  }

  lemma InvReachable(s: State)
    requires Reachable(s)
    ensures Inv(s)
  {
    var actions :| Leads(Initial, actions, s);
    InvLeads(Initial, actions, s);
  }

  // ----- Who waits for whom --------------------------------------------------------------

  // Waiting for byte admission.
  predicate Asks(s: State, agent: Agent) {
    match agent
    case ReaderAgent(r) => r in s.readers && (s.readers[r].phase.AskingKey? || s.readers[r].phase.AskingOption?)
    case LoadAgent(l) => l in s.loads && s.loads[l].phase.AskingPayload?
    case Nobody => false
  }

  // Waiting for anything: bytes, the registration turn or an unfinished load.
  predicate Blocked(s: State, agent: Agent) {
    || Asks(s, agent)
    || (agent.ReaderAgent? && agent.r in s.readers
        && match s.readers[agent.r].phase
           case AwaitingTurn => true
           case Awaiting(l) => l in s.loads && !s.loads[l].phase.Finished?
           case _ => false)
  }

  // Key reservations a caller may wait for: a key request waits for any, a load for any
  // but its own, an option decode for none.
  function OwnedKeys(s: State, agent: Agent): Option<nat> {
    match agent
    case ReaderAgent(r) => if r in s.readers && s.readers[r].phase.AskingKey? then Some(0) else None
    case LoadAgent(_) => Some(1)
    case Nobody => None
  }

  function OwnedHits(s: State, agent: Agent): nat {
    if agent.ReaderAgent? && agent.r in s.readers && s.readers[agent.r].hit.Some? then 1 else 0
  }

  // What admission answers a caller whose bytes do not fit.
  predicate Waits(s: State, agent: Agent) {
    Asks(s, agent) && Releasable(s.slots, OwnedKeys(s, agent), OwnedHits(s, agent))
  }

  ghost predicate HoldersRun(s: State, l: nat) {
    forall r :: r in s.readers && (s.readers[r].phase == Awaiting(l) || s.readers[r].kept == Some(l))
      ==> !Blocked(s, ReaderAgent(r))
  }

  // A reservation that somebody else will release without waiting for anything: its
  // owner runs, and so does every reader on which the release of a finished load depends.
  ghost predicate WillRelease(s: State, agent: Agent, i: nat) {
    && Live(s.slots, i) && i < |s.owners| && s.slots[i].value.phase != Retained
    && s.owners[i] != agent && s.owners[i] != Nobody && !Blocked(s, s.owners[i])
    && (s.owners[i].LoadAgent? ==>
          && s.owners[i].l in s.loads
          && (s.loads[s.owners[i].l].phase.Finished? ==> HoldersRun(s, s.owners[i].l)))
  }

  lemma {:induction false} CountWitness(slots: Slots, phase: ReservationPhase) returns (i: nat)
    requires 0 < Count(slots, phase)
    ensures Live(slots, i) && slots[i].value.phase == phase
  {
    i := |slots| - 1;
    if InPhase(slots[i], phase) == 0 {
      i := CountWitness(slots[..i], phase);
    }
  }

  // Two reservations in a phase cannot both be the same one.
  lemma OtherWitness(slots: Slots, phase: ReservationPhase, own: nat) returns (i: nat)
    requires 1 < Count(slots, phase)
    ensures Live(slots, i) && slots[i].value.phase == phase && i != own
  {
    if own < |slots| {
      CountSet(slots, own, None, phase);
      i := CountWitness(slots[own := None], phase);
    } else {
      i := CountWitness(slots, phase);
    }
  }

  // At most one registered load lacks its payload, and only while it has the turn.
  lemma OneUnsizedLoad(s: State, l: nat, m: nat)
    requires Reachable(s) && l in s.loads && m in s.loads && Unsized(s.loads[l].phase) && Unsized(s.loads[m].phase)
    ensures l == m && s.registration == LoadAgent(l)
  {
    InvReachable(s);
    assert LoadOk(s, l) && LoadOk(s, m);
  }

  // Whether a load, since it was registered, has been given its payload with bytes to spare
  // for the next one.
  function Spared(run: seq<Action>, l: nat): bool {
    run != [] &&
    match run[|run| - 1]
    case ReaderActs(_, KeyReserved(m, _)) => m != l && Spared(run[..|run| - 1], l)
    case LoadActs(m, PayloadReserved(_, spare)) => (m == l && spare) || Spared(run[..|run| - 1], l)
    case _ => Spared(run[..|run| - 1], l)
  }

  ghost predicate TurnFollows(s: State, run: seq<Action>) {
    forall l :: l in s.loads ==> (s.registration == LoadAgent(l) <==> !Spared(run, l))
  }

  lemma TurnStep(s: State, run: seq<Action>, a: Action)
    requires Inv(s) && Enabled(s, a) && TurnFollows(s, run)
    ensures TurnFollows(Next(s, a), run + [a])
  {
    assert (run + [a])[..|run|] == run;
    if a.ReaderActs? && a.r in s.readers {
      assert ReaderOk(s, a.r);
    }
    hide SlotOk, LoadOk, ReaderSlots, LoadSlots, LoadAfter, ReaderAfter, Holds;
  }

  lemma {:induction false} TurnLeads(s: State, done: seq<Action>, actions: seq<Action>, t: State)
    requires Inv(s) && TurnFollows(s, done) && Leads(s, actions, t)
    ensures TurnFollows(t, done + actions)
    decreases |actions|
  {
    hide Inv, Next, Enabled, TurnFollows;
    if actions == [] {
      assert done + actions == done;
    } else {
      var a := actions[0];
      TurnStep(s, done, a);
      assert [a][1..] == [] && Leads(s, [a], Next(s, a));
      InvLeads(s, [a], Next(s, a));
      assert done + [a] + actions[1..] == done + actions;
      TurnLeads(Next(s, a), done + [a], actions[1..], t);
    }
  }

  // Whose registration turn it is: a load keeps it until it has its payload with bytes to
  // spare or is dropped, a reader while it looks the footer up and asks for the key.
  lemma TurnExactly(run: seq<Action>, s: State)
    requires Leads(Initial, run, s)
    ensures forall l :: l in s.loads ==> (s.registration == LoadAgent(l) <==> !Spared(run, l))
    ensures forall r :: r in s.readers ==>
      (s.registration == ReaderAgent(r) <==> s.readers[r].phase.HoldingTurn? || s.readers[r].phase.AskingKey?)
  {
    hide Next, Enabled;
    TurnLeads(Initial, [], run, s);
    InvLeads(Initial, run, s);
    assert [] + run == run;
    forall r | r in s.readers
      ensures s.registration == ReaderAgent(r) <==> s.readers[r].phase.HoldingTurn? || s.readers[r].phase.AskingKey?
    {
      assert ReaderOk(s, r);
    }
  }

  // Whoever is told to wait for bytes waits for somebody who is not waiting.
  lemma NoCircularWait(s: State, agent: Agent) returns (i: nat)
    requires Reachable(s) && Waits(s, agent)
    ensures WillRelease(s, agent, i)
  {
    InvReachable(s);
    if Count(s.slots, Payload) > 0 {
      i := CountWitness(s.slots, Payload);
    } else if Count(s.slots, Preflight) > OwnedHits(s, agent) {
      i := CountWitness(s.slots, Preflight);
    } else if agent.LoadAgent? {
      assert LoadOk(s, agent.l);
      i := OtherWitness(s.slots, Key, s.loads[agent.l].key);
    } else {
      i := CountWitness(s.slots, Key);
    }
    Runs(s, agent, i);
  }

  lemma Runs(s: State, agent: Agent, i: nat)
    requires Inv(s) && Asks(s, agent) && Live(s.slots, i) && s.slots[i].value.phase != Retained
    requires s.slots[i].value.phase == Key ==>
      OwnedKeys(s, agent).Some? && (agent.LoadAgent? ==> i != s.loads[agent.l].key)
    ensures WillRelease(s, agent, i)
  {
    assert SlotOk(s, i);
    match agent {
      case ReaderAgent(r) => assert ReaderOk(s, r);
      case LoadAgent(l) => assert LoadOk(s, l);
    }
    match s.owners[i] {
      case ReaderAgent(r) => assert ReaderOk(s, r);
      case LoadAgent(l) => assert LoadOk(s, l);
    }
  }

  lemma {:induction false} LeadsOn(s: State, actions: seq<Action>, t: State, a: Action)
    requires Leads(s, actions, t) && Enabled(t, a)
    ensures Leads(s, actions + [a], Next(t, a))
    decreases |actions|
  {
    hide Enabled, Next;
    var all := actions + [a];
    if actions == [] {
      assert all[0] == a && all[1..] == [];
    } else {
      LeadsOn(Next(s, actions[0]), actions[1..], t, a);
      assert all[0] == actions[0] && all[1..] == actions[1..] + [a];
    }
  }

  lemma Take(s: State, a: Action, t: State)
    requires Reachable(s) && Enabled(s, a) && t == Next(s, a)
    ensures Reachable(t)
  {
    hide Enabled, Next;
    var actions :| Leads(Initial, actions, s);
    LeadsOn(Initial, actions, s, a);
  }

  // A reader takes the registration turn, ...
  lemma TakesTurn() returns (s: State)
    ensures Reachable(s) && s == State([], [], map[0 := Reader(false, HoldingTurn, None, None)], map[], ReaderAgent(0))
  {
    assert Leads(Initial, [], Initial);
    hide Reachable, Leads, LoadEnabled, LoadNext, WithoutReader, Finish;
    var waiting := State([], [], map[0 := Reader(false, Idle, None, None)], map[], Nobody);
    Take(Initial, ReaderActs(0, Start(false)), waiting);
    var queued := waiting.(readers := map[0 := Reader(false, AwaitingTurn, None, None)]);
    Take(waiting, ReaderActs(0, QueueForTurn), queued);
    s := queued.(readers := map[0 := Reader(false, HoldingTurn, None, None)], registration := ReaderAgent(0));
    Take(queued, ReaderActs(0, TakeTurn), s);
  }

  // ... registers a load and waits for it, ...
  lemma Registers() returns (s: State)
    ensures Reachable(s)
    ensures s == State([Some(Reservation(1, Key))], [LoadAgent(0)], map[0 := Reader(false, Awaiting(0), None, None)],
                       map[0 := Load(0, Sizing)], LoadAgent(0))
  {
    hide Reachable, LoadEnabled, LoadNext, WithoutReader, Finish;
    var holding := TakesTurn();
    var asking := holding.(readers := map[0 := Reader(false, AskingKey, None, None)]);
    Take(holding, ReaderActs(0, AskKey), asking);
    s := Next(asking, ReaderActs(0, KeyReserved(0, 1)));
    Take(asking, ReaderActs(0, KeyReserved(0, 1)), s);
  }

  // ... which is given its payload and decodes it, ...
  lemma Loads(s: State) returns (t: State)
    requires Reachable(s)
    requires s == State([Some(Reservation(1, Key))], [LoadAgent(0)], map[0 := Reader(false, Awaiting(0), None, None)],
                        map[0 := Load(0, Sizing)], LoadAgent(0))
    ensures Reachable(t)
    ensures t == State([Some(Reservation(1, Key)), Some(Reservation(2, Retained))], [LoadAgent(0), LoadAgent(0)],
                       map[0 := Reader(false, Served, None, None)], map[0 := Load(0, Finished(true))], Nobody)
  {
    hide Reachable;
    var asking := s.(loads := map[0 := Load(0, AskingPayload)]);
    Take(s, LoadActs(0, AskPayload), asking);
    var decoding := Next(asking, LoadActs(0, PayloadReserved(2, true)));
    Take(asking, LoadActs(0, PayloadReserved(2, true)), decoding);
    var done := Next(decoding, LoadActs(0, LoadDone(true)));
    Take(decoding, LoadActs(0, LoadDone(true)), done);
    t := Next(done, ReaderActs(0, LoadServes));
    Take(done, ReaderActs(0, LoadServes), t);
  }

  // ... while a preflight reader announces its hit, for which the option has to wait until
  // it fits. In the end only what is cached is charged.
  lemma ReaderServed() returns (waiting: State, t: State)
    ensures Reachable(waiting) && Waits(waiting, ReaderAgent(0)) && waiting.readers[0].phase.AskingOption?
    ensures Reachable(t) && t.loads == map[] && t.registration == Nobody
    ensures t.readers == map[0 := Reader(false, Served, None, None)]
    ensures t.slots == [None, None, None, Some(Reservation(3, Retained))]
  {
    hide Reachable, LoadEnabled, LoadNext, WithoutReader, Finish, Count;
    var registered := Registers();
    var loaded := Loads(registered);
    var both := loaded.(readers := map[0 := Reader(false, Served, None, None), 1 := Reader(true, Idle, None, None)]);
    Take(loaded, ReaderActs(1, Start(true)), both);
    var hit := Next(both, ReaderActs(1, Hit));
    Take(both, ReaderActs(1, Hit), hit);
    waiting := Next(hit, ReaderActs(0, AskOption));
    Take(hit, ReaderActs(0, AskOption), waiting);
    OneHit(waiting.slots);
    t := Settles(waiting);
  }

  lemma OneHit(slots: Slots)
    requires slots == [Some(Reservation(1, Key)), Some(Reservation(2, Retained)), Some(Reservation(0, Preflight))]
    ensures Count(slots, Preflight) == 1
  {
    var two, one := slots[..2], slots[..1];
    assert two[..1] == one && one[..0] == [] && two[1] == slots[1] && one[0] == slots[0];
    assert Count(one, Preflight) == 0;
    assert Count(two, Preflight) == 0;
  }

  // The option is decoded, ...
  lemma Decodes(s: State) returns (t: State)
    requires Reachable(s) && |s.slots| == |s.owners| == 3
    requires s.readers == map[0 := Reader(false, AskingOption, None, None), 1 := Reader(true, Served, Some(2), None)]
    ensures Reachable(t) && t.slots == s.slots + [Some(Reservation(3, Retained))] && |t.owners| == 4
    ensures t == s.(slots := t.slots, owners := t.owners,
                    readers := map[0 := Reader(false, Served, None, None), 1 := Reader(true, Served, Some(2), None)])
  {
    hide Reachable, LoadEnabled, LoadNext, WithoutReader;
    var decoding := Next(s, ReaderActs(0, OptionReserved(3)));
    Take(s, ReaderActs(0, OptionReserved(3)), decoding);
    t := Next(decoding, ReaderActs(0, OptionDone(true)));
    Take(decoding, ReaderActs(0, OptionDone(true)), t);
  }

  // ... and the load and the other reader leave.
  lemma Settles(s: State) returns (t: State)
    requires Reachable(s) && s.loads == map[0 := Load(0, Finished(true))] && s.registration == Nobody
    requires s.slots == [Some(Reservation(1, Key)), Some(Reservation(2, Retained)), Some(Reservation(0, Preflight))]
    requires |s.owners| == 3
    requires s.readers == map[0 := Reader(false, AskingOption, None, None), 1 := Reader(true, Served, Some(2), None)]
    ensures Reachable(t) && t.loads == map[] && t.registration == Nobody
    ensures t.readers == map[0 := Reader(false, Served, None, None)]
    ensures t.slots == [None, None, None, Some(Reservation(3, Retained))]
  {
    hide Reachable;
    var decoded := Decodes(s);
    var dropped := Next(decoded, LoadActs(0, LoadDropped));
    Take(decoded, LoadActs(0, LoadDropped), dropped);
    var left := Next(dropped, ReaderActs(1, Leave));
    Take(dropped, ReaderActs(1, Leave), left);
    t := Next(left, EntryFreed(1));
    Take(left, EntryFreed(1), t);
  }

  // While a preflight reader has a hit the load waits for its payload, ...
  lemma LoadWaits() returns (s: State)
    ensures Reachable(s) && Waits(s, LoadAgent(0))
    ensures s == State([Some(Reservation(1, Key)), Some(Reservation(0, Preflight))], [LoadAgent(0), ReaderAgent(1)],
                       map[0 := Reader(false, Awaiting(0), None, None), 1 := Reader(true, Served, Some(1), None)],
                       map[0 := Load(0, AskingPayload)], LoadAgent(0))
  {
    hide Reachable, WithoutReader, Finish, Count;
    var registered := Registers();
    var both := registered.(readers := map[0 := Reader(false, Awaiting(0), None, None), 1 := Reader(true, Idle, None, None)]);
    Take(registered, ReaderActs(1, Start(true)), both);
    var hit := Next(both, ReaderActs(1, Hit));
    Take(both, ReaderActs(1, Hit), hit);
    s := Next(hit, LoadActs(0, AskPayload));
    Take(hit, LoadActs(0, AskPayload), s);
    SecondHit(s.slots);
  }

  lemma SecondHit(slots: Slots)
    requires slots == [Some(Reservation(1, Key)), Some(Reservation(0, Preflight))]
    ensures Count(slots, Preflight) == 1
  {
    var one := slots[..1];
    assert one[..0] == [] && one[0] == slots[0];
    assert Count(one, Preflight) == 0;
  }

  // ... and when it is refused its reader fails, and nothing stays charged.
  lemma ReaderFails() returns (waiting: State, t: State)
    ensures Reachable(waiting) && Waits(waiting, LoadAgent(0))
    ensures Reachable(t) && t.loads == map[] && t.registration == Nobody && t.slots == [None, None]
    ensures t.readers == map[0 := Reader(false, Failed, None, None)]
  {
    hide Reachable, Waits, Finish;
    waiting := LoadWaits();
    var left := Next(waiting, ReaderActs(1, Leave));
    Take(waiting, ReaderActs(1, Leave), left);
    var refused := Next(left, LoadActs(0, PayloadRefused));
    Take(left, LoadActs(0, PayloadRefused), refused);
    var failed := Next(refused, ReaderActs(0, LoadServes));
    Take(refused, ReaderActs(0, LoadServes), failed);
    t := Next(failed, LoadActs(0, LoadDropped));
    Take(failed, LoadActs(0, LoadDropped), t);
  }

  // What the caller may wait for: a reservation of somebody else that is not an entry's,
  // and for an option decode not a load's key either, whose load may be its own reader's.
  ghost predicate MayWaitFor(s: State, agent: Agent, i: nat) {
    && Live(s.slots, i) && i < |s.owners| && s.slots[i].value.phase != Retained && s.owners[i] != agent
    && (s.slots[i].value.phase == Key ==>
          agent.LoadAgent? || (agent.ReaderAgent? && agent.r in s.readers && s.readers[agent.r].phase.AskingKey?))
  }

  lemma CountTwo(slots: Slots, phase: ReservationPhase, i: nat, j: nat)
    requires i != j && Live(slots, i) && Live(slots, j) && slots[i].value.phase == phase && slots[j].value.phase == phase
    ensures Count(slots, phase) > 1
  {
    CountSet(slots, j, None, phase);
    CountPositive(slots[j := None], phase, i);
  }

  // A caller whose bytes do not fit waits exactly if there is something it may wait for:
  // whoever is refused within the limit has nobody it could wait for.
  lemma WaitsExactly(s: State, agent: Agent)
    requires Reachable(s) && Asks(s, agent)
    ensures Waits(s, agent) <==> exists i: nat :: MayWaitFor(s, agent, i)
  {
    InvReachable(s);
    if Waits(s, agent) {
      var i := NoCircularWait(s, agent);
      if s.slots[i].value.phase == Key && !MayWaitFor(s, agent, i) {
        i := OtherWait(s, agent);
      }
      assert MayWaitFor(s, agent, i);
    }
    if i: nat :| MayWaitFor(s, agent, i) {
      CountPositive(s.slots, s.slots[i].value.phase, i);
      match agent {
        case ReaderAgent(r) =>
          assert ReaderOk(s, r);
        case LoadAgent(l) =>
          assert LoadOk(s, l);
          if s.slots[i].value.phase == Key {
            assert SlotOk(s, i);
            CountTwo(s.slots, Key, i, s.loads[l].key);
          }
      }
    }
  }

  // An option decode that waits does so for a payload or an announced hit.
  lemma OtherWait(s: State, agent: Agent) returns (i: nat)
    requires Inv(s) && Waits(s, agent) && OwnedKeys(s, agent).None?
    ensures MayWaitFor(s, agent, i)
  {
    if Count(s.slots, Payload) > 0 {
      i := CountWitness(s.slots, Payload);
    } else {
      i := CountWitness(s.slots, Preflight);
    }
    Runs(s, agent, i);
  }

  // Whoever has nobody else to wait for is told so.
  lemma AloneFails(s: State, agent: Agent)
    requires Reachable(s) && Asks(s, agent)
    requires forall i :: 0 <= i < |s.owners| && Live(s.slots, i) && s.slots[i].value.phase != Retained ==> s.owners[i] == agent
    ensures !Waits(s, agent)
  {
    InvReachable(s);
    if Waits(s, agent) {
      var i := NoCircularWait(s, agent);
    }
  }
}
