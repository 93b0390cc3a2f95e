// The provider-scoped footer cache: a byte budget shared by decoders, queued loads,
// cached entries and leases on entries that FIFO eviction has already dropped.
module FooterCache {
  import opened Wrappers

  datatype ReservationPhase = Payload | Key | Preflight | Retained

  datatype Reservation = Reservation(amount: nat, phase: ReservationPhase)

  // One object reference; the cache holds at most one per URI.
  datatype Identity = Identity(uri: nat, version: nat)

  datatype Admission = Reserved(id: nat) | Pressure | CannotFit

  // Reservations by identifier, `None` once dropped.
  type Slots = seq<Option<Reservation>>

  // ----- Sums over the live reservations ----------------------------------------------

  function Amount(slot: Option<Reservation>): nat {
    if slot.Some? then slot.value.amount else 0
  }

  function InPhase(slot: Option<Reservation>, phase: ReservationPhase): nat {
    if slot.Some? && slot.value.phase == phase then 1 else 0
  }

  function Total(slots: Slots): nat {
    if slots == [] then 0 else Total(slots[..|slots| - 1]) + Amount(slots[|slots| - 1])
  }

  function Count(slots: Slots, phase: ReservationPhase): nat {
    if slots == [] then 0 else Count(slots[..|slots| - 1], phase) + InPhase(slots[|slots| - 1], phase)
  }

  lemma {:induction false} TotalSet(slots: Slots, id: nat, slot: Option<Reservation>)
    requires id < |slots|
    ensures Total(slots[id := slot]) == Total(slots) - Amount(slots[id]) + Amount(slot)
  {
    var last := |slots| - 1;
    var updated := slots[id := slot];
    if id == last {
      assert updated[..last] == slots[..last];
    } else {
      TotalSet(slots[..last], id, slot);
      assert updated[..last] == slots[..last][id := slot];
    }
  }

  lemma {:induction false} CountSet(slots: Slots, id: nat, slot: Option<Reservation>, phase: ReservationPhase)
    requires id < |slots|
    ensures Count(slots[id := slot], phase) == Count(slots, phase) - InPhase(slots[id], phase) + InPhase(slot, phase)
  {
    var last := |slots| - 1;
    var updated := slots[id := slot];
    if id == last {
      assert updated[..last] == slots[..last];
    } else {
      CountSet(slots[..last], id, slot, phase);
      assert updated[..last] == slots[..last][id := slot];
    }
  }

  lemma CountsSet(slots: Slots, id: nat, slot: Option<Reservation>)
    requires id < |slots|
    ensures forall phase :: Count(slots[id := slot], phase) == Count(slots, phase) - InPhase(slots[id], phase) + InPhase(slot, phase)
  {
    forall phase
      ensures Count(slots[id := slot], phase) == Count(slots, phase) - InPhase(slots[id], phase) + InPhase(slot, phase)
    {
      CountSet(slots, id, slot, phase);
    }
  }

  lemma SlotPush(slots: Slots, slot: Option<Reservation>)
    ensures Total(slots + [slot]) == Total(slots) + Amount(slot)
    ensures forall phase :: Count(slots + [slot], phase) == Count(slots, phase) + InPhase(slot, phase)
  {
    assert (slots + [slot])[..|slots|] == slots;
  }

  lemma {:induction false} CountPositive(slots: Slots, phase: ReservationPhase, id: nat)
    requires id < |slots| && slots[id].Some? && slots[id].value.phase == phase
    ensures 0 < Count(slots, phase)
  {
    if id < |slots| - 1 {
      CountPositive(slots[..|slots| - 1], phase, id);
    }
  }

  lemma {:induction false} AmountBelowTotal(slots: Slots, id: nat)
    requires id < |slots|
    ensures Amount(slots[id]) <= Total(slots)
  {
    if id < |slots| - 1 {
      AmountBelowTotal(slots[..|slots| - 1], id);
    }
  }

  // ----- What eviction does ---------------------------------------------------------------

  // The reservation of an entry goes with the entry unless a lease still holds it.
  function Evicted(slots: Slots, leases: map<nat, nat>, id: nat): Slots
    requires id < |slots|
  {
    if id in leases then slots else slots[id := None]
  }

  // The slots after the first `k` entries of the queue have been dropped.
  function AfterEvictions(slots: Slots, leases: map<nat, nat>, values: map<Identity, nat>, order: seq<Identity>, k: nat): (r: Slots)
    requires k <= |order| && QueueLive(slots, values, order)
    ensures |r| == |slots|
  {
    if k == 0 then slots
    else Evicted(AfterEvictions(slots, leases, values, order, k - 1), leases, values[order[k - 1]])
  }

  predicate Distinct<T(==)>(s: seq<T>) {
    forall i, j :: 0 <= i < j < |s| ==> s[i] != s[j]
  }

  // ----- The invariant -------------------------------------------------------------------

  predicate Live(slots: Slots, id: nat) {
    id < |slots| && slots[id].Some?
  }

  predicate Retains(slots: Slots, id: nat) {
    Live(slots, id) && slots[id].value.phase == Retained
  }

  // Bytes and phase counters are those of the live reservations.
  ghost predicate Accounted(slots: Slots, limit: nat, used: nat, peak: nat, transient: nat, keys: nat, hits: nat) {
    && used == Total(slots) <= limit && used <= peak <= limit
    && transient == Count(slots, Payload) && keys == Count(slots, Key) && hits == Count(slots, Preflight)
  }

  // The queue lists the cached entries once each, and the identity index has exactly
  // the one identity cached under each URI.
  ghost predicate Indexed(values: map<Identity, nat>, order: seq<Identity>, identities: map<nat, Identity>) {
    && Distinct(order)
    && (forall key :: key in order <==> key in values)
    && (forall key :: key in values ==> key.uri in identities && identities[key.uri] == key)
    && (forall uri :: uri in identities ==> identities[uri].uri == uri && identities[uri] in values)
  }

  // Cached and leased entries are charged, each by a reservation of its own, and nothing
  // else is retained.
  ghost predicate Charged(slots: Slots, values: map<Identity, nat>, leases: map<nat, nat>) {
    && (forall key :: key in values ==> Retains(slots, values[key]))
    && (forall a, b :: a in values && b in values && a != b ==> values[a] != values[b])
    && (forall id :: id in leases ==> leases[id] > 0 && Retains(slots, id))
    && (forall id: nat :: Retains(slots, id) ==> id in leases || id in values.Values)
  }

  // Replacing a reservation by a smaller one, or none, keeps the accounts.
  lemma AccountedSet(slots: Slots, limit: nat, used: nat, peak: nat, transient: nat, keys: nat, hits: nat, id: nat, slot: Option<Reservation>)
    requires Accounted(slots, limit, used, peak, transient, keys, hits)
    requires id < |slots| && Amount(slot) <= Amount(slots[id])
    ensures var was := slots[id];
      && Amount(was) - Amount(slot) <= used && InPhase(was, Payload) <= transient
      && InPhase(was, Key) <= keys && InPhase(was, Preflight) <= hits
      && Accounted(slots[id := slot], limit, used - Amount(was) + Amount(slot), peak,
                   transient - InPhase(was, Payload) + InPhase(slot, Payload),
                   keys - InPhase(was, Key) + InPhase(slot, Key),
                   hits - InPhase(was, Preflight) + InPhase(slot, Preflight))
  {
    TotalSet(slots, id, slot);
    AmountBelowTotal(slots, id);
    CountsSet(slots, id, slot);
    if slots[id].Some? {
      CountPositive(slots, slots[id].value.phase, id);
    }
  }

  lemma AccountedPush(slots: Slots, limit: nat, used: nat, peak: nat, transient: nat, keys: nat, hits: nat, slot: Option<Reservation>)
    requires Accounted(slots, limit, used, peak, transient, keys, hits)
    requires used + Amount(slot) <= limit
    ensures Accounted(slots + [slot], limit, used + Amount(slot), if peak < used + Amount(slot) then used + Amount(slot) else peak,
                      transient + InPhase(slot, Payload), keys + InPhase(slot, Key), hits + InPhase(slot, Preflight))
  {
    SlotPush(slots, slot);
  }

  // Changing a reservation that is not an entry's leaves the entries charged.
  lemma ChargedSet(slots: Slots, values: map<Identity, nat>, leases: map<nat, nat>, id: nat, slot: Option<Reservation>)
    requires Charged(slots, values, leases) && id < |slots| && !Retains(slots, id)
    requires slot.Some? ==> slot.value.phase != Retained
    ensures Charged(slots[id := slot], values, leases)
  {
    var updated := slots[id := slot];
    assert forall i: nat :: Retains(updated, i) <==> Retains(slots, i);
  }

  // A new entry starts with one lease, that of its loader.
  lemma ChargedRetain(slots: Slots, values: map<Identity, nat>, leases: map<nat, nat>, id: nat, slot: Option<Reservation>)
    requires Charged(slots, values, leases) && Live(slots, id) && !Retains(slots, id)
    requires slot.Some? && slot.value.phase == Retained
    ensures Charged(slots[id := slot], values, leases[id := 1])
  {
    var updated := slots[id := slot];
    assert forall i: nat :: Retains(updated, i) <==> Retains(slots, i) || i == id;
  }

  // The phase of an entry's reservation stays, whatever its amount.
  lemma ChargedAmount(slots: Slots, values: map<Identity, nat>, leases: map<nat, nat>, id: nat, slot: Option<Reservation>)
    requires Charged(slots, values, leases) && Live(slots, id) && slot.Some? && slot.value.phase == slots[id].value.phase
    ensures Charged(slots[id := slot], values, leases)
  {
    var updated := slots[id := slot];
    assert forall i: nat :: Retains(updated, i) <==> Retains(slots, i);
  }

  lemma ChargedEvict(slots: Slots, values: map<Identity, nat>, leases: map<nat, nat>, key: Identity)
    requires Charged(slots, values, leases) && key in values
    ensures Charged(Evicted(slots, leases, values[key]), values - {key}, leases)
  {
    var id, rest := values[key], values - {key};
    var updated := Evicted(slots, leases, id);
    assert forall i: nat :: Retains(updated, i) <==> Retains(slots, i) && (i != id || id in leases);
    forall i: nat | Retains(updated, i) && i !in leases
      ensures i in rest.Values
    {
      var k :| k in values && values[k] == i;
      assert k in rest && rest[k] == i;
    }
  }

  lemma IndexedEvict(values: map<Identity, nat>, order: seq<Identity>, identities: map<nat, Identity>)
    requires Indexed(values, order, identities) && order != []
    ensures order[0] in values
    ensures Indexed(values - {order[0]}, order[1..], identities - {order[0].uri})
  {
    var key, rest := order[0], order[1..];
    assert key in order;
    forall k | k in order && k != key
      ensures k in rest
    {
      var i :| 0 <= i < |order| && order[i] == k;
      assert rest[i - 1] == k;
    }
    forall k | k in rest
      ensures k in order && k != key
    {
      var i :| 0 <= i < |rest| && rest[i] == k;
      assert order[i + 1] == k;
    }
  }

  // The queue's entries are charged by reservations that exist.
  ghost predicate QueueLive(slots: Slots, values: map<Identity, nat>, order: seq<Identity>) {
    forall i :: 0 <= i < |order| ==> order[i] in values && values[order[i]] < |slots|
  }

  lemma QueueIsLive(slots: Slots, values: map<Identity, nat>, leases: map<nat, nat>, order: seq<Identity>, identities: map<nat, Identity>)
    requires Charged(slots, values, leases) && Indexed(values, order, identities)
    ensures QueueLive(slots, values, order)
  {
    forall i | 0 <= i < |order|
      ensures order[i] in values && values[order[i]] < |slots|
    {
      assert order[i] in order;
      assert Retains(slots, values[order[i]]);
    }
  }

  // The entries still queued, as they were.
  ghost predicate Restricts(values: map<Identity, nat>, before: map<Identity, nat>, order: seq<Identity>) {
    && (forall key :: key in values <==> key in order)
    && (forall key :: key in values ==> key in before && values[key] == before[key])
  }

  lemma RestrictsAll(values: map<Identity, nat>, order: seq<Identity>, identities: map<nat, Identity>)
    requires Indexed(values, order, identities)
    ensures Restricts(values, values, order)
    ensures order != [] ==> order[0] in values
  {
    assert order != [] ==> order[0] in order;
  }

  lemma RestrictsStep(values: map<Identity, nat>, before: map<Identity, nat>, order: seq<Identity>, identities: map<nat, Identity>)
    requires Restricts(values, before, order) && Indexed(values, order, identities) && order != []
    ensures order[0] in values && order[0] in before && values[order[0]] == before[order[0]]
    ensures Restricts(values - {order[0]}, before, order[1..])
  {
    var rest := order[1..];
    assert order[0] in order;
    assert order == [order[0]] + rest;
    forall k | k in rest
      ensures k != order[0]
    {
      var i :| 0 <= i < |rest| && rest[i] == k;
      assert order[i + 1] == k;
    }
  }

  // Another identity is cached under the URI.
  ghost predicate Disputed(values: map<Identity, nat>, key: Identity) {
    exists other :: other in values && other.uri == key.uri && other != key
  }

  lemma ConflictsExactly(values: map<Identity, nat>, order: seq<Identity>, identities: map<nat, Identity>, key: Identity)
    requires Indexed(values, order, identities)
    ensures key.uri in identities && identities[key.uri] != key <==> Disputed(values, key)
  {
  }

  // A reservation outside the caller's ownership that may be released: a decoder's, a
  // preflight hit beyond its own, or, for those that may wait for them, a load's key.
  predicate Releasable(slots: Slots, ownedKeys: Option<nat>, ownedHits: nat) {
    || Count(slots, Payload) > 0 || Count(slots, Preflight) > ownedHits
    || (ownedKeys.Some? && Count(slots, Key) > ownedKeys.value)
  }

  lemma NotYetCharged(slots: Slots, values: map<Identity, nat>, leases: map<nat, nat>, id: nat)
    requires Charged(slots, values, leases) && !Retains(slots, id)
    ensures forall k :: k in values ==> values[k] != id
  {
  }

  lemma AfterNone(slots: Slots, leases: map<nat, nat>, values: map<Identity, nat>, order: seq<Identity>)
    requires QueueLive(slots, values, order)
    ensures AfterEvictions(slots, leases, values, order, 0) == slots
  {
  }

  lemma EvictionStep(slots: Slots, leases: map<nat, nat>, values: map<Identity, nat>, order: seq<Identity>, k: nat)
    requires k < |order| && QueueLive(slots, values, order)
    ensures AfterEvictions(slots, leases, values, order, k + 1)
         == Evicted(AfterEvictions(slots, leases, values, order, k), leases, values[order[k]])
  {
  }

  lemma ChargedPush(slots: Slots, values: map<Identity, nat>, leases: map<nat, nat>, slot: Option<Reservation>)
    requires Charged(slots, values, leases) && slot.Some? && slot.value.phase != Retained
    ensures Charged(slots + [slot], values, leases)
  {
    var updated := slots + [slot];
    assert forall i: nat :: Retains(updated, i) <==> Retains(slots, i);
  }

  function Leased(leases: map<nat, nat>, id: nat): map<nat, nat> {
    leases[id := (if id in leases then leases[id] else 0) + 1]
  }

  lemma ChargedLease(slots: Slots, values: map<Identity, nat>, leases: map<nat, nat>, key: Identity)
    requires Charged(slots, values, leases) && key in values
    ensures Charged(slots, values, Leased(leases, values[key]))
  {
  }

  lemma ChargedInsert(slots: Slots, values: map<Identity, nat>, leases: map<nat, nat>, key: Identity, id: nat)
    requires Charged(slots, values, leases) && key !in values && Retains(slots, id)
    requires forall k :: k in values ==> values[k] != id
    ensures Charged(slots, values[key := id], leases)
  {
    var added := values[key := id];
    forall i: nat | Retains(slots, i) && i !in leases
      ensures i in added.Values
    {
      var k :| k in values && values[k] == i;
      assert k in added && added[k] == i;
    }
  }

  lemma IndexedInsert(values: map<Identity, nat>, order: seq<Identity>, identities: map<nat, Identity>, key: Identity, id: nat)
    requires Indexed(values, order, identities) && key !in values && (key.uri in identities ==> identities[key.uri] == key)
    ensures Indexed(values[key := id], order + [key], identities[key.uri := key])
  {
    assert key !in order;
  }

  lemma ChargedRelease(slots: Slots, values: map<Identity, nat>, leases: map<nat, nat>, id: nat)
    requires Charged(slots, values, leases) && id in leases
    ensures Retains(slots, id)
    ensures leases[id] > 1 ==> Charged(slots, values, leases[id := leases[id] - 1])
    ensures id in values.Values ==> Charged(slots, values, leases - {id})
    ensures id !in values.Values ==> Charged(slots[id := None], values, leases - {id})
  {
    if id !in values.Values {
      var updated := slots[id := None];
      assert forall i: nat :: Retains(updated, i) <==> Retains(slots, i) && i != id;
      assert forall key :: key in values ==> values[key] in values.Values;
    }
  }

  // ----- Hand-outs and releases ---------------------------------------------------------

  // An entry handed to a reader, or given back.
  datatype Event = HandedOut(id: nat) | GivenBack(id: nat)

  // How often the entry has been handed out and not given back.
  function Outstanding(history: seq<Event>, id: nat): int {
    if history == [] then 0
    else
      var last := history[|history| - 1];
      Outstanding(history[..|history| - 1], id) + Change(last, id)
  }

  // The lease counts are what the history leaves outstanding.
  ghost predicate Tallied(history: seq<Event>, leases: map<nat, nat>) {
    forall id: nat :: Outstanding(history, id) == Held(leases, id)
  }

  function Held(leases: map<nat, nat>, id: nat): int {
    if id in leases then leases[id] else 0
  }

  // What an event changes for an entry.
  function Change(e: Event, id: nat): int {
    if e == HandedOut(id) then 1 else if e == GivenBack(id) then -1 else 0
  }

  lemma OutstandingNext(history: seq<Event>, e: Event, id: nat)
    ensures Outstanding(history + [e], id) == Outstanding(history, id) + Change(e, id)
  {
    assert (history + [e])[..|history|] == history;
  }

  lemma TalliedNext(history: seq<Event>, leases: map<nat, nat>, e: Event, after: map<nat, nat>)
    requires Tallied(history, leases)
    requires forall id: nat :: Held(after, id) == Held(leases, id) + Change(e, id)
    ensures Tallied(history + [e], after)
  {
    hide Outstanding, Held, Change;
    forall id: nat
      ensures Outstanding(history + [e], id) == Held(after, id)
    {
      OutstandingNext(history, e, id);
    }
  }

  lemma TalliedOut(history: seq<Event>, leases: map<nat, nat>, id: nat)
    requires Tallied(history, leases)
    ensures Tallied(history + [HandedOut(id)], Leased(leases, id))
  {
    TalliedNext(history, leases, HandedOut(id), Leased(leases, id));
    hide Tallied;
  }

  lemma TalliedBack(history: seq<Event>, leases: map<nat, nat>, id: nat)
    requires Tallied(history, leases) && id in leases && leases[id] > 0
    ensures Tallied(history + [GivenBack(id)], if leases[id] == 1 then leases - {id} else leases[id := leases[id] - 1])
  {
    TalliedNext(history, leases, GivenBack(id), if leases[id] == 1 then leases - {id} else leases[id := leases[id] - 1]);
    hide Tallied;
  }

  lemma NotLeased(slots: Slots, values: map<Identity, nat>, leases: map<nat, nat>, id: nat)
    requires Charged(slots, values, leases) && !Retains(slots, id)
    ensures id !in leases && Leased(leases, id) == leases[id := 1]
  {
  }

  class Cache {
    const limit: nat
    // Budget
    var used: nat
    var peak: nat
    var transient: nat
    var keys: nat
    var preflightHits: nat
    // Entries
    var values: map<Identity, nat>
    var order: seq<Identity>
    var identities: map<nat, Identity>
    // The reservations alive, wherever they are held, and how many leases hold an entry.
    var slots: Slots
    var leases: map<nat, nat>
    // Every hand-out and release so far.
    ghost var history: seq<Event>

    ghost predicate Valid()
      reads this
    {
      && Tallied(history, leases)
      && Accounted(slots, limit, used, peak, transient, keys, preflightHits)
      && Indexed(values, order, identities)
      && Charged(slots, values, leases)
    }

    constructor (l: nat)
      requires 0 < l
      ensures Valid() && limit == l && slots == [] && values == map[] && leases == map[] && history == []
    {
      limit, used, peak, transient, keys, preflightHits := l, 0, 0, 0, 0, 0;
      values, order, identities, slots, leases, history := map[], [], map[], [], map[], [];
    }

    // ----- Reservations

    // Drop a reservation that is not an entry's.
    method Drop(id: nat)
      requires Valid() && Live(slots, id) && slots[id].value.phase != Retained
      modifies this
      ensures history == old(history)
      ensures Valid() && slots == old(slots)[id := None]
      ensures values == old(values) && order == old(order) && leases == old(leases)
      ensures used == old(used) - old(slots)[id].value.amount
    {
      AccountedSet(slots, limit, used, peak, transient, keys, preflightHits, id, None);
      ChargedSet(slots, values, leases, id, None);
      hide Accounted, Charged, Indexed, Tallied;
      var reservation := slots[id].value;
      used := used - reservation.amount;
      LowerPhase(reservation.phase);
      slots := slots[id := None];
    }

    // finish_transient: the bytes stay charged, now to an entry with one lease.
    method FinishTransient(id: nat)
      requires Valid() && Live(slots, id) && slots[id].value.phase != Retained
      modifies this
      ensures history == old(history) + [HandedOut(id)]
      ensures Valid() && slots == old(slots)[id := Some(old(slots)[id].value.(phase := Retained))]
      ensures leases == old(leases)[id := 1]
      ensures values == old(values) && order == old(order) && used == old(used)
    {
      var reservation := slots[id].value;
      var retained := Some(reservation.(phase := Retained));
      AccountedSet(slots, limit, used, peak, transient, keys, preflightHits, id, retained);
      ChargedRetain(slots, values, leases, id, retained);
      NotLeased(slots, values, leases, id);
      TalliedOut(history, leases, id);
      hide Accounted, Charged, Indexed, Tallied, Leased;
      LowerPhase(reservation.phase);
      slots, leases := slots[id := retained], leases[id := 1];
      history := history + [HandedOut(id)];
    }

    method LowerPhase(phase: ReservationPhase)
      requires phase == Payload ==> 0 < transient
      requires phase == Key ==> 0 < keys
      requires phase == Preflight ==> 0 < preflightHits
      modifies this`transient, this`keys, this`preflightHits
      ensures transient == old(transient) - if phase == Payload then 1 else 0
      ensures keys == old(keys) - if phase == Key then 1 else 0
      ensures preflightHits == old(preflightHits) - if phase == Preflight then 1 else 0
    {
      match phase
      case Payload => transient := transient - 1;
      case Key => keys := keys - 1;
      case Preflight => preflightHits := preflightHits - 1;
      case Retained =>
    }

    method MarkKey(id: nat)
      requires Valid() && Live(slots, id) && slots[id].value.phase == Payload
      modifies this
      ensures history == old(history)
      ensures Valid() && slots == old(slots)[id := Some(old(slots)[id].value.(phase := Key))]
      ensures values == old(values) && order == old(order) && leases == old(leases) && used == old(used)
    {
      var keyed := Some(slots[id].value.(phase := Key));
      AccountedSet(slots, limit, used, peak, transient, keys, preflightHits, id, keyed);
      ChargedSet(slots, values, leases, id, keyed);
      hide Accounted, Charged, Indexed, Tallied;
      keys := keys + 1;
      transient := transient - 1;
      slots := slots[id := keyed];
    }

    method Shrink(id: nat, amount: nat)
      requires Valid() && Live(slots, id) && amount <= slots[id].value.amount
      modifies this
      ensures history == old(history)
      ensures Valid()
      ensures slots == old(slots)[id := Some(old(slots)[id].value.(amount := old(slots)[id].value.amount - amount))]
      ensures values == old(values) && order == old(order) && leases == old(leases) && used == old(used) - amount
    {
      var smaller := Some(slots[id].value.(amount := slots[id].value.amount - amount));
      AccountedSet(slots, limit, used, peak, transient, keys, preflightHits, id, smaller);
      ChargedAmount(slots, values, leases, id, smaller);
      hide Accounted, Charged, Indexed, Tallied;
      used := used - amount;
      slots := slots[id := smaller];
    }

    // ----- Admission

    // Drop the oldest entry; an entry still leased stays charged.
    method EvictOldest()
      requires Valid() && order != []
      modifies this
      ensures history == old(history)
      ensures Valid()
      ensures order == old(order)[1..] && values == old(values) - {old(order)[0]}
      ensures slots == Evicted(old(slots), old(leases), old(values)[old(order)[0]])
      ensures leases == old(leases)
      ensures transient == old(transient) && keys == old(keys) && preflightHits == old(preflightHits)
    {
      IndexedEvict(values, order, identities);
      var key := order[0];
      var id := values[key];
      ChargedEvict(slots, values, leases, key);
      assert Retains(slots, id);
      AccountedSet(slots, limit, used, peak, transient, keys, preflightHits, id, None);
      hide Accounted, Charged, Indexed, Tallied;
      order := order[1..];
      values := values - {key};
      identities := identities - {key.uri};
      if id !in leases {
        used := used - slots[id].value.amount;
        slots := slots[id := None];
      }
    }

    // Reserve bytes for a decoder or a load key, evicting oldest entries first. The
    // evictions stop as soon as the request fits.
    method TryReserve(amount: nat, ownedKeys: Option<nat>, ownedHits: nat) returns (a: Admission, ghost k: nat)
      requires Valid()
      modifies this
      ensures history == old(history)
      ensures Valid() && leases == old(leases)
      ensures k <= |old(order)| && order == old(order)[k..] && Restricts(values, old(values), order)
      ensures QueueLive(old(slots), old(values), old(order))
      ensures forall j :: 0 <= j < k ==>
        limit < Total(AfterEvictions(old(slots), old(leases), old(values), old(order), j)) + amount
      ensures var rest := AfterEvictions(old(slots), old(leases), old(values), old(order), k);
        match a
        case Reserved(id) =>
          Total(rest) + amount <= limit && id == |old(slots)| && slots == rest + [Some(Reservation(amount, Payload))]
        case _ =>
          slots == rest && (if limit < amount then k == 0 else k == |old(order)| && limit < Total(rest) + amount)
      ensures a.Pressure? <==> !a.Reserved? && amount <= limit && Releasable(slots, ownedKeys, ownedHits)
    {
      hide Charged, Indexed, Total, Count, AfterEvictions, Restricts, Evicted, Tallied;
      QueueIsLive(slots, values, leases, order, identities);
      AfterNone(slots, leases, values, order);
      RestrictsAll(values, order, identities);
      k := 0;
      if limit < amount {
        return CannotFit, 0;
      }
      while true
        invariant Valid() && leases == old(leases) && history == old(history) && k <= |old(order)| && order == old(order)[k..]
        invariant Restricts(values, old(values), order)
        invariant slots == AfterEvictions(old(slots), old(leases), old(values), old(order), k)
        invariant forall j :: 0 <= j < k ==> limit < Total(AfterEvictions(old(slots), old(leases), old(values), old(order), j)) + amount
        decreases |order|
      {
        if used + amount <= limit {
          var id := |slots|;
          Reserve(amount);
          return Reserved(id), k;
        }
        if order == [] {
          var releasable := transient > 0 || preflightHits > ownedHits || (ownedKeys.Some? && keys > ownedKeys.value);
          return if releasable then Pressure else CannotFit, k;
        }
        EvictionStep(old(slots), old(leases), old(values), old(order), k);
        RestrictsStep(values, old(values), order, identities);
        EvictOldest();
        k := k + 1;
      }
    }

    // The bytes fit: charge them to a new reservation.
    method Reserve(amount: nat)
      requires Valid() && used + amount <= limit
      modifies this
      ensures history == old(history)
      ensures Valid() && slots == old(slots) + [Some(Reservation(amount, Payload))]
      ensures values == old(values) && order == old(order) && leases == old(leases)
    {
      Push(Some(Reservation(amount, Payload)));
    }

    method Push(slot: Option<Reservation>)
      requires Valid() && slot.Some? && slot.value.phase != Retained && used + Amount(slot) <= limit
      modifies this
      ensures history == old(history)
      ensures Valid() && slots == old(slots) + [slot]
      ensures values == old(values) && order == old(order) && leases == old(leases) && used == old(used) + Amount(slot)
    {
      hide Accounted, Charged, Indexed, Amount, InPhase, Retains, Live, Tallied;
      AccountedPush(slots, limit, used, peak, transient, keys, preflightHits, slot);
      ChargedPush(slots, values, leases, slot);
      used, peak := used + Amount(slot), if peak < used + Amount(slot) then used + Amount(slot) else peak;
      transient := transient + InPhase(slot, Payload);
      keys := keys + InPhase(slot, Key);
      preflightHits := preflightHits + InPhase(slot, Preflight);
      slots := slots + [slot];
    }

    // ----- Entries

    // check: another identity is cached under this URI.
    predicate Conflicts(key: Identity)
      reads this
    {
      key.uri in identities && identities[key.uri] != key
    }

    // Publish, at no bytes, that a reader's cache hit will release what it holds.
    method AnnounceHit()
      requires Valid()
      modifies this
      ensures history == old(history)
      ensures Valid() && slots == old(slots) + [Some(Reservation(0, Preflight))]
      ensures values == old(values) && order == old(order) && used == old(used) && leases == old(leases)
    {
      Push(Some(Reservation(0, Preflight)));
    }

    // Hand out a cached entry with one more lease.
    method Lease(key: Identity) returns (id: nat)
      requires Valid() && key in values
      modifies this`leases, this`history
      ensures Valid() && id == values[key] && leases == Leased(old(leases), id) && history == old(history) + [HandedOut(id)]
    {
      id := values[key];
      ChargedLease(slots, values, leases, key);
      TalliedOut(history, leases, id);
      hide Charged, Indexed, Total, Count, Tallied, Leased;
      leases := Leased(leases, id);
      history := history + [HandedOut(id)];
    }

    // A preflight reader without a lease also announces its hit.
    method Get(key: Identity, preflight: bool, leased: bool) returns (r: Result<Option<nat>>, hit: Option<nat>)
      requires Valid()
      modifies this
      ensures history == old(history) + if r.Ok? && r.value.Some? then [HandedOut(r.value.value)] else []
      ensures Valid() && values == old(values) && order == old(order) && used == old(used)
      ensures r.Err? <==> Disputed(old(values), key)
      ensures r.Ok? ==> r.value == if key in values then Some(values[key]) else None
      ensures hit.Some? <==> r.Ok? && r.value.Some? && preflight && !leased
      ensures slots == old(slots) + (if hit.Some? then [Some(Reservation(0, Preflight))] else [])
      ensures hit.Some? ==> hit.value == |old(slots)|
      ensures leases == if r.Ok? && r.value.Some? then Leased(old(leases), r.value.value) else old(leases)
    {
      ConflictsExactly(values, order, identities, key);
      hide Charged, Indexed, Accounted, Disputed, Tallied;
      hit := None;
      if Conflicts(key) {
        return Err(Corrupt), None;
      }
      if key !in values {
        return Ok(None), None;
      }
      var id := Lease(key);
      if preflight && !leased {
        hit := Some(|slots|);
        AnnounceHit();
      }
      return Ok(Some(id)), hit;
    }

    // Cache a decoded footer under its reservation, unless another load was faster; then
    // that entry is shared and the reservation goes.
    method Insert(key: Identity, size: nat, id: nat) returns (r: Result<nat>)
      requires Valid() && Live(slots, id) && slots[id].value.phase == Payload
      modifies this
      ensures history == old(history) + if r.Ok? then [HandedOut(r.value)] else []
      ensures Valid()
      ensures r.Err? <==> old(slots)[id].value.amount < size || Disputed(old(values), key)
      ensures r.Err? ==>
        slots == old(slots)[id := None] && values == old(values) && order == old(order) && leases == old(leases)
      ensures r.Ok? && key in old(values) ==>
        && r.value == old(values)[key] && slots == old(slots)[id := None]
        && values == old(values) && order == old(order) && leases == Leased(old(leases), r.value)
      ensures r.Ok? && key !in old(values) ==>
        && r.value == id && slots == old(slots)[id := Some(old(slots)[id].value.(phase := Retained))]
        && values == old(values)[key := id] && order == old(order) + [key] && leases == old(leases)[id := 1]
    {
      ConflictsExactly(values, order, identities, key);
      hide Charged, Indexed, Accounted, Disputed, Tallied;
      if slots[id].value.amount < size {
        Drop(id);
        return Err(TooLarge);
      }
      if Conflicts(key) {
        Drop(id);
        return Err(Corrupt);
      }
      if key in values {
        Drop(id);
        var entry := Lease(key);
        return Ok(entry);
      }
      AddEntry(key, id);
      return Ok(id);
    }

    method AddEntry(key: Identity, id: nat)
      requires Valid() && Live(slots, id) && slots[id].value.phase == Payload
      requires key !in values && !Conflicts(key)
      modifies this
      ensures history == old(history) + [HandedOut(id)]
      ensures Valid() && slots == old(slots)[id := Some(old(slots)[id].value.(phase := Retained))]
      ensures values == old(values)[key := id] && order == old(order) + [key] && leases == old(leases)[id := 1]
    {
      NotYetCharged(slots, values, leases, id);
      hide Accounted, Charged, Indexed, Tallied;
      FinishTransient(id);
      ChargedInsert(slots, values, leases, key, id);
      IndexedInsert(values, order, identities, key, id);
      identities := identities[key.uri := key];
      order := order + [key];
      values := values[key := id];
    }

    // A lease ends; the last one frees an entry that the cache has dropped.
    method Release(id: nat)
      requires Valid() && id in leases
      modifies this
      ensures history == old(history) + [GivenBack(id)]
      ensures Valid() && values == old(values) && order == old(order)
      ensures leases == if old(leases)[id] == 1 then old(leases) - {id} else old(leases)[id := old(leases)[id] - 1]
      ensures slots == if old(leases)[id] == 1 && id !in values.Values then old(slots)[id := None] else old(slots)
    {
      ChargedRelease(slots, values, leases, id);
      assert Retains(slots, id);
      AccountedSet(slots, limit, used, peak, transient, keys, preflightHits, id, None);
      TalliedBack(history, leases, id);
      hide Accounted, Charged, Indexed, Tallied;
      history := history + [GivenBack(id)];
      if leases[id] != 1 {
        leases := leases[id := leases[id] - 1];
        return;
      }
      leases := leases - {id};
      if id !in values.Values {
        used := used - slots[id].value.amount;
        slots := slots[id := None];
      }
    }
  }

  // The lease count of an entry is the number of times it was handed out less the number
  // of times it was given back, and while that is positive its bytes stay charged, cached
  // or not.
  lemma HeldStaysCharged(c: Cache, id: nat)
    requires c.Valid()
    ensures Outstanding(c.history, id) == Held(c.leases, id)
    ensures Outstanding(c.history, id) > 0 ==> Retains(c.slots, id) && c.slots[id].value.amount <= c.used
  {
    if id in c.leases {
      AmountBelowTotal(c.slots, id);
    }
  }

  // ----- What the limit means ---------------------------------------------------------------

  // Every live reservation is within the limit, and so is any one of them.
  lemma WithinLimit(c: Cache, id: nat)
    requires c.Valid() && Live(c.slots, id)
    ensures c.slots[id].value.amount <= c.used <= c.limit
  {
    AmountBelowTotal(c.slots, id);
  }
}
