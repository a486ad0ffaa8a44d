/**
 The pending set of the global log: an array of event slots and two ordered indexes,
 `alive` by event and `causes` by cause.  A slot whose event has sequence number 0 is
 free.  Equal keys may occur in `causes`; the library then returns any one of them.
 */
module Pending {
  import opened EventLog
  import opened RingArithmetic
  import opened Wrappers

  // ---------- EventIndex ----------

  const TWO_32: int := 0x1_0000_0000
  const TWO_63: int := 0x8000_0000_0000_0000
  const TWO_64: int := 0x1_0000_0000_0000_0000

  /** (host << 32) + seq_no, as a signed 64-bit integer. */
  function EventIndex(host: nat, seqNo: nat): int {
    var u := (host * TWO_32 + seqNo) % TWO_64;
    if u < TWO_63 then u else u - TWO_64
  }

  predicate InRange(host: nat, seqNo: nat) {
    host < TWO_32 && seqNo < TWO_32
  }

  /** Within the range the index identifies the event. */
  lemma EventIndexInjective(h1: nat, s1: nat, h2: nat, s2: nat)
    requires InRange(h1, s1) && InRange(h2, s2)
    ensures EventIndex(h1, s1) == EventIndex(h2, s2) <==> h1 == h2 && s1 == s2
  {
  }

  /** Its order is that of hosts and then of sequence numbers, but hosts from 2^31 on come first,
      because their index is negative. */
  lemma EventIndexOrder(h1: nat, s1: nat, h2: nat, s2: nat)
    requires InRange(h1, s1) && InRange(h2, s2)
    ensures EventIndex(h1, s1) < EventIndex(h2, s2) <==>
              if (h1 < 0x8000_0000) != (h2 < 0x8000_0000) then h1 > h2 else h1 < h2 || (h1 == h2 && s1 < s2)
  {
  }

  /** Outside it does not: every other event has the index of one within the range. */
  lemma EventIndexCollides(host: nat, seqNo: nat) returns (h: nat, s: nat)
    requires !InRange(host, seqNo)
    ensures InRange(h, s) && EventIndex(h, s) == EventIndex(host, seqNo)
  {
    var u := (host * TWO_32 + seqNo) % TWO_64;
    h, s := u / TWO_32, u % TWO_32;
    assert h * TWO_32 + s == u;
  }

  // ---------- Ordered indexes ----------

  datatype Entry = Entry(key: int, slot: nat)

  ghost predicate Sorted(t: seq<Entry>) {
    forall i, j | 0 <= i < j < |t| :: t[i].key <= t[j].key
  }

  ghost predicate Holds(t: seq<Entry>, slot: nat) {
    exists i :: 0 <= i < |t| && t[i].slot == slot
  }

  ghost predicate DistinctSlots(t: seq<Entry>) {
    forall i, j | 0 <= i < j < |t| :: t[i].slot != t[j].slot
  }

  /** RBInsertI64 */
  method Insert(t: seq<Entry>, e: Entry) returns (t': seq<Entry>)
    requires Sorted(t) && DistinctSlots(t) && !Holds(t, e.slot)
    ensures Sorted(t') && DistinctSlots(t')
    ensures forall s :: Holds(t', s) <==> Holds(t, s) || s == e.slot
    ensures forall x :: x in t' <==> x in t || x == e
  {
    var p := 0;
    while p < |t| && t[p].key <= e.key
      invariant 0 <= p <= |t|
      invariant forall i | 0 <= i < p :: t[i].key <= e.key
    {
      p := p + 1;
    }
    t' := t[..p] + [e] + t[p..];
    InsertHolds(t, p, e);
  }

  lemma InsertHolds(t: seq<Entry>, p: nat, e: Entry)
    requires p <= |t|
    ensures var t' := t[..p] + [e] + t[p..];
      && (forall s :: Holds(t', s) <==> Holds(t, s) || s == e.slot)
      && (forall x :: x in t' <==> x in t || x == e)
  {
    var t' := t[..p] + [e] + t[p..];
    assert t == t[..p] + t[p..];
    forall s ensures Holds(t', s) <==> Holds(t, s) || s == e.slot {
      if Holds(t, s) {
        var i :| 0 <= i < |t| && t[i].slot == s;
        assert t'[if i < p then i else i + 1] == t[i];
      }
      if s == e.slot { assert t'[p].slot == s; }
    }
  }

  /** RBDeleteI64 */
  function Delete(t: seq<Entry>, i: nat): (t': seq<Entry>)
    requires i < |t|
  {
    t[..i] + t[i + 1..]
  }

  lemma DeleteSorted(t: seq<Entry>, i: nat)
    requires i < |t| && Sorted(t) && DistinctSlots(t)
    ensures Sorted(Delete(t, i)) && DistinctSlots(Delete(t, i)) && forall x | x in Delete(t, i) :: x in t
  {
    assert forall j | 0 <= j < |t| - 1 :: Delete(t, i)[j] == t[if j < i then j else j + 1];
  }

  lemma DeleteHolds(t: seq<Entry>, i: nat)
    requires i < |t| && Sorted(t) && DistinctSlots(t)
    ensures var t' := Delete(t, i);
      && Sorted(t') && DistinctSlots(t')
      && (forall s :: Holds(t', s) <==> Holds(t, s) && s != t[i].slot)
      && (forall x | x in t' :: x in t)
  {
    DeleteSorted(t, i);
    var t' := Delete(t, i);
    forall s ensures Holds(t', s) <==> Holds(t, s) && s != t[i].slot {
      if Holds(t, s) && s != t[i].slot {
        var j :| 0 <= j < |t| && t[j].slot == s;
        assert t'[if j < i then j else j - 1] == t[j];
      }
      if Holds(t', s) {
        var j :| 0 <= j < |t'| && t'[j].slot == s;
        assert t'[j] == t[if j < i then j else j + 1];
      }
    }
  }

  // ---------- The pending set ----------

  datatype Id = Id(host: nat, seqNo: nat)

  function IdOf(e: Event): Id {
    Id(e.host, e.seqNo)
  }

  function CauseOf(e: Event): Id {
    Id(e.causeHost, e.causeSeqNo)
  }

  /** Events that can be pending: their numbers fit the index and are not the free mark. */
  predicate Pendable(e: Event) {
    e.seqNo != 0 && InRange(e.host, e.seqNo) && InRange(e.causeHost, e.causeSeqNo)
  }

  function AliveKey(e: Event): int {
    EventIndex(e.host, e.seqNo)
  }

  function CauseKey(e: Event): int {
    EventIndex(e.causeHost, e.causeSeqNo)
  }

  /** The order of the index of events. */
  lemma AliveOrder(e: Event, e': Event)
    requires Pendable(e) && Pendable(e')
    ensures AliveKey(e) <= AliveKey(e') <==>
              if (e.host < 0x8000_0000) != (e'.host < 0x8000_0000) then e.host > e'.host
              else e.host < e'.host || (e.host == e'.host && e.seqNo <= e'.seqNo)
  {
    EventIndexOrder(e.host, e.seqNo, e'.host, e'.seqNo);
    EventIndexOrder(e'.host, e'.seqNo, e.host, e.seqNo);
  }

  /** The free slots are known, and there are as many others as pending events. */
  ghost predicate FreeOk(slots: seq<Event>, view: map<Id, Event>, free: set<nat>) {
    && |free| + |view| == |slots|
    && (forall s :: s in free <==> 0 <= s < |slots| && slots[s].seqNo == 0)
  }

  /** The other slots hold exactly the events of `view`. */
  ghost predicate PlacesOk(slots: seq<Event>, view: map<Id, Event>, place: map<Id, nat>) {
    && view.Keys == place.Keys
    && (forall id | id in view :: place[id] < |slots| && slots[place[id]] == view[id]
                                  && IdOf(view[id]) == id && Pendable(view[id]))
    && (forall s | 0 <= s < |slots| && slots[s].seqNo != 0 ::
          IdOf(slots[s]) in place && place[IdOf(slots[s])] == s)
  }

  ghost predicate SlotsOk(slots: seq<Event>, view: map<Id, Event>, place: map<Id, nat>, free: set<nat>) {
    FreeOk(slots, view, free) && PlacesOk(slots, view, place)
  }

  /** The index holds exactly the slots in use, each under its key. */
  ghost predicate IndexOk(slots: seq<Event>, t: seq<Entry>, key: Event -> int) {
    && Sorted(t) && DistinctSlots(t)
    && (forall x | x in t :: x.slot < |slots| && slots[x.slot].seqNo != 0 && x.key == key(slots[x.slot]))
    && (forall s | 0 <= s < |slots| && slots[s].seqNo != 0 :: Holds(t, s))
  }

  lemma StoreSlots(slots: seq<Event>, view: map<Id, Event>, place: map<Id, nat>, free: set<nat>, n: nat, e: Event)
    requires SlotsOk(slots, view, place, free) && n < |slots| && slots[n].seqNo == 0
    requires Pendable(e) && IdOf(e) !in view
    ensures SlotsOk(slots[n := e], view[IdOf(e) := e], place[IdOf(e) := n], free - {n})
  {
    assert n in free;
  }

  lemma StoreIndex(slots: seq<Event>, t: seq<Entry>, key: Event -> int, n: nat, e: Event, t': seq<Entry>)
    requires IndexOk(slots, t, key) && n < |slots| && slots[n].seqNo == 0 && e.seqNo != 0
    requires Sorted(t') && DistinctSlots(t')
    requires forall s :: Holds(t', s) <==> Holds(t, s) || s == n
    requires forall x :: x in t' <==> x in t || x == Entry(key(e), n)
    ensures IndexOk(slots[n := e], t', key)
  {
    var slots' := slots[n := e];
    forall x | x in t' ensures x.slot < |slots'| && slots'[x.slot].seqNo != 0 && x.key == key(slots'[x.slot]) {
      if x in t { assert x.slot != n; }
    }
  }

  lemma FreeSlotNotHeld(slots: seq<Event>, t: seq<Entry>, key: Event -> int, n: nat)
    requires IndexOk(slots, t, key) && n < |slots| && slots[n].seqNo == 0
    ensures !Holds(t, n)
  {
    assert forall i | 0 <= i < |t| :: t[i] in t;
  }

  lemma RemoveKey<T>(m: map<Id, T>, id: Id)
    ensures (m - {id}).Keys == m.Keys - {id}
    ensures |m - {id}| == if id in m then |m| - 1 else |m|
    ensures id !in m ==> m - {id} == m
  {
    assert (m - {id}).Keys == m.Keys - {id};
    assert |m - {id}| == |(m - {id}).Keys|;
  }

  lemma ReleaseFree(slots: seq<Event>, view: map<Id, Event>, free: set<nat>, id: Id, n: nat)
    requires FreeOk(slots, view, free) && id in view && n < |slots| && slots[n].seqNo != 0
    ensures FreeOk(slots[n := slots[n].(seqNo := 0)], view - {id}, free + {n})
  {
    RemoveKey(view, id);
    assert n !in free;
  }

  lemma ReleasePlace(slots: seq<Event>, view: map<Id, Event>, place: map<Id, nat>, id: Id, n: nat)
    requires PlacesOk(slots, view, place) && id in view && n == place[id]
    ensures PlacesOk(slots[n := slots[n].(seqNo := 0)], view - {id}, place - {id})
  {
    RemoveKey(view, id);
    RemoveKey(place, id);
    forall k | k in view && k != id ensures place[k] != n {
      assert slots[place[k]] == view[k] && IdOf(view[k]) == k && IdOf(view[id]) == id;
    }
  }

  lemma ReleaseIndex(slots: seq<Event>, t: seq<Entry>, key: Event -> int, i: nat)
    requires IndexOk(slots, t, key) && i < |t| && t[i].slot < |slots|
    ensures var n := t[i].slot;
            IndexOk(slots[n := slots[n].(seqNo := 0)], Delete(t, i), key)
  {
    DeleteHolds(t, i);
    var n, t' := t[i].slot, Delete(t, i);
    var slots' := slots[n := slots[n].(seqNo := 0)];
    forall x | x in t' ensures x.slot < |slots'| && slots'[x.slot].seqNo != 0 && x.key == key(slots'[x.slot]) {
      var k :| 0 <= k < |t'| && t'[k] == x;
      assert Holds(t', x.slot);
    }
  }

  /** Any entry of the index leads to a pending event. */
  lemma EntryIsPending(slots: seq<Event>, view: map<Id, Event>, place: map<Id, nat>, free: set<nat>,
                       t: seq<Entry>, key: Event -> int, i: nat)
    requires SlotsOk(slots, view, place, free) && IndexOk(slots, t, key) && i < |t|
    ensures t[i].slot < |slots|
    ensures var e := slots[t[i].slot];
      && IdOf(e) in view && view[IdOf(e)] == e && Pendable(e) && t[i].key == key(e) && place[IdOf(e)] == t[i].slot
  {
    assert t[i] in t;
  }

  /** Any pending event is in the index. */
  lemma PendingHasEntry(slots: seq<Event>, view: map<Id, Event>, place: map<Id, nat>, free: set<nat>,
                        t: seq<Entry>, key: Event -> int, id: Id) returns (i: nat)
    requires SlotsOk(slots, view, place, free) && IndexOk(slots, t, key) && id in view
    ensures i < |t| && t[i] == Entry(key(view[id]), place[id])
  {
    assert Holds(t, place[id]);
    i :| 0 <= i < |t| && t[i].slot == place[id];
    assert t[i] in t;
  }

  /** The walks for the entry of slot `local` among those with key ndx: up from any one of
      them, then down from it. */
  method FindEntry(t: seq<Entry>, ndx: int, local: nat, ghost p: nat) returns (j: nat)
    requires Sorted(t) && p < |t| && t[p] == Entry(ndx, local)
    ensures j < |t| && t[j].slot == local
  {
    var start :| 0 <= start < |t| && t[start].key == ndx;
    j := start;
    while j < |t| && t[j].key == ndx
      invariant start <= j <= |t|
      invariant forall k | start <= k < j :: t[k].slot != local
    {
      if t[j].slot == local {
        return;
      }
      j := j + 1;
    }
    j := start;
    while j >= 0 && t[j].key == ndx
      invariant p <= j <= start
      invariant t[j].key == ndx
    {
      if t[j].slot == local {
        return;
      }
      j := j - 1;
    }
  }

  /** The search for a free slot, from `start` on and round. */
  method FindFree(slots: array<Event>, start: nat) returns (n: nat, ok: bool)
    requires start < slots.Length
    ensures n < slots.Length
    ensures ok ==> slots[n].seqNo == 0
    ensures !ok ==> n == start && forall s | 0 <= s < slots.Length :: slots[s].seqNo != 0
  {
    n := start;
    while slots[n].seqNo != 0
      invariant n < slots.Length
      invariant forall s: nat | s < slots.Length && Distance(start, s, slots.Length) < Distance(start, n, slots.Length)
                :: slots[s].seqNo != 0
      decreases slots.Length - Distance(start, n, slots.Length)
    {
      ghost var last := n;
      n := ProbeNext(n, start, slots.Length);
      if n == start {
        forall s: nat | s < slots.Length ensures slots[s].seqNo != 0 {
          LastIsFarthest(start, s, last, slots.Length);
        }
        return n, false;
      }
    }
    ok := true;
  }

  /** `view` is the set as a map from event ids to events. */
  class PendingSet {
    const slots: array<Event>
    var alive: seq<Entry>
    var causes: seq<Entry>
    var nextFree: nat

    ghost var mem: seq<Event>      // the slots, as a value
    ghost var view: map<Id, Event>
    ghost var place: map<Id, nat>  // the slot of each pending event
    ghost var free: set<nat>

    ghost predicate Valid()
      reads this, slots
    {
      && nextFree < slots.Length == |mem|
      && (forall i | 0 <= i < slots.Length :: slots[i] == mem[i])
      && SlotsOk(mem, view, place, free)
      && IndexOk(mem, alive, AliveKey)
      && IndexOk(mem, causes, CauseKey)
    }

    /** PendingCreate */
    constructor (size: nat)
      requires size > 0
      ensures Valid() && view == map[] && slots.Length == size && fresh(slots)
    {
      slots := new Event[size](_ => EventCreate(UNKNOWN, 0));
      alive, causes, nextFree := [], [], 0;
      mem := seq(size, _ => EventCreate(UNKNOWN, 0));
      view, place, free := map[], map[], Below(size);
    }

    /** PendingFindEvent */
    method FindEvent(host: nat, seqNo: nat) returns (r: Option<Event>)
      requires Valid() && InRange(host, seqNo)
      ensures r == if Id(host, seqNo) in view then Some(view[Id(host, seqNo)]) else None
    {
      var ndx := EventIndex(host, seqNo);
      if i :| 0 <= i < |alive| && alive[i].key == ndx {
        AliveEntry(host, seqNo, i);
        r := Some(slots[alive[i].slot]);
      } else {
        if Id(host, seqNo) in view {
          ghost var i := PendingHasEntry(mem, view, place, free, alive, AliveKey, Id(host, seqNo));
        }
        r := None;
      }
    }

    /** A hit in the index by event is the event that was asked for. */
    lemma AliveEntry(host: nat, seqNo: nat, i: nat)
      requires Valid() && InRange(host, seqNo) && i < |alive| && alive[i].key == EventIndex(host, seqNo)
      ensures Id(host, seqNo) in view && alive[i].slot == place[Id(host, seqNo)] < slots.Length
      ensures slots[alive[i].slot] == view[Id(host, seqNo)]
    {
      EntryIsPending(mem, view, place, free, alive, AliveKey, i);
      var e := slots[alive[i].slot];
      EventIndexInjective(host, seqNo, e.host, e.seqNo);
    }

    /** PendingFindCause: some pending event with the given cause, if there is one. */
    method FindCause(host: nat, seqNo: nat) returns (r: Option<Event>)
      requires Valid() && InRange(host, seqNo)
      ensures r.Some? ==> IdOf(r.value) in view && view[IdOf(r.value)] == r.value && CauseOf(r.value) == Id(host, seqNo)
      ensures r.None? ==> forall id | id in view :: CauseOf(view[id]) != Id(host, seqNo)
    {
      var ndx := EventIndex(host, seqNo);
      if i :| 0 <= i < |causes| && causes[i].key == ndx {
        EntryIsPending(mem, view, place, free, causes, CauseKey, i);
        var e := slots[causes[i].slot];
        EventIndexInjective(host, seqNo, e.causeHost, e.causeSeqNo);
        r := Some(e);
      } else {
        forall id | id in view ensures CauseOf(view[id]) != Id(host, seqNo) {
          var i := PendingHasEntry(mem, view, place, free, causes, CauseKey, id);
        }
        r := None;
      }
    }

    /** PendingAddEvent: succeeds exactly when the event is not pending yet and a slot is
        free. */
    method Add(event: Event) returns (ok: bool)
      requires Valid() && Pendable(event)
      modifies this, slots
      ensures Valid()
      ensures ok <==> IdOf(event) !in old(view) && |old(view)| < slots.Length
      ensures view == if ok then old(view)[IdOf(event) := event] else old(view)
    {
      var found := FindEvent(event.host, event.seqNo);
      if found.Some? {
        return false;
      }
      nextFree, ok := FindFree(slots, nextFree);
      if ok {
        assert nextFree in free;
        Store(event);
      } else {
        assert free == {};
      }
    }

    /** Copy the event to slot next_free and enter it in both indexes. */
    method Store(event: Event)
      requires Valid() && Pendable(event) && IdOf(event) !in view && slots[nextFree].seqNo == 0
      modifies this, slots
      ensures Valid() && view == old(view)[IdOf(event) := event]
    {
      var n := nextFree;
      FreeSlotNotHeld(mem, alive, AliveKey, n);
      FreeSlotNotHeld(mem, causes, CauseKey, n);
      var a := Insert(alive, Entry(EventIndex(event.host, event.seqNo), n));
      var c := Insert(causes, Entry(EventIndex(event.causeHost, event.causeSeqNo), n));
      StoreSlots(mem, view, place, free, n, event);
      StoreIndex(mem, alive, AliveKey, n, event, a);
      StoreIndex(mem, causes, CauseKey, n, event, c);
      Update(n, event, a, c, view[IdOf(event) := event], place[IdOf(event) := n], free - {n});
    }

    /** Write a slot and both indexes. */
    method Update(n: nat, e: Event, a: seq<Entry>, c: seq<Entry>,
                  ghost view': map<Id, Event>, ghost place': map<Id, nat>, ghost free': set<nat>)
      requires nextFree < slots.Length == |mem| && n < slots.Length
      requires forall i | 0 <= i < slots.Length :: slots[i] == mem[i]
      requires SlotsOk(mem[n := e], view', place', free')
      requires IndexOk(mem[n := e], a, AliveKey) && IndexOk(mem[n := e], c, CauseKey)
      modifies this, slots
      ensures Valid() && view == view'
    {
      slots[n] := e;
      alive, causes := a, c;
      mem, view, place, free := mem[n := e], view', place', free';
    }

    /** PendingRemoveEvent: succeeds for every pending event. */
    method Remove(event: Event) returns (ok: bool)
      requires Valid() && Pendable(event) && (IdOf(event) in view ==> view[IdOf(event)] == event)
      modifies this, slots
      ensures Valid()
      ensures ok <==> IdOf(event) in old(view)
      ensures view == old(view) - {IdOf(event)}
    {
      var ndx := EventIndex(event.host, event.seqNo);
      if i :| 0 <= i < |alive| && alive[i].key == ndx {
        AliveEntry(event.host, event.seqNo, i);
        var local := alive[i].slot;
        ghost var p := PendingHasEntry(mem, view, place, free, causes, CauseKey, IdOf(event));
        var j := FindEntry(causes, EventIndex(event.causeHost, event.causeSeqNo), local, p);
        Release(event, i, j, local);
        ok := true;
      } else {
        if IdOf(event) in view {
          ghost var i := PendingHasEntry(mem, view, place, free, alive, AliveKey, IdOf(event));
        }
        RemoveKey(view, IdOf(event));
        ok := false;
      }
    }

    /** Take the event out of both indexes and mark its slot free. */
    method Release(event: Event, i: nat, j: nat, local: nat)
      requires Valid() && IdOf(event) in view && local == place[IdOf(event)]
      requires i < |alive| && alive[i].slot == local && j < |causes| && causes[j].slot == local
      modifies this, slots
      ensures Valid() && view == old(view) - {IdOf(event)}
    {
      ReleaseFree(mem, view, free, IdOf(event), local);
      ReleasePlace(mem, view, place, IdOf(event), local);
      ReleaseIndex(mem, alive, AliveKey, i);
      ReleaseIndex(mem, causes, CauseKey, j);
      Update(local, slots[local].(seqNo := 0), Delete(alive, i), Delete(causes, j),
             view - {IdOf(event)}, place - {IdOf(event)}, free + {local});
    }
  }
}
