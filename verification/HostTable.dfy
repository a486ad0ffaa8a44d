/**
 The host list: a hash table with linear probing in which nothing is ever deleted.  A
 slot whose host id is 0 is empty.
 */
module HostTable {
  import opened RingArithmetic
  import opened Wrappers

  const HASHCOUNT: nat := 100

  datatype Host = Host(id: nat, maxSeen: nat, horizon: nat)

  // ---------- Tables as values ----------

  /** The search for host h in a table of n slots visits slot i before slot j. */
  ghost predicate Before(h: nat, i: nat, j: nat, n: nat)
    requires n > 0
  {
    Distance(h % n, i, n) < Distance(h % n, j, n)
  }

  /** The search for host h meets no slot with this id before slot j. */
  ghost predicate NoneBefore(slots: seq<Host>, h: nat, j: nat, id: nat)
    requires slots != []
  {
    forall i: nat | i < |slots| && Before(h, i, j, |slots|) :: slots[i].id != id
  }

  /** The slots hold the records of `view`, that of host h in slot place[h]. */
  ghost predicate Holds(slots: seq<Host>, view: map<nat, Host>, place: map<nat, nat>) {
    && view.Keys == place.Keys && 0 !in view
    && (forall h | h in view :: place[h] < |slots| && slots[place[h]] == view[h] && view[h].id == h)
    && (forall i | 0 <= i < |slots| && slots[i].id != 0 :: slots[i].id in place && place[slots[i].id] == i)
  }

  /** The search for every host gets to its slot. */
  ghost predicate Reachable(slots: seq<Host>, place: map<nat, nat>)
    requires slots != []
  {
    forall h | h in place :: NoneBefore(slots, h, place[h], 0)
  }

  ghost predicate FreeAre(slots: seq<Host>, free: set<nat>) {
    forall i: nat :: i in free <==> i < |slots| && slots[i].id == 0
  }

  lemma OccupyHolds(slots: seq<Host>, view: map<nat, Host>, place: map<nat, nat>, i: nat, h: nat)
    requires Holds(slots, view, place) && i < |slots| && slots[i].id == 0 && h != 0 && h !in view
    ensures Holds(slots[i := Host(h, 0, 0)], view[h := Host(h, 0, 0)], place[h := i])
  {
    assert forall g | g in view :: place[g] != i;
  }

  /** An occupied slot stays occupied, so that no search ends earlier than before. */
  lemma OccupyReachable(slots: seq<Host>, place: map<nat, nat>, i: nat, h: nat)
    requires slots != [] && Reachable(slots, place) && i < |slots| && h != 0 && NoneBefore(slots, h, i, 0)
    ensures Reachable(slots[i := Host(h, 0, 0)], place[h := i])
  {
    var slots', place' := slots[i := Host(h, 0, 0)], place[h := i];
    forall g | g in place' ensures NoneBefore(slots', g, place'[g], 0) {
      assert NoneBefore(slots, g, place'[g], 0);
    }
  }

  lemma OccupyFree(slots: seq<Host>, free: set<nat>, i: nat, e: Host)
    requires FreeAre(slots, free) && i in free && e.id != 0
    ensures FreeAre(slots[i := e], free - {i}) && |free - {i}| == |free| - 1
  {
  }

  lemma AddKey(view: map<nat, Host>, h: nat, e: Host)
    requires h !in view
    ensures |view[h := e]| == |view| + 1
  {
    assert view[h := e].Keys == view.Keys + {h};
  }

  lemma SetKeeps(slots: seq<Host>, view: map<nat, Host>, place: map<nat, nat>, i: nat, e: Host)
    requires slots != [] && Holds(slots, view, place) && Reachable(slots, place)
    requires i < |slots| && slots[i].id == e.id != 0
    ensures Holds(slots[i := e], view[e.id := e], place) && Reachable(slots[i := e], place)
    ensures view[e.id := e].Keys == view.Keys
  {
    forall g | g in place ensures NoneBefore(slots[i := e], g, place[g], 0) {
      assert NoneBefore(slots, g, place[g], 0);
    }
  }

  /** A search for a host ends at its slot. */
  lemma FoundAt(slots: seq<Host>, view: map<nat, Host>, place: map<nat, nat>, i: nat, h: nat)
    requires Holds(slots, view, place) && i < |slots| && slots[i].id == h != 0
    ensures h in view && place[h] == i && view[h] == slots[i]
  {
  }

  /** A search that comes to an empty slot without having met the host will not find it. */
  lemma EmptyMeansAbsent(slots: seq<Host>, view: map<nat, Host>, place: map<nat, nat>, i: nat, h: nat)
    requires slots != [] && Holds(slots, view, place) && Reachable(slots, place)
    requires i < |slots| && slots[i].id == 0 && NoneBefore(slots, h, i, h)
    ensures h !in view
  {
    if h in view {
      assert NoneBefore(slots, h, place[h], 0);
      Apart(h % |slots|, i, place[h], |slots|);
    }
  }

  lemma Apart(start: nat, i: nat, j: nat, n: nat)
    requires start < n && i < n && j < n && i != j
    ensures Distance(start, i, n) != Distance(start, j, n)
  {
  }

  /** A search that has come round has seen all slots. */
  lemma RoundMeansAbsent(slots: seq<Host>, view: map<nat, Host>, place: map<nat, nat>, last: nat, h: nat)
    requires slots != [] && Holds(slots, view, place) && last < |slots|
    requires Distance(h % |slots|, last, |slots|) == |slots| - 1
    requires slots[last].id != h && NoneBefore(slots, h, last, h)
    ensures h !in view && forall j | 0 <= j < |slots| :: slots[j].id != h
  {
    forall j: nat | j < |slots| ensures slots[j].id != h {
      LastIsFarthest(h % |slots|, j, last, |slots|);
    }
  }

  /** One more slot of the search. */
  lemma NoneBeforeNext(slots: seq<Host>, h: nat, i: nat, next: nat, id: nat)
    requires i < |slots| && next < |slots| && NoneBefore(slots, h, i, id) && slots[i].id != id
    requires Distance(h % |slots|, next, |slots|) == Distance(h % |slots|, i, |slots|) + 1
    ensures NoneBefore(slots, h, next, id)
  {
    forall j: nat | j < |slots| && Before(h, j, next, |slots|) ensures slots[j].id != id {
      if j != i { Apart(h % |slots|, i, j, |slots|); }
    }
  }

  // ---------- The table ----------

  /** `view` is the table as a map from host ids to records. */
  class HostList {
    const hash: array<Host>
    var count: nat

    ghost var view: map<nat, Host>
    ghost var place: map<nat, nat>   // the slot of each host
    ghost var free: set<nat>         // the empty slots

    ghost predicate Valid()
      reads this, hash
    {
      && 0 < hash.Length
      && count == |view| < hash.Length
      && |free| == hash.Length - count
      && FreeAre(hash[..], free)
      && Holds(hash[..], view, place)
      && Reachable(hash[..], place)
    }

    /** HostListCreate, with HASHCOUNT for the size */
    constructor (size: nat)
      requires size > 0
      ensures Valid() && view == map[] && fresh(hash) && hash.Length == size
    {
      hash := new Host[size](_ => Host(0, 0, 0));
      count := 0;
      view, place := map[], map[];
      free := Below(size);
    }

    /** HostListFind: a record is found exactly when the host has been added.  Host id 0
        "finds" an empty slot. */
    method Find(h: nat) returns (r: Option<nat>)
      requires Valid()
      ensures h != 0 ==> (r.Some? <==> h in view)
      ensures h != 0 && r.Some? ==> r.value < hash.Length && r.value == place[h] && hash[r.value] == view[h]
      ensures h == 0 ==> r.Some? && r.value < hash.Length && hash[r.value].id == 0
    {
      var i := h % hash.Length;
      var start := i;
      ghost var slots := hash[..];
      ghost var z := SomeFree();
      while hash[i].id != h
        invariant 0 <= i < hash.Length && NoneBefore(slots, h, i, h)
        decreases hash.Length - Distance(start, i, hash.Length)
      {
        if hash[i].id == 0 {
          EmptyMeansAbsent(slots, view, place, i, h);
          return None;
        }
        ghost var seen := i;
        i := ProbeNext(i, start, hash.Length);
        if i == start {
          RoundMeansAbsent(slots, view, place, seen, h);
          assert slots[z].id != h;
          return None;
        }
        NoneBeforeNext(slots, h, seen, i, h);
      }
      if h != 0 { FoundAt(slots, view, place, i, h); }
      r := Some(i);
    }

    /** One slot always stays empty. */
    lemma SomeFree() returns (z: nat)
      requires Valid()
      ensures z < hash.Length && hash[z].id == 0
    {
      assert free != {};
      z :| z in free;
    }

    /** HostListAdd, for a host that Find did not find.  It fails when only one slot is
        left empty. */
    method Add(h: nat) returns (ok: bool)
      requires Valid() && h != 0 && h !in view
      modifies this, hash
      ensures Valid()
      ensures ok <==> |old(view)| + 1 < hash.Length
      ensures view == if ok then old(view)[h := Host(h, 0, 0)] else old(view)
    {
      if count + 1 >= hash.Length {
        return false;
      }
      var i := FindEmpty(h);
      Occupy(i, h);
      ok := true;
    }

    /** The first empty slot of the probe sequence of h. */
    method FindEmpty(h: nat) returns (i: nat)
      requires Valid()
      ensures i in free && NoneBefore(hash[..], h, i, 0)
    {
      i := h % hash.Length;
      ghost var start, slots := i, hash[..];
      ghost var z := SomeFree();
      while hash[i].id != 0
        invariant 0 <= i < hash.Length && NoneBefore(slots, h, i, 0)
        decreases hash.Length - Distance(start, i, hash.Length)
      {
        ghost var seen := i;
        i := ProbeNext(i, start, hash.Length);
        FreeAhead(slots, h, seen, i, z);
      }
    }

    /** Write host h into the first empty slot of its probe sequence. */
    method Occupy(i: nat, h: nat)
      requires Valid() && h != 0 && h !in view && count + 1 < hash.Length && i in free
      requires NoneBefore(hash[..], h, i, 0)
      modifies this, hash
      ensures Valid() && view == old(view)[h := Host(h, 0, 0)]
    {
      ghost var slots := hash[..];
      OccupyHolds(slots, view, place, i, h);
      OccupyReachable(slots, place, i, h);
      OccupyFree(slots, free, i, Host(h, 0, 0));
      AddKey(view, h, Host(h, 0, 0));
      hash[i] := Host(h, 0, 0);
      assert hash[..] == slots[i := Host(h, 0, 0)];
      count := count + 1;
      view, place, free := view[h := Host(h, 0, 0)], place[h := i], free - {i};
    }

    /** Assignments to max_seen and event_horizon through the pointer that Find returned. */
    method Set(i: nat, maxSeen: nat, horizon: nat)
      requires Valid() && i < hash.Length && hash[i].id != 0
      modifies hash, this`view
      ensures Valid()
      ensures view == old(view)[old(hash[i].id) := Host(old(hash[i].id), maxSeen, horizon)]
    {
      ghost var slots, e := hash[..], Host(hash[i].id, maxSeen, horizon);
      SetKeeps(slots, view, place, i, e);
      hash[i] := Host(hash[i].id, maxSeen, horizon);
      assert hash[..] == slots[i := e];
      view := view[e.id := e];
    }
  }

  /** As long as a slot is empty, a search for an empty slot does not come round. */
  lemma FreeAhead(slots: seq<Host>, h: nat, i: nat, next: nat, z: nat)
    requires i < |slots| && next < |slots| && z < |slots| && slots[z].id == 0 != slots[i].id
    requires NoneBefore(slots, h, i, 0)
    requires next == h % |slots| || Distance(h % |slots|, next, |slots|) == Distance(h % |slots|, i, |slots|) + 1
    requires next == h % |slots| ==> Distance(h % |slots|, i, |slots|) == |slots| - 1
    ensures next != h % |slots| && NoneBefore(slots, h, next, 0)
  {
    assert !Before(h, z, i, |slots|);
    Apart(h % |slots|, i, z, |slots|);
    NoneBeforeNext(slots, h, i, next, 0);
  }
}
