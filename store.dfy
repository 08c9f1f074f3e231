/** The shipment store: the latest record per shipment id, kept as a Python
    dict keeps it, so that its values come out in first-insertion order. */
module Store {
  import opened Shipments

  datatype Option<T> = None | Some(value: T)

  /** The value of the store: ids in first-insertion order and the record of
      each id. */
  datatype Snapshot = Snapshot(ids: seq<string>, records: map<string, Event>)

  /** The store's invariant, stated outright: each id is listed once, the
      listed ids are the keys, and every record was valid when written and is
      filed under its own shipment id. */
  predicate Indexed(s: Snapshot)
  {
    && (forall i, j :: 0 <= i < j < |s.ids| ==> s.ids[i] != s.ids[j])
    && (forall k :: k in s.records ==> k in s.ids)
    && (forall k :: k in s.ids ==> k in s.records)
    && (forall k :: k in s.records ==> IsValidShipment(s.records[k]) && s.records[k][ShipmentId] == k)
  }

  /** The store without its newest id. */
  function Older(s: Snapshot): Snapshot
    requires s.ids != []
  {
    Snapshot(s.ids[..|s.ids| - 1], s.records - {s.ids[|s.ids| - 1]})
  }

  /** The same invariant, built the way the dict was: the newest id is a key
      holding a valid record filed under it, and without it the rest is
      again such a store. */
  predicate WellFormed(s: Snapshot)
    decreases |s.ids|
  {
    if s.ids == [] then s.records == map[]
    else
      var k := s.ids[|s.ids| - 1];
      && k in s.records && IsValidShipment(s.records[k]) && s.records[k][ShipmentId] == k
      && WellFormed(Older(s))
  }

  /** In a well-formed store the listed ids are exactly the keys, and each
      record is valid and filed under its own id. */
  lemma {:induction false} WellFormedKeys(s: Snapshot)
    requires WellFormed(s)
    ensures forall k :: k in s.records <==> k in s.ids
    ensures forall k :: k in s.records ==> IsValidShipment(s.records[k]) && s.records[k][ShipmentId] == k
    decreases |s.ids|
  {
    if s.ids != [] {
      var k, rest := s.ids[|s.ids| - 1], Older(s);
      WellFormedKeys(rest);
      assert s.ids == rest.ids + [k];
    }
  }

  /** A well-formed store lists each id once. */
  lemma {:induction false} WellFormedDistinct(s: Snapshot)
    requires WellFormed(s)
    ensures forall i, j :: 0 <= i < j < |s.ids| ==> s.ids[i] != s.ids[j]
    decreases |s.ids|
  {
    if s.ids != [] {
      var k, rest := s.ids[|s.ids| - 1], Older(s);
      WellFormedDistinct(rest);
      WellFormedKeys(rest);
      assert s.ids == rest.ids + [k];
      AppendDistinct(rest.ids, k);
    }
  }

  lemma WellFormedIsIndexed(s: Snapshot)
    requires WellFormed(s)
    ensures Indexed(s)
  {
    WellFormedKeys(s);
    WellFormedDistinct(s);
  }

  /** Appending a new id to distinct ids keeps them distinct. */
  lemma AppendDistinct(ids: seq<string>, k: string)
    requires forall i, j :: 0 <= i < j < |ids| ==> ids[i] != ids[j]
    requires k !in ids
    ensures forall i, j :: 0 <= i < j < |ids + [k]| ==> (ids + [k])[i] != (ids + [k])[j]
  {
    forall i, j | 0 <= i < j < |ids + [k]| ensures (ids + [k])[i] != (ids + [k])[j] {
      if j < |ids| { assert (ids + [k])[i] == ids[i] && (ids + [k])[j] == ids[j]; }
      else { assert (ids + [k])[i] in ids; }
    }
  }

  lemma {:induction false} IndexedIsWellFormed(s: Snapshot)
    requires Indexed(s)
    ensures WellFormed(s)
    decreases |s.ids|
  {
    if s.ids == [] {
      assert s.records == map[];
    } else {
      var n, k, rest := |s.ids|, s.ids[|s.ids| - 1], Older(s);
      assert s.ids == rest.ids + [k];
      assert forall i :: 0 <= i < n - 1 ==> rest.ids[i] == s.ids[i] && s.ids[i] != k;
      assert k !in rest.ids;
      IndexedIsWellFormed(rest);
    }
  }

  /** The two statements of the invariant agree. */
  lemma WellFormedIndexed(s: Snapshot)
    ensures WellFormed(s) <==> Indexed(s)
  {
    if WellFormed(s) { WellFormedIsIndexed(s); }
    if Indexed(s) { IndexedIsWellFormed(s); }
  }

  const Empty := Snapshot([], map[])

  /** `shipments[event["shipment_id"]] = event`: insert, or replace in full
      keeping the id's original position. */
  function Put(s: Snapshot, e: Event): (r: Snapshot)
    requires ShipmentId in e
    ensures r.records == s.records[e[ShipmentId] := e]
    ensures e[ShipmentId] in s.records ==> r.ids == s.ids && |r.records| == |s.records|
    ensures e[ShipmentId] !in s.records ==> r.ids == s.ids + [e[ShipmentId]] && |r.records| == |s.records| + 1
  {
    var id := e[ShipmentId];
    if id in s.records then Snapshot(s.ids, s.records[id := e])
    else Snapshot(s.ids + [id], s.records[id := e])
  }

  /** Upserting a valid event keeps the store's invariant. */
  lemma {:induction false} PutWellFormed(s: Snapshot, e: Event)
    requires WellFormed(s) && IsValidShipment(e)
    ensures WellFormed(Put(s, e))
    decreases |s.ids|
  {
    var id, r := e[ShipmentId], Put(s, e);
    if id !in s.records {
      assert r.ids[..|r.ids| - 1] == s.ids;
      assert r.records - {id} == s.records;
    } else {
      var k := s.ids[|s.ids| - 1];
      assert r.ids == s.ids;
      if id == k {
        assert r.records - {k} == s.records - {k};
      } else {
        PutWellFormed(Older(s), e);
        assert r.records - {k} == (s.records - {k})[id := e];
        assert Older(r) == Put(Older(s), e);
      }
    }
  }

  /** The records in iteration order (`shipments.values()`). */
  function Values(s: Snapshot): (vs: seq<Event>)
    requires WellFormed(s)
    ensures |vs| == |s.ids|
    ensures forall i :: 0 <= i < |vs| ==>
              s.ids[i] in s.records && vs[i] == s.records[s.ids[i]] && IsValidShipment(vs[i])
  {
    WellFormedIsIndexed(s);
    seq(|s.ids|, i requires 0 <= i < |s.ids| => s.records[s.ids[i]])
  }

  /** Every stored record appears among the values exactly once. */
  lemma {:induction false} ValuesListEachRecordOnce(s: Snapshot, k: string)
    requires WellFormed(s) && k in s.records
    ensures exists i :: 0 <= i < |Values(s)| && Values(s)[i] == s.records[k]
    ensures forall i, j ::
              (0 <= i < |Values(s)| && 0 <= j < |Values(s)| &&
               Values(s)[i] == s.records[k] && Values(s)[j] == s.records[k]) ==> i == j
    ensures |Values(s)| == |s.records|
  {
    WellFormedIsIndexed(s);
    var vs := Values(s);
    var i :| 0 <= i < |s.ids| && s.ids[i] == k;
    assert vs[i] == s.records[k];
    forall a, b | 0 <= a < |vs| && 0 <= b < |vs| && vs[a] == s.records[k] && vs[b] == s.records[k]
      ensures a == b
    {
      assert vs[a][ShipmentId] == s.ids[a] && vs[b][ShipmentId] == s.ids[b];
    }
    IdsAreKeys(s);
  }

  lemma {:induction false} IdsAreKeys(s: Snapshot)
    requires WellFormed(s)
    ensures |s.ids| == |s.records|
  {
    WellFormedIsIndexed(s);
    DistinctCard(s.ids);
    assert s.records.Keys == set k | k in s.ids;
  }

  lemma {:induction false} DistinctCard(ids: seq<string>)
    requires forall i, j :: 0 <= i < j < |ids| ==> ids[i] != ids[j]
    ensures |set k | k in ids| == |ids|
  {
    if ids != [] {
      var init := ids[..|ids| - 1];
      DistinctCard(init);
      assert (set k | k in ids) == (set k | k in init) + {ids[|ids| - 1]};
      assert ids[|ids| - 1] !in init;
    }
  }

  /** The store after the ingest loop has handled `events`: invalid events
      are skipped, valid ones upserted in arrival order. */
  function Ingest(s: Snapshot, events: seq<Event>): (r: Snapshot)
    ensures s.ids <= r.ids && |r.ids| <= |s.ids| + |events|
    ensures s.records.Keys <= r.records.Keys
    ensures forall i :: 0 <= i < |events| && IsValidShipment(events[i]) ==> events[i][ShipmentId] in r.records
  {
    if events == [] then s
    else
      var before := Ingest(s, events[..|events| - 1]);
      var e := events[|events| - 1];
      if IsValidShipment(e) then Put(before, e) else before
  }

  /** Ingesting keeps the store's invariant. */
  lemma {:induction false} IngestWellFormed(s: Snapshot, events: seq<Event>)
    requires WellFormed(s)
    ensures WellFormed(Ingest(s, events))
  {
    if events != [] {
      IngestWellFormed(s, events[..|events| - 1]);
      if IsValidShipment(events[|events| - 1]) {
        PutWellFormed(Ingest(s, events[..|events| - 1]), events[|events| - 1]);
      }
    }
  }

  /** `e` is a valid event for the shipment `id`. */
  predicate ValidFor(e: Event, id: string)
  {
    IsValidShipment(e) && e[ShipmentId] == id
  }

  /** The last valid event for `id` among `events`, if any: an independent
      reference for what the store must hold. It is absent exactly when no
      valid event carries the id, and otherwise it is a valid event for the
      id that no later valid event for the id follows. */
  function LastValid(events: seq<Event>, id: string): (r: Option<Event>)
    ensures r.None? <==> forall i :: 0 <= i < |events| ==> !ValidFor(events[i], id)
    ensures r.Some? ==> exists i :: 0 <= i < |events| && events[i] == r.value && ValidFor(r.value, id) &&
                          forall j :: i < j < |events| ==> !ValidFor(events[j], id)
  {
    if events == [] then None
    else
      var e := events[|events| - 1];
      if ValidFor(e, id) then Some(e)
      else LastValid(events[..|events| - 1], id)
  }

  /** Last write wins: after ingesting `events`, an id is stored iff it was
      stored before or some valid event carries it, and its record is the last
      valid event for it, or the record it had if no valid event names it. */
  lemma {:induction false} IngestLastWriteWins(s: Snapshot, events: seq<Event>, id: string)
    ensures id in Ingest(s, events).records <==> (id in s.records || LastValid(events, id).Some?)
    ensures LastValid(events, id).Some? ==> Ingest(s, events).records[id] == LastValid(events, id).value
    ensures LastValid(events, id).None? && id in s.records ==> Ingest(s, events).records[id] == s.records[id]
  {
    if events != [] {
      IngestLastWriteWins(s, events[..|events| - 1], id);
    }
  }

  /** An event that fails validation leaves the store exactly as it was. */
  lemma InvalidEventIgnored(s: Snapshot, events: seq<Event>, e: Event)
    requires !IsValidShipment(e)
    ensures Ingest(s, events + [e]) == Ingest(s, events)
  {
    assert (events + [e])[..|events|] == events;
  }

  /** Upserting the same id twice leaves one entry, equal to the second
      event, and no other id changes. */
  lemma RepeatedIdKeepsLatest(s: Snapshot, e1: Event, e2: Event)
    requires IsValidShipment(e1) && IsValidShipment(e2)
    requires e1[ShipmentId] == e2[ShipmentId]
    ensures Ingest(s, [e1, e2]).records == s.records[e2[ShipmentId] := e2]
    ensures |Ingest(s, [e1, e2]).ids| == |s.ids| + (if e1[ShipmentId] in s.records then 0 else 1)
  {
    assert [e1, e2][..1] == [e1];
    assert [e1][..0] == [];
    assert Ingest(s, [e1]) == Put(s, e1);
    assert Ingest(s, [e1, e2]) == Put(Put(s, e1), e2);
    assert s.records[e1[ShipmentId] := e1][e2[ShipmentId] := e2] == s.records[e2[ShipmentId] := e2];
  }

  /** The mutable dict behind the dashboard. */
  class ShipmentStore {
    var ids: seq<string>
    var records: map<string, Event>

    function View(): Snapshot
      reads this
    {
      Snapshot(ids, records)
    }

    ghost predicate Valid()
      reads this
    {
      WellFormed(View())
    }

    constructor ()
      ensures Valid() && View() == Empty
    {
      ids, records := [], map[];
    }

    /** Upsert a validated event under its own shipment id. */
    method Upsert(e: Event)
      requires Valid() && IsValidShipment(e)
      modifies this
      ensures Valid()
      ensures View() == Put(old(View()), e)
    {
      var id := e[ShipmentId];
      if id !in records {
        ids := ids + [id];
      }
      records := records[id := e];
      PutWellFormed(old(View()), e);
    }
  }
}
