/** The projections the dashboard renders: the status-filtered list, the
    search by shipment id, and the map's point set, with the table widget the
    list is written into. */
module Views {
  import opened Shipments
  import opened Store

  predicate AllValid(recs: seq<Event>)
  {
    forall i :: 0 <= i < |recs| ==> IsValidShipment(recs[i])
  }

  /** The list's inclusion test: the filter is "All", or equals the record's
      status. */
  predicate Shows(selectedStatus: string, e: Event): (b: bool)
    ensures IsValidShipment(e) && (selectedStatus == AllStatuses || e[Status] == selectedStatus) ==> b
    ensures b && selectedStatus != AllStatuses ==> Status in e && e[Status] == selectedStatus
  {
    Status in e && (selectedStatus == AllStatuses || e[Status] == selectedStatus)
  }

  /** The records the list and the map show, in iteration order. */
  function Selected(recs: seq<Event>, selectedStatus: string): (sel: seq<Event>)
    requires AllValid(recs)
    ensures AllValid(sel) && |sel| <= |recs|
    ensures forall e :: e in sel <==> (e in recs && Shows(selectedStatus, e))
    ensures selectedStatus == AllStatuses ==> sel == recs
  {
    if recs == [] then []
    else
      var init := Selected(recs[..|recs| - 1], selectedStatus);
      var e := recs[|recs| - 1];
      assert recs == recs[..|recs| - 1] + [e];
      if Shows(selectedStatus, e) then init + [e] else init
  }

  /** One row label per record, in order. */
  function Rows(recs: seq<Event>, hours: EtaHours): (rows: seq<string>)
    requires AllValid(recs)
    ensures |rows| == |recs|
    ensures forall i :: 0 <= i < |recs| ==> rows[i] == Row(recs[i], hours)
  {
    seq(|recs|, i requires 0 <= i < |recs| => Row(recs[i], hours))
  }

  lemma RowsAppend(recs: seq<Event>, e: Event, hours: EtaHours)
    requires AllValid(recs) && IsValidShipment(e)
    ensures AllValid(recs + [e])
    ensures Rows(recs + [e], hours) == Rows(recs, hours) + [Row(e, hours)]
  {
    assert AllValid(recs + [e]) by {
      forall i | 0 <= i < |recs + [e]| ensures IsValidShipment((recs + [e])[i]) {
        if i < |recs| { assert (recs + [e])[i] == recs[i]; }
      }
    }
  }

  /** How the shown rows grow as the list loop passes one more record. */
  lemma SelectedStep(recs: seq<Event>, i: nat, selectedStatus: string, hours: EtaHours)
    requires AllValid(recs) && i < |recs|
    ensures AllValid(recs[..i]) && AllValid(recs[..i + 1])
    ensures Rows(Selected(recs[..i + 1], selectedStatus), hours) ==
            Rows(Selected(recs[..i], selectedStatus), hours) +
            (if Shows(selectedStatus, recs[i]) then [Row(recs[i], hours)] else [])
  {
    var pre, pre1 := recs[..i], recs[..i + 1];
    assert AllValid(pre) by {
      forall j | 0 <= j < |pre| ensures IsValidShipment(pre[j]) { assert pre[j] == recs[j]; }
    }
    assert AllValid(pre1) by {
      forall j | 0 <= j < |pre1| ensures IsValidShipment(pre1[j]) { assert pre1[j] == recs[j]; }
    }
    assert pre1[..|pre1| - 1] == pre && pre1[|pre1| - 1] == recs[i];
    var sel := Selected(pre, selectedStatus);
    assert Selected(pre1, selectedStatus) == if Shows(selectedStatus, recs[i]) then sel + [recs[i]] else sel;
    if Shows(selectedStatus, recs[i]) {
      RowsAppend(sel, recs[i], hours);
    }
  }

  /** The labels of the list: the header, then one row per shown record. */
  function ListLabels(recs: seq<Event>, selectedStatus: string, hours: EtaHours): (labels: seq<string>)
    requires AllValid(recs)
    ensures |labels| == |Selected(recs, selectedStatus)| + 1 && labels[0] == Header
  {
    [Header] + Rows(Selected(recs, selectedStatus), hours)
  }

  /** With the filter at "All" the list shows every record of the store once,
      in iteration order, after the header. */
  lemma {:induction false} AllListsEveryRecord(s: Snapshot, hours: EtaHours)
    requires WellFormed(s)
    ensures AllValid(Values(s))
    ensures ListLabels(Values(s), AllStatuses, hours) == [Header] + Rows(Values(s), hours)
    ensures |ListLabels(Values(s), AllStatuses, hours)| == |s.records| + 1
  {
    IdsAreKeys(s);
  }

  /** `q` occurs in `s` starting at `i`. */
  ghost predicate OccursAt(q: string, s: string, i: int)
  {
    0 <= i && i + |q| <= |s| && s[i..i + |q|] == q
  }

  /** Python's `q in s` on strings. */
  function Contains(s: string, q: string): (found: bool)
    ensures |q| == 0 ==> found
    ensures found ==> |q| <= |s|
    decreases |s|
  {
    if |q| > |s| then false
    else if s[..|q|] == q then true
    else Contains(s[1..], q)
  }

  /** `Contains` finds exactly the substrings. */
  lemma {:induction false} ContainsIff(s: string, q: string)
    ensures Contains(s, q) <==> exists i :: OccursAt(q, s, i)
    decreases |s|
  {
    if |q| > |s| {
    } else if s[..|q|] == q {
      assert OccursAt(q, s, 0);
    } else {
      ContainsIff(s[1..], q);
      if Contains(s[1..], q) {
        var i :| OccursAt(q, s[1..], i);
        assert s[1..][i..i + |q|] == s[i + 1..i + 1 + |q|];
        assert OccursAt(q, s, i + 1);
      } else {
        forall i | OccursAt(q, s, i) ensures false {
          assert i != 0;
          assert s[1..][i - 1..i - 1 + |q|] == s[i..i + |q|];
          assert OccursAt(q, s[1..], i - 1);
        }
      }
    }
  }

  /** The ids, in order, that contain `q`. */
  function SearchIds(ids: seq<string>, q: string): (found: seq<string>)
    ensures forall k :: k in found <==> (k in ids && Contains(k, q))
    ensures forall i :: 0 <= i < |found| ==> found[i] in ids
    ensures |found| <= |ids|
  {
    if ids == [] then []
    else
      var init := SearchIds(ids[..|ids| - 1], q);
      var k := ids[|ids| - 1];
      assert ids == ids[..|ids| - 1] + [k];
      if Contains(k, q) then init + [k] else init
  }

  /** The search keeps the order of the ids: the matches among a run of ids
      are the matches of its first part followed by those of the rest. */
  lemma {:induction false} SearchIdsAppend(a: seq<string>, b: seq<string>, q: string)
    ensures SearchIds(a + b, q) == SearchIds(a, q) + SearchIds(b, q)
    decreases |b|
  {
    if b == [] {
      assert a + b == a;
    } else {
      var init := b[..|b| - 1];
      SearchIdsAppend(a, init, q);
      assert (a + b)[..|a + b| - 1] == a + init;
    }
  }

  /** `filter_shipments`' comprehension: the records, in iteration order,
      whose id contains `q`; the status filter plays no part. */
  function SearchResults(s: Snapshot, q: string): (found: seq<Event>)
    requires WellFormed(s)
    ensures AllValid(found) && |found| <= |s.ids|
    ensures forall i :: 0 <= i < |found| ==> found[i] in s.records.Values && Contains(found[i][ShipmentId], q)
  {
    WellFormedIsIndexed(s);
    var ks := SearchIds(s.ids, q);
    seq(|ks|, i requires 0 <= i < |ks| => s.records[ks[i]])
  }

  /** A stored record is a search result iff its id contains the query, and
      the empty query finds every record. */
  lemma {:induction false} SearchKeepsExactlyMatches(s: Snapshot, q: string, k: string)
    requires WellFormed(s) && k in s.records
    ensures s.records[k] in SearchResults(s, q) <==> exists i :: OccursAt(q, k, i)
    ensures q == "" ==> s.records[k] in SearchResults(s, q)
  {
    WellFormedIsIndexed(s);
    var ks := SearchIds(s.ids, q);
    var found := SearchResults(s, q);
    ContainsIff(k, q);
    if Contains(k, q) {
      var i :| 0 <= i < |ks| && ks[i] == k;
      assert found[i] == s.records[k];
    } else {
      forall i | 0 <= i < |found| ensures found[i] != s.records[k] {
        assert found[i] == s.records[ks[i]];
        assert s.records[ks[i]][ShipmentId] == ks[i];
      }
    }
  }

  /** A record has a position when it carries both coordinates. */
  predicate HasPosition(e: Event)
  {
    Latitude in e && Longitude in e
  }

  /** The three lists `update_shipment_map` hands the plot: longitudes of the
      records that have one, latitudes of the records that have one, and the
      ids of all. Coordinates stay text; their conversion to float is not
      modelled. */
  datatype Trace = Trace(lon: seq<string>, lat: seq<string>, text: seq<string>)

  /** The `key` values of the records that have that key, in order. */
  function Present(recs: seq<Event>, key: string): (vs: seq<string>)
    ensures |vs| <= |recs|
    ensures |vs| == |recs| <==> forall i :: 0 <= i < |recs| ==> key in recs[i]
    ensures forall v :: v in vs <==> exists e :: e in recs && key in e && e[key] == v
    ensures (forall i :: 0 <= i < |recs| ==> key in recs[i]) ==>
              forall i :: 0 <= i < |recs| ==> vs[i] == recs[i][key]
  {
    if recs == [] then []
    else
      var e := recs[|recs| - 1];
      var init := Present(recs[..|recs| - 1], key);
      assert recs == recs[..|recs| - 1] + [e];
      if key in e then init + [e[key]] else init
  }

  /** The values of a run of records are those of its first part followed by
      those of the rest: each list keeps the order of the records, and a record
      without the key contributes nothing at its place. */
  lemma {:induction false} PresentAppend(a: seq<Event>, b: seq<Event>, key: string)
    ensures Present(a + b, key) == Present(a, key) + Present(b, key)
    decreases |b|
  {
    if b == [] {
      assert a + b == a;
    } else {
      var init := b[..|b| - 1];
      PresentAppend(a, init, key);
      assert (a + b)[..|a + b| - 1] == a + init;
    }
  }

  function Ids(recs: seq<Event>): (ids: seq<string>)
    requires AllValid(recs)
    ensures |ids| == |recs|
    ensures forall i :: 0 <= i < |recs| ==> ids[i] == recs[i][ShipmentId]
  {
    seq(|recs|, i requires 0 <= i < |recs| => recs[i][ShipmentId])
  }

  /** The map trace as main.py builds it: one text per shown record, its
      id, but a longitude or a latitude only for the records that have one,
      so the three lists have one length exactly when every shown record has
      both coordinates. */
  function MapTraceAsWritten(sel: seq<Event>): (t: Trace)
    requires AllValid(sel)
    ensures |t.text| == |sel| && forall i :: 0 <= i < |sel| ==> t.text[i] == sel[i][ShipmentId]
    ensures |t.lon| <= |t.text| && |t.lat| <= |t.text|
    ensures |t.lon| == |t.lat| == |t.text| <==> forall i :: 0 <= i < |sel| ==> HasPosition(sel[i])
  {
    Trace(Present(sel, Longitude), Present(sel, Latitude), Ids(sel))
  }

  /** One plotted marker. */
  datatype Point = Point(lon: string, lat: string, text: string)

  function PointOf(e: Event): Point
    requires IsValidShipment(e) && HasPosition(e)
  {
    Point(e[Longitude], e[Latitude], e[ShipmentId])
  }

  /** The map's markers: one per shown record that has both coordinates,
      labelled with that record's own id, in order. */
  function MapPoints(sel: seq<Event>): (pts: seq<Point>)
    requires AllValid(sel)
    ensures |pts| <= |sel|
    ensures forall p :: p in pts <==> exists e :: e in sel && IsValidShipment(e) && HasPosition(e) && p == PointOf(e)
  {
    if sel == [] then []
    else
      var e := sel[|sel| - 1];
      var init := MapPoints(sel[..|sel| - 1]);
      assert sel == sel[..|sel| - 1] + [e];
      if HasPosition(e) then init + [PointOf(e)] else init
  }

  /** When every shown record has both coordinates, the as-written trace
      lines up: its three lists have one entry per record, and zipped they
      are exactly the markers. */
  lemma {:induction false} TraceAlignedWhenComplete(sel: seq<Event>)
    requires AllValid(sel)
    requires forall i :: 0 <= i < |sel| ==> HasPosition(sel[i])
    ensures var t := MapTraceAsWritten(sel);
      && |t.lon| == |t.lat| == |t.text| == |sel| == |MapPoints(sel)|
      && forall i :: 0 <= i < |sel| ==> MapPoints(sel)[i] == Point(t.lon[i], t.lat[i], t.text[i])
  {
    if sel != [] {
      var init := sel[..|sel| - 1];
      TraceAlignedWhenComplete(init);
      assert MapPoints(sel) == MapPoints(init) + [PointOf(sel[|sel| - 1])];
    }
  }

  /** With one shown record lacking coordinates, the as-written trace
      misaligns: its one plotted point is the second shipment's position but
      takes the first shipment's id as its label, while the markers label it
      with its own id. */
  lemma TraceMisalignsLabels()
    ensures var a := map[ShipmentId := "1", Status := "In Transit", Location := "NY", Timestamp := "t1"];
      var b := map[ShipmentId := "2", Status := "Delivered", Location := "CA", Timestamp := "t2",
                   Latitude := "34.05", Longitude := "-118.24"];
      var t := MapTraceAsWritten([a, b]);
      && t.lon == ["-118.24"] && t.lat == ["34.05"] && t.text == ["1", "2"]
      && MapPoints([a, b]) == [Point("-118.24", "34.05", "2")]
  {
    var a := map[ShipmentId := "1", Status := "In Transit", Location := "NY", Timestamp := "t1"];
    var b := map[ShipmentId := "2", Status := "Delivered", Location := "CA", Timestamp := "t2",
                 Latitude := "34.05", Longitude := "-118.24"];
    assert [a, b][..1] == [a] && [a][..0] == [];
    assert Longitude !in a && Latitude !in a && HasPosition(b);
    assert Present([a], Longitude) == [] && Present([a], Latitude) == [];
    assert Present([a, b], Longitude) == ["-118.24"];
    assert Present([a, b], Latitude) == ["34.05"];
    assert Ids([a, b]) == ["1", "2"];
    assert MapPoints([a]) == [];
    assert MapPoints([a, b]) == [PointOf(b)];
  }

  /** The list widget: the labels it holds and how often it was cleared. */
  class Table {
    var labels: seq<string>
    var clears: nat

    constructor ()
      ensures labels == [] && clears == 0
    {
      labels, clears := [], 0;
    }

    /** `shipment_table.clear()` */
    method Clear()
      modifies this
      ensures labels == [] && clears == old(clears) + 1
    {
      labels, clears := [], clears + 1;
    }

    /** `ui.label(text)` inside the table */
    method Label(text: string)
      modifies this
      ensures labels == old(labels) + [text] && clears == old(clears)
    {
      labels := labels + [text];
    }
  }

  /** `update_shipment_list`: clear the table once, write the header, then a
      row for each record the status filter shows, in iteration order. */
  method UpdateShipmentList(table: Table, recs: seq<Event>, selectedStatus: string, hours: EtaHours)
    requires AllValid(recs)
    modifies table
    ensures table.labels == ListLabels(recs, selectedStatus, hours)
    ensures table.clears == old(table.clears) + 1
  {
    table.Clear();
    table.Label(Header);
    for i := 0 to |recs|
      invariant table.labels == [Header] + Rows(Selected(recs[..i], selectedStatus), hours)
      invariant table.clears == old(table.clears) + 1
    {
      var shipment := recs[i];
      SelectedStep(recs, i, selectedStatus, hours);
      if Shows(selectedStatus, shipment) {
        var eta := CalculateEta(shipment, hours);
        table.Label(shipment[ShipmentId] + " | " + shipment[Status] + " | " + shipment[Location] + " | " +
                    shipment[Timestamp] + " | " + eta);
      }
    }
    assert recs[..|recs|] == recs;
  }

  /** `filter_shipments`' loop: clear the table once, write the header, then
      a row for each search result. */
  method ShowShipments(table: Table, found: seq<Event>, hours: EtaHours)
    requires AllValid(found)
    modifies table
    ensures table.labels == [Header] + Rows(found, hours)
    ensures table.clears == old(table.clears) + 1
  {
    table.Clear();
    table.Label(Header);
    for i := 0 to |found|
      invariant AllValid(found[..i])
      invariant table.labels == [Header] + Rows(found[..i], hours)
      invariant table.clears == old(table.clears) + 1
    {
      var shipment := found[i];
      assert found[..i + 1] == found[..i] + [shipment];
      var eta := CalculateEta(shipment, hours);
      table.Label(shipment[ShipmentId] + " | " + shipment[Status] + " | " + shipment[Location] + " | " +
                  shipment[Timestamp] + " | " + eta);
      RowsAppend(found[..i], shipment, hours);
    }
    assert found[..|found|] == found;
  }
}
