/** Shipment events and records: the completeness check applied to every
    inbound event, the ETA text, the text of a list row, the stream messages
    the ingest loop receives and the notifications it emits. */
module Shipments {

  /** A decoded event, and a stored record: field name to field value. */
  type Event = map<string, string>

  const ShipmentId := "shipment_id"
  const Status := "status"
  const Location := "location"
  const Timestamp := "timestamp"
  const Latitude := "latitude"
  const Longitude := "longitude"

  /** The fields every valid event carries. */
  const RequiredFields: set<string> := {ShipmentId, Status, Location, Timestamp}

  /** The status filter value that selects every record. */
  const AllStatuses := "All"

  const UnknownEta := "Unknown ETA"

  /** An event is valid when the required fields are a subset of its keys;
      only presence is checked, and extra keys are allowed. */
  function IsValidShipment(e: Event): (valid: bool)
    ensures valid <==> (ShipmentId in e && Status in e && Location in e && Timestamp in e)
  {
    RequiredFields <= e.Keys
  }

  /** Keys outside the required four never change validity, whether added,
      overwritten or removed. */
  lemma ValidityIgnoresOptionalKeys(e: Event, k: string, v: string)
    requires k !in RequiredFields
    ensures IsValidShipment(e[k := v]) == IsValidShipment(e)
    ensures IsValidShipment(e - {k}) == IsValidShipment(e)
  {
  }

  /** Removing any required key makes an event invalid. */
  lemma MissingRequiredKeyInvalid(e: Event, k: string)
    requires k in RequiredFields
    ensures !IsValidShipment(e - {k})
  {
  }

  /** The travel time for a position given as (latitude, longitude) text:
      the geodesic distance to the fixed destination divided by the nominal
      speed, printed with one decimal. It is floating-point work in a foreign
      library, so the model takes it as a parameter. */
  type EtaHours = (string, string) -> string

  /** The ETA text of a record: the travel time followed by " hours" when
      both coordinates are present, and "Unknown ETA" otherwise. */
  function CalculateEta(e: Event, hours: EtaHours): (eta: string)
    ensures eta == UnknownEta <==> (Latitude !in e || Longitude !in e)
    ensures Latitude in e && Longitude in e ==>
              |eta| >= 6 && eta[|eta| - 6..] == " hours" &&
              eta[..|eta| - 6] == hours(e[Latitude], e[Longitude])
  {
    if Latitude in e && Longitude in e then
      var eta := hours(e[Latitude], e[Longitude]) + " hours";
      assert eta[|eta| - 6..] == " hours";
      assert UnknownEta[|UnknownEta| - 1] == 'A';
      eta
    else
      UnknownEta
  }

  /** `parts` separated by `sep`. */
  function Join(sep: string, parts: seq<string>): string
  {
    if |parts| == 0 then ""
    else if |parts| == 1 then parts[0]
    else parts[0] + sep + Join(sep, parts[1..])
  }

  const ColumnSeparator := " | "


  /** The five column values of a record's list row, in display order. */
  function Columns(e: Event, hours: EtaHours): seq<string>
    requires IsValidShipment(e)
  {
    [e[ShipmentId], e[Status], e[Location], e[Timestamp], CalculateEta(e, hours)]
  }

  /** The column titles of the header label. */
  const Titles: seq<string> := ["Shipment ID", "Status", "Location", "Timestamp", "ETA"]

  /** The bold first label of the list, "Shipment ID | Status | Location |
      Timestamp | ETA". */
  const Header := "Shipment ID" + ColumnSeparator + "Status" + ColumnSeparator + "Location" +
                  ColumnSeparator + "Timestamp" + ColumnSeparator + "ETA"

  /** The label of one list row: its five columns separated by " | ". */
  function Row(e: Event, hours: EtaHours): (r: string)
    requires IsValidShipment(e)
    ensures r == Join(ColumnSeparator, Columns(e, hours))
  {
    JoinFive(ColumnSeparator, Columns(e, hours));
    e[ShipmentId] + " | " + e[Status] + " | " + e[Location] + " | " + e[Timestamp] + " | " + CalculateEta(e, hours)
  }

  lemma JoinStep(sep: string, a: string, rest: seq<string>)
    requires |rest| > 0
    ensures Join(sep, [a] + rest) == a + sep + Join(sep, rest)
  {
    assert ([a] + rest)[1..] == rest;
  }

  /** Five parts joined: the parts with the separator between each pair. */
  lemma {:induction false} JoinFive(sep: string, p: seq<string>)
    requires |p| == 5
    ensures Join(sep, p) == p[0] + sep + p[1] + sep + p[2] + sep + p[3] + sep + p[4]
  {
    assert p[3..] == [p[3]] + [p[4]];
    JoinStep(sep, p[3], [p[4]]);
    assert p[2..] == [p[2]] + p[3..];
    JoinStep(sep, p[2], p[3..]);
    assert p[1..] == [p[1]] + p[2..];
    JoinStep(sep, p[1], p[2..]);
    assert p == [p[0]] + p[1..];
    JoinStep(sep, p[0], p[1..]);
  }

  /** The header is the five column titles separated like a row. */
  lemma HeaderJoinsTitles()
    ensures Header == Join(ColumnSeparator, Titles)
  {
    JoinFive(ColumnSeparator, Titles);
  }

  /** A row holds exactly the five fields id, status, location, timestamp and
      ETA, in that order, one under each of the header's five column titles and
      separated like them. */
  lemma RowColumns(e: Event, hours: EtaHours)
    requires IsValidShipment(e)
    ensures Row(e, hours) == Join(ColumnSeparator, Columns(e, hours))
    ensures Header == Join(ColumnSeparator, Titles)
    ensures |Columns(e, hours)| == |Titles|
  {
    HeaderJoinsTitles();
  }

  /** What the stream source hands the ingest loop: the next decoded event,
      or a failure of the stream itself (the broker iterator raising). `at` is
      the arrival time on the logical clock, in milliseconds. */
  datatype Body = Record(event: Event) | Broken(reason: string)
  datatype Message = Message(at: int, body: Body)

  /** Notification severity. Success notices pass no type. */
  datatype Level = Plain | Error

  /** A notification sent to the user. */
  datatype Notice =
    | Updated(id: string, status: string, location: string)
    | Rejected(event: Event)
    | ConsumeFailed(reason: string)
  {
    function Level(): Level
    {
      if Updated? then Plain else Error
    }
  }

  /** The notice for an event that reached validation. */
  function Report(e: Event): (n: Notice)
    ensures n.Updated? <==> IsValidShipment(e)
    ensures n.Updated? ==> n.id == e[ShipmentId] && n.status == e[Status] && n.location == e[Location]
    ensures n.Rejected? ==> n.event == e && n.Level() == Error
  {
    if IsValidShipment(e) then Updated(e[ShipmentId], e[Status], e[Location]) else Rejected(e)
  }

  /** The reports for a run of events, one per event, in order. */
  function Reports(events: seq<Event>): (ns: seq<Notice>)
    ensures |ns| == |events|
    ensures forall i :: 0 <= i < |events| ==> ns[i] == Report(events[i])
  {
    seq(|events|, i requires 0 <= i < |events| => Report(events[i]))
  }
}
