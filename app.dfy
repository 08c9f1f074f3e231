/** main.py's module state — the shipment dict, the selected status, the
    `update_task` slot, the table and the map — and the operations that
    change it, including its ingest loop as written. */
module App {
  import opened Shipments
  import opened Store
  import opened Debounce
  import opened Views

  /** Which view a refresh wrote. */
  datatype Refresh = ListShown | MapShown

  /** `str(KeyError("shipment_id"))`, the text of the notice when main.py's
      loop reads the id of an event that has none. */
  const MissingIdError := "'shipment_id'"

  /** The messages of a batch arrive in time order. */
  predicate Ordered(batch: seq<Message>)
  {
    forall i, j :: 0 <= i < j < |batch| ==> batch[i].at <= batch[j].at
  }

  /** The messages of a batch arrive in time order and no earlier than
      `clock`. */
  predicate Timely(clock: int, batch: seq<Message>)
  {
    && (forall i :: 0 <= i < |batch| ==> clock <= batch[i].at)
    && Ordered(batch)
  }

  /** The events carried by a run of messages, in order; stream failures
      carry none. */
  function EventsOf(ms: seq<Message>): (events: seq<Event>)
    ensures |events| <= |ms|
  {
    if ms == [] then []
    else
      var m := ms[|ms| - 1];
      EventsOf(ms[..|ms| - 1]) + (if m.body.Record? then [m.body.event] else [])
  }

  /** Splitting a run of messages splits its events the same way: they keep
      the messages' order. */
  lemma {:induction false} EventsOfAppend(a: seq<Message>, b: seq<Message>)
    ensures EventsOf(a + b) == EventsOf(a) + EventsOf(b)
    decreases |b|
  {
    if b != [] {
      var b' := b[..|b| - 1];
      var m := b[|b| - 1];
      var tail := if m.body.Record? then [m.body.event] else [];
      assert (a + b)[..|a + b| - 1] == a + b' && (a + b)[|a + b| - 1] == m;
      assert EventsOf(a + b) == EventsOf(a + b') + tail;
      EventsOfAppend(a, b');
      assert EventsOf(b) == EventsOf(b') + tail;
    } else {
      assert a + b == a;
    }
  }

  /** When every message is a record, the events are exactly theirs. */
  lemma {:induction false} RecordsEvents(ms: seq<Message>)
    requires forall i :: 0 <= i < |ms| ==> ms[i].body.Record?
    ensures |EventsOf(ms)| == |ms|
    ensures forall i :: 0 <= i < |ms| ==> EventsOf(ms)[i] == ms[i].body.event
  {
    if ms != [] {
      RecordsEvents(ms[..|ms| - 1]);
    }
  }

  /** The `debounce_update` calls a run of messages causes: one per valid
      event, at its arrival time. */
  function SignalsOf(ms: seq<Message>): seq<Op>
  {
    if ms == [] then []
    else
      var m := ms[|ms| - 1];
      SignalsOf(ms[..|ms| - 1]) +
      (if m.body.Record? && IsValidShipment(m.body.event) then [SignalAt(m.at)] else [])
  }

  /** The ingest loop only signals: whatever the batch, the scheduler steps
      it causes create tasks and fire no refresh, since the event loop never
      gets control between two messages. */
  lemma {:induction false} NoRefreshWhileConsuming(st: State, ms: seq<Message>)
    ensures RunFrom(st, SignalsOf(ms)).fired == st.fired
    ensures RunFrom(st, SignalsOf(ms)).tasks == st.tasks + |SignalsOf(ms)|
    decreases |ms|
  {
    if ms != [] {
      var init := ms[..|ms| - 1];
      var m := ms[|ms| - 1];
      var tail := if m.body.Record? && IsValidShipment(m.body.event) then [SignalAt(m.at)] else [];
      NoRefreshWhileConsuming(st, init);
      RunFromAppend(st, SignalsOf(init), tail);
      assert tail != [] ==> tail[..0] == [];
    }
  }

  /** How the pure views of a prefix grow by one record message. */
  lemma {:induction false} PrefixStep(s0: Snapshot, batch: seq<Message>, i: nat)
    requires i < |batch| && batch[i].body.Record?
    ensures var e := batch[i].body.event;
      && EventsOf(batch[..i + 1]) == EventsOf(batch[..i]) + [e]
      && Ingest(s0, EventsOf(batch[..i + 1])) ==
           (if IsValidShipment(e) then Put(Ingest(s0, EventsOf(batch[..i])), e) else Ingest(s0, EventsOf(batch[..i])))
      && Reports(EventsOf(batch[..i + 1])) == Reports(EventsOf(batch[..i])) + [Report(e)]
      && SignalsOf(batch[..i + 1]) ==
           SignalsOf(batch[..i]) + (if IsValidShipment(e) then [SignalAt(batch[i].at)] else [])
  {
    var e := batch[i].body.event;
    var pre := batch[..i];
    assert batch[..i + 1] == pre + [batch[i]];
    assert (pre + [batch[i]])[..i] == pre;
    var evs := EventsOf(batch[..i + 1]);
    assert evs == EventsOf(pre) + [e];
    assert evs[..|evs| - 1] == EventsOf(pre);
  }

  /** The error notice for a message that ends the loop. */
  function HaltNotice(m: Message): (n: Notice)
    ensures n.ConsumeFailed? && n.Level() == Error
  {
    match m.body
    case Broken(reason) => ConsumeFailed(reason)
    case Record(_) => ConsumeFailed(MissingIdError)
  }

  /** main.py's loop ends at a stream failure, and at an event without a
      shipment id, whose id it reads before validating. */
  predicate HaltsMain(m: Message): (b: bool)
    ensures m.body.Record? && IsValidShipment(m.body.event) ==> !b
  {
    m.body.Broken? || ShipmentId !in m.body.event
  }

  /** The index of the message at which main.py's loop ends: the first that
      halts it, or the batch length. */
  function MainHalt(batch: seq<Message>): (k: nat)
    ensures k <= |batch|
    ensures forall j :: 0 <= j < k ==> !HaltsMain(batch[j])
    ensures k < |batch| ==> HaltsMain(batch[k])
  {
    if batch == [] then 0
    else if HaltsMain(batch[0]) then 0
    else 1 + MainHalt(batch[1..])
  }

  /** An event without a shipment id ends main.py's loop there: nothing of
      the batch from it on reaches the store, however valid, and the one
      notice for it is the KeyError report. */
  lemma {:induction false} MissingIdHaltsBatch(batch: seq<Message>, j: nat)
    requires j < |batch| && batch[j].body.Record? && ShipmentId !in batch[j].body.event
    ensures MainHalt(batch) <= j
    ensures MainHalt(batch) == j ==> HaltNotice(batch[j]) == ConsumeFailed(MissingIdError)
  {
  }

  class Dashboard {
    const store: ShipmentStore
    const scheduler: Debouncer
    const table: Table
    /** The geodesic travel time, in the ETA column. */
    const hours: EtaHours
    var selectedStatus: string
    /** The three lists of the map figure, as main.py builds them. */
    var trace: Trace
    /** The ingest loop is still running: once it ends it is not restarted. */
    var consuming: bool
    var notices: seq<Notice>
    var refreshes: seq<Refresh>

    ghost predicate Valid()
      reads this, store, scheduler
    {
      store.Valid() && scheduler.Valid()
    }

    /** The state at start-up: empty store, filter "All", nothing pending. */
    constructor (hours: EtaHours, now: int)
      ensures Valid() && fresh(store) && fresh(scheduler) && fresh(table)
      ensures store.View() == Empty && scheduler.Current() == Init && scheduler.history == [] && scheduler.clock == now
      ensures selectedStatus == AllStatuses && this.hours == hours
      ensures table.labels == [] && trace == Trace([], [], []) && notices == [] && refreshes == []
      ensures consuming
    {
      store := new ShipmentStore();
      scheduler := new Debouncer(now);
      table := new Table();
      this.hours := hours;
      selectedStatus := AllStatuses;
      trace, notices, refreshes := Trace([], [], []), [], [];
      consuming := true;
    }

    /** `update_shipment_list`: the table shows the header and a row for
        every stored record the status filter shows. */
    method UpdateShipmentList()
      requires Valid()
      modifies table, this`refreshes
      ensures table.labels == ListLabels(Values(store.View()), selectedStatus, hours)
      ensures table.clears == old(table.clears) + 1
      ensures refreshes == old(refreshes) + [ListShown]
    {
      Views.UpdateShipmentList(table, Values(store.View()), selectedStatus, hours);
      refreshes := refreshes + [ListShown];
    }

    /** `update_shipment_map`: the longitude, latitude and id lists of the
        records the status filter shows (search plays no part), each built
        on its own, so the labels line up with the points only when every
        shown record has both coordinates. */
    method UpdateShipmentMap()
      requires Valid()
      modifies this`trace, this`refreshes
      ensures trace == MapTraceAsWritten(Selected(Values(store.View()), selectedStatus))
      ensures refreshes == old(refreshes) + [MapShown]
    {
      trace := MapTraceAsWritten(Selected(Values(store.View()), selectedStatus));
      refreshes := refreshes + [MapShown];
    }

    /** The body of `update_ui` after its sleep: the list, then the map. */
    method UpdateUi()
      requires Valid()
      modifies table, this`trace, this`refreshes
      ensures table.labels == ListLabels(Values(store.View()), selectedStatus, hours)
      ensures table.clears == old(table.clears) + 1
      ensures trace == MapTraceAsWritten(Selected(Values(store.View()), selectedStatus))
      ensures refreshes == old(refreshes) + [ListShown, MapShown]
    {
      UpdateShipmentList();
      UpdateShipmentMap();
    }

    /** `set_status_filter`: replace the filter, then refresh the list and
        the map at once, without the debounce (the two tasks it creates do
        what `update_ui` does after its sleep). */
    method SetStatusFilter(status: string)
      requires Valid()
      modifies this`selectedStatus, table, this`trace, this`refreshes
      ensures selectedStatus == status
      ensures table.labels == ListLabels(Values(store.View()), status, hours)
      ensures table.clears == old(table.clears) + 1
      ensures trace == MapTraceAsWritten(Selected(Values(store.View()), status))
      ensures refreshes == old(refreshes) + [ListShown, MapShown]
    {
      selectedStatus := status;
      UpdateUi();
    }

    /** `filter_shipments`: the table shows the header and a row for every
        record whose id contains `query`, whatever the status filter; the map
        and the filter are left alone. */
    method FilterShipments(query: string)
      requires Valid()
      modifies table, this`refreshes
      ensures table.labels == [Header] + Rows(SearchResults(store.View(), query), hours)
      ensures table.clears == old(table.clears) + 1
      ensures refreshes == old(refreshes) + [ListShown]
    {
      var found := SearchResults(store.View(), query);
      ShowShipments(table, found, hours);
      refreshes := refreshes + [ListShown];
    }

    /** The event loop gets control at `now`: if the pending `update_ui`
        task is due it runs, refreshing the list and then the map. */
    method Tick(now: int) returns (refreshed: bool)
      requires Valid() && scheduler.clock <= now
      modifies scheduler, table, this`trace, this`refreshes
      ensures Valid()
      ensures refreshed <==> Due(old(scheduler.slot), now)
      ensures scheduler.Current() == Step(old(scheduler.Current()), TickAt(now))
      ensures scheduler.history == old(scheduler.history) + [TickAt(now)] && scheduler.clock == now
      ensures refreshed ==> table.labels == ListLabels(Values(store.View()), selectedStatus, hours) &&
                            table.clears == old(table.clears) + 1 &&
                            trace == MapTraceAsWritten(Selected(Values(store.View()), selectedStatus))
      ensures !refreshed ==> table.labels == old(table.labels) && table.clears == old(table.clears) &&
                             trace == old(trace)
      ensures refreshes == old(refreshes) + (if refreshed then [ListShown, MapShown] else [])
    {
      refreshed := scheduler.Tick(now);
      if refreshed {
        UpdateUi();
      }
    }

    /** The handling of a valid event, the same in main.py and consumer.py:
        upsert it, announce it, and call `debounce_update`. */
    method Accept(event: Event, at: int)
      requires Valid() && IsValidShipment(event) && scheduler.clock <= at
      modifies store, scheduler, this`notices
      ensures Valid()
      ensures store.View() == Put(old(store.View()), event)
      ensures notices == old(notices) + [Report(event)]
      ensures scheduler.history == old(scheduler.history) + [SignalAt(at)] && scheduler.clock == at
    {
      var shipmentId := event[ShipmentId];
      store.Upsert(event);
      notices := notices + [Updated(shipmentId, event[Status], event[Location])];
      scheduler.Signal(at);
    }

    /** The rest of the loop body once an event has reached validation: a
        valid event is accepted, any other is reported and skipped. */
    method Handle(event: Event, at: int)
      requires Valid() && scheduler.clock <= at
      modifies store, scheduler, this`notices
      ensures Valid()
      ensures store.View() == if IsValidShipment(event) then Put(old(store.View()), event) else old(store.View())
      ensures notices == old(notices) + [Report(event)]
      ensures scheduler.history == old(scheduler.history) + (if IsValidShipment(event) then [SignalAt(at)] else [])
      ensures scheduler.clock == if IsValidShipment(event) then at else old(scheduler.clock)
    {
      if IsValidShipment(event) {
        Accept(event, at);
      } else {
        notices := notices + [Rejected(event)];
      }
    }

    /** The state after the ingest loop has handled the first `i` messages
        of `batch`, none of which ended it, starting from store `s0`,
        notices `n0` and scheduler history `h0`. */
    ghost predicate Consumed(batch: seq<Message>, i: nat, s0: Snapshot, n0: seq<Notice>, h0: seq<Op>)
      requires i <= |batch|
      reads this, store, scheduler
    {
      && Valid()
      && store.View() == Ingest(s0, EventsOf(batch[..i]))
      && notices == n0 + Reports(EventsOf(batch[..i]))
      && scheduler.history == h0 + SignalsOf(batch[..i])
      && (i < |batch| ==> scheduler.clock <= batch[i].at)
    }

    /** One turn of the loop body for a record message that reached
        validation: it is handled and the loop moves past it. */
    method Advance(batch: seq<Message>, i: nat, ghost s0: Snapshot, ghost n0: seq<Notice>, ghost h0: seq<Op>)
      requires i < |batch| && batch[i].body.Record?
      requires i + 1 < |batch| ==> batch[i].at <= batch[i + 1].at
      requires Consumed(batch, i, s0, n0, h0)
      modifies store, scheduler, this`notices
      ensures Consumed(batch, i + 1, s0, n0, h0) && scheduler.clock <= batch[i].at
    {
      var event, at := batch[i].body.event, batch[i].at;
      PrefixStep(s0, batch, i);
      ghost var valid := IsValidShipment(event);
      ghost var s1 := Ingest(s0, EventsOf(batch[..i + 1]));
      ghost var n1 := n0 + Reports(EventsOf(batch[..i + 1]));
      ghost var h1 := h0 + SignalsOf(batch[..i + 1]);
      assert s1 == if valid then Put(store.View(), event) else store.View();
      assert n1 == notices + [Report(event)];
      assert h1 == scheduler.history + (if valid then [SignalAt(at)] else []);
      Handle(event, at);
    }

    /** The `for message in consumer` loop of main.py up to the first
        message that raises: a stream failure, or an event without a
        shipment id, whose id is read before validation. */
    method HandleUntilRaise(batch: seq<Message>) returns (i: nat)
      requires Valid() && Timely(scheduler.clock, batch)
      modifies store, scheduler, this`notices
      ensures i == MainHalt(batch)
      ensures Consumed(batch, i, old(store.View()), old(notices), old(scheduler.history))
      ensures scheduler.clock <= if batch == [] then old(scheduler.clock) else batch[|batch| - 1].at
    {
      ghost var s0, n0, h0 := store.View(), notices, scheduler.history;
      ghost var k := MainHalt(batch);
      ghost var c0 := scheduler.clock;
      i := 0;
      while i < |batch| && batch[i].body.Record? && ShipmentId in batch[i].body.event
        invariant i <= k && Consumed(batch, i, s0, n0, h0)
        invariant scheduler.clock <= if i == 0 then c0 else batch[i - 1].at
      {
        var event := batch[i].body.event;
        var shipmentId := event[ShipmentId];
        PassesMainHalt(batch, i);
        Advance(batch, i, s0, n0, h0);
        i := i + 1;
      }
      if i < |batch| {
        FirstHaltIsMainHalt(batch, i);
      }
      if 0 < i < |batch| {
        OrderedLast(batch, i - 1);
      }
    }

    /** main.py's `consume_shipment_updates` over the messages that arrive
        before the loop next waits. It reads the shipment id before
        validating, so an event without one raises and ends the loop, as a
        stream failure does; other invalid events are reported and skipped.
        The exception is reported once and the loop is not restarted. */
    method ConsumeShipmentUpdates(batch: seq<Message>) returns (stopped: bool)
      requires Valid() && consuming && Timely(scheduler.clock, batch)
      modifies store, scheduler, this`notices, this`consuming
      ensures Valid() && consuming == !stopped
      ensures scheduler.clock <= if batch == [] then old(scheduler.clock) else batch[|batch| - 1].at
      ensures scheduler.fired == old(scheduler.fired)
      ensures var k := MainHalt(batch);
        && stopped == (k < |batch|)
        && store.View() == Ingest(old(store.View()), EventsOf(batch[..k]))
        && notices == old(notices) + Reports(EventsOf(batch[..k])) +
                      (if stopped then [HaltNotice(batch[k])] else [])
        && scheduler.history == old(scheduler.history) + SignalsOf(batch[..k])
    {
      ghost var before := scheduler.Current();
      var i := HandleUntilRaise(batch);
      RunFromAppend(Init, old(scheduler.history), SignalsOf(batch[..i]));
      NoRefreshWhileConsuming(before, batch[..i]);
      stopped := i < |batch|;
      if stopped {
        notices := notices + [HaltNotice(batch[i])];
        consuming := false;
      }
    }
  }

  /** No message of an ordered batch arrives after its last one. */
  lemma OrderedLast(batch: seq<Message>, i: nat)
    requires Ordered(batch) && i < |batch|
    ensures batch[i].at <= batch[|batch| - 1].at
  {
  }

  /** A message that does not halt main.py's loop, with none before it,
      comes before the point where the loop ends. */
  lemma PassesMainHalt(batch: seq<Message>, i: nat)
    requires i <= MainHalt(batch) && i < |batch| && !HaltsMain(batch[i])
    ensures i < MainHalt(batch)
  {
  }

  /** A halting message with none before it is where main.py's loop ends. */
  lemma FirstHaltIsMainHalt(batch: seq<Message>, i: nat)
    requires i <= MainHalt(batch) && i < |batch| && HaltsMain(batch[i])
    ensures MainHalt(batch) == i
  {
  }
}
