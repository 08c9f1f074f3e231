/** consumer.py's ingest loop: the same bookkeeping as main.py's, except that
    the shipment id is read only after validation, so an event without one is
    rejected like any other invalid event and the loop goes on. Only a failure
    of the stream itself ends it. It works on the same module state as
    main.py: the store, the `update_task` slot and the notifications. */
module Consumer {
  import opened Shipments
  import opened Store
  import opened Debounce
  import opened App

  /** The index of the message at which consumer.py's loop ends: the first
      stream failure, or the batch length. */
  function ConsumerHalt(batch: seq<Message>): (k: nat)
    ensures k <= |batch|
    ensures forall j :: 0 <= j < k ==> batch[j].body.Record?
    ensures k < |batch| ==> batch[k].body.Broken?
  {
    if batch == [] then 0
    else if batch[0].body.Broken? then 0
    else 1 + ConsumerHalt(batch[1..])
  }

  /** main.py's loop never gets further than consumer.py's: every message
      that ends consumer.py's loop ends main.py's too. */
  lemma {:induction false} MainHaltsNoLater(batch: seq<Message>)
    ensures MainHalt(batch) <= ConsumerHalt(batch)
    decreases |batch|
  {
    if batch != [] && !HaltsMain(batch[0]) {
      MainHaltsNoLater(batch[1..]);
    }
  }

  /** When every event carries a shipment id, the two loops stop at the same
      message, so they leave the same store, notices and signals. */
  lemma {:induction false} LoopsAgreeWhenIdsPresent(batch: seq<Message>)
    requires forall j :: 0 <= j < |batch| && batch[j].body.Record? ==> ShipmentId in batch[j].body.event
    ensures MainHalt(batch) == ConsumerHalt(batch)
    decreases |batch|
  {
    if batch != [] && batch[0].body.Record? {
      LoopsAgreeWhenIdsPresent(batch[1..]);
    }
  }

  /** An event without a shipment id that arrives before any stream failure
      does not end consumer.py's loop: it is reported as rejected, the store
      does not change for it, and the loop moves on to the next message. */
  lemma {:induction false} MissingIdRejected(batch: seq<Message>, j: nat)
    requires j < |batch| && batch[j].body.Record? && ShipmentId !in batch[j].body.event
    requires forall i :: 0 <= i < j ==> batch[i].body.Record?
    ensures j < ConsumerHalt(batch)
    ensures Report(batch[j].body.event) == Rejected(batch[j].body.event)
    ensures forall s :: Ingest(s, EventsOf(batch[..j + 1])) == Ingest(s, EventsOf(batch[..j]))
    decreases j
  {
    if j > 0 {
      var rest := batch[1..];
      assert forall i :: 0 <= i < j - 1 ==> rest[i] == batch[i + 1];
      MissingIdRejected(rest, j - 1);
    }
    forall s ensures Ingest(s, EventsOf(batch[..j + 1])) == Ingest(s, EventsOf(batch[..j])) {
      PrefixStep(s, batch, j);
    }
  }

  /** The `for message in consumer` loop of consumer.py up to the first
      stream failure: every message before it is validated and handled. */
  method HandleUntilBroken(d: Dashboard, batch: seq<Message>) returns (i: nat)
    requires d.Valid() && Timely(d.scheduler.clock, batch)
    modifies d.store, d.scheduler, d`notices
    ensures i == ConsumerHalt(batch)
    ensures d.Consumed(batch, i, old(d.store.View()), old(d.notices), old(d.scheduler.history))
    ensures d.scheduler.clock <= if batch == [] then old(d.scheduler.clock) else batch[|batch| - 1].at
  {
    ghost var s0, n0, h0 := d.store.View(), d.notices, d.scheduler.history;
    ghost var k := ConsumerHalt(batch);
    ghost var c0 := d.scheduler.clock;
    i := 0;
    while i < |batch| && batch[i].body.Record?
      invariant i <= k && d.Consumed(batch, i, s0, n0, h0)
      invariant d.scheduler.clock <= if i == 0 then c0 else batch[i - 1].at
    {
      assert i < k;
      d.Advance(batch, i, s0, n0, h0);
      i := i + 1;
    }
    if 0 < i < |batch| {
      OrderedLast(batch, i - 1);
    }
  }

  /** consumer.py's `consume_shipment_updates` over the messages that arrive
      before the loop next waits: every event is validated first; a valid one
      is upserted, announced and signalled, an invalid one reported and
      skipped. A stream failure is reported once and ends the loop, which is
      not restarted. */
  method ConsumeShipmentUpdates(d: Dashboard, batch: seq<Message>) returns (stopped: bool)
    requires d.Valid() && d.consuming && Timely(d.scheduler.clock, batch)
    modifies d.store, d.scheduler, d`notices, d`consuming
    ensures d.Valid() && d.consuming == !stopped
    ensures d.scheduler.clock <= if batch == [] then old(d.scheduler.clock) else batch[|batch| - 1].at
    ensures d.scheduler.fired == old(d.scheduler.fired)
    ensures var k := ConsumerHalt(batch);
      && stopped == (k < |batch|)
      && d.store.View() == Ingest(old(d.store.View()), EventsOf(batch[..k]))
      && d.notices == old(d.notices) + Reports(EventsOf(batch[..k])) +
                      (if stopped then [HaltNotice(batch[k])] else [])
      && d.scheduler.history == old(d.scheduler.history) + SignalsOf(batch[..k])
    ensures !stopped ==> d.store.View() == Ingest(old(d.store.View()), EventsOf(batch))
  {
    ghost var before := d.scheduler.Current();
    var i := HandleUntilBroken(d, batch);
    RunFromAppend(Init, old(d.scheduler.history), SignalsOf(batch[..i]));
    NoRefreshWhileConsuming(before, batch[..i]);
    stopped := i < |batch|;
    if stopped {
      d.notices := d.notices + [HaltNotice(batch[i])];
      d.consuming := false;
    } else {
      assert batch[..i] == batch;
    }
  }
}
