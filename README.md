# Shipment tracking dashboard: the bookkeeping core

This project is a Dafny model of the bookkeeping behind the real-time shipment
tracking dashboard in `projects/gui-proj`. The dashboard consumes shipment
events from a stream and keeps the latest record per shipment id in a dict. It
debounces the refresh of two views: a status-filtered list of rows and a map of
shipment positions. The model covers:

- **the event validator** `is_valid_shipment`: an event is valid when the four
  required keys are among its keys (`Shipments.IsValidShipment`);
- **the ETA column** `calculate_eta`: `"Unknown ETA"` when a coordinate key is
  missing. Otherwise it is the travel time followed by `" hours"`. The travel
  time is a parameter (`EtaHours`), because it is geodesic floating-point work
  done in a foreign library (`Shipments.CalculateEta`);
- **the shipment store**: the `shipments` dict as a class (`Store.ShipmentStore`)
  whose value is the ids in first-insertion order plus the record of each id.
  That value is a `Snapshot`, so the model keeps Python's dict iteration order.
  The ingest fold `Store.Ingest` is its specification: last write wins, and
  invalid events are skipped;
- **the debounce slot** `update_task` (`Debounce`): a pure state machine
  `Idle | Pending(task, phase)` over a logical clock in milliseconds. A task
  that `asyncio.create_task` has only scheduled is `Scheduled`. Its
  `sleep(0.5)` starts the first time the event loop gets control, and then it
  is `Sleeping(until)`. The machine keeps a record of created, cancelled and
  fired tasks. The class `Debounce.Debouncer` has `Signal(now)`
  (`debounce_update`) and `Tick(now)`. At a tick the event loop gets control:
  a scheduled task starts its sleep, and a task whose sleep has ended runs;
- **the projections** (`Views`): the status filter and its rows, the list
  table that `update_shipment_list` clears and refills, the search over ids
  done by `filter_shipments`, and the map's coordinate lists;
- **main.py's module state** (`App.Dashboard`): the store, the slot, the
  selected status, the table, the map's three lists, whether the ingest loop
  still runs, and the notifications. It also has main.py's ingest loop as
  written, which reads the id before validating;
- **consumer.py's ingest loop** (`Consumer.ConsumeShipmentUpdates`), which
  validates first and so only stops on a stream failure.

Notifications are values of `Shipments.Notice` appended to an output sequence.
The stream hands the loop a batch of `Message`s: the events that arrive before
the loop next waits, each with an arrival time, or a stream failure.

ui.py repeats main.py's `update_shipment_list` and `calculate_eta` line for
line. consumer.py repeats `is_valid_shipment`, `debounce_update` and
`update_ui`. Each is modelled once, and the table cites the main.py lines
where both copies are the same.

Some behaviour of the code that the model keeps:

- `filter_shipments` ignores the status filter, and a status change ignores
  the search term. The two are not combined into one predicate.
- Notifications of successful ingest pass no `type`.

## Model

| member | source | states |
|---|---|---|
| Shipments.IsValidShipment | projects/gui-proj/main.py:174-189 | valid iff `shipment_id`, `status`, `location` and `timestamp` are all keys of the event |
| Shipments.ValidityIgnoresOptionalKeys | projects/gui-proj/main.py:188-189 | adding, overwriting or removing a key outside the required four (latitude, longitude, …) never changes validity |
| Shipments.MissingRequiredKeyInvalid | projects/gui-proj/consumer.py:48-49 | removing any one required key makes an event invalid |
| Shipments.CalculateEta | projects/gui-proj/main.py:130-154 | the ETA is exactly `"Unknown ETA"` iff `latitude` or `longitude` is missing; with both present it is the travel time for those coordinates followed by `" hours"` |
| Shipments.Row | projects/gui-proj/main.py:99-101 | a list row is its five columns, id, status, location, timestamp and ETA, joined by the column separator |
| Shipments.HeaderJoinsTitles | projects/gui-proj/main.py:93 | the header label is the five column titles joined by the same separator as a row |
| Shipments.RowColumns | projects/gui-proj/main.py:93-101 | a list row is the five fields id, status, location, timestamp and ETA, in that order, one field per column title of the header, joined by the same separator as the header |
| Shipments.Report | projects/gui-proj/main.py:43-53 | an event that reaches validation gets exactly one notice: an update naming its id, status and location iff it is valid, otherwise an error-level rejection carrying the event |
| Shipments.Reports | projects/gui-proj/consumer.py:19-29 | a run of events gets one notice per event, in order |
| Store.Put | projects/gui-proj/main.py:44 | `shipments[id] = event`: the entry for the id becomes exactly the event and no other entry changes; a new id is appended to the iteration order and the size grows by one, while a known id keeps its place and the size |
| Store.WellFormedIndexed | projects/gui-proj/main.py:22-44 | the store invariant built up id by id, as the dict grows, holds iff ids are unique, the listed ids are exactly the keys, and each record is valid and filed under its own id |
| Store.PutWellFormed | projects/gui-proj/main.py:43-44 | upserting a valid event keeps the store invariant |
| Store.Values | projects/gui-proj/main.py:96 | `shipments.values()` lists each id's record in insertion order, and every one is valid |
| Store.ValuesListEachRecordOnce | projects/gui-proj/main.py:96 | every stored record appears among the values exactly once, and there are as many values as keys |
| Store.IngestWellFormed | projects/gui-proj/consumer.py:19-23 | the ingest fold keeps the store invariant |
| Store.LastValid | projects/gui-proj/consumer.py:19-23 | the reference for last-write-wins: absent iff no valid event carries the id; otherwise a valid event for the id that is one of the events, with no valid event for the id after it |
| Store.Ingest | projects/gui-proj/consumer.py:19-23 | the ingest fold only adds: the old ids stay a prefix of the order and the old keys stay keys, there are at most as many new ids as events, and every valid event's id ends up stored |
| Store.IngestLastWriteWins | projects/gui-proj/consumer.py:19-23 | after a run of events an id is stored iff it was stored before or some valid event carries it; its record is the last valid event for it, or the old record if no valid event names it |
| Store.InvalidEventIgnored | projects/gui-proj/main.py:52-53 | an invalid event leaves the store exactly as it was |
| Store.RepeatedIdKeepsLatest | projects/gui-proj/main.py:43-44 | two valid events for one id leave one entry, equal to the second, and no other id changes |
| Store.ShipmentStore.constructor | projects/gui-proj/main.py:22 | the store starts empty |
| Store.ShipmentStore.Upsert | projects/gui-proj/main.py:44 | the store's new value is `Put` of the old value and the event, and the invariant holds |
| Debounce.RunFromAppend | projects/gui-proj/main.py:58-80 | running two stretches of scheduler operations one after the other is running them together |
| Debounce.Step | projects/gui-proj/main.py:65-80 | one transition never forgets: the refreshes that ran keep their order and gain at most one, cancelled tasks stay cancelled, only a signal creates a task, and a refresh runs iff the event loop gets control when the pending task's sleep has ended |
| Debounce.SignalConsistent | projects/gui-proj/main.py:65-68 | a signal keeps the bookkeeping: the replaced task joins the cancelled ones and the new task is the pending one |
| Debounce.TickConsistent | projects/gui-proj/main.py:71-78 | running the due task keeps the bookkeeping: it moves from the slot to the refreshes that ran, after every earlier refresh |
| Debounce.StepConsistent | projects/gui-proj/main.py:65-68 | every transition keeps the bookkeeping: the pending task is the newest and has neither run nor been cancelled, no task both ran and was cancelled, refreshes run in task order, and every task has run, was cancelled or is pending |
| Debounce.RunConsistent | projects/gui-proj/main.py:65-68 | every run from the initial state keeps the bookkeeping |
| Debounce.AtMostOneLive | projects/gui-proj/main.py:65-68 | at most one created task can still fire, and it is the one in the slot |
| Debounce.SignalLeavesOneLive | projects/gui-proj/main.py:65-68 | after `debounce_update` exactly one task is live: the new one, which has not started its sleep; the task it replaced is cancelled |
| Debounce.BurstStaysPending | projects/gui-proj/main.py:58-78 | during a burst nothing runs: the slot holds the newest task, either not started or asleep until 500 ms after the event loop first got control after the last signal, and every earlier task of the burst has been cancelled |
| Debounce.SleepStartsAtFirstTick | projects/gui-proj/main.py:68-78 | the 500 ms window starts when the event loop first gets control after the last signal, not at the signal: that tick keeps the burst going and puts the newest task to sleep until 500 ms after it |
| Debounce.Coalescing | projects/gui-proj/main.py:58-78 | a burst followed by the event loop getting control once the newest task's sleep has ended fires exactly one refresh, the newest task's, and leaves the slot empty |
| Debounce.Debouncer.constructor | projects/gui-proj/main.py:24 | the slot starts empty, with no task created |
| Debounce.Debouncer.Signal | projects/gui-proj/main.py:58-68 | cancels the task in the slot, if any, and installs a new one that has not started its sleep; nothing fires; exactly the new task is live |
| Debounce.Debouncer.Tick | projects/gui-proj/main.py:71-78 | the pending task runs iff its sleep has ended, and the slot then empties and the refresh is recorded once; otherwise a task that had not started begins its 500 ms sleep now, and nothing else changes; the clock moves to now |
| Views.Shows | projects/gui-proj/main.py:97 | a valid record is shown when the filter is `"All"` or equals its status, and a record shown under any other filter has that status |
| Views.Selected | projects/gui-proj/main.py:96-97 | a record is shown iff the filter is `"All"` or equals its status; with `"All"` the shown records are all records, in order |
| Views.Rows | projects/gui-proj/main.py:98-101 | one row label per shown record, in order |
| Views.ListLabels | projects/gui-proj/ui.py:16-24 | the header label comes first, then one row per shown record, so the count is matches + 1 |
| Views.AllListsEveryRecord | projects/gui-proj/main.py:96-97 | with the filter at `"All"` the list shows every stored record once, after the header, and has size + 1 labels |
| Views.ContainsIff | projects/gui-proj/main.py:201 | Python's `q in k` on strings holds iff `q` occurs in `k` at some offset |
| Views.SearchIds | projects/gui-proj/main.py:201 | the ids kept are exactly those containing the query, and there are no more of them than ids |
| Views.SearchIdsAppend | projects/gui-proj/main.py:201 | the search keeps the order of the ids: the matches of a run of ids are those of its first part followed by those of the rest |
| Views.SearchResults | projects/gui-proj/main.py:201 | every search result is a stored, valid record whose id contains the query, and there are no more of them than records |
| Views.SearchKeepsExactlyMatches | projects/gui-proj/main.py:201 | a stored record is a search result iff its id contains the query as a substring, whatever the status filter; the empty query finds every record |
| Views.Present | projects/gui-proj/main.py:118-119 | the coordinate list holds exactly the values of the shown records that have that key; it has one value per record iff every record has the key, and then the i-th value is the i-th record's |
| Views.PresentAppend | projects/gui-proj/main.py:118-119 | each coordinate list keeps the order of the records: the values of a run of records are those of its first part followed by those of the rest |
| Views.Ids | projects/gui-proj/main.py:120 | the marker texts are the ids of all shown records, in order |
| Views.MapTraceAsWritten | projects/gui-proj/main.py:116-121 | the text list has one id per shown record, in order, while the lon and lat lists are never longer; all three have one length iff every shown record has both coordinates |
| Views.TraceAlignedWhenComplete | projects/gui-proj/main.py:111-121 | when every shown record has both coordinates, the lon, lat and text lists have equal length and zip to exactly the markers |
| Views.TraceMisalignsLabels | projects/gui-proj/main.py:116-121 | as written, a shown record without coordinates shifts the labels: one point, at shipment 2's position, is labelled `"1"` |
| Views.MapPoints | projects/gui-proj/main.py:111-121 | one marker per shown record that has both coordinates, labelled with that record's own id |
| Views.Table.constructor | projects/gui-proj/main.py:242 | the table starts empty |
| Views.Table.Clear | projects/gui-proj/ui.py:14 | clearing empties the table and counts one clear |
| Views.Table.Label | projects/gui-proj/ui.py:16-24 | a label is appended after the existing ones |
| Views.UpdateShipmentList | projects/gui-proj/ui.py:6-24 | the table is cleared exactly once and then holds the header followed by one row per record the status filter shows, in iteration order |
| Views.ShowShipments | projects/gui-proj/main.py:202-212 | the table is cleared exactly once and then holds the header followed by one row per search result |
| App.EventsOf | projects/gui-proj/main.py:40-41 | the events carried by a run of messages; there are never more events than messages |
| App.EventsOfAppend | projects/gui-proj/main.py:40-41 | the events keep the messages' order: those of a run of messages are those of its first part followed by those of the rest |
| App.RecordsEvents | projects/gui-proj/main.py:40-41 | when every message is a record, the events are exactly the messages' events |
| App.NoRefreshWhileConsuming | projects/gui-proj/main.py:40-51 | the scheduler steps a batch causes are signals only: they create one task per valid event and fire no refresh |
| App.PrefixStep | projects/gui-proj/main.py:40-53 | one more record message extends the events, store fold, notices and signals by exactly that event's contribution |
| App.HaltNotice | projects/gui-proj/main.py:54-55 | a message that ends the loop gets one error-level "Error consuming shipment updates" notice |
| App.HaltsMain | projects/gui-proj/main.py:40-43 | a valid event never ends main.py's loop |
| App.MainHalt | projects/gui-proj/main.py:40-55 | main.py's loop ends at the first stream failure or event without a shipment id, and at no message before it |
| App.MissingIdHaltsBatch | projects/gui-proj/main.py:40-55 | an event without a shipment id ends main.py's loop at or before it, with the KeyError notice |
| App.Dashboard.constructor | projects/gui-proj/main.py:22-24 | empty store, filter `"All"`, nothing pending and no scheduler history, an empty map, no notices, and the ingest loop running |
| App.Dashboard.UpdateShipmentList | projects/gui-proj/main.py:83-101 | the table shows the header and a row for every stored record the current filter shows; one list refresh is recorded |
| App.Dashboard.UpdateShipmentMap | projects/gui-proj/main.py:104-127 | the map's three lists are built, as written, from the stored records the current filter shows; the search term plays no part |
| App.Dashboard.UpdateUi | projects/gui-proj/main.py:71-80 | after the sleep, the list is refreshed and then the map, in that order, both for the current filter |
| App.Dashboard.SetStatusFilter | projects/gui-proj/main.py:157-171 | the filter becomes the new status; the list and then the map's three lists are refreshed for it without the debounce |
| App.Dashboard.FilterShipments | projects/gui-proj/main.py:192-212 | the table shows the header and a row for every record whose id contains the query; the filter and the map are left alone |
| App.Dashboard.Tick | projects/gui-proj/main.py:71-80 | the event loop gets control at `now`: the slot takes one scheduler step and the clock moves to `now`; the `update_ui` task runs iff its sleep has ended, and then it clears and refills the list and then rebuilds the map; otherwise the list, its clear count and the map stay exactly as they were |
| App.Dashboard.Accept | projects/gui-proj/main.py:43-51 | a valid event is upserted, announced once, and signals the debounce slot at its arrival time |
| App.Dashboard.Handle | projects/gui-proj/main.py:43-53 | a valid event is upserted and signalled at its arrival time; an invalid one leaves the store, the slot and the clock unchanged; either way exactly one notice is added |
| App.Dashboard.Advance | projects/gui-proj/consumer.py:19-29 | one turn of the loop body extends the store, notices and signals by the message's contribution |
| App.Dashboard.HandleUntilRaise | projects/gui-proj/main.py:40-53 | the loop runs up to the first message that raises, handling every message before it; the clock never passes the last arrival |
| App.Dashboard.ConsumeShipmentUpdates | projects/gui-proj/main.py:27-55 | main.py's loop: the store is the fold of the events before the halting message, each of which got its notice and signal; a halt adds one error notice and ends the loop for good; no refresh fires while it consumes; the clock never passes the last arrival |
| Consumer.ConsumerHalt | projects/gui-proj/consumer.py:18-31 | consumer.py's loop ends only at the first stream failure |
| Consumer.MainHaltsNoLater | projects/gui-proj/consumer.py:21-22 | main.py's loop never gets further into a batch than consumer.py's |
| Consumer.LoopsAgreeWhenIdsPresent | projects/gui-proj/consumer.py:21-22 | when every event carries a shipment id the two loops stop at the same message |
| Consumer.MissingIdRejected | projects/gui-proj/consumer.py:21-29 | an event without a shipment id is rejected with one error notice, leaves the store unchanged, and the loop goes on past it |
| Consumer.HandleUntilBroken | projects/gui-proj/consumer.py:18-29 | the loop runs up to the first stream failure, handling every message before it; the clock never passes the last arrival |
| Consumer.ConsumeShipmentUpdates | projects/gui-proj/consumer.py:6-31 | consumer.py's loop: the store is the fold "last valid event per id" over every event before the first stream failure, with one notice per event and one signal per valid event; a stream failure adds one error notice and ends the loop for good; no refresh fires while it consumes; the clock never passes the last arrival |

## Left out

- The Kafka consumer, JSON deserialisation and `consumer.close()` are not modelled. The stream is a batch of already-decoded messages, or a stream failure.
- nicegui widgets, `ui.loading`, label styling and notification rendering are not modelled. Notices are values that carry what their text is built from (id, status and location; the rejected event; the failure's reason). The text itself is not modelled.
- The plotly figure is not modelled. The map is the three lists main.py hands it (`Views.MapTraceAsWritten`). `Views.MapPoints` is the reference pairing of each position with its own id.
- Converting coordinates with `float()` is not modelled. Coordinates stay text.
- Shipments.CalculateEta: a coordinate that is present but not a number makes `float()` raise `ValueError`, which `except KeyError` does not catch, so the refresh task fails. The model has no such failure. main.py:147 converts the latitude first, so an event with `latitude` "abc" and no `longitude` raises `ValueError` in the program, while the model gives `"Unknown ETA"`; with both keys present the model gives the travel time.
- Shipments.CalculateEta: the geodesic distance, the 60 km/h speed and the `:.1f` formatting are the parameter `hours`. The model only states that the success text ends in `" hours"` after that parameter's value.
- Real asyncio scheduling is not modelled. Time is a logical clock in milliseconds. A task made by `create_task` starts its 500 ms sleep the first time the event loop gets control (`Tick`), not at the signal, and it runs at a later tick once that sleep has ended. Nothing runs during a batch, because the consume loop does not suspend between messages.
- Debounce.Debouncer.Tick: the model lets the event loop get control between batches. The program never gives it control while the ingest loop runs. `for message in consumer` (main.py:40) is kafka-python's blocking iterator, and `await debounce_update()` (main.py:49-51) returns without suspending, because `debounce_update` has no `await` in it (main.py:65-68). So no `update_ui` task runs until the loop ends at main.py:54-55, and consumer.py:19-31 behaves the same. The model bounds the batch with ticks the program does not have; `App.NoRefreshWhileConsuming` states the part it does capture, that no refresh fires within a batch.
- Debounce.Coalescing: the tick after the burst that the lemma assumes only comes once the ingest loop has ended. While it runs, no refresh fires at all (see "## Findings").
- App.Dashboard.SetStatusFilter: `set_status_filter` schedules the list and map refreshes as tasks, and the model runs them at once, in order. Their interleaving with other tasks is not modelled.
- The Refresh button (main.py:240, ui.py:54) starts an independent `update_ui` task outside the debounce slot. It is not modelled; `App.Dashboard.UpdateUi` is its body.
- Signal handlers, `shutdown`, and the shutdown notice are not modelled.
- Logging is not modelled.
- `STATUS_OPTIONS` only feeds the drop-down and is not modelled. The filter accepts any string, as the code does.
- The TypeScript tests and the Jest configuration are not modelled.
- The `type="info"` notification that test_integration.py expects is not modelled, because the code never passes it.

## Findings

| source | as written | input that shows it | evidently intended | confidence | as-written member | corrected member |
|---|---|---|---|---|---|---|
| projects/gui-proj/main.py:41-44 | reads `event["shipment_id"]` before validating | an event with `status`, `location` and `timestamp` but no `shipment_id` raises KeyError, which ends the whole loop | reject the event and go on, as consumer.py:21-22 does | not executed; high | App.MissingIdHaltsBatch | Consumer.MissingIdRejected |
| projects/gui-proj/main.py:40-51 | iterates kafka-python's blocking consumer and awaits `debounce_update()`, which never suspends | two valid events 100 ms apart, then an idle stream: both are signalled, and no `update_ui` task runs while the loop waits for more, so neither update reaches the list or the map | a refresh 500 ms after the updates stop, as the docstring at main.py:59-64 says | not executed; medium | App.NoRefreshWhileConsuming | Debounce.Coalescing |
| projects/gui-proj/main.py:118-120 | builds `lon`, `lat` and `text` as three independent lists | record "1" without coordinates, then record "2" at (34.05, -118.24): one point, at record 2's position, labelled "1" | each marker labelled with its own record's id | not executed; medium | Views.TraceMisalignsLabels | Views.MapPoints |
