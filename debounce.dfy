/** The debounced refresh: the single `update_task` slot that
    `debounce_update` empties by cancelling its task and refills with a new
    task that sleeps for the quiescence window and then refreshes the views.
    Time is a logical clock in milliseconds; a task id stands for the asyncio
    task object. */
module Debounce {

  /** update_ui's `sleep(0.5)`, in milliseconds. */
  const Window: int := 500

  /** How far a task in the slot has got. `asyncio.create_task` only
      schedules it: its `sleep(0.5)` starts the first time the event loop
      gets control, and from then on it is due a window later. */
  datatype Phase = Scheduled | Sleeping(until: int)

  /** The `update_task` slot: empty, or holding a task that has not yet run. */
  datatype Slot = Idle | Pending(task: nat, phase: Phase)

  /** A refresh that ran: the task and the time it was due. */
  datatype Fire = Fire(task: nat, at: int)

  /** What happens to the scheduler: a `debounce_update` call at `at`, or the
      event loop getting control at `at` and running the tasks that are ready. */
  datatype Op = SignalAt(at: int) | TickAt(at: int)

  /** The scheduler: the slot, how many tasks were created, the refreshes
      that ran in order, and the tasks that were cancelled. */
  datatype State = State(slot: Slot, tasks: nat, fired: seq<Fire>, cancelled: set<nat>)

  const Init := State(Idle, 0, [], {})

  /** The slot holds a task whose sleep has ended by `now`. */
  predicate Due(slot: Slot, now: int)
  {
    slot.Pending? && slot.phase.Sleeping? && slot.phase.until <= now
  }

  /** One transition. A signal cancels the pending task, if any, and installs
      a new one that has not started; when the event loop gets control, a
      task that has not started begins its sleep, and a task whose sleep has
      ended runs and leaves the slot. Nothing is forgotten: the refreshes
      that ran and the cancelled tasks only grow, and only a signal creates
      a task. */
  function Step(st: State, op: Op): (r: State)
    ensures |st.fired| <= |r.fired| <= |st.fired| + 1 && r.fired[..|st.fired|] == st.fired
    ensures st.cancelled <= r.cancelled
    ensures r.tasks == st.tasks + (if op.SignalAt? then 1 else 0)
    ensures |r.fired| == |st.fired| + 1 <==> op.TickAt? && Due(st.slot, op.at)
  {
    match op
    case SignalAt(now) =>
      State(Pending(st.tasks, Scheduled), st.tasks + 1, st.fired,
            if st.slot.Pending? then st.cancelled + {st.slot.task} else st.cancelled)
    case TickAt(now) =>
      if Due(st.slot, now) then
        State(Idle, st.tasks, st.fired + [Fire(st.slot.task, st.slot.phase.until)], st.cancelled)
      else if st.slot.Pending? && st.slot.phase.Scheduled? then
        st.(slot := Pending(st.slot.task, Sleeping(now + Window)))
      else st
  }

  /** The state after `ops`, starting from `st`. */
  function RunFrom(st: State, ops: seq<Op>): State
  {
    if ops == [] then st else Step(RunFrom(st, ops[..|ops| - 1]), ops[|ops| - 1])
  }

  /** Running two stretches of operations one after the other. */
  lemma {:induction false} RunFromAppend(st: State, a: seq<Op>, b: seq<Op>)
    ensures RunFrom(st, a + b) == RunFrom(RunFrom(st, a), b)
    decreases |b|
  {
    if b == [] {
      assert a + b == a;
    } else {
      assert (a + b)[..|a + b| - 1] == a + b[..|b| - 1];
      RunFromAppend(st, a, b[..|b| - 1]);
    }
  }

  function Run(ops: seq<Op>): State
  {
    RunFrom(Init, ops)
  }

  /** The tasks of a run of refreshes. */
  function TasksOf(fs: seq<Fire>): (ts: set<nat>)
    ensures forall i :: 0 <= i < |fs| ==> fs[i].task in ts
    ensures forall t :: t in ts ==> exists i :: 0 <= i < |fs| && fs[i].task == t
  {
    if fs == [] then {} else TasksOf(fs[..|fs| - 1]) + {fs[|fs| - 1].task}
  }

  /** The tasks whose refresh ran. */
  function FiredTasks(st: State): set<nat>
  {
    TasksOf(st.fired)
  }

  /** The task ids from `lo` up to but excluding `hi`. */
  function Between(lo: nat, hi: int): (ts: set<nat>)
    ensures forall t :: t in ts <==> lo <= t < hi
    decreases hi - lo
  {
    if hi <= lo then {} else Between(lo, hi - 1) + {hi - 1}
  }

  /** Tasks created and neither cancelled nor run: they can still fire. */
  function Live(st: State): set<nat>
  {
    set t: nat | t < st.tasks && t !in st.cancelled && t !in FiredTasks(st)
  }

  /** The task in the slot, if any. */
  function PendingTasks(st: State): set<nat>
  {
    if st.slot.Pending? then {st.slot.task} else {}
  }

  /** The bookkeeping every run keeps: the pending task is the newest one and
      has neither run nor been cancelled; no task both ran and was cancelled;
      refreshes run in task order, so none runs twice; and every task created
      has run, was cancelled, or is the pending one. */
  ghost predicate Consistent(st: State)
  {
    && (st.slot.Pending? ==>
          st.slot.task + 1 == st.tasks && st.slot.task !in st.cancelled && st.slot.task !in FiredTasks(st))
    && (forall t :: t in st.cancelled ==> t < st.tasks && t !in FiredTasks(st))
    && (forall i :: 0 <= i < |st.fired| ==> st.fired[i].task < st.tasks)
    && (forall i, j :: 0 <= i < j < |st.fired| ==> st.fired[i].task < st.fired[j].task)
    && (forall t: nat :: t < st.tasks ==>
          t in st.cancelled || t in FiredTasks(st) || t in PendingTasks(st))
  }

  /** A signal keeps the bookkeeping: the replaced task joins the cancelled
      ones and the new task is the pending one. */
  lemma SignalConsistent(st: State, now: int)
    requires Consistent(st)
    ensures Consistent(Step(st, SignalAt(now)))
  {
    var r := Step(st, SignalAt(now));
    assert r.fired == st.fired && FiredTasks(r) == FiredTasks(st);
    assert st.tasks !in FiredTasks(st);
    forall t: nat | t < r.tasks ensures t in r.cancelled || t in FiredTasks(r) || t in PendingTasks(r) {
      if t < st.tasks && t !in st.cancelled && t !in FiredTasks(st) {
        assert t in PendingTasks(st);
      }
    }
  }

  /** A tick keeps the bookkeeping: a task that has not started begins its
      sleep, and a due task moves from the slot to the refreshes that ran. */
  lemma TickConsistent(st: State, now: int)
    requires Consistent(st)
    ensures Consistent(Step(st, TickAt(now)))
  {
    var r := Step(st, TickAt(now));
    if Due(st.slot, now) {
      var t, n := st.slot.task, |st.fired|;
      assert r.fired == st.fired + [Fire(t, st.slot.phase.until)];
      assert r.fired[..n] == st.fired;
      assert FiredTasks(r) == FiredTasks(st) + {t};
      forall i | 0 <= i < n ensures st.fired[i].task < t {
        assert st.fired[i].task in FiredTasks(st);
      }
      forall i, j | 0 <= i < j < n + 1 ensures r.fired[i].task < r.fired[j].task {
        assert r.fired[i] == st.fired[i];
        if j < n { assert r.fired[j] == st.fired[j]; }
      }
      assert r.slot == Idle && r.tasks == st.tasks && r.cancelled == st.cancelled;
    } else {
      assert r.fired == st.fired && r.tasks == st.tasks && r.cancelled == st.cancelled;
      assert PendingTasks(r) == PendingTasks(st);
    }
  }

  lemma StepConsistent(st: State, op: Op)
    requires Consistent(st)
    ensures Consistent(Step(st, op))
  {
    match op
    case SignalAt(now) => SignalConsistent(st, now);
    case TickAt(now) => TickConsistent(st, now);
  }

  /** Every run from the initial state keeps the bookkeeping. */
  lemma {:induction false} RunConsistent(ops: seq<Op>)
    ensures Consistent(Run(ops))
  {
    if ops != [] {
      RunConsistent(ops[..|ops| - 1]);
      StepConsistent(Run(ops[..|ops| - 1]), ops[|ops| - 1]);
    }
  }

  /** At most one task is live, and it is the one in the slot. */
  lemma {:induction false} AtMostOneLive(st: State)
    requires Consistent(st)
    ensures Live(st) == if st.slot.Pending? then {st.slot.task} else {}
  {
    if st.slot.Pending? {
      assert st.slot.task in Live(st);
    }
  }

  /** After any `debounce_update` exactly one task is live, the new one,
      which has not started its sleep, and the task it replaced has been
      cancelled. */
  lemma {:induction false} SignalLeavesOneLive(st: State, now: int)
    requires Consistent(st)
    ensures Live(Step(st, SignalAt(now))) == {st.tasks}
    ensures Step(st, SignalAt(now)).slot == Pending(st.tasks, Scheduled)
    ensures st.slot.Pending? ==> st.slot.task in Step(st, SignalAt(now)).cancelled
  {
    StepConsistent(st, SignalAt(now));
    AtMostOneLive(Step(st, SignalAt(now)));
  }

  /** The phase of the newest task after `ops`: not started if the event
      loop has not had control since the last signal, otherwise sleeping
      until a window after the first time it had. */
  function NewestPhase(ops: seq<Op>): Phase
    requires |ops| > 0 && ops[0].SignalAt?
  {
    if |ops| == 1 || ops[|ops| - 1].SignalAt? then Scheduled
    else
      match NewestPhase(ops[..|ops| - 1])
      case Scheduled => Sleeping(ops[|ops| - 1].at + Window)
      case Sleeping(until) => Sleeping(until)
  }

  function SignalCount(ops: seq<Op>): nat
  {
    if ops == [] then 0 else SignalCount(ops[..|ops| - 1]) + (if ops[|ops| - 1].SignalAt? then 1 else 0)
  }

  /** A burst: it starts with a signal, and every time the event loop gets
      control, the newest task has not started or is still asleep. */
  ghost predicate Burst(ops: seq<Op>)
  {
    && |ops| > 0 && ops[0].SignalAt?
    && forall i :: 0 < i < |ops| && ops[i].TickAt? && NewestPhase(ops[..i]).Sleeping? ==>
         ops[i].at < NewestPhase(ops[..i]).until
  }

  /** During a burst nothing runs: the slot holds the newest task, in the
      phase the event loop has brought it to, and every other task of the
      burst, and the one pending before it, has been cancelled. */
  lemma {:induction false} BurstStaysPending(st: State, ops: seq<Op>)
    requires Burst(ops)
    ensures var r := RunFrom(st, ops);
      && r.tasks == st.tasks + SignalCount(ops) && SignalCount(ops) > 0
      && r.slot == Pending(r.tasks - 1, NewestPhase(ops))
      && r.fired == st.fired
      && r.cancelled == st.cancelled + PendingTasks(st) + Between(st.tasks, r.tasks - 1)
  {
    var n := |ops|;
    if n == 1 {
      assert ops[..0] == [];
    } else {
      var init := ops[..n - 1];
      assert Burst(init) by {
        forall i | 0 < i < |init| && init[i].TickAt? && NewestPhase(init[..i]).Sleeping?
          ensures init[i].at < NewestPhase(init[..i]).until
        {
          assert init[..i] == ops[..i];
        }
      }
      BurstStaysPending(st, init);
      assert ops[..n - 1] == init;
      if ops[n - 1].TickAt? && NewestPhase(init).Sleeping? {
        assert ops[n - 1].at < NewestPhase(init).until;
      }
    }
  }

  /** The window starts when the event loop first gets control after the
      last signal, not at the signal: that tick extends the burst and puts
      the newest task to sleep until a window after it. */
  lemma SleepStartsAtFirstTick(ops: seq<Op>, now: int)
    requires Burst(ops) && NewestPhase(ops).Scheduled?
    ensures Burst(ops + [TickAt(now)])
    ensures NewestPhase(ops + [TickAt(now)]) == Sleeping(now + Window)
  {
    var ext := ops + [TickAt(now)];
    assert ext[..|ops|] == ops;
    forall i | 0 < i < |ext| && ext[i].TickAt? && NewestPhase(ext[..i]).Sleeping?
      ensures ext[i].at < NewestPhase(ext[..i]).until
    {
      assert ext[..i] == ops[..i];
    }
  }

  /** Coalescing: a burst of signals, followed by the event loop getting
      control once the newest task's sleep has ended, runs exactly one
      refresh, the newest task's, and leaves the slot empty. */
  lemma {:induction false} Coalescing(st: State, ops: seq<Op>, later: int)
    requires Burst(ops) && NewestPhase(ops).Sleeping?
    requires later >= NewestPhase(ops).until
    ensures var r := RunFrom(st, ops + [TickAt(later)]);
      && SignalCount(ops) > 0
      && r.fired == st.fired + [Fire(st.tasks + SignalCount(ops) - 1, NewestPhase(ops).until)]
      && r.slot == Idle
  {
    BurstStaysPending(st, ops);
    assert (ops + [TickAt(later)])[..|ops|] == ops;
  }

  /** The mutable `update_task` slot with its logical clock. */
  class Debouncer {
    var slot: Slot
    var tasks: nat
    var fired: seq<Fire>
    var cancelled: set<nat>
    var clock: int
    ghost var history: seq<Op>

    function Current(): State
      reads this
    {
      State(slot, tasks, fired, cancelled)
    }

    /** The fields are the run of the operations so far, none of which
        happened later than the clock. */
    ghost predicate Valid()
      reads this
    {
      && Current() == Run(history)
      && (forall i :: 0 <= i < |history| ==> history[i].at <= clock)
    }

    constructor (now: int)
      ensures Valid() && history == [] && Current() == Init && clock == now
    {
      slot, tasks, fired, cancelled, clock := Idle, 0, [], {}, now;
      history := [];
    }

    /** `debounce_update`: cancel the task in the slot, if any, and install a
        new one, which has not started its sleep. Nothing runs here. */
    method Signal(now: int)
      requires Valid() && clock <= now
      modifies this
      ensures Valid() && history == old(history) + [SignalAt(now)] && clock == now
      ensures slot == Pending(old(tasks), Scheduled) && tasks == old(tasks) + 1
      ensures cancelled == old(cancelled) + (if old(slot).Pending? then {old(slot).task} else {})
      ensures fired == old(fired)
      ensures Live(Current()) == {old(tasks)}
    {
      ghost var before := Current();
      RunConsistent(history);
      if slot.Pending? {
        cancelled := cancelled + {slot.task};
      }
      slot := Pending(tasks, Scheduled);
      tasks := tasks + 1;
      clock := now;
      history := history + [SignalAt(now)];
      assert history[..|history| - 1] == old(history);
      StepConsistent(before, SignalAt(now));
      SignalLeavesOneLive(before, now);
    }

    /** The event loop gets control at `now`: a task in the slot that has not
        started begins its sleep, and one whose sleep has ended runs and
        leaves the slot. `due` says whether a refresh ran. */
    method Tick(now: int) returns (due: bool)
      requires Valid() && clock <= now
      modifies this
      ensures Valid() && history == old(history) + [TickAt(now)] && clock == now
      ensures due <==> Due(old(slot), now)
      ensures due ==> slot == Idle && fired == old(fired) + [Fire(old(slot).task, old(slot).phase.until)]
      ensures !due && old(slot).Pending? && old(slot).phase.Scheduled? ==>
                slot == Pending(old(slot).task, Sleeping(now + Window))
      ensures !due && !(old(slot).Pending? && old(slot).phase.Scheduled?) ==> slot == old(slot)
      ensures !due ==> fired == old(fired)
      ensures tasks == old(tasks) && cancelled == old(cancelled)
    {
      due := Due(slot, now);
      if due {
        fired := fired + [Fire(slot.task, slot.phase.until)];
        slot := Idle;
      } else if slot.Pending? && slot.phase.Scheduled? {
        slot := Pending(slot.task, Sleeping(now + Window));
      }
      clock := now;
      history := history + [TickAt(now)];
      assert history[..|history| - 1] == old(history);
    }
  }
}
