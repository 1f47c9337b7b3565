/**
 The analytics worker: a select loop that buffers events and sends them in batches, when the
 buffer is full, when no event has come for a while, and when it shuts down. Time is in milliseconds.
 */
module Analytics {
  import opened Wrappers

  const BUFFER_THRESHOLD: nat := 10
  const EVENT_TIMEOUT: nat := 200
  const NO_TIMEOUT: nat := 24 * 60 * 60 * 1000

  datatype Event = Event(sessionId: Option<string>, payload: string)

  /** What one call of `send_events` hands over, with the times at which its events were received. */
  datatype Batch = Batch(events: seq<Event>, received: seq<nat>, sentAt: nat)

  function WithSession(id: string, events: seq<Event>): seq<Event> {
    seq(|events|, i requires 0 <= i < |events| => events[i].(sessionId := Some(id)))
  }

  /** `sent` logs everything ever enqueued, and `stamps` the receipt times of the buffered events. */
  datatype State = State(
    id: string,
    sent: seq<Event>,
    queue: seq<Event>,
    sendersGone: bool,
    exitRequested: bool,
    now: nat,
    deadline: nat,
    shortTimer: bool,
    buffer: seq<Event>,
    stamps: seq<nat>,
    batches: seq<Batch>,
    running: bool)

  /** The receiver is dropped with the worker, so nothing can be enqueued after it has stopped. */
  datatype Action = Send(event: Event) | DropSenders | DropHandle | Poll | Tick(elapsed: nat)

  function Started(id: string): State {
    State(id, [], [], false, false, 0, NO_TIMEOUT, false, [], [], [], true)
  }

  function Flush(s: State): State {
    if s.buffer == [] then s
    else s.(batches := s.batches + [Batch(WithSession(s.id, s.buffer), s.stamps, s.now)], buffer := [], stamps := [])
  }

  function ArmLong(s: State): State {
    s.(deadline := s.now + NO_TIMEOUT, shortTimer := false)
  }

  function ArmShort(s: State): State {
    s.(deadline := s.now + EVENT_TIMEOUT, shortTimer := true)
  }

  function TakeOne(s: State): State
    requires s.queue != []
  {
    s.(queue := s.queue[1..], buffer := s.buffer + [s.queue[0]], stamps := s.stamps + [s.now])
  }

  function Receive(s: State): State
    requires s.queue != []
  {
    var t := TakeOne(s);
    if |t.buffer| == BUFFER_THRESHOLD then ArmLong(Flush(t)) else ArmShort(t)
  }

  /** The select tries its branches in order: events, closed channel, timer, exit. */
  function PollOnce(s: State): State {
    if !s.running then s
    else if s.queue != [] then Receive(s)
    else if s.sendersGone then Flush(s).(running := false)
    else if s.now >= s.deadline then ArmLong(Flush(s))
    else if s.exitRequested then Flush(s).(running := false)
    else s
  }

  function Apply(s: State, a: Action): State {
    match a
    case Send(event) =>
      if s.running && !s.sendersGone then s.(sent := s.sent + [event], queue := s.queue + [event]) else s
    case DropSenders => s.(sendersGone := true)
    case DropHandle => s.(exitRequested := true)
    case Poll => PollOnce(s)
    case Tick(elapsed) => s.(now := s.now + elapsed)
  }

  function Run(s: State, actions: seq<Action>): State {
    if actions == [] then s else Apply(Run(s, actions[..|actions| - 1]), actions[|actions| - 1])
  }

  // ---------- The worker, updated in place ----------

  method AddSessionId(id: string, events: array<Event>)
    modifies events
    ensures events[..] == WithSession(id, old(events[..]))
  {
    for i := 0 to events.Length
      invariant forall j :: 0 <= j < i ==> events[j] == old(events[j]).(sessionId := Some(id))
      invariant forall j :: i <= j < events.Length ==> events[j] == old(events[j])
    {
      events[i] := events[i].(sessionId := Some(id));
    }
  }

  class Worker {
    const sessionId: string
    ghost var sent: seq<Event>
    var queue: seq<Event>
    var sendersGone: bool
    var exitRequested: bool
    var now: nat
    var deadline: nat
    ghost var shortTimer: bool
    var buffer: seq<Event>
    ghost var stamps: seq<nat>
    ghost var batches: seq<Batch>
    var running: bool

    constructor (id: string)
      ensures View() == Started(id)
    {
      sessionId := id;
      sent, queue, sendersGone, exitRequested := [], [], false, false;
      now, deadline, shortTimer := 0, NO_TIMEOUT, false;
      buffer, stamps, batches, running := [], [], [], true;
    }

    ghost function View(): State
      reads this
    {
      State(sessionId, sent, queue, sendersGone, exitRequested, now, deadline, shortTimer,
            buffer, stamps, batches, running)
    }

    method SendEvents(events: seq<Event>)
      modifies this`batches
      ensures batches == old(batches) + [Batch(WithSession(sessionId, events), stamps, now)]
    {
      var owned := new Event[|events|](i requires 0 <= i < |events| => events[i]);
      assert owned[..] == events;
      AddSessionId(sessionId, owned);
      batches := batches + [Batch(owned[..], stamps, now)];
    }

    method FlushEvents()
      modifies this`buffer, this`stamps, this`batches
      ensures View() == Flush(old(View()))
    {
      if buffer != [] {
        var events := buffer;
        buffer := [];
        SendEvents(events);
        stamps := [];
      }
    }

    method Sleep(timeout: nat)
      modifies this`deadline, this`shortTimer
      ensures deadline == now + timeout && shortTimer == (timeout == EVENT_TIMEOUT)
    {
      deadline := now + timeout;
      shortTimer := timeout == EVENT_TIMEOUT;
    }

    /** One turn of the select loop. */
    method Poll()
      modifies this
      ensures View() == PollOnce(old(View()))
    {
      if !running { return; }
      if queue != [] {
        var event := queue[0];
        queue := queue[1..];
        buffer := buffer + [event];
        stamps := stamps + [now];
        if |buffer| == BUFFER_THRESHOLD {
          FlushEvents();
          Sleep(NO_TIMEOUT);
        } else {
          Sleep(EVENT_TIMEOUT);
        }
      } else if sendersGone {
        FlushEvents();
        running := false;
      } else if now >= deadline {
        FlushEvents();
        Sleep(NO_TIMEOUT);
      } else if exitRequested {
        FlushEvents();
        running := false;
      }
    }
  }

  // ---------- Conservation ----------

  /** The events of all batches, in sending order. */
  function Delivered(batches: seq<Batch>): seq<Event> {
    if batches == [] then [] else Delivered(batches[..|batches| - 1]) + batches[|batches| - 1].events
  }

  /** Batches, buffer and queue together are what was sent. */
  ghost predicate Balanced(s: State) {
    Delivered(s.batches) + (WithSession(s.id, s.buffer) + WithSession(s.id, s.queue)) == WithSession(s.id, s.sent)
  }

  ghost predicate Shaped(s: State) {
    && |s.stamps| == |s.buffer| < BUFFER_THRESHOLD
    && (forall i :: 0 <= i < |s.batches| ==> 1 <= |s.batches[i].events| <= BUFFER_THRESHOLD)
    && (forall i :: 0 <= i < |s.batches| ==> |s.batches[i].received| == |s.batches[i].events|)
    && (!s.running ==> s.buffer == [] && s.queue == [])
    && (s.running ==> (s.shortTimer <==> s.buffer != []))
  }

  ghost predicate Conserved(s: State) {
    Balanced(s) && Shaped(s)
  }

  lemma WithSessionAppend(id: string, a: seq<Event>, b: seq<Event>)
    ensures WithSession(id, a + b) == WithSession(id, a) + WithSession(id, b)
  {
  }

  lemma DeliveredSnoc(batches: seq<Batch>, b: Batch)
    ensures Delivered(batches + [b]) == Delivered(batches) + b.events
  {
    assert (batches + [b])[..|batches|] == batches;
  }

  lemma FlushBalances(s: State)
    requires Balanced(s)
    ensures Balanced(Flush(s)) && Flush(s).buffer == []
  {
    if s.buffer != [] {
      DeliveredSnoc(s.batches, Batch(WithSession(s.id, s.buffer), s.stamps, s.now));
      var d, b, q := Delivered(s.batches), WithSession(s.id, s.buffer), WithSession(s.id, s.queue);
      assert (d + b) + (WithSession(s.id, []) + q) == d + (b + q);
    }
  }

  lemma TakeOneBalances(s: State)
    requires Balanced(s) && s.queue != []
    ensures Balanced(TakeOne(s))
  {
    var e, rest := s.queue[0], s.queue[1..];
    assert s.queue == [e] + rest;
    WithSessionAppend(s.id, [e], rest);
    WithSessionAppend(s.id, s.buffer, [e]);
    var b, one, q := WithSession(s.id, s.buffer), WithSession(s.id, [e]), WithSession(s.id, rest);
    assert (b + one) + q == b + (one + q);
  }

  lemma SendBalances(s: State, e: Event)
    requires Balanced(s) && s.running && !s.sendersGone
    ensures Balanced(Apply(s, Send(e)))
  {
    WithSessionAppend(s.id, s.queue, [e]);
    WithSessionAppend(s.id, s.sent, [e]);
    var d, b := Delivered(s.batches), WithSession(s.id, s.buffer);
    var q, one := WithSession(s.id, s.queue), WithSession(s.id, [e]);
    assert d + (b + (q + one)) == (d + (b + q)) + one;
  }

  lemma PollConserves(s: State)
    requires Conserved(s)
    ensures Conserved(PollOnce(s))
  {
    hide Delivered;
    if s.running && s.queue != [] {
      TakeOneBalances(s);
      FlushBalances(TakeOne(s));
    } else {
      FlushBalances(s);
    }
  }

  lemma PollKeepsId(s: State)
    ensures PollOnce(s).id == s.id
  {
  }

  lemma ApplyConserves(s: State, a: Action)
    requires Conserved(s)
    ensures Conserved(Apply(s, a)) && Apply(s, a).id == s.id
  {
    hide Delivered, WithSession, PollOnce;
    match a {
      case Send(event) =>
        if s.running && !s.sendersGone {
          SendBalances(s, event);
        }
      case Poll =>
        PollConserves(s);
        PollKeepsId(s);
      case _ =>
    }
  }

  lemma {:induction false} RunConserves(s: State, actions: seq<Action>)
    requires Conserved(s)
    ensures Conserved(Run(s, actions)) && Run(s, actions).id == s.id
  {
    hide Conserved, Apply;
    if actions != [] {
      RunConserves(s, actions[..|actions| - 1]);
      ApplyConserves(Run(s, actions[..|actions| - 1]), actions[|actions| - 1]);
    }
  }

  /** In every run the batches, the buffer and the queue together are the events sent, in order, with only
      the session rewritten. Batches have one to ten events and the buffer fewer than ten. The short timer
      is armed exactly while the buffer is not empty. Once the worker has stopped, everything was delivered. */
  lemma EventsAreConserved(id: string, actions: seq<Action>)
    ensures var s := Run(Started(id), actions);
            && Delivered(s.batches) + (WithSession(id, s.buffer) + WithSession(id, s.queue)) == WithSession(id, s.sent)
            && |s.buffer| < BUFFER_THRESHOLD
            && (forall i :: 0 <= i < |s.batches| ==> 1 <= |s.batches[i].events| <= BUFFER_THRESHOLD)
            && (s.running ==> (s.shortTimer <==> s.buffer != []))
            && (!s.running ==> Delivered(s.batches) == WithSession(id, s.sent))
  {
    RunConserves(Started(id), actions);
    var s := Run(Started(id), actions);
    assert WithSession(id, []) == [];
  }

  /** Every event handed over has the session of the worker and the payload with which it was sent, in order. */
  lemma DeliveredEventsAreThoseSent(id: string, actions: seq<Action>)
    ensures var s := Run(Started(id), actions);
            && |Delivered(s.batches)| + |s.buffer| + |s.queue| == |s.sent|
            && forall i :: 0 <= i < |Delivered(s.batches)| ==>
                 Delivered(s.batches)[i] == Event(Some(id), s.sent[i].payload)
  {
    EventsAreConserved(id, actions);
    var s := Run(Started(id), actions);
    var all := WithSession(id, s.sent);
    assert |all| == |s.sent| && forall i :: 0 <= i < |all| ==> all[i] == Event(Some(id), s.sent[i].payload);
    assert Delivered(s.batches) == all[..|Delivered(s.batches)|];
  }

  /** Events come before everything else: while the queue is not empty, each turn takes its first event, and that
      turn hands over the buffer exactly if the event makes it full. */
  lemma EventsComeFirst(s: State)
    requires s.running && s.queue != []
    ensures var t := PollOnce(s);
            && t.running && t.queue == s.queue[1..]
            && (|s.buffer| + 1 != BUFFER_THRESHOLD ==>
                  t.buffer == s.buffer + [s.queue[0]] && t.batches == s.batches && t.deadline == s.now + EVENT_TIMEOUT)
            && (|s.buffer| + 1 == BUFFER_THRESHOLD ==>
                  && t.buffer == [] && t.deadline == s.now + NO_TIMEOUT && |t.batches| == |s.batches| + 1
                  && t.batches[|s.batches|].events == WithSession(s.id, s.buffer + [s.queue[0]]))
  {
  }

  /** The loop ends exactly on an empty queue when no sender is left, or when the exit is requested and the timer
      is not due. So an exit request never overtakes an event, and everything is handed over at the end. */
  lemma ExitWaitsForQueue(s: State)
    requires s.running
    ensures !PollOnce(s).running <==>
              s.queue == [] && (s.sendersGone || (s.exitRequested && s.now < s.deadline))
    ensures !PollOnce(s).running ==> PollOnce(s).buffer == []
    ensures !PollOnce(s).running && s.buffer != [] ==>
              && |PollOnce(s).batches| == |s.batches| + 1
              && PollOnce(s).batches[|s.batches|].events == WithSession(s.id, s.buffer)
  {
  }

  function Polls(n: nat): seq<Action> {
    seq(n, _ => Poll)
  }

  lemma {:induction false} ShutdownIsServed(s: State, n: nat)
    requires s.running ==> s.sendersGone || s.exitRequested
    requires n >= |s.queue| + 2
    ensures !Run(s, Polls(n)).running
    decreases n
  {
    var t := PollOnce(s);
    RunPollFirst(s, n);
    if t.running && s.queue != [] {
      ShutdownIsServed(t, n - 1);
    } else if t.running {
      assert t.queue == [] && t.now < t.deadline;
      RunPollFirst(t, n - 1);
      StoppedStays(PollOnce(t), n - 2);
    } else {
      StoppedStays(t, n - 1);
    }
  }

  lemma {:induction false} RunPollFirst(s: State, n: nat)
    requires n > 0
    ensures Run(s, Polls(n)) == Run(PollOnce(s), Polls(n - 1))
  {
    assert Polls(n) == [Poll] + Polls(n - 1);
    RunAppend(s, [Poll], Polls(n - 1));
    assert [Poll][..0] == [];
    assert Run(s, [Poll]) == Apply(Run(s, []), Poll);
  }

  lemma {:induction false} StoppedStays(s: State, n: nat)
    requires !s.running
    ensures !Run(s, Polls(n)).running
  {
    if n > 0 {
      StoppedStays(s, n - 1);
      assert Polls(n)[..n - 1] == Polls(n - 1);
    }
  }

  /** A shutdown is served: when the last sender or the handle is dropped, a worker that is scheduled often enough
      stops, and everything sent before has been handed over. */
  lemma ShutdownDeliversEverything(id: string, actions: seq<Action>, shutdown: Action, n: nat)
    requires shutdown == DropSenders || shutdown == DropHandle
    requires n >= |Run(Started(id), actions).queue| + 2
    ensures var s := Run(Started(id), actions + [shutdown] + Polls(n));
            && !s.running && s.buffer == [] && s.queue == []
            && s.sent == Run(Started(id), actions).sent
            && Delivered(s.batches) == WithSession(id, s.sent)
  {
    var before := actions + [shutdown];
    assert before[..|actions|] == actions;
    RunAppend(Started(id), before, Polls(n));
    ShutdownIsServed(Run(Started(id), before), n);
    PollsSendNothing(Run(Started(id), before), n);
    EventsAreConserved(id, before + Polls(n));
    RunConserves(Started(id), before + Polls(n));
  }

  lemma {:induction false} PollsSendNothing(s: State, n: nat)
    ensures Run(s, Polls(n)).sent == s.sent
  {
    if n > 0 {
      PollsSendNothing(s, n - 1);
      assert Polls(n)[..n - 1] == Polls(n - 1);
    }
  }

  // ---------- Timeliness ----------

  /** The worker would take a branch of its select right away. */
  predicate Ready(s: State) {
    s.running && (s.queue != [] || s.sendersGone || s.exitRequested || s.now >= s.deadline)
  }

  /** Time does not pass while the worker is ready, and not beyond its timer. */
  predicate IsPunctual(s: State, a: Action) {
    a.Tick? && s.running && a.elapsed > 0 ==> !Ready(s) && s.now + a.elapsed <= s.deadline
  }

  ghost predicate PunctualRun(s: State, actions: seq<Action>) {
    forall k :: 0 <= k < |actions| ==> IsPunctual(Run(s, actions[..k]), actions[k])
  }

  ghost predicate InTime(s: State) {
    && (s.running ==> s.now <= s.deadline)
    && |s.stamps| == |s.buffer| < BUFFER_THRESHOLD
    // Each buffered event leaves room for one timeout per event from it on.
    && (forall i :: 0 <= i < |s.stamps| ==>
          s.stamps[i] <= s.now && s.deadline <= s.stamps[i] + EVENT_TIMEOUT * (|s.stamps| - i))
    && (forall k :: 0 <= k < |s.batches| ==> WasPrompt(s.batches[k]))
  }

  ghost predicate WasPrompt(b: Batch) {
    forall i :: 0 <= i < |b.received| ==>
      b.received[i] <= b.sentAt <= b.received[i] + EVENT_TIMEOUT * (BUFFER_THRESHOLD - 1)
  }

  lemma FlushInTime(s: State)
    requires InTime(s) && s.now <= s.deadline
    ensures InTime(Flush(s))
  {
    forall i | 0 <= i < |s.stamps|
      ensures s.now <= s.stamps[i] + EVENT_TIMEOUT * (BUFFER_THRESHOLD - 1)
    {
    }
  }

  lemma ReceiveInTime(s: State)
    requires InTime(s) && s.running && s.queue != []
    ensures InTime(Receive(s))
  {
    var t := TakeOne(s);
    if |t.buffer| == BUFFER_THRESHOLD {
      forall i | 0 <= i < |t.stamps|
        ensures t.stamps[i] <= s.now <= t.stamps[i] + EVENT_TIMEOUT * (BUFFER_THRESHOLD - 1)
      {
      }
      assert WasPrompt(Batch(WithSession(t.id, t.buffer), t.stamps, t.now));
    }
  }

  lemma ApplyInTime(s: State, a: Action)
    requires InTime(s) && IsPunctual(s, a) && (!s.running ==> s.buffer == [])
    ensures InTime(Apply(s, a))
  {
    match a {
      case Poll =>
        if s.running {
          if s.queue != [] {
            ReceiveInTime(s);
          } else {
            FlushInTime(s);
          }
        }
      case _ =>
    }
  }

  lemma {:induction false} RunInTime(s: State, actions: seq<Action>)
    requires InTime(s) && Conserved(s) && PunctualRun(s, actions)
    ensures InTime(Run(s, actions))
  {
    if actions != [] {
      var n := |actions| - 1;
      forall k | 0 <= k < n
        ensures IsPunctual(Run(s, actions[..n][..k]), actions[..n][k])
      {
        assert actions[..n][..k] == actions[..k];
      }
      RunInTime(s, actions[..n]);
      RunConserves(s, actions[..n]);
      ApplyInTime(Run(s, actions[..n]), actions[n]);
    }
  }

  /** Without scheduling delay every event is handed over within nine timeouts of its receipt, although
      each new event restarts the timer: those in a batch were, and those in the buffer still can be, so
      the worker flushes in time. Time passes only while the queue is empty, so receipt follows sending
      at once. */
  lemma EventsAreSentPromptly(id: string, actions: seq<Action>)
    requires PunctualRun(Started(id), actions)
    ensures var s := Run(Started(id), actions);
            forall k, i :: 0 <= k < |s.batches| && 0 <= i < |s.batches[k].received| ==>
              var b := s.batches[k]; b.received[i] <= b.sentAt <= b.received[i] + 9 * EVENT_TIMEOUT
    ensures var s := Run(Started(id), actions);
            && |s.stamps| == |s.buffer|
            && (forall j :: 0 <= j < |s.stamps| ==> s.stamps[j] <= s.now)
            && (s.running ==> forall j :: 0 <= j < |s.stamps| ==> s.now <= s.stamps[j] + 9 * EVENT_TIMEOUT)
            && (!s.running ==> s.buffer == [] && s.queue == [])
    ensures forall k :: 0 <= k < |actions| && actions[k].Tick? && actions[k].elapsed > 0 ==>
              Run(Started(id), actions[..k]).queue == []
  {
    RunInTime(Started(id), actions);
    RunConserves(Started(id), actions);
    var s := Run(Started(id), actions);
    forall k, i | 0 <= k < |s.batches| && 0 <= i < |s.batches[k].received|
      ensures var b := s.batches[k]; b.received[i] <= b.sentAt <= b.received[i] + 9 * EVENT_TIMEOUT
    {
      assert WasPrompt(s.batches[k]);
    }
    forall k | 0 <= k < |actions| && actions[k].Tick? && actions[k].elapsed > 0
      ensures Run(Started(id), actions[..k]).queue == []
    {
      RunConserves(Started(id), actions[..k]);
      assert IsPunctual(Run(Started(id), actions[..k]), actions[k]);
    }
  }

  /** Nine events at the rate of one timeout each. */
  function Drip(e: Event, n: nat): seq<Action> {
    if n == 0 then [] else Drip(e, n - 1) + [Send(e), Poll, Tick(EVENT_TIMEOUT)]
  }

  lemma {:induction false} RunAppend(s: State, a: seq<Action>, b: seq<Action>)
    ensures Run(s, a + b) == Run(Run(s, a), b)
  {
    hide Apply;
    if b == [] {
      assert a + b == a;
    } else {
      RunAppend(s, a, b[..|b| - 1]);
      assert (a + b)[..|a + b| - 1] == a + b[..|b| - 1];
    }
  }

  lemma PunctualAppend(s: State, a: seq<Action>, b: seq<Action>)
    requires PunctualRun(s, a) && PunctualRun(Run(s, a), b)
    ensures PunctualRun(s, a + b)
  {
    forall k | 0 <= k < |a + b|
      ensures IsPunctual(Run(s, (a + b)[..k]), (a + b)[k])
    {
      if k < |a| {
        assert (a + b)[..k] == a[..k];
      } else {
        assert (a + b)[..k] == a + b[..k - |a|];
        RunAppend(s, a, b[..k - |a|]);
      }
    }
  }

  lemma RunThree(s: State, x: Action, y: Action, z: Action)
    ensures Run(s, [x, y, z]) == Apply(Apply(Apply(s, x), y), z)
    ensures IsPunctual(s, x) && IsPunctual(Apply(s, x), y) && IsPunctual(Apply(Apply(s, x), y), z) ==>
              PunctualRun(s, [x, y, z])
  {
    assert [x, y, z][..2] == [x, y] && [x, y][..1] == [x];
    assert Run(s, [x]) == Apply(Run(s, [x][..0]), x);
    assert [x, y, z][..0] == [] && [x, y, z][..1] == [x];
  }

  /** The buffer holds `n` events, the first one received at time zero, and the timer is about to expire. */
  ghost predicate Dripped(s: State, n: nat) {
    && s.running && s.queue == [] && !s.sendersGone && !s.exitRequested && s.batches == []
    && |s.buffer| == n == |s.stamps| && s.now == n * EVENT_TIMEOUT
    && (if n == 0 then s.deadline == NO_TIMEOUT else s.stamps[0] == 0 && s.deadline == s.now)
  }

  lemma DripOnce(s: State, e: Event, n: nat)
    requires Dripped(s, n) && n + 1 < BUFFER_THRESHOLD
    ensures var t := Apply(Apply(s, Send(e)), Poll);
            IsPunctual(t, Tick(EVENT_TIMEOUT)) && Dripped(Apply(t, Tick(EVENT_TIMEOUT)), n + 1)
  {
    var t := Apply(s, Send(e));
    assert t.queue == [e];
    assert PollOnce(t) == ArmShort(TakeOne(t));
  }

  lemma {:induction false} DripFills(id: string, e: Event, n: nat)
    requires n < BUFFER_THRESHOLD
    ensures Dripped(Run(Started(id), Drip(e, n)), n) && PunctualRun(Started(id), Drip(e, n))
  {
    hide Apply;
    if n > 0 {
      DripFills(id, e, n - 1);
      var s, round := Run(Started(id), Drip(e, n - 1)), [Send(e), Poll, Tick(EVENT_TIMEOUT)];
      RunAppend(Started(id), Drip(e, n - 1), round);
      RunThree(s, Send(e), Poll, Tick(EVENT_TIMEOUT));
      DripOnce(s, e, n - 1);
      PunctualAppend(Started(id), Drip(e, n - 1), round);
    }
  }

  /** The bound is attained: events that keep arriving just as the timer expires delay the first one for
      nine timeouts. */
  lemma NineTimeoutsAreAttained(id: string, e: Event)
    ensures var s := Run(Started(id), Drip(e, 9) + [Poll]);
            && |s.batches| == 1 && |s.batches[0].received| == 9
            && s.batches[0].received[0] == 0 && s.batches[0].sentAt == 9 * EVENT_TIMEOUT
            && PunctualRun(Started(id), Drip(e, 9) + [Poll])
  {
    DripFills(id, e, 9);
    RunAppend(Started(id), Drip(e, 9), [Poll]);
    PunctualAppend(Started(id), Drip(e, 9), [Poll]);
    assert Run(Run(Started(id), Drip(e, 9)), [Poll]) == Apply(Run(Run(Started(id), Drip(e, 9)), [Poll][..0]), Poll);
  }
}
