/**
 The workspace view's event stream. A restart loop keeps one stream to the server open: it waits
 for the previous stream to end before it opens the next one where the previous one stopped.
 Requests to reconnect, deliveries, stream ends and disposal interleave freely between its awaits.
 */
module Reconnect {
  import opened Wrappers

  /** The identifier is what tells events apart. */
  datatype Event = Event(id: string, payload: string)

  ghost predicate DistinctIds(events: seq<Event>) {
    forall i, j :: 0 <= i < j < |events| ==> events[i].id != events[j].id
  }

  // ---------- Merging events ----------

  predicate HasId(events: seq<Event>, id: string) {
    exists i :: 0 <= i < |events| && events[i].id == id
  }

  function AppendUnique(events: seq<Event>, event: Event): seq<Event> {
    if HasId(events, event.id) then events else events + [event]
  }

  function MergeEvents(initial: seq<Event>, streamed: seq<Event>): seq<Event> {
    if streamed == [] then initial
    else AppendUnique(MergeEvents(initial, streamed[..|streamed| - 1]), streamed[|streamed| - 1])
  }

  function Max(a: nat, b: nat): nat {
    if a < b then b else a
  }

  lemma AppendNext(log: seq<Event>, i: nat, k: nat)
    requires DistinctIds(log) && k < |log| && k <= i <= |log|
    ensures AppendUnique(log[..i], log[k]) == log[..Max(i, k + 1)]
  {
    if k < i {
      assert log[..i][k].id == log[k].id;
    } else {
      assert !HasId(log[..i], log[k].id);
    }
  }

  /** Merging a prefix of the server's log with a later window of it that leaves no gap gives the longer prefix. */
  lemma {:induction false} MergeExtendsPrefix(log: seq<Event>, i: nat, j: nat, k: nat)
    requires DistinctIds(log) && j <= i <= |log| && j <= k <= |log|
    ensures MergeEvents(log[..i], log[j..k]) == log[..Max(i, k)]
    decreases k
  {
    if j < k {
      assert log[j..k][..k - j - 1] == log[j..k - 1];
      MergeExtendsPrefix(log, i, j, k - 1);
      AppendNext(log, Max(i, k - 1), k - 1);
    }
  }

  lemma {:induction false} MergeAcrossGap(log: seq<Event>, i: nat, j: nat, k: nat)
    requires DistinctIds(log) && i < j <= k <= |log|
    ensures MergeEvents(log[..i], log[j..k]) == log[..i] + log[j..k]
    decreases k
  {
    if j < k {
      assert log[j..k][..k - j - 1] == log[j..k - 1];
      MergeAcrossGap(log, i, j, k - 1);
      var so := log[..i] + log[j..k - 1];
      forall n | 0 <= n < |so|
        ensures so[n].id != log[k - 1].id
      {
        assert so[n] == if n < i then log[n] else log[j + (n - i)];
      }
      assert so + [log[k - 1]] == log[..i] + log[j..k];
    } else {
      assert log[j..k] == [] && log[..i] + [] == log[..i];
    }
  }

  /** The merged list is a prefix of the log exactly when the window leaves no gap or is empty. */
  lemma MergeIsPrefixExactlyWithoutGap(log: seq<Event>, i: nat, j: nat, k: nat)
    requires DistinctIds(log) && i <= |log| && j <= k <= |log|
    ensures MergeEvents(log[..i], log[j..k]) <= log <==> j <= i || j == k
  {
    if j <= i {
      MergeExtendsPrefix(log, i, j, k);
    } else {
      MergeAcrossGap(log, i, j, k);
      var merged := MergeEvents(log[..i], log[j..k]);
      if j < k {
        assert merged[i] == log[j];
        assert log[i].id != log[j].id;
      } else {
        assert merged == log[..i];
      }
    }
  }

  /** Merging keeps the first list as it is and has exactly the identifiers of both, none twice if the first
      list has none twice. */
  lemma {:induction false} MergeHasBoth(initial: seq<Event>, streamed: seq<Event>)
    ensures initial <= MergeEvents(initial, streamed)
    ensures forall id :: HasId(MergeEvents(initial, streamed), id) <==> HasId(initial, id) || HasId(streamed, id)
    ensures DistinctIds(initial) ==> DistinctIds(MergeEvents(initial, streamed))
  {
    if streamed != [] {
      var front, last := streamed[..|streamed| - 1], streamed[|streamed| - 1];
      MergeHasBoth(initial, front);
      var merged := MergeEvents(initial, front);
      assert streamed == front + [last];
      forall id
        ensures HasId(AppendUnique(merged, last), id) <==> HasId(merged, id) || id == last.id
        ensures HasId(streamed, id) <==> HasId(front, id) || id == last.id
      {
        HasIdSnoc(merged, last, id);
        HasIdSnoc(front, last, id);
      }
    }
  }

  lemma HasIdSnoc(events: seq<Event>, last: Event, id: string)
    ensures HasId(events + [last], id) <==> HasId(events, id) || id == last.id
  {
    var longer := events + [last];
    assert longer[|events|] == last && forall i :: 0 <= i < |events| ==> longer[i] == events[i];
  }

  // ---------- The restart loop as a step system ----------

  datatype Stream = Stream(start: nat, next: nat, aborted: bool, open: bool)

  /** The last stream is the one that the controller and the awaited task belong to. */
  datatype State = State(
    log: seq<Event>,
    events: seq<Event>,
    streamIndex: nat,
    streams: seq<Stream>,
    disposed: bool,
    requested: bool,
    restarting: bool)

  datatype Action = Publish(event: Event) | Request | Resume | Deliver | End | Dispose

  function Mounted(log: seq<Event>, loaded: nat): State
    requires loaded <= |log|
  {
    State(log, log[..loaded], loaded, [], false, false, false)
  }

  predicate IsOpen(streams: seq<Stream>) {
    streams != [] && streams[|streams| - 1].open
  }

  function AbortLast(streams: seq<Stream>): seq<Stream> {
    if streams == [] then []
    else streams[|streams| - 1 := streams[|streams| - 1].(aborted := true)]
  }

  /** An action that is not possible in the state leaves it as it is. After disposal nothing calls
      `reconnect` any more. */
  function Apply(s: State, a: Action): State {
    match a
    case Publish(event) => if HasId(s.log, event.id) then s else s.(log := s.log + [event])
    case Request =>
      if s.disposed then s else s.(requested := true, restarting := true, streams := AbortLast(s.streams))
    case Resume =>
      if !s.restarting || IsOpen(s.streams) then s
      else if s.disposed then s.(restarting := false)
      else s.(requested := false, restarting := false,
              streams := s.streams + [Stream(s.streamIndex, s.streamIndex, false, true)])
    case Deliver =>
      if !IsOpen(s.streams) || s.streams[|s.streams| - 1].next >= |s.log| then s
      else
        var last := s.streams[|s.streams| - 1];
        s.(streams := s.streams[|s.streams| - 1 := last.(next := last.next + 1)],
           streamIndex := last.next + 1,
           events := AppendUnique(s.events, s.log[last.next]))
    case End =>
      if !IsOpen(s.streams) then s
      else s.(streams := s.streams[|s.streams| - 1 := s.streams[|s.streams| - 1].(open := false)])
    case Dispose => s.(disposed := true, streams := AbortLast(s.streams))
  }

  function Run(s: State, actions: seq<Action>): State {
    if actions == [] then s else Apply(Run(s, actions[..|actions| - 1]), actions[|actions| - 1])
  }

  /** The loop's variables, updated in place between awaits. */
  class WorkspaceStream {
    ghost var log: seq<Event>
    var events: seq<Event>
    var streamIndex: nat
    var streams: seq<Stream>
    var disposed: bool
    var reconnectRequested: bool
    var restarting: bool

    constructor (ghost log: seq<Event>, initialEvents: seq<Event>)
      requires initialEvents <= log
      ensures View() == Mounted(log, |initialEvents|)
    {
      this.log := log;
      events, streamIndex, streams := initialEvents, |initialEvents|, [];
      disposed, reconnectRequested, restarting := false, false, false;
    }

    ghost function View(): State
      reads this
    {
      State(log, events, streamIndex, streams, disposed, reconnectRequested, restarting)
    }

    /** Up to the first await: a request aborts the current stream and starts the loop unless it runs already. */
    method Reconnect()
      requires !disposed
      modifies this
      ensures View() == Apply(old(View()), Request)
    {
      reconnectRequested := true;
      if streams != [] {
        streams := streams[|streams| - 1 := streams[|streams| - 1].(aborted := true)];
      }
      if restarting { return; }
      restarting := true;
    }

    /** From the await of the ended stream to the end of the loop, which opens at most one stream on the way. */
    method ResumeLoop()
      requires restarting && reconnectRequested && !IsOpen(streams)
      modifies this
      ensures View() == Apply(old(View()), Resume)
    {
      while reconnectRequested
        invariant reconnectRequested ==> View() == old(View())
        invariant !reconnectRequested ==> View() == Apply(old(View()), Resume).(restarting := true)
        decreases reconnectRequested
      {
        if disposed { break; }
        reconnectRequested := false;
        streams := streams + [Stream(streamIndex, streamIndex, false, true)];
      }
      restarting := false;
    }

    /** The current stream yields its next event. */
    method Deliver(event: Event)
      requires IsOpen(streams) && streams[|streams| - 1].next < |log| && event == log[streams[|streams| - 1].next]
      modifies this
      ensures View() == Apply(old(View()), Action.Deliver)
    {
      var last := streams[|streams| - 1];
      streams := streams[|streams| - 1 := last.(next := last.next + 1)];
      streamIndex := last.next + 1;
      events := AppendUnique(events, event);
    }

    method Dispose()
      modifies this
      ensures View() == Apply(old(View()), Action.Dispose)
    {
      disposed := true;
      streams := AbortLast(streams);
    }
  }

  // ---------- What every run keeps ----------

  ghost predicate Inv(s: State) {
    && DistinctIds(s.log) && s.streamIndex <= |s.log| && s.events == s.log[..s.streamIndex]
    // Only the last stream may be open, and it continues where the event list ends.
    && (forall k :: 0 <= k < |s.streams| - 1 ==> !s.streams[k].open)
    && (IsOpen(s.streams) ==> s.streams[|s.streams| - 1].next == s.streamIndex)
    // A request pends exactly while the loop waits, unless the view is disposed.
    && (!s.disposed ==> (s.requested <==> s.restarting))
    && (s.restarting ==> s.requested)
    // The stream the loop waits for, and any stream of a disposed view, has been told to stop.
    && (s.restarting || s.disposed ==> IsOpen(s.streams) ==> s.streams[|s.streams| - 1].aborted)
  }

  lemma DeliverKeepsInv(s: State)
    requires Inv(s)
    ensures Inv(Apply(s, Deliver))
  {
    if IsOpen(s.streams) && s.streamIndex < |s.log| {
      AppendNext(s.log, s.streamIndex, s.streamIndex);
    }
  }

  lemma ApplyKeepsInv(s: State, a: Action)
    requires Inv(s)
    ensures Inv(Apply(s, a))
  {
    match a {
      case Deliver => DeliverKeepsInv(s);
      case Publish(event) =>
        var s' := Apply(s, a);
        assert s'.log[..s.streamIndex] == s.log[..s.streamIndex];
      case _ =>
    }
  }

  lemma {:induction false} RunKeepsInv(s: State, actions: seq<Action>)
    requires Inv(s)
    ensures Inv(Run(s, actions))
  {
    if actions != [] {
      RunKeepsInv(s, actions[..|actions| - 1]);
      ApplyKeepsInv(Run(s, actions[..|actions| - 1]), actions[|actions| - 1]);
    }
  }

  // ---------- Main results ----------

  /** In every run at most one stream is open, and the event list is a prefix of the server's log without duplicates. */
  lemma EventsArePrefixOfLog(log: seq<Event>, loaded: nat, actions: seq<Action>)
    requires DistinctIds(log) && loaded <= |log|
    ensures var s := Run(Mounted(log, loaded), actions);
            && (forall i, j :: 0 <= i < |s.streams| && 0 <= j < |s.streams| ==>
                  s.streams[i].open && s.streams[j].open ==> i == j)
            && s.events <= s.log && DistinctIds(s.events)
            && |s.events| == s.streamIndex
  {
    RunKeepsInv(Mounted(log, loaded), actions);
    var s := Run(Mounted(log, loaded), actions);
    forall i, j | 0 <= i < j < |s.events|
      ensures s.events[i].id != s.events[j].id
    {
      assert s.log[i].id != s.log[j].id;
    }
  }

  /** No request is lost: while one pends in a live view the loop is waiting, only for a stream that was
      told to stop; and once that stream has ended, the loop opens a stream where the event list ends. */
  lemma PendingRequestIsServed(log: seq<Event>, loaded: nat, actions: seq<Action>)
    requires DistinctIds(log) && loaded <= |log|
    requires var s := Run(Mounted(log, loaded), actions); s.requested && !s.disposed
    ensures var s := Run(Mounted(log, loaded), actions);
            && s.restarting
            && (IsOpen(s.streams) ==> s.streams[|s.streams| - 1].aborted)
            && var t := Apply(Apply(s, End), Resume);
            && !t.requested && |t.streams| == |s.streams| + 1
            && t.streams[|s.streams|] == Stream(|s.events|, |s.events|, false, true)
  {
    RunKeepsInv(Mounted(log, loaded), actions);
  }

  /** The open streams have been told to stop, and nothing else has happened to any stream. */
  ghost predicate OnlyAborted(before: seq<Stream>, after: seq<Stream>) {
    && |after| == |before|
    && forall k :: 0 <= k < |after| ==>
         && after[k] == before[k].(aborted := after[k].aborted)
         && (after[k].open || before[k].aborted ==> after[k].aborted)
  }

  /** In a live view every request has its effect: at once the open stream is told to stop and a restart is
      pending; while that stream is still open nothing is opened; and after it has ended the loop opens exactly
      one more, where the event list ends. */
  lemma RequestOpensStream(log: seq<Event>, loaded: nat, actions: seq<Action>)
    requires DistinctIds(log) && loaded <= |log|
    requires !Run(Mounted(log, loaded), actions).disposed
    ensures var s := Run(Mounted(log, loaded), actions);
            var asked := Apply(s, Request);
            var reopened := Apply(Apply(asked, End), Resume);
            && asked.requested && asked.restarting
            && OnlyAborted(s.streams, asked.streams)
            && (IsOpen(s.streams) ==> Apply(asked, Resume) == asked)
            && |reopened.streams| == |s.streams| + 1
            && (forall k :: 0 <= k < |s.streams| ==> !reopened.streams[k].open)
            && (var last := reopened.streams[|s.streams|];
                last.open && !last.aborted && last.start == |s.events| == last.next)
            && !reopened.requested && !reopened.restarting
            && reopened.events == s.events && reopened.log == s.log
  {
    RunKeepsInv(Mounted(log, loaded), actions);
  }

  /** Each delivery of an open stream adds the next event of the log, also when the stream was told to stop. */
  lemma DeliveryAddsNextEvent(log: seq<Event>, loaded: nat, actions: seq<Action>)
    requires DistinctIds(log) && loaded <= |log|
    requires IsOpen(Run(Mounted(log, loaded), actions).streams)
    ensures var s := Run(Mounted(log, loaded), actions);
            var t := Apply(s, Deliver);
            && (|s.events| < |s.log| ==> t.events == s.events + [s.log[|s.events|]] && IsOpen(t.streams))
            && (|s.events| == |s.log| ==> t == s)
            && t.log == s.log && |t.streams| == |s.streams|
  {
    RunKeepsInv(Mounted(log, loaded), actions);
    var s := Run(Mounted(log, loaded), actions);
    assert s.events == s.log[..|s.events|];
    if |s.events| < |s.log| {
      AppendNext(s.log, |s.events|, |s.events|);
    }
  }

  /** What the server publishes ends up in the log once, and the event list is not touched by it. */
  lemma PublishExtendsLog(s: State, event: Event)
    ensures var t := Apply(s, Publish(event));
            && t == s.(log := t.log) && s.log <= t.log
            && (exists e :: e in t.log && e.id == event.id)
            && (DistinctIds(s.log) ==> DistinctIds(t.log))
  {
    if HasId(s.log, event.id) {
      var i :| 0 <= i < |s.log| && s.log[i].id == event.id;
      assert s.log[i] in s.log;
    } else {
      assert event in s.log + [event];
    }
  }

  function Deliveries(n: nat): seq<Action> {
    seq(n, _ => Deliver)
  }

  lemma {:induction false} CatchUpFrom(s: State, n: nat)
    requires Inv(s) && IsOpen(s.streams)
    ensures var t, m := Run(s, Deliveries(n)), |s.events| + n;
            && Inv(t) && IsOpen(t.streams) && t.log == s.log
            && t.events == s.log[..if m <= |s.log| then m else |s.log|]
  {
    hide Inv;
    if n > 0 {
      CatchUpFrom(s, n - 1);
      assert Deliveries(n)[..n - 1] == Deliveries(n - 1);
      var before := Run(s, Deliveries(n - 1));
      ApplyKeepsInv(before, Deliver);
      DeliverStep(before);
    } else {
      EventsAreInLog(s);
    }
  }

  lemma EventsAreInLog(s: State)
    requires Inv(s)
    ensures |s.events| <= |s.log| && s.events == s.log[..|s.events|]
  {
  }

  lemma DeliverStep(s: State)
    requires Inv(s) && IsOpen(s.streams)
    ensures var t := Apply(s, Deliver);
            && IsOpen(t.streams) && t.log == s.log
            && t.events == s.log[..if |s.events| < |s.log| then |s.events| + 1 else |s.events|]
  {
    if s.streamIndex < |s.log| {
      AppendNext(s.log, s.streamIndex, s.streamIndex);
    }
  }

  /** An open stream that delivers long enough brings the event list up to the log. */
  lemma DeliveriesCatchUp(log: seq<Event>, loaded: nat, actions: seq<Action>, n: nat)
    requires DistinctIds(log) && loaded <= |log|
    requires IsOpen(Run(Mounted(log, loaded), actions).streams)
    ensures var s := Run(Mounted(log, loaded), actions);
            var t := Run(s, Deliveries(n));
            && IsOpen(t.streams) && t.log == s.log
            && (|s.events| + n >= |s.log| ==> t.events == s.log)
            && (|s.events| + n < |s.log| ==> t.events == s.log[..|s.events| + n])
  {
    RunKeepsInv(Mounted(log, loaded), actions);
    CatchUpFrom(Run(Mounted(log, loaded), actions), n);
  }

  /** Disposal tells the open stream to stop and leaves everything else to what is under way. */
  lemma DisposalAborts(log: seq<Event>, loaded: nat, actions: seq<Action>)
    requires DistinctIds(log) && loaded <= |log|
    ensures var s := Run(Mounted(log, loaded), actions);
            var t := Apply(s, Dispose);
            && t.disposed && t.events == s.events && OnlyAborted(s.streams, t.streams)
  {
    RunKeepsInv(Mounted(log, loaded), actions);
  }

  /** Many requests coalesce into one. */
  lemma RequestsCoalesce(s: State)
    ensures Apply(Apply(s, Request), Request) == Apply(s, Request)
  {
  }

  /** No stream is opened after the view is disposed. */
  lemma {:induction false} DisposalIsFinal(s: State, actions: seq<Action>)
    requires s.disposed
    ensures Run(s, actions).disposed && |Run(s, actions).streams| == |s.streams|
  {
    if actions != [] {
      DisposalIsFinal(s, actions[..|actions| - 1]);
    }
  }
}
