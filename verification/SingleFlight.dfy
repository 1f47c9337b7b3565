/**
 The runner's two single-flight caches: package manager environments by version, and fixture
 validations by path. Work for a key is started by its first caller; later callers share the
 promise while it is unsettled and the cached value once it is fulfilled.
 */
module SingleFlight {
  import opened Wrappers

  /** A package manager version or a fixture path. */
  type Key = string

  type PromiseId = nat

  datatype Promise<+V> = Pending | Fulfilled(value: V) | Rejected

  /** What a caller receives: an already resolved value, or the promise of the work under way. */
  datatype Handle<+V> = Resolved(value: V) | Shared(id: PromiseId)

  /** `starts` logs the key of each piece of work started, which promise of the same index stands for;
      `calls` logs every call with its handle. */
  datatype State<V> = State(
    settled: map<Key, V>,
    inflight: map<Key, PromiseId>,
    promises: seq<Promise<V>>,
    starts: seq<Key>,
    calls: seq<(Key, Handle<V>)>)

  datatype Event<V> = Call(key: Key) | Fulfil(id: PromiseId, value: V) | Reject(id: PromiseId)

  function Empty<V>(): State<V> {
    State(map[], map[], [], [], [])
  }

  function HandleFor<V>(s: State<V>, key: Key): Handle<V> {
    if key in s.settled then Resolved(s.settled[key])
    else if key in s.inflight then Shared(s.inflight[key])
    else Shared(|s.promises|)
  }

  function Called<V>(s: State<V>, key: Key): State<V> {
    var logged := s.(calls := s.calls + [(key, HandleFor(s, key))]);
    if key in s.settled || key in s.inflight then logged
    else
      logged.(inflight := s.inflight[key := |s.promises|],
              promises := s.promises + [Pending],
              starts := s.starts + [key])
  }

  predicate CanSettle<V>(s: State<V>, id: PromiseId) {
    id < |s.promises| && id < |s.starts| && s.promises[id].Pending?
  }

  /** The work succeeds: its continuation caches the value and forgets the promise. A failure runs no continuation. */
  function Apply<V>(s: State<V>, e: Event<V>): State<V> {
    match e
    case Call(key) => Called(s, key)
    case Fulfil(id, value) =>
      if CanSettle(s, id) then
        s.(settled := s.settled[s.starts[id] := value],
           inflight := s.inflight - {s.starts[id]},
           promises := s.promises[id := Fulfilled(value)])
      else s
    case Reject(id) =>
      if CanSettle(s, id) then s.(promises := s.promises[id := Rejected]) else s
  }

  function Run<V>(s: State<V>, events: seq<Event<V>>): State<V> {
    if events == [] then s else Apply(Run(s, events[..|events| - 1]), events[|events| - 1])
  }

  // ---------- The runner ----------

  /** `Env` stands for the directories of an environment; a validation yields an error message or nothing. */
  class LocalRunner {
    var pmEnvCache: map<string, seq<string>>
    var pmEnvInflight: map<string, PromiseId>
    var pmEnvPromises: seq<Promise<seq<string>>>
    ghost var pmEnvStarts: seq<string>
    ghost var pmEnvCalls: seq<(string, Handle<seq<string>>)>

    var validated: map<string, Option<string>>
    var validating: map<string, PromiseId>
    var validationPromises: seq<Promise<Option<string>>>
    ghost var validationStarts: seq<string>
    ghost var validationCalls: seq<(string, Handle<Option<string>>)>

    ghost function PmEnvs(): State<seq<string>>
      reads this
    {
      State(pmEnvCache, pmEnvInflight, pmEnvPromises, pmEnvStarts, pmEnvCalls)
    }

    ghost function Validations(): State<Option<string>>
      reads this
    {
      State(validated, validating, validationPromises, validationStarts, validationCalls)
    }

    constructor ()
      ensures PmEnvs() == Empty() && Validations() == Empty()
    {
      pmEnvCache, pmEnvInflight, pmEnvPromises, pmEnvStarts, pmEnvCalls := map[], map[], [], [], [];
      validated, validating, validationPromises, validationStarts, validationCalls := map[], map[], [], [], [];
    }

    method GetPmEnv(key: string) returns (h: Handle<seq<string>>)
      modifies this
      ensures h == HandleFor(old(PmEnvs()), key)
      ensures PmEnvs() == Called(old(PmEnvs()), key)
      ensures Validations() == old(Validations())
    {
      if key in pmEnvCache {
        h := Resolved(pmEnvCache[key]);
      } else if key in pmEnvInflight {
        h := Shared(pmEnvInflight[key]);
      } else {
        var promise := |pmEnvPromises|;
        pmEnvPromises := pmEnvPromises + [Pending];
        pmEnvStarts := pmEnvStarts + [key];
        pmEnvInflight := pmEnvInflight[key := promise];
        h := Shared(promise);
      }
      pmEnvCalls := pmEnvCalls + [(key, h)];
    }

    /** The continuation of `createPmEnv` for `key`. */
    method PmEnvCreated(key: string, id: PromiseId, env: seq<string>)
      requires CanSettle(PmEnvs(), id) && pmEnvStarts[id] == key
      modifies this
      ensures PmEnvs() == Apply(old(PmEnvs()), Fulfil(id, env))
      ensures Validations() == old(Validations())
    {
      pmEnvCache := pmEnvCache[key := env];
      pmEnvInflight := pmEnvInflight - {key};
      pmEnvPromises := pmEnvPromises[id := Fulfilled(env)];
    }

    method ValidateFixture(key: string) returns (h: Handle<Option<string>>)
      modifies this
      ensures h == HandleFor(old(Validations()), key)
      ensures Validations() == Called(old(Validations()), key)
      ensures PmEnvs() == old(PmEnvs())
    {
      if key in validated {
        h := Resolved(validated[key]);
      } else if key in validating {
        h := Shared(validating[key]);
      } else {
        var promise := |validationPromises|;
        validationPromises := validationPromises + [Pending];
        validationStarts := validationStarts + [key];
        validating := validating[key := promise];
        h := Shared(promise);
      }
      validationCalls := validationCalls + [(key, h)];
    }

    /** The continuation of `doValidate` for `key`. */
    method FixtureValidated(key: string, id: PromiseId, err: Option<string>)
      requires CanSettle(Validations(), id) && validationStarts[id] == key
      modifies this
      ensures Validations() == Apply(old(Validations()), Fulfil(id, err))
      ensures PmEnvs() == old(PmEnvs())
    {
      validated := validated[key := err];
      validating := validating - {key};
      validationPromises := validationPromises[id := Fulfilled(err)];
    }
  }

  // ---------- What every run keeps ----------

  ghost predicate WasCalled<V>(s: State<V>, key: Key) {
    exists i :: 0 <= i < |s.calls| && s.calls[i].0 == key
  }

  /** A started key is in flight until its work is fulfilled, and settled from then on. */
  ghost predicate KeyIsPlaced<V>(s: State<V>, id: PromiseId)
    requires id < |s.starts| == |s.promises|
  {
    var key := s.starts[id];
    match s.promises[id]
    case Fulfilled(value) => key in s.settled && s.settled[key] == value && key !in s.inflight
    case _ => key in s.inflight && s.inflight[key] == id && key !in s.settled
  }

  ghost predicate HandleIsRight<V>(s: State<V>, key: Key, h: Handle<V>) {
    match h
    case Resolved(value) => key in s.settled && s.settled[key] == value
    case Shared(id) => id < |s.starts| && s.starts[id] == key
  }

  ghost predicate Inv<V>(s: State<V>) {
    && |s.starts| == |s.promises| && Distinct(s.starts)
    && (forall id :: 0 <= id < |s.starts| ==> KeyIsPlaced(s, id))
    && (forall key :: key in s.settled || key in s.inflight ==> key in s.starts)
    && (forall key :: key in s.starts <==> WasCalled(s, key))
    && (forall i :: 0 <= i < |s.calls| ==> HandleIsRight(s, s.calls[i].0, s.calls[i].1))
  }

  lemma CalledLogsKey<V>(s: State<V>, key: Key, k: Key)
    ensures WasCalled(Called(s, key), k) <==> WasCalled(s, k) || k == key
  {
    var s' := Called(s, key);
    assert s'.calls[|s.calls|].0 == key;
    if WasCalled(s, k) {
      var i :| 0 <= i < |s.calls| && s.calls[i].0 == k;
      assert s'.calls[i].0 == k;
    }
  }

  lemma SharingKeepsInv<V>(s: State<V>, key: Key)
    requires Inv(s) && (key in s.settled || key in s.inflight)
    ensures Inv(Called(s, key))
  {
    var s' := Called(s, key);
    var id :| 0 <= id < |s.starts| && s.starts[id] == key;
    assert KeyIsPlaced(s, id);
    forall k ensures k in s'.starts <==> WasCalled(s', k) {
      CalledLogsKey(s, key, k);
    }
    forall id | 0 <= id < |s.starts| ensures KeyIsPlaced(s', id) {
      assert KeyIsPlaced(s, id);
    }
    forall i | 0 <= i < |s'.calls|
      ensures HandleIsRight(s', s'.calls[i].0, s'.calls[i].1)
    {
      if i < |s.calls| {
        assert HandleIsRight(s, s.calls[i].0, s.calls[i].1);
      }
    }
  }

  lemma StartingKeepsInv<V>(s: State<V>, key: Key)
    requires Inv(s) && key !in s.settled && key !in s.inflight
    ensures Inv(Called(s, key))
  {
    var s' := Called(s, key);
    if key in s.starts {
      var id :| 0 <= id < |s.starts| && s.starts[id] == key;
      assert KeyIsPlaced(s, id);
    }
    assert s'.starts[|s.starts|] == key;
    forall k ensures k in s'.starts <==> k in s.starts || k == key {}
    forall k ensures k in s'.starts <==> WasCalled(s', k) {
      CalledLogsKey(s, key, k);
    }
    forall id | 0 <= id < |s'.starts| ensures KeyIsPlaced(s', id) {
      if id < |s.starts| {
        assert KeyIsPlaced(s, id);
        assert s.starts[id] in s.starts;
      }
    }
    forall i | 0 <= i < |s'.calls|
      ensures HandleIsRight(s', s'.calls[i].0, s'.calls[i].1)
    {
      if i < |s.calls| {
        assert HandleIsRight(s, s.calls[i].0, s.calls[i].1);
      }
    }
  }

  lemma SettlingKeepsInv<V>(s: State<V>, e: Event<V>)
    requires Inv(s) && !e.Call? && CanSettle(s, e.id)
    ensures Inv(Apply(s, e))
  {
    var s' := Apply(s, e);
    assert KeyIsPlaced(s, e.id);
    forall id | 0 <= id < |s.starts|
      ensures KeyIsPlaced(s', id)
    {
      assert KeyIsPlaced(s, id);
      assert id != e.id ==> s.starts[id] != s.starts[e.id];
    }
    forall k
      ensures WasCalled(s', k) <==> WasCalled(s, k)
    {
      assert s'.calls == s.calls;
    }
    forall i | 0 <= i < |s'.calls|
      ensures HandleIsRight(s', s'.calls[i].0, s'.calls[i].1)
    {
      assert HandleIsRight(s, s.calls[i].0, s.calls[i].1);
    }
  }

  lemma ApplyKeepsInv<V>(s: State<V>, e: Event<V>)
    requires Inv(s)
    ensures Inv(Apply(s, e))
  {
    if e.Call? {
      if e.key in s.settled || e.key in s.inflight {
        SharingKeepsInv(s, e.key);
      } else {
        StartingKeepsInv(s, e.key);
      }
    } else if CanSettle(s, e.id) {
      SettlingKeepsInv(s, e);
    }
  }

  lemma {:induction false} RunKeepsInv<V>(s: State<V>, events: seq<Event<V>>)
    requires Inv(s)
    ensures Inv(Run(s, events))
  {
    if events != [] {
      RunKeepsInv(s, events[..|events| - 1]);
      ApplyKeepsInv(Run(s, events[..|events| - 1]), events[|events| - 1]);
    }
  }

  lemma EmptyInv<V>()
    ensures Inv<V>(Empty())
  {
  }

  // ---------- Main results ----------

  /** What awaiting the handle yields so far. */
  function Outcome<V>(s: State<V>, h: Handle<V>): Promise<V>
    requires h.Shared? ==> h.id < |s.promises|
  {
    match h
    case Resolved(value) => Fulfilled(value)
    case Shared(id) => s.promises[id]
  }

  /** In every run, even after failures, the work for a key is started exactly once if the key was
      ever called, and never otherwise. */
  lemma WorkStartsOnce<V>(events: seq<Event<V>>, key: Key)
    ensures var s := Run(Empty(), events);
            && Distinct(s.starts)
            && (key in s.starts <==> WasCalled(s, key))
  {
    EmptyInv<V>();
    RunKeepsInv(Empty(), events);
  }

  /** A key that was called is in exactly one of the two maps. */
  lemma CalledKeyIsInOneMap<V>(events: seq<Event<V>>, key: Key)
    requires WasCalled(Run(Empty(), events), key)
    ensures var s := Run(Empty(), events);
            (key in s.settled) != (key in s.inflight)
  {
    EmptyInv<V>();
    RunKeepsInv(Empty(), events);
    var s := Run(Empty(), events);
    var id :| 0 <= id < |s.starts| && s.starts[id] == key;
    assert KeyIsPlaced(s, id);
  }

  /** All callers of a key observe the same outcome at any time: both pending, or both the same
      value, or both the failure. */
  lemma CallersShareOutcome<V>(events: seq<Event<V>>, i: nat, j: nat)
    requires var s := Run(Empty(), events);
             i < |s.calls| && j < |s.calls| && s.calls[i].0 == s.calls[j].0
    ensures var s := Run(Empty(), events);
            && (s.calls[i].1.Shared? ==> s.calls[i].1.id < |s.promises|)
            && (s.calls[j].1.Shared? ==> s.calls[j].1.id < |s.promises|)
            && Outcome(s, s.calls[i].1) == Outcome(s, s.calls[j].1)
  {
    EmptyInv<V>();
    RunKeepsInv(Empty(), events);
    var s := Run(Empty(), events);
    var id := OutcomeOfCall(s, i);
    var id' := OutcomeOfCall(s, j);
    hide Inv, Run, Outcome;
    KeyHasOneWork(s, id, id');
  }

  lemma KeyHasOneWork<V>(s: State<V>, i: PromiseId, j: PromiseId)
    requires Inv(s) && i < |s.starts| && j < |s.starts| && s.starts[i] == s.starts[j]
    ensures i == j
  {
  }

  lemma OutcomeOfCall<V>(s: State<V>, i: nat) returns (id: PromiseId)
    requires Inv(s) && i < |s.calls|
    ensures id < |s.starts| && s.starts[id] == s.calls[i].0
    ensures s.calls[i].1.Shared? ==> s.calls[i].1.id < |s.promises|
    ensures Outcome(s, s.calls[i].1) == s.promises[id]
  {
    var (key, h) := s.calls[i];
    assert HandleIsRight(s, key, h);
    assert WasCalled(s, key);
    id :| 0 <= id < |s.starts| && s.starts[id] == key;
    assert KeyIsPlaced(s, id);
    if h.Shared? {
      assert h.id == id;
    }
  }

  /** An outcome is final, and a call is never forgotten. */
  lemma {:induction false} OutcomesAreFinal<V>(s: State<V>, events: seq<Event<V>>)
    requires Inv(s)
    ensures var s' := Run(s, events);
            && s.calls <= s'.calls && s.starts <= s'.starts
            && |s.promises| <= |s'.promises|
            && forall id :: 0 <= id < |s.promises| && !s.promises[id].Pending? ==> s'.promises[id] == s.promises[id]
  {
    if events != [] {
      OutcomesAreFinal(s, events[..|events| - 1]);
    }
  }

  /** The handle was given to a caller of `key`. */
  ghost predicate WasGiven<V>(s: State<V>, key: Key, h: Handle<V>) {
    exists i :: 0 <= i < |s.calls| && s.calls[i] == (key, h)
  }

  lemma GivenHandlesLead<V>(s: State<V>, id: PromiseId, h: Handle<V>)
    requires Inv(s) && id < |s.starts| && WasGiven(s, s.starts[id], h)
    ensures h.Shared? ==> h.id < |s.promises|
    ensures Outcome(s, h) == s.promises[id]
  {
    var i :| 0 <= i < |s.calls| && s.calls[i] == (s.starts[id], h);
    var id' := OutcomeOfCall(s, i);
    assert id' == id;
  }

  /** When the work for a key succeeds, that is what every caller observes from then on: those that hold a handle,
      and those that call later, who receive the cached value. */
  lemma SuccessIsShared<V>(events: seq<Event<V>>, id: PromiseId, value: V, later: seq<Event<V>>)
    requires var s := Run(Empty(), events);
             id < |s.promises| && id < |s.starts| && s.promises[id].Pending?
    ensures var s := Run(Empty(), events);
            var s' := Run(Apply(s, Fulfil(id, value)), later);
            && HandleFor(s', s.starts[id]) == Resolved(value)
            && forall h :: WasGiven(s', s.starts[id], h) ==>
                 (h.Shared? ==> h.id < |s'.promises|) && Outcome(s', h) == Fulfilled(value)
  {
    EmptyInv<V>();
    RunKeepsInv(Empty(), events);
    var s := Run(Empty(), events);
    var done := Apply(s, Fulfil(id, value));
    ApplyKeepsInv(s, Fulfil(id, value));
    SettlesAndStays(s, id, Fulfil(id, value), later);
    var s' := Run(done, later);
    assert s'.promises[id] == Fulfilled(value);
    assert KeyIsPlaced(s', id);
    forall h | WasGiven(s', s.starts[id], h)
      ensures (h.Shared? ==> h.id < |s'.promises|) && Outcome(s', h) == Fulfilled(value)
    {
      GivenHandlesLead(s', id, h);
    }
  }

  lemma SettlesAndStays<V>(s: State<V>, id: PromiseId, e: Event<V>, later: seq<Event<V>>)
    requires Inv(s) && id < |s.promises| && s.promises[id].Pending? && !e.Call? && e.id == id
    ensures var s' := Run(Apply(s, e), later);
            && Inv(s') && id < |s'.starts| && s'.starts[id] == s.starts[id]
            && s'.promises[id] == match e case Fulfil(_, value) => Fulfilled(value) case _ => Rejected
  {
    ApplyKeepsInv(s, e);
    OutcomesAreFinal(Apply(s, e), later);
    RunKeepsInv(Apply(s, e), later);
  }

  /** When it fails, every caller of the key observes the failure, also those that call later. */
  lemma FailureReachesEveryCaller<V>(events: seq<Event<V>>, id: PromiseId, later: seq<Event<V>>)
    requires var s := Run(Empty(), events);
             id < |s.promises| && id < |s.starts| && s.promises[id].Pending?
    ensures var s := Run(Empty(), events);
            var s' := Run(Apply(s, Reject(id)), later);
            && HandleFor(s', s.starts[id]) == Shared(id)
            && forall h :: WasGiven(s', s.starts[id], h) ==>
                 (h.Shared? ==> h.id < |s'.promises|) && Outcome(s', h) == Rejected
  {
    EmptyInv<V>();
    RunKeepsInv(Empty(), events);
    var s := Run(Empty(), events);
    SettlesAndStays(s, id, Reject(id), later);
    var s' := Run(Apply(s, Reject(id)), later);
    assert KeyIsPlaced(s', id);
    forall h | WasGiven(s', s.starts[id], h)
      ensures (h.Shared? ==> h.id < |s'.promises|) && Outcome(s', h) == Rejected
    {
      GivenHandlesLead(s', id, h);
    }
  }

  /** A call is logged with its handle, and only the first call for a key finds nothing and starts the work. */
  lemma CallIsLogged<V>(events: seq<Event<V>>, key: Key)
    ensures var s := Run(Empty(), events);
            var s' := Run(Empty(), events + [Call(key)]);
            && s'.calls == s.calls + [(key, HandleFor(s, key))]
            && s'.starts == (if WasCalled(s, key) then s.starts else s.starts + [key])
            && (!WasCalled(s, key) ==>
                  && HandleFor(s, key) == Shared(|s.promises|)
                  && s'.promises == s.promises + [Pending])
  {
    EmptyInv<V>();
    RunKeepsInv(Empty(), events);
    var s := Run(Empty(), events);
    assert (events + [Call(key)])[..|events|] == events;
    if key in s.starts {
      var id :| 0 <= id < |s.starts| && s.starts[id] == key;
      assert KeyIsPlaced(s, id);
    }
  }

  /** A failure is final too: after it, every later call for the key receives the failed promise. */
  lemma FailureIsShared<V>(events: seq<Event<V>>, id: PromiseId, later: seq<Event<V>>)
    requires var s := Run(Empty(), events);
             id < |s.promises| && id < |s.starts| && s.promises[id].Rejected?
    ensures var s := Run(Empty(), events);
            var s' := Run(s, later);
            HandleFor(s', s.starts[id]) == Shared(id)
  {
    EmptyInv<V>();
    RunKeepsInv(Empty(), events);
    var s := Run(Empty(), events);
    OutcomesAreFinal(s, later);
    RunKeepsInv(s, later);
    assert KeyIsPlaced(Run(s, later), id);
  }
}
