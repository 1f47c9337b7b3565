/**
 Two-phase initialization of the shared HTTP client, as a system of threads that take atomic
 steps in any order: callers of `activate`, the two tasks a winning caller spawns, and callers
 of `get_or_init`. A client build may succeed or fail at every attempt.
 */
module SharedHttpClient {
  import opened Wrappers

  type Client = nat

  type ThreadId = nat

  /** Where a caller of `activate` is: each step performs the operation it is named after. */
  datatype Activator = LoadNative | CompareExchange | SpawnFast | SpawnNative | Finished

  datatype FastTask = CheckFast | BuildFast | SetFast(client: Client) | FastDone

  datatype NativeTask =
    | BuildNative
    | SetNative(client: Client)
    | CheckFallback
    | BuildFallback
    | SetFallback(client: Client)
    | StoreWarming
    | NativeDone

  datatype Source = FromNative | FromFast | FromOwnBuild

  datatype Getter =
    | GetNative
    | GetFast
    | RecheckFast
    | BuildOwn
    | SetOwn(client: Client)
    | Returned(result: Option<Client>, source: Source)

  /** A spawned task carries the identity of the activation that spawned it. */
  datatype State = State(
    fast: Option<Client>,
    native: Option<Client>,
    warming: bool,
    activators: map<ThreadId, Activator>,
    fastTasks: map<ThreadId, FastTask>,
    nativeTasks: map<ThreadId, NativeTask>,
    getters: map<ThreadId, Getter>)

  const INITIAL := State(None, None, false, map[], map[], map[], map[])

  /** One atomic step; `built` is the outcome in case the step builds a client. */
  datatype Action =
    | StartActivate(t: ThreadId)
    | StartGet(t: ThreadId)
    | RunActivator(t: ThreadId)
    | RunFast(t: ThreadId, built: Option<Client>)
    | RunNative(t: ThreadId, built: Option<Client>)
    | RunGetter(t: ThreadId, built: Option<Client>)

  /** Setting a slot that is already set changes nothing. */
  function SetOnce(slot: Option<Client>, client: Client): Option<Client> {
    if slot.Some? then slot else Some(client)
  }

  function StepActivator(s: State, t: ThreadId): Option<State>
    requires t in s.activators
  {
    match s.activators[t]
    case LoadNative =>
      Some(s.(activators := s.activators[t := if s.native.Some? then Finished else CompareExchange]))
    case CompareExchange =>
      if s.warming then Some(s.(activators := s.activators[t := Finished]))
      else Some(s.(warming := true, activators := s.activators[t := SpawnFast]))
    case SpawnFast =>
      Some(s.(fastTasks := s.fastTasks[t := CheckFast], activators := s.activators[t := SpawnNative]))
    case SpawnNative =>
      Some(s.(nativeTasks := s.nativeTasks[t := BuildNative], activators := s.activators[t := Finished]))
    case Finished => None
  }

  function StepFast(s: State, t: ThreadId, built: Option<Client>): Option<State>
    requires t in s.fastTasks
  {
    match s.fastTasks[t]
    case CheckFast =>
      Some(s.(fastTasks := s.fastTasks[t := if s.fast.None? then BuildFast else FastDone]))
    case BuildFast =>
      Some(s.(fastTasks := s.fastTasks[t := if built.Some? then SetFast(built.value) else FastDone]))
    case SetFast(client) =>
      Some(s.(fast := SetOnce(s.fast, client), fastTasks := s.fastTasks[t := FastDone]))
    case FastDone => None
  }

  function StepNative(s: State, t: ThreadId, built: Option<Client>): Option<State>
    requires t in s.nativeTasks
  {
    match s.nativeTasks[t]
    case BuildNative =>
      Some(s.(nativeTasks := s.nativeTasks[t := if built.Some? then SetNative(built.value) else CheckFallback]))
    case SetNative(client) =>
      Some(s.(native := SetOnce(s.native, client), nativeTasks := s.nativeTasks[t := StoreWarming]))
    case CheckFallback =>
      Some(s.(nativeTasks := s.nativeTasks[t := if s.fast.None? then BuildFallback else StoreWarming]))
    case BuildFallback =>
      Some(s.(nativeTasks := s.nativeTasks[t := if built.Some? then SetFallback(built.value) else StoreWarming]))
    case SetFallback(client) =>
      Some(s.(fast := SetOnce(s.fast, client), nativeTasks := s.nativeTasks[t := StoreWarming]))
    case StoreWarming =>
      Some(s.(warming := false, nativeTasks := s.nativeTasks[t := NativeDone]))
    case NativeDone => None
  }

  function StepGetter(s: State, t: ThreadId, built: Option<Client>): Option<State>
    requires t in s.getters
  {
    match s.getters[t]
    case GetNative =>
      Some(s.(getters := s.getters[t := if s.native.Some? then Returned(s.native, FromNative) else GetFast]))
    case GetFast =>
      Some(s.(getters := s.getters[t := if s.fast.Some? then Returned(s.fast, FromFast) else RecheckFast]))
    case RecheckFast =>
      Some(s.(getters := s.getters[t := if s.fast.Some? then Returned(s.fast, FromFast) else BuildOwn]))
    case BuildOwn =>
      Some(s.(getters := s.getters[t := if built.Some? then SetOwn(built.value) else Returned(None, FromOwnBuild)]))
    case SetOwn(client) =>
      Some(s.(fast := SetOnce(s.fast, client), getters := s.getters[t := Returned(Some(client), FromOwnBuild)]))
    case Returned(_, _) => None
  }

  /** The state after an action, or `None` when no such thread can take a step. */
  function Step(s: State, a: Action): Option<State> {
    match a
    case StartActivate(t) =>
      if t in s.activators then None else Some(s.(activators := s.activators[t := LoadNative]))
    case StartGet(t) =>
      if t in s.getters then None else Some(s.(getters := s.getters[t := GetNative]))
    case RunActivator(t) => if t in s.activators then StepActivator(s, t) else None
    case RunFast(t, built) => if t in s.fastTasks then StepFast(s, t, built) else None
    case RunNative(t, built) => if t in s.nativeTasks then StepNative(s, t, built) else None
    case RunGetter(t, built) => if t in s.getters then StepGetter(s, t, built) else None
  }

  function StepOrStay(s: State, a: Action): State {
    match Step(s, a)
    case Some(s') => s'
    case None => s
  }

  // ---------- The shared slots and flag, updated in place ----------

  class SharedSystem {
    var fastClient: Option<Client>
    var nativeClient: Option<Client>
    var warming: bool
    var activators: map<ThreadId, Activator>
    var fastTasks: map<ThreadId, FastTask>
    var nativeTasks: map<ThreadId, NativeTask>
    var getters: map<ThreadId, Getter>

    constructor ()
      ensures View() == INITIAL
    {
      fastClient, nativeClient, warming := None, None, false;
      activators, fastTasks, nativeTasks, getters := map[], map[], map[], map[];
    }

    function View(): State
      reads this
    {
      State(fastClient, nativeClient, warming, activators, fastTasks, nativeTasks, getters)
    }

    method StartActivate(t: ThreadId)
      modifies this
      ensures View() == StepOrStay(old(View()), Action.StartActivate(t))
    {
      if t !in activators {
        activators := activators[t := LoadNative];
      }
    }

    method StartGet(t: ThreadId)
      modifies this
      ensures View() == StepOrStay(old(View()), Action.StartGet(t))
    {
      if t !in getters {
        getters := getters[t := GetNative];
      }
    }

    /** The next operation of `activate`. */
    method Activate(t: ThreadId)
      modifies this
      ensures View() == StepOrStay(old(View()), RunActivator(t))
    {
      if t !in activators { return; }
      match activators[t] {
        case LoadNative =>
          activators := activators[t := if nativeClient.Some? then Finished else CompareExchange];
        case CompareExchange =>
          if warming {
            activators := activators[t := Finished];
          } else {
            warming := true;
            activators := activators[t := SpawnFast];
          }
        case SpawnFast =>
          fastTasks := fastTasks[t := CheckFast];
          activators := activators[t := SpawnNative];
        case SpawnNative =>
          nativeTasks := nativeTasks[t := BuildNative];
          activators := activators[t := Finished];
        case Finished =>
      }
    }

    /** The next operation of the spawned fast build. */
    method BuildFastInBackground(t: ThreadId, built: Option<Client>)
      modifies this
      ensures View() == StepOrStay(old(View()), RunFast(t, built))
    {
      if t !in fastTasks { return; }
      match fastTasks[t] {
        case CheckFast => fastTasks := fastTasks[t := if fastClient.None? then BuildFast else FastDone];
        case BuildFast => fastTasks := fastTasks[t := if built.Some? then SetFast(built.value) else FastDone];
        case SetFast(client) =>
          if fastClient.None? {
            fastClient := Some(client);
          }
          fastTasks := fastTasks[t := FastDone];
        case FastDone =>
      }
    }

    /** The next operation of the spawned native build. */
    method BuildNativeInBackground(t: ThreadId, built: Option<Client>)
      modifies this
      ensures View() == StepOrStay(old(View()), RunNative(t, built))
    {
      if t !in nativeTasks { return; }
      match nativeTasks[t] {
        case BuildNative =>
          nativeTasks := nativeTasks[t := if built.Some? then SetNative(built.value) else CheckFallback];
        case SetNative(client) =>
          if nativeClient.None? {
            nativeClient := Some(client);
          }
          nativeTasks := nativeTasks[t := StoreWarming];
        case CheckFallback =>
          nativeTasks := nativeTasks[t := if fastClient.None? then BuildFallback else StoreWarming];
        case BuildFallback =>
          nativeTasks := nativeTasks[t := if built.Some? then SetFallback(built.value) else StoreWarming];
        case SetFallback(client) =>
          if fastClient.None? {
            fastClient := Some(client);
          }
          nativeTasks := nativeTasks[t := StoreWarming];
        case StoreWarming =>
          warming := false;
          nativeTasks := nativeTasks[t := NativeDone];
        case NativeDone =>
      }
    }

    /** The next operation of `get_or_init`. */
    method GetOrInit(t: ThreadId, built: Option<Client>)
      modifies this
      ensures View() == StepOrStay(old(View()), RunGetter(t, built))
    {
      if t !in getters { return; }
      match getters[t] {
        case GetNative =>
          getters := getters[t := if nativeClient.Some? then Returned(nativeClient, FromNative) else GetFast];
        case GetFast =>
          getters := getters[t := if fastClient.Some? then Returned(fastClient, FromFast) else RecheckFast];
        case RecheckFast =>
          getters := getters[t := if fastClient.Some? then Returned(fastClient, FromFast) else BuildOwn];
        case BuildOwn =>
          getters := getters[t := if built.Some? then SetOwn(built.value) else Returned(None, FromOwnBuild)];
        case SetOwn(client) =>
          if fastClient.None? {
            fastClient := Some(client);
          }
          getters := getters[t := Returned(Some(client), FromOwnBuild)];
        case Returned(_, _) =>
      }
    }

    method Perform(a: Action)
      modifies this
      ensures View() == StepOrStay(old(View()), a)
    {
      match a {
        case StartActivate(t) => StartActivate(t);
        case StartGet(t) => StartGet(t);
        case RunActivator(t) => Activate(t);
        case RunFast(t, built) => BuildFastInBackground(t, built);
        case RunNative(t, built) => BuildNativeInBackground(t, built);
        case RunGetter(t, built) => GetOrInit(t, built);
      }
    }
  }

  // ---------- Runs ----------

  ghost predicate Next(s: State, s': State) {
    exists a :: Step(s, a) == Some(s')
  }

  ghost predicate IsRunFrom(start: State, run: seq<State>) {
    && run != [] && run[0] == start
    && forall i, j :: 0 <= i && j == i + 1 && j < |run| ==> Next(run[i], run[j])
  }

  ghost predicate IsRun(run: seq<State>) {
    IsRunFrom(INITIAL, run)
  }

  /** Some run from `start` ends in `s`. */
  ghost predicate Leads(start: State, s: State) {
    exists run :: IsRunFrom(start, run) && run[|run| - 1] == s
  }

  /** The activation is past its winning compare-exchange and has not yet stored false again. */
  ghost predicate Holds(s: State, t: ThreadId) {
    || (t in s.activators && (s.activators[t] == SpawnFast || s.activators[t] == SpawnNative))
    || (t in s.nativeTasks && s.nativeTasks[t] != NativeDone)
  }

  /** A native build of this activation is in progress. */
  ghost predicate Building(s: State, t: ThreadId) {
    t in s.nativeTasks && s.nativeTasks[t] == BuildNative
  }

  /** The native build of the task has failed, and it looks for another client. */
  predicate FallingBack(task: NativeTask) {
    task == CheckFallback || task == BuildFallback || task.SetFallback?
  }

  ghost predicate OneHolder(s: State) {
    && (s.warming <==> exists t :: Holds(s, t))
    && forall t, u :: Holds(s, t) && Holds(s, u) ==> t == u
  }

  /** Tasks belong to activations that have reached the corresponding spawn. */
  ghost predicate TasksHaveOwners(s: State) {
    && (forall t :: t in s.fastTasks ==>
          t in s.activators && (s.activators[t] == SpawnNative || s.activators[t] == Finished))
    && (forall t :: t in s.nativeTasks ==> t in s.activators && s.activators[t] == Finished)
  }

  ghost predicate ReturnsAreSlots(s: State) {
    forall t :: t in s.getters && s.getters[t].Returned? ==>
      match s.getters[t].source
      case FromNative => s.native.Some? && s.getters[t].result == s.native
      case FromFast => s.fast.Some? && s.getters[t].result == s.fast
      case FromOwnBuild => s.getters[t].result.Some? ==> s.fast.Some?
  }

  ghost predicate Inv(s: State) {
    OneHolder(s) && TasksHaveOwners(s) && ReturnsAreSlots(s)
  }

  lemma HolderIsKeptByActivator(s: State, t: ThreadId, s': State)
    requires OneHolder(s) && TasksHaveOwners(s) && t in s.activators && StepActivator(s, t) == Some(s')
    ensures OneHolder(s')
  {
    forall u | u != t ensures Holds(s', u) <==> Holds(s, u) {}
    match s.activators[t] {
      case LoadNative => assert !Holds(s, t) && !Holds(s', t);
      case CompareExchange =>
        assert !Holds(s, t);
        assert Holds(s', t) <==> !s.warming;
      case SpawnFast => assert Holds(s, t) && Holds(s', t);
      case SpawnNative => assert Holds(s, t) && Holds(s', t);
    }
  }

  lemma HolderIsKeptByNative(s: State, t: ThreadId, built: Option<Client>, s': State)
    requires OneHolder(s) && TasksHaveOwners(s) && t in s.nativeTasks && StepNative(s, t, built) == Some(s')
    ensures OneHolder(s')
  {
    forall u | u != t ensures Holds(s', u) <==> Holds(s, u) {}
    assert Holds(s, t);
    assert Holds(s', t) <==> !s.nativeTasks[t].StoreWarming?;
  }

  lemma HolderIsKept(s: State, a: Action, s': State)
    requires OneHolder(s) && TasksHaveOwners(s) && Step(s, a) == Some(s')
    ensures OneHolder(s')
  {
    match a {
      case RunActivator(t) => HolderIsKeptByActivator(s, t, s');
      case RunNative(t, built) => HolderIsKeptByNative(s, t, built, s');
      case _ => forall u ensures Holds(s', u) <==> Holds(s, u) {}
    }
  }

  // What a step of each kind of thread may change.

  lemma ActivatorFrame(s: State, t: ThreadId, s': State)
    requires t in s.activators && StepActivator(s, t) == Some(s')
    ensures s'.fast == s.fast && s'.native == s.native && s'.getters == s.getters
    ensures s'.activators == s.activators[t := s'.activators[t]] && s.activators[t] != Finished
    ensures s.activators[t] != LoadNative || s.native.None? || s'.activators[t] == Finished
    ensures s'.activators[t] == SpawnNative || s'.activators[t] == Finished || s.activators[t] == LoadNative
         || s.activators[t] == CompareExchange
    ensures s'.fastTasks == if s.activators[t] == SpawnFast then s.fastTasks[t := CheckFast] else s.fastTasks
    ensures s'.nativeTasks == if s.activators[t] == SpawnNative then s.nativeTasks[t := BuildNative] else s.nativeTasks
    ensures s.activators[t] == SpawnFast ==> s'.activators[t] == SpawnNative
    ensures s.activators[t] == SpawnNative ==> s'.activators[t] == Finished
  {
    match s.activators[t] {
      case LoadNative =>
      case CompareExchange =>
      case SpawnFast =>
      case SpawnNative =>
    }
  }

  lemma FastFrame(s: State, t: ThreadId, built: Option<Client>, s': State)
    requires t in s.fastTasks && StepFast(s, t, built) == Some(s')
    ensures s'.native == s.native && s'.warming == s.warming && s'.activators == s.activators
    ensures s'.nativeTasks == s.nativeTasks && s'.getters == s.getters
    ensures s.fast.Some? ==> s'.fast == s.fast
    ensures s'.fastTasks == s.fastTasks[t := s'.fastTasks[t]]
    ensures s.fastTasks[t] != FastDone
    ensures s.fast.Some? && s.fastTasks[t] == CheckFast ==> s'.fastTasks[t] == FastDone
  {
    match s.fastTasks[t] {
      case CheckFast =>
      case BuildFast =>
      case SetFast(_) =>
    }
  }

  lemma NativeFrame(s: State, t: ThreadId, built: Option<Client>, s': State)
    requires t in s.nativeTasks && StepNative(s, t, built) == Some(s')
    ensures s'.activators == s.activators && s'.fastTasks == s.fastTasks && s'.getters == s.getters
    ensures s.fast.Some? ==> s'.fast == s.fast
    ensures s.native.Some? ==> s'.native == s.native
    ensures s'.nativeTasks == s.nativeTasks[t := s'.nativeTasks[t]] && s'.nativeTasks[t] != BuildNative
    ensures s.fast.Some? && s.nativeTasks[t] == CheckFallback ==> s'.nativeTasks[t] == StoreWarming
    ensures s.nativeTasks[t] == StoreWarming ==> s'.nativeTasks[t] == NativeDone
    ensures s.nativeTasks[t].SetNative? ==> s'.nativeTasks[t] == StoreWarming
    ensures s'.nativeTasks[t] == StoreWarming ==>
              || s'.fast.Some? || s'.native.Some?
              || (s.nativeTasks[t] == BuildFallback && built == None)
    ensures s'.nativeTasks[t] == CheckFallback ==> s.nativeTasks[t] == BuildNative && built == None
    ensures FallingBack(s'.nativeTasks[t]) && s'.nativeTasks[t] != CheckFallback ==> FallingBack(s.nativeTasks[t])
  {
    match s.nativeTasks[t] {
      case BuildNative =>
      case SetNative(_) =>
      case CheckFallback =>
      case BuildFallback =>
      case SetFallback(_) =>
      case StoreWarming =>
    }
  }

  lemma GetterFrame(s: State, t: ThreadId, built: Option<Client>, s': State)
    requires t in s.getters && StepGetter(s, t, built) == Some(s')
    ensures s'.native == s.native && s'.warming == s.warming && s'.activators == s.activators
    ensures s'.fastTasks == s.fastTasks && s'.nativeTasks == s.nativeTasks
    ensures s.fast.Some? ==> s'.fast == s.fast
    ensures s'.getters == s.getters[t := s'.getters[t]] && !s.getters[t].Returned?
    ensures s.getters[t] == GetNative && s.native.Some? ==> s'.getters[t] == Returned(s.native, FromNative)
    ensures s'.getters[t].Returned? ==>
              match s'.getters[t].source
              case FromNative => s'.native.Some? && s'.getters[t].result == s'.native
              case FromFast => s'.fast.Some? && s'.getters[t].result == s'.fast
              case FromOwnBuild => s'.getters[t].result.Some? ==> s'.fast.Some?
  {
    match s.getters[t] {
      case GetNative =>
      case GetFast =>
      case RecheckFast =>
      case BuildOwn =>
      case SetOwn(_) =>
    }
  }

  lemma SlotsAreKept(s: State, a: Action, s': State)
    requires Step(s, a) == Some(s')
    ensures s.fast.Some? ==> s'.fast == s.fast
    ensures s.native.Some? ==> s'.native == s.native
  {
    hide StepActivator, StepFast, StepNative, StepGetter;
    match a {
      case StartActivate(_) =>
      case StartGet(_) =>
      case RunActivator(t) => ActivatorFrame(s, t, s');
      case RunFast(t, built) => FastFrame(s, t, built, s');
      case RunNative(t, built) => NativeFrame(s, t, built, s');
      case RunGetter(t, built) => GetterFrame(s, t, built, s');
    }
  }

  lemma OwnersAreKept(s: State, a: Action, s': State)
    requires TasksHaveOwners(s) && Step(s, a) == Some(s')
    ensures TasksHaveOwners(s')
  {
    hide StepActivator, StepFast, StepNative, StepGetter;
    match a {
      case StartActivate(_) =>
      case StartGet(_) =>
      case RunActivator(t) => ActivatorFrame(s, t, s');
      case RunFast(t, built) => FastFrame(s, t, built, s');
      case RunNative(t, built) => NativeFrame(s, t, built, s');
      case RunGetter(t, built) => GetterFrame(s, t, built, s');
    }
  }

  lemma ReturnsStaySlots(s: State, a: Action, s': State)
    requires ReturnsAreSlots(s) && Step(s, a) == Some(s')
    ensures ReturnsAreSlots(s')
  {
    hide StepActivator, StepFast, StepNative, StepGetter;
    match a {
      case StartActivate(_) =>
      case StartGet(_) =>
      case RunActivator(t) => ActivatorFrame(s, t, s');
      case RunFast(t, built) => FastFrame(s, t, built, s');
      case RunNative(t, built) => NativeFrame(s, t, built, s');
      case RunGetter(t, built) => GetterFrame(s, t, built, s');
    }
  }

  lemma InvIsKept(s: State, a: Action, s': State)
    requires Inv(s) && Step(s, a) == Some(s')
    ensures Inv(s')
  {
    HolderIsKept(s, a, s');
    OwnersAreKept(s, a, s');
    ReturnsStaySlots(s, a, s');
  }

  lemma {:induction false} InvHolds(run: seq<State>, i: nat)
    requires IsRun(run) && i < |run|
    ensures Inv(run[i])
  {
    hide Step;
    if i > 0 {
      InvHolds(run, i - 1);
      assert Next(run[i - 1], run[i]);
      var a :| Step(run[i - 1], a) == Some(run[i]);
      InvIsKept(run[i - 1], a, run[i]);
    }
  }

  // ---------- Main results ----------

  /** In every interleaving the flag is set exactly while one activation holds it, so at most one
      native build is live. */
  lemma WarmingMeansOneLiveActivation(run: seq<State>, i: nat)
    requires IsRun(run) && i < |run|
    ensures run[i].warming <==> exists t :: Holds(run[i], t)
    ensures forall t, u :: Holds(run[i], t) && Holds(run[i], u) ==> t == u
    ensures forall t, u :: Building(run[i], t) && Building(run[i], u) ==> t == u
  {
    InvHolds(run, i);
    assert forall t :: Building(run[i], t) ==> Holds(run[i], t);
  }

  /** At step `i` of the run, task `t` was at `stage` and the build it tried there failed. */
  ghost predicate FailedAt(run: seq<State>, i: int, t: ThreadId, stage: NativeTask) {
    && 0 <= i < i + 1 < |run|
    && t in run[i].nativeTasks && run[i].nativeTasks[t] == stage
    && Step(run[i], RunNative(t, None)) == Some(run[i + 1])
  }

  ghost predicate NativeFailedBefore(run: seq<State>, i: int, t: ThreadId) {
    exists j :: 0 <= j < i && FailedAt(run, j, t, BuildNative)
  }

  ghost predicate BothFailedBefore(run: seq<State>, i: int, t: ThreadId) {
    exists j, k :: 0 <= j < k < i && FailedAt(run, j, t, BuildNative) && FailedAt(run, k, t, BuildFallback)
  }

  ghost predicate FailuresAreLogged(run: seq<State>, i: int, t: ThreadId)
    requires 0 <= i < |run|
  {
    var s := run[i];
    t in s.nativeTasks ==>
      && (FallingBack(s.nativeTasks[t]) ==> NativeFailedBefore(run, i, t))
      && (s.nativeTasks[t] == StoreWarming && s.fast.None? && s.native.None? ==> BothFailedBefore(run, i, t))
  }

  /** Once logged, a failure stays logged. */
  lemma FailuresStayLogged(run: seq<State>, i: int, t: ThreadId)
    ensures NativeFailedBefore(run, i, t) ==> NativeFailedBefore(run, i + 1, t)
    ensures BothFailedBefore(run, i, t) ==> BothFailedBefore(run, i + 1, t)
  {
    hide FailedAt;
  }

  lemma NativeStepIsLogged(run: seq<State>, i: int, t: ThreadId, built: Option<Client>)
    requires 0 <= i < i + 1 < |run| && FailuresAreLogged(run, i, t)
    requires t in run[i].nativeTasks && Step(run[i], RunNative(t, built)) == Some(run[i + 1])
    ensures FailuresAreLogged(run, i + 1, t)
  {
    hide StepNative;
    NativeFrame(run[i], t, built, run[i + 1]);
    FailuresStayLogged(run, i, t);
    var task := run[i].nativeTasks[t];
    if task == BuildNative && built == None {
      assert FailedAt(run, i, t, BuildNative);
    }
    if task == BuildFallback && built == None {
      var j :| 0 <= j < i && FailedAt(run, j, t, BuildNative);
      assert FailedAt(run, i, t, BuildFallback);
      assert BothFailedBefore(run, i + 1, t);
    }
  }

  lemma OtherStepIsLogged(run: seq<State>, i: int, t: ThreadId, a: Action)
    requires 0 <= i < i + 1 < |run| && FailuresAreLogged(run, i, t)
    requires Step(run[i], a) == Some(run[i + 1]) && !(a.RunNative? && a.t == t)
    ensures FailuresAreLogged(run, i + 1, t)
  {
    hide StepActivator, StepFast, StepNative, StepGetter, NativeFailedBefore, BothFailedBefore;
    FailuresStayLogged(run, i, t);
    SlotsAreKept(run[i], a, run[i + 1]);
    match a {
      case StartActivate(_) =>
      case StartGet(_) =>
      case RunActivator(u) => ActivatorFrame(run[i], u, run[i + 1]);
      case RunFast(u, built) => FastFrame(run[i], u, built, run[i + 1]);
      case RunNative(u, built) => NativeFrame(run[i], u, built, run[i + 1]);
      case RunGetter(u, built) => GetterFrame(run[i], u, built, run[i + 1]);
    }
  }

  lemma RunningTaskExists(s: State, t: ThreadId, built: Option<Client>)
    ensures Step(s, RunNative(t, built)).Some? ==> t in s.nativeTasks
  {
  }

  lemma {:induction false} FailuresAreAlwaysLogged(run: seq<State>, i: nat, t: ThreadId)
    requires IsRun(run) && i < |run|
    ensures FailuresAreLogged(run, i, t)
  {
    hide Step, NativeFailedBefore, BothFailedBefore;
    if i > 0 {
      FailuresAreAlwaysLogged(run, i - 1, t);
      assert Next(run[i - 1], run[i]);
      var a :| Step(run[i - 1], a) == Some(run[i]);
      assert run[i - 1 + 1] == run[i];
      if a.RunNative? && a.t == t {
        RunningTaskExists(run[i - 1], t, a.built);
        NativeStepIsLogged(run, i - 1, t, a.built);
      } else {
        OtherStepIsLogged(run, i - 1, t, a);
      }
    }
  }

  /** When the flag is about to be cleared while no client is available, the run has seen two failed builds
      of that task: the native one, and later the fallback. */
  lemma ClearingWithoutClientMeansBothFailed(run: seq<State>, i: nat, t: ThreadId)
    requires IsRun(run) && i < |run|
    requires t in run[i].nativeTasks && run[i].nativeTasks[t] == StoreWarming
    requires run[i].fast.None? && run[i].native.None?
    ensures exists j, k :: 0 <= j < k < i && FailedAt(run, j, t, BuildNative) && FailedAt(run, k, t, BuildFallback)
  {
    hide FailedAt;
    FailuresAreAlwaysLogged(run, i, t);
    assert BothFailedBefore(run, i, t);
  }

  /** A set slot never changes. */
  lemma {:induction false} SlotsAreWriteOnce(run: seq<State>, i: nat, j: nat)
    requires IsRun(run) && i <= j < |run|
    ensures run[i].fast.Some? ==> run[j].fast == run[i].fast
    ensures run[i].native.Some? ==> run[j].native == run[i].native
  {
    hide Step;
    if i < j {
      SlotsAreWriteOnce(run, i, j - 1);
      assert Next(run[j - 1], run[j]);
      var a :| Step(run[j - 1], a) == Some(run[j]);
      SlotsAreKept(run[j - 1], a, run[j]);
    }
  }

  /** Activations that started after `since` have at most looked at the native slot. */
  ghost predicate LateActivationsIdle(since: State, s: State) {
    forall t :: t in s.activators && t !in since.activators ==>
      && (s.activators[t] == LoadNative || s.activators[t] == Finished)
      && t !in s.fastTasks && t !in s.nativeTasks
  }

  lemma LateActivationsStayIdle(since: State, s: State, a: Action, s': State)
    requires s.native.Some? && TasksHaveOwners(s) && LateActivationsIdle(since, s)
    requires Step(s, a) == Some(s')
    ensures LateActivationsIdle(since, s')
  {
    hide StepActivator, StepFast, StepNative, StepGetter;
    match a {
      case StartActivate(_) =>
      case StartGet(_) =>
      case RunActivator(t) => ActivatorFrame(s, t, s');
      case RunFast(t, built) => FastFrame(s, t, built, s');
      case RunNative(t, built) => NativeFrame(s, t, built, s');
      case RunGetter(t, built) => GetterFrame(s, t, built, s');
    }
  }

  /** Once the native client is set, activations that start later spawn nothing. */
  lemma {:induction false} LateActivationSpawnsNothing(run: seq<State>, i: nat, j: nat)
    requires IsRun(run) && i <= j < |run| && run[i].native.Some?
    ensures LateActivationsIdle(run[i], run[j])
  {
    hide Step;
    if i < j {
      LateActivationSpawnsNothing(run, i, j - 1);
      SlotsAreWriteOnce(run, i, j - 1);
      InvHolds(run, j - 1);
      assert Next(run[j - 1], run[j]);
      var a :| Step(run[j - 1], a) == Some(run[j]);
      LateActivationsStayIdle(run[i], run[j - 1], a, run[j]);
    }
  }

  /** Getters that started after `since` return the native client that was set then. */
  ghost predicate LateGettersReturn(since: State, s: State) {
    forall t :: t in s.getters && t !in since.getters ==>
      s.getters[t] == GetNative || s.getters[t] == Returned(since.native, FromNative)
  }

  lemma LateGettersStep(since: State, s: State, a: Action, s': State)
    requires since.native.Some? && s.native == since.native && LateGettersReturn(since, s)
    requires Step(s, a) == Some(s')
    ensures LateGettersReturn(since, s')
  {
    hide StepActivator, StepFast, StepNative, StepGetter;
    match a {
      case StartActivate(_) =>
      case StartGet(_) =>
      case RunActivator(t) => ActivatorFrame(s, t, s');
      case RunFast(t, built) => FastFrame(s, t, built, s');
      case RunNative(t, built) => NativeFrame(s, t, built, s');
      case RunGetter(t, built) => GetterFrame(s, t, built, s');
    }
  }

  lemma {:induction false} LateGettersFindNative(run: seq<State>, i: nat, j: nat)
    requires IsRun(run) && i <= j < |run| && run[i].native.Some?
    ensures LateGettersReturn(run[i], run[j])
  {
    hide Step;
    if i < j {
      LateGettersFindNative(run, i, j - 1);
      SlotsAreWriteOnce(run, i, j - 1);
      assert Next(run[j - 1], run[j]);
      var a :| Step(run[j - 1], a) == Some(run[j]);
      LateGettersStep(run[i], run[j - 1], a, run[j]);
    }
  }

  /** Once a getter has returned the native client, every getter that starts later returns the same one. */
  lemma NativeClientStays(run: seq<State>, i: nat, j: nat, first: ThreadId, later: ThreadId)
    requires IsRun(run) && i <= j < |run|
    requires first in run[i].getters && run[i].getters[first].Returned? && run[i].getters[first].source == FromNative
    requires later !in run[i].getters && later in run[j].getters && run[j].getters[later].Returned?
    ensures run[j].getters[later] == run[i].getters[first]
  {
    InvHolds(run, i);
    LateGettersFindNative(run, i, j);
  }

  /** A getter fails only by its own failed build: whenever it returns a client, some slot is set from then on. */
  lemma ReturnedClientsAreBacked(run: seq<State>, i: nat, j: nat, t: ThreadId)
    requires IsRun(run) && i <= j < |run|
    requires t in run[i].getters && run[i].getters[t].Returned?
    ensures run[i].getters[t].result.Some? ==> run[j].fast.Some? || run[j].native.Some?
    ensures run[i].getters[t].result.None? ==> run[i].getters[t].source == FromOwnBuild
  {
    InvHolds(run, i);
    SlotsAreWriteOnce(run, i, j);
  }

  /** The client that getter `t` has returned is the one in a slot, and not one it built itself. */
  ghost predicate TookSlot(s: State, g: Getter) {
    && g.Returned? && g.result.Some?
    && ((g.source == FromNative && g.result == s.native) || (g.source == FromFast && g.result == s.fast))
  }

  /** Getters that started after `since`, when a slot was set, take a client from a slot, and the native one if
      that was set. */
  ghost predicate LateGettersTakeSlot(since: State, s: State) {
    forall t :: t in s.getters && t !in since.getters ==>
      || s.getters[t] == GetNative
      || (s.getters[t] == GetFast && s.fast.Some? && since.native.None?)
      || (TookSlot(s, s.getters[t]) && (since.native.Some? ==> s.getters[t].source == FromNative))
  }

  lemma LateGetterStepTakesSlot(since: State, s: State, t: ThreadId, built: Option<Client>, s': State)
    requires (s.fast.Some? || s.native.Some?) && (since.native.Some? ==> s.native == since.native)
    requires since.native.None? ==> s.fast.Some?
    requires LateGettersTakeSlot(since, s) && t in s.getters && StepGetter(s, t, built) == Some(s')
    ensures LateGettersTakeSlot(since, s')
  {
    GetterFrame(s, t, built, s');
    forall u | u in s'.getters && u !in since.getters && u != t
      ensures s'.getters[u] == s.getters[u]
    {
    }
  }

  lemma LateGettersKeepTaking(since: State, s: State, a: Action, s': State)
    requires (s.fast.Some? || s.native.Some?) && (since.native.Some? ==> s.native == since.native)
    requires since.native.None? ==> s.fast.Some?
    requires LateGettersTakeSlot(since, s) && Step(s, a) == Some(s')
    ensures LateGettersTakeSlot(since, s')
  {
    hide StepActivator, StepFast, StepNative, StepGetter;
    SlotsAreKept(s, a, s');
    match a {
      case StartActivate(_) =>
      case StartGet(_) =>
      case RunActivator(t) => ActivatorFrame(s, t, s');
      case RunFast(t, built) => FastFrame(s, t, built, s');
      case RunNative(t, built) => NativeFrame(s, t, built, s');
      case RunGetter(t, built) => LateGetterStepTakesSlot(since, s, t, built, s');
    }
  }

  lemma {:induction false} LateGettersAlwaysTakeSlot(run: seq<State>, i: nat, j: nat)
    requires IsRun(run) && i <= j < |run| && (run[i].fast.Some? || run[i].native.Some?)
    ensures LateGettersTakeSlot(run[i], run[j])
  {
    hide Step;
    if i < j {
      LateGettersAlwaysTakeSlot(run, i, j - 1);
      SlotsAreWriteOnce(run, i, j - 1);
      assert Next(run[j - 1], run[j]);
      var a :| Step(run[j - 1], a) == Some(run[j]);
      LateGettersKeepTaking(run[i], run[j - 1], a, run[j]);
    }
  }

  /** Once a slot is set, a getter that starts later never builds: whenever it has returned, it returned the
      client of a slot, and the native one if that was set when it started. */
  lemma LateGettersReturnSlotClient(run: seq<State>, i: nat, j: nat, t: ThreadId)
    requires IsRun(run) && i <= j < |run| && (run[i].fast.Some? || run[i].native.Some?)
    requires t !in run[i].getters && t in run[j].getters && run[j].getters[t].Returned?
    ensures var g := run[j].getters[t];
            && g.result.Some? && g.source != FromOwnBuild
            && (g.result == run[j].native || g.result == run[j].fast)
            && (run[i].native.Some? ==> g.result == run[i].native && g.source == FromNative)
  {
    LateGettersAlwaysTakeSlot(run, i, j);
    SlotsAreWriteOnce(run, i, j);
  }

  /** Tasks spawned after `since`, when the fast slot was set, do not build another fast client. */
  ghost predicate NoNeedlessBuilds(since: State, s: State) {
    && (forall t :: t in s.fastTasks && t !in since.fastTasks ==>
          s.fastTasks[t] == CheckFast || s.fastTasks[t] == FastDone)
    && (forall t :: t in s.nativeTasks && t !in since.nativeTasks ==>
          s.nativeTasks[t] != BuildFallback && !s.nativeTasks[t].SetFallback?)
  }

  lemma NoNeedlessBuildsStep(since: State, s: State, a: Action, s': State)
    requires s.fast.Some? && NoNeedlessBuilds(since, s) && Step(s, a) == Some(s')
    ensures NoNeedlessBuilds(since, s')
  {
    hide StepActivator, StepFast, StepNative, StepGetter;
    match a {
      case StartActivate(_) =>
      case StartGet(_) =>
      case RunActivator(t) => ActivatorFrame(s, t, s');
      case RunFast(t, built) => FastFrame(s, t, built, s');
      case RunNative(t, built) =>
        NativeFrame(s, t, built, s');
        if t !in since.nativeTasks {
          NativeTaskWithFastClient(s, t, built, s');
        }
      case RunGetter(t, built) => GetterFrame(s, t, built, s');
    }
  }

  lemma NativeTaskWithFastClient(s: State, t: ThreadId, built: Option<Client>, s': State)
    requires s.fast.Some? && t in s.nativeTasks && StepNative(s, t, built) == Some(s')
    requires s.nativeTasks[t] != BuildFallback && !s.nativeTasks[t].SetFallback?
    ensures s'.nativeTasks[t] != BuildFallback && !s'.nativeTasks[t].SetFallback?
  {
  }

  /** Once the fast client is set, no task that is spawned later builds one, not even as the fallback. */
  lemma {:induction false} LateTasksBuildNoFastClient(run: seq<State>, i: nat, j: nat)
    requires IsRun(run) && i <= j < |run| && run[i].fast.Some?
    ensures NoNeedlessBuilds(run[i], run[j])
  {
    hide Step;
    if i < j {
      LateTasksBuildNoFastClient(run, i, j - 1);
      SlotsAreWriteOnce(run, i, j - 1);
      assert Next(run[j - 1], run[j]);
      var a :| Step(run[j - 1], a) == Some(run[j]);
      NoNeedlessBuildsStep(run[i], run[j - 1], a, run[j]);
    }
  }

  // ---------- One operation at a time ----------

  function AfterSchedule(s: State, schedule: seq<Action>): State
    decreases |schedule|
  {
    if schedule == [] then s else AfterSchedule(StepOrStay(s, schedule[0]), schedule[1..])
  }

  lemma PerformStep(s: State, a: Action, rest: seq<Action>)
    ensures AfterSchedule(s, [a] + rest) == AfterSchedule(StepOrStay(s, a), rest)
  {
    assert ([a] + rest)[1..] == rest;
  }

  lemma PerformFive(s: State, a: Action, b: Action, c: Action, d: Action, e: Action)
    ensures AfterSchedule(s, [a, b, c, d, e])
         == StepOrStay(StepOrStay(StepOrStay(StepOrStay(StepOrStay(s, a), b), c), d), e)
  {
    hide StepOrStay;
    assert [a, b, c, d, e] == [a] + ([b] + ([c] + ([d] + ([e] + []))));
    PerformStep(s, a, [b] + ([c] + ([d] + ([e] + []))));
    PerformStep(StepOrStay(s, a), b, [c] + ([d] + ([e] + [])));
    PerformStep(StepOrStay(StepOrStay(s, a), b), c, [d] + ([e] + []));
    PerformStep(StepOrStay(StepOrStay(StepOrStay(s, a), b), c), d, [e] + []);
    PerformStep(StepOrStay(StepOrStay(StepOrStay(StepOrStay(s, a), b), c), d), e, []);
  }

  /** The first of two clients that is there. */
  function Prefer(a: Option<Client>, b: Option<Client>): Option<Client> {
    if a.Some? then a else b
  }

  /** The next five operations of getter `t`, whose build has the given outcome. */
  function GetterOnly(t: ThreadId, built: Option<Client>): seq<Action> {
    var a := RunGetter(t, built);
    [a, a, a, a, a]
  }

  /** A getter that runs alone returns the native client, or else the fast one, or else the one it builds, which
      then is the fast one; it fails only with its build. */
  lemma GetterAlone(s: State, t: ThreadId, built: Option<Client>)
    requires t in s.getters && s.getters[t] == GetNative
    ensures var end := AfterSchedule(s, GetterOnly(t, built));
            && t in end.getters && end.getters[t].Returned?
            && end.getters[t].result == Prefer(s.native, Prefer(s.fast, built))
            && end.native == s.native
            && end.fast == (if s.native.Some? then s.fast else Prefer(s.fast, built))
  {
    hide Step, StepOrStay, AfterSchedule;
    var a := RunGetter(t, built);
    PerformFive(s, a, a, a, a, a);
    GetterMoves(s, t, built);
    var s1 := StepOrStay(s, a);
    GetterMoves(s1, t, built);
    var s2 := StepOrStay(s1, a);
    GetterMoves(s2, t, built);
    var s3 := StepOrStay(s2, a);
    GetterMoves(s3, t, built);
    var s4 := StepOrStay(s3, a);
    GetterMoves(s4, t, built);
  }

  lemma GetterMoves(s: State, t: ThreadId, built: Option<Client>)
    requires t in s.getters
    ensures var g := s.getters[t];
            StepOrStay(s, RunGetter(t, built)) == s.(
              fast := if g.SetOwn? then Prefer(s.fast, Some(g.client)) else s.fast,
              getters := s.getters[t :=
                match g
                case GetNative => if s.native.Some? then Getter.Returned(s.native, FromNative) else GetFast
                case GetFast => if s.fast.Some? then Getter.Returned(s.fast, FromFast) else RecheckFast
                case RecheckFast => if s.fast.Some? then Getter.Returned(s.fast, FromFast) else BuildOwn
                case BuildOwn => if built.Some? then SetOwn(built.value) else Getter.Returned(None, FromOwnBuild)
                case SetOwn(client) => Getter.Returned(Some(client), FromOwnBuild)
                case Returned(_, _) => g])
  {
    if s.getters[t].Returned? {
      assert s.getters == s.getters[t := s.getters[t]];
    }
  }

  /** With a slot set, two operations are enough, and nothing is built. */
  lemma GetterAloneReturnsAtOnce(s: State, t: ThreadId, built: Option<Client>, again: Option<Client>)
    requires t in s.getters && s.getters[t] == GetNative && (s.native.Some? || s.fast.Some?)
    ensures var one := StepOrStay(s, RunGetter(t, built));
            var two := StepOrStay(one, RunGetter(t, again));
            && (s.native.Some? ==> one == s.(getters := s.getters[t := Returned(s.native, FromNative)]))
            && (s.native.None? ==> two == s.(getters := s.getters[t := Returned(s.fast, FromFast)]))
  {
  }

  /** An activation that runs alone, when nobody is warming up and there is no native client, starts both builds
      and holds the flag. */
  lemma ActivationAlone(s: State, t: ThreadId)
    requires t in s.activators && s.activators[t] == LoadNative && s.native.None? && !s.warming
    ensures var a := RunActivator(t);
            AfterSchedule(s, [a, a, a, a, a]) == s.(
              warming := true,
              activators := s.activators[t := Finished],
              fastTasks := s.fastTasks[t := CheckFast],
              nativeTasks := s.nativeTasks[t := BuildNative])
  {
    var a := RunActivator(t);
    PerformFive(s, a, a, a, a, a);
    assert s.activators[t := CompareExchange][t := SpawnFast][t := SpawnNative][t := Finished]
        == s.activators[t := Finished];
  }

  /** The fast build alone fills the fast slot with what it built, unless the slot is set already. */
  lemma FastBuildAlone(s: State, t: ThreadId, built: Option<Client>)
    requires t in s.fastTasks && s.fastTasks[t] == CheckFast
    ensures var a := RunFast(t, built);
            AfterSchedule(s, [a, a, a, a, a])
            == s.(fast := Prefer(s.fast, built), fastTasks := s.fastTasks[t := FastDone])
  {
    var a := RunFast(t, built);
    PerformFive(s, a, a, a, a, a);
  }

  lemma NativeMoves(s: State, t: ThreadId, built: Option<Client>)
    requires t in s.nativeTasks
    ensures var task := s.nativeTasks[t];
            StepOrStay(s, RunNative(t, built)) == s.(
              native := if task.SetNative? then Prefer(s.native, Some(task.client)) else s.native,
              fast := if task.SetFallback? then Prefer(s.fast, Some(task.client)) else s.fast,
              warming := if task.StoreWarming? then false else s.warming,
              nativeTasks := s.nativeTasks[t :=
                match task
                case BuildNative => if built.Some? then SetNative(built.value) else CheckFallback
                case CheckFallback => if s.fast.None? then BuildFallback else StoreWarming
                case BuildFallback => if built.Some? then SetFallback(built.value) else StoreWarming
                case StoreWarming => NativeDone
                case NativeDone => NativeDone
                case _ => StoreWarming])
  {
    if s.nativeTasks[t] == NativeDone {
      assert s.nativeTasks == s.nativeTasks[t := NativeDone];
    }
  }

  /** The native build alone fills the native slot with what it built; if that fails it fills the fast slot with
      the fallback it built. Either way it clears the flag, and a set slot stays as it is. */
  lemma NativeBuildAlone(s: State, t: ThreadId, built: Option<Client>, fallback: Option<Client>)
    requires t in s.nativeTasks && s.nativeTasks[t] == BuildNative
    ensures var a := RunNative(t, fallback);
            AfterSchedule(s, [RunNative(t, built), a, a, a, a]) == s.(
              native := Prefer(s.native, built),
              fast := if built.Some? then s.fast else Prefer(s.fast, fallback),
              warming := false,
              nativeTasks := s.nativeTasks[t := NativeDone])
  {
    hide Step, StepOrStay, AfterSchedule;
    var a := RunNative(t, fallback);
    PerformFive(s, RunNative(t, built), a, a, a, a);
    NativeMoves(s, t, built);
    var s1 := StepOrStay(s, RunNative(t, built));
    NativeMoves(s1, t, fallback);
    var s2 := StepOrStay(s1, a);
    NativeMoves(s2, t, fallback);
    var s3 := StepOrStay(s2, a);
    NativeMoves(s3, t, fallback);
    var s4 := StepOrStay(s3, a);
    NativeMoves(s4, t, fallback);
    assert s4.nativeTasks[t := NativeDone] == s.nativeTasks[t := NativeDone];
  }

  // ---------- Building the native client again ----------

  lemma StepLeads(start: State, s: State, a: Action, s': State)
    requires Leads(start, s) && Step(s, a) == Some(s')
    ensures Leads(start, s')
  {
    hide Step;
    var run :| IsRunFrom(start, run) && run[|run| - 1] == s;
    var longer := run + [s'];
    forall i, j | 0 <= i && j == i + 1 && j < |longer|
      ensures Next(longer[i], longer[j])
    {
      if j < |run| {
        assert Next(run[i], run[j]);
      }
    }
    assert IsRunFrom(start, longer) && longer[|longer| - 1] == s';
  }

  lemma LeadsToItself(s: State)
    ensures Leads(s, s)
  {
    assert IsRunFrom(s, [s]) && [s][|[s]| - 1] == s;
  }

  /** From here on, some native build may be in progress. */
  ghost predicate MayBuildNative(s: State) {
    exists s', t :: Leads(s, s') && Building(s', t)
  }

  /** Some activation has found the native slot empty and has not finished, or a native build is in progress. */
  ghost predicate NativeBuildAhead(s: State) {
    || (exists t :: t in s.activators && s.activators[t] != LoadNative && s.activators[t] != Finished)
    || (exists t :: Building(s, t))
  }

  lemma NothingAheadStays(s: State, a: Action, s': State)
    requires s.native.Some? && !NativeBuildAhead(s) && Step(s, a) == Some(s')
    ensures s'.native.Some? && !NativeBuildAhead(s')
  {
    hide StepActivator, StepFast, StepNative, StepGetter;
    SlotsAreKept(s, a, s');
    assert forall t :: t in s.nativeTasks ==> !Building(s, t);
    match a {
      case StartActivate(_) =>
      case StartGet(_) =>
      case RunActivator(t) => ActivatorFrame(s, t, s');
      case RunFast(t, built) => FastFrame(s, t, built, s');
      case RunNative(t, built) => NativeFrame(s, t, built, s');
      case RunGetter(t, built) => GetterFrame(s, t, built, s');
    }
  }

  lemma {:induction false} NothingAheadNeverBuilds(start: State, run: seq<State>)
    requires start.native.Some? && !NativeBuildAhead(start) && IsRunFrom(start, run)
    ensures run[|run| - 1].native.Some? && !NativeBuildAhead(run[|run| - 1])
    decreases |run|
  {
    hide Step, NativeBuildAhead;
    if |run| > 1 {
      var n := |run| - 1;
      var front := run[..n];
      assert forall i, j :: 0 <= i && j == i + 1 && j < |front| ==> Next(front[i], front[j]) by {
        assert forall i :: 0 <= i < |front| ==> front[i] == run[i];
      }
      NothingAheadNeverBuilds(start, front);
      assert Next(run[n - 1], run[n]);
      var a :| Step(run[n - 1], a) == Some(run[n]);
      NothingAheadStays(run[n - 1], a, run[n]);
    }
  }

  /** An activation that holds the flag and has not spawned its native build yet gets to building. */
  lemma SpawningBuilds(start: State, s: State, t: ThreadId)
    requires Leads(start, s)
    requires t in s.activators && (s.activators[t] == SpawnFast || s.activators[t] == SpawnNative)
    ensures MayBuildNative(start)
    decreases if s.activators[t] == SpawnFast then 1 else 0
  {
    hide Leads;
    if s.activators[t] == SpawnFast {
      var next := Step(s, RunActivator(t)).value;
      StepLeads(start, s, RunActivator(t), next);
      SpawningBuilds(start, next, t);
    } else {
      var next := Step(s, RunActivator(t)).value;
      StepLeads(start, s, RunActivator(t), next);
      assert Building(next, t);
    }
  }

  function StepsLeft(task: NativeTask): nat {
    match task
    case BuildNative => 5
    case CheckFallback => 4
    case BuildFallback => 3
    case SetNative(_) => 2
    case SetFallback(_) => 2
    case StoreWarming => 1
    case NativeDone => 0
  }

  /** A native task runs to its end and clears the flag, while the activations wait. */
  lemma {:induction false} TaskEnds(start: State, s: State, t: ThreadId) returns (end: State)
    requires Leads(start, s) && t in s.nativeTasks && s.nativeTasks[t] != NativeDone
    ensures Leads(start, end) && end.activators == s.activators && !end.warming
    decreases StepsLeft(s.nativeTasks[t])
  {
    hide Leads;
    end := Step(s, RunNative(t, None)).value;
    StepLeads(start, s, RunNative(t, None), end);
    if s.nativeTasks[t] != StoreWarming {
      end := TaskEnds(start, end, t);
    }
  }

  /** An activation that has found the slot empty can still win the flag, once its holder lets go. */
  lemma WaitingBuilds(s: State, t: ThreadId)
    requires OneHolder(s) && t in s.activators && s.activators[t] == CompareExchange
    ensures MayBuildNative(s)
  {
    hide Leads;
    LeadsToItself(s);
    var free := s;
    if s.warming {
      var holder :| Holds(s, holder);
      if holder in s.activators && (s.activators[holder] == SpawnFast || s.activators[holder] == SpawnNative) {
        SpawningBuilds(s, s, holder);
        return;
      }
      free := TaskEnds(s, s, holder);
    }
    var won := Step(free, RunActivator(t)).value;
    StepLeads(s, free, RunActivator(t), won);
    SpawningBuilds(s, won, t);
  }

  /** After the native client is set, a native build can still follow exactly if some activation has looked
      at the slot before and is not finished, or a build is in progress: only those ignore the set slot. */
  lemma NativeIsBuiltAgainExactlyWhenAhead(run: seq<State>, i: nat)
    requires IsRun(run) && i < |run| && run[i].native.Some?
    ensures MayBuildNative(run[i]) <==> NativeBuildAhead(run[i])
  {
    hide Step;
    var s := run[i];
    InvHolds(run, i);
    LeadsToItself(s);
    if t :| t in s.activators && s.activators[t] != LoadNative && s.activators[t] != Finished {
      if s.activators[t] == CompareExchange {
        WaitingBuilds(s, t);
      } else {
        SpawningBuilds(s, s, t);
      }
    }
    if MayBuildNative(s) && !NativeBuildAhead(s) {
      var s', t :| Leads(s, s') && Building(s', t);
      var onward :| IsRunFrom(s, onward) && onward[|onward| - 1] == s';
      NothingAheadNeverBuilds(s, onward);
      assert false;
    }
  }

  /** This does happen: an activation finds the slot empty, pauses while another activation sets it, and
      then wins the flag. */
  lemma NativeMayBeBuiltAgain()
    ensures exists s, t :: Leads(INITIAL, s) && s.native.Some? && Building(s, t)
  {
    LeadsToItself(INITIAL);
    var s1 := Step(INITIAL, StartActivate(0)).value;
    StepLeads(INITIAL, INITIAL, StartActivate(0), s1);
    var s2 := Step(s1, StartActivate(1)).value;
    StepLeads(INITIAL, s1, StartActivate(1), s2);
    var s3 := Step(s2, RunActivator(1)).value;
    StepLeads(INITIAL, s2, RunActivator(1), s3);
    var s4 := RunToNativeClient(s3);
    var s5 := Step(s4, RunActivator(1)).value;
    StepLeads(INITIAL, s4, RunActivator(1), s5);
    var s6 := Step(s5, RunActivator(1)).value;
    StepLeads(INITIAL, s5, RunActivator(1), s6);
    var s7 := Step(s6, RunActivator(1)).value;
    StepLeads(INITIAL, s6, RunActivator(1), s7);
    assert Building(s7, 1);
  }

  /** Activation 0 runs to its end and its native build succeeds, while activation 1 waits. */
  lemma RunToNativeClient(s: State) returns (end: State)
    requires Leads(INITIAL, s) && !s.warming && s.native.None?
    requires 0 in s.activators && s.activators[0] == LoadNative
    requires 1 in s.activators && s.activators[1] == CompareExchange
    ensures Leads(INITIAL, end) && !end.warming && end.native.Some?
    ensures 1 in end.activators && end.activators[1] == CompareExchange
  {
    var s1 := Step(s, RunActivator(0)).value;
    StepLeads(INITIAL, s, RunActivator(0), s1);
    var s2 := Step(s1, RunActivator(0)).value;
    StepLeads(INITIAL, s1, RunActivator(0), s2);
    var s3 := Step(s2, RunActivator(0)).value;
    StepLeads(INITIAL, s2, RunActivator(0), s3);
    var s4 := Step(s3, RunActivator(0)).value;
    StepLeads(INITIAL, s3, RunActivator(0), s4);
    var s5 := Step(s4, RunNative(0, Some(7))).value;
    StepLeads(INITIAL, s4, RunNative(0, Some(7)), s5);
    var s6 := Step(s5, RunNative(0, None)).value;
    StepLeads(INITIAL, s5, RunNative(0, None), s6);
    end := Step(s6, RunNative(0, None)).value;
    StepLeads(INITIAL, s6, RunNative(0, None), end);
  }

  // ---------- A program of the methods ----------

  /** Whatever order the scheduler calls the methods in, the fields go through a run; so in the end the flag
      is set exactly while one activation holds it, at most one native build is live, and every client
      returned from a slot is the one in that slot. */
  method RunSchedule(schedule: seq<Action>) returns (system: SharedSystem, ghost run: seq<State>)
    ensures fresh(system) && IsRun(run) && run[|run| - 1] == system.View()
    ensures system.warming <==> exists t :: Holds(system.View(), t)
    ensures forall t, u :: Building(system.View(), t) && Building(system.View(), u) ==> t == u
    ensures ReturnsAreSlots(system.View())
  {
    hide Step;
    system := new SharedSystem();
    run := [INITIAL];
    for i := 0 to |schedule|
      invariant fresh(system) && IsRun(run) && run[|run| - 1] == system.View()
    {
      ghost var before := system.View();
      system.Perform(schedule[i]);
      if Step(before, schedule[i]).Some? {
        assert Next(before, system.View());
        ghost var longer := run + [system.View()];
        assert forall j, k :: 0 <= j && k == j + 1 && k < |longer| ==> Next(longer[j], longer[k]) by {
          forall j, k | 0 <= j && k == j + 1 && k < |longer| ensures Next(longer[j], longer[k]) {
            if k < |run| {
              assert Next(run[j], run[k]);
            }
          }
        }
        run := longer;
      }
    }
    InvHolds(run, |run| - 1);
    WarmingMeansOneLiveActivation(run, |run| - 1);
  }
}
