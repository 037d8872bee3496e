/** The reload protocol: one Provider on one in-memory store, every interleaving of the event loop
  * with writers, broadcasts, refresh requests, subscribers and Close. A step is one atomic action: a
  * critical section, a channel operation, a single atomic store, or one List call.
  * The Aux fields and the versions are auxiliary: no step's guard reads them. */
module Reload {
  import opened Wrappers
  import opened Sequences
  import opened StoreTypes
  import opened ConfigTypes
  import opened FieldValues
  import opened Catalog
  import opened CatalogProperties
  import opened OverrideApplication
  import opened AuditedStore
  import opened Channels
  import opened StoreSteps
  import opened Snapshots

  /** What New is called with. */
  datatype Config = Config(ns: string, t: GoType, base: Value, decoders: Decoders, subBuffer: nat) {
    /** The catalog can be built and the base is a value of the type, with nil nested pointers. */
    ghost predicate Valid() {
      Supported(t) && BaseFits(t, base) && 0 < subBuffer
    }

    ghost function SnapshotOf(overrides: Overrides): Snapshot
      requires Valid()
    {
      Rebuild(JobFor(t, base, overrides, decoders))
    }

    /** Whether the table of descriptors says that a change of the key is passed to subscribers. */
    ghost predicate Recreates(key: string)
      requires Valid()
    {
      RecreatesKey(Build(t).value, ByKey(Build(t).value), key)
    }
  }

  /** Why a refresh was started. */
  datatype Cause = Startup | Changed(msg: Msg) | Ticked | Requested

  /** Where the one goroutine that refreshes is: New first, then the event loop. */
  datatype Loop =
    | AboutToList(cause: Cause)
    | Listed(cause: Cause, overrides: Overrides)
    | Installed(cause: Cause)
    | Counted(cause: Cause)
    | Stamped(cause: Cause)
    | Refreshed(cause: Cause)
    | ListFailed(cause: Cause, text: string)
    | Registering
    | Idle
    | Notifying(msg: Msg, next: nat)
    | Exited

  /** lastErrText; `success` is the number of the refresh that cleared it. */
  datatype ErrorText = NeverSet | Cleared(success: nat) | Failure(text: string)

  /** A subscriber's channel. `told` are the changes that were fanned out to it, fitting or not, and
    * `since` is how many changes had been handled when it subscribed. `seen` is the version of the
    * snapshot its last Get returned, `mustGet` says that it has received since then, and `late` that
    * it subscribed after Close. */
  datatype SubChan = SubChan(
    buf: seq<Msg>, open: bool, closes: nat, cancelled: bool, told: seq<Msg>, since: nat, seen: nat, mustGet: bool,
    late: bool)
  {
    /** The newest change it was told of. */
    function Owed(): nat {
      NewestVersion(told)
    }
  }

  function NewestVersion(ms: seq<Msg>): nat {
    if ms == [] then 0 else Max(NewestVersion(ms[..|ms| - 1]), ms[|ms| - 1].version)
  }

  /** A change event that the loop took from its queue, and whether the refresh for it succeeded. */
  datatype Handled = Handled(msg: Msg, ok: bool)

  /** The changes that are passed to subscribers: those of recreate-on-change keys whose refresh
    * succeeded. */
  ghost function ToFan(c: Config, log: seq<Handled>): seq<Msg>
    requires c.Valid()
  {
    if log == [] then []
    else
      var h := log[|log| - 1];
      ToFan(c, log[..|log| - 1]) + if h.ok && c.Recreates(h.msg.event.key) then [h.msg] else []
  }

  function Messages(log: seq<Handled>): seq<Msg> {
    seq(|log|, i requires 0 <= i < |log| => log[i].msg)
  }

  datatype Aux = Aux(
    snapVersion: nat,      // the store version the current snapshot was listed at
    installs: nat,         // snapshots installed so far
    attempts: nat,         // List calls so far
    attemptVersion: nat,   // the store version at the latest List call
    attemptOk: bool,
    failures: nat,
    initVersion: nat,      // the store version at New's List call
    regVersion: nat,       // the store version when the watcher was registered
    handled: nat, ticks: nat, requested: nat, asked: nat,
    log: seq<Handled>)     // the change events handled, in order

  datatype Provider = Provider(
    loop: Loop,
    watch: Option<nat>,
    current: Option<Snapshot>,
    refreshCount: nat,
    lastRefresh: nat,      // the number of the success whose time it holds, 0 before the first
    lastErr: ErrorText,
    trigger: nat,          // tokens in the trigger channel
    cancelled: bool,
    closed: bool,
    subs: seq<nat>,
    subChans: map<nat, SubChan>,
    aux: Aux)

  datatype State = State(store: Store, prov: Provider)

  const TRIGGER_BUFFER: nat := 1

  /** The atomic actions of one refresh. */
  datatype RefreshStep =
    | ListOk
    | ListErr(text: string)
    | Install
    | Count
    | Stamp
    | ClearError
    | RecordError

  /** What New and the event loop do between refreshes, and the cancellation of their context. */
  datatype LoopStep =
    | AfterRefresh
    | Register(id: nat)
    | TakeEvent
    | TakeTick
    | TakeTrigger
    | SeeCancel
    | SeeClosedWatch
    | NotifyNext
    | NotifyEnd
    | Cancel

  /** What callers of the Provider do. */
  datatype ClientStep =
    | AskRefresh
    | Subscribe(id: nat)
    | CancelSub(id: nat)
    | RemoveSub(id: nat)
    | SubReceive(id: nat)
    | SubGet(id: nat)
    | FinishClose

  datatype Step =
    | Env(e: StoreStep)
    | Refresh(r: RefreshStep)
    | EventLoop(l: LoopStep)
    | Client(k: ClientStep)

  /** An empty store, and New about to list it. */
  const START: State :=
    State(INITIAL,
          Provider(AboutToList(Startup), None, None, 0, 0, NeverSet, 0, false, false, [], map[],
                   Aux(0, 0, 0, 0, false, 0, 0, 0, 0, 0, 0, 0, [])))

  /** The steps of the store that are not the Provider's own. */
  predicate Foreign(p: Provider, step: StoreStep) {
    (step.CancelWatch? || step.ReceiveWatch?) ==> Some(step.id) != p.watch
  }

  predicate RefreshEnabled(p: Provider, step: RefreshStep) {
    match step
    case ListOk => p.loop.AboutToList?
    case ListErr(_) => p.loop.AboutToList?
    case Install => p.loop.Listed?
    case Count => p.loop.Installed?
    case Stamp => p.loop.Counted?
    case ClearError => p.loop.Stamped?
    case RecordError => p.loop.ListFailed?
  }

  ghost predicate LoopEnabled(s: State, step: LoopStep) {
    var p := s.prov;
    match step
    case AfterRefresh => p.loop.Refreshed?
    case Register(id) => p.loop.Registering? && StoreEnabled(s.store, Watch("", id))
    case TakeEvent => p.loop.Idle? && p.watch.Some? && StoreEnabled(s.store, ReceiveWatch(p.watch.value))
    case TakeTick => p.loop.Idle?
    case TakeTrigger => p.loop.Idle? && 0 < p.trigger
    case SeeCancel => p.loop.Idle? && p.cancelled
    case SeeClosedWatch =>
      p.loop.Idle? && p.watch.Some? && p.watch.value in s.store.chans &&
      s.store.chans[p.watch.value].buf == [] && !s.store.chans[p.watch.value].open
    case NotifyNext => p.loop.Notifying? && p.loop.next < |p.subs| && p.subs[p.loop.next] in p.subChans
    case NotifyEnd => p.loop.Notifying? && p.loop.next >= |p.subs|
    case Cancel => true
  }

  predicate ClientEnabled(p: Provider, step: ClientStep) {
    match step
    case AskRefresh => p.watch.Some?
    case Subscribe(id) => p.watch.Some? && !p.loop.Notifying? && id !in p.subChans
    case CancelSub(id) => id in p.subChans
    case RemoveSub(id) =>
      !p.loop.Notifying? && id in p.subChans && p.subChans[id].cancelled && FirstIndex(p.subs, id) < |p.subs|
    case SubReceive(id) => id in p.subChans && p.subChans[id].buf != []
    case SubGet(id) => id in p.subChans && p.current.Some?
    case FinishClose => p.cancelled && p.loop.Exited? && p.watch.Some? && !p.closed
  }

  ghost predicate Enabled(s: State, step: Step) {
    match step
    case Env(e) => StoreEnabled(s.store, e) && Foreign(s.prov, e)
    case Refresh(r) => RefreshEnabled(s.prov, r)
    case EventLoop(l) => LoopEnabled(s, l)
    case Client(k) => ClientEnabled(s.prov, k)
  }

  function Max(a: nat, b: nat): nat {
    if a < b then b else a
  }

  /** Fanning a change out to one subscriber: a non-blocking send. */
  function Fanned(ch: SubChan, capacity: nat, m: Msg): SubChan {
    ch.(buf := Offer(ch.buf, capacity, m), told := ch.told + [m])
  }

  function Closed(ch: SubChan): SubChan {
    ch.(open := false, closes := ch.closes + 1)
  }

  /** One action of a refresh, given the store version and listing of this moment. */
  ghost function RefreshNext(c: Config, p: Provider, version: nat, listing: Overrides, step: RefreshStep): Provider
    requires c.Valid() && RefreshEnabled(p, step)
  {
    var a := p.aux;
    match step
    case ListOk => p.(loop := Listed(p.loop.cause, listing), aux := Attempted(a, p.loop.cause, version, true))
    case ListErr(text) =>
      p.(loop := ListFailed(p.loop.cause, text), aux := Attempted(a, p.loop.cause, version, false))
    case Install =>
      p.(loop := Installed(p.loop.cause), current := Some(c.SnapshotOf(p.loop.overrides)),
         aux := a.(installs := a.installs + 1, snapVersion := a.attemptVersion))
    case Count => p.(loop := Counted(p.loop.cause), refreshCount := p.refreshCount + 1)
    case Stamp => p.(loop := Stamped(p.loop.cause), lastRefresh := a.installs)
    case ClearError => p.(loop := Refreshed(p.loop.cause), lastErr := Cleared(a.installs))
    case RecordError =>
      p.(loop := if p.loop.cause.Startup? then Exited else Idle, lastErr := Failure(p.loop.text),
         aux := Logged(a, p.loop.cause, false))
  }

  /** Where the loop goes when a refresh has succeeded. */
  ghost function AfterSuccess(c: Config, cause: Cause): Loop
    requires c.Valid()
  {
    match cause
    case Startup => Registering
    case Changed(m) => if c.Recreates(m.event.key) then Notifying(m, 0) else Idle
    case _ => Idle
  }

  ghost function LoopNext(c: Config, s: State, step: LoopStep): State
    requires c.Valid() && LoopEnabled(s, step)
  {
    var p, a := s.prov, s.prov.aux;
    match step
    case AfterRefresh =>
      s.(prov := p.(loop := AfterSuccess(c, p.loop.cause), aux := Logged(a, p.loop.cause, true)))
    case Register(id) =>
      var watching := StoreNext(s.store, Watch(c.ns, id));
      State(if p.cancelled then StoreNext(watching, CancelWatch(id)) else watching,
            p.(loop := Idle, watch := Some(id), aux := a.(regVersion := s.store.Version())))
    case TakeEvent =>
      State(StoreNext(s.store, ReceiveWatch(p.watch.value)),
            p.(loop := AboutToList(Changed(s.store.chans[p.watch.value].buf[0])), aux := a.(handled := a.handled + 1)))
    case TakeTick => s.(prov := p.(loop := AboutToList(Ticked), aux := a.(ticks := a.ticks + 1)))
    case TakeTrigger =>
      s.(prov := p.(loop := AboutToList(Requested), trigger := p.trigger - 1,
                    aux := a.(requested := a.requested + 1)))
    case SeeCancel => s.(prov := p.(loop := Exited))
    case SeeClosedWatch => s.(prov := p.(loop := Exited))
    case NotifyNext =>
      var id := p.subs[p.loop.next];
      s.(prov := p.(loop := Notifying(p.loop.msg, p.loop.next + 1),
                    subChans := p.subChans[id := Fanned(p.subChans[id], c.subBuffer, p.loop.msg)]))
    case NotifyEnd => s.(prov := p.(loop := Idle))
    case Cancel =>
      State(if p.watch.Some? && p.watch.value in s.store.chans
            then StoreNext(s.store, CancelWatch(p.watch.value)) else s.store,
            p.(cancelled := true))
  }

  function ClientNext(p: Provider, step: ClientStep): Provider
    requires ClientEnabled(p, step)
  {
    match step
    case AskRefresh =>
      p.(trigger := if p.trigger < TRIGGER_BUFFER then p.trigger + 1 else p.trigger,
         aux := p.aux.(asked := p.aux.asked + 1))
    case Subscribe(id) =>
      p.(subs := p.subs + [id],
         subChans := p.subChans[id := SubChan([], true, 0, false, [], |p.aux.log|, 0, false, p.closed)])
    case CancelSub(id) => p.(subChans := p.subChans[id := p.subChans[id].(cancelled := true)])
    case RemoveSub(id) =>
      p.(subs := CutAt(p.subs, FirstIndex(p.subs, id)), subChans := p.subChans[id := Closed(p.subChans[id])])
    case SubReceive(id) =>
      p.(subChans := p.subChans[id := p.subChans[id].(buf := p.subChans[id].buf[1..], mustGet := true)])
    case SubGet(id) =>
      p.(subChans := p.subChans[id := p.subChans[id].(seen := p.aux.snapVersion, mustGet := false)])
    case FinishClose =>
      p.(closed := true, subs := [],
         subChans := map id | id in p.subChans :: if id in p.subs then Closed(p.subChans[id]) else p.subChans[id])
  }

  ghost function Next(c: Config, s: State, step: Step): State
    requires c.Valid() && Enabled(s, step)
  {
    match step
    case Env(e) => s.(store := StoreNext(s.store, e))
    case Refresh(r) =>
      s.(prov := RefreshNext(c, s.prov, s.store.Version(), ListOf(s.store.db.data, c.ns), r))
    case EventLoop(l) => LoopNext(c, s, l)
    case Client(k) => s.(prov := ClientNext(s.prov, k))
  }

  /** The refresh for a change has ended. */
  function Logged(a: Aux, cause: Cause, ok: bool): Aux {
    match cause
    case Changed(m) => a.(log := a.log + [Handled(m, ok)])
    case _ => a
  }

  function Attempted(a: Aux, cause: Cause, version: nat, ok: bool): Aux {
    a.(attempts := a.attempts + 1, attemptVersion := version, attemptOk := ok,
       failures := a.failures + (if ok then 0 else 1),
       initVersion := if cause.Startup? then version else a.initVersion)
  }

  // ---------------------------------------------------------------------------------------------
  // Runs
  // ---------------------------------------------------------------------------------------------

  /** A run as the states it passes through and the steps between them. */
  datatype Run = Run(states: seq<State>, steps: seq<Step>) {
    ghost predicate Of(c: Config)
      requires c.Valid()
    {
      && |states| == |steps| + 1
      && states[0] == START
      && forall i :: 0 <= i < |steps| ==> Enabled(states[i], steps[i]) && states[i + 1] == Next(c, states[i], steps[i])
    }
  }

  /** The event loop has not been told to stop. */
  predicate Running(s: State) {
    s.prov.watch.Some? && !s.prov.cancelled
  }
}
