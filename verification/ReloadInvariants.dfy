/** What every step of the reload protocol keeps. */
module ReloadInvariants {
  import opened Wrappers
  import opened Sequences
  import opened StoreTypes
  import opened AuditedStore
  import opened StoreSteps
  import opened Reload

  // ---------------------------------------------------------------------------------------------
  // Startup and the Provider's own watch
  // ---------------------------------------------------------------------------------------------

  function CauseOf(loop: Loop): Option<Cause> {
    if loop.AboutToList? || loop.Listed? || loop.Installed? || loop.Counted? || loop.Stamped? || loop.Refreshed? ||
       loop.ListFailed?
    then Some(loop.cause)
    else None
  }

  ghost predicate StartupInv(c: Config, s: State) {
    var p, a, loop := s.prov, s.prov.aux, s.prov.loop;
    && a.attemptVersion <= s.store.Version()
    && (a.attempts <= 1 ==> a.attemptVersion == a.initVersion)
    && (p.watch.None? ==>
          && (loop.Registering? || loop.Exited? || CauseOf(loop) == Some(Startup))
          && a.attempts == (if loop.AboutToList? then 0 else 1))
    && (p.watch.Some? ==>
          && !loop.Registering? && CauseOf(loop) != Some(Startup)
          && 1 <= a.attempts
          && a.initVersion <= a.regVersion <= s.store.Version()
          && (2 <= a.attempts ==> a.regVersion <= a.attemptVersion)
          && p.watch.value in s.store.chans
          && s.store.chans[p.watch.value].ns == c.ns
          && s.store.chans[p.watch.value].cancelled == p.cancelled)
  }

  lemma ForeignStepsKeepWatch(st: Store, e: StoreStep, id: nat)
    requires StoreEnabled(st, e) && id in st.chans
    requires e.CancelWatch? || e.ReceiveWatch? ==> e.id != id
    ensures id in StoreNext(st, e).chans
    ensures StoreNext(st, e).chans[id].ns == st.chans[id].ns
    ensures StoreNext(st, e).chans[id].cancelled == st.chans[id].cancelled
  {
  }

  lemma StartupLoop(c: Config, s: State, step: LoopStep)
    requires c.Valid() && StartupInv(c, s) && LoopEnabled(s, step)
    ensures StartupInv(c, LoopNext(c, s, step))
  {
  }

  lemma StartupEnv(c: Config, s: State, e: StoreStep)
    requires VersionsInv(s.store) && StartupInv(c, s) && StoreEnabled(s.store, e) && Foreign(s.prov, e)
    ensures StartupInv(c, s.(store := StoreNext(s.store, e)))
  {
    VersionsStep(s.store, e);
    if s.prov.watch.Some? {
      ForeignStepsKeepWatch(s.store, e, s.prov.watch.value);
    }
  }

  lemma StartupRefresh(c: Config, s: State, listing: Overrides, r: RefreshStep)
    requires c.Valid() && StartupInv(c, s) && RefreshEnabled(s.prov, r)
    ensures StartupInv(c, s.(prov := RefreshNext(c, s.prov, s.store.Version(), listing, r)))
  {
  }

  lemma StartupClient(c: Config, s: State, k: ClientStep)
    requires StartupInv(c, s) && ClientEnabled(s.prov, k)
    ensures StartupInv(c, s.(prov := ClientNext(s.prov, k)))
  {
  }

  // ---------------------------------------------------------------------------------------------
  // The snapshot
  // ---------------------------------------------------------------------------------------------

  /** No refresh is under way: the last attempt either installed what it listed and cleared the
    * error, or failed and left its error. */
  ghost predicate Settled(p: Provider) {
    && (p.aux.attemptOk ==> p.aux.snapVersion == p.aux.attemptVersion && p.lastErr == Cleared(p.aux.installs))
    && (!p.aux.attemptOk ==> p.lastErr.Failure?)
  }

  /** What the refresh under way has done so far. */
  ghost predicate RefreshFits(c: Config, p: Provider, versions: seq<Data>)
    requires p.aux.attemptVersion < |versions|
  {
    var a := p.aux;
    match p.loop
    case Listed(_, ov) => a.attemptOk && ov == ListOf(versions[a.attemptVersion], c.ns)
    case Installed(_) => a.attemptOk && a.snapVersion == a.attemptVersion && p.current.Some?
    case Counted(_) => a.attemptOk && a.snapVersion == a.attemptVersion && p.current.Some?
    case Stamped(_) => a.attemptOk && a.snapVersion == a.attemptVersion && p.current.Some?
    case Refreshed(_) => Settled(p) && p.current.Some?
    case Registering => Settled(p) && p.current.Some?
    case ListFailed(_, _) => !a.attemptOk
    case AboutToList(_) => true
    case Exited => p.watch.Some? ==> Settled(p)
    case _ => Settled(p)
  }

  ghost predicate SnapshotInv(c: Config, s: State)
    requires c.Valid()
  {
    var p, a := s.prov, s.prov.aux;
    && |s.store.versions| == s.store.Version() + 1
    && a.snapVersion <= a.attemptVersion <= s.store.Version()
    && (p.current.Some? <==> 0 < a.installs)
    && (p.current.Some? ==> p.current.value == c.SnapshotOf(ListOf(s.store.versions[a.snapVersion], c.ns)))
    && RefreshFits(c, p, s.store.versions)
    && (p.watch.Some? ==> p.current.Some?)
  }

  /** Between refreshes the loop touches neither snapshot nor error, and only counts. */
  lemma LoopKeepsSnapshot(c: Config, s: State, step: LoopStep)
    requires c.Valid() && LoopEnabled(s, step)
    ensures var p, q := s.prov, LoopNext(c, s, step).prov;
      && q.current == p.current && q.lastErr == p.lastErr && q.refreshCount == p.refreshCount
      && q.lastRefresh == p.lastRefresh
      && q.aux == p.aux.(regVersion := q.aux.regVersion, handled := q.aux.handled, ticks := q.aux.ticks,
                         requested := q.aux.requested, log := q.aux.log)
  {
  }

  lemma RefreshFitsOn(c: Config, s: State, step: LoopStep)
    requires c.Valid() && LoopEnabled(s, step) && s.prov.aux.attemptVersion < |s.store.versions|
    requires RefreshFits(c, s.prov, s.store.versions) && (s.prov.watch.Some? ==> s.prov.current.Some?)
    ensures var q := LoopNext(c, s, step).prov;
      q.aux.attemptVersion < |s.store.versions| && RefreshFits(c, q, s.store.versions)
    ensures LoopNext(c, s, step).prov.watch.Some? ==> s.prov.current.Some?
  {
    LoopKeepsSnapshot(c, s, step);
  }

  lemma SnapshotLoop(c: Config, s: State, step: LoopStep)
    requires c.Valid() && SnapshotInv(c, s) && LoopEnabled(s, step)
    ensures SnapshotInv(c, LoopNext(c, s, step))
  {
    LoopKeepsDb(c, s, step);
    LoopKeepsSnapshot(c, s, step);
    RefreshFitsOn(c, s, step);
  }

  lemma SnapshotEnv(c: Config, s: State, e: StoreStep)
    requires c.Valid() && VersionsInv(s.store) && SnapshotInv(c, s) && StoreEnabled(s.store, e)
    ensures SnapshotInv(c, s.(store := StoreNext(s.store, e)))
  {
    VersionsStep(s.store, e);
  }

  lemma SnapshotRefresh(c: Config, s: State, r: RefreshStep)
    requires c.Valid() && VersionsInv(s.store) && StartupInv(c, s) && SnapshotInv(c, s) && RefreshEnabled(s.prov, r)
    ensures SnapshotInv(c, s.(prov :=
      RefreshNext(c, s.prov, s.store.Version(), ListOf(s.store.db.data, c.ns), r)))
  {
  }

  lemma SnapshotClient(c: Config, s: State, k: ClientStep)
    requires c.Valid() && SnapshotInv(c, s) && ClientEnabled(s.prov, k)
    ensures SnapshotInv(c, s.(prov := ClientNext(s.prov, k)))
  {
  }

  // ---------------------------------------------------------------------------------------------
  // Counters
  // ---------------------------------------------------------------------------------------------

  ghost predicate CountersInv(p: Provider) {
    var a, loop := p.aux, p.loop;
    && p.refreshCount == a.installs - (if loop.Installed? then 1 else 0)
    && p.lastRefresh == a.installs - (if loop.Installed? || loop.Counted? then 1 else 0)
    && (loop.Installed? || loop.Counted? || loop.Stamped? ==> 0 < a.installs)
    && (p.lastErr.Cleared? ==> 0 < p.lastErr.success <= p.lastRefresh)
    && a.attempts + (if loop.AboutToList? then 1 else 0) == 1 + a.handled + a.ticks + a.requested
    && p.refreshCount + a.failures + (if loop.Listed? || loop.Installed? then 1 else 0) == a.attempts
    && p.trigger <= TRIGGER_BUFFER
    && a.requested + p.trigger <= a.asked
  }

  lemma CountersRefresh(c: Config, p: Provider, version: nat, listing: Overrides, r: RefreshStep)
    requires c.Valid() && CountersInv(p) && RefreshEnabled(p, r)
    ensures CountersInv(RefreshNext(c, p, version, listing, r))
  {
  }

  lemma CountersLoop(c: Config, s: State, l: LoopStep)
    requires c.Valid() && CountersInv(s.prov) && LoopEnabled(s, l)
    ensures CountersInv(LoopNext(c, s, l).prov)
  {
  }

  /** Callers touch neither the refresh under way nor what it has published. */
  lemma ClientKeepsRefresh(p: Provider, k: ClientStep)
    requires ClientEnabled(p, k)
    ensures var q := ClientNext(p, k);
      && q.loop == p.loop && q.watch == p.watch && q.current == p.current && q.cancelled == p.cancelled
      && q.refreshCount == p.refreshCount && q.lastRefresh == p.lastRefresh && q.lastErr == p.lastErr
      && q.aux == p.aux.(asked := p.aux.asked + if k.AskRefresh? then 1 else 0)
      && q.trigger == (if k.AskRefresh? && p.trigger < TRIGGER_BUFFER then p.trigger + 1 else p.trigger)
  {
  }

  lemma CountersClient(p: Provider, k: ClientStep)
    requires CountersInv(p) && ClientEnabled(p, k)
    ensures CountersInv(ClientNext(p, k))
  {
    ClientKeepsRefresh(p, k);
    CountersAsked(p, ClientNext(p, k));
  }

  lemma CountersAsked(p: Provider, q: Provider)
    requires CountersInv(p) && q.loop == p.loop
    requires q.refreshCount == p.refreshCount && q.lastRefresh == p.lastRefresh && q.lastErr == p.lastErr
    requires p.aux.asked <= q.aux.asked && q.aux == p.aux.(asked := q.aux.asked)
    requires q.trigger == p.trigger || (q.trigger == p.trigger + 1 <= TRIGGER_BUFFER && p.aux.asked < q.aux.asked)
    ensures CountersInv(q)
  {
  }

  // ---------------------------------------------------------------------------------------------
  // The change being handled
  // ---------------------------------------------------------------------------------------------

  /** The change a refresh was started for was committed before the List call, so the snapshot
    * contains it when subscribers are told. */
  ghost predicate HandlingInv(c: Config, s: State)
    requires c.Valid()
  {
    var a, loop := s.prov.aux, s.prov.loop;
    && (forall m :: CauseOf(loop) == Some(Changed(m)) ==>
          && Genuine(s.store, m)
          && (!loop.AboutToList? ==> m.version <= a.attemptVersion)
          && (loop.Installed? || loop.Counted? || loop.Stamped? || loop.Refreshed? ==> m.version <= a.snapVersion))
    && (loop.Notifying? ==>
          Genuine(s.store, loop.msg) && loop.msg.version <= a.snapVersion && c.Recreates(loop.msg.event.key))
  }

  lemma TakenIsGenuine(c: Config, s: State)
    requires c.Valid() && MessagesInv(s.store) && AccountInv(s.store) && LoopEnabled(s, TakeEvent)
    ensures Genuine(s.store, s.store.chans[s.prov.watch.value].buf[0])
  {
    var id := s.prov.watch.value;
    StreamIsGenuine(s.store, id);
    assert s.store.chans[id].Stream()[|s.store.chans[id].received|] == s.store.chans[id].buf[0];
  }

  lemma HandlingTake(c: Config, s: State)
    requires c.Valid() && StoreInv(s.store) && LoopEnabled(s, TakeEvent)
    ensures HandlingInv(c, LoopNext(c, s, TakeEvent))
  {
    TakenIsGenuine(c, s);
    var post := LoopNext(c, s, TakeEvent);
    assert CauseOf(post.prov.loop) == Some(Changed(s.store.chans[s.prov.watch.value].buf[0]));
  }

  lemma LoopKeepsDb(c: Config, s: State, step: LoopStep)
    requires c.Valid() && LoopEnabled(s, step)
    ensures LoopNext(c, s, step).store.db == s.store.db && LoopNext(c, s, step).store.versions == s.store.versions
  {
  }

  lemma HandlingLoop(c: Config, s: State, step: LoopStep)
    requires c.Valid() && HandlingInv(c, s) && LoopEnabled(s, step) && !step.TakeEvent?
    ensures HandlingInv(c, LoopNext(c, s, step))
  {
    LoopKeepsDb(c, s, step);
    var loop, after := s.prov.loop, LoopNext(c, s, step).prov.loop;
    if step.AfterRefresh? {
      assert CauseOf(loop) == Some(loop.cause) && CauseOf(after) == None;
    } else if step.NotifyNext? {
      assert after.msg == loop.msg && CauseOf(after) == None;
    }
  }

  lemma HandlingEnv(c: Config, s: State, e: StoreStep)
    requires c.Valid() && StoreInv(s.store) && HandlingInv(c, s) && StoreEnabled(s.store, e)
    ensures HandlingInv(c, s.(store := StoreNext(s.store, e)))
  {
    VersionsStep(s.store, e);
  }

  lemma HandlingRefresh(c: Config, s: State, listing: Overrides, r: RefreshStep)
    requires c.Valid() && SnapshotInv(c, s) && HandlingInv(c, s) && RefreshEnabled(s.prov, r)
    ensures HandlingInv(c, s.(prov := RefreshNext(c, s.prov, s.store.Version(), listing, r)))
  {
  }

  lemma HandlingClient(c: Config, s: State, k: ClientStep)
    requires c.Valid() && HandlingInv(c, s) && ClientEnabled(s.prov, k)
    ensures HandlingInv(c, s.(prov := ClientNext(s.prov, k)))
  {
  }

  // ---------------------------------------------------------------------------------------------
  // Nothing committed after registration is forgotten
  // ---------------------------------------------------------------------------------------------

  /** The broadcast under way carries commit v and has not reached the watcher yet. */
  ghost predicate OnItsWay(st: Store, id: nat, v: nat) {
    st.sending.Some? && st.sending.value.msg.version == v && st.sending.value.next <= IndexOf(st.watchers, id)
  }

  ghost predicate IsPending(st: Store, v: nat) {
    exists m :: m in st.pending && m.version == v
  }

  /** Commit v of the Provider's namespace, made after the watcher was registered and not listed
    * since, is still announced: its broadcast is to come, or something is queued for the loop, or
    * the loop is about to list anyway. An event is dropped only while others are queued. */
  ghost predicate Covered(s: State, v: nat)
    requires s.prov.watch.Some? && s.prov.watch.value in s.store.chans
  {
    || IsPending(s.store, v)
    || OnItsWay(s.store, s.prov.watch.value, v)
    || s.store.chans[s.prov.watch.value].buf != []
    || s.prov.loop.AboutToList?
  }

  predicate CommitIn(st: Store, ns: string, v: nat) {
    1 <= v <= st.Version() && st.db.audit[v - 1].namespace == ns
  }

  ghost predicate CoverageInv(c: Config, s: State) {
    Running(s) ==>
      && s.prov.watch.value in s.store.chans
      && forall v {:trigger CommitIn(s.store, c.ns, v)} ::
           CommitIn(s.store, c.ns, v) && s.prov.aux.regVersion < v && s.prov.aux.attemptVersion < v ==> Covered(s, v)
  }

  lemma CoverageBegin(c: Config, s: State, m: Msg, v: nat)
    requires StartupInv(c, s) && Running(s) && LifecycleInv(s.store)
    requires StoreEnabled(s.store, BeginBroadcast(m)) && Covered(s, v)
    ensures Covered(s.(store := StoreNext(s.store, BeginBroadcast(m))), v)
  {
    var post := StoreNext(s.store, BeginBroadcast(m));
    if IsPending(s.store, v) {
      var n :| n in s.store.pending && n.version == v;
      if n != m {
        assert n in post.pending;
      }
    }
  }

  lemma CoverageSend(c: Config, s: State, v: nat)
    requires StartupInv(c, s) && Running(s) && StoreInv(s.store) && CommitIn(s.store, c.ns, v)
    requires StoreEnabled(s.store, SendNext) && Covered(s, v)
    ensures Covered(s.(store := StoreNext(s.store, SendNext)), v)
  {
    var id := s.prov.watch.value;
    var st := s.store;
    var post := StoreNext(st, SendNext);
    if IsPending(st, v) {
      assert IsPending(post, v);
    } else if OnItsWay(st, id, v) && IndexOf(st.watchers, id) == st.sending.value.next {
      assert st.watchers[st.sending.value.next].id == id;
      SendingIsGenuine(st);
      assert post.chans[id].buf != [];
    }
  }

  lemma SendingIsGenuine(st: Store)
    requires MessagesInv(st) && st.sending.Some?
    ensures Genuine(st, st.sending.value.msg)
  {
  }

  lemma CoverageEnd(c: Config, s: State, v: nat)
    requires StartupInv(c, s) && Running(s) && LifecycleInv(s.store)
    requires StoreEnabled(s.store, EndBroadcast) && Covered(s, v)
    ensures Covered(s.(store := StoreNext(s.store, EndBroadcast)), v)
  {
    var id := s.prov.watch.value;
    assert Registered(s.store.watchers, id);
    assert IndexOf(s.store.watchers, id) < |s.store.watchers|;
    if IsPending(s.store, v) {
      assert IsPending(StoreNext(s.store, EndBroadcast), v);
    }
  }

  /** Steps that leave messages and the Provider's queue alone. */
  lemma CoverageKept(c: Config, s: State, e: StoreStep, v: nat)
    requires StartupInv(c, s) && Running(s) && StoreEnabled(s.store, e) && Foreign(s.prov, e)
    requires e.Watch? || e.CancelWatch? || e.RemoveWatch? || e.ReceiveWatch? || e.CommitWrite?
    requires Covered(s, v)
    ensures s.prov.watch.value in StoreNext(s.store, e).chans && Covered(s.(store := StoreNext(s.store, e)), v)
  {
    if IsPending(s.store, v) {
      var n :| n in s.store.pending && n.version == v;
      assert n in StoreNext(s.store, e).pending;
    }
  }

  lemma CoverageEnv(c: Config, s: State, e: StoreStep)
    requires StartupInv(c, s) && StoreInv(s.store) && CoverageInv(c, s)
    requires StoreEnabled(s.store, e) && Foreign(s.prov, e)
    ensures CoverageInv(c, s.(store := StoreNext(s.store, e)))
  {
    if Running(s) {
      var post := s.(store := StoreNext(s.store, e));
      ForeignStepsKeepWatch(s.store, e, s.prov.watch.value);
      forall v: nat {:trigger CommitIn(post.store, c.ns, v)}
        | CommitIn(post.store, c.ns, v) && s.prov.aux.regVersion < v && s.prov.aux.attemptVersion < v
        ensures Covered(post, v)
      {
        CoverageOne(c, s, e, v);
      }
    }
  }

  lemma CoverageOne(c: Config, s: State, e: StoreStep, v: nat)
    requires StartupInv(c, s) && StoreInv(s.store) && CoverageInv(c, s) && Running(s)
    requires StoreEnabled(s.store, e) && Foreign(s.prov, e)
    requires CommitIn(StoreNext(s.store, e), c.ns, v) && s.prov.aux.regVersion < v && s.prov.aux.attemptVersion < v
    ensures s.prov.watch.value in StoreNext(s.store, e).chans && Covered(s.(store := StoreNext(s.store, e)), v)
  {
    VersionsStep(s.store, e);
    ForeignStepsKeepWatch(s.store, e, s.prov.watch.value);
    if v > s.store.Version() {
      assert MsgOf(StoreNext(s.store, e), v) in StoreNext(s.store, e).pending;
    } else {
      assert CommitIn(s.store, c.ns, v);
      match e
      case BeginBroadcast(m) => CoverageBegin(c, s, m, v);
      case SendNext => CoverageSend(c, s, v);
      case EndBroadcast => CoverageEnd(c, s, v);
      case _ => CoverageKept(c, s, e, v);
    }
  }

  lemma CoverageRefresh(c: Config, s: State, listing: Overrides, r: RefreshStep)
    requires c.Valid() && CoverageInv(c, s) && RefreshEnabled(s.prov, r)
    ensures CoverageInv(c, s.(prov := RefreshNext(c, s.prov, s.store.Version(), listing, r)))
  {
    var post := s.(prov := RefreshNext(c, s.prov, s.store.Version(), listing, r));
    if Running(post) {
      forall v: nat {:trigger CommitIn(post.store, c.ns, v)}
        | CommitIn(post.store, c.ns, v) && post.prov.aux.regVersion < v && post.prov.aux.attemptVersion < v
        ensures Covered(post, v)
      {
        assert Covered(s, v);
      }
    }
  }

  lemma CoverageLoop(c: Config, s: State, l: LoopStep)
    requires c.Valid() && StartupInv(c, s) && CoverageInv(c, s) && LoopEnabled(s, l)
    ensures CoverageInv(c, LoopNext(c, s, l))
  {
    var post := LoopNext(c, s, l);
    if Running(post) && !l.Register? {
      forall v: nat {:trigger CommitIn(post.store, c.ns, v)}
        | CommitIn(post.store, c.ns, v) && post.prov.aux.regVersion < v && post.prov.aux.attemptVersion < v
        ensures Covered(post, v)
      {
        assert CommitIn(s.store, c.ns, v);
        assert Covered(s, v);
        assert IsPending(s.store, v) ==> IsPending(post.store, v);
      }
    }
  }

  lemma CoverageClient(c: Config, s: State, k: ClientStep)
    requires StartupInv(c, s) && CoverageInv(c, s) && ClientEnabled(s.prov, k)
    ensures CoverageInv(c, s.(prov := ClientNext(s.prov, k)))
  {
    var post := s.(prov := ClientNext(s.prov, k));
    if Running(post) {
      forall v: nat {:trigger CommitIn(post.store, c.ns, v)}
        | CommitIn(post.store, c.ns, v) && post.prov.aux.regVersion < v && post.prov.aux.attemptVersion < v
        ensures Covered(post, v)
      {
        assert Covered(s, v);
      }
    }
  }

  // ---------------------------------------------------------------------------------------------
  // Subscribers' channels
  // ---------------------------------------------------------------------------------------------

  /** A subscriber's channel is open exactly while it is in the list; it is there once and closed once. */
  ghost predicate SubsInv(p: Provider) {
    && (forall i :: 0 <= i < |p.subs| ==> p.subs[i] in p.subChans)
    && Distinct(p.subs)
    && (forall id :: id in p.subChans ==> (p.subChans[id].open <==> id in p.subs))
    && (forall id :: id in p.subChans ==> p.subChans[id].closes == if p.subChans[id].open then 0 else 1)
    && (forall id :: id in p.subChans && !p.subChans[id].open ==>
          p.subChans[id].cancelled || (p.closed && !p.subChans[id].late))
    && (forall id :: id in p.subChans ==> (p.subChans[id].late ==> p.closed))
    && (p.closed ==> forall id :: id in p.subs && id in p.subChans ==> p.subChans[id].late)
    && (p.loop.Notifying? ==> p.loop.next <= |p.subs|)
    && (p.closed ==> p.cancelled && p.loop.Exited?)
  }

  lemma SubsClient(p: Provider, k: ClientStep)
    requires SubsInv(p) && ClientEnabled(p, k)
    ensures SubsInv(ClientNext(p, k))
  {
    match k
    case AskRefresh =>
    case Subscribe(id) => SubsSubscribe(p, id);
    case RemoveSub(id) => SubsRemove(p, id);
    case CancelSub(id) => SubsTouch(p, ClientNext(p, k), id);
    case SubReceive(id) => SubsTouch(p, ClientNext(p, k), id);
    case SubGet(id) => SubsTouch(p, ClientNext(p, k), id);
    case FinishClose => SubsClose(p);
  }

  lemma SubsTouch(p: Provider, post: Provider, id: nat)
    requires SubsInv(p) && id in p.subChans && id in post.subChans
    requires post == p.(subChans := p.subChans[id := post.subChans[id]])
    requires var a, b := p.subChans[id], post.subChans[id];
      b.open == a.open && b.closes == a.closes && b.late == a.late && (a.cancelled ==> b.cancelled)
    ensures SubsInv(post)
  {
  }

  lemma SubsClose(p: Provider)
    requires SubsInv(p) && ClientEnabled(p, FinishClose)
    ensures SubsInv(ClientNext(p, FinishClose))
  {
    var post := ClientNext(p, FinishClose);
    forall id | id in post.subChans
      ensures var a, b := p.subChans[id], post.subChans[id];
        !b.open && b.closes == 1 && b.late == a.late && !a.late
    {
    }
  }

  lemma SubsSubscribe(p: Provider, id: nat)
    requires SubsInv(p) && ClientEnabled(p, Subscribe(id))
    ensures SubsInv(ClientNext(p, Subscribe(id)))
  {
    var post := ClientNext(p, Subscribe(id));
    forall x
      ensures x in post.subs <==> x in p.subs || x == id
    {
    }
  }

  lemma SubsRemove(p: Provider, id: nat)
    requires SubsInv(p) && ClientEnabled(p, RemoveSub(id))
    ensures SubsInv(ClientNext(p, RemoveSub(id)))
  {
    var post := ClientNext(p, RemoveSub(id));
    CutLeavesOthers(p.subs, FirstIndex(p.subs, id));
    forall i | 0 <= i < |post.subs|
      ensures post.subs[i] in post.subChans
    {
      assert post.subs[i] in p.subs;
    }
  }

  /** The event loop keeps the lifecycle, and no fan-out ever meets a closed channel. */
  lemma SubsLoop(c: Config, s: State, l: LoopStep)
    requires c.Valid() && SubsInv(s.prov) && LoopEnabled(s, l)
    ensures SubsInv(LoopNext(c, s, l).prov)
    ensures l.NotifyNext? ==> s.prov.subChans[s.prov.subs[s.prov.loop.next]].open
  {
  }

  lemma SubsRefresh(c: Config, p: Provider, version: nat, listing: Overrides, r: RefreshStep)
    requires c.Valid() && SubsInv(p) && RefreshEnabled(p, r)
    ensures SubsInv(RefreshNext(c, p, version, listing, r))
  {
  }

  // ---------------------------------------------------------------------------------------------
  // No lost wake-up
  // ---------------------------------------------------------------------------------------------

  /** A subscriber that has not yet seen a change it is owed will still be woken: something is queued
    * for it, or it is about to call Get. */
  predicate Awake(ch: SubChan) {
    ch.Owed() <= ch.seen || ch.buf != [] || ch.mustGet
  }

  ghost predicate SubWakeInv(c: Config, st: Store, p: Provider, id: nat)
    requires id in p.subChans
  {
    var ch := p.subChans[id];
    && ch.Owed() <= p.aux.snapVersion
    && ch.seen <= p.aux.snapVersion
    && |ch.buf| <= c.subBuffer
    && (forall i :: 0 <= i < |ch.buf| ==> Genuine(st, ch.buf[i]) && ch.buf[i].version <= p.aux.snapVersion)
    && Awake(ch)
  }

  ghost predicate WakeInv(c: Config, s: State) {
    var p := s.prov;
    && (forall id {:trigger SubWakeInv(c, s.store, p, id)} :: id in p.subChans ==> SubWakeInv(c, s.store, p, id))
    && (p.loop.Notifying? ==> Told(p, p.loop.msg.version, p.loop.next))
  }

  /** The first n subscribers are owed a version at least. */
  ghost predicate Told(p: Provider, version: nat, n: nat) {
    forall i :: 0 <= i < n && i < |p.subs| && p.subs[i] in p.subChans ==> version <= p.subChans[p.subs[i]].Owed()
  }

  lemma WakeEnv(c: Config, s: State, e: StoreStep)
    requires VersionsInv(s.store) && WakeInv(c, s) && StoreEnabled(s.store, e)
    ensures WakeInv(c, s.(store := StoreNext(s.store, e)))
  {
    VersionsStep(s.store, e);
    forall id | id in s.prov.subChans
      ensures SubWakeInv(c, StoreNext(s.store, e), s.prov, id)
    {
      assert SubWakeInv(c, s.store, s.prov, id);
    }
  }

  lemma WakeRefresh(c: Config, s: State, listing: Overrides, r: RefreshStep)
    requires c.Valid() && SnapshotInv(c, s) && WakeInv(c, s) && RefreshEnabled(s.prov, r)
    ensures WakeInv(c, s.(prov := RefreshNext(c, s.prov, s.store.Version(), listing, r)))
  {
    var post := RefreshNext(c, s.prov, s.store.Version(), listing, r);
    forall id | id in post.subChans
      ensures SubWakeInv(c, s.store, post, id)
    {
      assert SubWakeInv(c, s.store, s.prov, id);
    }
  }

  lemma WakeFanned(c: Config, st: Store, p: Provider, q: Provider, m: Msg, id: nat)
    requires id in p.subChans && SubWakeInv(c, st, p, id) && 0 < c.subBuffer
    requires Genuine(st, m) && m.version <= p.aux.snapVersion == q.aux.snapVersion
    requires id in q.subChans && q.subChans[id] == Fanned(p.subChans[id], c.subBuffer, m)
    ensures SubWakeInv(c, st, q, id)
    ensures q.subChans[id].Owed() == Max(p.subChans[id].Owed(), m.version)
  {
    var a, b := p.subChans[id], q.subChans[id];
    assert b.told[..|a.told|] == a.told;
  }

  lemma WakeNotify(c: Config, s: State)
    requires c.Valid() && SubsInv(s.prov) && HandlingInv(c, s) && WakeInv(c, s) && LoopEnabled(s, NotifyNext)
    ensures WakeInv(c, LoopNext(c, s, NotifyNext))
  {
    NotifiedOne(c, s);
    WakeNotified(c, s.store, s.prov, LoopNext(c, s, NotifyNext).prov);
  }

  lemma NotifiedOne(c: Config, s: State)
    requires c.Valid() && LoopEnabled(s, NotifyNext)
    ensures var p, q, id := s.prov, LoopNext(c, s, NotifyNext).prov, s.prov.subs[s.prov.loop.next];
      && q == p.(loop := Notifying(p.loop.msg, p.loop.next + 1),
                 subChans := p.subChans[id := Fanned(p.subChans[id], c.subBuffer, p.loop.msg)])
      && LoopNext(c, s, NotifyNext).store == s.store
  {
  }

  lemma WakeNotified(c: Config, st: Store, p: Provider, q: Provider)
    requires SubsInv(p) && p.loop.Notifying? && p.loop.next < |p.subs| && 0 < c.subBuffer
    requires Genuine(st, p.loop.msg) && p.loop.msg.version <= p.aux.snapVersion
    requires Told(p, p.loop.msg.version, p.loop.next)
    requires forall id {:trigger SubWakeInv(c, st, p, id)} :: id in p.subChans ==> SubWakeInv(c, st, p, id)
    requires var id := p.subs[p.loop.next];
      q == p.(loop := Notifying(p.loop.msg, p.loop.next + 1),
              subChans := p.subChans[id := Fanned(p.subChans[id], c.subBuffer, p.loop.msg)])
    ensures forall id {:trigger SubWakeInv(c, st, q, id)} :: id in q.subChans ==> SubWakeInv(c, st, q, id)
    ensures Told(q, p.loop.msg.version, p.loop.next + 1)
  {
    var now := p.subs[p.loop.next];
    assert SubWakeInv(c, st, p, now);
    WakeFanned(c, st, p, q, p.loop.msg, now);
    forall id | id in q.subChans
      ensures SubWakeInv(c, st, q, id)
    {
      if id != now {
        assert SubWakeInv(c, st, p, id);
      }
    }
    ToldOneMore(p, q);
  }

  lemma ToldOneMore(p: Provider, q: Provider)
    requires SubsInv(p) && p.loop.Notifying? && p.loop.next < |p.subs| && q.subs == p.subs
    requires Told(p, p.loop.msg.version, p.loop.next) && q.subChans.Keys == p.subChans.Keys
    requires forall id :: id in p.subChans && id != p.subs[p.loop.next] ==> q.subChans[id] == p.subChans[id]
    requires p.loop.msg.version <= q.subChans[p.subs[p.loop.next]].Owed()
    ensures Told(q, p.loop.msg.version, p.loop.next + 1)
  {
    forall i | 0 <= i < p.loop.next + 1 && i < |q.subs| && q.subs[i] in q.subChans
      ensures p.loop.msg.version <= q.subChans[q.subs[i]].Owed()
    {
      if i < p.loop.next {
        assert p.subs[i] != p.subs[p.loop.next];
      }
    }
  }

  lemma WakeLoop(c: Config, s: State, l: LoopStep)
    requires c.Valid() && SubsInv(s.prov) && HandlingInv(c, s) && WakeInv(c, s) && LoopEnabled(s, l)
    ensures WakeInv(c, LoopNext(c, s, l))
  {
    LoopKeepsDb(c, s, l);
    if l.NotifyNext? {
      WakeNotify(c, s);
    } else {
      var post := LoopNext(c, s, l);
      forall id | id in post.prov.subChans
        ensures SubWakeInv(c, post.store, post.prov, id)
      {
        assert SubWakeInv(c, s.store, s.prov, id);
      }
    }
  }

  lemma WakeClient(c: Config, s: State, k: ClientStep)
    requires SubsInv(s.prov) && WakeInv(c, s) && ClientEnabled(s.prov, k)
    ensures WakeInv(c, s.(prov := ClientNext(s.prov, k)))
  {
    var post := ClientNext(s.prov, k);
    ClientKeepsRefresh(s.prov, k);
    forall id | id in post.subChans
      ensures SubWakeInv(c, s.store, post, id)
    {
      assert id in s.prov.subChans ==> SubWakeInv(c, s.store, s.prov, id);
      WakeClientOne(c, s.store, s.prov, k, id);
    }
    if post.loop.Notifying? {
      NotifyingKeepsTold(s.prov, k);
    }
  }

  lemma WakeClientOne(c: Config, st: Store, p: Provider, k: ClientStep, id: nat)
    requires ClientEnabled(p, k) && id in ClientNext(p, k).subChans
    requires id in p.subChans ==> SubWakeInv(c, st, p, id)
    ensures SubWakeInv(c, st, ClientNext(p, k), id)
  {
  }

  /** While the loop fans out, the list stays as it is, and callers never take back what was told. */
  lemma NotifyingKeepsTold(p: Provider, k: ClientStep)
    requires SubsInv(p) && ClientEnabled(p, k) && p.loop.Notifying?
    ensures ClientNext(p, k).subs == p.subs
    ensures forall id :: id in p.subChans ==>
      id in ClientNext(p, k).subChans && ClientNext(p, k).subChans[id].told == p.subChans[id].told
  {
  }

  // ---------------------------------------------------------------------------------------------
  // Together
  // ---------------------------------------------------------------------------------------------

  ghost predicate Inv(c: Config, s: State)
    requires c.Valid()
  {
    && StoreInv(s.store)
    && StartupInv(c, s)
    && SnapshotInv(c, s)
    && CountersInv(s.prov)
    && HandlingInv(c, s)
    && CoverageInv(c, s)
    && SubsInv(s.prov)
    && WakeInv(c, s)
  }

  lemma InvInitially(c: Config)
    requires c.Valid()
    ensures Inv(c, START)
  {
    StoreInvInitially();
  }

  lemma InvEnv(c: Config, s: State, e: StoreStep)
    requires c.Valid() && Inv(c, s) && StoreEnabled(s.store, e) && Foreign(s.prov, e)
    ensures Inv(c, s.(store := StoreNext(s.store, e)))
  {
    StoreInvStep(s.store, e);
    StartupEnv(c, s, e);
    SnapshotEnv(c, s, e);
    HandlingEnv(c, s, e);
    CoverageEnv(c, s, e);
    WakeEnv(c, s, e);
  }

  lemma InvRefresh(c: Config, s: State, r: RefreshStep)
    requires c.Valid() && Inv(c, s) && RefreshEnabled(s.prov, r)
    ensures Inv(c, s.(prov := RefreshNext(c, s.prov, s.store.Version(), ListOf(s.store.db.data, c.ns), r)))
  {
    var listing := ListOf(s.store.db.data, c.ns);
    StartupRefresh(c, s, listing, r);
    SnapshotRefresh(c, s, r);
    CountersRefresh(c, s.prov, s.store.Version(), listing, r);
    HandlingRefresh(c, s, listing, r);
    CoverageRefresh(c, s, listing, r);
    SubsRefresh(c, s.prov, s.store.Version(), listing, r);
    WakeRefresh(c, s, listing, r);
  }

  lemma StoreOfLoop(c: Config, s: State, l: LoopStep)
    requires c.Valid() && StoreInv(s.store) && LoopEnabled(s, l)
    ensures StoreInv(LoopNext(c, s, l).store)
  {
    match l
    case Register(id) =>
      StoreInvStep(s.store, Watch(c.ns, id));
      StoreInvStep(StoreNext(s.store, Watch(c.ns, id)), CancelWatch(id));
    case TakeEvent => StoreInvStep(s.store, ReceiveWatch(s.prov.watch.value));
    case Cancel =>
      if s.prov.watch.Some? && s.prov.watch.value in s.store.chans {
        StoreInvStep(s.store, CancelWatch(s.prov.watch.value));
      }
    case _ =>
  }

  lemma InvLoop(c: Config, s: State, l: LoopStep)
    requires c.Valid() && Inv(c, s) && LoopEnabled(s, l)
    ensures Inv(c, LoopNext(c, s, l))
  {
    StoreOfLoop(c, s, l);
    StartupLoop(c, s, l);
    SnapshotLoop(c, s, l);
    CountersLoop(c, s, l);
    if l.TakeEvent? {
      HandlingTake(c, s);
    } else {
      HandlingLoop(c, s, l);
    }
    CoverageLoop(c, s, l);
    SubsLoop(c, s, l);
    WakeLoop(c, s, l);
  }

  lemma InvClient(c: Config, s: State, k: ClientStep)
    requires c.Valid() && Inv(c, s) && ClientEnabled(s.prov, k)
    ensures Inv(c, s.(prov := ClientNext(s.prov, k)))
  {
    StartupClient(c, s, k);
    SnapshotClient(c, s, k);
    CountersClient(s.prov, k);
    HandlingClient(c, s, k);
    CoverageClient(c, s, k);
    SubsClient(s.prov, k);
    WakeClient(c, s, k);
  }

  lemma InvStep(c: Config, s: State, step: Step)
    requires c.Valid() && Inv(c, s) && Enabled(s, step)
    ensures Inv(c, Next(c, s, step))
  {
    match step
    case Env(e) => InvEnv(c, s, e);
    case Refresh(r) => InvRefresh(c, s, r);
    case EventLoop(l) => InvLoop(c, s, l);
    case Client(k) => InvClient(c, s, k);
  }
}
