/** What holds over whole runs of the reload protocol. */
module ReloadTheorems {
  import opened Wrappers
  import opened Sequences
  import opened StoreTypes
  import opened ConfigTypes
  import opened FieldValues
  import opened AuditedStore
  import opened StoreSteps
  import opened Snapshots
  import opened Reload
  import opened ReloadInvariants

  lemma {:induction false} RunKeepsInv(c: Config, run: Run, i: nat)
    requires c.Valid() && run.Of(c) && i <= |run.steps|
    ensures Inv(c, run.states[i])
  {
    if i == 0 {
      InvInitially(c);
    } else {
      RunKeepsInv(c, run, i - 1);
      InvStep(c, run.states[i - 1], run.steps[i - 1]);
    }
  }

  // ---------------------------------------------------------------------------------------------
  // Monotonicity
  // ---------------------------------------------------------------------------------------------

  ghost predicate Advances(s: State, t: State) {
    && s.store.db.audit <= t.store.db.audit
    && s.store.versions <= t.store.versions
    && s.prov.aux.snapVersion <= t.prov.aux.snapVersion
    && s.prov.aux.installs <= t.prov.aux.installs
    && s.prov.refreshCount <= t.prov.refreshCount
    && s.prov.lastRefresh <= t.prov.lastRefresh
    && (s.prov.current.Some? ==> t.prov.current.Some?)
    && (s.prov.cancelled ==> t.prov.cancelled) && (s.prov.closed ==> t.prov.closed)
    && (forall id :: id in s.prov.subChans ==>
          id in t.prov.subChans && SubAdvances(s.prov.subChans[id], t.prov.subChans[id]))
  }

  predicate SubAdvances(a: SubChan, b: SubChan) {
    a.Owed() <= b.Owed() && a.seen <= b.seen && a.closes <= b.closes && (!a.open ==> !b.open) &&
    (a.cancelled ==> b.cancelled)
  }

  lemma AdvancesEnv(s: State, e: StoreStep)
    requires VersionsInv(s.store) && StoreEnabled(s.store, e)
    ensures Advances(s, s.(store := StoreNext(s.store, e)))
  {
    VersionsStep(s.store, e);
  }

  lemma AdvancesRefresh(c: Config, s: State, listing: Overrides, r: RefreshStep)
    requires c.Valid() && SnapshotInv(c, s) && CountersInv(s.prov) && RefreshEnabled(s.prov, r)
    ensures Advances(s, s.(prov := RefreshNext(c, s.prov, s.store.Version(), listing, r)))
  {
  }

  lemma AdvancesLoop(c: Config, s: State, l: LoopStep)
    requires c.Valid() && LoopEnabled(s, l)
    ensures Advances(s, LoopNext(c, s, l))
  {
  }

  lemma AdvancesClient(c: Config, s: State, k: ClientStep)
    requires WakeInv(c, s) && SubsInv(s.prov) && ClientEnabled(s.prov, k)
    ensures Advances(s, s.(prov := ClientNext(s.prov, k)))
  {
    if k.SubGet? {
      assert SubWakeInv(c, s.store, s.prov, k.id);
    }
  }

  lemma StepAdvances(c: Config, s: State, step: Step)
    requires c.Valid() && Inv(c, s) && Enabled(s, step)
    ensures Advances(s, Next(c, s, step))
  {
    match step
    case Env(e) => AdvancesEnv(s, e);
    case Refresh(r) => AdvancesRefresh(c, s, ListOf(s.store.db.data, c.ns), r);
    case EventLoop(l) => AdvancesLoop(c, s, l);
    case Client(k) => AdvancesClient(c, s, k);
  }

  /** Snapshots, counters and what subscribers have seen never go back in a run, and a channel once
    * closed stays closed. */
  lemma {:induction false} RunAdvances(c: Config, run: Run, i: nat, j: nat)
    requires c.Valid() && run.Of(c) && i <= j <= |run.steps|
    ensures Advances(run.states[i], run.states[j])
    decreases j
  {
    if i < j {
      RunAdvances(c, run, i, j - 1);
      RunStepAdvances(c, run, j - 1);
      AdvancesOn(run.states[i], run.states[j - 1], run.states[j]);
    }
  }

  lemma RunStepAdvances(c: Config, run: Run, i: nat)
    requires c.Valid() && run.Of(c) && i < |run.steps|
    ensures Advances(run.states[i], run.states[i + 1])
  {
    RunKeepsInv(c, run, i);
    StepAdvances(c, run.states[i], run.steps[i]);
  }

  lemma AdvancesOn(s: State, t: State, u: State)
    requires Advances(s, t) && Advances(t, u)
    ensures Advances(s, u)
  {
    PrefixGrows(s.store.db.audit, t.store.db.audit, u.store.db.audit);
    PrefixGrows(s.store.versions, t.store.versions, u.store.versions);
    forall id | id in s.prov.subChans
      ensures id in u.prov.subChans && SubAdvances(s.prov.subChans[id], u.prov.subChans[id])
    {
      assert SubAdvances(s.prov.subChans[id], t.prov.subChans[id]);
    }
  }

  // ---------------------------------------------------------------------------------------------
  // Convergence despite drops
  // ---------------------------------------------------------------------------------------------

  /** Nothing is on its way to the snapshot: the loop waits, its queue is empty, and no broadcast for
    * its namespace is pending or under way. */
  ghost predicate Quiet(c: Config, s: State) {
    && s.prov.loop.Idle?
    && s.prov.watch.Some? && s.prov.watch.value in s.store.chans
    && s.store.chans[s.prov.watch.value].buf == []
    && (forall m :: m in s.store.pending ==> m.event.namespace != c.ns)
    && (s.store.sending.Some? ==> s.store.sending.value.msg.event.namespace != c.ns)
  }

  /** A write of the namespace was committed after New listed the store and before it watched it. */
  ghost predicate WrittenInStartupGap(c: Config, s: State) {
    exists v: nat :: CommitIn(s.store, c.ns, v) && s.prov.aux.initVersion < v <= s.prov.aux.regVersion
  }

  /** The latest List call was made after every commit of the namespace. */
  ghost predicate ListedEverything(c: Config, s: State) {
    forall v: nat {:trigger CommitIn(s.store, c.ns, v)} :: CommitIn(s.store, c.ns, v) ==> v <= s.prov.aux.attemptVersion
  }

  /** Dropped events do no harm. In every quiet state of every run whose loop has not been told to
    * stop, the latest refresh attempt has seen every write to the namespace, if and only if New's own
    * listing was not the only attempt so far or no write fell between that listing and the watch. */
  lemma QuietMeansListed(c: Config, run: Run, i: nat)
    requires c.Valid() && run.Of(c) && i <= |run.steps|
    requires Running(run.states[i]) && Quiet(c, run.states[i])
    ensures ListedEverything(c, run.states[i])
       <==> 2 <= run.states[i].prov.aux.attempts || !WrittenInStartupGap(c, run.states[i])
  {
    var s := run.states[i];
    RunKeepsInv(c, run, i);
    forall v: nat {:trigger CommitIn(s.store, c.ns, v)}
      | CommitIn(s.store, c.ns, v) && s.prov.aux.regVersion < v
      ensures v <= s.prov.aux.attemptVersion
    {
      if s.prov.aux.attemptVersion < v {
        QuietIsUncovered(c, s, v);
        assert false;
      }
    }
  }

  lemma QuietIsUncovered(c: Config, s: State, v: nat)
    requires c.Valid() && Inv(c, s) && Running(s) && Quiet(c, s) && CommitIn(s.store, c.ns, v)
    ensures !Covered(s, v)
  {
    forall m | m in s.store.pending
      ensures m.version != v
    {
      assert Genuine(s.store, m);
    }
    if s.store.sending.Some? {
      SendingIsGenuine(s.store);
    }
  }

  /** So in a quiet state the snapshot is the base with exactly the stored overrides, or the latest
    * attempt failed and its error is recorded; unless the newest write fell into the startup gap and
    * nothing has been listed since. */
  lemma Convergence(c: Config, run: Run, i: nat)
    requires c.Valid() && run.Of(c) && i <= |run.steps|
    requires Running(run.states[i]) && Quiet(c, run.states[i])
    requires 2 <= run.states[i].prov.aux.attempts || !WrittenInStartupGap(c, run.states[i])
    ensures var s := run.states[i];
      && (s.prov.aux.attemptOk ==>
            s.prov.current == Some(c.SnapshotOf(ListOf(s.store.db.data, c.ns))) && s.prov.lastErr.Cleared?)
      && (!s.prov.aux.attemptOk ==> s.prov.lastErr.Failure?)
  {
    var s := run.states[i];
    QuietMeansListed(c, run, i);
    RunKeepsInv(c, run, i);
    forall v: nat | s.prov.aux.attemptVersion <= v < s.store.Version()
      ensures s.store.db.audit[v].namespace != c.ns
    {
      assert CommitIn(s.store, c.ns, v + 1) ==> v + 1 <= s.prov.aux.attemptVersion;
    }
    ListingUnchanged(s.store, c.ns, s.prov.aux.attemptVersion, s.store.Version());
  }

  // ---------------------------------------------------------------------------------------------
  // What readers and subscribers see
  // ---------------------------------------------------------------------------------------------

  /** Get never returns anything but the base with the overrides of one store version. */
  lemma SnapshotsAreListings(c: Config, run: Run, i: nat)
    requires c.Valid() && run.Of(c) && i <= |run.steps| && run.states[i].prov.current.Some?
    ensures var s := run.states[i];
      && s.prov.aux.snapVersion < |s.store.versions|
      && s.prov.current == Some(c.SnapshotOf(ListOf(s.store.versions[s.prov.aux.snapVersion], c.ns)))
  {
    RunKeepsInv(c, run, i);
  }

  /** For a type without pointers: bootstrap, secret, untagged and hidden leaves equal the base in
    * every snapshot of every run, whatever is written to the store. */
  lemma UnmanagedLeavesNeverChange(c: Config, run: Run, i: nat, path: seq<nat>)
    requires c.Valid() && run.Of(c) && i <= |run.steps| && run.states[i].prov.current.Some?
    requires PointerFree(c.t)
    requires ValidPath(c.t, path) && !Nests(TypeAt(c.t, path)) && !Managed(c.t, path)
    ensures GetField(c.base, path).Some? && GetField(c.base, path).value.VLeaf?
    ensures path in run.states[i].prov.current.value
    ensures run.states[i].prov.current.value[path] == Some(GetField(c.base, path).value.leaf)
  {
    SnapshotsAreListings(c, run, i);
    var s := run.states[i];
    LeafPathsAreLeaves(c.t, path);
    PointerFreeMeaning(c.t, c.base, ListOf(s.store.versions[s.prov.aux.snapVersion], c.ns), c.decoders, path);
  }

  /** After a subscriber has received an event, every snapshot anyone can get was listed at or after
    * the commit of the write that the event reports. */
  lemma ReceivedEventsAreVisible(c: Config, run: Run, i: nat, j: nat, id: nat)
    requires c.Valid() && run.Of(c) && i < j <= |run.steps|
    requires run.steps[i] == Client(SubReceive(id))
    ensures id in run.states[i].prov.subChans && run.states[i].prov.subChans[id].buf != []
    ensures var m := run.states[i].prov.subChans[id].buf[0];
      Genuine(run.states[j].store, m) && m.version <= run.states[j].prov.aux.snapVersion
  {
    RunKeepsInv(c, run, i);
    RunAdvances(c, run, i, j);
    assert SubWakeInv(c, run.states[i].store, run.states[i].prov, id);
  }

  lemma RunKeepsWake(c: Config, run: Run, i: nat)
    requires c.Valid() && run.Of(c) && i <= |run.steps|
    ensures SubsInv(run.states[i].prov) && WakeInv(c, run.states[i])
    ensures i < |run.steps| ==> Enabled(run.states[i], run.steps[i])
  {
    RunKeepsInv(c, run, i);
  }

  /** No wake-up is lost. Once the loop has fanned out a change, every subscriber then registered that
    * later has an empty channel and has called Get after each receive holds a snapshot listed at or
    * after that change, even if the event itself was dropped for it. */
  lemma NoLostWakeup(c: Config, run: Run, i: nat, j: nat, id: nat)
    requires c.Valid() && run.Of(c) && i < j <= |run.steps|
    requires run.steps[i] == EventLoop(NotifyEnd) && id in run.states[i].prov.subs
    ensures run.states[i].prov.loop.Notifying? && id in run.states[j].prov.subChans
    ensures var sub := run.states[j].prov.subChans[id];
      sub.buf == [] && !sub.mustGet ==> run.states[i].prov.loop.msg.version <= sub.seen
  {
    RunKeepsWake(c, run, i);
    RunKeepsWake(c, run, j);
    RunAdvances(c, run, i, j);
    var p := run.states[i].prov;
    assert p.loop.Notifying? && p.loop.next >= |p.subs|;
    var k :| 0 <= k < |p.subs| && p.subs[k] == id;
    assert Told(p, p.loop.msg.version, p.loop.next);
    assert SubWakeInv(c, run.states[j].store, run.states[j].prov, id);
  }

  // ---------------------------------------------------------------------------------------------
  // Channels
  // ---------------------------------------------------------------------------------------------

  /** In every state of every run, a subscriber's or watcher's channel is open exactly while it is in
    * its list, where it occurs once; it has been closed at most once; and a send is only ever made on
    * an open channel. */
  lemma ChannelLifecycle(c: Config, run: Run, i: nat)
    requires c.Valid() && run.Of(c) && i <= |run.steps|
    ensures var p, st := run.states[i].prov, run.states[i].store;
      && (forall id :: id in p.subChans ==>
            && (p.subChans[id].open <==> id in p.subs)
            && p.subChans[id].closes == if p.subChans[id].open then 0 else 1)
      && Distinct(p.subs)
      && (forall id :: id in st.chans ==>
            && (st.chans[id].open <==> Registered(st.watchers, id))
            && st.chans[id].closes == if st.chans[id].open then 0 else 1)
      && DistinctIds(st.watchers)
    ensures i < |run.steps| && run.steps[i] == EventLoop(NotifyNext) ==>
      var p := run.states[i].prov; p.subChans[p.subs[p.loop.next]].open
    ensures i < |run.steps| && run.steps[i] == Env(SendNext) ==>
      var st := run.states[i].store; st.chans[st.watchers[st.sending.value.next].id].open
  {
    RunKeepsInv(c, run, i);
    if i < |run.steps| && run.steps[i] == EventLoop(NotifyNext) {
      SubsLoop(c, run.states[i], NotifyNext);
    }
    if i < |run.steps| && run.steps[i] == Env(SendNext) {
      LifecycleStep(run.states[i].store, SendNext);
    }
  }

  /** Close does not reach a subscriber that comes after it. After Close, once the goroutine of a
    * cancelled subscription has run, a channel is open exactly if its subscriber came after Close and
    * has not been cancelled. */
  lemma OpenAfterClose(c: Config, run: Run, i: nat, id: nat)
    requires c.Valid() && run.Of(c) && i <= |run.steps|
    requires run.states[i].prov.closed && id in run.states[i].prov.subChans
    requires run.states[i].prov.subChans[id].cancelled ==> !Enabled(run.states[i], Client(RemoveSub(id)))
    ensures var sub := run.states[i].prov.subChans[id];
      sub.open <==> sub.late && !sub.cancelled
  {
    RunKeepsInv(c, run, i);
  }

  /** A cancelled subscription ends: from then on its channel is closed, or it can be taken out and closed
    * as soon as no fan-out holds the list. */
  lemma CancelledSubscriptionsEnd(c: Config, run: Run, i: nat, j: nat, id: nat)
    requires c.Valid() && run.Of(c) && i < j <= |run.steps| && run.steps[i] == Client(CancelSub(id))
    ensures id in run.states[j].prov.subChans
    ensures var s := run.states[j];
      !s.prov.subChans[id].open || s.prov.loop.Notifying? || Enabled(s, Client(RemoveSub(id)))
  {
    RunAdvances(c, run, i + 1, j);
    RunKeepsWake(c, run, j);
    var p := run.states[j].prov;
    if p.subChans[id].open {
      var k :| 0 <= k < |p.subs| && p.subs[k] == id;
      assert FirstIndex(p.subs, id) <= k;
    }
  }

  /** So does the loop: once cancelled, whenever it waits it can stop, and the store's channel is cancelled. */
  lemma CancelledLoopsStop(c: Config, run: Run, i: nat, j: nat)
    requires c.Valid() && run.Of(c) && i < j <= |run.steps| && run.steps[i] == EventLoop(Cancel)
    ensures var s := run.states[j];
      && (s.prov.loop.Idle? ==> Enabled(s, EventLoop(SeeCancel)) && Next(c, s, EventLoop(SeeCancel)).prov.loop.Exited?)
      && (s.prov.watch.Some? ==>
            s.prov.watch.value in s.store.chans && s.store.chans[s.prov.watch.value].cancelled)
  {
    RunAdvances(c, run, i + 1, j);
    RunKeepsInv(c, run, j);
  }

  lemma ExitedStays(c: Config, s: State, step: Step)
    requires c.Valid() && Enabled(s, step) && s.prov.loop.Exited?
    ensures SamePublication(s.prov, Next(c, s, step).prov)
  {
    match step
    case Env(_) =>
    case Refresh(_) =>
    case EventLoop(_) =>
    case Client(k) => ClientKeepsRefresh(s.prov, k);
  }

  ghost predicate SamePublication(p: Provider, q: Provider) {
    && q.loop == p.loop && q.current == p.current
    && q.refreshCount == p.refreshCount && q.lastRefresh == p.lastRefresh && q.lastErr == p.lastErr
  }

  /** Once the loop has seen the cancellation, or its watch channel closed, it is over: the last snapshot
    * and the figures stay as they are for good. */
  lemma {:induction false} StoppedLoopsPublishNothing(c: Config, run: Run, i: nat, j: nat)
    requires c.Valid() && run.Of(c) && i < j <= |run.steps|
    requires run.steps[i] == EventLoop(SeeCancel) || run.steps[i] == EventLoop(SeeClosedWatch)
    ensures run.states[j].prov.loop.Exited?
    ensures SamePublication(run.states[i].prov.(loop := Exited), run.states[j].prov)
    decreases j
  {
    RunKeepsWake(c, run, j - 1);
    if i + 1 < j {
      StoppedLoopsPublishNothing(c, run, i, j - 1);
      ExitedStays(c, run.states[j - 1], run.steps[j - 1]);
    }
  }

  // ---------------------------------------------------------------------------------------------
  // Refresh requests
  // ---------------------------------------------------------------------------------------------

  predicate Lists(step: Step) {
    step.Refresh? && (step.r.ListOk? || step.r.ListErr?)
  }

  /** A token is waiting, or the loop is about to list. */
  predicate ListingIsDue(p: Provider) {
    p.trigger == 1 || p.loop.AboutToList?
  }

  /** One of the steps strictly between i and j is a List call. */
  predicate ListedBetween(steps: seq<Step>, i: nat, j: nat)
    requires i < j <= |steps|
  {
    i + 1 < j && (Lists(steps[j - 1]) || ListedBetween(steps, i, j - 1))
  }

  lemma {:induction false} DueOrListed(c: Config, run: Run, i: nat, j: nat)
    requires c.Valid() && run.Of(c) && i < j <= |run.steps|
    requires run.steps[i] == Client(AskRefresh)
    ensures ListedBetween(run.steps, i, j) || ListingIsDue(run.states[j].prov)
    decreases j
  {
    RunKeepsCounters(c, run, j - 1);
    if i + 1 < j {
      DueOrListed(c, run, i, j - 1);
    }
    if i + 1 == j || !ListedBetween(run.steps, i, j - 1) {
      DueUntilListed(c, run.states[j - 1], run.steps[j - 1]);
    }
  }

  lemma {:induction false} ListedBetweenMeans(steps: seq<Step>, i: nat, j: nat)
    requires i < j <= |steps| && ListedBetween(steps, i, j)
    ensures exists k :: i < k < j && Lists(steps[k])
    decreases j
  {
    if !Lists(steps[j - 1]) {
      ListedBetweenMeans(steps, i, j - 1);
    }
  }

  /** A refresh request is not lost by coalescing: at any time after the call, the store has been
    * listed since, or a token is waiting, or the loop is about to list. */
  lemma RequestsAreNotLost(c: Config, run: Run, i: nat, j: nat)
    requires c.Valid() && run.Of(c) && i < j <= |run.steps|
    requires run.steps[i] == Client(AskRefresh)
    ensures (exists k :: i < k < j && Lists(run.steps[k])) || ListingIsDue(run.states[j].prov)
  {
    DueOrListed(c, run, i, j);
    if ListedBetween(run.steps, i, j) {
      ListedBetweenMeans(run.steps, i, j);
    }
  }

  lemma RunKeepsCounters(c: Config, run: Run, i: nat)
    requires c.Valid() && run.Of(c) && i < |run.steps|
    ensures CountersInv(run.states[i].prov)
    ensures Enabled(run.states[i], run.steps[i]) && run.states[i + 1] == Next(c, run.states[i], run.steps[i])
  {
    RunKeepsInv(c, run, i);
  }

  lemma DueUntilListed(c: Config, s: State, step: Step)
    requires c.Valid() && CountersInv(s.prov) && Enabled(s, step)
    requires ListingIsDue(s.prov) || step == Client(AskRefresh)
    ensures Lists(step) || ListingIsDue(Next(c, s, step).prov)
  {
  }

  function Occurrences(steps: seq<Step>, step: Step): nat {
    if steps == [] then 0
    else Occurrences(steps[..|steps| - 1], step) + if steps[|steps| - 1] == step then 1 else 0
  }

  lemma {:induction false} CountersCountSteps(c: Config, run: Run, i: nat)
    requires c.Valid() && run.Of(c) && i <= |run.steps|
    ensures run.states[i].prov.aux.handled == Occurrences(run.steps[..i], EventLoop(TakeEvent))
    ensures run.states[i].prov.aux.ticks == Occurrences(run.steps[..i], EventLoop(TakeTick))
    ensures run.states[i].prov.aux.asked == Occurrences(run.steps[..i], Client(AskRefresh))
  {
    if i > 0 {
      CountersCountSteps(c, run, i - 1);
      assert run.steps[..i][..i - 1] == run.steps[..i - 1];
      CountersTick(c, run.states[i - 1], run.steps[i - 1]);
    }
  }

  ghost predicate Tallied(a: Aux, b: Aux, step: Step) {
    && b.handled == a.handled + (if step == EventLoop(TakeEvent) then 1 else 0)
    && b.ticks == a.ticks + (if step == EventLoop(TakeTick) then 1 else 0)
    && b.asked == a.asked + (if step == Client(AskRefresh) then 1 else 0)
  }

  lemma CountersTick(c: Config, s: State, step: Step)
    requires c.Valid() && Enabled(s, step)
    ensures Tallied(s.prov.aux, Next(c, s, step).prov.aux, step)
  {
    match step
    case Env(_) =>
    case Refresh(r) => RefreshTallies(c, s.prov, s.store.Version(), ListOf(s.store.db.data, c.ns), r);
    case EventLoop(l) => LoopTallies(c, s, l);
    case Client(k) => ClientTallies(s.prov, k);
  }

  lemma RefreshTallies(c: Config, p: Provider, version: nat, listing: Overrides, r: RefreshStep)
    requires c.Valid() && RefreshEnabled(p, r)
    ensures Tallied(p.aux, RefreshNext(c, p, version, listing, r).aux, Refresh(r))
  {
  }

  lemma LoopTallies(c: Config, s: State, l: LoopStep)
    requires c.Valid() && LoopEnabled(s, l)
    ensures Tallied(s.prov.aux, LoopNext(c, s, l).prov.aux, EventLoop(l))
  {
  }

  lemma ClientTallies(p: Provider, k: ClientStep)
    requires ClientEnabled(p, k)
    ensures Tallied(p.aux, ClientNext(p, k).aux, Client(k))
  {
  }

  /** Coalescing bounds the work: successful refreshes, failed ones and the one under way are at most
    * one for New, one per handled event, one per tick and one per request; at most one token waits. */
  lemma RefreshesAreBounded(c: Config, run: Run, i: nat)
    requires c.Valid() && run.Of(c) && i <= |run.steps|
    ensures run.states[i].prov.refreshCount + run.states[i].prov.aux.failures
         <= 1 + Occurrences(run.steps[..i], EventLoop(TakeEvent))
              + Occurrences(run.steps[..i], EventLoop(TakeTick))
              + Occurrences(run.steps[..i], Client(AskRefresh))
    ensures run.states[i].prov.trigger <= 1
  {
    RunKeepsInv(c, run, i);
    CountersCountSteps(c, run, i);
  }

  // ---------------------------------------------------------------------------------------------
  // Stats
  // ---------------------------------------------------------------------------------------------

  /** Stats loads the error, then the time, then the count; Get may come any time later. Whatever the
    * loop does in between, a cleared error or a refresh time of the n-th success comes with a count
    * of at least n, and a Get after a count of n returns a snapshot of the n-th success or a later one. */
  lemma StatsAreOneSided(c: Config, run: Run, atErr: nat, atTime: nat, atCount: nat, atGet: nat)
    requires c.Valid() && run.Of(c) && atErr <= atTime <= atCount <= atGet <= |run.steps|
    ensures run.states[atErr].prov.lastErr.Cleared? ==>
      run.states[atErr].prov.lastErr.success <= run.states[atTime].prov.lastRefresh
    ensures run.states[atTime].prov.lastRefresh <= run.states[atCount].prov.refreshCount
    ensures run.states[atCount].prov.refreshCount <= run.states[atGet].prov.aux.installs
  {
    RunKeepsInv(c, run, atErr);
    RunKeepsInv(c, run, atTime);
    RunKeepsInv(c, run, atCount);
    RunAdvances(c, run, atErr, atTime);
    RunAdvances(c, run, atTime, atCount);
    RunAdvances(c, run, atCount, atGet);
  }

  // ---------------------------------------------------------------------------------------------
  // The startup gap
  // ---------------------------------------------------------------------------------------------

  function Last(run: Run): State
    requires run.states != []
  {
    run.states[|run.states| - 1]
  }

  lemma Then(c: Config, run: Run, step: Step) returns (longer: Run)
    requires c.Valid() && run.Of(c) && Enabled(Last(run), step)
    ensures longer.Of(c) && longer.steps == run.steps + [step]
    ensures longer.states == run.states + [Next(c, Last(run), step)]
  {
    longer := Run(run.states + [Next(c, Last(run), step)], run.steps + [step]);
  }

  lemma SucceedingRefresh(c: Config, run: Run) returns (longer: Run)
    requires c.Valid() && run.Of(c) && Last(run).prov.loop.AboutToList?
    ensures longer.Of(c) && Last(longer).store == Last(run).store
    ensures var p, q, version := Last(run).prov, Last(longer).prov, Last(run).store.Version();
      && q.loop == Refreshed(p.loop.cause) && q.watch == p.watch && q.cancelled == p.cancelled && q.closed == p.closed
      && q.subs == p.subs && q.subChans == p.subChans
      && q.current == Some(c.SnapshotOf(ListOf(Last(run).store.db.data, c.ns)))
      && q.aux == Attempted(p.aux, p.loop.cause, version, true).(installs := p.aux.installs + 1, snapVersion := version)
  {
    longer := Then(c, run, Refresh(ListOk));
    longer := Then(c, longer, Refresh(Install));
    longer := Then(c, longer, Refresh(Count));
    longer := Then(c, longer, Refresh(Stamp));
    longer := Then(c, longer, Refresh(ClearError));
  }

  /** The state in which New has installed its first snapshot and is about to watch the store. */
  lemma StartedRun(c: Config) returns (run: Run)
    requires c.Valid()
    ensures run.Of(c) && Last(run).store == INITIAL && Last(run).prov.loop == Registering
    ensures Last(run).prov.current == Some(c.SnapshotOf(map[])) && Last(run).prov.watch.None?
    ensures !Last(run).prov.cancelled && Last(run).prov.aux.attempts == 1 && Last(run).prov.aux.attemptVersion == 0
    ensures Last(run).prov.aux.initVersion == 0 && Last(run).prov.aux.log == []
    ensures Last(run).prov.subs == [] && Last(run).prov.subChans == map[] && !Last(run).prov.closed
  {
    run := Run([START], []);
    run := SucceedingRefresh(c, run);
    run := Then(c, run, EventLoop(AfterRefresh));
  }

  /** A write and its broadcast while nobody watches. */
  lemma WriteUnheard(c: Config, run: Run, w: Write) returns (longer: Run)
    requires c.Valid() && run.Of(c) && Commits(Last(run).store.db, w)
    requires var st := Last(run).store; st.pending == {} && st.sending.None? && st.watchers == []
    ensures longer.Of(c) && Last(longer).prov == Last(run).prov
    ensures var before, after := Last(run).store, Last(longer).store;
      && after.db == Commit(before.db, w) && after.Version() == before.Version() + 1
      && after.pending == {} && after.sending.None? && after.watchers == [] && after.chans == before.chans
  {
    CommitAppends(Last(run).store.db, w);
    longer := Then(c, run, Env(CommitWrite(w)));
    var m := MsgOf(Last(longer).store, Last(longer).store.Version());
    assert Last(longer).store.pending == {m};
    longer := Then(c, longer, Env(BeginBroadcast(m)));
    longer := Then(c, longer, Env(EndBroadcast));
  }

  /** A write that commits and is broadcast between New's listing and its watch is missed: the run
    * goes quiet with a snapshot that does not contain it. */
  lemma StartupGapIsMissed(c: Config, entry: SetEntry, at: Time) returns (run: Run)
    requires c.Valid() && entry.namespace == c.ns
    ensures run.Of(c) && Running(Last(run)) && Quiet(c, Last(run))
    ensures ListOf(Last(run).store.db.data, c.ns) == map[entry.key := entry.value]
    ensures Last(run).prov.current == Some(c.SnapshotOf(map[]))
    ensures !ListedEverything(c, Last(run)) && WrittenInStartupGap(c, Last(run))
  {
    run := StartedRun(c);
    run := WriteUnheard(c, run, SetKey(entry, at));
    run := Then(c, run, EventLoop(Register(0)));
    assert CommitIn(Last(run).store, c.ns, 1);
  }
}
