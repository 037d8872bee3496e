/** Runs in which the Provider does less than its documentation suggests, for every config. */
module ReloadExamples {
  import opened Wrappers
  import opened StoreTypes
  import opened AuditedStore
  import opened StoreSteps
  import opened Reload
  import opened ReloadInvariants
  import opened ReloadTheorems
  import MemStore

  const WATCH: nat := 0
  const SUB: nat := 1

  /** A subscriber that has heard nothing and read nothing. */
  const UNTOLD: SubChan := SubChan([], true, 0, false, [], 0, 0, false, false)

  /** The loop waits; nobody but the Provider watches, and one subscriber has heard nothing so far. */
  ghost predicate Waiting(c: Config, s: State) {
    var st, p := s.store, s.prov;
    && st.pending == {} && st.sending.None? && st.watchers == [Watcher(c.ns, WATCH)]
    && WATCH in st.chans && st.chans[WATCH].ns == c.ns
    && p.loop == Idle && p.watch == Some(WATCH) && !p.cancelled && !p.closed && p.current.Some?
    && p.subs == [SUB] && p.subChans == map[SUB := UNTOLD]
  }

  /** Nothing queued for the loop is passed to subscribers. */
  ghost predicate QueueOfOthers(c: Config, s: State)
    requires c.Valid() && WATCH in s.store.chans
  {
    forall i :: 0 <= i < |s.store.chans[WATCH].buf| ==> !c.Recreates(s.store.chans[WATCH].buf[i].event.key)
  }

  lemma WaitingRun(c: Config) returns (run: Run)
    requires c.Valid()
    ensures run.Of(c) && Waiting(c, Last(run)) && Last(run).store.chans[WATCH].buf == []
  {
    run := StartedRun(c);
    run := Then(c, run, EventLoop(Register(WATCH)));
    run := Then(c, run, Client(Subscribe(SUB)));
  }

  /** A write and its whole broadcast, while the loop waits. */
  lemma Announce(c: Config, run: Run, entry: SetEntry, at: Time) returns (longer: Run)
    requires c.Valid() && run.Of(c) && Waiting(c, Last(run)) && entry.namespace == c.ns
    ensures longer.Of(c) && Waiting(c, Last(longer)) && Last(longer).prov == Last(run).prov
    ensures var before, after := Last(run).store, Last(longer).store;
      && after.db == Commit(before.db, SetKey(entry, at))
      && after.Version() == before.Version() + 1
      && after.chans[WATCH] == Sent(before.chans[WATCH], MsgOf(after, after.Version()))
  {
    var write := SetKey(entry, at);
    CommitAppends(Last(run).store.db, write);
    longer := Then(c, run, Env(CommitWrite(write)));
    var m := MsgOf(Last(longer).store, Last(longer).store.Version());
    assert Last(longer).store.pending == {m};
    longer := Then(c, longer, Env(BeginBroadcast(m)));
    longer := Then(c, longer, Env(SendNext));
    longer := Then(c, longer, Env(EndBroadcast));
  }

  /** n writes of a key that is not passed to subscribers, all queued. */
  lemma {:induction false} Fill(c: Config, run: Run, filler: SetEntry, at: Time, n: nat) returns (longer: Run)
    requires c.Valid() && run.Of(c) && Waiting(c, Last(run)) && Last(run).store.chans[WATCH].buf == []
    requires filler.namespace == c.ns && !c.Recreates(filler.key) && n <= MemStore.WATCH_BUFFER
    ensures longer.Of(c) && Waiting(c, Last(longer)) && QueueOfOthers(c, Last(longer))
    ensures |Last(longer).store.chans[WATCH].buf| == n
  {
    longer := run;
    if n > 0 {
      longer := Fill(c, run, filler, at, n - 1);
      longer := Announce(c, longer, filler, at);
    }
  }

  /** The loop handles the first queued event, which is not passed on. */
  lemma HandleOther(c: Config, run: Run) returns (longer: Run)
    requires c.Valid() && run.Of(c) && Waiting(c, Last(run)) && QueueOfOthers(c, Last(run))
    requires Last(run).store.chans[WATCH].buf != []
    ensures longer.Of(c) && Waiting(c, Last(longer)) && QueueOfOthers(c, Last(longer))
    ensures Last(longer).store.chans[WATCH].buf == Last(run).store.chans[WATCH].buf[1..]
    ensures Last(longer).store.db == Last(run).store.db
    ensures Last(longer).prov.current == Some(c.SnapshotOf(ListOf(Last(run).store.db.data, c.ns)))
  {
    longer := Then(c, run, EventLoop(TakeEvent));
    longer := SucceedingRefresh(c, longer);
    longer := Then(c, longer, EventLoop(AfterRefresh));
  }

  lemma {:induction false} Drain(c: Config, run: Run) returns (longer: Run)
    requires c.Valid() && run.Of(c) && Waiting(c, Last(run)) && QueueOfOthers(c, Last(run))
    requires Last(run).store.chans[WATCH].buf != []
    ensures longer.Of(c) && Waiting(c, Last(longer)) && Last(longer).store.chans[WATCH].buf == []
    ensures Last(longer).store.db == Last(run).store.db
    ensures Last(longer).prov.current == Some(c.SnapshotOf(ListOf(Last(run).store.db.data, c.ns)))
    decreases |Last(run).store.chans[WATCH].buf|
  {
    longer := HandleOther(c, run);
    if Last(longer).store.chans[WATCH].buf != [] {
      longer := Drain(c, longer);
    }
  }

  /** Nobody is woken for the newest commit, although it is in the snapshot. */
  ghost predicate SilentlyApplied(c: Config, s: State, entry: SetEntry)
    requires c.Valid()
  {
    && Running(s) && Quiet(c, s)
    && CommitIn(s.store, c.ns, s.store.Version()) && s.store.db.audit[s.store.Version() - 1].key == entry.key
    && s.prov.current == Some(c.SnapshotOf(ListOf(s.store.db.data, c.ns)))
    && ListOf(s.store.db.data, c.ns)[entry.key := entry.value] == ListOf(s.store.db.data, c.ns)
    && s.prov.subs == [SUB] && s.prov.subChans == map[SUB := UNTOLD]
  }

  /** Dropping a watch event does harm to subscribers: when 64 changes of other keys are queued, the
    * event of a recreate-on-change write is lost. The write is in the snapshot as soon as the next of
    * them is handled, but a subscriber that registered long before is never told. */
  lemma DroppedChangeWakesNobody(c: Config, filler: SetEntry, change: SetEntry, at: Time) returns (run: Run)
    requires c.Valid() && filler.namespace == c.ns && change.namespace == c.ns
    requires !c.Recreates(filler.key) && c.Recreates(change.key)
    ensures run.Of(c) && SilentlyApplied(c, Last(run), change)
  {
    run := WaitingRun(c);
    run := Fill(c, run, filler, at, MemStore.WATCH_BUFFER);
    run := Announce(c, run, change, at);
    run := Drain(c, run);
  }

  /** So does a failed refresh, even when the next one succeeds. */
  lemma FailedRefreshWakesNobody(c: Config, change: SetEntry, at: Time, text: string) returns (run: Run)
    requires c.Valid() && change.namespace == c.ns && c.Recreates(change.key)
    ensures run.Of(c) && SilentlyApplied(c, Last(run), change)
  {
    run := WaitingRun(c);
    run := Announce(c, run, change, at);
    run := FailToHandle(c, run, text);
    run := Then(c, run, EventLoop(TakeTick));
    run := SucceedingRefresh(c, run);
    run := Then(c, run, EventLoop(AfterRefresh));
  }

  lemma FailToHandle(c: Config, run: Run, text: string) returns (longer: Run)
    requires c.Valid() && run.Of(c) && Waiting(c, Last(run)) && |Last(run).store.chans[WATCH].buf| == 1
    ensures longer.Of(c) && Waiting(c, Last(longer)) && Last(longer).store.chans[WATCH].buf == []
    ensures Last(longer).store.db == Last(run).store.db
  {
    longer := Then(c, run, EventLoop(TakeEvent));
    longer := Then(c, longer, Refresh(ListErr(text)));
    longer := Then(c, longer, Refresh(RecordError));
  }

  /** Close does not reach a subscriber that comes after it: its channel stays open although the
    * Provider has shut down. */
  lemma LateSubscriberStaysOpen(c: Config) returns (run: Run)
    requires c.Valid()
    ensures run.Of(c) && Last(run).prov.closed && SUB in Last(run).prov.subChans
    ensures Last(run).prov.subChans[SUB].open && Last(run).prov.subs == [SUB]
  {
    run := StartedRun(c);
    run := Then(c, run, EventLoop(Register(WATCH)));
    run := Then(c, run, EventLoop(Cancel));
    run := Then(c, run, EventLoop(SeeCancel));
    run := Then(c, run, Client(FinishClose));
    run := Then(c, run, Client(Subscribe(SUB)));
  }
}
