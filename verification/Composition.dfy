/** How the atomic steps of module Reload add up to the methods of the classes: run without
  * interruption, they do what the methods' contracts say. */
module Composition {
  import opened Wrappers
  import opened Sequences
  import opened StoreTypes
  import opened StoreSteps
  import opened Reload
  import opened Channels
  import opened Snapshots
  import opened ReloadInvariants
  import MemStore
  import Live = LiveProvider

  function Events(ms: seq<Msg>): seq<ChangeEvent> {
    seq(|ms|, i requires 0 <= i < |ms| => ms[i].event)
  }

  /** The rest of a broadcast under way, up to its end. */
  ghost function FinishBroadcast(st: Store): Store
    requires st.sending.Some? && LifecycleInv(st)
    decreases |st.watchers| - st.sending.value.next
  {
    if st.sending.value.next < |st.watchers| then
      LifecycleStep(st, SendNext);
      FinishBroadcast(StoreNext(st, SendNext))
    else StoreNext(st, EndBroadcast)
  }

  /** The watchers still to be served get the event offered, everybody else keeps what they have. */
  lemma {:induction false} FinishedBroadcastDelivers(st: Store, id: nat)
    requires st.sending.Some? && LifecycleInv(st) && id in st.chans
    ensures id in FinishBroadcast(st).chans && FinishBroadcast(st).watchers == st.watchers
    ensures FinishBroadcast(st).sending.None? && FinishBroadcast(st).db == st.db
    ensures Events(FinishBroadcast(st).chans[id].buf)
         == if st.sending.value.next <= IndexOf(st.watchers, id) < |st.watchers|
            then MemStore.Delivered(Events(st.chans[id].buf), st.chans[id].ns, st.sending.value.msg.event)
            else Events(st.chans[id].buf)
    decreases |st.watchers| - st.sending.value.next
  {
    var next := st.sending.value.next;
    if next < |st.watchers| {
      LifecycleStep(st, SendNext);
      FinishedBroadcastDelivers(StoreNext(st, SendNext), id);
      IndexOfDistinct(st.watchers, next);
      if st.watchers[next].id != id {
        assert IndexOf(st.watchers, id) != next;
      }
    }
  }

  /** A broadcast that nobody interrupts leaves every registered channel as MemStore.Broadcast does. */
  lemma BroadcastAsOne(st: Store, m: Msg, id: nat)
    requires LifecycleInv(st) && StoreEnabled(st, BeginBroadcast(m)) && Registered(st.watchers, id)
    ensures id in st.chans && LifecycleInv(StoreNext(st, BeginBroadcast(m)))
    ensures var after := FinishBroadcast(StoreNext(st, BeginBroadcast(m)));
      && id in after.chans && after.watchers == st.watchers
      && Events(after.chans[id].buf)
         == MemStore.Delivered(Events(st.chans[id].buf), st.chans[id].ns, m.event)
  {
    LifecycleStep(st, BeginBroadcast(m));
    FinishedBroadcastDelivers(StoreNext(st, BeginBroadcast(m)), id);
    var i :| 0 <= i < |st.watchers| && st.watchers[i].id == id;
    assert IndexOf(st.watchers, id) <= i;
  }

  // ---------------------------------------------------------------------------------------------
  // Refreshes
  // ---------------------------------------------------------------------------------------------

  /** What Stats reports in a state of the step system; `times` gives the time of each success. */
  function FiguresOf(p: Provider, times: nat -> Time): Live.Stats {
    Live.Stats(if p.lastRefresh == 0 then None else Some(times(p.lastRefresh)), p.refreshCount,
               if p.lastErr.Failure? then p.lastErr.text else "")
  }

  function StepsLeft(loop: Loop): nat {
    match loop
    case Listed(_, _) => 4
    case Installed(_) => 3
    case Counted(_) => 2
    case Stamped(_) => 1
    case ListFailed(_, _) => 1
    case _ => 0
  }

  /** The rest of a refresh after its List call. */
  ghost function FinishRefresh(c: Config, p: Provider, version: nat, listing: Overrides): Provider
    requires c.Valid()
    decreases StepsLeft(p.loop)
  {
    match p.loop
    case Listed(_, _) => FinishRefresh(c, RefreshNext(c, p, version, listing, Install), version, listing)
    case Installed(_) => FinishRefresh(c, RefreshNext(c, p, version, listing, Count), version, listing)
    case Counted(_) => FinishRefresh(c, RefreshNext(c, p, version, listing, Stamp), version, listing)
    case Stamped(_) => FinishRefresh(c, RefreshNext(c, p, version, listing, ClearError), version, listing)
    case ListFailed(_, _) => RefreshNext(c, p, version, listing, RecordError)
    case _ => p
  }

  /** A whole refresh that nobody interrupts, given what List returns. */
  ghost function WholeRefresh(c: Config, p: Provider, version: nat, listed: Result<Overrides, string>): Provider
    requires c.Valid() && p.loop.AboutToList?
  {
    match listed
    case Ok(overrides) => FinishRefresh(c, RefreshNext(c, p, version, overrides, ListOk), version, overrides)
    case Err(text) => FinishRefresh(c, RefreshNext(c, p, version, map[], ListErr(text)), version, map[])
  }

  /** A refresh that nobody interrupts changes the figures as the method's contract says, publishes the
    * snapshot that the method's contract says or none, and touches no subscriber. */
  lemma RefreshAsOne(c: Config, p: Provider, version: nat, listed: Result<Overrides, string>, times: nat -> Time)
    requires c.Valid() && p.loop.AboutToList?
    ensures var q := WholeRefresh(c, p, version, listed);
      && FiguresOf(q, times) == Live.Counted(FiguresOf(p, times), listed, times(p.aux.installs + 1))
      && q.current == (match listed
                       case Ok(overrides) => Some(Rebuild(JobFor(c.t, c.base, overrides, c.decoders)))
                       case Err(_) => p.current)
      && q.subs == p.subs && q.subChans == p.subChans && q.trigger == p.trigger && q.watch == p.watch
      && q.closed == p.closed && q.cancelled == p.cancelled
      && (listed.Ok? ==> q.loop == Refreshed(p.loop.cause) && q.aux.snapVersion == version)
      && (listed.Err? ==> q.loop == if p.loop.cause.Startup? then Exited else Idle)
  {
    if listed.Ok? {
      InstalledAsOne(c, RefreshNext(c, p, version, listed.value, ListOk), version, listed.value);
    } else {
      var failed := RefreshNext(c, p, version, map[], ListErr(listed.error));
      assert FinishRefresh(c, failed, version, map[]) == RefreshNext(c, failed, version, map[], RecordError);
    }
  }

  lemma InstalledAsOne(c: Config, p: Provider, version: nat, listing: Overrides)
    requires c.Valid() && p.loop.Listed?
    ensures var q := FinishRefresh(c, p, version, listing);
      && q.current == Some(c.SnapshotOf(p.loop.overrides)) && q.refreshCount == p.refreshCount + 1
      && q.lastRefresh == p.aux.installs + 1 && q.lastErr == Cleared(p.aux.installs + 1)
      && q.subs == p.subs && q.subChans == p.subChans && q.trigger == p.trigger && q.watch == p.watch
      && q.closed == p.closed && q.cancelled == p.cancelled
      && q.loop == Refreshed(p.loop.cause) && q.aux.snapVersion == p.aux.attemptVersion
  {
    var installed := RefreshNext(c, p, version, listing, Install);
    var counted := RefreshNext(c, installed, version, listing, Count);
    var stamped := RefreshNext(c, counted, version, listing, Stamp);
    var done := RefreshNext(c, stamped, version, listing, ClearError);
    assert FinishRefresh(c, done, version, listing) == done;
    assert FinishRefresh(c, stamped, version, listing) == done;
    assert FinishRefresh(c, counted, version, listing) == done;
    assert FinishRefresh(c, installed, version, listing) == done;
  }

  // ---------------------------------------------------------------------------------------------
  // Fan-outs
  // ---------------------------------------------------------------------------------------------

  /** The rest of a fan-out under way, up to its end. */
  ghost function FinishFanOut(c: Config, s: State): State
    requires c.Valid() && s.prov.loop.Notifying? && SubsInv(s.prov)
    decreases |s.prov.subs| - s.prov.loop.next
  {
    if s.prov.loop.next < |s.prov.subs| then
      SubsLoop(c, s, NotifyNext);
      FinishFanOut(c, LoopNext(c, s, NotifyNext))
    else LoopNext(c, s, NotifyEnd)
  }

  /** The subscribers still to be served get the event offered, everybody else keeps what they have. */
  lemma {:induction false} FanOutAsOne(c: Config, s: State, id: nat)
    requires c.Valid() && s.prov.loop.Notifying? && SubsInv(s.prov) && id in s.prov.subChans
    ensures var p, q := s.prov, FinishFanOut(c, s).prov;
      && q == p.(loop := Idle, subChans := q.subChans) && q.subChans.Keys == p.subChans.Keys
      && Events(q.subChans[id].buf)
         == (if p.loop.next <= FirstIndex(p.subs, id) < |p.subs|
             then Offer(Events(p.subChans[id].buf), c.subBuffer, p.loop.msg.event)
             else Events(p.subChans[id].buf))
    decreases |s.prov.subs| - s.prov.loop.next
  {
    if s.prov.loop.next < |s.prov.subs| {
      SubsLoop(c, s, NotifyNext);
      OneServed(c, s, id);
      FanOutAsOne(c, LoopNext(c, s, NotifyNext), id);
    }
  }

  lemma OneServed(c: Config, s: State, id: nat)
    requires c.Valid() && s.prov.loop.Notifying? && SubsInv(s.prov) && id in s.prov.subChans
    requires LoopEnabled(s, NotifyNext)
    ensures var p, q := s.prov, LoopNext(c, s, NotifyNext).prov;
      && q == p.(loop := Notifying(p.loop.msg, p.loop.next + 1), subChans := q.subChans)
      && q.subChans.Keys == p.subChans.Keys
      && Events(q.subChans[id].buf)
         == (if FirstIndex(p.subs, id) == p.loop.next
             then Offer(Events(p.subChans[id].buf), c.subBuffer, p.loop.msg.event)
             else Events(p.subChans[id].buf))
  {
    var p := s.prov;
    FirstIndexDistinct(p.subs, p.loop.next);
    OfferedEvents(p.subChans[id].buf, c.subBuffer, p.loop.msg);
  }

  lemma OfferedEvents(buf: seq<Msg>, capacity: nat, m: Msg)
    ensures Events(Offer(buf, capacity, m)) == Offer(Events(buf), capacity, m.event)
  {
  }

  // ---------------------------------------------------------------------------------------------
  // Change events
  // ---------------------------------------------------------------------------------------------

  /** After the refresh for a change event: on to the fan-out, if there is one, and back to waiting. */
  ghost function AfterEvent(c: Config, s: State): State
    requires c.Valid() && s.prov.loop.Refreshed? && SubsInv(s.prov)
  {
    var refreshed := LoopNext(c, s, AfterRefresh);
    SubsLoop(c, s, AfterRefresh);
    if refreshed.prov.loop.Notifying? then FinishFanOut(c, refreshed) else refreshed
  }

  lemma {:induction false} FanOutKeeps(c: Config, s: State)
    requires c.Valid() && s.prov.loop.Notifying? && SubsInv(s.prov)
    ensures var p, q := s.prov, FinishFanOut(c, s).prov;
      q == p.(loop := Idle, subChans := q.subChans) && q.subChans.Keys == p.subChans.Keys
    decreases |s.prov.subs| - s.prov.loop.next
  {
    if s.prov.loop.next < |s.prov.subs| {
      SubsLoop(c, s, NotifyNext);
      FanOutKeeps(c, LoopNext(c, s, NotifyNext));
    }
  }

  lemma EventKeeps(c: Config, s: State, m: Msg)
    requires c.Valid() && s.prov.loop == Refreshed(Changed(m)) && SubsInv(s.prov)
    ensures var p, q := s.prov, AfterEvent(c, s).prov;
      q == p.(loop := Idle, subChans := q.subChans, aux := Logged(p.aux, Changed(m), true)) &&
      q.subChans.Keys == p.subChans.Keys
  {
    SubsLoop(c, s, AfterRefresh);
    var refreshed := LoopNext(c, s, AfterRefresh);
    if refreshed.prov.loop.Notifying? {
      FanOutKeeps(c, refreshed);
    }
  }

  /** A change event handled without interruption once its refresh has succeeded: a recreate-on-change
    * event is offered to every subscriber, any other to none. */
  lemma EventAsOne(c: Config, s: State, m: Msg, id: nat)
    requires c.Valid() && s.prov.loop == Refreshed(Changed(m)) && SubsInv(s.prov) && id in s.prov.subs
    ensures var p, q := s.prov, AfterEvent(c, s).prov;
      && q == p.(loop := Idle, subChans := q.subChans, aux := Logged(p.aux, Changed(m), true))
      && id in p.subChans && id in q.subChans
      && Events(q.subChans[id].buf)
         == (if c.Recreates(m.event.key) then Offer(Events(p.subChans[id].buf), c.subBuffer, m.event)
             else Events(p.subChans[id].buf))
  {
    var i :| 0 <= i < |s.prov.subs| && s.prov.subs[i] == id;
    var refreshed := LoopNext(c, s, AfterRefresh);
    SubsLoop(c, s, AfterRefresh);
    assert FirstIndex(s.prov.subs, id) <= i;
    if refreshed.prov.loop.Notifying? {
      FanOutAsOne(c, refreshed, id);
    }
  }
}
