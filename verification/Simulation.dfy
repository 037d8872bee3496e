/** The Provider class against the step system: a method call on an object in agreement with a state of
  * the step system leaves it in agreement with the state after the method's own steps. */
module Simulation {
  import opened Wrappers
  import opened Sequences
  import opened StoreTypes
  import opened Channels
  import opened StoreSteps
  import opened Snapshots
  import opened Reload
  import opened ReloadInvariants
  import opened Composition
  import Live = LiveProvider

  /** Same figures, and the same snapshot for every reader. */
  ghost predicate SnapshotsAgree(p: Provider, times: nat -> Time, live: Live.Provider)
    reads live, live.mem
  {
    && live.Figures() == FiguresOf(p, times)
    && (p.current.Some? <==> live.current.Some?)
    && (p.current.Some? ==> p.current.value == live.Got())
  }

  /** The same list of subscribers, with the same events queued for each. */
  ghost predicate SubsAgree(p: Provider, live: Live.Provider)
    reads live, live.subs.arr, live.Chans()
  {
    && |live.Subscribed()| == |p.subs|
    && forall i :: 0 <= i < |p.subs| ==>
         p.subs[i] in p.subChans && live.Subscribed()[i].buf == Events(p.subChans[p.subs[i]].buf)
  }

  ghost predicate ConfigAgrees(c: Config, live: Live.Provider) {
    live.t == c.t && live.base == c.base && live.decoders == c.decoders && live.bufSize == c.subBuffer
  }

  ghost predicate Agrees(c: Config, p: Provider, times: nat -> Time, live: Live.Provider)
    reads live, live.mem, live.subs.arr, live.Chans(), live.refreshTrigger
  {
    && ConfigAgrees(c, live) && SnapshotsAgree(p, times, live) && SubsAgree(p, live)
    && |live.refreshTrigger.buf| == p.trigger
  }

  /** New, up to the start of its loop: the Provider agrees with the state after the first refresh. */
  method New(c: Config, listed: Result<Overrides, string>, now: Time, ghost times: nat -> Time)
    returns (r: Result<Live.Provider, Live.NewError>)
    requires c.Valid() && times(1) == now
    ensures r.Ok? <==> listed.Ok?
    ensures r.Ok? ==>
      r.value.Valid() && Agrees(c, WholeRefresh(c, START.prov, 0, listed), times, r.value)
  {
    ghost var started := FirstRefresh(c, listed, times);
    r := Live.New(c.t, c.base, c.decoders, c.subBuffer, listed, now);
  }

  lemma FirstRefresh(c: Config, listed: Result<Overrides, string>, times: nat -> Time) returns (q: Provider)
    requires c.Valid()
    ensures q == WholeRefresh(c, START.prov, 0, listed)
    ensures listed.Ok? ==>
      && FiguresOf(q, times) == Live.Stats(Some(times(1)), 1, "") && q.subs == [] && q.trigger == 0
      && q.current == Some(Rebuild(JobFor(c.t, c.base, listed.value, c.decoders)))
  {
    RefreshAsOne(c, START.prov, 0, listed, times);
    q := WholeRefresh(c, START.prov, 0, listed);
  }

  // ---------------------------------------------------------------------------------------------
  // The loop
  // ---------------------------------------------------------------------------------------------

  lemma SnapshotsAfter(c: Config, p: Provider, version: nat, listed: Result<Overrides, string>, times: nat -> Time,
                       before: Live.Stats) returns (q: Provider)
    requires c.Valid() && p.loop.AboutToList? && before == FiguresOf(p, times)
    ensures q == WholeRefresh(c, p, version, listed)
    ensures FiguresOf(q, times) == Live.Counted(before, listed, times(p.aux.installs + 1))
    ensures q.current == (match listed
                          case Ok(overrides) => Some(Rebuild(JobFor(c.t, c.base, overrides, c.decoders)))
                          case Err(_) => p.current)
    ensures q.subs == p.subs && q.subChans == p.subChans && q.trigger == p.trigger
    ensures listed.Ok? ==> q.loop == Refreshed(p.loop.cause)
    ensures SubsInv(p) ==> SubsInv(q)
  {
    RefreshAsOne(c, p, version, listed, times);
    q := WholeRefresh(c, p, version, listed);
  }

  /** A refresh for a tick or a request. */
  method Refresh(live: Live.Provider, listed: Result<Overrides, string>, now: Time,
                 ghost c: Config, ghost p: Provider, ghost version: nat, ghost times: nat -> Time)
    returns (ghost q: Provider)
    requires c.Valid() && live.Valid() && Agrees(c, p, times, live)
    requires p.loop.AboutToList? && times(p.aux.installs + 1) == now
    modifies live`current, live`refreshCount, live`lastRefresh, live`lastErrText, live`published, live.mem
    ensures q == WholeRefresh(c, p, version, listed)
    ensures live.Valid() && Agrees(c, q, times, live)
  {
    q := SnapshotsAfter(c, p, version, listed, times, live.Figures());
    var _ := live.Refresh(listed, now);
  }

  /** A change event, from the List call to the end of the fan-out. */
  method HandleChangeEvent(live: Live.Provider, listed: Result<Overrides, string>, now: Time,
                           ghost c: Config, ghost s: State, m: Msg, ghost version: nat, ghost times: nat -> Time)
    returns (ghost q: Provider)
    requires c.Valid() && live.Valid() && Agrees(c, s.prov, times, live) && SubsInv(s.prov)
    requires s.prov.loop == AboutToList(Changed(m)) && times(s.prov.aux.installs + 1) == now
    modifies live`current, live`refreshCount, live`lastRefresh, live`lastErrText, live`published, live.mem
    modifies live.Chans()`buf
    ensures var p := WholeRefresh(c, s.prov, version, listed);
      if listed.Ok? then p.loop.Refreshed? && SubsInv(p) && q == AfterEvent(c, s.(prov := p)).prov else q == p
    ensures live.Valid() && Agrees(c, q, times, live)
  {
    ghost var p := SnapshotsAfter(c, s.prov, version, listed, times, live.Figures());
    q := p;
    if listed.Ok? {
      q := SubsAfterEvent(c, s.(prov := p), m);
    }
    ghost var fans := listed.Ok? && c.Recreates(m.event.key);
    CallHandler(live, listed, now, m.event, c, s.prov, q, times, fans);
  }

  /** The effect of the method on an object, given the state to be reached. */
  method CallHandler(live: Live.Provider, listed: Result<Overrides, string>, now: Time, event: ChangeEvent,
                     ghost c: Config, ghost p: Provider, ghost q: Provider, ghost times: nat -> Time, ghost fans: bool)
    requires c.Valid() && live.Valid() && Agrees(c, p, times, live)
    requires fans == (listed.Ok? && c.Recreates(event.key))
    requires FiguresOf(q, times) == Live.Counted(FiguresOf(p, times), listed, now)
    requires q.current == (match listed
                           case Ok(overrides) => Some(Rebuild(JobFor(c.t, c.base, overrides, c.decoders)))
                           case Err(_) => p.current)
    requires q.subs == p.subs && q.trigger == p.trigger
    requires forall i :: 0 <= i < |p.subs| ==> OfferedAlike(p, q, p.subs[i], fans, c.subBuffer, event)
    modifies live`current, live`refreshCount, live`lastRefresh, live`lastErrText, live`published, live.mem
    modifies live.Chans()`buf
    ensures live.Valid() && Agrees(c, q, times, live)
  {
    ghost var chans := live.Subscribed();
    live.HandleChangeEvent(event, listed, now);
    forall i | 0 <= i < |p.subs|
      ensures p.subs[i] in q.subChans && chans[i].buf == Events(q.subChans[p.subs[i]].buf)
    {
      assert chans[i] in live.Subscribed() && OfferedAlike(p, q, p.subs[i], fans, c.subBuffer, event);
    }
  }

  /** The subscriber's queue has been offered the event, or is as it was. */
  ghost predicate OfferedAlike(p: Provider, q: Provider, id: nat, fans: bool, capacity: nat, event: ChangeEvent) {
    && id in p.subChans && id in q.subChans
    && Events(q.subChans[id].buf)
       == (if fans then Offer(Events(p.subChans[id].buf), capacity, event) else Events(p.subChans[id].buf))
  }

  lemma SubsAfterEvent(c: Config, s: State, m: Msg) returns (q: Provider)
    requires c.Valid() && s.prov.loop == Refreshed(Changed(m)) && SubsInv(s.prov)
    ensures q == AfterEvent(c, s).prov
    ensures var p := s.prov;
      && q.refreshCount == p.refreshCount && q.lastRefresh == p.lastRefresh && q.lastErr == p.lastErr
      && q.current == p.current && q.trigger == p.trigger && q.subs == p.subs
      && forall i :: 0 <= i < |p.subs| ==> OfferedAlike(p, q, p.subs[i], c.Recreates(m.event.key), c.subBuffer, m.event)
  {
    q := AfterEvent(c, s).prov;
    EventKeeps(c, s, m);
    forall i | 0 <= i < |s.prov.subs| {
      EventAsOne(c, s, m, s.prov.subs[i]);
    }
  }

  // ---------------------------------------------------------------------------------------------
  // Callers
  // ---------------------------------------------------------------------------------------------

  method RequestRefresh(live: Live.Provider, ghost c: Config, ghost p: Provider, ghost times: nat -> Time)
    returns (ghost q: Provider)
    requires live.Valid() && Agrees(c, p, times, live) && ClientEnabled(p, AskRefresh)
    modifies live.refreshTrigger`buf
    ensures q == ClientNext(p, AskRefresh) && live.Valid() && Agrees(c, q, times, live)
  {
    live.RequestRefresh();
    q := ClientNext(p, AskRefresh);
  }

  method Subscribe(live: Live.Provider, ghost c: Config, ghost p: Provider, id: nat, ghost times: nat -> Time)
    returns (ch: Channel<ChangeEvent>, ghost q: Provider)
    requires live.Valid() && Agrees(c, p, times, live) && SubsInv(p) && ClientEnabled(p, ClientStep.Subscribe(id))
    modifies live`subs, live.subs.arr
    ensures q == ClientNext(p, ClientStep.Subscribe(id)) && live.Valid() && Agrees(c, q, times, live)
    ensures live.Subscribed()[FirstIndex(q.subs, id)] == ch
  {
    ghost var before := live.Subscribed();
    ch := live.Subscribe();
    q := ClientNext(p, ClientStep.Subscribe(id));
    SubsSubscribe(p, id);
    assert q.subs[|p.subs|] == id;
    FirstIndexDistinct(q.subs, |p.subs|);
    forall i | 0 <= i < |q.subs|
      ensures q.subs[i] in q.subChans && live.Subscribed()[i].buf == Events(q.subChans[q.subs[i]].buf)
    {
      if i < |p.subs| {
        assert q.subs[i] == p.subs[i] && live.Subscribed()[i] == before[i];
      }
    }
  }

  /** The goroutine of a cancelled subscription. */
  method Unsubscribe(live: Live.Provider, ch: Channel<ChangeEvent>,
                     ghost c: Config, ghost p: Provider, ghost id: nat, ghost times: nat -> Time)
    returns (ghost q: Provider)
    requires live.Valid() && Agrees(c, p, times, live) && SubsInv(p) && ClientEnabled(p, RemoveSub(id))
    requires live.Subscribed()[FirstIndex(p.subs, id)] == ch
    modifies live`subs, live.subs.arr, ch`closed
    ensures q == ClientNext(p, RemoveSub(id)) && live.Valid() && Agrees(c, q, times, live) && ch.closed
  {
    q := RemovedSub(p, id);
    CallUnsubscribe(live, ch, c, p, q, FirstIndex(p.subs, id), times);
  }

  lemma RemovedSub(p: Provider, id: nat) returns (q: Provider)
    requires SubsInv(p) && ClientEnabled(p, RemoveSub(id))
    ensures q == ClientNext(p, RemoveSub(id))
    ensures q == p.(subs := CutAt(p.subs, FirstIndex(p.subs, id)), subChans := q.subChans)
    ensures forall x :: x in p.subs ==> x in p.subChans && x in q.subChans && q.subChans[x].buf == p.subChans[x].buf
  {
    q := ClientNext(p, RemoveSub(id));
  }

  method CallUnsubscribe(live: Live.Provider, ch: Channel<ChangeEvent>, ghost c: Config, ghost p: Provider,
                         ghost q: Provider, ghost k: nat, ghost times: nat -> Time)
    requires live.Valid() && Agrees(c, p, times, live)
    requires k < |p.subs| && live.Subscribed()[k] == ch
    requires q == p.(subs := CutAt(p.subs, k), subChans := q.subChans)
    requires forall x :: x in p.subs ==> x in p.subChans && x in q.subChans && q.subChans[x].buf == p.subChans[x].buf
    modifies live`subs, live.subs.arr, ch`closed
    ensures live.Valid() && Agrees(c, q, times, live) && ch.closed
  {
    ghost var before := live.Subscribed();
    assert Distinct(before);
    live.Unsubscribe(ch);
    assert live.Subscribed() == CutAt(before, k);
    SubsAgreeAfterCut(live, p, q, k, before);
  }

  lemma SubsAgreeAfterCut(live: Live.Provider, p: Provider, q: Provider, k: nat, before: seq<Channel<ChangeEvent>>)
    requires k < |p.subs| == |before| && live.Subscribed() == CutAt(before, k) && q.subs == CutAt(p.subs, k)
    requires forall i :: 0 <= i < |p.subs| ==>
      && p.subs[i] in p.subChans && p.subs[i] in q.subChans
      && q.subChans[p.subs[i]].buf == p.subChans[p.subs[i]].buf
      && before[i].buf == Events(p.subChans[p.subs[i]].buf)
    ensures SubsAgree(q, live)
  {
    CutAtIndex(before, k);
    CutAtIndex(p.subs, k);
  }

  /** The part of Close that follows the event loop's exit. */
  method CloseSubscribers(live: Live.Provider, ghost c: Config, ghost p: Provider, ghost times: nat -> Time)
    returns (ghost q: Provider)
    requires live.Valid() && Agrees(c, p, times, live) && ClientEnabled(p, FinishClose)
    modifies live`subs, live.Chans()`closed
    ensures q == ClientNext(p, FinishClose) && live.Valid() && Agrees(c, q, times, live)
    ensures forall ch :: ch in old(live.Chans()) ==> ch.closed
  {
    live.CloseSubscribers();
    q := ClientNext(p, FinishClose);
  }
}
