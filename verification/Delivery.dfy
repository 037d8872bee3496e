/** Which changes are passed to subscribers: the exact account, from the loop's queue to each channel. */
module Delivery {
  import opened Sequences
  import opened StoreTypes
  import opened AuditedStore
  import opened StoreSteps
  import opened Reload
  import opened ReloadInvariants
  import opened ReloadTheorems

  // ---------------------------------------------------------------------------------------------
  // The loop's log
  // ---------------------------------------------------------------------------------------------

  /** The change event whose refresh is under way. */
  function InHand(loop: Loop): seq<Msg> {
    match CauseOf(loop)
    case Some(Changed(m)) => [m]
    case _ => []
  }

  /** Everything the loop has taken from its queue was handled, in order, or is in hand. */
  ghost predicate LogInv(s: State) {
    var p, log := s.prov, s.prov.aux.log;
    && (p.watch.None? ==> log == [] && InHand(p.loop) == [])
    && (p.watch.Some? ==>
          p.watch.value in s.store.chans &&
          s.store.chans[p.watch.value].received == Messages(log) + InHand(p.loop))
    && (p.loop.Notifying? ==> log != [] && log[|log| - 1] == Handled(p.loop.msg, true))
  }

  lemma MessagesGrow(log: seq<Handled>, h: Handled)
    ensures Messages(log + [h]) == Messages(log) + [h.msg]
  {
  }

  lemma LogRefresh(c: Config, s: State, listing: Overrides, r: RefreshStep)
    requires c.Valid() && StartupInv(c, s) && LogInv(s) && RefreshEnabled(s.prov, r)
    ensures LogInv(s.(prov := RefreshNext(c, s.prov, s.store.Version(), listing, r)))
  {
    if r.RecordError? && s.prov.loop.cause.Changed? {
      MessagesGrow(s.prov.aux.log, Handled(s.prov.loop.cause.msg, false));
    }
  }

  lemma LogAfterRefresh(c: Config, s: State)
    requires c.Valid() && StartupInv(c, s) && LogInv(s) && LoopEnabled(s, AfterRefresh)
    ensures LogInv(LoopNext(c, s, AfterRefresh))
  {
    if s.prov.loop.cause.Changed? {
      MessagesGrow(s.prov.aux.log, Handled(s.prov.loop.cause.msg, true));
    }
  }

  lemma LogLoop(c: Config, s: State, l: LoopStep)
    requires c.Valid() && StartupInv(c, s) && LogInv(s) && LoopEnabled(s, l)
    ensures LogInv(LoopNext(c, s, l))
  {
    if l.AfterRefresh? {
      LogAfterRefresh(c, s);
    }
  }

  lemma LogEnv(c: Config, s: State, e: StoreStep)
    requires LogInv(s) && StoreEnabled(s.store, e) && Foreign(s.prov, e)
    ensures LogInv(s.(store := StoreNext(s.store, e)))
  {
  }

  lemma LogClient(s: State, k: ClientStep)
    requires LogInv(s) && ClientEnabled(s.prov, k)
    ensures LogInv(s.(prov := ClientNext(s.prov, k)))
  {
    ClientKeepsRefresh(s.prov, k);
  }

  // ---------------------------------------------------------------------------------------------
  // What each subscriber was told
  // ---------------------------------------------------------------------------------------------

  /** How much of the log has reached a registered subscriber: all, but for the change being fanned
    * out when its turn is still to come. */
  function Reached(p: Provider, id: nat): nat
    requires p.loop.Notifying? ==> p.aux.log != []
  {
    if p.loop.Notifying? && FirstIndex(p.subs, id) >= p.loop.next then |p.aux.log| - 1 else |p.aux.log|
  }

  ghost predicate ToldExactly(c: Config, p: Provider, id: nat)
    requires c.Valid() && id in p.subChans && (p.loop.Notifying? ==> p.aux.log != [])
  {
    var ch := p.subChans[id];
    ch.open ==> ch.since <= Reached(p, id) && ch.told == ToFan(c, p.aux.log[ch.since..Reached(p, id)])
  }

  ghost predicate ToldInv(c: Config, p: Provider)
    requires c.Valid()
  {
    && (p.loop.Notifying? ==> p.aux.log != [])
    && forall id {:trigger ToldExactly(c, p, id)} :: id in p.subChans ==> ToldExactly(c, p, id)
  }

  lemma ToFanGrows(c: Config, log: seq<Handled>, h: Handled)
    requires c.Valid()
    ensures ToFan(c, log + [h]) == ToFan(c, log) + if h.ok && c.Recreates(h.msg.event.key) then [h.msg] else []
  {
    assert (log + [h])[..|log|] == log;
  }

  lemma ToFanUpToLast(c: Config, log: seq<Handled>, since: nat)
    requires c.Valid() && since < |log|
    ensures var n := |log| - 1;
      ToFan(c, log[since..|log|])
      == ToFan(c, log[since..n]) + if log[n].ok && c.Recreates(log[n].msg.event.key) then [log[n].msg] else []
  {
    var n := |log| - 1;
    assert log[since..|log|] == log[since..n] + [log[n]];
    ToFanGrows(c, log[since..n], log[n]);
  }

  /** The log has grown by one change that `id` is not told of, or not yet. */
  lemma ToldAfterLogging(c: Config, p: Provider, q: Provider, h: Handled, id: nat)
    requires c.Valid() && id in p.subChans && q.subChans == p.subChans && q.subs == p.subs
    requires !p.loop.Notifying? && ToldExactly(c, p, id) && q.aux.log == p.aux.log + [h]
    requires if q.loop.Notifying? then q.loop.next == 0 else !(h.ok && c.Recreates(h.msg.event.key))
    ensures ToldExactly(c, q, id)
  {
    var ch, log := p.subChans[id], p.aux.log;
    if ch.open {
      assert q.aux.log[ch.since..|log|] == log[ch.since..|log|];
      assert q.aux.log[ch.since..|log| + 1] == log[ch.since..|log|] + [h];
      ToFanGrows(c, log[ch.since..|log|], h);
    }
  }

  /** The log, the channel and how far it has been served are as before. */
  lemma ToldAsBefore(c: Config, p: Provider, q: Provider, id: nat)
    requires c.Valid() && (p.loop.Notifying? ==> p.aux.log != []) && id in p.subChans && id in q.subChans
    requires q.aux.log == p.aux.log && (q.loop.Notifying? ==> p.aux.log != [])
    requires var a, b := p.subChans[id], q.subChans[id];
      b.told == a.told && b.since == a.since && (b.open ==> a.open)
    requires q.subChans[id].open ==> Reached(q, id) == Reached(p, id)
    requires ToldExactly(c, p, id)
    ensures ToldExactly(c, q, id)
  {
  }

  lemma ToldRefresh(c: Config, p: Provider, version: nat, listing: Overrides, r: RefreshStep)
    requires c.Valid() && ToldInv(c, p) && RefreshEnabled(p, r)
    ensures ToldInv(c, RefreshNext(c, p, version, listing, r))
  {
    var q := RefreshNext(c, p, version, listing, r);
    forall id | id in q.subChans
      ensures ToldExactly(c, q, id)
    {
      assert ToldExactly(c, p, id);
      if r.RecordError? && p.loop.cause.Changed? {
        ToldAfterLogging(c, p, q, Handled(p.loop.cause.msg, false), id);
      } else {
        ToldAsBefore(c, p, q, id);
      }
    }
  }

  lemma ToldNotify(c: Config, s: State)
    requires c.Valid() && SubsInv(s.prov) && HandlingInv(c, s) && LogInv(s) && ToldInv(c, s.prov)
    requires LoopEnabled(s, NotifyNext)
    ensures ToldInv(c, LoopNext(c, s, NotifyNext).prov)
  {
    NotifiedOne(c, s);
    ToldNotified(c, s.prov, LoopNext(c, s, NotifyNext).prov);
  }

  lemma ToldNotified(c: Config, p: Provider, q: Provider)
    requires c.Valid() && SubsInv(p) && ToldInv(c, p) && p.loop.Notifying? && p.loop.next < |p.subs|
    requires p.aux.log[|p.aux.log| - 1] == Handled(p.loop.msg, true) && c.Recreates(p.loop.msg.event.key)
    requires var id := p.subs[p.loop.next];
      q == p.(loop := Notifying(p.loop.msg, p.loop.next + 1),
              subChans := p.subChans[id := Fanned(p.subChans[id], c.subBuffer, p.loop.msg)])
    ensures ToldInv(c, q)
  {
    var next := p.loop.next;
    FirstIndexDistinct(p.subs, next);
    forall id | id in q.subChans
      ensures ToldExactly(c, q, id)
    {
      assert ToldExactly(c, p, id);
      if id == p.subs[next] {
        ToldTheLatest(c, p, q, id);
      } else {
        assert FirstIndex(p.subs, id) != next;
        ToldAsBefore(c, p, q, id);
      }
    }
  }

  lemma ToldTheLatest(c: Config, p: Provider, q: Provider, id: nat)
    requires c.Valid() && id in p.subChans && id in q.subChans && p.aux.log == q.aux.log != []
    requires p.loop.Notifying? && q.loop == Notifying(p.loop.msg, p.loop.next + 1) && q.subs == p.subs
    requires FirstIndex(p.subs, id) == p.loop.next && ToldExactly(c, p, id)
    requires p.aux.log[|p.aux.log| - 1] == Handled(p.loop.msg, true) && c.Recreates(p.loop.msg.event.key)
    requires var a, b := p.subChans[id], q.subChans[id];
      b.open == a.open && b.since == a.since && b.told == a.told + [p.loop.msg]
    ensures ToldExactly(c, q, id)
  {
    if p.subChans[id].open {
      ToFanUpToLast(c, p.aux.log, p.subChans[id].since);
    }
  }

  lemma ToldLoop(c: Config, s: State, l: LoopStep)
    requires c.Valid() && SubsInv(s.prov) && HandlingInv(c, s) && LogInv(s) && ToldInv(c, s.prov)
    requires LoopEnabled(s, l)
    ensures ToldInv(c, LoopNext(c, s, l).prov)
  {
    if l.NotifyNext? {
      ToldNotify(c, s);
    } else {
      var p, q := s.prov, LoopNext(c, s, l).prov;
      forall id | id in q.subChans
        ensures ToldExactly(c, q, id)
      {
        assert ToldExactly(c, p, id);
        if l.AfterRefresh? && p.loop.cause.Changed? {
          ToldAfterLogging(c, p, q, Handled(p.loop.cause.msg, true), id);
        } else {
          ToldOtherLoop(c, s, l, id);
        }
      }
    }
  }

  lemma ToldOtherLoop(c: Config, s: State, l: LoopStep, id: nat)
    requires c.Valid() && SubsInv(s.prov) && LoopEnabled(s, l) && !l.NotifyNext?
    requires (s.prov.loop.Notifying? ==> s.prov.aux.log != []) && id in s.prov.subChans && ToldExactly(c, s.prov, id)
    requires !(l.AfterRefresh? && s.prov.loop.cause.Changed?)
    ensures var q := LoopNext(c, s, l).prov;
      (q.loop.Notifying? ==> q.aux.log != []) && id in q.subChans && ToldExactly(c, q, id)
  {
    ToldAsBefore(c, s.prov, LoopNext(c, s, l).prov, id);
  }

  lemma ToldClient(c: Config, p: Provider, k: ClientStep)
    requires c.Valid() && SubsInv(p) && ToldInv(c, p) && ClientEnabled(p, k)
    ensures ToldInv(c, ClientNext(p, k))
  {
    var q := ClientNext(p, k);
    ClientKeepsRefresh(p, k);
    if p.loop.Notifying? {
      NotifyingKeepsTold(p, k);
    }
    forall id | id in q.subChans
      ensures ToldExactly(c, q, id)
    {
      if id in p.subChans {
        assert ToldExactly(c, p, id);
        ToldAsBefore(c, p, q, id);
      } else {
        assert p.aux.log[|p.aux.log|..] == [];
      }
    }
  }

  // ---------------------------------------------------------------------------------------------
  // Over runs
  // ---------------------------------------------------------------------------------------------

  ghost predicate DeliveryInv(c: Config, s: State)
    requires c.Valid()
  {
    LogInv(s) && ToldInv(c, s.prov)
  }

  lemma DeliveryStep(c: Config, s: State, step: Step)
    requires c.Valid() && Inv(c, s) && DeliveryInv(c, s) && Enabled(s, step)
    ensures DeliveryInv(c, Next(c, s, step))
  {
    match step
    case Env(e) => LogEnv(c, s, e);
    case Refresh(r) =>
      var listing := ListOf(s.store.db.data, c.ns);
      LogRefresh(c, s, listing, r);
      ToldRefresh(c, s.prov, s.store.Version(), listing, r);
    case EventLoop(l) => LogLoop(c, s, l); ToldLoop(c, s, l);
    case Client(k) => LogClient(s, k); ToldClient(c, s.prov, k);
  }

  lemma {:induction false} RunKeepsDelivery(c: Config, run: Run, i: nat)
    requires c.Valid() && run.Of(c) && i <= |run.steps|
    ensures DeliveryInv(c, run.states[i])
  {
    if i > 0 {
      RunKeepsDelivery(c, run, i - 1);
      RunKeepsInv(c, run, i - 1);
      DeliveryStep(c, run.states[i - 1], run.steps[i - 1]);
    }
  }

  lemma {:induction false} ToFanHas(c: Config, log: seq<Handled>, m: Msg)
    requires c.Valid()
    ensures m in ToFan(c, log) <==> c.Recreates(m.event.key) && Handled(m, true) in log
  {
    if log != [] {
      var init, last := log[..|log| - 1], log[|log| - 1];
      ToFanHas(c, init, m);
      assert log == init + [last];
    }
  }

  lemma MessagesHave(log: seq<Handled>, m: Msg)
    ensures m in Messages(log) <==> Handled(m, true) in log || Handled(m, false) in log
  {
    if m in Messages(log) {
      var i :| 0 <= i < |log| && Messages(log)[i] == m;
      assert log[i] == Handled(m, true) || log[i] == Handled(m, false);
    }
    forall ok | Handled(m, ok) in log
      ensures m in Messages(log)
    {
      var i :| 0 <= i < |log| && log[i] == Handled(m, ok);
      assert Messages(log)[i] == m;
    }
  }

  /** Who is woken for a change. In every quiet state of every run, a registered subscriber has been
    * told of a commit of the namespace if and only if the commit's own event was handled while the
    * subscriber was registered, the refresh for it succeeded, and the key belongs to a
    * recreate-on-change field. An event is handled exactly if it got into the loop's queue: a dropped
    * one is made up for in the snapshot, but not to the subscribers. None is dropped unless the queue's
    * tally says so. And once drained, a subscriber has seen everything it was told of. */
  lemma WhoIsWoken(c: Config, run: Run, i: nat, id: nat, v: nat)
    requires c.Valid() && run.Of(c) && i <= |run.steps| && Quiet(c, run.states[i])
    requires id in run.states[i].prov.subs && CommitIn(run.states[i].store, c.ns, v)
    ensures id in run.states[i].prov.subChans
    ensures var s, m := run.states[i], MsgOf(run.states[i].store, v);
      var p, ch := s.prov, s.store.chans[s.prov.watch.value];
      var sub := p.subChans[id];
      && m in s.store.broadcasts
      && sub.since <= |p.aux.log|
      && (m in sub.told <==> c.Recreates(m.event.key) && Handled(m, true) in p.aux.log[sub.since..])
      && (Handled(m, true) in p.aux.log || Handled(m, false) in p.aux.log <==> m in ch.received)
      && ch.since <= |s.store.broadcasts|
      && (ch.open && s.store.sending.None? && ch.dropped == 0 && m in s.store.broadcasts[ch.since..] ==>
            m in ch.received)
      && (sub.buf == [] && !sub.mustGet ==> forall u :: u in sub.told ==> u.version <= sub.seen)
  {
    RunKeepsInv(c, run, i);
    RunKeepsDelivery(c, run, i);
    var s, m := run.states[i], MsgOf(run.states[i].store, v);
    var p := s.prov;
    assert ToldExactly(c, p, id);
    ToFanHas(c, p.aux.log[p.subChans[id].since..], m);
    assert p.aux.log[p.subChans[id].since..|p.aux.log|] == p.aux.log[p.subChans[id].since..];
    MessagesHave(p.aux.log, m);
    QueueLosesOnlyDrops(s.store, p.watch.value, m);
    assert SubWakeInv(c, s.store, p, id);
    forall u | u in p.subChans[id].told
      ensures u.version <= p.subChans[id].Owed()
    {
      NewestBounds(p.subChans[id].told, u);
    }
  }

  lemma {:induction false} NewestBounds(ms: seq<Msg>, m: Msg)
    requires m in ms
    ensures m.version <= NewestVersion(ms)
  {
    if m != ms[|ms| - 1] {
      NewestBounds(ms[..|ms| - 1], m);
    }
  }

  /** With no drop and nothing queued, everything broadcast since registration was received. */
  lemma QueueLosesOnlyDrops(st: Store, id: nat, m: Msg)
    requires StoreInv(st) && id in st.chans && st.chans[id].buf == []
    ensures st.chans[id].since <= |st.broadcasts|
    ensures st.chans[id].open && st.sending.None? && st.chans[id].dropped == 0 &&
            m.event.namespace == st.chans[id].ns && m in st.broadcasts[st.chans[id].since..] ==>
      m in st.chans[id].received
  {
    var ch := st.chans[id];
    assert ChanInv(st, id);
    if ch.open && st.sending.None? && ch.dropped == 0 {
      assert ch.Stream() == ch.received;
      SubsequenceIsNoLonger(ch.received, ch.offered);
      assert st.broadcasts[ch.since..|st.broadcasts|] == st.broadcasts[ch.since..];
      MatchingHas(st.broadcasts[ch.since..], ch.ns, m);
    }
  }

  // ---------------------------------------------------------------------------------------------
  // A fan-out from beginning to end
  // ---------------------------------------------------------------------------------------------

  /** While the loop fans out a change, it fans out this change, to the same list. */
  lemma NotifyingGoesOn(c: Config, s: State, step: Step)
    requires c.Valid() && SubsInv(s.prov) && Enabled(s, step) && s.prov.loop.Notifying? && step != EventLoop(NotifyEnd)
    ensures var p, q := s.prov, Next(c, s, step).prov;
      && q.loop.Notifying? && q.loop.msg == p.loop.msg && q.subs == p.subs && q.aux.log == p.aux.log
      && forall id :: id in p.subChans ==> id in q.subChans && q.subChans[id].since == p.subChans[id].since
  {
    match step
    case Env(_) =>
    case Refresh(_) =>
    case EventLoop(l) =>
    case Client(k) => ClientKeepsRefresh(s.prov, k);
  }

  lemma {:induction false} FanOutGoesOn(c: Config, run: Run, i: nat, j: nat, m: Msg)
    requires c.Valid() && run.Of(c) && i < j <= |run.steps|
    requires run.steps[i] == EventLoop(AfterRefresh) && run.states[i].prov.loop == Refreshed(Changed(m))
    requires c.Recreates(m.event.key)
    requires forall n :: i < n < j ==> run.steps[n] != EventLoop(NotifyEnd)
    ensures var p, q := run.states[i].prov, run.states[j].prov;
      && q.loop.Notifying? && q.loop.msg == m && q.subs == p.subs && q.aux.log == p.aux.log + [Handled(m, true)]
      && forall id :: id in p.subChans ==> id in q.subChans && q.subChans[id].since == p.subChans[id].since
    decreases j
  {
    RunKeepsWake(c, run, j - 1);
    if i + 1 < j {
      FanOutGoesOn(c, run, i, j - 1, m);
      NotifyingGoesOn(c, run.states[j - 1], run.steps[j - 1]);
    }
  }

  /** Every change of a recreate-on-change key whose refresh succeeds is fanned out, to every subscriber
    * registered then, and by the end of it the snapshot installed contains the change. From then on a
    * drained subscriber has seen it. */
  lemma RecreateChangesAreFannedOut(c: Config, run: Run, i: nat, k: nat, j: nat, m: Msg, id: nat)
    requires c.Valid() && run.Of(c) && i < k < j <= |run.steps|
    requires run.steps[i] == EventLoop(AfterRefresh) && run.states[i].prov.loop == Refreshed(Changed(m))
    requires c.Recreates(m.event.key) && id in run.states[i].prov.subs
    requires run.steps[k] == EventLoop(NotifyEnd)
    requires forall n :: i < n < k ==> run.steps[n] != EventLoop(NotifyEnd)
    ensures Genuine(run.states[i].store, m) && m.version <= run.states[i].prov.aux.snapVersion
    ensures id in run.states[k].prov.subChans && m in run.states[k].prov.subChans[id].told
    ensures id in run.states[j].prov.subChans
    ensures var sub := run.states[j].prov.subChans[id];
      sub.buf == [] && !sub.mustGet ==> m.version <= sub.seen
  {
    RunKeepsInv(c, run, i);
    FanOutGoesOn(c, run, i, k, m);
    NoLostWakeup(c, run, k, j, id);
    ToldAtTheEnd(c, run, i, k, m, id);
  }

  lemma ToldAtTheEnd(c: Config, run: Run, i: nat, k: nat, m: Msg, id: nat)
    requires c.Valid() && run.Of(c) && i < k < |run.steps| && run.steps[k] == EventLoop(NotifyEnd)
    requires id in run.states[i].prov.subs && !run.states[i].prov.loop.Notifying?
    requires c.Recreates(m.event.key)
    requires var p, q := run.states[i].prov, run.states[k].prov;
      && q.loop.Notifying? && q.subs == p.subs && q.aux.log == p.aux.log + [Handled(m, true)]
      && forall id :: id in p.subChans ==> id in q.subChans && q.subChans[id].since == p.subChans[id].since
    ensures id in run.states[k].prov.subChans && m in run.states[k].prov.subChans[id].told
  {
    RunKeepsTold(c, run, i, id);
    RunKeepsTold(c, run, k, id);
    var q := run.states[k].prov;
    var part := q.aux.log[q.subChans[id].since..];
    assert part[|part| - 1] == Handled(m, true);
    ToFanHas(c, part, m);
  }

  /** Between two fan-outs, or at the end of one, a registered subscriber has been told all there was. */
  lemma RunKeepsTold(c: Config, run: Run, i: nat, id: nat)
    requires c.Valid() && run.Of(c) && i <= |run.steps| && id in run.states[i].prov.subs
    requires run.states[i].prov.loop.Notifying? ==> i < |run.steps| && run.steps[i] == EventLoop(NotifyEnd)
    ensures var p := run.states[i].prov;
      && id in p.subChans && p.subChans[id].since <= |p.aux.log|
      && p.subChans[id].told == ToFan(c, p.aux.log[p.subChans[id].since..])
  {
    RunKeepsWake(c, run, i);
    RunKeepsDelivery(c, run, i);
    var p := run.states[i].prov;
    var n :| 0 <= n < |p.subs| && p.subs[n] == id;
    assert FirstIndex(p.subs, id) <= n;
    assert ToldExactly(c, p, id);
    assert p.aux.log[p.subChans[id].since..|p.aux.log|] == p.aux.log[p.subChans[id].since..];
  }
}
