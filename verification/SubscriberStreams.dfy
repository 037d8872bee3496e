/** What subscribers take out of their channels, against what was fanned out to them. */
module SubscriberStreams {
  import opened Sequences
  import opened StoreTypes
  import opened AuditedStore
  import opened StoreSteps
  import opened Channels
  import opened Reload
  import opened ReloadInvariants
  import opened ReloadTheorems

  /** The event the step takes out of the subscriber's queue, if it does. */
  function TakenBy(s: State, step: Step, id: nat): seq<Msg> {
    if step == Client(SubReceive(id)) && id in s.prov.subChans && s.prov.subChans[id].buf != []
    then [s.prov.subChans[id].buf[0]] else []
  }

  /** The events a subscriber has received before the i-th state: at each of its receives, the head of
    * its queue. */
  function Taken(run: Run, i: nat, id: nat): seq<Msg>
    requires i <= |run.steps| <= |run.states|
  {
    if i == 0 then []
    else Taken(run, i - 1, id) + TakenBy(run.states[i - 1], run.steps[i - 1], id)
  }

  /** The step fans an event out to the subscriber while its buffer is full. */
  ghost predicate MeetsFullBuffer(c: Config, s: State, step: Step, id: nat) {
    && step == EventLoop(NotifyNext) && LoopEnabled(s, NotifyNext)
    && s.prov.subs[s.prov.loop.next] == id && |s.prov.subChans[id].buf| >= c.subBuffer
  }

  ghost function Missed(c: Config, run: Run, i: nat, id: nat): nat
    requires i <= |run.steps| <= |run.states|
  {
    if i == 0 then 0
    else
      Missed(c, run, i - 1, id) + if MeetsFullBuffer(c, run.states[i - 1], run.steps[i - 1], id) then 1 else 0
  }

  /** What was taken, what is queued and what was missed account for what was fanned out. */
  ghost predicate Accounts(taken: seq<Msg>, missed: nat, ch: SubChan) {
    && Subsequence(taken + ch.buf, ch.told)
    && |taken| + |ch.buf| + missed == |ch.told|
  }

  /** How the step treats a subscriber's queue. */
  ghost predicate QueueMoves(c: Config, s: State, step: Step, id: nat, a: SubChan, b: SubChan) {
    if step == Client(SubReceive(id)) then a.buf != [] && a.buf == [a.buf[0]] + b.buf && b.told == a.told
    else if step == EventLoop(NotifyNext) && LoopEnabled(s, NotifyNext) && s.prov.subs[s.prov.loop.next] == id then
      && b.told == a.told + [s.prov.loop.msg]
      && b.buf == if MeetsFullBuffer(c, s, step, id) then a.buf else a.buf + [s.prov.loop.msg]
    else b.buf == a.buf && b.told == a.told
  }

  lemma LoopKeepsQueues(c: Config, s: State, l: LoopStep)
    requires c.Valid() && LoopEnabled(s, l) && !l.NotifyNext?
    ensures LoopNext(c, s, l).prov.subChans == s.prov.subChans
  {
  }

  lemma RefreshKeepsQueues(c: Config, p: Provider, version: nat, listing: Overrides, r: RefreshStep)
    requires c.Valid() && RefreshEnabled(p, r)
    ensures RefreshNext(c, p, version, listing, r).subChans == p.subChans
  {
  }

  lemma ClientMovesQueue(c: Config, s: State, k: ClientStep, id: nat)
    requires ClientEnabled(s.prov, k)
    ensures id in s.prov.subChans ==>
      && id in ClientNext(s.prov, k).subChans
      && QueueMoves(c, s, Client(k), id, s.prov.subChans[id], ClientNext(s.prov, k).subChans[id])
    ensures id !in s.prov.subChans && id in ClientNext(s.prov, k).subChans ==>
      ClientNext(s.prov, k).subChans[id].buf == [] && ClientNext(s.prov, k).subChans[id].told == []
  {
  }

  lemma QueueStep(c: Config, s: State, step: Step, id: nat)
    requires c.Valid() && Enabled(s, step)
    ensures id in s.prov.subChans ==>
      && id in Next(c, s, step).prov.subChans
      && QueueMoves(c, s, step, id, s.prov.subChans[id], Next(c, s, step).prov.subChans[id])
    ensures id !in s.prov.subChans && id in Next(c, s, step).prov.subChans ==>
      Next(c, s, step).prov.subChans[id].buf == [] && Next(c, s, step).prov.subChans[id].told == []
  {
    match step
    case Env(_) =>
    case Refresh(r) => RefreshKeepsQueues(c, s.prov, s.store.Version(), ListOf(s.store.db.data, c.ns), r);
    case EventLoop(l) =>
      if l.NotifyNext? {
        NotifiedOne(c, s);
      } else {
        LoopKeepsQueues(c, s, l);
      }
    case Client(k) => ClientMovesQueue(c, s, k, id);
  }

  lemma AccountsOn(taken: seq<Msg>, missed: nat, a: SubChan, b: SubChan, m: Msg, full: bool)
    requires Accounts(taken, missed, a) && b.told == a.told + [m]
    requires b.buf == if full then a.buf else a.buf + [m]
    ensures Accounts(taken, missed + if full then 1 else 0, b)
  {
    SubsequenceGrows(taken + a.buf, a.told, m);
    assert taken + (a.buf + [m]) == taken + a.buf + [m];
  }

  lemma AccountsStep(c: Config, s: State, step: Step, id: nat, taken: seq<Msg>, missed: nat, b: SubChan)
    requires id in s.prov.subChans && Accounts(taken, missed, s.prov.subChans[id])
    requires QueueMoves(c, s, step, id, s.prov.subChans[id], b)
    ensures Accounts(taken + TakenBy(s, step, id), missed + if MeetsFullBuffer(c, s, step, id) then 1 else 0, b)
  {
    var a := s.prov.subChans[id];
    assert taken + [] == taken;
    if step == Client(SubReceive(id)) {
      assert taken + ([a.buf[0]] + b.buf) == taken + [a.buf[0]] + b.buf;
    } else if step == EventLoop(NotifyNext) && LoopEnabled(s, NotifyNext) && s.prov.subs[s.prov.loop.next] == id {
      AccountsOn(taken, missed, a, b, s.prov.loop.msg, MeetsFullBuffer(c, s, step, id));
    }
  }

  lemma {:induction false} RunAccounts(c: Config, run: Run, i: nat, id: nat)
    requires c.Valid() && run.Of(c) && i <= |run.steps|
    ensures id in run.states[i].prov.subChans ==>
      Accounts(Taken(run, i, id), Missed(c, run, i, id), run.states[i].prov.subChans[id])
    ensures id !in run.states[i].prov.subChans ==> Taken(run, i, id) == [] && Missed(c, run, i, id) == 0
  {
    if i > 0 {
      RunAccounts(c, run, i - 1, id);
      var s, step, post := run.states[i - 1], run.steps[i - 1], run.states[i];
      QueueStep(c, s, step, id);
      if id in s.prov.subChans {
        AccountsStep(c, s, step, id, Taken(run, i - 1, id), Missed(c, run, i - 1, id), post.prov.subChans[id]);
      }
    }
  }

  /** In every run a subscriber receives, in order, events that were fanned out to it. What it has
    * received, what is queued, and the fan-outs that met a full buffer add up to all that was fanned out
    * to it; if none did, it gets everything. */
  lemma DeliveredInOrder(c: Config, run: Run, i: nat, id: nat)
    requires c.Valid() && run.Of(c) && i <= |run.steps| && id in run.states[i].prov.subChans
    ensures var sub, taken := run.states[i].prov.subChans[id], Taken(run, i, id);
      && Subsequence(taken + sub.buf, sub.told)
      && |taken| + |sub.buf| + Missed(c, run, i, id) == |sub.told|
      && (Missed(c, run, i, id) == 0 ==> taken + sub.buf == sub.told)
  {
    RunAccounts(c, run, i, id);
    var sub := run.states[i].prov.subChans[id];
    SubsequenceIsNoLonger(Taken(run, i, id) + sub.buf, sub.told);
  }
}
