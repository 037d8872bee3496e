/** Nobody gets stuck: what can always be done, and how far the loop and a broadcast are from done. */
module LoopProgress {
  import opened StoreTypes
  import opened AuditedStore
  import opened StoreSteps
  import opened Reload
  import opened ReloadInvariants
  import opened ReloadTheorems

  /** How many stages of a refresh and its fan-out are still to come; none when the loop waits. */
  function Phase(loop: Loop): nat {
    match loop
    case AboutToList(_) => 7
    case Listed(_, _) => 6
    case Installed(_) => 5
    case Counted(_) => 4
    case Stamped(_) => 3
    case Refreshed(_) => 2
    case ListFailed(_, _) => 2
    case Notifying(_, _) => 1
    case _ => 0
  }

  /** How many subscribers of a fan-out are still to be served. */
  function Unserved(p: Provider): nat {
    if p.loop.Notifying? && p.loop.next < |p.subs| then |p.subs| - p.loop.next else 0
  }

  ghost predicate Closer(p: Provider, q: Provider) {
    Phase(q.loop) < Phase(p.loop) || (Phase(q.loop) == Phase(p.loop) && Unserved(q) < Unserved(p))
  }

  predicate IsOwn(step: Step) {
    step.Refresh? || (step.EventLoop? && !step.l.Cancel?)
  }

  /** Every step of a busy loop brings it closer to waiting again. */
  lemma OwnStepsProgress(c: Config, s: State, step: Step)
    requires c.Valid() && Enabled(s, step) && IsOwn(step) && 0 < Phase(s.prov.loop)
    ensures Closer(s.prov, Next(c, s, step).prov)
  {
    match step
    case Refresh(r) =>
    case EventLoop(l) =>
  }

  /** No step of anybody else takes it further away. */
  lemma OthersDoNotDelay(c: Config, s: State, step: Step)
    requires c.Valid() && SubsInv(s.prov) && Enabled(s, step) && !IsOwn(step)
    ensures var p, q := s.prov, Next(c, s, step).prov;
      Phase(q.loop) == Phase(p.loop) && Unserved(q) == Unserved(p)
  {
    match step
    case Env(_) =>
    case EventLoop(_) =>
    case Client(k) =>
      ClientKeepsRefresh(s.prov, k);
      if s.prov.loop.Notifying? {
        NotifyingKeepsTold(s.prov, k);
      }
  }

  /** In every state of every run the loop can take a step, unless it has exited or waits for the lock
    * that a broadcast holds. */
  lemma LoopCanMove(c: Config, run: Run, i: nat) returns (step: Step)
    requires c.Valid() && run.Of(c) && i <= |run.steps| && !run.states[i].prov.loop.Exited?
    requires run.states[i].prov.loop.Registering? ==> run.states[i].store.sending.None?
    ensures IsOwn(step) && Enabled(run.states[i], step)
  {
    RunKeepsWake(c, run, i);
    var s := run.states[i];
    match s.prov.loop
    case AboutToList(_) => step := Refresh(ListOk);
    case Listed(_, _) => step := Refresh(Install);
    case Installed(_) => step := Refresh(Count);
    case Counted(_) => step := Refresh(Stamp);
    case Stamped(_) => step := Refresh(ClearError);
    case Refreshed(_) => step := EventLoop(AfterRefresh);
    case ListFailed(_, _) => step := Refresh(RecordError);
    case Registering =>
      var id := UnusedId(s.store.chans.Keys);
      step := EventLoop(Register(id));
    case Idle => step := EventLoop(TakeTick);
    case Notifying(_, next) => step := EventLoop(if next < |s.prov.subs| then NotifyNext else NotifyEnd);
    case Exited =>
  }

  lemma {:induction false} UnusedId(ids: set<nat>) returns (id: nat)
    ensures forall x :: x in ids ==> x < id
  {
    id := 0;
    if ids != {} {
      var x :| x in ids;
      var rest := UnusedId(ids - {x});
      id := if rest <= x then x + 1 else rest;
      assert forall y :: y in ids ==> y == x || y in ids - {x};
    }
  }

  /** A broadcast under way can always go on, each of its steps serves one more watcher or ends it, and no
    * other step changes how many are still to be served. */
  lemma BroadcastsGoOn(st: Store, step: StoreStep)
    requires LifecycleInv(st) && st.sending.Some? && StoreEnabled(st, step)
    ensures StoreEnabled(st, SendNext) || StoreEnabled(st, EndBroadcast)
    ensures var post := StoreNext(st, step);
      if step.EndBroadcast? then post.sending.None?
      else post.sending.Some? && post.watchers == st.watchers &&
           post.sending.value.next == st.sending.value.next + if step.SendNext? then 1 else 0
  {
  }

  /** Callers are not kept waiting: once New has returned anyone can ask for a refresh and call Get, and
    * receive what is queued; only a fan-out under way makes a new subscription wait. */
  lemma CallersAreServed(c: Config, run: Run, i: nat, id: nat)
    requires c.Valid() && run.Of(c) && i <= |run.steps| && run.states[i].prov.watch.Some?
    ensures var s := run.states[i];
      && Enabled(s, Client(AskRefresh)) && s.prov.current.Some?
      && (id in s.prov.subChans ==> Enabled(s, Client(SubGet(id))) && Enabled(s, Client(CancelSub(id))))
      && (id in s.prov.subChans && s.prov.subChans[id].buf != [] ==> Enabled(s, Client(SubReceive(id))))
      && (id !in s.prov.subChans && !s.prov.loop.Notifying? ==> Enabled(s, Client(Subscribe(id))))
  {
    RunKeepsInv(c, run, i);
  }
}
