/** When do watchers receive events in the order of the audit trail? A writer releases the store's lock
  * before it broadcasts, so a later commit can be broadcast first. */
module BroadcastOrder {
  import opened Wrappers
  import opened Sequences
  import opened StoreTypes
  import opened AuditedStore
  import opened StoreSteps
  import MemStore

  ghost predicate InOrder(ms: seq<Msg>) {
    forall i, j :: 0 <= i < j < |ms| ==> ms[i].version < ms[j].version
  }

  /** The messages of a set are in the order of their commits. */
  ghost predicate OrderedAmong(ms: seq<Msg>, among: iset<Msg>) {
    forall i, j :: 0 <= i < j < |ms| && ms[i] in among && ms[j] in among ==> ms[i].version < ms[j].version
  }

  ghost predicate NoneOlderPending(st: Store, among: iset<Msg>) {
    forall n, b :: n in st.pending && n in among && b in st.broadcasts && b in among ==> b.version < n.version
  }

  /** A broadcast begins while an older commit's is still to come, both of them in the set. */
  ghost predicate Overtakes(st: Store, step: StoreStep, among: iset<Msg>) {
    && step.BeginBroadcast? && step.msg in among
    && exists n :: n in st.pending && n in among && n.version < step.msg.version
  }

  ghost predicate OvertookAt(steps: seq<StoreStep>, k: nat, among: iset<Msg>)
    requires k < |steps|
  {
    RunStore(steps[..k]).Some? && Overtakes(RunStore(steps[..k]).value, steps[k], among)
  }

  ghost predicate NeverOvertaken(steps: seq<StoreStep>, among: iset<Msg>) {
    forall k {:trigger OvertookAt(steps, k, among)} :: 0 <= k < |steps| ==> !OvertookAt(steps, k, among)
  }

  lemma OvertookBefore(steps: seq<StoreStep>, init: seq<StoreStep>, k: nat, among: iset<Msg>)
    requires k < |init| && init <= steps
    ensures OvertookAt(steps, k, among) <==> OvertookAt(init, k, among)
  {
    assert steps[..k] == init[..k];
  }

  lemma NeverOvertakenSnoc(steps: seq<StoreStep>, init: seq<StoreStep>, last: StoreStep, among: iset<Msg>)
    requires steps == init + [last] && RunStore(init).Some?
    ensures NeverOvertaken(steps, among)
       <==> NeverOvertaken(init, among) && !Overtakes(RunStore(init).value, last, among)
  {
    forall k: nat | k < |init|
      ensures OvertookAt(steps, k, among) <==> OvertookAt(init, k, among)
    {
      OvertookBefore(steps, init, k, among);
    }
    OvertookLast(steps, init, last, among);
  }

  lemma OvertookLast(steps: seq<StoreStep>, init: seq<StoreStep>, last: StoreStep, among: iset<Msg>)
    requires steps == init + [last] && RunStore(init).Some?
    ensures OvertookAt(steps, |init|, among) <==> Overtakes(RunStore(init).value, last, among)
  {
    assert steps[..|init|] == init;
  }

  lemma OrderBeforeBegin(st: Store, m: Msg, among: iset<Msg>)
    requires MessagesInv(st) && StoreEnabled(st, BeginBroadcast(m))
    requires var post := StoreNext(st, BeginBroadcast(m));
      OrderedAmong(post.broadcasts, among) && NoneOlderPending(post, among)
    ensures OrderedAmong(st.broadcasts, among) && NoneOlderPending(st, among)
    ensures !Overtakes(st, BeginBroadcast(m), among)
  {
    var post := StoreNext(st, BeginBroadcast(m));
    var b := post.broadcasts;
    assert b[..|st.broadcasts|] == st.broadcasts && b[|st.broadcasts|] == m;
    assert forall i :: 0 <= i < |st.broadcasts| ==> b[i] == st.broadcasts[i];
    forall n | n in st.pending
      ensures n == m || n in post.pending
    {
    }
    assert forall x :: x in st.broadcasts ==> x in b;
    assert m in b;
  }

  lemma OrderAfterBegin(st: Store, m: Msg, among: iset<Msg>)
    requires MessagesInv(st) && StoreEnabled(st, BeginBroadcast(m))
    requires OrderedAmong(st.broadcasts, among) && NoneOlderPending(st, among)
    requires !Overtakes(st, BeginBroadcast(m), among)
    ensures var post := StoreNext(st, BeginBroadcast(m));
      OrderedAmong(post.broadcasts, among) && NoneOlderPending(post, among)
  {
    var post := StoreNext(st, BeginBroadcast(m));
    forall n | n in post.pending && n in among && m in among
      ensures m.version < n.version
    {
      assert Genuine(st, n) && Genuine(st, m);
    }
  }

  lemma OrderStep(st: Store, step: StoreStep, among: iset<Msg>)
    requires MessagesInv(st) && StoreEnabled(st, step)
    ensures var post := StoreNext(st, step);
      OrderedAmong(post.broadcasts, among) && NoneOlderPending(post, among)
      <==> OrderedAmong(st.broadcasts, among) && NoneOlderPending(st, among) && !Overtakes(st, step, among)
  {
    match step
    case BeginBroadcast(m) =>
      var post := StoreNext(st, step);
      if OrderedAmong(post.broadcasts, among) && NoneOlderPending(post, among) {
        OrderBeforeBegin(st, m, among);
      }
      if OrderedAmong(st.broadcasts, among) && NoneOlderPending(st, among) && !Overtakes(st, step, among) {
        OrderAfterBegin(st, m, among);
      }
    case CommitWrite(w) =>
      var post := StoreNext(st, step);
      if Commits(st.db, w) {
        CommitAppends(st.db, w);
        forall b | b in st.broadcasts
          ensures b.version <= st.Version()
        {
          var i :| 0 <= i < |st.broadcasts| && st.broadcasts[i] == b;
        }
        assert st.pending <= post.pending;
      }
    case _ =>
  }

  lemma LastOfRun(steps: seq<StoreStep>) returns (init: seq<StoreStep>, last: StoreStep, before: Store)
    requires steps != [] && RunStore(steps).Some?
    ensures steps == init + [last] && RunStore(init) == Some(before)
    ensures MessagesInv(before) && StoreEnabled(before, last) && RunStore(steps) == Some(StoreNext(before, last))
  {
    init, last := steps[..|steps| - 1], steps[|steps| - 1];
    before := RunStore(init).value;
    RunsKeepStoreInv(init);
  }

  /** The exact condition, for any set of messages and at any point of any run: their broadcasts so far
    * are in commit order, and none of them that is still to come is too late already, if and only if no
    * broadcast of one was begun while another's of an older commit was pending. */
  lemma {:induction false} OrderIsExact(steps: seq<StoreStep>, among: iset<Msg>)
    requires RunStore(steps).Some?
    ensures var st := RunStore(steps).value;
      OrderedAmong(st.broadcasts, among) && NoneOlderPending(st, among) <==> NeverOvertaken(steps, among)
  {
    if steps != [] {
      var init, last, before := LastOfRun(steps);
      OrderIsExact(init, among);
      OrderStep(before, last, among);
      NeverOvertakenSnoc(steps, init, last, among);
    }
  }

  ghost function OfNamespace(ns: string): iset<Msg> {
    iset m: Msg | m.event.namespace == ns
  }

  /** Once nothing of a namespace is pending, its broadcasts were in commit order if and only if none
    * of them overtook another. */
  lemma NamespaceOrderIsExact(steps: seq<StoreStep>, ns: string)
    requires RunStore(steps).Some?
    requires forall m :: m in RunStore(steps).value.pending ==> m.event.namespace != ns
    ensures OrderedAmong(RunStore(steps).value.broadcasts, OfNamespace(ns)) <==> NeverOvertaken(steps, OfNamespace(ns))
  {
    OrderIsExact(steps, OfNamespace(ns));
  }

  // ---------------------------------------------------------------------------------------------
  // Streams
  // ---------------------------------------------------------------------------------------------

  ghost function Elements(ms: seq<Msg>): iset<Msg> {
    iset m | m in ms
  }

  lemma {:induction false} OrderInSubsequence(a: seq<Msg>, b: seq<Msg>)
    requires Subsequence(a, b) && Distinct(b)
    ensures InOrder(a) <==> OrderedAmong(b, Elements(a))
  {
    if a != [] {
      var b', x := b[..|b| - 1], b[|b| - 1];
      assert b == b' + [x] && Distinct(b') && x !in b';
      if Subsequence(a, b') {
        OrderInSubsequence(a, b');
        SubsequenceKeepsMembers(a, b');
        assert x !in Elements(a);
      } else {
        var a' := a[..|a| - 1];
        assert a == a' + [x];
        OrderInSubsequence(a', b');
        SubsequenceKeepsMembers(a', b');
        LastInOrder(a', b', x);
      }
    }
  }

  lemma LastInOrder(a: seq<Msg>, b: seq<Msg>, x: Msg)
    requires x !in b && forall m :: m in a ==> m in b
    requires InOrder(a) <==> OrderedAmong(b, Elements(a))
    ensures InOrder(a + [x]) <==> OrderedAmong(b + [x], Elements(a + [x]))
  {
    var ax, bx := a + [x], b + [x];
    assert ax[|a|] == x && bx[|b|] == x;
    if InOrder(ax) {
      forall i, j | 0 <= i < j < |a|
        ensures a[i].version < a[j].version
      {
        assert ax[i].version < ax[j].version;
      }
      forall m | m in a
        ensures m.version < x.version
      {
        var i :| 0 <= i < |a| && a[i] == m;
        assert ax[i] == m;
      }
    }
    if OrderedAmong(bx, Elements(ax)) {
      forall i, j | 0 <= i < j < |b| && b[i] in Elements(a) && b[j] in Elements(a)
        ensures b[i].version < b[j].version
      {
        assert bx[i] == b[i] && bx[j] == b[j] && bx[i] in Elements(ax) && bx[j] in Elements(ax);
      }
      forall i | 0 <= i < |a|
        ensures a[i].version < x.version
      {
        assert a[i] in a;
        assert a[i] in b;
        var k :| 0 <= k < |b| && b[k] == a[i];
        assert bx[k] == a[i] && a[i] in ax;
      }
    }
  }

  lemma StreamIsSubsequence(st: Store, id: nat)
    requires StoreInv(st) && id in st.chans
    ensures Subsequence(st.chans[id].Stream(), st.broadcasts) && Distinct(st.broadcasts)
  {
    assert ChanInv(st, id);
    var ch := st.chans[id];
    var heard := st.broadcasts[ch.since..Served(st, id)];
    MatchingIsSubsequence(heard, ch.ns);
    SubsequenceIsTransitive(ch.Stream(), Matching(heard, ch.ns), heard);
    SliceIsSubsequence(st.broadcasts, ch.since, Served(st, id));
    SubsequenceIsTransitive(ch.Stream(), heard, st.broadcasts);
  }

  /** The exact condition for a watcher, in every run and with whatever drops: the stream it gets is in
    * the order of the audit trail if and only if no event in it overtook another event in it. */
  lemma StreamOrderIsExact(steps: seq<StoreStep>, id: nat)
    requires RunStore(steps).Some? && id in RunStore(steps).value.chans
    ensures var stream := RunStore(steps).value.chans[id].Stream();
      InOrder(stream) <==> NeverOvertaken(steps, Elements(stream))
  {
    var st := RunStore(steps).value;
    var stream := st.chans[id].Stream();
    RunsKeepStoreInv(steps);
    StreamIsSubsequence(st, id);
    SubsequenceKeepsMembers(stream, st.broadcasts);
    OrderInSubsequence(stream, st.broadcasts);
    OrderIsExact(steps, Elements(stream));
  }

  /** The messages of a namespace, but for those broadcast before a watcher registered. */
  ghost function Since(st: Store, ns: string, since: nat): iset<Msg>
    requires since <= |st.broadcasts|
  {
    iset m: Msg | m.event.namespace == ns && m !in st.broadcasts[..since]
  }

  /** A registered watcher that lost nothing, when nothing of its namespace is pending or under way:
    * it got its namespace's events in order if and only if none of them overtook another since it
    * registered. */
  lemma UndroppedOrderIsExact(steps: seq<StoreStep>, id: nat)
    requires RunStore(steps).Some? && id in RunStore(steps).value.chans
    requires var st := RunStore(steps).value;
      && st.sending.None? && st.chans[id].open && st.chans[id].dropped == 0
      && forall m :: m in st.pending ==> m.event.namespace != st.chans[id].ns
    ensures var st := RunStore(steps).value;
      var ch := st.chans[id];
      && ch.since <= |st.broadcasts|
      && (InOrder(ch.Stream()) <==> NeverOvertaken(steps, Since(st, ch.ns, ch.since)))
  {
    var st := RunStore(steps).value;
    RunsKeepStoreInv(steps);
    UndroppedElements(st, id);
    StreamIsSubsequence(st, id);
    OrderInSubsequence(st.chans[id].Stream(), st.broadcasts);
    OrderIsExact(steps, Since(st, st.chans[id].ns, st.chans[id].since));
  }

  lemma UndroppedElements(st: Store, id: nat)
    requires StoreInv(st) && id in st.chans && st.sending.None? && st.chans[id].open && st.chans[id].dropped == 0
    ensures st.chans[id].since <= |st.broadcasts|
    ensures forall m :: m in st.broadcasts ==>
      (m in Elements(st.chans[id].Stream()) <==> m in Since(st, st.chans[id].ns, st.chans[id].since))
  {
    var ch, b := st.chans[id], st.broadcasts;
    assert ChanInv(st, id);
    SubsequenceIsNoLonger(ch.Stream(), ch.offered);
    assert b[ch.since..|b|] == b[ch.since..];
    forall m | m in b
      ensures m in Elements(ch.Stream()) <==> m in Since(st, ch.ns, ch.since)
    {
      MatchingHas(b[ch.since..], ch.ns, m);
      LaterIsNotEarlier(b, ch.since, m);
    }
  }

  lemma LaterIsNotEarlier(b: seq<Msg>, k: nat, m: Msg)
    requires Distinct(b) && k <= |b| && m in b
    ensures m in b[k..] <==> m !in b[..k]
  {
    assert b == b[..k] + b[k..];
    if m in b[..k] {
      var i :| 0 <= i < |b[..k]| && b[..k][i] == m;
      forall j | k <= j < |b|
        ensures b[j] != m
      {
        assert b[i] == m;
      }
    }
  }

  lemma FewerOvertake(steps: seq<StoreStep>, some: iset<Msg>, all: iset<Msg>)
    requires NeverOvertaken(steps, all) && some <= all
    ensures NeverOvertaken(steps, some)
  {
    forall k: nat | k < |steps|
      ensures !OvertookAt(steps, k, some)
    {
      assert !OvertookAt(steps, k, all);
    }
  }

  /** It is enough that no two writers of the namespace overtake each other; others may. */
  lemma OrderedNamespaceOrdersStreams(steps: seq<StoreStep>, id: nat)
    requires RunStore(steps).Some? && id in RunStore(steps).value.chans
    requires NeverOvertaken(steps, OfNamespace(RunStore(steps).value.chans[id].ns))
    ensures InOrder(RunStore(steps).value.chans[id].Stream())
  {
    var ch := RunStore(steps).value.chans[id];
    RunsKeepStoreInv(steps);
    StreamIsGenuine(RunStore(steps).value, id);
    FewerOvertake(steps, Elements(ch.Stream()), OfNamespace(ch.ns));
    StreamOrderIsExact(steps, id);
  }

  // ---------------------------------------------------------------------------------------------
  // Serialised writers
  // ---------------------------------------------------------------------------------------------

  /** Every write waits until the previous one has been broadcast. */
  ghost predicate Serialised(steps: seq<StoreStep>) {
    steps == [] ||
    (&& Serialised(steps[..|steps| - 1])
     && (steps[|steps| - 1].CommitWrite? ==>
           match RunStore(steps[..|steps| - 1])
           case None => false
           case Some(st) => st.pending == {} && st.sending.None?))
  }

  lemma {:induction false} SerialisedNeverOvertake(steps: seq<StoreStep>, among: iset<Msg>)
    requires RunStore(steps).Some? && Serialised(steps)
    ensures forall m, n :: m in RunStore(steps).value.pending && n in RunStore(steps).value.pending ==> m == n
    ensures NeverOvertaken(steps, among)
  {
    if steps != [] {
      var init, last := steps[..|steps| - 1], steps[|steps| - 1];
      SerialisedNeverOvertake(init, among);
      assert steps == init + [last];
      NeverOvertakenSnoc(steps, init, last, among);
    }
  }

  /** With serialised writers every watcher's stream follows the audit trail: its elements report
    * commits of its namespace, in the order of the trail. */
  lemma SerialisedStreamsFollowTheTrail(steps: seq<StoreStep>, id: nat)
    requires RunStore(steps).Some? && Serialised(steps) && id in RunStore(steps).value.chans
    ensures var st := RunStore(steps).value;
      && InOrder(st.chans[id].Stream())
      && forall m :: m in st.chans[id].Stream() ==> Genuine(st, m) && m.event.namespace == st.chans[id].ns
  {
    var st := RunStore(steps).value;
    SerialisedNeverOvertake(steps, OfNamespace(st.chans[id].ns));
    OrderedNamespaceOrdersStreams(steps, id);
    RunsKeepStoreInv(steps);
    StreamIsGenuine(st, id);
  }

  lemma TakeStep(steps: seq<StoreStep>, step: StoreStep)
    requires RunStore(steps).Some? && StoreEnabled(RunStore(steps).value, step)
    ensures RunStore(steps + [step]) == Some(StoreNext(RunStore(steps).value, step))
  {
    assert (steps + [step])[..|steps|] == steps;
  }

  /** Without serialisation the order can turn around, because a writer broadcasts only after it has
    * released the store's lock: here the second commit of a namespace is delivered before the first. */
  lemma RacingWritersReorder(first: SetEntry, second: SetEntry, at: Time) returns (steps: seq<StoreStep>)
    requires first.namespace == second.namespace
    ensures RunStore(steps).Some? && 0 in RunStore(steps).value.chans
    ensures var stream := RunStore(steps).value.chans[0].Stream();
      |stream| == 2 && stream[0].version == 2 && stream[1].version == 1
  {
    steps := [];
    TakeStep(steps, Watch(first.namespace, 0));
    steps := steps + [Watch(first.namespace, 0)];
    TakeStep(steps, CommitWrite(SetKey(first, at)));
    steps := steps + [CommitWrite(SetKey(first, at))];
    var m := MsgOf(RunStore(steps).value, 1);
    TakeStep(steps, CommitWrite(SetKey(second, at)));
    steps := steps + [CommitWrite(SetKey(second, at))];
    var n := MsgOf(RunStore(steps).value, 2);
    steps := BroadcastTo0(steps, n);
    steps := BroadcastTo0(steps, m);
  }

  /** A whole broadcast when channel 0 is the only watcher and has room. */
  lemma BroadcastTo0(before: seq<StoreStep>, m: Msg) returns (steps: seq<StoreStep>)
    requires RunStore(before).Some? && 0 in RunStore(before).value.chans
    requires var st := RunStore(before).value;
      && m in st.pending && st.sending.None? && st.watchers == [Watcher(m.event.namespace, 0)]
      && st.chans[0].ns == m.event.namespace && |st.chans[0].buf| < MemStore.WATCH_BUFFER
    ensures RunStore(steps).Some? && 0 in RunStore(steps).value.chans
    ensures var st, post := RunStore(before).value, RunStore(steps).value;
      && post.pending == st.pending - {m} && post.sending.None? && post.watchers == st.watchers
      && post.chans[0] == Sent(st.chans[0], m)
  {
    steps := before;
    TakeStep(steps, BeginBroadcast(m));
    steps := steps + [BeginBroadcast(m)];
    TakeStep(steps, SendNext);
    steps := steps + [SendNext];
    TakeStep(steps, EndBroadcast);
    steps := steps + [EndBroadcast];
  }
}
