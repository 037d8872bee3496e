/** The in-memory store as an interleaved step system: writers commit under one lock, broadcast
  * later under another, watchers come and go, and receivers drain their channels.
  * Versions, broadcasts and the per-channel tallies are auxiliary: no step's guard reads them. */
module StoreSteps {
  import opened Wrappers
  import opened Sequences
  import opened StoreTypes
  import opened AuditedStore
  import opened Channels
  import MemStore

  /** An event on its way, with the number of the commit it reports. */
  datatype Msg = Msg(event: ChangeEvent, version: nat)

  datatype Watcher = Watcher(ns: string, id: nat)

  datatype WatchChan = WatchChan(
    ns: string, buf: seq<Msg>, open: bool, closes: nat, cancelled: bool,
    since: nat, until: nat, offered: seq<Msg>, received: seq<Msg>, dropped: nat)
  {
    /** Everything that ever got into the channel, in order. */
    function Stream(): seq<Msg> {
      received + buf
    }
  }

  /** The holder of the watchers' lock, part-way through the list. */
  datatype Sending = Sending(msg: Msg, next: nat)

  datatype Store = Store(
    db: Db,
    versions: seq<Data>,
    pending: set<Msg>,
    sending: Option<Sending>,
    broadcasts: seq<Msg>,
    watchers: seq<Watcher>,
    chans: map<nat, WatchChan>)
  {
    function Version(): nat {
      |db.audit|
    }
  }

  const INITIAL: Store := Store(EMPTY, [map[]], {}, None, [], [], map[])

  datatype StoreStep =
    | CommitWrite(w: Write)
    | BeginBroadcast(msg: Msg)
    | SendNext
    | EndBroadcast
    | Watch(ns: string, id: nat)
    | CancelWatch(id: nat)
    | RemoveWatch(id: nat)
    | ReceiveWatch(id: nat)

  function Ids(watchers: seq<Watcher>): seq<nat> {
    seq(|watchers|, i requires 0 <= i < |watchers| => watchers[i].id)
  }

  function IndexOf(watchers: seq<Watcher>, id: nat): (i: nat)
    ensures i <= |watchers|
    ensures i < |watchers| ==> watchers[i].id == id
    ensures forall k :: 0 <= k < i ==> watchers[k].id != id
  {
    var ids := Ids(watchers);
    assert forall k :: 0 <= k < |ids| ==> ids[k] == watchers[k].id;
    FirstIndex(ids, id)
  }

  predicate Registered(watchers: seq<Watcher>, id: nat) {
    exists i :: 0 <= i < |watchers| && watchers[i].id == id
  }

  ghost predicate DistinctIds(watchers: seq<Watcher>) {
    forall i, j :: 0 <= i < j < |watchers| ==> watchers[i].id != watchers[j].id
  }

  ghost predicate StoreEnabled(st: Store, step: StoreStep) {
    match step
    case CommitWrite(_) => true
    case BeginBroadcast(m) => m in st.pending && st.sending.None?
    case SendNext =>
      st.sending.Some? && st.sending.value.next < |st.watchers| &&
      st.watchers[st.sending.value.next].id in st.chans
    case EndBroadcast => st.sending.Some? && st.sending.value.next >= |st.watchers|
    case Watch(_, id) => st.sending.None? && id !in st.chans
    case CancelWatch(id) => id in st.chans
    case RemoveWatch(id) =>
      st.sending.None? && id in st.chans && st.chans[id].cancelled && IndexOf(st.watchers, id) < |st.watchers|
    case ReceiveWatch(id) => id in st.chans && st.chans[id].buf != []
  }

  function Committed(st: Store, w: Write): Store {
    if !Commits(st.db, w) then st else
    var db := Commit(st.db, w);
    st.(db := db, versions := st.versions + [db.data],
        pending := st.pending + {Msg(EventOf(db.audit[|db.audit| - 1]), |db.audit|)})
  }

  /** A non-blocking send on one watch channel. */
  function Sent(ch: WatchChan, m: Msg): WatchChan {
    if ch.ns != m.event.namespace then ch
    else
      ch.(buf := Offer(ch.buf, MemStore.WATCH_BUFFER, m),
          offered := ch.offered + [m],
          dropped := ch.dropped + if |ch.buf| < MemStore.WATCH_BUFFER then 0 else 1)
  }

  function StoreNext(st: Store, step: StoreStep): Store
    requires StoreEnabled(st, step)
  {
    match step
    case CommitWrite(w) => Committed(st, w)
    case BeginBroadcast(m) =>
      st.(pending := st.pending - {m}, sending := Some(Sending(m, 0)), broadcasts := st.broadcasts + [m])
    case SendNext =>
      var Sending(m, next) := st.sending.value;
      var id := st.watchers[next].id;
      st.(sending := Some(Sending(m, next + 1)), chans := st.chans[id := Sent(st.chans[id], m)])
    case EndBroadcast => st.(sending := None)
    case Watch(ns, id) =>
      st.(watchers := st.watchers + [Watcher(ns, id)],
          chans := st.chans[id := WatchChan(ns, [], true, 0, false, |st.broadcasts|, 0, [], [], 0)])
    case CancelWatch(id) => st.(chans := st.chans[id := st.chans[id].(cancelled := true)])
    case RemoveWatch(id) =>
      var ch := st.chans[id];
      st.(watchers := CutAt(st.watchers, IndexOf(st.watchers, id)),
          chans := st.chans[id := ch.(open := false, closes := ch.closes + 1, until := |st.broadcasts|)])
    case ReceiveWatch(id) =>
      var ch := st.chans[id];
      st.(chans := st.chans[id := ch.(buf := ch.buf[1..], received := ch.received + [ch.buf[0]])])
  }

  // ---------------------------------------------------------------------------------------------
  // Commits and versions
  // ---------------------------------------------------------------------------------------------

  /** A message that reports the commit whose number it carries. */
  ghost predicate Genuine(st: Store, m: Msg) {
    1 <= m.version <= st.Version() && m.event == EventOf(st.db.audit[m.version - 1])
  }

  /** Version k is the data after k commits, and a commit only changes listings of its namespace. */
  ghost predicate VersionsInv(st: Store) {
    && AuditRefines(st.db)
    && |st.versions| == st.Version() + 1
    && st.versions[st.Version()] == st.db.data
    && (forall i, ns {:trigger SameListing(st.versions, i, ns)} ::
          0 <= i < st.Version() && st.db.audit[i].namespace != ns ==> SameListing(st.versions, i, ns))
  }

  ghost predicate SameListing(versions: seq<Data>, i: nat, ns: string)
    requires i + 1 < |versions|
  {
    ListOf(versions[i + 1], ns) == ListOf(versions[i], ns)
  }

  lemma VersionsStep(st: Store, step: StoreStep)
    requires VersionsInv(st) && StoreEnabled(st, step)
    ensures VersionsInv(StoreNext(st, step))
    ensures st.db.audit <= StoreNext(st, step).db.audit && st.versions <= StoreNext(st, step).versions
  {
    if step.CommitWrite? && Commits(st.db, step.w) {
      var post := StoreNext(st, step);
      CommitPreservesAudit(st.db, step.w);
      forall i: nat, ns {:trigger SameListing(post.versions, i, ns)}
        | 0 <= i < post.Version() && post.db.audit[i].namespace != ns
        ensures SameListing(post.versions, i, ns)
      {
        if i == st.Version() {
          OtherNamespacesKeepTheirListing(st.db, step.w, ns);
        } else {
          assert SameListing(st.versions, i, ns);
        }
      }
    }
  }

  /** Between two versions with no commit in a namespace, its listing stays the same. */
  lemma {:induction false} ListingUnchanged(st: Store, ns: string, lo: nat, hi: nat)
    requires VersionsInv(st) && lo <= hi <= st.Version()
    requires forall v :: lo <= v < hi ==> st.db.audit[v].namespace != ns
    ensures ListOf(st.versions[lo], ns) == ListOf(st.versions[hi], ns)
    decreases hi - lo
  {
    if lo < hi {
      assert SameListing(st.versions, lo, ns);
      ListingUnchanged(st, ns, lo + 1, hi);
    }
  }

  // ---------------------------------------------------------------------------------------------
  // Channel lifecycle
  // ---------------------------------------------------------------------------------------------

  /** A channel is open exactly while it is registered; it is registered once and closed once. */
  ghost predicate LifecycleInv(st: Store) {
    && (forall i :: 0 <= i < |st.watchers| ==>
          && st.watchers[i].id in st.chans
          && st.chans[st.watchers[i].id].ns == st.watchers[i].ns)
    && DistinctIds(st.watchers)
    && (forall id :: id in st.chans ==> (st.chans[id].open <==> Registered(st.watchers, id)))
    && (forall id :: id in st.chans ==> st.chans[id].closes == if st.chans[id].open then 0 else 1)
    && (forall id :: id in st.chans && !st.chans[id].open ==> st.chans[id].cancelled)
    && (st.sending.Some? ==> st.sending.value.next <= |st.watchers|)
  }

  lemma AddedIsRegistered(watchers: seq<Watcher>, w: Watcher, id: nat)
    ensures Registered(watchers + [w], id) <==> Registered(watchers, id) || w.id == id
  {
    var after := watchers + [w];
    assert after[|watchers|] == w;
    assert forall i :: 0 <= i < |watchers| ==> after[i] == watchers[i];
  }

  lemma CutIsNotRegistered(watchers: seq<Watcher>, k: nat, id: nat)
    requires k < |watchers| && DistinctIds(watchers)
    ensures Registered(CutAt(watchers, k), id) <==> Registered(watchers, id) && watchers[k].id != id
    ensures DistinctIds(CutAt(watchers, k))
  {
    var after := CutAt(watchers, k);
    if Registered(watchers, id) {
      var i :| 0 <= i < |watchers| && watchers[i].id == id;
      if i != k {
        assert after[if i < k then i else i - 1].id == id;
      }
    }
  }

  lemma WatchLifecycle(st: Store, ns: string, id: nat)
    requires LifecycleInv(st) && StoreEnabled(st, Watch(ns, id))
    ensures LifecycleInv(StoreNext(st, Watch(ns, id)))
  {
    forall other
      ensures Registered(st.watchers + [Watcher(ns, id)], other) <==> Registered(st.watchers, other) || id == other
    {
      AddedIsRegistered(st.watchers, Watcher(ns, id), other);
    }
  }

  lemma RemoveLifecycle(st: Store, id: nat)
    requires LifecycleInv(st) && StoreEnabled(st, RemoveWatch(id))
    ensures LifecycleInv(StoreNext(st, RemoveWatch(id)))
  {
    var k := IndexOf(st.watchers, id);
    var after, post := CutAt(st.watchers, k), StoreNext(st, RemoveWatch(id));
    assert Registered(st.watchers, id);
    forall i | 0 <= i < |after|
      ensures after[i].id in post.chans && post.chans[after[i].id].ns == after[i].ns
    {
      assert after[i] == st.watchers[if i < k then i else i + 1];
    }
    CutIsNotRegistered(st.watchers, k, id);
    forall other | other in post.chans
      ensures post.chans[other].open <==> Registered(after, other)
    {
      CutIsNotRegistered(st.watchers, k, other);
    }
  }

  /** Every step keeps the lifecycle, and no send ever meets a closed channel. */
  lemma LifecycleStep(st: Store, step: StoreStep)
    requires LifecycleInv(st) && StoreEnabled(st, step)
    ensures LifecycleInv(StoreNext(st, step))
    ensures step.SendNext? ==> st.chans[st.watchers[st.sending.value.next].id].open
  {
    match step
    case Watch(ns, id) => WatchLifecycle(st, ns, id);
    case RemoveWatch(id) => RemoveLifecycle(st, id);
    case SendNext => assert Registered(st.watchers, st.watchers[st.sending.value.next].id);
    case _ =>
  }

  /** Removal keeps the other watchers, in their order. */
  lemma RemovalKeepsOthers(st: Store, id: nat)
    requires LifecycleInv(st) && StoreEnabled(st, RemoveWatch(id))
    ensures var post := StoreNext(st, RemoveWatch(id));
      && !Registered(post.watchers, id)
      && exists k :: 0 <= k < |st.watchers| && st.watchers[k].id == id &&
           post.watchers == st.watchers[..k] + st.watchers[k + 1..]
  {
    CutIsNotRegistered(st.watchers, IndexOf(st.watchers, id), id);
  }

  // ---------------------------------------------------------------------------------------------
  // Messages
  // ---------------------------------------------------------------------------------------------

  /** The message of the v-th commit. */
  function MsgOf(st: Store, v: nat): Msg
    requires 1 <= v <= st.Version()
  {
    Msg(EventOf(st.db.audit[v - 1]), v)
  }

  /** Every commit's message is either still pending or was broadcast, once; nothing else is. */
  ghost predicate MessagesInv(st: Store) {
    && (forall m :: m in st.pending ==> Genuine(st, m) && m !in st.broadcasts)
    && (forall i :: 0 <= i < |st.broadcasts| ==> Genuine(st, st.broadcasts[i]))
    && (forall i, j :: 0 <= i < j < |st.broadcasts| ==> st.broadcasts[i] != st.broadcasts[j])
    && (forall v {:trigger MsgOf(st, v)} :: 1 <= v <= st.Version() ==>
          MsgOf(st, v) in st.pending || MsgOf(st, v) in st.broadcasts)
    && (st.sending.Some? ==>
          st.broadcasts != [] && st.broadcasts[|st.broadcasts| - 1] == st.sending.value.msg)
  }

  lemma CommitMessages(st: Store, post: Store)
    requires MessagesInv(st)
    requires post.Version() == st.Version() + 1 && st.db.audit == post.db.audit[..st.Version()]
    requires post.pending == st.pending + {MsgOf(post, post.Version())}
    requires post.broadcasts == st.broadcasts && post.sending == st.sending
    ensures MessagesInv(post)
  {
    var latest := MsgOf(post, post.Version());
    forall m | Genuine(st, m)
      ensures Genuine(post, m) && m != latest
    {
    }
    assert latest !in st.broadcasts;
    forall v: nat {:trigger MsgOf(post, v)} | 1 <= v <= post.Version()
      ensures MsgOf(post, v) in post.pending || MsgOf(post, v) in post.broadcasts
    {
      if v <= st.Version() {
        assert MsgOf(st, v) == MsgOf(post, v);
      }
    }
  }

  lemma BeginMessages(st: Store, m: Msg)
    requires MessagesInv(st) && StoreEnabled(st, BeginBroadcast(m))
    ensures MessagesInv(StoreNext(st, BeginBroadcast(m)))
  {
    var post := StoreNext(st, BeginBroadcast(m));
    forall v: nat {:trigger MsgOf(post, v)} | 1 <= v <= post.Version()
      ensures MsgOf(post, v) in post.pending || MsgOf(post, v) in post.broadcasts
    {
      assert MsgOf(st, v) == MsgOf(post, v);
    }
    forall n
      ensures n in post.broadcasts <==> n in st.broadcasts || n == m
    {
    }
  }

  lemma SameMessages(st: Store, post: Store)
    requires MessagesInv(st)
    requires post.db == st.db && post.pending == st.pending && post.broadcasts == st.broadcasts
    requires post.sending.Some? ==> st.sending.Some? && post.sending.value.msg == st.sending.value.msg
    ensures MessagesInv(post)
  {
    forall v: nat {:trigger MsgOf(post, v)} | 1 <= v <= post.Version()
      ensures MsgOf(post, v) in post.pending || MsgOf(post, v) in post.broadcasts
    {
      assert MsgOf(st, v) == MsgOf(post, v);
    }
  }

  lemma MessagesStep(st: Store, step: StoreStep)
    requires MessagesInv(st) && StoreEnabled(st, step)
    ensures MessagesInv(StoreNext(st, step))
  {
    match step
    case CommitWrite(w) =>
      if Commits(st.db, w) {
        CommitAppends(st.db, w);
        CommitMessages(st, StoreNext(st, step));
      }
    case BeginBroadcast(m) => BeginMessages(st, m);
    case _ => SameMessages(st, StoreNext(st, step));
  }

  // ---------------------------------------------------------------------------------------------
  // Accounting for every watcher's stream
  // ---------------------------------------------------------------------------------------------

  function Matching(ms: seq<Msg>, ns: string): seq<Msg> {
    if ms == [] then []
    else
      var m := ms[|ms| - 1];
      Matching(ms[..|ms| - 1], ns) + if m.event.namespace == ns then [m] else []
  }

  /** How many broadcasts a registered watcher has been offered: all, but for the one under way
    * when its turn is still to come. */
  function Heard(st: Store, id: nat): nat
    requires st.sending.Some? ==> st.broadcasts != []
  {
    if st.sending.Some? && IndexOf(st.watchers, id) >= st.sending.value.next then |st.broadcasts| - 1
    else |st.broadcasts|
  }

  /** How many of the broadcasts it has been offered, from the first one ever on. */
  function Served(st: Store, id: nat): nat
    requires id in st.chans && (st.sending.Some? ==> st.broadcasts != [])
  {
    if st.chans[id].open then Heard(st, id) else st.chans[id].until
  }

  ghost predicate ChanInv(st: Store, id: nat)
    requires id in st.chans && (st.sending.Some? ==> st.broadcasts != [])
  {
    var ch := st.chans[id];
    var upto := Served(st, id);
    && ch.since <= upto <= |st.broadcasts|
    && ch.offered == Matching(st.broadcasts[ch.since..upto], ch.ns)
    && |ch.received| + |ch.buf| + ch.dropped == |ch.offered|
    && |ch.buf| <= MemStore.WATCH_BUFFER
    && Subsequence(ch.Stream(), ch.offered)
  }

  ghost predicate AccountInv(st: Store) {
    && (st.sending.Some? ==> st.broadcasts != [])
    && forall id {:trigger ChanInv(st, id)} :: id in st.chans ==> ChanInv(st, id)
  }

  lemma SentAccounts(st: Store, id: nat)
    requires st.sending.Some? && st.broadcasts != [] && st.sending.value.next < |st.watchers|
    requires st.broadcasts[|st.broadcasts| - 1] == st.sending.value.msg
    requires id in st.chans && st.chans[id].open && ChanInv(st, id)
    requires IndexOf(st.watchers, id) == st.sending.value.next
    ensures StoreEnabled(st, SendNext) && ChanInv(StoreNext(st, SendNext), id)
  {
    var ch, m, b := st.chans[id], st.sending.value.msg, st.broadcasts;
    var post := StoreNext(st, SendNext);
    assert b[ch.since..][..|b| - 1 - ch.since] == b[ch.since..|b| - 1];
    assert b[ch.since..|b|] == b[ch.since..];
    if ch.ns == m.event.namespace {
      SubsequenceGrows(ch.Stream(), ch.offered, m);
      assert post.chans[id].Stream() == if |ch.buf| < MemStore.WATCH_BUFFER then ch.Stream() + [m] else ch.Stream();
    }
  }

  lemma IndexOfDistinct(watchers: seq<Watcher>, i: nat)
    requires DistinctIds(watchers) && i < |watchers|
    ensures IndexOf(watchers, watchers[i].id) == i
  {
  }

  lemma AccountStep(st: Store, step: StoreStep)
    requires LifecycleInv(st) && MessagesInv(st) && AccountInv(st) && StoreEnabled(st, step)
    ensures AccountInv(StoreNext(st, step))
  {
    var post := StoreNext(st, step);
    forall id | id in post.chans
      ensures (post.sending.Some? ==> post.broadcasts != []) && ChanInv(post, id)
    {
      if id in st.chans {
        assert ChanInv(st, id);
        ChanStep(st, step, id);
      } else {
        assert post.broadcasts[|post.broadcasts|..] == [];
      }
    }
  }

  /** A step that touches neither the channel nor how far it has been served. */
  lemma SameChan(st: Store, post: Store, id: nat)
    requires id in st.chans && (st.sending.Some? ==> st.broadcasts != []) && ChanInv(st, id)
    requires id in post.chans && (post.sending.Some? ==> post.broadcasts != [])
    requires post.chans[id] == st.chans[id].(cancelled := post.chans[id].cancelled)
    requires st.broadcasts <= post.broadcasts
    requires st.chans[id].open ==> Heard(post, id) == Heard(st, id)
    ensures ChanInv(post, id)
  {
    var ch := st.chans[id];
    var upto := Served(st, id);
    assert post.broadcasts[ch.since..upto] == st.broadcasts[ch.since..upto];
  }

  lemma ReceivedAccounts(st: Store, id: nat)
    requires (st.sending.Some? ==> st.broadcasts != []) && StoreEnabled(st, ReceiveWatch(id)) && ChanInv(st, id)
    ensures ChanInv(StoreNext(st, ReceiveWatch(id)), id)
  {
    var post := StoreNext(st, ReceiveWatch(id));
    assert post.chans[id].Stream() == st.chans[id].Stream();
    assert Heard(post, id) == Heard(st, id);
  }

  lemma SendStep(st: Store, id: nat)
    requires LifecycleInv(st) && MessagesInv(st) && StoreEnabled(st, SendNext)
    requires id in st.chans && ChanInv(st, id)
    ensures ChanInv(StoreNext(st, SendNext), id)
  {
    var next := st.sending.value.next;
    IndexOfDistinct(st.watchers, next);
    if id == st.watchers[next].id {
      assert Registered(st.watchers, id);
      SentAccounts(st, id);
    } else {
      assert IndexOf(st.watchers, id) != next;
      SameChan(st, StoreNext(st, SendNext), id);
    }
  }

  lemma EndStep(st: Store, id: nat)
    requires LifecycleInv(st) && MessagesInv(st) && StoreEnabled(st, EndBroadcast)
    requires id in st.chans && ChanInv(st, id)
    ensures ChanInv(StoreNext(st, EndBroadcast), id)
  {
    if st.chans[id].open {
      var i :| 0 <= i < |st.watchers| && st.watchers[i].id == id;
      assert IndexOf(st.watchers, id) <= i;
    }
    SameChan(st, StoreNext(st, EndBroadcast), id);
  }

  lemma RemoveStep(st: Store, id: nat, removed: nat)
    requires LifecycleInv(st) && StoreEnabled(st, RemoveWatch(removed))
    requires id in st.chans && ChanInv(st, id)
    ensures ChanInv(StoreNext(st, RemoveWatch(removed)), id)
  {
    if id != removed {
      SameChan(st, StoreNext(st, RemoveWatch(removed)), id);
    } else {
      assert Registered(st.watchers, id);
    }
  }

  lemma ChanStep(st: Store, step: StoreStep, id: nat)
    requires LifecycleInv(st) && MessagesInv(st) && StoreEnabled(st, step)
    requires id in st.chans && ChanInv(st, id)
    ensures StoreNext(st, step).sending.Some? ==> StoreNext(st, step).broadcasts != []
    ensures id in StoreNext(st, step).chans && ChanInv(StoreNext(st, step), id)
  {
    match step
    case SendNext => SendStep(st, id);
    case EndBroadcast => EndStep(st, id);
    case RemoveWatch(other) => RemoveStep(st, id, other);
    case ReceiveWatch(other) =>
      if id == other {
        ReceivedAccounts(st, id);
      } else {
        SameChan(st, StoreNext(st, step), id);
      }
    case _ => SameChan(st, StoreNext(st, step), id);
  }

  ghost predicate StoreInv(st: Store) {
    VersionsInv(st) && LifecycleInv(st) && MessagesInv(st) && AccountInv(st)
  }

  lemma StoreInvInitially()
    ensures StoreInv(INITIAL)
  {
  }

  lemma StoreInvStep(st: Store, step: StoreStep)
    requires StoreInv(st) && StoreEnabled(st, step)
    ensures StoreInv(StoreNext(st, step))
    ensures st.db.audit <= StoreNext(st, step).db.audit && st.versions <= StoreNext(st, step).versions
  {
    VersionsStep(st, step);
    LifecycleStep(st, step);
    MessagesStep(st, step);
    AccountStep(st, step);
  }

  // ---------------------------------------------------------------------------------------------
  // Runs
  // ---------------------------------------------------------------------------------------------

  /** The state after a sequence of steps from the empty store, None if one of them cannot be taken. */
  ghost function RunStore(steps: seq<StoreStep>): Option<Store> {
    if steps == [] then Some(INITIAL)
    else
      match RunStore(steps[..|steps| - 1])
      case None => None
      case Some(st) =>
        var last := steps[|steps| - 1];
        if StoreEnabled(st, last) then Some(StoreNext(st, last)) else None
  }

  lemma {:induction false} RunsKeepStoreInv(steps: seq<StoreStep>)
    requires RunStore(steps).Some?
    ensures StoreInv(RunStore(steps).value)
  {
    if steps == [] {
      StoreInvInitially();
    } else {
      RunsKeepStoreInv(steps[..|steps| - 1]);
      StoreInvStep(RunStore(steps[..|steps| - 1]).value, steps[|steps| - 1]);
    }
  }

  lemma {:induction false} MatchingIsSubsequence(ms: seq<Msg>, ns: string)
    ensures Subsequence(Matching(ms, ns), ms)
    ensures forall m :: m in Matching(ms, ns) ==> m.event.namespace == ns
  {
    if ms != [] {
      MatchingIsSubsequence(ms[..|ms| - 1], ns);
      var before := Matching(ms[..|ms| - 1], ns);
      if Matching(ms, ns) != before {
        assert Matching(ms, ns)[..|before|] == before;
      } else {
        assert Matching(ms, ns) == before;
      }
    }
  }

  lemma {:induction false} MatchingHas(ms: seq<Msg>, ns: string, m: Msg)
    ensures m in Matching(ms, ns) <==> m in ms && m.event.namespace == ns
  {
    if ms != [] {
      MatchingHas(ms[..|ms| - 1], ns, m);
      assert ms == ms[..|ms| - 1] + [ms[|ms| - 1]];
    }
  }

  /** In every run, for every watcher: what it received, what is buffered and what was dropped add up to
    * the broadcasts of its namespace from its registration on, up to its removal, or to now if it is
    * registered, not counting a broadcast under way that has not reached it; the stream is those
    * broadcasts with the dropped ones left out; every element of it reports a commit of its namespace,
    * and no commit is reported twice. */
  lemma StreamAccounting(steps: seq<StoreStep>, id: nat)
    requires RunStore(steps).Some? && id in RunStore(steps).value.chans
    ensures var st := RunStore(steps).value; st.sending.Some? ==> st.broadcasts != []
    ensures var st := RunStore(steps).value;
      var ch := st.chans[id];
      && ch.since <= Served(st, id) <= |st.broadcasts|
      && |ch.received| + |ch.buf| + ch.dropped == |Matching(st.broadcasts[ch.since..Served(st, id)], ch.ns)|
      && Subsequence(ch.Stream(), Matching(st.broadcasts[ch.since..Served(st, id)], ch.ns))
      && (forall m :: m in ch.Stream() ==> Genuine(st, m) && m.event.namespace == ch.ns)
      && (forall i, j :: 0 <= i < j < |ch.Stream()| ==> ch.Stream()[i].version != ch.Stream()[j].version)
  {
    RunsKeepStoreInv(steps);
    var st := RunStore(steps).value;
    StreamIsGenuine(st, id);
    assert ChanInv(st, id);
  }

  lemma StreamIsGenuine(st: Store, id: nat)
    requires MessagesInv(st) && AccountInv(st) && id in st.chans
    ensures forall m :: m in st.chans[id].Stream() ==> Genuine(st, m) && m.event.namespace == st.chans[id].ns
    ensures forall i, j :: 0 <= i < j < |st.chans[id].Stream()| ==>
      st.chans[id].Stream()[i].version != st.chans[id].Stream()[j].version
  {
    StreamIsBroadcast(st, id);
    var stream := st.chans[id].Stream();
    forall m | m in stream
      ensures Genuine(st, m)
    {
      var i :| 0 <= i < |st.broadcasts| && st.broadcasts[i] == m;
    }
    forall i, j | 0 <= i < j < |stream|
      ensures stream[i].version != stream[j].version
    {
      assert stream[i] in stream && stream[j] in stream;
    }
  }

  lemma StreamIsBroadcast(st: Store, id: nat)
    requires MessagesInv(st) && AccountInv(st) && id in st.chans
    ensures forall m :: m in st.chans[id].Stream() ==> m in st.broadcasts && m.event.namespace == st.chans[id].ns
    ensures Distinct(st.chans[id].Stream())
  {
    assert ChanInv(st, id);
    var ch := st.chans[id];
    var upto := Served(st, id);
    var heard := st.broadcasts[ch.since..upto];
    assert Distinct(heard);
    MatchingIsSubsequence(heard, ch.ns);
    SubsequenceKeepsMembers(Matching(heard, ch.ns), heard);
    SubsequenceKeepsDistinct(Matching(heard, ch.ns), heard);
    SubsequenceKeepsMembers(ch.Stream(), ch.offered);
    SubsequenceKeepsDistinct(ch.Stream(), ch.offered);
    assert forall m :: m in heard ==> m in st.broadcasts;
  }

  /** A broadcast only loses an event for a watcher whose buffer already holds 64. */
  lemma DropsNeedAFullBuffer(st: Store, id: nat)
    requires StoreInv(st) && StoreEnabled(st, SendNext) && id in st.chans
    requires StoreNext(st, SendNext).chans[id].dropped != st.chans[id].dropped
    ensures |st.chans[id].buf| == 64 && StoreNext(st, SendNext).chans[id].buf == st.chans[id].buf
    ensures StoreNext(st, SendNext).chans[id].dropped == st.chans[id].dropped + 1
  {
    assert ChanInv(st, id);
  }
}
