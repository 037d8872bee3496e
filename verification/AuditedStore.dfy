/** The contents of a store and its audit trail as values, and what a committed write does to them. */
module AuditedStore {
  import opened Wrappers
  import opened StoreTypes

  datatype StoreEntry = StoreEntry(value: string, changedBy: string, updatedAt: Time)

  /** namespace -> key -> entry */
  type Data = map<string, map<string, StoreEntry>>

  datatype Db = Db(data: Data, audit: seq<AuditEntry>, lastId: nat)

  const EMPTY: Db := Db(map[], [], 0)

  function Stored(data: Data, ns: string, key: string): Option<string> {
    if ns in data && key in data[ns] then Some(data[ns][key].value) else None
  }

  /** The stored value, with an absent key read as "". */
  function ReadOrEmpty(data: Data, ns: string, key: string): string {
    match Stored(data, ns, key)
    case Some(v) => v
    case None => ""
  }

  function ListOf(data: Data, ns: string): Overrides {
    if ns in data then map k | k in data[ns] :: data[ns][k].value else map[]
  }

  /** A call that changes the store. */
  datatype Write =
    | SetKey(entry: SetEntry, at: Time)
    | DeleteKey(namespace: string, key: string, changedBy: string, at: Time)
  {
    function Ns(): string {
      if SetKey? then entry.namespace else namespace
    }

    function Key(): string {
      if SetKey? then entry.key else key
    }

    function NewValue(): string {
      if SetKey? then entry.value else ""
    }

    function Author(): string {
      if SetKey? then entry.changedBy else changedBy
    }
  }

  /** Deleting an absent key is a no-op; every other write commits and is audited. */
  predicate Commits(db: Db, w: Write) {
    w.SetKey? || Stored(db.data, w.Ns(), w.Key()).Some?
  }

  function NamespaceOf(data: Data, ns: string): map<string, StoreEntry> {
    if ns in data then data[ns] else map[]
  }

  /** The state after one write, the critical section under the store's lock. */
  function Commit(db: Db, w: Write): Db {
    if !Commits(db, w) then db else
    var entries := NamespaceOf(db.data, w.Ns());
    var updated := match w
      case SetKey(e, at) => entries[e.key := StoreEntry(e.value, e.changedBy, at)]
      case DeleteKey(_, k, _, _) => entries - {k};
    var record := AuditEntry(db.lastId + 1, w.Ns(), w.Key(),
                             ReadOrEmpty(db.data, w.Ns(), w.Key()), w.NewValue(), w.Author(), w.at);
    Db(db.data[w.Ns() := updated], db.audit + [record], db.lastId + 1)
  }

  /** The event broadcast for a committed write. */
  function EventOf(a: AuditEntry): ChangeEvent {
    ChangeEvent(a.namespace, a.key, a.oldValue, a.newValue, a.changedBy, a.changedAt)
  }

  function CommitAll(db: Db, ws: seq<Write>): Db {
    if ws == [] then db else Commit(CommitAll(db, ws[..|ws| - 1]), ws[|ws| - 1])
  }

  // ---------------------------------------------------------------------------------------------
  // The audit trail refines the stored state
  // ---------------------------------------------------------------------------------------------

  /** The newest value the trail records for a key, "" when it records none. */
  function LastRecorded(audit: seq<AuditEntry>, ns: string, key: string): string {
    if audit == [] then ""
    else
      var a := audit[|audit| - 1];
      if a.namespace == ns && a.key == key then a.newValue else LastRecorded(audit[..|audit| - 1], ns, key)
  }

  /** Ids count up from 1, each old value is what the trail said just before, and what
    * the trail says last is what is stored. */
  ghost predicate AuditRefines(db: Db) {
    && db.lastId == |db.audit|
    && (forall i :: 0 <= i < |db.audit| ==>
          && db.audit[i].id == i + 1
          && db.audit[i].oldValue == LastRecorded(db.audit[..i], db.audit[i].namespace, db.audit[i].key))
    && (forall ns, key :: ReadOrEmpty(db.data, ns, key) == LastRecorded(db.audit, ns, key))
  }

  lemma CommitAppends(db: Db, w: Write)
    requires Commits(db, w)
    ensures |Commit(db, w).audit| == |db.audit| + 1 && Commit(db, w).audit[..|db.audit|] == db.audit
  {
  }

  lemma CommitWrites(db: Db, w: Write, ns: string, key: string)
    requires Commits(db, w)
    ensures ReadOrEmpty(Commit(db, w).data, ns, key)
         == if ns == w.Ns() && key == w.Key() then w.NewValue() else ReadOrEmpty(db.data, ns, key)
  {
  }

  /** The data after a write that `record` reports. */
  ghost predicate Reports(record: AuditEntry, pre: Data, post: Data) {
    && record.oldValue == ReadOrEmpty(pre, record.namespace, record.key)
    && forall ns, key :: ReadOrEmpty(post, ns, key)
         == (if IsFor(record, ns, key) then record.newValue else ReadOrEmpty(pre, ns, key))
  }

  lemma LastAfter(audit: seq<AuditEntry>, a: AuditEntry, ns: string, key: string)
    ensures LastRecorded(audit + [a], ns, key) == if IsFor(a, ns, key) then a.newValue else LastRecorded(audit, ns, key)
  {
    assert (audit + [a])[..|audit|] == audit;
  }

  lemma AuditGrows(db: Db, post: Db, record: AuditEntry)
    requires AuditRefines(db) && post.audit == db.audit + [record]
    requires post.lastId == record.id == db.lastId + 1
    requires Reports(record, db.data, post.data)
    ensures AuditRefines(post)
  {
    forall i | 0 <= i <= |db.audit|
      ensures post.audit[..i] == db.audit[..i]
    {
    }
    assert db.audit[..|db.audit|] == db.audit;
    forall ns, key
      ensures ReadOrEmpty(post.data, ns, key) == LastRecorded(post.audit, ns, key)
    {
      LastAfter(db.audit, record, ns, key);
    }
  }

  lemma CommitPreservesAudit(db: Db, w: Write)
    requires AuditRefines(db)
    ensures AuditRefines(Commit(db, w))
    ensures db.audit <= Commit(db, w).audit
    ensures |Commit(db, w).audit| == |db.audit| + (if Commits(db, w) then 1 else 0)
  {
    if Commits(db, w) {
      var post := Commit(db, w);
      CommitAppends(db, w);
      forall ns, key {
        CommitWrites(db, w, ns, key);
      }
      assert Reports(post.audit[|db.audit|], db.data, post.data);
      AuditGrows(db, post, post.audit[|db.audit|]);
    }
  }

  /** After any sequence of writes to an empty store: the ids are 1..n in order, no earlier
    * record has changed, every old value is the one recorded before it, and the latest
    * recorded value of every key is the stored one. */
  lemma {:induction false} AuditLogRefinesState(ws: seq<Write>, k: nat)
    requires k <= |ws|
    ensures AuditRefines(CommitAll(EMPTY, ws))
    ensures CommitAll(EMPTY, ws[..k]).audit <= CommitAll(EMPTY, ws).audit
  {
    if k == |ws| {
      assert ws[..k] == ws;
      if ws != [] {
        AuditLogRefinesState(ws[..k - 1], k - 1);
        CommitPreservesAudit(CommitAll(EMPTY, ws[..k - 1]), ws[k - 1]);
      }
    } else {
      var init := ws[..|ws| - 1];
      AuditLogRefinesState(init, k);
      assert init[..k] == ws[..k];
      CommitPreservesAudit(CommitAll(EMPTY, init), ws[|ws| - 1]);
    }
  }

  /** What a write leaves in the store: the written key reads as the value written (as absent
    * after a delete), and every other key of every namespace reads as before. */
  lemma WriteReadsBack(db: Db, w: Write, ns: string, key: string)
    ensures Stored(Commit(db, w).data, ns, key)
         == if (ns, key) != (w.Ns(), w.Key()) then Stored(db.data, ns, key)
            else if w.SetKey? then Some(w.entry.value) else None
  {
  }

  /** Setting a key adds one record, under the next id, with the entry's own namespace, key, value and
    * author, the value the key had before ("" if absent) and the time of the write; the stored entry and
    * the event say the same; nothing else changes. */
  lemma SetIsRecorded(db: Db, e: SetEntry, at: Time, ns: string, key: string)
    ensures var post, before := Commit(db, SetKey(e, at)), ReadOrEmpty(db.data, e.namespace, e.key);
      && post.audit == db.audit + [AuditEntry(db.lastId + 1, e.namespace, e.key, before, e.value, e.changedBy, at)]
      && EventOf(post.audit[|db.audit|]) == ChangeEvent(e.namespace, e.key, before, e.value, e.changedBy, at)
      && post.lastId == db.lastId + 1
      && e.namespace in post.data && e.key in post.data[e.namespace]
      && post.data[e.namespace][e.key] == StoreEntry(e.value, e.changedBy, at)
      && Stored(post.data, ns, key)
         == if ns == e.namespace && key == e.key then Some(e.value) else Stored(db.data, ns, key)
  {
  }

  /** Deleting a key that is there adds one record that names the namespace, the key, the value it had, who
    * deleted it and when, and the event says the same; the key is gone and nothing else changes. Deleting a
    * key that is not there does nothing. */
  lemma DeleteIsRecorded(db: Db, namespace: string, deleted: string, author: string, at: Time, ns: string, key: string)
    ensures
      var post, before := Commit(db, DeleteKey(namespace, deleted, author, at)), Stored(db.data, namespace, deleted);
      if before.None? then post == db
      else
        && post.audit == db.audit + [AuditEntry(db.lastId + 1, namespace, deleted, before.value, "", author, at)]
        && EventOf(post.audit[|db.audit|]) == ChangeEvent(namespace, deleted, before.value, "", author, at)
        && post.lastId == db.lastId + 1
        && Stored(post.data, ns, key)
           == if ns == namespace && key == deleted then None else Stored(db.data, ns, key)
  {
  }

  /** List and Get agree: a listing has exactly the stored keys with their stored values. */
  lemma ListAgreesWithStored(data: Data, ns: string, key: string)
    ensures key in ListOf(data, ns) <==> Stored(data, ns, key).Some?
    ensures key in ListOf(data, ns) ==> Stored(data, ns, key) == Some(ListOf(data, ns)[key])
  {
  }

  /** A write in one namespace leaves the listing of every other namespace alone. */
  lemma OtherNamespacesKeepTheirListing(db: Db, w: Write, ns: string)
    requires ns != w.Ns() || !Commits(db, w)
    ensures ListOf(Commit(db, w).data, ns) == ListOf(db.data, ns)
  {
  }

  // ---------------------------------------------------------------------------------------------
  // History
  // ---------------------------------------------------------------------------------------------

  predicate IsFor(a: AuditEntry, ns: string, key: string) {
    a.namespace == ns && a.key == key
  }

  /** The records of one key, newest first. */
  function Newest(audit: seq<AuditEntry>, ns: string, key: string): seq<AuditEntry> {
    if audit == [] then []
    else
      var a := audit[|audit| - 1];
      (if IsFor(a, ns, key) then [a] else []) + Newest(audit[..|audit| - 1], ns, key)
  }

  lemma OneOlder(audit: seq<AuditEntry>, i: nat, ns: string, key: string)
    requires i < |audit|
    ensures Newest(audit[..i + 1], ns, key)
         == (if IsFor(audit[i], ns, key) then [audit[i]] else []) + Newest(audit[..i], ns, key)
  {
    assert audit[..i + 1][..i] == audit[..i];
  }

  function Page(all: seq<AuditEntry>, opts: HistoryOptions): seq<AuditEntry> {
    var o := opts.Normalised();
    if o.offset >= |all| then []
    else if |all| - o.offset > o.limit then all[o.offset..o.offset + o.limit]
    else all[o.offset..]
  }

  /** The history has every record of the key and no other, each once, with strictly falling ids. */
  lemma {:induction false} HistoryIsExact(audit: seq<AuditEntry>, ns: string, key: string)
    requires forall i :: 0 <= i < |audit| ==> audit[i].id == i + 1
    ensures forall a :: a in Newest(audit, ns, key) <==> a in audit && IsFor(a, ns, key)
    ensures forall i, j :: 0 <= i < j < |Newest(audit, ns, key)|
              ==> Newest(audit, ns, key)[i].id > Newest(audit, ns, key)[j].id
  {
    if audit != [] {
      var n := |audit| - 1;
      var init, last := audit[..n], audit[n];
      HistoryIsExact(init, ns, key);
      var older := Newest(init, ns, key);
      forall a
        ensures a in audit <==> a in init || a == last
      {
        assert audit == init + [last];
      }
      forall i | 0 <= i < |older|
        ensures older[i].id < last.id
      {
        assert older[i] in init;
      }
    }
  }

  function Upto(all: seq<AuditEntry>, n: nat): seq<AuditEntry> {
    if n < |all| then all[..n] else all
  }

  /** The pages at offsets 0, L, 2L, ..., (n-1)L put together, L being the normalised limit. */
  function FirstPages(all: seq<AuditEntry>, limit: int, n: nat): seq<AuditEntry> {
    if n == 0 then []
    else FirstPages(all, limit, n - 1) + Page(all, HistoryOptions(limit, (n - 1) * PageSize(limit)))
  }

  function PageSize(limit: int): nat {
    HistoryOptions(limit, 0).Normalised().limit
  }

  /** A page is at most as many records as the limit says, 50 if it says none, from the offset on, from the
    * start if that is negative. */
  lemma PageIsSlice(all: seq<AuditEntry>, limit: int, offset: int, i: nat)
    ensures var from, most := if offset < 0 then 0 else offset, if limit <= 0 then 50 else limit;
      && |Page(all, HistoryOptions(limit, offset))|
         == (if |all| <= from then 0 else if |all| - from <= most then |all| - from else most)
      && (i < |Page(all, HistoryOptions(limit, offset))| ==>
            from + i < |all| && Page(all, HistoryOptions(limit, offset))[i] == all[from + i])
  {
  }

  lemma NextPage(all: seq<AuditEntry>, limit: int, offset: nat)
    ensures Upto(all, offset) + Page(all, HistoryOptions(limit, offset)) == Upto(all, offset + PageSize(limit))
  {
  }

  /** Pages tile: the first n pages are the first n * L records, so once they reach the end
    * they are the whole history, with no gap and no repeat. */
  lemma {:induction false} PagesTile(all: seq<AuditEntry>, limit: int, n: nat)
    ensures FirstPages(all, limit, n) == Upto(all, n * PageSize(limit))
  {
    if n > 0 {
      var offset := (n - 1) * PageSize(limit);
      assert n * PageSize(limit) == offset + PageSize(limit);
      PagesTile(all, limit, n - 1);
      NextPage(all, limit, offset);
    }
  }
}
