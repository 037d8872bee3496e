/** The in-memory store: maps and an audit trail under one lock, watcher channels under another.
  * CommitSet or CommitDelete, and then Broadcast, are the critical sections of Set and Delete; between
  * them another writer may run, which module StoreSteps models. */
module MemStore {
  import opened Wrappers
  import opened Sequences
  import opened StoreTypes
  import opened Channels
  import opened GoSlices
  import opened AuditedStore

  const WATCH_BUFFER: nat := 64

  datatype Watcher = Watcher(namespace: string, ch: Channel<ChangeEvent>)

  /** What a broadcast leaves in the buffer of a watcher of namespace `ns`. */
  function Delivered(buf: seq<ChangeEvent>, ns: string, event: ChangeEvent): seq<ChangeEvent> {
    if ns == event.namespace then Offer(buf, WATCH_BUFFER, event) else buf
  }

  lemma CutLeavesOtherChannels(ws: seq<Watcher>, k: nat)
    requires k < |ws| && forall i, j :: 0 <= i < j < |ws| ==> ws[i].ch != ws[j].ch
    ensures forall i, j :: 0 <= i < j < |CutAt(ws, k)| ==> CutAt(ws, k)[i].ch != CutAt(ws, k)[j].ch
    ensures forall w :: w in CutAt(ws, k) ==> w in ws && w.ch != ws[k].ch
  {
  }

  class MemStore {
    var data: Data
    var audit: seq<AuditEntry>
    var lastId: nat
    var watchers: GoSlice<Watcher>

    ghost function Contents(): Db
      reads this
    {
      Db(data, audit, lastId)
    }

    ghost function Watching(): seq<Watcher>
      reads this, watchers.arr
    {
      if watchers.Valid() then watchers.View() else []
    }

    ghost function Chans(): set<Channel<ChangeEvent>>
      reads this, watchers.arr
    {
      set w | w in Watching() :: w.ch
    }

    /** Registered channels are open and registered once. */
    ghost predicate WatchersValid()
      reads this, watchers.arr, Chans()
    {
      && watchers.Valid()
      && (forall w :: w in Watching() ==> !w.ch.closed && w.ch.capacity == WATCH_BUFFER)
      && (forall i, j :: 0 <= i < j < |Watching()| ==> Watching()[i].ch != Watching()[j].ch)
    }

    ghost predicate Valid()
      reads this, watchers.arr, Chans()
    {
      AuditRefines(Contents()) && WatchersValid()
    }

    constructor ()
      ensures Valid() && Contents() == EMPTY && Watching() == []
      ensures fresh(watchers.arr)
    {
      data, audit, lastId := map[], [], 0;
      var none := new Watcher[0];
      watchers := GoSlice(none, 0);
    }

    method Get(ns: string, key: string) returns (value: string, found: bool)
      ensures found == Stored(data, ns, key).Some?
      ensures value == ReadOrEmpty(data, ns, key)
    {
      if ns !in data {
        return "", false;
      }
      if key !in data[ns] {
        return "", false;
      }
      return data[ns][key].value, true;
    }

    /** The keys come in no particular order. */
    method List(ns: string) returns (out: Overrides)
      ensures out == ListOf(data, ns)
    {
      out := map[];
      if ns !in data {
        return;
      }
      var todo := data[ns].Keys;
      while todo != {}
        invariant todo <= data[ns].Keys
        invariant out == map k | k in data[ns] && k !in todo :: data[ns][k].value
      {
        var k :| k in todo;
        out := out[k := data[ns][k].value];
        todo := todo - {k};
      }
    }

    /** The part of Set that runs under the store's lock. */
    method CommitSet(entry: SetEntry, now: Time) returns (event: ChangeEvent)
      requires Valid()
      modifies this`data, this`audit, this`lastId
      ensures Valid() && Contents() == Commit(old(Contents()), SetKey(entry, now))
      ensures |audit| == |old(audit)| + 1 && event == EventOf(audit[|old(audit)|])
      ensures event == ChangeEvent(entry.namespace, entry.key, old(ReadOrEmpty(data, entry.namespace, entry.key)),
                                   entry.value, entry.changedBy, now)
    {
      ghost var after := Commit(Contents(), SetKey(entry, now));
      CommitPreservesAudit(Contents(), SetKey(entry, now));
      var ns := if entry.namespace in data then data[entry.namespace] else map[];
      var oldValue := "";
      if entry.key in ns {
        oldValue := ns[entry.key].value;
      }
      ns := ns[entry.key := StoreEntry(entry.value, entry.changedBy, now)];
      data := data[entry.namespace := ns];
      lastId := lastId + 1;
      audit := audit + [AuditEntry(lastId, entry.namespace, entry.key, oldValue, entry.value, entry.changedBy, now)];
      event := ChangeEvent(entry.namespace, entry.key, oldValue, entry.value, entry.changedBy, now);
      assert data == after.data && audit == after.audit;
    }

    /** The part of Delete that runs under the store's lock; None when there was nothing to delete. */
    method CommitDelete(ns: string, key: string, changedBy: string, now: Time) returns (event: Option<ChangeEvent>)
      requires Valid()
      modifies this`data, this`audit, this`lastId
      ensures Valid() && Contents() == Commit(old(Contents()), DeleteKey(ns, key, changedBy, now))
      ensures event.Some? == Commits(old(Contents()), DeleteKey(ns, key, changedBy, now))
      ensures event.Some? ==> |audit| == |old(audit)| + 1 && event.value == EventOf(audit[|old(audit)|])
      ensures event.Some? ==>
        event.value == ChangeEvent(ns, key, old(ReadOrEmpty(data, ns, key)), "", changedBy, now)
    {
      CommitPreservesAudit(Contents(), DeleteKey(ns, key, changedBy, now));
      if ns !in data {
        return None;
      }
      if key !in data[ns] {
        return None;
      }
      var oldValue := data[ns][key].value;
      data := data[ns := data[ns] - {key}];
      lastId := lastId + 1;
      audit := audit + [AuditEntry(lastId, ns, key, oldValue, "", changedBy, now)];
      event := Some(ChangeEvent(ns, key, oldValue, "", changedBy, now));
    }

    /** Offers the event to every watcher of its namespace; a full buffer loses it. */
    method Broadcast(event: ChangeEvent)
      requires Valid()
      modifies Chans()`buf
      ensures Valid() && Watching() == old(Watching())
      ensures forall w :: w in Watching() ==> w.ch.buf == Delivered(old(w.ch.buf), w.namespace, event)
    {
      ghost var ws := Watching();
      for i := 0 to watchers.len
        invariant forall k :: 0 <= k < i ==> ws[k].ch.buf == Delivered(old(ws[k].ch.buf), ws[k].namespace, event)
        invariant forall k :: i <= k < |ws| ==> ws[k].ch.buf == old(ws[k].ch.buf)
      {
        var w := watchers.arr[i];
        assert w == ws[i] && w in ws && w.ch in old(Chans());
        if w.namespace == event.namespace {
          var _ := w.ch.TrySend(event);
        }
      }
    }

    method Set(entry: SetEntry, now: Time)
      requires Valid()
      modifies this`data, this`audit, this`lastId, Chans()`buf
      ensures Valid() && Contents() == Commit(old(Contents()), SetKey(entry, now))
      ensures Watching() == old(Watching()) && |audit| == |old(audit)| + 1
      ensures audit == old(audit) + [AuditEntry(old(lastId) + 1, entry.namespace, entry.key,
                                                old(ReadOrEmpty(data, entry.namespace, entry.key)), entry.value,
                                                entry.changedBy, now)]
      ensures forall w :: w in Watching() ==>
        w.ch.buf == Delivered(old(w.ch.buf), w.namespace, EventOf(audit[|old(audit)|]))
    {
      SetIsRecorded(Contents(), entry, now, entry.namespace, entry.key);
      var event := CommitSet(entry, now);
      Broadcast(event);
    }

    method Delete(ns: string, key: string, changedBy: string, now: Time)
      requires Valid()
      modifies this`data, this`audit, this`lastId, Chans()`buf
      ensures Valid() && Contents() == Commit(old(Contents()), DeleteKey(ns, key, changedBy, now))
      ensures Watching() == old(Watching())
      ensures audit == old(audit) +
        if old(Stored(data, ns, key)).None? then []
        else [AuditEntry(old(lastId) + 1, ns, key, old(ReadOrEmpty(data, ns, key)), "", changedBy, now)]
      ensures |audit| == |old(audit)| ==> forall w :: w in Watching() ==> w.ch.buf == old(w.ch.buf)
      ensures |audit| != |old(audit)| ==> |audit| == |old(audit)| + 1 && forall w :: w in Watching() ==>
        w.ch.buf == Delivered(old(w.ch.buf), w.namespace, EventOf(audit[|old(audit)|]))
    {
      DeleteIsRecorded(Contents(), ns, key, changedBy, now, ns, key);
      var event := CommitDelete(ns, key, changedBy, now);
      if event.Some? {
        Broadcast(event.value);
      }
    }

    method Watch(ns: string) returns (ch: Channel<ChangeEvent>)
      requires Valid()
      modifies this`watchers, watchers.arr
      ensures Valid() && fresh(ch) && ch.buf == []
      ensures Watching() == old(Watching()) + [Watcher(ns, ch)]
      ensures watchers.arr == old(watchers.arr) || fresh(watchers.arr)
    {
      ch := new Channel(WATCH_BUFFER);
      watchers := Append(watchers, Watcher(ns, ch));
      assert Watching()[|old(Watching())|] == Watcher(ns, ch);
      assert forall w :: w in Watching() ==> w in old(Watching()) || w.ch == ch;
    }

    /** What the goroutine started by Watch does once its context is cancelled. */
    method Unwatch(ch: Channel<ChangeEvent>)
      requires Valid()
      modifies this`watchers, watchers.arr, ch`closed
      ensures Valid() && watchers.arr == old(watchers.arr)
      ensures ch !in old(Chans()) ==> Watching() == old(Watching()) && ch.closed == old(ch.closed)
      ensures ch in old(Chans()) ==> ch.closed && exists i ::
        0 <= i < |old(Watching())| && old(Watching())[i].ch == ch &&
        Watching() == CutAt(old(Watching()), i)
    {
      for i := 0 to watchers.len
        invariant forall k :: 0 <= k < i ==> Watching()[k].ch != ch
      {
        if watchers.arr[i].ch == ch {
          ghost var before := Watching();
          assert before[i].ch == ch;
          watchers := RemoveAt(watchers, i);
          CutLeavesOtherChannels(before, i);
          ch.Close();
          return;
        }
      }
      assert forall w :: w in Watching() ==> w.ch != ch;
    }

    method History(ns: string, key: string, opts: HistoryOptions) returns (page: seq<AuditEntry>)
      ensures page == Page(Newest(audit, ns, key), opts)
    {
      var matches: seq<AuditEntry> := [];
      var i := |audit|;
      assert audit[..i] == audit;
      while i > 0
        invariant 0 <= i <= |audit|
        invariant matches + Newest(audit[..i], ns, key) == Newest(audit, ns, key)
      {
        i := i - 1;
        OneOlder(audit, i, ns, key);
        ghost var older := Newest(audit[..i], ns, key);
        var r := audit[i];
        if r.namespace == ns && r.key == key {
          assert matches + ([r] + older) == (matches + [r]) + older;
          matches := matches + [r];
        } else {
          assert [] + older == older;
        }
      }
      var o := opts.Normalised();
      if o.offset >= |matches| {
        return [];
      }
      page := matches[o.offset..];
      if |page| > o.limit {
        page := page[..o.limit];
      }
    }
  }
}
