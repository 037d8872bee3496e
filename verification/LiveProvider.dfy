/** The Provider as the program has it: a published snapshot, counters, a trigger channel and the
  * subscribers' channels. Each method is what one goroutine does; module Reload interleaves them. */
module LiveProvider {
  import opened Wrappers
  import opened Sequences
  import opened StoreTypes
  import opened ConfigTypes
  import opened FieldValues
  import opened Catalog
  import opened CatalogProperties
  import opened OverrideApplication
  import opened Snapshots
  import opened GoSlices
  import opened Channels

  datatype Stats = Stats(lastRefresh: Option<Time>, refreshCount: nat, lastError: string)

  /** A snapshot that has been published at some time: where it lies and what it was made from. */
  datatype Shot = Shot(root: nat, job: Job)

  /** What the event loop finds ready in its select, with the result of the List call that follows
    * and its time. */
  datatype Input =
    | Cancelled
    | WatchClosed
    | Event(event: ChangeEvent, listed: Result<Overrides, string>, now: Time)
    | Tick(listed: Result<Overrides, string>, now: Time)
    | Trigger(listed: Result<Overrides, string>, now: Time)

  /** What the trigger channel carries. */
  datatype Token = Token

  class Provider {
    const t: GoType
    const base: Value
    const decoders: Decoders
    const catalog: seq<Descriptor>
    const byKey: map<string, nat>
    const bufSize: nat
    const mem: Memory
    const refreshTrigger: Channel<Token>

    var current: Option<nat>
    var subs: GoSlice<Channel<ChangeEvent>>
    var refreshCount: nat
    var lastRefresh: Option<Time>
    var lastErrText: Option<string>

    ghost var published: seq<Shot>

    ghost function Subscribed(): seq<Channel<ChangeEvent>>
      reads this, subs.arr
    {
      if subs.Valid() then subs.View() else []
    }

    ghost function Chans(): set<Channel<ChangeEvent>>
      reads this, subs.arr
    {
      set ch | ch in Subscribed()
    }

    function JobOn(overrides: Overrides): Job {
      Job(t, base, catalog, overrides, decoders)
    }

    ghost predicate ConfigValid() {
      Supported(t) && BaseFits(t, base) && catalog == Build(t).value && byKey == ByKey(catalog) && 0 < bufSize
    }

    /** Every snapshot ever published still reads as it did when it was installed; the current one
      * is the latest. */
    ghost predicate SnapshotsValid()
      reads this, mem
    {
      && (forall i :: 0 <= i < |published| ==> Published(mem.cells, published[i].root, published[i].job))
      && (current.Some? <==> published != [])
      && (current.Some? ==> current.value == published[|published| - 1].root)
    }

    ghost predicate SubsValid()
      reads this, subs.arr, Chans()
    {
      && subs.Valid()
      && (forall ch :: ch in Subscribed() ==> !ch.closed && ch.capacity == bufSize)
      && Distinct(Subscribed())
    }

    ghost predicate Valid()
      reads this, mem, subs.arr, Chans(), refreshTrigger
    {
      && ConfigValid() && SnapshotsValid() && SubsValid()
      && refreshTrigger.capacity == 1 && !refreshTrigger.closed && |refreshTrigger.buf| <= 1
    }

    constructor (t: GoType, base: Value, decoders: Decoders, catalog: seq<Descriptor>, byKey: map<string, nat>,
                 bufSize: nat)
      requires Supported(t) && BaseFits(t, base) && catalog == Build(t).value && byKey == ByKey(catalog) && 0 < bufSize
      ensures Valid() && fresh(mem) && fresh(refreshTrigger) && fresh(subs.arr)
      ensures current.None? && Figures() == Stats(None, 0, "") && Subscribed() == [] && refreshTrigger.buf == []
      ensures this.t == t && this.base == base && this.decoders == decoders && this.bufSize == bufSize
    {
      this.t, this.base, this.decoders := t, base, decoders;
      this.catalog, this.byKey, this.bufSize := catalog, byKey, bufSize;
      mem := new Memory();
      refreshTrigger := new Channel(1);
      var none := new Channel<ChangeEvent>[0];
      subs := GoSlice(none, 0);
      current, refreshCount, lastRefresh, lastErrText, published := None, 0, None, None, [];
    }

    /** What Stats reports. */
    function Figures(): Stats
      reads this
    {
      Stats(lastRefresh, refreshCount, if lastErrText.Some? then lastErrText.value else "")
    }

    /** Get: what the current snapshot reads as. */
    ghost function Got(): Snapshot
      requires current.Some?
      reads this, mem
    {
      View(mem.cells, current.value, t)
    }

    /** What one refresh does, given what List returned. A success publishes a new snapshot, which every
      * reader sees as the base with exactly these overrides; a failure touches no snapshot. */
    twostate predicate Refreshed(listed: Result<Overrides, string>, now: Time)
      reads this, mem
    {
      && Figures() == Counted(old(Figures()), listed, now)
      && match listed
         case Ok(overrides) =>
           && current.Some? && Got() == Rebuild(JobOn(overrides))
           && published == old(published) + [Shot(current.value, JobOn(overrides))]
           && old(mem.cells) <= mem.cells
         case Err(_) =>
           current == old(current) && published == old(published) && mem.cells == old(mem.cells)
    }

    method Refresh(listed: Result<Overrides, string>, now: Time) returns (err: Option<string>)
      requires Valid()
      modifies this`current, this`refreshCount, this`lastRefresh, this`lastErrText, this`published, mem
      ensures Valid() && Refreshed(listed, now)
      ensures err == if listed.Err? then Some(listed.error) else None
    {
      if listed.Err? {
        lastErrText := Some(listed.error);
        return Some(listed.error);
      }
      BuiltCatalogFits(t);
      var snapshot, rejected := ApplyOverrides(mem, t, base, listed.value, catalog, decoders);
      current := Some(snapshot);
      refreshCount := refreshCount + 1;
      lastRefresh := Some(now);
      lastErrText := Some("");
      published := published + [Shot(snapshot, JobOn(listed.value))];
      PublishedIsRebuilt(mem.cells, snapshot, JobOn(listed.value), mem.cells);
      err := None;
    }

    method ReadStats() returns (s: Stats)
      ensures s == Figures()
    {
      var lastErr := "";
      if lastErrText.Some? {
        lastErr := lastErrText.value;
      }
      s := Stats(lastRefresh, refreshCount, lastErr);
    }

    /** requestRefresh: at most one token waits. */
    method RequestRefresh()
      requires Valid()
      modifies refreshTrigger`buf
      ensures Valid() && |refreshTrigger.buf| == 1
    {
      var _ := refreshTrigger.TrySend(Token);
    }

    /** Offers the event to every subscriber; a full buffer loses it. */
    method NotifySubscribers(event: ChangeEvent)
      requires Valid()
      modifies Chans()`buf
      ensures Valid() && Subscribed() == old(Subscribed())
      ensures forall ch :: ch in Subscribed() ==> ch.buf == Offer(old(ch.buf), bufSize, event)
    {
      OfferAll(subs, bufSize, event);
    }

    /** Whether a change of the key is fanned out. */
    predicate Recreates(key: string) {
      RecreatesKey(catalog, byKey, key)
    }

    predicate Fans(input: Input) {
      input.Event? && input.listed.Ok? && Recreates(input.event.key)
    }

    /** What a subscriber's buffer holds after the first n inputs, when nobody drains it. */
    function Queued(buf: seq<ChangeEvent>, inputs: seq<Input>, n: nat): seq<ChangeEvent>
      requires n <= |inputs|
    {
      if n == 0 then buf
      else
        var before := Queued(buf, inputs, n - 1);
        if Fans(inputs[n - 1]) then Offer(before, bufSize, inputs[n - 1].event) else before
    }

    /** handleChangeEvent: refresh first, and fan out only after the new snapshot is installed, only if
      * the refresh succeeded, and only for keys of recreate-on-change fields. */
    method HandleChangeEvent(event: ChangeEvent, listed: Result<Overrides, string>, now: Time)
      requires Valid()
      modifies this`current, this`refreshCount, this`lastRefresh, this`lastErrText, this`published, mem, Chans()`buf
      ensures Valid() && Subscribed() == old(Subscribed()) && Refreshed(listed, now)
      ensures forall ch :: ch in Subscribed() ==>
        ch.buf == if listed.Ok? && Recreates(event.key) then Offer(old(ch.buf), bufSize, event) else old(ch.buf)
    {
      ByKeyFinds(catalog);
      var err := Refresh(listed, now);
      if err.Some? {
        return;
      }
      if event.key in byKey && catalog[byKey[event.key]].strategy == Recreate {
        NotifySubscribers(event);
      }
    }

    /** The select loop on what it finds ready, until it is told to stop or the watch channel closes.
      * It stops at the first such input; before that every input leads to one refresh, and what is
      * fanned out is exactly the recreate-on-change events whose refresh succeeded. */
    method EventLoop(inputs: seq<Input>)
      requires Valid()
      modifies this`current, this`refreshCount, this`lastRefresh, this`lastErrText, this`published, mem, Chans()`buf
      ensures Valid() && old(published) <= published && Subscribed() == old(Subscribed())
      ensures Figures() == FiguresAfter(old(Figures()), inputs, Consumed(inputs))
      ensures match LastListing(inputs, Consumed(inputs))
        case Some(overrides) => current.Some? && Got() == Rebuild(JobOn(overrides))
        case None => current == old(current)
      ensures forall ch :: ch in Subscribed() ==> ch.buf == Queued(old(ch.buf), inputs, Consumed(inputs))
    {
      for i := 0 to |inputs|
        invariant i <= Consumed(inputs)
        invariant Valid() && old(published) <= published
        invariant Subscribed() == old(Subscribed()) && Chans() == old(Chans())
        invariant Figures() == FiguresAfter(old(Figures()), inputs, i)
        invariant match LastListing(inputs, i)
          case Some(overrides) => current.Some? && Got() == Rebuild(JobOn(overrides))
          case None => current == old(current)
        invariant forall ch :: ch in Subscribed() ==> ch.buf == Queued(old(ch.buf), inputs, i)
      {
        if inputs[i].Cancelled? || inputs[i].WatchClosed? {
          break;
        }
        ghost var shots := published;
        Handle(inputs[i]);
        PrefixGrows(old(published), shots, published);
      }
    }

    /** One round of the loop: one refresh. Only a change event is ever fanned out. */
    method Handle(input: Input)
      requires Valid() && !input.Cancelled? && !input.WatchClosed?
      modifies this`current, this`refreshCount, this`lastRefresh, this`lastErrText, this`published, mem, Chans()`buf
      ensures Valid() && Subscribed() == old(Subscribed()) && Refreshed(input.listed, input.now)
      ensures forall ch :: ch in Subscribed() ==>
        ch.buf == if Fans(input) then Offer(old(ch.buf), bufSize, input.event) else old(ch.buf)
    {
      match input
      case Event(event, listed, now) => HandleChangeEvent(event, listed, now);
      case Tick(listed, now) => var _ := Refresh(listed, now);
      case Trigger(listed, now) => var _ := Refresh(listed, now);
    }

    method Subscribe() returns (ch: Channel<ChangeEvent>)
      requires Valid()
      modifies this`subs, subs.arr
      ensures Valid() && fresh(ch) && ch.buf == []
      ensures Subscribed() == old(Subscribed()) + [ch]
      ensures subs.arr == old(subs.arr) || fresh(subs.arr)
    {
      ch := new Channel(bufSize);
      ghost var before := Subscribed();
      assert ch !in before;
      subs := Append(subs, ch);
      AddKeepsDistinct(before, ch);
    }

    /** What the goroutine started by Subscribe does once its context is cancelled. A channel that
      * Close has already closed is not in the list any more and is left alone. */
    method Unsubscribe(ch: Channel<ChangeEvent>)
      requires Valid()
      modifies this`subs, subs.arr, ch`closed
      ensures Valid() && subs.arr == old(subs.arr)
      ensures ch !in old(Chans()) ==> Subscribed() == old(Subscribed()) && ch.closed == old(ch.closed)
      ensures ch in old(Chans()) ==> ch.closed && exists i ::
        0 <= i < |old(Subscribed())| && old(Subscribed())[i] == ch &&
        Subscribed() == CutAt(old(Subscribed()), i)
    {
      for i := 0 to subs.len
        invariant forall k :: 0 <= k < i ==> Subscribed()[k] != ch
      {
        if subs.arr[i] == ch {
          ghost var before := Subscribed();
          assert before[i] == ch;
          subs := RemoveAt(subs, i);
          CutLeavesOthers(before, i);
          ch.Close();
          return;
        }
      }
    }

    /** The part of Close that follows the event loop's exit: every registered channel is closed, once. */
    method CloseSubscribers()
      requires Valid()
      modifies this`subs, Chans()`closed
      ensures Valid() && Subscribed() == []
      ensures forall ch :: ch in old(Chans()) ==> ch.closed
    {
      CloseAll(subs);
      var none := new Channel<ChangeEvent>[0];
      subs := GoSlice(none, 0);
    }
  }

  /** How many inputs the loop takes before it stops. */
  function Consumed(inputs: seq<Input>): (n: nat)
    ensures n <= |inputs|
    ensures forall i :: 0 <= i < n ==> !inputs[i].Cancelled? && !inputs[i].WatchClosed?
    ensures n < |inputs| ==> inputs[n].Cancelled? || inputs[n].WatchClosed?
  {
    if inputs == [] || inputs[0].Cancelled? || inputs[0].WatchClosed? then 0 else 1 + Consumed(inputs[1..])
  }

  /** What Stats reports after one more List call. */
  function Counted(s: Stats, listed: Result<Overrides, string>, now: Time): Stats {
    match listed
    case Ok(_) => Stats(Some(now), s.refreshCount + 1, "")
    case Err(text) => s.(lastError := text)
  }

  function FiguresAfter(s: Stats, inputs: seq<Input>, n: nat): Stats
    requires n <= Consumed(inputs)
  {
    if n == 0 then s else Counted(FiguresAfter(s, inputs, n - 1), inputs[n - 1].listed, inputs[n - 1].now)
  }

  /** The last successful listing among the first n inputs. */
  function LastListing(inputs: seq<Input>, n: nat): Option<Overrides>
    requires n <= Consumed(inputs)
  {
    if n == 0 then None
    else if inputs[n - 1].listed.Ok? then Some(inputs[n - 1].listed.value)
    else LastListing(inputs, n - 1)
  }

  datatype NewError = BadCatalog(error: CatalogError) | InitialRefresh(text: string)

  /** New up to the start of the event loop, given what its List call returned. */
  method New(t: GoType, base: Value, decoders: Decoders, bufSize: int, listed: Result<Overrides, string>, now: Time)
    returns (r: Result<Provider, NewError>)
    requires t.TStruct? ==> BaseFits(t, base)
    requires NoPointerLeaves(t)
    ensures match Build(t)
      case Err(e) => r == Err(BadCatalog(e))
      case Ok(_) =>
        match listed
        case Err(text) => r == Err(InitialRefresh(text))
        case Ok(overrides) =>
          && r.Ok? && r.value.Valid() && fresh(r.value)
          && r.value.t == t && r.value.base == base && r.value.decoders == decoders
          && r.value.bufSize == (if bufSize <= 0 then 16 else bufSize)
          && r.value.Figures() == Stats(Some(now), 1, "") && r.value.Subscribed() == []
          && r.value.refreshTrigger.buf == []
          && r.value.current.Some? && r.value.Got() == Rebuild(r.value.JobOn(overrides))
  {
    var raw := BuildCatalog(t);
    if raw.Err? {
      return Err(BadCatalog(raw.error));
    }
    var catalog := FreezeCatalog(raw.value, Build(t).value);
    var byKey := IndexByKey(catalog);
    var p := new Provider(t, base, decoders, catalog, byKey, if bufSize <= 0 then 16 else bufSize);
    var err := p.Refresh(listed, now);
    if err.Some? {
      return Err(InitialRefresh(err.value));
    }
    r := Ok(p);
  }

  /** The catalog as values. No index path is written to once the catalog is built. */
  method FreezeCatalog(raw: seq<RawDescriptor>, ghost ds: seq<Descriptor>) returns (catalog: seq<Descriptor>)
    requires Shows(raw, ds)
    ensures catalog == ds
  {
    catalog := [];
    for i := 0 to |raw|
      invariant catalog == ds[..i]
    {
      var d := raw[i];
      catalog := catalog + [FieldDescriptor(d.key, d.description, d.strategy, d.fieldIndices.arr[..d.fieldIndices.len],
                                            d.fieldType)];
    }
  }
}
