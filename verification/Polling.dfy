/** Turning successive listings of a store into change events. */
module Polling {
  import opened Wrappers
  import opened StoreTypes

  function ValueOrEmpty(m: Overrides, k: string): string {
    if k in m then m[k] else ""
  }

  /** Added, deleted or changed. */
  predicate Differs(prev: Overrides, curr: Overrides, k: string) {
    (k in prev) != (k in curr) || (k in prev && prev[k] != curr[k])
  }

  function EventFor(ns: string, prev: Overrides, curr: Overrides, k: string, now: Time): ChangeEvent {
    ChangeEvent(ns, k, ValueOrEmpty(prev, k), ValueOrEmpty(curr, k), "poll", now)
  }

  ghost predicate DistinctKeys(events: seq<ChangeEvent>) {
    forall i, j :: 0 <= i < j < |events| ==> events[i].key != events[j].key
  }

  ghost predicate Announced(events: seq<ChangeEvent>, k: string) {
    exists i :: 0 <= i < |events| && events[i].key == k
  }

  /** The events tell differences between two listings, each correctly and at most once. */
  ghost predicate Tells(events: seq<ChangeEvent>, ns: string, prev: Overrides, curr: Overrides, now: Time) {
    && DistinctKeys(events)
    && forall i :: 0 <= i < |events| ==>
         Differs(prev, curr, events[i].key) && events[i] == EventFor(ns, prev, curr, events[i].key, now)
  }

  /** They tell all of them. */
  ghost predicate TellsAll(events: seq<ChangeEvent>, ns: string, prev: Overrides, curr: Overrides, now: Time) {
    && Tells(events, ns, prev, curr, now)
    && forall k :: Differs(prev, curr, k) ==> Announced(events, k)
  }

  /** The keys that differ. */
  function Differing(prev: Overrides, curr: Overrides): set<string> {
    set k | k in prev.Keys + curr.Keys && Differs(prev, curr, k)
  }

  /** What the loop's select finds: cancellation, or a tick. For a tick, the result of its List call,
    * None being a failure, and how many events are sent before a send gives way to cancellation, None
    * if that does not happen. */
  datatype Round = Stop | Polled(listed: Option<Overrides>, now: Time, cancelAt: Option<nat>) {
    function Listing(): Option<Overrides> {
      if Stop? then None else listed
    }
  }

  /** The goroutine behind PollingWatcher.Watch. `sent` is everything it has put on its channel. */
  class PollLoop {
    const ns: string
    var prev: Overrides
    var seeded: bool
    var sent: seq<ChangeEvent>
    var closed: bool

    constructor (ns: string)
      ensures this.ns == ns && !seeded && sent == [] && !closed
    {
      this.ns := ns;
      prev := map[];
      seeded := false;
      sent := [];
      closed := false;
    }

    /** One tick. Keys are visited in any order. A send waits for the receiver or for cancellation, which
      * ends the loop: `alive` is false exactly if the round is cancelled before its last event. */
    method Tick(listed: Option<Overrides>, now: Time, cancelAt: Option<nat>)
      returns (alive: bool, ghost events: seq<ChangeEvent>)
      requires !closed
      modifies this`prev, this`seeded, this`sent
      ensures sent == old(sent) + events
      ensures forall i :: 0 <= i < |events| ==> events[i].changedAt == now
      ensures listed.None? ==> alive && events == [] && prev == old(prev) && seeded == old(seeded)
      ensures listed.Some? ==> seeded
      ensures listed.Some? && !old(seeded) ==> alive && events == [] && prev == listed.value
      ensures listed.Some? && old(seeded) ==>
        && alive == (cancelAt.None? || |Differing(old(prev), listed.value)| <= cancelAt.value)
        && if alive then prev == listed.value && TellsAll(events, ns, old(prev), listed.value, now)
           else prev == old(prev) && Tells(events, ns, old(prev), listed.value, now) && |events| == cancelAt.value
    {
      events := [];
      if listed.None? {
        return true, events;
      }
      var curr := listed.value;
      if !seeded {
        prev := curr;
        seeded := true;
        return true, events;
      }
      var count := 0;
      var todo := curr.Keys;
      while todo != {}
        invariant todo <= curr.Keys && prev == old(prev) && seeded
        invariant sent == old(sent) + events && Tells(events, ns, prev, curr, now)
        invariant count == |events| && (cancelAt.Some? ==> count <= cancelAt.value)
        invariant forall k :: Announced(events, k) ==> k in curr && k !in todo
        invariant forall k :: k in curr && k !in todo && Differs(prev, curr, k) ==> Announced(events, k)
      {
        var k :| k in todo;
        todo := todo - {k};
        if k !in prev || prev[k] != curr[k] {
          if cancelAt.Some? && cancelAt.value == count {
            OneMissing(events, ns, prev, curr, now, k);
            return false, events;
          }
          var e := ChangeEvent(ns, k, if k in prev then prev[k] else "", curr[k], "poll", now);
          sent := sent + [e];
          OneMore(events, ns, prev, curr, now, k);
          events, count := events + [e], count + 1;
        }
      }
      todo := prev.Keys;
      while todo != {}
        invariant todo <= prev.Keys && prev == old(prev) && seeded
        invariant sent == old(sent) + events && Tells(events, ns, prev, curr, now)
        invariant count == |events| && (cancelAt.Some? ==> count <= cancelAt.value)
        invariant forall k :: Announced(events, k) ==> k in curr || k !in todo
        invariant forall k :: Differs(prev, curr, k) && !(k in todo && k !in curr) ==> Announced(events, k)
      {
        var k :| k in todo;
        todo := todo - {k};
        if k !in curr {
          if cancelAt.Some? && cancelAt.value == count {
            OneMissing(events, ns, prev, curr, now, k);
            return false, events;
          }
          var e := ChangeEvent(ns, k, prev[k], "", "poll", now);
          sent := sent + [e];
          OneMore(events, ns, prev, curr, now, k);
          events, count := events + [e], count + 1;
        }
      }
      NoneMissing(events, ns, prev, curr, now);
      prev := curr;
      alive := true;
    }

    /** The loop, until it is cancelled. It completes every round before the one in which it is. Replaying
      * what the completed rounds sent onto the silent seed follows the store, and what the interrupted
      * one sent are true differences, as many as its receiver took. The channel is closed at the end. */
    method Run(rounds: seq<Round>) returns (completed: nat, ghost settled: nat)
      requires !seeded && sent == [] && !closed
      modifies this
      ensures completed <= |rounds| && settled <= |sent|
      ensures forall i :: 0 <= i < completed ==> !Interrupts(rounds, i)
      ensures completed < |rounds| ==> Interrupts(rounds, completed)
      ensures closed <==> completed < |rounds|
      ensures Seed(rounds[..completed]).None? ==> settled == 0
      ensures Seed(rounds[..completed]).Some? ==>
        && Latest(rounds[..completed]).Some?
        && Follows(Seed(rounds[..completed]).value, sent[..settled], Latest(rounds[..completed]).value)
      ensures if Seed(rounds[..completed]).Some? then FitsReceiver(ns, Seed(rounds[..completed]).value, sent)
              else sent == []
      ensures completed < |rounds| && rounds[completed].Polled? ==>
        var r := rounds[completed];
        && |sent| == settled + r.cancelAt.value
        && Tells(sent[settled..], ns, Latest(rounds[..completed]).value, r.listed.value, r.now)
      ensures !(completed < |rounds| && rounds[completed].Polled?) ==> settled == |sent|
    {
      completed, settled := 0, 0;
      assert rounds[..0] == [];
      while completed < |rounds|
        invariant completed <= |rounds| && settled == |sent| && !closed
        invariant forall i :: 0 <= i < completed ==> !Interrupts(rounds, i)
        invariant seeded == Seed(rounds[..completed]).Some?
        invariant !seeded ==> sent == [] && Latest(rounds[..completed]).None?
        invariant seeded ==> Latest(rounds[..completed]) == Some(prev)
        invariant seeded ==> Follows(Seed(rounds[..completed]).value, sent, prev)
        invariant seeded ==> FitsReceiver(ns, Seed(rounds[..completed]).value, sent)
      {
        var r := rounds[completed];
        if r.Stop? {
          closed := true;
          assert sent[..settled] == sent;
          return;
        }
        ghost var before, told := prev, sent;
        ghost var seed := Seed(rounds[..completed]);
        assert rounds[..completed + 1][..completed] == rounds[..completed];
        var alive, events := Tick(r.listed, r.now, r.cancelAt);
        if seed.Some? && r.listed.Some? {
          FitsReceiverOn(seed.value, told, before, events, ns, r.listed.value, r.now);
        }
        if !alive {
          closed := true;
          assert sent[..settled] == told && sent[settled..] == events;
          return;
        }
        if seed.Some? && r.listed.Some? {
          FollowsOn(seed.value, told, before, events, ns, prev, r.now);
          assert sent == told + events;
        } else if r.listed.Some? {
          FollowsNothing(prev);
        }
        assert r.listed.None? ==> sent == told;
        completed, settled := completed + 1, |sent|;
      }
      assert sent[..settled] == sent;
    }
  }

  function KeysOf(events: seq<ChangeEvent>): set<string> {
    if events == [] then {} else KeysOf(events[..|events| - 1]) + {events[|events| - 1].key}
  }

  lemma DistinctSnoc(events: seq<ChangeEvent>, e: ChangeEvent)
    ensures DistinctKeys(events + [e]) <==> DistinctKeys(events) && !Announced(events, e.key)
    ensures forall k :: Announced(events + [e], k) <==> Announced(events, k) || k == e.key
  {
    AnnouncedAlso(events, e);
    var after := events + [e];
    assert after[|events|] == e && forall i :: 0 <= i < |events| ==> after[i] == events[i];
  }

  /** Telling one more difference. */
  lemma OneMore(events: seq<ChangeEvent>, ns: string, prev: Overrides, curr: Overrides, now: Time, k: string)
    requires Tells(events, ns, prev, curr, now) && Differs(prev, curr, k) && !Announced(events, k)
    ensures Tells(events + [EventFor(ns, prev, curr, k, now)], ns, prev, curr, now)
    ensures forall x :: Announced(events + [EventFor(ns, prev, curr, k, now)], x) <==> Announced(events, x) || x == k
  {
    DistinctSnoc(events, EventFor(ns, prev, curr, k, now));
  }

  lemma {:induction false} KeysAreCounted(events: seq<ChangeEvent>)
    requires DistinctKeys(events)
    ensures |KeysOf(events)| == |events|
    ensures forall k :: k in KeysOf(events) <==> Announced(events, k)
  {
    if events != [] {
      var init, last := events[..|events| - 1], events[|events| - 1];
      assert events == init + [last];
      DistinctSnoc(init, last);
      KeysAreCounted(init);
    }
  }

  lemma NoneMissing(events: seq<ChangeEvent>, ns: string, prev: Overrides, curr: Overrides, now: Time)
    requires TellsAll(events, ns, prev, curr, now)
    ensures |events| == |Differing(prev, curr)|
  {
    KeysAreCounted(events);
    assert KeysOf(events) == Differing(prev, curr);
  }

  lemma OneMissing(events: seq<ChangeEvent>, ns: string, prev: Overrides, curr: Overrides, now: Time, k: string)
    requires Tells(events, ns, prev, curr, now) && Differs(prev, curr, k) && !Announced(events, k)
    ensures |events| < |Differing(prev, curr)|
  {
    KeysAreCounted(events);
    var told, all := KeysOf(events), Differing(prev, curr);
    assert told <= all && k in all && k !in told;
    assert all == told + {k} + (all - told - {k});
  }

  /** The loop ends in this round: its select sees the cancellation, or one of its sends does. */
  ghost predicate Interrupts(rounds: seq<Round>, i: nat)
    requires i < |rounds|
  {
    var r, latest := rounds[i], Latest(rounds[..i]);
    || r.Stop?
    || (r.listed.Some? && latest.Some? && r.cancelAt.Some? &&
        r.cancelAt.value < |Differing(latest.value, r.listed.value)|)
  }

  lemma AnnouncedAlso(events: seq<ChangeEvent>, e: ChangeEvent)
    ensures forall k :: Announced(events + [e], k) <==> Announced(events, k) || k == e.key
  {
    var after := events + [e];
    assert after[|events|] == e;
    forall k | Announced(events, k)
      ensures Announced(after, k)
    {
      var i :| 0 <= i < |events| && events[i].key == k;
      assert after[i].key == k;
    }
  }

  // ---------------------------------------------------------------------------------------------
  // Replaying
  // ---------------------------------------------------------------------------------------------

  /** The first successful listing. */
  function Seed(rounds: seq<Round>): Option<Overrides> {
    if rounds == [] then None
    else if Seed(rounds[..|rounds| - 1]).Some? then Seed(rounds[..|rounds| - 1])
    else rounds[|rounds| - 1].Listing()
  }

  /** The last successful listing. */
  function Latest(rounds: seq<Round>): Option<Overrides> {
    if rounds == [] then None
    else if rounds[|rounds| - 1].Listing().Some? then rounds[|rounds| - 1].Listing()
    else Latest(rounds[..|rounds| - 1])
  }

  /** What a receiver makes of an event: an empty new value reads as a deletion. */
  function Played(m: Overrides, e: ChangeEvent): Overrides {
    if e.newValue == "" then m - {e.key} else m[e.key := e.newValue]
  }

  function Replay(m: Overrides, events: seq<ChangeEvent>): Overrides {
    if events == [] then m else Played(Replay(m, events[..|events| - 1]), events[|events| - 1])
  }

  /** Replaying the events onto the seed gives the listing: every key reads the same, an absent one
    * as "", and the two maps are equal exactly if no key that is now stored empty was ever announced. */
  ghost predicate Follows(seed: Overrides, events: seq<ChangeEvent>, last: Overrides) {
    var m := Replay(seed, events);
    && (forall k :: ValueOrEmpty(m, k) == ValueOrEmpty(last, k))
    && (m == last <==> forall k :: k in last && last[k] == "" ==> !Announced(events, k))
    && Tracks(m, events, last)
  }

  /** Key by key: an announced key is in the replayed map if its value is not empty, any other key
    * if it is in the listing. */
  ghost predicate Tracks(m: Overrides, events: seq<ChangeEvent>, last: Overrides) {
    forall k ::
      && (k in m <==> k in last && (Announced(events, k) ==> last[k] != ""))
      && (k in m ==> m[k] == last[k])
  }

  lemma {:induction false} ReplayConcat(m: Overrides, a: seq<ChangeEvent>, b: seq<ChangeEvent>)
    ensures Replay(m, a + b) == Replay(Replay(m, a), b)
  {
    if b == [] {
      assert a + b == a;
    } else {
      assert (a + b)[..|a + b| - 1] == a + b[..|b| - 1];
      ReplayConcat(m, a, b[..|b| - 1]);
    }
  }

  lemma {:induction false} ReplayAt(m: Overrides, events: seq<ChangeEvent>, k: string)
    requires DistinctKeys(events)
    ensures !Announced(events, k) ==>
      (k in Replay(m, events) <==> k in m) && (k in m ==> Replay(m, events)[k] == m[k])
    ensures forall i :: 0 <= i < |events| && events[i].key == k ==>
      (k in Replay(m, events) <==> events[i].newValue != "") &&
      (events[i].newValue != "" ==> Replay(m, events)[k] == events[i].newValue)
  {
    if events != [] {
      var n := |events| - 1;
      var init := events[..n];
      assert events == init + [events[n]];
      AnnouncedAlso(init, events[n]);
      ReplayAt(m, init, k);
      forall i | 0 <= i < |events| && events[i].key == k
        ensures (k in Replay(m, events) <==> events[i].newValue != "") &&
                (events[i].newValue != "" ==> Replay(m, events)[k] == events[i].newValue)
      {
        if i < n {
          assert init[i] == events[i] && events[n].key != k;
        }
      }
    }
  }

  lemma AnnouncedConcat(a: seq<ChangeEvent>, b: seq<ChangeEvent>, k: string)
    ensures Announced(a + b, k) <==> Announced(a, k) || Announced(b, k)
  {
    if Announced(b, k) {
      var i :| 0 <= i < |b| && b[i].key == k;
      assert (a + b)[|a| + i].key == k;
    }
    if Announced(a, k) {
      var i :| 0 <= i < |a| && a[i].key == k;
      assert (a + b)[i].key == k;
    }
  }

  lemma TracksOn(m: Overrides, told: seq<ChangeEvent>, prev: Overrides, events: seq<ChangeEvent>, ns: string,
                 curr: Overrides, now: Time)
    requires Tracks(m, told, prev) && TellsAll(events, ns, prev, curr, now)
    ensures Tracks(Replay(m, events), told + events, curr)
  {
    var after := Replay(m, events);
    forall k
      ensures k in after <==> k in curr && (Announced(told + events, k) ==> curr[k] != "")
      ensures k in after ==> after[k] == curr[k]
    {
      ReplayAt(m, events, k);
      AnnouncedConcat(told, events, k);
      if Announced(events, k) {
        var i :| 0 <= i < |events| && events[i].key == k;
        assert events[i].newValue == ValueOrEmpty(curr, k);
      } else {
        assert !Differs(prev, curr, k);
      }
    }
  }

  lemma TracksFollows(seed: Overrides, events: seq<ChangeEvent>, last: Overrides)
    requires Tracks(Replay(seed, events), events, last)
    ensures Follows(seed, events, last)
  {
    var m := Replay(seed, events);
    if forall k :: k in last && last[k] == "" ==> !Announced(events, k) {
      assert forall k :: k in last ==> k in m;
      assert m.Keys == last.Keys;
    }
  }

  /** One more completed tick. */
  lemma FollowsOn(seed: Overrides, told: seq<ChangeEvent>, prev: Overrides, events: seq<ChangeEvent>, ns: string,
                  curr: Overrides, now: Time)
    requires Follows(seed, told, prev) && TellsAll(events, ns, prev, curr, now)
    ensures Follows(seed, told + events, curr)
  {
    ReplayConcat(seed, told, events);
    TracksOn(Replay(seed, told), told, prev, events, ns, curr, now);
    TracksFollows(seed, told + events, curr);
  }

  /** Each event is from the watched namespace, and its old value is what its receiver has for the key just
    * before it, "" if it has none. */
  ghost predicate FitsReceiver(ns: string, seed: Overrides, events: seq<ChangeEvent>) {
    forall i :: 0 <= i < |events| ==> FitsAfter(ns, events[i], Replay(seed, events[..i]))
  }

  predicate FitsAfter(ns: string, e: ChangeEvent, received: Overrides) {
    e.namespace == ns && e.changedBy == "poll" && e.oldValue == ValueOrEmpty(received, e.key)
  }

  /** One more tick, completed or not. */
  lemma FitsReceiverOn(seed: Overrides, told: seq<ChangeEvent>, prev: Overrides, events: seq<ChangeEvent>, ns: string,
                       curr: Overrides, now: Time)
    requires Follows(seed, told, prev) && FitsReceiver(ns, seed, told) && Tells(events, ns, prev, curr, now)
    ensures FitsReceiver(ns, seed, told + events)
  {
    var all := told + events;
    forall i | 0 <= i < |all|
      ensures FitsAfter(ns, all[i], Replay(seed, all[..i]))
    {
      if i < |told| {
        assert all[..i] == told[..i];
      } else {
        var k := i - |told|;
        assert all[..i] == told + events[..k] && all[i] == events[k];
        ReplayConcat(seed, told, events[..k]);
        NotYetAnnounced(events, k);
        ReplayAt(Replay(seed, told), events[..k], events[k].key);
      }
    }
  }

  lemma NotYetAnnounced(events: seq<ChangeEvent>, k: nat)
    requires DistinctKeys(events) && k < |events|
    ensures DistinctKeys(events[..k]) && !Announced(events[..k], events[k].key)
  {
  }

  lemma FollowsNothing(seed: Overrides)
    ensures Follows(seed, [], seed)
  {
    TracksFollows(seed, [], seed);
  }

  /** A key that appears with an empty value is announced like a deletion: whoever replays the event is
    * left without the key that the store has. */
  lemma EmptyValueReadsAsDeletion(ns: string, key: string, now: Time) returns (events: seq<ChangeEvent>)
    ensures TellsAll(events, ns, map[], map[key := ""], now) && Follows(map[], events, map[key := ""])
    ensures Replay(map[], events) == map[] != map[key := ""]
  {
    var e := EventFor(ns, map[], map[key := ""], key, now);
    events := [e];
    AnnouncedAlso([], e);
    assert [] + [e] == events;
    FollowsNothing(map[]);
    FollowsOn(map[], [], map[], events, ns, map[key := ""], now);
    assert key in map[key := ""] && events[..0] == [];
  }
}
