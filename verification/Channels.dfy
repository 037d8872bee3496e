/** Buffered Go channels, as far as non-blocking senders, receivers and close use them. */
module Channels {
  import opened Sequences
  import opened GoSlices

  /** What a non-blocking send leaves in the buffer: the value at the end, or, when the
    * buffer is full, the old buffer. */
  function Offer<T>(buf: seq<T>, capacity: nat, x: T): seq<T> {
    if |buf| < capacity then buf + [x] else buf
  }

  class Channel<T> {
    const capacity: nat
    var buf: seq<T>
    var closed: bool

    constructor (capacity: nat)
      ensures this.capacity == capacity && buf == [] && !closed
    {
      this.capacity := capacity;
      buf := [];
      closed := false;
    }

    /** select { case ch <- x: default: }. Sending on a closed channel panics in Go. */
    method TrySend(x: T) returns (sent: bool)
      requires !closed
      modifies this`buf
      ensures sent == (|old(buf)| < capacity)
      ensures buf == Offer(old(buf), capacity, x)
    {
      sent := |buf| < capacity;
      if sent {
        buf := buf + [x];
      }
    }

    /** close(ch). Closing twice panics in Go; values already queued stay readable. */
    method Close()
      requires !closed
      modifies this`closed
      ensures closed
    {
      closed := true;
    }
  }

  /** Ranges over a list of channels and offers the value to each. */
  method OfferAll<T>(list: GoSlice<Channel<T>>, ghost capacity: nat, x: T)
    requires list.Valid() && Distinct(list.View())
    requires forall ch :: ch in list.View() ==> !ch.closed && ch.capacity == capacity
    modifies (set ch | ch in list.View())`buf
    ensures forall ch :: ch in list.View() ==> ch.buf == Offer(old(ch.buf), capacity, x)
  {
    ghost var chans := list.View();
    for i := 0 to list.len
      invariant forall k :: 0 <= k < i ==> chans[k].buf == Offer(old(chans[k].buf), capacity, x)
      invariant forall k :: i <= k < |chans| ==> chans[k].buf == old(chans[k].buf)
    {
      var ch := list.arr[i];
      assert ch == chans[i] && ch in chans;
      var _ := ch.TrySend(x);
    }
  }

  /** Ranges over a list of channels and closes each. */
  method CloseAll<T>(list: GoSlice<Channel<T>>)
    requires list.Valid() && Distinct(list.View())
    requires forall ch :: ch in list.View() ==> !ch.closed
    modifies (set ch | ch in list.View())`closed
    ensures forall ch :: ch in list.View() ==> ch.closed
  {
    ghost var chans := list.View();
    for i := 0 to list.len
      invariant forall k :: 0 <= k < i ==> chans[k].closed
      invariant forall k :: i <= k < |chans| ==> !chans[k].closed
    {
      var ch := list.arr[i];
      assert ch == chans[i] && ch in chans;
      ch.Close();
    }
  }
}
