/** A buffered Go channel as seen by one goroutine at a time: a FIFO buffer
    with a fixed capacity. */
module Channels {

  class Chan<T> {
    /** The values buffered in the channel, oldest first. */
    var buf: seq<T>
    /** The capacity given to `make(chan T, capacity)`. */
    const capacity: nat

    ghost predicate Valid()
      reads this
    {
      |buf| <= capacity
    }

    constructor (capacity: nat)
      ensures Valid()
      ensures this.capacity == capacity && buf == []
    {
      this.capacity := capacity;
      buf := [];
    }

    /** `len(ch)`: the number of buffered values. */
    function Len(): nat
      reads this
    {
      |buf|
    }

    /** `ch <- x`. On a full channel the Go send blocks; here it reports
        that nothing was delivered and leaves the buffer as it was. */
    method Send(x: T) returns (delivered: bool)
      requires Valid()
      modifies this
      ensures Valid()
      ensures delivered == (|old(buf)| < capacity)
      ensures buf == if delivered then old(buf) + [x] else old(buf)
    {
      delivered := |buf| < capacity;
      if delivered {
        buf := buf + [x];
      }
    }

    /** `<-ch` on a channel that holds a value: the oldest value leaves. */
    method Recv() returns (x: T)
      requires Valid() && buf != []
      modifies this
      ensures Valid()
      ensures x == old(buf)[0] && buf == old(buf)[1..]
    {
      x := buf[0];
      buf := buf[1..];
    }
  }
}
