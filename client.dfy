/**
 A subscriber: one connected browser, with the version it accepts, the id
 of the last message delivered to it and the outbound queue its connection
 drains. The queue is the sequence of messages pushed onto it and whether
 it has been closed.
 */
module Clients {
  import opened Messages

  class Client {
    /** Id of the last message delivered. */
    var lastEventID: string
    /** The topic the client subscribed to. */
    const channel: string
    /** The client's name within its topic ("" for an anonymous client). */
    const name: string
    /** Messages with a higher version than this are not delivered. */
    const version: int
    /** Every message pushed onto the outbound queue, oldest first. */
    var queue: seq<Message>
    /** Whether the outbound queue has been closed. */
    var closed: bool

    /** A client with an empty, open queue. */
    constructor (lastEventID: string, channel: string, name: string, version: int)
      ensures this.lastEventID == lastEventID && this.channel == channel
      ensures this.name == name && this.version == version
      ensures queue == [] && !closed
    {
      this.lastEventID := lastEventID;
      this.channel := channel;
      this.name := name;
      this.version := version;
      queue := [];
      closed := false;
    }

    /** Whether `m` passes the client's version filter. */
    predicate Accepts(m: Message)
    {
      m.version <= version
    }

    /** Delivers `m` if it passes the filter: the last event id becomes the
        message's and the message is queued at the end. A filtered-out
        message changes nothing. Pushing onto a closed queue is a runtime
        fault, so a delivered message needs an open queue. */
    method SendMessage(m: Message)
      requires Accepts(m) ==> !closed
      modifies this`lastEventID, this`queue
      ensures Offered(this, m, true)
    {
      if m.version <= version {
        lastEventID := m.id;
        queue := queue + [m];
      }
    }

    /** The topic the client subscribed to. */
    function Channel(): (ch: string)
      ensures ch == channel
    {
      channel
    }

    /** The id of the last message delivered. */
    function LastEventID(): (id: string)
      reads this`lastEventID
      ensures id == lastEventID
    {
      lastEventID
    }
  }

  /** What offering `m` to `x` does: when `routed` and the filter accepts it,
      the last event id is the message's and the message is the queue's new
      last element; otherwise neither changed. The queue is never closed or
      reopened by an offer. */
  twostate predicate Offered(x: Client, m: Message, routed: bool)
    reads x
  {
    && x.closed == old(x.closed)
    && (if routed && x.Accepts(m)
        then x.lastEventID == m.id && x.queue == old(x.queue) + [m]
        else x.lastEventID == old(x.lastEventID) && x.queue == old(x.queue))
  }

  /** Offers the messages of `ms` to `c` one after another: the queue grows
      by exactly what the filter lets through, in order, and the last event
      id is that of the last delivered message, or unchanged when none
      passes. */
  method SendAll(c: Client, ms: seq<Message>)
    requires !c.closed
    modifies c`lastEventID, c`queue
    ensures c.queue == old(c.queue) + Delivered(c.version, ms)
    ensures Delivered(c.version, ms) == [] ==> c.lastEventID == old(c.lastEventID)
    ensures Delivered(c.version, ms) != [] ==> c.lastEventID == Delivered(c.version, ms)[|Delivered(c.version, ms)| - 1].id
  {
    var i := 0;
    while i < |ms|
      invariant 0 <= i <= |ms|
      invariant !c.closed
      invariant c.queue == old(c.queue) + Delivered(c.version, ms[..i])
      invariant Delivered(c.version, ms[..i]) == [] ==> c.lastEventID == old(c.lastEventID)
      invariant Delivered(c.version, ms[..i]) != [] ==> c.lastEventID == Delivered(c.version, ms[..i])[|Delivered(c.version, ms[..i])| - 1].id
    {
      DeliveredExtend(c.version, ms[..i], ms[i]);
      assert ms[..i + 1] == ms[..i] + [ms[i]];
      c.SendMessage(ms[i]);
      i := i + 1;
    }
    assert ms[..|ms|] == ms;
  }

  /** What a client with filter `version` receives of `ms`, in order. */
  function Delivered(version: int, ms: seq<Message>): seq<Message>
    decreases |ms|
  {
    if |ms| == 0 then []
    else Delivered(version, ms[..|ms| - 1]) + (if ms[|ms| - 1].version <= version then [ms[|ms| - 1]] else [])
  }

  /** The positions in `ms` of the messages that pass filter `version`, ascending. */
  function Accepted(version: int, ms: seq<Message>): seq<nat>
    decreases |ms|
  {
    if |ms| == 0 then []
    else Accepted(version, ms[..|ms| - 1]) + (if ms[|ms| - 1].version <= version then [|ms| - 1] else [])
  }

  /** Offering messages one at a time extends what was delivered by what
      the filter lets through of the new one. */
  lemma DeliveredExtend(version: int, ms: seq<Message>, m: Message)
    ensures Delivered(version, ms + [m]) == Delivered(version, ms) + (if m.version <= version then [m] else [])
  {
    assert (ms + [m])[..|ms|] == ms;
  }

  /** What is delivered is exactly the subsequence of messages whose version
      passes the filter: the i-th delivered message is the message at the
      i-th accepted position, the positions ascend, and a position is
      accepted iff its message passes. */
  lemma {:induction false} DeliveredIsFilteredSubsequence(version: int, ms: seq<Message>)
    ensures |Accepted(version, ms)| == |Delivered(version, ms)|
    ensures forall i :: 0 <= i < |Accepted(version, ms)| ==> Accepted(version, ms)[i] < |ms|
    ensures forall i :: 0 <= i < |Delivered(version, ms)| ==> Delivered(version, ms)[i] == ms[Accepted(version, ms)[i]]
    ensures forall i, j :: 0 <= i < j < |Accepted(version, ms)| ==> Accepted(version, ms)[i] < Accepted(version, ms)[j]
    ensures forall p :: 0 <= p < |ms| ==> (p in Accepted(version, ms) <==> ms[p].version <= version)
    decreases |ms|
  {
    if |ms| > 0 {
      var init := ms[..|ms| - 1];
      DeliveredIsFilteredSubsequence(version, init);
      forall i | 0 <= i < |Delivered(version, init)|
        ensures init[Accepted(version, init)[i]] == ms[Accepted(version, init)[i]]
      {
      }
    }
  }
}
