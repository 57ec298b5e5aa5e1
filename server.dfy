/**
 The server: the table from topic name to topic, and the dispatch loop's
 cases as one atomic step each (add a client, remove a client, close a
 topic, the heartbeat tick, shutdown), together with the routing entry
 points and the read accessors.
 */
module Dispatch {
  import opened Messages
  import opened Clients
  import opened Channels
  import opened Topics

  /** Where the dispatch loop is: handling requests, returned after
      shutdown, or stuck for good on a send nobody will receive. */
  datatype LoopState = Running | Stopped | Blocked

  /** Whether a broadcast to topic `channel` and client name `client`
      ("" meaning all of either) is routed to `x`. */
  predicate Routes(channel: string, client: string, x: Client)
  {
    (channel == "" || channel == x.channel) && (client == "" || client == x.name)
  }

  /** The message the heartbeat tick broadcasts. */
  function HeartbeatMessage(): (m: Message)
    ensures m.event == "heartbeat" && m.id == "" && m.data == ""
    ensures m.retry == 0 && m.version == 0
  {
    Message("", "", "heartbeat", 0, 0)
  }

  class Server {
    /** The topics, keyed by name. */
    var channels: map<string, Channel>
    /** The dispatch loop's state. */
    var state: LoopState
    /** Whether the heartbeat tick broadcasts. */
    const heartbeat: bool

    /** The table of topics as a value. */
    ghost function Table(): Table
      reads this`channels, channels.Values`clients
    {
      map n | n in channels :: channels[n].clients
    }

    /** Every registered client. */
    ghost function Clients(): set<Client>
      reads this`channels, channels.Values`clients
    {
      set n, k | n in channels && k in channels[n].clients :: channels[n].clients[k]
    }

    /** Every key names its own topic, and every topic stores each client
        under the client's name and only clients that subscribed to it. */
    ghost predicate Shaped()
      reads this`channels, channels.Values`clients
    {
      forall n :: n in channels ==> channels[n].name == n && channels[n].Valid() && channels[n].Homed()
    }

    /** Every registered client's queue is open. */
    ghost predicate Open()
      reads this`channels, channels.Values`clients, Clients()`closed
    {
      forall n :: n in channels ==> channels[n].Open()
    }

    /** The server's invariant: shaped, open, and no topic is empty. */
    ghost predicate Valid()
      reads this`channels, channels.Values`clients, Clients()`closed
    {
      Shaped() && Open() && NoEmptyTopic(Table())
    }

    /** The invariant is the table's invariant together with topic names
        matching keys and open queues; the registered clients are the
        table's members. */
    lemma ValidMeans()
      requires Valid()
      ensures WellFormed(Table())
      ensures Clients() == Members(Table())
      ensures forall x :: x in Clients() ==> !x.closed
    {
      var t: Table := Table();
      forall n: string | n in t
        ensures t[n] != map[]
        ensures forall k: string :: k in t[n] ==> t[n][k].name == k && t[n][k].channel == n
      {
        assert t[n] == channels[n].clients;
      }
      forall x ensures x in Clients() <==> x in Members(t) {
        if x in Members(t) {
          var n, k :| n in t && k in t[n] && t[n][k] == x;
          assert channels[n].clients[k] == x;
        }
        if x in Clients() {
          var n, k :| n in channels && k in channels[n].clients && channels[n].clients[k] == x;
          assert t[n][k] == x;
        }
      }
      forall x | x in Clients() ensures !x.closed {
        var n, k :| n in channels && k in channels[n].clients && channels[n].clients[k] == x;
      }
    }

    /** The table is the given value when keys and client maps agree. */
    lemma TableIs(u: Table)
      requires channels.Keys == u.Keys
      requires forall n :: n in channels ==> channels[n].clients == u[n]
      ensures Table() == u
    {
    }

    /** A server with no topics whose loop is running. */
    constructor (heartbeat: bool)
      ensures Valid()
      ensures channels == map[] && state == Running && this.heartbeat == heartbeat
    {
      channels := map[];
      state := Running;
      this.heartbeat := heartbeat;
    }

    /** Adds a new, empty topic named `name` with no last event id. */
    method Create(name: string) returns (ch: Channel)
      requires Shaped() && Open() && name !in channels
      modifies this`channels
      ensures Shaped() && Open()
      ensures channels == old(channels)[name := ch]
      ensures fresh(ch) && ch.name == name && ch.clients == map[] && ch.lastEventID == ""
      ensures Table() == old(Table())[name := map[]]
    {
      ghost var t := Table();
      ch := new Channel(name);
      channels := channels[name := ch];
      forall n | n in channels && n != name
        ensures channels[n].clients == t[n] && channels[n].Open()
      {
        var other := channels[n];
        assert other == old(channels[n]) && other != ch;
        forall k | k in other.clients
          ensures !other.clients[k].closed
        {
          assert old(!other.clients[k].closed);
        }
      }
      TableIs(t[name := map[]]);
    }

    /** The topic named `name`, created empty with no last event id when it
        does not exist. */
    method Ensure(name: string) returns (ch: Channel)
      requires Shaped() && Open()
      modifies this`channels
      ensures Shaped() && Open()
      ensures name in channels && channels[name] == ch
      ensures Table() == old(Table())[name := Topic(old(Table()), name)]
      ensures forall n :: n in old(channels) ==> n in channels && channels[n] == old(channels[n])
      ensures name !in old(channels) ==> fresh(ch) && ch.lastEventID == ""
    {
      if name in channels {
        ch := channels[name];
        assert Table()[name := Topic(Table(), name)] == Table();
      } else {
        ch := Create(name);
      }
    }

    /** Registers `c` in its topic `ch` under its name. */
    method Attach(ch: Channel, c: Client)
      requires Shaped() && Open()
      requires c.channel in channels && channels[c.channel] == ch
      requires !c.closed
      modifies ch`clients
      ensures Shaped() && Open()
      ensures Table() == old(Table())[c.channel := old(Table())[c.channel][c.name := c]]
    {
      ghost var t := Table();
      assert ch.Homed() && ch.Open();
      ch.AddClient(c);
      forall n | n in channels && n != c.channel
        ensures channels[n].clients == t[n] && channels[n].Open()
      {
        var other := channels[n];
        forall k | k in other.clients
          ensures !other.clients[k].closed
        {
          assert other.clients[k].channel == n;
        }
      }
      TableIs(t[c.channel := t[c.channel][c.name := c]]);
    }

    /** The add-client case: the client's topic is created, with no last
        event id, if it does not exist; the client is then registered in it
        under its name. Other topics, and an existing topic object, stay. */
    method AddClient(c: Client)
      requires Valid() && state == Running
      requires !c.closed
      modifies this`channels, channels.Values`clients
      ensures Valid()
      ensures Table() == Subscribe(old(Table()), c)
      ensures forall n :: n in old(channels) ==> n in channels && channels[n] == old(channels[n])
      ensures c.channel in channels
      ensures c.channel !in old(channels) ==> fresh(channels[c.channel]) && channels[c.channel].lastEventID == ""
    {
      ghost var t := Table();
      SubscribeNoEmptyTopic(t, c);
      SubscribeInSteps(t, c);
      var ch := Ensure(c.channel);
      Attach(ch, c);
    }

    /** Takes `c` out of its topic `ch` and closes its queue; the topic stays
        in the table even when this leaves it empty. */
    method Unregister(ch: Channel, c: Client)
      requires Shaped() && Open()
      requires c.channel in channels && channels[c.channel] == ch
      requires !c.closed
      modifies ch`clients, c`closed
      ensures Shaped() && Open()
      ensures Table() == old(Table())[c.channel := old(Table())[c.channel] - {c.name}]
      ensures c.closed
    {
      ghost var t := Table();
      ch.RemoveClient(c);
      forall n | n in channels && n != c.channel
        ensures channels[n].clients == t[n] && channels[n].Open()
      {
        var other := channels[n];
        forall k | k in other.clients
          ensures !other.clients[k].closed
        {
          assert other.clients[k].channel == n;
        }
      }
      TableIs(t[c.channel := t[c.channel] - {c.name}]);
    }

    /** Deletes topic `ch` from the table and disconnects every one of its
        clients, closing their queues. */
    method Dismantle(ch: Channel)
      requires Shaped() && Open()
      requires ch.name in channels && channels[ch.name] == ch
      modifies this`channels, ch`clients, ch.clients.Values`closed
      ensures Shaped() && Open()
      ensures channels == old(channels) - {ch.name}
      ensures Table() == old(Table()) - {ch.name}
      ensures forall k :: k in old(ch.clients) ==> old(ch.clients)[k].closed
    {
      ghost var t := Table();
      channels := channels - {ch.name};
      ch.Close();
      forall n | n in channels
        ensures channels[n].clients == t[n] && channels[n].Open()
      {
        var other := channels[n];
        forall k | k in other.clients
          ensures !other.clients[k].closed
        {
          assert other.clients[k].channel == n;
        }
      }
      TableIs(t - {ch.name});
    }

    /** Deletes topic `ch` through `Dismantle` when it has no clients left;
        otherwise changes nothing. */
    method Prune(ch: Channel)
      requires Shaped() && Open()
      requires ch.name in channels && channels[ch.name] == ch
      modifies this`channels, ch`clients
      ensures Shaped() && Open()
      ensures Table() == if old(ch.clients) == map[] then old(Table()) - {ch.name} else old(Table())
      ensures forall n :: n in channels ==> n in old(channels) && channels[n] == old(channels[n])
    {
      var count := ch.ClientCount();
      if count == 0 {
        assert ch.clients.Values == {};
        Dismantle(ch);
      }
    }

    /** Takes `c` out of its topic `ch`, closing its queue, and deletes the
        topic when that leaves it without clients. */
    method Detach(ch: Channel, c: Client)
      requires Shaped() && Open() && NoEmptyTopic(Table())
      requires c.channel in channels && channels[c.channel] == ch
      requires !c.closed
      modifies this`channels, ch`clients, c`closed
      ensures Shaped() && Open() && NoEmptyTopic(Table())
      ensures Table() == Unsubscribe(old(Table()), c)
      ensures forall n :: n in channels ==> n in old(channels) && channels[n] == old(channels[n])
      ensures c.closed
    {
      ghost var t := Table();
      UnsubscribeInSteps(t, c);
      UnsubscribeNoEmptyTopic(t, c);
      Unregister(ch, c);
      ghost var u := Table();
      assert u == t[c.channel := t[c.channel] - {c.name}];
      assert ch.clients == u[c.channel];
      Prune(ch);
    }

    /** The remove-client case: nothing when the client's topic is absent;
        otherwise the client's queue is closed, its name is dropped from the
        topic, and a topic left without clients is deleted. */
    method RemoveClient(c: Client)
      requires Valid() && state == Running
      requires c.channel in channels ==> !c.closed
      modifies this`channels, channels.Values`clients, c`closed
      ensures Valid()
      ensures Table() == Unsubscribe(old(Table()), c)
      ensures forall n :: n in channels ==> n in old(channels) && channels[n] == old(channels[n])
      ensures c.closed == (old(c.closed) || c.channel in old(channels))
    {
      if c.channel in channels {
        var ch := channels[c.channel];
        assert ch in channels.Values;
        Detach(ch, c);
      }
    }

    /** The close-channel case: nothing when the topic is absent; otherwise
        the topic is deleted and every one of its clients' queues is closed. */
    method CloseChannel(name: string)
      requires Valid() && state == Running
      modifies this`channels, channels.Values`clients, Clients()`closed
      ensures Valid()
      ensures Table() == Teardown(old(Table()), name)
      ensures channels == old(channels) - {name}
      ensures forall x :: x in old(Clients()) ==> x.closed == (x.channel == name)
      ensures forall x: Client :: old(allocated(x)) && old(x.closed) ==> x.closed
    {
      if name in channels {
        var ch := channels[name];
        Dismantle(ch);
      }
    }

    /** The clients of a topic are registered clients. */
    lemma TopicClients(n: string)
      requires n in channels
      ensures channels[n].clients.Values <= Clients()
    {
      forall x | x in channels[n].clients.Values
        ensures x in Clients()
      {
        var k :| k in channels[n].clients && channels[n].clients[k] == x;
      }
    }

    /** Sends `m` through topic `ch` to its client named `client`, or to all
        of its clients when `client` is "". No client of another topic is
        touched. */
    method Offer(ch: Channel, client: string, m: Message)
      requires Shaped() && Open()
      requires ch.name in channels && channels[ch.name] == ch
      modifies ch`lastEventID, ch.clients.Values`lastEventID, ch.clients.Values`queue
      ensures forall n, k :: n in channels && k in channels[n].clients ==>
        Offered(channels[n].clients[k], m, n == ch.name && (client == "" || client == k))
      ensures ch.lastEventID == if client == "" then m.id else old(ch.lastEventID)
    {
      assert ch.Open();
      ch.SendMessage(client, m);
      forall n, k | n in channels && k in channels[n].clients && n != ch.name
        ensures Offered(channels[n].clients[k], m, false)
      {
        var x := channels[n].clients[k];
        assert x.channel == n;
        assert x !in old(ch.clients.Values);
      }
    }

    /** Sends `m` through every topic to client name `client` ("" for all
        of them): every registered client is offered the message when it is
        routed there, and with `client` "" every topic records the message's
        id as its last event id. */
    method Broadcast(client: string, m: Message)
      requires Valid()
      modifies channels.Values`lastEventID, Clients()`lastEventID, Clients()`queue
      ensures forall n :: n in channels ==> channels[n].lastEventID == if client == "" then m.id else old(channels[n].lastEventID)
      ensures forall x :: x in Clients() ==> Offered(x, m, client == "" || client == x.name)
    {
      var pending := channels.Keys;
      while pending != {}
        invariant pending <= channels.Keys
        invariant forall n :: n in channels ==>
          channels[n].lastEventID == if client == "" && n !in pending then m.id else old(channels[n].lastEventID)
        invariant forall n, k :: n in channels && k in channels[n].clients ==>
          Offered(channels[n].clients[k], m, n !in pending && (client == "" || client == k))
        decreases pending
      {
        var n :| n in pending;
        var ch := channels[n];
        assert ch in channels.Values;
        TopicClients(n);
        label before:
        Offer(ch, client, m);
        forall n', k | n' in channels && k in channels[n'].clients
          ensures Offered(channels[n'].clients[k], m, n' !in pending - {n} && (client == "" || client == k))
        {
          if n' != n {
            assert Offered@before(channels[n'].clients[k], m, false);
          }
        }
        pending := pending - {n};
      }
      forall x | x in Clients()
        ensures Offered(x, m, client == "" || client == x.name)
      {
        var n, k :| n in channels && k in channels[n].clients && channels[n].clients[k] == x;
      }
    }

    /** Broadcasts `m` to client name `client` ("" for every client) in topic
        `channel` ("" for every topic); nothing when the named topic does not
        exist. Every registered client is offered the message exactly when the
        broadcast is routed to it, and a whole-topic broadcast records the
        message's id as that topic's last event id. */
    method SendMessageToClient(channel: string, client: string, m: Message)
      requires Valid()
      modifies channels.Values`lastEventID, Clients()`lastEventID, Clients()`queue
      ensures forall n :: n in channels ==>
        channels[n].lastEventID == if client == "" && (channel == "" || channel == n) then m.id else old(channels[n].lastEventID)
      ensures forall x :: x in Clients() ==> Offered(x, m, Routes(channel, client, x))
    {
      if channel == "" {
        Broadcast(client, m);
      } else if channel in channels {
        var ch := channels[channel];
        assert ch in channels.Values;
        TopicClients(channel);
        Offer(ch, client, m);
        forall x | x in Clients()
          ensures Offered(x, m, Routes(channel, client, x))
        {
          var n, k :| n in channels && k in channels[n].clients && channels[n].clients[k] == x;
        }
      }
    }

    /** One step of closing every topic: topic `n`, among the `pending`
        topics left of entry table `t`, is closed; the clients of `t` are
        closed exactly when their topic is no longer pending. */
    method CloseNext(ghost t: Table, pending: set<string>, n: string)
      requires Valid() && state == Running && WellFormed(t)
      requires Table() == Restrict(t, pending) && n in pending
      requires forall x :: x in Members(t) ==> x.closed == (x.channel !in pending)
      modifies this`channels, channels.Values`clients, Clients()`closed
      ensures Valid() && Table() == Restrict(t, pending - {n})
      ensures channels == old(channels) - {n}
      ensures forall x :: x in Members(t) ==> x.closed == (x.channel !in pending - {n})
      ensures Clients() <= Members(t)
    {
      RestrictTeardown(t, pending, n);
      RestrictMembers(t, pending);
      RestrictMembers(t, pending - {n});
      ValidMeans();
      ghost var cs := Clients();
      assert cs == set x | x in Members(t) && x.channel in pending;
      CloseChannel(n);
      ValidMeans();
    }

    /** Restarting: the close-channel case runs for every topic, one after
        the other, which deletes every topic and disconnects every client. */
    method Restart()
      requires Valid() && state == Running
      modifies this`channels, channels.Values`clients, Clients()`closed
      ensures Valid() && channels == map[]
      ensures forall x :: x in old(Clients()) ==> x.closed
    {
      ghost var t := Table();
      ValidMeans();
      assert Restrict(t, channels.Keys) == t;
      var pending := channels.Keys;
      while pending != {}
        invariant Valid() && state == Running
        invariant Table() == Restrict(t, pending)
        invariant channels.Values <= old(channels.Values)
        invariant Clients() <= old(Clients())
        invariant forall x :: x in old(Clients()) ==> x.closed == (x.channel !in pending)
        decreases pending
      {
        var n :| n in pending;
        CloseNext(t, pending, n);
        pending := pending - {n};
      }
      assert Table() == map[];
    }

    /** Broadcasts `m` to every client of topic `channel` ("" for every
        topic). */
    method SendMessage(channel: string, m: Message)
      requires Valid()
      modifies channels.Values`lastEventID, Clients()`lastEventID, Clients()`queue
      ensures forall n :: n in channels ==>
        channels[n].lastEventID == if channel == "" || channel == n then m.id else old(channels[n].lastEventID)
      ensures forall x :: x in Clients() ==> Offered(x, m, channel == "" || channel == x.channel)
    {
      SendMessageToClient(channel, "", m);
    }

    /** The heartbeat tick: when enabled, the heartbeat message is broadcast
        to every client of every topic; otherwise nothing happens. The tick
        is a case of the running loop, so it cannot fire once the loop has
        returned or while it is stuck. */
    method Heartbeat()
      requires Valid() && state == Running
      modifies channels.Values`lastEventID, Clients()`lastEventID, Clients()`queue
      ensures forall n :: n in channels ==>
        channels[n].lastEventID == if heartbeat then HeartbeatMessage().id else old(channels[n].lastEventID)
      ensures forall x :: x in Clients() ==> Offered(x, HeartbeatMessage(), heartbeat)
    {
      if heartbeat {
        SendMessageToClient("", "", HeartbeatMessage());
      }
    }

    /** The number of connected clients, summed topic by topic: the number of
        distinct registered clients. */
    method ClientCount() returns (count: nat)
      requires Valid()
      ensures count == Total(Table())
      ensures count == |Clients()|
    {
      ghost var t := Table();
      count := 0;
      var pending := channels.Keys;
      assert Restrict(t, pending) == t;
      while pending != {}
        invariant pending <= channels.Keys
        invariant count + Total(Restrict(t, pending)) == Total(t)
        decreases pending
      {
        var n :| n in pending;
        TotalRemove(Restrict(t, pending), n);
        RestrictTeardown(t, pending, n);
        count := count + channels[n].ClientCount();
        pending := pending - {n};
      }
      assert Restrict(t, {}) == map[];
      ValidMeans();
      TotalIsMembers(t);
    }

    /** Whether a topic named `name` exists. */
    function HasChannel(name: string): (b: bool)
      reads this`channels
      ensures b <==> name in channels
    {
      name in channels
    }

    /** The topic named `name` and true, or null and false when there is
        none. */
    function GetChannel(name: string): (r: (Channel?, bool))
      reads this`channels
      ensures r.1 <==> name in channels
      ensures r.1 ==> r.0 == channels[name]
      ensures !r.1 ==> r.0 == null
    {
      if name in channels then (channels[name], true) else (null, false)
    }

    /** The names of all topics, each exactly once, in no particular order. */
    method Channels() returns (names: seq<string>)
      ensures forall n :: n in names <==> n in channels
      ensures forall i, j :: 0 <= i < j < |names| ==> names[i] != names[j]
      ensures |names| == |channels|
    {
      names := [];
      var pending := channels.Keys;
      while pending != {}
        invariant pending <= channels.Keys
        invariant forall n :: n in names <==> n in channels && n !in pending
        invariant forall i, j :: 0 <= i < j < |names| ==> names[i] != names[j]
        invariant |names| + |pending| == |channels|
        decreases pending
      {
        var n :| n in pending;
        names := names + [n];
        pending := pending - {n};
      }
    }

    /** The shutdown case as intended: every topic is closed, disconnecting
        every client, and the loop returns. */
    method Shutdown()
      requires Valid() && state == Running
      modifies this`channels, channels.Values`clients, Clients()`closed, this`state
      ensures Valid() && channels == map[] && state == Stopped
      ensures forall x :: x in old(Clients()) ==> x.closed
    {
      Restart();
      state := Stopped;
    }

    /** The shutdown case as written: the loop itself posts the first topic's
        close request on the unbuffered close-channel queue that only the
        loop receives from, so with any topic present it waits forever and
        nothing is closed; with none it returns. */
    method ShutdownAsWritten()
      requires Valid() && state == Running
      modifies this`state
      ensures state == if channels == map[] then Stopped else Blocked
    {
      if channels == map[] {
        state := Stopped;
      } else {
        state := Blocked;
      }
    }
  }

  /** One browser subscribed to one topic, then the shutdown case as
      written: the loop is stuck and the client's queue is never closed. */
  method ShutdownBlocksWithATopic() returns (s: Server, c: Client)
    ensures s.state == Blocked && c in s.Clients() && !c.closed
  {
    s := new Server(false);
    c := new Client("", "/events", "", 0);
    s.AddClient(c);
    SubscribeKeepsInvariant(map[], c);
    s.ValidMeans();
    s.ShutdownAsWritten();
  }
}
