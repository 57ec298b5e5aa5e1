/**
 A topic: a name, the id of the last message broadcast to all of it, and
 its clients keyed by client name.
 */
module Channels {
  import opened Messages
  import opened Clients

  class Channel {
    /** Id of the last message broadcast to every client of the topic. */
    var lastEventID: string
    /** The topic's name. */
    const name: string
    /** The registered clients, keyed by client name. */
    var clients: map<string, Client>

    /** Every client is stored under its own name. */
    ghost predicate Valid()
      reads this`clients
    {
      forall k :: k in clients ==> clients[k].name == k
    }

    /** Every client subscribed to this topic. */
    ghost predicate Homed()
      reads this`clients
    {
      forall k :: k in clients ==> clients[k].channel == name
    }

    /** Every client's queue is open. */
    ghost predicate Open()
      reads this`clients, clients.Values`closed
    {
      forall k :: k in clients ==> !clients[k].closed
    }

    /** An empty topic. */
    constructor (name: string)
      ensures Valid()
      ensures lastEventID == "" && this.name == name && clients == map[]
    {
      lastEventID := "";
      this.name := name;
      clients := map[];
    }

    /** Sends `m` to the client named `clientName` when that name is given
        (nothing when it is absent), or, when it is "", records the message's
        id as the topic's last event id and offers `m` to every client once.
        Each client applies its own version filter. */
    method SendMessage(clientName: string, m: Message)
      requires Valid()
      requires forall k :: k in clients && clients[k].Accepts(m) && (clientName == "" || clientName == k) ==> !clients[k].closed
      modifies this`lastEventID, clients.Values`lastEventID, clients.Values`queue
      ensures clients == old(clients)
      ensures lastEventID == if clientName == "" then m.id else old(lastEventID)
      ensures forall k :: k in clients ==> Offered(clients[k], m, clientName == "" || clientName == k)
    {
      if clientName != "" {
        if clientName in clients {
          clients[clientName].SendMessage(m);
        }
      } else {
        lastEventID := m.id;
        var pending := clients.Keys;
        while pending != {}
          invariant pending <= clients.Keys
          invariant lastEventID == m.id
          invariant forall k :: k in clients ==> Offered(clients[k], m, k !in pending)
          decreases pending
        {
          var k :| k in pending;
          clients[k].SendMessage(m);
          pending := pending - {k};
        }
      }
    }

    /** Disconnects every client: each one's queue is closed and the topic is
        left with no clients. Queues and last event ids are untouched. */
    method Close()
      requires Valid() && Open()
      modifies this`clients, clients.Values`closed
      ensures Valid()
      ensures clients == map[]
      ensures forall k :: k in old(clients) ==> old(clients)[k].closed
    {
      while clients != map[]
        invariant Valid()
        invariant forall k :: k in clients ==> k in old(clients) && clients[k] == old(clients)[k]
        invariant Open()
        invariant forall k :: k in old(clients) && k !in clients ==> old(clients)[k].closed
        decreases |clients|
      {
        var k :| k in clients;
        RemoveClient(clients[k]);
      }
    }

    /** The number of registered clients: zero exactly when the topic has
        none. */
    function ClientCount(): (n: nat)
      reads this`clients
      ensures n == |clients.Keys|
      ensures n == 0 <==> clients == map[]
    {
      |clients|
    }

    /** The id of the last message broadcast to the whole topic. */
    function LastEventID(): (id: string)
      reads this`lastEventID
      ensures id == lastEventID
    {
      lastEventID
    }

    /** Registers `client` under its name, replacing whatever client was
        stored under that name. */
    method AddClient(client: Client)
      requires Valid()
      modifies this`clients
      ensures Valid()
      ensures clients == old(clients)[client.name := client]
      ensures old(Homed()) && client.channel == name ==> Homed()
      ensures old(Open()) && !client.closed ==> Open()
    {
      clients := clients[client.name := client];
    }

    /** Closes the queue of `client` and drops its name from the topic,
        whichever client is stored under that name. Closing a closed queue
        is a runtime fault, so the queue must be open. */
    method RemoveClient(client: Client)
      requires Valid()
      requires !client.closed
      modifies this`clients, client`closed
      ensures Valid()
      ensures clients == old(clients) - {client.name}
      ensures client.closed
      ensures old(Homed()) ==> Homed()
      ensures old(Open()) ==> Open()
    {
      client.closed := true;
      clients := clients - {client.name};
    }
  }
}
