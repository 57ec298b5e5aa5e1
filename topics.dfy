/**
 The server's table of topics seen as a value: topic name to client name to
 client. The dispatch steps that change the table's shape (subscribe,
 unsubscribe, tear a topic down) are functions on it, with the table's
 invariant and the client count proved about them.
 */
module Topics {
  import opened Clients

  /** Topic name to the topic's clients keyed by client name. */
  type Table = map<string, map<string, Client>>

  /** The clients of topic `n`, none when it is absent. */
  function Topic(t: Table, n: string): map<string, Client>
  {
    if n in t then t[n] else map[]
  }

  /** The table's invariant: no topic is empty, every client is stored under
      its own name and in the topic it subscribed to. */
  predicate WellFormed(t: Table)
  {
    forall n :: n in t ==>
      && t[n] != map[]
      && (forall k :: k in t[n] ==> t[n][k].name == k && t[n][k].channel == n)
  }

  /** No topic of the table is empty. */
  predicate NoEmptyTopic(t: Table)
  {
    forall n :: n in t ==> t[n] != map[]
  }

  /** Every registered client. */
  function Members(t: Table): set<Client>
  {
    set n, k | n in t && k in t[n] :: t[n][k]
  }

  /** The slot a client occupies: its topic and its name. */
  predicate SameSlot(x: Client, c: Client)
  {
    x.channel == c.channel && x.name == c.name
  }

  /** Subscribing `c`: its topic is created if absent, and `c` is stored
      under its name there. */
  function Subscribe(t: Table, c: Client): Table
  {
    t[c.channel := Topic(t, c.channel)[c.name := c]]
  }

  /** Unsubscribing `c`: nothing if its topic is absent; otherwise its name
      is dropped from the topic, and the topic with it if nothing is left. */
  function Unsubscribe(t: Table, c: Client): Table
  {
    if c.channel !in t then t
    else
      var rest := t[c.channel] - {c.name};
      if rest == map[] then t - {c.channel} else t[c.channel := rest]
  }

  /** Subscribing never leaves an empty topic behind. */
  lemma SubscribeNoEmptyTopic(t: Table, c: Client)
    requires NoEmptyTopic(t)
    ensures NoEmptyTopic(Subscribe(t, c))
  {
    assert c.name in Subscribe(t, c)[c.channel];
  }

  /** Subscribing is making sure the topic exists, then storing the
      client in it. */
  lemma SubscribeInSteps(t: Table, c: Client)
    ensures
      var u := t[c.channel := Topic(t, c.channel)];
      Subscribe(t, c) == u[c.channel := u[c.channel][c.name := c]]
  {
  }

  /** Unsubscribing is dropping the name from the topic, then deleting the
      topic if that left it empty. */
  lemma UnsubscribeInSteps(t: Table, c: Client)
    requires c.channel in t
    ensures
      var u := t[c.channel := t[c.channel] - {c.name}];
      Unsubscribe(t, c) == if u[c.channel] == map[] then u - {c.channel} else u
  {
    var u := t[c.channel := t[c.channel] - {c.name}];
    assert u - {c.channel} == t - {c.channel};
  }

  /** Unsubscribing never leaves an empty topic behind. */
  lemma UnsubscribeNoEmptyTopic(t: Table, c: Client)
    requires NoEmptyTopic(t)
    ensures NoEmptyTopic(Unsubscribe(t, c))
  {
  }

  /** Tearing down topic `n`. */
  function Teardown(t: Table, n: string): Table
  {
    t - {n}
  }

  /** The members of a well-formed table are exactly the clients stored at their own slot. */
  lemma MembersAtSlot(t: Table, x: Client)
    requires WellFormed(t)
    ensures x in Members(t) <==> x.channel in t && x.name in t[x.channel] && t[x.channel][x.name] == x
  {
    if x in Members(t) {
      var n, k :| n in t && k in t[n] && t[n][k] == x;
    }
  }

  /** Subscribing keeps the table well-formed; `c` takes the place of
      whichever client had its slot, and every other client stays. */
  lemma SubscribeKeepsInvariant(t: Table, c: Client)
    requires WellFormed(t)
    ensures WellFormed(Subscribe(t, c))
    ensures Members(Subscribe(t, c)) == (set x | x in Members(t) && !SameSlot(x, c)) + {c}
  {
    var u: Table := Subscribe(t, c);
    forall n: string | n in u
      ensures u[n] != map[]
      ensures forall k: string :: k in u[n] ==> u[n][k].name == k && u[n][k].channel == n
    {
      if n == c.channel {
        assert c.name in u[n];
      }
    }
    forall x ensures x in Members(u) <==> x in (set x | x in Members(t) && !SameSlot(x, c)) + {c} {
      MembersAtSlot(t, x);
      MembersAtSlot(u, x);
    }
  }

  /** Unsubscribing keeps the table well-formed and removes exactly the
      client in `c`'s slot, whether or not that is `c`; the topic disappears
      iff that slot was the last one in it. */
  lemma UnsubscribeKeepsInvariant(t: Table, c: Client)
    requires WellFormed(t)
    ensures WellFormed(Unsubscribe(t, c))
    ensures Members(Unsubscribe(t, c)) == set x | x in Members(t) && !SameSlot(x, c)
    ensures c !in Members(Unsubscribe(t, c))
    ensures c.channel in Unsubscribe(t, c) <==> c.channel in t && t[c.channel].Keys != {c.name}
  {
    var u := Unsubscribe(t, c);
    if c.channel in t {
      var rest := t[c.channel] - {c.name};
      assert rest.Keys == t[c.channel].Keys - {c.name};
      assert rest == map[] <==> rest.Keys == {};
      assert t[c.channel].Keys != {};
    }
    forall x ensures x in Members(u) <==> x in Members(t) && !SameSlot(x, c) {
      MembersAtSlot(t, x);
      MembersAtSlot(u, x);
      if c.channel in t && x.channel == c.channel {
        assert x.name in t[c.channel] && x.name != c.name ==> x.name in (t[c.channel] - {c.name});
      }
    }
    MembersAtSlot(u, c);
  }

  /** Tearing a topic down keeps the table well-formed and removes exactly
      the clients subscribed to it. */
  lemma TeardownKeepsInvariant(t: Table, n: string)
    requires WellFormed(t)
    ensures WellFormed(Teardown(t, n))
    ensures Members(Teardown(t, n)) == set x | x in Members(t) && x.channel != n
  {
    var u := Teardown(t, n);
    forall x ensures x in Members(u) <==> x in Members(t) && x.channel != n {
      MembersAtSlot(t, x);
      MembersAtSlot(u, x);
    }
  }

  /** The topics of `t` named in `names`. */
  function Restrict(t: Table, names: set<string>): Table
  {
    map n | n in t && n in names :: t[n]
  }

  /** Tearing topic `n` down from a restriction is restricting further. */
  lemma RestrictTeardown(t: Table, names: set<string>, n: string)
    ensures Teardown(Restrict(t, names), n) == Restrict(t, names - {n})
  {
  }

  /** A restriction keeps a well-formed table's invariant and exactly the
      clients whose topic is named. */
  lemma RestrictMembers(t: Table, names: set<string>)
    requires WellFormed(t)
    ensures WellFormed(Restrict(t, names))
    ensures Members(Restrict(t, names)) == set x | x in Members(t) && x.channel in names
  {
    var u := Restrict(t, names);
    forall x ensures x in Members(u) <==> x in Members(t) && x.channel in names {
      MembersAtSlot(t, x);
      MembersAtSlot(u, x);
    }
  }

  /** The number of clients summed over all topics. */
  ghost function Total(t: Table): nat
    decreases t.Keys
  {
    if t == map[] then 0
    else
      var n :| n in t;
      |t[n]| + Total(t - {n})
  }

  /** The sum can be taken starting from any topic. */
  lemma {:induction false} TotalRemove(t: Table, n: string)
    requires n in t
    ensures Total(t) == |t[n]| + Total(t - {n})
    decreases t.Keys
  {
    var m :| m in t && Total(t) == |t[m]| + Total(t - {m});
    if m != n {
      assert t - {m} - {n} == t - {n} - {m};
      TotalRemove(t - {m}, n);
      TotalRemove(t - {n}, m);
    }
  }

  /** Subscribing to a new topic adds one to the count. */
  lemma TotalSubscribeNew(t: Table, c: Client)
    requires c.channel !in t
    ensures Total(Subscribe(t, c)) == Total(t) + 1
  {
    var u := Subscribe(t, c);
    TotalRemove(u, c.channel);
    assert u - {c.channel} == t;
    assert u[c.channel] == map[c.name := c];
  }

  /** Subscribing to an existing topic adds one to the count, unless it
      displaces a client of the same name. */
  lemma TotalSubscribeExisting(t: Table, c: Client)
    requires c.channel in t
    ensures Total(Subscribe(t, c)) == Total(t) + (if c.name in t[c.channel] then 0 else 1)
  {
    var u := Subscribe(t, c);
    TotalRemove(u, c.channel);
    TotalRemove(t, c.channel);
    assert u - {c.channel} == t - {c.channel};
    assert u[c.channel] == t[c.channel][c.name := c];
  }

  /** A subscription adds one to the count, unless it displaces a client
      of the same name in the same topic. */
  lemma TotalSubscribe(t: Table, c: Client)
    ensures Total(Subscribe(t, c)) == Total(t) + (if c.name in Topic(t, c.channel) then 0 else 1)
  {
    if c.channel in t {
      TotalSubscribeExisting(t, c);
    } else {
      TotalSubscribeNew(t, c);
    }
  }

  /** An unsubscription takes one from the count when `c`'s slot is occupied,
      and changes nothing otherwise. */
  lemma TotalUnsubscribe(t: Table, c: Client)
    ensures Total(Unsubscribe(t, c)) == Total(t) - (if c.name in Topic(t, c.channel) then 1 else 0)
  {
    if c.channel in t {
      var u := Unsubscribe(t, c);
      TotalRemove(t, c.channel);
      var rest := t[c.channel] - {c.name};
      assert rest.Keys == t[c.channel].Keys - {c.name};
      if rest == map[] {
        assert rest.Keys == {};
        if c.name in t[c.channel] {
          assert t[c.channel].Keys == {c.name};
        } else {
          assert t[c.channel].Keys == {};
        }
      } else {
        TotalRemove(u, c.channel);
        assert u - {c.channel} == t - {c.channel};
      }
    }
  }

  /** Tearing a topic down takes its clients from the count. */
  lemma TotalTeardown(t: Table, n: string)
    ensures Total(Teardown(t, n)) == Total(t) - |Topic(t, n)|
  {
    if n in t {
      TotalRemove(t, n);
    } else {
      assert t - {n} == t;
    }
  }

  /** A topic whose clients are stored under their own names holds as many
      distinct clients as names. */
  lemma {:induction false} DistinctClients(m: map<string, Client>)
    requires forall k :: k in m ==> m[k].name == k
    ensures |m.Values| == |m|
    decreases m.Keys
  {
    if m != map[] {
      var k :| k in m;
      var r := m - {k};
      DistinctClients(r);
      assert m.Values == r.Values + {m[k]} by {
        forall x | x in m.Values ensures x in r.Values + {m[k]} {
          var j :| j in m && m[j] == x;
          if j != k {
            assert r[j] == x;
          }
        }
        forall x | x in r.Values ensures x in m.Values {
          var j :| j in r && r[j] == x;
          assert m[j] == x;
        }
      }
      assert m[k] !in r.Values;
      assert m.Keys == r.Keys + {k};
    }
  }

  /** In a well-formed table the count summed over topics is the number of
      distinct registered clients: no client is in two slots. */
  lemma {:induction false} TotalIsMembers(t: Table)
    requires WellFormed(t)
    ensures Total(t) == |Members(t)|
    decreases t.Keys
  {
    if t != map[] {
      var n :| n in t;
      var r := t - {n};
      TotalRemove(t, n);
      TotalIsMembers(r);
      DistinctClients(t[n]);
      assert Members(t) == Members(r) + t[n].Values by {
        forall x | x in Members(t) ensures x in Members(r) + t[n].Values {
          var a, b :| a in t && b in t[a] && t[a][b] == x;
          if a != n {
            assert r[a][b] == x;
          }
        }
        forall x | x in t[n].Values ensures x in Members(t) {
          var b :| b in t[n] && t[n][b] == x;
        }
      }
      assert Members(r) !! t[n].Values by {
        forall x | x in Members(r) ensures x.channel != n {
          var a, b :| a in r && b in r[a] && r[a][b] == x;
        }
      }
    }
  }

  /** In a well-formed table there are at least as many clients as topics. */
  lemma {:induction false} TotalAtLeastTopics(t: Table)
    requires WellFormed(t)
    ensures Total(t) >= |t|
    decreases t.Keys
  {
    if t != map[] {
      var n :| n in t;
      TotalRemove(t, n);
      TotalAtLeastTopics(t - {n});
      assert (t - {n}).Keys == t.Keys - {n};
    }
  }
}
