/**
 * The WebSocket hub (handlers/websocket.go): the set of connected clients,
 * each client's bounded outbound mailbox, and the three membership
 * operations that the hub's single goroutine runs one at a time under its
 * mutex. Each operation is modelled by its serialized effect.
 */
module Hub {

  /** A message payload, relayed as opaque bytes. */
  type Bytes = seq<bv8>

  /** Capacity of every client's `send` mailbox. */
  const Capacity: nat := 256

  /** What the writer puts on the wire. */
  datatype Frame = TextFrame(payload: Bytes) | CloseFrame

  /** The text frames that carry `msgs`, in order. */
  function TextFrames(msgs: seq<Bytes>): (frames: seq<Frame>)
    ensures |frames| == |msgs|
    ensures forall i :: 0 <= i < |msgs| ==> frames[i] == TextFrame(msgs[i])
  {
    if msgs == [] then [] else [TextFrame(msgs[0])] + TextFrames(msgs[1..])
  }

  /** Writing two batches one after the other puts their frames on the wire in that order. */
  lemma {:induction false} TextFramesAppend(a: seq<Bytes>, b: seq<Bytes>)
    ensures TextFrames(a + b) == TextFrames(a) + TextFrames(b)
  {
    if a == [] {
      assert a + b == b;
    } else {
      assert (a + b)[1..] == a[1..] + b;
      TextFramesAppend(a[1..], b);
    }
  }

  /**
   * One connected client. Its `send` channel is a queue of at most
   * `Capacity` payloads that can be closed once; each client owns its own
   * channel, so the queue's state lives in the client.
   */
  class Client {
    const userID: nat
    const username: string
    var mailbox: seq<Bytes>
    var closed: bool

    ghost predicate Valid()
      reads this
    {
      |mailbox| <= Capacity
    }

    /** A freshly upgraded connection with an empty, open mailbox. */
    constructor (userID: nat, username: string)
      ensures Valid()
      ensures this.userID == userID && this.username == username
      ensures mailbox == [] && !closed
    {
      this.userID := userID;
      this.username := username;
      mailbox := [];
      closed := false;
    }

    /**
     * Non-blocking send: enqueues `m` unless the mailbox is full. Sending on
     * a closed channel panics in Go, hence the precondition.
     */
    method TrySend(m: Bytes) returns (sent: bool)
      requires Valid() && !closed
      modifies this
      ensures Valid() && !closed
      ensures sent <==> |old(mailbox)| < Capacity
      ensures mailbox == if sent then old(mailbox) + [m] else old(mailbox)
    {
      sent := |mailbox| < Capacity;
      if sent {
        mailbox := mailbox + [m];
      }
    }

    /**
     * Closes the channel. Closing a closed channel panics in Go, so every
     * caller must show the mailbox is still open: this is how the model
     * proves a mailbox is closed at most once.
     */
    method Close()
      requires !closed
      modifies this
      ensures closed && mailbox == old(mailbox)
    {
      closed := true;
    }

    /**
     * Receive with Go's closed-channel semantics: buffered payloads come out
     * first, oldest first, even after the close; only an empty closed
     * channel reports `ok == false`. An empty open channel would block, so
     * the writer calls this only when one of the two holds.
     */
    method Receive() returns (m: Bytes, ok: bool)
      requires Valid() && (mailbox != [] || closed)
      modifies this
      ensures Valid() && closed == old(closed)
      ensures ok <==> old(mailbox) != []
      ensures ok ==> m == old(mailbox)[0] && mailbox == old(mailbox)[1..]
      ensures !ok ==> mailbox == old(mailbox)
    {
      if mailbox != [] {
        m, ok := mailbox[0], true;
        mailbox := mailbox[1..];
      } else {
        m, ok := [], false;
      }
    }
  }

  /**
   * The writer of one client: drains its mailbox to the wire in FIFO order.
   * The transport accepts `accepted` text-frame writes; the next one fails,
   * and the payload that was being written is lost. When the mailbox is
   * closed and everything buffered has been written, a close frame ends the
   * writer; that write is best effort (its error is ignored), so `accepted`
   * does not limit it.
   * When the mailbox is open and empty, the writer is left waiting
   * (`stopped == false`).
   */
  method WritePump(c: Client, accepted: nat) returns (wire: seq<Frame>, stopped: bool)
    requires c.Valid()
    modifies c
    ensures c.Valid() && c.closed == old(c.closed)
    ensures accepted >= |old(c.mailbox)| ==>
              && c.mailbox == []
              && stopped == old(c.closed)
              && wire == TextFrames(old(c.mailbox)) + (if old(c.closed) then [CloseFrame] else [])
    ensures accepted < |old(c.mailbox)| ==>
              && c.mailbox == old(c.mailbox)[accepted + 1..]
              && stopped
              && wire == TextFrames(old(c.mailbox)[..accepted])
  {
    ghost var q := c.mailbox;
    wire, stopped := [], false;
    var written := 0;
    while !stopped && (c.mailbox != [] || c.closed)
      invariant c.Valid() && c.closed == old(c.closed)
      invariant written <= accepted && written <= |q|
      invariant !stopped ==> c.mailbox == q[written..] && wire == TextFrames(q[..written])
      invariant stopped ==>
                  || (written == |q| && c.closed && c.mailbox == [] && wire == TextFrames(q) + [CloseFrame])
                  || (written == accepted < |q| && c.mailbox == q[accepted + 1..] && wire == TextFrames(q[..accepted]))
      decreases |c.mailbox| + (if stopped then 0 else 1)
    {
      var m, ok := c.Receive();
      if !ok {
        assert q[..written] == q;
        wire := wire + [CloseFrame];
        stopped := true;
      } else if written == accepted {
        stopped := true;
      } else {
        assert q[..written + 1] == q[..written] + [m];
        TextFramesAppend(q[..written], [m]);
        wire := wire + [TextFrame(m)];
        written := written + 1;
      }
    }
    if !stopped {
      assert q[..written] == q;
    }
  }

  /**
   * The registry of connected clients (the package-level `clients` map,
   * with `true` for every key, so a set).
   */
  class Registry {
    var clients: set<Client>

    /** Every member has an open mailbox holding at most `Capacity` payloads. */
    ghost predicate Valid()
      reads this, clients
    {
      forall c :: c in clients ==> c.Valid() && !c.closed
    }

    /** The members whose mailbox is full: a broadcast evicts exactly these. */
    ghost function FullMembers(): set<Client>
      reads this, clients
    {
      set c | c in clients && |c.mailbox| >= Capacity
    }

    constructor ()
      ensures Valid() && clients == {}
    {
      clients := {};
    }

    /** The register case: adds exactly `c`; no mailbox changes. */
    method Register(c: Client)
      requires Valid() && c.Valid() && !c.closed
      modifies this
      ensures Valid()
      ensures clients == old(clients) + {c}
    {
      clients := clients + {c};
    }

    /**
     * The unregister case: a member is removed and its mailbox closed; for a
     * non-member nothing happens, so a second unregister is a no-op.
     */
    method Unregister(c: Client)
      requires Valid()
      modifies this, c
      ensures Valid()
      ensures clients == old(clients) - {c}
      ensures c in old(clients) ==> c.closed && c.mailbox == old(c.mailbox)
      ensures c !in old(clients) ==> unchanged(c)
    {
      if c in clients {
        clients := clients - {c};
        c.Close();
      }
    }

    /**
     * Fan-out of one message, visiting the members in an arbitrary order:
     * every member with room gets `m` at the tail of its mailbox; every
     * member whose mailbox is full is closed and evicted without receiving it.
     */
    method Broadcast(m: Bytes)
      requires Valid()
      modifies this, clients
      ensures Valid()
      ensures clients == old(clients) - old(FullMembers())
      ensures forall c :: c in old(clients) && |old(c.mailbox)| < Capacity ==>
                c.mailbox == old(c.mailbox) + [m] && !c.closed
      ensures forall c :: c in old(clients) && |old(c.mailbox)| >= Capacity ==>
                c.mailbox == old(c.mailbox) && c.closed
    {
      var todo := clients;
      ghost var evicted: set<Client> := {};
      while todo != {}
        invariant todo <= old(clients) && evicted <= old(clients)
        invariant todo !! evicted
        invariant clients == old(clients) - evicted
        invariant forall c :: c in evicted <==> c in old(clients) && c !in todo && |old(c.mailbox)| >= Capacity
        invariant forall c :: c in todo ==> c.mailbox == old(c.mailbox) && !c.closed
        invariant forall c :: c in old(clients) && c !in todo && |old(c.mailbox)| < Capacity ==>
                    c.mailbox == old(c.mailbox) + [m] && !c.closed
        invariant forall c :: c in evicted ==> c.mailbox == old(c.mailbox) && c.closed
        invariant forall c :: c in old(clients) ==> c.Valid()
        decreases todo
      {
        var c :| c in todo;
        todo := todo - {c};
        var sent := c.TrySend(m);
        if !sent {
          c.Close();
          clients := clients - {c};
          evicted := evicted + {c};
        }
      }
      assert evicted == old(FullMembers());
    }
  }

  /**
   * The connection handler after authentication: when the upgrade succeeds,
   * a client with an empty mailbox is created and registered; when it fails,
   * nothing is created.
   */
  method HandleWebSocket(hub: Registry, userID: nat, username: string, upgradeSucceeds: bool)
    returns (c: Client?)
    requires hub.Valid()
    modifies hub
    ensures hub.Valid()
    ensures upgradeSucceeds ==>
              c != null && fresh(c) && c.mailbox == [] && !c.closed
              && c.userID == userID && c.username == username
              && hub.clients == old(hub.clients) + {c}
    ensures !upgradeSucceeds ==> c == null && hub.clients == old(hub.clients)
  {
    if !upgradeSucceeds {
      return null;
    }
    c := new Client(userID, username);
    hub.Register(c);
  }

  /**
   * A client that never drains its mailbox is evicted, and its mailbox
   * closed, when more messages than the room left in its mailbox are
   * broadcast one after the other; the broadcasts after its eviction leave
   * it untouched.
   */
  method SlowConsumerIsEvicted(hub: Registry, c: Client, msgs: seq<Bytes>)
    requires hub.Valid() && c in hub.clients
    requires |msgs| > Capacity - |c.mailbox|
    modifies hub, hub.clients
    ensures hub.Valid()
    ensures c !in hub.clients && c.closed
    ensures hub.clients <= old(hub.clients)
    ensures c.mailbox == old(c.mailbox) + msgs[..Capacity - |old(c.mailbox)|]
  {
    ghost var start := c.mailbox;
    var i := 0;
    while i < |msgs|
      invariant hub.Valid()
      invariant 0 <= i <= |msgs|
      invariant hub.clients <= old(hub.clients)
      invariant c in hub.clients ==> c.mailbox == start + msgs[..i] && i <= Capacity - |start|
      invariant c !in hub.clients ==> c.closed && c.mailbox == start + msgs[..Capacity - |start|]
    {
      assert msgs[..i + 1] == msgs[..i] + [msgs[i]];
      hub.Broadcast(msgs[i]);
      i := i + 1;
    }
  }

  /**
   * Two clients join and receive "hello"; the first one's connection then
   * ends, its reader unregisters it, and "world" reaches only the second.
   */
  method HelloWorld(hub: Registry, hello: Bytes, world: Bytes)
    requires hub.Valid() && hub.clients == {}
    modifies hub
  {
    var a := new Client(1, "a");
    var b := new Client(2, "b");
    hub.Register(a);
    hub.Register(b);
    hub.Broadcast(hello);
    assert a.mailbox == [hello] && b.mailbox == [hello];
    hub.Unregister(a);
    assert a.closed && hub.clients == {b};
    hub.Broadcast(world);
    assert a.mailbox == [hello] && b.mailbox == [hello, world];
    hub.Unregister(a);
    assert hub.clients == {b} && a.mailbox == [hello];
  }
}
