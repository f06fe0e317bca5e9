/**
  The threaded servers' shared table of client streams, and their per-client
  loop.  The two threaded servers (`myrustchat/src/bin/server.rs` and
  `hw-05/src/bin/server.rs`) have the same table, broadcast and loop; they
  differ only in logging.  They relay bare chat messages, with no login and
  no sender check.

  The table sits behind a `Mutex`; the only lock behaviour modelled is
  poisoning: a poisoned lock makes every operation fail with `MutexPoisoned`
  and leaves the table as it was.  A stream is represented by the messages
  written on it.
*/
module ClientsTable {
  import opened Wrappers
  import opened Framing
  import opened Protocol
  import opened Net

  /** The messages written so far on one client's stream. */
  type Outbox = seq<ChatMessage>

  /** `ServerError`, plus the socket errors `?` propagates from `try_clone`. */
  datatype ServerError = MutexPoisoned | BrokenStream | StreamError

  /** The table and the state of its lock. */
  datatype Table = Table(poisoned: bool, clients: map<SocketAddr, Outbox>)

  /** An operation's result and the table it leaves. */
  datatype Update = Update(result: Result<(), ServerError>, table: Table)

  /** `add_client`: lock, clone the stream, insert or replace the entry. */
  function AddClient(t: Table, addr: SocketAddr, cloneOk: bool): (r: Update)
    ensures t.poisoned ==> r == Update(Err(MutexPoisoned), t)
    ensures !t.poisoned && !cloneOk ==> r == Update(Err(StreamError), t)
    ensures r.result.Ok? <==> !t.poisoned && cloneOk
    ensures r.result.Ok? ==>
              && r.table.clients.Keys == t.clients.Keys + {addr}
              && r.table.clients[addr] == []
              && (forall a :: a in t.clients && a != addr ==> r.table.clients[a] == t.clients[a])
    ensures r.table.poisoned == t.poisoned
  {
    if t.poisoned then Update(Err(MutexPoisoned), t)
    else if !cloneOk then Update(Err(StreamError), t)
    else Update(Ok(()), t.(clients := t.clients[addr := []]))
  }

  /** `remove_client`: delete `addr`; nothing happens if it is absent. */
  function RemoveClient(t: Table, addr: SocketAddr): (r: Update)
    ensures t.poisoned ==> r == Update(Err(MutexPoisoned), t)
    ensures !t.poisoned ==>
              && r.result.Ok?
              && r.table.clients.Keys == t.clients.Keys - {addr}
              && (forall a :: a in r.table.clients ==> r.table.clients[a] == t.clients[a])
    ensures addr !in t.clients ==> r.table == t
  {
    if t.poisoned then Update(Err(MutexPoisoned), t)
    else Update(Ok(()), t.(clients := t.clients - {addr}))
  }

  /**
    `for_each`: `HashMap::retain` under the lock.  The callback sees each
    entry once, may write to its stream, and says whether to keep it.
  */
  function ForEach(t: Table, callback: (SocketAddr, Outbox) -> (bool, Outbox)): (r: Update)
    ensures t.poisoned ==> r == Update(Err(MutexPoisoned), t)
    ensures !t.poisoned ==> r.result.Ok? && r.table.poisoned == t.poisoned
    ensures !t.poisoned ==> forall a :: a in t.clients ==> (a in r.table.clients <==> callback(a, t.clients[a]).0)
    ensures !t.poisoned ==> r.table.clients.Keys <= t.clients.Keys
    ensures !t.poisoned ==> forall a :: a in r.table.clients ==> r.table.clients[a] == callback(a, t.clients[a]).1
  {
    if t.poisoned then Update(Err(MutexPoisoned), t)
    else
      var kept := map a | a in t.clients && callback(a, t.clients[a]).0 :: callback(a, t.clients[a]).1;
      Update(Ok(()), t.(clients := kept))
  }

  /** The closure `broadcast_message` hands to `for_each`. */
  function Forward(author: SocketAddr, message: ChatMessage, failing: set<SocketAddr>): (SocketAddr, Outbox) -> (bool, Outbox)
  {
    (a: SocketAddr, out: Outbox) =>
      if a == author then (true, out)
      else if a in failing then (false, out)
      else (true, out + [message])
  }

  /**
    `broadcast_message`: the author is kept and not written to; every other
    client is written to once and kept exactly when its write succeeds.
  */
  function BroadcastMessage(author: SocketAddr, t: Table, message: ChatMessage, failing: set<SocketAddr>): (r: Update)
    ensures t.poisoned ==> r == Update(Err(MutexPoisoned), t)
    ensures !t.poisoned ==> r.result.Ok?
    ensures !t.poisoned ==> r.table.clients.Keys == t.clients.Keys - (failing - {author})
    ensures !t.poisoned && author in t.clients ==> r.table.clients[author] == t.clients[author]
    ensures !t.poisoned ==> forall a :: a in r.table.clients && a != author ==> r.table.clients[a] == t.clients[a] + [message]
  {
    ForEach(t, Forward(author, message, failing))
  }

  /** One read of the client loop, with the recipients whose write fails if the read message is broadcast. */
  datatype Event = Event(read: Result<ChatMessage, ProtocolError>, failing: set<SocketAddr>)

  /**
    The loop of `receive_messages` after registration: every message read
    is broadcast; a malformed one is skipped; an IOError (or the peer
    closing) removes the client and ends with `BrokenStream`.
  */
  function MessageLoop(t: Table, addr: SocketAddr, inbound: seq<Event>): (r: Update)
    ensures r.result.Err?
    ensures t.poisoned ==> r == Update(Err(MutexPoisoned), t)
    ensures !t.poisoned ==> r.result == Err(BrokenStream) && addr !in r.table.clients
    ensures r.table.clients.Keys <= t.clients.Keys
    decreases |inbound|
  {
    if |inbound| == 0 || inbound[0].read == Err(IOError) then
      var removed := RemoveClient(t, addr);
      if removed.result.Err? then removed else Update(Err(BrokenStream), removed.table)
    else
      match inbound[0].read
      case Err(_) => MessageLoop(t, addr, inbound[1..])
      case Ok(m) =>
        var sent := BroadcastMessage(addr, t, m, inbound[0].failing);
        if sent.result.Err? then sent else MessageLoop(sent.table, addr, inbound[1..])
  }

  /**
    `receive_messages`: the accepted stream and its peer address must be
    available (`peer` is `None` when accepting failed or `peer_addr` did);
    the stream is registered before anything is read, then the loop runs.
  */
  function ReceiveMessages(t: Table, peer: Option<SocketAddr>, cloneOk: bool, inbound: seq<Event>): (r: Update)
    ensures r.result.Err?
    ensures peer.None? ==> r == Update(Err(StreamError), t)
    ensures peer.Some? && t.poisoned ==> r == Update(Err(MutexPoisoned), t)
    ensures peer.Some? && !t.poisoned && !cloneOk ==> r == Update(Err(StreamError), t)
    ensures peer.Some? && !t.poisoned && cloneOk ==> r.result == Err(BrokenStream) && peer.value !in r.table.clients
    ensures peer.Some? ==> r.table.clients.Keys <= t.clients.Keys + {peer.value}
  {
    match peer
    case None => Update(Err(StreamError), t)
    case Some(addr) =>
      var added := AddClient(t, addr, cloneOk);
      if added.result.Err? then added else MessageLoop(added.table, addr, inbound)
  }

  /** The messages the loop relays: those it read successfully, before the first IOError. */
  function Relayed(inbound: seq<Event>): (r: seq<ChatMessage>)
    ensures |r| <= |inbound|
    ensures forall m :: m in r ==> exists k :: 0 <= k < |inbound| && inbound[k].read == Ok(m)
    decreases |inbound|
  {
    if |inbound| == 0 || inbound[0].read == Err(IOError) then []
    else
      var rest := Relayed(inbound[1..]);
      assert forall k :: 0 <= k < |inbound[1..]| ==> inbound[1..][k] == inbound[k + 1];
      if inbound[0].read.Err? then rest else [inbound[0].read.value] + rest
  }

  /** Before an IOError, relaying goes read by read: it commutes with concatenation. */
  lemma {:induction false} RelayedAppend(s: seq<Event>, u: seq<Event>)
    requires forall k :: 0 <= k < |s| ==> s[k].read != Err(IOError)
    ensures Relayed(s + u) == Relayed(s) + Relayed(u)
    decreases |s|
  {
    if |s| == 0 {
      assert s + u == u;
    } else {
      assert (s + u)[0] == s[0];
      assert (s + u)[1..] == s[1..] + u;
      RelayedAppend(s[1..], u);
    }
  }

  /** Nothing read after an IOError is relayed. */
  lemma {:induction false} RelayedStopsAtIOError(s: seq<Event>, e: Event, u: seq<Event>)
    requires e.read == Err(IOError)
    ensures Relayed(s + [e] + u) == Relayed(s)
    decreases |s|
  {
    if |s| == 0 {
      assert s + [e] + u == [e] + u;
    } else {
      assert (s + [e] + u)[0] == s[0];
      assert (s + [e] + u)[1..] == s[1..] + [e] + u;
      RelayedStopsAtIOError(s[1..], e, u);
    }
  }

  /** The clients evicted along the way: those whose write of a relayed message failed, never the author. */
  function EvictedBy(addr: SocketAddr, inbound: seq<Event>): set<SocketAddr>
    decreases |inbound|
  {
    if |inbound| == 0 || inbound[0].read == Err(IOError) then {}
    else if inbound[0].read.Err? then EvictedBy(addr, inbound[1..])
    else (inbound[0].failing - {addr}) + EvictedBy(addr, inbound[1..])
  }

  /**
    On an unpoisoned table every other client that survives the loop has
    received exactly the relayed messages, in order, after what it had
    before; the loop writes nothing else.
  */
  lemma {:induction false} LoopRelaysInOrder(t: Table, addr: SocketAddr, inbound: seq<Event>)
    requires !t.poisoned
    ensures var r := MessageLoop(t, addr, inbound);
            forall a :: a in r.table.clients && a != addr ==> r.table.clients[a] == t.clients[a] + Relayed(inbound)
    decreases |inbound|
  {
    var r := MessageLoop(t, addr, inbound);
    if |inbound| == 0 || inbound[0].read == Err(IOError) {
    } else if inbound[0].read.Err? {
      LoopRelaysInOrder(t, addr, inbound[1..]);
    } else {
      var m := inbound[0].read.value;
      var sent := BroadcastMessage(addr, t, m, inbound[0].failing);
      LoopRelaysInOrder(sent.table, addr, inbound[1..]);
      forall a | a in r.table.clients && a != addr
        ensures r.table.clients[a] == t.clients[a] + Relayed(inbound)
      {
        assert r.table.clients[a] == sent.table.clients[a] + Relayed(inbound[1..]);
        assert sent.table.clients[a] == t.clients[a] + [m];
      }
    }
  }

  /**
    On an unpoisoned table the loop ends with exactly the clients it
    started with, less the client itself and those whose write of some
    relayed message failed.
  */
  lemma {:induction false} LoopEvicts(t: Table, addr: SocketAddr, inbound: seq<Event>)
    requires !t.poisoned
    ensures MessageLoop(t, addr, inbound).table.clients.Keys == t.clients.Keys - {addr} - EvictedBy(addr, inbound)
    decreases |inbound|
  {
    if |inbound| > 0 && inbound[0].read != Err(IOError) {
      if inbound[0].read.Err? {
        LoopEvicts(t, addr, inbound[1..]);
      } else {
        var sent := BroadcastMessage(addr, t, inbound[0].read.value, inbound[0].failing);
        LoopEvicts(sent.table, addr, inbound[1..]);
      }
    }
  }

  /** A malformed message is skipped: it changes neither the table nor the outcome. */
  lemma {:induction false} MalformedIsSkipped(t: Table, addr: SocketAddr, e: Event, inbound: seq<Event>)
    requires e.read == Err(MalformedMessage)
    ensures MessageLoop(t, addr, [e] + inbound) == MessageLoop(t, addr, inbound)
  {
    assert ([e] + inbound)[1..] == inbound;
  }
}
