/**
  The session registry of the asynchronous server: the table of outbound
  socket halves and the table of authenticated usernames, both keyed by the
  peer address, and the broadcast that fans a message out over them.

  Each operation runs under the tables' locks, so it is modelled as one
  atomic step.  A socket half is represented by what has been written on it.
*/
module Registry {
  import opened Wrappers
  import opened Protocol
  import opened Net

  /** The datagrams written so far on one connection's outbound half. */
  type Outbox = seq<Datagram>

  /** `ServerContext` without its database handle. */
  datatype ServerContext = ServerContext(sockets: map<SocketAddr, Outbox>, usernames: map<SocketAddr, string>)

  /** `ServerError`. */
  datatype ServerError = MutexPoisoned | BrokenStream | LoginError | SpoofingError

  /** Every connection that can be written to has an authenticated username. */
  ghost predicate Consistent(ctx: ServerContext)
  {
    ctx.sockets.Keys <= ctx.usernames.Keys
  }

  /** `add_client`: inserts, or replaces, the entry for `addr` in both tables. */
  function AddClient(ctx: ServerContext, addr: SocketAddr, username: string, handle: Outbox): (r: ServerContext)
    ensures r.sockets.Keys == ctx.sockets.Keys + {addr}
    ensures r.usernames.Keys == ctx.usernames.Keys + {addr}
    ensures r.sockets[addr] == handle && r.usernames[addr] == username
    ensures forall a :: a in ctx.sockets && a != addr ==> r.sockets[a] == ctx.sockets[a]
    ensures forall a :: a in ctx.usernames && a != addr ==> r.usernames[a] == ctx.usernames[a]
    ensures Consistent(ctx) ==> Consistent(r)
  {
    ServerContext(ctx.sockets[addr := handle], ctx.usernames[addr := username])
  }

  /** `remove_client`: deletes `addr` from both tables; nothing happens if it is absent. */
  function RemoveClient(ctx: ServerContext, addr: SocketAddr): (r: ServerContext)
    ensures r.sockets.Keys == ctx.sockets.Keys - {addr}
    ensures r.usernames.Keys == ctx.usernames.Keys - {addr}
    ensures forall a :: a in r.sockets ==> r.sockets[a] == ctx.sockets[a]
    ensures forall a :: a in r.usernames ==> r.usernames[a] == ctx.usernames[a]
    ensures addr !in ctx.sockets && addr !in ctx.usernames ==> r == ctx
    ensures Consistent(ctx) ==> Consistent(r)
  {
    ServerContext(ctx.sockets - {addr}, ctx.usernames - {addr})
  }

  /** Adding and then removing a connection leaves the registry as removing it alone would. */
  lemma {:induction false} RemoveUndoesAdd(ctx: ServerContext, addr: SocketAddr, username: string, handle: Outbox)
    ensures RemoveClient(AddClient(ctx, addr, username, handle), addr) == RemoveClient(ctx, addr)
  {
    var lhs := RemoveClient(AddClient(ctx, addr, username, handle), addr);
    var rhs := RemoveClient(ctx, addr);
    assert lhs.sockets.Keys == rhs.sockets.Keys;
    assert lhs.usernames.Keys == rhs.usernames.Keys;
  }

  /** `verify_message_sender`: accepted exactly when the message claims the verified username. */
  function VerifyMessageSender(verifiedUsername: string, message: ChatMessage): (r: Result<(), ServerError>)
    ensures r.Ok? <==> message.sender == verifiedUsername
    ensures r.Err? ==> r.error == SpoofingError
  {
    if message.sender == verifiedUsername then Ok(()) else Err(SpoofingError)
  }

  /**
    The table `broadcast_message` leaves behind, given the addresses whose
    write fails: the author's entry untouched, every other entry either
    evicted (its write failed) or extended by the message.
  */
  function Broadcast(sockets: map<SocketAddr, Outbox>, author: SocketAddr, message: ChatMessage, failing: set<SocketAddr>)
    : (r: map<SocketAddr, Outbox>)
    ensures r.Keys == sockets.Keys - (failing - {author})
    ensures author in sockets ==> r[author] == sockets[author]
    ensures forall a :: a in r && a != author ==> r[a] == sockets[a] + [Message(message)]
  {
    map a | a in sockets && (a == author || a !in failing) ::
      if a == author then sockets[a] else sockets[a] + [Message(message)]
  }

  /**
    `broadcast_message`: one pass over the socket table, skipping the author,
    writing to every other connection and collecting those whose write fails;
    the failed ones are removed after the pass.  The usernames table is not
    touched and the result is always `Ok`.
  */
  method BroadcastMessage(ctx: ServerContext, author: SocketAddr, message: ChatMessage, failing: set<SocketAddr>)
    returns (r: ServerContext, attempted: set<SocketAddr>, result: Result<(), ServerError>)
    ensures result == Ok(())
    ensures attempted == ctx.sockets.Keys - {author}
    ensures r.usernames == ctx.usernames
    ensures r.sockets == Broadcast(ctx.sockets, author, message, failing)
  {
    var clients := ctx.sockets;
    var pending := ctx.sockets.Keys;
    var toRemove: set<SocketAddr> := {};
    attempted := {};
    while pending != {}
      invariant pending <= ctx.sockets.Keys
      invariant clients.Keys == ctx.sockets.Keys
      invariant attempted == ctx.sockets.Keys - pending - {author}
      invariant toRemove == attempted * failing
      invariant forall a :: a in clients ==>
                  clients[a] == if a in attempted && a !in failing then ctx.sockets[a] + [Message(message)] else ctx.sockets[a]
      decreases pending
    {
      var a :| a in pending;
      pending := pending - {a};
      if a != author {
        attempted := attempted + {a};
        if a in failing {
          toRemove := toRemove + {a};
        } else {
          clients := clients[a := clients[a] + [Message(message)]];
        }
      }
    }
    clients := clients - toRemove;
    r := ctx.(sockets := clients);
    result := Ok(());
  }

  /** A broadcast keeps the registry consistent: it only removes writable connections. */
  lemma {:induction false} BroadcastKeepsConsistent(ctx: ServerContext, author: SocketAddr, message: ChatMessage, failing: set<SocketAddr>)
    requires Consistent(ctx)
    ensures Consistent(ctx.(sockets := Broadcast(ctx.sockets, author, message, failing)))
  {
    var after := Broadcast(ctx.sockets, author, message, failing);
    assert after.Keys <= ctx.sockets.Keys;
  }
}
