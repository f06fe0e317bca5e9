/**
  The per-connection task of the asynchronous server (`receive_datagrams`):
  Unauthenticated, then Authenticated, then Closed.

  The task is driven by a sequence of events, one per read: the read's
  result, the recipients whose write of that message fails, and whether
  storing it succeeds.  Running out of events is the peer closing the
  connection, which the reader reports as an IOError.  The credential check
  and the writes of the login response are oracles.  Other connections'
  tasks are not interleaved.
*/
module ConnectionHandler {
  import opened Wrappers
  import opened Framing
  import opened Protocol
  import opened Net
  import opened Registry

  /** `check_auth`: `Ok(true)`, `Ok(false)`, or a database error. */
  datatype AuthAnswer = Granted | Denied | AuthUnavailable

  /** Why the task ended. */
  datatype HandlerError =
    | ReadFailed(cause: ProtocolError)     // the login read failed
    | AuthCheckFailed                      // `check_auth` returned an error
    | ResponseFailed                       // writing the login response failed
    | Rejected(error: ServerError)         // `LoginError`, `SpoofingError` or `BrokenStream`
    | StoreFailed                          // `store_message` returned an error

  /** The answers of everything outside the task during the login. */
  datatype Oracles = Oracles(
    auth: (string, string) -> AuthAnswer,
    responseOk: bool)

  type ReadResult = Result<Datagram, ProtocolError>

  /**
    One read of the task and what the world does while it is handled: the
    recipients whose write fails and whether `store_message` succeeds, when
    the read is a message to broadcast (ignored otherwise).
  */
  datatype Event = Event(read: ReadResult, failing: set<SocketAddr>, storeOk: bool)

  /** The end of the authenticated loop: the registry, the cause, and the messages persisted. */
  datatype Closed = Closed(ctx: ServerContext, error: HandlerError, stored: seq<ChatMessage>)

  /** A whole run: also the responses written before registration and the authenticated user, if any. */
  datatype HandlerRun = HandlerRun(
    ctx: ServerContext,
    error: HandlerError,
    replies: seq<ServerResponse>,
    user: Option<string>,
    stored: seq<ChatMessage>)

  /**
    Nothing but messages from `user` is written by the task: no connection
    is added, the author's own entry is left alone, and every other
    connection's outbox only grows, by messages whose sender is `user`.
  */
  ghost predicate DeliveredOnlyFrom(before: map<SocketAddr, Outbox>, after: map<SocketAddr, Outbox>, author: SocketAddr, user: string)
  {
    && after.Keys <= before.Keys
    && (author in after ==> after[author] == before[author])
    && forall a :: a in after ==>
         && before[a] <= after[a]
         && forall d :: d in after[a][|before[a]|..] ==> d.Message? && d.message.sender == user
  }

  lemma {:induction false} DeliveredOnlyFromTransitive(m0: map<SocketAddr, Outbox>, m1: map<SocketAddr, Outbox>, m2: map<SocketAddr, Outbox>,
                                                       author: SocketAddr, user: string)
    requires DeliveredOnlyFrom(m0, m1, author, user)
    requires DeliveredOnlyFrom(m1, m2, author, user)
    ensures DeliveredOnlyFrom(m0, m2, author, user)
  {
    forall a | a in m2
      ensures m0[a] <= m2[a]
      ensures forall d :: d in m2[a][|m0[a]|..] ==> d.Message? && d.message.sender == user
    {
      var s0, s1, s2 := m0[a], m1[a], m2[a];
      assert s2[|s0|..] == s1[|s0|..] + s2[|s1|..];
    }
  }

  lemma {:induction false} DeliveredOnlyFromReflexive(m: map<SocketAddr, Outbox>, author: SocketAddr, user: string)
    ensures DeliveredOnlyFrom(m, m, author, user)
  {
    forall a | a in m
      ensures forall d :: d in m[a][|m[a]|..] ==> d.Message? && d.message.sender == user
    {
      assert m[a][|m[a]|..] == [];
    }
  }

  lemma {:induction false} BroadcastDeliversOnlyFrom(sockets: map<SocketAddr, Outbox>, author: SocketAddr, m: ChatMessage, failing: set<SocketAddr>)
    ensures DeliveredOnlyFrom(sockets, Broadcast(sockets, author, m, failing), author, m.sender)
  {
    var after := Broadcast(sockets, author, m, failing);
    forall a | a in after
      ensures sockets[a] <= after[a]
      ensures forall d :: d in after[a][|sockets[a]|..] ==> d.Message? && d.message.sender == m.sender
    {
      if a == author {
        assert after[a][|sockets[a]|..] == [];
      } else {
        assert after[a][|sockets[a]|..] == [Message(m)];
      }
    }
  }

  lemma {:induction false} RemoveDeliversNothing(sockets: map<SocketAddr, Outbox>, author: SocketAddr, user: string)
    ensures DeliveredOnlyFrom(sockets, sockets - {author}, author, user)
  {
    DeliveredOnlyFromReflexive(sockets, author, user);
  }

  /**
    The authenticated loop.  A `Message` must carry the authenticated
    username; it is then broadcast and persisted.  Any other datagram and any
    malformed one is ignored.  An IOError removes the connection from both
    tables and ends the task with `BrokenStream`.
  */
  function MessageLoop(ctx: ServerContext, addr: SocketAddr, user: string, inbound: seq<Event>): (r: Closed)
    ensures r.error in {Rejected(BrokenStream), Rejected(SpoofingError), StoreFailed}
    ensures |inbound| == 0 || inbound[0].read == Err(IOError) ==>
              r == Closed(RemoveClient(ctx, addr), Rejected(BrokenStream), [])
    ensures forall m :: m in r.stored ==> m.sender == user
    ensures r.error == Rejected(BrokenStream) ==> addr !in r.ctx.sockets && addr !in r.ctx.usernames
    ensures r.error != Rejected(BrokenStream) ==> (addr in ctx.sockets ==> addr in r.ctx.sockets)
    ensures r.error != Rejected(BrokenStream) ==> r.ctx.usernames == ctx.usernames
    ensures r.ctx.usernames.Keys <= ctx.usernames.Keys
    ensures DeliveredOnlyFrom(ctx.sockets, r.ctx.sockets, addr, user)
    ensures Consistent(ctx) ==> Consistent(r.ctx)
    decreases |inbound|
  {
    if |inbound| == 0 || inbound[0].read == Err(IOError) then
      RemoveDeliversNothing(ctx.sockets, addr, user);
      Closed(RemoveClient(ctx, addr), Rejected(BrokenStream), [])
    else
      match inbound[0].read
      case Ok(Message(m)) =>
        if VerifyMessageSender(user, m).Err? then
          DeliveredOnlyFromReflexive(ctx.sockets, addr, user);
          Closed(ctx, Rejected(SpoofingError), [])
        else
          var next := ctx.(sockets := Broadcast(ctx.sockets, addr, m, inbound[0].failing));
          BroadcastDeliversOnlyFrom(ctx.sockets, addr, m, inbound[0].failing);
          if !inbound[0].storeOk then
            Closed(next, StoreFailed, [])
          else
            var rest := MessageLoop(next, addr, user, inbound[1..]);
            DeliveredOnlyFromTransitive(ctx.sockets, next.sockets, rest.ctx.sockets, addr, user);
            Closed(rest.ctx, rest.error, [m] + rest.stored)
      case _ =>
        MessageLoop(ctx, addr, user, inbound[1..])
  }

  /**
    The messages the loop broadcasts, in order: every message from `user`
    read before the first IOError, up to and including the first one whose
    storing fails, and stopping before the first message from anyone else.
  */
  function Broadcasts(user: string, inbound: seq<Event>): seq<ChatMessage>
    decreases |inbound|
  {
    if |inbound| == 0 || inbound[0].read == Err(IOError) then []
    else if inbound[0].read.Ok? && inbound[0].read.value.Message? then
      var m := inbound[0].read.value.message;
      if m.sender != user then []
      else if !inbound[0].storeOk then [m]
      else [m] + Broadcasts(user, inbound[1..])
    else Broadcasts(user, inbound[1..])
  }

  /** The recipients evicted along the way: those whose write of a broadcast message failed, never the author. */
  function Evicted(user: string, addr: SocketAddr, inbound: seq<Event>): set<SocketAddr>
    decreases |inbound|
  {
    if |inbound| == 0 || inbound[0].read == Err(IOError) then {}
    else if inbound[0].read.Ok? && inbound[0].read.value.Message? then
      var m := inbound[0].read.value.message;
      if m.sender != user then {}
      else if !inbound[0].storeOk then inbound[0].failing - {addr}
      else (inbound[0].failing - {addr}) + Evicted(user, addr, inbound[1..])
    else Evicted(user, addr, inbound[1..])
  }

  /** The broadcast messages as written on a socket. */
  function AsDatagrams(ms: seq<ChatMessage>): (r: seq<Datagram>)
    ensures |r| == |ms|
    ensures forall i :: 0 <= i < |ms| ==> r[i] == Message(ms[i])
  {
    seq(|ms|, i requires 0 <= i < |ms| => Message(ms[i]))
  }

  /**
    Everything broadcast is persisted, except the message whose storing
    failed when that ends the loop.
  */
  lemma {:induction false} LoopStoresBroadcasts(ctx: ServerContext, addr: SocketAddr, user: string, inbound: seq<Event>)
    ensures var r := MessageLoop(ctx, addr, user, inbound);
            var b := Broadcasts(user, inbound);
            && (r.error == StoreFailed ==> |b| > 0 && r.stored == b[..|b| - 1])
            && (r.error != StoreFailed ==> r.stored == b)
    decreases |inbound|
  {
    if |inbound| > 0 && inbound[0].read != Err(IOError) {
      var next := inbound[1..];
      if inbound[0].read.Ok? && inbound[0].read.value.Message? {
        var m := inbound[0].read.value.message;
        if m.sender == user && inbound[0].storeOk {
          var c := ctx.(sockets := Broadcast(ctx.sockets, addr, m, inbound[0].failing));
          LoopStoresBroadcasts(c, addr, user, next);
          var b := Broadcasts(user, next);
          assert |b| > 0 ==> ([m] + b)[..|b|] == [m] + b[..|b| - 1];
        }
      } else {
        LoopStoresBroadcasts(ctx, addr, user, next);
      }
    }
  }

  /**
    Every other connection that is still registered when the loop ends has
    received exactly the broadcast messages, in order.
  */
  lemma {:induction false} LoopDeliversBroadcasts(ctx: ServerContext, addr: SocketAddr, user: string, inbound: seq<Event>)
    ensures var r := MessageLoop(ctx, addr, user, inbound);
            forall a :: a in r.ctx.sockets && a != addr ==>
              r.ctx.sockets[a] == ctx.sockets[a] + AsDatagrams(Broadcasts(user, inbound))
    decreases |inbound|
  {
    var r := MessageLoop(ctx, addr, user, inbound);
    if |inbound| > 0 && inbound[0].read != Err(IOError) {
      var next := inbound[1..];
      if inbound[0].read.Ok? && inbound[0].read.value.Message? {
        var m := inbound[0].read.value.message;
        if m.sender == user {
          var c := ctx.(sockets := Broadcast(ctx.sockets, addr, m, inbound[0].failing));
          if inbound[0].storeOk {
            var rest := MessageLoop(c, addr, user, next);
            assert r.ctx == rest.ctx;
            LoopDeliversBroadcasts(c, addr, user, next);
            var b := Broadcasts(user, next);
            assert Broadcasts(user, inbound) == [m] + b;
            DeliverStep(ctx.sockets, addr, m, inbound[0].failing, rest.ctx.sockets, b);
          } else {
            assert AsDatagrams([m]) == [Message(m)];
          }
        }
      } else {
        LoopDeliversBroadcasts(ctx, addr, user, next);
      }
    } else {
      assert AsDatagrams([]) == [];
    }
  }

  /** One broadcast followed by the rest of the loop delivers the message and then the rest, in order. */
  lemma DeliverStep(sockets: map<SocketAddr, Outbox>, addr: SocketAddr, m: ChatMessage, failing: set<SocketAddr>,
                    after: map<SocketAddr, Outbox>, b: seq<ChatMessage>)
    requires after.Keys <= Broadcast(sockets, addr, m, failing).Keys
    requires forall a :: a in after && a != addr ==> after[a] == Broadcast(sockets, addr, m, failing)[a] + AsDatagrams(b)
    ensures forall a :: a in after && a != addr ==> after[a] == sockets[a] + AsDatagrams([m] + b)
  {
    assert AsDatagrams([m] + b) == [Message(m)] + AsDatagrams(b);
  }

  /**
    The connections the loop evicts are exactly those whose write of a
    broadcast message failed; the connection itself is gone exactly when
    the loop ended with `BrokenStream`.
  */
  lemma {:induction false} LoopEvicts(ctx: ServerContext, addr: SocketAddr, user: string, inbound: seq<Event>)
    ensures var r := MessageLoop(ctx, addr, user, inbound);
            r.ctx.sockets.Keys == ctx.sockets.Keys - Evicted(user, addr, inbound)
                                  - (if r.error == Rejected(BrokenStream) then {addr} else {})
    decreases |inbound|
  {
    if |inbound| > 0 && inbound[0].read != Err(IOError) {
      var next := inbound[1..];
      if inbound[0].read.Ok? && inbound[0].read.value.Message? {
        var m := inbound[0].read.value.message;
        if m.sender == user && inbound[0].storeOk {
          var c := ctx.(sockets := Broadcast(ctx.sockets, addr, m, inbound[0].failing));
          LoopEvicts(c, addr, user, next);
        }
      } else {
        LoopEvicts(ctx, addr, user, next);
      }
    }
  }

  /** `receive_datagrams`: the login exchange, then the authenticated loop. */
  function ReceiveDatagrams(ctx: ServerContext, addr: SocketAddr, inbound: seq<Event>, o: Oracles): (r: HandlerRun)
    // No registration, no persistence and nothing delivered without a successful login.
    ensures r.user.None? ==> r.ctx == ctx && r.stored == []
    ensures r.user.Some? <==>
              && |inbound| > 0 && inbound[0].read.Ok? && inbound[0].read.value.Login?
              && o.auth(inbound[0].read.value.username, inbound[0].read.value.password) == Granted
              && o.responseOk
    ensures r.user.Some? ==> r.user.value == inbound[0].read.value.username && r.replies == [LoginOk]
    // A granted, answered login registers the connection, with `LoginOk` on its outbound half; only `BrokenStream` removes it.
    ensures r.user.Some? && r.error != Rejected(BrokenStream) ==>
              && addr in r.ctx.sockets && r.ctx.sockets[addr] == [Response(LoginOk)]
              && addr in r.ctx.usernames && r.ctx.usernames[addr] == r.user.value
    // The login read failing, or not carrying a `Login`, ends the task without a response.
    ensures |inbound| == 0 ==> r.error == ReadFailed(IOError) && r.replies == []
    ensures |inbound| > 0 && inbound[0].read.Err? ==> r.error == ReadFailed(inbound[0].read.error) && r.replies == []
    ensures |inbound| > 0 && inbound[0].read.Ok? && !inbound[0].read.value.Login? ==> r.error == Rejected(LoginError) && r.replies == []
    // A refused login is answered with `LoginFailed`; a failed check is not answered.
    ensures |inbound| > 0 && inbound[0].read.Ok? && inbound[0].read.value.Login? ==>
              var answer := o.auth(inbound[0].read.value.username, inbound[0].read.value.password);
              && (answer == AuthUnavailable ==> r.error == AuthCheckFailed && r.replies == [])
              && (answer == Denied && o.responseOk ==> r.error == Rejected(LoginError) && r.replies == [LoginFailed])
              && (answer != AuthUnavailable && !o.responseOk ==> r.error == ResponseFailed && r.replies == [])
    // Anti-spoofing: everything persisted or delivered was sent by the authenticated user.
    ensures r.user.Some? ==> forall m :: m in r.stored ==> m.sender == r.user.value
    ensures r.user.Some? ==> DeliveredOnlyFrom(ctx.sockets[addr := [Response(LoginOk)]], r.ctx.sockets, addr, r.user.value)
    ensures Consistent(ctx) ==> Consistent(r.ctx)
  {
    if |inbound| == 0 then
      HandlerRun(ctx, ReadFailed(IOError), [], None, [])
    else
      match inbound[0].read
      case Err(e) => HandlerRun(ctx, ReadFailed(e), [], None, [])
      case Ok(Login(username, password)) =>
        (match o.auth(username, password)
        case AuthUnavailable => HandlerRun(ctx, AuthCheckFailed, [], None, [])
        case Denied =>
          if !o.responseOk then HandlerRun(ctx, ResponseFailed, [], None, [])
          else HandlerRun(ctx, Rejected(LoginError), [LoginFailed], None, [])
        case Granted =>
          if !o.responseOk then HandlerRun(ctx, ResponseFailed, [], None, [])
          else
            var registered := AddClient(ctx, addr, username, [Response(LoginOk)]);
            var closed := MessageLoop(registered, addr, username, inbound[1..]);
            HandlerRun(closed.ctx, closed.error, [LoginOk], Some(username), closed.stored))
      case Ok(_) => HandlerRun(ctx, Rejected(LoginError), [], None, [])
  }

  /**
    A message whose sender is not the authenticated username ends the task
    with `SpoofingError` before it is persisted or broadcast, and the
    connection is left in the registry.
  */
  lemma {:induction false} SpoofedMessageIsFatal(ctx: ServerContext, addr: SocketAddr, user: string, e: Event, inbound: seq<Event>)
    requires e.read.Ok? && e.read.value.Message? && e.read.value.message.sender != user
    ensures MessageLoop(ctx, addr, user, [e] + inbound) == Closed(ctx, Rejected(SpoofingError), [])
  {
    assert ([e] + inbound)[0] == e;
  }

  /** Malformed datagrams and datagrams other than `Message` do not change the authenticated loop's run. */
  lemma {:induction false} IgnoredReads(ctx: ServerContext, addr: SocketAddr, user: string, e: Event, inbound: seq<Event>)
    requires e.read == Err(MalformedMessage) || (e.read.Ok? && !e.read.value.Message?)
    ensures MessageLoop(ctx, addr, user, [e] + inbound) == MessageLoop(ctx, addr, user, inbound)
  {
    assert ([e] + inbound)[1..] == inbound;
  }

  /**
    A successful login followed by the peer closing the connection: the
    username is bound, `LoginOk` is the one reply, and the close leaves the
    tables as `remove_client` alone would, so the registration leaves no
    trace (`LoginThenSpoof` shows the registration itself).
  */
  lemma {:induction false} LoginRegisters(ctx: ServerContext, addr: SocketAddr, username: string, password: string, o: Oracles,
                                          failing: set<SocketAddr>, storeOk: bool)
    requires o.auth(username, password) == Granted && o.responseOk
    ensures var r := ReceiveDatagrams(ctx, addr, [Event(Ok(Login(username, password)), failing, storeOk)], o);
            && r.user == Some(username)
            && r.replies == [LoginOk]
            && r.error == Rejected(BrokenStream)
            && r.ctx == RemoveClient(ctx, addr)
  {
    var registered := AddClient(ctx, addr, username, [Response(LoginOk)]);
    var first := [Event(Ok(Login(username, password)), failing, storeOk)];
    assert first[1..] == [];
    RemoveUndoesAdd(ctx, addr, username, [Response(LoginOk)]);
  }
  /**
    After a granted login the session persists and delivers the user's
    messages as the authenticated loop does: every other connection still
    registered at the end received exactly the broadcast messages, in order.
  */
  lemma {:induction false} LoggedInSession(ctx: ServerContext, addr: SocketAddr, username: string, password: string,
                                           o: Oracles, e: Event, inbound: seq<Event>)
    requires e.read == Ok(Login(username, password)) && o.auth(username, password) == Granted && o.responseOk
    ensures var r := ReceiveDatagrams(ctx, addr, [e] + inbound, o);
            var b := Broadcasts(username, inbound);
            && (r.error == StoreFailed ==> |b| > 0 && r.stored == b[..|b| - 1])
            && (r.error != StoreFailed ==> r.stored == b)
            && (forall a :: a in r.ctx.sockets && a != addr ==> r.ctx.sockets[a] == ctx.sockets[a] + AsDatagrams(b))
  {
    assert ([e] + inbound)[0] == e;
    assert ([e] + inbound)[1..] == inbound;
    var registered := AddClient(ctx, addr, username, [Response(LoginOk)]);
    LoopStoresBroadcasts(registered, addr, username, inbound);
    LoopDeliversBroadcasts(registered, addr, username, inbound);
    LoopEvicts(registered, addr, username, inbound);
  }

  /**
    A successful login followed by a message from someone else: the
    connection stays registered under the username, with the `LoginOk`
    response as the only datagram on its outbound half, and the handler
    ends with `SpoofingError` having stored nothing.
  */
  lemma {:induction false} LoginThenSpoof(ctx: ServerContext, addr: SocketAddr, username: string, password: string,
                                          o: Oracles, e: Event, spoof: Event)
    requires e.read == Ok(Login(username, password)) && o.auth(username, password) == Granted && o.responseOk
    requires spoof.read.Ok? && spoof.read.value.Message? && spoof.read.value.message.sender != username
    ensures var r := ReceiveDatagrams(ctx, addr, [e, spoof], o);
            && r.user == Some(username)
            && r.error == Rejected(SpoofingError)
            && r.stored == []
            && r.ctx == AddClient(ctx, addr, username, [Response(LoginOk)])
  {
    assert [e, spoof][1..] == [spoof];
  }
}
