/**
 The serving process as objects: the generation counter, consumers, transactions. Whatever their methods
 are called in, the process goes through a run of Revocation as deployed, so every frame it sends is safe.
 */
module Consumers {
  import opened Collections
  import opened Revocation

  // A force_disconnect message.
  datatype Message = Message(origin: Origin, generation: nat)

  class AuthCounter {
    var generation: nat
    var published: seq<Message>

    constructor ()
      ensures generation == 0 && published == []
    {
      generation, published := 0, [];
    }

    // disconnect_all: the bump cannot fail; the broadcast may.
    method DisconnectAll(layerUp: bool)
      modifies this
      ensures generation == old(generation) + 1
      ensures published == old(published) + if layerUp then [Message(ThisProcess, generation)] else []
    {
      generation := generation + 1;
      if layerUp {
        published := published + [Message(ThisProcess, generation)];
      }
    }
  }

  class AssetConsumer {
    var socket: Socket
    var sent: seq<string>

    constructor (scope: Socket, counter: AuthCounter)
      ensures socket == scope.(constructed := Some(counter.generation)) && sent == []
    {
      socket, sent := scope.(constructed := Some(counter.generation)), [];
    }

    method Connect(counter: AuthCounter, authOn: bool)
      modifies this
      ensures socket == Connected(old(socket), counter.generation, authOn) && sent == old(sent)
    {
      if !IsAuthorized(socket, counter.generation, authOn) {
        socket := socket.(closed := true);
        return;
      }
      socket := socket.(joined := true);
    }

    method ForceDisconnect(m: Message)
      modifies this
      ensures socket == ForceDisconnected(old(socket), m.origin, m.generation) && sent == old(sent)
    {
      var accepted := AcceptedGeneration(socket);
      if m.origin == ThisProcess && accepted.Some? && accepted.value >= m.generation {
        return;
      }
      socket := socket.(closed := true);
    }

    // An unauthorized socket stays silent, a closed one cannot send.
    method AssetUpdate(asset: string, counter: AuthCounter, authOn: bool)
      modifies this
      ensures socket == old(socket)
      ensures sent == old(sent) + if IsAuthorized(socket, counter.generation, authOn) && !socket.closed then [asset] else []
    {
      if !IsAuthorized(socket, counter.generation, authOn) {
        return;
      }
      if !socket.closed {
        sent := sent + [asset];
      }
    }
  }

  // ----- credential saves

  const SESSION_NEUTRAL: set<string> := {"last_login"}

  // A save that names its fields, and names only neutral ones, revokes nothing.
  predicate Revokes(updateFields: Option<set<string>>) {
    !(updateFields.Some? && updateFields.value <= SESSION_NEUTRAL)
  }

  /** Every save revokes, unless it names its fields and they are no other than last_login. */
  lemma RevokesIff(updateFields: Option<set<string>>)
    ensures Revokes(updateFields) <==> updateFields.None? || exists f :: f in updateFields.value && f != "last_login"
  {
  }

  // An open transaction, and the callbacks registered for its commit.
  class Transaction {
    var open: bool
    var callbacks: nat

    constructor ()
      ensures open && callbacks == 0
    {
      open, callbacks := true, 0;
    }

    // revoke_ws_authorization inside a transaction.
    method UserSaved(updateFields: Option<set<string>>)
      requires open
      modifies this
      ensures open && callbacks == old(callbacks) + if Revokes(updateFields) then 1 else 0
    {
      if Revokes(updateFields) {
        callbacks := callbacks + 1;
      }
    }

    method Rollback()
      requires open
      modifies this
      ensures !open
    {
      open, callbacks := false, 0;
    }
  }

  // ----- the process

  // A frame that went out: whether auth was on, to whom, and the changes revoked by then.
  datatype Sent = Sent(authOn: bool, user: Option<User>, revoked: set<nat>)

  // Not sent under a login that a revoked change has superseded.
  predicate SentSafely(f: Sent) {
    f.authOn ==> f.user.Some? && f.user.value.authenticated && forall k :: k in f.revoked ==> f.user.value.changes >= k
  }

  // Every socket is a scope or a consumer, and no two share one.
  ghost predicate Separate(scopes: map<SocketId, Socket>, consumers: map<SocketId, AssetConsumer>, sockets: map<SocketId, Socket>) {
    && scopes.Keys !! consumers.Keys
    && sockets.Keys == scopes.Keys + consumers.Keys
    && forall i, j :: i in consumers && j in consumers && i != j ==> consumers[i] != consumers[j]
  }

  lemma ScopeBecomesConsumer(scopes: map<SocketId, Socket>, consumers: map<SocketId, AssetConsumer>, sockets: map<SocketId, Socket>,
                             id: SocketId, consumer: AssetConsumer, socket: Socket)
    requires Separate(scopes, consumers, sockets) && id in scopes && consumer !in consumers.Values
    ensures Separate(scopes - {id}, consumers[id := consumer], sockets[id := socket])
  {
  }

  class Process {
    const counter: AuthCounter
    var authOn: bool
    var changes: nat                               // credential changes committed anywhere so far
    var due: nat                                   // commit callbacks that have yet to run
    var scopes: map<SocketId, Socket>              // handshakes without a consumer yet
    var consumers: map<SocketId, AssetConsumer>
    ghost var frames: seq<Sent>
    ghost var server: Server
    ghost var events: seq<Event>

    ghost predicate Running()
      reads `server, `events
    {
      Reached(AS_DEPLOYED, events) == Some(server) && Tracked(server)
    }

    ghost predicate Counted()
      reads this, counter
    {
      counter.generation == server.generation && authOn == server.authOn && changes == server.changes && due == |server.awaitingBump|
    }

    ghost predicate Shown()
      reads this, consumers.Values
    {
      && Separate(scopes, consumers, server.sockets)
      && (forall id :: id in scopes ==> server.sockets[id] == scopes[id] && scopes[id].constructed.None?)
      && (forall id :: id in consumers ==> server.sockets[id] == consumers[id].socket && consumers[id].socket.constructed.Some?)
    }

    ghost predicate AllSafe()
      reads `frames
    {
      forall f :: f in frames ==> SentSafely(f)
    }

    ghost predicate Valid()
      reads this, counter, consumers.Values
    {
      Running() && Counted() && Shown() && AllSafe()
    }

    constructor ()
      ensures Valid() && fresh(counter) && consumers == map[] && events == []
    {
      counter := new AuthCounter();
      authOn, changes, due, scopes, consumers := true, 0, 0, map[], map[];
      frames, server, events := [], INITIAL, [];
    }

    // The call just made is this event of the protocol.
    ghost method Log(e: Event)
      requires Running() && Enabled(AS_DEPLOYED, server, e)
      modifies this`server, this`events
      ensures Running() && events == old(events) + [e] && server == Apply(AS_DEPLOYED, old(server), e)
    {
      hide Apply, Enabled, Reached, Tracked;
      ReachedNext(AS_DEPLOYED, events, e);
      StepTracked(server, e);
      server := Apply(AS_DEPLOYED, server, e);
      events := events + [e];
    }

    /** The stamp is taken on the way in. */
    method Handshake(id: SocketId)
      requires Valid() && id !in scopes && id !in consumers
      modifies this
      ensures Valid() && events == old(events) + [Arrive(id)] && consumers == old(consumers)
    {
      hide Running, Tracked, AllSafe;
      scopes := scopes[id := Socket(Some(counter.generation), None, None, false, false)];
      Log(Arrive(id));
    }

    lemma ApplyResolve(id: SocketId, authenticated: bool)
      requires id in server.sockets && server.sockets[id].user.None?
      ensures Enabled(AS_DEPLOYED, server, Resolve(id, authenticated))
      ensures Apply(AS_DEPLOYED, server, Resolve(id, authenticated)) ==
              server.(sockets := server.sockets[id := server.sockets[id].(user := Some(User(server.changes, authenticated)))])
    {
    }

    method ResolveUser(id: SocketId, authenticated: bool)
      requires Valid() && id in scopes && scopes[id].user.None?
      modifies this
      ensures Valid() && events == old(events) + [Resolve(id, authenticated)] && consumers == old(consumers)
    {
      hide Running, Tracked, AllSafe;
      ApplyResolve(id, authenticated);
      hide Apply, Enabled;
      scopes := scopes[id := scopes[id].(user := Some(User(changes, authenticated)))];
      Log(Resolve(id, authenticated));
    }

    lemma ApplyConstruct(id: SocketId)
      requires HasUser(server, id) && server.sockets[id].constructed.None?
      ensures Enabled(AS_DEPLOYED, server, Construct(id))
      ensures Apply(AS_DEPLOYED, server, Construct(id)) ==
              server.(sockets := server.sockets[id := server.sockets[id].(constructed := Some(server.generation))])
    {
    }

    method BuildConsumer(id: SocketId)
      requires Valid() && id in scopes && scopes[id].user.Some?
      modifies this
      ensures Valid() && events == old(events) + [Construct(id)]
      ensures id in consumers && fresh(consumers[id]) && consumers == old(consumers)[id := consumers[id]]
    {
      hide Running, Counted, Tracked, AllSafe, Apply, Separate;
      var consumer := new AssetConsumer(scopes[id], counter);
      Adopt(id, consumer);
    }

    method Adopt(id: SocketId, consumer: AssetConsumer)
      requires Valid() && id in scopes && scopes[id].user.Some?
      requires consumer !in consumers.Values && consumer.socket == scopes[id].(constructed := Some(counter.generation))
      modifies this
      ensures Valid() && events == old(events) + [Construct(id)] && consumers == old(consumers)[id := consumer]
    {
      hide Running, Tracked, AllSafe;
      ApplyConstruct(id);
      hide Apply, Enabled, Separate;
      ScopeBecomesConsumer(scopes, consumers, server.sockets, id, consumer, consumer.socket);
      consumers := consumers[id := consumer];
      scopes := scopes - {id};
      Log(Construct(id));
      assert server.sockets == old(server.sockets)[id := consumer.socket];
      assert Shown();
    }

    method Connect(id: SocketId)
      requires Valid() && id in consumers && !consumers[id].socket.joined && !consumers[id].socket.closed
      modifies this, consumers[id]
      ensures Valid() && events == old(events) + [Event.Connect(id)] && consumers == old(consumers)
    {
      hide Running, Tracked, AllSafe, IsAuthorized;
      consumers[id].Connect(counter, authOn);
      Log(Event.Connect(id));
    }

    /** An asset update reaches the consumer: what goes out is safe to send. */
    method DeliverFrame(id: SocketId, asset: string)
      requires Valid() && id in consumers && consumers[id].socket.joined && !consumers[id].socket.closed
      modifies this, consumers[id]
      ensures Valid() && events == old(events) + [Frame(id)] && consumers == old(consumers)
      ensures consumers[id].sent != old(consumers[id].sent) ==>
                frames == old(frames) + [Sent(authOn, consumers[id].socket.user, server.revoked.Keys)]
      ensures consumers[id].sent != old(consumers[id].sent) <==> IsAuthorized(consumers[id].socket, counter.generation, authOn)
    {
      hide Running, Tracked, SentSafely, IsAuthorized;
      if IsAuthorized(consumers[id].socket, counter.generation, authOn) {
        SendIsSafe(id);
        frames := frames + [Sent(authOn, consumers[id].socket.user, server.revoked.Keys)];
      }
      assert AllSafe();
      hide AllSafe, Apply;
      consumers[id].AssetUpdate(asset, counter, authOn);
      FrameChangesNothing(id);
      Log(Frame(id));
    }

    lemma FrameChangesNothing(id: SocketId)
      requires Enabled(AS_DEPLOYED, server, Frame(id))
      ensures Apply(AS_DEPLOYED, server, Frame(id)) == server
    {
    }

    lemma SendIsSafe(id: SocketId)
      requires Valid() && id in consumers && consumers[id].socket.joined && !consumers[id].socket.closed
      requires IsAuthorized(consumers[id].socket, counter.generation, authOn)
      ensures SentSafely(Sent(authOn, consumers[id].socket.user, server.revoked.Keys))
    {
      DeployedFramesSafe();
      assert FrameSafe(Reached(AS_DEPLOYED, events).value, id);
      assert Sends(server, id);
    }

    method DeliverForce(id: SocketId, m: Message)
      requires Valid() && id in consumers && consumers[id].socket.joined
      modifies this, consumers[id]
      ensures Valid() && events == old(events) + [Force(id, m.origin, m.generation)] && consumers == old(consumers)
    {
      hide Running, Tracked, AllSafe;
      consumers[id].ForceDisconnect(m);
      Log(Force(id, m.origin, m.generation));
    }

    // A credential change commits here; its callback is due, and others may come first.
    method CommitOne()
      requires Valid()
      modifies this
      ensures Valid() && events == old(events) + [CommitChange] && consumers == old(consumers)
      ensures due == old(due) + 1
    {
      hide Running, AllSafe;
      assert changes + 1 !in server.awaitingBump by {
        TrackedChanges();
      }
      changes, due := changes + 1, due + 1;
      Log(CommitChange);
    }

    lemma TrackedChanges()
      requires Running()
      ensures forall k :: k in server.awaitingBump ==> k <= server.changes && k !in server.revoked
    {
    }

    /** The commit makes every save of the transaction count, and only then are its bumps due. */
    method Commit(t: Transaction)
      requires Valid() && t.open
      modifies this, t
      ensures Valid() && consumers == old(consumers) && !t.open
      ensures due == old(due) + old(t.callbacks)
      ensures events == old(events) + seq(old(t.callbacks), _ => CommitChange)
    {
      hide Running, Counted, Shown, AllSafe;
      var n := t.callbacks;
      t.open, t.callbacks := false, 0;
      for k := 0 to n
        invariant Valid() && consumers == old(consumers) && !t.open
        invariant due == old(due) + k
        invariant events == old(events) + seq(k, _ => CommitChange)
      {
        CommitOne();
        assert seq(k + 1, _ => CommitChange) == seq(k, _ => CommitChange) + [CommitChange];
      }
    }

    // A save outside a transaction commits at once.
    method SaveUser(updateFields: Option<set<string>>)
      requires Valid()
      modifies this
      ensures Valid() && consumers == old(consumers)
      ensures due == old(due) + if Revokes(updateFields) then 1 else 0
    {
      if Revokes(updateFields) {
        CommitOne();
      }
    }

    /** A due callback runs: the bump is that of some committed change, whether or not its broadcast gets out. */
    method RunCallback(layerUp: bool)
      requires Valid() && due > 0
      modifies this, counter
      ensures Valid() && consumers == old(consumers)
      ensures exists k :: k in old(server.awaitingBump) && events == old(events) + [BumpChange(k)]
    {
      hide Running, AllSafe;
      ghost var k :| k in server.awaitingBump;
      TrackedChanges();
      counter.DisconnectAll(layerUp);
      due := due - 1;
      Log(BumpChange(k));
    }

    method ChangeElsewhere()
      requires Valid()
      modifies this
      ensures Valid() && events == old(events) + [CommitElsewhere] && consumers == old(consumers)
    {
      hide Running, Tracked, AllSafe;
      changes := changes + 1;
      Log(CommitElsewhere);
    }

    method SaveAuthBackend(on: bool)
      requires Valid()
      modifies this
      ensures Valid() && events == old(events) + [SaveAuth(on)] && consumers == old(consumers)
    {
      hide Running, Tracked, AllSafe;
      authOn := on;
      Log(SaveAuth(on));
    }

    method DisconnectForSettings(layerUp: bool)
      requires Valid()
      modifies this, counter
      ensures Valid() && events == old(events) + [BumpOther] && consumers == old(consumers)
    {
      hide Running, Tracked, AllSafe;
      counter.DisconnectAll(layerUp);
      Log(BumpOther);
    }
  }

  // ----- any sequence of calls

  datatype Call =
    | Arrives(id: SocketId)
    | Resolves(id: SocketId, authenticated: bool)
    | Builds(id: SocketId)
    | Connects(id: SocketId)
    | Frames(id: SocketId, asset: string)
    | Forces(id: SocketId, message: Message)
    | CommitsSaves(saves: seq<Option<set<string>>>, rolledBack: bool)
    | Saves(updateFields: Option<set<string>>)
    | Callback(layerUp: bool)
    | Elsewhere
    | Toggles(authOn: bool)
    | Disconnects(layerUp: bool)

  // A call is made only where the runtime makes it: on a handshake or consumer in that state.
  method ServeOne(process: Process, call: Call)
    requires process.Valid()
    modifies process, process.counter, process.consumers.Values
    ensures process.Valid()
    ensures forall c :: c in process.consumers.Values ==> c in old(process.consumers.Values) || fresh(c)
  {
    match call {
      case Resolves(_, _) => ServeHandshake(process, call);
      case Arrives(_) => ServeHandshake(process, call);
      case Builds(_) => ServeHandshake(process, call);
      case Connects(_) => ServeSocket(process, call);
      case Frames(_, _) => ServeSocket(process, call);
      case Forces(_, _) => ServeSocket(process, call);
      case CommitsSaves(saves, rolledBack) => ServeTransaction(process, saves, rolledBack);
      case Saves(updateFields) => process.SaveUser(updateFields);
      case Callback(layerUp) =>
        if process.due > 0 {
          process.RunCallback(layerUp);
        }
      case Elsewhere => process.ChangeElsewhere();
      case Toggles(authOn) => process.SaveAuthBackend(authOn);
      case Disconnects(layerUp) => process.DisconnectForSettings(layerUp);
    }
  }

  method ServeHandshake(process: Process, call: Call)
    requires process.Valid()
    modifies process
    ensures process.Valid()
    ensures forall c :: c in process.consumers.Values ==> c in old(process.consumers.Values) || fresh(c)
  {
    match call {
      case Arrives(id) =>
        if id !in process.scopes && id !in process.consumers {
          process.Handshake(id);
        }
      case Resolves(id, authenticated) =>
        if id in process.scopes && process.scopes[id].user.None? {
          process.ResolveUser(id, authenticated);
        }
      case Builds(id) =>
        if id in process.scopes && process.scopes[id].user.Some? {
          process.BuildConsumer(id);
        }
      case _ =>
    }
  }

  method ServeSocket(process: Process, call: Call)
    requires process.Valid()
    modifies process, process.consumers.Values
    ensures process.Valid() && process.consumers == old(process.consumers)
  {
    match call {
      case Connects(id) =>
        if id in process.consumers && !process.consumers[id].socket.joined && !process.consumers[id].socket.closed {
          process.Connect(id);
        }
      case Frames(id, asset) =>
        if id in process.consumers && process.consumers[id].socket.joined && !process.consumers[id].socket.closed {
          process.DeliverFrame(id, asset);
        }
      case Forces(id, message) =>
        if id in process.consumers && process.consumers[id].socket.joined {
          process.DeliverForce(id, message);
        }
      case _ =>
    }
  }

  method ServeTransaction(process: Process, saves: seq<Option<set<string>>>, rolledBack: bool)
    requires process.Valid()
    modifies process
    ensures process.Valid() && process.consumers == old(process.consumers)
    ensures rolledBack ==> process.events == old(process.events)
  {
    var t := new Transaction();
    for k := 0 to |saves|
      invariant t.open && fresh(t) && process.Valid()
      invariant process.consumers == old(process.consumers) && process.events == old(process.events)
    {
      t.UserSaved(saves[k]);
    }
    if rolledBack {
      t.Rollback();
    } else {
      process.Commit(t);
    }
  }

  /** Whatever is called in whatever order, the objects go through a run as deployed, and every frame sent is safe. */
  method Serve(calls: seq<Call>) returns (process: Process)
    ensures Reached(AS_DEPLOYED, process.events) == Some(process.server)
    ensures process.Valid() && forall f :: f in process.frames ==> SentSafely(f)
  {
    process := new Process();
    for k := 0 to |calls|
      invariant process.Valid() && fresh(process) && fresh(process.counter)
      invariant forall c :: c in process.consumers.Values ==> fresh(c)
    {
      ServeOne(process, calls[k]);
    }
  }
}
