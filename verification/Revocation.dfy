/** WebSocket authorization by generation: stamps, session lookups, bumps, lossy broadcasts and frames interleaved. */
module Revocation {
  import opened Collections

  datatype Origin = ThisProcess | OtherProcess

  // The session's user, resolved when `changes` credential changes had been committed.
  datatype User = User(changes: nat, authenticated: bool)

  // A connection: the scope stamp, the resolved user, the counter at construction, group and close state.
  datatype Socket = Socket(stamp: Option<nat>, user: Option<User>, constructed: Option<nat>, joined: bool, closed: bool)

  // ----- the consumer's decisions

  function AcceptedGeneration(s: Socket): Option<nat> {
    if s.stamp.Some? then s.stamp else s.constructed
  }

  predicate IsAuthorized(s: Socket, generation: nat, authOn: bool) {
    !authOn || (AcceptedGeneration(s) == Some(generation) && s.user.Some? && s.user.value.authenticated)
  }

  function Connected(s: Socket, generation: nat, authOn: bool): Socket {
    if IsAuthorized(s, generation, authOn) then s.(joined := true) else s.(closed := true)
  }

  predicate NewerThan(s: Socket, generation: nat) {
    var accepted := AcceptedGeneration(s);
    accepted.Some? && accepted.value >= generation
  }

  function ForceDisconnected(s: Socket, origin: Origin, generation: nat): Socket {
    if origin == ThisProcess && NewerThan(s, generation) then s else s.(closed := true)
  }

  // ----- the serving process

  // Whether handshakes are stamped before the session lookup, and whether the bump waits for the commit.
  datatype Config = Config(stampsFirst: bool, bumpsOnCommit: bool)

  const AS_DEPLOYED := Config(true, true)

  type SocketId = nat

  // revoked[k] is the generation the bump for the k-th committed credential change produced.
  datatype Server = Server(
    generation: nat,
    authOn: bool,
    changes: nat,
    awaitingBump: set<nat>,
    revoked: map<nat, nat>,
    sockets: map<SocketId, Socket>)

  datatype Event =
    | Arrive(id: SocketId)                      // the handshake enters; stamped here if the middleware is installed
    | Resolve(id: SocketId, authenticated: bool) // the session lookup
    | Construct(id: SocketId)
    | Connect(id: SocketId)
    | Frame(id: SocketId)                       // an asset update reaches the consumer
    | Force(id: SocketId, origin: Origin, generation: nat) // a force_disconnect event reaches it; any may be lost
    | CommitChange                              // a credential change commits in this process
    | CommitElsewhere                           // or in another one
    | BumpChange(change: nat)
    | SaveAuth(on: bool)                        // a settings save toggles auth
    | BumpOther                                 // disconnect_all for a settings save

  predicate HasUser(s: Server, id: SocketId) {
    id in s.sockets && s.sockets[id].user.Some?
  }

  predicate Enabled(c: Config, s: Server, e: Event) {
    match e
    case Arrive(id) => id !in s.sockets
    case Resolve(id, _) => id in s.sockets && s.sockets[id].user.None?
    case Construct(id) => HasUser(s, id) && s.sockets[id].constructed.None?
    case Connect(id) => id in s.sockets && s.sockets[id].constructed.Some? && !s.sockets[id].joined && !s.sockets[id].closed
    case Frame(id) => id in s.sockets && s.sockets[id].joined && !s.sockets[id].closed
    case Force(id, _, _) => id in s.sockets && s.sockets[id].joined
    case BumpChange(k) => k !in s.revoked && if c.bumpsOnCommit then k in s.awaitingBump else k == s.changes + 1
    case _ => true
  }

  function SetSocket(s: Server, id: SocketId, socket: Socket): Server {
    s.(sockets := s.sockets[id := socket])
  }

  function Apply(c: Config, s: Server, e: Event): Server
    requires Enabled(c, s, e)
  {
    match e
    case Arrive(id) => SetSocket(s, id, Socket(if c.stampsFirst then Some(s.generation) else None, None, None, false, false))
    case Resolve(id, authenticated) => SetSocket(s, id, s.sockets[id].(user := Some(User(s.changes, authenticated))))
    case Construct(id) => SetSocket(s, id, s.sockets[id].(constructed := Some(s.generation)))
    case Connect(id) => SetSocket(s, id, Connected(s.sockets[id], s.generation, s.authOn))
    case Frame(_) => s
    case Force(id, origin, g) => SetSocket(s, id, ForceDisconnected(s.sockets[id], origin, g))
    case CommitChange =>
      s.(changes := s.changes + 1, awaitingBump := if c.bumpsOnCommit then s.awaitingBump + {s.changes + 1} else s.awaitingBump)
    case CommitElsewhere => s.(changes := s.changes + 1)
    case BumpChange(k) =>
      s.(generation := s.generation + 1, revoked := s.revoked[k := s.generation + 1], awaitingBump := s.awaitingBump - {k})
    case SaveAuth(on) => s.(authOn := on)
    case BumpOther => s.(generation := s.generation + 1)
  }

  const INITIAL := Server(0, true, 0, {}, map[], map[])

  function Reached(c: Config, events: seq<Event>): Option<Server> {
    if events == [] then Some(INITIAL) else
      var last := |events| - 1;
      var before := Reached(c, events[..last]);
      if before.Some? && Enabled(c, before.value, events[last]) then Some(Apply(c, before.value, events[last])) else None
  }

  // The consumer would send this frame.
  predicate Sends(s: Server, id: SocketId) {
    && id in s.sockets && s.sockets[id].joined && !s.sockets[id].closed
    && IsAuthorized(s.sockets[id], s.generation, s.authOn)
  }

  /** While auth is on, a frame only goes to a user resolved after every committed change whose bump has run. */
  ghost predicate FrameSafe(s: Server, id: SocketId) {
    s.authOn && Sends(s, id) ==>
      && s.sockets[id].user.Some? && s.sockets[id].user.value.authenticated
      && forall k :: k in s.revoked && k <= s.changes ==> s.sockets[id].user.value.changes >= k
  }

  ghost predicate AllFramesSafe(c: Config) {
    forall events, id :: Reached(c, events).Some? ==> FrameSafe(Reached(c, events).value, id)
  }

  // ----- as deployed, every frame is safe

  ghost predicate BehindRevocations(s: Server, socket: Socket) {
    && socket.stamp.Some? && socket.stamp.value <= s.generation
    && (socket.user.Some? ==>
          forall k :: k in s.revoked && socket.user.value.changes < k ==> socket.stamp.value < s.revoked[k])
  }

  ghost predicate Tracked(s: Server) {
    && (forall k :: k in s.awaitingBump ==> k <= s.changes && k !in s.revoked)
    && (forall k :: k in s.revoked ==> k <= s.changes && s.revoked[k] <= s.generation)
    && (forall id :: id in s.sockets ==> BehindRevocations(s, s.sockets[id]))
  }

  lemma StepTracked(s: Server, e: Event)
    requires Tracked(s) && Enabled(AS_DEPLOYED, s, e)
    ensures Tracked(Apply(AS_DEPLOYED, s, e))
  {
  }

  lemma {:induction false} RunTracked(events: seq<Event>)
    requires Reached(AS_DEPLOYED, events).Some?
    ensures Tracked(Reached(AS_DEPLOYED, events).value)
    decreases |events|
  {
    if events != [] {
      var last := |events| - 1;
      RunTracked(events[..last]);
      StepTracked(Reached(AS_DEPLOYED, events[..last]).value, events[last]);
    }
  }

  /** Revocation fails closed in every interleaving, whatever broadcasts are lost. */
  lemma DeployedFramesSafe()
    ensures AllFramesSafe(AS_DEPLOYED)
  {
    forall events, id | Reached(AS_DEPLOYED, events).Some?
      ensures FrameSafe(Reached(AS_DEPLOYED, events).value, id)
    {
      RunTracked(events);
      assert id in Reached(AS_DEPLOYED, events).value.sockets ==>
          BehindRevocations(Reached(AS_DEPLOYED, events).value, Reached(AS_DEPLOYED, events).value.sockets[id]);
    }
  }

  // ----- and both halves of the design are needed

  lemma ReachedNext(c: Config, events: seq<Event>, e: Event)
    requires Reached(c, events).Some? && Enabled(c, Reached(c, events).value, e)
    ensures Reached(c, events + [e]) == Some(Apply(c, Reached(c, events).value, e))
  {
    assert (events + [e])[..|events + [e]| - 1] == events;
  }

  lemma Extend(c: Config, events: seq<Event>, e: Event) returns (longer: seq<Event>)
    requires Reached(c, events).Some? && Enabled(c, Reached(c, events).value, e)
    ensures Reached(c, longer) == Some(Apply(c, Reached(c, events).value, e))
  {
    longer := events + [e];
    ReachedNext(c, events, e);
  }

  // A rotation lands between the session lookup and the consumer's construction.
  lemma UnstampedLeak(c: Config) returns (events: seq<Event>)
    requires !c.stampsFirst && c.bumpsOnCommit
    ensures Reached(c, events).Some? && !FrameSafe(Reached(c, events).value, 1)
  {
    events := Extend(c, [], Arrive(1));
    events := Extend(c, events, Resolve(1, true));
    events := Extend(c, events, CommitChange);
    events := Extend(c, events, BumpChange(1));
    events := Extend(c, events, Construct(1));
    events := Extend(c, events, Connect(1));
    var s := Reached(c, events).value;
    assert 1 in s.revoked && Sends(s, 1);
  }

  // The bump runs inside the transaction, and a whole handshake fits before the commit.
  lemma EarlyBumpLeak(c: Config) returns (events: seq<Event>)
    requires !c.bumpsOnCommit
    ensures Reached(c, events).Some? && !FrameSafe(Reached(c, events).value, 1)
  {
    events := Extend(c, [], BumpChange(1));
    events := Extend(c, events, Arrive(1));
    events := Extend(c, events, Resolve(1, true));
    events := Extend(c, events, Construct(1));
    events := Extend(c, events, Connect(1));
    events := Extend(c, events, CommitChange);
    var s := Reached(c, events).value;
    assert 1 in s.revoked && Sends(s, 1);
  }

  /** Every frame is safe in every run exactly when stamps precede lookups and bumps follow commits. */
  lemma FramesSafeIff(c: Config)
    ensures AllFramesSafe(c) <==> c.stampsFirst && c.bumpsOnCommit
  {
    if c.stampsFirst && c.bumpsOnCommit {
      DeployedFramesSafe();
      assert c == AS_DEPLOYED;
    } else if c.bumpsOnCommit {
      var events := UnstampedLeak(c);
    } else {
      var events := EarlyBumpLeak(c);
    }
  }

  // ----- and no newer socket is dropped

  ghost predicate StampedSince(s: Server, id: SocketId, generation: nat) {
    id in s.sockets && s.sockets[id].stamp.Some? && s.sockets[id].stamp.value >= generation
  }

  lemma StampedSinceKept(c: Config, s: Server, e: Event, id: SocketId, generation: nat)
    requires StampedSince(s, id, generation) && Enabled(c, s, e)
    ensures StampedSince(Apply(c, s, e), id, generation)
  {
  }

  function Continue(c: Config, s: Server, events: seq<Event>): Option<Server>
    decreases |events|
  {
    if events == [] then Some(s)
    else if Enabled(c, s, events[0]) then Continue(c, Apply(c, s, events[0]), events[1..])
    else None
  }

  lemma {:induction false} StampedSinceRun(c: Config, s: Server, events: seq<Event>, id: SocketId, generation: nat)
    requires StampedSince(s, id, generation) && Continue(c, s, events).Some?
    ensures StampedSince(Continue(c, s, events).value, id, generation)
    decreases |events|
  {
    if events != [] {
      StampedSinceKept(c, s, events[0], id, generation);
      StampedSinceRun(c, Apply(c, s, events[0]), events[1..], id, generation);
    }
  }

  /**
   A handshake that arrives after the bump of change k is never closed by that bump's own event, however
   late the event comes; a socket from before the bump always is.
   */
  lemma ReconnectSurvives(before: seq<Event>, k: nat, id: SocketId, after: seq<Event>)
    requires Reached(AS_DEPLOYED, before).Some? && k in Reached(AS_DEPLOYED, before).value.revoked
    requires id !in Reached(AS_DEPLOYED, before).value.sockets
    requires Continue(AS_DEPLOYED, Apply(AS_DEPLOYED, Reached(AS_DEPLOYED, before).value, Arrive(id)), after).Some?
    ensures var s := Reached(AS_DEPLOYED, before).value;
            var later := Continue(AS_DEPLOYED, Apply(AS_DEPLOYED, s, Arrive(id)), after).value;
            && id in later.sockets
            && ForceDisconnected(later.sockets[id], ThisProcess, s.revoked[k]) == later.sockets[id]
            && forall earlier :: earlier in s.sockets && s.sockets[earlier].stamp.Some? && s.sockets[earlier].stamp.value < s.revoked[k] ==>
                 ForceDisconnected(s.sockets[earlier], ThisProcess, s.revoked[k]).closed
  {
    var s := Reached(AS_DEPLOYED, before).value;
    RunTracked(before);
    StampedSinceRun(AS_DEPLOYED, Apply(AS_DEPLOYED, s, Arrive(id)), after, id, s.revoked[k]);
  }

  // ----- who does get frames

  // How many bumps, for whatever reason, since the socket's handshake arrived.
  function BumpsSince(events: seq<Event>, id: SocketId): nat {
    if events == [] then 0 else
      var last := |events| - 1;
      if events[last] == Arrive(id) then 0 else
        BumpsSince(events[..last], id) + if events[last].BumpChange? || events[last].BumpOther? then 1 else 0
  }

  lemma {:induction false} StampCountsBumps(events: seq<Event>, id: SocketId)
    requires Reached(AS_DEPLOYED, events).Some? && id in Reached(AS_DEPLOYED, events).value.sockets
    ensures var s := Reached(AS_DEPLOYED, events).value;
            s.sockets[id].stamp == Some(s.generation - BumpsSince(events, id))
    decreases |events|
  {
    hide AcceptedGeneration, IsAuthorized, NewerThan;
    var last := |events| - 1;
    if events[last] != Arrive(id) {
      StampCountsBumps(events[..last], id);
    }
  }

  // Auth is off, or the login holds and nothing was revoked since the handshake arrived.
  predicate MaySee(s: Server, events: seq<Event>, id: SocketId)
    requires id in s.sockets
  {
    !s.authOn || (s.sockets[id].user.Some? && s.sockets[id].user.value.authenticated && BumpsSince(events, id) == 0)
  }

  lemma AuthorizedIff(events: seq<Event>, id: SocketId)
    requires Reached(AS_DEPLOYED, events).Some? && id in Reached(AS_DEPLOYED, events).value.sockets
    ensures var s := Reached(AS_DEPLOYED, events).value;
            IsAuthorized(s.sockets[id], s.generation, s.authOn) <==> MaySee(s, events, id)
  {
    hide Reached, BumpsSince;
    StampCountsBumps(events, id);
  }

  /** As deployed, an open socket gets frames exactly while auth is off, or its login holds and no bump came since it arrived. */
  lemma SendsIff(events: seq<Event>, id: SocketId)
    requires Reached(AS_DEPLOYED, events).Some? && id in Reached(AS_DEPLOYED, events).value.sockets
    ensures var s := Reached(AS_DEPLOYED, events).value;
            Sends(s, id) <==> s.sockets[id].joined && !s.sockets[id].closed && MaySee(s, events, id)
  {
    hide Reached, IsAuthorized, MaySee;
    AuthorizedIff(events, id);
  }

  /** A handshake is accepted on the same terms, and closed otherwise. */
  lemma ConnectIff(events: seq<Event>, id: SocketId)
    requires Reached(AS_DEPLOYED, events).Some? && Enabled(AS_DEPLOYED, Reached(AS_DEPLOYED, events).value, Connect(id))
    ensures var s := Reached(AS_DEPLOYED, events).value;
            var after := Apply(AS_DEPLOYED, s, Connect(id)).sockets[id];
            after.joined == MaySee(s, events, id) && after.closed == !MaySee(s, events, id)
  {
    hide Reached, IsAuthorized, MaySee;
    AuthorizedIff(events, id);
  }

  /** A revocation event closes every socket, except those no older than a bump of this very process. */
  lemma ForceIff(s: Socket, origin: Origin, generation: nat)
    requires s.stamp.Some? && !s.closed
    ensures ForceDisconnected(s, origin, generation) ==
            if origin == ThisProcess && s.stamp.value >= generation then s else s.(closed := true)
  {
  }
}
