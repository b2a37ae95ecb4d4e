/** The server scene as its components wire it: `GameServer.Start` subscribes the game's handler to
    the transport before `MultiplayerServer.StartServer` subscribes the room handler, so a datagram
    goes to the game first and to the rooms second, both reading from the same reader; an exception
    in the game's handler stops the dispatch before the rooms see the message. A disconnect first
    forgets the client id, then runs the room server's disconnect handler. */
module ServerHost {
  import opened Wrappers
  import opened CSharpInt
  import opened NetworkDataType
  import opened Wire
  import opened Scene
  import opened LiteNetLibUtil
  import Transport
  import Rooms
  import ServerObjects

  /** The server's state after a datagram, and the sends it asked for in order. */
  datatype ServerStep = ServerStep(objects: map<int, SceneObject>, registry: Rooms.Registry, sends: seq<Send>)

  /** `LiteNetLibServer.OnNetworkReceive` with both handlers subscribed. */
  function Receive(objects: map<int, SceneObject>, r: Rooms.Registry, peerId: int, d: Datagram): (step: ServerStep)
    requires Rooms.Consistent(r)
    ensures Rooms.Consistent(step.registry)
  {
    if d.userDataSize < Transport.MinUserDataSize then ServerStep(objects, r, [])
    else
      var tag, fields := d.message.tag, d.message.fields;
      var g := ServerObjects.Receive(objects, r, tag, peerId, fields, 0);
      match g.next
      case None => ServerStep(g.objects, r, g.sends)
      case Some(p) =>
        var s := Rooms.Receive(r, tag, peerId, fields, p);
        Rooms.ReceivePreservesConsistency(r, tag, peerId, fields, p);
        ServerStep(g.objects, s.registry, g.sends + s.sends)
  }

  /** Every tag the server ever sends in reply to a datagram. */
  const ReplyTags: set<Tag> := {OnCreatedRoom, OnJoinedRoom, OnLeftRoom, NetworkInstantiate, RemoveNetworkObjects}

  predicate TaggedWithin(sends: seq<Send>, tags: set<Tag>) {
    forall s :: s in sends ==> s.message.tag in tags
  }

  // Properties of the dispatch.

  /** Datagrams the handlers cannot use change nothing and send nothing: one shorter than four user
      bytes, a leave request without its actor id (so the sender stays in its room), a create
      request as the client writes it, a pose snapshot and a player transform.

      The pose snapshot and the player transform have no handler on the server, whatever the reader.
      The id-less leave with at least four user bytes arises only because this model keeps the byte
      count apart from the fields; at the byte level such a datagram carries at least three bytes
      after the tag, which the library's reader would decode or fail on in its own way. The create-request case holds in the typed field model, where the room-name
      read fails on the leading actor id (`Rooms.ClientCreateRoomUnreadable`). */
  lemma UnusableDatagramsIgnored(objects: map<int, SceneObject>, r: Rooms.Registry, peerId: int, d: Datagram,
                                 size: nat, actorId: int, groupName: string, fields: seq<Field>)
    requires Rooms.Consistent(r) && size >= Transport.MinUserDataSize
    ensures d.userDataSize < Transport.MinUserDataSize ==> Receive(objects, r, peerId, d) == ServerStep(objects, r, [])
    ensures Receive(objects, r, peerId, Datagram(size, Message(LeaveRoom, []))) == ServerStep(objects, r, [])
    ensures Receive(objects, r, peerId, Datagram(size, CreateRoomRequest(actorId, groupName))) == ServerStep(objects, r, [])
    ensures Receive(objects, r, peerId, Datagram(size, Message(UpdateObjectPose, fields))) == ServerStep(objects, r, [])
    ensures Receive(objects, r, peerId, Datagram(size, Message(PlayerTransform, fields))) == ServerStep(objects, r, [])
  {
    Rooms.ClientCreateRoomUnreadable(r, peerId, actorId, groupName);
  }

  /** A join request registers the sending peer's client id in the named room. */
  lemma JoinRequestEffect(objects: map<int, SceneObject>, r: Rooms.Registry, peerId: int, size: nat, userName: string, groupName: string)
    requires Rooms.Consistent(r) && size >= Transport.MinUserDataSize
    ensures var c := Peer2ClientId(peerId);
      Receive(objects, r, peerId, Datagram(size, JoinRoomRequest(userName, groupName)))
        == ServerStep(objects, Rooms.JoinRoomNext(r, c, userName, groupName), Rooms.JoinRoomSends(r, c, userName, groupName))
  {
    Rooms.ClientJoinRoomIsApplied(r, peerId, userName, groupName);
  }

  /** An instantiation is stored and relayed, and the registry is left alone. */
  lemma InstantiateEffect(objects: map<int, SceneObject>, r: Rooms.Registry, peerId: int, size: nat,
                          objectId: int, prefabName: string, pose: Pose)
    requires Rooms.Consistent(r) && size >= Transport.MinUserDataSize
    ensures Receive(objects, r, peerId, Datagram(size, NetworkInstantiateMessage(objectId, prefabName, pose)))
      == ServerStep(ServerObjects.InstantiateNext(objects, objectId, prefabName, pose), r,
                    ServerObjects.InstantiateSends(r, Peer2ClientId(peerId), objectId, prefabName, pose))
  {
    ServerObjects.ClientInstantiateIsApplied(objects, r, peerId, objectId, prefabName, pose);
  }

  /** A leave request: the game removes the objects of the actor id in the payload and tells that
      actor's room, then the rooms remove the sending peer and tell its room. */
  lemma LeaveRequestEffect(objects: map<int, SceneObject>, r: Rooms.Registry, peerId: int, size: nat, actorId: int)
    requires Rooms.Consistent(r) && size >= Transport.MinUserDataSize
    ensures var c := Peer2ClientId(peerId);
      Receive(objects, r, peerId, Datagram(size, LeaveRoomRequest(actorId)))
        == ServerStep(ServerObjects.RemoveNext(objects, actorId), Rooms.LeaveRoomNext(r, c),
                      ServerObjects.RemoveSends(r, actorId) + Rooms.LeaveRoomSends(r, c))
  {
    ServerObjects.LeaveUsesPayloadActor(objects, r, peerId, actorId);
  }

  /** Because the two handlers take the leaver from different places, a peer that names another
      actor in its leave request removes that actor's objects while that actor stays in its room,
      and the sender itself leaves with its objects kept. */
  lemma ForeignLeaveRemovesOthersObjects(objects: map<int, SceneObject>, r: Rooms.Registry, peerId: int, size: nat, other: int)
    requires Rooms.Consistent(r) && size >= Transport.MinUserDataSize
    requires IsInt32(1000 * other) && IsInt32(1000 * (other + 1))
    requires other != Peer2ClientId(peerId) && other in r.actors
    ensures var step := Receive(objects, r, peerId, Datagram(size, LeaveRoomRequest(other)));
      && (forall k :: k in step.objects <==> k in objects && k / 1000 != other)
      && other in step.registry.actors
      && Peer2ClientId(peerId) !in step.registry.actors
  {
    LeaveRequestEffect(objects, r, peerId, size, other);
    ServerObjects.RemoveTakesOwnedObjects(objects, other);
    Rooms.LeaveRoomIdempotent(r, Peer2ClientId(peerId));
  }

  lemma BroadcastCarries(recipients: seq<int>, m: Message)
    ensures forall s :: s in Rooms.Broadcast(recipients, m) ==> s.message == m
  {
    forall s | s in Rooms.Broadcast(recipients, m) ensures s.message == m {
      Rooms.BroadcastMembership(recipients, m, s);
    }
  }

  lemma RoomSendsTagged(r: Rooms.Registry, tag: Tag, peerId: int, fields: seq<Field>, pos: nat)
    requires Rooms.Consistent(r)
    ensures TaggedWithin(Rooms.Receive(r, tag, peerId, fields, pos).sends, {OnCreatedRoom, OnJoinedRoom, OnLeftRoom})
  {
    var c := Peer2ClientId(peerId);
    if tag == JoinRoom && GetString(fields, pos).Some? && GetString(fields, pos + 1).Some? && c !in r.actors {
      var userName, groupName := GetString(fields, pos).value, GetString(fields, pos + 1).value;
      BroadcastCarries(Rooms.JoinRoomNext(r, c, userName, groupName).groups[groupName].actors,
                       OnJoinedRoomMessage(c, userName, groupName));
    } else if tag == LeaveRoom && c in r.actors {
      BroadcastCarries(Rooms.Members(r, c), OnLeftRoomMessage(c));
    }
  }

  lemma GameSendsTagged(objects: map<int, SceneObject>, r: Rooms.Registry, tag: Tag, peerId: int, fields: seq<Field>, pos: nat)
    requires Rooms.Consistent(r)
    ensures TaggedWithin(ServerObjects.Receive(objects, r, tag, peerId, fields, pos).sends, {NetworkInstantiate, RemoveNetworkObjects})
  {
    if tag == NetworkInstantiate {
      match (GetInt(fields, pos), GetString(fields, pos + 1), GetPose(fields, pos + 2))
      case (Some(objectId), Some(prefabName), Some(pose)) =>
        var c := Peer2ClientId(peerId);
        BroadcastCarries(Rooms.Except(Rooms.Members(r, c), c), NetworkInstantiateMessage(objectId, prefabName, pose));
      case _ =>
    } else if tag == LeaveRoom {
      match GetInt(fields, pos)
      case Some(actorId) =>
        BroadcastCarries(Rooms.Except(Rooms.Members(r, actorId), actorId), RemovalNotice(actorId));
      case None =>
    }
  }

  /** The server only ever sends room replies and the two object notices: never `OnPlayerLeftRoom`,
      and never a pose update, which it does not relay. */
  lemma SendsOnlyReplies(objects: map<int, SceneObject>, r: Rooms.Registry, peerId: int, d: Datagram)
    requires Rooms.Consistent(r)
    ensures TaggedWithin(Receive(objects, r, peerId, d).sends, ReplyTags)
    ensures forall s :: s in Receive(objects, r, peerId, d).sends ==>
      s.message.tag != OnPlayerLeftRoom && s.message.tag != UpdateObjectPose
  {
    if d.userDataSize >= Transport.MinUserDataSize {
      var tag, fields := d.message.tag, d.message.fields;
      GameSendsTagged(objects, r, tag, peerId, fields, 0);
      var g := ServerObjects.Receive(objects, r, tag, peerId, fields, 0);
      if g.next.Some? {
        RoomSendsTagged(r, tag, peerId, fields, g.next.value);
      }
    }
  }

  /** On a disconnect the leave notice goes to each connected member of the leaver's room except the
      leaver, whose client id is already gone from the table when the notice is sent. */
  lemma DisconnectNoticeSkipsLeaver(connected: set<int>, r: Rooms.Registry, c: int, x: int)
    requires Rooms.Consistent(r) && c in r.actors
    ensures var g := r.actors[c].groupName;
      (Send(x, OnLeftRoomMessage(c)) in Transport.Delivered(connected - {c}, Rooms.LeaveRoomSends(r, c)))
        <==> (x in r.groups[g].actors && x != c && x in connected)
    ensures forall s :: s in Transport.Delivered(connected - {c}, Rooms.LeaveRoomSends(r, c)) ==> s.clientId != c
  {
    Rooms.LeaveRoomEffect(r, c);
    Transport.DeliveredMembership(connected - {c}, Rooms.LeaveRoomSends(r, c), Send(x, OnLeftRoomMessage(c)));
    forall s | s in Transport.Delivered(connected - {c}, Rooms.LeaveRoomSends(r, c)) ensures s.clientId != c {
      Transport.DeliveredMembership(connected - {c}, Rooms.LeaveRoomSends(r, c), s);
    }
  }

  /** The three components of the server scene. */
  class Server {
    const transport: Transport.LiteNetLibServer
    const multiplayer: Rooms.MultiplayerServer
    const game: ServerObjects.GameServer

    ghost predicate Valid()
      reads multiplayer
    {
      multiplayer.transport == transport && game.multiplayer == multiplayer && multiplayer.Valid()
    }

    constructor ()
      ensures Valid() && fresh(transport) && fresh(multiplayer) && fresh(game)
      ensures transport.connectedClients == map[] && transport.outbox == []
      ensures multiplayer.State() == Rooms.EmptyRegistry && game.networkObjects == map[]
    {
      var t := new Transport.LiteNetLibServer();
      var m := new Rooms.MultiplayerServer(t);
      var g := new ServerObjects.GameServer(m);
      transport := t;
      multiplayer := m;
      game := g;
    }

    /** A received datagram, dispatched to the game and then to the rooms. */
    method OnNetworkReceive(peerId: int, d: Datagram)
      requires Valid()
      modifies multiplayer, game`networkObjects, transport`outbox
      ensures Valid()
      ensures var step := Receive(old(game.networkObjects), old(multiplayer.State()), peerId, d);
        && game.networkObjects == step.objects
        && multiplayer.State() == step.registry
        && transport.outbox == old(transport.outbox) + Transport.Delivered(transport.connectedClients.Keys, step.sends)
    {
      if d.userDataSize >= Transport.MinUserDataSize {
        var tag, fields := d.message.tag, d.message.fields;
        ghost var o0 := transport.outbox;
        ghost var g := ServerObjects.Receive(game.networkObjects, multiplayer.State(), tag, peerId, fields, 0);
        var next := game.OnNetworkReceivedHandler(tag, peerId, fields, 0);
        if next.Some? {
          ghost var o1 := transport.outbox;
          ghost var s := Rooms.Receive(multiplayer.State(), tag, peerId, fields, next.value);
          var _ := multiplayer.OnNetworkReceivedHandler(tag, peerId, fields, next.value);
          Transport.OutboxAfterTwoBatches(transport.connectedClients.Keys, o0, o1, transport.outbox, g.sends, s.sends);
        }
      }
    }

    /** A peer's disconnect: the client id leaves the table, then its room; its objects stay. */
    method OnPeerDisconnected(peerId: int)
      requires Valid()
      modifies multiplayer, transport`connectedClients, transport`outbox
      ensures Valid()
      ensures var c := Peer2ClientId(peerId);
        && transport.connectedClients == old(transport.connectedClients) - {c}
        && multiplayer.State() == Rooms.LeaveRoomNext(old(multiplayer.State()), c)
        && transport.outbox == old(transport.outbox)
             + Transport.Delivered(old(transport.connectedClients).Keys - {c}, Rooms.LeaveRoomSends(old(multiplayer.State()), c))
        && game.networkObjects == old(game.networkObjects)
    {
      transport.OnPeerDisconnected(peerId);
      assert transport.connectedClients.Keys == old(transport.connectedClients).Keys - {Peer2ClientId(peerId)};
      multiplayer.OnPeerDisconnectedHandler(peerId);
    }
  }
}
