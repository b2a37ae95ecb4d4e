/** The client scene as its components wire it: `GameClient.Start` subscribes to the
    `MultiplayerClient`'s message, left-room, connected and disconnected events. A message from the
    transport first runs the session transition, whose left-room event clears the local objects,
    and is then passed to the game with the reader where the session left it. The connected and
    disconnected handlers of the game only log. */
module ClientHost {
  import opened Wrappers
  import opened NetworkDataType
  import opened Wire
  import opened Scene
  import opened LiteNetLibUtil
  import Session
  import ClientObjects
  import Rooms
  import ServerObjects
  import Transport
  import ServerHost

  /** Everything a client keeps: the session and the game's three fields. */
  datatype ClientState = ClientState(
    session: Session.SessionState,
    localObjects: map<int, SceneObject>,
    networkObjects: map<int, SceneObject>,
    lastUsedSubId: int)

  const InitialClient: ClientState := ClientState(Session.InitialSession, map[], map[], 0)

  /** `MultiplayerClient.OnNetworkEventReceived` with the game's handlers subscribed. An incoming
      message never adds a local object: it keeps them all, or it is the client's own leave notice
      and clears them. */
  function Receive(st: ClientState, m: Message): (r: ClientState)
    ensures (r.localObjects == st.localObjects && r.lastUsedSubId == st.lastUsedSubId)
      || (&& m.tag == OnLeftRoom && GetInt(m.fields, 0) == Some(st.session.localActorId)
          && r.localObjects == map[] && r.lastUsedSubId == 0 && !r.session.joined)
  {
    var step := Session.Receive(st.session, m.tag, m.fields, 0);
    var left := Session.LeftRoom in step.events;
    var replicas := match step.next
      case None => st.networkObjects
      case Some(p) => ClientObjects.Receive(st.networkObjects, m.tag, m.fields, p).objects;
    ClientState(step.state,
                if left then map[] else st.localObjects,
                replicas,
                if left then 0 else st.lastUsedSubId)
  }

  /** A lost connection updates the session only: the local objects and replicas stay. */
  function Disconnected(st: ClientState): (r: ClientState)
    ensures !r.session.connectedServer && !r.session.joined && r.session.localActorId == -1
    ensures r.localObjects == st.localObjects && r.networkObjects == st.networkObjects
    ensures r.lastUsedSubId == st.lastUsedSubId
  {
    st.(session := Session.DisconnectedNext(st.session))
  }

  // Properties of a client, and of a client and the server together.

  /** The client's own leave notice ends its session and clears its local objects and id cursor, but
      keeps the replicas of the other clients' objects; the notice of another actor leaving changes
      nothing at all. */
  lemma LeaveNoticeEffect(st: ClientState, actorId: int)
    ensures actorId == st.session.localActorId ==>
      Receive(st, OnLeftRoomMessage(actorId))
        == ClientState(Session.LeftNext(st.session, actorId), map[], st.networkObjects, 0)
    ensures actorId != st.session.localActorId ==> Receive(st, OnLeftRoomMessage(actorId)) == st
  {
  }

  /** A relayed instantiation adds or replaces exactly one replica and touches nothing else. */
  lemma RelayedInstantiateEffect(st: ClientState, objectId: int, prefabName: string, pose: Pose)
    ensures Receive(st, NetworkInstantiateMessage(objectId, prefabName, pose))
      == st.(networkObjects := st.networkObjects[objectId := SceneObject(prefabName, pose)])
  {
    ClientObjects.RelayedInstantiateIsStored(st.networkObjects, objectId, prefabName, pose);
  }

  /** In the typed field model the server's removal notice changes nothing on a client: it ends
      where the client reads the count (see `ClientObjects.RemovalNoticeUnreadable`). */
  lemma RemovalNoticeChangesNothing(st: ClientState, actorId: int)
    ensures Receive(st, RemovalNotice(actorId)) == st
  {
    ClientObjects.RemovalNoticeUnreadable(st.networkObjects, actorId);
  }

  /** An object a client instantiates reaches every other member of its room that is connected,
      and each of them stores the same replica under the same id. */
  lemma InstantiateReachesRoomMates(objects: map<int, SceneObject>, r: Rooms.Registry, connected: set<int>,
                                    peerId: int, size: nat, objectId: int, prefabName: string, pose: Pose,
                                    x: int, st: ClientState)
    requires Rooms.Consistent(r) && size >= Transport.MinUserDataSize
    requires Peer2ClientId(peerId) in r.actors && x != Peer2ClientId(peerId) && x in connected
    requires x in r.groups[r.actors[Peer2ClientId(peerId)].groupName].actors
    ensures var m := NetworkInstantiateMessage(objectId, prefabName, pose);
      && Send(x, m) in Transport.Delivered(connected, ServerHost.Receive(objects, r, peerId, Datagram(size, m)).sends)
      && Receive(st, m).networkObjects[objectId] == SceneObject(prefabName, pose)
  {
    var m := NetworkInstantiateMessage(objectId, prefabName, pose);
    var c := Peer2ClientId(peerId);
    ServerHost.InstantiateEffect(objects, r, peerId, size, objectId, prefabName, pose);
    ServerObjects.InstantiateEffect(objects, r, c, objectId, prefabName, pose, x);
    Transport.DeliveredMembership(connected, ServerHost.Receive(objects, r, peerId, Datagram(size, m)).sends, Send(x, m));
    RelayedInstantiateEffect(st, objectId, prefabName, pose);
  }

  /** In the typed field model, nothing the server sends after a leave request changes any client's
      replicas: the removal notice ends before the count the client reads, and the leave notice is
      not for the game. The leaver's objects therefore stay on every other client. */
  lemma LeaveKeepsReplicasEverywhere(objects: map<int, SceneObject>, r: Rooms.Registry, peerId: int, size: nat,
                                     actorId: int, st: ClientState)
    requires Rooms.Consistent(r) && size >= Transport.MinUserDataSize
    ensures forall s :: s in ServerHost.Receive(objects, r, peerId, Datagram(size, LeaveRoomRequest(actorId))).sends ==>
      Receive(st, s.message).networkObjects == st.networkObjects
  {
    var c := Peer2ClientId(peerId);
    ServerHost.LeaveRequestEffect(objects, r, peerId, size, actorId);
    ServerHost.BroadcastCarries(Rooms.Except(Rooms.Members(r, actorId), actorId), RemovalNotice(actorId));
    ServerHost.BroadcastCarries(Rooms.Members(r, c), OnLeftRoomMessage(c));
    RemovalNoticeChangesNothing(st, actorId);
    LeaveNoticeEffect(st, c);
  }

  /** The client scene: the session object and the game that subscribed to it. */
  class Client {
    const client: Session.MultiplayerClient
    const game: ClientObjects.GameClient

    ghost predicate Valid()
      reads client
    {
      game.client == client && client.Valid()
    }

    function State(): ClientState
      reads client, game
    {
      ClientState(client.State(), game.localObjects, game.networkObjects, game.lastUsedSubId)
    }

    constructor ()
      ensures Valid() && fresh(client) && fresh(game)
      ensures State() == InitialClient
    {
      var c := new Session.MultiplayerClient();
      var g := new ClientObjects.GameClient(c);
      client := c;
      game := g;
    }

    /** A message from the transport: the session handles it first, then the game. */
    method OnNetworkEventReceived(m: Message)
      requires Valid()
      modifies client`connectedServer, client`joined, client`localActorId, client`localUserName, client`groupName
      modifies game`localObjects, game`networkObjects, game`lastUsedSubId
      ensures Valid()
      ensures State() == Receive(old(State()), m)
    {
      var raised, next := client.OnNetworkEventReceived(m.tag, m.fields, 0);
      if Session.LeftRoom in raised {
        game.OnLeftRoom();
      }
      if next.Some? {
        var _ := game.OnNetworkEventReceived(m.tag, m.fields, next.value);
      }
    }

    /** The transport lost the server. */
    method OnDisconnected()
      requires Valid()
      modifies client`connectedServer, client`joined, client`localActorId
      ensures Valid()
      ensures State() == Disconnected(old(State()))
    {
      var _ := client.OnDisconnectedServer();
    }
  }
}
