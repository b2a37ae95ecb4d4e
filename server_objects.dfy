/** `GameServer`: the server's copy of every networked object, keyed by object id, and the
    relays of object creation and removal to the rest of the sender's room. */
module ServerObjects {
  import opened Wrappers
  import opened CSharpInt
  import opened NetworkDataType
  import opened NetworkDataSize
  import opened Wire
  import opened Scene
  import opened LiteNetLibUtil
  import Transport
  import Rooms

  /** The object ids an actor owns, `[1000 * actorId, 1000 * (actorId + 1))`, computed with
      C# `int` arithmetic: both ends wrap at 32 bits. */
  function OwnerStart(actorId: int): int {
    Wrap32(MaxNetworkObjectID * actorId)
  }

  function OwnerEnd(actorId: int): int {
    Wrap32(MaxNetworkObjectID * Wrap32(actorId + 1))
  }

  /** The objects whose ids are outside [lo, hi). */
  function WithoutRange(objects: map<int, SceneObject>, lo: int, hi: int): (r: map<int, SceneObject>)
    ensures forall k :: k in r <==> k in objects && !(lo <= k < hi)
    ensures forall k :: k in r ==> r[k] == objects[k]
  {
    map k | k in objects && !(lo <= k < hi) :: objects[k]
  }

  function InstantiateNext(objects: map<int, SceneObject>, objectId: int, prefabName: string, pose: Pose): map<int, SceneObject> {
    objects[objectId := SceneObject(prefabName, pose)]
  }

  function InstantiateSends(r: Rooms.Registry, senderId: int, objectId: int, prefabName: string, pose: Pose): seq<Send>
    requires Rooms.Consistent(r)
  {
    Rooms.GroupSendsExceptSelf(r, senderId, NetworkInstantiateMessage(objectId, prefabName, pose))
  }

  function RemoveNext(objects: map<int, SceneObject>, actorId: int): map<int, SceneObject> {
    WithoutRange(objects, OwnerStart(actorId), OwnerEnd(actorId))
  }

  function RemoveSends(r: Rooms.Registry, actorId: int): seq<Send>
    requires Rooms.Consistent(r)
  {
    Rooms.GroupSendsExceptSelf(r, actorId, RemovalNotice(actorId))
  }

  datatype GameStep = GameStep(objects: map<int, SceneObject>, sends: seq<Send>, next: Option<nat>)

  /** `GameServer.OnNetworkReceivedHandler` on values: the instantiating client is the sending peer,
      but the leaving actor is the id read from the payload. */
  function Receive(objects: map<int, SceneObject>, r: Rooms.Registry, tag: Tag, peerId: int, fields: seq<Field>, pos: nat): GameStep
    requires Rooms.Consistent(r)
  {
    if tag == NetworkInstantiate then
      match (GetInt(fields, pos), GetString(fields, pos + 1), GetPose(fields, pos + 2))
      case (Some(objectId), Some(prefabName), Some(pose)) =>
        var clientId := Peer2ClientId(peerId);
        GameStep(InstantiateNext(objects, objectId, prefabName, pose),
                 InstantiateSends(r, clientId, objectId, prefabName, pose), Some(pos + 3))
      case _ => GameStep(objects, [], None)
    else if tag == LeaveRoom then
      match GetInt(fields, pos)
      case Some(actorId) => GameStep(RemoveNext(objects, actorId), RemoveSends(r, actorId), Some(pos + 1))
      case None => GameStep(objects, [], None)
    else
      GameStep(objects, [], Some(pos))
  }

  // Properties of the specification.

  /** For an actor whose id range fits in an `int`, removal takes away exactly the objects whose id
      divided by 1000 is the actor id, and keeps every other object as it was. */
  lemma RemoveTakesOwnedObjects(objects: map<int, SceneObject>, actorId: int)
    requires IsInt32(MaxNetworkObjectID * actorId) && IsInt32(MaxNetworkObjectID * (actorId + 1))
    ensures forall k :: k in RemoveNext(objects, actorId) <==> k in objects && k / MaxNetworkObjectID != actorId
    ensures forall k :: k in RemoveNext(objects, actorId) ==> RemoveNext(objects, actorId)[k] == objects[k]
  {
    assert OwnerStart(actorId) == 1000 * actorId;
    assert IsInt32(actorId + 1);
    assert OwnerEnd(actorId) == 1000 * actorId + 1000;
    forall k ensures (OwnerStart(actorId) <= k < OwnerEnd(actorId)) <==> k / 1000 == actorId {
      DivisionRange(k, actorId);
    }
  }

  lemma DivisionRange(k: int, a: int)
    ensures (1000 * a <= k < 1000 * a + 1000) <==> k / 1000 == a
  {
    var q, m := k / 1000, k % 1000;
    assert k == 1000 * q + m && 0 <= m < 1000;
    if 1000 * a <= k < 1000 * a + 1000 {
      assert 1000 * a <= 1000 * q + m < 1000 * a + 1000;
      assert 1000 * (a - q) <= m && m < 1000 * (a - q) + 1000;
    }
  }

  /** At the top of the id space `1000 * (actorId + 1)` wraps to a negative number, and removal
      then takes away nothing, not even the actor's own objects. */
  lemma RemoveAtWrapKeepsOwnedObjects(objects: map<int, SceneObject>)
    ensures var actorId := 2147483;
      OwnerStart(actorId) == 2147483000
      && OwnerEnd(actorId) == 2147484000 - Modulus32
      && RemoveNext(objects, actorId) == objects
  {
    assert RemoveNext(objects, 2147483) == objects;
  }

  /** Removing an actor's objects twice is the same as once. */
  lemma RemoveIdempotent(objects: map<int, SceneObject>, actorId: int)
    ensures RemoveNext(RemoveNext(objects, actorId), actorId) == RemoveNext(objects, actorId)
  {
  }

  /** An instantiation stores the object under its id, replacing any object already there, and
      is relayed to each other member of the sender's room; an unregistered sender's object is kept
      but relayed to nobody. */
  lemma InstantiateEffect(objects: map<int, SceneObject>, r: Rooms.Registry, senderId: int, objectId: int, prefabName: string, pose: Pose, c: int)
    requires Rooms.Consistent(r)
    ensures InstantiateNext(objects, objectId, prefabName, pose)[objectId] == SceneObject(prefabName, pose)
    ensures forall k :: k != objectId ==>
      (k in InstantiateNext(objects, objectId, prefabName, pose) <==> k in objects)
    ensures var notice := NetworkInstantiateMessage(objectId, prefabName, pose);
      (Send(c, notice) in InstantiateSends(r, senderId, objectId, prefabName, pose))
      <==> (senderId in r.actors && c in r.groups[r.actors[senderId].groupName].actors && c != senderId)
  {
    Rooms.GroupRouting(r, senderId, NetworkInstantiateMessage(objectId, prefabName, pose), c);
  }

  /** The client's instantiation message is read back as written. */
  lemma ClientInstantiateIsApplied(objects: map<int, SceneObject>, r: Rooms.Registry, peerId: int, objectId: int, prefabName: string, pose: Pose)
    requires Rooms.Consistent(r)
    ensures Receive(objects, r, NetworkInstantiate, peerId, NetworkInstantiateMessage(objectId, prefabName, pose).fields, 0)
      == GameStep(InstantiateNext(objects, objectId, prefabName, pose),
                  InstantiateSends(r, Peer2ClientId(peerId), objectId, prefabName, pose), Some(3))
  {
  }

  /** The client's leave request carries its local actor id, and that id, not the sending peer,
      decides whose objects go. */
  lemma LeaveUsesPayloadActor(objects: map<int, SceneObject>, r: Rooms.Registry, peerId: int, actorId: int)
    requires Rooms.Consistent(r)
    ensures Receive(objects, r, LeaveRoom, peerId, LeaveRoomRequest(actorId).fields, 0)
      == GameStep(RemoveNext(objects, actorId), RemoveSends(r, actorId), Some(1))
  {
  }

  /** A `PlayerTransform` changes nothing here, whatever the reader. In the typed field model a
      leave request with no id field changes nothing either: the id read fails before the removal.
      That case arises only because this model keeps the byte count apart from the fields; a leave
      datagram that passes the transport's four-byte guard carries at least three bytes after the
      tag, which the library's reader would decode or fail on in its own way. */
  lemma ShortLeaveAndTransformIgnored(objects: map<int, SceneObject>, r: Rooms.Registry, peerId: int, fields: seq<Field>)
    requires Rooms.Consistent(r)
    ensures Receive(objects, r, LeaveRoom, peerId, [], 0) == GameStep(objects, [], None)
    ensures Receive(objects, r, PlayerTransform, peerId, fields, 0) == GameStep(objects, [], Some(0))
  {
  }

  class GameServer {
    const multiplayer: Rooms.MultiplayerServer
    /** `_NetworkObjectDictionary`. */
    var networkObjects: map<int, SceneObject>

    constructor (multiplayer: Rooms.MultiplayerServer)
      ensures this.multiplayer == multiplayer && networkObjects == map[]
    {
      this.multiplayer := multiplayer;
      networkObjects := map[];
    }

    /** Empties the object table and starts the room server, whose handler is subscribed after this one. */
    method Start(config: Transport.Settings, args: seq<string>, parse: string -> Option<int>) returns (started: bool)
      modifies this`networkObjects, multiplayer.transport`port, multiplayer.transport`key, multiplayer.transport`connectedClients
      ensures networkObjects == map[]
      ensures var outcome := Transport.ScanArgs(config, args, parse, 0);
        Transport.Settings(multiplayer.transport.port, multiplayer.transport.key) == outcome.settings
        && started == outcome.Scanned?
      ensures multiplayer.transport.connectedClients
        == if started then map[] else old(multiplayer.transport.connectedClients)
    {
      networkObjects := map[];
      started := multiplayer.StartServer(config, args, parse);
    }

    method NetworkInstantiate(senderId: int, objectId: int, prefabName: string, pose: Pose)
      requires multiplayer.Valid()
      modifies this`networkObjects, multiplayer.transport`outbox
      ensures networkObjects == InstantiateNext(old(networkObjects), objectId, prefabName, pose)
      ensures multiplayer.transport.outbox == old(multiplayer.transport.outbox)
        + Transport.Delivered(multiplayer.transport.connectedClients.Keys,
                              InstantiateSends(multiplayer.State(), senderId, objectId, prefabName, pose))
    {
      networkObjects := networkObjects[objectId := SceneObject(prefabName, pose)];
      multiplayer.SendToGroupExceptSelf(senderId, NetworkInstantiateMessage(objectId, prefabName, pose));
    }

    method RemoveNetworkObjects(actorId: int)
      requires multiplayer.Valid()
      modifies this`networkObjects, multiplayer.transport`outbox
      ensures networkObjects == RemoveNext(old(networkObjects), actorId)
      ensures multiplayer.transport.outbox == old(multiplayer.transport.outbox)
        + Transport.Delivered(multiplayer.transport.connectedClients.Keys, RemoveSends(multiplayer.State(), actorId))
    {
      var ownerOffset := Wrap32(MaxNetworkObjectID * actorId);
      var ownerEnd := Wrap32(MaxNetworkObjectID * Wrap32(actorId + 1));
      var i := ownerOffset;
      while i < ownerEnd
        invariant ownerOffset <= i && (i <= ownerEnd || i == ownerOffset)
        invariant networkObjects == WithoutRange(old(networkObjects), ownerOffset, i)
        invariant multiplayer.transport.outbox == old(multiplayer.transport.outbox)
        decreases ownerEnd - i
      {
        if i in networkObjects {
          networkObjects := networkObjects - {i};
        }
        i := i + 1;
      }
      multiplayer.SendToGroupExceptSelf(actorId, RemovalNotice(actorId));
    }

    method OnNetworkReceivedHandler(tag: Tag, peerId: int, fields: seq<Field>, pos: nat) returns (next: Option<nat>)
      requires multiplayer.Valid()
      modifies this`networkObjects, multiplayer.transport`outbox
      ensures var step := Receive(old(networkObjects), multiplayer.State(), tag, peerId, fields, pos);
        && networkObjects == step.objects
        && multiplayer.transport.outbox
             == old(multiplayer.transport.outbox) + Transport.Delivered(multiplayer.transport.connectedClients.Keys, step.sends)
        && next == step.next
    {
      next := Some(pos);
      if tag == NetworkDataType.NetworkInstantiate {
        var objectId := GetInt(fields, pos);
        if objectId.None? {
          return None;
        }
        var prefabName := GetString(fields, pos + 1);
        if prefabName.None? {
          return None;
        }
        var pose := GetPose(fields, pos + 2);
        if pose.None? {
          return None;
        }
        var clientId := Peer2ClientId(peerId);
        NetworkInstantiate(clientId, objectId.value, prefabName.value, pose.value);
        next := Some(pos + 3);
      }
      if tag == LeaveRoom {
        var actorId := GetInt(fields, pos);
        if actorId.None? {
          return None;
        }
        RemoveNetworkObjects(actorId.value);
        next := Some(pos + 1);
      }
      if tag == PlayerTransform {
      }
    }
  }
}
