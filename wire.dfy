/** Messages as the sequence of fields a `NetDataWriter` puts after the tag
    byte; the byte encoding of each field belongs to the transport library
    and is not modelled. A reader takes fields in order.

    The readers below are TYPED: a read of the wrong kind of field, or past
    the end, yields None, and the handler doing the read goes no further.
    This is an assumption of the model. The library's `NetDataReader` decodes
    bytes and would reinterpret what is there (an int read as a string
    length, say) or fail in its own way; that reader is not part of this
    model. Every result below that rests on a read yielding None holds for
    this field model only; the `...LayoutsDisagree` lemmas also state the
    reader-independent fact behind each such result: what was written at the
    position the other side reads. */
module Wire {
  import opened Wrappers
  import opened NetworkDataType

  /** Positions and rotations are only copied by the core, never computed. */
  datatype Vector3 = Vector3(x: real, y: real, z: real)
  datatype Quaternion = Quaternion(x: real, y: real, z: real, w: real)
  /** The seven floats written after an object id: position x, y, z and rotation x, y, z, w. */
  datatype Pose = Pose(position: Vector3, rotation: Quaternion)

  datatype Field = IntField(i: int) | StringField(s: string) | PoseField(pose: Pose)

  datatype Message = Message(tag: Tag, fields: seq<Field>)

  /** One datagram handed to the peer of a client id. */
  datatype Send = Send(clientId: int, message: Message)

  /** A received datagram: the number of user bytes it carries, and its decoded content. */
  datatype Datagram = Datagram(userDataSize: nat, message: Message)

  /** The typed reads: each succeeds exactly on a field of its own kind at that position, and
      yields that field's value. */
  function GetInt(fields: seq<Field>, pos: nat): (r: Option<int>)
    ensures r.Some? <==> pos < |fields| && fields[pos].IntField?
    ensures r.Some? ==> fields[pos] == IntField(r.value)
  {
    if pos < |fields| && fields[pos].IntField? then Some(fields[pos].i) else None
  }

  function GetString(fields: seq<Field>, pos: nat): (r: Option<string>)
    ensures r.Some? <==> pos < |fields| && fields[pos].StringField?
    ensures r.Some? ==> fields[pos] == StringField(r.value)
  {
    if pos < |fields| && fields[pos].StringField? then Some(fields[pos].s) else None
  }

  function GetPose(fields: seq<Field>, pos: nat): (r: Option<Pose>)
    ensures r.Some? <==> pos < |fields| && fields[pos].PoseField?
    ensures r.Some? ==> fields[pos] == PoseField(r.value)
  {
    if pos < |fields| && fields[pos].PoseField? then Some(fields[pos].pose) else None
  }

  // Layouts the server writes.

  function OnConnectedServerMessage(clientId: int): Message {
    Message(OnConnectedServer, [IntField(clientId)])
  }

  function OnCreatedRoomMessage(actorId: int, groupName: string): Message {
    Message(OnCreatedRoom, [IntField(actorId), StringField(groupName)])
  }

  function OnJoinedRoomMessage(actorId: int, userName: string, groupName: string): Message {
    Message(OnJoinedRoom, [IntField(actorId), StringField(userName), StringField(groupName)])
  }

  function OnLeftRoomMessage(actorId: int): Message {
    Message(OnLeftRoom, [IntField(actorId)])
  }

  /** The removal notice of the example server: the tag and the actor id, nothing else. */
  function RemovalNotice(actorId: int): Message {
    Message(RemoveNetworkObjects, [IntField(actorId)])
  }

  /** Written by a client that instantiates an object and relayed unchanged by the server. */
  function NetworkInstantiateMessage(objectId: int, prefabName: string, pose: Pose): Message {
    Message(NetworkInstantiate, [IntField(objectId), StringField(prefabName), PoseField(pose)])
  }

  // Layouts the client writes.

  function CreateRoomRequest(actorId: int, groupName: string): Message {
    Message(CreateRoom, [IntField(actorId), StringField(groupName)])
  }

  function JoinRoomRequest(userName: string, groupName: string): Message {
    Message(JoinRoom, [StringField(userName), StringField(groupName)])
  }

  function LeaveRoomRequest(actorId: int): Message {
    Message(LeaveRoom, [IntField(actorId)])
  }

  /** The fields of one pose entry per listed object id. */
  function PoseEntries(ids: seq<int>, poses: map<int, Pose>): seq<Field>
    requires forall k :: 0 <= k < |ids| ==> ids[k] in poses
  {
    if ids == [] then []
    else PoseEntries(ids[..|ids| - 1], poses) + [IntField(ids[|ids| - 1]), PoseField(poses[ids[|ids| - 1]])]
  }

  function PoseSnapshot(groupName: string, count: int, entries: seq<Field>): Message {
    Message(UpdateObjectPose, [StringField(groupName), IntField(count)] + entries)
  }

  /** `n` ints read one after the other from `pos`; a negative count fails, as the
      list it would size cannot be created. */
  function ReadIds(fields: seq<Field>, pos: nat, n: int): (r: Option<seq<int>>)
    ensures r.Some? ==> |r.value| == n
    ensures r.Some? ==> forall k :: 0 <= k < n ==> GetInt(fields, pos + k) == Some(r.value[k])
    ensures r.None? ==> n < 0 || exists k :: pos <= k < pos + n && GetInt(fields, k).None?
  {
    if n < 0 then None
    else if n == 0 then Some([])
    else if pos + n > |fields| then
      assert GetInt(fields, pos + n - 1).None?;
      None
    else if forall k :: pos <= k < pos + n ==> fields[k].IntField? then
      Some(seq(n, k requires 0 <= k < n => fields[pos + k].i))
    else
      var k :| pos <= k < pos + n && !fields[k].IntField?;
      assert GetInt(fields, k).None?;
      None
  }

  /** Where the two ends agree: what the receiving side reads back is what the sender wrote. */
  lemma LayoutsAgree(actorId: int, userName: string, groupName: string, objectId: int, prefabName: string, pose: Pose)
    ensures var f := OnConnectedServerMessage(actorId).fields; GetInt(f, 0) == Some(actorId)
    ensures var f := OnCreatedRoomMessage(actorId, groupName).fields;
      GetInt(f, 0) == Some(actorId) && GetString(f, 1) == Some(groupName)
    ensures var f := OnJoinedRoomMessage(actorId, userName, groupName).fields;
      GetInt(f, 0) == Some(actorId) && GetString(f, 1) == Some(userName) && GetString(f, 2) == Some(groupName)
    ensures var f := OnLeftRoomMessage(actorId).fields; GetInt(f, 0) == Some(actorId)
    ensures var f := JoinRoomRequest(userName, groupName).fields;
      GetString(f, 0) == Some(userName) && GetString(f, 1) == Some(groupName)
    ensures var f := LeaveRoomRequest(actorId).fields; GetInt(f, 0) == Some(actorId)
    ensures var f := NetworkInstantiateMessage(objectId, prefabName, pose).fields;
      GetInt(f, 0) == Some(objectId) && GetString(f, 1) == Some(prefabName) && GetPose(f, 2) == Some(pose)
  {
  }

  /** The client's CreateRoom request starts with its actor id where the server reads the room
      name; the name comes second. With the typed reader the server's string read fails there. */
  lemma CreateRoomLayoutsDisagree(actorId: int, groupName: string)
    ensures var f := CreateRoomRequest(actorId, groupName).fields;
      |f| == 2 && f[0] == IntField(actorId) && f[1] == StringField(groupName)
    ensures GetString(CreateRoomRequest(actorId, groupName).fields, 0).None?
  {
  }

  /** The server's removal notice ends after the actor id: there is no count and no id list where
      the client reads them. With the typed reader the count read fails. */
  lemma RemovalNoticeLayoutsDisagree(actorId: int)
    ensures RemovalNotice(actorId).fields == [IntField(actorId)]
    ensures GetInt(RemovalNotice(actorId).fields, 0) == Some(actorId)
    ensures GetInt(RemovalNotice(actorId).fields, 1).None?
  {
  }

  /** A client's pose snapshot starts with the room name where a client reading one expects the
      count; the count comes second. With the typed reader the count read fails. */
  lemma PoseSnapshotLayoutsDisagree(groupName: string, count: int, entries: seq<Field>)
    ensures var f := PoseSnapshot(groupName, count, entries).fields;
      f[0] == StringField(groupName) && f[1] == IntField(count)
    ensures GetInt(PoseSnapshot(groupName, count, entries).fields, 0).None?
  {
  }
}
