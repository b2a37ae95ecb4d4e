/** The message tags: the first byte of every datagram. Tags 0..7 belong to
    the room protocol, 10 to the example game; the example's
    NetworkInstantiate, RemoveNetworkObjects and UpdateObjectPose tags are
    used but their values are not part of this model, so they are distinct
    constructors of their own. */
module NetworkDataType {

  newtype byte = x: int | 0 <= x < 256

  datatype Tag =
    | Code(value: byte)
    | NetworkInstantiate
    | RemoveNetworkObjects
    | UpdateObjectPose

  const OnConnectedServer: Tag := Code(0)
  const CreateRoom: Tag := Code(1)
  const OnCreatedRoom: Tag := Code(2)
  const JoinRoom: Tag := Code(3)
  const OnJoinedRoom: Tag := Code(4)
  const LeaveRoom: Tag := Code(5)
  const OnLeftRoom: Tag := Code(6)
  const OnPlayerLeftRoom: Tag := Code(7)

  /** Declared by the example game in the other half of the partial class. */
  const PlayerTransform: Tag := Code(10)

  /** The room-protocol tags in declaration order. */
  const SessionTags: seq<Tag> :=
    [OnConnectedServer, CreateRoom, OnCreatedRoom, JoinRoom,
     OnJoinedRoom, LeaveRoom, OnLeftRoom, OnPlayerLeftRoom]

  /** The room-protocol tags are the contiguous byte values 0..7, hence pairwise distinct. */
  lemma SessionTagsContiguous()
    ensures |SessionTags| == 8
    ensures forall i :: 0 <= i < |SessionTags| ==> SessionTags[i] == Code(i as byte)
    ensures forall i, j :: 0 <= i < j < |SessionTags| ==> SessionTags[i] != SessionTags[j]
  {
  }

  /** Every request tag differs from the tag of its reply. */
  lemma RequestsDifferFromReplies()
    ensures CreateRoom != OnCreatedRoom
    ensures JoinRoom != OnJoinedRoom
    ensures LeaveRoom != OnLeftRoom
  {
  }

  /** The game's tags collide with no room-protocol tag and with each other. */
  lemma GameTagsDistinct()
    ensures PlayerTransform.value == 10 && PlayerTransform !in SessionTags
    ensures forall t :: t in SessionTags + [PlayerTransform] ==>
              t != NetworkInstantiate && t != RemoveNetworkObjects && t != UpdateObjectPose
    ensures NetworkInstantiate != RemoveNetworkObjects
    ensures NetworkInstantiate != UpdateObjectPose
    ensures RemoveNetworkObjects != UpdateObjectPose
  {
  }
}
