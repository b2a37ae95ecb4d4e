/** Size constants of the example game: the object-id partition width and
    the byte sizes of a transform record. */
module NetworkDataSize {

  const SizeOfInt: int := 4
  const SizeOfFloat: int := 4

  /** Object ids are `subId + MaxNetworkObjectID * ownerActorId`. */
  const MaxNetworkObjectID: int := 1000

  /** Position (3 floats) and rotation (4 floats). */
  const Transform: int := SizeOfFloat * 7
  const ActorIdAndTransform: int := SizeOfInt + SizeOfFloat * 7

  lemma SizesAgree()
    ensures Transform == 28
    ensures ActorIdAndTransform == 32
    ensures ActorIdAndTransform == Transform + SizeOfInt
  {
  }
}
