/** `GameClient`: the table of objects this client owns, the table of replicas of other clients'
    objects, the cyclic allocator of object ids, the pose snapshot it sends, and the handling of the
    three game messages it receives. */
module ClientObjects {
  import opened Wrappers
  import opened CSharpInt
  import opened NetworkDataType
  import opened NetworkDataSize
  import opened Wire
  import opened Scene
  import opened Seqs
  import Session

  // The allocator, on values. C# `int` arithmetic throughout.

  /** `(subId + 1) % MaxNetworkObjectID`. */
  function NextSubId(subId: int): (r: int)
    ensures -MaxNetworkObjectID < r < MaxNetworkObjectID
  {
    Rem(Wrap32(subId + 1), MaxNetworkObjectID)
  }

  /** `MaxNetworkObjectID * localActorId`. */
  function OwnerOffset(actorId: int): int {
    Wrap32(MaxNetworkObjectID * actorId)
  }

  /** The sub-id the scan holds after k steps from the cursor. */
  function SubIdAt(cursor: int, k: nat): int {
    if k == 0 then cursor else NextSubId(SubIdAt(cursor, k - 1))
  }

  /** The object id the scan tries at step k. */
  function CandidateAt(cursor: int, offset: int, k: nat): int {
    Wrap32(SubIdAt(cursor, k) + offset)
  }

  /** Step k tries a candidate: its sub-id is not 0. */
  predicate Tries(cursor: int, k: nat) {
    SubIdAt(cursor, k) != 0
  }

  /** Step k tries a candidate and finds it free. */
  predicate FreeAt(cursor: int, offset: int, used: set<int>, k: nat) {
    Tries(cursor, k) && CandidateAt(cursor, offset, k) !in used
  }

  /** The id handed out and the cursor afterwards. */
  datatype Allocation = Allocation(objectId: int, cursor: int)

  /** The `for` loop of `NetworkInstantiate` from step i on, holding `newObjectId`; the sub-id it
      holds at step i is `SubIdAt(cursor, i)`. */
  function Scan(cursor: int, offset: int, used: set<int>, i: nat, newObjectId: int): Allocation
    decreases MaxNetworkObjectID + 1 - i
  {
    if i > MaxNetworkObjectID then Allocation(newObjectId, cursor)
    else if !Tries(cursor, i) then Scan(cursor, offset, used, i + 1, newObjectId)
    else
      var id := CandidateAt(cursor, offset, i);
      if id !in used then Allocation(id, id)
      else Scan(cursor, offset, used, i + 1, id)
  }

  /** One step of the scan. */
  lemma ScanStep(cursor: int, offset: int, used: set<int>, i: nat, newObjectId: int)
    requires 1 <= i <= MaxNetworkObjectID
    ensures SubIdAt(cursor, i) == NextSubId(SubIdAt(cursor, i - 1))
    ensures !Tries(cursor, i) ==> Scan(cursor, offset, used, i, newObjectId) == Scan(cursor, offset, used, i + 1, newObjectId)
    ensures Tries(cursor, i) && CandidateAt(cursor, offset, i) !in used ==>
      Scan(cursor, offset, used, i, newObjectId) == Allocation(CandidateAt(cursor, offset, i), CandidateAt(cursor, offset, i))
    ensures Tries(cursor, i) && CandidateAt(cursor, offset, i) in used ==>
      Scan(cursor, offset, used, i, newObjectId) == Scan(cursor, offset, used, i + 1, CandidateAt(cursor, offset, i))
  {
  }

  function Allocate(cursor: int, actorId: int, used: set<int>): Allocation {
    Scan(cursor, OwnerOffset(actorId), used, 1, 0)
  }

  /** The object id with sub-id s in an actor's range. */
  function OwnedId(actorId: int, s: int): int {
    1000 * actorId + s
  }

  // Properties of the allocator.

  /** When some step from i on finds a free candidate, the scan hands out the first one and moves
      the cursor to it. */
  lemma {:induction false} ScanFindsFirstFree(cursor: int, offset: int, used: set<int>, i: nat, lastId: int, j: nat)
    requires 1 <= i <= j <= MaxNetworkObjectID && FreeAt(cursor, offset, used, j)
    ensures exists j' :: (&& i <= j' <= j && FreeAt(cursor, offset, used, j')
      && Scan(cursor, offset, used, i, lastId) == Allocation(CandidateAt(cursor, offset, j'), CandidateAt(cursor, offset, j'))
      && forall j'' :: i <= j'' < j' ==> !FreeAt(cursor, offset, used, j''))
    decreases j - i
  {
    if !FreeAt(cursor, offset, used, i) {
      var next := if !Tries(cursor, i) then lastId else CandidateAt(cursor, offset, i);
      ScanFindsFirstFree(cursor, offset, used, i + 1, next, j);
    }
  }

  /** When no step from i on finds a free candidate, the cursor is kept and the id handed out is
      the last candidate tried, which is in use, or the id the scan held if it tried none. */
  lemma {:induction false} ScanExhausted(cursor: int, offset: int, used: set<int>, i: nat, lastId: int)
    requires 1 <= i
    requires forall j :: i <= j <= MaxNetworkObjectID ==> !FreeAt(cursor, offset, used, j)
    ensures Scan(cursor, offset, used, i, lastId).cursor == cursor
    ensures (forall j :: i <= j <= MaxNetworkObjectID ==> !Tries(cursor, j)) ==>
      Scan(cursor, offset, used, i, lastId).objectId == lastId
    ensures (exists j :: i <= j <= MaxNetworkObjectID && Tries(cursor, j)) ==>
      var id := Scan(cursor, offset, used, i, lastId).objectId;
      id in used && exists j :: i <= j <= MaxNetworkObjectID && Tries(cursor, j) && id == CandidateAt(cursor, offset, j)
    decreases MaxNetworkObjectID + 1 - i
  {
    if i <= MaxNetworkObjectID {
      assert !FreeAt(cursor, offset, used, i);
      if !Tries(cursor, i) {
        ScanExhausted(cursor, offset, used, i + 1, lastId);
      } else {
        var next := CandidateAt(cursor, offset, i);
        ScanExhausted(cursor, offset, used, i + 1, next);
        if forall j :: i + 1 <= j <= MaxNetworkObjectID ==> !Tries(cursor, j) {
          assert Scan(cursor, offset, used, i, lastId).objectId == next;
        }
      }
    }
  }

  lemma ModSuccessor(x: int)
    requires x >= 0
    ensures (x % 1000 + 1) % 1000 == (x + 1) % 1000
  {
  }

  /** From a cursor that is not negative (and not the largest `int`), the scan visits the sub-ids
      cyclically, starting just after the cursor's residue. */
  lemma {:induction false} SubIdClosedForm(cursor: int, k: nat)
    requires 0 <= cursor < Int32Max && k >= 1
    ensures SubIdAt(cursor, k) == (cursor + k) % 1000
  {
    if k == 1 {
      assert Wrap32(cursor + 1) == cursor + 1;
    } else {
      SubIdClosedForm(cursor, k - 1);
      var x := SubIdAt(cursor, k - 1);
      assert 0 <= x < 1000;
      assert Wrap32(x + 1) == x + 1;
      ModSuccessor(cursor + k - 1);
    }
  }

  /** The number of steps from a cursor to sub-id s. */
  function StepsTo(cursor: int, s: int): int {
    if s > cursor % 1000 then s - cursor % 1000 else s - cursor % 1000 + 1000
  }

  lemma StepsToReaches(cursor: int, s: int)
    requires 0 <= cursor && 1 <= s < 1000
    ensures 1 <= StepsTo(cursor, s) <= 1000
    ensures (cursor + StepsTo(cursor, s)) % 1000 == s
  {
  }

  /** Every sub-id 1..999 is tried within the 1000 steps. */
  lemma EverySubIdVisited(cursor: int, s: int)
    requires 0 <= cursor < Int32Max && 1 <= s < MaxNetworkObjectID
    ensures 1 <= StepsTo(cursor, s) <= MaxNetworkObjectID && SubIdAt(cursor, StepsTo(cursor, s)) == s
  {
    StepsToReaches(cursor, s);
    SubIdClosedForm(cursor, StepsTo(cursor, s));
  }

  /** For an actor whose id range fits in an `int`, a tried candidate is the actor's id with the
      step's sub-id. */
  lemma CandidateIsOwned(cursor: int, actorId: int, j: nat)
    requires 0 <= cursor < Int32Max && 1 <= j
    requires actorId >= 0 && OwnedId(actorId, MaxNetworkObjectID - 1) <= Int32Max
    ensures CandidateAt(cursor, OwnerOffset(actorId), j) == OwnedId(actorId, SubIdAt(cursor, j))
  {
    SubIdClosedForm(cursor, j);
  }

  /** From a cursor that is not negative, one of the first two steps tries a candidate. */
  lemma SomeCandidateTried(cursor: int)
    requires 0 <= cursor < Int32Max
    ensures Tries(cursor, 1) || Tries(cursor, 2)
  {
    SubIdClosedForm(cursor, 1);
    SubIdClosedForm(cursor, 2);
  }

  /** The step whose candidate a scan from a cursor that is not negative hands out. */
  lemma AllocatedStep(cursor: int, offset: int, used: set<int>) returns (j: nat)
    requires 0 <= cursor < Int32Max
    ensures 1 <= j <= MaxNetworkObjectID && Tries(cursor, j)
    ensures Scan(cursor, offset, used, 1, 0).objectId == CandidateAt(cursor, offset, j)
    ensures Scan(cursor, offset, used, 1, 0).cursor in {cursor, CandidateAt(cursor, offset, j)}
  {
    if k :| 1 <= k <= MaxNetworkObjectID && FreeAt(cursor, offset, used, k) {
      ScanFindsFirstFree(cursor, offset, used, 1, 0, k);
      j :| 1 <= j <= k && FreeAt(cursor, offset, used, j)
        && Scan(cursor, offset, used, 1, 0) == Allocation(CandidateAt(cursor, offset, j), CandidateAt(cursor, offset, j));
    } else {
      ScanExhausted(cursor, offset, used, 1, 0);
      SomeCandidateTried(cursor);
      assert Tries(cursor, 1) || Tries(cursor, 2);
      j :| 1 <= j <= MaxNetworkObjectID && Tries(cursor, j) && Scan(cursor, offset, used, 1, 0).objectId == CandidateAt(cursor, offset, j);
    }
  }

  /** For an actor whose range fits in an `int` and a cursor that is not negative, the id handed
      out lies in the actor's range with a sub-id from 1 to 999, and the cursor stays a valid
      starting point. */
  lemma AllocateInOwnerRange(cursor: int, actorId: int, used: set<int>)
    requires 0 <= cursor < Int32Max
    requires actorId >= 0 && OwnedId(actorId, MaxNetworkObjectID - 1) <= Int32Max
    ensures OwnedId(actorId, 1) <= Allocate(cursor, actorId, used).objectId <= OwnedId(actorId, MaxNetworkObjectID - 1)
    ensures 0 <= Allocate(cursor, actorId, used).cursor < Int32Max
  {
    var offset := OwnerOffset(actorId);
    var r := Allocate(cursor, actorId, used);
    var j := AllocatedStep(cursor, offset, used);
    CandidateIsOwned(cursor, actorId, j);
    SubIdClosedForm(cursor, j);
  }

  /** If one of the actor's ids 1..999 is free, the first free one in scan order is handed out and
      becomes the cursor. */
  lemma AllocateFirstFree(cursor: int, actorId: int, used: set<int>, s: int)
    requires 0 <= cursor < Int32Max
    requires actorId >= 0 && OwnedId(actorId, MaxNetworkObjectID - 1) <= Int32Max
    requires 1 <= s < MaxNetworkObjectID && OwnedId(actorId, s) !in used
    ensures var r := Allocate(cursor, actorId, used);
      && r.objectId !in used && r.cursor == r.objectId
      && exists j :: 1 <= j <= MaxNetworkObjectID && FreeAt(cursor, OwnerOffset(actorId), used, j)
           && r.objectId == CandidateAt(cursor, OwnerOffset(actorId), j)
           && forall j' :: 1 <= j' < j ==> !FreeAt(cursor, OwnerOffset(actorId), used, j')
  {
    EverySubIdVisited(cursor, s);
    var k := StepsTo(cursor, s);
    CandidateIsOwned(cursor, actorId, k);
    ScanFindsFirstFree(cursor, OwnerOffset(actorId), used, 1, 0, k);
  }

  /** If all of the actor's ids 1..999 are in use, no failure is reported: an id already in use is
      handed out again, so its object is overwritten, and the cursor stays. */
  lemma AllocateWhenFull(cursor: int, actorId: int, used: set<int>)
    requires 0 <= cursor < Int32Max
    requires actorId >= 0 && OwnedId(actorId, MaxNetworkObjectID - 1) <= Int32Max
    requires forall s :: 1 <= s < MaxNetworkObjectID ==> OwnedId(actorId, s) in used
    ensures Allocate(cursor, actorId, used).objectId in used
    ensures Allocate(cursor, actorId, used).cursor == cursor
  {
    var offset := OwnerOffset(actorId);
    forall k | 1 <= k <= MaxNetworkObjectID ensures !FreeAt(cursor, offset, used, k) {
      CandidateIsOwned(cursor, actorId, k);
      SubIdClosedForm(cursor, k);
    }
    ScanExhausted(cursor, offset, used, 1, 0);
    SomeCandidateTried(cursor);
    assert 1 <= 1 <= MaxNetworkObjectID && 1 <= 2 <= MaxNetworkObjectID;
  }

  lemma ShiftResidue(a: int, x: int)
    requires a >= 0 && x >= 0
    ensures (1000 * a + x) % 1000 == x % 1000
  {
  }

  /** The cursor keeps the whole id rather than the sub-id; for an actor that is not negative this
      is harmless, as the scan from the id visits the same sub-ids as the scan from its sub-id. */
  lemma CursorResidue(actorId: int, s: int, k: nat)
    requires actorId >= 0 && OwnedId(actorId, MaxNetworkObjectID - 1) <= Int32Max
    requires 0 <= s < MaxNetworkObjectID && k >= 1
    ensures SubIdAt(OwnedId(actorId, s), k) == SubIdAt(s, k)
  {
    SubIdClosedForm(OwnedId(actorId, s), k);
    SubIdClosedForm(s, k);
    ShiftResidue(actorId, s + k);
  }

  /** With the actor id still -1 (before the server assigned one), the cursor becomes negative after
      the first allocation, and the second allocation leaves the range [-1000, -1). */
  lemma NegativeActorLeavesRange()
    ensures Allocate(0, -1, {}) == Allocation(-999, -999)
    ensures Allocate(-999, -1, {-999}) == Allocation(-1998, -1998)
  {
    assert NextSubId(0) == 1;
    assert NextSubId(-999) == -998;
  }

  lemma FirstAllocation()
    ensures Allocate(0, 1, {}) == Allocation(1001, 1001)
  {
    assert NextSubId(0) == 1;
  }

  // Pose snapshots and updates, on values.

  /** ids lists every key exactly once. */
  ghost predicate IsEnumeration(ids: seq<int>, keys: set<int>) {
    && NoDuplicates(ids)
    && (forall k :: 0 <= k < |ids| ==> ids[k] in keys)
    && (forall x :: x in keys ==> x in ids)
  }

  function Poses(objects: map<int, SceneObject>): (r: map<int, Pose>)
    ensures r.Keys == objects.Keys
    ensures forall k :: k in r ==> r[k] == objects[k].pose
  {
    map k | k in objects :: objects[k].pose
  }

  /** The snapshot `SendPose` writes, for a given enumeration order of the local table. */
  function Snapshot(groupName: string, objects: map<int, SceneObject>, ids: seq<int>): Message
    requires IsEnumeration(ids, objects.Keys)
  {
    PoseSnapshot(groupName, |objects|, PoseEntries(ids, Poses(objects)))
  }

  /** The snapshot's count is the number of entries that follow it, and entry k is the k-th id
      with that object's pose. */
  lemma {:induction false} SnapshotLayout(groupName: string, objects: map<int, SceneObject>, ids: seq<int>, k: nat)
    requires IsEnumeration(ids, objects.Keys)
    ensures |objects| == |ids|
    ensures Snapshot(groupName, objects, ids).fields[1] == IntField(|ids|)
    ensures |Snapshot(groupName, objects, ids).fields| == 2 + 2 * |ids|
    ensures k < |ids| ==>
      && Snapshot(groupName, objects, ids).fields[2 + 2 * k] == IntField(ids[k])
      && Snapshot(groupName, objects, ids).fields[3 + 2 * k] == PoseField(objects[ids[k]].pose)
  {
    assert forall x :: x in ids <==> x in objects.Keys;
    NoDuplicatesCardinality(ids, objects.Keys);
    PoseEntriesAt(ids, Poses(objects), k);
  }

  lemma {:induction false} PoseEntriesAt(ids: seq<int>, poses: map<int, Pose>, k: nat)
    requires forall j :: 0 <= j < |ids| ==> ids[j] in poses
    ensures |PoseEntries(ids, poses)| == 2 * |ids|
    ensures k < |ids| ==>
      PoseEntries(ids, poses)[2 * k] == IntField(ids[k]) && PoseEntries(ids, poses)[2 * k + 1] == PoseField(poses[ids[k]])
    decreases |ids|
  {
    if ids != [] {
      var init := ids[..|ids| - 1];
      PoseEntriesAt(init, poses, if k < |init| then k else 0);
    }
  }

  datatype PoseEntry = PoseEntry(id: int, pose: Pose)

  /** The k-th entry of a pose update whose entries start at p. */
  function PoseEntryAt(fields: seq<Field>, p: nat, k: nat): Option<PoseEntry> {
    match (GetInt(fields, p + 2 * k), GetPose(fields, p + 2 * k + 1))
    case (Some(id), Some(pose)) => Some(PoseEntry(id, pose))
    case _ => None
  }

  /** How many of the n entries from index k on can be read before a read fails. */
  function ReadableFrom(fields: seq<Field>, p: nat, n: int, k: nat): (m: nat)
    ensures k <= m
    ensures k <= n ==> m <= n
    ensures m < n ==> PoseEntryAt(fields, p, m).None?
    ensures forall j :: k <= j < m ==> PoseEntryAt(fields, p, j).Some?
    decreases n - k
  {
    if k >= n then k
    else if PoseEntryAt(fields, p, k).None? then k
    else ReadableFrom(fields, p, n, k + 1)
  }

  /** The first m entries. */
  function EntriesRead(fields: seq<Field>, p: nat, m: nat): (r: seq<PoseEntry>)
    requires forall j :: 0 <= j < m ==> PoseEntryAt(fields, p, j).Some?
    ensures |r| == m
    ensures forall j :: 0 <= j < m ==> r[j] == PoseEntryAt(fields, p, j).value
  {
    seq(m, j requires 0 <= j < m => PoseEntryAt(fields, p, j).value)
  }

  /** One entry applied: the pose of a known replica is set, an unknown id is ignored. */
  function ApplyPose(objects: map<int, SceneObject>, e: PoseEntry): map<int, SceneObject> {
    if e.id in objects then objects[e.id := objects[e.id].(pose := e.pose)] else objects
  }

  /** The entries applied in order. */
  function ApplyPoses(objects: map<int, SceneObject>, entries: seq<PoseEntry>): map<int, SceneObject>
    decreases |entries|
  {
    if entries == [] then objects
    else ApplyPose(ApplyPoses(objects, entries[..|entries| - 1]), entries[|entries| - 1])
  }

  /** Reading one more entry applies it after the earlier ones. */
  lemma ApplyNextEntry(objects: map<int, SceneObject>, fields: seq<Field>, p: nat, k: nat)
    requires forall j :: 0 <= j <= k ==> PoseEntryAt(fields, p, j).Some?
    ensures ApplyPoses(objects, EntriesRead(fields, p, k + 1))
      == ApplyPose(ApplyPoses(objects, EntriesRead(fields, p, k)), PoseEntryAt(fields, p, k).value)
  {
    assert EntriesRead(fields, p, k + 1)[..k] == EntriesRead(fields, p, k);
  }

  /** Pose updates never add or remove a replica and never change a prefab. */
  lemma {:induction false} ApplyPosesKeepsReplicas(objects: map<int, SceneObject>, entries: seq<PoseEntry>)
    ensures ApplyPoses(objects, entries).Keys == objects.Keys
    ensures forall id :: id in objects ==> ApplyPoses(objects, entries)[id].prefabName == objects[id].prefabName
    decreases |entries|
  {
    if entries != [] {
      ApplyPosesKeepsReplicas(objects, entries[..|entries| - 1]);
    }
  }

  /** A replica no entry names keeps its pose. */
  lemma {:induction false} ApplyPosesFrame(objects: map<int, SceneObject>, entries: seq<PoseEntry>, id: int)
    requires id in objects
    requires forall k :: 0 <= k < |entries| ==> entries[k].id != id
    ensures id in ApplyPoses(objects, entries) && ApplyPoses(objects, entries)[id] == objects[id]
    decreases |entries|
  {
    if entries != [] {
      var init := entries[..|entries| - 1];
      assert forall k :: 0 <= k < |init| ==> init[k] == entries[k];
      ApplyPosesFrame(objects, init, id);
    }
  }

  /** A named replica ends with the pose of the last entry naming it. */
  lemma {:induction false} ApplyPosesLastWins(objects: map<int, SceneObject>, entries: seq<PoseEntry>, k: nat)
    requires k < |entries| && entries[k].id in objects
    requires forall k' :: k < k' < |entries| ==> entries[k'].id != entries[k].id
    ensures entries[k].id in ApplyPoses(objects, entries)
    ensures ApplyPoses(objects, entries)[entries[k].id].pose == entries[k].pose
    decreases |entries|
  {
    var init, last := entries[..|entries| - 1], entries[|entries| - 1];
    ApplyPosesKeepsReplicas(objects, init);
    if k < |init| {
      assert forall j :: 0 <= j < |init| ==> init[j] == entries[j];
      ApplyPosesLastWins(objects, init, k);
    }
  }

  /** The replicas without the listed ids. */
  function WithoutIds(objects: map<int, SceneObject>, ids: seq<int>): (r: map<int, SceneObject>)
    ensures forall k :: k in r <==> k in objects && k !in ids
    ensures forall k :: k in r ==> r[k] == objects[k]
  {
    map k | k in objects && k !in ids :: objects[k]
  }

  datatype ObjectsStep = ObjectsStep(objects: map<int, SceneObject>, next: Option<nat>)

  /** An instantiation: an object id, a prefab name and a pose; the replica is stored under the id. */
  function ReceiveInstantiate(objects: map<int, SceneObject>, fields: seq<Field>, pos: nat): ObjectsStep {
    match (GetInt(fields, pos), GetString(fields, pos + 1), GetPose(fields, pos + 2))
    case (Some(objectId), Some(prefabName), Some(pose)) =>
      ObjectsStep(objects[objectId := SceneObject(prefabName, pose)], Some(pos + 3))
    case _ => ObjectsStep(objects, None)
  }

  /** A removal: an actor id (read and ignored), a count and that many object ids. */
  function ReceiveRemoval(objects: map<int, SceneObject>, fields: seq<Field>, pos: nat): ObjectsStep {
    match (GetInt(fields, pos), GetInt(fields, pos + 1))
    case (Some(_), Some(dataNum)) =>
      (match ReadIds(fields, pos + 2, dataNum)
       case Some(ids) => ObjectsStep(WithoutIds(objects, ids), Some(pos + 2 + |ids|))
       case None => ObjectsStep(objects, None))
    case _ => ObjectsStep(objects, None)
  }

  /** A pose update: a count and that many entries, each applied as soon as it is read, so a read
      that fails midway leaves the earlier entries applied. */
  function ReceivePoses(objects: map<int, SceneObject>, fields: seq<Field>, pos: nat): ObjectsStep {
    match GetInt(fields, pos)
    case Some(dataNum) =>
      var m := ReadableFrom(fields, pos + 1, dataNum, 0);
      ObjectsStep(ApplyPoses(objects, EntriesRead(fields, pos + 1, m)),
                  if m >= dataNum then Some(pos + 1 + 2 * m) else None)
    case None => ObjectsStep(objects, None)
  }

  /** `GameClient.OnNetworkEventReceived` on the replica table; other tags are not its own. */
  function Receive(objects: map<int, SceneObject>, tag: Tag, fields: seq<Field>, pos: nat): ObjectsStep {
    if tag == NetworkInstantiate then ReceiveInstantiate(objects, fields, pos)
    else if tag == RemoveNetworkObjects then ReceiveRemoval(objects, fields, pos)
    else if tag == UpdateObjectPose then ReceivePoses(objects, fields, pos)
    else ObjectsStep(objects, Some(pos))
  }

  // Properties of the replica table.

  /** A relayed instantiation is stored under its id, replacing any replica there. */
  lemma RelayedInstantiateIsStored(objects: map<int, SceneObject>, objectId: int, prefabName: string, pose: Pose)
    ensures Receive(objects, NetworkInstantiate, NetworkInstantiateMessage(objectId, prefabName, pose).fields, 0)
      == ObjectsStep(objects[objectId := SceneObject(prefabName, pose)], Some(3))
  {
  }

  /** The removal notice the server sends ends after the actor id, so a client cannot read a count
      or ids from it. In the typed field model the count read fails and no replica is removed; what
      the library's byte reader returns past the end is not part of this model. */
  lemma RemovalNoticeUnreadable(objects: map<int, SceneObject>, actorId: int)
    ensures Receive(objects, RemoveNetworkObjects, RemovalNotice(actorId).fields, 0) == ObjectsStep(objects, None)
  {
  }

  /** A well-formed removal message removes exactly the listed replicas that are present. */
  lemma RemovalReadsListedIds(objects: map<int, SceneObject>, actorId: int, ids: seq<int>)
    ensures var fields := [IntField(actorId), IntField(|ids|)] + seq(|ids|, k requires 0 <= k < |ids| => IntField(ids[k]));
      Receive(objects, RemoveNetworkObjects, fields, 0) == ObjectsStep(WithoutIds(objects, ids), Some(2 + |ids|))
  {
    var fields := [IntField(actorId), IntField(|ids|)] + seq(|ids|, k requires 0 <= k < |ids| => IntField(ids[k]));
    assert forall k :: 2 <= k < 2 + |ids| ==> fields[k].IntField?;
    var r := ReadIds(fields, 2, |ids|);
    assert r.Some?;
    assert r.value == ids;
  }

  /** A pose update, however malformed, never adds or removes a replica or changes a prefab. */
  lemma PoseUpdateKeepsReplicaSet(objects: map<int, SceneObject>, fields: seq<Field>, pos: nat)
    ensures Receive(objects, UpdateObjectPose, fields, pos).objects.Keys == objects.Keys
    ensures forall id :: id in objects ==>
      Receive(objects, UpdateObjectPose, fields, pos).objects[id].prefabName == objects[id].prefabName
  {
    match GetInt(fields, pos)
    case Some(dataNum) =>
      var m := ReadableFrom(fields, pos + 1, dataNum, 0);
      ApplyPosesKeepsReplicas(objects, EntriesRead(fields, pos + 1, m));
    case None =>
  }

  /** A client's own snapshot starts with its room name where the reader expects the count, so a
      client cannot read the snapshot as written. In the typed field model the count read fails and
      nothing is applied; the library's byte reader would decode the name's bytes as a count. */
  lemma SnapshotUnreadable(objects: map<int, SceneObject>, groupName: string, local: map<int, SceneObject>, ids: seq<int>)
    requires IsEnumeration(ids, local.Keys)
    ensures Receive(objects, UpdateObjectPose, Snapshot(groupName, local, ids).fields, 0) == ObjectsStep(objects, None)
  {
  }

  lemma {:induction false} ReadableFromIs(fields: seq<Field>, p: nat, n: int, j: nat, k: nat)
    requires j <= k && (j == k || k <= n)
    requires forall i :: j <= i < k ==> PoseEntryAt(fields, p, i).Some?
    requires k >= n || PoseEntryAt(fields, p, k).None?
    ensures ReadableFrom(fields, p, n, j) == k
    decreases k - j
  {
    if j < k {
      ReadableFromIs(fields, p, n, j + 1, k);
    }
  }

  class GameClient {
    const client: Session.MultiplayerClient
    /** `_LocalObjectDictionary`. */
    var localObjects: map<int, SceneObject>
    /** `_NetworkObjectDictionary`. */
    var networkObjects: map<int, SceneObject>
    /** `_LastUsedSubId`: in fact the last id handed out. */
    var lastUsedSubId: int

    constructor (client: Session.MultiplayerClient)
      ensures this.client == client
      ensures localObjects == map[] && networkObjects == map[] && lastUsedSubId == 0
    {
      this.client := client;
      localObjects := map[];
      networkObjects := map[];
      lastUsedSubId := 0;
    }

    /** Takes an id for a new local object, stores the object and announces it to the server. */
    method NetworkInstantiate(prefabName: string, pose: Pose)
      modifies this`localObjects, this`lastUsedSubId, client`outbox
      ensures var a := Allocate(old(lastUsedSubId), client.localActorId, old(localObjects).Keys);
        && localObjects == old(localObjects)[a.objectId := SceneObject(prefabName, pose)]
        && lastUsedSubId == a.cursor
        && client.outbox == old(client.outbox) + [NetworkInstantiateMessage(a.objectId, prefabName, pose)]
    {
      ghost var used := localObjects.Keys;
      ghost var a := Allocate(lastUsedSubId, client.localActorId, used);
      var newObjectId := 0;
      var subId := lastUsedSubId;
      var localActorId := client.localActorId;
      var ownerIdOffset := Wrap32(MaxNetworkObjectID * localActorId);
      for i := 1 to MaxNetworkObjectID + 1
        invariant lastUsedSubId == old(lastUsedSubId)
        invariant localObjects == old(localObjects) && client.outbox == old(client.outbox)
        invariant subId == SubIdAt(lastUsedSubId, i - 1)
        invariant ownerIdOffset == OwnerOffset(localActorId)
        invariant Scan(lastUsedSubId, ownerIdOffset, used, i, newObjectId)
          == a
      {
        ScanStep(lastUsedSubId, ownerIdOffset, used, i, newObjectId);
        subId := Rem(Wrap32(subId + 1), MaxNetworkObjectID);
        if subId == 0 {
          continue;
        }
        newObjectId := Wrap32(subId + ownerIdOffset);
        if newObjectId !in localObjects {
          assert a == Allocation(newObjectId, newObjectId);
          lastUsedSubId := newObjectId;
          break;
        }
      }
      assert newObjectId == a.objectId && lastUsedSubId == a.cursor;
      localObjects := localObjects[newObjectId := SceneObject(prefabName, pose)];
      client.SendData(Message(NetworkDataType.NetworkInstantiate, [IntField(newObjectId), StringField(prefabName), PoseField(pose)]));
    }

    /** Sends the pose of every local object, when joined and owning at least one. */
    method SendPose()
      requires client.Valid()
      modifies client`outbox
      ensures !client.joined || |localObjects| < 1 ==> client.outbox == old(client.outbox)
      ensures client.joined && |localObjects| >= 1 ==>
        exists ids :: IsEnumeration(ids, localObjects.Keys)
          && client.outbox == old(client.outbox) + [Snapshot(client.groupName.value, localObjects, ids)]
    {
      if !client.joined || |localObjects| < 1 {
        return;
      }
      var dataNum := |localObjects|;
      var entries: seq<Field> := [];
      var remaining := localObjects.Keys;
      ghost var ids: seq<int> := [];
      while remaining != {}
        invariant remaining <= localObjects.Keys
        invariant client.outbox == old(client.outbox)
        invariant NoDuplicates(ids)
        invariant forall x :: x in ids <==> x in localObjects && x !in remaining
        invariant forall j :: 0 <= j < |ids| ==> ids[j] in Poses(localObjects)
        invariant entries == PoseEntries(ids, Poses(localObjects))
        decreases |remaining|
      {
        NonEmptyHasMember(remaining);
        var id :| id in remaining;
        entries := entries + [IntField(id), PoseField(localObjects[id].pose)];
        NoDuplicatesSnoc(ids, id);
        assert (ids + [id])[..|ids|] == ids;
        ids := ids + [id];
        remaining := remaining - {id};
      }
      assert IsEnumeration(ids, localObjects.Keys);
      client.SendData(PoseSnapshot(client.groupName.value, dataNum, entries));
      assert client.outbox == old(client.outbox) + [Snapshot(client.groupName.value, localObjects, ids)];
    }

    method OnNetworkEventReceived(tag: Tag, fields: seq<Field>, pos: nat) returns (next: Option<nat>)
      modifies this`networkObjects
      ensures var step := Receive(old(networkObjects), tag, fields, pos);
        networkObjects == step.objects && next == step.next
    {
      next := Some(pos);
      if tag == NetworkDataType.NetworkInstantiate {
        next := ReceiveInstantiateData(fields, pos);
      }
      if tag == NetworkDataType.RemoveNetworkObjects {
        next := ReceiveRemovalData(fields, pos);
      }
      if tag == NetworkDataType.UpdateObjectPose {
        next := ReceivePoseData(fields, pos);
      }
    }

    /** The `NetworkInstantiate` branch of the handler. */
    method ReceiveInstantiateData(fields: seq<Field>, pos: nat) returns (next: Option<nat>)
      modifies this`networkObjects
      ensures var step := ReceiveInstantiate(old(networkObjects), fields, pos);
        networkObjects == step.objects && next == step.next
    {
      var objectId := GetInt(fields, pos);
      var prefabName := GetString(fields, pos + 1);
      var pose := GetPose(fields, pos + 2);
      if objectId.None? || prefabName.None? || pose.None? {
        return None;
      }
      OnNetworkInstantiate(objectId.value, prefabName.value, pose.value);
      next := Some(pos + 3);
    }

    /** The `RemoveNetworkObjects` branch of the handler. */
    method ReceiveRemovalData(fields: seq<Field>, pos: nat) returns (next: Option<nat>)
      modifies this`networkObjects
      ensures var step := ReceiveRemoval(old(networkObjects), fields, pos);
        networkObjects == step.objects && next == step.next
    {
      var actorId := GetInt(fields, pos);
      if actorId.None? {
        return None;
      }
      var dataNum := GetInt(fields, pos + 1);
      if dataNum.None? || dataNum.value < 0 {
        return None;
      }
      var objectIdList: seq<int> := [];
      var k := 0;
      while k < dataNum.value
        invariant 0 <= k <= dataNum.value && |objectIdList| == k
        invariant forall j :: 0 <= j < k ==> GetInt(fields, pos + 2 + j) == Some(objectIdList[j])
        invariant networkObjects == old(networkObjects)
      {
        var objectId := GetInt(fields, pos + 2 + k);
        if objectId.None? {
          return None;
        }
        objectIdList := objectIdList + [objectId.value];
        k := k + 1;
      }
      ghost var read := ReadIds(fields, pos + 2, dataNum.value);
      assert read.Some? by {
        forall i | pos + 2 <= i < pos + 2 + dataNum.value ensures GetInt(fields, i).Some? {
          assert GetInt(fields, pos + 2 + (i - pos - 2)) == Some(objectIdList[i - pos - 2]);
        }
      }
      assert read.value == objectIdList;
      OnRemoveNetworkObjects(objectIdList);
      next := Some(pos + 2 + k);
    }

    /** The `UpdateObjectPose` branch of the handler. */
    method ReceivePoseData(fields: seq<Field>, pos: nat) returns (next: Option<nat>)
      modifies this`networkObjects
      ensures var step := ReceivePoses(old(networkObjects), fields, pos);
        networkObjects == step.objects && next == step.next
    {
      var dataNum := GetInt(fields, pos);
      if dataNum.None? {
        return None;
      }
      var p := pos + 1;
      var k := 0;
      while k < dataNum.value
        invariant 0 <= k && (k == 0 || k <= dataNum.value)
        invariant forall j :: 0 <= j < k ==> PoseEntryAt(fields, p, j).Some?
        invariant networkObjects == ApplyPoses(old(networkObjects), EntriesRead(fields, p, k))
      {
        var objectId := GetInt(fields, p + 2 * k);
        var pose := GetPose(fields, p + 2 * k + 1);
        if objectId.None? || pose.None? {
          ReadableFromIs(fields, p, dataNum.value, 0, k);
          return None;
        }
        ApplyNextEntry(old(networkObjects), fields, p, k);
        if objectId.value in networkObjects {
          networkObjects := networkObjects[objectId.value := networkObjects[objectId.value].(pose := pose.value)];
        }
        k := k + 1;
      }
      ReadableFromIs(fields, p, dataNum.value, 0, k);
      next := Some(p + 2 * k);
    }

    method OnLeftRoom()
      modifies this`localObjects, this`lastUsedSubId
      ensures localObjects == map[] && lastUsedSubId == 0
    {
      OnRemoveLocalObjects();
    }

    method OnNetworkInstantiate(objectId: int, prefabName: string, pose: Pose)
      modifies this`networkObjects
      ensures networkObjects == old(networkObjects)[objectId := SceneObject(prefabName, pose)]
    {
      networkObjects := networkObjects[objectId := SceneObject(prefabName, pose)];
    }

    method OnRemoveLocalObjects()
      modifies this`localObjects, this`lastUsedSubId
      ensures localObjects == map[] && lastUsedSubId == 0
    {
      while localObjects != map[]
        decreases |localObjects.Keys|
      {
        NonEmptyHasMember(localObjects.Keys);
        var key :| key in localObjects;
        localObjects := localObjects - {key};
      }
      lastUsedSubId := 0;
    }

    method OnRemoveNetworkObjects(objectIdList: seq<int>)
      modifies this`networkObjects
      ensures networkObjects == WithoutIds(old(networkObjects), objectIdList)
    {
      var k := 0;
      while k < |objectIdList|
        invariant 0 <= k <= |objectIdList|
        invariant networkObjects == WithoutIds(old(networkObjects), objectIdList[..k])
      {
        var id := objectIdList[k];
        assert objectIdList[..k + 1] == objectIdList[..k] + [id];
        if id in networkObjects {
          networkObjects := networkObjects - {id};
        }
        k := k + 1;
      }
      assert objectIdList[..k] == objectIdList;
    }
  }
}
