/** The server's room registry, `MultiplayerServer`: actors keyed by id,
    groups keyed by name, each group holding its members in join order.
    The operations are first specified on registry values (`...Next` gives
    the new registry, `...Sends` the sends asked of the transport, in order)
    and then implemented by the class, whose methods change the dictionaries
    in place and send through `LiteNetLibServer.SendData`. */
module Rooms {
  import opened Wrappers
  import opened NetworkDataType
  import opened Wire
  import opened Seqs
  import opened LiteNetLibUtil
  import Transport

  datatype Actor = Actor(actorId: int, userName: string, groupName: string)

  datatype Group = Group(name: string, actors: seq<int>)

  datatype Registry = Registry(actors: map<int, Actor>, groups: map<string, Group>)

  const EmptyRegistry: Registry := Registry(map[], map[])

  /** The registry invariant: a registered actor is listed in the group its `groupName` names,
      member lists have no repeats, and every listed member is registered under that group. */
  ghost predicate Consistent(r: Registry) {
    && (forall a :: a in r.actors ==>
          && r.actors[a].actorId == a
          && r.actors[a].groupName in r.groups
          && a in r.groups[r.actors[a].groupName].actors)
    && (forall g :: g in r.groups ==> r.groups[g].name == g && NoDuplicates(r.groups[g].actors))
    && (forall g, i :: g in r.groups && 0 <= i < |r.groups[g].actors| ==>
          && r.groups[g].actors[i] in r.actors
          && r.actors[r.groups[g].actors[i]].groupName == g)
  }

  /** What routing needs of a registry: every registered actor names an existing group. */
  predicate Routable(r: Registry) {
    forall a :: a in r.actors ==> r.actors[a].groupName in r.groups
  }

  /** The members of a registered sender's group, in join order; nothing for an unregistered sender. */
  function Members(r: Registry, sender: int): seq<int>
    requires Routable(r)
  {
    if sender in r.actors then r.groups[r.actors[sender].groupName].actors else []
  }

  /** The members of s other than x, in order. */
  function Except(s: seq<int>, x: int): seq<int>
    decreases |s|
  {
    if s == [] then []
    else
      var init, last := s[..|s| - 1], s[|s| - 1];
      assert s == init + [last];
      Except(init, x) + (if last != x then [last] else [])
  }

  /** `List<int>.Remove`: drops the first occurrence of x, if any. */
  function RemoveFirst(s: seq<int>, x: int): seq<int> {
    if s == [] then []
    else if s[0] == x then s[1..]
    else [s[0]] + RemoveFirst(s[1..], x)
  }

  lemma {:induction false} ExceptMembership(s: seq<int>, x: int, y: int)
    ensures y in Except(s, x) <==> y in s && y != x
    decreases |s|
  {
    if s != [] {
      var init, last := s[..|s| - 1], s[|s| - 1];
      assert s == init + [last];
      ExceptMembership(init, x, y);
    }
  }

  lemma ExceptSnoc(s: seq<int>, y: int, x: int)
    ensures Except(s + [y], x) == Except(s, x) + (if y != x then [y] else [])
  {
    assert (s + [y])[..|s + [y]| - 1] == s;
  }

  /** One send of m to each recipient, in order. */
  function Broadcast(recipients: seq<int>, m: Message): seq<Send> {
    seq(|recipients|, i requires 0 <= i < |recipients| => Send(recipients[i], m))
  }

  /** `SendToGroup`. */
  function GroupSends(r: Registry, sender: int, m: Message): seq<Send>
    requires Routable(r)
  {
    Broadcast(Members(r, sender), m)
  }

  /** `SendToGroupExceptSelf`. */
  function GroupSendsExceptSelf(r: Registry, sender: int, m: Message): seq<Send>
    requires Routable(r)
  {
    Broadcast(Except(Members(r, sender), sender), m)
  }

  function CreateRoomNext(r: Registry, actorId: int, groupName: string): Registry {
    if groupName in r.groups then r
    else r.(groups := r.groups[groupName := Group(groupName, [])])
  }

  function CreateRoomSends(r: Registry, actorId: int, groupName: string): seq<Send> {
    if groupName in r.groups then []
    else [Send(actorId, OnCreatedRoomMessage(actorId, groupName))]
  }

  function JoinRoomNext(r: Registry, actorId: int, userName: string, groupName: string): Registry {
    if actorId in r.actors then r
    else
      var created := CreateRoomNext(r, actorId, groupName);
      var group := created.groups[groupName];
      Registry(created.actors[actorId := Actor(actorId, userName, groupName)],
               created.groups[groupName := group.(actors := group.actors + [actorId])])
  }

  function JoinRoomSends(r: Registry, actorId: int, userName: string, groupName: string): seq<Send> {
    if actorId in r.actors then []
    else
      CreateRoomSends(r, actorId, groupName)
      + Broadcast(JoinRoomNext(r, actorId, userName, groupName).groups[groupName].actors,
                  OnJoinedRoomMessage(actorId, userName, groupName))
  }

  function LeaveRoomNext(r: Registry, actorId: int): Registry
    requires Consistent(r)
  {
    if actorId !in r.actors then r
    else
      var groupName := r.actors[actorId].groupName;
      var group := r.groups[groupName];
      var remaining := RemoveFirst(group.actors, actorId);
      Registry(r.actors - {actorId},
               if |remaining| <= 0 then r.groups - {groupName}
               else r.groups[groupName := group.(actors := remaining)])
  }

  /** The leave notice goes out before the actor is removed, so the leaver gets it too. */
  function LeaveRoomSends(r: Registry, actorId: int): seq<Send>
    requires Consistent(r)
  {
    if actorId !in r.actors then []
    else GroupSends(r, actorId, OnLeftRoomMessage(actorId))
  }

  /** What one handler call does: the new registry, the sends asked for, and the reader
      position afterwards (None where a read fails and the handler throws). */
  datatype Step = Step(registry: Registry, sends: seq<Send>, next: Option<nat>)

  /** `OnNetworkReceivedHandler`: the actor is always the sending peer's client id. */
  function Receive(r: Registry, tag: Tag, peerId: int, fields: seq<Field>, pos: nat): Step
    requires Consistent(r)
  {
    var actorId := Peer2ClientId(peerId);
    if tag == CreateRoom then
      match GetString(fields, pos)
      case None => Step(r, [], None)
      case Some(groupName) =>
        Step(CreateRoomNext(r, actorId, groupName), CreateRoomSends(r, actorId, groupName), Some(pos + 1))
    else if tag == JoinRoom then
      match GetString(fields, pos)
      case None => Step(r, [], None)
      case Some(userName) =>
        match GetString(fields, pos + 1)
        case None => Step(r, [], None)
        case Some(groupName) =>
          Step(JoinRoomNext(r, actorId, userName, groupName),
               JoinRoomSends(r, actorId, userName, groupName), Some(pos + 2))
    else if tag == LeaveRoom then
      Step(LeaveRoomNext(r, actorId), LeaveRoomSends(r, actorId), Some(pos))
    else
      Step(r, [], Some(pos))
  }

  // Properties of the specification.

  /** One more recipient of a group send. */
  lemma GroupStep(connected: set<int>, members: seq<int>, i: nat, m: Message)
    requires i < |members|
    ensures Transport.Delivered(connected, Broadcast(members[..i + 1], m))
      == Transport.Delivered(connected, Broadcast(members[..i], m)) + Transport.Delivered(connected, [Send(members[i], m)])
  {
    assert members[..i + 1] == members[..i] + [members[i]];
    BroadcastSnoc(members[..i], members[i], m);
    Transport.DeliveredAppend(connected, Broadcast(members[..i], m), [Send(members[i], m)]);
  }

  /** One more member considered by a group send that skips x. */
  lemma GroupExceptStep(connected: set<int>, members: seq<int>, i: nat, x: int, m: Message)
    requires i < |members|
    ensures Transport.Delivered(connected, Broadcast(Except(members[..i + 1], x), m))
      == Transport.Delivered(connected, Broadcast(Except(members[..i], x), m))
         + (if members[i] != x then Transport.Delivered(connected, [Send(members[i], m)]) else [])
  {
    assert members[..i + 1] == members[..i] + [members[i]];
    ExceptSnoc(members[..i], members[i], x);
    if members[i] != x {
      BroadcastSnoc(Except(members[..i], x), members[i], m);
      Transport.DeliveredAppend(connected, Broadcast(Except(members[..i], x), m), [Send(members[i], m)]);
    } else {
      assert Except(members[..i + 1], x) == Except(members[..i], x);
    }
  }

  lemma BroadcastSnoc(recipients: seq<int>, c: int, m: Message)
    ensures Broadcast(recipients + [c], m) == Broadcast(recipients, m) + [Send(c, m)]
  {
  }

  lemma BroadcastMembership(recipients: seq<int>, m: Message, s: Send)
    ensures s in Broadcast(recipients, m) <==> s.clientId in recipients && s.message == m
  {
    if s.clientId in recipients && s.message == m {
      var i :| 0 <= i < |recipients| && recipients[i] == s.clientId;
      assert Broadcast(recipients, m)[i] == s;
    }
  }

  lemma {:induction false} RemoveFirstOfUnique(s: seq<int>, x: int)
    requires NoDuplicates(s)
    ensures NoDuplicates(RemoveFirst(s, x))
    ensures forall y :: y in RemoveFirst(s, x) <==> y in s && y != x
    ensures |RemoveFirst(s, x)| == if x in s then |s| - 1 else |s|
  {
    if s != [] {
      var t := s[1..];
      assert s == [s[0]] + t;
      assert NoDuplicates(t) by {
        forall i, j | 0 <= i < j < |t| ensures t[i] != t[j] {
          assert t[i] == s[i + 1] && t[j] == s[j + 1];
        }
      }
      assert s[0] !in t by {
        forall k | 0 <= k < |t| ensures t[k] != s[0] {
          assert t[k] == s[k + 1];
        }
      }
      if s[0] != x {
        RemoveFirstOfUnique(t, x);
        var u := RemoveFirst(t, x);
        assert RemoveFirst(s, x) == [s[0]] + u;
        assert NoDuplicates([s[0]] + u) by {
          forall i, j | 0 <= i < j < |[s[0]] + u| ensures ([s[0]] + u)[i] != ([s[0]] + u)[j] {
            if i == 0 {
              assert ([s[0]] + u)[j] == u[j - 1];
              assert u[j - 1] in t;
            } else {
              assert ([s[0]] + u)[i] == u[i - 1] && ([s[0]] + u)[j] == u[j - 1];
            }
          }
        }
      }
    }
  }

  /** CreateRoom of a new name adds it as an empty room, tells the creator only, and keeps the
      registry invariant. */
  lemma CreateRoomPreservesConsistency(r: Registry, actorId: int, groupName: string)
    requires Consistent(r)
    ensures Consistent(CreateRoomNext(r, actorId, groupName))
    ensures groupName !in r.groups ==>
      && CreateRoomNext(r, actorId, groupName) == r.(groups := r.groups[groupName := Group(groupName, [])])
      && CreateRoomSends(r, actorId, groupName) == [Send(actorId, OnCreatedRoomMessage(actorId, groupName))]
  {
  }

  /** CreateRoom for a name already in use changes nothing and sends nothing. */
  lemma CreateRoomExistingIsNoop(r: Registry, actorId: int, groupName: string)
    requires groupName in r.groups
    ensures CreateRoomNext(r, actorId, groupName) == r
    ensures CreateRoomSends(r, actorId, groupName) == []
  {
  }

  lemma JoinRoomPreservesConsistency(r: Registry, actorId: int, userName: string, groupName: string)
    requires Consistent(r)
    ensures Consistent(JoinRoomNext(r, actorId, userName, groupName))
  {
    if actorId !in r.actors {
      var r' := JoinRoomNext(r, actorId, userName, groupName);
      var before := if groupName in r.groups then r.groups[groupName].actors else [];
      assert actorId !in before by {
        forall k | 0 <= k < |before| ensures before[k] != actorId {
          assert before[k] in r.actors;
        }
      }
      assert r'.groups[groupName].actors == before + [actorId];
      assert NoDuplicates(before + [actorId]) by {
        forall i, j | 0 <= i < j < |before + [actorId]|
          ensures (before + [actorId])[i] != (before + [actorId])[j]
        {
          assert (before + [actorId])[i] == before[i];
        }
      }
      forall g, i | g in r'.groups && 0 <= i < |r'.groups[g].actors|
        ensures r'.groups[g].actors[i] in r'.actors
        ensures r'.actors[r'.groups[g].actors[i]].groupName == g
      {
        if g == groupName && i < |before| {
          assert r'.groups[g].actors[i] == before[i];
        }
      }
    }
  }

  /** The join, split at the point where the room is known to exist: `mid` is the registry after
      the optional creation. */
  lemma JoinRoomStep(r: Registry, mid: Registry, actorId: int, userName: string, groupName: string)
    requires Consistent(r) && actorId !in r.actors && mid == CreateRoomNext(r, actorId, groupName)
    ensures groupName in mid.groups
    ensures var after := Registry(mid.actors[actorId := Actor(actorId, userName, groupName)],
                                  mid.groups[groupName := mid.groups[groupName].(actors := mid.groups[groupName].actors + [actorId])]);
      && after == JoinRoomNext(r, actorId, userName, groupName)
      && Consistent(after)
      && JoinRoomSends(r, actorId, userName, groupName)
           == CreateRoomSends(r, actorId, groupName) + GroupSends(after, actorId, OnJoinedRoomMessage(actorId, userName, groupName))
  {
    JoinRoomPreservesConsistency(r, actorId, userName, groupName);
  }

  /** JoinRoom by an actor already registered anywhere changes nothing and sends nothing. */
  lemma JoinRoomRegisteredIsNoop(r: Registry, actorId: int, userName: string, groupName: string)
    requires actorId in r.actors
    ensures JoinRoomNext(r, actorId, userName, groupName) == r
    ensures JoinRoomSends(r, actorId, userName, groupName) == []
  {
  }

  /** A successful join registers the actor under that user and group name, appends it once to
      the group (creating the group first when needed), leaves every other group alone, and
      tells every member, the joiner included. */
  lemma JoinRoomEffect(r: Registry, actorId: int, userName: string, groupName: string)
    requires Consistent(r) && actorId !in r.actors
    ensures var r' := JoinRoomNext(r, actorId, userName, groupName);
      var before := if groupName in r.groups then r.groups[groupName].actors else [];
      && r'.actors == r.actors[actorId := Actor(actorId, userName, groupName)]
      && groupName in r'.groups && r'.groups[groupName].actors == before + [actorId]
      && multiset(r'.groups[groupName].actors)[actorId] == 1
      && (forall h :: h != groupName ==> (h in r'.groups <==> h in r.groups))
      && (forall h :: h != groupName && h in r.groups ==> r'.groups[h] == r.groups[h])
    ensures var r' := JoinRoomNext(r, actorId, userName, groupName);
      var notice := OnJoinedRoomMessage(actorId, userName, groupName);
      && JoinRoomSends(r, actorId, userName, groupName)
           == CreateRoomSends(r, actorId, groupName) + Broadcast(r'.groups[groupName].actors, notice)
      && (forall c ::
            (Send(c, notice) in JoinRoomSends(r, actorId, userName, groupName)) <==> (c in r'.groups[groupName].actors))
      && Send(actorId, notice) in JoinRoomSends(r, actorId, userName, groupName)
  {
    var r' := JoinRoomNext(r, actorId, userName, groupName);
    var notice := OnJoinedRoomMessage(actorId, userName, groupName);
    JoinRoomPreservesConsistency(r, actorId, userName, groupName);
    NoDuplicatesOccursOnce(r'.groups[groupName].actors, actorId);
    var members := r'.groups[groupName].actors;
    assert members[|members| - 1] == actorId;
    forall c ensures Send(c, notice) in JoinRoomSends(r, actorId, userName, groupName) <==> c in members {
      BroadcastMembership(members, notice, Send(c, notice));
      assert Send(c, notice) !in CreateRoomSends(r, actorId, groupName);
    }
  }

  /** Joining a room that does not exist creates it with the joiner as its first and only member;
      the joiner alone is told of the creation and of the join. */
  lemma JoinRoomCreatesRoom(r: Registry, actorId: int, userName: string, groupName: string)
    requires actorId !in r.actors && groupName !in r.groups
    ensures JoinRoomNext(r, actorId, userName, groupName).groups[groupName] == Group(groupName, [actorId])
    ensures JoinRoomSends(r, actorId, userName, groupName)
      == [Send(actorId, OnCreatedRoomMessage(actorId, groupName)),
          Send(actorId, OnJoinedRoomMessage(actorId, userName, groupName))]
  {
  }

  /** LeaveRoom of an unregistered actor changes nothing and sends nothing. */
  lemma LeaveRoomUnregisteredIsNoop(r: Registry, actorId: int)
    requires Consistent(r) && actorId !in r.actors
    ensures LeaveRoomNext(r, actorId) == r
    ensures LeaveRoomSends(r, actorId) == []
  {
  }

  lemma LeaveRoomPreservesConsistency(r: Registry, actorId: int)
    requires Consistent(r)
    ensures Consistent(LeaveRoomNext(r, actorId))
  {
    if actorId in r.actors {
      var r' := LeaveRoomNext(r, actorId);
      var g := r.actors[actorId].groupName;
      var members := r.groups[g].actors;
      RemoveFirstOfUnique(members, actorId);
      var remaining := RemoveFirst(members, actorId);
      forall a | a in r'.actors
        ensures r'.actors[a].groupName in r'.groups
        ensures a in r'.groups[r'.actors[a].groupName].actors
      {
        if r.actors[a].groupName == g {
          assert a in remaining;
        }
      }
      forall h, i | h in r'.groups && 0 <= i < |r'.groups[h].actors|
        ensures r'.groups[h].actors[i] in r'.actors
        ensures r'.actors[r'.groups[h].actors[i]].groupName == h
      {
        var b := r'.groups[h].actors[i];
        if h == g {
          assert b in remaining;
          var k :| 0 <= k < |members| && members[k] == b;
        } else {
          assert r.actors[b].groupName == h;
        }
      }
    }
  }

  /** A leave tells every member of the leaver's group, the leaver included, then removes the
      actor; the group goes exactly when it has no member left; other groups are untouched. */
  lemma LeaveRoomEffect(r: Registry, actorId: int)
    requires Consistent(r) && actorId in r.actors
    ensures var r' := LeaveRoomNext(r, actorId);
      var g := r.actors[actorId].groupName;
      && r'.actors == r.actors - {actorId}
      && (g in r'.groups <==> |r.groups[g].actors| > 1)
      && (g in r'.groups ==> forall b :: b in r'.groups[g].actors <==> b in r.groups[g].actors && b != actorId)
      && (forall h :: h != g ==> (h in r'.groups <==> h in r.groups))
      && (forall h :: h != g && h in r.groups ==> r'.groups[h] == r.groups[h])
    ensures var g := r.actors[actorId].groupName;
      && LeaveRoomSends(r, actorId) == Broadcast(r.groups[g].actors, OnLeftRoomMessage(actorId))
      && (forall c :: Send(c, OnLeftRoomMessage(actorId)) in LeaveRoomSends(r, actorId) <==> c in r.groups[g].actors)
      && Send(actorId, OnLeftRoomMessage(actorId)) in LeaveRoomSends(r, actorId)
  {
    var g := r.actors[actorId].groupName;
    RemoveFirstOfUnique(r.groups[g].actors, actorId);
    forall c ensures Send(c, OnLeftRoomMessage(actorId)) in LeaveRoomSends(r, actorId) <==> c in r.groups[g].actors {
      BroadcastMembership(r.groups[g].actors, OnLeftRoomMessage(actorId), Send(c, OnLeftRoomMessage(actorId)));
    }
  }

  /** A second leave, or a leave after the disconnect already removed the actor, is a no-op. */
  lemma LeaveRoomIdempotent(r: Registry, actorId: int)
    requires Consistent(r)
    ensures Consistent(LeaveRoomNext(r, actorId))
    ensures actorId !in LeaveRoomNext(r, actorId).actors
    ensures LeaveRoomNext(LeaveRoomNext(r, actorId), actorId) == LeaveRoomNext(r, actorId)
    ensures LeaveRoomSends(LeaveRoomNext(r, actorId), actorId) == []
  {
    LeaveRoomPreservesConsistency(r, actorId);
  }

  /** The central invariant: a registered actor is listed exactly once in the group it names and
      in no other group. */
  lemma ActorInExactlyOneGroup(r: Registry, actorId: int)
    requires Consistent(r) && actorId in r.actors
    ensures var g := r.actors[actorId].groupName;
      g in r.groups && multiset(r.groups[g].actors)[actorId] == 1
    ensures forall h :: h in r.groups && h != r.actors[actorId].groupName ==> actorId !in r.groups[h].actors
  {
    var g := r.actors[actorId].groupName;
    NoDuplicatesOccursOnce(r.groups[g].actors, actorId);
  }

  /** Group routing: nothing for an unregistered sender; otherwise every member of the sender's
      group, and for the except-self variant every member but the sender. */
  lemma GroupRouting(r: Registry, sender: int, m: Message, c: int)
    requires Consistent(r)
    ensures sender !in r.actors ==> GroupSends(r, sender, m) == [] && GroupSendsExceptSelf(r, sender, m) == []
    ensures sender in r.actors ==>
      var members := r.groups[r.actors[sender].groupName].actors;
      && (Send(c, m) in GroupSends(r, sender, m) <==> c in members)
      && (Send(c, m) in GroupSendsExceptSelf(r, sender, m) <==> c in members && c != sender)
  {
    BroadcastMembership(Members(r, sender), m, Send(c, m));
    BroadcastMembership(Except(Members(r, sender), sender), m, Send(c, m));
    ExceptMembership(Members(r, sender), sender, c);
  }

  /** The last member's leave deletes the room; a later CreateRoom of that name makes a fresh, empty
      room and tells its requester. */
  lemma EmptiedRoomIsRecreated(r: Registry, actorId: int, other: int)
    requires Consistent(r) && actorId in r.actors
    requires r.groups[r.actors[actorId].groupName].actors == [actorId]
    ensures var g := r.actors[actorId].groupName;
      var r' := LeaveRoomNext(r, actorId);
      && g !in r'.groups
      && CreateRoomNext(r', other, g).groups[g] == Group(g, [])
      && CreateRoomSends(r', other, g) == [Send(other, OnCreatedRoomMessage(other, g))]
  {
    LeaveRoomEffect(r, actorId);
  }

  /** The server cannot read the room name of the client's CreateRoom request as written: the
      request starts with the actor id. In the typed field model the string read fails there, the
      handler goes no further and the registry and outbox are unchanged; the library's byte reader
      would instead decode the id's bytes as a string, which this model does not capture. */
  lemma ClientCreateRoomUnreadable(r: Registry, peerId: int, actorId: int, groupName: string)
    requires Consistent(r)
    ensures Receive(r, CreateRoom, peerId, CreateRoomRequest(actorId, groupName).fields, 0) == Step(r, [], None)
  {
  }

  /** The client's JoinRoom request is read back as written. */
  lemma ClientJoinRoomIsApplied(r: Registry, peerId: int, userName: string, groupName: string)
    requires Consistent(r)
    ensures var actorId := Peer2ClientId(peerId);
      Receive(r, JoinRoom, peerId, JoinRoomRequest(userName, groupName).fields, 0)
        == Step(JoinRoomNext(r, actorId, userName, groupName), JoinRoomSends(r, actorId, userName, groupName), Some(2))
  {
  }

  /** A LeaveRoom message removes the sending peer's actor, whatever id its payload carries. */
  lemma LeaveRoomIgnoresPayload(r: Registry, peerId: int, payloadActorId: int)
    requires Consistent(r)
    ensures Receive(r, LeaveRoom, peerId, LeaveRoomRequest(payloadActorId).fields, 0).registry
      == LeaveRoomNext(r, Peer2ClientId(peerId))
  {
  }

  lemma ReceivePreservesConsistency(r: Registry, tag: Tag, peerId: int, fields: seq<Field>, pos: nat)
    requires Consistent(r)
    ensures Consistent(Receive(r, tag, peerId, fields, pos).registry)
  {
    var actorId := Peer2ClientId(peerId);
    if tag == JoinRoom && GetString(fields, pos).Some? && GetString(fields, pos + 1).Some? {
      JoinRoomPreservesConsistency(r, actorId, GetString(fields, pos).value, GetString(fields, pos + 1).value);
    } else if tag == LeaveRoom {
      LeaveRoomPreservesConsistency(r, actorId);
    }
  }

  /** A room nobody is in stays: no message removes it, since the only removal is of the leaver's
      own room, which under the invariant holds the leaver. So a room made by a bare CreateRoom
      persists until someone joins it and the last member leaves. */
  lemma EmptyRoomPersists(r: Registry, tag: Tag, peerId: int, fields: seq<Field>, pos: nat, g: string)
    requires Consistent(r) && g in r.groups && r.groups[g].actors == []
    ensures g in Receive(r, tag, peerId, fields, pos).registry.groups
    ensures tag != JoinRoom ==> Receive(r, tag, peerId, fields, pos).registry.groups[g].actors == []
  {
    var a := Peer2ClientId(peerId);
    if tag == LeaveRoom && a in r.actors {
      assert a in r.groups[r.actors[a].groupName].actors;
    }
  }

  class MultiplayerServer {
    const transport: Transport.LiteNetLibServer
    /** `_Actors`. */
    var actors: map<int, Actor>
    /** `_Groups`. */
    var groups: map<string, Group>

    function State(): Registry
      reads this
    {
      Registry(actors, groups)
    }

    ghost predicate Valid()
      reads this
    {
      Consistent(State())
    }

    constructor (transport: Transport.LiteNetLibServer)
      ensures this.transport == transport
      ensures State() == EmptyRegistry && Valid()
    {
      this.transport := transport;
      actors := map[];
      groups := map[];
    }

    /** Subscribes the handlers, whose order `ServerHost` fixes, and starts the transport; the
        server's own `OnNetworkReceived` delegate is still unset when it is added, so it adds nothing. */
    method StartServer(config: Transport.Settings, args: seq<string>, parse: string -> Option<int>) returns (started: bool)
      modifies transport`port, transport`key, transport`connectedClients
      ensures var outcome := Transport.ScanArgs(config, args, parse, 0);
        Transport.Settings(transport.port, transport.key) == outcome.settings && started == outcome.Scanned?
      ensures transport.connectedClients == if started then map[] else old(transport.connectedClients)
    {
      started := transport.StartServer(config, args, parse);
    }

    method SendToGroup(senderId: int, m: Message)
      requires Routable(State())
      modifies transport`outbox
      ensures transport.outbox
        == old(transport.outbox) + Transport.Delivered(transport.connectedClients.Keys, GroupSends(State(), senderId, m))
    {
      ghost var connected := transport.connectedClients.Keys;
      if senderId in actors {
        var groupName := actors[senderId].groupName;
        var members := groups[groupName].actors;
        var i := 0;
        while i < |members|
          invariant 0 <= i <= |members|
          invariant transport.outbox == old(transport.outbox) + Transport.Delivered(connected, Broadcast(members[..i], m))
        {
          GroupStep(connected, members, i, m);
          transport.SendData(members[i], m);
          i := i + 1;
        }
        assert members[..|members|] == members;
      }
    }

    method SendToGroupExceptSelf(senderId: int, m: Message)
      requires Routable(State())
      modifies transport`outbox
      ensures transport.outbox
        == old(transport.outbox) + Transport.Delivered(transport.connectedClients.Keys, GroupSendsExceptSelf(State(), senderId, m))
    {
      ghost var connected := transport.connectedClients.Keys;
      if senderId in actors {
        var groupName := actors[senderId].groupName;
        var members := groups[groupName].actors;
        var i := 0;
        while i < |members|
          invariant 0 <= i <= |members|
          invariant transport.outbox
            == old(transport.outbox) + Transport.Delivered(connected, Broadcast(Except(members[..i], senderId), m))
        {
          GroupExceptStep(connected, members, i, senderId, m);
          if members[i] != senderId {
            transport.SendData(members[i], m);
          }
          i := i + 1;
        }
        assert members[..|members|] == members;
      }
    }

    method CreateRoom(actorId: int, groupName: string)
      requires Valid()
      modifies this, transport`outbox
      ensures Valid()
      ensures State() == CreateRoomNext(old(State()), actorId, groupName)
      ensures transport.outbox
        == old(transport.outbox) + Transport.Delivered(transport.connectedClients.Keys, CreateRoomSends(old(State()), actorId, groupName))
    {
      CreateRoomPreservesConsistency(State(), actorId, groupName);
      if groupName !in groups {
        groups := groups[groupName := Group(groupName, [])];
        transport.SendData(actorId, OnCreatedRoomMessage(actorId, groupName));
      }
    }

    method JoinRoom(actorId: int, userName: string, groupName: string)
      requires Valid()
      modifies this, transport`outbox
      ensures Valid()
      ensures State() == JoinRoomNext(old(State()), actorId, userName, groupName)
      ensures transport.outbox
        == old(transport.outbox) + Transport.Delivered(transport.connectedClients.Keys, JoinRoomSends(old(State()), actorId, userName, groupName))
    {
      if actorId in actors {
        return;
      }
      ghost var before := State();
      ghost var connected := transport.connectedClients.Keys;
      ghost var created := CreateRoomSends(before, actorId, groupName);
      if groupName !in groups {
        CreateRoom(actorId, groupName);
      }
      ghost var mid := State();
      ghost var midOutbox := transport.outbox;
      JoinRoomStep(before, mid, actorId, userName, groupName);
      AddActor(actorId, userName, groupName);
      var notice := OnJoinedRoomMessage(actorId, userName, groupName);
      ghost var joined := GroupSends(State(), actorId, notice);
      SendToGroup(actorId, notice);
      Transport.OutboxAfterTwoBatches(connected, old(transport.outbox), midOutbox, transport.outbox, created, joined);
    }

    /** The registration step of `JoinRoom`: the actor goes to the end of the group's list and
        into the actor table. */
    method AddActor(actorId: int, userName: string, groupName: string)
      requires groupName in groups
      modifies this`actors, this`groups
      ensures groups == old(groups)[groupName := old(groups)[groupName].(actors := old(groups)[groupName].actors + [actorId])]
      ensures actors == old(actors)[actorId := Actor(actorId, userName, groupName)]
    {
      var group := groups[groupName];
      groups := groups[groupName := group.(actors := group.actors + [actorId])];
      actors := actors[actorId := Actor(actorId, userName, groupName)];
    }

    method LeaveRoom(actorId: int)
      requires Valid()
      modifies this, transport`outbox
      ensures Valid()
      ensures State() == LeaveRoomNext(old(State()), actorId)
      ensures transport.outbox
        == old(transport.outbox) + Transport.Delivered(transport.connectedClients.Keys, LeaveRoomSends(old(State()), actorId))
    {
      if actorId in actors {
        ghost var before := State();
        var groupName := actors[actorId].groupName;
        var group := groups[groupName];
        SendToGroup(actorId, OnLeftRoomMessage(actorId));
        group := group.(actors := RemoveFirst(group.actors, actorId));
        groups := groups[groupName := group];
        if |group.actors| <= 0 {
          groups := groups - {groupName};
        }
        actors := actors - {actorId};
        assert State() == LeaveRoomNext(before, actorId);
        LeaveRoomPreservesConsistency(before, actorId);
      }
    }

    /** The room-protocol part of message dispatch; returns the reader position it leaves, None
        where a read fails. */
    method OnNetworkReceivedHandler(tag: Tag, peerId: int, fields: seq<Field>, pos: nat) returns (next: Option<nat>)
      requires Valid()
      modifies this, transport`outbox
      ensures Valid()
      ensures var step := Receive(old(State()), tag, peerId, fields, pos);
        && State() == step.registry
        && transport.outbox == old(transport.outbox) + Transport.Delivered(transport.connectedClients.Keys, step.sends)
        && next == step.next
    {
      next := Some(pos);
      if tag == NetworkDataType.CreateRoom {
        var actorId := Peer2ClientId(peerId);
        var groupName := GetString(fields, pos);
        if groupName.None? {
          return None;
        }
        CreateRoom(actorId, groupName.value);
        next := Some(pos + 1);
      }
      if tag == NetworkDataType.JoinRoom {
        var actorId := Peer2ClientId(peerId);
        var userName := GetString(fields, pos);
        if userName.None? {
          return None;
        }
        var groupName := GetString(fields, pos + 1);
        if groupName.None? {
          return None;
        }
        JoinRoom(actorId, userName.value, groupName.value);
        next := Some(pos + 2);
      }
      if tag == NetworkDataType.LeaveRoom {
        var actorId := Peer2ClientId(peerId);
        LeaveRoom(actorId);
      }
    }

    method OnPeerDisconnectedHandler(peerId: int)
      requires Valid()
      modifies this, transport`outbox
      ensures Valid()
      ensures State() == LeaveRoomNext(old(State()), Peer2ClientId(peerId))
      ensures transport.outbox
        == old(transport.outbox) + Transport.Delivered(transport.connectedClients.Keys, LeaveRoomSends(old(State()), Peer2ClientId(peerId)))
    {
      var clientId := Peer2ClientId(peerId);
      LeaveRoom(clientId);
    }
  }
}
