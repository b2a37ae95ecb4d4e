/** `MultiplayerClient`: the client's mirror of its session (connected, joined, actor id, user and
    room name), the three request builders, and the dispatch of incoming messages to the session
    transitions, followed by forwarding every message to the game layer. Raising a C# event is
    modelled by returning the events raised, in order. */
module Session {
  import opened Wrappers
  import opened NetworkDataType
  import opened Wire

  /** The events `MultiplayerClient` raises; `NetworkEventReceived` carries the message and the
      position the shared reader was left at. */
  datatype ClientEvent =
    | ConnectedToServer(actorId: int)
    | DisconnectedServer
    | CreatedRoom(groupName: string)
    | JoinedRoom(actorId: int, userName: string, groupName: string)
    | LeftRoom
    | PlayerLeftRoom(actorId: int)
    | NetworkEventReceived(tag: Tag, fields: seq<Field>, pos: nat)

  /** The session fields; a name is None while it is still C#'s `null`. */
  datatype SessionState = SessionState(
    connectedServer: bool,
    joined: bool,
    localActorId: int,
    localUserName: Option<string>,
    groupName: Option<string>)

  const InitialSession: SessionState := SessionState(false, false, -1, None, None)

  /** While joined, both names have been set. */
  predicate WellFormed(s: SessionState) {
    s.joined ==> s.localUserName.Some? && s.groupName.Some?
  }

  function ConnectedNext(s: SessionState, actorId: int): SessionState {
    s.(connectedServer := true, joined := false, localActorId := actorId)
  }

  function DisconnectedNext(s: SessionState): SessionState {
    s.(connectedServer := false, joined := false, localActorId := -1)
  }

  function JoinedNext(s: SessionState, actorId: int, userName: string, groupName: string): SessionState {
    s.(joined := true, localActorId := actorId, localUserName := Some(userName), groupName := Some(groupName))
  }

  function LeftNext(s: SessionState, actorId: int): SessionState {
    if actorId == s.localActorId then
      s.(joined := false, localActorId := -1, localUserName := Some(""), groupName := Some(""))
    else s
  }

  function LeftEvents(s: SessionState, actorId: int): seq<ClientEvent> {
    if actorId == s.localActorId then [LeftRoom] else []
  }

  /** What a step of the session does: the new state, the events raised, and the reader position
      afterwards (None where a read fails and the handler throws). */
  datatype SessionStep = SessionStep(state: SessionState, events: seq<ClientEvent>, next: Option<nat>)

  /** The session transitions of `OnNetworkEventReceived`, before the forwarding. */
  function Dispatch(s: SessionState, tag: Tag, fields: seq<Field>, pos: nat): SessionStep {
    if tag == OnConnectedServer then
      match GetInt(fields, pos)
      case Some(actorId) => SessionStep(ConnectedNext(s, actorId), [ConnectedToServer(actorId)], Some(pos + 1))
      case None => SessionStep(s, [], None)
    else if tag == OnCreatedRoom then
      match (GetInt(fields, pos), GetString(fields, pos + 1))
      case (Some(_), Some(groupName)) => SessionStep(s, [CreatedRoom(groupName)], Some(pos + 2))
      case _ => SessionStep(s, [], None)
    else if tag == OnJoinedRoom then
      match (GetInt(fields, pos), GetString(fields, pos + 1), GetString(fields, pos + 2))
      case (Some(actorId), Some(userName), Some(groupName)) =>
        SessionStep(JoinedNext(s, actorId, userName, groupName), [JoinedRoom(actorId, userName, groupName)], Some(pos + 3))
      case _ => SessionStep(s, [], None)
    else if tag == OnLeftRoom then
      match GetInt(fields, pos)
      case Some(actorId) => SessionStep(LeftNext(s, actorId), LeftEvents(s, actorId), Some(pos + 1))
      case None => SessionStep(s, [], None)
    else if tag == OnPlayerLeftRoom then
      match GetInt(fields, pos)
      case Some(actorId) => SessionStep(s, [PlayerLeftRoom(actorId)], Some(pos + 1))
      case None => SessionStep(s, [], None)
    else
      SessionStep(s, [], Some(pos))
  }

  /** `OnNetworkEventReceived`: the session transition, then the message is passed on. */
  function Receive(s: SessionState, tag: Tag, fields: seq<Field>, pos: nat): SessionStep {
    var step := Dispatch(s, tag, fields, pos);
    match step.next
    case Some(p) => step.(events := step.events + [NetworkEventReceived(tag, fields, p)])
    case None => step
  }

  // Properties of the specification.

  /** Every message whose reads succeed is passed on to the game layer, last, after the session
      events it caused; a message whose reads fail changes nothing and raises nothing. */
  lemma ReceiveForwardsEveryMessage(s: SessionState, tag: Tag, fields: seq<Field>, pos: nat)
    ensures var step := Receive(s, tag, fields, pos);
      step.next.Some? ==> |step.events| >= 1 && step.events[|step.events| - 1] == NetworkEventReceived(tag, fields, step.next.value)
    ensures var step := Receive(s, tag, fields, pos);
      step.next.None? ==> step.state == s && step.events == []
    ensures tag !in SessionTags ==> Receive(s, tag, fields, pos) == SessionStep(s, [NetworkEventReceived(tag, fields, pos)], Some(pos))
  {
  }

  /** The only events besides the forwarding are the ones the session handlers raise: at most one. */
  lemma ReceiveRaisesAtMostOneSessionEvent(s: SessionState, tag: Tag, fields: seq<Field>, pos: nat)
    ensures |Dispatch(s, tag, fields, pos).events| <= 1
    ensures forall e :: e in Dispatch(s, tag, fields, pos).events ==> !e.NetworkEventReceived?
  {
  }

  /** The server's `OnConnectedServer` notice makes the client connected, not joined, with the id
      it carries. */
  lemma ConnectedFromServer(s: SessionState, clientId: int)
    ensures Receive(s, OnConnectedServer, OnConnectedServerMessage(clientId).fields, 0)
      == SessionStep(s.(connectedServer := true, joined := false, localActorId := clientId),
                     [ConnectedToServer(clientId), NetworkEventReceived(OnConnectedServer, OnConnectedServerMessage(clientId).fields, 1)],
                     Some(1))
  {
  }

  /** The initial state is well formed and every transition keeps it so. */
  lemma TransitionsKeepWellFormed(s: SessionState, tag: Tag, fields: seq<Field>, pos: nat)
    ensures WellFormed(InitialSession)
    ensures WellFormed(s) ==> WellFormed(Receive(s, tag, fields, pos).state)
    ensures WellFormed(s) ==> WellFormed(DisconnectedNext(s))
  {
  }

  /** A disconnect clears the connection, the room and the actor id, and keeps both names. */
  lemma DisconnectedEffect(s: SessionState)
    ensures var s' := DisconnectedNext(s);
      !s'.connectedServer && !s'.joined && s'.localActorId == -1
      && s'.localUserName == s.localUserName && s'.groupName == s.groupName
  {
  }

  /** The server's `OnCreatedRoom` notice changes no session field and raises the room name. */
  lemma CreatedFromServer(s: SessionState, actorId: int, groupName: string)
    ensures Receive(s, OnCreatedRoom, OnCreatedRoomMessage(actorId, groupName).fields, 0).state == s
    ensures Receive(s, OnCreatedRoom, OnCreatedRoomMessage(actorId, groupName).fields, 0).events[0] == CreatedRoom(groupName)
  {
  }

  /** Any `OnJoinedRoom` notice, whoever it is about and whatever the state, makes the client joined
      under the actor id, user name and room name it carries; the connection flag is kept. */
  lemma JoinedFromServer(s: SessionState, actorId: int, userName: string, groupName: string)
    ensures var step := Receive(s, OnJoinedRoom, OnJoinedRoomMessage(actorId, userName, groupName).fields, 0);
      && step.state == SessionState(s.connectedServer, true, actorId, Some(userName), Some(groupName))
      && step.events[0] == JoinedRoom(actorId, userName, groupName)
  {
  }

  /** The notice of another actor's join takes over the local identity: after it, the client's own
      leave notice is ignored, and its leave request names the other actor. */
  lemma ForeignJoinOverwritesIdentity(s: SessionState, other: int, userName: string, groupName: string)
    requires s.joined && other != s.localActorId
    ensures var s' := Receive(s, OnJoinedRoom, OnJoinedRoomMessage(other, userName, groupName).fields, 0).state;
      && s'.localActorId == other
      && Receive(s', OnLeftRoom, OnLeftRoomMessage(s.localActorId).fields, 0).state == s'
      && Receive(s', OnLeftRoom, OnLeftRoomMessage(s.localActorId).fields, 0).events
           == [NetworkEventReceived(OnLeftRoom, OnLeftRoomMessage(s.localActorId).fields, 1)]
      && LeaveRoomRequest(s'.localActorId) == LeaveRoomRequest(other)
  {
  }

  /** The notice of the client's own leave clears the room, the id and both names and raises
      `LeftRoom`; a notice about anyone else changes nothing and raises nothing but the forwarding. */
  lemma LeftFromServer(s: SessionState, actorId: int)
    ensures var step := Receive(s, OnLeftRoom, OnLeftRoomMessage(actorId).fields, 0);
      actorId == s.localActorId ==>
        && step.state == SessionState(s.connectedServer, false, -1, Some(""), Some(""))
        && step.events[0] == LeftRoom
    ensures var step := Receive(s, OnLeftRoom, OnLeftRoomMessage(actorId).fields, 0);
      actorId != s.localActorId ==>
        step.state == s && step.events == [NetworkEventReceived(OnLeftRoom, OnLeftRoomMessage(actorId).fields, 1)]
  {
  }

  /** The removal notice the game server sends has the shape of no session message, so the session
      passes it on untouched. */
  lemma RemovalNoticeBypassesSession(s: SessionState, actorId: int)
    ensures Receive(s, RemoveNetworkObjects, RemovalNotice(actorId).fields, 0)
      == SessionStep(s, [NetworkEventReceived(RemoveNetworkObjects, RemovalNotice(actorId).fields, 0)], Some(0))
  {
  }

  class MultiplayerClient {
    var connectedServer: bool
    var joined: bool
    var localActorId: int
    var localUserName: Option<string>
    var groupName: Option<string>
    var initialized: bool
    /** How many times the two transport handlers have been subscribed. */
    var subscriptions: nat
    /** Every message handed to `LiteNetLibClient.SendData`, in order. */
    var outbox: seq<Message>

    function State(): SessionState
      reads this
    {
      SessionState(connectedServer, joined, localActorId, localUserName, groupName)
    }

    ghost predicate Valid()
      reads this
    {
      WellFormed(State())
    }

    constructor ()
      ensures State() == InitialSession && Valid()
      ensures !initialized && subscriptions == 0 && outbox == []
    {
      connectedServer := false;
      joined := false;
      localActorId := -1;
      localUserName := None;
      groupName := None;
      initialized := false;
      subscriptions := 0;
      outbox := [];
    }

    method Initialize()
      modifies this`initialized, this`subscriptions
      ensures initialized && subscriptions == old(subscriptions) + 1
    {
      subscriptions := subscriptions + 1;
      initialized := true;
    }

    /** `transportStarted` is what `LiteNetLibClient.StartClient` returns. */
    method StartClient(transportStarted: bool) returns (started: bool)
      modifies this`initialized, this`subscriptions
      ensures initialized
      ensures subscriptions == if old(initialized) then old(subscriptions) else old(subscriptions) + 1
      ensures started == transportStarted
    {
      if !initialized {
        Initialize();
      }
      return transportStarted;
    }

    method SendData(m: Message)
      modifies this`outbox
      ensures outbox == old(outbox) + [m]
    {
      outbox := outbox + [m];
    }

    method CreateRoom(actorId: int, groupName: string)
      modifies this`outbox
      ensures outbox == old(outbox) + [CreateRoomRequest(actorId, groupName)]
    {
      SendData(Message(NetworkDataType.CreateRoom, [IntField(actorId), StringField(groupName)]));
    }

    method JoinRoom(userName: string, groupName: string)
      modifies this`outbox
      ensures outbox == old(outbox) + [JoinRoomRequest(userName, groupName)]
    {
      SendData(Message(NetworkDataType.JoinRoom, [StringField(userName), StringField(groupName)]));
    }

    /** The leave request names the current local actor id, whatever it is. */
    method LeaveRoom()
      modifies this`outbox
      ensures outbox == old(outbox) + [LeaveRoomRequest(localActorId)]
    {
      SendData(Message(NetworkDataType.LeaveRoom, [IntField(localActorId)]));
    }

    method OnNetworkEventReceived(tag: Tag, fields: seq<Field>, pos: nat) returns (raised: seq<ClientEvent>, next: Option<nat>)
      requires Valid()
      modifies this`connectedServer, this`joined, this`localActorId, this`localUserName, this`groupName
      ensures Valid()
      ensures var step := Receive(old(State()), tag, fields, pos);
        State() == step.state && raised == step.events && next == step.next
    {
      raised := [];
      var p := pos;
      if tag == NetworkDataType.OnConnectedServer {
        var actorId := GetInt(fields, p);
        if actorId.None? {
          return [], None;
        }
        p := p + 1;
        var events := OnConnectedServer(actorId.value);
        raised := raised + events;
      }
      if tag == NetworkDataType.OnCreatedRoom {
        var actorId := GetInt(fields, p);
        if actorId.None? {
          return [], None;
        }
        var groupName := GetString(fields, p + 1);
        if groupName.None? {
          return [], None;
        }
        p := p + 2;
        var events := OnCreatedRoom(groupName.value);
        raised := raised + events;
      }
      if tag == NetworkDataType.OnJoinedRoom {
        var actorId := GetInt(fields, p);
        if actorId.None? {
          return [], None;
        }
        var userName := GetString(fields, p + 1);
        if userName.None? {
          return [], None;
        }
        var groupName := GetString(fields, p + 2);
        if groupName.None? {
          return [], None;
        }
        p := p + 3;
        var events := OnJoinedRoom(actorId.value, userName.value, groupName.value);
        raised := raised + events;
      }
      if tag == NetworkDataType.OnLeftRoom {
        var actorId := GetInt(fields, p);
        if actorId.None? {
          return [], None;
        }
        p := p + 1;
        var events := OnLeftRoom(actorId.value);
        raised := raised + events;
      }
      if tag == NetworkDataType.OnPlayerLeftRoom {
        var actorId := GetInt(fields, p);
        if actorId.None? {
          return [], None;
        }
        p := p + 1;
        var events := OnPlayerLeftRoom(actorId.value);
        raised := raised + events;
      }
      raised := raised + [NetworkEventReceived(tag, fields, p)];
      next := Some(p);
    }

    method OnConnectedServer(actorId: int) returns (raised: seq<ClientEvent>)
      modifies this`connectedServer, this`joined, this`localActorId
      ensures State() == ConnectedNext(old(State()), actorId)
      ensures raised == [ConnectedToServer(actorId)]
    {
      connectedServer := true;
      joined := false;
      localActorId := actorId;
      raised := [ConnectedToServer(actorId)];
    }

    method OnDisconnectedServer() returns (raised: seq<ClientEvent>)
      requires Valid()
      modifies this`connectedServer, this`joined, this`localActorId
      ensures Valid()
      ensures State() == DisconnectedNext(old(State()))
      ensures raised == [DisconnectedServer]
    {
      connectedServer := false;
      joined := false;
      localActorId := -1;
      raised := [DisconnectedServer];
    }

    method OnCreatedRoom(groupName: string) returns (raised: seq<ClientEvent>)
      ensures raised == [CreatedRoom(groupName)]
    {
      raised := [CreatedRoom(groupName)];
    }

    method OnJoinedRoom(actorId: int, userName: string, groupName: string) returns (raised: seq<ClientEvent>)
      modifies this`joined, this`localActorId, this`localUserName, this`groupName
      ensures State() == JoinedNext(old(State()), actorId, userName, groupName)
      ensures raised == [JoinedRoom(actorId, userName, groupName)]
    {
      joined := true;
      localActorId := actorId;
      localUserName := Some(userName);
      this.groupName := Some(groupName);
      raised := [JoinedRoom(actorId, userName, groupName)];
    }

    method OnLeftRoom(actorId: int) returns (raised: seq<ClientEvent>)
      modifies this`joined, this`localActorId, this`localUserName, this`groupName
      ensures State() == LeftNext(old(State()), actorId)
      ensures raised == LeftEvents(old(State()), actorId)
    {
      raised := [];
      if actorId == localActorId {
        joined := false;
        localActorId := -1;
        localUserName := Some("");
        groupName := Some("");
        raised := [LeftRoom];
      }
    }

    method OnPlayerLeftRoom(actorId: int) returns (raised: seq<ClientEvent>)
      ensures raised == [PlayerLeftRoom(actorId)]
    {
      raised := [PlayerLeftRoom(actorId)];
    }
  }
}
