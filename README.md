# LiteNetLibExample in Dafny

This project models the room and session layer of LiteNetLibExample, and the networked-object
tables of its example game, and proves properties of the model.

- **Server.** `LiteNetLibServer` keeps a table of connected client ids. It drops short datagrams
  and hands the rest to its subscribers. `MultiplayerServer` keeps the actors and the rooms
  (groups) and answers create, join and leave requests. `GameServer` stores every networked object
  and relays creations and removals to the sender's room.
- **Client.** `MultiplayerClient` mirrors the session: connected, joined, actor id, user name and
  room name. It builds the three requests and turns server notices into events. `GameClient`
  allocates ids for its own objects, sends their poses, and keeps replicas of everybody else's.

Each source class that updates fields in place is a Dafny `class` with those fields. Its methods
are proved against value-level specification functions (`Rooms.Receive`, `ServerObjects.Receive`,
`Session.Receive`, `ClientObjects.Allocate`, …). The properties the code promises are then proved
as lemmas about those functions.

Modelling choices:

- A send is appended to an outbox: `Send(clientId, message)` on the server, a message on the
  client.
- A message is a tag plus a sequence of fields: int, string or pose.
- The reader is typed: a read of the wrong kind of field, or past the end, yields `None`, and the
  handler stops there, as does the rest of the dispatch. This is an assumption of the model. The
  library's `NetDataReader` decodes bytes and would reinterpret whatever is at that position; it
  is not part of this model (see "## Left out").
- The reader position is passed from one subscribed handler to the next. The server dispatch
  (`ServerHost`) and the client dispatch (`ClientHost`) wire the handlers in the order the
  components subscribe them.
- C# `int` arithmetic is modelled explicitly where it matters: 32-bit wrap-around (`Wrap32`) and
  the truncating `%` (`Rem`).

Points where the code does not do what the design describes (the model follows the code):

- The server never sends `OnPlayerLeftRoom`. A leave only sends `OnLeftRoom` to the room, the
  leaver included (`ServerHost.SendsOnlyReplies`).
- A disconnect removes the actor from its room but not its objects from the game server's table
  (`ServerHost.Server.OnPeerDisconnected`). The leave notice misses the leaver, whose id has
  already left the transport table (`ServerHost.DisconnectNoticeSkipsLeaver`).
- The server never relays pose updates (`ServerHost.UnusableDatagramsIgnored`).
- Three messages are written in a layout the other side does not read as written. In the typed
  field model each read fails and the handler does nothing; what the library's reader would
  make of the bytes is not part of this model.
  - A client's pose snapshot starts with the room name where a reading client expects the count
    (`Wire.PoseSnapshotLayoutsDisagree`, `ClientObjects.SnapshotUnreadable`).
  - The client's CreateRoom request starts with the actor id where the server reads the room
    name (`Wire.CreateRoomLayoutsDisagree`, `Rooms.ClientCreateRoomUnreadable`).
  - The server's removal notice ends after the actor id, where clients read a count and ids
    (`Wire.RemovalNoticeLayoutsDisagree`). In the field model no client removes a replica
    (`ClientHost.LeaveKeepsReplicasEverywhere`).
- On a leave request the two server handlers disagree about who is leaving.
  - `GameServer` takes the actor id from the payload.
  - `MultiplayerServer` takes the sending peer.
  - `ServerHost.ForeignLeaveRemovesOthersObjects` shows the consequence: a request naming some
    other actor removes that actor's objects, while the sender is the one who leaves the room.
- The id allocator reports no failure when all 999 ids are taken (`ClientObjects.AllocateWhenFull`).
  With the actor id still -1 it leaves the actor's range (`ClientObjects.NegativeActorLeavesRange`).
- `OnJoinedRoom` overwrites the local identity for anybody's join, not only the client's own
  (`Session.ForeignJoinOverwritesIdentity`).

## Model

| member | source | states |
|---|---|---|
| CSharpInt.Wrap32 | Assets/LiteNetLibExtension/Example/Server/GameServer.cs:79-80 | the result is an `int`, congruent to the exact value modulo 2^32, and equal to it when it fits |
| CSharpInt.Rem | Assets/LiteNetLibExtension/Example/Client/GameClient.cs:44 | C#'s `%`: the Euclidean remainder for a non-negative dividend, otherwise a remainder in (-b, 0] |
| NetworkDataType.SessionTagsContiguous | Assets/LiteNetLibExtension/Sctipts/NetworkDataType.cs:8-15 | the eight room tags are the byte values 0..7 in declaration order, hence pairwise distinct |
| NetworkDataType.RequestsDifferFromReplies | Assets/LiteNetLibExtension/Sctipts/NetworkDataType.cs:9-14 | CreateRoom, JoinRoom and LeaveRoom each differ from their reply tags |
| NetworkDataType.GameTagsDistinct | Assets/LiteNetLibExtension/Example/Shared/NetworkDataTypePart.cs:8 | PlayerTransform is 10 and not a room tag; the three game tags differ from all others and from each other |
| NetworkDataSize.SizesAgree | Assets/LiteNetLibExtension/Example/Shared/NetworkDataTypePart.cs:13-15 | a transform is 28 bytes and an actor id plus transform is 32, the transform plus one int |
| LiteNetLibUtil.Peer2ClientIdInjective | Assets/LiteNetLibExtension/Sctipts/LiteNetLibUtil.cs:10-13 | distinct peer ids give distinct client ids, the wrap at the top of the range included |
| LiteNetLibUtil.Peer2ClientIdPositive | Assets/LiteNetLibExtension/Sctipts/LiteNetLibUtil.cs:10-13 | for a non-negative peer id below the top of the range the client id is the peer id plus 1, so never 0 |
| LiteNetLibUtil.Peer2ClientIdInverse | Assets/LiteNetLibExtension/Sctipts/LiteNetLibUtil.cs:10-13 | subtracting 1 from the client id gives the peer id back |
| LiteNetLibUtil.Peer2ClientId | Assets/LiteNetLibExtension/Sctipts/LiteNetLibUtil.cs:10-13 | `peer.Id + 1` in unchecked `int` arithmetic: always an `int`; its injectivity, its value below the top of the range and its inverse are `Peer2ClientIdInjective`, `Peer2ClientIdPositive` and `Peer2ClientIdInverse` |
| Wire.ReadIds | Assets/LiteNetLibExtension/Example/Client/GameClient.cs:133-140 | a read of n ids yields n values, which are the ints at the n positions; it fails exactly for a negative count or a missing int |
| Wire.GetInt | Assets/LiteNetLibExtension/Example/Client/GameClient.cs:119 | the typed int read this model assumes: it succeeds exactly on an int field at that position and yields its value; a string, a pose or the end of the message makes it fail |
| Wire.GetString | Assets/LiteNetLibExtension/Example/Client/GameClient.cs:120 | the typed string read: it succeeds exactly on a string field at that position and yields its value |
| Wire.GetPose | Assets/LiteNetLibExtension/Example/Client/GameClient.cs:121-127 | the seven float reads of a pose, typed: they succeed exactly on a pose field at that position and yield its value |
| Wire.LayoutsAgree | Assets/LiteNetLibExtension/Sctipts/MultiplayerClient.cs:91-126 | where writer and reader agree (connected, created, joined, left, join request, leave request, instantiation), the reader gets back what was written |
| Wire.OnConnectedServerMessage | Assets/LiteNetLibExtension/Sctipts/LiteNetLibServer.cs:114-116 | the connected notice: the tag, then the client id; read back by `LayoutsAgree` |
| Wire.OnCreatedRoomMessage | Assets/LiteNetLibExtension/Sctipts/MultiplayerServer.cs:109-112 | the created notice: the actor id, then the room name; read back by `LayoutsAgree` |
| Wire.OnJoinedRoomMessage | Assets/LiteNetLibExtension/Sctipts/MultiplayerServer.cs:138-142 | the joined notice: actor id, user name, room name; read back by `LayoutsAgree` |
| Wire.OnLeftRoomMessage | Assets/LiteNetLibExtension/Sctipts/MultiplayerServer.cs:154-156 | the left notice: the actor id; read back by `LayoutsAgree` |
| Wire.RemovalNotice | Assets/LiteNetLibExtension/Example/Server/GameServer.cs:91-93 | the removal notice: the actor id alone; its mismatch with the reader is `RemovalNoticeLayoutsDisagree` |
| Wire.NetworkInstantiateMessage | Assets/LiteNetLibExtension/Example/Client/GameClient.cs:62-75 | the instantiation: object id, prefab name, pose; read back by `LayoutsAgree`, and stored as one replica by `RelayedInstantiateIsStored` |
| Wire.CreateRoomRequest | Assets/LiteNetLibExtension/Sctipts/MultiplayerClient.cs:65-72 | the create request: actor id, then room name; its mismatch with the server is `CreateRoomLayoutsDisagree` |
| Wire.JoinRoomRequest | Assets/LiteNetLibExtension/Sctipts/MultiplayerClient.cs:74-81 | the join request: user name, then room name; read back by `LayoutsAgree` |
| Wire.LeaveRoomRequest | Assets/LiteNetLibExtension/Sctipts/MultiplayerClient.cs:83-89 | the leave request: the local actor id; read back by `LayoutsAgree` |
| Wire.PoseEntries | Assets/LiteNetLibExtension/Example/Client/GameClient.cs:93-107 | an id and a pose per listed object, in list order; laid out by `ClientObjects.PoseEntriesAt` and `ClientObjects.SnapshotLayout` |
| Wire.PoseSnapshot | Assets/LiteNetLibExtension/Example/Client/GameClient.cs:86-91 | room name, count, then the entries; its mismatch with the reader is `PoseSnapshotLayoutsDisagree` |
| Wire.CreateRoomLayoutsDisagree | Assets/LiteNetLibExtension/Sctipts/MultiplayerClient.cs:68-70 | the client's request holds the actor id first and the room name second, so the first field, where the server reads the name (MultiplayerServer.cs:74), is not the name; with the typed reader that string read fails |
| Wire.RemovalNoticeLayoutsDisagree | Assets/LiteNetLibExtension/Example/Server/GameServer.cs:91-93 | the removal notice is exactly the actor id: nothing follows where the client reads a count (GameClient.cs:133); with the typed reader that read fails |
| Wire.PoseSnapshotLayoutsDisagree | Assets/LiteNetLibExtension/Example/Client/GameClient.cs:86-91 | a pose snapshot holds the room name first and the count second, so the first field, where a reading client expects the count (GameClient.cs:146), is not the count; with the typed reader that read fails |
| Transport.NoFlagKeepsSettings | Assets/LiteNetLibExtension/Sctipts/LiteNetLibServer.cs:51-62 | without a flag before the last position the settings are kept, so a trailing flag is ignored |
| Transport.PortKeptWithoutPortFlag | Assets/LiteNetLibExtension/Sctipts/LiteNetLibServer.cs:51-62 | without `--port` the scan completes and keeps the port |
| Transport.KeyKeptWithoutKeyFlag | Assets/LiteNetLibExtension/Sctipts/LiteNetLibServer.cs:51-62 | without `--key` the key is kept |
| Transport.LastPortWins | Assets/LiteNetLibExtension/Sctipts/LiteNetLibServer.cs:55-57 | the last `--port` decides the port of a completed scan |
| Transport.LastKeyWins | Assets/LiteNetLibExtension/Sctipts/LiteNetLibServer.cs:58-60 | the last `--key` decides the key of a completed scan |
| Transport.ScanArgs | Assets/LiteNetLibExtension/Sctipts/LiteNetLibServer.cs:50-62 | the argument loop; it has no contract of its own and is pinned down by `NoFlagKeepsSettings`, `PortKeptWithoutPortFlag`, `KeyKeptWithoutKeyFlag`, `LastPortWins` and `LastKeyWins` |
| Transport.Delivered | Assets/LiteNetLibExtension/Sctipts/LiteNetLibServer.cs:90-100 | what `SendData` passes on; pinned down by `DeliveredMembership` (a send is passed on exactly when it was asked for and its id is connected) and `DeliveredAppend` (batching) |
| Transport.DeliveredAppend | Assets/LiteNetLibExtension/Sctipts/LiteNetLibServer.cs:90-100 | dropping sends to unconnected ids distributes over consecutive batches |
| Transport.OutboxAfterTwoBatches | Assets/LiteNetLibExtension/Sctipts/LiteNetLibServer.cs:90-100 | two batches sent one after the other leave the outbox as the concatenated batch would |
| Transport.DeliveredMembership | Assets/LiteNetLibExtension/Sctipts/LiteNetLibServer.cs:92-95 | a send is passed on exactly when it was asked for and its client id is connected |
| Transport.LiteNetLibServer.constructor | Assets/LiteNetLibExtension/Sctipts/LiteNetLibServer.cs:22-23 | port 11010, empty key, no clients, nothing sent |
| Transport.LiteNetLibServer.StartServer | Assets/LiteNetLibExtension/Sctipts/LiteNetLibServer.cs:45-66 | port and key are the argument scan's result; the client table is reset unless `int.Parse` throws, in which case nothing after it runs |
| Transport.LiteNetLibServer.SendData | Assets/LiteNetLibExtension/Sctipts/LiteNetLibServer.cs:90-100 | the send is appended when the id is connected; otherwise nothing is sent |
| Transport.LiteNetLibServer.OnPeerConnected | Assets/LiteNetLibExtension/Sctipts/LiteNetLibServer.cs:102-120 | the client id is added only when absent, an existing entry is kept, and the peer is told its id either way |
| Transport.LiteNetLibServer.OnPeerDisconnected | Assets/LiteNetLibExtension/Sctipts/LiteNetLibServer.cs:122-131 | the client id is no longer in the table, and nothing else is removed |
| Rooms.ExceptMembership | Assets/LiteNetLibExtension/Sctipts/MultiplayerServer.cs:58-63 | skipping x keeps exactly the members other than x |
| Rooms.BroadcastMembership | Assets/LiteNetLibExtension/Sctipts/MultiplayerServer.cs:46-49 | a group send reaches exactly the listed recipients, each with the same message |
| Rooms.RemoveFirstOfUnique | Assets/LiteNetLibExtension/Sctipts/MultiplayerServer.cs:159 | `List.Remove` on a list without repeats keeps it without repeats, drops exactly x and shortens it by one when x was there |
| Rooms.Consistent | Assets/LiteNetLibExtension/Sctipts/MultiplayerServer.cs:11-31 | the registry invariant: every registered actor is listed in the group it names, lists have no repeats, every listed member is registered under that group; it holds of the empty registry and is kept by every message (`ReceivePreservesConsistency`), and it places each actor in exactly one group (`ActorInExactlyOneGroup`) |
| Rooms.Members | Assets/LiteNetLibExtension/Sctipts/MultiplayerServer.cs:43-46 | the sender's group list, pinned down with the send functions by `GroupRouting` |
| Rooms.Except | Assets/LiteNetLibExtension/Sctipts/MultiplayerServer.cs:58-63 | pinned down by `ExceptMembership`: exactly the members other than x, in order |
| Rooms.Broadcast | Assets/LiteNetLibExtension/Sctipts/MultiplayerServer.cs:46-49 | pinned down by `BroadcastMembership`: one send per listed recipient, all with the same message |
| Rooms.RemoveFirst | Assets/LiteNetLibExtension/Sctipts/MultiplayerServer.cs:159 | `List.Remove`, pinned down by `RemoveFirstOfUnique` |
| Rooms.GroupSends | Assets/LiteNetLibExtension/Sctipts/MultiplayerServer.cs:41-51 | `SendToGroup` as a batch of sends; `GroupRouting` states whom it reaches |
| Rooms.GroupSendsExceptSelf | Assets/LiteNetLibExtension/Sctipts/MultiplayerServer.cs:53-66 | `SendToGroupExceptSelf` as a batch of sends; `GroupRouting` states whom it reaches |
| Rooms.CreateRoomNext | Assets/LiteNetLibExtension/Sctipts/MultiplayerServer.cs:99-115 | the registry after CreateRoom; pinned down by `CreateRoomPreservesConsistency`, `CreateRoomExistingIsNoop` and `EmptiedRoomIsRecreated` |
| Rooms.CreateRoomSends | Assets/LiteNetLibExtension/Sctipts/MultiplayerServer.cs:109-113 | the creator's notice, only for a new name; pinned down by the same lemmas |
| Rooms.JoinRoomNext | Assets/LiteNetLibExtension/Sctipts/MultiplayerServer.cs:117-145 | the registry after JoinRoom; pinned down by `JoinRoomRegisteredIsNoop`, `JoinRoomCreatesRoom`, `JoinRoomEffect` and `JoinRoomPreservesConsistency` |
| Rooms.JoinRoomSends | Assets/LiteNetLibExtension/Sctipts/MultiplayerServer.cs:125-144 | the creation notice, then the join notice to every member; pinned down by `JoinRoomCreatesRoom` and `JoinRoomEffect` |
| Rooms.LeaveRoomNext | Assets/LiteNetLibExtension/Sctipts/MultiplayerServer.cs:147-167 | the registry after LeaveRoom; pinned down by `LeaveRoomUnregisteredIsNoop`, `LeaveRoomEffect`, `LeaveRoomIdempotent` and `LeaveRoomPreservesConsistency` |
| Rooms.LeaveRoomSends | Assets/LiteNetLibExtension/Sctipts/MultiplayerServer.cs:154-157 | the leave notice to the whole room before removal; pinned down by `LeaveRoomEffect` |
| Rooms.Receive | Assets/LiteNetLibExtension/Sctipts/MultiplayerServer.cs:68-91 | the handler's dispatch on the tag, with the sending peer as actor; pinned down by `ClientCreateRoomUnreadable`, `ClientJoinRoomIsApplied`, `LeaveRoomIgnoresPayload` and `ReceivePreservesConsistency` |
| Rooms.CreateRoomPreservesConsistency | Assets/LiteNetLibExtension/Sctipts/MultiplayerServer.cs:99-115 | CreateRoom keeps the registry invariant; for a new name it adds exactly an empty room under that name and tells only the creator |
| Rooms.CreateRoomExistingIsNoop | Assets/LiteNetLibExtension/Sctipts/MultiplayerServer.cs:99-101 | CreateRoom of a name in use changes nothing and sends nothing |
| Rooms.JoinRoomPreservesConsistency | Assets/LiteNetLibExtension/Sctipts/MultiplayerServer.cs:117-145 | JoinRoom keeps the registry invariant |
| Rooms.JoinRoomStep | Assets/LiteNetLibExtension/Sctipts/MultiplayerServer.cs:125-136 | after the optional creation the room exists, and adding the actor yields the join's result, which is consistent |
| Rooms.JoinRoomRegisteredIsNoop | Assets/LiteNetLibExtension/Sctipts/MultiplayerServer.cs:119-123 | a join by a registered actor changes nothing and sends nothing |
| Rooms.JoinRoomEffect | Assets/LiteNetLibExtension/Sctipts/MultiplayerServer.cs:130-144 | the actor is registered under its names, appended once to the room, other rooms are unchanged, and every member, the joiner included, gets the join notice |
| Rooms.JoinRoomCreatesRoom | Assets/LiteNetLibExtension/Sctipts/MultiplayerServer.cs:125-128 | joining a missing room creates it with the joiner alone, and only the joiner is told of the creation and of the join |
| Rooms.LeaveRoomUnregisteredIsNoop | Assets/LiteNetLibExtension/Sctipts/MultiplayerServer.cs:147-149 | a leave of an unregistered actor changes nothing and sends nothing |
| Rooms.LeaveRoomPreservesConsistency | Assets/LiteNetLibExtension/Sctipts/MultiplayerServer.cs:147-167 | LeaveRoom keeps the registry invariant |
| Rooms.LeaveRoomEffect | Assets/LiteNetLibExtension/Sctipts/MultiplayerServer.cs:150-166 | the notice goes to every member, the leaver included, before removal; the actor is unregistered; the room goes exactly when it empties; other rooms are unchanged |
| Rooms.LeaveRoomIdempotent | Assets/LiteNetLibExtension/Sctipts/MultiplayerServer.cs:147-149 | after a leave, a second leave, or a leave after a disconnect, changes nothing and sends nothing |
| Rooms.ActorInExactlyOneGroup | Assets/LiteNetLibExtension/Sctipts/MultiplayerServer.cs:117-167 | under the invariant a registered actor is listed exactly once in the room it names and in no other room |
| Rooms.GroupRouting | Assets/LiteNetLibExtension/Sctipts/MultiplayerServer.cs:41-66 | an unregistered sender reaches nobody; otherwise a group send reaches each member of the sender's room, and the except-self variant each member but the sender |
| Rooms.EmptiedRoomIsRecreated | Assets/LiteNetLibExtension/Sctipts/MultiplayerServer.cs:99-115 | the last leaver deletes the room; creating that name again makes a fresh empty room and tells the requester |
| Rooms.ClientCreateRoomUnreadable | Assets/LiteNetLibExtension/Sctipts/MultiplayerServer.cs:70-76 | the server cannot read the room name of the client's CreateRoom request as written; in the typed field model the read fails and the registry and outbox are unchanged |
| Rooms.ClientJoinRoomIsApplied | Assets/LiteNetLibExtension/Sctipts/MultiplayerServer.cs:77-84 | the client's JoinRoom request is read back as written and joins the sending peer |
| Rooms.LeaveRoomIgnoresPayload | Assets/LiteNetLibExtension/Sctipts/MultiplayerServer.cs:85-90 | a LeaveRoom message removes the sending peer's actor, whatever id it carries |
| Rooms.EmptyRoomPersists | Assets/LiteNetLibExtension/Sctipts/MultiplayerServer.cs:147-167 | a room nobody is in, such as one made by a bare CreateRoom, survives every message, since LeaveRoom only deletes the leaver's own room; only a join can fill it |
| Rooms.ReceivePreservesConsistency | Assets/LiteNetLibExtension/Sctipts/MultiplayerServer.cs:68-91 | every message keeps the registry invariant |
| Rooms.MultiplayerServer.constructor | Assets/LiteNetLibExtension/Sctipts/MultiplayerServer.cs:30-31 | both dictionaries start empty, which satisfies the invariant |
| Rooms.MultiplayerServer.StartServer | Assets/LiteNetLibExtension/Sctipts/MultiplayerServer.cs:33-39 | starts the transport with the argument scan's settings |
| Rooms.MultiplayerServer.SendToGroup | Assets/LiteNetLibExtension/Sctipts/MultiplayerServer.cs:41-51 | the outbox gains the delivered part of one send to each member of the sender's room, in list order |
| Rooms.MultiplayerServer.SendToGroupExceptSelf | Assets/LiteNetLibExtension/Sctipts/MultiplayerServer.cs:53-66 | as SendToGroup, skipping the sender |
| Rooms.MultiplayerServer.CreateRoom | Assets/LiteNetLibExtension/Sctipts/MultiplayerServer.cs:99-115 | the dictionaries become CreateRoomNext's, the invariant holds, and the creator's notice is delivered |
| Rooms.MultiplayerServer.JoinRoom | Assets/LiteNetLibExtension/Sctipts/MultiplayerServer.cs:117-145 | the dictionaries become JoinRoomNext's, the invariant holds, and the creation and join notices are delivered |
| Rooms.MultiplayerServer.AddActor | Assets/LiteNetLibExtension/Sctipts/MultiplayerServer.cs:130-136 | the actor is appended to the room's list and registered under its names |
| Rooms.MultiplayerServer.LeaveRoom | Assets/LiteNetLibExtension/Sctipts/MultiplayerServer.cs:147-167 | the dictionaries become LeaveRoomNext's, the invariant holds, and the leave notice is delivered first |
| Rooms.MultiplayerServer.OnNetworkReceivedHandler | Assets/LiteNetLibExtension/Sctipts/MultiplayerServer.cs:68-91 | state, delivered sends and reader position are those of `Rooms.Receive` |
| Rooms.MultiplayerServer.OnPeerDisconnectedHandler | Assets/LiteNetLibExtension/Sctipts/MultiplayerServer.cs:93-97 | the disconnected peer's actor leaves its room as by LeaveRoom |
| ServerObjects.WithoutRange | Assets/LiteNetLibExtension/Example/Server/GameServer.cs:81-89 | exactly the keys outside [lo, hi) remain, with their objects |
| ServerObjects.OwnerStart | Assets/LiteNetLibExtension/Example/Server/GameServer.cs:79 | the start of an actor's id range in `int` arithmetic; see `RemoveTakesOwnedObjects` and `RemoveAtWrapKeepsOwnedObjects` |
| ServerObjects.OwnerEnd | Assets/LiteNetLibExtension/Example/Server/GameServer.cs:80 | the end of the range, wrapped twice as the source computes it; see the same lemmas |
| ServerObjects.RemoveNext | Assets/LiteNetLibExtension/Example/Server/GameServer.cs:79-89 | the table after the removal loop; pinned down by `RemoveTakesOwnedObjects`, `RemoveAtWrapKeepsOwnedObjects` and `RemoveIdempotent` |
| ServerObjects.RemoveSends | Assets/LiteNetLibExtension/Example/Server/GameServer.cs:91-95 | the removal notice to the actor's room but the actor; its layout is `Wire.RemovalNoticeLayoutsDisagree` |
| ServerObjects.InstantiateNext | Assets/LiteNetLibExtension/Example/Server/GameServer.cs:58-60 | the table with the object stored under its id; pinned down by `InstantiateEffect` |
| ServerObjects.InstantiateSends | Assets/LiteNetLibExtension/Example/Server/GameServer.cs:62-74 | the relay to the sender's room but the sender; pinned down by `InstantiateEffect` |
| ServerObjects.Receive | Assets/LiteNetLibExtension/Example/Server/GameServer.cs:24-52 | the handler's dispatch on the tag; pinned down by `ClientInstantiateIsApplied`, `LeaveUsesPayloadActor` and `ShortLeaveAndTransformIgnored` |
| ServerObjects.RemoveTakesOwnedObjects | Assets/LiteNetLibExtension/Example/Server/GameServer.cs:79-89 | for an actor whose range fits in an `int`, exactly the objects with id / 1000 equal to the actor go and all others stay unchanged |
| ServerObjects.RemoveAtWrapKeepsOwnedObjects | Assets/LiteNetLibExtension/Example/Server/GameServer.cs:79-81 | for actor 2147483 the range end wraps negative and nothing is removed |
| ServerObjects.RemoveIdempotent | Assets/LiteNetLibExtension/Example/Server/GameServer.cs:79-89 | a second removal of the same actor changes nothing |
| ServerObjects.InstantiateEffect | Assets/LiteNetLibExtension/Example/Server/GameServer.cs:54-75 | the object is stored under its id, overwriting, with no range check; the same fields go to every member of the sender's room but the sender, and to nobody for an unregistered sender |
| ServerObjects.ClientInstantiateIsApplied | Assets/LiteNetLibExtension/Example/Server/GameServer.cs:27-41 | the client's instantiation message is read back as written |
| ServerObjects.LeaveUsesPayloadActor | Assets/LiteNetLibExtension/Example/Server/GameServer.cs:42-47 | on a leave the actor whose objects go is the one in the payload |
| ServerObjects.ShortLeaveAndTransformIgnored | Assets/LiteNetLibExtension/Example/Server/GameServer.cs:42-51 | PlayerTransform does nothing; in the typed field model a leave with no id field changes nothing either |
| ServerObjects.GameServer.constructor | Assets/LiteNetLibExtension/Example/Server/GameServer.cs:15 | the object table starts empty |
| ServerObjects.GameServer.Start | Assets/LiteNetLibExtension/Example/Server/GameServer.cs:17-22 | the table is emptied and the room server started |
| ServerObjects.GameServer.NetworkInstantiate | Assets/LiteNetLibExtension/Example/Server/GameServer.cs:54-75 | the table becomes InstantiateNext's and the relay is delivered |
| ServerObjects.GameServer.RemoveNetworkObjects | Assets/LiteNetLibExtension/Example/Server/GameServer.cs:77-96 | the loop over the wrapped range leaves RemoveNext's table, then the notice is delivered to the actor's room but the actor |
| ServerObjects.GameServer.OnNetworkReceivedHandler | Assets/LiteNetLibExtension/Example/Server/GameServer.cs:24-52 | table, delivered sends and reader position are those of `ServerObjects.Receive` |
| ServerHost.Receive | Assets/LiteNetLibExtension/Sctipts/LiteNetLibServer.cs:140-147 | the dispatch of a datagram to the game and then the rooms keeps the registry invariant |
| ServerHost.UnusableDatagramsIgnored | Assets/LiteNetLibExtension/Sctipts/LiteNetLibServer.cs:142-146 | a datagram under 4 user bytes, a pose update and a player transform change nothing and send nothing; so, in the typed field model, do an id-less leave and the client's create request |
| ServerHost.JoinRequestEffect | Assets/LiteNetLibExtension/Sctipts/MultiplayerServer.cs:77-84 | through both handlers, a join request joins the sending peer and leaves the objects alone |
| ServerHost.InstantiateEffect | Assets/LiteNetLibExtension/Example/Server/GameServer.cs:27-41 | through both handlers, an instantiation is stored and relayed and the registry is unchanged |
| ServerHost.LeaveRequestEffect | Assets/LiteNetLibExtension/Example/Server/GameServer.cs:19-21 | the payload actor's objects go and its room is told first, then the sending peer leaves its room and that room is told |
| ServerHost.ForeignLeaveRemovesOthersObjects | Assets/LiteNetLibExtension/Example/Server/GameServer.cs:42-47 | a leave naming another registered actor removes that actor's objects, keeps that actor registered and unregisters the sender |
| ServerHost.SendsOnlyReplies | Assets/LiteNetLibExtension/Sctipts/MultiplayerServer.cs:147-167 | every send has a reply tag: never OnPlayerLeftRoom and never a pose update |
| ServerHost.DisconnectNoticeSkipsLeaver | Assets/LiteNetLibExtension/Sctipts/LiteNetLibServer.cs:126-132 | after a disconnect the leave notice reaches exactly the connected room members other than the leaver |
| ServerHost.Server.constructor | Assets/LiteNetLibExtension/Example/Server/GameServer.cs:13-15 | the three components are wired together, with empty tables |
| ServerHost.Server.OnNetworkReceive | Assets/LiteNetLibExtension/Sctipts/LiteNetLibServer.cs:140-147 | objects, registry and delivered sends are those of `ServerHost.Receive` |
| ServerHost.Server.OnPeerDisconnected | Assets/LiteNetLibExtension/Sctipts/LiteNetLibServer.cs:122-133 | the id leaves the table, then the actor leaves its room and the notice goes to the remaining connected ids; the objects stay |
| Session.ReceiveForwardsEveryMessage | Assets/LiteNetLibExtension/Sctipts/MultiplayerClient.cs:91-126 | every message whose reads succeed is forwarded last, after the session's own events; a failed read changes and raises nothing; a non-session tag is only forwarded |
| Session.ReceiveRaisesAtMostOneSessionEvent | Assets/LiteNetLibExtension/Sctipts/MultiplayerClient.cs:94-123 | the session transitions raise at most one event, none of them a forwarding |
| Session.ConnectedFromServer | Assets/LiteNetLibExtension/Sctipts/MultiplayerClient.cs:128-136 | the server's connected notice makes the client connected, not joined, with the id it carries |
| Session.TransitionsKeepWellFormed | Assets/LiteNetLibExtension/Sctipts/MultiplayerClient.cs:154-177 | the initial state is well formed, and while joined both names are set after any transition |
| Session.DisconnectedEffect | Assets/LiteNetLibExtension/Sctipts/MultiplayerClient.cs:138-146 | a disconnect clears connection, room and id and keeps both names |
| Session.CreatedFromServer | Assets/LiteNetLibExtension/Sctipts/MultiplayerClient.cs:148-152 | the created notice changes no field and raises the room name |
| Session.JoinedFromServer | Assets/LiteNetLibExtension/Sctipts/MultiplayerClient.cs:154-163 | any joined notice sets joined, id, user and room name from its payload |
| Session.ForeignJoinOverwritesIdentity | Assets/LiteNetLibExtension/Sctipts/MultiplayerClient.cs:154-163 | another actor's join notice takes over the local id, so the client's own leave notice is then ignored and its leave request names the other actor |
| Session.LeftFromServer | Assets/LiteNetLibExtension/Sctipts/MultiplayerClient.cs:165-177 | the client's own leave notice clears room, id and names and raises LeftRoom; another actor's changes nothing |
| Session.RemovalNoticeBypassesSession | Assets/LiteNetLibExtension/Sctipts/MultiplayerClient.cs:123-125 | the removal notice is forwarded untouched |
| Session.WellFormed | Assets/LiteNetLibExtension/Sctipts/MultiplayerClient.cs:154-177 | while joined both names are set; kept by every transition (`TransitionsKeepWellFormed`) |
| Session.ConnectedNext | Assets/LiteNetLibExtension/Sctipts/MultiplayerClient.cs:128-136 | pinned down by `ConnectedFromServer` |
| Session.DisconnectedNext | Assets/LiteNetLibExtension/Sctipts/MultiplayerClient.cs:138-146 | pinned down by `DisconnectedEffect` |
| Session.JoinedNext | Assets/LiteNetLibExtension/Sctipts/MultiplayerClient.cs:154-163 | pinned down by `JoinedFromServer` and `ForeignJoinOverwritesIdentity` |
| Session.LeftNext | Assets/LiteNetLibExtension/Sctipts/MultiplayerClient.cs:165-177 | pinned down by `LeftFromServer` |
| Session.LeftEvents | Assets/LiteNetLibExtension/Sctipts/MultiplayerClient.cs:167-176 | LeftRoom exactly for the client's own id; pinned down by `LeftFromServer` |
| Session.Dispatch | Assets/LiteNetLibExtension/Sctipts/MultiplayerClient.cs:94-123 | the five session branches; pinned down by `ReceiveRaisesAtMostOneSessionEvent` and the `...FromServer` lemmas |
| Session.Receive | Assets/LiteNetLibExtension/Sctipts/MultiplayerClient.cs:91-126 | the branches, then the forwarding; pinned down by `ReceiveForwardsEveryMessage` and `RemovalNoticeBypassesSession` |
| Session.MultiplayerClient.constructor | Assets/LiteNetLibExtension/Sctipts/MultiplayerClient.cs:22-34 | not connected, not joined, actor id -1, names unset, not initialized |
| Session.MultiplayerClient.Initialize | Assets/LiteNetLibExtension/Sctipts/MultiplayerClient.cs:42-47 | subscribes once more and marks the client initialized |
| Session.MultiplayerClient.StartClient | Assets/LiteNetLibExtension/Sctipts/MultiplayerClient.cs:49-56 | initializes only when not yet initialized and returns the transport's result |
| Session.MultiplayerClient.SendData | Assets/LiteNetLibExtension/Sctipts/MultiplayerClient.cs:58-63 | the message is appended to the outbox |
| Session.MultiplayerClient.CreateRoom | Assets/LiteNetLibExtension/Sctipts/MultiplayerClient.cs:65-72 | sends the actor id and then the room name |
| Session.MultiplayerClient.JoinRoom | Assets/LiteNetLibExtension/Sctipts/MultiplayerClient.cs:74-81 | sends the user name and the room name |
| Session.MultiplayerClient.LeaveRoom | Assets/LiteNetLibExtension/Sctipts/MultiplayerClient.cs:83-89 | sends the current local actor id |
| Session.MultiplayerClient.OnNetworkEventReceived | Assets/LiteNetLibExtension/Sctipts/MultiplayerClient.cs:91-126 | state, raised events and reader position are those of `Session.Receive` |
| Session.MultiplayerClient.OnConnectedServer | Assets/LiteNetLibExtension/Sctipts/MultiplayerClient.cs:128-136 | connected, not joined, the given id; raises ConnectedToServer |
| Session.MultiplayerClient.OnDisconnectedServer | Assets/LiteNetLibExtension/Sctipts/MultiplayerClient.cs:138-146 | not connected, not joined, id -1; raises DisconnectedServer |
| Session.MultiplayerClient.OnCreatedRoom | Assets/LiteNetLibExtension/Sctipts/MultiplayerClient.cs:148-152 | raises CreatedRoom with the room name |
| Session.MultiplayerClient.OnJoinedRoom | Assets/LiteNetLibExtension/Sctipts/MultiplayerClient.cs:154-163 | joined with the given id and names, unconditionally; raises JoinedRoom |
| Session.MultiplayerClient.OnLeftRoom | Assets/LiteNetLibExtension/Sctipts/MultiplayerClient.cs:165-177 | for the local id: not joined, id -1, names empty, raises LeftRoom; otherwise nothing |
| Session.MultiplayerClient.OnPlayerLeftRoom | Assets/LiteNetLibExtension/Sctipts/MultiplayerClient.cs:179-183 | raises PlayerLeftRoom with the id |
| ClientObjects.NextSubId | Assets/LiteNetLibExtension/Example/Client/GameClient.cs:44 | the next sub-id lies strictly between -1000 and 1000 |
| ClientObjects.ScanFindsFirstFree | Assets/LiteNetLibExtension/Example/Client/GameClient.cs:42-55 | when some later step is free, the scan hands out the first free candidate and moves the cursor to it |
| ClientObjects.ScanExhausted | Assets/LiteNetLibExtension/Example/Client/GameClient.cs:42-56 | when no step is free the cursor is kept and the id handed out is the last one tried, which is in use |
| ClientObjects.OwnerOffset | Assets/LiteNetLibExtension/Example/Client/GameClient.cs:41 | `MaxNetworkObjectID * actorId` (1000 times the actor id), wrapped to 32 bits as C# `int` multiplication does; its effect is stated by `AllocateInOwnerRange` and `NegativeActorLeavesRange` |
| ClientObjects.Scan | Assets/LiteNetLibExtension/Example/Client/GameClient.cs:42-56 | the allocator loop from step i; pinned down by `ScanFindsFirstFree` and `ScanExhausted` |
| ClientObjects.Allocate | Assets/LiteNetLibExtension/Example/Client/GameClient.cs:36-56 | the id and cursor `NetworkInstantiate` ends with; pinned down by `AllocateInOwnerRange`, `AllocateFirstFree`, `AllocateWhenFull`, `NegativeActorLeavesRange` and `FirstAllocation` |
| ClientObjects.SubIdClosedForm | Assets/LiteNetLibExtension/Example/Client/GameClient.cs:44 | from a non-negative cursor the k-th sub-id is (cursor + k) % 1000 |
| ClientObjects.EverySubIdVisited | Assets/LiteNetLibExtension/Example/Client/GameClient.cs:42-48 | every sub-id 1..999 is visited within the 1000 steps |
| ClientObjects.AllocateInOwnerRange | Assets/LiteNetLibExtension/Example/Client/GameClient.cs:41-50 | for an actor whose range fits, the id handed out is `subId + 1000 * actor` with 1 <= subId <= 999 |
| ClientObjects.AllocateFirstFree | Assets/LiteNetLibExtension/Example/Client/GameClient.cs:42-55 | if one of the actor's ids is free, the first free one in scan order is handed out, was not in use, and becomes the cursor |
| ClientObjects.AllocateWhenFull | Assets/LiteNetLibExtension/Example/Client/GameClient.cs:42-59 | with every id in use no failure is reported: an id in use is handed out and the cursor is kept |
| ClientObjects.CursorResidue | Assets/LiteNetLibExtension/Example/Client/GameClient.cs:53 | keeping the whole id as cursor scans the same sub-ids as keeping the sub-id, for a non-negative actor |
| ClientObjects.NegativeActorLeavesRange | Assets/LiteNetLibExtension/Example/Client/GameClient.cs:40-53 | with actor id -1 the first ids are -999 and then -1998, leaving the actor's range |
| ClientObjects.FirstAllocation | Assets/LiteNetLibExtension/Example/Client/GameClient.cs:36-53 | actor 1's first object gets id 1001 |
| ClientObjects.Poses | Assets/LiteNetLibExtension/Example/Client/GameClient.cs:93-97 | one pose per local object, that object's pose |
| ClientObjects.Snapshot | Assets/LiteNetLibExtension/Example/Client/GameClient.cs:86-107 | the snapshot for one enumeration of the local ids; pinned down by `SnapshotLayout` |
| ClientObjects.PoseEntriesAt | Assets/LiteNetLibExtension/Example/Client/GameClient.cs:93-107 | the entries hold two fields per listed id: the k-th id at 2k, and that object's pose at 2k+1 |
| ClientObjects.SnapshotLayout | Assets/LiteNetLibExtension/Example/Client/GameClient.cs:86-107 | the snapshot's count is the local table size, and entry k is the k-th id with its pose, each id once |
| ClientObjects.ReadableFrom | Assets/LiteNetLibExtension/Example/Client/GameClient.cs:151-161 | counts the entries read before the first failing read, at most the announced count |
| ClientObjects.EntriesRead | Assets/LiteNetLibExtension/Example/Client/GameClient.cs:151-161 | the first m entries, in order |
| ClientObjects.ApplyPosesKeepsReplicas | Assets/LiteNetLibExtension/Example/Client/GameClient.cs:162-166 | pose entries never add or remove a replica and never change a prefab |
| ClientObjects.ApplyPosesFrame | Assets/LiteNetLibExtension/Example/Client/GameClient.cs:162-166 | a replica no entry names keeps its pose |
| ClientObjects.ApplyPosesLastWins | Assets/LiteNetLibExtension/Example/Client/GameClient.cs:151-167 | a named replica ends with the pose of the last entry naming it |
| ClientObjects.PoseEntryAt | Assets/LiteNetLibExtension/Example/Client/GameClient.cs:153-160 | the k-th entry of a pose update, an id and a pose, or a failed read; counted by `ReadableFrom` and collected by `EntriesRead` |
| ClientObjects.ApplyPose | Assets/LiteNetLibExtension/Example/Client/GameClient.cs:162-166 | one entry: a known replica takes the pose, an unknown id is ignored; its effect over a sequence is `ApplyPosesKeepsReplicas`, `ApplyPosesFrame` and `ApplyPosesLastWins` |
| ClientObjects.ApplyPoses | Assets/LiteNetLibExtension/Example/Client/GameClient.cs:151-167 | the entries applied in order; pinned down by `ApplyPosesKeepsReplicas`, `ApplyPosesFrame` and `ApplyPosesLastWins` |
| ClientObjects.WithoutIds | Assets/LiteNetLibExtension/Example/Client/GameClient.cs:208-219 | exactly the unlisted replicas remain, unchanged |
| ClientObjects.ReceiveInstantiate | Assets/LiteNetLibExtension/Example/Client/GameClient.cs:117-129 | pinned down by `RelayedInstantiateIsStored` |
| ClientObjects.ReceiveRemoval | Assets/LiteNetLibExtension/Example/Client/GameClient.cs:130-143 | pinned down by `RemovalReadsListedIds` and `RemovalNoticeUnreadable` |
| ClientObjects.ReceivePoses | Assets/LiteNetLibExtension/Example/Client/GameClient.cs:144-168 | pinned down by `PoseUpdateKeepsReplicaSet`, `SnapshotUnreadable` and the `ApplyPoses...` lemmas |
| ClientObjects.Receive | Assets/LiteNetLibExtension/Example/Client/GameClient.cs:114-169 | the three branches on the tag; any other tag passes through unchanged |
| ClientObjects.RelayedInstantiateIsStored | Assets/LiteNetLibExtension/Example/Client/GameClient.cs:117-129 | a relayed instantiation is stored under its id, replacing any replica there |
| ClientObjects.RemovalNoticeUnreadable | Assets/LiteNetLibExtension/Example/Client/GameClient.cs:130-143 | the server's removal notice ends before the count the client reads; in the typed field model that read fails and no replica is removed |
| ClientObjects.RemovalReadsListedIds | Assets/LiteNetLibExtension/Example/Client/GameClient.cs:130-143 | a well-formed removal message removes exactly the listed replicas |
| ClientObjects.PoseUpdateKeepsReplicaSet | Assets/LiteNetLibExtension/Example/Client/GameClient.cs:144-168 | any pose update, however malformed, keeps the replica ids and prefabs |
| ClientObjects.SnapshotUnreadable | Assets/LiteNetLibExtension/Example/Client/GameClient.cs:86-91 | a client cannot read a client's snapshot as written; in the typed field model the count read fails and nothing is applied |
| ClientObjects.GameClient.constructor | Assets/LiteNetLibExtension/Example/Client/GameClient.cs:15-17 | both tables empty and the cursor 0 |
| ClientObjects.GameClient.NetworkInstantiate | Assets/LiteNetLibExtension/Example/Client/GameClient.cs:36-77 | the loop yields `Allocate`'s id and cursor; the object is stored under the id and its instantiation sent |
| ClientObjects.GameClient.SendPose | Assets/LiteNetLibExtension/Example/Client/GameClient.cs:79-112 | nothing unless joined with local objects; otherwise one snapshot over an enumeration of the local ids |
| ClientObjects.GameClient.OnNetworkEventReceived | Assets/LiteNetLibExtension/Example/Client/GameClient.cs:114-169 | replicas and reader position are those of `ClientObjects.Receive` |
| ClientObjects.GameClient.ReceiveInstantiateData | Assets/LiteNetLibExtension/Example/Client/GameClient.cs:117-129 | as ReceiveInstantiate |
| ClientObjects.GameClient.ReceiveRemovalData | Assets/LiteNetLibExtension/Example/Client/GameClient.cs:130-143 | the id-list loop and the removal give ReceiveRemoval's result |
| ClientObjects.GameClient.ReceivePoseData | Assets/LiteNetLibExtension/Example/Client/GameClient.cs:144-168 | the entry loop gives ReceivePoses' result, keeping entries applied before a failing read |
| ClientObjects.GameClient.OnLeftRoom | Assets/LiteNetLibExtension/Example/Client/GameClient.cs:181-184 | the local table is empty and the cursor 0 |
| ClientObjects.GameClient.OnNetworkInstantiate | Assets/LiteNetLibExtension/Example/Client/GameClient.cs:186-191 | the replica is stored under its id |
| ClientObjects.GameClient.OnRemoveLocalObjects | Assets/LiteNetLibExtension/Example/Client/GameClient.cs:193-206 | the local table is empty and the cursor 0 |
| ClientObjects.GameClient.OnRemoveNetworkObjects | Assets/LiteNetLibExtension/Example/Client/GameClient.cs:208-219 | exactly the listed replicas that are present are removed |
| ClientHost.Receive | Assets/LiteNetLibExtension/Example/Client/GameClient.cs:19-23 | no incoming message adds a local object: all are kept, or the client's own leave notice clears them and the cursor |
| ClientHost.Disconnected | Assets/LiteNetLibExtension/Sctipts/MultiplayerClient.cs:138-146 | a lost connection ends the session but keeps local objects, replicas and cursor |
| ClientHost.LeaveNoticeEffect | Assets/LiteNetLibExtension/Example/Client/GameClient.cs:181-184 | the own leave notice clears the local objects and cursor but keeps the replicas; another actor's leave notice changes nothing |
| ClientHost.RelayedInstantiateEffect | Assets/LiteNetLibExtension/Example/Client/GameClient.cs:117-129 | a relayed instantiation adds or replaces one replica and touches nothing else |
| ClientHost.RemovalNoticeChangesNothing | Assets/LiteNetLibExtension/Example/Client/GameClient.cs:130-143 | in the typed field model the server's removal notice changes nothing on a client |
| ClientHost.InstantiateReachesRoomMates | Assets/LiteNetLibExtension/Example/Server/GameServer.cs:54-75 | an instantiation reaches each connected room mate, which stores the same replica under the same id |
| ClientHost.LeaveKeepsReplicasEverywhere | Assets/LiteNetLibExtension/Example/Server/GameServer.cs:91-95 | in the typed field model nothing the server sends after a leave request changes any client's replicas |
| ClientHost.Client.constructor | Assets/LiteNetLibExtension/Example/Client/GameClient.cs:19-29 | session and game wired together in their initial state |
| ClientHost.Client.OnNetworkEventReceived | Assets/LiteNetLibExtension/Sctipts/MultiplayerClient.cs:91-126 | session, tables and cursor are those of `ClientHost.Receive` |
| ClientHost.Client.OnDisconnected | Assets/LiteNetLibExtension/Sctipts/MultiplayerClient.cs:138-146 | the state is that of `ClientHost.Disconnected` |

## Left out

- Byte encoding: the `NetDataWriter` and `NetDataReader` formats belong to the transport library.
  Messages are field sequences. The user byte count of a datagram is a separate number, not
  computed from its fields.
- Exceptions: a failed read is modelled as a handler stopping with `None`. Everything the
  handler did before the read stays done.
- The library reader's handling of a mismatched or past-the-end read. Here such a read fails;
  the library's `NetDataReader` reinterprets the bytes at that position or fails in its own way.
  `Wire.CreateRoomLayoutsDisagree`, `Wire.RemovalNoticeLayoutsDisagree`,
  `Wire.PoseSnapshotLayoutsDisagree`, `Rooms.ClientCreateRoomUnreadable`,
  `ClientObjects.RemovalNoticeUnreadable`, `ClientObjects.SnapshotUnreadable`,
  `ClientHost.RemovalNoticeChangesNothing`, `ClientHost.LeaveKeepsReplicasEverywhere` and the
  create-request and id-less-leave cases of `ServerHost.UnusableDatagramsIgnored`, and the
  id-less-leave case of `ServerObjects.ShortLeaveAndTransformIgnored`, therefore hold for the
  field model only. An id-less leave that passes the four-byte guard exists only because the
  model keeps the byte count apart from the fields. Only the clauses of the three `Wire` lemmas that state what was
  written at each position are independent of the reader.
- `AcceptIfKey` connection requests, `PollEvents`, sockets, delivery methods and `StopServer`.
  These are transport internals.
- The result of `NetManager.Start`, which only selects a log line.
- The client transport `LiteNetLibClient`. `MultiplayerClient.SendData` appends to an outbox
  and `StartClient` takes the transport's result as a parameter.
- `DemoApp`, the interface files and `LiteNetLibConfig`. Only the configuration's default port
  and key are used, as the defaults of the argument scan.
- Unity objects. `Resources.Load`, `Instantiate`, `Destroy`, object names and `Debug.Log` are left
  out; a scene object is its prefab name and pose.
- Floats. Positions and rotations are `real` and are only copied.
- Dictionary enumeration order. `SendPose` visits the local table in an order this model does not
  fix, so its contract speaks of some enumeration of the keys.
- Delegate subscriptions. The subscription counts beyond `Initialize` are not modelled;
  `ServerHost` and `ClientHost` fix the order in which the components subscribe. The
  `MultiplayerServer.OnNetworkReceived` delegate, which is unset when `StartServer` adds it, is
  left out.
- `_ConnectedClients` and `_NetworkObjectDictionary` are `null` before the server starts. The
  model starts them empty instead.
- The byte values of the game's NetworkInstantiate, RemoveNetworkObjects and UpdateObjectPose
  tags are not in the source files. They are distinct tags of their own.
- The list capacity error of `new List<int>(dataNum)`: a negative count fails the read, as in
  the source, but running out of memory is not modelled.
- GameClient's connected and disconnected handlers, which only log.
- Handler splitting. Several source methods appear as a main method plus helper methods, one per
  message branch. This keeps each proof small and does not change the behaviour.
- The game client's OnLeftRoom handler runs when the client's OnNetworkEventReceived returns,
  not from inside OnLeftRoom. This cannot change the result, since neither side reads the other's
  fields.
