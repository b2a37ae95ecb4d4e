/** The server side of the transport adapter, `LiteNetLibServer`: the
    command-line scan for port and key, the table of connected clients and
    the send that silently skips ids missing from it. */
module Transport {
  import opened Wrappers
  import opened NetworkDataType
  import opened Wire
  import opened LiteNetLibUtil

  /** Datagrams with fewer user bytes than this are dropped before dispatch. */
  const MinUserDataSize: nat := 4

  /** Port and connection key. */
  datatype Settings = Settings(port: int, key: string)

  /** The defaults of the configuration asset, where the scan starts from. */
  const ConfigDefaults: Settings := Settings(11010, "LiteNetLibExample")

  /** How the argument scan ends: normally, or where `int.Parse` rejected the value after `--port`. */
  datatype ScanOutcome = Scanned(settings: Settings) | ParseFailed(settings: Settings)

  /** The scan of `args` from index i on, for every i with i < |args| - 1. `parse` is `int.Parse`:
      None where it throws. */
  function ScanArgs(s: Settings, args: seq<string>, parse: string -> Option<int>, i: nat): ScanOutcome
    decreases |args| - i
  {
    if i + 1 >= |args| then Scanned(s)
    else if args[i] == "--port" then
      match parse(args[i + 1])
      case None => ParseFailed(s)
      case Some(p) => ScanArgs(Settings(p, s.key), args, parse, i + 1)
    else if args[i] == "--key" then ScanArgs(Settings(s.port, args[i + 1]), args, parse, i + 1)
    else ScanArgs(s, args, parse, i + 1)
  }

  /** Without a flag before the last position the settings are kept; in particular a
      `--port` or `--key` in last position is ignored. */
  lemma {:induction false} NoFlagKeepsSettings(s: Settings, args: seq<string>, parse: string -> Option<int>, i: nat)
    requires forall k :: i <= k < |args| - 1 ==> args[k] != "--port" && args[k] != "--key"
    ensures ScanArgs(s, args, parse, i) == Scanned(s)
    decreases |args| - i
  {
    if i + 1 < |args| {
      NoFlagKeepsSettings(s, args, parse, i + 1);
    }
  }

  /** Without a `--port` flag the scan cannot fail and keeps the port. */
  lemma {:induction false} PortKeptWithoutPortFlag(s: Settings, args: seq<string>, parse: string -> Option<int>, i: nat)
    requires forall k :: i <= k < |args| - 1 ==> args[k] != "--port"
    ensures ScanArgs(s, args, parse, i).Scanned?
    ensures ScanArgs(s, args, parse, i).settings.port == s.port
    decreases |args| - i
  {
    if i + 1 < |args| {
      if args[i] == "--key" {
        PortKeptWithoutPortFlag(Settings(s.port, args[i + 1]), args, parse, i + 1);
      } else {
        PortKeptWithoutPortFlag(s, args, parse, i + 1);
      }
    }
  }

  /** Without a `--key` flag the key is kept, whether or not a parse fails. */
  lemma {:induction false} KeyKeptWithoutKeyFlag(s: Settings, args: seq<string>, parse: string -> Option<int>, i: nat)
    requires forall k :: i <= k < |args| - 1 ==> args[k] != "--key"
    ensures ScanArgs(s, args, parse, i).settings.key == s.key
    decreases |args| - i
  {
    if i + 1 < |args| {
      if args[i] == "--port" {
        match parse(args[i + 1])
        case None =>
        case Some(p) => KeyKeptWithoutKeyFlag(Settings(p, s.key), args, parse, i + 1);
      } else {
        KeyKeptWithoutKeyFlag(s, args, parse, i + 1);
      }
    }
  }

  /** The last `--port` before the final position decides the port of a completed scan. */
  lemma {:induction false} LastPortWins(s: Settings, args: seq<string>, parse: string -> Option<int>, i: nat, j: nat)
    requires i <= j && j + 1 < |args| && args[j] == "--port" && parse(args[j + 1]).Some?
    requires forall k :: j < k < |args| - 1 ==> args[k] != "--port"
    ensures ScanArgs(s, args, parse, i).Scanned? ==> ScanArgs(s, args, parse, i).settings.port == parse(args[j + 1]).value
    decreases j - i
  {
    if i == j {
      PortKeptWithoutPortFlag(Settings(parse(args[j + 1]).value, s.key), args, parse, j + 1);
    } else if args[i] == "--port" {
      match parse(args[i + 1])
      case None =>
      case Some(p) => LastPortWins(Settings(p, s.key), args, parse, i + 1, j);
    } else if args[i] == "--key" {
      LastPortWins(Settings(s.port, args[i + 1]), args, parse, i + 1, j);
    } else {
      LastPortWins(s, args, parse, i + 1, j);
    }
  }

  /** The last `--key` before the final position decides the key of a completed scan. */
  lemma {:induction false} LastKeyWins(s: Settings, args: seq<string>, parse: string -> Option<int>, i: nat, j: nat)
    requires i <= j && j + 1 < |args| && args[j] == "--key"
    requires forall k :: j < k < |args| - 1 ==> args[k] != "--key"
    ensures ScanArgs(s, args, parse, i).Scanned? ==> ScanArgs(s, args, parse, i).settings.key == args[j + 1]
    decreases j - i
  {
    if i == j {
      KeyKeptWithoutKeyFlag(Settings(s.port, args[j + 1]), args, parse, j + 1);
    } else if args[i] == "--port" {
      match parse(args[i + 1])
      case None =>
      case Some(p) => LastKeyWins(Settings(p, s.key), args, parse, i + 1, j);
    } else if args[i] == "--key" {
      LastKeyWins(Settings(s.port, args[i + 1]), args, parse, i + 1, j);
    } else {
      LastKeyWins(s, args, parse, i + 1, j);
    }
  }

  /** The sends among `sends` that `SendData` passes on: those to a connected client. */
  function Delivered(connected: set<int>, sends: seq<Send>): seq<Send>
    decreases |sends|
  {
    if sends == [] then []
    else
      var last := sends[|sends| - 1];
      Delivered(connected, sends[..|sends| - 1]) + (if last.clientId in connected then [last] else [])
  }

  lemma DeliveredSnoc(connected: set<int>, sends: seq<Send>, s: Send)
    ensures Delivered(connected, sends + [s]) == Delivered(connected, sends) + (if s.clientId in connected then [s] else [])
  {
    assert (sends + [s])[..|sends|] == sends;
  }

  /** Filtering distributes over consecutive batches of sends. */
  lemma {:induction false} DeliveredAppend(connected: set<int>, a: seq<Send>, b: seq<Send>)
    ensures Delivered(connected, a + b) == Delivered(connected, a) + Delivered(connected, b)
    decreases |b|
  {
    if b == [] {
      assert a + b == a;
    } else {
      var init, last := b[..|b| - 1], b[|b| - 1];
      assert b == init + [last];
      assert a + b == (a + init) + [last];
      DeliveredSnoc(connected, a + init, last);
      DeliveredSnoc(connected, init, last);
      DeliveredAppend(connected, a, init);
    }
  }

  /** Two batches of sends delivered one after the other leave the outbox as one batch would. */
  lemma OutboxAfterTwoBatches(connected: set<int>, o0: seq<Send>, o1: seq<Send>, o2: seq<Send>, a: seq<Send>, b: seq<Send>)
    requires o1 == o0 + Delivered(connected, a) && o2 == o1 + Delivered(connected, b)
    ensures o2 == o0 + Delivered(connected, a + b)
  {
    DeliveredAppend(connected, a, b);
  }

  /** A send is passed on exactly when it was asked for and its client is connected. */
  lemma {:induction false} DeliveredMembership(connected: set<int>, sends: seq<Send>, s: Send)
    ensures s in Delivered(connected, sends) <==> s in sends && s.clientId in connected
    decreases |sends|
  {
    if sends != [] {
      var init, last := sends[..|sends| - 1], sends[|sends| - 1];
      assert sends == init + [last];
      DeliveredMembership(connected, init, s);
    }
  }

  class LiteNetLibServer {
    var port: int
    var key: string
    /** `_ConnectedClients`: client id to the id of the peer it was assigned for. */
    var connectedClients: map<int, int>
    /** Every datagram handed to a peer, in order. */
    var outbox: seq<Send>

    constructor ()
      ensures port == 11010 && key == ""
      ensures connectedClients == map[] && outbox == []
    {
      port := 11010;
      key := "";
      connectedClients := map[];
      outbox := [];
    }

    /** Reads port and key from the configuration, lets `--port <n>` and `--key <s>` override
        them, and starts with an empty client table. When `int.Parse` throws, the method stops
        there: `started` is false and the table is not reset. */
    method StartServer(config: Settings, args: seq<string>, parse: string -> Option<int>) returns (started: bool)
      modifies this`port, this`key, this`connectedClients
      ensures var outcome := ScanArgs(config, args, parse, 0);
        Settings(port, key) == outcome.settings && started == outcome.Scanned?
      ensures connectedClients == if started then map[] else old(connectedClients)
    {
      port := config.port;
      key := config.key;
      var i := 0;
      while i < |args| - 1
        invariant ScanArgs(Settings(port, key), args, parse, i) == ScanArgs(config, args, parse, 0)
        invariant connectedClients == old(connectedClients)
        decreases |args| - i
      {
        if args[i] == "--port" {
          var parsed := parse(args[i + 1]);
          if parsed.None? {
            return false;
          }
          port := parsed.value;
        } else if args[i] == "--key" {
          key := args[i + 1];
        }
        i := i + 1;
      }
      connectedClients := map[];
      started := true;
    }

    /** Sends to the peer of a connected client; an id missing from the table sends nothing. */
    method SendData(clientId: int, m: Message)
      modifies this`outbox
      ensures outbox == old(outbox) + Delivered(connectedClients.Keys, [Send(clientId, m)])
      ensures clientId !in connectedClients ==> outbox == old(outbox)
    {
      DeliveredSnoc(connectedClients.Keys, [], Send(clientId, m));
      assert [] + [Send(clientId, m)] == [Send(clientId, m)];
      if clientId in connectedClients {
        outbox := outbox + [Send(clientId, m)];
      }
    }

    /** Registers the client id of a new peer unless the id is already taken (the existing entry
        is kept) and tells the peer its id, whether or not it was registered. */
    method OnPeerConnected(peerId: int)
      modifies this`connectedClients, this`outbox
      ensures var clientId := Peer2ClientId(peerId);
        && connectedClients == (if clientId in old(connectedClients) then old(connectedClients)
                                else old(connectedClients)[clientId := peerId])
        && outbox == old(outbox) + [Send(clientId, OnConnectedServerMessage(clientId))]
    {
      var clientId := Peer2ClientId(peerId);
      if clientId !in connectedClients {
        connectedClients := connectedClients[clientId := peerId];
      }
      outbox := outbox + [Send(clientId, OnConnectedServerMessage(clientId))];
    }

    /** Forgets the peer's client id; the disconnect handlers run after this. */
    method OnPeerDisconnected(peerId: int)
      modifies this`connectedClients
      ensures connectedClients == old(connectedClients) - {Peer2ClientId(peerId)}
      ensures Peer2ClientId(peerId) !in connectedClients
    {
      var clientId := Peer2ClientId(peerId);
      if clientId in connectedClients {
        connectedClients := connectedClients - {clientId};
      }
    }
  }
}
