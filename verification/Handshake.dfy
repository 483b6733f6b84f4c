/**
 The client and the server of this program connected to each other: bytes arrive in pieces of
 any size, in any order of the two directions.
 */
module Handshake {
  import opened Bytes
  import opened Socks5

  /** One attempt to connect through the proxy, and the bytes each end pipes afterwards. */
  datatype Setup = Setup(text: IpText, host: Host, port: nat, dialOk: bool, up: seq<byte>, down: seq<byte>) {
    ghost predicate Encodable() {
      port < 0x10000 && HostBytes(text, host).Some?
    }
  }

  /** What each end has received. */
  datatype Net = Net(atServer: seq<byte>, atClient: seq<byte>)

  /** All that the client has written, having received y. */
  function ClientSent(c: Setup, y: seq<byte>): seq<byte>
    requires c.port < 0x10000
  {
    var v := ClientView(c.text, c.host, c.port, y);
    v.out + if v.ClientDone? then c.up else []
  }

  /** All that the server has written, having received x. */
  function ServerSent(c: Setup, x: seq<byte>): seq<byte> {
    var v := ServerView(c.text, x);
    if v.ServerDials? then
      v.out + if c.dialOk then ReplyBytes(SUCCEEDED) + c.down else ReplyBytes(5)
    else v.out
  }

  /** n more bytes arrive at one of the two ends. */
  datatype Delivery = ToServer(n: nat) | ToClient(n: nat)

  function Deliver(c: Setup, s: Net, d: Delivery): Option<Net>
    requires c.port < 0x10000
  {
    match d
    case ToServer(n) =>
      if 0 < n && |s.atServer| + n <= |ClientSent(c, s.atClient)|
      then Some(s.(atServer := ClientSent(c, s.atClient)[..|s.atServer| + n])) else None
    case ToClient(n) =>
      if 0 < n && |s.atClient| + n <= |ServerSent(c, s.atServer)|
      then Some(s.(atClient := ServerSent(c, s.atServer)[..|s.atClient| + n])) else None
  }

  function DeliverAll(c: Setup, s: Net, ds: seq<Delivery>): Option<Net>
    requires c.port < 0x10000
    decreases |ds|
  {
    if ds == [] then Some(s)
    else
      var next := Deliver(c, s, ds[0]);
      if next.None? then None else DeliverAll(c, next.value, ds[1..])
  }

  /** Nothing is on the way in either direction. */
  predicate Quiescent(c: Setup, s: Net)
    requires c.port < 0x10000
  {
    s.atServer == ClientSent(c, s.atClient) && s.atClient == ServerSent(c, s.atServer)
  }

  // ---- the outcome ----

  function Request(c: Setup): seq<byte>
    requires c.port < 0x10000 && HostBytes(c.text, c.host).Some?
  {
    RequestBytes(c.text, CONNECT, c.host, c.port).value
  }

  function FinalAtServer(c: Setup): seq<byte>
    requires c.port < 0x10000 && HostBytes(c.text, c.host).Some?
  {
    Greeting + Request(c) + if c.dialOk then c.up else []
  }

  function FinalAtClient(c: Setup): seq<byte> {
    Welcome + if c.dialOk then ReplyBytes(SUCCEEDED) + c.down else ReplyBytes(5)
  }

  // ---- the server on what this client sends ----

  lemma ServerAfterGreeting(text: IpText, x: seq<byte>)
    ensures ServerView(text, Greeting + x) == ReadRequest(text, x)
  {
    assert (Greeting + x)[3..] == x;
  }

  lemma RequestLayout(c: Setup, z: seq<byte>)
    requires c.Encodable()
    ensures var h, input := HostBytes(c.text, c.host).value, Request(c) + z;
            && 4 <= |input| && input[0] == VERSION && input[1] == CONNECT && input[3] == h[0]
            && input[4..] == h[1..] + (PutUint16(c.port) + z)
  {
    var h := HostBytes(c.text, c.host).value;
    assert h == [h[0]] + h[1..];
    assert Request(c) + z == [VERSION, CONNECT, 0, h[0]] + (h[1..] + (PutUint16(c.port) + z));
  }

  lemma ServerOnRequest(c: Setup, z: seq<byte>)
    requires c.Encodable()
    ensures ServerView(c.text, Greeting + Request(c) + z) ==
            ServerDials(Welcome, Canonical(c.text, c.host), c.port, z)
  {
    var port := PutUint16(c.port);
    assert Greeting + Request(c) + z == Greeting + (Request(c) + z);
    ServerAfterGreeting(c.text, Request(c) + z);
    RequestLayout(c, z);
    ReadAddressOfHost(c.text, c.host, port + z);
    assert (port + z)[..2] == port && (port + z)[2..] == z;
  }

  lemma ServerOnPartOfRequest(c: Setup, k: nat)
    requires c.Encodable() && k < |Request(c)|
    ensures ServerView(c.text, Greeting + Request(c)[..k]).ServerWaits?
    ensures ServerView(c.text, Greeting + Request(c)[..k]).out == Welcome
  {
    var h, port := HostBytes(c.text, c.host).value, PutUint16(c.port);
    var input := Request(c)[..k];
    ServerAfterGreeting(c.text, input);
    if 4 <= k {
      assert input[3] == h[0];
      if k < 3 + |h| {
        assert input[4..] == h[1..1 + (k - 4)];
        ReadAddressOfPrefix(c.text, c.host, k - 4);
      } else {
        assert input[4..] == h[1..] + port[..k - 3 - |h|];
        ReadAddressOfHost(c.text, c.host, port[..k - 3 - |h|]);
      }
    }
  }

  // ---- the client on what this server sends ----

  lemma ClientOnSuccess(c: Setup, z: seq<byte>)
    requires c.Encodable()
    ensures ClientView(c.text, c.host, c.port, Welcome + ReplyBytes(SUCCEEDED) + z) ==
            ClientDone(Greeting + Request(c), c.text.format(V4([0, 0, 0, 0])), 0, z)
  {
    var y := Welcome + ReplyBytes(SUCCEEDED) + z;
    var reply := y[2..];
    assert reply == ReplyBytes(SUCCEEDED) + z;
    assert reply[4..][..4] == [0, 0, 0, 0] && reply[4..][4..] == [0, 0] + z;
    assert ([0, 0] + z)[..2] == [0, 0] && ([0, 0] + z)[2..] == z;
  }

  lemma ClientOnPart(c: Setup, y: seq<byte>)
    requires c.Encodable() && 2 <= |y| < 12 && y <= Welcome + ReplyBytes(SUCCEEDED)
    ensures ClientView(c.text, c.host, c.port, y) == ClientWaits(Greeting + Request(c))
  {
    assert y[0] == VERSION && y[1] == NO_AUTH;
    var reply := y[2..];
    if 4 <= |reply| {
      assert reply[0] == VERSION && reply[1] == SUCCEEDED && reply[3] == ATYP_IPV4;
    }
  }

  /** A refusal with any code: the client never gets to pipe. */
  lemma ClientOnRefusal(c: Setup, code: byte, y: seq<byte>)
    requires c.Encodable() && code != 0 && 2 <= |y| && y <= Welcome + ReplyBytes(code)
    ensures var v := ClientView(c.text, c.host, c.port, y);
            v.out == Greeting + Request(c) && !v.ClientDone? && (|y| == 12 ==> v.ClientFails?)
  {
    assert y[0] == VERSION && y[1] == NO_AUTH;
    var reply := y[2..];
    if 4 <= |reply| {
      assert reply[0] == VERSION && reply[1] == code;
    }
  }

  // ---- what each end has written depends only on how much it has received ----

  function ClientSentLength(c: Setup, n: nat): nat
    requires c.port < 0x10000 && HostBytes(c.text, c.host).Some?
  {
    if n < 2 then 3 else if n < 12 then 3 + |Request(c)| else |FinalAtServer(c)|
  }

  function ServerSentLength(c: Setup, n: nat): nat
    requires c.port < 0x10000 && HostBytes(c.text, c.host).Some?
  {
    if n < 3 then 0 else if n < 3 + |Request(c)| then 2 else |FinalAtClient(c)|
  }

  lemma ClientSentIs(c: Setup, y: seq<byte>)
    requires c.Encodable() && y <= FinalAtClient(c)
    ensures ClientSentLength(c, |y|) <= |FinalAtServer(c)|
    ensures ClientSent(c, y) == FinalAtServer(c)[..ClientSentLength(c, |y|)]
  {
    var sent := Greeting + Request(c);
    assert FinalAtServer(c)[..|sent|] == sent && sent[..3] == Greeting;
    if |y| < 2 {
      assert FinalAtServer(c)[..3] == sent[..3];
    } else if !c.dialOk {
      assert FinalAtServer(c) == sent;
      ClientOnRefusal(c, 5, y);
    } else if |y| < 12 {
      assert y <= Welcome + ReplyBytes(SUCCEEDED);
      ClientOnPart(c, y);
    } else {
      var head := Welcome + ReplyBytes(SUCCEEDED);
      assert FinalAtClient(c) == head + c.down;
      assert y == head + y[12..];
      ClientOnSuccess(c, y[12..]);
      assert FinalAtServer(c) == sent + c.up;
    }
  }

  lemma ServerSentIs(c: Setup, x: seq<byte>)
    requires c.Encodable() && x <= FinalAtServer(c)
    ensures ServerSentLength(c, |x|) <= |FinalAtClient(c)|
    ensures ServerSent(c, x) == FinalAtClient(c)[..ServerSentLength(c, |x|)]
  {
    var sent := Greeting + Request(c);
    if |x| < 3 {
      assert 0 < |x| ==> x[0] == VERSION;
      assert 1 < |x| ==> x[1] == 1;
    } else if |x| < |sent| {
      assert x == Greeting + Request(c)[..|x| - 3];
      ServerOnPartOfRequest(c, |x| - 3);
      assert FinalAtClient(c)[..2] == Welcome;
    } else {
      assert x == sent + x[|sent|..];
      ServerOnRequest(c, x[|sent|..]);
    }
  }

  // ---- every run ----

  /** Both ends have received a beginning of what they will have received, and no more than was sent. */
  ghost predicate OnTrack(c: Setup, s: Net)
    requires c.Encodable()
  {
    && s.atServer <= FinalAtServer(c) && |s.atServer| <= ClientSentLength(c, |s.atClient|)
    && s.atClient <= FinalAtClient(c) && |s.atClient| <= ServerSentLength(c, |s.atServer|)
  }

  lemma DeliverStaysOnTrack(c: Setup, s: Net, d: Delivery)
    requires c.Encodable() && OnTrack(c, s) && Deliver(c, s, d).Some?
    ensures var s' := Deliver(c, s, d).value;
            OnTrack(c, s') && |s.atServer| + |s.atClient| < |s'.atServer| + |s'.atClient|
  {
    ClientSentIs(c, s.atClient);
    ServerSentIs(c, s.atServer);
  }

  lemma {:induction false} RunStaysOnTrack(c: Setup, s: Net, ds: seq<Delivery>)
    requires c.Encodable() && OnTrack(c, s) && DeliverAll(c, s, ds).Some?
    ensures var s' := DeliverAll(c, s, ds).value;
            OnTrack(c, s') && |ds| + |s.atServer| + |s.atClient| <= |s'.atServer| + |s'.atClient|
    decreases |ds|
  {
    if ds != [] {
      DeliverStaysOnTrack(c, s, ds[0]);
      RunStaysOnTrack(c, Deliver(c, s, ds[0]).value, ds[1..]);
    }
  }

  /** There is one way to come to rest, and short of it some byte can still arrive. */
  lemma RestIsFinal(c: Setup, s: Net)
    requires c.Encodable() && OnTrack(c, s)
    ensures Quiescent(c, s) <==> s == Net(FinalAtServer(c), FinalAtClient(c))
    ensures !Quiescent(c, s) ==> Deliver(c, s, ToServer(1)).Some? || Deliver(c, s, ToClient(1)).Some?
  {
    ClientSentIs(c, s.atClient);
    ServerSentIs(c, s.atServer);
    var x, y := FinalAtServer(c), FinalAtClient(c);
    assert x[..|x|] == x && y[..|y|] == y;
    if |s.atServer| == ClientSentLength(c, |s.atClient|) && |s.atClient| == ServerSentLength(c, |s.atServer|) {
      assert |s.atServer| == |x| && |s.atClient| == |y|;
    }
  }

  /**
   The two ends composed. Whatever the segmentation, a run of deliveries is no longer than the
   bytes to be delivered; until it has come to rest it can go on; and at rest the server has
   dialled the client's canonical host and port, the client has succeeded exactly if that dial
   did, and both ends are left with exactly the bytes that the other one piped.
   */
  lemma HandshakeComposes(c: Setup, ds: seq<Delivery>)
    requires c.Encodable() && DeliverAll(c, Net([], []), ds).Some?
    ensures |ds| <= |FinalAtServer(c)| + |FinalAtClient(c)|
    ensures var s := DeliverAll(c, Net([], []), ds).value;
            var client := ClientView(c.text, c.host, c.port, s.atClient);
            if Quiescent(c, s) then
              && ServerView(c.text, s.atServer) ==
                   ServerDials(Welcome, Canonical(c.text, c.host), c.port, if c.dialOk then c.up else [])
              && (if c.dialOk then client.ClientDone? && client.rest == c.down else client.ClientFails?)
            else
              Deliver(c, s, ToServer(1)).Some? || Deliver(c, s, ToClient(1)).Some?
  {
    RunStaysOnTrack(c, Net([], []), ds);
    var s := DeliverAll(c, Net([], []), ds).value;
    RestIsFinal(c, s);
    ServerOnRequest(c, if c.dialOk then c.up else []);
    ClientAtRest(c);
  }

  lemma ClientAtRest(c: Setup)
    requires c.Encodable()
    ensures var client := ClientView(c.text, c.host, c.port, FinalAtClient(c));
            if c.dialOk then client.ClientDone? && client.rest == c.down else client.ClientFails?
  {
    if c.dialOk {
      ClientOnSuccess(c, c.down);
      assert FinalAtClient(c) == Welcome + ReplyBytes(SUCCEEDED) + c.down;
    } else {
      ClientOnRefusal(c, 5, FinalAtClient(c));
    }
  }
}
