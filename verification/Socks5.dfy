/**
 SOCKS5 (RFC 1928): the messages of both ends, as functions of the bytes received so far.

 IP text is not modelled: an IpText is any pair of a literal parser and a printer.
 */
module Socks5 {
  import opened Bytes

  type Bytes4 = s: seq<byte> | |s| == 4 witness [0, 0, 0, 0]
  type Bytes16 = s: seq<byte> | |s| == 16 witness seq(16, _ => 0)

  datatype Ip = V4(a4: Bytes4) | V6(a16: Bytes16)

  /** A host as the program passes it around: the bytes of a Go string. */
  type Host = seq<byte>

  datatype IpText = IpText(parse: Host -> Option<Ip>, format: Ip -> Host)

  const VERSION: byte := 5
  const NO_AUTH: byte := 0
  const CONNECT: byte := 1
  const ATYP_IPV4: byte := 1
  const ATYP_DOMAIN: byte := 3
  const ATYP_IPV6: byte := 4
  const SUCCEEDED: byte := 0

  /** The text of the address that a host stands for: literals are normalised, names are kept. */
  function Canonical(text: IpText, host: Host): Host {
    match text.parse(host)
    case Some(ip) => text.format(ip)
    case None => host
  }

  // ---- addresses: section 5 of RFC 1928 ----

  function IpBytes(ip: Ip): (s: seq<byte>)
    ensures 5 <= |s| <= 17
  {
    match ip
    case V4(a) => [ATYP_IPV4] + a
    case V6(a) => [ATYP_IPV6] + a
  }

  /** ATYP and address; None for a name that is too long. */
  function HostBytes(text: IpText, host: Host): (r: Option<seq<byte>>)
    ensures r.Some? ==> 0 < |r.value|
  {
    match text.parse(host)
    case Some(ip) => Some(IpBytes(ip))
    case None => if |host| > 255 then None else Some([ATYP_DOMAIN, |host|] + host)
  }

  datatype Address = Short | Unsupported | Address(host: Host, rest: seq<byte>)

  /** readSocks5Addr, and the address part of socks5ReadReply. */
  function ReadAddress(text: IpText, atyp: byte, input: seq<byte>): Address {
    if atyp == ATYP_IPV4 then
      if |input| < 4 then Short else Address(text.format(V4(input[..4])), input[4..])
    else if atyp == ATYP_IPV6 then
      if |input| < 16 then Short else Address(text.format(V6(input[..16])), input[16..])
    else if atyp == ATYP_DOMAIN then
      if |input| < 1 then Short
      else
        var n: int := input[0];
        if |input| < 1 + n then Short else Address(input[1..1 + n], input[1 + n..])
    else Unsupported
  }

  /** Reading what was written gives the canonical host and leaves what follows. */
  lemma ReadAddressOfHost(text: IpText, host: Host, z: seq<byte>)
    requires HostBytes(text, host).Some?
    ensures var h := HostBytes(text, host).value;
            ReadAddress(text, h[0], h[1..] + z) == Address(Canonical(text, host), z)
  {
    var h := HostBytes(text, host).value;
    match text.parse(host)
    case Some(V4(a)) => assert h[1..] == a && (a + z)[..4] == a && (a + z)[4..] == z;
    case Some(V6(a)) => assert h[1..] == a && (a + z)[..16] == a && (a + z)[16..] == z;
    case None =>
      var n: byte := |host|;
      assert h[1..] + z == [n] + host + z;
      assert ([n] + host + z)[1..1 + |host|] == host;
      assert ([n] + host + z)[1 + |host|..] == z;
  }

  lemma ReadAddressOfPrefix(text: IpText, host: Host, k: nat)
    requires HostBytes(text, host).Some? && 1 + k < |HostBytes(text, host).value|
    ensures var h := HostBytes(text, host).value;
            ReadAddress(text, h[0], h[1..1 + k]) == Short
  {
    var h := HostBytes(text, host).value;
    match text.parse(host)
    case Some(V4(a)) =>
    case Some(V6(a)) =>
    case None =>
      var n: byte := |host|;
      if 0 < k {
        assert h[1..1 + k][0] == n;
      }
  }

  // ---- the client ----

  const Greeting: seq<byte> := [VERSION, 1, NO_AUTH]

  function RequestBytes(text: IpText, cmd: byte, host: Host, port: nat): Option<seq<byte>>
    requires port < 0x10000
  {
    match HostBytes(text, host)
    case None => None
    case Some(h) => Some([VERSION, cmd, 0] + h + PutUint16(port))
  }

  datatype Client =
    | ClientWaits(out: seq<byte>)
    | ClientFails(out: seq<byte>)
    | ClientDone(out: seq<byte>, host: Host, port: nat, rest: seq<byte>)

  datatype Reply = ReplyWaits | ReplyBad | Reply(host: Host, port: nat, rest: seq<byte>)

  /** socks5ReadReply */
  function ReadReply(text: IpText, input: seq<byte>): Reply {
    if |input| < 4 then ReplyWaits
    else if input[0] != VERSION || input[1] != SUCCEEDED then ReplyBad
    else
      match ReadAddress(text, input[3], input[4..])
      case Short => ReplyWaits
      case Unsupported => ReplyBad
      case Address(host, rest) => if |rest| < 2 then ReplyWaits else Reply(host, Uint16(rest[..2]), rest[2..])
  }

  /** The handshake part of DialContext: what it has written, and how far it has come. */
  function ClientView(text: IpText, host: Host, port: nat, input: seq<byte>): Client
    requires port < 0x10000
  {
    if |input| < 2 then ClientWaits(Greeting)
    else if input[0] != VERSION || input[1] != NO_AUTH then ClientFails(Greeting)
    else
      match RequestBytes(text, CONNECT, host, port)
      case None => ClientFails(Greeting)
      case Some(req) =>
        match ReadReply(text, input[2..])
        case ReplyWaits => ClientWaits(Greeting + req)
        case ReplyBad => ClientFails(Greeting + req)
        case Reply(h, p, rest) => ClientDone(Greeting + req, h, p, rest)
  }

  // ---- the server ----

  const Welcome: seq<byte> := [VERSION, NO_AUTH]

  /** writeSocks5Reply */
  function ReplyBytes(code: byte): seq<byte> {
    [VERSION, code, 0, ATYP_IPV4, 0, 0, 0, 0, 0, 0]
  }

  /**
   handleProxyConn up to its dial. While it waits, atEof is what it will have written if no
   more bytes come.
   */
  datatype Server =
    | ServerWaits(out: seq<byte>, atEof: seq<byte>)
    | ServerHangsUp(out: seq<byte>)
    | ServerDials(out: seq<byte>, host: Host, port: nat, rest: seq<byte>)

  function ReadRequest(text: IpText, input: seq<byte>): Server {
    if |input| < 4 then ServerWaits(Welcome, Welcome)
    else if input[0] != VERSION || input[1] != CONNECT then ServerHangsUp(Welcome + ReplyBytes(7))
    else
      match ReadAddress(text, input[3], input[4..])
      case Short => ServerWaits(Welcome, Welcome + ReplyBytes(1))
      case Unsupported => ServerHangsUp(Welcome + ReplyBytes(1))
      case Address(host, rest) =>
        if |rest| < 2 then ServerWaits(Welcome, Welcome)
        else ServerDials(Welcome, host, Uint16(rest[..2]), rest[2..])
  }

  function ServerView(text: IpText, input: seq<byte>): Server {
    if |input| < 2 then ServerWaits([], [])
    else if input[0] != VERSION then ServerHangsUp([])
    else
      var n: int := input[1];
      if |input| < 2 + n then ServerWaits([], []) else ReadRequest(text, input[2 + n..])
  }
}
