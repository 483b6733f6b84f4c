/** The SOCKS5 UDP relay header (section 7 of RFC 1928) and the session that writes and reads it. */
module Socks5Udp {
  import opened Bytes
  import opened Socks5

  /** The size of the session's scratch buffer. */
  const SCRATCH: nat := 65535 + 22

  // ---- writing ----

  /** RSV, RSV, FRAG, address, port, payload; None for a name that is too long. */
  function Wrap(text: IpText, host: Host, port: nat, p: seq<byte>): Option<seq<byte>>
    requires port < 0x10000
  {
    match HostBytes(text, host)
    case None => None
    case Some(h) => Some([0, 0, 0] + h + PutUint16(port) + p)
  }

  /** The datagram in bytes: an address for a literal, and a name of at most 255 bytes otherwise. */
  lemma WrapInBytes(text: IpText, host: Host, port: nat, p: seq<byte>)
    requires port < 0x10000
    ensures var w, pp: seq<byte> := Wrap(text, host, port, p), [port / 256, port % 256];
            match text.parse(host)
            case Some(V4(a)) => w == Some([0, 0, 0, 1] + a + pp + p)
            case Some(V6(a)) => w == Some([0, 0, 0, 4] + a + pp + p)
            case None => w == if |host| <= 255 then Some([0, 0, 0, 3, |host|] + host + pp + p) else None
  {
    var pp: seq<byte> := [port / 256, port % 256];
    match text.parse(host)
    case Some(V4(a)) => assert [0, 0, 0] + ([1] + a) + pp == [0, 0, 0, 1] + a + pp;
    case Some(V6(a)) => assert [0, 0, 0] + ([4] + a) + pp == [0, 0, 0, 4] + a + pp;
    case None =>
      if |host| <= 255 {
        assert [0, 0, 0] + ([3, |host|] + host) + pp == [0, 0, 0, 3, |host|] + host + pp;
      }
  }

  // ---- reading ----

  datatype UdpError = ReadFailed | ShortHeader | Fragmented | ShortAddress | NotAnAddress | UnknownAtyp | ShortBuffer

  datatype Unwrapped = From(ip: Ip, port: nat, payload: seq<byte>) | Rejected(e: UdpError)

  function AfterAddress(ip: Ip, d: seq<byte>, off: nat): Unwrapped
    requires off + 2 <= |d|
  {
    From(ip, Uint16(d[off..off + 2]), d[off + 2..])
  }

  /** ReadFrom as a parser of one datagram. */
  function Unwrap(text: IpText, d: seq<byte>): Unwrapped {
    if |d| < 4 then Rejected(ShortHeader)
    else if d[2] != 0 then Rejected(Fragmented)
    else if d[3] == ATYP_IPV4 then
      if |d| < 10 then Rejected(ShortAddress) else AfterAddress(V4(d[4..8]), d, 8)
    else if d[3] == ATYP_IPV6 then
      if |d| < 22 then Rejected(ShortAddress) else AfterAddress(V6(d[4..20]), d, 20)
    else if d[3] == ATYP_DOMAIN then
      if |d| < 5 then Rejected(ShortAddress)
      else
        var l: int := d[4];
        if |d| < 5 + l + 2 then Rejected(ShortAddress)
        else
          match text.parse(d[5..5 + l])
          case None => Rejected(NotAnAddress)
          case Some(ip) => AfterAddress(ip, d, 5 + l)
    else Rejected(UnknownAtyp)
  }

  /** What one read of the relay socket puts into the scratch buffer. */
  function Truncated(d: seq<byte>): seq<byte> {
    d[..Min(|d|, SCRATCH)]
  }

  /** What ReadFrom returns for datagram d and a caller's buffer of the given size. */
  function ReadResult(text: IpText, d: seq<byte>, room: nat): Unwrapped {
    var u := Unwrap(text, Truncated(d));
    if u.From? && |u.payload| > room then Rejected(ShortBuffer) else u
  }

  // ---- the session ----

  datatype WriteAnswer = Wrote(n: nat) | WriteFailed

  datatype WriteResult = Written(n: nat) | NameTooLong | ShortWrite | NetworkError

  class Socks5UDPSession {
    const readBuf: array<byte>

    /** How often the session's two connections have been closed. */
    var closes: nat

    constructor ()
      ensures readBuf.Length == SCRATCH && fresh(readBuf) && closes == 0
    {
      readBuf := new byte[SCRATCH];
      closes := 0;
    }

    method Close()
      modifies this
      ensures closes == old(closes) + 1
    {
      closes := closes + 1;
    }

    /** Read: the datagram, cut to the buffer, overwrites its beginning; the rest stays as it was. */
    method ReadSocket(d: seq<byte>) returns (n: nat)
      requires readBuf.Length == SCRATCH
      modifies readBuf
      ensures n == Min(|d|, SCRATCH) && readBuf[..n] == Truncated(d)
    {
      n := Min(|d|, SCRATCH);
      forall i | 0 <= i < n {
        readBuf[i] := d[i];
      }
    }

    /** A part of readBuf, taken from its first n bytes. */
    lemma PartOf(n: nat, i: nat, j: nat)
      requires i <= j <= n <= readBuf.Length
      ensures readBuf[i..j] == readBuf[..n][i..j] && |readBuf[i..j]| == j - i
    {
    }

    /** The header in readBuf[..n]: the address and the offset of the port. */
    method ParseHeader(text: IpText, n: nat) returns (r: Unwrapped, off: nat)
      requires readBuf.Length == SCRATCH && n <= SCRATCH
      ensures r.Rejected? <==> Unwrap(text, readBuf[..n]).Rejected?
      ensures r.Rejected? ==> r == Unwrap(text, readBuf[..n])
      ensures r.From? ==> off + 2 <= n && Unwrap(text, readBuf[..n]) == AfterAddress(r.ip, readBuf[..n], off)
    {
      off := 0;
      if n < 4 {
        return Rejected(ShortHeader), 0;
      }
      if readBuf[2] != 0 {
        return Rejected(Fragmented), 0;
      }
      off := 4;
      if readBuf[3] == ATYP_IPV4 {
        if n < off + 4 + 2 {
          return Rejected(ShortAddress), 0;
        }
        var b := readBuf[off..off + 4];
        PartOf(n, 4, 8);
        return From(V4(b), 0, []), off + 4;
      } else if readBuf[3] == ATYP_IPV6 {
        if n < off + 16 + 2 {
          return Rejected(ShortAddress), 0;
        }
        var b := readBuf[off..off + 16];
        PartOf(n, 4, 20);
        return From(V6(b), 0, []), off + 16;
      } else if readBuf[3] == ATYP_DOMAIN {
        if n < off + 1 {
          return Rejected(ShortAddress), 0;
        }
        var l: int := readBuf[off];
        off := off + 1;
        if n < off + l + 2 {
          return Rejected(ShortAddress), 0;
        }
        var host := readBuf[off..off + l];
        PartOf(n, 5, 5 + l);
        off := off + l;
        match text.parse(host) {
          case None => return Rejected(NotAnAddress), 0;
          case Some(ip) => return From(ip, 0, []), off;
        }
      } else {
        return Rejected(UnknownAtyp), 0;
      }
    }

    /**
     One datagram through the reused buffer. The result depends on this datagram alone, the
     caller gets exactly its payload, and after any error the caller's buffer is as before.
     */
    method ReadFrom(text: IpText, incoming: Option<seq<byte>>, buf: array<byte>) returns (r: Unwrapped)
      requires readBuf.Length == SCRATCH && buf != readBuf
      modifies readBuf, buf
      ensures r == match incoming case None => Rejected(ReadFailed) case Some(d) => ReadResult(text, d, buf.Length)
      ensures r.Rejected? ==> buf[..] == old(buf[..])
      ensures r.From? ==> |r.payload| <= buf.Length && buf[..] == r.payload + old(buf[..])[|r.payload|..]
    {
      if incoming.None? {
        return Rejected(ReadFailed);
      }
      var n := ReadSocket(incoming.value);
      var head, off := ParseHeader(text, n);
      if head.Rejected? {
        return head;
      }
      assert readBuf[off..off + 2] == readBuf[..n][off..off + 2];
      var port := Uint16(readBuf[off..off + 2]);
      off := off + 2;
      var payload := readBuf[off..n];
      assert payload == readBuf[..n][off..];
      if |payload| > buf.Length {
        return Rejected(ShortBuffer);
      }
      forall i | 0 <= i < |payload| {
        buf[i] := payload[i];
      }
      return From(head.ip, port, payload);
    }

    /** The datagram handed to the socket is the wrapped payload, and success means all of it went. */
    method WriteToHost(text: IpText, p: seq<byte>, host: Host, port: nat, answer: WriteAnswer)
      returns (r: WriteResult, packet: Option<seq<byte>>)
      requires port < 0x10000
      ensures packet == Wrap(text, host, port, p)
      ensures r.NameTooLong? <==> packet.None?
      ensures r.Written? <==> packet.Some? && answer.Wrote? && |packet.value| <= answer.n
      ensures r.Written? ==> r.n == |p|
    {
      var hdr: seq<byte> := [0, 0, 0];
      match text.parse(host) {
        case Some(V4(a)) =>
          hdr := hdr + [ATYP_IPV4];
          hdr := hdr + a;
        case Some(V6(a)) =>
          hdr := hdr + [ATYP_IPV6];
          hdr := hdr + a;
        case None =>
          if |host| > 255 {
            return NameTooLong, None;
          }
          hdr := hdr + [ATYP_DOMAIN, |host|];
          hdr := hdr + host;
      }
      assert HostBytes(text, host).Some? && hdr == [0, 0, 0] + HostBytes(text, host).value;
      hdr := hdr + PutUint16(port);
      hdr := hdr + p;
      packet := Some(hdr);
      if answer.WriteFailed? {
        return NetworkError, packet;
      }
      if answer.n < |hdr| {
        return ShortWrite, packet;
      }
      return Written(|p|), packet;
    }
  }

  // ---- the two together ----

  /** What a header for ip and port is, whatever text named it. */
  function Header(ip: Ip, port: nat): seq<byte>
    requires port < 0x10000
  {
    [0, 0, 0] + IpBytes(ip) + PutUint16(port)
  }

  lemma UnwrapHeader(text: IpText, ip: Ip, port: nat, p: seq<byte>)
    requires port < 0x10000
    ensures Unwrap(text, Header(ip, port) + p) == From(ip, port, p)
  {
    var d, pp := Header(ip, port) + p, PutUint16(port);
    match ip
    case V4(a) => assert d[4..8] == a && d[8..10] == pp && d[10..] == p;
    case V6(a) => assert d[4..20] == a && d[20..22] == pp && d[22..] == p;
  }

  /**
   Round trip: a payload of any size UDP allows, to any IP literal, fits the scratch buffer and
   comes back with its address and port if the caller has room for it.
   */
  lemma ReadUndoesWrite(text: IpText, host: Host, port: nat, p: seq<byte>, room: nat)
    requires text.parse(host).Some? && port < 0x10000 && |p| <= 65535 && |p| <= room
    ensures Wrap(text, host, port, p).Some? && |Wrap(text, host, port, p).value| <= SCRATCH
    ensures ReadResult(text, Wrap(text, host, port, p).value, room) == From(text.parse(host).value, port, p)
  {
    var ip := text.parse(host).value;
    assert Wrap(text, host, port, p) == Some(Header(ip, port) + p);
    UnwrapHeader(text, ip, port, p);
    assert Truncated(Header(ip, port) + p) == Header(ip, port) + p;
  }

  /** The scratch buffer is no larger than it must be. */
  lemma ScratchIsTight(text: IpText, host: Host, port: nat, p: seq<byte>)
    requires text.parse(host).Some? && text.parse(host).value.V6? && port < 0x10000 && |p| == 65535
    ensures |Wrap(text, host, port, p).value| == SCRATCH
  {
  }

  /** A datagram written to a name is always refused on reading, cut short or not. */
  lemma NamesAreRejected(text: IpText, host: Host, port: nat, p: seq<byte>, room: nat)
    requires text.parse(host).None? && |host| <= 255 && port < 0x10000
    ensures ReadResult(text, Wrap(text, host, port, p).value, room) == Rejected(NotAnAddress)
  {
    var d := Wrap(text, host, port, p).value;
    var t := Truncated(d);
    assert |d| == 7 + |host| + |p| && 7 + |host| <= |t|;
    assert d[5..5 + |host|] == host;
    assert t[5..5 + |host|] == d[5..5 + |host|];
  }

  // ---- exactly which datagrams are accepted ----

  /** d is a relay datagram from ip and port, named by address or by a literal in domain form. */
  ghost predicate Encodes(text: IpText, d: seq<byte>, ip: Ip, port: nat, p: seq<byte>)
    requires port < 0x10000
  {
    2 <= |d| && (d[2..] == [0] + IpBytes(ip) + PutUint16(port) + p
                 || exists host: Host :: EncodesLiteral(text, d, host, ip, port, p))
  }

  ghost predicate EncodesLiteral(text: IpText, d: seq<byte>, host: Host, ip: Ip, port: nat, p: seq<byte>)
    requires port < 0x10000 && 2 <= |d|
  {
    && |host| <= 255 && text.parse(host) == Some(ip)
    && d[2..] == [0, ATYP_DOMAIN, |host|] + host + PutUint16(port) + p
  }

  lemma AddressIsAccepted(text: IpText, d: seq<byte>, ip: Ip, port: nat, p: seq<byte>)
    requires port < 0x10000 && 2 <= |d| && d[2..] == [0] + IpBytes(ip) + PutUint16(port) + p
    ensures Unwrap(text, d) == From(ip, port, p)
  {
    TypeFirst(ip, PutUint16(port), p);
    match ip
    case V4(a) => TailSlices(d, 1, a, PutUint16(port), p);
    case V6(a) => TailSlices(d, 4, a, PutUint16(port), p);
    UnwrapOfSlices(text, d, ip, PutUint16(port), p);
  }

  lemma TypeFirst(ip: Ip, pp: seq<byte>, p: seq<byte>)
    ensures [0] + IpBytes(ip) + pp + p ==
            match ip case V4(a) => [0, 1] + a + pp + p case V6(a) => [0, 4] + a + pp + p
  {
    match ip
    case V4(a) => assert [0] + ([1] + a) == [0, 1] + a;
    case V6(a) => assert [0] + ([4] + a) == [0, 4] + a;
  }

  lemma UnwrapOfSlices(text: IpText, d: seq<byte>, ip: Ip, pp: seq<byte>, p: seq<byte>)
    requires 10 <= |d| && |pp| == 2 && d[2] == 0
    requires match ip
             case V4(a) => d[3] == 1 && d[4..8] == a && d[8..10] == pp && d[10..] == p
             case V6(a) => 22 <= |d| && d[3] == 4 && d[4..20] == a && d[20..22] == pp && d[22..] == p
    ensures Unwrap(text, d) == From(ip, Uint16(pp), p)
  {
  }

  /** The pieces of a datagram after its first two bytes, by their places. */
  lemma TailSlices(d: seq<byte>, t: byte, a: seq<byte>, pp: seq<byte>, p: seq<byte>)
    requires 2 <= |d| && d[2..] == [0, t] + a + pp + p
    ensures var i, j := 4 + |a|, 4 + |a| + |pp|;
            |d| == j + |p| && d[2] == 0 && d[3] == t && d[4..i] == a && d[i..j] == pp && d[j..] == p
  {
    var e, n, m := d[2..], 2 + |a|, 2 + |a| + |pp|;
    assert e[0] == 0 && e[1] == t;
    assert e[2..n] == a;
    assert e[n..m] == pp;
    assert e[m..] == p;
    assert d[4..4 + |a|] == e[2..n] && d[4 + |a|..4 + |a| + |pp|] == e[n..m] && d[4 + |a| + |pp|..] == e[m..];
  }

  lemma LiteralIsAccepted(text: IpText, d: seq<byte>, host: Host, ip: Ip, port: nat, p: seq<byte>)
    requires port < 0x10000 && 2 <= |d| && EncodesLiteral(text, d, host, ip, port, p)
    ensures Unwrap(text, d) == From(ip, port, p)
  {
    var e, pp, l := d[2..], PutUint16(port), |host|;
    assert d[2] == e[0] && d[3] == e[1] && d[4] == e[2];
    assert d[5..5 + l] == e[3..3 + l] == host;
    assert d[5 + l..7 + l] == e[3 + l..5 + l] == pp;
    assert d[7 + l..] == e[5 + l..] == p;
  }

  lemma AcceptedAddressIsEncoded(text: IpText, d: seq<byte>)
    requires Unwrap(text, d).From? && d[3] != ATYP_DOMAIN
    ensures var u := Unwrap(text, d);
            u.port < 0x10000 && d[2..] == [0] + IpBytes(u.ip) + PutUint16(u.port) + u.payload
  {
    if d[3] == ATYP_IPV4 {
      PutInvertsGet(d[8..10]);
      assert d[2..] == [0] + ([ATYP_IPV4] + d[4..8]) + d[8..10] + d[10..];
    } else {
      PutInvertsGet(d[20..22]);
      assert d[2..] == [0] + ([ATYP_IPV6] + d[4..20]) + d[20..22] + d[22..];
    }
  }

  lemma AcceptedLiteralIsEncoded(text: IpText, d: seq<byte>)
    requires Unwrap(text, d).From? && d[3] == ATYP_DOMAIN
    ensures var u, l := Unwrap(text, d), d[4] as int;
            && 7 + l <= |d| && u.port < 0x10000
            && EncodesLiteral(text, d, d[5..5 + l], u.ip, u.port, u.payload)
  {
    var l := d[4] as int;
    PutInvertsGet(d[5 + l..5 + l + 2]);
    assert d[2..5] == [0, ATYP_DOMAIN, l];
    assert d[2..] == d[2..5] + d[5..5 + l] + d[5 + l..5 + l + 2] + d[5 + l + 2..];
  }

  /** ReadFrom accepts exactly the datagrams of the relay format, and reads them as they were meant. */
  lemma AcceptsExactlyTheFormat(text: IpText, d: seq<byte>, ip: Ip, port: nat, p: seq<byte>)
    requires port < 0x10000
    ensures Unwrap(text, d) == From(ip, port, p) <==> Encodes(text, d, ip, port, p)
  {
    if Unwrap(text, d) == From(ip, port, p) {
      if d[3] == ATYP_DOMAIN {
        AcceptedLiteralIsEncoded(text, d);
      } else {
        AcceptedAddressIsEncoded(text, d);
      }
    }
    if Encodes(text, d, ip, port, p) {
      if d[2..] == [0] + IpBytes(ip) + PutUint16(port) + p {
        AddressIsAccepted(text, d, ip, port, p);
      } else {
        var host: Host :| EncodesLiteral(text, d, host, ip, port, p);
        LiteralIsAccepted(text, d, host, ip, port, p);
      }
    }
  }

  /**
   What ReadFrom returns, for every datagram and every room: the datagram as it was meant if its
   first 65557 bytes have the format and the payload has room, and otherwise the error.
   */
  lemma ReadsExactly(text: IpText, d: seq<byte>, room: nat, ip: Ip, port: nat, p: seq<byte>)
    requires port < 0x10000
    ensures var t := if |d| <= 65557 then d else d[..65557];
            && (ReadResult(text, d, room) == From(ip, port, p) <==> Encodes(text, t, ip, port, p) && |p| <= room)
            && (Encodes(text, t, ip, port, p) && |p| > room ==> ReadResult(text, d, room) == Rejected(ShortBuffer))
  {
    var t := if |d| <= 65557 then d else d[..65557];
    assert Truncated(d) == t;
    AcceptsExactlyTheFormat(text, t, ip, port, p);
  }

  /** The length that a datagram of a known address type needs up to its payload, as far as can be told. */
  function HeaderLength(d: seq<byte>): nat
    requires 4 <= |d|
  {
    if d[3] == 1 then 10 else if d[3] == 4 then 22 else if |d| < 5 then 5 else 7 + d[4] as int
  }

  /** Why a datagram is refused. */
  lemma RefusedBecause(text: IpText, d: seq<byte>)
    ensures var r := Unwrap(text, d);
            if |d| < 4 then r == Rejected(ShortHeader)
            else if d[2] != 0 then r == Rejected(Fragmented)
            else if d[3] != 1 && d[3] != 3 && d[3] != 4 then r == Rejected(UnknownAtyp)
            else if |d| < HeaderLength(d) then r == Rejected(ShortAddress)
            else if d[3] == 3 && text.parse(d[5..5 + d[4] as int]).None? then r == Rejected(NotAnAddress)
            else r.From?
  {
  }

  // ---- replying to the sender: Socks5Bind.receive, then Send ----

  datatype Endpoint = Endpoint(host: Host, port: nat)

  /** newSocks5EndpointFromAddrPort */
  function EndpointOf(text: IpText, ip: Ip, port: nat): Endpoint {
    Endpoint(text.format(ip), port)
  }

  /** Formatting and parsing an address gives it back. */
  ghost predicate RoundTrips(text: IpText) {
    forall ip: Ip :: text.parse(text.format(ip)) == Some(ip)
  }

  /** A reply carries the address and port that were received. */
  lemma ReplyGoesToSender(text: IpText, d: seq<byte>, q: seq<byte>)
    requires RoundTrips(text) && Unwrap(text, d).From?
    ensures var u := Unwrap(text, d);
            var ep := EndpointOf(text, u.ip, u.port);
            && u.port < 0x10000
            && Wrap(text, ep.host, ep.port, q) == Some(Header(u.ip, u.port) + q)
            && Unwrap(text, Header(u.ip, u.port) + q) == From(u.ip, u.port, q)
  {
    var u := Unwrap(text, d);
    UnwrapHeader(text, u.ip, u.port, q);
  }

  lemma HeaderOfV4(d: seq<byte>)
    requires 10 <= |d| && d[..4] == [0, 0, 0, ATYP_IPV4]
    ensures Header(V4(d[4..8]), Uint16(d[8..10])) + d[10..] == d
  {
    var a: Bytes4, pp := d[4..8], d[8..10];
    PutInvertsGet(pp);
    assert [0, 0, 0] + ([ATYP_IPV4] + a) == d[..4] + a;
    assert d == d[..4] + a + pp + d[10..];
  }

  lemma HeaderOfV6(d: seq<byte>)
    requires 22 <= |d| && d[..4] == [0, 0, 0, ATYP_IPV6]
    ensures Header(V6(d[4..20]), Uint16(d[20..22])) + d[22..] == d
  {
    var a: Bytes16, pp := d[4..20], d[20..22];
    PutInvertsGet(pp);
    assert [0, 0, 0] + ([ATYP_IPV6] + a) == d[..4] + a;
    assert d == d[..4] + a + pp + d[22..];
  }

  lemma UnwrappedHeaderIff(text: IpText, d: seq<byte>)
    requires Unwrap(text, d).From?
    ensures var u := Unwrap(text, d);
            && u.port < 0x10000
            && (Header(u.ip, u.port) + u.payload == d <==>
                d[0] == 0 && d[1] == 0 && (d[3] == ATYP_IPV4 || d[3] == ATYP_IPV6))
  {
    var u := Unwrap(text, d);
    var h := Header(u.ip, u.port);
    assert h[0] == 0 && h[1] == 0 && (h[3] == ATYP_IPV4 || h[3] == ATYP_IPV6);
    if h + u.payload == d {
      assert d[0] == h[0] && d[1] == h[1] && d[3] == h[3];
    } else if d[0] == 0 && d[1] == 0 {
      assert d[..4] == [0, 0, 0, d[3]];
      if d[3] == ATYP_IPV4 {
        HeaderOfV4(d);
      } else if d[3] == ATYP_IPV6 {
        HeaderOfV6(d);
      }
    }
  }

  /** The received header comes back byte for byte exactly if it named an IP with zero reserved bytes. */
  lemma HeaderReproducedIff(text: IpText, d: seq<byte>)
    requires RoundTrips(text) && Unwrap(text, d).From?
    ensures var u := Unwrap(text, d);
            var ep := EndpointOf(text, u.ip, u.port);
            && u.port < 0x10000
            && (Wrap(text, ep.host, ep.port, u.payload) == Some(d) <==>
                d[0] == 0 && d[1] == 0 && (d[3] == ATYP_IPV4 || d[3] == ATYP_IPV6))
  {
    ReplyGoesToSender(text, d, Unwrap(text, d).payload);
    UnwrappedHeaderIff(text, d);
  }
}
