/** The two ends of the SOCKS5 handshake as the program runs them, reading a connection piece by piece. */
module Socks5Conn {
  import opened Bytes
  import opened Streams
  import opened Socks5

  /** A net.Conn: the bytes still to come before it ends, and all that has been written. */
  class Wire {
    var inbound: seq<byte>
    var outbound: seq<byte>

    constructor (inbound: seq<byte>)
      ensures this.inbound == inbound && outbound == []
    {
      this.inbound, outbound := inbound, [];
    }

    method Take(n: nat) returns (data: seq<byte>, ok: bool)
      modifies this`inbound
      ensures ok <==> n <= |old(inbound)|
      ensures ok ==> data == old(inbound)[..n] && inbound == old(inbound)[n..]
      ensures !ok ==> inbound == []
    {
      data, ok, inbound := ReadFull(inbound, n);
    }

    /** Write may fail after any part of the bytes. */
    method Write(bytes: seq<byte>) returns (ok: bool)
      modifies this`outbound
      ensures ok ==> outbound == old(outbound) + bytes
      ensures old(outbound) <= outbound <= old(outbound) + bytes
    {
      var k :| 0 <= k <= |bytes|;
      outbound := outbound + bytes[..k];
      ok := k == |bytes|;
    }
  }

  // ---- both ends ----

  method ReadSocks5Addr(c: Wire, text: IpText, atyp: byte) returns (host: Option<Host>)
    modifies c`inbound
    ensures host.Some? <==> ReadAddress(text, atyp, old(c.inbound)).Address?
    ensures host.Some? ==> ReadAddress(text, atyp, old(c.inbound)) == Address(host.value, c.inbound)
  {
    if atyp == ATYP_IPV4 {
      var b, ok := c.Take(4);
      if !ok { return None; }
      return Some(text.format(V4(b)));
    } else if atyp == ATYP_IPV6 {
      var b, ok := c.Take(16);
      if !ok { return None; }
      return Some(text.format(V6(b)));
    } else if atyp == ATYP_DOMAIN {
      var l, ok := c.Take(1);
      if !ok { return None; }
      var dom;
      dom, ok := c.Take(l[0]);
      if !ok { return None; }
      return Some(dom);
    } else {
      return None;
    }
  }

  datatype Outcome = Connected(host: Host, port: nat) | HandshakeError | WriteError

  // ---- the client ----

  method Socks5Greet(c: Wire) returns (ok: bool, wrote: bool)
    modifies c
    ensures wrote ==> c.outbound == old(c.outbound) + Greeting
    ensures ok ==> wrote && |old(c.inbound)| >= 2 && c.inbound == old(c.inbound)[2..]
    ensures wrote ==> (ok <==> |old(c.inbound)| >= 2 && old(c.inbound)[..2] == Welcome)
  {
    wrote := c.Write(Greeting);
    if !wrote {
      return false, false;
    }
    var resp, full := c.Take(2);
    if !full {
      return false, true;
    }
    if resp[0] != VERSION {
      return false, true;
    }
    if resp[1] != NO_AUTH {
      return false, true;
    }
    return true, true;
  }

  /** The request is built by appending, and written at once; a name too long writes nothing. */
  method Socks5WriteRequest(c: Wire, text: IpText, cmd: byte, host: Host, port: nat) returns (ok: bool, wrote: bool)
    requires port < 0x10000
    modifies c`outbound
    ensures ok ==> RequestBytes(text, cmd, host, port).Some?
    ensures ok ==> c.outbound == old(c.outbound) + RequestBytes(text, cmd, host, port).value
    ensures RequestBytes(text, cmd, host, port).None? ==> c.outbound == old(c.outbound) && wrote
    ensures wrote ==> (ok <==> RequestBytes(text, cmd, host, port).Some?)
  {
    var buf: seq<byte> := [VERSION, cmd, 0];
    match text.parse(host) {
      case Some(V4(a)) =>
        buf := buf + [ATYP_IPV4];
        buf := buf + a;
      case Some(V6(a)) =>
        buf := buf + [ATYP_IPV6];
        buf := buf + a;
      case None =>
        if |host| > 255 {
          return false, true;
        }
        buf := buf + [ATYP_DOMAIN, |host|];
        buf := buf + host;
    }
    assert HostBytes(text, host).Some? && buf == [VERSION, cmd, 0] + HostBytes(text, host).value;
    buf := buf + PutUint16(port);
    wrote := c.Write(buf);
    ok := wrote;
  }

  method Socks5ReadReply(c: Wire, text: IpText) returns (r: Option<(Host, nat)>)
    modifies c`inbound
    ensures r.Some? <==> ReadReply(text, old(c.inbound)).Reply?
    ensures r.Some? ==> ReadReply(text, old(c.inbound)) == Reply(r.value.0, r.value.1, c.inbound)
  {
    var head, ok := c.Take(4);
    if !ok {
      return None;
    }
    if head[0] != VERSION || head[1] != SUCCEEDED {
      return None;
    }
    var addr := ReadSocks5Addr(c, text, head[3]);
    if addr.None? {
      return None;
    }
    var pb;
    pb, ok := c.Take(2);
    if !ok {
      return None;
    }
    return Some((addr.value, Uint16(pb)));
  }

  /** The handshake in DialContext does what ClientView says, once all that will come has come. */
  method DialThrough(c: Wire, text: IpText, host: Host, port: nat) returns (r: Outcome)
    requires port < 0x10000
    modifies c
    ensures var v := ClientView(text, host, port, old(c.inbound));
            && (!r.WriteError? ==> c.outbound == old(c.outbound) + v.out)
            && (!r.WriteError? ==> (r.Connected? <==> v.ClientDone?))
            && (r.Connected? ==> v == ClientDone(v.out, r.host, r.port, c.inbound))
  {
    var input := c.inbound;
    var ok, wrote := Socks5Greet(c);
    if !wrote {
      return WriteError;
    }
    if !ok {
      return HandshakeError;
    }
    ok, wrote := Socks5WriteRequest(c, text, CONNECT, host, port);
    if !wrote {
      return WriteError;
    }
    if !ok {
      return HandshakeError;
    }
    var reply := Socks5ReadReply(c, text);
    if reply.None? {
      return HandshakeError;
    }
    return Connected(reply.value.0, reply.value.1);
  }

  // ---- the server ----

  datatype Served = Piped | NotPiped | Broke

  /** The greeting: None once the connection is to be dropped. */
  method ReadGreeting(c: Wire) returns (ok: bool)
    modifies c`inbound
    ensures var input := old(c.inbound);
            ok <==> |input| >= 2 && input[0] == VERSION && |input| >= 2 + (input[1] as int)
    ensures ok ==> c.inbound == old(c.inbound)[2 + (old(c.inbound)[1] as int)..]
  {
    var hdr, full := c.Take(2);
    if !full || hdr[0] != VERSION {
      return false;
    }
    var _, all := c.Take(hdr[1]);
    return all;
  }

  /**
   handleProxyConn does what ServerView says, once all that will come has come: it dials exactly
   what was asked for, answers with the outcome, and pipes exactly the bytes after the request.
   A failed write can only make it stop early.
   */
  method HandleProxyConn(c: Wire, text: IpText, dial: (Host, nat) -> bool)
    returns (served: Served, dialled: Option<(Host, nat)>)
    modifies c
    ensures !served.Broke? ==>
              match ServerView(text, old(c.inbound))
              case ServerWaits(_, atEof) => served.NotPiped? && dialled.None? && c.outbound == old(c.outbound) + atEof
              case ServerHangsUp(out) => served.NotPiped? && dialled.None? && c.outbound == old(c.outbound) + out
              case ServerDials(out, host, port, rest) =>
                && dialled == Some((host, port)) && c.inbound == rest
                && (served.Piped? <==> dial(host, port))
                && c.outbound == old(c.outbound) + out + ReplyBytes(if dial(host, port) then SUCCEEDED else 5)
    ensures dialled.Some? ==>
              var v := ServerView(text, old(c.inbound));
              v.ServerDials? && dialled == Some((v.host, v.port))
  {
    dialled := None;
    var ok := ReadGreeting(c);
    if !ok {
      return NotPiped, None;
    }
    ok := c.Write(Welcome);
    if !ok {
      return Broke, None;
    }
    var rh;
    rh, ok := c.Take(4);
    if !ok {
      return NotPiped, None;
    }
    if rh[0] != VERSION || rh[1] != CONNECT {
      ok := c.Write(ReplyBytes(7));
      return if ok then NotPiped else Broke, None;
    }
    var host := ReadSocks5Addr(c, text, rh[3]);
    if host.None? {
      ok := c.Write(ReplyBytes(1));
      return if ok then NotPiped else Broke, None;
    }
    var pb;
    pb, ok := c.Take(2);
    if !ok {
      return NotPiped, None;
    }
    var port := Uint16(pb);
    dialled := Some((host.value, port));
    if !dial(host.value, port) {
      ok := c.Write(ReplyBytes(5));
      return if ok then NotPiped else Broke, dialled;
    }
    ok := c.Write(ReplyBytes(SUCCEEDED));
    return if ok then Piped else Broke, dialled;
  }
}
