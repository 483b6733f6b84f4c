/**
 The SOCKS5 messages of both ends in literal bytes (sections 3 to 6 of RFC 1928), and exactly which
 inputs each end accepts, refuses or waits on.
 */
module Socks5Format {
  import opened Bytes
  import opened Socks5

  // ---- what is written ----

  /** Every message but the request. */
  lemma FixedMessages(code: byte)
    ensures Greeting == [5, 1, 0] && Welcome == [5, 0]
    ensures ReplyBytes(code) == [5, code, 0, 1, 0, 0, 0, 0, 0, 0]
  {
  }

  /** The request for a host: an address for a literal, and a name of at most 255 bytes otherwise. */
  lemma RequestInBytes(text: IpText, host: Host, port: nat)
    requires port < 0x10000
    ensures var r, pp: seq<byte> := RequestBytes(text, CONNECT, host, port), [port / 256, port % 256];
            match text.parse(host)
            case Some(V4(a)) => r == Some([5, 1, 0, 1] + a + pp)
            case Some(V6(a)) => r == Some([5, 1, 0, 4] + a + pp)
            case None => r == if |host| <= 255 then Some([5, 1, 0, 3, |host|] + host + pp) else None
  {
    var pp: seq<byte> := [port / 256, port % 256];
    match text.parse(host)
    case Some(V4(a)) => assert [5, 1, 0] + ([1] + a) + pp == [5, 1, 0, 1] + a + pp;
    case Some(V6(a)) => assert [5, 1, 0] + ([4] + a) + pp == [5, 1, 0, 4] + a + pp;
    case None =>
      if |host| <= 255 {
        assert [5, 1, 0] + ([3, |host|] + host) + pp == [5, 1, 0, 3, |host|] + host + pp;
      }
  }

  // ---- addresses ----

  /** The bytes are an address type and an address, with this text. */
  predicate Spells(text: IpText, addr: seq<byte>, host: Host) {
    || (|addr| == 5 && addr[0] == 1 && host == text.format(V4(addr[1..])))
    || (|addr| == 17 && addr[0] == 4 && host == text.format(V6(addr[1..])))
    || (|host| <= 255 && addr == [3, |host|] + host)
  }

  /** An address of this type that begins with the input is not all there. */
  predicate CutShort(atyp: byte, input: seq<byte>) {
    || (atyp == 1 && |input| < 4)
    || (atyp == 4 && |input| < 16)
    || (atyp == 3 && (input == [] || |input| < 1 + input[0] as int))
  }

  predicate KnownType(atyp: byte) {
    atyp == 1 || atyp == 3 || atyp == 4
  }

  lemma ReadAddressOutcome(text: IpText, atyp: byte, input: seq<byte>)
    ensures ReadAddress(text, atyp, input).Unsupported? <==> !KnownType(atyp)
    ensures ReadAddress(text, atyp, input).Short? <==> CutShort(atyp, input)
  {
  }

  /** What is read is an address at the beginning of the input. */
  lemma ReadAddressIsSpelled(text: IpText, atyp: byte, input: seq<byte>)
    requires ReadAddress(text, atyp, input).Address?
    ensures var Address(host, rest) := ReadAddress(text, atyp, input);
            var k := |input| - |rest|;
            0 <= k && input == input[..k] + rest && Spells(text, [atyp] + input[..k], host)
  {
    var Address(host, rest) := ReadAddress(text, atyp, input);
    var k := |input| - |rest|;
    assert ([atyp] + input[..k])[1..] == input[..k];
    if atyp == 3 {
      assert input[..k] == [|host|] + host;
      assert [atyp] + input[..k] == [3, |host|] + host;
    }
  }

  lemma SpelledIsRead(text: IpText, addr: seq<byte>, host: Host, rest: seq<byte>)
    requires Spells(text, addr, host)
    ensures addr != [] && ReadAddress(text, addr[0], addr[1..] + rest) == Address(host, rest)
  {
    var input := addr[1..] + rest;
    if |host| <= 255 && addr == [3, |host|] + host {
      assert input == [|host|] + host + rest;
      assert input[1..1 + |host|] == host && input[1 + |host|..] == rest;
    } else {
      var n := |addr| - 1;
      assert input[..n] == addr[1..] && input[n..] == rest;
    }
  }

  // ---- request and reply have one format ----

  /** A request or a reply: version, command or code, reserved byte, address, port, and what follows. */
  ghost predicate IsMessage(text: IpText, input: seq<byte>, code: byte, rsv: byte, addr: seq<byte>,
                            host: Host, port: nat, rest: seq<byte>) {
    port < 0x10000 && Spells(text, addr, host) && input == [5, code, rsv] + addr + [port / 256, port % 256] + rest
  }

  /** The input up to its port, given how its address reads. */
  lemma MessageOfParts(text: IpText, input: seq<byte>)
    requires 4 <= |input| && input[0] == 5
    requires ReadAddress(text, input[3], input[4..]).Address?
    requires 2 <= |ReadAddress(text, input[3], input[4..]).rest|
    ensures var Address(host, rest) := ReadAddress(text, input[3], input[4..]);
            var k := |input| - |rest|;
            3 <= k && IsMessage(text, input, input[1], input[2], input[3..k], host, Uint16(rest[..2]), rest[2..])
  {
    ReadAddressIsSpelled(text, input[3], input[4..]);
    var rest := ReadAddress(text, input[3], input[4..]).rest;
    Rejoin(input, rest);
    HighByteFirst(rest[..2]);
  }

  lemma HighByteFirst(pp: seq<byte>)
    requires |pp| == 2
    ensures pp == [Uint16(pp) / 256, Uint16(pp) % 256]
  {
  }

  /** The pieces of a message, where its end is rest. */
  lemma Rejoin(input: seq<byte>, rest: seq<byte>)
    requires 4 <= |input| && 2 <= |rest| <= |input| - 4
    requires var k := |input| - |rest|; input[4..] == input[4..][..k - 4] + rest
    ensures var k := |input| - |rest|;
            && input == [input[0], input[1], input[2]] + input[3..k] + rest[..2] + rest[2..]
            && input[3..k] == [input[3]] + input[4..][..k - 4]
  {
    var k := |input| - |rest|;
    assert input[4..][..k - 4] == input[4..k];
    assert rest == input[4..][k - 4..] == input[k..];
    assert input[3..k] == [input[3]] + input[4..k];
    assert input[..3] == [input[0], input[1], input[2]];
    assert input == input[..3] + input[3..k] + input[k..];
    assert rest == rest[..2] + rest[2..];
  }

  lemma PartsOfMessage(text: IpText, input: seq<byte>, code: byte, rsv: byte, addr: seq<byte>,
                       host: Host, port: nat, rest: seq<byte>)
    requires IsMessage(text, input, code, rsv, addr, host, port, rest)
    ensures 4 <= |input| && input[0] == 5 && input[1] == code
    ensures var pp: seq<byte> := [port / 256, port % 256];
            && ReadAddress(text, input[3], input[4..]) == Address(host, pp + rest)
            && (pp + rest)[..2] == pp && Uint16(pp) == port && (pp + rest)[2..] == rest
  {
    var pp: seq<byte> := [port / 256, port % 256];
    SpelledIsRead(text, addr, host, pp + rest);
    assert input == [5, code, rsv] + addr + (pp + rest);
    AddressInMessage([5, code, rsv], addr, pp + rest);
    assert (pp + rest)[..2] == pp && (pp + rest)[2..] == rest;
  }

  lemma AddressInMessage(head: seq<byte>, addr: seq<byte>, tail: seq<byte>)
    requires |head| == 3 && addr != []
    ensures (head + addr + tail)[3] == addr[0] && (head + addr + tail)[4..] == addr[1..] + tail
  {
  }

  // ---- the client's reply ----

  /** A reply is accepted exactly if it has code 0 and is all there, whatever its reserved byte. */
  lemma ReplyIff(text: IpText, input: seq<byte>, host: Host, port: nat, rest: seq<byte>)
    ensures ReadReply(text, input) == Reply(host, port, rest) <==>
            exists rsv: byte, addr: seq<byte> :: IsMessage(text, input, 0, rsv, addr, host, port, rest)
  {
    if ReadReply(text, input) == Reply(host, port, rest) {
      MessageOfParts(text, input);
    }
    if exists rsv: byte, addr: seq<byte> :: IsMessage(text, input, 0, rsv, addr, host, port, rest) {
      var rsv: byte, addr: seq<byte> :| IsMessage(text, input, 0, rsv, addr, host, port, rest);
      PartsOfMessage(text, input, 0, rsv, addr, host, port, rest);
    }
  }

  /** It is refused exactly for its version, any other code than 0, or an unknown address type. */
  lemma ReplyRefusedIff(text: IpText, input: seq<byte>)
    ensures ReadReply(text, input).ReplyBad? <==>
            4 <= |input| && (input[0] != 5 || input[1] != 0 || !KnownType(input[3]))
  {
    if 4 <= |input| {
      ReadAddressOutcome(text, input[3], input[4..]);
    }
  }

  /** The client succeeds exactly on the welcome and such a reply, if its host can be written at all. */
  lemma ClientDoneIff(text: IpText, host: Host, port: nat, input: seq<byte>, h: Host, p: nat, rest: seq<byte>)
    requires port < 0x10000
    ensures var v, req := ClientView(text, host, port, input), RequestBytes(text, CONNECT, host, port);
            v.ClientDone? && v.host == h && v.port == p && v.rest == rest <==>
            req.Some? && exists rsv: byte, addr: seq<byte> ::
              IsClientInput(text, input, rsv, addr, h, p, rest)
  {
    if 2 <= |input| {
      ReplyIff(text, input[2..], h, p, rest);
      if exists rsv: byte, addr: seq<byte> :: IsMessage(text, input[2..], 0, rsv, addr, h, p, rest) {
        var rsv: byte, addr: seq<byte> :| IsMessage(text, input[2..], 0, rsv, addr, h, p, rest);
        assert input[..2] == [5, 0] ==> IsClientInput(text, input, rsv, addr, h, p, rest);
      }
    }
  }

  ghost predicate IsClientInput(text: IpText, input: seq<byte>, rsv: byte, addr: seq<byte>,
                                host: Host, port: nat, rest: seq<byte>) {
    2 <= |input| && input[..2] == [5, 0] && IsMessage(text, input[2..], 0, rsv, addr, host, port, rest)
  }

  /** It fails exactly on another welcome, a name too long to ask for, or a refused reply. */
  lemma ClientFailsIff(text: IpText, host: Host, port: nat, input: seq<byte>)
    requires port < 0x10000
    ensures ClientView(text, host, port, input).ClientFails? <==>
            && 2 <= |input|
            && (|| input[..2] != [5, 0]
                || (text.parse(host).None? && |host| > 255)
                || (6 <= |input| && (input[2] != 5 || input[3] != 0 || !KnownType(input[5]))))
  {
    if 2 <= |input| {
      ReplyRefusedIff(text, input[2..]);
    }
  }

  /** It writes its greeting at once, and its request exactly after the welcome, if it can. */
  lemma ClientWrites(text: IpText, host: Host, port: nat, input: seq<byte>)
    requires port < 0x10000
    ensures var out, req := ClientView(text, host, port, input).out, RequestBytes(text, CONNECT, host, port);
            out == if 2 <= |input| && input[..2] == [5, 0] && req.Some? then [5, 1, 0] + req.value else [5, 1, 0]
  {
  }

  // ---- the server's request ----

  /** The server dials exactly on a CONNECT request that is all there. */
  lemma RequestIff(text: IpText, input: seq<byte>, host: Host, port: nat, rest: seq<byte>)
    ensures ReadRequest(text, input) == ServerDials([5, 0], host, port, rest) <==>
            exists rsv: byte, addr: seq<byte> :: IsMessage(text, input, 1, rsv, addr, host, port, rest)
  {
    if ReadRequest(text, input) == ServerDials([5, 0], host, port, rest) {
      MessageOfParts(text, input);
    }
    if exists rsv: byte, addr: seq<byte> :: IsMessage(text, input, 1, rsv, addr, host, port, rest) {
      var rsv: byte, addr: seq<byte> :| IsMessage(text, input, 1, rsv, addr, host, port, rest);
      PartsOfMessage(text, input, 1, rsv, addr, host, port, rest);
    }
  }

  /**
   Short of that: any command but CONNECT is answered with 7, an unknown address type with 1, and
   where the input ends early the server answers 1 within the address and nothing elsewhere.
   */
  lemma RequestOutcome(text: IpText, input: seq<byte>)
    ensures var v := ReadRequest(text, input);
            if |input| < 4 then v == ServerWaits([5, 0], [5, 0])
            else if input[0] != 5 || input[1] != 1 then
              v == ServerHangsUp([5, 0, 5, 7, 0, 1, 0, 0, 0, 0, 0, 0])
            else if !KnownType(input[3]) then
              v == ServerHangsUp([5, 0, 5, 1, 0, 1, 0, 0, 0, 0, 0, 0])
            else if CutShort(input[3], input[4..]) then
              v == ServerWaits([5, 0], [5, 0, 5, 1, 0, 1, 0, 0, 0, 0, 0, 0])
            else v == ServerWaits([5, 0], [5, 0]) || (v.ServerDials? && v.out == [5, 0])
  {
    if 4 <= |input| {
      ReadAddressOutcome(text, input[3], input[4..]);
    }
  }

  /** Before the request: a version 5 greeting with all its methods, or nothing is said. */
  lemma GreetingOutcome(text: IpText, input: seq<byte>)
    ensures var v := ServerView(text, input);
            if |input| < 2 then v == ServerWaits([], [])
            else if input[0] != 5 then v == ServerHangsUp([])
            else if |input| < 2 + input[1] as int then v == ServerWaits([], [])
            else v == ReadRequest(text, input[2 + input[1] as int..])
  {
  }
}
