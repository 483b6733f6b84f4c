/** Reading from a byte stream that arrives in pieces of any size. */
module Streams {
  import opened Bytes

  /** net.Conn.Read: some of the bytes to come, at least one if there are any and room for them. */
  method Read(pending: seq<byte>, room: nat) returns (data: seq<byte>, rest: seq<byte>)
    requires 0 < room
    ensures pending == data + rest && |data| <= room
    ensures pending != [] ==> data != []
  {
    if pending == [] {
      return [], [];
    }
    var k :| 1 <= k <= room && k <= |pending|;
    data, rest := pending[..k], pending[k..];
  }

  /** io.ReadFull: exactly n bytes, or an error after all there was. */
  method ReadFull(pending: seq<byte>, n: nat) returns (data: seq<byte>, ok: bool, rest: seq<byte>)
    ensures ok <==> n <= |pending|
    ensures ok ==> data == pending[..n] && rest == pending[n..]
    ensures !ok ==> data == pending && rest == []
  {
    data, rest := [], pending;
    while |data| < n
      invariant pending == data + rest && |data| <= n
      decreases n - |data|
    {
      var more, left := Read(rest, n - |data|);
      if more == [] {
        return data, false, rest;
      }
      data, rest := data + more, left;
    }
    ok := true;
  }
}
