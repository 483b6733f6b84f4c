/** What successive calls of TCPBind.receive take from one connection. */
module Receiver {
  import opened Bytes
  import opened Framing

  datatype Received = Packet(p: Datagram) | Oversized(n: nat) | Broken

  /** One call, given the bytes still to come and the size of the caller's buffer. */
  function ReceiveFrame(pending: seq<byte>, size: nat): (Received, seq<byte>) {
    if |pending| < 2 then (Broken, [])
    else
      var n, body := Uint16(pending[..2]), pending[2..];
      if n == 0 then (Packet([]), body)
      else if n > size then (Oversized(n), body[Min(n, |body|)..])
      else if |body| < n then (Broken, [])
      else (Packet(body[..n]), body[n..])
  }

  /** Successive calls, with a buffer of its own size for each. */
  function ReceiveAll(pending: seq<byte>, sizes: seq<nat>): (seq<Received>, seq<byte>)
    decreases |sizes|
  {
    if sizes == [] then ([], pending)
    else
      var (r, rest) := ReceiveFrame(pending, sizes[0]);
      var (rs, rest') := ReceiveAll(rest, sizes[1..]);
      ([r] + rs, rest')
  }

  /** What the caller should get for datagram p: an error exactly if it is too big. */
  function Expected(p: Datagram, size: nat): Received {
    if |p| <= size then Packet(p) else Oversized(|p|)
  }

  lemma ReceiveFirst(p: Datagram, tail: seq<byte>, size: nat)
    ensures ReceiveFrame(Frame(p) + tail, size) == (Expected(p, size), tail)
  {
    var s := Frame(p) + tail;
    assert s[..2] == PutUint16(|p|);
    assert s[2..][..|p|] == p && s[2..][|p|..] == tail;
  }

  /**
   The receiver stays in step: every datagram comes out in order, each one too big for its
   buffer is one error, and nothing after the last frame has been touched.
   */
  lemma {:induction false} ReceiverStaysInStep(ps: seq<Datagram>, tail: seq<byte>, sizes: seq<nat>)
    requires |sizes| == |ps|
    ensures var (rs, rest) := ReceiveAll(Frames(ps) + tail, sizes);
            && |rs| == |ps| && rest == tail
            && forall i :: 0 <= i < |ps| ==> rs[i] == Expected(ps[i], sizes[i])
    decreases |ps|
  {
    if ps == [] {
      assert Frames(ps) + tail == tail;
    } else {
      var rest := Frames(ps[1..]) + tail;
      assert Frames(ps) + tail == Frame(ps[0]) + rest;
      ReceiveFirst(ps[0], rest, sizes[0]);
      ReceiverStaysInStep(ps[1..], tail, sizes[1..]);
      var (rs, _) := ReceiveAll(rest, sizes[1..]);
      assert ReceiveAll(Frames(ps) + tail, sizes).0 == [Expected(ps[0], sizes[0])] + rs;
    }
  }

  /**
   A connection that ends in a cut frame yields no datagram from it, whatever the buffer: a broken
   read, or the size error if there is a header and it says more than the buffer holds.
   */
  lemma CutFrameBreaks(t: seq<byte>, size: nat)
    requires Decode(t) == Decoded([], t)
    ensures var (r, rest) := ReceiveFrame(t, size);
            !r.Packet? && rest == [] && (r.Broken? <==> |t| < 2 || Uint16(t[..2]) <= size)
  {
  }

  /**
   Any number of calls on whole frames with a cut one at the end: the datagrams or their size
   errors in order, and after them nothing but errors.
   */
  lemma {:induction false} FramesThenErrors(ps: seq<Datagram>, tail: seq<byte>, sizes: seq<nat>)
    requires Decode(tail) == Decoded([], tail)
    ensures var rs := ReceiveAll(Frames(ps) + tail, sizes).0;
            && |rs| == |sizes|
            && forall i :: 0 <= i < |rs| ==> if i < |ps| then rs[i] == Expected(ps[i], sizes[i]) else !rs[i].Packet?
    decreases |sizes|
  {
    if sizes != [] {
      if ps == [] {
        assert Frames(ps) + tail == tail && Frames([]) + [] == [];
        CutFrameBreaks(tail, sizes[0]);
        FramesThenErrors([], [], sizes[1..]);
      } else {
        var rest := Frames(ps[1..]) + tail;
        assert Frames(ps) + tail == Frame(ps[0]) + rest;
        ReceiveFirst(ps[0], rest, sizes[0]);
        FramesThenErrors(ps[1..], tail, sizes[1..]);
      }
    }
  }
}
