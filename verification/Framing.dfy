/** The udp-over-tcp framing: every datagram is preceded by its 16-bit big-endian length. */
module Framing {
  import opened Bytes

  /** What sendOne can be asked to frame: Send has already refused anything longer. */
  type Datagram = p: seq<byte> | |p| <= 0xFFFF

  function Frame(p: Datagram): (f: seq<byte>)
    ensures |f| == 2 + |p|
  {
    PutUint16(|p|) + p
  }

  /** The bytes of a frame, high byte of the length first. */
  lemma FrameInBytes(p: Datagram)
    ensures Frame(p) == [|p| / 256, |p| % 256] + p
  {
  }

  function Frames(ps: seq<Datagram>): seq<byte> {
    if ps == [] then [] else Frame(ps[0]) + Frames(ps[1..])
  }

  datatype Decoded = Decoded(frames: seq<Datagram>, rest: seq<byte>)

  /** Decoding is independent of the sender: whole frames in order, then what is left over. */
  function Decode(s: seq<byte>): Decoded {
    if |s| < 2 || |s| < 2 + Uint16(s[..2]) then Decoded([], s)
    else
      var n := Uint16(s[..2]);
      var d := Decode(s[2 + n..]);
      Decoded([s[2..2 + n]] + d.frames, d.rest)
  }

  /** A frame cut before its end. */
  ghost predicate CutFrame(t: seq<byte>) {
    t == [] || exists p: Datagram, k: nat :: k < |Frame(p)| && t == Frame(p)[..k]
  }

  lemma CutFrameDecodesToNothing(p: Datagram, k: nat)
    requires k < |Frame(p)|
    ensures Decode(Frame(p)[..k]) == Decoded([], Frame(p)[..k])
  {
    if 2 <= k {
      assert Frame(p)[..k][..2] == PutUint16(|p|);
    }
  }

  lemma DecodeFirst(p: Datagram, s: seq<byte>)
    ensures Decode(Frame(p) + s) == Decoded([p] + Decode(s).frames, Decode(s).rest)
  {
    var t := Frame(p) + s;
    assert t[..2] == PutUint16(|p|);
    assert t[2..2 + |p|] == p;
    assert t[2 + |p|..] == s;
  }

  lemma FramesFirst(ps: seq<Datagram>, t: seq<byte>)
    requires ps != []
    ensures Frames(ps) + t == Frame(ps[0]) + (Frames(ps[1..]) + t)
  {
  }

  /** Decode undoes framing, also when the last frame was cut short. */
  lemma {:induction false} DecodeFrames(ps: seq<Datagram>, t: seq<byte>)
    requires Decode(t) == Decoded([], t)
    ensures Decode(Frames(ps) + t) == Decoded(ps, t)
  {
    if ps == [] {
      assert Frames(ps) + t == t;
    } else {
      DecodeFrames(ps[1..], t);
      DecodeFirst(ps[0], Frames(ps[1..]) + t);
      FramesFirst(ps, t);
    }
  }

  /** The byte strings with no whole frame in them are exactly the cut frames. */
  lemma CutFrameIffNothingDecoded(t: seq<byte>)
    ensures CutFrame(t) <==> Decode(t) == Decoded([], t)
  {
    if t != [] && CutFrame(t) {
      var p: Datagram, k: nat :| k < |Frame(p)| && t == Frame(p)[..k];
      CutFrameDecodesToNothing(p, k);
    }
    if |t| < 2 || |t| < 2 + Uint16(t[..2]) {
      ShortIsCutFrame(t);
    }
  }

  /** The first frame of a byte string that holds one. */
  lemma SplitFirst(s: seq<byte>)
    requires 2 <= |s| && 2 + Uint16(s[..2]) <= |s|
    ensures s == Frame(s[2..2 + Uint16(s[..2])]) + s[2 + Uint16(s[..2])..]
  {
    PutInvertsGet(s[..2]);
    var n := Uint16(s[..2]);
    assert s == s[..2] + s[2..2 + n] + s[2 + n..];
  }

  /** A byte string with no whole frame in it is the beginning of some frame. */
  lemma ShortIsCutFrame(s: seq<byte>)
    requires |s| < 2 || |s| < 2 + Uint16(s[..2])
    ensures CutFrame(s)
  {
    if |s| == 1 {
      var p: Datagram := seq(256 * (s[0] as int), _ => 0);
      assert PutUint16(|p|)[0] == s[0];
      assert s == Frame(p)[..1];
    } else if 2 <= |s| {
      var n := Uint16(s[..2]);
      PutInvertsGet(s[..2]);
      var p: Datagram := s[2..] + seq(2 + n - |s|, _ => 0);
      assert s == Frame(p)[..|s|];
    }
  }

  /** Every byte string is whole frames followed by one cut frame, and Decode finds them. */
  lemma {:induction false} DecodeIsExact(s: seq<byte>)
    ensures s == Frames(Decode(s).frames) + Decode(s).rest
    ensures Decode(Decode(s).rest) == Decoded([], Decode(s).rest)
  {
    if 2 <= |s| && 2 + Uint16(s[..2]) <= |s| {
      var n := Uint16(s[..2]);
      SplitFirst(s);
      DecodeIsExact(s[2 + n..]);
      PrependFrame(s[2..2 + n], s[2 + n..], Decode(s[2 + n..]));
    }
  }

  lemma PrependFrame(p: Datagram, s: seq<byte>, d: Decoded)
    requires s == Frames(d.frames) + d.rest
    ensures Frame(p) + s == Frames([p] + d.frames) + d.rest
  {
    assert ([p] + d.frames)[1..] == d.frames;
  }

  lemma {:induction false} FramesAppend(ps: seq<Datagram>, p: Datagram)
    ensures Frames(ps + [p]) == Frames(ps) + Frame(p)
  {
    if ps == [] {
      assert ps + [p] == [p];
    } else {
      FramesAppend(ps[1..], p);
      assert (ps + [p])[1..] == ps[1..] + [p];
    }
  }
}
