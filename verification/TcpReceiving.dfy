/**
 receive among interleaved sends, redials and Close: what successive calls take from one
 connection, when no two calls of receive overlap.
 */
module TcpReceiving {
  import opened Bytes
  import opened Framing
  import opened Receiver
  import opened TcpProtocol
  import opened TcpSafety
  import opened TcpDelivery
  import opened TcpConnections
  import opened TcpProgress
  import opened TcpHistory

  // ---- no two calls at once ----

  ghost predicate OneReceive(s: Sys) {
    forall t, u :: t in s.threads && u in s.threads && IsReceive(s.threads[t]) && IsReceive(s.threads[u]) ==> t == u
  }

  ghost predicate ReceivesNeverOverlap(s: Sys, es: seq<Event>)
    requires Run(s, es).Some?
    decreases |es|
  {
    OneReceive(s) && (es != [] ==> ReceivesNeverOverlap(Next(s, es[0]).value, es[1..]))
  }

  // ---- following one connection ----

  /**
   The incoming side of a connection: the bytes that are still to be read, and what the calls that
   read from it have returned, with buffers of which sizes. broken: the read of a header or a body
   has failed. adrift: the drain of an oversized frame has stopped before bytes that were to come.
   */
  datatype Stream = Stream(pending: seq<byte>, got: seq<Received>, sizes: seq<nat>, broken: bool, adrift: bool)

  function Untouched(arrivals: seq<byte>): Stream {
    Stream(arrivals, [], [], false, false)
  }

  function Record(st: Stream, r: Received, size: nat): Stream {
    st.(got := st.got + [r], sizes := st.sizes + [size])
  }

  /** One io.ReadFull takes its bytes off the stream; None if the stream does not hold them. */
  function TakePart(st: Stream, part: Part, r: ReadOutcome): Option<Stream>
    requires OutcomeOf(part, r)
  {
    match r
    case GotHeader(n, size) =>
      if |st.pending| < 2 || Uint16(st.pending[..2]) != n then None
      else
        var left := st.(pending := st.pending[2..]);
        Some(if n == 0 then Record(left, Packet([]), size) else left)
    case GotRest =>
      if |st.pending| < part.n then None
      else
        var left := st.(pending := st.pending[part.n..]);
        Some(Record(left, if part.Body? then Packet(st.pending[..part.n]) else Oversized(part.n), part.size))
    case _ =>
      if |st.pending| < r.k then None
      else
        var left := st.(pending := st.pending[r.k..]);
        if part.Drain? then
          Some(Record(left, Oversized(part.n), part.size).(adrift := st.adrift || r.k < |st.pending|))
        else Some(left.(broken := true))
  }

  predicate ReadsFrom(s: Sys, t: nat, c: nat) {
    t in s.threads && s.threads[t].Reading? && s.threads[t].conn == Some(c)
  }

  predicate IsRead(s: Sys, e: Event, c: nat) {
    e.ReadReturns? && ReadsFrom(s, e.t, c)
  }

  /** The stream of connection c after this event. */
  function Take(st: Stream, s: Sys, e: Event, c: nat): Option<Stream>
    requires Next(s, e).Some?
  {
    if IsRead(s, e, c) then TakePart(st, s.threads[e.t].part, e.r) else Some(st)
  }

  /** The stream after a run, or None if the run reads what the stream does not hold. */
  function Follow(st: Stream, s: Sys, es: seq<Event>, c: nat): Option<Stream>
    requires Run(s, es).Some?
    decreases |es|
  {
    if es == [] then Some(st)
    else
      var st' := Take(st, s, es[0], c);
      if st'.None? then None else Follow(st'.value, Next(s, es[0]).value, es[1..], c)
  }

  /** Some read of connection c in the run ends after a read of a header or a body of it has failed. */
  predicate ReadsBroken(st: Stream, s: Sys, es: seq<Event>, c: nat)
    requires Run(s, es).Some?
    decreases |es|
  {
    && es != []
    && var st' := Take(st, s, es[0], c);
       || (st.broken && IsRead(s, es[0], c))
       || (st'.Some? && ReadsBroken(st'.value, Next(s, es[0]).value, es[1..], c))
  }

  // ---- a broken connection is never read again ----

  /** The call whose read failed, while it may still find the connection it read from current. */
  predicate Recovering(pc: Pc, gen: nat) {
    (pc.ReadFailed? && pc.gen == gen) || (pc.Entering? && pc.caller.RecvRetry? && pc.staleGen == gen)
  }

  ghost predicate OutOfUse(s: Sys, c: nat) {
    && c in s.b.installed
    && (forall t :: t in s.threads ==> !ReadsFrom(s, t, c))
    && (s.b.conn == Some(c) ==> exists t :: t in s.threads && Recovering(s.threads[t], s.b.connGen))
  }

  /** A read begins on what is current. */
  lemma ReadsBeginOnCurrent(s: Sys, e: Event, t: nat, c: nat)
    requires Next(s, e).Some? && ReadsFrom(Next(s, e).value, t, c) && !ReadsFrom(s, t, c)
    ensures t in s.threads && (s.threads[t].RecvStart? || s.threads[t].RecvAgain?) && s.b.conn == Some(c)
  {
  }

  /** The bind while connection c stays current. */
  lemma StaysCurrent(s: Sys, e: Event, c: nat)
    requires Inv(s) && Next(s, e).Some? && s.b.conn == Some(c) && Next(s, e).value.b.conn == Some(c)
    ensures Next(s, e).value.b.connGen == s.b.connGen
  {
    StepBind(s, e);
    if e.Step? {
      assert PcOk(s.b, s.failed, s.threads[e.t]);
    }
  }

  lemma RecoveryGoesOn(s: Sys, e: Event, t: nat, c: nat)
    requires Inv(s) && Next(s, e).Some? && s.b.conn == Some(c) && Next(s, e).value.b.conn == Some(c)
    requires t in s.threads && Recovering(s.threads[t], s.b.connGen)
    ensures t in Next(s, e).value.threads && Recovering(Next(s, e).value.threads[t], s.b.connGen)
  {
    if !IsStepOf(e, t) {
      OthersLeavePc(s, e, t);
    }
  }

  lemma StaysOutOfUse(s: Sys, e: Event, c: nat)
    requires Inv(s) && OneReceive(s) && Next(s, e).Some? && OutOfUse(s, c)
    ensures OutOfUse(Next(s, e).value, c)
  {
    var s' := Next(s, e).value;
    StepExtendsInstalled(s, e);
    forall t | t in s'.threads
      ensures !ReadsFrom(s', t, c)
    {
      if ReadsFrom(s', t, c) {
        ReadsBeginOnCurrent(s, e, t, c);
        assert false;
      }
    }
    if s'.b.conn == Some(c) {
      if s.b.conn != Some(c) {
        StepDoesNotReinstall(s, e, c);
      }
      StaysCurrent(s, e, c);
      var t :| t in s.threads && Recovering(s.threads[t], s.b.connGen);
      RecoveryGoesOn(s, e, t, c);
    }
  }

  lemma FailedReadPutsOutOfUse(s: Sys, e: Event, st: Stream, c: nat)
    requires Inv(s) && OneReceive(s) && Next(s, e).Some?
    requires IsRead(s, e, c) && Take(st, s, e, c).Some? && Take(st, s, e, c).value.broken && !st.broken
    ensures OutOfUse(Next(s, e).value, c)
  {
    var s' := Next(s, e).value;
    assert PcOk(s.b, s.failed, s.threads[e.t]);
    forall t | t in s'.threads
      ensures !ReadsFrom(s', t, c)
    {
      if ReadsFrom(s', t, c) {
        assert IsReceive(s.threads[t]);
        assert false;
      }
    }
    assert Recovering(s'.threads[e.t], s.threads[e.t].gen);
  }

  // ---- one frame, part by part ----

  /** What has been read of the frame that is being read. */
  function AlreadyRead(part: Part): seq<byte> {
    if part.Header? then [] else PutUint16(part.n)
  }

  predicate PartFits(part: Part) {
    match part
    case Header => true
    case Body(n, size) => n <= size
    case Drain(n, size) => size < n
  }

  function AfterHeader(n: Length, size: nat): Part {
    if n > size then Drain(n, size) else Body(n, size)
  }

  lemma HeaderIsRead(st: Stream, n: nat, size: nat)
    requires n <= 0xFFFF && TakePart(st, Header, GotHeader(n, size)).Some?
    ensures var st' := TakePart(st, Header, GotHeader(n, size)).value;
            if n == 0 then ReceiveFrame(st.pending, size) == (Packet([]), st'.pending)
            else st.pending == AlreadyRead(AfterHeader(n, size)) + st'.pending
  {
    PutInvertsGet(st.pending[..2]);
  }

  /** A frame that is read to its end, or a drain that stops at the end of the stream or before. */
  lemma RestIsRead(st: Stream, part: Part, r: ReadOutcome)
    requires !part.Header? && PartFits(part) && OutcomeOf(part, r) && (part.Drain? || r.GotRest?)
    requires TakePart(st, part, r).Some?
    ensures var st', (f, rest) := TakePart(st, part, r).value, ReceiveFrame(AlreadyRead(part) + st.pending, part.size);
            && st'.got == st.got + [f] && st'.sizes == st.sizes + [part.size]
            && (!st.adrift ==> (st'.pending == rest <==> !st'.adrift))
  {
    var frame := AlreadyRead(part) + st.pending;
    assert frame[..2] == AlreadyRead(part) && frame[2..] == st.pending;
  }

  // ---- what is taken ----

  /** At a frame's beginning between calls, and within a frame past what has been read of it. */
  ghost predicate AtPart(s: Sys, st: Stream, rest: seq<byte>, c: nat) {
    && (forall t :: ReadsFrom(s, t, c) ==>
          PartFits(s.threads[t].part) && rest == AlreadyRead(s.threads[t].part) + st.pending)
    && ((forall t :: !ReadsFrom(s, t, c)) ==> rest == st.pending)
  }

  ghost predicate StreamOk(s: Sys, st: Stream, arrivals: seq<byte>, c: nat) {
    && |st.got| == |st.sizes|
    && (st.broken ==> OutOfUse(s, c))
    && (!st.adrift ==> ReceiveAll(arrivals, st.sizes).0 == st.got)
    && (!st.adrift && !st.broken ==> AtPart(s, st, ReceiveAll(arrivals, st.sizes).1, c))
  }

  lemma {:induction false} ReceiveAllSnoc(pending: seq<byte>, sizes: seq<nat>, size: nat)
    ensures var (rs, rest) := ReceiveAll(pending, sizes);
            var (r, rest') := ReceiveFrame(rest, size);
            var (all, left) := ReceiveAll(pending, sizes + [size]);
            all == rs + [r] && left == rest'
    decreases |sizes|
  {
    if sizes == [] {
      assert sizes + [size] == [size] && [size][1..] == [];
    } else {
      var (first, left) := ReceiveFrame(pending, sizes[0]);
      ReceiveAllSnoc(left, sizes[1..], size);
      var (rs, rest) := ReceiveAll(left, sizes[1..]);
      assert [first] + (rs + [ReceiveFrame(rest, size).0]) == [first] + rs + [ReceiveFrame(rest, size).0];
      assert (sizes + [size])[1..] == sizes[1..] + [size];
    }
  }

  /** Other events leave readers where they are, or begin a read at a header. */
  lemma OtherEventsKeepReaders(s: Sys, e: Event, t: nat, c: nat)
    requires Next(s, e).Some? && !IsRead(s, e, c)
    ensures var s' := Next(s, e).value;
            if ReadsFrom(s, t, c) then ReadsFrom(s', t, c) && s'.threads[t] == s.threads[t]
            else ReadsFrom(s', t, c) ==> s'.threads[t].part.Header?
  {
    if t in s.threads && !IsStepOf(e, t) {
      OthersLeavePc(s, e, t);
    }
  }

  lemma OtherEventsKeepPart(s: Sys, e: Event, st: Stream, rest: seq<byte>, c: nat)
    requires OneReceive(s) && Next(s, e).Some? && !IsRead(s, e, c) && AtPart(s, st, rest, c)
    ensures AtPart(Next(s, e).value, st, rest, c)
  {
    var s' := Next(s, e).value;
    forall t | ReadsFrom(s', t, c)
      ensures PartFits(s'.threads[t].part) && rest == AlreadyRead(s'.threads[t].part) + st.pending
    {
      OtherEventsKeepReaders(s, e, t, c);
      if !ReadsFrom(s, t, c) {
        ReadsBeginOnCurrent(s, e, t, c);
        assert forall u :: ReadsFrom(s, u, c) ==> IsReceive(s.threads[u]);
      }
    }
    if forall t :: !ReadsFrom(s', t, c) {
      forall t
        ensures !ReadsFrom(s, t, c)
      {
        OtherEventsKeepReaders(s, e, t, c);
      }
    }
  }

  /** The reading thread is the only one, before and after. */
  lemma OnlyOneReads(s: Sys, e: Event, t: nat, c: nat)
    requires OneReceive(s) && Next(s, e).Some? && IsRead(s, e, c) && t != e.t
    ensures !ReadsFrom(s, t, c) && !ReadsFrom(Next(s, e).value, t, c)
  {
    assert ReadsFrom(s, t, c) ==> IsReceive(s.threads[t]);
    if ReadsFrom(Next(s, e).value, t, c) {
      OthersLeavePc(s, e, t);
    }
  }

  lemma ReadKeepsPart(s: Sys, e: Event, st: Stream, arrivals: seq<byte>, c: nat)
    requires OneReceive(s) && Next(s, e).Some? && IsRead(s, e, c) && Take(st, s, e, c).Some?
    requires |st.got| == |st.sizes| && !st.adrift && ReceiveAll(arrivals, st.sizes).0 == st.got
    requires AtPart(s, st, ReceiveAll(arrivals, st.sizes).1, c) && !st.broken
    ensures var s', st' := Next(s, e).value, Take(st, s, e, c).value;
            && ReceiveAll(arrivals, st'.sizes).0 == st'.got
            && (!st'.broken && !st'.adrift ==> AtPart(s', st', ReceiveAll(arrivals, st'.sizes).1, c))
            && (st'.adrift ==> st'.pending != ReceiveAll(arrivals, st'.sizes).1)
  {
    var s', st', part := Next(s, e).value, Take(st, s, e, c).value, s.threads[e.t].part;
    forall t | t != e.t
      ensures !ReadsFrom(s, t, c) && !ReadsFrom(s', t, c)
    {
      OnlyOneReads(s, e, t, c);
    }
    assert s' == AfterRead(s, e.t, e.r) && ReceiveAll(arrivals, st.sizes).1 == AlreadyRead(part) + st.pending;
    if e.r.GotHeader? {
      HeaderIsRead(st, e.r.n, e.r.size);
      assert AlreadyRead(part) + st.pending == st.pending;
      if e.r.n == 0 {
        ReceiveAllSnoc(arrivals, st.sizes, e.r.size);
        assert !ReadsFrom(s', e.t, c);
      } else {
        assert s'.threads[e.t].part == AfterHeader(e.r.n, e.r.size);
      }
    } else if e.r.GotRest? || part.Drain? {
      RestIsRead(st, part, e.r);
      ReceiveAllSnoc(arrivals, st.sizes, part.size);
    }
  }

  lemma TakeKeepsOutOfUse(s: Sys, e: Event, st: Stream, c: nat)
    requires Inv(s) && OneReceive(s) && Next(s, e).Some? && (st.broken ==> OutOfUse(s, c))
    requires Take(st, s, e, c).Some?
    ensures Take(st, s, e, c).value.broken ==> OutOfUse(Next(s, e).value, c)
    ensures !(st.broken && IsRead(s, e, c))
  {
    if st.broken {
      StaysOutOfUse(s, e, c);
    } else if Take(st, s, e, c).value.broken {
      FailedReadPutsOutOfUse(s, e, st, c);
    }
  }

  lemma TakeCounts(s: Sys, e: Event, st: Stream, c: nat)
    requires Next(s, e).Some? && Take(st, s, e, c).Some? && |st.got| == |st.sizes|
    ensures var st' := Take(st, s, e, c).value;
            && |st'.got| == |st'.sizes|
            && (st.broken ==> st'.broken) && (st.adrift ==> st'.adrift)
            && (!IsRead(s, e, c) ==> st' == st)
  {
  }

  lemma TakeKeepsStream(s: Sys, e: Event, st: Stream, arrivals: seq<byte>, c: nat)
    requires Inv(s) && OneReceive(s) && Next(s, e).Some? && StreamOk(s, st, arrivals, c)
    requires Take(st, s, e, c).Some?
    ensures StreamOk(Next(s, e).value, Take(st, s, e, c).value, arrivals, c)
    ensures !(st.broken && IsRead(s, e, c))
  {
    TakeKeepsOutOfUse(s, e, st, c);
    TakeCounts(s, e, st, c);
    if !st.broken && !st.adrift {
      if IsRead(s, e, c) {
        ReadKeepsPart(s, e, st, arrivals, c);
      } else {
        OtherEventsKeepPart(s, e, st, ReceiveAll(arrivals, st.sizes).1, c);
      }
    }
  }

  lemma {:induction false} FollowKeepsStream(s: Sys, es: seq<Event>, st: Stream, arrivals: seq<byte>, c: nat)
    requires Inv(s) && Run(s, es).Some? && |Run(s, es).value.b.installed| < GENERATIONS
    requires ReceivesNeverOverlap(s, es) && StreamOk(s, st, arrivals, c)
    requires Follow(st, s, es, c).Some?
    ensures Inv(Run(s, es).value) && OneReceive(Run(s, es).value)
    ensures StreamOk(Run(s, es).value, Follow(st, s, es, c).value, arrivals, c)
    ensures !ReadsBroken(st, s, es, c)
    decreases |es|
  {
    if es != [] {
      InstallsOnlyGrow(Next(s, es[0]).value, es[1..]);
      NextKeepsInv(s, es[0]);
      TakeKeepsStream(s, es[0], st, arrivals, c);
      FollowKeepsStream(Next(s, es[0]).value, es[1..], Take(st, s, es[0], c).value, arrivals, c);
    }
  }

  /**
   Over every run of sends, redials, Opens and Closes in which calls of receive do not overlap, and
   which reads what has arrived on connection c: no read of it ends after one of a header or a body
   has failed, and unless a drain stops before bytes that were to come, the calls that read from
   it return what ReceiveAll takes from its arrivals.
   */
  lemma ReceivesInStep(es: seq<Event>, c: nat, arrivals: seq<byte>)
    requires Run(Start, es).Some? && |Run(Start, es).value.b.installed| < GENERATIONS
    requires ReceivesNeverOverlap(Start, es) && Follow(Untouched(arrivals), Start, es, c).Some?
    ensures var st := Follow(Untouched(arrivals), Start, es, c).value;
            && !ReadsBroken(Untouched(arrivals), Start, es, c)
            && (!st.adrift ==> st.got == ReceiveAll(arrivals, st.sizes).0)
  {
    FollowKeepsStream(Start, es, Untouched(arrivals), arrivals, c);
  }

  /**
   The same when a framing sender is at the other end: the n-th call returns its n-th datagram, or
   the error for one too big for its buffer, and no datagram is made of its last, cut frame.
   */
  lemma ReceivesDatagrams(es: seq<Event>, c: nat, ps: seq<Datagram>, tail: seq<byte>)
    requires Run(Start, es).Some? && |Run(Start, es).value.b.installed| < GENERATIONS
    requires ReceivesNeverOverlap(Start, es) && CutFrame(tail)
    requires Follow(Untouched(Frames(ps) + tail), Start, es, c).Some?
    ensures var st := Follow(Untouched(Frames(ps) + tail), Start, es, c).value;
            !st.adrift ==> InOrder(st.got, st.sizes, ps)
  {
    FollowKeepsStream(Start, es, Untouched(Frames(ps) + tail), Frames(ps) + tail, c);
    CutFrameIffNothingDecoded(tail);
    FramesThenErrors(ps, tail, Follow(Untouched(Frames(ps) + tail), Start, es, c).value.sizes);
  }

  /** The datagrams in order, each too big one as an error, and after the last nothing but errors. */
  predicate InOrder(got: seq<Received>, sizes: seq<nat>, ps: seq<Datagram>) {
    && |got| == |sizes|
    && forall i :: 0 <= i < |got| ==> if i < |ps| then got[i] == Expected(ps[i], sizes[i]) else !got[i].Packet?
  }

  /**
   A call of receive that leaves the connection usable leaves it at the beginning of a frame, if
   and only if it has not drained an oversized frame and stopped before bytes that were to come.
   */
  lemma InStepIffDrained(es: seq<Event>, e: Event, c: nat, arrivals: seq<byte>)
    requires Run(Start, es).Some? && |Run(Start, es).value.b.installed| < GENERATIONS
    requires ReceivesNeverOverlap(Start, es) && Follow(Untouched(arrivals), Start, es, c).Some?
    requires var s, st := Run(Start, es).value, Follow(Untouched(arrivals), Start, es, c).value;
             && Next(s, e).Some? && Take(st, s, e, c).Some? && !st.adrift
             && !Take(st, s, e, c).value.broken && forall t :: !ReadsFrom(Next(s, e).value, t, c)
    ensures var s, st := Run(Start, es).value, Follow(Untouched(arrivals), Start, es, c).value;
            var st' := Take(st, s, e, c).value;
            st'.pending == ReceiveAll(arrivals, st'.sizes).1 <==> !st'.adrift
  {
    FollowKeepsStream(Start, es, Untouched(arrivals), arrivals, c);
    var s, st := Run(Start, es).value, Follow(Untouched(arrivals), Start, es, c).value;
    if IsRead(s, e, c) {
      ReadKeepsPart(s, e, st, arrivals, c);
    } else {
      OtherEventsKeepPart(s, e, st, ReceiveAll(arrivals, st.sizes).1, c);
    }
  }

  // ---- one event more ----

  lemma {:induction false} FollowSnoc(st: Stream, s: Sys, es: seq<Event>, e: Event, c: nat)
    requires Run(s, es).Some? && Next(Run(s, es).value, e).Some? && Follow(st, s, es, c).Some?
    ensures Run(s, es + [e]) == Next(Run(s, es).value, e)
    ensures Follow(st, s, es + [e], c) == Take(Follow(st, s, es, c).value, Run(s, es).value, e, c)
    decreases |es|
  {
    if es == [] {
      assert [] + [e] == [e] && [e][1..] == [];
    } else {
      FollowSnoc(Take(st, s, es[0], c).value, Next(s, es[0]).value, es[1..], e, c);
      assert (es + [e])[1..] == es[1..] + [e];
    }
  }
}
