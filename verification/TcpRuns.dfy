/** Concrete runs of the TCPBind protocol: what the restrictions on overlap are for, and what they leave. */
module TcpRuns {
  import opened Bytes
  import opened Framing
  import opened Receiver
  import opened TcpProtocol
  import opened TcpConnections
  import opened TcpHistory
  import opened TcpReceiving

  lemma Extend(es: seq<Event>, s: Sys, e: Event) returns (s': Sys, es': seq<Event>)
    requires Run(Start, es) == Some(s) && Next(s, e).Some?
    ensures s' == Next(s, e).value && Run(Start, es') == Some(s') && es' == es + [e]
  {
    s', es' := Next(s, e).value, es + [e];
    RunConcat(Start, es, [e]);
  }

  /** A run to s without Close, in which no two dials and no two calls of receive overlap. */
  ghost predicate Calm(es: seq<Event>, s: Sys) {
    && Run(Start, es) == Some(s) && CallClose !in es
    && DialsNeverOverlap(Start, es) && ReceivesNeverOverlap(Start, es)
  }

  lemma {:induction false} NeverOverlapSnoc(s: Sys, es: seq<Event>, e: Event)
    requires Run(s, es).Some? && DialsNeverOverlap(s, es) && ReceivesNeverOverlap(s, es)
    requires Next(Run(s, es).value, e).Some?
    requires OneDialAtATime(Next(Run(s, es).value, e).value) && OneReceive(Next(Run(s, es).value, e).value)
    ensures Run(s, es + [e]).Some? && DialsNeverOverlap(s, es + [e]) && ReceivesNeverOverlap(s, es + [e])
    decreases |es|
  {
    if es == [] {
      assert [e][1..] == [];
      assert es + [e] == [e];
    } else {
      NeverOverlapSnoc(Next(s, es[0]).value, es[1..], e);
      assert (es + [e])[1..] == es[1..] + [e];
    }
  }

  lemma CalmExtend(es: seq<Event>, s: Sys, e: Event) returns (s': Sys, es': seq<Event>)
    requires Calm(es, s) && Next(s, e).Some? && e != CallClose
    requires OneDialAtATime(Next(s, e).value) && OneReceive(Next(s, e).value)
    ensures s' == Next(s, e).value && Calm(es', s') && es' == es + [e]
  {
    NeverOverlapSnoc(Start, es, e);
    s', es' := Extend(es, s, e);
  }

  // ---- an open bind, and a receive on it ----

  lemma OpenRun() returns (s: Sys, es: seq<Event>)
    ensures forall e :: e in es ==> !e.ReadReturns?
    ensures Calm(es, s) && s.threads == map[] && s.writer.None?
    ensures s.b == Bind(true, Some(0), 1, [Fresh], [0])
  {
    s, es := CalmExtend([], Start, CallOpen(0));
    s, es := CalmExtend(es, s, Step(0));
    s, es := CalmExtend(es, s, DialReturns(0, DialOk));
    assert s.b == Bind(true, None, 0, [Fresh], []) && s.threads.Keys == {0};
    s, es := CalmExtend(es, s, Step(0));
  }

  lemma ReceiveReads() returns (s: Sys, es: seq<Event>)
    ensures forall e :: e in es ==> !e.ReadReturns?
    ensures Calm(es, s) && s.threads == map[1 := Reading(Some(0), 1, Header)] && s.writer.None?
    ensures s.b == Bind(true, Some(0), 1, [Fresh], [0])
  {
    s, es := OpenRun();
    s, es := CalmExtend(es, s, CallReceive(1));
    s, es := CalmExtend(es, s, Step(1));
  }

  lemma ReadFails() returns (s: Sys, es: seq<Event>)
    ensures Calm(es, s) && s.threads == map[1 := Entering(RecvRetry(false), 1)] && s.writer.None?
    ensures s.b == Bind(true, Some(0), 1, [Fresh], [0])
  {
    s, es := ReceiveReads();
    s, es := CalmExtend(es, s, ReadReturns(1, NetError(0)));
    s, es := CalmExtend(es, s, Step(1));
  }

  const AfterFailure := Bind(true, None, 1, [Fresh.(closed := true)], [0])

  /** A read has failed, and receive is in the unlocked gap of its redial. */
  lemma ReceiveRedials() returns (s: Sys, es: seq<Event>)
    ensures Calm(es, s) && s.writer.None? && s.b == AfterFailure
    ensures s.threads == map[1 := Dialing(RecvRetry(false))]
  {
    s, es := ReadFails();
    s, es := CalmExtend(es, s, Step(1));
  }

  // ---- two dials at once lose a connection ----

  lemma SendFindsNone() returns (s: Sys, es: seq<Event>)
    ensures Run(Start, es) == Some(s) && s.b == AfterFailure
    ensures s.threads == map[1 := Dialing(RecvRetry(false)), 2 := Entering(SendNil([], 0), 0)]
  {
    s, es := ReceiveRedials();
    s, es := Extend(es, s, CallSend(2, []));
    s, es := Extend(es, s, Lock(2));
    s, es := Extend(es, s, Step(2));
  }

  /** sendOne dials as well, and both dials return. */
  lemma BothDialed() returns (s: Sys, es: seq<Event>)
    ensures Run(Start, es) == Some(s) && s.b == AfterFailure.(conns := AfterFailure.conns + [Fresh] + [Fresh])
    ensures s.threads == map[1 := Finishing(RecvRetry(false), 1), 2 := Finishing(SendNil([], 0), 2)]
  {
    s, es := SendFindsNone();
    s, es := Extend(es, s, Step(2));
    s, es := Extend(es, s, DialReturns(1, DialOk));
    s, es := Extend(es, s, DialReturns(2, DialOk));
  }

  /** receive installs its connection first. */
  lemma FirstInstalls() returns (s: Sys, es: seq<Event>)
    ensures Run(Start, es) == Some(s) && |s.b.installed| == 2
    ensures s.b.open && s.b.conn == Some(1) && 2 in s.threads && s.threads[2] == Finishing(SendNil([], 0), 2)
  {
    s, es := BothDialed();
    s, es := Extend(es, s, Step(1));
  }

  /** Without the restriction on overlap, conservation fails: a reachable state has lost one. */
  lemma OverlappingDialsLoseOne()
    ensures exists es :: Run(Start, es).Some? && 1 in Lost(Run(Start, es).value)
  {
    var s, es := FirstInstalls();
    RunKeepsInv(Start, es);
    StepLoses(s, Step(2));
    s, es := Extend(es, s, Step(2));
  }

  // ---- receive reads from nil ----

  /** The redial has failed too: the bind is open and has no connection. */
  lemma RedialFails() returns (s: Sys, es: seq<Event>)
    ensures Calm(es, s) && s.writer.None? && s.b == AfterFailure && s.threads == map[]
  {
    s, es := ReceiveRedials();
    s, es := CalmExtend(es, s, DialReturns(1, DialFailed));
  }

  /** The next receive finds no connection and dials. */
  lemma ReceiveDials() returns (s: Sys, es: seq<Event>)
    ensures Calm(es, s) && s.writer.None? && s.b == AfterFailure
    ensures s.threads == map[1 := Dialing(RecvNil)]
  {
    s, es := RedialFails();
    s, es := CalmExtend(es, s, CallReceive(1));
    assert s.threads == map[1 := RecvStart];
    s, es := CalmExtend(es, s, Step(1));
    s, es := CalmExtend(es, s, Step(1));
  }

  lemma SendWaits() returns (s: Sys, es: seq<Event>)
    ensures Calm(es, s) && s.b == AfterFailure && s.writer.None?
    ensures s.threads == map[1 := Dialing(RecvNil), 2 := AwaitLock([])]
  {
    s, es := ReceiveDials();
    s, es := CalmExtend(es, s, CallSend(2, []));
  }

  /** A sendOne has found no connection as well, and waits to enter its own dial. */
  lemma SendIsLate() returns (s: Sys, es: seq<Event>)
    ensures Calm(es, s) && s.b == AfterFailure
    ensures s.threads == map[1 := Dialing(RecvNil), 2 := Entering(SendNil([], 0), 0)]
  {
    s, es := SendWaits();
    s, es := CalmExtend(es, s, Lock(2));
    s, es := CalmExtend(es, s, Step(2));
  }

  lemma ReceiveHasDialed() returns (s: Sys, es: seq<Event>)
    ensures Calm(es, s) && s.b == Dialed(AfterFailure)
    ensures s.threads == map[1 := Finishing(RecvNil, 1), 2 := Entering(SendNil([], 0), 0)]
  {
    s, es := SendIsLate();
    s, es := CalmExtend(es, s, DialReturns(1, DialOk));
  }

  lemma ReceiveInstalls() returns (s: Sys, es: seq<Event>)
    ensures Calm(es, s) && s.b.open && s.b.conn == Some(1)
    ensures s.threads == map[1 := RecvAgain, 2 := Entering(SendNil([], 0), 0)]
  {
    s, es := ReceiveHasDialed();
    s, es := CalmExtend(es, s, Step(1));
  }

  /** receive has installed its connection; the sender's dial closes it before receive looks again. */
  lemma SenderClearsConn() returns (s: Sys, es: seq<Event>)
    ensures Calm(es, s) && s.b.open && s.b.conn.None?
    ensures s.threads == map[1 := RecvAgain, 2 := Dialing(SendNil([], 0))]
  {
    s, es := ReceiveInstalls();
    s, es := CalmExtend(es, s, Step(2));
  }

  /**
   receive can read from nil and panic, with no Close, no second Open and no two dials between
   their regions at once: the dial of a sendOne that came to it late is enough.
   */
  lemma ReceiveCanReadNil()
    ensures exists es, s :: Calm(es, s) && s.b.open && 1 in s.threads && s.threads[1].Panicked?
  {
    var s, es := SenderClearsConn();
    s, es := CalmExtend(es, s, Step(1));
    s, es := CalmExtend(es, s, Step(1));
  }

  // ---- what ErrClosed means ----

  lemma CutAtOnce()
    ensures AfterWrite(Fresh, [], Cut(0)) == Fresh
  {
    assert Fresh.log + Frame([])[..0] == Fresh.log && Fresh.cut + Frame([])[..0] == Fresh.cut;
  }

  lemma SendArrives() returns (s: Sys, es: seq<Event>)
    ensures Calm(es, s) && s.writer.None? && s.b == Bind(true, Some(0), 1, [Fresh], [0])
    ensures s.threads == map[1 := Reading(Some(0), 1, Header), 2 := AwaitLock([])]
  {
    s, es := ReceiveReads();
    s, es := CalmExtend(es, s, CallSend(2, []));
  }

  /** receive reads connection 0, and sendOne is about to write to it. */
  lemma WriteUnderRead() returns (s: Sys, es: seq<Event>)
    ensures Calm(es, s) && s.b == Bind(true, Some(0), 1, [Fresh], [0])
    ensures s.threads == map[1 := Reading(Some(0), 1, Header), 2 := Writing([], 0, 0, 1)]
  {
    s, es := SendArrives();
    s, es := CalmExtend(es, s, Lock(2));
    s, es := CalmExtend(es, s, Step(2));
  }

  /** The write fails, and the sender's dial closes connection 0. */
  lemma SenderCutsRead() returns (s: Sys, es: seq<Event>)
    ensures Calm(es, s) && s.b == AfterFailure
    ensures s.threads == map[1 := Reading(Some(0), 1, Header), 2 := Dialing(SendRetry([], 0))]
  {
    s, es := WriteUnderRead();
    s, es := CalmExtend(es, s, Write(2, Cut(0)));
    CutAtOnce();
    s, es := CalmExtend(es, s, Step(2));
  }

  lemma ReadIsCut() returns (s: Sys, es: seq<Event>)
    ensures Calm(es, s) && s.b == AfterFailure
    ensures s.threads == map[1 := ReadFailed(0, 1, true), 2 := Dialing(SendRetry([], 0))]
  {
    s, es := SenderCutsRead();
    s, es := CalmExtend(es, s, ReadReturns(1, ClosedError(0)));
  }

  /** The read has ended, and the sender installs the next connection. */
  lemma SenderReconnects() returns (s: Sys, es: seq<Event>)
    ensures Calm(es, s) && s.b.open && s.b.connGen == 2
    ensures s.threads == map[1 := ReadFailed(0, 1, true), 2 := LoopHead([], 1)]
  {
    s, es := ReadIsCut();
    s, es := CalmExtend(es, s, DialReturns(2, DialOk));
    s, es := CalmExtend(es, s, Step(2));
  }

  /** receive can return ErrClosed from a bind that nobody has closed. */
  lemma ErrClosedWithoutClose()
    ensures exists es, s :: Calm(es, s) && s.b.open && Next(s, Step(1)).Some? &&
              Returned(s, Step(1), 1) == Some(ReadError(true))
  {
    var s, es := SenderReconnects();
    s, es := CalmExtend(es, s, Step(1));
  }

  /** receive can be told of a failed dial when Close has been called. */
  lemma CloseWithoutErrClosed()
    ensures exists es, s :: Run(Start, es) == Some(s) && CallClose in es && !s.b.open &&
              Next(s, DialReturns(1, DialFailed)).Some? &&
              Returned(s, DialReturns(1, DialFailed), 1) == Some(DialError(DialFailed))
  {
    var s, es := ReceiveDials();
    s, es := Extend(es, s, CallClose);
  }

  // ---- receive out of step ----

  /** A datagram whose bytes begin like a frame. */
  const FrameInside: Datagram := [0, 1, 7]

  /** What has become of the bytes on connection 0, if they are the frame of that datagram. */
  ghost predicate Reading0(es: seq<Event>, s: Sys, st: Stream) {
    Run(Start, es) == Some(s) && Follow(Untouched(Frames([FrameInside])), Start, es, 0) == Some(st)
  }

  lemma {:induction false} NothingTaken(st: Stream, s: Sys, es: seq<Event>, c: nat)
    requires Run(s, es).Some? && forall e :: e in es ==> !e.ReadReturns?
    ensures Follow(st, s, es, c) == Some(st)
    decreases |es|
  {
    if es != [] {
      NothingTaken(st, Next(s, es[0]).value, es[1..], c);
    }
  }

  lemma WireBytes()
    ensures Frames([FrameInside]) == [0, 3, 0, 1, 7]
  {
    assert Frames([FrameInside]) == Frame(FrameInside) + Frames([]);
  }

  lemma ReadExtend(es: seq<Event>, s: Sys, st: Stream, e: Event) returns (s': Sys, es': seq<Event>, st': Stream)
    requires Reading0(es, s, st) && Next(s, e).Some? && Take(st, s, e, 0).Some?
    ensures s' == Next(s, e).value && st' == Take(st, s, e, 0).value && es' == es + [e] && Reading0(es', s', st')
  {
    s', es', st' := Next(s, e).value, es + [e], Take(st, s, e, 0).value;
    FollowSnoc(Untouched(Frames([FrameInside])), Start, es, e, 0);
  }

  /** Two calls of receive read connection 0. */
  lemma TwoReceives() returns (s: Sys, es: seq<Event>)
    ensures Run(Start, es) == Some(s) && forall e :: e in es ==> !e.ReadReturns? && !e.CallClose?
    ensures s.threads == map[1 := Reading(Some(0), 1, Header), 2 := Reading(Some(0), 1, Header)]
    ensures s.b == Bind(true, Some(0), 1, [Fresh], [0])
  {
    s, es := ReceiveReads();
    s, es := Extend(es, s, CallReceive(2));
    s, es := Extend(es, s, Step(2));
  }

  lemma HeaderThenHeader() returns (s: Sys, es: seq<Event>, st: Stream)
    ensures Reading0(es, s, st) && (forall e :: e in es ==> !e.CallClose?)
    ensures st == Untouched([7]) && s.b == Bind(true, Some(0), 1, [Fresh], [0])
    ensures s.threads == map[1 := Reading(Some(0), 1, Body(3, 3)), 2 := Reading(Some(0), 1, Body(1, 3))]
  {
    s, es := TwoReceives();
    st := Untouched(Frames([FrameInside]));
    NothingTaken(st, Start, es, 0);
    WireBytes();
    s, es, st := ReadExtend(es, s, st, ReadReturns(1, GotHeader(3, 3)));
    assert st.pending == [0, 1, 7];
    s, es, st := ReadExtend(es, s, st, ReadReturns(2, GotHeader(1, 3)));
  }

  /**
   Two calls of receive that overlap can take a datagram nobody sent, with no read failing: one
   reads the header, and the other takes the body for a frame.
   */
  lemma OverlappingReceivesMisread()
    ensures exists es, s, st :: Reading0(es, s, st) && CallClose !in es && !st.adrift && !st.broken &&
              st.got == [Packet([7])] && !InOrder(st.got, st.sizes, [FrameInside])
  {
    var s, es, st := HeaderThenHeader();
    s, es, st := ReadExtend(es, s, st, ReadReturns(2, GotRest));
    assert st.got[0] == Packet([7]);
  }

  lemma DrainBegins() returns (s: Sys, es: seq<Event>, st: Stream)
    ensures Calm(es, s) && Reading0(es, s, st) && st == Untouched([0, 1, 7])
    ensures s.b == Bind(true, Some(0), 1, [Fresh], [0]) && s.threads == map[1 := Reading(Some(0), 1, Drain(3, 2))]
  {
    s, es := ReceiveReads();
    st := Untouched(Frames([FrameInside]));
    NothingTaken(st, Start, es, 0);
    WireBytes();
    s, es, st := CalmReadExtend(es, s, st, ReadReturns(1, GotHeader(3, 2)));
  }

  lemma DrainBreaksOff() returns (s: Sys, es: seq<Event>, st: Stream)
    ensures Calm(es, s) && Reading0(es, s, st)
    ensures st == Stream([0, 1, 7], [Oversized(3)], [2], false, true)
    ensures s.b == Bind(true, Some(0), 1, [Fresh], [0]) && s.threads == map[]
  {
    s, es, st := DrainBegins();
    s, es, st := CalmReadExtend(es, s, st, ReadReturns(1, NetError(0)));
  }

  /** receive has given up draining the frame, which is too big, and the next call reads. */
  lemma NextCallReads() returns (s: Sys, es: seq<Event>, st: Stream)
    ensures Calm(es, s) && Reading0(es, s, st)
    ensures st == Stream([0, 1, 7], [Oversized(3)], [2], false, true)
    ensures s.b == Bind(true, Some(0), 1, [Fresh], [0]) && s.threads == map[1 := Reading(Some(0), 1, Header)]
  {
    s, es, st := DrainBreaksOff();
    s, es, st := CalmReadExtend(es, s, st, CallReceive(1));
    s, es, st := CalmReadExtend(es, s, st, Step(1));
  }

  lemma CalmReadExtend(es: seq<Event>, s: Sys, st: Stream, e: Event) returns (s': Sys, es': seq<Event>, st': Stream)
    requires Calm(es, s) && Reading0(es, s, st) && Next(s, e).Some? && Take(st, s, e, 0).Some?
    requires e != CallClose && OneDialAtATime(Next(s, e).value) && OneReceive(Next(s, e).value)
    ensures s' == Next(s, e).value && st' == Take(st, s, e, 0).value && Calm(es', s') && Reading0(es', s', st')
  {
    s', es' := CalmExtend(es, s, e);
    s', es', st' := ReadExtend(es, s, st, e);
  }

  /**
   "Drain the frame so we stay in sync" fails if the read of the drain does: nobody dials, and the
   next call takes the middle of the frame for a datagram.
   */
  lemma BrokenDrainMisreads()
    ensures exists es, s, st :: Calm(es, s) && Reading0(es, s, st) && !st.broken &&
              st.got == [Oversized(3), Packet([7])] && !InOrder(st.got, st.sizes, [FrameInside])
  {
    var s, es, st := NextCallReads();
    s, es, st := CalmReadExtend(es, s, st, ReadReturns(1, GotHeader(1, 2)));
    assert st.pending == [7];
    s, es, st := CalmReadExtend(es, s, st, ReadReturns(1, GotRest));
    assert st.got[1] == Packet([7]);
  }
}
