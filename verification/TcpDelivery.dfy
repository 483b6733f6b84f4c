/** End-to-end delivery, and the other safety theorems over whole runs of the TCPBind protocol. */
module TcpDelivery {
  import opened Framing
  import opened TcpProtocol
  import opened TcpSafety
  import opened Receiver

  // ---- what is on each connection ----

  ghost predicate ShapeOk(conn: Conn, failed: bool) {
    && conn.log == Frames(conn.whole) + conn.cut
    && Decode(conn.cut) == Decoded([], conn.cut)
    && (!failed ==> conn.cut == [])
  }

  ghost predicate ShapesOk(s: Sys) {
    forall c :: 0 <= c < |s.b.conns| ==> ShapeOk(s.b.conns[c], c in s.failed)
  }

  lemma WriteKeepsShape(conn: Conn, p: Datagram, w: WriteOutcome)
    requires ShapeOk(conn, false) && (w.Cut? ==> w.k < |Frame(p)|)
    ensures ShapeOk(AfterWrite(conn, p, w), w.Cut?)
  {
    match w
    case Wrote =>
      FramesAppend(conn.whole, p);
      assert conn.log + Frame(p) == Frames(conn.whole + [p]) + [];
    case Cut(k) =>
      CutFrameDecodesToNothing(p, k);
      assert conn.log + Frame(p)[..k] == Frames(conn.whole) + ([] + Frame(p)[..k]);
      assert [] + Frame(p)[..k] == Frame(p)[..k];
  }

  lemma ShapeDecodes(conn: Conn, failed: bool)
    requires ShapeOk(conn, failed)
    ensures Decode(conn.log) == Decoded(conn.whole, conn.cut)
  {
    DecodeFrames(conn.whole, conn.cut);
  }

  // ---- what has been written whole, in generation order ----

  ghost function Written(cs: seq<Conn>): seq<Datagram> {
    if cs == [] then [] else Written(cs[..|cs| - 1]) + cs[|cs| - 1].whole
  }

  lemma {:induction false} WrittenSame(cs: seq<Conn>, cs': seq<Conn>)
    requires |cs| == |cs'| && forall i :: 0 <= i < |cs| ==> cs[i].whole == cs'[i].whole
    ensures Written(cs) == Written(cs')
  {
    if cs != [] {
      WrittenSame(cs[..|cs| - 1], cs'[..|cs| - 1]);
    }
  }

  lemma {:induction false} WrittenPrefix(cs: seq<Conn>, k: nat)
    requires k <= |cs| && forall i :: k <= i < |cs| ==> cs[i].whole == []
    ensures Written(cs) == Written(cs[..k])
  {
    if k == |cs| {
      assert cs[..k] == cs;
    } else {
      WrittenPrefix(cs[..|cs| - 1], k);
      assert cs[..|cs| - 1][..k] == cs[..k];
    }
  }

  lemma WrittenSnoc(cs: seq<Conn>, c: Conn)
    ensures Written(cs + [c]) == Written(cs) + c.whole
  {
    assert (cs + [c])[..|cs|] == cs;
  }

  /** One more datagram on connection k, when no later one has any. */
  lemma WrittenOneMore(cs: seq<Conn>, k: nat, c: Conn, p: Datagram)
    requires k < |cs| && c.whole == cs[k].whole + [p]
    requires forall i :: k < i < |cs| ==> cs[i].whole == []
    ensures Written(cs[k := c]) == Written(cs) + [p]
  {
    WrittenPrefix(cs, k + 1);
    WrittenPrefix(cs[k := c], k + 1);
    WrittenSnoc(cs[..k], cs[k]);
    WrittenSnoc(cs[..k], c);
    assert cs[..k + 1] == cs[..k] + [cs[k]];
    assert cs[k := c][..k + 1] == cs[..k] + [c];
  }

  // ---- the effect of one step ----

  /** The same bytes on every connection, and perhaps one more install of an unused one. */
  ghost predicate SameBytes(b: Bind, b': Bind) {
    && |b.conns| <= |b'.conns| <= |b.conns| + 1
    && (forall c :: 0 <= c < |b.conns| ==>
          && b'.conns[c].log == b.conns[c].log
          && b'.conns[c].whole == b.conns[c].whole
          && b'.conns[c].cut == b.conns[c].cut)
    && (|b.conns| < |b'.conns| ==> b'.conns[|b.conns|] == Fresh)
    && (|| b'.installed == b.installed
        || exists c: nat :: c < |b.conns| && Unused(b.conns[c]) && b'.installed == b.installed + [c])
  }

  lemma AfterDialTouchesThreadsOnly(s: Sys, t: nat, caller: Caller, r: DialResult)
    ensures var s' := AfterDial(s, t, caller, r); s'.b == s.b && s'.sent == s.sent && s'.failed == s.failed
  {
  }

  /** The bind after a possible event. */
  function BindAfter(s: Sys, e: Event): Bind
    requires Next(s, e).Some?
  {
    match e
    case CallOpen(_) => s.b.(open := true)
    case CallClose => CloseBind(s.b)
    case Step(t) =>
      var pc := s.threads[t];
      if pc.Entering? then DialEnter(s.b, pc.staleGen).0
      else if pc.Finishing? then DialFinish(s.b, pc.c).0
      else if pc.Reverting? then s.b.(open := false)
      else s.b
    case Write(t, w) => WriteFrame(s.b, s.threads[t].c, s.threads[t].p, w)
    case DialReturns(_, r) => if r.DialOk? then Dialed(s.b) else s.b
    case _ => s.b
  }

  lemma StepBind(s: Sys, e: Event)
    requires Next(s, e).Some?
    ensures Next(s, e).value.b == BindAfter(s, e)
    ensures !e.Write? ==> Next(s, e).value.sent == s.sent && Next(s, e).value.failed == s.failed
  {
    if e.Step? && s.threads[e.t].Finishing? {
      var pc := s.threads[e.t];
      var (b', installed) := DialFinish(s.b, pc.c);
      AfterDialTouchesThreadsOnly(s.(b := b'), e.t, pc.caller, if installed then DialOk else DialClosed);
    } else if e.Step? && s.threads[e.t].Entering? {
      AfterDialTouchesThreadsOnly(s, e.t, s.threads[e.t].caller, DialOk);
      AfterDialTouchesThreadsOnly(s, e.t, s.threads[e.t].caller, DialClosed);
    } else if e.DialReturns? {
      AfterDialTouchesThreadsOnly(s, e.t, s.threads[e.t].caller, e.answer);
    }
  }

  /** Only a Write puts bytes on a connection. */
  lemma OnlyWritesWrite(s: Sys, e: Event)
    requires Inv(s) && Next(s, e).Some? && !e.Write?
    ensures var s' := Next(s, e).value; SameBytes(s.b, s'.b) && s'.sent == s.sent && s'.failed == s.failed
  {
    StepBind(s, e);
    if e.Step? {
      assert PcOk(s.b, s.failed, s.threads[e.t]);
    }
  }

  ghost predicate Delivering(s: Sys) {
    && Inv(s)
    && ShapesOk(s)
    && Written(ByGeneration(s.b)) == s.sent
  }

  lemma SameBytesSameWritten(b: Bind, b': Bind)
    requires InstalledExist(b) && InstalledExist(b') && SameBytes(b, b')
    ensures Written(ByGeneration(b')) == Written(ByGeneration(b))
  {
    var cs, cs' := ByGeneration(b), ByGeneration(b');
    WrittenPrefix(cs', |cs|);
    WrittenSame(cs'[..|cs|], cs);
  }

  lemma WriteKeepsShapes(s: Sys, t: nat, w: WriteOutcome)
    requires Inv(s) && ShapesOk(s) && Next(s, Write(t, w)).Some?
    ensures ShapesOk(Next(s, Write(t, w)).value)
  {
    var pc := s.threads[t];
    assert PcOk(s.b, s.failed, pc);
    WriteKeepsShape(s.b.conns[pc.c], pc.p, w);
    assert forall c :: 0 <= c < |s.b.conns| ==> ShapeOk(s.b.conns[c], c in s.failed);
  }

  lemma WriteChangesOne(b: Bind, gen: nat, p: Datagram, w: WriteOutcome)
    requires BindOk(b) && 1 <= gen <= |b.installed|
    requires PossibleWrite(b, b.installed[gen - 1], p, w)
    ensures var b' := WriteFrame(b, b.installed[gen - 1], p, w);
            && InstalledExist(b')
            && ByGeneration(b') == ByGeneration(b)[gen - 1 := AfterWrite(b.conns[b.installed[gen - 1]], p, w)]
  {
  }

  lemma WriteIsDelivered(b: Bind, gen: nat, p: Datagram, w: WriteOutcome)
    requires BindOk(b) && 1 <= gen <= |b.installed| && NoneLater(b, gen)
    requires PossibleWrite(b, b.installed[gen - 1], p, w)
    ensures var b' := WriteFrame(b, b.installed[gen - 1], p, w);
            && InstalledExist(b')
            && Written(ByGeneration(b')) == Written(ByGeneration(b)) + if w.Wrote? then [p] else []
  {
    var c := b.installed[gen - 1];
    var cs, conn' := ByGeneration(b), AfterWrite(b.conns[c], p, w);
    WriteChangesOne(b, gen, p, w);
    if w.Wrote? {
      WrittenOneMore(cs, gen - 1, conn', p);
    } else {
      WrittenSame(cs, cs[gen - 1 := conn']);
    }
  }

  lemma SameBytesSameShapes(s: Sys, s': Sys)
    requires ShapesOk(s) && SameBytes(s.b, s'.b) && s'.failed == s.failed
    ensures ShapesOk(s')
  {
    forall c | 0 <= c < |s'.b.conns|
      ensures ShapeOk(s'.b.conns[c], c in s.failed)
    {
      assert c < |s.b.conns| ==> ShapeOk(s.b.conns[c], c in s.failed);
    }
  }

  /** What a write leaves of the bind and of sent. */
  lemma WriteSets(s: Sys, t: nat, w: WriteOutcome)
    requires Inv(s) && Next(s, Write(t, w)).Some?
    ensures var pc, s' := s.threads[t], Next(s, Write(t, w)).value;
            && 1 <= pc.gen <= |s.b.installed| && pc.c == s.b.installed[pc.gen - 1] && NoneLater(s.b, pc.gen)
            && s'.b == WriteFrame(s.b, pc.c, pc.p, w) && s'.sent == s.sent + if w.Wrote? then [pc.p] else []
  {
    assert PcOk(s.b, s.failed, s.threads[t]);
    assert s.sent + [] == s.sent;
  }

  lemma WriteDelivers(s: Sys, t: nat, w: WriteOutcome)
    requires Delivering(s) && Next(s, Write(t, w)).Some?
    ensures var s' := Next(s, Write(t, w)).value;
            InstalledExist(s'.b) && Written(ByGeneration(s'.b)) == s'.sent
  {
    WriteSets(s, t, w);
    WriteIsDelivered(s.b, s.threads[t].gen, s.threads[t].p, w);
  }

  /** Every step keeps delivery. */
  lemma NextDelivers(s: Sys, e: Event)
    requires Delivering(s) && Next(s, e).Some?
    requires |Next(s, e).value.b.installed| < GENERATIONS
    ensures Delivering(Next(s, e).value)
  {
    NextKeepsInv(s, e);
    if e.Write? {
      WriteKeepsShapes(s, e.t, e.w);
      WriteDelivers(s, e.t, e.w);
    } else {
      OnlyWritesWrite(s, e);
      SameBytesSameShapes(s, Next(s, e).value);
      SameBytesSameWritten(s.b, Next(s, e).value.b);
    }
  }

  // ---- whole runs ----

  lemma GenerationsOnlyGrow(s: Sys, e: Event)
    requires Next(s, e).Some?
    ensures |s.b.installed| <= |Next(s, e).value.b.installed|
  {
  }

  lemma {:induction false} InstallsOnlyGrow(s: Sys, es: seq<Event>)
    requires Run(s, es).Some?
    ensures |s.b.installed| <= |Run(s, es).value.b.installed|
    decreases |es|
  {
    if es != [] {
      GenerationsOnlyGrow(s, es[0]);
      InstallsOnlyGrow(Next(s, es[0]).value, es[1..]);
    }
  }

  lemma {:induction false} RunDelivers(s: Sys, es: seq<Event>)
    requires Delivering(s) && Run(s, es).Some?
    requires |Run(s, es).value.b.installed| < GENERATIONS
    ensures Delivering(Run(s, es).value)
    decreases |es|
  {
    if es != [] {
      var s' := Next(s, es[0]).value;
      InstallsOnlyGrow(s', es[1..]);
      NextDelivers(s, es[0]);
      RunDelivers(s', es[1..]);
    }
  }

  lemma StartDelivers()
    ensures Delivering(Start)
  {
  }

  lemma {:induction false} PeerViewIsWritten(cs: seq<Conn>)
    requires forall i :: 0 <= i < |cs| ==> ShapeOk(cs[i], true) || ShapeOk(cs[i], false)
    ensures PeerView(cs) == Written(cs)
  {
    if cs != [] {
      PeerViewIsWritten(cs[..|cs| - 1]);
      ShapeDecodes(cs[|cs| - 1], true);
    }
  }

  /**
   End-to-end delivery: after any run, whatever writes failed and whenever anyone reconnected,
   the peer decodes exactly the datagrams whose sendOne returned nil, in order, each once.
   */
  lemma EndToEnd(es: seq<Event>)
    requires Run(Start, es).Some? && |Run(Start, es).value.b.installed| < GENERATIONS
    ensures var s := Run(Start, es).value;
            InstalledExist(s.b) && PeerView(ByGeneration(s.b)) == s.sent
  {
    StartDelivers();
    RunDelivers(Start, es);
    var s := Run(Start, es).value;
    assert forall c :: 0 <= c < |s.b.conns| ==> ShapeOk(s.b.conns[c], c in s.failed);
    PeerViewIsWritten(ByGeneration(s.b));
  }

  /**
   Each connection carries the whole frames of its successful writes and then at most one cut
   frame, the cut frame only if a write to it failed.
   */
  lemma LogIsFramesThenOneCut(es: seq<Event>, c: nat)
    requires Run(Start, es).Some? && |Run(Start, es).value.b.installed| < GENERATIONS
    requires c < |Run(Start, es).value.b.conns|
    ensures var s := Run(Start, es).value;
            var conn := s.b.conns[c];
            && conn.log == Frames(conn.whole) + conn.cut
            && CutFrame(conn.cut)
            && (c !in s.failed ==> conn.cut == [])
  {
    StartDelivers();
    RunDelivers(Start, es);
    CutFrameIffNothingDecoded(Run(Start, es).value.b.conns[c].cut);
  }

  /**
   The same with the receiver of this program at the other end and buffers of any sizes: on each
   connection it takes out the datagrams of the successful writes, in order, each one too big for
   its buffer as an error, and then finds no further one.
   */
  lemma PeerReceivesWhatWasWritten(es: seq<Event>, c: nat, sizes: seq<nat>, size: nat)
    requires Run(Start, es).Some? && |Run(Start, es).value.b.installed| < GENERATIONS
    requires c < |Run(Start, es).value.b.conns|
    requires |sizes| == |Run(Start, es).value.b.conns[c].whole|
    ensures var conn := Run(Start, es).value.b.conns[c];
            var (rs, rest) := ReceiveAll(conn.log, sizes);
            && |rs| == |conn.whole|
            && (forall i :: 0 <= i < |rs| ==> rs[i] == Expected(conn.whole[i], sizes[i]))
            && !ReceiveFrame(rest, size).0.Packet?
  {
    StartDelivers();
    RunDelivers(Start, es);
    var s := Run(Start, es).value;
    var conn := s.b.conns[c];
    assert ShapeOk(conn, c in s.failed);
    ReceiverStaysInStep(conn.whole, conn.cut, sizes);
    CutFrameBreaks(conn.cut, size);
  }
}
