/**
 A call that nothing overlaps is a run of the interleaved protocol: the call, then steps of its own
 thread, in which the network answers as the script says.
 */
module TcpAlone {
  import opened Bytes
  import opened Framing
  import opened Receiver
  import opened TcpProtocol
  import opened TcpSafety
  import opened TcpDelivery
  import opened TcpConnections
  import opened TcpProgress
  import opened TcpSequential

  /** s' is reached from s by some run. */
  ghost predicate Reaches(s: Sys, s': Sys) {
    exists es :: Run(s, es) == Some(s')
  }

  lemma ReachesTrans(s: Sys, s': Sys, s'': Sys)
    requires Reaches(s, s') && Reaches(s', s'')
    ensures Reaches(s, s'')
  {
    var es :| Run(s, es) == Some(s');
    var fs :| Run(s', fs) == Some(s'');
    RunConcat(s, es, fs);
  }

  // ---- the steps of one thread, with the answers it gets ----

  /** How a dial ends that the script lets end so. */
  function AnswerOf(io: Io): DialResult {
    if io.Succeeds? then DialOk else if io.errClosed then DialClosed else DialFailed
  }

  /** What is left of a script after the answers to a dial and to writes, and what the reads gave. */
  datatype Trace = Trace(rest: seq<Io>, inputs: seq<ReadOutcome>)

  /** None if the answers in es are not those of the script. A write may fail on a closed connection. */
  function Answers(es: seq<Event>, script: seq<Io>): Option<Trace>
    decreases |es|
  {
    if es == [] then Some(Trace(script, []))
    else
      match es[0]
      case Write(_, w) => if w.Wrote? && First(script).Fails? then None else Answers(es[1..], Rest(script))
      case DialReturns(_, answer) => if answer != AnswerOf(First(script)) then None else Answers(es[1..], Rest(script))
      case ReadReturns(_, r) =>
        var more := Answers(es[1..], script);
        if more.None? then None else Some(Trace(more.value.rest, [r] + more.value.inputs))
      case _ => Answers(es[1..], script)
  }

  lemma {:induction false} AnswersConcat(es: seq<Event>, fs: seq<Event>, script: seq<Io>)
    requires Answers(es, script).Some?
    requires Answers(fs, Answers(es, script).value.rest).Some?
    ensures var a := Answers(es, script).value;
            var b := Answers(fs, a.rest).value;
            Answers(es + fs, script) == Some(Trace(b.rest, a.inputs + b.inputs))
    decreases |es|
  {
    if es == [] {
      assert es + fs == fs;
      var b := Answers(fs, script).value;
      assert [] + b.inputs == b.inputs;
    } else {
      assert (es + fs)[1..] == es[1..] + fs;
      var left := if es[0].Write? || es[0].DialReturns? then Rest(script) else script;
      AnswersConcat(es[1..], fs, left);
      if es[0].ReadReturns? {
        var a := Answers(es[1..], script).value;
        var b := Answers(fs, a.rest).value;
        assert [es[0].r] + (a.inputs + b.inputs) == [es[0].r] + a.inputs + b.inputs;
      }
    }
  }

  ghost predicate TakesSteps(s: Sys, es: seq<Event>, s': Sys, script: seq<Io>, trace: Trace) {
    && Run(s, es) == Some(s')
    && (forall i :: 0 <= i < |es| ==> IsStepOf(es[i], 0))
    && Answers(es, script) == Some(trace)
  }

  /** Thread 0 alone gets from s to s'. */
  ghost predicate Steps(s: Sys, s': Sys, script: seq<Io>, trace: Trace) {
    exists es :: TakesSteps(s, es, s', script, trace)
  }

  /** The call, and then steps of its thread alone, get from s to s'. */
  ghost predicate CallTakes(s: Sys, call: Event, s': Sys, script: seq<Io>, trace: Trace) {
    Next(s, call).Some? && Steps(Next(s, call).value, s', script, trace)
  }

  lemma OneStep(s: Sys, e: Event, script: seq<Io>)
    requires Next(s, e).Some? && IsStepOf(e, 0) && Answers([e], script).Some?
    ensures Steps(s, Next(s, e).value, script, Answers([e], script).value)
  {
    assert [e][1..] == [];
    assert TakesSteps(s, [e], Next(s, e).value, script, Answers([e], script).value);
  }

  /** A step that asks nothing of the network. */
  lemma QuietStep(s: Sys, e: Event, script: seq<Io>)
    requires Next(s, e).Some? && IsStepOf(e, 0) && (e.Lock? || e.Step?)
    ensures Steps(s, Next(s, e).value, script, Trace(script, []))
  {
    assert [e][1..] == [];
    OneStep(s, e, script);
  }

  lemma NetworkStep(s: Sys, e: Event, script: seq<Io>)
    requires Next(s, e).Some? && IsStepOf(e, 0)
    requires || (e.Write? && (e.w.Wrote? ==> First(script).Succeeds?))
             || (e.DialReturns? && e.answer == AnswerOf(First(script)))
    ensures Steps(s, Next(s, e).value, script, Trace(Rest(script), []))
  {
    assert [e][1..] == [];
    OneStep(s, e, script);
  }

  lemma ReadStep(s: Sys, e: Event, script: seq<Io>)
    requires Next(s, e).Some? && e.ReadReturns? && e.t == 0
    ensures Steps(s, Next(s, e).value, script, Trace(script, [e.r]))
  {
    assert [e][1..] == [];
    assert [e.r] + [] == [e.r];
    OneStep(s, e, script);
  }

  lemma NoStep(s: Sys, script: seq<Io>)
    ensures Steps(s, s, script, Trace(script, []))
  {
    assert TakesSteps(s, [], s, script, Trace(script, []));
  }

  lemma StepsTrans(s: Sys, s': Sys, s'': Sys, script: seq<Io>, a: Trace, b: Trace)
    requires Steps(s, s', script, a) && Steps(s', s'', a.rest, b)
    ensures Steps(s, s'', script, Trace(b.rest, a.inputs + b.inputs))
  {
    var es :| TakesSteps(s, es, s', script, a);
    var fs :| TakesSteps(s', fs, s'', a.rest, b);
    RunConcat(s, es, fs);
    AnswersConcat(es, fs, script);
    assert TakesSteps(s, es + fs, s'', script, Trace(b.rest, a.inputs + b.inputs));
  }

  /** The same where nothing is read. */
  lemma ThenSteps(s: Sys, s': Sys, s'': Sys, script: seq<Io>, mid: seq<Io>, rest: seq<Io>)
    requires Steps(s, s', script, Trace(mid, [])) && Steps(s', s'', mid, Trace(rest, []))
    ensures Steps(s, s'', script, Trace(rest, []))
  {
    StepsTrans(s, s', s'', script, Trace(mid, []), Trace(rest, []));
    var none: seq<ReadOutcome> := [];
    assert none + none == none;
  }

  lemma CallReaches(s: Sys, call: Event, s': Sys, script: seq<Io>, trace: Trace)
    requires CallTakes(s, call, s', script, trace)
    ensures Reaches(s, s')
  {
    var es :| TakesSteps(Next(s, call).value, es, s', script, trace);
    assert ([call] + es)[1..] == es;
    assert Run(s, [call] + es) == Some(s');
  }

  /** Only thread 0 is running, at pc. */
  ghost predicate Alone(s: Sys, pc: Pc) {
    s.threads == map[0 := pc]
  }

  lemma AloneGoto(s: Sys, pc: Pc, pc': Pc)
    requires Alone(s, pc)
    ensures Alone(Goto(s, 0, pc'), pc')
    ensures Return(s, 0).threads == map[]
  {
  }

  // ---- dial ----

  lemma DialReaches(s: Sys, caller: Caller, staleGen: nat, script: seq<Io>)
    requires Alone(s, Entering(caller, staleGen)) && ConnExists(s.b)
    ensures var (b', r, rest) := DialCall(s.b, staleGen, script);
            Steps(s, AfterDial(s.(b := b'), 0, caller, r), script, Trace(rest, []))
  {
    QuietStep(s, Step(0), script);
    var (b1, v) := DialEnter(s.b, staleGen);
    if v.Proceed? {
      DialGoesOn(s, Goto(s.(b := b1), 0, Dialing(caller)), caller, script);
      ThenSteps(s, Goto(s.(b := b1), 0, Dialing(caller)),
                AfterDial(s.(b := DialCall(s.b, staleGen, script).0), 0, caller, DialCall(s.b, staleGen, script).1),
                script, script, Rest(script));
    }
  }

  /** dial after its first region, up to its return. */
  lemma DialGoesOn(s0: Sys, s: Sys, caller: Caller, script: seq<Io>)
    requires 0 in s0.threads && s == Goto(s0.(b := s.b), 0, Dialing(caller)) && s.b.open
    ensures var r := AnswerOf(First(script));
            var b' := if r.DialOk? then DialFinish(Dialed(s.b), |s.b.conns|).0 else s.b;
            Steps(s, AfterDial(s0.(b := b'), 0, caller, r), script, Trace(Rest(script), []))
  {
    var r, c := AnswerOf(First(script)), |s.b.conns|;
    NetworkStep(s, DialReturns(0, r), script);
    if r.DialOk? {
      var s1 := Goto(s.(b := Dialed(s.b)), 0, Finishing(caller, c));
      var b' := DialFinish(s1.b, c).0;
      QuietStep(s1, Step(0), Rest(script));
      assert s1 == Goto(s0.(b := s1.b), 0, Finishing(caller, c));
      SameAfterDial(s0.(b := b'), 0, Finishing(caller, c), caller, DialOk);
      ThenSteps(s, s1, AfterDial(s0.(b := b'), 0, caller, DialOk), script, Rest(script), Rest(script));
    } else {
      SameAfterDial(s0.(b := s.b), 0, Dialing(caller), caller, r);
    }
  }

  // ---- sendOne ----

  /** The state after a call has returned: no thread, writeMu free. */
  ghost predicate Quiet(s: Sys) {
    s.threads == map[] && s.writer.None?
  }

  /** sendOne is at the head of its loop and thread 0 is alone with writeMu. */
  ghost predicate AtLoopHead(s: Sys, p: Datagram, attempt: nat) {
    Alone(s, LoopHead(p, attempt)) && s.writer == Some(0) && ConnExists(s.b)
  }

  /** A turn of the loop that finds no connection. */
  lemma DialTurn(s: Sys, p: Datagram, attempt: nat, script: seq<Io>) returns (s': Sys)
    requires AtLoopHead(s, p, attempt) && attempt < 3 && s.b.open && s.b.conn.None?
    ensures Steps(s, s', script, Trace(DialCall(s.b, 0, script).2, []))
    ensures s'.sent == s.sent && s'.b == DialCall(s.b, 0, script).0
    ensures if DialCall(s.b, 0, script).1.DialClosed? then Quiet(s') else AtLoopHead(s', p, attempt + 1)
  {
    var caller := SendNil(p, attempt);
    var (b1, r, rest) := DialCall(s.b, 0, script);
    var s1 := Goto(s, 0, Entering(caller, 0));
    QuietStep(s, Step(0), script);
    AloneGoto(s, LoopHead(p, attempt), Entering(caller, 0));
    DialReaches(s1, caller, 0, script);
    s' := AfterDial(s1.(b := b1), 0, caller, r);
    ThenSteps(s, s1, s', script, script, rest);
  }

  /** A turn of the loop that writes, up to the end of the write. */
  lemma WriteTurn(s: Sys, p: Datagram, attempt: nat, script: seq<Io>) returns (s': Sys)
    requires AtLoopHead(s, p, attempt) && attempt < 3 && s.b.open && s.b.conn.Some?
    ensures Steps(s, s', script, Trace(Rest(script), []))
    ensures var w := WriteResult(s.b.conns[s.b.conn.value], p, First(script));
            && s'.b == WriteFrame(s.b, s.b.conn.value, p, w)
            && if w.Wrote? then Quiet(s') && s'.sent == s.sent + [p]
               else Alone(s', Entering(SendRetry(p, attempt), s.b.connGen)) && s'.sent == s.sent && s'.writer == Some(0)
  {
    var w := WriteResult(s.b.conns[s.b.conn.value], p, First(script));
    var pc := Writing(p, attempt, s.b.conn.value, s.b.connGen);
    var s1 := Goto(s, 0, pc);
    QuietStep(s, Step(0), script);
    NetworkStep(s1, Write(0, w), script);
    AloneGoto(s, LoopHead(p, attempt), pc);
    s' := Next(s1, Write(0, w)).value;
    ThenSteps(s, s1, s', script, script, Rest(script));
  }

  /** A turn of the loop whose write fails. */
  lemma FailedWriteTurn(s: Sys, p: Datagram, attempt: nat, script: seq<Io>) returns (s': Sys)
    requires AtLoopHead(s, p, attempt) && attempt < 3 && s.b.open && s.b.conn.Some?
    requires WriteResult(s.b.conns[s.b.conn.value], p, First(script)).Cut?
    ensures var w := WriteResult(s.b.conns[s.b.conn.value], p, First(script));
            var (b', _, rest) := DialCall(WriteFrame(s.b, s.b.conn.value, p, w), s.b.connGen, Rest(script));
            s'.b == b' && Steps(s, s', script, Trace(rest, []))
    ensures AtLoopHead(s', p, attempt + 1) && s'.sent == s.sent
  {
    var caller := SendRetry(p, attempt);
    var s1 := WriteTurn(s, p, attempt, script);
    var (b2, r, rest) := DialCall(s1.b, s.b.connGen, Rest(script));
    DialReaches(s1, caller, s.b.connGen, Rest(script));
    s' := AfterDial(s1.(b := b2), 0, caller, r);
    ThenSteps(s, s1, s', script, Rest(script), rest);
  }

  lemma {:induction false} SendLoopReaches(s: Sys, p: Datagram, attempt: nat, script: seq<Io>) returns (s': Sys)
    requires AtLoopHead(s, p, attempt)
    ensures var (b', r, rest) := SendCall(s.b, p, attempt, script);
            && Steps(s, s', script, Trace(rest, []))
            && Quiet(s') && s'.b == b' && s'.sent == s.sent + if r.Sent? then [p] else []
    decreases 3 - attempt
  {
    if attempt >= 3 || !s.b.open {
      QuietStep(s, Step(0), script);
      s' := Return(s, 0);
    } else if s.b.conn.None? {
      var s1 := DialTurn(s, p, attempt, script);
      var rest := DialCall(s.b, 0, script).2;
      s' := s1;
      if !DialCall(s.b, 0, script).1.DialClosed? {
        s' := SendLoopReaches(s1, p, attempt + 1, rest);
        ThenSteps(s, s1, s', script, rest, SendCall(s1.b, p, attempt + 1, rest).2);
      }
    } else {
      var w := WriteResult(s.b.conns[s.b.conn.value], p, First(script));
      if w.Wrote? {
        s' := WriteTurn(s, p, attempt, script);
      } else {
        var s1 := FailedWriteTurn(s, p, attempt, script);
        var rest := DialCall(WriteFrame(s.b, s.b.conn.value, p, w), s.b.connGen, Rest(script)).2;
        s' := SendLoopReaches(s1, p, attempt + 1, rest);
        ThenSteps(s, s1, s', script, rest, SendCall(s1.b, p, attempt + 1, rest).2);
      }
    }
  }

  /**
   A whole call of sendOne is a run of the protocol: sent records its success, and the answers the
   run gets are those of the script up to what SendCall leaves of it.
   */
  lemma SendReaches(s: Sys, p: Datagram, script: seq<Io>) returns (s': Sys)
    requires Quiet(s) && ConnExists(s.b)
    ensures var (b', r, rest) := SendCall(s.b, p, 0, script);
            && CallTakes(s, CallSend(0, p), s', script, Trace(rest, []))
            && Quiet(s') && s'.b == b' && s'.sent == s.sent + if r.Sent? then [p] else []
  {
    var s1 := Goto(s, 0, AwaitLock(p));
    var s2 := Next(s1, Lock(0)).value;
    QuietStep(s1, Lock(0), script);
    assert s2.threads == map[0 := LoopHead(p, 0)];
    s' := SendLoopReaches(s2, p, 0, script);
    ThenSteps(s1, s2, s', script, script, SendCall(s.b, p, 0, script).2);
  }

  // ---- Open and Close ----

  lemma OpenReaches(s: Sys, script: seq<Io>) returns (s': Sys)
    requires Quiet(s) && ConnExists(s.b)
    ensures var (b', _, rest) := OpenCall(s.b, script);
            && CallTakes(s, CallOpen(0), s', script, Trace(rest, []))
            && Quiet(s') && s'.b == b' && s'.sent == s.sent
  {
    var s1 := Next(s, CallOpen(0)).value;
    s' := s1;
    if s.b.open {
      NoStep(s, script);
    } else {
      assert Alone(s1, Entering(Opening, s.b.connGen));
      var (b1, r, rest) := DialCall(s1.b, s.b.connGen, script);
      DialReaches(s1, Opening, s.b.connGen, script);
      s' := AfterDial(s1.(b := b1), 0, Opening, r);
      if !r.DialOk? {
        var s2 := s';
        QuietStep(s2, Step(0), rest);
        s' := Next(s2, Step(0)).value;
        ThenSteps(s1, s2, s', script, rest, rest);
      }
    }
  }

  lemma CloseReaches(s: Sys)
    ensures Reaches(s, s.(b := CloseBind(s.b)))
  {
    assert [CallClose][1..] == [];
    assert Run(s, [CallClose]) == Some(s.(b := CloseBind(s.b)));
  }

  // ---- receive ----

  /** receive up to its first read, or its return. */
  lemma ReceiveConnectReaches(s: Sys, script: seq<Io>) returns (s': Sys)
    requires Quiet(s) && ConnExists(s.b) && s.b.open
    ensures var (b', r, rest) := ReceiveConnects(s.b, script);
            && CallTakes(s, CallReceive(0), s', script, Trace(rest, []))
            && s'.writer.None? && s'.sent == s.sent && s'.b == b'
            && if r.DialOk? then Alone(s', Reading(s'.b.conn, s'.b.connGen, Header)) else Quiet(s')
  {
    var s1 := Goto(s, 0, RecvStart);
    QuietStep(s1, Step(0), script);
    s' := Next(s1, Step(0)).value;
    if s.b.conn.None? {
      var s2 := s';
      assert Alone(s2, Entering(RecvNil, 0));
      s' := ReceiveDialReaches(s2, script);
      ThenSteps(s1, s2, s', script, script, DialCall(s.b, 0, script).2);
    }
  }

  lemma ReceiveDialReaches(s: Sys, script: seq<Io>) returns (s': Sys)
    requires Alone(s, Entering(RecvNil, 0)) && s.writer.None? && ConnExists(s.b) && s.b.open
    ensures var (b', r, rest) := DialCall(s.b, 0, script);
            && Steps(s, s', script, Trace(rest, []))
            && s'.writer.None? && s'.sent == s.sent && s'.b == b'
            && if r.DialOk? then Alone(s', Reading(s'.b.conn, s'.b.connGen, Header)) else Quiet(s')
  {
    var (b1, r, rest) := DialCall(s.b, 0, script);
    DialReaches(s, RecvNil, 0, script);
    s' := AfterDial(s.(b := b1), 0, RecvNil, r);
    if r.DialOk? {
      var s1 := s';
      s' := LooksAgain(s1, rest);
      ThenSteps(s, s1, s', script, rest, rest);
    }
  }

  lemma LooksAgain(s: Sys, script: seq<Io>) returns (s': Sys)
    requires Alone(s, RecvAgain) && s.b.open
    ensures Steps(s, s', script, Trace(script, [])) && s'.b == s.b && s'.sent == s.sent && s'.writer == s.writer
    ensures Alone(s', Reading(s.b.conn, s.b.connGen, Header))
  {
    QuietStep(s, Step(0), script);
    s' := Next(s, Step(0)).value;
    AloneGoto(s, RecvAgain, Reading(s.b.conn, s.b.connGen, Header));
  }

  /** A frame as a buffer of this size can take it, or a broken read. */
  predicate Fits(f: Received, size: nat) {
    match f
    case Packet(p) => |p| <= size
    case Oversized(n) => size < n <= 0xFFFF
    case Broken => true
  }

  predicate Failed(r: ReadOutcome) {
    r.NetError? || r.ClosedError?
  }

  /** Reads that end in frame f: the header and the rest if there is any, or a read that fails. */
  function ReadsOf(f: Received, size: nat): (rs: seq<ReadOutcome>)
    ensures f.Broken? <==> exists i :: 0 <= i < |rs| && Failed(rs[i])
  {
    match f
    case Packet(p) => if p == [] then [GotHeader(0, size)] else [GotHeader(|p|, size), GotRest]
    case Oversized(n) => [GotHeader(n, size), GotRest]
    case Broken =>
      var rs := [NetError(0)];
      assert Failed(rs[0]);
      rs
  }

  /** The reading of a whole frame from the current connection, header and rest. */
  lemma ReadReaches(s: Sys, size: nat, f: Received, script: seq<Io>) returns (s': Sys)
    requires Alone(s, Reading(s.b.conn, s.b.connGen, Header)) && s.writer.None? && s.b.conn.Some? && Live(s.b)
    requires Fits(f, size) && !f.Broken?
    ensures Steps(s, s', script, Trace(script, ReadsOf(f, size)))
    ensures Quiet(s') && s'.sent == s.sent && s'.b == s.b
  {
    var n := if f.Packet? then |f.p| else f.n;
    var header := ReadReturns(0, GotHeader(n, size));
    ReadStep(s, header, script);
    s' := Next(s, header).value;
    if n != 0 {
      var s1 := s';
      AloneGoto(s, s.threads[0], s1.threads[0]);
      ReadStep(s1, ReadReturns(0, GotRest), script);
      s' := Next(s1, ReadReturns(0, GotRest)).value;
      StepsTrans(s, s1, s', script, Trace(script, [GotHeader(n, size)]), Trace(script, [GotRest]));
      assert [GotHeader(n, size)] + [GotRest] == [GotHeader(n, size), GotRest];
    }
  }

  /** receive after a failed read on an open bind. */
  lemma RedialReaches(s: Sys, c: nat, gen: nat, script: seq<Io>) returns (s': Sys)
    requires Alone(s, ReadFailed(c, gen, false)) && s.writer.None? && ConnExists(s.b) && s.b.open
    ensures var (b', _, rest) := DialCall(s.b, gen, script);
            s'.b == b' && Steps(s, s', script, Trace(rest, []))
    ensures Quiet(s') && s'.sent == s.sent
  {
    var caller := RecvRetry(false);
    var s1 := Goto(s, 0, Entering(caller, gen));
    QuietStep(s, Step(0), script);
    AloneGoto(s, ReadFailed(c, gen, false), Entering(caller, gen));
    var (b1, r, rest) := DialCall(s.b, gen, script);
    DialReaches(s1, caller, gen, script);
    s' := AfterDial(s1.(b := b1), 0, caller, r);
    ThenSteps(s, s1, s', script, script, rest);
  }

  /** A read that breaks off, and the redial. */
  lemma BrokenReadReaches(s: Sys, script: seq<Io>) returns (s': Sys)
    requires Alone(s, Reading(s.b.conn, s.b.connGen, Header)) && s.writer.None? && s.b.conn.Some? && Live(s.b)
    ensures var (b', _, rest) := DialCall(s.b, s.b.connGen, script);
            s'.b == b' && Steps(s, s', script, Trace(rest, [NetError(0)]))
    ensures Quiet(s') && s'.sent == s.sent
  {
    var pc := ReadFailed(s.b.conn.value, s.b.connGen, false);
    ReadStep(s, ReadReturns(0, NetError(0)), script);
    AloneGoto(s, s.threads[0], pc);
    var s1 := Goto(s, 0, pc);
    s' := RedialReaches(s1, pc.c, pc.gen, script);
    StepsTrans(s, s1, s', script, Trace(script, [NetError(0)]), Trace(DialCall(s.b, s.b.connGen, script).2, []));
    assert [NetError(0)] + [] == [NetError(0)];
  }

  /**
   A whole call of receive is a run of the protocol, whatever the state of the bind. Its reads are
   those of frame f, so that one of them fails exactly if f is broken.
   */
  lemma ReceiveReaches(s: Sys, size: nat, f: Received, script: seq<Io>) returns (s': Sys)
    requires Quiet(s) && ConnExists(s.b) && (s.b.conn.Some? ==> Live(s.b))
    requires Fits(f, size)
    ensures var (b', rest) := ReceiveCall(s.b, !f.Broken?, script);
            var inputs := if ReceiveConnects(s.b, script).1.DialOk? then ReadsOf(f, size) else [];
            && CallTakes(s, CallReceive(0), s', script, Trace(rest, inputs))
            && Quiet(s') && s'.sent == s.sent && s'.b == b'
  {
    var s1 := Goto(s, 0, RecvStart);
    if !s.b.open {
      QuietStep(s1, Step(0), script);
      s' := Return(s1, 0);
    } else {
      s' := ReceiveConnectReaches(s, script);
      var (b1, r, rest) := ReceiveConnects(s.b, script);
      if r.DialOk? {
        var s2 := s';
        if f.Broken? {
          s' := BrokenReadReaches(s2, rest);
        } else {
          s' := ReadReaches(s2, size, f, rest);
        }
        var trace := Trace(ReceiveCall(s.b, !f.Broken?, script).1, ReadsOf(f, size));
        StepsTrans(s1, s2, s', script, Trace(rest, []), trace);
        assert [] + trace.inputs == trace.inputs;
      }
    }
  }

  // ---- what holds between calls ----

  /** A state the protocol reaches from a new bind, with no call in flight. */
  ghost predicate Settled(s: Sys) {
    Reaches(Start, s) && Quiet(s) && |s.b.installed| < GENERATIONS
  }

  lemma SettledBind(s: Sys)
    requires Settled(s)
    ensures ConnExists(s.b) && (s.b.conn.Some? ==> Live(s.b)) && s.b.connGen == |s.b.installed|
  {
    var es :| Run(Start, es) == Some(s);
    GenerationSafety(es);
  }

  lemma SettledDelivers(s: Sys)
    requires Settled(s)
    ensures InstalledExist(s.b) && PeerView(ByGeneration(s.b)) == s.sent
  {
    var es :| Run(Start, es) == Some(s);
    EndToEnd(es);
  }

  lemma StaysSettled(s: Sys, s': Sys)
    requires Settled(s) && Reaches(s, s') && Quiet(s') && |s'.b.installed| < GENERATIONS
    ensures Settled(s')
  {
    ReachesTrans(Start, s, s');
  }

  lemma CallStaysSettled(s: Sys, call: Event, s': Sys, script: seq<Io>, trace: Trace)
    requires Settled(s) && CallTakes(s, call, s', script, trace) && Quiet(s') && |s'.b.installed| < GENERATIONS
    ensures Settled(s')
  {
    CallReaches(s, call, s', script, trace);
    StaysSettled(s, s');
  }
}
