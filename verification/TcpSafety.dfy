/** What every interleaving of the TCPBind protocol keeps. */
module TcpSafety {
  import opened Bytes
  import opened Framing
  import opened TcpProtocol

  type Threads = map<nat, Pc>

  // ---- the invariant ----

  /** The bind alone: generations count installs, and the current connection is the last one. */
  ghost predicate BindOk(b: Bind) {
    && b.connGen == |b.installed|
    && InstalledExist(b)
    && (forall i, j :: 0 <= i < j < |b.installed| ==> b.installed[i] != b.installed[j])
    && (b.conn.Some? ==> CurrentOk(b, b.conn.value))
    && (forall c :: 0 <= c < |b.conns| && c !in b.installed ==> Unused(b.conns[c]))
  }

  ghost predicate CurrentOk(b: Bind, c: nat) {
    && b.open
    && 0 < |b.installed| && c == b.installed[|b.installed| - 1]
    && c < |b.conns| && !b.conns[c].closed
  }

  predicate Unused(conn: Conn) {
    conn.log == [] && conn.whole == [] && conn.cut == []
  }

  /** No connection of a generation after gen has been written to. */
  ghost predicate NoneLater(b: Bind, gen: nat)
    requires InstalledExist(b)
  {
    forall i :: gen <= i < |b.installed| ==> Unused(b.conns[b.installed[i]])
  }

  /** Connection c is the one of generation gen. */
  ghost predicate Holds(b: Bind, c: nat, gen: nat) {
    1 <= gen <= |b.installed| && b.installed[gen - 1] == c
  }

  /** What a thread holds: a generation and its connection, or a connection of its own. */
  ghost predicate PcOk(b: Bind, failed: set<nat>, pc: Pc)
    requires InstalledExist(b)
  {
    && (pc.Writing? ==>
          && Holds(b, pc.c, pc.gen)
          && pc.c !in failed && NoneLater(b, pc.gen))
    && (pc.Finishing? ==> pc.c < |b.conns| && pc.c !in b.installed && !b.conns[pc.c].closed)
    && (pc.Reading? && pc.conn.Some? ==> Holds(b, pc.conn.value, pc.gen))
    && (pc.ReadFailed? ==> Holds(b, pc.c, pc.gen))
    && (pc.Entering? && pc.caller.RecvNil? ==> pc.staleGen == 0)
    && (pc.Entering? && pc.caller.RecvRetry? ==> 1 <= pc.staleGen <= |b.installed|)
  }

  ghost predicate PcsOk(b: Bind, failed: set<nat>, threads: Threads)
    requires InstalledExist(b)
  {
    forall t :: t in threads ==> PcOk(b, failed, threads[t])
  }

  ghost predicate LockOk(threads: Threads, writer: Option<nat>) {
    && (forall t :: t in threads ==> (HoldsLock(threads[t]) <==> writer == Some(t)))
    && (writer.Some? ==> writer.value in threads)
  }

  /** An Open in flight is alone and finds no connection. */
  ghost predicate OpenOk(threads: Threads, conn: Option<nat>) {
    forall t :: t in threads && IsOpening(threads[t]) ==> threads.Keys == {t} && conn.None?
  }

  ghost predicate SameDialed(pc: Pc, pc': Pc) {
    pc.Finishing? && pc'.Finishing? && pc.c == pc'.c
  }

  ghost predicate DialedApart(threads: Threads) {
    forall t, u :: t in threads && u in threads && t != u ==> !SameDialed(threads[t], threads[u])
  }

  /** The one program point at which a connection with a failed write may still be current. */
  ghost predicate OnTheWayOut(b: Bind, threads: Threads, writer: Option<nat>) {
    && writer.Some? && writer.value in threads
    && var pc := threads[writer.value];
       pc.Entering? && pc.caller.SendRetry? && pc.staleGen == b.connGen
  }

  ghost predicate FailedOk(b: Bind, failed: set<nat>, threads: Threads, writer: Option<nat>) {
    && (forall c :: c in failed ==> c in b.installed)
    && (b.conn.Some? && b.conn.value in failed ==> OnTheWayOut(b, threads, writer))
  }

  ghost predicate Inv(s: Sys) {
    && BindOk(s.b)
    && PcsOk(s.b, s.failed, s.threads)
    && LockOk(s.threads, s.writer)
    && OpenOk(s.threads, s.b.conn)
    && DialedApart(s.threads)
    && FailedOk(s.b, s.failed, s.threads, s.writer)
  }

  // ---- one lemma per kind of step ----

  lemma KeepsOnMove(s: Sys, t: nat, pc: Pc)
    requires Inv(s) && t in s.threads
    requires PcOk(s.b, s.failed, pc) && !pc.Finishing?
    requires HoldsLock(pc) <==> HoldsLock(s.threads[t])
    requires IsOpening(pc) ==> IsOpening(s.threads[t])
    requires s.b.conn.Some? && s.b.conn.value in s.failed ==> s.writer != Some(t)
    ensures Inv(Goto(s, t, pc))
  {
    assert s.threads[t := pc].Keys == s.threads.Keys;
  }

  lemma KeepsOnReturn(s: Sys, t: nat)
    requires Inv(s) && t in s.threads
    requires s.b.conn.Some? && s.b.conn.value in s.failed ==> s.writer != Some(t)
    ensures Inv(Return(s, t))
  {
  }

  lemma KeepsAfterDial(s: Sys, t: nat, caller: Caller, r: DialResult)
    requires Inv(s) && t in s.threads
    requires s.threads[t].Entering? || s.threads[t].Dialing? || s.threads[t].Finishing?
    requires s.threads[t].caller == caller
    requires s.b.conn.Some? && s.b.conn.value in s.failed ==> s.writer != Some(t)
    ensures Inv(AfterDial(s, t, caller, r))
  {
    match caller
    case SendNil(p, attempt) =>
      if r.DialClosed? { KeepsOnReturn(s, t); } else { KeepsOnMove(s, t, LoopHead(p, attempt + 1)); }
    case SendRetry(p, attempt) => KeepsOnMove(s, t, LoopHead(p, attempt + 1));
    case RecvNil => if r.DialOk? { KeepsOnMove(s, t, RecvAgain); } else { KeepsOnReturn(s, t); }
    case RecvRetry(_) => KeepsOnReturn(s, t);
    case Opening => if r.DialOk? { KeepsOnReturn(s, t); } else { KeepsOnMove(s, t, Reverting); }
  }

  /** Closing the current connection, in Close or on entry to a dial, changes no log. */
  lemma KeepsOnCloseCurrent(s: Sys)
    requires Inv(s)
    ensures Inv(s.(b := CloseCurrent(s.b)))
  {
    if s.b.conn.Some? {
      var b, b' := s.b, CloseCurrent(s.b);
      assert forall c :: 0 <= c < |b.conns| ==> Unused(b'.conns[c]) == Unused(b.conns[c]);
      assert BindOk(b');
      forall t | t in s.threads
        ensures PcOk(b', s.failed, s.threads[t])
      {
        assert PcOk(b, s.failed, s.threads[t]);
      }
    }
  }

  lemma KeepsOnOpenFlag(s: Sys, open: bool)
    requires Inv(s) && s.b.conn.None?
    ensures Inv(s.(b := s.b.(open := open)))
  {
    var b' := s.b.(open := open);
    forall t | t in s.threads
      ensures PcOk(b', s.failed, s.threads[t])
    {
      assert PcOk(s.b, s.failed, s.threads[t]);
    }
  }

  lemma KeepsOnEntering(s: Sys, t: nat)
    requires Inv(s) && t in s.threads && s.threads[t].Entering?
    ensures Inv(StepThread(s, t).value)
  {
    var Entering(caller, staleGen) := s.threads[t];
    var (b', v) := DialEnter(s.b, staleGen);
    if v.Proceed? {
      KeepsOnCloseCurrent(s);
      KeepsOnMove(s.(b := b'), t, Dialing(caller));
    } else {
      KeepsAfterDial(s, t, caller, if v.Refused? then DialClosed else DialOk);
    }
  }

  lemma KeepsOnDialed(s: Sys, t: nat)
    requires Inv(s) && t in s.threads && s.threads[t].Dialing?
    ensures Inv(Goto(s.(b := Dialed(s.b)), t, Finishing(s.threads[t].caller, |s.b.conns|)))
  {
    var b, b', pc := s.b, Dialed(s.b), Finishing(s.threads[t].caller, |s.b.conns|);
    assert |b.conns| !in b.installed;
    assert BindOk(b');
    forall u | u in s.threads
      ensures PcOk(b', s.failed, s.threads[u])
    {
      assert PcOk(b, s.failed, s.threads[u]);
    }
    assert s.threads[t := pc].Keys == s.threads.Keys;
  }

  lemma InstallKeepsBind(b: Bind, c: nat)
    requires BindOk(b) && b.open && |b.installed| + 1 < GENERATIONS
    requires c < |b.conns| && c !in b.installed && !b.conns[c].closed
    ensures BindOk(DialFinish(b, c).0)
  {
    var b' := DialFinish(b, c).0;
    assert forall i :: 0 <= i < |b.installed| ==> b'.installed[i] == b.installed[i];
  }

  lemma InstallKeepsPc(b: Bind, failed: set<nat>, c: nat, pc: Pc)
    requires BindOk(b) && b.open && c < |b.conns| && c !in b.installed
    requires PcOk(b, failed, pc) && (pc.Finishing? ==> pc.c != c)
    requires InstalledExist(DialFinish(b, c).0)
    ensures PcOk(DialFinish(b, c).0, failed, pc)
  {
  }

  /** Thread t installs its connection; the others keep what they hold. */
  lemma KeepsOnInstall(s: Sys, t: nat)
    requires Inv(s) && t in s.threads && s.threads[t].Finishing? && s.b.open
    requires |s.b.installed| + 1 < GENERATIONS
    ensures Inv(AfterDial(s.(b := DialFinish(s.b, s.threads[t].c).0), t, s.threads[t].caller, DialOk))
  {
    var Finishing(caller, c) := s.threads[t];
    var b, b' := s.b, DialFinish(s.b, c).0;
    assert PcOk(b, s.failed, s.threads[t]);
    InstallKeepsBind(b, c);
    var threads := s.threads[t := Dialing(caller)];
    forall u | u in threads
      ensures PcOk(b', s.failed, threads[u])
    {
      if u != t {
        InstallKeepsPc(b, s.failed, c, s.threads[u]);
      }
    }
    assert threads.Keys == s.threads.Keys;
    var s' := s.(b := b', threads := threads);
    if caller.Opening? {
      assert AfterDial(s', t, caller, DialOk).threads == map[];
    } else {
      KeepsAfterDial(s', t, caller, DialOk);
    }
    SameAfterDial(s.(b := b'), t, Dialing(caller), caller, DialOk);
  }

  lemma SameAfterDial(s: Sys, t: nat, pc: Pc, caller: Caller, r: DialResult)
    requires t in s.threads
    ensures AfterDial(Goto(s, t, pc), t, caller, r) == AfterDial(s, t, caller, r)
  {
    assert s.threads[t := pc] - {t} == s.threads - {t};
  }

  /** The bind was closed during the dial: the new connection is closed, unused. */
  lemma KeepsOnDiscard(s: Sys, t: nat)
    requires Inv(s) && t in s.threads && s.threads[t].Finishing? && !s.b.open
    ensures Inv(AfterDial(s.(b := DialFinish(s.b, s.threads[t].c).0), t, s.threads[t].caller, DialClosed))
  {
    var Finishing(caller, c) := s.threads[t];
    var b, b' := s.b, DialFinish(s.b, c).0;
    assert PcOk(b, s.failed, s.threads[t]);
    assert forall d :: 0 <= d < |b.conns| ==> Unused(b'.conns[d]) == Unused(b.conns[d]);
    assert BindOk(b');
    var threads := s.threads[t := Dialing(caller)];
    forall u | u in threads
      ensures PcOk(b', s.failed, threads[u])
    {
      assert u != t ==> PcOk(b, s.failed, s.threads[u]) && !SameDialed(s.threads[t], s.threads[u]);
    }
    assert threads.Keys == s.threads.Keys;
    KeepsAfterDial(s.(b := b', threads := threads), t, caller, DialClosed);
    SameAfterDial(s.(b := b'), t, Dialing(caller), caller, DialClosed);
  }

  /** The bind after a write to the connection of generation gen. */
  lemma WriteKeepsBind(b: Bind, gen: nat, p: Datagram, w: WriteOutcome)
    requires BindOk(b) && 1 <= gen <= |b.installed|
    requires PossibleWrite(b, b.installed[gen - 1], p, w)
    ensures BindOk(WriteFrame(b, b.installed[gen - 1], p, w))
  {
  }

  /** Only the writer can be about to write, so the others do not mind. */
  lemma WriteKeepsPc(b: Bind, failed: set<nat>, gen: nat, p: Datagram, w: WriteOutcome, pc: Pc)
    requires BindOk(b) && 1 <= gen <= |b.installed|
    requires PossibleWrite(b, b.installed[gen - 1], p, w)
    requires InstalledExist(WriteFrame(b, b.installed[gen - 1], p, w))
    requires PcOk(b, failed, pc) && !pc.Writing?
    ensures PcOk(WriteFrame(b, b.installed[gen - 1], p, w), failed + {b.installed[gen - 1]}, pc)
    ensures PcOk(WriteFrame(b, b.installed[gen - 1], p, w), failed, pc)
  {
  }

  /** The pieces of the invariant a write touches, with thread t moved on to its redial. */
  lemma WriteKeepsPcs(s: Sys, t: nat, w: WriteOutcome)
    requires Inv(s) && t in s.threads && s.threads[t].Writing?
    requires PossibleWrite(s.b, s.threads[t].c, s.threads[t].p, w)
    ensures var b' := WriteFrame(s.b, s.threads[t].c, s.threads[t].p, w);
            var pcs := s.threads[t := Entering(SendRetry(s.threads[t].p, s.threads[t].attempt), s.threads[t].gen)];
            BindOk(b') && PcsOk(b', s.failed, pcs) && PcsOk(b', s.failed + {s.threads[t].c}, pcs)
  {
    var Writing(p, attempt, c, gen) := s.threads[t];
    assert PcOk(s.b, s.failed, s.threads[t]);
    var b' := WriteFrame(s.b, c, p, w);
    WriteKeepsBind(s.b, gen, p, w);
    forall u | u in s.threads && u != t
      ensures PcOk(b', s.failed + {c}, s.threads[u]) && PcOk(b', s.failed, s.threads[u])
    {
      assert !HoldsLock(s.threads[u]);
      WriteKeepsPc(s.b, s.failed, gen, p, w, s.threads[u]);
    }
  }

  lemma KeepsOnWrote(s: Sys, t: nat)
    requires Inv(s) && t in s.threads && s.threads[t].Writing?
    requires PossibleWrite(s.b, s.threads[t].c, s.threads[t].p, Wrote)
    ensures Inv(Next(s, Write(t, Wrote)).value)
  {
    var Writing(p, attempt, c, gen) := s.threads[t];
    var b' := WriteFrame(s.b, c, p, Wrote);
    var threads := s.threads[t := Entering(SendRetry(p, attempt), gen)];
    WriteKeepsPcs(s, t, Wrote);
    assert forall u :: u in threads && u != t ==> threads[u] == s.threads[u];
    assert PcsOk(b', s.failed, threads - {t});
    assert s.writer == Some(t) && !(s.b.conn.Some? && s.b.conn.value in s.failed);
    assert threads - {t} == s.threads - {t};
  }

  lemma KeepsOnCut(s: Sys, t: nat, k: nat)
    requires Inv(s) && t in s.threads && s.threads[t].Writing?
    requires PossibleWrite(s.b, s.threads[t].c, s.threads[t].p, Cut(k))
    ensures Inv(Next(s, Write(t, Cut(k))).value)
  {
    var Writing(p, attempt, c, gen) := s.threads[t];
    var threads := s.threads[t := Entering(SendRetry(p, attempt), gen)];
    WriteKeepsPcs(s, t, Cut(k));
    assert PcOk(s.b, s.failed, s.threads[t]);
    assert c in s.b.installed;
    assert s.writer == Some(t) && !(s.b.conn.Some? && s.b.conn.value in s.failed);
    assert threads.Keys == s.threads.Keys;
    assert LockOk(threads, s.writer);
    assert OpenOk(threads, s.b.conn);
    assert DialedApart(threads);
    if s.b.conn == Some(c) {
      assert gen == |s.b.installed|;
    }
  }

  lemma KeepsOnLoopHead(s: Sys, t: nat)
    requires Inv(s) && t in s.threads && s.threads[t].LoopHead?
    ensures Inv(StepThread(s, t).value)
  {
    assert !(s.b.conn.Some? && s.b.conn.value in s.failed);
    var s' := StepThread(s, t).value;
    if t in s'.threads {
      KeepsOnMove(s, t, s'.threads[t]);
    } else {
      KeepsOnReturn(s, t);
    }
  }

  lemma KeepsOnReceiveStep(s: Sys, t: nat)
    requires Inv(s) && t in s.threads
    requires s.threads[t].RecvStart? || s.threads[t].RecvAgain? || s.threads[t].ReadFailed? || s.threads[t].Reading?
    requires StepThread(s, t).Some?
    ensures Inv(StepThread(s, t).value)
  {
    assert s.writer != Some(t);
    assert PcOk(s.b, s.failed, s.threads[t]);
    var s' := StepThread(s, t).value;
    if t in s'.threads {
      KeepsOnMove(s, t, s'.threads[t]);
    } else {
      KeepsOnReturn(s, t);
    }
  }

  lemma KeepsOnStep(s: Sys, t: nat)
    requires Inv(s) && t in s.threads && StepThread(s, t).Some?
    requires |StepThread(s, t).value.b.installed| < GENERATIONS
    ensures Inv(StepThread(s, t).value)
  {
    match s.threads[t]
    case Entering(_, _) => KeepsOnEntering(s, t);
    case Finishing(_, _) => if s.b.open { KeepsOnInstall(s, t); } else { KeepsOnDiscard(s, t); }
    case LoopHead(_, _) => KeepsOnLoopHead(s, t);
    case Reverting =>
      KeepsOnOpenFlag(s, false);
      KeepsOnReturn(s.(b := s.b.(open := false)), t);
    case RecvStart => KeepsOnReceiveStep(s, t);
    case RecvAgain => KeepsOnReceiveStep(s, t);
    case Reading(_, _, _) => KeepsOnReceiveStep(s, t);
    case ReadFailed(_, _, _) => KeepsOnReceiveStep(s, t);
  }

  /** A new thread that holds nothing. */
  lemma KeepsOnCall(s: Sys, t: nat, pc: Pc)
    requires Inv(s) && t !in s.threads && !OpenInFlight(s)
    requires pc.AwaitLock? || pc.RecvStart?
    ensures Inv(Goto(s, t, pc))
  {
  }

  lemma KeepsOnOpen(s: Sys, t: nat)
    requires Inv(s) && !s.b.open && s.threads == map[]
    ensures Inv(Next(s, CallOpen(t)).value)
  {
    KeepsOnOpenFlag(s, true);
    assert s.threads[t := Entering(Opening, s.b.connGen)].Keys == {t};
  }

  lemma KeepsOnLock(s: Sys, t: nat)
    requires Inv(s) && t in s.threads && s.threads[t].AwaitLock? && s.writer.None?
    ensures Inv(Next(s, Lock(t)).value)
  {
    assert s.threads[t := LoopHead(s.threads[t].p, 0)].Keys == s.threads.Keys;
  }

  lemma KeepsOnRead(s: Sys, t: nat, r: ReadOutcome)
    requires Inv(s) && t in s.threads && s.threads[t].Reading? && s.threads[t].conn.Some?
    requires r.GotHeader? ==> r.n <= 0xFFFF
    ensures Inv(AfterRead(s, t, r))
  {
    assert s.writer != Some(t) && PcOk(s.b, s.failed, s.threads[t]);
    var s' := AfterRead(s, t, r);
    if t in s'.threads {
      KeepsOnMove(s, t, s'.threads[t]);
    } else {
      KeepsOnReturn(s, t);
    }
  }

  /** Every step keeps the invariant, up to the wrap of the 64-bit generation counter. */
  lemma NextKeepsInv(s: Sys, e: Event)
    requires Inv(s) && Next(s, e).Some?
    requires |Next(s, e).value.b.installed| < GENERATIONS
    ensures Inv(Next(s, e).value)
  {
    match e
    case CallSend(t, p) => KeepsOnCall(s, t, AwaitLock(p));
    case CallReceive(t) => KeepsOnCall(s, t, RecvStart);
    case CallOpen(t) => if !s.b.open { KeepsOnOpen(s, t); }
    case CallClose =>
      KeepsOnCloseCurrent(s);
      KeepsOnOpenFlag(s.(b := CloseCurrent(s.b)), false);
    case Lock(t) => KeepsOnLock(s, t);
    case Step(t) => KeepsOnStep(s, t);
    case Write(t, w) => if w.Wrote? { KeepsOnWrote(s, t); } else { KeepsOnCut(s, t, w.k); }
    case DialReturns(t, r) =>
      if r.DialOk? {
        KeepsOnDialed(s, t);
      } else {
        KeepsAfterDial(s, t, s.threads[t].caller, r);
      }
    case ReadReturns(t, r) =>
      KeepsOnRead(s, t, r);
  }
}
