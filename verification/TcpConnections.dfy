/** Generations, failed connections and the fate of every connection the dialer returned. */
module TcpConnections {
  import opened Bytes
  import opened TcpProtocol
  import opened TcpSafety
  import opened TcpDelivery

  lemma {:induction false} RunKeepsInv(s: Sys, es: seq<Event>)
    requires Inv(s) && Run(s, es).Some?
    requires |Run(s, es).value.b.installed| < GENERATIONS
    ensures Inv(Run(s, es).value)
    decreases |es|
  {
    if es != [] {
      InstallsOnlyGrow(Next(s, es[0]).value, es[1..]);
      NextKeepsInv(s, es[0]);
      RunKeepsInv(Next(s, es[0]).value, es[1..]);
    }
  }

  // ---- generations ----

  /**
   In every reachable state connGen is the number of installs, the current connection is the
   one installed at connGen, which is then at least 1, it is not closed, and a bind that is not
   open has none.
   */
  lemma GenerationSafety(es: seq<Event>)
    requires Run(Start, es).Some? && |Run(Start, es).value.b.installed| < GENERATIONS
    ensures var b := Run(Start, es).value.b;
            && b.connGen == |b.installed|
            && (b.conn.Some? ==>
                  && b.open && 1 <= b.connGen && b.conn.value < |b.conns|
                  && b.conn.value == b.installed[b.connGen - 1]
                  && b.conn.value !in b.installed[..b.connGen - 1]
                  && !b.conns[b.conn.value].closed)
  {
    RunKeepsInv(Start, es);
  }

  /** dial(g) with a nonzero g closes the connection of generation g or none. */
  lemma DialClosesOnlyItsGeneration(s: Sys, t: nat, c: nat)
    requires Inv(s) && t in s.threads && s.threads[t].Entering? && s.threads[t].staleGen != 0
    requires c < |s.b.conns| && !s.b.conns[c].closed && StepThread(s, t).value.b.conns[c].closed
    ensures s.threads[t].staleGen <= |s.b.installed| && c == s.b.installed[s.threads[t].staleGen - 1]
  {
    assert DialEnter(s.b, s.threads[t].staleGen).1.Proceed?;
  }

  // ---- connections that had their turn ----

  lemma StepLeavesFailedAlone(s: Sys, e: Event, c: nat)
    requires Inv(s) && Next(s, e).Some? && c in s.failed
    ensures var s' := Next(s, e).value;
            c < |s.b.conns| <= |s'.b.conns| && c in s'.failed && s'.b.conns[c].log == s.b.conns[c].log
  {
    assert c in s.b.installed;
    if e.Write? {
      assert PcOk(s.b, s.failed, s.threads[e.t]);
    } else {
      OnlyWritesWrite(s, e);
    }
  }

  /** No bytes after a cut: nothing is ever added to a connection that had a write fail. */
  lemma {:induction false} FailedConnectionIsFrozen(s: Sys, es: seq<Event>, c: nat)
    requires Inv(s) && Run(s, es).Some? && |Run(s, es).value.b.installed| < GENERATIONS
    requires c in s.failed
    ensures var s' := Run(s, es).value;
            c < |s.b.conns| <= |s'.b.conns| && s'.b.conns[c].log == s.b.conns[c].log
    decreases |es|
  {
    if es == [] {
      assert c in s.b.installed;
    } else {
      StepLeavesFailedAlone(s, es[0], c);
      InstallsOnlyGrow(Next(s, es[0]).value, es[1..]);
      NextKeepsInv(s, es[0]);
      FailedConnectionIsFrozen(Next(s, es[0]).value, es[1..], c);
    }
  }

  lemma StepDoesNotReinstall(s: Sys, e: Event, c: nat)
    requires Inv(s) && Next(s, e).Some? && c in s.b.installed && s.b.conn != Some(c)
    ensures c in Next(s, e).value.b.installed && Next(s, e).value.b.conn != Some(c)
  {
    if e.Step? && s.threads[e.t].Finishing? {
      assert PcOk(s.b, s.failed, s.threads[e.t]);
    }
  }

  /** A connection that is no longer current never becomes current again. */
  lemma {:induction false} NeverCurrentAgain(s: Sys, es: seq<Event>, c: nat)
    requires Inv(s) && Run(s, es).Some? && |Run(s, es).value.b.installed| < GENERATIONS
    requires c in s.b.installed && s.b.conn != Some(c)
    ensures Run(s, es).value.b.conn != Some(c)
    decreases |es|
  {
    if es != [] {
      StepDoesNotReinstall(s, es[0], c);
      InstallsOnlyGrow(Next(s, es[0]).value, es[1..]);
      NextKeepsInv(s, es[0]);
      NeverCurrentAgain(Next(s, es[0]).value, es[1..], c);
    }
  }

  // ---- conservation ----

  /** Connections returned by the dialer whose dial has not finished. */
  function Pending(threads: Threads): set<nat> {
    set t | t in threads && threads[t].Finishing? :: threads[t].c
  }

  function LostIn(b: Bind, pending: set<nat>): set<nat> {
    set c: nat | c < |b.conns| && !b.conns[c].closed && b.conn != Some(c) && c !in pending
  }

  /** Connections that nobody holds and nobody will close. */
  function Lost(s: Sys): set<nat> {
    LostIn(s.b, Pending(s.threads))
  }

  /** The live connection, if any, that this step replaces by another. */
  function Overwritten(s: Sys, e: Event): set<nat> {
    if e.Step? && e.t in s.threads && s.threads[e.t].Finishing? && s.b.open && s.b.conn.Some?
    then {s.b.conn.value} else {}
  }

  lemma PendingUpdate(threads: Threads, t: nat, pc: Pc)
    requires DialedApart(threads)
    requires t in threads
    ensures Pending(threads[t := pc]) ==
            Pending(threads) - (if threads[t].Finishing? then {threads[t].c} else {})
                             + (if pc.Finishing? then {pc.c} else {})
    ensures Pending(threads - {t}) == Pending(threads) - if threads[t].Finishing? then {threads[t].c} else {}
  {
    var threads', gone := threads[t := pc], threads - {t};
    assert forall u :: u in threads && u != t ==> u in threads' && threads'[u] == threads[u];
    assert forall u :: u in threads && u != t ==> u in gone && gone[u] == threads[u];
    assert forall u :: u in threads && u != t ==> !SameDialed(threads[t], threads[u]);
    if pc.Finishing? {
      assert threads'[t] == pc;
    }
  }

  lemma PendingNew(threads: Threads, t: nat, pc: Pc)
    requires t !in threads && !pc.Finishing?
    ensures Pending(threads[t := pc]) == Pending(threads)
  {
    var threads' := threads[t := pc];
    assert forall u :: u in threads ==> u in threads' && threads'[u] == threads[u];
  }

  lemma AfterDialPending(s: Sys, t: nat, caller: Caller, r: DialResult)
    requires DialedApart(s.threads) && t in s.threads
    ensures Pending(AfterDial(s, t, caller, r).threads) ==
            Pending(s.threads) - if s.threads[t].Finishing? then {s.threads[t].c} else {}
  {
    var s' := AfterDial(s, t, caller, r);
    PendingUpdate(s.threads, t, if t in s'.threads then s'.threads[t] else Reverting);
  }

  lemma FinishLoses(b: Bind, pending: set<nat>, c: nat)
    requires c < |b.conns| && c in pending && b.conn != Some(c)
    requires b.conn.Some? ==> CurrentOk(b, b.conn.value) && b.conn.value !in pending
    ensures LostIn(DialFinish(b, c).0, pending - {c}) ==
            LostIn(b, pending) + if b.open && b.conn.Some? then {b.conn.value} else {}
  {
  }

  lemma DialedLoses(b: Bind, pending: set<nat>)
    requires b.conn != Some(|b.conns|)
    ensures LostIn(Dialed(b), pending + {|b.conns|}) == LostIn(b, pending)
  {
  }

  lemma FinishStepLoses(s: Sys, t: nat)
    requires Inv(s) && t in s.threads && s.threads[t].Finishing?
    ensures Lost(StepThread(s, t).value) == Lost(s) + Overwritten(s, Step(t))
  {
    var Finishing(caller, c) := s.threads[t];
    assert PcOk(s.b, s.failed, s.threads[t]);
    assert c in s.b.installed || c in Pending(s.threads);
    forall u | u in s.threads && s.threads[u].Finishing?
      ensures s.b.conn != Some(s.threads[u].c)
    {
      assert PcOk(s.b, s.failed, s.threads[u]);
    }
    FinishLoses(s.b, Pending(s.threads), c);
    var (b', installed) := DialFinish(s.b, c);
    var r := if installed then DialOk else DialClosed;
    AfterDialPending(s.(b := b'), t, caller, r);
    AfterDialTouchesThreadsOnly(s.(b := b'), t, caller, r);
  }

  lemma EnterStepLoses(s: Sys, t: nat)
    requires Inv(s) && t in s.threads && s.threads[t].Entering?
    ensures Lost(StepThread(s, t).value) == Lost(s)
  {
    var Entering(caller, staleGen) := s.threads[t];
    var v := DialEnter(s.b, staleGen).1;
    if v.Proceed? {
      PendingUpdate(s.threads, t, Dialing(caller));
    } else {
      var r := if v.Refused? then DialClosed else DialOk;
      AfterDialPending(s, t, caller, r);
      AfterDialTouchesThreadsOnly(s, t, caller, r);
    }
  }

  /** Steps that move or end a thread with no connection of its own, and close nothing. */
  lemma MoveLoses(s: Sys, s': Sys, t: nat)
    requires DialedApart(s.threads) && t in s.threads && !s.threads[t].Finishing?
    requires || s'.threads == s.threads - {t}
             || (t in s'.threads && !s'.threads[t].Finishing? && s'.threads == s.threads[t := s'.threads[t]])
    requires s'.b.conn == s.b.conn && |s'.b.conns| == |s.b.conns|
    requires forall c :: 0 <= c < |s.b.conns| ==> s'.b.conns[c].closed == s.b.conns[c].closed
    ensures Lost(s') == Lost(s)
  {
    PendingUpdate(s.threads, t, if t in s'.threads then s'.threads[t] else Reverting);
  }

  lemma StepThreadLoses(s: Sys, t: nat)
    requires Inv(s) && t in s.threads && StepThread(s, t).Some?
    ensures Lost(StepThread(s, t).value) == Lost(s) + Overwritten(s, Step(t))
  {
    if s.threads[t].Finishing? {
      FinishStepLoses(s, t);
    } else if s.threads[t].Entering? {
      EnterStepLoses(s, t);
    } else {
      MoveLoses(s, StepThread(s, t).value, t);
    }
  }

  lemma DialReturnsLoses(s: Sys, t: nat, r: DialResult)
    requires Inv(s) && Next(s, DialReturns(t, r)).Some?
    ensures Lost(Next(s, DialReturns(t, r)).value) == Lost(s)
  {
    if r.DialOk? {
      DialedLoses(s.b, Pending(s.threads));
      PendingUpdate(s.threads, t, Finishing(s.threads[t].caller, |s.b.conns|));
    } else {
      AfterDialPending(s, t, s.threads[t].caller, r);
      AfterDialTouchesThreadsOnly(s, t, s.threads[t].caller, r);
    }
  }

  lemma ReadReturnsLoses(s: Sys, t: nat, r: ReadOutcome)
    requires Inv(s) && Next(s, ReadReturns(t, r)).Some?
    ensures Lost(AfterRead(s, t, r)) == Lost(s)
  {
    MoveLoses(s, AfterRead(s, t, r), t);
  }

  lemma CallLoses(s: Sys, e: Event)
    requires Inv(s) && Next(s, e).Some? && (e.CallSend? || e.CallReceive? || e.CallOpen?)
    ensures Lost(Next(s, e).value) == Lost(s)
  {
    match e
    case CallSend(t, p) => PendingNew(s.threads, t, AwaitLock(p));
    case CallReceive(t) => PendingNew(s.threads, t, RecvStart);
    case CallOpen(t) => if !s.b.open { PendingNew(s.threads, t, Entering(Opening, s.b.connGen)); }
  }

  /** What a step does to the connections: one is lost exactly when one is overwritten. */
  lemma StepLoses(s: Sys, e: Event)
    requires Inv(s) && Next(s, e).Some?
    ensures Lost(Next(s, e).value) == Lost(s) + Overwritten(s, e)
  {
    var s' := Next(s, e).value;
    match e
    case CallSend(_, _) => CallLoses(s, e);
    case CallReceive(_) => CallLoses(s, e);
    case CallOpen(_) => CallLoses(s, e);
    case CallClose =>
    case Lock(t) => MoveLoses(s, s', t);
    case Step(t) => StepThreadLoses(s, t);
    case Write(t, w) => MoveLoses(s, s', t);
    case DialReturns(t, r) => DialReturnsLoses(s, t, r);
    case ReadReturns(t, r) => ReadReturnsLoses(s, t, r);
  }

  /** The live connections replaced during a run. */
  function OverwrittenIn(s: Sys, es: seq<Event>): set<nat>
    requires Run(s, es).Some?
    decreases |es|
  {
    if es == [] then {} else Overwritten(s, es[0]) + OverwrittenIn(Next(s, es[0]).value, es[1..])
  }

  /**
   The fate of every connection: after any run, those that are neither current, nor closed, nor
   still in the hands of their dial are exactly those that an overlapping dial replaced.
   */
  lemma {:induction false} LostIffOverwritten(s: Sys, es: seq<Event>)
    requires Inv(s) && Run(s, es).Some? && |Run(s, es).value.b.installed| < GENERATIONS
    ensures Lost(Run(s, es).value) == Lost(s) + OverwrittenIn(s, es)
    decreases |es|
  {
    if es != [] {
      StepLoses(s, es[0]);
      InstallsOnlyGrow(Next(s, es[0]).value, es[1..]);
      NextKeepsInv(s, es[0]);
      LostIffOverwritten(Next(s, es[0]).value, es[1..]);
    }
  }

  predicate InDial(pc: Pc) {
    pc.Dialing? || pc.Finishing?
  }

  ghost predicate OneDialAtATime(s: Sys) {
    forall t, u :: t in s.threads && u in s.threads && InDial(s.threads[t]) && InDial(s.threads[u]) ==> t == u
  }

  /** No state of the run has two dials between their locked regions. */
  ghost predicate DialsNeverOverlap(s: Sys, es: seq<Event>)
    requires Run(s, es).Some?
    decreases |es|
  {
    OneDialAtATime(s) && (es != [] ==> DialsNeverOverlap(Next(s, es[0]).value, es[1..]))
  }

  ghost predicate DialingMeansNoConn(s: Sys) {
    forall t :: t in s.threads && InDial(s.threads[t]) ==> s.b.conn.None?
  }

  /** A thread comes into a dial by entering it, and then there is no connection. */
  lemma EntersDialWithoutConn(s: Sys, e: Event, t: nat)
    requires Next(s, e).Some? && t in Next(s, e).value.threads && InDial(Next(s, e).value.threads[t])
    ensures (t in s.threads && InDial(s.threads[t])) || Next(s, e).value.b.conn.None?
  {
  }

  lemma OnlyInstallsSetConn(s: Sys, e: Event)
    requires Next(s, e).Some? && !(e.Step? && s.threads[e.t].Finishing?)
    ensures Next(s, e).value.b.conn == s.b.conn || Next(s, e).value.b.conn.None?
  {
  }

  lemma StepKeepsDialingMeansNoConn(s: Sys, e: Event)
    requires Next(s, e).Some? && OneDialAtATime(s) && DialingMeansNoConn(s)
    ensures DialingMeansNoConn(Next(s, e).value)
  {
    var s' := Next(s, e).value;
    if e.Step? && s.threads[e.t].Finishing? {
      assert forall t :: t in s'.threads && t != e.t ==> t in s.threads && !InDial(s.threads[t]);
    } else {
      OnlyInstallsSetConn(s, e);
      forall t | t in s'.threads && InDial(s'.threads[t])
        ensures s'.b.conn.None?
      {
        EntersDialWithoutConn(s, e, t);
      }
    }
  }

  /** While dials do not overlap, every connection is current, closed, or in its dial's hands. */
  lemma {:induction false} ConnectionsConserved(s: Sys, es: seq<Event>)
    requires Inv(s) && Run(s, es).Some? && |Run(s, es).value.b.installed| < GENERATIONS
    requires DialsNeverOverlap(s, es) && DialingMeansNoConn(s) && Lost(s) == {}
    ensures Lost(Run(s, es).value) == {}
    decreases |es|
  {
    if es != [] {
      StepLoses(s, es[0]);
      StepKeepsDialingMeansNoConn(s, es[0]);
      InstallsOnlyGrow(Next(s, es[0]).value, es[1..]);
      NextKeepsInv(s, es[0]);
      ConnectionsConserved(Next(s, es[0]).value, es[1..]);
    }
  }

  lemma {:induction false} RunConcat(s: Sys, es: seq<Event>, fs: seq<Event>)
    requires Run(s, es).Some?
    ensures Run(s, es + fs) == Run(Run(s, es).value, fs)
    decreases |es|
  {
    if es == [] {
      assert es + fs == fs;
    } else {
      RunConcat(Next(s, es[0]).value, es[1..], fs);
      assert (es + fs)[1..] == es[1..] + fs;
    }
  }
}
