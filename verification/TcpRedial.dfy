/**
 What a dial does once a read or a write has failed, told from the failure: which connection it
 closes, when it dials, and when it leaves a newer connection alone.
 */
module TcpRedial {
  import opened Bytes
  import opened TcpProtocol
  import opened TcpSafety
  import opened TcpDelivery
  import opened TcpProgress
  import opened TcpHistory

  /** Thread t's write, or its read of a header or a body, fails in this event. */
  predicate FailsFor(s: Sys, e: Event, t: nat) {
    && t in s.threads
    && (|| (e.Write? && e.t == t && e.w.Cut?)
        || (e.ReadReturns? && e.t == t && (e.r.NetError? || e.r.ClosedError?)
            && s.threads[t].Reading? && !s.threads[t].part.Drain?))
  }

  /** The connection that thread t reads or writes. */
  function Using(pc: Pc): Option<nat> {
    if pc.Writing? then Some(pc.c) else if pc.Reading? then pc.conn else None
  }

  /** The connection of t's last failure that no dial entry and no return of t has followed yet. */
  function Blame(f: Option<nat>, s: Sys, e: Event, t: nat): Option<nat>
    requires Next(s, e).Some?
  {
    if t !in Next(s, e).value.threads then None
    else if FailsFor(s, e, t) then Using(s.threads[t])
    else if e == Step(t) && t in s.threads && s.threads[t].Entering? then None
    else f
  }

  function BlameOver(f: Option<nat>, s: Sys, es: seq<Event>, t: nat): Option<nat>
    requires Run(s, es).Some?
    decreases |es|
  {
    if es == [] then f else BlameOver(Blame(f, s, es[0], t), Next(s, es[0]).value, es[1..], t)
  }

  // ---- the generation a dial is entered with is that of the connection to blame ----

  ghost predicate PcBlames(b: Bind, pc: Pc, f: Option<nat>) {
    match pc
    case Entering(caller, staleGen) =>
      if caller.SendRetry? || caller.RecvRetry? then f.Some? && Holds(b, f.value, staleGen)
      else f.None? && staleGen == if caller.Opening? then b.connGen else 0
    case ReadFailed(c, gen, _) => f == Some(c) && Holds(b, c, gen)
    case _ => f.None?
  }

  ghost predicate BlameOk(s: Sys, t: nat, f: Option<nat>) {
    if t in s.threads then PcBlames(s.b, s.threads[t], f) else f.None?
  }

  /** An Open in flight is alone, so nothing is installed but by itself. */
  lemma OpeningKeepsGen(s: Sys, e: Event, t: nat)
    requires Inv(s) && Next(s, e).Some? && t in s.threads && IsOpening(s.threads[t]) && !IsStepOf(e, t)
    ensures Next(s, e).value.b.connGen == s.b.connGen
  {
    StepBind(s, e);
    assert s.threads.Keys == {t};
  }

  lemma OthersKeepBlame(s: Sys, e: Event, t: nat, f: Option<nat>)
    requires Inv(s) && Next(s, e).Some? && BlameOk(s, t, f) && t in s.threads && !IsStepOf(e, t)
    ensures BlameOk(Next(s, e).value, t, Blame(f, s, e, t))
  {
    OthersLeavePc(s, e, t);
    StepExtendsInstalled(s, e);
    if IsOpening(s.threads[t]) {
      OpeningKeepsGen(s, e, t);
    }
  }

  lemma AfterDialBlamesNone(s: Sys, t: nat, caller: Caller, r: DialResult)
    ensures var threads := AfterDial(s, t, caller, r).threads; t in threads ==> PcBlames(s.b, threads[t], None)
    ensures !(t in AfterDial(s, t, caller, r).threads && AfterDial(s, t, caller, r).threads[t].Dialing?)
  {
  }

  lemma OwnDialKeepsBlame(s: Sys, e: Event, t: nat, f: Option<nat>)
    requires Inv(s) && Next(s, e).Some? && BlameOk(s, t, f) && t in s.threads && IsStepOf(e, t)
    requires InDialCall(s.threads[t])
    ensures BlameOk(Next(s, e).value, t, Blame(f, s, e, t))
  {
    var pc := s.threads[t];
    if pc.Finishing? {
      var (b', installed) := DialFinish(s.b, pc.c);
      AfterDialBlamesNone(s.(b := b'), t, pc.caller, if installed then DialOk else DialClosed);
    } else if pc.Entering? {
      AfterDialBlamesNone(s, t, pc.caller, DialOk);
      AfterDialBlamesNone(s, t, pc.caller, DialClosed);
    } else {
      AfterDialBlamesNone(s, t, pc.caller, e.answer);
    }
  }

  lemma OwnStepKeepsBlame(s: Sys, e: Event, t: nat, f: Option<nat>)
    requires Inv(s) && Next(s, e).Some? && BlameOk(s, t, f) && t in s.threads && IsStepOf(e, t)
    requires !InDialCall(s.threads[t])
    ensures BlameOk(Next(s, e).value, t, Blame(f, s, e, t))
  {
    assert PcOk(s.b, s.failed, s.threads[t]);
  }

  lemma NewThreadBlamesNone(s: Sys, e: Event, t: nat)
    requires Next(s, e).Some? && t !in s.threads
    ensures BlameOk(Next(s, e).value, t, None)
  {
  }

  lemma NextKeepsBlame(s: Sys, e: Event, t: nat, f: Option<nat>)
    requires Inv(s) && Next(s, e).Some? && BlameOk(s, t, f)
    ensures BlameOk(Next(s, e).value, t, Blame(f, s, e, t))
  {
    if t !in s.threads {
      NewThreadBlamesNone(s, e, t);
    } else if !IsStepOf(e, t) {
      OthersKeepBlame(s, e, t, f);
    } else if InDialCall(s.threads[t]) {
      OwnDialKeepsBlame(s, e, t, f);
    } else {
      OwnStepKeepsBlame(s, e, t, f);
    }
  }

  lemma {:induction false} BlameOverRun(s: Sys, es: seq<Event>, t: nat, f: Option<nat>)
    requires Inv(s) && BlameOk(s, t, f)
    requires Run(s, es).Some? && |Run(s, es).value.b.installed| < GENERATIONS
    ensures Inv(Run(s, es).value) && BlameOk(Run(s, es).value, t, BlameOver(f, s, es, t))
    decreases |es|
  {
    if es != [] {
      InstallsOnlyGrow(Next(s, es[0]).value, es[1..]);
      NextKeepsInv(s, es[0]);
      NextKeepsBlame(s, es[0], t, f);
      BlameOverRun(Next(s, es[0]).value, es[1..], t, Blame(f, s, es[0], t));
    }
  }

  // ---- what a dial entry does ----

  predicate IsDialing(s: Sys, t: nat) {
    t in s.threads && s.threads[t].Dialing?
  }

  /** Connection c is the last that became current. */
  predicate LastInstalled(b: Bind, c: nat) {
    b.installed != [] && b.installed[|b.installed| - 1] == c
  }

  /** The same bind, but its connection, if any, has been closed and is no longer current. */
  ghost predicate OnlyClosesCurrent(b: Bind, b': Bind) {
    && b'.conn.None? && b'.open == b.open && b'.connGen == b.connGen && b'.installed == b.installed
    && |b'.conns| == |b.conns|
    && forall c :: 0 <= c < |b.conns| ==>
         b'.conns[c] == if b.conn == Some(c) then b.conns[c].(closed := true) else b.conns[c]
  }

  lemma EntryByGeneration(s: Sys, t: nat)
    requires Inv(s) && t in s.threads && s.threads[t].Entering?
    ensures var s', g := Next(s, Step(t)).value, s.threads[t].staleGen;
            && (IsDialing(s', t) <==> s.b.open && (g == 0 || g == s.b.connGen))
            && (if IsDialing(s', t) then OnlyClosesCurrent(s.b, s'.b) else s'.b == s.b)
  {
    var pc := s.threads[t];
    StepBind(s, Step(t));
    AfterDialBlamesNone(s, t, pc.caller, DialOk);
    AfterDialBlamesNone(s, t, pc.caller, DialClosed);
  }

  /**
   Over every run: a dial entered after a failed read or write of connection c dials exactly if the
   bind is open and c is still the last connection installed. It closes c or nothing, and if
   another connection is current by then it changes nothing at all. A dial entered without such a
   failure, for want of a connection, dials exactly if the bind is open and closes what is current.
   */
  lemma RedialClosesTheFailed(es: seq<Event>, t: nat)
    requires Run(Start, es).Some? && |Run(Start, es).value.b.installed| < GENERATIONS
    requires var s := Run(Start, es).value; t in s.threads && s.threads[t].Entering?
    ensures var s, c := Run(Start, es).value, BlameOver(None, Start, es, t);
            var s' := Next(s, Step(t)).value;
            && (IsDialing(s', t) <==> s.b.open && (c.Some? ==> LastInstalled(s.b, c.value)))
            && (if IsDialing(s', t) then OnlyClosesCurrent(s.b, s'.b) else s'.b == s.b)
            && (c.Some? && s.b.conn.Some? && s.b.conn != c ==> s'.b == s.b && !IsDialing(s', t))
  {
    BlameOverRun(Start, es, t, None);
    EntryByGeneration(Run(Start, es).value, t);
  }

  /** After such a failure the thread is on its way to a dial, up to its look at open in receive. */
  lemma FailureAwaitsDial(es: seq<Event>, t: nat)
    requires Run(Start, es).Some? && |Run(Start, es).value.b.installed| < GENERATIONS
    requires BlameOver(None, Start, es, t).Some?
    ensures var s := Run(Start, es).value;
            && t in s.threads && (s.threads[t].Entering? || s.threads[t].ReadFailed?)
            && (s.threads[t].ReadFailed? ==>
                  var s' := Next(s, Step(t)).value;
                  if s.b.open then t in s'.threads && s'.threads[t].Entering? else t !in s'.threads)
  {
    BlameOverRun(Start, es, t, None);
  }

  /** Over every run: an Open returns with the bind open and connected, or with neither. */
  lemma OpenEndsConnectedOrClosed(es: seq<Event>, e: Event, t: nat)
    requires Run(Start, es).Some? && |Run(Start, es).value.b.installed| < GENERATIONS
    requires var s := Run(Start, es).value;
             Next(s, e).Some? && t in s.threads && IsOpening(s.threads[t]) && t !in Next(s, e).value.threads
    ensures var b' := Next(Run(Start, es).value, e).value.b; b'.open <==> b'.conn.Some?
  {
    BlameOverRun(Start, es, t, None);
    var s := Run(Start, es).value;
    if !IsStepOf(e, t) {
      OthersLeavePc(s, e, t);
    }
  }
}
