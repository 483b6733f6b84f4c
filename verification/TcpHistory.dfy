/**
 What happened to a connection or to a call of receive, told from the run alone: who closed the
 connection, what an open bind without connection is due to, and when receive's error means Close.
 */
module TcpHistory {
  import opened Bytes
  import opened TcpProtocol
  import opened TcpSafety
  import opened TcpDelivery
  import opened TcpConnections
  import opened TcpProgress

  // ---- who closed a connection ----

  datatype Closer =
    | DialEntry(t: nat, staleGen: nat)   // the first region of a dial
    | CloseCall
    | Discard(t: nat)                    // the second region of a dial on a bind closed meanwhile

  /** Who closes connection c in this step, if anyone. */
  function CloserIn(s: Sys, e: Event, c: nat): Option<Closer> {
    match e
    case CallClose => if s.b.conn == Some(c) then Some(CloseCall) else None
    case Step(t) =>
      if t !in s.threads then None
      else if s.threads[t].Entering? then
        var g := s.threads[t].staleGen;
        if s.b.conn == Some(c) && DialEnter(s.b, g).1.Proceed? then Some(DialEntry(t, g)) else None
      else if s.threads[t].Finishing? && s.threads[t].c == c && !s.b.open then Some(Discard(t))
      else None
    case _ => None
  }

  function ClosedBy(s: Sys, es: seq<Event>, c: nat): Option<Closer>
    requires Run(s, es).Some?
    decreases |es|
  {
    if es == [] then None
    else
      var first := CloserIn(s, es[0], c);
      if first.Some? then first else ClosedBy(Next(s, es[0]).value, es[1..], c)
  }

  lemma StepCloses(s: Sys, e: Event, c: nat)
    requires Inv(s) && Next(s, e).Some?
    ensures CloserIn(s, e, c).Some? ==> c < |s.b.conns| && !s.b.conns[c].closed
    ensures c < |s.b.conns| ==>
              && |s.b.conns| <= |Next(s, e).value.b.conns|
              && (Next(s, e).value.b.conns[c].closed <==> s.b.conns[c].closed || CloserIn(s, e, c).Some?)
  {
    StepBind(s, e);
    if e.Step? {
      assert PcOk(s.b, s.failed, s.threads[e.t]);
    }
  }

  lemma StepExtendsInstalled(s: Sys, e: Event)
    requires Next(s, e).Some?
    ensures s.b.installed <= Next(s, e).value.b.installed
  {
    StepBind(s, e);
  }

  /** A closed connection that was never installed never will be. */
  lemma ClosedIsNotInstalled(s: Sys, e: Event, c: nat)
    requires Inv(s) && Next(s, e).Some? && c < |s.b.conns| && s.b.conns[c].closed && c !in s.b.installed
    ensures c !in Next(s, e).value.b.installed
  {
    StepBind(s, e);
    if e.Step? {
      assert PcOk(s.b, s.failed, s.threads[e.t]);
    }
  }

  /** What the closer of connection c says about it. */
  ghost predicate CloserFits(b: Bind, c: nat, closer: Closer) {
    match closer
    case DialEntry(_, g) => c in b.installed && (g != 0 ==> g <= |b.installed| && b.installed[g - 1] == c)
    case CloseCall => c in b.installed
    case Discard(_) => c !in b.installed
  }

  lemma StepFits(s: Sys, e: Event, c: nat)
    requires Inv(s) && Next(s, e).Some? && CloserIn(s, e, c).Some?
    ensures CloserFits(Next(s, e).value.b, c, CloserIn(s, e, c).value)
  {
    StepBind(s, e);
    if e.Step? {
      assert PcOk(s.b, s.failed, s.threads[e.t]);
      if s.threads[e.t].Entering? && s.threads[e.t].staleGen != 0 {
        DialClosesOnlyItsGeneration(s, e.t, c);
      }
    }
  }

  lemma {:induction false} StaysFitting(s: Sys, es: seq<Event>, c: nat, closer: Closer)
    requires Inv(s) && Run(s, es).Some? && |Run(s, es).value.b.installed| < GENERATIONS
    requires c < |s.b.conns| && s.b.conns[c].closed && CloserFits(s.b, c, closer)
    ensures var b := Run(s, es).value.b; c < |b.conns| && b.conns[c].closed && CloserFits(b, c, closer)
    decreases |es|
  {
    if es != [] {
      StepCloses(s, es[0], c);
      StepExtendsInstalled(s, es[0]);
      if closer.Discard? {
        ClosedIsNotInstalled(s, es[0], c);
      }
      InstallsOnlyGrow(Next(s, es[0]).value, es[1..]);
      NextKeepsInv(s, es[0]);
      StaysFitting(Next(s, es[0]).value, es[1..], c, closer);
    }
  }

  lemma {:induction false} CloserOverRun(s: Sys, es: seq<Event>, c: nat)
    requires Inv(s) && Run(s, es).Some? && |Run(s, es).value.b.installed| < GENERATIONS
    requires c < |Run(s, es).value.b.conns| && (c < |s.b.conns| ==> !s.b.conns[c].closed)
    ensures var b, closer := Run(s, es).value.b, ClosedBy(s, es, c);
            && (b.conns[c].closed <==> closer.Some?)
            && (closer.Some? ==> CloserFits(b, c, closer.value))
    decreases |es|
  {
    if es != [] {
      var s' := Next(s, es[0]).value;
      StepCloses(s, es[0], c);
      InstallsOnlyGrow(s', es[1..]);
      NextKeepsInv(s, es[0]);
      if CloserIn(s, es[0], c).Some? {
        StepFits(s, es[0], c);
        StaysFitting(s', es[1..], c, CloserIn(s, es[0], c).value);
      } else {
        if |s.b.conns| <= c < |s'.b.conns| {
          NewConnIsOpen(s, es[0], c);
        }
        CloserOverRun(s', es[1..], c);
      }
    }
  }

  lemma NewConnIsOpen(s: Sys, e: Event, c: nat)
    requires Next(s, e).Some? && |s.b.conns| <= c < |Next(s, e).value.b.conns|
    ensures !Next(s, e).value.b.conns[c].closed
  {
    StepBind(s, e);
  }

  /**
   Over every run and both regions of dial: a connection is closed exactly if Close, the entry of
   a dial or the discard of a dial closed it. A dial entered with a nonzero g closes only the
   connection of generation g, Close only one that was installed, and a discard only one that
   never was.
   */
  lemma WhoClosesWhat(es: seq<Event>, c: nat)
    requires Run(Start, es).Some? && |Run(Start, es).value.b.installed| < GENERATIONS
    requires c < |Run(Start, es).value.b.conns|
    ensures var b, closer := Run(Start, es).value.b, ClosedBy(Start, es, c);
            && (b.conns[c].closed <==> closer.Some?)
            && (closer.Some? ==> CloserFits(b, c, closer.value))
  {
    CloserOverRun(Start, es, c);
  }

  // ---- notes on one call of receive ----

  datatype ConnChange = NoChange | InstalledBy(t: nat) | ClearedByDial(t: nat) | ClearedByClose

  /** How this step changes the current connection. */
  function ChangeIn(s: Sys, e: Event): ConnChange {
    match e
    case CallClose => if s.b.conn.Some? then ClearedByClose else NoChange
    case Step(t) =>
      if t !in s.threads then NoChange
      else if s.threads[t].Entering? && s.b.conn.Some? && DialEnter(s.b, s.threads[t].staleGen).1.Proceed?
      then ClearedByDial(t)
      else if s.threads[t].Finishing? && s.b.open then InstalledBy(t)
      else NoChange
    case _ => NoChange
  }

  predicate ForReceive(caller: Caller) {
    caller.RecvNil? || caller.RecvRetry?
  }

  predicate InDialCall(pc: Pc) {
    pc.Entering? || pc.Dialing? || pc.Finishing?
  }

  predicate InDialFor(pc: Pc, caller: Caller) {
    InDialCall(pc) && pc.caller == caller
  }

  /** The program counters of a call of receive. */
  predicate IsReceive(pc: Pc) {
    || pc.RecvStart? || pc.RecvAgain? || pc.Reading? || pc.ReadFailed?
    || (InDialCall(pc) && ForReceive(pc.caller))
  }

  /** The steps at which receive looks at open and acts on it; the redial's result is not looked at. */
  predicate Checks(s: Sys, e: Event, t: nat) {
    && e == Step(t) && t in s.threads
    && var pc := s.threads[t];
       || pc.RecvStart? || pc.RecvAgain? || pc.ReadFailed?
       || ((pc.Entering? || pc.Finishing?) && pc.caller.RecvNil?)
  }

  /**
   Notes on the call that thread t is in, made from the events. stopped: the bind was not open at
   the call or Close has come since. checked: stopped, at receive's last check. closer: who closed
   the connection while a header or a body was read from it; what comes of a drain does not matter.
   change: the last change of the current
   connection since t's own last step, and so, at RecvAgain, since its own dial returned.
   */
  datatype Note = Note(stopped: bool, checked: bool, closer: Option<Closer>, change: ConnChange)

  const NoNote := Note(false, false, None, NoChange)

  function Observe(t: nat, n: Note, s: Sys, e: Event): Note {
    if e == CallReceive(t) then Note(!s.b.open, false, None, NoChange)
    else
      var reading := t in s.threads && s.threads[t].Reading? && s.threads[t].conn.Some? && !s.threads[t].part.Drain?;
      var closer := if reading then CloserIn(s, e, s.threads[t].conn.value) else None;
      var change := if e == Step(t) then NoChange
                    else if ChangeIn(s, e).NoChange? then n.change
                    else ChangeIn(s, e);
      Note(n.stopped || e.CallClose?,
           if Checks(s, e, t) then n.stopped else n.checked,
           if closer.Some? then closer else n.closer,
           change)
  }

  function Observed(t: nat, n: Note, s: Sys, es: seq<Event>): Note
    requires Run(s, es).Some?
    decreases |es|
  {
    if es == [] then n else Observed(t, Observe(t, n, s, es[0]), Next(s, es[0]).value, es[1..])
  }

  /** The read ended on a connection that the dial of another thread had closed. */
  predicate CutByDial(n: Note, t: nat) {
    n.closer.Some? && n.closer.value.DialEntry? && n.closer.value.t != t
  }

  ghost predicate CloserKnown(n: Note, t: nat) {
    n.closer.Some? ==> CutByDial(n, t) || (n.closer.value.CloseCall? && n.stopped)
  }

  ghost predicate ChangeKnown(b: Bind, n: Note, t: nat) {
    && (b.conn.Some? <==> n.change.NoChange? || n.change.InstalledBy?)
    && (n.change.ClearedByClose? ==> n.stopped)
    && (n.change.ClearedByDial? ==> n.change.t != t)
  }

  ghost predicate PcKnown(b: Bind, pc: Pc, n: Note, t: nat) {
    && (n.stopped <==> !b.open) && !n.checked
    && (pc.RecvStart? || pc.RecvAgain? || InDialFor(pc, RecvNil) ==> n.closer.None?)
    && (pc.RecvAgain? ==> ChangeKnown(b, n, t))
    && (pc.Reading? && (pc.conn.None? || pc.part.Drain?) ==> n.closer.None?)
    && (pc.Reading? && pc.conn.Some? && !pc.part.Drain? ==>
          && CloserKnown(n, t)
          && pc.conn.value < |b.conns| && (b.conns[pc.conn.value].closed <==> n.closer.Some?))
    && (pc.ReadFailed? ==> CloserKnown(n, t) && (pc.cut <==> n.closer.Some?))
    && (InDialFor(pc, RecvRetry(true)) ==> CutByDial(n, t))
    && (InDialFor(pc, RecvRetry(false)) ==> n.closer.None?)
  }

  /** What the notes are worth while the call is in flight. */
  ghost predicate NoteOk(s: Sys, t: nat, n: Note) {
    t in s.threads && IsReceive(s.threads[t]) ==> PcKnown(s.b, s.threads[t], n, t)
  }

  lemma OthersLeavePc(s: Sys, e: Event, t: nat)
    requires Next(s, e).Some? && t in s.threads && !IsStepOf(e, t)
    ensures t in Next(s, e).value.threads && Next(s, e).value.threads[t] == s.threads[t]
  {
  }

  lemma OpenFlagWithReceive(s: Sys, e: Event, t: nat)
    requires Inv(s) && Next(s, e).Some? && t in s.threads && IsReceive(s.threads[t])
    ensures Next(s, e).value.b.open == (s.b.open && !e.CallClose?)
  {
    assert IsReceive(s.threads[t]) ==> !IsOpening(s.threads[t]);
  }

  lemma ChangeIsRight(s: Sys, e: Event)
    requires Inv(s) && Next(s, e).Some?
    ensures match ChangeIn(s, e)
            case NoChange => Next(s, e).value.b.conn == s.b.conn
            case InstalledBy(_) => Next(s, e).value.b.conn.Some?
            case _ => Next(s, e).value.b.conn.None?
  {
    StepBind(s, e);
  }

  /** Steps of others and of Close, while thread t is in receive. */
  lemma OthersKeepNote(s: Sys, e: Event, t: nat, n: Note)
    requires Inv(s) && Next(s, e).Some? && NoteOk(s, t, n)
    requires t in s.threads && IsReceive(s.threads[t]) && !IsStepOf(e, t)
    ensures NoteOk(Next(s, e).value, t, Observe(t, n, s, e))
  {
    var pc := s.threads[t];
    OthersLeavePc(s, e, t);
    OpenFlagWithReceive(s, e, t);
    ChangeIsRight(s, e);
    assert PcOk(s.b, s.failed, pc);
    if pc.Reading? && pc.conn.Some? {
      StepCloses(s, e, pc.conn.value);
      if CloserIn(s, e, pc.conn.value).Some? {
        StepClosesInstalled(s, e, pc.conn.value);
      }
    }
  }

  lemma StepClosesInstalled(s: Sys, e: Event, c: nat)
    requires Inv(s) && Next(s, e).Some? && c in s.b.installed && CloserIn(s, e, c).Some?
    ensures var closer := CloserIn(s, e, c).value;
            closer.CloseCall? || (closer.DialEntry? && e == Step(closer.t))
  {
    StepBind(s, e);
    if e.Step? {
      assert PcOk(s.b, s.failed, s.threads[e.t]);
    }
  }

  /** Steps of receive itself: outside dial, and in it. */
  lemma OwnStepKeepsNote(s: Sys, e: Event, t: nat, n: Note)
    requires Inv(s) && Next(s, e).Some? && NoteOk(s, t, n)
    requires t in s.threads && IsReceive(s.threads[t]) && IsStepOf(e, t) && !InDialCall(s.threads[t])
    ensures NoteOk(Next(s, e).value, t, Observe(t, n, s, e))
  {
    assert PcOk(s.b, s.failed, s.threads[t]);
    OpenFlagWithReceive(s, e, t);
  }

  lemma OwnDialKeepsNote(s: Sys, e: Event, t: nat, n: Note)
    requires Inv(s) && Next(s, e).Some? && NoteOk(s, t, n)
    requires t in s.threads && IsReceive(s.threads[t]) && IsStepOf(e, t) && InDialCall(s.threads[t])
    ensures NoteOk(Next(s, e).value, t, Observe(t, n, s, e))
  {
    assert PcOk(s.b, s.failed, s.threads[t]);
    OpenFlagWithReceive(s, e, t);
  }

  lemma NextKeepsNote(s: Sys, e: Event, t: nat, n: Note)
    requires Inv(s) && Next(s, e).Some? && NoteOk(s, t, n)
    ensures NoteOk(Next(s, e).value, t, Observe(t, n, s, e))
  {
    if t in s.threads && IsReceive(s.threads[t]) {
      if IsStepOf(e, t) {
        if InDialCall(s.threads[t]) {
          OwnDialKeepsNote(s, e, t, n);
        } else {
          OwnStepKeepsNote(s, e, t, n);
        }
      } else {
        OthersKeepNote(s, e, t, n);
      }
    } else if t in Next(s, e).value.threads && IsReceive(Next(s, e).value.threads[t]) {
      OnlyCallsBeginReceive(s, e, t);
    }
  }

  lemma OtherDialsEndElsewhere(s: Sys, t: nat, caller: Caller, r: DialResult)
    requires !ForReceive(caller)
    ensures var threads := AfterDial(s, t, caller, r).threads; t in threads ==> !IsReceive(threads[t])
  {
  }

  lemma OnlyCallsBeginReceive(s: Sys, e: Event, t: nat)
    requires Next(s, e).Some? && !(t in s.threads && IsReceive(s.threads[t]))
    requires t in Next(s, e).value.threads && IsReceive(Next(s, e).value.threads[t])
    ensures e == CallReceive(t) && Next(s, e).value.threads[t] == RecvStart && Next(s, e).value.b == s.b
  {
    if e == Step(t) && s.threads[t].Finishing? {
      var pc := s.threads[t];
      var (b', installed) := DialFinish(s.b, pc.c);
      OtherDialsEndElsewhere(s.(b := b'), t, pc.caller, if installed then DialOk else DialClosed);
    } else if e == Step(t) && s.threads[t].Entering? {
      OtherDialsEndElsewhere(s, t, s.threads[t].caller, DialOk);
      OtherDialsEndElsewhere(s, t, s.threads[t].caller, DialClosed);
    } else if e.DialReturns? && e.t == t {
      OtherDialsEndElsewhere(s, t, s.threads[t].caller, e.answer);
    }
  }

  lemma {:induction false} NotesOverRun(s: Sys, es: seq<Event>, t: nat, n: Note)
    requires Inv(s) && NoteOk(s, t, n)
    requires Run(s, es).Some? && |Run(s, es).value.b.installed| < GENERATIONS
    ensures Inv(Run(s, es).value) && NoteOk(Run(s, es).value, t, Observed(t, n, s, es))
    decreases |es|
  {
    if es != [] {
      InstallsOnlyGrow(Next(s, es[0]).value, es[1..]);
      NextKeepsInv(s, es[0]);
      NextKeepsNote(s, es[0], t, n);
      NotesOverRun(Next(s, es[0]).value, es[1..], t, Observe(t, n, s, es[0]));
    }
  }

  // ---- the nil connection ----

  /** The one program point from which receive reads nil. */
  predicate AtNil(s: Sys, t: nat) {
    t in s.threads && s.threads[t].Reading? && s.threads[t].conn.None?
  }

  lemma NilComesFromRecvAgain(s: Sys, e: Event, t: nat)
    requires Next(s, e).Some? && !AtNil(s, t)
    ensures AtNil(Next(s, e).value, t) <==>
            e == Step(t) && s.threads[t].RecvAgain? && s.b.open && s.b.conn.None?
  {
  }

  /**
   receive is about to read from nil exactly if, at its second look at an open bind, the last
   change of the current connection since its own dial returned was the entry of another dial.
   */
  lemma NilReadIff(es: seq<Event>, e: Event, t: nat)
    requires Run(Start, es).Some? && |Run(Start, es).value.b.installed| < GENERATIONS
    requires Next(Run(Start, es).value, e).Some? && !AtNil(Run(Start, es).value, t)
    ensures var s, change := Run(Start, es).value, Observed(t, NoNote, Start, es).change;
            && (AtNil(Next(s, e).value, t) <==>
                  e == Step(t) && s.threads[t].RecvAgain? && s.b.open && change.ClearedByDial?)
            && (AtNil(Next(s, e).value, t) ==> change.t != t)
  {
    NotesOverRun(Start, es, t, NoNote);
    NilComesFromRecvAgain(Run(Start, es).value, e, t);
  }

  // ---- what receive returns ----

  datatype Outcome =
    | Took                      // a frame, or the error for an oversized one
    | OwnErrClosed              // receive found the bind not open
    | DialError(r: DialResult)  // dial's error, passed on
    | ReadError(cut: bool)      // the read's error, which is ErrClosed if its connection was closed

  /** What receive returns if this event ends it. */
  function Returned(s: Sys, e: Event, t: nat): Option<Outcome>
    requires Next(s, e).Some?
  {
    if t !in s.threads || !IsReceive(s.threads[t]) || !IsStepOf(e, t) then None
    else
      var pc := s.threads[t];
      match e
      case ReadReturns(_, r) =>
        if r.GotRest? || (r.GotHeader? && r.n == 0) || pc.part.Drain? then Some(Took) else None
      case DialReturns(_, r) =>
        if r.DialOk? then None
        else Some(if pc.caller.RecvNil? then DialError(r) else ReadError(pc.caller.cut))
      case Step(_) =>
        if pc.Entering? || pc.Finishing? then
          if pc.caller.RecvRetry? then
            if pc.Entering? && DialEnter(s.b, pc.staleGen).1.Proceed? then None else Some(ReadError(pc.caller.cut))
          else if s.b.open then None else Some(DialError(DialClosed))
        else if !s.b.open && !pc.Reading? then Some(OwnErrClosed)
        else None
      case _ => None
  }

  /** errors.Is(err, net.ErrClosed) on what receive returned. */
  predicate IsErrClosed(o: Outcome) {
    o.OwnErrClosed? || o == DialError(DialClosed) || o == ReadError(true)
  }

  lemma OwnStepMeansReturn(s: Sys, e: Event, t: nat)
    requires Inv(s) && Next(s, e).Some? && t in s.threads && IsReceive(s.threads[t])
    requires IsStepOf(e, t) && !InDialCall(s.threads[t])
    ensures Returned(s, e, t).Some? <==> t !in Next(s, e).value.threads
  {
  }

  lemma OwnDialMeansReturn(s: Sys, e: Event, t: nat)
    requires Inv(s) && Next(s, e).Some? && t in s.threads && IsReceive(s.threads[t])
    requires IsStepOf(e, t) && InDialCall(s.threads[t])
    ensures Returned(s, e, t).Some? <==> t !in Next(s, e).value.threads
  {
    assert PcOk(s.b, s.failed, s.threads[t]);
  }

  lemma ReturnedMeansReturn(s: Sys, e: Event, t: nat)
    requires Inv(s) && Next(s, e).Some? && t in s.threads && IsReceive(s.threads[t])
    ensures Returned(s, e, t).Some? <==> t !in Next(s, e).value.threads
  {
    if !IsStepOf(e, t) {
      OthersLeavePc(s, e, t);
    } else if InDialCall(s.threads[t]) {
      OwnDialMeansReturn(s, e, t);
    } else {
      OwnStepMeansReturn(s, e, t);
    }
  }

  /** An end of receive that gives ErrClosed without a check of open: a cut read, or the dialer's own word. */
  predicate ClosedElsewhere(n: Note, s: Sys, e: Event, t: nat) {
    CutByDial(n, t) || (e == DialReturns(t, DialClosed) && t in s.threads && s.threads[t] == Dialing(RecvNil))
  }

  lemma ReturnedKnown(s: Sys, e: Event, t: nat, n: Note)
    requires Inv(s) && Next(s, e).Some? && NoteOk(s, t, n) && Returned(s, e, t).Some?
    ensures var o, n' := Returned(s, e, t).value, Observe(t, n, s, e);
            && (IsErrClosed(o) <==> n'.checked || ClosedElsewhere(n', s, e, t))
            && (n'.stopped <==> !Next(s, e).value.b.open)
            && (n'.checked ==> n'.stopped)
  {
    assert PcOk(s.b, s.failed, s.threads[t]);
    StepBind(s, e);
  }

  /** ErrClosed although nobody has called Close. */
  predicate FalseAlarm(n: Note, s: Sys, e: Event, t: nat) {
    ClosedElsewhere(n, s, e, t) && !n.stopped
  }

  /** Close came after the last time receive looked, and something else ended the call. */
  predicate UnseenClose(n: Note, s: Sys, e: Event, t: nat) {
    n.stopped && !n.checked && !ClosedElsewhere(n, s, e, t)
  }

  /**
   receive returns ErrClosed exactly if Close had come by its last check, or the dial of another
   thread closed the connection under its read, or the dialer answered its dial with ErrClosed. So
   "ErrClosed if and only if Close has been called", which is if and only if the bind is not open
   at the return, holds of a call exactly if it is neither a false alarm nor has missed a late Close.
   */
  lemma ErrClosedIff(es: seq<Event>, e: Event, t: nat)
    requires Run(Start, es).Some? && |Run(Start, es).value.b.installed| < GENERATIONS
    requires Next(Run(Start, es).value, e).Some? && Returned(Run(Start, es).value, e, t).Some?
    ensures var s := Run(Start, es).value;
            var o, n := Returned(s, e, t).value, Observe(t, Observed(t, NoNote, Start, es), s, e);
            && (IsErrClosed(o) <==> n.checked || ClosedElsewhere(n, s, e, t))
            && (n.stopped <==> !Next(s, e).value.b.open)
            && ((IsErrClosed(o) <==> n.stopped) <==> !FalseAlarm(n, s, e, t) && !UnseenClose(n, s, e, t))
  {
    NotesOverRun(Start, es, t, NoNote);
    var s := Run(Start, es).value;
    ReturnedKnown(s, e, t, Observed(t, NoNote, Start, es));
  }
}
