/**
 The TCPBind protocol over all interleavings of Send, receive, Open and Close.

 The regions that the source runs under the bind's mutex are functions on a Bind value.
 Everything between them, including the gap in the middle of a dial, is a point where any
 other thread may run: a thread is a program counter, and Next takes one step of one thread.
 */
module TcpProtocol {
  import opened Bytes
  import opened Framing

  /** connGen is a uint64. */
  const GENERATIONS: nat := 0x1_0000_0000_0000_0000

  /**
   A connection: every byte that reached it, and whether the bind has closed it. whole and cut
   are history: the datagrams of the successful writes, and the bytes of failed ones.
   */
  datatype Conn = Conn(log: seq<byte>, closed: bool, whole: seq<Datagram>, cut: seq<byte>)

  const Fresh := Conn([], false, [], [])

  /**
   The bind and the connections the dialer has returned to it, by number.
   installed is history: the connections that became current, in order.
   */
  datatype Bind = Bind(open: bool, conn: Option<nat>, connGen: nat, conns: seq<Conn>, installed: seq<nat>)

  const NewBind := Bind(false, None, 0, [], [])

  function MarkClosed(conns: seq<Conn>, c: nat): seq<Conn> {
    if c < |conns| then conns[c := conns[c].(closed := true)] else conns
  }

  // ---- the locked regions ----

  function CloseCurrent(b: Bind): Bind {
    if b.conn.Some? then b.(conns := MarkClosed(b.conns, b.conn.value), conn := None) else b
  }

  function CloseBind(b: Bind): Bind {
    CloseCurrent(b).(open := false)
  }

  datatype Verdict = Refused | AlreadyReconnected | Proceed

  /** The first locked region of dial. */
  function DialEnter(b: Bind, staleGen: nat): (Bind, Verdict) {
    if !b.open then (b, Refused)
    else if staleGen != 0 && staleGen != b.connGen then (b, AlreadyReconnected)
    else (CloseCurrent(b), Proceed)
  }

  /** The dialer returns connection number |b.conns|. */
  function Dialed(b: Bind): Bind {
    b.(conns := b.conns + [Fresh])
  }

  /** The second locked region of dial; the flag says whether c was installed. */
  function DialFinish(b: Bind, c: nat): (Bind, bool) {
    if !b.open then (b.(conns := MarkClosed(b.conns, c)), false)
    else (b.(conn := Some(c), connGen := (b.connGen + 1) % GENERATIONS, installed := b.installed + [c]), true)
  }

  datatype WriteOutcome = Wrote | Cut(k: nat)

  /** One Write of a frame: all of it, or a strict prefix and an error. */
  predicate PossibleWrite(b: Bind, c: nat, p: Datagram, w: WriteOutcome) {
    c < |b.conns| && match w case Wrote => !b.conns[c].closed case Cut(k) => k < |Frame(p)|
  }

  function AfterWrite(conn: Conn, p: Datagram, w: WriteOutcome): Conn
    requires w.Cut? ==> w.k < |Frame(p)|
  {
    match w
    case Wrote => conn.(log := conn.log + Frame(p), whole := conn.whole + [p])
    case Cut(k) => conn.(log := conn.log + Frame(p)[..k], cut := conn.cut + Frame(p)[..k])
  }

  function WriteFrame(b: Bind, c: nat, p: Datagram, w: WriteOutcome): Bind
    requires PossibleWrite(b, c, p, w)
  {
    b.(conns := b.conns[c := AfterWrite(b.conns[c], p, w)])
  }

  // ---- threads ----

  /** What dial returns: no error, or one that errors.Is tells from net.ErrClosed, or one that it does not. */
  datatype DialResult = DialOk | DialFailed | DialClosed

  /** Who called dial, and so what happens when it returns. */
  datatype Caller =
    | SendNil(p: Datagram, attempt: nat)     // sendOne found no connection
    | SendRetry(p: Datagram, attempt: nat)   // sendOne's write failed
    | RecvNil                                // receive found no connection
    | RecvRetry(cut: bool)                   // receive's read failed, cut if on a closed connection
    | Opening                                // Open

  /** The length of a frame that is not empty. */
  type Length = n: int | 0 < n <= 0xFFFF witness 1

  /** The part of a frame that receive is reading, with the size of the caller's buffer. */
  datatype Part = Header | Body(n: Length, size: nat) | Drain(n: Length, size: nat)

  function Need(part: Part): nat {
    if part.Header? then 2 else part.n
  }

  /**
   How one io.ReadFull of receive ends: with a header that says n, for a buffer of this size, with
   the rest of the frame, or with an error after k bytes.
   */
  datatype ReadOutcome = GotHeader(n: nat, size: nat) | GotRest | NetError(k: nat) | ClosedError(k: nat)

  predicate OutcomeOf(part: Part, r: ReadOutcome) {
    match r
    case GotHeader(n, _) => part.Header? && n <= 0xFFFF
    case GotRest => !part.Header?
    case NetError(k) => k < Need(part)
    case ClosedError(k) => k < Need(part)
  }

  /** Reads of a connection that the bind has closed fail for that reason, and only those. */
  predicate PossibleRead(b: Bind, c: nat, part: Part, r: ReadOutcome) {
    c < |b.conns| && (r.ClosedError? <==> b.conns[c].closed) && OutcomeOf(part, r)
  }

  datatype Pc =
    | AwaitLock(p: Datagram)                                     // sendOne waits for writeMu
    | LoopHead(p: Datagram, attempt: nat)                        // sendOne, before currentConn
    | Writing(p: Datagram, attempt: nat, c: nat, gen: nat)       // sendOne, before Write
    | Entering(caller: Caller, staleGen: nat)                    // dial, before its first region
    | Dialing(caller: Caller)                                    // dial, unlocked
    | Finishing(caller: Caller, c: nat)                          // dial, before its second region
    | RecvStart
    | RecvAgain                                                  // receive, second currentConn
    | Reading(conn: Option<nat>, gen: nat, part: Part)           // receive, with what currentConn gave it
    | ReadFailed(c: nat, gen: nat, cut: bool)                    // receive, before isOpen
    | Panicked                                                   // receive, having read from nil
    | Reverting                                                  // Open, before open = false

  /**
   The whole system. writer is the holder of writeMu. sent and failed are history: the
   datagrams whose sendOne returned nil, and the connections that had a write fail.
   */
  datatype Sys = Sys(b: Bind, threads: map<nat, Pc>, writer: Option<nat>, sent: seq<Datagram>, failed: set<nat>)

  const Start := Sys(NewBind, map[], None, [], {})

  predicate IsOpening(pc: Pc) {
    || pc.Reverting?
    || ((pc.Entering? || pc.Dialing? || pc.Finishing?) && pc.caller.Opening?)
  }

  /** The program counters of a sendOne that holds writeMu. */
  predicate HoldsLock(pc: Pc) {
    || pc.LoopHead? || pc.Writing?
    || ((pc.Entering? || pc.Dialing? || pc.Finishing?) && (pc.caller.SendNil? || pc.caller.SendRetry?))
  }

  predicate OpenInFlight(s: Sys) {
    exists t :: t in s.threads && IsOpening(s.threads[t])
  }

  function Goto(s: Sys, t: nat, pc: Pc): Sys {
    s.(threads := s.threads[t := pc])
  }

  /** The call of thread t returns; a deferred unlock releases writeMu. */
  function Return(s: Sys, t: nat): Sys {
    s.(threads := s.threads - {t}, writer := if s.writer == Some(t) then None else s.writer)
  }

  function AfterDial(s: Sys, t: nat, caller: Caller, r: DialResult): Sys {
    match caller
    case SendNil(p, attempt) => if r.DialClosed? then Return(s, t) else Goto(s, t, LoopHead(p, attempt + 1))
    case SendRetry(p, attempt) => Goto(s, t, LoopHead(p, attempt + 1))
    case RecvNil => if r.DialOk? then Goto(s, t, RecvAgain) else Return(s, t)
    case RecvRetry(_) => Return(s, t)
    case Opening => if r.DialOk? then Return(s, t) else Goto(s, t, Reverting)
  }

  datatype Event =
    | CallSend(t: nat, p: Datagram)
    | CallReceive(t: nat)
    | CallOpen(t: nat)
    | CallClose
    | Lock(t: nat)                          // writeMu is granted
    | Step(t: nat)                          // a locked region of thread t
    | Write(t: nat, w: WriteOutcome)
    | DialReturns(t: nat, answer: DialResult)   // the dialer's answer, DialClosed if it is net.ErrClosed
    | ReadReturns(t: nat, r: ReadOutcome)       // one io.ReadFull

  function StepThread(s: Sys, t: nat): Option<Sys>
    requires t in s.threads
  {
    var b := s.b;
    match s.threads[t]
    case LoopHead(p, attempt) =>
      if attempt >= 3 || !b.open then Some(Return(s, t))
      else if b.conn.None? then Some(Goto(s, t, Entering(SendNil(p, attempt), 0)))
      else Some(Goto(s, t, Writing(p, attempt, b.conn.value, b.connGen)))
    case Entering(caller, staleGen) =>
      var (b', v) := DialEnter(b, staleGen);
      if v.Refused? then Some(AfterDial(s, t, caller, DialClosed))
      else if v.AlreadyReconnected? then Some(AfterDial(s, t, caller, DialOk))
      else Some(Goto(s.(b := b'), t, Dialing(caller)))
    case Finishing(caller, c) =>
      var (b', installed) := DialFinish(b, c);
      Some(AfterDial(s.(b := b'), t, caller, if installed then DialOk else DialClosed))
    case RecvStart =>
      if !b.open then Some(Return(s, t))
      else if b.conn.None? then Some(Goto(s, t, Entering(RecvNil, 0)))
      else Some(Goto(s, t, Reading(b.conn, b.connGen, Header)))
    case RecvAgain =>
      if !b.open then Some(Return(s, t)) else Some(Goto(s, t, Reading(b.conn, b.connGen, Header)))
    case Reading(conn, _, _) => if conn.None? then Some(Goto(s, t, Panicked)) else None
    case ReadFailed(_, gen, cut) =>
      if !b.open then Some(Return(s, t)) else Some(Goto(s, t, Entering(RecvRetry(cut), gen)))
    case Reverting => Some(Return(s.(b := b.(open := false)), t))
    case _ => None
  }

  /** A drain that breaks off makes no difference: the frame was too big either way. */
  function AfterRead(s: Sys, t: nat, r: ReadOutcome): Sys
    requires t in s.threads && s.threads[t].Reading? && s.threads[t].conn.Some?
    requires r.GotHeader? ==> r.n <= 0xFFFF
  {
    var Reading(conn, gen, part) := s.threads[t];
    match r
    case GotHeader(n, size) =>
      if n == 0 then Return(s, t)
      else if n > size then Goto(s, t, Reading(conn, gen, Drain(n, size)))
      else Goto(s, t, Reading(conn, gen, Body(n, size)))
    case GotRest => Return(s, t)
    case _ => if part.Drain? then Return(s, t) else Goto(s, t, ReadFailed(conn.value, gen, r.ClosedError?))
  }

  /**
   One step, or None where the event is not possible. Open starts only while no other call is
   in flight, and no Send or receive starts while an Open is; Close may run at any time.
   */
  function Next(s: Sys, e: Event): Option<Sys> {
    match e
    case CallSend(t, p) =>
      if t in s.threads || OpenInFlight(s) then None else Some(Goto(s, t, AwaitLock(p)))
    case CallReceive(t) =>
      if t in s.threads || OpenInFlight(s) then None else Some(Goto(s, t, RecvStart))
    case CallOpen(t) =>
      if s.b.open then Some(s)  // ErrBindAlreadyOpen
      else if s.threads != map[] then None
      else Some(Goto(s.(b := s.b.(open := true)), t, Entering(Opening, s.b.connGen)))
    case CallClose => Some(s.(b := CloseBind(s.b)))
    case Lock(t) =>
      if t in s.threads && s.threads[t].AwaitLock? && s.writer.None?
      then Some(Goto(s, t, LoopHead(s.threads[t].p, 0)).(writer := Some(t)))
      else None
    case Step(t) => if t in s.threads then StepThread(s, t) else None
    case Write(t, w) =>
      if t in s.threads && s.threads[t].Writing? && PossibleWrite(s.b, s.threads[t].c, s.threads[t].p, w)
      then
        var pc := s.threads[t];
        var s' := s.(b := WriteFrame(s.b, pc.c, pc.p, w));
        if w.Wrote? then Some(Return(s', t).(sent := s.sent + [pc.p]))
        else Some(Goto(s', t, Entering(SendRetry(pc.p, pc.attempt), pc.gen)).(failed := s.failed + {pc.c}))
      else None
    case DialReturns(t, r) =>
      if t in s.threads && s.threads[t].Dialing?
      then
        var caller := s.threads[t].caller;
        if r.DialOk? then Some(Goto(s.(b := Dialed(s.b)), t, Finishing(caller, |s.b.conns|)))
        else Some(AfterDial(s, t, caller, r))
      else None
    case ReadReturns(t, r) =>
      if t in s.threads && s.threads[t].Reading? && s.threads[t].conn.Some?
         && PossibleRead(s.b, s.threads[t].conn.value, s.threads[t].part, r)
      then Some(AfterRead(s, t, r))
      else None
  }

  /** A run: the state after all the events, or None if one of them was not possible. */
  function Run(s: Sys, es: seq<Event>): Option<Sys>
    decreases |es|
  {
    if es == [] then Some(s)
    else
      var next := Next(s, es[0]);
      if next.None? then None else Run(next.value, es[1..])
  }

  // ---- what the peer sees ----

  ghost predicate InstalledExist(b: Bind) {
    forall i :: 0 <= i < |b.installed| ==> b.installed[i] < |b.conns|
  }

  /** The connections in generation order: entry g - 1 is generation g. */
  ghost function ByGeneration(b: Bind): (cs: seq<Conn>)
    requires InstalledExist(b)
    ensures |cs| == |b.installed|
    ensures forall i :: 0 <= i < |cs| ==> cs[i] == b.conns[b.installed[i]]
  {
    seq(|b.installed|, i requires 0 <= i < |b.installed| => b.conns[b.installed[i]])
  }

  /** Each log decoded as whole frames, its cut frame dropped, in generation order. */
  ghost function PeerView(cs: seq<Conn>): seq<Datagram> {
    if cs == [] then [] else PeerView(cs[..|cs| - 1]) + Decode(cs[|cs| - 1].log).frames
  }
}
