/** The write lock of TCPBind is always released, and no call waits for anything but the network. */
module TcpProgress {
  import opened Bytes
  import opened TcpProtocol
  import opened TcpSafety

  predicate IsStepOf(e: Event, t: nat) {
    (e.Lock? || e.Step? || e.Write? || e.DialReturns? || e.ReadReturns?) && e.t == t
  }

  /** In every state of the invariant a thread can move, unless it waits for a writeMu in use or has panicked. */
  lemma OnlyTheLockBlocks(s: Sys, t: nat)
    requires Inv(s) && t in s.threads && !s.threads[t].Panicked?
    requires !(s.threads[t].AwaitLock? && s.writer.Some?)
    ensures exists e :: IsStepOf(e, t) && Next(s, e).Some?
  {
    var pc := s.threads[t];
    assert PcOk(s.b, s.failed, pc);
    var e := match pc
      case AwaitLock(_) => Lock(t)
      case Writing(_, _, _, _) => Write(t, Cut(0))
      case Dialing(_) => DialReturns(t, DialFailed)
      case Reading(Some(c), _, _) => ReadReturns(t, if s.b.conns[c].closed then ClosedError(0) else NetError(0))
      case _ => Step(t);
    assert IsStepOf(e, t) && Next(s, e).Some?;
  }

  function TurnsLeft(attempt: nat): nat {
    if attempt < 3 then 3 - attempt else 1
  }

  /** Steps that a sendOne holding writeMu can still make. */
  function StepsLeft(pc: Pc): nat
    requires HoldsLock(pc)
  {
    match pc
    case LoopHead(_, attempt) => if attempt >= 3 then 1 else 5 * TurnsLeft(attempt) + 1
    case Writing(_, attempt, _, _) => 5 * TurnsLeft(attempt)
    case Entering(caller, _) => 5 * TurnsLeft(caller.attempt) - 1
    case Dialing(caller) => 5 * TurnsLeft(caller.attempt) - 2
    case Finishing(caller, _) => 5 * TurnsLeft(caller.attempt) - 3
  }

  /**
   Each step of the thread that holds writeMu brings it nearer to its return, and the steps of
   others do not hold it up: once it has the lock, sendOne makes at most 16 steps.
   */
  lemma HolderReturns(s: Sys, e: Event, t: nat)
    requires t in s.threads && HoldsLock(s.threads[t]) && Next(s, e).Some?
    requires s.writer == Some(t)
    ensures var s' := Next(s, e).value;
            if IsStepOf(e, t) then
              if t in s'.threads then
                && HoldsLock(s'.threads[t]) && s'.writer == Some(t)
                && StepsLeft(s'.threads[t]) < StepsLeft(s.threads[t])
              else s'.writer.None?
            else t in s'.threads && s'.threads[t] == s.threads[t] && s'.writer == Some(t)
    ensures s.threads[t].LoopHead? && s.threads[t].attempt == 0 ==> StepsLeft(s.threads[t]) == 16
  {
  }

  /** Own steps of thread t in a run, up to its return. */
  function OwnSteps(s: Sys, es: seq<Event>, t: nat): nat
    decreases |es|
  {
    if es == [] || t !in s.threads || Next(s, es[0]).None? then 0
    else (if IsStepOf(es[0], t) then 1 else 0) + OwnSteps(Next(s, es[0]).value, es[1..], t)
  }

  /** Over every run: a sendOne with the lock returns after at most 16 steps of its own. */
  lemma {:induction false} LockIsReleased(s: Sys, es: seq<Event>, t: nat)
    requires t in s.threads && HoldsLock(s.threads[t]) && s.writer == Some(t)
    requires Run(s, es).Some?
    ensures OwnSteps(s, es, t) <= StepsLeft(s.threads[t])
    decreases |es|
  {
    if es != [] {
      HolderReturns(s, es[0], t);
      var s' := Next(s, es[0]).value;
      if t in s'.threads {
        LockIsReleased(s', es[1..], t);
      }
    }
  }
}
