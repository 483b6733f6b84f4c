/** The anchor thread of NetNS: RunOnAnchor callers, the serving loop, and Close. */
module Anchor {
  import opened Bytes

  datatype Caller =
    | Selecting                  // RunOnAnchor, at its select
    | Waiting                    // its task was taken; waits on its own errCh
    | Got(v: int)                // returned the result of its task
    | Refused                    // returned "netns closed"

  datatype AnchorPc = Serving | Running(t: nat) | Exited

  /**
   errChs holds the one-slot channels that have a result in them. started and finished are
   history: the tasks in the order they were begun, and ended with what result.
   */
  datatype Sys = Sys(stopped: bool, anchor: AnchorPc, callers: map<nat, Caller>, errChs: map<nat, int>,
                     started: seq<nat>, finished: seq<(nat, int)>)

  const Start := Sys(false, Serving, map[], map[], [], [])

  datatype Event =
    | Call(t: nat)
    | Accept(t: nat)             // the unbuffered taskCh: caller and anchor meet
    | TaskDone(v: int)           // the task ends and its result goes into its channel
    | Deliver(t: nat)
    | Refuse(t: nat)
    | Stop                       // Close closes stopCh
    | Exit

  function Next(s: Sys, e: Event): Option<Sys> {
    match e
    case Call(t) => if t in s.callers then None else Some(s.(callers := s.callers[t := Selecting]))
    case Accept(t) =>
      if t !in s.callers || !s.callers[t].Selecting? || !s.anchor.Serving? then None
      else Some(s.(callers := s.callers[t := Waiting], anchor := Running(t), started := s.started + [t]))
    case TaskDone(v) =>
      if !s.anchor.Running? || s.anchor.t in s.errChs then None  // a full channel blocks
      else Some(s.(anchor := Serving, errChs := s.errChs[s.anchor.t := v], finished := s.finished + [(s.anchor.t, v)]))
    case Deliver(t) =>
      if t !in s.callers || !s.callers[t].Waiting? || t !in s.errChs then None
      else Some(s.(callers := s.callers[t := Got(s.errChs[t])], errChs := s.errChs - {t}))
    case Refuse(t) =>
      if t !in s.callers || !s.callers[t].Selecting? || !s.stopped then None
      else Some(s.(callers := s.callers[t := Refused]))
    case Stop => if s.stopped then None else Some(s.(stopped := true))
    case Exit => if !s.stopped || !s.anchor.Serving? then None else Some(s.(anchor := Exited))
  }

  function Run(s: Sys, es: seq<Event>): Option<Sys>
    decreases |es|
  {
    if es == [] then Some(s)
    else
      var next := Next(s, es[0]);
      if next.None? then None else Run(next.value, es[1..])
  }

  // ---- the invariant ----

  predicate IsAccepted(c: Caller) {
    c.Waiting? || c.Got?
  }

  function Enders(finished: seq<(nat, int)>): (ts: seq<nat>)
    ensures |ts| == |finished|
    ensures forall i :: 0 <= i < |ts| ==> ts[i] == finished[i].0
  {
    seq(|finished|, i requires 0 <= i < |finished| => finished[i].0)
  }

  /** Tasks run one after the other: all that were begun have ended, but for the one running. */
  ghost predicate InOrder(s: Sys) {
    s.started == Enders(s.finished) + if s.anchor.Running? then [s.anchor.t] else []
  }

  ghost predicate StartedOnce(s: Sys) {
    && (forall i, j :: 0 <= i < j < |s.started| ==> s.started[i] != s.started[j])
    && (forall t :: t in s.started <==> t in s.callers && IsAccepted(s.callers[t]))
  }

  ghost predicate ResultsOk(s: Sys) {
    && (forall t :: t in s.callers && s.callers[t].Got? ==> (t, s.callers[t].v) in s.finished)
    && (forall t :: t in s.errChs ==> (t, s.errChs[t]) in s.finished && t in s.callers && s.callers[t].Waiting?)
    && (forall t :: t in s.callers && s.callers[t].Waiting? ==> (t in s.errChs || s.anchor == Running(t)))
    && (s.anchor.Running? ==> s.anchor.t !in s.errChs && s.anchor.t in s.callers && s.callers[s.anchor.t].Waiting?)
  }

  ghost predicate Inv(s: Sys) {
    && InOrder(s) && StartedOnce(s) && ResultsOk(s)
    && (s.anchor.Exited? ==> s.stopped)
  }

  lemma NextKeepsOrder(s: Sys, e: Event)
    requires InOrder(s) && Next(s, e).Some?
    ensures InOrder(Next(s, e).value)
  {
    if e.TaskDone? {
      var s' := Next(s, e).value;
      assert Enders(s'.finished) == Enders(s.finished) + [s.anchor.t];
    }
  }

  lemma NextKeepsStartedOnce(s: Sys, e: Event)
    requires Inv(s) && Next(s, e).Some?
    ensures StartedOnce(Next(s, e).value)
  {
  }

  lemma NextKeepsResults(s: Sys, e: Event)
    requires Inv(s) && Next(s, e).Some?
    ensures ResultsOk(Next(s, e).value)
  {
    var s' := Next(s, e).value;
    assert forall x :: x in s.finished ==> x in s'.finished;
    if e.TaskDone? {
      assert (s.anchor.t, e.v) in s'.finished;
    }
  }

  lemma NextKeepsInv(s: Sys, e: Event)
    requires Inv(s) && Next(s, e).Some?
    ensures Inv(Next(s, e).value)
  {
    NextKeepsOrder(s, e);
    NextKeepsStartedOnce(s, e);
    NextKeepsResults(s, e);
  }

  lemma {:induction false} RunKeepsInv(s: Sys, es: seq<Event>)
    requires Inv(s) && Run(s, es).Some?
    ensures Inv(Run(s, es).value)
    decreases |es|
  {
    if es != [] {
      NextKeepsInv(s, es[0]);
      RunKeepsInv(Next(s, es[0]).value, es[1..]);
    }
  }

  // ---- every accepted task runs once, alone, for its own caller ----

  /** How often t occurs. */
  function Count(ts: seq<nat>, t: nat): nat {
    if ts == [] then 0 else (if ts[0] == t then 1 else 0) + Count(ts[1..], t)
  }

  lemma {:induction false} CountOfDistinct(ts: seq<nat>, t: nat)
    requires forall i, j :: 0 <= i < j < |ts| ==> ts[i] != ts[j]
    ensures Count(ts, t) == if t in ts then 1 else 0
  {
    if ts != [] {
      CountOfDistinct(ts[1..], t);
    }
  }

  /**
   In every reachable state: a caller's task has been begun once if it was accepted and never if
   not, all begun tasks but a running one have ended in the same order, and a caller that
   returned a result returned the one its own task ended with.
   */
  lemma TasksRunOnceInOrder(es: seq<Event>, t: nat)
    requires Run(Start, es).Some?
    ensures var s := Run(Start, es).value;
            && Count(s.started, t) == (if t in s.callers && IsAccepted(s.callers[t]) then 1 else 0)
            && s.started == Enders(s.finished) + (if s.anchor.Running? then [s.anchor.t] else [])
            && (t in s.callers && s.callers[t].Got? ==> (t, s.callers[t].v) in s.finished)
            && (forall i, j ::
                  0 <= i < |s.finished| && 0 <= j < |s.finished| && s.finished[i].0 == s.finished[j].0 ==> i == j)
  {
    RunKeepsInv(Start, es);
    var s := Run(Start, es).value;
    CountOfDistinct(s.started, t);
    assert forall i :: 0 <= i < |s.finished| ==> s.started[i] == s.finished[i].0;
  }

  // ---- nobody waits for ever ----

  function InState(callers: map<nat, Caller>, c: Caller): set<nat> {
    set t | t in callers && callers[t] == c
  }

  /** What is left to do, as long as no new call comes. */
  function Rank(s: Sys): nat {
    4 * |InState(s.callers, Selecting)| + 2 * |InState(s.callers, Waiting)|
    + (if s.anchor.Running? then 1 else 0) + (if s.anchor.Exited? then 0 else 1) + (if s.stopped then 0 else 1)
  }

  lemma InStateUpdate(callers: map<nat, Caller>, t: nat, c: Caller, d: Caller)
    requires t in callers
    ensures InState(callers[t := c], d) == InState(callers, d) - {t} + if c == d then {t} else {}
  {
    var callers' := callers[t := c];
    assert forall u :: u in callers && u != t ==> u in callers' && callers'[u] == callers[u];
    assert callers'[t] == c;
  }

  /** Caller t leaves one state for another. */
  lemma InStateSizes(callers: map<nat, Caller>, t: nat, c: Caller, d: Caller)
    requires t in callers && callers[t] != c
    ensures |InState(callers[t := c], d)| ==
            |InState(callers, d)| + (if c == d then 1 else 0) - (if callers[t] == d then 1 else 0)
  {
    InStateUpdate(callers, t, c, d);
    if callers[t] == d {
      assert t in InState(callers, d);
    } else {
      assert t !in InState(callers, d) && InState(callers, d) - {t} == InState(callers, d);
    }
  }

  lemma CallerStepsRunOut(s: Sys, t: nat, c: Caller)
    requires t in s.callers && s.callers[t] != c
    requires || (s.callers[t].Selecting? && c.Waiting?)
             || ((s.callers[t].Selecting? || s.callers[t].Waiting?) && (c.Got? || c.Refused?))
    ensures Rank(s.(callers := s.callers[t := c])) + 2 <= Rank(s)
  {
    InStateSizes(s.callers, t, c, Selecting);
    InStateSizes(s.callers, t, c, Waiting);
  }

  lemma StepsRunOut(s: Sys, e: Event)
    requires Next(s, e).Some? && !e.Call?
    ensures Rank(Next(s, e).value) < Rank(s)
  {
    if e.Accept? || e.Deliver? || e.Refuse? {
      CallerStepsRunOut(s, e.t, Next(s, e).value.callers[e.t]);
    }
  }

  /** After Close, some step is possible until every caller has returned and the anchor has gone. */
  lemma NeverStuckAfterClose(s: Sys)
    requires Inv(s) && s.stopped
    requires forall e :: Next(s, e).Some? ==> e.Call?
    ensures s.anchor.Exited? && forall t :: t in s.callers ==> s.callers[t].Got? || s.callers[t].Refused?
  {
    assert Next(s, Exit).None? && Next(s, TaskDone(0)).None?;
    forall t | t in s.callers
      ensures s.callers[t].Got? || s.callers[t].Refused?
    {
      assert Next(s, Refuse(t)).None? && Next(s, Deliver(t)).None?;
    }
  }

  ghost predicate NoNewCalls(es: seq<Event>) {
    forall i :: 0 <= i < |es| ==> !es[i].Call?
  }

  lemma {:induction false} RunsAreBounded(s: Sys, es: seq<Event>)
    requires Run(s, es).Some? && NoNewCalls(es)
    ensures |es| + Rank(Run(s, es).value) <= Rank(s)
    decreases |es|
  {
    if es != [] {
      StepsRunOut(s, es[0]);
      RunsAreBounded(Next(s, es[0]).value, es[1..]);
    }
  }

  /**
   From every reachable state after Close, whatever the interleaving: only so many more steps
   are possible without new calls, and when none is left every caller has its own task's result
   or the refusal, and the anchor has exited.
   */
  lemma EveryCallerReturns(es: seq<Event>, more: seq<Event>)
    requires Run(Start, es).Some? && Run(Start, es).value.stopped
    requires Run(Run(Start, es).value, more).Some? && NoNewCalls(more)
    ensures |more| <= Rank(Run(Start, es).value)
    ensures var s := Run(Run(Start, es).value, more).value;
            (forall e :: Next(s, e).Some? ==> e.Call?) ==>
              && s.anchor.Exited?
              && forall t :: t in s.callers ==>
                   s.callers[t].Refused? || (s.callers[t].Got? && (t, s.callers[t].v) in s.finished)
  {
    var s0 := Run(Start, es).value;
    RunKeepsInv(Start, es);
    RunsAreBounded(s0, more);
    RunKeepsInv(s0, more);
    StaysStopped(s0, more);
    var s := Run(s0, more).value;
    if forall e :: Next(s, e).Some? ==> e.Call? {
      NeverStuckAfterClose(s);
    }
  }

  lemma {:induction false} StaysStopped(s: Sys, es: seq<Event>)
    requires s.stopped && Run(s, es).Some?
    ensures Run(s, es).value.stopped
    decreases |es|
  {
    if es != [] {
      StaysStopped(Next(s, es[0]).value, es[1..]);
    }
  }

  // ---- who is refused, and who is served ----

  ghost predicate RefusalsOk(s: Sys) {
    forall t :: t in s.callers && s.callers[t].Refused? ==> s.stopped
  }

  lemma {:induction false} RefusalsOverRun(s: Sys, es: seq<Event>)
    requires RefusalsOk(s) && Run(s, es).Some?
    ensures RefusalsOk(Run(s, es).value)
    ensures Run(s, es).value.stopped <==> s.stopped || Stop in es
    decreases |es|
  {
    if es != [] {
      RefusalsOverRun(Next(s, es[0]).value, es[1..]);
    }
  }

  /** Over every run: a caller is refused only after Close. */
  lemma RefusedOnlyAfterClose(es: seq<Event>, t: nat)
    requires Run(Start, es).Some? && t in Run(Start, es).value.callers
    ensures Run(Start, es).value.callers[t].Refused? ==> Stop in es
  {
    RefusalsOverRun(Start, es);
  }

  lemma NeverStuckBeforeClose(s: Sys)
    requires Inv(s) && RefusalsOk(s) && !s.stopped
    requires forall e :: Next(s, e).Some? ==> e.Call? || e.Stop?
    ensures s.anchor.Serving? && forall t :: t in s.callers ==> s.callers[t].Got?
  {
    assert Next(s, TaskDone(0)).None?;
    forall t | t in s.callers
      ensures s.callers[t].Got?
    {
      assert Next(s, Accept(t)).None? && Next(s, Deliver(t)).None?;
    }
  }

  /**
   Over every run without Close: only so many steps are possible without new calls, and when none
   is left but a call or Close every caller has the result of its own task, and the anchor serves.
   */
  lemma EveryCallerIsServed(es: seq<Event>, more: seq<Event>)
    requires Run(Start, es).Some? && Stop !in es && Stop !in more
    requires Run(Run(Start, es).value, more).Some? && NoNewCalls(more)
    ensures |more| <= Rank(Run(Start, es).value)
    ensures var s := Run(Run(Start, es).value, more).value;
            (forall e :: Next(s, e).Some? ==> e.Call? || e.Stop?) ==>
              && s.anchor.Serving?
              && forall t :: t in s.callers ==> s.callers[t].Got? && (t, s.callers[t].v) in s.finished
  {
    var s0 := Run(Start, es).value;
    RunKeepsInv(Start, es);
    RefusalsOverRun(Start, es);
    RunsAreBounded(s0, more);
    RunKeepsInv(s0, more);
    RefusalsOverRun(s0, more);
    var s := Run(s0, more).value;
    if forall e :: Next(s, e).Some? ==> e.Call? || e.Stop? {
      NeverStuckBeforeClose(s);
    }
  }

  /** Close does not bar a caller that is already there: the anchor may still take its task. */
  lemma ServedAfterClose(v: int)
    ensures var end := Run(Start, [Call(0), Stop, Accept(0), TaskDone(v), Deliver(0)]);
            end.Some? && end.value.callers == map[0 := Got(v)]
  {
    var es := [Call(0), Stop, Accept(0), TaskDone(v), Deliver(0)];
    var s1 := Sys(true, Serving, map[0 := Selecting], map[], [], []);
    var s2 := Sys(true, Running(0), map[0 := Waiting], map[], [0], []);
    var s3 := Sys(true, Serving, map[0 := Waiting], map[0 := v], [0], [(0, v)]);
    assert Next(Next(Start, Call(0)).value, Stop) == Some(s1);
    assert s1.callers[0 := Waiting] == s2.callers && s1.started + [0] == s2.started;
    assert s2.errChs[0 := v] == s3.errChs && s2.finished + [(0, v)] == s3.finished;
    assert Next(s1, Accept(0)) == Some(s2) && Next(s2, TaskDone(v)) == Some(s3);
    assert es[1..] == [Stop, Accept(0), TaskDone(v), Deliver(0)];
    assert es[1..][1..] == [Accept(0), TaskDone(v), Deliver(0)];
    assert es[1..][1..][1..] == [TaskDone(v), Deliver(0)];
    assert es[1..][1..][1..][1..] == [Deliver(0)];
    assert [Deliver(0)][1..] == [];
    assert Run(s2, [TaskDone(v), Deliver(0)]) == Run(s3, [Deliver(0)]) == Next(s3, Deliver(0));
    assert Run(s1, es[1..][1..]) == Run(s2, es[1..][1..][1..]);
  }
}
