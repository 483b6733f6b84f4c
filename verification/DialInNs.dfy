/**
 dialInNS: a producer in the namespace, a caller that may be cancelled, and the goroutine that
 drains the one-slot channel after a cancellation.
 */
module DialInNs {
  import opened Bytes

  // ---- connectInNS: who owns the descriptors ----

  datatype Attempt = SocketFails | ConnectFails | NonblockFails | FileConnFails | Connects

  class Descriptors {
    var inUse: set<nat>
    var next: nat

    ghost predicate Valid()
      reads this
    {
      forall fd :: fd in inUse ==> fd < next
    }

    constructor ()
      ensures Valid() && inUse == {}
    {
      inUse, next := {}, 0;
    }

    /** socket(2) and dup(2) */
    method Allocate() returns (fd: nat)
      requires Valid()
      modifies this
      ensures Valid() && fd !in old(inUse) && inUse == old(inUse) + {fd} && next == old(next) + 1
    {
      fd := next;
      inUse, next := inUse + {fd}, next + 1;
    }

    method Close(fd: nat)
      requires Valid()
      modifies this`inUse
      ensures Valid() && inUse == old(inUse) - {fd}
    {
      inUse := inUse - {fd};
    }

    /** An attempt leaves one descriptor in use, the connection's own, if it succeeds, and none if not. */
    method ConnectInNS(a: Attempt) returns (conn: Option<nat>)
      requires Valid()
      modifies this
      ensures Valid()
      ensures conn.Some? <==> a.Connects?
      ensures conn.None? ==> inUse == old(inUse)
      ensures conn.Some? ==> conn.value !in old(inUse) && inUse == old(inUse) + {conn.value}
    {
      if a.SocketFails? {
        return None;
      }
      var fd := Allocate();
      if a.ConnectFails? {
        Close(fd);
        return None;
      }
      if a.NonblockFails? {
        Close(fd);
        return None;
      }
      if a.FileConnFails? {
        Close(fd);  // f.Close, before the error is looked at
        return None;
      }
      var dup := Allocate();
      Close(fd);
      return Some(dup);
    }
  }

  // ---- the protocol ----

  /** A dialResult; connections are numbered as they are opened. */
  datatype Outcome = Opened(c: nat) | Failed

  datatype Producer =
    | Entering                   // ns.Run, before the namespaces are joined
    | Resolving
    | Trying(left: nat)          // addresses not tried yet
    | Pushing(r: Outcome)        // before the send inside the function given to Run
    | Ran(runErr: bool)          // Run has returned
    | PushingLate                // before the send after Run
    | Finished

  datatype Caller = Selecting | Cancelled | Returned(r: Outcome)

  datatype Drain = NotStarted | Draining | Closing(c: nat) | Drained

  /**
   addresses is what resolution will give, None for an error. pushes and closes are history: how
   many results were sent, and how often each opened connection was closed by the drain.
   */
  datatype Sys = Sys(addresses: Option<nat>, done: bool, producer: Producer, pushed: bool, slot: Option<Outcome>,
                     caller: Caller, drain: Drain, pushes: nat, closes: seq<nat>)

  function Start(addresses: Option<nat>): Sys {
    Sys(addresses, false, Entering, false, None, Selecting, NotStarted, 0, [])
  }

  datatype Event =
    | ContextDone
    | Enter(ok: bool)
    | Resolve
    | Try(ok: bool)
    | NoMoreAddresses
    | Push
    | AfterRun
    | PushLate
    | SeeDone
    | TakeResult
    | DrainResult
    | DrainClose

  function Next(s: Sys, e: Event): Option<Sys> {
    match e
    case ContextDone => if s.done then None else Some(s.(done := true))
    case Enter(ok) =>
      if !s.producer.Entering? then None else Some(s.(producer := if ok then Resolving else Ran(true)))
    case Resolve =>
      if !s.producer.Resolving? then None
      else Some(s.(producer := if s.addresses.None? then Pushing(Failed) else Trying(s.addresses.value)))
    case Try(ok) =>
      if !s.producer.Trying? || s.producer.left == 0 then None
      else if ok then Some(s.(producer := Pushing(Opened(|s.closes|)), closes := s.closes + [0]))
      else Some(s.(producer := Trying(s.producer.left - 1)))
    case NoMoreAddresses =>
      if !s.producer.Trying? || s.producer.left > 0 then None else Some(s.(producer := Pushing(Failed)))
    case Push =>
      if !s.producer.Pushing? || s.slot.Some? then None  // a full channel blocks
      else Some(s.(producer := Ran(false), slot := Some(s.producer.r), pushed := true, pushes := s.pushes + 1))
    case AfterRun =>
      if !s.producer.Ran? then None
      else Some(s.(producer := if s.producer.runErr && !s.pushed then PushingLate else Finished))
    case PushLate =>
      if !s.producer.PushingLate? || s.slot.Some? then None
      else Some(s.(producer := Finished, slot := Some(Failed), pushes := s.pushes + 1))
    case SeeDone =>
      if !s.caller.Selecting? || !s.done then None else Some(s.(caller := Cancelled, drain := Draining))
    case TakeResult =>
      if !s.caller.Selecting? || s.slot.None? then None else Some(s.(caller := Returned(s.slot.value), slot := None))
    case DrainResult =>
      if !s.drain.Draining? || s.slot.None? then None
      else
        var r := s.slot.value;
        Some(s.(slot := None, drain := if r.Opened? then Closing(r.c) else Drained))
    case DrainClose =>
      if !s.drain.Closing? then None
      else
        var c := s.drain.c;
        Some(s.(drain := Drained, closes := if c < |s.closes| then s.closes[c := s.closes[c] + 1] else s.closes))
  }

  function Run(s: Sys, es: seq<Event>): Option<Sys>
    decreases |es|
  {
    if es == [] then Some(s)
    else
      var next := Next(s, es[0]);
      if next.None? then None else Run(next.value, es[1..])
  }

  /** All goroutines have ended and the call has returned. */
  predicate Done(s: Sys) {
    s.producer.Finished? && !s.caller.Selecting? && (s.drain.NotStarted? || s.drain.Drained?)
  }

  // ---- the invariant ----

  /** Results received so far, by the caller or the drain. */
  function Received(s: Sys): nat {
    (if s.caller.Returned? then 1 else 0) + (if s.drain.Closing? || s.drain.Drained? then 1 else 0)
  }

  /** The places where connection c can be waiting for its fate. */
  function Places(s: Sys, c: nat): nat {
    (if s.producer == Pushing(Opened(c)) then 1 else 0) +
    (if s.slot == Some(Opened(c)) then 1 else 0) +
    (if s.drain == Closing(c) then 1 else 0) +
    (if s.caller == Returned(Opened(c)) then 1 else 0)
  }

  ghost predicate Inv(s: Sys) {
    && s.pushes == Received(s) + (if s.slot.Some? then 1 else 0)
    && s.pushes == (if s.producer.Finished? || (s.producer.Ran? && !s.producer.runErr) then 1 else 0)
    && (s.pushed ==> s.pushes == 1) && (s.producer.Ran? && !s.producer.runErr ==> s.pushed)
    && (s.caller.Cancelled? <==> !s.drain.NotStarted?)
    && (s.producer.Entering? || s.producer.Resolving? || s.producer.Trying? ==> s.closes == [])
    && |s.closes| <= 1
    && (s.producer.Pushing? && s.producer.r.Opened? ==> s.producer.r.c < |s.closes|)
    && (s.slot.Some? && s.slot.value.Opened? ==> s.slot.value.c < |s.closes|)
    && (s.drain.Closing? ==> s.drain.c < |s.closes|)
    && (forall c :: 0 <= c < |s.closes| ==> Places(s, c) + s.closes[c] == 1)
  }

  lemma NextKeepsInv(s: Sys, e: Event)
    requires Inv(s) && Next(s, e).Some?
    ensures Inv(Next(s, e).value)
  {
    var s' := Next(s, e).value;
    forall c | 0 <= c < |s'.closes|
      ensures Places(s', c) + s'.closes[c] == 1
    {
      assert c < |s.closes| ==> Places(s, c) + s.closes[c] == 1;
    }
  }

  lemma {:induction false} RunKeepsInv(s: Sys, es: seq<Event>)
    requires Inv(s) && Run(s, es).Some?
    ensures Inv(Run(s, es).value)
    decreases |es|
  {
    if es != [] {
      NextKeepsInv(s, es[0]);
      RunKeepsInv(Next(s, es[0]).value, es[1..]);
    }
  }

  // ---- no result twice, no sender blocked ----

  /** In every reachable state at most one result has been sent, and a sender finds the slot empty. */
  lemma SendersNeverBlock(addresses: Option<nat>, es: seq<Event>)
    requires Run(Start(addresses), es).Some?
    ensures var s := Run(Start(addresses), es).value;
            && s.pushes <= 1
            && (s.producer.Pushing? ==> Next(s, Push).Some?)
            && (s.producer.PushingLate? ==> Next(s, PushLate).Some?)
  {
    RunKeepsInv(Start(addresses), es);
  }

  // ---- no connection lost ----

  /**
   When everything has ended, exactly one result was sent, and every connection that was opened
   was either returned to the caller and never closed here, or closed exactly once.
   */
  lemma NoConnectionLost(addresses: Option<nat>, es: seq<Event>, c: nat)
    requires Run(Start(addresses), es).Some? && Done(Run(Start(addresses), es).value)
    ensures var s := Run(Start(addresses), es).value;
            && s.pushes == 1
            && (c < |s.closes| ==> s.closes[c] == if s.caller == Returned(Opened(c)) then 0 else 1)
  {
    RunKeepsInv(Start(addresses), es);
    var s := Run(Start(addresses), es).value;
    assert c < |s.closes| ==> Places(s, c) + s.closes[c] == 1;
  }

  // ---- everything ends ----

  function ProducerRank(s: Sys): nat {
    match s.producer
    case Entering => 7 + if s.addresses.Some? then s.addresses.value else 0
    case Resolving => 6 + if s.addresses.Some? then s.addresses.value else 0
    case Trying(left) => 5 + left
    case Pushing(_) => 4
    case Ran(_) => 2
    case PushingLate => 1
    case Finished => 0
  }

  function Rank(s: Sys): nat {
    ProducerRank(s)
    + (if s.done then 0 else 1)
    + (if s.caller.Selecting? then 4 else 0)
    + (match s.drain case NotStarted => 0 case Draining => 3 case Closing(_) => 1 case Drained => 0)
  }

  lemma StepsRunOut(s: Sys, e: Event)
    requires Next(s, e).Some?
    ensures Rank(Next(s, e).value) < Rank(s)
  {
  }

  /** Some step other than a cancellation is possible until everything has ended. */
  lemma NeverStuck(s: Sys)
    requires Inv(s) && !Done(s)
    ensures exists e :: e != ContextDone && Next(s, e).Some?
  {
    if !s.producer.Finished? {
      var e := match s.producer
        case Entering => Enter(true)
        case Resolving => Resolve
        case Trying(left) => if left == 0 then NoMoreAddresses else Try(true)
        case Pushing(_) => Push
        case Ran(_) => AfterRun
        case PushingLate => PushLate
        case Finished => ContextDone;
      assert e != ContextDone && Next(s, e).Some?;
    } else if s.caller.Selecting? {
      assert Next(s, TakeResult).Some?;
    } else if s.drain.Draining? {
      assert Next(s, DrainResult).Some?;
    } else {
      assert Next(s, DrainClose).Some?;
    }
  }

  lemma {:induction false} RunsAreBounded(s: Sys, es: seq<Event>)
    requires Inv(s) && Run(s, es).Some?
    ensures |es| + Rank(Run(s, es).value) <= Rank(s)
    decreases |es|
  {
    if es != [] {
      StepsRunOut(s, es[0]);
      NextKeepsInv(s, es[0]);
      RunsAreBounded(Next(s, es[0]).value, es[1..]);
    }
  }

  /**
   No goroutine is left behind: in every interleaving the number of steps is bounded, and a run
   that cannot go on, even with no cancellation to help it, has ended everything.
   */
  lemma EveryRunEnds(addresses: Option<nat>, es: seq<Event>)
    requires Run(Start(addresses), es).Some?
    ensures |es| <= Rank(Start(addresses))
    ensures var s := Run(Start(addresses), es).value;
            (forall e :: e != ContextDone ==> Next(s, e).None?) ==> Done(s)
  {
    RunKeepsInv(Start(addresses), es);
    RunsAreBounded(Start(addresses), es);
    var s := Run(Start(addresses), es).value;
    if !Done(s) {
      NeverStuck(s);
    }
  }

  // ---- what the caller is told ----

  /** How many attempts of a run ended so. */
  function Tries(es: seq<Event>, ok: bool): nat {
    if es == [] then 0 else (if es[0] == Try(ok) then 1 else 0) + Tries(es[1..], ok)
  }

  /** What has happened so far: was entry refused, how many attempts failed, did one succeed. */
  datatype Story = Story(refused: bool, failures: nat, connected: bool)

  function Told(h: Story, es: seq<Event>): Story {
    Story(h.refused || Enter(false) in es, h.failures + Tries(es, false), h.connected || Try(true) in es)
  }

  /** The result that such a story calls for. */
  predicate Deserves(addresses: Option<nat>, h: Story, r: Outcome) {
    var gaveUp := h.refused || addresses.None? || addresses.value == h.failures;
    if r.Opened? then h.connected && !gaveUp && r.c == 0 else !h.connected && gaveUp
  }

  ghost predicate StoryOk(s: Sys, h: Story) {
    && (match s.producer
        case Entering => h == Story(false, 0, false)
        case Resolving => h == Story(false, 0, false)
        case Trying(left) =>
          !h.refused && !h.connected && s.addresses.Some? && h.failures + left == s.addresses.value && s.closes == []
        case Pushing(r) => !h.refused && Deserves(s.addresses, h, r)
        case Ran(runErr) => !s.pushed == runErr && (runErr ==> h == Story(true, 0, false))
        case PushingLate => h == Story(true, 0, false)
        case Finished => true)
    && (s.producer.Entering? || s.producer.Resolving? ==> s.closes == [])
    && (!s.producer.Ran? && !s.producer.Finished? && !s.producer.PushingLate? ==> !s.pushed)
    && (s.slot.Some? ==> Deserves(s.addresses, h, s.slot.value))
    && (s.caller.Returned? ==> Deserves(s.addresses, h, s.caller.r))
    && (s.slot.Some? || s.caller.Returned? ==> (s.producer.Ran? && !s.producer.runErr) || s.producer.Finished?)
  }

  lemma NextKeepsStory(s: Sys, e: Event, h: Story)
    requires Next(s, e).Some? && StoryOk(s, h)
    ensures StoryOk(Next(s, e).value, Told(h, [e])) && Next(s, e).value.addresses == s.addresses
  {
    assert Tries([e], false) == if e == Try(false) then 1 else 0;
  }

  lemma {:induction false} StoryOverRun(s: Sys, es: seq<Event>, h: Story)
    requires Run(s, es).Some? && StoryOk(s, h)
    ensures StoryOk(Run(s, es).value, Told(h, es)) && Run(s, es).value.addresses == s.addresses
    decreases |es|
  {
    if es != [] {
      NextKeepsStory(s, es[0], h);
      StoryOverRun(Next(s, es[0]).value, es[1..], Told(h, [es[0]]));
      assert Tries([es[0]], false) == if es[0] == Try(false) then 1 else 0;
      assert Told(Told(h, [es[0]]), es[1..]) == Told(h, es);
    }
  }

  /**
   Over every run: a caller that has its result has the connection, the first and only one, exactly
   if some attempt succeeded, and an error exactly if the namespaces could not be entered,
   resolution failed, or every address was tried in vain.
   */
  lemma CallerIsToldTheTruth(addresses: Option<nat>, es: seq<Event>)
    requires Run(Start(addresses), es).Some? && Run(Start(addresses), es).value.caller.Returned?
    ensures var r := Run(Start(addresses), es).value.caller.r;
            && (r == Opened(0) <==> Try(true) in es)
            && (r == Failed <==> Enter(false) in es || addresses.None? || Tries(es, false) == addresses.value)
            && (r == Opened(0) || r == Failed)
  {
    StoryOverRun(Start(addresses), es, Story(false, 0, false));
  }

  /** With a result ready and the context done, either may win; the drain then gets the result. */
  lemma EitherMayWin(s: Sys)
    requires Inv(s) && s.done && s.caller.Selecting? && s.slot.Some?
    ensures Next(s, TakeResult).Some? && Next(s, TakeResult).value.caller == Returned(s.slot.value)
    ensures var cancelled := Next(s, SeeDone);
            && cancelled.Some? && cancelled.value.caller.Cancelled? && cancelled.value.slot == s.slot
            && Next(cancelled.value, DrainResult).Some?
  {
  }

  lemma {:induction false} CancelledOnlyIfDone(s: Sys, es: seq<Event>)
    requires Run(s, es).Some? && ContextDone !in es && !s.done && !s.caller.Cancelled?
    ensures !Run(s, es).value.done && !Run(s, es).value.caller.Cancelled?
    decreases |es|
  {
    if es != [] {
      CancelledOnlyIfDone(Next(s, es[0]).value, es[1..]);
    }
  }

  /** Without a cancellation a run that has ended has told its caller. */
  lemma UncancelledReturns(addresses: Option<nat>, es: seq<Event>)
    requires Run(Start(addresses), es).Some? && ContextDone !in es && Done(Run(Start(addresses), es).value)
    ensures Run(Start(addresses), es).value.caller.Returned?
  {
    CancelledOnlyIfDone(Start(addresses), es);
  }
}
